/** The reference semantics of a training run: a pure fold of the plan over the recorded slot results. */
module EsFold {
  import opened Wrappers
  import opened EsPlan

  /** Tensor states. The state hash is injective, so a state stands for its own hash. */
  type Weights(==, !new, 0)

  /** Perturbation and the evolution-strategies update as deterministic functions of the weights. */
  datatype Optimizer = Optimizer(perturb: (Weights, nat, real) -> Weights,
                                 update: (Weights, seq<nat>, seq<real>, real) -> Weights,
                                 initial: Weights)

  /** One durable job file. `weights` is the actual state hash recorded with the request. */
  datatype JobRecord =
    | Started(weights: Weights)
    | OutcomeUnknown(weights: Weights)
    | Complete(weights: Weights, metric: real)

  type Jobs = map<Slot, JobRecord>

  /** One step of the optimizer's own history. */
  datatype EsStep = EsStep(seeds: seq<nat>, rewards: seq<real>, population: seq<seq<real>>,
                           before: Weights, after: Weights)

  /** One committed generation as the driver records it. */
  datatype GenerationRecord = GenerationRecord(generation: nat, sigma: real, metrics: seq<seq<real>>,
                                               fitness: seq<real>, before: Weights, after: Weights,
                                               dev: seq<real>, devMean: real, requests: seq<Slot>)

  datatype Best = Best(generation: nat, metric: real)

  datatype State = State(weights: Weights, history: seq<EsStep>, completed: seq<GenerationRecord>, best: Option<Best>)

  function Sum(xs: seq<real>): real {
    if xs == [] then 0.0 else Sum(xs[..|xs| - 1]) + xs[|xs| - 1]
  }

  function Mean(xs: seq<real>): real {
    if xs == [] then 0.0 else Sum(xs) / |xs| as real
  }

  /** The running totals of a list of measurements. */
  ghost predicate Totals(xs: seq<real>, t: seq<real>) {
    |t| == |xs| + 1 && t[0] == 0.0 && forall i :: 0 <= i < |xs| ==> t[i + 1] == t[i] + xs[i]
  }

  /** `m` times the number of measurements is their total. */
  ghost predicate Average(m: real, xs: seq<real>) {
    exists t :: Totals(xs, t) && m * |xs| as real == t[|xs|]
  }

  lemma {:induction false} SumIsTotal(xs: seq<real>) returns (t: seq<real>)
    ensures Totals(xs, t) && t[|xs|] == Sum(xs)
  {
    if xs == [] {
      t := [0.0];
    } else {
      var front := SumIsTotal(xs[..|xs| - 1]);
      t := front + [Sum(xs)];
    }
  }

  lemma MeanIsAverage(xs: seq<real>)
    ensures Average(Mean(xs), xs)
  {
    var t := SumIsTotal(xs);
    assert Totals(xs, t) && Mean(xs) * |xs| as real == t[|xs|];
  }

  lemma {:induction false} TotalsAgree(xs: seq<real>, t: seq<real>, u: seq<real>, n: nat)
    requires Totals(xs, t) && Totals(xs, u) && n <= |xs|
    ensures t[n] == u[n]
  {
    if n > 0 { TotalsAgree(xs, t, u, n - 1); }
  }

  /** The average of at least one measurement is one number. */
  lemma OneAverage(m: real, n: real, xs: seq<real>)
    requires xs != [] && Average(m, xs) && Average(n, xs)
    ensures m == n
  {
    var t :| Totals(xs, t) && m * |xs| as real == t[|xs|];
    var u :| Totals(xs, u) && n * |xs| as real == u[|xs|];
    TotalsAgree(xs, t, u, |xs|);
    Cancel(m, n, |xs| as real, t[|xs|]);
  }

  lemma Cancel(m: real, n: real, k: real, product: real)
    requires k > 0.0
    requires m * k == product
    requires n * k == product
    ensures m == n
  {
    assert m == product / k && n == product / k;
  }

  /** One measurement is its own mean, and the mean of two lists weighs each by its length. */
  lemma MeanOfParts(x: real, a: seq<real>, b: seq<real>)
    requires a != [] && b != []
    ensures Mean([x]) == x
    ensures Mean(a + b) * |a + b| as real == Mean(a) * |a| as real + Mean(b) * |b| as real
  {
    SumOfParts(a, b);
    MeanOfOne(x);
  }

  lemma MeanOfOne(x: real)
    ensures Mean([x]) == x
  {
    assert [x][..0] == [] && Sum([x]) == x;
  }

  lemma {:induction false} SumOfParts(a: seq<real>, b: seq<real>)
    ensures Sum(a + b) == Sum(a) + Sum(b)
  {
    if b == [] {
      assert a + b == a;
    } else {
      SumOfParts(a, b[..|b| - 1]);
      assert (a + b)[..|a + b| - 1] == a + b[..|b| - 1];
    }
  }

  /** The strict-improvement choice of the best generation. */
  function Better(best: Option<Best>, generation: nat, score: real): Option<Best> {
    if best.None? || score > best.value.metric then Some(Best(generation, score)) else best
  }

  ghost function Metric(jobs: Jobs, s: Slot): real {
    if s in jobs && jobs[s].Complete? then jobs[s].metric else 0.0
  }

  ghost function Metrics(jobs: Jobs, slots: seq<Slot>): seq<real> {
    seq(|slots|, i requires 0 <= i < |slots| => Metric(jobs, slots[i]))
  }

  /** Metrics of the first `n` candidates, candidate by candidate. */
  ghost function Population(jobs: Jobs, e: Entry, n: nat): seq<seq<real>>
    requires n <= |e.populationSeeds| && |e.caseIndices| == |e.environmentSeeds|
  {
    if n == 0 then [] else Population(jobs, e, n - 1) + [Metrics(jobs, CandidateSlots(e, n - 1))]
  }

  function Fitness(metrics: seq<seq<real>>): seq<real> {
    if metrics == [] then []
    else Fitness(metrics[..|metrics| - 1]) + [Mean(metrics[|metrics| - 1])]
  }

  ghost predicate HasMetric(jobs: Jobs, s: Slot, metric: real) {
    s in jobs && jobs[s].Complete? && jobs[s].metric == metric
  }

  /** A record of generation `e` says what was measured: each candidate's metrics are those recorded for its cases, under
      its own seed and the generation's sigma, its fitness is their average, and so for the development cases. */
  ghost predicate Measured(e: Entry, r: GenerationRecord, jobs: Jobs)
    requires |e.caseIndices| == |e.environmentSeeds|
  {
    && r.generation == e.generation && r.sigma == e.sigma
    && |r.metrics| == |r.fitness| == |e.populationSeeds|
    && (forall c :: 0 <= c < |r.metrics| ==> |r.metrics[c]| == |e.caseIndices| && Average(r.fitness[c], r.metrics[c]))
    && (forall c, i :: 0 <= c < |r.metrics| && 0 <= i < |e.caseIndices| ==>
          HasMetric(jobs, Slot(Train, e.generation, Some(c), e.caseIndices[i], e.environmentSeeds[i],
                               Some(e.populationSeeds[c]), Some(e.sigma)), r.metrics[c][i]))
    && |r.dev| == (if e.runDev then |e.devEnvironmentSeeds| else 0)
    && (forall i :: 0 <= i < |r.dev| ==>
          HasMetric(jobs, Slot(Dev, e.generation, None, i, e.devEnvironmentSeeds[i], None, None), r.dev[i]))
    && (r.dev != [] ==> Average(r.devMean, r.dev))
  }

  lemma {:induction false} PopulationMeasured(jobs: Jobs, e: Entry, n: nat, c: nat)
    requires c < n <= |e.populationSeeds| && |e.caseIndices| == |e.environmentSeeds|
    ensures |Population(jobs, e, n)| == |Fitness(Population(jobs, e, n))| == n
    ensures Population(jobs, e, n)[c] == Metrics(jobs, CandidateSlots(e, c))
    ensures Average(Fitness(Population(jobs, e, n))[c], Population(jobs, e, n)[c])
  {
    hide Average, Mean;
    FitnessPrefix(jobs, e, n);
    var all := Population(jobs, e, n);
    assert all[..n - 1] == Population(jobs, e, n - 1);
    if c < n - 1 {
      PopulationMeasured(jobs, e, n - 1, c);
      FitnessPrefix(jobs, e, n - 1);
    } else {
      FitnessPrefix(jobs, e, n - 1);
      MeanIsAverage(all[c]);
    }
  }

  ghost predicate AllComplete(jobs: Jobs, slots: seq<Slot>) {
    forall s :: s in slots ==> s in jobs && jobs[s].Complete?
  }

  lemma SlotsMeasured(jobs: Jobs, slots: seq<Slot>)
    requires AllComplete(jobs, slots)
    ensures forall i :: 0 <= i < |slots| ==> HasMetric(jobs, slots[i], Metrics(jobs, slots)[i])
  {
    forall i | 0 <= i < |slots| ensures HasMetric(jobs, slots[i], Metrics(jobs, slots)[i]) { assert slots[i] in slots; }
  }

  lemma {:induction false} CandidateIsTrained(e: Entry, n: nat, c: nat)
    requires c < n <= |e.populationSeeds| && |e.caseIndices| == |e.environmentSeeds|
    ensures forall s :: s in CandidateSlots(e, c) ==> s in TrainSlots(e, n)
  {
    hide CandidateSlots;
    if c < n - 1 { CandidateIsTrained(e, n - 1, c); }
  }

  /** What a trained generation adds: one record of what was measured, the optimizer's step from and to the recorded
      weights, and a new best exactly when its development average exceeds the best so far. */
  ghost predicate Trained(e: Entry, before: State, after: State, jobs: Jobs) {
    && |e.caseIndices| == |e.environmentSeeds|
    && |after.completed| == |before.completed| + 1 && before.completed <= after.completed
    && var r := after.completed[|before.completed|];
    && Measured(e, r, jobs) && r.before == before.weights && r.after == after.weights
    && after.history == before.history + [EsStep(e.populationSeeds, r.fitness, r.metrics, r.before, r.after)]
    && after.best == if r.dev != [] && (before.best.None? || r.devMean > before.best.value.metric)
                     then Some(Best(e.generation, r.devMean)) else before.best
  }

  /** The new weights are the optimizer's update of the old ones by the recorded fitness. */
  ghost predicate UpdatedBy(opt: Optimizer, e: Entry, before: State, after: State) {
    && |after.completed| > 0
    && after.weights
       == opt.update(before.weights, e.populationSeeds, after.completed[|after.completed| - 1].fitness, e.sigma)
  }

  /** The bookkeeping of one generation does just that. */
  lemma AdvanceMeasured(e: Entry, st: State, metrics: seq<seq<real>>, after: Weights, dev: seq<real>, requests: seq<Slot>, jobs: Jobs)
    requires |e.caseIndices| == |e.environmentSeeds| && e.devEnvironmentSeeds != []
    requires AllComplete(jobs, TrainSlots(e, |e.populationSeeds|)) && AllComplete(jobs, DevSlots(e))
    requires metrics == Population(jobs, e, |e.populationSeeds|) && dev == Metrics(jobs, DevSlots(e))
    ensures Trained(e, st, Advance(e, st, metrics, after, dev, requests), jobs)
  {
    hide Average, Mean, Fitness, TrainSlots, Population, Measured;
    var next := Advance(e, st, metrics, after, dev, requests);
    assert next.completed[..|st.completed|] == st.completed;
    RecordMeasured(e, next.completed[|st.completed|], metrics, dev, jobs);
  }

  lemma RecordMeasured(e: Entry, r: GenerationRecord, metrics: seq<seq<real>>, dev: seq<real>, jobs: Jobs)
    requires |e.caseIndices| == |e.environmentSeeds|
    requires AllComplete(jobs, TrainSlots(e, |e.populationSeeds|)) && AllComplete(jobs, DevSlots(e))
    requires metrics == Population(jobs, e, |e.populationSeeds|) && dev == Metrics(jobs, DevSlots(e))
    requires r.generation == e.generation && r.sigma == e.sigma && r.metrics == metrics && r.fitness == Fitness(metrics)
    requires r.dev == dev && r.devMean == Mean(dev)
    ensures Measured(e, r, jobs)
  {
    hide Average, Mean, Fitness, TrainSlots, Population;
    var n := |e.populationSeeds|;
    FitnessPrefix(jobs, e, n);
    forall c | 0 <= c < n
      ensures |metrics[c]| == |e.caseIndices| && Average(Fitness(metrics)[c], metrics[c])
      ensures forall i :: 0 <= i < |e.caseIndices| ==>
        HasMetric(jobs, Slot(Train, e.generation, Some(c), e.caseIndices[i], e.environmentSeeds[i],
                             Some(e.populationSeeds[c]), Some(e.sigma)), metrics[c][i])
    {
      PopulationMeasured(jobs, e, n, c);
      CandidateIsTrained(e, n, c);
      SlotsMeasured(jobs, CandidateSlots(e, c));
      forall i | 0 <= i < |e.caseIndices|
        ensures HasMetric(jobs, Slot(Train, e.generation, Some(c), e.caseIndices[i], e.environmentSeeds[i],
                                     Some(e.populationSeeds[c]), Some(e.sigma)), metrics[c][i])
      {
        assert CandidateSlots(e, c)[i] == TrainSlot(e, c, i);
      }
    }
    SlotsMeasured(jobs, DevSlots(e));
    forall i | 0 <= i < |dev|
      ensures HasMetric(jobs, Slot(Dev, e.generation, None, i, e.devEnvironmentSeeds[i], None, None), dev[i])
    {
      assert DevSlots(e)[i] == DevSlot(e, i);
    }
    MeanIsAverage(dev);
  }

  /** What one generation does to the driver state, given the results of its slots. */
  ghost function Step(opt: Optimizer, e: Entry, st: State, jobs: Jobs): State
    requires |e.caseIndices| == |e.environmentSeeds|
  {
    var metrics := Population(jobs, e, |e.populationSeeds|);
    var after := opt.update(st.weights, e.populationSeeds, Fitness(metrics), e.sigma);
    var dev := Metrics(jobs, DevSlots(e));
    Advance(e, st, metrics, after, dev, GenerationSlots(e))
  }

  /** The bookkeeping of one generation once its measurements and its update are known. */
  function Advance(e: Entry, st: State, metrics: seq<seq<real>>, after: Weights, dev: seq<real>, requests: seq<Slot>): State {
    var fitness := Fitness(metrics);
    State(after,
          st.history + [EsStep(e.populationSeeds, fitness, metrics, st.weights, after)],
          st.completed + [GenerationRecord(e.generation, e.sigma, metrics, fitness, st.weights, after, dev, Mean(dev), requests)],
          if e.runDev then Better(st.best, e.generation, Mean(dev)) else st.best)
  }

  /** The state after the first `k` plan entries. */
  ghost function Fold(opt: Optimizer, plan: Plan, k: nat, jobs: Jobs): State
    requires k <= |plan| && Aligned(plan)
  {
    if k == 0 then State(opt.initial, [], [], None)
    else Step(opt, plan[k - 1], Fold(opt, plan, k - 1, jobs), jobs)
  }

  /** Each step of the fold is a trained generation, and nothing else. */
  lemma FoldIsTrained(opt: Optimizer, plan: Plan, k: nat, jobs: Jobs)
    requires k < |plan| && Aligned(plan) && plan[k].devEnvironmentSeeds != []
    requires AllComplete(jobs, TrainSlots(plan[k], |plan[k].populationSeeds|)) && AllComplete(jobs, DevSlots(plan[k]))
    ensures Fold(opt, plan, 0, jobs) == State(opt.initial, [], [], None)
    ensures Trained(plan[k], Fold(opt, plan, k, jobs), Fold(opt, plan, k + 1, jobs), jobs)
    ensures UpdatedBy(opt, plan[k], Fold(opt, plan, k, jobs), Fold(opt, plan, k + 1, jobs))
  {
    hide Trained, Population, TrainSlots, Fitness, Metrics, DevSlots;
    var e, st := plan[k], Fold(opt, plan, k, jobs);
    var metrics := Population(jobs, e, |e.populationSeeds|);
    AdvanceMeasured(e, st, metrics, opt.update(st.weights, e.populationSeeds, Fitness(metrics), e.sigma),
                    Metrics(jobs, DevSlots(e)), GenerationSlots(e), jobs);
  }

  /** The driver's bookkeeping of one generation is one step of the fold. */
  lemma FoldStep(opt: Optimizer, plan: Plan, k: nat, jobs: Jobs, metrics: seq<seq<real>>, after: Weights,
                 dev: seq<real>, requests: seq<Slot>)
    requires k < |plan| && Aligned(plan)
    requires metrics == Population(jobs, plan[k], |plan[k].populationSeeds|)
    requires after == opt.update(Fold(opt, plan, k, jobs).weights, plan[k].populationSeeds, Fitness(metrics), plan[k].sigma)
    requires dev == Metrics(jobs, DevSlots(plan[k])) && requests == GenerationSlots(plan[k])
    ensures Fold(opt, plan, k + 1, jobs) == Advance(plan[k], Fold(opt, plan, k, jobs), metrics, after, dev, requests)
  {
  }

  lemma FoldWeights(opt: Optimizer, plan: Plan, k: nat, jobs: Jobs)
    requires k < |plan| && Aligned(plan)
    ensures Fold(opt, plan, k + 1, jobs).weights
         == opt.update(Fold(opt, plan, k, jobs).weights, plan[k].populationSeeds,
                       Fitness(Population(jobs, plan[k], |plan[k].populationSeeds|)), plan[k].sigma)
  {
  }

  /** Two job directories agree on the results of the given slots. */
  ghost predicate Agree(a: Jobs, b: Jobs, slots: seq<Slot>) {
    forall s :: s in slots ==> Metric(a, s) == Metric(b, s)
  }

  lemma AgreeParts(a: Jobs, b: Jobs, p: seq<Slot>, q: seq<Slot>)
    requires Agree(a, b, p + q)
    ensures Agree(a, b, p) && Agree(a, b, q)
  {
    forall s | s in p ensures Metric(a, s) == Metric(b, s) { assert s in p + q; }
    forall s | s in q ensures Metric(a, s) == Metric(b, s) { assert s in p + q; }
  }

  lemma {:induction false} PopulationFrame(a: Jobs, b: Jobs, e: Entry, n: nat)
    requires n <= |e.populationSeeds| && |e.caseIndices| == |e.environmentSeeds|
    requires Agree(a, b, TrainSlots(e, n))
    ensures Population(a, e, n) == Population(b, e, n)
  {
    if n > 0 {
      PopulationFrame(a, b, e, n - 1);
      MetricsFrame(a, b, CandidateSlots(e, n - 1));
    }
  }

  lemma MetricsFrame(a: Jobs, b: Jobs, slots: seq<Slot>)
    requires Agree(a, b, slots)
    ensures Metrics(a, slots) == Metrics(b, slots)
  {
    forall i | 0 <= i < |slots| ensures Metrics(a, slots)[i] == Metrics(b, slots)[i] {
      assert slots[i] in slots;
    }
  }

  /** The fold reads no result outside the generations it covers. */
  lemma {:induction false} FoldFrame(opt: Optimizer, plan: Plan, k: nat, a: Jobs, b: Jobs)
    requires k <= |plan| && Aligned(plan) && Agree(a, b, Upto(plan, k))
    ensures Fold(opt, plan, k, a) == Fold(opt, plan, k, b)
  {
    if k > 0 {
      var e := plan[k - 1];
      FoldFrame(opt, plan, k - 1, a, b);
      PopulationFrame(a, b, e, |e.populationSeeds|);
      MetricsFrame(a, b, DevSlots(e));
    }
  }

  lemma {:induction false} FoldShape(opt: Optimizer, plan: Plan, k: nat, jobs: Jobs)
    requires k <= |plan| && Aligned(plan)
    ensures |Fold(opt, plan, k, jobs).history| == |Fold(opt, plan, k, jobs).completed| == k
  {
    if k > 0 { FoldShape(opt, plan, k - 1, jobs); }
  }

  lemma {:induction false} FitnessPrefix(jobs: Jobs, e: Entry, n: nat)
    requires n <= |e.populationSeeds| && |e.caseIndices| == |e.environmentSeeds|
    ensures |Population(jobs, e, n)| == n && |Fitness(Population(jobs, e, n))| == n
  {
    if n > 0 {
      FitnessPrefix(jobs, e, n - 1);
      assert Population(jobs, e, n)[..n - 1] == Population(jobs, e, n - 1);
    }
  }

  /** The driver's bookkeeping of a generation, measured partly before and partly after the development sweep. */
  lemma GenerationIsStep(opt: Optimizer, plan: Plan, k: nat, a: Jobs, b: Jobs, metrics: seq<seq<real>>, after: Weights,
                         dev: seq<real>, requests: seq<Slot>)
    requires k < |plan| && Aligned(plan)
    requires Agree(a, b, Upto(plan, k) + TrainSlots(plan[k], |plan[k].populationSeeds|))
    requires metrics == Population(a, plan[k], |plan[k].populationSeeds|)
    requires after == opt.update(Fold(opt, plan, k, a).weights, plan[k].populationSeeds, Fitness(metrics), plan[k].sigma)
    requires dev == Metrics(b, DevSlots(plan[k])) && requests == GenerationSlots(plan[k])
    ensures Fold(opt, plan, k + 1, b) == Advance(plan[k], Fold(opt, plan, k, a), metrics, after, dev, requests)
  {
    AgreeParts(a, b, Upto(plan, k), TrainSlots(plan[k], |plan[k].populationSeeds|));
    FoldFrame(opt, plan, k, a, b);
    PopulationFrame(a, b, plan[k], |plan[k].populationSeeds|);
    FoldStep(opt, plan, k, b, metrics, after, dev, requests);
  }
}
