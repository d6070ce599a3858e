/** The frozen schedule of one evolution-strategies training run and the evaluation slots it names. */
module EsPlan {
  import opened Wrappers

  datatype Config = Config(generations: nat, population: nat, casesPerGeneration: nat, devEvery: nat,
                           trainCases: nat, devCases: nat)

  /** What the configuration and constructor checks of the source accept. */
  predicate ValidConfig(cfg: Config) {
    && cfg.generations >= 1 && cfg.population >= 2 && cfg.casesPerGeneration >= 1 && cfg.devEvery >= 1
    && cfg.devCases >= 1 && cfg.trainCases >= cfg.casesPerGeneration
  }

  /** One generation of the plan. Case identities are positions in the phase's own case list. */
  datatype Entry = Entry(generation: nat, populationSeeds: seq<nat>, sigma: real, caseIndices: seq<nat>,
                         environmentSeeds: seq<nat>, runDev: bool, devEnvironmentSeeds: seq<nat>)

  type Plan = seq<Entry>

  datatype Phase = Train | Dev

  /** The slot identity: every field of a request except its runtime id and the hash of the weights.
      The fingerprint of a slot is injective, so the slot stands for its own request id. */
  datatype Slot = Slot(phase: Phase, generation: nat, candidate: Option<nat>, caseIndex: nat,
                       environmentSeed: nat, perturbationSeed: Option<nat>, sigma: Option<real>)

  /** Draws of the four seeded generators, by position, and the annealing schedule. */
  datatype Streams = Streams(population: nat -> nat, sample: nat -> seq<nat>, environment: nat -> nat,
                             dev: nat -> nat, sigma: nat -> real)

  const SEED_LIMIT: nat := 0x8000_0000_0000_0000

  /** `random.sample` returns distinct positions, and the 63-bit stream keeps yielding a value outside any
      set too small to hold the whole population of the plan. */
  ghost predicate ValidStreams(cfg: Config, r: Streams) {
    && (forall i :: r.population(i) < SEED_LIMIT)
    && (forall used: set<nat>, from: nat :: |used| < cfg.generations * cfg.population ==> Yields(r, used, from))
    && (forall g :: IsSample(cfg, r.sample(g)))
  }

  ghost predicate Yields(r: Streams, used: set<nat>, from: nat) {
    exists j: nat :: j >= from && r.population(j) !in used
  }

  ghost predicate IsSample(cfg: Config, s: seq<nat>) {
    && |s| == cfg.casesPerGeneration
    && Distinct(s)
    && forall i :: 0 <= i < |s| ==> s[i] < cfg.trainCases
  }

  predicate DevScheduled(cfg: Config, generation: nat)
    requires cfg.devEvery >= 1
  {
    generation % cfg.devEvery == 0 || generation == cfg.generations
  }

  ghost predicate ValidEntry(cfg: Config, e: Entry, index: nat)
    requires cfg.devEvery >= 1
  {
    && e.generation == index + 1
    && |e.populationSeeds| == cfg.population
    && IsSample(cfg, e.caseIndices)
    && |e.environmentSeeds| == cfg.casesPerGeneration
    && e.runDev == DevScheduled(cfg, index + 1)
    && |e.devEnvironmentSeeds| == cfg.devCases
  }

  ghost predicate ValidPlan(cfg: Config, plan: Plan) {
    && ValidConfig(cfg)
    && |plan| == cfg.generations
    && (forall k :: 0 <= k < |plan| ==> ValidEntry(cfg, plan[k], k))
  }

  /** All perturbation seeds of the first `k` generations, in draw order. */
  ghost function SeedsUpto(plan: Plan, k: nat): seq<nat>
    requires k <= |plan|
  {
    if k == 0 then [] else SeedsUpto(plan, k - 1) + plan[k - 1].populationSeeds
  }

  lemma {:induction false} SeedsUptoPrefix(p: Plan, q: Plan, k: nat)
    requires k <= |p| && p <= q
    ensures SeedsUpto(p, k) == SeedsUpto(q, k)
  {
    if k > 0 { SeedsUptoPrefix(p, q, k - 1); }
  }

  /** The seeds stand at these increasing positions of the stream, between two draws. */
  ghost predicate InStreamOrder(r: Streams, seeds: seq<nat>, places: seq<nat>, from: nat, to: nat) {
    && |places| == |seeds| && from <= to
    && (forall i :: 0 <= i < |places| ==> from <= places[i] < to && r.population(places[i]) == seeds[i])
    && forall i, j :: 0 <= i < j < |places| ==> places[i] < places[j]
  }

  /** One population: rejection sampling against every seed drawn before. */
  method DrawPopulation(cfg: Config, r: Streams, ghost before: seq<nat>, used: set<nat>, drawn: nat)
      returns (seeds: seq<nat>, used': set<nat>, drawn': nat, ghost places: seq<nat>)
    requires ValidStreams(cfg, r)
    requires Distinct(before) && used == Elements(before)
    requires |before| + cfg.population <= cfg.generations * cfg.population
    requires forall s :: s in used ==> s < SEED_LIMIT
    requires forall j: nat :: j < drawn ==> r.population(j) in used
    ensures |seeds| == cfg.population
    ensures InStreamOrder(r, seeds, places, drawn, drawn')
    ensures forall j: nat :: j < drawn' ==> r.population(j) in used'
    ensures Distinct(before + seeds) && used' == Elements(before + seeds)
    ensures forall s :: s in used' ==> s < SEED_LIMIT
  {
    seeds, used', drawn', places := [], used, drawn, [];
    assert before + seeds == before;
    ghost var next: nat := 0;
    if cfg.population > 0 { next := NextFresh(cfg, r, before + seeds, used', drawn'); }
    while |seeds| < cfg.population
      invariant |seeds| <= cfg.population && InStreamOrder(r, seeds, places, drawn, drawn')
      invariant forall j: nat :: j < drawn' ==> r.population(j) in used'
      invariant Distinct(before + seeds) && used' == Elements(before + seeds)
      invariant forall s :: s in used' ==> s < SEED_LIMIT
      invariant |seeds| < cfg.population ==> drawn' <= next && r.population(next) !in used'
      decreases cfg.population - |seeds|, next - drawn'
    {
      var seed := r.population(drawn');
      drawn' := drawn' + 1;
      if seed !in used' {
        ElementsAppend(before + seeds, seed);
        DistinctAppend(before + seeds, [seed]);
        assert before + seeds + [seed] == before + (seeds + [seed]);
        used' := used' + {seed};
        seeds, places := seeds + [seed], places + [drawn' - 1];
        if |seeds| < cfg.population { next := NextFresh(cfg, r, before + seeds, used', drawn'); }
      }
    }
  }

  /** One entry: its case sample, the next environment draws, its sigma and its place in the sweep schedule. */
  method DrawEntry(cfg: Config, r: Streams, index: nat, seeds: seq<nat>, environmentDrawn: nat, devSeeds: seq<nat>)
    returns (e: Entry)
    requires ValidConfig(cfg) && ValidStreams(cfg, r) && |seeds| == cfg.population
    requires environmentDrawn == index * cfg.casesPerGeneration
    requires |devSeeds| == cfg.devCases && forall i :: 0 <= i < |devSeeds| ==> devSeeds[i] == r.dev(i)
    ensures ValidEntry(cfg, e, index) && FromStreams(cfg, r, e, index)
    ensures e.populationSeeds == seeds && e.devEnvironmentSeeds == devSeeds
  {
    var selected := r.sample(index);
    assert IsSample(cfg, selected);
    var environment := seq(|selected|, (i: nat) => r.environment(environmentDrawn + i));
    e := Entry(index + 1, seeds, r.sigma(index), selected, environment, DevScheduled(cfg, index + 1), devSeeds);
  }

  /** Draws the plan: the perturbation seeds are distinct over the whole plan, not only within a generation. */
  method MakePlan(cfg: Config, r: Streams) returns (plan: Plan, ghost places: seq<nat>, ghost drawn: nat)
    requires ValidConfig(cfg) && ValidStreams(cfg, r)
    ensures ValidPlan(cfg, plan)
    ensures Distinct(SeedsUpto(plan, |plan|))
    ensures forall s :: s in SeedsUpto(plan, |plan|) ==> s < SEED_LIMIT
    ensures forall k :: 0 <= k < |plan| ==>
      FromStreams(cfg, r, plan[k], k) && plan[k].devEnvironmentSeeds == plan[0].devEnvironmentSeeds
    ensures InStreamOrder(r, SeedsUpto(plan, |plan|), places, 0, drawn)
    ensures forall j: nat :: j < drawn ==> r.population(j) in SeedsUpto(plan, |plan|)
  {
    hide ValidEntry, FromStreams, ValidStreams, InStreamOrder;
    var devSeeds := seq(cfg.devCases, (i: nat) => r.dev(i));
    var used: set<nat> := {};
    plan := [];
    var at: nat, environmentDrawn: nat := 0, 0;
    places := [];
    assert InStreamOrder(r, [], [], 0, 0) by { NothingDrawn(r); }
    for index := 0 to cfg.generations
      invariant |plan| == index
      invariant forall k :: 0 <= k < index ==> ValidEntry(cfg, plan[k], k)
      invariant environmentDrawn == index * cfg.casesPerGeneration
      invariant forall k :: 0 <= k < index ==> FromStreams(cfg, r, plan[k], k) && plan[k].devEnvironmentSeeds == devSeeds
      invariant InStreamOrder(r, SeedsUpto(plan, index), places, 0, at)
      invariant forall j: nat :: j < at ==> r.population(j) in used
      invariant Distinct(SeedsUpto(plan, index)) && used == Elements(SeedsUpto(plan, index))
      invariant |SeedsUpto(plan, index)| == index * cfg.population
      invariant forall s :: s in used ==> s < SEED_LIMIT
    {
      RoomLeft(cfg, index);
      var seeds;
      ghost var found;
      ghost var start := at;
      seeds, used, at, found := DrawPopulation(cfg, r, SeedsUpto(plan, index), used, at);
      StreamOrderOn(r, SeedsUpto(plan, index), places, start, seeds, found, at);
      places := places + found;
      ghost var previous := plan;
      var entry := DrawEntry(cfg, r, index, seeds, environmentDrawn, devSeeds);
      environmentDrawn := environmentDrawn + |entry.environmentSeeds|;
      plan := plan + [entry];
      SeedsUptoPrefix(previous, plan, index);
    }
    assert forall s :: s in SeedsUpto(plan, |plan|) ==> s in used;
    drawn := at;
  }

  /** Which draws an entry consists of: sigma and case sample of its index, the next environment draws, and the development
      draws all entries share. It sweeps when its number is a multiple of the interval, or when it is the last. */
  ghost predicate FromStreams(cfg: Config, r: Streams, e: Entry, index: nat)
    requires cfg.devEvery >= 1
  {
    && e.generation == index + 1 && e.sigma == r.sigma(index) && e.caseIndices == r.sample(index)
    && |e.environmentSeeds| == cfg.casesPerGeneration && |e.devEnvironmentSeeds| == cfg.devCases
    && (forall i :: 0 <= i < cfg.casesPerGeneration ==>
          e.environmentSeeds[i] == r.environment(index * cfg.casesPerGeneration + i))
    && (forall i :: 0 <= i < cfg.devCases ==> e.devEnvironmentSeeds[i] == r.dev(i))
    && (e.runDev <==> (index + 1) % cfg.devEvery == 0 || index + 1 == cfg.generations)
  }

  lemma NothingDrawn(r: Streams)
    ensures InStreamOrder(r, [], [], 0, 0)
  {
  }

  lemma StreamOrderOn(r: Streams, a: seq<nat>, p: seq<nat>, middle: nat, b: seq<nat>, q: seq<nat>, end: nat)
    requires InStreamOrder(r, a, p, 0, middle) && InStreamOrder(r, b, q, middle, end)
    ensures InStreamOrder(r, a + b, p + q, 0, end)
  {
  }

  /** The position of a draw that rejection sampling will accept. */
  lemma NextFresh(cfg: Config, r: Streams, drawnSeeds: seq<nat>, used: set<nat>, from: nat) returns (next: nat)
    requires ValidStreams(cfg, r)
    requires Distinct(drawnSeeds) && used == Elements(drawnSeeds)
    requires |drawnSeeds| < cfg.generations * cfg.population
    ensures next >= from && r.population(next) !in used
  {
    DistinctCardinality(drawnSeeds);
    assert Yields(r, used, from);
    next :| next >= from && r.population(next) !in used;
  }

  lemma RoomLeft(cfg: Config, index: nat)
    requires index < cfg.generations
    ensures index * cfg.population + cfg.population == (index + 1) * cfg.population
                                                    <= cfg.generations * cfg.population
  {
    assert (index + 1) * cfg.population <= cfg.generations * cfg.population;
  }

  // ----- The slots a plan names, in execution order -----

  function TrainSlot(e: Entry, candidate: nat, i: nat): Slot
    requires candidate < |e.populationSeeds| && i < |e.caseIndices| && i < |e.environmentSeeds|
  {
    Slot(Train, e.generation, Some(candidate), e.caseIndices[i], e.environmentSeeds[i],
         Some(e.populationSeeds[candidate]), Some(e.sigma))
  }

  function DevSlot(e: Entry, i: nat): Slot
    requires i < |e.devEnvironmentSeeds|
  {
    Slot(Dev, e.generation, None, i, e.devEnvironmentSeeds[i], None, None)
  }

  ghost function CandidateSlots(e: Entry, candidate: nat): seq<Slot>
    requires candidate < |e.populationSeeds| && |e.caseIndices| == |e.environmentSeeds|
  {
    seq(|e.caseIndices|, i requires 0 <= i < |e.caseIndices| => TrainSlot(e, candidate, i))
  }

  ghost function TrainSlots(e: Entry, n: nat): seq<Slot>
    requires n <= |e.populationSeeds| && |e.caseIndices| == |e.environmentSeeds|
  {
    if n == 0 then [] else TrainSlots(e, n - 1) + CandidateSlots(e, n - 1)
  }

  ghost function DevSlots(e: Entry): seq<Slot> {
    if e.runDev then seq(|e.devEnvironmentSeeds|, i requires 0 <= i < |e.devEnvironmentSeeds| => DevSlot(e, i)) else []
  }

  ghost predicate Aligned(plan: Plan) {
    forall k :: 0 <= k < |plan| ==> |plan[k].caseIndices| == |plan[k].environmentSeeds|
  }

  /** The slots of the first `k` generations. */
  ghost function Upto(plan: Plan, k: nat): seq<Slot>
    requires k <= |plan| && Aligned(plan)
  {
    if k == 0 then []
    else Upto(plan, k - 1) + GenerationSlots(plan[k - 1])
  }

  ghost function GenerationSlots(e: Entry): seq<Slot>
    requires |e.caseIndices| == |e.environmentSeeds|
  {
    TrainSlots(e, |e.populationSeeds|) + DevSlots(e)
  }

  ghost function AllSlots(plan: Plan): seq<Slot>
    requires Aligned(plan)
  {
    Upto(plan, |plan|)
  }

  lemma {:induction false} UptoPrefix(plan: Plan, k: nat, m: nat)
    requires k <= m <= |plan| && Aligned(plan)
    ensures Upto(plan, k) <= Upto(plan, m)
    decreases m - k
  {
    if k < m {
      UptoPrefix(plan, k, m - 1);
    }
  }

  lemma {:induction false} TrainSlotsPrefix(e: Entry, n: nat, m: nat)
    requires n <= m <= |e.populationSeeds| && |e.caseIndices| == |e.environmentSeeds|
    ensures TrainSlots(e, n) <= TrainSlots(e, m)
    decreases m - n
  {
    if n < m {
      TrainSlotsPrefix(e, n, m - 1);
    }
  }

  lemma UptoStep(cfg: Config, plan: Plan, k: nat)
    requires ValidPlan(cfg, plan) && k < |plan|
    ensures plan[k].generation == k + 1 && |plan[k].devEnvironmentSeeds| == cfg.devCases >= 1
    ensures Upto(plan, k + 1)
         == Upto(plan, k) + (TrainSlots(plan[k], |plan[k].populationSeeds|) + DevSlots(plan[k]))
    ensures GenerationSlots(plan[k]) == TrainSlots(plan[k], |plan[k].populationSeeds|) + DevSlots(plan[k])
    ensures !plan[k].runDev ==> DevSlots(plan[k]) == []
  {
    assert ValidEntry(cfg, plan[k], k);
  }

  /** The `i`-th slot of a candidate follows everything before it inside the plan's execution order. */
  lemma CandidatePosition(plan: Plan, k: nat, c: nat, i: nat)
    requires k < |plan| && Aligned(plan) && c < |plan[k].populationSeeds| && i < |plan[k].caseIndices|
    ensures Upto(plan, k) + TrainSlots(plan[k], c) + CandidateSlots(plan[k], c)[..i] + [TrainSlot(plan[k], c, i)]
         <= Upto(plan, k + 1)
  {
    hide DevSlots;
    var e := plan[k];
    var row := CandidateSlots(e, c);
    assert row[i] == TrainSlot(e, c, i);
    TrainSlotsPrefix(e, c + 1, |e.populationSeeds|);
    PrefixChain(Upto(plan, k), TrainSlots(e, c), row, i, TrainSlots(e, |e.populationSeeds|), DevSlots(e));
  }

  lemma DevPosition(plan: Plan, k: nat, i: nat)
    requires k < |plan| && Aligned(plan) && plan[k].runDev && i < |plan[k].devEnvironmentSeeds|
    ensures Upto(plan, k) + TrainSlots(plan[k], |plan[k].populationSeeds|) + DevSlots(plan[k])[..i] + [DevSlot(plan[k], i)]
         <= Upto(plan, k + 1)
  {
    var e := plan[k];
    var sweep := DevSlots(e);
    assert sweep[..i] + [DevSlot(e, i)] == sweep[..i + 1] <= sweep;
    var train := Upto(plan, k) + TrainSlots(e, |e.populationSeeds|);
    assert train + sweep[..i] + [DevSlot(e, i)] == train + sweep[..i + 1] <= train + sweep;
    assert train + sweep == Upto(plan, k + 1);
  }

  lemma PrefixChain<T>(done: seq<T>, a: seq<T>, row: seq<T>, i: nat, all: seq<T>, rest: seq<T>)
    requires i < |row| && a + row <= all
    ensures done + a + row[..i] + [row[i]] <= done + (all + rest)
  {
    assert all == (a + row) + all[|a + row|..];
    assert row == row[..i] + [row[i]] + row[i + 1..];
  }

  // ----- Slot accounting: the slots are pairwise distinct and as many as expected -----

  lemma {:induction false} TrainSlotsShape(cfg: Config, e: Entry, index: nat, n: nat)
    requires ValidConfig(cfg) && ValidEntry(cfg, e, index) && n <= cfg.population
    ensures |TrainSlots(e, n)| == n * cfg.casesPerGeneration
    ensures forall s :: s in TrainSlots(e, n) ==>
      s.phase == Train && s.generation == index + 1 && s.candidate.Some? && s.candidate.value < n
    ensures Distinct(TrainSlots(e, n))
  {
    if n > 0 {
      TrainSlotsShape(cfg, e, index, n - 1);
      DistinctAppend(TrainSlots(e, n - 1), CandidateSlots(e, n - 1));
      assert n * cfg.casesPerGeneration == (n - 1) * cfg.casesPerGeneration + cfg.casesPerGeneration;
    }
  }

  /** Number of development sweeps among the first `k` generations. */
  function DevSweeps(plan: Plan, k: nat): nat
    requires k <= |plan|
  {
    if k == 0 then 0 else DevSweeps(plan, k - 1) + if plan[k - 1].runDev then 1 else 0
  }

  lemma GenerationShape(cfg: Config, e: Entry, index: nat)
    requires ValidConfig(cfg) && ValidEntry(cfg, e, index)
    ensures |GenerationSlots(e)| == cfg.population * cfg.casesPerGeneration + if e.runDev then cfg.devCases else 0
    ensures forall s :: s in GenerationSlots(e) ==> s.generation == index + 1
    ensures Distinct(GenerationSlots(e))
  {
    TrainSlotsShape(cfg, e, index, cfg.population);
    DistinctAppend(TrainSlots(e, cfg.population), DevSlots(e));
  }

  lemma {:induction false} UptoShape(cfg: Config, plan: Plan, k: nat)
    requires ValidPlan(cfg, plan) && k <= |plan|
    ensures |Upto(plan, k)| == k * cfg.population * cfg.casesPerGeneration + DevSweeps(plan, k) * cfg.devCases
    ensures forall s :: s in Upto(plan, k) ==> 1 <= s.generation <= k
    ensures Distinct(Upto(plan, k))
  {
    if k > 0 {
      UptoShape(cfg, plan, k - 1);
      GenerationShape(cfg, plan[k - 1], k - 1);
      DistinctAppend(Upto(plan, k - 1), GenerationSlots(plan[k - 1]));
      CountStep(k, cfg.population, cfg.casesPerGeneration);
      SweepStep(plan, k, cfg.devCases);
    }
  }

  lemma SweepStep(plan: Plan, k: nat, d: nat)
    requires 0 < k <= |plan|
    ensures DevSweeps(plan, k) * d == DevSweeps(plan, k - 1) * d + if plan[k - 1].runDev then d else 0
  {
  }

  lemma CountStep(k: nat, p: nat, c: nat)
    requires k > 0
    ensures k * p * c == (k - 1) * p * c + p * c
  {
    assert k * p == (k - 1) * p + p;
  }

  /** The sum of the run_dev flags in closed form: one sweep per full period and a last one if a period is cut short. */
  lemma {:induction false} DevSweepsClosedForm(cfg: Config, plan: Plan, k: nat)
    requires ValidPlan(cfg, plan) && k <= |plan|
    ensures DevSweeps(plan, k)
         == k / cfg.devEvery + if k == cfg.generations && k % cfg.devEvery != 0 then 1 else 0
  {
    if k > 0 {
      DevSweepsClosedForm(cfg, plan, k - 1);
      QuotientStep(k - 1, cfg.devEvery);
    }
  }

  lemma QuotientStep(k: nat, d: nat)
    requires d >= 1
    ensures (k + 1) / d == k / d + if (k + 1) % d == 0 then 1 else 0
  {
    var q, m := k / d, k % d;
    assert k + 1 == q * d + (m + 1);
    if m + 1 == d {
      assert (q + 1) * d == q * d + d;
      DivModUnique(k + 1, d, q + 1, 0);
    } else {
      DivModUnique(k + 1, d, q, m + 1);
    }
  }

  lemma DivModUnique(n: nat, d: nat, q: nat, m: nat)
    requires d >= 1 && m < d && n == q * d + m
    ensures n / d == q && n % d == m
  {
    var q', m' := n / d, n % d;
    assert n == q' * d + m';
    assert (q - q') * d == q * d - q' * d;
    if q > q' {
      MulAtLeast(q - q', d);
    } else if q < q' {
      MulAtLeast(q' - q, d);
    }
  }

  lemma MulAtLeast(a: nat, d: nat)
    requires a >= 1
    ensures a * d >= d
  {
  }

  /** Plan accounting: distinct request ids, in the number the run summary expects. */
  lemma PlanAccounting(cfg: Config, plan: Plan)
    requires ValidPlan(cfg, plan)
    ensures Distinct(AllSlots(plan))
    ensures |Elements(AllSlots(plan))| == |AllSlots(plan)|
    ensures |AllSlots(plan)| == cfg.generations * cfg.population * cfg.casesPerGeneration
                              + DevSweeps(plan, |plan|) * cfg.devCases
    ensures DevSweeps(plan, |plan|)
         == cfg.generations / cfg.devEvery + if cfg.generations % cfg.devEvery != 0 then 1 else 0
    ensures DevSweeps(plan, |plan|) >= 1
  {
    UptoShape(cfg, plan, |plan|);
    DistinctCardinality(AllSlots(plan));
    DevSweepsClosedForm(cfg, plan, |plan|);
    if cfg.generations < cfg.devEvery {
      DivModUnique(cfg.generations, cfg.devEvery, 0, cfg.generations);
    }
  }
}
