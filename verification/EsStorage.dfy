/** The durable state of a training directory, and what every crash point must leave true of it. */
module EsStorage {
  import opened Wrappers
  import opened EsPlan
  import opened EsFold

  // Checkpoint files. A digest is injective, so a marker holds the contents it pins.
  datatype PolicyFile = PolicyFile(weights: Weights, history: seq<EsStep>)
  datatype DriverState = DriverState(generation: nat, initial: Weights, weights: Weights,
                                     completed: seq<GenerationRecord>, best: Option<Best>)
  datatype Marker = Marker(generation: nat, weights: Weights, policy: PolicyFile, history: seq<EsStep>, state: DriverState)
  datatype Folder = Folder(policy: Option<PolicyFile>, history: Option<seq<EsStep>>, state: Option<DriverState>,
                           marker: Option<Marker>)

  const EMPTY_FOLDER := Folder(None, None, None, None)

  datatype Manifest = Manifest(plan: Plan, initial: Weights)

  /** The fields of the run summary that a retirement receipt repeats. */
  datatype Identity = Identity(requiredGenerations: nat, completedGenerations: nat, expectedEvaluations: nat,
                               completedEvaluations: nat, bestGeneration: nat, bestWeights: Weights, finalWeights: Weights)
  datatype Summary = Summary(identity: Identity, bestMetric: real)

  datatype RetiredRow = RetiredRow(policy: PolicyFile, weights: Weights, marker: Marker)
  datatype Receipt = Receipt(identity: Identity, retained: set<nat>, retired: map<nat, RetiredRow>)

  datatype Disk = Disk(manifest: Option<Manifest>, stray: bool, jobs: Jobs, folders: map<nat, Folder>,
                       summary: Option<Summary>, receipt: Option<Receipt>)

  /** The training directory and the outside world. `recorded` lists job files in creation order, `physics` the
      evaluations that may have acted on the world, `committed` the number of complete checkpoints. */
  class Storage {
    var disk: Disk
    ghost var recorded: seq<Slot>
    ghost var physics: seq<Slot>
    ghost var committed: nat

    /** A directory no session has written to. */
    constructor ()
      ensures disk == Disk(None, false, map[], map[], None, None)
      ensures recorded == [] && physics == [] && committed == 0
    {
      disk := Disk(None, false, map[], map[], None, None);
      recorded, physics, committed := [], [], 0;
    }
  }

  predicate HasMarker(folders: map<nat, Folder>, k: nat) { k in folders && folders[k].marker.Some? }

  ghost predicate MarkersAre(folders: map<nat, Folder>, n: nat) { forall k: nat :: HasMarker(folders, k) <==> k < n }

  /** Complete records never change and no record disappears. */
  ghost predicate Kept(before: Jobs, after: Jobs) {
    forall s :: s in before ==> s in after && (before[s].Complete? ==> after[s] == before[s])
  }

  lemma NewRecordKeeps(before: Jobs, slot: Slot, first: JobRecord, last: JobRecord)
    requires slot !in before
    ensures Kept(before, before[slot := first]) && Kept(before, before[slot := first][slot := last])
    ensures before[slot := first][slot := last] == before[slot := last]
  {
  }

  function Min(a: nat, b: nat): nat { if a < b then a else b }

  /** At most once: holds after every durable write, whatever the weights do. Job files appear in plan order (they are
      a prefix of `next`), only the newest can lack a result, the slots of `done` all have one, and nothing outside the
      job files has ever been evaluated, nor anything twice. */
  ghost predicate InOrder(done: seq<Slot>, next: seq<Slot>, jobs: Jobs, recorded: seq<Slot>, physics: seq<Slot>) {
    && recorded <= next
    && jobs.Keys == Elements(recorded)
    && (forall i :: 0 <= i < |recorded| - 1 ==> jobs[recorded[i]].Complete?)
    && AllComplete(jobs, done)
    && Distinct(physics) && Elements(physics) <= jobs.Keys
  }

  ghost predicate Ordered(plan: Plan, d: Disk, recorded: seq<Slot>, physics: seq<Slot>, n: nat)
    requires Aligned(plan)
  {
    && n <= |plan| + 1 && MarkersAre(d.folders, n)
    && InOrder(if n > 0 then Upto(plan, n - 1) else [], Upto(plan, Min(n, |plan|)), d.jobs, recorded, physics)
    && (d.manifest.None? ==> n == 0 && d.folders == map[])
  }

  // ----- Refinement of the pure fold -----

  /** The marker of a checkpoint that holds this state, with the files it pins. */
  ghost function CompleteMarker(generation: nat, initial: Weights, st: State): Marker {
    Marker(generation, st.weights, PolicyFile(st.weights, st.history), st.history,
           DriverState(generation, initial, st.weights, st.completed, st.best))
  }

  ghost function FolderOf(generation: nat, initial: Weights, st: State): Folder {
    var m := CompleteMarker(generation, initial, st);
    Folder(Some(m.policy), Some(m.history), Some(m.state), Some(m))
  }

  ghost function ExpectedFolder(opt: Optimizer, plan: Plan, jobs: Jobs, k: nat): Folder
    requires k <= |plan| && Aligned(plan)
  {
    FolderOf(k, opt.initial, Fold(opt, plan, k, jobs))
  }

  ghost predicate FolderOk(opt: Optimizer, plan: Plan, d: Disk, k: nat)
    requires k <= |plan| && Aligned(plan)
  {
    && k in d.folders
    && var expected := ExpectedFolder(opt, plan, d.jobs, k);
    && (d.folders[k] == expected
        || (d.folders[k] == expected.(policy := None) && d.receipt.Some? && k in d.receipt.value.retired))
  }

  /** The weights every run computes for a slot. */
  ghost function RequestWeights(opt: Optimizer, plan: Plan, jobs: Jobs, s: Slot): Weights
    requires Aligned(plan)
  {
    if !InRange(plan, s) then opt.initial
    else if s.phase.Dev? || s.perturbationSeed.None? || s.sigma.None? then Fold(opt, plan, s.generation, jobs).weights
    else opt.perturb(Fold(opt, plan, s.generation - 1, jobs).weights, s.perturbationSeed.value, s.sigma.value)
  }

  ghost predicate InRange(plan: Plan, s: Slot) { 1 <= s.generation <= |plan| }

  ghost predicate Consistent(opt: Optimizer, plan: Plan, jobs: Jobs)
    requires Aligned(plan)
  {
    forall s :: s in jobs ==> InRange(plan, s) && jobs[s].weights == RequestWeights(opt, plan, jobs, s)
  }

  ghost function FinalIdentity(opt: Optimizer, plan: Plan, jobs: Jobs): Identity
    requires Aligned(plan) && |plan| > 0
  {
    var st := Fold(opt, plan, |plan|, jobs);
    var best := if st.best.Some? then st.best.value.generation else 0;
    Identity(|plan|, |plan|, |AllSlots(plan)|, |AllSlots(plan)|, best,
             if 1 <= best <= |st.completed| then st.completed[best - 1].after else st.weights, st.weights)
  }

  ghost function FinalSummary(opt: Optimizer, plan: Plan, jobs: Jobs): Summary
    requires Aligned(plan) && |plan| > 0
  {
    var best := Fold(opt, plan, |plan|, jobs).best;
    Summary(FinalIdentity(opt, plan, jobs), if best.Some? then best.value.metric else 0.0)
  }

  ghost function FinalReceipt(opt: Optimizer, plan: Plan, jobs: Jobs): Receipt
    requires Aligned(plan) && |plan| > 0
  {
    var identity := FinalIdentity(opt, plan, jobs);
    var retained := {identity.bestGeneration, |plan|};
    Receipt(identity, retained, RetiredRows(opt, plan, jobs, retained, |plan| + 1))
  }

  /** The receipt rows of the first `m` generations. */
  ghost function RetiredRows(opt: Optimizer, plan: Plan, jobs: Jobs, retained: set<nat>, m: nat): map<nat, RetiredRow>
    requires Aligned(plan) && m <= |plan| + 1
  {
    if m == 0 then map[]
    else
      var rows := RetiredRows(opt, plan, jobs, retained, m - 1);
      if m - 1 in retained then rows else
        var f := ExpectedFolder(opt, plan, jobs, m - 1);
        rows[m - 1 := RetiredRow(f.policy.value, f.marker.value.weights, f.marker.value)]
  }

  lemma {:induction false} RetiredRowsAre(opt: Optimizer, plan: Plan, jobs: Jobs, retained: set<nat>, m: nat)
    requires Aligned(plan) && m <= |plan| + 1
    ensures forall k: nat {:trigger k in RetiredRows(opt, plan, jobs, retained, m)} ::
      k in RetiredRows(opt, plan, jobs, retained, m) <==> k < m && k !in retained
    ensures forall k: nat | k in RetiredRows(opt, plan, jobs, retained, m) ::
      && k <= |plan|
      && var f := ExpectedFolder(opt, plan, jobs, k);
      RetiredRows(opt, plan, jobs, retained, m)[k] == RetiredRow(f.policy.value, f.marker.value.weights, f.marker.value)
  {
    hide Fold;
    if m > 0 { RetiredRowsAre(opt, plan, jobs, retained, m - 1); }
  }

  /** Every committed file equals the fold over the recorded results. */
  ghost predicate Refines(opt: Optimizer, plan: Plan, d: Disk, n: nat)
    requires Aligned(plan) && n <= |plan| + 1 && |plan| > 0
  {
    && (d.manifest.Some? ==> d.manifest.value == Manifest(plan, opt.initial))
    && (forall k :: 0 <= k < n ==> FolderOk(opt, plan, d, k))
    && Consistent(opt, plan, d.jobs)
    && (d.summary.Some? ==> n == |plan| + 1 && d.summary.value == FinalSummary(opt, plan, d.jobs))
    && (d.receipt.Some? ==> d.summary.Some? && d.receipt.value == FinalReceipt(opt, plan, d.jobs))
  }

  /** What the loader and the retirement tool accept in place of a missing tensor file. */
  predicate RetirementExcuses(d: Disk, generation: nat, marker: Marker) {
    && d.receipt.Some? && d.summary.Some? && d.summary.value.identity == d.receipt.value.identity
    && generation !in d.receipt.value.retained && generation in d.receipt.value.retired
    && var row := d.receipt.value.retired[generation];
    && row.policy == marker.policy && row.weights == marker.weights && row.marker == marker
  }

  // ----- What a slot's weights depend on -----

  /** The slots whose results determine the weights of `s`. */
  ghost function Needed(plan: Plan, s: Slot): seq<Slot>
    requires Aligned(plan) && InRange(plan, s)
  {
    var e := plan[s.generation - 1];
    if s.phase.Dev? then Upto(plan, s.generation - 1) + TrainSlots(e, |e.populationSeeds|)
    else Upto(plan, s.generation - 1)
  }

  /** The weights after a generation ignore its development results. */
  lemma WeightsFrame(opt: Optimizer, plan: Plan, k: nat, a: Jobs, b: Jobs)
    requires 1 <= k <= |plan| && Aligned(plan)
    requires Agree(a, b, Upto(plan, k - 1)) && Agree(a, b, TrainSlots(plan[k - 1], |plan[k - 1].populationSeeds|))
    ensures Fold(opt, plan, k, a).weights == Fold(opt, plan, k, b).weights
  {
    FoldFrame(opt, plan, k - 1, a, b);
    PopulationFrame(a, b, plan[k - 1], |plan[k - 1].populationSeeds|);
  }

  lemma NeededFrame(opt: Optimizer, plan: Plan, s: Slot, a: Jobs, b: Jobs)
    requires Aligned(plan) && InRange(plan, s) && Agree(a, b, Needed(plan, s))
    requires s.phase.Train? ==> s.perturbationSeed.Some? && s.sigma.Some?
    ensures RequestWeights(opt, plan, a, s) == RequestWeights(opt, plan, b, s)
  {
    hide Fold, Agree, Upto, TrainSlots, Population;
    if s.phase.Dev? {
      var e := plan[s.generation - 1];
      AgreeParts(a, b, Upto(plan, s.generation - 1), TrainSlots(e, |e.populationSeeds|));
      WeightsFrame(opt, plan, s.generation, a, b);
    } else {
      FoldFrame(opt, plan, s.generation - 1, a, b);
    }
  }

  lemma {:induction false} SlotFields(cfg: Config, plan: Plan, k: nat, s: Slot)
    requires ValidPlan(cfg, plan) && k <= |plan| && s in Upto(plan, k)
    ensures InRange(plan, s) && s.generation <= k
    ensures s.phase.Train? ==> s.perturbationSeed.Some? && s.sigma.Some?
    ensures s in GenerationSlots(plan[s.generation - 1])
  {
    UptoShape(cfg, plan, k);
    if s in Upto(plan, k - 1) {
      SlotFields(cfg, plan, k - 1, s);
    } else {
      assert s in GenerationSlots(plan[k - 1]);
      GenerationShape(cfg, plan[k - 1], k - 1);
      TrainSlotFields(plan[k - 1], |plan[k - 1].populationSeeds|);
    }
  }

  lemma {:induction false} TrainSlotFields(e: Entry, n: nat)
    requires n <= |e.populationSeeds| && |e.caseIndices| == |e.environmentSeeds|
    ensures forall s :: s in TrainSlots(e, n) ==> s.phase.Train? && s.perturbationSeed.Some? && s.sigma.Some?
    ensures forall s :: s in DevSlots(e) ==> s.phase.Dev?
  {
    if n > 0 { TrainSlotFields(e, n - 1); }
  }

  lemma NeededPrefix(plan: Plan, s: Slot)
    requires Aligned(plan) && InRange(plan, s)
    ensures Needed(plan, s) <= AllSlots(plan)
  {
    UptoPrefix(plan, s.generation - 1, |plan|);
    UptoPrefix(plan, s.generation, |plan|);
    assert Upto(plan, s.generation) == Upto(plan, s.generation - 1) + GenerationSlots(plan[s.generation - 1]);
  }

  lemma NotNeeded(cfg: Config, plan: Plan, s: Slot)
    requires ValidPlan(cfg, plan) && InRange(plan, s)
    ensures s !in Needed(plan, s)
  {
    UptoShape(cfg, plan, s.generation - 1);
    TrainSlotFields(plan[s.generation - 1], |plan[s.generation - 1].populationSeeds|);
  }

  /** Whatever a slot's weights depend on comes before it in execution order. */
  lemma NeededBefore(cfg: Config, plan: Plan, before: seq<Slot>, s: Slot)
    requires ValidPlan(cfg, plan) && before + [s] <= AllSlots(plan)
    ensures InRange(plan, s) && Needed(plan, s) <= before
    ensures s.phase.Train? ==> s.perturbationSeed.Some? && s.sigma.Some?
  {
    assert s == AllSlots(plan)[|before|];
    SlotFields(cfg, plan, |plan|, s);
    NeededPrefix(plan, s);
    NotNeeded(cfg, plan, s);
    PrefixOrder(AllSlots(plan), Needed(plan, s), before, s);
  }

  lemma PrefixOrder<T>(all: seq<T>, p: seq<T>, before: seq<T>, x: T)
    requires p <= all && before + [x] <= all
    ensures p <= before || x in p
  {
    if |p| > |before| { assert p[|before|] == all[|before|] == x; }
  }

  /** `b` is `a` with the record of the newest slot written. */
  ghost predicate Writes(a: Jobs, b: Jobs, before: seq<Slot>, slot: Slot) {
    && slot in b && (forall s :: s in a && s != slot ==> s in before && s in b && a[s] == b[s])
    && (forall s :: s in b && s != slot ==> s in a)
  }

  lemma OthersFrame(opt: Optimizer, cfg: Config, plan: Plan, a: Jobs, b: Jobs, before: seq<Slot>, slot: Slot, s: Slot)
    requires ValidPlan(cfg, plan) && before + [slot] <= AllSlots(plan) && Writes(a, b, before, slot)
    requires s in before + [slot]
    ensures InRange(plan, s) && RequestWeights(opt, plan, b, s) == RequestWeights(opt, plan, a, s)
  {
    UptoShape(cfg, plan, |plan|);
    DistinctLast(AllSlots(plan), before, slot);
    var all := before + [slot];
    var i :| 0 <= i < |all| && all[i] == s;
    assert all[..i] + [s] <= AllSlots(plan);
    NeededBefore(cfg, plan, all[..i], s);
    forall t | t in Needed(plan, s) ensures Metric(a, t) == Metric(b, t) { assert t in before; }
    NeededFrame(opt, plan, s, a, b);
  }

  /** Writing the newest slot's record leaves the weights of every recorded slot as they were. */
  lemma ConsistentFrame(opt: Optimizer, cfg: Config, plan: Plan, a: Jobs, b: Jobs, before: seq<Slot>, slot: Slot)
    requires ValidPlan(cfg, plan) && before + [slot] <= AllSlots(plan) && Writes(a, b, before, slot)
    requires Consistent(opt, plan, a) && InRange(plan, slot)
    requires b[slot].weights == RequestWeights(opt, plan, a, slot)
    ensures Consistent(opt, plan, b)
    ensures b[slot].weights == RequestWeights(opt, plan, b, slot)
  {
    OthersFrame(opt, cfg, plan, a, b, before, slot, slot);
    forall s | s in b ensures InRange(plan, s) && b[s].weights == RequestWeights(opt, plan, b, s) {
      OthersFrame(opt, cfg, plan, a, b, before, slot, s);
    }
  }

  lemma DistinctLast<T>(all: seq<T>, before: seq<T>, x: T)
    requires Distinct(all) && before + [x] <= all
    ensures x !in before
  {
    assert all[|before|] == x;
    forall i | 0 <= i < |before| ensures before[i] != x { assert all[i] == before[i]; }
  }

  // ----- Preservation under one durable write -----

  lemma KeptAgree(a: Jobs, b: Jobs, slots: seq<Slot>)
    requires Kept(a, b) && AllComplete(a, slots)
    ensures Agree(a, b, slots) && AllComplete(b, slots)
  {
  }

  lemma FolderFrame(opt: Optimizer, plan: Plan, d: Disk, jobs: Jobs, k: nat, m: nat)
    requires k <= m <= |plan| && Aligned(plan) && FolderOk(opt, plan, d, k)
    requires Agree(d.jobs, jobs, Upto(plan, m))
    ensures FolderOk(opt, plan, d.(jobs := jobs), k)
  {
    UptoPrefix(plan, k, m);
    assert Agree(d.jobs, jobs, Upto(plan, k)) by {
      forall s | s in Upto(plan, k) ensures Metric(d.jobs, s) == Metric(jobs, s) { assert s in Upto(plan, m); }
    }
    FoldFrame(opt, plan, k, d.jobs, jobs);
  }

  /** While training is under way, a job file can change without touching a committed generation. */
  lemma RefinesFrame(opt: Optimizer, plan: Plan, d: Disk, jobs: Jobs, n: nat)
    requires Aligned(plan) && 0 < n <= |plan| && Refines(opt, plan, d, n)
    requires Agree(d.jobs, jobs, Upto(plan, n - 1))
    requires Consistent(opt, plan, jobs)
    ensures Refines(opt, plan, d.(jobs := jobs), n)
  {
    forall k | 0 <= k < n ensures FolderOk(opt, plan, d.(jobs := jobs), k) {
      FolderFrame(opt, plan, d, jobs, k, n - 1);
    }
  }

  /** `slot` is the next to evaluate: everything before it has a result. */
  ghost predicate NextUp(done: seq<Slot>, next: seq<Slot>, jobs: Jobs, before: seq<Slot>, slot: Slot) {
    done <= before && before + [slot] <= next && AllComplete(jobs, before)
  }

  lemma NextUpPrefix(done: seq<Slot>, next: seq<Slot>, jobs: Jobs, before: seq<Slot>, slot: Slot)
    requires NextUp(done, next, jobs, before, slot)
    ensures before + [slot] <= next
  {
  }

  ghost predicate AtFrontier(recorded: seq<Slot>, before: seq<Slot>, slot: Slot) {
    recorded == before || recorded == before + [slot]
  }

  /** One durable write of the newest job file keeps the ordering half of the invariant. */
  lemma WriteInOrder(done: seq<Slot>, next: seq<Slot>, jobs: Jobs, recorded: seq<Slot>, physics: seq<Slot>,
                     before: seq<Slot>, slot: Slot, record: JobRecord)
    requires Distinct(next) && InOrder(done, next, jobs, recorded, physics) && NextUp(done, next, jobs, before, slot)
    requires AtFrontier(recorded, before, slot)
    ensures slot !in before
    ensures InOrder(done, next, jobs[slot := record], before + [slot], physics)
    ensures NextUp(done, next, jobs[slot := record], before, slot)
    ensures Agree(jobs, jobs[slot := record], done)
    ensures Writes(jobs, jobs[slot := record], before, slot)
  {
    DistinctLast(next, before, slot);
    ElementsAppend(before, slot);
    forall s | s in done ensures s in before {}
  }

  /** How far one executing call gets with its slot's record. An exception that arrives after the complete record was
      written, and before the call returns, still reaches the handler. */
  datatype Course = Stopped | Failed | Finished(metric: real) | Interrupted(metric: real)

  /** The records the call writes, one durable replacement each. */
  function Written(w: Weights, course: Course): (records: seq<JobRecord>)
    ensures |records| > 0
  {
    match course
    case Stopped => [Started(w)]
    case Failed => [Started(w), OutcomeUnknown(w)]
    case Finished(metric) => [Started(w), Complete(w, metric)]
    case Interrupted(metric) => [Started(w), Complete(w, metric), OutcomeUnknown(w)]
  }

  function LastWritten(w: Weights, course: Course): JobRecord { Written(w, course)[|Written(w, course)| - 1] }

  /** A complete record survives the call that writes it exactly when no exception follows the write. */
  lemma CompleteSurvivesIff(w: Weights, course: Course, i: nat)
    requires i < |Written(w, course)| && Written(w, course)[i].Complete?
    ensures LastWritten(w, course) == Written(w, course)[i] <==> !course.Interrupted?
    ensures LastWritten(w, course) == OutcomeUnknown(w) <==> course.Interrupted?
  {
  }

  /** The loss can happen: the complete record is durable, and so is the unknown outcome that replaces it. */
  lemma CompleteRecordCanBeLost(done: seq<Slot>, next: seq<Slot>, jobs: Jobs, recorded: seq<Slot>, physics: seq<Slot>,
                                before: seq<Slot>, slot: Slot, w: Weights, metric: real)
    requires Distinct(next) && InOrder(done, next, jobs, recorded, physics) && NextUp(done, next, jobs, before, slot)
    requires slot !in jobs
    ensures Complete(w, metric) in Written(w, Interrupted(metric)) && !LastWritten(w, Interrupted(metric)).Complete?
    ensures forall record :: record in Written(w, Interrupted(metric)) ==>
      InOrder(done, next, jobs[slot := record], before + [slot], physics)
  {
    hide InOrder, NextUp;
    assert Written(w, Interrupted(metric))[1] == Complete(w, metric);
    Frontier(done, next, jobs, recorded, physics, before, slot);
    forall record | record in Written(w, Interrupted(metric))
      ensures InOrder(done, next, jobs[slot := record], before + [slot], physics)
    {
      WriteInOrder(done, next, jobs, recorded, physics, before, slot, record);
    }
  }

  /** Where the newest job file stands relative to the slot being evaluated. */
  lemma Frontier(done: seq<Slot>, next: seq<Slot>, jobs: Jobs, recorded: seq<Slot>, physics: seq<Slot>,
                 before: seq<Slot>, slot: Slot)
    requires Distinct(next) && InOrder(done, next, jobs, recorded, physics) && NextUp(done, next, jobs, before, slot)
    ensures slot !in jobs ==> recorded == before && slot !in physics
    ensures slot in jobs && !jobs[slot].Complete? ==> recorded == before + [slot]
  {
    DistinctLast(next, before, slot);
    Covers(next, before, recorded);
    if |recorded| > |before| { assert recorded[|before|] == next[|before|] == slot; }
  }

  lemma WriteRefines(opt: Optimizer, cfg: Config, plan: Plan, d: Disk, k: nat,
                     before: seq<Slot>, slot: Slot, record: JobRecord)
    requires ValidPlan(cfg, plan) && k < |plan| && Refines(opt, plan, d, k + 1)
    requires before + [slot] <= Upto(plan, k + 1)
    requires Writes(d.jobs, d.jobs[slot := record], before, slot)
    requires Agree(d.jobs, d.jobs[slot := record], Upto(plan, k))
    requires record.weights == RequestWeights(opt, plan, d.jobs, slot)
    ensures Refines(opt, plan, d.(jobs := d.jobs[slot := record]), k + 1)
    ensures record.weights == RequestWeights(opt, plan, d.jobs[slot := record], slot)
  {
    hide Fold, Upto, FolderOk, Agree, Writes, Needed, RequestWeights, FinalSummary, FinalReceipt;
    UptoPrefix(plan, k + 1, |plan|);
    NeededBefore(cfg, plan, before, slot);
    ConsistentFrame(opt, cfg, plan, d.jobs, d.jobs[slot := record], before, slot);
    RefinesFrame(opt, plan, d, d.jobs[slot := record], k + 1);
  }

  // ----- Committing a generation -----

  /** Files of a folder without a marker are never read, so they may hold anything. */
  lemma UncommittedFolder(opt: Optimizer, plan: Plan, d: Disk, n: nat, f: Folder)
    requires Aligned(plan) && |plan| > 0 && n <= |plan| && f.marker.None?
    requires MarkersAre(d.folders, n)
    ensures MarkersAre(d.folders[n := f], n)
    ensures Refines(opt, plan, d, n) ==> Refines(opt, plan, d.(folders := d.folders[n := f]), n)
  {
    var d' := d.(folders := d.folders[n := f]);
    var folders := d'.folders;
    forall k: nat ensures HasMarker(folders, k) <==> k < n {
      assert HasMarker(d.folders, k) <==> k < n;
    }
    if Refines(opt, plan, d, n) {
      forall k | 0 <= k < n ensures FolderOk(opt, plan, d', k) {
        assert FolderOk(opt, plan, d, k);
      }
    }
  }

  /** Writing the marker commits the generation. */
  lemma MarkerCommits(plan: Plan, d: Disk, recorded: seq<Slot>, physics: seq<Slot>, n: nat, f: Folder)
    requires Aligned(plan) && n <= |plan| && f.marker.Some? && d.manifest.Some?
    requires Ordered(plan, d, recorded, physics, n) && AllComplete(d.jobs, Upto(plan, n))
    ensures Ordered(plan, d.(folders := d.folders[n := f]), recorded, physics, n + 1)
  {
    hide Upto, InOrder, AllComplete, HasMarker;
    MarkerCounts(d.folders, n, f);
    UptoPrefix(plan, n, Min(n + 1, |plan|));
    InOrderGrows(if n > 0 then Upto(plan, n - 1) else [], Upto(plan, n), Upto(plan, n), Upto(plan, Min(n + 1, |plan|)),
                 d.jobs, recorded, physics);
  }

  lemma MarkerCounts(folders: map<nat, Folder>, n: nat, f: Folder)
    requires MarkersAre(folders, n) && f.marker.Some?
    ensures MarkersAre(folders[n := f], n + 1)
  {
    var more := folders[n := f];
    forall k: nat ensures HasMarker(more, k) <==> k < n + 1 { assert HasMarker(folders, k) <==> k < n; }
  }

  /** More of the plan may come, and more of it may be complete. */
  lemma InOrderGrows(done: seq<Slot>, next: seq<Slot>, doneNow: seq<Slot>, nextNow: seq<Slot>, jobs: Jobs,
                     recorded: seq<Slot>, physics: seq<Slot>)
    requires InOrder(done, next, jobs, recorded, physics) && next <= nextNow && AllComplete(jobs, doneNow)
    ensures InOrder(doneNow, nextNow, jobs, recorded, physics)
  {
    hide AllComplete, Distinct, Elements;
  }

  lemma MarkerRefines(opt: Optimizer, plan: Plan, d: Disk, n: nat, f: Folder)
    requires Aligned(plan) && |plan| > 0 && n <= |plan| && Refines(opt, plan, d, n)
    requires f == ExpectedFolder(opt, plan, d.jobs, n)
    ensures Refines(opt, plan, d.(folders := d.folders[n := f]), n + 1)
  {
    hide Fold, Upto;
    var d' := d.(folders := d.folders[n := f]);
    forall k | 0 <= k < n + 1 ensures FolderOk(opt, plan, d', k) {
      assert k < n ==> FolderOk(opt, plan, d, k);
    }
  }

  ghost function Range(n: nat): set<nat> {
    if n == 0 then {} else Range(n - 1) + {n - 1}
  }

  lemma {:induction false} RangeMembers(n: nat)
    ensures |Range(n)| == n && forall k: nat :: k in Range(n) <==> k < n
  {
    if n > 0 { RangeMembers(n - 1); }
  }

  /** The generations whose marker has been written. */
  function Committed(d: Disk): set<nat> { set k | k in d.folders && d.folders[k].marker.Some? }

  /** Listing the markers counts the committed generations. */
  lemma MarkerCount(d: Disk, n: nat)
    requires MarkersAre(d.folders, n)
    ensures |Committed(d)| == n && forall k: nat :: k in Committed(d) <==> k < n
  {
    RangeMembers(n);
    forall k: nat ensures k in Committed(d) <==> k in Range(n) { assert HasMarker(d.folders, k) <==> k < n; }
    assert Committed(d) == Range(n);
  }

  // ----- What the loader checks, and why the fold always passes -----

  /** The per-folder check of the loader. */
  predicate FolderReadable(d: Disk, k: nat) {
    && HasMarker(d.folders, k)
    && var f := d.folders[k];
    && var marker := f.marker.value;
    && marker.generation == k
    && f.history == Some(marker.history)
    && f.state == Some(marker.state)
    && (if f.policy.Some? then f.policy.value == marker.policy else RetirementExcuses(d, k, marker))
  }

  /** One committed generation against the optimizer history and the frozen plan. */
  predicate RecordOk(cfg: Config, plan: Plan, index: nat, record: GenerationRecord, step: EsStep)
    requires index < |plan|
  {
    && record.generation == index + 1
    && record.sigma == plan[index].sigma
    && record.before == step.before && record.after == step.after
    && record.metrics == step.population && record.fitness == step.rewards
    && step.seeds == plan[index].populationSeeds
    && |record.dev| == (if plan[index].runDev then cfg.devCases else 0)
    && (record.dev != [] ==> record.devMean == Mean(record.dev))
  }

  /** The record of generation `index + 1` agrees with the plan entry and with the optimizer's own step, and its development
      mean, if it has a sweep, is the average of all agreed cases. */
  ghost predicate Agrees(cfg: Config, plan: Plan, index: nat, record: GenerationRecord, step: EsStep)
    requires index < |plan|
  {
    && step == EsStep(plan[index].populationSeeds, record.fitness, record.metrics, record.before, record.after)
    && record.generation == index + 1 && record.sigma == plan[index].sigma
    && (plan[index].runDev ==> |record.dev| == cfg.devCases) && (!plan[index].runDev ==> record.dev == [])
    && (record.dev != [] ==> Average(record.devMean, record.dev))
  }

  lemma RecordMeans(cfg: Config, plan: Plan, index: nat, record: GenerationRecord, step: EsStep)
    requires index < |plan|
    ensures RecordOk(cfg, plan, index, record, step) <==> Agrees(cfg, plan, index, record, step)
  {
    hide Mean, Average;
    MeanIsAverage(record.dev);
    if record.dev != [] && Average(record.devMean, record.dev) { OneAverage(record.devMean, Mean(record.dev), record.dev); }
  }

  /** What a readable folder shows: its files have the marker's digests, or its tensor is missing under a receipt of the
      finished run that retired exactly this marker, and retained another one. */
  lemma ReadableMeans(d: Disk, k: nat)
    requires FolderReadable(d, k)
    ensures k in d.folders && d.folders[k].marker.Some?
    ensures var f := d.folders[k]; var marker := f.marker.value;
      && marker.generation == k && f.history == Some(marker.history) && f.state == Some(marker.state)
      && (f.policy.Some? ==> f.policy == Some(marker.policy))
      && (f.policy.None? ==>
            && d.receipt.Some? && d.summary.Some? && d.receipt.value.identity == d.summary.value.identity
            && k in d.receipt.value.retired && k !in d.receipt.value.retained
            && var row := d.receipt.value.retired[k];
            && row.policy == marker.policy && row.weights == marker.weights && row.marker == marker)
  {
  }

  /** The loader's recomputation of the best generation from the committed records. */
  function CommittedBest(completed: seq<GenerationRecord>): Option<Best> {
    if completed == [] then None
    else
      var front, record := CommittedBest(completed[..|completed| - 1]), completed[|completed| - 1];
      if record.dev != [] && (front.None? || record.devMean > front.value.metric)
      then Some(Best(record.generation, record.devMean)) else front
  }

  ghost predicate Accepted(cfg: Config, plan: Plan, completed: seq<GenerationRecord>, history: seq<EsStep>, best: Option<Best>) {
    && |completed| == |history| <= |plan|
    && (forall i :: 0 <= i < |completed| ==> RecordOk(cfg, plan, i, completed[i], history[i]))
    && best == CommittedBest(completed)
  }

  /** Appending one well-formed generation keeps a checkpoint acceptable. */
  lemma AdvanceAccepted(cfg: Config, plan: Plan, k: nat, st: State, metrics: seq<seq<real>>, after: Weights,
                        dev: seq<real>, requests: seq<Slot>)
    requires k < |plan| && plan[k].generation == k + 1 && |st.completed| == k && cfg.devCases >= 1
    requires Accepted(cfg, plan, st.completed, st.history, st.best)
    requires |dev| == if plan[k].runDev then cfg.devCases else 0
    ensures var next := Advance(plan[k], st, metrics, after, dev, requests);
      Accepted(cfg, plan, next.completed, next.history, next.best)
  {
    hide Fitness, Mean;
    var next := Advance(plan[k], st, metrics, after, dev, requests);
    assert next.completed[..k] == st.completed;
  }

  lemma {:induction false} FoldAccepted(opt: Optimizer, cfg: Config, plan: Plan, k: nat, jobs: Jobs)
    requires ValidPlan(cfg, plan) && Aligned(plan) && k <= |plan|
    ensures var st := Fold(opt, plan, k, jobs);
      |st.completed| == |st.history| == k && Accepted(cfg, plan, st.completed, st.history, st.best)
  {
    hide Accepted, TrainSlots, GenerationSlots;
    FoldShape(opt, plan, k, jobs);
    if k == 0 {
      EmptyAccepted(cfg, plan);
    } else {
      FoldAccepted(opt, cfg, plan, k - 1, jobs);
      UptoStep(cfg, plan, k - 1);
      var e, previous := plan[k - 1], Fold(opt, plan, k - 1, jobs);
      var metrics := Population(jobs, e, |e.populationSeeds|);
      AdvanceAccepted(cfg, plan, k - 1, previous, metrics,
                      opt.update(previous.weights, e.populationSeeds, Fitness(metrics), e.sigma),
                      Metrics(jobs, DevSlots(e)), GenerationSlots(e));
    }
  }

  lemma EmptyAccepted(cfg: Config, plan: Plan)
    ensures Accepted(cfg, plan, [], [], None)
  {
  }

  /** The strict-improvement choice is the auditor's: the greatest development mean, the earliest one on a tie. */
  lemma {:induction false} BestIsEarliestMaximum(completed: seq<GenerationRecord>)
    requires forall i :: 0 <= i < |completed| ==> completed[i].generation == i + 1
    ensures CommittedBest(completed).None? <==> forall i :: 0 <= i < |completed| ==> completed[i].dev == []
    ensures CommittedBest(completed).Some? ==>
      var best := CommittedBest(completed).value;
      && 1 <= best.generation <= |completed|
      && completed[best.generation - 1].dev != [] && completed[best.generation - 1].devMean == best.metric
      && (forall i :: 0 <= i < |completed| && completed[i].dev != [] ==>
            completed[i].devMean < best.metric || (completed[i].devMean == best.metric && best.generation <= i + 1))
  {
    if completed != [] {
      BestIsEarliestMaximum(completed[..|completed| - 1]);
    }
  }

  /** `best` is the earliest generation with the greatest development mean, or none if no generation was swept. */
  ghost predicate EarliestBest(completed: seq<GenerationRecord>, best: Option<Best>) {
    match best
    case None => forall i :: 0 <= i < |completed| ==> completed[i].dev == []
    case Some(b) =>
      && 1 <= b.generation <= |completed|
      && completed[b.generation - 1].dev != [] && completed[b.generation - 1].devMean == b.metric
      && forall i :: 0 <= i < |completed| && completed[i].dev != [] ==>
           completed[i].devMean < b.metric || (completed[i].devMean == b.metric && b.generation <= i + 1)
  }

  /** The loader accepts records exactly when each agrees with the plan, the optimizer's history and its own measurements,
      and the best generation is the earliest one with the greatest mean. */
  lemma AcceptedMeans(cfg: Config, plan: Plan, completed: seq<GenerationRecord>, history: seq<EsStep>, best: Option<Best>)
    ensures Accepted(cfg, plan, completed, history, best) <==>
      && |completed| == |history| <= |plan|
      && (forall i :: 0 <= i < |completed| ==> Agrees(cfg, plan, i, completed[i], history[i]))
      && EarliestBest(completed, best)
  {
    hide Average, Mean, RecordOk, Agrees, EarliestBest;
    if |completed| == |history| <= |plan| {
      forall i | 0 <= i < |completed|
        ensures RecordOk(cfg, plan, i, completed[i], history[i]) <==> Agrees(cfg, plan, i, completed[i], history[i])
      {
        RecordMeans(cfg, plan, i, completed[i], history[i]);
      }
      if forall i :: 0 <= i < |completed| ==> RecordOk(cfg, plan, i, completed[i], history[i]) {
        Numbered(cfg, plan, completed, history);
        BestIs(completed, best);
      }
    }
  }

  lemma Numbered(cfg: Config, plan: Plan, completed: seq<GenerationRecord>, history: seq<EsStep>)
    requires |completed| == |history| <= |plan|
    requires forall i :: 0 <= i < |completed| ==> RecordOk(cfg, plan, i, completed[i], history[i])
    ensures forall i :: 0 <= i < |completed| ==> completed[i].generation == i + 1
  {
    hide Mean;
    forall i | 0 <= i < |completed| ensures completed[i].generation == i + 1 {
      assert RecordOk(cfg, plan, i, completed[i], history[i]);
    }
  }

  lemma BestIs(completed: seq<GenerationRecord>, best: Option<Best>)
    requires forall i :: 0 <= i < |completed| ==> completed[i].generation == i + 1
    ensures best == CommittedBest(completed) <==> EarliestBest(completed, best)
  {
    hide CommittedBest;
    BestIsEarliestMaximum(completed);
  }

  /** A complete run always has a best generation, because the last generation runs the development cases. */
  lemma FinalBest(opt: Optimizer, cfg: Config, plan: Plan, jobs: Jobs)
    requires ValidPlan(cfg, plan) && Aligned(plan)
    ensures var st := Fold(opt, plan, |plan|, jobs);
      |st.completed| == |plan| && st.best.Some? && 1 <= st.best.value.generation <= |plan|
  {
    hide Fold;
    FoldAccepted(opt, cfg, plan, |plan|, jobs);
    var st := Fold(opt, plan, |plan|, jobs);
    assert ValidEntry(cfg, plan[|plan| - 1], |plan| - 1);
    assert RecordOk(cfg, plan, |plan| - 1, st.completed[|plan| - 1], st.history[|plan| - 1]);
    BestIsEarliestMaximum(st.completed);
  }

  /** The request ids named by the committed records. */
  ghost function AllRequests(completed: seq<GenerationRecord>): seq<Slot> {
    if completed == [] then [] else AllRequests(completed[..|completed| - 1]) + completed[|completed| - 1].requests
  }

  lemma {:induction false} FoldRequests(opt: Optimizer, plan: Plan, k: nat, jobs: Jobs)
    requires Aligned(plan) && k <= |plan|
    ensures AllRequests(Fold(opt, plan, k, jobs).completed) == Upto(plan, k)
  {
    hide Population, TrainSlots, DevSlots, GenerationSlots, Metrics;
    FoldShape(opt, plan, k, jobs);
    if k > 0 {
      FoldRequests(opt, plan, k - 1, jobs);
      FoldShape(opt, plan, k - 1, jobs);
      var st, previous := Fold(opt, plan, k, jobs), Fold(opt, plan, k - 1, jobs);
      assert st.completed[..k - 1] == previous.completed;
    }
  }

  /** Once every planned slot has a result, the job files are exactly the planned slots. */
  lemma CompleteLedger(cfg: Config, plan: Plan, jobs: Jobs, recorded: seq<Slot>)
    requires ValidPlan(cfg, plan) && Aligned(plan)
    requires recorded <= AllSlots(plan) && jobs.Keys == Elements(recorded) && AllComplete(jobs, AllSlots(plan))
    ensures recorded == AllSlots(plan)
    ensures jobs.Keys == Elements(AllSlots(plan)) && |jobs| == |AllSlots(plan)|
    ensures forall s :: s in jobs ==> jobs[s].Complete?
  {
    hide Upto;
    PlanAccounting(cfg, plan);
    Covers(AllSlots(plan), AllSlots(plan), recorded);
    assert |jobs| == |jobs.Keys|;
  }

  lemma RefinedFolderReadable(opt: Optimizer, plan: Plan, d: Disk, n: nat, k: nat)
    requires Aligned(plan) && |plan| > 0 && n <= |plan| + 1 && Refines(opt, plan, d, n) && k < n
    ensures FolderReadable(d, k)
    ensures d.folders[k].(policy := None) == ExpectedFolder(opt, plan, d.jobs, k).(policy := None)
    ensures d.folders[k].policy.None? ==> k < n - 1 && d.receipt.Some? && k !in d.receipt.value.retained
    ensures d.folders[k].policy.Some? ==> d.folders[k] == ExpectedFolder(opt, plan, d.jobs, k)
  {
    hide Fold, Upto, RetiredRows;
    assert FolderOk(opt, plan, d, k);
    if d.receipt.Some? { RetiredRowsAre(opt, plan, d.jobs, d.receipt.value.retained, |plan| + 1); }
  }

  /** A write that leaves jobs, folders and receipt alone. */
  lemma RefinesBeside(opt: Optimizer, plan: Plan, d: Disk, d': Disk, n: nat)
    requires Aligned(plan) && |plan| > 0 && n <= |plan| + 1 && Refines(opt, plan, d, n)
    requires d'.jobs == d.jobs && d'.folders == d.folders && d'.receipt == d.receipt
    requires d'.manifest.Some? ==> d'.manifest.value == Manifest(plan, opt.initial)
    requires d'.summary == d.summary || (n == |plan| + 1 && d'.summary == Some(FinalSummary(opt, plan, d.jobs)))
    ensures Refines(opt, plan, d', n)
  {
    hide Fold, Upto, RetiredRows;
    forall k | 0 <= k < n ensures FolderOk(opt, plan, d', k) {
      assert FolderOk(opt, plan, d, k);
    }
  }

  lemma RefinesKeepsManifest(opt: Optimizer, plan: Plan, d: Disk, d': Disk, n: nat)
    requires Aligned(plan) && |plan| > 0 && n <= |plan| + 1 && Refines(opt, plan, d, n)
    requires d'.jobs == d.jobs && d'.folders == d.folders && d'.receipt == d.receipt && d'.manifest == d.manifest
    requires d'.summary == d.summary || (n == |plan| + 1 && d'.summary == Some(FinalSummary(opt, plan, d.jobs)))
    ensures Refines(opt, plan, d', n)
  {
    hide Fold, Upto, RetiredRows, FinalSummary;
    RefinesBeside(opt, plan, d, d', n);
  }

  lemma RecordedWeights(opt: Optimizer, plan: Plan, d: Disk, n: nat, slot: Slot)
    requires Aligned(plan) && n <= |plan| + 1 && |plan| > 0 && Refines(opt, plan, d, n) && slot in d.jobs
    ensures d.jobs[slot].weights == RequestWeights(opt, plan, d.jobs, slot)
  {
  }

  /** Of two prefixes of a duplicate-free sequence, the one with more elements extends the other. */
  lemma Covers<T>(all: seq<T>, p: seq<T>, q: seq<T>)
    requires Distinct(all) && p <= all && q <= all && Elements(p) <= Elements(q)
    ensures p <= q
  {
    assert Distinct(p) && Distinct(q);
    DistinctCardinality(p);
    DistinctCardinality(q);
    SubsetSize(Elements(p), Elements(q));
  }

  lemma SubsetSize<T>(a: set<T>, b: set<T>)
    requires a <= b
    ensures |a| <= |b|
  {
    assert b == a + (b - a);
  }

  /** A job file without a result is the newest one. */
  lemma UnresolvedIsNewest(done: seq<Slot>, next: seq<Slot>, jobs: Jobs, recorded: seq<Slot>, physics: seq<Slot>, slot: Slot)
    requires Distinct(next) && done <= next && InOrder(done, next, jobs, recorded, physics)
    requires slot in jobs && !jobs[slot].Complete?
    ensures recorded != [] && recorded == recorded[..|recorded| - 1] + [slot]
    ensures NextUp(done, next, jobs, recorded[..|recorded| - 1], slot)
  {
    var i :| 0 <= i < |recorded| && recorded[i] == slot;
    assert i == |recorded| - 1;
    var before := recorded[..i];
    forall s | s in before ensures s in jobs && jobs[s].Complete? {
      var j :| 0 <= j < i && recorded[j] == s;
    }
    Covers(next, done, recorded);
    assert slot !in done;
  }

  /** It can exist only while generation `n` is under way. */
  lemma Unresolved(cfg: Config, plan: Plan, d: Disk, recorded: seq<Slot>, physics: seq<Slot>, n: nat, slot: Slot)
      returns (before: seq<Slot>)
    requires ValidPlan(cfg, plan) && Aligned(plan) && Ordered(plan, d, recorded, physics, n)
    requires slot in d.jobs && !d.jobs[slot].Complete?
    ensures 1 <= n <= |plan| && d.manifest.Some? && recorded == before + [slot]
    ensures NextUp(Upto(plan, n - 1), Upto(plan, n), d.jobs, before, slot)
  {
    hide ValidPlan, Aligned, Upto, InOrder, NextUp, MarkersAre;
    if n == 0 {
      NothingRecorded(plan, d.jobs, recorded, physics);
    } else {
      UptoShape(cfg, plan, Min(n, |plan|));
      UptoPrefix(plan, n - 1, Min(n, |plan|));
      UnresolvedIsNewest(Upto(plan, n - 1), Upto(plan, Min(n, |plan|)), d.jobs, recorded, physics, slot);
    }
    before := recorded[..|recorded| - 1];
  }

  lemma NothingRecorded(plan: Plan, jobs: Jobs, recorded: seq<Slot>, physics: seq<Slot>)
    requires Aligned(plan) && InOrder([], Upto(plan, 0), jobs, recorded, physics)
    ensures jobs == map[]
  {
  }
}
