/** The serial, resumable training driver. Every `*` is a choice of the world: a process stop, a callback that
    refuses or raises, a measured value. Contracts therefore hold for every history of crashes and resumes. */
module EsDriver {
  import opened Wrappers
  import opened EsPlan
  import opened EsFold
  import opened EsStorage
  import opened EsIntegrity
  import opened CheckpointNames

  datatype Halt =
    | ProcessStop
    | CallbackRefused
    | UnknownOutcome(slot: Slot)
    | ExecutionHalted(slot: Slot)
    | CannotStart
    | UnknownRequest
    | ResultImmutable
    | NoCommittedCheckpoint
    | CheckpointsOutOfOrder
    | SlotDiverged(slot: Slot)
    | CorruptCheckpoint
    | MarkerExists
    | AccountingMismatch

  /** The checks against corruption, which no history of stops and resumes can trip. */
  predicate Corruption(h: Halt) {
    h.CorruptCheckpoint? || h.MarkerExists? || h.AccountingMismatch?
  }

  /** What can stop a session after it has started. Diverging weights are all that irreproducible arithmetic can cause. */
  predicate SessionHalt(h: Halt, deterministic: bool) {
    && !h.CannotStart? && !h.NoCommittedCheckpoint? && !h.CheckpointsOutOfOrder?
    && !Corruption(h) && (deterministic ==> !h.SlotDiverged?)
  }

  /** Measurements of one candidate or one development sweep, with the requests they answer. */
  datatype Row = Row(metrics: seq<real>, requests: seq<Slot>)

  /** When the session guard refuses the directory outright. */
  predicate StartRefused(plan: Plan, d: Disk, resume: bool) {
    if d.manifest.Some? then !resume || d.manifest.value.plan != plan
    else resume || d.stray || d.jobs != map[] || d.folders != map[]
  }

  /** The directories a session can get to work in: empty ones, and on resume registered ones with a checkpoint and with
      folder names in numeric order. */
  predicate CanStart(plan: Plan, d: Disk, resume: bool) {
    !StartRefused(plan, d, resume) && (resume ==> 1 <= |Committed(d)| <= PADDED_GENERATIONS)
  }

  /** The first durable write of a fresh run. */
  function Registered(plan: Plan, opt: Optimizer, d: Disk): Disk {
    d.(manifest := Some(Manifest(plan, opt.initial)))
  }

  /** A process can stop after any durable write. */
  method MayStop() returns (r: Check<Halt>)
    ensures r.Fail? ==> r.error == ProcessStop
  {
    if * { return Fail(ProcessStop); }
    return Pass;
  }

  /** A read-only check by a callback: result verifier, evidence hashes, policy-state guard, clean reload. */
  method CallbackAgrees() returns (r: Check<Halt>)
    ensures r.Fail? ==> r.error == CallbackRefused
  {
    if * { return Fail(CallbackRefused); }
    return Pass;
  }

  /** The metric of a finished trajectory, or `None` when the callback raises or finds no result. */
  method ReportedResult() returns (r: Option<real>) {
    if * { r := None; } else { var metric: real := *; r := Some(metric); }
  }

  class ESTrainingDriver {
    const cfg: Config
    const plan: Plan
    const opt: Optimizer
    /** Whether perturbation and update reproduce the same weights in every session. */
    const deterministic: bool
    const store: Storage

    var weights: Weights
    var history: seq<EsStep>
    var completed: seq<GenerationRecord>
    var best: Option<Best>

    constructor (cfg: Config, plan: Plan, opt: Optimizer, deterministic: bool, store: Storage)
      requires Durable(cfg, plan, opt, deterministic, store)
      ensures this.cfg == cfg && this.plan == plan && this.opt == opt
      ensures this.deterministic == deterministic && this.store == store
      ensures Valid()
    {
      this.cfg, this.plan, this.opt, this.deterministic, this.store := cfg, plan, opt, deterministic, store;
      weights, history, completed, best := opt.initial, [], [], None;
    }

    ghost predicate Valid()
      reads store
    {
      Durable(cfg, plan, opt, deterministic, store)
    }

    /** Between generations of a session: `k` generations are committed and live state is the fold's. */
    ghost predicate Session(k: nat)
      reads this, store
    {
      && Valid() && k <= |plan| && store.committed == k + 1 && store.disk.manifest.Some?
      && LiveIsCommitted(k)
      && (deterministic ==> Live() == Fold(opt, plan, k, store.disk.jobs))
    }

    ghost function Live(): State
      reads this
    {
      State(weights, history, completed, best)
    }

    /** The live state is that of checkpoint `k`. */
    ghost predicate LiveIsCommitted(k: nat)
      reads this, store
    {
      k in store.disk.folders && store.disk.folders[k].marker == Some(CompleteMarker(k, opt.initial, Live()))
    }

    /** The slot about to be evaluated is the next one of generation `k`, and everything before it has a result. */
    ghost predicate Turn(k: nat, before: seq<Slot>, slot: Slot)
      reads store
    {
      && Valid() && k < |plan| && store.committed == k + 1 && store.disk.manifest.Some?
      && NextUp(Upto(plan, k), Upto(plan, k + 1), store.disk.jobs, before, slot)
    }

    method Perturbed(base: Weights, seed: nat, sigma: real) returns (w: Weights)
      ensures deterministic ==> w == opt.perturb(base, seed, sigma)
    {
      w := opt.perturb(base, seed, sigma);
      if !deterministic { w := *; }
    }

    method Updated(base: Weights, seeds: seq<nat>, fitness: seq<real>, sigma: real) returns (w: Weights)
      ensures deterministic ==> w == opt.update(base, seeds, fitness, sigma)
    {
      w := opt.update(base, seeds, fitness, sigma);
      if !deterministic { w := *; }
    }

    /** One durable replacement of the newest job file. */
    method WriteJob(ghost k: nat, ghost before: seq<Slot>, slot: Slot, record: JobRecord)
      requires Turn(k, before, slot)
      requires AtFrontier(store.recorded, before, slot)
      requires deterministic ==> record.weights == RequestWeights(opt, plan, store.disk.jobs, slot)
      modifies store`disk, store`recorded
      ensures Turn(k, before, slot) && store.recorded == before + [slot]
      ensures store.disk == old(store.disk).(jobs := old(store.disk.jobs)[slot := record])
      ensures deterministic ==> record.weights == RequestWeights(opt, plan, store.disk.jobs, slot)
    {
      hide Fold, Upto, InOrder, Refines, Intact, RequestWeights, NextUp, Agree, Writes, AtFrontier;
      UptoShape(cfg, plan, k + 1);
      NextUpPrefix(Upto(plan, k), Upto(plan, k + 1), store.disk.jobs, before, slot);
      WriteInOrder(Upto(plan, k), Upto(plan, k + 1), store.disk.jobs, store.recorded, store.physics, before, slot, record);
      if deterministic {
        WriteRefines(opt, cfg, plan, store.disk, k, before, slot, record);
      }
      IntactBeside(cfg, plan, opt.initial, store.disk, store.disk.(jobs := store.disk.jobs[slot := record]), store.committed);
      store.disk := store.disk.(jobs := store.disk.jobs[slot := record]);
      store.recorded := before + [slot];
    }

    /** A slot with a job file: reuse its result, or recover one read-only. Nothing is executed. */
    method ReuseResult(k: nat, ghost before: seq<Slot>, slot: Slot, actual: Weights) returns (r: Outcome<real, Halt>)
      requires Turn(k, before, slot) && slot in store.disk.jobs
      requires !store.disk.jobs[slot].Complete? ==> AtFrontier(store.recorded, before, slot)
      requires deterministic ==> actual == RequestWeights(opt, plan, store.disk.jobs, slot)
      modifies store`disk, store`recorded
      ensures Turn(k, before, slot)
      ensures store.disk == old(store.disk).(jobs := store.disk.jobs) && Kept(old(store.disk.jobs), store.disk.jobs)
      ensures r.Returned? ==> slot in store.disk.jobs && store.disk.jobs[slot] == Complete(actual, r.value)
      ensures r.Raised? ==>
        || r.error.ProcessStop? || r.error.CallbackRefused? || r.error == UnknownOutcome(slot) || r.error == SlotDiverged(slot)
      ensures old(store.disk.jobs)[slot].weights != actual <==> r == Raised(SlotDiverged(slot))
      ensures r == Raised(SlotDiverged(slot)) ==> store.disk == old(store.disk) && !deterministic
    {
      hide Fold, Upto, RequestWeights, Refines;
      var record := store.disk.jobs[slot];
      if deterministic { RecordedWeights(opt, plan, store.disk, k + 1, slot); }
      if record.weights != actual { return Raised(SlotDiverged(slot)); }
      if !record.Complete? {
        var recovered := ReportedResult();
        if recovered.None? { return Raised(UnknownOutcome(slot)); }
        :- CallbackAgrees();
        WriteJob(k, before, slot, Complete(record.weights, recovered.value));
        :- MayStop();
      }
      :- CallbackAgrees();
      return Returned(store.disk.jobs[slot].metric);
    }

    /** The evaluation callback starts: from here on the world may have been acted upon. */
    ghost method Act(k: nat, before: seq<Slot>, slot: Slot)
      requires Turn(k, before, slot) && slot in store.disk.jobs && slot !in store.physics
      modifies store`physics
      ensures Turn(k, before, slot) && store.physics == old(store.physics) + [slot]
    {
      hide Fold, Upto, RequestWeights, Refines;
      DistinctAppend(store.physics, [slot]);
      ElementsAppend(store.physics, slot);
      store.physics := store.physics + [slot];
    }

    /** A slot without a job file: the started record is durable before anything can act on the world. */
    method ExecuteSlot(k: nat, ghost before: seq<Slot>, slot: Slot, actual: Weights)
      returns (r: Outcome<real, Halt>, ghost course: Course)
      requires Turn(k, before, slot) && slot !in store.disk.jobs && slot !in store.physics
      requires AtFrontier(store.recorded, before, slot)
      requires deterministic ==> actual == RequestWeights(opt, plan, store.disk.jobs, slot)
      modifies store`disk, store`recorded, store`physics
      ensures Turn(k, before, slot)
      ensures store.disk == old(store.disk).(jobs := old(store.disk.jobs)[slot := LastWritten(actual, course)])
      ensures Kept(old(store.disk.jobs), store.disk.jobs)
      ensures store.physics == old(store.physics) || store.physics == old(store.physics) + [slot]
      ensures course.Finished? || course.Interrupted? ==> store.physics == old(store.physics) + [slot]
      ensures r.Returned? ==> course == Finished(r.value)
      ensures r.Raised? ==> r.error.ProcessStop? || r.error == ExecutionHalted(slot)
      ensures r == Raised(ExecutionHalted(slot)) ==> course.Failed? || course.Interrupted?
    {
      hide Turn, RequestWeights, Kept, Written;
      ghost var jobs := store.disk.jobs;
      RecordLeft(actual);
      NewRecordKeeps(jobs, slot, Started(actual), OutcomeUnknown(actual));
      WriteJob(k, before, slot, Started(actual));
      course := Stopped;
      :- MayStop();
      var tried;
      tried, course := TryEvaluation(k, before, slot, actual, jobs);
      NewRecordKeeps(jobs, slot, LastWritten(actual, course), OutcomeUnknown(actual));
      var value :- tried;
      if value.Some? {
        r := Returned(value.value);
        return;
      }
      // The exception handler. After an interrupt it replaces the complete record written a moment ago.
      WriteJob(k, before, slot, OutcomeUnknown(actual));
      course := if course.Finished? then Interrupted(course.metric) else Failed;
      :- MayStop();
      r := Raised(ExecutionHalted(slot));
    }

    /** The guarded part of an execution: a value, or no value when an exception is on its way to the handler. */
    method TryEvaluation(k: nat, ghost before: seq<Slot>, slot: Slot, actual: Weights, ghost jobs: Jobs)
      returns (r: Outcome<Option<real>, Halt>, ghost course: Course)
      requires Turn(k, before, slot) && slot !in jobs && slot !in store.physics && store.recorded == before + [slot]
      requires store.disk.jobs == jobs[slot := Started(actual)]
      requires deterministic ==> actual == RequestWeights(opt, plan, store.disk.jobs, slot)
      modifies store`disk, store`recorded, store`physics
      ensures Turn(k, before, slot) && store.recorded == before + [slot]
      ensures course.Stopped? || course.Finished?
      ensures store.disk == old(store.disk).(jobs := jobs[slot := LastWritten(actual, course)])
      ensures store.physics == old(store.physics) || store.physics == old(store.physics) + [slot]
      ensures course.Finished? ==> store.physics == old(store.physics) + [slot]
      ensures r.Returned? && r.value.Some? ==> course == Finished(r.value.value)
      ensures r.Raised? ==> r.error.ProcessStop?
      ensures deterministic ==> actual == RequestWeights(opt, plan, store.disk.jobs, slot)
    {
      hide Turn, RequestWeights, Written;
      RecordLeft(actual);
      course := Stopped;
      var built := CallbackAgrees();
      if built.Fail? { r := Returned(None); return; }
      Act(k, before, slot);
      :- MayStop();
      var result := ReportedResult();
      if result.None? { r := Returned(None); return; }
      var verified := CallbackAgrees();
      if verified.Fail? { r := Returned(None); return; }
      NewRecordKeeps(jobs, slot, Started(actual), Complete(actual, result.value));
      WriteJob(k, before, slot, Complete(actual, result.value));
      course := Finished(result.value);
      :- MayStop();
      var interrupted := CallbackAgrees();
      r := Returned(if interrupted.Pass? then result else None);
    }

    /** Which record each course leaves. */
    static lemma RecordLeft(w: Weights)
      ensures LastWritten(w, Stopped) == Started(w) && LastWritten(w, Failed) == OutcomeUnknown(w)
      ensures forall m :: LastWritten(w, Finished(m)) == Complete(w, m) && LastWritten(w, Interrupted(m)) == OutcomeUnknown(w)
    {
    }

    /** Evaluates one slot: at most one physical execution ever, never a retry of an unknown outcome. */
    method EvaluateRequest(k: nat, ghost before: seq<Slot>, slot: Slot, actual: Weights) returns (r: Outcome<real, Halt>)
      requires Turn(k, before, slot)
      requires deterministic ==> actual == RequestWeights(opt, plan, store.disk.jobs, slot)
      modifies store`disk, store`recorded, store`physics
      ensures Turn(k, before, slot)
      ensures store.disk == old(store.disk).(jobs := store.disk.jobs) && Kept(old(store.disk.jobs), store.disk.jobs)
      ensures store.physics == old(store.physics)
           || (slot !in old(store.disk.jobs) && store.physics == old(store.physics) + [slot])
      ensures r.Returned? ==> slot in store.disk.jobs && store.disk.jobs[slot] == Complete(actual, r.value)
      ensures slot in old(store.disk.jobs) && old(store.disk.jobs)[slot].weights != actual
           <==> r == Raised(SlotDiverged(slot))
      ensures r == Raised(SlotDiverged(slot)) ==> store.disk == old(store.disk)
      ensures r.Raised? ==> SessionHalt(r.error, deterministic)
    {
      hide Turn, RequestWeights, Kept, AtFrontier;
      TurnAtFrontier(k, before, slot);
      if slot in store.disk.jobs {
        r := ReuseResult(k, before, slot, actual);
      } else {
        ghost var course;
        r, course := ExecuteSlot(k, before, slot, actual);
      }
    }

    /** The newest job file, if it is not the slot's own, is the one before it. */
    lemma TurnAtFrontier(k: nat, before: seq<Slot>, slot: Slot)
      requires Turn(k, before, slot)
      ensures slot !in store.disk.jobs ==> slot !in store.physics && AtFrontier(store.recorded, before, slot)
      ensures slot in store.disk.jobs && !store.disk.jobs[slot].Complete? ==> AtFrontier(store.recorded, before, slot)
      ensures Aligned(plan)
    {
      hide Fold, Upto, RequestWeights, Refines, Intact;
      UptoShape(cfg, plan, k + 1);
      Frontier(Upto(plan, k), Upto(plan, k + 1), store.disk.jobs, store.recorded, store.physics, before, slot);
    }

    // ----- Committing and training one generation -----

    static ghost predicate OthersStay(before: map<nat, Folder>, after: map<nat, Folder>, g: nat) {
      before - {g} == after - {g}
    }

    static lemma OthersUpdated(before: map<nat, Folder>, g: nat, first: Folder, later: Folder)
      ensures before[g := first][g := later] == before[g := later] && OthersStay(before, before[g := later], g)
    {
    }

    /** Writes the checkpoint files of generation `g`, its marker last. */
    method Commit(g: nat) returns (r: Outcome<(), Halt>)
      requires Valid() && g <= |plan| && store.committed == g && store.disk.manifest.Some?
      requires AllComplete(store.disk.jobs, Upto(plan, g)) && Committable(g)
      requires deterministic ==> Live() == Fold(opt, plan, g, store.disk.jobs)
      modifies store`disk, store`committed
      ensures Valid() && store.disk == old(store.disk).(folders := store.disk.folders)
      ensures OthersStay(old(store.disk.folders), store.disk.folders, g)
      ensures r.Returned? ==> Session(g) && store.disk.folders[g] == FolderOf(g, opt.initial, Live())
      ensures r.Raised? ==> r.error == ProcessStop
    {
      hide Fold, Upto, OthersStay, Intact, MarkerIntact, Extends, Refines, InOrder;
      assert !HasMarker(store.disk.folders, g);
      if HasMarker(store.disk.folders, g) { return Raised(MarkerExists); }
      ghost var before := store.disk.folders;
      :- WriteFiles(g);
      var policy, state := PolicyFile(weights, history), DriverState(g, opt.initial, weights, completed, best);
      var folder := Folder(Some(policy), Some(history), Some(state), Some(Marker(g, weights, policy, history, state)));
      OthersUpdated(before, g, folder.(marker := None), folder);
      :- WriteMarker(g, folder);
      return Returned(());
    }

    /** The three files a marker pins, one durable write each; files of an interrupted commit are overwritten. */
    method WriteFiles(g: nat) returns (r: Check<Halt>)
      requires Valid() && g <= |plan| && store.committed == g && store.disk.manifest.Some?
      modifies store`disk
      ensures Valid() && store.disk == old(store.disk).(folders := store.disk.folders)
      ensures OthersStay(old(store.disk.folders), store.disk.folders, g)
      ensures r.Pass? ==>
        store.disk.folders == old(store.disk.folders)[g := FolderOf(g, opt.initial, Live()).(marker := None)]
      ensures r.Fail? ==> r.error == ProcessStop
    {
      hide Durable, OthersStay;
      ghost var before := store.disk.folders;
      NoMarkerYet(g);
      var folder := if g in store.disk.folders then store.disk.folders[g] else EMPTY_FOLDER;
      folder := folder.(policy := Some(PolicyFile(weights, history)));
      OthersUpdated(before, g, folder, folder);
      r := WriteFolder(g, folder);
      if r.Fail? { return; }
      ghost var last := folder;
      folder := folder.(history := Some(history));
      OthersUpdated(before, g, last, folder);
      r := WriteFolder(g, folder);
      if r.Fail? { return; }
      last := folder;
      folder := folder.(state := Some(DriverState(g, opt.initial, weights, completed, best)));
      OthersUpdated(before, g, last, folder);
      r := WriteFolder(g, folder);
    }

    lemma NoMarkerYet(g: nat)
      requires Valid() && store.committed == g
      ensures g in store.disk.folders ==> store.disk.folders[g].marker.None?
    {
      hide Fold, Upto, Intact, Refines, InOrder;
      assert !HasMarker(store.disk.folders, g);
    }

    /** The live state may become checkpoint `g`: it passes the loader and extends the checkpoint before it. */
    ghost predicate Committable(g: nat)
      reads this, store
      requires Aligned(plan)
    {
      var m := CompleteMarker(g, opt.initial, Live());
      && MarkerIntact(cfg, plan, opt.initial, g, m)
      && (g > 0 ==> HasMarker(store.disk.folders, g - 1) && Extends(store.disk.folders[g - 1].marker.value, m))
    }

    /** The last write of a commit. */
    method WriteMarker(g: nat, folder: Folder) returns (r: Check<Halt>)
      requires Valid() && g <= |plan| && store.committed == g && store.disk.manifest.Some? && folder.marker.Some?
      requires AllComplete(store.disk.jobs, Upto(plan, g)) && Committable(g) && folder == FolderOf(g, opt.initial, Live())
      requires deterministic ==> Live() == Fold(opt, plan, g, store.disk.jobs)
      modifies store`disk, store`committed
      ensures Valid() && store.disk == old(store.disk).(folders := old(store.disk.folders)[g := folder]) && store.committed == g + 1
      ensures r.Fail? ==> r.error == ProcessStop
    {
      hide Fold, Upto;
      MarkerCommits(plan, store.disk, store.recorded, store.physics, g, folder);
      IntactMarker(cfg, plan, opt.initial, store.disk, g, Live());
      if deterministic { MarkerRefines(opt, plan, store.disk, g, folder); }
      store.disk := store.disk.(folders := store.disk.folders[g := folder]);
      store.committed := g + 1;
      r := MayStop();
    }

    method WriteFolder(g: nat, folder: Folder) returns (r: Check<Halt>)
      requires Valid() && g <= |plan| && store.committed == g && store.disk.manifest.Some? && folder.marker.None?
      modifies store`disk
      ensures Valid() && store.disk == old(store.disk).(folders := old(store.disk.folders)[g := folder])
      ensures r.Fail? ==> r.error == ProcessStop
    {
      hide Fold, Upto;
      UncommittedFolder(opt, plan, store.disk, g, folder);
      IntactUncommitted(cfg, plan, opt.initial, store.disk, g, folder);
      store.disk := store.disk.(folders := store.disk.folders[g := folder]);
      r := MayStop();
    }

    /** Generation `k + 1` is under way and every slot of `done` has a result. */
    ghost predicate UnderWay(k: nat, done: seq<Slot>)
      reads store
    {
      && Valid() && k < |plan| && store.committed == k + 1 && store.disk.manifest.Some?
      && AllComplete(store.disk.jobs, done)
    }

    /** All cases of one candidate under one perturbation. */
    method EvaluateCandidate(k: nat, c: nat, actual: Weights) returns (r: Outcome<Row, Halt>)
      requires k < |plan| && Aligned(plan) && c < |plan[k].populationSeeds|
      requires UnderWay(k, Upto(plan, k) + TrainSlots(plan[k], c)) && plan[k].generation == k + 1
      requires deterministic ==>
        actual == opt.perturb(Fold(opt, plan, k, store.disk.jobs).weights, plan[k].populationSeeds[c], plan[k].sigma)
      modifies store`disk, store`recorded, store`physics
      ensures UnderWay(k, Upto(plan, k) + TrainSlots(plan[k], c))
      ensures store.disk == old(store.disk).(jobs := store.disk.jobs) && Kept(old(store.disk.jobs), store.disk.jobs)
      ensures old(store.physics) <= store.physics
      ensures r.Returned? ==>
        && AllComplete(store.disk.jobs, CandidateSlots(plan[k], c))
        && r.value == Row(Metrics(store.disk.jobs, CandidateSlots(plan[k], c)), CandidateSlots(plan[k], c))
      ensures r.Raised? ==> SessionHalt(r.error, deterministic)
    {
      hide Fold, Upto, TrainSlots, Durable, ValidPlan, Population;
      var e := plan[k];
      var row := Row([], []);
      ghost var all, base := CandidateSlots(e, c), Upto(plan, k) + TrainSlots(e, c);
      ghost var jobs := store.disk.jobs;
      for i := 0 to |e.caseIndices|
        invariant UnderWay(k, base + all[..i])
        invariant store.disk == old(store.disk).(jobs := store.disk.jobs) && Kept(jobs, store.disk.jobs)
        invariant old(store.physics) <= store.physics
        invariant row == Row(Metrics(store.disk.jobs, all[..i]), all[..i])
      {
        var slot := TrainSlot(e, c, i);
        CandidatePosition(plan, k, c, i);
        KeptAgree(jobs, store.disk.jobs, Upto(plan, k));
        FoldFrame(opt, plan, k, jobs, store.disk.jobs);
        ghost var was := store.disk.jobs;
        var metric :- EvaluateRequest(k, base + all[..i], slot, actual);
        KeptAgree(was, store.disk.jobs, all[..i]);
        MetricsFrame(was, store.disk.jobs, all[..i]);
        assert all[..i + 1] == all[..i] + [slot];
        row := Row(row.metrics + [metric], row.requests + [slot]);
      }
      assert all[..|e.caseIndices|] == all;
      return Returned(row);
    }

    /** All declared development cases on the updated weights. */
    method EvaluateDevelopment(k: nat, actual: Weights) returns (r: Outcome<Row, Halt>)
      requires k < |plan| && Aligned(plan) && plan[k].runDev && plan[k].generation == k + 1
      requires UnderWay(k, Upto(plan, k) + TrainSlots(plan[k], |plan[k].populationSeeds|))
      requires deterministic ==> actual == Fold(opt, plan, k + 1, store.disk.jobs).weights
      modifies store`disk, store`recorded, store`physics
      ensures UnderWay(k, Upto(plan, k) + TrainSlots(plan[k], |plan[k].populationSeeds|))
      ensures store.disk == old(store.disk).(jobs := store.disk.jobs) && Kept(old(store.disk.jobs), store.disk.jobs)
      ensures old(store.physics) <= store.physics
      ensures r.Returned? ==>
        && AllComplete(store.disk.jobs, DevSlots(plan[k]))
        && r.value == Row(Metrics(store.disk.jobs, DevSlots(plan[k])), DevSlots(plan[k]))
      ensures r.Raised? ==> SessionHalt(r.error, deterministic)
    {
      hide Fold, Upto, TrainSlots, Durable, ValidPlan, Population;
      var e := plan[k];
      var row := Row([], []);
      ghost var all, base := DevSlots(e), Upto(plan, k) + TrainSlots(e, |e.populationSeeds|);
      ghost var jobs := store.disk.jobs;
      for i := 0 to |e.devEnvironmentSeeds|
        invariant UnderWay(k, base + all[..i])
        invariant store.disk == old(store.disk).(jobs := store.disk.jobs) && Kept(jobs, store.disk.jobs)
        invariant old(store.physics) <= store.physics
        invariant row == Row(Metrics(store.disk.jobs, all[..i]), all[..i])
      {
        var slot := DevSlot(e, i);
        DevPosition(plan, k, i);
        KeptAgree(jobs, store.disk.jobs, base);
        AgreeParts(jobs, store.disk.jobs, Upto(plan, k), TrainSlots(e, |e.populationSeeds|));
        WeightsFrame(opt, plan, k + 1, jobs, store.disk.jobs);
        ghost var was := store.disk.jobs;
        var metric :- EvaluateRequest(k, base + all[..i], slot, actual);
        KeptAgree(was, store.disk.jobs, all[..i]);
        MetricsFrame(was, store.disk.jobs, all[..i]);
        assert all[..i + 1] == all[..i] + [slot];
        row := Row(row.metrics + [metric], row.requests + [slot]);
      }
      assert all[..|e.devEnvironmentSeeds|] == all;
      return Returned(row);
    }

    lemma PlanIsAligned()
      requires Valid()
      ensures Aligned(plan)
    {
    }

    /** The whole population of one generation. */
    method EvaluatePopulation(k: nat) returns (r: Outcome<(seq<seq<real>>, seq<Slot>), Halt>)
      requires Session(k) && k < |plan| && plan[k].generation == k + 1 && AllComplete(store.disk.jobs, Upto(plan, k))
      modifies store`disk, store`recorded, store`physics
      ensures Session(k)
      ensures store.disk == old(store.disk).(jobs := store.disk.jobs) && Kept(old(store.disk.jobs), store.disk.jobs)
      ensures old(store.physics) <= store.physics
      ensures r.Returned? ==>
        && UnderWay(k, Upto(plan, k) + TrainSlots(plan[k], |plan[k].populationSeeds|))
        && r.value == (Population(store.disk.jobs, plan[k], |plan[k].populationSeeds|),
                       TrainSlots(plan[k], |plan[k].populationSeeds|))
      ensures r.Raised? ==> SessionHalt(r.error, deterministic)
    {
      hide Fold, Upto, Durable, CompleteMarker, Agree;
      PlanIsAligned();
      var e := plan[k];
      var metrics: seq<seq<real>>, requests: seq<Slot> := [], [];
      ghost var jobs := store.disk.jobs;
      for c := 0 to |e.populationSeeds|
        invariant UnderWay(k, Upto(plan, k) + TrainSlots(e, c))
        invariant store.disk == old(store.disk).(jobs := store.disk.jobs) && Kept(jobs, store.disk.jobs)
        invariant old(store.physics) <= store.physics
        invariant metrics == Population(store.disk.jobs, e, c) && requests == TrainSlots(e, c)
      {
        ghost var was := store.disk.jobs;
        KeptAgree(jobs, was, Upto(plan, k));
        FoldFrame(opt, plan, k, jobs, was);
        var actual := Perturbed(weights, e.populationSeeds[c], e.sigma);
        var row := EvaluateCandidate(k, c, actual);
        KeptAgree(jobs, store.disk.jobs, Upto(plan, k));
        FoldFrame(opt, plan, k, jobs, store.disk.jobs);
        if row.Raised? { return Raised(row.error); }
        KeptAgree(was, store.disk.jobs, Upto(plan, k) + TrainSlots(e, c));
        AgreeParts(was, store.disk.jobs, Upto(plan, k), TrainSlots(e, c));
        PopulationFrame(was, store.disk.jobs, e, c);
        metrics := metrics + [row.value.metrics];
        requests := requests + row.value.requests;
      }
      KeptAgree(jobs, store.disk.jobs, Upto(plan, k));
      FoldFrame(opt, plan, k, jobs, store.disk.jobs);
      return Returned((metrics, requests));
    }

    /** The scheduled development sweep of generation `k + 1`, if there is one, and the choice of the best. */
    method SelectBest(k: nat, after: Weights) returns (r: Outcome<Row, Halt>)
      requires k < |plan| && Aligned(plan) && UnderWay(k, Upto(plan, k) + TrainSlots(plan[k], |plan[k].populationSeeds|))
      requires deterministic ==> after == Fold(opt, plan, k + 1, store.disk.jobs).weights
      modifies store`disk, store`recorded, store`physics, this`best
      ensures UnderWay(k, Upto(plan, k) + TrainSlots(plan[k], |plan[k].populationSeeds|))
      ensures store.disk == old(store.disk).(jobs := store.disk.jobs) && Kept(old(store.disk.jobs), store.disk.jobs)
      ensures old(store.physics) <= store.physics
      ensures r.Returned? ==>
        && AllComplete(store.disk.jobs, DevSlots(plan[k]))
        && r.value == Row(Metrics(store.disk.jobs, DevSlots(plan[k])), DevSlots(plan[k]))
        && best == if plan[k].runDev then Better(old(best), plan[k].generation, Mean(r.value.metrics)) else old(best)
      ensures r.Raised? ==> SessionHalt(r.error, deterministic)
    {
      hide Fold, Upto, TrainSlots, DevSlots, Refines, ValidPlan, InOrder;
      UptoStep(cfg, plan, k);
      var e := plan[k];
      var sweep := Row([], []);
      if e.runDev {
        sweep :- EvaluateDevelopment(k, after);
        var score := Mean(sweep.metrics);
        if best.None? || score > best.value.metric {
          best := Some(Best(e.generation, score));
        }
      }
      return Returned(sweep);
    }

    /** One generation: measure the population, update, measure the development cases, choose the best, commit. */
    method TrainGeneration(k: nat) returns (r: Outcome<(), Halt>)
      requires Session(k) && k < |plan|
      modifies this, store
      ensures Valid() && Kept(old(store.disk.jobs), store.disk.jobs) && old(store.physics) <= store.physics
      ensures store.disk == old(store.disk).(jobs := store.disk.jobs, folders := store.disk.folders)
      ensures r.Returned? ==> Session(k + 1) && Trained(plan[k], old(Live()), Live(), store.disk.jobs)
      ensures r.Returned? && deterministic ==> UpdatedBy(opt, plan[k], old(Live()), Live())
      ensures r.Raised? ==> SessionHalt(r.error, deterministic)
    {
      hide Fold, Upto, TrainSlots, DevSlots, GenerationSlots, Refines, ValidPlan, InOrder, Population, Metrics, Fitness, OthersStay,
           Intact, MarkerIntact, Extends, CompleteMarker, Trained, UpdatedBy, Mean, Better, Durable;
      PlanIsValid();
      UptoStep(cfg, plan, k);
      var e := plan[k];
      ghost var st := Live();
      LivePassesTheLoader(k);
      CommittedComplete(k);
      var measured :- EvaluatePopulation(k);
      var (metrics, requests) := measured;
      ghost var jobs := store.disk.jobs;
      var fitness := Fitness(metrics);
      var after := Updated(weights, e.populationSeeds, fitness, e.sigma);
      :- CallbackAgrees();
      FoldWeights(opt, plan, k, jobs);
      var sweep :- SelectBest(k, after);
      GenerationDone(k, st, jobs, store.disk.jobs, metrics, after, sweep.metrics, requests + sweep.requests);
      RecordGeneration(e, st, metrics, fitness, after, sweep.metrics, requests + sweep.requests);
      r := Commit(k + 1);
    }

    /** What the bookkeeping of generation `k + 1` amounts to, once all its slots are measured. */
    lemma GenerationDone(k: nat, st: State, was: Jobs, jobs: Jobs, metrics: seq<seq<real>>, after: Weights, dev: seq<real>,
                         requests: seq<Slot>)
      requires k < |plan| && ValidPlan(cfg, plan) && Aligned(plan) && Kept(was, jobs)
      requires AllComplete(was, Upto(plan, k) + TrainSlots(plan[k], |plan[k].populationSeeds|))
      requires AllComplete(jobs, DevSlots(plan[k])) && dev == Metrics(jobs, DevSlots(plan[k]))
      requires metrics == Population(was, plan[k], |plan[k].populationSeeds|)
      requires requests == TrainSlots(plan[k], |plan[k].populationSeeds|) + DevSlots(plan[k])
      requires MarkerIntact(cfg, plan, opt.initial, k, CompleteMarker(k, opt.initial, st))
      ensures var next := Advance(plan[k], st, metrics, after, dev, requests);
        && Trained(plan[k], st, next, jobs)
        && MarkerIntact(cfg, plan, opt.initial, k + 1, CompleteMarker(k + 1, opt.initial, next))
        && Extends(CompleteMarker(k, opt.initial, st), CompleteMarker(k + 1, opt.initial, next))
        && (deterministic && st == Fold(opt, plan, k, was)
            && after == opt.update(st.weights, plan[k].populationSeeds, Fitness(metrics), plan[k].sigma) ==>
              UpdatedBy(opt, plan[k], st, next) && next == Fold(opt, plan, k + 1, jobs))
    {
      hide Fold, Upto, TrainSlots, DevSlots, GenerationSlots, ValidPlan, Population, Metrics, Fitness, Advance, MarkerIntact, Extends,
           CompleteMarker, Trained, Kept, UpdatedBy;
      var e := plan[k];
      AdvanceUpdates(opt, e, st, metrics, after, dev, requests);
      UptoStep(cfg, plan, k);
      StillMeasured(was, jobs, e, k);
      SweepLength(jobs, e);
      AdvanceMeasured(e, st, metrics, after, dev, requests, jobs);
      AdvanceIntact(cfg, plan, opt.initial, k, st, metrics, after, dev, requests);
      if deterministic && st == Fold(opt, plan, k, was)
         && after == opt.update(st.weights, e.populationSeeds, Fitness(metrics), e.sigma) {
        KeptAgree(was, jobs, Upto(plan, k) + TrainSlots(e, |e.populationSeeds|));
        GenerationIsStep(opt, plan, k, was, jobs, metrics, after, dev, requests);
      }
    }

    /** The generation's entries in the optimizer history and the driver's list. */
    method RecordGeneration(e: Entry, ghost st: State, metrics: seq<seq<real>>, fitness: seq<real>, after: Weights,
                            dev: seq<real>, requests: seq<Slot>)
      requires Live() == st.(best := best) && fitness == Fitness(metrics)
      requires best == if e.runDev then Better(st.best, e.generation, Mean(dev)) else st.best
      modifies this`history, this`completed, this`weights
      ensures Live() == Advance(e, st, metrics, after, dev, requests)
    {
      history := history + [EsStep(e.populationSeeds, fitness, metrics, weights, after)];
      completed := completed + [GenerationRecord(e.generation, e.sigma, metrics, fitness, weights, after, dev, Mean(dev), requests)];
      weights := after;
    }

    /** The development sweep leaves the training results as they were. */
    lemma StillMeasured(was: Jobs, jobs: Jobs, e: Entry, k: nat)
      requires k < |plan| && Aligned(plan) && e == plan[k]
      requires AllComplete(was, Upto(plan, k) + TrainSlots(e, |e.populationSeeds|)) && Kept(was, jobs)
      ensures AllComplete(jobs, TrainSlots(e, |e.populationSeeds|))
      ensures Population(jobs, e, |e.populationSeeds|) == Population(was, e, |e.populationSeeds|)
    {
      hide Upto, TrainSlots, Population;
      var slots := Upto(plan, k) + TrainSlots(e, |e.populationSeeds|);
      KeptAgree(was, jobs, slots);
      AgreeParts(was, jobs, Upto(plan, k), TrainSlots(e, |e.populationSeeds|));
      PopulationFrame(was, jobs, e, |e.populationSeeds|);
      forall s | s in TrainSlots(e, |e.populationSeeds|) ensures s in slots {}
    }

    static lemma AdvanceUpdates(opt: Optimizer, e: Entry, st: State, metrics: seq<seq<real>>, after: Weights, dev: seq<real>,
                                requests: seq<Slot>)
      ensures after == opt.update(st.weights, e.populationSeeds, Fitness(metrics), e.sigma) ==>
        UpdatedBy(opt, e, st, Advance(e, st, metrics, after, dev, requests))
    {
    }

    static lemma SweepLength(jobs: Jobs, e: Entry)
      ensures |Metrics(jobs, DevSlots(e))| == |DevSlots(e)|
    {
    }

    lemma LivePassesTheLoader(k: nat)
      requires Session(k)
      ensures MarkerIntact(cfg, plan, opt.initial, k, CompleteMarker(k, opt.initial, Live())) && |completed| == k
    {
      hide Accepted, AllRequests, Upto, InOrder, Refines;
      MarkerFields(cfg, plan, opt.initial, store.disk, k + 1, k);
      CompletedLength(cfg, plan, opt.initial, k, CompleteMarker(k, opt.initial, Live()));
    }

    lemma PlanIsValid()
      requires Valid()
      ensures ValidPlan(cfg, plan) && Aligned(plan) && |plan| > 0
    {
    }

    lemma CommittedComplete(k: nat)
      requires Session(k)
      ensures AllComplete(store.disk.jobs, Upto(plan, k))
    {
      hide Upto;
    }

    // ----- Sessions -----

    /** The loader's pass over the committed records. */
    method CheckRecords(completed: seq<GenerationRecord>, history: seq<EsStep>, best: Option<Best>) returns (ok: bool)
      ensures ok <==> Accepted(cfg, plan, completed, history, best)
      ensures ok <==>
        && |completed| == |history| <= |plan|
        && (forall i :: 0 <= i < |completed| ==> Agrees(cfg, plan, i, completed[i], history[i]))
        && EarliestBest(completed, best)
    {
      hide Mean, Average, EarliestBest, Agrees;
      AcceptedMeans(cfg, plan, completed, history, best);
      if |completed| != |history| || |completed| > |plan| { return false; }
      var expected: Option<Best> := None;
      for i := 0 to |completed|
        invariant forall j :: 0 <= j < i ==> RecordOk(cfg, plan, j, completed[j], history[j])
        invariant expected == CommittedBest(completed[..i])
      {
        var record := completed[i];
        if !RecordOk(cfg, plan, i, record, history[i]) { return false; }
        if record.dev != [] && (expected.None? || record.devMean > expected.value.metric) {
          expected := Some(Best(record.generation, record.devMean));
        }
        assert completed[..i + 1][..i] == completed[..i];
      }
      assert completed[..|completed|] == completed;
      return best == expected;
    }

    /** Restores the newest committed checkpoint; incomplete folders are never read. Whatever happened before, only two
        directories are refused: one without a checkpoint, and one whose folder names are not in numeric order. */
    method LoadCommitted() returns (r: Outcome<nat, Halt>)
      requires Valid() && store.disk.manifest.Some?
      modifies this
      ensures r.Returned? ==> Session(r.value)
      ensures r == Raised(NoCommittedCheckpoint) <==> Committed(store.disk) == {}
      ensures r == Raised(CheckpointsOutOfOrder) <==> |Committed(store.disk)| > PADDED_GENERATIONS
      ensures r.Raised? ==> r.error.NoCommittedCheckpoint? || r.error.CheckpointsOutOfOrder?
    {
      hide Fold, Upto, InOrder, Refines, Accepted, AllRequests, Name;
      var d := store.disk;
      MarkerCount(d, store.committed);
      var markers := SortedByName(Committed(d));
      if markers == [] { return Raised(NoCommittedCheckpoint); }
      if |markers| <= PADDED_GENERATIONS { ListedNumerically(markers, |markers|); }
      for expected := 0 to |markers|
        invariant forall i :: 0 <= i < expected ==> markers[i] == i
      {
        var k := markers[expected];
        assert k in markers;
        MarkerFields(cfg, plan, opt.initial, d, store.committed, k);
        if d.folders[k].marker.value.generation != expected { return Raised(CheckpointsOutOfOrder); }
        if !FolderReadable(d, k) { return Raised(CorruptCheckpoint); }
      }
      if |markers| > PADDED_GENERATIONS { TenThousandIsMisplaced(markers, |markers|); }
      var last := markers[|markers| - 1];
      MarkerFields(cfg, plan, opt.initial, d, store.committed, last);
      NeededTensorsStay(cfg, plan, opt.initial, d, store.committed, last);
      CompletedLength(cfg, plan, opt.initial, last, d.folders[last].marker.value);
      var latest := d.folders[last];
      var state, policy := latest.state.value, latest.policy.value;
      if state.generation > cfg.generations || state.generation != |markers| - 1 || |state.completed| != state.generation
         || |policy.history| != state.generation || policy.weights != state.weights {
        return Raised(CorruptCheckpoint);
      }
      weights, history, completed, best := policy.weights, policy.history, state.completed, state.best;
      var ok := CheckRecords(completed, history, best);
      if !ok { return Raised(CorruptCheckpoint); }
      if deterministic { RefinedFolderReadable(opt, plan, d, |markers|, last); }
      return Returned(state.generation);
    }

    /** The distinct request ids of the committed records. */
    method CollectRequests() returns (ids: set<Slot>)
      ensures ids == Elements(AllRequests(completed))
    {
      ids := {};
      for i := 0 to |completed|
        invariant ids == Elements(AllRequests(completed[..i]))
      {
        assert completed[..i + 1][..i] == completed[..i];
        ids := ids + set s | s in completed[i].requests;
      }
      assert completed[..|completed|] == completed;
    }

    /** Final accounting: every planned evaluation, each complete, and no other. */
    method Summarise() returns (r: Outcome<Summary, Halt>)
      requires Session(|plan|)
      ensures r.Raised? ==> SessionHalt(r.error, deterministic)
      ensures r.Returned? ==>
        && store.disk.jobs.Keys == Elements(AllSlots(plan)) == Elements(AllRequests(completed))
        && AllComplete(store.disk.jobs, AllSlots(plan))
        && r.value.identity == IdentityOf(plan, CompleteMarker(|plan|, opt.initial, Live()))
      ensures r.Returned? && deterministic ==> r.value == FinalSummary(opt, plan, store.disk.jobs)
    {
      hide Fold, Upto, Refines, AllRequests, DevSweeps, Intact, Accepted;
      CommittedComplete(|plan|);
      LivePassesTheLoader(|plan|);
      AcceptedBest(cfg, plan, completed, history, best);
      CompleteLedger(cfg, plan, store.disk.jobs, store.recorded);
      PlanAccounting(cfg, plan);
      if deterministic {
        FinalBest(opt, cfg, plan, store.disk.jobs);
        FoldRequests(opt, plan, |plan|, store.disk.jobs);
      }
      if |completed| != cfg.generations || best.None? { return Raised(AccountingMismatch); }
      :- CallbackAgrees();
      var expected := cfg.generations * cfg.population * cfg.casesPerGeneration + DevSweeps(plan, |plan|) * cfg.devCases;
      if |store.disk.jobs| != expected || exists s | s in store.disk.jobs :: !store.disk.jobs[s].Complete? {
        return Raised(AccountingMismatch);
      }
      var ids := CollectRequests();
      if |ids| != expected || ids != store.disk.jobs.Keys { return Raised(AccountingMismatch); }
      :- CallbackAgrees();
      var chosen := best.value.generation;
      if !(1 <= chosen <= |completed|) { return Raised(AccountingMismatch); }
      return Returned(Summary(Identity(cfg.generations, |completed|, expected, |store.disk.jobs|, chosen,
                                       completed[chosen - 1].after, weights), best.value.metric));
    }

    /** Registers a fresh run: manifest first, then generation zero. */
    method StartFresh() returns (r: Outcome<nat, Halt>)
      requires Valid() && store.disk.manifest.None?
      modifies this, store`disk, store`committed
      ensures Valid() && store.disk.jobs == old(store.disk.jobs)
      ensures r.Returned? ==> r.value == 0 && Session(0)
      ensures r.Raised? ==> r.error == ProcessStop
    {
      hide Upto, InOrder;
      weights, history, completed, best := opt.initial, [], [], None;
      var d := Registered(plan, opt, store.disk);
      IntactBeside(cfg, plan, opt.initial, store.disk, d, 0);
      if deterministic { RefinesBeside(opt, plan, store.disk, d, 0); }
      store.disk := d;
      :- MayStop();
      NothingBefore();
      StartIntact(cfg, plan, opt.initial);
      var _ :- Commit(0);
      return Returned(0);
    }

    lemma NothingBefore()
      requires Aligned(plan)
      ensures Upto(plan, 0) == [] && forall jobs :: Fold(opt, plan, 0, jobs) == State(opt.initial, [], [], None)
    {
    }

    /** The event log and the halt notice of a session that failed before training. */
    method LeaveTraces()
      requires Valid()
      modifies store`disk
      ensures Valid() && store.disk == old(store.disk).(stray := true)
    {
      hide Fold, Upto, InOrder, Refines;
      var d := store.disk.(stray := true);
      IntactBeside(cfg, plan, opt.initial, store.disk, d, store.committed);
      if deterministic { RefinesKeepsManifest(opt, plan, store.disk, d, store.committed); }
      store.disk := d;
    }

    method WriteSummary(summary: Summary)
      requires Session(|plan|) && (deterministic ==> summary == FinalSummary(opt, plan, store.disk.jobs))
      requires summary.identity == IdentityOf(plan, CompleteMarker(|plan|, opt.initial, Live()))
      modifies store`disk
      ensures Session(|plan|) && store.disk == old(store.disk).(summary := Some(summary))
    {
      hide Fold, Upto, InOrder, Refines, FinalSummary, IdentityOf, CompleteMarker;
      var d := store.disk.(summary := Some(summary));
      IntactSummary(cfg, plan, opt.initial, store.disk, store.committed, summary);
      if deterministic { RefinesKeepsManifest(opt, plan, store.disk, d, store.committed); }
      store.disk := d;
    }

    /** The opening of a session: the directory is refused, or restored, or registered. */
    method Begin(resume: bool) returns (r: Outcome<nat, Halt>)
      requires Valid()
      modifies this, store`disk, store`committed
      ensures Valid() && store.disk.jobs == old(store.disk.jobs)
      ensures r.Returned? ==> Session(r.value) && CanStart(plan, old(store.disk), resume)
      ensures r.Raised? && r.error.CannotStart? <==> StartRefused(plan, old(store.disk), resume)
      ensures StartRefused(plan, old(store.disk), resume) ==> store.disk == old(store.disk)
      ensures r.Raised? && (r.error.NoCommittedCheckpoint? || r.error.CheckpointsOutOfOrder?) ==>
        !CanStart(plan, old(store.disk), resume)
      ensures !CanStart(plan, old(store.disk), resume) ==>
        && store.committed == old(store.committed) && store.disk == old(store.disk).(stray := store.disk.stray)
        && (r.error.CannotStart? || r.error.CallbackRefused? || r.error.NoCommittedCheckpoint? || r.error.CheckpointsOutOfOrder?)
      ensures CanStart(plan, old(store.disk), resume) && r.Raised? ==> r.error.CallbackRefused? || r.error.ProcessStop?
    {
      hide Fold, Upto, Ordered, Refines, Intact, LiveIsCommitted;
      if StartRefused(plan, store.disk, resume) { return Raised(CannotStart); }
      var built := CallbackAgrees();
      if built.Fail? {
        LeaveTraces();
        return Raised(built.error);
      }
      if resume { r := LoadCommitted(); } else { r := StartFresh(); }
    }

    /** One session, fresh or resumed, up to the run summary. */
    method Run(resume: bool) returns (r: Outcome<Summary, Halt>)
      requires Valid()
      modifies this, store
      ensures Valid() && Kept(old(store.disk.jobs), store.disk.jobs) && old(store.physics) <= store.physics
      ensures r.Raised? && r.error.CannotStart? <==> StartRefused(plan, old(store.disk), resume)
      ensures StartRefused(plan, old(store.disk), resume) ==> store.disk == old(store.disk)
      ensures r.Raised? && (r.error.NoCommittedCheckpoint? || r.error.CheckpointsOutOfOrder?) ==>
        !CanStart(plan, old(store.disk), resume)
      ensures !CanStart(plan, old(store.disk), resume) ==>
        && r.Raised? && store.committed == old(store.committed) && store.physics == old(store.physics)
        && store.disk == old(store.disk).(stray := store.disk.stray)
        && (r.error.CannotStart? || r.error.CallbackRefused? || r.error.NoCommittedCheckpoint? || r.error.CheckpointsOutOfOrder?)
      ensures r.Raised? ==> !Corruption(r.error) && (deterministic ==> !r.error.SlotDiverged?)
      ensures r.Returned? ==>
        && store.committed == |plan| + 1
        && store.disk.jobs.Keys == Elements(AllSlots(plan)) && AllComplete(store.disk.jobs, AllSlots(plan))
        && store.disk.summary == Some(r.value)
      ensures r.Returned? && deterministic ==> r.value == FinalSummary(opt, plan, store.disk.jobs)
    {
      hide Fold, Upto, InOrder, Refines, FinalSummary, Intact, CanStart, StartRefused, LiveIsCommitted, IdentityOf;
      var done :- Begin(resume);
      ghost var jobs := store.disk.jobs;
      while done < |plan|
        invariant done <= |plan| && Session(done)
        invariant Kept(jobs, store.disk.jobs) && old(store.physics) <= store.physics
      {
        var _ :- TrainGeneration(done);
        done := done + 1;
      }
      var summary :- Summarise();
      WriteSummary(summary);
      :- MayStop();
      return Returned(summary);
    }

    /** Registers an independently recovered complete result. Never executes anything, never overwrites a result. */
    method ReconcileResult(slot: Slot, metric: real) returns (r: Outcome<(), Halt>)
      requires Valid()
      modifies store`disk, store`recorded
      ensures Valid() && Kept(old(store.disk.jobs), store.disk.jobs)
      ensures slot !in old(store.disk.jobs) ==> r == Raised(UnknownRequest)
      ensures slot in old(store.disk.jobs) && old(store.disk.jobs)[slot].Complete? ==> r == Raised(ResultImmutable)
      ensures r.Returned? ==>
        && slot in store.disk.jobs && store.disk.jobs[slot] == Complete(old(store.disk.jobs)[slot].weights, metric)
      ensures r.Raised? && !r.error.ProcessStop? ==> store.disk == old(store.disk)
      ensures store.disk == old(store.disk).(jobs := store.disk.jobs) && store.disk.jobs.Keys == old(store.disk.jobs).Keys
    {
      hide Fold, Upto, Refines, InOrder;
      if slot !in store.disk.jobs { return Raised(UnknownRequest); }
      var record := store.disk.jobs[slot];
      if record.Complete? { return Raised(ResultImmutable); }
      :- CallbackAgrees();
      ghost var before := Unresolved(cfg, plan, store.disk, store.recorded, store.physics, store.committed, slot);
      if deterministic { RecordedWeights(opt, plan, store.disk, store.committed, slot); }
      WriteJob(store.committed - 1, before, slot, Complete(record.weights, metric));
      :- MayStop();
      return Returned(());
    }
  }
}
