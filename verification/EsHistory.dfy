/** Whole histories of one training directory: any number of sessions, crashes, reconciliations and retirements. */
module EsHistory {
  import opened Wrappers
  import opened EsPlan
  import opened EsFold
  import opened EsStorage
  import opened EsIntegrity
  import opened EsDriver
  import opened CheckpointNames
  import opened CheckpointRetention

  const EMPTY_DISK := Disk(None, false, map[], map[], None, None)

  /** A directory nothing has been written to satisfies the durable invariant. */
  lemma FreshDirectory(cfg: Config, plan: Plan, opt: Optimizer, deterministic: bool, store: Storage)
    requires ValidPlan(cfg, plan)
    requires store.disk == EMPTY_DISK && store.recorded == [] && store.physics == [] && store.committed == 0
    ensures Durable(cfg, plan, opt, deterministic, store)
  {
    assert Aligned(plan) by {
      forall k | 0 <= k < |plan| ensures |plan[k].caseIndices| == |plan[k].environmentSeeds| {
        assert ValidEntry(cfg, plan[k], k);
      }
    }
    assert Upto(plan, 0) == [];
  }

  /** One operation on the directory: a session, a reconciliation or a retirement. Each is a new process: nothing but the
      directory survives. It may stop at any durable write. */
  method Operate(cfg: Config, plan: Plan, opt: Optimizer, deterministic: bool, store: Storage)
    requires Durable(cfg, plan, opt, deterministic, store)
    modifies store
    ensures Durable(cfg, plan, opt, deterministic, store)
    ensures old(store.physics) <= store.physics && Kept(old(store.disk.jobs), store.disk.jobs)
    ensures Stuck(plan, old(store.disk)) ==> Stuck(plan, store.disk) && store.physics == old(store.physics)
  {
    hide Durable, Committed;
    ghost var d := store.disk;
    DirectoryFacts(cfg, plan, opt, deterministic, store);
    var driver := new ESTrainingDriver(cfg, plan, opt, deterministic, store);
    if {
      case true =>
        var resume: bool := *;
        NothingStarts(plan, d, resume);
        var _ := driver.Run(resume);
      case true =>
        var slot: Slot := *;
        var metric: real := *;
        var _ := driver.ReconcileResult(slot, metric);
      case true =>
        var tool := new RetentionTool(cfg, plan, opt, deterministic, store);
        var _ := tool.Retire();
    }
    DirectoryFacts(cfg, plan, opt, deterministic, store);
  }

  /** Runs `steps` arbitrary operations; each may stop at any durable write. No slot is ever evaluated twice, no
      finished result is ever changed, and every committed file stays the pure fold of the recorded results. A directory
      that is stuck stays stuck, and nothing is evaluated in it. */
  method History(cfg: Config, plan: Plan, opt: Optimizer, deterministic: bool, store: Storage, steps: nat)
    requires Durable(cfg, plan, opt, deterministic, store)
    modifies store
    ensures Durable(cfg, plan, opt, deterministic, store)
    ensures Distinct(store.physics) && old(store.physics) <= store.physics
    ensures Kept(old(store.disk.jobs), store.disk.jobs)
    ensures Stuck(plan, old(store.disk)) ==> Stuck(plan, store.disk) && store.physics == old(store.physics)
  {
    hide Durable, Stuck;
    for i := 0 to steps
      invariant Durable(cfg, plan, opt, deterministic, store)
      invariant old(store.physics) <= store.physics && Kept(old(store.disk.jobs), store.disk.jobs)
      invariant Stuck(plan, old(store.disk)) ==> Stuck(plan, store.disk) && store.physics == old(store.physics)
    {
      Operate(cfg, plan, opt, deterministic, store);
    }
    PhysicsDistinct(cfg, plan, opt, deterministic, store);
  }

  /** The same from a directory nothing has been written to: whatever happens, no slot is evaluated twice and every
      committed generation passes the loader. */
  method FreshHistory(cfg: Config, plan: Plan, opt: Optimizer, deterministic: bool, steps: nat) returns (store: Storage)
    requires ValidPlan(cfg, plan)
    ensures Durable(cfg, plan, opt, deterministic, store) && Distinct(store.physics)
    ensures Aligned(plan) && forall k :: 0 <= k < store.committed ==> FolderIntact(cfg, plan, opt.initial, store.disk, k)
  {
    hide Durable, ValidPlan, Aligned, FolderIntact;
    store := new Storage();
    FreshDirectory(cfg, plan, opt, deterministic, store);
    History(cfg, plan, opt, deterministic, store, steps);
    CommittedIntact(cfg, plan, opt, deterministic, store);
  }

  lemma CommittedIntact(cfg: Config, plan: Plan, opt: Optimizer, deterministic: bool, store: Storage)
    requires Durable(cfg, plan, opt, deterministic, store)
    ensures Aligned(plan) && forall k :: 0 <= k < store.committed ==> FolderIntact(cfg, plan, opt.initial, store.disk, k)
  {
    hide Refines, Fold, Upto, FolderIntact;
  }

  // ----- Directories that can never be used again -----

  /** What the directory itself shows when no session, fresh or resumed, can get to work in it. */
  predicate Stuck(plan: Plan, d: Disk) {
    if d.manifest.Some? then d.manifest.value.plan != plan || Committed(d) == {} || |Committed(d)| > PADDED_GENERATIONS
    else d.stray || d.jobs != map[] || d.folders != map[]
  }

  lemma StuckIff(plan: Plan, d: Disk)
    ensures Stuck(plan, d) <==> !CanStart(plan, d, false) && !CanStart(plan, d, true)
  {
    hide Committed;
    if Committed(d) != {} { assert |Committed(d)| >= 1; }
  }

  lemma NothingStarts(plan: Plan, d: Disk, resume: bool)
    ensures Stuck(plan, d) ==> !CanStart(plan, d, resume)
  {
    StuckIff(plan, d);
  }

  /** The two stops that leave such a directory behind a fresh session: after the manifest and before the marker of
      generation zero, and after the event log and before the manifest. Both satisfy the durable invariant. */
  lemma StuckDirectory(cfg: Config, plan: Plan, opt: Optimizer, f: Folder)
    requires ValidPlan(cfg, plan) && Aligned(plan) && f.marker.None?
    ensures CanStart(plan, EMPTY_DISK, false)
    ensures forall d :: d in {Registered(plan, opt, EMPTY_DISK), Registered(plan, opt, EMPTY_DISK).(folders := map[0 := f]),
                              EMPTY_DISK.(stray := true)} ==>
      && Stuck(plan, d)
      && Ordered(plan, d, [], [], 0) && Intact(cfg, plan, opt.initial, d, 0) && Refines(opt, plan, d, 0)
  {
    assert Upto(plan, 0) == [];
  }

  lemma DirectoryFacts(cfg: Config, plan: Plan, opt: Optimizer, deterministic: bool, store: Storage)
    requires Durable(cfg, plan, opt, deterministic, store)
    ensures |Committed(store.disk)| == store.committed && (Committed(store.disk) == {} <==> store.committed == 0)
    ensures store.disk.manifest.Some? ==> store.disk.manifest.value.plan == plan
    ensures store.disk.manifest.None? ==> store.disk.folders == map[] && store.disk.jobs == map[] && store.disk.summary.None?
  {
    hide Refines, Fold, FolderIntact, ReceiptIntact;
    MarkerCount(store.disk, store.committed);
    assert Upto(plan, 0) == [];
  }

  lemma PhysicsDistinct(cfg: Config, plan: Plan, opt: Optimizer, deterministic: bool, store: Storage)
    requires Durable(cfg, plan, opt, deterministic, store)
    ensures Distinct(store.physics)
    ensures forall s :: s in store.physics ==> s in store.disk.jobs
  {
    hide Refines, Fold, Upto;
  }

  /** Two complete runs with the same recorded results end with the same checkpoints, best generation and summary,
      whatever crashes, resumes and retirements either of them went through. */
  lemma FinishedRunsAgree(cfg: Config, plan: Plan, opt: Optimizer, a: Disk, b: Disk, k: nat)
    requires ValidPlan(cfg, plan) && Aligned(plan) && |plan| > 0
    requires Refines(opt, plan, a, |plan| + 1) && Refines(opt, plan, b, |plan| + 1)
    requires Agree(a.jobs, b.jobs, AllSlots(plan)) && k <= |plan|
    ensures k in a.folders && k in b.folders
    ensures a.folders[k].(policy := None) == b.folders[k].(policy := None)
    ensures a.folders[k].policy.Some? && b.folders[k].policy.Some? ==> a.folders[k] == b.folders[k]
    ensures a.summary.Some? && b.summary.Some? ==> a.summary == b.summary
    ensures a.receipt.Some? && b.receipt.Some? ==> a.receipt == b.receipt
  {
    hide ValidPlan, RetiredRows, Agree, Upto, Metric, Fold;
    assert FolderOk(opt, plan, a, k) && FolderOk(opt, plan, b, k);
    UptoAgree(plan, k, a.jobs, b.jobs);
    FoldFrame(opt, plan, k, a.jobs, b.jobs);
    FoldFrame(opt, plan, |plan|, a.jobs, b.jobs);
    RowsFrame(opt, plan, a.jobs, b.jobs, FinalReceipt(opt, plan, a.jobs).retained, |plan| + 1);
  }

  lemma UptoAgree(plan: Plan, k: nat, a: Jobs, b: Jobs)
    requires Aligned(plan) && k <= |plan| && Agree(a, b, AllSlots(plan))
    ensures Agree(a, b, Upto(plan, k))
  {
    hide Upto, Metric;
    UptoPrefix(plan, k, |plan|);
    forall s | s in Upto(plan, k) ensures Metric(a, s) == Metric(b, s) { assert s in AllSlots(plan); }
  }

  lemma {:induction false} RowsFrame(opt: Optimizer, plan: Plan, a: Jobs, b: Jobs, retained: set<nat>, m: nat)
    requires Aligned(plan) && m <= |plan| + 1 && Agree(a, b, AllSlots(plan))
    ensures RetiredRows(opt, plan, a, retained, m) == RetiredRows(opt, plan, b, retained, m)
  {
    hide Fold, Agree, Upto, Metric;
    if m > 0 {
      RowsFrame(opt, plan, a, b, retained, m - 1);
      UptoAgree(plan, m - 1, a, b);
      FoldFrame(opt, plan, m - 1, a, b);
    }
  }

  /** A directory never loses the tensors a completed run still needs, and a missing one is covered by the receipt,
      whatever the arithmetic did. */
  lemma RetentionSafe(cfg: Config, plan: Plan, opt: Optimizer, deterministic: bool, store: Storage, k: nat)
    requires Durable(cfg, plan, opt, deterministic, store) && k < store.committed
    ensures var d := store.disk;
      && HasMarker(d.folders, k)
      && (d.folders[k].policy == Some(d.folders[k].marker.value.policy)
          || (d.folders[k].policy.None? && RetirementExcuses(d, k, d.folders[k].marker.value)))
      && (k == store.committed - 1 ==> d.folders[k].policy.Some?)
      && (d.summary.Some? && k == d.summary.value.identity.bestGeneration ==> d.folders[k].policy.Some?)
  {
    hide ValidPlan, Fold, Upto, RetiredRows, Refines, InOrder;
    MarkerFields(cfg, plan, opt.initial, store.disk, store.committed, k);
    if k == store.committed - 1 || (store.disk.summary.Some? && k == store.disk.summary.value.identity.bestGeneration) {
      NeededTensorsStay(cfg, plan, opt.initial, store.disk, store.committed, k);
    }
  }
}
