/** Retirement of redundant tensors once a training condition is complete. */
module CheckpointRetention {
  import opened Wrappers
  import opened EsPlan
  import opened EsFold
  import opened EsStorage
  import opened EsIntegrity
  import opened EsDriver

  /** The per-generation part of the completion check: metadata intact and matching the marker. */
  predicate MetadataIntact(d: Disk, k: nat) {
    && HasMarker(d.folders, k)
    && var f := d.folders[k];
    && f.marker.value.generation == k
    && f.history == Some(f.marker.value.history) && f.state == Some(f.marker.value.state)
  }

  predicate WeightsPresent(d: Disk, k: nat)
    requires HasMarker(d.folders, k)
  {
    d.folders[k].policy == Some(d.folders[k].marker.value.policy)
  }

  /** A generation passes both checks exactly when its folder is one whole commit: a marker for this generation, and the
      three files it names with the digests it names. */
  lemma WholeCommit(d: Disk, k: nat)
    ensures (MetadataIntact(d, k) && WeightsPresent(d, k)) <==>
      exists m: Marker :: m.generation == k && k in d.folders
        && d.folders[k] == Folder(Some(m.policy), Some(m.history), Some(m.state), Some(m))
  {
    if MetadataIntact(d, k) && WeightsPresent(d, k) {
      var m := d.folders[k].marker.value;
      assert d.folders[k] == Folder(Some(m.policy), Some(m.history), Some(m.state), Some(m));
    }
  }

  /** Folder `k` once the retired generations below `bound` have lost their tensor. */
  ghost function Swept(d: Disk, k: nat, bound: nat): Folder
    requires d.receipt.Some? && k in d.folders
  {
    if k < bound && k in d.receipt.value.retired then d.folders[k].(policy := None) else d.folders[k]
  }

  /** `now` is `d` with the retired generations below `bound` swept. */
  ghost predicate SweptTo(d: Disk, now: Disk, bound: nat) {
    && d.receipt.Some? && now == d.(folders := now.folders) && now.folders.Keys == d.folders.Keys
    && forall k :: k in d.folders ==> now.folders[k] == Swept(d, k, bound)
  }

  lemma NothingSwept(d: Disk)
    requires d.receipt.Some?
    ensures SweptTo(d, d, 0)
  {
  }

  lemma SweepOne(d: Disk, now: Disk, k: nat)
    requires SweptTo(d, now, k) && k in now.folders && k in d.receipt.value.retired
    ensures SweptTo(d, now.(folders := now.folders[k := now.folders[k].(policy := None)]), k + 1)
  {
  }

  lemma SkipOne(d: Disk, now: Disk, k: nat)
    requires SweptTo(d, now, k) && (k in now.folders && k in d.receipt.value.retired ==> now.folders[k].policy.None?)
    ensures SweptTo(d, now, k + 1)
  {
  }

  lemma ReceiptStays(d: Disk, now: Disk, bound: nat)
    requires SweptTo(d, now, bound)
    ensures now == d.(folders := now.folders) && now.folders.Keys == d.folders.Keys
    ensures forall k :: k in now.folders ==> now.folders[k] == Swept(d, k, bound)
  {
  }

  /** The end state of a retirement: only the receipt's generations have lost their tensor. */
  ghost function Retired(d: Disk): Disk
    requires d.receipt.Some?
  {
    d.(folders := map k | k in d.folders ::
         if k in d.receipt.value.retired then d.folders[k].(policy := None) else d.folders[k])
  }

  class RetentionTool {
    const cfg: Config
    const plan: Plan
    const opt: Optimizer
    const deterministic: bool
    const store: Storage

    constructor (cfg: Config, plan: Plan, opt: Optimizer, deterministic: bool, store: Storage)
      requires Durable(cfg, plan, opt, deterministic, store)
      ensures this.cfg == cfg && this.plan == plan && this.opt == opt
      ensures this.deterministic == deterministic && this.store == store
      ensures Valid()
    {
      this.cfg, this.plan, this.opt, this.deterministic, this.store := cfg, plan, opt, deterministic, store;
    }

    ghost predicate Valid()
      reads store
    {
      Durable(cfg, plan, opt, deterministic, store)
    }

    /** The completion check that opens every call. */
    method ValidatedCompletion() returns (r: Outcome<Identity, Halt>)
      requires Valid()
      ensures r.Returned? ==>
        && store.disk.summary.Some? && r.value == store.disk.summary.value.identity && store.committed == |plan| + 1
        && 1 <= r.value.bestGeneration <= |plan|
        && (forall k :: 0 <= k <= |plan| ==> MetadataIntact(store.disk, k))
        && WeightsPresent(store.disk, |plan|) && WeightsPresent(store.disk, r.value.bestGeneration)
      ensures r.Raised? ==> r.error.CannotStart? || r.error.CallbackRefused?
      ensures r.Raised? && r.error.CannotStart? <==> store.disk.summary.None?
    {
      hide Durable, AllSlots;
      var d := store.disk;
      if d.summary.Some? { CompletedFacts(); }
      if d.summary.None? || d.manifest.None? { return Raised(CannotStart); }
      var identity, end := d.summary.value.identity, |d.manifest.value.plan|;
      if identity.completedGenerations != end || identity.requiredGenerations != end || d.manifest.value.plan != plan
         || identity.completedEvaluations != identity.expectedEvaluations
         || !(1 <= identity.bestGeneration <= end) {
        return Raised(CannotStart);
      }
      :- CallbackAgrees();
      for k := 0 to end + 1
        invariant forall j :: 0 <= j < k ==> MetadataIntact(d, j)
      {
        if !MetadataIntact(d, k) { return Raised(CorruptCheckpoint); }
      }
      assert MetadataIntact(d, end) && MetadataIntact(d, identity.bestGeneration);
      if d.folders[identity.bestGeneration].marker.value.weights != identity.bestWeights
         || d.folders[end].marker.value.weights != identity.finalWeights
         || !WeightsPresent(d, identity.bestGeneration) || !WeightsPresent(d, end) {
        return Raised(CorruptCheckpoint);
      }
      return Returned(identity);
    }

    /** What a run summary on disk implies. */
    lemma CompletedFacts()
      requires Valid() && store.disk.summary.Some?
      ensures store.committed == |plan| + 1 && store.disk.manifest == Some(Manifest(plan, opt.initial))
      ensures var identity := store.disk.summary.value.identity;
        && identity.completedGenerations == identity.requiredGenerations == |plan|
        && identity.completedEvaluations == identity.expectedEvaluations
        && 1 <= identity.bestGeneration <= |plan|
        && WeightsKept(|plan|, identity.finalWeights) && WeightsKept(identity.bestGeneration, identity.bestWeights)
      ensures forall k :: 0 <= k <= |plan| ==> MetadataIntact(store.disk, k)
    {
      hide Fold, Upto, InOrder, Refines, Accepted, AllRequests;
      var d, end := store.disk, |plan|;
      MarkerFields(cfg, plan, opt.initial, d, end + 1, end);
      var m := d.folders[end].marker.value;
      CompletedLength(cfg, plan, opt.initial, end, m);
      AcceptedBest(cfg, plan, m.state.completed, m.history, m.state.best);
      var best := m.state.best.value.generation;
      RecordedWeightsArePinned(cfg, plan, opt.initial, d, end + 1, best, end);
      NeededTensorsStay(cfg, plan, opt.initial, d, end + 1, best);
      NeededTensorsStay(cfg, plan, opt.initial, d, end + 1, end);
      forall k | 0 <= k <= end ensures MetadataIntact(d, k) {
        MarkerFields(cfg, plan, opt.initial, d, end + 1, k);
      }
    }

    /** The tensor of generation `k` is present, checksum-correct, and has these weights. */
    ghost predicate WeightsKept(k: nat, weights: Weights)
      reads store
    {
      && HasMarker(store.disk.folders, k) && WeightsPresent(store.disk, k)
      && store.disk.folders[k].marker.value.weights == weights
    }

    /** The rows of a new receipt: every tensor about to go must be present and match its marker. */
    method BuildRows(retained: set<nat>) returns (r: Outcome<map<nat, RetiredRow>, Halt>)
      requires Valid() && store.committed == |plan| + 1 && store.disk.receipt.None?
      ensures r.Returned? && RowsOf(retained, r.value, |plan| + 1)
      ensures deterministic ==> r.value == RetiredRows(opt, plan, store.disk.jobs, retained, |plan| + 1)
    {
      hide Fold, Upto, InOrder, Refines, MarkerIntact, Extends;
      var d := store.disk;
      var rows: map<nat, RetiredRow> := map[];
      for k := 0 to |plan| + 1
        invariant RowsOf(retained, rows, k)
        invariant deterministic ==> rows == RetiredRows(opt, plan, d.jobs, retained, k)
      {
        MarkerFields(cfg, plan, opt.initial, d, |plan| + 1, k);
        if deterministic { RefinedFolderReadable(opt, plan, d, |plan| + 1, k); }
        if k !in retained {
          if !WeightsPresent(d, k) { return Raised(CorruptCheckpoint); }
          var marker := d.folders[k].marker.value;
          rows := rows[k := RetiredRow(marker.policy, marker.weights, marker)];
        }
      }
      return Returned(rows);
    }

    /** The rows of the first `m` generations repeat their markers. */
    ghost predicate RowsOf(retained: set<nat>, rows: map<nat, RetiredRow>, m: nat)
      reads store
    {
      && (forall k: nat :: k in rows <==> k < m && k !in retained)
      && forall k :: k in rows ==>
           && HasMarker(store.disk.folders, k)
           && var marker := store.disk.folders[k].marker.value; rows[k] == RetiredRow(marker.policy, marker.weights, marker)
    }

    /** Durable authorization, before any deletion. */
    method CommitReceipt(receipt: Receipt)
      requires Valid() && store.disk.receipt.None? && ReceiptIntact(plan, store.disk.(receipt := Some(receipt)))
      requires deterministic ==> receipt == FinalReceipt(opt, plan, store.disk.jobs)
      modifies store`disk
      ensures Valid() && store.disk == old(store.disk).(receipt := Some(receipt))
    {
      hide Fold, Upto, InOrder, RetiredRows, Intact, ReceiptIntact, FinalReceipt;
      var d := store.disk.(receipt := Some(receipt));
      IntactReceipt(cfg, plan, opt.initial, store.disk, store.committed, receipt);
      assert d.summary.Some? by { SummaryBefore(d); }
      if deterministic {
        forall k | 0 <= k < store.committed ensures FolderOk(opt, plan, d, k) {
          assert FolderOk(opt, plan, store.disk, k);
        }
      }
      store.disk := d;
    }

    lemma SummaryBefore(d: Disk)
      requires d.receipt.Some? && ReceiptIntact(plan, d)
      ensures d.summary.Some?
    {
    }

    /** Removes one tensor the receipt covers. */
    method Unlink(k: nat)
      requires Valid() && HasMarker(store.disk.folders, k) && store.disk.receipt.Some? && k in store.disk.receipt.value.retired
      modifies store`disk
      ensures Valid()
      ensures store.disk == old(store.disk).(folders := old(store.disk.folders)[k := old(store.disk.folders)[k].(policy := None)])
    {
      hide Fold, Upto, InOrder, RetiredRows, Intact;
      IntactUnlink(cfg, plan, opt.initial, store.disk, store.committed, k);
      var folders := store.disk.folders[k := store.disk.folders[k].(policy := None)];
      var d := store.disk.(folders := folders);
      forall j: nat ensures HasMarker(folders, j) <==> j < store.committed {
        assert HasMarker(store.disk.folders, j) <==> j < store.committed;
      }
      if deterministic {
        forall j | 0 <= j < store.committed ensures FolderOk(opt, plan, d, j) {
          assert FolderOk(opt, plan, store.disk, j);
        }
      }
      store.disk := d;
    }

    /** What a receipt on disk implies about its rows and about any folder. */
    lemma ReceiptFacts(k: nat)
      requires Valid() && store.disk.receipt.Some? && k <= |plan|
      ensures store.committed == |plan| + 1 && MetadataIntact(store.disk, k) && store.disk.summary.Some?
      ensures var receipt := store.disk.receipt.value;
        && receipt.identity == store.disk.summary.value.identity
        && receipt.retained == {receipt.identity.bestGeneration, |plan|}
        && (k in receipt.retired <==> k !in receipt.retained)
        && (k !in receipt.retained ==> RetirementExcuses(store.disk, k, store.disk.folders[k].marker.value))
        && (k in receipt.retired && store.disk.folders[k].policy.Some? ==>
              store.disk.folders[k].policy.value == receipt.retired[k].policy)
    {
      hide Fold, Upto, InOrder, Refines, MarkerIntact, Extends, IdentityOf;
      MarkerFields(cfg, plan, opt.initial, store.disk, |plan| + 1, k);
      if k in store.disk.receipt.value.retired { assert RowIntact(store.disk, k); }
    }

    /** Finishes whatever the receipt declares. */
    method RemoveRetired() returns (r: Outcome<(), Halt>)
      requires Valid() && store.disk.receipt.Some?
      modifies store`disk
      ensures Valid() && store.disk == old(store.disk).(folders := store.disk.folders)
      ensures r.Raised? ==> r.error.ProcessStop?
      ensures store.disk.folders.Keys == old(store.disk.folders).Keys
      ensures r.Returned? ==>
        forall k :: k in store.disk.folders ==> store.disk.folders[k] == Swept(old(store.disk), k, |plan| + 1)
    {
      hide Durable, SweptTo;
      ghost var d := store.disk;
      NothingSwept(d);
      for k := 0 to |plan| + 1
        invariant Valid() && SweptTo(d, store.disk, k)
      {
        ReceiptStays(d, store.disk, k);
        ReceiptFacts(k);
        if k in store.disk.receipt.value.retired && store.disk.folders[k].policy.Some? {
          if store.disk.folders[k].policy.value != store.disk.receipt.value.retired[k].policy {
            return Raised(CorruptCheckpoint);
          }
          SweepOne(d, store.disk, k);
          Unlink(k);
          ReceiptStays(d, store.disk, k + 1);
          :- MayStop();
        } else {
          SkipOne(d, store.disk, k);
        }
      }
      ReceiptStays(d, store.disk, |plan| + 1);
      return Returned(());
    }

    /** The receipt this call acts under: an earlier one, checked again, or a new one, durable before any deletion. */
    method Authorize(identity: Identity) returns (r: Outcome<set<nat>, Halt>)
      requires Valid() && store.disk.summary.Some? && identity == store.disk.summary.value.identity
      modifies store`disk
      ensures Valid() && store.disk == old(store.disk).(receipt := store.disk.receipt) && store.disk.receipt.Some?
      ensures old(store.disk.receipt).Some? ==> store.disk.receipt == old(store.disk.receipt)
      ensures r.Returned? ==> r.value == {identity.bestGeneration, |plan|}
      ensures r.Raised? ==> r.error.ProcessStop?
    {
      hide Durable, RetiredRows, IdentityOf, FinalIdentity;
      CompletedFacts();
      var retained := {identity.bestGeneration, |plan|};
      if store.disk.receipt.Some? {
        ReceiptFacts(0);
        if store.disk.receipt.value.identity != identity { return Raised(CorruptCheckpoint); }
        for k := 0 to |plan| + 1
          invariant store.disk == old(store.disk) && Valid()
        {
          ReceiptFacts(k);
          if k !in retained && !RetirementExcuses(store.disk, k, store.disk.folders[k].marker.value) {
            return Raised(CorruptCheckpoint);
          }
        }
      } else {
        var rows := BuildRows(retained);
        if rows.Raised? { return Raised(CorruptCheckpoint); }
        NewReceipt(identity, rows.value);
        CommitReceipt(Receipt(identity, retained, rows.value));
        :- MayStop();
      }
      return Returned(retained);
    }

    lemma NewReceipt(identity: Identity, rows: map<nat, RetiredRow>)
      requires Valid() && store.disk.receipt.None? && store.disk.summary.Some? && identity == store.disk.summary.value.identity
      requires RowsOf({identity.bestGeneration, |plan|}, rows, |plan| + 1)
      requires deterministic ==>
        rows == RetiredRows(opt, plan, store.disk.jobs, {identity.bestGeneration, |plan|}, |plan| + 1)
      ensures var receipt := Receipt(identity, {identity.bestGeneration, |plan|}, rows);
        && ReceiptIntact(plan, store.disk.(receipt := Some(receipt)))
        && (deterministic ==> receipt == FinalReceipt(opt, plan, store.disk.jobs))
    {
      hide Fold, Upto, InOrder, RetiredRows, Intact, IdentityOf;
      var d := store.disk.(receipt := Some(Receipt(identity, {identity.bestGeneration, |plan|}, rows)));
      forall k | k in rows ensures RowIntact(d, k) {}
    }

    /** Commits a receipt, then removes only the tensors it names; a later call finishes an interrupted one. It fails only
        for an unfinished run, a refused check or a stop. */
    method Retire() returns (r: Outcome<set<nat>, Halt>)
      requires Valid()
      modifies store`disk
      ensures Valid()
      ensures store.disk == old(store.disk).(receipt := store.disk.receipt, folders := store.disk.folders)
      ensures old(store.disk.receipt).Some? ==> store.disk.receipt == old(store.disk.receipt)
      ensures r.Raised? ==> r.error.ProcessStop? || r.error.CallbackRefused? || r.error.CannotStart?
      ensures r.Raised? && r.error.CannotStart? <==> old(store.disk.summary).None?
      ensures r.Returned? ==>
        && store.disk.receipt.Some? && r.value == store.disk.receipt.value.retained
        && store.disk == Retired(old(store.disk).(receipt := store.disk.receipt))
      ensures r.Returned? && deterministic ==> store.disk.receipt == Some(FinalReceipt(opt, plan, store.disk.jobs))
    {
      hide Durable, AllSlots, RetiredRows, FinalReceipt;
      var identity :- ValidatedCompletion();
      var retained :- Authorize(identity);
      ghost var d := store.disk;
      var removed := RemoveRetired();
      if removed.Raised? { return Raised(removed.error); }
      ReceiptFacts(0);
      ReceiptKeys();
      assert store.disk.folders == Retired(d).folders;
      return Returned(retained);
    }

    lemma ReceiptKeys()
      requires Valid() && store.disk.receipt.Some?
      ensures forall k :: k in store.disk.receipt.value.retired ==> k <= |plan|
      ensures deterministic ==> store.disk.receipt == Some(FinalReceipt(opt, plan, store.disk.jobs))
    {
      hide Fold, Upto, InOrder, RetiredRows, FinalReceipt;
    }
  }
}
