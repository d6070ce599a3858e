/** What the committed files say about each other, whatever the tensor arithmetic did: each marker pins its own files,
    each generation extends the one before it, and the receipt repeats the markers. */
module EsIntegrity {
  import opened Wrappers
  import opened EsPlan
  import opened EsFold
  import opened EsStorage

  /** A marker and the files it pins describe one acceptable state after `k` generations. */
  ghost predicate MarkerIntact(cfg: Config, plan: Plan, initial: Weights, k: nat, m: Marker)
    requires Aligned(plan)
  {
    && k <= |plan|
    && m == CompleteMarker(k, initial, State(m.weights, m.history, m.state.completed, m.state.best))
    && |m.history| == k
    && Accepted(cfg, plan, m.state.completed, m.history, m.state.best)
    && AllRequests(m.state.completed) == Upto(plan, k)
  }

  /** Generation `k` is generation `k - 1` and one record, which ends with its weights. */
  ghost predicate Extends(before: Marker, m: Marker) {
    && m.state.completed != []
    && before.state.completed == m.state.completed[..|m.state.completed| - 1]
    && m.state.completed[|m.state.completed| - 1].after == m.weights
  }

  ghost predicate FolderIntact(cfg: Config, plan: Plan, initial: Weights, d: Disk, k: nat)
    requires Aligned(plan)
  {
    && FolderReadable(d, k)
    && MarkerIntact(cfg, plan, initial, k, d.folders[k].marker.value)
    && (k > 0 ==> HasMarker(d.folders, k - 1) && Extends(d.folders[k - 1].marker.value, d.folders[k].marker.value))
  }

  /** The summary a finished run has: all from its last marker. */
  ghost function IdentityOf(plan: Plan, m: Marker): Identity
    requires Aligned(plan)
  {
    var best := if m.state.best.Some? then m.state.best.value.generation else 0;
    Identity(|plan|, |plan|, |AllSlots(plan)|, |AllSlots(plan)|, best,
             if 1 <= best <= |m.state.completed| then m.state.completed[best - 1].after else m.weights, m.weights)
  }

  ghost predicate SummaryIntact(plan: Plan, d: Disk, n: nat)
    requires Aligned(plan)
  {
    d.summary.Some? ==>
      && n == |plan| + 1 && d.manifest.Some? && HasMarker(d.folders, |plan|)
      && d.summary.value.identity == IdentityOf(plan, d.folders[|plan|].marker.value)
  }

  ghost predicate RowIntact(d: Disk, k: nat)
    requires d.receipt.Some? && k in d.receipt.value.retired
  {
    && HasMarker(d.folders, k)
    && var marker := d.folders[k].marker.value;
    d.receipt.value.retired[k] == RetiredRow(marker.policy, marker.weights, marker)
  }

  ghost predicate ReceiptIntact(plan: Plan, d: Disk) {
    d.receipt.Some? ==>
      && d.summary.Some? && d.receipt.value.identity == d.summary.value.identity
      && d.receipt.value.retained == {d.summary.value.identity.bestGeneration, |plan|}
      && (forall k: nat :: k in d.receipt.value.retired <==> k <= |plan| && k !in d.receipt.value.retained)
      && (forall k :: k in d.receipt.value.retired ==> RowIntact(d, k))
  }

  /** The integrity of a training directory with `n` committed generations. */
  ghost predicate Intact(cfg: Config, plan: Plan, initial: Weights, d: Disk, n: nat)
    requires Aligned(plan)
  {
    && (d.manifest.Some? ==> d.manifest.value == Manifest(plan, initial))
    && (forall k :: 0 <= k < n ==> FolderIntact(cfg, plan, initial, d, k))
    && SummaryIntact(plan, d, n) && ReceiptIntact(plan, d)
  }

  /** The whole durable invariant; only the refinement half needs deterministic arithmetic. */
  ghost predicate Durable(cfg: Config, plan: Plan, opt: Optimizer, deterministic: bool, store: Storage)
    reads store
  {
    && ValidPlan(cfg, plan) && Aligned(plan) && |plan| > 0
    && Ordered(plan, store.disk, store.recorded, store.physics, store.committed)
    && Intact(cfg, plan, opt.initial, store.disk, store.committed)
    && (deterministic ==> Refines(opt, plan, store.disk, store.committed))
  }

  // ----- What it implies for a reader -----

  lemma MarkerFields(cfg: Config, plan: Plan, initial: Weights, d: Disk, n: nat, k: nat)
    requires Aligned(plan) && Intact(cfg, plan, initial, d, n) && k < n
    ensures FolderReadable(d, k) && MarkerIntact(cfg, plan, initial, k, d.folders[k].marker.value)
  {
    assert FolderIntact(cfg, plan, initial, d, k);
  }

  /** The newest committed generation never loses its tensor, and neither does the best one of a finished run. */
  lemma NeededTensorsStay(cfg: Config, plan: Plan, initial: Weights, d: Disk, n: nat, k: nat)
    requires Aligned(plan) && Intact(cfg, plan, initial, d, n) && k < n
    requires k == n - 1 || (d.summary.Some? && k == d.summary.value.identity.bestGeneration)
    ensures HasMarker(d.folders, k) && d.folders[k].policy == Some(d.folders[k].marker.value.policy)
  {
    MarkerFields(cfg, plan, initial, d, n, k);
  }

  /** Every accepted complete schedule has a best generation, because its last generation ran the development cases. */
  lemma AcceptedBest(cfg: Config, plan: Plan, completed: seq<GenerationRecord>, history: seq<EsStep>, best: Option<Best>)
    requires ValidPlan(cfg, plan) && |completed| == |plan| && Accepted(cfg, plan, completed, history, best)
    ensures best.Some? && 1 <= best.value.generation <= |plan|
  {
    assert ValidEntry(cfg, plan[|plan| - 1], |plan| - 1);
    assert RecordOk(cfg, plan, |plan| - 1, completed[|plan| - 1], history[|plan| - 1]);
    forall i | 0 <= i < |completed| ensures completed[i].generation == i + 1 {
      assert RecordOk(cfg, plan, i, completed[i], history[i]);
    }
    BestIsEarliestMaximum(completed);
  }

  /** The record of generation `k` ends with the weights its own marker pins. */
  lemma {:induction false} RecordedWeightsArePinned(cfg: Config, plan: Plan, initial: Weights, d: Disk, n: nat, k: nat, m: nat)
    requires Aligned(plan) && Intact(cfg, plan, initial, d, n) && 1 <= k <= m < n
    ensures HasMarker(d.folders, k) && HasMarker(d.folders, m)
    ensures |d.folders[m].marker.value.state.completed| == m
    ensures d.folders[m].marker.value.state.completed[k - 1].after == d.folders[k].marker.value.weights
    decreases m
  {
    hide Accepted, AllRequests, Upto;
    assert FolderIntact(cfg, plan, initial, d, m) && FolderIntact(cfg, plan, initial, d, m - 1);
    CompletedLength(cfg, plan, initial, m, d.folders[m].marker.value);
    if k < m { RecordedWeightsArePinned(cfg, plan, initial, d, n, k, m - 1); }
  }

  lemma CompletedLength(cfg: Config, plan: Plan, initial: Weights, k: nat, m: Marker)
    requires Aligned(plan) && MarkerIntact(cfg, plan, initial, k, m)
    ensures |m.state.completed| == k
  {
  }

  // ----- Every durable write keeps it -----

  /** A write beside folders, summary and receipt. */
  lemma IntactBeside(cfg: Config, plan: Plan, initial: Weights, d: Disk, d': Disk, n: nat)
    requires Aligned(plan) && Intact(cfg, plan, initial, d, n)
    requires d'.folders == d.folders && d'.summary == d.summary && d'.receipt == d.receipt
    requires d'.manifest == d.manifest || d'.manifest == Some(Manifest(plan, initial))
    ensures Intact(cfg, plan, initial, d', n)
  {
    hide MarkerIntact, Extends;
    forall k | 0 <= k < n ensures FolderIntact(cfg, plan, initial, d', k) {
      assert FolderIntact(cfg, plan, initial, d, k);
    }
    if d'.receipt.Some? {
      forall k | k in d'.receipt.value.retired ensures RowIntact(d', k) { assert RowIntact(d, k); }
    }
  }

  /** A file of a folder that is not committed. */
  lemma IntactUncommitted(cfg: Config, plan: Plan, initial: Weights, d: Disk, n: nat, f: Folder)
    requires Aligned(plan) && n <= |plan| && Intact(cfg, plan, initial, d, n)
    ensures Intact(cfg, plan, initial, d.(folders := d.folders[n := f]), n)
  {
    hide MarkerIntact, Extends;
    var d' := d.(folders := d.folders[n := f]);
    forall k | 0 <= k < n ensures FolderIntact(cfg, plan, initial, d', k) {
      assert FolderIntact(cfg, plan, initial, d, k);
    }
  }

  /** One trained generation turns an acceptable state into the next one. */
  lemma AdvanceIntact(cfg: Config, plan: Plan, initial: Weights, k: nat, st: State, metrics: seq<seq<real>>, after: Weights,
                      dev: seq<real>, requests: seq<Slot>)
    requires ValidPlan(cfg, plan) && Aligned(plan) && k < |plan|
    requires MarkerIntact(cfg, plan, initial, k, CompleteMarker(k, initial, st))
    requires |dev| == |DevSlots(plan[k])| && requests == GenerationSlots(plan[k])
    ensures var next := CompleteMarker(k + 1, initial, Advance(plan[k], st, metrics, after, dev, requests));
      MarkerIntact(cfg, plan, initial, k + 1, next) && Extends(CompleteMarker(k, initial, st), next)
  {
    hide GenerationSlots, TrainSlots, Accepted, Fitness, Mean, Better;
    UptoStep(cfg, plan, k);
    CompletedLength(cfg, plan, initial, k, CompleteMarker(k, initial, st));
    AdvanceAccepted(cfg, plan, k, st, metrics, after, dev, requests);
    var next := Advance(plan[k], st, metrics, after, dev, requests);
    assert next.completed[..k] == st.completed;
  }

  /** Before the first generation there is nothing to check. */
  lemma StartIntact(cfg: Config, plan: Plan, initial: Weights)
    requires Aligned(plan)
    ensures MarkerIntact(cfg, plan, initial, 0, CompleteMarker(0, initial, State(initial, [], [], None)))
  {
  }

  /** The marker of the next generation. */
  lemma IntactMarker(cfg: Config, plan: Plan, initial: Weights, d: Disk, n: nat, st: State)
    requires Aligned(plan) && n <= |plan| && Intact(cfg, plan, initial, d, n)
    requires MarkerIntact(cfg, plan, initial, n, CompleteMarker(n, initial, st))
    requires n > 0 ==> HasMarker(d.folders, n - 1) && Extends(d.folders[n - 1].marker.value, CompleteMarker(n, initial, st))
    ensures Intact(cfg, plan, initial, d.(folders := d.folders[n := FolderOf(n, initial, st)]), n + 1)
  {
    var f := FolderOf(n, initial, st);
    IntactUncommitted(cfg, plan, initial, d, n, f);
    var d' := d.(folders := d.folders[n := f]);
    hide MarkerIntact, Extends;
    assert d'.folders[n].marker.value == CompleteMarker(n, initial, st);
    assert FolderIntact(cfg, plan, initial, d', n);
  }

  lemma IntactSummary(cfg: Config, plan: Plan, initial: Weights, d: Disk, n: nat, summary: Summary)
    requires Aligned(plan) && n == |plan| + 1 && d.manifest.Some? && Intact(cfg, plan, initial, d, n)
    requires HasMarker(d.folders, |plan|) && summary.identity == IdentityOf(plan, d.folders[|plan|].marker.value)
    ensures Intact(cfg, plan, initial, d.(summary := Some(summary)), n)
  {
    hide MarkerIntact, Extends, IdentityOf;
    var d' := d.(summary := Some(summary));
    forall k | 0 <= k < n ensures FolderIntact(cfg, plan, initial, d', k) {
      assert FolderIntact(cfg, plan, initial, d, k);
    }
    if d'.receipt.Some? {
      forall k | k in d'.receipt.value.retired ensures RowIntact(d', k) { assert RowIntact(d, k); }
    }
  }

  lemma IntactReceipt(cfg: Config, plan: Plan, initial: Weights, d: Disk, n: nat, receipt: Receipt)
    requires Aligned(plan) && d.receipt.None? && Intact(cfg, plan, initial, d, n)
    requires ReceiptIntact(plan, d.(receipt := Some(receipt)))
    ensures Intact(cfg, plan, initial, d.(receipt := Some(receipt)), n)
  {
    hide MarkerIntact, Extends, ReceiptIntact;
    var d' := d.(receipt := Some(receipt));
    forall k | 0 <= k < n ensures FolderIntact(cfg, plan, initial, d', k) {
      assert FolderIntact(cfg, plan, initial, d, k);
    }
  }

  /** A retired tensor goes. */
  lemma IntactUnlink(cfg: Config, plan: Plan, initial: Weights, d: Disk, n: nat, k: nat)
    requires Aligned(plan) && Intact(cfg, plan, initial, d, n) && HasMarker(d.folders, k)
    requires d.receipt.Some? && k in d.receipt.value.retired
    ensures Intact(cfg, plan, initial, d.(folders := d.folders[k := d.folders[k].(policy := None)]), n)
  {
    hide MarkerIntact, Extends, IdentityOf;
    var d' := d.(folders := d.folders[k := d.folders[k].(policy := None)]);
    assert RowIntact(d, k);
    forall j | 0 <= j < n ensures FolderIntact(cfg, plan, initial, d', j) {
      assert FolderIntact(cfg, plan, initial, d, j);
    }
    forall j | j in d'.receipt.value.retired ensures RowIntact(d', j) { assert RowIntact(d, j); }
  }
}
