/** The single-attempt ledger of the final evaluation and the runner that restarts around it. Contents stand for digests. */
module CoreFinal {
  import opened Wrappers

  type JobId = string
  type AttemptId(==, 0, !new)
  type Contents(==, 0, !new)

  datatype State = Pending | Running | Succeeded | Failed | Orphaned

  datatype Result = Result(attempt: AttemptId, digest: Contents)

  datatype Entry = Entry(state: State, attempts: nat, attempt: Option<AttemptId>, result: Option<Result>)

  datatype EventKind = Claimed | Orphaning | Finished | Reconciled | Halted(closed: bool)
  datatype Event = Event(sequence: nat, job: JobId, kind: EventKind)

  datatype Data = Data(jobs: map<JobId, Entry>, events: seq<Event>)

  datatype CoreError =
    | Interrupted | NotPending | UnexpectedFinish | ResultChanged | UnexpectedHalt | InvalidLedger | ForeignOutput
    | FailedJob(job: JobId) | UnknownOutcome(job: JobId) | Unverified(job: JobId) | RolloutFailed(job: JobId) | Incomplete

  // ----- What every stored ledger satisfies -----

  function Claims(events: seq<Event>, job: JobId): nat {
    if events == [] then 0
    else
      var e := events[|events| - 1];
      Claims(events[..|events| - 1], job) + if e.kind.Claimed? && e.job == job then 1 else 0
  }

  ghost predicate EntryOk(job: JobId, e: Entry, events: seq<Event>) {
    && e.attempts == Claims(events, job) <= 1
    && (e.state == Pending <==> e.attempts == 0)
    && (e.state == Succeeded ==> e.result.Some?)
  }

  ghost predicate EventsOk(d: Data) {
    forall i :: 0 <= i < |d.events| ==> d.events[i].sequence == i && d.events[i].job in d.jobs
  }

  /** The ledger's own validation. */
  ghost predicate Valid(d: Data, jobs: set<JobId>) {
    d.jobs.Keys == jobs && EventsOk(d) && forall job :: job in d.jobs ==> EntryOk(job, d.jobs[job], d.events)
  }

  function InitialData(jobs: seq<JobId>): Data { Data(map j | j in jobs :: Entry(Pending, 0, None, None), []) }

  function Recorded(d: Data, job: JobId, e: Entry, kind: EventKind): Data {
    Data(d.jobs[job := e], d.events + [Event(|d.events|, job, kind)])
  }

  /** A job's record only moves forward: no path leads back to pending, and finished records stay. */
  ghost predicate Forward(before: Data, after: Data) {
    forall job :: job in before.jobs && before.jobs[job].state != Pending ==>
      && job in after.jobs && after.jobs[job].state != Pending
      && after.jobs[job].attempt == before.jobs[job].attempt
      && (before.jobs[job].state == Succeeded || before.jobs[job].state == Failed ==> after.jobs[job] == before.jobs[job])
  }

  lemma ClaimsAppend(events: seq<Event>, e: Event, job: JobId)
    ensures Claims(events + [e], job) == Claims(events, job) + if e.kind.Claimed? && e.job == job then 1 else 0
  {
    assert (events + [e])[..|events|] == events;
  }

  /** One recorded transition keeps the ledger valid when it claims a pending job, or claims nothing. */
  lemma RecordedIsValid(d: Data, jobs: set<JobId>, job: JobId, e: Entry, kind: EventKind)
    requires Valid(d, jobs) && job in d.jobs
    requires e.attempts == d.jobs[job].attempts + if kind.Claimed? then 1 else 0
    requires kind.Claimed? ==> d.jobs[job].state == Pending
    requires e.state == Pending <==> e.attempts == 0
    requires e.state == Succeeded ==> e.result.Some?
    ensures Valid(Recorded(d, job, e, kind), jobs)
  {
    hide Claims;
    var after := Recorded(d, job, e, kind);
    forall other | other in after.jobs ensures EntryOk(other, after.jobs[other], after.events) {
      ClaimsAppend(d.events, Event(|d.events|, job, kind), other);
      assert EntryOk(other, d.jobs[other], d.events);
    }
    forall i | 0 <= i < |after.events| ensures after.events[i].sequence == i && after.events[i].job in after.jobs {
      if i < |d.events| { assert after.events[i] == d.events[i]; }
    }
  }

  // ----- Durable state -----

  type Place = (JobId, AttemptId)

  /** What physical work has left behind: the rollouts started so far, over all processes, job directories, the attempt
      directories inside them, and the complete envelopes inside those. */
  datatype Traces = Traces(rollouts: seq<JobId>, homes: set<JobId>, folders: set<Place>, envelopes: map<Place, Contents>)

  class Store {
    var ledger: Option<Data>
    var homes: set<JobId>
    var folders: set<Place>
    var envelopes: map<Place, Contents>
    ghost var rollouts: seq<JobId>

    constructor ()
      ensures ledger.None? && homes == {} && folders == {} && envelopes == map[] && rollouts == []
    {
      ledger, homes, folders, envelopes, rollouts := None, {}, {}, map[], [];
    }

    ghost function Left(): Traces
      reads this
    {
      Traces(rollouts, homes, folders, envelopes)
    }
  }

  /** Every started rollout was claimed before, every directory belongs to a claimed job and its one attempt, and every
      success has its envelope. */
  ghost predicate Tracked(t: Traces, d: Data) {
    && Distinct(t.rollouts)
    && (forall job :: job in t.rollouts ==> job in d.jobs && d.jobs[job].state != Pending)
    && (forall job :: job in t.homes ==> job in d.jobs && d.jobs[job].state != Pending && d.jobs[job].attempt.Some?)
    && (forall f :: f in t.folders ==> f.0 in t.homes && f.0 in d.jobs && d.jobs[f.0].attempt == Some(f.1))
    && t.envelopes.Keys <= t.folders
    && (forall key :: key in t.envelopes ==> key.0 in t.rollouts)
    && (forall job :: job in d.jobs && d.jobs[job].state == Succeeded ==> Committed(job, d.jobs[job], t.envelopes))
  }

  ghost predicate Committed(job: JobId, e: Entry, envelopes: map<Place, Contents>) {
    && e.attempt.Some? && (job, e.attempt.value) in envelopes
    && e.result == Some(Result(e.attempt.value, envelopes[(job, e.attempt.value)]))
  }

  /** A job leaves the running or orphaned state: nothing is lost, and nothing becomes claimable. */
  lemma MoveIsTracked(t: Traces, d: Data, job: JobId,
                      e: Entry, kind: EventKind)
    requires Tracked(t, d) && job in d.jobs
    requires d.jobs[job].state == Running || d.jobs[job].state == Orphaned
    requires e.attempt == d.jobs[job].attempt && e.state != Pending
    requires e.state == Succeeded ==> Committed(job, e, t.envelopes)
    ensures Tracked(t, Recorded(d, job, e, kind)) && Forward(d, Recorded(d, job, e, kind))
  {
    hide Committed, Distinct;
  }

  lemma ForwardSelf(d: Data)
    ensures Forward(d, d)
  {
  }

  lemma ForwardOn(a: Data, b: Data, c: Data)
    requires Forward(a, b) && Forward(b, c)
    ensures Forward(a, c)
  {
  }

  /** A claim starts the one attempt of a job that has left no trace yet. */
  lemma ClaimIsTracked(t: Traces, d: Data, job: JobId, e: Entry)
    requires Tracked(t, d) && job in d.jobs && d.jobs[job].state == Pending && e.state == Running
    ensures Tracked(t, Recorded(d, job, e, Claimed)) && Forward(d, Recorded(d, job, e, Claimed))
    ensures job !in t.rollouts
  {
    hide Committed, Distinct;
  }

  ghost predicate StoreOk(s: Store, jobs: set<JobId>)
    reads s
  {
    if s.ledger.None? then s.homes == {} && s.folders == {} && s.envelopes == map[] && s.rollouts == []
    else Valid(s.ledger.value, jobs) && Tracked(s.Left(), s.ledger.value)
  }

  lemma NoTrace(t: Traces, d: Data, job: JobId, attempt: AttemptId)
    requires Tracked(t, d) && job in d.jobs && d.jobs[job].state == Pending
    ensures job !in t.rollouts && job !in t.homes && (job, attempt) !in t.folders
  {
  }

  // ----- One attempt, said of the log -----

  lemma {:induction false} ClaimedAt(events: seq<Event>, i: nat, job: JobId)
    requires i < |events| && events[i].kind.Claimed? && events[i].job == job
    ensures Claims(events, job) >= 1
    ensures forall j :: i < j < |events| && events[j].kind.Claimed? && events[j].job == job ==> Claims(events, job) >= 2
    decreases |events|
  {
    var front := events[..|events| - 1];
    if i < |front| { ClaimedAt(front, i, job); }
  }

  lemma {:induction false} ClaimExists(events: seq<Event>, job: JobId) returns (i: nat)
    requires Claims(events, job) >= 1
    ensures i < |events| && events[i].kind.Claimed? && events[i].job == job
  {
    var n := |events| - 1;
    if events[n].kind.Claimed? && events[n].job == job {
      i := n;
    } else {
      i := ClaimExists(events[..n], job);
    }
  }

  /** The log claims no job twice; whatever is no longer pending was claimed; a physical rollout was claimed; and a success
      was physically rolled out and has its result. */
  ghost predicate EachOnce(d: Data, rollouts: seq<JobId>) {
    && (forall i, j :: 0 <= i < j < |d.events| && d.events[i].kind.Claimed? && d.events[j].kind.Claimed? ==>
          d.events[i].job != d.events[j].job)
    && (forall job :: job in rollouts ==> job in d.jobs && d.jobs[job].state != Pending)
    && forall job :: job in d.jobs ==>
         && (d.jobs[job].state != Pending <==> exists i :: ClaimOf(d.events, i, job))
         && (d.jobs[job].state == Succeeded ==> job in rollouts && d.jobs[job].result.Some?)
  }

  predicate ClaimOf(events: seq<Event>, i: int, job: JobId) {
    0 <= i < |events| && events[i].kind.Claimed? && events[i].job == job
  }

  lemma TrackedOnce(t: Traces, d: Data, jobs: set<JobId>)
    requires Valid(d, jobs) && Tracked(t, d)
    ensures EachOnce(d, t.rollouts)
  {
    hide Claims;
    forall i, j | 0 <= i < j < |d.events| && d.events[i].kind.Claimed? && d.events[j].kind.Claimed?
      ensures d.events[i].job != d.events[j].job
    {
      ClaimedAt(d.events, i, d.events[i].job);
      assert EntryOk(d.events[i].job, d.jobs[d.events[i].job], d.events);
    }
    forall job | job in d.jobs
      ensures d.jobs[job].state != Pending <==> exists i :: ClaimOf(d.events, i, job)
    {
      assert EntryOk(job, d.jobs[job], d.events);
      if d.jobs[job].state != Pending {
        var i := ClaimExists(d.events, job);
        assert ClaimOf(d.events, i, job);
      }
      if i :| ClaimOf(d.events, i, job) { ClaimedAt(d.events, i, job); }
    }
  }

  /** The names of the attempt directories of a job. */
  function Attempts(folders: set<Place>, job: JobId): set<AttemptId> { set f | f in folders && f.0 == job :: f.1 }

  /** What the directory check accepts: a claimed job with exactly its one attempt inside. */
  predicate Registered(d: Data, folders: set<Place>, job: JobId) {
    && job in d.jobs && d.jobs[job].state != Pending && d.jobs[job].attempt.Some?
    && Attempts(folders, job) == {d.jobs[job].attempt.value}
  }

  /** A job directory whose attempt directory was never made. */
  predicate HalfMade(homes: set<JobId>, folders: set<Place>) {
    exists job :: job in homes && Attempts(folders, job) == {}
  }

  /** The check refuses exactly the half-made directories: nothing else can go wrong with the tree. */
  lemma RefusedIffHalfMade(t: Traces, d: Data)
    requires Tracked(t, d)
    ensures (exists job :: job in t.homes && !Registered(d, t.folders, job)) <==> HalfMade(t.homes, t.folders)
  {
    forall job | job in t.homes ensures Registered(d, t.folders, job) <==> Attempts(t.folders, job) != {} {
      var attempt := d.jobs[job].attempt.value;
      forall a | a in Attempts(t.folders, job) ensures a == attempt {
        assert (job, a) in t.folders;
      }
    }
  }

  /** A process killed between the two directories of its first attempt leaves such a tree. */
  lemma HalfMadeIsReachable(jobs: seq<JobId>, job: JobId, attempt: AttemptId)
    requires Distinct(jobs) && job in jobs
    ensures var d := Recorded(InitialData(jobs), job, Entry(Running, 1, Some(attempt), None), Claimed);
      && Valid(d, Elements(jobs)) && Tracked(Traces([job], {job}, {}, map[]), d) && HalfMade({job}, {})
      && Tracked(Traces([job], {job}, {(job, attempt)}, map[]), d) && !HalfMade({job}, {(job, attempt)})
  {
    var start := InitialData(jobs);
    assert job in Elements(jobs) && start.jobs.Keys == Elements(jobs);
    RecordedIsValid(start, Elements(jobs), job, Entry(Running, 1, Some(attempt), None), Claimed);
    assert Attempts({}, job) == {};
    assert attempt in Attempts({(job, attempt)}, job) by { assert (job, attempt) in {(job, attempt)}; }
  }

  /** Physical work whose outcome nobody may repeat: a failed job, or an orphan without a complete envelope. */
  predicate Unknown(e: Entry, job: JobId, envelopes: map<Place, Contents>) {
    || e.state == Failed
    || (e.state == Orphaned && (e.attempt.None? || (job, e.attempt.value) !in envelopes))
  }

  predicate Open(e: Entry) { e.state == Running || e.state == Orphaned }

  /** The attempt's envelope exists and has these contents. */
  predicate Holds(envelopes: map<Place, Contents>, job: JobId, attempt: Option<AttemptId>, digest: Contents) {
    attempt.Some? && (job, attempt.value) in envelopes && envelopes[(job, attempt.value)] == digest
  }

  function Succeeding(e: Entry, digest: Contents): Entry {
    if e.attempt.None? then e else e.(state := Succeeded, result := Some(Result(e.attempt.value, digest)))
  }

  /** What an earlier process's running record becomes. */
  function Quarantined(e: Entry): Entry { if e.state == Running then e.(state := Orphaned) else e }

  // ----- The ledger object -----

  class CoreFinalLedger {
    const store: Store
    const jobs: seq<JobId>
    var data: Data

    /** Reads the stored ledger, or writes a new one with every job pending. */
    constructor (store: Store, jobs: seq<JobId>)
      requires Distinct(jobs) && StoreOk(store, Elements(jobs))
      modifies store`ledger
      ensures this.store == store && this.jobs == jobs && Synced()
      ensures data == if old(store.ledger).Some? then old(store.ledger).value else InitialData(jobs)
    {
      this.store, this.jobs := store, jobs;
      data := if store.ledger.Some? then store.ledger.value else InitialData(jobs);
      new;
      if store.ledger.None? {
        assert data.jobs.Keys == Elements(jobs);
        store.ledger := Some(data);
      }
    }

    /** Memory and disk agree, and both are valid. */
    ghost predicate Synced()
      reads this, store
    {
      store.ledger == Some(data) && Distinct(jobs) && StoreOk(store, Elements(jobs))
    }

    /** Atomic replace; the process can stop before or after it. */
    method Save() returns (r: Check<CoreError>)
      requires Valid(data, Elements(jobs))
      modifies store`ledger
      ensures r.Pass? ==> store.ledger == Some(data)
      ensures r.Fail? ==> r.error == Interrupted && (store.ledger == Some(data) || store.ledger == old(store.ledger))
    {
      var early: bool, late: bool := *, *;
      if early { return Fail(Interrupted); }
      store.ledger := Some(data);
      r := if late then Fail(Interrupted) else Pass;
    }

    /** Only a pending job can be claimed, and the claim is on disk before anything physical starts. */
    method Claim(job: JobId, attempt: AttemptId) returns (r: Check<CoreError>)
      requires Synced() && job in jobs
      modifies this`data, store`ledger
      ensures Valid(data, Elements(jobs)) && StoreOk(store, Elements(jobs))
      ensures store.ledger.Some? && Forward(old(data), store.ledger.value) && Forward(old(data), data)
      ensures old(data).jobs[job].state != Pending <==> r == Fail(NotPending)
      ensures r == Fail(NotPending) ==> data == old(data) && Synced()
      ensures r.Fail? ==> r.error == NotPending || r.error == Interrupted
      ensures r.Pass? ==>
        && Synced()
        && data
           == Recorded(old(data), job, old(data).jobs[job].(state := Running, attempts := 1, attempt := Some(attempt)), Claimed)
    {
      assert job in Elements(jobs);
      var entry := data.jobs[job];
      assert EntryOk(job, entry, data.events);
      if entry.state != Pending || entry.attempts != 0 { return Fail(NotPending); }
      var after := entry.(state := Running, attempts := 1, attempt := Some(attempt));
      RecordedIsValid(data, Elements(jobs), job, after, Claimed);
      ClaimIsTracked(store.Left(), data, job, after);
      data := Recorded(data, job, after, Claimed);
      r := Save();
    }

    /** Whatever was running when an earlier process ended is unknown from now on. */
    method QuarantineRunning() returns (r: Check<CoreError>)
      requires Synced()
      modifies this`data, store`ledger
      ensures Valid(data, Elements(jobs)) && StoreOk(store, Elements(jobs))
      ensures store.ledger.Some? && Forward(old(data), store.ledger.value) && Forward(old(data), data)
      ensures r.Pass? ==> Synced()
      ensures data.jobs.Keys == old(data).jobs.Keys && forall job :: job in data.jobs ==>
        data.jobs[job] == Quarantined(old(data).jobs[job])
      ensures r.Fail? ==> r.error == Interrupted
    {
      hide EventsOk, Claims, Tracked, Forward;
      ForwardSelf(data);
      for i := 0 to |jobs|
        invariant store.ledger == old(store.ledger)
        invariant Valid(data, Elements(jobs)) && Tracked(store.Left(), data) && Forward(old(data), data)
        invariant data.jobs.Keys == old(data).jobs.Keys
        invariant forall k :: 0 <= k < |jobs| ==>
          data.jobs[jobs[k]] == if k < i then Quarantined(old(data).jobs[jobs[k]]) else old(data).jobs[jobs[k]]
      {
        var job := jobs[i];
        assert job in Elements(jobs);
        var entry := data.jobs[job];
        if entry.state == Running {
          assert EntryOk(job, entry, data.events);
          RecordedIsValid(data, Elements(jobs), job, entry.(state := Orphaned), Orphaning);
          MoveIsTracked(store.Left(), data, job, entry.(state := Orphaned), Orphaning);
          ForwardOn(old(data), data, Recorded(data, job, entry.(state := Orphaned), Orphaning));
          data := Recorded(data, job, entry.(state := Orphaned), Orphaning);
        }
      }
      assert forall job :: job in data.jobs ==> job in Elements(jobs);
      r := Save();
    }

    /** Commits a complete envelope of a running or orphaned job, if the file still has the verified digest. */
    method Finish(job: JobId, digest: Contents, reconciled: bool) returns (r: Check<CoreError>)
      requires Synced() && job in jobs
      modifies this`data, store`ledger
      ensures Valid(data, Elements(jobs)) && StoreOk(store, Elements(jobs))
      ensures store.ledger.Some? && Forward(old(data), store.ledger.value) && Forward(old(data), data)
      ensures r.Pass? ==> Synced()
      ensures r.Fail? ==> r.error == UnexpectedFinish || r.error == ResultChanged || r.error == Interrupted
      ensures r == Fail(UnexpectedFinish) <==> !Open(old(data).jobs[job])
      ensures r == Fail(ResultChanged) <==>
        Open(old(data).jobs[job]) && !Holds(store.envelopes, job, old(data).jobs[job].attempt, digest)
      ensures data == if r == Fail(UnexpectedFinish) || r == Fail(ResultChanged) then old(data)
        else Recorded(old(data), job, Succeeding(old(data).jobs[job], digest), if reconciled then Reconciled else Finished)
      ensures Tracked(store.Left(), data) && Forward(store.ledger.value, data)
    {
      hide EventsOk, Claims, Tracked, Forward;
      assert job in Elements(jobs);
      var entry := data.jobs[job];
      assert EntryOk(job, entry, data.events);
      ForwardSelf(data);
      if entry.state != Running && entry.state != Orphaned { return Fail(UnexpectedFinish); }
      if entry.attempt.None? || (job, entry.attempt.value) !in store.envelopes
        || store.envelopes[(job, entry.attempt.value)] != digest { return Fail(ResultChanged); }
      var after := entry.(state := Succeeded, result := Some(Result(entry.attempt.value, digest)));
      var kind := if reconciled then Reconciled else Finished;
      RecordedIsValid(data, Elements(jobs), job, after, kind);
      MoveIsTracked(store.Left(), data, job, after, kind);
      data := Recorded(data, job, after, kind);
      ForwardSelf(data);
      r := Save();
    }

    /** A stopped attempt is failed, an uncertain one orphaned; neither can be claimed again. */
    method Halt(job: JobId, closed: bool) returns (r: Check<CoreError>)
      requires Valid(data, Elements(jobs)) && Distinct(jobs) && StoreOk(store, Elements(jobs))
      requires Tracked(store.Left(), data) && job in jobs
      requires store.ledger.Some? && Forward(store.ledger.value, data)
      modifies this`data, store`ledger
      ensures Valid(data, Elements(jobs)) && StoreOk(store, Elements(jobs))
      ensures store.ledger.Some? && Forward(old(store.ledger).value, store.ledger.value)
      ensures r.Fail? ==> r.error == Interrupted || r.error == UnexpectedHalt
      ensures r == Fail(UnexpectedHalt) <==> !Open(old(data).jobs[job])
      ensures data == if r == Fail(UnexpectedHalt) then old(data)
        else Recorded(old(data), job, old(data).jobs[job].(state := if closed then Failed else Orphaned), Halted(closed))
      ensures store.ledger == old(store.ledger) || (r != Fail(UnexpectedHalt) && store.ledger == Some(data))
      ensures r.Pass? ==> store.ledger == Some(data)
    {
      hide EventsOk, Claims, Tracked, Forward;
      assert job in Elements(jobs);
      var entry := data.jobs[job];
      assert EntryOk(job, entry, data.events);
      ForwardSelf(store.ledger.value);
      if entry.state != Running && entry.state != Orphaned { return Fail(UnexpectedHalt); }
      var after := entry.(state := if closed then Failed else Orphaned);
      RecordedIsValid(data, Elements(jobs), job, after, Halted(closed));
      MoveIsTracked(store.Left(), data, job, after, Halted(closed));
      ForwardOn(old(store.ledger).value, data, Recorded(data, job, after, Halted(closed)));
      data := Recorded(data, job, after, Halted(closed));
      r := Save();
    }
  }

  // ----- The runner -----

  class CoreFinalRunner {
    const store: Store
    const jobs: seq<JobId>

    constructor (store: Store, jobs: seq<JobId>)
      ensures this.store == store && this.jobs == jobs
    {
      this.store, this.jobs := store, jobs;
    }

    /** Physics: a claimed job whose rollout has not started before. It makes the job's directory and then the attempt's;
        a process can be killed before, between and behind the two. There is no envelope yet. `None` is a killed process. */
    method Rollout(job: JobId, attempt: AttemptId) returns (r: Option<Outcome<Contents, CoreError>>)
      requires StoreOk(store, Elements(jobs)) && store.ledger.Some? && job !in store.rollouts
      requires job in store.ledger.value.jobs && store.ledger.value.jobs[job].state == Running
      requires store.ledger.value.jobs[job].attempt == Some(attempt)
      modifies store`homes, store`folders, store`rollouts
      ensures StoreOk(store, Elements(jobs)) && store.rollouts == old(store.rollouts) + [job]
      ensures store.homes == old(store.homes) || store.homes == old(store.homes) + {job}
      ensures store.folders == old(store.folders)
           || (job in store.homes && store.folders == old(store.folders) + {(job, attempt)})
      ensures r.Some? && r.value.Returned? ==> (job, attempt) in store.folders
      ensures r.Some? && r.value.Raised? ==> r.value.error == RolloutFailed(job)
    {
      DistinctAppend(store.rollouts, [job]);
      store.rollouts := store.rollouts + [job];
      var steps: int, killed: bool, failed: bool := *, *, *;
      if steps >= 1 { store.homes := store.homes + {job}; }
      if steps >= 2 { store.folders := store.folders + {(job, attempt)}; }
      if killed { return None; }
      if failed || steps < 2 { return Some(Raised(RolloutFailed(job))); }
      var contents: Contents := *;
      r := Some(Returned(contents));
    }

    /** The physical verifier: it reads the envelope, and may refuse it. */
    method VerifyEnvelope(job: JobId, attempt: AttemptId) returns (r: Outcome<Contents, CoreError>)
      ensures r.Returned? ==> (job, attempt) in store.envelopes && r.value == store.envelopes[(job, attempt)]
      ensures r.Raised? ==> r.error == Unverified(job)
    {
      var refused: bool := *;
      if refused || (job, attempt) !in store.envelopes { return Raised(Unverified(job)); }
      r := Returned(store.envelopes[(job, attempt)]);
    }

    /** Writes the complete envelope: an atomic replace, around which the process can fail or be killed. */
    method WriteEnvelope(job: JobId, attempt: AttemptId, contents: Contents) returns (r: Option<bool>)
      requires StoreOk(store, Elements(jobs)) && store.ledger.Some? && store.ledger.value.jobs.Keys == Elements(jobs)
      requires job in jobs && (job, attempt) in store.folders && job in store.rollouts
      requires store.ledger.value.jobs[job].state == Running
      modifies store`envelopes
      ensures StoreOk(store, Elements(jobs))
      ensures store.envelopes == old(store.envelopes) || store.envelopes == old(store.envelopes)[(job, attempt) := contents]
      ensures r == Some(true) ==> store.envelopes == old(store.envelopes)[(job, attempt) := contents]
    {
      hide Valid, Distinct;
      var early: bool, killed: bool, failed: bool := *, *, *;
      if !early {
        assert store.ledger.value.jobs[job].attempt == Some(attempt);
        store.envelopes := store.envelopes[(job, attempt) := contents];
      }
      r := if killed then None else Some(!early && !failed);
    }

    /** A failed attempt: closed only if no complete envelope was left behind. */
    method StopAttempt(ledger: CoreFinalLedger, job: JobId) returns (r: CoreError)
      requires ledger.store == store && ledger.jobs == jobs && job in jobs && Distinct(jobs)
      requires Valid(ledger.data, Elements(jobs)) && StoreOk(store, Elements(jobs)) && store.ledger.Some?
      requires Tracked(store.Left(), ledger.data) && Forward(store.ledger.value, ledger.data)
      modifies store`ledger, ledger`data
      ensures StoreOk(store, Elements(jobs)) && store.ledger.Some? && Forward(old(store.ledger).value, store.ledger.value)
      ensures !r.ForeignOutput?
      ensures job in store.ledger.value.jobs
      ensures store.ledger != old(store.ledger) && store.ledger.value.jobs[job].state == Failed ==>
        && job in ledger.data.jobs
        && (ledger.data.jobs[job].attempt.Some? ==> (job, ledger.data.jobs[job].attempt.value) !in store.envelopes)
    {
      hide Valid, Tracked, Forward, Distinct;
      var readable: bool := *;
      assert job in Elements(jobs) && ledger.data.jobs.Keys == Elements(jobs) by { DataKeys(ledger.data, Elements(jobs)); }
      var attempt := ledger.data.jobs[job].attempt;
      var closed := readable && (attempt.None? || (job, attempt.value) !in store.envelopes);
      var h := ledger.Halt(job, closed);
      DataKeys(store.ledger.value, Elements(jobs));
      r := if h.Fail? then h.error else RolloutFailed(job);
    }

    static lemma DataKeys(d: Data, jobs: set<JobId>)
      requires Valid(d, jobs)
      ensures d.jobs.Keys == jobs
    {
    }

    /** A pending job: claim, one rollout, envelope, verification, commit. */
    method Attempt(ledger: CoreFinalLedger, job: JobId) returns (r: Outcome<(), CoreError>)
      requires ledger.store == store && ledger.jobs == jobs && ledger.Synced() && job in jobs
      requires job in ledger.data.jobs && ledger.data.jobs[job].state == Pending
      modifies store, ledger`data
      ensures StoreOk(store, Elements(jobs)) && store.ledger.Some? && Forward(old(store.ledger).value, store.ledger.value)
      ensures store.rollouts == old(store.rollouts) || store.rollouts == old(store.rollouts) + [job]
      ensures r.Returned? ==> ledger.Synced() && job in ledger.data.jobs && ledger.data.jobs[job].state == Succeeded
      ensures r.Returned? ==> store.rollouts == old(store.rollouts) + [job]
      ensures r.Raised? ==> !r.error.ForeignOutput?
    {
      hide Valid, Tracked, Forward, Distinct;
      var attempt: AttemptId := *;
      ghost var before := store.ledger.value;
      NoTrace(store.Left(), before, job, attempt);
      var c := ledger.Claim(job, attempt);
      if c.Fail? { return Raised(c.error); }
      ghost var claimed := ledger.data;
      ForwardSelf(claimed);
      if (job, attempt) in store.folders { return Raised(ForeignOutput); }
      var rolled := Rollout(job, attempt);
      if rolled.None? { return Raised(Interrupted); }
      if rolled.value.Returned? {
        var written := WriteEnvelope(job, attempt, rolled.value.value);
        if written.None? { return Raised(Interrupted); }
        if written.value {
          var proof := VerifyEnvelope(job, attempt);
          if proof.Returned? {
            var f := ledger.Finish(job, proof.value, false);
            ForwardOn(before, claimed, store.ledger.value);
            if f.Pass? { return Returned(()); }
          }
        }
      }
      ghost var stored := store.ledger.value;
      var e := StopAttempt(ledger, job);
      ForwardOn(before, stored, store.ledger.value);
      r := Raised(e);
    }

    /** A job some earlier process already left: its envelope is only verified, and reconciled if need be. */
    method Recheck(ledger: CoreFinalLedger, job: JobId) returns (r: Outcome<(), CoreError>)
      requires ledger.store == store && ledger.jobs == jobs && ledger.Synced() && job in jobs
      requires job in ledger.data.jobs && (ledger.data.jobs[job].state == Succeeded || ledger.data.jobs[job].state == Orphaned)
      modifies store`ledger, ledger`data
      ensures StoreOk(store, Elements(jobs)) && store.ledger.Some? && Forward(old(store.ledger).value, store.ledger.value)
      ensures r.Returned? ==> ledger.Synced() && job in ledger.data.jobs && ledger.data.jobs[job].state == Succeeded
      ensures old(ledger.data).jobs[job].state == Succeeded ==>
        ledger.data == old(ledger.data) && store.ledger == old(store.ledger)
      ensures r.Raised? ==> !r.error.ForeignOutput?
    {
      hide Valid, Tracked, Forward, Distinct;
      ForwardSelf(store.ledger.value);
      var entry := ledger.data.jobs[job];
      if entry.attempt.None? { return Raised(Unverified(job)); }
      var proof :- VerifyEnvelope(job, entry.attempt.value);
      if entry.state == Succeeded {
        if entry.result != Some(Result(entry.attempt.value, proof)) { return Raised(ResultChanged); }
        return Returned(());
      }
      var f := ledger.Finish(job, proof, true);
      if f.Fail? { return Raised(f.error); }
      r := Returned(());
    }

    static lemma StoreFacts(s: Store, jobs: set<JobId>)
      requires StoreOk(s, jobs)
      ensures Distinct(s.rollouts)
      ensures s.ledger.None? ==> s.homes == {} && s.rollouts == []
      ensures s.ledger.Some? ==> EachOnce(s.ledger.value, s.rollouts)
      ensures s.ledger.Some? ==>
        ((exists job :: job in s.homes && !Registered(s.ledger.value, s.folders, job)) <==> HalfMade(s.homes, s.folders))
    {
      if s.ledger.Some? {
        hide Valid, Tracked, EachOnce;
        RefusedIffHalfMade(s.Left(), s.ledger.value);
        TrackedOnce(s.Left(), s.ledger.value, jobs);
      }
    }

    /** Unknown physical work is refused before anything else starts. */
    method Refuse(ledger: CoreFinalLedger) returns (r: Check<CoreError>)
      requires ledger.store == store && ledger.jobs == jobs && ledger.Synced()
      ensures r.Fail? ==> r.error.FailedJob? || r.error.UnknownOutcome?
      ensures r.Fail? <==>
        exists job :: job in jobs && job in ledger.data.jobs && Unknown(ledger.data.jobs[job], job, store.envelopes)
    {
      hide Tracked, Distinct;
      DataKeys(ledger.data, Elements(jobs));
      for i := 0 to |jobs|
        invariant forall k :: 0 <= k < i ==>
          jobs[k] in ledger.data.jobs && !Unknown(ledger.data.jobs[jobs[k]], jobs[k], store.envelopes)
      {
        assert jobs[i] in Elements(jobs);
        var entry := ledger.data.jobs[jobs[i]];
        if entry.state == Failed { return Fail(FailedJob(jobs[i])); }
        if entry.state == Orphaned && (entry.attempt.None? || (jobs[i], entry.attempt.value) !in store.envelopes) {
          return Fail(UnknownOutcome(jobs[i]));
        }
      }
      r := Pass;
    }

    ghost predicate Done(d: Data, n: nat)
      requires n <= |jobs|
    {
      forall k :: 0 <= k < n ==> jobs[k] in d.jobs && d.jobs[jobs[k]].state == Succeeded
    }

    lemma DoneStays(before: Data, after: Data, n: nat)
      requires n < |jobs| && Done(before, n) && Forward(before, after)
      requires jobs[n] in after.jobs && after.jobs[jobs[n]].state == Succeeded
      ensures Done(after, n + 1)
    {
    }

    /** The main loop over the matrix. */
    method RunJobs(ledger: CoreFinalLedger) returns (r: Outcome<(), CoreError>)
      requires ledger.store == store && ledger.jobs == jobs && ledger.Synced()
      modifies store, ledger`data
      ensures StoreOk(store, Elements(jobs)) && store.ledger.Some? && Forward(old(store.ledger).value, store.ledger.value)
      ensures old(store.rollouts) <= store.rollouts
      ensures r.Returned? ==> ledger.Synced() && Done(store.ledger.value, |jobs|)
      ensures r.Raised? ==> !r.error.ForeignOutput?
    {
      hide Valid, Tracked, Forward, Distinct;
      ForwardSelf(store.ledger.value);
      for i := 0 to |jobs|
        invariant ledger.Synced() && Forward(old(store.ledger).value, ledger.data) && Done(ledger.data, i)
        invariant old(store.rollouts) <= store.rollouts
      {
        var job := jobs[i];
        assert job in Elements(jobs);
        DataKeys(ledger.data, Elements(jobs));
        ghost var before := ledger.data;
        var state := ledger.data.jobs[job].state;
        var done: Outcome<(), CoreError>;
        if state == Succeeded || state == Orphaned {
          done := Recheck(ledger, job);
        } else if state == Pending {
          done := Attempt(ledger, job);
        } else {
          done := Raised(NotPending);
          ForwardSelf(before);
        }
        ForwardOn(old(store.ledger).value, before, store.ledger.value);
        if done.Raised? { return Raised(done.error); }
        DoneStays(before, ledger.data, i);
      }
      r := Returned(());
    }

    /** One process under the exclusive lock, until it finishes, raises or is killed. Over any number of runs a job's
        rollout starts at most once, and its record never moves back. */
    method Run() returns (r: Outcome<(), CoreError>)
      requires Distinct(jobs) && StoreOk(store, Elements(jobs))
      modifies store
      ensures StoreOk(store, Elements(jobs))
      ensures old(store.ledger).Some? ==> store.ledger.Some? && Forward(old(store.ledger).value, store.ledger.value)
      ensures old(store.rollouts) <= store.rollouts && Distinct(store.rollouts)
      ensures r.Returned? ==> store.ledger.Some? && Done(store.ledger.value, |jobs|)
      ensures r == Raised(ForeignOutput) ==> HalfMade(old(store.homes), old(store.folders))
      ensures HalfMade(old(store.homes), old(store.folders)) ==>
        && (r == Raised(ForeignOutput) || r == Raised(Interrupted))
        && store.rollouts == old(store.rollouts) && store.homes == old(store.homes) && store.folders == old(store.folders)
      ensures old(store.ledger).Some?
        && (exists job :: job in jobs && job in old(store.ledger).value.jobs
              && Unknown(Quarantined(old(store.ledger).value.jobs[job]), job, old(store.envelopes)))
        ==> r.Raised? && store.rollouts == old(store.rollouts)
    {
      hide Valid, Tracked, Forward, Distinct, EventsOk, Unknown, Quarantined, Registered, HalfMade, EachOnce;
      StoreFacts(store, Elements(jobs));
      if store.ledger.Some? { ForwardSelf(store.ledger.value); }
      var killed: bool := *;
      if killed { return Raised(Interrupted); }
      if store.ledger.None? && store.homes != {} { return Raised(ForeignOutput); }
      var ledger := new CoreFinalLedger(store, jobs);
      ghost var start := store.ledger.value;
      var q := ledger.QuarantineRunning();
      if q.Fail? { return Raised(q.error); }
      ghost var quiet := store.ledger.value;
      StoreFacts(store, Elements(jobs));
      if exists job :: job in store.homes && !Registered(ledger.data, store.folders, job) { return Raised(ForeignOutput); }
      var refused := Refuse(ledger);
      if refused.Fail? { return Raised(refused.error); }
      r := RunJobs(ledger);
      ForwardOn(start, quiet, store.ledger.value);
      StoreFacts(store, Elements(jobs));
      if r.Raised? { return; }
      for i := 0 to |jobs|
        modifies {}
      {
        assert Done(ledger.data, |jobs|) && jobs[i] in ledger.data.jobs;
        var entry := ledger.data.jobs[jobs[i]];
        if entry.attempt.None? { return Raised(Incomplete); }
        var proof :- VerifyEnvelope(jobs[i], entry.attempt.value);
        if entry.result != Some(Result(entry.attempt.value, proof)) { return Raised(ResultChanged); }
      }
    }

    /** Any history of runs, crashes and restarts on one store: each job is claimed and rolled out at most once, every
        success was rolled out, and a run that finishes has committed every job. */
    static method History(store: Store, jobs: seq<JobId>, runs: nat) returns (finished: bool)
      requires Distinct(jobs) && StoreOk(store, Elements(jobs))
      modifies store
      ensures StoreOk(store, Elements(jobs)) && Distinct(store.rollouts) && old(store.rollouts) <= store.rollouts
      ensures if store.ledger.Some? then EachOnce(store.ledger.value, store.rollouts) else store.rollouts == []
      ensures old(store.ledger).Some? ==> store.ledger.Some? && Forward(old(store.ledger).value, store.ledger.value)
      ensures finished ==> store.ledger.Some? && forall job :: job in jobs ==>
        job in store.ledger.value.jobs && store.ledger.value.jobs[job].state == Succeeded
    {
      hide Valid, Tracked, Forward, Distinct, EachOnce, HalfMade, Registered;
      finished := false;
      StoreFacts(store, Elements(jobs));
      if store.ledger.Some? { ForwardSelf(store.ledger.value); }
      for i := 0 to runs
        invariant StoreOk(store, Elements(jobs)) && Distinct(store.rollouts) && old(store.rollouts) <= store.rollouts
        invariant old(store.ledger).Some? ==> store.ledger.Some? && Forward(old(store.ledger).value, store.ledger.value)
        invariant finished ==> store.ledger.Some? && forall job :: job in jobs ==>
          job in store.ledger.value.jobs && store.ledger.value.jobs[job].state == Succeeded
      {
        ghost var before := store.ledger;
        var runner := new CoreFinalRunner(store, jobs);
        var r := runner.Run();
        if old(store.ledger).Some? { ForwardOn(old(store.ledger).value, before.value, store.ledger.value); }
        if before.Some? { SuccessStays(before.value, store.ledger.value, jobs); }
        if r.Returned? { finished := true; }
      }
      StoreFacts(store, Elements(jobs));
    }

    static lemma SuccessStays(before: Data, after: Data, jobs: seq<JobId>)
      requires Forward(before, after)
      ensures (forall job :: job in jobs ==> job in before.jobs && before.jobs[job].state == Succeeded) ==>
        forall job :: job in jobs ==> job in after.jobs && after.jobs[job].state == Succeeded
    {
    }
  }
}
