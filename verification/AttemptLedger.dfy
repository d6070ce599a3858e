/** The attempt ledger: one transaction at a time, by any number of workers, and an append-only event log. */
module AttemptLedger {
  import opened Wrappers

  type JobId = string
  type Token(==, !new, 0)

  datatype JobState = Pending | Running | Succeeded | Failed | Orphaned

  datatype Verification = Verification(path: string, digest: string)
  datatype Artifact = Artifact(path: string, digest: string)
  type Costs = map<string, real>
  datatype Failure = Failure(error: string, costs: Option<Costs>, artifacts: seq<Artifact>)

  datatype Row = Row(state: JobState, attempts: nat, token: Option<Token>, owner: string, heartbeat: real,
                     result: Option<Verification>, error: string)

  datatype EventKind =
    | Claimed(owner: string, token: Token)
    | Finished(token: Token, verified: Verification)
    | Stopped(token: Token, failure: Failure)
    | Quarantined(held: Option<Token>)
    | Reconciled(evidence: string, outcome: Option<Verification>)
    | RetryAuthorized(evidence: string)
    | VerificationFailed(reason: string)

  datatype Event = Event(job: JobId, kind: EventKind)

  datatype Ledger = Ledger(rows: map<JobId, Row>, events: seq<Event>)

  datatype LedgerError =
    | NoOwner | UnknownJob | NotOwned | NoStopEvidence | BadCosts | NotOrphaned | NotFailed | Unverified | UnplannedState
    | ManifestDiffers | MembershipDiffers

  // ----- Reading the log -----

  function Front(events: seq<Event>): seq<Event>
    requires events != []
  {
    events[..|events| - 1]
  }

  function Last(events: seq<Event>): Event
    requires events != []
  {
    events[|events| - 1]
  }

  predicate IsClaim(e: Event) { e.kind.Claimed? }

  /** A failed attempt, known when it stopped or established later. */
  predicate IsFailure(e: Event) { e.kind.Stopped? || (e.kind.Reconciled? && e.kind.outcome.None?) }

  function Claims(events: seq<Event>, job: JobId): nat {
    if events == [] then 0
    else Claims(Front(events), job) + if IsClaim(Last(events)) && Last(events).job == job then 1 else 0
  }

  function Failures(events: seq<Event>, job: JobId): nat {
    if events == [] then 0
    else Failures(Front(events), job) + if IsFailure(Last(events)) && Last(events).job == job then 1 else 0
  }

  function TotalClaims(events: seq<Event>): nat {
    if events == [] then 0 else TotalClaims(Front(events)) + if IsClaim(Last(events)) then 1 else 0
  }

  /** The token of the job's latest claim. */
  function LastClaim(events: seq<Event>, job: JobId): Option<Token> {
    if events == [] then None
    else if IsClaim(Last(events)) && Last(events).job == job then Some(Last(events).kind.token)
    else LastClaim(Front(events), job)
  }

  predicate Minted(events: seq<Event>, token: Token) {
    exists i :: 0 <= i < |events| && IsClaim(events[i]) && events[i].kind.token == token
  }

  /** The attempt a failure belongs to: the one it names, or else the job's latest claim. */
  function AttemptOf(before: seq<Event>, e: Event): Option<Token> {
    if e.kind.Stopped? then Some(e.kind.token) else LastClaim(before, e.job)
  }

  function FailedAttempts(events: seq<Event>): seq<(JobId, Option<Token>)> {
    if events == [] then []
    else
      FailedAttempts(Front(events))
      + if IsFailure(Last(events)) then [(Last(events).job, AttemptOf(Front(events), Last(events)))] else []
  }

  // ----- Transactions -----

  /** One transaction; what was verified or validated before it is part of the operation. */
  datatype Op =
    | Claim(job: JobId, owner: string, token: Token, now: real)
    | Beat(job: JobId, token: Token, now: real)
    | Succeed(job: JobId, token: Token, verified: Verification)
    | Fail(job: JobId, token: Token, failure: Failure)
    | Orphan(job: JobId, staleBefore: real)
    | Reconcile(job: JobId, evidence: string, outcome: Option<Verification>)
    | Retry(job: JobId, evidence: string)
    | Distrust(job: JobId, reason: string)

  predicate Owns(l: Ledger, job: JobId, token: Token) {
    job in l.rows && l.rows[job].state == Running && l.rows[job].token == Some(token)
  }

  /** Whether the transaction's own condition holds, so that it changes the ledger. */
  predicate Enabled(l: Ledger, op: Op) {
    && op.job in l.rows
    && match op
       case Claim(job, _, _, _) => l.rows[job].state == Pending
       case Beat(job, token, _) => Owns(l, job, token)
       case Succeed(job, token, _) => Owns(l, job, token)
       case Fail(job, token, _) => Owns(l, job, token)
       case Orphan(job, staleBefore) => l.rows[job].state == Running && l.rows[job].heartbeat < staleBefore
       case Reconcile(job, _, _) => l.rows[job].state == Orphaned
       case Retry(job, _) => l.rows[job].state == Failed
       case Distrust(job, _) => l.rows[job].state == Succeeded
  }

  function NewRow(r: Row, op: Op): Row {
    match op
    case Claim(_, owner, token, now) =>
      r.(state := Running, attempts := r.attempts + 1, token := Some(token), owner := owner, heartbeat := now, error := "")
    case Beat(_, _, now) => r.(heartbeat := now)
    case Succeed(_, _, v) => r.(state := Succeeded, result := Some(v), error := "")
    case Fail(_, _, f) => r.(state := Failed, result := None, error := f.error)
    case Orphan(_, _) => r.(state := Orphaned)
    case Reconcile(_, evidence, outcome) =>
      if outcome.Some? then r.(state := Succeeded, result := outcome, error := "")
      else r.(state := Failed, result := None, error := evidence)
    case Retry(_, _) => r.(state := Pending)
    case Distrust(_, reason) => r.(state := Orphaned, error := reason)
  }

  function NewEvents(r: Row, op: Op): seq<Event> {
    match op
    case Claim(job, owner, token, _) => [Event(job, Claimed(owner, token))]
    case Beat(_, _, _) => []
    case Succeed(job, token, v) => [Event(job, Finished(token, v))]
    case Fail(job, token, f) => [Event(job, Stopped(token, f))]
    case Orphan(job, _) => [Event(job, Quarantined(r.token))]
    case Reconcile(job, evidence, outcome) => [Event(job, Reconciled(evidence, outcome))]
    case Retry(job, evidence) => [Event(job, RetryAuthorized(evidence))]
    case Distrust(job, reason) => [Event(job, VerificationFailed(reason))]
  }

  function Apply(l: Ledger, op: Op): Ledger {
    if !Enabled(l, op) then l
    else Ledger(l.rows[op.job := NewRow(l.rows[op.job], op)], l.events + NewEvents(l.rows[op.job], op))
  }

  // ----- Every interleaving -----

  predicate CostsValid(c: Option<Costs>) { c.Some? ==> forall name :: name in c.value ==> c.value[name] >= 0.0 }

  /** What callers supply: claim tokens are new, recorded costs were validated. */
  predicate Admissible(l: Ledger, op: Op) {
    && (op.Claim? ==> !Minted(l.events, op.token))
    && (op.Fail? ==> CostsValid(op.failure.costs))
  }

  function Run(l: Ledger, ops: seq<Op>): Ledger
    decreases |ops|
  {
    if ops == [] then l else Run(Apply(l, ops[0]), ops[1..])
  }

  ghost predicate AllAdmissible(l: Ledger, ops: seq<Op>)
    decreases |ops|
  {
    ops != [] ==> Admissible(l, ops[0]) && AllAdmissible(Apply(l, ops[0]), ops[1..])
  }

  ghost predicate Reaches(a: Ledger, b: Ledger) {
    exists ops :: AllAdmissible(a, ops) && Run(a, ops) == b
  }

  lemma {:induction false} RunAppend(a: Ledger, ops: seq<Op>, more: seq<Op>)
    requires AllAdmissible(a, ops) && AllAdmissible(Run(a, ops), more)
    ensures AllAdmissible(a, ops + more) && Run(a, ops + more) == Run(Run(a, ops), more)
    decreases |ops|
  {
    if ops == [] {
      assert ops + more == more;
    } else {
      RunAppend(Apply(a, ops[0]), ops[1..], more);
      assert (ops + more)[1..] == ops[1..] + more;
    }
  }

  lemma ReachesItself(a: Ledger)
    ensures Reaches(a, a)
  {
    assert AllAdmissible(a, []) && Run(a, []) == a;
  }

  lemma RunOne(l: Ledger, op: Op)
    ensures Run(l, [op]) == Apply(l, op) && (Admissible(l, op) ==> AllAdmissible(l, [op]))
  {
    hide Apply, Admissible;
    assert [op][0] == op && [op][1..] == [];
    assert Run(Apply(l, op), []) == Apply(l, op) && AllAdmissible(Apply(l, op), []);
  }

  lemma ReachesStep(a: Ledger, b: Ledger, op: Op)
    requires Reaches(a, b) && Admissible(b, op)
    ensures Reaches(a, Apply(b, op))
  {
    var ops :| AllAdmissible(a, ops) && Run(a, ops) == b;
    RunOne(b, op);
    RunAppend(a, ops, [op]);
  }

  lemma ReachesOn(a: Ledger, b: Ledger, c: Ledger)
    requires Reaches(a, b) && Reaches(b, c)
    ensures Reaches(a, c)
  {
    var ops :| AllAdmissible(a, ops) && Run(a, ops) == b;
    var more :| AllAdmissible(b, more) && Run(b, more) == c;
    RunAppend(a, ops, more);
  }

  // ----- Heartbeats -----

  /** A beat moves the heartbeat of its row to `now`, and nothing else; so no worker that calls older heartbeats stale can
      quarantine the job, and once the heartbeat is older it can. */
  lemma BeatStaysLive(l: Ledger, job: JobId, token: Token, now: real, staleBefore: real)
    requires job in l.rows && l.rows[job].state == Running && l.rows[job].token == Some(token)
    ensures var beaten := Apply(l, Beat(job, token, now));
      && beaten.rows.Keys == l.rows.Keys && beaten.events == l.events
      && (forall other :: other in l.rows && other != job ==> beaten.rows[other] == l.rows[other])
      && beaten.rows[job].heartbeat == now && beaten.rows[job].(heartbeat := l.rows[job].heartbeat) == l.rows[job]
      && (staleBefore <= now <==> Apply(beaten, Orphan(job, staleBefore)) == beaten)
  {
    var beaten := Apply(l, Beat(job, token, now));
    assert l.events + [] == l.events;
    if staleBefore > now { assert Apply(beaten, Orphan(job, staleBefore)).rows[job].state == Orphaned; }
  }

  /** What each transaction writes into the row and the log, when its condition holds. */
  lemma Writes(l: Ledger, op: Op)
    requires op.job in l.rows
    ensures var before := l.rows[op.job]; var after := Apply(l, op);
      op.job in after.rows && after.rows.Keys == l.rows.Keys && l.events <= after.events
      && (forall other :: other in l.rows && other != op.job ==> after.rows[other] == l.rows[other])
      && (after.rows[op.job] != before || after.events != l.events ==> MayMove(before.state, op, after.rows[op.job].state))
      && (before.state.Pending? && op.Claim? ==>
            && after.rows[op.job] == Row(Running, before.attempts + 1, Some(op.token), op.owner, op.now, before.result, "")
            && after.events == l.events + [Event(op.job, Claimed(op.owner, op.token))])
      && (before.state.Failed? && op.Retry? ==>
            && after.rows[op.job] == Row(Pending, before.attempts, before.token, before.owner, before.heartbeat, before.result,
                                         before.error)
            && after.events == l.events + [Event(op.job, RetryAuthorized(op.evidence))])
      && (before.state.Orphaned? && op.Reconcile? ==>
            && after.rows[op.job].state == (if op.outcome.Some? then Succeeded else Failed)
            && after.rows[op.job].result == op.outcome && after.rows[op.job].attempts == before.attempts
            && after.rows[op.job].error == (if op.outcome.Some? then "" else op.evidence)
            && after.events == l.events + [Event(op.job, Reconciled(op.evidence, op.outcome))])
      && (before.state.Running? && op.Fail? && before.token == Some(op.token) ==>
            && after.rows[op.job] == Row(Failed, before.attempts, before.token, before.owner, before.heartbeat, None,
                                         op.failure.error)
            && after.events == l.events + [Event(op.job, Stopped(op.token, op.failure))])
      && (before.state.Running? && op.Succeed? && before.token == Some(op.token) ==>
            && after.rows[op.job] == Row(Succeeded, before.attempts, before.token, before.owner, before.heartbeat,
                                         Some(op.verified), "")
            && after.events == l.events + [Event(op.job, Finished(op.token, op.verified))])
  {
  }

  /** The moves a job can make: claimed from pending; ended or quarantined while it runs; resolved as an orphan; retried
      after a failure; distrusted after a success. */
  predicate MayMove(from: JobState, op: Op, to: JobState) {
    match op
    case Claim(_, _, _, _) => from == Pending && to == Running
    case Beat(_, _, _) => from == Running && to == Running
    case Succeed(_, _, _) => from == Running && to == Succeeded
    case Fail(_, _, _) => from == Running && to == Failed
    case Orphan(_, _) => from == Running && to == Orphaned
    case Reconcile(_, _, _) => from == Orphaned && (to == Succeeded || to == Failed)
    case Retry(_, _) => from == Failed && to == Pending
    case Distrust(_, _) => from == Succeeded && to == Orphaned
  }

  // ----- What a success leaves in the log -----

  predicate RecordsSuccess(e: Event, job: JobId) {
    e.job == job && (e.kind.Finished? || (e.kind.Reconciled? && e.kind.outcome.Some?))
  }

  /** The log records a success of the job at or behind position `from`. */
  ghost predicate SuccessSince(events: seq<Event>, from: nat, job: JobId) {
    exists i :: from <= i < |events| && RecordsSuccess(events[i], job)
  }

  lemma {:induction false} LogGrows(l: Ledger, ops: seq<Op>)
    ensures l.events <= Run(l, ops).events && Run(l, ops).rows.Keys == l.rows.Keys
    decreases |ops|
  {
    if ops != [] {
      LogGrows(Apply(l, ops[0]), ops[1..]);
    }
  }

  /** A job that was not a success becomes one only through an event that says so. */
  lemma {:induction false} SuccessIsRecorded(l: Ledger, ops: seq<Op>, job: JobId)
    requires job in l.rows && l.rows[job].state != Succeeded
    requires job in Run(l, ops).rows && Run(l, ops).rows[job].state == Succeeded
    ensures SuccessSince(Run(l, ops).events, |l.events|, job)
    decreases |ops|
  {
    assert ops != [];
    var next := Apply(l, ops[0]);
    LogGrows(next, ops[1..]);
    if next.rows[job].state == Succeeded {
      assert RecordsSuccess(next.events[|l.events|], job);
      assert Run(l, ops).events[|l.events|] == next.events[|l.events|];
    } else {
      SuccessIsRecorded(next, ops[1..], job);
      var i :| |next.events| <= i < |Run(l, ops).events| && RecordsSuccess(Run(l, ops).events[i], job);
    }
  }

  lemma ReachesRecords(a: Ledger, b: Ledger, job: JobId)
    requires Reaches(a, b) && job in a.rows
    ensures a.events <= b.events && b.rows.Keys == a.rows.Keys
    ensures a.rows[job].state != Succeeded && b.rows[job].state == Succeeded ==> SuccessSince(b.events, |a.events|, job)
  {
    hide Apply, AllAdmissible;
    var ops :| AllAdmissible(a, ops) && Run(a, ops) == b;
    LogGrows(a, ops);
    if a.rows[job].state != Succeeded && b.rows[job].state == Succeeded { SuccessIsRecorded(a, ops, job); }
  }

  /** Two transactions that leave a distrusted success a success again: the resuming worker quarantines it, and before that
      worker reads the row again another one reconciles it with a verified result. */
  lemma RacingReconciliation(l: Ledger, job: JobId, reason: string, evidence: string, v: Verification)
    requires job in l.rows && l.rows[job].state == Succeeded
    ensures var distrusted := Apply(l, Distrust(job, reason));
      var reconciled := Apply(distrusted, Reconcile(job, evidence, Some(v)));
      && Reaches(l, distrusted) && distrusted.rows[job].state == Orphaned
      && Reaches(distrusted, reconciled) && reconciled.rows[job].state == Succeeded
  {
    hide Reaches;
    var distrusted := Apply(l, Distrust(job, reason));
    ReachesItself(l);
    ReachesStep(l, l, Distrust(job, reason));
    ReachesItself(distrusted);
    ReachesStep(distrusted, distrusted, Reconcile(job, evidence, Some(v)));
  }

  /** A ledger in which that can happen is reachable from any manifest with a job. */
  lemma SuccessIsReachable(jobs: set<JobId>, job: JobId, token: Token, v: Verification) returns (l: Ledger)
    requires job in jobs
    ensures Reaches(Initial(jobs), l) && job in l.rows && l.rows[job].state == Succeeded && l.rows[job].result == Some(v)
  {
    hide Reaches;
    var start := Initial(jobs);
    var claimed := Apply(start, Claim(job, "worker", token, 0.0));
    l := Apply(claimed, Succeed(job, token, v));
    ReachesItself(start);
    ReachesStep(start, start, Claim(job, "worker", token, 0.0));
    ReachesStep(start, claimed, Succeed(job, token, v));
  }

  // ----- Conservation -----

  predicate Live(s: JobState) { s == Running || s == Succeeded || s == Orphaned }

  ghost predicate RowConserved(job: JobId, r: Row, events: seq<Event>) {
    && Claims(events, job) == r.attempts
    && Failures(events, job) + (if Live(r.state) then 1 else 0) == r.attempts
    && r.token == LastClaim(events, job)
    && (r.token.Some? <==> r.attempts > 0)
    && (r.token.Some? ==> Minted(events, r.token.value))
    && (Live(r.state) ==> (job, r.token) !in FailedAttempts(events))
  }

  ghost predicate EventsSound(l: Ledger) {
    && (forall i :: 0 <= i < |l.events| ==> l.events[i].job in l.rows)
    && (forall i :: 0 <= i < |l.events| && l.events[i].kind.Stopped? ==> CostsValid(l.events[i].kind.failure.costs))
    && Distinct(FailedAttempts(l.events))
    && (forall k :: k in FailedAttempts(l.events) ==> k.1.Some? && Minted(l.events, k.1.value))
  }

  function LiveJobs(rows: map<JobId, Row>): set<JobId> { set j | j in rows && Live(rows[j].state) }

  ghost predicate Conserved(l: Ledger) {
    && (forall job :: job in l.rows ==> RowConserved(job, l.rows[job], l.events))
    && EventsSound(l)
    && TotalClaims(l.events) == |FailedAttempts(l.events)| + |LiveJobs(l.rows)|
  }

  lemma Appended(events: seq<Event>, e: Event, job: JobId)
    ensures Front(events + [e]) == events && Last(events + [e]) == e
    ensures Claims(events + [e], job) == Claims(events, job) + if IsClaim(e) && e.job == job then 1 else 0
    ensures Failures(events + [e], job) == Failures(events, job) + if IsFailure(e) && e.job == job then 1 else 0
    ensures LastClaim(events + [e], job) == if IsClaim(e) && e.job == job then Some(e.kind.token) else LastClaim(events, job)
    ensures TotalClaims(events + [e]) == TotalClaims(events) + if IsClaim(e) then 1 else 0
    ensures FailedAttempts(events + [e])
      == FailedAttempts(events) + if IsFailure(e) then [(e.job, AttemptOf(events, e))] else []
  {
    assert Front(events + [e]) == events;
  }

  lemma MintedAppend(events: seq<Event>, e: Event, token: Token)
    ensures Minted(events + [e], token) <==> Minted(events, token) || (IsClaim(e) && e.kind.token == token)
  {
    var all := events + [e];
    if Minted(events, token) {
      var i :| 0 <= i < |events| && IsClaim(events[i]) && events[i].kind.token == token;
      assert all[i] == events[i];
    }
    if IsClaim(e) && e.kind.token == token { assert all[|events|] == e; }
  }

  /** A job keeps its account when another job's event is appended. */
  lemma OtherRow(job: JobId, r: Row, events: seq<Event>, e: Event)
    requires RowConserved(job, r, events) && e.job != job
    ensures RowConserved(job, r, events + [e])
  {
    hide Minted, Claims, Failures, LastClaim, FailedAttempts;
    Appended(events, e, job);
    if r.token.Some? { MintedAppend(events, e, r.token.value); }
  }

  /** The job that moves keeps its account. */
  lemma MovedRow(l: Ledger, op: Op, e: Event)
    requires Conserved(l) && Enabled(l, op) && Admissible(l, op) && NewEvents(l.rows[op.job], op) == [e]
    ensures RowConserved(op.job, NewRow(l.rows[op.job], op), l.events + [e])
  {
    hide Minted, Claims, Failures, LastClaim, FailedAttempts, TotalClaims, LiveJobs, Distinct;
    var r := l.rows[op.job];
    assert RowConserved(op.job, r, l.events);
    Appended(l.events, e, op.job);
    var after := NewRow(r, op);
    if after.token.Some? { MintedAppend(l.events, e, after.token.value); }
    if op.Claim? { assert (op.job, after.token) !in FailedAttempts(l.events); }
  }

  lemma MovedEvents(l: Ledger, op: Op, e: Event)
    requires Conserved(l) && Enabled(l, op) && Admissible(l, op) && NewEvents(l.rows[op.job], op) == [e]
    ensures EventsSound(Apply(l, op))
  {
    hide Claims, Failures, LastClaim, FailedAttempts, TotalClaims, LiveJobs, Minted, Distinct;
    var r := l.rows[op.job];
    var events, all, failed := l.events, l.events + [e], FailedAttempts(l.events);
    assert RowConserved(op.job, r, events);
    Appended(events, e, op.job);
    assert Apply(l, op).events == all && Apply(l, op).rows.Keys == l.rows.Keys;
    forall i | 0 <= i < |all| ensures all[i].job in l.rows && (all[i].kind.Stopped? ==> CostsValid(all[i].kind.failure.costs)) {
      if i < |events| { assert all[i] == events[i]; }
    }
    if IsFailure(e) {
      assert AttemptOf(events, e) == r.token && (op.job, r.token) !in failed;
      SingleDistinct((op.job, r.token));
      DistinctAppend(failed, [(op.job, r.token)]);
    }
    assert failed + [] == failed;
    forall k | k in FailedAttempts(all) ensures k.1.Some? && Minted(all, k.1.value) {
      assert k in failed || k == (op.job, r.token);
      MintedAppend(events, e, k.1.value);
    }
  }

  lemma MovedTotals(l: Ledger, op: Op, e: Event)
    requires Conserved(l) && Enabled(l, op) && NewEvents(l.rows[op.job], op) == [e]
    ensures var after := Apply(l, op);
      TotalClaims(after.events) == |FailedAttempts(after.events)| + |LiveJobs(after.rows)|
  {
    hide Claims, Failures, LastClaim, FailedAttempts, TotalClaims, Minted, RowConserved, EventsSound;
    Appended(l.events, e, op.job);
    var before, after := LiveJobs(l.rows), LiveJobs(Apply(l, op).rows);
    if op.Claim? {
      assert after == before + {op.job};
    } else if IsFailure(e) {
      assert after == before - {op.job};
    } else {
      assert after == before;
    }
  }

  lemma ApplyConserves(l: Ledger, op: Op)
    requires Conserved(l) && Admissible(l, op)
    ensures Conserved(Apply(l, op))
  {
    hide Claims, Failures, LastClaim, FailedAttempts, TotalClaims, Minted, RowConserved, EventsSound;
    if Enabled(l, op) {
      var r := l.rows[op.job];
      var after := Apply(l, op);
      if op.Beat? {
        BeatRow(op.job, r, op, l.events);
        assert l.events + [] == l.events;
        assert LiveJobs(after.rows) == LiveJobs(l.rows);
        BeatEvents(l, op);
      } else {
        var e := NewEvents(r, op)[0];
        assert e.job == op.job;
        MovedRow(l, op, e);
        MovedEvents(l, op, e);
        MovedTotals(l, op, e);
        forall job | job in after.rows ensures RowConserved(job, after.rows[job], after.events) {
          if job != op.job { OtherRow(job, l.rows[job], l.events, e); }
        }
      }
    }
  }

  lemma BeatRow(job: JobId, r: Row, op: Op, events: seq<Event>)
    requires op.Beat? && RowConserved(job, r, events)
    ensures RowConserved(job, NewRow(r, op), events)
  {
  }

  lemma BeatEvents(l: Ledger, op: Op)
    requires op.Beat? && Enabled(l, op) && EventsSound(l)
    ensures EventsSound(Apply(l, op))
  {
    hide FailedAttempts, Distinct, Minted;
    assert l.events + [] == l.events;
  }

  function Initial(jobs: set<JobId>): Ledger {
    Ledger(map j | j in jobs :: Row(Pending, 0, None, "", 0.0, None, ""), [])
  }

  /** In every reachable interleaving of workers the attempt accounts of every job and of the whole study balance. */
  lemma {:induction false} EveryRunConserves(l: Ledger, ops: seq<Op>)
    requires Conserved(l) && AllAdmissible(l, ops)
    ensures Conserved(Run(l, ops))
    decreases |ops|
  {
    hide Conserved, Admissible, Apply;
    if ops != [] {
      ApplyConserves(l, ops[0]);
      EveryRunConserves(Apply(l, ops[0]), ops[1..]);
    }
  }

  lemma InitiallyConserved(jobs: set<JobId>)
    ensures Conserved(Initial(jobs))
  {
    assert LiveJobs(Initial(jobs).rows) == {};
  }

  /** Whatever the workers of a new study do, its accounts balance. */
  lemma StudyConserves(jobs: set<JobId>, ops: seq<Op>)
    requires AllAdmissible(Initial(jobs), ops)
    ensures Conserved(Run(Initial(jobs), ops))
  {
    hide Conserved, AllAdmissible, Run;
    InitiallyConserved(jobs);
    EveryRunConserves(Initial(jobs), ops);
  }

  // ----- Tokens -----

  lemma ClaimsAppendOnly(l: Ledger, op: Op, token: Token)
    requires Minted(l.events, token)
    ensures Minted(Apply(l, op).events, token)
  {
    var i :| 0 <= i < |l.events| && IsClaim(l.events[i]) && l.events[i].kind.token == token;
    assert Apply(l, op).events[i] == l.events[i];
  }

  /** An attempt that no longer runs never runs again: whatever the workers do, its token opens no transaction. */
  lemma {:induction false} StaleTokensStayInert(l: Ledger, ops: seq<Op>, job: JobId, token: Token)
    requires AllAdmissible(l, ops) && Minted(l.events, token) && !Owns(l, job, token)
    ensures !Owns(Run(l, ops), job, token)
    ensures forall op: Op :: op.job == job && (op.Beat? || op.Succeed? || op.Fail?) && op.token == token ==>
      Apply(Run(l, ops), op) == Run(l, ops)
    decreases |ops|
  {
    hide Minted;
    if ops != [] {
      ClaimsAppendOnly(l, ops[0], token);
      StaleTokensStayInert(Apply(l, ops[0]), ops[1..], job, token);
    }
  }

  /** Two workers never hold running attempts of one job: a claim needs a pending row, and its token is new. */
  lemma ClaimIsExclusive(l: Ledger, ops: seq<Op>, job: JobId, first: Token, second: Token)
    requires Conserved(l) && AllAdmissible(l, ops)
    requires Owns(Run(l, ops), job, first) && Owns(Run(l, ops), job, second)
    ensures first == second && (job, Some(first)) !in FailedAttempts(Run(l, ops).events)
  {
    hide Claims, Failures, FailedAttempts, TotalClaims, LastClaim, Minted;
    EveryRunConserves(l, ops);
    assert RowConserved(job, Run(l, ops).rows[job], Run(l, ops).events);
  }
}
