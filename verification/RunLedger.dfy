/** The ledger object of one worker. Each method holds the write lock for one transaction; between transactions, and
    between verifying a result and recording it, other workers may act. */
module RunLedgers {
  import opened Wrappers
  import opened AttemptLedger

  datatype ResumePlan = ResumePlan(runnable: seq<JobId>, skipVerified: seq<JobId>, running: seq<JobId>, failed: seq<JobId>,
                                   orphaned: seq<JobId>)

  class RunLedger {
    const jobs: seq<JobId>
    var rows: map<JobId, Row>
    var events: seq<Event>
    /** The rows this worker has acted on while resuming, each as it was last read. */
    ghost var readings: seq<(JobId, Row)>
    /** The verifications that accepted a result file for a job. */
    ghost var accepted: seq<(JobId, Verification)>

    constructor (jobs: seq<JobId>)
      requires Distinct(jobs)
      ensures this.jobs == jobs && Valid() && State() == Initial(Elements(jobs))
    {
      this.jobs := jobs;
      rows := map j | j in jobs :: Row(Pending, 0, None, "", 0.0, None, "");
      events, readings, accepted := [], [], [];
    }

    /** The object over tables that exist already. */
    constructor Over(jobs: seq<JobId>, stored: Ledger)
      requires Distinct(jobs) && stored.rows.Keys == Elements(jobs)
      ensures this.jobs == jobs && Valid() && State() == stored
    {
      this.jobs := jobs;
      rows, events, readings, accepted := stored.rows, stored.events, [], [];
    }

    /** Opens the database of a study: a new one starts with every job pending, an existing one is continued as it is, and
        only under the manifest and the jobs it was created with. The job list stands for the manifest. */
    static method Open(jobs: seq<JobId>, stored: Option<(seq<JobId>, Ledger)>) returns (r: Outcome<RunLedger, LedgerError>)
      requires Distinct(jobs)
      ensures r == Raised(ManifestDiffers) <==> stored.Some? && stored.value.0 != jobs
      ensures r == Raised(MembershipDiffers) <==>
        stored.Some? && stored.value.0 == jobs && stored.value.1.rows.Keys != Elements(jobs)
      ensures r.Raised? ==> r.error.ManifestDiffers? || r.error.MembershipDiffers?
      ensures r.Returned? ==>
        && fresh(r.value) && r.value.jobs == jobs && r.value.Valid()
        && r.value.State() == if stored.Some? then stored.value.1 else Initial(Elements(jobs))
    {
      if stored.None? {
        var created := new RunLedger(jobs);
        return Returned(created);
      }
      var (manifest, tables) := stored.value;
      if manifest != jobs { return Raised(ManifestDiffers); }
      if tables.rows.Keys != set job | job in jobs { return Raised(MembershipDiffers); }
      var continued := new RunLedger.Over(jobs, tables);
      r := Returned(continued);
    }

    ghost predicate Valid()
      reads this
    {
      Distinct(jobs) && rows.Keys == Elements(jobs)
    }

    function State(): Ledger
      reads this
    {
      Ledger(rows, events)
    }

    /** Any number of transactions by other workers. */
    method OtherWorkers()
      requires Valid()
      modifies this`rows, this`events
      ensures Valid() && Reaches(old(State()), State())
    {
      hide Apply, Admissible, AllAdmissible, Run;
      ReachesItself(State());
      var n: int := *;
      for i := 0 to if n < 0 then 0 else n
        invariant Valid() && Reaches(old(State()), State())
      {
        var op: Op := *;
        if Admissible(State(), op) {
          ReachesStep(old(State()), State(), op);
          KeysStay(State(), op);
          var after := Apply(State(), op);
          rows, events := after.rows, after.events;
        }
      }
    }

    static lemma KeysStay(l: Ledger, op: Op)
      ensures Apply(l, op).rows.Keys == l.rows.Keys
    {
    }

    /** Reads a result file and its evidence; what it finds depends on the file system. */
    method VerifyResult(job: JobId, path: string) returns (r: Outcome<Verification, LedgerError>)
      modifies this`accepted
      ensures r.Raised? ==> r.error == Unverified && accepted == old(accepted)
      ensures r.Returned? ==> r.value.path == path && accepted == old(accepted) + [(job, r.value)]
    {
      var sound: bool := *;
      var digest: string := *;
      if !sound { return Raised(Unverified); }
      accepted := accepted + [(job, Verification(path, digest))];
      r := Returned(Verification(path, digest));
    }

    method ClaimJob(job: JobId, owner: string, token: Token, now: real) returns (r: Outcome<bool, LedgerError>)
      requires Valid() && !Minted(events, token)
      modifies this`rows, this`events
      ensures Valid()
      ensures r == (if owner == "" then Raised(NoOwner) else if job !in old(rows) then Raised(UnknownJob)
                    else Returned(old(rows)[job].state == Pending))
      ensures State() == if r.Returned? then Apply(old(State()), Claim(job, owner, token, now)) else old(State())
      ensures r == Returned(true) ==>
        && rows[job].state == Running && rows[job].token == Some(token) && rows[job].owner == owner
        && rows[job].heartbeat == now && rows[job].attempts == old(rows)[job].attempts + 1
        && events == old(events) + [Event(job, Claimed(owner, token))]
      ensures r != Returned(true) ==> State() == old(State())
    {
      if owner == "" { return Raised(NoOwner); }
      if job !in rows { return Raised(UnknownJob); }
      if rows[job].state != Pending { return Returned(false); }
      var row := rows[job];
      rows := rows[job := row.(state := Running, attempts := row.attempts + 1, token := Some(token), owner := owner,
                               heartbeat := now, error := "")];
      events := events + [Event(job, Claimed(owner, token))];
      r := Returned(true);
    }

    method Heartbeat(job: JobId, token: Token, now: real) returns (r: Outcome<(), LedgerError>)
      requires Valid()
      modifies this`rows
      ensures Valid()
      ensures r == if Owns(old(State()), job, token) then Returned(()) else Raised(NotOwned)
      ensures State() == Apply(old(State()), Beat(job, token, now))
      ensures r.Returned? ==> job in rows && rows[job].heartbeat == now && rows == old(rows)[job := rows[job]]
    {
      if !(job in rows && rows[job].state == Running && rows[job].token == Some(token)) { return Raised(NotOwned); }
      rows := rows[job := rows[job].(heartbeat := now)];
      assert events + [] == events;
      r := Returned(());
    }

    /** The common end of an attempt, in one transaction. */
    method Finish(job: JobId, token: Token, op: Op) returns (r: Outcome<(), LedgerError>)
      requires Valid() && (op.Succeed? || op.Fail?) && op.job == job && op.token == token
      modifies this`rows, this`events
      ensures Valid()
      ensures r == if Owns(old(State()), job, token) then Returned(()) else Raised(NotOwned)
      ensures State() == Apply(old(State()), op)
    {
      if !(job in rows && rows[job].state == Running && rows[job].token == Some(token)) { return Raised(NotOwned); }
      var row := rows[job];
      if op.Succeed? {
        rows := rows[job := row.(state := Succeeded, result := Some(op.verified), error := "")];
        events := events + [Event(job, Finished(token, op.verified))];
      } else {
        rows := rows[job := row.(state := Failed, result := None, error := op.failure.error)];
        events := events + [Event(job, Stopped(token, op.failure))];
      }
      r := Returned(());
    }

    /** Verification comes first, outside the transaction; only the owner at that later moment can record it. */
    method SucceedJob(job: JobId, token: Token, path: string) returns (r: Outcome<Verification, LedgerError>)
      requires Valid()
      modifies this`rows, this`events, this`accepted
      ensures Valid() && Reaches(old(State()), State())
      ensures job !in jobs ==> r == Raised(UnknownJob) && State() == old(State())
      ensures r.Returned? ==>
        && job in rows && rows[job].state == Succeeded && rows[job].token == Some(token) && rows[job].result == Some(r.value)
        && events != [] && Last(events) == Event(job, Finished(token, r.value))
        && r.value.path == path && accepted == old(accepted) + [(job, r.value)]
    {
      hide Reaches, Minted;
      ReachesItself(State());
      if job !in jobs { return Raised(UnknownJob); }
      var v :- VerifyResult(job, path);
      OtherWorkers();
      ReachesStep(old(State()), State(), Succeed(job, token, v));
      var done :- Finish(job, token, Succeed(job, token, v));
      r := Returned(v);
    }

    method FailJob(job: JobId, token: Token, failure: Failure, executionStopped: bool) returns (r: Outcome<(), LedgerError>)
      requires Valid()
      modifies this`rows, this`events
      ensures Valid()
      ensures !executionStopped || failure.error == "" ==> r == Raised(NoStopEvidence)
      ensures executionStopped && failure.error != "" ==>
        r == if failure.costs.Some? && exists name :: name in failure.costs.value && failure.costs.value[name] < 0.0
             then Raised(BadCosts)
             else if Owns(old(State()), job, token) then Returned(()) else Raised(NotOwned)
      ensures State() == if r.Returned? then Apply(old(State()), Op.Fail(job, token, failure)) else old(State())
    {
      if !executionStopped || failure.error == "" { return Raised(NoStopEvidence); }
      if !CostsValid(failure.costs) { return Raised(BadCosts); }
      r := Finish(job, token, Op.Fail(job, token, failure));
    }

    static function Quarantines(before: map<JobId, Row>, marked: seq<JobId>): seq<Event> {
      seq(|marked|, i requires 0 <= i < |marked| =>
        Event(marked[i], Quarantined(if marked[i] in before then before[marked[i]].token else None)))
    }

    /** `now` is `before` with the marked jobs quarantined, in that order. */
    static ghost predicate MarkedSince(before: Ledger, now: Ledger, marked: seq<JobId>) {
      && Reaches(before, now) && Distinct(marked) && now.rows.Keys == before.rows.Keys
      && (forall job :: job in now.rows ==>
            now.rows[job] == if job in marked then before.rows[job].(state := Orphaned) else before.rows[job])
      && now.events == before.events + Quarantines(before.rows, marked)
    }

    static lemma NoneMarked(l: Ledger)
      ensures MarkedSince(l, l, [])
    {
      ReachesItself(l);
      assert l.events + Quarantines(l.rows, []) == l.events;
    }

    static lemma MarkOne(before: Ledger, now: Ledger, marked: seq<JobId>, job: JobId, staleBefore: real)
      requires MarkedSince(before, now, marked) && job in before.rows && job !in marked
      requires before.rows[job].state == Running && before.rows[job].heartbeat < staleBefore
      ensures MarkedSince(before, Apply(now, Orphan(job, staleBefore)), marked + [job])
    {
      hide Reaches;
      ReachesStep(before, now, Orphan(job, staleBefore));
      DistinctAppend(marked, [job]);
      assert Quarantines(before.rows, marked + [job])
          == Quarantines(before.rows, marked) + [Event(job, Quarantined(now.rows[job].token))];
    }

    predicate Stale(row: Row, staleBefore: real) { row.state == Running && row.heartbeat < staleBefore }

    /** Quarantines every running job whose heartbeat is older, and nothing else. */
    method MarkOrphaned(staleBefore: real) returns (marked: seq<JobId>)
      requires Valid()
      modifies this`rows, this`events
      ensures Valid() && Reaches(old(State()), State())
      ensures Distinct(marked) && forall job :: job in marked <==> job in old(rows) && Stale(old(rows)[job], staleBefore)
      ensures forall job :: job in rows ==>
        rows[job] == if job in marked then old(rows)[job].(state := Orphaned) else old(rows)[job]
      ensures events == old(events) + Quarantines(old(rows), marked)
    {
      hide MarkedSince;
      marked := [];
      NoneMarked(State());
      var stale := set job | job in rows && Stale(rows[job], staleBefore);
      var todo := stale;
      while todo != {}
        invariant Valid() && todo <= stale && MarkedSince(old(State()), State(), marked)
        invariant forall job :: job in marked <==> job in stale - todo
        decreases |todo|
      {
        var job :| job in todo;
        MarkOne(old(State()), State(), marked, job, staleBefore);
        MarkFacts(old(State()), State(), marked, job);
        events := events + [Event(job, Quarantined(rows[job].token))];
        rows := rows[job := rows[job].(state := Orphaned)];
        marked, todo := marked + [job], todo - {job};
      }
      MarkedAre(old(State()), State(), marked);
    }

    static lemma MarkFacts(before: Ledger, now: Ledger, marked: seq<JobId>, job: JobId)
      requires MarkedSince(before, now, marked) && job in before.rows && job !in marked
      ensures job in now.rows && now.rows[job] == before.rows[job]
    {
    }

    static lemma MarkedAre(before: Ledger, now: Ledger, marked: seq<JobId>)
      requires MarkedSince(before, now, marked)
      ensures Reaches(before, now) && Distinct(marked) && now.rows.Keys == before.rows.Keys
      ensures forall job :: job in now.rows ==>
        now.rows[job] == if job in marked then before.rows[job].(state := Orphaned) else before.rows[job]
      ensures now.events == before.events + Quarantines(before.rows, marked)
    {
      hide Reaches, Quarantines;
    }

    /** Resolves an orphan; a result file makes it a success only after verification. */
    method ReconcileJob(job: JobId, evidence: string, executionStopped: bool, path: Option<string>)
      returns (r: Outcome<(), LedgerError>)
      requires Valid()
      modifies this`rows, this`events, this`accepted
      ensures Valid() && Reaches(old(State()), State())
      ensures !executionStopped || evidence == "" ==> r == Raised(NoStopEvidence) && State() == old(State())
      ensures r.Returned? ==>
        && job in rows && events != [] && Last(events).job == job && Last(events).kind.Reconciled?
        && rows[job].state == (if path.Some? then Succeeded else Failed)
        && (path.Some? <==> Last(events).kind.outcome.Some?) && rows[job].result == Last(events).kind.outcome
        && (path.Some? ==> rows[job].result.value.path == path.value && accepted == old(accepted) + [(job, rows[job].result.value)])
    {
      hide Reaches, Minted;
      ReachesItself(State());
      if !executionStopped || evidence == "" { return Raised(NoStopEvidence); }
      var outcome: Option<Verification> := None;
      if path.Some? {
        if job !in jobs { return Raised(UnknownJob); }
        var v :- VerifyResult(job, path.value);
        outcome := Some(v);
      }
      OtherWorkers();
      if job !in rows { return Raised(UnknownJob); }
      if rows[job].state != Orphaned { return Raised(NotOrphaned); }
      ReachesStep(old(State()), State(), Reconcile(job, evidence, outcome));
      rows := rows[job := if outcome.Some? then rows[job].(state := Succeeded, result := outcome, error := "")
                          else rows[job].(state := Failed, result := None, error := evidence)];
      events := events + [Event(job, Reconciled(evidence, outcome))];
      r := Returned(());
    }

    method RetryFailed(job: JobId, evidence: string, previousAttemptsAccounted: bool) returns (r: Outcome<(), LedgerError>)
      requires Valid()
      modifies this`rows, this`events
      ensures Valid()
      ensures r == (if evidence == "" || !previousAttemptsAccounted then Raised(NoStopEvidence)
                    else if job !in old(rows) then Raised(UnknownJob)
                    else if old(rows)[job].state != Failed then Raised(NotFailed) else Returned(()))
      ensures State() == if r.Returned? then Apply(old(State()), Retry(job, evidence)) else old(State())
    {
      if evidence == "" || !previousAttemptsAccounted { return Raised(NoStopEvidence); }
      if job !in rows { return Raised(UnknownJob); }
      if rows[job].state != Failed { return Raised(NotFailed); }
      rows := rows[job := rows[job].(state := Pending)];
      events := events + [Event(job, RetryAuthorized(evidence))];
      r := Returned(());
    }

    /** Quarantines a success whose file no longer verifies, unless another worker moved it first. */
    method DistrustJob(job: JobId)
      requires Valid() && job in rows
      modifies this`rows, this`events
      ensures Valid() && Reaches(old(State()), State())
      ensures if old(rows)[job].state == Succeeded
              then rows[job].state == Orphaned && events != [] && Last(events).job == job && Last(events).kind.VerificationFailed?
              else State() == old(State())
    {
      hide Reaches, Minted;
      ReachesItself(State());
      var reason: string := *;
      if rows[job].state == Succeeded {
        ReachesStep(old(State()), State(), Distrust(job, reason));
        rows := rows[job := rows[job].(state := Orphaned, error := reason)];
        events := events + [Event(job, VerificationFailed(reason))];
      }
    }

    /** Which list a job in that state goes to. */
    static function File(plan: ResumePlan, job: JobId, state: JobState): ResumePlan {
      match state
      case Pending => plan.(runnable := plan.runnable + [job])
      case Succeeded => plan.(skipVerified := plan.skipVerified + [job])
      case Running => plan.(running := plan.running + [job])
      case Failed => plan.(failed := plan.failed + [job])
      case Orphaned => plan.(orphaned := plan.orphaned + [job])
    }

    static function FileAll(readings: seq<(JobId, Row)>): ResumePlan {
      if readings == [] then ResumePlan([], [], [], [], [])
      else
        var last := readings[|readings| - 1];
        File(FileAll(readings[..|readings| - 1]), last.0, last.1.state)
    }

    static lemma FileAllStep(before: seq<(JobId, Row)>, job: JobId, row: Row, start: nat)
      requires start <= |before|
      ensures FileAll((before + [(job, row)])[start..]) == File(FileAll(before[start..]), job, row.state)
    {
      hide File;
      var after := (before + [(job, row)])[start..];
      assert after[..|after| - 1] == before[start..];
    }

    /** What a refused verification leaves: nothing was accepted, or a file with another digest than the recorded one. */
    static ghost predicate Refused(before: seq<(JobId, Verification)>, after: seq<(JobId, Verification)>, job: JobId, row: Row) {
      || after == before
      || exists v :: after == before + [(job, v)] && (row.result.None? || v.digest != row.result.value.digest)
    }

    /** Verifies a recorded success again; it is refused when the file does not verify or has another digest. */
    method Reverify(job: JobId, row: Row) returns (sound: bool)
      modifies this`accepted
      ensures sound ==> row.result.Some? && accepted == old(accepted) + [(job, row.result.value)]
      ensures !sound ==> Refused(old(accepted), accepted, job, row)
    {
      var path := if row.result.Some? then row.result.value.path else "";
      var v := VerifyResult(job, path);
      sound := v.Returned? && row.result.Some? && v.value.digest == row.result.value.digest;
    }

    /** One manifest job: a success is verified again with the recorded digest, and quarantined if that is refused. It
        raises exactly when it was refused and the last re-reading finds a success again: the plan has no list for it. */
    method ReviewJob(job: JobId) returns (r: Outcome<JobState, LedgerError>, ghost refused: bool)
      requires Valid() && job in rows
      modifies this
      ensures Valid() && Reaches(old(State()), State()) && old(accepted) <= accepted && old(events) <= events && job in rows
      ensures refused ==> old(rows)[job].state == Succeeded && Refused(old(accepted), accepted, job, old(rows)[job])
      ensures r == if refused && rows[job].state == Succeeded then Raised(UnplannedState) else Returned(rows[job].state)
      ensures r.Raised? ==> SuccessSince(events, |old(events)|, job)
      ensures readings == if r.Returned? then old(readings) + [(job, rows[job])] else old(readings)
      ensures !refused ==> State() == old(State())
      ensures r == Returned(Succeeded) ==> rows[job].result.Some? && accepted == old(accepted) + [(job, rows[job].result.value)]
    {
      hide Reaches, Minted, SuccessSince;
      ReachesItself(State());
      refused := false;
      if rows[job].state == Succeeded {
        var sound := Reverify(job, rows[job]);
        if !sound {
          refused := true;
          Quarantine(job);
          if rows[job].state == Succeeded {
            r := Raised(UnplannedState);
            return;
          }
        }
      }
      readings := readings + [(job, rows[job])];
      r := Returned(rows[job].state);
    }

    /** Distrusts a success; other workers act before the transaction and before the row is read again. */
    method Quarantine(job: JobId)
      requires Valid() && job in rows
      modifies this`rows, this`events
      ensures Valid() && Reaches(old(State()), State()) && old(events) <= events && job in rows
      ensures rows[job].state == Succeeded ==> SuccessSince(events, |old(events)|, job)
    {
      hide Reaches, Minted, SuccessSince;
      OtherWorkers();
      ReachesRecords(old(State()), State(), job);
      label Then:
      DistrustJob(job);
      ReachesRecords(old@Then(State()), State(), job);
      ReachesOn(old(State()), old@Then(State()), State());
      label Afterwards:
      OtherWorkers();
      ReachesRecords(old@Afterwards(State()), State(), job);
      ReachesOn(old(State()), old@Afterwards(State()), State());
      if rows[job].state == Succeeded { SinceEarlier(events, |old@Afterwards(events)|, |old(events)|, job); }
    }

    static lemma SinceEarlier(events: seq<Event>, later: nat, earlier: nat, job: JobId)
      requires SuccessSince(events, later, job) && earlier <= later
      ensures SuccessSince(events, earlier, job)
    {
      var i :| later <= i < |events| && RecordsSuccess(events[i], job);
      assert earlier <= i < |events| && RecordsSuccess(events[i], job);
    }

    /** Every reading of a success was verified again, with the digest on record. */
    static ghost predicate SkipsAccepted(readings: seq<(JobId, Row)>, accepted: seq<(JobId, Verification)>) {
      forall i :: 0 <= i < |readings| && readings[i].1.state == Succeeded ==>
        readings[i].1.result.Some? && (readings[i].0, readings[i].1.result.value) in accepted
    }

    static lemma SkipsStayAccepted(readings: seq<(JobId, Row)>, job: JobId, row: Row,
                                   before: seq<(JobId, Verification)>, after: seq<(JobId, Verification)>, start: nat, from: nat)
      requires start <= |before| && before <= after && from <= |readings| && SkipsAccepted(readings[from..], before[start..])
      requires row.state == Succeeded ==> row.result.Some? && after == before + [(job, row.result.value)]
      ensures SkipsAccepted((readings + [(job, row)])[from..], after[start..])
    {
      assert (readings + [(job, row)])[from..] == readings[from..] + [(job, row)];
      assert after[start..] == before[start..] + after[|before|..];
    }

    /** A plan for these jobs: filed by the readings, every skipped one accepted again. */
    static ghost predicate PlanFor(plan: ResumePlan, jobs: seq<JobId>, readings: seq<(JobId, Row)>,
                                   accepted: seq<(JobId, Verification)>) {
      plan == FileAll(readings) && Names(readings) == jobs && SkipsAccepted(readings, accepted)
    }

    static lemma NoPlanYet(readings: seq<(JobId, Row)>, accepted: seq<(JobId, Verification)>)
      ensures PlanFor(ResumePlan([], [], [], [], []), [], readings[|readings|..], accepted[|accepted|..])
    {
    }

    static lemma PlanGrows(plan: ResumePlan, jobs: seq<JobId>, readings: seq<(JobId, Row)>, from: nat, job: JobId, row: Row,
                           before: seq<(JobId, Verification)>, after: seq<(JobId, Verification)>, start: nat)
      requires start <= |before| && before <= after && from <= |readings|
      requires PlanFor(plan, jobs, readings[from..], before[start..])
      requires row.state == Succeeded ==> row.result.Some? && after == before + [(job, row.result.value)]
      ensures PlanFor(File(plan, job, row.state), jobs + [job], (readings + [(job, row)])[from..], after[start..])
    {
      hide File, FileAll, SkipsAccepted;
      SkipsStayAccepted(readings, job, row, before, after, start, from);
      FileAllStep(readings, job, row, from);
      assert (readings + [(job, row)])[from..] == readings[from..] + [(job, row)];
      assert Names(readings[from..] + [(job, row)]) == Names(readings[from..]) + [job];
    }

    /** Reviews a job, after which other workers act; `row` is the row as it was last read. */
    method ReviewAmidOthers(job: JobId) returns (r: Outcome<JobState, LedgerError>, ghost row: Row)
      requires Valid() && job in rows
      modifies this
      ensures Valid() && Reaches(old(State()), State()) && old(accepted) <= accepted && old(events) <= events && job in rows
      ensures r.Raised? ==> r.error == UnplannedState && SuccessSince(events, |old(events)|, job)
      ensures r.Returned? ==> r.value == row.state
      ensures readings == if r.Returned? then old(readings) + [(job, row)] else old(readings)
      ensures r == Returned(Succeeded) ==> row.result.Some? && accepted == old(accepted) + [(job, row.result.value)]
    {
      hide Reaches, Minted, SuccessSince, Refused;
      ghost var refused;
      r, refused := ReviewJob(job);
      row := rows[job];
      if r.Raised? { return; }
      label Between:
      OtherWorkers();
      ReachesRecords(old@Between(State()), State(), job);
      ReachesOn(old(State()), old@Between(State()), State());
    }

    /** Files every manifest job once, in manifest order, by the row last read; other workers act in between. A plan is
        returned unless some other worker recorded a success meanwhile. */
    method Resume() returns (r: Outcome<ResumePlan, LedgerError>)
      requires Valid()
      modifies this
      ensures Valid() && Reaches(old(State()), State()) && old(events) <= events
      ensures old(readings) <= readings && old(accepted) <= accepted
      ensures r.Returned? ==> PlanFor(r.value, jobs, readings[|old(readings)|..], accepted[|old(accepted)|..])
      ensures r.Raised? ==> r.error == UnplannedState && exists job :: job in jobs && SuccessSince(events, |old(events)|, job)
      ensures (forall e, job :: e in events[|old(events)|..] ==> !RecordsSuccess(e, job)) ==> r.Returned?
    {
      hide Reaches, Minted, File, PlanFor, SuccessSince, RecordsSuccess;
      ReachesItself(State());
      NoPlanYet(readings, accepted);
      var plan := ResumePlan([], [], [], [], []);
      ghost var start, known := |readings|, |accepted|;
      for i := 0 to |jobs|
        invariant Valid() && Reaches(old(State()), State()) && old(events) <= events
        invariant old(readings) <= readings && old(accepted) <= accepted
        invariant PlanFor(plan, jobs[..i], readings[start..], accepted[known..])
      {
        var job := jobs[i];
        assert job in Elements(jobs) && jobs[..i + 1] == jobs[..i] + [job];
        ghost var middle, before, sure := State(), readings, accepted;
        var state;
        ghost var row;
        state, row := ReviewAmidOthers(job);
        ReachesOn(old(State()), middle, State());
        if state.Raised? {
          SinceEarlier(events, |middle.events|, |old(events)|, job);
          NotSilent(events, |old(events)|, job);
          return Raised(state.error);
        }
        PlanGrows(plan, jobs[..i], before, start, job, row, sure, accepted, known);
        plan := File(plan, job, state.value);
      }
      assert jobs[..|jobs|] == jobs;
      r := Returned(plan);
    }

    static lemma NotSilent(events: seq<Event>, from: nat, job: JobId)
      requires from <= |events| && SuccessSince(events, from, job)
      ensures exists e, other :: e in events[from..] && RecordsSuccess(e, other)
    {
      var i :| from <= i < |events| && RecordsSuccess(events[i], job);
      assert events[from..][i - from] == events[i];
    }

    /** The job was last read in that state, in some reading. */
    static predicate ReadAs(readings: seq<(JobId, Row)>, job: JobId, state: JobState) {
      exists i :: 0 <= i < |readings| && readings[i].0 == job && readings[i].1.state == state
    }

    static lemma ReadLast(readings: seq<(JobId, Row)>, job: JobId, state: JobState)
      requires readings != []
      ensures var n := |readings| - 1;
        ReadAs(readings, job, state) <==>
          ReadAs(readings[..n], job, state) || (readings[n].0 == job && readings[n].1.state == state)
    {
      var n := |readings| - 1;
      if i :| 0 <= i < n && readings[i].0 == job && readings[i].1.state == state { assert readings[..n][i] == readings[i]; }
      if i :| 0 <= i < n && readings[..n][i].0 == job && readings[..n][i].1.state == state { assert readings[..n][i] == readings[i]; }
    }

    /** The jobs a plan skips are those last read as successes, and so on for its other lists. */
    static lemma {:induction false} SkippedWereSuccesses(readings: seq<(JobId, Row)>, job: JobId)
      ensures job in FileAll(readings).skipVerified <==> ReadAs(readings, job, Succeeded)
      ensures job in FileAll(readings).runnable <==> ReadAs(readings, job, Pending)
      ensures job in FileAll(readings).running <==> ReadAs(readings, job, Running)
      ensures job in FileAll(readings).failed <==> ReadAs(readings, job, Failed)
      ensures job in FileAll(readings).orphaned <==> ReadAs(readings, job, Orphaned)
    {
      hide ReadAs;
      if readings == [] {
        NeverRead(job);
      } else {
        SkippedWereSuccesses(readings[..|readings| - 1], job);
        ReadLast(readings, job, Succeeded);
        ReadLast(readings, job, Pending);
        ReadLast(readings, job, Running);
        ReadLast(readings, job, Failed);
        ReadLast(readings, job, Orphaned);
      }
    }

    static lemma NeverRead(job: JobId)
      ensures forall state :: !ReadAs([], job, state)
    {
    }

    /** The lists of a plan hold each manifest job exactly once. */
    static lemma {:induction false} FiledOnce(readings: seq<(JobId, Row)>)
      ensures multiset(Filed(FileAll(readings))) == multiset(Names(readings))
    {
      hide File, Filed;
      if readings == [] {
        EmptyPlan();
      } else {
        var front, last := readings[..|readings| - 1], readings[|readings| - 1];
        FiledOnce(front);
        FileAdds(FileAll(front), last.0, last.1.state);
        assert Names(readings) == Names(front) + [last.0];
      }
    }

    static function Names(readings: seq<(JobId, Row)>): seq<JobId> {
      seq(|readings|, i requires 0 <= i < |readings| => readings[i].0)
    }

    static function Filed(plan: ResumePlan): seq<JobId> {
      plan.runnable + plan.skipVerified + plan.running + plan.failed + plan.orphaned
    }

    static lemma FileAdds(plan: ResumePlan, job: JobId, state: JobState)
      ensures multiset(Filed(File(plan, job, state))) == multiset(Filed(plan)) + multiset{job}
    {
    }

    static lemma EmptyPlan()
      ensures multiset(Filed(ResumePlan([], [], [], [], []))) == multiset{}
    {
    }
  }
}
