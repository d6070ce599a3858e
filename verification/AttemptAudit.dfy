/** The report's independent replay of the attempt log, and its agreement with the ledger. */
module AttemptAudit {
  import opened Wrappers
  import opened AttemptLedger
  import opened Counters

  datatype AuditError = NoDurableClaim | EvidenceChanged | InvalidCosts | CountsDisagree

  datatype FailedAttempt = FailedAttempt(job: JobId, attempt: Token, costs: Option<Costs>, known: bool, evidence: seq<string>)

  datatype Report = Report(claimed: nat, repeated: nat, failures: seq<FailedAttempt>, knownCosts: Costs, unknown: nat,
                           allAccounted: bool)

  function PhysicalKey(job: JobId): string {
    if Contains(job, "made") then "candidate_oracle_attempts" else "dft_episode_attempts"
  }

  function CostsOf(e: Event): Option<Costs> { if e.kind.Stopped? then e.kind.failure.costs else None }
  function ArtifactsOf(e: Event): seq<Artifact> { if e.kind.Stopped? then e.kind.failure.artifacts else [] }

  function EntryFor(e: Event, attempt: Token): FailedAttempt {
    var costs := CostsOf(e);
    FailedAttempt(e.job, attempt, costs, costs.Some? && PhysicalKey(e.job) in costs.value,
                  seq(|ArtifactsOf(e)|, i requires 0 <= i < |ArtifactsOf(e)| => ArtifactsOf(e)[i].path))
  }

  predicate SameAttempt(a: FailedAttempt, b: FailedAttempt) { a.job == b.job && a.attempt == b.attempt }

  /** A dictionary keyed by job and attempt, in insertion order: an equal key is overwritten in place. */
  function Put(entries: seq<FailedAttempt>, entry: FailedAttempt): seq<FailedAttempt> {
    if entries == [] then [entry]
    else if SameAttempt(entries[0], entry) then [entry] + entries[1..]
    else [entries[0]] + Put(entries[1..], entry)
  }

  predicate Intact(intact: Artifact -> bool, artifacts: seq<Artifact>) {
    forall i :: 0 <= i < |artifacts| ==> intact(artifacts[i])
  }

  /** What the replay has recorded behind the first `n` events, or the first refusal. */
  function Replay(events: seq<Event>, intact: Artifact -> bool): Outcome<seq<FailedAttempt>, AuditError> {
    if events == [] then Returned([])
    else
      var before, e := Replay(Front(events), intact), Last(events);
      if before.Raised? || !IsFailure(e) then before
      else if AttemptOf(Front(events), e).None? then Raised(NoDurableClaim)
      else if !Intact(intact, ArtifactsOf(e)) then Raised(EvidenceChanged)
      else if !CostsValid(CostsOf(e)) then Raised(InvalidCosts)
      else Returned(Put(before.value, EntryFor(e, AttemptOf(Front(events), e).value)))
  }

  lemma {:induction false} ReplayStaysRaised(events: seq<Event>, n: nat, intact: Artifact -> bool)
    requires n <= |events| && Replay(events[..n], intact).Raised?
    ensures Replay(events, intact) == Replay(events[..n], intact)
  {
    if n < |events| {
      assert Front(events)[..n] == events[..n];
      ReplayStaysRaised(Front(events), n, intact);
    } else {
      assert events[..n] == events;
    }
  }

  // ----- Costs -----

  function CostIn(c: Option<Costs>, name: string): real { if c.Some? && name in c.value then c.value[name] else 0.0 }

  function KnownCost(failures: seq<FailedAttempt>, name: string): real {
    if failures == [] then 0.0
    else KnownCost(failures[..|failures| - 1], name) + CostIn(failures[|failures| - 1].costs, name)
  }

  /** Python's Counter.update. */
  function Updated(known: Costs, costs: Costs): Costs {
    map name | name in known.Keys + costs.Keys :: (if name in known then known[name] else 0.0) + CostIn(Some(costs), name)
  }

  predicate Names(failures: seq<FailedAttempt>, name: string) {
    exists i :: 0 <= i < |failures| && failures[i].costs.Some? && name in failures[i].costs.value
  }

  method SumCosts(failures: seq<FailedAttempt>) returns (known: Costs)
    ensures forall name :: (if name in known then known[name] else 0.0) == KnownCost(failures, name)
    ensures forall name :: name in known <==> Names(failures, name)
  {
    known := map[];
    assert failures[..0] == [];
    for i := 0 to |failures|
      invariant forall name :: (if name in known then known[name] else 0.0) == KnownCost(failures[..i], name)
      invariant forall name :: name in known <==> Names(failures[..i], name)
    {
      NamesStep(failures, i);
      assert failures[..i + 1][..i] == failures[..i];
      var costs := failures[i].costs;
      if costs.Some? { known := Updated(known, costs.value); }
    }
    assert failures[..|failures|] == failures;
  }

  lemma NamesStep(failures: seq<FailedAttempt>, i: nat)
    requires i < |failures|
    ensures forall name :: Names(failures[..i + 1], name) <==>
      Names(failures[..i], name) || (failures[i].costs.Some? && name in failures[i].costs.value)
  {
    var more := failures[..i + 1];
    assert more[..i] == failures[..i] && more[i] == failures[i];
    forall name | Names(failures[..i], name) ensures Names(more, name) {
      var k :| 0 <= k < i && failures[..i][k].costs.Some? && name in failures[..i][k].costs.value;
      assert more[k] == failures[..i][k];
    }
  }

  function Unknown(failures: seq<FailedAttempt>): nat {
    if failures == [] then 0
    else Unknown(failures[..|failures| - 1]) + if failures[|failures| - 1].known then 0 else 1
  }

  method CountUnknown(failures: seq<FailedAttempt>) returns (n: nat)
    ensures n == Unknown(failures)
  {
    n := 0;
    for i := 0 to |failures|
      invariant n == Unknown(failures[..i])
    {
      assert failures[..i + 1][..i] == failures[..i];
      if !failures[i].known { n := n + 1; }
    }
    assert failures[..|failures|] == failures;
  }

  // ----- The replay -----

  function Repeated(events: seq<Event>): set<JobId> { set e | e in events && Claims(events, e.job) > 1 :: e.job }

  lemma {:induction false} ClaimedJob(events: seq<Event>, job: JobId)
    requires Claims(events, job) > 0
    ensures exists e :: e in events && e.job == job
  {
    if IsClaim(Last(events)) && Last(events).job == job {
      assert Last(events) in events;
    } else {
      ClaimedJob(Front(events), job);
      var e :| e in Front(events) && e.job == job;
      assert e in events;
    }
  }

  /** The counter's keys above one are the jobs claimed more than once. */
  lemma RepeatedKeys(events: seq<Event>, claims: map<JobId, nat>)
    requires forall job :: Count(claims, job) == Claims(events, job)
    ensures (set job | job in claims && claims[job] > 1) == Repeated(events)
  {
    forall job | job in claims && claims[job] > 1 ensures job in Repeated(events) {
      assert Count(claims, job) > 1;
      ClaimedJob(events, job);
    }
    forall job | job in Repeated(events) ensures job in claims && claims[job] > 1 {
      assert Count(claims, job) > 1;
    }
  }

  method AuditAttemptHistory(events: seq<Event>, attempts: map<JobId, nat>, intact: Artifact -> bool)
    returns (r: Outcome<Report, AuditError>)
    ensures r.Raised? <==>
      Replay(events, intact).Raised? || exists job :: job in attempts && Claims(events, job) != attempts[job]
    ensures r.Raised? ==> r.error == if Replay(events, intact).Raised? then Replay(events, intact).error else CountsDisagree
    ensures r.Returned? ==>
      && r.value.failures == Replay(events, intact).value
      && r.value.claimed == TotalClaims(events) && r.value.repeated == |Repeated(events)|
      && (forall name :: name in r.value.knownCosts <==> Names(r.value.failures, name))
      && (forall name :: name in r.value.knownCosts ==> r.value.knownCosts[name] == KnownCost(r.value.failures, name))
      && r.value.unknown == Unknown(r.value.failures)
      && (r.value.allAccounted <==> forall i :: 0 <= i < |r.value.failures| ==> r.value.failures[i].known)
  {
    hide CostsValid, Intact, PhysicalKey, Put;
    var active: map<JobId, Token>, claims: map<JobId, nat>, failures: seq<FailedAttempt> := map[], map[], [];
    for i := 0 to |events|
      invariant forall job :: (if job in active then Some(active[job]) else None) == LastClaim(events[..i], job)
      invariant forall job :: Count(claims, job) == Claims(events[..i], job)
      invariant Total(claims) == TotalClaims(events[..i])
      invariant Replay(events[..i], intact) == Returned(failures)
    {
      var e := events[i];
      assert Front(events[..i + 1]) == events[..i] && Last(events[..i + 1]) == e;
      if e.kind.Claimed? {
        BumpTotal(claims, e.job);
        active := active[e.job := e.kind.token];
        claims := Bump(claims, e.job);
      }
      if IsFailure(e) {
        var attempt := if e.kind.Stopped? then Some(e.kind.token) else if e.job in active then Some(active[e.job]) else None;
        ReplayFailureStep(events, i, intact);
        if attempt.None? { return Raised(NoDurableClaim); }
        if !Intact(intact, ArtifactsOf(e)) { return Raised(EvidenceChanged); }
        if !CostsValid(CostsOf(e)) { return Raised(InvalidCosts); }
        failures := Put(failures, EntryFor(e, attempt.value));
      }
    }
    assert events[..|events|] == events;
    if exists job :: job in attempts && Count(claims, job) != attempts[job] { return Raised(CountsDisagree); }
    RepeatedKeys(events, claims);
    var total := SumValues(claims);
    var known := SumCosts(failures);
    var unknown := CountUnknown(failures);
    r := Returned(Report(total, |set job | job in claims && claims[job] > 1|, failures, known, unknown,
                         forall i :: 0 <= i < |failures| ==> failures[i].known));
  }

  lemma ReplayFailureStep(events: seq<Event>, i: nat, intact: Artifact -> bool)
    requires i < |events| && Replay(events[..i], intact).Returned? && IsFailure(events[i])
    ensures var attempt := AttemptOf(events[..i], events[i]);
      Replay(events[..i + 1], intact)
      == if attempt.None? then Raised(NoDurableClaim)
         else if !Intact(intact, ArtifactsOf(events[i])) then Raised(EvidenceChanged)
         else if !CostsValid(CostsOf(events[i])) then Raised(InvalidCosts)
         else Returned(Put(Replay(events[..i], intact).value, EntryFor(events[i], attempt.value)))
    ensures Replay(events[..i + 1], intact).Raised? ==> Replay(events, intact) == Replay(events[..i + 1], intact)
  {
    assert Front(events[..i + 1]) == events[..i];
    if Replay(events[..i + 1], intact).Raised? { ReplayStaysRaised(events, i + 1, intact); }
  }

  // ----- Agreement with the ledger -----

  function AttemptKeys(failures: seq<FailedAttempt>): seq<(JobId, Option<Token>)> {
    seq(|failures|, i requires 0 <= i < |failures| => (failures[i].job, Some(failures[i].attempt)))
  }

  lemma {:induction false} PutNew(entries: seq<FailedAttempt>, entry: FailedAttempt)
    requires (entry.job, Some(entry.attempt)) !in AttemptKeys(entries)
    ensures Put(entries, entry) == entries + [entry]
  {
    if entries != [] {
      assert AttemptKeys(entries)[0] in AttemptKeys(entries);
      assert AttemptKeys(entries) == [AttemptKeys(entries)[0]] + AttemptKeys(entries[1..]);
      PutNew(entries[1..], entry);
    }
  }

  /** Every evidence file that a stopped attempt recorded still has its digest. */
  ghost predicate EvidenceIntact(events: seq<Event>, intact: Artifact -> bool) {
    forall i, artifact :: 0 <= i < |events| && events[i].kind.Stopped? && artifact in events[i].kind.failure.artifacts ==>
      intact(artifact)
  }

  ghost predicate LogSound(events: seq<Event>) {
    && (forall i :: 0 <= i < |events| && events[i].kind.Stopped? ==> CostsValid(events[i].kind.failure.costs))
    && Distinct(FailedAttempts(events))
    && (forall k :: k in FailedAttempts(events) ==> k.1.Some?)
  }

  lemma LogSoundFront(events: seq<Event>)
    requires events != [] && LogSound(events)
    ensures LogSound(Front(events)) && FailedAttempts(events)[..|FailedAttempts(Front(events))|] == FailedAttempts(Front(events))
    ensures IsFailure(Last(events)) ==>
      var key := (Last(events).job, AttemptOf(Front(events), Last(events)));
      key.1.Some? && key !in FailedAttempts(Front(events))
  {
    var before, all := FailedAttempts(Front(events)), FailedAttempts(events);
    forall k | k in before ensures k.1.Some? { assert k in all; }
    forall i, j | 0 <= i < j < |before| ensures before[i] != before[j] { assert all[i] == before[i] && all[j] == before[j]; }
    if IsFailure(Last(events)) {
      var key := (Last(events).job, AttemptOf(Front(events), Last(events)));
      assert all == before + [key] && all[|before|] == key && key in all;
      forall i | 0 <= i < |before| ensures before[i] != key { assert all[i] == before[i]; }
    }
  }

  /** On a sound log with intact evidence the replay records one entry per failed attempt, none overwritten. */
  lemma {:induction false} ReplayIsComplete(events: seq<Event>, intact: Artifact -> bool)
    requires LogSound(events)
    ensures Replay(events, intact).Returned? <==> EvidenceIntact(events, intact)
    ensures Replay(events, intact).Raised? ==> Replay(events, intact).error == EvidenceChanged
    ensures Replay(events, intact).Returned? ==> AttemptKeys(Replay(events, intact).value) == FailedAttempts(events)
  {
    hide Intact, CostsValid, LogSound, EntryFor, LastClaim;
    if events != [] {
      LogSoundFront(events);
      ReplayIsComplete(Front(events), intact);
      var e := Last(events);
      LastCosts(events);
      assert EvidenceIntact(events, intact) <==>
        EvidenceIntact(Front(events), intact) && (IsFailure(e) ==> Intact(intact, ArtifactsOf(e)))
      by { EvidenceStep(events, intact); }
      if Replay(events, intact).Returned? && IsFailure(e) {
        var before, entry := Replay(Front(events), intact).value, EntryFor(e, AttemptOf(Front(events), e).value);
        EntryKey(e, AttemptOf(Front(events), e).value);
        PutNew(before, entry);
        assert AttemptKeys(before + [entry]) == AttemptKeys(before) + [(entry.job, Some(entry.attempt))];
      }
    }
  }

  lemma EntryKey(e: Event, attempt: Token)
    ensures EntryFor(e, attempt).job == e.job && EntryFor(e, attempt).attempt == attempt
  {
  }

  lemma LastCosts(events: seq<Event>)
    requires events != [] && LogSound(events)
    ensures CostsValid(CostsOf(Last(events)))
  {
    hide Distinct, FailedAttempts;
    assert events[|events| - 1] == Last(events);
  }

  lemma EvidenceStep(events: seq<Event>, intact: Artifact -> bool)
    requires events != []
    ensures EvidenceIntact(events, intact) <==>
      EvidenceIntact(Front(events), intact) && (IsFailure(Last(events)) ==> Intact(intact, ArtifactsOf(Last(events))))
  {
    var e := Last(events);
    assert events == Front(events) + [e];
    if EvidenceIntact(events, intact) {
      forall i, artifact | 0 <= i < |Front(events)| && Front(events)[i].kind.Stopped?
        && artifact in Front(events)[i].kind.failure.artifacts
        ensures intact(artifact)
      {
        assert events[i] == Front(events)[i];
      }
      forall k | 0 <= k < |ArtifactsOf(e)| ensures intact(ArtifactsOf(e)[k]) {
        assert events[|events| - 1] == e && ArtifactsOf(e)[k] in ArtifactsOf(e);
      }
    }
  }

  function AttemptNumbers(l: Ledger): map<JobId, nat> { map job | job in l.rows :: l.rows[job].attempts }

  /** In every reachable interleaving the auditor finds the claims it expects: it refuses only changed evidence files. */
  lemma AuditorAgrees(l: Ledger, intact: Artifact -> bool)
    requires Conserved(l)
    ensures Replay(l.events, intact).Returned? <==> EvidenceIntact(l.events, intact)
    ensures Replay(l.events, intact).Raised? ==> Replay(l.events, intact).error == EvidenceChanged
    ensures forall job :: job in AttemptNumbers(l) ==> Claims(l.events, job) == AttemptNumbers(l)[job]
    ensures Replay(l.events, intact).Returned? ==>
      TotalClaims(l.events) == |Replay(l.events, intact).value| + |LiveJobs(l.rows)|
  {
    hide Claims, Replay, FailedAttempts, CostsValid, TotalClaims, EvidenceIntact;
    assert LogSound(l.events);
    ReplayIsComplete(l.events, intact);
    forall job | job in l.rows ensures Claims(l.events, job) == l.rows[job].attempts {
      assert RowConserved(job, l.rows[job], l.events);
    }
  }

  /** So it is for every study, from its first transaction on. */
  lemma StudyAudits(jobs: set<JobId>, ops: seq<Op>, intact: Artifact -> bool)
    requires AllAdmissible(Initial(jobs), ops)
    ensures var l := Run(Initial(jobs), ops);
      && (Replay(l.events, intact).Returned? <==> EvidenceIntact(l.events, intact))
      && (forall job :: job in l.rows ==> Claims(l.events, job) == l.rows[job].attempts)
      && (Replay(l.events, intact).Returned? ==>
            TotalClaims(l.events) == |Replay(l.events, intact).value| + |LiveJobs(l.rows)|)
  {
    hide Conserved, Run, AllAdmissible, Replay, EvidenceIntact, Claims, TotalClaims;
    StudyConserves(jobs, ops);
    AuditorAgrees(Run(Initial(jobs), ops), intact);
    var l := Run(Initial(jobs), ops);
    forall job | job in l.rows ensures Claims(l.events, job) == l.rows[job].attempts {
      assert job in AttemptNumbers(l);
    }
  }

  /** When every job has succeeded, the claimed attempts are the jobs plus the failed attempts on record. */
  lemma CompleteStudyAccounts(l: Ledger, intact: Artifact -> bool)
    requires Conserved(l) && forall job :: job in l.rows ==> l.rows[job].state == Succeeded
    requires EvidenceIntact(l.events, intact)
    ensures Replay(l.events, intact).Returned?
    ensures TotalClaims(l.events) == |l.rows.Keys| + |Replay(l.events, intact).value|
  {
    hide Conserved, TotalClaims, Replay;
    AuditorAgrees(l, intact);
    assert LiveJobs(l.rows) == l.rows.Keys;
  }

  /** Costs are conserved: for every name the replay sums what each stopped attempt recorded, once. */
  function StoppedCost(events: seq<Event>, name: string): real {
    if events == [] then 0.0
    else
      var kind := Last(events).kind;
      var recorded := kind.Stopped? && kind.failure.costs.Some? && name in kind.failure.costs.value;
      StoppedCost(Front(events), name) + if recorded then kind.failure.costs.value[name] else 0.0
  }

  lemma {:induction false} CostsConserved(events: seq<Event>, intact: Artifact -> bool, name: string)
    requires LogSound(events) && Replay(events, intact).Returned?
    ensures KnownCost(Replay(events, intact).value, name) == StoppedCost(events, name)
  {
    hide Intact, CostsValid, LogSound, LastClaim, PhysicalKey;
    if events != [] {
      LogSoundFront(events);
      CostsConserved(Front(events), intact, name);
      var e := Last(events);
      if IsFailure(e) {
        ReplayIsComplete(Front(events), intact);
        var before, entry := Replay(Front(events), intact).value, EntryFor(e, AttemptOf(Front(events), e).value);
        PutNew(before, entry);
        assert (before + [entry])[..|before|] == before;
      }
    }
  }

  // ----- What each failed attempt is recorded with -----

  /** Event `i` ends an attempt without a result: it stopped, or a reconciliation found nothing. */
  predicate Ends(events: seq<Event>, i: nat) {
    i < |events| && (events[i].kind.Stopped? || (events[i].kind.Reconciled? && events[i].kind.outcome.None?))
  }

  /** Event `i` claims `job` under `token`, and the job is not claimed again before event `n`. */
  ghost predicate LatestClaim(events: seq<Event>, n: nat, job: JobId, token: Token, i: nat) {
    && i < n <= |events| && events[i].job == job && events[i].kind.Claimed? && events[i].kind.token == token
    && forall j :: i < j < n && events[j].kind.Claimed? ==> events[j].job != job
  }

  /** The entry names the attempt that event `i` ends, and repeats the costs and the evidence files the event recorded. A
      reconciliation recorded neither, and speaks of the job's latest claim. */
  ghost predicate Accounts(entry: FailedAttempt, events: seq<Event>, i: nat)
    requires Ends(events, i)
  {
    var e := events[i];
    && entry.job == e.job
    && (e.kind.Stopped? ==>
          && entry.attempt == e.kind.token && entry.costs == e.kind.failure.costs
          && |entry.evidence| == |e.kind.failure.artifacts|
          && forall k :: 0 <= k < |entry.evidence| ==> entry.evidence[k] == e.kind.failure.artifacts[k].path)
    && (e.kind.Reconciled? ==>
          && entry.costs == None && entry.evidence == []
          && exists c :: LatestClaim(events, i, e.job, entry.attempt, c))
    && (entry.known <==>
          && entry.costs.Some?
          && (SaysMade(e.job) ==> "candidate_oracle_attempts" in entry.costs.value)
          && (!SaysMade(e.job) ==> "dft_episode_attempts" in entry.costs.value))
  }

  ghost predicate SaysMade(job: JobId) { exists i: nat :: OccursAt(job, i, "made") }

  lemma {:induction false} LastClaimIsLatest(events: seq<Event>, job: JobId) returns (i: nat)
    requires LastClaim(events, job).Some?
    ensures LatestClaim(events, |events|, job, LastClaim(events, job).value, i)
  {
    var front := Front(events);
    assert events == front + [Last(events)];
    if IsClaim(Last(events)) && Last(events).job == job {
      i := |front|;
    } else {
      i := LastClaimIsLatest(front, job);
      forall j | i < j < |events| && events[j].kind.Claimed? ensures events[j].job != job {
        if j < |front| { assert front[j] == events[j]; }
      }
    }
  }

  lemma EntryAccounts(events: seq<Event>, i: nat)
    requires Ends(events, i) && AttemptOf(events[..i], events[i]).Some?
    ensures Accounts(EntryFor(events[i], AttemptOf(events[..i], events[i]).value), events, i)
  {
    var e := events[i];
    ContainsIsOccurrence(e.job, "made");
    if e.kind.Reconciled? {
      var c := LastClaimIsLatest(events[..i], e.job);
      assert forall j :: 0 <= j < i ==> events[..i][j] == events[j];
      assert LatestClaim(events, i, e.job, LastClaim(events[..i], e.job).value, c);
    }
  }

  lemma AccountsLonger(entry: FailedAttempt, events: seq<Event>, i: nat, more: seq<Event>)
    requires Ends(events, i) && Accounts(entry, events, i) && events <= more
    ensures Ends(more, i) && Accounts(entry, more, i)
  {
    if events[i].kind.Reconciled? {
      var c :| LatestClaim(events, i, events[i].job, entry.attempt, c);
      assert LatestClaim(more, i, events[i].job, entry.attempt, c);
    }
  }

  /** The number of attempts that the first `n` events end. */
  function Ended(events: seq<Event>, n: nat): nat
    requires n <= |events|
  {
    if n == 0 then 0 else Ended(events, n - 1) + if Ends(events, n - 1) then 1 else 0
  }

  /** The replay of a sound log keeps one entry for each attempt that ended, in the order of the log. */
  lemma {:induction false} ReplayAccounts(events: seq<Event>, intact: Artifact -> bool, n: nat)
    requires n <= |events| && LogSound(events) && Replay(events, intact).Returned?
    ensures Replay(events[..n], intact).Returned? && |Replay(events[..n], intact).value| == Ended(events, n)
    ensures forall i: nat :: i < n && Ends(events, i) ==>
      Ended(events, i) < Ended(events, n) && Accounts(Replay(events[..n], intact).value[Ended(events, i)], events, i)
  {
    hide LogSound, Accounts, Intact, CostsValid, EntryFor, AttemptOf, Put;
    if Replay(events[..n], intact).Raised? { ReplayStaysRaised(events, n, intact); }
    if n > 0 {
      hide Replay;
      ReplayAccounts(events, intact, n - 1);
      SoundPrefix(events, n);
      var front, e := events[..n - 1], events[n - 1];
      assert Front(events[..n]) == front && Last(events[..n]) == e;
      ReplayAppends(events[..n], intact);
      if Ends(events, n - 1) { EntryAccounts(events, n - 1); }
    }
  }

  lemma {:induction false} SoundPrefix(events: seq<Event>, n: nat)
    requires n <= |events| && LogSound(events)
    ensures LogSound(events[..n])
  {
    hide LogSound;
    if n < |events| {
      LogSoundFront(events);
      SoundPrefix(Front(events), n);
      assert Front(events)[..n] == events[..n];
    } else {
      assert events[..n] == events;
    }
  }

  /** One more event appends its entry, if it ends an attempt. */
  lemma ReplayAppends(events: seq<Event>, intact: Artifact -> bool)
    requires events != [] && LogSound(events) && Replay(events, intact).Returned?
    ensures var before := Replay(Front(events), intact); var attempt := AttemptOf(Front(events), Last(events));
      && before.Returned?
      && (IsFailure(Last(events)) ==>
            attempt.Some? && Replay(events, intact).value == before.value + [EntryFor(Last(events), attempt.value)])
      && (!IsFailure(Last(events)) ==> Replay(events, intact) == before)
  {
    hide LogSound, Intact, CostsValid, EntryFor, FailedAttempts, LastClaim;
    LogSoundFront(events);
    ReplayIsComplete(Front(events), intact);
    var e := Last(events);
    if IsFailure(e) {
      var attempt := AttemptOf(Front(events), e).value;
      EntryKey(e, attempt);
      PutNew(Replay(Front(events), intact).value, EntryFor(e, attempt));
    }
  }

  /** In every study whose evidence is intact, each attempt that ended has exactly one entry in the report's list, with the
      costs and the evidence it recorded, and there is no other entry. */
  lemma StudyRecordsFailures(jobs: set<JobId>, ops: seq<Op>, intact: Artifact -> bool, i: nat)
    requires AllAdmissible(Initial(jobs), ops) && EvidenceIntact(Run(Initial(jobs), ops).events, intact)
    requires Ends(Run(Initial(jobs), ops).events, i)
    ensures var events := Run(Initial(jobs), ops).events; var replayed := Replay(events, intact);
      && replayed.Returned? && |replayed.value| == Ended(events, |events|)
      && Ended(events, i) < |replayed.value| && Accounts(replayed.value[Ended(events, i)], events, i)
      && forall k :: 0 <= k < |replayed.value| && SameAttempt(replayed.value[k], replayed.value[Ended(events, i)]) ==>
           k == Ended(events, i)
  {
    hide Conserved, Run, AllAdmissible, Replay, EvidenceIntact, Accounts, Ended, SameAttempt;
    var l := Run(Initial(jobs), ops);
    StudyConserves(jobs, ops);
    SoundLog(l);
    ReplayIsComplete(l.events, intact);
    assert l.events[..|l.events|] == l.events;
    ReplayAccounts(l.events, intact, |l.events|);
    var entries := Replay(l.events, intact).value;
    forall k | 0 <= k < |entries| && SameAttempt(entries[k], entries[Ended(l.events, i)]) ensures k == Ended(l.events, i) {
      OneEntry(entries, FailedAttempts(l.events), k, Ended(l.events, i));
    }
  }

  lemma SoundLog(l: Ledger)
    requires Conserved(l)
    ensures LogSound(l.events)
  {
    hide FailedAttempts, RowConserved;
  }

  lemma OneEntry(entries: seq<FailedAttempt>, keys: seq<(JobId, Option<Token>)>, a: nat, b: nat)
    requires AttemptKeys(entries) == keys && Distinct(keys) && a < |entries| && b < |entries| && SameAttempt(entries[a], entries[b])
    ensures a == b
  {
    assert keys[a] == keys[b];
  }
}
