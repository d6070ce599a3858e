/** Attempt accounting of the native oracles while several threads call them: the journal, the counters beside it, and
    the replay that rebuilds the counters from the journal. */
module OracleAccounting {
  import opened Wrappers
  import opened Counters

  type Key = string

  datatype Kind = Start | Return | Exception
  datatype Record = Record(sequence: nat, episode: nat, kind: Kind, attempt: nat, counter: Key)

  function OracleKey(role: string, phase: string): Key {
    if role == "mace" then "surrogate_oracle_attempts" else phase + "_oracle_attempts"
  }

  predicate IsOracleKey(key: Key) {
    var suffix := "_oracle_attempts";
    |key| >= |suffix| && key[|key| - |suffix|..] == suffix
  }

  lemma OracleKeyIsOne(role: string, phase: string)
    ensures IsOracleKey(OracleKey(role, phase))
  {
    var suffix := "_oracle_attempts";
    assert "surrogate_oracle_attempts" == "surrogate" + suffix;
    assert (phase + suffix)[|phase + suffix| - |suffix|..] == suffix;
    assert ("surrogate" + suffix)[|"surrogate" + suffix| - |suffix|..] == suffix;
  }

  /** The counter a call moves: the surrogate's is one for all phases, every other role has one per phase. */
  lemma CounterNames(role: string, phase: string)
    ensures role == "mace" ==> OracleKey(role, phase) == "surrogate_oracle_attempts"
    ensures role != "mace" ==>
      && OracleKey(role, "initialization") == "initialization_oracle_attempts"
      && OracleKey(role, "candidate") == "candidate_oracle_attempts"
      && |OracleKey(role, phase)| == |phase| + 16 && OracleKey(role, phase)[..|phase|] == phase
      && OracleKey(role, phase)[|phase|..] == "_oracle_attempts"
  {
    assert "initialization" + "_oracle_attempts" == "initialization_oracle_attempts";
    assert "candidate" + "_oracle_attempts" == "candidate_oracle_attempts";
  }

  /** Calls of different phases move different counters, and only the surrogate's counter is shared. */
  lemma CountersApart(role: string, phase: string, other: string, later: string)
    requires role != "mace" && other != "mace"
    ensures OracleKey(role, phase) == OracleKey(other, later) <==> phase == later
  {
    CounterNames(role, phase);
    CounterNames(other, later);
  }

  // ----- Replaying the journal -----

  /** What the journal alone says: attempts, their ends, the open ones with their counter, and the starts per counter and
      per episode. */
  datatype Tally = Tally(attempts: nat, returned: nat, raised: nat, pending: map<nat, Key>, counts: map<Key, nat>,
                         episodes: map<(nat, Key), nat>)

  function Step(t: Tally, r: Record): Tally {
    match r.kind
    case Start =>
      t.(attempts := t.attempts + 1, pending := t.pending[r.attempt := r.counter], counts := Bump(t.counts, r.counter),
         episodes := Bump(t.episodes, (r.episode, r.counter)))
    case Return => t.(returned := t.returned + 1, pending := t.pending - {r.attempt})
    case Exception => t.(raised := t.raised + 1, pending := t.pending - {r.attempt})
  }

  function Replay(journal: seq<Record>): Tally {
    if journal == [] then Tally(0, 0, 0, map[], map[], map[])
    else Step(Replay(journal[..|journal| - 1]), journal[|journal| - 1])
  }

  /** A record that may follow: the next number, a fresh attempt or an open one with its own counter. */
  predicate Follows(journal: seq<Record>, r: Record) {
    var t := Replay(journal);
    && r.sequence == |journal| && IsOracleKey(r.counter)
    && (journal != [] ==> journal[|journal| - 1].episode <= r.episode)
    && (if r.kind.Start? then r.attempt == t.attempts else r.attempt in t.pending && t.pending[r.attempt] == r.counter)
  }

  predicate WellFormed(journal: seq<Record>) {
    journal != [] ==> WellFormed(journal[..|journal| - 1]) && Follows(journal[..|journal| - 1], journal[|journal| - 1])
  }

  lemma ReplayAppend(journal: seq<Record>, r: Record)
    ensures Replay(journal + [r]) == Step(Replay(journal), r)
    ensures WellFormed(journal) && Follows(journal, r) ==> WellFormed(journal + [r])
  {
    assert (journal + [r])[..|journal|] == journal;
  }

  /** Starts per counter, over episodes up to `last`. */
  function OverEpisodes(episodes: map<(nat, Key), nat>, key: Key, last: nat): nat {
    Count(episodes, (last, key)) + if last == 0 then 0 else OverEpisodes(episodes, key, last - 1)
  }

  lemma {:induction false} OverBump(episodes: map<(nat, Key), nat>, e: nat, k: Key, key: Key, last: nat)
    ensures OverEpisodes(Bump(episodes, (e, k)), key, last)
      == OverEpisodes(episodes, key, last) + if k == key && e <= last then 1 else 0
  {
    if last > 0 { OverBump(episodes, e, k, key, last - 1); }
  }

  /** Each attempt is returned, raised or open; the counters sum to the attempts; each counter is the sum of its episodes. */
  ghost predicate Balanced(t: Tally, last: nat) {
    && t.attempts == t.returned + t.raised + |t.pending|
    && Total(t.counts) == t.attempts
    && (forall id :: id in t.pending ==> id < t.attempts)
    && forall key :: Count(t.counts, key) == OverEpisodes(t.episodes, key, last)
  }

  lemma StartBalances(t: Tally, r: Record, last: nat)
    requires Balanced(t, last) && r.kind.Start? && r.attempt == t.attempts && r.episode <= last
    ensures Balanced(Step(t, r), last)
  {
    hide OverEpisodes, Total;
    BumpTotal(t.counts, r.counter);
    assert (t.pending[r.attempt := r.counter]).Keys == t.pending.Keys + {r.attempt};
    assert |t.pending[r.attempt := r.counter].Keys| == |t.pending.Keys| + 1;
    forall key ensures Count(Bump(t.counts, r.counter), key) == OverEpisodes(Bump(t.episodes, (r.episode, r.counter)), key, last) {
      OverBump(t.episodes, r.episode, r.counter, key, last);
    }
  }

  lemma EndBalances(t: Tally, r: Record, last: nat)
    requires Balanced(t, last) && !r.kind.Start? && r.attempt in t.pending
    ensures Balanced(Step(t, r), last)
  {
    hide OverEpisodes, Total;
    assert (t.pending - {r.attempt}).Keys == t.pending.Keys - {r.attempt};
    assert |(t.pending - {r.attempt}).Keys| == |t.pending.Keys| - 1;
  }

  /** Attempts and counters balance for every well-formed journal, that is, in every reachable state of the adapter. */
  lemma {:induction false} JournalConserves(journal: seq<Record>, last: nat)
    requires WellFormed(journal) && (journal != [] ==> journal[|journal| - 1].episode <= last)
    ensures Balanced(Replay(journal), last)
  {
    hide Balanced, Step, IsOracleKey;
    if journal == [] {
      EmptyBalances(last);
    } else {
      var front, r := journal[..|journal| - 1], journal[|journal| - 1];
      JournalConserves(front, last);
      if r.kind.Start? { StartBalances(Replay(front), r, last); } else { EndBalances(Replay(front), r, last); }
    }
  }

  lemma EmptyBalances(last: nat)
    ensures Balanced(Replay([]), last)
  {
    EmptyTally(last);
  }

  lemma {:induction false} EmptyTally(last: nat)
    ensures forall key :: OverEpisodes(map[], key, last) == 0
  {
    if last > 0 { EmptyTally(last - 1); }
  }

  /** Attempt ids never repeat, and an attempt ends at most once. */
  predicate SameEvent(a: Record, b: Record) { a.attempt == b.attempt && (a.kind.Start? <==> b.kind.Start?) }

  lemma {:induction false} OneStartOneEnd(journal: seq<Record>, i: nat, j: nat)
    requires WellFormed(journal) && i < j < |journal|
    ensures !SameEvent(journal[i], journal[j])
  {
    var front := journal[..|journal| - 1];
    if j < |front| {
      OneStartOneEnd(front, i, j);
    } else {
      Settled(front, i);
    }
  }

  /** What an earlier record rules out for every later one. */
  lemma {:induction false} Settled(journal: seq<Record>, i: nat)
    requires WellFormed(journal) && i < |journal|
    ensures var t := Replay(journal);
      journal[i].attempt < t.attempts && (!journal[i].kind.Start? ==> journal[i].attempt !in t.pending)
  {
    var front, r := journal[..|journal| - 1], journal[|journal| - 1];
    PendingStarted(front);
    if i < |front| { Settled(front, i); }
  }

  lemma {:induction false} PendingStarted(journal: seq<Record>)
    requires WellFormed(journal)
    ensures forall id :: id in Replay(journal).pending ==> id < Replay(journal).attempts
  {
    if journal != [] { PendingStarted(journal[..|journal| - 1]); }
  }

  /** Audit numbers are contiguous from zero. */
  lemma {:induction false} SequenceIsContiguous(journal: seq<Record>, i: nat)
    requires WellFormed(journal) && i < |journal|
    ensures journal[i].sequence == i
  {
    if i < |journal| - 1 { SequenceIsContiguous(journal[..|journal| - 1], i); }
  }

  /** A start and an end are all the journal has of an attempt. */
  lemma OnlyTwo(journal: seq<Record>, i: nat, j: nat)
    requires WellFormed(journal) && i < j < |journal| && journal[i].attempt == journal[j].attempt
    requires journal[i].kind.Start? && !journal[j].kind.Start?
    ensures forall k :: 0 <= k < |journal| && journal[k].attempt == journal[i].attempt ==> k == i || k == j
  {
    hide WellFormed;
    forall k | 0 <= k < |journal| && k != i && k != j ensures journal[k].attempt != journal[i].attempt {
      if k < i { OneStartOneEnd(journal, k, i); } else { OneStartOneEnd(journal, i, k); }
      if k < j { OneStartOneEnd(journal, k, j); } else { OneStartOneEnd(journal, j, k); }
    }
  }

  /** An open attempt has its start and nothing else. */
  lemma OnlyStarted(journal: seq<Record>, i: nat)
    requires WellFormed(journal) && i < |journal| && journal[i].kind.Start? && journal[i].attempt in Replay(journal).pending
    ensures forall k :: 0 <= k < |journal| && journal[k].attempt == journal[i].attempt ==> k == i
  {
    hide WellFormed, Replay;
    forall k | 0 <= k < |journal| && k != i ensures journal[k].attempt != journal[i].attempt {
      Settled(journal, k);
      if k < i { OneStartOneEnd(journal, k, i); } else { OneStartOneEnd(journal, i, k); }
    }
  }

  // ----- The adapter -----

  /** The oracle counters of the session and of the episode are the replayed ones. */
  ghost predicate Agrees(counts: map<Key, nat>, episodeCounts: map<Key, nat>, episode: nat, replayed: map<Key, nat>,
                         places: map<(nat, Key), nat>) {
    && (forall key :: IsOracleKey(key) ==> Count(counts, key) == Count(replayed, key))
    && (forall key :: IsOracleKey(key) ==> Count(episodeCounts, key) == Count(places, (episode, key)))
    && (forall place :: place in places ==> place.0 <= episode)
  }

  lemma AgreesBump(counts: map<Key, nat>, episodeCounts: map<Key, nat>, episode: nat, replayed: map<Key, nat>,
                   places: map<(nat, Key), nat>, key: Key)
    requires Agrees(counts, episodeCounts, episode, replayed, places)
    ensures Agrees(Bump(counts, key), Bump(episodeCounts, key), episode, Bump(replayed, key), Bump(places, (episode, key)))
    ensures !IsOracleKey(key) ==> Agrees(Bump(counts, key), Bump(episodeCounts, key), episode, replayed, places)
  {
    hide IsOracleKey;
  }

  /** The counters beside a journal are the ones its replay gives. */
  ghost predicate Accounts(journal: seq<Record>, attempts: nat, returned: nat, raised: nat, pending: map<nat, Key>,
                           counts: map<Key, nat>, episodeCounts: map<Key, nat>, episode: nat) {
    && WellFormed(journal) && (journal != [] ==> journal[|journal| - 1].episode <= episode)
    && var t := Replay(journal);
    && attempts == t.attempts && returned == t.returned && raised == t.raised && pending == t.pending
    && Agrees(counts, episodeCounts, episode, t.counts, t.episodes)
  }

  /** A start record and the counters it moves. */
  lemma StartKeeps(journal: seq<Record>, attempts: nat, returned: nat, raised: nat, pending: map<nat, Key>,
                   counts: map<Key, nat>, episodeCounts: map<Key, nat>, episode: nat, key: Key)
    requires Accounts(journal, attempts, returned, raised, pending, counts, episodeCounts, episode) && IsOracleKey(key)
    ensures attempts !in pending
    ensures Accounts(journal + [Record(|journal|, episode, Start, attempts, key)], attempts + 1, returned, raised,
                     pending[attempts := key], Bump(counts, key), Bump(episodeCounts, key), episode)
  {
    hide IsOracleKey, Agrees, Replay, WellFormed, Bump;
    PendingStarted(journal);
    ReplayAppend(journal, Record(|journal|, episode, Start, attempts, key));
    AgreesBump(counts, episodeCounts, episode, Replay(journal).counts, Replay(journal).episodes, key);
  }

  /** An end record and the counters it moves. */
  lemma EndKeeps(journal: seq<Record>, attempts: nat, returned: nat, raised: nat, pending: map<nat, Key>,
                 counts: map<Key, nat>, episodeCounts: map<Key, nat>, episode: nat, id: nat, success: bool)
    requires Accounts(journal, attempts, returned, raised, pending, counts, episodeCounts, episode) && id in pending
    ensures Accounts(journal + [Record(|journal|, episode, if success then Return else Exception, id, pending[id])], attempts,
                     if success then returned + 1 else returned, if success then raised else raised + 1,
                     pending - {id}, counts, episodeCounts, episode)
  {
    hide IsOracleKey, Agrees, Replay, WellFormed;
    PendingKeys(journal, id);
    ReplayAppend(journal, Record(|journal|, episode, if success then Return else Exception, id, pending[id]));
  }

  lemma {:induction false} PendingKeys(journal: seq<Record>, id: nat)
    requires WellFormed(journal) && id in Replay(journal).pending
    ensures IsOracleKey(Replay(journal).pending[id])
  {
    hide IsOracleKey;
    var front := journal[..|journal| - 1];
    if id in Replay(front).pending { PendingKeys(front, id); }
  }

  datatype Failure = JournalFailed | OracleFailed

  class BaseAdapter {
    var episodeIndex: nat
    var counts: map<Key, nat>
    var episodeCounts: map<Key, nat>
    var auditSequence: nat
    var attemptSequence: nat
    var pending: map<nat, Key>
    var returned: nat
    var raised: nat
    var phase: string
    /** Set when rebuilding the environment failed; the next reset is then allowed. */
    var faulted: bool
    var journal: seq<Record>

    constructor ()
      ensures Valid() && journal == [] && phase == "initialization"
    {
      episodeIndex, counts, episodeCounts, auditSequence, attemptSequence := 0, map[], map[], 0, 0;
      pending, returned, raised, phase, faulted, journal := map[], 0, 0, "initialization", false, [];
    }

    /** Every counter is what replaying the journal gives; other counters are nobody's business here. */
    ghost predicate Valid()
      reads this
    {
      auditSequence == |journal|
      && Accounts(journal, attemptSequence, returned, raised, pending, counts, episodeCounts, episodeIndex)
    }

    /** One counted event; callers outside the oracle calls use other names. */
    method CountEvent(key: Key) returns (n: nat)
      modifies this`counts, this`episodeCounts
      ensures counts == Bump(old(counts), key) && episodeCounts == Bump(old(episodeCounts), key) && n == counts[key]
    {
      counts := counts[key := Count(counts, key) + 1];
      episodeCounts := episodeCounts[key := Count(episodeCounts, key) + 1];
      n := counts[key];
    }

    method CountOther(key: Key) returns (n: nat)
      requires Valid() && !IsOracleKey(key)
      modifies this`counts, this`episodeCounts
      ensures Valid() && counts == Bump(old(counts), key) && episodeCounts == Bump(old(episodeCounts), key)
    {
      hide Replay, WellFormed, Bump, Agrees;
      AgreesBump(counts, episodeCounts, episodeIndex, Replay(journal).counts, Replay(journal).episodes, key);
      n := CountEvent(key);
    }

    /** The journal line first, then the sequence number; a failed write changes neither. */
    method Audit(kind: Kind, attempt: nat, counter: Key) returns (ok: bool)
      modifies this`journal, this`auditSequence
      ensures if ok then journal == old(journal) + [Record(old(auditSequence), episodeIndex, kind, attempt, counter)]
                         && auditSequence == old(auditSequence) + 1
              else journal == old(journal) && auditSequence == old(auditSequence)
    {
      ok := *;
      if ok {
        journal := journal + [Record(auditSequence, episodeIndex, kind, attempt, counter)];
        auditSequence := auditSequence + 1;
      }
    }

    /** The locked section before the native call. */
    method Begin(role: string) returns (id: Option<nat>)
      requires Valid()
      modifies this
      ensures Valid() && phase == old(phase) && episodeIndex == old(episodeIndex)
      ensures id.None? ==> unchanged(this)
      ensures id.Some? ==>
        && journal == old(journal) + [Record(|old(journal)|, episodeIndex, Start, id.value, OracleKey(role, phase))]
        && id.value == old(attemptSequence) && pending == old(pending)[id.value := OracleKey(role, phase)]
        && id.value !in old(pending) && attemptSequence == id.value + 1
        && counts == Bump(old(counts), OracleKey(role, phase)) && episodeCounts == Bump(old(episodeCounts), OracleKey(role, phase))
        && returned == old(returned) && raised == old(raised) && faulted == old(faulted)
    {
      hide IsOracleKey, Accounts, Bump, OracleKey;
      var key := OracleKey(role, phase);
      OracleKeyIsOne(role, phase);
      StartKeeps(journal, attemptSequence, returned, raised, pending, counts, episodeCounts, episodeIndex, key);
      var attempt := attemptSequence;
      var ok := Audit(Start, attempt, key);
      if !ok { return None; }
      attemptSequence := attemptSequence + 1;
      var n := CountEvent(key);
      pending := pending[attempt := key];
      id := Some(attempt);
    }

    /** The locked section after it. If the journal cannot be written, the attempt stays open. */
    method End(id: nat, success: bool) returns (ok: bool)
      requires Valid() && id in pending
      modifies this`journal, this`auditSequence, this`returned, this`raised, this`pending
      ensures Valid()
      ensures pending == if ok then old(pending) - {id} else old(pending)
      ensures journal == if ok
        then old(journal) + [Record(|old(journal)|, episodeIndex, if success then Return else Exception, id, old(pending)[id])]
        else old(journal)
    {
      hide Accounts;
      EndKeeps(journal, attemptSequence, returned, raised, pending, counts, episodeCounts, episodeIndex, id, success);
      ok := Audit(if success then Return else Exception, id, pending[id]);
      if ok {
        if success { returned := returned + 1; } else { raised := raised + 1; }
        pending := pending - {id};
      }
    }

    /** A new episode starts its own counters; what it calls before it is ready belongs to the initialization phase. */
    method BeginEpisode()
      requires Valid()
      modifies this`episodeIndex, this`episodeCounts, this`phase
      ensures Valid() && episodeIndex == old(episodeIndex) + 1 && episodeCounts == map[] && phase == "initialization"
    {
      episodeIndex := episodeIndex + 1;
      episodeCounts := map[];
      phase := "initialization";
    }

    /** The stretch between the two phases can fail, but the candidate phase is entered either way. */
    method Reset(own: set<nat>) returns (ok: bool)
      requires Valid() && own <= pending.Keys
      modifies this
      ensures Valid() && Keeps(own, old(pending), pending) && old(journal) <= journal && old(attemptSequence) <= attemptSequence
      ensures episodeIndex == old(episodeIndex) + 1 && phase == "candidate" && faulted == !ok
      ensures InitializationSince(journal, |old(journal)|)
    {
      hide Valid;
      BeginEpisode();
      Initialize(own);
      ok := *;
      EnterCandidatePhase(ok);
    }

    method EnterCandidatePhase(ready: bool)
      requires Valid()
      modifies this`phase, this`faulted
      ensures Valid() && phase == "candidate" && faulted == !ready
    {
      phase, faulted := "candidate", !ready;
    }

    /** Oracle calls of the environment while it is being rebuilt, each between its two locked sections. */
    method Initialize(own: set<nat>)
      requires Valid() && own <= pending.Keys && phase == "initialization"
      modifies this
      ensures Valid() && Keeps(own, old(pending), pending) && old(journal) <= journal && old(attemptSequence) <= attemptSequence
      ensures episodeIndex == old(episodeIndex)
      ensures InitializationSince(journal, |old(journal)|)
    {
      hide Valid, IsOracleKey, InitializationSince, Keeps, OracleKey, Bump;
      NothingStarted(journal, own, pending);
      var n: int := *;
      for i := 0 to if n < 0 then 0 else n
        invariant Valid() && Keeps(own, old(pending), pending)
        invariant old(journal) <= journal && old(attemptSequence) <= attemptSequence
        invariant episodeIndex == old(episodeIndex) && phase == "initialization"
        invariant InitializationSince(journal, |old(journal)|)
      {
        var role: string := *;
        var id: nat := *;
        var success: bool := *;
        ghost var before, open := journal, pending;
        if id in pending && id !in own {
          var ended := End(id, success);
          if ended { AppendEnd(before, |old(journal)|, journal[|before|]); }
          KeepsOn(own, old(pending), open, pending);
        } else {
          var began := Begin(role);
          if began.Some? { AppendStart(before, |old(journal)|, journal[|before|], role); }
          KeepsOn(own, old(pending), open, pending);
        }
      }
    }

    /** Every attempt started from position `from` on is counted as initialization, or as a surrogate's. */
    static predicate InitializationSince(journal: seq<Record>, from: nat) {
      forall k :: from <= k < |journal| && journal[k].kind.Start? ==>
        journal[k].counter == "initialization_oracle_attempts" || journal[k].counter == "surrogate_oracle_attempts"
    }

    static lemma NothingStarted(journal: seq<Record>, own: set<nat>, pending: map<nat, Key>)
      ensures InitializationSince(journal, |journal|) && Keeps(own, pending, pending)
    {
    }

    static lemma AppendStart(journal: seq<Record>, from: nat, r: Record, role: string)
      requires InitializationSince(journal, from) && r.counter == OracleKey(role, "initialization")
      ensures InitializationSince(journal + [r], from)
    {
      CounterNames(role, "initialization");
    }

    static lemma AppendEnd(journal: seq<Record>, from: nat, r: Record)
      requires InitializationSince(journal, from) && !r.kind.Start?
      ensures InitializationSince(journal + [r], from)
    {
    }

    static lemma KeepsOn(own: set<nat>, a: map<nat, Key>, b: map<nat, Key>, c: map<nat, Key>)
      requires Keeps(own, a, b) && forall id :: id in own && id in b ==> id in c && c[id] == b[id]
      ensures Keeps(own, a, c)
    {
    }

    /** The attempts of one thread are left alone by the others. */
    static predicate Keeps(own: set<nat>, before: map<nat, Key>, after: map<nat, Key>) {
      forall id :: id in own && id in before ==> id in after && after[id] == before[id]
    }

    /** Whatever other threads do; they end only attempts of their own. */
    method OtherThreads(own: set<nat>)
      requires Valid() && own <= pending.Keys
      modifies this
      ensures Valid() && own <= pending.Keys && Keeps(own, old(pending), pending)
      ensures old(journal) <= journal && old(attemptSequence) <= attemptSequence
    {
      hide Valid, IsOracleKey;
      var n: int := *;
      for i := 0 to if n < 0 then 0 else n
        invariant Valid() && own <= pending.Keys && Keeps(own, old(pending), pending)
        invariant old(journal) <= journal && old(attemptSequence) <= attemptSequence
      {
        var choice: int := *;
        var role: string := *;
        var id: nat := *;
        var success: bool := *;
        if choice == 0 {
          var began := Begin(role);
        } else if choice == 1 && id in pending && id !in own {
          var ended := End(id, success);
        } else if choice == 2 {
          var ready := Reset(own);
        } else if choice == 3 && !IsOracleKey(role) {
          var counted := CountOther(role);
        }
      }
    }

    /** One native call: counted before it starts, ended at most once, whatever other threads do in between. `id` is this
        call's attempt, if it was started at all. */
    method InvokeOracle(role: string) returns (r: Outcome<(), Failure>, ghost id: Option<nat>)
      requires Valid()
      modifies this
      ensures Valid() && old(journal) <= journal
      ensures id.None? ==> r == Raised(JournalFailed) && unchanged(this)
      ensures id.Some? ==>
        && id.value == old(attemptSequence) && |old(journal)| < |journal|
        && journal[|old(journal)|]
           == Record(|old(journal)|, old(episodeIndex), Start, id.value, OracleKey(role, old(phase)))
      ensures id.Some? && r != Raised(JournalFailed) ==>
        && EndedBy(|journal| - 1, id.value, OracleKey(role, old(phase)), r.Returned?) && id.value !in pending
        && |old(journal)| < |journal| - 1
        && forall k :: 0 <= k < |journal| && journal[k].attempt == id.value ==> k == |old(journal)| || k == |journal| - 1
      ensures id.Some? && r == Raised(JournalFailed) ==>
        && id.value in pending
        && forall k :: 0 <= k < |journal| && journal[k].attempt == id.value ==> k == |old(journal)|
    {
      hide Valid, OracleKey;
      var attempt := Begin(role);
      id := attempt;
      if attempt.None? {
        r := Raised(JournalFailed);
        return;
      }
      ghost var start := |old(journal)|;
      OtherThreads({attempt.value});
      var success: bool := *;
      ghost var before := journal;
      var ok := End(attempt.value, success);
      if ok {
        TwoRecords(start);
        r := if success then Returned(()) else Raised(OracleFailed);
      } else {
        OneRecord(start);
        r := Raised(JournalFailed);
      }
    }

    lemma TwoRecords(start: nat)
      requires Valid() && start < |journal| - 1 && journal[start].kind.Start? && !journal[|journal| - 1].kind.Start?
      requires journal[start].attempt == journal[|journal| - 1].attempt
      ensures forall k :: 0 <= k < |journal| && journal[k].attempt == journal[start].attempt ==> k == start || k == |journal| - 1
    {
      OnlyTwo(journal, start, |journal| - 1);
    }

    lemma OneRecord(start: nat)
      requires Valid() && start < |journal| && journal[start].kind.Start? && journal[start].attempt in pending
      ensures forall k :: 0 <= k < |journal| && journal[k].attempt == journal[start].attempt ==> k == start
    {
      OnlyStarted(journal, start);
    }

    /** Record `j` ends that attempt. */
    ghost predicate EndedBy(j: nat, attempt: nat, counter: Key, success: bool)
      reads this
    {
      && j < |journal| && journal[j].attempt == attempt && journal[j].counter == counter
      && journal[j].kind == if success then Return else Exception
    }

    /** The snapshot balances in every state: attempts are returned, raised or pending, the oracle counters sum to the
        attempts, and each is the sum of its episodes. */
    lemma SnapshotBalances()
      requires Valid()
      ensures attemptSequence == returned + raised + |pending|
      ensures Total(Replay(journal).counts) == attemptSequence
      ensures forall key :: IsOracleKey(key) ==>
        && Count(counts, key) == Count(Replay(journal).counts, key)
        && Count(counts, key) == OverEpisodes(Replay(journal).episodes, key, episodeIndex)
    {
      hide IsOracleKey, OverEpisodes, Total, Count;
      JournalConserves(journal, episodeIndex);
    }
  }
}
