/** The candidate buffer of one episode: entries grouped by composition, an index by structure hash, stable score sorts,
    queries and selection. */
module CandidateBuffer {
  import opened Wrappers

  type Hash(==, 0, !new)
  type Composition = string
  type Scorer = string

  /** Scores as the scorers return them. */
  datatype Score = Finite(x: real) | NegInfinity | PosInfinity | NaN

  datatype Entry = Entry(hash: Hash, composition: Composition, source: string, scores: map<Scorer, Score>)

  datatype ToolError =
    | InvalidStructure | LengthMismatch | MissingComposition | SelectionPending | InvalidHash | Unscored | InvalidIndex
    | Unrankable | InvalidMode | InvalidCount

  // ----- The order of scores -----

  predicate Rankable(s: Score) { s.Finite? || s.NegInfinity? }

  /** The sort key: valid scores first, by value in the asked direction; invalid ones behind them, all alike. */
  datatype Rank = Valid(x: real) | ValidFirst | ValidLast | Invalid

  function RankOf(s: Score, descending: bool): Rank {
    match s
    case Finite(x) => Valid(if descending then -x else x)
    case NegInfinity => if descending then ValidLast else ValidFirst
    case _ => Invalid
  }

  predicate Before(a: Rank, b: Rank) {
    match a
    case ValidFirst => !b.ValidFirst?
    case Valid(x) => (b.Valid? && x < b.x) || b.ValidLast? || b.Invalid?
    case ValidLast => b.Invalid?
    case Invalid => false
  }

  function ScoreOf(e: Entry, scorer: Scorer): Score { if scorer in e.scores then e.scores[scorer] else NaN }

  predicate Precedes(a: Entry, b: Entry, scorer: Scorer, descending: bool) {
    Before(RankOf(ScoreOf(a, scorer), descending), RankOf(ScoreOf(b, scorer), descending))
  }

  // ----- Python's stable sort -----

  /** Insertion behind every entry that does not come later. */
  function Insert(e: Entry, sorted: seq<Entry>, scorer: Scorer, descending: bool): seq<Entry> {
    if sorted == [] then [e]
    else if Precedes(sorted[0], e, scorer, descending) then [sorted[0]] + Insert(e, sorted[1..], scorer, descending)
    else [e] + sorted
  }

  function Sorted(entries: seq<Entry>, scorer: Scorer, descending: bool): seq<Entry> {
    if entries == [] then [] else Insert(entries[0], Sorted(entries[1..], scorer, descending), scorer, descending)
  }

  ghost predicate InOrder(entries: seq<Entry>, scorer: Scorer, descending: bool) {
    forall i, j :: 0 <= i < j < |entries| ==> !Precedes(entries[j], entries[i], scorer, descending)
  }

  lemma BeforeIsWeakOrder(a: Rank, b: Rank, c: Rank)
    ensures Before(a, b) ==> !Before(b, a)
    ensures Before(a, b) && Before(b, c) ==> Before(a, c)
    ensures !Before(a, b) && !Before(b, c) ==> !Before(a, c)
  {
  }

  lemma {:induction false} InsertFacts(e: Entry, sorted: seq<Entry>, scorer: Scorer, descending: bool)
    requires InOrder(sorted, scorer, descending)
    ensures var r := Insert(e, sorted, scorer, descending);
      InOrder(r, scorer, descending) && multiset(r) == multiset(sorted) + multiset{e}
  {
    hide Before, RankOf, ScoreOf;
    if sorted != [] {
      assert sorted == [sorted[0]] + sorted[1..];
      if Precedes(sorted[0], e, scorer, descending) {
        InsertFacts(e, sorted[1..], scorer, descending);
        var rest := Insert(e, sorted[1..], scorer, descending);
        forall x | x in rest ensures !Precedes(x, sorted[0], scorer, descending) {
          assert x in multiset(rest);
          PrecedesWeak(sorted[0], e, e, scorer, descending);
        }
        HeadInOrder(sorted[0], rest, scorer, descending);
      } else {
        forall x | x in sorted ensures !Precedes(x, e, scorer, descending) {
          if x != sorted[0] {
            PrecedesWeak(x, sorted[0], e, scorer, descending);
          }
        }
        HeadInOrder(e, sorted, scorer, descending);
      }
    }
  }

  lemma PrecedesWeak(a: Entry, b: Entry, c: Entry, scorer: Scorer, descending: bool)
    ensures Precedes(a, b, scorer, descending) ==> !Precedes(b, a, scorer, descending)
    ensures !Precedes(a, b, scorer, descending) && !Precedes(b, c, scorer, descending) ==> !Precedes(a, c, scorer, descending)
  {
    BeforeIsWeakOrder(RankOf(ScoreOf(a, scorer), descending), RankOf(ScoreOf(b, scorer), descending),
                      RankOf(ScoreOf(c, scorer), descending));
  }

  lemma HeadInOrder(e: Entry, rest: seq<Entry>, scorer: Scorer, descending: bool)
    requires InOrder(rest, scorer, descending) && forall x :: x in rest ==> !Precedes(x, e, scorer, descending)
    ensures InOrder([e] + rest, scorer, descending)
  {
    hide Precedes;
  }

  /** The sort is an ordered permutation. */
  lemma {:induction false} SortIsOrderedPermutation(entries: seq<Entry>, scorer: Scorer, descending: bool)
    ensures var r := Sorted(entries, scorer, descending);
      InOrder(r, scorer, descending) && multiset(r) == multiset(entries)
  {
    hide Precedes;
    if entries != [] {
      SortIsOrderedPermutation(entries[1..], scorer, descending);
      InsertFacts(entries[0], Sorted(entries[1..], scorer, descending), scorer, descending);
      assert entries == [entries[0]] + entries[1..];
    }
  }

  function WithRank(entries: seq<Entry>, rank: Rank, scorer: Scorer, descending: bool): seq<Entry> {
    if entries == [] then []
    else
      (if RankOf(ScoreOf(entries[0], scorer), descending) == rank then [entries[0]] else [])
      + WithRank(entries[1..], rank, scorer, descending)
  }

  lemma WithRankStep(e: Entry, rest: seq<Entry>, rank: Rank, scorer: Scorer, descending: bool)
    ensures WithRank([e] + rest, rank, scorer, descending)
      == (if RankOf(ScoreOf(e, scorer), descending) == rank then [e] else []) + WithRank(rest, rank, scorer, descending)
  {
    assert ([e] + rest)[1..] == rest;
  }

  lemma PrecedesDiffers(a: Entry, b: Entry, scorer: Scorer, descending: bool)
    requires Precedes(a, b, scorer, descending)
    ensures RankOf(ScoreOf(a, scorer), descending) != RankOf(ScoreOf(b, scorer), descending)
  {
  }

  lemma {:induction false} InsertIsStable(e: Entry, sorted: seq<Entry>, rank: Rank, scorer: Scorer, descending: bool)
    ensures WithRank(Insert(e, sorted, scorer, descending), rank, scorer, descending)
      == (if RankOf(ScoreOf(e, scorer), descending) == rank then [e] else []) + WithRank(sorted, rank, scorer, descending)
  {
    hide RankOf, ScoreOf, Precedes, WithRank;
    WithRankStep(e, sorted, rank, scorer, descending);
    if sorted == [] {
      assert [e] + sorted == [e];
    } else if Precedes(sorted[0], e, scorer, descending) {
      var rest := Insert(e, sorted[1..], scorer, descending);
      PrecedesDiffers(sorted[0], e, scorer, descending);
      InsertIsStable(e, sorted[1..], rank, scorer, descending);
      WithRankStep(sorted[0], rest, rank, scorer, descending);
      WithRankStep(sorted[0], sorted[1..], rank, scorer, descending);
      assert sorted == [sorted[0]] + sorted[1..];
    }
  }

  /** Entries of one rank keep their order. */
  lemma {:induction false} SortIsStable(entries: seq<Entry>, rank: Rank, scorer: Scorer, descending: bool)
    ensures WithRank(Sorted(entries, scorer, descending), rank, scorer, descending)
      == WithRank(entries, rank, scorer, descending)
  {
    hide Insert, RankOf, ScoreOf;
    if entries != [] {
      SortIsStable(entries[1..], rank, scorer, descending);
      InsertIsStable(entries[0], Sorted(entries[1..], scorer, descending), rank, scorer, descending);
      assert [entries[0]][1..] == [];
    }
  }

  /** In both directions unrankable scores come last. */
  lemma InvalidComeLast(entries: seq<Entry>, scorer: Scorer, descending: bool, i: nat, j: nat)
    requires InOrder(entries, scorer, descending) && i < j < |entries|
    ensures !Rankable(ScoreOf(entries[i], scorer)) ==> !Rankable(ScoreOf(entries[j], scorer))
  {
    assert !Precedes(entries[j], entries[i], scorer, descending);
  }

  /** What the sort compares, on the scores themselves: finite ones by value in the asked direction, minus infinity below all
      of them, and behind both the scores that rank nothing. */
  predicate ComesFirst(x: Score, y: Score, descending: bool) {
    match (x, y)
    case (Finite(a), Finite(b)) => if descending then a > b else a < b
    case (Finite(_), NegInfinity) => descending
    case (NegInfinity, Finite(_)) => !descending
    case (NegInfinity, NegInfinity) => false
    case (Finite(_), _) => true
    case (NegInfinity, _) => true
    case (PosInfinity, _) => false
    case (NaN, _) => false
  }

  /** In a sorted group no entry stands behind one it comes first of, whichever the direction; an entry without a score is
      treated like one whose score is not a number. */
  lemma SortedByScore(entries: seq<Entry>, scorer: Scorer, descending: bool, i: nat, j: nat)
    requires i < j < |Sorted(entries, scorer, descending)|
    ensures var r := Sorted(entries, scorer, descending);
      !ComesFirst(if scorer in r[j].scores then r[j].scores[scorer] else NaN,
                  if scorer in r[i].scores then r[i].scores[scorer] else NaN, descending)
  {
    SortIsOrderedPermutation(entries, scorer, descending);
    var r := Sorted(entries, scorer, descending);
    assert !Precedes(r[j], r[i], scorer, descending);
    RankingIsByScore(ScoreOf(r[j], scorer), ScoreOf(r[i], scorer), descending);
  }

  lemma RankingIsByScore(x: Score, y: Score, descending: bool)
    ensures Before(RankOf(x, descending), RankOf(y, descending)) <==> ComesFirst(x, y, descending)
    ensures RankOf(x, descending) == RankOf(y, descending) <==>
      x == y || (x in {PosInfinity, NaN} && y in {PosInfinity, NaN})
  {
  }

  // ----- The adapter's buffer -----

  type Groups = map<Composition, seq<Entry>>

  function HashSet(entries: seq<Entry>): set<Hash> { set e | e in entries :: e.hash }

  function Hashes(entries: seq<Entry>): seq<Hash> {
    seq(|entries|, i requires 0 <= i < |entries| => entries[i].hash)
  }

  ghost predicate GroupOk(c: Composition, entries: seq<Entry>) {
    Distinct(Hashes(entries)) && forall e :: e in entries ==> e.composition == c
  }

  /** Each group is kept under its own composition and is never empty; the index holds exactly the buffered hashes, each
      buffered once. */
  ghost predicate BufferOk(buffer: Groups, index: set<Hash>) {
    && (forall c :: c in buffer ==> buffer[c] != [] && GroupOk(c, buffer[c]) && HashSet(buffer[c]) <= index)
    && (forall c, d :: c in buffer && d in buffer && c != d ==> HashSet(buffer[c]) !! HashSet(buffer[d]))
    && (forall h :: h in index ==> exists c :: c in buffer && h in HashSet(buffer[c]))
  }

  function Group(buffer: Groups, c: Composition): seq<Entry> { if c in buffer then buffer[c] else [] }

  function Regrouped(buffer: Groups, c: Composition, entries: seq<Entry>): Groups {
    if entries == [] then buffer - {c} else buffer[c := entries]
  }

  /** Replacing one group keeps the buffer in step with its index, if the new hashes are new. */
  lemma RegroupKeeps(buffer: Groups, index: set<Hash>, c: Composition, entries: seq<Entry>)
    requires BufferOk(buffer, index) && GroupOk(c, entries)
    requires HashSet(entries) * index <= HashSet(Group(buffer, c))
    ensures BufferOk(Regrouped(buffer, c, entries), index - HashSet(Group(buffer, c)) + HashSet(entries))
  {
    hide GroupOk, HashSet;
    var after, left := Regrouped(buffer, c, entries), index - HashSet(Group(buffer, c)) + HashSet(entries);
    NoHashes();
    forall d | d in after && d != c ensures HashSet(after[d]) !! HashSet(entries) && HashSet(after[d]) <= left {
      assert d in buffer && HashSet(buffer[d]) <= index;
      assert c in buffer ==> HashSet(buffer[d]) !! HashSet(buffer[c]);
    }
    forall h | h in left ensures exists d :: d in after && h in HashSet(after[d]) {
      if h in HashSet(entries) {
        assert c in after && after[c] == entries;
      } else {
        var d :| d in buffer && h in HashSet(buffer[d]);
        assert d != c && d in after && after[d] == buffer[d];
      }
    }
  }

  lemma NoHashes()
    ensures HashSet([]) == {}
  {
  }

  /** The position of the first entry with that hash. */
  function Find(entries: seq<Entry>, h: Hash): Option<nat> {
    if entries == [] then None
    else if entries[0].hash == h then Some(0)
    else
      var rest := Find(entries[1..], h);
      if rest.None? then None else Some(rest.value + 1)
  }

  lemma {:induction false} FindFacts(entries: seq<Entry>, h: Hash)
    ensures var r := Find(entries, h);
      && (r.Some? ==> r.value < |entries| && entries[r.value].hash == h)
      && (r.None? ==> forall i :: 0 <= i < |entries| ==> entries[i].hash != h)
  {
    if entries != [] { FindFacts(entries[1..], h); }
  }

  class Buffer {
    var groups: Groups
    var index: set<Hash>
    var selected: Option<Entry>

    constructor ()
      ensures Valid() && groups == map[] && selected.None?
    {
      groups, index, selected := map[], {}, None;
    }

    ghost predicate Valid()
      reads this
    {
      BufferOk(groups, index)
    }

    /** Adds a structure that is new and passes the official filters. */
    method Add(e: Entry, valid: bool, filtersPass: bool) returns (r: Outcome<bool, ToolError>)
      requires Valid()
      modifies this`groups, this`index
      ensures Valid()
      ensures r == if !valid then Raised(InvalidStructure) else Returned(e.hash !in old(index) && filtersPass)
      ensures r == Returned(true) ==>
        && index == old(index) + {e.hash}
        && groups == old(groups)[e.composition := Group(old(groups), e.composition) + [e]]
      ensures r != Returned(true) ==> groups == old(groups) && index == old(index)
    {
      if !valid { return Raised(InvalidStructure); }
      if e.hash in index || !filtersPass { return Returned(false); }
      AddFits(groups, index, e);
      RegroupKeeps(groups, index, e.composition, Group(groups, e.composition) + [e]);
      groups := groups[e.composition := Group(groups, e.composition) + [e]];
      index := index + {e.hash};
      r := Returned(true);
    }

    /** One group's scores, kept entry by entry, and the stable sort that follows. */
    method ScoreGroup(c: Composition, scorer: Scorer, scores: seq<Score>) returns (r: Outcome<(), ToolError>)
      requires Valid()
      modifies this`groups
      ensures Valid()
      ensures r == if c !in old(groups) then Raised(MissingComposition)
                   else if |scores| != |old(groups)[c]| then Raised(LengthMismatch) else Returned(())
      ensures groups == if r.Raised? then old(groups)
                        else old(groups)[c := Sorted(Rescored(old(groups)[c], scorer, scores), scorer, true)]
    {
      if c !in groups { return Raised(MissingComposition); }
      var entries := groups[c];
      if |scores| != |entries| { return Raised(LengthMismatch); }
      var rescored: seq<Entry> := [];
      for i := 0 to |entries|
        invariant |rescored| == i
        invariant forall k :: 0 <= k < i ==> rescored[k] == entries[k].(scores := entries[k].scores[scorer := scores[k]])
      {
        rescored := rescored + [entries[i].(scores := entries[i].scores[scorer := scores[i]])];
      }
      assert rescored == Rescored(entries, scorer, scores);
      RescoreFits(c, entries, scorer, scores);
      SortFits(c, rescored, scorer, true);
      RegroupKeeps(groups, index, c, Sorted(rescored, scorer, true));
      IndexUnchanged(index, HashSet(entries));
      groups := groups[c := Sorted(rescored, scorer, true)];
      r := Returned(());
    }

    /** Sorts one group in place by a scorer. */
    method Resort(c: Composition, scorer: Scorer)
      requires Valid() && c in groups
      modifies this`groups
      ensures Valid() && groups == old(groups)[c := Sorted(old(groups)[c], scorer, true)]
    {
      SortFits(c, groups[c], scorer, true);
      RegroupKeeps(groups, index, c, Sorted(groups[c], scorer, true));
      IndexUnchanged(index, HashSet(groups[c]));
      groups := groups[c := Sorted(groups[c], scorer, true)];
    }

    /** Moves one candidate from its group to the selection. */
    method Take(c: Composition, at: nat) returns (e: Entry)
      requires Valid() && c in groups && at < |groups[c]|
      modifies this
      ensures Valid() && e == old(groups)[c][at] && e.composition == c && selected == Some(e) && index == old(index) - {e.hash}
      ensures groups == Regrouped(old(groups), c, old(groups)[c][..at] + old(groups)[c][at + 1..])
    {
      var entries := groups[c];
      var left := entries[..at] + entries[at + 1..];
      assert entries[at] in entries;
      RemoveFits(c, entries, at);
      RegroupKeeps(groups, index, c, left);
      e := entries[at];
      TakenIndex(index, HashSet(entries), e.hash);
      selected, groups, index := Some(e), Regrouped(groups, c, left), index - {e.hash};
    }

    /** Takes one candidate out of the buffer: by its hash, by its rank under a scorer, or by its position. */
    method Select(c: Composition, hash: Option<Hash>, scorer: Option<Scorer>, position: int) returns (r: Outcome<Entry, ToolError>)
      requires Valid()
      modifies this
      ensures Valid()
      ensures r.Returned? <==> old(selected).None? && c in old(groups) && Selectable(old(groups)[c], hash, scorer, position)
      ensures r.Raised? ==>
        && selected == old(selected) && index == old(index)
        && (groups == old(groups) || (c in old(groups) && groups == old(groups)[c := Arranged(old(groups)[c], hash, scorer)]))
      ensures r.Returned? ==>
        && selected == Some(r.value) && r.value.composition == c
        && var entries := Arranged(old(groups)[c], hash, scorer);
        && var at := Target(entries, hash, position);
        && 0 <= at < |entries| && r.value == entries[at]
        && groups == (if |entries| == 1 then old(groups) - {c} else old(groups)[c := entries[..at] + entries[at + 1..]])
        && index == old(index) - {r.value.hash}
        && (scorer.Some? ==> scorer.value in r.value.scores && Usable(r.value.scores[scorer.value]))
    {
      hide BufferOk, Sorted;
      if selected.Some? { return Raised(SelectionPending); }
      if c !in groups { return Raised(MissingComposition); }
      var at := position;
      if hash.Some? {
        FindFacts(groups[c], hash.value);
        var found := Find(groups[c], hash.value);
        if found.None? { return Raised(InvalidHash); }
        at := found.value;
      } else if scorer.Some? {
        if !AllScored(groups[c], scorer.value) { return Raised(Unscored); }
        Resort(c, scorer.value);
      }
      var entries := groups[c];
      if !(0 <= at < |entries|) { return Raised(InvalidIndex); }
      if scorer.Some? && (scorer.value !in entries[at].scores || !Rankable(entries[at].scores[scorer.value])) {
        return Raised(Unrankable);
      }
      RegroupTwice(old(groups), c, entries, entries[..at] + entries[at + 1..]);
      var taken := Take(c, at);
      r := Returned(taken);
    }

    /** `random.shuffle` of a listing. */
    static method ShuffleListing(entries: seq<Entry>, listing: seq<(nat, Entry)>) returns (r: seq<(nat, Entry)>)
      requires AllPoint(entries, listing)
      ensures AllPoint(entries, r) && multiset(Places(r)) == multiset(Places(listing))
    {
      hide Places;
      r := listing;
      var i := |r|;
      while i > 1
        invariant i <= |r| && AllPoint(entries, r) && multiset(Places(r)) == multiset(Places(listing))
      {
        i := i - 1;
        var j: int := *;
        if 0 <= j <= i {
          SwapKeepsPlaces(r, i, j);
          r := r[i := r[j]][j := r[i]];
        }
      }
    }

    /** The listing in the order of the mode. */
    static method Listing(entries: seq<Entry>, mode: string, scorer: Option<Scorer>)
      returns (r: Outcome<seq<(nat, Entry)>, ToolError>)
      ensures r.Returned? <==> ModeOk(entries, mode, scorer)
      ensures r.Returned? ==> AllPoint(entries, r.value) && multiset(Places(r.value)) == multiset(Places(Numbered(entries)))
      ensures r.Returned? && mode == "all" ==> r.value == Numbered(entries)
      ensures r.Returned? && Ranks(mode) ==> scorer.Some? && Second(r.value) == Sorted(entries, scorer.value, mode == "top")
    {
      hide Sorted, SortedPairs, Places;
      var listing := Numbered(entries);
      NumberedPoints(entries);
      if mode == "top" || mode == "bottom" {
        if scorer.None? || !AllScored(entries, scorer.value) { return Raised(Unscored); }
        SortedPairsFacts(entries, listing, scorer.value, mode == "top");
        SortKeepsPlaces(listing, scorer.value, mode == "top");
        return Returned(SortedPairs(listing, scorer.value, mode == "top"));
      }
      if mode == "random" {
        listing := ShuffleListing(entries, listing);
      } else if mode != "all" {
        return Raised(InvalidMode);
      }
      r := Returned(listing);
    }

    /** Lists candidates with their position in the buffer and their hash; `mode` only orders the listing. */
    method Query(c: Composition, k: int, mode: string, scorer: Option<Scorer>) returns (r: Outcome<seq<(nat, Hash)>, ToolError>)
      requires Valid()
      ensures r.Returned? <==> c in groups && k > 0 && ModeOk(groups[c], mode, scorer)
      ensures r.Returned? ==>
        && |r.value| == (if k < |groups[c]| then k else |groups[c]|)
        && (forall i :: 0 <= i < |r.value| ==> Points(groups[c], r.value[i]))
        && (forall i, j :: 0 <= i < j < |r.value| ==> r.value[i].0 != r.value[j].0)
        && (mode == "all" ==> forall i :: 0 <= i < |r.value| ==> r.value[i].0 == i)
        && (Ranks(mode) ==> scorer.Some? && Lists(r.value, Sorted(groups[c], scorer.value, mode == "top"), k))
    {
      hide Sorted, Places, ModeOk, Ranks;
      if c !in groups { return Raised(MissingComposition); }
      if k <= 0 { return Raised(InvalidCount); }
      var listing :- Listing(groups[c], mode, scorer);
      PlacesDiffer(groups[c], listing);
      var shown := if k < |listing| then listing[..k] else listing;
      r := Returned(seq(|shown|, i requires 0 <= i < |shown| => (shown[i].0, shown[i].1.hash)));
    }
  }

  predicate Ranks(mode: string) { mode == "top" || mode == "bottom" }

  predicate ModeOk(entries: seq<Entry>, mode: string, scorer: Option<Scorer>) {
    || mode == "all" || mode == "random"
    || (Ranks(mode) && scorer.Some? && forall e :: e in entries ==> scorer.value in e.scores)
  }

  function Rescored(entries: seq<Entry>, scorer: Scorer, scores: seq<Score>): seq<Entry>
    requires |scores| == |entries|
  {
    seq(|entries|, i requires 0 <= i < |entries| => entries[i].(scores := entries[i].scores[scorer := scores[i]]))
  }

  /** The order in which a selection counts: a selection by rank sorts the group again, the others do not. */
  function Arranged(entries: seq<Entry>, hash: Option<Hash>, scorer: Option<Scorer>): seq<Entry> {
    if hash.None? && scorer.Some? then Sorted(entries, scorer.value, true) else entries
  }

  function Target(entries: seq<Entry>, hash: Option<Hash>, position: int): int {
    if hash.Some? then (if Find(entries, hash.value).Some? then Find(entries, hash.value).value else -1) else position
  }

  /** A selection the buffer can serve: a listed hash or a position inside the group, with a usable score if one is asked. */
  predicate Selectable(group: seq<Entry>, hash: Option<Hash>, scorer: Option<Scorer>, position: int) {
    && (hash.None? && scorer.Some? ==> forall e :: e in group ==> scorer.value in e.scores)
    && var entries := Arranged(group, hash, scorer);
    && var at := Target(entries, hash, position);
    && 0 <= at < |entries|
    && (scorer.Some? ==> scorer.value in entries[at].scores && Usable(entries[at].scores[scorer.value]))
  }

  /** A score that a selection accepts: a number, or minus infinity. */
  predicate Usable(s: Score) { s != PosInfinity && s != NaN }

  predicate AllScored(entries: seq<Entry>, scorer: Scorer) { forall i :: 0 <= i < |entries| ==> scorer in entries[i].scores }

  /** A listed candidate names its own place in the buffer. */
  predicate Points(entries: seq<Entry>, item: (nat, Hash)) { item.0 < |entries| && entries[item.0].hash == item.1 }

  /** The first `k` of the ranked candidates, in that order. */
  predicate Lists(items: seq<(nat, Hash)>, ranked: seq<Entry>, k: int) {
    && |items| == (if k < |ranked| then k else |ranked|)
    && forall i :: 0 <= i < |items| ==> items[i].1 == ranked[i].hash
  }

  function Numbered(entries: seq<Entry>): seq<(nat, Entry)> {
    seq(|entries|, i requires 0 <= i < |entries| => (i, entries[i]))
  }

  ghost predicate AllPoint(entries: seq<Entry>, pairs: seq<(nat, Entry)>) {
    forall i :: 0 <= i < |pairs| ==> pairs[i].0 < |entries| && entries[pairs[i].0] == pairs[i].1
  }

  function InsertPair(p: (nat, Entry), sorted: seq<(nat, Entry)>, scorer: Scorer, descending: bool): seq<(nat, Entry)> {
    if sorted == [] then [p]
    else if Precedes(sorted[0].1, p.1, scorer, descending) then [sorted[0]] + InsertPair(p, sorted[1..], scorer, descending)
    else [p] + sorted
  }

  function SortedPairs(pairs: seq<(nat, Entry)>, scorer: Scorer, descending: bool): seq<(nat, Entry)> {
    if pairs == [] then []
    else InsertPair(pairs[0], SortedPairs(pairs[1..], scorer, descending), scorer, descending)
  }

  function Second(pairs: seq<(nat, Entry)>): seq<Entry> {
    seq(|pairs|, i requires 0 <= i < |pairs| => pairs[i].1)
  }

  function Places(pairs: seq<(nat, Entry)>): seq<nat> {
    seq(|pairs|, i requires 0 <= i < |pairs| => pairs[i].0)
  }

  lemma NumberedPoints(entries: seq<Entry>)
    ensures AllPoint(entries, Numbered(entries))
  {
  }

  lemma PlacesCons(p: (nat, Entry), rest: seq<(nat, Entry)>)
    ensures multiset(Places([p] + rest)) == multiset{p.0} + multiset(Places(rest))
  {
    assert Places([p] + rest) == [p.0] + Places(rest);
  }

  lemma {:induction false} InsertKeepsPlaces(p: (nat, Entry), sorted: seq<(nat, Entry)>, scorer: Scorer, descending: bool)
    ensures multiset(Places(InsertPair(p, sorted, scorer, descending))) == multiset{p.0} + multiset(Places(sorted))
  {
    hide Places, Precedes;
    PlacesCons(p, sorted);
    if sorted == [] {
      assert [p] + sorted == [p];
    } else if Precedes(sorted[0].1, p.1, scorer, descending) {
      InsertKeepsPlaces(p, sorted[1..], scorer, descending);
      PlacesCons(sorted[0], InsertPair(p, sorted[1..], scorer, descending));
      PlacesCons(sorted[0], sorted[1..]);
      assert sorted == [sorted[0]] + sorted[1..];
    }
  }

  lemma {:induction false} SortKeepsPlaces(pairs: seq<(nat, Entry)>, scorer: Scorer, descending: bool)
    ensures multiset(Places(SortedPairs(pairs, scorer, descending))) == multiset(Places(pairs))
  {
    hide Places, InsertPair;
    if pairs != [] {
      SortKeepsPlaces(pairs[1..], scorer, descending);
      InsertKeepsPlaces(pairs[0], SortedPairs(pairs[1..], scorer, descending), scorer, descending);
      PlacesCons(pairs[0], pairs[1..]);
      assert pairs == [pairs[0]] + pairs[1..];
    }
  }

  lemma SwapKeepsPlaces(pairs: seq<(nat, Entry)>, i: nat, j: nat)
    requires i < |pairs| && j < |pairs|
    ensures multiset(Places(pairs[i := pairs[j]][j := pairs[i]])) == multiset(Places(pairs))
  {
    assert Places(pairs[i := pairs[j]][j := pairs[i]]) == Places(pairs)[i := Places(pairs)[j]][j := Places(pairs)[i]];
  }

  /** A listing with the places of all entries has each place once. */
  lemma PlacesDiffer(entries: seq<Entry>, pairs: seq<(nat, Entry)>)
    requires multiset(Places(pairs)) == multiset(Places(Numbered(entries)))
    ensures |pairs| == |entries| && forall i, j :: 0 <= i < j < |pairs| ==> pairs[i].0 != pairs[j].0
  {
    assert |multiset(Places(pairs))| == |multiset(Places(Numbered(entries)))|;
    DistinctCounts(Places(Numbered(entries)));
    DistinctCounts(Places(pairs));
    forall i, j | 0 <= i < j < |pairs| ensures pairs[i].0 != pairs[j].0 { assert Places(pairs)[i] != Places(pairs)[j]; }
  }

  lemma SecondCons(p: (nat, Entry), rest: seq<(nat, Entry)>)
    ensures Second([p] + rest) == [p.1] + Second(rest)
  {
  }

  lemma {:induction false} InsertPairFacts(entries: seq<Entry>, p: (nat, Entry), sorted: seq<(nat, Entry)>, scorer: Scorer,
                                           descending: bool)
    requires AllPoint(entries, sorted) && p.0 < |entries| && entries[p.0] == p.1
    ensures AllPoint(entries, InsertPair(p, sorted, scorer, descending))
    ensures Second(InsertPair(p, sorted, scorer, descending)) == Insert(p.1, Second(sorted), scorer, descending)
  {
    hide Precedes, Second;
    SecondCons(p, sorted);
    if sorted == [] {
      SecondEmpty();
      assert [p] + sorted == [p];
    } else {
      var head, rest := sorted[0], sorted[1..];
      assert sorted == [head] + rest;
      SecondCons(head, rest);
      assert ([head.1] + Second(rest))[1..] == Second(rest);
      InsertPairFacts(entries, p, rest, scorer, descending);
      SecondCons(head, InsertPair(p, rest, scorer, descending));
    }
  }

  lemma SecondEmpty()
    ensures Second([]) == []
  {
  }

  lemma {:induction false} SortedPairsFacts(entries: seq<Entry>, pairs: seq<(nat, Entry)>, scorer: Scorer, descending: bool)
    requires AllPoint(entries, pairs)
    ensures AllPoint(entries, SortedPairs(pairs, scorer, descending))
    ensures Second(SortedPairs(pairs, scorer, descending)) == Sorted(Second(pairs), scorer, descending)
    ensures Second(Numbered(entries)) == entries
  {
    hide Precedes, InsertPair, Insert;
    if pairs != [] {
      SortedPairsFacts(entries, pairs[1..], scorer, descending);
      assert AllPoint(entries, [pairs[0]]);
      InsertPairFacts(entries, pairs[0], SortedPairs(pairs[1..], scorer, descending), scorer, descending);
      assert Second(pairs)[1..] == Second(pairs[1..]);
    }
  }

  // ----- Selecting what a query listed -----

  lemma {:induction false} FindListed(entries: seq<Entry>, i: nat)
    requires i < |entries| && Distinct(Hashes(entries))
    ensures Find(entries, entries[i].hash) == Some(i)
  {
    if i > 0 {
      assert Hashes(entries)[0] != Hashes(entries)[i];
      assert Hashes(entries)[1..] == Hashes(entries[1..]);
      assert entries[1..][i - 1] == entries[i];
      FindListed(entries[1..], i - 1);
    }
  }

  /** Selecting a listed hash takes the listed candidate; so does its position, unless a scorer sorts the group again. */
  lemma ListedSelection(c: Composition, entries: seq<Entry>, item: (nat, Hash), scorer: Option<Scorer>)
    requires GroupOk(c, entries) && Points(entries, item)
    ensures Target(Arranged(entries, Some(item.1), scorer), Some(item.1), 0) == item.0
    ensures Arranged(entries, Some(item.1), scorer) == entries
    ensures Arranged(entries, None, None)[Target(entries, None, item.0)] == entries[item.0]
  {
    FindListed(entries, item.0);
  }

  /** With a scorer, every position keeps its candidate exactly when the group already is in score order. */
  lemma PositionsKeepIffOrdered(entries: seq<Entry>, scorer: Scorer)
    ensures Arranged(entries, None, Some(scorer)) == entries <==> InOrder(entries, scorer, true)
  {
    hide Precedes;
    SortIsOrderedPermutation(entries, scorer, true);
    if InOrder(entries, scorer, true) { OrderedIsFixed(entries, scorer, true); }
  }

  lemma {:induction false} OrderedIsFixed(entries: seq<Entry>, scorer: Scorer, descending: bool)
    requires InOrder(entries, scorer, descending)
    ensures Sorted(entries, scorer, descending) == entries
  {
    hide Precedes;
    if entries != [] {
      var rest := entries[1..];
      OrderedIsFixed(rest, scorer, descending);
      assert rest != [] ==> rest[0] == entries[1];
      assert [entries[0]] + rest == entries;
    }
  }

  /** A buffer in which position 0 under a scorer is not the candidate listed at position 0. */
  lemma PositionCanMove(worse: Hash, better: Hash)
    ensures var low := Entry(worse, "AB", "random", map["oracle" := Finite(0.0)]);
      var high := Entry(better, "AB", "random", map["oracle" := Finite(1.0)]);
      Arranged([low, high], None, Some("oracle")) == [high, low]
  {
    var low := Entry(worse, "AB", "random", map["oracle" := Finite(0.0)]);
    var high := Entry(better, "AB", "random", map["oracle" := Finite(1.0)]);
    assert [low, high][0] == low && [low, high][1..] == [high] && [high][0] == high && [high][1..] == [];
    SortedOne(high, "oracle");
    assert RankOf(ScoreOf(high, "oracle"), true) == Valid(-1.0) && RankOf(ScoreOf(low, "oracle"), true) == Valid(-0.0);
    assert Precedes(high, low, "oracle", true);
    assert Insert(low, [high], "oracle", true) == [high] + Insert(low, [], "oracle", true);
    assert Insert(low, [], "oracle", true) == [low];
    assert Sorted([low, high], "oracle", true) == Insert(low, Sorted([high], "oracle", true), "oracle", true);
  }

  lemma SortedOne(e: Entry, scorer: Scorer)
    ensures Sorted([e], scorer, true) == [e]
  {
    assert [e][1..] == [] && Sorted([], scorer, true) == [];
    assert Insert(e, [], scorer, true) == [e];
  }

  // ----- Groups keep their hashes -----

  lemma IndexUnchanged(index: set<Hash>, mine: set<Hash>)
    ensures mine <= index ==> index - mine + mine == index
  {
  }

  lemma TakenIndex(index: set<Hash>, mine: set<Hash>, h: Hash)
    requires mine <= index
    ensures index - mine + (mine - {h}) == index - (if h in mine then {h} else {})
  {
  }

  lemma RegroupTwice(buffer: Groups, c: Composition, first: seq<Entry>, second: seq<Entry>)
    requires c in buffer
    ensures Regrouped(buffer[c := first], c, second) == Regrouped(buffer, c, second)
    ensures buffer[c := buffer[c]] == buffer
  {
  }

  lemma RescoreFits(c: Composition, entries: seq<Entry>, scorer: Scorer, scores: seq<Score>)
    requires GroupOk(c, entries) && |scores| == |entries|
    ensures GroupOk(c, Rescored(entries, scorer, scores)) && HashSet(Rescored(entries, scorer, scores)) == HashSet(entries)
  {
    var r := Rescored(entries, scorer, scores);
    assert Hashes(r) == Hashes(entries);
    forall h ensures h in HashSet(r) <==> h in HashSet(entries) {
      HashesAreSet(r, h);
      HashesAreSet(entries, h);
    }
  }

  lemma HashesCons(e: Entry, rest: seq<Entry>)
    ensures Hashes([e] + rest) == [e.hash] + Hashes(rest)
    ensures multiset(Hashes([e] + rest)) == multiset{e.hash} + multiset(Hashes(rest))
  {
    assert Hashes([e] + rest) == [e.hash] + Hashes(rest);
  }

  lemma {:induction false} InsertKeepsHashes(e: Entry, sorted: seq<Entry>, scorer: Scorer, descending: bool)
    ensures multiset(Hashes(Insert(e, sorted, scorer, descending))) == multiset{e.hash} + multiset(Hashes(sorted))
  {
    hide Hashes, Precedes;
    HashesCons(e, sorted);
    if sorted == [] {
      assert [e] + sorted == [e];
    } else if Precedes(sorted[0], e, scorer, descending) {
      InsertKeepsHashes(e, sorted[1..], scorer, descending);
      HashesCons(sorted[0], Insert(e, sorted[1..], scorer, descending));
      HashesCons(sorted[0], sorted[1..]);
      assert sorted == [sorted[0]] + sorted[1..];
    }
  }

  lemma {:induction false} SortKeepsHashes(entries: seq<Entry>, scorer: Scorer, descending: bool)
    ensures multiset(Hashes(Sorted(entries, scorer, descending))) == multiset(Hashes(entries))
  {
    hide Hashes, Insert;
    if entries != [] {
      SortKeepsHashes(entries[1..], scorer, descending);
      InsertKeepsHashes(entries[0], Sorted(entries[1..], scorer, descending), scorer, descending);
      HashesCons(entries[0], entries[1..]);
      assert entries == [entries[0]] + entries[1..];
    }
  }

  lemma SortFits(c: Composition, entries: seq<Entry>, scorer: Scorer, descending: bool)
    requires GroupOk(c, entries)
    ensures var r := Sorted(entries, scorer, descending);
      GroupOk(c, r) && HashSet(r) == HashSet(entries) && |r| == |entries|
  {
    hide Sorted, Precedes;
    var r := Sorted(entries, scorer, descending);
    SortIsOrderedPermutation(entries, scorer, descending);
    assert |multiset(r)| == |multiset(entries)|;
    SortKeepsHashes(entries, scorer, descending);
    DistinctCounts(Hashes(r));
    DistinctCounts(Hashes(entries));
    forall e ensures e in r <==> e in entries { assert e in multiset(r) <==> e in multiset(entries); }
  }

  lemma RemoveFits(c: Composition, entries: seq<Entry>, at: nat)
    requires GroupOk(c, entries) && at < |entries|
    ensures var left := entries[..at] + entries[at + 1..];
      GroupOk(c, left) && HashSet(left) == HashSet(entries) - {entries[at].hash}
  {
    var left := entries[..at] + entries[at + 1..];
    assert entries == entries[..at] + [entries[at]] + entries[at + 1..];
    forall i, j | 0 <= i < j < |left| ensures Hashes(left)[i] != Hashes(left)[j] {
      var i2, j2 := if i < at then i else i + 1, if j < at then j else j + 1;
      assert Hashes(entries)[i2] != Hashes(entries)[j2];
    }
    forall h ensures h in HashSet(left) <==> h in HashSet(entries) - {entries[at].hash} {
      LeftHash(entries, at, h);
    }
  }

  lemma LeftHash(entries: seq<Entry>, at: nat, h: Hash)
    requires Distinct(Hashes(entries)) && at < |entries|
    ensures h in HashSet(entries[..at] + entries[at + 1..]) <==> h in HashSet(entries) && h != entries[at].hash
  {
    var left := entries[..at] + entries[at + 1..];
    if e :| e in left && e.hash == h {
      var i :| 0 <= i < |left| && left[i] == e;
      var i2 := if i < at then i else i + 1;
      assert entries[i2] == e && Hashes(entries)[i2] != Hashes(entries)[at];
    }
    if h in HashSet(entries) && h != entries[at].hash {
      var e :| e in entries && e.hash == h;
      var i :| 0 <= i < |entries| && entries[i] == e;
      assert left[if i < at then i else i - 1] == e;
    }
  }

  lemma AddFits(buffer: Groups, index: set<Hash>, e: Entry)
    requires BufferOk(buffer, index) && e.hash !in index
    ensures var before, after := Group(buffer, e.composition), Group(buffer, e.composition) + [e];
      && GroupOk(e.composition, after) && HashSet(after) == HashSet(before) + {e.hash}
      && HashSet(before) <= index
  {
    var before := Group(buffer, e.composition);
    assert HashSet(before) <= index && GroupOk(e.composition, before) by { NoHashes(); }
    HashSetAppend(before, e);
    assert Hashes(before + [e]) == Hashes(before) + [e.hash];
    forall x | x in Hashes(before) ensures x !in [e.hash] { HashesAreSet(before, x); }
    DistinctAppend(Hashes(before), [e.hash]);
  }

  lemma HashSetAppend(entries: seq<Entry>, e: Entry)
    ensures HashSet(entries + [e]) == HashSet(entries) + {e.hash}
  {
    forall h | h in HashSet(entries) + {e.hash} ensures h in HashSet(entries + [e]) {
      if h == e.hash { assert e in entries + [e]; } else { var x :| x in entries && x.hash == h; assert x in entries + [e]; }
    }
  }

  lemma HashesAreSet(entries: seq<Entry>, h: Hash)
    ensures h in Hashes(entries) <==> h in HashSet(entries)
  {
    if h in Hashes(entries) {
      var i :| 0 <= i < |Hashes(entries)| && Hashes(entries)[i] == h;
      assert entries[i] in entries;
    }
    if h in HashSet(entries) {
      var e :| e in entries && e.hash == h;
      var i :| 0 <= i < |entries| && entries[i] == e;
      assert Hashes(entries)[i] == h;
    }
  }
}
