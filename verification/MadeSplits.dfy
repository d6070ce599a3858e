/** Choosing train and development chemical systems: stability support, the reservoir loop, and split assembly. */
module MadeSplits {
  import opened Wrappers
  import opened ChemicalSystems
  import opened Ordering
  import opened Reservoir

  /** Outcomes of one seeded generator: stream, call number, and exclusive bound of the call. */
  type Rng = (nat, nat, nat) -> nat

  ghost predicate InBounds(rng: Rng) { forall s: nat, c: nat, b: nat :: b > 0 ==> rng(s, c, b) < b }

  // ----- Stability support -----

  lemma {:induction false} SumGrows(systems: seq<System>, counts: map<System, nat>, n: nat)
    requires n <= |systems|
    ensures SumCounts(systems[..n], counts) <= SumCounts(systems, counts)
  {
    if n < |systems| {
      var front := systems[..|systems| - 1];
      assert front[..n] == systems[..n];
      SumGrows(front, counts, n);
    } else {
      assert systems[..n] == systems;
    }
  }

  lemma {:induction false} TotalGrows(system: System, counts: map<System, nat>, limit: nat, higher: nat)
    requires limit <= higher
    ensures StableTotal(system, counts, limit) <= StableTotal(system, counts, higher)
    decreases higher
  {
    if limit < higher { TotalGrows(system, counts, limit, higher - 1); }
  }

  /** Adds one size of sub-systems to the count, and leaves as soon as enough stable entries are found. */
  method CountSize(system: System, counts: map<System, nat>, size: nat, before: nat, required: nat) returns (count: nat)
    requires before < required
    ensures count < required ==> count == before + SumCounts(Combinations(system, size), counts)
    ensures count >= required <==> before + SumCounts(Combinations(system, size), counts) >= required
  {
    hide Combinations, CountOf;
    count := before;
    var subsets := Combinations(system, size);
    for i := 0 to |subsets|
      invariant count == before + SumCounts(subsets[..i], counts) && count < required
    {
      assert subsets[..i + 1][..i] == subsets[..i];
      count := count + CountOf(counts, subsets[i]);
      if count >= required {
        SumGrows(subsets, counts, i + 1);
        return;
      }
    }
    assert subsets[..|subsets|] == subsets;
  }

  /** Leaving early does not change the verdict: counts only grow. */
  method HasStableSubphases(system: System, counts: map<System, nat>, required: nat) returns (r: bool)
    requires required > 0
    ensures r <==> StableTotal(system, counts, |system| + 1) >= required
  {
    hide Combinations, SumCounts;
    var count := 0;
    for size := 2 to if |system| + 1 < 2 then 2 else |system| + 1
      invariant count == StableTotal(system, counts, size) && count < required
    {
      count := CountSize(system, counts, size, count, required);
      if count >= required {
        TotalGrows(system, counts, size + 1, |system| + 1);
        return true;
      }
    }
    r := false;
  }

  predicate Eligible(system: System, excluded: set<System>, counts: map<System, nat>) {
    system !in excluded && StableTotal(system, counts, |system| + 1) >= 2
  }

  function EligibleIn(systems: seq<System>, excluded: set<System>, counts: map<System, nat>): seq<System> {
    if systems == [] then []
    else
      var n := |systems| - 1;
      EligibleIn(systems[..n], excluded, counts) + if Eligible(systems[n], excluded, counts) then [systems[n]] else []
  }

  lemma {:induction false} EligibleAre(systems: seq<System>, excluded: set<System>, counts: map<System, nat>)
    ensures forall s :: s in EligibleIn(systems, excluded, counts) <==> s in systems && Eligible(s, excluded, counts)
    ensures Distinct(systems) ==> Distinct(EligibleIn(systems, excluded, counts))
  {
    hide Eligible, Distinct;
    if systems != [] {
      var n := |systems| - 1;
      EligibleAre(systems[..n], excluded, counts);
      assert systems == systems[..n] + [systems[n]];
      var before := EligibleIn(systems[..n], excluded, counts);
      if Distinct(systems) {
        LastIsNew(systems);
        SingleDistinct(systems[n]);
        if Eligible(systems[n], excluded, counts) { DistinctAppend(before, [systems[n]]); } else { assert before + [] == before; }
      }
    } else {
      var none: System := [];
      SingleDistinct(none);
    }
  }

  lemma EligibleStep(systems: seq<System>, i: nat, excluded: set<System>, counts: map<System, nat>)
    requires i < |systems|
    ensures var pool := EligibleIn(systems[..i], excluded, counts);
      EligibleIn(systems[..i + 1], excluded, counts)
      == if Eligible(systems[i], excluded, counts) then pool + [systems[i]] else pool
  {
    assert systems[..i + 1][..i] == systems[..i];
  }

  /** The positions `c` of the allowed elements pick a system of the size asked for, not excluded, with two stable entries. */
  ghost predicate EligibleChoice(elements: seq<Element>, size: nat, excluded: set<System>, counts: map<System, nat>, c: seq<nat>) {
    |c| == size && Rising(c, |elements|) && Picked(elements, c) !in excluded && TwoStable(Picked(elements, c), counts)
  }

  /** All eligible choices, each once, in lexicographic order. */
  ghost predicate EligibleChoices(elements: seq<Element>, size: nat, excluded: set<System>, counts: map<System, nat>,
                                  choices: seq<seq<nat>>) {
    InOrder(choices) && forall c :: c in choices <==> EligibleChoice(elements, size, excluded, counts, c)
  }

  /** What `c` picks is not excluded and has two stable entries. */
  ghost predicate Kept(elements: seq<Element>, excluded: set<System>, counts: map<System, nat>, c: seq<nat>) {
    Rising(c, |elements|) && Picked(elements, c) !in excluded && TwoStable(Picked(elements, c), counts)
  }

  /** `kept` are the kept ones of `choices`, in the same order. */
  ghost predicate KeptOf(choices: seq<seq<nat>>, elements: seq<Element>, excluded: set<System>, counts: map<System, nat>,
                         kept: seq<seq<nat>>) {
    InOrder(kept) && forall c :: c in kept <==> c in choices && Kept(elements, excluded, counts, c)
  }

  lemma {:induction false} KeptChoices(systems: seq<System>, elements: seq<Element>, choices: seq<seq<nat>>, excluded: set<System>,
                                       counts: map<System, nat>) returns (kept: seq<seq<nat>>)
    requires PickedBy(systems, elements, choices) && InOrder(choices)
    ensures PickedBy(EligibleIn(systems, excluded, counts), elements, kept)
    ensures KeptOf(choices, elements, excluded, counts, kept)
    decreases systems
  {
    kept := [];
    if systems != [] {
      hide Rising, Picked, Kept, Eligible, PickedBy, KeptOf, InOrder, EligibleIn;
      var n := |systems| - 1;
      FrontPicked(systems, elements, choices);
      var before := KeptChoices(systems[..n], elements, choices[..n], excluded, counts);
      LastPicked(systems, elements, choices, excluded, counts);
      EligibleLast(systems, excluded, counts);
      KeptStep(elements, choices, excluded, counts, before);
      if Eligible(systems[n], excluded, counts) {
        OneMorePicked(systems, elements, choices, EligibleIn(systems[..n], excluded, counts), before);
        kept := before + [choices[n]];
      } else {
        kept := before;
      }
    }
  }

  lemma EligibleLast(systems: seq<System>, excluded: set<System>, counts: map<System, nat>)
    requires systems != []
    ensures var n := |systems| - 1; var pool := EligibleIn(systems[..n], excluded, counts);
      EligibleIn(systems, excluded, counts) == if Eligible(systems[n], excluded, counts) then pool + [systems[n]] else pool
  {
    hide Eligible;
  }

  lemma KeptStep(elements: seq<Element>, choices: seq<seq<nat>>, excluded: set<System>, counts: map<System, nat>,
                 before: seq<seq<nat>>)
    requires choices != [] && InOrder(choices)
    requires KeptOf(choices[..|choices| - 1], elements, excluded, counts, before)
    ensures var last := choices[|choices| - 1];
      KeptOf(choices, elements, excluded, counts, if Kept(elements, excluded, counts, last) then before + [last] else before)
  {
    hide Kept, Earlier;
    var n := |choices| - 1;
    assert choices == choices[..n] + [choices[n]];
    forall i | 0 <= i < |before| ensures Earlier(before[i], choices[n]) {
      assert before[i] in before;
      var k :| 0 <= k < n && choices[..n][k] == before[i];
    }
  }

  lemma FrontPicked(systems: seq<System>, elements: seq<Element>, choices: seq<seq<nat>>)
    requires systems != [] && PickedBy(systems, elements, choices) && InOrder(choices)
    ensures |choices| == |systems| && PickedBy(systems[..|systems| - 1], elements, choices[..|systems| - 1])
    ensures InOrder(choices[..|systems| - 1])
  {
    hide Rising, Picked, Earlier;
  }

  lemma LastPicked(systems: seq<System>, elements: seq<Element>, choices: seq<seq<nat>>, excluded: set<System>,
                   counts: map<System, nat>)
    requires systems != [] && PickedBy(systems, elements, choices)
    ensures Eligible(systems[|systems| - 1], excluded, counts) <==> Kept(elements, excluded, counts, choices[|systems| - 1])
  {
    hide Rising, Picked, StableTotal, TwoStable;
    StableIffTwo(systems[|systems| - 1], counts);
  }

  lemma OneMorePicked(systems: seq<System>, elements: seq<Element>, choices: seq<seq<nat>>, pool: seq<System>, kept: seq<seq<nat>>)
    requires systems != [] && PickedBy(systems, elements, choices) && PickedBy(pool, elements, kept)
    ensures PickedBy(pool + [systems[|systems| - 1]], elements, kept + [choices[|systems| - 1]])
  {
    hide Rising, Picked;
  }

  /** The eligible systems, in the order they are streamed, are what the eligible choices pick. */
  lemma EligibleAreChoices(elements: seq<Element>, size: nat, excluded: set<System>, counts: map<System, nat>)
    returns (choices: seq<seq<nat>>)
    ensures EligibleChoices(elements, size, excluded, counts, choices)
    ensures PickedBy(EligibleIn(Combinations(elements, size), excluded, counts), elements, choices)
  {
    hide Rising, Picked, InOrder, TwoStable, Combinations, EligibleIn, PickedBy;
    var all := CombinationsAreChoices(elements, size);
    choices := KeptChoices(Combinations(elements, size), elements, all, excluded, counts);
  }

  /** At least `n` different eligible choices. */
  ghost predicate ManyEligible(elements: seq<Element>, size: nat, excluded: set<System>, counts: map<System, nat>, n: nat) {
    exists some :: |some| >= n && Distinct(some) && AllEligible(elements, size, excluded, counts, some)
  }

  ghost predicate AllEligible(elements: seq<Element>, size: nat, excluded: set<System>, counts: map<System, nat>,
                              some: seq<seq<nat>>) {
    forall c :: c in some ==> EligibleChoice(elements, size, excluded, counts, c)
  }

  lemma ManyIffListed(elements: seq<Element>, size: nat, excluded: set<System>, counts: map<System, nat>, n: nat,
                      choices: seq<seq<nat>>)
    requires EligibleChoices(elements, size, excluded, counts, choices)
    ensures ManyEligible(elements, size, excluded, counts, n) <==> |choices| >= n
  {
    hide EligibleChoice, Earlier;
    forall i, j | 0 <= i < j < |choices| ensures choices[i] != choices[j] { EarlierIsStrict(choices[i], choices[j]); }
    if |choices| >= n { assert Distinct(choices) && AllEligible(elements, size, excluded, counts, choices); }
    if some :| |some| >= n && Distinct(some) && AllEligible(elements, size, excluded, counts, some) {
      DistinctCardinality(some);
      DistinctCardinality(choices);
      SubsetSize(Elements(some), Elements(choices));
    }
  }

  lemma {:induction false} SubsetSize<T>(a: set<T>, b: set<T>)
    requires a <= b
    ensures |a| <= |b|
  {
    assert b == a + (b - a);
  }

  // ----- The reservoir loop -----

  datatype SplitError = TestsIncomplete | ExactInsufficient(size: nat) | SpacesInsufficient(size: nat) | Leakage | IncompleteCounts

  /** The outcomes of the first `calls` replacement draws. */
  function Draws(rng: Rng, stream: nat, k: nat, calls: nat): (r: seq<nat>)
    ensures |r| == calls
  {
    if calls == 0 then [] else Draws(rng, stream, k, calls - 1) + [rng(stream, calls - 1, k + calls)]
  }

  lemma {:induction false} DrawsAreValid(rng: Rng, stream: nat, k: nat, calls: nat)
    requires InBounds(rng)
    ensures forall n: nat :: calls == (if n < k then 0 else n - k) ==> ValidDraws(Draws(rng, stream, k, calls), n, k)
  {
    if calls > 0 {
      DrawsAreValid(rng, stream, k, calls - 1);
      assert ValidDraws(Draws(rng, stream, k, calls - 1), k + calls - 1, k);
      assert rng(stream, calls - 1, k + calls) < k + calls;
    }
  }

  /** What the loop holds once it has seen the eligible systems of `pool`. */
  ghost function Sampled(pool: seq<System>, rng: Rng, stream: nat, k: nat): (r: seq<System>)
    requires InBounds(rng)
    ensures |r| == if |pool| < k then |pool| else k
  {
    var draws := Draws(rng, stream, k, if |pool| < k then 0 else |pool| - k);
    DrawsAreValid(rng, stream, k, |draws|);
    Sample(pool, k, draws)
  }

  lemma SampledStep(pool: seq<System>, next: System, rng: Rng, stream: nat, k: nat)
    requires InBounds(rng)
    ensures Sampled(pool + [next], rng, stream, k)
      == var before := Sampled(pool, rng, stream, k);
         if |pool| < k then before + [next]
         else var d := rng(stream, |pool| - k, |pool| + 1); if d < k then before[d := next] else before
  {
    var more := pool + [next];
    assert more[..|pool|] == pool;
    if |pool| >= k {
      var calls := |pool| - k;
      DrawsAreValid(rng, stream, k, calls + 1);
      var draws := Draws(rng, stream, k, calls + 1);
      assert draws[..calls] == Draws(rng, stream, k, calls);
    }
  }

  method ReservoirSample(elements: seq<Element>, size: nat, excluded: set<System>, counts: map<System, nat>, number: nat,
                         rng: Rng, stream: nat)
    returns (sample: seq<System>, eligible: nat, ghost choices: seq<seq<nat>>)
    requires InBounds(rng)
    ensures var pool := EligibleIn(Combinations(elements, size), excluded, counts);
      eligible == |pool| && sample == Sampled(pool, rng, stream, number)
    ensures EligibleChoices(elements, size, excluded, counts, choices)
    ensures PickedBy(EligibleIn(Combinations(elements, size), excluded, counts), elements, choices) && eligible == |choices|
  {
    hide Sampled, StableTotal, Combinations, EligibleIn, EligibleChoices;
    choices := EligibleAreChoices(elements, size, excluded, counts);
    sample, eligible := [], 0;
    NothingSampled(excluded, counts, rng, stream, number);
    var systems := Combinations(elements, size);
    for i := 0 to |systems|
      invariant eligible == |EligibleIn(systems[..i], excluded, counts)|
      invariant sample == Sampled(EligibleIn(systems[..i], excluded, counts), rng, stream, number)
    {
      var system := systems[i];
      EligibleStep(systems, i, excluded, counts);
      var stable := HasStableSubphases(system, counts, 2);
      if system in excluded || !stable { continue; }
      SampledStep(EligibleIn(systems[..i], excluded, counts), system, rng, stream, number);
      eligible := eligible + 1;
      if |sample| < number {
        sample := sample + [system];
      } else {
        var replacement := rng(stream, eligible - 1 - number, eligible);
        if replacement < number { sample := sample[replacement := system]; }
      }
    }
    assert systems[..|systems|] == systems;
  }

  lemma NothingSampled(excluded: set<System>, counts: map<System, nat>, rng: Rng, stream: nat, k: nat)
    requires InBounds(rng)
    ensures EligibleIn([], excluded, counts) == [] && Sampled([], rng, stream, k) == []
  {
  }

  lemma SwapKeeps<T>(s: seq<T>, i: nat, j: nat)
    requires i < |s| && j < |s|
    ensures multiset(s[i := s[j]][j := s[i]]) == multiset(s)
  {
  }

  // ----- The shuffle -----

  /** The outcomes of the shuffle of `n` items: the first draw picks the last place's item. */
  predicate ShuffleDraws(draws: seq<nat>, n: nat) {
    |draws| == (if n < 2 then 0 else n - 1) && forall i :: 0 <= i < |draws| ==> draws[i] < n - i
  }

  function Swapped<T>(s: seq<T>, i: nat, j: nat): (r: seq<T>)
    requires i < |s| && j < |s|
    ensures |r| == |s|
  {
    s[i := s[j]][j := s[i]]
  }

  /** Exchange the last place with a drawn one, then shuffle what is in front of it. */
  function Shuffled<T>(s: seq<T>, draws: seq<nat>): (r: seq<T>)
    requires ShuffleDraws(draws, |s|)
    ensures |r| == |s|
    decreases |s|
  {
    if |s| < 2 then s
    else
      var n := |s| - 1;
      var t := Swapped(s, n, draws[0]);
      Shuffled(t[..n], draws[1..]) + [t[n]]
  }

  lemma {:induction false} ShuffleIsPermutation<T>(s: seq<T>, draws: seq<nat>)
    requires ShuffleDraws(draws, |s|)
    ensures multiset(Shuffled(s, draws)) == multiset(s)
    decreases |s|
  {
    if |s| >= 2 {
      var n := |s| - 1;
      var t := Swapped(s, n, draws[0]);
      SwapKeeps(s, n, draws[0]);
      assert t == t[..n] + [t[n]];
      ShuffleIsPermutation(t[..n], draws[1..]);
    }
  }

  /** The shuffle turns `s` into `order` under these outcomes. */
  predicate Orders<T(==)>(s: seq<T>, draws: seq<nat>, order: seq<T>) {
    ShuffleDraws(draws, |s|) && Shuffled(s, draws) == order
  }

  /** Every order of distinct items comes from exactly one outcome sequence of the shuffle. */
  lemma {:induction false} EveryOrderOnce<T>(s: seq<T>, order: seq<T>) returns (draws: seq<nat>)
    requires Distinct(s) && multiset(order) == multiset(s)
    ensures Orders(s, draws, order)
    ensures forall other :: Orders(s, other, order) ==> other == draws
    decreases |s|
  {
    hide Orders, Distinct, Swapped;
    SameLength(s, order);
    if |s| < 2 {
      draws := [];
      ShortOrder(s, order);
    } else {
      var n := |s| - 1;
      var j := LastFrom(s, order);
      var front := Swapped(s, n, j)[..n];
      var rest := EveryOrderOnce(front, order[..n]);
      draws := [j] + rest;
      ConsOrders(s, j, rest, order);
      forall other | Orders(s, other, order) ensures other == draws { SameFirstDraw(s, other, j, order, front, order[..n], rest); }
    }
  }

  /** Where the last item of the order stands, and what remains to be ordered. */
  lemma LastFrom<T>(s: seq<T>, order: seq<T>) returns (j: nat)
    requires |s| >= 2 && |order| == |s| && Distinct(s) && multiset(order) == multiset(s)
    ensures var n := |s| - 1;
      && j < |s| && s[j] == order[n] && Distinct(Swapped(s, n, j)[..n])
      && multiset(order[..n]) == multiset(Swapped(s, n, j)[..n])
  {
    hide Distinct;
    var n := |s| - 1;
    assert order[n] in multiset(s);
    j :| 0 <= j < |s| && s[j] == order[n];
    SwapKeeps(s, n, j);
    SwapDistinct(s, n, j);
    SameFronts(order, Swapped(s, n, j));
  }

  lemma SameFronts<T>(a: seq<T>, b: seq<T>)
    requires a != [] && |a| == |b| && multiset(a) == multiset(b) && a[|a| - 1] == b[|b| - 1]
    ensures multiset(a[..|a| - 1]) == multiset(b[..|b| - 1])
  {
    var n := |a| - 1;
    assert a == a[..n] + [a[n]] && b == b[..n] + [b[n]];
    assert multiset(a[..n]) == multiset(a) - multiset{a[n]};
    assert multiset(b[..n]) == multiset(b) - multiset{b[n]};
  }

  lemma SameLength<T>(s: seq<T>, order: seq<T>)
    requires multiset(order) == multiset(s)
    ensures |order| == |s|
  {
    assert |multiset(order)| == |multiset(s)|;
  }

  lemma ShortOrder<T>(s: seq<T>, order: seq<T>)
    requires |s| < 2 && |order| == |s| && multiset(order) == multiset(s)
    ensures Orders(s, [], order) && forall other :: Orders(s, other, order) ==> other == []
  {
    if |s| == 1 { assert order[0] in multiset(s); }
    assert order == s;
  }

  lemma SwapDistinct<T>(s: seq<T>, i: nat, j: nat)
    requires i < |s| && j < |s| && Distinct(s) && i == |s| - 1
    ensures Distinct(Swapped(s, i, j)[..i])
  {
    DistinctCounts(s);
    SwapKeeps(s, i, j);
    DistinctCounts(Swapped(s, i, j));
  }

  lemma ConsOrders<T>(s: seq<T>, j: nat, rest: seq<nat>, order: seq<T>)
    requires |s| >= 2 && j < |s| && |order| == |s| && s[j] == order[|s| - 1]
    requires Orders(Swapped(s, |s| - 1, j)[..|s| - 1], rest, order[..|s| - 1])
    ensures Orders(s, [j] + rest, order)
  {
    assert ([j] + rest)[1..] == rest;
    assert order == order[..|s| - 1] + [order[|s| - 1]];
  }

  lemma SameFirstDraw<T>(s: seq<T>, other: seq<nat>, j: nat, order: seq<T>, front: seq<T>, orderFront: seq<T>, rest: seq<nat>)
    requires |s| >= 2 && Distinct(s) && j < |s| && |order| == |s| && Orders(s, other, order) && s[j] == order[|s| - 1]
    requires front == Swapped(s, |s| - 1, j)[..|s| - 1] && orderFront == order[..|s| - 1]
    requires forall ds :: Orders(front, ds, orderFront) ==> ds == rest
    ensures other == [j] + rest
  {
    var n := |s| - 1;
    var t := Swapped(s, n, other[0]);
    assert order[n] == t[n] == s[other[0]];
    OnePlace(s, other[0], j);
    assert orderFront == Shuffled(front, other[1..]);
    assert Orders(front, other[1..], orderFront);
    assert other == [other[0]] + other[1..];
  }

  /** The generator's outcomes for a shuffle, in the order of the calls. */
  function DrawnFor(rng: Rng, stream: nat, n: nat, call: nat): seq<nat>
    decreases n
  {
    if n < 2 then [] else [rng(stream, call, n)] + DrawnFor(rng, stream, n - 1, call + 1)
  }

  lemma {:induction false} DrawnForValid(rng: Rng, stream: nat, n: nat, call: nat)
    requires InBounds(rng)
    ensures ShuffleDraws(DrawnFor(rng, stream, n, call), n)
    decreases n
  {
    if n >= 2 { DrawnForValid(rng, stream, n - 1, call + 1); }
  }

  /** The in-place shuffle before the train/development cut. */
  method Shuffle(sample: seq<System>, rng: Rng, stream: nat) returns (r: seq<System>)
    requires InBounds(rng)
    ensures ShuffleDraws(DrawnFor(rng, stream, |sample|, 0), |sample|)
    ensures r == Shuffled(sample, DrawnFor(rng, stream, |sample|, 0)) && multiset(r) == multiset(sample)
  {
    hide ShuffleDraws;
    DrawnForValid(rng, stream, |sample|, 0);
    ShuffleIsPermutation(sample, DrawnFor(rng, stream, |sample|, 0));
    ghost var target := Shuffled(sample, DrawnFor(rng, stream, |sample|, 0));
    r := sample;
    var i := |r|;
    assert r[..i] == r && r[i..] == [] && target + [] == target;
    while i > 1
      invariant i <= |r| == |sample| && (|sample| > 0 ==> i > 0)
      invariant ShuffleDraws(DrawnFor(rng, stream, i, |sample| - i), i)
      invariant target == Shuffled(r[..i], DrawnFor(rng, stream, i, |sample| - i)) + r[i..]
    {
      i := i - 1;
      var j := rng(stream, |r| - 1 - i, i + 1);
      DrawnForValid(rng, stream, i, |sample| - i);
      ghost var before := r;
      r := r[i := r[j]][j := r[i]];
      ShuffleTurn(before, r, i, j, DrawnFor(rng, stream, i + 1, |sample| - i - 1));
    }
    assert r[..i] + r[i..] == r;
  }

  /** One turn of the shuffle loop. */
  lemma ShuffleTurn<T>(before: seq<T>, after: seq<T>, i: nat, j: nat, draws: seq<nat>)
    requires 1 <= i < |before| && j <= i && ShuffleDraws(draws, i + 1) && draws[0] == j && ShuffleDraws(draws[1..], i)
    requires after == before[i := before[j]][j := before[i]]
    ensures |after| == |before|
    ensures Shuffled(before[..i + 1], draws) + before[i + 1..] == Shuffled(after[..i], draws[1..]) + after[i..]
  {
    var t := Swapped(before[..i + 1], i, j);
    assert t[..i] == after[..i] && t[i] == after[i];
    assert after[i..] == [after[i]] + before[i + 1..];
  }

  /** `random.sample`: each pick leaves the pool. */
  method RandomSample(population: seq<System>, n: nat, rng: Rng, stream: nat) returns (r: seq<System>)
    requires InBounds(rng) && n <= |population|
    ensures |r| == n && multiset(r) <= multiset(population)
  {
    var pool := population;
    r := [];
    for i := 0 to n
      invariant |r| == i && |pool| == |population| - i && multiset(r) + multiset(pool) == multiset(population)
    {
      var j := rng(stream, i, |pool|);
      var last := |pool| - 1;
      SwapKeeps(pool, j, last);
      var swapped := pool[j := pool[last]][last := pool[j]];
      assert swapped == swapped[..last] + [pool[j]];
      r := r + [pool[j]];
      pool := swapped[..last];
    }
  }

  // ----- Assembly -----

  datatype Splits = Splits(train: seq<System>, dev: seq<System>, test: seq<System>)

  function ExactIn(systems: seq<System>, size: nat, excluded: set<System>): seq<System> {
    if systems == [] then []
    else
      var n := |systems| - 1;
      ExactIn(systems[..n], size, excluded)
      + if |systems[n]| == size && systems[n] !in excluded then [systems[n]] else []
  }

  lemma {:induction false} ExactAre(systems: seq<System>, size: nat, excluded: set<System>)
    ensures forall s :: s in ExactIn(systems, size, excluded) <==> s in systems && |s| == size && s !in excluded
    ensures Distinct(systems) ==> Distinct(ExactIn(systems, size, excluded))
  {
    hide Distinct;
    var none: System := [];
    SingleDistinct(none);
    if systems != [] {
      var n := |systems| - 1;
      ExactAre(systems[..n], size, excluded);
      assert systems == systems[..n] + [systems[n]];
      var before := ExactIn(systems[..n], size, excluded);
      if Distinct(systems) {
        LastIsNew(systems);
        SingleDistinct(systems[n]);
        if |systems[n]| == size && systems[n] !in excluded { DistinctAppend(before, [systems[n]]); } else { assert before + [] == before; }
      }
    }
  }

  /** Distinct systems of one size, none of them excluded. */
  ghost predicate Fresh(systems: seq<System>, size: nat, excluded: set<System>) {
    Distinct(systems) && forall s :: s in systems ==> |s| == size && s !in excluded
  }

  lemma FreshFrom(picked: seq<System>, pool: seq<System>, size: nat, excluded: set<System>)
    requires Fresh(pool, size, excluded) && multiset(picked) <= multiset(pool)
    ensures Fresh(picked, size, excluded)
  {
    DistinctCounts(pool);
    forall x | x in multiset(picked) ensures multiset(picked)[x] == 1 && x in pool {
      assert x in multiset(pool) && multiset(pool)[x] == 1;
    }
    DistinctCounts(picked);
    forall s | s in picked ensures s in pool { assert s in multiset(picked); }
  }

  /** The reservoir's sample is fresh: eligible systems are distinct, of the requested size, and not tests. */
  lemma ReservoirIsFresh(elements: seq<Element>, size: nat, excluded: set<System>, counts: map<System, nat>, rng: Rng,
                         stream: nat, k: nat)
    requires InBounds(rng) && Distinct(elements)
    ensures var pool := EligibleIn(Combinations(elements, size), excluded, counts);
      Fresh(Sampled(pool, rng, stream, k), size, excluded)
  {
    hide Combinations, StableTotal, Distinct, EligibleIn, Sample, Draws;
    var systems := Combinations(elements, size);
    var pool := EligibleIn(systems, excluded, counts);
    CombinationsFit(elements, size);
    CombinationsDistinct(elements, size);
    EligibleAre(systems, excluded, counts);
    var calls := if |pool| < k then 0 else |pool| - k;
    DrawsAreValid(rng, stream, k, calls);
    SampleIsDistinct(pool, k, Draws(rng, stream, k, calls));
    var sample := Sampled(pool, rng, stream, k);
    forall s | s in sample ensures s in pool { assert s in Elements(sample); }
  }

  /** What the reservoir and the shuffle make of a stream under these outcomes; the train/development cut is a position in it. */
  ghost predicate Arranged(items: seq<System>, k: nat, d: seq<nat>, e: seq<nat>, order: seq<System>) {
    ValidDraws(d, |items|, k) && Orders(Sorted(Sample(items, k, d)), e, order)
  }

  /** Every arrangement of `k` of the `n` eligible systems, and with it every train/development assignment of them, comes
      from exactly (n - k)! of the joint outcomes of reservoir and shuffle. */
  lemma SplitIsUniform(items: seq<System>, k: nat, order: seq<System>) returns (joint: set<(seq<nat>, seq<nat>)>)
    requires Distinct(items) && k <= |items| && |order| == k && Distinct(order) && Elements(order) <= Elements(items)
    ensures forall d, e :: (d, e) in joint <==> Arranged(items, k, d, e, order)
    ensures |joint| == Factorial(|items| - k)
  {
    hide Distinct, Sorted, Orders, Hits, Sample, ValidDraws;
    DistinctCardinality(order);
    SampleIsUniform(items, k, Elements(order));
    SortedAscends(order);
    SortedIsDistinct(order);
    var shuffle := EveryOrderOnce(Sorted(order), order);
    var hits := Hits(items, k, Elements(order));
    joint := set d | d in hits :: (d, shuffle);
    PairsSize(hits, shuffle);
    forall d, e ensures (d, e) in joint <==> Arranged(items, k, d, e, order) {
      InHits(items, k, Elements(order), d);
      if ValidDraws(d, |items|, k) {
        SampleIsDistinct(items, k, d);
        if Elements(Sample(items, k, d)) == Elements(order) {
          SortingForgetsOrder(Sample(items, k, d), order);
        } else {
          ArrangedKeepsElements(Sample(items, k, d), e, order);
        }
      }
    }
  }

  lemma SortedIsDistinct(s: seq<System>)
    requires Distinct(s)
    ensures Distinct(Sorted(s))
  {
    hide Distinct, Sorted;
    SortedAscends(s);
    DistinctCounts(s);
    DistinctCounts(Sorted(s));
  }

  lemma ArrangedKeepsElements(sample: seq<System>, e: seq<nat>, order: seq<System>)
    ensures Orders(Sorted(sample), e, order) ==> Elements(sample) == Elements(order)
  {
    hide Sorted;
    SortedAscends(sample);
    if Orders(Sorted(sample), e, order) {
      ShuffleIsPermutation(Sorted(sample), e);
      forall x ensures x in sample <==> x in order {
        assert x in multiset(sample) <==> x in multiset(order);
      }
    }
  }

  lemma {:induction false} PairsSize(ds: set<seq<nat>>, e: seq<nat>)
    ensures |set d | d in ds :: (d, e)| == |ds|
    decreases ds
  {
    if ds != {} {
      var d :| d in ds;
      PairsSize(ds - {d}, e);
      assert (set c | c in ds :: (c, e)) == (set c | c in ds - {d} :: (c, e)) + {(d, e)};
    }
  }

  /** The stable systems of one size that are not excluded. */
  ghost function ExactSystems(stable: seq<System>, size: nat, excluded: set<System>): set<System> {
    set s | s in stable && |s| == size && s !in excluded
  }

  lemma ExactCount(stable: seq<System>, size: nat, excluded: set<System>)
    requires Distinct(stable)
    ensures |ExactIn(stable, size, excluded)| == |ExactSystems(stable, size, excluded)|
    ensures Elements(ExactIn(stable, size, excluded)) == ExactSystems(stable, size, excluded)
  {
    hide Distinct, ExactIn;
    ExactAre(stable, size, excluded);
    DistinctCardinality(ExactIn(stable, size, excluded));
    assert Elements(ExactIn(stable, size, excluded)) == ExactSystems(stable, size, excluded);
  }

  /** Enough candidates of one size: exact stable systems, or else eligible spaces where those may stand in. */
  ghost predicate Enough(allowed: seq<Element>, stable: seq<System>, counts: map<System, nat>, excluded: set<System>, size: nat,
                         requested: nat, requireExact: bool) {
    || |ExactSystems(stable, size, excluded)| >= requested
    || (!requireExact && ManyEligible(allowed, size, excluded, counts, requested))
  }

  /** The systems selected for one size. `choices` picks the eligible spaces when those stand in. */
  method SelectSize(allowed: seq<Element>, stable: seq<System>, counts: map<System, nat>, excluded: set<System>, size: nat,
                    requested: nat, requireExact: bool, rng: Rng, stream: nat)
    returns (r: Outcome<seq<System>, SplitError>, ghost choices: seq<seq<nat>>)
    requires InBounds(rng) && Distinct(allowed) && Distinct(stable)
    ensures r.Returned? <==> Enough(allowed, stable, counts, excluded, size, requested, requireExact)
    ensures r.Raised? ==> r.error == if requireExact then ExactInsufficient(size) else SpacesInsufficient(size)
    ensures r.Returned? ==> |r.value| == requested && Fresh(r.value, size, excluded)
    ensures r.Returned? && |ExactSystems(stable, size, excluded)| >= requested ==>
      Elements(r.value) <= ExactSystems(stable, size, excluded)
    ensures r.Returned? && |ExactSystems(stable, size, excluded)| < requested ==>
      && EligibleChoices(allowed, size, excluded, counts, choices) && |choices| >= requested
      && StandIns(allowed, size, excluded, counts, choices, requested, rng, stream, r.value)
  {
    hide Combinations, EligibleIn, Distinct, Sorted, Shuffled, ShuffleDraws, Draws, Sample, ExactIn, ExactSystems, EligibleChoices,
         ManyEligible;
    choices := EligibleAreChoices(allowed, size, excluded, counts);
    ManyIffListed(allowed, size, excluded, counts, requested, choices);
    ExactCount(stable, size, excluded);
    var exact := ExactIn(stable, size, excluded);
    if |exact| >= requested {
      ExactAre(stable, size, excluded);
      var selected := RandomSample(exact, requested, rng, stream);
      FreshFrom(selected, exact, size, excluded);
      PickedElements(selected, exact);
      return Returned(selected), choices;
    }
    if requireExact { return Raised(ExactInsufficient(size)), choices; }
    var sample, eligible;
    sample, eligible, choices := ReservoirSample(allowed, size, excluded, counts, requested, rng, stream);
    ManyIffListed(allowed, size, excluded, counts, requested, choices);
    if eligible < requested { return Raised(SpacesInsufficient(size)), choices; }
    ReservoirIsFresh(allowed, size, excluded, counts, rng, stream, requested);
    // Slot order must not decide the assignment: sort, then shuffle with a stream of its own.
    SortedAscends(sample);
    var shuffled := Shuffle(Sorted(sample), rng, stream + 1_000_000);
    FreshFrom(shuffled, sample, size, excluded);
    DrawsAreValid(rng, stream, requested, eligible - requested);
    r := Returned(shuffled);
  }

  lemma PickedElements(picked: seq<System>, pool: seq<System>)
    requires multiset(picked) <= multiset(pool)
    ensures Elements(picked) <= Elements(pool)
  {
    forall x | x in picked ensures x in pool { assert x in multiset(picked); }
  }

  /** The eligible spaces, sampled, sorted and shuffled under the generator's outcomes. */
  ghost predicate StandIns(allowed: seq<Element>, size: nat, excluded: set<System>, counts: map<System, nat>,
                           choices: seq<seq<nat>>, requested: nat, rng: Rng, stream: nat, order: seq<System>)
    requires |choices| >= requested
  {
    var pool := EligibleIn(Combinations(allowed, size), excluded, counts);
    var draws := DrawnFor(rng, stream + 1_000_000, requested, 0);
    && PickedBy(pool, allowed, choices) && ShuffleDraws(draws, requested)
    && Arranged(pool, requested, Draws(rng, stream, requested, |choices| - requested), draws, order)
  }

  /** Train and development systems of the sizes below `limit`: distinct, apart, and not tests. */
  ghost predicate Assembled(train: seq<System>, dev: seq<System>, excluded: set<System>, limit: nat) {
    Distinct(train + dev) && forall s :: s in train + dev ==> |s| < limit && s !in excluded
  }

  lemma AssembledStep(train: seq<System>, dev: seq<System>, selected: seq<System>, cut: nat, excluded: set<System>, size: nat)
    requires Assembled(train, dev, excluded, size) && Fresh(selected, size, excluded) && cut <= |selected|
    ensures Assembled(train + selected[..cut], dev + selected[cut..], excluded, size + 1)
  {
    hide Distinct;
    var before, after := train + dev, (train + selected[..cut]) + (dev + selected[cut..]);
    assert selected == selected[..cut] + selected[cut..];
    DistinctAppend(before, selected);
    assert multiset(after) == multiset(before + selected);
    DistinctCounts(after);
    DistinctCounts(before + selected);
    forall s | s in after ensures s in before + selected { assert s in multiset(after); }
  }

  /** The leakage guard and the count guard can never fire: only missing candidates or incomplete tests are errors. */
  method BuildSplits(allowed: seq<Element>, stable: seq<System>, counts: map<System, nat>, tests: seq<System>,
                     trainPerSize: nat, devPerSize: nat, requireExact: bool, rng: Rng, seed: nat)
    returns (r: Outcome<Splits, SplitError>)
    requires InBounds(rng) && Distinct(allowed) && Distinct(stable)
    ensures r == Raised(TestsIncomplete) <==> |Elements(tests)| != 30
    ensures r.Raised? <==>
      || |Elements(tests)| != 30
      || !Enough(allowed, stable, counts, Elements(tests), 3, trainPerSize + devPerSize, requireExact)
      || !Enough(allowed, stable, counts, Elements(tests), 4, trainPerSize + devPerSize, requireExact)
      || !Enough(allowed, stable, counts, Elements(tests), 5, trainPerSize + devPerSize, requireExact)
    ensures r.Raised? ==> r.error.TestsIncomplete? || r.error.ExactInsufficient? || r.error.SpacesInsufficient?
    ensures r.Returned? ==>
      && r.value.test == tests && |r.value.train| == 3 * trainPerSize && |r.value.dev| == 3 * devPerSize
      && Elements(r.value.train) !! Elements(r.value.dev) !! Elements(tests)
      && Distinct(r.value.train) && Distinct(r.value.dev)
  {
    hide Distinct, Combinations, EligibleIn, ExactIn, Assembled, Fresh, Sampled, Enough, ExactSystems, ManyEligible, EligibleChoices,
         StandIns;
    var excluded := set s | s in tests;
    if |excluded| != 30 { return Raised(TestsIncomplete); }
    var train: seq<System>, dev: seq<System> := [], [];
    assert Assembled([], [], excluded, 3) by { NoneAssembled(excluded); }
    for size := 3 to 6
      invariant Assembled(train, dev, excluded, size)
      invariant size > 3 ==> Enough(allowed, stable, counts, excluded, 3, trainPerSize + devPerSize, requireExact)
      invariant size > 4 ==> Enough(allowed, stable, counts, excluded, 4, trainPerSize + devPerSize, requireExact)
      invariant size > 5 ==> Enough(allowed, stable, counts, excluded, 5, trainPerSize + devPerSize, requireExact)
      invariant |train| == (size - 3) * trainPerSize && |dev| == (size - 3) * devPerSize
    {
      var chosen, choices :=
        SelectSize(allowed, stable, counts, excluded, size, trainPerSize + devPerSize, requireExact, rng, seed + size);
      var selected :- chosen;
      AssembledStep(train, dev, selected, trainPerSize, excluded, size);
      train, dev := train + selected[..trainPerSize], dev + selected[trainPerSize..];
    }
    NothingLeaks(train, dev, excluded);
    var trainSet, devSet := set s | s in train, set s | s in dev;
    if trainSet * devSet != {} || trainSet * excluded != {} || devSet * excluded != {} { return Raised(Leakage); }
    if |train| != 3 * trainPerSize || |dev| != 3 * devPerSize { return Raised(IncompleteCounts); }
    r := Returned(Splits(train, dev, tests));
  }

  lemma NothingLeaks(train: seq<System>, dev: seq<System>, excluded: set<System>)
    requires Assembled(train, dev, excluded, 6)
    ensures Distinct(train) && Distinct(dev)
    ensures Elements(train) !! Elements(dev) && Elements(train) !! excluded && Elements(dev) !! excluded
  {
    hide Distinct;
    PartsApart(train, dev);
    forall s | s in train || s in dev ensures s !in excluded { assert s in train + dev; }
  }

  lemma NoneAssembled(excluded: set<System>)
    ensures Assembled([], [], excluded, 3)
  {
  }

  lemma PartsApart(a: seq<System>, b: seq<System>)
    requires Distinct(a + b)
    ensures Distinct(a) && Distinct(b) && Elements(a) !! Elements(b)
  {
    var all := a + b;
    forall i, j | 0 <= i < j < |a| ensures a[i] != a[j] { assert all[i] != all[j]; }
    forall i, j | 0 <= i < j < |b| ensures b[i] != b[j] { assert all[|a| + i] != all[|a| + j]; }
    forall i, j | 0 <= i < |a| && 0 <= j < |b| ensures a[i] != b[j] { assert all[i] != all[|a| + j]; }
  }
}
