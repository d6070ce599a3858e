/** Chemical systems: the combinations of the allowed elements, and the stable entries found in a system's sub-systems. */
module ChemicalSystems {
  import opened Wrappers

  type Element = string
  type System = seq<Element>

  // ----- itertools.combinations, in its lexicographic order -----

  function Prepended(x: Element, rest: seq<System>): seq<System> {
    seq(|rest|, i requires 0 <= i < |rest| => [x] + rest[i])
  }

  function Combinations(elements: seq<Element>, size: nat): seq<System> {
    if size == 0 then [[]]
    else if elements == [] then []
    else Prepended(elements[0], Combinations(elements[1..], size - 1)) + Combinations(elements[1..], size)
  }

  predicate Fits(s: System, size: nat, elements: seq<Element>) { |s| == size && forall x :: x in s ==> x in elements }

  lemma {:induction false} CombinationsFit(elements: seq<Element>, size: nat)
    ensures forall s :: s in Combinations(elements, size) ==> Fits(s, size, elements)
    decreases elements
  {
    hide Prepended;
    if size > 0 && elements != [] {
      var rest := elements[1..];
      assert elements == [elements[0]] + rest;
      CombinationsFit(rest, size - 1);
      CombinationsFit(rest, size);
      PrependedFit(elements[0], rest, size, Combinations(rest, size - 1));
    }
  }

  lemma PrependedFit(x: Element, rest: seq<Element>, size: nat, systems: seq<System>)
    requires size > 0 && forall s :: s in systems ==> Fits(s, size - 1, rest)
    ensures forall s :: s in Prepended(x, systems) ==> Fits(s, size, [x] + rest) && s[0] == x
  {
    var with := Prepended(x, systems);
    forall s | s in with ensures Fits(s, size, [x] + rest) && s[0] == x {
      var i :| 0 <= i < |with| && with[i] == s;
      assert systems[i] in systems && s == [x] + systems[i];
    }
  }

  /** Distinct elements give distinct combinations. */
  lemma {:induction false} CombinationsDistinct(elements: seq<Element>, size: nat)
    requires Distinct(elements)
    ensures Distinct(Combinations(elements, size))
    decreases elements
  {
    if size > 0 && elements != [] {
      var rest := elements[1..];
      assert Distinct(rest) && elements[0] !in rest by { FirstIsApart(elements); }
      CombinationsDistinct(rest, size - 1);
      CombinationsDistinct(rest, size);
      var with, without := Prepended(elements[0], Combinations(rest, size - 1)), Combinations(rest, size);
      PrependedDistinct(elements[0], Combinations(rest, size - 1));
      CombinationsFit(rest, size - 1);
      CombinationsFit(rest, size);
      PrependedFit(elements[0], rest, size, Combinations(rest, size - 1));
      forall s | s in with ensures s !in without { assert s[0] == elements[0] && s[0] in s; }
      DistinctAppend(with, without);
    }
  }

  lemma FirstIsApart<T>(xs: seq<T>)
    requires xs != [] && Distinct(xs)
    ensures Distinct(xs[1..]) && xs[0] !in xs[1..]
  {
  }

  lemma PrependedDistinct(x: Element, rest: seq<System>)
    requires Distinct(rest)
    ensures Distinct(Prepended(x, rest))
  {
    var all := Prepended(x, rest);
    forall i, j | 0 <= i < j < |all| ensures all[i] != all[j] {
      assert all[i][1..] == rest[i] && all[j][1..] == rest[j];
    }
  }

  // ----- Combinations as rising index sequences -----

  /** Strictly increasing positions below `n`. */
  predicate Rising(c: seq<nat>, n: nat) {
    (forall i :: 0 <= i < |c| ==> c[i] < n) && forall i, j :: 0 <= i < j < |c| ==> c[i] < c[j]
  }

  function Picked(elements: seq<Element>, c: seq<nat>): System
    requires Rising(c, |elements|)
  {
    seq(|c|, i requires 0 <= i < |c| => elements[c[i]])
  }

  /** `a` comes before `b`: where they first differ, `a` has the smaller position. */
  ghost predicate Earlier(a: seq<nat>, b: seq<nat>) {
    exists k: nat :: FirstDifference(a, b, k)
  }

  predicate FirstDifference(a: seq<nat>, b: seq<nat>, k: nat) {
    k < |a| && k < |b| && a[k] < b[k] && forall i :: 0 <= i < k ==> a[i] == b[i]
  }

  ghost predicate InOrder(choices: seq<seq<nat>>) {
    forall i, j :: 0 <= i < j < |choices| ==> Earlier(choices[i], choices[j])
  }

  /** `systems` are what `choices` pick, one for one. */
  ghost predicate PickedBy(systems: seq<System>, elements: seq<Element>, choices: seq<seq<nat>>) {
    && |systems| == |choices|
    && forall i :: 0 <= i < |choices| ==> Rising(choices[i], |elements|) && systems[i] == Picked(elements, choices[i])
  }

  /** All rising index sequences of one length. */
  ghost predicate AreChoices(choices: seq<seq<nat>>, n: nat, size: nat) {
    forall c :: c in choices <==> Rising(c, n) && |c| == size
  }

  /** The combinations are exactly the picks of all rising index sequences of that length, in lexicographic order. */
  lemma {:induction false} CombinationsAreChoices(elements: seq<Element>, size: nat) returns (choices: seq<seq<nat>>)
    ensures AreChoices(choices, |elements|, size) && InOrder(choices) && PickedBy(Combinations(elements, size), elements, choices)
    decreases elements
  {
    hide AreChoices, InOrder, PickedBy, Prepended, Combinations;
    if size == 0 || elements == [] {
      choices := FewChoices(elements, size);
    } else {
      var rest := elements[1..];
      var with := CombinationsAreChoices(rest, size - 1);
      var without := CombinationsAreChoices(rest, size);
      choices := Led(with) + Shift(without);
      LedAreChoices(elements, with, without, size);
      LedInOrder(with, without, |rest|, size);
      LedPick(elements, Combinations(rest, size - 1), with);
      ShiftPick(elements, Combinations(rest, size), without);
      PickAppend(Prepended(elements[0], Combinations(rest, size - 1)), Combinations(rest, size), elements, Led(with), Shift(without));
      CombinationsSplit(elements, size);
    }
  }

  lemma CombinationsSplit(elements: seq<Element>, size: nat)
    requires size > 0 && elements != []
    ensures Combinations(elements, size)
      == Prepended(elements[0], Combinations(elements[1..], size - 1)) + Combinations(elements[1..], size)
  {
  }

  lemma PickAppend(a: seq<System>, b: seq<System>, elements: seq<Element>, c: seq<seq<nat>>, d: seq<seq<nat>>)
    requires PickedBy(a, elements, c) && PickedBy(b, elements, d)
    ensures PickedBy(a + b, elements, c + d)
  {
    hide Rising, Picked;
  }

  lemma NoneRising(c: seq<nat>)
    ensures Rising(c, 0) ==> |c| == 0
  {
    if c != [] { assert !(c[0] < 0); }
  }

  lemma FewChoices(elements: seq<Element>, size: nat) returns (choices: seq<seq<nat>>)
    requires size == 0 || elements == []
    ensures AreChoices(choices, |elements|, size) && InOrder(choices) && PickedBy(Combinations(elements, size), elements, choices)
  {
    choices := if size == 0 then [[]] else [];
    if size == 0 {
      assert Picked(elements, []) == [];
      forall c: seq<nat> | |c| == 0 ensures c == [] && Rising(c, |elements|) {}
    } else {
      forall c ensures Rising(c, 0) ==> |c| == 0 { NoneRising(c); }
    }
  }

  function Next(c: seq<nat>): seq<nat> { seq(|c|, i requires 0 <= i < |c| => c[i] + 1) }

  function Shift(choices: seq<seq<nat>>): seq<seq<nat>> {
    seq(|choices|, i requires 0 <= i < |choices| => Next(choices[i]))
  }

  function Led(choices: seq<seq<nat>>): seq<seq<nat>> {
    seq(|choices|, i requires 0 <= i < |choices| => [0] + Next(choices[i]))
  }

  /** A rising sequence starts with position 0 or does not use it; behind that it rises in the remaining positions. */
  lemma RisingSplits(c: seq<nat>, n: nat) returns (low: bool, d: seq<nat>)
    requires n > 0 && Rising(c, n) && c != []
    ensures Rising(d, n - 1) && c == if low then [0] + Next(d) else Next(d)
  {
    low := c[0] == 0;
    var tail := if low then c[1..] else c;
    assert forall i :: 0 <= i < |tail| ==> 1 <= tail[i] < n;
    d := seq(|tail|, i requires 0 <= i < |tail| => tail[i] - 1);
    assert Next(d) == tail;
  }

  lemma RisingJoins(d: seq<nat>, n: nat)
    requires n > 0
    ensures Rising(Next(d), n) <==> Rising(d, n - 1)
    ensures Rising([0] + Next(d), n) <==> Rising(d, n - 1)
  {
    var next, led := Next(d), [0] + Next(d);
    if Rising(next, n) || Rising(led, n) {
      forall i | 0 <= i < |d| ensures d[i] < n - 1 { assert next[i] == led[i + 1]; }
      forall i, j | 0 <= i < j < |d| ensures d[i] < d[j] { assert next[i] == led[i + 1] && next[j] == led[j + 1]; }
    }
  }

  lemma LedIsChoice(with: seq<seq<nat>>, without: seq<seq<nat>>, n: nat, size: nat, c: seq<nat>)
    requires n > 0 && size > 0 && AreChoices(with, n - 1, size - 1) && AreChoices(without, n - 1, size)
    ensures c in Led(with) ==> Rising(c, n) && |c| == size
    ensures c in Shift(without) ==> Rising(c, n) && |c| == size
  {
    hide Rising;
    var led, shifted := Led(with), Shift(without);
    if i :| 0 <= i < |led| && led[i] == c {
      assert with[i] in with;
      RisingJoins(with[i], n);
    }
    if i :| 0 <= i < |shifted| && shifted[i] == c {
      assert without[i] in without;
      RisingJoins(without[i], n);
    }
  }

  lemma ChoiceIsLed(with: seq<seq<nat>>, without: seq<seq<nat>>, n: nat, size: nat, c: seq<nat>)
    requires n > 0 && size > 0 && AreChoices(with, n - 1, size - 1) && AreChoices(without, n - 1, size)
    requires Rising(c, n) && |c| == size
    ensures c in Led(with) || c in Shift(without)
  {
    hide Rising;
    var low, d := RisingSplits(c, n);
    if low {
      var i :| 0 <= i < |with| && with[i] == d;
      assert Led(with)[i] == c;
    } else {
      var i :| 0 <= i < |without| && without[i] == d;
      assert Shift(without)[i] == c;
    }
  }

  lemma LedAreChoices(elements: seq<Element>, with: seq<seq<nat>>, without: seq<seq<nat>>, size: nat)
    requires elements != [] && size > 0
    requires AreChoices(with, |elements| - 1, size - 1) && AreChoices(without, |elements| - 1, size)
    ensures AreChoices(Led(with) + Shift(without), |elements|, size)
  {
    hide Rising, Led, Shift;
    forall c ensures c in Led(with) + Shift(without) <==> Rising(c, |elements|) && |c| == size {
      LedIsChoice(with, without, |elements|, size, c);
      if Rising(c, |elements|) && |c| == size { ChoiceIsLed(with, without, |elements|, size, c); }
    }
  }

  lemma NextEarlier(a: seq<nat>, b: seq<nat>)
    requires Earlier(a, b)
    ensures Earlier(Next(a), Next(b)) && Earlier([0] + Next(a), [0] + Next(b))
  {
    var k: nat :| FirstDifference(a, b, k);
    assert FirstDifference(Next(a), Next(b), k);
    assert FirstDifference([0] + Next(a), [0] + Next(b), k + 1);
  }

  lemma LedInOrder(with: seq<seq<nat>>, without: seq<seq<nat>>, n: nat, size: nat)
    requires InOrder(with) && InOrder(without) && AreChoices(without, n, size) && size > 0
    ensures InOrder(Led(with) + Shift(without))
  {
    hide Earlier;
    var all := Led(with) + Shift(without);
    forall i, j | 0 <= i < j < |all| ensures Earlier(all[i], all[j]) {
      if j < |with| {
        NextEarlier(with[i], with[j]);
      } else if i >= |with| {
        NextEarlier(without[i - |with|], without[j - |with|]);
      } else {
        assert without[j - |with|] in without;
        StartsLower(with[i], without[j - |with|]);
      }
    }
  }

  lemma StartsLower(a: seq<nat>, b: seq<nat>)
    requires b != []
    ensures Earlier([0] + Next(a), Next(b))
  {
    assert FirstDifference([0] + Next(a), Next(b), 0);
  }

  lemma PickNext(elements: seq<Element>, d: seq<nat>)
    requires elements != [] && Rising(d, |elements| - 1)
    ensures Rising(Next(d), |elements|) && Picked(elements, Next(d)) == Picked(elements[1..], d)
    ensures Rising([0] + Next(d), |elements|) && Picked(elements, [0] + Next(d)) == [elements[0]] + Picked(elements[1..], d)
  {
    RisingJoins(d, |elements|);
  }

  lemma LedPick(elements: seq<Element>, systems: seq<System>, choices: seq<seq<nat>>)
    requires elements != [] && PickedBy(systems, elements[1..], choices)
    ensures PickedBy(Prepended(elements[0], systems), elements, Led(choices))
  {
    hide Rising, Picked;
    forall i | 0 <= i < |choices|
      ensures Rising(Led(choices)[i], |elements|) && Prepended(elements[0], systems)[i] == Picked(elements, Led(choices)[i])
    {
      PickNext(elements, choices[i]);
    }
  }

  lemma ShiftPick(elements: seq<Element>, systems: seq<System>, choices: seq<seq<nat>>)
    requires elements != [] && PickedBy(systems, elements[1..], choices)
    ensures PickedBy(systems, elements, Shift(choices))
  {
    hide Rising, Picked;
    forall i | 0 <= i < |choices|
      ensures Rising(Shift(choices)[i], |elements|) && systems[i] == Picked(elements, Shift(choices)[i])
    {
      PickNext(elements, choices[i]);
    }
  }

  /** The order is strict, so no choice is listed twice. */
  lemma EarlierIsStrict(a: seq<nat>, b: seq<nat>)
    requires Earlier(a, b)
    ensures a != b && !Earlier(b, a)
  {
    var k: nat :| FirstDifference(a, b, k);
    if l: nat :| FirstDifference(b, a, l) {
      assert l < k ==> a[l] == b[l];
    }
  }

  // ----- Stability support -----

  function CountOf(counts: map<System, nat>, s: System): nat { if s in counts then counts[s] else 0 }

  function SumCounts(systems: seq<System>, counts: map<System, nat>): nat {
    if systems == [] then 0
    else SumCounts(systems[..|systems| - 1], counts) + CountOf(counts, systems[|systems| - 1])
  }

  /** Stable entries in the sub-systems of two or more elements, below `limit` elements. */
  function StableTotal(system: System, counts: map<System, nat>, limit: nat): nat {
    if limit <= 2 then 0
    else StableTotal(system, counts, limit - 1) + SumCounts(Combinations(system, limit - 1), counts)
  }

  // ----- What it means that enough stable entries are found -----

  lemma {:induction false} SumAtLeast(systems: seq<System>, counts: map<System, nat>)
    ensures SumCounts(systems, counts) >= 1 <==> exists i :: 0 <= i < |systems| && CountOf(counts, systems[i]) >= 1
    ensures SumCounts(systems, counts) >= 2 <==>
      || (exists i :: 0 <= i < |systems| && CountOf(counts, systems[i]) >= 2)
      || exists i, j :: 0 <= i < j < |systems| && CountOf(counts, systems[i]) >= 1 && CountOf(counts, systems[j]) >= 1
  {
    hide CountOf;
    if systems != [] {
      var n := |systems| - 1;
      SumAtLeast(systems[..n], counts);
      assert forall i :: 0 <= i < n ==> systems[..n][i] == systems[i];
      if SumCounts(systems[..n], counts) >= 1 {
        var i :| 0 <= i < n && CountOf(counts, systems[..n][i]) >= 1;
        assert CountOf(counts, systems[i]) >= 1;
      }
      if SumCounts(systems[..n], counts) >= 2 {
        if i :| 0 <= i < n && CountOf(counts, systems[..n][i]) >= 2 {
          assert CountOf(counts, systems[i]) >= 2;
        } else {
          var i, j :| 0 <= i < j < n && CountOf(counts, systems[..n][i]) >= 1 && CountOf(counts, systems[..n][j]) >= 1;
          assert CountOf(counts, systems[i]) >= 1 && CountOf(counts, systems[j]) >= 1;
        }
      }
    }
  }

  /** The sub-system that `c` picks has two or more elements and at least `k` stable entries. */
  predicate Holds(system: System, counts: map<System, nat>, c: seq<nat>, k: nat) {
    |c| >= 2 && Rising(c, |system|) && Picked(system, c) in counts && counts[Picked(system, c)] >= k
  }

  ghost predicate OneBelow(system: System, counts: map<System, nat>, limit: nat, k: nat) {
    exists c :: |c| < limit && Holds(system, counts, c, k)
  }

  ghost predicate TwoBelow(system: System, counts: map<System, nat>, limit: nat) {
    exists c, d :: c != d && |c| < limit && |d| < limit && Holds(system, counts, c, 1) && Holds(system, counts, d, 1)
  }

  ghost predicate OneAt(system: System, counts: map<System, nat>, size: nat, k: nat) {
    exists c :: |c| == size && Holds(system, counts, c, k)
  }

  ghost predicate TwoAt(system: System, counts: map<System, nat>, size: nat) {
    exists c, d :: c != d && |c| == |d| == size && Holds(system, counts, c, 1) && Holds(system, counts, d, 1)
  }

  lemma CountsHold(system: System, counts: map<System, nat>, systems: seq<System>, choices: seq<seq<nat>>, size: nat, i: nat, k: nat)
    requires size >= 2 && k >= 1 && PickedBy(systems, system, choices) && AreChoices(choices, |system|, size) && i < |choices|
    ensures CountOf(counts, systems[i]) >= k <==> Holds(system, counts, choices[i], k)
    ensures |choices[i]| == size
  {
    hide Rising, Picked;
    assert choices[i] in choices;
  }

  lemma HeldIsChosen(system: System, counts: map<System, nat>, choices: seq<seq<nat>>, size: nat, c: seq<nat>, k: nat) returns (i: nat)
    requires AreChoices(choices, |system|, size) && |c| == size && Holds(system, counts, c, k)
    ensures i < |choices| && choices[i] == c
  {
    hide Rising, Picked;
    i :| i < |choices| && choices[i] == c;
  }

  lemma OneSize(system: System, counts: map<System, nat>, size: nat, k: nat)
    requires size >= 2 && k >= 1
    ensures (exists i :: 0 <= i < |Combinations(system, size)| && CountOf(counts, Combinations(system, size)[i]) >= k)
      <==> OneAt(system, counts, size, k)
  {
    hide Combinations, Rising, Picked, InOrder, Holds, CountOf, AreChoices;
    var systems := Combinations(system, size);
    var choices := CombinationsAreChoices(system, size);
    if i: nat :| i < |systems| && CountOf(counts, systems[i]) >= k {
      CountsHold(system, counts, systems, choices, size, i, k);
    }
    if c :| |c| == size && Holds(system, counts, c, k) {
      var i := HeldIsChosen(system, counts, choices, size, c, k);
      CountsHold(system, counts, systems, choices, size, i, k);
    }
  }

  lemma TwoOfSize(system: System, counts: map<System, nat>, size: nat)
    requires size >= 2
    ensures (exists i, j :: 0 <= i < j < |Combinations(system, size)|
              && CountOf(counts, Combinations(system, size)[i]) >= 1 && CountOf(counts, Combinations(system, size)[j]) >= 1)
      <==> TwoAt(system, counts, size)
  {
    hide Combinations, Rising, Picked, Earlier, Holds, CountOf, AreChoices;
    var systems := Combinations(system, size);
    var choices := CombinationsAreChoices(system, size);
    if i: nat, j: nat :| i < j < |systems| && CountOf(counts, systems[i]) >= 1 && CountOf(counts, systems[j]) >= 1 {
      CountsHold(system, counts, systems, choices, size, i, 1);
      CountsHold(system, counts, systems, choices, size, j, 1);
      EarlierIsStrict(choices[i], choices[j]);
    }
    if c, d :| c != d && |c| == |d| == size && Holds(system, counts, c, 1) && Holds(system, counts, d, 1) {
      var i := HeldIsChosen(system, counts, choices, size, c, 1);
      var j := HeldIsChosen(system, counts, choices, size, d, 1);
      CountsHold(system, counts, systems, choices, size, i, 1);
      CountsHold(system, counts, systems, choices, size, j, 1);
    }
  }

  lemma SizeAtLeast(system: System, counts: map<System, nat>, size: nat)
    requires size >= 2
    ensures SumCounts(Combinations(system, size), counts) >= 1 <==> OneAt(system, counts, size, 1)
    ensures SumCounts(Combinations(system, size), counts) >= 2 <==> OneAt(system, counts, size, 2) || TwoAt(system, counts, size)
  {
    hide Combinations, SumCounts, OneAt, TwoAt, CountOf;
    SumAtLeast(Combinations(system, size), counts);
    OneSize(system, counts, size, 1);
    OneSize(system, counts, size, 2);
    TwoOfSize(system, counts, size);
  }

  /** Two stable entries are found exactly when one sub-system has two of them, or two sub-systems have one each. */
  lemma {:induction false} TotalAtLeast(system: System, counts: map<System, nat>, limit: nat)
    ensures StableTotal(system, counts, limit) >= 1 <==> OneBelow(system, counts, limit, 1)
    ensures StableTotal(system, counts, limit) >= 2 <==> OneBelow(system, counts, limit, 2) || TwoBelow(system, counts, limit)
  {
    if limit > 2 {
      hide Combinations, SumCounts, OneBelow, TwoBelow, OneAt, TwoAt;
      TotalAtLeast(system, counts, limit - 1);
      SizeAtLeast(system, counts, limit - 1);
      OneMore(system, counts, limit, 1);
      OneMore(system, counts, limit, 2);
      TwoMore(system, counts, limit);
    }
  }

  lemma OneMore(system: System, counts: map<System, nat>, limit: nat, k: nat)
    requires limit > 2
    ensures OneBelow(system, counts, limit, k) <==> OneBelow(system, counts, limit - 1, k) || OneAt(system, counts, limit - 1, k)
  {
    hide Holds;
  }

  lemma TwoMore(system: System, counts: map<System, nat>, limit: nat)
    requires limit > 2
    ensures TwoBelow(system, counts, limit) <==>
      || TwoBelow(system, counts, limit - 1) || TwoAt(system, counts, limit - 1)
      || (OneBelow(system, counts, limit - 1, 1) && OneAt(system, counts, limit - 1, 1))
  {
    hide Holds;
    if c, d :| c != d && |c| < limit && |d| < limit && Holds(system, counts, c, 1) && Holds(system, counts, d, 1) {
      assert |c| == limit - 1 || |c| < limit - 1;
      assert |d| == limit - 1 || |d| < limit - 1;
    }
    if OneBelow(system, counts, limit - 1, 1) && OneAt(system, counts, limit - 1, 1) {
      var c :| |c| < limit - 1 && Holds(system, counts, c, 1);
      var d :| |d| == limit - 1 && Holds(system, counts, d, 1);
      assert c != d;
    }
  }

  /** Two stable entries among the sub-systems of two or more elements, the whole system included. */
  ghost predicate TwoStable(system: System, counts: map<System, nat>) {
    || (exists c :: Holds(system, counts, c, 2))
    || exists c, d :: c != d && Holds(system, counts, c, 1) && Holds(system, counts, d, 1)
  }

  lemma StableIffTwo(system: System, counts: map<System, nat>)
    ensures StableTotal(system, counts, |system| + 1) >= 2 <==> TwoStable(system, counts)
  {
    hide StableTotal, Picked;
    TotalAtLeast(system, counts, |system| + 1);
    forall c, k: nat | Holds(system, counts, c, k) ensures |c| <= |system| { RisingFits(c, |system|); }
  }

  lemma {:induction false} RisingFits(c: seq<nat>, n: nat)
    requires Rising(c, n)
    ensures |c| <= n
    decreases n
  {
    if c != [] {
      assert c[|c| - 1] < n;
      RisingFits(c[..|c| - 1], n - 1);
    }
  }
}
