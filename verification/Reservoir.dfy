/** Algorithm R over a stream of distinct items: every subset of the requested size comes from equally many outcome
    sequences of the random source. */
module Reservoir {
  import opened Wrappers

  // ----- The algorithm as a function of its random outcomes -----

  /** Call `i` draws from `0 .. k + i + 1`: the stream then holds `k + i + 1` items. */
  predicate ValidDraws(draws: seq<nat>, n: nat, k: nat) {
    |draws| == (if n < k then 0 else n - k) && forall i :: 0 <= i < |draws| ==> draws[i] < k + i + 1
  }

  function Sample<T>(items: seq<T>, k: nat, draws: seq<nat>): (r: seq<T>)
    requires ValidDraws(draws, |items|, k)
    ensures |r| == if |items| < k then |items| else k
    decreases |items|
  {
    if |items| <= k then items
    else
      var n, m := |items| - 1, |draws| - 1;
      var before := Sample(items[..n], k, draws[..m]);
      if draws[m] < k then before[draws[m] := items[n]] else before
  }

  /** The sample holds distinct items of the stream. */
  lemma {:induction false} SampleIsDistinct<T>(items: seq<T>, k: nat, draws: seq<nat>)
    requires ValidDraws(draws, |items|, k) && Distinct(items)
    ensures Distinct(Sample(items, k, draws)) && Elements(Sample(items, k, draws)) <= Elements(items)
    decreases |items|
  {
    if |items| > k {
      var n, m := |items| - 1, |draws| - 1;
      SampleIsDistinct(items[..n], k, draws[..m]);
      LastIsNew(items);
    }
  }

  lemma LastIsNew<T>(items: seq<T>)
    requires items != [] && Distinct(items)
    ensures var n := |items| - 1;
      Distinct(items[..n]) && items[n] !in Elements(items[..n]) && Elements(items) == Elements(items[..n]) + {items[n]}
  {
    assert items == items[..|items| - 1] + [items[|items| - 1]];
  }

  // ----- Outcome sequences -----

  function Append(ds: set<seq<nat>>, x: nat): set<seq<nat>> { set d | d in ds :: d + [x] }

  /** Each of `ds` followed by each of `lo .. hi`. */
  function Extend(ds: set<seq<nat>>, lo: nat, hi: nat): set<seq<nat>> {
    if hi <= lo then {} else Extend(ds, lo, hi - 1) + Append(ds, hi - 1)
  }

  function AllDraws(n: nat, k: nat): set<seq<nat>> {
    if n <= k then {[]} else Extend(AllDraws(n - 1, k), 0, n)
  }

  lemma {:induction false} InExtend(ds: set<seq<nat>>, lo: nat, hi: nat, d: seq<nat>)
    ensures d in Extend(ds, lo, hi) <==> d != [] && d[..|d| - 1] in ds && lo <= d[|d| - 1] < hi
  {
    if lo < hi {
      InExtend(ds, lo, hi - 1, d);
      if d != [] && d[..|d| - 1] in ds && d[|d| - 1] == hi - 1 { assert d == d[..|d| - 1] + [hi - 1]; }
    }
  }

  lemma {:induction false} InAllDraws(n: nat, k: nat, d: seq<nat>)
    ensures d in AllDraws(n, k) <==> ValidDraws(d, n, k)
  {
    if n > k {
      InExtend(AllDraws(n - 1, k), 0, n, d);
      if d != [] {
        var m := |d| - 1;
        InAllDraws(n - 1, k, d[..m]);
        if ValidDraws(d[..m], n - 1, k) && d[m] < n {
          forall i | 0 <= i < |d| ensures d[i] < k + i + 1 { assert i < m ==> d[i] == d[..m][i]; }
        }
      }
    }
  }

  lemma {:induction false} AppendSize(ds: set<seq<nat>>, x: nat)
    ensures |Append(ds, x)| == |ds|
    decreases ds
  {
    if ds != {} {
      var d :| d in ds;
      AppendSize(ds - {d}, x);
      assert Append(ds, x) == Append(ds - {d}, x) + {d + [x]};
      forall e | e in ds - {d} ensures e + [x] != d + [x] { assert (e + [x])[..|e|] == e && (d + [x])[..|d|] == d; }
    }
  }

  lemma DisjointSize<T>(a: set<T>, b: set<T>)
    requires a !! b
    ensures |a + b| == |a| + |b|
  {
  }

  lemma LaterIsApart(ds: set<seq<nat>>, lo: nat, x: nat)
    ensures Extend(ds, lo, x) !! Append(ds, x)
  {
    hide Extend;
    var early := Extend(ds, lo, x);
    forall d | d in early ensures d !in Append(ds, x) { InExtend(ds, lo, x, d); }
  }

  lemma {:induction false} ExtendSize(ds: set<seq<nat>>, lo: nat, hi: nat)
    requires lo <= hi
    ensures |Extend(ds, lo, hi)| == |ds| * (hi - lo)
    decreases hi
  {
    hide Append;
    if lo < hi {
      ExtendSize(ds, lo, hi - 1);
      AppendSize(ds, hi - 1);
      LaterIsApart(ds, lo, hi - 1);
      DisjointSize(Extend(ds, lo, hi - 1), Append(ds, hi - 1));
      OneMore(|ds|, hi - 1 - lo);
    }
  }

  lemma OneMore(a: nat, b: nat)
    ensures a * (b + 1) == a * b + a
  {
  }

  function Factorial(n: nat): nat { if n == 0 then 1 else n * Factorial(n - 1) }

  lemma Rotate(a: nat, n: nat, f: nat)
    ensures a * n * f == n * (a * f)
  {
    assert a * n == n * a;
  }

  /** There are n! / k! outcome sequences. */
  lemma {:induction false} DrawsSize(n: nat, k: nat)
    requires k <= n
    ensures |AllDraws(n, k)| * Factorial(k) == Factorial(n)
    decreases n
  {
    hide Extend;
    if n > k {
      DrawsSize(n - 1, k);
      ExtendSize(AllDraws(n - 1, k), 0, n);
      Rotate(|AllDraws(n - 1, k)|, n, Factorial(k));
    } else {
      assert AllDraws(n, k) == {[]};
    }
  }

  // ----- Counting the outcomes that lead to one subset -----

  /** The outcome sequences whose sample is exactly the set `s`. */
  ghost function Hits<T>(items: seq<T>, k: nat, s: set<T>): set<seq<nat>> {
    set d | d in AllDraws(|items|, k) && (InAllDraws(|items|, k, d); Elements(Sample(items, k, d)) == s)
  }

  lemma InHits<T>(items: seq<T>, k: nat, s: set<T>, d: seq<nat>)
    ensures d in Hits(items, k, s) <==> ValidDraws(d, |items|, k) && Elements(Sample(items, k, d)) == s
  {
    InAllDraws(|items|, k, d);
  }

  lemma DrawsFront(d: seq<nat>, n: nat, k: nat)
    requires n > k
    ensures ValidDraws(d, n, k) <==> d != [] && ValidDraws(d[..|d| - 1], n - 1, k) && d[|d| - 1] < n
  {
    if d != [] && ValidDraws(d[..|d| - 1], n - 1, k) && d[|d| - 1] < n {
      forall i | 0 <= i < |d| ensures d[i] < k + i + 1 { assert i < |d| - 1 ==> d[i] == d[..|d| - 1][i]; }
    }
  }

  lemma SetAt<T>(xs: seq<T>, i: nat, x: T)
    requires i < |xs| && Distinct(xs) && x !in Elements(xs)
    ensures Elements(xs[i := x]) == Elements(xs) - {xs[i]} + {x}
  {
    var ys := xs[i := x];
    forall y | y in Elements(xs) - {xs[i]} + {x} ensures y in ys {
      if y == x {
        assert ys[i] == x;
      } else {
        var j :| 0 <= j < |xs| && xs[j] == y;
        assert ys[j] == y;
      }
    }
    forall y | y in ys ensures y in Elements(xs) - {xs[i]} + {x} {
      var j :| 0 <= j < |ys| && ys[j] == y;
      assert j != i ==> ys[j] == xs[j];
    }
  }

  /** How the last draw changes the sampled set. */
  lemma LastDraw<T>(items: seq<T>, k: nat, d: seq<nat>)
    requires |items| > k && Distinct(items) && ValidDraws(d, |items|, k)
    ensures var n, m := |items| - 1, |d| - 1;
      && ValidDraws(d[..m], n, k)
      && var before := Sample(items[..n], k, d[..m]);
      && |before| == k && Distinct(before) && Elements(before) <= Elements(items[..n]) && items[n] !in Elements(items[..n])
      && Elements(Sample(items, k, d))
         == if d[m] < k then Elements(before) - {before[d[m]]} + {items[n]} else Elements(before)
  {
    hide Elements, Distinct;
    var n, m := |items| - 1, |d| - 1;
    DrawsFront(d, |items|, k);
    LastIsNew(items);
    SampleIsDistinct(items[..n], k, d[..m]);
    var before := Sample(items[..n], k, d[..m]);
    SubsetExcludes(Elements(before), Elements(items[..n]), items[n]);
    if d[m] < k { SetAt(before, d[m], items[n]); }
  }

  lemma SubsetExcludes<T>(a: set<T>, b: set<T>, x: T)
    requires a <= b && x !in b
    ensures x !in a
  {
  }

  /** A subset without the last item survives exactly the late draws. */
  lemma HitsWithoutLast<T>(items: seq<T>, k: nat, s: set<T>)
    requires |items| > k && Distinct(items) && items[|items| - 1] !in s
    ensures Hits(items, k, s) == Extend(Hits(items[..|items| - 1], k, s), k, |items|)
  {
    hide Elements, Distinct, Sample, ValidDraws, AllDraws, Hits, Extend;
    var n := |items| - 1;
    forall d ensures d in Hits(items, k, s) <==> d in Extend(Hits(items[..n], k, s), k, |items|) {
      InHits(items, k, s, d);
      InExtend(Hits(items[..n], k, s), k, |items|, d);
      DrawsFront(d, |items|, k);
      if ValidDraws(d, |items|, k) {
        LastDraw(items, k, d);
        InHits(items[..n], k, s, d[..|d| - 1]);
      } else if d != [] {
        InHits(items[..n], k, s, d[..|d| - 1]);
      }
    }
  }

  /** The earlier samples that a last draw can turn into `s`: `s` without the last item, and one other item of `bs`. */
  ghost function Parents<T>(items: seq<T>, k: nat, rest: set<T>, bs: set<T>): set<seq<nat>> {
    set d | d in AllDraws(|items|, k)
            && (InAllDraws(|items|, k, d); exists b :: b in bs && Elements(Sample(items, k, d)) == rest + {b})
  }

  lemma InParents<T>(items: seq<T>, k: nat, rest: set<T>, bs: set<T>, d: seq<nat>)
    ensures d in Parents(items, k, rest, bs) <==>
      ValidDraws(d, |items|, k) && exists b :: b in bs && Elements(Sample(items, k, d)) == rest + {b}
  {
    InAllDraws(|items|, k, d);
  }

  lemma ParentsSplit<T>(items: seq<T>, k: nat, rest: set<T>, b: T, others: set<T>)
    requires b !in others && b !in rest && others !! rest
    ensures Parents(items, k, rest, others + {b}) == Hits(items, k, rest + {b}) + Parents(items, k, rest, others)
    ensures Hits(items, k, rest + {b}) !! Parents(items, k, rest, others)
  {
    hide Elements, Sample, ValidDraws, AllDraws, Hits, Parents;
    var one, more := Hits(items, k, rest + {b}), Parents(items, k, rest, others);
    forall d ensures d in Parents(items, k, rest, others + {b}) <==> d in one || d in more {
      InParents(items, k, rest, others + {b}, d);
      InParents(items, k, rest, others, d);
      InHits(items, k, rest + {b}, d);
    }
    forall c | c in others ensures rest + {c} != rest + {b} { assert c in rest + {c} && c !in rest + {b}; }
    forall d | d in one ensures d !in more {
      InParents(items, k, rest, others, d);
      InHits(items, k, rest + {b}, d);
    }
  }

  /** The parents split by the item that is replaced. */
  lemma {:induction false} ParentsSize<T>(items: seq<T>, k: nat, rest: set<T>, bs: set<T>, each: nat)
    requires bs !! rest && forall b :: b in bs ==> |Hits(items, k, rest + {b})| == each
    ensures |Parents(items, k, rest, bs)| == |bs| * each
    decreases bs
  {
    hide Hits, Parents;
    if bs == {} {
      NoParents(items, k, rest);
    } else {
      var b :| b in bs;
      var others := bs - {b};
      ParentsSize(items, k, rest, others, each);
      ParentsSplit(items, k, rest, b, others);
      assert others + {b} == bs;
      AddOne(Hits(items, k, rest + {b}), Parents(items, k, rest, others), each, |others|);
      assert |bs| == |others| + 1;
    }
  }

  lemma AddOne<T>(a: set<T>, b: set<T>, each: nat, n: nat)
    requires a !! b && |a| == each && |b| == n * each
    ensures |a + b| == (n + 1) * each
  {
    OneMore(each, n);
  }

  lemma NoParents<T>(items: seq<T>, k: nat, rest: set<T>)
    ensures Parents(items, k, rest, {}) == {}
  {
  }

  // ----- A subset with the last item -----

  ghost predicate Outside<T>(xs: seq<T>, rest: set<T>, i: nat) { i < |xs| && xs[i] !in rest }

  /** The place of the item that is not in `rest`. */
  ghost function PlaceOutside<T>(xs: seq<T>, rest: set<T>): nat {
    if exists i: nat :: Outside(xs, rest, i) then var i: nat :| Outside(xs, rest, i); i else 0
  }

  lemma OnePlace<T>(xs: seq<T>, i: nat, j: nat)
    requires Distinct(xs) && i < |xs| && j < |xs| && xs[i] == xs[j]
    ensures i == j
  {
  }

  /** A draw turns a parent into `rest + {x}` exactly when it hits the item outside `rest`. */
  lemma OneDrawFits<T>(before: seq<T>, rest: set<T>, b: T, x: T, i: nat)
    requires Distinct(before) && Elements(before) == rest + {b} && b !in rest && x !in Elements(before) && i < |before|
    ensures Elements(before) - {before[i]} + {x} == rest + {x} <==> i == PlaceOutside(before, rest)
  {
    assert b in Elements(before);
    var j: nat :| j < |before| && before[j] == b;
    assert Outside(before, rest, j);
    assert forall l: nat :: Outside(before, rest, l) ==> before[l] in Elements(before) && before[l] == b;
    assert PlaceOutside(before, rest) == j by {
      forall l: nat | Outside(before, rest, l) ensures l == j { OnePlace(before, l, j); }
    }
    if i == j {
      assert Elements(before) - {b} + {x} == rest + {x};
    } else {
      assert before[i] != before[j] by { assert i < j || j < i; }
      assert b in Elements(before) - {before[i]} + {x};
      assert b != x;
    }
  }

  ghost function Tag<T>(items: seq<T>, k: nat, rest: set<T>, d: seq<nat>): nat {
    if ValidDraws(d, |items|, k) then PlaceOutside(Sample(items, k, d), rest) else 0
  }

  ghost function Tagged<T>(items: seq<T>, k: nat, rest: set<T>, ds: set<seq<nat>>): set<seq<nat>> {
    set d | d in ds :: d + [Tag(items, k, rest, d)]
  }

  lemma {:induction false} TaggedSize<T>(items: seq<T>, k: nat, rest: set<T>, ds: set<seq<nat>>)
    ensures |Tagged(items, k, rest, ds)| == |ds|
    decreases ds
  {
    hide Tag;
    if ds != {} {
      var d :| d in ds;
      var others := ds - {d};
      TaggedSize(items, k, rest, others);
      assert Tagged(items, k, rest, ds) == Tagged(items, k, rest, others) + {d + [Tag(items, k, rest, d)]};
      forall e | e in others ensures e + [Tag(items, k, rest, e)] != d + [Tag(items, k, rest, d)] {
        assert (e + [Tag(items, k, rest, e)])[..|e|] == e && (d + [Tag(items, k, rest, d)])[..|d|] == d;
      }
    }
  }

  lemma InTagged<T>(items: seq<T>, k: nat, rest: set<T>, ds: set<seq<nat>>, d: seq<nat>)
    ensures d in Tagged(items, k, rest, ds) <==>
      d != [] && d[..|d| - 1] in ds && d[|d| - 1] == Tag(items, k, rest, d[..|d| - 1])
  {
    hide Tag;
    if d != [] && d[..|d| - 1] in ds && d[|d| - 1] == Tag(items, k, rest, d[..|d| - 1]) {
      assert d == d[..|d| - 1] + [d[|d| - 1]];
    }
    if d in Tagged(items, k, rest, ds) {
      var e :| e in ds && d == e + [Tag(items, k, rest, e)];
      assert d[..|d| - 1] == e;
    }
  }

  /** Outcomes for a subset with the last item: a parent, and the one draw that replaces its extra item. */
  lemma HitsWithLast<T>(items: seq<T>, k: nat, s: set<T>)
    requires |items| > k && Distinct(items) && items[|items| - 1] in s && s <= Elements(items) && |s| == k
    ensures var n := |items| - 1; var rest := s - {items[n]};
      Hits(items, k, s) == Tagged(items[..n], k, rest, Parents(items[..n], k, rest, Elements(items[..n]) - s))
  {
    hide Distinct, Sample, ValidDraws, AllDraws, Hits, Parents, Tagged;
    var n := |items| - 1;
    var rest, bs := s - {items[n]}, Elements(items[..n]) - s;
    var parents := Parents(items[..n], k, rest, bs);
    forall d ensures d in Hits(items, k, s) <==> d in Tagged(items[..n], k, rest, parents) {
      InHits(items, k, s, d);
      InTagged(items[..n], k, rest, parents, d);
      DrawsFront(d, |items|, k);
      if d != [] {
        InParents(items[..n], k, rest, bs, d[..|d| - 1]);
        if ValidDraws(d, |items|, k) {
          LastDraw(items, k, d);
          LastDrawFits(items[..n], k, d, s, items[n], Sample(items[..n], k, d[..|d| - 1]));
        } else if d in Tagged(items[..n], k, rest, parents) {
          TagInRange(items[..n], k, rest, d[..|d| - 1], bs);
        }
      }
    }
  }

  lemma TagInRange<T>(items: seq<T>, k: nat, rest: set<T>, d: seq<nat>, bs: set<T>)
    requires k <= |items| && d in Parents(items, k, rest, bs)
    ensures Tag(items, k, rest, d) < k + 1
  {
    hide Distinct, AllDraws;
    InParents(items, k, rest, bs, d);
  }

  lemma LastDrawFits<T>(items: seq<T>, k: nat, d: seq<nat>, s: set<T>, x: T, before: seq<T>)
    requires d != [] && k <= |items| && ValidDraws(d[..|d| - 1], |items|, k) && before == Sample(items, k, d[..|d| - 1])
    requires |before| == k && Distinct(before) && Elements(before) <= Elements(items) && x !in Elements(items) && x in s && |s| == k
    ensures var rest := s - {x};
      (if d[|d| - 1] < k then Elements(before) - {before[d[|d| - 1]]} + {x} else Elements(before)) == s
      <==> (exists b :: b in Elements(items) - s && Elements(before) == rest + {b}) && d[|d| - 1] == Tag(items, k, rest, d[..|d| - 1])
  {
    hide Sample, ValidDraws, Distinct;
    var rest, i := s - {x}, d[|d| - 1];
    assert x !in Elements(before);
    assert rest + {x} == s;
    if i < k && Elements(before) - {before[i]} + {x} == s { FitHasExtra(before, s, x, i); }
    if exists b :: b in Elements(items) - s && Elements(before) == rest + {b} {
      var b :| b in Elements(items) - s && Elements(before) == rest + {b};
      PlaceInside(before, rest, b);
      if i < k { OneDrawFits(before, rest, b, x, i); }
    }
  }

  lemma FitHasExtra<T>(before: seq<T>, s: set<T>, x: T, i: nat)
    requires Distinct(before) && i < |before| && Elements(before) - {before[i]} + {x} == s && x !in Elements(before)
    requires |s| == |before|
    ensures Elements(before) == s - {x} + {before[i]} && before[i] in Elements(before) - s
  {
    assert before[i] in Elements(before);
  }

  lemma PlaceInside<T>(before: seq<T>, rest: set<T>, b: T)
    requires Elements(before) == rest + {b} && b !in rest
    ensures PlaceOutside(before, rest) < |before|
  {
    assert b in Elements(before);
    var j: nat :| j < |before| && before[j] == b;
    assert Outside(before, rest, j);
  }

  /** Every subset of size `k` is the outcome of exactly (n - k)! of the n! / k! outcome sequences. */
  lemma {:induction false} SampleIsUniform<T>(items: seq<T>, k: nat, s: set<T>)
    requires Distinct(items) && k <= |items| && s <= Elements(items) && |s| == k
    ensures |Hits(items, k, s)| == Factorial(|items| - k)
    decreases |items|
  {
    hide Hits, Elements, Distinct, Parents, Tagged, Extend;
    if |items| == k {
      OnlyHit(items, s);
    } else {
      var n := |items| - 1;
      LastIsNew(items);
      if items[n] in s {
        HitsWithLast(items, k, s);
        var rest, bs := s - {items[n]}, Elements(items[..n]) - s;
        forall b | b in bs ensures |Hits(items[..n], k, rest + {b})| == Factorial(n - k) {
          SampleIsUniform(items[..n], k, rest + {b});
        }
        ParentsSize(items[..n], k, rest, bs, Factorial(n - k));
        TaggedSize(items[..n], k, rest, Parents(items[..n], k, rest, bs));
        DistinctCardinality(items[..n]);
        OthersLeft(Elements(items[..n]), s, items[n]);
      } else {
        HitsWithoutLast(items, k, s);
        SampleIsUniform(items[..n], k, s);
        ExtendSize(Hits(items[..n], k, s), k, |items|);
      }
    }
  }

  lemma OnlyHit<T>(items: seq<T>, s: set<T>)
    requires Distinct(items) && s <= Elements(items) && |s| == |items|
    ensures |Hits(items, |items|, s)| == 1
  {
    DistinctCardinality(items);
    SubsetOfSameSize(s, Elements(items));
    assert Hits(items, |items|, s) == {[]};
  }

  lemma OthersLeft<T>(all: set<T>, s: set<T>, x: T)
    requires x in s && x !in all && s - {x} <= all
    ensures |all - s| == |all| - (|s| - 1)
  {
    assert all == (all - s) + (s - {x});
  }

  // ----- Every item is sampled equally often -----

  /** The outcome sequences whose sample holds `x`. */
  ghost function Holding<T>(items: seq<T>, k: nat, x: T): set<seq<nat>> {
    set d | d in AllDraws(|items|, k) && (InAllDraws(|items|, k, d); x in Elements(Sample(items, k, d)))
  }

  lemma InHolding<T>(items: seq<T>, k: nat, x: T, d: seq<nat>)
    ensures d in Holding(items, k, x) <==> ValidDraws(d, |items|, k) && x in Elements(Sample(items, k, d))
  {
    InAllDraws(|items|, k, d);
  }

  ghost predicate Holds<T>(xs: seq<T>, x: T, i: nat) { i < |xs| && xs[i] == x }

  ghost function PlaceOf<T>(xs: seq<T>, x: T): nat {
    if exists i: nat :: Holds(xs, x, i) then var i: nat :| Holds(xs, x, i); i else 0
  }

  ghost function PlaceIn<T>(items: seq<T>, k: nat, x: T, d: seq<nat>): nat {
    if ValidDraws(d, |items|, k) then PlaceOf(Sample(items, k, d), x) else 0
  }

  /** The one draw behind each outcome that pushes `x` out. */
  ghost function PushedOut<T>(items: seq<T>, k: nat, x: T, ds: set<seq<nat>>): set<seq<nat>> {
    set d | d in ds :: d + [PlaceIn(items, k, x, d)]
  }

  lemma {:induction false} PushedOutSize<T>(items: seq<T>, k: nat, x: T, ds: set<seq<nat>>)
    ensures |PushedOut(items, k, x, ds)| == |ds|
    decreases ds
  {
    hide PlaceIn;
    if ds != {} {
      var d :| d in ds;
      var others := ds - {d};
      PushedOutSize(items, k, x, others);
      assert PushedOut(items, k, x, ds) == PushedOut(items, k, x, others) + {d + [PlaceIn(items, k, x, d)]};
      forall e | e in others ensures e + [PlaceIn(items, k, x, e)] != d + [PlaceIn(items, k, x, d)] {
        assert (e + [PlaceIn(items, k, x, e)])[..|e|] == e && (d + [PlaceIn(items, k, x, d)])[..|d|] == d;
      }
    }
  }

  lemma InPushedOut<T>(items: seq<T>, k: nat, x: T, ds: set<seq<nat>>, d: seq<nat>)
    ensures d in PushedOut(items, k, x, ds) <==>
      d != [] && d[..|d| - 1] in ds && d[|d| - 1] == PlaceIn(items, k, x, d[..|d| - 1])
  {
    hide PlaceIn;
    if d != [] && d[..|d| - 1] in ds && d[|d| - 1] == PlaceIn(items, k, x, d[..|d| - 1]) {
      assert d == d[..|d| - 1] + [d[|d| - 1]];
    }
    if d in PushedOut(items, k, x, ds) {
      var e :| e in ds && d == e + [PlaceIn(items, k, x, e)];
      assert d[..|d| - 1] == e;
    }
  }

  /** Replacing one place removes `x` exactly when it is the place of `x`. */
  lemma PlaceFacts<T>(before: seq<T>, x: T, y: T, i: nat)
    requires Distinct(before) && x in before && x != y && i < |before|
    ensures PlaceOf(before, x) < |before|
    ensures x in Elements(before) - {before[i]} + {y} <==> i != PlaceOf(before, x)
  {
    var j: nat :| j < |before| && before[j] == x;
    assert Holds(before, x, j);
    forall l: nat | Holds(before, x, l) ensures l == j { OnePlace(before, l, j); }
    if before[i] == x { OnePlace(before, i, j); }
  }

  lemma HoldingLast<T>(items: seq<T>, k: nat)
    requires |items| > k && Distinct(items)
    ensures Holding(items, k, items[|items| - 1]) == Extend(AllDraws(|items| - 1, k), 0, k)
  {
    hide Elements, Distinct, Sample, ValidDraws, AllDraws, Holding, Extend;
    var n := |items| - 1;
    forall d ensures d in Holding(items, k, items[n]) <==> d in Extend(AllDraws(n, k), 0, k) {
      InHolding(items, k, items[n], d);
      InExtend(AllDraws(n, k), 0, k, d);
      DrawsFront(d, |items|, k);
      if d != [] { InAllDraws(n, k, d[..|d| - 1]); }
      if ValidDraws(d, |items|, k) { LastHeld(items, k, d); }
    }
  }

  lemma LastHeld<T>(items: seq<T>, k: nat, d: seq<nat>)
    requires |items| > k && Distinct(items) && ValidDraws(d, |items|, k) && d != []
    ensures items[|items| - 1] in Elements(Sample(items, k, d)) <==> d[|d| - 1] < k
  {
    hide Distinct, Sample, ValidDraws;
    LastDraw(items, k, d);
    var before := Sample(items[..|items| - 1], k, d[..|d| - 1]);
    SubsetExcludes(Elements(before), Elements(items[..|items| - 1]), items[|items| - 1]);
  }

  lemma HoldingEarlier<T>(items: seq<T>, k: nat, x: T)
    requires |items| > k && Distinct(items) && x in items && x != items[|items| - 1]
    ensures var n := |items| - 1; var h := Holding(items[..n], k, x);
      && PushedOut(items[..n], k, x, h) <= Extend(h, 0, |items|)
      && Holding(items, k, x) == Extend(h, 0, |items|) - PushedOut(items[..n], k, x, h)
  {
    hide Elements, Distinct, Sample, ValidDraws, AllDraws, Holding, Extend, PushedOut, PlaceIn;
    var n := |items| - 1;
    var h := Holding(items[..n], k, x);
    forall d
      ensures d in PushedOut(items[..n], k, x, h) ==> d in Extend(h, 0, |items|)
      ensures d in Holding(items, k, x) <==> d in Extend(h, 0, |items|) && d !in PushedOut(items[..n], k, x, h)
    {
      InHolding(items, k, x, d);
      InExtend(h, 0, |items|, d);
      InPushedOut(items[..n], k, x, h, d);
      DrawsFront(d, |items|, k);
      if d != [] {
        InHolding(items[..n], k, x, d[..|d| - 1]);
        if ValidDraws(d[..|d| - 1], n, k) {
          PlaceInRange(items, k, x, d[..|d| - 1]);
          if d[|d| - 1] < |items| { EarlierHeld(items, k, x, d); }
        }
      }
    }
  }

  lemma PlaceInRange<T>(items: seq<T>, k: nat, x: T, d: seq<nat>)
    requires |items| > k && ValidDraws(d, |items| - 1, k)
    ensures x in Elements(Sample(items[..|items| - 1], k, d)) ==> PlaceIn(items[..|items| - 1], k, x, d) < k
  {
    hide ValidDraws;
    var before := Sample(items[..|items| - 1], k, d);
    if x in before {
      var j: nat :| j < |before| && before[j] == x;
      assert Holds(before, x, j);
    }
  }

  lemma EarlierHeld<T>(items: seq<T>, k: nat, x: T, d: seq<nat>)
    requires |items| > k && Distinct(items) && x != items[|items| - 1] && ValidDraws(d, |items|, k) && d != []
    ensures ValidDraws(d[..|d| - 1], |items| - 1, k)
    ensures x in Elements(Sample(items, k, d)) <==>
      && x in Elements(Sample(items[..|items| - 1], k, d[..|d| - 1]))
      && d[|d| - 1] != PlaceIn(items[..|items| - 1], k, x, d[..|d| - 1])
  {
    hide Distinct, Sample, ValidDraws;
    LastDraw(items, k, d);
    var before, i := Sample(items[..|items| - 1], k, d[..|d| - 1]), d[|d| - 1];
    if x in before {
      PlaceInRange(items, k, x, d[..|d| - 1]);
      if i < k { PlaceFacts(before, x, items[|items| - 1], i); }
    }
  }

  lemma Scale(h: nat, n: nat, k: nat, all: nat)
    requires h * (n - 1) == k * all && n > 0
    ensures (h * n - h) * n == k * (all * n)
  {
    assert h * n - h == h * (n - 1);
    assert (k * all) * n == k * (all * n);
  }

  /** Every item is in the sample for the share k / n of all outcome sequences. */
  lemma {:induction false} EveryItemEquallyOften<T>(items: seq<T>, k: nat, x: T)
    requires Distinct(items) && k <= |items| && x in items
    ensures |Holding(items, k, x)| * |items| == k * |AllDraws(|items|, k)|
    decreases |items|
  {
    hide Holding, Distinct, PushedOut, Extend;
    var n := |items|;
    if n == k {
      assert Holding(items, k, x) == {[]} by { HoldingAll(items, x); }
    } else {
      var front, all := items[..n - 1], AllDraws(n - 1, k);
      LastIsNew(items);
      ExtendSize(all, 0, n);
      if x == items[n - 1] {
        HoldingLast(items, k);
        ExtendSize(all, 0, k);
        Rotate(|all|, k, n);
      } else {
        HoldingEarlier(items, k, x);
        var h := Holding(front, k, x);
        ExtendSize(h, 0, n);
        PushedOutSize(front, k, x, h);
        EveryItemEquallyOften(front, k, x);
        Scale(|h|, n, k, |all|);
      }
    }
  }

  lemma HoldingAll<T>(items: seq<T>, x: T)
    requires x in items
    ensures Holding(items, |items|, x) == {[]}
  {
  }
}
