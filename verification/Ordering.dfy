/** Python's orders on strings and on tuples of strings, and sorting by the latter. */
module Ordering {
  import opened Wrappers

  /** Python's order on strings: the first difference decides, and a prefix comes first. */
  predicate Before(a: string, b: string) {
    b != [] && (a == [] || a[0] < b[0] || (a[0] == b[0] && Before(a[1..], b[1..])))
  }

  lemma {:induction false} BeforeTotal(a: string, b: string)
    ensures Before(a, b) || a == b || Before(b, a)
  {
    if a != [] && b != [] && a[0] == b[0] {
      BeforeTotal(a[1..], b[1..]);
      assert a == [a[0]] + a[1..] && b == [b[0]] + b[1..];
    }
  }

  lemma {:induction false} BeforeTransitive(a: string, b: string, c: string)
    requires Before(a, b) && Before(b, c)
    ensures Before(a, c)
  {
    if a != [] && a[0] == b[0] && b[0] == c[0] { BeforeTransitive(a[1..], b[1..], c[1..]); }
  }

  lemma {:induction false} BeforeAsymmetric(a: string, b: string)
    requires Before(a, b)
    ensures !Before(b, a) && a != b
  {
    if a != [] && a[0] == b[0] { BeforeAsymmetric(a[1..], b[1..]); }
  }

  lemma {:induction false} BeforeUnderPrefix(p: string, a: string, b: string)
    ensures Before(p + a, p + b) <==> Before(a, b)
  {
    if p == [] {
      assert p + a == a && p + b == b;
    } else {
      BeforeUnderPrefix(p[1..], a, b);
      assert (p + a)[1..] == p[1..] + a && (p + b)[1..] == p[1..] + b;
    }
  }

  /** A difference between strings of equal length decides whatever is appended to either. */
  lemma {:induction false} DifferenceDecides(a: string, b: string, x: string, y: string)
    requires |a| == |b| && Before(a, b)
    ensures Before(a + x, b + y)
  {
    assert (a + x)[0] == a[0] && (b + y)[0] == b[0];
    if a[0] == b[0] {
      DifferenceDecides(a[1..], b[1..], x, y);
      assert (a + x)[1..] == a[1..] + x && (b + y)[1..] == b[1..] + y;
    }
  }

  lemma {:induction false} PrefixComesFirst(a: string, x: string)
    requires x != []
    ensures Before(a, a + x)
  {
    if a != [] {
      PrefixComesFirst(a[1..], x);
      assert (a + x)[1..] == a[1..] + x;
    }
  }

  // ----- Tuples of strings -----

  /** The first difference decides, and a prefix comes first. */
  predicate Precedes(a: seq<string>, b: seq<string>) {
    b != [] && (a == [] || Before(a[0], b[0]) || (a[0] == b[0] && Precedes(a[1..], b[1..])))
  }

  lemma {:induction false} PrecedesTotal(a: seq<string>, b: seq<string>)
    ensures Precedes(a, b) || a == b || Precedes(b, a)
  {
    hide Before;
    if a != [] && b != [] {
      BeforeTotal(a[0], b[0]);
      PrecedesTotal(a[1..], b[1..]);
      assert a == [a[0]] + a[1..] && b == [b[0]] + b[1..];
    }
  }

  lemma {:induction false} PrecedesTransitive(a: seq<string>, b: seq<string>, c: seq<string>)
    requires Precedes(a, b) && Precedes(b, c)
    ensures Precedes(a, c)
  {
    hide Before;
    if a != [] {
      if Before(a[0], b[0]) && Before(b[0], c[0]) { BeforeTransitive(a[0], b[0], c[0]); }
      if a[0] == b[0] == c[0] && Precedes(a[1..], b[1..]) && Precedes(b[1..], c[1..]) {
        PrecedesTransitive(a[1..], b[1..], c[1..]);
      }
    }
  }

  lemma {:induction false} NeverBeforeItself(a: string)
    ensures !Before(a, a)
  {
    if a != [] { NeverBeforeItself(a[1..]); }
  }

  lemma {:induction false} PrecedesAsymmetric(a: seq<string>, b: seq<string>)
    requires Precedes(a, b)
    ensures !Precedes(b, a) && a != b
  {
    hide Before;
    if a != [] {
      if Before(a[0], b[0]) {
        BeforeAsymmetric(a[0], b[0]);
      } else {
        PrecedesAsymmetric(a[1..], b[1..]);
        NeverBeforeItself(a[0]);
      }
    }
  }

  // ----- Sorting -----

  function Insert(x: seq<string>, s: seq<seq<string>>): seq<seq<string>> {
    if s == [] || Precedes(x, s[0]) then [x] + s else [s[0]] + Insert(x, s[1..])
  }

  function Sorted(s: seq<seq<string>>): seq<seq<string>> {
    if s == [] then [] else Insert(s[0], Sorted(s[1..]))
  }

  ghost predicate Ascending(s: seq<seq<string>>) { forall i, j :: 0 <= i < j < |s| ==> !Precedes(s[j], s[i]) }

  lemma {:induction false} InsertAscends(x: seq<string>, s: seq<seq<string>>)
    requires Ascending(s)
    ensures Ascending(Insert(x, s)) && multiset(Insert(x, s)) == multiset{x} + multiset(s)
  {
    hide Precedes;
    if s != [] && !Precedes(x, s[0]) {
      assert s == [s[0]] + s[1..];
      InsertAscends(x, s[1..]);
      var rest := Insert(x, s[1..]);
      forall y | y in rest ensures !Precedes(y, s[0]) {
        assert y in multiset(rest);
        if y != x { assert y in s[1..]; }
      }
    } else {
      forall i | 0 <= i < |s| ensures !Precedes(s[i], x) {
        if Precedes(s[i], x) {
          PrecedesTransitive(s[i], x, s[0]);
          if i == 0 { PrecedesAsymmetric(s[0], s[0]); }
        }
      }
    }
  }

  /** Sorting gives the same tuples in ascending order. */
  lemma {:induction false} SortedAscends(s: seq<seq<string>>)
    ensures Ascending(Sorted(s)) && multiset(Sorted(s)) == multiset(s) && |Sorted(s)| == |s|
  {
    if s != [] {
      SortedAscends(s[1..]);
      InsertAscends(s[0], Sorted(s[1..]));
      assert s == [s[0]] + s[1..];
    }
    assert |multiset(Sorted(s))| == |Sorted(s)|;
  }

  lemma {:induction false} OneAscendingOrder(a: seq<seq<string>>, b: seq<seq<string>>)
    requires Ascending(a) && Ascending(b) && multiset(a) == multiset(b)
    ensures a == b
  {
    hide Precedes;
    assert |multiset(a)| == |a| && |multiset(b)| == |b|;
    if a != [] {
      SameFirst(a, b);
      WithoutFirst(a);
      WithoutFirst(b);
      OneAscendingOrder(a[1..], b[1..]);
    }
  }

  lemma WithoutFirst(a: seq<seq<string>>)
    requires a != []
    ensures a == [a[0]] + a[1..] && multiset(a[1..]) == multiset(a) - multiset{a[0]}
    ensures Ascending(a) ==> Ascending(a[1..])
  {
    hide Precedes;
    assert a == [a[0]] + a[1..];
  }

  lemma SameFirst(a: seq<seq<string>>, b: seq<seq<string>>)
    requires a != [] && b != [] && Ascending(a) && Ascending(b) && multiset(a) == multiset(b)
    ensures a[0] == b[0]
  {
    hide Precedes;
    assert a[0] in multiset(b) && b[0] in multiset(a);
    var i :| 0 <= i < |b| && b[i] == a[0];
    var j :| 0 <= j < |a| && a[j] == b[0];
    PrecedesTotal(a[0], b[0]);
  }

  /** The sorted form of distinct tuples depends on their set alone. */
  lemma SortingForgetsOrder(a: seq<seq<string>>, b: seq<seq<string>>)
    requires Distinct(a) && Distinct(b) && Elements(a) == Elements(b)
    ensures Sorted(a) == Sorted(b)
  {
    hide Ascending, Sorted, Distinct;
    SortedAscends(a);
    SortedAscends(b);
    SameMultiset(a, b);
    OneAscendingOrder(Sorted(a), Sorted(b));
  }

  lemma SameMultiset<T>(a: seq<T>, b: seq<T>)
    requires Distinct(a) && Distinct(b) && Elements(a) == Elements(b)
    ensures multiset(a) == multiset(b)
  {
    hide Distinct;
    DistinctCounts(a);
    DistinctCounts(b);
    forall x ensures multiset(a)[x] == multiset(b)[x] {
      assert x in multiset(a) <==> x in Elements(a);
      assert x in multiset(b) <==> x in Elements(b);
    }
  }
}
