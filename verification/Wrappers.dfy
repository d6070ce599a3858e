/** Result types shared by the modules: Python's `None` and Python's exceptions. */
module Wrappers {

  datatype Option<+T> = None | Some(value: T)

  /** `Raised` stands for a Python exception; `:-` propagates it to the caller. */
  datatype Outcome<+T, +E> = Returned(value: T) | Raised(error: E) {
    predicate IsFailure() { Raised? }

    function PropagateFailure<U>(): Outcome<U, E>
      requires Raised?
    {
      Raised(error)
    }

    function Extract(): T
      requires Returned?
    {
      value
    }
  }

  /** An operation that either passes or raises, and returns nothing. */
  datatype Check<+E> = Pass | Fail(error: E) {
    predicate IsFailure() { Fail? }

    function PropagateFailure<U>(): Outcome<U, E>
      requires Fail?
    {
      Raised(error)
    }
  }

  ghost predicate Distinct<T>(s: seq<T>) {
    forall i, j :: 0 <= i < j < |s| ==> s[i] != s[j]
  }

  ghost function Elements<T>(s: seq<T>): set<T> { set x | x in s }

  lemma DistinctAppend<T>(a: seq<T>, b: seq<T>)
    requires Distinct(a) && Distinct(b)
    requires forall x :: x in a ==> x !in b
    ensures Distinct(a + b)
  {
    forall i, j | 0 <= i < j < |a + b| ensures (a + b)[i] != (a + b)[j] {
      if i < |a| <= j { assert a[i] in a && b[j - |a|] in b; }
    }
  }

  lemma ElementsAppend<T>(a: seq<T>, x: T)
    ensures Elements(a + [x]) == Elements(a) + {x}
  {
  }

  /** A duplicate-free sequence is as long as its set of elements is large. */
  lemma {:induction false} DistinctCardinality<T>(s: seq<T>)
    requires Distinct(s)
    ensures |Elements(s)| == |s|
  {
    if s == [] {
    } else {
      var front, last := s[..|s| - 1], s[|s| - 1];
      assert s == front + [last];
      DistinctCardinality(front);
      ElementsAppend(front, last);
    }
  }

  lemma SingleDistinct<T>(x: T)
    ensures Distinct([x]) && Distinct<T>([])
  {
  }

  lemma SubsetOfSameSize<T>(a: set<T>, b: set<T>)
    requires a <= b && |a| == |b|
    ensures a == b
  {
    assert |b - a| == 0;
  }

  /** Freedom from duplicates, by counting. */
  lemma {:induction false} DistinctCounts<T>(s: seq<T>)
    ensures Distinct(s) <==> forall x :: x in multiset(s) ==> multiset(s)[x] == 1
  {
    if s != [] {
      var n := |s| - 1;
      DistinctCounts(s[..n]);
      assert s == s[..n] + [s[n]];
      if Distinct(s) { assert s[n] !in s[..n]; }
      if forall x :: x in multiset(s) ==> multiset(s)[x] == 1 {
        forall x | x in multiset(s[..n]) ensures multiset(s[..n])[x] == 1 && x != s[n] { assert multiset(s)[x] == 1; }
        assert s[n] !in multiset(s[..n]);
        DistinctAppend(s[..n], [s[n]]);
      }
    }
  }

  /** Python's substring test. */
  predicate Contains(s: string, part: string) { part <= s || (s != [] && Contains(s[1..], part)) }

  /** `part` stands in `s` at position `i`. */
  predicate OccursAt(s: string, i: nat, part: string) { i + |part| <= |s| && s[i..i + |part|] == part }

  /** A string contains another exactly when the other stands somewhere in it. */
  lemma {:induction false} ContainsIsOccurrence(s: string, part: string)
    ensures Contains(s, part) <==> exists i: nat :: OccursAt(s, i, part)
  {
    if part <= s {
      assert OccursAt(s, 0, part);
    } else if s != [] {
      ContainsIsOccurrence(s[1..], part);
      if i: nat :| OccursAt(s[1..], i, part) {
        assert s[i + 1..i + 1 + |part|] == s[1..][i..i + |part|];
        assert OccursAt(s, i + 1, part);
      }
      if i: nat :| OccursAt(s, i, part) {
        assert i > 0;
        assert s[1..][i - 1..i - 1 + |part|] == s[i..i + |part|];
        assert OccursAt(s[1..], i - 1, part);
      }
    }
  }
}
