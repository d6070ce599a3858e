/** Checkpoint folders are listed by name. A name holds the generation in decimal, zero-padded to four digits. */
module CheckpointNames {
  import opened Wrappers
  import opened Ordering

  const FOLDER_PREFIX := "generation_"

  /** Generations whose number needs no fifth digit. */
  const PADDED_GENERATIONS: nat := 10000

  function Digit(d: nat): char
    requires d < 10
  {
    '0' + d as char
  }

  function Digits(n: nat): (s: string)
    ensures s != []
  {
    (if n < 10 then [] else Digits(n / 10)) + [Digit(n % 10)]
  }

  function Padded(s: string): (r: string)
    ensures |r| == if |s| < 4 then 4 else |s|
    decreases 4 - |s|
  {
    if |s| < 4 then Padded("0" + s) else s
  }

  function Numeral(n: nat): string { Padded(Digits(n)) }

  function Name(generation: nat): string { FOLDER_PREFIX + Numeral(generation) }

  // ----- Numbers and numerals -----

  predicate Numeric(s: string) { forall i :: 0 <= i < |s| ==> '0' <= s[i] <= '9' }

  function Value(s: string): nat
    requires Numeric(s)
  {
    if s == [] then 0 else 10 * Value(s[..|s| - 1]) + (s[|s| - 1] - '0') as nat
  }

  lemma {:induction false} DigitsValue(n: nat)
    ensures Numeric(Digits(n)) && Value(Digits(n)) == n
  {
    if n >= 10 {
      DigitsValue(n / 10);
      assert Digits(n)[..|Digits(n)| - 1] == Digits(n / 10);
    } else {
      assert Digits(n)[..0] == [];
    }
  }

  lemma {:induction false} ZeroInFront(s: string)
    requires Numeric(s)
    ensures Numeric("0" + s) && Value("0" + s) == Value(s)
  {
    var t := "0" + s;
    if s == [] {
      assert t[..0] == [];
    } else {
      ZeroInFront(s[..|s| - 1]);
      assert t[..|t| - 1] == "0" + s[..|s| - 1];
    }
  }

  lemma {:induction false} PaddedValue(s: string)
    requires Numeric(s)
    ensures Numeric(Padded(s)) && Value(Padded(s)) == Value(s)
    decreases 4 - |s|
  {
    if |s| < 4 {
      ZeroInFront(s);
      PaddedValue("0" + s);
    }
  }

  lemma NumeralValue(n: nat)
    ensures Numeric(Numeral(n)) && Value(Numeral(n)) == n
  {
    DigitsValue(n);
    PaddedValue(Digits(n));
  }

  /** Different generations have different folders. */
  lemma NameInjective(m: nat, n: nat)
    requires Name(m) == Name(n)
    ensures m == n
  {
    NumeralValue(m);
    NumeralValue(n);
    assert Name(m)[|FOLDER_PREFIX|..] == Numeral(m) && Name(n)[|FOLDER_PREFIX|..] == Numeral(n);
  }

  function Power(d: nat): nat { if d == 0 then 1 else 10 * Power(d - 1) }

  lemma {:induction false} DigitsLength(n: nat, d: nat)
    requires d >= 1
    ensures |Digits(n)| <= d <==> n < Power(d)
  {
    if d > 1 && n >= 10 { DigitsLength(n / 10, d - 1); }
    if n < 10 { PowerPositive(d - 1); }
  }

  lemma {:induction false} PowerPositive(d: nat)
    ensures Power(d) >= 1
  {
    if d > 0 { PowerPositive(d - 1); }
  }

  lemma FourDigits(n: nat)
    ensures |Numeral(n)| == 4 <==> n < PADDED_GENERATIONS
    ensures n < 10 * PADDED_GENERATIONS ==> |Numeral(n)| <= 5
  {
    DigitsLength(n, 4);
    DigitsLength(n, 5);
    assert Power(2) == 100 && Power(3) == 1000;
  }

  lemma LastDigit(a: string) returns (front: string, d: nat)
    requires a != [] && Numeric(a)
    ensures front == a[..|a| - 1] && Numeric(front) && d < 10 && a == front + [Digit(d)] && Value(a) == 10 * Value(front) + d
  {
    front, d := a[..|a| - 1], (a[|a| - 1] - '0') as nat;
  }

  lemma DigitOrder(d: nat, e: nat)
    requires d < 10 && e < 10
    ensures Before([Digit(d)], [Digit(e)]) <==> d < e
    ensures [Digit(d)] == [Digit(e)] <==> d == e
  {
    assert [Digit(d)][0] == Digit(d) && [Digit(e)][0] == Digit(e);
  }

  /** Among numerals of equal length, name order is numeric order. */
  lemma {:induction false} EqualLengthOrder(a: string, b: string)
    requires Numeric(a) && Numeric(b) && |a| == |b|
    ensures Value(a) < Value(b) <==> Before(a, b)
    ensures Value(a) == Value(b) <==> a == b
    decreases |a|
  {
    hide Before, Value, Numeric, Digit;
    if a == [] {
      NothingBeforeNothing();
      assert a == b;
    } else {
      var x, d := LastDigit(a);
      var y, e := LastDigit(b);
      EqualLengthOrder(x, y);
      DigitOrder(d, e);
      BeforeUnderPrefix(x, [Digit(d)], [Digit(e)]);
      if Before(x, y) {
        DifferenceDecides(x, y, [Digit(d)], [Digit(e)]);
        BeforeAsymmetric(a, b);
      } else if x != y {
        BeforeTotal(x, y);
        DifferenceDecides(y, x, [Digit(e)], [Digit(d)]);
        BeforeAsymmetric(b, a);
      }
    }
  }

  lemma NothingBeforeNothing()
    ensures !Before([], [])
  {
  }

  /** Up to four digits, the order of the folder names is the order of the generations. */
  lemma NameOrderIsNumeric(m: nat, n: nat)
    requires m < PADDED_GENERATIONS && n < PADDED_GENERATIONS
    ensures Before(Name(m), Name(n)) <==> m < n
  {
    NumeralValue(m);
    NumeralValue(n);
    FourDigits(m);
    FourDigits(n);
    EqualLengthOrder(Numeral(m), Numeral(n));
    BeforeUnderPrefix(FOLDER_PREFIX, Numeral(m), Numeral(n));
  }

  lemma {:induction false} LongNumerals(n: nat)
    requires n > PADDED_GENERATIONS
    ensures Before(Numeral(PADDED_GENERATIONS), Numeral(n))
  {
    var first := Numeral(PADDED_GENERATIONS);
    NumeralValue(n);
    NumeralValue(PADDED_GENERATIONS);
    FourDigits(n);
    FourDigits(PADDED_GENERATIONS);
    if n < 10 * PADDED_GENERATIONS {
      EqualLengthOrder(first, Numeral(n));
    } else {
      FourDigits(n / 10);
      assert Numeral(n) == Numeral(n / 10) + [Digit(n % 10)];
      PrefixComesFirst(Numeral(n / 10), [Digit(n % 10)]);
      if n / 10 > PADDED_GENERATIONS {
        LongNumerals(n / 10);
        BeforeTransitive(first, Numeral(n / 10), Numeral(n));
      }
    }
  }

  /** Exactly the generations up to 1000 are listed ahead of generation 10000. */
  lemma AheadOfTenThousand(n: nat)
    ensures Before(Name(n), Name(PADDED_GENERATIONS)) <==> n <= 1000
  {
    var first := Numeral(PADDED_GENERATIONS);
    BeforeUnderPrefix(FOLDER_PREFIX, Numeral(n), first);
    BeforeUnderPrefix(FOLDER_PREFIX, first, Numeral(n));
    if n > PADDED_GENERATIONS {
      LongNumerals(n);
      BeforeAsymmetric(first, Numeral(n));
    } else if n == PADDED_GENERATIONS {
      if Before(first, first) { BeforeAsymmetric(first, first); }
    } else {
      NumeralValue(n);
      NumeralValue(1000);
      FourDigits(n);
      FourDigits(1000);
      var thousand := Numeral(1000);
      assert first == thousand + "0" by { TenThousandExtends(); }
      EqualLengthOrder(Numeral(n), thousand);
      EqualLengthOrder(thousand, Numeral(n));
      assert Numeral(n) + "" == Numeral(n);
      if n < 1000 {
        DifferenceDecides(Numeral(n), thousand, "", "0");
      } else if n == 1000 {
        PrefixComesFirst(thousand, "0");
      } else {
        DifferenceDecides(thousand, Numeral(n), "0", "");
        BeforeAsymmetric(first, Numeral(n));
      }
    }
  }

  lemma TenThousandExtends()
    ensures Numeral(PADDED_GENERATIONS) == Numeral(1000) + "0"
  {
    FourDigits(1000);
    assert Digits(10000) == Digits(1000) + [Digit(0)];
    assert |Digits(1000)| == 4;
  }

  // ----- Listing folders by name -----

  ghost predicate Listed(s: seq<nat>) {
    forall i, j :: 0 <= i < j < |s| ==> Before(Name(s[i]), Name(s[j]))
  }

  lemma ListedDistinct(s: seq<nat>)
    requires Listed(s)
    ensures Distinct(s)
  {
    forall i, j | 0 <= i < j < |s| ensures s[i] != s[j] { BeforeAsymmetric(Name(s[i]), Name(s[j])); }
  }

  predicate IsFirst(todo: set<nat>, k: nat) {
    forall j :: j in todo && j != k ==> Before(Name(k), Name(j))
  }

  /** Of any nonempty set of folders, one has the first name. */
  lemma {:induction false} FirstName(todo: set<nat>) returns (k: nat)
    requires todo != {}
    ensures k in todo && IsFirst(todo, k)
    decreases |todo|
  {
    var any :| any in todo;
    if todo == {any} {
      k := any;
    } else {
      var rest := todo - {any};
      assert todo == rest + {any};
      var best := FirstName(rest);
      BeforeTotal(Name(any), Name(best));
      if Name(any) == Name(best) { NameInjective(any, best); }
      k := if Before(Name(any), Name(best)) then any else best;
      forall j | j in todo && j != k ensures Before(Name(k), Name(j)) {
        if k == any && j != best { BeforeTransitive(Name(any), Name(best), Name(j)); }
      }
    }
  }

  ghost predicate AllAhead(s: seq<nat>, todo: set<nat>) {
    forall i, j :: 0 <= i < |s| && j in todo ==> Before(Name(s[i]), Name(j))
  }

  lemma NothingListed(todo: set<nat>)
    ensures Listed([]) && AllAhead([], todo)
  {
  }

  lemma ListedAppend(s: seq<nat>, todo: set<nat>, k: nat)
    requires Listed(s) && AllAhead(s, todo) && k in todo && IsFirst(todo, k)
    ensures Listed(s + [k]) && AllAhead(s + [k], todo - {k})
  {
    hide Before, Name;
  }

  /** The folders in the order of their names. */
  method SortedByName(folders: set<nat>) returns (s: seq<nat>)
    ensures (forall k :: k in s <==> k in folders) && Listed(s) && |s| == |folders|
  {
    hide Listed, AllAhead;
    NothingListed(folders);
    s := [];
    var todo := folders;
    while todo != {}
      invariant todo <= folders && (forall k :: k in s <==> k in folders - todo) && |s| + |todo| == |folders|
      invariant Listed(s) && AllAhead(s, todo)
      decreases |todo|
    {
      ghost var first := FirstName(todo);
      var k :| k in todo && IsFirst(todo, k);
      ListedAppend(s, todo, k);
      s, todo := s + [k], todo - {k};
    }
  }

  // ----- What the listing of the first n generations looks like -----

  /** Generations below 10000 are listed in numeric order, so the last one listed is the newest. */
  lemma ListedNumerically(s: seq<nat>, n: nat)
    requires Listed(s) && |s| == n <= PADDED_GENERATIONS && forall k: nat :: k in s <==> k < n
    ensures forall i :: 0 <= i < n ==> s[i] == i
  {
    forall i, j | 0 <= i < j < n ensures s[i] < s[j] {
      assert s[i] in s && s[j] in s;
      NameOrderIsNumeric(s[i], s[j]);
    }
    forall i | 0 <= i < n ensures s[i] < n { assert s[i] in s; }
    Ascending(s, n);
  }

  lemma {:induction false} Ascending(s: seq<nat>, n: nat)
    requires |s| == n && (forall i, j :: 0 <= i < j < n ==> s[i] < s[j]) && forall i :: 0 <= i < n ==> s[i] < n
    ensures forall i :: 0 <= i < n ==> s[i] == i
  {
    if n > 0 {
      var front := s[..n - 1];
      forall i | 0 <= i < n - 1 ensures front[i] < n - 1 { assert s[i] < s[n - 1]; }
      Ascending(front, n - 1);
      forall i | 0 <= i < n - 1 ensures s[i] == i { assert front[i] == i; }
      if n > 1 { assert s[n - 2] < s[n - 1]; }
    }
  }

  /** Once there are more, generation 10000 is listed at position 1001. */
  lemma TenThousandIsMisplaced(s: seq<nat>, n: nat)
    requires Listed(s) && |s| == n > PADDED_GENERATIONS && forall k: nat :: k in s <==> k < n
    ensures s[1001] == PADDED_GENERATIONS
  {
    assert PADDED_GENERATIONS in s;
    var p :| 0 <= p < |s| && s[p] == PADDED_GENERATIONS;
    var front := s[..p];
    forall k | k in front ensures k <= 1000 {
      var i :| 0 <= i < p && s[i] == k;
      AheadOfTenThousand(k);
    }
    forall k: nat | k <= 1000 ensures k in front {
      assert k in s;
      var i :| 0 <= i < |s| && s[i] == k;
      AheadOfTenThousand(k);
      if i > p { BeforeAsymmetric(Name(s[p]), Name(s[i])); }
    }
    ListedDistinct(front);
    DistinctCardinality(front);
    FirstThousand(Elements(front), 1001);
  }

  lemma {:induction false} FirstThousand(a: set<nat>, m: nat)
    requires forall k: nat :: k in a <==> k < m
    ensures |a| == m
  {
    if m > 0 {
      FirstThousand(a - {m - 1}, m - 1);
    } else {
      assert a == {};
    }
  }

  /** Ten thousand and one checkpoints: the newest is listed ahead of generation 1001. */
  lemma FifthDigitBreaksTheOrder()
    ensures Name(1001) == "generation_1001" && Name(10000) == "generation_10000" && Before(Name(10000), Name(1001))
  {
    hide Before, Numeral;
    SmallNumerals();
    assert FOLDER_PREFIX + "1001" == "generation_1001" && FOLDER_PREFIX + "10000" == "generation_10000";
    AheadOfTenThousand(1001);
    BeforeTotal(Name(10000), Name(1001));
  }

  lemma SmallNumerals()
    ensures Numeral(1001) == "1001" && Numeral(10000) == "10000"
  {
    assert Digits(1) == "1" && Digits(10) == Digits(1) + "0" && Digits(100) == Digits(10) + "0";
    assert Digits(1000) == Digits(100) + "0" && Digits(1001) == Digits(100) + "1" && Digits(10000) == Digits(1000) + "0";
  }
}
