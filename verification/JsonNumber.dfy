/** Numbers of the emitted-JSON scanner (section 6 of RFC 8259). */
module JsonNumber {
  import opened Wrappers
  import opened JsonText

  predicate Digit(c: char) { '0' <= c <= '9' }

  predicate AllDigits(s: Text) { forall i :: 0 <= i < |s| ==> Digit(s[i]) }

  /** Decimals at or above 2^1024 - 2^970 in magnitude round to an infinite double. */
  const FLOAT_LIMIT: int :=
    0xFFFFFFFFFFFFFC00000000000000000000000000000000000000000000000000000000000000000000000000000000000000000000000000000000000000000000000000000000000000000000000000000000000000000000000000000000000000000000000000000000000000000000000000000000000000000000000000

  // ----- The scanner: longest match, optional parts backed out when incomplete -----

  function DigitsEnd(t: Text, pos: nat): (end: nat)
    requires pos <= |t|
    ensures pos <= end <= |t|
    decreases |t| - pos
  {
    if pos < |t| && Digit(t[pos]) then DigitsEnd(t, pos + 1) else pos
  }

  function FractionEnd(t: Text, pos: nat): (end: nat)
    requires pos <= |t|
    ensures pos <= end <= |t|
  {
    if pos + 1 < |t| && t[pos] == '.' && Digit(t[pos + 1]) then DigitsEnd(t, pos + 2) else pos
  }

  function ExponentEnd(t: Text, pos: nat): (end: nat)
    requires pos <= |t|
    ensures pos <= end <= |t|
  {
    if pos < |t| && (t[pos] == 'e' || t[pos] == 'E') then
      var digits := if pos + 1 < |t| && (t[pos + 1] == '+' || t[pos + 1] == '-') then pos + 2 else pos + 1;
      if digits < |t| && Digit(t[digits]) then DigitsEnd(t, digits + 1) else pos
    else pos
  }

  function ScanNumber(t: Text, pos: nat): Option<Scanned<Number>>
    requires pos <= |t|
  {
    var start := if pos < |t| && t[pos] == '-' then pos + 1 else pos;
    if start >= |t| || !Digit(t[start]) then None
    else
      var whole := if t[start] == '0' then start + 1 else DigitsEnd(t, start + 1);
      var fraction := FractionEnd(t, whole);
      var end := ExponentEnd(t, fraction);
      Some(Scanned(Number(start > pos, t[start..whole], t[whole..fraction], t[fraction..end]), end))
  }

  // ----- The grammar -----

  /** A number lexeme; `fraction` and `exponent` are empty or carry their own marker. */
  datatype Number = Number(negative: bool, whole: Text, fraction: Text, exponent: Text)

  predicate ValidNumber(n: Number) {
    && AllDigits(n.whole) && n.whole != [] && (n.whole[0] == '0' ==> |n.whole| == 1)
    && (n.fraction != [] ==> n.fraction[0] == '.' && |n.fraction| > 1 && AllDigits(n.fraction[1..]))
    && (n.exponent != [] ==>
          && (n.exponent[0] == 'e' || n.exponent[0] == 'E')
          && |n.exponent| > ExponentMark(n.exponent) && AllDigits(n.exponent[ExponentMark(n.exponent)..]))
  }

  function ExponentMark(s: Text): nat {
    if |s| > 1 && (s[1] == '+' || s[1] == '-') then 2 else 1
  }

  function RenderNumber(n: Number): Text {
    (if n.negative then "-" else []) + n.whole + n.fraction + n.exponent
  }

  function DigitsValue(s: Text): nat
    requires AllDigits(s)
  {
    if s == [] then 0 else 10 * DigitsValue(s[..|s| - 1]) + (s[|s| - 1] as int - '0' as int)
  }

  function Pow10(n: int): real
    decreases if n < 0 then -n else n
  {
    if n == 0 then 1.0 else if n > 0 then 10.0 * Pow10(n - 1) else Pow10(n + 1) / 10.0
  }

  datatype NumberValue = Integer(n: int) | Decimal(x: real)

  /** Integers keep their type; a fraction or exponent makes a float, here its exact decimal value. */
  function ValueOf(n: Number): NumberValue
    requires ValidNumber(n)
  {
    var sign := if n.negative then -1 else 1;
    if n.fraction == [] && n.exponent == [] then Integer(sign * DigitsValue(n.whole))
    else
      var places := if n.fraction == [] then [] else n.fraction[1..];
      var mark := ExponentMark(n.exponent);
      var power := if n.exponent == [] then 0 else DigitsValue(n.exponent[mark..]);
      var shift := (if mark == 2 && n.exponent[1] == '-' then -power else power) - |places|;
      Decimal((sign * DigitsValue(n.whole + places)) as real * Pow10(shift))
  }

  predicate Finite(v: NumberValue) {
    v.Integer? || (-(FLOAT_LIMIT as real) < v.x < FLOAT_LIMIT as real)
  }

  // ----- What a number denotes, said in the text's own digits -----

  /** `s` are the decimal digits of `n`, by repeated division by 10. */
  predicate SpellsDecimal(s: Text, n: nat) {
    && s != [] && s[|s| - 1] == "0123456789"[n % 10]
    && if |s| == 1 then n / 10 == 0 else SpellsDecimal(s[..|s| - 1], n / 10)
  }

  lemma DigitSpells(c: char, d: nat)
    requires d < 10
    ensures c == "0123456789"[d] <==> Digit(c) && c as int - '0' as int == d
  {
  }

  /** Characters are digits, with that value, exactly when they spell it. */
  lemma {:induction false} DigitsSpell(s: Text, n: nat)
    requires s != []
    ensures SpellsDecimal(s, n) <==> AllDigits(s) && DigitsValue(s) == n
  {
    var front, last := s[..|s| - 1], s[|s| - 1];
    DigitSpells(last, n % 10);
    assert s == front + [last];
    assert AllDigits(s) <==> AllDigits(front) && Digit(last);
    if front != [] {
      DigitsSpell(front, n / 10);
      if AllDigits(s) && DigitsValue(s) == n { assert n == 10 * DigitsValue(front) + (last as int - '0' as int); }
    }
  }

  /** Ten, `k` times. */
  function Tenfold(k: nat): nat { if k == 0 then 1 else Tenfold(k - 1) * 10 }

  lemma {:induction false} PowersAreTenfold(k: nat)
    ensures Pow10(k) == Tenfold(k) as real
    ensures Pow10(0 - k) * Tenfold(k) as real == 1.0
  {
    if k > 0 {
      PowersAreTenfold(k - 1);
      var p, q := Pow10(1 - k), Tenfold(k - 1) as real;
      assert Pow10(0 - k) == p / 10.0 && Tenfold(k) as real == q * 10.0;
      assert (p / 10.0) * (q * 10.0) == p * q;
    }
  }

  /** The digits behind the decimal point. */
  function Places(n: Number): Text { if n.fraction == [] then [] else n.fraction[1..] }

  /** The digits of the exponent, behind its mark and its sign. */
  function PowerDigits(n: Number): Text
    requires ValidNumber(n) && n.exponent != []
  {
    if n.exponent[1] in {'+', '-'} then n.exponent[2..] else n.exponent[1..]
  }

  predicate ShrinkingPower(n: Number)
    requires ValidNumber(n)
  {
    n.exponent != [] && n.exponent[1] == '-'
  }

  function Signed(n: Number, m: nat): int { if n.negative then 0 - m else m }

  /** A lexeme without fraction and exponent is the integer its digits spell. Any other is the decimal whose digits, point
      removed, spell `m`, moved by as many places as stand behind the point and by the `e` its exponent spells. */
  lemma NumberMeans(n: Number) returns (m: nat, e: nat)
    requires ValidNumber(n)
    ensures SpellsDecimal(n.whole + Places(n), m) && (if n.exponent == [] then e == 0 else SpellsDecimal(PowerDigits(n), e))
    ensures n.fraction == [] && n.exponent == [] ==> ValueOf(n) == Integer(Signed(n, m))
    ensures n.fraction != [] || n.exponent != [] ==>
      && ValueOf(n).Decimal?
      && (ShrinkingPower(n) ==> ValueOf(n).x * Tenfold(|Places(n)| + e) as real == Signed(n, m) as real)
      && (!ShrinkingPower(n) ==> ValueOf(n).x * Tenfold(|Places(n)|) as real == Signed(n, m) as real * Tenfold(e) as real)
  {
    hide SpellsDecimal, DigitsValue, Pow10, Tenfold;
    m := DigitsValue(n.whole + Places(n));
    DigitsSpell(n.whole + Places(n), m);
    e := 0;
    if n.exponent != [] {
      e := DigitsValue(PowerDigits(n));
      DigitsSpell(PowerDigits(n), e);
    }
    assert n.whole + [] == n.whole;
    if ShrinkingPower(n) {
      Scaled(Signed(n, m), |Places(n)| + e, 0);
    } else {
      Scaled(Signed(n, m), |Places(n)|, e);
    }
  }

  lemma Scaled(m: int, down: nat, up: nat)
    ensures m as real * Pow10(up - down) * Tenfold(down) as real == m as real * Tenfold(up) as real
    ensures Tenfold(0) == 1
  {
    ShiftBack(down, up);
    Regroup(m as real, Pow10(up - down), Tenfold(down) as real);
  }

  lemma Regroup(a: real, b: real, c: real)
    ensures a * b * c == a * (b * c)
  {
  }

  lemma {:induction false} ShiftBack(down: nat, up: nat)
    ensures Pow10(up - down) * Tenfold(down) as real == Tenfold(up) as real
    decreases up
  {
    if up == 0 {
      PowersAreTenfold(down);
    } else if down == 0 {
      PowersAreTenfold(up);
    } else {
      ShiftBack(down - 1, up - 1);
      var p, d, u := Pow10(up - down), Tenfold(down - 1) as real, Tenfold(up - 1) as real;
      assert Tenfold(down) as real == d * 10.0 && Tenfold(up) as real == u * 10.0;
      assert p * (d * 10.0) == (p * d) * 10.0;
    }
  }

  // ----- The largest decimal that is still a finite double -----

  function TwoTo(k: nat): nat { if k == 0 then 1 else 2 * TwoTo(k - 1) }

  lemma {:induction false} TwoToSum(a: nat, b: nat)
    ensures TwoTo(a + b) == TwoTo(a) * TwoTo(b)
  {
    if a > 0 { TwoToSum(a - 1, b); }
  }

  /** Half a unit in the last place beyond the largest double: 53 bits of mantissa, exponents up to 1023. */
  lemma {:induction false} LimitOfDoubles()
    ensures FLOAT_LIMIT == TwoTo(1024) - TwoTo(970)
  {
    hide TwoTo;
    SmallPowers();
    TwoToSum(8, 8);
    TwoToSum(16, 16);
    TwoToSum(32, 32);
    TwoToSum(64, 64);
    TwoToSum(128, 128);
    TwoToSum(256, 256);
    TwoToSum(512, 512);
    TwoToSum(512, 256);
    TwoToSum(768, 128);
    TwoToSum(896, 64);
    TwoToSum(960, 8);
    TwoToSum(968, 2);
  }

  /** Which numbers are accepted: every integer, and every decimal whose nearest double is finite. */
  lemma AcceptedNumbers(v: NumberValue)
    ensures Finite(v) <==>
      v.Integer? || (v.x < (TwoTo(1024) - TwoTo(970)) as real && -v.x < (TwoTo(1024) - TwoTo(970)) as real)
  {
    hide TwoTo;
    LimitOfDoubles();
  }

  lemma SmallPowers()
    ensures TwoTo(2) == 4 && TwoTo(8) == 256
  {
    assert TwoTo(4) == 16;
    assert TwoTo(6) == 64;
  }

  /** The character behind a number, if any, that cannot continue it. */
  predicate Delimited(t: Text, pos: nat) {
    pos < |t| ==> !Digit(t[pos]) && t[pos] != '.' && t[pos] != 'e' && t[pos] != 'E'
  }

  lemma {:induction false} DigitsEndSound(t: Text, pos: nat)
    requires pos <= |t|
    ensures AllDigits(t[pos..DigitsEnd(t, pos)])
    decreases |t| - pos
  {
    if pos < |t| && Digit(t[pos]) {
      DigitsEndSound(t, pos + 1);
      assert t[pos..DigitsEnd(t, pos)] == [t[pos]] + t[pos + 1..DigitsEnd(t, pos)];
    }
  }

  lemma {:induction false} DigitsEndExact(t: Text, pos: nat, end: nat)
    requires pos <= end <= |t| && AllDigits(t[pos..end]) && (end < |t| ==> !Digit(t[end]))
    ensures DigitsEnd(t, pos) == end
    decreases end - pos
  {
    if pos < end {
      assert t[pos] == t[pos..end][0];
      assert t[pos + 1..end] == t[pos..end][1..];
      DigitsEndExact(t, pos + 1, end);
    }
  }

  lemma FractionSound(t: Text, pos: nat)
    requires pos <= |t|
    ensures var s := t[pos..FractionEnd(t, pos)];
      s != [] ==> s[0] == '.' && |s| > 1 && AllDigits(s[1..])
  {
    var end := FractionEnd(t, pos);
    if end > pos {
      DigitsEndSound(t, pos + 2);
      assert t[pos..end][1..] == [t[pos + 1]] + t[pos + 2..end];
    }
  }

  lemma ExponentSound(t: Text, pos: nat)
    requires pos <= |t|
    ensures var s := t[pos..ExponentEnd(t, pos)];
      s != [] ==> (s[0] == 'e' || s[0] == 'E') && |s| > ExponentMark(s) && AllDigits(s[ExponentMark(s)..])
  {
    var end := ExponentEnd(t, pos);
    if end > pos {
      var digits := if pos + 1 < |t| && (t[pos + 1] == '+' || t[pos + 1] == '-') then pos + 2 else pos + 1;
      DigitsEndSound(t, digits + 1);
      var s := t[pos..end];
      assert ExponentMark(s) == digits - pos;
      assert s[digits - pos..] == [t[digits]] + t[digits + 1..end];
    }
  }

  lemma WholeSound(t: Text, start: nat)
    requires start < |t| && Digit(t[start])
    ensures var s := t[start..if t[start] == '0' then start + 1 else DigitsEnd(t, start + 1)];
      AllDigits(s) && s != [] && (s[0] == '0' ==> |s| == 1)
  {
    DigitsEndSound(t, start + 1);
    var whole := DigitsEnd(t, start + 1);
    assert t[start..whole] == [t[start]] + t[start + 1..whole];
  }

  lemma Assemble(t: Text, pos: nat, start: nat, whole: nat, fraction: nat, end: nat, n: Number)
    requires pos <= start <= whole <= fraction <= end <= |t|
    requires if n.negative then start == pos + 1 && t[pos] == '-' else start == pos
    requires n.whole == t[start..whole] && n.fraction == t[whole..fraction] && n.exponent == t[fraction..end]
    ensures At(t, pos, RenderNumber(n)) && end == pos + |RenderNumber(n)|
  {
    assert t[pos..start] == if n.negative then "-" else [];
    assert t[pos..end] == t[pos..start] + t[start..whole] + t[whole..fraction] + t[fraction..end];
  }

  /** What the scanner accepts is a number lexeme at that place. */
  lemma NumberSound(t: Text, pos: nat)
    requires pos <= |t| && ScanNumber(t, pos).Some?
    ensures var r := ScanNumber(t, pos).value;
      && ValidNumber(r.value) && At(t, pos, RenderNumber(r.value)) && r.end == pos + |RenderNumber(r.value)| > pos
  {
    hide DigitsEnd, FractionEnd, ExponentEnd, At, RenderNumber, AllDigits, ExponentMark;
    var r := ScanNumber(t, pos).value;
    var start := if t[pos] == '-' then pos + 1 else pos;
    var whole := if t[start] == '0' then start + 1 else DigitsEnd(t, start + 1);
    WholeSound(t, start);
    FractionSound(t, whole);
    ExponentSound(t, FractionEnd(t, whole));
    Assemble(t, pos, start, whole, FractionEnd(t, whole), r.end, r.value);
  }

  /** The parts of a number lexeme, in the text. */
  lemma NumberParts(t: Text, pos: nat, n: Number) returns (start: nat, whole: nat, fraction: nat, end: nat)
    requires At(t, pos, RenderNumber(n))
    ensures start == pos + (if n.negative then 1 else 0) && whole == start + |n.whole|
    ensures fraction == whole + |n.fraction| && end == fraction + |n.exponent| == pos + |RenderNumber(n)| <= |t|
    ensures n.negative ==> t[pos] == '-'
    ensures t[start..whole] == n.whole && t[whole..fraction] == n.fraction && t[fraction..end] == n.exponent
  {
    var sign := if n.negative then "-" else [];
    AtSplit(t, pos, sign + n.whole + n.fraction, n.exponent);
    AtSplit(t, pos, sign + n.whole, n.fraction);
    AtSplit(t, pos, sign, n.whole);
    start, whole := pos + |sign|, pos + |sign| + |n.whole|;
    fraction, end := whole + |n.fraction|, whole + |n.fraction| + |n.exponent|;
    if n.negative { AtChar(t, pos, '-'); }
  }

  /** Every delimited number lexeme is scanned back whole. */
  lemma NumberComplete(t: Text, pos: nat, n: Number)
    requires ValidNumber(n) && At(t, pos, RenderNumber(n)) && Delimited(t, pos + |RenderNumber(n)|)
    ensures ScanNumber(t, pos) == Some(Scanned(n, pos + |RenderNumber(n)|))
  {
    hide At, RenderNumber, DigitsEnd, FractionEnd, ExponentEnd, ExponentMark;
    var start, whole, fraction, end := NumberParts(t, pos, n);
    assert t[start] == n.whole[0] && Digit(n.whole[0]);
    if n.fraction != [] { assert t[whole] == n.fraction[0]; }
    if n.exponent != [] { assert t[fraction] == n.exponent[0]; }
    WholeExact(t, start, whole);
    FractionExact(t, whole, fraction);
    ExponentExact(t, fraction, end);
  }

  lemma WholeExact(t: Text, start: nat, whole: nat)
    requires start < whole <= |t| && AllDigits(t[start..whole]) && (t[start] == '0' ==> whole == start + 1)
    requires whole < |t| ==> !Digit(t[whole])
    ensures whole == if t[start] == '0' then start + 1 else DigitsEnd(t, start + 1)
  {
    assert t[start + 1..whole] == t[start..whole][1..];
    DigitsEndExact(t, start + 1, whole);
  }

  lemma FractionExact(t: Text, whole: nat, fraction: nat)
    requires whole <= fraction <= |t| && (fraction < |t| ==> !Digit(t[fraction]) && t[fraction] != '.')
    requires whole < fraction ==> t[whole] == '.' && fraction > whole + 1 && AllDigits(t[whole..fraction][1..])
    ensures FractionEnd(t, whole) == fraction
  {
    if whole < fraction {
      assert t[whole..fraction][1..] == [t[whole + 1]] + t[whole + 2..fraction];
      assert Digit(t[whole..fraction][1..][0]);
      assert AllDigits(t[whole + 2..fraction]) by {
        var places := t[whole + 2..fraction];
        forall i | 0 <= i < |places| ensures Digit(places[i]) { assert places[i] == t[whole..fraction][1..][i + 1]; }
      }
      DigitsEndExact(t, whole + 2, fraction);
    }
  }

  lemma ExponentExact(t: Text, pos: nat, end: nat)
    requires pos <= end <= |t| && Delimited(t, end)
    requires var s := t[pos..end];
      s != [] ==> (s[0] == 'e' || s[0] == 'E') && |s| > ExponentMark(s) && AllDigits(s[ExponentMark(s)..])
    ensures ExponentEnd(t, pos) == end
  {
    if pos < end {
      var s := t[pos..end];
      var mark := ExponentMark(s);
      assert t[pos] == s[0] && t[pos + mark] == s[mark] == s[mark..][0];
      assert pos + 1 < end && t[pos + 1] == s[1];
      assert AllDigits(t[pos + mark + 1..end]) by {
        var power := t[pos + mark + 1..end];
        forall i | 0 <= i < |power| ensures Digit(power[i]) { assert power[i] == s[mark..][i + 1]; }
      }
      DigitsEndExact(t, pos + mark + 1, end);
    }
  }
}
