/** Lexical level of the emitted-JSON scanner: whitespace, string bodies and numbers, each as the scanner reads it and
    as a grammar of lexemes. Character positions index the decoded text. */
module JsonText {
  import opened Wrappers

  type Text = string

  /** `s` stands in `t` at position `pos`. */
  ghost predicate At(t: Text, pos: nat, s: Text) {
    pos + |s| <= |t| && t[pos..pos + |s|] == s
  }

  lemma AtSplit(t: Text, pos: nat, a: Text, b: Text)
    ensures At(t, pos, a + b) <==> At(t, pos, a) && At(t, pos + |a|, b)
  {
    if At(t, pos, a + b) {
      assert t[pos..pos + |a|] == (a + b)[..|a|] == a;
      assert t[pos + |a|..pos + |a| + |b|] == (a + b)[|a|..] == b;
    }
    if At(t, pos, a) && At(t, pos + |a|, b) {
      assert t[pos..pos + |a + b|] == t[pos..pos + |a|] + t[pos + |a|..pos + |a| + |b|];
    }
  }

  lemma AtChar(t: Text, pos: nat, c: char)
    ensures At(t, pos, [c]) <==> pos < |t| && t[pos] == c
  {
    if pos < |t| { assert t[pos..pos + 1] == [t[pos]]; }
  }

  lemma AtCons(t: Text, pos: nat, c: char, s: Text)
    ensures At(t, pos, [c] + s) <==> pos < |t| && t[pos] == c && At(t, pos + 1, s)
  {
    AtSplit(t, pos, [c], s);
    AtChar(t, pos, c);
  }

  // ----- Whitespace: Python's str.isspace, a superset of section 2 of RFC 8259 -----

  predicate Space(c: char) {
    var n := c as int;
    9 <= n <= 13 || 28 <= n <= 32 || n == 0x85 || n == 0xA0 || n == 0x1680 || 0x2000 <= n <= 0x200A
    || n == 0x2028 || n == 0x2029 || n == 0x202F || n == 0x205F || n == 0x3000
  }

  predicate RfcSpace(c: char) { c == ' ' || c == '\t' || c == '\n' || c == '\r' }

  predicate AllSpace(s: Text) { forall i :: 0 <= i < |s| ==> Space(s[i]) }

  function SkipSpace(t: Text, pos: nat): (end: nat)
    requires pos <= |t|
    ensures pos <= end <= |t| && AllSpace(t[pos..end]) && (end < |t| ==> !Space(t[end]))
    decreases |t| - pos
  {
    if pos < |t| && Space(t[pos]) then SkipSpace(t, pos + 1) else pos
  }

  /** Skipping stops exactly behind the blanks. */
  lemma {:induction false} SkipExactly(t: Text, pos: nat, ws: Text)
    requires At(t, pos, ws) && AllSpace(ws)
    requires pos + |ws| < |t| ==> !Space(t[pos + |ws|])
    ensures SkipSpace(t, pos) == pos + |ws|
    decreases |ws|
  {
    if ws != [] {
      assert ws == [ws[0]] + ws[1..];
      AtCons(t, pos, ws[0], ws[1..]);
      SkipExactly(t, pos + 1, ws[1..]);
    }
  }

  // ----- Strings -----

  datatype Scanned<T> = Scanned(value: T, end: nat)

  predicate IsHex(c: char) { '0' <= c <= '9' || 'a' <= c <= 'f' || 'A' <= c <= 'F' }

  function HexDigit(c: char): nat
    requires IsHex(c)
  {
    if c <= '9' then c as int - '0' as int
    else if c >= 'a' then c as int - 'a' as int + 10
    else c as int - 'A' as int + 10
  }

  predicate IsHex4(s: Text) { |s| == 4 && forall i :: 0 <= i < 4 ==> IsHex(s[i]) }

  function Hex4(s: Text): nat
    requires IsHex4(s)
  {
    ((HexDigit(s[0]) * 16 + HexDigit(s[1])) * 16 + HexDigit(s[2])) * 16 + HexDigit(s[3])
  }

  predicate IsHigh(n: nat) { 0xD800 <= n < 0xDC00 }
  predicate IsLow(n: nat) { 0xDC00 <= n < 0xE000 }

  function Join(high: nat, low: nat): nat
    requires IsHigh(high) && IsLow(low)
  {
    0x10000 + (high - 0xD800) * 0x400 + (low - 0xDC00)
  }

  /** The one-letter escapes. */
  function SimpleEscape(c: char): Option<nat> {
    if c == '"' || c == '\\' || c == '/' then Some(c as int)
    else if c == 'b' then Some(8)
    else if c == 'f' then Some(12)
    else if c == 'n' then Some(10)
    else if c == 'r' then Some(13)
    else if c == 't' then Some(9)
    else None
  }

  /** A `\uXXXX` escape at `pos`, which is the position of its backslash. */
  predicate UnitAt(t: Text, pos: nat) {
    pos + 6 <= |t| && t[pos] == '\\' && t[pos + 1] == 'u' && IsHex4(t[pos + 2..pos + 6])
  }

  /** The strict string scanner of Python's json module. `pos` is behind the opening quote, the end behind the closing
      one. Values are code points, so that a lone surrogate escape has one. */
  function ScanString(t: Text, pos: nat): (r: Option<Scanned<seq<nat>>>)
    ensures r.Some? ==> pos < r.value.end <= |t|
    decreases |t| - pos
  {
    if pos >= |t| then None
    else if t[pos] == '"' then Some(Scanned([], pos + 1))
    else if t[pos] == '\\' then
      if pos + 1 >= |t| then None
      else if t[pos + 1] == 'u' then
        if !UnitAt(t, pos) then None
        else
          var first := Hex4(t[pos + 2..pos + 6]);
          if IsHigh(first) && UnitAt(t, pos + 6) && IsLow(Hex4(t[pos + 8..pos + 12])) then
            Push(Join(first, Hex4(t[pos + 8..pos + 12])), ScanString(t, pos + 12))
          else Push(first, ScanString(t, pos + 6))
      else if SimpleEscape(t[pos + 1]).None? then None
      else Push(SimpleEscape(t[pos + 1]).value, ScanString(t, pos + 2))
    else if t[pos] < ' ' then None
    else Push(t[pos] as int, ScanString(t, pos + 1))
  }

  function Push(c: nat, rest: Option<Scanned<seq<nat>>>): Option<Scanned<seq<nat>>> {
    if rest.None? then None else Some(Scanned([c] + rest.value.value, rest.value.end))
  }

  // ----- What each escape denotes: section 7 of RFC 8259, with code points written out -----

  /** Scanning from `pos` gives code point `c` in front of what is scanned behind position `next`. */
  predicate Reads(t: Text, pos: nat, c: nat, next: nat) {
    ScanString(t, pos)
    == match ScanString(t, next)
       case None => None
       case Some(rest) => Some(Scanned([c] + rest.value, rest.end))
  }

  /** The closing quote ends a string; any other character from the space upwards stands for itself; control characters,
      and the end of the text, are refused. */
  lemma PlainCharacters(t: Text, pos: nat)
    ensures pos >= |t| ==> ScanString(t, pos).None?
    ensures pos < |t| && t[pos] as int == 0x22 ==> ScanString(t, pos) == Some(Scanned([], pos + 1))
    ensures pos < |t| && t[pos] as int < 0x20 ==> ScanString(t, pos).None?
    ensures pos < |t| && t[pos] as int >= 0x20 && t[pos] as int != 0x22 && t[pos] as int != 0x5C ==>
      Reads(t, pos, t[pos] as int, pos + 1)
  {
  }

  /** The eight one-letter escapes; no other letter but `u` may follow a backslash. */
  lemma OneLetterEscapes(t: Text, pos: nat)
    requires pos + 1 < |t| && t[pos] == '\\'
    ensures t[pos + 1] == '"' ==> Reads(t, pos, 0x22, pos + 2)
    ensures t[pos + 1] == '\\' ==> Reads(t, pos, 0x5C, pos + 2)
    ensures t[pos + 1] == '/' ==> Reads(t, pos, 0x2F, pos + 2)
    ensures t[pos + 1] == 'b' ==> Reads(t, pos, 0x08, pos + 2)
    ensures t[pos + 1] == 'f' ==> Reads(t, pos, 0x0C, pos + 2)
    ensures t[pos + 1] == 'n' ==> Reads(t, pos, 0x0A, pos + 2)
    ensures t[pos + 1] == 'r' ==> Reads(t, pos, 0x0D, pos + 2)
    ensures t[pos + 1] == 't' ==> Reads(t, pos, 0x09, pos + 2)
    ensures t[pos + 1] !in {'"', '\\', '/', 'b', 'f', 'n', 'r', 't', 'u'} ==> ScanString(t, pos).None?
  {
  }

  /** The digit of value `d`, in lower or upper case. */
  predicate DigitFor(c: char, d: nat) {
    d < 16 && (c == "0123456789abcdef"[d] || c == "0123456789ABCDEF"[d])
  }

  /** Four hexadecimal digits of `n`, by repeated division by 16. */
  predicate Spells(s: Text, n: nat) {
    && |s| == 4 && n / 16 / 16 / 16 < 16
    && DigitFor(s[3], n % 16) && DigitFor(s[2], n / 16 % 16) && DigitFor(s[1], n / 16 / 16 % 16)
    && DigitFor(s[0], n / 16 / 16 / 16)
  }

  lemma DigitHasValue(c: char, d: nat)
    ensures DigitFor(c, d) <==> IsHex(c) && HexDigit(c) == d
  {
  }

  /** Four base-16 digits determine their number, and the number determines them. */
  lemma Base16(n: nat, a: nat, b: nat, c: nat, d: nat)
    requires a < 16 && b < 16 && c < 16 && d < 16
    ensures n == ((a * 16 + b) * 16 + c) * 16 + d <==>
      a == n / 16 / 16 / 16 && b == n / 16 / 16 % 16 && c == n / 16 % 16 && d == n % 16
  {
    if n == ((a * 16 + b) * 16 + c) * 16 + d {
      assert n / 16 == (a * 16 + b) * 16 + c;
      assert n / 16 / 16 == a * 16 + b;
    }
  }

  /** Four characters are read as `n` exactly when they spell `n`. */
  lemma SpelledIsRead(s: Text, n: nat)
    ensures Spells(s, n) <==> IsHex4(s) && Hex4(s) == n
  {
    hide HexDigit, DigitFor, IsHex;
    if |s| == 4 {
      DigitHasValue(s[0], n / 16 / 16 / 16);
      DigitHasValue(s[1], n / 16 / 16 % 16);
      DigitHasValue(s[2], n / 16 % 16);
      DigitHasValue(s[3], n % 16);
      if IsHex4(s) {
        forall i | 0 <= i < 4 ensures HexDigit(s[i]) < 16 { DigitRange(s[i]); }
        Base16(n, HexDigit(s[0]), HexDigit(s[1]), HexDigit(s[2]), HexDigit(s[3]));
      }
    }
  }

  lemma DigitRange(c: char)
    requires IsHex(c)
    ensures HexDigit(c) < 16
  {
  }

  /** A `\u` escape outside the surrogate pairs scans to the number its digits spell. */
  lemma UnitEscape(t: Text, pos: nat, n: nat)
    requires pos + 6 <= |t| && t[pos] == '\\' && t[pos + 1] == 'u' && Spells(t[pos + 2..pos + 6], n)
    requires 0xD800 <= n < 0xDC00 ==> !LowFollows(t, pos + 6)
    ensures n < 0x10000 && Reads(t, pos, n, pos + 6)
  {
    SpelledIsRead(t[pos + 2..pos + 6], n);
    if IsHigh(n) && UnitAt(t, pos + 6) && IsLow(Hex4(t[pos + 8..pos + 12])) {
      SpelledIsRead(t[pos + 8..pos + 12], Hex4(t[pos + 8..pos + 12]));
      assert EscapeOf(t, pos + 6, Hex4(t[pos + 8..pos + 12]));
    }
  }

  /** A `\u` escape of `n` stands at `pos`. */
  predicate EscapeOf(t: Text, pos: nat, n: nat) {
    pos + 6 <= |t| && t[pos] == '\\' && t[pos + 1] == 'u' && Spells(t[pos + 2..pos + 6], n)
  }

  ghost predicate LowFollows(t: Text, pos: nat) {
    exists low: nat :: 0xDC00 <= low < 0xE000 && EscapeOf(t, pos, low)
  }

  /** A surrogate pair scans to the one code point above 0xFFFF that it encodes. */
  lemma PairEscape(t: Text, pos: nat, n: nat)
    requires 0x10000 <= n <= 0x10FFFF
    requires EscapeOf(t, pos, 0xD800 + (n - 0x10000) / 0x400) && EscapeOf(t, pos + 6, 0xDC00 + (n - 0x10000) % 0x400)
    ensures Reads(t, pos, n, pos + 12)
  {
    hide Spells, HexDigit, Hex4, IsHex4, Push, Join;
    var high, low := 0xD800 + (n - 0x10000) / 0x400, 0xDC00 + (n - 0x10000) % 0x400;
    SpelledIsRead(t[pos + 2..pos + 6], high);
    SpelledIsRead(t[pos + 8..pos + 12], low);
    JoinRestores(n);
    PairScans(t, pos, high, low);
  }

  lemma JoinRestores(n: nat)
    requires 0x10000 <= n <= 0x10FFFF
    ensures var high, low := 0xD800 + (n - 0x10000) / 0x400, 0xDC00 + (n - 0x10000) % 0x400;
      IsHigh(high) && IsLow(low) && Join(high, low) == n
  {
  }

  lemma PairScans(t: Text, pos: nat, high: nat, low: nat)
    requires UnitAt(t, pos) && UnitAt(t, pos + 6) && Hex4(t[pos + 2..pos + 6]) == high && Hex4(t[pos + 8..pos + 12]) == low
    requires IsHigh(high) && IsLow(low)
    ensures Reads(t, pos, Join(high, low), pos + 12)
  {
    hide HexDigit, Hex4, IsHex4, Join;
  }

  /** A backslash and `u` without four hexadecimal digits is refused. */
  lemma BrokenEscape(t: Text, pos: nat)
    requires pos + 1 < |t| && t[pos] == '\\' && t[pos + 1] == 'u' && forall n: nat :: !EscapeOf(t, pos, n)
    ensures ScanString(t, pos).None?
  {
    if UnitAt(t, pos) {
      SpelledIsRead(t[pos + 2..pos + 6], Hex4(t[pos + 2..pos + 6]));
      assert EscapeOf(t, pos, Hex4(t[pos + 2..pos + 6]));
    }
  }

  /** The code points of blanks, one by one. */
  lemma BlankCodes(t: Text, pos: nat)
    requires pos < |t|
    ensures SkipSpace(t, pos) > pos <==>
      t[pos] as int in {0x09, 0x0A, 0x0B, 0x0C, 0x0D, 0x1C, 0x1D, 0x1E, 0x1F, 0x20, 0x85, 0xA0, 0x1680, 0x2000, 0x2001, 0x2002,
                        0x2003, 0x2004, 0x2005, 0x2006, 0x2007, 0x2008, 0x2009, 0x200A, 0x2028, 0x2029, 0x202F, 0x205F, 0x3000}
    ensures RfcSpace(t[pos]) <==> t[pos] as int in {0x20, 0x09, 0x0A, 0x0D}
  {
  }

  /** One piece of a string body. */
  datatype Piece = Raw(c: char) | Simple(c: char) | Unit(digits: Text)

  predicate ValidPiece(p: Piece) {
    match p
    case Raw(c) => c != '"' && c != '\\' && c >= ' '
    case Simple(c) => SimpleEscape(c).Some?
    case Unit(digits) => IsHex4(digits)
  }

  predicate ValidPieces(ps: seq<Piece>) { forall i :: 0 <= i < |ps| ==> ValidPiece(ps[i]) }

  function RenderPiece(p: Piece): Text {
    match p
    case Raw(c) => [c]
    case Simple(c) => ['\\', c]
    case Unit(digits) => ['\\', 'u'] + digits
  }

  function RenderPieces(ps: seq<Piece>): Text {
    if ps == [] then [] else RenderPiece(ps[0]) + RenderPieces(ps[1..])
  }

  /** The value of a string body: adjacent high and low surrogate units are one code point. */
  function PiecesValue(ps: seq<Piece>): seq<nat>
    requires ValidPieces(ps)
  {
    if ps == [] then []
    else match ps[0]
      case Raw(c) => [c as int] + PiecesValue(ps[1..])
      case Simple(c) => [SimpleEscape(c).value] + PiecesValue(ps[1..])
      case Unit(d) =>
        if |ps| > 1 && ps[1].Unit? && IsHigh(Hex4(d)) && IsLow(Hex4(ps[1].digits)) then
          assert ValidPiece(ps[1]);
          [Join(Hex4(d), Hex4(ps[1].digits))] + PiecesValue(ps[2..])
        else [Hex4(d)] + PiecesValue(ps[1..])
  }

  lemma UnitText(t: Text, pos: nat, digits: Text)
    requires |digits| == 4
    ensures At(t, pos, RenderPiece(Unit(digits))) <==>
      pos + 6 <= |t| && t[pos] == '\\' && t[pos + 1] == 'u' && t[pos + 2..pos + 6] == digits
  {
    AtCons(t, pos, '\\', ['u'] + digits);
    AtCons(t, pos + 1, 'u', digits);
    assert ['\\', 'u'] + digits == ['\\'] + (['u'] + digits);
  }

  lemma PrependPiece(t: Text, pos: nat, p: Piece, ps: seq<Piece>, end: nat)
    requires ValidPiece(p) && ValidPieces(ps) && pos < end && At(t, pos, RenderPiece(p))
    requires pos + |RenderPiece(p)| + |RenderPieces(ps)| + 1 == end
    requires At(t, pos + |RenderPiece(p)|, RenderPieces(ps) + ['"'])
    ensures ValidPieces([p] + ps) && pos + |RenderPieces([p] + ps)| + 1 == end
    ensures At(t, pos, RenderPieces([p] + ps) + ['"'])
  {
    assert ([p] + ps)[1..] == ps;
    AtSplit(t, pos, RenderPiece(p), RenderPieces(ps) + ['"']);
    assert RenderPieces([p] + ps) + ['"'] == RenderPiece(p) + (RenderPieces(ps) + ['"']);
  }

  /** What the scanner accepts is a rendering of pieces with that value. */
  lemma {:induction false} StringSound(t: Text, pos: nat) returns (ps: seq<Piece>)
    requires ScanString(t, pos).Some?
    ensures ValidPieces(ps) && ScanString(t, pos).value == Scanned(PiecesValue(ps), pos + |RenderPieces(ps)| + 1)
    ensures At(t, pos, RenderPieces(ps) + ['"'])
    decreases |t| - pos, 1
  {
    hide At, Hex4, Join;
    var end := ScanString(t, pos).value.end;
    if t[pos] == '"' {
      ps := [];
      AtChar(t, pos, '"');
      assert RenderPieces(ps) + ['"'] == ['"'];
    } else if t[pos] == '\\' && t[pos + 1] == 'u' {
      ps := UnitSound(t, pos);
    } else {
      var p := if t[pos] == '\\' then Simple(t[pos + 1]) else Raw(t[pos]);
      AtChar(t, pos, t[pos]);
      if p.Simple? { SimpleText(t, pos, p.c); }
      var rest := StringSound(t, pos + |RenderPiece(p)|);
      PrependPiece(t, pos, p, rest, end);
      ps := [p] + rest;
      assert ps[1..] == rest;
    }
  }

  lemma {:induction false} UnitSound(t: Text, pos: nat) returns (ps: seq<Piece>)
    requires ScanString(t, pos).Some? && pos + 1 < |t| && t[pos] == '\\' && t[pos + 1] == 'u'
    ensures ValidPieces(ps) && ScanString(t, pos).value == Scanned(PiecesValue(ps), pos + |RenderPieces(ps)| + 1)
    ensures At(t, pos, RenderPieces(ps) + ['"'])
    decreases |t| - pos, 0
  {
    hide At, Hex4, Join, IsHex4;
    var end := ScanString(t, pos).value.end;
    var first := Unit(t[pos + 2..pos + 6]);
    UnitText(t, pos, first.digits);
    if IsHigh(Hex4(first.digits)) && UnitAt(t, pos + 6) && IsLow(Hex4(t[pos + 8..pos + 12])) {
      var low := Unit(t[pos + 8..pos + 12]);
      UnitText(t, pos + 6, low.digits);
      var rest := StringSound(t, pos + 12);
      PrependPiece(t, pos + 6, low, rest, end);
      PrependPiece(t, pos, first, [low] + rest, end);
      ps := [first] + ([low] + rest);
      assert ps[2..] == rest;
    } else {
      var rest := StringSound(t, pos + 6);
      PrependPiece(t, pos, first, rest, end);
      ps := [first] + rest;
      assert ps[1..] == rest;
      NotJoined(t, pos + 6, rest);
      if rest != [] && rest[0].Unit? {
        HeadPiece(t, pos + 6, rest);
        UnitWidth(t, pos + 6, rest[0].digits);
      }
    }
  }

  /** The first piece of a body and the rest of it, in the text. */
  lemma HeadPiece(t: Text, pos: nat, ps: seq<Piece>)
    requires ps != [] && At(t, pos, RenderPieces(ps) + ['"'])
    ensures At(t, pos, RenderPiece(ps[0])) && At(t, pos + |RenderPiece(ps[0])|, RenderPieces(ps[1..]) + ['"'])
    ensures |RenderPieces(ps)| == |RenderPiece(ps[0])| + |RenderPieces(ps[1..])|
  {
    hide At, RenderPiece;
    assert RenderPieces(ps) + ['"'] == RenderPiece(ps[0]) + (RenderPieces(ps[1..]) + ['"']);
    AtSplit(t, pos, RenderPiece(ps[0]), RenderPieces(ps[1..]) + ['"']);
  }

  lemma SimpleText(t: Text, pos: nat, c: char)
    ensures At(t, pos, RenderPiece(Simple(c))) <==> pos + 2 <= |t| && t[pos] == '\\' && t[pos + 1] == c
  {
    assert RenderPiece(Simple(c)) == ['\\'] + [c];
    AtCons(t, pos, '\\', [c]);
    AtChar(t, pos + 1, c);
  }

  /** One step of the scanner over a piece that is not a unit escape. */
  lemma CharStep(t: Text, pos: nat, ps: seq<Piece>)
    requires ValidPieces(ps) && ps != [] && !ps[0].Unit? && At(t, pos, RenderPiece(ps[0]))
    ensures pos + |RenderPiece(ps[0])| <= |t|
    ensures |PiecesValue(ps[..1])| == 1 && PiecesValue(ps) == [PiecesValue(ps[..1])[0]] + PiecesValue(ps[1..])
    ensures ScanString(t, pos) == Push(PiecesValue(ps[..1])[0], ScanString(t, pos + |RenderPiece(ps[0])|))
  {
    hide At, Hex4, Join, IsHex4, PiecesValue;
    assert ValidPiece(ps[0]);
    FirstValue(ps);
    match ps[0] {
      case Raw(c) => AtChar(t, pos, c);
      case Simple(c) => SimpleText(t, pos, c);
      case Unit(d) =>
    }
  }

  lemma FirstValue(ps: seq<Piece>)
    requires ValidPieces(ps) && ps != [] && !ps[0].Unit?
    ensures ValidPiece(ps[0])
    ensures PiecesValue(ps[..1]) == [if ps[0].Raw? then ps[0].c as int else SimpleEscape(ps[0].c).value]
    ensures PiecesValue(ps) == PiecesValue(ps[..1]) + PiecesValue(ps[1..])
  {
    assert ps[..1][1..] == [];
  }

  /** Every rendering of pieces is accepted with its value. */
  lemma {:induction false} StringComplete(t: Text, pos: nat, ps: seq<Piece>)
    requires ValidPieces(ps) && At(t, pos, RenderPieces(ps) + ['"'])
    ensures ScanString(t, pos) == Some(Scanned(PiecesValue(ps), pos + |RenderPieces(ps)| + 1))
    decreases |ps|
  {
    hide At, RenderPiece, ScanString, PiecesValue;
    if ps == [] {
      EmptyBody(t, pos);
    } else {
      HeadPiece(t, pos, ps);
      if ps[0].Unit? {
        UnitWidth(t, pos, ps[0].digits);
        UnitComplete(t, pos, ps);
      } else {
        CharStep(t, pos, ps);
        StringComplete(t, pos + |RenderPiece(ps[0])|, ps[1..]);
      }
    }
  }

  lemma EmptyBody(t: Text, pos: nat)
    requires At(t, pos, RenderPieces([]) + ['"'])
    ensures ScanString(t, pos) == Some(Scanned(PiecesValue([]), pos + 1))
  {
    AtChar(t, pos, '"');
  }

  predicate Joins(ps: seq<Piece>)
    requires ValidPieces(ps) && ps != [] && ps[0].Unit?
  {
    assert ValidPiece(ps[0]);
    |ps| > 1 && ps[1].Unit? && IsHigh(Hex4(ps[0].digits)) && (assert ValidPiece(ps[1]); IsLow(Hex4(ps[1].digits)))
  }

  /** One step of the scanner over a unit escape, alone or joined with the next. */
  lemma UnitStep(t: Text, pos: nat, ps: seq<Piece>)
    requires ValidPieces(ps) && ps != [] && ps[0].Unit?
    requires UnitAt(t, pos) && t[pos + 2..pos + 6] == ps[0].digits
    requires UnitAt(t, pos + 6) <==> |ps| > 1 && ps[1].Unit?
    requires UnitAt(t, pos + 6) ==> ps[1].digits == t[pos + 8..pos + 12]
    ensures Joins(ps) ==>
      && ValidPiece(ps[0]) && ValidPiece(ps[1])
      && ScanString(t, pos) == Push(Join(Hex4(ps[0].digits), Hex4(ps[1].digits)), ScanString(t, pos + 12))
      && PiecesValue(ps) == [Join(Hex4(ps[0].digits), Hex4(ps[1].digits))] + PiecesValue(ps[2..])
    ensures !Joins(ps) ==>
      && ValidPiece(ps[0])
      && ScanString(t, pos) == Push(Hex4(ps[0].digits), ScanString(t, pos + 6))
      && PiecesValue(ps) == [Hex4(ps[0].digits)] + PiecesValue(ps[1..])
  {
    hide Hex4, Join;
    assert ValidPiece(ps[0]);
    assert |ps| > 1 ==> ValidPiece(ps[1]);
  }

  lemma UnitWidth(t: Text, pos: nat, digits: Text)
    requires ValidPiece(Unit(digits)) && At(t, pos, RenderPiece(Unit(digits)))
    ensures |RenderPiece(Unit(digits))| == 6 && UnitAt(t, pos) && t[pos + 2..pos + 6] == digits
  {
    UnitText(t, pos, digits);
  }

  lemma {:induction false} UnitComplete(t: Text, pos: nat, ps: seq<Piece>)
    requires ValidPieces(ps) && ps != [] && ps[0].Unit?
    requires UnitAt(t, pos) && t[pos + 2..pos + 6] == ps[0].digits && |RenderPiece(ps[0])| == 6
    requires At(t, pos + 6, RenderPieces(ps[1..]) + ['"'])
    ensures ScanString(t, pos) == Some(Scanned(PiecesValue(ps), pos + |RenderPieces(ps)| + 1))
    decreases |ps|, 0
  {
    hide At, Hex4, Join, RenderPiece, ScanString, PiecesValue, UnitAt;
    var rest := ps[1..];
    NotJoined(t, pos + 6, rest);
    if rest != [] {
      assert rest[0] == ps[1] && ValidPiece(rest[0]);
      HeadPiece(t, pos + 6, rest);
      if rest[0].Unit? { UnitWidth(t, pos + 6, rest[0].digits); }
    }
    UnitStep(t, pos, ps);
    if Joins(ps) {
      assert rest[1..] == ps[2..];
      StringComplete(t, pos + 12, ps[2..]);
    } else {
      StringComplete(t, pos + 6, rest);
    }
  }

  /** A unit escape at `pos` can only come from a unit piece. */
  lemma NotJoined(t: Text, pos: nat, rest: seq<Piece>)
    requires ValidPieces(rest) && At(t, pos, RenderPieces(rest) + ['"'])
    ensures UnitAt(t, pos) ==> rest != [] && rest[0].Unit? && rest[0].digits == t[pos + 2..pos + 6]
  {
    if rest == [] {
      AtChar(t, pos, '"');
    } else {
      assert RenderPieces(rest) + ['"'] == RenderPiece(rest[0]) + (RenderPieces(rest[1..]) + ['"']);
      AtSplit(t, pos, RenderPiece(rest[0]), RenderPieces(rest[1..]) + ['"']);
      match rest[0] {
        case Raw(c) => AtChar(t, pos, c);
        case Simple(c) =>
          assert RenderPiece(rest[0]) == ['\\'] + [c];
          AtCons(t, pos, '\\', [c]);
          AtChar(t, pos + 1, c);
        case Unit(d) => UnitText(t, pos, d);
      }
    }
  }
}
