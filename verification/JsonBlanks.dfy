/** Which accepted texts are JSON texts of section 2 of RFC 8259, whose only blanks are space, tab, line feed and return. */
module JsonBlanks {
  import opened Wrappers
  import opened JsonText
  import opened JsonNumber
  import opened JsonGrammar
  import opened JsonRoundTrip
  import opened JsonSpans
  import opened JsonFacts

  predicate AllRfc(s: Text) { forall i :: 0 <= i < |s| ==> RfcSpace(s[i]) }

  /** Every blank of the syntax is one of the four. */
  predicate RfcBlanks(c: Cst) {
    match c
    case CEmptyArr(blank) => AllRfc(blank)
    case CArr(items) => RfcItems(items)
    case CEmptyObj(blank) => AllRfc(blank)
    case CObj(members) => RfcMembers(members)
    case _ => true
  }

  predicate RfcItems(c: CItems) {
    AllRfc(c.before) && RfcBlanks(c.value) && AllRfc(c.after) && (c.MoreItems? ==> RfcItems(c.rest))
  }

  predicate RfcMembers(c: CMembers) {
    && AllRfc(c.before) && AllRfc(c.mid) && AllRfc(c.gap) && RfcBlanks(c.value) && AllRfc(c.after)
    && (c.MoreMembers? ==> RfcMembers(c.rest))
  }

  /** A stretch of text that renders syntax with no other blanks. */
  ghost predicate RfcRendering(t: Text, start: nat, end: nat) {
    exists d :: IsRfc(t, start, end, d)
  }

  ghost predicate IsRfc(t: Text, start: nat, end: nat, d: Cst) {
    Valid(d) && RfcBlanks(d) && At(t, start, Render(d)) && start + |Render(d)| == end
  }

  // ----- A text determines the blanks of its syntax -----

  /** `ws` is the whole stretch of blanks at `pos`. */
  ghost predicate BlankAt(t: Text, pos: nat, ws: Text) {
    pos <= |t| && At(t, pos, ws) && SkipSpace(t, pos) == pos + |ws|
  }

  lemma SameBlank(t: Text, pos: nat, a: Text, b: Text)
    requires BlankAt(t, pos, a) && BlankAt(t, pos, b)
    ensures a == b
  {
  }

  lemma BlankEnds(t: Text, pos: nat, ws: Text)
    requires At(t, pos, ws) && AllSpace(ws) && pos + |ws| < |t| && !Space(t[pos + |ws|])
    ensures BlankAt(t, pos, ws)
  {
    SkipExactly(t, pos, ws);
  }

  lemma BlankBefore(t: Text, pos: nat, ws: Text, ch: char)
    requires At(t, pos, ws) && AllSpace(ws) && CharAt(t, pos + |ws|, ch) && ch in {',', ':', ']', '}', '"'}
    ensures BlankAt(t, pos, ws) && (ch != '"' ==> Delimited(t, pos))
  {
    BlankEnds(t, pos, ws);
    if ws != [] { assert t[pos] == ws[0]; }
  }

  lemma ItemLaidOut(t: Text, pos: nat, c: CItems)
    requires ItemsPlaced(t, pos, c) && ValidItems(c)
    ensures var v := pos + |c.before|; var e := v + |Render(c.value)|;
      && BlankAt(t, pos, c.before) && Valid(c.value) && Placed(t, v, c.value)
      && Delimited(t, e) && BlankAt(t, e, c.after)
      && CharAt(t, e + |c.after|, if c.LastItem? then ']' else ',')
      && (c.MoreItems? ==> ItemsPlaced(t, e + |c.after| + 1, c.rest) && ValidItems(c.rest))
  {
    hide Placed, Render, Delimited, Valid, BlankAt, Space, AllSpace, At;
    var e := pos + |c.before| + |Render(c.value)|;
    FirstChar(t, pos + |c.before|, c.value);
    BlankEnds(t, pos, c.before);
    BlankBefore(t, e, c.after, if c.LastItem? then ']' else ',');
  }

  lemma MemberBlanks(t: Text, pos: nat, c: CMembers, used: set<seq<nat>>)
    requires MembersPlaced(t, pos, c) && ValidMembers(c, used)
    ensures var m := pos + |c.before| + |RenderPieces(c.key)| + 2; var v := MemberValueAt(c, pos);
      && BlankAt(t, pos, c.before) && BlankAt(t, m, c.mid) && BlankAt(t, m + |c.mid| + 1, c.gap)
      && BlankAt(t, v + |Render(c.value)|, c.after)
      && ValidPieces(c.key) && (c.MoreMembers? ==> ValidMembers(c.rest, used + {PiecesValue(c.key)}))
  {
    hide Placed, Render, Delimited, Valid, BlankAt, Space, AllSpace, At, RenderPieces, ValidPieces, PiecesValue;
    var m := pos + |c.before| + |RenderPieces(c.key)| + 2;
    BlankBefore(t, pos, c.before, '"');
    BlankBefore(t, m, c.mid, ':');
    FirstChar(t, MemberValueAt(c, pos), c.value);
    BlankEnds(t, m + |c.mid| + 1, c.gap);
    BlankBefore(t, MemberValueAt(c, pos) + |Render(c.value)|, c.after, if c.LastMember? then '}' else ',');
  }

  /** Both read the same value and end at the same place. */
  lemma SameReading(t: Text, p: nat, c: Cst, d: Cst)
    requires Valid(c) && Valid(d) && Placed(t, p, c) && Placed(t, p, d)
    requires c.CNumber? ==> Delimited(t, p + |Render(c)|)
    requires d.CNumber? ==> Delimited(t, p + |Render(d)|)
    ensures Value(c) == Value(d) && |Render(c)| == |Render(d)|
  {
    hide Parse, Placed, Render, Value, Leaves, Keys, Valid, Delimited;
    FirstChar(t, p, c);
    ParseComplete(t, p, [], [], c);
    ParseComplete(t, p, [], [], d);
    var _ := Read(c, p, []);
  }

  lemma {:induction false} BlanksAgree(t: Text, p: nat, c: Cst, d: Cst)
    requires Valid(c) && Valid(d) && Placed(t, p, c) && Placed(t, p, d)
    requires c.CNumber? ==> Delimited(t, p + |Render(c)|)
    requires d.CNumber? ==> Delimited(t, p + |Render(d)|)
    ensures RfcBlanks(c) <==> RfcBlanks(d)
    ensures |Render(c)| == |Render(d)|
    decreases c
  {
    hide At, AllRfc, AllSpace, RfcItems, RfcMembers, ItemsPlaced, MembersPlaced, ValidItems, ValidMembers, QuotedAt, ItemsValue,
         MembersValue, Render, Delimited, Space, SkipSpace;
    SameReading(t, p, c, d);
    FirstChar(t, p, c);
    FirstChar(t, p, d);
    match c {
      case CArr(items) =>
        ArrayNotEmpty(c);
        if d.CArr? { ItemsAgree(t, p + 1, items, d.items); }
      case CObj(members) =>
        ObjectNotEmpty(c);
        if d.CObj? { MembersAgree(t, p + 1, members, d.members, {}); }
      case CEmptyArr(blank) =>
        if d.CArr? { ArrayNotEmpty(d); }
        EmptyAgree(t, p, c, d);
      case CEmptyObj(blank) =>
        if d.CObj? { ObjectNotEmpty(d); }
        EmptyAgree(t, p, c, d);
      case _ =>
    }
  }

  lemma ArrayNotEmpty(c: Cst)
    requires c.CArr? && Valid(c)
    ensures Value(c) != Arr([])
  {
  }

  lemma ObjectNotEmpty(c: Cst)
    requires c.CObj? && Valid(c)
    ensures Value(c) != Obj(map[])
  {
    var none: map<seq<nat>, Json> := map[];
    assert none.Keys == {};
    MembersNotEmpty(c.members, none);
  }

  lemma {:induction false} MembersNotEmpty(c: CMembers, fields: map<seq<nat>, Json>)
    requires ValidMembers(c, fields.Keys)
    ensures MembersValue(c, fields) != map[]
  {
    var extended := fields[PiecesValue(c.key) := Value(c.value)];
    assert PiecesValue(c.key) in extended;
    if c.MoreMembers? {
      assert extended.Keys == fields.Keys + {PiecesValue(c.key)};
      MembersNotEmpty(c.rest, extended);
    }
  }

  lemma EmptyAgree(t: Text, p: nat, c: Cst, d: Cst)
    requires Placed(t, p, c) && Placed(t, p, d) && |Render(c)| == |Render(d)|
    requires (c.CEmptyArr? && d.CEmptyArr?) || (c.CEmptyObj? && d.CEmptyObj?)
    ensures c == d
  {
  }

  lemma {:induction false} ItemsAgree(t: Text, pos: nat, c: CItems, d: CItems)
    requires ItemsPlaced(t, pos, c) && ItemsPlaced(t, pos, d) && ValidItems(c) && ValidItems(d)
    ensures RfcItems(c) <==> RfcItems(d)
    decreases c
  {
    hide At, AllRfc, ItemsPlaced, ValidItems, RfcBlanks, Render, Delimited, SkipSpace, Placed, Valid, BlankAt;
    ItemLaidOut(t, pos, c);
    ItemLaidOut(t, pos, d);
    SameBlank(t, pos, c.before, d.before);
    var v := pos + |c.before|;
    BlanksAgree(t, v, c.value, d.value);
    var e := v + |Render(c.value)|;
    SameBlank(t, e, c.after, d.after);
    if c.MoreItems? { ItemsAgree(t, e + |c.after| + 1, c.rest, d.rest); }
  }

  lemma {:induction false} MembersAgree(t: Text, pos: nat, c: CMembers, d: CMembers, used: set<seq<nat>>)
    requires MembersPlaced(t, pos, c) && MembersPlaced(t, pos, d) && ValidMembers(c, used) && ValidMembers(d, used)
    ensures RfcMembers(c) <==> RfcMembers(d)
    decreases c
  {
    hide At, AllRfc, MembersPlaced, ValidMembers, RfcBlanks, Render, Delimited, SkipSpace, Placed, Valid, ScanString,
         PiecesValue, ValidPieces, RenderPieces, AllSpace, BlankAt;
    MemberBlanks(t, pos, c, used);
    MemberBlanks(t, pos, d, used);
    SameBlank(t, pos, c.before, d.before);
    MemberLaidOut(t, pos, c, used);
    MemberLaidOut(t, pos, d, used);
    SameKey(c, d, used);
    var m := pos + |c.before| + |RenderPieces(c.key)| + 2;
    SameBlank(t, m, c.mid, d.mid);
    SameBlank(t, m + |c.mid| + 1, c.gap, d.gap);
    var v := MemberValueAt(c, pos);
    BlanksAgree(t, v, c.value, d.value);
    SameBlank(t, v + |Render(c.value)|, c.after, d.after);
    if c.MoreMembers? {
      MembersAgree(t, v + |Render(c.value)| + |c.after| + 1, c.rest, d.rest, used + {PiecesValue(c.key)});
    }
  }

  lemma SameKey(c: CMembers, d: CMembers, used: set<seq<nat>>)
    requires ValidMembers(c, used) && ValidMembers(d, used) && KeyName(c) == KeyName(d)
    ensures PiecesValue(c.key) == PiecesValue(d.key)
  {
  }

  // ----- The exact condition -----

  /** An accepted object, array or string is a JSON text of the standard exactly when every blank of its syntax is one of
      the standard's four. */
  lemma RfcExactly(t: Text, pos: nat, path: Path, c: Cst, r: Parsed)
    requires pos <= |t| && Opens(t, pos) && Denotes(t, SkipSpace(t, pos), path, c, r)
    ensures RfcRendering(t, SkipSpace(t, pos), r.end) <==> RfcBlanks(c)
  {
    hide Parse, Placed, Render, Value, Leaves, Keys, At, Valid, RfcBlanks, SkipSpace, Delimited;
    var p := SkipSpace(t, pos);
    ReadEnd(c, p, path);
    PlacedIsRendered(t, p, c);
    FirstChar(t, p, c);
    NotANumber(t, p, c);
    if RfcRendering(t, p, r.end) {
      var d :| IsRfc(t, p, r.end, d);
      PlacedIsRendered(t, p, d);
      NotANumber(t, p, d);
      BlanksAgree(t, p, c, d);
    }
    if RfcBlanks(c) { assert IsRfc(t, p, r.end, c); }
  }

  lemma NotANumber(t: Text, p: nat, c: Cst)
    requires Valid(c) && Placed(t, p, c) && p < |t| && t[p] in {'{', '[', '"'}
    ensures !c.CNumber?
  {
    hide Placed, Valid;
    FirstChar(t, p, c);
  }

  /** A no-break space between braces: accepted, although the standard has no such text. */
  lemma WiderBlank()
    ensures var t := ['{', 0xA0 as char, '}'];
      Parse(t, 0, []) == Some(Parsed(Obj(map[]), 3, [], [])) && !RfcRendering(t, 0, 3)
  {
    var t := ['{', 0xA0 as char, '}'];
    var c := CEmptyObj([0xA0 as char]);
    assert Render(c) == t && At(t, 0, t);
    assert SkipSpace(t, 0) == 0;
    RenderingParses(t, 0, [], c);
    assert Denotes(t, 0, [], c, Read(c, 0, []));
    RfcExactly(t, 0, [], c, Read(c, 0, []));
    assert !RfcSpace([0xA0 as char][0]);
  }
}
