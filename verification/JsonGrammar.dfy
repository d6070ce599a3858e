/** JSON texts as concrete syntax: the reference the parser is measured against (sections 2 to 7 of RFC 8259, with the
    wider whitespace of the code). */
module JsonGrammar {
  import opened Wrappers
  import opened JsonText
  import opened JsonNumber

  /** Parsed values. Python's dict is a map; its insertion order is not observed. */
  datatype Json =
    | Null
    | Bool(b: bool)
    | Num(value: NumberValue)
    | Str(s: seq<nat>)
    | Arr(items: seq<Json>)
    | Obj(fields: map<seq<nat>, Json>)

  datatype Step = Key(name: seq<nat>) | Index(i: nat)
  type Path = seq<Step>

  datatype Span = Span(start: nat, end: nat)
  datatype Leaf = Leaf(path: Path, span: Span)

  datatype Cst =
    | CNull | CTrue | CFalse
    | CNumber(n: Number)
    | CString(body: seq<Piece>)
    | CEmptyArr(blank: Text)
    | CArr(items: CItems)
    | CEmptyObj(blank: Text)
    | CObj(members: CMembers)

  /** `before value after`, then a comma and the rest or the closing bracket. */
  datatype CItems =
    | LastItem(before: Text, value: Cst, after: Text)
    | MoreItems(before: Text, value: Cst, after: Text, rest: CItems)

  /** `before "key" mid : gap value after`, then a comma and the rest or the closing brace. */
  datatype CMembers =
    | LastMember(before: Text, key: seq<Piece>, mid: Text, gap: Text, value: Cst, after: Text)
    | MoreMembers(before: Text, key: seq<Piece>, mid: Text, gap: Text, value: Cst, after: Text, rest: CMembers)

  function Quoted(body: seq<Piece>): Text { ['"'] + (RenderPieces(body) + ['"']) }

  function Render(c: Cst): Text {
    match c
    case CNull => "null"
    case CTrue => "true"
    case CFalse => "false"
    case CNumber(n) => RenderNumber(n)
    case CString(body) => Quoted(body)
    case CEmptyArr(blank) => ['['] + (blank + [']'])
    case CArr(items) => ['['] + RenderItems(items)
    case CEmptyObj(blank) => ['{'] + (blank + ['}'])
    case CObj(members) => ['{'] + RenderMembers(members)
  }

  function RenderItems(c: CItems): Text {
    c.before + (Render(c.value) + (c.after + if c.LastItem? then [']'] else [','] + RenderItems(c.rest)))
  }

  function RenderMembers(c: CMembers): Text {
    c.before + (Quoted(c.key) + (c.mid + ([':'] + (c.gap + (Render(c.value)
      + (c.after + if c.LastMember? then ['}'] else [','] + RenderMembers(c.rest)))))))
  }

  // ----- Well-formed syntax: blanks are blank, lexemes are lexemes, no object repeats a decoded key -----

  predicate Valid(c: Cst) {
    match c
    case CNull => true
    case CTrue => true
    case CFalse => true
    case CNumber(n) => ValidNumber(n) && Finite(ValueOf(n))
    case CString(body) => ValidPieces(body)
    case CEmptyArr(blank) => AllSpace(blank)
    case CArr(items) => ValidItems(items)
    case CEmptyObj(blank) => AllSpace(blank)
    case CObj(members) => ValidMembers(members, {})
  }

  predicate ValidItems(c: CItems) {
    AllSpace(c.before) && Valid(c.value) && AllSpace(c.after) && (c.MoreItems? ==> ValidItems(c.rest))
  }

  predicate ValidMembers(c: CMembers, used: set<seq<nat>>) {
    && AllSpace(c.before) && ValidPieces(c.key) && AllSpace(c.mid) && AllSpace(c.gap) && Valid(c.value) && AllSpace(c.after)
    && PiecesValue(c.key) !in used
    && (c.MoreMembers? ==> ValidMembers(c.rest, used + {PiecesValue(c.key)}))
  }

  // ----- What a text denotes -----

  ghost function Value(c: Cst): Json
    requires Valid(c)
  {
    match c
    case CNull => Null
    case CTrue => Bool(true)
    case CFalse => Bool(false)
    case CNumber(n) => Num(ValueOf(n))
    case CString(body) => Str(PiecesValue(body))
    case CEmptyArr(_) => Arr([])
    case CArr(items) => Arr(ItemsValue(items))
    case CEmptyObj(_) => Obj(map[])
    case CObj(members) =>
      var none: map<seq<nat>, Json> := map[];
      assert none.Keys == {};
      Obj(MembersValue(members, none))
  }

  ghost function ItemsValue(c: CItems): seq<Json>
    requires ValidItems(c)
  {
    [Value(c.value)] + if c.LastItem? then [] else ItemsValue(c.rest)
  }

  ghost function MembersValue(c: CMembers, fields: map<seq<nat>, Json>): map<seq<nat>, Json>
    requires ValidMembers(c, fields.Keys)
  {
    var extended := fields[PiecesValue(c.key) := Value(c.value)];
    if c.LastMember? then extended
    else
      assert extended.Keys == fields.Keys + {PiecesValue(c.key)};
      MembersValue(c.rest, extended)
  }

  // ----- Where its scalars and its keys stand, for a text that starts at `at` -----

  ghost function Leaves(c: Cst, at: nat, path: Path): seq<Leaf> {
    match c
    case CString(body) => [Leaf(path, Span(at + 1, at + 1 + |RenderPieces(body)|))]
    case CArr(items) => ItemsLeaves(items, at + 1, path, 0)
    case CObj(members) => MembersLeaves(members, at + 1, path)
    case CEmptyArr(_) => []
    case CEmptyObj(_) => []
    case _ => [Leaf(path, Span(at, at + |Render(c)|))]
  }

  ghost function ItemsLeaves(c: CItems, at: nat, path: Path, index: nat): seq<Leaf> {
    var v := at + |c.before|;
    Leaves(c.value, v, path + [Index(index)])
    + if c.LastItem? then [] else ItemsLeaves(c.rest, v + |Render(c.value)| + |c.after| + 1, path, index + 1)
  }

  ghost function MembersLeaves(c: CMembers, at: nat, path: Path): seq<Leaf> {
    var v := MemberValueAt(c, at);
    Leaves(c.value, v, path + [Key(KeyName(c))])
    + if c.LastMember? then [] else MembersLeaves(c.rest, v + |Render(c.value)| + |c.after| + 1, path)
  }

  ghost function Keys(c: Cst, at: nat): seq<Span> {
    match c
    case CArr(items) => ItemsKeys(items, at + 1)
    case CObj(members) => MembersKeys(members, at + 1)
    case _ => []
  }

  ghost function ItemsKeys(c: CItems, at: nat): seq<Span> {
    var v := at + |c.before|;
    Keys(c.value, v) + if c.LastItem? then [] else ItemsKeys(c.rest, v + |Render(c.value)| + |c.after| + 1)
  }

  ghost function MembersKeys(c: CMembers, at: nat): seq<Span> {
    var v := MemberValueAt(c, at);
    [KeySpan(c, at)] + (Keys(c.value, v)
    + if c.LastMember? then [] else MembersKeys(c.rest, v + |Render(c.value)| + |c.after| + 1))
  }

  function KeySpan(c: CMembers, at: nat): Span {
    Span(at + |c.before| + 1, at + |c.before| + 1 + |RenderPieces(c.key)|)
  }

  function MemberValueAt(c: CMembers, at: nat): nat {
    at + |c.before| + |RenderPieces(c.key)| + 2 + |c.mid| + 1 + |c.gap|
  }

  function KeyName(c: CMembers): seq<nat> { if ValidPieces(c.key) then PiecesValue(c.key) else [] }

  // ----- The same syntax laid out by position -----

  predicate CharAt(t: Text, pos: nat, c: char) { pos < |t| && t[pos] == c }

  ghost predicate QuotedAt(t: Text, pos: nat, body: seq<Piece>) {
    CharAt(t, pos, '"') && At(t, pos + 1, RenderPieces(body) + ['"'])
  }

  ghost predicate Placed(t: Text, pos: nat, c: Cst)
    decreases c
  {
    match c
    case CString(body) => QuotedAt(t, pos, body)
    case CEmptyArr(blank) => CharAt(t, pos, '[') && At(t, pos + 1, blank) && CharAt(t, pos + 1 + |blank|, ']')
    case CArr(items) => CharAt(t, pos, '[') && ItemsPlaced(t, pos + 1, items)
    case CEmptyObj(blank) => CharAt(t, pos, '{') && At(t, pos + 1, blank) && CharAt(t, pos + 1 + |blank|, '}')
    case CObj(members) => CharAt(t, pos, '{') && MembersPlaced(t, pos + 1, members)
    case _ => At(t, pos, Render(c))
  }

  ghost predicate ItemsPlaced(t: Text, pos: nat, c: CItems)
    decreases c
  {
    var v := pos + |c.before|;
    var e := v + |Render(c.value)|;
    var q := e + |c.after|;
    && At(t, pos, c.before) && Placed(t, v, c.value) && At(t, e, c.after)
    && (if c.LastItem? then CharAt(t, q, ']') else CharAt(t, q, ',') && ItemsPlaced(t, q + 1, c.rest))
  }

  ghost predicate MembersPlaced(t: Text, pos: nat, c: CMembers)
    decreases c
  {
    var k := pos + |c.before|;
    var m := k + |RenderPieces(c.key)| + 2;
    var colon := m + |c.mid|;
    var v := colon + 1 + |c.gap|;
    var e := v + |Render(c.value)|;
    var q := e + |c.after|;
    && At(t, pos, c.before) && QuotedAt(t, k, c.key) && At(t, m, c.mid) && CharAt(t, colon, ':')
    && At(t, colon + 1, c.gap) && Placed(t, v, c.value) && At(t, e, c.after)
    && (if c.LastMember? then CharAt(t, q, '}') else CharAt(t, q, ',') && MembersPlaced(t, q + 1, c.rest))
  }

  lemma QuotedPlaced(t: Text, pos: nat, body: seq<Piece>)
    ensures QuotedAt(t, pos, body) <==> At(t, pos, Quoted(body))
    ensures |Quoted(body)| == |RenderPieces(body)| + 2
  {
    AtCons(t, pos, '"', RenderPieces(body) + ['"']);
  }

  /** Layout by position is the rendering, read as one string. */
  lemma {:induction false} PlacedIsRendered(t: Text, pos: nat, c: Cst)
    ensures Placed(t, pos, c) <==> At(t, pos, Render(c))
    decreases c
  {
    hide At;
    match c {
      case CString(body) => QuotedPlaced(t, pos, body);
      case CEmptyArr(blank) =>
        AtCons(t, pos, '[', blank + [']']);
        AtSplit(t, pos + 1, blank, [']']);
        AtChar(t, pos + 1 + |blank|, ']');
      case CArr(items) =>
        AtCons(t, pos, '[', RenderItems(items));
        ItemsArePlaced(t, pos + 1, items);
      case CEmptyObj(blank) =>
        AtCons(t, pos, '{', blank + ['}']);
        AtSplit(t, pos + 1, blank, ['}']);
        AtChar(t, pos + 1 + |blank|, '}');
      case CObj(members) =>
        AtCons(t, pos, '{', RenderMembers(members));
        MembersArePlaced(t, pos + 1, members);
      case _ =>
    }
  }

  lemma {:induction false} ItemsArePlaced(t: Text, pos: nat, c: CItems)
    ensures ItemsPlaced(t, pos, c) <==> At(t, pos, RenderItems(c))
    decreases c
  {
    hide At, Placed, Render;
    var v := pos + |c.before|;
    var e := v + |Render(c.value)|;
    var q := e + |c.after|;
    var tail := if c.LastItem? then [']'] else [','] + RenderItems(c.rest);
    AtSplit(t, pos, c.before, Render(c.value) + (c.after + tail));
    AtSplit(t, v, Render(c.value), c.after + tail);
    AtSplit(t, e, c.after, tail);
    PlacedIsRendered(t, v, c.value);
    if c.LastItem? {
      AtChar(t, q, ']');
    } else {
      AtCons(t, q, ',', RenderItems(c.rest));
      ItemsArePlaced(t, q + 1, c.rest);
    }
  }

  /** The seven parts of a member and what follows them, one behind the other. */
  lemma MemberParts(t: Text, pos: nat, before: Text, key: Text, mid: Text, gap: Text, value: Text, after: Text, tail: Text)
    ensures var m := pos + |before| + |key|; var v := m + |mid| + 1 + |gap|;
      At(t, pos, before + (key + (mid + ([':'] + (gap + (value + (after + tail)))))))
      <==> (&& At(t, pos, before) && At(t, pos + |before|, key) && At(t, m, mid) && CharAt(t, m + |mid|, ':')
            && At(t, m + |mid| + 1, gap) && At(t, v, value) && At(t, v + |value|, after) && At(t, v + |value| + |after|, tail))
  {
    hide At;
    var k := pos + |before|;
    var m := k + |key|;
    var v := m + |mid| + 1 + |gap|;
    var fromGap := gap + (value + (after + tail));
    AtSplit(t, pos, before, key + (mid + ([':'] + fromGap)));
    AtSplit(t, k, key, mid + ([':'] + fromGap));
    AtSplit(t, m, mid, [':'] + fromGap);
    AtCons(t, m + |mid|, ':', fromGap);
    AtSplit(t, m + |mid| + 1, gap, value + (after + tail));
    AtSplit(t, v, value, after + tail);
    AtSplit(t, v + |value|, after, tail);
  }

  lemma {:induction false} MembersArePlaced(t: Text, pos: nat, c: CMembers)
    ensures MembersPlaced(t, pos, c) <==> At(t, pos, RenderMembers(c))
    decreases c
  {
    hide At, Placed, Render, Quoted, QuotedAt, RenderPieces;
    var k := pos + |c.before|;
    var v := MemberValueAt(c, pos);
    var q := v + |Render(c.value)| + |c.after|;
    var tail := if c.LastMember? then ['}'] else [','] + RenderMembers(c.rest);
    QuotedPlaced(t, k, c.key);
    MemberParts(t, pos, c.before, Quoted(c.key), c.mid, c.gap, Render(c.value), c.after, tail);
    PlacedIsRendered(t, v, c.value);
    if c.LastMember? {
      AtChar(t, q, '}');
    } else {
      AtCons(t, q, ',', RenderMembers(c.rest));
      MembersArePlaced(t, q + 1, c.rest);
    }
  }
}
