/** The span-recording parser: as a function of the text, as the grammar's inverse, and as the object that moves a
    cursor and appends to its lists. */
module JsonSpans {
  import opened Wrappers
  import opened JsonText
  import opened JsonNumber
  import opened JsonGrammar

  datatype Parsed = Parsed(value: Json, end: nat, leaves: seq<Leaf>, keys: seq<Span>)

  // ----- The parser as a function; `None` is any of its errors -----

  function Parse(t: Text, pos: nat, path: Path): (r: Option<Parsed>)
    requires pos <= |t|
    ensures r.Some? ==> pos < r.value.end <= |t|
    decreases |t| - pos, 2
  {
    var p := SkipSpace(t, pos);
    if p >= |t| then None
    else if t[p] == '{' then
      var q := SkipSpace(t, p + 1);
      if CharAt(t, q, '}') then Some(Parsed(Obj(map[]), q + 1, [], [])) else ParseMembers(t, q, path, map[])
    else if t[p] == '[' then
      var q := SkipSpace(t, p + 1);
      if CharAt(t, q, ']') then Some(Parsed(Arr([]), q + 1, [], [])) else ParseItems(t, q, path, [])
    else if t[p] == '"' then
      var s := ScanString(t, p + 1);
      if s.None? then None
      else Some(Parsed(Str(s.value.value), s.value.end, [Leaf(path, Span(p + 1, s.value.end - 1))], []))
    else
      var s := ScanPrimitive(t, p);
      if s.None? then None
      else Some(Parsed(s.value.value, s.value.end, [Leaf(path, Span(p, s.value.end))], []))
  }

  /** Literals and numbers. `NaN` and the infinities decode to nonfinite floats, which the caller refuses. */
  function ScanPrimitive(t: Text, pos: nat): (r: Option<Scanned<Json>>)
    requires pos < |t|
    ensures r.Some? ==> pos < r.value.end <= |t|
  {
    if StartsWith(t, pos, "null") then Some(Scanned(Null, pos + 4))
    else if StartsWith(t, pos, "true") then Some(Scanned(Bool(true), pos + 4))
    else if StartsWith(t, pos, "false") then Some(Scanned(Bool(false), pos + 5))
    else
      var n := ScanNumber(t, pos);
      if n.None? then None
      else
        NumberSound(t, pos);
        if Finite(ValueOf(n.value.value)) then Some(Scanned(Num(ValueOf(n.value.value)), n.value.end)) else None
  }

  predicate StartsWith(t: Text, pos: nat, s: Text) {
    pos + |s| <= |t| && t[pos..pos + |s|] == s
  }

  /** One member: its name, its key's span, its value, and where the blanks behind it end. */
  datatype Member = Member(name: seq<nat>, key: Span, value: Parsed, next: nat)

  function ParseMember(t: Text, pos: nat, path: Path, fields: map<seq<nat>, Json>): (r: Option<Member>)
    requires pos <= |t|
    ensures r.Some? ==> pos < r.value.next <= |t| && r.value.name !in fields
    decreases |t| - pos, 0
  {
    if !CharAt(t, pos, '"') then None
    else
      var k := ScanString(t, pos + 1);
      if k.None? || k.value.value in fields then None
      else
        var colon := SkipSpace(t, k.value.end);
        if !CharAt(t, colon, ':') then None
        else
          var v := Parse(t, colon + 1, path + [Key(k.value.value)]);
          if v.None? then None
          else Some(Member(k.value.value, Span(pos + 1, k.value.end - 1), v.value, SkipSpace(t, v.value.end)))
  }

  function ParseMembers(t: Text, pos: nat, path: Path, fields: map<seq<nat>, Json>): (r: Option<Parsed>)
    requires pos <= |t|
    ensures r.Some? ==> pos < r.value.end <= |t|
    decreases |t| - pos, 1
  {
    var m := ParseMember(t, pos, path, fields);
    if m.None? then None
    else
      var Member(name, key, v, q) := m.value;
      var extended := fields[name := v.value];
      if CharAt(t, q, '}') then Some(Parsed(Obj(extended), q + 1, v.leaves, [key] + v.keys))
      else if !CharAt(t, q, ',') then None
      else
        var rest := ParseMembers(t, SkipSpace(t, q + 1), path, extended);
        if rest.None? then None
        else Some(Parsed(rest.value.value, rest.value.end, v.leaves + rest.value.leaves,
                         [key] + (v.keys + rest.value.keys)))
  }

  function ParseItems(t: Text, pos: nat, path: Path, items: seq<Json>): (r: Option<Parsed>)
    requires pos <= |t|
    ensures r.Some? ==> pos < r.value.end <= |t|
    decreases |t| - pos, 3
  {
    var v := Parse(t, pos, path + [Index(|items|)]);
    if v.None? then None
    else
      var q := SkipSpace(t, v.value.end);
      var extended := items + [v.value.value];
      if CharAt(t, q, ']') then Some(Parsed(Arr(extended), q + 1, v.value.leaves, v.value.keys))
      else if !CharAt(t, q, ',') then None
      else
        var rest := ParseItems(t, SkipSpace(t, q + 1), path, extended);
        if rest.None? then None
        else Some(Parsed(rest.value.value, rest.value.end, v.value.leaves + rest.value.leaves,
                         v.value.keys + rest.value.keys))
  }

  // ----- Soundness: what is accepted is a rendering, with its value and spans -----

  /** `r` reads `c`, whose rendering starts at `p`. */
  ghost predicate Reads(t: Text, p: nat, path: Path, c: Cst, r: Parsed) {
    && Valid(c) && Placed(t, p, c) && p + |Render(c)| <= |t|
    && r == Parsed(Value(c), p + |Render(c)|, Leaves(c, p, path), Keys(c, p))
  }

  ghost predicate ReadsMembers(t: Text, pos: nat, path: Path, fields: map<seq<nat>, Json>, c: CMembers, r: Parsed) {
    && ValidMembers(c, fields.Keys) && MembersPlaced(t, pos, c) && pos + |RenderMembers(c)| <= |t|
    && r == Parsed(Obj(MembersValue(c, fields)), pos + |RenderMembers(c)|, MembersLeaves(c, pos, path), MembersKeys(c, pos))
  }

  ghost predicate ReadsItems(t: Text, pos: nat, path: Path, items: seq<Json>, c: CItems, r: Parsed) {
    && ValidItems(c) && ItemsPlaced(t, pos, c) && pos + |RenderItems(c)| <= |t|
    && r == Parsed(Arr(items + ItemsValue(c)), pos + |RenderItems(c)|, ItemsLeaves(c, pos, path, |items|), ItemsKeys(c, pos))
  }

  lemma Blank(t: Text, pos: nat)
    requires pos <= |t|
    ensures At(t, pos, t[pos..SkipSpace(t, pos)]) && AllSpace(t[pos..SkipSpace(t, pos)])
  {
  }

  /** Blanks before the first item belong to it. */
  lemma IndentItems(t: Text, pos: nat, path: Path, items: seq<Json>, c: CItems, r: Parsed, ws: Text)
    requires At(t, pos, ws) && AllSpace(ws) && ReadsItems(t, pos + |ws|, path, items, c, r)
    ensures ReadsItems(t, pos, path, items, c.(before := ws + c.before), r)
  {
    hide Placed, Render, Value, Leaves, Keys, Valid, At, AllSpace;
    var d := c.(before := ws + c.before);
    AtSplit(t, pos, ws, c.before);
    SpaceAppend(ws, c.before);
    assert RenderItems(d) == ws + RenderItems(c);
  }

  lemma SpaceAppend(a: Text, b: Text)
    requires AllSpace(a) && AllSpace(b)
    ensures AllSpace(a + b)
  {
  }

  lemma IndentMembers(t: Text, pos: nat, path: Path, fields: map<seq<nat>, Json>, c: CMembers, r: Parsed, ws: Text)
    requires At(t, pos, ws) && AllSpace(ws) && c.before == [] && ReadsMembers(t, pos + |ws|, path, fields, c, r)
    ensures ReadsMembers(t, pos, path, fields, c.(before := ws), r)
  {
    hide Placed, Render, Value, Leaves, Keys, Valid, At, AllSpace, QuotedAt, Quoted;
    var d := c.(before := ws);
    assert RenderMembers(d) == ws + RenderMembers(c);
  }

  lemma MembersWidth(c: CMembers)
    ensures |RenderMembers(c)| == MemberValueAt(c, 0) + |Render(c.value)| + |c.after| + 1
      + if c.LastMember? then 0 else |RenderMembers(c.rest)|
  {
  }

  lemma ItemsWidth(c: CItems)
    ensures |RenderItems(c)| == |c.before| + |Render(c.value)| + |c.after| + 1
      + if c.LastItem? then 0 else |RenderItems(c.rest)|
  {
  }

  /** A member's key and value, in front of position `q`. */
  ghost predicate ReadsMember(t: Text, pos: nat, path: Path, c: CMembers, r: Parsed, q: nat) {
    && c.before == [] && QuotedAt(t, pos, c.key) && ValidPieces(c.key)
    && var m := pos + |RenderPieces(c.key)| + 2;
    && At(t, m, c.mid) && AllSpace(c.mid) && CharAt(t, m + |c.mid|, ':')
    && At(t, m + |c.mid| + 1, c.gap) && AllSpace(c.gap)
    && Reads(t, m + |c.mid| + 1 + |c.gap|, path + [Key(PiecesValue(c.key))], c.value, r)
    && At(t, r.end, c.after) && AllSpace(c.after) && q == r.end + |c.after|
  }

  lemma LastMemberReads(t: Text, pos: nat, path: Path, fields: map<seq<nat>, Json>, c: CMembers, r: Parsed, q: nat)
    requires c.LastMember? && ReadsMember(t, pos, path, c, r, q) && CharAt(t, q, '}') && PiecesValue(c.key) !in fields
    ensures ReadsMembers(t, pos, path, fields, c,
      Parsed(Obj(fields[PiecesValue(c.key) := r.value]), q + 1, r.leaves, [KeySpan(c, pos)] + r.keys))
  {
    hide Placed, Render, Value, Leaves, Keys, Valid, At, AllSpace, QuotedAt, RenderPieces, PiecesValue, ValidPieces, RenderMembers;
    MembersWidth(c);
    EmptyAt(t, pos);
  }

  lemma MoreMembersRead(t: Text, pos: nat, path: Path, fields: map<seq<nat>, Json>, c: CMembers, r: Parsed, q: nat, s: Parsed)
    requires c.MoreMembers? && ReadsMember(t, pos, path, c, r, q) && CharAt(t, q, ',') && PiecesValue(c.key) !in fields
    requires ReadsMembers(t, q + 1, path, fields[PiecesValue(c.key) := r.value], c.rest, s)
    ensures ReadsMembers(t, pos, path, fields, c,
      Parsed(s.value, s.end, r.leaves + s.leaves, [KeySpan(c, pos)] + (r.keys + s.keys)))
  {
    hide Placed, Render, Value, Leaves, Keys, Valid, At, AllSpace, QuotedAt, RenderPieces, PiecesValue, ValidPieces, RenderMembers;
    MembersWidth(c);
    EmptyAt(t, pos);
    var extended := fields[PiecesValue(c.key) := r.value];
    assert extended.Keys == fields.Keys + {PiecesValue(c.key)};
  }

  ghost predicate ReadsItem(t: Text, pos: nat, path: Path, index: nat, c: CItems, r: Parsed, q: nat) {
    && At(t, pos, c.before) && AllSpace(c.before)
    && Reads(t, pos + |c.before|, path + [Index(index)], c.value, r)
    && At(t, r.end, c.after) && AllSpace(c.after) && q == r.end + |c.after|
  }

  lemma LastItemReads(t: Text, pos: nat, path: Path, items: seq<Json>, c: CItems, r: Parsed, q: nat)
    requires c.LastItem? && ReadsItem(t, pos, path, |items|, c, r, q) && CharAt(t, q, ']')
    ensures ReadsItems(t, pos, path, items, c, Parsed(Arr(items + [r.value]), q + 1, r.leaves, r.keys))
  {
    hide Placed, Render, Value, Leaves, Keys, Valid, At, AllSpace, RenderItems;
    ItemsWidth(c);
    assert r.leaves + [] == r.leaves && r.keys + [] == r.keys;
    assert ItemsValue(c) == [r.value];
  }

  lemma MoreItemsRead(t: Text, pos: nat, path: Path, items: seq<Json>, c: CItems, r: Parsed, q: nat, s: Parsed)
    requires c.MoreItems? && ReadsItem(t, pos, path, |items|, c, r, q) && CharAt(t, q, ',')
    requires ReadsItems(t, q + 1, path, items + [r.value], c.rest, s)
    ensures ReadsItems(t, pos, path, items, c, Parsed(s.value, s.end, r.leaves + s.leaves, r.keys + s.keys))
  {
    hide Placed, Render, Value, Leaves, Keys, Valid, At, AllSpace, RenderItems, ItemsValue;
    ItemsWidth(c);
    ItemsValueStep(c, items);
  }

  lemma ItemsValueStep(c: CItems, items: seq<Json>)
    requires c.MoreItems? && ValidItems(c)
    ensures items + [Value(c.value)] + ItemsValue(c.rest) == items + ItemsValue(c)
  {
    hide Value;
    assert ItemsValue(c) == [Value(c.value)] + ItemsValue(c.rest);
  }

  lemma ObjectReads(t: Text, p: nat, path: Path, c: CMembers, r: Parsed)
    requires CharAt(t, p, '{') && ReadsMembers(t, p + 1, path, map[], c, r)
    ensures Reads(t, p, path, CObj(c), r)
  {
    hide MembersPlaced, RenderMembers, MembersValue, MembersLeaves, MembersKeys, ValidMembers;
    var none: map<seq<nat>, Json> := map[];
    assert none.Keys == {};
  }

  lemma ArrayReads(t: Text, p: nat, path: Path, c: CItems, r: Parsed)
    requires CharAt(t, p, '[') && ReadsItems(t, p + 1, path, [], c, r)
    ensures Reads(t, p, path, CArr(c), r)
  {
    hide ItemsPlaced, RenderItems, ItemsValue, ItemsLeaves, ItemsKeys, ValidItems;
    assert [] + ItemsValue(c) == ItemsValue(c);
  }

  lemma EmptyAt(t: Text, pos: nat)
    requires pos <= |t|
    ensures At(t, pos, []) && AllSpace([])
  {
  }

  lemma {:induction false} ParseSound(t: Text, pos: nat, path: Path) returns (c: Cst)
    requires pos <= |t| && Parse(t, pos, path).Some?
    ensures Reads(t, SkipSpace(t, pos), path, c, Parse(t, pos, path).value)
    decreases |t| - pos, 1
  {
    hide ParseMembers, ParseItems, ScanString, ScanPrimitive, At, AllSpace, Reads, ReadsMembers, ReadsItems, SkipSpace;
    var p := SkipSpace(t, pos);
    if t[p] == '{' {
      c := ObjectSound(t, p, path);
    } else if t[p] == '[' {
      c := ArraySound(t, p, path);
    } else if t[p] == '"' {
      c := StringReads(t, p, path);
    } else {
      c := PrimitiveSound(t, p, path);
    }
  }

  lemma {:induction false} ObjectSound(t: Text, p: nat, path: Path) returns (c: Cst)
    requires p < |t| && t[p] == '{'
    requires var q := SkipSpace(t, p + 1); !CharAt(t, q, '}') ==> ParseMembers(t, q, path, map[]).Some?
    ensures var q := SkipSpace(t, p + 1);
      Reads(t, p, path, c,
        if CharAt(t, q, '}') then Parsed(Obj(map[]), q + 1, [], []) else ParseMembers(t, q, path, map[]).value)
    decreases |t| - p, 0
  {
    hide ParseMembers, At, AllSpace, Reads, ReadsMembers, SkipSpace;
    var q := SkipSpace(t, p + 1);
    Blank(t, p + 1);
    var ws := t[p + 1..q];
    if CharAt(t, q, '}') {
      c := CEmptyObj(ws);
      EmptyReads(t, p, path, c);
    } else {
      var members := MembersSound(t, q, path, map[]);
      IndentMembers(t, p + 1, path, map[], members, ParseMembers(t, q, path, map[]).value, ws);
      c := CObj(members.(before := ws));
      ObjectReads(t, p, path, members.(before := ws), ParseMembers(t, q, path, map[]).value);
    }
  }

  lemma {:induction false} ArraySound(t: Text, p: nat, path: Path) returns (c: Cst)
    requires p < |t| && t[p] == '['
    requires var q := SkipSpace(t, p + 1); !CharAt(t, q, ']') ==> ParseItems(t, q, path, []).Some?
    ensures var q := SkipSpace(t, p + 1);
      Reads(t, p, path, c,
        if CharAt(t, q, ']') then Parsed(Arr([]), q + 1, [], []) else ParseItems(t, q, path, []).value)
    decreases |t| - p, 0
  {
    hide ParseItems, At, AllSpace, Reads, ReadsItems, SkipSpace;
    var q := SkipSpace(t, p + 1);
    Blank(t, p + 1);
    var ws := t[p + 1..q];
    if CharAt(t, q, ']') {
      c := CEmptyArr(ws);
      EmptyReads(t, p, path, c);
    } else {
      var items := ItemsSound(t, q, path, []);
      IndentItems(t, p + 1, path, [], items, ParseItems(t, q, path, []).value, ws);
      c := CArr(items.(before := ws + items.before));
      ArrayReads(t, p, path, items.(before := ws + items.before), ParseItems(t, q, path, []).value);
    }
  }

  lemma EmptyReads(t: Text, p: nat, path: Path, c: Cst)
    requires c.CEmptyObj? || c.CEmptyArr?
    requires CharAt(t, p, if c.CEmptyObj? then '{' else '[') && At(t, p + 1, c.blank) && AllSpace(c.blank)
    requires CharAt(t, p + 1 + |c.blank|, if c.CEmptyObj? then '}' else ']')
    ensures Reads(t, p, path, c, Parsed(if c.CEmptyObj? then Obj(map[]) else Arr([]), p + 2 + |c.blank|, [], []))
  {
    hide At, AllSpace;
  }

  lemma StringReads(t: Text, p: nat, path: Path) returns (c: Cst)
    requires p < |t| && t[p] == '"' && ScanString(t, p + 1).Some?
    ensures var s := ScanString(t, p + 1).value;
      Reads(t, p, path, c, Parsed(Str(s.value), s.end, [Leaf(path, Span(p + 1, s.end - 1))], []))
  {
    hide At, ScanString, PiecesValue, RenderPieces;
    var body := StringSound(t, p + 1);
    QuotedPlaced(t, p, body);
    c := CString(body);
  }

  lemma PrimitiveSound(t: Text, p: nat, path: Path) returns (c: Cst)
    requires p < |t| && ScanPrimitive(t, p).Some?
    ensures var s := ScanPrimitive(t, p).value;
      Reads(t, p, path, c, Parsed(s.value, s.end, [Leaf(path, Span(p, s.end))], []))
  {
    hide Reads, ScanNumber, ValueOf, ValidNumber, Finite, At, RenderNumber;
    if StartsWith(t, p, "null") {
      c := CNull;
      LiteralReads(t, p, path, c);
    } else if StartsWith(t, p, "true") {
      c := CTrue;
      LiteralReads(t, p, path, c);
    } else if StartsWith(t, p, "false") {
      c := CFalse;
      LiteralReads(t, p, path, c);
    } else {
      NumberSound(t, p);
      c := CNumber(ScanNumber(t, p).value.value);
      NumberReads(t, p, path, c);
    }
  }

  lemma LiteralReads(t: Text, p: nat, path: Path, c: Cst)
    requires (c.CNull? || c.CTrue? || c.CFalse?) && StartsWith(t, p, Render(c))
    ensures Reads(t, p, path, c, Parsed(Value(c), p + |Render(c)|, [Leaf(path, Span(p, p + |Render(c)|))], []))
  {
  }

  lemma NumberReads(t: Text, p: nat, path: Path, c: Cst)
    requires c.CNumber? && ValidNumber(c.n) && Finite(ValueOf(c.n)) && At(t, p, RenderNumber(c.n))
    ensures var end := p + |RenderNumber(c.n)|;
      Reads(t, p, path, c, Parsed(Num(ValueOf(c.n)), end, [Leaf(path, Span(p, end))], []))
  {
    hide ValidNumber, Finite, ValueOf, RenderNumber;
  }

  /** One accepted member, read off the parser. */
  lemma MembersStep(t: Text, pos: nat, path: Path, fields: map<seq<nat>, Json>)
    returns (k: Scanned<seq<nat>>, r: Parsed, q: nat)
    requires pos <= |t| && ParseMembers(t, pos, path, fields).Some?
    ensures CharAt(t, pos, '"') && ScanString(t, pos + 1) == Some(k) && k.value !in fields
    ensures var colon := SkipSpace(t, k.end);
      CharAt(t, colon, ':') && Parse(t, colon + 1, path + [Key(k.value)]) == Some(r)
    ensures q == SkipSpace(t, r.end)
    ensures CharAt(t, q, '}') ==>
      ParseMembers(t, pos, path, fields).value
      == Parsed(Obj(fields[k.value := r.value]), q + 1, r.leaves, [Span(pos + 1, k.end - 1)] + r.keys)
    ensures !CharAt(t, q, '}') ==>
      && CharAt(t, q, ',')
      && var s := ParseMembers(t, SkipSpace(t, q + 1), path, fields[k.value := r.value]);
      && s.Some?
      && ParseMembers(t, pos, path, fields).value
         == Parsed(s.value.value, s.value.end, r.leaves + s.value.leaves,
                   [Span(pos + 1, k.end - 1)] + (r.keys + s.value.keys))
  {
    hide Parse, ScanString, SkipSpace;
    k := ScanString(t, pos + 1).value;
    r := Parse(t, SkipSpace(t, k.end) + 1, path + [Key(k.value)]).value;
    q := SkipSpace(t, r.end);
  }

  lemma {:induction false} MembersSound(t: Text, pos: nat, path: Path, fields: map<seq<nat>, Json>) returns (c: CMembers)
    requires pos <= |t| && ParseMembers(t, pos, path, fields).Some?
    ensures c.before == [] && ReadsMembers(t, pos, path, fields, c, ParseMembers(t, pos, path, fields).value)
    decreases |t| - pos, 0
  {
    hide Parse, ParseMembers, ScanString, SkipSpace, At, Reads, ReadsMembers, AllSpace, RenderPieces, PiecesValue, ValidPieces;
    var k, r, q := MembersStep(t, pos, path, fields);
    var body := StringSound(t, pos + 1);
    var colon := SkipSpace(t, k.end);
    Blank(t, k.end);
    Blank(t, colon + 1);
    var value := ParseSound(t, colon + 1, path + [Key(k.value)]);
    Blank(t, r.end);
    var mid, gap, after := t[k.end..colon], t[colon + 1..SkipSpace(t, colon + 1)], t[r.end..q];
    if CharAt(t, q, '}') {
      c := LastMember([], body, mid, gap, value, after);
      LastMemberReads(t, pos, path, fields, c, r, q);
    } else {
      var next := SkipSpace(t, q + 1);
      Blank(t, q + 1);
      var extended := fields[k.value := r.value];
      var s := ParseMembers(t, next, path, extended).value;
      var rest := MembersSound(t, next, path, extended);
      IndentMembers(t, q + 1, path, extended, rest, s, t[q + 1..next]);
      c := MoreMembers([], body, mid, gap, value, after, rest.(before := t[q + 1..next]));
      MoreMembersRead(t, pos, path, fields, c, r, q, s);
    }
  }

  lemma {:induction false} ItemsSound(t: Text, pos: nat, path: Path, items: seq<Json>) returns (c: CItems)
    requires pos <= |t| && ParseItems(t, pos, path, items).Some?
    ensures ReadsItems(t, pos, path, items, c, ParseItems(t, pos, path, items).value)
    decreases |t| - pos, 2
  {
    hide Parse, SkipSpace, At, Reads, ReadsItems, AllSpace;
    Blank(t, pos);
    var value := ParseSound(t, pos, path + [Index(|items|)]);
    var r := Parse(t, pos, path + [Index(|items|)]).value;
    var q := SkipSpace(t, r.end);
    Blank(t, r.end);
    var before, after := t[pos..SkipSpace(t, pos)], t[r.end..q];
    if CharAt(t, q, ']') {
      c := LastItem(before, value, after);
      LastItemReads(t, pos, path, items, c, r, q);
    } else {
      var next := SkipSpace(t, q + 1);
      Blank(t, q + 1);
      var extended := items + [r.value];
      var s := ParseItems(t, next, path, extended).value;
      var rest := ItemsSound(t, next, path, extended);
      IndentItems(t, q + 1, path, extended, rest, s, t[q + 1..next]);
      c := MoreItems(before, value, after, rest.(before := t[q + 1..next] + rest.before));
      MoreItemsRead(t, pos, path, items, c, r, q, s);
    }
  }
}
