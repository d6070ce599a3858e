/** Every rendering parses back, so the parser and the grammar agree in both directions. */
module JsonRoundTrip {
  import opened Wrappers
  import opened JsonText
  import opened JsonNumber
  import opened JsonGrammar
  import opened JsonSpans

  /** What a rendering of `c` at `p` must parse to. */
  ghost function Read(c: Cst, p: nat, path: Path): Parsed
    requires Valid(c)
  {
    Parsed(Value(c), p + |Render(c)|, Leaves(c, p, path), Keys(c, p))
  }

  /** A closing or separating character behind blanks ends whatever stands before them. */
  lemma BlankThen(t: Text, e: nat, ws: Text, ch: char)
    requires At(t, e, ws) && AllSpace(ws) && CharAt(t, e + |ws|, ch) && (ch == ',' || ch == ']' || ch == '}' || ch == ':')
    ensures SkipSpace(t, e) == e + |ws| && Delimited(t, e)
  {
    SkipExactly(t, e, ws);
    if ws != [] { assert t[e] == ws[0]; }
  }

  /** The first character of a rendering picks the parser's branch. */
  lemma FirstChar(t: Text, p: nat, c: Cst)
    requires Valid(c) && Placed(t, p, c)
    ensures p < |t| && !Space(t[p])
    ensures t[p] == '{' <==> c.CObj? || c.CEmptyObj?
    ensures t[p] == '[' <==> c.CArr? || c.CEmptyArr?
    ensures t[p] == '"' <==> c.CString?
    ensures c.CNumber? ==> t[p] == '-' || Digit(t[p])
  {
    hide ValidItems, ValidMembers, ItemsPlaced, MembersPlaced, AllSpace, ValidPieces, RenderPieces, Finite, ValueOf;
    match c {
      case CNull => assert t[p] == "null"[0];
      case CTrue => assert t[p] == "true"[0];
      case CFalse => assert t[p] == "false"[0];
      case CNumber(n) => NumberFirst(t, p, n);
      case _ =>
    }
  }

  lemma NumberFirst(t: Text, p: nat, n: Number)
    requires ValidNumber(n) && At(t, p, RenderNumber(n))
    ensures p < |t| && (t[p] == '-' || Digit(t[p]))
  {
    var s := RenderNumber(n);
    assert s != [] && (s[0] == '-' || Digit(s[0])) by { assert Digit(n.whole[0]); }
    assert t[p] == t[p..p + |s|][0];
  }

  lemma StartsFirst(t: Text, p: nat, s: Text)
    requires s != []
    ensures StartsWith(t, p, s) ==> t[p] == s[0]
  {
    if StartsWith(t, p, s) { assert t[p] == t[p..p + |s|][0]; }
  }

  lemma ScalarComplete(t: Text, p: nat, c: Cst)
    requires Valid(c) && Placed(t, p, c) && p < |t|
    requires c.CNull? || c.CTrue? || c.CFalse? || (c.CNumber? && Delimited(t, p + |Render(c)|))
    ensures ScanPrimitive(t, p) == Some(Scanned(Value(c), p + |Render(c)|))
  {
    hide ScanNumber, ValidNumber, Finite, ValueOf, RenderNumber, StartsWith;
    StartsFirst(t, p, "null");
    StartsFirst(t, p, "true");
    StartsFirst(t, p, "false");
    if c.CNumber? {
      FirstChar(t, p, c);
      NumberComplete(t, p, c.n);
    } else {
      LiteralStarts(t, p, Render(c));
    }
  }

  lemma LiteralStarts(t: Text, p: nat, s: Text)
    requires At(t, p, s) && s != []
    ensures StartsWith(t, p, s) && t[p] == s[0]
  {
    assert t[p] == t[p..p + |s|][0];
  }

  lemma {:induction false} ParseComplete(t: Text, pos: nat, ws: Text, path: Path, c: Cst)
    requires At(t, pos, ws) && AllSpace(ws) && Valid(c) && Placed(t, pos + |ws|, c)
    requires c.CNumber? ==> Delimited(t, pos + |ws| + |Render(c)|)
    ensures Parse(t, pos, path) == Some(Read(c, pos + |ws|, path))
    decreases c, 1
  {
    hide At, ScanString, ScanPrimitive, ParseMembers, ParseItems, AllSpace, Read, SkipSpace, Placed, Render, Valid, Delimited;
    var p := pos + |ws|;
    FirstChar(t, p, c);
    SkipExactly(t, pos, ws);
    if c.CString? {
      StringReadBack(t, p, path, c);
    } else if c.CObj? || c.CEmptyObj? {
      ObjectComplete(t, p, path, c);
    } else if c.CArr? || c.CEmptyArr? {
      ArrayComplete(t, p, path, c);
    } else {
      ScalarComplete(t, p, c);
      ScalarRead(c, p, path);
    }
  }

  lemma ScalarRead(c: Cst, p: nat, path: Path)
    requires Valid(c) && (c.CNull? || c.CTrue? || c.CFalse? || c.CNumber?)
    ensures Read(c, p, path) == Parsed(Value(c), p + |Render(c)|, [Leaf(path, Span(p, p + |Render(c)|))], [])
  {
  }

  lemma StringReadBack(t: Text, p: nat, path: Path, c: Cst)
    requires c.CString? && Valid(c) && Placed(t, p, c)
    ensures var s := ScanString(t, p + 1);
      && s.Some?
      && Read(c, p, path) == Parsed(Str(s.value.value), s.value.end, [Leaf(path, Span(p + 1, s.value.end - 1))], [])
  {
    hide ScanString, RenderPieces, PiecesValue, At;
    StringComplete(t, p + 1, c.body);
  }

  lemma {:induction false} ObjectComplete(t: Text, p: nat, path: Path, c: Cst)
    requires (c.CObj? || c.CEmptyObj?) && Valid(c) && Placed(t, p, c)
    ensures p < |t| && t[p] == '{'
    ensures var q := SkipSpace(t, p + 1);
      Some(Read(c, p, path))
      == if CharAt(t, q, '}') then Some(Parsed(Obj(map[]), q + 1, [], [])) else ParseMembers(t, q, path, map[])
    decreases c, 0
  {
    hide At, ParseMembers, AllSpace, MembersValue, MembersLeaves, MembersKeys, RenderMembers, QuotedAt, SkipSpace,
         MembersPlaced, ValidMembers;
    match c {
      case CEmptyObj(blank) => BlankThen(t, p + 1, blank, '}');
      case CObj(m) =>
        MembersFirst(t, p + 1, m, {});
        SkipExactly(t, p + 1, m.before);
        var none: map<seq<nat>, Json> := map[];
        assert none.Keys == {};
        MembersComplete(t, p + 1, path, none, m);
    }
  }

  lemma {:induction false} ArrayComplete(t: Text, p: nat, path: Path, c: Cst)
    requires (c.CArr? || c.CEmptyArr?) && Valid(c) && Placed(t, p, c)
    ensures p < |t| && t[p] == '['
    ensures var q := SkipSpace(t, p + 1);
      Some(Read(c, p, path))
      == if CharAt(t, q, ']') then Some(Parsed(Arr([]), q + 1, [], [])) else ParseItems(t, q, path, [])
    decreases c, 0
  {
    hide At, ParseItems, AllSpace, ItemsValue, ItemsLeaves, ItemsKeys, RenderItems, SkipSpace, Space, ItemsPlaced, ValidItems;
    match c {
      case CEmptyArr(blank) => BlankThen(t, p + 1, blank, ']');
      case CArr(m) =>
        ItemsFirst(t, p + 1, m);
        SkipExactly(t, p + 1, m.before);
        ItemsComplete(t, p + 1, path, [], m);
        assert [] + ItemsValue(m) == ItemsValue(m);
    }
  }

  lemma MembersFirst(t: Text, pos: nat, c: CMembers, used: set<seq<nat>>)
    requires MembersPlaced(t, pos, c) && ValidMembers(c, used)
    ensures At(t, pos, c.before) && AllSpace(c.before) && CharAt(t, pos + |c.before|, '"')
  {
    hide At, AllSpace;
  }

  lemma ItemsFirst(t: Text, pos: nat, c: CItems)
    requires ItemsPlaced(t, pos, c) && ValidItems(c)
    ensures At(t, pos, c.before) && AllSpace(c.before)
    ensures pos + |c.before| < |t| && !Space(t[pos + |c.before|]) && t[pos + |c.before|] != ']'
  {
    hide At, AllSpace, Placed, Render;
    FirstChar(t, pos + |c.before|, c.value);
    NotClosing(t, pos + |c.before|, c.value);
  }

  lemma NotClosing(t: Text, p: nat, c: Cst)
    requires Valid(c) && Placed(t, p, c)
    ensures p < |t| && t[p] != ']'
  {
    FirstChar(t, p, c);
    match c {
      case CNull => assert t[p] == "null"[0];
      case CTrue => assert t[p] == "true"[0];
      case CFalse => assert t[p] == "false"[0];
      case _ =>
    }
  }

  /** One member the parser accepts. */
  lemma MembersBuild(t: Text, pos: nat, path: Path, fields: map<seq<nat>, Json>, k: Scanned<seq<nat>>, r: Parsed, q: nat)
    requires CharAt(t, pos, '"') && ScanString(t, pos + 1) == Some(k) && k.value !in fields
    requires var colon := SkipSpace(t, k.end);
      CharAt(t, colon, ':') && Parse(t, colon + 1, path + [Key(k.value)]) == Some(r)
    requires q == SkipSpace(t, r.end)
    ensures CharAt(t, q, '}') ==>
      ParseMembers(t, pos, path, fields)
      == Some(Parsed(Obj(fields[k.value := r.value]), q + 1, r.leaves, [Span(pos + 1, k.end - 1)] + r.keys))
    ensures CharAt(t, q, ',') ==>
      var s := ParseMembers(t, SkipSpace(t, q + 1), path, fields[k.value := r.value]);
      s.Some? ==>
      ParseMembers(t, pos, path, fields)
      == Some(Parsed(s.value.value, s.value.end, r.leaves + s.value.leaves,
                     [Span(pos + 1, k.end - 1)] + (r.keys + s.value.keys)))
  {
    hide Parse, ScanString, SkipSpace;
    if CharAt(t, q, ',') {
      var s := ParseMembers(t, SkipSpace(t, q + 1), path, fields[k.value := r.value]);
      var result := ParseMembers(t, pos, path, fields);
    }
  }

  lemma ItemsBuild(t: Text, pos: nat, path: Path, items: seq<Json>, r: Parsed, q: nat)
    requires pos <= |t| && Parse(t, pos, path + [Index(|items|)]) == Some(r) && q == SkipSpace(t, r.end)
    ensures CharAt(t, q, ']') ==>
      ParseItems(t, pos, path, items) == Some(Parsed(Arr(items + [r.value]), q + 1, r.leaves, r.keys))
    ensures CharAt(t, q, ',') ==>
      var s := ParseItems(t, SkipSpace(t, q + 1), path, items + [r.value]);
      s.Some? ==>
      ParseItems(t, pos, path, items)
      == Some(Parsed(s.value.value, s.value.end, r.leaves + s.value.leaves, r.keys + s.value.keys))
  {
    hide Parse, SkipSpace;
    if CharAt(t, q, ',') {
      var s := ParseItems(t, SkipSpace(t, q + 1), path, items + [r.value]);
      var result := ParseItems(t, pos, path, items);
    }
  }

  ghost function ReadMembers(c: CMembers, pos: nat, path: Path, fields: map<seq<nat>, Json>): Parsed
    requires ValidMembers(c, fields.Keys)
  {
    Parsed(Obj(MembersValue(c, fields)), pos + |RenderMembers(c)|, MembersLeaves(c, pos, path), MembersKeys(c, pos))
  }

  ghost function ReadItems(c: CItems, pos: nat, path: Path, items: seq<Json>): Parsed
    requires ValidItems(c)
  {
    Parsed(Arr(items + ItemsValue(c)), pos + |RenderItems(c)|, ItemsLeaves(c, pos, path, |items|), ItemsKeys(c, pos))
  }

  /** What a member contributes, and what the rest of the object does. */
  lemma ReadMembersStep(c: CMembers, pos: nat, path: Path, fields: map<seq<nat>, Json>)
    requires ValidMembers(c, fields.Keys)
    ensures ValidPieces(c.key) && KeyName(c) !in fields && Valid(c.value)
    ensures var r := Read(c.value, MemberValueAt(c, pos), path + [Key(KeyName(c))]);
      var q := r.end + |c.after|;
      && (c.LastMember? ==>
            ReadMembers(c, pos, path, fields)
            == Parsed(Obj(fields[KeyName(c) := r.value]), q + 1, r.leaves, [KeySpan(c, pos)] + r.keys))
      && (c.MoreMembers? ==>
            var extended := fields[KeyName(c) := r.value];
            && ValidMembers(c.rest, extended.Keys)
            && var s := ReadMembers(c.rest, q + 1, path, extended);
            && ReadMembers(c, pos, path, fields)
               == Parsed(s.value, s.end, r.leaves + s.leaves, [KeySpan(c, pos)] + (r.keys + s.keys)))
  {
    hide Render, Value, Leaves, Keys, Valid, AllSpace, RenderPieces, PiecesValue, ValidPieces, RenderMembers;
    MembersWidth(c);
    var extended := fields[KeyName(c) := Value(c.value)];
    assert extended.Keys == fields.Keys + {KeyName(c)};
    if c.LastMember? {
      var r := Read(c.value, MemberValueAt(c, pos), path + [Key(KeyName(c))]);
      assert r.leaves + [] == r.leaves && r.keys + [] == r.keys;
    }
  }

  lemma ReadItemsStep(c: CItems, pos: nat, path: Path, items: seq<Json>)
    requires ValidItems(c)
    ensures Valid(c.value)
    ensures var r := Read(c.value, pos + |c.before|, path + [Index(|items|)]);
      var q := r.end + |c.after|;
      && (c.LastItem? ==> ReadItems(c, pos, path, items) == Parsed(Arr(items + [r.value]), q + 1, r.leaves, r.keys))
      && (c.MoreItems? ==>
            && ValidItems(c.rest)
            && var s := ReadItems(c.rest, q + 1, path, items + [r.value]);
            && ReadItems(c, pos, path, items) == Parsed(s.value, s.end, r.leaves + s.leaves, r.keys + s.keys))
  {
    hide Read, ReadItems, Valid, AllSpace;
    if c.LastItem? { LastItemReadBack(c, pos, path, items); } else { MoreItemsReadBack(c, pos, path, items); }
  }

  lemma MoreItemsReadBack(c: CItems, pos: nat, path: Path, items: seq<Json>)
    requires ValidItems(c) && c.MoreItems?
    ensures Valid(c.value) && ValidItems(c.rest)
    ensures var r := Read(c.value, pos + |c.before|, path + [Index(|items|)]);
      var s := ReadItems(c.rest, r.end + |c.after| + 1, path, items + [r.value]);
      ReadItems(c, pos, path, items) == Parsed(s.value, s.end, r.leaves + s.leaves, r.keys + s.keys)
  {
    hide Render, Value, Leaves, Keys, Valid, AllSpace, RenderItems, ItemsValue;
    ItemsWidth(c);
    ItemsValueStep(c, items);
    assert |items + [Value(c.value)]| == |items| + 1;
  }

  lemma LastItemReadBack(c: CItems, pos: nat, path: Path, items: seq<Json>)
    requires ValidItems(c) && c.LastItem?
    ensures Valid(c.value)
    ensures var r := Read(c.value, pos + |c.before|, path + [Index(|items|)]);
      ReadItems(c, pos, path, items) == Parsed(Arr(items + [r.value]), r.end + |c.after| + 1, r.leaves, r.keys)
  {
    hide Render, Value, Leaves, Keys, Valid, AllSpace, RenderItems, ItemsValue;
    ItemsWidth(c);
    LastValue(c);
    var r := Read(c.value, pos + |c.before|, path + [Index(|items|)]);
    assert r.leaves + [] == r.leaves && r.keys + [] == r.keys;
  }

  lemma LastValue(c: CItems)
    requires c.LastItem? && ValidItems(c)
    ensures ItemsValue(c) == [Value(c.value)]
  {
    hide Value;
  }

  /** The layout of one member, with the blanks the parser will skip. */
  lemma MemberLaidOut(t: Text, pos: nat, c: CMembers, used: set<seq<nat>>)
    requires MembersPlaced(t, pos, c) && ValidMembers(c, used)
    ensures var p := pos + |c.before|; var m := p + |RenderPieces(c.key)| + 2; var e := MemberValueAt(c, pos) + |Render(c.value)|;
      && CharAt(t, p, '"') && ScanString(t, p + 1) == Some(Scanned(KeyName(c), m)) && SkipSpace(t, m) == m + |c.mid|
      && CharAt(t, m + |c.mid|, ':') && At(t, m + |c.mid| + 1, c.gap) && AllSpace(c.gap)
      && Valid(c.value) && Placed(t, MemberValueAt(c, pos), c.value)
      && Delimited(t, e) && SkipSpace(t, e) == e + |c.after|
      && CharAt(t, e + |c.after|, if c.LastMember? then '}' else ',')
      && (c.MoreMembers? ==> MembersPlaced(t, e + |c.after| + 1, c.rest))
  {
    hide At, AllSpace, ScanString, SkipSpace, Placed, Render, Delimited, PiecesValue, RenderPieces, ValidPieces;
    var p := pos + |c.before|;
    var m := p + |RenderPieces(c.key)| + 2;
    var e := MemberValueAt(c, pos) + |Render(c.value)|;
    StringComplete(t, p + 1, c.key);
    BlankThen(t, m, c.mid, ':');
    BlankThen(t, e, c.after, if c.LastMember? then '}' else ',');
  }

  lemma {:induction false} MembersComplete(t: Text, pos: nat, path: Path, fields: map<seq<nat>, Json>, c: CMembers)
    requires MembersPlaced(t, pos, c) && ValidMembers(c, fields.Keys) && pos + |c.before| <= |t|
    ensures ParseMembers(t, pos + |c.before|, path, fields) == Some(ReadMembers(c, pos, path, fields))
    decreases c
  {
    hide At, AllSpace, ScanString, SkipSpace, Placed, Render, Delimited, PiecesValue, RenderPieces, ValidPieces, Parse,
         ParseMembers, Read, ReadMembers, MembersPlaced, ValidMembers, Valid;
    var p := pos + |c.before|;
    ReadMembersStep(c, pos, path, fields);
    MemberLaidOut(t, pos, c, fields.Keys);
    var m := p + |RenderPieces(c.key)| + 2;
    var key := path + [Key(KeyName(c))];
    ParseComplete(t, m + |c.mid| + 1, c.gap, key, c.value);
    var r := Read(c.value, MemberValueAt(c, pos), key);
    ReadEnd(c.value, MemberValueAt(c, pos), key);
    MembersBuild(t, p, path, fields, Scanned(KeyName(c), m), r, r.end + |c.after|);
    if c.MoreMembers? {
      var extended := fields[KeyName(c) := r.value];
      MembersFirst(t, r.end + |c.after| + 1, c.rest, extended.Keys);
      SkipExactly(t, r.end + |c.after| + 1, c.rest.before);
      MembersComplete(t, r.end + |c.after| + 1, path, extended, c.rest);
    }
  }

  lemma ReadEnd(c: Cst, p: nat, path: Path)
    requires Valid(c)
    ensures Read(c, p, path).end == p + |Render(c)|
  {
    hide Render, Value, Leaves, Keys, Valid;
  }

  lemma ItemLaidOut(t: Text, pos: nat, c: CItems)
    requires ItemsPlaced(t, pos, c) && ValidItems(c)
    ensures var p := pos + |c.before|; var e := p + |Render(c.value)|;
      && Valid(c.value) && Placed(t, p, c.value) && Delimited(t, e) && SkipSpace(t, e) == e + |c.after|
      && CharAt(t, e + |c.after|, if c.LastItem? then ']' else ',')
      && (c.MoreItems? ==> ItemsPlaced(t, e + |c.after| + 1, c.rest))
  {
    hide At, AllSpace, SkipSpace, Placed, Render, Delimited;
    var e := pos + |c.before| + |Render(c.value)|;
    BlankThen(t, e, c.after, if c.LastItem? then ']' else ',');
  }

  lemma {:induction false} ItemsComplete(t: Text, pos: nat, path: Path, items: seq<Json>, c: CItems)
    requires ItemsPlaced(t, pos, c) && ValidItems(c) && pos + |c.before| <= |t|
    ensures ParseItems(t, pos + |c.before|, path, items) == Some(ReadItems(c, pos, path, items))
    decreases c
  {
    hide At, AllSpace, SkipSpace, Placed, Render, Delimited, Parse, ParseItems, Read, ReadItems, ItemsPlaced, ValidItems, Valid;
    var p := pos + |c.before|;
    ReadItemsStep(c, pos, path, items);
    ItemLaidOut(t, pos, c);
    EmptyAt(t, p);
    var index := path + [Index(|items|)];
    ParseComplete(t, p, [], index, c.value);
    var r := Read(c.value, p, index);
    ReadEnd(c.value, p, index);
    ItemsBuild(t, p, path, items, r, r.end + |c.after|);
    if c.MoreItems? {
      ItemsFirst(t, r.end + |c.after| + 1, c.rest);
      SkipExactly(t, r.end + |c.after| + 1, c.rest.before);
      ItemsComplete(t, r.end + |c.after| + 1, path, items + [r.value], c.rest);
    }
  }
}
