/** What a caller may rely on: exact acceptance, locality, the order of the spans, and leaves that name their scalars. */
module JsonFacts {
  import opened Wrappers
  import opened JsonText
  import opened JsonNumber
  import opened JsonGrammar
  import opened JsonSpans
  import opened JsonRoundTrip

  // ----- Acceptance and locality -----

  predicate Opens(t: Text, pos: nat)
    requires pos <= |t|
  {
    var p := SkipSpace(t, pos);
    p < |t| && (t[p] == '{' || t[p] == '[' || t[p] == '"')
  }

  ghost predicate Denotes(t: Text, p: nat, path: Path, c: Cst, r: Parsed) {
    Valid(c) && At(t, p, Render(c)) && r == Read(c, p, path)
  }

  lemma SoundAtRendering(t: Text, pos: nat, path: Path) returns (c: Cst)
    requires pos <= |t| && Parse(t, pos, path).Some?
    ensures Denotes(t, SkipSpace(t, pos), path, c, Parse(t, pos, path).value)
  {
    hide Parse, Placed, Render, Value, Leaves, Keys, Valid, At;
    c := ParseSound(t, pos, path);
    PlacedIsRendered(t, SkipSpace(t, pos), c);
  }

  /** An object, array or string is accepted exactly when it renders some well-formed syntax, which fixes the result. */
  lemma AcceptsExactlyRenderings(t: Text, pos: nat, path: Path, r: Parsed)
    requires pos <= |t| && Opens(t, pos)
    ensures Parse(t, pos, path) == Some(r) <==> exists c :: Denotes(t, SkipSpace(t, pos), path, c, r)
  {
    hide Parse, Placed, Render, Value, Leaves, Keys, At, Read;
    if Parse(t, pos, path) == Some(r) {
      var c := SoundAtRendering(t, pos, path);
    }
    if c :| Denotes(t, SkipSpace(t, pos), path, c, r) {
      RenderingParses(t, pos, path, c);
    }
  }

  lemma RenderingParses(t: Text, pos: nat, path: Path, c: Cst)
    requires pos <= |t| && Valid(c) && At(t, SkipSpace(t, pos), Render(c)) && Opens(t, pos)
    ensures Parse(t, pos, path) == Some(Read(c, SkipSpace(t, pos), path))
  {
    hide Parse, Placed, Render, Value, Leaves, Keys, At, Read, Valid, SkipSpace;
    var p := SkipSpace(t, pos);
    PlacedIsRendered(t, p, c);
    Blank(t, pos);
    FirstChar(t, p, c);
    ParseComplete(t, pos, t[pos..p], path, c);
  }

  lemma SharedSlice(t: Text, u: Text, end: nat, a: nat, b: nat)
    requires end <= |t| && end <= |u| && t[..end] == u[..end] && a <= b <= end
    ensures t[a..b] == u[a..b] && (a < b ==> t[a] == u[a] == t[a..b][0])
  {
    assert t[..end][a..b] == t[a..b] && u[..end][a..b] == u[a..b];
  }

  /** The same blanks and the same rendering stand in `u`. */
  lemma SharedPrefix(t: Text, u: Text, pos: nat, end: nat, s: Text)
    requires pos <= |t| && end <= |u| && end <= |t| && t[..end] == u[..end]
    requires s != [] && At(t, SkipSpace(t, pos), s) && SkipSpace(t, pos) + |s| == end
    ensures SkipSpace(u, pos) == SkipSpace(t, pos) && At(u, SkipSpace(t, pos), s) && u[SkipSpace(t, pos)] == s[0]
    ensures t[SkipSpace(t, pos)] == s[0]
  {
    hide SkipSpace, AllSpace, Space;
    var p := SkipSpace(t, pos);
    SkipStops(t, pos);
    SharedSlice(t, u, end, pos, p);
    SharedSlice(t, u, end, p, end);
    SkipExactly(u, pos, t[pos..p]);
  }

  /** A successful parse of an object, array or string reads nothing behind its end. */
  lemma ParseIsLocal(t: Text, u: Text, pos: nat, path: Path)
    requires pos <= |t| && Opens(t, pos) && Parse(t, pos, path).Some?
    requires var end := Parse(t, pos, path).value.end; end <= |u| && t[..end] == u[..end]
    ensures Parse(u, pos, path) == Parse(t, pos, path)
  {
    hide Parse, Render, Value, Leaves, Keys, Read, Valid, SkipSpace, Placed, At;
    var c := SoundAtRendering(t, pos, path);
    ReadEnd(c, SkipSpace(t, pos), path);
    NonEmpty(c);
    SharedPrefix(t, u, pos, Parse(t, pos, path).value.end, Render(c));
    RenderingParses(u, pos, path, c);
  }

  lemma SkipStops(t: Text, pos: nat)
    requires pos <= |t|
    ensures var p := SkipSpace(t, pos); pos <= p <= |t| && (p < |t| ==> !Space(t[p])) && AllSpace(t[pos..p])
  {
  }

  lemma NonEmpty(c: Cst)
    requires Valid(c)
    ensures Render(c) != []
  {
    hide AllSpace;
    if c.CNumber? { assert c.n.whole != []; }
  }

  lemma {:induction false} MembersEndInBrace(c: CMembers)
    ensures RenderMembers(c) != [] && RenderMembers(c)[|RenderMembers(c)| - 1] == '}'
    decreases c
  {
    hide Render, Quoted;
    if c.MoreMembers? { MembersEndInBrace(c.rest); }
  }

  /** An accepted object ends with its closing brace. */
  lemma ObjectEndsInBrace(t: Text, pos: nat, path: Path)
    requires pos < |t| && t[pos] == '{' && Parse(t, pos, path).Some?
    ensures var end := Parse(t, pos, path).value.end; end > 0 && t[end - 1] == '}'
  {
    hide Parse, RenderMembers, Value, Leaves, Keys, Read, Placed, At;
    var c := SoundAtRendering(t, pos, path);
    var end := Parse(t, pos, path).value.end;
    ReadEnd(c, pos, path);
    PlacedIsRendered(t, pos, c);
    FirstChar(t, pos, c);
    if c.CObj? { MembersEndInBrace(c.members); }
    LastAt(t, pos, Render(c));
  }

  lemma LastAt(t: Text, pos: nat, s: Text)
    requires At(t, pos, s) && s != []
    ensures pos + |s| <= |t| && t[pos + |s| - 1] == s[|s| - 1]
  {
    assert t[pos..pos + |s|][|s| - 1] == s[|s| - 1];
  }

  // ----- Strings, with code points written out -----

  /** Behind its blanks, a quoted string parses to what the string scanner reads, and its only leaf stands between the quotes. */
  lemma StringParses(t: Text, pos: nat, path: Path, ps: seq<nat>, end: nat)
    requires pos <= |t| && SkipSpace(t, pos) < |t| && t[SkipSpace(t, pos)] as int == 0x22
    requires end > 0
    ensures Parse(t, pos, path) == Some(Parsed(Str(ps), end, [Leaf(path, Span(SkipSpace(t, pos) + 1, end - 1))], [])) <==>
      ScanString(t, SkipSpace(t, pos) + 1) == Some(Scanned(ps, end))
  {
    hide SkipSpace, ScanString;
  }

  lemma NothingToSkip(t: Text, pos: nat)
    requires pos < |t| && !Space(t[pos])
    ensures SkipSpace(t, pos) == pos
  {
  }

  /** Section 7 of RFC 8259: the character behind the backslash and the code point it stands for. */
  const ESCAPES: map<char, nat> :=
    map['"' := 0x22, '\\' := 0x5C, '/' := 0x2F, 'b' := 0x08, 'f' := 0x0C, 'n' := 0x0A, 'r' := 0x0D, 't' := 0x09]

  /** A string of one such escape parses to that one code point; a string of any other one-letter escape is refused. */
  lemma EscapeParses(t: Text, pos: nat, path: Path, c: char)
    requires At(t, pos, ['"', '\\', c, '"']) && c != 'u'
    ensures pos <= |t|
    ensures Parse(t, pos, path) == if c in ESCAPES
      then Some(Parsed(Str([ESCAPES[c]]), pos + 4, [Leaf(path, Span(pos + 1, pos + 3))], []))
      else None
  {
    hide ScanString;
    assert t[pos..pos + 4][0] == t[pos] && t[pos..pos + 4][1] == t[pos + 1] && t[pos..pos + 4][2] == t[pos + 2];
    assert t[pos..pos + 4][3] == t[pos + 3];
    NothingToSkip(t, pos);
    OneLetterEscapes(t, pos + 1);
    PlainCharacters(t, pos + 3);
    if c in ESCAPES {
      assert [ESCAPES[c]] + [] == [ESCAPES[c]];
      StringParses(t, pos, path, [ESCAPES[c]], pos + 4);
    }
  }

  /** A string of one surrogate pair parses to the code point above 0xFFFF that the pair encodes. */
  lemma PairParses(t: Text, pos: nat, path: Path, n: nat)
    requires pos + 14 <= |t| && t[pos] == '"' && t[pos + 13] == '"' && 0x10000 <= n <= 0x10FFFF
    requires EscapeOf(t, pos + 1, 0xD800 + (n - 0x10000) / 0x400) && EscapeOf(t, pos + 7, 0xDC00 + (n - 0x10000) % 0x400)
    ensures Parse(t, pos, path) == Some(Parsed(Str([n]), pos + 14, [Leaf(path, Span(pos + 1, pos + 13))], []))
  {
    hide ScanString, EscapeOf;
    NothingToSkip(t, pos);
    PairEscape(t, pos + 1, n);
    PlainCharacters(t, pos + 13);
    assert [n] + [] == [n];
    StringParses(t, pos, path, [n], pos + 14);
  }

  // ----- Order of the spans -----

  /** Keys and leaves lie inside `lo..hi`, each list is in order, and no two spans touch. */
  ghost predicate Layout(keys: seq<Span>, leaves: seq<Leaf>, lo: nat, hi: nat) {
    && (forall i :: 0 <= i < |keys| ==> lo <= keys[i].start <= keys[i].end <= hi)
    && (forall i :: 0 <= i < |leaves| ==> lo <= leaves[i].span.start <= leaves[i].span.end <= hi)
    && (forall i, j :: 0 <= i < j < |keys| ==> keys[i].end < keys[j].start)
    && (forall i, j :: 0 <= i < j < |leaves| ==> leaves[i].span.end < leaves[j].span.start)
    && (forall i, j :: 0 <= i < |keys| && 0 <= j < |leaves| ==>
          keys[i].end < leaves[j].span.start || leaves[j].span.end < keys[i].start)
  }

  lemma LayoutAppend(k1: seq<Span>, l1: seq<Leaf>, lo: nat, m: nat, k2: seq<Span>, l2: seq<Leaf>, n: nat, hi: nat)
    requires Layout(k1, l1, lo, m) && Layout(k2, l2, n, hi) && lo <= m < n <= hi
    ensures Layout(k1 + k2, l1 + l2, lo, hi)
  {
  }

  lemma OneLeaf(leaf: Leaf, lo: nat, hi: nat)
    requires lo <= leaf.span.start <= leaf.span.end <= hi
    ensures Layout([], [leaf], lo, hi)
  {
  }

  lemma {:induction false} SpansLaidOut(c: Cst, at: nat, path: Path)
    ensures Layout(Keys(c, at), Leaves(c, at, path), at, at + |Render(c)|)
    decreases c
  {
    hide Layout, RenderItems, RenderMembers, ItemsLeaves, MembersLeaves, ItemsKeys, MembersKeys, RenderPieces, RenderNumber;
    if c.CArr? {
      ItemsLaidOut(c.items, at + 1, path, 0);
      Widen(Keys(c, at), Leaves(c, at, path), at + 1, at + |Render(c)|, at, at + |Render(c)|);
    } else if c.CObj? {
      MembersLaidOut(c.members, at + 1, path);
      Widen(Keys(c, at), Leaves(c, at, path), at + 1, at + |Render(c)|, at, at + |Render(c)|);
    } else if c.CEmptyArr? || c.CEmptyObj? {
      NoSpans(at, at + |Render(c)|);
    } else {
      OneLeaf(Leaves(c, at, path)[0], at, at + |Render(c)|);
    }
  }

  lemma NoSpans(lo: nat, hi: nat)
    ensures Layout([], [], lo, hi)
  {
  }

  lemma {:induction false} ItemsLaidOut(c: CItems, pos: nat, path: Path, index: nat)
    ensures Layout(ItemsKeys(c, pos), ItemsLeaves(c, pos, path, index), pos, pos + |RenderItems(c)|)
    decreases c
  {
    hide Layout, Render, RenderItems, Leaves, Keys;
    ItemsWidth(c);
    var v := pos + |c.before|;
    var e := v + |Render(c.value)|;
    var q := e + |c.after| + 1;
    var keys, leaves := Keys(c.value, v), Leaves(c.value, v, path + [Index(index)]);
    SpansLaidOut(c.value, v, path + [Index(index)]);
    if c.LastItem? {
      assert keys + [] == keys && leaves + [] == leaves;
      Widen(keys, leaves, v, e, pos, q);
    } else {
      ItemsLaidOut(c.rest, q, path, index + 1);
      Widen(keys, leaves, v, e, pos, e);
      LayoutAppend(keys, leaves, pos, e, ItemsKeys(c.rest, q), ItemsLeaves(c.rest, q, path, index + 1), q,
                   pos + |RenderItems(c)|);
    }
  }

  lemma Widen(keys: seq<Span>, leaves: seq<Leaf>, lo: nat, hi: nat, lower: nat, higher: nat)
    requires Layout(keys, leaves, lo, hi) && lower <= lo && hi <= higher
    ensures Layout(keys, leaves, lower, higher)
  {
  }

  /** A key and its value, in front of the rest. */
  lemma KeyAndValue(key: Span, keys: seq<Span>, leaves: seq<Leaf>, pos: nat, v: nat, e: nat)
    requires pos <= key.start <= key.end < v <= e && Layout(keys, leaves, v, e)
    ensures Layout([key] + keys, leaves, pos, e)
  {
    hide Layout;
    OneKey(key, pos);
    LayoutAppend([key], [], pos, key.end, keys, leaves, v, e);
    assert [] + leaves == leaves;
  }

  lemma MemberOffsets(c: CMembers, pos: nat)
    ensures var key, v := KeySpan(c, pos), MemberValueAt(c, pos); var e := v + |Render(c.value)|;
      && pos <= key.start <= key.end < v
      && pos + |RenderMembers(c)| == e + |c.after| + 1 + if c.LastMember? then 0 else |RenderMembers(c.rest)|
  {
    hide Render, RenderMembers, RenderPieces;
    MembersWidth(c);
  }

  lemma MemberSpansStep(c: CMembers, pos: nat, path: Path)
    ensures var v := MemberValueAt(c, pos); var q := v + |Render(c.value)| + |c.after| + 1;
      && MembersKeys(c, pos)
         == [KeySpan(c, pos)] + (Keys(c.value, v) + if c.LastMember? then [] else MembersKeys(c.rest, q))
      && MembersLeaves(c, pos, path)
         == Leaves(c.value, v, path + [Key(KeyName(c))]) + if c.LastMember? then [] else MembersLeaves(c.rest, q, path)
  {
    hide Render, Leaves, Keys, KeyName, KeySpan, MemberValueAt;
  }

  lemma {:induction false} MembersLaidOut(c: CMembers, pos: nat, path: Path)
    ensures Layout(MembersKeys(c, pos), MembersLeaves(c, pos, path), pos, pos + |RenderMembers(c)|)
    decreases c
  {
    hide Layout, Render, RenderMembers, Leaves, Keys, RenderPieces, PiecesValue, KeyName, KeySpan, MemberValueAt,
         MembersKeys, MembersLeaves;
    MemberOffsets(c, pos);
    MemberSpansStep(c, pos, path);
    var v := MemberValueAt(c, pos);
    var e := v + |Render(c.value)|;
    var q := e + |c.after| + 1;
    var key, step := KeySpan(c, pos), path + [Key(KeyName(c))];
    var keys, leaves := Keys(c.value, v), Leaves(c.value, v, step);
    SpansLaidOut(c.value, v, step);
    KeyAndValue(key, keys, leaves, pos, v, e);
    if c.LastMember? {
      assert keys + [] == keys && leaves + [] == leaves;
      Widen([key] + keys, leaves, pos, e, pos, q);
    } else {
      MembersLaidOut(c.rest, q, path);
      LayoutAppend([key] + keys, leaves, pos, e, MembersKeys(c.rest, q), MembersLeaves(c.rest, q, path), q,
                   pos + |RenderMembers(c)|);
      assert [key] + (keys + MembersKeys(c.rest, q)) == [key] + keys + MembersKeys(c.rest, q);
    }
  }

  lemma OneKey(key: Span, lo: nat)
    requires lo <= key.start <= key.end
    ensures Layout([key], [], lo, key.end)
  {
  }

  /** Whatever is parsed, its spans are in order, apart, and inside the value. */
  lemma ParsedSpansInOrder(t: Text, pos: nat, path: Path)
    requires pos <= |t| && Parse(t, pos, path).Some?
    ensures var r := Parse(t, pos, path).value; Layout(r.keys, r.leaves, SkipSpace(t, pos), r.end)
  {
    hide Parse, Layout, Render, Value, Leaves, Keys, Placed;
    var c := ParseSound(t, pos, path);
    SpansLaidOut(c, SkipSpace(t, pos), path);
  }

  // ----- Leaves and scalars -----

  function Lookup(v: Json, path: Path): Option<Json>
    decreases |path|
  {
    if path == [] then Some(v)
    else if v.Obj? && path[0].Key? && path[0].name in v.fields then Lookup(v.fields[path[0].name], path[1..])
    else if v.Arr? && path[0].Index? && path[0].i < |v.items| then Lookup(v.items[path[0].i], path[1..])
    else None
  }

  predicate Scalar(v: Json) { !v.Obj? && !v.Arr? }

  /** The text of a scalar, without the quotes of a string, decodes to it. */
  predicate Decodes(s: Text, v: Json) {
    if v.Str? then ScanString(s + ['"'], 0) == Some(Scanned(v.s, |s| + 1))
    else s != [] && ScanPrimitive(s, 0) == Some(Scanned(v, |s|))
  }

  /** The leaf's path leads from `v`, which stands at `base`, to the scalar that its characters decode to. */
  ghost predicate LeafReads(t: Text, v: Json, base: Path, leaf: Leaf) {
    && |base| <= |leaf.path| && leaf.path[..|base|] == base
    && leaf.span.start <= leaf.span.end <= |t|
    && var x := Lookup(v, leaf.path[|base|..]);
    && x.Some? && Scalar(x.value) && Decodes(t[leaf.span.start..leaf.span.end], x.value)
  }

  ghost predicate AllRead(t: Text, v: Json, base: Path, leaves: seq<Leaf>) {
    forall i :: 0 <= i < |leaves| ==> LeafReads(t, v, base, leaves[i])
  }

  lemma LeafUp(t: Text, v: Json, base: Path, step: Step, leaf: Leaf)
    requires Lookup(v, [step]).Some? && LeafReads(t, Lookup(v, [step]).value, base + [step], leaf)
    ensures LeafReads(t, v, base, leaf)
  {
    hide Decodes;
    var n := |base|;
    assert leaf.path[..n] == leaf.path[..n + 1][..n] == base;
    assert leaf.path[n..][0] == leaf.path[..n + 1][n] == step;
    assert leaf.path[n..][1..] == leaf.path[n + 1..];
    assert [step][1..] == [];
  }

  lemma AllUp(t: Text, v: Json, base: Path, step: Step, leaves: seq<Leaf>)
    requires Lookup(v, [step]).Some? && AllRead(t, Lookup(v, [step]).value, base + [step], leaves)
    ensures AllRead(t, v, base, leaves)
  {
    hide LeafReads, Lookup;
    forall i | 0 <= i < |leaves| ensures LeafReads(t, v, base, leaves[i]) { LeafUp(t, v, base, step, leaves[i]); }
  }

  /** Every member is present in `fields` under its own key. */
  ghost predicate MembersHeld(c: CMembers, used: set<seq<nat>>, fields: map<seq<nat>, Json>)
    requires ValidMembers(c, used)
  {
    && KeyName(c) in fields && fields[KeyName(c)] == Value(c.value)
    && (c.MoreMembers? ==> MembersHeld(c.rest, used + {KeyName(c)}, fields))
  }

  /** Later members leave earlier fields alone: keys never repeat. */
  lemma {:induction false} MembersKeep(c: CMembers, fields: map<seq<nat>, Json>, n: seq<nat>)
    requires ValidMembers(c, fields.Keys) && n in fields
    ensures n in MembersValue(c, fields) && MembersValue(c, fields)[n] == fields[n]
    decreases c
  {
    hide Value, Valid, PiecesValue, ValidPieces, AllSpace;
    var extended := fields[KeyName(c) := Value(c.value)];
    assert extended.Keys == fields.Keys + {KeyName(c)};
    if c.MoreMembers? { MembersKeep(c.rest, extended, n); }
  }

  lemma {:induction false} MembersAreHeld(c: CMembers, fields: map<seq<nat>, Json>)
    requires ValidMembers(c, fields.Keys)
    ensures MembersHeld(c, fields.Keys, MembersValue(c, fields))
    decreases c
  {
    hide Value, Valid, PiecesValue, ValidPieces, AllSpace;
    var extended := fields[KeyName(c) := Value(c.value)];
    assert extended.Keys == fields.Keys + {KeyName(c)};
    if c.MoreMembers? {
      MembersAreHeld(c.rest, extended);
      MembersKeep(c.rest, extended, KeyName(c));
    }
  }

  /** The leaf of a value that stands at `path` itself. */
  lemma OwnLeaf(t: Text, v: Json, path: Path, span: Span)
    requires Scalar(v) && span.start <= span.end <= |t| && Decodes(t[span.start..span.end], v)
    ensures AllRead(t, v, path, [Leaf(path, span)])
  {
    hide Decodes, Scalar;
    var leaf := Leaf(path, span);
    assert leaf.path[|path|..] == [] && leaf.path[..|path|] == path;
    assert Lookup(v, []) == Some(v);
  }

  lemma StringReadsOwn(t: Text, at: nat, path: Path, body: seq<Piece>)
    requires ValidPieces(body) && QuotedAt(t, at, body)
    ensures AllRead(t, Str(PiecesValue(body)), path, [Leaf(path, Span(at + 1, at + 1 + |RenderPieces(body)|))])
  {
    hide ScanString, At, PiecesValue, AllRead, RenderPieces;
    var s := RenderPieces(body);
    StringText(t, at, body);
    AtWhole(s + ['"']);
    StringComplete(s + ['"'], 0, body);
    OwnLeaf(t, Str(PiecesValue(body)), path, Span(at + 1, at + 1 + |s|));
  }

  lemma ScalarReads(t: Text, at: nat, path: Path, c: Cst)
    requires Valid(c) && Placed(t, at, c) && at + |Render(c)| <= |t|
    requires !c.CArr? && !c.CObj? && !c.CEmptyArr? && !c.CEmptyObj?
    ensures AllRead(t, Value(c), path, Leaves(c, at, path))
  {
    hide ScanPrimitive, ScanString, At, PiecesValue, AllRead, RenderPieces, LeafReads, ValidPieces;
    if c.CString? {
      StringReadsOwn(t, at, path, c.body);
    } else {
      PlainReadsOwn(t, at, path, c);
    }
  }

  lemma PlainReadsOwn(t: Text, at: nat, path: Path, c: Cst)
    requires Valid(c) && Placed(t, at, c) && at + |Render(c)| <= |t|
    requires c.CNull? || c.CTrue? || c.CFalse? || c.CNumber?
    ensures AllRead(t, Value(c), path, [Leaf(path, Span(at, at + |Render(c)|))])
  {
    hide ScanPrimitive, At, AllRead, Placed, Render;
    var s := Render(c);
    ScalarText(t, at, c);
    AtWhole(s);
    PlacedIsRendered(s, 0, c);
    NonEmpty(c);
    ScalarComplete(s, 0, c);
    OwnLeaf(t, Value(c), path, Span(at, at + |s|));
  }

  lemma AtWhole(s: Text)
    ensures At(s, 0, s)
  {
  }

  lemma StringText(t: Text, at: nat, body: seq<Piece>)
    requires QuotedAt(t, at, body)
    ensures at + 1 + |RenderPieces(body)| <= |t| && t[at + 1..at + 1 + |RenderPieces(body)|] == RenderPieces(body)
  {
    AtSplit(t, at + 1, RenderPieces(body), ['"']);
  }

  lemma ScalarText(t: Text, at: nat, c: Cst)
    requires Placed(t, at, c) && at + |Render(c)| <= |t|
    ensures t[at..at + |Render(c)|] == Render(c)
  {
    PlacedIsRendered(t, at, c);
  }

  lemma {:induction false} LeavesRead(t: Text, at: nat, path: Path, c: Cst)
    requires Valid(c) && Placed(t, at, c) && at + |Render(c)| <= |t|
    ensures AllRead(t, Value(c), path, Leaves(c, at, path))
    decreases c
  {
    hide LeafReads, ItemsLeaves, MembersLeaves, MembersPlaced, ItemsPlaced, ValidMembers, ValidItems, MembersValue, ItemsValue,
         RenderItems, RenderMembers;
    if c.CArr? {
      var items := ItemsValue(c.items);
      assert items[0..] == items;
      ItemsRead(t, at + 1, path, c.items, items, 0);
    } else if c.CObj? {
      var none: map<seq<nat>, Json> := map[];
      assert none.Keys == {};
      MembersAreHeld(c.members, none);
      MembersRead(t, at + 1, path, c.members, {}, MembersValue(c.members, none));
    } else if !c.CEmptyArr? && !c.CEmptyObj? {
      ScalarReads(t, at, path, c);
    }
  }

  lemma {:induction false} ItemsRead(t: Text, pos: nat, path: Path, c: CItems, items: seq<Json>, index: nat)
    requires ValidItems(c) && ItemsPlaced(t, pos, c) && pos + |RenderItems(c)| <= |t|
    requires index <= |items| && items[index..] == ItemsValue(c)
    ensures AllRead(t, Arr(items), path, ItemsLeaves(c, pos, path, index))
    decreases c
  {
    hide LeafReads, Valid, Value, Leaves, Placed, Render, RenderItems, At, AllSpace;
    ItemsWidth(c);
    var v := pos + |c.before|;
    var q := v + |Render(c.value)| + |c.after| + 1;
    var step := Index(index);
    assert items[index] == items[index..][0] == Value(c.value);
    assert [step][1..] == [];
    LeavesRead(t, v, path + [step], c.value);
    AllUp(t, Arr(items), path, step, Leaves(c.value, v, path + [step]));
    if c.MoreItems? {
      assert items[index + 1..] == items[index..][1..] == ItemsValue(c.rest);
      ItemsRead(t, q, path, c.rest, items, index + 1);
    }
  }

  lemma {:induction false} MembersRead(t: Text, pos: nat, path: Path, c: CMembers, used: set<seq<nat>>,
                                       fields: map<seq<nat>, Json>)
    requires ValidMembers(c, used) && MembersPlaced(t, pos, c) && pos + |RenderMembers(c)| <= |t|
    requires MembersHeld(c, used, fields)
    ensures AllRead(t, Obj(fields), path, MembersLeaves(c, pos, path))
    decreases c
  {
    hide LeafReads, Valid, Value, Leaves, Placed, Render, RenderMembers, At, AllSpace, QuotedAt, RenderPieces, PiecesValue,
         ValidPieces;
    MembersWidth(c);
    var v := MemberValueAt(c, pos);
    var q := v + |Render(c.value)| + |c.after| + 1;
    var step := Key(KeyName(c));
    assert [step][1..] == [];
    LeavesRead(t, v, path + [step], c.value);
    AllUp(t, Obj(fields), path, step, Leaves(c.value, v, path + [step]));
    if c.MoreMembers? { MembersRead(t, q, path, c.rest, used + {KeyName(c)}, fields); }
  }

  /** Each recorded leaf leads to exactly the scalar its characters decode to. */
  lemma ParsedLeavesRead(t: Text, pos: nat, path: Path)
    requires pos <= |t| && Parse(t, pos, path).Some?
    ensures var r := Parse(t, pos, path).value; AllRead(t, r.value, path, r.leaves)
  {
    hide Parse, AllRead, Render, Value, Leaves, Keys, Placed, Valid;
    var c := ParseSound(t, pos, path);
    LeavesRead(t, SkipSpace(t, pos), path, c);
  }

  // ----- Every scalar has exactly one leaf -----

  predicate AtLeaf(leaves: seq<Leaf>, i: nat, path: Path) { i < |leaves| && leaves[i].path == path }

  lemma {:induction false} LeafExists(c: Cst, at: nat, path: Path, suffix: Path) returns (i: nat)
    requires Valid(c) && Lookup(Value(c), suffix).Some? && Scalar(Lookup(Value(c), suffix).value)
    ensures AtLeaf(Leaves(c, at, path), i, path + suffix)
    decreases c
  {
    hide ItemsLeaves, MembersLeaves, ValidMembers, ValidItems, MembersValue, ItemsValue, RenderItems, RenderMembers, AllSpace;
    i := 0;
    if c.CArr? {
      var items := ItemsValue(c.items);
      assert items[0..] == items;
      i := ItemsLeafExists(c.items, at + 1, path, suffix, items, 0);
    } else if c.CObj? {
      var none: map<seq<nat>, Json> := map[];
      assert none.Keys == {};
      i := MembersLeafExists(c.members, at + 1, path, suffix, none);
    } else {
      assert suffix == [];
      assert path + [] == path;
    }
  }

  lemma {:induction false} ItemsLeafExists(c: CItems, pos: nat, path: Path, suffix: Path, items: seq<Json>, index: nat)
    returns (i: nat)
    requires ValidItems(c) && index <= |items| && items[index..] == ItemsValue(c)
    requires suffix != [] && suffix[0].Index? && index <= suffix[0].i
    requires Lookup(Arr(items), suffix).Some? && Scalar(Lookup(Arr(items), suffix).value)
    ensures AtLeaf(ItemsLeaves(c, pos, path, index), i, path + suffix)
    decreases c
  {
    hide Valid, Value, Leaves, Render, AllSpace, Lookup, ItemsValue, ItemsLeaves, Scalar;
    LookupStep(Arr(items), suffix);
    var v := pos + |c.before|;
    var q := v + |Render(c.value)| + |c.after| + 1;
    var front := Leaves(c.value, v, path + [Index(index)]);
    ItemsHead(c, items, index);
    ItemsLeavesStep(c, pos, path, index);
    if suffix[0].i == index {
      i := LeafExists(c.value, v, path + [Index(index)], suffix[1..]);
      assert path + [Index(index)] + suffix[1..] == path + suffix;
    } else {
      i := ItemsLeafExists(c.rest, q, path, suffix, items, index + 1);
      i := |front| + i;
    }
  }

  lemma ItemsLeavesStep(c: CItems, pos: nat, path: Path, index: nat)
    ensures var v := pos + |c.before|;
      ItemsLeaves(c, pos, path, index)
      == Leaves(c.value, v, path + [Index(index)])
         + if c.LastItem? then [] else ItemsLeaves(c.rest, v + |Render(c.value)| + |c.after| + 1, path, index + 1)
  {
    hide Leaves, Render;
  }

  lemma ItemsHead(c: CItems, items: seq<Json>, index: nat)
    requires ValidItems(c) && index <= |items| && items[index..] == ItemsValue(c)
    ensures index < |items| && items[index] == Value(c.value)
    ensures index + 1 < |items| ==> c.MoreItems? && items[index + 1..] == ItemsValue(c.rest)
  {
    hide Value, Valid, AllSpace;
    assert items[index] == items[index..][0];
    assert index + 1 < |items| ==> items[index + 1..] == items[index..][1..];
  }

  lemma LookupStep(v: Json, path: Path)
    requires Lookup(v, path).Some? && path != []
    ensures v.Obj? ==> path[0].Key? && path[0].name in v.fields && Lookup(v, path) == Lookup(v.fields[path[0].name], path[1..])
    ensures v.Arr? ==> path[0].Index? && path[0].i < |v.items| && Lookup(v, path) == Lookup(v.items[path[0].i], path[1..])
    ensures !Scalar(v)
  {
  }

  lemma {:induction false} MembersLeafExists(c: CMembers, pos: nat, path: Path, suffix: Path, fields: map<seq<nat>, Json>)
    returns (i: nat)
    requires ValidMembers(c, fields.Keys)
    requires suffix != [] && suffix[0].Key? && suffix[0].name !in fields
    requires var o := Obj(MembersValue(c, fields)); Lookup(o, suffix).Some? && Scalar(Lookup(o, suffix).value)
    ensures AtLeaf(MembersLeaves(c, pos, path), i, path + suffix)
    decreases c
  {
    hide Valid, Value, Leaves, Render, AllSpace, Lookup, PiecesValue, ValidPieces, RenderPieces;
    LookupStep(Obj(MembersValue(c, fields)), suffix);
    var step := Key(KeyName(c));
    var v := MemberValueAt(c, pos);
    var front := Leaves(c.value, v, path + [step]);
    var extended := fields[KeyName(c) := Value(c.value)];
    assert extended.Keys == fields.Keys + {KeyName(c)};
    if suffix[0] == step {
      if c.MoreMembers? { MembersKeep(c.rest, extended, KeyName(c)); }
      i := LeafExists(c.value, v, path + [step], suffix[1..]);
      assert path + [step] + suffix[1..] == path + suffix;
    } else {
      assert c.MoreMembers?;
      i := MembersLeafExists(c.rest, v + |Render(c.value)| + |c.after| + 1, path, suffix, extended);
      i := |front| + i;
    }
  }

  /** Every leaf path continues `path`. */
  ghost predicate Under(path: Path, leaves: seq<Leaf>) {
    forall i :: 0 <= i < |leaves| ==> |path| <= |leaves[i].path| && leaves[i].path[..|path|] == path
  }

  /** The steps still open to the leaves of a container: indices not yet passed, names not yet used. */
  datatype Steps = From(index: nat) | Unused(used: set<seq<nat>>) | Only(step: Step)

  predicate Allows(ok: Steps, s: Step) {
    match ok
    case From(index) => s.Index? && s.i >= index
    case Unused(used) => s.Key? && s.name !in used
    case Only(step) => s == step
  }

  /** Every leaf path continues `path` with an allowed step. */
  ghost predicate Branches(path: Path, leaves: seq<Leaf>, ok: Steps) {
    forall i :: 0 <= i < |leaves| ==>
      |path| < |leaves[i].path| && leaves[i].path[..|path|] == path && Allows(ok, leaves[i].path[|path|])
  }

  ghost predicate PathsDiffer(leaves: seq<Leaf>) {
    forall i, j :: 0 <= i < j < |leaves| ==> leaves[i].path != leaves[j].path
  }

  lemma BranchStep(path: Path, step: Step, leaves: seq<Leaf>, ok: Steps)
    requires Under(path + [step], leaves) && Allows(ok, step)
    ensures Branches(path, leaves, ok)
  {
    forall i | 0 <= i < |leaves|
      ensures |path| < |leaves[i].path| && leaves[i].path[..|path|] == path && Allows(ok, leaves[i].path[|path|])
    {
      var p := leaves[i].path;
      assert p[..|path|] == p[..|path| + 1][..|path|] == path && p[|path|] == p[..|path| + 1][|path|] == step;
    }
  }

  lemma DifferAppend(path: Path, step: Step, front: seq<Leaf>, back: seq<Leaf>, ok: Steps)
    requires Under(path + [step], front) && PathsDiffer(front) && Branches(path, back, ok) && PathsDiffer(back) && !Allows(ok, step)
    ensures PathsDiffer(front + back)
  {
    BranchStep(path, step, front, Only(step));
    forall i, j | 0 <= i < j < |front + back| ensures (front + back)[i].path != (front + back)[j].path {
      if i < |front| <= j {
        assert front[i].path[|path|] == step && Allows(ok, back[j - |front|].path[|path|]);
      }
    }
  }

  lemma BranchesAppend(path: Path, front: seq<Leaf>, back: seq<Leaf>, ok: Steps)
    requires Branches(path, front, ok) && Branches(path, back, ok)
    ensures Branches(path, front + back, ok)
  {
  }

  lemma BranchesUnder(path: Path, leaves: seq<Leaf>, ok: Steps)
    requires Branches(path, leaves, ok)
    ensures Under(path, leaves)
  {
  }

  lemma Loosen(path: Path, leaves: seq<Leaf>, ok: Steps, also: Steps)
    requires Branches(path, leaves, ok) && forall s :: Allows(ok, s) ==> Allows(also, s)
    ensures Branches(path, leaves, also)
  {
  }

  lemma {:induction false} LeafPathsDiffer(c: Cst, at: nat, path: Path)
    requires Valid(c)
    ensures Under(path, Leaves(c, at, path)) && PathsDiffer(Leaves(c, at, path))
    decreases c
  {
    hide ItemsLeaves, MembersLeaves, ValidMembers, ValidItems, RenderItems, RenderMembers, AllSpace, Branches;
    if c.CArr? {
      ItemPathsDiffer(c.items, at + 1, path, 0);
      BranchesUnder(path, Leaves(c, at, path), From(0));
    } else if c.CObj? {
      MemberPathsDiffer(c.members, at + 1, path, {});
      BranchesUnder(path, Leaves(c, at, path), Unused({}));
    }
  }

  lemma {:induction false} ItemPathsDiffer(c: CItems, pos: nat, path: Path, index: nat)
    requires ValidItems(c)
    ensures Branches(path, ItemsLeaves(c, pos, path, index), From(index))
    ensures PathsDiffer(ItemsLeaves(c, pos, path, index))
    decreases c
  {
    hide Valid, Leaves, Render, AllSpace, Branches, PathsDiffer, Under;
    var v := pos + |c.before|;
    var step := Index(index);
    var front := Leaves(c.value, v, path + [step]);
    var here := From(index);
    LeafPathsDiffer(c.value, v, path + [step]);
    BranchStep(path, step, front, here);
    if c.LastItem? {
      assert front + [] == front;
    } else {
      var q := v + |Render(c.value)| + |c.after| + 1;
      var later := From(index + 1);
      var back := ItemsLeaves(c.rest, q, path, index + 1);
      ItemPathsDiffer(c.rest, q, path, index + 1);
      Loosen(path, back, later, here);
      BranchesAppend(path, front, back, here);
      DifferAppend(path, step, front, back, later);
    }
  }

  lemma {:induction false} MemberPathsDiffer(c: CMembers, pos: nat, path: Path, used: set<seq<nat>>)
    requires ValidMembers(c, used)
    ensures Branches(path, MembersLeaves(c, pos, path), Unused(used))
    ensures PathsDiffer(MembersLeaves(c, pos, path))
    decreases c
  {
    hide Valid, Leaves, Render, AllSpace, Branches, PathsDiffer, Under, PiecesValue, ValidPieces, RenderPieces;
    var v := MemberValueAt(c, pos);
    var step := Key(KeyName(c));
    var front := Leaves(c.value, v, path + [step]);
    var here := Unused(used);
    LeafPathsDiffer(c.value, v, path + [step]);
    BranchStep(path, step, front, here);
    if c.LastMember? {
      assert front + [] == front;
    } else {
      var q := v + |Render(c.value)| + |c.after| + 1;
      var more := used + {KeyName(c)};
      var later := Unused(more);
      var back := MembersLeaves(c.rest, q, path);
      MemberPathsDiffer(c.rest, q, path, more);
      Loosen(path, back, later, here);
      BranchesAppend(path, front, back, here);
      DifferAppend(path, step, front, back, later);
    }
  }

  /** The value's scalars and the recorded leaves correspond one to one. */
  lemma EveryScalarHasOneLeaf(t: Text, pos: nat, path: Path, suffix: Path) returns (i: nat)
    requires pos <= |t| && Parse(t, pos, path).Some?
    requires var x := Lookup(Parse(t, pos, path).value.value, suffix); x.Some? && Scalar(x.value)
    ensures var leaves := Parse(t, pos, path).value.leaves;
      AtLeaf(leaves, i, path + suffix) && forall j: nat :: AtLeaf(leaves, j, path + suffix) ==> j == i
  {
    hide Parse, Render, Value, Leaves, Keys, Placed, Valid, Lookup, Under;
    var c := ParseSound(t, pos, path);
    i := LeafExists(c, SkipSpace(t, pos), path, suffix);
    LeafPathsDiffer(c, SkipSpace(t, pos), path);
  }
}
