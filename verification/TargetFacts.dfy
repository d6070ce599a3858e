/** What a successful mapping guarantees, when it must fail, and why later text does not move earlier targets. */
module TargetFacts {
  import opened Wrappers
  import opened JsonText
  import opened JsonGrammar
  import opened JsonSpans
  import opened JsonFacts
  import opened ActionTargets

  // ----- Action scalars, by the names on their paths -----

  /** A name is its code points. */
  lemma NameIsCodePoints(s: string)
    ensures |Name(s)| == |s| && forall i :: 0 <= i < |s| ==> Name(s)[i] == s[i] as int
  {
  }

  lemma NamesDiffer(a: string, b: string)
    ensures Name(a) == Name(b) ==> a == b
  {
    if Name(a) == Name(b) {
      forall i | 0 <= i < |a| ensures a[i] == b[i] { assert Name(a)[i] == Name(b)[i]; }
    }
  }

  /** The scalars an action is made of: the single action of CrystalGym; the tool and its arguments of MADE, except anything
      under a rationale. */
  predicate ActionPath(path: Path, benchmark: Benchmark) {
    if benchmark == CrystalGym then path == [Key(Name("action"))]
    else
      || path == [Key(Name("tool"))]
      || (path != [] && path[0] == Key(Name("arguments")) && Key(Name("rationale")) !in path)
  }

  lemma SemanticIsActionPath(path: Path, benchmark: Benchmark)
    ensures Semantic(path, benchmark) <==> ActionPath(path, benchmark)
  {
    hide Name;
    NamesDiffer("rationale", "action");
    NamesDiffer("rationale", "tool");
    NamesDiffer("rationale", "arguments");
  }

  // ----- The pieces of a successful mapping -----

  lemma {:induction false} SelectedLeaves(leaves: seq<Leaf>, benchmark: Benchmark)
    ensures forall l :: l in Selected(leaves, benchmark) <==>
      l in leaves && Semantic(l.path, benchmark) && l.span.start < l.span.end
  {
    if leaves != [] {
      SelectedLeaves(leaves[1..], benchmark);
      assert leaves == [leaves[0]] + leaves[1..];
    }
  }

  lemma {:induction false} UnselectedSpans(leaves: seq<Leaf>, benchmark: Benchmark)
    ensures forall l :: l in leaves && !Semantic(l.path, benchmark) ==> l.span in Unselected(leaves, benchmark)
  {
    if leaves != [] { UnselectedSpans(leaves[1..], benchmark); }
  }

  lemma {:induction false} InWanted(values: seq<Leaf>, p: nat)
    ensures p in Wanted(values) <==> exists l :: l in values && l.span.start <= p < l.span.end
  {
    if values != [] {
      InWanted(values[1..], p);
      assert values == [values[0]] + values[1..];
    }
  }

  /** All value characters are characters of the scanned text. */
  lemma ValuesInText(decode: Decoder, e: Emission)
    requires Guard(e).Pass? && MappingOf(decode, e).Returned?
    ensures var m := MappingOf(decode, e).value;
      && (forall p :: p in Wanted(m.values) ==> p < |decode(m.ids)|)
      && (m.values != [] ==> Wanted(m.values) != {})
  {
    hide Visible, Matches, IsMatch, Parse, Semantic, Wanted, Layout, Selected;
    var l := Located(decode, e).value;
    var m := MappingOf(decode, e).value;
    var r := ParsedAt(l.0, l.1, e.benchmark, e.action.value);
    LeavesInside(l.0, l.1, r);
    SelectedLeaves(r.leaves, e.benchmark);
    forall p | p in Wanted(m.values) ensures p < |l.0| {
      InWanted(m.values, p);
    }
    if m.values != [] {
      assert m.values[0] in m.values;
      InWanted(m.values, m.values[0].span.start);
    }
  }

  lemma ParsedAt(scan: Text, start: nat, benchmark: Benchmark, action: map<seq<nat>, Json>) returns (r: Parsed)
    requires start < |scan| && IsMatch(scan, start, benchmark, action)
    ensures scan[start] == '{' && Parse(scan, start, []) == Some(r) && r.end <= |scan|
  {
    r := Parse(scan, start, []).value;
  }

  lemma LeavesInside(scan: Text, start: nat, r: Parsed)
    requires start <= |scan| && Parse(scan, start, []) == Some(r)
    ensures r.end <= |scan| && forall l :: l in r.leaves ==> l.span.start <= l.span.end <= r.end
  {
    hide Parse;
    ParsedSpansInOrder(scan, start, []);
  }

  // ----- A mapping that is built is valid -----

  predicate BuilderError(error: TargetError) {
    error in {UnknownBenchmark, NoParsedAction, BadPromptCount, BadMask, UnmappedSpecial, NoUniqueSpan, NoValues, MixedToken,
              IncompleteCoverage}
  }

  lemma AssembledValidates(decode: Decoder, e: Emission, m: Mapping, offsets: seq<nat>)
    requires 1 <= e.promptTokens < |e.ids| && m.ids == e.ids[e.promptTokens..] && m.special == e.special
    requires m.spans == TokenSpans(decode, m.ids) && offsets != [] && Ascending(offsets)
    requires forall k :: k in offsets ==> k < |m.ids| && m.spans[k].Some? && m.ids[k] !in m.special
    ensures Validate(Assembled(decode, e, m, offsets), e.ids, MaskOf(e)).Pass?
  {
    hide TokenSpans, Texts, Paths;
    PositionsFit(offsets, e.promptTokens, |e.ids|);
    var positions := Positions(offsets, e.promptTokens);
    forall i | 0 <= i < |positions| ensures e.ids[positions[i]] !in e.special {
      assert offsets[i] in offsets && e.ids[positions[i]] == m.ids[offsets[i]];
    }
    assert offsets[0] in offsets && offsets[|offsets| - 1] in offsets;
  }

  /** The immutable result always passes its own validation, which therefore adds no error of its own. */
  lemma BuilderSatisfiesValidator(decode: Decoder, e: Emission)
    ensures Targets(decode, e).Returned? ==> Validate(Targets(decode, e).value, e.ids, MaskOf(e)).Pass?
    ensures Targets(decode, e).Raised? ==> BuilderError(Targets(decode, e).error)
  {
    hide Collect, Wanted, Validate, Assembled, TokenSpans, Matches, Selected, Unselected, Parse, Overlap, Touches;
    if Guard(e).Pass? {
      MappingErrors(decode, e);
      if MappingOf(decode, e).Returned? {
        var m := MappingOf(decode, e).value;
        CollectErrors(m, |m.ids|);
        if Collect(m, |m.ids|).Returned? {
          CollectFacts(m, |m.ids|);
          var offsets := Collect(m, |m.ids|).value.offsets;
          if offsets != [] { AssembledValidates(decode, e, m, offsets); }
        }
      }
    }
  }

  /** Once the tokens are collected, only coverage decides. */
  lemma LastStage(decode: Decoder, e: Emission)
    requires Guard(e).Pass? && MappingOf(decode, e).Returned? && MappingOf(decode, e).value.values != []
    requires var m := MappingOf(decode, e).value; |m.ids| == |m.spans| && Collect(m, |m.ids|).Returned?
    ensures var m := MappingOf(decode, e).value; var c := Collect(m, |m.ids|).value;
      && (forall k :: k in c.offsets ==> k < |m.ids| && m.spans[k].Some?)
      && (c.offsets == [] || c.covered != Wanted(m.values) ==> Targets(decode, e) == Raised(IncompleteCoverage))
      && (c.offsets != [] && c.covered == Wanted(m.values) ==>
            Targets(decode, e) == Returned(Assembled(decode, e, m, c.offsets)))
  {
    hide Collect, Wanted, Validate, Assembled, TokenSpans, Matches, Selected, Unselected, Parse, Overlap, Touches;
    var m := MappingOf(decode, e).value;
    CollectFacts(m, |m.ids|);
    var offsets := Collect(m, |m.ids|).value.offsets;
    if offsets != [] { AssembledValidates(decode, e, m, offsets); }
  }

  lemma MappingErrors(decode: Decoder, e: Emission)
    requires Guard(e).Pass?
    ensures MappingOf(decode, e).Raised? ==> BuilderError(MappingOf(decode, e).error)
  {
    hide TokenSpans, Matches, Selected, Unselected, Parse;
    var ids := e.ids[e.promptTokens..];
    VisibleErrors(decode(ids), ids, TokenSpans(decode, ids), e.special, |ids|);
  }

  lemma {:induction false} VisibleErrors(text: Text, ids: seq<int>, spans: seq<Option<Span>>, special: set<int>, n: nat)
    requires n <= |ids| == |spans| && SpansFit(spans, |text|)
    ensures Visible(text, ids, spans, special, n).Raised? ==> Visible(text, ids, spans, special, n).error == UnmappedSpecial
  {
    if n > 0 { VisibleErrors(text, ids, spans, special, n - 1); }
  }

  lemma {:induction false} CollectErrors(m: Mapping, n: nat)
    requires n <= |m.ids| == |m.spans|
    ensures Collect(m, n).Raised? ==> Collect(m, n).error == MixedToken
  {
    hide Chosen, Touches, Overlap;
    if n > 0 { CollectErrors(m, n - 1); }
  }

  // ----- What is selected -----

  /** Token `k` of the completion is a target. */
  predicate Targeted(positions: seq<int>, promptTokens: int, k: nat) { promptTokens + k in positions }

  lemma PositionOf(offsets: seq<nat>, promptTokens: int, k: nat)
    ensures Targeted(Positions(offsets, promptTokens), promptTokens, k) <==> k in offsets
  {
    var positions := Positions(offsets, promptTokens);
    if k in offsets {
      var i :| 0 <= i < |offsets| && offsets[i] == k;
      assert positions[i] == promptTokens + k;
    }
    if promptTokens + k in positions {
      var i :| 0 <= i < |positions| && positions[i] == promptTokens + k;
      assert offsets[i] == k;
    }
  }

  /** The stages behind a returned result. */
  lemma Stages(decode: Decoder, e: Emission) returns (m: Mapping, c: Collected)
    requires Targets(decode, e).Returned?
    ensures Guard(e).Pass? && MappingOf(decode, e) == Returned(m)
    ensures m.ids == e.ids[e.promptTokens..] && m.special == e.special && m.spans == TokenSpans(decode, m.ids)
    ensures Collect(m, |m.ids|) == Returned(c) && c.offsets != [] && c.covered == Wanted(m.values)
    ensures (forall k :: k in c.offsets ==> k < |m.ids| && m.spans[k].Some?)
    ensures Targets(decode, e).value == Assembled(decode, e, m, c.offsets)
  {
    hide Collect, Wanted, Validate, Assembled, TokenSpans, Matches, Selected, Unselected, Parse;
    m := MappingOf(decode, e).value;
    c := Collect(m, |m.ids|).value;
    CollectFacts(m, |m.ids|);
  }

  /** A returned mapping selects exactly the plain tokens that hold a value character, reaches every value character, and
      no selected token holds a character of a key or of an unselected leaf. */
  lemma SelectionIsExact(decode: Decoder, e: Emission)
    requires Targets(decode, e).Returned?
    ensures Guard(e).Pass? && MappingOf(decode, e).Returned? && |MappingOf(decode, e).value.ids| == |MappingOf(decode, e).value.spans|
    ensures var m := MappingOf(decode, e).value; var positions := Targets(decode, e).value.spec.positions;
      && (forall k: nat :: Targeted(positions, e.promptTokens, k) <==> exists p: nat :: p in Wanted(m.values) && Bears(m, k, p))
      && (forall p: nat :: p in Wanted(m.values) ==> exists k: nat :: Targeted(positions, e.promptTokens, k) && Bears(m, k, p))
      && (forall k: nat :: Targeted(positions, e.promptTokens, k) ==>
            k < |m.ids| && m.spans[k].Some? && !Touches(m.spans[k].value, m.forbidden))
  {
    hide Collect, Wanted, Targets, TokenSpans, Touches, Bears, Chosen, MappingOf, Overlap, Guard, Gather, Texts, Paths,
         Predictions, Targeted, Positions, Ascending;
    var m, c := Stages(decode, e);
    var positions := Targets(decode, e).value.spec.positions;
    CollectFacts(m, |m.ids|);
    forall k: nat ensures Targeted(positions, e.promptTokens, k) <==> k in c.offsets {
      PositionOf(c.offsets, e.promptTokens, k);
    }
    forall k: nat ensures k in c.offsets <==> exists p: nat :: p in Wanted(m.values) && Bears(m, k, p) {
      ChosenMeansBearing(m, k);
    }
    forall p: nat | p in Wanted(m.values)
      ensures exists k: nat :: Targeted(positions, e.promptTokens, k) && Bears(m, k, p)
    {
      var k: nat :| k < |m.ids| && Bears(m, k, p);
      assert Targeted(positions, e.promptTokens, k);
    }
  }

  lemma ChosenMeansBearing(m: Mapping, k: nat)
    requires |m.ids| == |m.spans|
    ensures k < |m.ids| && Chosen(m, k) <==> exists p: nat :: p in Wanted(m.values) && Bears(m, k, p)
  {
    hide Wanted;
    if k < |m.ids| && m.spans[k].Some? {
      OverlapIsCommon(m.spans[k].value, m.values);
      if Chosen(m, k) {
        var p: nat :| p in Overlap(m.spans[k].value, m.values);
        assert p in Wanted(m.values) && Bears(m, k, p);
      }
      forall p: nat | p in Wanted(m.values) && Bears(m, k, p) ensures Chosen(m, k) {
        assert p in Overlap(m.spans[k].value, m.values);
      }
    }
  }

  /** The scored values are the action's scalars on these paths with at least one character. */
  lemma SelectedAreTheActionValues(decode: Decoder, e: Emission, path: Path)
    requires Targets(decode, e).Returned?
    ensures Guard(e).Pass? && Located(decode, e).Returned?
    ensures var l := Located(decode, e).value; var r := Parse(l.0, l.1, []).value;
      path in Targets(decode, e).value.spec.paths <==>
        && ActionPath(path, e.benchmark)
        && Lookup(r.value, path).Some? && Scalar(Lookup(r.value, path).value)
        && exists leaf :: leaf in r.leaves && leaf.path == path && leaf.span.start < leaf.span.end
  {
    hide Collect, Wanted, Validate, TokenSpans, Matches, Parse, Touches, Overlap, Gather, Texts, Predictions, Selected,
         Unselected, Lookup, Scalar, Semantic, ActionPath, Visible, IsAction;
    SemanticIsActionPath(path, e.benchmark);
    var l := Located(decode, e).value;
    var r := ParsedAt(l.0, l.1, e.benchmark, e.action.value);
    var values := MappingOf(decode, e).value.values;
    SelectedLeaves(r.leaves, e.benchmark);
    PathsOf(values, path);
    forall leaf | leaf in r.leaves ensures Lookup(r.value, leaf.path).Some? && Scalar(Lookup(r.value, leaf.path).value) {
      LeafIsScalar(l.0, l.1, r, leaf);
    }
  }

  lemma LeafIsScalar(scan: Text, start: nat, r: Parsed, leaf: Leaf)
    requires start <= |scan| && Parse(scan, start, []) == Some(r) && leaf in r.leaves
    ensures Lookup(r.value, leaf.path).Some? && Scalar(Lookup(r.value, leaf.path).value)
  {
    hide Parse, Lookup, Decodes;
    ParsedLeavesRead(scan, start, []);
    var i :| 0 <= i < |r.leaves| && r.leaves[i] == leaf;
    assert leaf.path[0..] == leaf.path;
  }

  lemma PathsOf(values: seq<Leaf>, path: Path)
    ensures path in Paths(values) <==> exists l :: l in values && l.path == path
  {
    var paths := Paths(values);
    if path in paths {
      var i :| 0 <= i < |paths| && paths[i] == path;
      assert values[i] in values;
    }
    if l :| l in values && l.path == path {
      var i :| 0 <= i < |values| && values[i] == l;
      assert paths[i] == path;
    }
  }
}
