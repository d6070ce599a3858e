/** `build_action_targets` as it runs: four loops over tokens and characters. */
module TargetBuilder {
  import opened Wrappers
  import opened JsonText
  import opened JsonGrammar
  import opened JsonSpans
  import opened JsonParser
  import opened ActionTargets

  /** A loop that raised stays raised. */
  lemma {:induction false} VisibleStaysRaised(text: Text, ids: seq<int>, spans: seq<Option<Span>>, special: set<int>,
                                              n: nat, later: nat)
    requires n <= later <= |ids| == |spans| && SpansFit(spans, |text|) && Visible(text, ids, spans, special, n).Raised?
    ensures Visible(text, ids, spans, special, later) == Visible(text, ids, spans, special, n)
    decreases later
  {
    if n < later { VisibleStaysRaised(text, ids, spans, special, n, later - 1); }
  }

  lemma {:induction false} CollectStaysRaised(m: Mapping, n: nat, later: nat)
    requires n <= later <= |m.ids| == |m.spans| && Collect(m, n).Raised?
    ensures Collect(m, later) == Collect(m, n)
    decreases later
  {
    hide Chosen, Touches, Overlap;
    if n < later { CollectStaysRaised(m, n, later - 1); }
  }

  /** The decoded spans of the emitted tokens. */
  method DecodeSpans(decode: Decoder, ids: seq<int>) returns (spans: seq<Option<Span>>)
    ensures spans == TokenSpans(decode, ids)
  {
    var text := decode(ids);
    var boundaries: seq<Option<nat>> := [Some(0)];
    for end := 1 to |ids| + 1
      invariant |boundaries| == end && forall i :: 0 <= i < end ==> boundaries[i] == Boundary(decode, ids, i)
    {
      var prefix := decode(ids[..end]);
      assert end == |ids| ==> ids[..end] == ids;
      boundaries := boundaries + [if prefix <= text then Some(|prefix|) else None];
    }
    spans := seq(|ids|, i requires 0 <= i < |ids| => SpanOf(boundaries[i], boundaries[i + 1]));
  }

  /** The text with special tokens replaced by spaces. */
  method BlankSpecials(text: Text, ids: seq<int>, spans: seq<Option<Span>>, special: set<int>)
    returns (r: Outcome<Text, TargetError>)
    requires |ids| == |spans| && SpansFit(spans, |text|)
    ensures r == Visible(text, ids, spans, special, |ids|)
  {
    hide Blanked;
    var visible := text;
    for i := 0 to |ids|
      invariant Visible(text, ids, spans, special, i) == Returned(visible)
    {
      if ids[i] in special {
        if spans[i].None? {
          VisibleStaysRaised(text, ids, spans, special, i + 1, |ids|);
          return Raised(UnmappedSpecial);
        }
        visible := Blanked(visible, spans[i].value);
      }
    }
    r := Returned(visible);
  }

  /** Every brace is tried; exactly one position may carry the parsed action. */
  method FindAction(scan: Text, benchmark: Benchmark, action: map<seq<nat>, Json>)
    returns (found: nat, start: nat, leaves: seq<Leaf>, keys: seq<Span>)
    ensures found == |Matches(scan, |scan|, benchmark, action)|
    ensures found == 1 ==>
      && Matches(scan, |scan|, benchmark, action) == [start] && start < |scan| && IsMatch(scan, start, benchmark, action)
      && leaves == Parse(scan, start, []).value.leaves && keys == Parse(scan, start, []).value.keys
  {
    hide Parse, IsAction;
    found, start, leaves, keys := 0, 0, [], [];
    for i := 0 to |scan|
      invariant found == |Matches(scan, i, benchmark, action)|
      invariant found == 1 ==>
        && Matches(scan, i, benchmark, action) == [start] && start < |scan| && IsMatch(scan, start, benchmark, action)
        && leaves == Parse(scan, start, []).value.leaves && keys == Parse(scan, start, []).value.keys
    {
      if scan[i] == '{' {
        var parser := new JSONSpans(scan);
        var r := parser.ParseValue(i, []);
        if r.Returned? && IsAction(r.value.value, benchmark, action) {
          found, start, leaves, keys := found + 1, i, parser.leaves, parser.keys;
        }
      }
    }
  }

  /** The tokens that overlap value characters. */
  method CollectTokens(m: Mapping) returns (r: Outcome<Collected, TargetError>)
    requires |m.ids| == |m.spans|
    ensures r == Collect(m, |m.ids|)
  {
    hide Overlap, Touches;
    var offsets: seq<nat>, covered: set<nat> := [], {};
    for i := 0 to |m.ids|
      invariant Collect(m, i) == Returned(Collected(offsets, covered))
    {
      if m.ids[i] !in m.special && m.spans[i].Some? {
        var overlap := Overlap(m.spans[i].value, m.values);
        if overlap != {} {
          if Touches(m.spans[i].value, m.forbidden) {
            CollectStaysRaised(m, i + 1, |m.ids|);
            return Raised(MixedToken);
          }
          offsets, covered := offsets + [i], covered + overlap;
        }
      }
    }
    r := Returned(Collected(offsets, covered));
  }

  method Build(decode: Decoder, e: Emission) returns (r: Outcome<ActionTargets, TargetError>)
    ensures r == Targets(decode, e)
  {
    hide Parse, IsMatch, Collect, Matches, Visible, TokenSpans, Selected, Unselected, Wanted, Assembled, Validate;
    :- Guard(e);
    var ids := e.ids[e.promptTokens..];
    var spans := DecodeSpans(decode, ids);
    var text := decode(ids);
    var scan :- BlankSpecials(text, ids, spans, e.special);
    var found, start, leaves, keys := FindAction(scan, e.benchmark, e.action.value);
    if found != 1 { return Raised(NoUniqueSpan); }
    var values := Selected(leaves, e.benchmark);
    if values == [] { return Raised(NoValues); }
    var m := Mapping(ids, spans, e.special, values, keys + Unselected(leaves, e.benchmark));
    var c :- CollectTokens(m);
    if c.offsets == [] || c.covered != Wanted(values) { return Raised(IncompleteCoverage); }
    CollectFacts(m, |ids|);
    var t := Assembled(decode, e, m, c.offsets);
    :- Validate(t, e.ids, MaskOf(e));
    r := Returned(t);
  }
}
