/** Concatenative decoders: the scanned text is spelled token by token, coverage fails for one reason only, and later
    text that closes no brace changes nothing. */
module TargetStability {
  import opened Wrappers
  import opened JsonText
  import opened JsonGrammar
  import opened JsonSpans
  import opened JsonFacts
  import opened ActionTargets
  import opened TargetFacts

  ghost predicate Concatenative(decode: Decoder) {
    forall a: seq<int>, b: seq<int> :: decode(a + b) == decode(a) + decode(b)
  }

  lemma DecodesNothing(decode: Decoder)
    requires Concatenative(decode)
    ensures decode([]) == []
  {
    assert decode([] + []) == decode([]) + decode([]);
  }

  lemma DecodeSplit(decode: Decoder, ids: seq<int>, i: nat)
    requires Concatenative(decode) && i <= |ids|
    ensures decode(ids) == decode(ids[..i]) + decode(ids[i..])
  {
    assert ids == ids[..i] + ids[i..];
  }

  /** Every token then has a span, and the spans tile the text. */
  lemma TokensTile(decode: Decoder, ids: seq<int>, i: nat)
    requires Concatenative(decode) && i < |ids|
    ensures TokenSpan(decode, ids, i) == Some(Span(|decode(ids[..i])|, |decode(ids[..i + 1])|))
    ensures decode(ids[..i + 1]) == decode(ids[..i]) + decode([ids[i]])
  {
    assert ids[..i + 1] == ids[..i] + [ids[i]];
    DecodeSplit(decode, ids, i);
    DecodeSplit(decode, ids, i + 1);
    DecodesNothing(decode);
    assert ids[..0] == [];
  }

  /** Token by token, with special tokens as spaces. */
  function Spelled(decode: Decoder, ids: seq<int>, special: set<int>): Text {
    if ids == [] then []
    else
      var last := ids[|ids| - 1];
      Spelled(decode, ids[..|ids| - 1], special) + if last in special then Blanks(|decode([last])|) else decode([last])
  }

  lemma {:induction false} SpelledLength(decode: Decoder, ids: seq<int>, special: set<int>)
    requires Concatenative(decode)
    ensures |Spelled(decode, ids, special)| == |decode(ids)|
  {
    if ids == [] {
      DecodesNothing(decode);
    } else {
      var n := |ids| - 1;
      SpelledLength(decode, ids[..n], special);
      TokensTile(decode, ids, n);
      assert ids[..n + 1] == ids;
    }
  }

  /** The scan of one more token. */
  lemma VisibleStep(text: Text, ids: seq<int>, spans: seq<Option<Span>>, special: set<int>, n: nat, before: Text, last: Text,
                    after: Text)
    requires 0 < n <= |ids| == |spans| && SpansFit(spans, |text|)
    requires Visible(text, ids, spans, special, n - 1) == Returned(before + (last + after))
    requires spans[n - 1] == Some(Span(|before|, |before| + |last|))
    ensures Visible(text, ids, spans, special, n)
      == Returned(before + (if ids[n - 1] in special then Blanks(|last|) else last) + after)
  {
    hide Blanked, Blanks;
    BlankMiddle(before, last, after);
    assert before + last + after == before + (last + after);
  }

  lemma SpelledStep(decode: Decoder, ids: seq<int>, special: set<int>, n: nat)
    requires 0 < n <= |ids|
    ensures var last := decode([ids[n - 1]]);
      Spelled(decode, ids[..n], special)
      == Spelled(decode, ids[..n - 1], special) + if ids[n - 1] in special then Blanks(|last|) else last
  {
    assert ids[..n][..n - 1] == ids[..n - 1];
  }

  /** Blanking the special tokens in place spells the text. */
  lemma {:induction false} VisibleIsSpelled(decode: Decoder, ids: seq<int>, special: set<int>, n: nat)
    requires Concatenative(decode) && n <= |ids|
    ensures Visible(decode(ids), ids, TokenSpans(decode, ids), special, n)
      == Returned(Spelled(decode, ids[..n], special) + decode(ids[n..]))
    decreases n, 1
  {
    if n == 0 {
      assert ids[..0] == [] && ids[0..] == ids;
      assert Spelled(decode, ids[..0], special) + decode(ids) == decode(ids);
    } else {
      VisibleMore(decode, ids, special, n);
    }
  }

  lemma {:induction false} VisibleMore(decode: Decoder, ids: seq<int>, special: set<int>, n: nat)
    requires Concatenative(decode) && 0 < n <= |ids|
    ensures Visible(decode(ids), ids, TokenSpans(decode, ids), special, n)
      == Returned(Spelled(decode, ids[..n], special) + decode(ids[n..]))
    decreases n, 0
  {
    hide TokenSpan, Blanks, Visible, Spelled;
    VisibleIsSpelled(decode, ids, special, n - 1);
    TokensTile(decode, ids, n - 1);
    SpelledLength(decode, ids[..n - 1], special);
    SpelledStep(decode, ids, special, n);
    var before, last, after := Spelled(decode, ids[..n - 1], special), decode([ids[n - 1]]), decode(ids[n..]);
    assert ids[n - 1..] == [ids[n - 1]] + ids[n..];
    VisibleStep(decode(ids), ids, TokenSpans(decode, ids), special, n, before, last, after);
  }

  lemma BlankMiddle(before: Text, last: Text, after: Text)
    ensures Blanked(before + (last + after), Span(|before|, |before| + |last|)) == before + Blanks(|last|) + after
  {
  }

  lemma ScanIsSpelled(decode: Decoder, ids: seq<int>, special: set<int>)
    requires Concatenative(decode)
    ensures Visible(decode(ids), ids, TokenSpans(decode, ids), special, |ids|) == Returned(Spelled(decode, ids, special))
  {
    VisibleIsSpelled(decode, ids, special, |ids|);
    DecodesNothing(decode);
    assert ids[..|ids|] == ids && ids[|ids|..] == [];
    assert Spelled(decode, ids, special) + [] == Spelled(decode, ids, special);
  }

  lemma SpelledLast(decode: Decoder, ids: seq<int>, x: int, special: set<int>)
    ensures Spelled(decode, ids + [x], special)
      == Spelled(decode, ids, special) + if x in special then Blanks(|decode([x])|) else decode([x])
  {
    hide Blanks;
    assert (ids + [x])[..|ids|] == ids;
  }

  lemma {:induction false} SpelledAppend(decode: Decoder, ids: seq<int>, extra: seq<int>, special: set<int>)
    ensures Spelled(decode, ids + extra, special) == Spelled(decode, ids, special) + Spelled(decode, extra, special)
    decreases |extra|
  {
    hide Spelled, Blanks;
    if extra == [] {
      assert ids + extra == ids;
      SpelledNothing(decode, special);
    } else {
      var front, x := extra[..|extra| - 1], extra[|extra| - 1];
      assert extra == front + [x] && ids + extra == ids + front + [x];
      SpelledAppend(decode, ids, front, special);
      SpelledLast(decode, ids + front, x, special);
      SpelledLast(decode, front, x, special);
    }
  }

  lemma SpelledNothing(decode: Decoder, special: set<int>)
    ensures Spelled(decode, [], special) == []
  {
  }

  // ----- Coverage -----

  /** Character `p` lies in a special token. */
  predicate InSpecial(m: Mapping, k: nat, p: nat)
    requires |m.ids| == |m.spans|
  {
    k < |m.ids| && m.ids[k] in m.special && m.spans[k].Some? && m.spans[k].value.start <= p < m.spans[k].value.end
  }

  lemma {:induction false} TokenHolding(decode: Decoder, ids: seq<int>, n: nat, p: nat) returns (k: nat)
    requires Concatenative(decode) && n <= |ids| && p < |decode(ids[..n])|
    ensures k < n && |decode(ids[..k])| <= p < |decode(ids[..k + 1])|
    decreases n
  {
    DecodesNothing(decode);
    assert ids[..0] == [];
    if n > 0 && p < |decode(ids[..n - 1])| {
      k := TokenHolding(decode, ids, n - 1, p);
    } else {
      k := n - 1;
    }
  }

  lemma {:induction false} PrefixesGrow(decode: Decoder, ids: seq<int>, i: nat, j: nat)
    requires Concatenative(decode) && i <= j <= |ids|
    ensures |decode(ids[..i])| <= |decode(ids[..j])|
  {
    assert ids[..j] == ids[..i] + ids[i..j];
  }

  /** For a concatenative decoder, once the action is found and no token mixes values with other text, the mapping is
      incomplete exactly when a special token stands inside a value. */
  lemma IncompleteIffSpecialInside(decode: Decoder, e: Emission)
    requires Concatenative(decode) && Guard(e).Pass? && MappingOf(decode, e).Returned?
    requires MappingOf(decode, e).value.values != []
    requires Collect(MappingOf(decode, e).value, |MappingOf(decode, e).value.ids|).Returned?
    ensures |MappingOf(decode, e).value.ids| == |MappingOf(decode, e).value.spans|
    ensures Targets(decode, e) == Raised(IncompleteCoverage) <==>
      exists k: nat, p: nat :: p in Wanted(MappingOf(decode, e).value.values) && InSpecial(MappingOf(decode, e).value, k, p)
  {
    hide Collect, Wanted, TokenSpans, Matches, Selected, Unselected, Parse, Touches, Bears, InSpecial, Assembled,
         Gather, Ascending, InRange, Predictions, Visible, IsMatch, Overlap, Chosen;
    var m := MappingOf(decode, e).value;
    var c := Collect(m, |m.ids|).value;
    LastStage(decode, e);
    CollectFacts(m, |m.ids|);
    ValuesInText(decode, e);
    forall p: nat | p in Wanted(m.values)
      ensures p !in c.covered <==> exists k: nat :: InSpecial(m, k, p)
    {
      PlainOrSpecial(decode, m, p);
    }
    CoverageComplete(m, c);
  }

  lemma CoverageComplete(m: Mapping, c: Collected)
    requires |m.ids| == |m.spans| && Collect(m, |m.ids|) == Returned(c) && Wanted(m.values) != {}
    ensures c.offsets == [] || c.covered != Wanted(m.values) <==> exists p :: p in Wanted(m.values) && p !in c.covered
  {
    hide Wanted, Chosen, Touches, Overlap;
    CollectFacts(m, |m.ids|);
    if forall p :: p in Wanted(m.values) ==> p in c.covered {
      assert c.covered == Wanted(m.values);
      var p :| p in c.covered;
      var k: nat :| k < |m.ids| && Bears(m, k, p);
      ChosenBears(m, k, p);
      assert k in c.offsets;
    }
  }

  lemma PlainOrSpecial(decode: Decoder, m: Mapping, p: nat)
    requires Concatenative(decode) && m.spans == TokenSpans(decode, m.ids) && p < |decode(m.ids)|
    ensures (exists k: nat :: k < |m.ids| && Bears(m, k, p)) <==> !exists k: nat :: InSpecial(m, k, p)
  {
    hide TokenSpan;
    assert m.ids[..|m.ids|] == m.ids;
    var k := TokenHolding(decode, m.ids, |m.ids|, p);
    TokensTile(decode, m.ids, k);
    if m.ids[k] in m.special { assert InSpecial(m, k, p); } else { assert Bears(m, k, p); }
    forall i: nat, j: nat | Bears(m, i, p) && InSpecial(m, j, p) ensures false {
      OneTokenPerCharacter(decode, m.ids, i, j, p);
    }
  }

  lemma OneTokenPerCharacter(decode: Decoder, ids: seq<int>, i: nat, j: nat, p: nat)
    requires Concatenative(decode) && i < |ids| && j < |ids|
    requires var s := TokenSpan(decode, ids, i); s.Some? && s.value.start <= p < s.value.end
    requires var s := TokenSpan(decode, ids, j); s.Some? && s.value.start <= p < s.value.end
    ensures i == j
  {
    TokensTile(decode, ids, i);
    TokensTile(decode, ids, j);
    if i < j { PrefixesGrow(decode, ids, i + 1, j); }
    if j < i { PrefixesGrow(decode, ids, j + 1, i); }
  }

  // ----- Appended tokens -----

  /** The same emission with more tokens behind it. */
  function Extended(e: Emission, extra: seq<int>): Emission {
    e.(ids := e.ids + extra,
       mask := if e.mask.None? then None else Some(e.mask.value + seq(|extra|, _ => 1)))
  }

  lemma MatchIsLocal(scan: Text, x: Text, start: nat, benchmark: Benchmark, action: map<seq<nat>, Json>)
    requires '}' !in x && start < |scan + x|
    ensures IsMatch(scan + x, start, benchmark, action) <==> start < |scan| && IsMatch(scan, start, benchmark, action)
    ensures start < |scan| && IsMatch(scan, start, benchmark, action) ==> Parse(scan + x, start, []) == Parse(scan, start, [])
  {
    hide Parse, IsAction;
    var u := scan + x;
    if IsMatch(u, start, benchmark, action) {
      ObjectEndsInBrace(u, start, []);
      var end := Parse(u, start, []).value.end;
      BehindJoin(scan, x, end - 1);
      assert u[..end] == scan[..end];
      SkipsNothing(u, start);
      ParseIsLocal(u, scan, start, []);
    }
    if start < |scan| && IsMatch(scan, start, benchmark, action) {
      var end := Parse(scan, start, []).value.end;
      assert scan[..end] == u[..end];
      SkipsNothing(scan, start);
      ParseIsLocal(scan, u, start, []);
    }
  }

  lemma BehindJoin(scan: Text, x: Text, p: nat)
    requires p < |scan + x|
    ensures p >= |scan| ==> (scan + x)[p] in x
  {
    if p >= |scan| { assert (scan + x)[p] == x[p - |scan|]; }
  }

  lemma SkipsNothing(t: Text, start: nat)
    requires start < |t| && t[start] == '{'
    ensures Opens(t, start)
  {
  }

  lemma {:induction false} MatchesAppend(scan: Text, x: Text, n: nat, benchmark: Benchmark, action: map<seq<nat>, Json>)
    requires '}' !in x && n <= |scan + x|
    ensures Matches(scan + x, n, benchmark, action)
      == Matches(scan, if n < |scan| then n else |scan|, benchmark, action)
  {
    hide IsMatch;
    if n > 0 {
      MatchesAppend(scan, x, n - 1, benchmark, action);
      MatchIsLocal(scan, x, n - 1, benchmark, action);
    }
  }

  lemma SpansExtend(decode: Decoder, ids: seq<int>, extra: seq<int>, i: nat)
    requires Concatenative(decode) && i < |ids + extra|
    ensures i < |ids| ==> TokenSpan(decode, ids + extra, i) == TokenSpan(decode, ids, i)
    ensures i >= |ids| ==>
      TokenSpan(decode, ids + extra, i).Some? && TokenSpan(decode, ids + extra, i).value.start >= |decode(ids)|
  {
    hide TokenSpan;
    TokensTile(decode, ids + extra, i);
    if i < |ids| {
      TokensTile(decode, ids, i);
      assert (ids + extra)[..i] == ids[..i] && (ids + extra)[..i + 1] == ids[..i + 1];
    } else {
      assert (ids + extra)[..|ids|] == ids;
      PrefixesGrow(decode, ids + extra, |ids|, i);
    }
  }

  /** The scan of the longer completion, and the action found in it. */
  lemma LocatedAppend(decode: Decoder, e: Emission, extra: seq<int>)
    requires Concatenative(decode) && Guard(e).Pass? && Guard(Extended(e, extra)).Pass?
    requires '}' !in Spelled(decode, extra, e.special)
    ensures Located(decode, e).Raised? <==> Located(decode, Extended(e, extra)).Raised?
    ensures Located(decode, e).Raised? ==> Located(decode, e).error == Located(decode, Extended(e, extra)).error
    ensures Located(decode, e).Returned? ==>
      var l, l2 := Located(decode, e).value, Located(decode, Extended(e, extra)).value;
      l.1 == l2.1 && Parse(l.0, l.1, []) == Parse(l2.0, l2.1, [])
  {
    hide Parse, IsMatch, Matches, Visible, TokenSpans, Spelled;
    var ids := e.ids[e.promptTokens..];
    var ids2 := Extended(e, extra).ids[e.promptTokens..];
    assert ids2 == ids + extra;
    ScanIsSpelled(decode, ids, e.special);
    ScanIsSpelled(decode, ids2, e.special);
    SpelledAppend(decode, ids, extra, e.special);
    var scan, x := Spelled(decode, ids, e.special), Spelled(decode, extra, e.special);
    MatchesAppend(scan, x, |scan + x|, e.benchmark, e.action.value);
    if Located(decode, e).Returned? {
      var l := Located(decode, e).value;
      MatchIsLocal(scan, x, l.1, e.benchmark, e.action.value);
    }
  }

  /** The longer completion scores the same tokens: later ones hold no value character. */
  lemma {:induction false} CollectAppend(m: Mapping, m2: Mapping, n: nat, bound: nat)
    requires |m.ids| == |m.spans| && |m2.ids| == |m2.spans| && |m.ids| <= |m2.ids| && n <= |m2.ids|
    requires m2.special == m.special && m2.values == m.values && m2.forbidden == m.forbidden
    requires m2.ids[..|m.ids|] == m.ids && m2.spans[..|m.ids|] == m.spans
    requires forall i :: |m.ids| <= i < |m2.ids| && m2.spans[i].Some? ==> m2.spans[i].value.start >= bound
    requires forall p :: p in Wanted(m.values) ==> p < bound
    ensures Collect(m2, n) == Collect(m, if n < |m.ids| then n else |m.ids|)
  {
    hide Touches, Overlap, Wanted;
    if n > 0 {
      CollectAppend(m, m2, n - 1, bound);
      var i := n - 1;
      if i < |m.ids| {
        assert m2.ids[i] == m2.ids[..|m.ids|][i] && m2.spans[i] == m2.spans[..|m.ids|][i];
      } else if m2.spans[i].Some? {
        OverlapIsCommon(m2.spans[i].value, m.values);
      }
    }
  }

  /** The longer mapping agrees with the shorter one on all its tokens. */
  lemma MappingAppend(decode: Decoder, e: Emission, extra: seq<int>)
    requires Concatenative(decode) && Guard(e).Pass? && Guard(Extended(e, extra)).Pass?
    requires '}' !in Spelled(decode, extra, e.special)
    ensures var a, b := MappingOf(decode, e), MappingOf(decode, Extended(e, extra));
      && (a.Raised? <==> b.Raised?) && (a.Raised? ==> a.error == b.error)
      && (a.Returned? ==>
            var m, m2 := a.value, b.value;
            && m.ids == e.ids[e.promptTokens..] && m.spans == TokenSpans(decode, m.ids)
            && m2.ids == m.ids + extra && m2.spans == TokenSpans(decode, m2.ids)
            && m2.special == m.special && m2.values == m.values && m2.forbidden == m.forbidden)
  {
    hide Parse, Located, TokenSpans, Spelled, Selected, Unselected;
    LocatedAppend(decode, e, extra);
    assert Extended(e, extra).ids[e.promptTokens..] == e.ids[e.promptTokens..] + extra;
  }

  lemma SpansAppend(decode: Decoder, ids: seq<int>, extra: seq<int>)
    requires Concatenative(decode)
    ensures TokenSpans(decode, ids + extra)[..|ids|] == TokenSpans(decode, ids)
    ensures var spans := TokenSpans(decode, ids + extra);
      forall i :: |ids| <= i < |ids + extra| && spans[i].Some? ==> spans[i].value.start >= |decode(ids)|
  {
    hide TokenSpan;
    forall i | 0 <= i < |ids + extra|
      ensures i < |ids| ==> TokenSpan(decode, ids + extra, i) == TokenSpan(decode, ids, i)
      ensures i >= |ids| ==>
        TokenSpan(decode, ids + extra, i).Some? && TokenSpan(decode, ids + extra, i).value.start >= |decode(ids)|
    {
      SpansExtend(decode, ids, extra, i);
    }
  }

  lemma SameSpecification(decode: Decoder, e: Emission, extra: seq<int>, m: Mapping, m2: Mapping, offsets: seq<nat>)
    requires Concatenative(decode) && 1 <= e.promptTokens < |e.ids|
    requires m.ids == e.ids[e.promptTokens..] && m.spans == TokenSpans(decode, m.ids)
    requires m2.ids == m.ids + extra && m2.spans == TokenSpans(decode, m2.ids) && m2.values == m.values
    requires m2.ids == Extended(e, extra).ids[e.promptTokens..]
    requires forall k :: k in offsets ==> k < |m.ids| && m.spans[k].Some?
    ensures forall k :: k in offsets ==> k < |m2.ids| && m2.spans[k] == m.spans[k]
    ensures Assembled(decode, Extended(e, extra), m2, offsets).spec == Assembled(decode, e, m, offsets).spec
  {
    hide TokenSpans, TokenSpan;
    SpansAppend(decode, m.ids, extra);
    forall k | k in offsets ensures m2.spans[k] == m.spans[k] { assert m2.spans[k] == m2.spans[..|m.ids|][k]; }
    var positions := Positions(offsets, e.promptTokens);
    PositionsFit(offsets, e.promptTokens, |e.ids|);
    assert Gather(e.ids + extra, positions) == Gather(e.ids, positions);
    var text, text2 := decode(m.ids), decode(m2.ids);
    assert text2 == text + decode(extra);
    assert Texts(text2, m2.spans, offsets) == Texts(text, m.spans, offsets) by {
      forall i | 0 <= i < |offsets| ensures Texts(text2, m2.spans, offsets)[i] == Texts(text, m.spans, offsets)[i] {
        assert offsets[i] in offsets;
        var s := m.spans[offsets[i]].value;
        assert text2[s.start..s.end] == text[s.start..s.end];
      }
    }
  }

  lemma GuardExtends(e: Emission, extra: seq<int>)
    requires 1 <= e.promptTokens < |e.ids| && (e.mask.Some? ==> |e.mask.value| == |e.ids|)
    ensures Guard(Extended(e, extra)) == Guard(e)
  {
    var mask, mask2 := MaskOf(e), MaskOf(Extended(e, extra));
    assert |mask2| == |e.ids + extra| && mask2[..|e.ids|] == mask;
    forall i | 0 <= i < |e.ids| ensures mask2[i] == mask[i] { assert mask2[i] == mask2[..|e.ids|][i]; }
  }

  /** Tokens appended behind the completion, whose visible text has no closing brace, change neither the verdict nor the
      specification of the targets. */
  lemma AppendStable(decode: Decoder, e: Emission, extra: seq<int>)
    requires Concatenative(decode) && '}' !in Spelled(decode, extra, e.special)
    requires 1 <= e.promptTokens < |e.ids| && (e.mask.Some? ==> |e.mask.value| == |e.ids|)
    ensures var a, b := Targets(decode, e), Targets(decode, Extended(e, extra));
      && (a.Returned? <==> b.Returned?)
      && (a.Returned? ==> a.value.spec == b.value.spec)
      && (a.Raised? ==> a.error == b.error)
  {
    hide Parse, MappingOf, TokenSpans, Spelled, Collect, Wanted, Assembled, Validate, Guard;
    GuardExtends(e, extra);
    var e2 := Extended(e, extra);
    if Guard(e).Pass? {
      MappingAppend(decode, e, extra);
      if MappingOf(decode, e).Returned? {
        var m, m2 := MappingOf(decode, e).value, MappingOf(decode, e2).value;
        SpansAppend(decode, m.ids, extra);
        ValuesInText(decode, e);
        CollectAppend(m, m2, |m2.ids|, |decode(m.ids)|);
        if m.values != [] && Collect(m, |m.ids|).Returned? {
          CollectFacts(m, |m.ids|);
          LastStage(decode, e);
          LastStage(decode, e2);
          SameSpecification(decode, e, extra, m, m2, Collect(m, |m.ids|).value.offsets);
        }
      }
    }
  }
}
