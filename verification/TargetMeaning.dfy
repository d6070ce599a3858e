/** What a target mapping means, said without the functions that compute it: which scalars of the emitted action are scored,
    which tokens are selected for them, what the specification repeats, and when the mapping is refused. */
module TargetMeaning {
  import opened Wrappers
  import opened JsonText
  import opened JsonNumber
  import opened JsonGrammar
  import opened JsonSpans
  import opened JsonParser
  import opened JsonFacts
  import opened ActionTargets
  import opened TargetFacts

  // ----- Equal values -----

  /** `v` with every boolean and every number replaced by its decimal value. */
  function Canonical(v: Json): Json {
    match v
    case Bool(b) => Num(Decimal(if b then 1.0 else 0.0))
    case Num(Integer(n)) => Num(Decimal(n as real))
    case Arr(items) => Arr(seq(|items|, i requires 0 <= i < |items| => Canonical(items[i])))
    case Obj(fields) => Obj(map k | k in fields :: Canonical(fields[k]))
    case _ => v
  }

  /** Python's equality is equality of canonical values; in particular it is an equivalence. */
  lemma {:induction false} EqualIsCanonical(v: Json, w: Json)
    ensures PyEqual(v, w) <==> Canonical(v) == Canonical(w)
    decreases v
  {
    if v.Arr? && w.Arr? {
      forall i | 0 <= i < |v.items| && i < |w.items|
        ensures PyEqual(v.items[i], w.items[i]) <==> Canonical(v).items[i] == Canonical(w).items[i]
      {
        EqualIsCanonical(v.items[i], w.items[i]);
      }
    } else if v.Obj? && w.Obj? {
      assert Canonical(v).fields.Keys == v.fields.Keys && Canonical(w).fields.Keys == w.fields.Keys;
      forall k | k in v.fields && k in w.fields
        ensures PyEqual(v.fields[k], w.fields[k]) <==> Canonical(v).fields[k] == Canonical(w).fields[k]
      {
        EqualIsCanonical(v.fields[k], w.fields[k]);
      }
    }
  }

  // ----- Sharing characters -----

  predicate Inside(p: nat, s: Span) { s.start <= p < s.end }

  ghost predicate Shares(a: Span, b: Span) { exists p: nat :: Inside(p, a) && Inside(p, b) }

  lemma TouchesIsShares(span: Span, others: seq<Span>)
    ensures Touches(span, others) <==> exists i :: 0 <= i < |others| && Shares(span, others[i])
  {
    forall i | 0 <= i < |others|
      ensures Max(span.start, others[i].start) < Min(span.end, others[i].end) <==> Shares(span, others[i])
    {
      if Max(span.start, others[i].start) < Min(span.end, others[i].end) {
        var p := Max(span.start, others[i].start);
        assert Inside(p, span) && Inside(p, others[i]);
      }
    }
  }

  lemma {:induction false} WantedIsInside(values: seq<Leaf>, p: nat)
    ensures p in Wanted(values) <==> exists l :: l in values && Inside(p, l.span)
  {
    if values != [] {
      WantedIsInside(values[1..], p);
      assert values == [values[0]] + values[1..];
    }
  }

  // ----- Scored and other leaves -----

  /** A leaf that is scored: an action scalar with at least one character. */
  predicate Scored(l: Leaf, benchmark: Benchmark) { ActionPath(l.path, benchmark) && l.span.start < l.span.end }

  lemma {:induction false} SelectedAreScored(leaves: seq<Leaf>, benchmark: Benchmark, l: Leaf)
    ensures l in Selected(leaves, benchmark) <==> l in leaves && Scored(l, benchmark)
  {
    hide Semantic, ActionPath;
    if leaves != [] {
      SelectedAreScored(leaves[1..], benchmark, l);
      SemanticIsActionPath(leaves[0].path, benchmark);
      assert leaves == [leaves[0]] + leaves[1..];
    }
  }

  lemma {:induction false} UnselectedAreOthers(leaves: seq<Leaf>, benchmark: Benchmark, s: Span)
    ensures s in Unselected(leaves, benchmark) <==> exists l :: l in leaves && !ActionPath(l.path, benchmark) && l.span == s
  {
    hide Semantic, ActionPath;
    if leaves != [] {
      UnselectedAreOthers(leaves[1..], benchmark, s);
      SemanticIsActionPath(leaves[0].path, benchmark);
      assert leaves == [leaves[0]] + leaves[1..];
      if l :| l in leaves[1..] && !ActionPath(l.path, benchmark) && l.span == s { assert l in leaves; }
    }
  }

  // ----- The emitted object -----

  predicate TextUnder(fields: map<seq<nat>, Json>, name: string) { Name(name) in fields && fields[Name(name)].Str? }

  predicate ObjectUnder(fields: map<seq<nat>, Json>, name: string) { Name(name) in fields && fields[Name(name)].Obj? }

  /** An action object stands at `start`: a JSON object of the benchmark's shape that equals the parsed action. */
  predicate ActionAt(scan: Text, start: nat, e: Emission) {
    && e.action.Some? && start < |scan| && scan[start] == '{' && Parse(scan, start, []).Some?
    && var v := Parse(scan, start, []).value.value;
    && v.Obj? && PyEqual(v, Obj(e.action.value))
    && (if e.benchmark == CrystalGym then TextUnder(v.fields, "action")
        else TextUnder(v.fields, "tool") && ObjectUnder(v.fields, "arguments"))
  }

  lemma MatchIsAction(scan: Text, start: nat, e: Emission)
    requires start < |scan| && e.action.Some?
    ensures IsMatch(scan, start, e.benchmark, e.action.value) <==> ActionAt(scan, start, e)
  {
    hide Parse, PyEqual, Name;
  }

  /** `scan` is the decoded text with every special token blanked out. */
  ghost predicate ScanOf(decode: Decoder, ids: seq<int>, special: set<int>, scan: Text) {
    && |scan| == |decode(ids)|
    && (forall k :: 0 <= k < |ids| && ids[k] in special ==> TokenSpans(decode, ids)[k].Some?)
    && forall p: nat :: p < |scan| ==>
         scan[p] == if InSpecial(decode, ids, special, |ids|, p) then ' ' else decode(ids)[p]
  }

  /** Character `p` belongs to one of the first `n` tokens, a special one. */
  ghost predicate InSpecial(decode: Decoder, ids: seq<int>, special: set<int>, n: nat, p: nat)
    requires n <= |ids|
  {
    exists k: nat :: k < n && ids[k] in special && Covers(TokenSpans(decode, ids)[k], p)
  }

  predicate Covers(s: Option<Span>, p: nat) { s.Some? && Inside(p, s.value) }

  lemma {:induction false} VisibleIsScan(decode: Decoder, ids: seq<int>, special: set<int>, n: nat)
    requires n <= |ids|
    ensures SpansFit(TokenSpans(decode, ids), |decode(ids)|)
    ensures var v := Visible(decode(ids), ids, TokenSpans(decode, ids), special, n);
      && (v.Returned? <==> forall k :: 0 <= k < n && ids[k] in special ==> TokenSpans(decode, ids)[k].Some?)
      && (v.Returned? ==> |v.value| == |decode(ids)| && forall p: nat :: p < |v.value| ==>
            v.value[p] == if InSpecial(decode, ids, special, n, p) then ' ' else decode(ids)[p])
  {
    hide TokenSpans;
    var spans := TokenSpans(decode, ids);
    if n > 0 {
      VisibleIsScan(decode, ids, special, n - 1);
      var before := Visible(decode(ids), ids, spans, special, n - 1);
      if before.Returned? {
        forall p: nat | p < |decode(ids)|
          ensures InSpecial(decode, ids, special, n, p) <==>
            InSpecial(decode, ids, special, n - 1, p) || (ids[n - 1] in special && Covers(spans[n - 1], p))
        {
          if ids[n - 1] in special && Covers(spans[n - 1], p) { assert InSpecial(decode, ids, special, n, p); }
          if InSpecial(decode, ids, special, n - 1, p) {
            var k: nat :| k < n - 1 && ids[k] in special && Covers(spans[k], p);
            assert InSpecial(decode, ids, special, n, p);
          }
        }
      }
    }
  }

  /** The characters of token `k`: from where the decoding of the tokens before it ends to where the decoding with it ends,
      if both decodings begin the whole text. */
  ghost predicate StandsAt(decode: Decoder, ids: seq<int>, k: nat, s: Option<Span>)
    requires k < |ids|
  {
    var text := decode(ids);
    var before, after := if k == 0 then [] else decode(ids[..k]), decode(ids[..k + 1]);
    s == if before <= text && after <= text && |before| <= |after| then Some(Span(|before|, |after|)) else None
  }

  lemma TokensStand(decode: Decoder, ids: seq<int>, k: nat)
    requires k < |ids|
    ensures StandsAt(decode, ids, k, TokenSpans(decode, ids)[k])
  {
  }

  // ----- What a returned mapping says -----

  /** The emission a mapping accepts: a materials benchmark, a parsed action, a proper prompt, a mask of ones. */
  predicate Acceptable(e: Emission) {
    && (e.benchmark == Made || e.benchmark == CrystalGym) && e.action.Some? && 1 <= e.promptTokens < |e.ids|
    && (e.mask.Some? ==> |e.mask.value| == |e.ids| && forall i :: 0 <= i < |e.ids| ==> e.mask.value[i] == 1)
  }

  lemma AcceptedEmission(decode: Decoder, e: Emission)
    ensures Guard(e).Pass? <==> Acceptable(e)
    ensures Guard(e).Fail? ==> Targets(decode, e) == Raised(Guard(e).error)
  {
    hide MappingOf, Collect;
    forall i | 0 <= i < |e.ids| && |MaskOf(e)| == |e.ids|
      ensures MaskOf(e)[i] == 1 <==> e.mask.None? || e.mask.value[i] == 1
    {
    }
  }

  /** The completion's scanned text, the place of its action object, and that object's value, keys and leaves. */
  ghost predicate Emitted(decode: Decoder, e: Emission, scan: Text, start: nat, r: Parsed) {
    && 1 <= e.promptTokens < |e.ids| && ScanOf(decode, e.ids[e.promptTokens..], e.special, scan)
    && ActionAt(scan, start, e) && Parse(scan, start, []) == Some(r)
  }

  /** A returned mapping has one such place, and no other position of the scanned text starts the action. */
  lemma EmittedAction(decode: Decoder, e: Emission) returns (scan: Text, start: nat, r: Parsed)
    requires Targets(decode, e).Returned?
    ensures Emitted(decode, e, scan, start, r)
    ensures forall other: nat :: ActionAt(scan, other, e) ==> other == start
    ensures Guard(e).Pass? && MappingOf(decode, e).Returned? && MappingOf(decode, e).value
      == Mapping(e.ids[e.promptTokens..], TokenSpans(decode, e.ids[e.promptTokens..]), e.special,
                 Selected(r.leaves, e.benchmark), r.keys + Unselected(r.leaves, e.benchmark))
  {
    hide Collect, Wanted, Validate, Assembled, TokenSpans, Selected, Unselected, Parse, IsMatch, Matches, ActionAt, InSpecial;
    var ids := e.ids[e.promptTokens..];
    scan, start := Located(decode, e).value.0, Located(decode, e).value.1;
    VisibleIsScan(decode, ids, e.special, |ids|);
    var benchmark, action := e.benchmark, e.action.value;
    MatchesAreAll(scan, |scan|, benchmark, action);
    var matches := Matches(scan, |scan|, benchmark, action);
    assert matches == [start];
    assert start in matches;
    MatchIsAction(scan, start, e);
    r := ParsedAt(scan, start, benchmark, action);
    forall other: nat | ActionAt(scan, other, e) ensures other == start {
      ActionInside(scan, other, e);
      MatchIsAction(scan, other, e);
      assert other in matches;
    }
  }

  lemma ActionInside(scan: Text, start: nat, e: Emission)
    requires ActionAt(scan, start, e)
    ensures start < |scan| && e.action.Some?
  {
    hide Parse, PyEqual;
  }

  /** The emitted action is unique, so it is the one the mapping was built from. */
  lemma MappedFrom(decode: Decoder, e: Emission, scan: Text, start: nat, r: Parsed)
    requires Targets(decode, e).Returned? && Emitted(decode, e, scan, start, r)
    ensures Guard(e).Pass? && MappingOf(decode, e).Returned? && MappingOf(decode, e).value
      == Mapping(e.ids[e.promptTokens..], TokenSpans(decode, e.ids[e.promptTokens..]), e.special,
                 Selected(r.leaves, e.benchmark), r.keys + Unselected(r.leaves, e.benchmark))
  {
    hide Targets, MappingOf, Guard, TokenSpans, Selected, Unselected, Parse, ActionAt, InSpecial;
    var scan', start', r' := EmittedAction(decode, e);
    assert scan == scan';
  }

  /** The scored paths are those of the action scalars that have a character, and nothing else. */
  lemma ScoredPaths(decode: Decoder, e: Emission, scan: Text, start: nat, r: Parsed, path: Path)
    requires Targets(decode, e).Returned? && Emitted(decode, e, scan, start, r)
    ensures path in Targets(decode, e).value.spec.paths <==>
      exists leaf :: leaf in r.leaves && leaf.path == path && Scored(leaf, e.benchmark)
    ensures Targets(decode, e).value.spec.paths != []
    ensures path in Targets(decode, e).value.spec.paths ==> Key(Name("rationale")) !in path
    ensures e.benchmark == CrystalGym && path in Targets(decode, e).value.spec.paths ==> path == [Key(Name("action"))]
  {
    hide Collect, Wanted, Validate, TokenSpans, Selected, Unselected, Parse, Scored, Gather, Texts, Emitted, MappingOf, Guard,
         Paths, Positions, Predictions;
    MappedFrom(decode, e, scan, start, r);
    var m, c := Stages(decode, e);
    PathsOf(m.values, path);
    forall leaf ensures leaf in m.values <==> leaf in r.leaves && Scored(leaf, e.benchmark) {
      SelectedAreScored(r.leaves, e.benchmark, leaf);
    }
    SomeValue(decode, e);
    PathsNonempty(m.values);
    if path in Targets(decode, e).value.spec.paths {
      var leaf :| leaf in m.values && leaf.path == path;
      NoRationale(leaf, e.benchmark);
    }
  }

  lemma NoRationale(l: Leaf, benchmark: Benchmark)
    requires Scored(l, benchmark)
    ensures Key(Name("rationale")) !in l.path
    ensures benchmark == CrystalGym ==> l.path == [Key(Name("action"))]
  {
    hide Name;
    NamesDiffer("rationale", "action");
    NamesDiffer("rationale", "tool");
  }

  lemma SomeValue(decode: Decoder, e: Emission)
    requires Targets(decode, e).Returned?
    ensures Guard(e).Pass? && MappingOf(decode, e).Returned? && MappingOf(decode, e).value.values != []
  {
    hide Collect, Validate, Assembled, MappingOf, Wanted;
  }

  lemma PathsNonempty(values: seq<Leaf>)
    requires values != []
    ensures Paths(values) != []
  {
  }

  /** Token `k` is not special, stands somewhere, and shares a character with a scored leaf. */
  ghost predicate HoldsValue(ids: seq<int>, spans: seq<Option<Span>>, special: set<int>, r: Parsed, benchmark: Benchmark, k: nat)
    requires |ids| == |spans|
  {
    && k < |ids| && ids[k] !in special && spans[k].Some?
    && exists leaf :: leaf in r.leaves && Scored(leaf, benchmark) && Shares(spans[k].value, leaf.span)
  }

  /** `span` keeps off every key, and off every leaf that is no action scalar. */
  ghost predicate KeepsOff(span: Span, r: Parsed, benchmark: Benchmark) {
    && (forall key :: key in r.keys ==> !Shares(span, key))
    && forall leaf :: leaf in r.leaves && !ActionPath(leaf.path, benchmark) ==> !Shares(span, leaf.span)
  }

  /** The selected tokens are exactly those that hold a value, and each of them keeps off everything else. */
  lemma ScoredTokens(decode: Decoder, e: Emission, scan: Text, start: nat, r: Parsed, k: nat)
    requires Targets(decode, e).Returned? && Emitted(decode, e, scan, start, r)
    ensures var ids := e.ids[e.promptTokens..]; var spans := TokenSpans(decode, ids);
      var positions := Targets(decode, e).value.spec.positions;
      && (e.promptTokens + k in positions <==> HoldsValue(ids, spans, e.special, r, e.benchmark, k))
      && (e.promptTokens + k in positions ==> KeepsOff(spans[k].value, r, e.benchmark))
  {
    hide Targets, MappingOf, Guard, TokenSpans, Selected, Unselected, Parse, Wanted, Borne, Touches, HoldsValue, KeepsOff, Emitted,
         Scored;
    MappedFrom(decode, e, scan, start, r);
    var m := MappingOf(decode, e).value;
    TargetsAreBorne(decode, e, m, k);
    HoldingIsBearing(m, r, e.benchmark, k);
    if e.promptTokens + k in Targets(decode, e).value.spec.positions { KeptOff(m.spans[k].value, r, e.benchmark); }
  }

  /** Token `k` bears some wanted character. */
  ghost predicate Borne(m: Mapping, k: nat)
    requires |m.ids| == |m.spans|
  {
    exists p: nat :: p in Wanted(m.values) && Bears(m, k, p)
  }

  lemma TargetsAreBorne(decode: Decoder, e: Emission, m: Mapping, k: nat)
    requires Targets(decode, e).Returned? && Guard(e).Pass? && MappingOf(decode, e) == Returned(m)
    ensures |m.ids| == |m.spans| && (e.promptTokens + k in Targets(decode, e).value.spec.positions <==> Borne(m, k))
    ensures Borne(m, k) ==> k < |m.ids| && m.spans[k].Some? && !Touches(m.spans[k].value, m.forbidden)
  {
    hide Targets, MappingOf, Guard, Wanted, Bears, Touches;
    SelectionIsExact(decode, e);
    assert Targeted(Targets(decode, e).value.spec.positions, e.promptTokens, k)
      <==> e.promptTokens + k in Targets(decode, e).value.spec.positions;
  }

  lemma HoldingIsBearing(m: Mapping, r: Parsed, benchmark: Benchmark, k: nat)
    requires |m.ids| == |m.spans| && m.values == Selected(r.leaves, benchmark)
    ensures HoldsValue(m.ids, m.spans, m.special, r, benchmark, k) <==> Borne(m, k)
  {
    hide Selected, Scored, Wanted, Shares, Bears;
    BearingIsSharing(m, k);
    forall leaf ensures leaf in m.values <==> leaf in r.leaves && Scored(leaf, benchmark) {
      SelectedAreScored(r.leaves, benchmark, leaf);
    }
  }

  lemma BearingIsSharing(m: Mapping, k: nat)
    requires |m.ids| == |m.spans|
    ensures (exists p: nat :: p in Wanted(m.values) && Bears(m, k, p)) <==>
      && k < |m.ids| && m.ids[k] !in m.special && m.spans[k].Some?
      && exists leaf :: leaf in m.values && Shares(m.spans[k].value, leaf.span)
  {
    hide Wanted;
    if p: nat :| p in Wanted(m.values) && Bears(m, k, p) {
      WantedIsInside(m.values, p);
      var leaf :| leaf in m.values && Inside(p, leaf.span);
      assert Inside(p, m.spans[k].value);
    }
    if k < |m.ids| && m.ids[k] !in m.special && m.spans[k].Some? {
      if leaf :| leaf in m.values && Shares(m.spans[k].value, leaf.span) {
        var p: nat :| Inside(p, m.spans[k].value) && Inside(p, leaf.span);
        WantedIsInside(m.values, p);
        assert Bears(m, k, p);
      }
    }
  }

  lemma KeptOff(span: Span, r: Parsed, benchmark: Benchmark)
    requires !Touches(span, r.keys + Unselected(r.leaves, benchmark))
    ensures KeepsOff(span, r, benchmark)
  {
    hide Touches, Shares, ActionPath, Unselected;
    var others := r.keys + Unselected(r.leaves, benchmark);
    TouchesIsShares(span, others);
    forall s | s in others ensures !Shares(span, s) {
      var i :| 0 <= i < |others| && others[i] == s;
    }
    forall leaf | leaf in r.leaves && !ActionPath(leaf.path, benchmark) ensures !Shares(span, leaf.span) {
      UnselectedAreOthers(r.leaves, benchmark, leaf.span);
      assert leaf.span in others;
    }
  }

  /** Every character of every scored leaf lies in a selected token. */
  lemma ScoredAreReached(decode: Decoder, e: Emission, scan: Text, start: nat, r: Parsed, leaf: Leaf, p: nat) returns (k: nat)
    requires Targets(decode, e).Returned? && Emitted(decode, e, scan, start, r)
    requires leaf in r.leaves && Scored(leaf, e.benchmark) && Inside(p, leaf.span)
    ensures k < |e.ids| - e.promptTokens && e.promptTokens + k in Targets(decode, e).value.spec.positions
    ensures Covers(TokenSpans(decode, e.ids[e.promptTokens..])[k], p)
  {
    hide Targets, MappingOf, Guard, TokenSpans, Selected, Unselected, Parse, Wanted, Bears, Scored, ScanOf, ActionAt;
    MappedFrom(decode, e, scan, start, r);
    var m := MappingOf(decode, e).value;
    SelectedAreScored(r.leaves, e.benchmark, leaf);
    WantedIsInside(m.values, p);
    k := WantedIsBorne(decode, e, m, p);
    BearingCovers(m, k, p);
  }

  lemma WantedIsBorne(decode: Decoder, e: Emission, m: Mapping, p: nat) returns (k: nat)
    requires Targets(decode, e).Returned? && Guard(e).Pass? && MappingOf(decode, e) == Returned(m) && p in Wanted(m.values)
    ensures k < |m.ids| == |m.spans| && Bears(m, k, p) && e.promptTokens + k in Targets(decode, e).value.spec.positions
  {
    hide Targets, MappingOf, Guard, Wanted, Bears, Touches, Collect, Chosen, Assembled, TokenSpans;
    var m', c := Stages(decode, e);
    CollectFacts(m, |m.ids|);
    k :| k < |m.ids| && Bears(m, k, p);
    assert Borne(m, k);
    TargetsAreBorne(decode, e, m, k);
  }

  lemma BearingCovers(m: Mapping, k: nat, p: nat)
    requires |m.ids| == |m.spans| && Bears(m, k, p)
    ensures k < |m.ids| && Covers(m.spans[k], p)
  {
  }

  /** What the specification repeats of the emission and of the selected tokens. */
  lemma SpecificationRepeats(decode: Decoder, e: Emission)
    requires Targets(decode, e).Returned?
    ensures 1 <= e.promptTokens < |e.ids|
    ensures var t := Targets(decode, e).value; var s := t.spec; var ids := e.ids[e.promptTokens..];
      && s.schema == "emitted_action_value_mean_unwarped_logprob_v2" && s == t.digest
      && s.benchmark == e.benchmark && s.promptTokens == e.promptTokens && s.special == e.special && s.tokenizer == e.tokenizer
      && t.length == |e.ids| && t.source.ids == e.ids
      && |t.source.mask| == |e.ids| && (forall i :: 0 <= i < |e.ids| ==> t.source.mask[i] == 1)
      && |s.positions| == |s.predictions| == |s.tokenIds| == |s.texts| && s.positions != []
      && (forall i, j :: 0 <= i < j < |s.positions| ==> s.positions[i] < s.positions[j])
      && (forall i :: 0 <= i < |s.positions| ==>
            && e.promptTokens <= s.positions[i] < |e.ids|
            && s.predictions[i] == s.positions[i] - 1 && s.tokenIds[i] == e.ids[s.positions[i]]
            && TokenSpans(decode, ids)[s.positions[i] - e.promptTokens].Some?
            && var span := TokenSpans(decode, ids)[s.positions[i] - e.promptTokens].value;
               s.texts[i] == decode(ids)[span.start..span.end])
  {
    hide Collect, Wanted, Validate, TokenSpans, Matches, Selected, Unselected, Parse, MappingOf;
    var m, c := Stages(decode, e);
    CollectFacts(m, |m.ids|);
    AcceptedEmission(decode, e);
    forall i | 0 <= i < |c.offsets| ensures c.offsets[i] < |m.ids| && m.spans[c.offsets[i]].Some? {
      assert c.offsets[i] in c.offsets;
    }
  }

  // ----- When the mapping is refused -----

  /** A special token without characters of its own refuses the mapping. */
  lemma UnmappedBecause(decode: Decoder, e: Emission)
    requires Guard(e).Pass?
    ensures Targets(decode, e) == Raised(UnmappedSpecial) <==>
      exists k: nat :: Unmapped(decode, e.ids[e.promptTokens..], e.special, k)
  {
    hide Collect, Wanted, Validate, Assembled, TokenSpans, Matches, Selected, Unselected, Parse, InSpecial, Touches, Overlap, Visible;
    var ids := e.ids[e.promptTokens..];
    VisibleIsScan(decode, ids, e.special, |ids|);
    var scan := Visible(decode(ids), ids, TokenSpans(decode, ids), e.special, |ids|);
    VisibleErrors(decode(ids), ids, TokenSpans(decode, ids), e.special, |ids|);
    if scan.Raised? {
      var k :| 0 <= k < |ids| && ids[k] in e.special && TokenSpans(decode, ids)[k].None?;
      assert Unmapped(decode, ids, e.special, k);
    }
    if MappingOf(decode, e).Returned? {
      SomeOther(decode, e);
    }
  }

  lemma SomeOther(decode: Decoder, e: Emission)
    requires Guard(e).Pass? && MappingOf(decode, e).Returned?
    ensures Targets(decode, e) != Raised(UnmappedSpecial)
  {
    hide Mixes, Missed, MappingOf, Guard, Targets;
    RefusedBecause(decode, e);
  }

  /** Special token `k` has no characters of its own. */
  ghost predicate Unmapped(decode: Decoder, ids: seq<int>, special: set<int>, k: nat) {
    k < |ids| && ids[k] in special && TokenSpans(decode, ids)[k].None?
  }

  /** In the scanned text, the action has to stand at one position and at no other. */
  lemma UnlocatedBecause(decode: Decoder, e: Emission, scan: Text)
    requires Guard(e).Pass? && ScanOf(decode, e.ids[e.promptTokens..], e.special, scan)
    ensures MappingOf(decode, e).Returned? <==> exists start: nat :: OnlyAction(scan, start, e)
    ensures MappingOf(decode, e).Raised? ==> Targets(decode, e) == Raised(NoUniqueSpan)
  {
    hide Collect, Wanted, Validate, Assembled, TokenSpans, Matches, Selected, Unselected, Parse, InSpecial, Touches, Overlap, IsMatch,
         ActionAt;
    var ids, benchmark, action := e.ids[e.promptTokens..], e.benchmark, e.action.value;
    VisibleIsScan(decode, ids, e.special, |ids|);
    assert Visible(decode(ids), ids, TokenSpans(decode, ids), e.special, |ids|).value == scan;
    MatchesAreAll(scan, |scan|, benchmark, action);
    var matches := Matches(scan, |scan|, benchmark, action);
    forall start: nat ensures ActionAt(scan, start, e) <==> start in matches {
      if start < |scan| { MatchIsAction(scan, start, e); }
      if ActionAt(scan, start, e) { ActionInside(scan, start, e); }
    }
    OneMatch(scan, matches, e);
  }

  ghost predicate OnlyAction(scan: Text, start: nat, e: Emission) {
    ActionAt(scan, start, e) && forall other: nat :: ActionAt(scan, other, e) ==> other == start
  }

  lemma OneMatch(scan: Text, matches: seq<nat>, e: Emission)
    requires Distinct(matches) && forall start: nat :: ActionAt(scan, start, e) <==> start in matches
    ensures |matches| == 1 <==> exists start: nat :: OnlyAction(scan, start, e)
  {
    hide ActionAt;
    if |matches| == 1 {
      assert matches[0] in matches && OnlyAction(scan, matches[0], e);
    }
    if start: nat :| OnlyAction(scan, start, e) {
      assert start in matches;
      if |matches| > 1 { assert matches[0] in matches && matches[1] in matches; }
    }
  }

  /** Behind the scan, the mapping is refused for exactly three reasons: nothing is scored, some token mixes scored and other
      characters, or some scored character lies in no token that is not special. */
  lemma RefusedBecause(decode: Decoder, e: Emission)
    requires Guard(e).Pass? && MappingOf(decode, e).Returned?
    ensures var m := MappingOf(decode, e).value; |m.ids| == |m.spans|
    ensures var m := MappingOf(decode, e).value;
      && (Targets(decode, e) == Raised(NoValues) <==> m.values == [])
      && (Targets(decode, e) == Raised(MixedToken) <==> m.values != [] && exists k: nat :: Mixes(m, k))
      && (Targets(decode, e) == Raised(IncompleteCoverage) <==>
            m.values != [] && (forall k: nat :: !Mixes(m, k)) && exists p: nat :: Missed(m, p))
      && (Targets(decode, e).Raised? ==> Targets(decode, e).error in {NoValues, MixedToken, IncompleteCoverage})
  {
    hide Wanted, Validate, Assembled, TokenSpans, Matches, Selected, Unselected, Parse, Touches, Overlap, Bears, Collect, Mixes, Missed,
         MappingOf, Guard;
    var m := MappingOf(decode, e).value;
    SpansMatch(decode, e);
    if m.values != [] {
      CollectMixes(m, |m.ids|);
      if k: nat :| Mixes(m, k) { MixingIsInside(m, k); }
      if Collect(m, |m.ids|).Returned? {
        LastStage(decode, e);
        CoverageIsMissed(m);
        if Collect(m, |m.ids|).value.offsets == [] { CoverageNeedsTokens(decode, e); }
      }
    }
  }

  lemma MixingIsInside(m: Mapping, k: nat)
    requires |m.ids| == |m.spans| && Mixes(m, k)
    ensures k < |m.ids|
  {
  }

  lemma SpansMatch(decode: Decoder, e: Emission)
    requires Guard(e).Pass? && MappingOf(decode, e).Returned?
    ensures |MappingOf(decode, e).value.ids| == |MappingOf(decode, e).value.spans|
  {
    hide TokenSpans, Matches, Selected, Unselected, Parse, Visible;
  }

  /** Without a selected token nothing is covered, although something is to be covered. */
  lemma CoverageNeedsTokens(decode: Decoder, e: Emission)
    requires Guard(e).Pass? && MappingOf(decode, e).Returned? && MappingOf(decode, e).value.values != []
    requires var m := MappingOf(decode, e).value;
      |m.ids| == |m.spans| && Collect(m, |m.ids|).Returned? && Collect(m, |m.ids|).value.offsets == []
    ensures var m := MappingOf(decode, e).value; Collect(m, |m.ids|).value.covered != Wanted(m.values)
  {
    hide Wanted, Collect, Bears, Chosen, MappingOf, Guard, Touches, Overlap;
    var m := MappingOf(decode, e).value;
    ValuesInText(decode, e);
    CollectFacts(m, |m.ids|);
    var p: nat :| p in Wanted(m.values);
    if k: nat :| k < |m.ids| && Bears(m, k, p) {
      ChosenMeansBearing(m, k);
    }
    assert p !in Collect(m, |m.ids|).value.covered;
  }

  /** Token `k` shares characters with a scored leaf and with a key or another leaf. */
  ghost predicate Mixes(m: Mapping, k: nat)
    requires |m.ids| == |m.spans|
  {
    && k < |m.ids| && m.ids[k] !in m.special && m.spans[k].Some?
    && (exists leaf :: leaf in m.values && Shares(m.spans[k].value, leaf.span))
    && exists i :: 0 <= i < |m.forbidden| && Shares(m.spans[k].value, m.forbidden[i])
  }

  /** A scored character in no token that is not special. */
  ghost predicate Missed(m: Mapping, p: nat)
    requires |m.ids| == |m.spans|
  {
    && (exists leaf :: leaf in m.values && Inside(p, leaf.span))
    && forall k: nat :: k < |m.ids| && m.ids[k] !in m.special ==> !Covers(m.spans[k], p)
  }

  lemma MixesIsTouching(m: Mapping, k: nat)
    requires |m.ids| == |m.spans| && k < |m.ids|
    ensures Mixes(m, k) <==> Chosen(m, k) && Touches(m.spans[k].value, m.forbidden)
  {
    hide Touches, Shares, Overlap, Wanted;
    ChosenMeansBearing(m, k);
    BearingIsSharing(m, k);
    if m.spans[k].Some? { TouchesIsShares(m.spans[k].value, m.forbidden); }
  }

  lemma {:induction false} CollectMixes(m: Mapping, n: nat)
    requires n <= |m.ids| == |m.spans|
    ensures Collect(m, n).Returned? <==> forall k: nat :: k < n ==> !Mixes(m, k)
    ensures Collect(m, n).Raised? ==> Collect(m, n).error == MixedToken
  {
    hide Mixes, Chosen, Touches, Overlap;
    if n > 0 {
      CollectMixes(m, n - 1);
      MixesIsTouching(m, n - 1);
    }
  }

  lemma CoverageIsMissed(m: Mapping)
    requires |m.ids| == |m.spans| && Collect(m, |m.ids|).Returned? && m.values != []
    ensures var c := Collect(m, |m.ids|).value;
      c.covered != Wanted(m.values) <==> exists p: nat :: Missed(m, p)
  {
    hide Collect, Wanted, Overlap;
    CollectFacts(m, |m.ids|);
    var c := Collect(m, |m.ids|).value;
    forall p: nat ensures Missed(m, p) <==> p in Wanted(m.values) && p !in c.covered {
      WantedIsInside(m.values, p);
      if p in Wanted(m.values) && p in c.covered {
        var k: nat :| k < |m.ids| && Bears(m, k, p);
        assert Covers(m.spans[k], p);
      }
      forall k: nat | k < |m.ids| && m.ids[k] !in m.special && Covers(m.spans[k], p) ensures Bears(m, k, p) {}
    }
    if c.covered != Wanted(m.values) {
      assert c.covered <= Wanted(m.values);
      var p: nat :| p in Wanted(m.values) && p !in c.covered;
    }
  }
}
