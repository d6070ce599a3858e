/** From emitted tokens to the tokens that bear action values: decoding boundaries, the one matching JSON span, the
    selection of tokens, and the validation of the immutable result. */
module ActionTargets {
  import opened Wrappers
  import opened JsonText
  import opened JsonGrammar
  import opened JsonSpans
  import opened JsonParser

  datatype Benchmark = Made | CrystalGym | Other

  datatype TargetError =
    | UnknownBenchmark | NoParsedAction | BadPromptCount | BadMask | UnmappedSpecial | NoUniqueSpan | NoValues
    | MixedToken | IncompleteCoverage | ModifiedSpecification | OtherSequence | OtherPrefix | Misaligned
    | OtherTokens | SpecialTarget

  type Decoder = seq<int> -> Text

  /** One emission; `special` holds the tokenizer's special ids. */
  datatype Emission = Emission(ids: seq<int>, promptTokens: int, mask: Option<seq<int>>, special: set<int>,
                               tokenizer: string, benchmark: Benchmark, action: Option<map<seq<nat>, Json>>)

  const TARGET_SCHEMA := "emitted_action_value_mean_unwarped_logprob_v2"

  datatype Specification = Specification(benchmark: Benchmark, promptTokens: int, positions: seq<int>,
                                         predictions: seq<int>, tokenIds: seq<int>, texts: seq<Text>, paths: seq<Path>,
                                         special: set<int>, tokenizer: string, schema: string)

  /** Contents stand for their digests: `source` for the prefix hash, `digest` for the specification hash. */
  datatype Source = Source(ids: seq<int>, mask: seq<int>)
  datatype ActionTargets = ActionTargets(spec: Specification, source: Source, length: nat, digest: Specification)

  // ----- Which leaves are action values -----

  function Name(s: string): seq<nat> { seq(|s|, i requires 0 <= i < |s| => s[i] as nat) }

  predicate Semantic(path: Path, benchmark: Benchmark) {
    && path != [] && Key(Name("rationale")) !in path
    && if benchmark == CrystalGym then path == [Key(Name("action"))]
       else path == [Key(Name("tool"))] || path[0] == Key(Name("arguments"))
  }

  function Selected(leaves: seq<Leaf>, benchmark: Benchmark): seq<Leaf> {
    if leaves == [] then []
    else
      var l := leaves[0];
      (if Semantic(l.path, benchmark) && l.span.start < l.span.end then [l] else []) + Selected(leaves[1..], benchmark)
  }

  function Unselected(leaves: seq<Leaf>, benchmark: Benchmark): seq<Span> {
    if leaves == [] then []
    else (if Semantic(leaves[0].path, benchmark) then [] else [leaves[0].span]) + Unselected(leaves[1..], benchmark)
  }

  // ----- Python's equality on parsed values: booleans and numbers compare by value -----

  function Numeric(v: Json): Option<real> {
    match v
    case Bool(b) => Some(if b then 1.0 else 0.0)
    case Num(Integer(n)) => Some(n as real)
    case Num(Decimal(x)) => Some(x)
    case _ => None
  }

  predicate PyEqual(v: Json, w: Json)
    decreases v
  {
    match v
    case Null => w.Null?
    case Bool(_) => Numeric(v) == Numeric(w)
    case Num(_) => Numeric(v) == Numeric(w)
    case Str(_) => v == w
    case Arr(items) => w.Arr? && |items| == |w.items| && forall i :: 0 <= i < |items| ==> PyEqual(items[i], w.items[i])
    case Obj(fields) => w.Obj? && fields.Keys == w.fields.Keys && forall k :: k in fields ==> PyEqual(fields[k], w.fields[k])
  }

  predicate HasText(fields: map<seq<nat>, Json>, name: string) { Name(name) in fields && fields[Name(name)].Str? }

  predicate IsAction(value: Json, benchmark: Benchmark, action: map<seq<nat>, Json>) {
    && value.Obj?
    && (if benchmark == CrystalGym then HasText(value.fields, "action")
        else HasText(value.fields, "tool") && Name("arguments") in value.fields && value.fields[Name("arguments")].Obj?)
    && PyEqual(value, Obj(action))
  }

  // ----- Decoding boundaries -----

  function Boundary(decode: Decoder, ids: seq<int>, end: nat): Option<nat>
    requires end <= |ids|
  {
    if end == 0 then Some(0)
    else if decode(ids[..end]) <= decode(ids) then Some(|decode(ids[..end])|) else None
  }

  function SpanOf(start: Option<nat>, end: Option<nat>): Option<Span> {
    if start.Some? && end.Some? && end.value >= start.value then Some(Span(start.value, end.value)) else None
  }

  /** The characters of token `i`, when the decodings of both prefixes begin the whole text. */
  function TokenSpan(decode: Decoder, ids: seq<int>, i: nat): (s: Option<Span>)
    requires i < |ids|
    ensures s.Some? ==> s.value.start <= s.value.end <= |decode(ids)|
  {
    SpanOf(Boundary(decode, ids, i), Boundary(decode, ids, i + 1))
  }

  function TokenSpans(decode: Decoder, ids: seq<int>): (r: seq<Option<Span>>)
    ensures |r| == |ids|
    ensures forall i :: 0 <= i < |ids| ==> r[i].Some? ==> r[i].value.start <= r[i].value.end <= |decode(ids)|
  {
    seq(|ids|, i requires 0 <= i < |ids| => TokenSpan(decode, ids, i))
  }

  function Blanks(n: nat): Text { seq(n, _ => ' ') }

  function Blanked(t: Text, s: Span): (r: Text)
    requires s.start <= s.end <= |t|
    ensures |r| == |t|
  {
    t[..s.start] + Blanks(s.end - s.start) + t[s.end..]
  }

  predicate SpansFit(spans: seq<Option<Span>>, bound: nat) {
    forall i :: 0 <= i < |spans| ==> spans[i].Some? ==> spans[i].value.start <= spans[i].value.end <= bound
  }

  /** The text with its first `n` tokens' special ones blanked out. */
  function Visible(text: Text, ids: seq<int>, spans: seq<Option<Span>>, special: set<int>, n: nat)
    : (r: Outcome<Text, TargetError>)
    requires n <= |ids| == |spans| && SpansFit(spans, |text|)
    ensures r.Returned? ==> |r.value| == |text|
  {
    if n == 0 then Returned(text)
    else
      var before := Visible(text, ids, spans, special, n - 1);
      if before.Raised? || ids[n - 1] !in special then before
      else if spans[n - 1].None? then Raised(UnmappedSpecial)
      else Returned(Blanked(before.value, spans[n - 1].value))
  }

  // ----- The matching JSON span -----

  predicate IsMatch(scan: Text, start: nat, benchmark: Benchmark, action: map<seq<nat>, Json>)
    requires start < |scan|
  {
    && scan[start] == '{'
    && Parse(scan, start, []).Some? && IsAction(Parse(scan, start, []).value.value, benchmark, action)
  }

  function Matches(scan: Text, n: nat, benchmark: Benchmark, action: map<seq<nat>, Json>): seq<nat>
    requires n <= |scan|
  {
    if n == 0 then []
    else Matches(scan, n - 1, benchmark, action) + if IsMatch(scan, n - 1, benchmark, action) then [n - 1] else []
  }

  // ----- The selection of tokens -----

  function Max(a: nat, b: nat): nat { if a < b then b else a }
  function Min(a: nat, b: nat): nat { if a < b then a else b }

  function Chars(start: nat, end: nat): (r: set<nat>)
    ensures forall p: nat :: p in r <==> start <= p < end
  {
    if end <= start then {} else Chars(start, end - 1) + {end - 1}
  }

  /** The characters of the value leaves that fall into `span`. */
  function Overlap(span: Span, values: seq<Leaf>): set<nat> {
    if values == [] then {}
    else Chars(Max(span.start, values[0].span.start), Min(span.end, values[0].span.end)) + Overlap(span, values[1..])
  }

  function Wanted(values: seq<Leaf>): set<nat> {
    if values == [] then {} else Chars(values[0].span.start, values[0].span.end) + Wanted(values[1..])
  }

  lemma {:induction false} OverlapIsCommon(span: Span, values: seq<Leaf>)
    ensures Overlap(span, values) == Chars(span.start, span.end) * Wanted(values)
  {
    if values != [] { OverlapIsCommon(span, values[1..]); }
  }

  predicate Touches(span: Span, others: seq<Span>) {
    exists i :: 0 <= i < |others| && Max(span.start, others[i].start) < Min(span.end, others[i].end)
  }

  datatype Mapping = Mapping(ids: seq<int>, spans: seq<Option<Span>>, special: set<int>, values: seq<Leaf>, forbidden: seq<Span>)

  /** Token `i` is not special and covers a value character. */
  predicate Chosen(m: Mapping, i: nat)
    requires i < |m.ids| == |m.spans|
  {
    m.ids[i] !in m.special && m.spans[i].Some? && Overlap(m.spans[i].value, m.values) != {}
  }

  datatype Collected = Collected(offsets: seq<nat>, covered: set<nat>)

  /** The first `n` tokens, scanned in order. */
  function Collect(m: Mapping, n: nat): Outcome<Collected, TargetError>
    requires n <= |m.ids| == |m.spans|
  {
    if n == 0 then Returned(Collected([], {}))
    else
      var before := Collect(m, n - 1);
      if before.Raised? || !Chosen(m, n - 1) then before
      else if Touches(m.spans[n - 1].value, m.forbidden) then Raised(MixedToken)
      else Returned(Collected(before.value.offsets + [n - 1],
                              before.value.covered + Overlap(m.spans[n - 1].value, m.values)))
  }

  function Positions(offsets: seq<nat>, promptTokens: int): seq<int> {
    seq(|offsets|, i requires 0 <= i < |offsets| => promptTokens + offsets[i])
  }

  function Predictions(positions: seq<int>): seq<int> {
    seq(|positions|, i requires 0 <= i < |positions| => positions[i] - 1)
  }

  predicate InRange(xs: seq<int>, bound: nat) { forall i :: 0 <= i < |xs| ==> 0 <= xs[i] < bound }

  function Gather(ids: seq<int>, positions: seq<int>): seq<int>
    requires InRange(positions, |ids|)
  {
    seq(|positions|, i requires 0 <= i < |positions| => ids[positions[i]])
  }

  function Paths(values: seq<Leaf>): seq<Path> {
    seq(|values|, i requires 0 <= i < |values| => values[i].path)
  }

  function Texts(text: Text, spans: seq<Option<Span>>, offsets: seq<nat>): seq<Text>
    requires SpansFit(spans, |text|)
    requires forall k :: k in offsets ==> k < |spans| && spans[k].Some?
  {
    seq(|offsets|, i requires 0 <= i < |offsets| =>
      assert offsets[i] in offsets;
      var s := spans[offsets[i]].value; text[s.start..s.end])
  }

  // ----- The immutable result and its validation -----

  predicate Ascending(xs: seq<int>) { forall i, j :: 0 <= i < j < |xs| ==> xs[i] < xs[j] }

  function Validate(t: ActionTargets, ids: seq<int>, mask: seq<int>): Check<TargetError> {
    var s := t.spec;
    if s.schema != TARGET_SCHEMA || s != t.digest then Fail(ModifiedSpecification)
    else if |ids| != t.length then Fail(OtherSequence)
    else if Source(ids, mask) != t.source then Fail(OtherPrefix)
    else if s.positions == [] || !Ascending(s.positions) || Predictions(s.positions) != s.predictions
      || s.positions[0] < s.promptTokens || s.positions[|s.positions| - 1] >= t.length then Fail(Misaligned)
    else if !InRange(s.positions, |ids|) || Gather(ids, s.positions) != s.tokenIds then Fail(OtherTokens)
    else if exists i :: 0 <= i < |s.tokenIds| && s.tokenIds[i] in s.special then Fail(SpecialTarget)
    else Pass
  }

  // ----- The whole mapping -----

  function MaskOf(e: Emission): seq<int> { if e.mask.Some? then e.mask.value else seq(|e.ids|, _ => 1) }

  function Guard(e: Emission): Check<TargetError> {
    if e.benchmark == Other then Fail(UnknownBenchmark)
    else if e.action.None? then Fail(NoParsedAction)
    else if !(1 <= e.promptTokens < |e.ids|) then Fail(BadPromptCount)
    else if |MaskOf(e)| != |e.ids| || exists i :: 0 <= i < |e.ids| && MaskOf(e)[i] != 1 then Fail(BadMask)
    else Pass
  }

  /** The text that is scanned for the action, and where its value stands. */
  function Located(decode: Decoder, e: Emission): (r: Outcome<(Text, nat), TargetError>)
    requires Guard(e).Pass?
    ensures r.Returned? ==> r.value.1 < |r.value.0| && IsMatch(r.value.0, r.value.1, e.benchmark, e.action.value)
  {
    var ids := e.ids[e.promptTokens..];
    var spans := TokenSpans(decode, ids);
    var scan := Visible(decode(ids), ids, spans, e.special, |ids|);
    if scan.Raised? then Raised(scan.error)
    else
      var matches := Matches(scan.value, |scan.value|, e.benchmark, e.action.value);
      if |matches| != 1 then Raised(NoUniqueSpan)
      else
        MatchesAreAll(scan.value, |scan.value|, e.benchmark, e.action.value);
        assert matches[0] in matches;
        Returned((scan.value, matches[0]))
  }

  function MappingOf(decode: Decoder, e: Emission): Outcome<Mapping, TargetError>
    requires Guard(e).Pass?
  {
    var ids := e.ids[e.promptTokens..];
    var l := Located(decode, e);
    if l.Raised? then Raised(l.error)
    else
      var r := Parse(l.value.0, l.value.1, []).value;
      Returned(Mapping(ids, TokenSpans(decode, ids), e.special, Selected(r.leaves, e.benchmark),
                       r.keys + Unselected(r.leaves, e.benchmark)))
  }

  lemma {:induction false} MatchesAreAll(scan: Text, n: nat, benchmark: Benchmark, action: map<seq<nat>, Json>)
    requires n <= |scan|
    ensures forall x :: x in Matches(scan, n, benchmark, action) ==> x < n && IsMatch(scan, x, benchmark, action)
    ensures forall x: nat :: x < n && IsMatch(scan, x, benchmark, action) ==> x in Matches(scan, n, benchmark, action)
    ensures Distinct(Matches(scan, n, benchmark, action))
  {
    hide IsMatch;
    if n > 0 { MatchesAreAll(scan, n - 1, benchmark, action); }
  }

  lemma AscendingAppend(xs: seq<nat>, x: nat)
    requires Ascending(xs) && forall k :: k in xs ==> k < x
    ensures Ascending(xs + [x])
  {
    forall i, j | 0 <= i < j < |xs| + 1 ensures (xs + [x])[i] < (xs + [x])[j] { assert xs[i] in xs; }
  }

  /** Character `p` lies in token `k`, which is not special. */
  predicate Bears(m: Mapping, k: nat, p: nat)
    requires |m.ids| == |m.spans|
  {
    k < |m.ids| && m.ids[k] !in m.special && m.spans[k].Some? && m.spans[k].value.start <= p < m.spans[k].value.end
  }

  lemma ChosenBears(m: Mapping, k: nat, p: nat)
    requires |m.ids| == |m.spans|
    ensures Bears(m, k, p) && p in Wanted(m.values) ==> Chosen(m, k) && p in Overlap(m.spans[k].value, m.values)
    ensures k < |m.ids| && Chosen(m, k) && p in Overlap(m.spans[k].value, m.values) ==>
      Bears(m, k, p) && p in Wanted(m.values)
  {
    if k < |m.ids| && m.spans[k].Some? { OverlapIsCommon(m.spans[k].value, m.values); }
  }

  lemma {:induction false} CollectFacts(m: Mapping, n: nat)
    requires n <= |m.ids| == |m.spans| && Collect(m, n).Returned?
    ensures forall k :: k in Collect(m, n).value.offsets ==>
      k < n && Chosen(m, k) && !Touches(m.spans[k].value, m.forbidden)
    ensures forall k: nat :: k < n && Chosen(m, k) ==> k in Collect(m, n).value.offsets
    ensures Ascending(Collect(m, n).value.offsets)
    ensures forall p: nat :: p in Collect(m, n).value.covered <==>
      p in Wanted(m.values) && exists k: nat :: k < n && Bears(m, k, p)
  {
    hide Overlap, Touches, Wanted, Bears, Chosen;
    if n > 0 {
      CollectFacts(m, n - 1);
      var before := Collect(m, n - 1).value;
      forall p: nat
        ensures p in Collect(m, n).value.covered <==> p in Wanted(m.values) && exists k: nat :: k < n && Bears(m, k, p)
      {
        ChosenBears(m, n - 1, p);
      }
      if Chosen(m, n - 1) { AscendingAppend(before.offsets, n - 1); }
    }
  }

  lemma PositionsFit(offsets: seq<nat>, promptTokens: nat, length: nat)
    requires forall k :: k in offsets ==> k < length - promptTokens
    ensures InRange(Positions(offsets, promptTokens), length)
    ensures Ascending(offsets) ==> Ascending(Positions(offsets, promptTokens))
  {
    forall i | 0 <= i < |offsets| ensures offsets[i] < length - promptTokens { assert offsets[i] in offsets; }
  }

  function Assembled(decode: Decoder, e: Emission, m: Mapping, offsets: seq<nat>): ActionTargets
    requires 1 <= e.promptTokens < |e.ids| && m.ids == e.ids[e.promptTokens..]
    requires m.spans == TokenSpans(decode, m.ids)
    requires forall k :: k in offsets ==> k < |m.ids| && m.spans[k].Some?
  {
    var positions := Positions(offsets, e.promptTokens);
    PositionsFit(offsets, e.promptTokens, |e.ids|);
    var spec := Specification(e.benchmark, e.promptTokens, positions, Predictions(positions), Gather(e.ids, positions),
                              Texts(decode(m.ids), m.spans, offsets), Paths(m.values), e.special, e.tokenizer, TARGET_SCHEMA);
    ActionTargets(spec, Source(e.ids, MaskOf(e)), |e.ids|, spec)
  }

  function Targets(decode: Decoder, e: Emission): Outcome<ActionTargets, TargetError> {
    if Guard(e).Fail? then Raised(Guard(e).error)
    else
      var m := MappingOf(decode, e);
      if m.Raised? then Raised(m.error)
      else if m.value.values == [] then Raised(NoValues)
      else
        var c := Collect(m.value, |m.value.ids|);
        if c.Raised? then Raised(c.error)
        else if c.value.offsets == [] || c.value.covered != Wanted(m.value.values) then Raised(IncompleteCoverage)
        else
          CollectFacts(m.value, |m.value.ids|);
          var t := Assembled(decode, e, m.value, c.value.offsets);
          var v := Validate(t, e.ids, MaskOf(e));
          if v.Fail? then Raised(v.error) else Returned(t)
  }
}
