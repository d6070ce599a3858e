/** The parser object: a cursor over one text and two growing lists of spans. */
module JsonParser {
  import opened Wrappers
  import opened JsonText
  import opened JsonGrammar
  import opened JsonSpans

  datatype JsonError =
    | IncompleteValue | KeyNotString | BadString | DuplicateKey | MissingColon | MissingSeparator | BadPrimitive

  /** What the rest of a loop still yields, behind everything recorded since the lists stood at `l` and `k`. */
  ghost predicate Pending(target: Option<Parsed>, rest: Option<Parsed>, l: seq<Leaf>, k: seq<Span>,
                          leaves: seq<Leaf>, keys: seq<Span>) {
    && (target.Some? <==> rest.Some?)
    && (target.Some? ==>
          && target.value.value == rest.value.value && target.value.end == rest.value.end
          && l + target.value.leaves == leaves + rest.value.leaves
          && k + target.value.keys == keys + rest.value.keys)
  }

  lemma NothingRecorded(target: Option<Parsed>, l: seq<Leaf>, k: seq<Span>)
    ensures Pending(target, target, l, k, l, k)
  {
  }

  /** A call did what `spec` says, moving the lists from `l` and `k` to `leaves` and `keys`. */
  ghost predicate Yields(spec: Option<Parsed>, l: seq<Leaf>, k: seq<Span>, r: Outcome<Scanned<Json>, JsonError>,
                         leaves: seq<Leaf>, keys: seq<Span>) {
    && (r.Returned? <==> spec.Some?)
    && (r.Returned? ==>
          && r.value == Scanned(spec.value.value, spec.value.end)
          && leaves == l + spec.value.leaves && keys == k + spec.value.keys)
  }

  /** One turn of the object loop, against the specification. */
  lemma MemberTurn(t: Text, pos: nat, path: Path, fields: map<seq<nat>, Json>, target: Option<Parsed>,
                   l: seq<Leaf>, k: seq<Span>, leaves: seq<Leaf>, keys: seq<Span>)
    requires pos <= |t| && Pending(target, ParseMembers(t, pos, path, fields), l, k, leaves, keys)
    ensures var m := ParseMember(t, pos, path, fields);
      && (m.None? ==> target.None?)
      && (m.Some? ==>
            var Member(name, key, v, q) := m.value;
            var extended := fields[name := v.value];
            && (CharAt(t, q, '}') ==>
                  Yields(target, l, k, Returned(Scanned(Obj(extended), q + 1)), leaves + v.leaves, keys + [key] + v.keys))
            && (CharAt(t, q, ',') ==>
                  Pending(target, ParseMembers(t, SkipSpace(t, q + 1), path, extended), l, k,
                          leaves + v.leaves, keys + [key] + v.keys))
            && (!CharAt(t, q, '}') && !CharAt(t, q, ',') ==> target.None?))
  {
    hide ParseMember, SkipSpace;
  }

  /** One turn of the array loop, against the specification. */
  lemma ItemTurn(t: Text, pos: nat, path: Path, items: seq<Json>, target: Option<Parsed>,
                 l: seq<Leaf>, k: seq<Span>, leaves: seq<Leaf>, keys: seq<Span>)
    requires pos <= |t| && Pending(target, ParseItems(t, pos, path, items), l, k, leaves, keys)
    ensures var v := Parse(t, pos, path + [Index(|items|)]);
      && (v.None? ==> target.None?)
      && (v.Some? ==>
            var q := SkipSpace(t, v.value.end);
            var extended := items + [v.value.value];
            && (CharAt(t, q, ']') ==>
                  Yields(target, l, k, Returned(Scanned(Arr(extended), q + 1)), leaves + v.value.leaves, keys + v.value.keys))
            && (CharAt(t, q, ',') ==>
                  Pending(target, ParseItems(t, SkipSpace(t, q + 1), path, extended), l, k,
                          leaves + v.value.leaves, keys + v.value.keys))
            && (!CharAt(t, q, ']') && !CharAt(t, q, ',') ==> target.None?))
  {
    hide Parse, SkipSpace;
  }

  class JSONSpans {
    const text: Text
    var leaves: seq<Leaf>
    var keys: seq<Span>

    constructor (text: Text)
      ensures this.text == text && leaves == [] && keys == []
    {
      this.text := text;
      leaves, keys := [], [];
    }

    method SpaceEnd(pos: nat) returns (end: nat)
      requires pos <= |text|
      ensures end == SkipSpace(text, pos)
    {
      end := pos;
      while end < |text| && Space(text[end])
        invariant pos <= end <= |text| && SkipSpace(text, end) == SkipSpace(text, pos)
      {
        end := end + 1;
      }
    }

    method ParseValue(pos: nat, path: Path) returns (r: Outcome<Scanned<Json>, JsonError>)
      requires pos <= |text|
      modifies this
      ensures Yields(Parse(text, pos, path), old(leaves), old(keys), r, leaves, keys)
      decreases |text| - pos, 1
    {
      hide ScanString, ScanPrimitive, ParseMembers, ParseItems, SkipSpace, Space, AllSpace;
      var p := SpaceEnd(pos);
      if p >= |text| { return Raised(IncompleteValue); }
      if text[p] == '{' {
        r := ParseObject(p, path);
      } else if text[p] == '[' {
        r := ParseArray(p, path);
      } else if text[p] == '"' {
        var s := ScanString(text, p + 1);
        if s.None? { return Raised(BadString); }
        leaves := leaves + [Leaf(path, Span(p + 1, s.value.end - 1))];
        r := Returned(Scanned(Str(s.value.value), s.value.end));
      } else {
        var s := ScanPrimitive(text, p);
        if s.None? { return Raised(BadPrimitive); }
        leaves := leaves + [Leaf(path, Span(p, s.value.end))];
        r := Returned(s.value);
      }
    }

    /** One turn of the object loop up to the blanks behind the value: key, colon, value. */
    method ParseOneMember(pos: nat, path: Path, result: map<seq<nat>, Json>)
      returns (r: Outcome<(map<seq<nat>, Json>, nat), JsonError>)
      requires pos <= |text|
      modifies this
      ensures var m := ParseMember(text, pos, path, result);
        && (r.Returned? <==> m.Some?)
        && (r.Returned? ==>
              && r.value == (result[m.value.name := m.value.value.value], m.value.next)
              && leaves == old(leaves) + m.value.value.leaves
              && keys == old(keys) + [m.value.key] + m.value.value.keys)
      decreases |text| - pos, 0
    {
      hide Parse, ScanString, SkipSpace, Space, At, AllSpace;
      if pos >= |text| || text[pos] != '"' { return Raised(KeyNotString); }
      var k := ScanString(text, pos + 1);
      if k.None? { return Raised(BadString); }
      if k.value.value in result { return Raised(DuplicateKey); }
      keys := keys + [Span(pos + 1, k.value.end - 1)];
      var colon := SpaceEnd(k.value.end);
      if colon >= |text| || text[colon] != ':' { return Raised(MissingColon); }
      var v :- ParseValue(colon + 1, path + [Key(k.value.value)]);
      var q := SpaceEnd(v.end);
      r := Returned((result[k.value.value := v.value], q));
    }

    method ParseObject(start: nat, path: Path) returns (r: Outcome<Scanned<Json>, JsonError>)
      requires start < |text| && text[start] == '{'
      modifies this
      ensures var q := SkipSpace(text, start + 1);
        Yields(if CharAt(text, q, '}') then Some(Parsed(Obj(map[]), q + 1, [], [])) else ParseMembers(text, q, path, map[]),
               old(leaves), old(keys), r, leaves, keys)
      decreases |text| - start, 0
    {
      hide ParseMember, SkipSpace, ParseMembers, Pending, Space, At, AllSpace;
      var pos := SpaceEnd(start + 1);
      if pos < |text| && text[pos] == '}' { return Returned(Scanned(Obj(map[]), pos + 1)); }
      var result: map<seq<nat>, Json> := map[];
      ghost var target := ParseMembers(text, pos, path, map[]);
      NothingRecorded(target, leaves, keys);
      while true
        invariant start < pos <= |text|
        invariant Pending(target, ParseMembers(text, pos, path, result), old(leaves), old(keys), leaves, keys)
        decreases |text| - pos
      {
        MemberTurn(text, pos, path, result, target, old(leaves), old(keys), leaves, keys);
        var member :- ParseOneMember(pos, path, result);
        var q := member.1;
        result := member.0;
        if q < |text| && text[q] == '}' { return Returned(Scanned(Obj(result), q + 1)); }
        if q >= |text| || text[q] != ',' { return Raised(MissingSeparator); }
        pos := SpaceEnd(q + 1);
      }
    }

    method ParseArray(start: nat, path: Path) returns (r: Outcome<Scanned<Json>, JsonError>)
      requires start < |text| && text[start] == '['
      modifies this
      ensures var q := SkipSpace(text, start + 1);
        Yields(if CharAt(text, q, ']') then Some(Parsed(Arr([]), q + 1, [], [])) else ParseItems(text, q, path, []),
               old(leaves), old(keys), r, leaves, keys)
      decreases |text| - start, 0
    {
      hide Parse, SkipSpace, ParseItems, Pending, Space, At, AllSpace;
      var pos := SpaceEnd(start + 1);
      if pos < |text| && text[pos] == ']' { return Returned(Scanned(Arr([]), pos + 1)); }
      var result: seq<Json> := [];
      ghost var target := ParseItems(text, pos, path, []);
      NothingRecorded(target, leaves, keys);
      while true
        invariant start < pos <= |text|
        invariant Pending(target, ParseItems(text, pos, path, result), old(leaves), old(keys), leaves, keys)
        decreases |text| - pos
      {
        ItemTurn(text, pos, path, result, target, old(leaves), old(keys), leaves, keys);
        var v := ParseValue(pos, path + [Index(|result|)]);
        if v.Raised? { return Raised(v.error); }
        result := result + [v.value.value];
        var q := SpaceEnd(v.value.end);
        if q < |text| && text[q] == ']' { return Returned(Scanned(Arr(result), q + 1)); }
        if q >= |text| || text[q] != ',' { return Raised(MissingSeparator); }
        pos := SpaceEnd(q + 1);
      }
    }
  }
}
