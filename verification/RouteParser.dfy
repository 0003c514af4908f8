/**
 The native route pattern parser (src/core/route.c).  It scans the text once with moving
 positions, has its own bounds, and is written apart from the compiler's tests; the main
 result says exactly which patterns of the compiler it accepts.
*/
module RouteParser {
  import opened Prelude
  import opened Permutations
  import opened Texts
  import opened RoutePatterns

  const MAX_SEGMENTS := 64
  const MAX_PARAMS := 32

  datatype ParamKind = StringParam | IntParam | UuidParam | AlphaParam | FloatParam

  datatype Segment = Static(text: string) | Param(name: string, kind: ParamKind)

  function KindOf(kind: string): Option<ParamKind> {
    if kind == "int" then Some(IntParam)
    else if kind == "str" then Some(StringParam)
    else if kind == "uuid" then Some(UuidParam)
    else if kind == "alpha" then Some(AlphaParam)
    else if kind == "float" then Some(FloatParam)
    else None
  }

  /** What one segment means: nothing unless the compiler supports it. */
  function Meaning(segment: string): Option<Segment> {
    if !SegmentSupported(segment) then None
    else if IsBraced(segment)
        then Some(Param(BeforeColon(Inner(segment)), KindOf(AfterColon(Inner(segment), "str")).value))
    else Some(Static(segment))
  }

  predicate NameUsed(segments: seq<Segment>, name: string) {
    exists i :: 0 <= i < |segments| && segments[i].Param? && segments[i].name == name
  }

  /** sl_route_param_name_valid: the runtime's own test of a name. */
  method ParamNameValid(name: string) returns (r: bool)
    ensures r == NameSupported(name)
  {
    if name == "" || !('A' <= name[0] <= 'Z' || 'a' <= name[0] <= 'z' || name[0] == '_') {
      return false;
    }
    for i := 1 to |name|
      invariant forall k :: 0 <= k < i ==> IsLetter(name[k]) || IsDigit(name[k]) || name[k] == '_'
    {
      var c := name[i];
      if !('A' <= c <= 'Z' || 'a' <= c <= 'z' || c == '_' || '0' <= c <= '9') {
        return false;
      }
    }
    r := true;
  }

  /** sl_route_parse_param_segment: one pass over the inner text for braces and the separator. */
  method ParseParamSegment(segment: string, parsed: seq<Segment>) returns (r: Option<Segment>)
    requires StartsWith(segment, '{') || EndsWith(segment, '}')
    ensures r == if Meaning(segment).Some? && !NameUsed(parsed, Meaning(segment).value.name)
                 then Meaning(segment) else None
    ensures Meaning(segment).Some? ==> Meaning(segment).value.Param?
  {
    if |segment| < 3 || segment[0] != '{' || segment[|segment| - 1] != '}' {
      if IsBraced(segment) {
        assert Inner(segment) == "";
      }
      return None;
    }
    var inner := segment[1..|segment| - 1];
    assert inner == Inner(segment);
    var index, colon, hasColon := 0, 0, false;
    while index < |inner|
      invariant 0 <= index <= |inner|
      invariant forall i :: 0 <= i < index ==> inner[i] != '{' && inner[i] != '}'
      invariant hasColon ==> colon < index && colon == Find(inner, ':', 0)
      invariant hasColon ==> forall i :: colon < i < index ==> inner[i] != ':'
      invariant !hasColon ==> forall i :: 0 <= i < index ==> inner[i] != ':'
    {
      if inner[index] == '{' || inner[index] == '}' {
        return None;
      }
      if inner[index] == ':' {
        if hasColon {
          SecondColon(inner, index);
          return None;
        }
        hasColon := true;
        colon := index;
      }
      index := index + 1;
    }
    var name := if hasColon then inner[..colon] else inner;
    assert name == BeforeColon(inner) by {
      if !hasColon {
        assert inner[..|inner|] == inner;
      }
    }
    var valid := ParamNameValid(name);
    if !valid {
      return None;
    }
    var kind := StringParam;
    if hasColon {
      if colon + 1 >= |inner| {
        assert AfterColon(inner, "str") == "";
        return None;
      }
      var parsedKind := KindOf(inner[colon + 1..]);
      if parsedKind.None? {
        return None;
      }
      kind := parsedKind.value;
    }
    if NameUsed(parsed, name) {
      return None;
    }
    r := Some(Param(name, kind));
  }

  lemma KindsHaveNoColon(kind: string)
    requires KindSupported(kind)
    ensures ':' !in kind
  {
  }

  lemma SecondColon(inner: string, index: nat)
    requires index < |inner| && inner[index] == ':' && Find(inner, ':', 0) < index
    ensures !KindSupported(AfterColon(inner, "str"))
  {
    var kind := AfterColon(inner, "str");
    assert kind[index - Find(inner, ':', 0) - 1] == ':';
    if KindSupported(kind) {
      KindsHaveNoColon(kind);
    }
  }

  /** sl_route_parse_segment */
  method ParseSegment(segment: string, parsed: seq<Segment>) returns (r: Option<Segment>)
    ensures r == if Meaning(segment).Some?
                    && (Meaning(segment).value.Param? ==> !NameUsed(parsed, Meaning(segment).value.name))
                 then Meaning(segment) else None
  {
    if segment == "" {
      return None;
    }
    if segment[0] == '{' || segment[|segment| - 1] == '}' {
      r := ParseParamSegment(segment, parsed);
    } else if '{' in segment || '}' in segment {
      r := None;
    } else {
      r := Some(Static(segment));
    }
  }

  function CountParams(segments: seq<Segment>): nat {
    if segments == [] then 0
    else CountParams(segments[..|segments| - 1]) + (if segments[|segments| - 1].Param? then 1 else 0)
  }

  /** What each piece means on its own. */
  function Readings(pieces: seq<string>): (r: seq<Option<Segment>>)
    ensures |r| == |pieces|
  {
    seq(|pieces|, i requires 0 <= i < |pieces| => Meaning(pieces[i]))
  }

  /** Room for one more segment, and its name not yet taken. */
  predicate Fits(m: Option<Segment>, parsed: seq<Segment>) {
    && |parsed| < MAX_SEGMENTS && m.Some?
    && (m.value.Param? ==> !NameUsed(parsed, m.value.name) && CountParams(parsed) < MAX_PARAMS)
  }

  /** The loop as a left fold over what is still to be read. */
  function Fold(ms: seq<Option<Segment>>, parsed: seq<Segment>): Option<seq<Segment>>
    decreases |ms|
  {
    if ms == [] then Some(parsed)
    else if !Fits(ms[0], parsed) then None
    else Fold(ms[1..], parsed + [ms[0].value])
  }

  function ParsePieces(pieces: seq<string>, parsed: seq<Segment>): Option<seq<Segment>> {
    Fold(Readings(pieces), parsed)
  }

  lemma FoldStep(pieces: seq<string>, parsed: seq<Segment>)
    requires pieces != []
    ensures ParsePieces(pieces, parsed) ==
            if Fits(Meaning(pieces[0]), parsed) then ParsePieces(pieces[1..], parsed + [Meaning(pieces[0]).value])
                else None
  {
    assert Readings(pieces)[1..] == Readings(pieces[1..]);
  }

  /** The inner scan for the next slash. */
  method SegmentEnd(text: string, pos: nat) returns (end: nat)
    requires pos <= |text|
    ensures end == Find(text, '/', pos)
  {
    end := pos;
    while end < |text| && text[end] != '/'
      invariant pos <= end <= |text|
      invariant Find(text, '/', pos) == Find(text, '/', end)
    {
      end := end + 1;
    }
  }

  lemma NextPiece(text: string, pos: nat)
    requires pos <= |text|
    ensures var pieces := SplitFrom(text, '/', pos);
            var end := Find(text, '/', pos);
            && pieces[0] == text[pos..end]
            && pieces[1..] == (if end == |text| then [] else SplitFrom(text, '/', end + 1))
  {
  }

  /** sl_route_pattern_parse, without the copy into the arena and the diagnostics. */
  method ParsePattern(pattern: string) returns (r: Option<seq<Segment>>)
    ensures r == Parsed(pattern)
  {
    if pattern == "" || pattern[0] != '/' {
      return None;
    }
    if '?' in pattern {
      return None;
    }
    if |pattern| == 1 {
      assert pattern == "/";
      return Some([]);
    }
    PiecesAfterSlash(pattern);
    r := ParseFrom(pattern);
  }

  /** One segment and the checks of its turn; `params` counts the parameters so far. */
  method TakeSegment(piece: string, parsed: seq<Segment>, params: nat) returns (r: Option<Segment>)
    requires params == CountParams(parsed)
    ensures r == if Fits(Meaning(piece), parsed) then Meaning(piece) else None
  {
    if |parsed| >= MAX_SEGMENTS {
      return None;
    }
    r := ParseSegment(piece, parsed);
    if r.Some? && r.value.Param? && params >= MAX_PARAMS {
      return None;
    }
  }

  lemma CountParamsSnoc(parsed: seq<Segment>, segment: Segment)
    ensures CountParams(parsed + [segment]) == CountParams(parsed) + (if segment.Param? then 1 else 0)
  {
    assert (parsed + [segment])[..|parsed|] == parsed;
  }

  /** One turn of the loop at `pos`: the segment read and where it ends. */
  method ParseOne(pattern: string, pos: nat, parsed: seq<Segment>, params: nat, ghost rest: seq<string>)
    returns (r: Option<(Segment, nat)>)
    requires pos <= |pattern| && rest == SplitFrom(pattern, '/', pos) && params == CountParams(parsed)
    ensures r.None? ==> ParsePieces(rest, parsed) == None
    ensures r.Some? ==>
              pos <= r.value.1 <= |pattern| && ParsePieces(rest, parsed) == ParsePieces(rest[1..], parsed + [r.value.0])
    ensures r.Some? ==> rest[1..] == if r.value.1 == |pattern| then [] else SplitFrom(pattern, '/', r.value.1 + 1)
  {
    NextPiece(pattern, pos);
    FoldStep(rest, parsed);
    var end := SegmentEnd(pattern, pos);
    var segment := TakeSegment(pattern[pos..end], parsed, params);
    if segment.None? {
      return None;
    }
    r := Some((segment.value, end));
  }

  /** The loop over the segments, from the byte after the first slash. */
  method ParseFrom(pattern: string) returns (r: Option<seq<Segment>>)
    requires |pattern| > 1
    ensures r == ParsePieces(SplitFrom(pattern, '/', 1), [])
  {
    var parsed: seq<Segment> := [];
    var params, pos := 0, 1;
    ghost var rest := SplitFrom(pattern, '/', 1);
    ghost var whole := ParsePieces(rest, []);
    while true
      invariant 1 <= pos <= |pattern| && params == CountParams(parsed)
      invariant rest == SplitFrom(pattern, '/', pos) && whole == ParsePieces(rest, parsed)
      decreases |pattern| - pos
    {
      var turn := ParseOne(pattern, pos, parsed, params, rest);
      if turn.None? {
        return None;
      }
      var (segment, end) := turn.value;
      CountParamsSnoc(parsed, segment);
      params := if segment.Param? then params + 1 else params;
      parsed := parsed + [segment];
      rest := rest[1..];
      if end == |pattern| {
        return Some(parsed);
      }
      pos := end + 1;
    }
  }

  function Parsed(pattern: string): Option<seq<Segment>> {
    if !StartsWith(pattern, '/') || '?' in pattern then None else ParsePieces(Segments(pattern), [])
  }

  lemma PiecesAfterSlash(pattern: string)
    requires StartsWith(pattern, '/') && pattern != "/"
    ensures SplitFrom(pattern, '/', 1) == Segments(pattern)
  {
    assert pattern == "/" + pattern[1..];
    SplitShift("/", pattern[1..], '/', 0);
    SplitSlash(pattern[1..]);
  }

  // ----- exactly which patterns the runtime takes -----

  function Meanings(pieces: seq<string>): (r: seq<Segment>)
    requires AllSupported(pieces)
    ensures |r| == |pieces|
  {
    seq(|pieces|, i requires 0 <= i < |pieces| => Meaning(pieces[i]).value)
  }

  predicate Accepted(segments: seq<Segment>) {
    && |segments| <= MAX_SEGMENTS
    && CountParams(segments) <= MAX_PARAMS
    && UniqueNames(segments)
  }

  predicate UniqueNames(segments: seq<Segment>) {
    forall i, j :: 0 <= i < j < |segments| && segments[i].Param? && segments[j].Param? ==>
        segments[i].name != segments[j].name
  }

  lemma AcceptedPrefix(segments: seq<Segment>, segment: Segment)
    requires Accepted(segments + [segment])
    ensures Accepted(segments)
  {
    var all := segments + [segment];
    assert all[..|segments|] == segments;
    assert forall i :: 0 <= i < |segments| ==> all[i] == segments[i];
  }

  lemma AcceptedSnoc(segments: seq<Segment>, segment: Segment)
    requires Accepted(segments)
    ensures Accepted(segments + [segment]) <==>
            |segments| < MAX_SEGMENTS &&
            (segment.Param? ==> !NameUsed(segments, segment.name) && CountParams(segments) < MAX_PARAMS)
  {
    var all := segments + [segment];
    assert all[..|segments|] == segments;
    assert forall i :: 0 <= i < |segments| ==> all[i] == segments[i];
    if segment.Param? && NameUsed(segments, segment.name) {
      var i :| 0 <= i < |segments| && segments[i].Param? && segments[i].name == segment.name;
      assert all[i].name == all[|segments|].name;
      assert !UniqueNames(all);
    }
  }

  lemma {:induction false} AcceptedPrefixes(segments: seq<Segment>, more: seq<Segment>)
    requires Accepted(segments + more)
    ensures Accepted(segments)
    decreases |more|
  {
    if more == [] {
      assert segments + more == segments;
    } else {
      var last := |more| - 1;
      assert segments + more == (segments + more[..last]) + [more[last]];
      AcceptedPrefix(segments + more[..last], more[last]);
      AcceptedPrefixes(segments, more[..last]);
    }
  }

  predicate AllRead(ms: seq<Option<Segment>>) {
    forall i :: 0 <= i < |ms| ==> ms[i].Some?
  }

  function Values(ms: seq<Option<Segment>>): (r: seq<Segment>)
    requires AllRead(ms)
    ensures |r| == |ms|
  {
    seq(|ms|, i requires 0 <= i < |ms| => ms[i].value)
  }

  /** The fold succeeds exactly when the whole list is within the bounds. */
  lemma {:induction false} FoldExactly(ms: seq<Option<Segment>>, parsed: seq<Segment>)
    requires Accepted(parsed)
    ensures Fold(ms, parsed) == if AllRead(ms) && Accepted(parsed + Values(ms)) then Some(parsed + Values(ms)) else None
    decreases |ms|
  {
    if ms == [] {
      assert parsed + Values(ms) == parsed;
    } else if ms[0].Some? {
      var m, rest := ms[0].value, ms[1..];
      AcceptedSnoc(parsed, m);
      if Accepted(parsed + [m]) {
        FoldExactly(rest, parsed + [m]);
      }
      if AllRead(ms) {
        assert parsed + Values(ms) == (parsed + [m]) + Values(rest);
        if Accepted(parsed + Values(ms)) {
          AcceptedPrefixes(parsed + [m], Values(rest));
        }
      } else {
        var i :| 0 <= i < |ms| && ms[i].None?;
        assert rest[i - 1].None?;
      }
    }
  }

  lemma ReadingsOfSupported(pieces: seq<string>)
    ensures AllRead(Readings(pieces)) <==> AllSupported(pieces)
    ensures AllSupported(pieces) ==> Values(Readings(pieces)) == Meanings(pieces)
  {
    forall i | 0 <= i < |pieces|
      ensures Readings(pieces)[i].Some? <==> SegmentSupported(pieces[i])
    {
    }
  }

  lemma {:induction false} CountParamsIsBraced(pieces: seq<string>)
    requires AllSupported(pieces)
    ensures CountParams(Meanings(pieces)) == CountBraced(pieces)
    decreases |pieces|
  {
    if pieces != [] {
      var last := |pieces| - 1;
      assert pieces == pieces[..last] + [pieces[last]];
      CountParamsIsBraced(pieces[..last]);
      CountBracedConcat(pieces[..last], [pieces[last]]);
      assert [pieces[last]][1..] == [];
      assert Meanings(pieces)[..last] == Meanings(pieces[..last]);
    }
  }

  /** The compiler's and the runtime's parameter counts, and with them the dispatch strategies, agree. */
  lemma RuntimeAgreesOnParams(pattern: string)
    requires Parsed(pattern).Some?
    ensures PatternSupported(pattern)
    ensures CountParams(Parsed(pattern).value) == ParamCount(pattern)
  {
    RuntimeAcceptsExactly(pattern);
    CountParamsIsBraced(Segments(pattern));
    ParamCountOfSegments(pattern);
  }

  /**
   The runtime accepts a pattern exactly when the compiler supports it, it holds no `?`, it
   stays within the two bounds, and no parameter name is used twice.
  */
  lemma RuntimeAcceptsExactly(pattern: string)
    ensures Parsed(pattern).Some? <==>
            && PatternSupported(pattern)
            && '?' !in pattern
            && |Segments(pattern)| <= 64
            && ParamCount(pattern) <= 32
            && Distinct(NameList(Segments(pattern)))
    ensures Parsed(pattern).Some? ==>
            AllSupported(Segments(pattern)) && Parsed(pattern).value == Meanings(Segments(pattern))
  {
    SupportedExactly(pattern);
    if StartsWith(pattern, '/') {
      ParamCountOfSegments(pattern);
      PiecesParseExactly(Segments(pattern));
    }
  }

  lemma PiecesParseExactly(pieces: seq<string>)
    ensures ParsePieces(pieces, []).Some? <==>
            && AllSupported(pieces) && |pieces| <= MAX_SEGMENTS && CountBraced(pieces) <= MAX_PARAMS
                && Distinct(NameList(pieces))
    ensures ParsePieces(pieces, []).Some? ==> AllSupported(pieces) && ParsePieces(pieces, []).value == Meanings(pieces)
  {
    FoldExactly(Readings(pieces), []);
    ReadingsOfSupported(pieces);
    if AllSupported(pieces) {
      assert [] + Meanings(pieces) == Meanings(pieces);
      AcceptedMeanings(pieces);
    }
  }

  lemma AcceptedMeanings(pieces: seq<string>)
    requires AllSupported(pieces)
    ensures Accepted(Meanings(pieces)) <==>
              |pieces| <= MAX_SEGMENTS && CountBraced(pieces) <= MAX_PARAMS && Distinct(NameList(pieces))
  {
    CountParamsIsBraced(pieces);
    UniqueNamesAreDistinct(pieces);
  }

  /** The parameter names of a parsed pattern, in order. */
  function ParamNames(segments: seq<Segment>): seq<string> {
    if segments == [] then []
    else (if segments[0].Param? then [segments[0].name] else []) + ParamNames(segments[1..])
  }

  lemma {:induction false} ListedIsUsed(segments: seq<Segment>, name: string)
    ensures name in ParamNames(segments) <==> NameUsed(segments, name)
  {
    if segments != [] {
      ListedIsUsed(segments[1..], name);
      assert segments == [segments[0]] + segments[1..];
      NameUsedCons(segments[0], segments[1..], name);
    }
  }

  lemma {:induction false} UniqueIsDistinct(segments: seq<Segment>)
    ensures UniqueNames(segments) <==> Distinct(ParamNames(segments))
  {
    if segments != [] {
      var m, rest := segments[0], segments[1..];
      assert segments == [m] + rest;
      UniqueIsDistinct(rest);
      UniqueNamesCons(m, rest);
      if m.Param? {
        ListedIsUsed(rest, m.name);
        DistinctCons(m.name, ParamNames(rest));
      } else {
        assert [] + ParamNames(rest) == ParamNames(rest);
      }
    }
  }

  lemma MeaningOfSupported(piece: string)
    requires SegmentSupported(piece)
    ensures Meaning(piece).Some? && (Meaning(piece).value.Param? <==> IsBraced(piece))
    ensures IsBraced(piece) ==> Meaning(piece).value.name == BeforeColon(Inner(piece))
  {
  }

  lemma {:induction false} NamesOfMeanings(pieces: seq<string>)
    requires AllSupported(pieces)
    ensures ParamNames(Meanings(pieces)) == NameList(pieces)
    decreases |pieces|
  {
    if pieces != [] {
      NamesOfMeanings(pieces[1..]);
      MeaningOfSupported(pieces[0]);
      assert Meanings(pieces)[1..] == Meanings(pieces[1..]);
    }
  }

  lemma UniqueNamesAreDistinct(pieces: seq<string>)
    requires AllSupported(pieces)
    ensures UniqueNames(Meanings(pieces)) <==> Distinct(NameList(pieces))
  {
    UniqueIsDistinct(Meanings(pieces));
    NamesOfMeanings(pieces);
  }

  lemma NameUsedCons(s: Segment, rest: seq<Segment>, name: string)
    ensures NameUsed([s] + rest, name) <==> NameUsed(rest, name) || (s.Param? && s.name == name)
  {
    var all := [s] + rest;
    if i :| 0 <= i < |rest| && rest[i].Param? && rest[i].name == name {
      assert all[i + 1] == rest[i];
    }
    if i :| 0 <= i < |all| && all[i].Param? && all[i].name == name {
      assert i > 0 ==> rest[i - 1] == all[i];
    }
    assert all[0] == s;
  }

  lemma UniqueNamesCons(s: Segment, rest: seq<Segment>)
    ensures UniqueNames([s] + rest) <==> UniqueNames(rest) && (s.Param? ==> !NameUsed(rest, s.name))
  {
    var all := [s] + rest;
    assert forall i :: 0 <= i < |rest| ==> all[i + 1] == rest[i];
    if UniqueNames(all) {
      forall i, j | 0 <= i < j < |rest| && rest[i].Param? && rest[j].Param?
        ensures rest[i].name != rest[j].name
      {
        assert all[i + 1].name != all[j + 1].name;
      }
      forall i | s.Param? && 0 <= i < |rest| && rest[i].Param?
        ensures rest[i].name != s.name
      {
        assert all[0].name != all[i + 1].name;
      }
    }
    if UniqueNames(rest) && (s.Param? ==> !NameUsed(rest, s.name)) {
      forall i, j | 0 <= i < j < |all| && all[i].Param? && all[j].Param?
        ensures all[i].name != all[j].name
      {
        assert all[j] == rest[j - 1];
        assert i > 0 ==> all[i] == rest[i - 1];
      }
    }
  }

  lemma DistinctCons(name: string, rest: seq<string>)
    ensures Distinct([name] + rest) <==> Distinct(rest) && name !in rest
  {
    var all := [name] + rest;
    assert forall i :: 0 <= i < |rest| ==> all[i + 1] == rest[i];
    if Distinct(all) {
      forall i, j | 0 <= i < j < |rest|
        ensures rest[i] != rest[j]
      {
        assert all[i + 1] != all[j + 1];
      }
      forall i | 0 <= i < |rest|
        ensures rest[i] != name
      {
        assert all[0] != all[i + 1];
      }
    }
    if Distinct(rest) && name !in rest {
      forall i, j | 0 <= i < j < |all|
        ensures all[i] != all[j]
      {
        assert all[j] == rest[j - 1] && rest[j - 1] in rest;
        assert i > 0 ==> all[i] == rest[i - 1];
        assert i == 0 ==> all[i] == name;
      }
    }
  }
}
