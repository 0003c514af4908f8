/**
 Route patterns in the compiler (compiler/src/sloppyc.rs, compiler/src/graph.rs): joining
 group prefixes, rewriting `:name` segments, the supported-syntax test, and parameters.
 Text is a string of bytes; all the syntax characters are ASCII.
*/
module RoutePatterns {
  import opened Permutations
  import opened Texts

  predicate StartsWith(s: string, c: char) {
    s != "" && s[0] == c
  }

  predicate EndsWith(s: string, c: char) {
    s != "" && s[|s| - 1] == c
  }

  predicate IsLetter(c: char) {
    'A' <= c <= 'Z' || 'a' <= c <= 'z'
  }

  predicate IsDigit(c: char) {
    '0' <= c <= '9'
  }

  /** `text` up to the first `:`, as split_once with a default gives it. */
  function BeforeColon(text: string): string {
    text[..Find(text, ':', 0)]
  }

  function AfterColon(text: string, default: string): string {
    var i := Find(text, ':', 0);
    if i < |text| then text[i + 1..] else default
  }

  predicate IsBraced(segment: string) {
    StartsWith(segment, '{') && EndsWith(segment, '}')
  }

  function Inner(segment: string): string
    requires IsBraced(segment)
  {
    segment[1..|segment| - 1]
  }

  predicate NameSupported(name: string) {
    && name != ""
    && (IsLetter(name[0]) || name[0] == '_')
    && forall i :: 0 <= i < |name| ==> IsLetter(name[i]) || IsDigit(name[i]) || name[i] == '_'
  }

  predicate KindSupported(kind: string) {
    kind == "str" || kind == "int" || kind == "uuid" || kind == "alpha" || kind == "float"
  }

  /** route_segment_supported */
  predicate SegmentSupported(segment: string) {
    if segment == "" then false
    else if !(StartsWith(segment, '{') || EndsWith(segment, '}')) then '{' !in segment && '}' !in segment
    else if !IsBraced(segment) then false
    else
      var inner := Inner(segment);
      && '{' !in inner && '}' !in inner
      && NameSupported(BeforeColon(inner))
      && KindSupported(AfterColon(inner, "str"))
  }

  predicate Contains(s: string, a: char, b: char) {
    exists i :: 0 <= i < |s| - 1 && s[i] == a && s[i + 1] == b
  }

  /** route_pattern_supported */
  predicate PatternSupported(pattern: string) {
    pattern == "/" ||
    (StartsWith(pattern, '/') && !EndsWith(pattern, '/') && !Contains(pattern, '/', '/') &&
     AllSupported(Split(pattern, '/')[1..]))
  }

  predicate AllSupported(segments: seq<string>) {
    forall i :: 0 <= i < |segments| ==> SegmentSupported(segments[i])
  }

  /** join_route_patterns */
  function JoinPatterns(prefix: string, child: string): string {
    if prefix == "/" then (if StartsWith(child, '/') then child else "/" + child)
    else if child == "/" then prefix
    else if StartsWith(child, '/') then prefix + child
    else prefix + "/" + child
  }

  // ----- supported patterns are lists of supported segments -----

  /** The segments of a pattern; the root has none. */
  function Segments(pattern: string): seq<string> {
    if pattern == "/" then [] else Split(pattern, '/')[1..]
  }

  function PatternOf(segments: seq<string>): string {
    if segments == [] then "/" else "/" + Join(segments, '/')
  }

  lemma SplitSlash(s: string)
    ensures Split("/" + s, '/') == [""] + Split(s, '/')
  {
    SplitCons("", s, '/');
    assert "" + ['/'] + s == "/" + s;
  }

  predicate NoEmpty(pieces: seq<string>) {
    forall i :: 0 <= i < |pieces| ==> pieces[i] != ""
  }

  /** No empty piece: neither a doubled separator nor one at the end. */
  lemma NonEmptyPieces(s: string)
    requires NoEmpty(Split(s, '/'))
    ensures !StartsWith(s, '/') && !EndsWith(s, '/') && !Contains(s, '/', '/')
  {
    NonEmptyPiecesFrom(s, 0);
  }

  lemma {:induction false} NonEmptyPiecesFrom(s: string, from: nat)
    requires from <= |s| && NoEmpty(SplitFrom(s, '/', from))
    ensures from < |s| && s[from] != '/' && s[|s| - 1] != '/'
    ensures forall i :: from <= i < |s| - 1 && s[i] == '/' ==> s[i + 1] != '/'
    decreases |s| - from
  {
    var pieces := SplitFrom(s, '/', from);
    var end := Find(s, '/', from);
    assert pieces[0] == s[from..end];
    if end < |s| {
      assert pieces[1..] == SplitFrom(s, '/', end + 1);
      NonEmptyPiecesFrom(s, end + 1);
    }
  }

  /** A pattern is supported exactly when it is the root or a slash and supported segments. */
  lemma SupportedExactly(pattern: string)
    ensures PatternSupported(pattern) <==>
            pattern == "/" || (StartsWith(pattern, '/') && pattern != "/" && AllSupported(Segments(pattern)))
  {
    if StartsWith(pattern, '/') && pattern != "/" && AllSupported(Segments(pattern)) {
      var rest := pattern[1..];
      assert pattern == "/" + rest;
      SplitSlash(rest);
      assert Segments(pattern) == Split(rest, '/');
      NonEmptyPieces(rest);
      forall i | 0 <= i < |pattern| - 1 && pattern[i] == '/'
        ensures pattern[i + 1] != '/'
      {
        if i > 0 {
          assert pattern[i] == rest[i - 1] && pattern[i + 1] == rest[i];
        }
      }
    }
  }

  lemma PatternRoundTrip(pattern: string)
    requires StartsWith(pattern, '/')
    ensures PatternOf(Segments(pattern)) == pattern
    ensures Free(Segments(pattern), '/')
  {
    if pattern != "/" {
      var rest := pattern[1..];
      assert pattern == "/" + rest;
      SplitSlash(rest);
      assert Segments(pattern) == Split(rest, '/');
      JoinSplit(rest, '/');
    }
  }

  lemma SegmentsRoundTrip(segments: seq<string>)
    requires Free(segments, '/') && segments != [""]
    ensures Segments(PatternOf(segments)) == segments
  {
    if segments != [] {
      SplitJoin(segments, '/');
      SplitSlash(Join(segments, '/'));
      SplitOne("", '/');
    }
  }

  // ----- patterns form a monoid under joining -----

  /** On absolute patterns joining concatenates the segment lists. */
  lemma JoinSegments(a: string, b: string)
    requires StartsWith(a, '/') && StartsWith(b, '/')
    ensures StartsWith(JoinPatterns(a, b), '/')
    ensures Segments(JoinPatterns(a, b)) == Segments(a) + Segments(b)
  {
    if a != "/" && b != "/" {
      var x, y := a[1..], b[1..];
      assert a == "/" + x && b == "/" + y;
      assert a + b == "/" + (x + "/" + y);
      SplitSlash(x);
      SplitSlash(y);
      SplitSlash(x + "/" + y);
      SplitConcat(x, y, '/');
    }
  }

  lemma SameSegments(a: string, b: string)
    requires StartsWith(a, '/') && StartsWith(b, '/') && Segments(a) == Segments(b)
    ensures a == b
  {
    PatternRoundTrip(a);
    PatternRoundTrip(b);
  }

  lemma JoinIdentity(a: string)
    requires StartsWith(a, '/')
    ensures JoinPatterns("/", a) == a == JoinPatterns(a, "/")
  {
  }

  /** A child without its slash joins as with it. */
  lemma JoinRelative(a: string, b: string)
    requires StartsWith(a, '/') && b != "" && !StartsWith(b, '/')
    ensures JoinPatterns(a, b) == JoinPatterns(a, "/" + b)
  {
    Regroup(a, "/", b);
  }

  lemma JoinAssociative(a: string, b: string, c: string)
    requires StartsWith(a, '/') && StartsWith(b, '/') && StartsWith(c, '/')
    ensures JoinPatterns(JoinPatterns(a, b), c) == JoinPatterns(a, JoinPatterns(b, c))
  {
    JoinSegments(a, b);
    JoinSegments(b, c);
    JoinSegments(JoinPatterns(a, b), c);
    JoinSegments(a, JoinPatterns(b, c));
    assert (Segments(a) + Segments(b)) + Segments(c) == Segments(a) + (Segments(b) + Segments(c));
    SameSegments(JoinPatterns(JoinPatterns(a, b), c), JoinPatterns(a, JoinPatterns(b, c)));
  }

  /** Nested route groups: a prefix at every level, in any bracketing. */
  datatype Nest = One(pattern: string) | Group(outer: Nest, inner: Nest)

  predicate Absolute(n: Nest) {
    match n
    case One(pattern) => StartsWith(pattern, '/')
    case Group(outer, inner) => Absolute(outer) && Absolute(inner)
  }

  function Flat(n: Nest): seq<string> {
    match n
    case One(pattern) => [pattern]
    case Group(outer, inner) => Flat(outer) + Flat(inner)
  }

  function Value(n: Nest): string {
    match n
    case One(pattern) => pattern
    case Group(outer, inner) => JoinPatterns(Value(outer), Value(inner))
  }

  function AllSegments(patterns: seq<string>): seq<string> {
    if patterns == [] then [] else Segments(patterns[0]) + AllSegments(patterns[1..])
  }

  lemma {:induction false} AllSegmentsConcat(a: seq<string>, b: seq<string>)
    ensures AllSegments(a + b) == AllSegments(a) + AllSegments(b)
    decreases |a|
  {
    if a == [] {
      assert a + b == b;
    } else {
      assert (a + b)[1..] == a[1..] + b;
      AllSegmentsConcat(a[1..], b);
    }
  }

  lemma {:induction false} NestSegments(n: Nest)
    requires Absolute(n)
    ensures StartsWith(Value(n), '/') && Segments(Value(n)) == AllSegments(Flat(n))
  {
    match n
    case One(pattern) =>
      assert Flat(n)[1..] == [];
    case Group(outer, inner) =>
      NestSegments(outer);
      NestSegments(inner);
      JoinSegments(Value(outer), Value(inner));
      AllSegmentsConcat(Flat(outer), Flat(inner));
  }

  /** The same prefixes in the same order give the same route, however the groups nest. */
  lemma NestingDoesNotMatter(n: Nest, m: Nest)
    requires Absolute(n) && Absolute(m) && Flat(n) == Flat(m)
    ensures Value(n) == Value(m)
  {
    NestSegments(n);
    NestSegments(m);
    SameSegments(Value(n), Value(m));
  }

  lemma JoinSupported(a: string, b: string)
    requires PatternSupported(a) && PatternSupported(b)
    ensures PatternSupported(JoinPatterns(a, b))
  {
    SupportedExactly(a);
    SupportedExactly(b);
    SupportedExactly(JoinPatterns(a, b));
    JoinSegments(a, b);
  }

  // ----- parameters -----

  function CountBraced(segments: seq<string>): nat {
    if segments == [] then 0 else (if IsBraced(segments[0]) then 1 else 0) + CountBraced(segments[1..])
  }

  /** route_pattern_param_count: filter and count after the first piece. */
  function ParamCount(pattern: string): nat {
    CountBraced(Split(pattern, '/')[1..])
  }

  predicate HasParams(pattern: string) {
    ParamCount(pattern) != 0
  }

  lemma {:induction false} CountBracedConcat(a: seq<string>, b: seq<string>)
    ensures CountBraced(a + b) == CountBraced(a) + CountBraced(b)
    decreases |a|
  {
    if a == [] {
      assert a + b == b;
    } else {
      assert (a + b)[1..] == a[1..] + b;
      CountBracedConcat(a[1..], b);
    }
  }

  lemma ParamCountOfSegments(pattern: string)
    requires StartsWith(pattern, '/')
    ensures ParamCount(pattern) == CountBraced(Segments(pattern))
  {
    if pattern == "/" {
      SplitSlash("");
      SplitOne("", '/');
      assert "/" + "" == "/";
      assert Split("/", '/')[1..] == [""];
      assert CountBraced([""]) == CountBraced([""][1..]) == 0;
    }
  }

  lemma JoinAddsParams(a: string, b: string)
    requires StartsWith(a, '/') && StartsWith(b, '/')
    ensures ParamCount(JoinPatterns(a, b)) == ParamCount(a) + ParamCount(b)
  {
    JoinSegments(a, b);
    ParamCountOfSegments(a);
    ParamCountOfSegments(b);
    ParamCountOfSegments(JoinPatterns(a, b));
    CountBracedConcat(Segments(a), Segments(b));
  }

  // ----- normalization of `:name` segments -----

  function NormalizeSegment(segment: string): string {
    if StartsWith(segment, ':') then "{" + segment[1..] + "}" else segment
  }

  function NormalizeAll(segments: seq<string>): (r: seq<string>)
    ensures |r| == |segments|
    ensures forall i :: 0 <= i < |segments| ==> r[i] == NormalizeSegment(segments[i])
  {
    seq(|segments|, i requires 0 <= i < |segments| => NormalizeSegment(segments[i]))
  }

  function Normalize(pattern: string): string {
    if !Contains(pattern, '/', ':') then pattern else Join(NormalizeAll(Split(pattern, '/')), '/')
  }

  /** normalize_framework_route_pattern */
  method NormalizePattern(pattern: string) returns (r: string)
    ensures r == Normalize(pattern)
  {
    if !Contains(pattern, '/', ':') {
      return pattern;
    }
    var pieces := Split(pattern, '/');
    var normalized: seq<string> := [];
    for k := 0 to |pieces|
      invariant normalized == NormalizeAll(pieces)[..k]
    {
      if StartsWith(pieces[k], ':') {
        normalized := normalized + ["{" + pieces[k][1..] + "}"];
      } else {
        normalized := normalized + [pieces[k]];
      }
    }
    assert normalized == NormalizeAll(pieces);
    r := Join(normalized, '/');
  }

  /** Without the marker no piece after a slash starts with a colon. */
  lemma {:induction false} NoColonPieces(s: string, from: nat)
    requires 0 < from <= |s| && s[from - 1] == '/' && !Contains(s, '/', ':')
    ensures NormalizeAll(SplitFrom(s, '/', from)) == SplitFrom(s, '/', from)
    decreases |s| - from
  {
    var pieces := SplitFrom(s, '/', from);
    var end := Find(s, '/', from);
    assert pieces[0] == s[from..end];
    if from < end {
      assert s[from - 1] == '/' && s[from] == pieces[0][0];
      assert pieces[0][0] != ':';
    }
    if end < |s| {
      assert pieces[1..] == SplitFrom(s, '/', end + 1);
      NoColonPieces(s, end + 1);
      assert NormalizeAll(pieces)[1..] == NormalizeAll(pieces[1..]);
      assert NormalizeAll(pieces) == [pieces[0]] + NormalizeAll(pieces[1..]);
    }
  }

  /** On absolute patterns normalization rewrites the segments one by one. */
  lemma NormalizeSegments(pattern: string)
    requires StartsWith(pattern, '/')
    ensures StartsWith(Normalize(pattern), '/')
    ensures Segments(Normalize(pattern)) == NormalizeAll(Segments(pattern))
  {
    var rest := pattern[1..];
    assert pattern == "/" + rest;
    SplitSlash(rest);
    var pieces := Split(pattern, '/');
    if !Contains(pattern, '/', ':') {
      SplitShift("/", rest, '/', 0);
      NoColonPieces(pattern, 1);
      assert SplitFrom(pattern, '/', 1) == pieces[1..];
    } else {
      JoinSplit(pattern, '/');
      NormalizeFree(pieces);
      SplitJoin(NormalizeAll(pieces), '/');
      assert NormalizeAll(pieces)[0] == "";
      JoinCons("", NormalizeAll(pieces)[1..], '/');
      assert NormalizeAll(pieces) == [""] + NormalizeAll(pieces)[1..];
      assert NormalizeAll(pieces)[1..] == NormalizeAll(pieces[1..]);
      assert pattern != "/";
    }
  }

  /** `:name` becomes `{name}`, and afterwards no segment starts with a colon. */
  lemma ColonsBecomeBraces(pattern: string, i: nat)
    requires StartsWith(pattern, '/') && i < |Segments(pattern)|
    ensures |Segments(Normalize(pattern))| == |Segments(pattern)|
    ensures var before, after := Segments(pattern)[i], Segments(Normalize(pattern))[i];
            && !StartsWith(after, ':')
            && (forall name :: before == ":" + name ==> after == "{" + name + "}")
            && (!StartsWith(before, ':') ==> after == before)
  {
    NormalizeSegments(pattern);
    assert forall name: string :: (":" + name)[1..] == name;
  }

  lemma NormalizeFree(pieces: seq<string>)
    requires Free(pieces, '/')
    ensures Free(NormalizeAll(pieces), '/')
  {
  }

  lemma NormalizeConcat(a: seq<string>, b: seq<string>)
    ensures NormalizeAll(a + b) == NormalizeAll(a) + NormalizeAll(b)
  {
  }

  lemma NormalizeIdempotent(pattern: string)
    requires StartsWith(pattern, '/')
    ensures Normalize(Normalize(pattern)) == Normalize(pattern)
  {
    NormalizeSegments(pattern);
    NormalizeSegments(Normalize(pattern));
    assert NormalizeAll(NormalizeAll(Segments(pattern))) == NormalizeAll(Segments(pattern));
    SameSegments(Normalize(Normalize(pattern)), Normalize(pattern));
  }

  lemma NormalizeJoin(a: string, b: string)
    requires StartsWith(a, '/') && StartsWith(b, '/')
    ensures Normalize(JoinPatterns(a, b)) == JoinPatterns(Normalize(a), Normalize(b))
  {
    JoinSegments(a, b);
    NormalizeSegments(a);
    NormalizeSegments(b);
    NormalizeSegments(JoinPatterns(a, b));
    JoinSegments(Normalize(a), Normalize(b));
    NormalizeConcat(Segments(a), Segments(b));
    SameSegments(Normalize(JoinPatterns(a, b)), JoinPatterns(Normalize(a), Normalize(b)));
  }

  // ----- parameter names -----

  /** Whether a byte ends the name of a `:name` segment. */
  predicate EndsName(c: char) {
    c == ':' || c == '.' || c == '?'
  }

  function ColonName(text: string): string {
    if text == "" || EndsName(text[0]) then "" else [text[0]] + ColonName(text[1..])
  }

  /** The parameter a segment declares; empty when it declares none. */
  function SegmentName(segment: string): string {
    if StartsWith(segment, ':') then ColonName(segment[1..])
    else if IsBraced(segment) then BeforeColon(Inner(segment))
    else ""
  }

  function Names(segments: seq<string>): set<string> {
    set i | 0 <= i < |segments| && SegmentName(segments[i]) != "" :: SegmentName(segments[i])
  }

  /** route_parameter_names */
  method RouteParameterNames(pattern: string) returns (names: set<string>)
    ensures names == Names(Split(pattern, '/')[1..])
  {
    var pieces := Split(pattern, '/')[1..];
    names := {};
    for k := 0 to |pieces|
      invariant names == Names(pieces[..k])
    {
      assert pieces[..k + 1][..k] == pieces[..k];
      var name := SegmentName(pieces[k]);
      NamesSnoc(pieces[..k], pieces[k]);
      assert pieces[..k + 1] == pieces[..k] + [pieces[k]];
      if name != "" {
        names := names + {name};
      }
    }
    assert pieces[..|pieces|] == pieces;
  }

  lemma NamesSnoc(segments: seq<string>, segment: string)
    ensures Names(segments + [segment])
         == Names(segments) + (if SegmentName(segment) != "" then {SegmentName(segment)} else {})
  {
    var all := segments + [segment];
    forall n | n in Names(all)
      ensures n in Names(segments) || n == SegmentName(segment) != ""
    {
      var i :| 0 <= i < |all| && SegmentName(all[i]) != "" && n == SegmentName(all[i]);
      if i < |segments| {
        assert all[i] == segments[i];
      }
    }
    forall n | n in Names(segments)
      ensures n in Names(all)
    {
      var i :| 0 <= i < |segments| && SegmentName(segments[i]) != "" && n == SegmentName(segments[i]);
      assert all[i] == segments[i];
    }
    assert all[|segments|] == segment;
  }

  lemma {:induction false} ColonNameIsBeforeColon(text: string)
    requires forall i :: 0 <= i < Find(text, ':', 0) ==> !EndsName(text[i])
    ensures ColonName(text) == BeforeColon(text)
  {
    if text != "" && text[0] != ':' {
      assert text == [text[0]] + text[1..];
      FindShift([text[0]], text[1..], ':', 0);
      assert Find(text, ':', 0) == Find(text, ':', 1);
      forall i | 0 <= i < Find(text[1..], ':', 0)
        ensures !EndsName(text[1..][i])
      {
        assert text[1..][i] == text[i + 1];
      }
      ColonNameIsBeforeColon(text[1..]);
      assert BeforeColon(text) == [text[0]] + BeforeColon(text[1..]);
    }
  }

  lemma InBraces(text: string)
    ensures IsBraced("{" + text + "}") && Inner("{" + text + "}") == text
  {
  }

  lemma SupportedInner(segment: string)
    requires SegmentSupported(segment) && IsBraced(segment)
    ensures NameSupported(BeforeColon(Inner(segment)))
  {
  }

  /** A supported name holds none of the characters that end one. */
  lemma SupportedNameIsWhole(text: string)
    requires NameSupported(BeforeColon(text))
    ensures ColonName(text) == BeforeColon(text)
  {
    var name := BeforeColon(text);
    forall i | 0 <= i < Find(text, ':', 0)
      ensures !EndsName(text[i])
    {
      assert name[i] == text[i];
    }
    ColonNameIsBeforeColon(text);
  }

  /** A segment whose normal form is supported declares the same parameter in both forms. */
  lemma SegmentNameSurvives(segment: string)
    requires SegmentSupported(NormalizeSegment(segment))
    ensures SegmentName(NormalizeSegment(segment)) == SegmentName(segment)
  {
    if StartsWith(segment, ':') {
      InBraces(segment[1..]);
      SupportedInner(NormalizeSegment(segment));
      SupportedNameIsWhole(segment[1..]);
    }
  }

  /** Normalizing a framework path keeps its parameter names, if the result is supported. */
  lemma NormalizeKeepsNames(pattern: string)
    requires StartsWith(pattern, '/') && PatternSupported(Normalize(pattern))
    ensures Names(Segments(Normalize(pattern))) == Names(Segments(pattern))
  {
    NormalizeSegments(pattern);
    SupportedExactly(Normalize(pattern));
    var segments, normal := Segments(pattern), Segments(Normalize(pattern));
    forall i | 0 <= i < |segments|
      ensures SegmentName(normal[i]) == SegmentName(segments[i])
    {
      if Normalize(pattern) != "/" {
        assert SegmentSupported(normal[i]);
      }
      SegmentNameSurvives(segments[i]);
    }
  }

  /** The names of the braced segments, in order and with repetitions. */
  function NameList(segments: seq<string>): (r: seq<string>)
    ensures |r| == CountBraced(segments)
  {
    if segments == [] then []
    else (if IsBraced(segments[0]) then [BeforeColon(Inner(segments[0]))] else []) + NameList(segments[1..])
  }

  function SetOf(names: seq<string>): set<string> {
    set i | 0 <= i < |names| :: names[i]
  }

  lemma {:induction false} SetOfSize(names: seq<string>)
    ensures |SetOf(names)| <= |names|
    ensures |SetOf(names)| == |names| <==> Distinct(names)
  {
    if names != [] {
      var rest := names[1..];
      SetOfSize(rest);
      assert SetOf(names) == {names[0]} + SetOf(rest) by {
        forall n | n in SetOf(names)
          ensures n in {names[0]} + SetOf(rest)
        {
          var i :| 0 <= i < |names| && names[i] == n;
          if i > 0 {
            assert rest[i - 1] == n;
          }
        }
        forall n | n in SetOf(rest)
          ensures n in SetOf(names)
        {
          var i :| 0 <= i < |rest| && rest[i] == n;
          assert names[i + 1] == n;
        }
      }
      if names[0] in SetOf(rest) {
        var i :| 0 <= i < |rest| && rest[i] == names[0];
        assert SetOf(names) == SetOf(rest);
        assert names[0] == names[i + 1];
      } else {
        assert Distinct(names) <==> Distinct(rest) by {
          assert forall i :: 0 < i < |names| ==> names[i] == rest[i - 1];
          assert forall i :: 0 <= i < |rest| ==> rest[i] == names[i + 1];
        }
      }
    }
  }

  lemma {:induction false} NamesAreListed(segments: seq<string>)
    requires forall i :: 0 <= i < |segments| ==> SegmentSupported(segments[i]) && !StartsWith(segments[i], ':')
    ensures Names(segments) == SetOf(NameList(segments))
    decreases |segments|
  {
    if segments != [] {
      var last := |segments| - 1;
      var init := segments[..last];
      assert segments == init + [segments[last]];
      assert forall i :: 0 <= i < |init| ==> init[i] == segments[i];
      NamesAreListed(init);
      NamesSnoc(init, segments[last]);
      NameListSnoc(init, segments[last]);
      if IsBraced(segments[last]) {
        SetOfSnoc(NameList(init), BeforeColon(Inner(segments[last])));
      } else {
        assert NameList(init) + [] == NameList(init);
      }
    }
  }

  lemma {:induction false} NameListSnoc(segments: seq<string>, segment: string)
    ensures NameList(segments + [segment])
         == NameList(segments) + (if IsBraced(segment) then [BeforeColon(Inner(segment))] else [])
  {
    if segments == [] {
      assert (segments + [segment])[1..] == [];
    } else {
      assert (segments + [segment])[1..] == segments[1..] + [segment];
      NameListSnoc(segments[1..], segment);
    }
  }

  lemma SetOfSnoc(names: seq<string>, name: string)
    ensures SetOf(names + [name]) == SetOf(names) + {name}
  {
    var all := names + [name];
    assert all[|names|] == name;
    forall n | n in SetOf(names)
      ensures n in SetOf(all)
    {
      var i :| 0 <= i < |names| && names[i] == n;
      assert all[i] == n;
    }
  }

  /** A normalized supported pattern has at most as many names as parameters, and equally many
      exactly when no name is used twice. */
  lemma NamesAgainstCount(pattern: string)
    requires StartsWith(pattern, '/') && PatternSupported(Normalize(pattern))
    ensures var n := Normalize(pattern);
            && |Names(Segments(n))| <= ParamCount(n)
            && (|Names(Segments(n))| == ParamCount(n) <==> Distinct(NameList(Segments(n))))
  {
    var n := Normalize(pattern);
    NormalizeSegments(pattern);
    SupportedExactly(n);
    var segments := Segments(n);
    forall i | 0 <= i < |segments|
      ensures SegmentSupported(segments[i]) && !StartsWith(segments[i], ':')
    {
      assert segments[i] == NormalizeSegment(Segments(pattern)[i]);
    }
    NamesAreListed(segments);
    SetOfSize(NameList(segments));
    ParamCountOfSegments(n);
  }
}
