/**
 Matching a request path against a parsed pattern (src/core/http_dispatch.c,
 sl_http_dispatch_path_segment_* and sl_http_dispatch_pattern_could_match).
*/
module RouteMatching {
  import opened Texts
  import opened RoutePatterns
  import opened RouteParser

  predicate IsHex(c: char) {
    '0' <= c <= '9' || 'A' <= c <= 'F' || 'a' <= c <= 'f'
  }

  predicate IsDash(i: nat) {
    i == 8 || i == 13 || i == 18 || i == 23
  }

  predicate IsUuid(s: string) {
    |s| == 36 && forall i :: 0 <= i < 36 ==> if IsDash(i) then s[i] == '-' else IsHex(s[i])
  }

  predicate IsInt(s: string) {
    s != "" && forall i :: 0 <= i < |s| ==> IsDigit(s[i])
  }

  predicate IsAlpha(s: string) {
    s != "" && forall i :: 0 <= i < |s| ==> IsLetter(s[i])
  }

  /** Digits around exactly one dot, and at least one digit. */
  predicate IsFloat(s: string) {
    |s| >= 2 && exists d :: 0 <= d < |s| && IsTheDot(s, d)
  }

  predicate IsTheDot(s: string, d: int) {
    0 <= d < |s| && s[d] == '.' && forall i :: 0 <= i < |s| && i != d ==> IsDigit(s[i])
  }

  predicate KindMatches(kind: ParamKind, s: string) {
    match kind
    case StringParam => s != ""
    case IntParam => IsInt(s)
    case UuidParam => IsUuid(s)
    case AlphaParam => IsAlpha(s)
    case FloatParam => IsFloat(s)
  }

  /** sl_http_dispatch_path_segment_uuid: the dash positions are consumed in order. */
  method MatchesUuid(s: string) returns (r: bool)
    ensures r == IsUuid(s)
  {
    if |s| != 36 {
      return false;
    }
    var dashes := [8, 13, 18, 23];
    var dash, index := 0, 0;
    while index < |s|
      invariant 0 <= index <= 36
      invariant dash == (if index <= 8 then 0 else if index <= 13 then 1 else if index <= 18 then 2
                else if index <= 23 then 3 else 4)
      invariant forall i :: 0 <= i < index ==> if IsDash(i) then s[i] == '-' else IsHex(s[i])
    {
      if dash < 4 && index == dashes[dash] {
        if s[index] != '-' {
          assert IsDash(index);
          return false;
        }
        dash := dash + 1;
      } else if !IsHex(s[index]) {
        assert !IsDash(index);
        return false;
      }
      index := index + 1;
    }
    r := true;
  }

  /** sl_http_dispatch_path_segment_float */
  method MatchesFloat(s: string) returns (r: bool)
    ensures r == IsFloat(s)
  {
    var sawDigit, sawDot := false, false;
    ghost var dot := 0;
    for index := 0 to |s|
      invariant sawDot ==> 0 <= dot < index && s[dot] == '.'
      invariant forall i :: 0 <= i < index && !(sawDot && i == dot) ==> IsDigit(s[i])
      invariant sawDigit <==> index > (if sawDot then 1 else 0)
    {
      if IsDigit(s[index]) {
        sawDigit := true;
      } else if s[index] == '.' && !sawDot {
        sawDot := true;
        dot := index;
      } else {
        return false;
      }
    }
    if sawDot {
      assert IsTheDot(s, dot);
    } else {
      assert forall d :: !IsTheDot(s, d);
    }
    r := sawDigit && sawDot;
  }

  method MatchesKind(kind: ParamKind, s: string) returns (r: bool)
    ensures r == KindMatches(kind, s)
  {
    match kind
    case StringParam => r := s != "";
    case UuidParam => r := MatchesUuid(s);
    case FloatParam => r := MatchesFloat(s);
    case IntParam =>
      if s == "" {
        return false;
      }
      for index := 0 to |s|
        invariant forall i :: 0 <= i < index ==> IsDigit(s[i])
      {
        if s[index] < '0' || s[index] > '9' {
          return false;
        }
      }
      r := true;
    case AlphaParam =>
      if s == "" {
        return false;
      }
      for index := 0 to |s|
        invariant forall i :: 0 <= i < index ==> IsLetter(s[i])
      {
        if !IsLetter(s[index]) {
          return false;
        }
      }
      r := true;
  }

  /** No text satisfies two different constraints. */
  lemma ConstraintsAreExclusive(a: ParamKind, b: ParamKind, s: string)
    requires a != StringParam && b != StringParam
    requires KindMatches(a, s) && KindMatches(b, s)
    ensures a == b
  {
    assert IsInt(s) ==> IsDigit(s[0]);
    assert IsAlpha(s) ==> IsLetter(s[0]);
    if a == UuidParam || b == UuidParam {
      assert IsDash(8) && s[8] == '-';
    }
    if a == FloatParam || b == FloatParam {
      var d :| 0 <= d < |s| && IsTheDot(s, d);
      var other := if d == 0 then 1 else 0;
      assert IsDigit(s[other]) && s[d] == '.';
    }
  }

  predicate SegmentMatches(segment: Segment, piece: string) {
    piece != "" && match segment
      case Static(text) => text == piece
      case Param(_, kind) => KindMatches(kind, piece)
  }

  predicate Matches(pattern: seq<Segment>, pieces: seq<string>) {
    |pattern| == |pieces| && forall i :: 0 <= i < |pattern| ==> SegmentMatches(pattern[i], pieces[i])
  }

  /** The meaning of a match: as many segments, each non-empty and accepted in its place. */
  predicate PathMatches(pattern: seq<Segment>, path: string) {
    StartsWith(path, '/') && Matches(pattern, Segments(path))
  }

  lemma MatchesCons(pattern: seq<Segment>, pieces: seq<string>)
    requires pattern != [] && pieces != []
    ensures Matches(pattern, pieces) <==> SegmentMatches(pattern[0], pieces[0]) && Matches(pattern[1..], pieces[1..])
  {
    assert pattern == [pattern[0]] + pattern[1..] && pieces == [pieces[0]] + pieces[1..];
  }

  /** What is still to be read at `pos`: nothing only when the text ended on a segment. */
  ghost predicate Unread(path: string, pos: nat, rest: seq<string>)
    requires pos <= |path|
  {
    if rest == [] then pos == |path| && !EndsWith(path, '/')
    else rest == SplitFrom(path, '/', pos) && 0 < pos && path[pos - 1] == '/'
  }

  /** What is read at `pos`, and what is then left. */
  lemma NextUnread(path: string, pos: nat, rest: seq<string>)
    requires pos < |path| && Unread(path, pos, rest)
    ensures rest != [] && var end := Find(path, '/', pos);
            rest[0] == path[pos..end] && Unread(path, if end == |path| then end else end + 1, rest[1..])
  {
    NextPiece(path, pos);
  }

  /** One segment of the pattern against one piece of the path. */
  lemma NextMatch(pattern: seq<Segment>, k: nat, path: string, pos: nat, rest: seq<string>)
    requires k < |pattern| && pos < |path| && Unread(path, pos, rest)
    ensures rest != [] && var end := Find(path, '/', pos);
            && (Matches(pattern[k..], rest) <==>
                  SegmentMatches(pattern[k], path[pos..end]) && Matches(pattern[k + 1..], rest[1..]))
            && Unread(path, if end == |path| then end else end + 1, rest[1..])
  {
    NextPiece(path, pos);
    MatchesCons(pattern[k..], rest);
    assert pattern[k..][1..] == pattern[k + 1..];
  }

  /** sl_http_dispatch_pattern_could_match */
  method CouldMatch(pattern: seq<Segment>, path: string) returns (r: bool)
    ensures r == PathMatches(pattern, path)
  {
    if path == "" || path[0] != '/' {
      return false;
    }
    if pattern == [] {
      assert |path| == 1 ==> path == "/";
      return |path| == 1;
    }
    FirstPieces(pattern, path);
    r := MatchPieces(pattern, path);
  }

  method MatchPieces(pattern: seq<Segment>, path: string) returns (r: bool)
    requires StartsWith(path, '/')
    ensures r == Matches(pattern, SplitFrom(path, '/', 1))
  {
    var k, pos := 0, 1;
    ghost var rest := SplitFrom(path, '/', 1);
    ghost var whole := Matches(pattern, rest);
    assert pattern[0..] == pattern;
    while k < |pattern|
      invariant 0 <= k <= |pattern| && 1 <= pos <= |path|
      invariant Unread(path, pos, rest)
      invariant whole == Matches(pattern[k..], rest)
    {
      if pos >= |path| {
        EmptyRest(pattern[k..], path, rest);
        return false;
      }
      NextMatch(pattern, k, path, pos, rest);
      var end := SegmentEnd(path, pos);
      var ok := MatchSegment(pattern[k], path[pos..end]);
      if !ok {
        return false;
      }
      k := k + 1;
      rest := rest[1..];
      pos := if end == |path| then end else end + 1;
    }
    r := pos == |path| && path[|path| - 1] != '/';
  }

  method MatchSegment(segment: Segment, piece: string) returns (r: bool)
    ensures r == SegmentMatches(segment, piece)
  {
    if piece == "" {
      return false;
    }
    match segment {
      case Static(text) => r := text == piece;
      case Param(_, kind) => r := MatchesKind(kind, piece);
    }
  }

  lemma FirstPieces(pattern: seq<Segment>, path: string)
    requires pattern != [] && StartsWith(path, '/')
    ensures PathMatches(pattern, path) <==> Matches(pattern, SplitFrom(path, '/', 1))
  {
    if path == "/" {
      NextPiece(path, 1);
      assert path[1..1] == "";
      assert !SegmentMatches(pattern[0], "");
    } else {
      PiecesAfterSlash(path);
    }
  }

  lemma EmptyRest(pattern: seq<Segment>, path: string, rest: seq<string>)
    requires pattern != [] && Unread(path, |path|, rest)
    ensures !Matches(pattern, rest)
  {
    if rest != [] {
      assert Find(path, '/', |path|) == |path| && path[|path|..|path|] == "";
      assert rest == [""];
      assert !SegmentMatches(pattern[0], "");
    }
  }
}
