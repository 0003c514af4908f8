/**
 What the constraints of a route parameter mean, from the text of the pattern to the paths it
 matches (src/core/route.c, src/core/http_dispatch.c).
*/
module RouteConstraints {
  import opened Prelude
  import opened Texts
  import opened RoutePatterns
  import opened RouteParser
  import opened RouteMatching

  /** A slash and one piece after it. */
  predicate IsOnePiece(path: string) {
    StartsWith(path, '/') && |path| > 1 && '/' !in path[1..]
  }

  /** A pattern of one supported segment is parsed to what the segment means. */
  lemma OneSegment(segment: string)
    requires SegmentSupported(segment) && '/' !in segment && '?' !in segment
    ensures Parsed("/" + segment) == Some([Meaning(segment).value])
  {
    var pattern := "/" + segment;
    SplitSlash(segment);
    SplitOne(segment, '/');
    assert Segments(pattern) == [segment] && AllSupported([segment]);
    SupportedExactly(pattern);
    ParamCountOfSegments(pattern);
    RuntimeAcceptsExactly(pattern);
    assert [segment][1..] == [];
    assert |NameList([segment])| <= 1;
    assert Parsed(pattern).Some?;
    assert Parsed(pattern).value == Meanings([segment]) == [Meaning(segment).value];
  }

  /** One segment matches exactly the paths of one piece that it takes. */
  lemma OneSegmentMatches(segment: Segment, path: string)
    ensures PathMatches([segment], path) <==> IsOnePiece(path) && SegmentMatches(segment, path[1..])
  {
    if StartsWith(path, '/') && path != "/" {
      var rest := path[1..];
      assert path == "/" + rest;
      SplitSlash(rest);
      assert Segments(path) == Split(rest, '/');
      if '/' !in rest {
        SplitOne(rest, '/');
        assert Segments(path) == [rest];
        assert [segment][0] == segment && [rest][0] == rest;
      } else {
        ManyPieces(rest);
      }
    }
  }

  lemma ManyPieces(s: string)
    requires '/' in s
    ensures |Split(s, '/')| > 1
  {
    var end := Find(s, '/', 0);
    assert end < |s|;
    NextPiece(s, 0);
    assert |SplitFrom(s, '/', end + 1)| > 0;
  }

  /** The segment `{name:kind}`. */
  function Constrained(name: string, kind: string): string {
    "{" + (name + ":" + kind) + "}"
  }

  lemma {:induction false} FindAfter(s: string, c: char, from: nat, k: nat)
    requires from <= k < |s| && s[k] == c && forall i :: from <= i < k ==> s[i] != c
    ensures Find(s, c, from) == k
    decreases k - from
  {
    if from < k {
      FindAfter(s, c, from + 1, k);
    }
  }

  lemma ConstrainedParts(name: string, kind: string)
    requires NameSupported(name)
    ensures BeforeColon(name + ":" + kind) == name && AfterColon(name + ":" + kind, "str") == kind
  {
    var inner := name + ":" + kind;
    FindAfter(inner, ':', 0, |name|);
    assert inner[..|name|] == name && inner[|name| + 1..] == kind;
  }

  predicate IsPlain(text: string) {
    '{' !in text && '}' !in text && '/' !in text && '?' !in text
  }

  lemma NamesArePlain(name: string)
    requires NameSupported(name)
    ensures IsPlain(name)
  {
  }

  lemma KindsArePlain(kind: string)
    requires KindSupported(kind)
    ensures IsPlain(kind)
  {
  }

  lemma PlainTogether(a: string, b: string)
    requires IsPlain(a) && IsPlain(b)
    ensures IsPlain(a + ":" + b)
  {
  }

  lemma Braced(inner: string)
    requires IsPlain(inner)
    ensures var segment := "{" + inner + "}";
            IsBraced(segment) && Inner(segment) == inner && '/' !in segment && '?' !in segment
  {
  }

  lemma ConstrainedMeaning(name: string, kind: string)
    requires NameSupported(name) && KindSupported(kind)
    ensures var segment := Constrained(name, kind);
            && SegmentSupported(segment) && '/' !in segment && '?' !in segment
            && Meaning(segment) == Some(Param(name, KindOf(kind).value))
  {
    NamesArePlain(name);
    KindsArePlain(kind);
    PlainTogether(name, kind);
    Braced(name + ":" + kind);
    ConstrainedParts(name, kind);
  }

  /** `/{name:kind}` takes the path. */
  ghost predicate Takes(name: string, kind: string, path: string) {
    var parsed := Parsed("/" + Constrained(name, kind));
    parsed.Some? && PathMatches(parsed.value, path)
  }

  lemma TakesExactly(name: string, kind: string, path: string)
    requires NameSupported(name) && KindSupported(kind)
    ensures Takes(name, kind, path) <==> IsOnePiece(path) && KindMatches(KindOf(kind).value, path[1..])
  {
    ConstrainedMeaning(name, kind);
    OneSegment(Constrained(name, kind));
    OneSegmentMatches(Param(name, KindOf(kind).value), path);
  }

  /** Which names a parameter may have: ASCII letters, digits and underscores, no digit first. */
  lemma NamesExactly(name: string)
    requires IsPlain(name) && ':' !in name
    ensures Parsed("/{" + name + "}").Some? <==>
            && name != "" && !('0' <= name[0] <= '9')
            && forall i :: 0 <= i < |name| ==>
                 'A' <= name[i] <= 'Z' || 'a' <= name[i] <= 'z' || '0' <= name[i] <= '9' || name[i] == '_'
  {
    var segment := "{" + name + "}";
    var pattern := "/" + segment;
    assert pattern == "/{" + name + "}";
    Braced(name);
    assert Find(name, ':', 0) == |name| && name[..|name|] == name;
    assert SegmentSupported(segment) <==> NameSupported(name);
    if NameSupported(name) {
      OneSegment(segment);
    } else {
      RuntimeAcceptsExactly(pattern);
      SupportedExactly(pattern);
      SplitSlash(segment);
      SplitOne(segment, '/');
      assert Segments(pattern)[0] == segment;
    }
  }

  /** The name that the compiler gives a parameter, in each way to write one. */
  lemma ParameterName(name: string, kind: string)
    requires NameSupported(name) && KindSupported(kind)
    ensures SegmentName(Constrained(name, kind)) == name && SegmentName("{" + name + "}") == name
    ensures SegmentName(":" + name) == name
  {
    NamesArePlain(name);
    KindsArePlain(kind);
    PlainTogether(name, kind);
    Braced(name + ":" + kind);
    ConstrainedParts(name, kind);
    Braced(name);
    assert Find(name, ':', 0) == |name| && name[..|name|] == name;
    assert (":" + name)[1..] == name;
    WholeName(name);
  }

  lemma {:induction false} WholeName(text: string)
    requires forall i :: 0 <= i < |text| ==> !EndsName(text[i])
    ensures ColonName(text) == text
  {
    if text != "" {
      WholeName(text[1..]);
      assert text == [text[0]] + text[1..];
    }
  }

  /** The pattern of one segment takes the path of one piece. */
  ghost predicate TakesPiece(segment: string, piece: string) {
    var parsed := Parsed("/" + segment);
    parsed.Some? && PathMatches(parsed.value, "/" + piece)
  }

  lemma TakesPieceExactly(segment: string, piece: string)
    requires SegmentSupported(segment) && '/' !in segment && '?' !in segment && '/' !in piece
    ensures TakesPiece(segment, piece) <==> SegmentMatches(Meaning(segment).value, piece)
  {
    OneSegment(segment);
    OneSegmentMatches(Meaning(segment).value, "/" + piece);
    assert ("/" + piece)[1..] == piece;
  }

  /** A pattern takes a path exactly when there are as many segments, and each takes its piece. */
  lemma PiecesMatchOneByOne(pattern: string, path: string)
    requires Parsed(pattern).Some? && StartsWith(path, '/')
    ensures var segments, pieces := Segments(pattern), Segments(path);
            PathMatches(Parsed(pattern).value, path) <==>
            |segments| == |pieces| && forall i :: 0 <= i < |segments| ==> TakesPiece(segments[i], pieces[i])
  {
    var segments, pieces := Segments(pattern), Segments(path);
    RuntimeAcceptsExactly(pattern);
    SupportedExactly(pattern);
    PatternRoundTrip(pattern);
    PatternRoundTrip(path);
    forall i | 0 <= i < |segments| && i < |pieces|
      ensures TakesPiece(segments[i], pieces[i]) <==> SegmentMatches(Parsed(pattern).value[i], pieces[i])
    {
      NoQuestionMark(pattern, i);
      TakesPieceExactly(segments[i], pieces[i]);
    }
  }

  lemma NoQuestionMark(pattern: string, i: nat)
    requires StartsWith(pattern, '/') && '?' !in pattern && i < |Segments(pattern)|
    ensures '?' !in Segments(pattern)[i]
  {
    PatternRoundTrip(pattern);
    PieceInJoined(Segments(pattern), i);
  }

  lemma {:induction false} PieceInJoined(pieces: seq<string>, i: nat)
    requires i < |pieces|
    ensures forall c :: c in pieces[i] ==> c in Join(pieces, '/')
  {
    if i > 0 {
      PieceInJoined(pieces[1..], i - 1);
    }
  }

  /** A segment without braces takes itself. */
  lemma TextMeans(text: string, path: string)
    requires text != "" && IsPlain(text)
    ensures Parsed("/" + text).Some?
    ensures PathMatches(Parsed("/" + text).value, path) <==> path == "/" + text
  {
    OneSegment(text);
    OneSegmentMatches(Static(text), path);
    if StartsWith(path, '/') {
      assert path == "/" + path[1..];
    }
  }

  /** `{name}` takes any piece. */
  lemma UnconstrainedMeans(name: string, path: string)
    requires NameSupported(name)
    ensures Parsed("/{" + name + "}").Some?
    ensures PathMatches(Parsed("/{" + name + "}").value, path) <==> IsOnePiece(path)
  {
    NamesArePlain(name);
    Braced(name);
    assert forall i :: 0 <= i < |name| ==> name[i] != ':';
    assert Find(name, ':', 0) == |name| && name[..|name|] == name;
    OneSegment("{" + name + "}");
    assert "/" + ("{" + name + "}") == "/{" + name + "}";
    OneSegmentMatches(Param(name, StringParam), path);
  }

  /** `str` takes any piece. */
  lemma StrMeans(name: string, path: string)
    requires NameSupported(name)
    ensures Takes(name, "str", path) <==> IsOnePiece(path)
  {
    TakesExactly(name, "str", path);
  }

  /** `int` takes the pieces of digits. */
  lemma IntMeans(name: string, path: string)
    requires NameSupported(name)
    ensures Takes(name, "int", path) <==>
            IsOnePiece(path) && forall i :: 1 <= i < |path| ==> '0' <= path[i] <= '9'
  {
    TakesExactly(name, "int", path);
    if IsOnePiece(path) {
      PieceIs(path, IsDigit);
    }
  }

  /** `alpha` takes the pieces of ASCII letters. */
  lemma AlphaMeans(name: string, path: string)
    requires NameSupported(name)
    ensures Takes(name, "alpha", path) <==>
            IsOnePiece(path) && forall i :: 1 <= i < |path| ==> 'a' <= path[i] <= 'z' || 'A' <= path[i] <= 'Z'
  {
    TakesExactly(name, "alpha", path);
    if IsOnePiece(path) {
      PieceIs(path, IsLetter);
    }
  }

  lemma PieceIs(path: string, test: char -> bool)
    requires IsOnePiece(path)
    ensures (forall i :: 0 <= i < |path[1..]| ==> test(path[1..][i])) <==> forall i :: 1 <= i < |path| ==> test(path[i])
  {
    assert forall i :: 1 <= i < |path| ==> path[i] == path[1..][i - 1];
  }

  /** `float` takes digits around one dot, and at least one digit. */
  lemma FloatMeans(name: string, path: string)
    requires NameSupported(name)
    ensures Takes(name, "float", path) <==>
            IsOnePiece(path) && |path| > 2 &&
            exists d :: 1 <= d < |path| && path[d] == '.'
                        && forall i :: 1 <= i < |path| && i != d ==> '0' <= path[i] <= '9'
  {
    TakesExactly(name, "float", path);
    if |path| > 1 {
      FloatShift(path);
    }
  }

  /** A slash, then 36 hexadecimal digits and dashes, the dashes at four places. */
  predicate IsUuidPath(path: string) {
    |path| == 37 && path[0] == '/' && forall i :: 1 <= i < 37 ==>
      if i == 9 || i == 14 || i == 19 || i == 24 then path[i] == '-'
      else '0' <= path[i] <= '9' || 'a' <= path[i] <= 'f' || 'A' <= path[i] <= 'F'
  }

  /** `uuid` takes exactly those. */
  lemma UuidMeans(name: string, path: string)
    requires NameSupported(name)
    ensures Takes(name, "uuid", path) <==> IsUuidPath(path)
  {
    TakesExactly(name, "uuid", path);
    if IsUuidPath(path) {
      UuidFromPath(path);
      UuidToPath(path);
    } else if IsOnePiece(path) && IsUuid(path[1..]) {
      UuidToPath(path);
    }
  }

  lemma FloatShift(path: string)
    requires |path| > 1
    ensures IsFloat(path[1..]) <==>
            |path| > 2 && exists d :: 1 <= d < |path| && path[d] == '.'
                                      && forall i :: 1 <= i < |path| && i != d ==> '0' <= path[i] <= '9'
  {
    var piece := path[1..];
    assert forall i :: 1 <= i < |path| ==> piece[i - 1] == path[i];
    if d :| 0 <= d < |piece| && IsTheDot(piece, d) {
      assert path[d + 1] == '.';
      forall i | 1 <= i < |path| && i != d + 1
        ensures '0' <= path[i] <= '9'
      {
        assert IsDigit(piece[i - 1]);
      }
    }
    if d :| 1 <= d < |path| && path[d] == '.' && forall i :: 1 <= i < |path| && i != d ==> '0' <= path[i] <= '9' {
      assert IsTheDot(piece, d - 1);
    }
  }

  lemma UuidToPath(path: string)
    requires |path| > 1 && path[0] == '/' && IsUuid(path[1..])
    ensures IsUuidPath(path) && '/' !in path[1..]
  {
    var piece := path[1..];
    forall i | 1 <= i < 37
      ensures if i == 9 || i == 14 || i == 19 || i == 24 then path[i] == '-'
              else '0' <= path[i] <= '9' || 'a' <= path[i] <= 'f' || 'A' <= path[i] <= 'F'
    {
      assert path[i] == piece[i - 1];
      assert if IsDash(i - 1) then piece[i - 1] == '-' else IsHex(piece[i - 1]);
    }
  }

  lemma UuidFromPath(path: string)
    requires IsUuidPath(path)
    ensures IsUuid(path[1..])
  {
    var piece := path[1..];
    forall i | 0 <= i < 36
      ensures if IsDash(i) then piece[i] == '-' else IsHex(piece[i])
    {
      assert piece[i] == path[i + 1];
    }
  }
}
