/**
 The compiled lookup over the built table, and the mode that runs both lookups and fails the
 request when they differ (src/core/http_dispatch.c, sl_http_dispatch_find_route).
*/
module RouteLookup {
  import opened Prelude
  import opened RouteOrder
  import opened RouteMatching
  import opened RouteParser
  import opened RoutePatterns
  import opened RouteTrie
  import opened RouteDispatch
  import ProbeTable

  const METHODS: seq<Verb> := [GET, POST, PUT, PATCH, DELETE, OPTIONS]

  ghost predicate Answers(bs: seq<Binding>, verb: Verb, path: string) {
    exists j :: 0 <= j < |bs| && Hit(bs[j], verb, path)
  }

  function ExactRoutes(t: Table): seq<Binding>
    requires t.exactCount <= |t.routes|
  {
    t.routes[..t.exactCount]
  }

  function ParamRoutes(t: Table): seq<Binding>
    requires t.exactCount <= |t.routes|
  {
    t.routes[t.exactCount..]
  }

  // ----- exact routes -----

  lemma ExactKeyIsHit(b: Binding, verb: Verb, path: string)
    requires Runnable(b) && Exact(b)
    ensures Hit(b, verb, path) <==> Key(b.verb, b.source) == Key(verb, path)
  {
    ExactMatchesItself(b, path);
  }

  lemma FirstKeyIsFirstRoute(bs: seq<Binding>, verb: Verb, path: string, r: Option<nat>)
    requires forall i :: 0 <= i < |bs| ==> Runnable(bs[i]) && Exact(bs[i])
    requires ProbeTable.IsFirst(RouteKeys(bs), Key(verb, path), r)
    ensures IsFirstRoute(bs, verb, path, r)
  {
    forall i | 0 <= i < |bs|
      ensures Hit(bs[i], verb, path) <==> RouteKeys(bs)[i] == Key(verb, path)
    {
      ExactKeyIsHit(bs[i], verb, path);
    }
  }

  /** sl_http_dispatch_find_exact_route_for_method */
  method FindExact(t: Table, ghost s: Shape, hash: Key -> nat, verb: Verb, path: string) returns (r: Option<nat>)
    requires TableOk(t, s, hash)
    ensures IsFirstRoute(ExactRoutes(t), verb, path, r)
  {
    r := ProbeTable.Find(t.exactSlots, RouteKeys(ExactRoutes(t)), Key(verb, path), hash);
    FirstKeyIsFirstRoute(ExactRoutes(t), verb, path, r);
  }

  // ----- parameter routes -----

  lemma BucketLists(t: Table, s: Shape, hash: Key -> nat, key: Key, r: Option<nat>)
    requires TableOk(t, s, hash) && ProbeTable.IsFirst(BucketKeys(t.buckets), key, r)
    ensures var bs := ParamRoutes(t); Lists(if r.Some? then t.buckets[r.value].routes else [], bs, |bs|, key)
  {
    var bs := ParamRoutes(t);
    assert Grouped(t.buckets, bs, |bs|);
    assert forall i :: 0 <= i < |bs| ==> BucketKey(bs[i]) in BucketKeys(t.buckets);
  }

  /** sl_http_dispatch_find_param_bucket */
  method FindBucket(t: Table, ghost s: Shape, hash: Key -> nat, verb: Verb, text: string) returns (r: seq<nat>)
    requires TableOk(t, s, hash)
    ensures Lists(r, ParamRoutes(t), |ParamRoutes(t)|, Key(verb, text))
  {
    var at := ProbeTable.Find(t.bucketSlots, BucketKeys(t.buckets), Key(verb, text), hash);
    BucketLists(t, s, hash, Key(verb, text), at);
    r := if at.Some? then t.buckets[at.value].routes else [];
  }

  /** sl_http_dispatch_find_param_route_for_method: the trie, then the buckets. */
  method FindParam(t: Table, ghost s: Shape, hash: Key -> nat, verb: Verb, path: string) returns (r: Option<nat>)
    requires TableOk(t, s, hash)
    ensures IsFirstRoute(ParamRoutes(t), verb, path, r)
  {
    var segment := FirstPathSegment(path);
    var first := FindBucket(t, s, hash, verb, segment);
    var generic := FindBucket(t, s, hash, verb, "");
    r := MatchTrie(t.trie, s, ParamRoutes(t), verb, path);
    if r.Some? {
      return;
    }
    if segment == "" {
      first := [];
    }
    r := ScanCandidates(ParamRoutes(t), first, generic, verb, path);
  }

  // ----- other methods on the same path -----

  /** None of the first `k` methods, the request's own aside, answers. */
  ghost predicate NoneBefore(bs: seq<Binding>, verb: Verb, path: string, k: nat)
    requires k <= |METHODS|
  {
    k == 0 || (NoneBefore(bs, verb, path, k - 1) && (METHODS[k - 1] == verb || !Answers(bs, METHODS[k - 1], path)))
  }

  lemma {:induction false} NoneBeforeEach(bs: seq<Binding>, verb: Verb, path: string, k: nat, m: nat)
    requires m < k <= |METHODS| && NoneBefore(bs, verb, path, k) && METHODS[m] != verb
    ensures !Answers(bs, METHODS[m], path)
  {
    if m < k - 1 {
      NoneBeforeEach(bs, verb, path, k - 1, m);
    }
  }

  function MethodIndex(verb: Verb): (k: nat)
    requires verb != HEAD
    ensures k < |METHODS| && METHODS[k] == verb
  {
    match verb case GET => 0 case POST => 1 case PUT => 2 case PATCH => 3 case DELETE => 4 case OPTIONS => 5
  }

  lemma NoneIsNoOther(bs: seq<Binding>, verb: Verb, path: string)
    requires forall i :: 0 <= i < |bs| ==> Runnable(bs[i])
    requires NoneBefore(bs, verb, path, |METHODS|)
    ensures !OtherMethod(bs, verb, path, 0, |bs|)
  {
    if OtherMethod(bs, verb, path, 0, |bs|) {
      var j :| 0 <= j < |bs| && PathHit(bs[j], path) && bs[j].verb != verb;
      assert Hit(bs[j], bs[j].verb, path);
      NoneBeforeEach(bs, verb, path, |METHODS|, MethodIndex(bs[j].verb));
    }
  }

  lemma FoundIsOther(bs: seq<Binding>, verb: Verb, path: string, other: Verb, r: Option<nat>)
    requires IsFirstRoute(bs, other, path, r) && other != verb
    ensures r.None? ==> !Answers(bs, other, path)
    ensures r.Some? ==> OtherMethod(bs, verb, path, 0, |bs|)
  {
    if r.Some? {
      assert PathHit(bs[r.value], path);
    }
  }

  /** No route has another method, so none has one on this path. */
  lemma SingleMethod(bs: seq<Binding>, all: seq<Binding>, verb: Verb, path: string)
    requires Verbs(all) <= {verb} && forall i :: 0 <= i < |bs| ==> bs[i] in all
    ensures !OtherMethod(bs, verb, path, 0, |bs|)
  {
    forall i | 0 <= i < |bs|
      ensures bs[i].verb == verb
    {
      var k :| 0 <= k < |all| && all[k] == bs[i];
      assert all[k].verb in Verbs(all);
    }
  }

  /** sl_http_dispatch_exact_path_has_other_method */
  method ExactOther(t: Table, ghost s: Shape, hash: Key -> nat, verb: Verb, path: string) returns (r: bool)
    requires TableOk(t, s, hash)
    ensures r <==> OtherMethod(ExactRoutes(t), verb, path, 0, t.exactCount)
  {
    if t.verbs != {} && t.verbs <= {verb} {
      SingleMethod(ExactRoutes(t), t.routes, verb, path);
      return false;
    }
    for k := 0 to |METHODS|
      invariant NoneBefore(ExactRoutes(t), verb, path, k)
    {
      if METHODS[k] != verb {
        var found := FindExact(t, s, hash, METHODS[k], path);
        FoundIsOther(ExactRoutes(t), verb, path, METHODS[k], found);
        if found.Some? {
          return true;
        }
      }
    }
    NoneIsNoOther(ExactRoutes(t), verb, path);
    r := false;
  }

  /** sl_http_dispatch_param_path_has_other_method */
  method ParamOther(t: Table, ghost s: Shape, hash: Key -> nat, verb: Verb, path: string) returns (r: bool)
    requires TableOk(t, s, hash)
    ensures r <==> OtherMethod(ParamRoutes(t), verb, path, 0, |ParamRoutes(t)|)
  {
    if t.verbs != {} && t.verbs <= {verb} {
      SingleMethod(ParamRoutes(t), t.routes, verb, path);
      return false;
    }
    for k := 0 to |METHODS|
      invariant NoneBefore(ParamRoutes(t), verb, path, k)
    {
      if METHODS[k] != verb {
        var found := FindParam(t, s, hash, METHODS[k], path);
        FoundIsOther(ParamRoutes(t), verb, path, METHODS[k], found);
        if found.Some? {
          return true;
        }
      }
    }
    NoneIsNoOther(ParamRoutes(t), verb, path);
    r := false;
  }

  // ----- the compiled lookup -----

  lemma SplitFirst(routes: seq<Binding>, cut: nat, verb: Verb, path: string, exact: Option<nat>, param: Option<nat>)
    requires cut <= |routes|
    requires IsFirstRoute(routes[..cut], verb, path, exact) && IsFirstRoute(routes[cut..], verb, path, param)
    ensures IsFirstRoute(routes, verb, path, if exact.Some? then exact
            else if param.Some? then Some(cut + param.value) else None)
  {
    forall j | 0 <= j < |routes|
      ensures j < cut && (exact.None? || j < exact.value) ==> !Hit(routes[j], verb, path)
      ensures j >= cut && (param.None? || j < cut + param.value) ==> !Hit(routes[j], verb, path)
    {
      if j < cut {
        assert routes[..cut][j] == routes[j];
      } else {
        assert routes[cut..][j - cut] == routes[j];
      }
    }
  }

  /** A stretch of the routes looked at alone, from `lo` on. */
  lemma StretchOther(routes: seq<Binding>, part: seq<Binding>, lo: nat, verb: Verb, path: string)
    requires lo + |part| <= |routes| && forall i :: 0 <= i < |part| ==> part[i] == routes[lo + i]
    ensures OtherMethod(part, verb, path, 0, |part|) <==> OtherMethod(routes, verb, path, lo, lo + |part|)
  {
    if OtherMethod(routes, verb, path, lo, lo + |part|) {
      var j :| lo <= j < lo + |part| && j < |routes| && PathHit(routes[j], path) && routes[j].verb != verb;
      assert part[j - lo] == routes[j];
    }
  }

  lemma SplitOther(routes: seq<Binding>, cut: nat, verb: Verb, path: string)
    requires cut <= |routes|
    ensures OtherMethod(routes[..cut], verb, path, 0, cut) <==> OtherMethod(routes, verb, path, 0, cut)
    ensures OtherMethod(routes[cut..], verb, path, 0, |routes| - cut)
            <==> OtherMethod(routes, verb, path, cut, |routes|)
  {
    StretchOther(routes, routes[..cut], 0, verb, path);
    StretchOther(routes, routes[cut..], cut, verb, path);
  }

  /** What the compiled lookup calls a method mismatch: it forgets one when it finds an exact route. */
  ghost predicate CompiledMismatch(t: Table, verb: Verb, path: string, r: Option<nat>) {
    if r.None? then OtherMethod(t.routes, verb, path, 0, |t.routes|)
    else r.value >= t.exactCount && OtherMethod(t.routes, verb, path, 0, t.exactCount)
  }

  lemma ExactDecides(t: Table, verb: Verb, path: string, i: nat)
    requires t.exactCount <= |t.routes| && IsFirstRoute(ExactRoutes(t), verb, path, Some(i))
    ensures IsFirstRoute(t.routes, verb, path, Some(i)) && !CompiledMismatch(t, verb, path, Some(i))
  {
    var exact := ExactRoutes(t);
    assert forall j :: 0 <= j < t.exactCount ==> exact[j] == t.routes[j];
  }

  /** No exact route answers: the parameter routes decide, and each part adds its own mismatch. */
  lemma ParamDecides(t: Table, verb: Verb, path: string, found: Option<nat>)
    requires t.exactCount <= |t.routes|
    requires IsFirstRoute(ExactRoutes(t), verb, path, None) && IsFirstRoute(ParamRoutes(t), verb, path, found)
    ensures var r := if found.Some? then Some(t.exactCount + found.value) else None;
            && IsFirstRoute(t.routes, verb, path, r)
            && (CompiledMismatch(t, verb, path, r) <==>
                || OtherMethod(ExactRoutes(t), verb, path, 0, t.exactCount)
                || (found.None? && OtherMethod(ParamRoutes(t), verb, path, 0, |ParamRoutes(t)|)))
  {
    SplitFirst(t.routes, t.exactCount, verb, path, None, found);
    SplitOther(t.routes, t.exactCount, verb, path);
    JoinOther(t.routes, t.exactCount, verb, path);
  }

  lemma JoinOther(routes: seq<Binding>, cut: nat, verb: Verb, path: string)
    requires cut <= |routes|
    ensures OtherMethod(routes, verb, path, 0, |routes|) <==>
            OtherMethod(routes, verb, path, 0, cut) || OtherMethod(routes, verb, path, cut, |routes|)
  {
  }

  /** What is left of the lookup once the exact index, if any, has not answered. */
  method FindAfterExact(t: Table, ghost s: Shape, hash: Key -> nat, verb: Verb, path: string, exactMismatch: bool)
    returns (r: Option<nat>, mismatch: bool)
    requires TableOk(t, s, hash) && IsFirstRoute(ExactRoutes(t), verb, path, None)
    requires exactMismatch <==> OtherMethod(ExactRoutes(t), verb, path, 0, t.exactCount)
    ensures IsFirstRoute(t.routes, verb, path, r)
    ensures mismatch <==> CompiledMismatch(t, verb, path, r)
  {
    if t.buckets != [] {
      var found := FindParam(t, s, hash, verb, path);
      ParamDecides(t, verb, path, found);
      if found.Some? {
        return Some(t.exactCount + found.value), exactMismatch;
      }
      var other := ParamOther(t, s, hash, verb, path);
      return None, exactMismatch || other;
    }
    if t.exactSlots == [] {
      r, mismatch := FindLinear(t.routes, verb, path);
      return;
    }
    // No bucket, so no parameter route: the last scan has nothing to visit.
    var found, other := FindLinear(ParamRoutes(t), verb, path);
    ParamDecides(t, verb, path, found);
    r, mismatch := None, exactMismatch || other;
  }

  /** sl_http_dispatch_find_route_compiled */
  method FindCompiled(t: Table, ghost s: Shape, hash: Key -> nat, verb: Verb, path: string)
    returns (r: Option<nat>, mismatch: bool)
    requires TableOk(t, s, hash)
    ensures IsFirstRoute(t.routes, verb, path, r)
    ensures mismatch <==> CompiledMismatch(t, verb, path, r)
  {
    mismatch := false;
    if t.exactSlots != [] {
      r := FindExact(t, s, hash, verb, path);
      if r.Some? {
        ExactDecides(t, verb, path, r.value);
        return;
      }
      mismatch := ExactOther(t, s, hash, verb, path);
    }
    r, mismatch := FindAfterExact(t, s, hash, verb, path, mismatch);
  }

  // ----- the two lookups together -----

  lemma FirstRouteIsUnique(routes: seq<Binding>, verb: Verb, path: string, a: Option<nat>, b: Option<nat>)
    requires IsFirstRoute(routes, verb, path, a) && IsFirstRoute(routes, verb, path, b)
    ensures a == b
  {
  }

  /**
   A route of another method on the path stands before the answer where only the scan sees it:
   before an exact answer, or among the parameter routes before a parameter answer with no exact
   route of another method to report anyway.
  */
  ghost predicate Shadowed(t: Table, verb: Verb, path: string, i: nat) {
    if i < t.exactCount then OtherMethod(t.routes, verb, path, 0, i)
    else !OtherMethod(t.routes, verb, path, 0, t.exactCount) && OtherMethod(t.routes, verb, path, t.exactCount, i)
  }

  datatype Mode = Classic | Compiled | Validate

  /** sl_http_dispatch_find_route; an error is the internal failure of the validating mode.  HEAD gets GET's answer. */
  method FindRoute(t: Table, ghost s: Shape, hash: Key -> nat, mode: Mode, request: Verb, path: string)
    returns (r: Result<(Option<nat>, bool), ()>)
    requires TableOk(t, s, hash)
    ensures var verb := if request == HEAD then GET else request;
            && (r.Ok? ==> IsFirstRoute(t.routes, verb, path, r.value.0))
            && (r.Ok? && r.value.0.None? ==> (r.value.1 <==> OtherMethod(t.routes, verb, path, 0, |t.routes|)))
            && (r.Err? <==> mode == Validate && exists i: nat ::
                  IsFirstHit(t.routes, verb, path, i) && Shadowed(t, verb, path, i))
  {
    var verb := if request == HEAD then GET else request;
    if mode == Classic {
      var found, mismatch := FindLinear(t.routes, verb, path);
      return Ok((found, mismatch));
    }
    var compiled, compiledMismatch := FindCompiled(t, s, hash, verb, path);
    if mode == Compiled {
      return Ok((compiled, compiledMismatch));
    }
    var classic, classicMismatch := FindLinear(t.routes, verb, path);
    FirstRouteIsUnique(t.routes, verb, path, compiled, classic);
    DisagreesIffShadowed(t, verb, path, classic);
    if compiled != classic || compiledMismatch != classicMismatch {
      return Err(());
    }
    r := Ok((compiled, compiledMismatch));
  }

  lemma DisagreesIffShadowed(t: Table, verb: Verb, path: string, r: Option<nat>)
    requires t.exactCount <= |t.routes| && IsFirstRoute(t.routes, verb, path, r)
    ensures (CompiledMismatch(t, verb, path, r)
             != OtherMethod(t.routes, verb, path, 0, if r.Some? then r.value else |t.routes|))
        <==> exists i: nat :: IsFirstHit(t.routes, verb, path, i) && Shadowed(t, verb, path, i)
  {
    if r.Some? {
      forall i: nat | IsFirstHit(t.routes, verb, path, i)
        ensures i == r.value
      {
        FirstRouteIsUnique(t.routes, verb, path, r, Some(i));
      }
    }
  }

  // ----- which of several matching routes answers -----

  /** The first position where the labels differ. */
  ghost predicate LabelsPartAt(a: seq<Segment>, b: seq<Segment>, k: nat) {
    k < |a| && k < |b| && LabelOf(a[k]) != LabelOf(b[k]) && forall i :: 0 <= i < k ==> LabelOf(a[i]) == LabelOf(b[i])
  }

  /** A text where the other has a parameter, or a constrained parameter where the other's is free. */
  predicate MoreSpecific(a: Segment, b: Segment) {
    b.Param? && (a.Static? || (a.kind != StringParam && b.kind == StringParam))
  }

  /** Two segments that take the same piece differ only if one is more specific. */
  lemma OneIsMoreSpecific(a: Segment, b: Segment, piece: string)
    requires SegmentMatches(a, piece) && SegmentMatches(b, piece) && LabelOf(a) != LabelOf(b)
    ensures MoreSpecific(a, b) || MoreSpecific(b, a)
  {
    if a.Param? && b.Param? && a.kind != StringParam && b.kind != StringParam {
      ConstraintsAreExclusive(a.kind, b.kind, piece);
    }
  }

  lemma {:induction false} LabelsPartBefore(a: seq<Segment>, b: seq<Segment>, n: nat) returns (k: nat)
    requires n < |a| && n < |b| && LabelOf(a[n]) != LabelOf(b[n])
    ensures LabelsPartAt(a, b, k)
  {
    if i :| 0 <= i < n && LabelOf(a[i]) != LabelOf(b[i]) {
      k := LabelsPartBefore(a, b, i);
    } else {
      k := n;
    }
  }

  lemma LabelsPart(a: seq<Segment>, b: seq<Segment>) returns (k: nat)
    requires |a| == |b| && Labels(a) != Labels(b)
    ensures LabelsPartAt(a, b, k)
  {
    var n :| 0 <= n < |a| && Labels(a)[n] != Labels(b)[n];
    k := LabelsPartBefore(a, b, n);
  }

  lemma LessIsMoreSpecific(a: Binding, b: Binding, path: string, k: nat)
    requires PathMatches(a.segments, path) && PathMatches(b.segments, path) && Less(a, b)
    requires LabelsPartAt(a.segments, b.segments, k)
    ensures MoreSpecific(a.segments[k], b.segments[k])
  {
    OneIsMoreSpecific(a.segments[k], b.segments[k], Segments(path)[k]);
    assert PartAt(a.segments, b.segments, k) by {
      assert forall i :: 0 <= i < k ==> LabelOf(a.segments[i]) == LabelOf(b.segments[i]);
    }
    LessExactly(a, b, k);
  }

  lemma LessIsEarlier(a: Binding, b: Binding)
    requires Labels(a.segments) == Labels(b.segments) && Less(a, b)
    ensures a.order < b.order
  {
    forall i | 0 <= i < |a.segments|
      ensures SameTest(a.segments[i], b.segments[i])
    {
      assert Labels(a.segments)[i] == Labels(b.segments)[i];
    }
    LessExactly(a, b, 0);
  }

  /** A route without parameters is more specific than one with, where they first differ. */
  lemma ExactIsMoreSpecific(a: Binding, b: Binding, path: string, k: nat)
    requires PathMatches(a.segments, path) && PathMatches(b.segments, path) && Exact(a)
    requires LabelsPartAt(a.segments, b.segments, k)
    ensures MoreSpecific(a.segments[k], b.segments[k])
  {
    NoParams(a.segments);
    OneIsMoreSpecific(a.segments[k], b.segments[k], Segments(path)[k]);
  }

  lemma ExactHasOwnLabels(a: Binding, b: Binding)
    requires Labels(a.segments) == Labels(b.segments) && Exact(a)
    ensures Exact(b)
  {
    NoParams(a.segments);
    forall i | 0 <= i < |b.segments|
      ensures b.segments[i].Static?
    {
      assert Labels(a.segments)[i] == Labels(b.segments)[i];
    }
    StaticsAreExact(b.segments);
  }

  lemma {:induction false} StaticsAreExact(segments: seq<Segment>)
    requires forall i :: 0 <= i < |segments| ==> segments[i].Static?
    ensures CountParams(segments) == 0
  {
    if segments != [] {
      StaticsAreExact(segments[..|segments| - 1]);
    }
  }

  /** `a` answers rather than `b`: earlier if they test the same, else more specific where they first differ. */
  ghost predicate Beats(a: Binding, b: Binding) {
    if Labels(a.segments) == Labels(b.segments) then a.order < b.order
    else exists k: nat :: LabelsPartAt(a.segments, b.segments, k) && MoreSpecific(a.segments[k], b.segments[k])
  }

  lemma LessBeats(a: Binding, b: Binding, path: string)
    requires PathMatches(a.segments, path) && PathMatches(b.segments, path) && Less(a, b)
    ensures Beats(a, b)
  {
    if Labels(a.segments) == Labels(b.segments) {
      LessIsEarlier(a, b);
    } else {
      var k := LabelsPart(a.segments, b.segments);
      LessIsMoreSpecific(a, b, path, k);
    }
  }

  lemma ExactBeats(a: Binding, b: Binding, path: string)
    requires PathMatches(a.segments, path) && PathMatches(b.segments, path) && Exact(a) && !Exact(b)
    ensures Beats(a, b)
  {
    if Labels(a.segments) == Labels(b.segments) {
      ExactHasOwnLabels(a, b);
    } else {
      var k := LabelsPart(a.segments, b.segments);
      ExactIsMoreSpecific(a, b, path, k);
    }
  }

  /** Two routes of one method without parameters answer one path only if they are the same text. */
  lemma ExactAnswersOnce(a: Binding, b: Binding, verb: Verb, path: string)
    requires Runnable(a) && Runnable(b) && Exact(a) && Exact(b) && Hit(a, verb, path) && Hit(b, verb, path)
    ensures a.verb == b.verb && a.source == b.source
  {
    ExactMatchesItself(a, path);
    ExactMatchesItself(b, path);
  }

  /** The answer beats every other route of its method on the path. */
  lemma MostSpecificWins(t: Table, verb: Verb, path: string, i: nat, j: nat)
    requires Arranged(t.routes, t.exactCount) && IsFirstHit(t.routes, verb, path, i)
    requires j < |t.routes| && j != i && Hit(t.routes[j], verb, path)
    requires (t.routes[i].verb, t.routes[i].source) != (t.routes[j].verb, t.routes[j].source)
    ensures Beats(t.routes[i], t.routes[j])
  {
    assert i < j;
    if i >= t.exactCount {
      var params := t.routes[t.exactCount..];
      assert Less(params[i - t.exactCount], params[j - t.exactCount]);
      LessBeats(t.routes[i], t.routes[j], path);
    } else if j >= t.exactCount {
      ExactBeats(t.routes[i], t.routes[j], path);
    } else {
      ExactAnswersOnce(t.routes[i], t.routes[j], verb, path);
    }
  }
}
