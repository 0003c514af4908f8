/**
 From a Plan to the dispatch table (src/core/http_dispatch.c, sl_http_route_table_build;
 src/core/plan.c): what a Plan is refused for, in which order, and the table of one that is not.
*/
module RoutePlan {
  import opened Prelude
  import opened Permutations
  import opened RouteParser
  import opened RouteMatching
  import opened RouteOrder
  import opened RouteTrie
  import opened RouteDispatch
  import opened RouteLookup
  import RouteConstraints

  datatype PlanRoute = PlanRoute(verb: string, pattern: string, handlerId: nat)

  /** The routes, and the ids of the handlers. */
  datatype Plan = Plan(routes: seq<PlanRoute>, handlers: seq<nat>)

  datatype Refusal = TooMany | DuplicateRoute | DuplicateHandler | UnsupportedMethod | MissingHandler | InvalidRoute

  const INVALID_ID: nat := 0

  function VerbText(verb: Verb): string {
    match verb
    case GET => "GET"
    case POST => "POST"
    case PUT => "PUT"
    case PATCH => "PATCH"
    case DELETE => "DELETE"
    case OPTIONS => "OPTIONS"
    case HEAD => "HEAD"
  }

  /** sl_http_method_from_str for the methods a route may have: HEAD is not among them. */
  function VerbOf(text: string): (r: Option<Verb>)
    ensures r.Some? ==> r.value != HEAD && text == VerbText(r.value)
    ensures r.None? ==> forall verb :: verb != HEAD ==> text != VerbText(verb)
  {
    if text == "GET" then Some(GET)
    else if text == "PUT" then Some(PUT)
    else if text == "POST" then Some(POST)
    else if text == "PATCH" then Some(PATCH)
    else if text == "DELETE" then Some(DELETE)
    else if text == "OPTIONS" then Some(OPTIONS)
    else None
  }

  /** Why a route cannot become an entry, in the order of the tests. */
  function Fault(plan: Plan, route: PlanRoute): Option<Refusal> {
    if VerbOf(route.verb).None? then Some(UnsupportedMethod)
    else if route.handlerId == INVALID_ID || route.handlerId !in plan.handlers then Some(MissingHandler)
    else if Parsed(route.pattern).None? then Some(InvalidRoute)
    else None
  }

  /** The first of: a method that is none of the six, an id that is zero or unknown, a pattern that is not parsed. */
  lemma FaultsExactly(plan: Plan, route: PlanRoute)
    ensures var known := route.verb in ["GET", "POST", "PUT", "PATCH", "DELETE", "OPTIONS"];
            var handled := route.handlerId != 0 && route.handlerId in plan.handlers;
            && (Fault(plan, route) == Some(UnsupportedMethod) <==> !known)
            && (Fault(plan, route) == Some(MissingHandler) <==> known && !handled)
            && (Fault(plan, route) == Some(InvalidRoute) <==> known && handled && Parsed(route.pattern).None?)
            && (Fault(plan, route) == None <==> known && handled && Parsed(route.pattern).Some?)
  {
  }

  function Entry(plan: Plan, i: nat): Binding
    requires i < |plan.routes| && Fault(plan, plan.routes[i]).None?
  {
    var route := plan.routes[i];
    Binding(VerbOf(route.verb).value, route.pattern, Parsed(route.pattern).value, i)
  }

  ghost predicate IsEntries(plan: Plan, entries: seq<Binding>, n: nat) {
    && |entries| == n <= |plan.routes|
    && forall i :: 0 <= i < n ==> Fault(plan, plan.routes[i]).None? && entries[i] == Entry(plan, i)
  }

  predicate NoFaultBefore(plan: Plan, i: nat)
    requires i <= |plan.routes|
  {
    forall j :: 0 <= j < i ==> Fault(plan, plan.routes[j]).None?
  }

  ghost predicate FaultAt(plan: Plan, i: nat, fault: Refusal) {
    i < |plan.routes| && NoFaultBefore(plan, i) && Fault(plan, plan.routes[i]) == Some(fault)
  }

  /** The first route with a fault has this one. */
  ghost predicate FirstFault(plan: Plan, fault: Refusal) {
    exists i: nat :: FaultAt(plan, i, fault)
  }

  /** sl_plan_has_duplicate_handler_ids */
  method HasDuplicateHandlers(ids: seq<nat>) returns (r: bool)
    ensures r <==> !Distinct(ids)
  {
    for outer := 0 to |ids|
      invariant forall i, j :: 0 <= i < outer && i < j < |ids| ==> ids[i] != ids[j]
    {
      for inner := outer + 1 to |ids|
        invariant forall j :: outer < j < inner ==> ids[outer] != ids[j]
      {
        if ids[outer] == ids[inner] {
          return true;
        }
      }
    }
    r := false;
  }

  /** sl_http_route_table_count_runnable_routes: every supported method is runnable. */
  method CountRunnable(plan: Plan) returns (r: Option<nat>)
    ensures r.None? <==> exists i :: 0 <= i < |plan.routes| && VerbOf(plan.routes[i].verb).None?
    ensures r.Some? ==> r.value == |plan.routes|
  {
    var count := 0;
    for i := 0 to |plan.routes|
      invariant count == i && forall j :: 0 <= j < i ==> VerbOf(plan.routes[j].verb).Some?
    {
      if VerbOf(plan.routes[i].verb).None? {
        return None;
      }
      count := count + 1;
    }
    r := Some(count);
  }

  /** sl_http_route_table_fill_entries */
  method FillEntries(plan: Plan) returns (r: Result<seq<Binding>, Refusal>)
    ensures r.Ok? ==> IsEntries(plan, r.value, |plan.routes|)
    ensures r.Err? ==> FirstFault(plan, r.error)
  {
    var entries: seq<Binding> := [];
    for i := 0 to |plan.routes|
      invariant IsEntries(plan, entries, i)
    {
      var route := plan.routes[i];
      var verb := VerbOf(route.verb);
      if verb.None? {
        assert FaultAt(plan, i, UnsupportedMethod);
        return Err(UnsupportedMethod);
      }
      if route.handlerId == INVALID_ID || route.handlerId !in plan.handlers {
        assert FaultAt(plan, i, MissingHandler);
        return Err(MissingHandler);
      }
      var segments := ParsePattern(route.pattern);
      if segments.None? {
        assert FaultAt(plan, i, InvalidRoute);
        return Err(InvalidRoute);
      }
      entries := entries + [Binding(verb.value, route.pattern, segments.value, i)];
    }
    r := Ok(entries);
  }

  lemma EntriesAreRunnable(plan: Plan, entries: seq<Binding>)
    requires IsEntries(plan, entries, |plan.routes|)
    ensures DistinctOrders(entries) && forall i :: 0 <= i < |entries| ==> Runnable(entries[i])
  {
  }

  function KeysOf(routes: seq<PlanRoute>): (r: seq<(string, string)>)
    ensures |r| == |routes| && forall i :: 0 <= i < |r| ==> r[i] == (routes[i].verb, routes[i].pattern)
  {
    seq(|routes|, i requires 0 <= i < |routes| => (routes[i].verb, routes[i].pattern))
  }

  ghost predicate Unsupported(plan: Plan) {
    exists i :: 0 <= i < |plan.routes| && VerbOf(plan.routes[i].verb).None?
  }

  /** What a Plan is refused for: repeated routes, repeated handlers, methods, then the first fault. */
  ghost predicate RefusedFor(plan: Plan, why: Refusal) {
    if !Distinct(KeysOf(plan.routes)) then why == DuplicateRoute
    else if !Distinct(plan.handlers) then why == DuplicateHandler
    else if Unsupported(plan) then why == UnsupportedMethod
    else FirstFault(plan, why)
  }

  /** A Plan without a reason to refuse it. */
  ghost predicate Sound(plan: Plan) {
    && Distinct(KeysOf(plan.routes)) && Distinct(plan.handlers)
    && forall i :: 0 <= i < |plan.routes| ==> Fault(plan, plan.routes[i]).None?
  }

  ghost predicate Built(plan: Plan, hash: Key -> nat, r: Result<Table, Refusal>, s: Shape) {
    match r
    case Ok(t) =>
      && Sound(plan) && TableOk(t, s, hash)
      && exists entries :: IsEntries(plan, entries, |plan.routes|) && multiset(t.routes) == multiset(entries)
                           && t.routes[..t.exactCount] == ExactOnly(entries)
    case Err(why) => if why == TooMany then |plan.routes| > SIZE_MAX / 4 else RefusedFor(plan, why)
  }

  /** sl_http_route_table_build */
  method BuildTable(plan: Plan, planHash: ((string, string)) -> nat, hash: Key -> nat)
    returns (r: Result<Table, Refusal>, ghost s: Shape)
    ensures Built(plan, hash, r, s)
    ensures if r.Ok? then Sound(plan) else r.error != TooMany ==> RefusedFor(plan, r.error)
  {
    s := Shape([], [], []);
    var repeated := HasDuplicates(KeysOf(plan.routes), planHash);
    if repeated.None? {
      return Err(TooMany), s;
    }
    if repeated.value {
      return Err(DuplicateRoute), s;
    }
    var twice := HasDuplicateHandlers(plan.handlers);
    if twice {
      return Err(DuplicateHandler), s;
    }
    var count := CountRunnable(plan);
    if count.None? {
      return Err(UnsupportedMethod), s;
    }
    var filled := FillEntries(plan);
    if filled.Err? {
      return Err(filled.error), s;
    }
    EntriesAreRunnable(plan, filled.value);
    var table;
    table, s := BuildEntries(filled.value, hash);
    r := if table.None? then Err(TooMany) else Ok(table.value);
  }

  lemma {:induction false} FirstFaultExists(plan: Plan, i: nat) returns (why: Refusal)
    requires i < |plan.routes| && Fault(plan, plan.routes[i]).Some?
    ensures FirstFault(plan, why)
  {
    if NoFaultBefore(plan, i) {
      why := Fault(plan, plan.routes[i]).value;
      assert FaultAt(plan, i, why);
    } else {
      var j :| 0 <= j < i && Fault(plan, plan.routes[j]).Some?;
      why := FirstFaultExists(plan, j);
    }
  }

  lemma FirstFaultIsUnique(plan: Plan, why: Refusal, other: Refusal)
    requires FirstFault(plan, why) && FirstFault(plan, other)
    ensures why == other
  {
    var i: nat :| FaultAt(plan, i, why);
    var j: nat :| FaultAt(plan, j, other);
    assert i == j;
  }

  /** Every Plan has one reason to be refused or none, and none exactly when it is sound. */
  lemma RefusedExactly(plan: Plan)
    ensures (exists why :: RefusedFor(plan, why)) <==> !Sound(plan)
    ensures forall why, other :: RefusedFor(plan, why) && RefusedFor(plan, other) ==> why == other
  {
    if !Distinct(KeysOf(plan.routes)) {
      assert RefusedFor(plan, DuplicateRoute);
    } else if !Distinct(plan.handlers) {
      assert RefusedFor(plan, DuplicateHandler);
    } else if Unsupported(plan) {
      assert RefusedFor(plan, UnsupportedMethod);
    } else if !Sound(plan) {
      var i :| 0 <= i < |plan.routes| && Fault(plan, plan.routes[i]).Some?;
      var why := FirstFaultExists(plan, i);
      assert RefusedFor(plan, why);
    }
    forall why, other | RefusedFor(plan, why) && RefusedFor(plan, other)
      ensures why == other
    {
      if FirstFault(plan, why) && FirstFault(plan, other) {
        FirstFaultIsUnique(plan, why, other);
      }
    }
  }

  /** A Plan of a size that fits is built exactly when it is sound, and else refused for its reason. */
  lemma BuiltExactly(plan: Plan, hash: Key -> nat, r: Result<Table, Refusal>, s: Shape)
    requires Built(plan, hash, r, s) && |plan.routes| <= SIZE_MAX / 4
    ensures r.Ok? <==> Sound(plan)
    ensures r.Err? ==> RefusedFor(plan, r.error)
  {
    RefusedExactly(plan);
  }

  // ----- which route of a Plan answers -----

  /** Each entry of the table is a route of the Plan, at the position its order says. */
  lemma RouteIsEntry(plan: Plan, entries: seq<Binding>, routes: seq<Binding>, i: nat)
    requires IsEntries(plan, entries, |plan.routes|) && multiset(routes) == multiset(entries) && i < |routes|
    ensures routes[i].order < |plan.routes| && routes[i] == entries[routes[i].order]
    ensures var route := plan.routes[routes[i].order];
            && routes[i].source == route.pattern && VerbOf(route.verb) == Some(routes[i].verb)
            && Some(routes[i].segments) == Parsed(route.pattern)
  {
    assert routes[i] in multiset(entries);
    var p :| 0 <= p < |entries| && entries[p] == routes[i];
  }

  lemma VerbsDiffer(a: string, b: string)
    requires a != b && VerbOf(a).Some? && VerbOf(b).Some?
    ensures VerbOf(a) != VerbOf(b)
  {
  }

  lemma EntriesDiffer(plan: Plan, entries: seq<Binding>, p: nat, q: nat)
    requires Distinct(KeysOf(plan.routes)) && IsEntries(plan, entries, |plan.routes|)
    requires p < |entries| && q < |entries| && p != q
    ensures (entries[p].verb, entries[p].source) != (entries[q].verb, entries[q].source)
  {
    assert KeysOf(plan.routes)[p] != KeysOf(plan.routes)[q];
    if plan.routes[p].verb != plan.routes[q].verb {
      VerbsDiffer(plan.routes[p].verb, plan.routes[q].verb);
    }
  }

  /** Different positions of the table are different routes of the Plan. */
  lemma RoutesDiffer(plan: Plan, entries: seq<Binding>, routes: seq<Binding>, i: nat, j: nat)
    requires Distinct(KeysOf(plan.routes)) && IsEntries(plan, entries, |plan.routes|)
    requires multiset(routes) == multiset(entries) && i < |routes| && j < |routes| && i != j
    ensures (routes[i].verb, routes[i].source) != (routes[j].verb, routes[j].source)
  {
    var lo, hi := if i < j then i else j, if i < j then j else i;
    TwoOccurrences(entries, routes, lo, hi);
    var p, q :| 0 <= p < |entries| && 0 <= q < |entries| && p != q
                && entries[p] == routes[lo] && entries[q] == routes[hi];
    EntriesDiffer(plan, entries, p, q);
  }

  /**
   Of the routes of a Plan that match a request, the answer is the earliest among those with
   its labels, and against any other it has a text or a constraint where the two first differ.
  */
  lemma AnswerIsMostSpecific(plan: Plan, hash: Key -> nat, t: Table, s: Shape, verb: Verb, path: string, i: nat, j: nat)
    requires Built(plan, hash, Ok(t), s) && IsFirstHit(t.routes, verb, path, i)
    requires j < |t.routes| && j != i && Hit(t.routes[j], verb, path)
    ensures var a, b := t.routes[i].segments, t.routes[j].segments;
            && (Labels(a) == Labels(b) ==> t.routes[i].order < t.routes[j].order)
            && (Labels(a) != Labels(b) ==> exists k: nat :: LabelsPartAt(a, b, k) && MoreSpecific(a[k], b[k]))
  {
    var entries := RoutesOfBuilt(plan, hash, t, s);
    RoutesDiffer(plan, entries, t.routes, i, j);
    MostSpecificWins(t, verb, path, i, j);
  }

  // ----- the two lookups can disagree -----

  lemma OneStaticSegment()
    ensures Parsed("/a") == Some([Static("a")])
    ensures PathMatches([Static("a")], "/a")
  {
    assert "/a" == "/" + "a";
    RouteConstraints.OneSegment("a");
    RouteConstraints.TextMeans("a", "/a");
  }

  /** GET and POST on "/a", in that order. */
  function TwoMethods(): Plan {
    Plan([PlanRoute("GET", "/a", 1), PlanRoute("POST", "/a", 2)], [1, 2])
  }

  function TwoBindings(): seq<Binding> {
    [Binding(GET, "/a", [Static("a")], 0), Binding(POST, "/a", [Static("a")], 1)]
  }

  lemma TwoMethodsAreSound()
    ensures Sound(TwoMethods()) && IsEntries(TwoMethods(), TwoBindings(), 2)
  {
    OneStaticSegment();
    assert KeysOf(TwoMethods().routes)[0] == ("GET", "/a") && KeysOf(TwoMethods().routes)[1] == ("POST", "/a");
    assert "GET"[0] != "POST"[0];
  }

  lemma BothAreExact()
    ensures ExactOnly(TwoBindings()) == TwoBindings()
  {
    var a, b := TwoBindings()[0], TwoBindings()[1];
    assert CountParams([Static("a")]) == 0;
    assert Exact(a) && Exact(b);
    FilterSnoc([], Exact, a);
    FilterSnoc([a], Exact, b);
    assert [] + [a] == [a] && [a] + [b] == TwoBindings();
  }

  /** Where all entries are exact, the routes are the entries. */
  lemma AllExact(routes: seq<Binding>, exactCount: nat, entries: seq<Binding>)
    requires exactCount <= |routes| && multiset(routes) == multiset(entries) && routes[..exactCount] == entries
    ensures routes == entries
  {
    assert |multiset(routes)| == |routes| && |multiset(entries)| == |entries|;
  }

  /** The entries of the Plan are the two bindings, both exact, so they are all the routes there are. */
  lemma OnlyTheTwo(entries: seq<Binding>, routes: seq<Binding>, exactCount: nat)
    requires IsEntries(TwoMethods(), entries, 2) && exactCount <= |routes|
    requires multiset(routes) == multiset(entries) && routes[..exactCount] == ExactOnly(entries)
    ensures routes == TwoBindings() && exactCount == 2
  {
    TwoMethodsAreSound();
    assert entries == TwoBindings();
    BothAreExact();
    AllExact(routes, exactCount, entries);
  }

  /** What is known of the routes of a table that was built. */
  lemma RoutesOfBuilt(plan: Plan, hash: Key -> nat, t: Table, s: Shape) returns (entries: seq<Binding>)
    requires Built(plan, hash, Ok(t), s)
    ensures IsEntries(plan, entries, |plan.routes|) && t.exactCount <= |t.routes|
    ensures multiset(t.routes) == multiset(entries) && t.routes[..t.exactCount] == ExactOnly(entries)
  {
    entries :| IsEntries(plan, entries, |plan.routes|) && multiset(t.routes) == multiset(entries)
               && t.routes[..t.exactCount] == ExactOnly(entries);
  }

  lemma BuiltRoutes(hash: Key -> nat, r: Result<Table, Refusal>, s: Shape)
    requires Built(TwoMethods(), hash, r, s)
    ensures r.Ok? && r.value.routes == TwoBindings() && r.value.exactCount == 2
  {
    TwoMethodsAreSound();
    BuiltExactly(TwoMethods(), hash, r, s);
    var entries := RoutesOfBuilt(TwoMethods(), hash, r.value, s);
    OnlyTheTwo(entries, r.value.routes, r.value.exactCount);
  }

  lemma PostIsShadowed(t: Table)
    requires t.routes == TwoBindings() && t.exactCount == 2
    ensures IsFirstHit(t.routes, POST, "/a", 1) && Shadowed(t, POST, "/a", 1)
  {
    OneStaticSegment();
    assert CountParams([Static("a")]) == 0;
    assert Exact(t.routes[0]) && Exact(t.routes[1]);
    assert PathHit(t.routes[0], "/a");
  }

  /**
   The Plan with GET and POST on one path is built, and a POST request fails in the validating
   mode: the scan reports the GET route before it, the exact index does not.
  */
  lemma ValidationCanFail(hash: Key -> nat, r: Result<Table, Refusal>, s: Shape)
    requires Built(TwoMethods(), hash, r, s)
    ensures r.Ok? && IsFirstHit(r.value.routes, POST, "/a", 1) && Shadowed(r.value, POST, "/a", 1)
  {
    BuiltRoutes(hash, r, s);
    PostIsShadowed(r.value);
  }
}
