/**
 How complete a Plan claims to be (compiler/src/validation.rs): each route gets a status with
 reasons, and the Plan gets the worst of them.
*/
module Completeness {
  import opened Permutations

  datatype Status = Complete | Partial | Declared | Dynamic | Opaque | RuntimeOnly | Invalid

  datatype Reason = Reason(code: string, message: string)

  datatype Grade = Grade(status: Status, reasons: seq<Reason>)

  datatype Evidence = Evidence(hasResponse: bool, partialResponse: bool, bodyWithoutSchema: bool,
                               missingProvider: bool, runtimeOnly: bool, schemaConflict: bool)

  const MISSING_PROVIDER :=
    Reason("missing-provider", "route uses a provider effect that is not registered in the Plan")
  const RUNTIME_ROUTE := Reason("runtime-only-route", "route explicitly requires runtime-only metadata")
  const RESPONSE_MISSING := Reason("response-metadata-missing", "route response metadata could not be fully inferred")
  const RESPONSE_PARTIAL := Reason("response-metadata-partial", "route response metadata is partial")
  const BODY_SCHEMA_MISSING := Reason("body-schema-missing", "route reads JSON body data without a declared schema")
  const SCHEMA_CONFLICT := Reason("schema-metadata-conflict", "route schema metadata had conflicting static evidence")

  function When(has: bool, reason: Reason): seq<Reason> {
    if has then [reason] else []
  }

  /** route_completeness */
  function RouteGrade(e: Evidence): Grade {
    if e.missingProvider then Grade(Invalid, [MISSING_PROVIDER])
    else if e.runtimeOnly then Grade(RuntimeOnly, [RUNTIME_ROUTE])
    else
      var reasons :=
        When(!e.hasResponse, RESPONSE_MISSING) + When(e.partialResponse, RESPONSE_PARTIAL)
        + When(e.bodyWithoutSchema, BODY_SCHEMA_MISSING) + When(e.schemaConflict, SCHEMA_CONFLICT);
      if reasons == [] then Grade(Complete, []) else Grade(Partial, reasons)
  }

  /** The reasons are pushed in this order. */
  method GradeRoute(e: Evidence) returns (r: Grade)
    ensures r == RouteGrade(e)
  {
    if e.missingProvider {
      return Grade(Invalid, [MISSING_PROVIDER]);
    }
    if e.runtimeOnly {
      return Grade(RuntimeOnly, [RUNTIME_ROUTE]);
    }
    var reasons := [];
    if !e.hasResponse {
      reasons := reasons + [RESPONSE_MISSING];
    }
    if e.partialResponse {
      reasons := reasons + [RESPONSE_PARTIAL];
    }
    if e.bodyWithoutSchema {
      reasons := reasons + [BODY_SCHEMA_MISSING];
    }
    if e.schemaConflict {
      reasons := reasons + [SCHEMA_CONFLICT];
    }
    r := if reasons == [] then Grade(Complete, []) else Grade(Partial, reasons);
  }

  // ----- reasons, once each, in the order they were first given -----

  function Add(known: seq<Reason>, reason: Reason): seq<Reason> {
    if reason in known then known else known + [reason]
  }

  function AddAll(known: seq<Reason>, reasons: seq<Reason>): seq<Reason> {
    if reasons == [] then known
    else Add(AddAll(known, reasons[..|reasons| - 1]), reasons[|reasons| - 1])
  }

  lemma {:induction false} AddAllCollects(known: seq<Reason>, reasons: seq<Reason>)
    ensures forall x :: x in AddAll(known, reasons) <==> x in known || x in reasons
    ensures Distinct(known) ==> Distinct(AddAll(known, reasons))
    ensures known <= AddAll(known, reasons)
  {
    if reasons != [] {
      var init, last := reasons[..|reasons| - 1], reasons[|reasons| - 1];
      AddAllCollects(known, init);
      assert reasons == init + [last];
    }
  }

  lemma {:induction false} AddAllConcat(known: seq<Reason>, a: seq<Reason>, b: seq<Reason>)
    ensures AddAll(known, a + b) == AddAll(AddAll(known, a), b)
  {
    if b == [] {
      assert a + b == a;
    } else {
      AddAllConcat(known, a, b[..|b| - 1]);
      assert (a + b)[..|a + b| - 1] == a + b[..|b| - 1];
    }
  }

  /** Dropping repetitions first changes nothing. */
  lemma {:induction false} AddAllOnce(known: seq<Reason>, reasons: seq<Reason>)
    ensures AddAll(known, AddAll([], reasons)) == AddAll(known, reasons)
  {
    if reasons != [] {
      var init, last := reasons[..|reasons| - 1], reasons[|reasons| - 1];
      AddAllOnce(known, init);
      AddAllCollects([], init);
      AddAllCollects(known, init);
      var once := AddAll([], init);
      if last !in once {
        assert (once + [last])[..|once + [last]| - 1] == once;
      }
    }
  }

  /** The reasons of the partial routes, in order. */
  function PartialReasons(routes: seq<Grade>): seq<Reason> {
    if routes == [] then []
    else
      var last := routes[|routes| - 1];
      PartialReasons(routes[..|routes| - 1]) + (if last.status == Partial then last.reasons else [])
  }

  lemma {:induction false} PartialReasonsConcat(a: seq<Grade>, b: seq<Grade>)
    ensures PartialReasons(a + b) == PartialReasons(a) + PartialReasons(b)
  {
    if b == [] {
      assert a + b == a;
    } else {
      PartialReasonsConcat(a, b[..|b| - 1]);
      assert (a + b)[..|a + b| - 1] == a + b[..|b| - 1];
    }
  }

  // ----- the Plan's grade -----

  predicate Any(routes: seq<Grade>, status: Status) {
    exists i :: 0 <= i < |routes| && routes[i].status == status
  }

  const INVALID_ROUTE := Reason("invalid-route", "one or more routes are invalid")
  const RUNTIME_ROUTES := Reason("runtime-only-route", "one or more routes explicitly require runtime-only metadata")
  const DYNAMIC_ROUTE := Reason("dynamic-route", "one or more routes have dynamic metadata")
  const PARTIAL_ROUTE := Reason("partial-route", "one or more routes have partial inferred metadata")

  function PlanGrade(routes: seq<Grade>): Grade {
    if Any(routes, Invalid) then Grade(Invalid, [INVALID_ROUTE])
    else if Any(routes, RuntimeOnly) then Grade(RuntimeOnly, [RUNTIME_ROUTES])
    else if Any(routes, Dynamic) then Grade(Dynamic, [DYNAMIC_ROUTE])
    else if Any(routes, Partial) then
      var reasons := AddAll([], PartialReasons(routes));
      Grade(Partial, if reasons == [] then [PARTIAL_ROUTE] else reasons)
    else Grade(Complete, [])
  }

  method CollectReasons(routes: seq<Grade>) returns (reasons: seq<Reason>)
    ensures reasons == AddAll([], PartialReasons(routes))
  {
    reasons := [];
    for i := 0 to |routes|
      invariant reasons == AddAll([], PartialReasons(routes[..i]))
    {
      ghost var before := PartialReasons(routes[..i]);
      assert routes[..i + 1][..i] == routes[..i];
      if routes[i].status == Partial {
        var more := routes[i].reasons;
        AddAllConcat([], before, more);
        for k := 0 to |more|
          invariant reasons == AddAll(AddAll([], before), more[..k])
        {
          assert more[..k + 1][..k] == more[..k];
          if more[k] !in reasons {
            reasons := reasons + [more[k]];
          }
        }
        assert more[..|more|] == more;
      } else {
        assert before + [] == before;
      }
    }
    assert routes[..|routes|] == routes;
  }

  /** plan_completeness */
  method GradePlan(routes: seq<Grade>) returns (r: Grade)
    ensures r == PlanGrade(routes)
  {
    if Any(routes, Invalid) {
      return Grade(Invalid, [INVALID_ROUTE]);
    }
    if Any(routes, RuntimeOnly) {
      return Grade(RuntimeOnly, [RUNTIME_ROUTES]);
    }
    if Any(routes, Dynamic) {
      return Grade(Dynamic, [DYNAMIC_ROUTE]);
    }
    if Any(routes, Partial) {
      var reasons := CollectReasons(routes);
      return Grade(Partial, if reasons == [] then [PARTIAL_ROUTE] else reasons);
    }
    r := Grade(Complete, []);
  }

  // ----- the Plan is as bad as its worst route -----

  /** How bad a route makes its Plan; declared and opaque routes count as complete. */
  function Severity(status: Status): nat {
    match status
    case Invalid => 4
    case RuntimeOnly => 3
    case Dynamic => 2
    case Partial => 1
    case _ => 0
  }

  function Worse(a: Status, b: Status): Status {
    if Severity(a) >= Severity(b) then a else b
  }

  lemma PlanIsWorstRoute(routes: seq<Grade>)
    ensures forall i :: 0 <= i < |routes| ==> Severity(routes[i].status) <= Severity(PlanGrade(routes).status)
    ensures PlanGrade(routes).status == Complete || Any(routes, PlanGrade(routes).status)
  {
    forall i | 0 <= i < |routes|
      ensures Any(routes, routes[i].status)
    {
    }
  }

  lemma AnyConcat(a: seq<Grade>, b: seq<Grade>, status: Status)
    ensures Any(a + b, status) <==> Any(a, status) || Any(b, status)
  {
    var all := a + b;
    if i :| 0 <= i < |a| && a[i].status == status {
      assert all[i] == a[i];
    }
    if i :| 0 <= i < |b| && b[i].status == status {
      assert all[|a| + i] == b[i];
    }
  }

  lemma StatusConcat(a: seq<Grade>, b: seq<Grade>)
    ensures PlanGrade(a + b).status == Worse(PlanGrade(a).status, PlanGrade(b).status)
  {
    AnyConcat(a, b, Invalid);
    AnyConcat(a, b, RuntimeOnly);
    AnyConcat(a, b, Dynamic);
    AnyConcat(a, b, Partial);
  }

  lemma AnyPermutes(a: seq<Grade>, b: seq<Grade>, status: Status)
    requires multiset(a) == multiset(b)
    ensures Any(a, status) ==> Any(b, status)
  {
    if i :| 0 <= i < |a| && a[i].status == status {
      assert a[i] in multiset(b);
      var j :| 0 <= j < |b| && b[j] == a[i];
    }
  }

  /** The order of the routes does not change the status, nor the set of reasons. */
  lemma StatusPermutes(a: seq<Grade>, b: seq<Grade>)
    requires multiset(a) == multiset(b)
    ensures PlanGrade(a).status == PlanGrade(b).status
    ensures forall x :: x in PlanGrade(a).reasons <==> x in PlanGrade(b).reasons
  {
    AnyBothWays(a, b, Invalid);
    AnyBothWays(a, b, RuntimeOnly);
    AnyBothWays(a, b, Dynamic);
    AnyBothWays(a, b, Partial);
    AddAllCollects([], PartialReasons(a));
    AddAllCollects([], PartialReasons(b));
    ReasonsPermute(a, b);
    ReasonsPermute(b, a);
    SameMembersSameEmptiness(AddAll([], PartialReasons(a)), AddAll([], PartialReasons(b)));
  }

  lemma SameMembersSameEmptiness(a: seq<Reason>, b: seq<Reason>)
    requires forall x :: x in a <==> x in b
    ensures a == [] <==> b == []
  {
    assert a != [] ==> a[0] in b;
    assert b != [] ==> b[0] in a;
  }

  lemma AnyBothWays(a: seq<Grade>, b: seq<Grade>, status: Status)
    requires multiset(a) == multiset(b)
    ensures Any(a, status) <==> Any(b, status)
  {
    AnyPermutes(a, b, status);
    AnyPermutes(b, a, status);
  }

  lemma {:induction false} ReasonIsFrom(routes: seq<Grade>, x: Reason)
    ensures x in PartialReasons(routes) <==> exists i ::
              0 <= i < |routes| && routes[i].status == Partial && x in routes[i].reasons
  {
    if routes != [] {
      var init, last := routes[..|routes| - 1], routes[|routes| - 1];
      ReasonIsFrom(init, x);
      if i :| 0 <= i < |routes| && routes[i].status == Partial && x in routes[i].reasons {
        assert i < |init| ==> init[i] == routes[i];
      }
      if i :| 0 <= i < |init| && init[i].status == Partial && x in init[i].reasons {
        assert routes[i] == init[i];
      }
    }
  }

  lemma ReasonsPermute(a: seq<Grade>, b: seq<Grade>)
    requires multiset(a) == multiset(b)
    ensures forall x :: x in PartialReasons(a) ==> x in PartialReasons(b)
  {
    forall x | x in PartialReasons(a)
      ensures x in PartialReasons(b)
    {
      ReasonIsFrom(a, x);
      var i :| 0 <= i < |a| && a[i].status == Partial && x in a[i].reasons;
      assert a[i] in multiset(b);
      var j :| 0 <= j < |b| && b[j] == a[i];
      ReasonIsFrom(b, x);
    }
  }

  // ----- grading in stages -----

  /** Every partial route says why. */
  predicate Explained(routes: seq<Grade>) {
    forall i :: 0 <= i < |routes| && routes[i].status == Partial ==> routes[i].reasons != []
  }

  lemma ExplainedHasReasons(routes: seq<Grade>)
    requires Explained(routes) && Any(routes, Partial)
    ensures AddAll([], PartialReasons(routes)) != []
  {
    var i :| 0 <= i < |routes| && routes[i].status == Partial;
    ReasonIsFrom(routes, routes[i].reasons[0]);
    AddAllCollects([], PartialReasons(routes));
  }

  lemma PairStatus(x: Grade, y: Grade, s: Status)
    ensures Any([x, y], s) <==> x.status == s || y.status == s
  {
    assert [x, y][0] == x && [x, y][1] == y;
  }

  lemma PairGrade(a: seq<Grade>, b: seq<Grade>)
    ensures PlanGrade([PlanGrade(a), PlanGrade(b)]).status == Worse(PlanGrade(a).status, PlanGrade(b).status)
  {
    var x, y := PlanGrade(a), PlanGrade(b);
    PairStatus(x, y, Invalid);
    PairStatus(x, y, RuntimeOnly);
    PairStatus(x, y, Dynamic);
    PairStatus(x, y, Partial);
  }

  /** But for partial Plans, the status fixes the grade. */
  lemma SameStatusSameGrade(a: seq<Grade>, b: seq<Grade>)
    requires PlanGrade(a).status == PlanGrade(b).status
    requires PlanGrade(a).status == Partial ==> AddAll([], PartialReasons(a)) == AddAll([], PartialReasons(b))
    ensures PlanGrade(a) == PlanGrade(b)
  {
  }

  /** Grading two halves and then their grades is grading the whole. */
  lemma GradingInStages(a: seq<Grade>, b: seq<Grade>)
    requires Explained(a) && Explained(b)
    ensures PlanGrade([PlanGrade(a), PlanGrade(b)]) == PlanGrade(a + b)
  {
    StatusConcat(a, b);
    PairGrade(a, b);
    if PlanGrade(a + b).status == Partial {
      PartialStages(a, b);
    }
    SameStatusSameGrade([PlanGrade(a), PlanGrade(b)], a + b);
  }

  lemma AddAllInStages(p: seq<Reason>, q: seq<Reason>)
    ensures AddAll([], AddAll([], p) + AddAll([], q)) == AddAll([], p + q)
  {
    var once := AddAll([], p);
    AddAllConcat([], once, AddAll([], q));
    AddAllOnce([], p);
    AddAllOnce(once, q);
    AddAllConcat([], p, q);
  }

  lemma PartialStages(a: seq<Grade>, b: seq<Grade>)
    requires Explained(a) && Explained(b) && Severity(PlanGrade(a).status) <= 1 && Severity(PlanGrade(b).status) <= 1
    ensures AddAll([], PartialReasons([PlanGrade(a), PlanGrade(b)])) == AddAll([], PartialReasons(a + b))
  {
    PartialReasonsConcat(a, b);
    StageReasons(a);
    StageReasons(b);
    PairReasons(PlanGrade(a), PlanGrade(b));
    AddAllInStages(PartialReasons(a), PartialReasons(b));
  }

  lemma PairReasons(x: Grade, y: Grade)
    ensures PartialReasons([x, y]) == (if x.status == Partial then x.reasons else [])
            + (if y.status == Partial then y.reasons else [])
  {
    assert [x, y][..1] == [x] && [x][..0] == [];
    assert PartialReasons([x]) == if x.status == Partial then x.reasons else [];
  }

  /** A part that is at worst partial passes on exactly its reasons. */
  lemma StageReasons(routes: seq<Grade>)
    requires Explained(routes) && Severity(PlanGrade(routes).status) <= 1
    ensures (if PlanGrade(routes).status == Partial then PlanGrade(routes).reasons else [])
            == AddAll([], PartialReasons(routes))
  {
    if Any(routes, Partial) {
      ExplainedHasReasons(routes);
    } else {
      NoPartialNoReasons(routes);
    }
  }

  lemma {:induction false} NoPartialNoReasons(routes: seq<Grade>)
    requires !Any(routes, Partial)
    ensures PartialReasons(routes) == []
  {
    if routes != [] {
      var init := routes[..|routes| - 1];
      assert forall i :: 0 <= i < |init| ==> init[i] == routes[i];
      NoPartialNoReasons(init);
    }
  }

  // ----- what the compiler's own grades give -----

  lemma CodesDiffer()
    ensures Distinct([MISSING_PROVIDER, RUNTIME_ROUTE, RESPONSE_MISSING, RESPONSE_PARTIAL, BODY_SCHEMA_MISSING,
                      SCHEMA_CONFLICT])
  {
    assert |MISSING_PROVIDER.code| == 16 && |RUNTIME_ROUTE.code| == 18 && |RESPONSE_MISSING.code| == 25;
    assert |RESPONSE_PARTIAL.code| == 25 && |BODY_SCHEMA_MISSING.code| == 19 && |SCHEMA_CONFLICT.code| == 24;
    assert RESPONSE_MISSING.code[18] == 'm' && RESPONSE_PARTIAL.code[18] == 'p';
  }

  /** Of four different reasons, those given are listed once each. */
  lemma GivenReasons(p: Reason, q: Reason, r: Reason, s: Reason, hp: bool, hq: bool, hr: bool, hs: bool)
    requires Distinct([p, q, r, s])
    ensures var given := When(hp, p) + When(hq, q) + When(hr, r) + When(hs, s);
            && Distinct(given)
            && forall x :: x in given <==> (hp && x == p) || (hq && x == q) || (hr && x == r) || (hs && x == s)
  {
    var all := [p, q, r, s];
    assert all[0] != all[1] && all[0] != all[2] && all[0] != all[3] && all[1] != all[2] && all[1] != all[3];
    assert all[2] != all[3];
  }

  predicate Hidden(e: Evidence) {
    e.missingProvider || e.runtimeOnly
  }

  lemma HiddenReasons(e: Evidence, x: Reason)
    requires Hidden(e)
    ensures Distinct(RouteGrade(e).reasons)
    ensures x in RouteGrade(e).reasons <==> x == if e.missingProvider then MISSING_PROVIDER else RUNTIME_ROUTE
  {
  }

  lemma OpenReasons(e: Evidence, x: Reason)
    requires !Hidden(e)
    ensures Distinct(RouteGrade(e).reasons)
    ensures x in RouteGrade(e).reasons <==>
              || (!e.hasResponse && x == RESPONSE_MISSING) || (e.partialResponse && x == RESPONSE_PARTIAL)
              || (e.bodyWithoutSchema && x == BODY_SCHEMA_MISSING) || (e.schemaConflict && x == SCHEMA_CONFLICT)
  {
    CodesDiffer();
    var all := [MISSING_PROVIDER, RUNTIME_ROUTE, RESPONSE_MISSING, RESPONSE_PARTIAL, BODY_SCHEMA_MISSING,
                SCHEMA_CONFLICT];
    assert all[2..] == [RESPONSE_MISSING, RESPONSE_PARTIAL, BODY_SCHEMA_MISSING, SCHEMA_CONFLICT];
    assert Distinct(all[2..]);
    GivenReasons(RESPONSE_MISSING, RESPONSE_PARTIAL, BODY_SCHEMA_MISSING, SCHEMA_CONFLICT,
                 !e.hasResponse, e.partialResponse, e.bodyWithoutSchema, e.schemaConflict);
  }

  /** Reasons are given once each, exactly for what they name; a hidden route has only the one that hides it. */
  lemma ReasonsAreExact(e: Evidence, x: Reason)
    ensures Distinct(RouteGrade(e).reasons)
    ensures x in RouteGrade(e).reasons <==>
              if Hidden(e) then x == if e.missingProvider then MISSING_PROVIDER else RUNTIME_ROUTE
              else || (!e.hasResponse && x == RESPONSE_MISSING) || (e.partialResponse && x == RESPONSE_PARTIAL)
                   || (e.bodyWithoutSchema && x == BODY_SCHEMA_MISSING) || (e.schemaConflict && x == SCHEMA_CONFLICT)
  {
    if Hidden(e) {
      HiddenReasons(e, x);
    } else {
      OpenReasons(e, x);
    }
  }

  lemma RouteGradeIsHonest(e: Evidence)
    ensures RouteGrade(e).status in {Complete, Partial, RuntimeOnly, Invalid}
    ensures RouteGrade(e).status != Complete <==> RouteGrade(e).reasons != []
    ensures RouteGrade(e).status == Invalid <==> e.missingProvider
    ensures RouteGrade(e).status == RuntimeOnly <==> e.runtimeOnly && !e.missingProvider
    ensures RouteGrade(e).status == Complete <==>
            e.hasResponse && !e.partialResponse && !e.bodyWithoutSchema && !e.missingProvider && !e.runtimeOnly
                && !e.schemaConflict
  {
  }

  /** Invalid before runtime-only before dynamic before partial, each for a route that has it. */
  lemma PlanStatusExactly(routes: seq<Grade>)
    ensures var status := PlanGrade(routes).status;
            && (status == Invalid <==> exists i :: 0 <= i < |routes| && routes[i].status == Invalid)
            && (status == RuntimeOnly <==>
                  && (forall i :: 0 <= i < |routes| ==> routes[i].status != Invalid)
                  && exists i :: 0 <= i < |routes| && routes[i].status == RuntimeOnly)
            && (status == Dynamic <==>
                  && (forall i :: 0 <= i < |routes| ==> routes[i].status != Invalid && routes[i].status != RuntimeOnly)
                  && exists i :: 0 <= i < |routes| && routes[i].status == Dynamic)
            && (status == Partial <==>
                  && (forall i :: 0 <= i < |routes| ==> routes[i].status !in {Invalid, RuntimeOnly, Dynamic})
                  && exists i :: 0 <= i < |routes| && routes[i].status == Partial)
  {
  }

  /** The three worst have one reason, by name; a partial Plan lists those of its partial routes, or a general one. */
  lemma PlanReasonsExactly(routes: seq<Grade>, x: Reason)
    ensures var plan := PlanGrade(routes);
            && (plan.status == Invalid ==> |plan.reasons| == 1 && plan.reasons[0].code == "invalid-route")
            && (plan.status == RuntimeOnly ==> |plan.reasons| == 1 && plan.reasons[0].code == "runtime-only-route")
            && (plan.status == Dynamic ==> |plan.reasons| == 1 && plan.reasons[0].code == "dynamic-route")
            && (plan.status == Partial && Explained(routes) ==>
                  Distinct(plan.reasons) && (x in plan.reasons <==> exists i ::
                    0 <= i < |routes| && routes[i].status == Partial && x in routes[i].reasons))
            && (plan.status == Partial && PartialReasons(routes) == [] ==>
                  |plan.reasons| == 1 && plan.reasons[0].code == "partial-route")
  {
    AddAllCollects([], PartialReasons(routes));
    ReasonIsFrom(routes, x);
    if Any(routes, Partial) && Explained(routes) {
      ExplainedHasReasons(routes);
    }
  }

  /** A Plan is complete when no route is worse than declared or opaque, and only then. */
  lemma CompleteExactly(routes: seq<Grade>)
    ensures PlanGrade(routes).status == Complete <==> forall i :: 0 <= i < |routes| ==>
            routes[i].status in {Complete, Declared, Opaque}
    ensures PlanGrade(routes).status != Complete <==> PlanGrade(routes).reasons != []
  {
    PlanIsWorstRoute(routes);
  }
}
