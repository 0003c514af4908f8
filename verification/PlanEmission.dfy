/**
 What the compiler emits for an application (compiler/src/plan_emit.rs), and the contract that
 Plan and binary table then meet on every application.
*/
module PlanEmission {
  import opened Prelude
  import opened Slrt
  import opened SlrtReaders
  import opened PlanContract
  import opened RoutePatterns
  import opened RouteParser
  import C = Completeness

  datatype Effect = Effect(provider: string, capabilityKind: string, providerKind: string)

  datatype Capability = Capability(token: string, capabilityKind: string, provider: string)

  datatype AppResponse = AppResponse(kind: string, nativeBody: Option<string>, partial: bool)

  datatype AppRoute = AppRoute(
    verb: string, pattern: string, name: Option<string>, response: Option<AppResponse>,
    effects: seq<Effect>, bodyWithoutSchema: bool, runtimeDeferred: bool, schemaConflict: bool)

  datatype App = App(kind: ProjectKind, routes: seq<AppRoute>, capabilities: seq<Capability>)

  function TableRoute(route: AppRoute): Route {
    Route(route.verb, route.pattern, route.name,
          if route.response.Some? then Some(Response(route.response.value.kind, route.response.value.nativeBody))
              else None,
          route.effects != [])
  }

  function TableRoutes(routes: seq<AppRoute>): (r: seq<Route>)
    ensures |r| == |routes|
    ensures forall i :: 0 <= i < |r| ==> r[i] == TableRoute(routes[i])
  {
    seq(|routes|, i requires 0 <= i < |routes| => TableRoute(routes[i]))
  }

  function Registered(capabilities: seq<Capability>): set<(string, string, string)> {
    set i | 0 <= i < |capabilities| :: (capabilities[i].token, capabilities[i].capabilityKind, capabilities[i].provider)
  }

  predicate MissesProvider(route: AppRoute, capabilities: seq<Capability>) {
    exists k :: 0 <= k < |route.effects| &&
      (route.effects[k].provider, route.effects[k].capabilityKind, route.effects[k].providerKind)
      !in Registered(capabilities)
  }

  function PartialResponse(route: AppRoute): bool {
    route.response.Some? && route.response.value.partial
  }

  function GradeOf(route: AppRoute, capabilities: seq<Capability>): C.Grade {
    C.RouteGrade(C.Evidence(route.response.Some?, PartialResponse(route), route.bodyWithoutSchema,
                            MissesProvider(route, capabilities), route.runtimeDeferred, route.schemaConflict))
  }

  function StatusText(status: C.Status): string {
    match status
    case Complete => "complete"
    case Partial => "partial"
    case Declared => "declared"
    case Dynamic => "dynamic"
    case Opaque => "opaque"
    case RuntimeOnly => "runtime-only"
    case Invalid => "invalid"
  }

  function Codes(reasons: seq<C.Reason>): (r: seq<Option<string>>)
    ensures |r| == |reasons|
    ensures forall i :: 0 <= i < |r| ==> r[i] == Some(reasons[i].code)
  {
    seq(|reasons|, i requires 0 <= i < |reasons| => Some(reasons[i].code))
  }

  function EffectsJson(effects: seq<Effect>): (r: seq<EffectJson>)
    ensures |r| == |effects|
    ensures forall i :: 0 <= i < |r| ==> r[i] == EffectJson(Some(effects[i].provider), Some(effects[i].capabilityKind))
  {
    seq(|effects|, i requires 0 <= i < |effects| =>
      EffectJson(Some(effects[i].provider), Some(effects[i].capabilityKind)))
  }

  function EmitRoute(route: AppRoute, index: nat, capabilities: seq<Capability>): RouteJson {
    var kind := KindOfRoute(TableRoute(route));
    var grade := GradeOf(route, capabilities);
    RouteJson(
      Some(route.verb), Some(route.pattern), Some(index + 1), Some(index + 1), Some(KindText(kind)),
      if route.effects != [] then Some(EffectsJson(route.effects)) else None,
      kind != V8Handler && route.response.Some? && route.response.value.nativeBody.Some?,
      Some(StatusText(grade.status)), Some(Codes(grade.reasons)),
      if PartialResponse(route) then Some(true) else None)
  }

  function EmitRoutes(app: App): (r: seq<RouteJson>)
    ensures |r| == |app.routes|
    ensures forall i :: 0 <= i < |r| ==> r[i] == EmitRoute(app.routes[i], i, app.capabilities)
  {
    seq(|app.routes|, i requires 0 <= i < |app.routes| => EmitRoute(app.routes[i], i, app.capabilities))
  }

  function EmitCapabilities(capabilities: seq<Capability>): (r: seq<CapabilityJson>)
    ensures |r| == |capabilities|
    ensures forall i :: 0 <= i < |r| ==>
            r[i] == CapabilityJson(Some(capabilities[i].token), Some(capabilities[i].capabilityKind))
  {
    seq(|capabilities|, i requires 0 <= i < |capabilities| =>
      CapabilityJson(Some(capabilities[i].token), Some(capabilities[i].capabilityKind)))
  }

  function HandlerIds(n: nat): (r: seq<Option<nat>>)
    ensures |r| == n
    ensures forall i :: 0 <= i < n ==> r[i] == Some(i + 1)
  {
    seq(n, i requires 0 <= i < n => Some(i + 1))
  }

  function NativeEndpoints(routes: seq<AppRoute>): nat {
    if routes == [] then 0
    else
      NativeEndpoints(routes[..|routes| - 1])
      + (if KindOfRoute(TableRoute(routes[|routes| - 1])) != V8Handler then 1 else 0)
  }

  /** The counter of route_dispatch_json. */
  method CountNativeEndpoints(routes: seq<AppRoute>) returns (n: nat)
    ensures n == NativeEndpoints(routes)
  {
    n := 0;
    for i := 0 to |routes|
      invariant n == NativeEndpoints(routes[..i])
    {
      assert routes[..i + 1][..i] == routes[..i];
      if KindOfRoute(TableRoute(routes[i])) != V8Handler {
        n := n + 1;
      }
    }
    assert routes[..|routes|] == routes;
  }

  /** emit_plan: an error for a program with routes; `hash` is that of the binary table. */
  function EmitPlan(app: App, hash: Option<string>): Option<PlanJson> {
    if app.kind != Web && app.routes != [] then None
    else Some(PlanJson(
      Some(if app.kind == Web then "web" else "program"), Some(EmitRoutes(app)), Some(HandlerIds(|app.routes|)),
      if app.kind == Web then Some(NativeEndpoints(app.routes)) else None,
      if app.kind == Web then hash else None,
      Some(EmitCapabilities(app.capabilities))))
  }

  // ----- the contract holds -----

  lemma EmittedHandlersAgree(app: App, hash: Option<string>)
    requires EmitPlan(app, hash).Some?
    ensures HandlersAgree(EmitPlan(app, hash).value)
  {
    var routes, handlers := EmitRoutes(app), HandlerIds(|app.routes|);
    forall i | 0 <= i < |routes|
      ensures RouteHandled(routes[i], handlers)
    {
      assert handlers[i] == Some(i + 1);
    }
  }

  lemma {:induction false} NativeCountsAgree(app: App, k: nat)
    requires k <= |app.routes|
    ensures NativeCount(EmitRoutes(app)[..k]) == NativeEndpoints(app.routes[..k])
  {
    if k > 0 {
      NativeCountsAgree(app, k - 1);
      assert EmitRoutes(app)[..k][..k - 1] == EmitRoutes(app)[..k - 1];
      assert app.routes[..k][..k - 1] == app.routes[..k - 1];
      KindTextsApart(KindOfRoute(TableRoute(app.routes[k - 1])));
    }
  }

  lemma KindTextsApart(kind: ExecutionKind)
    ensures KindAllowed(KindText(kind)) && (KindText(kind) == "v8-handler" <==> kind == V8Handler)
  {
    assert KindText(kind) in ["v8-handler", "native-static-text", "native-static-json", "native-static-empty",
           "native-static-problem"];
  }

  lemma EmittedRouteDispatches(route: AppRoute, index: nat, capabilities: seq<Capability>)
    ensures RouteDispatches(EmitRoute(route, index, capabilities))
  {
    KindTextsApart(KindOfRoute(TableRoute(route)));
  }

  lemma EmittedEntriesAgree(app: App)
    ensures EntriesAgree(ArtifactRoutes(TableRoutes(app.routes)), EmitRoutes(app))
  {
  }

  /** Plan and binary table of one application agree: routes, kinds, native count and hash. */
  lemma EmittedDispatchAgrees(app: App, sha: string -> string, utf8: string -> bool)
    requires app.kind == Web && Emittable(TableRoutes(app.routes))
    requires forall i :: 0 <= i < |app.routes| ==> utf8(app.routes[i].pattern)
    ensures var bytes := Artifact(TableRoutes(app.routes));
            DispatchAgrees(EmitPlan(app, Some(sha(bytes))).value, Some(bytes), sha, utf8)
  {
    var bytes := Artifact(TableRoutes(app.routes));
    EmittedIsParsed(TableRoutes(app.routes), utf8);
    EmittedEntriesAgree(app);
    assert ReadsAs(bytes, utf8, ArtifactRoutes(TableRoutes(app.routes)));
    EmittedRoutesDispatch(app);
  }

  lemma EmittedRoutesDispatch(app: App)
    ensures NativeCount(EmitRoutes(app)) == NativeEndpoints(app.routes)
    ensures forall i :: 0 <= i < |app.routes| ==> RouteDispatches(EmitRoutes(app)[i])
  {
    NativeCountsAgree(app, |app.routes|);
    assert EmitRoutes(app)[..|app.routes|] == EmitRoutes(app) && app.routes[..|app.routes|] == app.routes;
    forall i | 0 <= i < |app.routes|
      ensures RouteDispatches(EmitRoutes(app)[i])
    {
      EmittedRouteDispatches(app.routes[i], i, app.capabilities);
    }
  }

  /** Without a binary table, and for programs, the Plan's own dispatch data still agrees. */
  lemma EmittedDispatchAgreesAlone(app: App, hash: Option<string>, sha: string -> string, utf8: string -> bool)
    requires EmitPlan(app, hash).Some?
    ensures DispatchAgrees(EmitPlan(app, hash).value, None, sha, utf8)
  {
    EmittedRoutesDispatch(app);
  }

  lemma RegisteredIsDeclared(capabilities: seq<Capability>, token: string, kind: string, provider: string)
    requires (token, kind, provider) in Registered(capabilities)
    ensures (token, kind) in Pairs(EmitCapabilities(capabilities))
  {
    var i :| 0 <= i < |capabilities|
        && (capabilities[i].token, capabilities[i].capabilityKind, capabilities[i].provider) == (token, kind, provider);
    assert EmitCapabilities(capabilities)[i] == CapabilityJson(Some(token), Some(kind));
  }

  lemma EmittedEffectDeclared(route: AppRoute, index: nat, capabilities: seq<Capability>)
    ensures EffectsDeclared(EmitRoute(route, index, capabilities), Pairs(EmitCapabilities(capabilities)))
  {
    var emitted, declared := EmitRoute(route, index, capabilities), Pairs(EmitCapabilities(capabilities));
    if MissesProvider(route, capabilities) {
      assert OrEmpty(emitted.reasons)[0] == Some("missing-provider");
    } else {
      forall k | 0 <= k < |OrEmpty(emitted.effects)|
        ensures EffectDeclared(OrEmpty(emitted.effects)[k], emitted, declared)
      {
        var e := route.effects[k];
        RegisteredIsDeclared(capabilities, e.provider, e.capabilityKind, e.providerKind);
      }
    }
  }

  /** Every effect of an emitted Plan resolves or is confessed. */
  lemma EmittedEffectsResolve(app: App, hash: Option<string>)
    requires EmitPlan(app, hash).Some?
    ensures EffectsResolve(EmitPlan(app, hash).value)
  {
    var routes, declared := EmitRoutes(app), Pairs(EmitCapabilities(app.capabilities));
    forall i | 0 <= i < |routes|
      ensures EffectsDeclared(routes[i], declared)
    {
      EmittedEffectDeclared(app.routes[i], i, app.capabilities);
    }
  }

  // ----- what an emitted route says -----

  /** The capability is the one the effect asks for. */
  predicate Registers(c: Capability, e: Effect) {
    c.token == e.provider && c.capabilityKind == e.capabilityKind && c.provider == e.providerKind
  }

  ghost predicate IsRegistered(capabilities: seq<Capability>, e: Effect) {
    exists i :: 0 <= i < |capabilities| && Registers(capabilities[i], e)
  }

  /** Some effect asks for what no capability registers. */
  ghost predicate UsesUnregistered(route: AppRoute, capabilities: seq<Capability>) {
    exists k :: 0 <= k < |route.effects| && !IsRegistered(capabilities, route.effects[k])
  }

  lemma RegisteredExactly(capabilities: seq<Capability>, e: Effect)
    ensures IsRegistered(capabilities, e)
            <==> (e.provider, e.capabilityKind, e.providerKind) in Registered(capabilities)
  {
    if i :| 0 <= i < |capabilities| && Registers(capabilities[i], e) {
      assert (capabilities[i].token, capabilities[i].capabilityKind, capabilities[i].provider)
             == (e.provider, e.capabilityKind, e.providerKind);
    }
    if i :| 0 <= i < |capabilities| && (capabilities[i].token, capabilities[i].capabilityKind, capabilities[i].provider)
            == (e.provider, e.capabilityKind, e.providerKind) {
      assert Registers(capabilities[i], e);
    }
  }

  lemma MissesExactly(route: AppRoute, capabilities: seq<Capability>)
    ensures MissesProvider(route, capabilities) <==> UsesUnregistered(route, capabilities)
  {
    forall k | 0 <= k < |route.effects|
      ensures var e := route.effects[k];
              IsRegistered(capabilities, e)
              <==> (e.provider, e.capabilityKind, e.providerKind) in Registered(capabilities)
    {
      RegisteredExactly(capabilities, route.effects[k]);
    }
  }

  lemma StatusTextsDiffer(status: C.Status)
    ensures StatusText(status) == "invalid" <==> status == C.Invalid
    ensures StatusText(status) == "runtime-only" <==> status == C.RuntimeOnly
    ensures StatusText(status) == "complete" <==> status == C.Complete
    ensures StatusText(status) == "partial" <==> status == C.Partial
  {
    assert |"invalid"| == |"partial"| == |"dynamic"| == 7 && |"complete"| == |"declared"| == 8;
    assert "invalid"[0] == 'i' && "partial"[0] == 'p' && "dynamic"[0] == 'd';
    assert "complete"[0] == 'c' && "declared"[0] == 'd' && |"runtime-only"| == 12 && |"opaque"| == 6;
  }

  /** The status of an emitted route, in terms of the route. */
  lemma EmittedStatusExactly(route: AppRoute, index: nat, capabilities: seq<Capability>)
    ensures var status := EmitRoute(route, index, capabilities).status;
            var unregistered := UsesUnregistered(route, capabilities);
            var doubts := || route.response.None? || route.response.value.partial
                          || route.bodyWithoutSchema || route.schemaConflict;
            && (status == Some("invalid") <==> unregistered)
            && (status == Some("runtime-only") <==> !unregistered && route.runtimeDeferred)
            && (status == Some("partial") <==> !unregistered && !route.runtimeDeferred && doubts)
            && (status == Some("complete") <==> !unregistered && !route.runtimeDeferred && !doubts)
  {
    MissesExactly(route, capabilities);
    var evidence := C.Evidence(route.response.Some?, PartialResponse(route), route.bodyWithoutSchema,
                               MissesProvider(route, capabilities), route.runtimeDeferred, route.schemaConflict);
    C.RouteGradeIsHonest(evidence);
    StatusTextsDiffer(C.RouteGrade(evidence).status);
  }

  /** Its method, pattern, ids and execution kind. */
  lemma EmittedRouteExactly(route: AppRoute, index: nat, capabilities: seq<Capability>)
    ensures var emitted := EmitRoute(route, index, capabilities);
            var native := && route.effects == [] && route.response.Some? && route.response.value.nativeBody.Some?
                          && route.response.value.kind in ["text", "json", "empty", "problem"];
            && emitted.verb == Some(route.verb) && emitted.pattern == Some(route.pattern)
            && emitted.handlerId == emitted.endpointId == Some(index + 1)
            && emitted.executionKind
               == Some(if native then "native-static-" + route.response.value.kind else "v8-handler")
            && emitted.nativeResponse == native
  {
    KindOfRouteExactly(TableRoute(route));
    KindTextsApart(KindOfRoute(TableRoute(route)));
    assert ServedNatively(TableRoute(route)) ==> "native-static-"[0] != "v8-handler"[0];
  }

  /** Its reasons: one for what hides the rest, else one for each doubt. */
  lemma EmittedReasonsExactly(route: AppRoute, index: nat, capabilities: seq<Capability>, code: string)
    ensures HasReason(EmitRoute(route, index, capabilities), code) <==>
            if UsesUnregistered(route, capabilities) then code == "missing-provider"
            else if route.runtimeDeferred then code == "runtime-only-route"
            else || (code == "response-metadata-missing" && route.response.None?)
                 || (code == "response-metadata-partial" && route.response.Some? && route.response.value.partial)
                 || (code == "body-schema-missing" && route.bodyWithoutSchema)
                 || (code == "schema-metadata-conflict" && route.schemaConflict)
  {
    MissesExactly(route, capabilities);
    var reasons := GradeOf(route, capabilities).reasons;
    assert HasReason(EmitRoute(route, index, capabilities), code) <==> Some(code) in Codes(reasons);
    if Some(code) in Codes(reasons) {
      var i :| 0 <= i < |reasons| && Codes(reasons)[i] == Some(code);
      assert reasons[i] in reasons;
    }
    CodesOf(reasons, C.MISSING_PROVIDER);
    CodesOf(reasons, C.RUNTIME_ROUTE);
    CodesOf(reasons, C.RESPONSE_MISSING);
    CodesOf(reasons, C.RESPONSE_PARTIAL);
    CodesOf(reasons, C.BODY_SCHEMA_MISSING);
    CodesOf(reasons, C.SCHEMA_CONFLICT);
  }

  /** The Plan as a whole: none for a program with routes; kind, handlers 1, 2, ..., and the hash for the web only. */
  lemma EmittedPlanExactly(app: App, hash: Option<string>)
    ensures EmitPlan(app, hash).None? <==> app.kind != Web && app.routes != []
    ensures EmitPlan(app, hash).Some? ==>
              var plan := EmitPlan(app, hash).value;
              && plan.kind == Some(if app.kind == Web then "web" else "program")
              && plan.artifactHash == (if app.kind == Web then hash else None)
              && |OrEmpty(plan.routes)| == |OrEmpty(plan.handlers)| == |app.routes|
              && (forall i :: 0 <= i < |app.routes| ==> OrEmpty(plan.handlers)[i] == Some(i + 1))
              && |OrEmpty(plan.capabilities)| == |app.capabilities|
              && forall i :: 0 <= i < |app.capabilities| ==>
                   && OrEmpty(plan.capabilities)[i].token == Some(app.capabilities[i].token)
                   && OrEmpty(plan.capabilities)[i].kind == Some(app.capabilities[i].capabilityKind)
  {
  }

  // ----- strategies -----

  function PlanStrategy(pattern: string): string {
    if HasParams(pattern) then "segment-trie" else "exact-static-hash"
  }

  /** Plan text, artifact code and the runtime's own parse agree on which index a route goes to. */
  lemma StrategiesAgree(pattern: string)
    ensures PlanStrategy(pattern) == "segment-trie" <==> Strategy(pattern) == 2
    ensures Parsed(pattern).Some? ==> (Strategy(pattern) == 2 <==> CountParams(Parsed(pattern).value) != 0)
    ensures Parsed(pattern).Some? ==> ParamCount(pattern) == CountParams(Parsed(pattern).value)
  {
    assert |"segment-trie"| != |"exact-static-hash"|;
    if Parsed(pattern).Some? {
      RuntimeAgreesOnParams(pattern);
    }
  }

  // ----- completeness: not always -----

  /** A partial response whose route is graded for something worse first. */
  predicate Overshadowed(route: AppRoute, capabilities: seq<Capability>) {
    PartialResponse(route) && (MissesProvider(route, capabilities) || route.runtimeDeferred)
  }

  lemma EmittedRouteHonest(route: AppRoute, index: nat, capabilities: seq<Capability>)
    ensures RouteHonest(EmitRoute(route, index, capabilities)) <==> !Overshadowed(route, capabilities)
  {
    var grade, emitted := GradeOf(route, capabilities), EmitRoute(route, index, capabilities);
    CodesOf(grade.reasons, C.RESPONSE_PARTIAL);
    if PartialResponse(route) && !Overshadowed(route, capabilities) {
      assert C.RESPONSE_PARTIAL in grade.reasons;
      assert HasReason(emitted, "response-metadata-partial");
    }
    if Overshadowed(route, capabilities) {
      assert |OrEmpty(emitted.reasons)| == 1;
      assert OrEmpty(emitted.reasons)[0] == Some("missing-provider")
             || OrEmpty(emitted.reasons)[0] == Some("runtime-only-route");
      assert "missing-provider"[0] != "response-metadata-partial"[0];
      assert |"runtime-only-route"| != |"response-metadata-partial"|;
    }
  }

  lemma CodesOf(reasons: seq<C.Reason>, reason: C.Reason)
    ensures reason in reasons ==> Some(reason.code) in Codes(reasons)
  {
    if reason in reasons {
      var i :| 0 <= i < |reasons| && reasons[i] == reason;
      assert Codes(reasons)[i] == Some(reason.code);
    }
  }

  /** The compiler's Plan passes its own completeness check exactly when no route is overshadowed. */
  lemma EmittedPlanHonestExactly(app: App, hash: Option<string>)
    requires EmitPlan(app, hash).Some?
    ensures PlanHonest(EmitPlan(app, hash).value) <==> forall i :: 0 <= i < |app.routes| ==>
            !Overshadowed(app.routes[i], app.capabilities)
  {
    var plan, routes := EmitPlan(app, hash).value, EmitRoutes(app);
    assert OrEmpty(plan.routes) == routes;
    forall i | 0 <= i < |routes|
      ensures RouteHonest(OrEmpty(plan.routes)[i]) <==> !Overshadowed(app.routes[i], app.capabilities)
    {
      EmittedRouteHonest(app.routes[i], i, app.capabilities);
    }
  }

  /** A deferred route with a partial response: the emitted Plan fails the check. */
  lemma CompletenessCanFail()
    ensures var route := AppRoute("GET", "/", None, Some(AppResponse("json", None, true)), [], false, true, false);
            var plan := EmitPlan(App(Web, [route], []), None);
            plan.Some? && !PlanHonest(plan.value)
  {
    var route := AppRoute("GET", "/", None, Some(AppResponse("json", None, true)), [], false, true, false);
    var app := App(Web, [route], []);
    assert Overshadowed(app.routes[0], []);
    EmittedPlanHonestExactly(app, None);
  }
}
