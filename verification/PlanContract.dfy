/**
 The Plan the compiler emits (compiler/src/plan_emit.rs) and the contract it is checked against
 (compiler/src/compiler_contract.rs).

 A Plan is JSON.  The records below hold what the checker reads of it: a field is `None` when
 it is absent or not of the type the checker asks for, so the checker is modelled on any Plan,
 not only on those the emitter writes.
*/
module PlanContract {
  import opened Prelude
  import opened Permutations
  import opened Slrt
  import opened SlrtReaders

  // ----- the Plan as read -----

  datatype EffectJson = EffectJson(provider: Option<string>, capabilityKind: Option<string>)

  datatype RouteJson = RouteJson(
    verb: Option<string>, pattern: Option<string>, handlerId: Option<nat>,
    endpointId: Option<nat>, executionKind: Option<string>,
    effects: Option<seq<EffectJson>>, nativeResponse: bool,
    status: Option<string>, reasons: Option<seq<Option<string>>>, responsePartial: Option<bool>)

  datatype CapabilityJson = CapabilityJson(token: Option<string>, kind: Option<string>)

  datatype PlanJson = PlanJson(
    kind: Option<string>, routes: Option<seq<RouteJson>>, handlers: Option<seq<Option<nat>>>,
    nativeNoJs: Option<nat>, artifactHash: Option<string>, capabilities: Option<seq<CapabilityJson>>)

  predicate IsWeb(plan: PlanJson) {
    plan.kind.None? || plan.kind.value == "web"
  }

  function OrEmpty<T>(values: Option<seq<T>>): seq<T> {
    if values.Some? then values.value else []
  }

  function OrBlank(text: Option<string>): string {
    if text.Some? then text.value else ""
  }

  datatype Rule = RequiredArray | HandlerIdNumber | HandlerUnique | RouteHandler | RouteResolves | EndpointAgrees
                | KindKnown | EffectsV8 | EffectsNoNative | NativeCountAgrees | HashPresent | HashAgrees
                | ArtifactParses | ArtifactCount | ArtifactAgreement | EffectResolves | ReasonGiven | PartialReflected

  datatype Violation = Violation(rule: Rule, at: nat)

  method ArrayAt<T>(plan: PlanJson, values: Option<seq<T>>) returns (r: seq<T>, violations: seq<Violation>)
    ensures r == OrEmpty(values)
    ensures violations == [] <==> IsWeb(plan) ==> values.Some?
  {
    violations := [];
    if values.None? {
      if IsWeb(plan) {
        violations := [Violation(RequiredArray, 0)];
      }
      return [], violations;
    }
    r := values.value;
  }

  // ----- handlers -----

  ghost predicate RouteHandled(route: RouteJson, handlers: seq<Option<nat>>) {
    route.handlerId.Some? && route.handlerId in handlers && route.endpointId == route.handlerId
  }

  /** Handlers are numbered apart, and each route names one of them, twice over. */
  ghost predicate HandlersAgree(plan: PlanJson) {
    var routes, handlers := OrEmpty(plan.routes), OrEmpty(plan.handlers);
    && (IsWeb(plan) ==> plan.routes.Some? && plan.handlers.Some?)
    && (forall i :: 0 <= i < |handlers| ==> handlers[i].Some?)
    && Distinct(handlers)
    && forall i :: 0 <= i < |routes| ==> RouteHandled(routes[i], handlers)
  }

  lemma {:induction false} OnceIsOne<T>(values: seq<T>)
    ensures Distinct(values) <==> forall x :: x in values ==> multiset(values)[x] == 1
  {
    if values != [] {
      var init, last := values[..|values| - 1], values[|values| - 1];
      assert values == init + [last];
      OnceIsOne(init);
      if Distinct(values) {
        forall x | x in values
          ensures multiset(values)[x] == 1
        {
          assert x in init ==> x != last;
        }
      }
      if forall x :: x in values ==> multiset(values)[x] == 1 {
        assert last in values;
        assert last !in init;
        forall x | x in init
          ensures multiset(init)[x] == 1
        {
          assert x in values;
        }
      }
    }
  }

  ghost predicate Counted(counts: map<nat, nat>, handlers: seq<Option<nat>>) {
    && (forall id :: id in counts <==> Some(id) in handlers)
    && (forall id :: id in counts ==> counts[id] == multiset(handlers)[Some(id)])
  }

  /** Counting the ids; a handler without one is a violation. */
  method CountHandlers(handlers: seq<Option<nat>>) returns (counts: map<nat, nat>, violations: seq<Violation>)
    ensures Counted(counts, handlers)
    ensures violations == [] <==> forall i :: 0 <= i < |handlers| ==> handlers[i].Some?
  {
    counts, violations := map[], [];
    for index := 0 to |handlers|
      invariant Counted(counts, handlers[..index])
      invariant violations == [] <==> forall i :: 0 <= i < index ==> handlers[i].Some?
    {
      assert handlers[..index + 1] == handlers[..index] + [handlers[index]];
      if handlers[index].Some? {
        var id := handlers[index].value;
        counts := counts[id := (if id in counts then counts[id] else 0) + 1];
      } else {
        violations := violations + [Violation(HandlerIdNumber, index)];
      }
    }
    assert handlers[..|handlers|] == handlers;
  }

  method CheckUnique(counts: map<nat, nat>) returns (violations: seq<Violation>)
    ensures violations == [] <==> forall id :: id in counts ==> counts[id] == 1
  {
    violations := [];
    var rest := counts.Keys;
    while rest != {}
      invariant rest <= counts.Keys
      invariant violations == [] <==> forall id :: id in counts && id !in rest ==> counts[id] == 1
      decreases rest
    {
      var id :| id in rest;
      if counts[id] != 1 {
        violations := violations + [Violation(HandlerUnique, id)];
      }
      rest := rest - {id};
    }
  }

  method CheckRouteHandler(route: RouteJson, counts: map<nat, nat>, index: nat) returns (violations: seq<Violation>)
    ensures violations == [] <==>
            route.handlerId.Some? && route.handlerId.value in counts && counts[route.handlerId.value] == 1
                && route.endpointId == route.handlerId
  {
    if route.handlerId.None? {
      return [Violation(RouteHandler, index)];
    }
    violations := [];
    var id := route.handlerId.value;
    var count := if id in counts then counts[id] else 0;
    if count != 1 {
      violations := violations + [Violation(RouteResolves, index)];
    }
    if route.endpointId.None? || route.endpointId.value != id {
      violations := violations + [Violation(EndpointAgrees, index)];
    }
  }

  lemma UniqueCounts(counts: map<nat, nat>, handlers: seq<Option<nat>>)
    requires Counted(counts, handlers) && forall i :: 0 <= i < |handlers| ==> handlers[i].Some?
    ensures (forall id :: id in counts ==> counts[id] == 1) <==> Distinct(handlers)
  {
    OnceIsOne(handlers);
    if forall id :: id in counts ==> counts[id] == 1 {
      forall x | x in handlers
        ensures multiset(handlers)[x] == 1
      {
        assert x.Some? && x.value in counts;
      }
    }
  }

  /** validate_handlers is silent exactly when handlers and routes agree. */
  method ValidateHandlers(plan: PlanJson) returns (violations: seq<Violation>)
    ensures violations == [] <==> HandlersAgree(plan)
  {
    var routes, v1 := ArrayAt(plan, plan.routes);
    var handlers, v2 := ArrayAt(plan, plan.handlers);
    var counts, v3 := CountHandlers(handlers);
    var v4 := CheckUnique(counts);
    var v5 := [];
    for index := 0 to |routes|
      invariant v5 == [] <==> forall i :: 0 <= i < index ==>
        (var r := routes[i];
          r.handlerId.Some? && r.handlerId.value in counts && counts[r.handlerId.value] == 1
          && r.endpointId == r.handlerId)
    {
      var more := CheckRouteHandler(routes[index], counts, index);
      v5 := v5 + more;
    }
    violations := v1 + v2 + v3 + v4 + v5;
    if v3 == [] {
      UniqueCounts(counts, handlers);
    }
  }

  // ----- dispatch -----

  predicate KindAllowed(text: string) {
    text in ["v8-handler", "native-static-text", "native-static-json", "native-static-empty", "native-static-problem"]
  }

  predicate IsNative(route: RouteJson) {
    route.executionKind.Some? && KindAllowed(route.executionKind.value) && route.executionKind.value != "v8-handler"
  }

  function NativeCount(routes: seq<RouteJson>): nat {
    if routes == [] then 0
    else NativeCount(routes[..|routes| - 1]) + (if IsNative(routes[|routes| - 1]) then 1 else 0)
  }

  predicate RouteDispatches(route: RouteJson) {
    && route.executionKind.Some? && KindAllowed(route.executionKind.value)
    && (OrEmpty(route.effects) != [] ==> route.executionKind.value == "v8-handler" && !route.nativeResponse)
  }

  predicate EntryAgrees(entry: ArtifactRoute, route: RouteJson) {
    && route.verb == Some(entry.verb) && route.pattern == Some(entry.pattern)
    && route.handlerId == Some(entry.handlerId) && route.executionKind == Some(KindText(entry.kind))
  }

  ghost predicate EntriesAgree(entries: seq<ArtifactRoute>, routes: seq<RouteJson>) {
    |entries| == |routes| && forall i :: 0 <= i < |routes| ==> EntryAgrees(entries[i], routes[i])
  }

  /** The binary table parses, and says of every route what the Plan says. */
  ghost predicate ArtifactAgrees(bytes: string, utf8: string -> bool, routes: seq<RouteJson>) {
    exists entries :: ReadsAs(bytes, utf8, entries) && EntriesAgree(entries, routes)
  }

  ghost predicate DispatchAgrees(plan: PlanJson, artifact: Option<string>, sha: string -> string,
      utf8: string -> bool) {
    var routes := OrEmpty(plan.routes);
    && (IsWeb(plan) ==> plan.routes.Some?)
    && (forall i :: 0 <= i < |routes| ==> RouteDispatches(routes[i]))
    && (if plan.nativeNoJs.Some? then plan.nativeNoJs.value == NativeCount(routes) else !IsWeb(plan))
    && (artifact.Some? ==>
          plan.artifactHash == Some(sha(artifact.value)) && ArtifactAgrees(artifact.value, utf8, routes))
  }

  method CheckRouteDispatch(route: RouteJson, index: nat) returns (violations: seq<Violation>, native: bool)
    ensures violations == [] <==> RouteDispatches(route)
    ensures native == IsNative(route)
  {
    if route.executionKind.None? || !KindAllowed(route.executionKind.value) {
      return [Violation(KindKnown, index)], false;
    }
    violations := [];
    native := route.executionKind.value != "v8-handler";
    if OrEmpty(route.effects) != [] {
      if native {
        violations := violations + [Violation(EffectsV8, index)];
      }
      if route.nativeResponse {
        violations := violations + [Violation(EffectsNoNative, index)];
      }
    }
  }

  method CheckRoutes(routes: seq<RouteJson>) returns (violations: seq<Violation>, native: nat)
    ensures violations == [] <==> forall i :: 0 <= i < |routes| ==> RouteDispatches(routes[i])
    ensures native == NativeCount(routes)
  {
    violations, native := [], 0;
    for index := 0 to |routes|
      invariant violations == [] <==> forall i :: 0 <= i < index ==> RouteDispatches(routes[i])
      invariant native == NativeCount(routes[..index])
    {
      assert routes[..index + 1][..index] == routes[..index];
      var more, isNative := CheckRouteDispatch(routes[index], index);
      violations := violations + more;
      if isNative {
        native := native + 1;
      }
    }
    assert routes[..|routes|] == routes;
  }

  method CheckArtifact(bytes: string, hash: Option<string>, sha: string -> string, utf8: string -> bool,
      routes: seq<RouteJson>)
    returns (violations: seq<Violation>)
    ensures violations == [] <==> hash == Some(sha(bytes)) && ArtifactAgrees(bytes, utf8, routes)
  {
    violations := [];
    if hash.None? {
      violations := violations + [Violation(HashPresent, 0)];
    } else if hash.value != sha(bytes) {
      violations := violations + [Violation(HashAgrees, 0)];
    }
    var parsed := ParseArtifact(bytes, utf8);
    if parsed.None? {
      UnreadableReadsAsNothing(bytes, utf8);
      return violations + [Violation(ArtifactParses, 0)];
    }
    var more := CheckEntries(parsed.value, routes);
    violations := violations + more;
    ReadsAsOne(bytes, utf8, parsed.value);
  }

  method CheckEntries(entries: seq<ArtifactRoute>, routes: seq<RouteJson>) returns (violations: seq<Violation>)
    ensures violations == [] <==> EntriesAgree(entries, routes)
  {
    violations := [];
    if |entries| != |routes| {
      violations := violations + [Violation(ArtifactCount, 0)];
    }
    for index := 0 to |entries|
      invariant violations == [] <==> |entries| == |routes| && forall i :: 0 <= i < index && i < |routes| ==>
                EntryAgrees(entries[i], routes[i])
    {
      if index < |routes| && !EntryAgrees(entries[index], routes[index]) {
        violations := violations + [Violation(ArtifactAgreement, index)];
      }
    }
  }

  lemma UnreadableReadsAsNothing(bytes: string, utf8: string -> bool)
    requires Unreadable(bytes, utf8)
    ensures forall entries :: !ReadsAs(bytes, utf8, entries)
  {
  }

  lemma ReadsAsOne(bytes: string, utf8: string -> bool, a: seq<ArtifactRoute>)
    requires ReadsAs(bytes, utf8, a)
    ensures forall b :: ReadsAs(bytes, utf8, b) ==> b == a
  {
    forall b | ReadsAs(bytes, utf8, b)
      ensures b == a
    {
      assert forall i :: 0 <= i < |a| ==>
               DecodeAt(bytes, i, utf8) == Some(a[i]) && DecodeAt(bytes, i, utf8) == Some(b[i]);
    }
  }

  /** validate_dispatch is silent exactly when Plan and binary table agree. */
  method ValidateDispatch(plan: PlanJson, artifact: Option<string>, sha: string -> string, utf8: string -> bool)
    returns (violations: seq<Violation>)
    ensures violations == [] <==> DispatchAgrees(plan, artifact, sha, utf8)
  {
    var routes, v1 := ArrayAt(plan, plan.routes);
    var v2, native := CheckRoutes(routes);
    var v3 := [];
    if plan.nativeNoJs.Some? {
      if plan.nativeNoJs.value != native {
        v3 := [Violation(NativeCountAgrees, native)];
      }
    } else if IsWeb(plan) {
      v3 := [Violation(NativeCountAgrees, native)];
    }
    var v4 := [];
    if artifact.Some? {
      v4 := CheckArtifact(artifact.value, plan.artifactHash, sha, utf8, routes);
    }
    violations := v1 + v2 + v3 + v4;
  }

  // ----- provider effects -----

  predicate HasReason(route: RouteJson, code: string) {
    Some(code) in OrEmpty(route.reasons)
  }

  function Pairs(capabilities: seq<CapabilityJson>): set<(string, string)> {
    set i | 0 <= i < |capabilities| && capabilities[i].token.Some? && capabilities[i].kind.Some?
      :: (capabilities[i].token.value, capabilities[i].kind.value)
  }

  predicate EffectDeclared(effect: EffectJson, route: RouteJson, declared: set<(string, string)>) {
    (OrBlank(effect.provider), OrBlank(effect.capabilityKind)) in declared || HasReason(route, "missing-provider")
  }

  ghost predicate EffectsDeclared(route: RouteJson, declared: set<(string, string)>) {
    forall k :: 0 <= k < |OrEmpty(route.effects)| ==> EffectDeclared(OrEmpty(route.effects)[k], route, declared)
  }

  /** Every effect names a declared capability, or its route owns up to the missing one. */
  ghost predicate EffectsResolve(plan: PlanJson) {
    && (IsWeb(plan) ==> plan.routes.Some?)
    && forall i :: 0 <= i < |OrEmpty(plan.routes)| ==>
        EffectsDeclared(OrEmpty(plan.routes)[i], Pairs(OrEmpty(plan.capabilities)))
  }

  method CollectPairs(capabilities: seq<CapabilityJson>) returns (r: set<(string, string)>)
    ensures r == Pairs(capabilities)
  {
    r := {};
    for i := 0 to |capabilities|
      invariant r == Pairs(capabilities[..i])
    {
      assert forall k :: 0 <= k < i ==> capabilities[..i + 1][k] == capabilities[..i][k] == capabilities[k];
      assert capabilities[..i + 1][i] == capabilities[i];
      if capabilities[i].token.Some? && capabilities[i].kind.Some? {
        r := r + {(capabilities[i].token.value, capabilities[i].kind.value)};
      }
    }
    assert capabilities[..|capabilities|] == capabilities;
  }

  method CheckEffects(route: RouteJson, declared: set<(string, string)>, index: nat)
    returns (violations: seq<Violation>)
    ensures violations == [] <==> EffectsDeclared(route, declared)
  {
    violations := [];
    var effects := OrEmpty(route.effects);
    for k := 0 to |effects|
      invariant violations == [] <==> forall m :: 0 <= m < k ==> EffectDeclared(effects[m], route, declared)
    {
      if (OrBlank(effects[k].provider), OrBlank(effects[k].capabilityKind)) in declared {
        continue;
      }
      if !HasReason(route, "missing-provider") {
        violations := violations + [Violation(EffectResolves, index)];
      }
    }
  }

  /** validate_provider_effects is silent exactly when every effect resolves. */
  method ValidateEffects(plan: PlanJson) returns (violations: seq<Violation>)
    ensures violations == [] <==> EffectsResolve(plan)
  {
    var declared := CollectPairs(OrEmpty(plan.capabilities));
    var routes, v1 := ArrayAt(plan, plan.routes);
    var v2 := [];
    for index := 0 to |routes|
      invariant v2 == [] <==> forall i :: 0 <= i < index ==> EffectsDeclared(routes[i], declared)
    {
      var more := CheckEffects(routes[index], declared, index);
      v2 := v2 + more;
    }
    violations := v1 + v2;
  }

  // ----- completeness -----

  predicate RouteHonest(route: RouteJson) {
    && (route.status == Some("complete") || OrEmpty(route.reasons) != [])
    && (route.responsePartial == Some(true) ==> HasReason(route, "response-metadata-partial"))
  }

  ghost predicate PlanHonest(plan: PlanJson) {
    && (IsWeb(plan) ==> plan.routes.Some?)
    && forall i :: 0 <= i < |OrEmpty(plan.routes)| ==> RouteHonest(OrEmpty(plan.routes)[i])
  }

  /** validate_completeness is silent exactly when no route hides a gap. */
  method ValidateCompleteness(plan: PlanJson) returns (violations: seq<Violation>)
    ensures violations == [] <==> PlanHonest(plan)
  {
    var routes, v1 := ArrayAt(plan, plan.routes);
    var v2 := [];
    for index := 0 to |routes|
      invariant v2 == [] <==> forall i :: 0 <= i < index ==> RouteHonest(routes[i])
    {
      var route := routes[index];
      if route.status != Some("complete") && OrEmpty(route.reasons) == [] {
        v2 := v2 + [Violation(ReasonGiven, index)];
      }
      if route.responsePartial == Some(true) && !HasReason(route, "response-metadata-partial") {
        v2 := v2 + [Violation(PartialReflected, index)];
      }
    }
    violations := v1 + v2;
  }

  // ----- what silence means -----

  /** A capability that is declared with the provider and kind of the effect. */
  predicate Declares(capability: CapabilityJson, effect: EffectJson) {
    && capability.token.Some? && capability.kind.Some?
    && capability.token.value == OrBlank(effect.provider) && capability.kind.value == OrBlank(effect.capabilityKind)
  }

  /** A Plan for the web, which one that does not say is too, has its two lists. */
  lemma SilentLists(plan: PlanJson)
    requires HandlersAgree(plan) && (plan.kind.None? || plan.kind.value == "web")
    ensures plan.routes.Some? && plan.handlers.Some?
  {
  }

  /** Route `i` of a Plan without a violation: its handler. */
  lemma SilentHandlers(plan: PlanJson, i: nat) returns (j: nat)
    requires HandlersAgree(plan) && i < |OrEmpty(plan.routes)|
    ensures var route, handlers := OrEmpty(plan.routes)[i], OrEmpty(plan.handlers);
            && route.handlerId.Some? && route.endpointId == route.handlerId
            && j < |handlers| && handlers[j] == route.handlerId
            && forall m :: 0 <= m < |handlers| && m != j ==> handlers[m] != route.handlerId
  {
    var route, handlers := OrEmpty(plan.routes)[i], OrEmpty(plan.handlers);
    assert RouteHandled(route, handlers);
    j :| 0 <= j < |handlers| && handlers[j] == route.handlerId;
  }

  /** Its execution kind, which excludes effects unless the script engine runs it. */
  lemma SilentDispatch(plan: PlanJson, artifact: Option<string>, sha: string -> string, utf8: string -> bool, i: nat)
    requires DispatchAgrees(plan, artifact, sha, utf8) && i < |OrEmpty(plan.routes)|
    ensures var route := OrEmpty(plan.routes)[i];
            && route.executionKind in {Some("v8-handler"), Some("native-static-text"), Some("native-static-json"),
                                       Some("native-static-empty"), Some("native-static-problem")}
            && (OrEmpty(route.effects) != [] ==> route.executionKind == Some("v8-handler") && !route.nativeResponse)
  {
    assert RouteDispatches(OrEmpty(plan.routes)[i]);
  }

  function NativeIds(routes: seq<RouteJson>): set<nat> {
    set i: nat | i < |routes| && IsNative(routes[i])
  }

  lemma NativeIdsSnoc(routes: seq<RouteJson>, route: RouteJson)
    ensures NativeIds(routes + [route]) == NativeIds(routes) + if IsNative(route) then {|routes|} else {}
  {
    var all := routes + [route];
    assert all[|routes|] == route && forall i: nat :: i < |routes| ==> all[i] == routes[i];
  }

  lemma {:induction false} NativeCountIsSize(routes: seq<RouteJson>)
    ensures NativeCount(routes) == |NativeIds(routes)|
  {
    if routes != [] {
      var init, last := routes[..|routes| - 1], routes[|routes| - 1];
      NativeCountIsSize(init);
      NativeIdsSnoc(init, last);
      assert init + [last] == routes;
    }
  }

  /** The count of a web Plan is the number of its routes that are served natively. */
  lemma SilentCount(plan: PlanJson, artifact: Option<string>, sha: string -> string, utf8: string -> bool)
    requires DispatchAgrees(plan, artifact, sha, utf8) && IsWeb(plan)
    ensures var routes := OrEmpty(plan.routes);
            plan.nativeNoJs == Some(|set i: nat | i < |routes| && routes[i].executionKind != Some("v8-handler")|)
  {
    var routes := OrEmpty(plan.routes);
    NativeCountIsSize(routes);
    forall i: nat | i < |routes|
      ensures IsNative(routes[i]) <==> routes[i].executionKind != Some("v8-handler")
    {
      assert RouteDispatches(routes[i]);
    }
    assert NativeIds(routes) == set i: nat | i < |routes| && routes[i].executionKind != Some("v8-handler");
  }

  /** Its effects and its completeness. */
  lemma SilentEffects(plan: PlanJson, i: nat, k: nat)
    requires EffectsResolve(plan) && i < |OrEmpty(plan.routes)| && k < |OrEmpty(OrEmpty(plan.routes)[i].effects)|
    ensures var route, capabilities := OrEmpty(plan.routes)[i], OrEmpty(plan.capabilities);
            || Some("missing-provider") in OrEmpty(route.reasons)
            || exists m :: 0 <= m < |capabilities| && Declares(capabilities[m], OrEmpty(route.effects)[k])
  {
    var route, capabilities := OrEmpty(plan.routes)[i], OrEmpty(plan.capabilities);
    var effect := OrEmpty(route.effects)[k];
    assert EffectsDeclared(route, Pairs(capabilities));
    assert EffectDeclared(effect, route, Pairs(capabilities));
    if (OrBlank(effect.provider), OrBlank(effect.capabilityKind)) in Pairs(capabilities) {
      var m :| 0 <= m < |capabilities| && capabilities[m].token.Some? && capabilities[m].kind.Some?
               && (capabilities[m].token.value, capabilities[m].kind.value)
                  == (OrBlank(effect.provider), OrBlank(effect.capabilityKind));
      assert Declares(capabilities[m], effect);
    }
  }

  lemma SilentCompleteness(plan: PlanJson, i: nat)
    requires PlanHonest(plan) && i < |OrEmpty(plan.routes)|
    ensures var route := OrEmpty(plan.routes)[i];
            && (OrEmpty(route.reasons) == [] ==> route.status == Some("complete"))
            && (route.responsePartial == Some(true) ==> Some("response-metadata-partial") in OrEmpty(route.reasons))
  {
    assert RouteHonest(OrEmpty(plan.routes)[i]);
  }

  /** A binary table agrees with one list of routes: methods, patterns, handlers and kinds are all pinned. */
  lemma ArtifactPinsRoutes(a: PlanJson, b: PlanJson, bytes: string, sha: string -> string, utf8: string -> bool)
    requires DispatchAgrees(a, Some(bytes), sha, utf8) && DispatchAgrees(b, Some(bytes), sha, utf8)
    ensures a.artifactHash == b.artifactHash && |OrEmpty(a.routes)| == |OrEmpty(b.routes)|
    ensures forall i :: 0 <= i < |OrEmpty(a.routes)| ==>
              var x, y := OrEmpty(a.routes)[i], OrEmpty(b.routes)[i];
              && x.verb == y.verb && x.pattern == y.pattern && x.handlerId == y.handlerId
              && x.executionKind == y.executionKind
  {
    var entries :| ReadsAs(bytes, utf8, entries) && EntriesAgree(entries, OrEmpty(a.routes));
    var others :| ReadsAs(bytes, utf8, others) && EntriesAgree(others, OrEmpty(b.routes));
    ReadsAsOne(bytes, utf8, entries);
    forall i | 0 <= i < |OrEmpty(a.routes)|
      ensures EntryAgrees(entries[i], OrEmpty(a.routes)[i]) && EntryAgrees(entries[i], OrEmpty(b.routes)[i])
    {
    }
  }
}
