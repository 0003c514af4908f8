/**
 Compile-time evaluation of route strings (compiler/src/static_eval.rs), the bindings that
 declarations leave behind and the two passes over a file that read them
 (compiler/src/sloppyc.rs, extract_variable_declaration and extract_entry).

 The compiler binds the declarations of the whole file before it reads a route string; the
 program evaluates the string where the route stands.  In between it runs code that the compiler
 accepts without looking into it, and that code may assign every variable that is not `const`.
 `Certain` is what a reading in program order that forgets at such points would know, and decides
 exactly when the two agree.
*/
module StaticStrings {
  import opened Prelude

  /** `Inert` is a literal or a function, which runs nothing; `OtherExpression` may run anything. */
  datatype Expression =
    | StringLiteral(text: string)
    | Identifier(name: string)
    | Addition(left: Expression, right: Expression)
    | Parenthesized(inner: Expression)
    | Inert(tag: nat)
    | OtherExpression(tag: nat)

  type Env = map<string, string>

  /** eval_string_expression */
  function Static(e: Expression, env: Env): Option<string> {
    match e
    case StringLiteral(text) => Some(text)
    case Identifier(name) => if name in env then Some(env[name]) else None
    case Addition(left, right) =>
      var l, r := Static(left, env), Static(right, env);
      if l.Some? && r.Some? then Some(l.value + r.value) else None
    case Parenthesized(inner) => Static(inner, env)
    case _ => None
  }

  /** eval_string_argument: an argument in parentheses is not looked into. */
  function StaticArgument(e: Expression, env: Env): Option<string> {
    if e.Parenthesized? then None else Static(e, env)
  }

  // ----- what is read: literals and bound names, in order -----

  /** The operands of the additions, left to right, whatever the parentheses. */
  function Leaves(e: Expression): seq<Expression> {
    match e
    case Addition(left, right) => Leaves(left) + Leaves(right)
    case Parenthesized(inner) => Leaves(inner)
    case _ => [e]
  }

  predicate Readable(leaf: Expression, env: Env) {
    leaf.StringLiteral? || (leaf.Identifier? && leaf.name in env)
  }

  predicate AllReadable(leaves: seq<Expression>, env: Env) {
    forall i :: 0 <= i < |leaves| ==> Readable(leaves[i], env)
  }

  /** The text of a leaf that can be read. */
  function LeafText(leaf: Expression, env: Env): string {
    if leaf.StringLiteral? then leaf.text else if leaf.Identifier? && leaf.name in env then env[leaf.name] else ""
  }

  function Joined(leaves: seq<Expression>, env: Env): string {
    if leaves == [] then "" else LeafText(leaves[0], env) + Joined(leaves[1..], env)
  }

  lemma {:induction false} JoinedConcat(a: seq<Expression>, b: seq<Expression>, env: Env)
    ensures Joined(a + b, env) == Joined(a, env) + Joined(b, env)
    decreases |a|
  {
    if a == [] {
      assert a + b == b;
    } else {
      JoinedConcat(a[1..], b, env);
      assert (a + b)[0] == a[0] && (a + b)[1..] == a[1..] + b;
    }
  }

  lemma ReadableConcat(a: seq<Expression>, b: seq<Expression>, env: Env)
    ensures AllReadable(a + b, env) <==> AllReadable(a, env) && AllReadable(b, env)
  {
    assert forall i :: 0 <= i < |a| ==> (a + b)[i] == a[i];
    assert forall i :: 0 <= i < |b| ==> b[i] == (a + b)[|a| + i];
  }

  /** A string is found exactly when every leaf is a literal or a bound name, and is theirs joined. */
  lemma {:induction false} StaticExactly(e: Expression, env: Env)
    ensures Static(e, env) == if AllReadable(Leaves(e), env) then Some(Joined(Leaves(e), env)) else None
  {
    match e
    case Addition(left, right) =>
      StaticExactly(left, env);
      StaticExactly(right, env);
      ReadableConcat(Leaves(left), Leaves(right), env);
      JoinedConcat(Leaves(left), Leaves(right), env);
    case Parenthesized(inner) => StaticExactly(inner, env);
    case _ => LeafExactly(e, env);
  }

  lemma LeafExactly(e: Expression, env: Env)
    requires Leaves(e) == [e] && !e.Parenthesized?
    ensures AllReadable([e], env) <==> Readable(e, env)
    ensures Joined([e], env) == LeafText(e, env)
  {
    assert [e][0] == e && [e][1..] == [];
    assert LeafText(e, env) + "" == LeafText(e, env);
  }

  // ----- what the program does -----

  datatype Value = Str(text: string) | Unknown(tag: nat)

  type Variables = map<string, Value>

  datatype Outcome = Outcome(value: Value, vars: Variables)

  /**
   What code that is not looked into yields and does to the variables.  It may keep a count in a
   variable of its own, so running it twice need not do the same.
  */
  type World = (Expression, Variables) -> Outcome

  function Held<T>(m: map<string, T>, names: set<string>): map<string, T> {
    map name | name in m && name in names :: m[name]
  }

  /** Such code may assign and add variables, but not change the fixed ones. */
  function RunOther(e: Expression, vars: Variables, fixed: set<string>, world: World): Outcome {
    var o := world(e, vars);
    Outcome(o.value, vars + o.vars + Held(vars, fixed))
  }

  /**
   Evaluation, left to right.  A name that is not a variable may be a property with a getter, and
   an addition of anything but strings calls conversions: both are the world's.
  */
  function Run(e: Expression, vars: Variables, fixed: set<string>, world: World): Outcome {
    match e
    case StringLiteral(text) => Outcome(Str(text), vars)
    case Identifier(name) => if name in vars then Outcome(vars[name], vars) else RunOther(e, vars, fixed, world)
    case Addition(left, right) =>
      var l := Run(left, vars, fixed, world);
      var r := Run(right, l.vars, fixed, world);
      if l.value.Str? && r.value.Str? then Outcome(Str(l.value.text + r.value.text), r.vars)
      else RunOther(e, r.vars, fixed, world)
    case Parenthesized(inner) => Run(inner, vars, fixed, world)
    case Inert(_) => Outcome(world(e, vars).value, vars)
    case OtherExpression(_) => RunOther(e, vars, fixed, world)
  }

  lemma {:induction false} RunKeeps(e: Expression, vars: Variables, fixed: set<string>, world: World)
    ensures var after := Run(e, vars, fixed, world).vars;
            && vars.Keys <= after.Keys
            && forall name :: name in vars && name in fixed ==> after[name] == vars[name]
  {
    match e
    case Addition(left, right) =>
      RunKeeps(left, vars, fixed, world);
      RunKeeps(right, Run(left, vars, fixed, world).vars, fixed, world);
    case Parenthesized(inner) => RunKeeps(inner, vars, fixed, world);
    case _ =>
  }

  ghost predicate Agrees(env: Env, vars: Variables) {
    forall name :: name in env ==> name in vars && vars[name] == Str(env[name])
  }

  lemma {:induction false} StaticIsSound(e: Expression, env: Env, vars: Variables, fixed: set<string>, world: World)
    requires Agrees(env, vars) && Static(e, env).Some?
    ensures Run(e, vars, fixed, world) == Outcome(Str(Static(e, env).value), vars)
  {
    match e
    case Addition(left, right) =>
      StaticIsSound(left, env, vars, fixed, world);
      StaticIsSound(right, env, vars, fixed, world);
    case Parenthesized(inner) => StaticIsSound(inner, env, vars, fixed, world);
    case _ =>
  }

  lemma {:induction false} StaticIsMonotone(e: Expression, env: Env, more: Env)
    requires forall name :: name in env ==> name in more && more[name] == env[name]
    ensures Static(e, env).Some? ==> Static(e, more) == Static(e, env)
  {
    match e
    case Addition(left, right) =>
      StaticIsMonotone(left, env, more);
      StaticIsMonotone(right, env, more);
    case Parenthesized(inner) => StaticIsMonotone(inner, env, more);
    case _ =>
  }

  // ----- expressions that may run other code -----

  /** With the strings in `env` known and the names in `declared` variables. */
  predicate MayRun(e: Expression, env: Env, declared: set<string>) {
    match e
    case Identifier(name) => name !in declared
    case Addition(_, _) => Static(e, env).None?
    case Parenthesized(inner) => MayRun(inner, env, declared)
    case OtherExpression(_) => true
    case _ => false
  }

  lemma {:induction false} QuietChangesNothing(e: Expression, env: Env, vars: Variables, fixed: set<string>,
      declared: set<string>, world: World)
    requires Agrees(env, vars) && declared <= vars.Keys && !MayRun(e, env, declared)
    ensures Run(e, vars, fixed, world).vars == vars
  {
    match e
    case Addition(_, _) => StaticIsSound(e, env, vars, fixed, world);
    case Parenthesized(inner) => QuietChangesNothing(inner, env, vars, fixed, declared, world);
    case _ =>
  }

  lemma {:induction false} MayRunAntitone(e: Expression, env: Env, more: Env, declared: set<string>)
    requires forall name :: name in env ==> name in more && more[name] == env[name]
    ensures MayRun(e, more, declared) ==> MayRun(e, env, declared)
  {
    match e
    case Addition(_, _) => StaticIsMonotone(e, env, more);
    case Parenthesized(inner) => MayRunAntitone(inner, env, more, declared);
    case _ =>
  }

  /** A static expression over variables runs nothing else. */
  lemma {:induction false} StaticIsQuiet(e: Expression, env: Env, declared: set<string>)
    requires Static(e, env).Some? && forall name :: name in env ==> name in declared
    ensures !MayRun(e, env, declared)
  {
    match e
    case Parenthesized(inner) => StaticIsQuiet(inner, env, declared);
    case _ =>
  }

  // ----- a file -----

  datatype Binder = Const | Let | Var

  datatype Declaration = Declaration(binder: Binder, name: string, init: Option<Expression>)

  /**
   A declaration with several declarators is several statements.  `others` is what a route runs
   after its pattern: its other arguments and the registration.  `Other` is any other statement
   that runs: a conditional or a loop, a call that is no route, a class, an exported expression.
  */
  datatype Statement =
    | Declares(d: Declaration)
    | Route(pattern: Expression, others: Expression)
    | Other(code: Expression)

  function Declare(env: Env, d: Declaration): Env {
    if d.init.None? || Static(d.init.value, env).None? then env else env[d.name := Static(d.init.value, env).value]
  }

  /** The strings recorded for a file: the first pass looks at declarations only. */
  function Bindings(file: seq<Statement>): Env {
    if file == [] then map[]
    else
      var before, last := Bindings(file[..|file| - 1]), file[|file| - 1];
      if last.Declares? then Declare(before, last.d) else before
  }

  /** The names declared, and those whose last declaration is `const`. */
  function Declared(file: seq<Statement>): set<string> {
    if file == [] then {}
    else
      var before, last := Declared(file[..|file| - 1]), file[|file| - 1];
      if last.Declares? then before + {last.d.name} else before
  }

  function Fixed(file: seq<Statement>): set<string> {
    if file == [] then {}
    else
      var before, last := Fixed(file[..|file| - 1]), file[|file| - 1];
      if !last.Declares? then before
      else if last.d.binder.Const? then before + {last.d.name}
      else before - {last.d.name}
  }

  /** A bare `var` of a variable changes nothing; any other bare declaration leaves it undefined. */
  function Step(st: Statement, vars: Variables, fixed: set<string>, world: World): Variables {
    match st
    case Declares(d) =>
      if d.init.Some? then
        var o := Run(d.init.value, vars, fixed, world);
        o.vars[d.name := o.value]
      else if d.binder.Var? && d.name in vars then vars
      else vars[d.name := Unknown(0)]
    case Route(pattern, others) => Run(others, Run(pattern, vars, fixed, world).vars, fixed, world).vars
    case Other(code) => Run(code, vars, fixed, world).vars
  }

  /** The program's variables after the statements. */
  function Execute(file: seq<Statement>, world: World): Variables {
    if file == [] then map[]
    else
      var init := file[..|file| - 1];
      Step(file[|file| - 1], Execute(init, world), Fixed(init), world)
  }

  // ----- what is certain whatever else the program does -----

  /** After an expression: if it may run other code, only fixed names are still known. */
  function After(env: Env, e: Expression, fixed: set<string>, declared: set<string>): Env {
    if MayRun(e, env, declared) then Held(env, fixed) else env
  }

  /** A string is learned from a static initializer and forgotten at any other. */
  function Learn(env: Env, st: Statement, fixed: set<string>, declared: set<string>): Env {
    match st
    case Declares(d) =>
      if d.init.None? then (if d.binder.Var? then env else env - {d.name})
      else if Static(d.init.value, env).Some? then env[d.name := Static(d.init.value, env).value]
      else After(env, d.init.value, fixed, declared) - {d.name}
    case Route(pattern, others) => After(After(env, pattern, fixed, declared), others, fixed, declared)
    case Other(code) => After(env, code, fixed, declared)
  }

  function Certain(file: seq<Statement>): Env {
    if file == [] then map[]
    else
      var init := file[..|file| - 1];
      Learn(Certain(init), file[|file| - 1], Fixed(init), Declared(init))
  }

  lemma AfterAgrees(e: Expression, env: Env, vars: Variables, fixed: set<string>, declared: set<string>, world: World)
    requires Agrees(env, vars) && declared <= vars.Keys
    ensures var after := Run(e, vars, fixed, world).vars;
            Agrees(After(env, e, fixed, declared), after) && declared <= after.Keys
  {
    RunKeeps(e, vars, fixed, world);
    if !MayRun(e, env, declared) {
      QuietChangesNothing(e, env, vars, fixed, declared, world);
    }
  }

  lemma StepAgrees(st: Statement, env: Env, vars: Variables, fixed: set<string>, declared: set<string>, world: World)
    requires Agrees(env, vars) && declared <= vars.Keys
    ensures var after := Step(st, vars, fixed, world);
            && Agrees(Learn(env, st, fixed, declared), after) && declared <= after.Keys
            && (st.Declares? ==> st.d.name in after)
  {
    match st
    case Declares(d) =>
      if d.init.Some? {
        AfterAgrees(d.init.value, env, vars, fixed, declared, world);
        if Static(d.init.value, env).Some? {
          StaticIsSound(d.init.value, env, vars, fixed, world);
        }
      }
    case Route(pattern, others) =>
      AfterAgrees(pattern, env, vars, fixed, declared, world);
      AfterAgrees(others, After(env, pattern, fixed, declared), Run(pattern, vars, fixed, world).vars, fixed,
                  declared, world);
    case Other(code) => AfterAgrees(code, env, vars, fixed, declared, world);
  }

  lemma {:induction false} CertainAgrees(file: seq<Statement>, world: World)
    ensures Agrees(Certain(file), Execute(file, world)) && Declared(file) <= Execute(file, world).Keys
  {
    if file != [] {
      var init := file[..|file| - 1];
      CertainAgrees(init, world);
      StepAgrees(file[|file| - 1], Certain(init), Execute(init, world), Fixed(init), Declared(init), world);
    }
  }

  // ----- the worst world -----

  function Wiped(vars: Variables): Variables {
    map name | name in vars :: Unknown(0)
  }

  /** Nothing it yields is a string, and it leaves a string only where it may not touch it. */
  function Hostile(): World {
    (e, vars) => Outcome(Unknown(0), Wiped(vars))
  }

  ghost predicate Mirrors(env: Env, vars: Variables) {
    forall name :: name in vars && vars[name].Str? ==> name in env
  }

  lemma HostileWipes(e: Expression, env: Env, vars: Variables, fixed: set<string>)
    requires Mirrors(env, vars)
    ensures var o := RunOther(e, vars, fixed, Hostile());
            o.value == Unknown(0) && o.vars.Keys == vars.Keys && Mirrors(Held(env, fixed), o.vars)
  {
  }

  lemma {:induction false} HostileRun(e: Expression, env: Env, vars: Variables, fixed: set<string>,
      declared: set<string>)
    requires Mirrors(env, vars) && vars.Keys == declared
    ensures var o := Run(e, vars, fixed, Hostile());
            && o.vars.Keys == declared && Mirrors(After(env, e, fixed, declared), o.vars)
            && (o.value.Str? ==> Static(e, env).Some?)
  {
    match e
    case Addition(left, right) =>
      HostileRun(left, env, vars, fixed, declared);
      var l := Run(left, vars, fixed, Hostile());
      var env1 := After(env, left, fixed, declared);
      HostileRun(right, env1, l.vars, fixed, declared);
      StaticIsMonotone(right, env1, env);
      HostileWipes(e, env, Run(right, l.vars, fixed, Hostile()).vars, fixed);
    case Parenthesized(inner) => HostileRun(inner, env, vars, fixed, declared);
    case _ => HostileWipes(e, env, vars, fixed);
  }

  lemma HostileStep(st: Statement, env: Env, vars: Variables, fixed: set<string>, declared: set<string>)
    requires Mirrors(env, vars) && vars.Keys == declared
    ensures var after := Step(st, vars, fixed, Hostile());
            && Mirrors(Learn(env, st, fixed, declared), after)
            && after.Keys == if st.Declares? then declared + {st.d.name} else declared
  {
    match st
    case Declares(d) =>
      if d.init.Some? {
        HostileRun(d.init.value, env, vars, fixed, declared);
      }
    case Route(pattern, others) =>
      HostileRun(pattern, env, vars, fixed, declared);
      HostileRun(others, After(env, pattern, fixed, declared), Run(pattern, vars, fixed, Hostile()).vars, fixed,
                 declared);
    case Other(code) => HostileRun(code, env, vars, fixed, declared);
  }

  lemma {:induction false} HostileMirrors(file: seq<Statement>)
    ensures Mirrors(Certain(file), Execute(file, Hostile())) && Execute(file, Hostile()).Keys == Declared(file)
  {
    if file != [] {
      var init := file[..|file| - 1];
      HostileMirrors(init);
      HostileStep(file[|file| - 1], Certain(init), Execute(init, Hostile()), Fixed(init), Declared(init));
    }
  }

  /** Evaluated after the statements, an expression is the given string whatever the world does. */
  ghost predicate AlwaysIs(e: Expression, file: seq<Statement>, text: string) {
    forall world: World :: Run(e, Execute(file, world), Fixed(file), world).value == Str(text)
  }

  /** After the statements an expression is a given string in every world exactly when that is certain. */
  lemma CertainExactly(e: Expression, file: seq<Statement>, text: string)
    ensures AlwaysIs(e, file, text) <==> Static(e, Certain(file)) == Some(text)
  {
    var fixed, hostile := Fixed(file), Execute(file, Hostile());
    if Static(e, Certain(file)).Some? {
      forall world: World
        ensures Run(e, Execute(file, world), fixed, world).value == Str(Static(e, Certain(file)).value)
      {
        CertainAgrees(file, world);
        StaticIsSound(e, Certain(file), Execute(file, world), fixed, world);
      }
      assert Run(e, hostile, fixed, Hostile()).value == Str(Static(e, Certain(file)).value);
    } else {
      HostileMirrors(file);
      HostileRun(e, Certain(file), hostile, fixed, Declared(file));
      assert !Run(e, hostile, fixed, Hostile()).value.Str?;
    }
  }

  // ----- the recorded strings are the certain ones -----

  /** What is certain is recorded. */
  lemma {:induction false} CertainIsBound(file: seq<Statement>)
    ensures forall name :: name in Certain(file) ==>
              name in Bindings(file) && Bindings(file)[name] == Certain(file)[name]
  {
    if file != [] {
      var init, last := file[..|file| - 1], file[|file| - 1];
      CertainIsBound(init);
      if last.Declares? && last.d.init.Some? {
        StaticIsMonotone(last.d.init.value, Certain(init), Bindings(init));
      }
    }
  }

  lemma {:induction false} BoundIsDeclared(file: seq<Statement>, name: string)
    requires name in Bindings(file)
    ensures name in Declared(file)
  {
    if name in Bindings(file[..|file| - 1]) {
      BoundIsDeclared(file[..|file| - 1], name);
    }
  }

  /** A statement may run other code. */
  predicate Runs(st: Statement, env: Env, declared: set<string>) {
    match st
    case Declares(d) => d.init.Some? && MayRun(d.init.value, env, declared)
    case Route(pattern, others) => MayRun(pattern, env, declared) || MayRun(others, env, declared)
    case Other(code) => MayRun(code, env, declared)
  }

  /** A declaration that leaves the name's recorded string right: static, or `var` without a value. */
  predicate Renews(d: Declaration, env: Env) {
    if d.init.None? then d.binder.Var? else Static(d.init.value, env).Some?
  }

  /**
   Statement `i` runs other code only when all recorded names are `const`, and declares no recorded
   name with anything but a static initializer.
  */
  predicate Refreshes(file: seq<Statement>, i: nat)
    requires i < |file|
  {
    var before, env := file[..i], Bindings(file[..i]);
    && (Runs(file[i], env, Declared(before)) ==> forall name :: name in env ==> name in Fixed(before))
    && (file[i].Declares? && file[i].d.name in env ==> Renews(file[i].d, env))
  }

  predicate Fresh(file: seq<Statement>) {
    forall i :: 0 <= i < |file| ==> Refreshes(file, i)
  }

  lemma FreshPrefix(file: seq<Statement>, k: nat)
    requires k <= |file| && forall i :: 0 <= i < k ==> Refreshes(file, i)
    ensures Fresh(file[..k])
  {
    forall i | 0 <= i < k
      ensures Refreshes(file[..k], i)
    {
      assert file[..k][..i] == file[..i] && Refreshes(file, i);
    }
  }

  lemma HeldAll(env: Env, fixed: set<string>)
    requires forall name :: name in env ==> name in fixed
    ensures Held(env, fixed) == env
  {
  }

  /** As long as all statements refresh, all that is recorded is certain. */
  lemma {:induction false} FreshBindingsAreCertain(file: seq<Statement>)
    requires Fresh(file)
    ensures Bindings(file) == Certain(file)
  {
    if file != [] {
      var init, last := file[..|file| - 1], file[|file| - 1];
      FreshPrefix(file, |file| - 1);
      FreshBindingsAreCertain(init);
      assert Refreshes(file, |file| - 1);
      if Runs(last, Bindings(init), Declared(init)) {
        HeldAll(Bindings(init), Fixed(init));
      }
    }
  }

  /** A statement that does not refresh leaves an uncertain string recorded. */
  lemma StaleIsUncertain(file: seq<Statement>, i: nat) returns (name: string)
    requires i < |file| && !Refreshes(file, i)
    ensures name in Bindings(file[..i + 1]) && name !in Certain(file[..i + 1])
  {
    var before, st := file[..i], file[i];
    var env, certain := Bindings(before), Certain(before);
    assert file[..i + 1][..i] == before;
    CertainIsBound(before);
    RunsAntitone(st, certain, env, Declared(before));
    if st.Declares? && st.d.init.Some? {
      StaticIsMonotone(st.d.init.value, certain, env);
    }
    if st.Declares? && st.d.name in env && !Renews(st.d, env) {
      name := st.d.name;
    } else {
      StaticRunsNothing(before, st);
      name :| name in env && name !in Fixed(before);
      RunsForgets(st, certain, Fixed(before), Declared(before), name);
    }
  }

  lemma StaticRunsNothing(file: seq<Statement>, st: Statement)
    ensures st.Declares? && st.d.init.Some? && Static(st.d.init.value, Bindings(file)).Some? ==>
              !Runs(st, Bindings(file), Declared(file))
  {
    forall name | name in Bindings(file)
      ensures name in Declared(file)
    {
      BoundIsDeclared(file, name);
    }
    if st.Declares? && st.d.init.Some? && Static(st.d.init.value, Bindings(file)).Some? {
      StaticIsQuiet(st.d.init.value, Bindings(file), Declared(file));
    }
  }

  lemma RunsAntitone(st: Statement, env: Env, more: Env, declared: set<string>)
    requires forall name :: name in env ==> name in more && more[name] == env[name]
    ensures Runs(st, more, declared) ==> Runs(st, env, declared)
  {
    match st
    case Declares(d) =>
      if d.init.Some? {
        MayRunAntitone(d.init.value, env, more, declared);
      }
    case Route(pattern, others) =>
      MayRunAntitone(pattern, env, more, declared);
      MayRunAntitone(others, env, more, declared);
    case Other(code) => MayRunAntitone(code, env, more, declared);
  }

  /** A statement that runs other code and is no static declaration forgets what is not fixed. */
  lemma RunsForgets(st: Statement, env: Env, fixed: set<string>, declared: set<string>, name: string)
    requires Runs(st, env, declared) && !(st.Declares? && Renews(st.d, env)) && name !in fixed
    ensures name !in Learn(env, st, fixed, declared)
  {
    if st.Route? {
      MayRunAntitone(st.others, After(env, st.pattern, fixed, declared), env, declared);
    }
  }

  ghost predicate TrueThroughout(file: seq<Statement>) {
    forall k: nat, name :: k <= |file| && name in Bindings(file[..k]) ==>
      AlwaysIs(Identifier(name), file[..k], Bindings(file[..k])[name])
  }

  /** The recorded strings are right after every statement, whatever the world does, exactly when all refresh. */
  lemma TrueExactlyWhenFresh(file: seq<Statement>)
    ensures TrueThroughout(file) <==> Fresh(file)
  {
    if Fresh(file) {
      forall k: nat, name | k <= |file| && name in Bindings(file[..k])
        ensures AlwaysIs(Identifier(name), file[..k], Bindings(file[..k])[name])
      {
        FreshPrefix(file, k);
        FreshBindingsAreCertain(file[..k]);
        CertainExactly(Identifier(name), file[..k], Bindings(file[..k])[name]);
      }
    } else {
      var i :| 0 <= i < |file| && !Refreshes(file, i);
      var name := StaleIsUncertain(file, i);
      CertainExactly(Identifier(name), file[..i + 1], Bindings(file[..i + 1])[name]);
    }
  }

  // ----- routes -----

  /** What the compiler reads off one statement. */
  function Recorded(st: Statement, env: Env): Option<string> {
    if st.Route? then StaticArgument(st.pattern, env) else None
  }

  /** A route whose pattern is not in parentheses and has only literals and bound names for leaves. */
  predicate IsRead(st: Statement, env: Env) {
    && st.Route? && !st.pattern.Parenthesized?
    && forall i :: 0 <= i < |Leaves(st.pattern)| ==>
         var leaf := Leaves(st.pattern)[i]; leaf.StringLiteral? || (leaf.Identifier? && leaf.name in env)
  }

  lemma ReadExactly(file: seq<Statement>)
    ensures forall i :: 0 <= i < |file| ==>
              (Recorded(file[i], Bindings(file)).Some? <==> IsRead(file[i], Bindings(file)))
  {
    forall i | 0 <= i < |file| && file[i].Route?
      ensures Recorded(file[i], Bindings(file)).Some? <==> IsRead(file[i], Bindings(file))
    {
      StaticExactly(file[i].pattern, Bindings(file));
    }
  }

  /** The pattern of a route, not in parentheses, is the given string there whatever the world does. */
  ghost predicate IsCertain(file: seq<Statement>, i: nat, text: string) {
    && i < |file| && file[i].Route? && !file[i].pattern.Parenthesized?
    && AlwaysIs(file[i].pattern, file[..i], text)
  }

  /** With every name declared once, such a pattern is read as that string. */
  lemma CertainIsRead(file: seq<Statement>, i: nat, text: string)
    requires SingleAssignment(file) && IsCertain(file, i, text)
    ensures Recorded(file[i], Bindings(file)) == Some(text)
  {
    var e := file[i].pattern;
    CertainExactly(e, file[..i], text);
    CertainIsBound(file[..i]);
    StaticIsMonotone(e, Certain(file[..i]), Bindings(file[..i]));
    LaterStatementsChangeNothing(file, i, e);
  }

  /** The string recorded for a name is that of its last declaration with a static initializer. */
  lemma {:induction false} LastStaticDeclarationCounts(file: seq<Statement>, name: string, j: nat)
    requires DeclaresAt(file, j, name) && file[j].d.init.Some?
    requires Static(file[j].d.init.value, Bindings(file[..j])).Some?
    requires forall k :: j < k < |file| && DeclaresAt(file, k, name) && file[k].d.init.Some? ==>
               Static(file[k].d.init.value, Bindings(file[..k])).None?
    ensures name in Bindings(file)
    ensures Some(Bindings(file)[name]) == Static(file[j].d.init.value, Bindings(file[..j]))
  {
    var n := |file| - 1;
    if j < n {
      var init := file[..n];
      forall k | j < k < n && DeclaresAt(init, k, name) && init[k].d.init.Some?
        ensures Static(init[k].d.init.value, Bindings(init[..k])).None?
      {
        assert init[..k] == file[..k] && DeclaresAt(file, k, name);
      }
      assert init[..j] == file[..j];
      LastStaticDeclarationCounts(init, name, j);
      assert file[n].Declares? && file[n].d.name == name ==> DeclaresAt(file, n, name);
    }
  }

  /** A name without such a declaration is not bound. */
  lemma {:induction false} BoundByDeclaration(file: seq<Statement>, name: string) returns (j: nat)
    requires name in Bindings(file)
    ensures DeclaresAt(file, j, name) && file[j].d.init.Some?
    ensures Static(file[j].d.init.value, Bindings(file[..j])).Some?
  {
    var n := |file| - 1;
    var last := file[n];
    if DeclaresAt(file, n, name) && last.d.init.Some? && Static(last.d.init.value, Bindings(file[..n])).Some? {
      j := n;
    } else {
      j := BoundByDeclaration(file[..n], name);
      assert file[..n][..j] == file[..j];
    }
  }

  /** The first pass of extract_entry with the loop of extract_variable_declaration. */
  method BindAll(file: seq<Statement>) returns (env: Env)
    ensures env == Bindings(file)
  {
    env := map[];
    for i := 0 to |file|
      invariant env == Bindings(file[..i])
    {
      assert file[..i + 1][..i] == file[..i];
      if file[i].Declares? && file[i].d.init.Some? {
        var value := Static(file[i].d.init.value, env);
        if value.Some? {
          env := env[file[i].d.name := value.value];
        }
      }
    }
    assert file[..|file|] == file;
  }

  /** extract_entry: the first pass binds, the second reads the routes with the final bindings. */
  method ExtractRoutes(file: seq<Statement>) returns (patterns: seq<Option<string>>)
    ensures |patterns| == |file|
    ensures forall i :: 0 <= i < |file| ==> patterns[i] == Recorded(file[i], Bindings(file))
    ensures forall i :: 0 <= i < |file| ==> (patterns[i].Some? <==> IsRead(file[i], Bindings(file)))
    ensures SingleAssignment(file) ==>
            forall i: nat, text :: IsCertain(file, i, text) ==> patterns[i] == Some(text)
  {
    ReadExactly(file);
    forall i: nat, text | SingleAssignment(file) && IsCertain(file, i, text)
      ensures Recorded(file[i], Bindings(file)) == Some(text)
    {
      CertainIsRead(file, i, text);
    }
    var env := BindAll(file);
    patterns := [];
    for i := 0 to |file|
      invariant |patterns| == i
      invariant forall j :: 0 <= j < i ==> patterns[j] == Recorded(file[j], env)
    {
      patterns := patterns + [if file[i].Route? then StaticArgument(file[i].pattern, env) else None];
    }
  }

  /**
   The string recorded for a route is the one the program computes there, whatever the world does,
   exactly when a reading in program order that forgets would have recorded it too.
  */
  lemma RouteStringsExactly(file: seq<Statement>, i: nat, text: string)
    requires i < |file| && Recorded(file[i], Bindings(file)) == Some(text)
    ensures AlwaysIs(file[i].pattern, file[..i], text) <==> Recorded(file[i], Certain(file[..i])) == Some(text)
  {
    CertainExactly(file[i].pattern, file[..i], text);
  }

  predicate Mentions(e: Expression, name: string) {
    match e
    case Identifier(n) => n == name
    case Addition(left, right) => Mentions(left, name) || Mentions(right, name)
    case Parenthesized(inner) => Mentions(inner, name)
    case _ => false
  }

  lemma {:induction false} StaticDependsOnNames(e: Expression, env: Env, other: Env)
    requires forall name :: Mentions(e, name) && name in other ==> name in env && env[name] == other[name]
    requires forall name :: Mentions(e, name) && name in env ==> name in other
    ensures Static(e, env) == Static(e, other)
  {
    match e
    case Addition(left, right) =>
      StaticDependsOnNames(left, env, other);
      StaticDependsOnNames(right, env, other);
    case Parenthesized(inner) => StaticDependsOnNames(inner, env, other);
    case _ =>
  }

  lemma {:induction false} StaticNamesAreBound(e: Expression, env: Env, name: string)
    requires Static(e, env).Some? && Mentions(e, name)
    ensures name in env
  {
    match e
    case Addition(left, right) =>
      if Mentions(left, name) {
        StaticNamesAreBound(left, env, name);
      } else {
        StaticNamesAreBound(right, env, name);
      }
    case Parenthesized(inner) => StaticNamesAreBound(inner, env, name);
    case _ =>
  }

  /** A name has for certain, before a route, the string recorded in the whole file. */
  predicate Settled(before: seq<Statement>, file: seq<Statement>, name: string) {
    && name in Certain(before) && name in Bindings(file)
    && Certain(before)[name] == Bindings(file)[name]
  }

  /** Name by name: a route whose names are all settled is right. */
  lemma SettledNamesAreRight(file: seq<Statement>, i: nat, text: string)
    requires i < |file| && Recorded(file[i], Bindings(file)) == Some(text)
    requires forall name :: Mentions(file[i].pattern, name) ==> Settled(file[..i], file, name)
    ensures AlwaysIs(file[i].pattern, file[..i], text)
  {
    var e := file[i].pattern;
    assert forall name :: Mentions(e, name) ==> Settled(file[..i], file, name);
    StaticDependsOnNames(e, Certain(file[..i]), Bindings(file));
    RouteStringsExactly(file, i, text);
  }

  /** For a route that is one name, that is also necessary. */
  lemma NamedRouteExactly(file: seq<Statement>, i: nat, name: string)
    requires i < |file| && file[i].Route? && file[i].pattern == Identifier(name) && name in Bindings(file)
    ensures AlwaysIs(Identifier(name), file[..i], Bindings(file)[name]) <==> Settled(file[..i], file, name)
  {
    RouteStringsExactly(file, i, Bindings(file)[name]);
  }

  // ----- names declared once -----

  predicate SingleAssignment(file: seq<Statement>) {
    forall i, j :: 0 <= i < j < |file| && file[i].Declares? && file[j].Declares? ==> file[i].d.name != file[j].d.name
  }

  predicate DeclaresAt(file: seq<Statement>, j: nat, name: string) {
    j < |file| && file[j].Declares? && file[j].d.name == name
  }

  lemma {:induction false} DeclaredAt(file: seq<Statement>, name: string) returns (j: nat)
    requires name in Declared(file)
    ensures DeclaresAt(file, j, name)
  {
    var n := |file| - 1;
    if DeclaresAt(file, n, name) {
      j := n;
    } else {
      j := DeclaredAt(file[..n], name);
    }
  }

  lemma SinglePrefix(file: seq<Statement>, n: nat)
    requires SingleAssignment(file) && n <= |file|
    ensures SingleAssignment(file[..n])
  {
    assert forall i :: 0 <= i < n ==> file[..n][i] == file[i];
  }

  /** Later statements change no string already recorded. */
  lemma {:induction false} LaterKeepsName(file: seq<Statement>, n: nat, m: nat, name: string)
    requires SingleAssignment(file) && n <= m <= |file| && name in Bindings(file[..n])
    ensures name in Bindings(file[..m]) && Bindings(file[..m])[name] == Bindings(file[..n])[name]
    decreases m - n
  {
    if n < m {
      LaterKeepsName(file, n, m - 1, name);
      assert file[..m][..m - 1] == file[..m - 1];
      BoundIsDeclared(file[..m - 1], name);
      var j := DeclaredAt(file[..m - 1], name);
      assert DeclaresAt(file, j, name);
    }
  }

  /** Later declarations of new names change no string already read. */
  lemma LaterStatementsChangeNothing(file: seq<Statement>, n: nat, e: Expression)
    requires SingleAssignment(file) && n <= |file| && Static(e, Bindings(file[..n])).Some?
    ensures Static(e, Bindings(file)) == Static(e, Bindings(file[..n]))
  {
    assert file[..|file|] == file;
    forall name | name in Bindings(file[..n])
      ensures name in Bindings(file) && Bindings(file)[name] == Bindings(file[..n])[name]
    {
      LaterKeepsName(file, n, |file|, name);
    }
    StaticIsMonotone(e, Bindings(file[..n]), Bindings(file));
  }

  /** Statement `i` may run other code, given what is certain before it. */
  predicate RunsAt(file: seq<Statement>, i: nat)
    requires i < |file|
  {
    Runs(file[i], Certain(file[..i]), Declared(file[..i]))
  }

  /**
   Statement `j` declares the name with an initializer that is a certain string there, and the name
   is `const` or no statement between `j` and `i` may run other code.
  */
  predicate HoldsFrom(file: seq<Statement>, i: nat, name: string, j: nat)
    requires i <= |file|
  {
    && j < i && DeclaresAt(file, j, name) && file[j].d.init.Some?
    && Static(file[j].d.init.value, Certain(file[..j])).Some?
    && (file[j].d.binder.Const? || forall l :: j < l < i ==> !RunsAt(file, l))
  }

  predicate Holds(file: seq<Statement>, i: nat, name: string)
    requires i <= |file|
  {
    exists j :: 0 <= j < i && HoldsFrom(file, i, name, j)
  }

  lemma {:induction false} FixedAt(file: seq<Statement>, n: nat, name: string, j: nat)
    requires SingleAssignment(file) && j < n <= |file| && DeclaresAt(file, j, name)
    ensures name in Fixed(file[..n]) <==> file[j].d.binder.Const?
    decreases n
  {
    assert file[..n][..n - 1] == file[..n - 1];
    if j < n - 1 {
      FixedAt(file, n - 1, name, j);
      assert !DeclaresAt(file, n - 1, name);
    }
  }

  lemma LearnElsewhere(st: Statement, env: Env, fixed: set<string>, declared: set<string>, name: string)
    requires !(st.Declares? && st.d.name == name)
    requires st.Declares? && st.d.init.Some? && Static(st.d.init.value, env).Some? ==> !Runs(st, env, declared)
    ensures name in Learn(env, st, fixed, declared) <==>
              name in env && (name in fixed || !Runs(st, env, declared))
  {
    if st.Route? {
      MayRunAntitone(st.others, After(env, st.pattern, fixed, declared), env, declared);
    }
  }

  lemma CertainIsDeclared(file: seq<Statement>)
    ensures forall name :: name in Certain(file) ==> name in Declared(file)
  {
    CertainIsBound(file);
    forall name | name in Certain(file)
      ensures name in Declared(file)
    {
      BoundIsDeclared(file, name);
    }
  }

  /** One statement further, for a name it does not declare. */
  lemma CertainElsewhere(file: seq<Statement>, i: nat, name: string)
    requires i < |file| && !DeclaresAt(file, i, name)
    ensures name in Certain(file[..i + 1]) <==>
              name in Certain(file[..i]) && (name in Fixed(file[..i]) || !RunsAt(file, i))
  {
    var before, st := file[..i], file[i];
    assert file[..i + 1][..i] == before;
    CertainIsDeclared(before);
    if st.Declares? && st.d.init.Some? && Static(st.d.init.value, Certain(before)).Some? {
      StaticIsQuiet(st.d.init.value, Certain(before), Declared(before));
    }
    LearnElsewhere(st, Certain(before), Fixed(before), Declared(before), name);
  }

  lemma CertainHere(file: seq<Statement>, i: nat, name: string)
    requires SingleAssignment(file) && DeclaresAt(file, i, name)
    ensures name in Certain(file[..i + 1]) <==>
              file[i].d.init.Some? && Static(file[i].d.init.value, Certain(file[..i])).Some?
  {
    assert file[..i + 1][..i] == file[..i];
    CertainIsDeclared(file[..i]);
    NotDeclaredYet(file, i, name);
  }

  lemma NotDeclaredYet(file: seq<Statement>, i: nat, name: string)
    requires SingleAssignment(file) && DeclaresAt(file, i, name)
    ensures name !in Declared(file[..i])
  {
    if name in Declared(file[..i]) {
      var _ := DeclaredAt(file[..i], name);
    }
  }

  /** In a file that declares every name once, what is certain before statement `i`. */
  lemma {:induction false} HoldsExactly(file: seq<Statement>, i: nat, name: string)
    requires SingleAssignment(file) && i <= |file|
    ensures name in Certain(file[..i]) <==> Holds(file, i, name)
    decreases i
  {
    if i > 0 {
      HoldsExactly(file, i - 1, name);
      if DeclaresAt(file, i - 1, name) {
        CertainHere(file, i - 1, name);
        if name in Certain(file[..i]) {
          assert HoldsFrom(file, i, name, i - 1);
        }
        assert forall j :: 0 <= j < i && HoldsFrom(file, i, name, j) ==> j == i - 1;
      } else {
        CertainElsewhere(file, i - 1, name);
        HoldsStep(file, i - 1, name);
      }
    }
  }

  lemma HoldsStep(file: seq<Statement>, i: nat, name: string)
    requires SingleAssignment(file) && i < |file| && !DeclaresAt(file, i, name)
    ensures Holds(file, i + 1, name) <==> Holds(file, i, name) && (name in Fixed(file[..i]) || !RunsAt(file, i))
  {
    forall j | 0 <= j < i && DeclaresAt(file, j, name)
      ensures HoldsFrom(file, i + 1, name, j) <==>
                HoldsFrom(file, i, name, j) && (name in Fixed(file[..i]) || !RunsAt(file, i))
    {
      FixedAt(file, i, name, j);
    }
  }

  /**
   In a file that declares every name once, a route is right exactly when each of its names was
   declared before it as a certain string and is `const` or untouched since by other code.
  */
  lemma DeclaredOnceExactly(file: seq<Statement>, i: nat, text: string)
    requires SingleAssignment(file)
    requires i < |file| && Recorded(file[i], Bindings(file)) == Some(text)
    ensures AlwaysIs(file[i].pattern, file[..i], text)
            <==> forall name :: Mentions(file[i].pattern, name) ==> Holds(file, i, name)
  {
    var e := file[i].pattern;
    RouteStringsExactly(file, i, text);
    if forall name :: Mentions(e, name) ==> Holds(file, i, name) {
      HeldNamesAreRight(file, i, text);
    } else {
      var name :| Mentions(e, name) && !Holds(file, i, name);
      HoldsExactly(file, i, name);
      if Static(e, Certain(file[..i])).Some? {
        StaticNamesAreBound(e, Certain(file[..i]), name);
      }
    }
  }

  lemma HeldNamesAreRight(file: seq<Statement>, i: nat, text: string)
    requires SingleAssignment(file)
    requires i < |file| && Recorded(file[i], Bindings(file)) == Some(text)
    requires forall name :: Mentions(file[i].pattern, name) ==> Holds(file, i, name)
    ensures AlwaysIs(file[i].pattern, file[..i], text)
  {
    assert file[..|file|] == file;
    CertainIsBound(file[..i]);
    forall name | Mentions(file[i].pattern, name)
      ensures Settled(file[..i], file, name)
    {
      HoldsExactly(file, i, name);
      LaterKeepsName(file, i, |file|, name);
    }
    SettledNamesAreRight(file, i, text);
  }

  // ----- constants -----

  predicate OnlyConstants(file: seq<Statement>) {
    forall i :: 0 <= i < |file| && file[i].Declares? ==> file[i].d.binder.Const?
  }

  lemma {:induction false} ConstantsAreFixed(file: seq<Statement>)
    requires OnlyConstants(file)
    ensures Fixed(file) == Declared(file)
  {
    if file != [] {
      assert OnlyConstants(file[..|file| - 1]);
      ConstantsAreFixed(file[..|file| - 1]);
    }
  }

  lemma ConstantsAreFresh(file: seq<Statement>)
    requires SingleAssignment(file) && OnlyConstants(file)
    ensures Fresh(file)
  {
    forall i | 0 <= i < |file|
      ensures Refreshes(file, i)
    {
      var before := file[..i];
      assert OnlyConstants(before);
      ConstantsAreFixed(before);
      forall name | name in Bindings(before)
        ensures name in Fixed(before) && !DeclaresAt(file, i, name)
      {
        BoundIsDeclared(before, name);
        var j := DeclaredAt(before, name);
        assert DeclaresAt(file, j, name);
      }
    }
  }

  /** With `const` declared once only, other code does not matter: the names must be declared before the route. */
  lemma ConstantsExactly(file: seq<Statement>, i: nat, text: string)
    requires SingleAssignment(file) && OnlyConstants(file)
    requires i < |file| && Recorded(file[i], Bindings(file)) == Some(text)
    ensures AlwaysIs(file[i].pattern, file[..i], text)
            <==> forall name :: Mentions(file[i].pattern, name) ==> name in Bindings(file[..i])
  {
    var e, before := file[i].pattern, file[..i];
    SinglePrefix(file, i);
    ConstantsAreFresh(before);
    FreshBindingsAreCertain(before);
    RouteStringsExactly(file, i, text);
    assert file[..|file|] == file;
    if forall name :: Mentions(e, name) ==> name in Bindings(before) {
      forall name | Mentions(e, name)
        ensures Settled(before, file, name)
      {
        LaterKeepsName(file, i, |file|, name);
      }
      SettledNamesAreRight(file, i, text);
    } else {
      var name :| Mentions(e, name) && name !in Bindings(before);
      if Static(e, Certain(before)).Some? {
        StaticNamesAreBound(e, Certain(before), name);
      }
    }
  }

  // ----- where the two passes are wrong, and where they are not -----

  lemma Snoc(file: seq<Statement>, st: Statement)
    ensures Certain(file + [st]) == Learn(Certain(file), st, Fixed(file), Declared(file))
    ensures Bindings(file + [st]) == if st.Declares? then Declare(Bindings(file), st.d) else Bindings(file)
    ensures Declared(file + [st]) == if st.Declares? then Declared(file) + {st.d.name} else Declared(file)
  {
    assert (file + [st])[..|file|] == file;
  }

  lemma OneStatement(st: Statement)
    ensures Certain([st]) == Learn(map[], st, {}, {})
    ensures Bindings([st]) == if st.Declares? then Declare(map[], st.d) else map[]
    ensures Fixed([st]) == if st.Declares? && st.d.binder.Const? then {st.d.name} else {}
    ensures Declared([st]) == if st.Declares? then {st.d.name} else {}
  {
    assert [st][..0] == [];
  }

  lemma TwoStatements(st: Statement, next: Statement)
    ensures Certain([st, next]) == Learn(Certain([st]), next, Fixed([st]), Declared([st]))
    ensures Bindings([st, next]) == if next.Declares? then Declare(Bindings([st]), next.d) else Bindings([st])
  {
    Snoc([st], next);
    assert [st] + [next] == [st, next];
  }

  function DeclareText(binder: Binder, text: string): Statement {
    Declares(Declaration(binder, "p", Some(StringLiteral(text))))
  }

  const ROUTE := Route(Identifier("p"), Inert(0))

  /** Code that assigns a string to `p`, as `p = "/b"` does in any place. */
  function Assigning(text: string): World {
    (e, vars) => Outcome(Str(text), vars["p" := Str(text)])
  }

  /**
   Between the declaration of a name and a route that uses it stands code that is not looked into:
   an initializer, or a conditional.  A `let` may have another string at the route, a `const` not.
  */
  lemma CodeBeforeTheRoute(binder: Binder, between: Statement)
    requires || between == Declares(Declaration(Let, "q", Some(OtherExpression(7))))
             || between == Other(OtherExpression(7))
    ensures var file := [DeclareText(binder, "/a"), between, ROUTE];
            && SingleAssignment(file) && Recorded(file[2], Bindings(file)) == Some("/a")
            && (AlwaysIs(Identifier("p"), [DeclareText(binder, "/a"), between], "/a") <==> binder.Const?)
  {
    var st := DeclareText(binder, "/a");
    OneStatement(st);
    TwoStatements(st, between);
    Snoc([st, between], ROUTE);
    assert [st, between] + [ROUTE] == [st, between, ROUTE];
    CertainExactly(Identifier("p"), [st, between], "/a");
  }

  /** With `let p = "/a"; let q = (p = "/b");` the program has "/b" at the route. */
  lemma AssignedInAnInitializer()
    ensures var before := [DeclareText(Let, "/a"), Declares(Declaration(Let, "q", Some(OtherExpression(7))))];
            Run(Identifier("p"), Execute(before, Assigning("/b")), Fixed(before), Assigning("/b")).value == Str("/b")
  {
    var st, next := DeclareText(Let, "/a"), Declares(Declaration(Let, "q", Some(OtherExpression(7))));
    OneStatement(st);
    assert [st][..0] == [] && [st, next][..1] == [st];
    assert Execute([st], Assigning("/b")) == map["p" := Str("/a")];
    assert Execute([st, next], Assigning("/b"))["p"] == Str("/b");
  }

  /** Declared again with something else, a name keeps its old string in the compiler only. */
  lemma RedeclaredNamesGoStale()
    ensures var file := [DeclareText(Var, "/a"), Declares(Declaration(Var, "p", Some(Inert(0))))];
            !Fresh(file) && Bindings(file) == map["p" := "/a"] && !AlwaysIs(Identifier("p"), file, "/a")
  {
    var st, next := DeclareText(Var, "/a"), Declares(Declaration(Var, "p", Some(Inert(0))));
    OneStatement(st);
    TwoStatements(st, next);
    assert [st, next][..1] == [st] && !Refreshes([st, next], 1);
    CertainExactly(Identifier("p"), [st, next], "/a");
  }

  /** A bare redeclaration changes nothing, in the compiler or in the program. */
  lemma BareRedeclarationIsHarmless()
    ensures var file := [DeclareText(Var, "/a"), Declares(Declaration(Var, "p", None))];
            Fresh(file) && Bindings(file) == map["p" := "/a"] && AlwaysIs(Identifier("p"), file, "/a")
  {
    var st, next := DeclareText(Var, "/a"), Declares(Declaration(Var, "p", None));
    OneStatement(st);
    TwoStatements(st, next);
    assert [st, next][..1] == [st] && [st, next][..0] == [];
    CertainExactly(Identifier("p"), [st, next], "/a");
  }

  lemma ThreeStatements(a: Statement, b: Statement, c: Statement)
    ensures Bindings([a, b, c]) == if c.Declares? then Declare(Bindings([a, b]), c.d) else Bindings([a, b])
    ensures Refreshes([a], 0) && Refreshes([a, b], 1) && Refreshes([a, b, c], 2) ==> Fresh([a, b, c])
  {
    Snoc([a, b], c);
    var file := [a, b, c];
    assert [a, b] + [c] == file;
    assert file[..0] == [a][..0] == [] && file[..1] == [a, b][..1] == [a] && file[..2] == [a, b];
  }

  /** All statements refresh, yet a route between two declarations gets the string of the later one. */
  lemma RouteGetsALaterString()
    ensures var file := [DeclareText(Var, "/a"), ROUTE, DeclareText(Var, "/b")];
            && Fresh(file) && Recorded(file[1], Bindings(file)) == Some("/b")
            && AlwaysIs(Identifier("p"), [file[0]], "/a")
  {
    var st, last := DeclareText(Var, "/a"), DeclareText(Var, "/b");
    OneStatement(st);
    TwoStatements(st, ROUTE);
    Snoc([st], ROUTE);
    assert [st] + [ROUTE] == [st, ROUTE];
    ThreeStatements(st, ROUTE, last);
    assert [st][..0] == [] && [st, ROUTE][..1] == [st] && [st, ROUTE, last][..2] == [st, ROUTE];
    CertainExactly(Identifier("p"), [st], "/a");
  }

  /** Declared once, but after the route: the compiler has a string where the program has none. */
  lemma RouteBeforeItsDeclaration()
    ensures var file := [ROUTE, DeclareText(Const, "/a")];
            && SingleAssignment(file) && OnlyConstants(file)
            && Recorded(file[0], Bindings(file)) == Some("/a") && !AlwaysIs(Identifier("p"), [], "/a")
  {
    OneStatement(ROUTE);
    TwoStatements(ROUTE, DeclareText(Const, "/a"));
    CertainExactly(Identifier("p"), [], "/a");
  }
}
