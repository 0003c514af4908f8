/**
 The dependency graph the compiler grows while it follows imports (compiler/src/sloppyc.rs,
 ModuleGraph; compiler/src/graph.rs, DependencyGraph).

 `Step` is one update on values; the class does the same in place.  The results are about
 every run: nothing recorded is lost or overwritten that must not be, and the two import lists
 of a module keep saying the same thing.
*/
module ModuleGraph {
  import Runs
  import opened Prelude
  import opened Permutations

  datatype Format = Esm | CommonJs | OtherFormat

  datatype Import = Import(specifier: string, resolvedId: string, kind: string)

  datatype DynamicImport = DynamicImport(specifier: Option<string>, resolvedId: Option<string>, kind: string)

  datatype Module = Module(
    id: string, source: string, format: Format, package: Option<string>,
    imports: seq<string>, resolved: seq<Import>, dynamic: seq<DynamicImport>, includedBy: Option<string>)

  datatype Package = Package(name: string, root: string, entry: string)

  datatype Builtin = Builtin(specifier: string, status: string, capability: Option<string>)

  datatype Asset = Asset(path: string, includedBy: string)

  datatype Graph = Graph(
    packages: seq<Package>, modules: seq<Module>, assets: seq<Asset>,
    builtins: seq<Builtin>, findings: seq<string>, runtimes: set<string>)

  // ----- updates on values -----

  function IndexOf(modules: seq<Module>, id: string): (k: nat)
    ensures k <= |modules|
    ensures k < |modules| ==> modules[k].id == id
    ensures forall i :: 0 <= i < k ==> modules[i].id != id
  {
    if modules == [] || modules[0].id == id then 0 else 1 + IndexOf(modules[1..], id)
  }

  function Touch(m: Module, source: string, format: Format, package: Option<string>,
      includedBy: Option<string>): Module {
    m.(source := source, format := format,
       package := if package.Some? || m.package.None? then package else m.package,
       includedBy := if m.includedBy.None? then includedBy else m.includedBy)
  }

  function AddModule(modules: seq<Module>, id: string, source: string, format: Format, package: Option<string>,
      includedBy: Option<string>): seq<Module> {
    var k := IndexOf(modules, id);
    if k < |modules| then modules[k := Touch(modules[k], source, format, package, includedBy)]
    else modules + [Module(id, source, format, package, [], [], [], includedBy)]
  }

  function AddSource(modules: seq<Module>, id: string, package: Option<string>,
      includedBy: Option<string>): seq<Module> {
    AddModule(modules, id, id, Esm, package, includedBy)
  }

  function Ensure(modules: seq<Module>, id: string): (r: seq<Module>)
    ensures IndexOf(r, id) < |r|
  {
    if IndexOf(modules, id) < |modules| then modules
    else
      var r := AddSource(modules, id, None, None);
      assert r[|modules|].id == id;
      r
  }

  function Push<T(==)>(values: seq<T>, value: T): seq<T> {
    if value in values then values else values + [value]
  }

  function Link(m: Module, i: Import): Module {
    m.(imports := Push(m.imports, i.specifier), resolved := Push(m.resolved, i))
  }

  function AddImport(modules: seq<Module>, from: string, i: Import): seq<Module> {
    var ms := Ensure(modules, from);
    var k := IndexOf(ms, from);
    ms[k := Link(ms[k], i)]
  }

  function AddDynamic(modules: seq<Module>, from: string, d: DynamicImport): seq<Module> {
    var ms := Ensure(modules, from);
    var k := IndexOf(ms, from);
    ms[k := ms[k].(dynamic := ms[k].dynamic + [d])]
  }

  function AddRelative(modules: seq<Module>, from: string, specifier: string, to: string): seq<Module> {
    AddImport(AddSource(AddSource(modules, from, None, None), to, None, Some(from)), from,
        Import(specifier, to, "relative"))
  }

  function AddPackageImport(modules: seq<Module>, from: string, specifier: string, packageId: string): seq<Module> {
    AddImport(AddSource(modules, from, None, None), from, Import(specifier, packageId, "package"))
  }

  predicate HasPackage(packages: seq<Package>, name: string, root: string) {
    exists i :: 0 <= i < |packages| && packages[i].name == name && packages[i].root == root
  }

  predicate HasBuiltin(builtins: seq<Builtin>, specifier: string) {
    exists i :: 0 <= i < |builtins| && builtins[i].specifier == specifier
  }

  function AddPackage(packages: seq<Package>, p: Package): seq<Package> {
    if HasPackage(packages, p.name, p.root) then packages else packages + [p]
  }

  function AddBuiltin(builtins: seq<Builtin>, b: Builtin): seq<Builtin> {
    if HasBuiltin(builtins, b.specifier) then builtins else builtins + [b]
  }

  /** The runtime features a builtin's capability switches on. */
  function RuntimesOf(capability: Option<string>): set<string> {
    if capability.None? then {}
    else if capability.value == "redis" then {"redis", "net"}
    else if capability.value in ["fs", "time", "cache", "net", "os", "crypto", "codec"] then {capability.value}
    else {}
  }

  datatype Command =
    | PackageFound(package: Package)
    | BuiltinUsed(builtin: Builtin)
    | ModuleSeen(id: string, source: string, format: Format, owner: Option<string>, includedBy: Option<string>)
    | RelativeImport(from: string, specifier: string, to: string)
    | PackageImport(from: string, specifier: string, packageId: string)
    | OtherImport(from: string, link: Import)
    | Dynamic(from: string, dynamic: DynamicImport)
    | AssetFound(asset: Asset)

  function Step(g: Graph, c: Command): Graph {
    match c
    case PackageFound(p) => g.(packages := AddPackage(g.packages, p))
    case BuiltinUsed(b) =>
      g.(builtins := AddBuiltin(g.builtins, b), runtimes := g.runtimes + RuntimesOf(b.capability),
         findings := if b.status == "unsupported" then g.findings + [b.specifier] else g.findings)
    case ModuleSeen(id, source, format, owner, includedBy) =>
      g.(modules := AddModule(g.modules, id, source, format, owner, includedBy))
    case RelativeImport(from, specifier, to) => g.(modules := AddRelative(g.modules, from, specifier, to))
    case PackageImport(from, specifier, packageId) =>
      g.(modules := AddPackageImport(g.modules, from, specifier, packageId))
    case OtherImport(from, link) => g.(modules := AddImport(g.modules, from, link))
    case Dynamic(from, dynamic) => g.(modules := AddDynamic(g.modules, from, dynamic))
    case AssetFound(asset) => g.(assets := Push(g.assets, asset))
  }

  function Run(g: Graph, cs: seq<Command>): Graph {
    Runs.After(Step, g, cs)
  }

  // ----- what every run keeps -----

  /** The specifiers of the resolved imports, once each, in the order first seen. */
  function Specifiers(resolved: seq<Import>): seq<string> {
    if resolved == [] then [] else Push(Specifiers(resolved[..|resolved| - 1]), resolved[|resolved| - 1].specifier)
  }

  predicate ModuleOk(m: Module) {
    Distinct(m.resolved) && m.imports == Specifiers(m.resolved)
  }

  predicate UniqueIds(modules: seq<Module>) {
    forall i, j :: 0 <= i < j < |modules| ==> modules[i].id != modules[j].id
  }

  predicate ModulesOk(modules: seq<Module>) {
    UniqueIds(modules) && forall i :: 0 <= i < |modules| ==> ModuleOk(modules[i])
  }

  predicate GraphOk(g: Graph) {
    && ModulesOk(g.modules)
    && (forall i, j :: 0 <= i < j < |g.packages| ==>
          g.packages[i].name != g.packages[j].name || g.packages[i].root != g.packages[j].root)
    && (forall i, j :: 0 <= i < j < |g.builtins| ==> g.builtins[i].specifier != g.builtins[j].specifier)
    && Distinct(g.assets)
  }

  lemma {:induction false} SpecifierIsListed(resolved: seq<Import>, i: nat)
    requires i < |resolved|
    ensures resolved[i].specifier in Specifiers(resolved)
  {
    if i < |resolved| - 1 {
      SpecifierIsListed(resolved[..|resolved| - 1], i);
    }
  }

  lemma {:induction false} SpecifiersAreDistinct(resolved: seq<Import>)
    ensures Distinct(Specifiers(resolved))
  {
    if resolved != [] {
      SpecifiersAreDistinct(resolved[..|resolved| - 1]);
    }
  }

  /** One new link keeps the two lists in step, whether specifier, target or neither is new. */
  lemma LinkKeeps(m: Module, i: Import)
    requires ModuleOk(m)
    ensures ModuleOk(Link(m, i))
  {
    if i in m.resolved {
      var k :| 0 <= k < |m.resolved| && m.resolved[k] == i;
      SpecifierIsListed(m.resolved, k);
    } else {
      assert (m.resolved + [i])[..|m.resolved|] == m.resolved;
    }
  }

  lemma AddModuleKeeps(modules: seq<Module>, id: string, source: string, format: Format, package: Option<string>,
      includedBy: Option<string>)
    requires ModulesOk(modules)
    ensures ModulesOk(AddModule(modules, id, source, format, package, includedBy))
  {
    var k := IndexOf(modules, id);
    if k == |modules| {
      assert ModuleOk(Module(id, source, format, package, [], [], [], includedBy));
    }
  }

  lemma EnsureKeeps(modules: seq<Module>, id: string)
    requires ModulesOk(modules)
    ensures ModulesOk(Ensure(modules, id))
  {
    AddModuleKeeps(modules, id, id, Esm, None, None);
  }

  lemma AddImportKeeps(modules: seq<Module>, from: string, i: Import)
    requires ModulesOk(modules)
    ensures ModulesOk(AddImport(modules, from, i))
  {
    EnsureKeeps(modules, from);
    var ms := Ensure(modules, from);
    LinkKeeps(ms[IndexOf(ms, from)], i);
  }

  lemma StepKeepsModules(g: Graph, c: Command)
    requires ModulesOk(g.modules)
    ensures ModulesOk(Step(g, c).modules)
  {
    match c {
      case ModuleSeen(id, source, format, owner, includedBy) =>
        AddModuleKeeps(g.modules, id, source, format, owner, includedBy);
      case RelativeImport(from, specifier, to) =>
        AddModuleKeeps(g.modules, from, from, Esm, None, None);
        var ms := AddSource(g.modules, from, None, None);
        AddModuleKeeps(ms, to, to, Esm, None, Some(from));
        AddImportKeeps(AddSource(ms, to, None, Some(from)), from, Import(specifier, to, "relative"));
      case PackageImport(from, specifier, packageId) =>
        AddModuleKeeps(g.modules, from, from, Esm, None, None);
        AddImportKeeps(AddSource(g.modules, from, None, None), from, Import(specifier, packageId, "package"));
      case OtherImport(from, link) =>
        AddImportKeeps(g.modules, from, link);
      case Dynamic(from, dynamic) =>
        EnsureKeeps(g.modules, from);
      case _ =>
    }
  }

  lemma StepKeeps(g: Graph, c: Command)
    requires GraphOk(g)
    ensures GraphOk(Step(g, c))
  {
    StepKeepsModules(g, c);
  }

  /** Every reachable graph: ids unique, records unique, imports in step with resolved imports. */
  lemma {:induction false} RunKeeps(g: Graph, cs: seq<Command>)
    requires GraphOk(g)
    ensures GraphOk(Run(g, cs))
  {
    if cs != [] {
      RunKeeps(g, cs[..|cs| - 1]);
      StepKeeps(Run(g, cs[..|cs| - 1]), cs[|cs| - 1]);
    }
  }

  // ----- nothing recorded is lost -----

  predicate ModuleExtends(a: Module, b: Module) {
    && b.id == a.id && a.imports <= b.imports && a.resolved <= b.resolved && a.dynamic <= b.dynamic
    && (a.package.Some? ==> b.package.Some?)
    && (a.includedBy.Some? ==> b.includedBy == a.includedBy)
  }

  /** Modules keep their places; a package once known stays known; the first includer stays. */
  predicate ModulesExtend(a: seq<Module>, b: seq<Module>) {
    |a| <= |b| && forall i :: 0 <= i < |a| ==> ModuleExtends(a[i], b[i])
  }

  predicate Extends(a: Graph, b: Graph) {
    && ModulesExtend(a.modules, b.modules)
    && a.packages <= b.packages && a.builtins <= b.builtins && a.assets <= b.assets
    && a.findings <= b.findings && a.runtimes <= b.runtimes
  }

  lemma ModulesExtendTransitive(a: seq<Module>, b: seq<Module>, c: seq<Module>)
    requires ModulesExtend(a, b) && ModulesExtend(b, c)
    ensures ModulesExtend(a, c)
  {
    forall i | 0 <= i < |a|
      ensures ModuleExtends(a[i], c[i])
    {
      assert ModuleExtends(a[i], b[i]) && ModuleExtends(b[i], c[i]);
    }
  }

  lemma AddModuleExtends(modules: seq<Module>, id: string, source: string, format: Format, package: Option<string>,
      includedBy: Option<string>)
    ensures ModulesExtend(modules, AddModule(modules, id, source, format, package, includedBy))
  {
  }

  lemma AddImportExtends(modules: seq<Module>, from: string, i: Import)
    ensures ModulesExtend(modules, AddImport(modules, from, i))
  {
    var ms := Ensure(modules, from);
    assert ModulesExtend(modules, ms);
    ModulesExtendTransitive(modules, ms, AddImport(modules, from, i));
  }

  lemma AddDynamicExtends(modules: seq<Module>, from: string, d: DynamicImport)
    ensures ModulesExtend(modules, AddDynamic(modules, from, d))
  {
    var ms := Ensure(modules, from);
    assert ModulesExtend(modules, ms);
    ModulesExtendTransitive(modules, ms, AddDynamic(modules, from, d));
  }

  lemma AddRelativeExtends(modules: seq<Module>, from: string, specifier: string, to: string)
    ensures ModulesExtend(modules, AddRelative(modules, from, specifier, to))
  {
    var a := AddSource(modules, from, None, None);
    var b := AddSource(a, to, None, Some(from));
    AddModuleExtends(modules, from, from, Esm, None, None);
    AddModuleExtends(a, to, to, Esm, None, Some(from));
    AddImportExtends(b, from, Import(specifier, to, "relative"));
    ModulesExtendTransitive(modules, a, b);
    ModulesExtendTransitive(modules, b, AddRelative(modules, from, specifier, to));
  }

  lemma AddPackageImportExtends(modules: seq<Module>, from: string, specifier: string, packageId: string)
    ensures ModulesExtend(modules, AddPackageImport(modules, from, specifier, packageId))
  {
    var a := AddSource(modules, from, None, None);
    AddModuleExtends(modules, from, from, Esm, None, None);
    AddImportExtends(a, from, Import(specifier, packageId, "package"));
    ModulesExtendTransitive(modules, a, AddPackageImport(modules, from, specifier, packageId));
  }

  lemma StepExtends(g: Graph, c: Command)
    ensures Extends(g, Step(g, c))
  {
    match c {
      case ModuleSeen(id, source, format, owner, includedBy) =>
        AddModuleExtends(g.modules, id, source, format, owner, includedBy);
      case RelativeImport(from, specifier, to) => AddRelativeExtends(g.modules, from, specifier, to);
      case PackageImport(from, specifier, packageId) => AddPackageImportExtends(g.modules, from, specifier, packageId);
      case OtherImport(from, link) => AddImportExtends(g.modules, from, link);
      case Dynamic(from, dynamic) => AddDynamicExtends(g.modules, from, dynamic);
      case _ =>
    }
  }

  lemma ExtendsTransitive(a: Graph, b: Graph, c: Graph)
    requires Extends(a, b) && Extends(b, c)
    ensures Extends(a, c)
  {
    ModulesExtendTransitive(a.modules, b.modules, c.modules);
  }

  /** However a run goes on, what it had recorded stays. */
  lemma RunExtends(g: Graph, cs: seq<Command>, more: seq<Command>)
    ensures Extends(Run(g, cs), Run(g, cs + more))
  {
    forall x: Graph, c: Command
      ensures Extends(x, Step(x, c))
    {
      StepExtends(x, c);
    }
    forall x: Graph, y: Graph, z: Graph | Extends(x, y) && Extends(y, z)
      ensures Extends(x, z)
    {
      ExtendsTransitive(x, y, z);
    }
    Runs.AfterRelates(Step, Extends, g, cs, more);
  }

  // ----- both ends of an import -----

  predicate Knows(modules: seq<Module>, id: string) {
    exists i :: 0 <= i < |modules| && modules[i].id == id
  }

  predicate Linked(modules: seq<Module>, from: string, link: Import) {
    exists i :: 0 <= i < |modules| && modules[i].id == from && link in modules[i].resolved
  }

  lemma ExtendedKnows(a: seq<Module>, b: seq<Module>, id: string)
    requires ModulesExtend(a, b) && Knows(a, id)
    ensures Knows(b, id)
  {
    var i :| 0 <= i < |a| && a[i].id == id;
    assert ModuleExtends(a[i], b[i]);
  }

  lemma ExtendedLinked(a: seq<Module>, b: seq<Module>, from: string, link: Import)
    requires ModulesExtend(a, b) && Linked(a, from, link)
    ensures Linked(b, from, link)
  {
    var i :| 0 <= i < |a| && a[i].id == from && link in a[i].resolved;
    assert ModuleExtends(a[i], b[i]);
    assert link in b[i].resolved;
  }

  lemma AddModuleKnows(modules: seq<Module>, id: string, package: Option<string>, includedBy: Option<string>)
    ensures Knows(AddSource(modules, id, package, includedBy), id)
  {
    var k := IndexOf(modules, id);
    assert AddSource(modules, id, package, includedBy)[k].id == id;
  }

  lemma AddImportLinks(modules: seq<Module>, from: string, link: Import)
    ensures Linked(AddImport(modules, from, link), from, link)
  {
    var ms := Ensure(modules, from);
    var k := IndexOf(ms, from);
    var after := AddImport(modules, from, link);
    assert after[k].id == from && link in after[k].resolved;
  }

  lemma AddRelativeConnects(modules: seq<Module>, from: string, specifier: string, to: string)
    ensures var after := AddRelative(modules, from, specifier, to);
            Knows(after, from) && Knows(after, to) && Linked(after, from, Import(specifier, to, "relative"))
  {
    var a := AddSource(modules, from, None, None);
    var b := AddSource(a, to, None, Some(from));
    AddModuleKnows(a, to, None, Some(from));
    AddImportExtends(b, from, Import(specifier, to, "relative"));
    ExtendedKnows(b, AddRelative(modules, from, specifier, to), to);
    AddImportLinks(b, from, Import(specifier, to, "relative"));
  }

  lemma SplitRun(g: Graph, cs: seq<Command>, k: nat)
    requires k < |cs|
    ensures Run(g, cs[..k + 1]) == Step(Run(g, cs[..k]), cs[k])
    ensures cs == cs[..k + 1] + cs[k + 1..]
  {
    assert cs[..k + 1][..k] == cs[..k];
  }

  /** A relative import seen anywhere in a run leaves both modules and the link in the final graph. */
  lemma ImportsSurvive(g: Graph, cs: seq<Command>, k: nat)
    requires k < |cs| && cs[k].RelativeImport?
    ensures var end := Run(g, cs).modules;
            Knows(end, cs[k].from) && Knows(end, cs[k].to)
                && Linked(end, cs[k].from, Import(cs[k].specifier, cs[k].to, "relative"))
  {
    var c := cs[k];
    SplitRun(g, cs, k);
    AddRelativeConnects(Run(g, cs[..k]).modules, c.from, c.specifier, c.to);
    RunExtends(g, cs[..k + 1], cs[k + 1..]);
    var seen, end := Run(g, cs[..k + 1]).modules, Run(g, cs).modules;
    ExtendedKnows(seen, end, c.from);
    ExtendedKnows(seen, end, c.to);
    ExtendedLinked(seen, end, c.from, Import(c.specifier, c.to, "relative"));
  }

  // ----- what a graph holds after a run: exactly what was seen -----

  const EMPTY := Graph([], [], [], [], [], {})

  /** A package is known exactly when it was found, and nothing later changes its record. */
  lemma PackagesExactly(cs: seq<Command>, name: string, root: string)
    ensures HasPackage(Run(EMPTY, cs).packages, name, root) <==>
            exists k :: 0 <= k < |cs| && cs[k].PackageFound? && cs[k].package.name == name && cs[k].package.root == root
  {
    var has := (g: Graph) => HasPackage(g.packages, name, root);
    var brings := (c: Command) => c.PackageFound? && c.package.name == name && c.package.root == root;
    forall g: Graph, c: Command
      ensures has(Step(g, c)) <==> has(g) || brings(c)
    {
      StepPackages(g, c, name, root);
    }
    Runs.HoldsAfter(Step, EMPTY, cs, has, brings);
    assert forall k :: 0 <= k < |cs| ==> (brings(cs[k]) <==>
             cs[k].PackageFound? && cs[k].package.name == name && cs[k].package.root == root);
  }

  lemma StepPackages(g: Graph, c: Command, name: string, root: string)
    ensures HasPackage(Step(g, c).packages, name, root) <==>
            HasPackage(g.packages, name, root)
            || (c.PackageFound? && c.package.name == name && c.package.root == root)
  {
    if c.PackageFound? {
      var after := Step(g, c).packages;
      if i :| 0 <= i < |g.packages| && g.packages[i].name == name && g.packages[i].root == root {
        assert after[i] == g.packages[i];
      }
      if !HasPackage(g.packages, c.package.name, c.package.root) {
        assert after[|g.packages|] == c.package;
      }
    }
  }

  /** The feature is the capability of a builtin that has one of its own, or the network of `redis`. */
  predicate SwitchesOn(c: Command, feature: string) {
    && c.BuiltinUsed? && c.builtin.capability.Some?
    && var capability := c.builtin.capability.value;
       || (capability == feature && feature in ["fs", "time", "cache", "net", "os", "crypto", "codec", "redis"])
       || (capability == "redis" && feature == "net")
  }

  /** A runtime feature is on exactly when a builtin that was used switches it on. */
  lemma RuntimesExactly(cs: seq<Command>, feature: string)
    ensures feature in Run(EMPTY, cs).runtimes <==> exists k :: 0 <= k < |cs| && SwitchesOn(cs[k], feature)
  {
    var has := (g: Graph) => feature in g.runtimes;
    var brings := (c: Command) => SwitchesOn(c, feature);
    forall g: Graph, c: Command
      ensures has(Step(g, c)) <==> has(g) || brings(c)
    {
      if c.BuiltinUsed? {
        RuntimesOfExactly(c.builtin.capability, feature);
      }
    }
    Runs.HoldsAfter(Step, EMPTY, cs, has, brings);
    assert forall k :: 0 <= k < |cs| ==> (brings(cs[k]) <==> SwitchesOn(cs[k], feature));
  }

  lemma RuntimesOfExactly(capability: Option<string>, feature: string)
    ensures feature in RuntimesOf(capability) <==>
            && capability.Some?
            && (|| (capability.value == feature
                    && feature in ["fs", "time", "cache", "net", "os", "crypto", "codec", "redis"])
                || (capability.value == "redis" && feature == "net"))
  {
  }

  /** A builtin is known exactly when it was used. */
  lemma BuiltinsExactly(cs: seq<Command>, specifier: string)
    ensures HasBuiltin(Run(EMPTY, cs).builtins, specifier) <==>
            exists k :: 0 <= k < |cs| && cs[k].BuiltinUsed? && cs[k].builtin.specifier == specifier
  {
    var has := (g: Graph) => HasBuiltin(g.builtins, specifier);
    var brings := (c: Command) => c.BuiltinUsed? && c.builtin.specifier == specifier;
    forall g: Graph, c: Command
      ensures has(Step(g, c)) <==> has(g) || brings(c)
    {
      StepBuiltins(g, c, specifier);
    }
    Runs.HoldsAfter(Step, EMPTY, cs, has, brings);
    assert forall k :: 0 <= k < |cs| ==> (brings(cs[k]) <==>
             cs[k].BuiltinUsed? && cs[k].builtin.specifier == specifier);
  }

  lemma StepBuiltins(g: Graph, c: Command, specifier: string)
    ensures HasBuiltin(Step(g, c).builtins, specifier) <==>
            HasBuiltin(g.builtins, specifier) || (c.BuiltinUsed? && c.builtin.specifier == specifier)
  {
    if c.BuiltinUsed? {
      var after := Step(g, c).builtins;
      if i :| 0 <= i < |g.builtins| && g.builtins[i].specifier == specifier {
        assert after[i] == g.builtins[i];
      }
      if !HasBuiltin(g.builtins, c.builtin.specifier) {
        assert after[|g.builtins|] == c.builtin;
      }
    }
  }

  /** There is a finding exactly for the builtins that are not supported; an asset exactly if it was found. */
  lemma FindingsExactly(cs: seq<Command>, specifier: string)
    ensures specifier in Run(EMPTY, cs).findings <==>
            exists k :: 0 <= k < |cs| && cs[k].BuiltinUsed? && cs[k].builtin.specifier == specifier
                        && cs[k].builtin.status == "unsupported"
  {
    var has := (g: Graph) => specifier in g.findings;
    var brings :=
      (c: Command) => c.BuiltinUsed? && c.builtin.specifier == specifier && c.builtin.status == "unsupported";
    forall g: Graph, c: Command
      ensures has(Step(g, c)) <==> has(g) || brings(c)
    {
    }
    Runs.HoldsAfter(Step, EMPTY, cs, has, brings);
    assert forall k :: 0 <= k < |cs| ==> (brings(cs[k]) <==>
             cs[k].BuiltinUsed? && cs[k].builtin.specifier == specifier && cs[k].builtin.status == "unsupported");
  }

  lemma AssetsExactly(cs: seq<Command>, asset: Asset)
    ensures asset in Run(EMPTY, cs).assets <==> AssetFound(asset) in cs
  {
    var has := (g: Graph) => asset in g.assets;
    var brings := (c: Command) => c == AssetFound(asset);
    forall g: Graph, c: Command
      ensures has(Step(g, c)) <==> has(g) || brings(c)
    {
    }
    Runs.HoldsAfter(Step, EMPTY, cs, has, brings);
    assert forall k :: 0 <= k < |cs| ==> (brings(cs[k]) <==> cs[k] == AssetFound(asset));
  }

  // ----- links -----

  /** The command links `from` with this import. */
  predicate Links(c: Command, from: string, link: Import) {
    || c == OtherImport(from, link)
    || (c.RelativeImport? && c.from == from && link == Import(c.specifier, c.to, "relative"))
    || (c.PackageImport? && c.from == from && link == Import(c.specifier, c.packageId, "package"))
  }

  lemma AddModuleLinks(modules: seq<Module>, id: string, source: string, format: Format, package: Option<string>,
      includedBy: Option<string>, from: string, link: Import)
    ensures Linked(AddModule(modules, id, source, format, package, includedBy), from, link) <==>
            Linked(modules, from, link)
  {
    var after := AddModule(modules, id, source, format, package, includedBy);
    if i :| 0 <= i < |modules| && modules[i].id == from && link in modules[i].resolved {
      assert after[i].id == from && link in after[i].resolved;
    }
    if i :| 0 <= i < |after| && after[i].id == from && link in after[i].resolved {
      assert i < |modules| && modules[i].id == from && link in modules[i].resolved;
    }
  }

  lemma AddImportLinksExactly(modules: seq<Module>, source: string, added: Import, from: string, link: Import)
    ensures Linked(AddImport(modules, source, added), from, link) <==>
            Linked(modules, from, link) || (source == from && added == link)
  {
    var ms, after := Ensure(modules, source), AddImport(modules, source, added);
    AddModuleLinks(modules, source, source, Esm, None, None, from, link);
    var k := IndexOf(ms, source);
    if i :| 0 <= i < |ms| && ms[i].id == from && link in ms[i].resolved {
      assert after[i].id == from && link in after[i].resolved;
    }
    if i :| 0 <= i < |after| && after[i].id == from && link in after[i].resolved {
      assert i != k ==> after[i] == ms[i];
    }
    if source == from && added == link {
      assert after[k].id == from && link in after[k].resolved;
    }
  }

  lemma StepLinks(g: Graph, c: Command, from: string, link: Import)
    ensures Linked(Step(g, c).modules, from, link) <==> Linked(g.modules, from, link) || Links(c, from, link)
  {
    var ms := g.modules;
    match c
    case ModuleSeen(id, source, format, owner, includedBy) =>
      AddModuleLinks(ms, id, source, format, owner, includedBy, from, link);
    case RelativeImport(here, specifier, to) =>
      AddModuleLinks(ms, here, here, Esm, None, None, from, link);
      var a := AddSource(ms, here, None, None);
      AddModuleLinks(a, to, to, Esm, None, Some(here), from, link);
      AddImportLinksExactly(AddSource(a, to, None, Some(here)), here, Import(specifier, to, "relative"), from, link);
    case PackageImport(here, specifier, packageId) =>
      AddModuleLinks(ms, here, here, Esm, None, None, from, link);
      AddImportLinksExactly(AddSource(ms, here, None, None), here, Import(specifier, packageId, "package"), from, link);
    case OtherImport(here, other) => AddImportLinksExactly(ms, here, other, from, link);
    case Dynamic(here, dynamic) => AddDynamicLinks(ms, here, dynamic, from, link);
    case _ =>
  }

  lemma AddDynamicLinks(modules: seq<Module>, source: string, d: DynamicImport, from: string, link: Import)
    ensures Linked(AddDynamic(modules, source, d), from, link) <==> Linked(modules, from, link)
  {
    var ms, after := Ensure(modules, source), AddDynamic(modules, source, d);
    AddModuleLinks(modules, source, source, Esm, None, None, from, link);
    if i :| 0 <= i < |ms| && ms[i].id == from && link in ms[i].resolved {
      assert after[i].id == from && link in after[i].resolved;
    }
    if i :| 0 <= i < |after| && after[i].id == from && link in after[i].resolved {
      assert ms[i].id == from && link in ms[i].resolved;
    }
  }

  /** An import is resolved in the graph exactly when a command of the run says so. */
  lemma LinksExactly(cs: seq<Command>, from: string, link: Import)
    ensures Linked(Run(EMPTY, cs).modules, from, link) <==> exists k :: 0 <= k < |cs| && Links(cs[k], from, link)
  {
    var has := (g: Graph) => Linked(g.modules, from, link);
    var brings := (c: Command) => Links(c, from, link);
    forall g: Graph, c: Command
      ensures has(Step(g, c)) <==> has(g) || brings(c)
    {
      StepLinks(g, c, from, link);
    }
    Runs.HoldsAfter(Step, EMPTY, cs, has, brings);
    assert forall k :: 0 <= k < |cs| ==> (brings(cs[k]) <==> Links(cs[k], from, link));
  }

  /**
   A module seen again: its source and format are the latest, its package the latest that was
   given, its includer the first; its imports and all other modules stay.
  */
  lemma SeenAgain(g: Graph, id: string, source: string, format: Format, owner: Option<string>,
      includedBy: Option<string>, i: nat)
    requires UniqueIds(g.modules) && i < |g.modules|
    ensures var before, after := g.modules[i], Step(g, ModuleSeen(id, source, format, owner, includedBy)).modules;
            && |after| >= |g.modules|
            && (before.id != id ==> after[i] == before)
            && (before.id == id ==>
                  && |after| == |g.modules| && after[i].id == id
                  && after[i].source == source && after[i].format == format
                  && (owner.Some? ==> after[i].package == owner) && (owner.None? ==> after[i].package == before.package)
                  && (before.includedBy.Some? ==> after[i].includedBy == before.includedBy)
                  && (before.includedBy.None? ==> after[i].includedBy == includedBy)
                  && after[i].imports == before.imports && after[i].resolved == before.resolved
                  && after[i].dynamic == before.dynamic)
  {
    var k := IndexOf(g.modules, id);
    if g.modules[i].id == id {
      assert k == i;
    }
  }

  /** A module seen first is added at the end with what was said of it, and without imports. */
  lemma SeenFirst(g: Graph, id: string, source: string, format: Format, owner: Option<string>,
      includedBy: Option<string>)
    requires !Knows(g.modules, id)
    ensures Step(g, ModuleSeen(id, source, format, owner, includedBy)).modules
         == g.modules + [Module(id, source, format, owner, [], [], [], includedBy)]
  {
  }

  /** A relative import sees both modules as sources and then links them; a package import sees its own. */
  lemma ImportsAreSteps(g: Graph, from: string, specifier: string, to: string)
    ensures Step(g, RelativeImport(from, specifier, to))
         == Step(Step(Step(g, ModuleSeen(from, from, Esm, None, None)), ModuleSeen(to, to, Esm, None, Some(from))),
                 OtherImport(from, Import(specifier, to, "relative")))
    ensures Step(g, PackageImport(from, specifier, to))
         == Step(Step(g, ModuleSeen(from, from, Esm, None, None)), OtherImport(from, Import(specifier, to, "package")))
  {
  }

  /** An import of a module not yet seen sees it first, as a source. */
  lemma UnseenIsSeenFirst(g: Graph, from: string, link: Import, d: DynamicImport)
    requires !Knows(g.modules, from)
    ensures Step(g, OtherImport(from, link))
         == Step(Step(g, ModuleSeen(from, from, Esm, None, None)), OtherImport(from, link))
    ensures Step(g, Dynamic(from, d)) == Step(Step(g, ModuleSeen(from, from, Esm, None, None)), Dynamic(from, d))
  {
    var seen := AddSource(g.modules, from, None, None);
    assert seen[|g.modules|].id == from;
    assert IndexOf(seen, from) < |seen|;
  }

  // ----- dynamic imports -----

  /** The dynamic imports of a module that a run meets, in order. */
  function DynamicsOf(cs: seq<Command>, from: string): seq<DynamicImport> {
    if cs == [] then []
    else
      var last := cs[|cs| - 1];
      DynamicsOf(cs[..|cs| - 1], from) + if last.Dynamic? && last.from == from then [last.dynamic] else []
  }

  /** The dynamic imports recorded for a module; an unknown one has none. */
  function DynamicsAt(modules: seq<Module>, from: string): seq<DynamicImport> {
    var k := IndexOf(modules, from);
    if k < |modules| then modules[k].dynamic else []
  }

  lemma IndexStays(modules: seq<Module>, after: seq<Module>, id: string)
    requires |modules| <= |after| && forall i :: 0 <= i < |modules| ==> after[i].id == modules[i].id
    ensures IndexOf(modules, id) < |modules| ==> IndexOf(after, id) == IndexOf(modules, id)
  {
  }

  lemma AddModuleDynamics(modules: seq<Module>, id: string, source: string, format: Format, package: Option<string>,
      includedBy: Option<string>, from: string)
    ensures DynamicsAt(AddModule(modules, id, source, format, package, includedBy), from) == DynamicsAt(modules, from)
  {
    var after := AddModule(modules, id, source, format, package, includedBy);
    IndexStays(modules, after, from);
  }

  lemma AddImportDynamics(modules: seq<Module>, source: string, link: Import, from: string)
    ensures DynamicsAt(AddImport(modules, source, link), from) == DynamicsAt(modules, from)
  {
    AddModuleDynamics(modules, source, source, Esm, None, None, from);
    var ms := Ensure(modules, source);
    IndexStays(ms, AddImport(modules, source, link), from);
  }

  lemma AddDynamicDynamics(modules: seq<Module>, source: string, d: DynamicImport, from: string)
    ensures DynamicsAt(AddDynamic(modules, source, d), from)
         == DynamicsAt(modules, from) + if source == from then [d] else []
  {
    AddModuleDynamics(modules, source, source, Esm, None, None, from);
    var ms := Ensure(modules, source);
    IndexStays(ms, AddDynamic(modules, source, d), from);
    assert DynamicsAt(modules, from) + [] == DynamicsAt(modules, from);
  }

  lemma StepDynamics(g: Graph, c: Command, from: string)
    ensures DynamicsAt(Step(g, c).modules, from)
         == DynamicsAt(g.modules, from) + if c.Dynamic? && c.from == from then [c.dynamic] else []
  {
    var ms := g.modules;
    assert DynamicsAt(ms, from) + [] == DynamicsAt(ms, from);
    match c
    case ModuleSeen(id, source, format, owner, includedBy) =>
      AddModuleDynamics(ms, id, source, format, owner, includedBy, from);
    case RelativeImport(here, specifier, to) =>
      AddModuleDynamics(ms, here, here, Esm, None, None, from);
      var a := AddSource(ms, here, None, None);
      AddModuleDynamics(a, to, to, Esm, None, Some(here), from);
      AddImportDynamics(AddSource(a, to, None, Some(here)), here, Import(specifier, to, "relative"), from);
    case PackageImport(here, specifier, packageId) =>
      AddModuleDynamics(ms, here, here, Esm, None, None, from);
      AddImportDynamics(AddSource(ms, here, None, None), here, Import(specifier, packageId, "package"), from);
    case OtherImport(here, link) => AddImportDynamics(ms, here, link, from);
    case Dynamic(here, dynamic) => AddDynamicDynamics(ms, here, dynamic, from);
    case _ =>
  }

  /** The dynamic imports of a module are all those met, repetitions included, in order. */
  lemma {:induction false} DynamicsExactly(cs: seq<Command>, from: string)
    ensures DynamicsAt(Run(EMPTY, cs).modules, from) == DynamicsOf(cs, from)
  {
    if cs != [] {
      DynamicsExactly(cs[..|cs| - 1], from);
      StepDynamics(Run(EMPTY, cs[..|cs| - 1]), cs[|cs| - 1], from);
    }
  }

  // ----- the same in place -----

  /** ModuleGraph's dependency records; every method is one `Step`. */
  class Recorder {
    var packages: seq<Package>
    var modules: seq<Module>
    var assets: seq<Asset>
    var builtins: seq<Builtin>
    var findings: seq<string>
    var runtimes: set<string>

    ghost function State(): Graph
      reads this
    {
      Graph(packages, modules, assets, builtins, findings, runtimes)
    }

    constructor ()
      ensures State() == Graph([], [], [], [], [], {}) && GraphOk(State())
    {
      packages, modules, assets, builtins, findings, runtimes := [], [], [], [], [], {};
    }

    method Position(id: string) returns (k: nat)
      ensures k == IndexOf(modules, id)
    {
      k := 0;
      while k < |modules| && modules[k].id != id
        invariant k <= |modules| && forall i :: 0 <= i < k ==> modules[i].id != id
      {
        k := k + 1;
      }
    }

    method AddPackageRecord(p: Package)
      modifies this
      ensures State() == Step(old(State()), PackageFound(p))
    {
      for i := 0 to |packages|
        invariant State() == old(State())
        invariant forall k :: 0 <= k < i ==> packages[k].name != p.name || packages[k].root != p.root
      {
        if packages[i].name == p.name && packages[i].root == p.root {
          return;
        }
      }
      packages := packages + [p];
    }

    method AddNodeBuiltin(b: Builtin)
      modifies this
      ensures State() == Step(old(State()), BuiltinUsed(b))
    {
      if !HasBuiltin(builtins, b.specifier) {
        builtins := builtins + [b];
      }
      if b.capability.Some? {
        var capability := b.capability.value;
        if capability == "redis" {
          runtimes := runtimes + {"redis"};
          runtimes := runtimes + {"net"};
        } else if capability in ["fs", "time", "cache", "net", "os", "crypto", "codec"] {
          runtimes := runtimes + {capability};
        }
      }
      if b.status == "unsupported" {
        findings := findings + [b.specifier];
      }
    }

    method AddDependencyModule(id: string, source: string, format: Format, package: Option<string>,
        includedBy: Option<string>)
      modifies this
      ensures State() == Step(old(State()), ModuleSeen(id, source, format, package, includedBy))
    {
      var k := Position(id);
      if k < |modules| {
        var record := modules[k];
        record := record.(source := source, format := format);
        if package.Some? || record.package.None? {
          record := record.(package := package);
        }
        if record.includedBy.None? {
          record := record.(includedBy := includedBy);
        }
        modules := modules[k := record];
        return;
      }
      modules := modules + [Module(id, source, format, package, [], [], [], includedBy)];
    }

    method AddSourceDependencyModule(id: string, package: Option<string>, includedBy: Option<string>)
      modifies this
      ensures State() == old(State()).(modules := AddSource(old(modules), id, package, includedBy))
    {
      AddDependencyModule(id, id, Esm, package, includedBy);
    }

    method AddDependencyImport(from: string, link: Import)
      modifies this
      ensures State() == Step(old(State()), OtherImport(from, link))
    {
      var k := Position(from);
      if k == |modules| {
        AddSourceDependencyModule(from, None, None);
        k := Position(from);
      }
      assert modules == Ensure(old(modules), from);
      var record := modules[k];
      if link.specifier !in record.imports {
        record := record.(imports := record.imports + [link.specifier]);
      }
      if link !in record.resolved {
        record := record.(resolved := record.resolved + [link]);
      }
      modules := modules[k := record];
    }

    method AddRelativeDependencyImport(from: string, specifier: string, to: string)
      modifies this
      ensures State() == Step(old(State()), RelativeImport(from, specifier, to))
    {
      AddSourceDependencyModule(from, None, None);
      AddSourceDependencyModule(to, None, Some(from));
      AddDependencyImport(from, Import(specifier, to, "relative"));
    }

    method AddPackageDependencyImport(from: string, specifier: string, packageId: string)
      modifies this
      ensures State() == Step(old(State()), PackageImport(from, specifier, packageId))
    {
      AddSourceDependencyModule(from, None, None);
      AddDependencyImport(from, Import(specifier, packageId, "package"));
    }

    method AddDynamicImport(from: string, d: DynamicImport)
      modifies this
      ensures State() == Step(old(State()), Dynamic(from, d))
    {
      var k := Position(from);
      if k == |modules| {
        AddSourceDependencyModule(from, None, None);
        k := Position(from);
      }
      assert modules == Ensure(old(modules), from);
      modules := modules[k := modules[k].(dynamic := modules[k].dynamic + [d])];
    }

    method AddDependencyAsset(asset: Asset)
      modifies this
      ensures State() == Step(old(State()), AssetFound(asset))
    {
      if asset !in assets {
        assets := assets + [asset];
      }
    }
  }
}
