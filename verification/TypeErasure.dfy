/**
 TypeScript erasure of a handler (compiler/src/framework_runtime.rs).

 The compiler walks the tree of a handler, collects the spans of the type syntax it has an
 arm for and edits the text.  The reference is the printed form of the tree with all its type
 syntax removed, and the condition is `Erasable`, which is about the tree alone.
*/
module TypeErasure {
  import opened Prelude
  import opened Permutations
  import opened SpanEdits
  import opened SyntaxTrees

  /** The static type through which the walk visits a child. */
  function RoleOf(slot: Slot): Role {
    match slot
    case Argument => AsArgument
    case Element => AsElement
    case ForInit => AsForInit
    case BodyStatement | ThenStatement | ElseStatement | LoopStatement | BlockStatement
      | TryStatement | CatchStatement | FinallyStatement => AsStatement
    case _ => AsExpression
  }

  /**
   The arm for a kind: its passes over the parts, each collecting the types and entering the
   children of the listed slots.  A kind without an arm has no pass.
  */
  function ExpressionArm(kind: Kind): seq<set<Slot>> {
    match kind
    case Call => [{TypeArguments}, {Callee}, {Argument}]
    case Await => [{Operand}]
    case Arrow => [{ParameterAnnotation}, {TypeParameters}, {ReturnType}, {BodyStatement}]
    case FunctionExpression => FunctionArm()
    case Binary | Logical => [{Left}, {Right}]
    case Conditional => [{Test}, {Consequent}, {Alternate}]
    case Object => [{PropertyValue}]
    case Array => [{Element}]
    case Parenthesized => [{Inner}]
    case StaticMember => [{Receiver}]
    case ComputedMember => [{Receiver}, {Index}]
    case Template => [{TemplateExpression}]
    case TaggedTemplate => [{TypeArguments}, {Tag}, {TemplateExpression}]
    case TsAs | TsSatisfies | TsNonNull => [{Suffix}, {Inner}]
    case _ => []
  }

  function FunctionArm(): seq<set<Slot>> {
    [{ParameterAnnotation}, {TypeParameters}, {ThisParameter}, {ReturnType}, {BodyStatement}]
  }

  function ArgumentArm(kind: Kind): seq<set<Slot>> {
    match kind
    case Binary | Logical | Conditional | Parenthesized => []
    case _ => ExpressionArm(kind)
  }

  function ElementArm(kind: Kind): seq<set<Slot>> {
    match kind
    case Await | StaticMember | ComputedMember => []
    case _ => ArgumentArm(kind)
  }

  function StatementArm(kind: Kind): seq<set<Slot>> {
    match kind
    case Block => [{BlockStatement}]
    case ExpressionStatement | Return | Throw => [{Operand}]
    case VariableDeclaration => [{DeclaratorAnnotation, Initializer}]
    case FunctionDeclaration => FunctionArm()
    case If => [{Test}, {ThenStatement}, {ElseStatement}]
    case For => [{ForInit}, {Test}, {Update}, {LoopStatement}]
    case While => [{Test}, {LoopStatement}]
    case Try => [{TryStatement}, {CatchStatement}, {FinallyStatement}]
    case _ => []
  }

  function Passes(role: Role, kind: Kind): seq<set<Slot>> {
    match role
    case AsExpression => ExpressionArm(kind)
    case AsArgument => ArgumentArm(kind)
    case AsElement => ElementArm(kind)
    case AsStatement => StatementArm(kind)
    case AsForInit => if kind.VariableDeclaration? then StatementArm(kind) else ExpressionArm(kind)
  }

  function Union<T>(passes: seq<set<T>>): set<T> {
    if passes == [] then {} else passes[0] + Union(passes[1..])
  }

  /** The slots whose types are erased and whose children are looked into, if the node itself is. */
  function Open(role: Option<Role>, kind: Kind): set<Slot> {
    if role.None? then {} else set slot: Slot | Handles(role.value, kind, slot)
  }

  /** How a child in `slot` is looked into, if it is. */
  function Reach(open: set<Slot>, slot: Slot): Option<Role> {
    if slot in open then Some(ChildRole(slot)) else None
  }

  // ----- the texts of a tree -----

  /** The source; the text without any type; what is left when the walk reaches by `role`. */
  datatype View = Source | Stripped | Walked(role: Option<Role>)

  function Visible(view: View, kind: Kind): set<Slot> {
    if view.Walked? then Open(view.role, kind) else {}
  }

  function Render(n: Node, view: View): string
    decreases n, 0
  {
    RenderParts(n.parts, view, Visible(view, n.kind))
  }

  function RenderParts(parts: seq<Part>, view: View, open: set<Slot>): string
    decreases parts, 1
  {
    if parts == [] then "" else RenderPart(parts[0], view, open) + RenderParts(parts[1..], view, open)
  }

  function RenderPart(p: Part, view: View, open: set<Slot>): string
    decreases p, 1
  {
    match p
    case Txt(text) => text
    case Typ(slot, t) => if view.Stripped? || slot in open then "" else t
    case Schema(name, replacement) => if view.Source? then name else replacement
    case Kid(slot, k) => Render(k, if view.Walked? then Walked(Reach(open, slot)) else view)
  }

  function Print(n: Node): string {
    Render(n, Source)
  }

  // ----- the edits of a tree, right to left -----

  /** Type erasures, schema replacements (which are listed apart), or both. */
  datatype Which = Types | Schemas | All

  function Edits(n: Node, at: nat, role: Option<Role>, which: Which): seq<Edit>
    decreases n, 0
  {
    PartsEdits(n.parts, at, Open(role, n.kind), which)
  }

  function PartsEdits(parts: seq<Part>, at: nat, open: set<Slot>, which: Which): seq<Edit>
    decreases parts, 1
  {
    if parts == [] then []
    else
      PartsEdits(parts[1..], at + |RenderPart(parts[0], Source, {})|, open, which)
      + PartEdits(parts[0], at, open, which)
  }

  function PartEdits(p: Part, at: nat, open: set<Slot>, which: Which): seq<Edit>
    decreases p, 1
  {
    match p
    case Txt(_) => []
    case Schema(name, replacement) => if which.Types? then [] else [Edit(Span(at, at + |name|), replacement)]
    case Typ(slot, t) => if slot in open && !which.Schemas? then [Edit(Span(at, at + |t|), "")] else []
    case Kid(slot, k) => Edits(k, at, Reach(open, slot), which)
  }

  // ----- the edits splice the source into what the walk leaves -----

  lemma {:induction false} EditsSplice(n: Node, at: nat, role: Option<Role>)
    ensures SplicesTo(Edits(n, at, role, All), at, Print(n), Render(n, Walked(role)))
    decreases n, 0
  {
    PartsEditsSplice(n.parts, at, role, Open(role, n.kind));
  }

  lemma {:induction false} PartsEditsSplice(parts: seq<Part>, at: nat, role: Option<Role>, open: set<Slot>)
    ensures SplicesTo(PartsEdits(parts, at, open, All), at, RenderParts(parts, Source, {}),
                      RenderParts(parts, Walked(role), open))
    decreases parts, 1
  {
    if parts != [] {
      var first := RenderPart(parts[0], Source, {});
      PartEditsSplice(parts[0], at, role, open);
      PartsEditsSplice(parts[1..], at + |first|, role, open);
      SplicesToAppend(PartEdits(parts[0], at, open, All), first, RenderPart(parts[0], Walked(role), open),
                      PartsEdits(parts[1..], at + |first|, open, All), RenderParts(parts[1..], Source, {}),
                      RenderParts(parts[1..], Walked(role), open), at);
    }
  }

  lemma {:induction false} PartEditsSplice(p: Part, at: nat, role: Option<Role>, open: set<Slot>)
    ensures SplicesTo(PartEdits(p, at, open, All), at, RenderPart(p, Source, {}), RenderPart(p, Walked(role), open))
    decreases p, 1
  {
    match p
    case Txt(s) => assert s[..|s|] == s;
    case Typ(_, t) => SplicesToText(t, at, ""); assert t[..|t|] == t;
    case Schema(name, replacement) => SplicesToText(name, at, replacement);
    case Kid(slot, k) => EditsSplice(k, at, Reach(open, slot));
  }

  // ----- when the walk leaves no type behind -----

  /** `left` is the stripped text, or is longer because a type is still in it. */
  predicate LeavesTypes(left: string, stripped: string, covered: bool) {
    if covered then left == stripped else |left| > |stripped|
  }

  /** The open slots are the handled ones. */
  ghost predicate Opens(open: set<Slot>, role: Role, kind: Kind) {
    forall slot :: slot in open <==> Handles(role, kind, slot)
  }

  lemma {:induction false} LeftoverTypes(n: Node, role: Role)
    ensures LeavesTypes(Render(n, Walked(Some(role))), Render(n, Stripped), Erasable(n, role))
    decreases n, 0
  {
    PartsLeftoverTypes(n.parts, role, n.kind, Open(Some(role), n.kind));
  }

  lemma {:induction false} PartsLeftoverTypes(parts: seq<Part>, role: Role, kind: Kind, open: set<Slot>)
    requires Opens(open, role, kind)
    ensures LeavesTypes(RenderParts(parts, Walked(Some(role)), open), RenderParts(parts, Stripped, {}),
                        PartsErasable(parts, role, kind))
    decreases parts, 1
  {
    if parts != [] {
      PartLeftoverTypes(parts[0], role, kind, open);
      PartsLeftoverTypes(parts[1..], role, kind, open);
    }
  }

  lemma {:induction false} PartLeftoverTypes(p: Part, role: Role, kind: Kind, open: set<Slot>)
    requires Opens(open, role, kind)
    ensures LeavesTypes(RenderPart(p, Walked(Some(role)), open), RenderPart(p, Stripped, {}),
                        PartErasable(p, role, kind))
    decreases p, 1
  {
    if p.Kid? {
      if p.slot in open {
        LeftoverTypes(p.node, ChildRole(p.slot));
      } else {
        UnreachedKeepsTypes(p.node);
      }
    }
  }

  /** Nothing is erased below a child that is not looked into. */
  lemma {:induction false} UnreachedKeepsTypes(n: Node)
    ensures LeavesTypes(Render(n, Walked(None)), Render(n, Stripped), TypeFree(n))
    decreases n, 0
  {
    UnreachedPartsKeepTypes(n.parts);
  }

  lemma {:induction false} UnreachedPartsKeepTypes(parts: seq<Part>)
    ensures LeavesTypes(RenderParts(parts, Walked(None), {}), RenderParts(parts, Stripped, {}), PartsTypeFree(parts))
    decreases parts, 1
  {
    if parts != [] {
      UnreachedPartKeepsTypes(parts[0]);
      UnreachedPartsKeepTypes(parts[1..]);
    }
  }

  lemma {:induction false} UnreachedPartKeepsTypes(p: Part)
    ensures LeavesTypes(RenderPart(p, Walked(None), {}), RenderPart(p, Stripped, {}), PartTypeFree(p))
    decreases p, 1
  {
    if p.Kid? {
      UnreachedKeepsTypes(p.node);
    }
  }

  // ----- the type-free tree -----

  /** Drops every type, unwraps the type operators, and puts the replacements in. */
  function Erase(n: Node): Node
    decreases n, 0
  {
    if IsCast(n) then Erase(n.parts[0].node)
    else Node(n.kind, EraseParts(n.parts))
  }

  /** `x as T`, `x satisfies T` and `x!`: an expression and a type suffix. */
  predicate IsCast(n: Node) {
    IsTypeOperator(n.kind) && |n.parts| == 2 && n.parts[0].Kid? && n.parts[1].Typ?
  }

  function EraseParts(parts: seq<Part>): seq<Part>
    decreases parts, 1
  {
    if parts == [] then [] else ErasePart(parts[0]) + EraseParts(parts[1..])
  }

  function ErasePart(p: Part): seq<Part>
    decreases p, 1
  {
    match p
    case Txt(_) => [p]
    case Typ(_, _) => []
    case Schema(_, replacement) => [Txt(replacement)]
    case Kid(slot, k) => [Kid(slot, Erase(k))]
  }

  /** Whichever way it is viewed, the type-free tree reads as the stripped text. */
  lemma {:induction false} ErasedRenders(n: Node, view: View)
    ensures Render(Erase(n), view) == Render(n, Stripped)
    decreases n, 0
  {
    if IsCast(n) {
      ErasedRenders(n.parts[0].node, view);
      var inner := Render(n.parts[0].node, Stripped);
      assert RenderParts(n.parts[1..][1..], Stripped, {}) == "";
      assert RenderPart(n.parts[1..][0], Stripped, {}) == "";
      assert RenderParts(n.parts, Stripped, {}) == inner + "";
      assert inner + "" == inner;
    } else {
      ErasedPartsRender(n.parts, view, Visible(view, n.kind));
    }
  }

  lemma {:induction false} ErasedPartsRender(parts: seq<Part>, view: View, open: set<Slot>)
    ensures RenderParts(EraseParts(parts), view, open) == RenderParts(parts, Stripped, {})
    decreases parts, 1
  {
    if parts != [] {
      ErasedPartsRender(parts[1..], view, open);
      ErasedPartRenders(parts[0], view, open);
      if parts[0].Typ? {
        assert EraseParts(parts) == EraseParts(parts[1..]);
      } else {
        assert EraseParts(parts)[0] == ErasePart(parts[0])[0];
        assert EraseParts(parts)[1..] == EraseParts(parts[1..]);
      }
    }
  }

  lemma {:induction false} ErasedPartRenders(p: Part, view: View, open: set<Slot>)
    ensures !p.Typ? ==> |ErasePart(p)| == 1 && RenderPart(ErasePart(p)[0], view, open) == RenderPart(p, Stripped, {})
    decreases p, 1
  {
    if p.Kid? {
      ErasedRenders(p.node, if view.Walked? then Walked(Reach(open, p.slot)) else view);
    }
  }

  /** The type-free tree holds no type anywhere. */
  lemma ErasedIsTypeFree(n: Node)
    ensures TypeFree(Erase(n))
  {
    ErasedRenders(n, Walked(None));
    ErasedRenders(n, Stripped);
    UnreachedKeepsTypes(Erase(n));
  }

  // ----- collecting the spans -----

  predicate DisjointPasses(passes: seq<set<Slot>>) {
    forall i, j :: 0 <= i < j < |passes| ==> passes[i] !! passes[j]
  }

  lemma PassesAreDisjoint(role: Role, kind: Kind)
    ensures DisjointPasses(Passes(role, kind))
  {
  }

  // The arms of the walk are the handled slots.

  lemma RolesAgree(slot: Slot)
    ensures RoleOf(slot) == ChildRole(slot)
  {
  }

  lemma UnionStarts<T>(first: set<T>, rest: seq<set<T>>, slot: T)
    ensures slot in Union([first] + rest) <==> slot in first || slot in Union(rest)
  {
    assert ([first] + rest)[1..] == rest;
  }

  lemma InOne<T>(a: set<T>, slot: T)
    ensures slot in Union([a]) <==> slot in a
  {
    assert [a][1..] == [];
  }

  lemma InTwo<T>(a: T, b: T, slot: T)
    ensures slot in Union([{a}, {b}]) <==> slot == a || slot == b
  {
    InOne({b}, slot);
    UnionStarts({a}, [{b}], slot);
    assert [{a}] + [{b}] == [{a}, {b}];
  }

  lemma InThree<T>(a: T, b: T, c: T, slot: T)
    ensures slot in Union([{a}, {b}, {c}]) <==> slot == a || slot == b || slot == c
  {
    InTwo(b, c, slot);
    UnionStarts({a}, [{b}, {c}], slot);
    assert [{a}] + [{b}, {c}] == [{a}, {b}, {c}];
  }

  lemma InFour<T>(a: T, b: T, c: T, d: T, slot: T)
    ensures slot in Union([{a}, {b}, {c}, {d}]) <==> slot == a || slot == b || slot == c || slot == d
  {
    InThree(b, c, d, slot);
    UnionStarts({a}, [{b}, {c}, {d}], slot);
    assert [{a}] + [{b}, {c}, {d}] == [{a}, {b}, {c}, {d}];
  }

  lemma FunctionPasses(slot: Slot)
    ensures slot in Union(FunctionArm())
        <==> (slot.ParameterAnnotation? || slot.TypeParameters? || slot.ThisParameter? || slot.ReturnType?
              || slot.BodyStatement?)
  {
    InFour(TypeParameters, ThisParameter, ReturnType, BodyStatement, slot);
    UnionStarts({ParameterAnnotation}, [{TypeParameters}, {ThisParameter}, {ReturnType}, {BodyStatement}], slot);
    assert [{ParameterAnnotation}] + [{TypeParameters}, {ThisParameter}, {ReturnType}, {BodyStatement}]
        == FunctionArm();
  }

  lemma CallPasses(slot: Slot)
    ensures slot in Union(ExpressionArm(Call)) <==> InExpression(Call, slot)
  {
    InThree(TypeArguments, Callee, Argument, slot);
  }

  lemma AwaitPasses(slot: Slot)
    ensures slot in Union(ExpressionArm(Await)) <==> InExpression(Await, slot)
  {
    InOne({Operand}, slot);
  }

  lemma ArrowPasses(slot: Slot)
    ensures slot in Union(ExpressionArm(Arrow)) <==> InExpression(Arrow, slot)
  {
    InFour(ParameterAnnotation, TypeParameters, ReturnType, BodyStatement, slot);
  }

  lemma FunctionExpressionPasses(slot: Slot)
    ensures slot in Union(ExpressionArm(FunctionExpression)) <==> InExpression(FunctionExpression, slot)
  {
    FunctionPasses(slot);
  }

  lemma OperatorPasses(kind: Kind, slot: Slot)
    requires kind.Binary? || kind.Logical?
    ensures slot in Union(ExpressionArm(kind)) <==> InExpression(kind, slot)
  {
    InTwo(Left, Right, slot);
  }

  lemma ConditionalPasses(slot: Slot)
    ensures slot in Union(ExpressionArm(Conditional)) <==> InExpression(Conditional, slot)
  {
    InThree(Test, Consequent, Alternate, slot);
  }

  lemma ObjectPasses(slot: Slot)
    ensures slot in Union(ExpressionArm(Object)) <==> InExpression(Object, slot)
  {
    InOne({PropertyValue}, slot);
  }

  lemma ArrayPasses(slot: Slot)
    ensures slot in Union(ExpressionArm(Array)) <==> InExpression(Array, slot)
  {
    InOne({Element}, slot);
  }

  lemma ParenthesizedPasses(slot: Slot)
    ensures slot in Union(ExpressionArm(Parenthesized)) <==> InExpression(Parenthesized, slot)
  {
    InOne({Inner}, slot);
  }

  lemma StaticMemberPasses(slot: Slot)
    ensures slot in Union(ExpressionArm(StaticMember)) <==> InExpression(StaticMember, slot)
  {
    InOne({Receiver}, slot);
  }

  lemma ComputedMemberPasses(slot: Slot)
    ensures slot in Union(ExpressionArm(ComputedMember)) <==> InExpression(ComputedMember, slot)
  {
    InTwo(Receiver, Index, slot);
  }

  lemma TemplatePasses(slot: Slot)
    ensures slot in Union(ExpressionArm(Template)) <==> InExpression(Template, slot)
  {
    InOne({TemplateExpression}, slot);
  }

  lemma TaggedTemplatePasses(slot: Slot)
    ensures slot in Union(ExpressionArm(TaggedTemplate)) <==> InExpression(TaggedTemplate, slot)
  {
    InThree(TypeArguments, Tag, TemplateExpression, slot);
  }

  lemma TypeOperatorPasses(kind: Kind, slot: Slot)
    requires IsTypeOperator(kind)
    ensures slot in Union(ExpressionArm(kind)) <==> InExpression(kind, slot)
  {
    InTwo(Suffix, Inner, slot);
  }

  lemma ExpressionPasses(kind: Kind, slot: Slot)
    ensures slot in Union(ExpressionArm(kind)) <==> InExpression(kind, slot)
  {
    match kind
    case Call => CallPasses(slot);
    case Await => AwaitPasses(slot);
    case Arrow => ArrowPasses(slot);
    case FunctionExpression => FunctionExpressionPasses(slot);
    case Binary | Logical => OperatorPasses(kind, slot);
    case Conditional => ConditionalPasses(slot);
    case Object => ObjectPasses(slot);
    case Array => ArrayPasses(slot);
    case Parenthesized => ParenthesizedPasses(slot);
    case StaticMember => StaticMemberPasses(slot);
    case ComputedMember => ComputedMemberPasses(slot);
    case Template => TemplatePasses(slot);
    case TaggedTemplate => TaggedTemplatePasses(slot);
    case TsAs | TsSatisfies | TsNonNull => TypeOperatorPasses(kind, slot);
    case _ => assert ExpressionArm(kind) == [];
  }

  lemma IfPasses(slot: Slot)
    ensures slot in Union(StatementArm(If)) <==> InStatement(If, slot)
  {
    InThree(Test, ThenStatement, ElseStatement, slot);
  }

  lemma ForPasses(slot: Slot)
    ensures slot in Union(StatementArm(For)) <==> InStatement(For, slot)
  {
    InFour(ForInit, Test, Update, LoopStatement, slot);
  }

  lemma WhilePasses(slot: Slot)
    ensures slot in Union(StatementArm(While)) <==> InStatement(While, slot)
  {
    InTwo(Test, LoopStatement, slot);
  }

  lemma TryPasses(slot: Slot)
    ensures slot in Union(StatementArm(Try)) <==> InStatement(Try, slot)
  {
    InThree(TryStatement, CatchStatement, FinallyStatement, slot);
  }

  lemma BlockPasses(slot: Slot)
    ensures slot in Union(StatementArm(Block)) <==> InStatement(Block, slot)
  {
    InOne({BlockStatement}, slot);
  }

  lemma VariableDeclarationPasses(slot: Slot)
    ensures slot in Union(StatementArm(VariableDeclaration)) <==> InStatement(VariableDeclaration, slot)
  {
    InOne({DeclaratorAnnotation, Initializer}, slot);
  }

  lemma FunctionDeclarationPasses(slot: Slot)
    ensures slot in Union(StatementArm(FunctionDeclaration)) <==> InStatement(FunctionDeclaration, slot)
  {
    FunctionPasses(slot);
  }

  lemma OperandPasses(kind: Kind, slot: Slot)
    requires kind.ExpressionStatement? || kind.Return? || kind.Throw?
    ensures slot in Union(StatementArm(kind)) <==> InStatement(kind, slot)
  {
    InOne({Operand}, slot);
  }

  lemma StatementPasses(kind: Kind, slot: Slot)
    ensures slot in Union(StatementArm(kind)) <==> InStatement(kind, slot)
  {
    match kind
    case If => IfPasses(slot);
    case For => ForPasses(slot);
    case While => WhilePasses(slot);
    case Try => TryPasses(slot);
    case Block => BlockPasses(slot);
    case VariableDeclaration => VariableDeclarationPasses(slot);
    case FunctionDeclaration => FunctionDeclarationPasses(slot);
    case ExpressionStatement | Return | Throw => OperandPasses(kind, slot);
    case _ => assert StatementArm(kind) == [];
  }

  predicate IsOperator(kind: Kind) {
    kind.Binary? || kind.Logical? || kind.Conditional? || kind.Parenthesized?
  }

  predicate IsAccess(kind: Kind) {
    kind.Await? || kind.StaticMember? || kind.ComputedMember?
  }

  lemma NotInArgument(kind: Kind, slot: Slot)
    requires IsOperator(kind)
    ensures !InArgument(kind, slot)
  {
  }

  lemma NotInElement(kind: Kind, slot: Slot)
    requires IsAccess(kind)
    ensures !InElement(kind, slot)
  {
  }

  lemma ArgumentPasses(kind: Kind, slot: Slot)
    ensures slot in Union(ArgumentArm(kind)) <==> InArgument(kind, slot)
  {
    if IsOperator(kind) {
      NotInArgument(kind, slot);
    } else {
      ExpressionPasses(kind, slot);
    }
  }

  lemma ElementPasses(kind: Kind, slot: Slot)
    ensures slot in Union(ElementArm(kind)) <==> InElement(kind, slot)
  {
    if IsAccess(kind) {
      NotInElement(kind, slot);
    } else {
      ArgumentPasses(kind, slot);
    }
  }

  lemma ForInitPasses(kind: Kind, slot: Slot)
    ensures slot in Union(Passes(AsForInit, kind)) <==> InForInit(kind, slot)
  {
    StatementPasses(kind, slot);
    ExpressionPasses(kind, slot);
  }

  lemma PassesAreHandled(role: Role, kind: Kind, slot: Slot)
    ensures slot in Union(Passes(role, kind)) <==> Handles(role, kind, slot)
  {
    match role
    case AsExpression => ExpressionPasses(kind, slot);
    case AsArgument => ArgumentPasses(kind, slot);
    case AsElement => ElementPasses(kind, slot);
    case AsStatement => StatementPasses(kind, slot);
    case AsForInit => ForInitPasses(kind, slot);
  }

  lemma PassesAreTheHandledSlots(role: Role, kind: Kind)
    ensures Union(Passes(role, kind)) == Open(Some(role), kind)
  {
    forall slot: Slot ensures slot in Union(Passes(role, kind)) <==> slot in Open(Some(role), kind) {
      PassesAreHandled(role, kind, slot);
    }
  }

  lemma {:induction false} UnionMember(passes: seq<set<Slot>>, slot: Slot)
    ensures slot in Union(passes) <==> exists k :: 0 <= k < |passes| && slot in passes[k]
  {
    if passes != [] {
      UnionMember(passes[1..], slot);
      if k :| 0 <= k < |passes[1..]| && slot in passes[1..][k] {
        assert slot in passes[k + 1];
      }
      if k :| 0 <= k < |passes| && slot in passes[k] {
        assert k > 0 ==> passes[1..][k - 1] == passes[k];
      }
    }
  }

  /** The next pass is new, and adds itself. */
  lemma UnionStep(passes: seq<set<Slot>>, i: nat)
    requires i < |passes| && DisjointPasses(passes)
    ensures Union(passes[..i]) !! passes[i]
    ensures Union(passes[..i + 1]) == Union(passes[..i]) + passes[i]
  {
    forall slot
      ensures slot in Union(passes[..i + 1]) <==> slot in Union(passes[..i]) || slot in passes[i]
      ensures slot in Union(passes[..i]) ==> slot !in passes[i]
    {
      UnionMember(passes[..i], slot);
      UnionMember(passes[..i + 1], slot);
      assert forall k :: 0 <= k < i ==> passes[..i][k] == passes[..i + 1][k] == passes[k];
      assert passes[..i + 1][i] == passes[i];
    }
  }

  lemma {:induction false} UnreachedHasNoTypes(n: Node, at: nat)
    ensures Edits(n, at, None, Types) == []
    decreases n, 0
  {
    ClosedPartsHaveNoTypes(n.parts, at);
  }

  lemma {:induction false} ClosedPartsHaveNoTypes(parts: seq<Part>, at: nat)
    ensures PartsEdits(parts, at, {}, Types) == []
    decreases parts, 1
  {
    if parts != [] {
      ClosedPartHasNoTypes(parts[0], at, {});
      ClosedPartsHaveNoTypes(parts[1..], at + |RenderPart(parts[0], Source, {})|);
    }
  }

  lemma {:induction false} ClosedPartHasNoTypes(p: Part, at: nat, open: set<Slot>)
    requires (p.Typ? || p.Kid?) ==> p.slot !in open
    ensures PartEdits(p, at, open, Types) == []
    decreases p, 1
  {
    if p.Kid? {
      UnreachedHasNoTypes(p.node, at);
    }
  }

  lemma PassesAddOne(p: Part, at: nat, a: set<Slot>, b: set<Slot>)
    requires a !! b
    ensures multiset(PartEdits(p, at, a + b, Types)) == multiset(PartEdits(p, at, a, Types))
            + multiset(PartEdits(p, at, b, Types))
  {
    if !((p.Typ? || p.Kid?) && p.slot in b) {
      ClosedPartHasNoTypes(p, at, b);
      assert PartEdits(p, at, a + b, Types) == PartEdits(p, at, a, Types);
    } else {
      ClosedPartHasNoTypes(p, at, a);
      assert PartEdits(p, at, a + b, Types) == PartEdits(p, at, b, Types);
    }
  }

  /** What is listed for the first part, and for the others. */
  ghost function First(parts: seq<Part>, at: nat, open: set<Slot>, which: Which): multiset<Edit>
    requires parts != []
  {
    multiset(PartEdits(parts[0], at, open, which))
  }

  ghost function Rest(parts: seq<Part>, at: nat, open: set<Slot>, which: Which): multiset<Edit>
    requires parts != []
  {
    multiset(PartsEdits(parts[1..], at + |RenderPart(parts[0], Source, {})|, open, which))
  }

  lemma PartsStep(parts: seq<Part>, at: nat, open: set<Slot>, which: Which)
    requires parts != []
    ensures multiset(PartsEdits(parts, at, open, which)) == Rest(parts, at, open, which) + First(parts, at, open, which)
  {
  }

  lemma PassesAddStep(parts: seq<Part>, at: nat, whole: set<Slot>, a: set<Slot>, b: set<Slot>)
    requires parts != [] && Rest(parts, at, whole, Types) == Rest(parts, at, a, Types) + Rest(parts, at, b, Types)
    requires First(parts, at, whole, Types) == First(parts, at, a, Types) + First(parts, at, b, Types)
    ensures multiset(PartsEdits(parts, at, whole, Types))
         == multiset(PartsEdits(parts, at, a, Types)) + multiset(PartsEdits(parts, at, b, Types))
  {
    PartsStep(parts, at, whole, Types);
    PartsStep(parts, at, a, Types);
    PartsStep(parts, at, b, Types);
    Interchange(Rest(parts, at, whole, Types), Rest(parts, at, a, Types), Rest(parts, at, b, Types),
                First(parts, at, whole, Types), First(parts, at, a, Types), First(parts, at, b, Types));
  }

  lemma FirstAdds(parts: seq<Part>, at: nat, whole: set<Slot>, a: set<Slot>, b: set<Slot>)
    requires parts != [] && whole == a + b && a !! b
    ensures First(parts, at, whole, Types) == First(parts, at, a, Types) + First(parts, at, b, Types)
  {
    PassesAddOne(parts[0], at, a, b);
  }

  /** Two passes over disjoint slots collect what one pass over both would. */
  lemma {:induction false} PassesAdd(parts: seq<Part>, at: nat, whole: set<Slot>, a: set<Slot>, b: set<Slot>)
    requires whole == a + b && a !! b
    ensures multiset(PartsEdits(parts, at, whole, Types))
         == multiset(PartsEdits(parts, at, a, Types)) + multiset(PartsEdits(parts, at, b, Types))
    decreases |parts|
  {
    if parts != [] {
      PassesAdd(parts[1..], at + |RenderPart(parts[0], Source, {})|, whole, a, b);
      FirstAdds(parts, at, whole, a, b);
      PassesAddStep(parts, at, whole, a, b);
    }
  }

  /** collect_expression, collect_argument, collect_array_element and collect_statement, by role. */
  method Collect(role: Role, n: Node, at: nat, spans: seq<Span>) returns (out: seq<Span>)
    ensures multiset(Erasures(out)) == multiset(Erasures(spans)) + multiset(Edits(n, at, Some(role), Types))
    decreases n, 2
  {
    out := spans;
    var passes := Passes(role, n.kind);
    PassesAreDisjoint(role, n.kind);
    PassesAreTheHandledSlots(role, n.kind);
    ClosedPartsHaveNoTypes(n.parts, at);
    var i := 0;
    while i < |passes|
      invariant 0 <= i <= |passes|
      invariant multiset(Erasures(out)) == multiset(Erasures(spans))
                + multiset(PartsEdits(n.parts, at, Union(passes[..i]), Types))
    {
      UnionStep(passes, i);
      PassesAdd(n.parts, at, Union(passes[..i + 1]), Union(passes[..i]), passes[i]);
      out := CollectPass(n.parts, at, passes[i], out);
      i := i + 1;
    }
    assert passes[..|passes|] == passes;
  }

  /** One part, then the rest. */
  lemma PartsAt(parts: seq<Part>, i: nat, pos: nat, pass: set<Slot>)
    requires i < |parts|
    ensures multiset(PartsEdits(parts[i..], pos, pass, Types))
         == multiset(PartsEdits(parts[i + 1..], pos + |RenderPart(parts[i], Source, {})|, pass, Types))
            + multiset(PartEdits(parts[i], pos, pass, Types))
  {
    PartsStep(parts[i..], pos, pass, Types);
    assert parts[i..][0] == parts[i] && parts[i..][1..] == parts[i + 1..];
  }

  method CollectPass(parts: seq<Part>, at: nat, pass: set<Slot>, spans: seq<Span>) returns (out: seq<Span>)
    ensures multiset(Erasures(out)) == multiset(Erasures(spans)) + multiset(PartsEdits(parts, at, pass, Types))
    decreases parts, 1
  {
    out := spans;
    var i, pos: nat := 0, at;
    ghost var todo := multiset(PartsEdits(parts, at, pass, Types));
    ghost var total := multiset(Erasures(spans)) + todo;
    assert parts[0..] == parts;
    while i < |parts|
      invariant 0 <= i <= |parts|
      invariant todo == multiset(PartsEdits(parts[i..], pos, pass, Types))
      invariant multiset(Erasures(out)) + todo == total
    {
      var next := pos + |RenderPart(parts[i], Source, {})|;
      PartsAt(parts, i, pos, pass);
      ghost var rest, part := multiset(PartsEdits(parts[i + 1..], next, pass, Types)),
          multiset(PartEdits(parts[i], pos, pass, Types));
      Shift(multiset(Erasures(out)), rest, part, total);
      out := CollectPart(parts[i], pos, pass, out);
      i, pos, todo := i + 1, next, rest;
    }
  }

  method CollectPart(p: Part, pos: nat, pass: set<Slot>, spans: seq<Span>) returns (out: seq<Span>)
    ensures multiset(Erasures(out)) == multiset(Erasures(spans)) + multiset(PartEdits(p, pos, pass, Types))
    decreases p, 1
  {
    if p.Typ? && p.slot in pass {
      out := spans + [Span(pos, pos + |p.t|)];
      assert Erasures(out) == Erasures(spans) + [Edit(Span(pos, pos + |p.t|), "")];
    } else if p.Kid? && p.slot in pass {
      RolesAgree(p.slot);
      out := Collect(RoleOf(p.slot), p.node, pos, spans);
    } else {
      ClosedPartHasNoTypes(p, pos, pass);
      out := spans;
    }
  }

  lemma {:induction false} EditsSplit(n: Node, at: nat, role: Option<Role>)
    ensures multiset(Edits(n, at, role, All)) == multiset(Edits(n, at, role, Types))
            + multiset(Edits(n, at, role, Schemas))
    decreases n, 0
  {
    PartsEditsSplit(n.parts, at, Open(role, n.kind));
  }

  lemma {:induction false} PartsEditsSplit(parts: seq<Part>, at: nat, open: set<Slot>)
    ensures multiset(PartsEdits(parts, at, open, All))
         == multiset(PartsEdits(parts, at, open, Types)) + multiset(PartsEdits(parts, at, open, Schemas))
    decreases parts, 1
  {
    if parts != [] {
      PartEditsSplit(parts[0], at, open);
      PartsEditsSplit(parts[1..], at + |RenderPart(parts[0], Source, {})|, open);
      PartsSplitStep(parts, at, open);
    }
  }

  lemma PartsSplitStep(parts: seq<Part>, at: nat, open: set<Slot>)
    requires parts != [] && Rest(parts, at, open, All) == Rest(parts, at, open, Types) + Rest(parts, at, open, Schemas)
    requires First(parts, at, open, All) == First(parts, at, open, Types) + First(parts, at, open, Schemas)
    ensures multiset(PartsEdits(parts, at, open, All))
         == multiset(PartsEdits(parts, at, open, Types)) + multiset(PartsEdits(parts, at, open, Schemas))
  {
    PartsStep(parts, at, open, All);
    PartsStep(parts, at, open, Types);
    PartsStep(parts, at, open, Schemas);
    Interchange(Rest(parts, at, open, All), Rest(parts, at, open, Types), Rest(parts, at, open, Schemas),
                First(parts, at, open, All), First(parts, at, open, Types), First(parts, at, open, Schemas));
  }

  lemma {:induction false} PartEditsSplit(p: Part, at: nat, open: set<Slot>)
    ensures multiset(PartEdits(p, at, open, All))
         == multiset(PartEdits(p, at, open, Types)) + multiset(PartEdits(p, at, open, Schemas))
    decreases p, 1
  {
    if p.Kid? {
      EditsSplit(p.node, at, Reach(open, p.slot));
    }
  }

  /**
   The executable source of a typed handler that starts at `start`: the edits never fail, the
   text is the printed type-free handler exactly when all its types stand where they are
   handled, and one type elsewhere makes it longer.
  */
  method ExecutableSource(handler: Node, start: nat, schemas: seq<Edit>) returns (r: Option<string>)
    requires handler.kind.Arrow? || handler.kind.FunctionExpression?
    requires multiset(schemas) == multiset(Edits(handler, start, Some(AsExpression), Schemas))
    ensures r == Some(Render(handler, Walked(Some(AsExpression))))
    ensures Erasable(handler, AsExpression) ==> r == Some(Print(Erase(handler)))
    ensures !Erasable(handler, AsExpression) ==> r.Some? && |r.value| > |Print(Erase(handler))|
  {
    var spans := Collect(AsExpression, handler, start, []);
    r := EditSourceSpans(Print(handler), start, spans, schemas);
    EditsSplit(handler, start, Some(AsExpression));
    EditsSplice(handler, start, Some(AsExpression));
    CollectedEditsSplice(Erasures(spans) + schemas, Edits(handler, start, Some(AsExpression), All), start,
                         Print(handler), Render(handler, Walked(Some(AsExpression))));
    LeftoverTypes(handler, AsExpression);
    ErasedRenders(handler, Source);
  }

  /** `(ctx: C) => 1`, with any texts: the annotation goes. */
  lemma AnnotationIsErased(head: string, annotation: Lexeme, tail: string)
    ensures var handler := Node(Arrow, [Txt(head), Typ(ParameterAnnotation, annotation), Txt(tail)]);
            Erasable(handler, AsExpression) && Print(Erase(handler)) == head + tail
  {
    var parts := [Txt(head), Typ(ParameterAnnotation, annotation), Txt(tail)];
    assert parts[1..] == [Typ(ParameterAnnotation, annotation), Txt(tail)] && parts[1..][1..] == [Txt(tail)];
    assert PartErasable(Txt(tail), AsExpression, Arrow) && [Txt(tail)][1..] == [];
    assert PartsErasable(parts[1..], AsExpression, Arrow);
    assert EraseParts([Txt(tail)]) == [Txt(tail)];
    assert EraseParts(parts[1..]) == [Txt(tail)];
    var erased := [Txt(head), Txt(tail)];
    assert EraseParts(parts) == [Txt(head)] + [Txt(tail)] == erased;
    assert erased[1..] == [Txt(tail)] && RenderParts([Txt(tail)], Source, {}) == tail + "" == tail;
    assert RenderParts(erased, Source, {}) == head + tail;
  }

  /** The argument of `f((x as T))`. */
  function ParenthesizedCast(): Node {
    Node(Parenthesized, [Txt("("), Kid(Inner, Cast()), Txt(")")])
  }

  function Cast(): Node {
    Node(TsAs, [Kid(Inner, Node(Leaf, [Txt("x")])), Typ(Suffix, " as T")])
  }

  lemma CastIsErased()
    ensures Erasable(Cast(), AsExpression) && !TypeFree(Cast())
  {
    assert Cast().parts[1..] == [Typ(Suffix, " as T")];
    assert Erasable(Node(Leaf, [Txt("x")]), AsExpression);
    assert PartsErasable([Typ(Suffix, " as T")], AsExpression, TsAs);
    assert !PartsTypeFree([Typ(Suffix, " as T")]);
  }

  lemma ParenthesizedCastIsErased()
    ensures Erasable(ParenthesizedCast(), AsExpression)
  {
    CastIsErased();
    var parts := ParenthesizedCast().parts;
    assert parts[1..][0] == Kid(Inner, Cast()) && parts[1..][1..] == [Txt(")")];
    assert PartsErasable([Txt(")")], AsExpression, Parenthesized);
    assert PartsErasable(parts[1..], AsExpression, Parenthesized);
  }

  lemma ParenthesizedCastIsSkipped()
    ensures !Erasable(ParenthesizedCast(), AsArgument)
  {
    CastIsErased();
    NotErasable(Parenthesized, AsArgument, "(", Inner, Cast(), ")");
  }

  /** A node with a child between two texts is erasable only if its child is. */
  lemma NotErasable(kind: Kind, role: Role, before: string, slot: Slot, child: Node, after: string)
    requires if Handles(role, kind, slot) then !Erasable(child, ChildRole(slot)) else !TypeFree(child)
    ensures !Erasable(Node(kind, [Txt(before), Kid(slot, child), Txt(after)]), role)
  {
    var parts := [Txt(before), Kid(slot, child), Txt(after)];
    assert parts[1..][0] == Kid(slot, child);
    assert !PartsErasable(parts[1..], role, kind);
  }

  /** A call of one argument, in the statement of an arrow handler, with any text around it. */
  function CallOf(argument: Node, before: string, after: string): Node {
    Node(Call, [Txt(before), Kid(Argument, argument), Txt(after)])
  }

  function ReturnOf(operand: Node, word: string, end: string): Node {
    Node(Return, [Txt(word), Kid(Operand, operand), Txt(end)])
  }

  function HandlerOf(statement: Node, head: string, tail: string): Node {
    Node(Arrow, [Txt(head), Kid(BodyStatement, statement), Txt(tail)])
  }

  /** A type that is not handled in an argument stays in a handler that returns a call with it. */
  lemma SkippedInHandler(argument: Node, before: string, after: string, word: string, end: string, head: string,
      tail: string)
    requires !Erasable(argument, AsArgument)
    ensures !Erasable(HandlerOf(ReturnOf(CallOf(argument, before, after), word, end), head, tail), AsExpression)
  {
    var call := CallOf(argument, before, after);
    NotErasable(Call, AsExpression, before, Argument, argument, after);
    NotErasable(Return, AsStatement, word, Operand, call, end);
    NotErasable(Arrow, AsExpression, head, BodyStatement, ReturnOf(call, word, end), tail);
  }

  /**
   As an expression it is erased; as an argument it has no arm.  So in a handler that returns
   `f((x as T))`, with any layout, the type stays: the executable source is longer than the
   printed type-free handler.
  */
  lemma ParenthesizedArgumentKeepsItsType(before: string, after: string, word: string, end: string, head: string,
      tail: string)
    ensures Erasable(ParenthesizedCast(), AsExpression)
    ensures var handler := HandlerOf(ReturnOf(CallOf(ParenthesizedCast(), before, after), word, end), head, tail);
            && !Erasable(handler, AsExpression)
            && |Render(handler, Walked(Some(AsExpression)))| > |Print(Erase(handler))|
  {
    ParenthesizedCastIsErased();
    ParenthesizedCastIsSkipped();
    SkippedInHandler(ParenthesizedCast(), before, after, word, end, head, tail);
    var handler := HandlerOf(ReturnOf(CallOf(ParenthesizedCast(), before, after), word, end), head, tail);
    LeftoverTypes(handler, AsExpression);
    ErasedRenders(handler, Source);
  }
}
