/**
 Concrete syntax trees of handlers, and which of their type syntax the compiler can erase.

 A node is its kind and its parts in source order, every part labelled with the grammatical
 slot it fills, and the text between parts is kept, so any layout, comment or punctuation of
 the source is covered.  `Erasable` lists, slot by slot, the forms in which the compiler
 handles a type or a child; it says nothing about how the compiler walks.
*/
module SyntaxTrees {
  /**
   The syntactic forms.  The other expressions are assignment, unary operators, construction,
   angle-bracket casts, optional chains, classes and spreads; the other statements are switch,
   for-of, labels, type aliases and interfaces.
  */
  datatype Kind =
    | Leaf | Call | Await | Arrow | FunctionExpression | Binary | Logical | Conditional | Object | Array
    | Parenthesized | StaticMember | ComputedMember | Template | TaggedTemplate
    | TsAs | TsSatisfies | TsNonNull
    | OtherExpression
    | Block | ExpressionStatement | Return | VariableDeclaration | FunctionDeclaration
    | If | For | While | Throw | Try
    | OtherStatement

  /** Where a part stands in its form; `Unlisted` is any part of a form without an arm. */
  datatype Slot =
    | Callee | TypeArguments | Argument | Operand | Left | Right | Test | Consequent | Alternate
    | PropertyKey | PropertyValue | SpreadProperty | Element | Inner | Receiver | Index | Tag
    | TemplateExpression | Suffix
    | TypeParameters | ThisParameter | ParameterPattern | ParameterMarker | ParameterAnnotation
    | ParameterDefault | RestParameter | ReturnType | BodyStatement
    | DeclaredPattern | DeclaratorMarker | DeclaratorAnnotation | Initializer
    | ThenStatement | ElseStatement | ForInit | Update | LoopStatement | BlockStatement
    | TryStatement | CatchParameter | CatchStatement | FinallyStatement
    | Unlisted

  /** Source text of at least one byte: a type, a marker such as `?`, an identifier. */
  type Lexeme = s: string | s != "" witness "T"

  /** Plain text, type syntax, an identifier that a replacement rewrites, or a child. */
  datatype Part =
    | Txt(text: string)
    | Typ(slot: Slot, t: Lexeme)
    | Schema(name: Lexeme, replacement: string)
    | Kid(slot: Slot, node: Node)

  datatype Node = Node(kind: Kind, parts: seq<Part>)

  /** How a node is held by its parent. */
  datatype Role = AsExpression | AsArgument | AsElement | AsStatement | AsForInit

  predicate IsStatementSlot(slot: Slot) {
    || slot.BodyStatement? || slot.ThenStatement? || slot.ElseStatement? || slot.LoopStatement?
    || slot.BlockStatement? || slot.TryStatement? || slot.CatchStatement? || slot.FinallyStatement?
  }

  function ChildRole(slot: Slot): Role {
    if slot.Argument? then AsArgument
    else if slot.Element? then AsElement
    else if slot.ForInit? then AsForInit
    else if IsStatementSlot(slot) then AsStatement
    else AsExpression
  }

  // ----- the types and children that are handled -----

  predicate IsTypeOperator(kind: Kind) {
    kind.TsAs? || kind.TsSatisfies? || kind.TsNonNull?
  }

  predicate IsFunctionSlot(slot: Slot) {
    slot.ParameterAnnotation? || slot.TypeParameters? || slot.ReturnType? || slot.BodyStatement?
  }

  /** What is handled in every expression. */
  predicate InElement(kind: Kind, slot: Slot) {
    || (kind.Call? && (slot.Callee? || slot.Argument?))
    || ((kind.Call? || kind.TaggedTemplate?) && slot.TypeArguments?)
    || ((kind.Arrow? || kind.FunctionExpression?) && IsFunctionSlot(slot))
    || (kind.FunctionExpression? && slot.ThisParameter?)
    || (kind.Object? && slot.PropertyValue?)
    || (kind.Array? && slot.Element?)
    || (IsTypeOperator(kind) && (slot.Inner? || slot.Suffix?))
    || (kind.TaggedTemplate? && slot.Tag?)
    || ((kind.Template? || kind.TaggedTemplate?) && slot.TemplateExpression?)
  }

  /** In an argument also `await` and member accesses. */
  predicate InArgument(kind: Kind, slot: Slot) {
    || InElement(kind, slot)
    || (kind.Await? && slot.Operand?)
    || ((kind.StaticMember? || kind.ComputedMember?) && slot.Receiver?)
    || (kind.ComputedMember? && slot.Index?)
  }

  /** Elsewhere also operators, conditionals and parentheses. */
  predicate InExpression(kind: Kind, slot: Slot) {
    || InArgument(kind, slot)
    || ((kind.Binary? || kind.Logical?) && (slot.Left? || slot.Right?))
    || (kind.Conditional? && (slot.Test? || slot.Consequent? || slot.Alternate?))
    || (kind.Parenthesized? && slot.Inner?)
  }

  predicate InStatement(kind: Kind, slot: Slot) {
    || (kind.Block? && slot.BlockStatement?)
    || ((kind.ExpressionStatement? || kind.Return? || kind.Throw?) && slot.Operand?)
    || (kind.VariableDeclaration? && (slot.DeclaratorAnnotation? || slot.Initializer?))
    || (kind.FunctionDeclaration? && (IsFunctionSlot(slot) || slot.ThisParameter?))
    || ((kind.If? || kind.For? || kind.While?) && slot.Test?)
    || (kind.If? && (slot.ThenStatement? || slot.ElseStatement?))
    || (kind.For? && (slot.ForInit? || slot.Update?))
    || ((kind.For? || kind.While?) && slot.LoopStatement?)
    || (kind.Try? && (slot.TryStatement? || slot.CatchStatement? || slot.FinallyStatement?))
  }

  /** The first clause of a `for`: a declaration or an expression. */
  predicate InForInit(kind: Kind, slot: Slot) {
    if kind.VariableDeclaration? then slot.DeclaratorAnnotation? || slot.Initializer? else InExpression(kind, slot)
  }

  /** A type or a child in this slot is handled, in a node held by `role`. */
  predicate Handles(role: Role, kind: Kind, slot: Slot) {
    match role
    case AsExpression => InExpression(kind, slot)
    case AsArgument => InArgument(kind, slot)
    case AsElement => InElement(kind, slot)
    case AsStatement => InStatement(kind, slot)
    case AsForInit => InForInit(kind, slot)
  }

  // ----- the erasable trees -----

  /** There is no type syntax in the tree. */
  predicate TypeFree(n: Node)
    decreases n, 0
  {
    PartsTypeFree(n.parts)
  }

  predicate PartsTypeFree(parts: seq<Part>)
    decreases parts, 1
  {
    parts == [] || (PartTypeFree(parts[0]) && PartsTypeFree(parts[1..]))
  }

  predicate PartTypeFree(p: Part)
    decreases p, 1
  {
    !p.Typ? && (p.Kid? ==> TypeFree(p.node))
  }

  /** Every type in the tree stands where it is handled, below children that are handled. */
  predicate Erasable(n: Node, role: Role)
    decreases n, 0
  {
    PartsErasable(n.parts, role, n.kind)
  }

  predicate PartsErasable(parts: seq<Part>, role: Role, kind: Kind)
    decreases parts, 1
  {
    parts == [] || (PartErasable(parts[0], role, kind) && PartsErasable(parts[1..], role, kind))
  }

  predicate PartErasable(p: Part, role: Role, kind: Kind)
    decreases p, 1
  {
    match p
    case Typ(slot, _) => Handles(role, kind, slot)
    case Kid(slot, k) => if Handles(role, kind, slot) then Erasable(k, ChildRole(slot)) else TypeFree(k)
    case _ => true
  }
}
