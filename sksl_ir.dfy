/**
 * The SkSL intermediate representation the analyses and the inliner work on: types,
 * variables, function declarations, and the expression, statement and program-element
 * trees, one constructor per node kind. Owned child pointers become nested values; a
 * null child becomes `None`.
 *
 * A `Variable` is an object: many references share it and bump its read and write counts.
 * The pointer from a declaration to its definition is not a field; callers pass a map
 * from declarations to definitions instead.
 *
 * The list of nodes the default traversal of `ProgramVisitor` reaches, in the order it
 * reaches them, is defined here (`ExprNodes`, `StmtNodes`, `ElementNodes`). The visitors
 * of the analysis and the inliner are stated against it.
 */
module SkslIR {
  import opened Wrappers

  datatype TypeKind = Scalar | Vector | Matrix | Array | Other

  /** The number kind of a type's components. */
  datatype NumberKind = FloatNumber | SignedNumber | UnsignedNumber | BoolNumber | NonNumber

  /** A type, by its description (its name) and shape. For scalars `columns == rows == 1`. */
  datatype Type = Type(name: string, kind: TypeKind, component: NumberKind, columns: nat, rows: nat)
  {
    /** `Type::isFloat`: a floating-point scalar. */
    predicate IsFloat() { kind == Scalar && component == FloatNumber }
    /** `Type::isInteger`: a signed or unsigned integer scalar. */
    predicate IsInteger() { kind == Scalar && (component == SignedNumber || component == UnsignedNumber) }
    /** `componentType().isFloat()`. */
    predicate ComponentIsFloat() { component == FloatNumber }
  }

  const VoidType: Type := Type("void", Other, NonNumber, 0, 0)
  const Float2Type: Type := Type("float2", Vector, FloatNumber, 2, 1)
  const Float3x3Type: Type := Type("float3x3", Matrix, FloatNumber, 3, 3)
  const BoolType: Type := Type("bool", Scalar, BoolNumber, 1, 1)

  /** `VariableReference::RefKind`. */
  datatype RefKind = Read | Write | ReadWrite | Pointer

  /** `Modifiers`: the flags the model reads, the layout builtin, and the rendered text. */
  datatype Modifiers = Modifiers(isConst: bool, isUniform: bool, isIn: bool, isOut: bool, isInline: bool,
                                 builtin: int, text: string)

  /**
   * A variable. Its identity is the object; only its read and write counts change after
   * construction. `live` is the multiset of kinds of the references that currently exist.
   */
  class Variable {
    const offset: int
    const name: string
    const modifiers: Modifiers
    const ty: Type
    const initialValue: Option<Expr>
    var readCount: int
    var writeCount: int
    ghost var live: multiset<RefKind>

    /** A fresh variable has no references yet. */
    constructor (offset: int, name: string, modifiers: Modifiers, ty: Type, initialValue: Option<Expr>)
      ensures this.offset == offset && this.name == name && this.modifiers == modifiers
      ensures this.ty == ty && this.initialValue == initialValue
      ensures readCount == 0 && writeCount == 0 && live == multiset{}
    {
      this.offset := offset;
      this.name := name;
      this.modifiers := modifiers;
      this.ty := ty;
      this.initialValue := initialValue;
      readCount := 0;
      writeCount := 0;
      live := multiset{};
    }
  }

  /** The operator tokens binary, prefix and postfix expressions use. */
  datatype Operator =
    | Plus | Minus | Star | Slash | Percent | Shl | Shr
    | LogicalAnd | LogicalOr | LogicalXor | LogicalNot
    | BitwiseAnd | BitwiseOr | BitwiseXor | BitwiseNot
    | Lt | Gt | LtEq | GtEq | EqEq | NEq | Comma
    | Eq | PlusEq | MinusEq | StarEq | SlashEq | PercentEq | ShlEq | ShrEq
    | BitwiseAndEq | BitwiseOrEq | BitwiseXorEq | LogicalAndEq | LogicalOrEq | LogicalXorEq
    | PlusPlus | MinusMinus

  /** `Compiler::IsAssignment`: `=` and every compound assignment. */
  predicate IsAssignment(op: Operator) {
    op in {Eq, PlusEq, MinusEq, StarEq, SlashEq, PercentEq, ShlEq, ShrEq,
           BitwiseAndEq, BitwiseOrEq, BitwiseXorEq, LogicalAndEq, LogicalOrEq, LogicalXorEq}
  }

  /** `Compiler::OperatorName`: the operator's source text. */
  function OperatorName(op: Operator): string {
    match op
    case Plus => "+" case Minus => "-" case Star => "*" case Slash => "/" case Percent => "%"
    case Shl => "<<" case Shr => ">>"
    case LogicalAnd => "&&" case LogicalOr => "||" case LogicalXor => "^^" case LogicalNot => "!"
    case BitwiseAnd => "&" case BitwiseOr => "|" case BitwiseXor => "^" case BitwiseNot => "~"
    case Lt => "<" case Gt => ">" case LtEq => "<=" case GtEq => ">=" case EqEq => "==" case NEq => "!="
    case Comma => ","
    case Eq => "=" case PlusEq => "+=" case MinusEq => "-=" case StarEq => "*=" case SlashEq => "/="
    case PercentEq => "%=" case ShlEq => "<<=" case ShrEq => ">>="
    case BitwiseAndEq => "&=" case BitwiseOrEq => "|=" case BitwiseXorEq => "^="
    case LogicalAndEq => "&&=" case LogicalOrEq => "||=" case LogicalXorEq => "^^="
    case PlusPlus => "++" case MinusMinus => "--"
  }

  /**
   * A function declaration. `isBuiltin` is `fBuiltin`; `modifiers.isInline` is the
   * `inline` flag; `callCount` is `fCallCount`.
   */
  datatype FunctionDeclaration = FunctionDeclaration(name: string, isBuiltin: bool, modifiers: Modifiers,
                                                     returnType: Type, parameters: seq<Variable>,
                                                     callCount: nat)

  function ParameterTypes(f: FunctionDeclaration): seq<Type> {
    seq(|f.parameters|, i requires 0 <= i < |f.parameters| => f.parameters[i].ty)
  }

  /** `FunctionDeclaration::matches`: same name and same parameter types. */
  predicate Matches(f: FunctionDeclaration, g: FunctionDeclaration) {
    f.name == g.name && ParameterTypes(f) == ParameterTypes(g)
  }

  /** An expression: its source offset, its type and its kind-specific fields. */
  datatype Expr = Expr(offset: int, ty: Type, node: ExprNode)

  datatype ExprNode =
    | Binary(left: Expr, op: Operator, right: Expr)
    | BoolLiteral(boolValue: bool)
    | Constructor(arguments: seq<Expr>)
    | Defined
    | ExternalFunctionCall(externalName: string, arguments: seq<Expr>)
    | ExternalValue(externalName: string)
    | FieldAccess(base: Expr, fieldIndex: nat)
    | FloatLiteral(floatValue: real)
    | FunctionCall(callee: FunctionDeclaration, arguments: seq<Expr>)
    | FunctionReference
    | Index(base: Expr, index: Expr)
    | IntLiteral(intValue: int)
    | NullLiteral
    | Postfix(operand: Expr, op: Operator)
    | Prefix(op: Operator, operand: Expr)
    | Setting(settingName: string, value: Expr)
    | Swizzle(base: Expr, components: seq<nat>)
    | Ternary(test: Expr, ifTrue: Expr, ifFalse: Expr)
    | TypeReference
    | VariableReference(variable: Variable, refKind: RefKind)

  datatype Statement =
    | Block(statements: seq<Statement>, isScope: bool, hasSymbols: bool)
    | Break
    | Continue
    | Discard
    | Do(body: Statement, test: Expr)
    | ExpressionStatement(expression: Expr)
    | For(initializer: Option<Statement>, forTest: Option<Expr>, next: Option<Expr>, body: Statement,
          hasSymbols: bool)
    | If(isStatic: bool, test: Expr, ifTrue: Statement, ifFalse: Option<Statement>)
    | InlineMarker(marked: FunctionDeclaration)
    | Nop
    | Return(returned: Option<Expr>)
    | Switch(isStatic: bool, value: Expr, cases: seq<SwitchCase>, hasSymbols: bool)
    | VarDeclaration(variable: Variable, baseType: Type, sizes: seq<Option<Expr>>, declValue: Option<Expr>)
    | VarDeclarations(declarations: VarDecls)
    | While(test: Expr, body: Statement)

  datatype SwitchCase = SwitchCase(caseValue: Option<Expr>, caseStatements: seq<Statement>)

  /** A `VarDeclarations` element: one `VarDeclaration` statement per declared variable. */
  datatype VarDecls = VarDecls(offset: int, baseType: Type, vars: seq<Statement>)

  datatype FunctionDefinition = FunctionDefinition(declaration: FunctionDeclaration, body: Statement)

  datatype ProgramElement =
    | Enum
    | Extension
    | ModifiersElement
    | Section
    | Function(definition: FunctionDefinition)
    | InterfaceBlock(sizes: seq<Expr>)
    | Var(decls: VarDecls)

  datatype Program = Program(elements: seq<ProgramElement>)

  /** A node the default traversal reaches. */
  datatype Node = NE(expr: Expr) | NS(stmt: Statement) | NP(element: ProgramElement)

  /**
   * The nodes `ProgramVisitor::visitExpression` reaches from `e`, in visiting order: `e`
   * itself, then its children left to right. Leaf kinds, including field access and
   * setting, have no visited children.
   */
  function ExprNodes(e: Expr): seq<Node>
    decreases e, 1
  {
    [NE(e)] + ExprChildNodes(e)
  }

  /** The nodes the default `visitExpression` reaches below `e`: its children left to right. */
  function ExprChildNodes(e: Expr): seq<Node>
    decreases e, 0
  {
    match e.node
    case Binary(l, _, rt) => ExprNodes(l) + ExprNodes(rt)
    case Constructor(args) => ExprListNodes(args)
    case ExternalFunctionCall(_, args) => ExprListNodes(args)
    case FunctionCall(_, args) => ExprListNodes(args)
    case Index(b, i) => ExprNodes(b) + ExprNodes(i)
    case Postfix(o, _) => ExprNodes(o)
    case Prefix(_, o) => ExprNodes(o)
    case Swizzle(b, _) => ExprNodes(b)
    case Ternary(t, a, b) => ExprNodes(t) + ExprNodes(a) + ExprNodes(b)
    case _ => []
  }

  function ExprListNodes(es: seq<Expr>): seq<Node> {
    if es == [] then [] else ExprNodes(es[0]) + ExprListNodes(es[1..])
  }

  function OptExprNodes(o: Option<Expr>): seq<Node> {
    match o
    case None => []
    case Some(e) => ExprNodes(e)
  }

  function OptExprListNodes(os: seq<Option<Expr>>): seq<Node> {
    if os == [] then [] else OptExprNodes(os[0]) + OptExprListNodes(os[1..])
  }

  /**
   * The nodes `ProgramVisitor::visitStatement` reaches from `s`, in visiting order. Absent
   * optional children contribute nothing. A declarations statement reaches its
   * declarations element, then the element's variable declarations.
   */
  function StmtNodes(s: Statement): seq<Node>
    decreases s, 1
  {
    [NS(s)] + StmtChildNodes(s)
  }

  /** The nodes the default `visitStatement` reaches below `s`. */
  function StmtChildNodes(s: Statement): seq<Node>
    decreases s, 0
  {
    match s
    case Block(ss, _, _) => StmtListNodes(ss)
    case Do(body, test) => ExprNodes(test) + StmtNodes(body)
    case ExpressionStatement(e) => ExprNodes(e)
    case For(init, test, next, body, _) => OptStmtNodes(init) + OptExprNodes(test) + OptExprNodes(next) + StmtNodes(body)
    case If(_, test, t, f) => ExprNodes(test) + StmtNodes(t) + OptStmtNodes(f)
    case Return(e) => OptExprNodes(e)
    case Switch(_, v, cases, _) => ExprNodes(v) + CaseListNodes(cases)
    case VarDeclaration(_, _, sizes, value) => OptExprListNodes(sizes) + OptExprNodes(value)
    case VarDeclarations(d) => [NP(Var(d))] + StmtListNodes(d.vars)
    case While(test, body) => ExprNodes(test) + StmtNodes(body)
    case _ => []
  }

  function StmtListNodes(ss: seq<Statement>): seq<Node> {
    if ss == [] then [] else StmtNodes(ss[0]) + StmtListNodes(ss[1..])
  }

  function OptStmtNodes(o: Option<Statement>): seq<Node> {
    match o
    case None => []
    case Some(s) => StmtNodes(s)
  }

  function CaseListNodes(cs: seq<SwitchCase>): seq<Node> {
    if cs == [] then [] else OptExprNodes(cs[0].caseValue) + StmtListNodes(cs[0].caseStatements) + CaseListNodes(cs[1..])
  }

  /** The nodes `ProgramVisitor::visitProgramElement` reaches from `pe`, in visiting order. */
  function ElementNodes(pe: ProgramElement): seq<Node> {
    [NP(pe)] + ElementChildNodes(pe)
  }

  /** The nodes the default `visitProgramElement` reaches below `pe`. */
  function ElementChildNodes(pe: ProgramElement): seq<Node> {
    match pe
    case Function(def) => StmtNodes(def.body)
    case InterfaceBlock(sizes) => ExprListNodes(sizes)
    case Var(d) => StmtListNodes(d.vars)
    case _ => []
  }

  function ElementListNodes(pes: seq<ProgramElement>): seq<Node> {
    if pes == [] then [] else ElementNodes(pes[0]) + ElementListNodes(pes[1..])
  }

  /** The nodes `ProgramVisitor::visit(program)` reaches when no visit returns true. */
  function ProgramNodes(p: Program): seq<Node> {
    ElementListNodes(p.elements)
  }

  lemma {:induction false} ExprListNodesAppend(es: seq<Expr>, e: Expr)
    ensures ExprListNodes(es + [e]) == ExprListNodes(es) + ExprNodes(e)
  {
    if es == [] {
      assert es + [e] == [e];
    } else {
      assert (es + [e])[1..] == es[1..] + [e];
      ExprListNodesAppend(es[1..], e);
      var h, t, n := ExprNodes(es[0]), ExprListNodes(es[1..]), ExprNodes(e);
      assert ExprListNodes(es + [e]) == h + (t + n);
      assert h + (t + n) == h + t + n;
    }
  }

  lemma {:induction false} StmtListNodesAppend(ss: seq<Statement>, s: Statement)
    ensures StmtListNodes(ss + [s]) == StmtListNodes(ss) + StmtNodes(s)
  {
    if ss == [] {
      assert ss + [s] == [s];
    } else {
      assert (ss + [s])[1..] == ss[1..] + [s];
      StmtListNodesAppend(ss[1..], s);
      var h, t, n := StmtNodes(ss[0]), StmtListNodes(ss[1..]), StmtNodes(s);
      assert StmtListNodes(ss + [s]) == h + (t + n);
      assert h + (t + n) == h + t + n;
    }
  }

  lemma {:induction false} OptExprListNodesAppend(os: seq<Option<Expr>>, o: Option<Expr>)
    ensures OptExprListNodes(os + [o]) == OptExprListNodes(os) + OptExprNodes(o)
  {
    if os == [] {
      assert os + [o] == [o];
    } else {
      assert (os + [o])[1..] == os[1..] + [o];
      OptExprListNodesAppend(os[1..], o);
      var h, t, n := OptExprNodes(os[0]), OptExprListNodes(os[1..]), OptExprNodes(o);
      assert OptExprListNodes(os + [o]) == h + (t + n);
      assert h + (t + n) == h + t + n;
    }
  }

  lemma {:induction false} ConcatAssoc<T>(a: seq<T>, b: seq<T>, c: seq<T>)
    ensures a + (b + c) == a + b + c
  {
  }

  lemma {:induction false} CaseListNodesAppend(cs: seq<SwitchCase>, c: SwitchCase)
    ensures CaseListNodes(cs + [c]) == CaseListNodes(cs) + OptExprNodes(c.caseValue) + StmtListNodes(c.caseStatements)
  {
    if cs == [] {
      assert cs + [c] == [c];
    } else {
      assert (cs + [c])[1..] == cs[1..] + [c];
      CaseListNodesAppend(cs[1..], c);
      var h, t := OptExprNodes(cs[0].caseValue) + StmtListNodes(cs[0].caseStatements), CaseListNodes(cs[1..]);
      var a, b := OptExprNodes(c.caseValue), StmtListNodes(c.caseStatements);
      assert CaseListNodes(cs + [c]) == h + ((t + a) + b);
      ConcatAssoc(h, t + a, b);
      ConcatAssoc(h, t, a);
    }
  }

  lemma {:induction false} ElementListNodesAppend(pes: seq<ProgramElement>, pe: ProgramElement)
    ensures ElementListNodes(pes + [pe]) == ElementListNodes(pes) + ElementNodes(pe)
  {
    if pes == [] {
      assert pes + [pe] == [pe];
    } else {
      assert (pes + [pe])[1..] == pes[1..] + [pe];
      ElementListNodesAppend(pes[1..], pe);
      var h, t, n := ElementNodes(pes[0]), ElementListNodes(pes[1..]), ElementNodes(pe);
      assert ElementListNodes(pes + [pe]) == h + (t + n);
      assert h + (t + n) == h + t + n;
    }
  }
}
