/**
 * `Analysis`: questions answered by walking a program, a statement or a function body
 * with a `ProgramVisitor`.
 *
 * The default traversal is the list of nodes `SkslIR` defines (`ExprNodes`, `StmtNodes`,
 * `ElementNodes`). A visitor that only answers yes or no becomes a function: the default
 * traversal with a test on expressions, proved to hold iff some expression the traversal
 * reaches passes the test. A visitor that accumulates becomes a class whose visit methods
 * update its field, proved to add exactly what the traversal's node list implies.
 */
module SkslAnalysis {
  import opened Wrappers
  import opened SkslIR
  import opened SkslExpressions

  /** A node the traversal reaches that is an expression passing `hit`. */
  predicate IsHit(n: Node, hit: Expr -> bool) {
    n.NE? && hit(n.expr)
  }

  predicate AnyHit(ns: seq<Node>, hit: Expr -> bool) {
    exists n :: n in ns && IsHit(n, hit)
  }

  lemma {:induction false} AnyHitAppend(a: seq<Node>, b: seq<Node>, hit: Expr -> bool)
    ensures AnyHit(a + b, hit) <==> AnyHit(a, hit) || AnyHit(b, hit)
  {
    if AnyHit(a + b, hit) {
      var n :| n in a + b && IsHit(n, hit);
    }
    if AnyHit(a, hit) {
      var n :| n in a && IsHit(n, hit);
      assert n in a + b;
    }
    if AnyHit(b, hit) {
      var n :| n in b && IsHit(n, hit);
      assert n in a + b;
    }
  }

  lemma {:induction false} AnyHitCons(n: Node, rest: seq<Node>, hit: Expr -> bool)
    ensures AnyHit([n] + rest, hit) <==> IsHit(n, hit) || AnyHit(rest, hit)
  {
    AnyHitAppend([n], rest, hit);
    if IsHit(n, hit) {
      assert n in [n];
    }
  }

  lemma {:induction false} AnyHitEmpty(hit: Expr -> bool)
    ensures !AnyHit([], hit)
  {
  }

  /**
   * `ProgramVisitor::visitExpression` of a visitor whose expression visit returns true on
   * an expression passing `hit` and defers to the default otherwise. The default returns
   * true iff a child's visit does, trying the children left to right and stopping at
   * the first; leaf kinds return false.
   */
  predicate VisitExpr(e: Expr, hit: Expr -> bool) {
    hit(e) ||
    match e.node
    case Binary(l, _, r) => VisitExpr(l, hit) || VisitExpr(r, hit)
    case Constructor(args) => VisitExprs(args, hit)
    case ExternalFunctionCall(_, args) => VisitExprs(args, hit)
    case FunctionCall(_, args) => VisitExprs(args, hit)
    case Index(b, i) => VisitExpr(b, hit) || VisitExpr(i, hit)
    case Postfix(o, _) => VisitExpr(o, hit)
    case Prefix(_, o) => VisitExpr(o, hit)
    case Swizzle(b, _) => VisitExpr(b, hit)
    case Ternary(t, a, b) => VisitExpr(t, hit) || VisitExpr(a, hit) || VisitExpr(b, hit)
    case _ => false
  }

  predicate VisitExprs(es: seq<Expr>, hit: Expr -> bool) {
    es != [] && (VisitExpr(es[0], hit) || VisitExprs(es[1..], hit))
  }

  /** An absent optional child is skipped. */
  predicate VisitOptExpr(o: Option<Expr>, hit: Expr -> bool) {
    o.Some? && VisitExpr(o.value, hit)
  }

  predicate VisitOptExprs(os: seq<Option<Expr>>, hit: Expr -> bool) {
    os != [] && (VisitOptExpr(os[0], hit) || VisitOptExprs(os[1..], hit))
  }

  /** `ProgramVisitor::visitStatement` with the same expression visit. */
  predicate VisitStmt(s: Statement, hit: Expr -> bool) {
    match s
    case Block(ss, _, _) => VisitStmts(ss, hit)
    case Do(body, test) => VisitExpr(test, hit) || VisitStmt(body, hit)
    case ExpressionStatement(e) => VisitExpr(e, hit)
    case For(init, test, next, body, _) =>
      VisitOptStmt(init, hit) || VisitOptExpr(test, hit) || VisitOptExpr(next, hit) || VisitStmt(body, hit)
    case If(_, test, t, f) => VisitExpr(test, hit) || VisitStmt(t, hit) || VisitOptStmt(f, hit)
    case Return(e) => VisitOptExpr(e, hit)
    case Switch(_, v, cases, _) => VisitExpr(v, hit) || VisitCases(cases, hit)
    case VarDeclaration(_, _, sizes, value) => VisitOptExprs(sizes, hit) || VisitOptExpr(value, hit)
    case VarDeclarations(d) => VisitStmts(d.vars, hit)
    case While(test, body) => VisitExpr(test, hit) || VisitStmt(body, hit)
    case _ => false
  }

  predicate VisitStmts(ss: seq<Statement>, hit: Expr -> bool) {
    ss != [] && (VisitStmt(ss[0], hit) || VisitStmts(ss[1..], hit))
  }

  predicate VisitOptStmt(o: Option<Statement>, hit: Expr -> bool) {
    o.Some? && VisitStmt(o.value, hit)
  }

  /** Each case: its value if present, then its statements; the cases in order. */
  predicate VisitCases(cs: seq<SwitchCase>, hit: Expr -> bool) {
    cs != [] &&
    (VisitOptExpr(cs[0].caseValue, hit) || VisitStmts(cs[0].caseStatements, hit) || VisitCases(cs[1..], hit))
  }

  /** `ProgramVisitor::visitProgramElement` with the same expression visit. */
  predicate VisitElement(pe: ProgramElement, hit: Expr -> bool) {
    match pe
    case Function(def) => VisitStmt(def.body, hit)
    case InterfaceBlock(sizes) => VisitExprs(sizes, hit)
    case Var(d) => VisitStmts(d.vars, hit)
    case _ => false
  }

  /** `ProgramVisitor::visit(program)`: the elements in order, stopping at the first that returns true. */
  predicate VisitElements(pes: seq<ProgramElement>, hit: Expr -> bool) {
    pes != [] && (VisitElement(pes[0], hit) || VisitElements(pes[1..], hit))
  }

  /** The visit of an expression returns true iff some expression it reaches passes the test. */
  lemma {:induction false} VisitExprReaches(e: Expr, hit: Expr -> bool)
    ensures VisitExpr(e, hit) == AnyHit(ExprNodes(e), hit)
  {
    AnyHitCons(NE(e), ExprChildNodes(e), hit);
    match e.node
    case Binary(l, _, r) =>
      VisitExprReaches(l, hit); VisitExprReaches(r, hit);
      AnyHitAppend(ExprNodes(l), ExprNodes(r), hit);
    case Constructor(args) => VisitExprsReaches(args, hit);
    case ExternalFunctionCall(_, args) => VisitExprsReaches(args, hit);
    case FunctionCall(_, args) => VisitExprsReaches(args, hit);
    case Index(b, i) =>
      VisitExprReaches(b, hit); VisitExprReaches(i, hit);
      AnyHitAppend(ExprNodes(b), ExprNodes(i), hit);
    case Postfix(o, _) => VisitExprReaches(o, hit);
    case Prefix(_, o) => VisitExprReaches(o, hit);
    case Swizzle(b, _) => VisitExprReaches(b, hit);
    case Ternary(t, a, b) =>
      VisitExprReaches(t, hit); VisitExprReaches(a, hit); VisitExprReaches(b, hit);
      AnyHitAppend(ExprNodes(t), ExprNodes(a), hit);
      AnyHitAppend(ExprNodes(t) + ExprNodes(a), ExprNodes(b), hit);
    case _ =>
      AnyHitEmpty(hit);
  }

  lemma {:induction false} VisitExprsReaches(es: seq<Expr>, hit: Expr -> bool)
    ensures VisitExprs(es, hit) == AnyHit(ExprListNodes(es), hit)
  {
    if es == [] {
      AnyHitEmpty(hit);
    } else {
      VisitExprReaches(es[0], hit);
      VisitExprsReaches(es[1..], hit);
      AnyHitAppend(ExprNodes(es[0]), ExprListNodes(es[1..]), hit);
    }
  }

  lemma {:induction false} VisitOptExprReaches(o: Option<Expr>, hit: Expr -> bool)
    ensures VisitOptExpr(o, hit) == AnyHit(OptExprNodes(o), hit)
  {
    if o.Some? {
      VisitExprReaches(o.value, hit);
    } else {
      AnyHitEmpty(hit);
    }
  }

  lemma {:induction false} VisitOptExprsReaches(os: seq<Option<Expr>>, hit: Expr -> bool)
    ensures VisitOptExprs(os, hit) == AnyHit(OptExprListNodes(os), hit)
  {
    if os == [] {
      AnyHitEmpty(hit);
    } else {
      VisitOptExprReaches(os[0], hit);
      VisitOptExprsReaches(os[1..], hit);
      AnyHitAppend(OptExprNodes(os[0]), OptExprListNodes(os[1..]), hit);
    }
  }

  /** The visit of a statement returns true iff some expression it reaches passes the test. */
  lemma {:induction false} VisitStmtReaches(s: Statement, hit: Expr -> bool)
    ensures VisitStmt(s, hit) == AnyHit(StmtNodes(s), hit)
  {
    AnyHitCons(NS(s), StmtChildNodes(s), hit);
    match s
    case Block(ss, _, _) => VisitStmtsReaches(ss, hit);
    case Do(body, test) =>
      VisitExprReaches(test, hit); VisitStmtReaches(body, hit);
      AnyHitAppend(ExprNodes(test), StmtNodes(body), hit);
    case ExpressionStatement(e) => VisitExprReaches(e, hit);
    case For(init, test, next, body, _) =>
      VisitOptStmtReaches(init, hit); VisitOptExprReaches(test, hit);
      VisitOptExprReaches(next, hit); VisitStmtReaches(body, hit);
      var a, b, c := OptStmtNodes(init), OptExprNodes(test), OptExprNodes(next);
      AnyHitAppend(a, b, hit);
      AnyHitAppend(a + b, c, hit);
      AnyHitAppend(a + b + c, StmtNodes(body), hit);
    case If(_, test, t, f) =>
      VisitExprReaches(test, hit); VisitStmtReaches(t, hit); VisitOptStmtReaches(f, hit);
      AnyHitAppend(ExprNodes(test), StmtNodes(t), hit);
      AnyHitAppend(ExprNodes(test) + StmtNodes(t), OptStmtNodes(f), hit);
    case Return(e) => VisitOptExprReaches(e, hit);
    case Switch(_, v, cases, _) =>
      VisitExprReaches(v, hit); VisitCasesReaches(cases, hit);
      AnyHitAppend(ExprNodes(v), CaseListNodes(cases), hit);
    case VarDeclaration(_, _, sizes, value) =>
      VisitOptExprsReaches(sizes, hit); VisitOptExprReaches(value, hit);
      AnyHitAppend(OptExprListNodes(sizes), OptExprNodes(value), hit);
    case VarDeclarations(d) =>
      VisitStmtsReaches(d.vars, hit);
      AnyHitCons(NP(Var(d)), StmtListNodes(d.vars), hit);
    case While(test, body) =>
      VisitExprReaches(test, hit); VisitStmtReaches(body, hit);
      AnyHitAppend(ExprNodes(test), StmtNodes(body), hit);
    case _ =>
      AnyHitEmpty(hit);
  }

  lemma {:induction false} VisitStmtsReaches(ss: seq<Statement>, hit: Expr -> bool)
    ensures VisitStmts(ss, hit) == AnyHit(StmtListNodes(ss), hit)
  {
    if ss == [] {
      AnyHitEmpty(hit);
    } else {
      VisitStmtReaches(ss[0], hit);
      VisitStmtsReaches(ss[1..], hit);
      AnyHitAppend(StmtNodes(ss[0]), StmtListNodes(ss[1..]), hit);
    }
  }

  lemma {:induction false} VisitOptStmtReaches(o: Option<Statement>, hit: Expr -> bool)
    ensures VisitOptStmt(o, hit) == AnyHit(OptStmtNodes(o), hit)
  {
    if o.Some? {
      VisitStmtReaches(o.value, hit);
    } else {
      AnyHitEmpty(hit);
    }
  }

  lemma {:induction false} VisitCasesReaches(cs: seq<SwitchCase>, hit: Expr -> bool)
    ensures VisitCases(cs, hit) == AnyHit(CaseListNodes(cs), hit)
  {
    if cs == [] {
      AnyHitEmpty(hit);
    } else {
      VisitOptExprReaches(cs[0].caseValue, hit);
      VisitStmtsReaches(cs[0].caseStatements, hit);
      VisitCasesReaches(cs[1..], hit);
      var a, b := OptExprNodes(cs[0].caseValue), StmtListNodes(cs[0].caseStatements);
      AnyHitAppend(a, b, hit);
      AnyHitAppend(a + b, CaseListNodes(cs[1..]), hit);
    }
  }

  lemma {:induction false} VisitElementReaches(pe: ProgramElement, hit: Expr -> bool)
    ensures VisitElement(pe, hit) == AnyHit(ElementNodes(pe), hit)
  {
    AnyHitCons(NP(pe), ElementChildNodes(pe), hit);
    match pe
    case Function(def) => VisitStmtReaches(def.body, hit);
    case InterfaceBlock(sizes) => VisitExprsReaches(sizes, hit);
    case Var(d) => VisitStmtsReaches(d.vars, hit);
    case _ => AnyHitEmpty(hit);
  }

  /** The visit of a program returns true iff some expression in it passes the test. */
  lemma {:induction false} VisitElementsReaches(pes: seq<ProgramElement>, hit: Expr -> bool)
    ensures VisitElements(pes, hit) == AnyHit(ElementListNodes(pes), hit)
  {
    if pes == [] {
      AnyHitEmpty(hit);
    } else {
      VisitElementReaches(pes[0], hit);
      VisitElementsReaches(pes[1..], hit);
      AnyHitAppend(ElementNodes(pes[0]), ElementListNodes(pes[1..]), hit);
    }
  }

  /** `BuiltinVariableVisitor`'s test: a reference to a variable with layout builtin `builtin`. */
  function IsBuiltinReference(builtin: int): Expr -> bool {
    (e: Expr) => e.node.VariableReference? && e.node.variable.modifiers.builtin == builtin
  }

  /** `Analysis::ReferencesBuiltin`. */
  predicate ReferencesBuiltin(p: Program, builtin: int) {
    VisitElements(p.elements, IsBuiltinReference(builtin))
  }

  /** A program references a builtin iff some variable reference in it has that layout builtin. */
  lemma {:induction false} ReferencesBuiltinIff(p: Program, builtin: int)
    ensures ReferencesBuiltin(p, builtin) <==>
            exists n :: n in ProgramNodes(p) && n.NE? && n.expr.node.VariableReference? &&
                        n.expr.node.variable.modifiers.builtin == builtin
  {
    VisitElementsReaches(p.elements, IsBuiltinReference(builtin));
  }

  /** `VariableWriteVisitor`'s test: a reference to exactly `v` that may write it. */
  function IsWriteTo(v: Variable): Expr -> bool {
    (e: Expr) => e.node.VariableReference? && e.node.variable == v && e.node.refKind in {Write, ReadWrite, Pointer}
  }

  /** `Analysis::StatementWritesToVariable`. */
  predicate StatementWritesToVariable(s: Statement, v: Variable) {
    VisitStmt(s, IsWriteTo(v))
  }

  /**
   * A statement writes a variable iff it holds a reference to that very variable of
   * kind Write, ReadWrite or Pointer; read references never count.
   */
  lemma {:induction false} StatementWritesToVariableIff(s: Statement, v: Variable)
    ensures StatementWritesToVariable(s, v) <==>
            exists n :: n in StmtNodes(s) && n.NE? && n.expr.node.VariableReference? &&
                        n.expr.node.variable == v && n.expr.node.refKind != Read
  {
    VisitStmtReaches(s, IsWriteTo(v));
  }

  /**
   * `NodeCountVisitor`: counts every statement, expression and program element its
   * visits reach. Its visits never return true, so it reaches every node.
   */
  class NodeCountVisitor {
    var count: int

    constructor ()
      ensures count == 0
    {
      count := 0;
    }

    /** `visit(statement)`: the count starts over at 0. */
    method Visit(s: Statement) returns (n: int)
      modifies this
      ensures n == count == |StmtNodes(s)|
    {
      count := 0;
      var stop := VisitStatement(s);
      n := count;
    }

    method VisitExpression(e: Expr) returns (stop: bool)
      modifies this
      ensures count == old(count) + |ExprNodes(e)| && !stop
    {
      count := count + 1;
      match e.node {
        case Binary(l, _, r) =>
          assert ExprChildNodes(e) == ExprNodes(l) + ExprNodes(r);
          stop := VisitExpression(l);
          if !stop {
            stop := VisitExpression(r);
          }
        case Constructor(args) =>
          assert ExprChildNodes(e) == ExprListNodes(args);
          stop := VisitExpressions(args);
        case ExternalFunctionCall(_, args) =>
          assert ExprChildNodes(e) == ExprListNodes(args);
          stop := VisitExpressions(args);
        case FunctionCall(_, args) =>
          assert ExprChildNodes(e) == ExprListNodes(args);
          stop := VisitExpressions(args);
        case Index(b, i) =>
          assert ExprChildNodes(e) == ExprNodes(b) + ExprNodes(i);
          stop := VisitExpression(b);
          if !stop {
            stop := VisitExpression(i);
          }
        case Postfix(o, _) =>
          assert ExprChildNodes(e) == ExprNodes(o);
          stop := VisitExpression(o);
        case Prefix(_, o) =>
          assert ExprChildNodes(e) == ExprNodes(o);
          stop := VisitExpression(o);
        case Swizzle(b, _) =>
          assert ExprChildNodes(e) == ExprNodes(b);
          stop := VisitExpression(b);
        case Ternary(t, a, b) =>
          assert ExprChildNodes(e) == ExprNodes(t) + ExprNodes(a) + ExprNodes(b);
          stop := VisitExpression(t);
          if !stop {
            stop := VisitExpression(a);
          }
          if !stop {
            stop := VisitExpression(b);
          }
        case _ =>
          assert ExprChildNodes(e) == [];
          stop := false;
      }
    }

    /** The loop over arguments (or interface-block sizes), stopping at the first visit that returns true. */
    method VisitExpressions(es: seq<Expr>) returns (stop: bool)
      modifies this
      ensures count == old(count) + |ExprListNodes(es)| && !stop
    {
      stop := false;
      var i := 0;
      while i < |es| && !stop
        invariant 0 <= i <= |es| && !stop
        invariant count == old(count) + |ExprListNodes(es[..i])|
      {
        ExprListNodesAppend(es[..i], es[i]);
        assert es[..i + 1] == es[..i] + [es[i]];
        stop := VisitExpression(es[i]);
        i := i + 1;
      }
      assert es[..|es|] == es;
    }

    method VisitOptExpression(o: Option<Expr>) returns (stop: bool)
      modifies this
      ensures count == old(count) + |OptExprNodes(o)| && !stop
    {
      stop := false;
      if o.Some? {
        stop := VisitExpression(o.value);
      }
    }

    method VisitOptExpressions(os: seq<Option<Expr>>) returns (stop: bool)
      modifies this
      ensures count == old(count) + |OptExprListNodes(os)| && !stop
    {
      stop := false;
      var i := 0;
      while i < |os| && !stop
        invariant 0 <= i <= |os| && !stop
        invariant count == old(count) + |OptExprListNodes(os[..i])|
      {
        OptExprListNodesAppend(os[..i], os[i]);
        assert os[..i + 1] == os[..i] + [os[i]];
        stop := VisitOptExpression(os[i]);
        i := i + 1;
      }
      assert os[..|os|] == os;
    }

    method VisitStatement(s: Statement) returns (stop: bool)
      modifies this
      ensures count == old(count) + |StmtNodes(s)| && !stop
    {
      count := count + 1;
      match s {
        case Block(ss, _, _) =>
          assert StmtChildNodes(s) == StmtListNodes(ss);
          stop := VisitStatements(ss);
        case Do(body, test) =>
          assert StmtChildNodes(s) == ExprNodes(test) + StmtNodes(body);
          stop := VisitExpression(test);
          if !stop {
            stop := VisitStatement(body);
          }
        case ExpressionStatement(e) =>
          assert StmtChildNodes(s) == ExprNodes(e);
          stop := VisitExpression(e);
        case For(init, test, next, body, _) =>
          assert StmtChildNodes(s) == OptStmtNodes(init) + OptExprNodes(test) + OptExprNodes(next) + StmtNodes(body);
          stop := VisitOptStatement(init);
          if !stop {
            stop := VisitOptExpression(test);
          }
          if !stop {
            stop := VisitOptExpression(next);
          }
          if !stop {
            stop := VisitStatement(body);
          }
        case If(_, test, t, f) =>
          assert StmtChildNodes(s) == ExprNodes(test) + StmtNodes(t) + OptStmtNodes(f);
          stop := VisitExpression(test);
          if !stop {
            stop := VisitStatement(t);
          }
          if !stop {
            stop := VisitOptStatement(f);
          }
        case Return(e) =>
          assert StmtChildNodes(s) == OptExprNodes(e);
          stop := VisitOptExpression(e);
        case Switch(_, v, cases, _) =>
          assert StmtChildNodes(s) == ExprNodes(v) + CaseListNodes(cases);
          stop := VisitExpression(v);
          if !stop {
            stop := VisitCases(cases);
          }
        case VarDeclaration(_, _, sizes, value) =>
          assert StmtChildNodes(s) == OptExprListNodes(sizes) + OptExprNodes(value);
          stop := VisitOptExpressions(sizes);
          if !stop {
            stop := VisitOptExpression(value);
          }
        case VarDeclarations(d) =>
          assert StmtChildNodes(s) == [NP(Var(d))] + StmtListNodes(d.vars);
          stop := VisitVarDeclarations(d);
        case While(test, body) =>
          assert StmtChildNodes(s) == ExprNodes(test) + StmtNodes(body);
          stop := VisitExpression(test);
          if !stop {
            stop := VisitStatement(body);
          }
        case _ =>
          assert StmtChildNodes(s) == [];
          stop := false;
      }
    }

    /** The loop over a block's statements (or a case's), stopping at the first that returns true. */
    method VisitStatements(ss: seq<Statement>) returns (stop: bool)
      modifies this
      ensures count == old(count) + |StmtListNodes(ss)| && !stop
    {
      stop := false;
      var i := 0;
      while i < |ss| && !stop
        invariant 0 <= i <= |ss| && !stop
        invariant count == old(count) + |StmtListNodes(ss[..i])|
      {
        StmtListNodesAppend(ss[..i], ss[i]);
        assert ss[..i + 1] == ss[..i] + [ss[i]];
        stop := VisitStatement(ss[i]);
        i := i + 1;
      }
      assert ss[..|ss|] == ss;
    }

    method VisitOptStatement(o: Option<Statement>) returns (stop: bool)
      modifies this
      ensures count == old(count) + |OptStmtNodes(o)| && !stop
    {
      stop := false;
      if o.Some? {
        stop := VisitStatement(o.value);
      }
    }

    method VisitCases(cs: seq<SwitchCase>) returns (stop: bool)
      modifies this
      ensures count == old(count) + |CaseListNodes(cs)| && !stop
    {
      stop := false;
      var i := 0;
      while i < |cs| && !stop
        invariant 0 <= i <= |cs| && !stop
        invariant count == old(count) + |CaseListNodes(cs[..i])|
      {
        CaseListNodesAppend(cs[..i], cs[i]);
        assert cs[..i + 1] == cs[..i] + [cs[i]];
        stop := VisitOptExpression(cs[i].caseValue);
        if !stop {
          stop := VisitStatements(cs[i].caseStatements);
        }
        i := i + 1;
      }
      assert cs[..|cs|] == cs;
    }

    /** `visitProgramElement` on the declarations element a declarations statement holds. */
    method VisitVarDeclarations(d: VarDecls) returns (stop: bool)
      modifies this
      ensures count == old(count) + |ElementNodes(Var(d))| && !stop
    {
      count := count + 1;
      stop := VisitStatements(d.vars);
    }
  }

  /**
   * `Analysis::NodeCount`: the number of statements, expressions and program elements in
   * the function's body, the body included.
   */
  method NodeCount(def: FunctionDefinition) returns (n: int)
    ensures n == |StmtNodes(def.body)| && n >= 1
  {
    var visitor := new NodeCountVisitor();
    n := visitor.Visit(def.body);
  }

  /** `SampleUsage`: how a child processor is sampled at one call site. */
  datatype SampleUsage = Explicit | UniformMatrix(expression: string) | VariableMatrix | PassThrough

  /** `is_sample_call_to_fp`: a call to the builtin `sample` whose first argument references `fp`. */
  predicate IsSampleCallToFp(e: Expr, fp: Variable) {
    e.node.FunctionCall? && e.node.callee.isBuiltin && e.node.callee.name == "sample" &&
    |e.node.arguments| >= 1 && e.node.arguments[0].node.VariableReference? &&
    e.node.arguments[0].node.variable == fp
  }

  /**
   * The usage of one call, decided by its last argument: a float2 is explicit; a float3x3
   * that is constant or uniform and is a variable reference or constructor is a uniform
   * matrix named by its description; any other float3x3 is a variable matrix; anything
   * else passes through.
   */
  function Classify(lastArg: Expr, f: LeafFacts): SampleUsage {
    if lastArg.ty == Float2Type then Explicit
    else if lastArg.ty == Float3x3Type then
      if IsConstantOrUniform(lastArg, f) && (lastArg.node.VariableReference? || lastArg.node.Constructor?) then
        UniformMatrix(Description(lastArg, f))
      else VariableMatrix
    else PassThrough
  }

  /** A uniform-matrix usage only comes from a constant-or-uniform float3x3 reference or constructor, by name. */
  lemma {:induction false} UniformMatrixOnlyFromMatrixValue(lastArg: Expr, f: LeafFacts, d: string)
    ensures Classify(lastArg, f) == UniformMatrix(d) <==>
            lastArg.ty == Float3x3Type && IsConstantOrUniform(lastArg, f) &&
            (lastArg.node.VariableReference? || lastArg.node.Constructor?) && d == Description(lastArg, f)
  {
    assert Float2Type != Float3x3Type;
  }

  /** The usages merged while visiting the nodes `ns` in order: one per sample call to `fp`. */
  function SampleUsages(ns: seq<Node>, fp: Variable, f: LeafFacts): seq<SampleUsage> {
    if ns == [] then [] else NodeUsage(ns[0], fp, f) + SampleUsages(ns[1..], fp, f)
  }

  /** The usage merged at one node: the classification of its last argument if it is a sample call to `fp`. */
  function NodeUsage(n: Node, fp: Variable, f: LeafFacts): seq<SampleUsage> {
    if n.NE? && IsSampleCallToFp(n.expr, fp)
    then [Classify(n.expr.node.arguments[|n.expr.node.arguments| - 1], f)]
    else []
  }

  lemma {:induction false} SampleUsagesAppend(a: seq<Node>, b: seq<Node>, fp: Variable, f: LeafFacts)
    ensures SampleUsages(a + b, fp, f) == SampleUsages(a, fp, f) + SampleUsages(b, fp, f)
  {
    if a == [] {
      assert a + b == b;
    } else {
      assert (a + b)[1..] == a[1..] + b;
      SampleUsagesAppend(a[1..], b, fp, f);
    }
  }

  /** No usage is merged iff the nodes hold no sample call to `fp`. */
  lemma {:induction false} SampleUsagesEmptyIff(ns: seq<Node>, fp: Variable, f: LeafFacts)
    ensures SampleUsages(ns, fp, f) == [] <==> forall n :: n in ns ==> !(n.NE? && IsSampleCallToFp(n.expr, fp))
  {
    if ns != [] {
      SampleUsagesEmptyIff(ns[1..], fp, f);
      assert forall n :: n in ns ==> n == ns[0] || n in ns[1..];
    }
  }

  /** Usages merged over `a` and then over `b` are the usages merged over `a + b`. */
  lemma {:induction false} UsagesGrow(u0: seq<SampleUsage>, a: seq<Node>, b: seq<Node>, u1: seq<SampleUsage>, u2: seq<SampleUsage>,
                   fp: Variable, f: LeafFacts)
    requires u1 == u0 + SampleUsages(a, fp, f)
    requires u2 == u1 + SampleUsages(b, fp, f)
    ensures u2 == u0 + SampleUsages(a + b, fp, f)
  {
    SampleUsagesAppend(a, b, fp, f);
    assert u0 + SampleUsages(a, fp, f) + SampleUsages(b, fp, f) == u0 + (SampleUsages(a, fp, f) + SampleUsages(b, fp, f));
  }

  /** A statement node itself merges no usage: only the expressions below it can. */
  lemma {:induction false} StatementMergesNothing(s: Statement, fp: Variable, f: LeafFacts)
    ensures SampleUsages(StmtNodes(s), fp, f) == SampleUsages(StmtChildNodes(s), fp, f)
  {
    SampleUsagesAppend([NS(s)], StmtChildNodes(s), fp, f);
    assert SampleUsages([NS(s)], fp, f) == [];
  }

  /** Nor does a program element node itself. */
  lemma {:induction false} ElementMergesNothing(pe: ProgramElement, fp: Variable, f: LeafFacts)
    ensures SampleUsages(ElementNodes(pe), fp, f) == SampleUsages(ElementChildNodes(pe), fp, f)
  {
    SampleUsagesAppend([NP(pe)], ElementChildNodes(pe), fp, f);
    assert SampleUsages([NP(pe)], fp, f) == [];
  }

  /**
   * `MergeSampleUsageVisitor`: merges the usage of every sample call to `fp` it reaches,
   * and never stops early. The merged usage is kept as the list of the usages merged, in
   * order.
   */
  class MergeSampleUsageVisitor {
    const fp: Variable
    const facts: LeafFacts
    var usage: seq<SampleUsage>

    constructor (fp: Variable, facts: LeafFacts)
      ensures this.fp == fp && this.facts == facts && usage == []
    {
      this.fp := fp;
      this.facts := facts;
      usage := [];
    }

    /** `visit(program)`: the usage starts over from none. */
    method Visit(p: Program) returns (r: seq<SampleUsage>)
      modifies this
      ensures r == usage == SampleUsages(ProgramNodes(p), fp, facts)
    {
      usage := [];
      var stop := VisitElements(p.elements);
      r := usage;
    }

    /** The loop over the program's elements, stopping at the first visit that returns true. */
    method VisitElements(pes: seq<ProgramElement>) returns (stop: bool)
      modifies this
      ensures usage == old(usage) + SampleUsages(ElementListNodes(pes), fp, facts) && !stop
    {
      stop := false;
      var i := 0;
      while i < |pes| && !stop
        invariant 0 <= i <= |pes| && !stop
        invariant usage == old(usage) + SampleUsages(ElementListNodes(pes[..i]), fp, facts)
      {
        ElementListNodesAppend(pes[..i], pes[i]);
        assert pes[..i + 1] == pes[..i] + [pes[i]];
        ghost var u1 := usage;
        stop := VisitProgramElement(pes[i]);
        UsagesGrow(old(usage), ElementListNodes(pes[..i]), ElementNodes(pes[i]), u1, usage, fp, facts);
        i := i + 1;
      }
      assert pes[..|pes|] == pes;
    }

    method VisitProgramElement(pe: ProgramElement) returns (stop: bool)
      modifies this
      ensures usage == old(usage) + SampleUsages(ElementNodes(pe), fp, facts) && !stop
    {
      ElementMergesNothing(pe, fp, facts);
      match pe {
        case Function(def) =>
          stop := VisitStatement(def.body);
        case InterfaceBlock(sizes) =>
          stop := VisitExpressions(sizes);
        case Var(d) =>
          stop := VisitStatements(d.vars);
        case _ =>
          stop := false;
      }
    }

    /** Merges the usage of `e` if it is a sample call to `fp`, then visits its children. */
    method VisitExpression(e: Expr) returns (stop: bool)
      modifies this
      ensures usage == old(usage) + SampleUsages(ExprNodes(e), fp, facts) && !stop
      decreases e, 1
    {
      if IsSampleCallToFp(e, fp) {
        var lastArg := e.node.arguments[|e.node.arguments| - 1];
        usage := usage + [Classify(lastArg, facts)];
      }
      assert usage == old(usage) + SampleUsages([NE(e)], fp, facts);
      ghost var u1 := usage;
      stop := DefaultVisitExpression(e);
      UsagesGrow(old(usage), [NE(e)], ExprChildNodes(e), u1, usage, fp, facts);
    }

    /** `ProgramVisitor::visitExpression`: the children left to right. */
    method DefaultVisitExpression(e: Expr) returns (stop: bool)
      modifies this
      ensures usage == old(usage) + SampleUsages(ExprChildNodes(e), fp, facts) && !stop
      decreases e, 0
    {
      match e.node {
        case Binary(l, _, r) =>
          assert ExprChildNodes(e) == ExprNodes(l) + ExprNodes(r);
          stop := VisitExpression(l);
          ghost var u1 := usage;
          if !stop {
            stop := VisitExpression(r);
          }
          UsagesGrow(old(usage), ExprNodes(l), ExprNodes(r), u1, usage, fp, facts);
        case Constructor(args) =>
          assert ExprChildNodes(e) == ExprListNodes(args);
          stop := VisitExpressions(args);
        case ExternalFunctionCall(_, args) =>
          assert ExprChildNodes(e) == ExprListNodes(args);
          stop := VisitExpressions(args);
        case FunctionCall(_, args) =>
          assert ExprChildNodes(e) == ExprListNodes(args);
          stop := VisitExpressions(args);
        case Index(b, i) =>
          assert ExprChildNodes(e) == ExprNodes(b) + ExprNodes(i);
          stop := VisitExpression(b);
          ghost var u1 := usage;
          if !stop {
            stop := VisitExpression(i);
          }
          UsagesGrow(old(usage), ExprNodes(b), ExprNodes(i), u1, usage, fp, facts);
        case Postfix(o, _) =>
          assert ExprChildNodes(e) == ExprNodes(o);
          stop := VisitExpression(o);
        case Prefix(_, o) =>
          assert ExprChildNodes(e) == ExprNodes(o);
          stop := VisitExpression(o);
        case Swizzle(b, _) =>
          assert ExprChildNodes(e) == ExprNodes(b);
          stop := VisitExpression(b);
        case Ternary(t, a, b) =>
          assert ExprChildNodes(e) == ExprNodes(t) + ExprNodes(a) + ExprNodes(b);
          stop := VisitExpression(t);
          ghost var u1 := usage;
          if !stop {
            stop := VisitExpression(a);
          }
          UsagesGrow(old(usage), ExprNodes(t), ExprNodes(a), u1, usage, fp, facts);
          ghost var u2 := usage;
          if !stop {
            stop := VisitExpression(b);
          }
          UsagesGrow(old(usage), ExprNodes(t) + ExprNodes(a), ExprNodes(b), u2, usage, fp, facts);
        case _ =>
          assert ExprChildNodes(e) == [];
          stop := false;
      }
    }

    method VisitExpressions(es: seq<Expr>) returns (stop: bool)
      modifies this
      ensures usage == old(usage) + SampleUsages(ExprListNodes(es), fp, facts) && !stop
      decreases es
    {
      stop := false;
      var i := 0;
      while i < |es| && !stop
        invariant 0 <= i <= |es| && !stop
        invariant usage == old(usage) + SampleUsages(ExprListNodes(es[..i]), fp, facts)
      {
        ExprListNodesAppend(es[..i], es[i]);
        assert es[..i + 1] == es[..i] + [es[i]];
        ghost var u1 := usage;
        stop := VisitExpression(es[i]);
        UsagesGrow(old(usage), ExprListNodes(es[..i]), ExprNodes(es[i]), u1, usage, fp, facts);
        i := i + 1;
      }
      assert es[..|es|] == es;
    }

    method VisitOptExpression(o: Option<Expr>) returns (stop: bool)
      modifies this
      ensures usage == old(usage) + SampleUsages(OptExprNodes(o), fp, facts) && !stop
    {
      stop := false;
      if o.Some? {
        stop := VisitExpression(o.value);
      }
    }

    method VisitOptExpressions(os: seq<Option<Expr>>) returns (stop: bool)
      modifies this
      ensures usage == old(usage) + SampleUsages(OptExprListNodes(os), fp, facts) && !stop
    {
      stop := false;
      var i := 0;
      while i < |os| && !stop
        invariant 0 <= i <= |os| && !stop
        invariant usage == old(usage) + SampleUsages(OptExprListNodes(os[..i]), fp, facts)
      {
        OptExprListNodesAppend(os[..i], os[i]);
        assert os[..i + 1] == os[..i] + [os[i]];
        ghost var u1 := usage;
        stop := VisitOptExpression(os[i]);
        UsagesGrow(old(usage), OptExprListNodes(os[..i]), OptExprNodes(os[i]), u1, usage, fp, facts);
        i := i + 1;
      }
      assert os[..|os|] == os;
    }

    /** `ProgramVisitor::visitStatement`, which this visitor does not override. */
    method VisitStatement(s: Statement) returns (stop: bool)
      modifies this
      ensures usage == old(usage) + SampleUsages(StmtNodes(s), fp, facts) && !stop
    {
      StatementMergesNothing(s, fp, facts);
      match s {
        case Block(ss, _, _) =>
          assert StmtChildNodes(s) == StmtListNodes(ss);
          stop := VisitStatements(ss);
          assert usage == old(usage) + SampleUsages(StmtChildNodes(s), fp, facts);
        case Do(body, test) =>
          assert StmtChildNodes(s) == ExprNodes(test) + StmtNodes(body);
          stop := VisitExpression(test);
          ghost var u1 := usage;
          if !stop {
            stop := VisitStatement(body);
          }
          UsagesGrow(old(usage), ExprNodes(test), StmtNodes(body), u1, usage, fp, facts);
          assert usage == old(usage) + SampleUsages(StmtChildNodes(s), fp, facts);
        case ExpressionStatement(e) =>
          assert StmtChildNodes(s) == ExprNodes(e);
          stop := VisitExpression(e);
          assert usage == old(usage) + SampleUsages(StmtChildNodes(s), fp, facts);
        case For(init, test, next, body, _) =>
          assert StmtChildNodes(s) == OptStmtNodes(init) + OptExprNodes(test) + OptExprNodes(next) + StmtNodes(body);
          stop := VisitOptStatement(init);
          ghost var u1 := usage;
          if !stop {
            stop := VisitOptExpression(test);
          }
          UsagesGrow(old(usage), OptStmtNodes(init), OptExprNodes(test), u1, usage, fp, facts);
          ghost var u2 := usage;
          if !stop {
            stop := VisitOptExpression(next);
          }
          UsagesGrow(old(usage), OptStmtNodes(init) + OptExprNodes(test), OptExprNodes(next), u2, usage, fp, facts);
          ghost var u3 := usage;
          if !stop {
            stop := VisitStatement(body);
          }
          UsagesGrow(old(usage), OptStmtNodes(init) + OptExprNodes(test) + OptExprNodes(next), StmtNodes(body),
                     u3, usage, fp, facts);
          assert usage == old(usage) + SampleUsages(StmtChildNodes(s), fp, facts);
        case If(_, test, t, f) =>
          assert StmtChildNodes(s) == ExprNodes(test) + StmtNodes(t) + OptStmtNodes(f);
          stop := VisitExpression(test);
          ghost var u1 := usage;
          if !stop {
            stop := VisitStatement(t);
          }
          UsagesGrow(old(usage), ExprNodes(test), StmtNodes(t), u1, usage, fp, facts);
          ghost var u2 := usage;
          if !stop {
            stop := VisitOptStatement(f);
          }
          UsagesGrow(old(usage), ExprNodes(test) + StmtNodes(t), OptStmtNodes(f), u2, usage, fp, facts);
          assert usage == old(usage) + SampleUsages(StmtChildNodes(s), fp, facts);
        case Return(e) =>
          assert StmtChildNodes(s) == OptExprNodes(e);
          stop := VisitOptExpression(e);
          assert usage == old(usage) + SampleUsages(StmtChildNodes(s), fp, facts);
        case Switch(_, v, cases, _) =>
          assert StmtChildNodes(s) == ExprNodes(v) + CaseListNodes(cases);
          stop := VisitExpression(v);
          ghost var u1 := usage;
          if !stop {
            stop := VisitCases(cases);
          }
          UsagesGrow(old(usage), ExprNodes(v), CaseListNodes(cases), u1, usage, fp, facts);
          assert usage == old(usage) + SampleUsages(StmtChildNodes(s), fp, facts);
        case VarDeclaration(_, _, sizes, value) =>
          assert StmtChildNodes(s) == OptExprListNodes(sizes) + OptExprNodes(value);
          stop := VisitOptExpressions(sizes);
          ghost var u1 := usage;
          if !stop {
            stop := VisitOptExpression(value);
          }
          UsagesGrow(old(usage), OptExprListNodes(sizes), OptExprNodes(value), u1, usage, fp, facts);
          assert usage == old(usage) + SampleUsages(StmtChildNodes(s), fp, facts);
        case VarDeclarations(d) =>
          assert StmtChildNodes(s) == [NP(Var(d))] + StmtListNodes(d.vars) == ElementNodes(Var(d));
          stop := VisitVarDeclarations(d);
          assert usage == old(usage) + SampleUsages(StmtChildNodes(s), fp, facts);
        case While(test, body) =>
          assert StmtChildNodes(s) == ExprNodes(test) + StmtNodes(body);
          stop := VisitExpression(test);
          ghost var u1 := usage;
          if !stop {
            stop := VisitStatement(body);
          }
          UsagesGrow(old(usage), ExprNodes(test), StmtNodes(body), u1, usage, fp, facts);
          assert usage == old(usage) + SampleUsages(StmtChildNodes(s), fp, facts);
        case _ =>
          assert StmtChildNodes(s) == [];
          stop := false;
          assert usage == old(usage) + SampleUsages(StmtChildNodes(s), fp, facts);
      }
    }

    method VisitStatements(ss: seq<Statement>) returns (stop: bool)
      modifies this
      ensures usage == old(usage) + SampleUsages(StmtListNodes(ss), fp, facts) && !stop
    {
      stop := false;
      var i := 0;
      while i < |ss| && !stop
        invariant 0 <= i <= |ss| && !stop
        invariant usage == old(usage) + SampleUsages(StmtListNodes(ss[..i]), fp, facts)
      {
        StmtListNodesAppend(ss[..i], ss[i]);
        assert ss[..i + 1] == ss[..i] + [ss[i]];
        ghost var u1 := usage;
        stop := VisitStatement(ss[i]);
        UsagesGrow(old(usage), StmtListNodes(ss[..i]), StmtNodes(ss[i]), u1, usage, fp, facts);
        i := i + 1;
      }
      assert ss[..|ss|] == ss;
    }

    method VisitOptStatement(o: Option<Statement>) returns (stop: bool)
      modifies this
      ensures usage == old(usage) + SampleUsages(OptStmtNodes(o), fp, facts) && !stop
    {
      stop := false;
      if o.Some? {
        stop := VisitStatement(o.value);
      }
    }

    method VisitCases(cs: seq<SwitchCase>) returns (stop: bool)
      modifies this
      ensures usage == old(usage) + SampleUsages(CaseListNodes(cs), fp, facts) && !stop
    {
      stop := false;
      var i := 0;
      while i < |cs| && !stop
        invariant 0 <= i <= |cs| && !stop
        invariant usage == old(usage) + SampleUsages(CaseListNodes(cs[..i]), fp, facts)
      {
        CaseListNodesAppend(cs[..i], cs[i]);
        assert cs[..i + 1] == cs[..i] + [cs[i]];
        ghost var prefix := CaseListNodes(cs[..i]);
        ghost var a, b := OptExprNodes(cs[i].caseValue), StmtListNodes(cs[i].caseStatements);
        ghost var u1 := usage;
        stop := VisitOptExpression(cs[i].caseValue);
        UsagesGrow(old(usage), prefix, a, u1, usage, fp, facts);
        ghost var u2 := usage;
        if !stop {
          stop := VisitStatements(cs[i].caseStatements);
        }
        UsagesGrow(old(usage), prefix + a, b, u2, usage, fp, facts);
        i := i + 1;
      }
      assert cs[..|cs|] == cs;
    }

    /** `visitProgramElement` on the declarations element a declarations statement holds. */
    method VisitVarDeclarations(d: VarDecls) returns (stop: bool)
      modifies this
      ensures usage == old(usage) + SampleUsages(ElementNodes(Var(d)), fp, facts) && !stop
    {
      assert ElementNodes(Var(d)) == [NP(Var(d))] + StmtListNodes(d.vars);
      SampleUsagesAppend([NP(Var(d))], StmtListNodes(d.vars), fp, facts);
      stop := VisitStatements(d.vars);
    }
  }

  /**
   * `Analysis::GetSampleUsage`: the usages of all sample calls to `fp` in the program, in
   * visiting order; none iff the program has no such call.
   */
  method GetSampleUsage(p: Program, fp: Variable, f: LeafFacts) returns (usage: seq<SampleUsage>)
    ensures usage == SampleUsages(ProgramNodes(p), fp, f)
    ensures usage == [] <==> forall n :: n in ProgramNodes(p) ==> !(n.NE? && IsSampleCallToFp(n.expr, fp))
  {
    var visitor := new MergeSampleUsageVisitor(fp, f);
    usage := visitor.Visit(p);
    SampleUsagesEmptyIff(ProgramNodes(p), fp, f);
  }
}
