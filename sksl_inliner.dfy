/**
 * `Inliner`: the analyses that decide whether a call may be inlined (return counting,
 * early returns, size), the statement rewrite of an inlined body, the unique names
 * given to inlined variables, the scoping fix-up of an inlined block, and the pass that
 * finds call sites and picks the ones to inline.
 *
 * The return counters only override `visitStatement`; expressions hold no statements,
 * so their visits never change a count and are not walked here. None of the counters
 * ever returns true from a visit, so every statement is reached.
 */
module SkslInliner {
  import opened Wrappers
  import opened Strings
  import opened SkslIR
  import opened SkslExpressions
  import opened SkslBinaryExpression
  import opened SkslVariableReference
  import opened SkslAnalysis

  const IntMax: int := 0x7fff_ffff

  // ---------------------------------------------------------------------------------
  // Counting statements
  // ---------------------------------------------------------------------------------

  /** `count_all_returns`: every return statement the default traversal reaches from `s`. */
  function AllReturns(s: Statement): nat {
    match s
    case Block(ss, _, _) => AllReturnsIn(ss)
    case Do(body, _) => AllReturns(body)
    case For(init, _, _, body, _) => AllReturnsOpt(init) + AllReturns(body)
    case If(_, _, t, f) => AllReturns(t) + AllReturnsOpt(f)
    case Return(_) => 1
    case Switch(_, _, cases, _) => AllReturnsCases(cases)
    case VarDeclarations(d) => AllReturnsIn(d.vars)
    case While(_, body) => AllReturns(body)
    case _ => 0
  }

  function AllReturnsIn(ss: seq<Statement>): nat {
    if ss == [] then 0 else AllReturns(ss[0]) + AllReturnsIn(ss[1..])
  }

  function AllReturnsOpt(o: Option<Statement>): nat {
    if o.Some? then AllReturns(o.value) else 0
  }

  function AllReturnsCases(cs: seq<SwitchCase>): nat {
    if cs == [] then 0 else AllReturnsIn(cs[0].caseStatements) + AllReturnsCases(cs[1..])
  }

  lemma {:induction false} AllReturnsInAppend(ss: seq<Statement>, x: Statement)
    ensures AllReturnsIn(ss + [x]) == AllReturnsIn(ss) + AllReturns(x)
  {
    if ss == [] {
      assert ss + [x] == [x];
    } else {
      assert (ss + [x])[1..] == ss[1..] + [x];
      AllReturnsInAppend(ss[1..], x);
    }
  }

  lemma {:induction false} AllReturnsCasesAppend(cs: seq<SwitchCase>, c: SwitchCase)
    ensures AllReturnsCases(cs + [c]) == AllReturnsCases(cs) + AllReturnsIn(c.caseStatements)
  {
    if cs == [] {
      assert cs + [c] == [c];
    } else {
      assert (cs + [c])[1..] == cs[1..] + [c];
      AllReturnsCasesAppend(cs[1..], c);
    }
  }

  /**
   * `count_returns_in_breakable_constructs`: the returns inside a switch, for, do or
   * while; `inside` says whether `s` itself is inside one.
   */
  function InBreakable(s: Statement, inside: bool): nat {
    match s
    case Block(ss, _, _) => InBreakableIn(ss, inside)
    case Do(body, _) => InBreakable(body, true)
    case For(init, _, _, body, _) => InBreakableOpt(init, true) + InBreakable(body, true)
    case If(_, _, t, f) => InBreakable(t, inside) + InBreakableOpt(f, inside)
    case Return(_) => if inside then 1 else 0
    case Switch(_, _, cases, _) => InBreakableCases(cases, true)
    case VarDeclarations(d) => InBreakableIn(d.vars, inside)
    case While(_, body) => InBreakable(body, true)
    case _ => 0
  }

  function InBreakableIn(ss: seq<Statement>, inside: bool): nat {
    if ss == [] then 0 else InBreakable(ss[0], inside) + InBreakableIn(ss[1..], inside)
  }

  function InBreakableOpt(o: Option<Statement>, inside: bool): nat {
    if o.Some? then InBreakable(o.value, inside) else 0
  }

  function InBreakableCases(cs: seq<SwitchCase>, inside: bool): nat {
    if cs == [] then 0 else InBreakableIn(cs[0].caseStatements, inside) + InBreakableCases(cs[1..], inside)
  }

  lemma {:induction false} InBreakableInAppend(ss: seq<Statement>, x: Statement, inside: bool)
    ensures InBreakableIn(ss + [x], inside) == InBreakableIn(ss, inside) + InBreakable(x, inside)
  {
    if ss == [] {
      assert ss + [x] == [x];
    } else {
      assert (ss + [x])[1..] == ss[1..] + [x];
      InBreakableInAppend(ss[1..], x, inside);
    }
  }

  lemma {:induction false} InBreakableCasesAppend(cs: seq<SwitchCase>, c: SwitchCase, inside: bool)
    ensures InBreakableCases(cs + [c], inside) == InBreakableCases(cs, inside) + InBreakableIn(c.caseStatements, inside)
  {
    if cs == [] {
      assert cs + [c] == [c];
    } else {
      assert (cs + [c])[1..] == cs[1..] + [c];
      InBreakableCasesAppend(cs[1..], c, inside);
    }
  }

  /**
   * `count_returns_at_end_of_control_flow`: of a block only the last statement is
   * looked at, and switches and loops are not entered at all.
   */
  function AtEnd(s: Statement): nat {
    match s
    case Block(ss, _, _) => if ss == [] then 0 else AtEnd(ss[|ss| - 1])
    case If(_, _, t, f) => AtEnd(t) + AtEndOpt(f)
    case Return(_) => 1
    case VarDeclarations(d) => AtEndIn(d.vars)
    case _ => 0
  }

  function AtEndIn(ss: seq<Statement>): nat {
    if ss == [] then 0 else AtEnd(ss[0]) + AtEndIn(ss[1..])
  }

  function AtEndOpt(o: Option<Statement>): nat {
    if o.Some? then AtEnd(o.value) else 0
  }

  lemma {:induction false} AtEndInAppend(ss: seq<Statement>, x: Statement)
    ensures AtEndIn(ss + [x]) == AtEndIn(ss) + AtEnd(x)
  {
    if ss == [] {
      assert ss + [x] == [x];
    } else {
      assert (ss + [x])[1..] == ss[1..] + [x];
      AtEndInAppend(ss[1..], x);
    }
  }

  /** `has_early_return`: some return is not at the end of control flow. */
  predicate EarlyReturn(body: Statement) {
    AllReturns(body) != 0 && AllReturns(body) > AtEnd(body)
  }

  // ---------------------------------------------------------------------------------
  // How the counters relate
  // ---------------------------------------------------------------------------------

  /** Inside a breakable construct every return counts; outside, at most all of them do. */
  lemma {:induction false} InBreakableBounds(s: Statement, inside: bool)
    ensures InBreakable(s, true) == AllReturns(s)
    ensures InBreakable(s, inside) <= AllReturns(s)
  {
    match s
    case Block(ss, _, _) => InBreakableInBounds(ss, inside);
    case Do(body, _) => InBreakableBounds(body, true);
    case For(init, _, _, body, _) =>
      if init.Some? { InBreakableBounds(init.value, true); }
      InBreakableBounds(body, true);
    case If(_, _, t, f) =>
      InBreakableBounds(t, inside);
      if f.Some? { InBreakableBounds(f.value, inside); }
    case Switch(_, _, cases, _) => InBreakableCasesBounds(cases, inside);
    case VarDeclarations(d) => InBreakableInBounds(d.vars, inside);
    case While(_, body) => InBreakableBounds(body, true);
    case _ =>
  }

  lemma {:induction false} InBreakableInBounds(ss: seq<Statement>, inside: bool)
    ensures InBreakableIn(ss, true) == AllReturnsIn(ss)
    ensures InBreakableIn(ss, inside) <= AllReturnsIn(ss)
  {
    if ss != [] {
      InBreakableBounds(ss[0], inside);
      InBreakableInBounds(ss[1..], inside);
    }
  }

  lemma {:induction false} InBreakableCasesBounds(cs: seq<SwitchCase>, inside: bool)
    ensures InBreakableCases(cs, true) == AllReturnsCases(cs)
    ensures InBreakableCases(cs, inside) <= AllReturnsCases(cs)
  {
    if cs != [] {
      InBreakableInBounds(cs[0].caseStatements, inside);
      InBreakableCasesBounds(cs[1..], inside);
    }
  }

  /**
   * A return at the end of control flow is never inside a breakable construct, so the
   * two partial counts together never exceed all returns.
   */
  lemma {:induction false} CountersConsistent(s: Statement)
    ensures AtEnd(s) + InBreakable(s, false) <= AllReturns(s)
  {
    match s
    case Block(ss, _, _) => if ss != [] { CountersConsistentLast(ss); }
    case Do(body, _) => InBreakableBounds(body, true);
    case For(init, _, _, body, _) =>
      if init.Some? { InBreakableBounds(init.value, true); }
      InBreakableBounds(body, true);
    case If(_, _, t, f) =>
      CountersConsistent(t);
      if f.Some? { CountersConsistent(f.value); }
    case Switch(_, _, cases, _) => InBreakableCasesBounds(cases, true);
    case VarDeclarations(d) => CountersConsistentIn(d.vars);
    case While(_, body) => InBreakableBounds(body, true);
    case _ =>
  }

  /** Of a block only the last statement can end the control flow. */
  lemma {:induction false} CountersConsistentLast(ss: seq<Statement>)
    requires ss != []
    ensures AtEnd(ss[|ss| - 1]) + InBreakableIn(ss, false) <= AllReturnsIn(ss)
  {
    var n := |ss| - 1;
    assert ss == ss[..n] + [ss[n]];
    AllReturnsInAppend(ss[..n], ss[n]);
    InBreakableInAppend(ss[..n], ss[n], false);
    InBreakableInBounds(ss[..n], false);
    CountersConsistent(ss[n]);
  }

  lemma {:induction false} CountersConsistentIn(ss: seq<Statement>)
    ensures AtEndIn(ss) + InBreakableIn(ss, false) <= AllReturnsIn(ss)
  {
    if ss != [] {
      CountersConsistent(ss[0]);
      CountersConsistentIn(ss[1..]);
    }
  }

  /**
   * The two assertions of `isSafeToInline`: without an early return there is no return
   * inside a breakable construct, and a return inside one makes an early return.
   */
  lemma {:induction false} NoEarlyReturnNoBreakableReturn(body: Statement)
    ensures !EarlyReturn(body) ==> InBreakable(body, false) == 0
    ensures InBreakable(body, false) >= 1 ==> EarlyReturn(body)
  {
    CountersConsistent(body);
  }

  /** `{ if (c) return a; return b; }` returns early: the first return is not last. */
  lemma {:induction false} EarlyReturnExample(c: Expr, a: Expr, b: Expr)
    ensures EarlyReturn(Block([If(false, c, Return(Some(a)), None), Return(Some(b))], true, false))
  {
    var ss := [If(false, c, Return(Some(a)), None), Return(Some(b))];
    assert AllReturns(ss[0]) == 1;
    assert ss[1..] == [Return(Some(b))];
    assert AllReturnsIn(ss[1..]) == 1 by {
      assert ss[1..][1..] == [];
    }
    assert AllReturnsIn(ss) == 2;
  }

  /** `{ if (c) return a; else return b; }` does not: both returns end the control flow. */
  lemma {:induction false} NoEarlyReturnExample(c: Expr, a: Expr, b: Expr)
    ensures !EarlyReturn(Block([If(false, c, Return(Some(a)), Some(Return(Some(b))))], true, false))
  {
    var ss := [If(false, c, Return(Some(a)), Some(Return(Some(b))))];
    var r := Some(Return(Some(b)));
    assert AllReturnsOpt(r) == 1 && AtEndOpt(r) == 1;
    assert AllReturns(ss[0]) == 2 && AtEnd(ss[0]) == 2;
    assert ss[1..] == [];
    assert AllReturnsIn(ss) == 2;
  }

  // ---------------------------------------------------------------------------------
  // The counting visitors
  // ---------------------------------------------------------------------------------

  /** `CountAllReturns`: counts every return statement. */
  class AllReturnsCounter {
    var numReturns: int

    constructor ()
      ensures numReturns == 0
    {
      numReturns := 0;
    }

    method VisitStatement(s: Statement)
      modifies this
      ensures numReturns == old(numReturns) + AllReturns(s)
    {
      if s.Return? {
        numReturns := numReturns + 1;
      }
      match s {
        case Block(ss, _, _) => VisitStatements(ss);
        case Do(body, _) => VisitStatement(body);
        case For(init, _, _, body, _) =>
          if init.Some? {
            VisitStatement(init.value);
          }
          VisitStatement(body);
        case If(_, _, t, f) =>
          VisitStatement(t);
          if f.Some? {
            VisitStatement(f.value);
          }
        case Switch(_, _, cases, _) => VisitCases(cases);
        case VarDeclarations(d) => VisitStatements(d.vars);
        case While(_, body) => VisitStatement(body);
        case _ =>
      }
    }

    method VisitStatements(ss: seq<Statement>)
      modifies this
      ensures numReturns == old(numReturns) + AllReturnsIn(ss)
    {
      for i := 0 to |ss|
        invariant numReturns == old(numReturns) + AllReturnsIn(ss[..i])
      {
        AllReturnsInAppend(ss[..i], ss[i]);
        assert ss[..i + 1] == ss[..i] + [ss[i]];
        VisitStatement(ss[i]);
      }
      assert ss[..|ss|] == ss;
    }

    method VisitCases(cs: seq<SwitchCase>)
      modifies this
      ensures numReturns == old(numReturns) + AllReturnsCases(cs)
    {
      for i := 0 to |cs|
        invariant numReturns == old(numReturns) + AllReturnsCases(cs[..i])
      {
        AllReturnsCasesAppend(cs[..i], cs[i]);
        assert cs[..i + 1] == cs[..i] + [cs[i]];
        VisitStatements(cs[i].caseStatements);
      }
      assert cs[..|cs|] == cs;
    }
  }

  /** `CountReturnsAtEndOfControlFlow`. */
  class AtEndCounter {
    var numReturns: int

    constructor ()
      ensures numReturns == 0
    {
      numReturns := 0;
    }

    method VisitStatement(s: Statement)
      modifies this
      ensures numReturns == old(numReturns) + AtEnd(s)
    {
      match s {
        case Block(ss, _, _) =>
          if |ss| > 0 {
            VisitStatement(ss[|ss| - 1]);
          }
        case Switch(_, _, _, _) =>
        case While(_, _) =>
        case Do(_, _) =>
        case For(_, _, _, _, _) =>
        case Return(_) =>
          numReturns := numReturns + 1;
        case If(_, _, t, f) =>
          VisitStatement(t);
          if f.Some? {
            VisitStatement(f.value);
          }
        case VarDeclarations(d) => VisitStatements(d.vars);
        case _ =>
      }
    }

    method VisitStatements(ss: seq<Statement>)
      modifies this
      ensures numReturns == old(numReturns) + AtEndIn(ss)
    {
      for i := 0 to |ss|
        invariant numReturns == old(numReturns) + AtEndIn(ss[..i])
      {
        AtEndInAppend(ss[..i], ss[i]);
        assert ss[..i + 1] == ss[..i] + [ss[i]];
        VisitStatement(ss[i]);
      }
      assert ss[..|ss|] == ss;
    }
  }

  /** `CountReturnsInBreakableConstructs`: the depth of breakable constructs is tracked while walking. */
  class BreakableCounter {
    var numReturns: int
    var insideBreakableConstruct: int

    constructor ()
      ensures numReturns == 0 && insideBreakableConstruct == 0
    {
      numReturns := 0;
      insideBreakableConstruct := 0;
    }

    method VisitStatement(s: Statement)
      requires insideBreakableConstruct >= 0
      modifies this
      ensures numReturns == old(numReturns) + InBreakable(s, old(insideBreakableConstruct) > 0)
      ensures insideBreakableConstruct == old(insideBreakableConstruct)
    {
      match s {
        case Switch(_, _, cases, _) =>
          insideBreakableConstruct := insideBreakableConstruct + 1;
          VisitCases(cases);
          insideBreakableConstruct := insideBreakableConstruct - 1;
        case While(_, body) =>
          insideBreakableConstruct := insideBreakableConstruct + 1;
          VisitStatement(body);
          insideBreakableConstruct := insideBreakableConstruct - 1;
        case Do(body, _) =>
          insideBreakableConstruct := insideBreakableConstruct + 1;
          VisitStatement(body);
          insideBreakableConstruct := insideBreakableConstruct - 1;
        case For(init, _, _, body, _) =>
          insideBreakableConstruct := insideBreakableConstruct + 1;
          if init.Some? {
            VisitStatement(init.value);
          }
          VisitStatement(body);
          insideBreakableConstruct := insideBreakableConstruct - 1;
        case Return(_) =>
          numReturns := numReturns + (if insideBreakableConstruct > 0 then 1 else 0);
        case Block(ss, _, _) => VisitStatements(ss);
        case If(_, _, t, f) =>
          VisitStatement(t);
          if f.Some? {
            VisitStatement(f.value);
          }
        case VarDeclarations(d) => VisitStatements(d.vars);
        case _ =>
      }
    }

    method VisitStatements(ss: seq<Statement>)
      requires insideBreakableConstruct >= 0
      modifies this
      ensures numReturns == old(numReturns) + InBreakableIn(ss, old(insideBreakableConstruct) > 0)
      ensures insideBreakableConstruct == old(insideBreakableConstruct)
    {
      for i := 0 to |ss|
        invariant insideBreakableConstruct == old(insideBreakableConstruct)
        invariant numReturns == old(numReturns) + InBreakableIn(ss[..i], insideBreakableConstruct > 0)
      {
        InBreakableInAppend(ss[..i], ss[i], insideBreakableConstruct > 0);
        assert ss[..i + 1] == ss[..i] + [ss[i]];
        VisitStatement(ss[i]);
      }
      assert ss[..|ss|] == ss;
    }

    method VisitCases(cs: seq<SwitchCase>)
      requires insideBreakableConstruct >= 0
      modifies this
      ensures numReturns == old(numReturns) + InBreakableCases(cs, old(insideBreakableConstruct) > 0)
      ensures insideBreakableConstruct == old(insideBreakableConstruct)
    {
      for i := 0 to |cs|
        invariant insideBreakableConstruct == old(insideBreakableConstruct)
        invariant numReturns == old(numReturns) + InBreakableCases(cs[..i], insideBreakableConstruct > 0)
      {
        InBreakableCasesAppend(cs[..i], cs[i], insideBreakableConstruct > 0);
        assert cs[..i + 1] == cs[..i] + [cs[i]];
        VisitStatements(cs[i].caseStatements);
      }
      assert cs[..|cs|] == cs;
    }
  }

  /** `count_all_returns`: the visitor walks the function's body. */
  method CountAllReturns(def: FunctionDefinition) returns (n: int)
    ensures n == AllReturns(def.body)
  {
    var counter := new AllReturnsCounter();
    counter.VisitStatement(def.body);
    n := counter.numReturns;
  }

  method CountReturnsAtEndOfControlFlow(def: FunctionDefinition) returns (n: int)
    ensures n == AtEnd(def.body) && n <= AllReturns(def.body)
  {
    var counter := new AtEndCounter();
    counter.VisitStatement(def.body);
    n := counter.numReturns;
    CountersConsistent(def.body);
  }

  method CountReturnsInBreakableConstructs(def: FunctionDefinition) returns (n: int)
    ensures n == InBreakable(def.body, false) && n <= AllReturns(def.body)
  {
    var counter := new BreakableCounter();
    counter.VisitStatement(def.body);
    n := counter.numReturns;
    InBreakableBounds(def.body, false);
  }

  /** `has_early_return`: false without returns, else true iff some return is not at the end. */
  method HasEarlyReturn(def: FunctionDefinition) returns (r: bool)
    ensures r == EarlyReturn(def.body)
    ensures !r ==> InBreakable(def.body, false) == 0
  {
    var returnCount := CountAllReturns(def);
    if returnCount == 0 {
      NoEarlyReturnNoBreakableReturn(def.body);
      return false;
    }
    var returnsAtEnd := CountReturnsAtEndOfControlFlow(def);
    r := returnCount > returnsAtEnd;
    NoEarlyReturnNoBreakableReturn(def.body);
  }

  // ---------------------------------------------------------------------------------
  // isSafeToInline
  // ---------------------------------------------------------------------------------

  /** The size rule: below `IntMax` a function not flagged `inline` must have fewer nodes than the threshold. */
  predicate SmallEnough(def: FunctionDefinition, threshold: int) {
    !(threshold < IntMax && !def.declaration.modifiers.isInline && |StmtNodes(def.body)| >= threshold)
  }

  /**
   * `Inliner::isSafeToInline`. `definitions` holds the definition of each defined
   * function; `canUseDoLoops` is false when there are no caps or the caps forbid do
   * loops. A safe call has a definition, passes the size rule and has no return inside
   * a breakable construct; without do loops it has no early return at all.
   */
  method IsSafeToInline(callee: FunctionDeclaration, definitions: map<FunctionDeclaration, FunctionDefinition>,
                        threshold: int, canUseDoLoops: bool) returns (safe: bool)
    ensures safe ==> callee in definitions && SmallEnough(definitions[callee], threshold)
    ensures safe ==> InBreakable(definitions[callee].body, false) == 0
    ensures safe ==> canUseDoLoops || !EarlyReturn(definitions[callee].body)
    ensures callee in definitions && SmallEnough(definitions[callee], threshold) ==>
            (safe <==> (if canUseDoLoops then InBreakable(definitions[callee].body, false) == 0
                        else !EarlyReturn(definitions[callee].body)))
    ensures safe == SafeToInline(callee, definitions, threshold, canUseDoLoops)
  {
    if callee !in definitions {
      return false;
    }
    var def := definitions[callee];
    if threshold < IntMax {
      if !def.declaration.modifiers.isInline {
        var size := NodeCount(def);
        if size >= threshold {
          return false;
        }
      }
    }
    if !canUseDoLoops {
      var early := HasEarlyReturn(def);
      return !early;
    }
    var inBreakable := CountReturnsInBreakableConstructs(def);
    safe := !(inBreakable > 0);
  }
  // ---------------------------------------------------------------------------------
  // inlineStatement
  // ---------------------------------------------------------------------------------

  /**
   * The parts of `Inliner::inlineStatement` this model takes as given: `inlineExpression`,
   * which rewrites an expression's variable references through the map, and the two
   * declaration cases, which give the declared variable a new name.
   */
  datatype InlineRewrite = InlineRewrite(expression: (Expr, map<Variable, Variable>) -> Expr,
                                         declaration: (Statement, map<Variable, Variable>) -> Statement)

  /** The `return` statements with a value that `inlineStatement` reaches from `s`. */
  function ValueReturns(s: Statement): nat {
    match s
    case Block(ss, _, _) => ValueReturnsIn(ss)
    case Do(body, _) => ValueReturns(body)
    case For(init, _, _, body, _) => ValueReturnsOpt(init) + ValueReturns(body)
    case If(_, _, t, f) => ValueReturns(t) + ValueReturnsOpt(f)
    case Return(value) => if value.Some? then 1 else 0
    case Switch(_, _, cases, _) => ValueReturnsCases(cases)
    case While(_, body) => ValueReturns(body)
    case _ => 0
  }

  function ValueReturnsIn(ss: seq<Statement>): nat {
    if ss == [] then 0 else ValueReturns(ss[0]) + ValueReturnsIn(ss[1..])
  }

  function ValueReturnsOpt(o: Option<Statement>): nat {
    if o.Some? then ValueReturns(o.value) else 0
  }

  function ValueReturnsCases(cs: seq<SwitchCase>): nat {
    if cs == [] then 0 else ValueReturnsIn(cs[0].caseStatements) + ValueReturnsCases(cs[1..])
  }

  /** `result = value;`: an expression statement assigning to the result variable. */
  predicate AssignsResult(s: Statement, v: Variable, value: Expr) {
    s.ExpressionStatement? && s.expression.node.Binary? && s.expression.node.op == Eq &&
    s.expression.node.left.node == VariableReference(v, Write) && s.expression.node.right == value &&
    s.expression.ty == v.ty
  }

  /** The statement leaves the enclosing do-while: a break, or a block ending in one. */
  predicate LeavesLoop(s: Statement) {
    s.Break? || (s.Block? && |s.statements| > 0 && s.statements[|s.statements| - 1].Break?)
  }

  /** What the `return` case of `inlineStatement` builds from the already inlined value. */
  function ReturnRewrite(offset: int, returned: Option<Expr>, resultVar: Option<Variable>, haveEarlyReturns: bool): Statement
    requires returned.Some? ==> resultVar.Some?
  {
    if returned.Some? then
      var v := resultVar.value;
      var assignment := ExpressionStatement(MakeBinary(offset, Expr(offset, v.ty, VariableReference(v, Write)), Eq,
                                                       returned.value, v.ty));
      if haveEarlyReturns then Block([assignment, Break], true, false) else assignment
    else if haveEarlyReturns then Break
    else Nop
  }

  function InlineOptExpr(o: Option<Expr>, varMap: map<Variable, Variable>, rw: InlineRewrite): Option<Expr> {
    if o.Some? then Some(rw.expression(o.value, varMap)) else None
  }

  /**
   * `Inliner::inlineStatement`: the copy of `s` placed in the inlined body. Expressions go
   * through `inlineExpression`, declarations through the renaming case, returns become
   * `ReturnRewrite`, and breaks, continues, discards, markers and no-ops are cloned.
   */
  function InlineStmt(offset: int, s: Statement, varMap: map<Variable, Variable>, resultVar: Option<Variable>,
                      haveEarlyReturns: bool, rw: InlineRewrite): Statement
    requires resultVar.Some? || ValueReturns(s) == 0
  {
    match s
    case Block(ss, isScope, hasSymbols) =>
      Block(InlineStmts(offset, ss, varMap, resultVar, haveEarlyReturns, rw), isScope, hasSymbols)
    case Do(body, test) =>
      Do(InlineStmt(offset, body, varMap, resultVar, haveEarlyReturns, rw), rw.expression(test, varMap))
    case ExpressionStatement(e) => ExpressionStatement(rw.expression(e, varMap))
    case For(init, test, next, body, hasSymbols) =>
      For(InlineOptStmt(offset, init, varMap, resultVar, haveEarlyReturns, rw), InlineOptExpr(test, varMap, rw),
          InlineOptExpr(next, varMap, rw), InlineStmt(offset, body, varMap, resultVar, haveEarlyReturns, rw), hasSymbols)
    case If(isStatic, test, t, f) =>
      If(isStatic, rw.expression(test, varMap), InlineStmt(offset, t, varMap, resultVar, haveEarlyReturns, rw),
         InlineOptStmt(offset, f, varMap, resultVar, haveEarlyReturns, rw))
    case Return(value) => ReturnRewrite(offset, InlineOptExpr(value, varMap, rw), resultVar, haveEarlyReturns)
    case Switch(isStatic, value, cases, hasSymbols) =>
      Switch(isStatic, rw.expression(value, varMap), InlineCaseList(offset, cases, varMap, resultVar, haveEarlyReturns, rw),
             hasSymbols)
    case VarDeclaration(_, _, _, _) => rw.declaration(s, varMap)
    case VarDeclarations(_) => rw.declaration(s, varMap)
    case While(test, body) => While(rw.expression(test, varMap), InlineStmt(offset, body, varMap, resultVar, haveEarlyReturns, rw))
    case _ => s
  }

  function InlineStmts(offset: int, ss: seq<Statement>, varMap: map<Variable, Variable>, resultVar: Option<Variable>,
                       haveEarlyReturns: bool, rw: InlineRewrite): seq<Statement>
    requires resultVar.Some? || ValueReturnsIn(ss) == 0
  {
    if ss == [] then []
    else [InlineStmt(offset, ss[0], varMap, resultVar, haveEarlyReturns, rw)] +
         InlineStmts(offset, ss[1..], varMap, resultVar, haveEarlyReturns, rw)
  }

  function InlineOptStmt(offset: int, o: Option<Statement>, varMap: map<Variable, Variable>, resultVar: Option<Variable>,
                         haveEarlyReturns: bool, rw: InlineRewrite): Option<Statement>
    requires resultVar.Some? || ValueReturnsOpt(o) == 0
  {
    if o.Some? then Some(InlineStmt(offset, o.value, varMap, resultVar, haveEarlyReturns, rw)) else None
  }

  function InlineCaseList(offset: int, cs: seq<SwitchCase>, varMap: map<Variable, Variable>, resultVar: Option<Variable>,
                          haveEarlyReturns: bool, rw: InlineRewrite): seq<SwitchCase>
    requires resultVar.Some? || ValueReturnsCases(cs) == 0
  {
    if cs == [] then []
    else [SwitchCase(InlineOptExpr(cs[0].caseValue, varMap, rw),
                     InlineStmts(offset, cs[0].caseStatements, varMap, resultVar, haveEarlyReturns, rw))] +
         InlineCaseList(offset, cs[1..], varMap, resultVar, haveEarlyReturns, rw)
  }

  lemma {:induction false} InlineStmtsAppend(offset: int, ss: seq<Statement>, x: Statement, varMap: map<Variable, Variable>,
                                             resultVar: Option<Variable>, haveEarlyReturns: bool, rw: InlineRewrite)
    ensures ValueReturnsIn(ss + [x]) == ValueReturnsIn(ss) + ValueReturns(x)
    ensures resultVar.Some? || ValueReturnsIn(ss + [x]) == 0 ==>
              InlineStmts(offset, ss + [x], varMap, resultVar, haveEarlyReturns, rw) ==
              InlineStmts(offset, ss, varMap, resultVar, haveEarlyReturns, rw) +
              [InlineStmt(offset, x, varMap, resultVar, haveEarlyReturns, rw)]
  {
    if ss == [] {
      assert ss + [x] == [x];
    } else {
      assert (ss + [x])[1..] == ss[1..] + [x];
      InlineStmtsAppend(offset, ss[1..], x, varMap, resultVar, haveEarlyReturns, rw);
    }
  }

  lemma {:induction false} InlineCaseListAppend(offset: int, cs: seq<SwitchCase>, c: SwitchCase, varMap: map<Variable, Variable>,
                                                resultVar: Option<Variable>, haveEarlyReturns: bool, rw: InlineRewrite)
    ensures ValueReturnsCases(cs + [c]) == ValueReturnsCases(cs) + ValueReturnsIn(c.caseStatements)
    ensures resultVar.Some? || ValueReturnsCases(cs + [c]) == 0 ==>
              InlineCaseList(offset, cs + [c], varMap, resultVar, haveEarlyReturns, rw) ==
              InlineCaseList(offset, cs, varMap, resultVar, haveEarlyReturns, rw) +
              [SwitchCase(InlineOptExpr(c.caseValue, varMap, rw),
                          InlineStmts(offset, c.caseStatements, varMap, resultVar, haveEarlyReturns, rw))]
  {
    if cs == [] {
      assert cs + [c] == [c];
    } else {
      assert (cs + [c])[1..] == cs[1..] + [c];
      InlineCaseListAppend(offset, cs[1..], c, varMap, resultVar, haveEarlyReturns, rw);
    }
  }

  /**
   * The `return` case of `Inliner::inlineStatement`. `returned` is the already inlined
   * return value, if any. A value is assigned to the result variable; with early
   * returns the inlined body sits in a `do {} while (false)`, so a break then leaves it.
   * The result holds no return and leaves the loop exactly when there are early returns;
   * the new reference to the result variable counts one write.
   */
  method InlineReturn(offset: int, returned: Option<Expr>, resultVar: Option<Variable>, haveEarlyReturns: bool)
      returns (r: Statement)
    requires returned.Some? ==> resultVar.Some?
    modifies if returned.Some? then {resultVar.value} else {}
    ensures r == ReturnRewrite(offset, returned, resultVar, haveEarlyReturns)
    ensures AllReturns(r) == 0
    ensures LeavesLoop(r) <==> haveEarlyReturns
    ensures returned.None? ==> r == (if haveEarlyReturns then Break else Nop)
    ensures returned.Some? && haveEarlyReturns ==>
              r.Block? && |r.statements| == 2 && r.isScope && AssignsResult(r.statements[0], resultVar.value, returned.value)
    ensures returned.Some? && !haveEarlyReturns ==> AssignsResult(r, resultVar.value, returned.value)
    ensures returned.Some? ==> resultVar.value.writeCount == old(resultVar.value.writeCount) + 1 &&
                               resultVar.value.readCount == old(resultVar.value.readCount)
  {
    if returned.Some? {
      var v := resultVar.value;
      var target := MakeReference(offset, v, Write);
      var assignment := ExpressionStatement(MakeBinary(offset, target, Eq, returned.value, v.ty));
      if haveEarlyReturns {
        r := Block([assignment, Break], true, false);
        assert r.statements[1..] == [Break] && [Break][1..] == [];
        assert AllReturnsIn(r.statements) == AllReturns(assignment) + AllReturnsIn([Break]);
      } else {
        r := assignment;
      }
    } else {
      if haveEarlyReturns {
        r := Break;
      } else {
        r := Nop;
      }
    }
  }

  /**
   * No `return` survives `inlineStatement`: each one becomes an assignment, a break or a
   * no-op, and every other kind keeps its shape around inlined children.
   */
  lemma {:induction false} InlinedHoldsNoReturns(offset: int, s: Statement, varMap: map<Variable, Variable>,
                                                 resultVar: Option<Variable>, haveEarlyReturns: bool, rw: InlineRewrite)
    requires resultVar.Some? || ValueReturns(s) == 0
    requires forall d, m :: AllReturns(rw.declaration(d, m)) == 0
    ensures AllReturns(InlineStmt(offset, s, varMap, resultVar, haveEarlyReturns, rw)) == 0
    decreases s
  {
    match s
    case Block(ss, _, _) => InlinedListHoldsNoReturns(offset, ss, varMap, resultVar, haveEarlyReturns, rw);
    case Do(body, _) => InlinedHoldsNoReturns(offset, body, varMap, resultVar, haveEarlyReturns, rw);
    case For(init, _, _, body, _) =>
      if init.Some? {
        InlinedHoldsNoReturns(offset, init.value, varMap, resultVar, haveEarlyReturns, rw);
      }
      InlinedHoldsNoReturns(offset, body, varMap, resultVar, haveEarlyReturns, rw);
    case If(_, _, t, f) =>
      InlinedHoldsNoReturns(offset, t, varMap, resultVar, haveEarlyReturns, rw);
      if f.Some? {
        InlinedHoldsNoReturns(offset, f.value, varMap, resultVar, haveEarlyReturns, rw);
      }
    case Return(value) =>
      var returned := InlineOptExpr(value, varMap, rw);
      if returned.Some? && haveEarlyReturns {
        var r := ReturnRewrite(offset, returned, resultVar, haveEarlyReturns);
        assert r.statements[1..] == [Break] && [Break][1..] == [];
        assert AllReturnsIn(r.statements) == AllReturns(r.statements[0]) + AllReturnsIn([Break]);
      }
    case Switch(_, _, cases, _) => InlinedCasesHoldNoReturns(offset, cases, varMap, resultVar, haveEarlyReturns, rw);
    case While(_, body) => InlinedHoldsNoReturns(offset, body, varMap, resultVar, haveEarlyReturns, rw);
    case _ =>
  }

  lemma {:induction false} InlinedListHoldsNoReturns(offset: int, ss: seq<Statement>, varMap: map<Variable, Variable>,
                                                     resultVar: Option<Variable>, haveEarlyReturns: bool, rw: InlineRewrite)
    requires resultVar.Some? || ValueReturnsIn(ss) == 0
    requires forall d, m :: AllReturns(rw.declaration(d, m)) == 0
    ensures AllReturnsIn(InlineStmts(offset, ss, varMap, resultVar, haveEarlyReturns, rw)) == 0
    decreases ss
  {
    if ss != [] {
      var rs := InlineStmts(offset, ss, varMap, resultVar, haveEarlyReturns, rw);
      InlinedHoldsNoReturns(offset, ss[0], varMap, resultVar, haveEarlyReturns, rw);
      InlinedListHoldsNoReturns(offset, ss[1..], varMap, resultVar, haveEarlyReturns, rw);
      assert rs[1..] == InlineStmts(offset, ss[1..], varMap, resultVar, haveEarlyReturns, rw);
    }
  }

  lemma {:induction false} InlinedCasesHoldNoReturns(offset: int, cs: seq<SwitchCase>, varMap: map<Variable, Variable>,
                                                     resultVar: Option<Variable>, haveEarlyReturns: bool, rw: InlineRewrite)
    requires resultVar.Some? || ValueReturnsCases(cs) == 0
    requires forall d, m :: AllReturns(rw.declaration(d, m)) == 0
    ensures AllReturnsCases(InlineCaseList(offset, cs, varMap, resultVar, haveEarlyReturns, rw)) == 0
    decreases cs
  {
    if cs != [] {
      var rs := InlineCaseList(offset, cs, varMap, resultVar, haveEarlyReturns, rw);
      InlinedListHoldsNoReturns(offset, cs[0].caseStatements, varMap, resultVar, haveEarlyReturns, rw);
      InlinedCasesHoldNoReturns(offset, cs[1..], varMap, resultVar, haveEarlyReturns, rw);
      assert rs[1..] == InlineCaseList(offset, cs[1..], varMap, resultVar, haveEarlyReturns, rw);
    }
  }

  /**
   * `Inliner::inlineStatement` walking `s`: the statement it builds is `InlineStmt`, and
   * each `return` with a value adds one write to the result variable, since its
   * assignment holds a new write reference to it.
   */
  method InlineStatement(offset: int, s: Statement, varMap: map<Variable, Variable>, resultVar: Option<Variable>,
                         haveEarlyReturns: bool, rw: InlineRewrite) returns (r: Statement)
    requires resultVar.Some? || ValueReturns(s) == 0
    modifies if resultVar.Some? then {resultVar.value} else {}
    ensures r == InlineStmt(offset, s, varMap, resultVar, haveEarlyReturns, rw)
    ensures resultVar.Some? ==> resultVar.value.writeCount == old(resultVar.value.writeCount) + ValueReturns(s) &&
                                resultVar.value.readCount == old(resultVar.value.readCount)
    decreases s
  {
    match s {
      case Block(ss, isScope, hasSymbols) =>
        var inlined := InlineStatements(offset, ss, varMap, resultVar, haveEarlyReturns, rw);
        r := Block(inlined, isScope, hasSymbols);
      case Do(body, test) =>
        var inlined := InlineStatement(offset, body, varMap, resultVar, haveEarlyReturns, rw);
        r := Do(inlined, rw.expression(test, varMap));
      case ExpressionStatement(e) =>
        r := ExpressionStatement(rw.expression(e, varMap));
      case For(init, test, next, body, hasSymbols) =>
        // the initializer first, so that its declarations are renamed before the test and next
        var initializer := InlineOptStatement(offset, init, varMap, resultVar, haveEarlyReturns, rw);
        var inlined := InlineStatement(offset, body, varMap, resultVar, haveEarlyReturns, rw);
        r := For(initializer, InlineOptExpr(test, varMap, rw), InlineOptExpr(next, varMap, rw), inlined, hasSymbols);
      case If(isStatic, test, t, f) =>
        var ifTrue := InlineStatement(offset, t, varMap, resultVar, haveEarlyReturns, rw);
        var ifFalse := InlineOptStatement(offset, f, varMap, resultVar, haveEarlyReturns, rw);
        r := If(isStatic, rw.expression(test, varMap), ifTrue, ifFalse);
      case Return(value) =>
        r := InlineReturn(offset, InlineOptExpr(value, varMap, rw), resultVar, haveEarlyReturns);
      case Switch(isStatic, value, cases, hasSymbols) =>
        var inlined := InlineCases(offset, cases, varMap, resultVar, haveEarlyReturns, rw);
        r := Switch(isStatic, rw.expression(value, varMap), inlined, hasSymbols);
      case VarDeclaration(_, _, _, _) =>
        r := rw.declaration(s, varMap);
      case VarDeclarations(_) =>
        r := rw.declaration(s, varMap);
      case While(test, body) =>
        var inlined := InlineStatement(offset, body, varMap, resultVar, haveEarlyReturns, rw);
        r := While(rw.expression(test, varMap), inlined);
      case Break =>
        r := s;
      case Continue =>
        r := s;
      case Discard =>
        r := s;
      case InlineMarker(_) =>
        r := s;
      case Nop =>
        r := s;
    }
  }

  method InlineOptStatement(offset: int, o: Option<Statement>, varMap: map<Variable, Variable>, resultVar: Option<Variable>,
                            haveEarlyReturns: bool, rw: InlineRewrite) returns (r: Option<Statement>)
    requires resultVar.Some? || ValueReturnsOpt(o) == 0
    modifies if resultVar.Some? then {resultVar.value} else {}
    ensures r == InlineOptStmt(offset, o, varMap, resultVar, haveEarlyReturns, rw)
    ensures resultVar.Some? ==> resultVar.value.writeCount == old(resultVar.value.writeCount) + ValueReturnsOpt(o) &&
                                resultVar.value.readCount == old(resultVar.value.readCount)
    decreases o
  {
    r := None;
    if o.Some? {
      var inlined := InlineStatement(offset, o.value, varMap, resultVar, haveEarlyReturns, rw);
      r := Some(inlined);
    }
  }

  /** The statements of a block or a case, one after the other. */
  method InlineStatements(offset: int, ss: seq<Statement>, varMap: map<Variable, Variable>, resultVar: Option<Variable>,
                          haveEarlyReturns: bool, rw: InlineRewrite) returns (rs: seq<Statement>)
    requires resultVar.Some? || ValueReturnsIn(ss) == 0
    modifies if resultVar.Some? then {resultVar.value} else {}
    ensures rs == InlineStmts(offset, ss, varMap, resultVar, haveEarlyReturns, rw)
    ensures resultVar.Some? ==> resultVar.value.writeCount == old(resultVar.value.writeCount) + ValueReturnsIn(ss) &&
                                resultVar.value.readCount == old(resultVar.value.readCount)
    decreases ss
  {
    rs := [];
    for i := 0 to |ss|
      invariant resultVar.Some? || ValueReturnsIn(ss[..i]) == 0
      invariant rs == InlineStmts(offset, ss[..i], varMap, resultVar, haveEarlyReturns, rw)
      invariant resultVar.Some? ==> resultVar.value.writeCount == old(resultVar.value.writeCount) + ValueReturnsIn(ss[..i]) &&
                                    resultVar.value.readCount == old(resultVar.value.readCount)
    {
      ValueReturnsInSplit(ss, i + 1);
      assert ss[..i + 1] == ss[..i] + [ss[i]];
      InlineStmtsAppend(offset, ss[..i], ss[i], varMap, resultVar, haveEarlyReturns, rw);
      var inlined := InlineStatement(offset, ss[i], varMap, resultVar, haveEarlyReturns, rw);
      rs := rs + [inlined];
    }
    assert ss[..|ss|] == ss;
  }

  /** The cases of a switch: each case value through `inlineExpression`, then its statements. */
  method InlineCases(offset: int, cs: seq<SwitchCase>, varMap: map<Variable, Variable>, resultVar: Option<Variable>,
                     haveEarlyReturns: bool, rw: InlineRewrite) returns (rs: seq<SwitchCase>)
    requires resultVar.Some? || ValueReturnsCases(cs) == 0
    modifies if resultVar.Some? then {resultVar.value} else {}
    ensures rs == InlineCaseList(offset, cs, varMap, resultVar, haveEarlyReturns, rw)
    ensures resultVar.Some? ==> resultVar.value.writeCount == old(resultVar.value.writeCount) + ValueReturnsCases(cs) &&
                                resultVar.value.readCount == old(resultVar.value.readCount)
    decreases cs
  {
    rs := [];
    for i := 0 to |cs|
      invariant resultVar.Some? || ValueReturnsCases(cs[..i]) == 0
      invariant rs == InlineCaseList(offset, cs[..i], varMap, resultVar, haveEarlyReturns, rw)
      invariant resultVar.Some? ==> resultVar.value.writeCount == old(resultVar.value.writeCount) + ValueReturnsCases(cs[..i]) &&
                                    resultVar.value.readCount == old(resultVar.value.readCount)
    {
      ValueReturnsCasesSplit(cs, i + 1);
      assert cs[..i + 1] == cs[..i] + [cs[i]];
      InlineCaseListAppend(offset, cs[..i], cs[i], varMap, resultVar, haveEarlyReturns, rw);
      var inlined := InlineStatements(offset, cs[i].caseStatements, varMap, resultVar, haveEarlyReturns, rw);
      rs := rs + [SwitchCase(InlineOptExpr(cs[i].caseValue, varMap, rw), inlined)];
    }
    assert cs[..|cs|] == cs;
  }

  lemma {:induction false} ValueReturnsInSplit(ss: seq<Statement>, n: nat)
    requires n <= |ss|
    ensures ValueReturnsIn(ss) == ValueReturnsIn(ss[..n]) + ValueReturnsIn(ss[n..])
  {
    if n == 0 {
      assert ss[..0] == [] && ss[0..] == ss;
    } else {
      ValueReturnsInSplit(ss[1..], n - 1);
      assert ss[..n][1..] == ss[1..][..n - 1] && ss[1..][n - 1..] == ss[n..];
    }
  }

  lemma {:induction false} ValueReturnsCasesSplit(cs: seq<SwitchCase>, n: nat)
    requires n <= |cs|
    ensures ValueReturnsCases(cs) == ValueReturnsCases(cs[..n]) + ValueReturnsCases(cs[n..])
  {
    if n == 0 {
      assert cs[..0] == [] && cs[0..] == cs;
    } else {
      ValueReturnsCasesSplit(cs[1..], n - 1);
      assert cs[..n][1..] == cs[1..][..n - 1] && cs[1..][n - 1..] == cs[n..];
    }
  }
  // ---------------------------------------------------------------------------------
  // Names of inlined variables
  // ---------------------------------------------------------------------------------

  /**
   * The name the `k`th try gives a variable: "_", the number, "_" unless the base name
   * already starts with one, and the base name.
   */
  function InlineVarName(k: nat, baseName: string): string {
    "_" + IntToString(k) + (if StartsWith(baseName, "_") then "" else "_") + baseName
  }

  /** After the leading "_" come the digits of `k` and then a "_". */
  lemma {:induction false} InlineVarNameShape(k: nat, baseName: string)
    ensures var d := IntToString(k); var name := InlineVarName(k, baseName);
            |name| > |d| + 1 && name[0] == '_' && name[1..|d| + 1] == d && name[|d| + 1] == '_'
  {
    var d := IntToString(k);
    var name := InlineVarName(k, baseName);
    var rest := (if StartsWith(baseName, "_") then "" else "_") + baseName;
    assert name == "_" + d + rest;
    assert |rest| > 0 && rest[0] == '_';
    assert name[|d| + 1] == rest[0];
  }

  /** Two tries never give the same name, whatever the two base names are. */
  lemma {:induction false} InlineVarNamesDistinct(j: nat, k: nat, a: string, b: string)
    requires j != k
    ensures InlineVarName(j, a) != InlineVarName(k, b)
  {
    var dj, dk := IntToString(j), IntToString(k);
    InlineVarNameShape(j, a);
    InlineVarNameShape(k, b);
    if InlineVarName(j, a) == InlineVarName(k, b) {
      assert |dj| == |dk|;
      IntToStringInjective(j, k);
    }
  }

  /** No two underscores in a row: the rule the splitter choice keeps. */
  predicate NoDoubleUnderscore(s: string) {
    forall i :: 0 <= i < |s| - 1 ==> !(s[i] == '_' && s[i + 1] == '_')
  }

  /** A base name without two underscores in a row gives a name without them. */
  lemma {:induction false} InlineVarNameNoDoubleUnderscore(k: nat, baseName: string)
    requires NoDoubleUnderscore(baseName)
    ensures NoDoubleUnderscore(InlineVarName(k, baseName))
  {
    var d := IntToString(k);
    var sep := if StartsWith(baseName, "_") then "" else "_";
    var name := InlineVarName(k, baseName);
    assert name == "_" + d + sep + baseName;
    var m := |d| + 1 + |sep|;
    forall i | 0 <= i < |name| - 1
      ensures !(name[i] == '_' && name[i + 1] == '_')
    {
      if i < |d| {
        assert name[i + 1] == d[i];
      } else if i < m - 1 {
        assert sep == "_" && i == |d| && name[i] == d[|d| - 1];
      } else if i == m - 1 {
        assert name[i + 1] == baseName[0];
        if sep == "" {
          assert name[i] == d[|d| - 1];
        } else {
          assert !StartsWith(baseName, "_");
          assert baseName[..1] != "_";
        }
      } else {
        assert name[i] == baseName[i - m] && name[i + 1] == baseName[i - m + 1];
      }
    }
  }

  /** `Inliner`: the state it keeps between calls is the counter used for variable names. */
  class Inliner {
    var inlineVarCounter: nat

    constructor ()
      ensures inlineVarCounter == 0
    {
      inlineVarCounter := 0;
    }

    /** `Inliner::reset`. */
    method Reset()
      modifies this
      ensures inlineVarCounter == 0
    {
      inlineVarCounter := 0;
    }

    /**
     * `Inliner::uniqueNameForInlineVar`. `symbols` is every name the symbol table
     * resolves. The counter moves past each name tried; the result is the first tried
     * name the table does not know.
     */
    method UniqueNameForInlineVar(baseName: string, symbols: set<string>) returns (name: string)
      modifies this
      ensures name !in symbols
      ensures old(inlineVarCounter) < inlineVarCounter
      ensures name == InlineVarName(inlineVarCounter - 1, baseName)
      ensures forall k :: old(inlineVarCounter) <= k < inlineVarCounter - 1 ==> InlineVarName(k, baseName) in symbols
    {
      ghost var start := inlineVarCounter;
      while true
        invariant start <= inlineVarCounter
        invariant TriedNames(start, inlineVarCounter, baseName) <= symbols
        decreases |symbols - TriedNames(start, inlineVarCounter, baseName)|
      {
        name := InlineVarName(inlineVarCounter, baseName);
        inlineVarCounter := inlineVarCounter + 1;
        if name !in symbols {
          forall k | old(inlineVarCounter) <= k < inlineVarCounter - 1
            ensures InlineVarName(k, baseName) in symbols
          {
            TriedIncludes(start, inlineVarCounter - 1, k, baseName);
          }
          return;
        }
        TriedStep(start, inlineVarCounter - 1, baseName, symbols);
      }
    }

    /**
     * `makeInlineVar` in `Inliner::inlineCall`: a new local named by
     * `uniqueNameForInlineVar`, added to the call's symbol table, and the one-variable
     * declaration statement for it. A literal type is replaced by a real one.
     */
    method MakeInlineVar(offset: int, baseName: string, ty: Type, initialValue: Option<Expr>, table: SymbolTable,
                         types: InlineTypes) returns (v: Variable, decl: Statement)
      modifies this, table
      ensures fresh(v)
      ensures v.name !in old(table.names) && table.names == old(table.names) + {v.name}
      ensures old(inlineVarCounter) < inlineVarCounter && v.name == InlineVarName(inlineVarCounter - 1, baseName)
      ensures v.offset == -1 && v.modifiers == NoModifiers && v.ty == ScratchType(ty, types)
      ensures v.initialValue == initialValue && v.readCount == 0 && v.writeCount == 0
      ensures decl == InlineVarDecl(offset, v, initialValue)
    {
      var scratchType := ScratchType(ty, types);
      var name := UniqueNameForInlineVar(baseName, table.names);
      table.names := table.names + {name};
      v := new Variable(-1, name, NoModifiers, scratchType, initialValue);
      decl := InlineVarDecl(offset, v, initialValue);
    }

    /**
     * One turn of the argument loop of `Inliner::inlineCall`. `written` is whether the body
     * writes the parameter, which the loop asks `Analysis::StatementWritesToVariable`.
     */
    method MapArgument(offset: int, param: Variable, arg: Expr, body: Statement, ghost written: bool,
                       table: SymbolTable, types: InlineTypes) returns (v: Variable, decl: seq<Statement>)
      requires written == StatementWritesToVariable(body, param)
      modifies this, table
      ensures Reuses(arg, param, written) ==>
                v == arg.node.variable && decl == [] && table.names == old(table.names)
      ensures !Reuses(arg, param, written) ==>
                fresh(v) && v.name !in old(table.names) && table.names == old(table.names) + {v.name} &&
                TempFor(v, arg, types) && decl == [InlineVarDecl(offset, v, Some(arg))]
      ensures old(inlineVarCounter) <= inlineVarCounter
    {
      if arg.node.VariableReference? && (param.modifiers.isOut || !StatementWritesToVariable(body, param)) {
        v := arg.node.variable;
        decl := [];
      } else {
        var d;
        v, d := MakeInlineVar(offset, param.name, arg.ty, Some(arg), table, types);
        decl := [d];
      }
    }

    /**
     * The argument loop of `Inliner::inlineCall`: the variable standing for each
     * parameter. A variable argument is used as it is when the parameter is `out` or the
     * body never writes the parameter; any other argument gets a new local initialised
     * with it. `vars[i]` stands for `params[i]`; `decls` declares the new locals in order.
     */
    method MapArguments(offset: int, params: seq<Variable>, args: seq<Expr>, body: Statement, ghost written: seq<bool>,
                        table: SymbolTable, types: InlineTypes)
        returns (vars: seq<Variable>, varMap: map<Variable, Variable>, decls: seq<Statement>)
      requires |params| == |args| == |written|
      requires forall i {:trigger StatementWritesToVariable(body, params[i])} ::
                 0 <= i < |params| ==> written[i] == StatementWritesToVariable(body, params[i])
      requires forall i, j :: 0 <= i < j < |params| ==> params[i] != params[j]
      modifies this, table
      ensures ArgumentsMapped(params, args, written, vars, varMap, types)
      ensures forall i :: 0 <= i < |vars| && !Reuses(args[i], params[i], written[i]) ==>
                fresh(vars[i]) && vars[i].name !in old(table.names)
      ensures table.names == old(table.names) + TempNames(params, args, written, vars)
      ensures decls == TempDecls(offset, params, args, written, vars)
      ensures old(inlineVarCounter) <= inlineVarCounter
    {
      vars := [];
      varMap := map[];
      decls := [];
      for i := 0 to |params|
        invariant |vars| == i
        invariant ParamsLinked(params, args, written, vars, varMap, i)
        invariant forall j :: 0 <= j < i && !Reuses(args[j], params[j], written[j]) ==>
                    fresh(vars[j]) && vars[j].name !in old(table.names) && vars[j].name in table.names &&
                    TempFor(vars[j], args[j], types)
        invariant NewNamesDistinct(params[..i], args[..i], written[..i], vars)
        invariant table.names == old(table.names) + TempNames(params[..i], args[..i], written[..i], vars)
        invariant decls == TempDecls(offset, params[..i], args[..i], written[..i], vars)
        invariant old(inlineVarCounter) <= inlineVarCounter
      {
        ghost var namesBefore := table.names;
        var v, decl := MapArgument(offset, params[i], args[i], body, written[i], table, types);
        decls := decls + decl;
        ArgumentStep(offset, params, args, written, vars, v, i);
        NamesDistinctStep(params, args, written, vars, v, i, namesBefore);
        LinkStep(params, args, written, vars, varMap, v, i);
        varMap := varMap[params[i] := v];
        vars := vars + [v];
      }
      assert params[..|params|] == params && args[..|args|] == args && written[..|written|] == written;
    }

    /**
     * The copy-back loop of `Inliner::inlineCall`: `arg = temp;` for each `out` parameter,
     * unless the argument is a reference to the very variable standing for the parameter.
     * Each copy reads its temporary once.
     */
    method CopyBacks(offset: int, params: seq<Variable>, args: seq<Expr>, vars: seq<Variable>) returns (stmts: seq<Statement>)
      requires |params| == |args| == |vars|
      requires forall i :: 0 <= i < |params| && CopiesBack(args[i], params[i], vars[i]) ==> CheckRef(args[i])
      requires forall i, j ::
                 0 <= i < j < |params| && CopiesBack(args[i], params[i], vars[i]) && CopiesBack(args[j], params[j], vars[j]) ==>
                 vars[i] != vars[j]
      modifies set i | 0 <= i < |params| && CopiesBack(args[i], params[i], vars[i]) :: vars[i]
      ensures stmts == CopyBackStmts(offset, params, args, vars)
      ensures forall i :: 0 <= i < |params| && CopiesBack(args[i], params[i], vars[i]) ==>
                vars[i].readCount == old(vars[i].readCount) + 1 && vars[i].writeCount == old(vars[i].writeCount)
    {
      stmts := [];
      for i := 0 to |params|
        invariant stmts == CopyBackStmts(offset, params[..i], args[..i], vars[..i])
        invariant forall j :: 0 <= j < |params| && CopiesBack(args[j], params[j], vars[j]) ==>
                    vars[j].readCount == old(vars[j].readCount) + (if j < i then 1 else 0) &&
                    vars[j].writeCount == old(vars[j].writeCount)
      {
        CopyBackStep(offset, params, args, vars, i);
        if params[i].modifiers.isOut {
          if args[i].node.VariableReference? && args[i].node.variable == vars[i] {
            // No temporary was made for this parameter: nothing to copy back.
          } else {
            var varRef := MakeReference(offset, vars[i], Read);
            stmts := stmts + [ExpressionStatement(MakeBinary(offset, args[i], Eq, varRef, args[i].ty))];
          }
        }
      }
      assert params[..|params|] == params && args[..|args|] == args && vars[..|vars|] == vars;
    }

    /** The result variable of `Inliner::inlineCall`: a new local named after the function, unless it is void. */
    method MakeResultVar(offset: int, decl: FunctionDeclaration, table: SymbolTable, types: InlineTypes)
        returns (resultVar: Option<Variable>, decls: seq<Statement>)
      modifies this, table
      ensures resultVar.Some? <==> decl.returnType != VoidType
      ensures resultVar.Some? ==>
                fresh(resultVar.value) && resultVar.value.name !in old(table.names) &&
                resultVar.value.ty == ScratchType(decl.returnType, types) && resultVar.value.initialValue.None? &&
                resultVar.value.readCount == 0 && resultVar.value.writeCount == 0
      ensures table.names == old(table.names) + ResultNames(resultVar)
      ensures decls == ResultDecls(offset, resultVar)
      ensures old(inlineVarCounter) <= inlineVarCounter
    {
      resultVar := None;
      decls := [];
      if decl.returnType != VoidType {
        var v, d := MakeInlineVar(offset, decl.name, decl.returnType, None, table, types);
        resultVar := Some(v);
        decls := [d];
      }
    }

    /**
     * The locals `Inliner::inlineCall` declares before the body: the result variable if the
     * function is not void, then one for each argument that needs one.
     */
    method DeclareLocals(offset: int, def: FunctionDefinition, args: seq<Expr>, table: SymbolTable, types: InlineTypes)
        returns (resultVar: Option<Variable>, vars: seq<Variable>, varMap: map<Variable, Variable>, decls: seq<Statement>)
      requires |args| == |def.declaration.parameters|
      requires var params := def.declaration.parameters;
        forall i, j :: 0 <= i < j < |params| ==> params[i] != params[j]
      modifies this, table
      ensures |vars| == |args|
      ensures resultVar.Some? <==> def.declaration.returnType != VoidType
      ensures resultVar.Some? ==>
                fresh(resultVar.value) && resultVar.value.name !in old(table.names) &&
                resultVar.value.ty == ScratchType(def.declaration.returnType, types) && resultVar.value.initialValue.None? &&
                resultVar.value.readCount == 0 && resultVar.value.writeCount == 0
      ensures var params := def.declaration.parameters;
              ArgumentsMapped(params, args, ParamWrites(params, def.body), vars, varMap, types)
      ensures var params := def.declaration.parameters;
              var written := ParamWrites(params, def.body);
              forall i :: 0 <= i < |vars| && !Reuses(args[i], params[i], written[i]) ==>
                fresh(vars[i]) && vars[i].name !in old(table.names) && vars[i].name !in ResultNames(resultVar)
      ensures var params := def.declaration.parameters;
              table.names == old(table.names) + ResultNames(resultVar) +
                             TempNames(params, args, ParamWrites(params, def.body), vars)
      ensures var params := def.declaration.parameters;
              decls == ResultDecls(offset, resultVar) + TempDecls(offset, params, args, ParamWrites(params, def.body), vars)
      ensures old(inlineVarCounter) <= inlineVarCounter
    {
      var params := def.declaration.parameters;
      var resultDecls;
      resultVar, resultDecls := MakeResultVar(offset, def.declaration, table, types);
      var written := ParamWrites(params, def.body);
      var tempDecls;
      vars, varMap, tempDecls := MapArguments(offset, params, args, def.body, written, table, types);
      decls := resultDecls + tempDecls;
    }

    /**
     * `Inliner::inlineCall`: the statements that replace the call's enclosing statement's
     * prefix, and the expression that replaces the call. In order: the inline marker, the
     * result variable if the function is not void, a local for each argument that needs
     * one, the body (inside `do {} while (false)` when it has early returns), and the
     * copies back to `out` arguments. Every new local gets a name the symbol table did not
     * know, and no two of them share one.
     */
    method InlineCall(call: Expr, definitions: map<FunctionDeclaration, FunctionDefinition>, table: SymbolTable,
                      types: InlineTypes, canUseDoLoops: bool, rw: InlineRewrite)
        returns (r: InlinedCall, resultVar: Option<Variable>, vars: seq<Variable>, varMap: map<Variable, Variable>)
      requires call.node.FunctionCall? && call.node.callee in definitions
      requires SafeToInline(call.node.callee, definitions, IntMax, canUseDoLoops)
      requires InlinableCall(call, definitions)
      modifies this, table
      ensures |vars| == |call.node.arguments|
      ensures resultVar.Some? <==> definitions[call.node.callee].declaration.returnType != VoidType
      ensures r.inlinedBody == InlinedBody(call.offset, call.node.callee, definitions[call.node.callee], call.node.arguments,
                                           types, resultVar, vars, varMap, rw)
      ensures resultVar.Some? ==>
                fresh(resultVar.value) && resultVar.value.name !in old(table.names) &&
                resultVar.value.ty == ScratchType(definitions[call.node.callee].declaration.returnType, types) &&
                r.replacementExpr == Expr(call.offset, resultVar.value.ty, VariableReference(resultVar.value, Read)) &&
                resultVar.value.readCount == 1 &&
                resultVar.value.writeCount == ValueReturns(definitions[call.node.callee].body)
      ensures resultVar.None? ==> r.replacementExpr == Expr(call.offset, types.boolType, BoolLiteral(false))
      ensures var def := definitions[call.node.callee];
              ArgumentsMapped(def.declaration.parameters, call.node.arguments,
                              ParamWrites(def.declaration.parameters, def.body), vars, varMap, types)
      ensures var def := definitions[call.node.callee];
              var written := ParamWrites(def.declaration.parameters, def.body);
              forall i :: 0 <= i < |vars| && !Reuses(call.node.arguments[i], def.declaration.parameters[i], written[i]) ==>
                fresh(vars[i]) && vars[i].name !in old(table.names) && vars[i].name !in ResultNames(resultVar)
      ensures var def := definitions[call.node.callee];
              table.names == old(table.names) + ResultNames(resultVar) +
                             TempNames(def.declaration.parameters, call.node.arguments,
                                       ParamWrites(def.declaration.parameters, def.body), vars)
      ensures old(inlineVarCounter) <= inlineVarCounter
    {
      r, resultVar, vars, varMap :=
        InlineDefinition(call.offset, call.node.callee, definitions[call.node.callee], call.node.arguments,
                         table, types, rw);
    }

    /** `InlineCall` once the callee's definition has been looked up. */
    method InlineDefinition(offset: int, callee: FunctionDeclaration, def: FunctionDefinition, args: seq<Expr>,
                            table: SymbolTable, types: InlineTypes, rw: InlineRewrite)
        returns (r: InlinedCall, resultVar: Option<Variable>, vars: seq<Variable>, varMap: map<Variable, Variable>)
      requires InlinableDefinition(def, args)
      modifies this, table
      ensures |vars| == |args|
      ensures resultVar.Some? <==> def.declaration.returnType != VoidType
      ensures r.inlinedBody == InlinedBody(offset, callee, def, args, types, resultVar, vars, varMap, rw)
      ensures resultVar.Some? ==>
                fresh(resultVar.value) && resultVar.value.name !in old(table.names) &&
                resultVar.value.ty == ScratchType(def.declaration.returnType, types) &&
                r.replacementExpr == Expr(offset, resultVar.value.ty, VariableReference(resultVar.value, Read)) &&
                resultVar.value.readCount == 1 && resultVar.value.writeCount == ValueReturns(def.body)
      ensures resultVar.None? ==> r.replacementExpr == Expr(offset, types.boolType, BoolLiteral(false))
      ensures var params := def.declaration.parameters;
              ArgumentsMapped(params, args, ParamWrites(params, def.body), vars, varMap, types)
      ensures var params := def.declaration.parameters;
              var written := ParamWrites(params, def.body);
              forall i :: 0 <= i < |vars| && !Reuses(args[i], params[i], written[i]) ==>
                fresh(vars[i]) && vars[i].name !in old(table.names) && vars[i].name !in ResultNames(resultVar)
      ensures var params := def.declaration.parameters;
              table.names == old(table.names) + ResultNames(resultVar) + TempNames(params, args, ParamWrites(params, def.body), vars)
      ensures old(inlineVarCounter) <= inlineVarCounter
    {
      var params := def.declaration.parameters;
      var hasEarlyReturn := HasEarlyReturn(def);

      ghost var written := ParamWrites(params, def.body);
      var decls;
      resultVar, vars, varMap, decls := DeclareLocals(offset, def, args, table, types);
      var inlinedBody := [InlineMarker(callee)] + decls;
      ConcatAssoc([InlineMarker(callee)], ResultDecls(offset, resultVar), TempDecls(offset, params, args, written, vars));

      var inlinedStatements := InlineStatements(offset, def.body.statements, varMap, resultVar, hasEarlyReturn, rw);
      var inlineBlock := Block(inlinedStatements, true, false);
      if hasEarlyReturn {
        inlinedBody := inlinedBody + [Do(inlineBlock, Expr(offset, types.boolType, BoolLiteral(false)))];
      } else {
        inlinedBody := inlinedBody + [inlineBlock];
      }

      CopyBackNeedsTemp(params, args, written, vars);
      var copies, replacementExpr := FinishCall(offset, params, args, vars, resultVar, types);
      inlinedBody := inlinedBody + copies;
      r := InlinedCall(Block(inlinedBody, false, false), replacementExpr);
    }

    /**
     * The end of `Inliner::inlineCall`: the copies back to `out` arguments, then the
     * expression replacing the call, a read of the result variable or, for a void
     * function, `false`.
     */
    method FinishCall(offset: int, params: seq<Variable>, args: seq<Expr>, vars: seq<Variable>,
                      resultVar: Option<Variable>, types: InlineTypes) returns (copies: seq<Statement>, replacementExpr: Expr)
      requires |params| == |args| == |vars|
      requires forall i :: 0 <= i < |params| && CopiesBack(args[i], params[i], vars[i]) ==> CheckRef(args[i])
      requires forall i, j ::
                 0 <= i < j < |params| && CopiesBack(args[i], params[i], vars[i]) && CopiesBack(args[j], params[j], vars[j]) ==>
                 vars[i] != vars[j]
      requires resultVar.Some? ==>
                 forall i :: 0 <= i < |params| && CopiesBack(args[i], params[i], vars[i]) ==> vars[i] != resultVar.value
      modifies set i | 0 <= i < |params| && CopiesBack(args[i], params[i], vars[i]) :: vars[i]
      modifies if resultVar.Some? then {resultVar.value} else {}
      ensures copies == CopyBackStmts(offset, params, args, vars)
      ensures forall i :: 0 <= i < |params| && CopiesBack(args[i], params[i], vars[i]) ==>
                vars[i].readCount == old(vars[i].readCount) + 1 && vars[i].writeCount == old(vars[i].writeCount)
      ensures resultVar.Some? ==>
                replacementExpr == Expr(offset, resultVar.value.ty, VariableReference(resultVar.value, Read)) &&
                resultVar.value.readCount == old(resultVar.value.readCount) + 1 &&
                resultVar.value.writeCount == old(resultVar.value.writeCount)
      ensures resultVar.None? ==> replacementExpr == Expr(offset, types.boolType, BoolLiteral(false))
    {
      copies := CopyBacks(offset, params, args, vars);
      if resultVar.Some? {
        replacementExpr := MakeReference(offset, resultVar.value, Read);
      } else {
        replacementExpr := Expr(offset, types.boolType, BoolLiteral(false));
      }
    }
  }

  /** The names tried for counters `start` up to `end`, excluded. */
  ghost function TriedNames(start: nat, end: nat, baseName: string): set<string>
    decreases end
  {
    if end <= start then {} else TriedNames(start, end - 1, baseName) + {InlineVarName(end - 1, baseName)}
  }

  /** A taken name joins the tried ones, and fewer untried names of the table remain. */
  lemma {:induction false} TriedStep(start: nat, k: nat, baseName: string, symbols: set<string>)
    requires start <= k
    requires TriedNames(start, k, baseName) <= symbols && InlineVarName(k, baseName) in symbols
    ensures TriedNames(start, k + 1, baseName) <= symbols
    ensures |symbols - TriedNames(start, k + 1, baseName)| < |symbols - TriedNames(start, k, baseName)|
  {
    var name := InlineVarName(k, baseName);
    NotYetTried(start, k, baseName);
    assert TriedNames(start, k + 1, baseName) == TriedNames(start, k, baseName) + {name};
    assert symbols - TriedNames(start, k + 1, baseName) == (symbols - TriedNames(start, k, baseName)) - {name};
  }

  /** Every counter from `start` up to `end` gave one of the tried names. */
  lemma {:induction false} TriedIncludes(start: nat, end: nat, k: nat, baseName: string)
    requires start <= k < end
    ensures InlineVarName(k, baseName) in TriedNames(start, end, baseName)
    decreases end
  {
    if k < end - 1 {
      TriedIncludes(start, end - 1, k, baseName);
    }
  }

  /** The names tried so far all come from smaller counters, so the next one is new. */
  lemma {:induction false} NotYetTried(start: nat, k: nat, baseName: string)
    ensures InlineVarName(k, baseName) !in TriedNames(start, k, baseName)
    decreases k
  {
    if k > start {
      NotYetTried(start, k - 1, baseName);
      InlineVarNamesDistinct(k - 1, k, baseName, baseName);
      NotTriedLater(start, k - 1, k, baseName);
    }
  }

  lemma {:induction false} NotTriedLater(start: nat, end: nat, k: nat, baseName: string)
    requires end <= k
    ensures InlineVarName(k, baseName) !in TriedNames(start, end, baseName)
    decreases end
  {
    if end > start {
      InlineVarNamesDistinct(end - 1, k, baseName, baseName);
      NotTriedLater(start, end - 1, k, baseName);
    }
  }

  /** Two names produced by one inliner never clash. */
  lemma {:induction false} UniqueNamesDiffer(k1: nat, k2: nat, base1: string, base2: string)
    requires k1 < k2
    ensures InlineVarName(k1, base1) != InlineVarName(k2, base2)
  {
    InlineVarNamesDistinct(k1, k2, base1, base2);
  }

  // ---------------------------------------------------------------------------------
  // ensure_scoped_blocks and find_parent_statement
  // ---------------------------------------------------------------------------------

  predicate IsLoopOrIf(s: Statement) {
    s.If? || s.For? || s.Do? || s.While?
  }

  /**
   * Walking down the chain of single-statement blocks from `b`, a block without a scope
   * holding zero or several statements comes before any scoped block or non-block.
   */
  predicate NeedsScope(b: Statement)
    requires b.Block?
  {
    !b.isScope &&
    (|b.statements| != 1 || (b.statements[0].Block? && NeedsScope(b.statements[0])))
  }

  /**
   * `ensure_scoped_blocks`: a block that becomes the body of an if, for, do or while is
   * given a scope when it could not otherwise be written as text. The block is returned
   * with only its own scope flag possibly set.
   */
  method EnsureScopedBlocks(inlinedBody: Statement, parent: Option<Statement>) returns (r: Statement)
    requires inlinedBody.Block?
    ensures r.Block? && r.statements == inlinedBody.statements && r.hasSymbols == inlinedBody.hasSymbols
    ensures r.isScope == (inlinedBody.isScope ||
                          (parent.Some? && IsLoopOrIf(parent.value) && NeedsScope(inlinedBody)))
  {
    r := inlinedBody;
    if parent.Some? && IsLoopOrIf(parent.value) {
      var nested := inlinedBody;
      while true
        invariant nested.Block?
        invariant NeedsScope(inlinedBody) == NeedsScope(nested)
        invariant inlinedBody.isScope ==> nested == inlinedBody
        decreases nested
      {
        if nested.isScope {
          return;
        }
        if |nested.statements| != 1 {
          r := inlinedBody.(isScope := true);
          return;
        }
        if !nested.statements[0].Block? {
          return;
        }
        nested := nested.statements[0];
      }
    }
  }

  /** Once scoped, the block needs nothing more: a second call changes nothing. */
  lemma {:induction false} EnsureScopedBlocksSettles(inlinedBody: Statement, parent: Statement)
    requires inlinedBody.Block? && IsLoopOrIf(parent)
    ensures var r := inlinedBody.(isScope := inlinedBody.isScope || NeedsScope(inlinedBody));
            !NeedsScope(r) && r.(isScope := r.isScope || NeedsScope(r)) == r
  {
  }

  /** A block whose braces may be dropped: it has no scope of its own. */
  predicate UnscopedBlock(s: Statement) {
    s.Block? && !s.isScope
  }

  /**
   * `find_parent_statement`: below the enclosing statement (the top of the stack), the
   * nearest statement that is not a block without scope, if there is one.
   */
  function ParentStatement(stmtStack: seq<Statement>): Option<Statement>
    requires |stmtStack| >= 1
  {
    if |stmtStack| == 1 then None
    else if !UnscopedBlock(stmtStack[|stmtStack| - 2]) then Some(stmtStack[|stmtStack| - 2])
    else ParentStatement(stmtStack[..|stmtStack| - 1])
  }

  /** The parent found is the nearest one below the top; none means only unscoped blocks lie below. */
  lemma {:induction false} ParentStatementIsNearest(stmtStack: seq<Statement>)
    requires |stmtStack| >= 1
    ensures ParentStatement(stmtStack).None? <==> forall i :: 0 <= i < |stmtStack| - 1 ==> UnscopedBlock(stmtStack[i])
    ensures ParentStatement(stmtStack).Some? ==>
              exists i :: 0 <= i < |stmtStack| - 1 && stmtStack[i] == ParentStatement(stmtStack).value &&
                          !UnscopedBlock(stmtStack[i]) && forall j :: i < j < |stmtStack| - 1 ==> UnscopedBlock(stmtStack[j])
  {
    var n := |stmtStack|;
    if n > 1 && UnscopedBlock(stmtStack[n - 2]) {
      var below := stmtStack[..n - 1];
      ParentStatementIsNearest(below);
      assert forall i :: 0 <= i < n - 2 ==> below[i] == stmtStack[i];
      if ParentStatement(below).Some? {
        var i :| 0 <= i < n - 2 && below[i] == ParentStatement(below).value &&
                 !UnscopedBlock(below[i]) && forall j :: i < j < n - 2 ==> UnscopedBlock(below[j]);
        assert forall j :: i < j < n - 1 ==> UnscopedBlock(stmtStack[j]);
      }
    }
  }

  method FindParentStatement(stmtStack: seq<Statement>) returns (r: Option<Statement>)
    requires |stmtStack| >= 1
    ensures r == ParentStatement(stmtStack)
  {
    var i := |stmtStack| - 1;
    assert stmtStack[..i + 1] == stmtStack;
    while i > 0
      invariant 0 <= i <= |stmtStack| - 1
      invariant ParentStatement(stmtStack) == ParentStatement(stmtStack[..i + 1])
    {
      assert stmtStack[..i + 1][..i] == stmtStack[..i];
      i := i - 1;
      var stmt := stmtStack[i];
      if !stmt.Block? || stmt.isScope {
        return Some(stmt);
      }
    }
    return None;
  }

  // ---------------------------------------------------------------------------------
  // Finding inline candidates
  // ---------------------------------------------------------------------------------

  /**
   * The calls the analyzer may inline within `e`, in the order it finds them: a call's
   * arguments come before the call itself. The right operand of `&&` and `||` and the
   * branches of a ternary are not entered (evaluating them could break short-circuiting),
   * and neither are field accesses, settings or any other leaf.
   */
  function ExprCalls(e: Expr): seq<Expr> {
    match e.node
    case Binary(l, op, r) => ExprCalls(l) + (if op == LogicalAnd || op == LogicalOr then [] else ExprCalls(r))
    case Constructor(args) => ArgCalls(args)
    case ExternalFunctionCall(_, args) => ArgCalls(args)
    case FunctionCall(_, args) => ArgCalls(args) + [e]
    case Index(b, i) => ExprCalls(b) + ExprCalls(i)
    case Postfix(o, _) => ExprCalls(o)
    case Prefix(_, o) => ExprCalls(o)
    case Swizzle(b, _) => ExprCalls(b)
    case Ternary(t, _, _) => ExprCalls(t)
    case _ => []
  }

  function ArgCalls(args: seq<Expr>): seq<Expr> {
    if args == [] then [] else ExprCalls(args[0]) + ArgCalls(args[1..])
  }

  function OptExprCalls(o: Option<Expr>): seq<Expr> {
    if o.Some? then ExprCalls(o.value) else []
  }

  /**
   * The calls the analyzer may inline within `s`. Loop tests, for-loop increments, case
   * values and declaration sizes are not entered.
   */
  function StmtCalls(s: Statement): seq<Expr> {
    match s
    case Block(ss, _, _) => StmtListCalls(ss)
    case Do(body, _) => StmtCalls(body)
    case ExpressionStatement(e) => ExprCalls(e)
    case For(init, _, _, body, _) => OptStmtCalls(init) + StmtCalls(body)
    case If(_, test, t, f) => ExprCalls(test) + StmtCalls(t) + OptStmtCalls(f)
    case Return(v) => OptExprCalls(v)
    case Switch(_, v, cases, _) => ExprCalls(v) + CaseCalls(cases)
    case VarDeclaration(_, _, _, v) => OptExprCalls(v)
    case VarDeclarations(d) => StmtListCalls(d.vars)
    case While(_, body) => StmtCalls(body)
    case _ => []
  }

  function StmtListCalls(ss: seq<Statement>): seq<Expr> {
    if ss == [] then [] else StmtCalls(ss[0]) + StmtListCalls(ss[1..])
  }

  function OptStmtCalls(o: Option<Statement>): seq<Expr> {
    if o.Some? then StmtCalls(o.value) else []
  }

  function CaseCalls(cs: seq<SwitchCase>): seq<Expr> {
    if cs == [] then [] else StmtListCalls(cs[0].caseStatements) + CaseCalls(cs[1..])
  }

  /** Every candidate is a function call. */
  lemma {:induction false} ExprCallsAreCalls(e: Expr)
    ensures forall c :: c in ExprCalls(e) ==> c.node.FunctionCall?
  {
    match e.node
    case Binary(l, op, r) => ExprCallsAreCalls(l); ExprCallsAreCalls(r);
    case Constructor(args) => ArgCallsAreCalls(args);
    case ExternalFunctionCall(_, args) => ArgCallsAreCalls(args);
    case FunctionCall(_, args) => ArgCallsAreCalls(args);
    case Index(b, i) => ExprCallsAreCalls(b); ExprCallsAreCalls(i);
    case Postfix(o, _) => ExprCallsAreCalls(o);
    case Prefix(_, o) => ExprCallsAreCalls(o);
    case Swizzle(b, _) => ExprCallsAreCalls(b);
    case Ternary(t, _, _) => ExprCallsAreCalls(t);
    case _ =>
  }

  lemma {:induction false} ArgCallsAreCalls(args: seq<Expr>)
    ensures forall c :: c in ArgCalls(args) ==> c.node.FunctionCall?
  {
    if args != [] {
      ExprCallsAreCalls(args[0]);
      ArgCallsAreCalls(args[1..]);
    }
  }

  /** Nothing in the right operand of `&&` or `||` is a candidate. */
  lemma {:induction false} ShortCircuitRightIgnored(offset: int, ty: Type, l: Expr, op: Operator, r: Expr, r': Expr)
    requires op == LogicalAnd || op == LogicalOr
    ensures ExprCalls(Expr(offset, ty, Binary(l, op, r))) == ExprCalls(l)
    ensures ExprCalls(Expr(offset, ty, Binary(l, op, r))) == ExprCalls(Expr(offset, ty, Binary(l, op, r')))
  {
  }

  /** Only the test of a ternary is searched. */
  lemma {:induction false} TernaryBranchesIgnored(offset: int, ty: Type, test: Expr, t: Expr, f: Expr)
    ensures ExprCalls(Expr(offset, ty, Ternary(test, t, f))) == ExprCalls(test)
  {
  }

  /** Loop tests and for-loop increments are never searched. */
  lemma {:induction false} LoopTestsIgnored(body: Statement, test: Expr, init: Option<Statement>, forTest: Option<Expr>,
                         next: Option<Expr>, hasSymbols: bool)
    ensures StmtCalls(Do(body, test)) == StmtCalls(body)
    ensures StmtCalls(While(test, body)) == StmtCalls(body)
    ensures StmtCalls(For(init, forTest, next, body, hasSymbols)) == OptStmtCalls(init) + StmtCalls(body)
  {
  }

  /** The symbol table in scope: the program's or the one a statement owns. */
  datatype SymbolTableId = ProgramSymbols | StatementSymbols(owner: seq<nat>)

  /** A statement slot: its path from the program root and the statement in it. */
  datatype StmtSlot = StmtSlot(path: seq<nat>, stmt: Statement)

  /** Where a call was found: its symbol table, its parent statement and its enclosing statement's slot. */
  datatype Site = Site(symbols: SymbolTableId, parentStmt: Option<Statement>, enclosingStmt: seq<nat>)

  datatype InlineCandidate = InlineCandidate(site: Site, call: Expr)

  function Slots(stack: seq<StmtSlot>): (r: seq<Statement>)
    ensures |r| == |stack| && forall i :: 0 <= i < |stack| ==> r[i] == stack[i].stmt
  {
    seq(|stack|, i requires 0 <= i < |stack| => stack[i].stmt)
  }

  /** The site of a call found with these stacks: the top table, the parent and the top slot. */
  function SiteOf(tables: seq<SymbolTableId>, stack: seq<StmtSlot>): Site
    requires |tables| > 0 && |stack| > 0
  {
    Site(tables[|tables| - 1], ParentStatement(Slots(stack)), stack[|stack| - 1].path)
  }

  function AtSite(calls: seq<Expr>, site: Site): seq<InlineCandidate> {
    seq(|calls|, i requires 0 <= i < |calls| => InlineCandidate(site, calls[i]))
  }

  function CallsOf(cs: seq<InlineCandidate>): seq<Expr> {
    seq(|cs|, i requires 0 <= i < |cs| => cs[i].call)
  }

  function PushTable(tables: seq<SymbolTableId>, hasSymbols: bool, path: seq<nat>): seq<SymbolTableId> {
    if hasSymbols then tables + [StatementSymbols(path)] else tables
  }

  /**
   * The candidates `InlineCandidateAnalyzer::visitStatement` adds for `s` at `path`, given
   * the two stacks when it is reached. A statement viable as an enclosing statement is
   * pushed first; a for-loop initializer and the declarations in a declaration
   * statement are not viable. Blocks, for loops and switches that own symbols push them.
   */
  function StmtCandidates(s: Statement, path: seq<nat>, viable: bool, tables: seq<SymbolTableId>,
                          stack: seq<StmtSlot>): seq<InlineCandidate>
    requires |tables| > 0 && (viable || |stack| > 0)
    decreases s, 1
  {
    KindCandidates(s, path, tables, if viable then stack + [StmtSlot(path, s)] else stack)
  }

  /** The candidates of `s` once the enclosing-statement stack `st` holds its slot if viable. */
  function KindCandidates(s: Statement, path: seq<nat>, tables: seq<SymbolTableId>, st: seq<StmtSlot>): seq<InlineCandidate>
    requires |tables| > 0 && |st| > 0
    decreases s, 0
  {
    match s
    case Block(ss, _, hasSymbols) => StmtListCandidates(ss, path, 0, true, PushTable(tables, hasSymbols, path), st)
    case Do(body, _) => StmtCandidates(body, path + [0], true, tables, st)
    case ExpressionStatement(e) => AtSite(ExprCalls(e), SiteOf(tables, st))
    case For(init, _, _, body, hasSymbols) =>
      var ts := PushTable(tables, hasSymbols, path);
      OptStmtCandidates(init, path + [0], false, ts, st) + StmtCandidates(body, path + [1], true, ts, st)
    case If(_, test, t, f) =>
      AtSite(ExprCalls(test), SiteOf(tables, st)) + StmtCandidates(t, path + [0], true, tables, st) +
      OptStmtCandidates(f, path + [1], true, tables, st)
    case Return(v) => AtSite(OptExprCalls(v), SiteOf(tables, st))
    case Switch(_, v, cases, hasSymbols) =>
      var ts := PushTable(tables, hasSymbols, path);
      AtSite(ExprCalls(v), SiteOf(ts, st)) + CaseCandidates(cases, path, 0, ts, st)
    case VarDeclaration(_, _, _, v) => AtSite(OptExprCalls(v), SiteOf(tables, st))
    case VarDeclarations(d) => StmtListCandidates(d.vars, path, 0, false, tables, st)
    case While(_, body) => StmtCandidates(body, path + [0], true, tables, st)
    case _ => []
  }

  /** The statements of a list sit at `path + [k]`, `path + [k + 1]`, and so on. */
  function StmtListCandidates(ss: seq<Statement>, path: seq<nat>, k: nat, viable: bool,
                              tables: seq<SymbolTableId>, stack: seq<StmtSlot>): seq<InlineCandidate>
    requires |tables| > 0 && (viable || |stack| > 0)
    decreases ss
  {
    if ss == [] then []
    else StmtCandidates(ss[0], path + [k], viable, tables, stack) +
         StmtListCandidates(ss[1..], path, k + 1, viable, tables, stack)
  }

  function OptStmtCandidates(o: Option<Statement>, path: seq<nat>, viable: bool,
                             tables: seq<SymbolTableId>, stack: seq<StmtSlot>): seq<InlineCandidate>
    requires |tables| > 0 && (viable || |stack| > 0)
    decreases o
  {
    if o.Some? then StmtCandidates(o.value, path, viable, tables, stack) else []
  }

  /** The statements of the `k`th case sit at `path + [k, 0]`, `path + [k, 1]`, and so on. */
  function CaseCandidates(cs: seq<SwitchCase>, path: seq<nat>, k: nat,
                          tables: seq<SymbolTableId>, stack: seq<StmtSlot>): seq<InlineCandidate>
    requires |tables| > 0
    decreases cs
  {
    if cs == [] then []
    else StmtListCandidates(cs[0].caseStatements, path + [k], 0, true, tables, stack) +
         CaseCandidates(cs[1..], path, k + 1, tables, stack)
  }

  /** Only function definitions are searched; the body of the `i`th element sits at `[i]`. */
  function ElementCandidates(pe: ProgramElement, i: nat): seq<InlineCandidate> {
    if pe.Function? then StmtCandidates(pe.definition.body, [i], true, [ProgramSymbols], []) else []
  }

  function ElementListCandidates(es: seq<ProgramElement>, k: nat): seq<InlineCandidate> {
    if es == [] then [] else ElementCandidates(es[0], k) + ElementListCandidates(es[1..], k + 1)
  }

  function ProgramCandidates(p: Program): seq<InlineCandidate> {
    ElementListCandidates(p.elements, 0)
  }

  lemma {:induction false} StmtListCandidatesAppend(ss: seq<Statement>, x: Statement, path: seq<nat>, k: nat, viable: bool,
                                                    tables: seq<SymbolTableId>, stack: seq<StmtSlot>)
    requires |tables| > 0 && (viable || |stack| > 0)
    ensures StmtListCandidates(ss + [x], path, k, viable, tables, stack) ==
            StmtListCandidates(ss, path, k, viable, tables, stack) + StmtCandidates(x, path + [k + |ss|], viable, tables, stack)
  {
    if ss == [] {
      assert ss + [x] == [x] && [x][1..] == [];
    } else {
      var h := StmtCandidates(ss[0], path + [k], viable, tables, stack);
      var t := StmtListCandidates(ss[1..], path, k + 1, viable, tables, stack);
      var a := StmtCandidates(x, path + [k + |ss|], viable, tables, stack);
      assert (ss + [x])[0] == ss[0] && (ss + [x])[1..] == ss[1..] + [x];
      assert StmtListCandidates(ss + [x], path, k, viable, tables, stack) ==
             h + StmtListCandidates(ss[1..] + [x], path, k + 1, viable, tables, stack);
      StmtListCandidatesAppend(ss[1..], x, path, k + 1, viable, tables, stack);
      assert k + 1 + |ss[1..]| == k + |ss|;
      ConcatAssoc(h, t, a);
    }
  }

  lemma {:induction false} CaseCandidatesAppend(cs: seq<SwitchCase>, c: SwitchCase, path: seq<nat>, k: nat,
                                                tables: seq<SymbolTableId>, stack: seq<StmtSlot>)
    requires |tables| > 0
    ensures CaseCandidates(cs + [c], path, k, tables, stack) ==
            CaseCandidates(cs, path, k, tables, stack) + StmtListCandidates(c.caseStatements, path + [k + |cs|], 0, true, tables, stack)
  {
    if cs == [] {
      assert cs + [c] == [c] && [c][1..] == [];
    } else {
      var h := StmtListCandidates(cs[0].caseStatements, path + [k], 0, true, tables, stack);
      var t := CaseCandidates(cs[1..], path, k + 1, tables, stack);
      var a := StmtListCandidates(c.caseStatements, path + [k + |cs|], 0, true, tables, stack);
      assert (cs + [c])[0] == cs[0] && (cs + [c])[1..] == cs[1..] + [c];
      assert CaseCandidates(cs + [c], path, k, tables, stack) == h + CaseCandidates(cs[1..] + [c], path, k + 1, tables, stack);
      CaseCandidatesAppend(cs[1..], c, path, k + 1, tables, stack);
      assert k + 1 + |cs[1..]| == k + |cs|;
      ConcatAssoc(h, t, a);
    }
  }

  lemma {:induction false} ElementListCandidatesAppend(es: seq<ProgramElement>, e: ProgramElement, k: nat)
    ensures ElementListCandidates(es + [e], k) == ElementListCandidates(es, k) + ElementCandidates(e, k + |es|)
  {
    if es == [] {
      assert es + [e] == [e] && [e][1..] == [];
    } else {
      var h := ElementCandidates(es[0], k);
      assert (es + [e])[0] == es[0] && (es + [e])[1..] == es[1..] + [e];
      assert ElementListCandidates(es + [e], k) == h + ElementListCandidates(es[1..] + [e], k + 1);
      ElementListCandidatesAppend(es[1..], e, k + 1);
      assert k + 1 + |es[1..]| == k + |es|;
      ConcatAssoc(h, ElementListCandidates(es[1..], k + 1), ElementCandidates(e, k + |es|));
    }
  }

  lemma {:induction false} ArgCallsAppend(args: seq<Expr>, x: Expr)
    ensures ArgCalls(args + [x]) == ArgCalls(args) + ExprCalls(x)
  {
    if args == [] {
      assert args + [x] == [x];
    } else {
      assert (args + [x])[1..] == args[1..] + [x];
      ArgCallsAppend(args[1..], x);
    }
  }

  lemma {:induction false} AtSiteAppend(a: seq<Expr>, b: seq<Expr>, site: Site)
    ensures AtSite(a + b, site) == AtSite(a, site) + AtSite(b, site)
  {
  }

  lemma {:induction false} CallsOfAtSite(calls: seq<Expr>, site: Site)
    ensures CallsOf(AtSite(calls, site)) == calls
  {
  }

  lemma {:induction false} CallsOfAppend(a: seq<InlineCandidate>, b: seq<InlineCandidate>)
    ensures CallsOf(a + b) == CallsOf(a) + CallsOf(b)
  {
  }

  /**
   * The stacks only decide where a candidate is recorded, never which calls become
   * candidates: those are exactly the calls of the stack-free definition.
   */
  lemma {:induction false} StmtCandidatesCalls(s: Statement, path: seq<nat>, viable: bool, tables: seq<SymbolTableId>,
                                               stack: seq<StmtSlot>)
    requires |tables| > 0 && (viable || |stack| > 0)
    ensures CallsOf(StmtCandidates(s, path, viable, tables, stack)) == StmtCalls(s)
    decreases s, 1
  {
    KindCandidatesCalls(s, path, tables, if viable then stack + [StmtSlot(path, s)] else stack);
  }

  lemma {:induction false} KindCandidatesCalls(s: Statement, path: seq<nat>, tables: seq<SymbolTableId>, st: seq<StmtSlot>)
    requires |tables| > 0 && |st| > 0
    ensures CallsOf(KindCandidates(s, path, tables, st)) == StmtCalls(s)
    decreases s, 0
  {
    match s {
      case Block(ss, _, hasSymbols) =>
        assert KindCandidates(s, path, tables, st) == StmtListCandidates(ss, path, 0, true, PushTable(tables, hasSymbols, path), st);
        StmtListCandidatesCalls(ss, path, 0, true, PushTable(tables, hasSymbols, path), st);
      case Do(body, _) =>
        assert KindCandidates(s, path, tables, st) == StmtCandidates(body, path + [0], true, tables, st);
        StmtCandidatesCalls(body, path + [0], true, tables, st);
      case For(init, _, _, body, hasSymbols) =>
        var ts := PushTable(tables, hasSymbols, path);
        var a, b := OptStmtCandidates(init, path + [0], false, ts, st), StmtCandidates(body, path + [1], true, ts, st);
        assert KindCandidates(s, path, tables, st) == a + b;
        if init.Some? { StmtCandidatesCalls(init.value, path + [0], false, ts, st); }
        StmtCandidatesCalls(body, path + [1], true, ts, st);
        CallsOfAppend(a, b);
      case If(_, test, t, f) =>
        var a, b, c := AtSite(ExprCalls(test), SiteOf(tables, st)), StmtCandidates(t, path + [0], true, tables, st),
                       OptStmtCandidates(f, path + [1], true, tables, st);
        assert KindCandidates(s, path, tables, st) == a + b + c;
        CallsOfAtSite(ExprCalls(test), SiteOf(tables, st));
        StmtCandidatesCalls(t, path + [0], true, tables, st);
        if f.Some? { StmtCandidatesCalls(f.value, path + [1], true, tables, st); }
        CallsOfAppend(a, b);
        CallsOfAppend(a + b, c);
      case Switch(_, v, cases, hasSymbols) =>
        var ts := PushTable(tables, hasSymbols, path);
        var a, b := AtSite(ExprCalls(v), SiteOf(ts, st)), CaseCandidates(cases, path, 0, ts, st);
        assert KindCandidates(s, path, tables, st) == a + b;
        CallsOfAtSite(ExprCalls(v), SiteOf(ts, st));
        CaseCandidatesCalls(cases, path, 0, ts, st);
        CallsOfAppend(a, b);
      case VarDeclarations(d) =>
        assert KindCandidates(s, path, tables, st) == StmtListCandidates(d.vars, path, 0, false, tables, st);
        StmtListCandidatesCalls(d.vars, path, 0, false, tables, st);
      case While(_, body) =>
        assert KindCandidates(s, path, tables, st) == StmtCandidates(body, path + [0], true, tables, st);
        StmtCandidatesCalls(body, path + [0], true, tables, st);
      case ExpressionStatement(e) => CallsOfAtSite(ExprCalls(e), SiteOf(tables, st));
      case Return(v) => CallsOfAtSite(OptExprCalls(v), SiteOf(tables, st));
      case VarDeclaration(_, _, _, v) => CallsOfAtSite(OptExprCalls(v), SiteOf(tables, st));
      case _ =>
    }
  }

  lemma {:induction false} StmtListCandidatesCalls(ss: seq<Statement>, path: seq<nat>, k: nat, viable: bool,
                                                   tables: seq<SymbolTableId>, stack: seq<StmtSlot>)
    requires |tables| > 0 && (viable || |stack| > 0)
    ensures CallsOf(StmtListCandidates(ss, path, k, viable, tables, stack)) == StmtListCalls(ss)
    decreases ss
  {
    if ss != [] {
      StmtCandidatesCalls(ss[0], path + [k], viable, tables, stack);
      StmtListCandidatesCalls(ss[1..], path, k + 1, viable, tables, stack);
      CallsOfAppend(StmtCandidates(ss[0], path + [k], viable, tables, stack),
                    StmtListCandidates(ss[1..], path, k + 1, viable, tables, stack));
    }
  }

  lemma {:induction false} CaseCandidatesCalls(cs: seq<SwitchCase>, path: seq<nat>, k: nat,
                                               tables: seq<SymbolTableId>, stack: seq<StmtSlot>)
    requires |tables| > 0
    ensures CallsOf(CaseCandidates(cs, path, k, tables, stack)) == CaseCalls(cs)
    decreases cs
  {
    if cs != [] {
      StmtListCandidatesCalls(cs[0].caseStatements, path + [k], 0, true, tables, stack);
      CaseCandidatesCalls(cs[1..], path, k + 1, tables, stack);
      CallsOfAppend(StmtListCandidates(cs[0].caseStatements, path + [k], 0, true, tables, stack),
                    CaseCandidates(cs[1..], path, k + 1, tables, stack));
    }
  }

  /**
   * `InlineCandidateAnalyzer`: walks the program keeping a stack of symbol tables and a
   * stack of enclosing-statement slots, and appends a candidate for every call it may
   * inline. Each visit restores both stacks to the sizes they had on entry.
   */
  class CandidateAnalyzer {
    var inlineCandidates: seq<InlineCandidate>
    var symbolTableStack: seq<SymbolTableId>
    var enclosingStmtStack: seq<StmtSlot>

    constructor ()
      ensures inlineCandidates == [] && symbolTableStack == [] && enclosingStmtStack == []
    {
      inlineCandidates := [];
      symbolTableStack := [];
      enclosingStmtStack := [];
    }

    method Visit(p: Program)
      requires symbolTableStack == [] && enclosingStmtStack == []
      modifies this
      ensures inlineCandidates == old(inlineCandidates) + ProgramCandidates(p)
      ensures symbolTableStack == [] && enclosingStmtStack == []
    {
      symbolTableStack := symbolTableStack + [ProgramSymbols];
      for i := 0 to |p.elements|
        invariant symbolTableStack == [ProgramSymbols] && enclosingStmtStack == []
        invariant inlineCandidates == old(inlineCandidates) + ElementListCandidates(p.elements[..i], 0)
      {
        ElementListCandidatesAppend(p.elements[..i], p.elements[i], 0);
        assert p.elements[..i + 1] == p.elements[..i] + [p.elements[i]];
        VisitProgramElement(p.elements[i], i);
      }
      assert p.elements[..|p.elements|] == p.elements;
      symbolTableStack := symbolTableStack[..|symbolTableStack| - 1];
    }

    /** Only a function's body can hold calls to inline. */
    method VisitProgramElement(pe: ProgramElement, i: nat)
      requires symbolTableStack == [ProgramSymbols] && enclosingStmtStack == []
      modifies this
      ensures inlineCandidates == old(inlineCandidates) + ElementCandidates(pe, i)
      ensures symbolTableStack == old(symbolTableStack) && enclosingStmtStack == old(enclosingStmtStack)
    {
      if pe.Function? {
        VisitStatement(pe.definition.body, [i], true);
      }
    }

    method VisitStatement(s: Statement, path: seq<nat>, viable: bool)
      requires |symbolTableStack| > 0 && (viable || |enclosingStmtStack| > 0)
      modifies this
      ensures inlineCandidates == old(inlineCandidates) + StmtCandidates(s, path, viable, old(symbolTableStack), old(enclosingStmtStack))
      ensures symbolTableStack == old(symbolTableStack) && enclosingStmtStack == old(enclosingStmtStack)
      decreases s, 2
    {
      var oldEnclosingStmtStackSize := |enclosingStmtStack|;
      if viable {
        enclosingStmtStack := enclosingStmtStack + [StmtSlot(path, s)];
      }
      VisitStatementKind(s, path);
      enclosingStmtStack := enclosingStmtStack[..oldEnclosingStmtStackSize];
    }

    /** The switch over the statement's kind, with `s`'s own slot already pushed if viable. */
    method VisitStatementKind(s: Statement, path: seq<nat>)
      requires |symbolTableStack| > 0 && |enclosingStmtStack| > 0
      modifies this
      ensures inlineCandidates == old(inlineCandidates) + KindCandidates(s, path, old(symbolTableStack), old(enclosingStmtStack))
      ensures symbolTableStack == old(symbolTableStack) && enclosingStmtStack == old(enclosingStmtStack)
      decreases s, 1
    {
      var oldSymbolStackSize := |symbolTableStack|;
      match s {
        case Block(ss, _, hasSymbols) =>
          if hasSymbols {
            symbolTableStack := symbolTableStack + [StatementSymbols(path)];
          }
          VisitStatements(ss, path, true);
        case Do(body, _) =>
          VisitStatement(body, path + [0], true);
        case ExpressionStatement(e) =>
          VisitExpression(e);
        case For(init, _, _, body, hasSymbols) =>
          VisitFor(s, path);
        case If(_, test, t, f) =>
          VisitIf(s, path);
        case Return(v) =>
          if v.Some? {
            VisitExpression(v.value);
          }
        case Switch(_, v, cases, hasSymbols) =>
          VisitSwitch(s, path);
        case VarDeclaration(_, _, _, v) =>
          if v.Some? {
            VisitExpression(v.value);
          }
        case VarDeclarations(d) =>
          VisitStatements(d.vars, path, false);
        case While(_, body) =>
          VisitStatement(body, path + [0], true);
        case _ =>
      }
      symbolTableStack := symbolTableStack[..oldSymbolStackSize];
    }

    /** A switch: its value, then each case's statements (a case value cannot be a call), in the switch's own symbol table when it has one. */
    method VisitSwitch(s: Statement, path: seq<nat>)
      requires s.Switch? && |symbolTableStack| > 0 && |enclosingStmtStack| > 0
      modifies this
      ensures inlineCandidates == old(inlineCandidates) + KindCandidates(s, path, old(symbolTableStack), old(enclosingStmtStack))
      ensures symbolTableStack == old(symbolTableStack) && enclosingStmtStack == old(enclosingStmtStack)
      decreases s, 0
    {
      var oldSymbolStackSize := |symbolTableStack|;
      if s.hasSymbols {
        symbolTableStack := symbolTableStack + [StatementSymbols(path)];
      }
      ghost var before := inlineCandidates;
      VisitExpression(s.value);
      VisitCases(s.cases, path);
      ConcatAssoc(before, AtSite(ExprCalls(s.value), SiteOf(symbolTableStack, enclosingStmtStack)),
                  CaseCandidates(s.cases, path, 0, symbolTableStack, enclosingStmtStack));
      assert inlineCandidates == before + AtSite(ExprCalls(s.value), SiteOf(symbolTableStack, enclosingStmtStack)) +
                                 CaseCandidates(s.cases, path, 0, symbolTableStack, enclosingStmtStack);
      symbolTableStack := symbolTableStack[..oldSymbolStackSize];
    }

    /** A for loop: its initializer (not viable as an enclosing statement) and its body; never its test or increment. */
    method VisitFor(s: Statement, path: seq<nat>)
      requires s.For? && |symbolTableStack| > 0 && |enclosingStmtStack| > 0
      modifies this
      ensures inlineCandidates == old(inlineCandidates) + KindCandidates(s, path, old(symbolTableStack), old(enclosingStmtStack))
      ensures symbolTableStack == old(symbolTableStack) && enclosingStmtStack == old(enclosingStmtStack)
      decreases s, 0
    {
      var oldSymbolStackSize := |symbolTableStack|;
      ghost var ts := PushTable(symbolTableStack, s.hasSymbols, path);
      assert KindCandidates(s, path, symbolTableStack, enclosingStmtStack) ==
             OptStmtCandidates(s.initializer, path + [0], false, ts, enclosingStmtStack) +
             StmtCandidates(s.body, path + [1], true, ts, enclosingStmtStack);
      if s.hasSymbols {
        symbolTableStack := symbolTableStack + [StatementSymbols(path)];
      }
      ghost var before := inlineCandidates;
      if s.initializer.Some? {
        VisitStatement(s.initializer.value, path + [0], false);
      }
      assert inlineCandidates == before + OptStmtCandidates(s.initializer, path + [0], false, ts, enclosingStmtStack);
      VisitStatement(s.body, path + [1], true);
      ConcatAssoc(before, OptStmtCandidates(s.initializer, path + [0], false, ts, enclosingStmtStack),
                  StmtCandidates(s.body, path + [1], true, ts, enclosingStmtStack));
      symbolTableStack := symbolTableStack[..oldSymbolStackSize];
    }

    /** An if: its test, then both branches. */
    method VisitIf(s: Statement, path: seq<nat>)
      requires s.If? && |symbolTableStack| > 0 && |enclosingStmtStack| > 0
      modifies this
      ensures inlineCandidates == old(inlineCandidates) + KindCandidates(s, path, old(symbolTableStack), old(enclosingStmtStack))
      ensures symbolTableStack == old(symbolTableStack) && enclosingStmtStack == old(enclosingStmtStack)
      decreases s, 0
    {
      VisitExpression(s.test);
      VisitStatement(s.ifTrue, path + [0], true);
      ghost var mid := inlineCandidates;
      if s.ifFalse.Some? {
        VisitStatement(s.ifFalse.value, path + [1], true);
      }
      assert inlineCandidates == mid + OptStmtCandidates(s.ifFalse, path + [1], true, symbolTableStack, enclosingStmtStack);
      ghost var a := AtSite(ExprCalls(s.test), SiteOf(symbolTableStack, enclosingStmtStack));
      ghost var b := StmtCandidates(s.ifTrue, path + [0], true, symbolTableStack, enclosingStmtStack);
      ConcatAssoc(old(inlineCandidates), a, b);
      ConcatAssoc(old(inlineCandidates), a + b, OptStmtCandidates(s.ifFalse, path + [1], true, symbolTableStack, enclosingStmtStack));
    }

    /** The statements of a list, the `i`th at `path + [i]`. */
    method VisitStatements(ss: seq<Statement>, path: seq<nat>, viable: bool)
      requires |symbolTableStack| > 0 && (viable || |enclosingStmtStack| > 0)
      modifies this
      ensures inlineCandidates == old(inlineCandidates) + StmtListCandidates(ss, path, 0, viable, old(symbolTableStack), old(enclosingStmtStack))
      ensures symbolTableStack == old(symbolTableStack) && enclosingStmtStack == old(enclosingStmtStack)
      decreases ss
    {
      for i := 0 to |ss|
        invariant symbolTableStack == old(symbolTableStack) && enclosingStmtStack == old(enclosingStmtStack)
        invariant inlineCandidates == old(inlineCandidates) + StmtListCandidates(ss[..i], path, 0, viable, symbolTableStack, enclosingStmtStack)
      {
        StmtListCandidatesAppend(ss[..i], ss[i], path, 0, viable, symbolTableStack, enclosingStmtStack);
        assert ss[..i + 1] == ss[..i] + [ss[i]];
        VisitStatement(ss[i], path + [i], viable);
      }
      assert ss[..|ss|] == ss;
    }

    /** The case statements of a switch; the value of a case is never searched. */
    method VisitCases(cs: seq<SwitchCase>, path: seq<nat>)
      requires |symbolTableStack| > 0
      modifies this
      ensures inlineCandidates == old(inlineCandidates) + CaseCandidates(cs, path, 0, old(symbolTableStack), old(enclosingStmtStack))
      ensures symbolTableStack == old(symbolTableStack) && enclosingStmtStack == old(enclosingStmtStack)
      decreases cs
    {
      for i := 0 to |cs|
        invariant symbolTableStack == old(symbolTableStack) && enclosingStmtStack == old(enclosingStmtStack)
        invariant inlineCandidates == old(inlineCandidates) + CaseCandidates(cs[..i], path, 0, symbolTableStack, enclosingStmtStack)
      {
        CaseCandidatesAppend(cs[..i], cs[i], path, 0, symbolTableStack, enclosingStmtStack);
        assert cs[..i + 1] == cs[..i] + [cs[i]];
        VisitStatements(cs[i].caseStatements, path + [i], true);
      }
      assert cs[..|cs|] == cs;
    }

    method VisitExpression(e: Expr)
      requires |symbolTableStack| > 0 && |enclosingStmtStack| > 0
      modifies this
      ensures inlineCandidates == old(inlineCandidates) + AtSite(ExprCalls(e), SiteOf(old(symbolTableStack), old(enclosingStmtStack)))
      ensures symbolTableStack == old(symbolTableStack) && enclosingStmtStack == old(enclosingStmtStack)
      decreases e, 1
    {
      match e.node {
        case Binary(_, _, _) => VisitBinary(e);
        case Constructor(args) => VisitExpressions(args);
        case ExternalFunctionCall(_, args) => VisitExpressions(args);
        case FunctionCall(_, _) => VisitFunctionCall(e);
        case Index(b, i) => VisitIndex(e);
        case Postfix(o, _) =>
          assert ExprCalls(e) == ExprCalls(o);
          VisitExpression(o);
        case Prefix(_, o) =>
          assert ExprCalls(e) == ExprCalls(o);
          VisitExpression(o);
        case Swizzle(b, _) =>
          assert ExprCalls(e) == ExprCalls(b);
          VisitExpression(b);
        case Ternary(t, _, _) =>
          assert ExprCalls(e) == ExprCalls(t);
          VisitExpression(t);
        case _ =>
          assert AtSite(ExprCalls(e), SiteOf(symbolTableStack, enclosingStmtStack)) == [];
          assert inlineCandidates + [] == inlineCandidates;
      }
    }

    /** The right operand of `&&` and `||` is skipped: inlining it would evaluate it unconditionally. */
    method VisitBinary(e: Expr)
      requires e.node.Binary? && |symbolTableStack| > 0 && |enclosingStmtStack| > 0
      modifies this
      ensures inlineCandidates == old(inlineCandidates) + AtSite(ExprCalls(e), SiteOf(old(symbolTableStack), old(enclosingStmtStack)))
      ensures symbolTableStack == old(symbolTableStack) && enclosingStmtStack == old(enclosingStmtStack)
      decreases e, 0
    {
      ghost var site := SiteOf(symbolTableStack, enclosingStmtStack);
      var op := e.node.op;
      VisitExpression(e.node.left);
      if !(op == LogicalAnd || op == LogicalOr) {
        VisitExpression(e.node.right);
        AtSiteAppend(ExprCalls(e.node.left), ExprCalls(e.node.right), site);
        ConcatAssoc(old(inlineCandidates), AtSite(ExprCalls(e.node.left), site), AtSite(ExprCalls(e.node.right), site));
      } else {
        assert ExprCalls(e) == ExprCalls(e.node.left) + [];
      }
    }

    /** A call's arguments are searched before the call itself is recorded. */
    method VisitFunctionCall(e: Expr)
      requires e.node.FunctionCall? && |symbolTableStack| > 0 && |enclosingStmtStack| > 0
      modifies this
      ensures inlineCandidates == old(inlineCandidates) + AtSite(ExprCalls(e), SiteOf(old(symbolTableStack), old(enclosingStmtStack)))
      ensures symbolTableStack == old(symbolTableStack) && enclosingStmtStack == old(enclosingStmtStack)
      decreases e, 0
    {
      ghost var site := SiteOf(symbolTableStack, enclosingStmtStack);
      VisitExpressions(e.node.arguments);
      AddInlineCandidate(e);
      AtSiteAppend(ArgCalls(e.node.arguments), [e], site);
      ConcatAssoc(old(inlineCandidates), AtSite(ArgCalls(e.node.arguments), site), AtSite([e], site));
    }

    method VisitIndex(e: Expr)
      requires e.node.Index? && |symbolTableStack| > 0 && |enclosingStmtStack| > 0
      modifies this
      ensures inlineCandidates == old(inlineCandidates) + AtSite(ExprCalls(e), SiteOf(old(symbolTableStack), old(enclosingStmtStack)))
      ensures symbolTableStack == old(symbolTableStack) && enclosingStmtStack == old(enclosingStmtStack)
      decreases e, 0
    {
      ghost var site := SiteOf(symbolTableStack, enclosingStmtStack);
      VisitExpression(e.node.base);
      VisitExpression(e.node.index);
      AtSiteAppend(ExprCalls(e.node.base), ExprCalls(e.node.index), site);
      ConcatAssoc(old(inlineCandidates), AtSite(ExprCalls(e.node.base), site), AtSite(ExprCalls(e.node.index), site));
    }

    method VisitExpressions(args: seq<Expr>)
      requires |symbolTableStack| > 0 && |enclosingStmtStack| > 0
      modifies this
      ensures inlineCandidates == old(inlineCandidates) + AtSite(ArgCalls(args), SiteOf(old(symbolTableStack), old(enclosingStmtStack)))
      ensures symbolTableStack == old(symbolTableStack) && enclosingStmtStack == old(enclosingStmtStack)
      decreases args
    {
      for i := 0 to |args|
        invariant symbolTableStack == old(symbolTableStack) && enclosingStmtStack == old(enclosingStmtStack)
        invariant inlineCandidates == old(inlineCandidates) + AtSite(ArgCalls(args[..i]), SiteOf(symbolTableStack, enclosingStmtStack))
      {
        ArgCallsAppend(args[..i], args[i]);
        AtSiteAppend(ArgCalls(args[..i]), ExprCalls(args[i]), SiteOf(symbolTableStack, enclosingStmtStack));
        assert args[..i + 1] == args[..i] + [args[i]];
        VisitExpression(args[i]);
        ConcatAssoc(old(inlineCandidates), AtSite(ArgCalls(args[..i]), SiteOf(symbolTableStack, enclosingStmtStack)),
                    AtSite(ExprCalls(args[i]), SiteOf(symbolTableStack, enclosingStmtStack)));
      }
      assert args[..|args|] == args;
    }

    /** `addInlineCandidate`: records the call with the current table, parent and enclosing slot. */
    method AddInlineCandidate(call: Expr)
      requires |symbolTableStack| > 0 && |enclosingStmtStack| > 0
      modifies this
      ensures inlineCandidates == old(inlineCandidates) + [InlineCandidate(SiteOf(old(symbolTableStack), old(enclosingStmtStack)), call)]
      ensures symbolTableStack == old(symbolTableStack) && enclosingStmtStack == old(enclosingStmtStack)
    {
      var parent := FindParentStatement(Slots(enclosingStmtStack));
      inlineCandidates := inlineCandidates + [InlineCandidate(Site(symbolTableStack[|symbolTableStack| - 1], parent,
                                                                   enclosingStmtStack[|enclosingStmtStack| - 1].path), call)];
    }
  }
  /** Every call `StmtCalls` collects is a function call. */
  lemma {:induction false} StmtCallsAreCalls(s: Statement)
    ensures forall c :: c in StmtCalls(s) ==> c.node.FunctionCall?
    decreases s
  {
    match s
    case Block(ss, _, _) => StmtListCallsAreCalls(ss);
    case Do(body, _) => StmtCallsAreCalls(body);
    case ExpressionStatement(e) => ExprCallsAreCalls(e);
    case For(init, _, _, body, _) =>
      if init.Some? { StmtCallsAreCalls(init.value); }
      StmtCallsAreCalls(body);
    case If(_, test, t, f) =>
      ExprCallsAreCalls(test);
      StmtCallsAreCalls(t);
      if f.Some? { StmtCallsAreCalls(f.value); }
    case Return(v) => if v.Some? { ExprCallsAreCalls(v.value); }
    case Switch(_, v, cases, _) => ExprCallsAreCalls(v); CaseCallsAreCalls(cases);
    case VarDeclaration(_, _, _, v) => if v.Some? { ExprCallsAreCalls(v.value); }
    case VarDeclarations(d) => StmtListCallsAreCalls(d.vars);
    case While(_, body) => StmtCallsAreCalls(body);
    case _ =>
  }

  lemma {:induction false} StmtListCallsAreCalls(ss: seq<Statement>)
    ensures forall c :: c in StmtListCalls(ss) ==> c.node.FunctionCall?
    decreases ss
  {
    if ss != [] {
      StmtCallsAreCalls(ss[0]);
      StmtListCallsAreCalls(ss[1..]);
    }
  }

  lemma {:induction false} CaseCallsAreCalls(cs: seq<SwitchCase>)
    ensures forall c :: c in CaseCalls(cs) ==> c.node.FunctionCall?
    decreases cs
  {
    if cs != [] {
      StmtListCallsAreCalls(cs[0].caseStatements);
      CaseCallsAreCalls(cs[1..]);
    }
  }

  // ---------------------------------------------------------------------------------
  // Choosing the candidates to inline
  // ---------------------------------------------------------------------------------

  predicate CallsOnly(cs: seq<InlineCandidate>) {
    forall i :: 0 <= i < |cs| ==> cs[i].call.node.FunctionCall?
  }

  lemma {:induction false} CallsOnlyFromCalls(cs: seq<InlineCandidate>)
    requires forall c :: c in CallsOf(cs) ==> c.node.FunctionCall?
    ensures CallsOnly(cs)
  {
    forall i | 0 <= i < |cs|
      ensures cs[i].call.node.FunctionCall?
    {
      assert CallsOf(cs)[i] == cs[i].call;
    }
  }

  /** The analyzer's candidates are all function calls, which `analyze` relies on. */
  lemma {:induction false} ElementListCandidatesAreCalls(es: seq<ProgramElement>, k: nat)
    ensures CallsOnly(ElementListCandidates(es, k))
    decreases es
  {
    if es != [] {
      var h := ElementCandidates(es[0], k);
      if es[0].Function? {
        StmtCandidatesCalls(es[0].definition.body, [k], true, [ProgramSymbols], []);
        StmtCallsAreCalls(es[0].definition.body);
        CallsOnlyFromCalls(h);
      }
      ElementListCandidatesAreCalls(es[1..], k + 1);
      assert ElementListCandidates(es, k) == h + ElementListCandidates(es[1..], k + 1);
    }
  }

  function Callee(c: InlineCandidate): FunctionDeclaration
    requires c.call.node.FunctionCall?
  {
    c.call.node.callee
  }

  /** A call to `f`, or an inline marker for `f`, by `FunctionDeclaration::matches`. */
  predicate RecursiveNode(n: Node, f: FunctionDeclaration) {
    (n.NE? && n.expr.node.FunctionCall? && Matches(n.expr.node.callee, f)) ||
    (n.NS? && n.stmt.InlineMarker? && Matches(n.stmt.marked, f))
  }

  /**
   * `contains_recursive_call`: `f` has a definition and the traversal of its body reaches
   * a call to a function matching `f`, or the marker of one inlined earlier.
   */
  predicate ContainsRecursiveCall(f: FunctionDeclaration, definitions: map<FunctionDeclaration, FunctionDefinition>) {
    f in definitions && exists n :: n in StmtNodes(definitions[f].body) && RecursiveNode(n, f)
  }

  /** What `isSafeToInline` decides, as one predicate. */
  predicate SafeToInline(callee: FunctionDeclaration, definitions: map<FunctionDeclaration, FunctionDefinition>,
                         threshold: int, canUseDoLoops: bool) {
    callee in definitions && SmallEnough(definitions[callee], threshold) &&
    if canUseDoLoops then InBreakable(definitions[callee].body, false) == 0 else !EarlyReturn(definitions[callee].body)
  }

  /**
   * The entry `analyze` memoises for a callee: a function called at most once is exempt
   * from the size threshold, and a recursive function is never inlined.
   */
  predicate Inlinable(f: FunctionDeclaration, definitions: map<FunctionDeclaration, FunctionDefinition>,
                      threshold: int, canUseDoLoops: bool) {
    SafeToInline(f, definitions, if f.callCount > 1 then threshold else IntMax, canUseDoLoops) &&
    !ContainsRecursiveCall(f, definitions)
  }

  /**
   * The candidates `analyze` replaces, in order: each inlinable candidate whose enclosing
   * statement has not yet been used in this pass. `taken` holds the enclosing statements
   * already used.
   */
  function Select(cs: seq<InlineCandidate>, definitions: map<FunctionDeclaration, FunctionDefinition>,
                  threshold: int, canUseDoLoops: bool, taken: set<seq<nat>>): seq<InlineCandidate>
    requires CallsOnly(cs)
    decreases cs
  {
    if cs == [] then []
    else if !Inlinable(Callee(cs[0]), definitions, threshold, canUseDoLoops) then
      Select(cs[1..], definitions, threshold, canUseDoLoops, taken)
    else if cs[0].site.enclosingStmt in taken then
      Select(cs[1..], definitions, threshold, canUseDoLoops, taken)
    else
      [cs[0]] + Select(cs[1..], definitions, threshold, canUseDoLoops, taken + {cs[0].site.enclosingStmt})
  }

  function Enclosings(cs: seq<InlineCandidate>): set<seq<nat>> {
    if cs == [] then {} else {cs[0].site.enclosingStmt} + Enclosings(cs[1..])
  }

  /** Every element of `r` is a candidate of `cs` with an inlinable callee, at a statement not in `taken`. */
  predicate SelectedFrom(r: seq<InlineCandidate>, cs: seq<InlineCandidate>,
                         definitions: map<FunctionDeclaration, FunctionDefinition>, threshold: int, canUseDoLoops: bool,
                         taken: set<seq<nat>>) {
    forall j :: 0 <= j < |r| ==>
      r[j] in cs && r[j].call.node.FunctionCall? &&
      Inlinable(Callee(r[j]), definitions, threshold, canUseDoLoops) && r[j].site.enclosingStmt !in taken
  }

  /** No two elements of `r` share an enclosing statement. */
  predicate DistinctEnclosings(r: seq<InlineCandidate>) {
    forall j, k :: 0 <= j < k < |r| ==> r[j].site.enclosingStmt != r[k].site.enclosingStmt
  }

  /** Every candidate of `cs` with an inlinable callee has its enclosing statement in `used`. */
  predicate InlinableCovered(cs: seq<InlineCandidate>, definitions: map<FunctionDeclaration, FunctionDefinition>,
                             threshold: int, canUseDoLoops: bool, used: set<seq<nat>>)
    requires CallsOnly(cs)
  {
    forall i :: 0 <= i < |cs| && Inlinable(Callee(cs[i]), definitions, threshold, canUseDoLoops) ==>
      cs[i].site.enclosingStmt in used
  }

  /** Everything selected is a candidate with an inlinable, hence non-recursive, callee, at a statement not yet taken. */
  lemma {:induction false} SelectSound(cs: seq<InlineCandidate>, definitions: map<FunctionDeclaration, FunctionDefinition>,
                                       threshold: int, canUseDoLoops: bool, taken: set<seq<nat>>)
    requires CallsOnly(cs)
    ensures SelectedFrom(Select(cs, definitions, threshold, canUseDoLoops, taken), cs, definitions, threshold,
                         canUseDoLoops, taken)
    decreases cs
  {
    if cs != [] {
      var c := cs[0];
      var r := Select(cs, definitions, threshold, canUseDoLoops, taken);
      if !Inlinable(Callee(c), definitions, threshold, canUseDoLoops) || c.site.enclosingStmt in taken {
        SelectSound(cs[1..], definitions, threshold, canUseDoLoops, taken);
        assert r == Select(cs[1..], definitions, threshold, canUseDoLoops, taken);
        forall j | 0 <= j < |r| ensures r[j] in cs {
          assert r[j] in cs[1..];
        }
      } else {
        var taken' := taken + {c.site.enclosingStmt};
        var rest := Select(cs[1..], definitions, threshold, canUseDoLoops, taken');
        SelectSound(cs[1..], definitions, threshold, canUseDoLoops, taken');
        assert r == [c] + rest;
        forall j | 0 < j < |r| ensures r[j] in cs && r[j].site.enclosingStmt !in taken {
          assert r[j] == rest[j - 1];
          assert rest[j - 1] in cs[1..];
        }
      }
    }
  }

  lemma {:induction false} InlinableNotRecursive(f: FunctionDeclaration, definitions: map<FunctionDeclaration, FunctionDefinition>,
                              threshold: int, canUseDoLoops: bool)
    requires Inlinable(f, definitions, threshold, canUseDoLoops)
    ensures f in definitions && !ContainsRecursiveCall(f, definitions)
    ensures SafeToInline(f, definitions, if f.callCount > 1 then threshold else IntMax, canUseDoLoops)
  {
  }

  /** No two selected candidates share an enclosing statement. */
  lemma {:induction false} SelectDistinct(cs: seq<InlineCandidate>, definitions: map<FunctionDeclaration, FunctionDefinition>,
                                          threshold: int, canUseDoLoops: bool, taken: set<seq<nat>>)
    requires CallsOnly(cs)
    ensures DistinctEnclosings(Select(cs, definitions, threshold, canUseDoLoops, taken))
    decreases cs
  {
    if cs != [] {
      var c := cs[0];
      if !Inlinable(Callee(c), definitions, threshold, canUseDoLoops) || c.site.enclosingStmt in taken {
        SelectDistinct(cs[1..], definitions, threshold, canUseDoLoops, taken);
      } else {
        var taken' := taken + {c.site.enclosingStmt};
        var rest := Select(cs[1..], definitions, threshold, canUseDoLoops, taken');
        SelectDistinct(cs[1..], definitions, threshold, canUseDoLoops, taken');
        SelectSound(cs[1..], definitions, threshold, canUseDoLoops, taken');
        assert Select(cs, definitions, threshold, canUseDoLoops, taken) == [c] + rest;
        forall j | 0 <= j < |rest| ensures rest[j].site.enclosingStmt != c.site.enclosingStmt {
          assert rest[j].site.enclosingStmt !in taken';
        }
        DistinctCons(c, rest);
      }
    }
  }

  lemma {:induction false} DistinctCons(c: InlineCandidate, rest: seq<InlineCandidate>)
    requires DistinctEnclosings(rest)
    requires forall j :: 0 <= j < |rest| ==> rest[j].site.enclosingStmt != c.site.enclosingStmt
    ensures DistinctEnclosings([c] + rest)
  {
    var r := [c] + rest;
    forall j, k | 0 <= j < k < |r|
      ensures r[j].site.enclosingStmt != r[k].site.enclosingStmt
    {
      assert r[k] == rest[k - 1];
      if j > 0 {
        assert r[j] == rest[j - 1];
      }
    }
  }

  /** Every inlinable candidate left out has its enclosing statement already taken or used by a selected one. */
  lemma {:induction false} SelectMaximal(cs: seq<InlineCandidate>, definitions: map<FunctionDeclaration, FunctionDefinition>,
                                         threshold: int, canUseDoLoops: bool, taken: set<seq<nat>>)
    requires CallsOnly(cs)
    ensures InlinableCovered(cs, definitions, threshold, canUseDoLoops,
                             taken + Enclosings(Select(cs, definitions, threshold, canUseDoLoops, taken)))
    decreases cs
  {
    if cs != [] {
      var c := cs[0];
      var r := Select(cs, definitions, threshold, canUseDoLoops, taken);
      if !Inlinable(Callee(c), definitions, threshold, canUseDoLoops) || c.site.enclosingStmt in taken {
        SelectMaximal(cs[1..], definitions, threshold, canUseDoLoops, taken);
        assert r == Select(cs[1..], definitions, threshold, canUseDoLoops, taken);
        forall i | 0 < i < |cs| ensures cs[i] == cs[1..][i - 1] { }
      } else {
        var taken' := taken + {c.site.enclosingStmt};
        var rest := Select(cs[1..], definitions, threshold, canUseDoLoops, taken');
        SelectMaximal(cs[1..], definitions, threshold, canUseDoLoops, taken');
        assert r == [c] + rest;
        assert ([c] + rest)[1..] == rest;
        assert Enclosings(r) == {c.site.enclosingStmt} + Enclosings(rest);
        forall i | 0 < i < |cs| ensures cs[i] == cs[1..][i - 1] { }
      }
    }
  }

  /** A pass changes something iff some candidate's callee is inlinable. */
  lemma {:induction false} SelectEmptyIff(cs: seq<InlineCandidate>, definitions: map<FunctionDeclaration, FunctionDefinition>,
                       threshold: int, canUseDoLoops: bool)
    requires CallsOnly(cs)
    ensures Select(cs, definitions, threshold, canUseDoLoops, {}) == [] <==>
            forall i :: 0 <= i < |cs| ==> !Inlinable(Callee(cs[i]), definitions, threshold, canUseDoLoops)
  {
    var r := Select(cs, definitions, threshold, canUseDoLoops, {});
    SelectSound(cs, definitions, threshold, canUseDoLoops, {});
    SelectMaximal(cs, definitions, threshold, canUseDoLoops, {});
    if r != [] {
      assert r[0] in cs;
      var i :| 0 <= i < |cs| && cs[i] == r[0];
    }
  }

  /** The first loop of `analyze`: one `inlinableMap` entry per callee, decided once. */
  method BuildInlinableMap(candidates: seq<InlineCandidate>, definitions: map<FunctionDeclaration, FunctionDefinition>,
                           threshold: int, canUseDoLoops: bool) returns (inlinableMap: map<FunctionDeclaration, bool>)
    requires CallsOnly(candidates)
    ensures forall f :: f in inlinableMap ==> inlinableMap[f] == Inlinable(f, definitions, threshold, canUseDoLoops)
    ensures forall j :: 0 <= j < |candidates| ==> Callee(candidates[j]) in inlinableMap
  {
    inlinableMap := map[];
    for i := 0 to |candidates|
      invariant forall f :: f in inlinableMap ==> inlinableMap[f] == Inlinable(f, definitions, threshold, canUseDoLoops)
      invariant forall j :: 0 <= j < i ==> Callee(candidates[j]) in inlinableMap
    {
      var f := candidates[i].call.node.callee;
      if f !in inlinableMap {
        var inlineThreshold := if f.callCount > 1 then threshold else IntMax;
        var safe := IsSafeToInline(f, definitions, inlineThreshold, canUseDoLoops);
        inlinableMap := inlinableMap[f := safe && !ContainsRecursiveCall(f, definitions)];
      }
    }
  }

  /** The second loop of `analyze`: skips candidates that are not inlinable or whose enclosing statement is used. */
  method PickCandidates(candidates: seq<InlineCandidate>, inlinableMap: map<FunctionDeclaration, bool>,
                        ghost definitions: map<FunctionDeclaration, FunctionDefinition>, ghost threshold: int,
                        ghost canUseDoLoops: bool) returns (madeChanges: bool, inlined: seq<InlineCandidate>)
    requires CallsOnly(candidates)
    requires forall f :: f in inlinableMap ==> inlinableMap[f] == Inlinable(f, definitions, threshold, canUseDoLoops)
    requires forall j :: 0 <= j < |candidates| ==> Callee(candidates[j]) in inlinableMap
    ensures inlined == Select(candidates, definitions, threshold, canUseDoLoops, {})
    ensures madeChanges <==> inlined != []
  {
    var enclosingStmtSet: set<seq<nat>> := {};
    madeChanges := false;
    inlined := [];
    for i := 0 to |candidates|
      invariant CallsOnly(candidates[i..])
      invariant inlined + Select(candidates[i..], definitions, threshold, canUseDoLoops, enclosingStmtSet) ==
                Select(candidates, definitions, threshold, canUseDoLoops, {})
      invariant madeChanges <==> inlined != []
    {
      var c := candidates[i];
      assert candidates[i..][0] == c && candidates[i..][1..] == candidates[i + 1..];
      if inlinableMap[c.call.node.callee] && c.site.enclosingStmt !in enclosingStmtSet {
        enclosingStmtSet := enclosingStmtSet + {c.site.enclosingStmt};
        inlined := inlined + [c];
        madeChanges := true;
      }
    }
    assert candidates[|candidates|..] == [];
  }

  /**
   * `Inliner::analyze`, up to the rewrite of the program: collects the candidates, fills
   * `inlinableMap` once per callee, then walks the candidates in order picking those to
   * inline. `inlined` is the candidates replaced, in order; `madeChanges` is the result.
   */
  method Analyze(p: Program, definitions: map<FunctionDeclaration, FunctionDefinition>, threshold: int,
                 canUseDoLoops: bool) returns (madeChanges: bool, inlined: seq<InlineCandidate>)
    ensures CallsOnly(ProgramCandidates(p))
    ensures inlined == Select(ProgramCandidates(p), definitions, threshold, canUseDoLoops, {})
    ensures madeChanges <==> inlined != []
  {
    var analyzer := new CandidateAnalyzer();
    analyzer.Visit(p);
    var candidates := analyzer.inlineCandidates;
    assert candidates == [] + ProgramCandidates(p) == ProgramCandidates(p);
    ElementListCandidatesAreCalls(p.elements, 0);
    var inlinableMap := BuildInlinableMap(candidates, definitions, threshold, canUseDoLoops);
    madeChanges, inlined := PickCandidates(candidates, inlinableMap, definitions, threshold, canUseDoLoops);
  }
  // ---------------------------------------------------------------------------------
  // The statements inlineCall builds
  // ---------------------------------------------------------------------------------

  /** The symbol table a call is inlined under; only the names it resolves are modelled. */
  class SymbolTable {
    var names: set<string>

    constructor (names: set<string>)
      ensures this.names == names
    {
      this.names := names;
    }
  }

  /** The context's types `makeInlineVar` consults and the type of the `false` literals it builds. */
  datatype InlineTypes = InlineTypes(floatLiteralType: Type, intLiteralType: Type, floatType: Type, intType: Type,
                                     boolType: Type)

  /** The default `Modifiers()`: no flags, no layout builtin. */
  const NoModifiers: Modifiers := Modifiers(false, false, false, false, false, -1, "")

  /** `$floatLiteral` and `$intLiteral` are not real types; a new local gets `float` or `int` instead. */
  function ScratchType(ty: Type, types: InlineTypes): Type {
    if ty == types.floatLiteralType then types.floatType
    else if ty == types.intLiteralType then types.intType
    else ty
  }

  /** A new local never has a literal type, and any other type is kept. */
  lemma {:induction false} ScratchTypeIsReal(ty: Type, types: InlineTypes)
    requires types.floatType !in {types.floatLiteralType, types.intLiteralType}
    requires types.intType !in {types.floatLiteralType, types.intLiteralType}
    ensures ScratchType(ty, types) != types.floatLiteralType && ScratchType(ty, types) != types.intLiteralType
    ensures ty != types.floatLiteralType && ty != types.intLiteralType ==> ScratchType(ty, types) == ty
  {
  }

  /** A local made for an argument: typed like it (literal types replaced) and initialised with it. */
  predicate TempFor(v: Variable, arg: Expr, types: InlineTypes) {
    v.ty == ScratchType(arg.ty, types) && v.initialValue == Some(arg) && v.offset == -1 && v.modifiers == NoModifiers
  }

  /** The one-variable declaration statement `makeInlineVar` emits. */
  function InlineVarDecl(offset: int, v: Variable, initialValue: Option<Expr>): Statement {
    VarDeclarations(VarDecls(offset, v.ty, [VarDeclaration(v, v.ty, [], initialValue)]))
  }

  /** Whether the body writes each parameter, as `Analysis::StatementWritesToVariable` answers. */
  function ParamWrites(params: seq<Variable>, body: Statement): seq<bool> {
    seq(|params|, i requires 0 <= i < |params| => StatementWritesToVariable(body, params[i]))
  }

  /**
   * A variable argument stands for the parameter itself when the parameter is `out` or
   * `written`, whether the body writes the parameter, is false.
   */
  predicate Reuses(arg: Expr, param: Variable, written: bool) {
    arg.node.VariableReference? && (param.modifiers.isOut || !written)
  }

  /** An `out` parameter is copied back unless its argument refers to the variable standing for it. */
  predicate CopiesBack(arg: Expr, param: Variable, v: Variable) {
    param.modifiers.isOut && !(arg.node.VariableReference? && arg.node.variable == v)
  }

  /** The declarations of the locals made for the arguments, in argument order. */
  function TempDecls(offset: int, params: seq<Variable>, args: seq<Expr>, written: seq<bool>, vars: seq<Variable>)
    : seq<Statement>
    requires |params| == |args| == |written| == |vars|
  {
    if |args| == 0 then []
    else
      var n := |args| - 1;
      TempDecls(offset, params[..n], args[..n], written[..n], vars[..n]) +
      (if Reuses(args[n], params[n], written[n]) then [] else [InlineVarDecl(offset, vars[n], Some(args[n]))])
  }

  /** The names of the locals made for the arguments. */
  function TempNames(params: seq<Variable>, args: seq<Expr>, written: seq<bool>, vars: seq<Variable>): set<string>
    requires |params| == |args| == |written| == |vars|
  {
    if |args| == 0 then {}
    else
      var n := |args| - 1;
      TempNames(params[..n], args[..n], written[..n], vars[..n]) +
      (if Reuses(args[n], params[n], written[n]) then {} else {vars[n].name})
  }

  /** No two locals made for the arguments share a name. */
  predicate NewNamesDistinct(params: seq<Variable>, args: seq<Expr>, written: seq<bool>, vars: seq<Variable>)
    requires |params| == |args| == |written| == |vars|
  {
    forall j, k ::
      0 <= j < k < |vars| && !Reuses(args[j], params[j], written[j]) && !Reuses(args[k], params[k], written[k]) ==>
      vars[j].name != vars[k].name
  }

  /**
   * What the argument loop arranges: `varMap` sends each parameter to `vars[i]`, which
   * is the argument's own variable when it is reused and otherwise a new local made for
   * the argument, and the new locals have distinct names.
   */
  predicate ArgumentsMapped(params: seq<Variable>, args: seq<Expr>, written: seq<bool>, vars: seq<Variable>,
                            varMap: map<Variable, Variable>, types: InlineTypes)
    requires |params| == |args| == |written|
  {
    |vars| == |params| &&
    (forall i :: 0 <= i < |params| ==> params[i] in varMap && varMap[params[i]] == vars[i]) &&
    (forall i :: 0 <= i < |params| && Reuses(args[i], params[i], written[i]) ==> vars[i] == args[i].node.variable) &&
    (forall i :: 0 <= i < |params| && !Reuses(args[i], params[i], written[i]) ==> TempFor(vars[i], args[i], types)) &&
    NewNamesDistinct(params, args, written, vars)
  }

  /** `arg = temp;` for each `out` parameter that is copied back, in argument order. */
  function CopyBackStmts(offset: int, params: seq<Variable>, args: seq<Expr>, vars: seq<Variable>): seq<Statement>
    requires |params| == |args| == |vars|
  {
    if |args| == 0 then []
    else
      var n := |args| - 1;
      CopyBackStmts(offset, params[..n], args[..n], vars[..n]) +
      (if CopiesBack(args[n], params[n], vars[n])
       then [ExpressionStatement(Expr(offset, args[n].ty,
               Binary(args[n], Eq, Expr(offset, vars[n].ty, VariableReference(vars[n], Read)))))]
       else [])
  }

  /** The copies back for one more argument follow those for the earlier ones. */
  lemma {:induction false} CopyBackStep(offset: int, params: seq<Variable>, args: seq<Expr>, vars: seq<Variable>, i: nat)
    requires |params| == |args| == |vars| && i < |params|
    ensures CopyBackStmts(offset, params[..i + 1], args[..i + 1], vars[..i + 1]) ==
            CopyBackStmts(offset, params[..i], args[..i], vars[..i]) +
            (if CopiesBack(args[i], params[i], vars[i])
             then [ExpressionStatement(Expr(offset, args[i].ty,
                     Binary(args[i], Eq, Expr(offset, vars[i].ty, VariableReference(vars[i], Read)))))]
             else [])
  {
    assert params[..i + 1][..i] == params[..i] && args[..i + 1][..i] == args[..i] && vars[..i + 1][..i] == vars[..i];
  }

  function ResultNames(resultVar: Option<Variable>): set<string> {
    if resultVar.Some? then {resultVar.value.name} else {}
  }

  function ResultDecls(offset: int, resultVar: Option<Variable>): seq<Statement> {
    if resultVar.Some? then [InlineVarDecl(offset, resultVar.value, None)] else []
  }

  datatype InlinedCall = InlinedCall(inlinedBody: Statement, replacementExpr: Expr)

  /** The inlined body: a scoped block, inside `do {} while (false)` when there are early returns. */
  function InlinedCode(offset: int, stmts: seq<Statement>, haveEarlyReturns: bool, boolType: Type): Statement {
    if haveEarlyReturns then Do(Block(stmts, true, false), Expr(offset, boolType, BoolLiteral(false)))
    else Block(stmts, true, false)
  }

  /**
   * What `inlineCall` needs of a call: the definition's body is a block, there is one
   * argument per parameter, the parameters are distinct variables, and an argument that
   * will be assigned back to is assignable.
   */
  predicate InlinableCall(call: Expr, definitions: map<FunctionDeclaration, FunctionDefinition>)
    requires call.node.FunctionCall? && call.node.callee in definitions
  {
    InlinableDefinition(definitions[call.node.callee], call.node.arguments)
  }

  /** `InlinableCall` for a definition and the call's arguments. */
  predicate InlinableDefinition(def: FunctionDefinition, args: seq<Expr>) {
    var params := def.declaration.parameters;
    def.body.Block? && |args| == |params| &&
    (def.declaration.returnType == VoidType ==> ValueReturns(def.body) == 0) &&
    (forall i, j :: 0 <= i < j < |params| ==> params[i] != params[j]) &&
    (forall i :: 0 <= i < |params| && params[i].modifiers.isOut && !args[i].node.VariableReference? ==> CheckRef(args[i]))
  }

  /** The inlined body `inlineCall` builds, given the new result variable and the variable standing for each parameter. */
  function InlinedBody(offset: int, callee: FunctionDeclaration, def: FunctionDefinition, args: seq<Expr>,
                       types: InlineTypes, resultVar: Option<Variable>, vars: seq<Variable>, varMap: map<Variable, Variable>,
                       rw: InlineRewrite): Statement
    requires InlinableDefinition(def, args) && |vars| == |args|
    requires resultVar.Some? || ValueReturns(def.body) == 0
  {
    var params := def.declaration.parameters;
    var early := EarlyReturn(def.body);
    Block([InlineMarker(callee)] + ResultDecls(offset, resultVar) +
          TempDecls(offset, params, args, ParamWrites(params, def.body), vars) +
          [InlinedCode(offset, InlineStmts(offset, def.body.statements, varMap, resultVar, early, rw),
                       early, types.boolType)] +
          CopyBackStmts(offset, params, args, vars), false, false)
  }

  lemma {:induction false} ArgumentStep(offset: int, params: seq<Variable>, args: seq<Expr>, written: seq<bool>,
                                        vars: seq<Variable>, v: Variable, i: nat)
    requires |params| == |args| == |written| && i < |params| && |vars| == i
    ensures TempNames(params[..i + 1], args[..i + 1], written[..i + 1], vars + [v]) ==
            TempNames(params[..i], args[..i], written[..i], vars) +
            (if Reuses(args[i], params[i], written[i]) then {} else {v.name})
    ensures TempDecls(offset, params[..i + 1], args[..i + 1], written[..i + 1], vars + [v]) ==
            TempDecls(offset, params[..i], args[..i], written[..i], vars) +
            (if Reuses(args[i], params[i], written[i]) then [] else [InlineVarDecl(offset, v, Some(args[i]))])
  {
    assert params[..i + 1][..i] == params[..i] && args[..i + 1][..i] == args[..i] &&
           written[..i + 1][..i] == written[..i] && (vars + [v])[..i] == vars;
  }

  /** The first `n` parameters are mapped to `vars`, reused arguments to their own variables. */
  predicate ParamsLinked(params: seq<Variable>, args: seq<Expr>, written: seq<bool>, vars: seq<Variable>,
                         varMap: map<Variable, Variable>, n: nat)
    requires n <= |params| == |args| == |written| && |vars| == n
  {
    (forall j :: 0 <= j < n ==> params[j] in varMap && varMap[params[j]] == vars[j]) &&
    (forall j :: 0 <= j < n && Reuses(args[j], params[j], written[j]) ==> vars[j] == args[j].node.variable)
  }

  lemma {:induction false} LinkStep(params: seq<Variable>, args: seq<Expr>, written: seq<bool>, vars: seq<Variable>,
                 varMap: map<Variable, Variable>, v: Variable, i: nat)
    requires i < |params| == |args| == |written| && |vars| == i
    requires forall j, k :: 0 <= j < k < |params| ==> params[j] != params[k]
    requires ParamsLinked(params, args, written, vars, varMap, i)
    requires Reuses(args[i], params[i], written[i]) ==> v == args[i].node.variable
    ensures ParamsLinked(params, args, written, vars + [v], varMap[params[i] := v], i + 1)
  {
    var vs, m := vars + [v], varMap[params[i] := v];
    forall j | 0 <= j < i + 1 ensures params[j] in m && m[params[j]] == vs[j] {
      if j < i {
        assert params[j] != params[i];
      }
    }
  }

  lemma {:induction false} NamesDistinctStep(params: seq<Variable>, args: seq<Expr>, written: seq<bool>, vars: seq<Variable>, v: Variable,
                          i: nat, names: set<string>)
    requires |params| == |args| == |written| && i < |params| && |vars| == i
    requires NewNamesDistinct(params[..i], args[..i], written[..i], vars)
    requires forall j :: 0 <= j < i && !Reuses(args[j], params[j], written[j]) ==> vars[j].name in names
    requires !Reuses(args[i], params[i], written[i]) ==> v.name !in names
    ensures NewNamesDistinct(params[..i + 1], args[..i + 1], written[..i + 1], vars + [v])
  {
    var ps, as_, ws, vs := params[..i + 1], args[..i + 1], written[..i + 1], vars + [v];
    forall j, k | 0 <= j < k < |vs| && !Reuses(as_[j], ps[j], ws[j]) && !Reuses(as_[k], ps[k], ws[k])
      ensures vs[j].name != vs[k].name
    {
      if k < i {
        assert ps[j] == params[..i][j] && as_[j] == args[..i][j] && ws[j] == written[..i][j];
        assert ps[k] == params[..i][k] && as_[k] == args[..i][k] && ws[k] == written[..i][k];
      } else {
        assert vs[j].name in names;
      }
    }
  }

  /**
   * With the reuse rule, a copy back happens exactly for an `out` parameter whose argument
   * is not a variable, into a new local; so no two copies back read the same local.
   */
  lemma {:induction false} CopyBackNeedsTemp(params: seq<Variable>, args: seq<Expr>, written: seq<bool>, vars: seq<Variable>)
    requires |params| == |args| == |written| == |vars|
    requires forall i :: 0 <= i < |params| && Reuses(args[i], params[i], written[i]) ==> vars[i] == args[i].node.variable
    requires NewNamesDistinct(params, args, written, vars)
    ensures forall i :: 0 <= i < |params| ==>
              (CopiesBack(args[i], params[i], vars[i]) <==> params[i].modifiers.isOut && !args[i].node.VariableReference?)
    ensures forall i :: 0 <= i < |params| && CopiesBack(args[i], params[i], vars[i]) ==> !Reuses(args[i], params[i], written[i])
    ensures forall i, j ::
              0 <= i < j < |params| && CopiesBack(args[i], params[i], vars[i]) && CopiesBack(args[j], params[j], vars[j]) ==>
              vars[i] != vars[j]
  {
  }

  /** One declaration at most per argument, and fewer when some argument is reused. */
  lemma {:induction false} TempDeclsLength(offset: int, params: seq<Variable>, args: seq<Expr>, written: seq<bool>,
                                           vars: seq<Variable>)
    requires |params| == |args| == |written| == |vars|
    ensures |TempDecls(offset, params, args, written, vars)| <= |args|
    ensures (exists i :: 0 <= i < |args| && Reuses(args[i], params[i], written[i])) ==>
              |TempDecls(offset, params, args, written, vars)| < |args|
  {
    if |args| > 0 {
      var n := |args| - 1;
      TempDeclsLength(offset, params[..n], args[..n], written[..n], vars[..n]);
      forall i | 0 <= i < n
        ensures params[..n][i] == params[i] && args[..n][i] == args[i] && written[..n][i] == written[i]
      {
      }
    }
  }

  /** The number of `out` parameters. */
  function OutCount(params: seq<Variable>): nat {
    if |params| == 0 then 0 else OutCount(params[..|params| - 1]) + (if params[|params| - 1].modifiers.isOut then 1 else 0)
  }

  /** One copy back at most per `out` parameter. */
  lemma {:induction false} CopyBackStmtsLength(offset: int, params: seq<Variable>, args: seq<Expr>, vars: seq<Variable>)
    requires |params| == |args| == |vars|
    ensures |CopyBackStmts(offset, params, args, vars)| <= OutCount(params) <= |params|
  {
    if |args| > 0 {
      var n := |args| - 1;
      CopyBackStmtsLength(offset, params[..n], args[..n], vars[..n]);
    }
  }

  /**
   * The shape of the block `inlineCall` builds: the inline marker first, then the result
   * declaration, the argument locals, the inlined code, and the copies back. It fits the
   * room `inlineCall` reserves (marker, result, two per argument, inlined code). The
   * inlined code is a `do {} while (false)` loop exactly when the function returns early,
   * so never when the target cannot use `do` loops.
   */
  lemma {:induction false} InlineCallBodyLayout(call: Expr, definitions: map<FunctionDeclaration, FunctionDefinition>, types: InlineTypes,
                             resultVar: Option<Variable>, vars: seq<Variable>, varMap: map<Variable, Variable>,
                             rw: InlineRewrite, canUseDoLoops: bool)
    requires call.node.FunctionCall? && call.node.callee in definitions
    requires InlinableCall(call, definitions) && |vars| == |call.node.arguments|
    requires resultVar.Some? || ValueReturns(definitions[call.node.callee].body) == 0
    requires SafeToInline(call.node.callee, definitions, IntMax, canUseDoLoops)
    ensures var ss := InlinedBody(call.offset, call.node.callee, definitions[call.node.callee], call.node.arguments, types,
                                  resultVar, vars, varMap, rw).statements;
            var def := definitions[call.node.callee];
            var code := 1 + |ResultDecls(call.offset, resultVar)| +
                        |TempDecls(call.offset, def.declaration.parameters, call.node.arguments,
                                   ParamWrites(def.declaration.parameters, def.body), vars)|;
            2 <= |ss| <= 3 + 2 * |call.node.arguments| && ss[0] == InlineMarker(call.node.callee) &&
            code < |ss| && (ss[code].Do? <==> EarlyReturn(def.body)) && (!canUseDoLoops ==> ss[code].Block?)
  {
    var def := definitions[call.node.callee];
    var params, args := def.declaration.parameters, call.node.arguments;
    var written := ParamWrites(params, def.body);
    TempDeclsLength(call.offset, params, args, written, vars);
    CopyBackStmtsLength(call.offset, params, args, vars);
    var ss := InlinedBody(call.offset, call.node.callee, def, args, types, resultVar, vars, varMap, rw).statements;
    var code := 1 + |ResultDecls(call.offset, resultVar)| + |TempDecls(call.offset, params, args, written, vars)|;
    assert ss[code] == InlinedCode(call.offset, InlineStmts(call.offset, def.body.statements, varMap, resultVar,
                                                            EarlyReturn(def.body), rw),
                                   EarlyReturn(def.body), types.boolType);
  }
}
