/**
 * `VariableReference`: how references keep their variable's read and write counts, and
 * how a read of a constant is folded into a copy of the constant.
 *
 * A reference is an expression value here; creating one, destroying one and changing
 * its kind are methods that update the referenced `Variable` object. The ghost multiset
 * `live` of the variable holds the kinds of the references that exist, and the counts
 * are proved to be the ones that multiset implies.
 */
module SkslVariableReference {
  import opened Wrappers
  import opened SkslIR
  import opened SkslExpressions

  /** What a reference of kind `k` adds to the write count: every kind but Read writes. */
  function WriteDelta(k: RefKind): int { if k != Read then 1 else 0 }

  /** What a reference of kind `k` adds to the read count: every kind but Write reads. */
  function ReadDelta(k: RefKind): int { if k != Write then 1 else 0 }

  /** The write and read counts a variable has while the references in `live` exist. */
  datatype Counts = Counts(writeCount: int, readCount: int)

  function CountsOf(live: multiset<RefKind>): Counts {
    Counts(live[Write] + live[ReadWrite] + live[Pointer], live[Read] + live[ReadWrite] + live[Pointer])
  }

  /** Something that happens to one of a variable's references. */
  datatype RefEvent = Created(kind: RefKind) | Destroyed(kind: RefKind) | Changed(from: RefKind, to: RefKind)

  /** The counts after `ev`, as the constructor, the destructor and `setRefKind` update them. */
  function Step(c: Counts, ev: RefEvent): Counts {
    match ev
    case Created(k) => Counts(c.writeCount + WriteDelta(k), c.readCount + ReadDelta(k))
    case Destroyed(k) => Counts(c.writeCount - WriteDelta(k), c.readCount - ReadDelta(k))
    case Changed(a, b) => Counts(c.writeCount - WriteDelta(a) + WriteDelta(b), c.readCount - ReadDelta(a) + ReadDelta(b))
  }

  /** The references that exist after `ev`. */
  function LiveAfter(live: multiset<RefKind>, ev: RefEvent): multiset<RefKind> {
    match ev
    case Created(k) => live + multiset{k}
    case Destroyed(k) => live - multiset{k}
    case Changed(a, b) => live - multiset{a} + multiset{b}
  }

  /** Only existing references are destroyed or changed. */
  predicate Possible(live: multiset<RefKind>, ev: RefEvent) {
    match ev
    case Created(_) => true
    case Destroyed(k) => k in live
    case Changed(a, _) => a in live
  }

  predicate PossibleTrace(live: multiset<RefKind>, evs: seq<RefEvent>)
    decreases |evs|
  {
    evs == [] || (Possible(live, evs[0]) && PossibleTrace(LiveAfter(live, evs[0]), evs[1..]))
  }

  function Replay(c: Counts, evs: seq<RefEvent>): Counts
    decreases |evs|
  {
    if evs == [] then c else Replay(Step(c, evs[0]), evs[1..])
  }

  function LiveAfterAll(live: multiset<RefKind>, evs: seq<RefEvent>): multiset<RefKind>
    decreases |evs|
  {
    if evs == [] then live else LiveAfterAll(LiveAfter(live, evs[0]), evs[1..])
  }

  lemma {:induction false} AddOne(live: multiset<RefKind>, b: RefKind)
    ensures CountsOf(live + multiset{b}) == Step(CountsOf(live), Created(b))
  {
    AddCount(live, b, Read);
    AddCount(live, b, Write);
    AddCount(live, b, ReadWrite);
    AddCount(live, b, Pointer);
  }

  lemma {:induction false} AddCount(live: multiset<RefKind>, b: RefKind, k: RefKind)
    ensures (live + multiset{b})[k] == live[k] + (if b == k then 1 else 0)
  {
  }

  lemma {:induction false} RemoveOne(live: multiset<RefKind>, a: RefKind)
    requires a in live
    ensures CountsOf(live - multiset{a}) == Step(CountsOf(live), Destroyed(a))
  {
    var after := live - multiset{a};
    assert after[Read] == live[Read] - (if a == Read then 1 else 0);
    assert after[Write] == live[Write] - (if a == Write then 1 else 0);
    assert after[ReadWrite] == live[ReadWrite] - (if a == ReadWrite then 1 else 0);
    assert after[Pointer] == live[Pointer] - (if a == Pointer then 1 else 0);
  }

  /** One event keeps the counts equal to the counts of the live references. */
  lemma {:induction false} StepKeepsCounts(live: multiset<RefKind>, ev: RefEvent)
    requires Possible(live, ev)
    ensures Step(CountsOf(live), ev) == CountsOf(LiveAfter(live, ev))
  {
    match ev
    case Created(k) => AddOne(live, k);
    case Destroyed(k) => RemoveOne(live, k);
    case Changed(a, b) =>
      RemoveOne(live, a);
      AddOne(live - multiset{a}, b);
  }

  /**
   * Whatever references are created, destroyed or changed, in whatever order, the counts
   * stay those of the references that exist: every write or read a reference added is
   * taken back exactly once.
   */
  lemma {:induction false} CountsFollowLiveReferences(live: multiset<RefKind>, evs: seq<RefEvent>)
    requires PossibleTrace(live, evs)
    ensures Replay(CountsOf(live), evs) == CountsOf(LiveAfterAll(live, evs))
    decreases |evs|
  {
    if evs != [] {
      StepKeepsCounts(live, evs[0]);
      CountsFollowLiveReferences(LiveAfter(live, evs[0]), evs[1..]);
    }
  }

  /** Destroying a reference exactly undoes creating it, and changing a kind to itself changes nothing. */
  lemma {:induction false} DestroyUndoesCreate(c: Counts, k: RefKind)
    ensures Step(Step(c, Created(k)), Destroyed(k)) == c
    ensures Step(c, Changed(k, k)) == c
    ensures Step(c, Changed(Read, ReadWrite)) == Counts(c.writeCount + 1, c.readCount)
  {
  }

  /** The variable's counts and live references agree. */
  ghost predicate Tracked(v: Variable)
    reads v
  {
    Counts(v.writeCount, v.readCount) == CountsOf(v.live)
  }

  /** The `VariableReference` constructor: a reference of `kind` to `v`, counted on `v`. */
  method MakeReference(offset: int, v: Variable, kind: RefKind) returns (e: Expr)
    modifies v
    ensures e == Expr(offset, v.ty, VariableReference(v, kind))
    ensures Counts(v.writeCount, v.readCount) == Step(old(Counts(v.writeCount, v.readCount)), Created(kind))
    ensures v.live == old(v.live) + multiset{kind}
    ensures old(Tracked(v)) ==> Tracked(v)
  {
    if kind != Read {
      v.writeCount := v.writeCount + 1;
    }
    if kind != Write {
      v.readCount := v.readCount + 1;
    }
    StepKeepsCounts(v.live, Created(kind));
    v.live := v.live + multiset{kind};
    e := Expr(offset, v.ty, VariableReference(v, kind));
  }

  /** The `VariableReference` destructor: takes back what the reference's kind added. */
  method DestroyReference(e: Expr)
    requires e.node.VariableReference? && e.node.refKind in e.node.variable.live
    modifies e.node.variable
    ensures var v := e.node.variable;
            Counts(v.writeCount, v.readCount) == Step(old(Counts(v.writeCount, v.readCount)), Destroyed(e.node.refKind))
    ensures e.node.variable.live == old(e.node.variable.live) - multiset{e.node.refKind}
    ensures old(Tracked(e.node.variable)) ==> Tracked(e.node.variable)
  {
    var v := e.node.variable;
    if e.node.refKind != Read {
      v.writeCount := v.writeCount - 1;
    }
    if e.node.refKind != Write {
      v.readCount := v.readCount - 1;
    }
    StepKeepsCounts(v.live, Destroyed(e.node.refKind));
    v.live := v.live - multiset{e.node.refKind};
  }

  /** `setRefKind`: counts as if the old reference were destroyed and a new one of `kind` made. */
  method SetRefKind(e: Expr, kind: RefKind) returns (r: Expr)
    requires e.node.VariableReference? && e.node.refKind in e.node.variable.live
    modifies e.node.variable
    ensures r == Expr(e.offset, e.ty, VariableReference(e.node.variable, kind))
    ensures var v := e.node.variable;
            Counts(v.writeCount, v.readCount) == Step(old(Counts(v.writeCount, v.readCount)), Changed(e.node.refKind, kind))
    ensures e.node.variable.live == old(e.node.variable.live) - multiset{e.node.refKind} + multiset{kind}
    ensures old(Tracked(e.node.variable)) ==> Tracked(e.node.variable)
  {
    var v := e.node.variable;
    var current := e.node.refKind;
    ghost var before := Counts(v.writeCount, v.readCount);
    if current != Read {
      v.writeCount := v.writeCount - 1;
    }
    if current != Write {
      v.readCount := v.readCount - 1;
    }
    assert Counts(v.writeCount, v.readCount) == Step(before, Destroyed(current));
    if kind != Read {
      v.writeCount := v.writeCount + 1;
    }
    if kind != Write {
      v.readCount := v.readCount + 1;
    }
    assert Counts(v.writeCount, v.readCount) == Step(before, Changed(current, kind));
    StepKeepsCounts(v.live, Changed(current, kind));
    v.live := v.live - multiset{current} + multiset{kind};
    r := Expr(e.offset, e.ty, VariableReference(v, kind));
  }

  /** The context's types for new literals. */
  datatype LiteralTypes = LiteralTypes(intType: Type, floatType: Type, boolType: Type)

  /**
   * `copy_constant`: a fresh copy of a constant tree. Literals are rebuilt at the same
   * offset with the same value and the context's literal type; a prefix over a copied
   * operand takes the operand's offset and type; a constructor keeps its offset, type and
   * argument order; a setting keeps its offset and name and takes its copied value's
   * type. Any other kind aborts.
   */
  function CopyConstant(e: Expr, lt: LiteralTypes): Result<Expr, string> {
    match e.node
    case IntLiteral(v) => Ok(Expr(e.offset, lt.intType, IntLiteral(v)))
    case FloatLiteral(v) => Ok(Expr(e.offset, lt.floatType, FloatLiteral(v)))
    case BoolLiteral(v) => Ok(Expr(e.offset, lt.boolType, BoolLiteral(v)))
    case Prefix(op, operand) =>
      (match CopyConstant(operand, lt)
       case Err(m) => Err(m)
       case Ok(o) => Ok(Expr(o.offset, o.ty, Prefix(op, o))))
    case Constructor(args) =>
      (match CopyConstantList(args, lt)
       case Err(m) => Err(m)
       case Ok(copies) => Ok(Expr(e.offset, e.ty, Constructor(copies))))
    case Setting(name, value) =>
      (match CopyConstant(value, lt)
       case Err(m) => Err(m)
       case Ok(v) => Ok(Expr(e.offset, v.ty, Setting(name, v))))
    case _ => Err("unsupported constant")
  }

  /** The copies of `es`, in order; the first abort aborts the whole copy. */
  function CopyConstantList(es: seq<Expr>, lt: LiteralTypes): (r: Result<seq<Expr>, string>)
    ensures r.Ok? ==> |r.value| == |es|
  {
    if es == [] then Ok([])
    else
      match CopyConstant(es[0], lt)
      case Err(m) => Err(m)
      case Ok(c) =>
        match CopyConstantList(es[1..], lt)
        case Err(m) => Err(m)
        case Ok(cs) => Ok([c] + cs)
  }

  /**
   * Two trees with the same node kinds, literal values, operators, setting names,
   * constructor offsets and types, and argument order: the copy is node for node the
   * original, and only literal types, prefix offsets and types, and setting types may
   * differ.
   */
  predicate SameTree(a: Expr, b: Expr) {
    match a.node
    case IntLiteral(v) => b.node == IntLiteral(v) && b.offset == a.offset
    case FloatLiteral(v) => b.node == FloatLiteral(v) && b.offset == a.offset
    case BoolLiteral(v) => b.node == BoolLiteral(v) && b.offset == a.offset
    case Prefix(op, o) => b.node.Prefix? && b.node.op == op && SameTree(o, b.node.operand)
    case Constructor(args) =>
      b.node.Constructor? && b.offset == a.offset && b.ty == a.ty && |b.node.arguments| == |args| &&
      forall i :: 0 <= i < |args| ==> SameTree(args[i], b.node.arguments[i])
    case Setting(name, v) => b.node.Setting? && b.offset == a.offset && b.node.settingName == name &&
                             SameTree(v, b.node.value)
    case _ => false
  }

  /** A copy that succeeds reproduces the original node for node. */
  lemma {:induction false} CopyConstantSameTree(e: Expr, lt: LiteralTypes)
    requires CopyConstant(e, lt).Ok?
    ensures SameTree(e, CopyConstant(e, lt).value)
  {
    match e.node
    case Prefix(_, o) => CopyConstantSameTree(o, lt);
    case Constructor(args) => CopyConstantListSameTree(args, lt);
    case Setting(_, v) => CopyConstantSameTree(v, lt);
    case _ =>
  }

  lemma {:induction false} CopyConstantListSameTree(es: seq<Expr>, lt: LiteralTypes)
    requires CopyConstantList(es, lt).Ok?
    ensures forall i :: 0 <= i < |es| ==> SameTree(es[i], CopyConstantList(es, lt).value[i])
  {
    if es != [] {
      CopyConstantSameTree(es[0], lt);
      CopyConstantListSameTree(es[1..], lt);
      var cs := CopyConstantList(es, lt).value;
      forall i | 0 < i < |es| ensures SameTree(es[i], cs[i]) {
        assert es[i] == es[1..][i - 1];
      }
    }
  }

  /** Copying a copy gives the copy again: one copy already has the context's literal types. */
  lemma {:induction false} CopyConstantIdempotent(e: Expr, lt: LiteralTypes)
    requires CopyConstant(e, lt).Ok?
    ensures CopyConstant(CopyConstant(e, lt).value, lt) == CopyConstant(e, lt)
  {
    match e.node
    case Prefix(_, o) => CopyConstantIdempotent(o, lt);
    case Constructor(args) => CopyConstantListIdempotent(args, lt);
    case Setting(_, v) => CopyConstantIdempotent(v, lt);
    case _ =>
  }

  lemma {:induction false} CopyConstantListIdempotent(es: seq<Expr>, lt: LiteralTypes)
    requires CopyConstantList(es, lt).Ok?
    ensures CopyConstantList(CopyConstantList(es, lt).value, lt) == CopyConstantList(es, lt)
  {
    if es != [] {
      CopyConstantIdempotent(es[0], lt);
      CopyConstantListIdempotent(es[1..], lt);
      var cs := CopyConstantList(es, lt).value;
      assert cs[0] == CopyConstant(es[0], lt).value;
      assert cs[1..] == CopyConstantList(es[1..], lt).value;
    }
  }

  /** A kind `copy_constant` does not support aborts the copy, also deep inside a constructor. */
  lemma {:induction false} UnsupportedConstantAborts(offset: int, ty: Type, x: Variable, lt: LiteralTypes)
    ensures CopyConstant(Expr(offset, ty, Constructor([Expr(offset, ty, IntLiteral(1)),
                                                      Expr(offset, ty, VariableReference(x, Read))])), lt)
            == Err("unsupported constant")
  {
    var args := [Expr(offset, ty, IntLiteral(1)), Expr(offset, ty, VariableReference(x, Read))];
    assert args[1..] == [Expr(offset, ty, VariableReference(x, Read))];
    assert CopyConstant(args[0], lt).Ok?;
    assert CopyConstant(args[1..][0], lt) == Err("unsupported constant");
    assert CopyConstantList(args[1..], lt) == Err("unsupported constant");
  }

  /** The first case of the fold: a const variable with a compile-time-constant initial value, read through a non-array type. */
  predicate InitialValueFolds(e: Expr, f: LeafFacts)
    requires e.node.VariableReference?
  {
    var v := e.node.variable;
    v.modifiers.isConst && v.initialValue.Some? && IsCompileTimeConstant(v.initialValue.value, f) &&
    e.ty.kind != Array
  }

  /** The second case: the variable's current definition is present and a compile-time constant. */
  predicate DefinitionFolds(e: Expr, definitions: map<Variable, Option<Expr>>, f: LeafFacts)
    requires e.node.VariableReference?
  {
    var v := e.node.variable;
    v in definitions && definitions[v].Some? && IsCompileTimeConstant(definitions[v].value, f)
  }

  /**
   * `VariableReference::constantPropagate`. Only a read is folded. A const variable whose
   * initial value is a compile-time constant, read through a non-array type, folds to a
   * copy of that value; otherwise a definition that is a compile-time constant folds to a
   * copy of the definition; otherwise nothing. `definitions` maps variables to their
   * current definition, which may be missing.
   */
  function RefConstantPropagate(e: Expr, definitions: map<Variable, Option<Expr>>, f: LeafFacts,
                                lt: LiteralTypes): (r: Result<Option<Expr>, string>)
    requires e.node.VariableReference?
    ensures e.node.refKind != Read ==> r == Ok(None)
    ensures e.node.refKind == Read && InitialValueFolds(e, f) ==>
      r == CopyAsSome(e.node.variable.initialValue.value, lt)
    ensures e.node.refKind == Read && !InitialValueFolds(e, f) && DefinitionFolds(e, definitions, f) ==>
      r == CopyAsSome(definitions[e.node.variable].value, lt)
    ensures r == Ok(None) <==>
      e.node.refKind != Read || (!InitialValueFolds(e, f) && !DefinitionFolds(e, definitions, f))
    ensures r.Ok? && r.value.Some? ==>
      var v := e.node.variable;
      (v.modifiers.isConst && v.initialValue.Some? && IsCompileTimeConstant(v.initialValue.value, f) &&
       e.ty.kind != Array && SameTree(v.initialValue.value, r.value.value)) ||
      (v in definitions && definitions[v].Some? && IsCompileTimeConstant(definitions[v].value, f) &&
       SameTree(definitions[v].value, r.value.value))
  {
    var v := e.node.variable;
    if e.node.refKind != Read then Ok(None)
    else if InitialValueFolds(e, f) then CopyAsSome(v.initialValue.value, lt)
    else if DefinitionFolds(e, definitions, f) then CopyAsSome(definitions[v].value, lt)
    else Ok(None)
  }

  function CopyAsSome(e: Expr, lt: LiteralTypes): (r: Result<Option<Expr>, string>)
    ensures r.Ok? ==> r.value.Some? && SameTree(e, r.value.value)
    ensures r.Ok? <==> CopyConstant(e, lt).Ok?
  {
    match CopyConstant(e, lt)
    case Err(m) => Err(m)
    case Ok(c) => CopyConstantSameTree(e, lt); Ok(Some(c))
  }

  /**
   * A read of a variable that is neither a foldable const nor has a constant definition
   * folds to nothing: the reference stays.
   */
  lemma {:induction false} NothingToFold(e: Expr, definitions: map<Variable, Option<Expr>>, f: LeafFacts, lt: LiteralTypes)
    requires e.node.VariableReference? && !e.node.variable.modifiers.isConst
    requires e.node.variable !in definitions
    ensures RefConstantPropagate(e, definitions, f, lt) == Ok(None)
  {
  }
}
