/**
 * The virtual queries every SkSL expression answers (`hasProperty`,
 * `isCompileTimeConstant`, `isConstantOrUniform`, `description`, `clone`) as one
 * recursive function per query that dispatches on the node kind.
 *
 * Only the constructor and binary-expression answers are part of this model. The
 * answers of the other node kinds come from a `LeafFacts` value the caller supplies,
 * so every statement below holds whatever those kinds answer.
 */
module SkslExpressions {
  import opened Wrappers
  import opened Strings
  import opened SkslIR

  /** `Expression::Property`. */
  datatype Property = SideEffects | ContainsRTAdjust

  /**
   * What the node kinds outside the model answer: `hasProperty`, `isCompileTimeConstant`,
   * `isConstantOrUniform`, `description`, `getConstantFloat` (None where the kind aborts)
   * and `getFVecComponent` (likewise).
   */
  datatype LeafFacts = LeafFacts(hasProperty: (Expr, Property) -> bool,
                                 isCompileTimeConstant: Expr -> bool,
                                 isConstantOrUniform: Expr -> bool,
                                 description: Expr -> string,
                                 constantValue: Expr -> Option<real>,
                                 vecComponent: (Expr, int) -> Option<real>)

  /**
   * `hasProperty`: a constructor has a property iff some argument has it; a binary
   * expression has side effects when its operator assigns, and otherwise has a property
   * iff either side has it.
   */
  predicate HasProperty(e: Expr, p: Property, f: LeafFacts) {
    match e.node
    case Constructor(args) => exists i :: 0 <= i < |args| && HasProperty(args[i], p, f)
    case Binary(l, op, r) => (p == SideEffects && IsAssignment(op)) || HasProperty(l, p, f) || HasProperty(r, p, f)
    case _ => f.hasProperty(e, p)
  }

  /** `isCompileTimeConstant`: a constructor is constant iff every argument is. */
  predicate IsCompileTimeConstant(e: Expr, f: LeafFacts) {
    match e.node
    case Constructor(args) => forall i :: 0 <= i < |args| ==> IsCompileTimeConstant(args[i], f)
    case _ => f.isCompileTimeConstant(e)
  }

  /** `isConstantOrUniform`: every argument of a constructor, both sides of a binary expression. */
  predicate IsConstantOrUniform(e: Expr, f: LeafFacts) {
    match e.node
    case Constructor(args) => forall i :: 0 <= i < |args| ==> IsConstantOrUniform(args[i], f)
    case Binary(l, _, r) => IsConstantOrUniform(l, f) && IsConstantOrUniform(r, f)
    case _ => f.isConstantOrUniform(e)
  }

  /**
   * `description`: a constructor prints as its type, then its arguments separated by
   * ", " in parentheses; a binary expression prints parenthesised, with the operator
   * between single spaces.
   */
  function Description(e: Expr, f: LeafFacts): string {
    match e.node
    case Constructor(args) => e.ty.name + "(" + Join(Descriptions(args, f), ", ") + ")"
    case Binary(l, op, r) => "(" + Description(l, f) + " " + OperatorName(op) + " " + Description(r, f) + ")"
    case _ => f.description(e)
  }

  /** The descriptions of `es`, in order. */
  function Descriptions(es: seq<Expr>, f: LeafFacts): (r: seq<string>)
    ensures |r| == |es|
    ensures forall i :: 0 <= i < |es| ==> r[i] == Description(es[i], f)
  {
    if es == [] then [] else [Description(es[0], f)] + Descriptions(es[1..], f)
  }

  /**
   * `clone`: a constructor and a binary expression rebuild themselves from clones of their
   * children with the same offset, type and operator. Other kinds copy themselves.
   */
  function Clone(e: Expr): Expr {
    match e.node
    case Constructor(args) => Expr(e.offset, e.ty, Constructor(CloneList(args)))
    case Binary(l, op, r) => Expr(e.offset, e.ty, Binary(Clone(l), op, Clone(r)))
    case _ => e
  }

  function CloneList(es: seq<Expr>): (r: seq<Expr>)
    ensures |r| == |es|
  {
    if es == [] then [] else [Clone(es[0])] + CloneList(es[1..])
  }

  /** A clone is equal to the original as a tree: same kinds, offsets, types, operators and argument order. */
  lemma {:induction false} CloneIsCopy(e: Expr)
    ensures Clone(e) == e
  {
    match e.node
    case Constructor(args) => CloneListIsCopy(args);
    case Binary(l, _, r) => CloneIsCopy(l); CloneIsCopy(r);
    case _ =>
  }

  lemma {:induction false} CloneListIsCopy(es: seq<Expr>)
    ensures CloneList(es) == es
  {
    if es != [] {
      CloneIsCopy(es[0]);
      CloneListIsCopy(es[1..]);
    }
  }

  /**
   * The subexpressions the queries reach before they ask a kind outside the model:
   * constructors are looked through, and so are binary expressions when `throughBinary`.
   * Listed left to right.
   */
  function Parts(e: Expr, throughBinary: bool): seq<Expr> {
    match e.node
    case Constructor(args) => PartsList(args, throughBinary)
    case Binary(l, _, r) => if throughBinary then Parts(l, throughBinary) + Parts(r, throughBinary) else [e]
    case _ => [e]
  }

  function PartsList(es: seq<Expr>, throughBinary: bool): seq<Expr> {
    if es == [] then [] else Parts(es[0], throughBinary) + PartsList(es[1..], throughBinary)
  }

  /** Whether an assignment operator occurs among the binary expressions `Parts(e, true)` looks through. */
  predicate AssignsOnSpine(e: Expr) {
    match e.node
    case Constructor(args) => exists i :: 0 <= i < |args| && AssignsOnSpine(args[i])
    case Binary(l, op, r) => IsAssignment(op) || AssignsOnSpine(l) || AssignsOnSpine(r)
    case _ => false
  }

  /** A part of a list comes from one of its expressions. */
  lemma {:induction false} PartsListSource(es: seq<Expr>, throughBinary: bool, x: Expr) returns (i: nat)
    requires x in PartsList(es, throughBinary)
    ensures i < |es| && x in Parts(es[i], throughBinary)
  {
    if x !in Parts(es[0], throughBinary) {
      var j := PartsListSource(es[1..], throughBinary, x);
      i := j + 1;
    } else {
      i := 0;
    }
  }

  /** Every part of an expression of a list is a part of the list. */
  lemma {:induction false} PartsListHas(es: seq<Expr>, throughBinary: bool, i: nat, x: Expr)
    requires i < |es| && x in Parts(es[i], throughBinary)
    ensures x in PartsList(es, throughBinary)
  {
    if i > 0 {
      assert es[i] == es[1..][i - 1];
      PartsListHas(es[1..], throughBinary, i - 1, x);
    }
  }

  /**
   * `hasProperty` asks the kinds outside the model about exactly the parts it looks
   * through to: an expression has a property iff some such part has it, or the property
   * is side effects and an assignment sits on the way.
   */
  lemma {:induction false} HasPropertyIffSomePart(e: Expr, p: Property, f: LeafFacts)
    ensures HasProperty(e, p, f) <==>
            (p == SideEffects && AssignsOnSpine(e)) || exists x :: x in Parts(e, true) && f.hasProperty(x, p)
  {
    match e.node
    case Constructor(args) =>
      forall i | 0 <= i < |args| {
        HasPropertyIffSomePart(args[i], p, f);
      }
      if HasProperty(e, p, f) {
        var i :| 0 <= i < |args| && HasProperty(args[i], p, f);
        if !(p == SideEffects && AssignsOnSpine(args[i])) {
          var x :| x in Parts(args[i], true) && f.hasProperty(x, p);
          PartsListHas(args, true, i, x);
        }
      }
      if exists x :: x in Parts(e, true) && f.hasProperty(x, p) {
        var x :| x in Parts(e, true) && f.hasProperty(x, p);
        var i := PartsListSource(args, true, x);
        assert HasProperty(args[i], p, f);
      }
    case Binary(l, op, r) =>
      HasPropertyIffSomePart(l, p, f);
      HasPropertyIffSomePart(r, p, f);
    case _ =>
      assert Parts(e, true) == [e];
  }

  /** `isConstantOrUniform` holds iff every part it looks through to is constant or uniform. */
  lemma {:induction false} ConstantOrUniformIffAllParts(e: Expr, f: LeafFacts)
    ensures IsConstantOrUniform(e, f) <==> forall x :: x in Parts(e, true) ==> f.isConstantOrUniform(x)
  {
    match e.node
    case Constructor(args) =>
      forall i | 0 <= i < |args| {
        ConstantOrUniformIffAllParts(args[i], f);
      }
      if IsConstantOrUniform(e, f) {
        forall x | x in Parts(e, true) ensures f.isConstantOrUniform(x) {
          var i := PartsListSource(args, true, x);
          assert IsConstantOrUniform(args[i], f);
        }
      } else {
        var i :| 0 <= i < |args| && !IsConstantOrUniform(args[i], f);
        var x :| x in Parts(args[i], true) && !f.isConstantOrUniform(x);
        PartsListHas(args, true, i, x);
      }
    case Binary(l, op, r) =>
      ConstantOrUniformIffAllParts(l, f);
      ConstantOrUniformIffAllParts(r, f);
    case _ =>
      assert Parts(e, true) == [e];
  }

  /**
   * `isCompileTimeConstant` holds iff every part reached through constructors is a
   * compile-time constant; in particular a constructor with no arguments is one.
   */
  lemma {:induction false} CompileTimeConstantIffAllParts(e: Expr, f: LeafFacts)
    ensures IsCompileTimeConstant(e, f) <==> forall x :: x in Parts(e, false) ==> f.isCompileTimeConstant(x)
  {
    match e.node
    case Constructor(args) =>
      forall i | 0 <= i < |args| {
        CompileTimeConstantIffAllParts(args[i], f);
      }
      if IsCompileTimeConstant(e, f) {
        forall x | x in Parts(e, false) ensures f.isCompileTimeConstant(x) {
          var i := PartsListSource(args, false, x);
          assert IsCompileTimeConstant(args[i], f);
        }
      } else {
        var i :| 0 <= i < |args| && !IsCompileTimeConstant(args[i], f);
        var x :| x in Parts(args[i], false) && !f.isCompileTimeConstant(x);
        PartsListHas(args, false, i, x);
      }
    case _ =>
      assert Parts(e, false) == [e];
  }
}
