/**
 * `BinaryExpression`: the check that the left side of an assignment can be written,
 * and the constructor that demands it. The binary case of each virtual query is part of
 * the dispatching functions in `SkslExpressions`.
 */
module SkslBinaryExpression {
  import opened SkslIR
  import opened SkslExpressions

  /**
   * `check_ref`: an external value can be written; field accesses, indexes and swizzles
   * are writable when their base is; a ternary when both branches are; a variable
   * reference only when it was made as a write or read-write reference.
   */
  predicate CheckRef(e: Expr) {
    match e.node
    case ExternalValue(_) => true
    case FieldAccess(b, _) => CheckRef(b)
    case Index(b, _) => CheckRef(b)
    case Swizzle(b, _) => CheckRef(b)
    case Ternary(_, t, f) => CheckRef(t) && CheckRef(f)
    case VariableReference(_, k) => k == Write || k == ReadWrite
    case _ => false
  }

  /**
   * The storage an assignment to `e` may end up writing: the base of field accesses,
   * indexes and swizzles, both branches of a ternary; any other expression is its own root.
   */
  function Roots(e: Expr): (r: seq<Expr>)
    ensures |r| >= 1
  {
    match e.node
    case FieldAccess(b, _) => Roots(b)
    case Index(b, _) => Roots(b)
    case Swizzle(b, _) => Roots(b)
    case Ternary(_, t, f) => Roots(t) + Roots(f)
    case _ => [e]
  }

  /** An external value, or a variable reference made for writing. */
  predicate WritableRoot(e: Expr) {
    e.node.ExternalValue? || (e.node.VariableReference? && (e.node.refKind == Write || e.node.refKind == ReadWrite))
  }

  /** `check_ref` accepts an expression iff everything it may write through is writable. */
  lemma {:induction false} CheckRefIffWritableRoots(e: Expr)
    ensures CheckRef(e) <==> forall x :: x in Roots(e) ==> WritableRoot(x)
  {
    match e.node
    case FieldAccess(b, _) => CheckRefIffWritableRoots(b);
    case Index(b, _) => CheckRefIffWritableRoots(b);
    case Swizzle(b, _) => CheckRefIffWritableRoots(b);
    case Ternary(_, t, f) =>
      CheckRefIffWritableRoots(t);
      CheckRefIffWritableRoots(f);
    case _ =>
      assert Roots(e) == [e];
      assert e in Roots(e);
  }

  /**
   * The `BinaryExpression` constructor. Its assertion becomes the precondition: an
   * assignment operator needs a left side `check_ref` accepts, so every storage the
   * new assignment writes was referenced for writing.
   */
  function MakeBinary(offset: int, left: Expr, op: Operator, right: Expr, ty: Type): (r: Expr)
    requires !IsAssignment(op) || CheckRef(left)
    ensures r.offset == offset && r.ty == ty && r.node == Binary(left, op, right)
    ensures IsAssignment(op) ==> forall x :: x in Roots(r.node.left) ==> WritableRoot(x)
  {
    CheckRefIffWritableRoots(left);
    Expr(offset, ty, Binary(left, op, right))
  }

  /** An assignment has side effects whatever its operands are. */
  lemma {:induction false} AssignmentHasSideEffects(offset: int, left: Expr, op: Operator, right: Expr, ty: Type, f: LeafFacts)
    requires IsAssignment(op) && CheckRef(left)
    ensures HasProperty(MakeBinary(offset, left, op, right, ty), SideEffects, f)
  {
  }

  /**
   * A binary expression that does not assign has a property iff one of its operands has
   * it, and is constant or uniform iff both are.
   */
  lemma {:induction false} NonAssignmentFromOperands(offset: int, left: Expr, op: Operator, right: Expr, ty: Type,
                                  p: Property, f: LeafFacts)
    requires !IsAssignment(op)
    ensures HasProperty(MakeBinary(offset, left, op, right, ty), p, f)
            <==> HasProperty(left, p, f) || HasProperty(right, p, f)
    ensures IsConstantOrUniform(MakeBinary(offset, left, op, right, ty), f)
            <==> IsConstantOrUniform(left, f) && IsConstantOrUniform(right, f)
  {
  }

  /** `x += 1` over a written variable `x` prints as "(x += 1)". */
  lemma {:induction false} DescriptionExample(x: Variable, f: LeafFacts)
    requires f.description(Expr(0, BoolType, VariableReference(x, ReadWrite))) == "x"
    requires f.description(Expr(5, BoolType, IntLiteral(1))) == "1"
    ensures Description(MakeBinary(0, Expr(0, BoolType, VariableReference(x, ReadWrite)), PlusEq,
                                   Expr(5, BoolType, IntLiteral(1)), BoolType), f) == "(x += 1)"
  {
  }
}
