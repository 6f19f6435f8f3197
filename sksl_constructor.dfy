/**
 * `Constructor`: the construction of a vector, matrix or scalar from argument
 * expressions. The loops of its virtual queries are methods proved against the
 * dispatching functions of `SkslExpressions`; the component lookups used by constant
 * folding are methods proved against functions, and those functions against a flat list
 * of the constructor's components.
 *
 * Component values are `real`s: the integer and floating-point instantiations of
 * `getVecComponent` are one function here. `None` stands for an abort (an expression
 * kind that has no constant value, or a cast the source makes without checking).
 */
module SkslConstructor {
  import opened Wrappers
  import opened Strings
  import opened SkslIR
  import opened SkslExpressions

  /**
   * `constantPropagate`: a constructor of exactly one integer literal folds to a float
   * literal of the same value when its type is a float scalar (typed by the context's
   * `floatType`), to an integer literal of its own type when its type is an integer
   * scalar, and to nothing otherwise. The literal keeps the constructor's offset.
   */
  function ConstantPropagate(c: Expr, floatType: Type): (r: Option<Expr>)
    requires c.node.Constructor?
    ensures r.Some? <==> |c.node.arguments| == 1 && c.node.arguments[0].node.IntLiteral? &&
                         (c.ty.IsFloat() || c.ty.IsInteger())
    ensures r.Some? ==> r.value.offset == c.offset && LiteralValue(r.value) == Some(c.node.arguments[0].node.intValue as real)
    ensures r.Some? && c.ty.IsFloat() ==> r.value.node.FloatLiteral? && r.value.ty == floatType
    ensures r.Some? && c.ty.IsInteger() ==> r.value.node.IntLiteral? && r.value.ty == c.ty
  {
    var args := c.node.arguments;
    if |args| == 1 && args[0].node.IntLiteral? then
      if c.ty.IsFloat() then Some(Expr(c.offset, floatType, FloatLiteral(args[0].node.intValue as real)))
      else if c.ty.IsInteger() then Some(Expr(c.offset, c.ty, IntLiteral(args[0].node.intValue)))
      else None
    else None
  }

  /** The value of a literal. */
  function LiteralValue(e: Expr): Option<real> {
    match e.node
    case IntLiteral(v) => Some(v as real)
    case FloatLiteral(v) => Some(v)
    case _ => None
  }

  /** A propagated constant is a literal, so propagating it again as a constructor is not possible. */
  lemma {:induction false} ConstantPropagateGivesLiteral(c: Expr, floatType: Type)
    requires c.node.Constructor? && ConstantPropagate(c, floatType).Some?
    ensures !ConstantPropagate(c, floatType).value.node.Constructor?
    ensures ConstantPropagate(c, floatType).value.node.IntLiteral? ==> c.ty.IsInteger()
  {
  }

  /** `Constructor::hasProperty`: looks for an argument with the property, stopping at the first. */
  method HasPropertyLoop(c: Expr, p: Property, f: LeafFacts) returns (b: bool)
    requires c.node.Constructor?
    ensures b <==> exists i :: 0 <= i < |c.node.arguments| && HasProperty(c.node.arguments[i], p, f)
    ensures b == HasProperty(c, p, f)
  {
    var args := c.node.arguments;
    for i := 0 to |args|
      invariant forall j :: 0 <= j < i ==> !HasProperty(args[j], p, f)
    {
      if HasProperty(args[i], p, f) {
        return true;
      }
    }
    return false;
  }

  /** `Constructor::isCompileTimeConstant`: stops at the first argument that is not constant. */
  method IsCompileTimeConstantLoop(c: Expr, f: LeafFacts) returns (b: bool)
    requires c.node.Constructor?
    ensures b <==> forall i :: 0 <= i < |c.node.arguments| ==> IsCompileTimeConstant(c.node.arguments[i], f)
    ensures b == IsCompileTimeConstant(c, f)
  {
    var args := c.node.arguments;
    for i := 0 to |args|
      invariant forall j :: 0 <= j < i ==> IsCompileTimeConstant(args[j], f)
    {
      if !IsCompileTimeConstant(args[i], f) {
        return false;
      }
    }
    return true;
  }

  /** `Constructor::isConstantOrUniform`: stops at the first argument that is neither. */
  method IsConstantOrUniformLoop(c: Expr, f: LeafFacts) returns (b: bool)
    requires c.node.Constructor?
    ensures b <==> forall i :: 0 <= i < |c.node.arguments| ==> IsConstantOrUniform(c.node.arguments[i], f)
    ensures b == IsConstantOrUniform(c, f)
  {
    var args := c.node.arguments;
    for i := 0 to |args|
      invariant forall j :: 0 <= j < i ==> IsConstantOrUniform(args[j], f)
    {
      if !IsConstantOrUniform(args[i], f) {
        return false;
      }
    }
    return true;
  }

  /**
   * `Constructor::description`: the type's name and "(", then each argument's description
   * preceded by the separator, which is empty before the first and ", " after it; then ")".
   */
  method DescriptionLoop(c: Expr, f: LeafFacts) returns (r: string)
    requires c.node.Constructor?
    ensures r == c.ty.name + "(" + Join(Descriptions(c.node.arguments, f), ", ") + ")"
    ensures r == Description(c, f)
  {
    var args := c.node.arguments;
    ghost var head := c.ty.name + "(";
    r := c.ty.name + "(";
    var separator := "";
    for i := 0 to |args|
      invariant separator == if i == 0 then "" else ", "
      invariant r == head + Join(Descriptions(args[..i], f), ", ")
    {
      DescriptionStep(args, i, f);
      ghost var joined := Join(Descriptions(args[..i], f), ", ");
      ConcatAssoc(head, joined + separator, Description(args[i], f));
      ConcatAssoc(head, joined, separator);
      r := r + separator;
      r := r + Description(args[i], f);
      separator := ", ";
    }
    assert args[..|args|] == args;
    r := r + ")";
  }

  /** Adding argument `i` to the joined descriptions adds the separator (none before the first) and its description. */
  lemma {:induction false} DescriptionStep(args: seq<Expr>, i: nat, f: LeafFacts)
    requires i < |args|
    ensures Join(Descriptions(args[..i + 1], f), ", ")
         == Join(Descriptions(args[..i], f), ", ") + (if i == 0 then "" else ", ") + Description(args[i], f)
  {
    var before := Descriptions(args[..i], f);
    assert args[..i + 1] == args[..i] + [args[i]];
    assert Descriptions(args[..i + 1], f) == before + [Description(args[i], f)];
    JoinAppend(before, Description(args[i], f), ", ");
    if i == 0 {
      assert Join(before, ", ") == "";
    }
  }

  /** `Constructor::clone`: the clones of the arguments, in order, under the same offset and type. */
  method CloneLoop(c: Expr) returns (r: Expr)
    requires c.node.Constructor?
    ensures r == c
    ensures r == Clone(c)
  {
    var args := c.node.arguments;
    var cloned: seq<Expr> := [];
    for i := 0 to |args|
      invariant cloned == args[..i]
    {
      CloneIsCopy(args[i]);
      cloned := cloned + [Clone(args[i])];
    }
    assert args[..|args|] == args;
    r := Expr(c.offset, c.ty, Constructor(cloned));
    CloneIsCopy(c);
  }

  function Negate(v: Option<real>): Option<real> {
    match v
    case None => None
    case Some(x) => Some(-x)
  }

  /**
   * `getVecComponent(index)`: a constructor of one scalar gives that scalar at every
   * index; otherwise the walk over the arguments below.
   */
  function VecComponent(c: Expr, index: int, f: LeafFacts): Option<real>
    requires c.node.Constructor?
    decreases c, |c.node.arguments| + 1
  {
    var args := c.node.arguments;
    if |args| == 1 && args[0].ty.kind == Scalar then f.constantValue(args[0])
    else VecWalk(c, 0, index, 0, f)
  }

  /**
   * The walk of `getVecComponent` from argument `k`, whose first component is at
   * `current`. It gives up with -1 once past the index or out of arguments. A scalar is
   * one component. A constructor, or a negated constructor, that covers the index is
   * entered at `index - current`. Any other argument is passed over by its column count.
   */
  function VecWalk(c: Expr, k: nat, index: int, current: int, f: LeafFacts): Option<real>
    requires c.node.Constructor? && k <= |c.node.arguments|
    decreases c, |c.node.arguments| - k
  {
    var args := c.node.arguments;
    if k == |args| || current > index then Some(-1.0)
    else
      var arg := args[k];
      if arg.ty.kind == Scalar then
        if index == current then f.constantValue(arg) else VecWalk(c, k + 1, index, current + 1, f)
      else if current + arg.ty.columns > index && arg.node.Constructor? then
        VecComponent(arg, index - current, f)
      else if current + arg.ty.columns > index && arg.node.Prefix? then
        if arg.node.operand.node.Constructor? then Negate(VecComponent(arg.node.operand, index - current, f))
        else None
      else VecWalk(c, k + 1, index, current + arg.ty.columns, f)
  }

  /** `Constructor::getVecComponent` as the loop the source runs. */
  method GetVecComponent(c: Expr, index: int, f: LeafFacts) returns (r: Option<real>)
    requires c.node.Constructor?
    ensures r == VecComponent(c, index, f)
    decreases c
  {
    var args := c.node.arguments;
    if |args| == 1 && args[0].ty.kind == Scalar {
      return f.constantValue(args[0]);
    }
    var current := 0;
    var k := 0;
    while k < |args|
      invariant 0 <= k <= |args|
      invariant VecWalk(c, k, index, current, f) == VecWalk(c, 0, index, 0, f)
      decreases |args| - k
    {
      if current > index {
        break;
      }
      var arg := args[k];
      if arg.ty.kind == Scalar {
        if index == current {
          return f.constantValue(arg);
        }
        current := current + 1;
        k := k + 1;
        continue;
      }
      match arg.node {
        case Constructor(_) =>
          if current + arg.ty.columns > index {
            r := GetVecComponent(arg, index - current, f);
            return;
          }
        case Prefix(_, operand) =>
          if current + arg.ty.columns > index {
            if !operand.node.Constructor? {
              return None;
            }
            var v := GetVecComponent(operand, index - current, f);
            return Negate(v);
          }
        case _ =>
      }
      current := current + arg.ty.columns;
      k := k + 1;
    }
    return Some(-1.0);
  }

  function NegateAll(s: seq<Option<real>>): (r: seq<Option<real>>)
    ensures |r| == |s| && forall i :: 0 <= i < |s| ==> r[i] == Negate(s[i])
  {
    seq(|s|, i requires 0 <= i < |s| => Negate(s[i]))
  }

  /**
   * The components of a vector constructor, flattened: a single scalar repeated over the
   * type's columns, or each argument's components in turn.
   */
  function Components(c: Expr, f: LeafFacts): seq<Option<real>>
    requires c.node.Constructor?
    decreases c, |c.node.arguments| + 1
  {
    var args := c.node.arguments;
    if |args| == 1 && args[0].ty.kind == Scalar then seq(c.ty.columns, _ => f.constantValue(args[0]))
    else ComponentsFrom(c, 0, f)
  }

  /**
   * The components of arguments `k..`: a scalar is its value; a constructor its own
   * components, negated under a prefix; an argument of any other kind contributes its
   * column count of -1, the value the walk gives up with.
   */
  function ComponentsFrom(c: Expr, k: nat, f: LeafFacts): seq<Option<real>>
    requires c.node.Constructor? && k <= |c.node.arguments|
    decreases c, |c.node.arguments| - k
  {
    var args := c.node.arguments;
    if k == |args| then []
    else
      var arg := args[k];
      var piece :=
        if arg.ty.kind == Scalar then [f.constantValue(arg)]
        else if arg.node.Constructor? then Components(arg, f)
        else if arg.node.Prefix? then
          (if arg.node.operand.node.Constructor? then NegateAll(Components(arg.node.operand, f))
           else seq(arg.ty.columns, _ => None))
        else seq(arg.ty.columns, _ => Some(-1.0));
      piece + ComponentsFrom(c, k + 1, f)
  }

  /**
   * A constructor whose non-scalar arguments each have as many components as their type
   * has columns, all the way down. The SkSL front end only builds such constructors.
   */
  predicate WellSized(c: Expr, f: LeafFacts)
    requires c.node.Constructor?
    decreases c, |c.node.arguments| + 1
  {
    var args := c.node.arguments;
    (|args| == 1 && args[0].ty.kind == Scalar) || ArgsWellSized(c, 0, f)
  }

  predicate ArgsWellSized(c: Expr, k: nat, f: LeafFacts)
    requires c.node.Constructor? && k <= |c.node.arguments|
    decreases c, |c.node.arguments| - k
  {
    var args := c.node.arguments;
    k == |args| ||
    (var arg := args[k];
     (arg.ty.kind == Scalar ||
      ((arg.node.Constructor? ==> WellSized(arg, f) && |Components(arg, f)| == arg.ty.columns) &&
       (arg.node.Prefix? && arg.node.operand.node.Constructor? ==>
          WellSized(arg.node.operand, f) && |Components(arg.node.operand, f)| == arg.ty.columns))) &&
     ArgsWellSized(c, k + 1, f))
  }

  /**
   * `getVecComponent` reads the flattened component list: on a well-sized constructor,
   * the component at any index inside the list is the list's entry there.
   */
  lemma {:induction false} VecComponentIsComponent(c: Expr, index: int, f: LeafFacts)
    requires c.node.Constructor? && WellSized(c, f)
    requires 0 <= index < |Components(c, f)|
    ensures VecComponent(c, index, f) == Components(c, f)[index]
    decreases c, |c.node.arguments| + 1
  {
    var args := c.node.arguments;
    if !(|args| == 1 && args[0].ty.kind == Scalar) {
      VecWalkIsComponent(c, 0, index, 0, f);
    }
  }

  lemma {:induction false} VecWalkIsComponent(c: Expr, k: nat, index: int, current: int, f: LeafFacts)
    requires c.node.Constructor? && k <= |c.node.arguments| && ArgsWellSized(c, k, f)
    requires current <= index < current + |ComponentsFrom(c, k, f)|
    ensures VecWalk(c, k, index, current, f) == ComponentsFrom(c, k, f)[index - current]
    decreases c, |c.node.arguments| - k
  {
    var args := c.node.arguments;
    var arg := args[k];
    var rest := ComponentsFrom(c, k + 1, f);
    var all := ComponentsFrom(c, k, f);
    var n := |all| - |rest|;
    assert all[n..] == rest;
    if index - current >= n {
      assert all[index - current] == rest[index - (current + n)];
      VecWalkIsComponent(c, k + 1, index, current + n, f);
    } else if arg.ty.kind == Scalar {
    } else if arg.node.Constructor? {
      VecComponentIsComponent(arg, index - current, f);
    } else if arg.node.Prefix? {
      if arg.node.operand.node.Constructor? {
        VecComponentIsComponent(arg.node.operand, index - current, f);
      }
    } else {
      assert all[index - current] == Some(-1.0);
    }
  }

  /**
   * `getMatComponent(col, row)` for a matrix constructor and a cell inside its type. A
   * single scalar sits on the diagonal with 0 elsewhere; a single matrix argument gives
   * its own cell when the cell is inside it and 0 outside; otherwise the cell is the
   * component at `col * rows + row` across the arguments.
   */
  function MatComponent(c: Expr, col: int, row: int, f: LeafFacts): Option<real>
    requires c.node.Constructor? && c.ty.kind == Matrix
    requires 0 <= col < c.ty.columns && 0 <= row < c.ty.rows
    decreases c
  {
    var args := c.node.arguments;
    if |args| == 1 && args[0].ty.kind == Scalar then
      if col == row then f.constantValue(args[0]) else Some(0.0)
    else if |args| == 1 && args[0].ty.kind == Matrix then
      if col < args[0].ty.columns && row < args[0].ty.rows then
        if args[0].node.Constructor? then MatComponent(args[0], col, row, f) else None
      else Some(0.0)
    else MatWalk(c, 0, col * c.ty.rows + row, 0, f)
  }

  /**
   * The walk of `getMatComponent` from argument `k`, whose first component is at `current`:
   * the argument that covers `target` gives its constant value if it has one column and
   * its component at `target - current` otherwise. Running out of arguments aborts.
   */
  function MatWalk(c: Expr, k: nat, target: int, current: int, f: LeafFacts): Option<real>
    requires c.node.Constructor? && k <= |c.node.arguments|
    decreases |c.node.arguments| - k
  {
    var args := c.node.arguments;
    if k == |args| then None
    else
      var arg := args[k];
      if current + arg.ty.columns > target then
        if arg.ty.columns == 1 then f.constantValue(arg)
        else if arg.node.Constructor? then VecComponent(arg, target - current, f)
        else f.vecComponent(arg, target - current)
      else MatWalk(c, k + 1, target, current + arg.ty.columns, f)
  }

  /** `Constructor::getMatComponent` as the loop the source runs. */
  method GetMatComponent(c: Expr, col: int, row: int, f: LeafFacts) returns (r: Option<real>)
    requires c.node.Constructor? && c.ty.kind == Matrix
    requires 0 <= col < c.ty.columns && 0 <= row < c.ty.rows
    ensures r == MatComponent(c, col, row, f)
    decreases c
  {
    var args := c.node.arguments;
    if |args| == 1 {
      var argType := args[0].ty;
      if argType.kind == Scalar {
        return if col == row then f.constantValue(args[0]) else Some(0.0);
      }
      if argType.kind == Matrix {
        if col < argType.columns && row < argType.rows {
          if !args[0].node.Constructor? {
            return None;
          }
          r := GetMatComponent(args[0], col, row, f);
          return;
        }
        return Some(0.0);
      }
    }
    var currentIndex := 0;
    var targetIndex := col * c.ty.rows + row;
    for k := 0 to |args|
      invariant MatWalk(c, k, targetIndex, currentIndex, f) == MatWalk(c, 0, targetIndex, 0, f)
    {
      var arg := args[k];
      if currentIndex + arg.ty.columns > targetIndex {
        if arg.ty.columns == 1 {
          return f.constantValue(arg);
        } else if arg.node.Constructor? {
          r := GetVecComponent(arg, targetIndex - currentIndex, f);
          return;
        } else {
          return f.vecComponent(arg, targetIndex - currentIndex);
        }
      }
      currentIndex := currentIndex + arg.ty.columns;
    }
    return None;
  }

  /**
   * The components of a matrix constructor built from vectors and scalars, flattened in
   * column-major order: one value per single-column argument, and each column of a wider
   * argument.
   */
  function MatPieces(c: Expr, k: nat, f: LeafFacts): seq<Option<real>>
    requires c.node.Constructor? && k <= |c.node.arguments|
    decreases |c.node.arguments| - k
  {
    if k == |c.node.arguments| then [] else MatPiece(c.node.arguments[k], f) + MatPieces(c, k + 1, f)
  }

  /** One argument's share of `MatPieces`. */
  function MatPiece(arg: Expr, f: LeafFacts): (r: seq<Option<real>>)
    ensures arg.ty.columns != 1 && !arg.node.Constructor? ==> |r| == arg.ty.columns
  {
    if arg.ty.columns == 1 then [f.constantValue(arg)]
    else if arg.node.Constructor? then Components(arg, f)
    else seq(arg.ty.columns, j => f.vecComponent(arg, j))
  }

  /** Every wide constructor argument has as many components as columns. */
  predicate MatArgsWellSized(c: Expr, f: LeafFacts)
    requires c.node.Constructor?
  {
    forall k :: 0 <= k < |c.node.arguments| && c.node.arguments[k].ty.columns != 1 &&
                c.node.arguments[k].node.Constructor? ==>
      WellSized(c.node.arguments[k], f) && |Components(c.node.arguments[k], f)| == c.node.arguments[k].ty.columns
  }

  /**
   * Past its two single-argument cases, `getMatComponent` reads cell (col, row) at flat
   * index `col * rows + row` of the column-major component list, and aborts when the
   * arguments hold fewer components than that.
   */
  lemma MatComponentIsFlatIndex(c: Expr, col: int, row: int, f: LeafFacts)
    requires c.node.Constructor? && c.ty.kind == Matrix
    requires 0 <= col < c.ty.columns && 0 <= row < c.ty.rows
    requires !(|c.node.arguments| == 1 && c.node.arguments[0].ty.kind in {Scalar, Matrix})
    requires MatArgsWellSized(c, f)
    ensures var t := col * c.ty.rows + row;
            MatComponent(c, col, row, f) == if t < |MatPieces(c, 0, f)| then MatPieces(c, 0, f)[t] else None
  {
    var t := col * c.ty.rows + row;
    assert 0 <= t by {
      assert 0 <= col * c.ty.rows;
    }
    assert MatComponent(c, col, row, f) == MatWalk(c, 0, t, 0, f);
    MatWalkIsPiece(c, 0, t, 0, f);
  }

  lemma {:induction false} MatWalkIsPiece(c: Expr, k: nat, target: int, current: int, f: LeafFacts)
    requires c.node.Constructor? && k <= |c.node.arguments| && MatArgsWellSized(c, f)
    requires current <= target
    ensures MatWalk(c, k, target, current, f) ==
            if target - current < |MatPieces(c, k, f)| then MatPieces(c, k, f)[target - current] else None
    decreases |c.node.arguments| - k
  {
    var args := c.node.arguments;
    if k < |args| {
      var arg := args[k];
      var piece := MatPiece(arg, f);
      var rest := MatPieces(c, k + 1, f);
      assert MatPieces(c, k, f) == piece + rest;
      var n := |piece|;
      assert arg.ty.columns != 1 && arg.node.Constructor? ==> |Components(arg, f)| == arg.ty.columns;
      assert n == arg.ty.columns;
      if target - current >= n {
        MatWalkIsPiece(c, k + 1, target, current + n, f);
      } else if arg.ty.columns != 1 && arg.node.Constructor? {
        VecComponentIsComponent(arg, target - current, f);
      }
    }
  }

  /** The components of `c` and `o` at `i` are both defined and equal. */
  predicate VecAgree(c: Expr, o: Expr, i: int, f: LeafFacts)
    requires c.node.Constructor? && o.node.Constructor?
  {
    VecComponent(c, i, f).Some? && VecComponent(o, i, f) == VecComponent(c, i, f)
  }

  predicate MatAgree(c: Expr, o: Expr, col: int, row: int, f: LeafFacts)
    requires c.node.Constructor? && c.ty.kind == Matrix && o.node.Constructor? && o.ty == c.ty
    requires 0 <= col < c.ty.columns && 0 <= row < c.ty.rows
  {
    MatComponent(c, col, row, f).Some? && MatComponent(o, col, row, f) == MatComponent(c, col, row, f)
  }

  /** Every cell before (col, row) in column-major order agrees. */
  predicate MatAgreeBefore(c: Expr, o: Expr, col: int, row: int, f: LeafFacts)
    requires c.node.Constructor? && c.ty.kind == Matrix && o.node.Constructor? && o.ty == c.ty
  {
    forall i, j :: 0 <= i < c.ty.columns && 0 <= j < c.ty.rows && (i < col || (i == col && j < row)) ==>
      MatAgree(c, o, i, j, f)
  }

  /**
   * `Constructor::compareConstant` of two constructors of the same vector or matrix type:
   * equal iff every component (every cell of a matrix) is, compared in order. A component
   * without a constant value aborts, which the model returns as `None`.
   */
  method CompareConstant(c: Expr, o: Expr, f: LeafFacts) returns (r: Option<bool>)
    requires c.node.Constructor? && o.node.Constructor? && c.ty == o.ty
    requires c.ty.kind == Vector || c.ty.kind == Matrix
    ensures c.ty.kind == Vector ==>
      (r == Some(true) <==> forall i :: 0 <= i < c.ty.columns ==> VecAgree(c, o, i, f))
    ensures c.ty.kind == Vector && r != Some(true) ==>
      exists i :: 0 <= i < c.ty.columns && !VecAgree(c, o, i, f) &&
                  (forall j :: 0 <= j < i ==> VecAgree(c, o, j, f)) &&
                  (r == None <==> VecComponent(c, i, f).None? || VecComponent(o, i, f).None?)
    ensures c.ty.kind == Matrix ==>
      (r == Some(true) <==> MatAgreeBefore(c, o, c.ty.columns, 0, f))
    ensures c.ty.kind == Matrix && r != Some(true) ==>
      exists i, j :: 0 <= i < c.ty.columns && 0 <= j < c.ty.rows && !MatAgree(c, o, i, j, f) &&
                     MatAgreeBefore(c, o, i, j, f) &&
                     (r == None <==> MatComponent(c, i, j, f).None? || MatComponent(o, i, j, f).None?)
  {
    if c.ty.kind == Vector {
      r := CompareVectors(c, o, f);
    } else {
      r := CompareMatrices(c, o, f);
    }
  }

  method CompareVectors(c: Expr, o: Expr, f: LeafFacts) returns (r: Option<bool>)
    requires c.node.Constructor? && o.node.Constructor?
    ensures r == Some(true) <==> forall i :: 0 <= i < c.ty.columns ==> VecAgree(c, o, i, f)
    ensures r != Some(true) ==>
      exists i :: 0 <= i < c.ty.columns && !VecAgree(c, o, i, f) &&
                  (forall j :: 0 <= j < i ==> VecAgree(c, o, j, f)) &&
                  (r == None <==> VecComponent(c, i, f).None? || VecComponent(o, i, f).None?)
  {
    for i := 0 to c.ty.columns
      invariant forall j :: 0 <= j < i ==> VecAgree(c, o, j, f)
    {
      var mine := GetVecComponent(c, i, f);
      var theirs := GetVecComponent(o, i, f);
      if mine.None? || theirs.None? {
        assert !VecAgree(c, o, i, f);
        return None;
      }
      if mine != theirs {
        assert !VecAgree(c, o, i, f);
        return Some(false);
      }
    }
    return Some(true);
  }

  method CompareMatrices(c: Expr, o: Expr, f: LeafFacts) returns (r: Option<bool>)
    requires c.node.Constructor? && o.node.Constructor? && c.ty == o.ty && c.ty.kind == Matrix
    ensures r == Some(true) <==> MatAgreeBefore(c, o, c.ty.columns, 0, f)
    ensures r != Some(true) ==>
      exists i, j :: 0 <= i < c.ty.columns && 0 <= j < c.ty.rows && !MatAgree(c, o, i, j, f) &&
                     MatAgreeBefore(c, o, i, j, f) &&
                     (r == None <==> MatComponent(c, i, j, f).None? || MatComponent(o, i, j, f).None?)
  {
    for col := 0 to c.ty.columns
      invariant MatAgreeBefore(c, o, col, 0, f)
    {
      for row := 0 to c.ty.rows
        invariant MatAgreeBefore(c, o, col, row, f)
      {
        var mine := GetMatComponent(c, col, row, f);
        var theirs := GetMatComponent(o, col, row, f);
        if mine.None? || theirs.None? {
          assert !MatAgree(c, o, col, row, f);
          return None;
        }
        if mine != theirs {
          assert !MatAgree(c, o, col, row, f);
          return Some(false);
        }
      }
    }
    return Some(true);
  }
}
