/**
 * The vertex record of the stroke tessellation shader (`GrStrokeTessellateShader::Patch`):
 * four points, a patch type and a stroke radius. Coordinates and radii are exact reals; the
 * shader itself (GLSL generation and the geometry it evaluates) is not part of this model.
 */
module StrokeTessellateShader {

  datatype Point = Point(x: real, y: real)

  function Plus(a: Point, b: Point): Point {
    Point(a.x + b.x, a.y + b.y)
  }

  function Minus(a: Point, b: Point): Point {
    Point(a.x - b.x, a.y - b.y)
  }

  function Times(a: Point, t: real): Point {
    Point(a.x * t, a.y * t)
  }

  /** Four points: a cubic's control polygon, or a join's incoming control, junction, junction, outgoing control. */
  datatype Cubic = Cubic(p0: Point, p1: Point, p2: Point, p3: Point)

  datatype Patch = Patch(pts: Cubic, patchType: int, strokeRadius: real)

  // The patch type codes. They are floats in the shader's vertex layout; only these
  // integral values, and the negated join codes, are ever written.
  const StandardCubicType: int := 0
  const FlatLineType: int := 1
  const BevelJoinType: int := 2
  const MiterJoinType: int := 3
  const RoundJoinType: int := 4

  /** An absolute type code of 2 or more makes a patch a join. */
  predicate IsJoinType(t: int) {
    t >= 2 || t <= -2
  }

  /** A positive join code draws the join on the outer side only; a negative one on both sides. */
  predicate IsDoubleSidedJoin(t: int) {
    t <= -2
  }

  /** The join codes the builder may write: bevel, miter or round, either sign. */
  predicate IsKnownJoinType(t: int) {
    t == BevelJoinType || t == MiterJoinType || t == RoundJoinType ||
    t == -BevelJoinType || t == -MiterJoinType || t == -RoundJoinType
  }

  /** The shader cannot draw a cubic whose P1 and P2 both sit on P0, or both on P3. */
  predicate IllegalCubic(c: Cubic) {
    c.p1 == c.p2 && (c.p1 == c.p0 || c.p1 == c.p3)
  }

  /** The points a join must carry: the junction twice, between the two control points. */
  predicate JoinShaped(c: Cubic) {
    c.p1 == c.p2
  }

  /** What the shader accepts: a legal cubic or flat line, or a known join with the join point layout. */
  predicate WellFormed(p: Patch) {
    if p.patchType == StandardCubicType || p.patchType == FlatLineType then !IllegalCubic(p.pts)
    else IsKnownJoinType(p.patchType) && JoinShaped(p.pts)
  }

  /** The codes split into cubics, flat lines and joins, and each join is one-sided or double-sided. */
  lemma {:induction false} PatchTypeCodes(t: int)
    ensures IsKnownJoinType(t) ==> IsJoinType(t)
    ensures IsJoinType(t) <==> t != StandardCubicType && t != FlatLineType && t != -1
    ensures IsJoinType(t) ==> (IsDoubleSidedJoin(t) <==> t < 0)
    ensures !IsJoinType(StandardCubicType) && !IsJoinType(FlatLineType)
  {
  }

  /** `[P0, P0, P3, P3]`, the form an illegal cubic is sent in instead, is legal unless P0 and P3 meet. */
  lemma {:induction false} FlatFormIsLegal(p0: Point, p3: Point)
    ensures !IllegalCubic(Cubic(p0, p0, p3, p3)) <==> p0 != p3
  {
  }
}
