/**
 * `GrStrokePatchBuilder`: expands stroked paths into tessellation patches (cubic segments,
 * flat lines, joins and caps) and writes them into chunks of vertex space obtained from the
 * draw target.
 *
 * The floating-point decisions (Wang's formula, the rotation measures, where to chop, the
 * chopping depth bound and the square cap's end point) are an oracle `Curves`; the
 * builder's own bookkeeping is modelled exactly. The draw target's vertex allocator is a
 * function from the minimum patch count to the capacity it hands out, or to a failure.
 */
module StrokePatchBuilder {
  import opened Wrappers
  import opened StrokeTessellateShader

  /** `kDoubleSidedRoundJoinType`, used after a chop so that a turnaround at the chop point is not lost. */
  const DoubleSidedRoundJoinType: int := -RoundJoinType

  datatype QuadPts = QuadPts(p0: Point, p1: Point, p2: Point)

  /** The inner points of a quadratic chopped in two: `[p0, a, mid, b, p2]`. */
  datatype QuadHalves = QuadHalves(a: Point, mid: Point, b: Point)

  /** The inner points of a cubic chopped in two: `[p0, a1, a2, mid, b1, b2, p3]`. */
  datatype CubicHalves = CubicHalves(a1: Point, a2: Point, mid: Point, b1: Point, b2: Point)

  /**
   * The floating-point geometry the builder consults, for the current stroke radius.
   * `quadNeedsChop`: Wang's formula exceeds the 180-degree budget and, with the measured
   * rotation, the hardware's segment count. `cubicQuickAccept`: Wang's formula is within the
   * 360-degree budget. `cubicFits`: parametric plus radial segments fit the hardware.
   * `quadDepth`/`cubicDepth`: the sum of the two `nextlog2`s that bounds further chopping.
   * `cubicInflections`: the inner points of the cubic chopped at its inflections (none, one or
   * two of them). `capPoint(end, control, radius)`: the end point pushed a radius further
   * along the direction from the control point.
   */
  datatype Curves = Curves(
    quadNeedsChop: QuadPts -> bool,
    quadChop: QuadPts -> QuadHalves,
    quadDepth: QuadPts -> nat,
    cubicQuickAccept: Cubic -> bool,
    cubicInflections: Cubic -> seq<Point>,
    cubicFits: Cubic -> bool,
    cubicChop: Cubic -> CubicHalves,
    cubicDepth: Cubic -> nat,
    capPoint: (Point, Point, real) -> Point)

  /** What the geometry guarantees: a chop at n inflections has 3n+2 inner points, and a cap reaches past its end. */
  ghost predicate ValidCurves(o: Curves) {
    (forall p :: |o.cubicInflections(p)| == 0 || |o.cubicInflections(p)| == 5 || |o.cubicInflections(p)| == 8) &&
    (forall e, c, r :: e != c && r > 0.0 ==> o.capPoint(e, c, r) != e)
  }

  datatype Cap = ButtCap | RoundCap | SquareCap
  datatype Join = MiterJoin | RoundJoin | BevelJoin

  /** `SkPathVerb` with the points the verb adds; the iterator's previous point is tracked separately. */
  datatype PathVerb = MoveVerb(pt: Point) | LineVerb(pt: Point) | QuadVerb(ctrl: Point, pt: Point)
                    | CubicVerb(ctrl1: Point, ctrl2: Point, pt: Point) | CloseVerb | ConicVerb(ctrl: Point, pt: Point)

  /** The per-contour state: `fHasPreviousSegment`, the contour's start, its first and last control points and the pen. */
  datatype ContourState = ContourState(hasPreviousSegment: bool, startPoint: Point, firstControlPoint: Point,
                                       lastControlPoint: Point, currentPoint: Point)

  /** The contour state after an operation and the patches it asks to write, in order. */
  datatype Out = Out(contour: ContourState, patches: seq<Patch>)

  function JoinTypeFromJoin(join: Join): (t: int)
    ensures t == BevelJoinType || t == MiterJoinType || t == RoundJoinType
    ensures IsKnownJoinType(t) && !IsDoubleSidedJoin(t)
  {
    match join
    case BevelJoin => BevelJoinType
    case MiterJoin => MiterJoinType
    case RoundJoin => RoundJoinType
  }

  /** Exact linear interpolation; the source's `lerp` is used with T of 1/3 and 2/3 only. */
  function Lerp(a: Point, b: Point, t: real): Point {
    Plus(Times(Minus(b, a), t), a)
  }

  /** The exact cubic form of a quadratic. */
  function QuadToCubic(q: QuadPts): Cubic {
    Cubic(q.p0, Lerp(q.p0, q.p1, 2.0 / 3.0), Lerp(q.p1, q.p2, 1.0 / 3.0), q.p2)
  }

  /** The tangent control point leaving P0. */
  function FirstControl(pts: Cubic): Point {
    if pts.p1 == pts.p0 then pts.p2 else pts.p1
  }

  /** The tangent control point entering P3. */
  function LastControl(pts: Cubic): Point {
    if pts.p2 == pts.p3 then pts.p1 else pts.p2
  }

  function JoinPatch(joinType: int, prevControl: Point, anchor: Point, nextControl: Point, r: real): Patch {
    Patch(Cubic(prevControl, anchor, anchor, nextControl), joinType, r)
  }

  /** `writeCubicSegment`: a join with the previous segment, if any, then the segment itself. */
  function SegmentOut(c: ContourState, prevJoinType: int, pts: Cubic, cubicType: int, r: real): Out {
    var c1 := FirstControl(pts);
    var joins := if c.hasPreviousSegment then [JoinPatch(prevJoinType, c.lastControlPoint, pts.p0, c1, r)] else [];
    var first := if c.hasPreviousSegment then c.firstControlPoint else c1;
    Out(c.(hasPreviousSegment := true, firstControlPoint := first, lastControlPoint := LastControl(pts),
           currentPoint := pts.p3),
        joins + [Patch(pts, cubicType, r)])
  }

  /** `writeSquareCap`: a double-sided join into the cap, then a flat line out to the cap point. */
  function SquareCapPatches(endPoint: Point, controlPoint: Point, joinType: int, o: Curves, r: real): seq<Patch> {
    var capPoint := o.capPoint(endPoint, controlPoint, r);
    [JoinPatch(-joinType, controlPoint, endPoint, capPoint, r),
     Patch(Cubic(endPoint, endPoint, capPoint, capPoint), FlatLineType, r)]
  }

  /** `writeCaps`: a contour with no segment gets horizontal control points around its start. */
  function CapsOut(c: ContourState, cap: Cap, joinType: int, o: Curves, r: real): Out {
    var c1 := if c.hasPreviousSegment then c
              else c.(firstControlPoint := Minus(c.startPoint, Point(1.0, 0.0)),
                      lastControlPoint := Plus(c.startPoint, Point(1.0, 0.0)),
                      currentPoint := c.startPoint);
    var patches :=
      match cap
      case ButtCap => []
      case RoundCap =>
        [JoinPatch(RoundJoinType, c1.firstControlPoint, c1.startPoint, c1.firstControlPoint, r),
         JoinPatch(RoundJoinType, c1.lastControlPoint, c1.currentPoint, c1.lastControlPoint, r)]
      case SquareCap =>
        SquareCapPatches(c1.startPoint, c1.firstControlPoint, joinType, o, r) +
        SquareCapPatches(c1.currentPoint, c1.lastControlPoint, joinType, o, r);
    Out(c1, patches)
  }

  /** `lineTo`: nothing for a zero-length line, otherwise the flat line `[p0, p0, p1, p1]`. */
  function LineOut(c: ContourState, prevJoinType: int, p0: Point, p1: Point, r: real): Out {
    if p0 == p1 then Out(c, [])
    else SegmentOut(c, prevJoinType, Cubic(p0, p0, p1, p1), FlatLineType, r)
  }

  /** `quadraticTo`, with `maxDepth` negative until the first chop fixes a bound. */
  function QuadOut(c: ContourState, prevJoinType: int, q: QuadPts, maxDepth: int, o: Curves, r: real): Out
    decreases if maxDepth < 0 then 1 else 0, if maxDepth < 0 then 0 else maxDepth
  {
    if q.p1 == q.p0 || q.p1 == q.p2 then LineOut(c, prevJoinType, q.p0, q.p2, r)
    else if maxDepth != 0 && o.quadNeedsChop(q) then
      var depth := if maxDepth < 0 then o.quadDepth(q) + 1 else maxDepth;
      var h := o.quadChop(q);
      var first := QuadOut(c, prevJoinType, QuadPts(q.p0, h.a, h.mid), depth - 1, o, r);
      var second := QuadOut(first.contour, DoubleSidedRoundJoinType, QuadPts(h.mid, h.b, q.p2), depth - 1, o, r);
      Out(second.contour, first.patches + second.patches)
    else SegmentOut(c, prevJoinType, QuadToCubic(q), StandardCubicType, r)
  }

  /** The cubic chopped at `inner.len / 3` inflections, as consecutive pieces sharing their end points. */
  function InflectionPieces(p: Cubic, inner: seq<Point>): (pieces: seq<Cubic>)
    requires |inner| % 3 == 2
    ensures |pieces| == |inner| / 3 + 1
    ensures pieces[0].p0 == p.p0 && pieces[|pieces| - 1].p3 == p.p3
    ensures Chained(pieces)
    decreases |inner|
  {
    if |inner| == 2 then [Cubic(p.p0, inner[0], inner[1], p.p3)]
    else [Cubic(p.p0, inner[0], inner[1], inner[2])] + InflectionPieces(Cubic(inner[2], p.p1, p.p2, p.p3), inner[3..])
  }

  /** Each piece starts where the one before it ends. */
  predicate Chained(pieces: seq<Cubic>) {
    |pieces| <= 1 || (pieces[0].p3 == pieces[1].p0 && Chained(pieces[1..]))
  }

  /** `cubicTo`. */
  function CubicOut(c: ContourState, prevJoinType: int, p: Cubic, maxDepth: int, mightInflect: bool,
                    o: Curves, r: real): Out
    requires ValidCurves(o)
    decreases if mightInflect then 1 else 0, if maxDepth < 0 then 1 else 0, if maxDepth < 0 then 0 else maxDepth, 0
  {
    if IllegalCubic(p) then LineOut(c, prevJoinType, p.p0, p.p3, r)
    else if o.cubicQuickAccept(p) || maxDepth == 0 then SegmentOut(c, prevJoinType, p, StandardCubicType, r)
    else if mightInflect && |o.cubicInflections(p)| != 0 then
      CubicPiecesOut(c, prevJoinType, InflectionPieces(p, o.cubicInflections(p)), maxDepth, o, r)
    else if o.cubicFits(p) then SegmentOut(c, prevJoinType, p, StandardCubicType, r)
    else
      var h := o.cubicChop(p);
      var depth := if maxDepth < 0 then o.cubicDepth(p) + 1 else maxDepth;
      var first := CubicOut(c, prevJoinType, Cubic(p.p0, h.a1, h.a2, h.mid), depth - 1, false, o, r);
      var second := CubicOut(first.contour, DoubleSidedRoundJoinType, Cubic(h.mid, h.b1, h.b2, p.p3), depth - 1,
                             false, o, r);
      Out(second.contour, first.patches + second.patches)
  }

  /** The inflection pieces in order; every piece after the first joins with a double-sided round join. */
  function CubicPiecesOut(c: ContourState, prevJoinType: int, pieces: seq<Cubic>, maxDepth: int, o: Curves, r: real): Out
    requires ValidCurves(o)
    decreases 0, 2, 0, |pieces|
  {
    if |pieces| == 0 then Out(c, [])
    else
      var first := CubicOut(c, prevJoinType, pieces[0], maxDepth, false, o, r);
      var rest := CubicPiecesOut(first.contour, DoubleSidedRoundJoinType, pieces[1..], maxDepth, o, r);
      Out(rest.contour, first.patches + rest.patches)
  }

  /** `close`: caps for a contour without segments, otherwise a line back to the start and the closing join. */
  function CloseOut(c: ContourState, cap: Cap, joinType: int, o: Curves, r: real): Out {
    if !c.hasPreviousSegment then CapsOut(c, cap, joinType, o, r)
    else
      var back := LineOut(c, joinType, c.currentPoint, c.startPoint, r);
      Out(back.contour, back.patches + [JoinPatch(joinType, back.contour.lastControlPoint, c.startPoint,
                                                   back.contour.firstControlPoint, r)])
  }

  /** The walk over a path: contour state, the iterator's last point, the previous verb and the patches so far. */
  datatype Walk = Walk(contour: ContourState, last: Point, previousVerb: PathVerb, patches: seq<Patch>)

  /** A subpath is capped when the verb before a move, or before the end, drew something: not a move and not a close. */
  predicate NeedsCaps(previousVerb: PathVerb) {
    !previousVerb.MoveVerb? && !previousVerb.CloseVerb?
  }

  /** One iteration of `addPath`'s loop. */
  function VerbStep(w: Walk, v: PathVerb, cap: Cap, joinType: int, o: Curves, r: real): Walk
    requires ValidCurves(o)
  {
    match v
    case MoveVerb(pt) =>
      var caps := if NeedsCaps(w.previousVerb) then CapsOut(w.contour, cap, joinType, o, r) else Out(w.contour, []);
      Walk(caps.contour.(hasPreviousSegment := false, startPoint := pt), pt, v, w.patches + caps.patches)
    case CloseVerb =>
      var out := CloseOut(w.contour, cap, joinType, o, r);
      Walk(out.contour, w.last, v, w.patches + out.patches)
    case LineVerb(pt) =>
      var out := LineOut(w.contour, joinType, w.last, pt, r);
      Walk(out.contour, pt, v, w.patches + out.patches)
    case QuadVerb(ctrl, pt) =>
      var out := QuadOut(w.contour, joinType, QuadPts(w.last, ctrl, pt), -1, o, r);
      Walk(out.contour, pt, v, w.patches + out.patches)
    case CubicVerb(ctrl1, ctrl2, pt) =>
      var out := CubicOut(w.contour, joinType, Cubic(w.last, ctrl1, ctrl2, pt), -1, true, o, r);
      Walk(out.contour, pt, v, w.patches + out.patches)
    case ConicVerb(_, pt) =>
      // Conics never reach the builder; the source marks this branch unreachable.
      Walk(w.contour, pt, v, w.patches)
  }

  function PathWalk(w0: Walk, verbs: seq<PathVerb>, cap: Cap, joinType: int, o: Curves, r: real): Walk
    requires ValidCurves(o)
    decreases |verbs|
  {
    if |verbs| == 0 then w0
    else VerbStep(PathWalk(w0, verbs[..|verbs| - 1], cap, joinType, o, r), verbs[|verbs| - 1], cap, joinType, o, r)
  }

  /** The walk `addPath` starts from: no previous segment, and the previous verb taken to be a close. */
  function StartWalk(c: ContourState): Walk {
    Walk(c.(hasPreviousSegment := false), c.startPoint, CloseVerb, [])
  }

  /** A step's patches are appended to the walk's: a step may be taken from an empty patch list. */
  lemma {:induction false} VerbStepFrom(w: Walk, v: PathVerb, cap: Cap, joinType: int, o: Curves, r: real)
    requires ValidCurves(o)
    ensures var s := VerbStep(Walk(w.contour, w.last, w.previousVerb, []), v, cap, joinType, o, r);
      VerbStep(w, v, cap, joinType, o, r) == s.(patches := w.patches + s.patches)
  {
  }

  /** Everything `addPath` asks to write for a path, ending with the last subpath's caps. */
  function PathOut(c: ContourState, verbs: seq<PathVerb>, cap: Cap, join: Join, o: Curves, r: real): Out
    requires ValidCurves(o)
  {
    var w := PathWalk(StartWalk(c), verbs, cap, JoinTypeFromJoin(join), o, r);
    var caps := if NeedsCaps(w.previousVerb) then CapsOut(w.contour, cap, JoinTypeFromJoin(join), o, r)
                else Out(w.contour, []);
    Out(caps.contour, w.patches + caps.patches)
  }

  /** A path `addPath` accepts: it starts with a move, has no conics, and draws nothing right after a close. */
  predicate WellFormedPath(verbs: seq<PathVerb>) {
    (|verbs| > 0 ==> verbs[0].MoveVerb?) &&
    (forall i :: 0 <= i < |verbs| ==> !verbs[i].ConicVerb?) &&
    (forall i :: 0 < i < |verbs| && verbs[i - 1].CloseVerb? ==> verbs[i].MoveVerb? || verbs[i].CloseVerb?)
  }

  // ---------------------------------------------------------------------------------------
  // Every patch the builder writes is one the shader can draw.

  predicate AllWellFormed(ps: seq<Patch>) {
    forall i :: 0 <= i < |ps| ==> WellFormed(ps[i])
  }

  /** What the contour state keeps so that later joins and caps have distinct control points. */
  predicate ContourOk(c: ContourState) {
    c.hasPreviousSegment ==> c.lastControlPoint != c.currentPoint && c.firstControlPoint != c.startPoint
  }

  /** A curve may continue the contour: a join has a known type, and a first segment leaves the start. */
  predicate Continues(c: ContourState, p0: Point, prevJoinType: int) {
    (c.hasPreviousSegment ==> IsKnownJoinType(prevJoinType)) && (!c.hasPreviousSegment ==> p0 == c.startPoint)
  }

  /** After drawing up to `end`: the start is kept, and either a segment exists or nothing moved and `end` is the start. */
  predicate Advanced(c: ContourState, out: Out, end: Point) {
    out.contour.startPoint == c.startPoint &&
    (out.contour.hasPreviousSegment || (out.contour == c && out.patches == [] && end == c.startPoint))
  }

  lemma {:induction false} AllWellFormedConcat(a: seq<Patch>, b: seq<Patch>)
    requires AllWellFormed(a) && AllWellFormed(b)
    ensures AllWellFormed(a + b)
  {
    forall i | 0 <= i < |a + b|
      ensures WellFormed((a + b)[i])
    {
      if i < |a| {
        assert (a + b)[i] == a[i];
      } else {
        assert (a + b)[i] == b[i - |a|];
      }
    }
  }

  lemma {:induction false} SegmentWellFormed(c: ContourState, prevJoinType: int, pts: Cubic, cubicType: int, r: real)
    requires ContourOk(c) && Continues(c, pts.p0, prevJoinType)
    requires !IllegalCubic(pts) && (cubicType == StandardCubicType || cubicType == FlatLineType)
    ensures var out := SegmentOut(c, prevJoinType, pts, cubicType, r);
      ContourOk(out.contour) && AllWellFormed(out.patches) && Advanced(c, out, pts.p3)
  {
  }

  lemma {:induction false} LineWellFormed(c: ContourState, prevJoinType: int, p0: Point, p1: Point, r: real)
    requires ContourOk(c) && Continues(c, p0, prevJoinType)
    ensures var out := LineOut(c, prevJoinType, p0, p1, r);
      ContourOk(out.contour) && AllWellFormed(out.patches) && Advanced(c, out, p1)
  {
    if p0 != p1 {
      SegmentWellFormed(c, prevJoinType, Cubic(p0, p0, p1, p1), FlatLineType, r);
    }
  }

  /** The cubic form of a quadratic whose control point is off both ends is a legal cubic. */
  lemma {:induction false} QuadToCubicLegal(q: QuadPts)
    requires q.p1 != q.p0 && q.p1 != q.p2
    ensures !IllegalCubic(QuadToCubic(q))
  {
  }

  lemma {:induction false} QuadWellFormed(c: ContourState, prevJoinType: int, q: QuadPts, maxDepth: int, o: Curves, r: real)
    requires ContourOk(c) && Continues(c, q.p0, prevJoinType)
    ensures var out := QuadOut(c, prevJoinType, q, maxDepth, o, r);
      ContourOk(out.contour) && AllWellFormed(out.patches) && Advanced(c, out, q.p2)
    decreases if maxDepth < 0 then 1 else 0, if maxDepth < 0 then 0 else maxDepth
  {
    if q.p1 == q.p0 || q.p1 == q.p2 {
      LineWellFormed(c, prevJoinType, q.p0, q.p2, r);
    } else if maxDepth != 0 && o.quadNeedsChop(q) {
      var depth := if maxDepth < 0 then o.quadDepth(q) + 1 else maxDepth;
      var h := o.quadChop(q);
      var first := QuadOut(c, prevJoinType, QuadPts(q.p0, h.a, h.mid), depth - 1, o, r);
      QuadWellFormed(c, prevJoinType, QuadPts(q.p0, h.a, h.mid), depth - 1, o, r);
      QuadWellFormed(first.contour, DoubleSidedRoundJoinType, QuadPts(h.mid, h.b, q.p2), depth - 1, o, r);
      var second := QuadOut(first.contour, DoubleSidedRoundJoinType, QuadPts(h.mid, h.b, q.p2), depth - 1, o, r);
      AllWellFormedConcat(first.patches, second.patches);
    } else {
      QuadToCubicLegal(q);
      SegmentWellFormed(c, prevJoinType, QuadToCubic(q), StandardCubicType, r);
    }
  }

  lemma {:induction false} CubicWellFormed(c: ContourState, prevJoinType: int, p: Cubic, maxDepth: int,
                                           mightInflect: bool, o: Curves, r: real)
    requires ValidCurves(o)
    requires ContourOk(c) && Continues(c, p.p0, prevJoinType)
    ensures var out := CubicOut(c, prevJoinType, p, maxDepth, mightInflect, o, r);
      ContourOk(out.contour) && AllWellFormed(out.patches) && Advanced(c, out, p.p3)
    decreases if mightInflect then 1 else 0, if maxDepth < 0 then 1 else 0, if maxDepth < 0 then 0 else maxDepth, 0
  {
    if IllegalCubic(p) {
      LineWellFormed(c, prevJoinType, p.p0, p.p3, r);
    } else if o.cubicQuickAccept(p) || maxDepth == 0 {
      SegmentWellFormed(c, prevJoinType, p, StandardCubicType, r);
    } else if mightInflect && |o.cubicInflections(p)| != 0 {
      var pieces := InflectionPieces(p, o.cubicInflections(p));
      CubicPiecesWellFormed(c, prevJoinType, pieces, maxDepth, o, r);
    } else if o.cubicFits(p) {
      SegmentWellFormed(c, prevJoinType, p, StandardCubicType, r);
    } else {
      var h := o.cubicChop(p);
      var depth := if maxDepth < 0 then o.cubicDepth(p) + 1 else maxDepth;
      var first := CubicOut(c, prevJoinType, Cubic(p.p0, h.a1, h.a2, h.mid), depth - 1, false, o, r);
      CubicWellFormed(c, prevJoinType, Cubic(p.p0, h.a1, h.a2, h.mid), depth - 1, false, o, r);
      CubicWellFormed(first.contour, DoubleSidedRoundJoinType, Cubic(h.mid, h.b1, h.b2, p.p3), depth - 1, false, o, r);
      var second := CubicOut(first.contour, DoubleSidedRoundJoinType, Cubic(h.mid, h.b1, h.b2, p.p3), depth - 1,
                             false, o, r);
      AllWellFormedConcat(first.patches, second.patches);
    }
  }

  lemma {:induction false} CubicPiecesWellFormed(c: ContourState, prevJoinType: int, pieces: seq<Cubic>, maxDepth: int,
                                                 o: Curves, r: real)
    requires ValidCurves(o) && |pieces| > 0 && Chained(pieces)
    requires ContourOk(c) && Continues(c, pieces[0].p0, prevJoinType)
    ensures var out := CubicPiecesOut(c, prevJoinType, pieces, maxDepth, o, r);
      ContourOk(out.contour) && AllWellFormed(out.patches) && Advanced(c, out, pieces[|pieces| - 1].p3)
    decreases 0, 2, 0, |pieces|
  {
    var first := CubicOut(c, prevJoinType, pieces[0], maxDepth, false, o, r);
    CubicWellFormed(c, prevJoinType, pieces[0], maxDepth, false, o, r);
    if |pieces| > 1 {
      CubicPiecesWellFormed(first.contour, DoubleSidedRoundJoinType, pieces[1..], maxDepth, o, r);
      var rest := CubicPiecesOut(first.contour, DoubleSidedRoundJoinType, pieces[1..], maxDepth, o, r);
      AllWellFormedConcat(first.patches, rest.patches);
    } else {
      assert CubicPiecesOut(first.contour, DoubleSidedRoundJoinType, pieces[1..], maxDepth, o, r) == Out(first.contour, []);
      assert first.patches + [] == first.patches;
    }
  }

  lemma {:induction false} CapsWellFormed(c: ContourState, cap: Cap, joinType: int, o: Curves, r: real)
    requires ValidCurves(o) && r > 0.0 && IsKnownJoinType(joinType)
    requires ContourOk(c)
    ensures var out := CapsOut(c, cap, joinType, o, r);
      ContourOk(out.contour) && AllWellFormed(out.patches) &&
      out.contour.startPoint == c.startPoint && out.contour.hasPreviousSegment == c.hasPreviousSegment
  {
    var out := CapsOut(c, cap, joinType, o, r);
    var c1 := out.contour;
    assert c1.firstControlPoint != c1.startPoint && c1.lastControlPoint != c1.currentPoint;
    if cap == SquareCap {
      assert o.capPoint(c1.startPoint, c1.firstControlPoint, r) != c1.startPoint;
      assert o.capPoint(c1.currentPoint, c1.lastControlPoint, r) != c1.currentPoint;
      AllWellFormedConcat(SquareCapPatches(c1.startPoint, c1.firstControlPoint, joinType, o, r),
                          SquareCapPatches(c1.currentPoint, c1.lastControlPoint, joinType, o, r));
    }
  }

  lemma {:induction false} CloseWellFormed(c: ContourState, cap: Cap, joinType: int, o: Curves, r: real)
    requires ValidCurves(o) && r > 0.0 && IsKnownJoinType(joinType)
    requires ContourOk(c)
    ensures var out := CloseOut(c, cap, joinType, o, r);
      ContourOk(out.contour) && AllWellFormed(out.patches) &&
      out.contour.startPoint == c.startPoint && out.contour.hasPreviousSegment == c.hasPreviousSegment
  {
    if !c.hasPreviousSegment {
      CapsWellFormed(c, cap, joinType, o, r);
    } else {
      LineWellFormed(c, joinType, c.currentPoint, c.startPoint, r);
      var back := LineOut(c, joinType, c.currentPoint, c.startPoint, r);
      AllWellFormedConcat(back.patches, [JoinPatch(joinType, back.contour.lastControlPoint, c.startPoint,
                                                   back.contour.firstControlPoint, r)]);
    }
  }

  /** The walk keeps the contour invariant, keeps the iterator at the start until a segment exists, and writes only drawable patches. */
  predicate WalkOk(w: Walk) {
    ContourOk(w.contour) && (!w.contour.hasPreviousSegment ==> w.last == w.contour.startPoint) &&
    AllWellFormed(w.patches)
  }

  lemma {:induction false} VerbStepWellFormed(w: Walk, v: PathVerb, cap: Cap, joinType: int, o: Curves, r: real)
    requires ValidCurves(o) && r > 0.0 && IsKnownJoinType(joinType)
    requires WalkOk(w) && !v.ConicVerb?
    ensures WalkOk(VerbStep(w, v, cap, joinType, o, r))
  {
    match v
    case MoveVerb(pt) =>
      if NeedsCaps(w.previousVerb) {
        CapsWellFormed(w.contour, cap, joinType, o, r);
        AllWellFormedConcat(w.patches, CapsOut(w.contour, cap, joinType, o, r).patches);
      } else {
        assert w.patches + [] == w.patches;
      }
    case CloseVerb =>
      CloseWellFormed(w.contour, cap, joinType, o, r);
      AllWellFormedConcat(w.patches, CloseOut(w.contour, cap, joinType, o, r).patches);
    case LineVerb(pt) =>
      LineWellFormed(w.contour, joinType, w.last, pt, r);
      AllWellFormedConcat(w.patches, LineOut(w.contour, joinType, w.last, pt, r).patches);
    case QuadVerb(ctrl, pt) =>
      QuadWellFormed(w.contour, joinType, QuadPts(w.last, ctrl, pt), -1, o, r);
      AllWellFormedConcat(w.patches, QuadOut(w.contour, joinType, QuadPts(w.last, ctrl, pt), -1, o, r).patches);
    case CubicVerb(ctrl1, ctrl2, pt) =>
      CubicWellFormed(w.contour, joinType, Cubic(w.last, ctrl1, ctrl2, pt), -1, true, o, r);
      AllWellFormedConcat(w.patches, CubicOut(w.contour, joinType, Cubic(w.last, ctrl1, ctrl2, pt), -1, true, o, r).patches);
  }

  lemma {:induction false} PathWalkWellFormed(w0: Walk, verbs: seq<PathVerb>, cap: Cap, joinType: int, o: Curves, r: real)
    requires ValidCurves(o) && r > 0.0 && IsKnownJoinType(joinType)
    requires WalkOk(w0) && forall i :: 0 <= i < |verbs| ==> !verbs[i].ConicVerb?
    ensures WalkOk(PathWalk(w0, verbs, cap, joinType, o, r))
    decreases |verbs|
  {
    if |verbs| > 0 {
      PathWalkWellFormed(w0, verbs[..|verbs| - 1], cap, joinType, o, r);
      VerbStepWellFormed(PathWalk(w0, verbs[..|verbs| - 1], cap, joinType, o, r), verbs[|verbs| - 1], cap, joinType, o, r);
    }
  }

  /** Every patch `addPath` writes for a conic-free path, with a positive stroke width, is one the shader can draw. */
  lemma {:induction false} PathWellFormed(c: ContourState, verbs: seq<PathVerb>, cap: Cap, join: Join, o: Curves, r: real)
    requires ValidCurves(o) && r > 0.0
    requires forall i :: 0 <= i < |verbs| ==> !verbs[i].ConicVerb?
    ensures AllWellFormed(PathOut(c, verbs, cap, join, o, r).patches)
  {
    var joinType := JoinTypeFromJoin(join);
    PathWalkWellFormed(StartWalk(c), verbs, cap, joinType, o, r);
    var w := PathWalk(StartWalk(c), verbs, cap, joinType, o, r);
    if NeedsCaps(w.previousVerb) {
      CapsWellFormed(w.contour, cap, joinType, o, r);
      AllWellFormedConcat(w.patches, CapsOut(w.contour, cap, joinType, o, r).patches);
    } else {
      assert w.patches + [] == w.patches;
    }
  }

  // ---------------------------------------------------------------------------------------
  // Which subpaths are stroked.

  /** A walk over moves alone writes nothing and ends on a move (or on the close it started from). */
  lemma {:induction false} MovesOnlyWalk(w0: Walk, verbs: seq<PathVerb>, cap: Cap, joinType: int, o: Curves, r: real)
    requires ValidCurves(o) && w0.patches == [] && !NeedsCaps(w0.previousVerb)
    requires forall i :: 0 <= i < |verbs| ==> verbs[i].MoveVerb?
    ensures var w := PathWalk(w0, verbs, cap, joinType, o, r); w.patches == [] && !NeedsCaps(w.previousVerb)
    decreases |verbs|
  {
    if |verbs| > 0 {
      MovesOnlyWalk(w0, verbs[..|verbs| - 1], cap, joinType, o, r);
    }
  }

  /** A subpath consisting of a single moveto is not stroked, and neither is a path of moves alone. */
  lemma {:induction false} MovesAreNotStroked(c: ContourState, verbs: seq<PathVerb>, cap: Cap, join: Join, o: Curves, r: real)
    requires ValidCurves(o)
    requires forall i :: 0 <= i < |verbs| ==> verbs[i].MoveVerb?
    ensures PathOut(c, verbs, cap, join, o, r).patches == []
  {
    MovesOnlyWalk(StartWalk(c), verbs, cap, JoinTypeFromJoin(join), o, r);
  }

  /**
   * A zero-length closed subpath is stroked as a circle with round caps: two 180-degree round
   * joins about the point, with horizontal control points.
   */
  lemma {:induction false} ZeroLengthRoundCaps(c: ContourState, p: Point, join: Join, o: Curves, r: real)
    requires ValidCurves(o)
    ensures PathOut(c, [MoveVerb(p), CloseVerb], RoundCap, join, o, r).patches ==
      [JoinPatch(RoundJoinType, Minus(p, Point(1.0, 0.0)), p, Minus(p, Point(1.0, 0.0)), r),
       JoinPatch(RoundJoinType, Plus(p, Point(1.0, 0.0)), p, Plus(p, Point(1.0, 0.0)), r)]
  {
    var joinType := JoinTypeFromJoin(join);
    var verbs := [MoveVerb(p), CloseVerb];
    assert verbs[..1] == [MoveVerb(p)];
    assert verbs[..1][..0] == [];
    assert [MoveVerb(p)][..0] == [];
    assert PathWalk(StartWalk(c), [], RoundCap, joinType, o, r) == StartWalk(c);
    var w1 := PathWalk(StartWalk(c), [MoveVerb(p)], RoundCap, joinType, o, r);
    assert w1.patches == [] && !w1.contour.hasPreviousSegment && w1.contour.startPoint == p;
  }

  /** An open subpath of one zero-length line still gets its caps, at the end of the path or before the next move. */
  lemma {:induction false} ZeroLengthLineCapped(c: ContourState, p: Point, cap: Cap, join: Join, o: Curves, r: real)
    requires ValidCurves(o)
    ensures PathOut(c, [MoveVerb(p), LineVerb(p)], cap, join, o, r).patches ==
      CapsOut(c.(hasPreviousSegment := false, startPoint := p), cap, JoinTypeFromJoin(join), o, r).patches
  {
    var joinType := JoinTypeFromJoin(join);
    var verbs := [MoveVerb(p), LineVerb(p)];
    assert verbs[..1] == [MoveVerb(p)];
    assert verbs[..1][..0] == [];
    assert [MoveVerb(p)][..0] == [];
    assert PathWalk(StartWalk(c), [], cap, joinType, o, r) == StartWalk(c);
    var w1 := PathWalk(StartWalk(c), [MoveVerb(p)], cap, joinType, o, r);
    assert w1.patches == [] && w1.contour == c.(hasPreviousSegment := false, startPoint := p) && w1.last == p;
  }

  // ---------------------------------------------------------------------------------------
  // The builder: chunks of vertex space and the per-contour state, updated in place.

  /** The stroke parameters `addPath` reads; a zero width is a hairline. */
  datatype StrokeRec = StrokeRec(width: real, miterLimit: real, cap: Cap, join: Join)

  /** One block of vertex space from the target and the patches written into it. */
  datatype PatchChunk = PatchChunk(hasBuffer: bool, patches: seq<Patch>)

  /** The patches held by a list of chunks, in order. */
  function Written(chunks: seq<PatchChunk>): seq<Patch>
    decreases |chunks|
  {
    if |chunks| == 0 then [] else Written(chunks[..|chunks| - 1]) + chunks[|chunks| - 1].patches
  }

  /** The requested patches whose reservation succeeded, in order. */
  function Kept(requested: seq<Patch>, outcomes: seq<bool>): seq<Patch>
    requires |outcomes| == |requested|
    decreases |requested|
  {
    if |requested| == 0 then []
    else Kept(requested[..|requested| - 1], outcomes[..|outcomes| - 1]) +
         (if outcomes[|outcomes| - 1] then [requested[|requested| - 1]] else [])
  }

  lemma {:induction false} WrittenPush(chunks: seq<PatchChunk>, chunk: PatchChunk)
    ensures Written(chunks + [chunk]) == Written(chunks) + chunk.patches
  {
    assert (chunks + [chunk])[..|chunks|] == chunks;
  }

  lemma {:induction false} WrittenAppendToLast(chunks: seq<PatchChunk>, p: Patch)
    requires |chunks| > 0
    ensures var n := |chunks| - 1;
      Written(chunks[..n] + [chunks[n].(patches := chunks[n].patches + [p])]) == Written(chunks) + [p]
  {
    var n := |chunks| - 1;
    var front, last := chunks[..n], chunks[n];
    var grown := last.(patches := last.patches + [p]);
    WrittenPush(front, grown);
    assert front + [last] == chunks;
    WrittenPush(front, last);
    AppendAssoc(Written(front), last.patches, [p]);
  }

  lemma {:induction false} AppendAssoc<T>(a: seq<T>, b: seq<T>, c: seq<T>)
    ensures (a + b) + c == a + (b + c)
  {
  }

  lemma {:induction false} KeptAppend(requested: seq<Patch>, outcomes: seq<bool>, p: Patch, ok: bool)
    requires |outcomes| == |requested|
    ensures Kept(requested + [p], outcomes + [ok]) == Kept(requested, outcomes) + (if ok then [p] else [])
  {
    assert (requested + [p])[..|requested|] == requested;
    assert (outcomes + [ok])[..|outcomes|] == outcomes;
  }

  /** When every reservation succeeds the chunks hold exactly the requested patches; when none does, nothing. */
  lemma {:induction false} KeptWhenAllSucceed(requested: seq<Patch>, outcomes: seq<bool>)
    requires |outcomes| == |requested|
    ensures (forall i :: 0 <= i < |outcomes| ==> outcomes[i]) ==> Kept(requested, outcomes) == requested
    ensures (forall i :: 0 <= i < |outcomes| ==> !outcomes[i]) ==> Kept(requested, outcomes) == []
    decreases |requested|
  {
    if |requested| > 0 {
      var n := |requested| - 1;
      KeptWhenAllSucceed(requested[..n], outcomes[..n]);
      assert requested[..n] + [requested[n]] == requested;
    }
  }

  /** The target hands out at least the minimum it is asked for, or nothing. */
  ghost predicate AllocatorOk(allocate: nat -> Option<nat>) {
    forall n :: allocate(n).Some? ==> allocate(n).value >= n
  }

  /** The first chunk's minimum: one stroke in three split (a join each) plus eight caps, for strokes and for joins. */
  function PreallocCount(totalCombinedVerbCnt: nat): (n: nat)
    ensures n >= 16 && n == 2 * (totalCombinedVerbCnt + totalCombinedVerbCnt / 3) + 16
  {
    var strokePreallocCount := totalCombinedVerbCnt * 4 / 3;
    var capPreallocCount := 8;
    var joinPreallocCount := strokePreallocCount + capPreallocCount;
    strokePreallocCount + capPreallocCount + joinPreallocCount
  }

  /**
   * The chunk bookkeeping: the current chunk is the last one and never overfills, a chunk
   * without data has no capacity, and the chunks hold exactly the requested patches that got space.
   */
  ghost predicate ChunksOk(allocate: nat -> Option<nat>, chunks: seq<PatchChunk>, capacity: nat, minCount: nat,
                           hasData: bool, requested: seq<Patch>, outcomes: seq<bool>)
  {
    AllocatorOk(allocate) && |chunks| > 0 && minCount >= 1 &&
    |chunks[|chunks| - 1].patches| <= capacity &&
    chunks[|chunks| - 1].hasBuffer == hasData &&
    (!hasData ==> capacity == 0) &&
    |outcomes| == |requested| && Written(chunks) == Kept(requested, outcomes)
  }

  /**
   * A new builder's contour state: no previous segment. The points are left uninitialised in
   * the builder; they are taken to be the origin here, and no path reads them before a move.
   */
  const StartContour: ContourState := ContourState(false, Point(0.0, 0.0), Point(0.0, 0.0), Point(0.0, 0.0), Point(0.0, 0.0))

  class StrokePatchBuilder {
    /** The target's `makeVertexSpaceAtLeast`: the capacity it grants for a minimum patch count, or a failure. */
    const allocate: nat -> Option<nat>

    var chunks: seq<PatchChunk>
    var currChunkPatchCapacity: nat
    var currChunkMinPatchAllocCount: nat
    var hasCurrChunkData: bool

    var currStrokeRadius: real
    var currStrokeJoinType: int

    /** The contour being iterated: whether it has a segment, its start, its first and last control points, the pen. */
    var contour: ContourState

    /** Every patch the builder has asked to write, and whether vertex space was found for it. */
    ghost var requested: seq<Patch>
    ghost var outcomes: seq<bool>

    ghost predicate Valid()
      reads this`chunks, this`currChunkPatchCapacity, this`currChunkMinPatchAllocCount, this`hasCurrChunkData,
            this`requested, this`outcomes
    {
      ChunksOk(allocate, chunks, currChunkPatchCapacity, currChunkMinPatchAllocCount, hasCurrChunkData, requested, outcomes)
    }

    predicate CurrentChunkFull()
      reads this`chunks, this`currChunkPatchCapacity
    {
      |chunks| > 0 && |chunks[|chunks| - 1].patches| >= currChunkPatchCapacity
    }

    constructor(allocate: nat -> Option<nat>, totalCombinedVerbCnt: nat)
      requires AllocatorOk(allocate)
      ensures Valid() && requested == [] && contour == StartContour
      ensures chunks == [PatchChunk(allocate(PreallocCount(totalCombinedVerbCnt)).Some?, [])]
      ensures currChunkMinPatchAllocCount == PreallocCount(totalCombinedVerbCnt)
    {
      this.allocate := allocate;
      chunks := [];
      currChunkPatchCapacity := 0;
      currChunkMinPatchAllocCount := 1;
      hasCurrChunkData := false;
      currStrokeRadius := 0.0;
      currStrokeJoinType := BevelJoinType;
      contour := StartContour;
      requested := [];
      outcomes := [];
      new;
      AllocPatchChunkAtLeast(PreallocCount(totalCombinedVerbCnt));
      assert chunks == [] + [chunks[0]];
    }

    /** What the destructor puts back to the target: the current chunk's unused capacity. */
    function PutBackCount(): (n: nat)
      reads this`chunks, this`currChunkPatchCapacity, this`currChunkMinPatchAllocCount, this`hasCurrChunkData,
            this`requested, this`outcomes
      requires Valid()
      ensures n + |chunks[|chunks| - 1].patches| == currChunkPatchCapacity
    {
      currChunkPatchCapacity - |chunks[|chunks| - 1].patches|
    }

    method AllocPatchChunkAtLeast(minPatchAllocCount: nat)
      modifies this
      ensures chunks == old(chunks) + [PatchChunk(allocate(minPatchAllocCount).Some?, [])]
      ensures hasCurrChunkData == allocate(minPatchAllocCount).Some?
      ensures currChunkPatchCapacity ==
        (if allocate(minPatchAllocCount).Some? then allocate(minPatchAllocCount).value else 0)
      ensures currChunkMinPatchAllocCount == minPatchAllocCount
      ensures contour == old(contour) && requested == old(requested) && outcomes == old(outcomes)
      ensures currStrokeRadius == old(currStrokeRadius) && currStrokeJoinType == old(currStrokeJoinType)
    {
      var space := allocate(minPatchAllocCount);
      chunks := chunks + [PatchChunk(space.Some?, [])];
      hasCurrChunkData := space.Some?;
      currChunkPatchCapacity := if space.Some? then space.value else 0;
      currChunkMinPatchAllocCount := minPatchAllocCount;
    }

    /** `reservePatch` followed by the caller's write: a full chunk first gets a successor twice its minimum. */
    method ReservePatch(p: Patch) returns (ok: bool)
      requires Valid()
      modifies this
      ensures Valid()
      ensures requested == old(requested) + [p] && outcomes == old(outcomes) + [ok]
      ensures ok == hasCurrChunkData
      ensures old(CurrentChunkFull()) ==>
        |chunks| == old(|chunks|) + 1 && currChunkMinPatchAllocCount == 2 * old(currChunkMinPatchAllocCount)
      ensures !old(CurrentChunkFull()) ==>
        |chunks| == old(|chunks|) && currChunkMinPatchAllocCount == old(currChunkMinPatchAllocCount) && ok
      ensures old(CurrentChunkFull()) ==>
        var granted := allocate(2 * old(currChunkMinPatchAllocCount));
        chunks == old(chunks) + [PatchChunk(granted.Some?, if granted.Some? then [p] else [])] &&
        currChunkPatchCapacity == (if granted.Some? then granted.value else 0)
      ensures !old(CurrentChunkFull()) ==>
        var last := old(chunks[|chunks| - 1]);
        chunks == old(chunks[..|chunks| - 1]) + [last.(patches := last.patches + [p])] &&
        currChunkPatchCapacity == old(currChunkPatchCapacity)
      ensures contour == old(contour)
      ensures currStrokeRadius == old(currStrokeRadius) && currStrokeJoinType == old(currStrokeJoinType)
    {
      if |chunks[|chunks| - 1].patches| >= currChunkPatchCapacity {
        WrittenPush(chunks, PatchChunk(allocate(currChunkMinPatchAllocCount * 2).Some?, []));
        AllocPatchChunkAtLeast(currChunkMinPatchAllocCount * 2);
      }
      KeptAppend(requested, outcomes, p, hasCurrChunkData);
      if !hasCurrChunkData {
        requested := requested + [p];
        outcomes := outcomes + [false];
        return false;
      }
      var n := |chunks| - 1;
      WrittenAppendToLast(chunks, p);
      ghost var before := chunks;
      chunks := chunks[..n] + [chunks[n].(patches := chunks[n].patches + [p])];
      if old(CurrentChunkFull()) {
        assert before == old(chunks) + [before[n]] && before[..n] == old(chunks);
        assert before[n] == PatchChunk(true, []) && before[n].patches + [p] == [p];
        assert chunks == old(chunks) + [PatchChunk(true, [p])];
      }
      requested := requested + [p];
      outcomes := outcomes + [true];
      ok := true;
    }

    method WriteJoin(joinType: int, prevControlPoint: Point, anchorPoint: Point, nextControlPoint: Point)
      requires Valid()
      modifies this
      ensures Valid() && contour == old(contour)
      ensures currStrokeRadius == old(currStrokeRadius) && currStrokeJoinType == old(currStrokeJoinType)
      ensures requested == old(requested) + [JoinPatch(joinType, prevControlPoint, anchorPoint, nextControlPoint,
                                                       currStrokeRadius)]
    {
      var _ := ReservePatch(JoinPatch(joinType, prevControlPoint, anchorPoint, nextControlPoint, currStrokeRadius));
    }

    method WriteCubicSegment(prevJoinType: int, pts: Cubic, cubicType: int)
      requires Valid()
      modifies this
      ensures Valid()
      ensures currStrokeRadius == old(currStrokeRadius) && currStrokeJoinType == old(currStrokeJoinType)
      ensures var out := SegmentOut(old(contour), prevJoinType, pts, cubicType, currStrokeRadius);
        contour == out.contour && requested == old(requested) + out.patches
    {
      var c1 := if pts.p1 == pts.p0 then pts.p2 else pts.p1;
      var c2 := if pts.p2 == pts.p3 then pts.p1 else pts.p2;
      ghost var out := SegmentOut(contour, prevJoinType, pts, cubicType, currStrokeRadius);
      var segment := Patch(pts, cubicType, currStrokeRadius);
      if contour.hasPreviousSegment {
        ghost var join := JoinPatch(prevJoinType, contour.lastControlPoint, pts.p0, c1, currStrokeRadius);
        WriteJoin(prevJoinType, contour.lastControlPoint, pts.p0, c1);
        var _ := ReservePatch(segment);
        AppendAssoc(old(requested), [join], [segment]);
        assert out.patches == [join] + [segment];
      } else {
        contour := contour.(hasPreviousSegment := true, firstControlPoint := c1);
        var _ := ReservePatch(segment);
        assert out.patches == [segment];
      }
      contour := contour.(lastControlPoint := c2, currentPoint := pts.p3);
    }

    method WriteSquareCap(endPoint: Point, controlPoint: Point, o: Curves)
      requires Valid()
      modifies this
      ensures Valid() && contour == old(contour)
      ensures currStrokeRadius == old(currStrokeRadius) && currStrokeJoinType == old(currStrokeJoinType)
      ensures requested == old(requested) +
        SquareCapPatches(endPoint, controlPoint, currStrokeJoinType, o, currStrokeRadius)
    {
      var capPoint := o.capPoint(endPoint, controlPoint, currStrokeRadius);
      WriteJoin(-currStrokeJoinType, controlPoint, endPoint, capPoint);
      var _ := ReservePatch(Patch(Cubic(endPoint, endPoint, capPoint, capPoint), FlatLineType, currStrokeRadius));
      AppendAssoc(old(requested), [JoinPatch(-currStrokeJoinType, controlPoint, endPoint, capPoint, currStrokeRadius)],
                  [Patch(Cubic(endPoint, endPoint, capPoint, capPoint), FlatLineType, currStrokeRadius)]);
    }

    method WriteCaps(cap: Cap, o: Curves)
      requires Valid()
      modifies this
      ensures Valid()
      ensures currStrokeRadius == old(currStrokeRadius) && currStrokeJoinType == old(currStrokeJoinType)
      ensures var out := CapsOut(old(contour), cap, currStrokeJoinType, o, currStrokeRadius);
        contour == out.contour && requested == old(requested) + out.patches
    {
      if !contour.hasPreviousSegment {
        contour := contour.(firstControlPoint := Minus(contour.startPoint, Point(1.0, 0.0)),
                            lastControlPoint := Plus(contour.startPoint, Point(1.0, 0.0)),
                            currentPoint := contour.startPoint);
      }
      match cap
      case ButtCap =>
      case RoundCap =>
        ghost var r0 := requested;
        WriteJoin(RoundJoinType, contour.firstControlPoint, contour.startPoint, contour.firstControlPoint);
        ghost var r1 := requested;
        WriteJoin(RoundJoinType, contour.lastControlPoint, contour.currentPoint, contour.lastControlPoint);
        AppendAssoc(r0, r1[|r0|..], requested[|r1|..]);
      case SquareCap =>
        ghost var r0 := requested;
        WriteSquareCap(contour.startPoint, contour.firstControlPoint, o);
        ghost var r1 := requested;
        WriteSquareCap(contour.currentPoint, contour.lastControlPoint, o);
        AppendAssoc(r0, r1[|r0|..], requested[|r1|..]);
    }

    method MoveTo(pt: Point)
      modifies this
      ensures contour == old(contour).(hasPreviousSegment := false, startPoint := pt)
      ensures chunks == old(chunks) && requested == old(requested) && outcomes == old(outcomes)
      ensures currChunkPatchCapacity == old(currChunkPatchCapacity) && hasCurrChunkData == old(hasCurrChunkData)
      ensures currChunkMinPatchAllocCount == old(currChunkMinPatchAllocCount)
      ensures currStrokeRadius == old(currStrokeRadius) && currStrokeJoinType == old(currStrokeJoinType)
    {
      contour := contour.(hasPreviousSegment := false, startPoint := pt);
    }

    method LineTo(prevJoinType: int, p0: Point, p1: Point)
      requires Valid()
      modifies this
      ensures Valid()
      ensures currStrokeRadius == old(currStrokeRadius) && currStrokeJoinType == old(currStrokeJoinType)
      ensures var out := LineOut(old(contour), prevJoinType, p0, p1, currStrokeRadius);
        contour == out.contour && requested == old(requested) + out.patches
    {
      if p0 == p1 {
        return;
      }
      WriteCubicSegment(prevJoinType, Cubic(p0, p0, p1, p1), FlatLineType);
    }

    method QuadraticTo(prevJoinType: int, q: QuadPts, maxDepth: int, o: Curves)
      requires Valid()
      modifies this
      ensures Valid()
      ensures currStrokeRadius == old(currStrokeRadius) && currStrokeJoinType == old(currStrokeJoinType)
      ensures var out := QuadOut(old(contour), prevJoinType, q, maxDepth, o, currStrokeRadius);
        contour == out.contour && requested == old(requested) + out.patches
      decreases if maxDepth < 0 then 1 else 0, if maxDepth < 0 then 0 else maxDepth, 2
    {
      if q.p1 == q.p0 || q.p1 == q.p2 {
        LineTo(prevJoinType, q.p0, q.p2);
      } else if maxDepth != 0 && o.quadNeedsChop(q) {
        ChopQuadraticTo(prevJoinType, q, maxDepth, o);
      } else {
        WriteCubicSegment(prevJoinType, QuadToCubic(q), StandardCubicType);
      }
    }

    /** A quadratic the hardware cannot tessellate in one patch: chop it in two and draw both halves. */
    method ChopQuadraticTo(prevJoinType: int, q: QuadPts, maxDepth: int, o: Curves)
      requires Valid() && maxDepth != 0
      modifies this
      ensures Valid()
      ensures currStrokeRadius == old(currStrokeRadius) && currStrokeJoinType == old(currStrokeJoinType)
      ensures var h := o.quadChop(q);
        var depth := if maxDepth < 0 then o.quadDepth(q) + 1 else maxDepth;
        var first := QuadOut(old(contour), prevJoinType, QuadPts(q.p0, h.a, h.mid), depth - 1, o, currStrokeRadius);
        var second := QuadOut(first.contour, DoubleSidedRoundJoinType, QuadPts(h.mid, h.b, q.p2), depth - 1, o,
                              currStrokeRadius);
        contour == second.contour && requested == old(requested) + (first.patches + second.patches)
      decreases if maxDepth < 0 then 1 else 0, if maxDepth < 0 then 0 else maxDepth, 1
    {
      var depth := maxDepth;
      if depth < 0 {
        depth := o.quadDepth(q) + 1;
      }
      var h := o.quadChop(q);
      ghost var r0 := requested;
      QuadraticTo(prevJoinType, QuadPts(q.p0, h.a, h.mid), depth - 1, o);
      ghost var r1 := requested;
      QuadraticTo(DoubleSidedRoundJoinType, QuadPts(h.mid, h.b, q.p2), depth - 1, o);
      AppendAssoc(r0, r1[|r0|..], requested[|r1|..]);
    }

    method CubicTo(prevJoinType: int, p: Cubic, maxDepth: int, mightInflect: bool, o: Curves)
      requires Valid() && ValidCurves(o)
      modifies this
      ensures Valid()
      ensures currStrokeRadius == old(currStrokeRadius) && currStrokeJoinType == old(currStrokeJoinType)
      ensures var out := CubicOut(old(contour), prevJoinType, p, maxDepth, mightInflect, o, currStrokeRadius);
        contour == out.contour && requested == old(requested) + out.patches
      decreases if mightInflect then 1 else 0, if maxDepth < 0 then 1 else 0, if maxDepth < 0 then 0 else maxDepth, 2
    {
      if IllegalCubic(p) {
        LineTo(prevJoinType, p.p0, p.p3);
      } else if o.cubicQuickAccept(p) || maxDepth == 0 {
        WriteCubicSegment(prevJoinType, p, StandardCubicType);
      } else if mightInflect && |o.cubicInflections(p)| != 0 {
        CubicPiecesTo(prevJoinType, InflectionPieces(p, o.cubicInflections(p)), maxDepth, o);
      } else if o.cubicFits(p) {
        WriteCubicSegment(prevJoinType, p, StandardCubicType);
      } else {
        ChopCubicTo(prevJoinType, p, maxDepth, o);
      }
    }

    /** A cubic the hardware cannot tessellate in one patch: chop it in two and draw both halves. */
    method ChopCubicTo(prevJoinType: int, p: Cubic, maxDepth: int, o: Curves)
      requires Valid() && ValidCurves(o) && maxDepth != 0
      modifies this
      ensures Valid()
      ensures currStrokeRadius == old(currStrokeRadius) && currStrokeJoinType == old(currStrokeJoinType)
      ensures var h := o.cubicChop(p);
        var depth := if maxDepth < 0 then o.cubicDepth(p) + 1 else maxDepth;
        var first := CubicOut(old(contour), prevJoinType, Cubic(p.p0, h.a1, h.a2, h.mid), depth - 1, false, o, currStrokeRadius);
        var second := CubicOut(first.contour, DoubleSidedRoundJoinType, Cubic(h.mid, h.b1, h.b2, p.p3), depth - 1, false, o, currStrokeRadius);
        contour == second.contour && requested == old(requested) + (first.patches + second.patches)
      decreases 0, if maxDepth < 0 then 1 else 0, if maxDepth < 0 then 0 else maxDepth, 1
    {
      var h := o.cubicChop(p);
      var depth := maxDepth;
      if depth < 0 {
        depth := o.cubicDepth(p) + 1;
      }
      ghost var r0 := requested;
      CubicTo(prevJoinType, Cubic(p.p0, h.a1, h.a2, h.mid), depth - 1, false, o);
      ghost var r1 := requested;
      CubicTo(DoubleSidedRoundJoinType, Cubic(h.mid, h.b1, h.b2, p.p3), depth - 1, false, o);
      AppendAssoc(r0, r1[|r0|..], requested[|r1|..]);
    }

    /** The loop over the pieces of a cubic chopped at its inflections. */
    method CubicPiecesTo(prevJoinType: int, pieces: seq<Cubic>, maxDepth: int, o: Curves)
      requires Valid() && ValidCurves(o)
      modifies this
      ensures Valid()
      ensures currStrokeRadius == old(currStrokeRadius) && currStrokeJoinType == old(currStrokeJoinType)
      ensures var out := CubicPiecesOut(old(contour), prevJoinType, pieces, maxDepth, o, currStrokeRadius);
        contour == out.contour && requested == old(requested) + out.patches
      decreases 0, 2, 0, |pieces|
    {
      ghost var whole := CubicPiecesOut(contour, prevJoinType, pieces, maxDepth, o, currStrokeRadius);
      var joinType := prevJoinType;
      for i := 0 to |pieces|
        invariant Valid()
        invariant currStrokeRadius == old(currStrokeRadius) && currStrokeJoinType == old(currStrokeJoinType)
        invariant joinType == if i == 0 then prevJoinType else DoubleSidedRoundJoinType
        invariant var rest := CubicPiecesOut(contour, joinType, pieces[i..], maxDepth, o, currStrokeRadius);
          rest.contour == whole.contour && requested + rest.patches == old(requested) + whole.patches
      {
        assert pieces[i..][1..] == pieces[i + 1..];
        ghost var rest := CubicPiecesOut(contour, joinType, pieces[i..], maxDepth, o, currStrokeRadius);
        ghost var piece := CubicOut(contour, joinType, pieces[i], maxDepth, false, o, currStrokeRadius);
        ghost var before := requested;
        CubicTo(joinType, pieces[i], maxDepth, false, o);
        joinType := DoubleSidedRoundJoinType;
        ghost var after := CubicPiecesOut(contour, joinType, pieces[i + 1..], maxDepth, o, currStrokeRadius);
        assert rest.patches == piece.patches + after.patches;
        AppendAssoc(before, piece.patches, after.patches);
      }
      assert pieces[|pieces|..] == [];
    }

    method Close(cap: Cap, o: Curves)
      requires Valid()
      modifies this
      ensures Valid()
      ensures currStrokeRadius == old(currStrokeRadius) && currStrokeJoinType == old(currStrokeJoinType)
      ensures var out := CloseOut(old(contour), cap, currStrokeJoinType, o, currStrokeRadius);
        contour == out.contour && requested == old(requested) + out.patches
    {
      if !contour.hasPreviousSegment {
        WriteCaps(cap, o);
        return;
      }
      ghost var r0 := requested;
      LineTo(currStrokeJoinType, contour.currentPoint, contour.startPoint);
      ghost var r1 := requested;
      WriteJoin(currStrokeJoinType, contour.lastControlPoint, contour.startPoint, contour.firstControlPoint);
      AppendAssoc(r0, r1[|r0|..], requested[|r1|..]);
    }

    /** One iteration of `addPath`'s loop: the switch on the verb. */
    method AddVerb(v: PathVerb, last: Point, previousVerb: PathVerb, cap: Cap, o: Curves) returns (newLast: Point)
      requires Valid() && ValidCurves(o) && !v.ConicVerb?
      modifies this
      ensures Valid()
      ensures currStrokeRadius == old(currStrokeRadius) && currStrokeJoinType == old(currStrokeJoinType)
      ensures var s := VerbStep(Walk(old(contour), last, previousVerb, []), v, cap, currStrokeJoinType, o, currStrokeRadius);
        contour == s.contour && newLast == s.last && requested == old(requested) + s.patches
    {
      ghost var r, joinType := currStrokeRadius, currStrokeJoinType;
      ghost var c := contour;
      match v
      case MoveVerb(pt) =>
        if NeedsCaps(previousVerb) {
          WriteCaps(cap, o);
          assert [] + CapsOut(c, cap, joinType, o, r).patches == CapsOut(c, cap, joinType, o, r).patches;
        }
        MoveTo(pt);
        newLast := pt;
      case CloseVerb =>
        Close(cap, o);
        assert [] + CloseOut(c, cap, joinType, o, r).patches == CloseOut(c, cap, joinType, o, r).patches;
        newLast := last;
      case LineVerb(pt) =>
        LineTo(currStrokeJoinType, last, pt);
        assert [] + LineOut(c, joinType, last, pt, r).patches == LineOut(c, joinType, last, pt, r).patches;
        newLast := pt;
      case QuadVerb(ctrl, pt) =>
        QuadraticTo(currStrokeJoinType, QuadPts(last, ctrl, pt), -1, o);
        assert [] + QuadOut(c, joinType, QuadPts(last, ctrl, pt), -1, o, r).patches
            == QuadOut(c, joinType, QuadPts(last, ctrl, pt), -1, o, r).patches;
        newLast := pt;
      case CubicVerb(ctrl1, ctrl2, pt) =>
        CubicTo(currStrokeJoinType, Cubic(last, ctrl1, ctrl2, pt), -1, true, o);
        assert [] + CubicOut(c, joinType, Cubic(last, ctrl1, ctrl2, pt), -1, true, o, r).patches
            == CubicOut(c, joinType, Cubic(last, ctrl1, ctrl2, pt), -1, true, o, r).patches;
        newLast := pt;
    }

    /** The loop of `addPath` over the verbs, from a contour with no previous segment. */
    method AddVerbs(verbs: seq<PathVerb>, cap: Cap, o: Curves) returns (last: Point, previousVerb: PathVerb)
      requires Valid() && ValidCurves(o) && !contour.hasPreviousSegment
      requires forall i :: 0 <= i < |verbs| ==> !verbs[i].ConicVerb?
      modifies this
      ensures Valid()
      ensures currStrokeRadius == old(currStrokeRadius) && currStrokeJoinType == old(currStrokeJoinType)
      ensures var w := PathWalk(StartWalk(old(contour)), verbs, cap, currStrokeJoinType, o, currStrokeRadius);
        contour == w.contour && last == w.last && previousVerb == w.previousVerb &&
        requested == old(requested) + w.patches
    {
      previousVerb := CloseVerb;
      last := contour.startPoint;
      ghost var w0 := StartWalk(contour);
      ghost var r, joinType := currStrokeRadius, currStrokeJoinType;
      for i := 0 to |verbs|
        invariant Valid()
        invariant currStrokeRadius == r && currStrokeJoinType == joinType
        invariant var w := PathWalk(w0, verbs[..i], cap, joinType, o, r);
          contour == w.contour && last == w.last && previousVerb == w.previousVerb &&
          requested == old(requested) + w.patches
      {
        assert verbs[..i + 1][..i] == verbs[..i];
        ghost var w := PathWalk(w0, verbs[..i], cap, joinType, o, r);
        last := AddVerb(verbs[i], last, previousVerb, cap, o);
        previousVerb := verbs[i];
        ghost var s := VerbStep(Walk(w.contour, w.last, w.previousVerb, []), verbs[i], cap, joinType, o, r);
        VerbStepFrom(w, verbs[i], cap, joinType, o, r);
        AppendAssoc(old(requested), w.patches, s.patches);
      }
      assert verbs[..|verbs|] == verbs;
    }

    /** `addPath`: strokes one path, capping each open subpath that drew something. */
    method AddPath(verbs: seq<PathVerb>, stroke: StrokeRec, o: Curves)
      requires Valid() && ValidCurves(o) && stroke.width > 0.0 && WellFormedPath(verbs)
      modifies this
      ensures Valid()
      ensures currStrokeRadius == stroke.width / 2.0 && currStrokeJoinType == JoinTypeFromJoin(stroke.join)
      ensures var out := PathOut(old(contour), verbs, stroke.cap, stroke.join, o, stroke.width / 2.0);
        contour == out.contour && requested == old(requested) + out.patches
      ensures |requested| >= |old(requested)| && AllWellFormed(requested[|old(requested)|..])
    {
      currStrokeRadius := stroke.width / 2.0;
      currStrokeJoinType := JoinTypeFromJoin(stroke.join);
      contour := contour.(hasPreviousSegment := false);
      ghost var w0 := StartWalk(old(contour));
      ghost var r, joinType := currStrokeRadius, currStrokeJoinType;
      var last, previousVerb := AddVerbs(verbs, stroke.cap, o);
      ghost var w := PathWalk(w0, verbs, stroke.cap, joinType, o, r);
      if NeedsCaps(previousVerb) {
        WriteCaps(stroke.cap, o);
        AppendAssoc(old(requested), w.patches, CapsOut(w.contour, stroke.cap, joinType, o, r).patches);
      } else {
        assert w.patches + [] == w.patches;
      }
      PathWellFormed(old(contour), verbs, stroke.cap, stroke.join, o, r);
      assert requested[|old(requested)|..] == PathOut(old(contour), verbs, stroke.cap, stroke.join, o, r).patches;
    }
  }
}
