/**
 * `GrTessellateStrokeOp`: a draw op holding a list of (path, stroke) pairs that are drawn with
 * one tessellation shader. The shader takes a single miter limit, so the op keeps the rule
 * that every stroke with a miter join in its list shares that limit, and it refuses to merge
 * with an op whose limit would clash.
 *
 * Paths are already in device space (the view-matrix transform of the path is not modelled);
 * the paint colour and the processor set are opaque values compared for equality.
 */
module TessellateStrokeOp {
  import opened Wrappers
  import opened StrokeTessellateShader
  import opened StrokePatchBuilder

  /** `GrAAType`. */
  datatype AAType = NoAA | CoverageAA | MSAA

  /** The two stroke styles the op accepts: a hairline, or a stroke of the record's width. */
  datatype StrokeStyle = Hairline | Stroke

  datatype PathStroke = PathStroke(path: seq<PathVerb>, stroke: StrokeRec)

  datatype CombineResult = CannotCombine | Merged

  /**
   * `transform_stroke`: a hairline becomes a stroke of width 1; any other stroke is scaled by
   * the matrix's largest scale factor. Cap, join and miter limit are kept.
   */
  function TransformStroke(maxScale: real, style: StrokeStyle, stroke: StrokeRec): (d: StrokeRec)
    ensures d.cap == stroke.cap && d.join == stroke.join && d.miterLimit == stroke.miterLimit
    ensures style == Hairline ==> d.width == 1.0
    ensures style == Stroke ==> d.width == maxScale * stroke.width
    ensures maxScale > 0.0 && (style == Hairline || stroke.width > 0.0) ==> d.width > 0.0
  {
    var w := if style == Hairline then 1.0 else maxScale * stroke.width;
    stroke.(width := w)
  }

  /**
   * The constructor's rule for the head stroke: a miter join with a non-positive limit is
   * drawn as a bevel join with limit 0; every other stroke is kept.
   */
  function HeadStroke(stroke: StrokeRec): (h: StrokeRec)
    ensures h.width == stroke.width && h.cap == stroke.cap
    ensures h.join == MiterJoin ==> h.miterLimit > 0.0
    ensures h == stroke || (stroke.join == MiterJoin && stroke.miterLimit <= 0.0 &&
                            h.join == BevelJoin && h.miterLimit == 0.0)
  {
    if stroke.join == MiterJoin && stroke.miterLimit <= 0.0 then stroke.(join := BevelJoin, miterLimit := 0.0)
    else stroke
  }

  /** The verbs of all paths, `fTotalCombinedVerbCnt`'s intended value. */
  function TotalVerbs(pathStrokes: seq<PathStroke>): nat {
    if |pathStrokes| == 0 then 0
    else TotalVerbs(pathStrokes[..|pathStrokes| - 1]) + |pathStrokes[|pathStrokes| - 1].path|
  }

  lemma {:induction false} TotalVerbsAppend(a: seq<PathStroke>, b: seq<PathStroke>)
    ensures TotalVerbs(a + b) == TotalVerbs(a) + TotalVerbs(b)
    decreases |b|
  {
    if |b| == 0 {
      assert a + b == a;
    } else {
      assert (a + b)[..|a + b| - 1] == a + b[..|b| - 1];
      TotalVerbsAppend(a, b[..|b| - 1]);
    }
  }

  /** The shader's single miter limit: zero when no stroke has a miter join, else the limit they all share. */
  predicate MiterLimitShared(pathStrokes: seq<PathStroke>, miterLimitOrZero: real) {
    miterLimitOrZero >= 0.0 &&
    forall i :: 0 <= i < |pathStrokes| && pathStrokes[i].stroke.join == MiterJoin ==>
      miterLimitOrZero > 0.0 && pathStrokes[i].stroke.miterLimit == miterLimitOrZero
  }

  /** What the builder is given: each path a well-formed verb list and each stroke of positive width. */
  predicate Drawable(pathStrokes: seq<PathStroke>) {
    forall i :: 0 <= i < |pathStrokes| ==>
      WellFormedPath(pathStrokes[i].path) && pathStrokes[i].stroke.width > 0.0
  }

  /** The refusal test of `onCombineIfPossible`, on the two ops' comparable state. */
  predicate CannotMerge(color: int, aaType: AAType, miterLimitOrZero: real, processors: int,
                        otherColor: int, otherAAType: AAType, otherMiterLimitOrZero: real, otherProcessors: int)
  {
    color != otherColor || aaType != otherAAType ||
    (miterLimitOrZero * otherMiterLimitOrZero != 0.0 && miterLimitOrZero != otherMiterLimitOrZero) ||
    processors != otherProcessors
  }

  /** The merged op's limit: the other op's when it has one, else the receiver's. */
  function MergedMiterLimit(miterLimitOrZero: real, otherMiterLimitOrZero: real): real {
    if otherMiterLimitOrZero != 0.0 then otherMiterLimitOrZero else miterLimitOrZero
  }

  /** Merging two lists that each share a limit, when the limits do not clash, gives one shared limit. */
  lemma {:induction false} MergeKeepsMiterLimitShared(a: seq<PathStroke>, la: real, b: seq<PathStroke>, lb: real)
    requires MiterLimitShared(a, la) && MiterLimitShared(b, lb)
    requires la * lb == 0.0 || la == lb
    ensures MiterLimitShared(a + b, MergedMiterLimit(la, lb))
    ensures MergedMiterLimit(la, lb) == lb || la == 0.0 || MergedMiterLimit(la, lb) == la
  {
    var m := MergedMiterLimit(la, lb);
    forall i | 0 <= i < |a + b| && (a + b)[i].stroke.join == MiterJoin
      ensures m > 0.0 && (a + b)[i].stroke.miterLimit == m
    {
      if i < |a| {
        assert (a + b)[i] == a[i];
        if lb != 0.0 {
          assert la * lb != 0.0;
        }
      } else {
        assert (a + b)[i] == b[i - |a|];
      }
    }
  }

  /**
   * Everything the builder is asked to write for the op's pairs, in list order, one builder
   * carrying its contour state from each path to the next.
   */
  function StrokesOut(c: ContourState, pathStrokes: seq<PathStroke>, o: Curves): Out
    requires ValidCurves(o)
  {
    if |pathStrokes| == 0 then Out(c, [])
    else
      var prev := StrokesOut(c, pathStrokes[..|pathStrokes| - 1], o);
      var ps := pathStrokes[|pathStrokes| - 1];
      var last := PathOut(prev.contour, ps.path, ps.stroke.cap, ps.stroke.join, o, ps.stroke.width / 2.0);
      Out(last.contour, prev.patches + last.patches)
  }

  /** One more pair: its path's output follows the earlier pairs' output, from the contour they leave. */
  lemma {:induction false} StrokesOutStep(c: ContourState, pathStrokes: seq<PathStroke>, i: nat, o: Curves)
    requires ValidCurves(o) && i < |pathStrokes|
    ensures var prev := StrokesOut(c, pathStrokes[..i], o);
      var ps := pathStrokes[i];
      var last := PathOut(prev.contour, ps.path, ps.stroke.cap, ps.stroke.join, o, ps.stroke.width / 2.0);
      StrokesOut(c, pathStrokes[..i + 1], o) == Out(last.contour, prev.patches + last.patches)
  {
    assert pathStrokes[..i + 1][..i] == pathStrokes[..i];
  }

  /** The builder's state after one more pair, as `StrokesOut` of the longer prefix. */
  lemma {:induction false} StrokesOutNext(c: ContourState, pathStrokes: seq<PathStroke>, i: nat, o: Curves,
                       contour: ContourState, requested: seq<Patch>, contour': ContourState, requested': seq<Patch>)
    requires ValidCurves(o) && i < |pathStrokes|
    requires var out := StrokesOut(c, pathStrokes[..i], o);
      contour == out.contour && requested == out.patches
    requires var ps := pathStrokes[i];
      var last := PathOut(contour, ps.path, ps.stroke.cap, ps.stroke.join, o, ps.stroke.width / 2.0);
      contour' == last.contour && requested' == requested + last.patches
    ensures var out := StrokesOut(c, pathStrokes[..i + 1], o);
      contour' == out.contour && requested' == out.patches
  {
    StrokesOutStep(c, pathStrokes, i, o);
  }

  /** The loop of `onPrepare`: every pair's path goes to the builder, in list order. */
  method AddStrokes(b: StrokePatchBuilder, strokes: seq<PathStroke>, o: Curves)
    requires b.Valid() && ValidCurves(o) && Drawable(strokes)
    requires b.contour == StartContour && b.requested == []
    modifies b
    ensures b.Valid()
    ensures var out := StrokesOut(StartContour, strokes, o);
      b.contour == out.contour && b.requested == out.patches
  {
    for i := 0 to |strokes|
      invariant b.Valid()
      invariant var out := StrokesOut(StartContour, strokes[..i], o);
        b.contour == out.contour && b.requested == out.patches
    {
      var ps := strokes[i];
      assert WellFormedPath(ps.path) && ps.stroke.width > 0.0;
      ghost var contour, requested := b.contour, b.requested;
      b.AddPath(ps.path, ps.stroke, o);
      StrokesOutNext(StartContour, strokes, i, o, contour, requested, b.contour, b.requested);
    }
    assert strokes[..|strokes|] == strokes;
  }

  /** Every patch the op asks the builder to write is one the shader can draw. */
  lemma {:induction false} StrokesWellFormed(c: ContourState, pathStrokes: seq<PathStroke>, o: Curves)
    requires ValidCurves(o) && Drawable(pathStrokes)
    ensures AllWellFormed(StrokesOut(c, pathStrokes, o).patches)
    decreases |pathStrokes|
  {
    if |pathStrokes| > 0 {
      var init := pathStrokes[..|pathStrokes| - 1];
      assert Drawable(init) by {
        forall i | 0 <= i < |init| ensures WellFormedPath(init[i].path) && init[i].stroke.width > 0.0 {
          assert init[i] == pathStrokes[i];
        }
      }
      StrokesWellFormed(c, init, o);
      var prev := StrokesOut(c, init, o);
      var ps := pathStrokes[|pathStrokes| - 1];
      PathWellFormed(prev.contour, ps.path, ps.stroke.cap, ps.stroke.join, o, ps.stroke.width / 2.0);
      AllWellFormedConcat(prev.patches,
                          PathOut(prev.contour, ps.path, ps.stroke.cap, ps.stroke.join, o, ps.stroke.width / 2.0).patches);
    }
  }

  class TessellateStrokeOp {
    var pathStrokes: seq<PathStroke>
    var totalCombinedVerbCnt: nat
    var color: int
    const aaType: AAType
    var miterLimitOrZero: real
    var processors: int

    ghost predicate Valid()
      reads this
    {
      |pathStrokes| > 0 && aaType != CoverageAA &&
      totalCombinedVerbCnt == TotalVerbs(pathStrokes) &&
      MiterLimitShared(pathStrokes, miterLimitOrZero) &&
      Drawable(pathStrokes)
    }

    /**
     * The op for one path: the stroke is taken to device space and its miter join fixed up;
     * the op's miter limit is the head stroke's when it has a miter join, else zero.
     */
    constructor(maxScale: real, path: seq<PathVerb>, style: StrokeStyle, stroke: StrokeRec,
                color: int, aaType: AAType, processors: int)
      requires aaType != CoverageAA && maxScale > 0.0
      requires style == Hairline || stroke.width > 0.0
      requires WellFormedPath(path)
      ensures Valid()
      ensures pathStrokes == [PathStroke(path, HeadStroke(TransformStroke(maxScale, style, stroke)))]
      ensures totalCombinedVerbCnt == |path|
      ensures this.color == color && this.aaType == aaType && this.processors == processors
      ensures miterLimitOrZero == if stroke.join == MiterJoin && stroke.miterLimit > 0.0 then stroke.miterLimit else 0.0
    {
      var head := TransformStroke(maxScale, style, stroke);
      var limit := 0.0;
      if head.join == MiterJoin {
        var miter := head.miterLimit;
        if miter <= 0.0 {
          head := head.(join := BevelJoin, miterLimit := 0.0);
        } else {
          limit := miter;
        }
      }
      pathStrokes := [PathStroke(path, head)];
      totalCombinedVerbCnt := |path|;
      this.color := color;
      this.aaType := aaType;
      miterLimitOrZero := limit;
      this.processors := processors;
      new;
      assert TotalVerbs(pathStrokes) == TotalVerbs([]) + |path|;
    }

    /** `fixedFunctionFlags`: hardware antialiasing is used exactly when the op antialiases. */
    method UsesHWAA() returns (usesHWAA: bool)
      ensures usesHWAA <==> aaType != NoAA
    {
      usesHWAA := false;
      if aaType != NoAA {
        usesHWAA := true;
      }
    }

    /**
     * `onCombineIfPossible`: appends the other op's pairs when colour, AA type and processors
     * match and the miter limits do not clash; the merged op still shares one miter limit.
     * The other op's pairs are moved out of it, leaving its list empty.
     */
    method CombineIfPossible(op: TessellateStrokeOp) returns (r: CombineResult)
      requires Valid() && op.Valid() && op != this
      modifies this, op
      ensures Valid()
      ensures r == CannotCombine <==>
        CannotMerge(old(color), aaType, old(miterLimitOrZero), old(processors),
                    old(op.color), op.aaType, old(op.miterLimitOrZero), old(op.processors))
      ensures r == CannotCombine ==>
        pathStrokes == old(pathStrokes) && totalCombinedVerbCnt == old(totalCombinedVerbCnt) &&
        miterLimitOrZero == old(miterLimitOrZero) && op.pathStrokes == old(op.pathStrokes)
      ensures r == Merged ==>
        pathStrokes == old(pathStrokes) + old(op.pathStrokes) &&
        totalCombinedVerbCnt == old(totalCombinedVerbCnt) + old(op.totalCombinedVerbCnt) &&
        miterLimitOrZero == MergedMiterLimit(old(miterLimitOrZero), old(op.miterLimitOrZero)) &&
        (miterLimitOrZero == old(op.miterLimitOrZero) || old(miterLimitOrZero) == 0.0 ||
         miterLimitOrZero == old(miterLimitOrZero)) &&
        op.pathStrokes == []
      ensures color == old(color) && processors == old(processors)
      ensures op.totalCombinedVerbCnt == old(op.totalCombinedVerbCnt) && op.color == old(op.color) &&
        op.miterLimitOrZero == old(op.miterLimitOrZero) && op.processors == old(op.processors)
    {
      if CannotMerge(color, aaType, miterLimitOrZero, processors,
                     op.color, op.aaType, op.miterLimitOrZero, op.processors) {
        return CannotCombine;
      }
      MergeKeepsMiterLimitShared(pathStrokes, miterLimitOrZero, op.pathStrokes, op.miterLimitOrZero);
      TotalVerbsAppend(pathStrokes, op.pathStrokes);
      pathStrokes := pathStrokes + op.pathStrokes;
      if op.miterLimitOrZero != 0.0 {
        miterLimitOrZero := op.miterLimitOrZero;
      }
      totalCombinedVerbCnt := totalCombinedVerbCnt + op.totalCombinedVerbCnt;
      assert Drawable(pathStrokes) by {
        forall i | 0 <= i < |pathStrokes|
          ensures WellFormedPath(pathStrokes[i].path) && pathStrokes[i].stroke.width > 0.0
        {
          if i < |old(pathStrokes)| {
            assert pathStrokes[i] == old(pathStrokes)[i];
          } else {
            assert pathStrokes[i] == op.pathStrokes[i - |old(pathStrokes)|];
          }
        }
      }
      op.pathStrokes := [];
      return Merged;
    }

    /**
     * `onPrepare`: one builder sized for all the op's verbs strokes every pair in list order;
     * everything it is asked to write is a patch the shader can draw.
     */
    method Prepare(allocate: nat -> Option<nat>, o: Curves) returns (b: StrokePatchBuilder)
      requires Valid() && AllocatorOk(allocate) && ValidCurves(o)
      ensures fresh(b) && b.Valid()
      ensures b.requested == StrokesOut(StartContour, pathStrokes, o).patches
      ensures AllWellFormed(b.requested)
    {
      b := new StrokePatchBuilder(allocate, totalCombinedVerbCnt);
      var strokes := pathStrokes;
      AddStrokes(b, strokes, o);
      StrokesWellFormed(StartContour, strokes, o);
    }
  }
}
