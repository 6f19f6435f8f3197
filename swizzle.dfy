/**
 * `GrSwizzle::apply`: appends to a raster pipeline the one stage, if any, that performs a
 * four-channel swizzle. The swizzle is four characters from "rgba01"; the switch is on its
 * key, four bits per channel, which this module proves is one-to-one so that deciding by key
 * is deciding by the characters.
 */
module Swizzle {

  /** The stages `apply` may append; the generic stage's context holds the four swizzle characters. */
  datatype Stage = SwapRB | AlphaToGray | ForceOpaque | SwizzleStage(ctx: seq<char>)

  /** A channel selector: a source channel, or the constant 0 or 1. */
  predicate IsChannel(c: char) {
    c == 'r' || c == 'g' || c == 'b' || c == 'a' || c == '0' || c == '1'
  }

  predicate ValidSwizzle(s: seq<char>) {
    |s| == 4 && forall i :: 0 <= i < 4 ==> IsChannel(s[i])
  }

  /** A channel's four-bit code. */
  function ChannelIndex(c: char): (n: nat)
    requires IsChannel(c)
    ensures n < 6
  {
    match c
    case 'r' => 0
    case 'g' => 1
    case 'b' => 2
    case 'a' => 3
    case '0' => 4
    case '1' => 5
  }

  /** The key: the first channel's code in the lowest four bits, the next in the next four, and so on. */
  function Key(s: seq<char>): nat
    requires forall i :: 0 <= i < |s| ==> IsChannel(s[i])
  {
    if |s| == 0 then 0 else ChannelIndex(s[0]) + 16 * Key(s[1..])
  }

  /** Different channels have different codes. */
  lemma {:induction false} ChannelIndexInjective(c: char, d: char)
    requires IsChannel(c) && IsChannel(d) && ChannelIndex(c) == ChannelIndex(d)
    ensures c == d
  {
  }

  /** Equal keys mean equal swizzles of the same length. */
  lemma {:induction false} KeyInjective(a: seq<char>, b: seq<char>)
    requires forall i :: 0 <= i < |a| ==> IsChannel(a[i])
    requires forall i :: 0 <= i < |b| ==> IsChannel(b[i])
    requires |a| == |b| && Key(a) == Key(b)
    ensures a == b
  {
    if |a| > 0 {
      var ka, kb := Key(a[1..]), Key(b[1..]);
      var ca, cb := ChannelIndex(a[0]), ChannelIndex(b[0]);
      assert (ca + 16 * ka) % 16 == ca && (ca + 16 * ka) / 16 == ka;
      assert (cb + 16 * kb) % 16 == cb && (cb + 16 * kb) / 16 == kb;
      ChannelIndexInjective(a[0], b[0]);
      KeyInjective(a[1..], b[1..]);
      assert a == [a[0]] + a[1..] && b == [b[0]] + b[1..];
    }
  }

  // The keys of the four swizzles with their own case in `apply`.
  const RgbaKey: nat := 0x3210
  const BgraKey: nat := 0x3012
  const Aaa1Key: nat := 0x5333
  const Rgb1Key: nat := 0x5210

  lemma NamedKeys()
    ensures Key("rgba") == RgbaKey && Key("bgra") == BgraKey
    ensures Key("aaa1") == Aaa1Key && Key("rgb1") == Rgb1Key
  {
    assert "rgba"[1..] == "gba" && "gba"[1..] == "ba" && "ba"[1..] == "a" && "a"[1..] == "";
    assert "bgra"[1..] == "gra" && "gra"[1..] == "ra" && "ra"[1..] == "a";
    assert "aaa1"[1..] == "aa1" && "aa1"[1..] == "a1" && "a1"[1..] == "1" && "1"[1..] == "";
    assert "rgb1"[1..] == "gb1" && "gb1"[1..] == "b1" && "b1"[1..] == "1";
  }

  /**
   * The stages `apply` appends for a swizzle: none for the identity "rgba", one dedicated stage
   * for "bgra", "aaa1" and "rgb1", and otherwise the generic swizzle stage.
   */
  function StagesFor(s: seq<char>): (r: seq<Stage>)
    requires ValidSwizzle(s)
    ensures |r| <= 1
    ensures r == [] <==> s == "rgba"
    ensures r == [SwapRB] <==> s == "bgra"
    ensures r == [AlphaToGray] <==> s == "aaa1"
    ensures r == [ForceOpaque] <==> s == "rgb1"
    ensures s != "rgba" && s != "bgra" && s != "aaa1" && s != "rgb1" ==> r == [SwizzleStage(s)]
  {
    NamedKeys();
    var k := Key(s);
    if k == RgbaKey then
      KeyInjective(s, "rgba");
      []
    else if k == BgraKey then
      KeyInjective(s, "bgra");
      [SwapRB]
    else if k == Aaa1Key then
      KeyInjective(s, "aaa1");
      [AlphaToGray]
    else if k == Rgb1Key then
      KeyInjective(s, "rgb1");
      [ForceOpaque]
    else
      [SwizzleStage(s)]
  }

  /** `SkRasterPipeline`, as far as `apply` uses it: a list of stages that only grows at the end. */
  class RasterPipeline {
    var stages: seq<Stage>

    constructor()
      ensures stages == []
    {
      stages := [];
    }

    method Append(stage: Stage)
      modifies this
      ensures stages == old(stages) + [stage]
    {
      stages := stages + [stage];
    }
  }

  /** `apply`: appends at most one stage and leaves the stages already there as they were. */
  method Apply(s: seq<char>, pipeline: RasterPipeline)
    requires ValidSwizzle(s)
    modifies pipeline
    ensures pipeline.stages == old(pipeline.stages) + StagesFor(s)
  {
    var k := Key(s);
    if k == RgbaKey {
    } else if k == BgraKey {
      pipeline.Append(SwapRB);
    } else if k == Aaa1Key {
      pipeline.Append(AlphaToGray);
    } else if k == Rgb1Key {
      pipeline.Append(ForceOpaque);
    } else {
      pipeline.Append(SwizzleStage(s));
    }
  }
}
