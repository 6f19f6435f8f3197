/**
 * The `feTurbulence` filter primitive of SVG 1.1 (section 15.22): its attribute setter and
 * the parsers for `baseFrequency` and `type`.
 *
 * Both parsers drive a cursor over the attribute text. The cursor class of the SVG module is
 * not part of this model; `AttributeParser` below gives its tokens a small grammar:
 *   whitespace  ' ', '\t', '\n' or '\r';
 *   scalar      an optional '+' or '-', decimal digits, and an optional '.' with more digits,
 *               at least one digit in all (no exponent);
 *   integer     an optional '+' or '-' and one or more decimal digits;
 *   separator   a run of whitespace, or else a single ','.
 * A number or integer skips the whitespace before it and the separator after it.
 */
module SvgFeTurbulence {
  import opened Wrappers
  import opened Strings

  predicate IsWsp(c: char) {
    c == ' ' || c == '\t' || c == '\n' || c == '\r'
  }

  /** Where the run of whitespace starting at `i` ends. */
  function SkipWsp(s: string, i: nat): (j: nat)
    requires i <= |s|
    ensures i <= j <= |s| && (j == |s| || !IsWsp(s[j]))
    ensures forall k :: i <= k < j ==> IsWsp(s[k])
    decreases |s| - i
  {
    if i < |s| && IsWsp(s[i]) then SkipWsp(s, i + 1) else i
  }

  /** Where the run of digits starting at `i` ends. */
  function SkipDigits(s: string, i: nat): (j: nat)
    requires i <= |s|
    ensures i <= j <= |s| && (j == |s| || !IsDigit(s[j]))
    ensures forall k :: i <= k < j ==> IsDigit(s[k])
    decreases |s| - i
  {
    if i < |s| && IsDigit(s[i]) then SkipDigits(s, i + 1) else i
  }

  /** Where a separator starting at `i` ends: after a run of whitespace, or else after one ','. */
  function SepEnd(s: string, i: nat): (j: nat)
    requires i <= |s|
    ensures i <= j <= |s|
  {
    if i < |s| && IsWsp(s[i]) then SkipWsp(s, i) else if i < |s| && s[i] == ',' then i + 1 else i
  }

  predicate IsSign(c: char) {
    c == '+' || c == '-'
  }

  /** Where an optional sign at `i` ends. */
  function SignEnd(s: string, i: nat): (j: nat)
    requires i <= |s|
    ensures i <= j <= |s| && (j == i + 1 <==> i < |s| && IsSign(s[i]))
  {
    if i < |s| && IsSign(s[i]) then i + 1 else i
  }

  /** Where the fraction's digits start: after a '.' at `intEnd`, if there is one. */
  function FracStart(s: string, intEnd: nat): (j: nat)
    requires intEnd <= |s|
    ensures intEnd <= j <= |s|
  {
    if intEnd < |s| && s[intEnd] == '.' then intEnd + 1 else intEnd
  }

  /** Where the fraction's digits end. */
  function FracEnd(s: string, intEnd: nat): (j: nat)
    requires intEnd <= |s|
    ensures FracStart(s, intEnd) <= j <= |s|
  {
    if intEnd < |s| && s[intEnd] == '.' then SkipDigits(s, intEnd + 1) else intEnd
  }

  /** The value of the digits after a decimal point. */
  function Fraction(digits: string): (r: real)
    ensures 0.0 <= r
  {
    Pow10Positive(|digits|);
    ParseDecimal(digits) as real / Pow10(|digits|) as real
  }

  /** The value a leading '-' negates. */
  function Signed(s: string, i: nat, start: nat, magnitude: real): real
    requires i <= start <= |s|
  {
    if start > i && s[i] == '-' then -magnitude else magnitude
  }

  /** The scalar token at exactly `i`, with where it ends. */
  function ScalarAt(s: string, i: nat): (r: Option<(real, nat)>)
    requires i <= |s|
    ensures r.Some? ==> i < r.value.1 <= |s|
  {
    var intStart := SignEnd(s, i);
    var intEnd := SkipDigits(s, intStart);
    var fracStart, fracEnd := FracStart(s, intEnd), FracEnd(s, intEnd);
    if intEnd == intStart && fracEnd == fracStart then None
    else
      Some((Signed(s, i, intStart, ParseDecimal(s[intStart..intEnd]) as real + Fraction(s[fracStart..fracEnd])), fracEnd))
  }

  /** The integer token at exactly `i`, with where it ends. */
  function IntegerAt(s: string, i: nat): (r: Option<(int, nat)>)
    requires i <= |s|
    ensures r.Some? ==> i < r.value.1 <= |s|
  {
    var start := SignEnd(s, i);
    var end := SkipDigits(s, start);
    var n: int := ParseDecimal(s[start..end]);
    if end == start then None
    else Some((if start > i && s[i] == '-' then -n else n, end))
  }

  /**
   * `parseNumber` from `i`: whitespace, a scalar, and a separator. On failure the cursor is left
   * after the whitespace.
   */
  function NumberFrom(s: string, i: nat): (r: (Option<real>, nat))
    requires i <= |s|
    ensures i <= r.1 <= |s|
  {
    var j := SkipWsp(s, i);
    match ScalarAt(s, j)
    case None => (None, j)
    case Some((v, k)) => (Some(v), SepEnd(s, k))
  }

  /** `parseInteger` from `i`: whitespace, an integer, and a separator. */
  function IntegerFrom(s: string, i: nat): (r: (Option<int>, nat))
    requires i <= |s|
    ensures i <= r.1 <= |s|
  {
    var j := SkipWsp(s, i);
    match IntegerAt(s, j)
    case None => (None, j)
    case Some((v, k)) => (Some(v), SepEnd(s, k))
  }

  /** The cursor over an attribute's text. */
  class AttributeParser {
    const input: string
    var pos: nat

    predicate Valid()
      reads this`pos
    {
      pos <= |input|
    }

    constructor(input: string)
      ensures this.input == input && pos == 0 && Valid()
    {
      this.input := input;
      pos := 0;
    }

    /** Skips whitespace; true when there was some. */
    method ParseWSToken() returns (advanced: bool)
      requires Valid()
      modifies this`pos
      ensures Valid() && pos == SkipWsp(input, old(pos)) && (advanced <==> pos > old(pos))
    {
      var start := pos;
      while pos < |input| && IsWsp(input[pos])
        invariant start <= pos <= |input| && SkipWsp(input, pos) == SkipWsp(input, start)
        decreases |input| - pos
      {
        pos := pos + 1;
      }
      advanced := pos > start;
    }

    /** Skips a run of digits. */
    method ParseDigits()
      requires Valid()
      modifies this`pos
      ensures Valid() && pos == SkipDigits(input, old(pos))
    {
      ghost var start := pos;
      while pos < |input| && IsDigit(input[pos])
        invariant start <= pos <= |input| && SkipDigits(input, pos) == SkipDigits(input, start)
        decreases |input| - pos
      {
        pos := pos + 1;
      }
    }

    /** Skips a separator; true when there was one. */
    method ParseSepToken() returns (advanced: bool)
      requires Valid()
      modifies this`pos
      ensures Valid() && pos == SepEnd(input, old(pos)) && (advanced <==> pos > old(pos))
    {
      advanced := ParseWSToken();
      if !advanced && pos < |input| && input[pos] == ',' {
        pos := pos + 1;
        advanced := true;
      }
    }

    /** `parseCommaWspToken`: a separator between two numbers. */
    method ParseCommaWspToken() returns (advanced: bool)
      requires Valid()
      modifies this`pos
      ensures Valid() && pos == SepEnd(input, old(pos)) && (advanced <==> pos > old(pos))
    {
      advanced := ParseSepToken();
    }

    /** Consumes `expected` when the text at the cursor starts with it; otherwise the cursor stays. */
    method ParseExpectedStringToken(expected: string) returns (ok: bool)
      requires Valid()
      modifies this`pos
      ensures Valid()
      ensures ok <==> StartsWith(input[old(pos)..], expected)
      ensures pos == if ok then old(pos) + |expected| else old(pos)
    {
      var i := 0;
      while i < |expected| && pos + i < |input| && input[pos + i] == expected[i]
        invariant 0 <= i <= |expected| && pos + i <= |input|
        invariant input[pos..pos + i] == expected[..i]
        decreases |expected| - i
      {
        i := i + 1;
      }
      ok := i == |expected|;
      if ok {
        assert input[pos..][..|expected|] == input[pos..pos + i];
        pos := pos + i;
      } else if |expected| <= |input| - pos {
        assert input[pos..][..|expected|][i] != expected[i];
      }
    }

    /** `parseEOSToken`: true at the end of the text. */
    method ParseEOSToken() returns (eos: bool)
      requires Valid()
      ensures eos <==> pos == |input|
    {
      eos := pos == |input|;
    }

    /** Reads a scalar at the cursor; on failure the cursor stays. */
    method ParseScalarToken() returns (ok: bool, value: real)
      requires Valid()
      modifies this`pos
      ensures Valid()
      ensures ok <==> ScalarAt(input, old(pos)).Some?
      ensures ok ==> (value, pos) == ScalarAt(input, old(pos)).value
      ensures !ok ==> pos == old(pos)
    {
      var start := pos;
      if pos < |input| && IsSign(input[pos]) {
        pos := pos + 1;
      }
      var intStart := pos;
      ParseDigits();
      var intEnd := pos;
      var fracStart, fracEnd := intEnd, intEnd;
      if pos < |input| && input[pos] == '.' {
        pos := pos + 1;
        fracStart := pos;
        ParseDigits();
        fracEnd := pos;
      }
      assert fracStart == FracStart(input, intEnd) && fracEnd == FracEnd(input, intEnd);
      if intEnd == intStart && fracEnd == fracStart {
        pos := start;
        return false, 0.0;
      }
      var magnitude := ParseDecimal(input[intStart..intEnd]) as real + Fraction(input[fracStart..fracEnd]);
      value := Signed(input, start, intStart, magnitude);
      ok := true;
    }

    /** Reads an integer at the cursor; on failure the cursor stays. */
    method ParseIntegerToken() returns (ok: bool, value: int)
      requires Valid()
      modifies this`pos
      ensures Valid()
      ensures ok <==> IntegerAt(input, old(pos)).Some?
      ensures ok ==> (value, pos) == IntegerAt(input, old(pos)).value
      ensures !ok ==> pos == old(pos)
    {
      var start := pos;
      if pos < |input| && IsSign(input[pos]) {
        pos := pos + 1;
      }
      var digitsStart := pos;
      ParseDigits();
      if pos == digitsStart {
        pos := start;
        return false, 0;
      }
      var n: int := ParseDecimal(input[digitsStart..pos]);
      value := if digitsStart > start && input[start] == '-' then -n else n;
      ok := true;
    }

    /** `parseNumber`: whitespace, a scalar, then a separator. */
    method ParseNumber() returns (ok: bool, value: real)
      requires Valid()
      modifies this`pos
      ensures Valid()
      ensures (if ok then Some(value) else None, pos) == NumberFrom(input, old(pos))
    {
      var _ := ParseWSToken();
      ok, value := ParseScalarToken();
      if ok {
        var _ := ParseSepToken();
      }
    }

    /** `parseInteger`: whitespace, an integer, then a separator. */
    method ParseInteger() returns (ok: bool, value: int)
      requires Valid()
      modifies this`pos
      ensures Valid()
      ensures (if ok then Some(value) else None, pos) == IntegerFrom(input, old(pos))
    {
      var _ := ParseWSToken();
      ok, value := ParseIntegerToken();
      if ok {
        var _ := ParseSepToken();
      }
    }
  }

  /** `SkSVGFeTurbulenceBaseFrequency`. */
  datatype BaseFrequency = BaseFrequency(freqX: real, freqY: real)

  /** `SkSVGFeTurbulenceType`. */
  datatype TurbulenceType = FractalNoise | Turbulence

  /**
   * What the `baseFrequency` parser answers for `v`, and what its out-value then holds (`prev`
   * when nothing was written): one number x gives (x, x), two give (x, y); the answer is false
   * when the first number is missing or text is left after the numbers, and in the second case
   * the out-value has been written all the same.
   */
  function BaseFrequencyParse(v: string, prev: BaseFrequency): (bool, BaseFrequency) {
    var (x, i) := NumberFrom(v, 0);
    if x.None? then (false, prev)
    else
      var (y, k) := NumberFrom(v, SepEnd(v, i));
      (k == |v|, if y.Some? then BaseFrequency(x.value, y.value) else BaseFrequency(x.value, x.value))
  }

  /**
   * What the `type` parser answers for `v`: the keyword `fractalNoise` or `turbulence` at the
   * start writes the out-value, and the answer is whether the text ends right after it.
   */
  function TypeParse(v: string, prev: TurbulenceType): (bool, TurbulenceType) {
    if StartsWith(v, "fractalNoise") then (|v| == 12, FractalNoise)
    else if StartsWith(v, "turbulence") then (|v| == 10, Turbulence)
    else (false, prev)
  }

  /** `SkSVGFeTurbulence::parse` for `baseFrequency`; `freq` is the out-value before the call. */
  method ParseBaseFrequency(v: string, freq: BaseFrequency) returns (ok: bool, out: BaseFrequency)
    ensures (ok, out) == BaseFrequencyParse(v, freq)
  {
    var parser := new AttributeParser(v);
    var okX, freqX := parser.ParseNumber();
    if !okX {
      return false, freq;
    }
    var _ := parser.ParseCommaWspToken();
    var okY, freqY := parser.ParseNumber();
    if okY {
      out := BaseFrequency(freqX, freqY);
    } else {
      out := BaseFrequency(freqX, freqX);
    }
    ok := parser.ParseEOSToken();
  }

  /** `SkSVGFeTurbulence::parse` for `type`; `t` is the out-value before the call. */
  method ParseType(v: string, t: TurbulenceType) returns (ok: bool, out: TurbulenceType)
    ensures (ok, out) == TypeParse(v, t)
  {
    var parser := new AttributeParser(v);
    var parsedValue := false;
    out := t;
    var isFractal := parser.ParseExpectedStringToken("fractalNoise");
    if isFractal {
      out := FractalNoise;
      parsedValue := true;
    } else {
      var isTurbulence := parser.ParseExpectedStringToken("turbulence");
      if isTurbulence {
        out := Turbulence;
        parsedValue := true;
      }
    }
    if parsedValue {
      ok := parser.ParseEOSToken();
    } else {
      ok := false;
    }
  }

  /** An integer attribute: an integer and then the end of the text. */
  function IntegerAttribute(v: string): Option<int> {
    var (n, i) := IntegerFrom(v, 0);
    if n.Some? && i == |v| then n else None
  }

  /** A number attribute: a number and then the end of the text. */
  function NumberAttribute(v: string): Option<real> {
    var (x, i) := NumberFrom(v, 0);
    if x.Some? && i == |v| then x else None
  }

  method ParseIntegerAttribute(v: string) returns (r: Option<int>)
    ensures r == IntegerAttribute(v)
  {
    var parser := new AttributeParser(v);
    var ok, n := parser.ParseInteger();
    var eos := parser.ParseEOSToken();
    r := if ok && eos then Some(n) else None;
  }

  method ParseNumberAttribute(v: string) returns (r: Option<real>)
    ensures r == NumberAttribute(v)
  {
    var parser := new AttributeParser(v);
    var ok, x := parser.ParseNumber();
    var eos := parser.ParseEOSToken();
    r := if ok && eos then Some(x) else None;
  }

  // ---------------------------------------------------------------------------------------
  // What the parsers accept.

  lemma {:induction false} SkipDigitsOver(s: string, i: nat, j: nat)
    requires i <= j <= |s|
    requires forall k :: i <= k < j ==> IsDigit(s[k])
    requires j == |s| || !IsDigit(s[j])
    ensures SkipDigits(s, i) == j
    decreases j - i
  {
    if i < j {
      SkipDigitsOver(s, i + 1, j);
    }
  }

  /** A run of digits that nothing after it continues is a scalar with the digits' value. */
  lemma {:induction false} DigitsScalar(s: string, i: nat, j: nat)
    requires i < j <= |s| && forall k :: i <= k < j ==> IsDigit(s[k])
    requires j == |s| || (!IsDigit(s[j]) && s[j] != '.')
    ensures ScalarAt(s, i) == Some((ParseDecimal(s[i..j]) as real, j))
  {
    SkipDigitsOver(s, i, j);
    assert FracEnd(s, j) == FracStart(s, j) == j;
    assert Fraction(s[j..j]) == 0.0 by { assert s[j..j] == []; }
  }

  /** The same run read as a number: no whitespace before it, then the separator after it. */
  lemma {:induction false} DigitsNumber(s: string, i: nat, j: nat, value: nat)
    requires i < j <= |s| && forall k :: i <= k < j ==> IsDigit(s[k])
    requires j == |s| || (!IsDigit(s[j]) && s[j] != '.')
    requires ParseDecimal(s[i..j]) == value
    ensures NumberFrom(s, i) == (Some(value as real), SepEnd(s, j))
  {
    assert SkipWsp(s, i) == i;
    DigitsScalar(s, i, j);
  }

  /** `IntToString(n)` placed in `s` from `i` on is a run of digits with value `n`. */
  lemma {:induction false} NumeralAt(s: string, i: nat, n: nat)
    requires i + |IntToString(n)| <= |s| && s[i..i + |IntToString(n)|] == IntToString(n)
    ensures forall k :: i <= k < i + |IntToString(n)| ==> IsDigit(s[k])
    ensures ParseDecimal(s[i..i + |IntToString(n)|]) == n
  {
    var d := IntToString(n);
    forall k | i <= k < i + |d| ensures IsDigit(s[k]) {
      assert s[k] == d[k - i];
    }
    ParseIntToString(n);
  }

  /** A numeral alone is a base frequency of (n, n). */
  lemma {:induction false} OneNumberFrequency(n: nat, prev: BaseFrequency)
    ensures BaseFrequencyParse(IntToString(n), prev) == (true, BaseFrequency(n as real, n as real))
  {
    var v := IntToString(n);
    assert v[0..|v|] == v;
    NumeralAt(v, 0, n);
    DigitsNumber(v, 0, |v|, n);
  }

  /** A digit run, a space or comma, and a digit: a number and its separator. */
  lemma {:induction false} RunThenSeparator(v: string, a: string, sep: char)
    requires |a| > 0 && forall k :: 0 <= k < |a| ==> IsDigit(a[k])
    requires sep == ' ' || sep == ','
    requires |a| + 1 < |v| && v[..|a| + 1] == a + [sep] && IsDigit(v[|a| + 1])
    ensures NumberFrom(v, 0) == (Some(ParseDecimal(a) as real), |a| + 1)
  {
    assert v[0..|a|] == a by { assert v[0..|a|] == v[..|a| + 1][..|a|]; }
    assert v[|a|] == sep by { assert v[|a|] == v[..|a| + 1][|a|]; }
    forall k | 0 <= k < |a| ensures IsDigit(v[k]) {
      assert v[k] == v[0..|a|][k];
    }
    DigitsNumber(v, 0, |a|, ParseDecimal(a));
    if sep == ' ' {
      assert SkipWsp(v, |a| + 1) == |a| + 1;
    }
  }

  /** A digit run that ends the text: a number that leaves nothing behind. */
  lemma {:induction false} RunAtEnd(v: string, m: nat, b: string)
    requires |b| > 0 && forall k :: 0 <= k < |b| ==> IsDigit(b[k])
    requires m + |b| == |v| && v[m..] == b
    ensures NumberFrom(v, m) == (Some(ParseDecimal(b) as real), |v|)
  {
    assert v[m..m + |b|] == b;
    forall k | m <= k < m + |b| ensures IsDigit(v[k]) {
      assert v[k] == b[k - m];
    }
    DigitsNumber(v, m, m + |b|, ParseDecimal(b));
  }

  /** Two digit runs separated by a space or by a comma are a base frequency of their values. */
  lemma {:induction false} TwoDigitRuns(a: string, sep: char, b: string, prev: BaseFrequency)
    requires |a| > 0 && forall k :: 0 <= k < |a| ==> IsDigit(a[k])
    requires |b| > 0 && forall k :: 0 <= k < |b| ==> IsDigit(b[k])
    requires sep == ' ' || sep == ','
    ensures BaseFrequencyParse(a + [sep] + b, prev) ==
            (true, BaseFrequency(ParseDecimal(a) as real, ParseDecimal(b) as real))
  {
    var w := a + [sep];
    var v := w + b;
    assert v[..|w|] == w && v[|w|..] == b;
    assert v[|w|] == b[0];
    RunThenSeparator(v, a, sep);
    assert SepEnd(v, |w|) == |w|;
    RunAtEnd(v, |w|, b);
  }

  /** Two numerals separated by a space or by a comma are a base frequency of (x, y). */
  lemma {:induction false} TwoNumberFrequency(x: nat, y: nat, sep: char, prev: BaseFrequency)
    requires sep == ' ' || sep == ','
    ensures BaseFrequencyParse(IntToString(x) + [sep] + IntToString(y), prev) ==
            (true, BaseFrequency(x as real, y as real))
  {
    ParseIntToString(x);
    ParseIntToString(y);
    TwoDigitRuns(IntToString(x), sep, IntToString(y), prev);
  }

  /** Text after the numbers fails the parse, but the out-value has already been written. */
  lemma {:induction false} TrailingTextFails(n: nat, prev: BaseFrequency)
    ensures BaseFrequencyParse(IntToString(n) + "x", prev) == (false, BaseFrequency(n as real, n as real))
  {
    var a := IntToString(n);
    var v := a + "x";
    assert v[0..|a|] == a;
    assert v[|a|] == 'x';
    NumeralAt(v, 0, n);
    DigitsNumber(v, 0, |a|, n);
  }

  /** Without a first number nothing is written. */
  lemma {:induction false} MissingNumberFails(v: string, prev: BaseFrequency)
    requires |v| == 0 || 'a' <= v[0] <= 'z'
    ensures BaseFrequencyParse(v, prev) == (false, prev)
  {
    if |v| > 0 {
      assert SkipWsp(v, 0) == 0;
      assert SkipDigits(v, 0) == 0;
    }
  }

  /** `type` accepts exactly the two keywords, each for its own type. */
  lemma {:induction false} TypeParseExact(v: string, prev: TurbulenceType)
    ensures TypeParse(v, prev).0 <==> v == "fractalNoise" || v == "turbulence"
    ensures v == "fractalNoise" ==> TypeParse(v, prev).1 == FractalNoise
    ensures v == "turbulence" ==> TypeParse(v, prev).1 == Turbulence
  {
    if StartsWith(v, "fractalNoise") && |v| == 12 {
      assert v == v[..12];
    } else if StartsWith(v, "turbulence") && |v| == 10 {
      assert v == v[..10];
    }
  }

  /** A successful parse writes a value that does not depend on what the out-value held before. */
  lemma {:induction false} ParsedValueIgnoresPrevious(v: string, a: BaseFrequency, b: BaseFrequency, s: TurbulenceType, t: TurbulenceType)
    ensures BaseFrequencyParse(v, a).0 ==> BaseFrequencyParse(v, a) == BaseFrequencyParse(v, b)
    ensures TypeParse(v, s).0 ==> TypeParse(v, s) == TypeParse(v, t)
  {
  }

  // ---------------------------------------------------------------------------------------
  // The element.

  /** `SkSVGFeTurbulence`'s own attributes. */
  class FeTurbulence {
    var numOctaves: int
    var seed: real
    var baseFrequency: BaseFrequency
    var turbulenceType: TurbulenceType

    /** The initial values SVG 1.1 gives the attributes. */
    constructor()
      ensures numOctaves == 1 && seed == 0.0 && baseFrequency == BaseFrequency(0.0, 0.0)
      ensures turbulenceType == Turbulence
    {
      numOctaves := 1;
      seed := 0.0;
      baseFrequency := BaseFrequency(0.0, 0.0);
      turbulenceType := Turbulence;
    }

    /**
     * `parseAndSetAttribute`: the inherited filter attributes first (`inheritedAccepts` is
     * their answer), then `numOctaves`, `seed`, `baseFrequency` and `type`; the first
     * attribute whose name matches and whose value parses is set, and then the chain stops.
     */
    method ParseAndSetAttribute(name: string, value: string, inheritedAccepts: bool) returns (ok: bool)
      modifies this
      ensures var mine := !inheritedAccepts;
        ok == (inheritedAccepts ||
               (name == "numOctaves" && IntegerAttribute(value).Some?) ||
               (name == "seed" && NumberAttribute(value).Some?) ||
               (name == "baseFrequency" && BaseFrequencyParse(value, BaseFrequency(0.0, 0.0)).0) ||
               (name == "type" && TypeParse(value, Turbulence).0)) &&
        numOctaves == (if mine && name == "numOctaves" && IntegerAttribute(value).Some?
                       then IntegerAttribute(value).value else old(numOctaves)) &&
        seed == (if mine && name == "seed" && NumberAttribute(value).Some?
                 then NumberAttribute(value).value else old(seed)) &&
        baseFrequency == (if mine && name == "baseFrequency" && BaseFrequencyParse(value, BaseFrequency(0.0, 0.0)).0
                          then BaseFrequencyParse(value, BaseFrequency(0.0, 0.0)).1 else old(baseFrequency)) &&
        turbulenceType == (if mine && name == "type" && TypeParse(value, Turbulence).0
                           then TypeParse(value, Turbulence).1 else old(turbulenceType))
    {
      if inheritedAccepts {
        return true;
      }
      if name == "numOctaves" {
        var n := ParseIntegerAttribute(value);
        if n.Some? {
          numOctaves := n.value;
          return true;
        }
      }
      if name == "seed" {
        var x := ParseNumberAttribute(value);
        if x.Some? {
          seed := x.value;
          return true;
        }
      }
      if name == "baseFrequency" {
        var parsed, freq := ParseBaseFrequency(value, BaseFrequency(0.0, 0.0));
        if parsed {
          baseFrequency := freq;
          return true;
        }
      }
      if name == "type" {
        var parsed, t := ParseType(value, Turbulence);
        if parsed {
          turbulenceType := t;
          return true;
        }
      }
      return false;
    }
  }
}
