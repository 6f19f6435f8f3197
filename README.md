# A verified model of Skia's build helpers, SkSL inliner and stroke tessellation bookkeeping

This project models in Dafny several independent, sequential pieces of the Skia graphics
library and proves properties of them:

- **Android build translation** (`gn_to_bp.dfy`): the helpers of `gn/gn_to_bp_utils.py`.
  They cover the transitive dependency walk that gathers attribute values, the cleanup of
  C and C++ flag sets, the `$_src` substitution in per-architecture source lists, and the
  lines of the generated `SkUserConfig.h`.
- **SkSL intermediate representation** (`sksl_ir.dfy`, `sksl_expressions.dfy`,
  `sksl_binary_expression.dfy`, `sksl_constructor.dfy`, `sksl_variable_reference.dfy`,
  `sksl_var_declarations.dfy`):
  - the expression and statement trees;
  - the virtual queries of expressions;
  - assignment checks;
  - constant folding and component lookup of constructors;
  - the read and write counts variable references keep;
  - declaration text and clones.
- **SkSL analysis** (`sksl_analysis.dfy`): the default `ProgramVisitor` traversal, node
  counting, variable-write and builtin-reference questions, and sample-usage merging.
- **SkSL inliner** (`sksl_inliner.dfy`):
  - return counting and early-return detection;
  - the safe-to-inline decision;
  - the rewrite of `return`;
  - unique names for inlined variables;
  - the layout of an inlined call;
  - block scoping;
  - candidate discovery and selection in `analyze`.
- **Stroke tessellation** (`stroke_tessellate_shader.dfy`, `stroke_patch_builder.dfy`,
  `tessellate_stroke_op.dfy`):
  - the patch record;
  - the state machine that turns path verbs into cubic, join and cap patches written into
    chunks that grow;
  - the miter-limit rule of the stroke op.
- **Keyed view cache** (`view_cache.dfy`): first-add-wins insertion, lookup, dropping all
  entries, and entry recycling through a free list.
- **Small decision tables and parsers** (`swizzle.dfy`, `svg_fe_turbulence.dfy`):
  `GrSwizzle::apply`, and the `feTurbulence` attribute parsers of SVG 1.1, section 15.22.

`wrappers.dfy` and `strings.dfy` hold shared helpers: `Option` and `Result`, and the Python
and C++ string operations the model needs.

Code that recurses over values is written as datatypes, functions and lemmas. Where the
source changes state step by step, the model does too:
- the counting and merging visitors, the inliner, the candidate analyzer, the patch builder,
  the stroke op and the view cache are classes whose methods update fields;
- the loops of the source are `for` and `while` loops with invariants;
- each method is proved against a function of the inputs or the old state, and the
  properties of that function are proved as lemmas.

Where the documented behaviour and the code disagree, the model follows the code.
- With only the defines `FOO`, `BAR=1` and `NDEBUG`, `WriteUserConfig` raises `KeyError`
  because `SKIA_IMPLEMENTATION=1` is missing, and the model raises that error too (`GnToBp.WriteUserConfig`). The lines it would print for
  `FOO` and `BAR=1` are stated separately (`GnToBp.HeaderExample`).
- The header lines of `WriteUserConfig` replace only the first `=` of a define with a
  space. The text before the first `=` names the guard.

## Model

| member | source | states |
|---|---|---|
| Swizzle.ChannelIndex | src/gpu/GrSwizzle.cpp:13-24 | each of the six channel selectors has a code below 6, which fits in the key's four bits |
| Swizzle.KeyInjective | src/gpu/GrSwizzle.cpp:13-24 | two swizzles of the same length with equal keys are the same swizzle, so switching on `fKey` decides by the four characters |
| Swizzle.NamedKeys | src/gpu/GrSwizzle.cpp:14-22 | the keys of the case labels "rgba", "bgra", "aaa1" and "rgb1" are 0x3210, 0x3012, 0x5333 and 0x5210 |
| Swizzle.StagesFor | src/gpu/GrSwizzle.cpp:13-34 | at most one stage; none exactly for "rgba", `swap_rb` exactly for "bgra", `alpha_to_gray` exactly for "aaa1", `force_opaque` exactly for "rgb1", and for any other swizzle the generic stage whose context is the four characters |
| Swizzle.RasterPipeline.Append | src/gpu/GrSwizzle.cpp:17 | a stage is added after the stages already in the pipeline |
| Swizzle.Apply | src/gpu/GrSwizzle.cpp:11-35 | the pipeline afterwards is the pipeline before followed by `StagesFor` of the swizzle |
| ViewCache.SameViews | src/gpu/GrThreadSafeUniquelyKeyedProxyViewCache.h:71-92 | changing entries that no key points to does not change the views the cache holds |
| ViewCache.PopFreeHead | src/gpu/GrThreadSafeUniquelyKeyedProxyViewCache.h:73-79 | taking and filling in the free list's head leaves a consistent table and the rest of the free list, linked from the head's `fNext` |
| ViewCache.AppendEntry | src/gpu/GrThreadSafeUniquelyKeyedProxyViewCache.h:80-82 | a newly allocated entry is neither in the table nor on the free list, and the table and free list stay consistent |
| ViewCache.InsertEntry | src/gpu/GrThreadSafeUniquelyKeyedProxyViewCache.h:58-69 | adding a detached entry under its own key keeps the table consistent and adds exactly that key's view |
| ViewCache.ViewCache.constructor | src/gpu/GrThreadSafeUniquelyKeyedProxyViewCache.cpp:10 | a new cache is consistent and empty |
| ViewCache.ViewCache.GetEntry | src/gpu/GrThreadSafeUniquelyKeyedProxyViewCache.h:71-85 | reuses the free list's head when there is one, else allocates a new entry; the entry holds the key and view, is unlinked, and no other entry changes |
| ViewCache.ViewCache.RecycleEntry | src/gpu/GrThreadSafeUniquelyKeyedProxyViewCache.h:87-92 | the entry's key and view are reset, its `fNext` is the old free-list head, and it becomes the new head |
| ViewCache.ViewCache.Count | src/gpu/GrThreadSafeUniquelyKeyedProxyViewCache.cpp:17-27 | the number of keys the cache holds |
| ViewCache.ViewCache.Find | src/gpu/GrThreadSafeUniquelyKeyedProxyViewCache.cpp:45-54 | the view stored under the key if there is one, otherwise the empty view |
| ViewCache.ViewCache.Add | src/gpu/GrThreadSafeUniquelyKeyedProxyViewCache.cpp:56-73 | a present key leaves the contents unchanged and returns its stored view; an absent key is added with the given view, which is returned; in both cases the result is the view now stored under the key |
| ViewCache.ViewCache.InsertNew | src/gpu/GrThreadSafeUniquelyKeyedProxyViewCache.cpp:60-63 | the contents gain exactly the new key with its view |
| ViewCache.ViewCache.DropAllRefs | src/gpu/GrThreadSafeUniquelyKeyedProxyViewCache.cpp:30-35 | the cache is left empty, every entry it held is on the free list, the entries already free stay free, and the arena keeps its size (no entry is allocated or lost) |
| ViewCache.ViewCache.DropAllUniqueRefs | src/gpu/GrThreadSafeUniquelyKeyedProxyViewCache.cpp:37-43 | the contents are unchanged |
| ViewCache.FirstAddWins | src/gpu/GrThreadSafeUniquelyKeyedProxyViewCache.h:20-24 | when two threads add the same absent key, both get the first view, and the cache grows by one key |
| SvgFeTurbulence.SkipWsp | modules/svg/src/SkSVGFeTurbulence.cpp:31 | the position after the longest run of whitespace from `i` |
| SvgFeTurbulence.SkipDigits | modules/svg/src/SkSVGFeTurbulence.cpp:31 | the position after the longest run of decimal digits from `i` |
| SvgFeTurbulence.SignEnd | modules/svg/src/SkSVGFeTurbulence.cpp:31 | an optional sign is consumed exactly when the text has '+' or '-' there |
| SvgFeTurbulence.Fraction | modules/svg/src/SkSVGFeTurbulence.cpp:31 | the digits after a decimal point have a value that is never negative |
| SvgFeTurbulence.ScalarAt | modules/svg/src/SkSVGFeTurbulence.cpp:31 | a scalar token, when there is one, ends after at least one character and within the text |
| SvgFeTurbulence.IntegerAt | modules/svg/src/SkSVGFeTurbulence.cpp:31 | an integer token, when there is one, ends after at least one character and within the text |
| SvgFeTurbulence.NumberFrom | modules/svg/src/SkSVGFeTurbulence.cpp:31 | the cursor never moves backwards and stays within the text |
| SvgFeTurbulence.IntegerFrom | modules/svg/src/SkSVGFeTurbulence.cpp:19 | the cursor never moves backwards and stays within the text |
| SvgFeTurbulence.AttributeParser.constructor | modules/svg/src/SkSVGFeTurbulence.cpp:28 | a parser starts at the beginning of its text |
| SvgFeTurbulence.AttributeParser.ParseWSToken | modules/svg/src/SkSVGFeTurbulence.cpp:31 | the loop moves the cursor past the whitespace run, and the answer is whether it moved |
| SvgFeTurbulence.AttributeParser.ParseDigits | modules/svg/src/SkSVGFeTurbulence.cpp:31 | the loop moves the cursor past the digit run |
| SvgFeTurbulence.AttributeParser.ParseSepToken | modules/svg/src/SkSVGFeTurbulence.cpp:36 | a whitespace run, or else one ',', is skipped; the answer is whether the cursor moved |
| SvgFeTurbulence.AttributeParser.ParseCommaWspToken | modules/svg/src/SkSVGFeTurbulence.cpp:36 | the separator between the two numbers is skipped |
| SvgFeTurbulence.AttributeParser.ParseExpectedStringToken | modules/svg/src/SkSVGFeTurbulence.cpp:50-53 | true exactly when the rest of the text starts with the keyword, and then the cursor moves past it; otherwise it stays |
| SvgFeTurbulence.AttributeParser.ParseEOSToken | modules/svg/src/SkSVGFeTurbulence.cpp:43 | true exactly when the cursor is at the end of the text |
| SvgFeTurbulence.AttributeParser.ParseScalarToken | modules/svg/src/SkSVGFeTurbulence.cpp:31 | succeeds exactly when `ScalarAt` finds a scalar, with its value and end; on failure the cursor stays |
| SvgFeTurbulence.AttributeParser.ParseIntegerToken | modules/svg/src/SkSVGFeTurbulence.cpp:19 | succeeds exactly when `IntegerAt` finds an integer, with its value and end; on failure the cursor stays |
| SvgFeTurbulence.AttributeParser.ParseNumber | modules/svg/src/SkSVGFeTurbulence.cpp:31-37 | the answer, value and new cursor are those of `NumberFrom` |
| SvgFeTurbulence.AttributeParser.ParseInteger | modules/svg/src/SkSVGFeTurbulence.cpp:19 | the answer, value and new cursor are those of `IntegerFrom` |
| SvgFeTurbulence.ParseBaseFrequency | modules/svg/src/SkSVGFeTurbulence.cpp:27-44 | the answer and out-value are those of `BaseFrequencyParse`: false with the out-value untouched when the first number is missing; else (x, y) or (x, x), and true only at the end of the text |
| SvgFeTurbulence.ParseType | modules/svg/src/SkSVGFeTurbulence.cpp:46-59 | the answer and out-value are those of `TypeParse`: the keyword at the start sets the type, and the answer is whether the text ends right after it |
| SvgFeTurbulence.ParseIntegerAttribute | modules/svg/src/SkSVGFeTurbulence.cpp:18-19 | the `numOctaves` value parses when the text is one integer and nothing else |
| SvgFeTurbulence.ParseNumberAttribute | modules/svg/src/SkSVGFeTurbulence.cpp:20 | the `seed` value parses when the text is one number and nothing else |
| SvgFeTurbulence.SkipDigitsOver | modules/svg/src/SkSVGFeTurbulence.cpp:31 | a run of digits that a non-digit or the end follows is skipped to its end |
| SvgFeTurbulence.DigitsScalar | modules/svg/src/SkSVGFeTurbulence.cpp:31 | a digit run with no '.' after it is a scalar with the run's decimal value |
| SvgFeTurbulence.DigitsNumber | modules/svg/src/SkSVGFeTurbulence.cpp:31 | such a run is read as a number, and the cursor lands after the separator that follows |
| SvgFeTurbulence.NumeralAt | modules/svg/src/SkSVGFeTurbulence.cpp:31 | the decimal numeral of `n` written into the text is a digit run whose value is `n` |
| SvgFeTurbulence.OneNumberFrequency | modules/svg/src/SkSVGFeTurbulence.cpp:35-43 | a single numeral n is accepted as the base frequency (n, n) |
| SvgFeTurbulence.RunThenSeparator | modules/svg/src/SkSVGFeTurbulence.cpp:31-36 | a digit run followed by a space or a comma and then a digit is read as a number, and the cursor is left at the second run |
| SvgFeTurbulence.RunAtEnd | modules/svg/src/SkSVGFeTurbulence.cpp:37 | a digit run that ends the text is read as a number and leaves the cursor at the end |
| SvgFeTurbulence.TwoDigitRuns | modules/svg/src/SkSVGFeTurbulence.cpp:27-44 | two digit runs separated by a space or a comma are accepted as the base frequency of their two values |
| SvgFeTurbulence.TwoNumberFrequency | modules/svg/src/SkSVGFeTurbulence.cpp:27-44 | "x y" and "x,y" are accepted as the base frequency (x, y) |
| SvgFeTurbulence.TrailingTextFails | modules/svg/src/SkSVGFeTurbulence.cpp:40-43 | text after the numbers makes the parse fail, yet the out-value has already been set to (n, n) |
| SvgFeTurbulence.MissingNumberFails | modules/svg/src/SkSVGFeTurbulence.cpp:31-33 | empty text, or text starting with a letter, fails and leaves the out-value as it was |
| SvgFeTurbulence.TypeParseExact | modules/svg/src/SkSVGFeTurbulence.cpp:46-59 | `type` is accepted exactly for "fractalNoise" and "turbulence", each giving its own type |
| SvgFeTurbulence.ParsedValueIgnoresPrevious | modules/svg/src/SkSVGFeTurbulence.cpp:38-40 | a successful parse writes a value that does not depend on what the out-value held before |
| SvgFeTurbulence.FeTurbulence.constructor | modules/svg/src/SkSVGFeTurbulence.cpp:16 | the element starts with the initial attribute values SVG 1.1 gives: one octave, seed 0, base frequency (0, 0), type turbulence |
| SvgFeTurbulence.FeTurbulence.ParseAndSetAttribute | modules/svg/src/SkSVGFeTurbulence.cpp:16-25 | the answer is whether the inherited attributes or one of the four own attributes accepted the pair; only the attribute that matched and parsed is set, and only when the inherited ones declined |
| GnToBp.StripSlash | gn/gn_to_bp_utils.py:31-32 | every value's '/'-stripped form is in the result, and every member of the result is the stripped form of some value and does not start with '/' |
| GnToBp.GrabDependentValues | gn/gn_to_bp_utils.py:34-45 | the outcome is the accumulator extended by the transitive walk over `name`'s dependencies (or the KeyError / RecursionError the walk raises), and on success the accumulator only grows |
| GnToBp.CollectedFromNonSkipped | gn/gn_to_bp_utils.py:37-44 | every collected value starts with no '/' and is the stripped attribute value of some target in the table that is neither third-party, 'none' nor excluded |
| GnToBp.SkippedDependenciesIgnored | gn/gn_to_bp_utils.py:38-43 | the walk over a dependency list has the same outcome as the walk over its unskipped dependencies alone, even when a skipped name is not in the table |
| GnToBp.DirectDependencyCollected | gn/gn_to_bp_utils.py:44-45 | when the walk succeeds, every unskipped direct dependency is in the table, and its stripped values and everything collected below it are in the result |
| GnToBp.CollectLimitIrrelevant | gn/gn_to_bp_utils.py:37-45 | a walk that succeeds under a recursion limit gives the same set under a larger limit |
| GnToBp.VisitLimitIrrelevant | gn/gn_to_bp_utils.py:38-45 | the same for the step of one dependency |
| GnToBp.WarningFlags | gn/gn_to_bp_utils.py:49 | a flag is kept exactly when it is in the input and starts with "-W" |
| GnToBp.UndefineFortifyNotCurated | gn/gn_to_bp_utils.py:67-70 | "-U_FORTIFY_SOURCE" is never among the curated flags, so inserting it at the front adds a new element |
| GnToBp.CleanupCFlags | gn/gn_to_bp_utils.py:47-71 | the result starts with "-U_FORTIFY_SOURCE", followed, strictly sorted, by exactly the input's "-W" flags, the four suppressions and the five build flags |
| GnToBp.CleanupCCFlags | gn/gn_to_bp_utils.py:73-78 | a flag is in the result exactly when it is an input "-W" flag or "-fexceptions" |
| GnToBp.GetPathInfo | gn/gn_to_bp_utils.py:80-84 | succeeds exactly for ("../src", "abspath") with "src"; every other call is an AssertionError |
| GnToBp.ReplaceAllWithoutPattern | gn/gn_to_bp_utils.py:98 | `replace` leaves a string that does not contain the pattern unchanged |
| GnToBp.SubstituteSources | gn/gn_to_bp_utils.py:98 | same length and order as the input; each path has every "$_src" replaced by "src", and a path without "$_src" is unchanged |
| GnToBp.GetArchSources | gn/gn_to_bp_utils.py:86-100 | every architecture of the evaluated file keeps its key, no key is added, and each list is the substituted list |
| GnToBp.ArmExample | gn/gn_to_bp_utils.py:97-98 | ["$_src/a.cc", "$_src/b.cc"] becomes ["src/a.cc", "src/b.cc"] |
| GnToBp.PlaceholderPath | gn/gn_to_bp_utils.py:98 | "$_src" followed by a tail without '$' becomes "src" followed by the same tail |
| GnToBp.NamePart | gn/gn_to_bp_utils.py:119 | the result is a prefix of the define with no '=' in it, followed in the define by '=' when it is shorter |
| GnToBp.ReplaceFirst | gn/gn_to_bp_utils.py:120 | replacing the first occurrence of a character keeps the length |
| GnToBp.ReplaceFirstRoundTrip | gn/gn_to_bp_utils.py:119-120 | for a define without spaces, turning the first space of the `#define` text back into '=' restores the define |
| GnToBp.Blocks | gn/gn_to_bp_utils.py:117-121 | four lines per define |
| GnToBp.BlocksAppend | gn/gn_to_bp_utils.py:117-121 | the lines for one more define are appended after the lines already printed |
| GnToBp.BlocksAt | gn/gn_to_bp_utils.py:117-121 | lines 4i to 4i+3 are the blank line, `#ifndef`, `#define` and `#endif` lines of the i-th define |
| GnToBp.UserConfig | gn/gn_to_bp_utils.py:102-121 | KeyError exactly when NDEBUG or SKIA_IMPLEMENTATION=1 is missing; otherwise the four preamble lines and four lines per define left after removing the four build-controlled ones |
| GnToBp.WriteUserConfig | gn/gn_to_bp_utils.py:102-121 | the removals, the KeyError cases and the printed lines are those of `UserConfig` |
| GnToBp.PrintHeader | gn/gn_to_bp_utils.py:113-121 | the printed lines are the preamble followed by the block of each define, in the given order |
| GnToBp.UserConfigRoundTrip | gn/gn_to_bp_utils.py:102-121 | when no define contains a space, reading the `#define` lines back gives exactly the remaining defines, sorted, each once, none of the removed four |
| GnToBp.ReadBlocks | gn/gn_to_bp_utils.py:117-121 | reading back the blocks of a list of defines without spaces gives the list |
| GnToBp.HeaderExample | gn/gn_to_bp_utils.py:102-121 | {FOO, BAR=1, NDEBUG, SKIA_IMPLEMENTATION=1} gives the preamble then BAR's block (`#define BAR 1`) before FOO's; without SKIA_IMPLEMENTATION=1 the result is KeyError |
| GnToBp.ExampleRemaining | gn/gn_to_bp_utils.py:104-109 | removing the build-controlled defines from the example leaves {FOO, BAR=1} |
| GnToBp.ExampleSorted | gn/gn_to_bp_utils.py:117 | the example's defines sort as BAR=1, FOO |
| GnToBp.ExampleBlocks | gn/gn_to_bp_utils.py:117-121 | the eight lines printed for BAR=1 and FOO |
| GnToBp.SortedSetUnique | gn/gn_to_bp_utils.py:69 | two strictly sorted lists with the same members are equal, so `sorted` of a set has one possible result |
| Strings.LStrip | gn/gn_to_bp_utils.py:31-32 | `p.lstrip('/')` with one character: the result is a suffix of the input, does not start with the character, and everything removed was that character |
| Strings.SortedSet | gn/gn_to_bp_utils.py:69 | `sorted(set)`: strictly increasing in Python's string order, with exactly the set's members, each once |
| Strings.LessTotal | gn/gn_to_bp_utils.py:69 | Python's order on strings is total: of two different strings one is below the other |
| Strings.LessTransitive | gn/gn_to_bp_utils.py:69 | the order is transitive, so sorting is well defined |
| Strings.IntToString | src/sksl/SkSLInliner.cpp:278 | `%d` of a non-negative counter: a non-empty string of decimal digits |
| Strings.ParseIntToString | src/sksl/SkSLInliner.cpp:278 | reading the digits back gives the number, so the rendering is faithful |
| Strings.IntToStringInjective | src/sksl/SkSLInliner.cpp:277-283 | two counters render the same only when they are equal, which keeps inlined names apart |
| SkslExpressions.Descriptions | src/sksl/ir/SkSLConstructor.h:77-81 | one description per argument, in argument order |
| SkslExpressions.CloneList | src/sksl/ir/SkSLConstructor.h:66-69 | one clone per argument |
| SkslExpressions.CloneIsCopy | src/sksl/ir/SkSLConstructor.h:65-72 | cloning a constructor or binary expression rebuilds the same tree: same kinds, offsets, types, operators and argument order |
| SkslExpressions.CloneListIsCopy | src/sksl/ir/SkSLConstructor.h:66-69 | the cloned argument list equals the original |
| SkslExpressions.PartsListSource | src/sksl/ir/SkSLConstructor.h:57-61 | every leaf reached through an argument list belongs to one of the arguments |
| SkslExpressions.PartsListHas | src/sksl/ir/SkSLConstructor.h:57-61 | every leaf of an argument is reached through the list |
| SkslExpressions.HasPropertyIffSomePart | src/sksl/ir/SkSLBinaryExpression.h:73-78 | an expression has a property exactly when some leaf below its constructors and binary expressions has it, or the property is side effects and an assignment operator sits on the way |
| SkslExpressions.ConstantOrUniformIffAllParts | src/sksl/ir/SkSLConstructor.h:95-102 | constant-or-uniform exactly when every leaf below the constructors and binary expressions is |
| SkslExpressions.CompileTimeConstantIffAllParts | src/sksl/ir/SkSLConstructor.h:86-93 | a compile-time constant exactly when every leaf below the constructors is; a constructor without arguments is one |
| SkslBinaryExpression.Roots | src/sksl/ir/SkSLBinaryExpression.h:22-44 | an assignment target has at least one storage root |
| SkslBinaryExpression.CheckRefIffWritableRoots | src/sksl/ir/SkSLBinaryExpression.h:22-44 | `check_ref` accepts an expression exactly when each storage it may write through (bases of field accesses, indexes and swizzles, both ternary branches) is an external value or a variable reference made for writing |
| SkslBinaryExpression.MakeBinary | src/sksl/ir/SkSLBinaryExpression.h:52-60 | demands `check_ref` of the left side of an assignment operator; the new node keeps offset, type, operands and operator, and every storage an assignment writes was referenced for writing |
| SkslBinaryExpression.AssignmentHasSideEffects | src/sksl/ir/SkSLBinaryExpression.h:73-76 | an assignment has side effects whatever its operands |
| SkslBinaryExpression.NonAssignmentFromOperands | src/sksl/ir/SkSLBinaryExpression.h:62-78 | a non-assignment has a property exactly when one operand has it, and is constant-or-uniform exactly when both operands are |
| SkslBinaryExpression.DescriptionExample | src/sksl/ir/SkSLBinaryExpression.h:85-88 | `x += 1` prints as "(x += 1)" |
| SkslVarDeclarations.DescriptionLoop | src/sksl/ir/SkSLVarDeclarations.h:50-65 | the loop builds modifiers, base type, name, one "[size]" or "[]" per size in order, " = value" when there is one, and a final ';' |
| SkslVarDeclarations.DescriptionExample | src/sksl/ir/SkSLVarDeclarations.h:50-65 | a `const int` array `a` with sizes 2 and omitted and value `b` prints as "const int a[2][] = b;" |
| SkslVarDeclarations.CloneLoop | src/sksl/ir/SkSLVarDeclarations.h:36-48 | the clone has the same variable and base type, as many sizes with omitted ones kept omitted, a value exactly when the original has one, and equals the original |
| SkslVarDeclarations.MakeGlobal | src/sksl/ir/SkSLVarDeclarations.h:83-87 | a global wraps only a single variable declaration, at the given offset |
| SkslVarDeclarations.GlobalDescription | src/sksl/ir/SkSLVarDeclarations.h:93-95 | a global prints as its declaration, ending in ';' |
| SkslVarDeclarations.GlobalClone | src/sksl/ir/SkSLVarDeclarations.h:89-91 | the clone of a global keeps its offset and wraps an equal declaration |
| StrokeTessellateShader.PatchTypeCodes | src/gpu/tessellate/GrStrokeTessellateShader.h:45-62 | bevel, miter and round codes are joins; a code is a join exactly when its absolute value is at least 2; a join is double-sided exactly when its code is negative; 0 and 1 are not joins |
| StrokeTessellateShader.FlatFormIsLegal | src/gpu/tessellate/GrStrokeTessellateShader.h:28-29 | the replacement [P0, P0, P3, P3] of an illegal cubic is legal exactly when P0 and P3 differ |
| SkslConstructor.ConstantPropagate | src/sksl/ir/SkSLConstructor.h:35-54 | folds exactly a constructor of one integer literal whose type is a float or integer scalar; the literal keeps the offset and the integer's value, is a float literal of the float type for a float scalar and an integer literal of the constructor's type for an integer scalar |
| SkslConstructor.ConstantPropagateGivesLiteral | src/sksl/ir/SkSLConstructor.h:35-54 | a folded constructor is never a constructor again, and it is an integer literal only when the type is an integer |
| SkslConstructor.HasPropertyLoop | src/sksl/ir/SkSLConstructor.h:56-63 | true exactly when some argument has the property |
| SkslConstructor.IsCompileTimeConstantLoop | src/sksl/ir/SkSLConstructor.h:86-93 | true exactly when every argument is a compile-time constant |
| SkslConstructor.IsConstantOrUniformLoop | src/sksl/ir/SkSLConstructor.h:95-102 | true exactly when every argument is constant or uniform |
| SkslConstructor.DescriptionLoop | src/sksl/ir/SkSLConstructor.h:74-84 | the type's name, then the argument descriptions joined by ", " in parentheses |
| SkslConstructor.DescriptionStep | src/sksl/ir/SkSLConstructor.h:77-81 | each iteration appends the separator (empty before the first argument, ", " after) and the next description |
| SkslConstructor.CloneLoop | src/sksl/ir/SkSLConstructor.h:65-72 | the clone equals the original constructor |
| SkslConstructor.GetVecComponent | src/sksl/ir/SkSLConstructor.h:137-219 | the loop gives the value of the component walk: a single scalar at every index; a scalar argument at its own index; a constructor or a negated constructor that covers the index, entered at the offset; -1 when the walk passes the index or runs out |
| SkslConstructor.NegateAll | src/sksl/ir/SkSLConstructor.h:199-202 | each component negated, same length |
| SkslConstructor.VecComponentIsComponent | src/sksl/ir/SkSLConstructor.h:137-219 | on a well-sized constructor, component `index` is entry `index` of the flattened component list (a repeated single scalar, or each argument's components in turn, negated under a prefix) |
| SkslConstructor.VecWalkIsComponent | src/sksl/ir/SkSLConstructor.h:150-215 | the walk from argument `k` gives the entry of the flattened list of arguments `k..` at `index - current` |
| SkslConstructor.GetMatComponent | src/sksl/ir/SkSLConstructor.h:233-275 | the loop gives the diagonal value or 0 for a single scalar, the argument's own cell or 0 outside it for a single matrix, and otherwise the argument covering flat index `col * rows + row`; running out of arguments aborts |
| SkslConstructor.MatPiece | src/sksl/ir/SkSLConstructor.h:265-271 | a wide argument that is not a constructor contributes one component per column |
| SkslConstructor.MatComponentIsFlatIndex | src/sksl/ir/SkSLConstructor.h:259-274 | past the single-scalar and single-matrix cases, cell (col, row) is entry `col * rows + row` of the column-major component list, and an abort when the list is shorter |
| SkslConstructor.MatWalkIsPiece | src/sksl/ir/SkSLConstructor.h:261-273 | the walk from argument `k` gives the entry at `target - current` of the components of arguments `k..`, or an abort past their end |
| SkslConstructor.CompareConstant | src/sksl/ir/SkSLConstructor.h:104-135 | for a vector, equal exactly when every component of both is defined and equal; for a matrix, exactly when every cell is; otherwise the first differing component or cell (in column-major order) is named, and the result is an abort exactly when one of its two values is undefined |
| SkslConstructor.CompareVectors | src/sksl/ir/SkSLConstructor.h:109-122 | true exactly when all components up to the column count agree; otherwise the first disagreeing component decides between false and abort |
| SkslConstructor.CompareMatrices | src/sksl/ir/SkSLConstructor.h:126-134 | true exactly when every cell agrees; otherwise the first disagreeing cell in column-major order decides between false and abort |
| SkslVariableReference.AddOne | src/sksl/ir/SkSLVariableReference.cpp:17-27 | adding a reference of some kind to the live references raises the counts exactly as the constructor does |
| SkslVariableReference.RemoveOne | src/sksl/ir/SkSLVariableReference.cpp:29-36 | removing a live reference lowers the counts exactly as the destructor does |
| SkslVariableReference.StepKeepsCounts | src/sksl/ir/SkSLVariableReference.cpp:17-52 | creating, destroying or re-kinding one existing reference keeps the counts equal to those implied by the live references |
| SkslVariableReference.CountsFollowLiveReferences | src/sksl/ir/SkSLVariableReference.cpp:17-52 | after any possible sequence of creations, destructions and kind changes, the write count is the number of live non-read references and the read count the number of live non-write references |
| SkslVariableReference.DestroyUndoesCreate | src/sksl/ir/SkSLVariableReference.cpp:17-52 | destroying a reference undoes creating it; changing a kind to itself changes nothing; a read becoming read-write adds one write and no read |
| SkslVariableReference.MakeReference | src/sksl/ir/SkSLVariableReference.cpp:17-27 | the reference has the variable's type; the write count rises unless the kind is read, the read count unless it is write; the counts keep tracking the live references |
| SkslVariableReference.DestroyReference | src/sksl/ir/SkSLVariableReference.cpp:29-36 | the counts fall by what the reference's kind added, and keep tracking the live references |
| SkslVariableReference.SetRefKind | src/sksl/ir/SkSLVariableReference.cpp:38-52 | the counts change as if the old reference were destroyed and one of the new kind created; the reference keeps offset, type and variable |
| SkslVariableReference.CopyConstantList | src/sksl/ir/SkSLVariableReference.cpp:75-83 | a successful copy of the arguments has one copy per argument |
| SkslVariableReference.CopyConstantSameTree | src/sksl/ir/SkSLVariableReference.cpp:54-92 | a successful copy reproduces the constant node for node: kinds, literal values, operators, setting names, constructor offsets and types, and argument order |
| SkslVariableReference.CopyConstantListSameTree | src/sksl/ir/SkSLVariableReference.cpp:75-83 | each copied argument reproduces its original |
| SkslVariableReference.CopyConstantIdempotent | src/sksl/ir/SkSLVariableReference.cpp:54-92 | copying a copy gives the same copy |
| SkslVariableReference.CopyConstantListIdempotent | src/sksl/ir/SkSLVariableReference.cpp:75-83 | the same for argument lists |
| SkslVariableReference.UnsupportedConstantAborts | src/sksl/ir/SkSLVariableReference.cpp:89-90 | a kind outside literals, prefixes, constructors and settings aborts the copy, also nested in a constructor |
| SkslVariableReference.RefConstantPropagate | src/sksl/ir/SkSLVariableReference.cpp:94-110 | a non-read reference never folds; a read of a const variable whose initial value is a compile-time constant, through a non-array type, folds to a copy of that initial value, ahead of any definition; otherwise a present compile-time-constant definition folds to a copy of it; nothing is folded exactly when it is not a read or neither case applies; every fold is a node-for-node copy of the value it came from |
| SkslVariableReference.CopyAsSome | src/sksl/ir/SkSLVariableReference.cpp:102-107 | a fold succeeds exactly when the copy does, and gives a node-for-node copy |
| SkslVariableReference.NothingToFold | src/sksl/ir/SkSLVariableReference.cpp:94-110 | a read of a non-const variable without a definition folds to nothing |
| StrokePatchBuilder.JoinTypeFromJoin | src/gpu/tessellate/GrStrokePatchBuilder.cpp:131-141 | bevel, miter and round joins map to the shader's codes 2, 3 and 4: known, one-sided join codes |
| StrokePatchBuilder.InflectionPieces | src/gpu/tessellate/GrStrokePatchBuilder.cpp:286-297 | a cubic chopped at n inflections gives n+1 pieces, the first starting at P0, the last ending at P3, each starting where the one before ends |
| StrokePatchBuilder.VerbStepFrom | src/gpu/tessellate/GrStrokePatchBuilder.cpp:168-198 | a loop iteration appends its patches after the ones already written and does not otherwise depend on them |
| StrokePatchBuilder.AllWellFormedConcat | src/gpu/tessellate/GrStrokeTessellateShader.h:41-62 | two lists of drawable patches concatenate to a list of drawable patches |
| StrokePatchBuilder.SegmentWellFormed | src/gpu/tessellate/GrStrokePatchBuilder.cpp:55-76 | a legal cubic or flat line continuing a contour writes drawable patches: the join before it has a known code and the junction twice, and afterwards the contour has a segment with control points off its ends |
| StrokePatchBuilder.LineWellFormed | src/gpu/tessellate/GrStrokePatchBuilder.cpp:209-217 | a line writes nothing when zero-length and drawable patches otherwise, keeping the contour invariant |
| StrokePatchBuilder.QuadToCubicLegal | src/gpu/tessellate/GrStrokePatchBuilder.cpp:262 | the exact cubic form of a quadratic whose control point is off both ends is a legal cubic |
| StrokePatchBuilder.QuadWellFormed | src/gpu/tessellate/GrStrokePatchBuilder.cpp:219-264 | whatever the chopping decisions, every patch a quadratic writes is drawable, and the contour invariant is kept |
| StrokePatchBuilder.CubicWellFormed | src/gpu/tessellate/GrStrokePatchBuilder.cpp:266-332 | whatever the inflections, quick-accept, fit and chop decisions, every patch a cubic writes is drawable: an illegal cubic is drawn as a line instead |
| StrokePatchBuilder.CubicPiecesWellFormed | src/gpu/tessellate/GrStrokePatchBuilder.cpp:288-297 | the pieces of a cubic chopped at its inflections, joined by double-sided round joins, write only drawable patches |
| StrokePatchBuilder.CapsWellFormed | src/gpu/tessellate/GrStrokePatchBuilder.cpp:90-129 | butt, round and square caps write drawable patches (a square cap's point lies past its end for a positive radius), and the contour's start and segment flag are kept |
| StrokePatchBuilder.CloseWellFormed | src/gpu/tessellate/GrStrokePatchBuilder.cpp:334-352 | closing writes caps for an empty contour, otherwise a line back and a closing join, all drawable |
| StrokePatchBuilder.VerbStepWellFormed | src/gpu/tessellate/GrStrokePatchBuilder.cpp:168-198 | one iteration over a move, close, line, quadratic or cubic keeps the walk invariant |
| StrokePatchBuilder.PathWalkWellFormed | src/gpu/tessellate/GrStrokePatchBuilder.cpp:168-198 | the loop over a conic-free path keeps the walk invariant |
| StrokePatchBuilder.PathWellFormed | src/gpu/tessellate/GrStrokePatchBuilder.cpp:143-202 | every patch `addPath` writes for a conic-free path with a positive radius is one the shader accepts |
| StrokePatchBuilder.MovesOnlyWalk | src/gpu/tessellate/GrStrokePatchBuilder.cpp:170-177 | a run of moves writes nothing and leaves a previous verb that asks for no caps |
| StrokePatchBuilder.MovesAreNotStroked | src/gpu/tessellate/GrStrokePatchBuilder.cpp:170-177 | a path made only of moves writes no patch: a subpath of a single moveto is not stroked |
| StrokePatchBuilder.ZeroLengthRoundCaps | src/gpu/tessellate/GrStrokePatchBuilder.cpp:334-345 | a move followed by a close, with round caps, writes exactly the two round joins about the point with horizontal control points |
| StrokePatchBuilder.ZeroLengthLineCapped | src/gpu/tessellate/GrStrokePatchBuilder.cpp:199-217 | a move and a zero-length line write exactly the caps of an empty contour at the point |
| StrokePatchBuilder.WrittenPush | src/gpu/tessellate/GrStrokePatchBuilder.cpp:29-37 | a new chunk's patches follow those of the chunks before it |
| StrokePatchBuilder.WrittenAppendToLast | src/gpu/tessellate/GrStrokePatchBuilder.cpp:50-51 | a patch written into the last chunk comes after every patch already written |
| StrokePatchBuilder.KeptAppend | src/gpu/tessellate/GrStrokePatchBuilder.cpp:39-53 | a request adds its patch to the kept ones exactly when its reservation succeeded |
| StrokePatchBuilder.KeptWhenAllSucceed | src/gpu/tessellate/GrStrokePatchBuilder.cpp:39-53 | if every reservation succeeds the chunks hold exactly the requested patches; if none does, none |
| StrokePatchBuilder.PreallocCount | src/gpu/tessellate/GrStrokePatchBuilder.h:53-57 | the first chunk's minimum is 2 × (verbs + verbs / 3) + 16, so at least 16 |
| StrokePatchBuilder.StrokePatchBuilder.constructor | src/gpu/tessellate/GrStrokePatchBuilder.h:46-58 | one empty chunk from the preallocation request, its minimum recorded; no patch requested; no previous segment |
| StrokePatchBuilder.StrokePatchBuilder.PutBackCount | src/gpu/tessellate/GrStrokePatchBuilder.h:62-65 | the vertices put back plus the current chunk's patches are its capacity, so the count is never negative |
| StrokePatchBuilder.StrokePatchBuilder.AllocPatchChunkAtLeast | src/gpu/tessellate/GrStrokePatchBuilder.cpp:29-37 | pushes an empty chunk, takes its capacity and data from the target (none on failure), records the minimum, and changes nothing else |
| StrokePatchBuilder.StrokePatchBuilder.ReservePatch | src/gpu/tessellate/GrStrokePatchBuilder.cpp:39-53 | a full chunk first gets a successor asked for twice its minimum; when the current chunk is not full the patch is appended to it and earlier chunks are unchanged; when it is full a new chunk is pushed holding [p], or nothing when no space was granted, with the granted capacity; the chunks always hold exactly the requested patches that got space |
| StrokePatchBuilder.StrokePatchBuilder.WriteJoin | src/gpu/tessellate/GrStrokePatchBuilder.cpp:78-88 | requests one join patch: previous control, the anchor twice, next control, at the current radius |
| StrokePatchBuilder.StrokePatchBuilder.WriteCubicSegment | src/gpu/tessellate/GrStrokePatchBuilder.cpp:55-76 | requests a join with the previous segment if there is one, then the segment; records the first control point of a contour's first segment, the last control point and the pen |
| StrokePatchBuilder.StrokePatchBuilder.WriteSquareCap | src/gpu/tessellate/GrStrokePatchBuilder.cpp:90-102 | requests a double-sided join into the cap point and a flat line out to it |
| StrokePatchBuilder.StrokePatchBuilder.WriteCaps | src/gpu/tessellate/GrStrokePatchBuilder.cpp:104-129 | a contour without segments first gets horizontal control points about its start; then nothing, two round joins, or two square caps |
| StrokePatchBuilder.StrokePatchBuilder.MoveTo | src/gpu/tessellate/GrStrokePatchBuilder.cpp:204-207 | clears the previous segment and sets the contour's start; nothing else changes |
| StrokePatchBuilder.StrokePatchBuilder.LineTo | src/gpu/tessellate/GrStrokePatchBuilder.cpp:209-217 | nothing for a zero-length line; otherwise the flat line [p0, p0, p1, p1] as a segment |
| StrokePatchBuilder.StrokePatchBuilder.QuadraticTo | src/gpu/tessellate/GrStrokePatchBuilder.cpp:219-264 | a quadratic with its control point on an end is drawn as a line; one that needs chopping is drawn as its two halves; otherwise its cubic form is one segment |
| StrokePatchBuilder.StrokePatchBuilder.ChopQuadraticTo | src/gpu/tessellate/GrStrokePatchBuilder.cpp:240-258 | the first half continues with the given join, the second with a double-sided round join, both one level deeper, the depth fixed at the first chop |
| StrokePatchBuilder.StrokePatchBuilder.CubicTo | src/gpu/tessellate/GrStrokePatchBuilder.cpp:266-332 | an illegal cubic is drawn as a line; a quick-accepted or depth-exhausted one is one segment; an inflecting one is drawn piece by piece; one that fits is one segment; otherwise it is chopped |
| StrokePatchBuilder.StrokePatchBuilder.ChopCubicTo | src/gpu/tessellate/GrStrokePatchBuilder.cpp:311-331 | the two halves are drawn one level deeper without inflection checks, the second after a double-sided round join |
| StrokePatchBuilder.StrokePatchBuilder.CubicPiecesTo | src/gpu/tessellate/GrStrokePatchBuilder.cpp:288-297 | each piece in order; the first continues with the given join and every later one with a double-sided round join |
| StrokePatchBuilder.StrokePatchBuilder.Close | src/gpu/tessellate/GrStrokePatchBuilder.cpp:334-352 | caps for a contour without segments; otherwise a line back to the start and a join from the last control point to the first |
| StrokePatchBuilder.StrokePatchBuilder.AddVerb | src/gpu/tessellate/GrStrokePatchBuilder.cpp:169-197 | the switch on one verb: caps before a move that follows drawing, then the move; close; line, quadratic and cubic from the iterator's last point |
| StrokePatchBuilder.StrokePatchBuilder.AddVerbs | src/gpu/tessellate/GrStrokePatchBuilder.cpp:166-198 | the loop over the verbs requests exactly the patches of the walk and leaves its contour state |
| StrokePatchBuilder.StrokePatchBuilder.AddPath | src/gpu/tessellate/GrStrokePatchBuilder.cpp:143-202 | sets the radius to half the width and the join code from the join; requests exactly the patches of the path's walk plus the last subpath's caps; every new request is a drawable patch |
| TessellateStrokeOp.TransformStroke | src/gpu/tessellate/GrTessellateStrokeOp.cpp:23-32 | a hairline becomes width 1, a stroke is scaled by the matrix's largest scale; cap, join and miter limit are kept; the width is positive for a positive scale |
| TessellateStrokeOp.HeadStroke | src/gpu/tessellate/GrTessellateStrokeOp.cpp:52-60 | a miter join with a non-positive limit becomes a bevel join with limit 0; any other stroke is unchanged; afterwards a miter join always has a positive limit |
| TessellateStrokeOp.TotalVerbsAppend | src/gpu/tessellate/GrTessellateStrokeOp.cpp:97-102 | the verb count of concatenated lists is the sum of their verb counts |
| TessellateStrokeOp.MergeKeepsMiterLimitShared | src/gpu/tessellate/GrTessellateStrokeOp.cpp:88-101 | two lists whose miter-join strokes each share a limit, with limits that do not clash, share the merged limit; the merged limit is the other op's or the receiver's |
| TessellateStrokeOp.StrokesOutStep | src/gpu/tessellate/GrTessellateStrokeOp.cpp:113-115 | one more pair appends its path's patches after the earlier pairs', from the contour they leave |
| TessellateStrokeOp.StrokesOutNext | src/gpu/tessellate/GrTessellateStrokeOp.cpp:113-115 | a builder in the state of the first i pairs that adds pair i is in the state of the first i+1 pairs |
| TessellateStrokeOp.AddStrokes | src/gpu/tessellate/GrTessellateStrokeOp.cpp:113-115 | the loop hands every pair's path to the builder in list order and leaves it with exactly the patches of all pairs |
| TessellateStrokeOp.StrokesWellFormed | src/gpu/tessellate/GrTessellateStrokeOp.cpp:111-116 | every patch the op asks to write for drawable pairs is one the shader accepts |
| TessellateStrokeOp.TessellateStrokeOp.constructor | src/gpu/tessellate/GrTessellateStrokeOp.cpp:42-60 | one pair with the transformed and fixed-up stroke; the verb count is the path's; the miter limit is the stroke's positive miter limit, else 0 |
| TessellateStrokeOp.TessellateStrokeOp.UsesHWAA | src/gpu/tessellate/GrTessellateStrokeOp.cpp:67-73 | hardware antialiasing exactly when the AA type is not none |
| TessellateStrokeOp.TessellateStrokeOp.CombineIfPossible | src/gpu/tessellate/GrTessellateStrokeOp.cpp:84-105 | refuses exactly when colour, AA type or processors differ or both limits are non-zero and differ, changing nothing; otherwise appends the other pairs, moving them out so the other op's list is left empty, adds the verb counts and takes the other op's non-zero limit; the op's invariant (one shared miter limit) is kept |
| TessellateStrokeOp.TessellateStrokeOp.Prepare | src/gpu/tessellate/GrTessellateStrokeOp.cpp:111-116 | one builder sized for all verbs is asked for exactly the patches of all pairs in order, each of them drawable |
| SkslAnalysis.VisitExprReaches | src/sksl/SkSLAnalysis.cpp:252-305 | the default expression visit, with a yes/no test, returns true exactly when some expression it reaches (itself, then its children left to right) passes the test |
| SkslAnalysis.VisitExprsReaches | src/sksl/SkSLAnalysis.cpp:270-287 | the same for the argument loops, which stop at the first true |
| SkslAnalysis.VisitOptExprReaches | src/sksl/SkSLAnalysis.cpp:328-339 | an absent optional expression reaches nothing |
| SkslAnalysis.VisitOptExprsReaches | src/sksl/SkSLAnalysis.cpp:352-354 | the same for the size list of a declaration, skipping omitted sizes |
| SkslAnalysis.VisitStmtReaches | src/sksl/SkSLAnalysis.cpp:307-364 | the default statement visit returns true exactly when some expression the statement reaches passes the test |
| SkslAnalysis.VisitStmtsReaches | src/sksl/SkSLAnalysis.cpp:317-320 | the same for a block's statements |
| SkslAnalysis.VisitOptStmtReaches | src/sksl/SkSLAnalysis.cpp:328-336 | an absent initializer or else-branch reaches nothing |
| SkslAnalysis.VisitCasesReaches | src/sksl/SkSLAnalysis.cpp:343-348 | the same for a switch's cases, each value then each statement |
| SkslAnalysis.VisitElementReaches | src/sksl/SkSLAnalysis.cpp:366-389 | the default element visit returns true exactly when some expression the element reaches passes the test |
| SkslAnalysis.VisitElementsReaches | src/sksl/SkSLAnalysis.cpp:243-250 | the program visit returns true exactly when some expression of the program passes the test |
| SkslAnalysis.ReferencesBuiltinIff | src/sksl/SkSLAnalysis.cpp:134-150 | a program references a builtin exactly when some variable reference in it has that layout builtin |
| SkslAnalysis.StatementWritesToVariableIff | src/sksl/SkSLAnalysis.cpp:182-207 | a statement writes a variable exactly when it holds a reference to that very variable of kind write, read-write or pointer |
| SkslAnalysis.NodeCountVisitor.constructor | src/sksl/SkSLAnalysis.cpp:153-180 | a new counter starts at 0 |
| SkslAnalysis.NodeCountVisitor.Visit | src/sksl/SkSLAnalysis.cpp:155-159 | the count restarts at 0 and ends as the number of nodes in the statement, the statement included |
| SkslAnalysis.NodeCountVisitor.VisitExpression | src/sksl/SkSLAnalysis.cpp:161-164 | adds the number of nodes of the expression and never stops the walk |
| SkslAnalysis.NodeCountVisitor.VisitExpressions | src/sksl/SkSLAnalysis.cpp:270-287 | adds the nodes of every argument |
| SkslAnalysis.NodeCountVisitor.VisitOptExpression | src/sksl/SkSLAnalysis.cpp:328-339 | adds the nodes of an optional expression, none when absent |
| SkslAnalysis.NodeCountVisitor.VisitOptExpressions | src/sksl/SkSLAnalysis.cpp:352-354 | adds the nodes of every given size |
| SkslAnalysis.NodeCountVisitor.VisitStatement | src/sksl/SkSLAnalysis.cpp:171-174 | adds the number of nodes of the statement and never stops the walk |
| SkslAnalysis.NodeCountVisitor.VisitStatements | src/sksl/SkSLAnalysis.cpp:317-320 | adds the nodes of every statement of a block |
| SkslAnalysis.NodeCountVisitor.VisitOptStatement | src/sksl/SkSLAnalysis.cpp:328-336 | adds the nodes of an optional statement, none when absent |
| SkslAnalysis.NodeCountVisitor.VisitCases | src/sksl/SkSLAnalysis.cpp:343-348 | adds the nodes of every case value and statement |
| SkslAnalysis.NodeCountVisitor.VisitVarDeclarations | src/sksl/SkSLAnalysis.cpp:356-357 | adds the nodes of the declarations element, the element included |
| SkslAnalysis.NodeCount | src/sksl/SkSLAnalysis.cpp:232-234 | the number of statements, expressions and elements in the body, the body included, so at least 1 |
| SkslAnalysis.UniformMatrixOnlyFromMatrixValue | src/sksl/SkSLAnalysis.cpp:98-122 | a call is a uniform-matrix usage named d exactly when its last argument is a constant-or-uniform float3x3 variable reference or constructor whose description is d |
| SkslAnalysis.SampleUsagesAppend | src/sksl/SkSLAnalysis.cpp:90-129 | the usages merged over two node runs are those of the first followed by those of the second |
| SkslAnalysis.SampleUsagesEmptyIff | src/sksl/SkSLAnalysis.cpp:90-129 | nothing is merged exactly when no node is a sample call to the child |
| SkslAnalysis.UsagesGrow | src/sksl/SkSLAnalysis.cpp:90-129 | merging over one run and then another is merging over their concatenation |
| SkslAnalysis.StatementMergesNothing | src/sksl/SkSLAnalysis.cpp:307-364 | a statement node merges no usage itself; only expressions below it do |
| SkslAnalysis.ElementMergesNothing | src/sksl/SkSLAnalysis.cpp:366-389 | an element node merges no usage itself |
| SkslAnalysis.MergeSampleUsageVisitor.constructor | src/sksl/SkSLAnalysis.cpp:76-77 | the visitor holds the child and starts with no usage |
| SkslAnalysis.MergeSampleUsageVisitor.Visit | src/sksl/SkSLAnalysis.cpp:79-83 | the usage is reset, then becomes the usages of every sample call to the child in the program, in visiting order |
| SkslAnalysis.MergeSampleUsageVisitor.VisitElements | src/sksl/SkSLAnalysis.cpp:243-250 | adds the usages of every element and never stops early |
| SkslAnalysis.MergeSampleUsageVisitor.VisitProgramElement | src/sksl/SkSLAnalysis.cpp:366-389 | adds the usages of the element |
| SkslAnalysis.MergeSampleUsageVisitor.VisitExpression | src/sksl/SkSLAnalysis.cpp:90-129 | merges the call's usage when the expression is a sample call to the child, then those below it, and never stops the walk |
| SkslAnalysis.MergeSampleUsageVisitor.DefaultVisitExpression | src/sksl/SkSLAnalysis.cpp:252-305 | adds the usages of the children, left to right |
| SkslAnalysis.MergeSampleUsageVisitor.VisitExpressions | src/sksl/SkSLAnalysis.cpp:270-287 | adds the usages of every argument |
| SkslAnalysis.MergeSampleUsageVisitor.VisitOptExpression | src/sksl/SkSLAnalysis.cpp:328-339 | adds the usages of an optional expression, none when absent |
| SkslAnalysis.MergeSampleUsageVisitor.VisitOptExpressions | src/sksl/SkSLAnalysis.cpp:352-354 | adds the usages of every given size |
| SkslAnalysis.MergeSampleUsageVisitor.VisitStatement | src/sksl/SkSLAnalysis.cpp:307-364 | adds the usages below the statement |
| SkslAnalysis.MergeSampleUsageVisitor.VisitStatements | src/sksl/SkSLAnalysis.cpp:317-320 | adds the usages of every statement of a block |
| SkslAnalysis.MergeSampleUsageVisitor.VisitOptStatement | src/sksl/SkSLAnalysis.cpp:328-336 | adds the usages of an optional statement, none when absent |
| SkslAnalysis.MergeSampleUsageVisitor.VisitCases | src/sksl/SkSLAnalysis.cpp:343-348 | adds the usages of every case value and statement |
| SkslAnalysis.MergeSampleUsageVisitor.VisitVarDeclarations | src/sksl/SkSLAnalysis.cpp:356-357 | adds the usages of the declarations element |
| SkslAnalysis.GetSampleUsage | src/sksl/SkSLAnalysis.cpp:214-217 | the usages of all sample calls to the child in the program, in visiting order; none exactly when the program has no such call |
| SkslInliner.InBreakableBounds | src/sksl/SkSLInliner.cpp:123-157 | inside a breakable construct every return of a statement counts, and outside one at most all of its returns do |
| SkslInliner.CountersConsistent | src/sksl/SkSLInliner.cpp:85-157 | returns at the end of control flow and returns inside breakable constructs together never exceed all returns, since no return is both |
| SkslInliner.NoEarlyReturnNoBreakableReturn | src/sksl/SkSLInliner.cpp:713-723 | both assertions of isSafeToInline hold: without an early return no return sits inside a breakable construct, and a return inside one means an early return |
| SkslInliner.EarlyReturnExample | src/sksl/SkSLInliner.cpp:159-167 | `{ if (c) return a; return b; }` has an early return |
| SkslInliner.NoEarlyReturnExample | src/sksl/SkSLInliner.cpp:159-167 | `{ if (c) return a; else return b; }` has none: both returns end the control flow |
| SkslInliner.AllReturnsCounter.constructor | src/sksl/SkSLInliner.cpp:63-65 | the return count starts at 0 |
| SkslInliner.AllReturnsCounter.VisitStatement | src/sksl/SkSLInliner.cpp:67-76 | adds every return statement reached from the statement, itself included |
| SkslInliner.AllReturnsCounter.VisitStatements | src/sksl/SkSLInliner.cpp:67-76 | adds every return reached from each statement of a list |
| SkslInliner.AllReturnsCounter.VisitCases | src/sksl/SkSLInliner.cpp:67-76 | adds every return reached from each case of a switch |
| SkslInliner.AtEndCounter.constructor | src/sksl/SkSLInliner.cpp:88-90 | the return count starts at 0 |
| SkslInliner.AtEndCounter.VisitStatement | src/sksl/SkSLInliner.cpp:92-114 | adds the returns at the end of control flow: only a block's last statement is looked at, and switches and loops are not entered |
| SkslInliner.AtEndCounter.VisitStatements | src/sksl/SkSLInliner.cpp:92-114 | adds those of each statement of a list |
| SkslInliner.BreakableCounter.constructor | src/sksl/SkSLInliner.cpp:126-128 | the count and the depth of breakable constructs start at 0 |
| SkslInliner.BreakableCounter.VisitStatement | src/sksl/SkSLInliner.cpp:130-149 | adds the returns inside a switch, for, do or while, and leaves the depth as it found it |
| SkslInliner.BreakableCounter.VisitStatements | src/sksl/SkSLInliner.cpp:130-149 | the same for each statement of a list |
| SkslInliner.BreakableCounter.VisitCases | src/sksl/SkSLInliner.cpp:130-149 | the same for each case of a switch |
| SkslInliner.CountAllReturns | src/sksl/SkSLInliner.cpp:60-83 | the number of return statements in the function's body |
| SkslInliner.CountReturnsAtEndOfControlFlow | src/sksl/SkSLInliner.cpp:85-121 | the returns at the end of control flow, never more than all returns |
| SkslInliner.CountReturnsInBreakableConstructs | src/sksl/SkSLInliner.cpp:123-157 | the returns inside breakable constructs, never more than all returns |
| SkslInliner.HasEarlyReturn | src/sksl/SkSLInliner.cpp:159-167 | true exactly when some return is not at the end of control flow; when false, no return sits inside a breakable construct |
| SkslInliner.IsSafeToInline | src/sksl/SkSLInliner.cpp:693-725 | safe exactly when the callee has a definition, passes the size rule (below the largest int, a function not flagged inline must have fewer nodes than the threshold), and has no return in a breakable construct, nor any early return when do loops are unavailable |
| SkslInliner.InlineReturn | src/sksl/SkSLInliner.cpp:445-472 | a return becomes an assignment to the result variable (inside a block ending in a break when there are early returns), a break, or a no-op; the result holds no return and leaves the loop exactly when there are early returns; the result variable gains one write |
| SkslInliner.InlineStatement | src/sksl/SkSLInliner.cpp:384-526 | the walk builds the inlined copy of a statement (children inlined in place, expressions and declarations through the given rewrite, returns rewritten), and the result variable gains exactly one write per `return` with a value and no read |
| SkslInliner.InlineStatements | src/sksl/SkSLInliner.cpp:397-403 | each statement of a list inlined in order, with one write to the result variable per value return in the list |
| SkslInliner.InlineOptStatement | src/sksl/SkSLInliner.cpp:390-396 | an absent statement stays absent and a present one is inlined |
| SkslInliner.InlineCases | src/sksl/SkSLInliner.cpp:473-482 | each switch case keeps its position, with its value and statements inlined |
| SkslInliner.InlinedHoldsNoReturns | src/sksl/SkSLInliner.cpp:445-472 | no return statement survives inlining of any statement, given declarations hold none |
| SkslInliner.InlineVarNameShape | src/sksl/SkSLInliner.cpp:271-278 | a tried name is "_", the counter's decimal digits, "_" unless the base starts with one, then the base name |
| SkslInliner.InlineVarNamesDistinct | src/sksl/SkSLInliner.cpp:277-283 | tries with two different counters never give the same name, whatever the base names |
| SkslInliner.InlineVarNameNoDoubleUnderscore | src/sksl/SkSLInliner.cpp:267-271 | a base name with no two underscores in a row gives a name with none |
| SkslInliner.UniqueNamesDiffer | src/sksl/SkSLInliner.cpp:266-286 | two names given by one inliner at different counter values differ |
| SkslInliner.Inliner.constructor | src/sksl/SkSLInliner.cpp:260-264 | the name counter starts at 0 |
| SkslInliner.Inliner.Reset | src/sksl/SkSLInliner.cpp:260-264 | the name counter returns to 0 |
| SkslInliner.Inliner.UniqueNameForInlineVar | src/sksl/SkSLInliner.cpp:266-286 | the result is the first tried name the symbol table does not know; every earlier try was known; the counter moves past every try |
| SkslInliner.Inliner.MakeInlineVar | src/sksl/SkSLInliner.cpp:565-607 | a new local with an unknown unique name, added to the table, offset -1, default modifiers, a real type in place of a literal type, the given initial value, and its one-variable declaration |
| SkslInliner.ScratchTypeIsReal | src/sksl/SkSLInliner.cpp:570-576 | a new local never has the float-literal or int-literal type, and any other type is kept |
| SkslInliner.Inliner.MapArgument | src/sksl/SkSLInliner.cpp:620-635 | a variable argument stands for an out parameter or an unwritten one as it is; any other argument gets a new local initialised with it |
| SkslInliner.Inliner.MapArguments | src/sksl/SkSLInliner.cpp:617-635 | every parameter is mapped to its argument's own variable when reused, else to a new local with a distinct new name; the table grows by exactly those names and the declarations come in argument order |
| SkslInliner.Inliner.CopyBacks | src/sksl/SkSLInliner.cpp:659-678 | `arg = temp;` for each out parameter, in order, unless the argument is the variable standing for the parameter; each copy reads its temporary once |
| SkslInliner.Inliner.MakeResultVar | src/sksl/SkSLInliner.cpp:609-615 | a result variable named after the function exactly when it is not void, with its declaration, and the table grows by its name only |
| SkslInliner.Inliner.DeclareLocals | src/sksl/SkSLInliner.cpp:609-635 | the result variable, then the argument locals, with every new name unknown to the table and distinct |
| SkslInliner.Inliner.InlineCall | src/sksl/SkSLInliner.cpp:529-691 | the inlined block (marker, result declaration, argument locals, the body inlined by `inlineStatement`, copies back) and the replacement expression: a read of the result variable, or `false` for a void function; the result variable ends with one read and one write per `return` with a value in the body |
| SkslInliner.Inliner.InlineDefinition | src/sksl/SkSLInliner.cpp:545-691 | the same once the callee's definition is known, including the result variable's one read and one write per value return |
| SkslInliner.Inliner.FinishCall | src/sksl/SkSLInliner.cpp:659-690 | the copies back and the replacement expression |
| SkslInliner.CopyBackNeedsTemp | src/sksl/SkSLInliner.cpp:620-678 | with the reuse rule a copy back happens exactly for an out parameter whose argument is not a variable, into a new local, so no two copies read the same local |
| SkslInliner.TempDeclsLength | src/sksl/SkSLInliner.cpp:557-561 | at most one declaration per argument, fewer when an argument is reused |
| SkslInliner.CopyBackStmtsLength | src/sksl/SkSLInliner.cpp:557-561 | at most one copy back per out parameter |
| SkslInliner.InlineCallBodyLayout | src/sksl/SkSLInliner.cpp:556-657 | the block is laid out marker, result, argument locals, inlined code, copies back; it fits the reserved room; the inlined code is a do-while(false) exactly when the function returns early, never when do loops are unavailable |
| SkslInliner.EnsureScopedBlocks | src/sksl/SkSLInliner.cpp:199-229 | under an if, for, do or while, the block gains a scope exactly when the chain of single-statement blocks reaches an unscoped block of zero or several statements before a scoped block or a non-block; nothing else changes |
| SkslInliner.EnsureScopedBlocksSettles | src/sksl/SkSLInliner.cpp:199-229 | a second call changes nothing |
| SkslInliner.ParentStatementIsNearest | src/sksl/SkSLInliner.cpp:238-256 | the parent is the nearest statement below the top that is not an unscoped block; none exactly when only unscoped blocks lie below |
| SkslInliner.FindParentStatement | src/sksl/SkSLInliner.cpp:238-256 | the loop from back to front finds that parent |
| SkslInliner.ExprCallsAreCalls | src/sksl/SkSLInliner.cpp:972-979 | every candidate found in an expression is a function call |
| SkslInliner.StmtCallsAreCalls | src/sksl/SkSLInliner.cpp:775-917 | every candidate found in a statement is a function call |
| SkslInliner.ShortCircuitRightIgnored | src/sksl/SkSLInliner.cpp:939-957 | nothing in the right operand of `&&` or `||` becomes a candidate |
| SkslInliner.TernaryBranchesIgnored | src/sksl/SkSLInliner.cpp:1001-1011 | only the test of a ternary is searched |
| SkslInliner.LoopTestsIgnored | src/sksl/SkSLInliner.cpp:807-854 | the tests of do and while loops and a for loop's test and increment are never searched |
| SkslInliner.StmtCandidatesCalls | src/sksl/SkSLInliner.cpp:775-917 | the stacks decide only where a candidate is recorded, never which calls are candidates |
| SkslInliner.ElementListCandidatesAreCalls | src/sksl/SkSLInliner.cpp:1028-1030 | the analyzer's candidates are all function calls, as analyze relies on |
| SkslInliner.CandidateAnalyzer.constructor | src/sksl/SkSLInliner.cpp:740-750 | no candidates and empty stacks |
| SkslInliner.CandidateAnalyzer.Visit | src/sksl/SkSLInliner.cpp:752-760 | appends the candidates of every element, and leaves both stacks empty |
| SkslInliner.CandidateAnalyzer.VisitProgramElement | src/sksl/SkSLInliner.cpp:762-773 | only a function definition's body is searched |
| SkslInliner.CandidateAnalyzer.VisitStatement | src/sksl/SkSLInliner.cpp:775-917 | appends the statement's candidates, its slot pushed first when viable, and restores both stacks |
| SkslInliner.CandidateAnalyzer.VisitStatementKind | src/sksl/SkSLInliner.cpp:788-912 | the switch over the statement's kind appends its candidates and restores both stacks |
| SkslInliner.CandidateAnalyzer.VisitSwitch | src/sksl/SkSLInliner.cpp:867-881 | the switch value, then each case's statements, in the switch's own table when it has one |
| SkslInliner.CandidateAnalyzer.VisitFor | src/sksl/SkSLInliner.cpp:827-854 | the initializer, not viable as an enclosing statement, then the body |
| SkslInliner.CandidateAnalyzer.VisitIf | src/sksl/SkSLInliner.cpp:855-861 | the test, then both branches |
| SkslInliner.CandidateAnalyzer.VisitStatements | src/sksl/SkSLInliner.cpp:796-806 | the candidates of each statement of a list, at consecutive paths |
| SkslInliner.CandidateAnalyzer.VisitCases | src/sksl/SkSLInliner.cpp:874-880 | the candidates of each case's statements |
| SkslInliner.CandidateAnalyzer.VisitExpression | src/sksl/SkSLInliner.cpp:919-1012 | appends the candidates of the expression at the current site and restores both stacks |
| SkslInliner.CandidateAnalyzer.VisitBinary | src/sksl/SkSLInliner.cpp:939-957 | the left operand, and the right one only when the operator does not short-circuit |
| SkslInliner.CandidateAnalyzer.VisitFunctionCall | src/sksl/SkSLInliner.cpp:972-979 | the arguments first, then the call itself |
| SkslInliner.CandidateAnalyzer.VisitIndex | src/sksl/SkSLInliner.cpp:980-985 | the base, then the index |
| SkslInliner.CandidateAnalyzer.VisitExpressions | src/sksl/SkSLInliner.cpp:958-971 | the candidates of each argument in order |
| SkslInliner.CandidateAnalyzer.AddInlineCandidate | src/sksl/SkSLInliner.cpp:1014-1019 | records the call with the top table, the parent statement and the top slot |
| SkslInliner.SelectSound | src/sksl/SkSLInliner.cpp:1044-1058 | everything picked is a candidate with an inlinable callee at an enclosing statement not yet used |
| SkslInliner.InlinableNotRecursive | src/sksl/SkSLInliner.cpp:1031-1037 | an inlinable callee has a definition, no recursive call, and is safe under the threshold its call count chooses |
| SkslInliner.SelectDistinct | src/sksl/SkSLInliner.cpp:1053-1058 | no two picked candidates share an enclosing statement |
| SkslInliner.SelectMaximal | src/sksl/SkSLInliner.cpp:1044-1058 | every inlinable candidate left out has an enclosing statement already taken before the pass or used by a pick |
| SkslInliner.SelectEmptyIff | src/sksl/SkSLInliner.cpp:1044-1086 | a pass changes something exactly when some candidate's callee is inlinable |
| SkslInliner.BuildInlinableMap | src/sksl/SkSLInliner.cpp:1027-1039 | one entry per callee, each saying whether it is inlinable |
| SkslInliner.PickCandidates | src/sksl/SkSLInliner.cpp:1041-1086 | picks the candidates the selection names, and reports a change exactly when it picked one |
| SkslInliner.Analyze | src/sksl/SkSLInliner.cpp:727-1087 | collects the candidates, which are all calls, picks in order those with an inlinable callee at a fresh enclosing statement, and reports a change exactly when it picked one |

## Left out

- Points, radii, stroke widths and matrix scales are exact reals or integer pairs. The floating-point geometry of the patch builder is the oracle `StrokePatchBuilder.Curves`, not a computation:
  - Wang's formula, rotation measurement;
  - the radial-segment and parametric-segment budgets computed with `acos` and `ceil` at the start of `addPath` (`GrStrokePatchBuilder.cpp:151-164`);
  - where to chop and the chopping depth bound;
  - the square cap's end point.
- The GLSL generation and shader-side geometry of the stroke tessellation shader are left out; only the `Patch` record and its type codes are modelled.
- `StrokePatchBuilder.StrokePatchBuilder.constructor` follows the three-argument call the op makes (`GrTessellateStrokeOp.cpp:112`): target, chunk array and verb count. The header's four-argument constructor (`GrStrokePatchBuilder.h:46-52`) also takes a `matrixScale`. That value only feeds the linearization intolerance, which the `Curves` oracle stands for, so the model has no such parameter. The maximum tessellation segment count from the target's caps is likewise part of the oracle.
- The draw target's vertex allocator is a function from the requested patch count to the capacity it grants, or to a failure. Memory, buffers and vertex writes are abstract.
- `TessellateStrokeOp` leaves out several parts of the op:
  - `transform_path` (`GrTessellateStrokeOp.cpp:14-21`); paths are already in device space and the view matrix is the identity;
  - the view-matrix comparison in `onCombineIfPossible` (line 89);
  - the op's bounds (61-64);
  - `finalize` (75-82);
  - the drawing of chunks in `onExecute` (118-144).
- `TessellateStrokeOp.CannotMerge` and `TessellateStrokeOp.TessellateStrokeOp.CombineIfPossible`: miter limits are exact reals, so the test that both limits are non-zero (`GrTessellateStrokeOp.cpp:91`, `fMiterLimitOrZero * op->fMiterLimitOrZero != 0`) never underflows. In 32-bit floating point, two tiny non-zero limits such as 1e-23 and 2e-23 have a product that rounds to 0. The source then merges ops with different limits, and the receiver's miter strokes are drawn with the other op's limit (the `SkASSERT` at line 99 fails). The model does not capture that case: its `MiterLimitShared` invariant holds because real products of non-zero limits are non-zero.
- `StrokePatchBuilder.PreallocCount` and `TessellateStrokeOp.TessellateStrokeOp.CombineIfPossible`: verb counts are unbounded natural numbers. In the source they are 32-bit `int`: the merge adds them (`GrTessellateStrokeOp.cpp:102`) and the preallocation multiplies the total by 4 (`GrStrokePatchBuilder.h:54`), which overflows once the combined count exceeds 536,870,911 verbs. The model does not capture that overflow.
- `ViewCache`: the spin lock and thread-safety annotations are concurrency; every operation runs alone, as the lock makes it.
  - The hash table is a map from key to entry index.
  - The entry allocator is a sequence that only grows.
  - The cache's destructor is not modelled.
  - `DropAllRefs` recycles the entries in the table's order, which the hash table does not define. The model recycles them in an arbitrary order and proves that every one ends up on the free list, not which order the list has.
- `Swizzle`: the raster pipeline is the list of stages appended to it. What a stage does to pixels is not modelled.
- `SvgFeTurbulence`: the SVG module's attribute-parser class is not part of this model. `AttributeParser` stands in for it with a small token grammar of whitespace, scalars without exponents, integers and separators. Numbers are exact decimals, and integers (`numOctaves`, a 32-bit `int` in the SVG module) are unbounded: an out-of-range integer is not rejected or wrapped. `onMakeImageFilter` and rendering are left out. Initial values are those SVG 1.1 gives.
- `GnToBp`:
  - The GN subprocess, temporary directory, JSON loading, `execfile` and file writes are I/O and dynamic evaluation. The dependency walk starts from an already-loaded target table, `GetArchSources` from an already-evaluated dictionary, and the header is a list of lines.
  - `GnToBp.GrabDependentValues`: the source updates the caller's `list_to_extend` in place (`gn_to_bp_utils.py:44`), so a `KeyError` raised deep in the walk leaves it partly updated. The model returns a new set, or the error and no set; the partial update is not captured.
  - `GnToBp.WriteUserConfig`: the source removes entries from the caller's `defines` (`gn_to_bp_utils.py:104-109`), so when `SKIA_IMPLEMENTATION=1` is missing, `NDEBUG` has already been removed as the `KeyError` is raised. The model computes the remaining defines as a new value and does not capture that side effect on the caller's set.
  - The Python recursion limit is an explicit `limit` parameter whose exhaustion is `RecursionError`.
  - `$_src` replacement is one pass over the string, as `str.replace` is; a `$_$_src` leaves `$_src` behind, so no claim that no `$_src` remains is made.
- `SkslAnalysis`:
  - `SampleUsage::merge` is not part of this model. `GetSampleUsage` returns the sequence of usages merged, in visiting order.
  - `ReferencesSampleCoords` and `ReferencesFragCoords` (`SkSLAnalysis.cpp:224-230`) are `ReferencesBuiltin` applied to two fixed builtin numbers. Those numbers are defined in the compiler's header, which is not part of this model. `ReferencesBuiltinIff` covers them for any number.
- `SkslConstructor.ConstantPropagate`: SkSL integer literals are unbounded integers and float literals are exact reals, so the folded float literal holds the integer's value exactly. The source converts an `int64_t` to the `double` of `FloatLiteral` (`SkSLConstructor.h:41-44`), which rounds above 2^53; for example 2^63-1 becomes 2^63. That rounding is not captured.
- `SkslConstructor.GetVecComponent`: the integer and floating-point instantiations of `getVecComponent` (`SkSLConstructor.h:110-119`) are one real-valued function. When an integer vector is built from a float constructor (or a negated one), the source converts the nested float component to the integer type (`type(constructor.getVecComponent<SKSL_FLOAT>(...))`, `SkSLConstructor.h:172-176` and `192-197`), which truncates it; the model returns the unrounded value.
- `SkslExpressions`: the queries of expression kinds other than constructors and binary expressions come from a caller-supplied `LeafFacts` value.
- Cloning is a pure copy. In the source every `clone()` builds new `VariableReference` nodes, and each one raises its variable's read and write counts as `VariableReference`'s constructor does (`SkSLVariableReference.cpp:17-27`). The model does not capture those increments for these members:
  - `SkslExpressions.Clone`, `SkslExpressions.CloneList`, `SkslExpressions.CloneIsCopy` and `SkslExpressions.CloneListIsCopy`: the expression clones reached from `Constructor::clone` (`SkSLConstructor.h:65-72`) and `BinaryExpression::clone` (`SkSLBinaryExpression.h:80-83`);
  - `SkslConstructor.CloneLoop`: the argument clones;
  - `SkslVarDeclarations.CloneLoop`: the clones of the sizes and the value (`SkSLVarDeclarations.h:36-48`);
  - `SkslVarDeclarations.GlobalClone`: the nested declaration's clone;
  - `SkslInliner.Inliner.MakeInlineVar`: an `out` parameter's local starts from a clone of the argument (`SkSLInliner.cpp:592-596`), whose references' counts are not raised;
  - `SkslInliner.Inliner.CopyBacks`: each copy back assigns to a clone of the argument (`SkSLInliner.cpp:673`). The write that clone adds to the caller's variable is not counted, and that variable is not in the method's `modifies` clause.
  So `SkslVariableReference.CountsFollowLiveReferences` covers the references made by `MakeReference`, not those made by cloning.
- `SkslInliner`:
  - `inlineExpression` and the two declaration cases of `inlineStatement` (which rename the declared variable and add it to the map) are the `InlineRewrite` parameter of `InlineCall`; every other case of `inlineStatement`, the `return` case included, is modelled by `InlineStatement`. The map is fixed for the whole body, so the model does not capture that a declaration's new name applies only to the statements after it.
  - `SkslInliner.Inliner.InlineCall` and `SkslInliner.Inliner.InlineDefinition` track the reference counts of the result variable only. The counts that the rewritten expressions add to the argument locals and to renamed variables are not tracked, because `inlineExpression` is a parameter.
  - A `void` function is taken to hold no `return` with a value, which the type checker guarantees before inlining; the source would dereference the missing result variable.
  - `copy_if_needed` is left out; array types are not copied.
  - The replacement of statement and expression slots in `analyze` is left out. `Analyze` returns the candidates it would replace, in order.
  - The symbol table is its set of names.
- Files of the repository that only declare, render, or talk to the GPU or the platform are not part of this model.
