/**
 * The Android build-translation helpers of gn/gn_to_bp_utils.py: the transitive
 * dependency walk, compiler-flag curation, `$_src` substitution in per-architecture
 * source lists, and the line layout of the generated SkUserConfig.h header.
 *
 * The GN subprocess, JSON loading, `execfile` and file writes are not modelled: the walk
 * starts from an already-loaded target table, `GetArchSources` from an already-evaluated
 * dictionary, and the header is produced as a list of lines.
 */
module GnToBp {
  import opened Wrappers
  import opened Strings

  /** One record of `js['targets']`: its `deps` list and its attribute lists by name. */
  datatype Target = Target(deps: seq<string>, values: map<string, seq<string>>)

  /** `js['targets']`. */
  type Project = map<string, Target>

  /** The Python exceptions the helpers can raise. */
  datatype Error = KeyError(key: string) | RecursionError | AssertionError

  /** `js['targets'][dep].get(value_type, [])`. */
  function ValuesOf(t: Target, valueType: string): seq<string> {
    if valueType in t.values then t.values[valueType] else []
  }

  /** `_strip_slash`: the set of the values with every leading '/' removed. */
  function StripSlash(lst: seq<string>): (r: set<string>)
    ensures forall p :: p in lst ==> LStrip(p, '/') in r
    ensures forall v :: v in r ==> (v == [] || v[0] != '/') && exists p :: p in lst && v == LStrip(p, '/')
  {
    set p | p in lst :: LStrip(p, '/')
  }

  /**
   * The walk does not collect from, nor descend into, a dependency whose name contains
   * 'third_party' or 'none', or the caller's non-empty `exclude` ("" stands for no exclusion).
   */
  predicate Skipped(dep: string, exclude: string) {
    Contains(dep, "third_party") || Contains(dep, "none") || (exclude != "" && Contains(dep, exclude))
  }

  function Extend(acc: set<string>, g: Result<set<string>, Error>): Result<set<string>, Error> {
    match g
    case Ok(s) => Ok(acc + s)
    case Err(e) => Err(e)
  }

  /**
   * What one iteration of the loop of `GrabDependentValues` adds for `dep`: nothing for a
   * skipped dependency; otherwise its stripped values and, through the nested call,
   * everything below it. `limit` is the number of further nested calls the Python
   * interpreter allows before it raises RecursionError; this is also what ends the walk
   * on a cyclic dependency graph.
   */
  function Visit(js: Project, dep: string, valueType: string, exclude: string, limit: nat)
    : Result<set<string>, Error>
    decreases limit, 0
  {
    if Skipped(dep, exclude) then Ok({})
    else if dep !in js then Err(KeyError(dep))
    else if limit == 0 then Err(RecursionError)
    else Extend(StripSlash(ValuesOf(js[dep], valueType)), Collect(js, js[dep].deps, valueType, exclude, limit - 1))
  }

  /** What the loop of `GrabDependentValues` adds for the dependency list `deps`, in order. */
  function Collect(js: Project, deps: seq<string>, valueType: string, exclude: string, limit: nat)
    : Result<set<string>, Error>
    decreases limit, |deps| + 1
  {
    if deps == [] then Ok({})
    else
      match Visit(js, deps[0], valueType, exclude, limit)
      case Err(e) => Err(e)
      case Ok(s) => Extend(s, Collect(js, deps[1..], valueType, exclude, limit))
  }

  /** Everything `GrabDependentValues(js, name, ...)` adds to the accumulator. */
  function Grab(js: Project, name: string, valueType: string, exclude: string, limit: nat)
    : Result<set<string>, Error>
  {
    if name !in js then Err(KeyError(name)) else Collect(js, js[name].deps, valueType, exclude, limit)
  }

  lemma {:induction false} ExtendAssociative(a: set<string>, b: set<string>, g: Result<set<string>, Error>)
    ensures Extend(a, Extend(b, g)) == Extend(a + b, g)
  {
    if g.Ok? { assert a + (b + g.value) == a + b + g.value; }
  }

  /**
   * `GrabDependentValues`: unions into `acc` the stripped `valueType` values of every
   * non-skipped transitive dependency of `name`. The accumulator only grows. When the
   * source raises, the model returns the exception instead of a partly updated set.
   */
  method GrabDependentValues(js: Project, name: string, valueType: string, acc: set<string>,
                             exclude: string, limit: nat)
    returns (r: Result<set<string>, Error>)
    ensures r == Extend(acc, Grab(js, name, valueType, exclude, limit))
    ensures r.Ok? ==> acc <= r.value
    decreases limit
  {
    if name !in js {
      return Err(KeyError(name));
    }
    var deps := js[name].deps;
    var current := acc;
    var i := 0;
    while i < |deps|
      invariant 0 <= i <= |deps|
      invariant acc <= current
      invariant Extend(current, Collect(js, deps[i..], valueType, exclude, limit))
             == Extend(acc, Collect(js, deps, valueType, exclude, limit))
    {
      var dep := deps[i];
      assert deps[i..][0] == dep && deps[i..][1..] == deps[i + 1..];
      var later := Collect(js, deps[i + 1..], valueType, exclude, limit);
      if Skipped(dep, exclude) {
        ExtendAssociative(current, {}, later);
        assert current + {} == current;
        i := i + 1;
        continue;
      }
      if dep !in js {
        return Err(KeyError(dep));
      }
      var stripped := StripSlash(ValuesOf(js[dep], valueType));
      if limit == 0 {
        return Err(RecursionError);
      }
      var sub := GrabDependentValues(js, dep, valueType, current + stripped, exclude, limit - 1);
      if sub.Err? {
        return sub;
      }
      var below := Collect(js, js[dep].deps, valueType, exclude, limit - 1).value;
      ExtendAssociative(current, stripped + below, later);
      assert current + (stripped + below) == current + stripped + below;
      current := sub.value;
      i := i + 1;
    }
    assert deps[i..] == [] && current + {} == current;
    r := Ok(current);
  }

  /**
   * Every value the walk collects is, stripped of its leading '/', an attribute value of
   * some dependency that is not skipped; so nothing comes from a third-party, 'none' or
   * excluded target.
   */
  lemma {:induction false} CollectedFromNonSkipped(js: Project, deps: seq<string>, valueType: string,
                                                   exclude: string, limit: nat, v: string)
    requires Collect(js, deps, valueType, exclude, limit).Ok?
    requires v in Collect(js, deps, valueType, exclude, limit).value
    ensures v == [] || v[0] != '/'
    ensures exists d :: d in js && !Skipped(d, exclude) && v in StripSlash(ValuesOf(js[d], valueType))
    decreases limit, |deps|
  {
    var dep := deps[0];
    var here := Visit(js, dep, valueType, exclude, limit).value;
    if v in here {
      if v !in StripSlash(ValuesOf(js[dep], valueType)) {
        CollectedFromNonSkipped(js, js[dep].deps, valueType, exclude, limit - 1, v);
      }
    } else {
      CollectedFromNonSkipped(js, deps[1..], valueType, exclude, limit, v);
    }
  }

  /** The dependencies of `deps` that the walk does not skip, in order. */
  function Unskipped(deps: seq<string>, exclude: string): (r: seq<string>)
    ensures forall d :: d in r ==> d in deps && !Skipped(d, exclude)
  {
    if deps == [] then []
    else if Skipped(deps[0], exclude) then Unskipped(deps[1..], exclude)
    else [deps[0]] + Unskipped(deps[1..], exclude)
  }

  /**
   * Skipped dependencies are neither collected nor recursed into: the walk over `deps`
   * gives the same outcome, error or set, as the walk over its unskipped dependencies
   * alone, even when a skipped name is missing from the target table.
   */
  lemma {:induction false} SkippedDependenciesIgnored(js: Project, deps: seq<string>, valueType: string,
                                                      exclude: string, limit: nat)
    ensures Collect(js, deps, valueType, exclude, limit)
         == Collect(js, Unskipped(deps, exclude), valueType, exclude, limit)
    decreases |deps|
  {
    if deps != [] {
      SkippedDependenciesIgnored(js, deps[1..], valueType, exclude, limit);
      var rest := Collect(js, deps[1..], valueType, exclude, limit);
      if Skipped(deps[0], exclude) {
        assert Extend({}, rest) == rest by {
          if rest.Ok? { assert {} + rest.value == rest.value; }
        }
      } else {
        var u := [deps[0]] + Unskipped(deps[1..], exclude);
        assert u[0] == deps[0] && u[1..] == Unskipped(deps[1..], exclude);
      }
    }
  }

  /**
   * Completeness for one step: once the walk succeeds, it holds the stripped values of
   * every unskipped direct dependency and everything collected below that dependency.
   */
  lemma {:induction false} DirectDependencyCollected(js: Project, deps: seq<string>, valueType: string,
                                                     exclude: string, limit: nat, dep: string)
    requires Collect(js, deps, valueType, exclude, limit).Ok?
    requires dep in deps && !Skipped(dep, exclude)
    ensures dep in js && limit > 0
    ensures Collect(js, js[dep].deps, valueType, exclude, limit - 1).Ok?
    ensures StripSlash(ValuesOf(js[dep], valueType)) + Collect(js, js[dep].deps, valueType, exclude, limit - 1).value
            <= Collect(js, deps, valueType, exclude, limit).value
    decreases |deps|
  {
    if deps[0] != dep {
      DirectDependencyCollected(js, deps[1..], valueType, exclude, limit, dep);
    }
  }

  /** A walk that succeeds within a recursion limit gives the same set under any larger one. */
  lemma {:induction false} CollectLimitIrrelevant(js: Project, deps: seq<string>, valueType: string,
                                                  exclude: string, limit: nat)
    requires Collect(js, deps, valueType, exclude, limit).Ok?
    ensures Collect(js, deps, valueType, exclude, limit + 1) == Collect(js, deps, valueType, exclude, limit)
    decreases limit, |deps| + 1
  {
    if deps != [] {
      assert Visit(js, deps[0], valueType, exclude, limit).Ok?;
      VisitLimitIrrelevant(js, deps[0], valueType, exclude, limit);
      assert Collect(js, deps[1..], valueType, exclude, limit).Ok?;
      CollectLimitIrrelevant(js, deps[1..], valueType, exclude, limit);
    }
  }

  /** The same for one dependency. */
  lemma {:induction false} VisitLimitIrrelevant(js: Project, dep: string, valueType: string, exclude: string, limit: nat)
    requires Visit(js, dep, valueType, exclude, limit).Ok?
    ensures Visit(js, dep, valueType, exclude, limit + 1) == Visit(js, dep, valueType, exclude, limit)
    decreases limit, 0
  {
    if !Skipped(dep, exclude) {
      CollectLimitIrrelevant(js, js[dep].deps, valueType, exclude, limit - 1);
    }
  }

  /** The warning-suppression flags added for third_party/vulkanmemoryallocator. */
  const Suppressions: set<string> := {
    "-Wno-implicit-fallthrough",
    "-Wno-missing-field-initializers",
    "-Wno-thread-safety-analysis",
    "-Wno-unused-variable"
  }

  /** The build-mode flags `CleanupCFlags` always adds. */
  const BuildFlags: set<string> := {
    "-fvisibility=hidden",
    "-D_FORTIFY_SOURCE=1",
    "-DSKIA_DLL",
    "-DSKIA_IMPLEMENTATION=1",
    "-DATRACE_TAG=ATRACE_TAG_VIEW"
  }

  const UndefineFortify: string := "-U_FORTIFY_SOURCE"

  /** `{s for s in flags if s.startswith('-W')}`. */
  function WarningFlags(flags: seq<string>): (r: set<string>)
    ensures forall s :: s in r <==> s in flags && StartsWith(s, "-W")
  {
    set s | s in flags && StartsWith(s, "-W")
  }

  lemma {:induction false} UndefineFortifyNotCurated(cflags: seq<string>)
    ensures UndefineFortify !in WarningFlags(cflags) + Suppressions + BuildFlags
  {
    assert UndefineFortify[1] == 'U';
    assert !StartsWith(UndefineFortify, "-W");
  }

  /**
   * `CleanupCFlags`: "-U_FORTIFY_SOURCE" first, then, strictly sorted and without
   * duplicates, exactly the input's warning flags, the suppressions and the build flags.
   */
  function CleanupCFlags(cflags: seq<string>): (r: seq<string>)
    ensures |r| >= 1 && r[0] == UndefineFortify
    ensures StrictlySorted(r[1..])
    ensures forall x :: x in r[1..] <==> (x in cflags && StartsWith(x, "-W")) || x in Suppressions || x in BuildFlags
    ensures UndefineFortify !in r[1..]
  {
    var sorted := SortedSet(WarningFlags(cflags) + Suppressions + BuildFlags);
    UndefineFortifyNotCurated(cflags);
    assert ([UndefineFortify] + sorted)[1..] == sorted;
    [UndefineFortify] + sorted
  }

  /** `CleanupCCFlags`: the input's warning flags plus "-fexceptions", and nothing else. */
  function CleanupCCFlags(cflagsCc: seq<string>): (r: set<string>)
    ensures "-fexceptions" in r
    ensures forall x :: x in r <==> (x in cflagsCc && StartsWith(x, "-W")) || x == "-fexceptions"
  {
    WarningFlags(cflagsCc) + {"-fexceptions"}
  }

  /**
   * `_get_path_info`, the one builtin the architecture file may call: it accepts exactly
   * ("../src", "abspath") and answers "src"; any other call fails an assertion.
   */
  function GetPathInfo(path: string, kind: string): (r: Result<string, Error>)
    ensures r.Ok? <==> path == "../src" && kind == "abspath"
    ensures r.Ok? ==> r.value == "src"
    ensures r.Err? ==> r.error == AssertionError
  {
    if path != "../src" then Err(AssertionError)
    else if kind != "abspath" then Err(AssertionError)
    else Ok("src")
  }

  /** Python's `s.replace(pat, rep)`: every non-overlapping occurrence, scanning left to right. */
  function ReplaceAll(s: string, pat: string, rep: string): string
    requires |pat| > 0
    decreases |s|
  {
    if |s| < |pat| then s
    else if s[..|pat|] == pat then rep + ReplaceAll(s[|pat|..], pat, rep)
    else [s[0]] + ReplaceAll(s[1..], pat, rep)
  }

  /** A string without the pattern is left as it is. */
  lemma {:induction false} ReplaceAllWithoutPattern(s: string, pat: string, rep: string)
    requires |pat| > 0 && !Contains(s, pat)
    ensures ReplaceAll(s, pat, rep) == s
    decreases |s|
  {
    if |s| >= |pat| {
      assert s == [s[0]] + s[1..];
      ReplaceAllWithoutPattern(s[1..], pat, rep);
    }
  }

  const SrcPlaceholder: string := "$_src"

  /** `[p.replace('$_src', 'src') for p in paths]`: same length and order, each path substituted. */
  function SubstituteSources(paths: seq<string>): (r: seq<string>)
    ensures |r| == |paths|
    ensures forall i :: 0 <= i < |paths| ==> r[i] == ReplaceAll(paths[i], SrcPlaceholder, "src")
    ensures forall i :: 0 <= i < |paths| && !Contains(paths[i], SrcPlaceholder) ==> r[i] == paths[i]
  {
    forall i | 0 <= i < |paths| && !Contains(paths[i], SrcPlaceholder)
      ensures ReplaceAll(paths[i], SrcPlaceholder, "src") == paths[i]
    {
      ReplaceAllWithoutPattern(paths[i], SrcPlaceholder, "src");
    }
    seq(|paths|, i requires 0 <= i < |paths| => ReplaceAll(paths[i], SrcPlaceholder, "src"))
  }

  /**
   * The substitution loop of `GetArchSources`, starting from the dictionary the
   * architecture file evaluated to: every architecture keeps its key and gets its paths
   * substituted, in order.
   */
  method GetArchSources(defs: map<string, seq<string>>) returns (r: map<string, seq<string>>)
    ensures r.Keys == defs.Keys
    ensures forall arch :: arch in defs ==> r[arch] == SubstituteSources(defs[arch])
  {
    r := defs;
    var todo := defs.Keys;
    while todo != {}
      invariant todo <= defs.Keys && r.Keys == defs.Keys
      invariant forall arch :: arch in defs && arch !in todo ==> r[arch] == SubstituteSources(defs[arch])
      invariant forall arch :: arch in todo ==> r[arch] == defs[arch]
      decreases todo
    {
      var arch :| arch in todo;
      r := r[arch := SubstituteSources(defs[arch])];
      todo := todo - {arch};
    }
  }

  /** The architecture-file example: `arm = ["$_src/a.cc", "$_src/b.cc"]` becomes src/a.cc, src/b.cc. */
  lemma ArmExample()
    ensures SubstituteSources(["$_src/a.cc", "$_src/b.cc"]) == ["src/a.cc", "src/b.cc"]
  {
    assert "$_src/a.cc" == SrcPlaceholder + "/a.cc" && "src" + "/a.cc" == "src/a.cc";
    assert "$_src/b.cc" == SrcPlaceholder + "/b.cc" && "src" + "/b.cc" == "src/b.cc";
    PlaceholderPath("/a.cc");
    PlaceholderPath("/b.cc");
    var r := SubstituteSources(["$_src/a.cc", "$_src/b.cc"]);
    assert r[0] == "src/a.cc" && r[1] == "src/b.cc";
    assert r == [r[0], r[1]];
  }

  /** A path of the form "$_src" + tail, where the tail has no '$', becomes "src" + tail. */
  lemma {:induction false} PlaceholderPath(tail: string)
    requires '$' !in tail
    ensures ReplaceAll(SrcPlaceholder + tail, SrcPlaceholder, "src") == "src" + tail
  {
    var p := SrcPlaceholder + tail;
    assert p[..5] == SrcPlaceholder && p[5..] == tail;
    NotContainsFirst(tail, SrcPlaceholder);
    ReplaceAllWithoutPattern(tail, SrcPlaceholder, "src");
  }

  /** The four header lines before the defines. */
  const Preamble: seq<string> := [
    "// DO NOT MODIFY! This file is autogenerated by gn_to_bp.py.",
    "// If need to change a define, modify SkUserConfigManual.h",
    "#pragma once",
    "#include \"SkUserConfigManual.h\""
  ]

  /** `define.split('=')[0]`: the text before the first '='. */
  function NamePart(d: string): (r: string)
    ensures StartsWith(d, r) && '=' !in r
    ensures |r| < |d| ==> d[|r|] == '='
  {
    if d == [] then []
    else if d[0] == '=' then []
    else [d[0]] + NamePart(d[1..])
  }

  /** `s.replace(a, b, 1)` for single characters: only the first `a` becomes `b`. */
  function ReplaceFirst(s: string, a: char, b: char): (r: string)
    ensures |r| == |s|
  {
    if s == [] then []
    else if s[0] == a then [b] + s[1..]
    else [s[0]] + ReplaceFirst(s[1..], a, b)
  }

  /** For a define without spaces, turning the first space back into '=' restores it. */
  lemma {:induction false} ReplaceFirstRoundTrip(d: string)
    requires ' ' !in d
    ensures ReplaceFirst(ReplaceFirst(d, '=', ' '), ' ', '=') == d
  {
    if d != [] && d[0] != '=' {
      assert ' ' !in d[1..] by { assert forall c :: c in d[1..] ==> c in d; }
      ReplaceFirstRoundTrip(d[1..]);
    }
  }

  /** The four lines emitted for one define. */
  function DefineBlock(d: string): seq<string> {
    ["", "#ifndef " + NamePart(d), "#define " + ReplaceFirst(d, '=', ' '), "#endif"]
  }

  function Blocks(ds: seq<string>): (r: seq<string>)
    ensures |r| == 4 * |ds|
  {
    if ds == [] then [] else DefineBlock(ds[0]) + Blocks(ds[1..])
  }

  lemma {:induction false} BlocksAppend(ds: seq<string>, d: string)
    ensures Blocks(ds + [d]) == Blocks(ds) + DefineBlock(d)
  {
    if ds == [] {
      assert ds + [d] == [d];
    } else {
      assert (ds + [d])[1..] == ds[1..] + [d];
      BlocksAppend(ds[1..], d);
    }
  }

  /** Block `i` of the emitted defines is the four lines for the `i`-th define. */
  lemma {:induction false} BlocksAt(ds: seq<string>, i: nat)
    requires i < |ds|
    ensures Blocks(ds)[4 * i..4 * i + 4] == DefineBlock(ds[i])
  {
    if i > 0 {
      BlocksAt(ds[1..], i - 1);
      assert Blocks(ds)[4 * i..4 * i + 4] == Blocks(ds[1..])[4 * (i - 1)..4 * (i - 1) + 4];
    }
  }

  /** The defines the Android build controls itself; none of them reaches the header. */
  const Removed: set<string> := {"NDEBUG", "SKIA_IMPLEMENTATION=1", "WIN32_LEAN_AND_MEAN", "_HAS_EXCEPTIONS=0"}

  /**
   * The lines `WriteUserConfig` writes: it raises KeyError unless both NDEBUG and
   * SKIA_IMPLEMENTATION=1 are present; otherwise the preamble and one block per remaining
   * define, in sorted order.
   */
  function UserConfig(defines: set<string>): (r: Result<seq<string>, Error>)
    ensures r.Err? <==> "NDEBUG" !in defines || "SKIA_IMPLEMENTATION=1" !in defines
    ensures r.Ok? ==> |r.value| == 4 + 4 * |defines - Removed| && r.value[..4] == Preamble
  {
    if "NDEBUG" !in defines then Err(KeyError("NDEBUG"))
    else if "SKIA_IMPLEMENTATION=1" !in defines then Err(KeyError("SKIA_IMPLEMENTATION=1"))
    else Ok(Preamble + Blocks(SortedSet(defines - Removed)))
  }

  /**
   * `WriteUserConfig` with the file replaced by the list of lines it prints: the two
   * unconditional removals, the two guarded ones, then the loop over the sorted defines.
   */
  method WriteUserConfig(defines: set<string>) returns (r: Result<seq<string>, Error>)
    ensures r == UserConfig(defines)
  {
    var remaining := defines;
    if "NDEBUG" !in remaining {
      return Err(KeyError("NDEBUG"));
    }
    remaining := remaining - {"NDEBUG"};
    if "SKIA_IMPLEMENTATION=1" !in remaining {
      return Err(KeyError("SKIA_IMPLEMENTATION=1"));
    }
    remaining := remaining - {"SKIA_IMPLEMENTATION=1"};
    if "WIN32_LEAN_AND_MEAN" in remaining {
      remaining := remaining - {"WIN32_LEAN_AND_MEAN"};
    }
    assert remaining == defines - {"NDEBUG", "SKIA_IMPLEMENTATION=1", "WIN32_LEAN_AND_MEAN"};
    if "_HAS_EXCEPTIONS=0" in remaining {
      remaining := remaining - {"_HAS_EXCEPTIONS=0"};
    }
    assert remaining == defines - Removed;
    var lines := PrintHeader(SortedSet(remaining));
    r := Ok(lines);
  }

  /** The printing loop of `WriteUserConfig`: the preamble, then one block per define, in order. */
  method PrintHeader(sorted: seq<string>) returns (lines: seq<string>)
    ensures lines == Preamble + Blocks(sorted)
  {
    lines := Preamble;
    for i := 0 to |sorted|
      invariant lines == Preamble + Blocks(sorted[..i])
    {
      BlocksAppend(sorted[..i], sorted[i]);
      assert sorted[..i + 1] == sorted[..i] + [sorted[i]];
      lines := lines + DefineBlock(sorted[i]);
    }
    assert sorted[..|sorted|] == sorted;
  }

  /** Reads back the define of every block after the preamble (the text of its `#define` line). */
  function ReadDefines(lines: seq<string>): seq<string>
    decreases |lines|
  {
    if |lines| < 4 then []
    else
      var defineLine := lines[2];
      var text := if StartsWith(defineLine, "#define ") then defineLine[8..] else defineLine;
      [ReplaceFirst(text, ' ', '=')] + ReadDefines(lines[4..])
  }

  /**
   * Round trip: when no define contains a space, reading the header back gives exactly the
   * remaining defines, each once, in sorted order; none of the removed four is among them.
   */
  lemma {:induction false} UserConfigRoundTrip(defines: set<string>)
    requires UserConfig(defines).Ok?
    requires forall d :: d in defines ==> ' ' !in d
    ensures ReadDefines(UserConfig(defines).value[4..]) == SortedSet(defines - Removed)
    ensures forall d :: d in ReadDefines(UserConfig(defines).value[4..]) ==> d in defines && d !in Removed
  {
    var sorted := SortedSet(defines - Removed);
    assert UserConfig(defines).value[4..] == Blocks(sorted);
    ReadBlocks(sorted);
  }

  lemma {:induction false} ReadBlocks(ds: seq<string>)
    requires forall d :: d in ds ==> ' ' !in d
    ensures ReadDefines(Blocks(ds)) == ds
  {
    if ds != [] {
      var b := Blocks(ds);
      assert b[..4] == DefineBlock(ds[0]) && b[4..] == Blocks(ds[1..]);
      var line := "#define " + ReplaceFirst(ds[0], '=', ' ');
      assert StartsWith(line, "#define ") && line[8..] == ReplaceFirst(ds[0], '=', ' ');
      ReplaceFirstRoundTrip(ds[0]);
      ReadBlocks(ds[1..]);
    }
  }

  /**
   * The header for {"FOO", "BAR=1", "NDEBUG", "SKIA_IMPLEMENTATION=1"}: BAR's block comes
   * before FOO's, and NDEBUG does not appear. (Without SKIA_IMPLEMENTATION=1 the source
   * raises KeyError instead.)
   */
  lemma HeaderExample()
    ensures UserConfig({"FOO", "BAR=1", "NDEBUG", "SKIA_IMPLEMENTATION=1"})
         == Ok(Preamble + ["", "#ifndef BAR", "#define BAR 1", "#endif", "", "#ifndef FOO", "#define FOO", "#endif"])
    ensures UserConfig({"FOO", "BAR=1", "NDEBUG"}) == Err(KeyError("SKIA_IMPLEMENTATION=1"))
  {
    ExampleRemaining();
    ExampleSorted();
    ExampleBlocks();
  }

  lemma ExampleRemaining()
    ensures {"FOO", "BAR=1", "NDEBUG", "SKIA_IMPLEMENTATION=1"} - Removed == {"FOO", "BAR=1"}
  {
  }

  lemma ExampleSorted()
    ensures SortedSet({"FOO", "BAR=1"}) == ["BAR=1", "FOO"]
  {
    assert Less("BAR=1", "FOO");
    SortedSetUnique(SortedSet({"FOO", "BAR=1"}), ["BAR=1", "FOO"]);
  }

  lemma ExampleBlocks()
    ensures Blocks(["BAR=1", "FOO"]) == ["", "#ifndef BAR", "#define BAR 1", "#endif", "", "#ifndef FOO", "#define FOO", "#endif"]
  {
    assert NamePart("BAR=1") == "BAR" && ReplaceFirst("BAR=1", '=', ' ') == "BAR 1";
    assert "#ifndef " + "BAR" == "#ifndef BAR" && "#define " + "BAR 1" == "#define BAR 1";
    assert NamePart("FOO") == "FOO" && ReplaceFirst("FOO", '=', ' ') == "FOO";
    assert "#ifndef " + "FOO" == "#ifndef FOO" && "#define " + "FOO" == "#define FOO";
    assert ["BAR=1", "FOO"][1..] == ["FOO"] && ["FOO"][1..] == [];
    assert Blocks(["FOO"]) == DefineBlock("FOO") + Blocks([]);
  }


  /** Two strictly sorted sequences with the same members are equal: sorted output is determined. */
  lemma {:induction false} SortedSetUnique(a: seq<string>, b: seq<string>)
    requires StrictlySorted(a) && StrictlySorted(b)
    requires forall x :: x in a <==> x in b
    ensures a == b
    decreases |a|
  {
    if a != [] { assert a[0] in a; }
    if b != [] { assert b[0] in b; }
    if a != [] {
      SortedTail(a);
      SortedTail(b);
      LessAntisymmetric(a[0], b[0]);
      LessIrreflexive(a[0]);
      assert a[0] == b[0];
      SortedSetUnique(a[1..], b[1..]);
      assert a == [a[0]] + a[1..] && b == [b[0]] + b[1..];
    }
  }

}
