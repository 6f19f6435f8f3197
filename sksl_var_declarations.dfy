/**
 * `VarDeclaration` (one declared variable, as a statement) and `GlobalVarDeclaration`
 * (the program element that wraps one at global scope): their descriptions and clones.
 */
module SkslVarDeclarations {
  import opened Wrappers
  import opened SkslIR
  import opened SkslExpressions

  /** "[size]" for each given size and "[]" for each omitted one, in order. */
  function SizesDescription(sizes: seq<Option<Expr>>, f: LeafFacts): string
    decreases |sizes|
  {
    if sizes == [] then ""
    else
      var last := sizes[|sizes| - 1];
      SizesDescription(sizes[..|sizes| - 1], f) + (if last.Some? then "[" + Description(last.value, f) + "]" else "[]")
  }

  /**
   * The description of a declaration: the variable's modifiers, the base type, a space
   * and the name; then one bracket pair per size; then " = " and the value if there is
   * one; then ";".
   */
  function DeclarationDescription(s: Statement, f: LeafFacts): string
    requires s.VarDeclaration?
  {
    s.variable.modifiers.text + s.baseType.name + " " + s.variable.name + SizesDescription(s.sizes, f) +
    (if s.declValue.Some? then " = " + Description(s.declValue.value, f) else "") + ";"
  }

  /** `VarDeclaration::description` as the loop the source runs. */
  method DescriptionLoop(s: Statement, f: LeafFacts) returns (result: string)
    requires s.VarDeclaration?
    ensures result == DeclarationDescription(s, f)
    ensures |result| > 0 && result[|result| - 1] == ';'
  {
    var head := s.variable.modifiers.text + s.baseType.name + " " + s.variable.name;
    result := head;
    for i := 0 to |s.sizes|
      invariant result == head + SizesDescription(s.sizes[..i], f)
    {
      assert s.sizes[..i + 1][..i] == s.sizes[..i];
      if s.sizes[i].Some? {
        result := result + "[" + Description(s.sizes[i].value, f) + "]";
      } else {
        result := result + "[]";
      }
    }
    assert s.sizes[..|s.sizes|] == s.sizes;
    if s.declValue.Some? {
      result := result + " = " + Description(s.declValue.value, f);
    }
    result := result + ";";
  }

  /** `const int a[2][] = b;`: a given size, an omitted size and a value. */
  lemma {:induction false} DescriptionExample(x: Variable, two: Expr, b: Expr, f: LeafFacts)
    requires x.name == "a" && x.modifiers.text == "const "
    requires f.description(two) == "2" && !two.node.Constructor? && !two.node.Binary?
    requires f.description(b) == "b" && !b.node.Constructor? && !b.node.Binary?
    ensures DeclarationDescription(VarDeclaration(x, Type("int", Scalar, SignedNumber, 1, 1), [Some(two), None], Some(b)), f)
            == "const int a[2][] = b;"
  {
    var sizes := [Some(two), None];
    assert sizes[..1] == [Some(two)];
    assert [Some(two)][..0] == [];
    assert Description(two, f) == "2";
    assert "" + "[" + "2" + "]" == "[2]";
    assert SizesDescription([Some(two)], f) == "[2]";
    assert "[2]" + "[]" == "[2][]";
    assert SizesDescription(sizes, f) == "[2][]";
    assert Description(b, f) == "b";
  }

  /**
   * `VarDeclaration::clone`: the same variable and base type, a clone of each size with
   * omitted sizes kept omitted, and a clone of the value if there is one. The clone is
   * the same declaration.
   */
  method CloneLoop(s: Statement) returns (r: Statement)
    requires s.VarDeclaration?
    ensures r.VarDeclaration? && r.variable == s.variable && r.baseType == s.baseType
    ensures |r.sizes| == |s.sizes| && forall i :: 0 <= i < |s.sizes| ==> (r.sizes[i].None? <==> s.sizes[i].None?)
    ensures r.declValue.Some? <==> s.declValue.Some?
    ensures r == s
  {
    var sizesClone: seq<Option<Expr>> := [];
    for i := 0 to |s.sizes|
      invariant sizesClone == s.sizes[..i]
    {
      if s.sizes[i].Some? {
        CloneIsCopy(s.sizes[i].value);
        sizesClone := sizesClone + [Some(Clone(s.sizes[i].value))];
      } else {
        sizesClone := sizesClone + [None];
      }
    }
    assert s.sizes[..|s.sizes|] == s.sizes;
    var value: Option<Expr> := None;
    if s.declValue.Some? {
      CloneIsCopy(s.declValue.value);
      value := Some(Clone(s.declValue.value));
    }
    r := VarDeclaration(s.variable, s.baseType, sizesClone, value);
  }

  /** A declaration at global scope. */
  datatype GlobalVarDeclaration = GlobalVarDeclaration(offset: int, decl: Statement)

  /** The `GlobalVarDeclaration` constructor: it may only wrap a single variable declaration. */
  function MakeGlobal(offset: int, decl: Statement): (g: GlobalVarDeclaration)
    requires decl.VarDeclaration?
    ensures g.offset == offset && g.decl == decl && g.decl.VarDeclaration?
  {
    GlobalVarDeclaration(offset, decl)
  }

  /** A global describes itself as the declaration it wraps. */
  function GlobalDescription(g: GlobalVarDeclaration, f: LeafFacts): (r: string)
    requires g.decl.VarDeclaration?
    ensures r == DeclarationDescription(g.decl, f) && r[|r| - 1] == ';'
  {
    DeclarationDescription(g.decl, f)
  }

  /** A global's clone wraps a clone of its declaration at the same offset. */
  method GlobalClone(g: GlobalVarDeclaration) returns (r: GlobalVarDeclaration)
    requires g.decl.VarDeclaration?
    ensures r.offset == g.offset && r.decl.VarDeclaration? && r == g
  {
    var d := CloneLoop(g.decl);
    r := MakeGlobal(g.offset, d);
  }
}
