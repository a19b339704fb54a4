/** flake.nix of the state directory: which inputs it declares, and whether its
    output imports the agenix module. */
module FlakeFile {
  import opened Sorting
  import opened NixLiteral
  import opened IndexFile

  datatype FlakeInput = FlakeInput(name: string, url: string, followsNixpkgs: bool)

  /** One declaration of the inputs block: the pinned nixpkgs, nixbox's own agenix, or
      one of the user's inputs. */
  datatype Declaration = Nixpkgs | BuiltinAgenix | User(input: FlakeInput)

  function DeclaredName(d: Declaration): string {
    match d
    case Nixpkgs => "nixpkgs"
    case BuiltinAgenix => "agenix"
    case User(input) => input.name
  }

  predicate FollowsNixpkgs(d: Declaration) {
    d.BuiltinAgenix? || (d.User? && d.input.followsNixpkgs)
  }

  // ---- The lines of the file ----

  function Line(indent: string, l: string): string {
    indent + l + "\n"
  }

  function Attribute(indent: string, key: string, value: string): string {
    indent + key + " = " + value + ";\n"
  }

  function Opening(indent: string, key: string, value: string): string {
    indent + key + " = " + value + "\n"
  }

  function Closing(indent: string): string {
    indent + "};\n"
  }

  function Quoted(plain: string): string {
    "\"" + plain + "\""
  }

  function AgenixText(): string {
    Attribute("      ", "url", Quoted("github:ryantm/agenix"))
    + Attribute("      ", "inputs.nixpkgs.follows", Quoted("nixpkgs"))
    + Attribute("      ", "inputs.darwin.follows", Quoted(""))
    + Attribute("      ", "inputs.home-manager.follows", Quoted(""))
  }

  function UserText(input: FlakeInput): string {
    if input.followsNixpkgs then
      Attribute("    ", AttrName(input.name), "{ url = " + NixStr(input.url) + "; inputs.nixpkgs.follows = \"nixpkgs\"; }")
    else
      Attribute("    ", AttrName(input.name) + ".url", NixStr(input.url))
  }

  function DeclarationText(d: Declaration): string {
    match d
    case Nixpkgs => Attribute("    ", "nixpkgs.url", Quoted("github:NixOS/nixpkgs/nixos-unstable"))
    case BuiltinAgenix => Opening("    ", "agenix", "{") + AgenixText() + Closing("    ")
    case User(input) => UserText(input)
  }

  function Description(): string {
    NixStr("nixbox-managed workloads (generated; do not edit by hand)")
  }

  function Preamble(): string {
    Line("", "# Generated by nixbox; " + "do not edit by hand.") + Line("", "{")
    + Attribute("  ", "description", Description()) + Line("", "")
  }

  function BaseImports(importsAgenix: bool): string {
    if importsAgenix then "[ " + "./modules/default.nix" + " " + "inputs.agenix.nixosModules.default" + " ]"
    else "[ " + "./modules/default.nix" + " ]"
  }

  /** How host services receive the inputs. */
  function Wrapping(): string {
    Line("        ", "(path:") + Attribute("          ", "let v", "import path")
    + Line("          ", "in if builtins.isFunction v " + "&& (builtins.functionArgs v) " + "? flakeInputs")
    + Opening("             ", "then v { flakeInputs", "inputs; }") + Line("             ", "else v)")
    + Line("        ", "(builtins.attrValues " + "((import ./index.nix)" + ".hostServices or { })));")
  }

  function ModuleText(importsAgenix: bool): string {
    Opening("      ", "imports", BaseImports(importsAgenix) + " ++ (map") + Wrapping()
    + Attribute("      ", "_module.args.flakeInputs", "inputs")
  }

  function Outputs(importsAgenix: bool): string {
    Opening("  ", "outputs", "{ self, ... }@inputs: {")
    + (Opening("    ", "nixosModules.default", "{ ... }: {") + ModuleText(importsAgenix) + Closing("    "))
    + Closing("  ")
  }

  function FlakeText(decls: seq<Declaration>, importsAgenix: bool): string {
    Preamble() + (Opening("  ", "inputs", "{") + FlatMap(DeclarationText, decls) + Closing("  ")) + Line("", "")
    + Outputs(importsAgenix) + Line("", "}")
  }

  predicate InputLeq(a: FlakeInput, b: FlakeInput) {
    StrLeq(a.name, b.name)
  }

  ghost predicate UniqueInputs(inputs: seq<FlakeInput>) {
    forall i, j :: 0 <= i < j < |inputs| ==> inputs[i].name != inputs[j].name
  }

  ghost predicate Named(inputs: seq<FlakeInput>, name: string) {
    exists i :: i in inputs && i.name == name
  }

  ghost predicate SomeFollows(inputs: seq<FlakeInput>) {
    exists i :: i in inputs && i.followsNixpkgs
  }

  /** nixbox declares agenix itself when secrets exist and the user has no such input. */
  ghost predicate OwnAgenix(inputs: seq<FlakeInput>, withAgenix: bool) {
    withAgenix && !Named(inputs, "agenix")
  }

  ghost predicate NeedsNixpkgs(inputs: seq<FlakeInput>, withAgenix: bool) {
    OwnAgenix(inputs, withAgenix) || SomeFollows(inputs)
  }

  function UserDeclaration(i: FlakeInput): Declaration {
    User(i)
  }

  function Builtins(nixpkgs: bool, agenix: bool): seq<Declaration> {
    (if nixpkgs then [Nixpkgs] else []) + (if agenix then [BuiltinAgenix] else [])
  }

  /** The declarations of the file, in order. */
  ghost function Declarations(inputs: seq<FlakeInput>, withAgenix: bool): seq<Declaration> {
    Builtins(NeedsNixpkgs(inputs, withAgenix), OwnAgenix(inputs, withAgenix))
    + Mapped(UserDeclaration, Sort(InputLeq, inputs))
  }

  /** renderFlake: flags set by loops over the sorted inputs, then one declaration
      after the other, then the outputs. */
  method RenderFlake(inputs: seq<FlakeInput>, withAgenix: bool) returns (text: string)
    ensures text == FlakeText(Declarations(inputs, withAgenix), withAgenix)
  {
    var body := RenderInputs(inputs, withAgenix);
    text := Preamble() + (Opening("  ", "inputs", "{") + body + Closing("  ")) + Line("", "") + Outputs(withAgenix)
    + Line("", "}");
  }

  method RenderInputs(inputs: seq<FlakeInput>, withAgenix: bool) returns (b: string)
    ensures b == FlatMap(DeclarationText, Declarations(inputs, withAgenix))
  {
    hide DeclarationText;
    var sorted := Sort(InputLeq, inputs);
    SortedMembers(inputs);
    var userAgenix := HasAgenix(sorted);
    var ownAgenix := withAgenix && !userAgenix;
    var follows := AnyFollows(sorted);
    var needNixpkgs := ownAgenix || follows;
    b := BuiltinDeclarations(needNixpkgs, ownAgenix);
    var user := UserDeclarations(sorted);
    FlatMapConcat(DeclarationText, Builtins(needNixpkgs, ownAgenix), Mapped(UserDeclaration, sorted));
    b := b + user;
  }

  method BuiltinDeclarations(needNixpkgs: bool, ownAgenix: bool) returns (b: string)
    ensures b == FlatMap(DeclarationText, Builtins(needNixpkgs, ownAgenix))
  {
    hide DeclarationText;
    FlatMapBuiltins(DeclarationText, needNixpkgs, ownAgenix);
    b := "";
    if needNixpkgs {
      b := b + DeclarationText(Nixpkgs);
    }
    if ownAgenix {
      b := b + DeclarationText(BuiltinAgenix);
    }
  }

  lemma FlatMapBuiltins<B>(f: Declaration -> seq<B>, nixpkgs: bool, agenix: bool)
    ensures FlatMap(f, Builtins(nixpkgs, agenix))
         == (if nixpkgs then f(Nixpkgs) else []) + (if agenix then f(BuiltinAgenix) else [])
  {
    FlatMapConcat(f, if nixpkgs then [Nixpkgs] else [], if agenix then [BuiltinAgenix] else []);
    FlatMapOne(f, Nixpkgs);
    FlatMapOne(f, BuiltinAgenix);
  }

  method HasAgenix(sorted: seq<FlakeInput>) returns (b: bool)
    ensures b <==> Named(sorted, "agenix")
  {
    b := false;
    for i := 0 to |sorted|
      invariant b <==> exists j :: 0 <= j < i && sorted[j].name == "agenix"
    {
      if sorted[i].name == "agenix" {
        b := true;
      }
    }
  }

  method AnyFollows(sorted: seq<FlakeInput>) returns (b: bool)
    ensures b <==> SomeFollows(sorted)
  {
    b := false;
    for i := 0 to |sorted|
      invariant !b && forall j :: 0 <= j < i ==> !sorted[j].followsNixpkgs
    {
      if sorted[i].followsNixpkgs {
        b := true;
        break;
      }
    }
  }

  method UserDeclarations(sorted: seq<FlakeInput>) returns (text: string)
    ensures text == FlatMap(DeclarationText, Mapped(UserDeclaration, sorted))
  {
    ghost var decls := Mapped(UserDeclaration, sorted);
    MappedAt(UserDeclaration, sorted);
    text := "";
    for i := 0 to |sorted|
      invariant text == FlatMap(DeclarationText, decls[..i])
    {
      FlatMapStep(DeclarationText, decls, i);
      text := text + DeclarationText(User(sorted[i]));
    }
    assert decls[..|sorted|] == decls;
  }

  lemma SortedMembers(inputs: seq<FlakeInput>)
    ensures multiset(Sort(InputLeq, inputs)) == multiset(inputs)
    ensures forall i :: i in Sort(InputLeq, inputs) <==> i in inputs
  {
    StrOrder();
    SortCorrect(InputLeq, inputs);
    forall i ensures i in Sort(InputLeq, inputs) <==> i in inputs {
      assert i in multiset(Sort(InputLeq, inputs)) <==> i in multiset(inputs);
    }
  }

  // ---- What follows for the file ----

  /** How often the inputs block declares a name. */
  ghost function Declares(decls: seq<Declaration>, name: string): nat {
    multiset(Mapped(DeclaredName, decls))[name]
  }

  lemma {:induction false} MappedConcat<A, B>(f: A -> B, xs: seq<A>, ys: seq<A>)
    ensures Mapped(f, xs + ys) == Mapped(f, xs) + Mapped(f, ys)
  {
    if xs == [] {
      assert xs + ys == ys;
    } else {
      MappedConcat(f, xs[1..], ys);
      assert (xs + ys)[0] == xs[0] && (xs + ys)[1..] == xs[1..] + ys;
      assert [f(xs[0])] + (Mapped(f, xs[1..]) + Mapped(f, ys)) == [f(xs[0])] + Mapped(f, xs[1..]) + Mapped(f, ys);
    }
  }

  /** User inputs have their own names, each once. */
  lemma UserNames(sorted: seq<FlakeInput>, name: string)
    requires UniqueInputs(sorted)
    ensures Declares(Mapped(UserDeclaration, sorted), name) == if Named(sorted, name) then 1 else 0
  {
    var decls := Mapped(UserDeclaration, sorted);
    var names := Mapped(DeclaredName, decls);
    MappedAt(UserDeclaration, sorted);
    MappedAt(DeclaredName, decls);
    assert forall i :: 0 <= i < |sorted| ==> names[i] == sorted[i].name;
    OccursOnce(names, name);
    if name in names {
      var i :| 0 <= i < |names| && names[i] == name;
      assert sorted[i] in sorted;
    }
    if i :| i in sorted && i.name == name {
      var k :| 0 <= k < |sorted| && sorted[k] == i;
      assert names[k] == name;
    }
  }

  lemma SortedUniqueInputs(inputs: seq<FlakeInput>)
    requires UniqueInputs(inputs)
    ensures UniqueInputs(Sort(InputLeq, inputs))
  {
    var sorted := Sort(InputLeq, inputs);
    SortedMembers(inputs);
    assert Distinct(inputs);
    SameElements(inputs, sorted);
    forall i, j | 0 <= i < j < |sorted| ensures sorted[i].name != sorted[j].name {
      assert sorted[i] in inputs && sorted[j] in inputs && sorted[i] != sorted[j];
      var a :| 0 <= a < |inputs| && inputs[a] == sorted[i];
      var b :| 0 <= b < |inputs| && inputs[b] == sorted[j];
      assert a < b || b < a;
    }
  }

  /** How often each name is declared, for any input table. */
  lemma DeclaredCounts(inputs: seq<FlakeInput>, withAgenix: bool, name: string)
    requires UniqueInputs(inputs)
    ensures Declares(Declarations(inputs, withAgenix), name)
         == (if Named(inputs, name) then 1 else 0)
          + (if name == "nixpkgs" && NeedsNixpkgs(inputs, withAgenix) then 1 else 0)
          + (if name == "agenix" && OwnAgenix(inputs, withAgenix) then 1 else 0)
  {
    var sorted := Sort(InputLeq, inputs);
    SortedUniqueInputs(inputs);
    SortedMembers(inputs);
    UserNames(sorted, name);
    var own := Builtins(NeedsNixpkgs(inputs, withAgenix), OwnAgenix(inputs, withAgenix));
    MappedConcat(DeclaredName, own, Mapped(UserDeclaration, sorted));
    BuiltinNames(NeedsNixpkgs(inputs, withAgenix), OwnAgenix(inputs, withAgenix), name);
  }

  lemma BuiltinNames(nixpkgs: bool, agenix: bool, name: string)
    ensures Declares(Builtins(nixpkgs, agenix), name)
         == (if name == "nixpkgs" && nixpkgs then 1 else 0) + (if name == "agenix" && agenix then 1 else 0)
  {
    MappedConcat(DeclaredName, if nixpkgs then [Nixpkgs] else [], if agenix then [BuiltinAgenix] else []);
    assert Mapped(DeclaredName, [Nixpkgs]) == ["nixpkgs"];
    assert Mapped(DeclaredName, [BuiltinAgenix]) == ["agenix"];
    assert "nixpkgs"[0] != "agenix"[0];
  }

  /** Where the agenix module is imported, agenix is declared exactly once, by the user
      or by nixbox; and where a declaration follows nixpkgs, nixpkgs is declared. */
  lemma FlakeIsClosed(inputs: seq<FlakeInput>, withAgenix: bool)
    requires UniqueInputs(inputs)
    ensures withAgenix ==> Declares(Declarations(inputs, withAgenix), "agenix") == 1
    ensures (exists d :: d in Declarations(inputs, withAgenix) && FollowsNixpkgs(d))
            ==> Declares(Declarations(inputs, withAgenix), "nixpkgs") >= 1
  {
    assert "nixpkgs"[0] != "agenix"[0];
    DeclaredCounts(inputs, withAgenix, "agenix");
    DeclaredCounts(inputs, withAgenix, "nixpkgs");
    var decls := Declarations(inputs, withAgenix);
    if d :| d in decls && FollowsNixpkgs(d) {
      FollowerNeedsNixpkgs(inputs, withAgenix, d);
    }
  }

  lemma FollowerNeedsNixpkgs(inputs: seq<FlakeInput>, withAgenix: bool, d: Declaration)
    requires d in Declarations(inputs, withAgenix) && FollowsNixpkgs(d)
    ensures NeedsNixpkgs(inputs, withAgenix)
  {
    var sorted := Sort(InputLeq, inputs);
    SortedMembers(inputs);
    MappedAt(UserDeclaration, sorted);
    if d.User? {
      assert d in Mapped(UserDeclaration, sorted);
      var i :| 0 <= i < |sorted| && Mapped(UserDeclaration, sorted)[i] == d;
      assert sorted[i] in inputs;
    }
  }

  /** No name is declared twice, exactly when the user's own nixpkgs does not meet the
      one nixbox declares. */
  lemma NamesClashExactlyOnNixpkgs(inputs: seq<FlakeInput>, withAgenix: bool)
    requires UniqueInputs(inputs)
    ensures (forall n :: Declares(Declarations(inputs, withAgenix), n) <= 1)
       <==> !(Named(inputs, "nixpkgs") && NeedsNixpkgs(inputs, withAgenix))
  {
    forall n {
      DeclaredCounts(inputs, withAgenix, n);
    }
    assert "nixpkgs"[0] != "agenix"[0];
  }

  /** Such a clash can happen: declaring the first secret is enough for a user whose
      only input is called nixpkgs. */
  lemma UserNixpkgsClashes(url: string)
    ensures Declares(Declarations([FlakeInput("nixpkgs", url, false)], true), "nixpkgs") == 2
    ensures Declares(Declarations([FlakeInput("nixpkgs", url, false)], false), "nixpkgs") == 1
  {
    var inputs := [FlakeInput("nixpkgs", url, false)];
    assert inputs[0] in inputs;
    assert "nixpkgs"[0] != "agenix"[0];
    DeclaredCounts(inputs, true, "nixpkgs");
    DeclaredCounts(inputs, false, "nixpkgs");
  }

  /** The bytes do not depend on the order the inputs are listed in. */
  lemma FlakeIsCanonical(a: seq<FlakeInput>, b: seq<FlakeInput>, withAgenix: bool)
    requires UniqueInputs(a) && multiset(a) == multiset(b)
    ensures Declarations(a, withAgenix) == Declarations(b, withAgenix)
  {
    StrOrder();
    forall x, y | x in a && y in a && InputLeq(x, y) && InputLeq(y, x) ensures x == y {
    }
    SortForgetsOrder(InputLeq, a, b);
    ElementsOfPermuted(a, b);
    forall i ensures i in a <==> i in b {
      assert i in Elements(a) <==> i in Elements(b);
    }
  }
}
