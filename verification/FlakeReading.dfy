/** Reading flake.nix back: the inputs its bytes declare, and what they import. */
module FlakeReading {
  import opened Base
  import opened Sorting
  import opened Names
  import opened HostPorts
  import opened NixLiteral
  import opened IndexFile
  import opened FlakeFile
  import opened AttrReader
  import opened Rows
  import opened Machine
  import opened FlakeCoherence
  import I = IndexReading

  // ---- What the file says, line by line ----

  function UserValue(input: FlakeInput): string {
    "{ url = " + NixStr(input.url) + "; inputs.nixpkgs.follows = \"nixpkgs\"; }"
  }

  function AgenixFollows(): Binding {
    Binding(["inputs", "agenix", "inputs.nixpkgs.follows"], Quoted("nixpkgs"))
  }

  function AgenixBindings(): seq<Binding> {
    [Binding(["inputs", "agenix", "url"], Quoted("github:ryantm/agenix"))] + [AgenixFollows()]
    + [Binding(["inputs", "agenix", "inputs.darwin.follows"], Quoted(""))]
    + [Binding(["inputs", "agenix", "inputs.home-manager.follows"], Quoted(""))]
  }

  function UserBinding(input: FlakeInput): seq<Binding> {
    if input.followsNixpkgs then [Binding(["inputs", input.name], UserValue(input))]
    else [Binding(["inputs", AttrName(input.name) + ".url"], NixStr(input.url))]
  }

  function DeclarationBindings(d: Declaration): seq<Binding> {
    match d
    case Nixpkgs => [Binding(["inputs", "nixpkgs.url"], Quoted("github:NixOS/nixpkgs/nixos-unstable"))]
    case BuiltinAgenix => AgenixBindings()
    case User(input) => UserBinding(input)
  }

  const MODULE: seq<string> := ["outputs", "nixosModules.default"]

  function ModuleBindings(importsAgenix: bool): seq<Binding> {
    [Binding(MODULE + ["imports"], BaseImports(importsAgenix) + " ++ (map")]
    + ([Binding(MODULE + ["let v"], "import path")] + [Binding(MODULE + ["then v { flakeInputs"], "inputs; }")])
    + [Binding(MODULE + ["_module.args.flakeInputs"], "inputs")]
  }

  function PreambleBindings(): seq<Binding> {
    [Binding(["description"], Description())]
  }

  /** Every attribute of the file, in order. */
  function FlakeBindings(decls: seq<Declaration>, importsAgenix: bool): seq<Binding> {
    PreambleBindings() + FlatMap(DeclarationBindings, decls) + ModuleBindings(importsAgenix)
  }

  predicate ValidDeclaration(d: Declaration) {
    d.User? ==> ValidName(d.input.name)
  }

  lemma AttributeSays(open: seq<string>, indent: string, key: string, value: string)
    requires Indent(indent) && PlainKey(key) && Unquoted(key) == key && OneLine(value)
    ensures Says(Attribute(indent, key, value), open, [Binding(open + [key], value)])
  {
    hide PlainKey, Unquoted;
    SaysBinding(open, indent, key, value);
  }

  lemma NixpkgsSays()
    ensures Says(DeclarationText(Nixpkgs), ["inputs"], DeclarationBindings(Nixpkgs))
  {
    AttributeSays(["inputs"], "    ", "nixpkgs.url", Quoted("github:NixOS/nixpkgs/nixos-unstable"));
    hide Says;
    assert ["inputs"] + ["nixpkgs.url"] == ["inputs", "nixpkgs.url"];
  }

  lemma AgenixLineSays(key: string, value: string)
    requires PlainKey(key) && Unquoted(key) == key && OneLine(value)
    ensures Says(Attribute("      ", key, value), ["inputs", "agenix"], [Binding(["inputs", "agenix", key], value)])
  {
    hide PlainKey, Unquoted;
    AttributeSays(["inputs", "agenix"], "      ", key, value);
    assert ["inputs", "agenix"] + [key] == ["inputs", "agenix", key];
  }

  lemma AgenixUrlSays()
    ensures Says(Attribute("      ", "url", Quoted("github:ryantm/agenix")), ["inputs", "agenix"],
                 [Binding(["inputs", "agenix", "url"], Quoted("github:ryantm/agenix"))])
  {
    AgenixLineSays("url", Quoted("github:ryantm/agenix"));
  }

  lemma AgenixNixpkgsSays()
    ensures Says(Attribute("      ", "inputs.nixpkgs.follows", Quoted("nixpkgs")), ["inputs", "agenix"],
                 [Binding(["inputs", "agenix", "inputs.nixpkgs.follows"], Quoted("nixpkgs"))])
  {
    AgenixLineSays("inputs.nixpkgs.follows", Quoted("nixpkgs"));
  }

  lemma AgenixDarwinSays()
    ensures Says(Attribute("      ", "inputs.darwin.follows", Quoted("")), ["inputs", "agenix"],
                 [Binding(["inputs", "agenix", "inputs.darwin.follows"], Quoted(""))])
  {
    AgenixLineSays("inputs.darwin.follows", Quoted(""));
  }

  lemma AgenixHomeSays()
    ensures Says(Attribute("      ", "inputs.home-manager.follows", Quoted("")), ["inputs", "agenix"],
                 [Binding(["inputs", "agenix", "inputs.home-manager.follows"], Quoted(""))])
  {
    AgenixLineSays("inputs.home-manager.follows", Quoted(""));
  }

  /** Four texts in a row. */
  lemma FourSay(open: seq<string>, a: string, w: seq<Binding>, b: string, x: seq<Binding>,
                c: string, y: seq<Binding>, d: string, z: seq<Binding>)
    requires Says(a, open, w) && Says(b, open, x) && Says(c, open, y) && Says(d, open, z)
    ensures Says(a + b + c + d, open, w + x + y + z)
  {
    hide Says;
    SaysBoth(open, a, w, b, x);
    SaysBoth(open, a + b, w + x, c, y);
    SaysBoth(open, a + b + c, w + x + y, d, z);
  }

  lemma AgenixBodySays()
    ensures Says(AgenixText(), ["inputs", "agenix"], AgenixBindings())
  {
    hide Says, Attribute;
    AgenixUrlSays();
    AgenixNixpkgsSays();
    AgenixDarwinSays();
    AgenixHomeSays();
    FourSay(["inputs", "agenix"],
            Attribute("      ", "url", Quoted("github:ryantm/agenix")),
            [Binding(["inputs", "agenix", "url"], Quoted("github:ryantm/agenix"))],
            Attribute("      ", "inputs.nixpkgs.follows", Quoted("nixpkgs")),
            [Binding(["inputs", "agenix", "inputs.nixpkgs.follows"], Quoted("nixpkgs"))],
            Attribute("      ", "inputs.darwin.follows", Quoted("")),
            [Binding(["inputs", "agenix", "inputs.darwin.follows"], Quoted(""))],
            Attribute("      ", "inputs.home-manager.follows", Quoted("")),
            [Binding(["inputs", "agenix", "inputs.home-manager.follows"], Quoted(""))]);
  }

  lemma SetSays(open: seq<string>, indent: string, key: string, value: string, body: string, bs: seq<Binding>)
    requires Indent(indent) && PlainKey(key) && Unquoted(key) == key && OneLine(value) && value != ""
    requires value[|value| - 1] == '{' && Says(body, open + [key], bs)
    ensures Says(Opening(indent, key, value) + body + Closing(indent), open, bs)
  {
    hide Says, PlainKey, Unquoted, Indent;
    SaysSet(open, indent, key, value, body, bs);
  }

  lemma AgenixSays()
    ensures Says(DeclarationText(BuiltinAgenix), ["inputs"], DeclarationBindings(BuiltinAgenix))
  {
    AgenixBodySays();
    hide Says, AgenixText, AgenixBindings, Opening, Closing;
    assert ["inputs"] + ["agenix"] == ["inputs", "agenix"];
    SetSays(["inputs"], "    ", "agenix", "{", AgenixText(), AgenixBindings());
  }

  lemma UserValueIsOneLine(input: FlakeInput)
    ensures OneLine(UserValue(input))
  {
    I.NixStrIsOneLine(input.url);
    hide NixStr;
    I.OneLineConcat("{ url = ", NixStr(input.url));
    I.OneLineConcat("{ url = " + NixStr(input.url), "; inputs.nixpkgs.follows = \"nixpkgs\"; }");
  }

  lemma FollowerSays(input: FlakeInput)
    requires ValidName(input.name) && input.followsNixpkgs
    ensures Says(UserText(input), ["inputs"], UserBinding(input))
  {
    I.ValidNameIsPlain(input.name);
    UserValueIsOneLine(input);
    var attr := AttrName(input.name);
    hide ValidName, AttrName, PlainKey, Unquoted, NixStr, OneLine;
    SaysBinding(["inputs"], "    ", attr, UserValue(input));
    hide Says;
    assert ["inputs"] + [input.name] == ["inputs", input.name];
  }

  lemma UrlKey(name: string)
    requires ValidName(name)
    ensures PlainKey(AttrName(name) + ".url") && Unquoted(AttrName(name) + ".url") == AttrName(name) + ".url"
  {
    I.ValidNameIsPlain(name);
  }

  lemma OtherUserSays(input: FlakeInput)
    requires ValidName(input.name) && !input.followsNixpkgs
    ensures Says(UserText(input), ["inputs"], UserBinding(input))
  {
    UrlKey(input.name);
    I.NixStrIsOneLine(input.url);
    var key := AttrName(input.name) + ".url";
    hide ValidName, AttrName, PlainKey, Unquoted, NixStr, OneLine;
    AttributeSays(["inputs"], "    ", key, NixStr(input.url));
    hide Says;
    assert ["inputs"] + [key] == ["inputs", key];
  }

  lemma DeclarationSays(d: Declaration)
    requires ValidDeclaration(d)
    ensures Says(DeclarationText(d), ["inputs"], DeclarationBindings(d))
  {
    hide Says, UserText, UserBinding, AgenixText, AgenixBindings, ValidName, Attribute, Opening, Closing;
    match d {
      case Nixpkgs => NixpkgsSays();
      case BuiltinAgenix => AgenixSays();
      case User(input) =>
        if input.followsNixpkgs {
          FollowerSays(input);
        } else {
          OtherUserSays(input);
        }
    }
  }

  lemma InputsSay(decls: seq<Declaration>)
    requires forall d :: d in decls ==> ValidDeclaration(d)
    ensures Says(Opening("  ", "inputs", "{") + FlatMap(DeclarationText, decls) + Closing("  "), [],
                 FlatMap(DeclarationBindings, decls))
  {
    hide Says, DeclarationText, DeclarationBindings, ValidDeclaration, Opening, Closing;
    forall d | d in decls ensures Says(DeclarationText(d), ["inputs"], DeclarationBindings(d)) {
      DeclarationSays(d);
    }
    SaysAll(["inputs"], DeclarationText, DeclarationBindings, decls);
    assert [] + ["inputs"] == ["inputs"];
    SetSays([], "  ", "inputs", "{", FlatMap(DeclarationText, decls), FlatMap(DeclarationBindings, decls));
  }

  // ---- The rest of the file ----

  /** Text without an attribute in it. */
  predicate Wordy(l: string) {
    OneLine(l) && '=' !in l
  }

  lemma WordyConcat(a: string, b: string)
    requires Wordy(a) && Wordy(b)
    ensures Wordy(a + b)
  {
  }

  lemma LineSays(open: seq<string>, indent: string, l: string)
    requires Indent(indent) && Wordy(l) && (l == "" || l[0] != ' ') && l != "};"
    ensures Says(Line(indent, l), open, [])
  {
    SaysOther(open, indent, l);
  }

  lemma CommentWords()
    ensures Wordy("# Generated by nixbox; " + "do not edit by hand.")
  {
    WordyConcat("# Generated by nixbox; ", "do not edit by hand.");
  }

  lemma CommentSays()
    ensures Says(Line("", "# Generated by nixbox; " + "do not edit by hand."), [], [])
  {
    CommentWords();
    LineSays([], "", "# Generated by nixbox; " + "do not edit by hand.");
  }

  lemma DescriptionSays()
    ensures Says(Attribute("  ", "description", Description()), [], [Binding(["description"], Description())])
  {
    I.NixStrIsOneLine("nixbox-managed workloads (generated; do not edit by hand)");
    hide NixStr;
    AttributeSays([], "  ", "description", Description());
    assert [] + ["description"] == ["description"];
  }

  lemma BraceSays()
    ensures Says(Line("", "{"), [], [])
  {
    LineSays([], "", "{");
  }

  lemma PreambleSays()
    ensures Says(Preamble(), [], PreambleBindings())
  {
    hide Says, Description, Line, Attribute;
    CommentSays();
    BraceSays();
    DescriptionSays();
    EdgesSay();
    var none: seq<Binding> := [];
    var bs := [Binding(["description"], Description())];
    FourSay([], Line("", "# Generated by nixbox; " + "do not edit by hand."), none, Line("", "{"), none,
            Attribute("  ", "description", Description()), bs, Line("", ""), none);
    assert none + none + bs + none == bs;
  }

  lemma ThreeWords(open: seq<string>, indent: string, a: string, b: string, c: string)
    requires Indent(indent) && Wordy(a) && Wordy(b) && Wordy(c) && |a| > 2 && a[0] != ' '
    ensures Says(Line(indent, a + b + c), open, [])
  {
    WordyConcat(a, b);
    WordyConcat(a + b, c);
    hide Wordy;
    assert (a + b + c)[0] == a[0];
    LineSays(open, indent, a + b + c);
  }

  lemma InWords()
    ensures Wordy("in if builtins.isFunction v ") && Wordy("? flakeInputs")
  {
  }

  lemma ArgsWords()
    ensures Wordy("&& (builtins.functionArgs v) ")
  {
  }

  lemma InLineSays()
    ensures Says(Line("          ", "in if builtins.isFunction v " + "&& (builtins.functionArgs v) " + "? flakeInputs"),
                 MODULE, [])
  {
    InWords();
    ArgsWords();
    hide Wordy;
    ThreeWords(MODULE, "          ", "in if builtins.isFunction v ", "&& (builtins.functionArgs v) ", "? flakeInputs");
  }

  lemma ServicesWords()
    ensures Wordy("(builtins.attrValues ") && Wordy("((import ./index.nix)")
  {
  }

  lemma OrWords()
    ensures Wordy(".hostServices or { })));")
  {
  }

  lemma ServicesLineSays()
    ensures Says(Line("        ", "(builtins.attrValues " + "((import ./index.nix)" + ".hostServices or { })));"), MODULE, [])
  {
    ServicesWords();
    OrWords();
    hide Wordy;
    ThreeWords(MODULE, "        ", "(builtins.attrValues ", "((import ./index.nix)", ".hostServices or { })));");
  }

  lemma ThenLineSays()
    ensures Says(Opening("             ", "then v { flakeInputs", "inputs; }"), MODULE,
                 [Binding(MODULE + ["then v { flakeInputs"], "inputs; }")])
  {
    SaysUnended(MODULE, "             ", "then v { flakeInputs", "inputs; }");
    hide Says;
    assert Unquoted("then v { flakeInputs") == "then v { flakeInputs";
  }

  lemma LetLineSays()
    ensures Says(Attribute("          ", "let v", "import path"), MODULE, [Binding(MODULE + ["let v"], "import path")])
  {
    AttributeSays(MODULE, "          ", "let v", "import path");
  }

  lemma ShortLinesSay()
    ensures Says(Line("        ", "(path:"), MODULE, []) && Says(Line("             ", "else v)"), MODULE, [])
  {
    LineSays(MODULE, "        ", "(path:");
    LineSays(MODULE, "             ", "else v)");
  }

  lemma WrappingSays()
    ensures Says(Wrapping(), MODULE,
                 [Binding(MODULE + ["let v"], "import path")] + [Binding(MODULE + ["then v { flakeInputs"], "inputs; }")])
  {
    ShortLinesSay();
    LetLineSays();
    InLineSays();
    ThenLineSays();
    ServicesLineSays();
    hide Says, Line, Attribute, Opening;
    WrappingJoined(Line("        ", "(path:"), Attribute("          ", "let v", "import path"),
                   Line("          ", "in if builtins.isFunction v " + "&& (builtins.functionArgs v) " + "? flakeInputs"),
                   Opening("             ", "then v { flakeInputs", "inputs; }"), Line("             ", "else v)"),
                   Line("        ", "(builtins.attrValues " + "((import ./index.nix)" + ".hostServices or { })));"),
                   [Binding(MODULE + ["let v"], "import path")], [Binding(MODULE + ["then v { flakeInputs"], "inputs; }")]);
  }

  lemma WrappingJoined(a: string, b: string, c: string, d: string, e: string, f: string, x: seq<Binding>, y: seq<Binding>)
    requires Says(a, MODULE, []) && Says(b, MODULE, x) && Says(c, MODULE, []) && Says(d, MODULE, y)
    requires Says(e, MODULE, []) && Says(f, MODULE, [])
    ensures Says(a + b + c + d + e + f, MODULE, x + y)
  {
    hide Says;
    var none: seq<Binding> := [];
    FourSay(MODULE, a, none, b, x, c, none, d, y);
    assert none + x + none + y == x + y;
    SaysBoth(MODULE, a + b + c + d, x + y, e, none);
    SaysBoth(MODULE, a + b + c + d + e, x + y + none, f, none);
    assert x + y + none + none == x + y;
  }

  lemma BaseImportsAreOneLine(importsAgenix: bool)
    ensures OneLine(BaseImports(importsAgenix))
  {
  }

  lemma ImportsSay(importsAgenix: bool)
    ensures Says(Opening("      ", "imports", BaseImports(importsAgenix) + " ++ (map"), MODULE,
                 [Binding(MODULE + ["imports"], BaseImports(importsAgenix) + " ++ (map")])
  {
    BaseImportsAreOneLine(importsAgenix);
    hide BaseImports;
    var value := BaseImports(importsAgenix) + " ++ (map";
    I.OneLineConcat(BaseImports(importsAgenix), " ++ (map");
    assert value[|value| - 1] == 'p';
    SaysUnended(MODULE, "      ", "imports", value);
    hide Says;
    assert Unquoted("imports") == "imports";
  }

  lemma ArgsLineSays()
    ensures Says(Attribute("      ", "_module.args.flakeInputs", "inputs"), MODULE,
                 [Binding(MODULE + ["_module.args.flakeInputs"], "inputs")])
  {
    AttributeSays(MODULE, "      ", "_module.args.flakeInputs", "inputs");
  }

  lemma ModuleSays(importsAgenix: bool)
    ensures Says(ModuleText(importsAgenix), MODULE, ModuleBindings(importsAgenix))
  {
    ImportsSay(importsAgenix);
    WrappingSays();
    ArgsLineSays();
    hide Says, Wrapping, BaseImports, Opening, Attribute;
    var imports, x := Opening("      ", "imports", BaseImports(importsAgenix) + " ++ (map"),
      [Binding(MODULE + ["imports"], BaseImports(importsAgenix) + " ++ (map")];
    var y := [Binding(MODULE + ["let v"], "import path")] + [Binding(MODULE + ["then v { flakeInputs"], "inputs; }")];
    var z := [Binding(MODULE + ["_module.args.flakeInputs"], "inputs")];
    SaysBoth(MODULE, imports, x, Wrapping(), y);
    SaysBoth(MODULE, imports + Wrapping(), x + y, Attribute("      ", "_module.args.flakeInputs", "inputs"), z);
  }

  lemma ModuleSetSays(importsAgenix: bool)
    ensures Says(Opening("    ", "nixosModules.default", "{ ... }: {") + ModuleText(importsAgenix) + Closing("    "),
                 ["outputs"], ModuleBindings(importsAgenix))
  {
    hide Says, ModuleText, ModuleBindings, Opening, Closing;
    ModuleSays(importsAgenix);
    assert ["outputs"] + ["nixosModules.default"] == MODULE;
    SetSays(["outputs"], "    ", "nixosModules.default", "{ ... }: {", ModuleText(importsAgenix), ModuleBindings(importsAgenix));
  }

  lemma OutputsSay(importsAgenix: bool)
    ensures Says(Outputs(importsAgenix), [], ModuleBindings(importsAgenix))
  {
    hide Says, ModuleText, ModuleBindings, Opening, Closing;
    ModuleSetSays(importsAgenix);
    assert [] + ["outputs"] == ["outputs"];
    SetSays([], "  ", "outputs", "{ self, ... }@inputs: {",
            Opening("    ", "nixosModules.default", "{ ... }: {") + ModuleText(importsAgenix) + Closing("    "),
            ModuleBindings(importsAgenix));
  }

  lemma PartsSay(head: string, x: seq<Binding>, inputs: string, y: seq<Binding>, blank: string,
                 outputs: string, z: seq<Binding>, end: string)
    requires Says(head, [], x) && Says(inputs, [], y) && Says(blank, [], []) && Says(outputs, [], z) && Says(end, [], [])
    ensures Says(head + inputs + blank + outputs + end, [], x + y + z)
  {
    hide Says;
    var none: seq<Binding> := [];
    FourSay([], head, x, inputs, y, blank, none, outputs, z);
    SaysBoth([], head + inputs + blank + outputs, x + y + none + z, end, none);
    assert x + y + none + z + none == x + y + z;
  }

  lemma EdgesSay()
    ensures Says(Line("", ""), [], []) && Says(Line("", "}"), [], [])
  {
    LineSays([], "", "");
    LineSays([], "", "}");
  }

  /** Read line by line, the file says exactly this, in this order. */
  lemma FlakeTextSays(decls: seq<Declaration>, importsAgenix: bool)
    requires forall d :: d in decls ==> ValidDeclaration(d)
    ensures Bindings(FlakeText(decls, importsAgenix)) == FlakeBindings(decls, importsAgenix)
  {
    hide Says, Preamble, Outputs, ModuleBindings, DeclarationText, DeclarationBindings, ValidDeclaration, Description,
      Bindings, FlatMap, Opening, Closing, Line;
    EdgesSay();
    PreambleSays();
    InputsSay(decls);
    OutputsSay(importsAgenix);
    PartsSay(Preamble(), PreambleBindings(),
             Opening("  ", "inputs", "{") + FlatMap(DeclarationText, decls) + Closing("  "), FlatMap(DeclarationBindings, decls),
             Line("", ""), Outputs(importsAgenix), ModuleBindings(importsAgenix), Line("", "}"));
    SaidBindings(FlakeText(decls, importsAgenix), FlakeBindings(decls, importsAgenix));
  }

  lemma DescriptionSaid(decls: seq<Declaration>, importsAgenix: bool)
    requires forall d :: d in decls ==> ValidDeclaration(d)
    ensures Binding(["description"], NixStr("nixbox-managed workloads (generated; do not edit by hand)"))
            in Bindings(FlakeText(decls, importsAgenix))
  {
    hide FlakeText, Bindings, NixStr, FlatMap, ModuleBindings, ValidDeclaration;
    FlakeTextSays(decls, importsAgenix);
    assert Binding(["description"], Description()) in PreambleBindings();
  }

  // ---- A reader of inputs ----

  /** An input as the file declares it. */
  datatype Declared = Declared(name: string, url: string, follows: bool)

  predicate EndsInUrl(key: string) {
    |key| >= 4 && key[|key| - 4..] == ".url"
  }

  /** The reference and the sharing of nixpkgs in a set written on one line. */
  function Inline(value: string): Option<(string, bool)> {
    if |value| < 8 || value[..8] != "{ url = " then None
    else
      match ReadLiteral(value[8..])
      case Literal(url, rest) =>
        if rest == "; inputs.nixpkgs.follows = \"nixpkgs\"; }" then Some((url, true))
        else if rest == "; }" then Some((url, false))
        else None
      case _ => None
  }

  /** An input is declared by its reference: name.url, a set on one line, or a set on
      lines of its own that may share nixpkgs in another line. */
  function DeclaredBy(bs: seq<Binding>, b: Binding): seq<Declared> {
    if |b.path| == 2 && b.path[0] == "inputs" then
      var key := b.path[1];
      if EndsInUrl(key) then
        match ReadString(b.value)
        case Some(url) => [Declared(Unquoted(key[..|key| - 4]), url, false)]
        case None => []
      else
        match Inline(b.value)
        case Some(input) => [Declared(key, input.0, input.1)]
        case None => []
    else if |b.path| == 3 && b.path[0] == "inputs" && b.path[2] == "url" then
      match ReadString(b.value)
      case Some(url) =>
        [Declared(b.path[1], url, Binding(["inputs", b.path[1], "inputs.nixpkgs.follows"], "\"nixpkgs\"") in bs)]
      case None => []
    else []
  }

  function DeclaredIn(bs: seq<Binding>): Binding -> seq<Declared> {
    b => DeclaredBy(bs, b)
  }

  function InputsIn(bs: seq<Binding>): seq<Declared> {
    FlatMap(DeclaredIn(bs), bs)
  }

  /** What a declaration is to say. */
  function Meant(d: Declaration): Declared {
    match d
    case Nixpkgs => Declared("nixpkgs", "github:NixOS/nixpkgs/nixos-unstable", false)
    case BuiltinAgenix => Declared("agenix", "github:ryantm/agenix", true)
    case User(input) => Declared(input.name, Newlines(input.url), input.followsNixpkgs)
  }

  predicate PlainText(s: string) {
    forall i :: 0 <= i < |s| ==> s[i] != '\"' && s[i] != '\\' && s[i] != '$' && s[i] != '\n' && s[i] != '\r'
  }

  lemma {:induction false} PlainTextIsPrinted(s: string)
    requires PlainText(s)
    ensures Escape(s) == s
  {
    if s != "" {
      PlainTextIsPrinted(s[1..]);
      assert s == [s[0]] + s[1..];
    }
  }

  lemma QuotedReads(s: string)
    requires PlainText(s)
    ensures ReadString(Quoted(s)) == Some(s)
  {
    PlainTextIsPrinted(s);
    PrintedStringReads(s);
    assert Newlines(s) == s;
  }

  lemma KeysDiffer()
    ensures "inputs" != "outputs" && "inputs" != "description" && !EndsInUrl("agenix")
    ensures "url" != "inputs.nixpkgs.follows" && "url" != "inputs.darwin.follows" && "url" != "inputs.home-manager.follows"
  {
    assert "inputs"[0] != "outputs"[0];
  }

  lemma UrlDeclares(bs: seq<Binding>, name: string, value: string, url: string)
    requires ReadString(value) == Some(url)
    ensures DeclaredBy(bs, Binding(["inputs", name + ".url"], value)) == [Declared(Unquoted(name), url, false)]
  {
    hide ReadString, Unquoted, Inline;
    var key := name + ".url";
    assert key[|key| - 4..] == ".url" && key[..|key| - 4] == name;
  }

  lemma BuiltinUrls()
    ensures PlainText("github:NixOS/nixpkgs/nixos-unstable") && PlainText("github:ryantm/agenix")
  {
  }

  lemma NixpkgsReads(bs: seq<Binding>)
    ensures FlatMap(DeclaredIn(bs), DeclarationBindings(Nixpkgs)) == [Meant(Nixpkgs)]
  {
    var url := "github:NixOS/nixpkgs/nixos-unstable";
    BuiltinUrls();
    QuotedReads(url);
    hide ReadString, Quoted, PlainText, DeclaredBy;
    UrlDeclares(bs, "nixpkgs", Quoted(url), url);
    assert "nixpkgs.url" == "nixpkgs" + ".url" && Unquoted("nixpkgs") == "nixpkgs";
    FlatMapOne(DeclaredIn(bs), Binding(["inputs", "nixpkgs.url"], Quoted(url)));
  }

  lemma AgenixLineDeclares(bs: seq<Binding>, key: string, value: string)
    ensures key != "url" ==> DeclaredBy(bs, Binding(["inputs", "agenix", key], value)) == []
    ensures key == "url" && ReadString(value).Some?
            && Binding(["inputs", "agenix", "inputs.nixpkgs.follows"], "\"nixpkgs\"") in bs ==>
              DeclaredBy(bs, Binding(["inputs", "agenix", key], value)) == [Declared("agenix", ReadString(value).value, true)]
  {
    hide ReadString, Inline;
  }

  lemma AgenixReads(bs: seq<Binding>)
    requires AgenixFollows() in bs
    ensures FlatMap(DeclaredIn(bs), AgenixBindings()) == [Meant(BuiltinAgenix)]
  {
    BuiltinUrls();
    QuotedReads("github:ryantm/agenix");
    assert Quoted("nixpkgs") == "\"nixpkgs\"";
    hide ReadString, Quoted, FlatMap, PlainText, DeclaredBy;
    KeysDiffer();
    AgenixLineDeclares(bs, "url", Quoted("github:ryantm/agenix"));
    AgenixLineDeclares(bs, "inputs.nixpkgs.follows", Quoted("nixpkgs"));
    AgenixLineDeclares(bs, "inputs.darwin.follows", Quoted(""));
    AgenixLineDeclares(bs, "inputs.home-manager.follows", Quoted(""));
    FlatMapFour(DeclaredIn(bs), Binding(["inputs", "agenix", "url"], Quoted("github:ryantm/agenix")),
                AgenixFollows(),
                Binding(["inputs", "agenix", "inputs.darwin.follows"], Quoted("")),
                Binding(["inputs", "agenix", "inputs.home-manager.follows"], Quoted("")));
  }

  lemma FlatMapFour<A, B>(f: A -> seq<B>, a: A, b: A, c: A, d: A)
    ensures FlatMap(f, [a] + [b] + [c] + [d]) == f(a) + f(b) + f(c) + f(d)
  {
    FlatMapConcat(f, [a] + [b] + [c], [d]);
    FlatMapConcat(f, [a] + [b], [c]);
    FlatMapConcat(f, [a], [b]);
    FlatMapOne(f, a);
    FlatMapOne(f, b);
    FlatMapOne(f, c);
    FlatMapOne(f, d);
  }

  lemma NameHasNoDot(name: string)
    requires ValidName(name)
    ensures !EndsInUrl(name)
  {
    forall i | 0 <= i < |name| ensures IsNameChar(name[i]) {
    }
    if |name| >= 4 {
      assert name[|name| - 4] == name[|name| - 4..][0];
    }
  }

  lemma InlineReads(input: FlakeInput)
    requires input.followsNixpkgs
    ensures Inline(UserValue(input)) == Some((Newlines(input.url), true))
  {
    var tail := "; inputs.nixpkgs.follows = \"nixpkgs\"; }";
    PrintedLiteralReadsBack(input.url, tail);
    var text := NixStr(input.url);
    hide NixStr, ReadLiteral, Newlines;
    InlineParts(text, tail);
  }

  lemma InlineParts(text: string, tail: string)
    ensures var v := "{ url = " + text + tail; |v| >= 8 && v[..8] == "{ url = " && v[8..] == text + tail
  {
  }

  lemma FollowerReads(bs: seq<Binding>, input: FlakeInput)
    requires ValidName(input.name) && input.followsNixpkgs
    ensures FlatMap(DeclaredIn(bs), UserBinding(input)) == [Meant(User(input))]
  {
    NameHasNoDot(input.name);
    InlineReads(input);
    hide ValidName, Inline, UserValue, Newlines, EndsInUrl;
    FlatMapOne(DeclaredIn(bs), Binding(["inputs", input.name], UserValue(input)));
  }

  lemma OtherUserReads(bs: seq<Binding>, input: FlakeInput)
    requires ValidName(input.name) && !input.followsNixpkgs
    ensures FlatMap(DeclaredIn(bs), UserBinding(input)) == [Meant(User(input))]
  {
    I.ValidNameIsPlain(input.name);
    PrintedStringReads(input.url);
    var attr := AttrName(input.name);
    hide ValidName, AttrName, Newlines, NixStr, ReadString, Unquoted, DeclaredBy;
    UrlDeclares(bs, attr, NixStr(input.url), Newlines(input.url));
    FlatMapOne(DeclaredIn(bs), Binding(["inputs", attr + ".url"], NixStr(input.url)));
  }

  lemma DeclarationReads(bs: seq<Binding>, d: Declaration)
    requires ValidDeclaration(d)
    requires d.BuiltinAgenix? ==> AgenixFollows() in bs
    ensures FlatMap(DeclaredIn(bs), DeclarationBindings(d)) == [Meant(d)]
  {
    hide UserBinding, AgenixBindings, AgenixFollows, ValidName, Quoted, FlatMap, DeclaredIn;
    match d {
      case Nixpkgs => NixpkgsReads(bs);
      case BuiltinAgenix => AgenixReads(bs);
      case User(input) =>
        if input.followsNixpkgs {
          FollowerReads(bs, input);
        } else {
          OtherUserReads(bs, input);
        }
    }
  }

  lemma {:induction false} DeclarationsRead(bs: seq<Binding>, decls: seq<Declaration>)
    requires forall d :: d in decls ==> ValidDeclaration(d)
    requires BuiltinAgenix in decls ==> AgenixFollows() in bs
    ensures FlatMap(DeclaredIn(bs), FlatMap(DeclarationBindings, decls)) == Mapped(Meant, decls)
  {
    hide DeclarationBindings, DeclaredIn, Meant, ValidDeclaration, AgenixFollows;
    if decls != [] {
      assert decls[0] in decls && forall d :: d in decls[1..] ==> d in decls;
      DeclarationReads(bs, decls[0]);
      DeclarationsRead(bs, decls[1..]);
      FlatMapConcat(DeclaredIn(bs), DeclarationBindings(decls[0]), FlatMap(DeclarationBindings, decls[1..]));
    }
  }

  lemma ModuleDeclaresNothing(bs: seq<Binding>, importsAgenix: bool)
    ensures FlatMap(DeclaredIn(bs), ModuleBindings(importsAgenix)) == []
    ensures FlatMap(DeclaredIn(bs), PreambleBindings()) == []
  {
    hide Description, BaseImports, ReadString, Inline, FlatMap;
    KeysDiffer();
    var f := DeclaredIn(bs);
    var a := Binding(MODULE + ["imports"], BaseImports(importsAgenix) + " ++ (map");
    var b := Binding(MODULE + ["let v"], "import path");
    var c, d := Binding(MODULE + ["then v { flakeInputs"], "inputs; }"), Binding(MODULE + ["_module.args.flakeInputs"], "inputs");
    assert f(a) == [] && f(b) == [] && f(c) == [] && f(d) == [];
    FlatMapFour(f, a, b, c, d);
    assert [a] + ([b] + [c]) + [d] == [a] + [b] + [c] + [d];
    FlatMapOne(f, Binding(["description"], Description()));
  }

  /** The inputs block declares exactly these inputs, in this order, each with its
      reference as the language reads it, whatever characters it has. */
  lemma InputsReadBack(decls: seq<Declaration>, importsAgenix: bool)
    requires forall d :: d in decls ==> ValidDeclaration(d)
    ensures InputsIn(Bindings(FlakeText(decls, importsAgenix))) == Mapped(Meant, decls)
  {
    hide FlakeText, Bindings, DeclarationBindings, DeclaredIn, ModuleBindings, PreambleBindings, Meant, ValidDeclaration,
      AgenixFollows;
    FlakeTextSays(decls, importsAgenix);
    var bs := FlakeBindings(decls, importsAgenix);
    if BuiltinAgenix in decls {
      FollowsIsSaid(decls, importsAgenix);
    }
    DeclarationsRead(bs, decls);
    ModuleDeclaresNothing(bs, importsAgenix);
    OnlyTheMiddle(DeclaredIn(bs), PreambleBindings(), FlatMap(DeclarationBindings, decls), ModuleBindings(importsAgenix));
  }

  lemma OnlyTheMiddle<A, B>(f: A -> seq<B>, a: seq<A>, b: seq<A>, c: seq<A>)
    requires FlatMap(f, a) == [] && FlatMap(f, c) == []
    ensures FlatMap(f, a + b + c) == FlatMap(f, b)
  {
    FlatMapConcat(f, a + b, c);
    FlatMapConcat(f, a, b);
  }

  lemma FollowsIsSaid(decls: seq<Declaration>, importsAgenix: bool)
    requires BuiltinAgenix in decls
    ensures AgenixFollows() in FlakeBindings(decls, importsAgenix)
  {
    var b := AgenixFollows();
    assert AgenixBindings()[1] == b;
    assert b in DeclarationBindings(BuiltinAgenix);
    hide DeclarationBindings, ModuleBindings, PreambleBindings, AgenixFollows;
    FlatMapMember(DeclarationBindings, decls, b);
  }

  // ---- A reader of imports ----

  function UpToBracket(toks: seq<string>): seq<string> {
    if toks == [] || toks[0] == "]" then [] else [toks[0]] + UpToBracket(toks[1..])
  }

  /** The words of a list, when that is what the value starts with. */
  function ImportList(value: string): seq<string> {
    var toks := Fields(value);
    if toks != [] && toks[0] == "[" then UpToBracket(toks[1..]) else []
  }

  /** What the composed module imports before the host services. */
  function ImportsIn(bs: seq<Binding>): set<seq<string>> {
    ReadAt(bs, ["outputs", "nixosModules.default", "imports"], ImportList)
  }

  predicate ImportsAgenix(bs: seq<Binding>) {
    exists list :: list in ImportsIn(bs) && "inputs.agenix.nixosModules.default" in list
  }

  lemma Words()
    ensures NoSpace("./modules/default.nix") && NoSpace("inputs.agenix.nixosModules.default")
    ensures NoSpace("[") && NoSpace("]")
  {
  }

  /** A list of one word, and of two. */
  lemma OneImport(word: string, tail: string)
    requires word != "" && NoSpace(word) && word != "]" && tail != "" && tail[0] == ' '
    ensures ImportList("[ " + word + " ]" + tail) == [word]
  {
    Words();
    hide Fields, NoSpace;
    var end := "]" + tail;
    FieldsToken("]", tail);
    FieldsWord(word, end);
    FieldsWord("[", word + ([' '] + end));
    assert "[ " + word + " ]" + tail == "[" + ([' '] + (word + ([' '] + end)));
    var toks := ["["] + ([word] + (["]"] + Fields(tail)));
    assert toks[1..] == [word] + (["]"] + Fields(tail));
    UpToOne(word, Fields(tail));
  }

  lemma TwoImports(first: string, second: string, tail: string)
    requires first != "" && NoSpace(first) && first != "]" && second != "" && NoSpace(second) && second != "]"
    requires tail != "" && tail[0] == ' '
    ensures ImportList("[ " + first + " " + second + " ]" + tail) == [first, second]
  {
    Words();
    hide Fields, NoSpace;
    var end := "]" + tail;
    FieldsToken("]", tail);
    FieldsWord(second, end);
    var rest := second + ([' '] + end);
    FieldsWord(first, rest);
    FieldsWord("[", first + ([' '] + rest));
    assert "[ " + first + " " + second + " ]" + tail == "[" + ([' '] + (first + ([' '] + rest)));
    var toks := ["["] + ([first] + ([second] + (["]"] + Fields(tail))));
    assert toks[1..] == [first] + ([second] + (["]"] + Fields(tail)));
    UpToTwo(first, second, Fields(tail));
  }

  lemma UpToOne(word: string, more: seq<string>)
    requires word != "]"
    ensures UpToBracket([word] + (["]"] + more)) == [word]
  {
    assert ([word] + (["]"] + more))[1..] == ["]"] + more;
  }

  lemma UpToTwo(first: string, second: string, more: seq<string>)
    requires first != "]" && second != "]"
    ensures UpToBracket([first] + ([second] + (["]"] + more))) == [first, second]
  {
    UpToOne(second, more);
    assert ([first] + ([second] + (["]"] + more)))[1..] == [second] + (["]"] + more);
  }

  /** The modules that are to be imported. */
  function Imported(agenix: bool): seq<string> {
    ["./modules/default.nix"] + if agenix then ["inputs.agenix.nixosModules.default"] else []
  }

  lemma ImportListReads(importsAgenix: bool)
    ensures ImportList(BaseImports(importsAgenix) + " ++ (map")
         == Imported(importsAgenix)
  {
    Words();
    hide NoSpace, ImportList;
    var plain, agenix := "./modules/default.nix", "inputs.agenix.nixosModules.default";
    OneImport(plain, " ++ (map");
    TwoImports(plain, agenix, " ++ (map");
  }

  lemma NoImportsInInputs(d: Declaration, w: string)
    ensures Binding(MODULE + ["imports"], w) !in DeclarationBindings(d)
  {
    hide NixStr, AttrName, Quoted, UserValue;
    KeysDiffer();
    var b := Binding(MODULE + ["imports"], w);
    assert b.path[0] == "outputs";
    forall x | x in DeclarationBindings(d) ensures x.path[0] == "inputs" {
    }
  }

  lemma ModuleKeysDiffer()
    ensures "imports" != "let v" && "imports" != "then v { flakeInputs" && "imports" != "_module.args.flakeInputs"
  {
  }

  /** The module imports the agenix module exactly when it was told to, and the base
      modules always. */
  lemma ImportsReadBack(decls: seq<Declaration>, importsAgenix: bool)
    requires forall d :: d in decls ==> ValidDeclaration(d)
    ensures ImportsIn(Bindings(FlakeText(decls, importsAgenix)))
         == {Imported(importsAgenix)}
  {
    hide FlakeText, FlakeBindings, Bindings, ValidDeclaration, BaseImports, ImportList, Imported;
    FlakeTextSays(decls, importsAgenix);
    ImportListReads(importsAgenix);
    var value := BaseImports(importsAgenix) + " ++ (map";
    var bs, path := FlakeBindings(decls, importsAgenix), MODULE + ["imports"];
    assert path == ["outputs", "nixosModules.default", "imports"];
    forall w ensures Binding(path, w) in bs <==> w == value {
      ImportsAt(decls, importsAgenix, w);
    }
    I.ReadsOne(bs, path, ImportList, value);
  }

  lemma ImportsAt(decls: seq<Declaration>, importsAgenix: bool, w: string)
    ensures Binding(MODULE + ["imports"], w) in FlakeBindings(decls, importsAgenix)
       <==> w == BaseImports(importsAgenix) + " ++ (map"
  {
    hide FlatMap, DeclarationBindings, BaseImports, Description;
    var b := Binding(MODULE + ["imports"], w);
    FlatMapMember(DeclarationBindings, decls, b);
    forall d: Declaration {
      NoImportsInInputs(d, w);
    }
    ModuleKeysDiffer();
    ImportsInModule(importsAgenix, w);
    assert b.path[0] == "outputs";
  }

  lemma ImportsInModule(importsAgenix: bool, w: string)
    ensures Binding(MODULE + ["imports"], w) in ModuleBindings(importsAgenix) <==> w == BaseImports(importsAgenix) + " ++ (map"
  {
    ModuleKeysDiffer();
    hide BaseImports;
    var value := BaseImports(importsAgenix) + " ++ (map";
    var all := ModuleBindings(importsAgenix);
    assert all == [Binding(MODULE + ["imports"], value), Binding(MODULE + ["let v"], "import path"),
                   Binding(MODULE + ["then v { flakeInputs"], "inputs; }"),
                   Binding(MODULE + ["_module.args.flakeInputs"], "inputs")];
    assert forall x: string :: (MODULE + [x])[2] == x;
    assert all[0] in all;
  }

  // ---- The bytes and the tables ----

  /** The bytes of flake.nix. */
  ghost function FlakeBytes(f: Flake): string {
    FlakeText(Declarations(Listing(multiset(f.inputs)), f.agenix), f.agenix)
  }

  /** Valid names, each once. */
  ghost predicate FlakeNamed(f: Flake) {
    && (forall i :: i in f.inputs ==> ValidName(i.name))
    && forall i, j :: i in f.inputs && j in f.inputs && i.name == j.name ==> i == j
  }

  ghost predicate OwnsAgenix(f: Flake) {
    f.agenix && forall i :: i in f.inputs ==> i.name != "agenix"
  }

  ghost predicate SharesNixpkgs(f: Flake) {
    OwnsAgenix(f) || exists i :: i in f.inputs && i.followsNixpkgs
  }

  /** What the bytes declare: every input of the table with its reference and its sharing;
      nixbox's agenix, when secrets exist and the table has none of that name; nixpkgs, when
      one of these shares it. And what they import: the agenix module exactly with secrets. */
  ghost predicate SaysFlake(bs: seq<Binding>, f: Flake) {
    && (forall d :: d in InputsIn(bs) <==>
          || (exists i :: i in f.inputs && d == Declared(i.name, Newlines(i.url), i.followsNixpkgs))
          || (OwnsAgenix(f) && d == Meant(BuiltinAgenix)) || (SharesNixpkgs(f) && d == Meant(Nixpkgs)))
    && ImportsIn(bs) == {Imported(f.agenix)}
  }

  lemma InputsListed(f: Flake)
    requires FlakeNamed(f)
    ensures var inputs := Listing(multiset(f.inputs));
            && UniqueInputs(inputs) && (forall i :: i in inputs <==> i in f.inputs)
            && (OwnAgenix(inputs, f.agenix) <==> OwnsAgenix(f)) && (NeedsNixpkgs(inputs, f.agenix) <==> SharesNixpkgs(f))
  {
    hide ValidName;
    var inputs := Listing(multiset(f.inputs));
    ListingElements(multiset(f.inputs));
    forall i ensures i in inputs <==> i in f.inputs {
      assert i in multiset(inputs) <==> i in multiset(f.inputs);
    }
    forall i, j | 0 <= i < j < |inputs| ensures inputs[i].name != inputs[j].name {
      if inputs[i] == inputs[j] {
        OccursTwice(inputs, i, j);
      }
      assert inputs[i] in f.inputs && inputs[j] in f.inputs;
    }
  }

  lemma InDeclarations(inputs: seq<FlakeInput>, withAgenix: bool, d: Declaration)
    ensures d in Declarations(inputs, withAgenix)
       <==> match d
            case Nixpkgs => NeedsNixpkgs(inputs, withAgenix)
            case BuiltinAgenix => OwnAgenix(inputs, withAgenix)
            case User(input) => input in inputs
  {
    var sorted := Sort(InputLeq, inputs);
    SortedMembers(inputs);
    MappedAt(UserDeclaration, sorted);
    hide NeedsNixpkgs, OwnAgenix, Sort, Mapped;
    var users := Mapped(UserDeclaration, sorted);
    if d.User? && d.input in inputs {
      var i :| 0 <= i < |sorted| && sorted[i] == d.input;
      assert users[i] == d;
    }
    if d in users {
      var i :| 0 <= i < |users| && users[i] == d;
      assert sorted[i] in inputs;
    }
  }

  lemma DeclarationsAreValid(f: Flake)
    requires FlakeNamed(f)
    ensures forall d :: d in Declarations(Listing(multiset(f.inputs)), f.agenix) ==> ValidDeclaration(d)
  {
    hide Declarations, ValidName;
    InputsListed(f);
    forall d | d in Declarations(Listing(multiset(f.inputs)), f.agenix) ensures ValidDeclaration(d) {
      InDeclarations(Listing(multiset(f.inputs)), f.agenix, d);
    }
  }

  lemma InMapped<A, B>(f: A -> B, xs: seq<A>, y: B)
    ensures y in Mapped(f, xs) <==> exists x :: x in xs && f(x) == y
  {
    MappedAt(f, xs);
    if y in Mapped(f, xs) {
      var i :| 0 <= i < |xs| && Mapped(f, xs)[i] == y;
      assert xs[i] in xs;
    }
    if x :| x in xs && f(x) == y {
      var i :| 0 <= i < |xs| && xs[i] == x;
      assert Mapped(f, xs)[i] == y;
    }
  }

  lemma InputsSaid(f: Flake, d: Declared)
    requires FlakeNamed(f)
    ensures d in Mapped(Meant, Declarations(Listing(multiset(f.inputs)), f.agenix))
       <==> || (exists i :: i in f.inputs && d == Declared(i.name, Newlines(i.url), i.followsNixpkgs))
            || (OwnsAgenix(f) && d == Meant(BuiltinAgenix)) || (SharesNixpkgs(f) && d == Meant(Nixpkgs))
  {
    var inputs := Listing(multiset(f.inputs));
    var decls := Declarations(inputs, f.agenix);
    InputsListed(f);
    InMapped(Meant, decls, d);
    hide Declarations, OwnAgenix, NeedsNixpkgs, OwnsAgenix, SharesNixpkgs, Newlines, Mapped, FlakeNamed;
    InDeclarations(inputs, f.agenix, Nixpkgs);
    InDeclarations(inputs, f.agenix, BuiltinAgenix);
    if i :| i in f.inputs && d == Declared(i.name, Newlines(i.url), i.followsNixpkgs) {
      InDeclarations(inputs, f.agenix, User(i));
      assert Meant(User(i)) == d;
    }
    if d in Mapped(Meant, decls) {
      var x :| x in decls && Meant(x) == d;
      InDeclarations(inputs, f.agenix, x);
    }
  }

  /** Read back without anything of the printer, the bytes say what the tables say. */
  lemma FlakeReadsBack(f: Flake)
    requires FlakeNamed(f)
    ensures SaysFlake(Bindings(FlakeBytes(f)), f)
  {
    hide Bindings, FlakeText, Declarations, FlakeNamed, ValidDeclaration, InputsIn, ImportsIn, OwnsAgenix, SharesNixpkgs,
      Newlines, Mapped, Meant;
    DeclarationsAreValid(f);
    var decls := Declarations(Listing(multiset(f.inputs)), f.agenix);
    InputsReadBack(decls, f.agenix);
    ImportsReadBack(decls, f.agenix);
    forall d: Declared {
      InputsSaid(f, d);
    }
  }

  ghost predicate InputRowsNamed(r: Rows) {
    && (forall iid :: iid in r.inputs ==> ValidName(r.inputs[iid].name))
    && UniqueInputRows(r)
  }

  lemma FlakeOfNamed(r: Rows)
    requires InputRowsNamed(r)
    ensures FlakeNamed(FlakeOf(r))
  {
    hide ValidName;
  }

  /** What a regeneration writes says what the tables say. */
  lemma FlakeSaysTables(r: Rows)
    requires InputRowsNamed(r)
    ensures SaysFlake(Bindings(FlakeBytes(FlakeOf(r))), FlakeOf(r))
    ensures FlakeOf(r).agenix <==> exists sid :: sid in r.secrets
    ensures forall i :: i in FlakeOf(r).inputs <==> exists iid :: iid in r.inputs && r.inputs[iid] == i
  {
    hide SaysFlake, Bindings, FlakeBytes, FlakeNamed, InputRowsNamed;
    FlakeOfNamed(r);
    FlakeReadsBack(FlakeOf(r));
    assert (forall sid :: sid !in r.secrets) ==> r.secrets == map[];
  }

  function NameOfInput(d: Declared): string {
    d.name
  }

  /** How often the bytes declare a name. */
  function TimesDeclared(bs: seq<Binding>, name: string): nat {
    multiset(Mapped(NameOfInput, InputsIn(bs)))[name]
  }

  lemma {:induction false} SameNames(decls: seq<Declaration>)
    ensures Mapped(NameOfInput, Mapped(Meant, decls)) == Mapped(DeclaredName, decls)
  {
    if decls != [] {
      SameNames(decls[1..]);
      assert Mapped(Meant, decls)[1..] == Mapped(Meant, decls[1..]);
      assert NameOfInput(Meant(decls[0])) == DeclaredName(decls[0]);
    }
  }

  /** The bytes of a flake refer to nothing that they do not declare: where they import the
      agenix module, they declare agenix, exactly once; where they share nixpkgs, they
      declare it. */
  ghost predicate BytesClosed(bs: seq<Binding>) {
    && (ImportsAgenix(bs) ==> TimesDeclared(bs, "agenix") == 1)
    && ((exists d :: d in InputsIn(bs) && d.follows) ==> TimesDeclared(bs, "nixpkgs") >= 1)
  }

  lemma ImportedExactly(f: Flake)
    requires FlakeNamed(f)
    ensures ImportsAgenix(Bindings(FlakeBytes(f))) <==> f.agenix
  {
    hide Bindings, FlakeBytes, InputsIn, FlakeNamed;
    FlakeReadsBack(f);
    var bs := Bindings(FlakeBytes(f));
    assert f.agenix ==> Imported(f.agenix)[1] == "inputs.agenix.nixosModules.default";
    assert |"./modules/default.nix"| != |"inputs.agenix.nixosModules.default"|;
  }

  lemma FlakeBytesClosed(f: Flake)
    requires FlakeNamed(f)
    ensures BytesClosed(Bindings(FlakeBytes(f)))
  {
    hide Bindings, FlakeText, Declarations, FlakeNamed, ValidDeclaration, InputsIn, ImportsAgenix, Mapped, Meant;
    var inputs := Listing(multiset(f.inputs));
    var decls := Declarations(inputs, f.agenix);
    InputsListed(f);
    DeclarationsAreValid(f);
    ImportedExactly(f);
    InputsReadBack(decls, f.agenix);
    SameNames(decls);
    FlakeIsClosed(inputs, f.agenix);
    var bs := Bindings(FlakeBytes(f));
    if d :| d in InputsIn(bs) && d.follows {
      FollowerDeclared(decls, d);
    }
  }

  lemma FollowerDeclared(decls: seq<Declaration>, d: Declared)
    requires d in Mapped(Meant, decls) && d.follows
    ensures exists x :: x in decls && FollowsNixpkgs(x)
  {
    InMapped(Meant, decls, d);
    var x :| x in decls && Meant(x) == d;
    assert FollowsNixpkgs(x);
  }

  // ---- Whole runs ----

  ghost predicate InputsNamed(s: State) {
    InputRowsNamed(s.rows) && FlakeNamed(s.disk.flake)
  }

  lemma BeginKeepsInputs(s: State, req: Request)
    requires InputsNamed(s)
    ensures InputsNamed(BeginStep(s, req))
  {
    hide ValidName, FlakeNamed, IndexOf;
    match req {
      case AddInput(_, _) =>
      case SaveInput(_, _, _) =>
      case RemoveInput(_) =>
      case _ => OtherBeginsKeepInputs(s, req);
    }
  }

  lemma OtherBeginsKeepInputs(s: State, req: Request)
    requires !req.AddInput? && !req.SaveInput? && !req.RemoveInput?
    ensures BeginStep(s, req).rows.inputs == s.rows.inputs && BeginStep(s, req).disk.flake == s.disk.flake
  {
    hide ValidName, IndexOf;
  }

  lemma StepKeepsInputs(s: State, l: Label)
    requires InputsNamed(s)
    ensures InputsNamed(Next(s, l))
  {
    hide ValidName, FlakeNamed, FlakeOf, IndexOf, Snapshot, MountsAcceptable, ReplaceMounts, Captured, UniqueInputRows;
    FlakeOfNamed(s.rows);
    match l {
      case Begin(req) => BeginKeepsInputs(s, req);
      case Continue(id, rev) => InputsAtContinue(s, id, rev);
      case Commit(id) => SameInputs(s.rows, CommitStep(s, id).rows);
      case _ =>
    }
  }

  lemma SameInputs(r: Rows, t: Rows)
    requires InputRowsNamed(r) && t.inputs == r.inputs
    ensures InputRowsNamed(t)
  {
  }

  lemma InputsAtContinue(s: State, id: int, rev: int)
    requires InputRowsNamed(s.rows)
    ensures var t := ContinueStep(s, id, rev);
            InputRowsNamed(t.rows) && (t.disk.flake == s.disk.flake || t.disk.flake == FlakeOf(s.rows))
  {
    hide ValidName, FlakeOf, IndexOf, Snapshot, MountsAcceptable, ReplaceMounts;
    var t := ContinueStep(s, id, rev);
    assert t.rows.inputs == s.rows.inputs;
    SameInputs(s.rows, t.rows);
  }

  lemma {:induction false} InputsAlwaysNamed(dryRun: bool, ls: seq<Label>)
    ensures InputsNamed(Run(Init(dryRun), ls))
  {
    if ls != [] {
      hide InputsNamed, Next;
      InputsAlwaysNamed(dryRun, ls[..|ls| - 1]);
      StepKeepsInputs(Run(Init(dryRun), ls[..|ls| - 1]), ls[|ls| - 1]);
    }
  }

  /** After every run whatsoever, the bytes of flake.nix are closed, and say what the last
      regeneration meant. */
  lemma FlakeBytesAlwaysClosed(dryRun: bool, ls: seq<Label>)
    ensures var f := Run(Init(dryRun), ls).disk.flake; var bs := Bindings(FlakeBytes(f));
            BytesClosed(bs) && SaysFlake(bs, f)
  {
    hide BytesClosed, SaysFlake, Bindings, FlakeBytes, Run, FlakeNamed;
    InputsAlwaysNamed(dryRun, ls);
    FlakeReadsBack(Run(Init(dryRun), ls).disk.flake);
    FlakeBytesClosed(Run(Init(dryRun), ls).disk.flake);
  }

  /** The two files agree on secrets. */
  ghost predicate BytesCoherent(indexNix: string, flakeNix: string) {
    I.SecretsIn(Bindings(indexNix)) != {} <==> ImportsAgenix(Bindings(flakeNix))
  }

  /** The bytes of index.nix name secrets exactly when those of flake.nix import agenix,
      whenever a run is at a startApply that has written both. */
  lemma BytesCoherentAfterStartApply(dryRun: bool, ls: seq<Label>)
    requires var pc := Run(Init(dryRun), ls).pc; pc.ApplySnapshot? || pc.ApplyPrune?
    ensures var d := Run(Init(dryRun), ls).disk; BytesCoherent(Render(d.index), FlakeBytes(d.flake))
  {
    hide Bindings, FlakeBytes, Render, Run, FlakeNamed, ImportsAgenix, I.SecretsIn, I.Named;
    var d := Run(Init(dryRun), ls).disk;
    CoherentAfterStartApply(dryRun, ls);
    InputsAlwaysNamed(dryRun, ls);
    I.AlwaysNamed(dryRun, ls);
    I.IndexReadsBack(d.index);
    ImportedExactly(d.flake);
    KeysEmptyExactly(d.index.secrets);
  }

  lemma KeysEmptyExactly(m: map<string, SecretEntry>)
    ensures m.Keys == {} <==> m == map[]
  {
    if m.Keys == {} {
      assert forall n :: n !in m;
    }
  }
}
