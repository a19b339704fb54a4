/** Reading index.nix back: what its bytes say, attribute by attribute, is what the rows
    call for, and every path in them exists. */
module IndexReading {
  import opened Base
  import opened Sorting
  import opened Names
  import opened HostPorts
  import opened NixLiteral
  import opened IndexFile
  import opened AttrReader
  import opened Rows
  import opened Machine
  import opened ClosedFlake

  function WorkloadFile(name: string): string {
    "./workloads/" + name + "/workload.nix"
  }

  function SecretFile(name: string): string {
    "./secrets/" + name + ".age"
  }

  /** An index as the server writes it: the registered sections, valid names, and mounts
      of valid names under registered keys. */
  ghost predicate Named(m: Index) {
    && m.sections.Keys == SECTION_KEYS
    && (forall k, n :: k in m.sections && n in m.sections[k] ==> ValidName(n))
    && (forall n :: n in m.secrets ==> NamedEntry(n, m.secrets[n]))
  }

  ghost predicate NamedEntry(n: string, e: SecretEntry) {
    && ValidName(n) && e.mounts.Keys <= SECTION_KEYS
    && (forall k :: k in e.mounts ==> e.mounts[k] != multiset{})
    && forall k, w :: k in e.mounts && w in e.mounts[k] ==> ValidName(w)
  }

  // ---- What the file says, line by line ----

  function NameBinding(key: string): string -> seq<Binding> {
    n => [Binding([key, n], WorkloadFile(n))]
  }

  ghost function SectionBindings(sections: map<string, multiset<string>>): WorkloadType -> seq<Binding> {
    (t: WorkloadType) =>
      FlatMap(NameBinding(t.indexKey), if t.indexKey in sections then Ascending(StrLeq, sections[t.indexKey]) else [])
  }

  ghost function PortBindings(m: Index): seq<Binding> {
    [Binding(["hostPorts", "tcp"], IntList(Ascending(IntLeq, multiset(m.tcp))))]
    + [Binding(["hostPorts", "udp"], IntList(Ascending(IntLeq, multiset(m.udp))))]
  }

  function StringList(names: seq<string>): string {
    "[ " + Join(" ", Mapped(NixStr, names)) + " ]"
  }

  ghost function MountBinding(n: string, mounts: map<string, multiset<string>>): string -> seq<Binding> {
    k => [Binding(["secrets", n, "mounts", k], StringList(if k in mounts then Ascending(StrLeq, mounts[k]) else []))]
  }

  ghost function MountBindings(n: string, mounts: map<string, multiset<string>>): seq<Binding> {
    FlatMap(MountBinding(n, mounts), Ascending(StrLeq, multiset(mounts.Keys)))
  }

  function IdentityBindings(n: string, owner: string, group: string, mode: string): seq<Binding> {
    [Binding(["secrets", n, "file"], SecretFile(n))] + [Binding(["secrets", n, "owner"], NixStr(owner))]
    + [Binding(["secrets", n, "group"], NixStr(group))] + [Binding(["secrets", n, "mode"], NixStr(mode))]
  }

  ghost function SecretBinding(secrets: map<string, SecretEntry>): string -> seq<Binding> {
    n => if n in secrets
      then IdentityBindings(n, secrets[n].owner, secrets[n].group, secrets[n].mode) + MountBindings(n, secrets[n].mounts)
      else []
  }

  /** Every attribute of the file, in order. */
  ghost function FileBindings(m: Index): seq<Binding> {
    FlatMap(SectionBindings(m.sections), REGISTERED_TYPES) + PortBindings(m)
    + FlatMap(SecretBinding(m.secrets), Ascending(StrLeq, multiset(m.secrets.Keys)))
  }

  lemma OneLineConcat(a: string, b: string)
    requires OneLine(a) && OneLine(b)
    ensures OneLine(a + b)
  {
  }

  lemma ValidNameIsPlain(name: string)
    requires ValidName(name)
    ensures OneLine(name) && PlainKey(AttrName(name)) && Unquoted(AttrName(name)) == name && '\r' !in name
  {
    forall i | 0 <= i < |name| ensures IsNameChar(name[i]) {
    }
  }

  lemma KeyIsPlain(key: string)
    requires key in SECTION_KEYS
    ensures PlainKey(key) && Unquoted(key) == key
  {
  }

  lemma Around(p: string, a: string, b: string, n: string, c: string, d: string)
    ensures p + (a + b) + n + (c + d) == p + a + (b + n + c) + d
  {
  }

  lemma WorkloadLineSays(key: string, n: string)
    requires ValidName(n)
    ensures Says(WorkloadLine(n), [key], NameBinding(key)(n))
  {
    ValidNameIsPlain(n);
    var attr := AttrName(n);
    hide ValidName, AttrName, PlainKey, Unquoted;
    OneLineConcat("./workloads/", n);
    OneLineConcat("./workloads/" + n, "/workload.nix");
    SaysBinding([key], "    ", attr, WorkloadFile(n));
    hide Says;
    assert " = ./workloads/" == " = " + "./workloads/";
    assert "/workload.nix;\n" == "/workload.nix" + ";\n";
    Around("    " + attr, " = ", "./workloads/", n, "/workload.nix", ";\n");
    assert [key] + [n] == [key, n];
  }

  lemma SectionSays(key: string, names: seq<string>)
    requires key in SECTION_KEYS && forall n :: n in names ==> ValidName(n)
    ensures Says(SectionText(key, names), [], FlatMap(NameBinding(key), names))
  {
    KeyIsPlain(key);
    hide ValidName, PlainKey, Unquoted, Says, WorkloadLine, NameBinding;
    forall n | n in names ensures Says(WorkloadLine(n), [key], NameBinding(key)(n)) {
      WorkloadLineSays(key, n);
    }
    SaysAll([key], WorkloadLine, NameBinding(key), names);
    SectionFramed(key, names, FlatMap(NameBinding(key), names));
  }

  lemma SectionFramed(key: string, names: seq<string>, bs: seq<Binding>)
    requires key in SECTION_KEYS && Says(FlatMap(WorkloadLine, names), [key], bs)
    ensures Says(SectionText(key, names), [], bs)
  {
    KeyIsPlain(key);
    hide Says, FlatMap, PlainKey, Unquoted;
    var body := FlatMap(WorkloadLine, names);
    assert [] + [key] == [key];
    SaysPlainSet([], "  ", key, body, bs);
    assert "  };\n" == "  " + "};\n";
    assert SectionText(key, names) == ("  " + key + " = {\n") + body + ("  " + "};\n");
  }

  lemma SectionsSay(sections: map<string, multiset<string>>)
    requires forall k, n :: k in sections && n in sections[k] ==> ValidName(n)
    ensures Says(FlatMap(SectionBlock(sections), REGISTERED_TYPES), [], FlatMap(SectionBindings(sections), REGISTERED_TYPES))
  {
    hide ValidName, Says, SectionText, FlatMap, NameBinding;
    forall t | t in REGISTERED_TYPES ensures Says(SectionBlock(sections)(t), [], SectionBindings(sections)(t)) {
      var names := if t.indexKey in sections then Ascending(StrLeq, sections[t.indexKey]) else [];
      if t.indexKey in sections {
        AscendingMembers(sections[t.indexKey]);
      }
      SectionSays(t.indexKey, names);
    }
    SaysAll([], SectionBlock(sections), SectionBindings(sections), REGISTERED_TYPES);
  }

  lemma AscendingMembers(b: multiset<string>)
    ensures forall n :: n in Ascending(StrLeq, b) <==> n in b
  {
    StrOrder();
    AscendingCorrect(StrLeq, b);
    forall n ensures n in Ascending(StrLeq, b) <==> n in b {
      assert n in multiset(Ascending(StrLeq, b)) <==> n in b;
    }
  }

  // ---- Ports ----

  lemma {:induction false} ItoaHasNoSpace(n: nat)
    ensures NoSpace(Itoa(n)) && OneLine(Itoa(n))
  {
    AtoiItoa(n);
    forall i | 0 <= i < |Itoa(n)| ensures !IsSpace(Itoa(n)[i]) && Itoa(n)[i] != '\n' {
      assert IsDigit(Itoa(n)[i]);
    }
  }

  lemma DecimalReads(x: int)
    ensures Atoi(Decimal(x)) == Some(x) && Decimal(x) != "" && NoSpace(Decimal(x)) && OneLine(Decimal(x))
  {
    var n := if x < 0 then -x else x;
    AtoiItoa(n);
    ItoaHasNoSpace(n);
    hide Itoa, AllDigits, DigitsValue;
    if x < 0 {
      assert Decimal(x)[1..] == Itoa(n);
    }
  }

  lemma {:induction false} JoinIsOneLine(parts: seq<string>)
    requires forall p :: p in parts ==> OneLine(p)
    ensures OneLine(Join(" ", parts))
  {
    if |parts| > 1 {
      assert forall p :: p in parts[1..] ==> p in parts;
      JoinIsOneLine(parts[1..]);
      OneLineConcat(parts[0], " ");
      OneLineConcat(parts[0] + " ", Join(" ", parts[1..]));
    }
  }

  /** Cutting at spaces undoes the joining with spaces. */
  lemma {:induction false} JoinedFields(parts: seq<string>)
    requires parts != [] && forall p :: p in parts ==> p != "" && NoSpace(p)
    ensures Fields(Join(" ", parts) + " ]") == parts + ["]"]
  {
    hide Fields, NoSpace;
    assert parts[0] in parts;
    FieldsBracket();
    if |parts| == 1 {
      FieldsToken(parts[0], " ]");
      assert parts == [parts[0]];
    } else {
      assert forall p :: p in parts[1..] ==> p in parts;
      JoinedFields(parts[1..]);
      var more := Join(" ", parts[1..]) + " ]";
      assert Join(" ", parts) + " ]" == parts[0] + ([' '] + more);
      FieldsToken(parts[0], [' '] + more);
      FieldsSkipSpace(more);
      assert parts + ["]"] == [parts[0]] + (parts[1..] + ["]"]);
    }
  }

  lemma FieldsBracket()
    ensures Fields(" ]") == ["]"]
  {
    FieldsToken("]", "");
    FieldsSkipSpace("]");
    assert "]" + "" == "]" && [' '] + "]" == " ]";
    assert Fields("") == [];
  }

  lemma {:induction false} NumbersRead(xs: seq<int>)
    ensures AllNumbers(Mapped(Decimal, xs)) == Some(xs)
  {
    if xs != [] {
      DecimalReads(xs[0]);
      NumbersRead(xs[1..]);
      hide Atoi;
      var parts := Mapped(Decimal, xs);
      assert parts[0] == Decimal(xs[0]) && parts[1..] == Mapped(Decimal, xs[1..]);
      assert Atoi(parts[0]) == Some(xs[0]) && AllNumbers(parts[1..]) == Some(xs[1..]);
      assert xs == [xs[0]] + xs[1..];
    }
  }

  lemma BracketedFields(parts: seq<string>)
    requires parts != [] && forall p :: p in parts ==> p != "" && NoSpace(p)
    ensures Fields("[ " + Join(" ", parts) + " ]") == ["["] + (parts + ["]"])
  {
    JoinedFields(parts);
    hide Fields, NoSpace, Join;
    var more := Join(" ", parts) + " ]";
    assert "[ " + Join(" ", parts) + " ]" == "[" + ([' '] + more);
    FieldsWord("[", more);
  }

  lemma BracketedReads(parts: seq<string>, xs: seq<int>)
    requires parts != [] && (forall p :: p in parts ==> p != "" && NoSpace(p)) && AllNumbers(parts) == Some(xs)
    ensures ReadInts("[ " + Join(" ", parts) + " ]") == Some(xs)
  {
    BracketedFields(parts);
    hide Fields, NoSpace, AllNumbers, Join;
    var toks := ["["] + (parts + ["]"]);
    assert toks[0] == "[" && toks[|toks| - 1] == "]" && toks[1..|toks| - 1] == parts;
  }

  lemma EmptyListReads()
    ensures ReadInts("[ ]") == Some([]) && OneLine("[ ]")
  {
    FieldsBracket();
    assert "]" == "]" + "";
    assert "[ ]" == "[" + ([' '] + "]");
    FieldsWord("[", "]");
    FieldsToken("]", "");
    hide Fields;
    var toks := ["["] + ["]"];
    assert toks[1..|toks| - 1] == [];
  }

  lemma IntListReads(xs: seq<int>)
    ensures ReadInts(IntList(xs)) == Some(xs) && OneLine(IntList(xs))
  {
    if xs == [] {
      EmptyListReads();
    } else {
      var parts := Mapped(Decimal, xs);
      MappedAt(Decimal, xs);
      forall p | p in parts ensures p != "" && NoSpace(p) && OneLine(p) {
        var i :| 0 <= i < |parts| && parts[i] == p;
        DecimalReads(xs[i]);
      }
      NumbersRead(xs);
      hide Decimal, NoSpace, Mapped, ReadInts, Join;
      BracketedReads(parts, xs);
      JoinIsOneLine(parts);
      OneLineConcat("[ ", Join(" ", parts));
      OneLineConcat("[ " + Join(" ", parts), " ]");
    }
  }

  ghost function PortsText(m: Index): string {
    ("    tcp = " + IntList(Ascending(IntLeq, multiset(m.tcp))) + ";\n")
    + ("    udp = " + IntList(Ascending(IntLeq, multiset(m.udp))) + ";\n")
  }

  lemma PortLineSays(start: string, key: string, xs: seq<int>)
    requires PlainKey(key) && Unquoted(key) == key && start == "    " + key + " = "
    ensures Says(start + IntList(xs) + ";\n", ["hostPorts"], [Binding(["hostPorts", key], IntList(xs))])
  {
    IntListReads(xs);
    hide IntList, PlainKey;
    SaysBinding(["hostPorts"], "    ", key, IntList(xs));
    assert ["hostPorts"] + [key] == ["hostPorts", key];
  }

  lemma PortsSay(m: Index)
    ensures Says("  hostPorts = {\n" + PortsText(m) + "  };\n", [], PortBindings(m))
  {
    hide IntList, Ascending, Says;
    PortLineSays("    tcp = ", "tcp", Ascending(IntLeq, multiset(m.tcp)));
    PortLineSays("    udp = ", "udp", Ascending(IntLeq, multiset(m.udp)));
    SaysBoth(["hostPorts"],
             "    tcp = " + IntList(Ascending(IntLeq, multiset(m.tcp))) + ";\n",
             [Binding(["hostPorts", "tcp"], IntList(Ascending(IntLeq, multiset(m.tcp))))],
             "    udp = " + IntList(Ascending(IntLeq, multiset(m.udp))) + ";\n",
             [Binding(["hostPorts", "udp"], IntList(Ascending(IntLeq, multiset(m.udp))))]);
    TopSetSays("hostPorts", "  hostPorts = {\n", PortsText(m), PortBindings(m));
  }

  lemma TopSetSays(key: string, start: string, body: string, bs: seq<Binding>)
    requires PlainKey(key) && Unquoted(key) == key && start == "  " + key + " = {\n" && Says(body, [key], bs)
    ensures Says(start + body + "  };\n", [], bs)
  {
    hide Says, PlainKey, Unquoted;
    assert [] + [key] == [key];
    SaysPlainSet([], "  ", key, body, bs);
    assert "  };\n" == "  " + "};\n";
  }

  // ---- Secrets ----

  lemma {:induction false} EscapeIsOneLine(s: string)
    ensures OneLine(Escape(s))
    decreases |s|
  {
    if s != "" {
      EscapeIsOneLine(s[1..]);
      if |s| > 1 {
        EscapeIsOneLine(s[2..]);
      }
    }
  }

  lemma NixStrIsOneLine(s: string)
    ensures OneLine(NixStr(s))
  {
    EscapeIsOneLine(s);
    OneLineConcat("\"", Escape(s));
    OneLineConcat("\"" + Escape(s), "\"");
  }

  lemma {:induction false} ItemsRead(names: seq<string>)
    requires names != []
    ensures ReadItems(Join(" ", Mapped(NixStr, names)) + " ]") == Some(Mapped(Newlines, names))
  {
    hide NixStr, Newlines, ReadItems;
    var parts := Mapped(NixStr, names);
    if |names| == 1 {
      EndOfItems();
      assert Join(" ", parts) + " ]" == NixStr(names[0]) + (" " + "]");
      PrintedItemReads(names[0], "]", []);
      assert Mapped(Newlines, names) == [Newlines(names[0])] + [];
    } else {
      ItemsRead(names[1..]);
      var more := Join(" ", parts[1..]) + " ]";
      assert parts[1..] == Mapped(NixStr, names[1..]);
      assert Join(" ", parts) + " ]" == NixStr(names[0]) + (" " + more);
      PrintedItemReads(names[0], more, Mapped(Newlines, names[1..]));
    }
  }

  lemma EndOfItems()
    ensures ReadItems("]") == Some([])
  {
  }

  lemma StringListReads(names: seq<string>)
    requires names != [] && forall n :: n in names ==> '\r' !in n
    ensures ReadStrings(StringList(names)) == Some(names)
  {
    ItemsRead(names);
    var t := Join(" ", Mapped(NixStr, names)) + " ]";
    MappedAt(Newlines, names);
    forall i | 0 <= i < |names| ensures Newlines(names[i]) == names[i] {
      assert names[i] in names;
    }
    assert Mapped(Newlines, names) == names;
    hide Join, NixStr, ReadItems, Newlines;
    assert StringList(names) == "[ " + t;
    assert StringList(names)[..2] == "[ " && StringList(names)[2..] == t;
  }

  lemma StringListIsOneLine(names: seq<string>)
    ensures OneLine(StringList(names))
  {
    var parts := Mapped(NixStr, names);
    MappedAt(NixStr, names);
    forall p | p in parts ensures OneLine(p) {
      var i :| 0 <= i < |parts| && parts[i] == p;
      NixStrIsOneLine(names[i]);
    }
    JoinIsOneLine(parts);
    hide NixStr, Join;
    OneLineConcat("[ ", Join(" ", parts));
    OneLineConcat("[ " + Join(" ", parts), " ]");
  }

  lemma MountLineSays(n: string, mounts: map<string, multiset<string>>, k: string)
    requires k in SECTION_KEYS
    ensures Says(MountBlock(mounts)(k), ["secrets", n, "mounts"], MountBinding(n, mounts)(k))
  {
    KeyIsPlain(k);
    var names := if k in mounts then Ascending(StrLeq, mounts[k]) else [];
    StringListIsOneLine(names);
    hide PlainKey, Unquoted, Ascending;
    SaysBinding(["secrets", n, "mounts"], "        ", k, StringList(names));
    hide Says, NixStr, Join;
    assert " = [ " == " = " + "[ " && " ];\n" == " ]" + ";\n";
    Around("        " + k, " = ", "[ ", Join(" ", Mapped(NixStr, names)), " ]", ";\n");
    assert ["secrets", n, "mounts"] + [k] == ["secrets", n, "mounts", k];
  }

  lemma MountsSay(n: string, mounts: map<string, multiset<string>>)
    requires mounts.Keys <= SECTION_KEYS
    ensures Says(MountsText(mounts), ["secrets", n, "mounts"], MountBindings(n, mounts))
  {
    hide Says, MountBlock, MountBinding;
    var keys := Ascending(StrLeq, multiset(mounts.Keys));
    AscendingMembers(multiset(mounts.Keys));
    forall k | k in keys ensures Says(MountBlock(mounts)(k), ["secrets", n, "mounts"], MountBinding(n, mounts)(k)) {
      assert k in mounts.Keys;
      MountLineSays(n, mounts, k);
    }
    SaysAll(["secrets", n, "mounts"], MountBlock(mounts), MountBinding(n, mounts), keys);
  }

  function IdentityText(n: string, owner: string, group: string, mode: string): string {
    ("      file = ./secrets/" + n + ".age;\n") + ("      owner = " + NixStr(owner) + ";\n")
    + ("      group = " + NixStr(group) + ";\n") + ("      mode = " + NixStr(mode) + ";\n")
  }

  lemma AttributeSays(n: string, start: string, key: string, value: string)
    requires PlainKey(key) && Unquoted(key) == key && start == "      " + key + " = "
    ensures Says(start + NixStr(value) + ";\n", ["secrets", n], [Binding(["secrets", n, key], NixStr(value))])
  {
    NixStrIsOneLine(value);
    hide NixStr, PlainKey;
    SaysBinding(["secrets", n], "      ", key, NixStr(value));
    assert ["secrets", n] + [key] == ["secrets", n, key];
  }

  lemma FileLineStarts()
    ensures "      file = ./secrets/" == "      " + "file" + (" = " + "./secrets/")
    ensures ".age;\n" == ".age" + ";\n"
  {
  }

  lemma FileLineSays(n: string)
    requires OneLine(n)
    ensures Says("      file = ./secrets/" + n + ".age;\n", ["secrets", n], [Binding(["secrets", n, "file"], SecretFile(n))])
  {
    OneLineConcat("./secrets/", n);
    OneLineConcat("./secrets/" + n, ".age");
    FileLineStarts();
    Around("      " + "file", " = ", "./secrets/", n, ".age", ";\n");
    SaysBinding(["secrets", n], "      ", "file", SecretFile(n));
    hide Says;
    assert ["secrets", n] + ["file"] == ["secrets", n, "file"];
  }

  lemma IdentitySays(n: string, owner: string, group: string, mode: string)
    requires OneLine(n)
    ensures Says(IdentityText(n, owner, group, mode), ["secrets", n], IdentityBindings(n, owner, group, mode))
  {
    FileLineSays(n);
    AttributeSays(n, "      owner = ", "owner", owner);
    AttributeSays(n, "      group = ", "group", group);
    AttributeSays(n, "      mode = ", "mode", mode);
    hide Says, NixStr, SecretFile;
    var open := ["secrets", n];
    var file, o, g, m := "      file = ./secrets/" + n + ".age;\n", "      owner = " + NixStr(owner) + ";\n",
      "      group = " + NixStr(group) + ";\n", "      mode = " + NixStr(mode) + ";\n";
    var bf, bo := [Binding(["secrets", n, "file"], SecretFile(n))], [Binding(["secrets", n, "owner"], NixStr(owner))];
    var bg, bm := [Binding(["secrets", n, "group"], NixStr(group))], [Binding(["secrets", n, "mode"], NixStr(mode))];
    SaysBoth(open, file, bf, o, bo);
    SaysBoth(open, file + o, bf + bo, g, bg);
    SaysBoth(open, file + o + g, bf + bo + bg, m, bm);
  }

  /** The mounts of a secret, as a set of their own. */
  lemma MountSetSays(n: string, mountLines: string, bs: seq<Binding>)
    requires Says(mountLines, ["secrets", n, "mounts"], bs)
    ensures Says("      mounts = {\n" + mountLines + "      };\n", ["secrets", n], bs)
  {
    hide Says;
    assert ["secrets", n] + ["mounts"] == ["secrets", n, "mounts"];
    SaysPlainSet(["secrets", n], "      ", "mounts", mountLines, bs);
    assert "      mounts = {\n" == "      " + "mounts" + " = {\n";
    assert "      };\n" == "      " + "};\n";
  }

  lemma Grouped(p: string, a: string, b: string, c: string)
    ensures p + a + b + c == p + (a + b + c)
  {
  }

  lemma PlainGrouped(a: string, b: string, c: string)
    ensures a + b + c == a + (b + c)
  {
  }

  lemma SecretTextGrouped(n: string, owner: string, group: string, mode: string, mountLines: string)
    ensures SecretText(n, owner, group, mode, mountLines) ==
            ("    " + AttrName(n) + " = {\n")
            + (IdentityText(n, owner, group, mode) + ("      mounts = {\n" + mountLines + "      };\n")) + "    };\n"
  {
    hide AttrName, NixStr;
    var head := "    " + AttrName(n) + " = {\n";
    var f, o := "      file = ./secrets/" + n + ".age;\n", "      owner = " + NixStr(owner) + ";\n";
    var g, m := "      group = " + NixStr(group) + ";\n", "      mode = " + NixStr(mode) + ";\n";
    var mounts := "      mounts = {\n" + mountLines + "      };\n";
    Grouped(head, "      file = ./secrets/", n, ".age;\n");
    Grouped(head + f, "      owner = ", NixStr(owner), ";\n");
    Grouped(head + f + o, "      group = ", NixStr(group), ";\n");
    Grouped(head + f + o + g, "      mode = ", NixStr(mode), ";\n");
    assert "      };\n    };\n" == "      };\n" + "    };\n";
    Regrouped(head + f + o + g + m, "      mounts = {\n", mountLines, "      };\n", "    };\n");
    Grouped(head, f, o, g);
    PlainGrouped(head, f + o + g, m);
    PlainGrouped(head, f + o + g + m, mounts);
  }

  lemma Regrouped(p: string, a: string, b: string, c: string, d: string)
    ensures p + a + b + (c + d) == p + (a + b + c) + d
  {
  }

  lemma SecretSays(n: string, owner: string, group: string, mode: string, mountLines: string, bs: seq<Binding>)
    requires ValidName(n) && Says(mountLines, ["secrets", n, "mounts"], bs)
    ensures Says(SecretText(n, owner, group, mode, mountLines), ["secrets"], IdentityBindings(n, owner, group, mode) + bs)
  {
    ValidNameIsPlain(n);
    SecretTextGrouped(n, owner, group, mode, mountLines);
    IdentitySays(n, owner, group, mode);
    MountSetSays(n, mountLines, bs);
    var attr := AttrName(n);
    hide Says, ValidName, AttrName, PlainKey, Unquoted, IdentityText, IdentityBindings, SecretText;
    var mounts := "      mounts = {\n" + mountLines + "      };\n";
    var body := IdentityText(n, owner, group, mode) + mounts;
    SaysBoth(["secrets", n], IdentityText(n, owner, group, mode), IdentityBindings(n, owner, group, mode), mounts, bs);
    assert ["secrets"] + [n] == ["secrets", n];
    SaysSet(["secrets"], "    ", attr, "{", body, IdentityBindings(n, owner, group, mode) + bs);
    assert " = {\n" == " = " + "{" + "\n" && "    };\n" == "    " + "};\n";
    assert "    " + attr + " = {\n" == "    " + attr + " = " + "{" + "\n";
  }

  lemma SecretsSay(secrets: map<string, SecretEntry>)
    requires forall n :: n in secrets ==> NamedEntry(n, secrets[n])
    ensures Says(SecretsText(secrets), [], FlatMap(SecretBinding(secrets), Ascending(StrLeq, multiset(secrets.Keys))))
  {
    hide Says, SecretText, IdentityBindings, MountBindings, MountsText, ValidName;
    var names := Ascending(StrLeq, multiset(secrets.Keys));
    AscendingMembers(multiset(secrets.Keys));
    forall n | n in names ensures Says(SecretBlock(secrets)(n), ["secrets"], SecretBinding(secrets)(n)) {
      assert n in secrets.Keys;
      var e := secrets[n];
      MountsSay(n, e.mounts);
      SecretSays(n, e.owner, e.group, e.mode, MountsText(e.mounts), MountBindings(n, e.mounts));
    }
    hide SecretBlock, SecretBinding;
    SaysAll(["secrets"], SecretBlock(secrets), SecretBinding(secrets), names);
    TopSetSays("secrets", "  secrets = {\n", FlatMap(SecretBlock(secrets), names), FlatMap(SecretBinding(secrets), names));
  }

  // ---- The whole file ----

  const HEADER := COMMENT + "\n{\n"

  lemma SilentLine(l: string)
    requires OneLine(l) && l != "" && l[0] != ' ' && l != "};" && '=' !in l
    ensures Says(l + "\n", [], [])
  {
    SaysOther([], "", l);
    hide Says;
    assert "" + l + "\n" == l + "\n";
  }

  lemma CommentSays()
    ensures Says(COMMENT + "\n", [], [])
  {
    SilentLine(COMMENT);
  }

  lemma LineBreaks(l: string)
    ensures l + "\n{\n" == (l + "\n") + ("{" + "\n")
  {
  }

  lemma HeaderSays()
    ensures Says(HEADER, [], [])
  {
    CommentSays();
    SilentLine("{");
    hide Says;
    var none: seq<Binding> := [];
    var comment := COMMENT;
    SaysBoth([], comment + "\n", none, "{" + "\n", none);
    assert none + none == none;
    LineBreaks(comment);
  }

  lemma FooterSays()
    ensures Says("}\n", [], [])
  {
    SilentLine("}");
    hide Says;
    assert "}\n" == "}" + "\n";
  }

  lemma PartsSay(sections: string, x: seq<Binding>, ports: string, y: seq<Binding>, secrets: string, z: seq<Binding>)
    requires Says(sections, [], x) && Says(ports, [], y) && Says(secrets, [], z)
    ensures Says(HEADER + sections + ports + secrets + "}\n", [], x + y + z)
  {
    HeaderSays();
    FooterSays();
    hide Says;
    SaysBoth([], HEADER, [], sections, x);
    assert [] + x == x;
    SaysBoth([], HEADER + sections, x, ports, y);
    SaysBoth([], HEADER + sections + ports, x + y, secrets, z);
    SaysBoth([], HEADER + sections + ports + secrets, x + y + z, "}\n", []);
    assert x + y + z + [] == x + y + z;
  }

  lemma RenderGrouped(m: Index)
    ensures Render(m) == HEADER + FlatMap(SectionBlock(m.sections), REGISTERED_TYPES)
                         + ("  hostPorts = {\n" + PortsText(m) + "  };\n") + SecretsText(m.secrets) + "}\n"
  {
    hide FlatMap, IntList, Ascending, SecretsText, SectionBlock;
    var start := HEADER + FlatMap(SectionBlock(m.sections), REGISTERED_TYPES);
    var tcp, udp := IntList(Ascending(IntLeq, multiset(m.tcp))), IntList(Ascending(IntLeq, multiset(m.udp)));
    var t, u := "    tcp = " + tcp + ";\n", "    udp = " + udp + ";\n";
    Grouped(start + "  hostPorts = {\n", "    tcp = ", tcp, ";\n");
    Grouped(start + "  hostPorts = {\n" + t, "    udp = ", udp, ";\n");
    PlainGrouped(start + "  hostPorts = {\n", t, u);
    Grouped(start, "  hostPorts = {\n", t + u, "  };\n");
  }

  /** Read line by line, the canonical bytes say exactly this, in this order. */
  lemma RenderSays(m: Index)
    requires Named(m)
    ensures Bindings(Render(m)) == FileBindings(m)
  {
    RenderGrouped(m);
    SectionsSay(m.sections);
    PortsSay(m);
    SecretsSay(m.secrets);
    hide Says, FlatMap, SectionBlock, SecretsText, PortsText, PortBindings, SecretBinding, SectionBindings, Named, Render,
      Bindings, Ascending;
    var sections := FlatMap(SectionBlock(m.sections), REGISTERED_TYPES);
    var x := FlatMap(SectionBindings(m.sections), REGISTERED_TYPES);
    var ports, y := "  hostPorts = {\n" + PortsText(m) + "  };\n", PortBindings(m);
    var secrets, z := SecretsText(m.secrets), FlatMap(SecretBinding(m.secrets), Ascending(StrLeq, multiset(m.secrets.Keys)));
    PartsSay(sections, x, ports, y, secrets, z);
    SaidBindings(Render(m), x + y + z);
  }

  lemma InSection(sections: map<string, multiset<string>>, t: WorkloadType, b: Binding)
    requires t.indexKey in sections
    ensures b in SectionBindings(sections)(t)
       <==> exists n :: n in sections[t.indexKey] && b == Binding([t.indexKey, n], WorkloadFile(n))
  {
    hide WorkloadFile, FlatMap, Ascending;
    AscendingMembers(sections[t.indexKey]);
    FlatMapMember(NameBinding(t.indexKey), Ascending(StrLeq, sections[t.indexKey]), b);
  }

  ghost predicate OfSection(sections: map<string, multiset<string>>, k: string, b: Binding) {
    k in sections && exists n :: n in sections[k] && b == Binding([k, n], WorkloadFile(n))
  }

  lemma InSections(sections: map<string, multiset<string>>, b: Binding)
    requires sections.Keys == SECTION_KEYS
    ensures b in FlatMap(SectionBindings(sections), REGISTERED_TYPES) <==> exists k :: OfSection(sections, k, b)
  {
    FlatMapMember(SectionBindings(sections), REGISTERED_TYPES, b);
    forall t | t in REGISTERED_TYPES ensures b in SectionBindings(sections)(t) <==> OfSection(sections, t.indexKey, b) {
      InSection(sections, t, b);
    }
    hide WorkloadFile, FlatMap, SectionBindings;
    forall k | k in SECTION_KEYS ensures exists t :: t in REGISTERED_TYPES && t.indexKey == k {
      KeyIsOfType(k);
    }
  }

  lemma KeyIsOfType(key: string)
    requires key in SECTION_KEYS
    ensures exists t :: t in REGISTERED_TYPES && t.indexKey == key
  {
    assert REGISTERED_TYPES[0] in REGISTERED_TYPES && REGISTERED_TYPES[1] in REGISTERED_TYPES
           && REGISTERED_TYPES[2] in REGISTERED_TYPES;
  }

  lemma InMounts(n: string, mounts: map<string, multiset<string>>, b: Binding)
    ensures b in MountBindings(n, mounts)
       <==> exists k :: k in mounts
                     && b == Binding(["secrets", n, "mounts", k], StringList(Ascending(StrLeq, mounts[k])))
  {
    hide FlatMap, Ascending, StringList;
    var keys := Ascending(StrLeq, multiset(mounts.Keys));
    AscendingMembers(multiset(mounts.Keys));
    FlatMapMember(MountBinding(n, mounts), keys, b);
    forall k ensures k in keys <==> k in mounts {
      assert k in multiset(mounts.Keys) <==> k in mounts;
    }
  }

  /** What one secret's set says. */
  ghost predicate OfSecret(n: string, e: SecretEntry, b: Binding) {
    b in IdentityBindings(n, e.owner, e.group, e.mode) || b in MountBindings(n, e.mounts)
  }

  lemma InSecrets(secrets: map<string, SecretEntry>, b: Binding)
    ensures b in FlatMap(SecretBinding(secrets), Ascending(StrLeq, multiset(secrets.Keys)))
       <==> exists n :: n in secrets && OfSecret(n, secrets[n], b)
  {
    hide FlatMap, Ascending, IdentityBindings, MountBindings;
    var names := Ascending(StrLeq, multiset(secrets.Keys));
    AscendingMembers(multiset(secrets.Keys));
    FlatMapMember(SecretBinding(secrets), names, b);
    forall n ensures n in names <==> n in secrets {
      assert n in multiset(secrets.Keys) <==> n in secrets;
    }
  }

  /** The shapes of paths, which tell the parts of the file apart. */
  lemma OfSecretPath(n: string, e: SecretEntry, b: Binding)
    requires OfSecret(n, e, b)
    ensures |b.path| >= 3 && b.path[0] == "secrets" && b.path[1] == n
    ensures |b.path| == 3 ==> b in IdentityBindings(n, e.owner, e.group, e.mode)
    ensures |b.path| == 4 ==> b in MountBindings(n, e.mounts)
  {
    hide StringList, MountBindings;
    InMounts(n, e.mounts, b);
  }

  lemma HeadsDiffer()
    ensures "hostPorts" !in SECTION_KEYS && "secrets" !in SECTION_KEYS && "secrets" != "hostPorts"
    ensures "tcp" != "udp"
  {
    assert "tcp"[0] != "udp"[0];
  }

  lemma InParts(m: Index, b: Binding)
    requires m.sections.Keys == SECTION_KEYS
    ensures b in FileBindings(m)
       <==> || (exists k :: OfSection(m.sections, k, b)) || b in PortBindings(m)
            || exists n :: n in m.secrets && OfSecret(n, m.secrets[n], b)
  {
    InSections(m.sections, b);
    InSecrets(m.secrets, b);
    hide OfSection, OfSecret, FlatMap, PortBindings, SectionBindings, SecretBinding, Ascending;
  }

  /** What is in the file, by the shape of the path. */
  lemma InFile(m: Index, b: Binding)
    requires m.sections.Keys == SECTION_KEYS && b.path != []
    ensures b.path[0] in SECTION_KEYS ==> (b in FileBindings(m) <==> OfSection(m.sections, b.path[0], b))
    ensures b.path[0] == "hostPorts" ==> (b in FileBindings(m) <==> b in PortBindings(m))
    ensures b.path[0] == "secrets" ==>
              (b in FileBindings(m) <==> |b.path| >= 3 && b.path[1] in m.secrets && OfSecret(b.path[1], m.secrets[b.path[1]], b))
    ensures b in FileBindings(m) ==> b.path[0] in SECTION_KEYS || b.path[0] == "hostPorts" || b.path[0] == "secrets"
  {
    HeadsDiffer();
    InParts(m, b);
    hide FileBindings, OfSecret;
    if b in PortBindings(m) {
      PortsUnderHostPorts(m, b);
    }
    forall k | OfSection(m.sections, k, b) ensures b.path[0] == k && k in SECTION_KEYS {
    }
    hide OfSection, PortBindings;
    forall n | n in m.secrets && OfSecret(n, m.secrets[n], b) ensures |b.path| >= 3 && b.path[0] == "secrets" && b.path[1] == n {
      OfSecretPath(n, m.secrets[n], b);
    }
  }

  lemma PortsUnderHostPorts(m: Index, b: Binding)
    requires b in PortBindings(m)
    ensures b.path != [] && b.path[0] == "hostPorts"
  {
  }

  lemma ReadsOne<T>(bs: seq<Binding>, path: seq<string>, read: string -> T, v: string)
    requires forall w :: Binding(path, w) in bs <==> w == v
    ensures ReadAt(bs, path, read) == {read(v)}
  {
    assert Binding(path, v) in bs;
    forall b | b in bs && b.path == path ensures b.value == v {
      assert b == Binding(path, b.value);
    }
  }

  lemma ReadsNone<T>(bs: seq<Binding>, path: seq<string>, read: string -> T)
    requires forall w :: Binding(path, w) !in bs
    ensures ReadAt(bs, path, read) == {}
  {
    forall b | b in bs ensures b.path != path {
      assert b == Binding(b.path, b.value);
    }
  }

  predicate StrictlyAscending(xs: seq<int>) {
    forall i, j :: 0 <= i < j < |xs| ==> xs[i] < xs[j]
  }

  /** The file opens these ports: one ascending list, without repetition. */
  ghost predicate SaysPorts(bs: seq<Binding>, key: string, ports: set<int>) {
    exists list :: ReadAt(bs, ["hostPorts", key], ReadInts) == {Some(list)} && StrictlyAscending(list) && Elements(list) == ports
  }

  ghost predicate SaysNames(bs: seq<Binding>, path: seq<string>, names: multiset<string>) {
    exists list :: ReadAt(bs, path, ReadStrings) == {Some(list)} && Sorted(StrLeq, list) && multiset(list) == names
  }

  /** The file says this of a secret: its ciphertext, its identity, and where it goes. */
  ghost predicate SaysSecret(bs: seq<Binding>, n: string, e: SecretEntry) {
    && ReadAt(bs, ["secrets", n, "file"], Raw) == {SecretFile(n)}
    && ReadAt(bs, ["secrets", n, "owner"], ReadString) == {Some(Newlines(e.owner))}
    && ReadAt(bs, ["secrets", n, "group"], ReadString) == {Some(Newlines(e.group))}
    && ReadAt(bs, ["secrets", n, "mode"], ReadString) == {Some(Newlines(e.mode))}
    && forall k :: if k in e.mounts then SaysNames(bs, ["secrets", n, "mounts", k], e.mounts[k])
                   else ReadAt(bs, ["secrets", n, "mounts", k], ReadStrings) == {}
  }

  function SecretsIn(bs: seq<Binding>): set<string> {
    set b | b in bs && |b.path| >= 2 && b.path[0] == "secrets" :: b.path[1]
  }

  lemma SectionsRead(m: Index, k: string, n: string)
    requires Named(m) && k in SECTION_KEYS
    ensures ReadAt(FileBindings(m), [k, n], Raw) == if n in m.sections[k] then {WorkloadFile(n)} else {}
  {
    hide FileBindings, ValidName, WorkloadFile;
    forall w ensures Binding([k, n], w) in FileBindings(m) <==> n in m.sections[k] && w == WorkloadFile(n) {
      InFile(m, Binding([k, n], w));
      assert [k, n][0] == k && [k, n][1] == n;
    }
    if n in m.sections[k] {
      ReadsOne(FileBindings(m), [k, n], Raw, WorkloadFile(n));
    } else {
      ReadsNone(FileBindings(m), [k, n], Raw);
    }
  }

  lemma AscendingPorts(ports: set<int>)
    ensures var list := Ascending(IntLeq, multiset(ports)); StrictlyAscending(list) && Elements(list) == ports
  {
    AscendingSet(IntLeq, ports);
    var list := Ascending(IntLeq, multiset(ports));
    forall i, j | 0 <= i < j < |list| ensures list[i] < list[j] {
      assert IntLeq(list[i], list[j]);
    }
  }

  lemma PortsRead(m: Index, udp: bool)
    requires Named(m)
    ensures SaysPorts(FileBindings(m), if udp then "udp" else "tcp", if udp then m.udp else m.tcp)
  {
    hide FileBindings, IntList, Ascending, ReadInts, StrictlyAscending;
    var key, ports := if udp then "udp" else "tcp", if udp then m.udp else m.tcp;
    var list := Ascending(IntLeq, multiset(ports));
    AscendingPorts(ports);
    HeadsDiffer();
    forall w ensures Binding(["hostPorts", key], w) in FileBindings(m) <==> w == IntList(list) {
      InFile(m, Binding(["hostPorts", key], w));
      assert ["hostPorts", "tcp"][1] == "tcp" && ["hostPorts", "udp"][1] == "udp";
    }
    ReadsOne(FileBindings(m), ["hostPorts", key], ReadInts, IntList(list));
    IntListReads(list);
  }

  lemma AttributeKeys()
    ensures "file" != "owner" && "file" != "group" && "file" != "mode" && "owner" != "group" && "owner" != "mode"
    ensures "group" != "mode"
  {
    assert "file"[0] != "mode"[0] && "owner"[0] != "group"[0];
  }

  /** One of the four attributes. */
  lemma IdentityAt(m: Index, n: string, key: string, value: string)
    requires Named(m) && n in m.secrets
    requires var e := m.secrets[n];
             || (key == "file" && value == SecretFile(n)) || (key == "owner" && value == NixStr(e.owner))
             || (key == "group" && value == NixStr(e.group)) || (key == "mode" && value == NixStr(e.mode))
    ensures forall w :: Binding(["secrets", n, key], w) in FileBindings(m) <==> w == value
  {
    hide FileBindings, NixStr, SecretFile, MountBindings, ValidName;
    AttributeKeys();
    var e := m.secrets[n];
    forall w ensures Binding(["secrets", n, key], w) in FileBindings(m) <==> w == value {
      var b := Binding(["secrets", n, key], w);
      InFile(m, b);
      if OfSecret(n, e, b) {
        OfSecretPath(n, e, b);
      }
      IdentityOnly(n, e, key, w);
    }
  }

  lemma IdentityOnly(n: string, e: SecretEntry, key: string, w: string)
    ensures Binding(["secrets", n, key], w) in IdentityBindings(n, e.owner, e.group, e.mode)
       <==> || (key == "file" && w == SecretFile(n)) || (key == "owner" && w == NixStr(e.owner))
            || (key == "group" && w == NixStr(e.group)) || (key == "mode" && w == NixStr(e.mode))
  {
    hide NixStr, SecretFile;
    var all := IdentityBindings(n, e.owner, e.group, e.mode);
    assert all == [Binding(["secrets", n, "file"], SecretFile(n)), Binding(["secrets", n, "owner"], NixStr(e.owner)),
                   Binding(["secrets", n, "group"], NixStr(e.group)), Binding(["secrets", n, "mode"], NixStr(e.mode))];
    assert forall x: string :: ["secrets", n, x][2] == x;
    assert all[0] in all && all[1] in all && all[2] in all && all[3] in all;
  }

  lemma IdentityReads(m: Index, n: string)
    requires Named(m) && n in m.secrets
    ensures var e, bs := m.secrets[n], FileBindings(m);
            && ReadAt(bs, ["secrets", n, "file"], Raw) == {SecretFile(n)}
            && ReadAt(bs, ["secrets", n, "owner"], ReadString) == {Some(Newlines(e.owner))}
            && ReadAt(bs, ["secrets", n, "group"], ReadString) == {Some(Newlines(e.group))}
            && ReadAt(bs, ["secrets", n, "mode"], ReadString) == {Some(Newlines(e.mode))}
  {
    hide FileBindings, NixStr, SecretFile, Named, Newlines, ReadString;
    var e, bs := m.secrets[n], FileBindings(m);
    IdentityAt(m, n, "file", SecretFile(n));
    ReadsOne(bs, ["secrets", n, "file"], Raw, SecretFile(n));
    IdentityAt(m, n, "owner", NixStr(e.owner));
    ReadsOne(bs, ["secrets", n, "owner"], ReadString, NixStr(e.owner));
    PrintedStringReads(e.owner);
    IdentityAt(m, n, "group", NixStr(e.group));
    ReadsOne(bs, ["secrets", n, "group"], ReadString, NixStr(e.group));
    PrintedStringReads(e.group);
    IdentityAt(m, n, "mode", NixStr(e.mode));
    ReadsOne(bs, ["secrets", n, "mode"], ReadString, NixStr(e.mode));
    PrintedStringReads(e.mode);
  }

  lemma MountAt(m: Index, n: string, k: string)
    requires Named(m) && n in m.secrets
    ensures var mounts := m.secrets[n].mounts;
            forall w :: Binding(["secrets", n, "mounts", k], w) in FileBindings(m)
                   <==> k in mounts && w == StringList(Ascending(StrLeq, mounts[k]))
  {
    hide FileBindings, StringList, Ascending, IdentityBindings, MountBindings, ValidName;
    var e := m.secrets[n];
    forall w ensures Binding(["secrets", n, "mounts", k], w) in FileBindings(m)
                <==> k in e.mounts && w == StringList(Ascending(StrLeq, e.mounts[k])) {
      var b := Binding(["secrets", n, "mounts", k], w);
      InFile(m, b);
      InMounts(n, e.mounts, b);
      if OfSecret(n, e, b) {
        OfSecretPath(n, e, b);
      }
      assert forall j: string :: ["secrets", n, "mounts", j][3] == j;
    }
  }

  lemma MountsRead(m: Index, n: string, k: string)
    requires Named(m) && n in m.secrets
    ensures var mounts := m.secrets[n].mounts;
            if k in mounts then SaysNames(FileBindings(m), ["secrets", n, "mounts", k], mounts[k])
            else ReadAt(FileBindings(m), ["secrets", n, "mounts", k], ReadStrings) == {}
  {
    MountAt(m, n, k);
    var bs, path, mounts := FileBindings(m), ["secrets", n, "mounts", k], m.secrets[n].mounts;
    hide FileBindings, StringList, ReadStrings;
    if k in mounts {
      var list := Ascending(StrLeq, mounts[k]);
      StrOrder();
      AscendingCorrect(StrLeq, mounts[k]);
      AscendingMembers(mounts[k]);
      forall w | w in list ensures '\r' !in w {
        ValidNameIsPlain(w);
      }
      assert list != [] by {
        assert multiset(list) != multiset{};
      }
      StringListReads(list);
      ReadsOne(bs, path, ReadStrings, StringList(list));
    } else {
      ReadsNone(bs, path, ReadStrings);
    }
  }

  lemma SecretsNamed(m: Index)
    requires Named(m)
    ensures SecretsIn(FileBindings(m)) == m.secrets.Keys
  {
    hide FileBindings, ValidName;
    forall n | n in m.secrets ensures n in SecretsIn(FileBindings(m)) {
      IdentityAt(m, n, "file", SecretFile(n));
      assert Binding(["secrets", n, "file"], SecretFile(n)) in FileBindings(m);
    }
    forall b | b in FileBindings(m) && |b.path| >= 2 && b.path[0] == "secrets" ensures b.path[1] in m.secrets {
      InFile(m, b);
    }
  }

  /** Reading the canonical bytes line by line finds, in every section, exactly the files
      of its workloads; the two port lists, ascending; exactly the secrets, each with its
      file, its identity by the rules for literals, and its mount lists; nothing else. */
  lemma IndexReadsBack(m: Index)
    requires Named(m)
    ensures var bs := Bindings(Render(m));
            && (forall k, n :: k in SECTION_KEYS ==>
                  ReadAt(bs, [k, n], Raw) == if n in m.sections[k] then {WorkloadFile(n)} else {})
            && SaysPorts(bs, "tcp", m.tcp) && SaysPorts(bs, "udp", m.udp)
            && SecretsIn(bs) == m.secrets.Keys && (forall n :: n in m.secrets ==> SaysSecret(bs, n, m.secrets[n]))
    ensures forall b :: b in Bindings(Render(m)) && b.path != [] ==>
              b.path[0] in SECTION_KEYS || b.path[0] == "hostPorts" || b.path[0] == "secrets"
  {
    RenderSays(m);
    hide Render, Bindings, FileBindings, SaysPorts, SaysNames, WorkloadFile;
    PortsRead(m, false);
    PortsRead(m, true);
    SecretsNamed(m);
    forall k, n | k in SECTION_KEYS
      ensures ReadAt(FileBindings(m), [k, n], Raw) == if n in m.sections[k] then {WorkloadFile(n)} else {}
    {
      SectionsRead(m, k, n);
    }
    forall n | n in m.secrets ensures SaysSecret(FileBindings(m), n, m.secrets[n]) {
      IdentityReads(m, n);
      forall k ensures if k in m.secrets[n].mounts
                       then SaysNames(FileBindings(m), ["secrets", n, "mounts", k], m.secrets[n].mounts[k])
                       else ReadAt(FileBindings(m), ["secrets", n, "mounts", k], ReadStrings) == {} {
        MountsRead(m, n, k);
      }
    }
    forall b | b in FileBindings(m) && b.path != []
      ensures b.path[0] in SECTION_KEYS || b.path[0] == "hostPorts" || b.path[0] == "secrets"
    {
      InFile(m, b);
    }
  }

  // ---- Every index that a run leaves on disk ----

  ghost predicate RowsNamed(r: Rows) {
    && (forall id :: id in r.workloads ==> ValidName(r.workloads[id].name))
    && (forall sid :: sid in r.secrets ==> ValidName(r.secrets[sid].name))
  }

  ghost predicate StateNamed(s: State) {
    && RowsNamed(s.rows) && Named(s.disk.index)
    && (s.pc.CreateRow? ==> ValidName(s.pc.name))
    && (s.pc.AddSecretRow? || s.pc.SaveSecretRow? ==> ValidName(s.pc.secret.name))
  }

  lemma IndexOfNamed(r: Rows)
    requires RowsNamed(r)
    ensures Named(IndexOf(r))
  {
    hide ValidName, OpenPorts;
    var m := IndexOf(r);
    forall n | n in m.secrets ensures NamedEntry(n, m.secrets[n]) {
      var sid := SecretNamed(r, n);
      forall k | k in m.secrets[n].mounts ensures m.secrets[n].mounts[k] != multiset{} {
        var w :| w in MountNames(r, sid, k);
        assert w in m.secrets[n].mounts[k];
      }
    }
  }

  lemma BeginKeepsNamed(s: State, req: Request)
    requires StateNamed(s)
    ensures StateNamed(BeginStep(s, req))
  {
    hide ValidName, IndexOf, Named;
    IndexOfNamed(s.rows);
  }

  lemma InsertsKeepNamed(s: State, id: int, rev: int)
    requires StateNamed(s) && (s.pc.CreateRow? || s.pc.SaveRow? || s.pc.AddSecretRow? || s.pc.SaveSecretRow?)
    ensures StateNamed(ContinueStep(s, id, rev))
  {
    hide ValidName, MountsAcceptable, ReplaceMounts, Named;
  }

  lemma ContinueKeepsNamed(s: State, id: int, rev: int)
    requires StateNamed(s)
    ensures StateNamed(ContinueStep(s, id, rev))
  {
    hide IndexOf, FlakeOf, Snapshot, Named, RowsNamed;
    if s.pc.CreateRow? || s.pc.SaveRow? || s.pc.AddSecretRow? || s.pc.SaveSecretRow? {
      InsertsKeepNamed(s, id, rev);
    } else {
      IndexOfNamed(s.rows);
    }
  }

  lemma StepKeepsNamed(s: State, l: Label)
    requires StateNamed(s)
    ensures StateNamed(Next(s, l))
  {
    hide ValidName, Named;
    match l {
      case Begin(req) => BeginKeepsNamed(s, req);
      case Continue(id, rev) => ContinueKeepsNamed(s, id, rev);
      case _ =>
    }
  }

  lemma {:induction false} AlwaysNamed(dryRun: bool, ls: seq<Label>)
    ensures StateNamed(Run(Init(dryRun), ls))
  {
    if ls != [] {
      hide StateNamed, Next;
      AlwaysNamed(dryRun, ls[..|ls| - 1]);
      StepKeepsNamed(Run(Init(dryRun), ls[..|ls| - 1]), ls[|ls| - 1]);
    }
  }

  // ---- The bytes and the rows ----

  /** The file lists for the secret exactly who gets it, or nothing if nobody does. */
  ghost predicate SaysWhoGets(bs: seq<Binding>, r: Rows, sid: int, k: string)
    requires sid in r.secrets
  {
    var path := ["secrets", r.secrets[sid].name, "mounts", k];
    if exists n :: Gets(r, sid, k, n) then exists names :: SaysNames(bs, path, multiset(names)) && IsSetOf(r, sid, k, names)
    else ReadAt(bs, path, ReadStrings) == {}
  }

  ghost predicate SaysOpenPorts(bs: seq<Binding>, r: Rows, udp: bool) {
    var key := if udp then "udp" else "tcp";
    exists ports :: SaysPorts(bs, key, ports) && forall n :: n in ports <==> Opens(r, udp, n)
  }

  ghost predicate SaysSecretRow(bs: seq<Binding>, r: Rows, sid: int)
    requires sid in r.secrets
  {
    var row := r.secrets[sid];
    && ReadAt(bs, ["secrets", row.name, "file"], Raw) == {SecretFile(row.name)}
    && ReadAt(bs, ["secrets", row.name, "owner"], ReadString) == {Some(Newlines(row.owner))}
    && ReadAt(bs, ["secrets", row.name, "group"], ReadString) == {Some(Newlines(row.group))}
    && ReadAt(bs, ["secrets", row.name, "mode"], ReadString) == {Some(Newlines(row.mode))}
    && forall k :: k in SECTION_KEYS ==> SaysWhoGets(bs, r, sid, k)
  }

  /** What index.nix says, read back from its bytes, is what the rows say: every enabled
      workload under its type, every port that a newest revision asks for, and every secret
      with its row's identity and the workloads that get it. */
  ghost predicate SaysRows(bs: seq<Binding>, r: Rows) {
    && (forall k, n :: k in SECTION_KEYS ==> ReadAt(bs, [k, n], Raw) == if Lists(r, k, n) then {WorkloadFile(n)} else {})
    && SaysOpenPorts(bs, r, false) && SaysOpenPorts(bs, r, true)
    && (forall n :: n in SecretsIn(bs) <==> exists sid :: sid in r.secrets && r.secrets[sid].name == n)
    && forall sid :: sid in r.secrets ==> SaysSecretRow(bs, r, sid)
  }

  lemma WhoGetsSaid(bs: seq<Binding>, r: Rows, sid: int, k: string, mounts: map<string, multiset<string>>)
    requires sid in r.secrets && k in SECTION_KEYS
    requires k in mounts <==> exists n :: Gets(r, sid, k, n)
    requires k in mounts ==> exists names :: mounts[k] == multiset(names) && IsSetOf(r, sid, k, names)
    requires var path := ["secrets", r.secrets[sid].name, "mounts", k];
             if k in mounts then SaysNames(bs, path, mounts[k]) else ReadAt(bs, path, ReadStrings) == {}
    ensures SaysWhoGets(bs, r, sid, k)
  {
    hide Gets, SaysNames, IsSetOf, ReadAt;
  }

  lemma SecretRowSaid(bs: seq<Binding>, r: Rows, sid: int, e: SecretEntry)
    requires UniqueSecrets(r) && sid in r.secrets && r.secrets[sid].name in IndexOf(r).secrets
    requires e == IndexOf(r).secrets[r.secrets[sid].name] && SaysSecret(bs, r.secrets[sid].name, e)
    ensures SaysSecretRow(bs, r, sid)
  {
    hide IndexOf, Gets, SaysNames, IsSetOf, Newlines, SecretFile, ReadString, ReadStrings, ReadAt, SaysWhoGets;
    IndexSecretExactly(r, sid);
    forall k | k in SECTION_KEYS ensures SaysWhoGets(bs, r, sid, k) {
      WhoGetsSaid(bs, r, sid, k, e.mounts);
    }
  }

  lemma SectionsSaid(bs: seq<Binding>, r: Rows)
    requires forall k, n :: k in SECTION_KEYS ==>
               ReadAt(bs, [k, n], Raw) == if n in IndexOf(r).sections[k] then {WorkloadFile(n)} else {}
    ensures forall k, n :: k in SECTION_KEYS ==> ReadAt(bs, [k, n], Raw) == if Lists(r, k, n) then {WorkloadFile(n)} else {}
  {
    hide ReadAt, WorkloadFile, Lists, SectionNames;
    forall k, n | k in SECTION_KEYS ensures ReadAt(bs, [k, n], Raw) == if Lists(r, k, n) then {WorkloadFile(n)} else {} {
      IndexLists(r, k, n);
    }
  }

  lemma PortsSaid(bs: seq<Binding>, r: Rows)
    requires SaysPorts(bs, "tcp", IndexOf(r).tcp) && SaysPorts(bs, "udp", IndexOf(r).udp)
    ensures SaysOpenPorts(bs, r, false) && SaysOpenPorts(bs, r, true)
  {
    hide SaysPorts, Opens, IndexOf;
    forall n ensures (n in IndexOf(r).tcp <==> Opens(r, false, n)) && (n in IndexOf(r).udp <==> Opens(r, true, n)) {
      OpenPortsExactly(r, false, n);
    }
  }

  lemma IndexNamesSecrets(r: Rows)
    ensures IndexOf(r).secrets.Keys == SecretNames(r)
  {
  }

  lemma RowsSaid(bs: seq<Binding>, r: Rows)
    requires UniqueSecrets(r) && SecretsIn(bs) == IndexOf(r).secrets.Keys
    requires forall k, n :: k in SECTION_KEYS ==>
               ReadAt(bs, [k, n], Raw) == if n in IndexOf(r).sections[k] then {WorkloadFile(n)} else {}
    requires SaysPorts(bs, "tcp", IndexOf(r).tcp) && SaysPorts(bs, "udp", IndexOf(r).udp)
    requires forall n :: n in IndexOf(r).secrets ==> SaysSecret(bs, n, IndexOf(r).secrets[n])
    ensures SaysRows(bs, r)
  {
    hide ReadAt, WorkloadFile, SaysPorts, SaysSecret, SaysSecretRow, SaysOpenPorts, Lists, IndexOf, SecretsIn;
    SectionsSaid(bs, r);
    PortsSaid(bs, r);
    IndexNamesSecrets(r);
    forall sid | sid in r.secrets ensures SaysSecretRow(bs, r, sid) {
      IndexSecretExactly(r, sid);
      SecretRowSaid(bs, r, sid, IndexOf(r).secrets[r.secrets[sid].name]);
    }
  }

  lemma BytesSayRows(r: Rows)
    requires UniqueSecrets(r) && RowsNamed(r)
    ensures SaysRows(Bindings(Render(IndexOf(r))), r)
  {
    hide Bindings, Render, IndexOf, SaysRows, SaysPorts, SaysSecret, ReadAt, SecretsIn, RowsNamed, WorkloadFile;
    IndexOfNamed(r);
    IndexReadsBack(IndexOf(r));
    RowsSaid(Bindings(Render(IndexOf(r))), r);
  }

  /** After every run, an apply that has regenerated the index, wherever it then fails,
      leaves bytes that say what the rows say. */
  lemma ApplyBytesSayRows(dryRun: bool, ls: seq<Label>, mode: Mode)
    requires var s := Run(Init(dryRun), ls); s.pc == Idle && EnabledHaveRevisions(s.rows)
    ensures var s := Run(Init(dryRun), ls); SaysRows(Bindings(Render(Next(s, Begin(Apply(mode))).disk.index)), s.rows)
  {
    hide SaysRows, Bindings, Render, Run, IndexOf, RowsNamed;
    AlwaysNamed(dryRun, ls);
    AlwaysOrderly(dryRun, ls);
    BytesSayRows(Run(Init(dryRun), ls).rows);
  }

  /** After every careful run, every path in the bytes of index.nix exists. */
  lemma BytesAlwaysClosed(dryRun: bool, ls: seq<Label>)
    requires Careful(Init(dryRun), ls)
    ensures var d := Run(Init(dryRun), ls).disk; var bs := Bindings(Render(d.index));
            && (forall k, n, v :: k in SECTION_KEYS && v in ReadAt(bs, [k, n], Raw) ==> v == WorkloadFile(n) && n in d.files)
            && (forall n :: n in SecretsIn(bs) ==>
                  ReadAt(bs, ["secrets", n, "file"], Raw) == {SecretFile(n)} && n in d.ciphertexts)
  {
    hide Bindings, Render, Run, Careful, ReadAt, SecretsIn, ValidName, WorkloadFile, SecretFile, SaysPorts, SaysNames;
    AlwaysClosed(dryRun, ls);
    AlwaysNamed(dryRun, ls);
    var d := Run(Init(dryRun), ls).disk;
    IndexReadsBack(d.index);
    forall k, n | k in SECTION_KEYS && n in d.index.sections[k] ensures n in d.files {
      assert n in NamedBy(d.index);
    }
  }
}
