/** index.nix: the file that tells the host system which workloads and secrets
    exist. Its meaning, its bytes, and the program that writes it. */
module IndexFile {
  import opened Base
  import opened Sorting
  import opened Names
  import opened HostPorts
  import opened NixLiteral

  datatype IndexEntry = IndexEntry(name: string, typ: string, ports: seq<HostPort>)

  datatype IndexSecret = IndexSecret(
    name: string, owner: string, group: string, mode: string, mounts: map<string, seq<string>>)

  /** What the file says of one secret. Only non-empty mount lists are said. */
  datatype SecretEntry = SecretEntry(
    owner: string, group: string, mode: string, mounts: map<string, multiset<string>>)

  /** What the file says, free of any order. */
  datatype Index = Index(
    sections: map<string, multiset<string>>, tcp: set<int>, udp: set<int>, secrets: map<string, SecretEntry>)

  const EMPTY_INDEX := Index(map k | k in SECTION_KEYS :: multiset{}, {}, {}, map[])

  function NameIn(key: string, e: IndexEntry): seq<string> {
    if SectionOf(e.typ) == Some(key) then [e.name] else []
  }

  function NameInSection(key: string): IndexEntry -> seq<string> {
    e => NameIn(key, e)
  }

  function NamesIn(key: string, entries: seq<IndexEntry>): seq<string> {
    FlatMap(NameInSection(key), entries)
  }

  function PortNumbers(udp: bool, ps: seq<HostPort>): seq<int> {
    if ps == [] then []
    else (if (ps[0].proto == "udp") == udp then [ps[0].port] else []) + PortNumbers(udp, ps[1..])
  }

  function EntryPorts(udp: bool, e: IndexEntry): seq<int> {
    if SectionOf(e.typ).Some? then PortNumbers(udp, e.ports) else []
  }

  function PortsOfProtocol(udp: bool): IndexEntry -> seq<int> {
    e => EntryPorts(udp, e)
  }

  function PortsIn(udp: bool, entries: seq<IndexEntry>): seq<int> {
    FlatMap(PortsOfProtocol(udp), entries)
  }

  function EntryOf(s: IndexSecret): SecretEntry {
    SecretEntry(s.owner, s.group, s.mode,
                map k | k in s.mounts && s.mounts[k] != [] :: multiset(s.mounts[k]))
  }

  function SecretsOf(secrets: seq<IndexSecret>): map<string, SecretEntry> {
    if secrets == [] then map[] else SecretsOf(secrets[1..])[secrets[0].name := EntryOf(secrets[0])]
  }

  function Meaning(entries: seq<IndexEntry>, secrets: seq<IndexSecret>): Index {
    Index(map k | k in SECTION_KEYS :: multiset(NamesIn(k, entries)),
          Elements(PortsIn(false, entries)), Elements(PortsIn(true, entries)), SecretsOf(secrets))
  }

  ghost predicate UniqueNames(secrets: seq<IndexSecret>) {
    forall i, j :: 0 <= i < j < |secrets| ==> secrets[i].name != secrets[j].name
  }

  // ---- The bytes that express a meaning ----

  predicate IsLetter(c: char) {
    'a' <= c <= 'z' || 'A' <= c <= 'Z' || c == '_'
  }

  function AttrName(name: string): string {
    if name != "" && IsLetter(name[0])
       && forall i :: 1 <= i < |name| ==> IsLetter(name[i]) || '0' <= name[i] <= '9' || name[i] == '\'' || name[i] == '-'
    then name else "\"" + name + "\""
  }

  function Join(sep: string, parts: seq<string>): string {
    if parts == [] then "" else if |parts| == 1 then parts[0] else parts[0] + sep + Join(sep, parts[1..])
  }

  function Mapped<A, B>(f: A -> B, xs: seq<A>): seq<B> {
    if xs == [] then [] else [f(xs[0])] + Mapped(f, xs[1..])
  }

  function Decimal(x: int): string {
    if x < 0 then "-" + Itoa(-x) else Itoa(x)
  }

  function IntList(xs: seq<int>): string {
    if xs == [] then "[ ]" else "[ " + Join(" ", Mapped(Decimal, xs)) + " ]"
  }

  function WorkloadLine(name: string): string {
    "    " + AttrName(name) + " = ./workloads/" + name + "/workload.nix;\n"
  }

  function SectionText(key: string, names: seq<string>): string {
    "  " + key + " = {\n" + FlatMap(WorkloadLine, names) + "  };\n"
  }

  function MountLine(key: string, names: seq<string>): string {
    "        " + key + " = [ " + Join(" ", Mapped(NixStr, names)) + " ];\n"
  }

  function SecretText(name: string, owner: string, group: string, mode: string, mountLines: string): string {
    "    " + AttrName(name) + " = {\n"
    + "      file = ./secrets/" + name + ".age;\n"
    + "      owner = " + NixStr(owner) + ";\n"
    + "      group = " + NixStr(group) + ";\n"
    + "      mode = " + NixStr(mode) + ";\n"
    + "      mounts = {\n" + mountLines + "      };\n    };\n"
  }

  predicate IntLeq(a: int, b: int) {
    a <= b
  }

  ghost function SectionBlock(sections: map<string, multiset<string>>): WorkloadType -> string {
    (t: WorkloadType) => SectionText(t.indexKey, if t.indexKey in sections then Ascending(StrLeq, sections[t.indexKey]) else [])
  }

  ghost function MountBlock(mounts: map<string, multiset<string>>): string -> string {
    k => MountLine(k, if k in mounts then Ascending(StrLeq, mounts[k]) else [])
  }

  ghost function MountsText(mounts: map<string, multiset<string>>): string {
    FlatMap(MountBlock(mounts), Ascending(StrLeq, multiset(mounts.Keys)))
  }

  ghost function SecretEntryText(name: string, e: SecretEntry): string {
    SecretText(name, e.owner, e.group, e.mode, MountsText(e.mounts))
  }

  ghost function SecretBlock(secrets: map<string, SecretEntry>): string -> string {
    n => if n in secrets then SecretEntryText(n, secrets[n]) else ""
  }

  ghost function SecretsText(secrets: map<string, SecretEntry>): string {
    "  secrets = {\n" + FlatMap(SecretBlock(secrets), Ascending(StrLeq, multiset(secrets.Keys))) + "  };\n"
  }

  const COMMENT := "# Generated by nixbox; do not edit."

  /** The canonical bytes: every list ascending, sections in registration order. */
  ghost function Render(m: Index): string {
    COMMENT + "\n{\n"
    + FlatMap(SectionBlock(m.sections), REGISTERED_TYPES)
    + "  hostPorts = {\n"
    + "    tcp = " + IntList(Ascending(IntLeq, multiset(m.tcp))) + ";\n"
    + "    udp = " + IntList(Ascending(IntLeq, multiset(m.udp))) + ";\n"
    + "  };\n"
    + SecretsText(m.secrets) + "}\n"
  }

  // ---- The program that writes them ----

  lemma {:induction false} SnocMapped<A, B>(f: A -> B, xs: seq<A>, x: A)
    ensures Mapped(f, xs + [x]) == Mapped(f, xs) + [f(x)]
  {
    if xs == [] {
      assert xs + [x] == [x];
    } else {
      SnocMapped(f, xs[1..], x);
      assert (xs + [x])[1..] == xs[1..] + [x];
    }
  }

  lemma {:induction false} SnocPortNumbers(udp: bool, ps: seq<HostPort>, p: HostPort)
    ensures PortNumbers(udp, ps + [p])
         == PortNumbers(udp, ps) + if (p.proto == "udp") == udp then [p.port] else []
  {
    if ps == [] {
      assert ps + [p] == [p];
    } else {
      SnocPortNumbers(udp, ps[1..], p);
      assert (ps + [p])[1..] == ps[1..] + [p];
    }
  }

  lemma SnocFlatMap<A, B>(f: A -> seq<B>, xs: seq<A>, x: A)
    ensures FlatMap(f, xs + [x]) == FlatMap(f, xs) + f(x)
  {
    FlatMapConcat(f, xs, [x]);
  }

  lemma FlatMapStep<A, B>(f: A -> seq<B>, xs: seq<A>, i: nat)
    requires i < |xs|
    ensures FlatMap(f, xs[..i + 1]) == FlatMap(f, xs[..i]) + f(xs[i])
  {
    SnocFlatMap(f, xs[..i], xs[i]);
    assert xs[..i + 1] == xs[..i] + [xs[i]];
  }

  lemma ElementsConcat<T>(a: seq<T>, b: seq<T>)
    ensures Elements(a + b) == Elements(a) + Elements(b)
  {
  }

  /** The loop over one entry's ports: what was not seen yet is appended to the list
      of its protocol. */
  method AddPorts(ps: seq<HostPort>, tcp0: seq<int>, udp0: seq<int>) returns (tcp: seq<int>, udp: seq<int>)
    requires Distinct(tcp0) && Distinct(udp0)
    ensures Distinct(tcp) && Distinct(udp)
    ensures Elements(tcp) == Elements(tcp0) + Elements(PortNumbers(false, ps))
    ensures Elements(udp) == Elements(udp0) + Elements(PortNumbers(true, ps))
  {
    tcp, udp := tcp0, udp0;
    for i := 0 to |ps|
      invariant Distinct(tcp) && Distinct(udp)
      invariant Elements(tcp) == Elements(tcp0) + Elements(PortNumbers(false, ps[..i]))
      invariant Elements(udp) == Elements(udp0) + Elements(PortNumbers(true, ps[..i]))
    {
      var p := ps[i];
      assert ps[..i + 1] == ps[..i] + [p];
      SnocPortNumbers(false, ps[..i], p);
      SnocPortNumbers(true, ps[..i], p);
      ElementsConcat(PortNumbers(p.proto == "udp", ps[..i]), [p.port]);
      if p.proto == "udp" {
        udp := AddPort(udp, p.port);
      } else {
        tcp := AddPort(tcp, p.port);
      }
    }
    assert ps[..|ps|] == ps;
  }

  method AddPort(seen: seq<int>, n: int) returns (r: seq<int>)
    requires Distinct(seen)
    ensures Distinct(r) && Elements(r) == Elements(seen) + {n}
  {
    r := seen;
    if n !in seen {
      AppendNew(seen, n);
      r := seen + [n];
    }
  }

  /** What the first loop of WriteIndex has collected from some entries. */
  ghost predicate Collected(entries: seq<IndexEntry>, names: map<string, seq<string>>, tcp: seq<int>, udp: seq<int>) {
    && names.Keys == SECTION_KEYS
    && (forall k :: k in SECTION_KEYS ==> names[k] == NamesIn(k, entries))
    && Distinct(tcp) && Elements(tcp) == Elements(PortsIn(false, entries))
    && Distinct(udp) && Elements(udp) == Elements(PortsIn(true, entries))
  }

  /** The first loop of WriteIndex: names by section and ports by protocol. Entries of
      an unregistered type are left out of all of them. */
  method Collect(entries: seq<IndexEntry>)
    returns (names: map<string, seq<string>>, tcp: seq<int>, udp: seq<int>)
    ensures Collected(entries, names, tcp, udp)
  {
    names := map["containers" := [], "ociContainers" := [], "hostServices" := []];
    tcp, udp := [], [];
    for i := 0 to |entries|
      invariant Collected(entries[..i], names, tcp, udp)
    {
      assert entries[..i + 1] == entries[..i] + [entries[i]];
      names, tcp, udp := CollectEntry(entries[..i], entries[i], names, tcp, udp);
    }
    assert entries[..|entries|] == entries;
  }

  /** Its body. */
  method CollectEntry(ghost before: seq<IndexEntry>, e: IndexEntry, names: map<string, seq<string>>, tcp: seq<int>, udp: seq<int>)
    returns (names': map<string, seq<string>>, tcp': seq<int>, udp': seq<int>)
    requires Collected(before, names, tcp, udp)
    ensures Collected(before + [e], names', tcp', udp')
  {
    names', tcp', udp' := names, tcp, udp;
    EntrySnoc(before, e);
    var key := SectionOf(e.typ);
    if key.Some? {
      names' := names[key.value := names[key.value] + [e.name]];
      tcp', udp' := AddPorts(e.ports, tcp, udp);
    }
  }

  lemma EntrySnoc(entries: seq<IndexEntry>, e: IndexEntry)
    ensures forall k :: NamesIn(k, entries + [e]) == NamesIn(k, entries) + NameIn(k, e)
    ensures forall udp :: Elements(PortsIn(udp, entries + [e]))
                       == Elements(PortsIn(udp, entries)) + Elements(EntryPorts(udp, e))
  {
    forall k ensures NamesIn(k, entries + [e]) == NamesIn(k, entries) + NameIn(k, e) {
      SnocFlatMap(NameInSection(k), entries, e);
    }
    forall udp ensures Elements(PortsIn(udp, entries + [e]))
                    == Elements(PortsIn(udp, entries)) + Elements(EntryPorts(udp, e)) {
      SnocFlatMap(PortsOfProtocol(udp), entries, e);
      ElementsConcat(PortsIn(udp, entries), EntryPorts(udp, e));
    }
  }

  /** The keys with a non-empty list, collected in whatever order the map yields. */
  method NonEmptyKeys(mounts: map<string, seq<string>>) returns (keys: seq<string>)
    ensures Distinct(keys)
    ensures Elements(keys) == set k | k in mounts && mounts[k] != []
  {
    keys := [];
    var todo := mounts.Keys;
    while todo != {}
      invariant todo <= mounts.Keys && Distinct(keys)
      invariant Elements(keys) == set k | k in mounts && k !in todo && mounts[k] != []
      decreases |todo|
    {
      var k :| k in todo;
      if |mounts[k]| > 0 {
        AppendNew(keys, k);
        keys := keys + [k];
      }
      todo := todo - {k};
    }
  }

  method SortedKeys(mounts: map<string, seq<string>>, ghost bags: map<string, multiset<string>>) returns (keys: seq<string>)
    requires bags == map k | k in mounts && mounts[k] != [] :: multiset(mounts[k])
    ensures keys == Ascending(StrLeq, multiset(bags.Keys))
    ensures forall k :: k in keys ==> k in bags
  {
    StrOrder();
    var unsorted := NonEmptyKeys(mounts);
    assert bags.Keys == Elements(unsorted);
    SortSetIsAscending(StrLeq, unsorted);
    AscendingSet(StrLeq, bags.Keys);
    keys := Sort(StrLeq, unsorted);
    forall k | k in keys ensures k in bags {
      assert k in Elements(keys);
    }
  }

  method WriteMountLine(key: string, names: seq<string>, ghost bags: map<string, multiset<string>>) returns (line: string)
    requires key in bags && bags[key] == multiset(names)
    ensures line == MountBlock(bags)(key)
  {
    StrOrder();
    SortIsAscending(StrLeq, names);
    line := MountLine(key, Sort(StrLeq, names));
  }

  /** The mount lines of one secret: keys ascending, and the names under each key. */
  method WriteMounts(mounts: map<string, seq<string>>, ghost bags: map<string, multiset<string>>) returns (text: string)
    requires bags == map k | k in mounts && mounts[k] != [] :: multiset(mounts[k])
    ensures text == MountsText(bags)
  {
    var keys := SortedKeys(mounts, bags);
    text := "";
    for i := 0 to |keys|
      invariant text == FlatMap(MountBlock(bags), keys[..i])
    {
      FlatMapStep(MountBlock(bags), keys, i);
      var line := WriteMountLine(keys[i], mounts[keys[i]], bags);
      text := text + line;
    }
    assert keys[..|keys|] == keys;
  }

  lemma {:induction false} SecretsOfCovers(secrets: seq<IndexSecret>)
    requires UniqueNames(secrets)
    ensures forall n :: n in SecretsOf(secrets) ==> exists i :: 0 <= i < |secrets| && secrets[i].name == n
    ensures forall i :: 0 <= i < |secrets| ==>
              secrets[i].name in SecretsOf(secrets) && SecretsOf(secrets)[secrets[i].name] == EntryOf(secrets[i])
  {
    if secrets != [] {
      var rest := secrets[1..];
      SecretsOfCovers(rest);
      forall n | n in SecretsOf(rest) ensures exists i :: 0 <= i < |secrets| && secrets[i].name == n {
        var i :| 0 <= i < |rest| && rest[i].name == n;
        assert secrets[i + 1].name == n;
      }
      forall i | 1 <= i < |secrets|
        ensures secrets[i].name in SecretsOf(secrets) && SecretsOf(secrets)[secrets[i].name] == EntryOf(secrets[i])
      {
        assert secrets[i] == rest[i - 1];
      }
    }
  }

  predicate NameLeq(a: IndexSecret, b: IndexSecret) {
    StrLeq(a.name, b.name)
  }

  function NameOf(s: IndexSecret): string {
    s.name
  }

  lemma {:induction false} MappedAt<A, B>(f: A -> B, xs: seq<A>)
    ensures |Mapped(f, xs)| == |xs|
    ensures forall i :: 0 <= i < |xs| ==> Mapped(f, xs)[i] == f(xs[i])
  {
    if xs != [] {
      MappedAt(f, xs[1..]);
      forall i | 0 <= i < |xs| ensures Mapped(f, xs)[i] == f(xs[i]) {
        if i > 0 {
          assert xs[i] == xs[1..][i - 1];
        }
      }
    }
  }

  /** The names of the secrets sorted by name are the ascending names. */
  lemma SortedSecretNames(secrets: seq<IndexSecret>)
    requires UniqueNames(secrets)
    ensures Mapped(NameOf, Sort(NameLeq, secrets)) == Ascending(StrLeq, multiset(SecretsOf(secrets).Keys))
    ensures forall s :: s in Sort(NameLeq, secrets) ==> s in secrets
  {
    StrOrder();
    var sorted := Sort(NameLeq, secrets);
    var names := Mapped(NameOf, sorted);
    assert Distinct(secrets);
    SortCorrect(NameLeq, secrets);
    SameElements(secrets, sorted);
    MappedAt(NameOf, sorted);
    SecretsOfCovers(secrets);
    forall s ensures s in sorted <==> s in secrets {
      assert s in Elements(sorted) <==> s in Elements(secrets);
    }
    DistinctNames(secrets, sorted);
    NamesAreKeys(secrets, sorted);
    assert Sorted(StrLeq, names);
    AscendingSet(StrLeq, SecretsOf(secrets).Keys);
    DistinctSameElements(names, Ascending(StrLeq, multiset(SecretsOf(secrets).Keys)));
    SortedUnique(StrLeq, names, Ascending(StrLeq, multiset(SecretsOf(secrets).Keys)));
  }

  lemma DistinctNames(secrets: seq<IndexSecret>, sorted: seq<IndexSecret>)
    requires UniqueNames(secrets) && Distinct(sorted)
    requires forall s :: s in sorted <==> s in secrets
    ensures Distinct(Mapped(NameOf, sorted))
  {
    MappedAt(NameOf, sorted);
    forall i, j | 0 <= i < j < |sorted| ensures sorted[i].name != sorted[j].name {
      assert sorted[i] in secrets && sorted[j] in secrets && sorted[i] != sorted[j];
      var a :| 0 <= a < |secrets| && secrets[a] == sorted[i];
      var b :| 0 <= b < |secrets| && secrets[b] == sorted[j];
      assert a < b || b < a;
    }
  }

  lemma NamesAreKeys(secrets: seq<IndexSecret>, sorted: seq<IndexSecret>)
    requires UniqueNames(secrets)
    requires forall s :: s in sorted <==> s in secrets
    ensures Elements(Mapped(NameOf, sorted)) == SecretsOf(secrets).Keys
  {
    MappedAt(NameOf, sorted);
    SecretsOfCovers(secrets);
    var names := Mapped(NameOf, sorted);
    forall n ensures n in Elements(names) <==> n in SecretsOf(secrets).Keys {
      if n in names {
        var i :| 0 <= i < |names| && names[i] == n;
        assert sorted[i] in secrets;
      }
      if n in SecretsOf(secrets).Keys {
        var s :| s in secrets && s.name == n;
        assert s in sorted;
        var i :| 0 <= i < |sorted| && sorted[i] == s;
        assert names[i] == n;
      }
    }
  }

  method WriteIndexSecrets(secrets: seq<IndexSecret>) returns (text: string)
    requires UniqueNames(secrets)
    ensures text == SecretsText(SecretsOf(secrets))
  {
    ghost var m := SecretsOf(secrets);
    SortedSecretNames(secrets);
    var body := WriteSecretBlocks(Sort(NameLeq, secrets), m, secrets);
    text := "  secrets = {\n" + body + "  };\n";
  }

  method WriteSecretBlocks(sorted: seq<IndexSecret>, ghost m: map<string, SecretEntry>, ghost secrets: seq<IndexSecret>)
    returns (body: string)
    requires UniqueNames(secrets) && m == SecretsOf(secrets)
    requires forall s :: s in sorted ==> s in secrets
    ensures body == FlatMap(SecretBlock(m), Mapped(NameOf, sorted))
  {
    SecretsOfCovers(secrets);
    MappedAt(NameOf, sorted);
    ghost var names := Mapped(NameOf, sorted);
    body := "";
    for i := 0 to |sorted|
      invariant body == FlatMap(SecretBlock(m), names[..i])
    {
      assert sorted[i] in secrets;
      FlatMapStep(SecretBlock(m), names, i);
      var block := WriteSecret(sorted[i], m);
      body := body + block;
    }
    assert names[..|sorted|] == names;
  }

  method WriteSecret(s: IndexSecret, ghost m: map<string, SecretEntry>) returns (text: string)
    requires s.name in m && m[s.name] == EntryOf(s)
    ensures text == SecretBlock(m)(s.name)
  {
    var mounts := WriteMounts(s.mounts, EntryOf(s).mounts);
    text := SecretText(s.name, s.owner, s.group, s.mode, mounts);
  }

  /** The sections, in registration order. */
  method WriteSections(names: map<string, seq<string>>, ghost sections: map<string, multiset<string>>) returns (text: string)
    requires names.Keys == sections.Keys == SECTION_KEYS
    requires forall k :: k in SECTION_KEYS ==> sections[k] == multiset(names[k])
    ensures text == FlatMap(SectionBlock(sections), REGISTERED_TYPES)
  {
    hide SectionText, StrLeq;
    StrOrder();
    var types := REGISTERED_TYPES;
    text := "";
    for i := 0 to |types|
      invariant text == FlatMap(SectionBlock(sections), types[..i])
    {
      var key := types[i].indexKey;
      assert key in SECTION_KEYS;
      SortIsAscending(StrLeq, names[key]);
      assert types[..i + 1] == types[..i] + [types[i]];
      SnocFlatMap(SectionBlock(sections), types[..i], types[i]);
      text := text + SectionText(key, Sort(StrLeq, names[key]));
    }
    assert types[..|types|] == types;
  }

  /** WriteIndex: the bytes written are the canonical bytes of what the arguments say. */
  method WriteIndex(entries: seq<IndexEntry>, secrets: seq<IndexSecret>) returns (text: string)
    requires UniqueNames(secrets)
    ensures text == Render(Meaning(entries, secrets))
  {
    var names, tcp, udp := Collect(entries);
    SortSetIsAscending(IntLeq, tcp);
    SortSetIsAscending(IntLeq, udp);
    var sections := WriteSections(names, Meaning(entries, secrets).sections);
    var secretsText := WriteIndexSecrets(secrets);
    text := COMMENT + "\n{\n" + sections
    + "  hostPorts = {\n"
    + "    tcp = " + IntList(Sort(IntLeq, tcp)) + ";\n"
    + "    udp = " + IntList(Sort(IntLeq, udp)) + ";\n"
    + "  };\n" + secretsText + "}\n";
  }

  // ---- What follows for the file ----

  /** Two secrets that differ at most in the order of their mount lists. */
  ghost predicate SameUpToMountOrder(a: IndexSecret, b: IndexSecret) {
    && a.name == b.name && a.owner == b.owner && a.group == b.group && a.mode == b.mode
    && a.mounts.Keys == b.mounts.Keys
    && forall k :: k in a.mounts ==> multiset(a.mounts[k]) == multiset(b.mounts[k])
  }

  /** The bytes are a canonical form: permuting the entries, the secrets (here b is
      first put in the order of a), and the names in any mount list changes nothing. */
  lemma IndexIsCanonical(
    entriesA: seq<IndexEntry>, entriesB: seq<IndexEntry>,
    a: seq<IndexSecret>, b: seq<IndexSecret>, reordered: seq<IndexSecret>)
    requires multiset(entriesA) == multiset(entriesB)
    requires UniqueNames(a) && UniqueNames(b)
    requires multiset(reordered) == multiset(b) && |reordered| == |a|
    requires forall i :: 0 <= i < |a| ==> SameUpToMountOrder(a[i], reordered[i])
    ensures Render(Meaning(entriesA, a)) == Render(Meaning(entriesB, b))
  {
    forall k | k in SECTION_KEYS ensures multiset(NamesIn(k, entriesA)) == multiset(NamesIn(k, entriesB)) {
      FlatMapPermutes(NameInSection(k), entriesA, entriesB);
    }
    forall udp ensures Elements(PortsIn(udp, entriesA)) == Elements(PortsIn(udp, entriesB)) {
      FlatMapPermutes(PortsOfProtocol(udp), entriesA, entriesB);
      ElementsOfPermuted(PortsIn(udp, entriesA), PortsIn(udp, entriesB));
    }
    ReorderedSecrets(a, b, reordered);
  }

  lemma ElementsOfPermuted<T>(a: seq<T>, b: seq<T>)
    requires multiset(a) == multiset(b)
    ensures Elements(a) == Elements(b)
  {
    forall x ensures x in Elements(a) <==> x in Elements(b) {
      assert x in multiset(a) <==> x in multiset(b);
    }
  }

  lemma SameEntry(a: IndexSecret, b: IndexSecret)
    requires SameUpToMountOrder(a, b)
    ensures EntryOf(a) == EntryOf(b)
  {
    forall k | k in a.mounts ensures a.mounts[k] == [] <==> b.mounts[k] == [] {
      assert |multiset(a.mounts[k])| == |multiset(b.mounts[k])|;
    }
  }

  /** Whatever b's list says of the i-th secret of a, it says the same. */
  lemma ReorderedSecret(a: seq<IndexSecret>, b: seq<IndexSecret>, reordered: seq<IndexSecret>, i: nat)
    requires UniqueNames(b) && i < |a| == |reordered| && SameUpToMountOrder(a[i], reordered[i])
    requires Elements(reordered) == Elements(b)
    ensures a[i].name in SecretsOf(b) && SecretsOf(b)[a[i].name] == EntryOf(a[i])
  {
    SameEntry(a[i], reordered[i]);
    assert reordered[i] in Elements(reordered);
    assert reordered[i] in Elements(b);
    var j :| 0 <= j < |b| && b[j] == reordered[i];
    SecretsOfCovers(b);
  }

  lemma ReorderedSecrets(a: seq<IndexSecret>, b: seq<IndexSecret>, reordered: seq<IndexSecret>)
    requires UniqueNames(a) && UniqueNames(b)
    requires multiset(reordered) == multiset(b) && |reordered| == |a|
    requires forall i :: 0 <= i < |a| ==> SameUpToMountOrder(a[i], reordered[i])
    ensures SecretsOf(a) == SecretsOf(b)
  {
    ElementsOfPermuted(reordered, b);
    forall n | n in SecretsOf(a) ensures n in SecretsOf(b) && SecretsOf(b)[n] == SecretsOf(a)[n] {
      SecretsOfCovers(a);
      var i :| 0 <= i < |a| && a[i].name == n;
      ReorderedSecret(a, b, reordered, i);
    }
    forall n | n in SecretsOf(b) ensures n in SecretsOf(a) {
      NameSomewhere(a, b, reordered, n);
    }
  }

  lemma NameSomewhere(a: seq<IndexSecret>, b: seq<IndexSecret>, reordered: seq<IndexSecret>, n: string)
    requires UniqueNames(a) && UniqueNames(b) && n in SecretsOf(b)
    requires Elements(reordered) == Elements(b) && |reordered| == |a|
    requires forall i :: 0 <= i < |a| ==> SameUpToMountOrder(a[i], reordered[i])
    ensures n in SecretsOf(a)
  {
    SecretsOfCovers(b);
    var j :| 0 <= j < |b| && b[j].name == n;
    assert b[j] in Elements(b);
    assert b[j] in Elements(reordered);
    var i :| 0 <= i < |reordered| && reordered[i] == b[j];
    assert SameUpToMountOrder(a[i], reordered[i]);
    SecretsOfCovers(a);
  }

  /** With unique names, a workload of a registered type is named exactly once, in the
      section of its type; one of an unregistered type nowhere. */
  lemma {:induction false} OneSectionEach(entries: seq<IndexEntry>, e: IndexEntry, k: string)
    requires e in entries && k in SECTION_KEYS
    requires forall i, j :: 0 <= i < j < |entries| ==> entries[i].name != entries[j].name
    ensures Meaning(entries, []).sections[k][e.name] == if SectionOf(e.typ) == Some(k) then 1 else 0
  {
    var i :| 0 <= i < |entries| && entries[i] == e;
    var before, after := entries[..i], entries[i + 1..];
    assert entries == before + ([e] + after);
    FlatMapConcat(NameInSection(k), before, [e] + after);
    assert ([e] + after)[1..] == after;
    NotNamed(k, before, e.name);
    NotNamed(k, after, e.name);
  }

  lemma {:induction false} NotNamed(k: string, entries: seq<IndexEntry>, n: string)
    requires forall e :: e in entries ==> e.name != n
    ensures multiset(NamesIn(k, entries))[n] == 0
  {
    if entries != [] {
      NotNamed(k, entries[1..], n);
      assert entries[0] in entries;
    }
  }

  /** The port lists in the file are strictly ascending and hold exactly the ports of
      the registered entries, by protocol. */
  lemma PortListsAreUnions(entries: seq<IndexEntry>, udp: bool)
    ensures var m := Meaning(entries, []);
            var list := Ascending(IntLeq, multiset(if udp then m.udp else m.tcp));
            && (forall i, j :: 0 <= i < j < |list| ==> list[i] < list[j])
            && (forall n :: n in list <==>
                  exists e, p :: e in entries && SectionOf(e.typ).Some? && p in e.ports
                              && p.port == n && (p.proto == "udp") == udp)
  {
    var m := Meaning(entries, []);
    var list := Ascending(IntLeq, multiset(if udp then m.udp else m.tcp));
    AscendingSet(IntLeq, if udp then m.udp else m.tcp);
    forall i, j | 0 <= i < j < |list| ensures list[i] < list[j] {
      assert IntLeq(list[i], list[j]);
    }
    forall n ensures n in list <==>
                     exists e, p :: e in entries && SectionOf(e.typ).Some? && p in e.ports
                                 && p.port == n && (p.proto == "udp") == udp {
      assert n in list <==> n in Elements(list);
      FlatMapMember(PortsOfProtocol(udp), entries, n);
      forall e: IndexEntry {
        PortNumbersMember(udp, e.ports, n);
      }
      if e, p :| e in entries && SectionOf(e.typ).Some? && p in e.ports && p.port == n && (p.proto == "udp") == udp {
        assert n in EntryPorts(udp, e);
      }
    }
  }

  lemma {:induction false} PortNumbersMember(udp: bool, ps: seq<HostPort>, n: int)
    ensures n in PortNumbers(udp, ps) <==> exists p :: p in ps && p.port == n && (p.proto == "udp") == udp
  {
    if ps != [] {
      PortNumbersMember(udp, ps[1..], n);
      assert ps == [ps[0]] + ps[1..];
    }
  }
}
