/** What the loops over the rows collect for index.nix and flake.nix is what the rows
    say: the listings of the tables, and why their order does not matter. */
module IndexRows {
  import opened Base
  import opened Sorting
  import opened Names
  import opened IndexFile
  import opened Rows

  /** The keys of a table, ascending. */
  function Ids(s: set<int>): seq<int> {
    if s == {} then [] else var m := MaxOf(s); Ids(s - {m}) + [m]
  }

  lemma {:induction false} IdsCorrect(s: set<int>)
    ensures Distinct(Ids(s)) && Elements(Ids(s)) == s
  {
    if s != {} {
      var m := MaxOf(s);
      IdsCorrect(s - {m});
      AppendNew(Ids(s - {m}), m);
    }
  }

  /** The entry of a row, for the enabled ones. */
  function EntryFor(r: Rows, id: int): seq<IndexEntry> {
    if id in r.workloads && r.workloads[id].enabled
    then [IndexEntry(r.workloads[id].name, r.workloads[id].typ, PortsOf(r, id))] else []
  }

  function EntriesOf(r: Rows): int -> seq<IndexEntry> {
    id => EntryFor(r, id)
  }

  function SectionName(r: Rows, key: string): int -> seq<string> {
    id => if ListedUnder(r, id, key) then [r.workloads[id].name] else []
  }

  lemma {:induction false} NamesOfEntries(r: Rows, key: string, ids: seq<int>)
    ensures NamesIn(key, FlatMap(EntriesOf(r), ids)) == FlatMap(SectionName(r, key), ids)
  {
    if ids != [] {
      NamesOfEntries(r, key, ids[1..]);
      FlatMapConcat(NameInSection(key), EntryFor(r, ids[0]), FlatMap(EntriesOf(r), ids[1..]));
      if EntryFor(r, ids[0]) != [] {
        FlatMapOne(NameInSection(key), EntryFor(r, ids[0])[0]);
      }
    }
  }

  /** A list of names, at most one for every key and different for different keys, is
      free of repetitions. */
  lemma {:induction false} DistinctFlatMap<A, B>(f: A -> seq<B>, xs: seq<A>)
    requires Distinct(xs)
    requires forall x :: |f(x)| <= 1
    requires forall x, y :: x in xs && y in xs && x != y && f(x) != [] && f(y) != [] ==> f(x) != f(y)
    ensures Distinct(FlatMap(f, xs))
  {
    if xs != [] {
      assert xs == [xs[0]] + xs[1..];
      assert Distinct(xs[1..]);
      DistinctFlatMap(f, xs[1..]);
      if f(xs[0]) != [] {
        var y := f(xs[0])[0];
        assert f(xs[0]) == [y];
        FlatMapMember(f, xs[1..], y);
        forall x | x in xs[1..] ensures y !in f(x) {
          assert x in xs && x != xs[0];
          assert f(x) == [] || f(x) == [f(x)[0]];
        }
      }
    }
  }

  /** The names that entries put under a key are those of the rows. */
  lemma SectionMeaning(r: Rows, key: string, ids: seq<int>)
    requires UniqueWorkloads(r) && Distinct(ids) && Elements(ids) == r.workloads.Keys
    ensures multiset(NamesIn(key, FlatMap(EntriesOf(r), ids))) == multiset(SectionNames(r, key))
  {
    var names := FlatMap(SectionName(r, key), ids);
    NamesOfEntries(r, key, ids);
    DistinctFlatMap(SectionName(r, key), ids);
    DistinctIsSet(names);
    forall n ensures n in Elements(names) <==> n in SectionNames(r, key) {
      FlatMapMember(SectionName(r, key), ids, n);
      if n in SectionNames(r, key) {
        var id :| id in r.workloads && ListedUnder(r, id, key) && r.workloads[id].name == n;
        assert id in Elements(ids);
      }
    }
  }

  lemma CollectedPortIsOpen(r: Rows, udp: bool, ids: seq<int>, n: int)
    requires n in PortsIn(udp, FlatMap(EntriesOf(r), ids))
    ensures n in OpenPorts(r, udp)
  {
    var entries := FlatMap(EntriesOf(r), ids);
    FlatMapMember(PortsOfProtocol(udp), entries, n);
    var e :| e in entries && n in EntryPorts(udp, e);
    FlatMapMember(EntriesOf(r), ids, e);
    var id :| id in ids && e in EntryFor(r, id);
    PortNumbersMember(udp, e.ports, n);
    var p :| p in e.ports && p.port == n && (p.proto == "udp") == udp;
    assert id in r.workloads && p in PortsOf(r, id);
  }

  lemma OpenPortIsCollected(r: Rows, udp: bool, ids: seq<int>, n: int)
    requires Elements(ids) == r.workloads.Keys && n in OpenPorts(r, udp)
    ensures n in PortsIn(udp, FlatMap(EntriesOf(r), ids))
  {
    var id, p :| id in r.workloads && r.workloads[id].enabled && SectionOf(r.workloads[id].typ).Some?
                 && p in PortsOf(r, id) && (p.proto == "udp") == udp && p.port == n;
    assert id in Elements(ids);
    var e := EntryFor(r, id)[0];
    FlatMapMember(EntriesOf(r), ids, e);
    PortNumbersMember(udp, e.ports, n);
    FlatMapMember(PortsOfProtocol(udp), FlatMap(EntriesOf(r), ids), n);
  }

  lemma PortsMeaning(r: Rows, udp: bool, ids: seq<int>)
    requires Elements(ids) == r.workloads.Keys
    ensures Elements(PortsIn(udp, FlatMap(EntriesOf(r), ids))) == OpenPorts(r, udp)
  {
    forall n ensures n in Elements(PortsIn(udp, FlatMap(EntriesOf(r), ids))) <==> n in OpenPorts(r, udp) {
      if n in OpenPorts(r, udp) {
        OpenPortIsCollected(r, udp, ids, n);
      }
      if n in PortsIn(udp, FlatMap(EntriesOf(r), ids)) {
        CollectedPortIsOpen(r, udp, ids, n);
      }
    }
  }

  // ---- Secrets ----

  /** The workloads with a mount row for the secret, by id. */
  function MountIds(r: Rows, sid: int): seq<int> {
    Ids(set m | m in r.mounts && m.0 == sid :: m.1)
  }

  predicate Delivers(r: Rows, id: int, key: string) {
    id in r.workloads && r.workloads[id].enabled && MountSectionOf(r.workloads[id].typ) == Some(key)
  }

  function MountName(r: Rows, key: string): int -> seq<string> {
    id => if Delivers(r, id, key) then [r.workloads[id].name] else []
  }

  /** A map of lists holds under every key what the ids deliver there, and no empty
      list. */
  ghost predicate MountsAre(r: Rows, ids: seq<int>, mounts: map<string, seq<string>>) {
    && (forall k :: k in mounts ==> mounts[k] != [] && k in SECTION_KEYS)
    && forall k :: (if k in mounts then mounts[k] else []) == FlatMap(MountName(r, k), ids)
  }

  lemma MountNamesMeaning(r: Rows, sid: int, key: string)
    requires UniqueWorkloads(r)
    ensures multiset(FlatMap(MountName(r, key), MountIds(r, sid))) == multiset(MountNames(r, sid, key))
  {
    var ids := MountIds(r, sid);
    var names := FlatMap(MountName(r, key), ids);
    IdsCorrect(set m | m in r.mounts && m.0 == sid :: m.1);
    DistinctFlatMap(MountName(r, key), ids);
    DistinctIsSet(names);
    forall n ensures n in Elements(names) <==> n in MountNames(r, sid, key) {
      FlatMapMember(MountName(r, key), ids, n);
      if n in Elements(names) {
        var id :| id in ids && n in MountName(r, key)(id);
        assert id in Elements(ids);
        assert MountedUnder(r, sid, id, key);
      }
      if n in MountNames(r, sid, key) {
        var id :| id in r.workloads && MountedUnder(r, sid, id, key) && r.workloads[id].name == n;
        assert (sid, id).1 == id;
        assert id in Elements(ids);
      }
    }
  }

  lemma MountKeyMeaning(r: Rows, sid: int, mounts: map<string, seq<string>>, k: string)
    requires UniqueWorkloads(r) && MountsAre(r, MountIds(r, sid), mounts)
    ensures k in mounts <==> MountNames(r, sid, k) != {}
    ensures k in mounts ==> mounts[k] != [] && k in SECTION_KEYS && multiset(mounts[k]) == multiset(MountNames(r, sid, k))
  {
    MountNamesMeaning(r, sid, k);
    var list := if k in mounts then mounts[k] else [];
    assert multiset(list) == multiset(MountNames(r, sid, k));
    assert |multiset(list)| == |multiset(MountNames(r, sid, k))|;
  }

  /** The entry written for a secret is the one its rows call for. */
  lemma SecretMeaning(r: Rows, sid: int, mounts: map<string, seq<string>>)
    requires UniqueWorkloads(r) && sid in r.secrets && MountsAre(r, MountIds(r, sid), mounts)
    ensures var s := r.secrets[sid];
            Renders(r, sid, IndexSecret(s.name, s.owner, s.group, s.mode, mounts))
  {
    forall k
      ensures k in mounts <==> MountNames(r, sid, k) != {}
      ensures k in mounts ==> mounts[k] != [] && k in SECTION_KEYS && multiset(mounts[k]) == multiset(MountNames(r, sid, k))
    {
      MountKeyMeaning(r, sid, mounts, k);
    }
  }

  ghost predicate Renders(r: Rows, sid: int, secret: IndexSecret) {
    sid in r.secrets && secret.name == r.secrets[sid].name && EntryOf(secret) == SecretEntryFor(r, sid)
  }

  /** The secrets collected for the index, one for every row. */
  ghost predicate SecretsCollected(r: Rows, sids: seq<int>, secrets: seq<IndexSecret>) {
    |secrets| == |sids| && forall i :: 0 <= i < |sids| ==> Renders(r, sids[i], secrets[i])
  }

  lemma CollectedNamesUnique(r: Rows, sids: seq<int>, secrets: seq<IndexSecret>)
    requires UniqueSecrets(r) && Distinct(sids) && SecretsCollected(r, sids, secrets)
    ensures IndexFile.UniqueNames(secrets)
  {
    forall i, j | 0 <= i < j < |secrets| ensures secrets[i].name != secrets[j].name {
      assert Renders(r, sids[i], secrets[i]) && Renders(r, sids[j], secrets[j]);
    }
  }

  lemma SecretsMeaning(r: Rows, sids: seq<int>, secrets: seq<IndexSecret>)
    requires UniqueSecrets(r) && Distinct(sids) && Elements(sids) == r.secrets.Keys
    requires SecretsCollected(r, sids, secrets)
    ensures SecretsOf(secrets) == IndexOf(r).secrets
  {
    CollectedNamesUnique(r, sids, secrets);
    SecretsOfCovers(secrets);
    forall n | n in SecretsOf(secrets) ensures n in SecretNames(r) && SecretsOf(secrets)[n] == IndexOf(r).secrets[n] {
      var i :| 0 <= i < |secrets| && secrets[i].name == n;
      assert Renders(r, sids[i], secrets[i]);
      assert r.secrets[sids[i]].name == n;
      assert SecretNamed(r, n) == sids[i];
    }
    forall n | n in SecretNames(r) ensures n in SecretsOf(secrets) {
      var sid := SecretNamed(r, n);
      assert sid in Elements(sids);
      var i :| 0 <= i < |sids| && sids[i] == sid;
      assert Renders(r, sids[i], secrets[i]);
      assert secrets[i].name == n;
    }
  }

  lemma SectionsMeaning(r: Rows, ids: seq<int>)
    requires UniqueWorkloads(r) && Distinct(ids) && Elements(ids) == r.workloads.Keys
    ensures (map k | k in SECTION_KEYS :: multiset(NamesIn(k, FlatMap(EntriesOf(r), ids)))) == IndexOf(r).sections
  {
    forall k | k in SECTION_KEYS
      ensures multiset(NamesIn(k, FlatMap(EntriesOf(r), ids))) == multiset(SectionNames(r, k))
    {
      SectionMeaning(r, k, ids);
    }
  }

  /** What is collected from the rows means what the rows call for, so the bytes written
      are the canonical bytes of the index. */
  lemma CollectedIndex(r: Rows, ids: seq<int>, sids: seq<int>, secrets: seq<IndexSecret>)
    requires UniqueWorkloads(r) && UniqueSecrets(r)
    requires Distinct(ids) && Elements(ids) == r.workloads.Keys
    requires Distinct(sids) && Elements(sids) == r.secrets.Keys && SecretsCollected(r, sids, secrets)
    ensures IndexFile.UniqueNames(secrets)
    ensures Meaning(FlatMap(EntriesOf(r), ids), secrets) == IndexOf(r)
  {
    CollectedNamesUnique(r, sids, secrets);
    SecretsMeaning(r, sids, secrets);
    PortsMeaning(r, false, ids);
    PortsMeaning(r, true, ids);
    SectionsMeaning(r, ids);
  }
}
