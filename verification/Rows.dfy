/** The database rows, and what the generated files must say about them. */
module Rows {
  import opened Base
  import opened Names
  import opened HostPorts
  import opened IndexFile
  import opened FlakeFile

  datatype Workload = Workload(name: string, typ: string, enabled: bool, applied: Option<int>)

  datatype Revision = Revision(workload: int, content: string, ports: string)

  datatype Secret = Secret(name: string, owner: string, group: string, mode: string)

  /** The tables by primary key; mounts holds (secret, workload) pairs. */
  datatype Rows = Rows(
    workloads: map<int, Workload>, revisions: map<int, Revision>,
    secrets: map<int, Secret>, mounts: set<(int, int)>, inputs: map<int, FlakeInput>)

  const NO_ROWS := Rows(map[], map[], map[], {}, map[])

  /** The ids SQLite may hand out next: above every present one. */
  predicate Fresh<T>(id: int, table: map<int, T>) {
    forall k :: k in table ==> k < id
  }

  predicate WorkloadNameTaken(r: Rows, name: string) {
    exists id :: id in r.workloads && r.workloads[id].name == name
  }

  predicate SecretNameTaken(r: Rows, name: string) {
    exists id :: id in r.secrets && r.secrets[id].name == name
  }

  predicate InputNameTaken(r: Rows, name: string) {
    exists id :: id in r.inputs && r.inputs[id].name == name
  }

  /** The UNIQUE constraints on names. */
  ghost predicate UniqueWorkloads(r: Rows) {
    forall a, b :: a in r.workloads && b in r.workloads && r.workloads[a].name == r.workloads[b].name ==> a == b
  }

  ghost predicate UniqueSecrets(r: Rows) {
    forall a, b :: a in r.secrets && b in r.secrets && r.secrets[a].name == r.secrets[b].name ==> a == b
  }

  ghost predicate UniqueInputRows(r: Rows) {
    forall a, b :: a in r.inputs && b in r.inputs && r.inputs[a].name == r.inputs[b].name ==> a == b
  }

  function SecretNames(r: Rows): set<string> {
    set id | id in r.secrets :: r.secrets[id].name
  }

  function RevisionsOf(r: Rows, wid: int): set<int> {
    set x | x in r.revisions && r.revisions[x].workload == wid
  }

  function MaxOf(s: set<int>): (m: int)
    requires s != {}
    ensures m in s && forall x :: x in s ==> x <= m
  {
    MaxExists(s);
    var m :| m in s && forall x :: x in s ==> x <= m;
    m
  }

  lemma {:induction false} MaxExists(s: set<int>)
    requires s != {}
    ensures exists m :: m in s && forall x :: x in s ==> x <= m
  {
    assert (forall y :: y !in s) ==> s == {};
    if y :| y in s {
      var rest := s - {y};
      if rest != {} {
        MaxExists(rest);
        var m :| m in rest && forall x :: x in rest ==> x <= m;
        var top := if m < y then y else m;
        forall x | x in s ensures x <= top {
          assert x == y || x in rest;
        }
      } else {
        assert forall x :: x in s ==> x == y || x in rest;
      }
    }
  }

  /** LatestRevision: the highest id. */
  function Latest(r: Rows, wid: int): Option<int> {
    var revs := RevisionsOf(r, wid);
    if revs == {} then None else Some(MaxOf(revs))
  }

  predicate EnabledHaveRevisions(r: Rows) {
    forall id :: id in r.workloads && r.workloads[id].enabled ==> RevisionsOf(r, id) != {}
  }

  /** The revision of every enabled workload that an apply started now would mark. */
  function Snapshot(r: Rows): map<int, int>
    requires EnabledHaveRevisions(r)
  {
    map id | id in r.workloads && r.workloads[id].enabled :: Latest(r, id).value
  }

  function PortsOf(r: Rows, wid: int): seq<HostPort> {
    match Latest(r, wid)
    case None => []
    case Some(x) => if x in r.revisions then Decode(r.revisions[x].ports) else []
  }

  // ---- What index.nix and flake.nix must say ----

  predicate ListedUnder(r: Rows, id: int, key: string) {
    id in r.workloads && r.workloads[id].enabled && SectionOf(r.workloads[id].typ) == Some(key)
  }

  ghost function SectionNames(r: Rows, key: string): set<string> {
    set id | id in r.workloads && ListedUnder(r, id, key) :: r.workloads[id].name
  }

  predicate MountedUnder(r: Rows, sid: int, id: int, key: string) {
    id in r.workloads && (sid, id) in r.mounts && r.workloads[id].enabled
    && MountSectionOf(r.workloads[id].typ) == Some(key)
  }

  /** The enabled workloads with a mount row for the secret, of the mount-supporting
      type whose section is key. */
  ghost function MountNames(r: Rows, sid: int, key: string): set<string> {
    set id | id in r.workloads && MountedUnder(r, sid, id, key) :: r.workloads[id].name
  }

  ghost function SecretEntryFor(r: Rows, sid: int): SecretEntry
    requires sid in r.secrets
  {
    var s := r.secrets[sid];
    SecretEntry(s.owner, s.group, s.mode,
                map k | k in SECTION_KEYS && MountNames(r, sid, k) != {} :: multiset(MountNames(r, sid, k)))
  }

  ghost function SecretNamed(r: Rows, name: string): int
    requires name in SecretNames(r)
  {
    var id :| id in r.secrets && r.secrets[id].name == name;
    id
  }

  ghost function OpenPorts(r: Rows, udp: bool): set<int> {
    set id, p | id in r.workloads && r.workloads[id].enabled && SectionOf(r.workloads[id].typ).Some?
                && p in PortsOf(r, id) && (p.proto == "udp") == udp :: p.port
  }

  ghost function IndexOf(r: Rows): Index {
    Index(map k | k in SECTION_KEYS :: multiset(SectionNames(r, k)),
          OpenPorts(r, false), OpenPorts(r, true),
          map n | n in SecretNames(r) :: SecretEntryFor(r, SecretNamed(r, n)))
  }

  /** What flake.nix says: the inputs it declares for the user, and whether it imports
      agenix. */
  datatype Flake = Flake(inputs: set<FlakeInput>, agenix: bool)

  function FlakeOf(r: Rows): Flake {
    Flake(set id | id in r.inputs :: r.inputs[id], r.secrets != map[])
  }

  /** The workloads a file names, in any section. */
  function NamedBy(index: Index): set<string> {
    set k, n | k in index.sections && n in index.sections[k] :: n
  }

  lemma NamedByIndexOf(r: Rows, n: string)
    ensures n in NamedBy(IndexOf(r))
       <==> exists id :: id in r.workloads && r.workloads[id].name == n && r.workloads[id].enabled
                      && SectionOf(r.workloads[id].typ).Some?
  {
    var index := IndexOf(r);
    if n in NamedBy(index) {
      var k :| k in index.sections && n in index.sections[k];
      assert n in SectionNames(r, k);
      var id :| id in r.workloads && ListedUnder(r, id, k) && r.workloads[id].name == n;
    }
    if id :| id in r.workloads && r.workloads[id].name == n && r.workloads[id].enabled
             && SectionOf(r.workloads[id].typ).Some? {
      var k := SectionOf(r.workloads[id].typ).value;
      assert ListedUnder(r, id, k);
      assert n in SectionNames(r, k);
      assert k in index.sections && n in index.sections[k];
    }
  }

  /** A generated index lists under key k of a secret exactly the enabled workloads of
      the mount-supporting type with that section that have a mount row, and section k
      of the same index names every one of them. */
  lemma MountsExactAndClosed(r: Rows, sid: int, k: string, n: string)
    requires sid in r.secrets && k in SECTION_KEYS
    requires UniqueSecrets(r)
    ensures r.secrets[sid].name in IndexOf(r).secrets
    ensures var mounts := IndexOf(r).secrets[r.secrets[sid].name].mounts;
            && ((k in mounts && n in mounts[k]) <==>
                exists id :: id in r.workloads && r.workloads[id].name == n && r.workloads[id].enabled
                          && (sid, id) in r.mounts && MountSectionOf(r.workloads[id].typ) == Some(k))
            && (k in mounts && n in mounts[k] ==> n in IndexOf(r).sections[k])
  {
    assert r.secrets[sid].name in SecretNames(r);
    assert SecretNamed(r, r.secrets[sid].name) == sid;
    var mounts := IndexOf(r).secrets[r.secrets[sid].name].mounts;
    if k in mounts && n in mounts[k] {
      var id :| id in r.workloads && MountedUnder(r, sid, id, k) && r.workloads[id].name == n;
      assert ListedUnder(r, id, k);
      assert n in SectionNames(r, k);
    }
    if id :| id in r.workloads && r.workloads[id].name == n && r.workloads[id].enabled
             && (sid, id) in r.mounts && MountSectionOf(r.workloads[id].typ) == Some(k) {
      assert MountedUnder(r, sid, id, k);
      assert n in MountNames(r, sid, k);
    }
  }

  /** x is the newest revision of the workload. */
  ghost predicate Newest(r: Rows, id: int, x: int) {
    && x in r.revisions && r.revisions[x].workload == id
    && forall y :: y in r.revisions && r.revisions[y].workload == id ==> y <= x
  }

  lemma LatestExactly(r: Rows, id: int, x: int)
    ensures Latest(r, id) == Some(x) <==> Newest(r, id, x)
  {
    var revs := RevisionsOf(r, id);
    assert forall y :: y in revs <==> y in r.revisions && r.revisions[y].workload == id;
    if Newest(r, id, x) {
      assert x in revs && MaxOf(revs) in revs;
    }
  }

  /** The snapshot marks every enabled workload, and only those, with its newest revision. */
  lemma SnapshotExactly(r: Rows, id: int, x: int)
    requires EnabledHaveRevisions(r)
    ensures id in Snapshot(r) && Snapshot(r)[id] == x <==> id in r.workloads && r.workloads[id].enabled && Newest(r, id, x)
  {
    LatestExactly(r, id, x);
  }

  /** Some enabled workload of a registered type asks for the port, in its newest revision. */
  ghost predicate Opens(r: Rows, udp: bool, n: int) {
    exists id, x, p ::
      && id in r.workloads && r.workloads[id].enabled && SectionOf(r.workloads[id].typ).Some? && Newest(r, id, x)
      && p in Decode(r.revisions[x].ports) && p.port == n && (p.proto == "udp") == udp
  }

  lemma OpenPortsExactly(r: Rows, udp: bool, n: int)
    ensures n in IndexOf(r).tcp <==> Opens(r, false, n)
    ensures n in IndexOf(r).udp <==> Opens(r, true, n)
    ensures n in OpenPorts(r, udp) <==> Opens(r, udp, n)
  {
    OpenPortExactly(r, false, n);
    OpenPortExactly(r, true, n);
  }

  lemma OpenPortExactly(r: Rows, udp: bool, n: int)
    ensures n in OpenPorts(r, udp) <==> Opens(r, udp, n)
  {
    hide SectionOf, Decode;
    if n in OpenPorts(r, udp) {
      var id, p :| id in r.workloads && r.workloads[id].enabled && SectionOf(r.workloads[id].typ).Some?
                   && p in PortsOf(r, id) && (p.proto == "udp") == udp && p.port == n;
      LatestExactly(r, id, Latest(r, id).value);
    }
    if Opens(r, udp, n) {
      var id, x, p :|
        && id in r.workloads && r.workloads[id].enabled && SectionOf(r.workloads[id].typ).Some? && Newest(r, id, x)
        && p in Decode(r.revisions[x].ports) && p.port == n && (p.proto == "udp") == udp;
      LatestExactly(r, id, x);
      assert p in PortsOf(r, id);
    }
  }

  /** A workload of that section and name is enabled. */
  ghost predicate Lists(r: Rows, key: string, n: string) {
    exists id :: id in r.workloads && r.workloads[id].name == n && r.workloads[id].enabled
              && SectionOf(r.workloads[id].typ) == Some(key)
  }

  /** The secret has a mount row for an enabled workload of that name, of the
      mount-supporting type with that section. */
  ghost predicate Gets(r: Rows, sid: int, key: string, n: string) {
    exists id :: id in r.workloads && r.workloads[id].name == n && r.workloads[id].enabled
              && (sid, id) in r.mounts && MountSectionOf(r.workloads[id].typ) == Some(key)
  }

  lemma IndexLists(r: Rows, key: string, n: string)
    requires key in SECTION_KEYS
    ensures n in IndexOf(r).sections[key] <==> Lists(r, key, n)
  {
    hide SectionOf;
    if Lists(r, key, n) {
      var id :| id in r.workloads && r.workloads[id].name == n && r.workloads[id].enabled
                && SectionOf(r.workloads[id].typ) == Some(key);
      assert ListedUnder(r, id, key);
      assert n in SectionNames(r, key);
    }
    if n in SectionNames(r, key) {
      var id :| id in r.workloads && ListedUnder(r, id, key) && r.workloads[id].name == n;
    }
  }

  /** What the index says of a secret: its row, and who gets it. */
  lemma IndexSecretExactly(r: Rows, sid: int)
    requires UniqueSecrets(r) && sid in r.secrets
    ensures r.secrets[sid].name in IndexOf(r).secrets
    ensures var row, e := r.secrets[sid], IndexOf(r).secrets[r.secrets[sid].name];
            && e.owner == row.owner && e.group == row.group && e.mode == row.mode && e.mounts.Keys <= SECTION_KEYS
            && forall k :: k in SECTION_KEYS ==>
                 && (k in e.mounts <==> exists n :: Gets(r, sid, k, n))
                 && (k in e.mounts ==> exists names :: e.mounts[k] == multiset(names) && IsSetOf(r, sid, k, names))
  {
    hide MountSectionOf;
    assert r.secrets[sid].name in SecretNames(r);
    assert SecretNamed(r, r.secrets[sid].name) == sid;
    var e := IndexOf(r).secrets[r.secrets[sid].name];
    forall k | k in SECTION_KEYS
      ensures k in e.mounts <==> exists n :: Gets(r, sid, k, n)
      ensures k in e.mounts ==> exists names :: e.mounts[k] == multiset(names) && IsSetOf(r, sid, k, names)
    {
      forall n ensures n in MountNames(r, sid, k) <==> Gets(r, sid, k, n) {
        MountNamesExactly(r, sid, k, n);
      }
      assert IsSetOf(r, sid, k, MountNames(r, sid, k));
      assert (forall n :: n !in MountNames(r, sid, k)) ==> MountNames(r, sid, k) == {};
    }
  }

  ghost predicate IsSetOf(r: Rows, sid: int, k: string, names: set<string>) {
    forall n :: n in names <==> Gets(r, sid, k, n)
  }

  lemma MountNamesExactly(r: Rows, sid: int, k: string, n: string)
    ensures n in MountNames(r, sid, k) <==> Gets(r, sid, k, n)
  {
    hide MountSectionOf;
    if n in MountNames(r, sid, k) {
      var id :| id in r.workloads && MountedUnder(r, sid, id, k) && r.workloads[id].name == n;
    }
    if Gets(r, sid, k, n) {
      var id :| id in r.workloads && r.workloads[id].name == n && r.workloads[id].enabled
                && (sid, id) in r.mounts && MountSectionOf(r.workloads[id].typ) == Some(k);
      assert MountedUnder(r, sid, id, k);
    }
  }

  // ---- Statements and transactions ----

  function InsertWorkload(r: Rows, id: int, rev: int, name: string, typ: string, content: string, ports: string): Rows {
    r.(workloads := r.workloads[id := Workload(name, typ, false, None)],
       revisions := r.revisions[rev := Revision(id, content, ports)])
  }

  function InsertRevision(r: Rows, rev: int, wid: int, content: string, ports: string): Rows {
    r.(revisions := r.revisions[rev := Revision(wid, content, ports)])
  }

  function SetEnabled(r: Rows, id: int, on: bool): Rows {
    if id in r.workloads then r.(workloads := r.workloads[id := r.workloads[id].(enabled := on)]) else r
  }

  function MarkApplied(r: Rows, id: int, rev: int): Rows {
    if id in r.workloads then r.(workloads := r.workloads[id := r.workloads[id].(applied := Some(rev))]) else r
  }

  /** DELETE with its cascades. */
  function DeleteWorkload(r: Rows, id: int): Rows {
    r.(workloads := r.workloads - {id},
       revisions := map x | x in r.revisions && r.revisions[x].workload != id :: r.revisions[x],
       mounts := set m | m in r.mounts && m.1 != id)
  }

  predicate MountsAcceptable(r: Rows, mounts: seq<int>) {
    (forall i, j :: 0 <= i < j < |mounts| ==> mounts[i] != mounts[j])
    && forall i :: 0 <= i < |mounts| ==> mounts[i] in r.workloads
  }

  function ReplaceMounts(r: Rows, sid: int, mounts: seq<int>): set<(int, int)> {
    (set m | m in r.mounts && m.0 != sid) + (set i | 0 <= i < |mounts| :: (sid, mounts[i]))
  }

  function PutSecret(r: Rows, sid: int, s: Secret, mounts: seq<int>): Rows {
    r.(secrets := r.secrets[sid := s], mounts := ReplaceMounts(r, sid, mounts))
  }

  function DeleteSecret(r: Rows, sid: int): Rows {
    r.(secrets := r.secrets - {sid}, mounts := set m | m in r.mounts && m.0 != sid)
  }

  // ---- What they do, row by row ----

  /** Tables that agree on every id but this one. */
  ghost predicate SameBut<T(!new)>(a: map<int, T>, b: map<int, T>, id: int) {
    forall k :: k != id ==> (k in b <==> k in a) && (k in a && k in b ==> b[k] == a[k])
  }

  ghost predicate WorkloadAdded(
    r: Rows, t: Rows, id: int, rev: int, name: string, typ: string, content: string, ports: string)
  {
    && id in t.workloads && SameBut(r.workloads, t.workloads, id)
    && t.workloads[id].name == name && t.workloads[id].typ == typ
    && !t.workloads[id].enabled && t.workloads[id].applied.None?
    && RevisionAdded(r, t.(workloads := r.workloads), rev, id, content, ports)
  }

  ghost predicate RevisionAdded(r: Rows, t: Rows, rev: int, wid: int, content: string, ports: string) {
    && rev in t.revisions && SameBut(r.revisions, t.revisions, rev)
    && t.revisions[rev].workload == wid && t.revisions[rev].content == content && t.revisions[rev].ports == ports
    && t.workloads == r.workloads && t.secrets == r.secrets && t.mounts == r.mounts && t.inputs == r.inputs
  }

  ghost predicate EnabledSet(r: Rows, t: Rows, id: int, on: bool) {
    && id in r.workloads && id in t.workloads && SameBut(r.workloads, t.workloads, id)
    && t.workloads[id].enabled == on && t.workloads[id].name == r.workloads[id].name
    && t.workloads[id].typ == r.workloads[id].typ && t.workloads[id].applied == r.workloads[id].applied
    && t.revisions == r.revisions && t.secrets == r.secrets && t.mounts == r.mounts && t.inputs == r.inputs
  }

  ghost predicate AppliedSet(r: Rows, t: Rows, id: int, rev: int) {
    && id in r.workloads && id in t.workloads && SameBut(r.workloads, t.workloads, id)
    && t.workloads[id].applied == Some(rev) && t.workloads[id].name == r.workloads[id].name
    && t.workloads[id].typ == r.workloads[id].typ && t.workloads[id].enabled == r.workloads[id].enabled
    && t.revisions == r.revisions && t.secrets == r.secrets && t.mounts == r.mounts && t.inputs == r.inputs
  }

  /** The row is gone with its revisions and mounts, and with nothing else. */
  ghost predicate WorkloadGone(r: Rows, t: Rows, id: int) {
    && id !in t.workloads && SameBut(r.workloads, t.workloads, id)
    && (forall x :: x in t.revisions <==> x in r.revisions && r.revisions[x].workload != id)
    && (forall x :: x in t.revisions ==> t.revisions[x] == r.revisions[x])
    && (forall m :: m in t.mounts <==> m in r.mounts && m.1 != id)
    && t.secrets == r.secrets && t.inputs == r.inputs
  }

  /** The secret's row says this, and it is mounted into exactly these workloads; every
      other secret is as it was, mounts included. */
  ghost predicate SecretPut(
    r: Rows, t: Rows, sid: int, name: string, owner: string, group: string, mode: string, mounts: seq<int>)
  {
    && sid in t.secrets && SameBut(r.secrets, t.secrets, sid)
    && t.secrets[sid].name == name && t.secrets[sid].owner == owner && t.secrets[sid].group == group
    && t.secrets[sid].mode == mode
    && MountsReplaced(r.mounts, t.mounts, sid, mounts)
    && t.workloads == r.workloads && t.revisions == r.revisions && t.inputs == r.inputs
  }

  ghost predicate MountsReplaced(before: set<(int, int)>, after: set<(int, int)>, sid: int, mounts: seq<int>) {
    forall s, w :: (s, w) in after <==> if s == sid then w in mounts else (s, w) in before
  }

  ghost predicate SecretGone(r: Rows, t: Rows, sid: int) {
    && sid !in t.secrets && SameBut(r.secrets, t.secrets, sid)
    && (forall m :: m in t.mounts <==> m in r.mounts && m.0 != sid)
    && t.workloads == r.workloads && t.revisions == r.revisions && t.inputs == r.inputs
  }

  ghost predicate MountSet(r: Rows, t: Rows, sid: int, id: int, attached: bool) {
    && (forall m :: m in t.mounts <==> if m == (sid, id) then attached else m in r.mounts)
    && t.workloads == r.workloads && t.revisions == r.revisions && t.secrets == r.secrets && t.inputs == r.inputs
  }

  ghost predicate InputPut(r: Rows, t: Rows, iid: int, name: string, url: string, follows: bool) {
    && iid in t.inputs && SameBut(r.inputs, t.inputs, iid)
    && t.inputs[iid].name == name && t.inputs[iid].url == url && t.inputs[iid].followsNixpkgs == follows
    && t.workloads == r.workloads && t.revisions == r.revisions && t.secrets == r.secrets && t.mounts == r.mounts
  }

  ghost predicate InputGone(r: Rows, t: Rows, iid: int) {
    && iid !in t.inputs && SameBut(r.inputs, t.inputs, iid)
    && t.workloads == r.workloads && t.revisions == r.revisions && t.secrets == r.secrets && t.mounts == r.mounts
  }

  lemma ReplaceMountsReplaces(r: Rows, sid: int, mounts: seq<int>)
    ensures MountsReplaced(r.mounts, ReplaceMounts(r, sid, mounts), sid, mounts)
  {
    forall s, w ensures (s, w) in ReplaceMounts(r, sid, mounts) <==> if s == sid then w in mounts else (s, w) in r.mounts {
      if s == sid && w in mounts {
        var i :| 0 <= i < |mounts| && mounts[i] == w;
      }
    }
  }

  lemma PutSecretPuts(r: Rows, sid: int, s: Secret, mounts: seq<int>)
    ensures SecretPut(r, PutSecret(r, sid, s, mounts), sid, s.name, s.owner, s.group, s.mode, mounts)
  {
    ReplaceMountsReplaces(r, sid, mounts);
  }

  lemma InsertWorkloadAdds(r: Rows, id: int, rev: int, name: string, typ: string, content: string, ports: string)
    ensures WorkloadAdded(r, InsertWorkload(r, id, rev, name, typ, content, ports), id, rev, name, typ, content, ports)
  {
  }

  lemma DeleteWorkloadDeletes(r: Rows, id: int)
    ensures WorkloadGone(r, DeleteWorkload(r, id), id)
  {
  }
}
