/** The handlers as imperative code over the server's own state, each proved to be the
    sequence of micro-steps that the state machine gives it. fault parameters say which
    operation of a handler fails; the ids an insert is given, the outcomes of external
    commands and the order in which a map is walked are left open. */
module ServerModel {
  import opened Base
  import opened Sorting
  import opened Names
  import opened HostPorts
  import opened IndexFile
  import opened FlakeFile
  import opened FlakeReading
  import opened FormText
  import opened Rows
  import opened IndexRows
  import opened Machine

  function InputRow(r: Rows): int -> seq<FlakeInput> {
    id => if id in r.inputs then [r.inputs[id]] else []
  }

  lemma InputRowElements(r: Rows)
    ensures Elements(FlatMap(InputRow(r), Ids(r.inputs.Keys))) == FlakeOf(r).inputs
  {
    var ids := Ids(r.inputs.Keys);
    IdsCorrect(r.inputs.Keys);
    forall i ensures i in Elements(FlatMap(InputRow(r), ids)) <==> i in FlakeOf(r).inputs {
      FlatMapMember(InputRow(r), ids, i);
      if i in FlakeOf(r).inputs {
        var id :| id in r.inputs && r.inputs[id] == i;
        assert id in Elements(ids);
      }
    }
  }

  lemma InputRowsListed(r: Rows)
    requires UniqueInputRows(r)
    ensures var rows := FlatMap(InputRow(r), Ids(r.inputs.Keys));
            UniqueInputs(rows) && multiset(rows) == multiset(FlakeOf(r).inputs)
  {
    var ids := Ids(r.inputs.Keys);
    var rows := FlatMap(InputRow(r), ids);
    IdsCorrect(r.inputs.Keys);
    DistinctFlatMap(InputRow(r), ids);
    InputRowElements(r);
    DistinctIsSet(rows);
    forall i, j | 0 <= i < j < |rows| ensures rows[i].name != rows[j].name {
      assert rows[i] in Elements(rows) && rows[j] in Elements(rows);
    }
  }

  /** The rows of the input table, in any order, render to the same bytes. */
  lemma ListedInputs(r: Rows)
    requires UniqueInputRows(r)
    ensures var rows := FlatMap(InputRow(r), Ids(r.inputs.Keys));
            FlakeText(Declarations(rows, r.secrets != map[]), r.secrets != map[]) == FlakeBytes(FlakeOf(r))
  {
    hide FlakeText, Declarations;
    InputRowsListed(r);
    ListingElements(multiset(FlakeOf(r).inputs));
    FlakeIsCanonical(FlatMap(InputRow(r), Ids(r.inputs.Keys)), Listing(multiset(FlakeOf(r).inputs)), r.secrets != map[]);
  }

  /** One more workload in the mount lists. */
  function AddMount(r: Rows, id: int, mounts: map<string, seq<string>>): map<string, seq<string>> {
    if id !in r.workloads || !r.workloads[id].enabled then mounts
    else
      match MountSectionOf(r.workloads[id].typ)
      case None => mounts
      case Some(key) => mounts[key := (if key in mounts then mounts[key] else []) + [r.workloads[id].name]]
  }

  lemma AddMountAt(r: Rows, id: int, mounts: map<string, seq<string>>, k: string)
    ensures var after := AddMount(r, id, mounts);
            (if k in after then after[k] else []) == (if k in mounts then mounts[k] else []) + MountName(r, k)(id)
  {
  }

  lemma AddMountKeys(r: Rows, id: int, mounts: map<string, seq<string>>)
    requires forall k :: k in mounts ==> mounts[k] != [] && k in SECTION_KEYS
    ensures forall k :: k in AddMount(r, id, mounts) ==> AddMount(r, id, mounts)[k] != [] && k in SECTION_KEYS
  {
  }

  lemma AddMountCorrect(r: Rows, ids: seq<int>, i: nat, mounts: map<string, seq<string>>)
    requires i < |ids| && MountsAre(r, ids[..i], mounts)
    ensures MountsAre(r, ids[..i + 1], AddMount(r, ids[i], mounts))
  {
    var after := AddMount(r, ids[i], mounts);
    AddMountKeys(r, ids[i], mounts);
    forall k ensures (if k in after then after[k] else []) == FlatMap(MountName(r, k), ids[..i + 1]) {
      FlatMapStep(MountName(r, k), ids, i);
      AddMountAt(r, ids[i], mounts, k);
    }
  }

  /** The snapshot after the first i rows. */
  ghost predicate MarksUpTo(r: Rows, ids: seq<int>, i: nat, marks: map<int, int>) {
    && i <= |ids|
    && (forall id :: id in marks ==> id in r.workloads && r.workloads[id].enabled && Latest(r, id) == Some(marks[id]))
    && (forall j :: 0 <= j < i && ids[j] in r.workloads && r.workloads[ids[j]].enabled ==> ids[j] in marks)
  }

  lemma MarksComplete(r: Rows, ids: seq<int>, marks: map<int, int>)
    requires MarksUpTo(r, ids, |ids|, marks) && Elements(ids) == r.workloads.Keys
    ensures EnabledHaveRevisions(r) && marks == Snapshot(r)
  {
    forall id | id in r.workloads && r.workloads[id].enabled ensures id in marks {
      assert id in Elements(ids);
    }
    var snapshot := Snapshot(r);
    assert forall id :: id in marks ==> marks[id] == snapshot[id];
    assert marks.Keys == snapshot.Keys;
  }

  /** How a handler ends: done; done, but with a syntax error in what it saved; refused by
      a check; refused by the job slot; or with an error. */
  datatype Reply = Done | Flagged | Refused | Busy | Failed

  /** What a template puts into a new workload. */
  datatype Template = Template(content: string, ports: seq<HostPort>)

  /** What running an external command comes to. */
  datatype CommandResult = Exited(code: int) | CannotRun

  predicate Succeeds(c: CommandResult) {
    c == Exited(0)
  }

  /** What the pipeline reports of the command that decided. */
  function ResultOf(c: CommandResult): (int, bool) {
    if c.CannotRun? then (-1, true) else (c.code, false)
  }

  /** The rows once the marks of a snapshot that are not left to set have been set:
      nothing else about any workload, and no other table, has changed. */
  ghost predicate MarkedUpTo(r: Rows, t: Rows, applied: map<int, int>, left: set<int>) {
    && t.workloads.Keys == r.workloads.Keys && t == r.(workloads := t.workloads)
    && forall id :: id in r.workloads ==>
         t.workloads[id] == if id in applied && id !in left then r.workloads[id].(applied := Some(applied[id]))
                            else r.workloads[id]
  }

  lemma MarkOneMore(r: Rows, t: Rows, applied: map<int, int>, left: set<int>, id: int)
    requires MarkedUpTo(r, t, applied, left) && id in applied && id in left
    ensures MarkedUpTo(r, MarkApplied(t, id, applied[id]), applied, left - {id})
  {
  }

  /** The UNIQUE constraints, and the foreign key of revisions. */
  ghost predicate TablesValid(r: Rows) {
    && UniqueWorkloads(r) && UniqueSecrets(r) && UniqueInputRows(r)
    && forall x :: x in r.revisions ==> r.revisions[x].workload in r.workloads
  }

  lemma MarkedTablesValid(r: Rows, t: Rows, applied: map<int, int>, left: set<int>)
    requires TablesValid(r) && MarkedUpTo(r, t, applied, left)
    ensures TablesValid(t)
  {
    assert forall id :: id in t.workloads ==> t.workloads[id].name == r.workloads[id].name;
  }

  lemma InsertedTablesValid(r: Rows, id: int, rev: int, name: string, typ: string, content: string, ports: string)
    requires TablesValid(r) && !WorkloadNameTaken(r, name) && Fresh(id, r.workloads) && Fresh(rev, r.revisions)
    ensures TablesValid(InsertWorkload(r, id, rev, name, typ, content, ports))
  {
  }

  lemma DeletedTablesValid(r: Rows, id: int)
    requires TablesValid(r)
    ensures TablesValid(DeleteWorkload(r, id))
  {
  }

  /** The running system is that of the directory: every workload the index names, with
      the expression in its file. */
  ghost predicate Activated(live: map<string, string>, index: Index, files: map<string, string>) {
    forall n :: (n in live <==> n in NamedBy(index) && n in files) && (n in live && n in files ==> live[n] == files[n])
  }

  lemma LockSteps(s: State, ok: bool)
    requires At(s, Locking)
    ensures Next(s, Lock(ok)) == s.(job := if ok then s.job.(stage := Updating) else NoJob)
  {
  }

  lemma UpdateSteps(s: State, ok: bool)
    requires At(s, Updating)
    ensures Next(s, Update(ok)) == s.(job := if ok then s.job.(stage := Building, captured := Captured(s.disk)) else NoJob)
  {
    hide Captured;
  }

  lemma RebuildSteps(s: State, ok: bool, mode: Mode)
    requires At(s, Building) && mode == if s.job.task.ApplyTask? then s.job.task.mode else Switch
    ensures Next(s, Machine.Rebuild(ok)) ==
            s.(live := if ok && !s.dryRun && mode != Build then s.job.captured else s.live,
               job := if ok && (mode != Build || s.job.task.DestroyTask?)
                      then s.job.(stage := AfterRebuild(s.job.task)) else NoJob)
  {
  }

  lemma CapturedActivates(d: Disk)
    ensures Activated(Captured(d), d.index, d.files)
  {
  }

  lemma CommitMarks(s: State, id: int, left: map<int, int>)
    requires s.pc == Idle && At(s, Marking(left)) && id in left
    ensures Next(s, Commit(id)) == s.(rows := MarkApplied(s.rows, id, left[id]), job := s.job.(stage := Marking(left - {id})))
  {
  }

  lemma CommitEnds(s: State)
    requires s.pc == Idle && At(s, Marking(map[]))
    ensures Next(s, Commit(0)) == s.(job := NoJob)
  {
  }

  lemma FewerToPrune(todo: set<string>, keep: set<string>, n: string)
    requires n in todo
    ensures |todo - {n} - keep| == |todo - keep| - if n in keep then 0 else 1
  {
    if n in keep {
      assert todo - {n} - keep == todo - keep;
    } else {
      assert todo - {n} - keep == (todo - keep) - {n};
    }
  }

  lemma RemovedOneMore(files: map<string, string>, removed: seq<string>, n: string)
    ensures files - Elements(removed) - {n} == files - Elements(removed + [n])
    ensures Elements(removed + [n]) == Elements(removed) + {n}
  {
    ElementsConcat(removed, [n]);
  }

  lemma RemovedAll(files: map<string, string>, keep: set<string>, removed: seq<string>)
    requires Elements(removed) !! keep && forall n :: n in files - Elements(removed) ==> n in keep
    ensures files - Elements(removed) == map n | n in files && n in keep :: files[n]
  {
  }

  // ---- What the micro-steps come to ----

  lemma NothingRuns(s: State)
    ensures Run(s, []) == s
  {
  }

  /** One more micro-step taken from here. */
  lemma Took(s0: State, here: State, before: seq<Label>, l: Label) returns (trace: seq<Label>)
    requires here == Run(s0, before)
    ensures trace == before + [l] && Run(s0, trace) == Next(here, l)
  {
    hide Next;
    RunSnoc(s0, before, l);
    trace := before + [l];
  }

  lemma FailIdles(s: State)
    ensures Next(s, Fail) == s.(pc := Idle)
  {
  }

  lemma ApplyBegins(s: State, mode: Mode)
    requires s.pc == Idle && EnabledHaveRevisions(s.rows)
    ensures Next(s, Begin(Apply(mode))) == s.(disk := s.disk.(index := IndexOf(s.rows)), pc := ApplyFlake(mode))
  {
    hide IndexOf;
  }

  lemma FlakeContinues(s: State, mode: Mode)
    requires s.pc == ApplyFlake(mode)
    ensures Next(s, Continue(0, 0)) == s.(disk := s.disk.(flake := FlakeOf(s.rows)), pc := ApplySnapshot(mode))
  {
    hide FlakeOf;
  }

  lemma SnapshotContinues(s: State, mode: Mode)
    requires s.pc == ApplySnapshot(mode) && EnabledHaveRevisions(s.rows)
    ensures Next(s, Continue(0, 0)) == s.(pc := ApplyPrune(mode, Snapshot(s.rows)))
  {
    hide Snapshot;
  }

  lemma CreateTaken(s: State, name: string, typ: string, content: string, ports: seq<HostPort>, id: int, rev: int)
    requires s.pc == Idle && Lookup(typ).Some? && ValidNameForType(Lookup(typ).value, name)
    requires !WorkloadNameTaken(s.rows, name) && Fresh(id, s.rows.workloads) && Fresh(rev, s.rows.revisions)
    ensures var t := Next(s, Begin(Create(name, typ, content, ports)));
            && t == s.(disk := s.disk.(files := s.disk.files[name := content]),
                       pc := CreateRow(name, typ, content, FormatFrom(ports)))
            && Next(t, Fail) == t.(pc := Idle)
            && Next(t, Continue(id, rev))
               == t.(rows := InsertWorkload(s.rows, id, rev, name, typ, content, FormatFrom(ports)), pc := Idle)
  {
    hide ValidNameForType, Lookup, FormatFrom;
  }

  lemma SaveTaken(s: State, id: int, content: string, ports: seq<HostPort>, rev: int)
    requires s.pc == Idle && id in s.rows.workloads && Fresh(rev, s.rows.revisions)
    ensures var t := Next(s, Begin(Save(id, content, ports)));
            && t == s.(disk := s.disk.(files := s.disk.files[s.rows.workloads[id].name := content]),
                       pc := SaveRow(id, content, FormatFrom(ports)))
            && Next(t, Fail) == t.(pc := Idle)
            && Next(t, Continue(0, rev)) == t.(rows := InsertRevision(s.rows, rev, id, content, FormatFrom(ports)), pc := Idle)
  {
    hide FormatFrom;
  }

  lemma RestoreTaken(s: State, id: int, target: int, rev: int)
    requires s.pc == Idle && id in s.rows.workloads && target in RevisionsOf(s.rows, id) && Fresh(rev, s.rows.revisions)
    ensures var t := Next(s, Begin(Restore(id, target))); var found := s.rows.revisions[target];
            && t == s.(disk := s.disk.(files := s.disk.files[s.rows.workloads[id].name := found.content]),
                       pc := SaveRow(id, found.content, found.ports))
            && Next(t, Fail) == t.(pc := Idle)
            && Next(t, Continue(0, rev)) == t.(rows := InsertRevision(s.rows, rev, id, found.content, found.ports), pc := Idle)
  {
  }

  lemma AddSecretTaken(s: State, secret: Secret, ciphertext: string, mounts: seq<int>, sid: int)
    requires s.pc == Idle && ValidName(secret.name) && MountsOffered(s.rows, mounts) && !SecretNameTaken(s.rows, secret.name)
    requires Fresh(sid, s.rows.secrets)
    ensures var t := Next(s, Begin(AddSecret(secret, ciphertext, mounts)));
            && t == s.(disk := s.disk.(ciphertexts := s.disk.ciphertexts[secret.name := ciphertext]),
                       pc := AddSecretRow(secret, mounts))
            && Next(t, Fail) == t.(pc := Idle)
            && Next(t, Continue(sid, 0)) ==
               if MountsAcceptable(s.rows, mounts) then t.(rows := PutSecret(s.rows, sid, secret, mounts), pc := Idle)
               else t.(pc := Idle)
  {
    hide ValidName, MountsOffered, MountsAcceptable, PutSecret;
  }

  lemma SaveSecretTaken(
    s: State, sid: int, owner: string, group: string, fileMode: string, value: Option<string>, mounts: seq<int>)
    requires s.pc == Idle && sid in s.rows.secrets && MountsOffered(s.rows, mounts)
    ensures var name := s.rows.secrets[sid].name; var secret := Secret(name, owner, group, fileMode);
            var t := Next(s, Begin(SaveSecret(sid, owner, group, fileMode, value, mounts)));
            && t == s.(disk := s.disk.(ciphertexts := if value.Some? then s.disk.ciphertexts[name := value.value]
                                                      else s.disk.ciphertexts),
                       pc := SaveSecretRow(sid, secret, mounts))
            && Next(t, Fail) == t.(pc := Idle)
            && Next(t, Continue(0, 0)) ==
               if MountsAcceptable(s.rows, mounts) then t.(rows := PutSecret(s.rows, sid, secret, mounts), pc := Idle)
               else t.(pc := Idle)
  {
    hide MountsOffered, MountsAcceptable, PutSecret;
  }

  /** The rule for the identity of a decrypted file. */
  predicate ValidIdentity(owner: string, group: string, mode: string) {
    ValidAccountName(owner) && ValidAccountName(group) && ValidFileMode(mode)
  }

  lemma PrunedStarts(s: State, mode: Mode, applied: map<int, int>)
    requires s.pc == ApplyPrune(mode, applied) && NoOrphans(s)
    ensures Next(s, Continue(0, 0)) == TakeSlot(s, ApplyTask(mode, applied))
  {
  }

  lemma DestroyBegins(s: State, id: int)
    requires s.pc == Idle && id in s.rows.workloads
    ensures Next(s, Begin(Destroy(id)))
         == s.(rows := SetEnabled(s.rows, id, false), pc := DestroyIndex(id, s.rows.workloads[id].name))
  {
  }

  lemma DestroyContinues(s: State, id: int, name: string)
    requires s.pc == DestroyIndex(id, name) && EnabledHaveRevisions(s.rows)
    ensures Next(s, Continue(0, 0)) == s.(disk := s.disk.(index := IndexOf(s.rows)), pc := DestroyStart(id, name))
  {
    hide IndexOf;
  }

  lemma DestroyStarts(s: State, id: int, name: string)
    requires s.pc == DestroyStart(id, name)
    ensures Next(s, Continue(0, 0)) == TakeSlot(s, DestroyTask(id, name))
  {
  }

  lemma NothingDeclared()
    ensures Meaning([], []) == EMPTY_INDEX && IndexFile.UniqueNames([])
    ensures FlakeText(Declarations([], false), false) == FlakeBytes(Flake({}, false))
  {
    hide FlakeText;
    var none: set<FlakeInput> := {};
    ListingElements(multiset(none));
    assert multiset(Listing(multiset(none))) == multiset{};
    assert Listing(multiset(none)) == [];
  }

  /** The text is the canonical one of this meaning. */
  ghost predicate Expresses(text: string, m: Index) {
    forall x {:trigger Render(x)} :: x == m ==> text == Render(x)
  }

  ghost predicate ExpressesFlake(text: string, f: Flake) {
    forall x {:trigger FlakeBytes(x)} :: x == f ==> text == FlakeBytes(x)
  }

  lemma ExpressesExactly(text: string, m: Index, flakeText: string, f: Flake)
    ensures Expresses(text, m) <==> text == Render(m)
    ensures ExpressesFlake(flakeText, f) <==> flakeText == FlakeBytes(f)
  {
    hide Render, FlakeBytes;
  }

  class Server {
    var rows: Rows
    var files: map<string, string>
    var ciphertexts: map<string, string>
    var busy: bool
    var dryRun: bool

    /** The two generated files, and what they say. */
    var indexNix: string
    var flakeNix: string
    ghost var index: Index
    ghost var flake: Flake

    /** The job behind a taken slot, the system outside, and the position of the
        handler under way. */
    ghost var job: Job
    ghost var live: map<string, string>
    ghost var pc: Pc

    /** The bytes in the two files are the canonical ones of what they say. */
    ghost predicate Written()
      reads `indexNix, `flakeNix, `index, `flake
    {
      Expresses(indexNix, index) && ExpressesFlake(flakeNix, flake)
    }

    ghost predicate Valid()
      reads `rows, `busy, `job, `indexNix, `flakeNix, `index, `flake
    {
      TablesValid(rows) && busy == job.Job? && Written()
    }

    ghost function Abs(): State
      reads this
    {
      State(rows, Disk(files, ciphertexts, index, flake), job, pc, live, dryRun)
    }

    /** A fresh installation, with the files that StateFlake.Init seeds. */
    constructor (dryRun: bool)
      ensures Valid() && pc == Idle && Abs() == Init(dryRun)
    {
      hide Render, FlakeText;
      var index0 := WriteIndex([], []);
      var flake0 := RenderFlake([], false);
      NothingDeclared();
      rows, files, ciphertexts, busy, this.dryRun := NO_ROWS, map[], map[], false, dryRun;
      indexNix, flakeNix := index0, flake0;
      index, flake := EMPTY_INDEX, Flake({}, false);
      job, live, pc := NoJob, map[], Idle;
    }

    // ---- regenerateIndex ----

    /** The mount lists of one secret, restricted to enabled workloads of types that
        support mounts. */
    method CollectMounts(sid: int) returns (mounts: map<string, seq<string>>)
      ensures MountsAre(rows, MountIds(rows, sid), mounts)
    {
      var ids := MountIds(rows, sid);
      mounts := map[];
      for i := 0 to |ids|
        invariant MountsAre(rows, ids[..i], mounts)
      {
        var wid := ids[i];
        AddMountCorrect(rows, ids, i, mounts);
        if wid !in rows.workloads || !rows.workloads[wid].enabled {
          continue;
        }
        var key := MountSectionOf(rows.workloads[wid].typ);
        if key.Some? {
          var sofar := if key.value in mounts then mounts[key.value] else [];
          mounts := mounts[key.value := sofar + [rows.workloads[wid].name]];
        }
      }
      assert ids[..|ids|] == ids;
    }

    method CollectSecrets(ghost sids: seq<int>) returns (secrets: seq<IndexSecret>)
      requires UniqueWorkloads(rows) && sids == Ids(rows.secrets.Keys)
      ensures SecretsCollected(rows, sids, secrets)
    {
      hide Renders, UniqueWorkloads, MountsAre;
      var todo := Ids(rows.secrets.Keys);
      IdsCorrect(rows.secrets.Keys);
      secrets := [];
      for i := 0 to |todo|
        invariant SecretsCollected(rows, todo[..i], secrets)
      {
        var sid := todo[i];
        assert sid in Elements(todo);
        var mounts := CollectMounts(sid);
        SecretMeaning(rows, sid, mounts);
        var sec := rows.secrets[sid];
        secrets := secrets + [IndexSecret(sec.name, sec.owner, sec.group, sec.mode, mounts)];
      }
      assert todo[..|todo|] == todo;
    }

    /** The entries of the enabled workloads; None when one of them has no revision. */
    method CollectEntries(ghost ids: seq<int>) returns (r: Option<seq<IndexEntry>>)
      requires ids == Ids(rows.workloads.Keys)
      ensures r.Some? <==> EnabledHaveRevisions(rows)
      ensures r.Some? ==> r.value == FlatMap(EntriesOf(rows), ids)
    {
      var todo := Ids(rows.workloads.Keys);
      IdsCorrect(rows.workloads.Keys);
      var entries := [];
      for i := 0 to |todo|
        invariant entries == FlatMap(EntriesOf(rows), todo[..i])
        invariant forall j :: 0 <= j < i && rows.workloads[todo[j]].enabled ==> RevisionsOf(rows, todo[j]) != {}
      {
        assert todo[i] in Elements(todo);
        FlatMapStep(EntriesOf(rows), todo, i);
        var entry := EntryOfRow(todo[i]);
        if entry.None? {
          return None;
        }
        entries := entries + entry.value;
      }
      assert todo[..|todo|] == todo;
      forall id | id in rows.workloads && rows.workloads[id].enabled ensures RevisionsOf(rows, id) != {} {
        assert id in Elements(todo);
      }
      r := Some(entries);
    }

    /** The body of that loop: no entry for a disabled workload, None for an enabled one
        without a revision. */
    method EntryOfRow(id: int) returns (r: Option<seq<IndexEntry>>)
      requires id in rows.workloads
      ensures r == if rows.workloads[id].enabled && RevisionsOf(rows, id) == {} then None else Some(EntryFor(rows, id))
    {
      var wl := rows.workloads[id];
      if !wl.enabled {
        return Some([]);
      }
      var rev := Latest(rows, id);
      if rev.None? {
        return None;
      }
      var ports := DecodeHostPorts(rows.revisions[rev.value].ports);
      r := Some([IndexEntry(wl.name, wl.typ, ports)]);
    }

    /** The bytes regenerateIndex writes, if it comes to writing. */
    method IndexBytes() returns (text: Option<string>)
      requires UniqueWorkloads(rows) && UniqueSecrets(rows)
      ensures text == if EnabledHaveRevisions(rows) then Some(Render(IndexOf(rows))) else None
    {
      ghost var ids, sids := Ids(rows.workloads.Keys), Ids(rows.secrets.Keys);
      IdsCorrect(rows.workloads.Keys);
      IdsCorrect(rows.secrets.Keys);
      var entries := CollectEntries(ids);
      if entries.None? {
        return None;
      }
      var secrets := CollectSecrets(sids);
      CollectedIndex(rows, ids, sids, secrets);
      var bytes := WriteIndex(entries.value, secrets);
      text := Some(bytes);
    }

    /** regenerateIndex: index.nix becomes the canonical bytes of what the rows call
        for, or nothing changes. */
    method RegenerateIndex(fault: bool) returns (ok: bool)
      requires UniqueWorkloads(rows) && UniqueSecrets(rows) && Written()
      modifies `indexNix, `index
      ensures Written() && (ok <==> !fault && EnabledHaveRevisions(rows))
      ensures ok ==> index == IndexOf(rows)
      ensures !ok ==> indexNix == old(indexNix) && index == old(index)
    {
      hide Render, IndexOf, FlakeBytes, ExpressesFlake;
      var text := IndexBytes();
      if text.None? || fault {
        return false;
      }
      indexNix := text.value;
      index := IndexOf(rows);
      ok := true;
    }

    method CollectInputs() returns (inputs: seq<FlakeInput>)
      ensures inputs == FlatMap(InputRow(rows), Ids(rows.inputs.Keys))
    {
      var ids := Ids(rows.inputs.Keys);
      inputs := [];
      for i := 0 to |ids|
        invariant inputs == FlatMap(InputRow(rows), ids[..i])
      {
        FlatMapStep(InputRow(rows), ids, i);
        if ids[i] in rows.inputs {
          inputs := inputs + [rows.inputs[ids[i]]];
        }
      }
      assert ids[..|ids|] == ids;
    }

    /** The bytes regenerateFlake writes. */
    method FlakeBytesNow() returns (text: string)
      requires UniqueInputRows(rows)
      ensures text == FlakeBytes(FlakeOf(rows))
    {
      hide FlakeText, FlakeBytes, Declarations;
      var inputs := CollectInputs();
      ListedInputs(rows);
      text := RenderFlake(inputs, rows.secrets != map[]);
    }

    /** regenerateFlake: flake.nix becomes the canonical bytes of the declared inputs,
        with agenix exactly when secrets exist. */
    method RegenerateFlake(fault: bool) returns (ok: bool)
      requires UniqueInputRows(rows) && Written()
      modifies `flakeNix, `flake
      ensures Written() && (ok <==> !fault)
      ensures ok ==> flake == FlakeOf(rows)
      ensures !ok ==> flakeNix == old(flakeNix) && flake == old(flake)
    {
      hide FlakeText, FlakeBytes, Render, Expresses;
      if fault {
        return false;
      }
      flakeNix := FlakeBytesNow();
      flake := FlakeOf(rows);
      ok := true;
    }

    /** The snapshot of startApply: the newest revision of every enabled workload. */
    method TakeSnapshot(fault: bool) returns (applied: Option<map<int, int>>)
      ensures applied.Some? <==> !fault && EnabledHaveRevisions(rows)
      ensures applied.Some? ==> applied.value == Snapshot(rows)
    {
      if fault {
        return None;
      }
      var ids := Ids(rows.workloads.Keys);
      IdsCorrect(rows.workloads.Keys);
      var marks: map<int, int> := map[];
      for i := 0 to |ids|
        invariant MarksUpTo(rows, ids, i, marks)
      {
        assert ids[i] in Elements(ids);
        if !rows.workloads[ids[i]].enabled {
          continue;
        }
        var rev := Latest(rows, ids[i]);
        if rev.None? {
          return None;
        }
        marks := marks[ids[i] := rev.value];
      }
      MarksComplete(rows, ids, marks);
      applied := Some(marks);
    }

    // ---- startApply ----

    /** PruneSecrets: every ciphertext file that keep does not name is removed, one by
        one in any order, up to the removal that fails. */
    method PruneSecrets(keep: set<string>, fault: nat) returns (ok: bool, ghost removed: seq<string>)
      modifies `ciphertexts
      ensures ok <==> fault >= |old(ciphertexts).Keys - keep|
      ensures ok ==> ciphertexts == map n | n in old(ciphertexts) && n in keep :: old(ciphertexts)[n]
      ensures ciphertexts == old(ciphertexts) - Elements(removed) && Elements(removed) !! keep
    {
      removed := [];
      assert ciphertexts == ciphertexts - Elements(removed);
      var todo := ciphertexts.Keys;
      var removals := 0;
      while todo != {}
        invariant ciphertexts == old(ciphertexts) - Elements(removed) && Elements(removed) !! keep
        invariant todo <= ciphertexts.Keys && forall n :: n in ciphertexts && n !in todo ==> n in keep
        invariant removals <= fault && removals + |todo - keep| == |old(ciphertexts).Keys - keep|
        decreases |todo|
      {
        assert (forall n :: n !in todo) ==> todo == {};
        var n :| n in todo;
        FewerToPrune(todo, keep, n);
        if n !in keep {
          if removals == fault {
            return false, removed;
          }
          removals := removals + 1;
          RemovedOneMore(old(ciphertexts), removed, n);
          ciphertexts := ciphertexts - {n};
          removed := removed + [n];
        }
        todo := todo - {n};
      }
      RemovedAll(old(ciphertexts), keep, removed);
      ok := true;
    }

    /** Start, as far as the slot goes: the compare-and-swap, and the release of a slot
        whose job row could not be stored. */
    method Start(ghost task: Task, faultStore: bool) returns (r: Reply)
      requires busy == job.Job?
      modifies `busy, `job
      ensures r == if old(busy) then Busy else if faultStore then Failed else Done
      ensures busy == job.Job? && job == if r.Done? then Job(task, Locking, map[]) else old(job)
    {
      if busy {
        return Busy;
      }
      busy := true;
      if faultStore {
        busy := false;
        return Failed;
      }
      job := Job(task, Locking, map[]);
      r := Done;
    }

    /** startApply. Whatever fails, and even when the slot turns out to be taken, what
        has been written before stays written. */
    method StartApply(mode: Mode, faultIndex: bool, faultFlake: bool, faultRead: bool, faultPrune: nat, faultStore: bool)
      returns (r: Reply, ghost trace: seq<Label>)
      requires Valid() && pc == Idle
      modifies `indexNix, `index, `flakeNix, `flake, `ciphertexts, `busy, `job, `pc
      ensures Valid() && Abs() == Run(old(Abs()), trace) && pc == Idle
      ensures r.Done? || r.Busy? ==>
                && index == IndexOf(rows)
                && flake == FlakeOf(rows)
                && ciphertexts == map n | n in old(ciphertexts) && n in SecretNames(rows) :: old(ciphertexts)[n]
      ensures r.Failed? <==> faultIndex || faultFlake || faultRead || !EnabledHaveRevisions(rows)
                             || faultPrune < |Orphans(old(ciphertexts), rows)| || (old(job).NoJob? && faultStore)
      ensures !r.Refused? && !r.Flagged? && (r.Done? <==> job != old(job))
      ensures r.Done? ==> old(job).NoJob? && EnabledHaveRevisions(rows)
                          && job == Job(ApplyTask(mode, Snapshot(rows)), Locking, map[])
      ensures r.Busy? ==> old(job).Job?
    {
      hide Written, Run, Next, IndexOf, FlakeOf, Render, Snapshot, EnabledHaveRevisions, Orphans, SecretNames;
      ghost var s0 := Abs();
      trace := [];
      NothingRuns(s0);
      var ok := RegenerateIndex(faultIndex);
      if !ok {
        return Failed, trace;
      }
      pc := ApplyFlake(mode);
      trace := Took(s0, s0, trace, Begin(Apply(mode)));
      ApplyBegins(s0, mode);
      r, trace := FlakeAndOn(mode, faultFlake, faultRead, faultPrune, faultStore, s0, trace);
    }

    /** startApply from the flake on. */
    method FlakeAndOn(mode: Mode, faultFlake: bool, faultRead: bool, faultPrune: nat, faultStore: bool,
                      ghost s0: State, ghost before: seq<Label>) returns (r: Reply, ghost trace: seq<Label>)
      requires UniqueInputRows(rows) && Written() && busy == job.Job? && pc == ApplyFlake(mode) && Abs() == Run(s0, before)
      modifies `flakeNix, `flake, `ciphertexts, `busy, `job, `pc
      ensures Written() && busy == job.Job? && Abs() == Run(s0, trace) && pc == Idle && !r.Refused? && !r.Flagged?
      ensures r.Failed? <==> faultFlake || faultRead || !EnabledHaveRevisions(rows)
                             || faultPrune < |Orphans(old(ciphertexts), rows)| || (old(job).NoJob? && faultStore)
      ensures r.Done? || r.Busy? ==>
                && flake == FlakeOf(rows)
                && ciphertexts == map n | n in old(ciphertexts) && n in SecretNames(rows) :: old(ciphertexts)[n]
      ensures r.Done? <==> job != old(job)
      ensures r.Done? ==> old(job).NoJob? && EnabledHaveRevisions(rows)
                          && job == Job(ApplyTask(mode, Snapshot(rows)), Locking, map[])
      ensures r.Busy? ==> old(job).Job?
    {
      hide Written, Run, Next, FlakeOf, FlakeBytes, Snapshot, EnabledHaveRevisions, Orphans, SecretNames, UniqueInputRows;
      ghost var s1 := Abs();
      var ok := RegenerateFlake(faultFlake);
      if !ok {
        r, trace := GiveUp(s0, before);
        return;
      }
      pc := ApplySnapshot(mode);
      trace := Took(s0, s1, before, Continue(0, 0));
      FlakeContinues(s1, mode);
      r, trace := SnapshotAndOn(mode, faultRead, faultPrune, faultStore, s0, trace);
    }

    /** startApply from the snapshot on. */
    method SnapshotAndOn(mode: Mode, faultRead: bool, faultPrune: nat, faultStore: bool,
                         ghost s0: State, ghost before: seq<Label>) returns (r: Reply, ghost trace: seq<Label>)
      requires busy == job.Job? && pc == ApplySnapshot(mode) && Abs() == Run(s0, before)
      modifies `ciphertexts, `busy, `job, `pc
      ensures busy == job.Job? && Abs() == Run(s0, trace) && pc == Idle && !r.Refused? && !r.Flagged?
      ensures r.Failed? <==> faultRead || !EnabledHaveRevisions(rows)
                             || faultPrune < |Orphans(old(ciphertexts), rows)| || (old(job).NoJob? && faultStore)
      ensures r.Done? || r.Busy? ==>
                ciphertexts == map n | n in old(ciphertexts) && n in SecretNames(rows) :: old(ciphertexts)[n]
      ensures r.Done? <==> job != old(job)
      ensures r.Done? ==> old(job).NoJob? && EnabledHaveRevisions(rows)
                          && job == Job(ApplyTask(mode, Snapshot(rows)), Locking, map[])
      ensures r.Busy? ==> old(job).Job?
    {
      hide Run, Next, Snapshot, EnabledHaveRevisions, Orphans, SecretNames;
      ghost var s1 := Abs();
      var applied := TakeSnapshot(faultRead);
      if applied.None? {
        r, trace := GiveUp(s0, before);
        return;
      }
      pc := ApplyPrune(mode, applied.value);
      trace := Took(s0, s1, before, Continue(0, 0));
      SnapshotContinues(s1, mode);
      r, trace := PruneAndStart(mode, applied.value, faultPrune, faultStore, s0, trace);
    }

    /** A handler that returns an error half way. */
    method GiveUp(ghost s0: State, ghost before: seq<Label>) returns (r: Reply, ghost trace: seq<Label>)
      requires Abs() == Run(s0, before)
      modifies `pc
      ensures r == Failed && pc == Idle && Abs() == Run(s0, trace)
    {
      hide Run;
      RunSnoc(s0, before, Fail);
      pc := Idle;
      r, trace := Failed, before + [Fail];
    }

    /** The rest of startApply: the orphans go, and then the slot is tried. */
    method PruneAndStart(mode: Mode, applied: map<int, int>, fault: nat, faultStore: bool,
                         ghost s0: State, ghost before: seq<Label>) returns (r: Reply, ghost trace: seq<Label>)
      requires pc == ApplyPrune(mode, applied) && Abs() == Run(s0, before) && busy == job.Job?
      modifies `ciphertexts, `busy, `job, `pc
      ensures busy == job.Job? && Abs() == Run(s0, trace) && pc == Idle && !r.Refused? && !r.Flagged?
      ensures r.Failed? <==> fault < |Orphans(old(ciphertexts), rows)| || (old(job).NoJob? && faultStore)
      ensures r.Done? || r.Busy? ==>
                ciphertexts == map n | n in old(ciphertexts) && n in SecretNames(rows) :: old(ciphertexts)[n]
      ensures r.Done? <==> job != old(job)
      ensures r.Done? ==> old(job).NoJob? && job == Job(ApplyTask(mode, applied), Locking, map[])
      ensures r.Busy? ==> old(job).Job?
    {
      hide Run, Next, Orphans, NoOrphans, SecretNames;
      var ok;
      ok, trace := PruneOrphans(fault, s0, before);
      if !ok {
        r, trace := GiveUp(s0, trace);
        return;
      }
      ghost var s1 := Abs();
      r := Start(ApplyTask(mode, applied), faultStore);
      pc := Idle;
      trace := Took(s0, s1, trace, if r.Failed? then Fail else Continue(0, 0));
      FailIdles(s1);
      PrunedStarts(s1, mode, applied);
    }

    /** The pruning, as a run. */
    method PruneOrphans(fault: nat, ghost s0: State, ghost before: seq<Label>) returns (ok: bool, ghost trace: seq<Label>)
      requires pc.ApplyPrune? && Abs() == Run(s0, before)
      modifies `ciphertexts
      ensures Abs() == Run(s0, trace)
      ensures ok <==> fault >= |Orphans(old(ciphertexts), rows)|
      ensures ok ==> NoOrphans(Abs())
                     && ciphertexts == map n | n in old(ciphertexts) && n in SecretNames(rows) :: old(ciphertexts)[n]
    {
      hide Run;
      ghost var removed;
      ok, removed := PruneSecrets(SecretNames(rows), fault);
      PrunesRun(old(Abs()), removed);
      RunConcat(s0, before, Prunes(removed));
      trace := before + Prunes(removed);
    }

    // ---- Workload handlers ----

    /** WriteWorkload, for a name that has passed the rule. */
    method WriteWorkload(name: string, content: string)
      modifies `files
      ensures files == old(files)[name := content]
    {
      files := files[name := content];
    }

    /** handleWorkloadCreate: the file first, then the row with its first revision. */
    method HandleCreate(name: string, display: string, typ: string, template: Option<Template>,
                        id: int, rev: int, fault: nat) returns (r: Reply)
      requires Valid() && pc == Idle && Fresh(id, rows.workloads) && Fresh(rev, rows.revisions)
      modifies `files, `rows, `pc
      ensures Valid() && pc == Idle
      ensures r.Refused? <==>
                || Lookup(typ).None? || !ValidNameForType(Lookup(typ).value, name)
                || !ValidDisplayName(display) || template.None? || WorkloadNameTaken(old(rows), name)
      ensures (r.Done? <==> !r.Refused? && fault >= 2) && !r.Flagged? && !r.Busy?
      ensures Abs() ==
              if r.Refused? || fault == 0 then old(Abs())
              else Run(old(Abs()), [Begin(Create(name, typ, template.value.content, template.value.ports)),
                                    if fault == 1 then Fail else Continue(id, rev)])
      ensures files == if r.Refused? || fault == 0 then old(files) else old(files)[name := template.value.content]
      ensures if r.Done? then
                WorkloadAdded(old(rows), rows, id, rev, name, typ, template.value.content, FormatFrom(template.value.ports))
              else rows == old(rows)
    {
      hide Written, Run, Next, ValidNameForType, Lookup, WorkloadAdded, InsertWorkload, TablesValid, Fresh, FormatFrom;
      var wt := Lookup(typ);
      if wt.None? || !ValidNameForType(wt.value, name) || !ValidDisplayName(display) || template.None? {
        return Refused;
      }
      if WorkloadNameTaken(rows, name) {
        return Refused;
      }
      if fault == 0 {
        return Failed;
      }
      var content, ports := template.value.content, template.value.ports;
      CreateTaken(Abs(), name, typ, content, ports, id, rev);
      RunTwo(Abs(), Begin(Create(name, typ, content, ports)), if fault == 1 then Fail else Continue(id, rev));
      WriteWorkload(name, content);
      if fault == 1 {
        return Failed;
      }
      var stored := FormatHostPorts(ports);
      InsertWorkloadAdds(rows, id, rev, name, typ, content, stored);
      InsertedTablesValid(rows, id, rev, name, typ, content, stored);
      rows := InsertWorkload(rows, id, rev, name, typ, content, stored);
      r := Done;
    }

    /** handleWorkloadSave: a malformed port rejects the whole save; otherwise the file
        first, then the revision, both with the form's text normalized. The syntax is
        looked at only after that. */
    method HandleSave(id: int, text: string, portForm: seq<string>, protoForm: seq<string>, rev: int, fault: nat,
                      syntaxOk: bool) returns (r: Reply, ghost ports: seq<HostPort>)
      requires Valid() && pc == Idle && Fresh(rev, rows.revisions)
      modifies `files, `rows, `pc
      ensures Valid() && pc == Idle
      ensures r.Refused? <==> id !in old(rows).workloads || !WellFormed(portForm, protoForm)
      ensures !r.Refused? ==> Parsed(portForm, protoForm, ports)
      ensures (r.Done? || r.Flagged? <==> !r.Refused? && fault >= 2) && (r.Flagged? ==> !syntaxOk) && (r.Done? ==> syntaxOk)
      ensures !r.Busy?
      ensures Abs() ==
              if r.Refused? || fault == 0 then old(Abs())
              else Run(old(Abs()), [Begin(Save(id, Normalized(text), ports)), if fault == 1 then Fail else Continue(0, rev)])
      ensures files == if r.Refused? || fault == 0 then old(files)
                       else old(files)[old(rows).workloads[id].name := Normalized(text)]
      ensures if r.Done? || r.Flagged? then
                RevisionAdded(old(rows), rows, rev, id, Normalized(text), FormatFrom(ports))
              else rows == old(rows)
    {
      hide Written, Run, Next, Normalized, FormatFrom, Parsed, WellFormed;
      ports := [];
      if id !in rows.workloads {
        return Refused, ports;
      }
      var content := Normalized(text);
      var parsed := ParseHostPorts(portForm, protoForm);
      if parsed.None? {
        return Refused, ports;
      }
      ports := parsed.value;
      if fault == 0 {
        return Failed, ports;
      }
      SaveTaken(Abs(), id, content, ports, rev);
      RunTwo(Abs(), Begin(Save(id, content, ports)), if fault == 1 then Fail else Continue(0, rev));
      WriteWorkload(rows.workloads[id].name, content);
      if fault == 1 {
        return Failed, ports;
      }
      var stored := FormatHostPorts(parsed.value);
      rows := InsertRevision(rows, rev, id, content, stored);
      r := if syntaxOk then Done else Flagged;
    }

    /** handleWorkloadRestore: the target's content and ports become the newest
        revision. */
    method HandleRestore(id: int, target: int, rev: int, fault: nat) returns (r: Reply)
      requires Valid() && pc == Idle && Fresh(rev, rows.revisions)
      modifies `files, `rows, `pc
      ensures Valid() && pc == Idle
      ensures r.Refused? <==> target !in RevisionsOf(old(rows), id)
      ensures (r.Done? <==> !r.Refused? && fault >= 2) && !r.Flagged? && !r.Busy?
      ensures Abs() ==
              if r.Refused? || fault == 0 then old(Abs())
              else Run(old(Abs()), [Begin(Restore(id, target)), if fault == 1 then Fail else Continue(0, rev)])
      ensures files == if r.Refused? || fault == 0 then old(files)
                       else old(files)[old(rows).workloads[id].name := old(rows).revisions[target].content]
      ensures if r.Done? then
                RevisionAdded(old(rows), rows, rev, id, old(rows).revisions[target].content, old(rows).revisions[target].ports)
              else rows == old(rows)
    {
      hide Written, Run, Next;
      if target !in rows.revisions || rows.revisions[target].workload != id {
        return Refused;
      }
      if fault == 0 {
        return Failed;
      }
      RestoreTaken(Abs(), id, target, rev);
      RunTwo(Abs(), Begin(Restore(id, target)), if fault == 1 then Fail else Continue(0, rev));
      var found := rows.revisions[target];
      WriteWorkload(rows.workloads[id].name, found.content);
      if fault == 1 {
        return Failed;
      }
      rows := InsertRevision(rows, rev, id, found.content, found.ports);
      r := Done;
    }

    /** handleWorkloadDestroy, up to the start of its job: disable, regenerate the index,
        take the slot. */
    method HandleDestroy(id: int, confirm: string, faultRow: bool, faultIndex: bool, faultStore: bool)
      returns (r: Reply, ghost trace: seq<Label>)
      requires Valid() && pc == Idle
      modifies `rows, `indexNix, `index, `busy, `job, `pc
      ensures Valid() && pc == Idle && Abs() == Run(old(Abs()), trace)
      ensures r.Refused? <==> id !in old(rows).workloads || confirm != old(rows).workloads[id].name
      ensures !r.Flagged? && (r.Refused? ==> Abs() == old(Abs()))
      ensures if r.Refused? || faultRow then rows == old(rows) else EnabledSet(old(rows), rows, id, false)
      ensures r.Failed? <==>
                !r.Refused? && (faultRow || faultIndex || !EnabledHaveRevisions(SetEnabled(old(rows), id, false))
                                || (old(job).NoJob? && faultStore))
      ensures r.Done? || r.Busy? ==> rows == SetEnabled(old(rows), id, false) && index == IndexOf(rows)
      ensures r.Done? ==> old(job).NoJob? && job == Job(DestroyTask(id, confirm), Locking, map[])
      ensures r.Busy? ==> old(job).Job? && job == old(job)
    {
      hide Written, Run, Next, IndexOf, Render;
      ghost var s0 := Abs();
      trace := [];
      NothingRuns(s0);
      if id !in rows.workloads || confirm != rows.workloads[id].name {
        return Refused, trace;
      }
      if faultRow {
        return Failed, trace;
      }
      rows := SetEnabled(rows, id, false);
      pc := DestroyIndex(id, confirm);
      trace := Took(s0, s0, trace, Begin(Destroy(id)));
      DestroyBegins(s0, id);
      r, trace := DestroyIndexAndStart(id, confirm, faultIndex, faultStore, s0, trace);
    }

    /** The second half of it: the index without the workload, then the slot. */
    method DestroyIndexAndStart(id: int, name: string, faultIndex: bool, faultStore: bool,
                                ghost s0: State, ghost before: seq<Label>) returns (r: Reply, ghost trace: seq<Label>)
      requires Valid() && pc == DestroyIndex(id, name) && Abs() == Run(s0, before)
      modifies `indexNix, `index, `busy, `job, `pc
      ensures Valid() && pc == Idle && Abs() == Run(s0, trace) && !r.Refused? && !r.Flagged?
      ensures r.Failed? <==> faultIndex || !EnabledHaveRevisions(rows) || (old(job).NoJob? && faultStore)
      ensures r.Done? || r.Busy? ==> index == IndexOf(rows)
      ensures r.Done? ==> old(job).NoJob? && job == Job(DestroyTask(id, name), Locking, map[])
      ensures r.Busy? ==> old(job).Job? && job == old(job)
    {
      hide Written, Run, Next, IndexOf, Render, EnabledHaveRevisions, UniqueWorkloads, UniqueSecrets, UniqueInputRows;
      ghost var s1 := Abs();
      var ok := RegenerateIndex(faultIndex);
      if !ok {
        r, trace := GiveUp(s0, before);
        return;
      }
      pc := DestroyStart(id, name);
      trace := Took(s0, s1, before, Continue(0, 0));
      DestroyContinues(s1, id, name);
      ghost var s2 := Abs();
      r := Start(DestroyTask(id, name), faultStore);
      pc := Idle;
      trace := Took(s0, s2, trace, if r.Failed? then Fail else Continue(0, 0));
      FailIdles(s2);
      DestroyStarts(s2, id, name);
    }

    // ---- Secret handlers ----

    /** handleSecretCreate: ciphertext first, row and mounts second. A repeated mount
        makes the transaction fail, and leaves an orphaned file. */
    method HandleAddSecret(secret: Secret, value: string, ciphertext: string, mounts: seq<int>, sid: int, fault: nat)
      returns (r: Reply)
      requires Valid() && pc == Idle && Fresh(sid, rows.secrets)
      modifies `ciphertexts, `rows, `pc
      ensures Valid() && pc == Idle
      ensures r.Refused? <==>
                || !ValidName(secret.name) || !ValidIdentity(secret.owner, secret.group, secret.mode) || value == ""
                || !MountsOffered(old(rows), mounts) || SecretNameTaken(old(rows), secret.name)
      ensures r.Done? <==> !r.Refused? && fault >= 2 && MountsAcceptable(old(rows), mounts)
      ensures !r.Flagged? && !r.Busy?
      ensures Abs() ==
              if r.Refused? || fault == 0 then old(Abs())
              else Run(old(Abs()), [Begin(AddSecret(secret, ciphertext, mounts)), if fault == 1 then Fail else Continue(sid, 0)])
      ensures ciphertexts == if r.Refused? || fault == 0 then old(ciphertexts) else old(ciphertexts)[secret.name := ciphertext]
      ensures if r.Done? then
                SecretPut(old(rows), rows, sid, secret.name, secret.owner, secret.group, secret.mode, mounts)
              else rows == old(rows)
    {
      hide Written, Run, Next, ValidName, ValidIdentity, MountsOffered, MountsAcceptable;
      if !ValidName(secret.name) || !ValidIdentity(secret.owner, secret.group, secret.mode) || value == "" {
        return Refused;
      }
      if !MountsOffered(rows, mounts) || SecretNameTaken(rows, secret.name) {
        return Refused;
      }
      if fault == 0 {
        return Failed;
      }
      AddSecretTaken(Abs(), secret, ciphertext, mounts, sid);
      RunTwo(Abs(), Begin(AddSecret(secret, ciphertext, mounts)), if fault == 1 then Fail else Continue(sid, 0));
      ciphertexts := ciphertexts[secret.name := ciphertext];
      if fault == 1 || !MountsAcceptable(rows, mounts) {
        return Failed;
      }
      PutSecretPuts(rows, sid, secret, mounts);
      rows := PutSecret(rows, sid, secret, mounts);
      r := Done;
    }

    /** handleSecretSave: an empty value keeps the ciphertext; otherwise it is rewritten
        before the row. */
    method HandleSaveSecret(sid: int, owner: string, group: string, fileMode: string, value: Option<string>,
                            mounts: seq<int>, fault: nat) returns (r: Reply)
      requires Valid() && pc == Idle
      modifies `ciphertexts, `rows, `pc
      ensures Valid() && pc == Idle
      ensures r.Refused? <==>
                sid !in old(rows).secrets || !ValidIdentity(owner, group, fileMode) || !MountsOffered(old(rows), mounts)
      ensures r.Done? <==> !r.Refused? && fault >= 2 && MountsAcceptable(old(rows), mounts)
      ensures !r.Flagged? && !r.Busy?
      ensures Abs() ==
              if r.Refused? || fault == 0 then old(Abs())
              else Run(old(Abs()), [Begin(SaveSecret(sid, owner, group, fileMode, value, mounts)),
                                    if fault == 1 then Fail else Continue(0, 0)])
      ensures ciphertexts == if r.Refused? || fault == 0 || value.None? then old(ciphertexts)
                             else old(ciphertexts)[old(rows).secrets[sid].name := value.value]
      ensures if r.Done? then
                SecretPut(old(rows), rows, sid, old(rows).secrets[sid].name, owner, group, fileMode, mounts)
              else rows == old(rows)
    {
      hide Written, Run, Next, ValidIdentity, MountsOffered, MountsAcceptable;
      if sid !in rows.secrets || !ValidIdentity(owner, group, fileMode) || !MountsOffered(rows, mounts) {
        return Refused;
      }
      if fault == 0 {
        return Failed;
      }
      SaveSecretTaken(Abs(), sid, owner, group, fileMode, value, mounts);
      RunTwo(Abs(), Begin(SaveSecret(sid, owner, group, fileMode, value, mounts)), if fault == 1 then Fail else Continue(0, 0));
      var name := rows.secrets[sid].name;
      if value.Some? {
        ciphertexts := ciphertexts[name := value.value];
      }
      if fault == 1 || !MountsAcceptable(rows, mounts) {
        return Failed;
      }
      PutSecretPuts(rows, sid, Secret(name, owner, group, fileMode), mounts);
      rows := PutSecret(rows, sid, Secret(name, owner, group, fileMode), mounts);
      r := Done;
    }

    // ---- Handlers of one statement ----

    /** setEnabled: no look at the job slot. */
    method SetWorkloadEnabled(id: int, on: bool, fault: bool) returns (r: Reply)
      requires Valid() && pc == Idle
      modifies `rows
      ensures !r.Flagged? && !r.Busy?
      ensures Valid() && (r.Refused? <==> id !in old(rows).workloads) && (r.Failed? <==> fault && !r.Refused?)
      ensures Abs() == if r.Done? then Next(old(Abs()), Begin(Enable(id, on))) else old(Abs())
      ensures r.Done? ==> EnabledSet(old(rows), rows, id, on)
    {
      hide Written;
      if id !in rows.workloads {
        return Refused;
      }
      if fault {
        return Failed;
      }
      rows := SetEnabled(rows, id, on);
      r := Done;
    }

    /** handleSecretDelete: the row goes with its mounts; the ciphertext waits for the
        next apply. */
    method HandleDeleteSecret(sid: int, fault: bool) returns (r: Reply)
      requires Valid() && pc == Idle
      modifies `rows
      ensures !r.Flagged? && !r.Busy?
      ensures Valid() && (r.Refused? <==> sid !in old(rows).secrets) && (r.Failed? <==> fault && !r.Refused?)
      ensures Abs() == if r.Done? then Next(old(Abs()), Begin(RemoveSecret(sid))) else old(Abs())
      ensures r.Done? ==> SecretGone(old(rows), rows, sid)
    {
      hide Written;
      if sid !in rows.secrets {
        return Refused;
      }
      if fault {
        return Failed;
      }
      rows := DeleteSecret(rows, sid);
      r := Done;
    }

    /** setWorkloadSecretMount, for a workload of a type that delivers secrets: the mount,
        and then the secret's timestamp if the mount changed. When only the second fails,
        the mount stays changed. */
    method SetWorkloadSecretMount(sid: int, id: int, attach: bool, fault: nat) returns (r: Reply)
      requires Valid() && pc == Idle
      modifies `rows
      ensures Valid() && !r.Flagged? && !r.Busy?
      ensures r.Refused? <==>
                sid !in old(rows).secrets || id !in old(rows).workloads || MountSectionOf(old(rows).workloads[id].typ).None?
      ensures r.Failed? <==>
                !r.Refused? && (fault == 0 || (fault == 1 && ((sid, id) in old(rows).mounts <==> !attach)))
      ensures Abs() == if r.Refused? || fault == 0 then old(Abs())
                       else Next(old(Abs()), Begin(if attach then Attach(sid, id) else Detach(sid, id)))
      ensures if r.Refused? || fault == 0 then rows == old(rows) else MountSet(old(rows), rows, sid, id, attach)
    {
      hide Written;
      if id !in rows.workloads || MountSectionOf(rows.workloads[id].typ).None? || sid !in rows.secrets {
        return Refused;
      }
      if fault == 0 {
        return Failed;
      }
      hide MountSectionOf;
      var changes := ((sid, id) in rows.mounts) != attach;
      rows := rows.(mounts := if attach then rows.mounts + {(sid, id)} else rows.mounts - {(sid, id)});
      r := if fault == 1 && changes then Failed else Done;
    }

    /** handleFlakeCreate. */
    method HandleAddInput(iid: int, input: FlakeInput, fault: bool) returns (r: Reply)
      requires Valid() && pc == Idle && Fresh(iid, rows.inputs)
      modifies `rows
      ensures !r.Flagged? && !r.Busy?
      ensures Valid() && (r.Failed? <==> fault && !r.Refused?)
      ensures r.Refused? <==> !ValidName(input.name) || input.url == "" || InputNameTaken(old(rows), input.name)
      ensures Abs() == if r.Done? then Next(old(Abs()), Begin(AddInput(iid, input))) else old(Abs())
      ensures r.Done? ==> InputPut(old(rows), rows, iid, input.name, input.url, input.followsNixpkgs)
    {
      hide Written;
      if !ValidName(input.name) || input.url == "" || InputNameTaken(rows, input.name) {
        return Refused;
      }
      if fault {
        return Failed;
      }
      rows := rows.(inputs := rows.inputs[iid := input]);
      r := Done;
    }

    /** handleFlakeSave: the name stays. */
    method HandleSaveInput(iid: int, url: string, follows: bool, fault: bool) returns (r: Reply)
      requires Valid() && pc == Idle
      modifies `rows
      ensures !r.Flagged? && !r.Busy?
      ensures Valid() && (r.Refused? <==> iid !in old(rows).inputs || url == "") && (r.Failed? <==> fault && !r.Refused?)
      ensures Abs() == if r.Done? then Next(old(Abs()), Begin(SaveInput(iid, url, follows))) else old(Abs())
      ensures r.Done? ==> InputPut(old(rows), rows, iid, old(rows).inputs[iid].name, url, follows)
    {
      hide Written;
      if iid !in rows.inputs || url == "" {
        return Refused;
      }
      if fault {
        return Failed;
      }
      rows := rows.(inputs := rows.inputs[iid := FlakeInput(rows.inputs[iid].name, url, follows)]);
      r := Done;
    }

    /** handleFlakeDelete: flake.nix keeps the input until the next apply. */
    method HandleDeleteInput(iid: int, fault: bool) returns (r: Reply)
      requires Valid() && pc == Idle
      modifies `rows
      ensures !r.Flagged? && !r.Busy?
      ensures Valid() && (r.Refused? <==> iid !in old(rows).inputs) && (r.Failed? <==> fault && !r.Refused?)
      ensures Abs() == if r.Done? then Next(old(Abs()), Begin(RemoveInput(iid))) else old(Abs())
      ensures r.Done? ==> InputGone(old(rows), rows, iid)
    {
      hide Written;
      if iid !in rows.inputs {
        return Refused;
      }
      if fault {
        return Failed;
      }
      rows := rows.(inputs := rows.inputs - {iid});
      r := Done;
    }

    // ---- The background job, run to its end ----

    /** Pipeline.Rebuild: the three commands in order, each only after the one before it
        exited 0. A command that could not run yields -1 and an error; one that exited
        otherwise yields its code. In a dry run, switch and test become build. */
    method Rebuild(mode: Mode, lock: CommandResult, update: CommandResult, build: CommandResult)
      returns (code: int, err: bool, ghost trace: seq<Label>)
      requires At(Abs(), Locking) && pc == Idle
      requires mode == if job.task.ApplyTask? then job.task.mode else Switch
      modifies `job, `live
      ensures Abs() == Run(old(Abs()), trace)
      ensures code == 0 && !err <==> Succeeds(lock) && Succeeds(update) && Succeeds(build)
      ensures (code, err) == ResultOf(if !Succeeds(lock) then lock else if !Succeeds(update) then update else build)
      ensures code == 0 && !err ==>
                job == if mode == Build then NoJob
                       else Job(old(job).task, AfterRebuild(old(job).task), Captured(Abs().disk))
      ensures code == 0 && !err ==>
                if dryRun || mode == Build then live == old(live) else Activated(live, index, files)
      ensures !(code == 0 && !err) ==> job == NoJob && live == old(live)
    {
      CapturedActivates(Abs().disk);
      hide Run, Next, Captured, Activated, AfterRebuild;
      ghost var s0 := Abs();
      NothingRuns(s0);
      LockSteps(s0, Succeeds(lock));
      trace := Took(s0, s0, [], Lock(Succeeds(lock)));
      job := if Succeeds(lock) then job.(stage := Updating) else NoJob;
      if lock.CannotRun? {
        return -1, true, trace;
      }
      if lock.code != 0 {
        return lock.code, false, trace;
      }
      ghost var s1 := Abs();
      UpdateSteps(s1, Succeeds(update));
      trace := Took(s0, s1, trace, Update(Succeeds(update)));
      job := if Succeeds(update) then job.(stage := Building, captured := Captured(Abs().disk)) else NoJob;
      if update.CannotRun? {
        return -1, true, trace;
      }
      if update.code != 0 {
        return update.code, false, trace;
      }
      ghost var s2 := Abs();
      RebuildSteps(s2, Succeeds(build), mode);
      trace := Took(s0, s2, trace, Machine.Rebuild(Succeeds(build)));
      var effective := mode;
      if dryRun && mode != Build {
        effective := Build;
      }
      live := if Succeeds(build) && effective != Build then job.captured else live;
      job := if Succeeds(build) && (mode != Build || job.task.DestroyTask?)
        then job.(stage := AfterRebuild(job.task)) else NoJob;
      if build.CannotRun? {
        return -1, true, trace;
      }
      code, err := build.code, false;
    }

    /** The marks of an apply job, up to the one that fails. */
    method MarkAll(applied: map<int, int>, fault: nat) returns (ok: bool, ghost trace: seq<Label>)
      requires job.Job? && job.stage == Marking(applied) && pc == Idle
      modifies `job, `rows
      ensures Abs() == Run(old(Abs()), trace) && job == NoJob
      ensures TablesValid(old(rows)) ==> TablesValid(rows)
      ensures ok <==> fault >= |applied.Keys|
      ensures ok ==> MarkedUpTo(old(rows), rows, applied, {})
      ensures !ok ==> exists left :: |left| == |applied.Keys| - fault && MarkedUpTo(old(rows), rows, applied, left)
    {
      ghost var s0 := Abs();
      var left;
      left, trace := MarkSome(applied, fault);
      if TablesValid(old(rows)) {
        MarkedTablesValid(old(rows), rows, applied, left.Keys);
      }
      if left != map[] {
        assert (forall id :: id !in left.Keys) ==> left == map[];
        RunSnoc(s0, trace, JobError);
        job := NoJob;
        return false, trace + [JobError];
      }
      CommitEnds(Abs());
      RunSnoc(s0, trace, Commit(0));
      job := NoJob;
      return true, trace + [Commit(0)];
    }

    /** Their loop, in whatever order the snapshot is walked. */
    method MarkSome(applied: map<int, int>, fault: nat) returns (left: map<int, int>, ghost trace: seq<Label>)
      requires job.Job? && job.stage == Marking(applied) && pc == Idle
      modifies `job, `rows
      ensures Abs() == Run(old(Abs()), trace) && job == old(job).(stage := Marking(left))
      ensures MarkedUpTo(old(rows), rows, applied, left.Keys)
      ensures |left.Keys| == if fault >= |applied.Keys| then 0 else |applied.Keys| - fault
    {
      ghost var s0 := Abs();
      trace := [];
      left := applied;
      var marked := 0;
      while left != map[] && marked < fault
        invariant Abs() == Run(s0, trace) && pc == Idle && job == old(job).(stage := Marking(left))
        invariant left.Keys <= applied.Keys && forall id :: id in left ==> left[id] == applied[id]
        invariant MarkedUpTo(old(rows), rows, applied, left.Keys)
        invariant marked <= fault && marked + |left.Keys| == |applied.Keys|
        decreases |left.Keys|
      {
        assert (forall id :: id !in left) ==> left == map[];
        var id :| id in left;
        MarkOneMore(old(rows), rows, applied, left.Keys, id);
        MarkOne(id, left);
        assert (left - {id}).Keys == left.Keys - {id};
        left := left - {id};
        RunSnoc(s0, trace, Commit(id));
        trace := trace + [Commit(id)];
        marked := marked + 1;
      }
    }

    /** store.MarkApplied for one workload of the snapshot. */
    method MarkOne(id: int, left: map<int, int>)
      requires At(Abs(), Marking(left)) && id in left && pc == Idle
      modifies `job, `rows
      ensures Abs() == Next(old(Abs()), Commit(id))
      ensures id in old(rows).workloads ==> AppliedSet(old(rows), rows, id, left[id])
      ensures rows == MarkApplied(old(rows), id, left[id]) && job == old(job).(stage := Marking(left - {id}))
    {
      CommitMarks(Abs(), id, left);
      rows := MarkApplied(rows, id, left[id]);
      job := job.(stage := Marking(left - {id}));
    }

    /** The commit of a destroy job: the row with its revisions and mounts, then the
        file. */
    method CommitDestroy(id: int, name: string, faultRow: bool, faultFile: bool) returns (ok: bool, ghost trace: seq<Label>)
      requires At(Abs(), DeletingRow) && job.task == DestroyTask(id, name) && pc == Idle
      modifies `job, `rows, `files
      ensures Abs() == Run(old(Abs()), trace) && job == NoJob
      ensures TablesValid(old(rows)) ==> TablesValid(rows)
      ensures ok <==> !faultRow && !faultFile
      ensures if faultRow then rows == old(rows) else WorkloadGone(old(rows), rows, id)
      ensures files == if ok then old(files) - {name} else old(files)
    {
      hide Run, TablesValid, WorkloadGone, DeleteWorkload;
      ghost var s0 := Abs();
      if faultRow {
        NothingRuns(s0);
        trace := Took(s0, s0, [], JobError);
        job := NoJob;
        return false, trace;
      }
      RunTwo(s0, Commit(0), if faultFile then JobError else Commit(0));
      DeleteWorkloadDeletes(rows, id);
      rows := DeleteWorkload(rows, id);
      if TablesValid(old(rows)) {
        DeletedTablesValid(old(rows), id);
      }
      if !faultFile {
        files := files - {name};
      }
      job := NoJob;
      return !faultFile, [Commit(0), if faultFile then JobError else Commit(0)];
    }

    /** The closure that startApply hands to the job manager, and the release of the slot
        after it: on a successful rebuild that is not a mere build, every workload of the
        snapshot is marked, and then, outside this model's rows, every flake input and
        secret, one of which may fail. */
    method RunApplyJob(mode: Mode, applied: map<int, int>, lock: CommandResult, update: CommandResult,
                       build: CommandResult, fault: nat, faultStamps: bool)
      returns (code: int, err: bool, ghost trace: seq<Label>)
      requires Valid() && At(Abs(), Locking) && job.task == ApplyTask(mode, applied) && pc == Idle
      modifies `busy, `job, `live, `rows
      ensures Valid() && Abs() == Run(old(Abs()), trace) && job == NoJob && !busy
      ensures code == 0 && !err <==>
                Succeeds(lock) && Succeeds(update) && Succeeds(build)
                && (mode == Build || (fault >= |applied.Keys| && !faultStamps))
      ensures Succeeds(lock) && Succeeds(update) && Succeeds(build) && mode != Build ==>
                && (fault >= |applied.Keys| ==> MarkedUpTo(old(rows), rows, applied, {}))
                && if dryRun then live == old(live) else Activated(live, index, files)
      ensures mode == Build || !(Succeeds(lock) && Succeeds(update) && Succeeds(build)) ==> rows == old(rows) && live == old(live)
    {
      hide Written, Run, Activated, MarkedUpTo, TablesValid;
      code, err, trace := Rebuild(mode, lock, update, build);
      if !err && code == 0 && mode != Build {
        ghost var marks;
        var ok;
        ok, marks := MarkAll(applied, fault);
        RunConcat(old(Abs()), trace, marks);
        trace := trace + marks;
        err := !ok || faultStamps;
      }
      busy := false;
    }

    /** The closure that the destroy handler hands to the job manager, and the release of
        the slot after it. A failed rebuild keeps everything. Deleting the container's
        data, which comes last, fails only if its command cannot run. */
    method RunDestroyJob(id: int, name: string, lock: CommandResult, update: CommandResult, build: CommandResult,
                         faultRow: bool, faultFile: bool, deletesData: bool, rm: CommandResult)
      returns (code: int, err: bool, ghost trace: seq<Label>)
      requires Valid() && At(Abs(), Locking) && job.task == DestroyTask(id, name) && pc == Idle
      modifies `busy, `job, `live, `rows, `files
      ensures Valid() && Abs() == Run(old(Abs()), trace) && job == NoJob && !busy
      ensures code == 0 && !err <==>
                Succeeds(lock) && Succeeds(update) && Succeeds(build) && !faultRow && !faultFile
                && !(deletesData && rm.CannotRun?)
      ensures Succeeds(lock) && Succeeds(update) && Succeeds(build) ==>
                && (if faultRow then rows == old(rows) else WorkloadGone(old(rows), rows, id))
                && files == (if faultRow || faultFile then old(files) else old(files) - {name})
                && if dryRun then live == old(live) else Activated(live, index, old(files))
      ensures !(Succeeds(lock) && Succeeds(update) && Succeeds(build)) ==>
                rows == old(rows) && files == old(files) && live == old(live)
    {
      hide Written, Run, Activated, WorkloadGone, TablesValid;
      code, err, trace := Rebuild(Switch, lock, update, build);
      if !err && code == 0 {
        ghost var commit;
        var ok;
        ok, commit := CommitDestroy(id, name, faultRow, faultFile);
        RunConcat(old(Abs()), trace, commit);
        trace := trace + commit;
        if !ok || (deletesData && rm.CannotRun?) {
          code, err := -1, true;
        }
      }
      busy := false;
    }
  }
}
