/** nixbox as a state machine: rows, files, the job slot and the live system, moved by
    the micro-steps of HTTP handlers and of the background job.

    A handler runs without another handler in between, one database statement (or
    transaction) or one file operation at a time; it may stop after any of them with an
    error, and the process may die at any moment. The job's commands run between any
    two micro-steps. The job's commit statements run while no handler is under way;
    whole handlers may run between two of them. */
module Machine {
  import opened Base
  import opened Sorting
  import opened Names
  import opened HostPorts
  import opened IndexFile
  import opened FlakeFile
  import opened Rows

  datatype Mode = Switch | Test | Build

  /** files maps a workload name to its workload.nix, ciphertexts a secret name to its
      .age file. */
  datatype Disk = Disk(files: map<string, string>, ciphertexts: map<string, string>, index: Index, flake: Flake)

  datatype Task =
    | ApplyTask(mode: Mode, snapshot: map<int, int>)
    | DestroyTask(id: int, name: string)

  /** Where the running job is: before one of its three commands, or in its commit. */
  datatype Stage = Locking | Updating | Building | Marking(left: map<int, int>) | DeletingRow | RemovingFile

  /** captured is the part of the state directory that the update step locked. */
  datatype Job = NoJob | Job(task: Task, stage: Stage, captured: map<string, string>)

  /** The micro-step the handler under way takes next. */
  datatype Pc =
    | Idle
    | CreateRow(name: string, typ: string, content: string, ports: string)
    | SaveRow(id: int, content: string, ports: string)
    | AddSecretRow(secret: Secret, mounts: seq<int>)
    | SaveSecretRow(sid: int, secret: Secret, mounts: seq<int>)
    | ApplyFlake(mode: Mode)
    | ApplySnapshot(mode: Mode)
    | ApplyPrune(mode: Mode, snapshot: map<int, int>)
    | DestroyIndex(id: int, name: string)
    | DestroyStart(id: int, name: string)

  /** live maps the workloads of the running system to their expressions. */
  datatype State = State(rows: Rows, disk: Disk, job: Job, pc: Pc, live: map<string, string>, dryRun: bool)

  /** A freshly initialized installation. */
  function Init(dryRun: bool): State {
    State(NO_ROWS, Disk(map[], map[], EMPTY_INDEX, Flake({}, false)), NoJob, Idle, map[], dryRun)
  }

  datatype Request =
    | Create(name: string, typ: string, content: string, ports: seq<HostPort>)
    | Save(id: int, content: string, ports: seq<HostPort>)
    | Restore(id: int, rev: int)
    | Enable(id: int, on: bool)
    | Apply(mode: Mode)
    | Destroy(id: int)
    | AddSecret(secret: Secret, ciphertext: string, mounts: seq<int>)
    | SaveSecret(sid: int, owner: string, group: string, fileMode: string, value: Option<string>, mounts: seq<int>)
    | RemoveSecret(sid: int)
    | Attach(sid: int, id: int)
    | Detach(sid: int, id: int)
    | AddInput(newId: int, input: FlakeInput)
    | SaveInput(iid: int, url: string, followsNixpkgs: bool)
    | RemoveInput(iid: int)

  /** Begin starts a handler and takes its first micro-step; Continue takes the next
      one, with the ids an insert would be given; Prune removes one orphaned file. Fail
      ends a handler with an error, Restart is a crash and a new start. The job's
      commands succeed or fail; Commit takes one commit statement, JobError ends the
      job with an error. */
  datatype Label =
    | Begin(req: Request)
    | Continue(id: int, rev: int)
    | Prune(name: string)
    | Fail
    | Restart(dryRun: bool)
    | Lock(ok: bool)
    | Update(ok: bool)
    | Rebuild(ok: bool)
    | Commit(id: int)
    | JobError

  // ---- Handlers ----

  function BeginCreate(s: State, name: string, typ: string, content: string, ports: seq<HostPort>): State {
    if Lookup(typ).None? || !ValidNameForType(Lookup(typ).value, name) || WorkloadNameTaken(s.rows, name) then s
    else s.(disk := s.disk.(files := s.disk.files[name := content]),
            pc := CreateRow(name, typ, content, FormatFrom(ports)))
  }

  function BeginSave(s: State, id: int, content: string, ports: string): State {
    if id !in s.rows.workloads then s
    else s.(disk := s.disk.(files := s.disk.files[s.rows.workloads[id].name := content]),
            pc := SaveRow(id, content, ports))
  }

  function BeginRestore(s: State, id: int, rev: int): State {
    if rev !in RevisionsOf(s.rows, id) then s
    else BeginSave(s, id, s.rows.revisions[rev].content, s.rows.revisions[rev].ports)
  }

  ghost function RegenerateIndex(s: State): State {
    s.(disk := s.disk.(index := IndexOf(s.rows)))
  }

  ghost function BeginApply(s: State, mode: Mode): State {
    if EnabledHaveRevisions(s.rows) then RegenerateIndex(s).(pc := ApplyFlake(mode)) else s
  }

  function BeginDestroy(s: State, id: int): State {
    if id !in s.rows.workloads then s
    else s.(rows := SetEnabled(s.rows, id, false), pc := DestroyIndex(id, s.rows.workloads[id].name))
  }

  /** The mounts a form may name: workloads of a type that supports them. */
  predicate MountsOffered(r: Rows, mounts: seq<int>) {
    forall i :: 0 <= i < |mounts| ==>
      mounts[i] in r.workloads && MountSectionOf(r.workloads[mounts[i]].typ).Some?
  }

  function BeginAddSecret(s: State, secret: Secret, ciphertext: string, mounts: seq<int>): State {
    if !ValidName(secret.name) || !MountsOffered(s.rows, mounts) || SecretNameTaken(s.rows, secret.name) then s
    else s.(disk := s.disk.(ciphertexts := s.disk.ciphertexts[secret.name := ciphertext]),
            pc := AddSecretRow(secret, mounts))
  }

  /** An empty value keeps the ciphertext. */
  function BeginSaveSecret(
    s: State, sid: int, owner: string, group: string, fileMode: string, value: Option<string>, mounts: seq<int>): State
  {
    if sid !in s.rows.secrets || !MountsOffered(s.rows, mounts) then s
    else
      var name := s.rows.secrets[sid].name;
      s.(disk := match value
                 case None => s.disk
                 case Some(ct) => s.disk.(ciphertexts := s.disk.ciphertexts[name := ct]),
         pc := SaveSecretRow(sid, Secret(name, owner, group, fileMode), mounts))
  }

  function BeginSmall(s: State, req: Request): State {
    var r := s.rows;
    match req
    case Enable(id, on) => s.(rows := SetEnabled(r, id, on))
    case RemoveSecret(sid) => s.(rows := DeleteSecret(r, sid))
    case Attach(sid, id) =>
      if sid in r.secrets && id in r.workloads && MountSectionOf(r.workloads[id].typ).Some?
      then s.(rows := r.(mounts := r.mounts + {(sid, id)})) else s
    case Detach(sid, id) => s.(rows := r.(mounts := r.mounts - {(sid, id)}))
    case AddInput(iid, input) =>
      if ValidName(input.name) && !InputNameTaken(r, input.name) && Fresh(iid, r.inputs)
      then s.(rows := r.(inputs := r.inputs[iid := input])) else s
    case SaveInput(iid, url, follows) =>
      if iid in r.inputs
      then s.(rows := r.(inputs := r.inputs[iid := r.inputs[iid].(url := url, followsNixpkgs := follows)])) else s
    case RemoveInput(iid) => s.(rows := r.(inputs := r.inputs - {iid}))
    case _ => s
  }

  ghost function BeginStep(s: State, req: Request): State {
    if s.pc != Idle then s
    else
      match req
      case Create(name, typ, content, ports) => BeginCreate(s, name, typ, content, ports)
      case Save(id, content, ports) => BeginSave(s, id, content, FormatFrom(ports))
      case Restore(id, rev) => BeginRestore(s, id, rev)
      case Apply(mode) => BeginApply(s, mode)
      case Destroy(id) => BeginDestroy(s, id)
      case AddSecret(secret, ciphertext, mounts) => BeginAddSecret(s, secret, ciphertext, mounts)
      case SaveSecret(sid, owner, group, fileMode, value, mounts) =>
        BeginSaveSecret(s, sid, owner, group, fileMode, value, mounts)
      case _ => BeginSmall(s, req)
  }

  /** The compare-and-swap on the job slot; a handler that finds it taken gives up. */
  function TakeSlot(s: State, task: Task): State {
    if s.job.NoJob? then s.(pc := Idle, job := Job(task, Locking, map[])) else s.(pc := Idle)
  }

  /** The ciphertext files that belong to no secret. */
  function Orphans(ciphertexts: map<string, string>, r: Rows): set<string> {
    ciphertexts.Keys - SecretNames(r)
  }

  predicate NoOrphans(s: State) {
    Orphans(s.disk.ciphertexts, s.rows) == {}
  }

  ghost function ContinueStep(s: State, id: int, rev: int): State {
    match s.pc
    case Idle => s
    case CreateRow(name, typ, content, ports) =>
      if Fresh(id, s.rows.workloads) && Fresh(rev, s.rows.revisions)
      then s.(rows := InsertWorkload(s.rows, id, rev, name, typ, content, ports), pc := Idle) else s
    case SaveRow(wid, content, ports) =>
      if Fresh(rev, s.rows.revisions)
      then s.(rows := InsertRevision(s.rows, rev, wid, content, ports), pc := Idle) else s
    case AddSecretRow(secret, mounts) =>
      if !MountsAcceptable(s.rows, mounts) then s.(pc := Idle)
      else if Fresh(id, s.rows.secrets)
      then s.(rows := PutSecret(s.rows, id, secret, mounts), pc := Idle) else s
    case SaveSecretRow(sid, secret, mounts) =>
      if !MountsAcceptable(s.rows, mounts) then s.(pc := Idle)
      else s.(rows := PutSecret(s.rows, sid, secret, mounts), pc := Idle)
    case ApplyFlake(mode) => s.(disk := s.disk.(flake := FlakeOf(s.rows)), pc := ApplySnapshot(mode))
    case ApplySnapshot(mode) =>
      if EnabledHaveRevisions(s.rows) then s.(pc := ApplyPrune(mode, Snapshot(s.rows))) else s.(pc := Idle)
    case ApplyPrune(mode, snapshot) => if NoOrphans(s) then TakeSlot(s, ApplyTask(mode, snapshot)) else s
    case DestroyIndex(wid, name) =>
      if EnabledHaveRevisions(s.rows) then RegenerateIndex(s).(pc := DestroyStart(wid, name)) else s.(pc := Idle)
    case DestroyStart(wid, name) => TakeSlot(s, DestroyTask(wid, name))
  }

  function PruneStep(s: State, name: string): State {
    if s.pc.ApplyPrune? && name !in SecretNames(s.rows)
    then s.(disk := s.disk.(ciphertexts := s.disk.ciphertexts - {name})) else s
  }

  // ---- The background job ----

  /** What evaluating the state directory yields: the named workloads' files. */
  function Captured(d: Disk): map<string, string> {
    map n | n in NamedBy(d.index) && n in d.files :: d.files[n]
  }

  predicate At(s: State, stage: Stage) {
    s.job.Job? && s.job.stage == stage
  }

  function LockStep(s: State, ok: bool): State {
    if !At(s, Locking) then s
    else if ok then s.(job := s.job.(stage := Updating)) else s.(job := NoJob)
  }

  function UpdateStep(s: State, ok: bool): State {
    if !At(s, Updating) then s
    else if ok then s.(job := s.job.(stage := Building, captured := Captured(s.disk))) else s.(job := NoJob)
  }

  /** Whether the rebuild of this task activates what it builds. */
  predicate Activates(s: State, task: Task) {
    !s.dryRun && (task.ApplyTask? ==> task.mode != Build)
  }

  function AfterRebuild(task: Task): Stage {
    match task
    case ApplyTask(_, snapshot) => Marking(snapshot)
    case DestroyTask(_, _) => DeletingRow
  }

  function RebuildStep(s: State, ok: bool): State {
    if !At(s, Building) then s
    else if !ok then s.(job := NoJob)
    else
      var task := s.job.task;
      s.(live := if Activates(s, task) then s.job.captured else s.live,
         job := if task.ApplyTask? && task.mode == Build then NoJob
                else s.job.(stage := AfterRebuild(task)))
  }

  /** One statement of the commit; with nothing left to mark the job ends. */
  function CommitStep(s: State, id: int): State {
    if s.job.NoJob? || s.pc != Idle then s
    else
      match s.job.stage
      case Marking(left) =>
        if left == map[] then s.(job := NoJob)
        else if id in left then
          s.(rows := MarkApplied(s.rows, id, left[id]), job := s.job.(stage := Marking(left - {id})))
        else s
      case DeletingRow =>
        if s.job.task.DestroyTask?
        then s.(rows := DeleteWorkload(s.rows, s.job.task.id), job := s.job.(stage := RemovingFile)) else s
      case RemovingFile =>
        if s.job.task.DestroyTask?
        then s.(disk := s.disk.(files := s.disk.files - {s.job.task.name}), job := NoJob) else s
      case _ => s
  }

  ghost function Next(s: State, l: Label): State {
    match l
    case Begin(req) => BeginStep(s, req)
    case Continue(id, rev) => ContinueStep(s, id, rev)
    case Prune(name) => PruneStep(s, name)
    case Fail => s.(pc := Idle)
    case Restart(dryRun) => s.(pc := Idle, job := NoJob, dryRun := dryRun)
    case Lock(ok) => LockStep(s, ok)
    case Update(ok) => UpdateStep(s, ok)
    case Rebuild(ok) => RebuildStep(s, ok)
    case Commit(id) => CommitStep(s, id)
    case JobError => s.(job := NoJob)
  }

  ghost function Run(s: State, ls: seq<Label>): State {
    if ls == [] then s else Next(Run(s, ls[..|ls| - 1]), ls[|ls| - 1])
  }

  lemma {:induction false} RunConcat(s: State, a: seq<Label>, b: seq<Label>)
    ensures Run(s, a + b) == Run(Run(s, a), b)
  {
    if b == [] {
      assert a + b == a;
    } else {
      RunConcat(s, a, b[..|b| - 1]);
      assert (a + b)[..|a + b| - 1] == a + b[..|b| - 1];
    }
  }

  lemma RunSnoc(s: State, ls: seq<Label>, l: Label)
    ensures Run(s, ls + [l]) == Next(Run(s, ls), l)
  {
    assert (ls + [l])[..|ls|] == ls;
  }

  lemma RunCons(s: State, l: Label, ls: seq<Label>)
    ensures Run(s, [l] + ls) == Run(Next(s, l), ls)
  {
    RunConcat(s, [l], ls);
    assert [l][..0] == [];
  }

  lemma RunTwo(s: State, a: Label, b: Label)
    ensures Run(s, [a, b]) == Next(Next(s, a), b)
  {
    assert [a, b] == [a] + ([b] + []);
    RunCons(s, a, [b] + []);
    RunCons(Next(s, a), b, []);
  }

  lemma RunFour(s: State, a: Label, b: Label, c: Label, d: Label)
    ensures Run(s, [a, b, c, d]) == Next(Next(Next(Next(s, a), b), c), d)
  {
    assert [a, b, c, d] == [a, b] + [c, d];
    RunConcat(s, [a, b], [c, d]);
    RunTwo(s, a, b);
    RunTwo(Next(Next(s, a), b), c, d);
  }

  function Prunes(names: seq<string>): seq<Label> {
    if names == [] then [] else Prunes(names[..|names| - 1]) + [Prune(names[|names| - 1])]
  }

  /** Removing files one by one is a run of the machine while an apply prunes. */
  lemma {:induction false} PrunesRun(s: State, names: seq<string>)
    requires s.pc.ApplyPrune? && Elements(names) !! SecretNames(s.rows)
    ensures Run(s, Prunes(names)) == s.(disk := s.disk.(ciphertexts := s.disk.ciphertexts - Elements(names)))
  {
    if names != [] {
      var before, n := names[..|names| - 1], names[|names| - 1];
      assert names == before + [n];
      assert Elements(names) == Elements(before) + {n};
      PrunesRun(s, before);
      RunSnoc(s, Prunes(before), Prune(n));
      assert s.disk.ciphertexts - Elements(before) - {n} == s.disk.ciphertexts - Elements(names);
    } else {
      assert s.disk.ciphertexts - Elements(names) == s.disk.ciphertexts;
    }
  }

  /** The list names every orphaned ciphertext, in some order. */
  predicate ListsOrphans(orphans: seq<string>, s: State) {
    Elements(orphans) == Orphans(s.disk.ciphertexts, s.rows)
  }

  /** The micro-steps of startApply after its first one. */
  function ApplySteps(orphans: seq<string>): seq<Label> {
    [Continue(0, 0), Continue(0, 0)] + (Prunes(orphans) + [Continue(0, 0)])
  }

  /** What startApply has written by the time it tries for the slot. */
  ghost function Regenerated(s: State): State {
    s.(disk := Disk(s.disk.files, s.disk.ciphertexts - Orphans(s.disk.ciphertexts, s.rows), IndexOf(s.rows), FlakeOf(s.rows)))
  }

  lemma ApplyWrites(s: State, mode: Mode)
    requires s.pc == Idle && EnabledHaveRevisions(s.rows)
    ensures Run(s, [Begin(Apply(mode)), Continue(0, 0), Continue(0, 0)])
         == s.(disk := s.disk.(index := IndexOf(s.rows), flake := FlakeOf(s.rows)), pc := ApplyPrune(mode, Snapshot(s.rows)))
  {
    var indexed := s.(disk := s.disk.(index := IndexOf(s.rows)), pc := ApplyFlake(mode));
    var flaked := s.(disk := s.disk.(index := IndexOf(s.rows), flake := FlakeOf(s.rows)), pc := ApplySnapshot(mode));
    assert Next(s, Begin(Apply(mode))) == indexed;
    assert Next(indexed, Continue(0, 0)) == flaked;
    assert Next(flaked, Continue(0, 0)) == flaked.(pc := ApplyPrune(mode, Snapshot(s.rows)));
    hide Run, Next;
    assert [Begin(Apply(mode)), Continue(0, 0), Continue(0, 0)] == [Begin(Apply(mode)), Continue(0, 0)] + [Continue(0, 0)];
    RunSnoc(s, [Begin(Apply(mode)), Continue(0, 0)], Continue(0, 0));
    RunTwo(s, Begin(Apply(mode)), Continue(0, 0));
  }

  lemma PruneThenStart(s: State, mode: Mode, snapshot: map<int, int>, orphans: seq<string>)
    requires s.pc == ApplyPrune(mode, snapshot) && ListsOrphans(orphans, s)
    ensures Run(s, Prunes(orphans) + [Continue(0, 0)])
         == TakeSlot(s.(disk := s.disk.(ciphertexts := s.disk.ciphertexts - Elements(orphans))), ApplyTask(mode, snapshot))
  {
    PrunesRun(s, orphans);
    RunSnoc(s, Prunes(orphans), Continue(0, 0));
    assert NoOrphans(Run(s, Prunes(orphans)));
  }

  /** Without an error, startApply has rewritten index.nix and flake.nix, and pruned every
      orphaned ciphertext, by the time it tries to take the slot. */
  lemma ApplyReachesTheSlot(s: State, mode: Mode, orphans: seq<string>)
    requires s.pc == Idle && ListsOrphans(orphans, s) && EnabledHaveRevisions(s.rows)
    ensures Run(s, [Begin(Apply(mode))] + ApplySteps(orphans))
         == TakeSlot(Regenerated(s), ApplyTask(mode, Snapshot(s.rows)))
  {
    var writes := [Begin(Apply(mode)), Continue(0, 0), Continue(0, 0)];
    assert [Begin(Apply(mode))] + ApplySteps(orphans) == writes + (Prunes(orphans) + [Continue(0, 0)]);
    RunConcat(s, writes, Prunes(orphans) + [Continue(0, 0)]);
    ApplyWrites(s, mode);
    PruneThenStart(Run(s, writes), mode, Snapshot(s.rows), orphans);
  }
}
