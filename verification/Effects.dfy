/** What every micro-step does to every single row, mount and file, and what follows over
    whole runs: each cell of the tables is as the last step that was about it left it. */
module Effects {
  import opened Base
  import opened Names
  import opened HostPorts
  import opened Rows
  import opened Machine

  // ---- Which step is about what ----

  predicate Creates(s: State, l: Label, id: int) {
    l.Continue? && l.id == id && s.pc.CreateRow? && Fresh(id, s.rows.workloads) && Fresh(l.rev, s.rows.revisions)
  }

  predicate Destroys(s: State, l: Label, id: int) {
    l.Commit? && s.pc == Idle && At(s, DeletingRow) && s.job.task.DestroyTask? && s.job.task.id == id
  }

  predicate Begins(s: State, l: Label, req: Request) {
    s.pc == Idle && l == Begin(req)
  }

  /** Both the switch and the confirmed destruction of a workload set the flag. */
  predicate Switches(s: State, l: Label, id: int, on: bool) {
    Begins(s, l, Enable(id, on)) || (!on && Begins(s, l, Destroy(id)))
  }

  predicate Marks(s: State, l: Label, id: int) {
    l == Commit(id) && s.pc == Idle && s.job.Job? && s.job.stage.Marking? && id in s.job.stage.left
  }

  predicate Records(s: State, l: Label, rev: int) {
    && l.Continue? && l.rev == rev && Fresh(rev, s.rows.revisions)
    && (s.pc.SaveRow? || (s.pc.CreateRow? && Fresh(l.id, s.rows.workloads)))
  }

  predicate PutsSecret(s: State, l: Label, sid: int) {
    && l.Continue? && (s.pc.AddSecretRow? || s.pc.SaveSecretRow?) && MountsAcceptable(s.rows, s.pc.mounts)
    && if s.pc.AddSecretRow? then l.id == sid && Fresh(sid, s.rows.secrets) else s.pc.sid == sid
  }

  predicate DropsSecret(s: State, l: Label, sid: int) {
    Begins(s, l, RemoveSecret(sid))
  }

  predicate Attaches(s: State, l: Label, sid: int, id: int) {
    && Begins(s, l, Attach(sid, id)) && sid in s.rows.secrets && id in s.rows.workloads
    && MountSectionOf(s.rows.workloads[id].typ).Some?
  }

  /** The steps that say of this pair that it is mounted. */
  predicate Mounts(s: State, l: Label, sid: int, id: int) {
    Attaches(s, l, sid, id) || (PutsSecret(s, l, sid) && id in s.pc.mounts)
  }

  /** The steps that say that it is not: a detach, a save of that secret without that
      workload, or the end of either. */
  predicate Unmounts(s: State, l: Label, sid: int, id: int) {
    || Begins(s, l, Detach(sid, id)) || (PutsSecret(s, l, sid) && id !in s.pc.mounts)
    || DropsSecret(s, l, sid) || Destroys(s, l, id)
  }

  predicate AddsInput(s: State, l: Label, iid: int) {
    && s.pc == Idle && l.Begin? && l.req.AddInput? && l.req.newId == iid && Fresh(iid, s.rows.inputs)
    && ValidName(l.req.input.name) && !InputNameTaken(s.rows, l.req.input.name)
  }

  predicate SavesInput(s: State, l: Label, iid: int) {
    s.pc == Idle && l.Begin? && l.req.SaveInput? && l.req.iid == iid && iid in s.rows.inputs
  }

  /** What a step writes into a workload's file, if it is about to. */
  function Written(s: State, l: Label, name: string): Option<string> {
    if s.pc != Idle || !l.Begin? then None
    else
      match l.req
      case Create(n, typ, content, _) =>
        if n == name && Lookup(typ).Some? && ValidNameForType(Lookup(typ).value, n) && !WorkloadNameTaken(s.rows, n)
        then Some(content) else None
      case Save(id, content, _) =>
        if id in s.rows.workloads && s.rows.workloads[id].name == name then Some(content) else None
      case Restore(id, rev) =>
        if rev in s.rows.revisions && s.rows.revisions[rev].workload == id
           && id in s.rows.workloads && s.rows.workloads[id].name == name
        then Some(s.rows.revisions[rev].content) else None
      case _ => None
  }

  predicate RemovesFile(s: State, l: Label, name: string) {
    l.Commit? && s.pc == Idle && At(s, RemovingFile) && s.job.task.DestroyTask? && s.job.task.name == name
  }

  /** What a step encrypts into a secret's file. */
  function Encrypted(s: State, l: Label, name: string): Option<string> {
    if s.pc != Idle || !l.Begin? then None
    else
      match l.req
      case AddSecret(secret, ciphertext, mounts) =>
        if secret.name == name && ValidName(name) && MountsOffered(s.rows, mounts) && !SecretNameTaken(s.rows, name)
        then Some(ciphertext) else None
      case SaveSecret(sid, _, _, _, value, mounts) =>
        if sid in s.rows.secrets && MountsOffered(s.rows, mounts) && s.rows.secrets[sid].name == name then value else None
      case _ => None
  }

  predicate Prunes(s: State, l: Label, name: string) {
    l == Prune(name) && s.pc.ApplyPrune? && forall sid :: sid in s.rows.secrets ==> s.rows.secrets[sid].name != name
  }

  // ---- One step, one cell ----

  /** A workload's row: how it comes and goes, and that its name and type never change,
      its flag only by a switch, and its mark only by a mark of that very workload. */
  lemma WorkloadCell(s: State, l: Label, id: int)
    ensures var r, t := s.rows.workloads, Next(s, l).rows.workloads;
            && (id in t <==> Creates(s, l, id) || (id in r && !Destroys(s, l, id)))
            && (Creates(s, l, id) ==> t[id] == Workload(s.pc.name, s.pc.typ, false, None))
            && (id in t && id in r ==>
                  && t[id].name == r[id].name && t[id].typ == r[id].typ
                  && (t[id].enabled <==> Switches(s, l, id, true) || (r[id].enabled && !Switches(s, l, id, false)))
                  && t[id].applied == if Marks(s, l, id) then Some(s.job.stage.left[id]) else r[id].applied)
  {
    hide BeginStep, ContinueStep, CommitStep;
    match l {
      case Begin(req) => WorkloadAtBegin(s, req, id);
      case Continue(newId, rev) => WorkloadsAtContinue(s, newId, rev);
      case Commit(next) => WorkloadsAtCommit(s, next);
      case _ => OtherStepsLeaveRows(s, l);
    }
  }

  lemma OtherStepsLeaveRows(s: State, l: Label)
    requires !l.Begin? && !l.Continue? && !l.Commit?
    ensures Next(s, l).rows == s.rows
  {
    hide Captured;
  }

  lemma CommitLeaves(s: State, next: int)
    ensures CommitStep(s, next).rows.secrets == s.rows.secrets && CommitStep(s, next).rows.inputs == s.rows.inputs
  {
  }

  lemma WorkloadsAtCommit(s: State, next: int)
    ensures CommitStep(s, next).rows.workloads ==
            if s.job.Job? && s.job.task.DestroyTask? && Destroys(s, Commit(next), s.job.task.id)
            then s.rows.workloads - {s.job.task.id}
            else if Marks(s, Commit(next), next) && next in s.rows.workloads
            then s.rows.workloads[next := s.rows.workloads[next].(applied := Some(s.job.stage.left[next]))]
            else s.rows.workloads
  {
  }

  lemma WorkloadsAtContinue(s: State, newId: int, rev: int)
    ensures ContinueStep(s, newId, rev).rows.workloads ==
            if Creates(s, Continue(newId, rev), newId) then s.rows.workloads[newId := Workload(s.pc.name, s.pc.typ, false, None)]
            else s.rows.workloads
  {
    hide IndexOf, FlakeOf, Snapshot, MountsAcceptable, ReplaceMounts;
  }

  lemma WorkloadAtBegin(s: State, req: Request, id: int)
    ensures var r, t := s.rows.workloads, BeginStep(s, req).rows.workloads;
            && (id in t <==> id in r)
            && (id in r ==>
                  && t[id].name == r[id].name && t[id].typ == r[id].typ && t[id].applied == r[id].applied
                  && (t[id].enabled <==> Switches(s, Begin(req), id, true)
                                         || (r[id].enabled && !Switches(s, Begin(req), id, false))))
  {
    hide IndexOf, EnabledHaveRevisions, RevisionsOf, MountsOffered, ValidName, ValidNameForType, Lookup;
    match req {
      case Enable(_, _) =>
      case Destroy(_) =>
      case _ => WorkloadsAtOtherBegins(s, req);
    }
  }

  lemma WorkloadsAtOtherBegins(s: State, req: Request)
    requires !req.Enable? && !req.Destroy?
    ensures BeginStep(s, req).rows.workloads == s.rows.workloads
  {
  }

  /** A revision: it comes with what was being saved, never changes, and goes with its
      workload alone. */
  lemma RevisionCell(s: State, l: Label, x: int)
    ensures var r, t := s.rows.revisions, Next(s, l).rows.revisions;
            && (x in t <==> Records(s, l, x) || (x in r && !Destroys(s, l, r[x].workload)))
            && (Records(s, l, x) ==>
                  t[x] == Revision(if s.pc.SaveRow? then s.pc.id else l.id, s.pc.content, s.pc.ports))
            && (x in t && x in r ==> t[x] == r[x])
  {
    hide BeginStep, ContinueStep, CommitStep;
    match l {
      case Begin(req) => RevisionsAtBegin(s, req);
      case Continue(newId, rev) => RevisionsAtContinue(s, newId, rev);
      case Commit(next) => RevisionAtCommit(s, next, x);
      case _ => OtherStepsLeaveRows(s, l);
    }
  }

  lemma RevisionsAtContinue(s: State, newId: int, rev: int)
    ensures ContinueStep(s, newId, rev).rows.revisions ==
            if Records(s, Continue(newId, rev), rev)
            then s.rows.revisions[rev := Revision(if s.pc.SaveRow? then s.pc.id else newId, s.pc.content, s.pc.ports)]
            else s.rows.revisions
  {
    hide IndexOf, FlakeOf, Snapshot, MountsAcceptable, ReplaceMounts;
  }

  lemma RevisionAtCommit(s: State, next: int, x: int)
    ensures var r, t := s.rows.revisions, CommitStep(s, next).rows.revisions;
            && (x in t <==> x in r && !Destroys(s, Commit(next), r[x].workload)) && (x in t ==> t[x] == r[x])
  {
  }

  lemma RevisionsAtBegin(s: State, req: Request)
    ensures BeginStep(s, req).rows.revisions == s.rows.revisions
  {
  }

  /** A secret's row: as its last creation or save put it. */
  lemma SecretCell(s: State, l: Label, sid: int)
    ensures var r, t := s.rows.secrets, Next(s, l).rows.secrets;
            && (sid in t <==> PutsSecret(s, l, sid) || (sid in r && !DropsSecret(s, l, sid)))
            && (PutsSecret(s, l, sid) ==> t[sid] == s.pc.secret)
            && (!PutsSecret(s, l, sid) && sid in t && sid in r ==> t[sid] == r[sid])
  {
    hide BeginStep, ContinueStep, CommitStep;
    match l {
      case Begin(req) => SecretsAtBegin(s, req, sid);
      case Continue(newId, rev) => SecretsAtContinue(s, newId, rev);
      case Commit(next) => CommitLeaves(s, next);
      case _ => OtherStepsLeaveRows(s, l);
    }
  }

  lemma SecretsAtContinue(s: State, newId: int, rev: int)
    ensures ContinueStep(s, newId, rev).rows.secrets ==
            if s.pc.AddSecretRow? && PutsSecret(s, Continue(newId, rev), newId) then s.rows.secrets[newId := s.pc.secret]
            else if s.pc.SaveSecretRow? && PutsSecret(s, Continue(newId, rev), s.pc.sid)
            then s.rows.secrets[s.pc.sid := s.pc.secret]
            else s.rows.secrets
  {
    hide IndexOf, FlakeOf, Snapshot, MountsAcceptable, ReplaceMounts;
  }

  lemma SecretsAtBegin(s: State, req: Request, sid: int)
    ensures var r, t := s.rows.secrets, BeginStep(s, req).rows.secrets;
            && (sid in t <==> sid in r && !DropsSecret(s, Begin(req), sid)) && (sid in t ==> t[sid] == r[sid])
  {
  }

  /** A mount. */
  lemma MountCell(s: State, l: Label, sid: int, id: int)
    ensures (sid, id) in Next(s, l).rows.mounts
       <==> Mounts(s, l, sid, id) || ((sid, id) in s.rows.mounts && !Unmounts(s, l, sid, id))
  {
    hide IndexOf, FlakeOf, Snapshot, MountsAcceptable, ReplaceMounts, Captured, ValidName, ValidNameForType, Lookup;
    match l {
      case Begin(req) => MountsAtBegin(s, req, sid, id);
      case Continue(newId, rev) =>
        if s.pc.AddSecretRow? || s.pc.SaveSecretRow? {
          var put := if s.pc.AddSecretRow? then newId else s.pc.sid;
          ReplaceMountsReplaces(s.rows, put, s.pc.mounts);
        }
      case _ =>
    }
  }

  lemma MountsAtBegin(s: State, req: Request, sid: int, id: int)
    ensures (sid, id) in BeginStep(s, req).rows.mounts
       <==> Attaches(s, Begin(req), sid, id)
            || ((sid, id) in s.rows.mounts && !Unmounts(s, Begin(req), sid, id))
  {
  }

  /** A flake input. */
  lemma InputCell(s: State, l: Label, iid: int)
    ensures var r, t := s.rows.inputs, Next(s, l).rows.inputs;
            && (iid in t <==> AddsInput(s, l, iid) || (iid in r && !Begins(s, l, RemoveInput(iid))))
            && (AddsInput(s, l, iid) ==> t[iid] == l.req.input)
            && (iid in t && iid in r ==>
                  && t[iid].name == r[iid].name
                  && t[iid].url == (if SavesInput(s, l, iid) then l.req.url else r[iid].url)
                  && t[iid].followsNixpkgs == if SavesInput(s, l, iid) then l.req.followsNixpkgs else r[iid].followsNixpkgs)
  {
    hide IndexOf, FlakeOf, Snapshot, MountsAcceptable, ReplaceMounts, Captured, ValidNameForType, Lookup;
    match l {
      case Begin(req) => InputsAtBegin(s, req, iid);
      case _ =>
    }
  }

  lemma InputsAtBegin(s: State, req: Request, iid: int)
    ensures var r, t, l := s.rows.inputs, BeginStep(s, req).rows.inputs, Begin(req);
            && (iid in t <==> AddsInput(s, l, iid) || (iid in r && !Begins(s, l, RemoveInput(iid))))
            && (AddsInput(s, l, iid) ==> t[iid] == req.input)
            && (iid in t && iid in r ==>
                  && t[iid].name == r[iid].name
                  && t[iid].url == (if SavesInput(s, l, iid) then req.url else r[iid].url)
                  && t[iid].followsNixpkgs == if SavesInput(s, l, iid) then req.followsNixpkgs else r[iid].followsNixpkgs)
  {
    hide ValidName, InputNameTaken, MountsOffered;
    match req {
      case AddInput(_, _) =>
      case SaveInput(_, _, _) =>
      case RemoveInput(_) =>
      case _ => InputsAtOtherBegins(s, req);
    }
  }

  lemma InputsAtOtherBegins(s: State, req: Request)
    requires !req.AddInput? && !req.SaveInput? && !req.RemoveInput?
    ensures BeginStep(s, req).rows.inputs == s.rows.inputs
  {
  }

  /** A workload's file. */
  lemma FileCell(s: State, l: Label, name: string)
    ensures var f, g, w := s.disk.files, Next(s, l).disk.files, Written(s, l, name);
            && (name in g <==> w.Some? || (name in f && !RemovesFile(s, l, name)))
            && (name in g ==> g[name] == if w.Some? then w.value else f[name])
  {
    hide IndexOf, FlakeOf, Snapshot, MountsAcceptable, ReplaceMounts, Captured, ValidName, ValidNameForType, Lookup;
    match l {
      case Begin(req) => FilesAtBegin(s, req, name);
      case _ =>
    }
  }

  lemma FilesAtBegin(s: State, req: Request, name: string)
    ensures var f, g, w := s.disk.files, BeginStep(s, req).disk.files, Written(s, Begin(req), name);
            (name in g <==> w.Some? || name in f) && (name in g ==> g[name] == if w.Some? then w.value else f[name])
  {
    hide ValidNameForType, Lookup, WorkloadNameTaken, FormatFrom;
    match req {
      case Create(_, _, _, _) =>
      case Save(_, _, _) =>
      case Restore(_, _) =>
      case _ => FilesAtOtherBegins(s, req);
    }
  }

  lemma FilesAtOtherBegins(s: State, req: Request)
    requires !req.Create? && !req.Save? && !req.Restore?
    ensures BeginStep(s, req).disk.files == s.disk.files
  {
  }

  /** A secret's file. */
  lemma CiphertextCell(s: State, l: Label, name: string)
    ensures var f, g, w := s.disk.ciphertexts, Next(s, l).disk.ciphertexts, Encrypted(s, l, name);
            && (name in g <==> w.Some? || (name in f && !Prunes(s, l, name)))
            && (name in g ==> g[name] == if w.Some? then w.value else f[name])
  {
    hide IndexOf, FlakeOf, Snapshot, MountsAcceptable, ReplaceMounts, Captured, ValidName, ValidNameForType, Lookup;
    match l {
      case Begin(req) => CiphertextsAtBegin(s, req, name);
      case _ =>
    }
  }

  lemma CiphertextsAtBegin(s: State, req: Request, name: string)
    ensures var f, g, w := s.disk.ciphertexts, BeginStep(s, req).disk.ciphertexts, Encrypted(s, Begin(req), name);
            (name in g <==> w.Some? || name in f) && (name in g ==> g[name] == if w.Some? then w.value else f[name])
  {
    hide ValidName, MountsOffered, SecretNameTaken;
    match req {
      case AddSecret(_, _, _) =>
      case SaveSecret(_, _, _, _, _, _) =>
      case _ => CiphertextsAtOtherBegins(s, req);
    }
  }

  lemma CiphertextsAtOtherBegins(s: State, req: Request)
    requires !req.AddSecret? && !req.SaveSecret?
    ensures BeginStep(s, req).disk.ciphertexts == s.disk.ciphertexts
  {
  }

  // ---- Mounts deliver ----

  /** The pair has both its rows, and the workload's type delivers secrets. */
  predicate Delivered(r: Rows, sid: int, id: int) {
    sid in r.secrets && id in r.workloads && MountSectionOf(r.workloads[id].typ).Some?
  }

  predicate Deliverable(r: Rows, mounts: seq<int>) {
    forall i :: 0 <= i < |mounts| ==> mounts[i] in r.workloads && MountSectionOf(r.workloads[mounts[i]].typ).Some?
  }

  ghost predicate MountsDeliver(s: State) {
    && (forall sid, id :: (sid, id) in s.rows.mounts ==> Delivered(s.rows, sid, id))
    && (s.pc.AddSecretRow? || s.pc.SaveSecretRow? ==> Deliverable(s.rows, s.pc.mounts))
    && (s.pc.SaveSecretRow? ==> s.pc.sid in s.rows.secrets)
  }

  /** What a handler is about to do with a secret's mounts. */
  lemma SecretPcSteps(s: State, l: Label)
    ensures var t := Next(s, l);
            t.pc.AddSecretRow? || t.pc.SaveSecretRow? ==>
              && (forall id :: id in s.rows.workloads ==>
                    id in t.rows.workloads && t.rows.workloads[id].typ == s.rows.workloads[id].typ)
              && (t.rows.secrets == s.rows.secrets)
              && (t.pc == s.pc || (l.Begin? && MountsOffered(s.rows, t.pc.mounts)
                                   && (t.pc.SaveSecretRow? ==> t.pc.sid in s.rows.secrets)))
  {
    hide IndexOf, FlakeOf, Snapshot, MountsAcceptable, ReplaceMounts, Captured, ValidName, ValidNameForType, Lookup,
      MountSectionOf, MountsOffered;
    match l {
      case Begin(req) => SecretPcAtBegin(s, req);
      case _ =>
    }
  }

  lemma SecretPcAtBegin(s: State, req: Request)
    ensures var t := BeginStep(s, req);
            t.pc.AddSecretRow? || t.pc.SaveSecretRow? ==>
              && t.rows == s.rows
              && (t.pc == s.pc || (MountsOffered(s.rows, t.pc.mounts) && (t.pc.SaveSecretRow? ==> t.pc.sid in s.rows.secrets)))
  {
    hide IndexOf, ValidName, ValidNameForType, Lookup, MountSectionOf, MountsOffered;
  }

  lemma MountStays(s: State, l: Label, sid: int, id: int)
    requires MountsDeliver(s) && (sid, id) in Next(s, l).rows.mounts
    ensures Delivered(Next(s, l).rows, sid, id)
  {
    hide Next, MountSectionOf, MountsAcceptable;
    MountCell(s, l, sid, id);
    SecretCell(s, l, sid);
    WorkloadCell(s, l, id);
    if PutsSecret(s, l, sid) && id in s.pc.mounts {
      var i :| 0 <= i < |s.pc.mounts| && s.pc.mounts[i] == id;
    }
  }

  lemma StepKeepsMountsDelivering(s: State, l: Label)
    requires MountsDeliver(s)
    ensures MountsDeliver(Next(s, l))
  {
    hide Next, MountSectionOf, Delivered;
    forall sid, id | (sid, id) in Next(s, l).rows.mounts ensures Delivered(Next(s, l).rows, sid, id) {
      MountStays(s, l, sid, id);
    }
    SecretPcSteps(s, l);
    var t := Next(s, l);
    if t.pc.AddSecretRow? || t.pc.SaveSecretRow? {
      forall i | 0 <= i < |t.pc.mounts|
        ensures t.pc.mounts[i] in t.rows.workloads && MountSectionOf(t.rows.workloads[t.pc.mounts[i]].typ).Some?
      {
        var id := t.pc.mounts[i];
        assert t.pc == s.pc || MountsOffered(s.rows, t.pc.mounts);
        assert id in s.rows.workloads && MountSectionOf(s.rows.workloads[id].typ).Some?;
        assert id in t.rows.workloads && t.rows.workloads[id].typ == s.rows.workloads[id].typ;
      }
    }
  }

  /** In every run, whoever gets a secret is a workload of a type that delivers secrets, and
      both rows are there. */
  lemma {:induction false} MountsAlwaysDeliver(dryRun: bool, ls: seq<Label>)
    ensures MountsDeliver(Run(Init(dryRun), ls))
  {
    if ls != [] {
      hide MountsDeliver, Next;
      MountsAlwaysDeliver(dryRun, ls[..|ls| - 1]);
      StepKeepsMountsDelivering(Run(Init(dryRun), ls[..|ls| - 1]), ls[|ls| - 1]);
    }
  }

  // ---- Whole runs ----

  /** Some step of the run was of the first kind, and none after it of the second. */
  ghost predicate LastWas(s0: State, ls: seq<Label>, on: (State, Label) -> bool, off: (State, Label) -> bool) {
    exists i :: 0 <= i < |ls| && on(Run(s0, ls[..i]), ls[i]) && NoneSince(s0, ls, i, off)
  }

  ghost predicate NoneSince(s0: State, ls: seq<Label>, i: int, off: (State, Label) -> bool) {
    forall j :: 0 <= i < j < |ls| ==> !off(Run(s0, ls[..j]), ls[j])
  }

  lemma NoneSinceStep(s0: State, ls: seq<Label>, i: nat, off: (State, Label) -> bool)
    requires i < |ls| - 1
    ensures var before := ls[..|ls| - 1];
            NoneSince(s0, ls, i, off) <==> NoneSince(s0, before, i, off) && !off(Run(s0, before), ls[|ls| - 1])
  {
    hide Run;
    var before := ls[..|ls| - 1];
    assert forall j :: 0 <= j < |before| ==> before[..j] == ls[..j] && before[j] == ls[j];
    if NoneSince(s0, before, i, off) && !off(Run(s0, before), ls[|ls| - 1]) {
      forall j | i < j < |ls| ensures !off(Run(s0, ls[..j]), ls[j]) {
        if j < |before| {
          assert !off(Run(s0, before[..j]), before[j]);
        }
      }
    }
    if NoneSince(s0, ls, i, off) {
      forall j | i < j < |before| ensures !off(Run(s0, before[..j]), before[j]) {
        assert !off(Run(s0, ls[..j]), ls[j]);
      }
    }
  }

  lemma LastWasStep(s0: State, ls: seq<Label>, on: (State, Label) -> bool, off: (State, Label) -> bool)
    requires ls != []
    ensures var before, l := ls[..|ls| - 1], ls[|ls| - 1];
            LastWas(s0, ls, on, off)
            <==> on(Run(s0, before), l) || (LastWas(s0, before, on, off) && !off(Run(s0, before), l))
  {
    hide Run;
    var before, l := ls[..|ls| - 1], ls[|ls| - 1];
    assert forall j :: 0 <= j < |before| ==> before[..j] == ls[..j] && before[j] == ls[j];
    if on(Run(s0, before), l) {
      assert on(Run(s0, ls[..|before|]), ls[|before|]) && NoneSince(s0, ls, |before|, off);
    }
    if LastWas(s0, before, on, off) && !off(Run(s0, before), l) {
      var i :| 0 <= i < |before| && on(Run(s0, before[..i]), before[i]) && NoneSince(s0, before, i, off);
      NoneSinceStep(s0, ls, i, off);
      assert on(Run(s0, ls[..i]), ls[i]);
    }
    if LastWas(s0, ls, on, off) {
      var i :| 0 <= i < |ls| && on(Run(s0, ls[..i]), ls[i]) && NoneSince(s0, ls, i, off);
      if i < |before| {
        NoneSinceStep(s0, ls, i, off);
        assert on(Run(s0, before[..i]), before[i]);
      }
    }
  }

  /** In every run, a workload gets a secret exactly if the last step about the two was
      an attach, or a creation or save of the secret that names the workload: nothing else
      takes the mount away than a detach, a save of this secret without this workload, and
      the end of either. */
  lemma {:induction false} MountedExactly(dryRun: bool, ls: seq<Label>, sid: int, id: int)
    ensures (sid, id) in Run(Init(dryRun), ls).rows.mounts
       <==> LastWas(Init(dryRun), ls, (s, l) => Mounts(s, l, sid, id), (s, l) => Unmounts(s, l, sid, id))
  {
    if ls != [] {
      hide LastWas, Next, Mounts, Unmounts;
      MountedExactly(dryRun, ls[..|ls| - 1], sid, id);
      MountCell(Run(Init(dryRun), ls[..|ls| - 1]), ls[|ls| - 1], sid, id);
      LastWasStep(Init(dryRun), ls, (s, l) => Mounts(s, l, sid, id), (s, l) => Unmounts(s, l, sid, id));
    }
  }

  /** A secret's row is there exactly if it was put there and not dropped since. */
  lemma {:induction false} SecretThereExactly(dryRun: bool, ls: seq<Label>, sid: int)
    ensures sid in Run(Init(dryRun), ls).rows.secrets
       <==> LastWas(Init(dryRun), ls, (s, l) => PutsSecret(s, l, sid), (s, l) => DropsSecret(s, l, sid))
  {
    if ls != [] {
      hide LastWas, Next, PutsSecret, DropsSecret;
      SecretThereExactly(dryRun, ls[..|ls| - 1], sid);
      SecretCell(Run(Init(dryRun), ls[..|ls| - 1]), ls[|ls| - 1], sid);
      LastWasStep(Init(dryRun), ls, (s, l) => PutsSecret(s, l, sid), (s, l) => DropsSecret(s, l, sid));
    }
  }

  predicate AboutSecret(s: State, l: Label, sid: int) {
    PutsSecret(s, l, sid) || DropsSecret(s, l, sid)
  }

  /** And it says what the last creation or save of that very secret gave it. */
  lemma {:induction false} SecretIsAsPut(s0: State, ls: seq<Label>, i: nat, sid: int)
    requires i < |ls| && PutsSecret(Run(s0, ls[..i]), ls[i], sid)
    requires NoneSince(s0, ls, i, (s, l) => AboutSecret(s, l, sid))
    ensures sid in Run(s0, ls).rows.secrets && Run(s0, ls).rows.secrets[sid] == Run(s0, ls[..i]).pc.secret
  {
    var before := ls[..|ls| - 1];
    hide Next;
    SecretCell(Run(s0, before), ls[|ls| - 1], sid);
    if i < |before| {
      assert before[..i] == ls[..i];
      NoneSinceStep(s0, ls, i, (s, l) => AboutSecret(s, l, sid));
      SecretIsAsPut(s0, before, i, sid);
    } else {
      assert before == ls[..i];
    }
  }

  /** A workload runs, as far as its flag goes, exactly if the last switch since its
      creation switched it on. */
  lemma {:induction false} EnabledExactly(dryRun: bool, ls: seq<Label>, id: int)
    ensures var s := Run(Init(dryRun), ls);
            id in s.rows.workloads && s.rows.workloads[id].enabled
            <==> LastWas(Init(dryRun), ls, (s, l) => SwitchesOn(s, l, id), (s, l) => SwitchesOff(s, l, id))
  {
    if ls != [] {
      hide LastWas, Next, Creates, Destroys, Switches;
      EnabledExactly(dryRun, ls[..|ls| - 1], id);
      SwitchesApart(Run(Init(dryRun), ls[..|ls| - 1]), ls[|ls| - 1], id);
      WorkloadCell(Run(Init(dryRun), ls[..|ls| - 1]), ls[|ls| - 1], id);
      LastWasStep(Init(dryRun), ls, (s, l) => SwitchesOn(s, l, id), (s, l) => SwitchesOff(s, l, id));
    }
  }

  predicate SwitchesOn(s: State, l: Label, id: int) {
    id in s.rows.workloads && Switches(s, l, id, true)
  }

  /** A new workload is off, and so is one that is gone. */
  predicate SwitchesOff(s: State, l: Label, id: int) {
    Switches(s, l, id, false) || Creates(s, l, id) || Destroys(s, l, id)
  }

  lemma SwitchesApart(s: State, l: Label, id: int)
    ensures Switches(s, l, id, true) ==> !SwitchesOff(s, l, id)
    ensures Creates(s, l, id) ==> id !in s.rows.workloads
  {
  }

  /** A workload's row is there exactly if it was created and not destroyed since. */
  lemma {:induction false} WorkloadThereExactly(dryRun: bool, ls: seq<Label>, id: int)
    ensures id in Run(Init(dryRun), ls).rows.workloads
       <==> LastWas(Init(dryRun), ls, (s, l) => Creates(s, l, id), (s, l) => Destroys(s, l, id))
  {
    if ls != [] {
      hide LastWas, Next, Creates, Destroys;
      WorkloadThereExactly(dryRun, ls[..|ls| - 1], id);
      WorkloadCell(Run(Init(dryRun), ls[..|ls| - 1]), ls[|ls| - 1], id);
      LastWasStep(Init(dryRun), ls, (s, l) => Creates(s, l, id), (s, l) => Destroys(s, l, id));
    }
  }

  predicate AboutWorkload(s: State, l: Label, id: int) {
    Creates(s, l, id) || Destroys(s, l, id)
  }

  /** And it has the name and the type it was created with. */
  lemma {:induction false} WorkloadIsAsCreated(s0: State, ls: seq<Label>, i: nat, id: int)
    requires i < |ls| && Creates(Run(s0, ls[..i]), ls[i], id)
    requires NoneSince(s0, ls, i, (s, l) => AboutWorkload(s, l, id))
    ensures var at, now := Run(s0, ls[..i]).pc, Run(s0, ls).rows.workloads;
            id in now && now[id].name == at.name && now[id].typ == at.typ
  {
    var before := ls[..|ls| - 1];
    hide Next, Destroys;
    WorkloadCell(Run(s0, before), ls[|ls| - 1], id);
    if i < |before| {
      assert before[..i] == ls[..i];
      NoneSinceStep(s0, ls, i, (s, l) => AboutWorkload(s, l, id));
      WorkloadIsAsCreated(s0, before, i, id);
    } else {
      assert before == ls[..i];
    }
  }
}
