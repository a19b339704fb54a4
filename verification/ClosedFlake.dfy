/** The state directory always evaluates: whatever index.nix names is on disk, and every
    row has its file, in every reachable state, including those a crash leaves between
    two micro-steps. */
module ClosedFlake {
  import opened Base
  import opened Names
  import opened HostPorts
  import opened Rows
  import opened Machine

  /** Every row has its file. */
  ghost predicate RowsHaveFiles(s: State) {
    && (forall id :: id in s.rows.workloads ==> s.rows.workloads[id].name in s.disk.files)
    && (forall sid :: sid in s.rows.secrets ==> s.rows.secrets[sid].name in s.disk.ciphertexts)
  }

  /** Everything the index names exists. */
  ghost predicate IndexClosed(d: Disk) {
    NamedBy(d.index) <= d.files.Keys && d.index.secrets.Keys <= d.ciphertexts.Keys
  }

  ghost predicate FlakeClosed(s: State) {
    RowsHaveFiles(s) && IndexClosed(s.disk)
  }

  ghost predicate NamedRow(r: Rows, id: int, name: string) {
    id in r.workloads && r.workloads[id].name == name
  }

  ghost predicate DoomedRow(r: Rows, id: int, name: string) {
    NamedRow(r, id, name) && !r.workloads[id].enabled
  }

  predicate RemovingFileOf(s: State, name: string) {
    s.job.Job? && s.job.stage.RemovingFile? && s.job.task.DestroyTask? && s.job.task.name == name
  }

  /** A destroy job is about the row of its name until it has deleted it. */
  ghost predicate OrderlyJob(s: State) {
    s.job.Job? ==>
      match s.job.task
      case ApplyTask(_, _) => !s.job.stage.DeletingRow? && !s.job.stage.RemovingFile?
      case DestroyTask(id, name) => !s.job.stage.Marking? && (s.job.stage.RemovingFile? || NamedRow(s.rows, id, name))
  }

  /** What the handler under way has established for its next micro-step. */
  ghost predicate OrderlyPc(s: State) {
    match s.pc
    case CreateRow(name, _, _, _) => name in s.disk.files && !WorkloadNameTaken(s.rows, name)
    case AddSecretRow(secret, _) => secret.name in s.disk.ciphertexts && !SecretNameTaken(s.rows, secret.name)
    case SaveSecretRow(sid, secret, _) => sid in s.rows.secrets && s.rows.secrets[sid].name == secret.name
    case ApplyFlake(_) => s.disk.index.secrets.Keys == SecretNames(s.rows)
    case ApplySnapshot(_) => s.disk.index.secrets.Keys == SecretNames(s.rows)
    case ApplyPrune(_, _) => s.disk.index.secrets.Keys == SecretNames(s.rows)
    case DestroyIndex(id, name) => NamedRow(s.rows, id, name)
    case DestroyStart(id, name) => NamedRow(s.rows, id, name)
    case _ => true
  }

  /** Holds in every run whatsoever. */
  ghost predicate Orderly(s: State) {
    UniqueWorkloads(s.rows) && UniqueSecrets(s.rows) && OrderlyJob(s) && OrderlyPc(s)
  }

  /** A workload being destroyed is disabled and unlisted until its row goes, and no row
      has its name while its file goes. */
  ghost predicate GuardedJob(s: State) {
    s.job.Job? && s.job.task.DestroyTask? ==>
      && s.job.task.name !in NamedBy(s.disk.index)
      && if s.job.stage.RemovingFile? then !WorkloadNameTaken(s.rows, s.job.task.name)
         else DoomedRow(s.rows, s.job.task.id, s.job.task.name)
  }

  ghost predicate GuardedPc(s: State) {
    && (s.pc.CreateRow? ==> !RemovingFileOf(s, s.pc.name))
    && (s.pc.DestroyIndex? || s.pc.DestroyStart? ==> DoomedRow(s.rows, s.pc.id, s.pc.name))
    && (s.pc.DestroyStart? ==> s.pc.name !in NamedBy(s.disk.index))
  }

  ghost predicate Closed(s: State) {
    Orderly(s) && FlakeClosed(s) && GuardedJob(s) && GuardedPc(s)
  }

  // ---- The two things a caller must not do ----

  /** Enabling a workload while its own destroy job is in flight. */
  ghost predicate Reenables(s: State, l: Label) {
    l.Begin? && l.req.Enable? && l.req.on && s.job.Job? && s.job.task.DestroyTask? && s.job.task.id == l.req.id
  }

  /** Creating a workload under a name whose file a destroy job, having deleted the row,
      is about to remove. */
  ghost predicate Recreates(s: State, l: Label) {
    l.Begin? && l.req.Create? && RemovingFileOf(s, l.req.name)
  }

  ghost predicate Careful(s: State, ls: seq<Label>) {
    forall i :: 0 <= i < |ls| ==> !Reenables(Run(s, ls[..i]), ls[i]) && !Recreates(Run(s, ls[..i]), ls[i])
  }

  // ---- What every run keeps ----

  lemma BeginFilesKeepOrderly(s: State, req: Request)
    requires Orderly(s) && s.pc == Idle && (req.Create? || req.Save? || req.Restore? || req.AddSecret? || req.SaveSecret?)
    ensures Orderly(BeginStep(s, req))
  {
  }

  lemma BeginOthersKeepOrderly(s: State, req: Request)
    requires Orderly(s) && s.pc == Idle && (req.Apply? || req.Destroy?)
    ensures Orderly(BeginStep(s, req))
  {
  }

  lemma BeginSmallKeepsOrderly(s: State, req: Request)
    requires Orderly(s) && s.pc == Idle
    ensures Orderly(BeginSmall(s, req))
  {
  }

  lemma BeginKeepsOrderly(s: State, req: Request)
    requires Orderly(s)
    ensures Orderly(BeginStep(s, req))
  {
    if s.pc == Idle {
      if req.Create? || req.Save? || req.Restore? || req.AddSecret? || req.SaveSecret? {
        BeginFilesKeepOrderly(s, req);
      } else if req.Apply? || req.Destroy? {
        BeginOthersKeepOrderly(s, req);
      } else {
        BeginSmallKeepsOrderly(s, req);
      }
    }
  }

  lemma InsertKeepsOrderly(s: State, id: int, rev: int)
    requires Orderly(s) && (s.pc.CreateRow? || s.pc.SaveRow?)
    ensures Orderly(ContinueStep(s, id, rev))
  {
  }

  lemma SecretRowKeepsOrderly(s: State, id: int, rev: int)
    requires Orderly(s) && (s.pc.AddSecretRow? || s.pc.SaveSecretRow?)
    ensures Orderly(ContinueStep(s, id, rev))
  {
  }

  lemma OtherContinueKeepsOrderly(s: State, id: int, rev: int)
    requires Orderly(s) && !s.pc.CreateRow? && !s.pc.SaveRow? && !s.pc.AddSecretRow? && !s.pc.SaveSecretRow?
    ensures Orderly(ContinueStep(s, id, rev))
  {
  }

  lemma CommitKeepsOrderly(s: State, id: int)
    requires Orderly(s)
    ensures Orderly(CommitStep(s, id))
  {
  }

  lemma StepKeepsOrderly(s: State, l: Label)
    requires Orderly(s)
    ensures Orderly(Next(s, l))
  {
    match l {
      case Begin(req) => BeginKeepsOrderly(s, req);
      case Continue(id, rev) =>
        if s.pc.CreateRow? || s.pc.SaveRow? {
          InsertKeepsOrderly(s, id, rev);
        } else if s.pc.AddSecretRow? || s.pc.SaveSecretRow? {
          SecretRowKeepsOrderly(s, id, rev);
        } else {
          OtherContinueKeepsOrderly(s, id, rev);
        }
      case Commit(id) => CommitKeepsOrderly(s, id);
      case _ =>
    }
  }

  lemma {:induction false} AlwaysOrderly(dryRun: bool, ls: seq<Label>)
    ensures Orderly(Run(Init(dryRun), ls))
  {
    if ls != [] {
      AlwaysOrderly(dryRun, ls[..|ls| - 1]);
      StepKeepsOrderly(Run(Init(dryRun), ls[..|ls| - 1]), ls[|ls| - 1]);
    }
  }

  // ---- The only step that can break the flake ----

  /** The last statement of a destroy job removes a file that the index names or that a
      row needs. */
  ghost predicate Breaks(s: State, l: Label) {
    && l.Commit? && s.pc == Idle && At(s, RemovingFile) && s.job.task.DestroyTask?
    && (s.job.task.name in NamedBy(s.disk.index) || WorkloadNameTaken(s.rows, s.job.task.name))
  }

  lemma RegeneratedIndexClosed(s: State)
    requires RowsHaveFiles(s)
    ensures IndexClosed(RegenerateIndex(s).disk)
    ensures RegenerateIndex(s).disk.index.secrets.Keys == SecretNames(s.rows)
  {
    forall n | n in NamedBy(IndexOf(s.rows)) ensures n in s.disk.files {
      NamedByIndexOf(s.rows, n);
    }
  }

  lemma BeginKeepsFlake(s: State, req: Request)
    requires FlakeClosed(s)
    ensures FlakeClosed(BeginStep(s, req))
  {
    RegeneratedIndexClosed(s);
  }

  lemma RowInsertsKeepFlake(s: State, id: int, rev: int)
    requires Orderly(s) && FlakeClosed(s)
    requires s.pc.CreateRow? || s.pc.SaveRow? || s.pc.AddSecretRow? || s.pc.SaveSecretRow?
    ensures FlakeClosed(ContinueStep(s, id, rev))
  {
  }

  lemma DestroyIndexKeepsFlake(s: State, id: int, rev: int)
    requires FlakeClosed(s) && s.pc.DestroyIndex?
    ensures FlakeClosed(ContinueStep(s, id, rev))
  {
    RegeneratedIndexClosed(s);
  }

  lemma OtherContinueKeepsFlake(s: State, id: int, rev: int)
    requires FlakeClosed(s) && !s.pc.CreateRow? && !s.pc.SaveRow? && !s.pc.AddSecretRow? && !s.pc.SaveSecretRow?
    requires !s.pc.DestroyIndex?
    ensures FlakeClosed(ContinueStep(s, id, rev))
  {
    var t := ContinueStep(s, id, rev);
    assert t.rows == s.rows && t.disk.files == s.disk.files && t.disk.ciphertexts == s.disk.ciphertexts
           && t.disk.index == s.disk.index;
  }

  lemma PruneKeepsFlake(s: State, name: string)
    requires Orderly(s) && FlakeClosed(s)
    ensures FlakeClosed(PruneStep(s, name))
  {
  }

  /** Removing a destroyed workload's file keeps the directory closed exactly when the
      index does not name it and no row has its name. */
  lemma RemovalKeepsClosedExactly(s: State, id: int)
    requires FlakeClosed(s) && s.pc == Idle && At(s, RemovingFile) && s.job.task.DestroyTask?
    ensures FlakeClosed(CommitStep(s, id))
       <==> s.job.task.name !in NamedBy(s.disk.index) && !WorkloadNameTaken(s.rows, s.job.task.name)
  {
    var t := CommitStep(s, id);
    var name := s.job.task.name;
    if k :| k in s.rows.workloads && s.rows.workloads[k].name == name {
      assert s.rows.workloads[k].name !in t.disk.files;
    }
  }

  lemma OtherCommitKeepsFlake(s: State, id: int)
    requires FlakeClosed(s) && !At(s, RemovingFile)
    ensures FlakeClosed(CommitStep(s, id))
  {
  }

  /** No other step of handlers or job, in any order and without any proviso, breaks it. */
  lemma StepKeepsFlakeExactly(s: State, l: Label)
    requires Orderly(s) && FlakeClosed(s)
    ensures FlakeClosed(Next(s, l)) <==> !Breaks(s, l)
  {
    match l {
      case Begin(req) => BeginKeepsFlake(s, req);
      case Continue(id, rev) =>
        if s.pc.CreateRow? || s.pc.SaveRow? || s.pc.AddSecretRow? || s.pc.SaveSecretRow? {
          RowInsertsKeepFlake(s, id, rev);
        } else if s.pc.DestroyIndex? {
          DestroyIndexKeepsFlake(s, id, rev);
        } else {
          OtherContinueKeepsFlake(s, id, rev);
        }
      case Prune(name) => PruneKeepsFlake(s, name);
      case Commit(id) =>
        if s.pc == Idle && At(s, RemovingFile) && s.job.task.DestroyTask? {
          RemovalKeepsClosedExactly(s, id);
        } else if !At(s, RemovingFile) {
          OtherCommitKeepsFlake(s, id);
        }
      case _ =>
    }
  }

  ghost predicate NeverBreaks(s0: State, ls: seq<Label>) {
    forall i :: 0 <= i < |ls| ==> !Breaks(Run(s0, ls[..i]), ls[i])
  }

  ghost predicate ClosedThroughout(s0: State, ls: seq<Label>) {
    forall i :: 0 <= i <= |ls| ==> FlakeClosed(Run(s0, ls[..i]))
  }

  lemma InitClosed(dryRun: bool)
    ensures Closed(Init(dryRun))
  {
  }

  /** In any run at all, the flake is closed in every state exactly when no destroy job
      removes a file that the index names or a row needs. */
  lemma {:induction false} ClosedThroughoutExactly(dryRun: bool, ls: seq<Label>)
    ensures ClosedThroughout(Init(dryRun), ls) <==> NeverBreaks(Init(dryRun), ls)
  {
    var s0 := Init(dryRun);
    InitClosed(dryRun);
    if ls == [] {
      assert forall i :: 0 <= i <= |ls| ==> ls[..i] == [];
    } else {
      var before, l := ls[..|ls| - 1], ls[|ls| - 1];
      ClosedThroughoutExactly(dryRun, before);
      AlwaysOrderly(dryRun, before);
      assert forall i :: 0 <= i <= |before| ==> before[..i] == ls[..i];
      assert ls[..|ls|] == ls && ls[..|before|] == before && before[..|before|] == before;
      if FlakeClosed(Run(s0, before)) {
        StepKeepsFlakeExactly(Run(s0, before), l);
      }
      OneMoreStep(s0, ls);
    }
  }

  lemma OneMoreStep(s0: State, ls: seq<Label>)
    requires ls != []
    ensures var before := ls[..|ls| - 1];
            && (NeverBreaks(s0, ls) <==> NeverBreaks(s0, before) && !Breaks(Run(s0, before), ls[|ls| - 1]))
            && (ClosedThroughout(s0, ls) <==> ClosedThroughout(s0, before) && FlakeClosed(Run(s0, ls)))
            && (ClosedThroughout(s0, before) ==> FlakeClosed(Run(s0, before)))
  {
    hide Run, FlakeClosed, Breaks;
    var before := ls[..|ls| - 1];
    assert forall i :: 0 <= i <= |before| ==> before[..i] == ls[..i];
    assert ls[..|ls|] == ls && before[..|before|] == before;
    if NeverBreaks(s0, before) && !Breaks(Run(s0, before), ls[|ls| - 1]) {
      forall i | 0 <= i < |ls| ensures !Breaks(Run(s0, ls[..i]), ls[i]) {
        if i < |before| {
          assert before[i] == ls[i];
        }
      }
    }
    if NeverBreaks(s0, ls) {
      forall i | 0 <= i < |before| ensures !Breaks(Run(s0, before[..i]), before[i]) {
        assert before[i] == ls[i];
      }
    }
  }

  // ---- What careful callers keep ----

  lemma DoomedIsUnlisted(r: Rows, id: int, name: string)
    requires UniqueWorkloads(r) && DoomedRow(r, id, name)
    ensures name !in NamedBy(IndexOf(r))
  {
    NamedByIndexOf(r, name);
  }

  lemma NotTakenIsUnlisted(r: Rows, name: string)
    requires !WorkloadNameTaken(r, name)
    ensures name !in NamedBy(IndexOf(r))
  {
    NamedByIndexOf(r, name);
  }

  lemma RegenerateKeepsGuardedJob(s: State)
    requires UniqueWorkloads(s.rows) && GuardedJob(s)
    ensures GuardedJob(RegenerateIndex(s))
  {
    if s.job.Job? && s.job.task.DestroyTask? {
      var name := s.job.task.name;
      if s.job.stage.RemovingFile? {
        NotTakenIsUnlisted(s.rows, name);
      } else {
        DoomedIsUnlisted(s.rows, s.job.task.id, name);
      }
    }
  }

  lemma BeginDestroyKeepsGuarded(s: State, id: int)
    requires Closed(s) && s.pc == Idle
    ensures GuardedJob(BeginDestroy(s, id)) && GuardedPc(BeginDestroy(s, id))
  {
  }

  lemma BeginFilesKeepGuarded(s: State, req: Request)
    requires Closed(s) && s.pc == Idle && !Recreates(s, Begin(req))
    requires req.Create? || req.Save? || req.Restore? || req.AddSecret? || req.SaveSecret?
    ensures GuardedJob(BeginStep(s, req)) && GuardedPc(BeginStep(s, req))
  {
    var t := BeginStep(s, req);
    assert t.rows == s.rows && t.job == s.job && t.disk.index == s.disk.index;
  }

  lemma BeginKeepsGuarded(s: State, req: Request)
    requires Closed(s) && !Reenables(s, Begin(req)) && !Recreates(s, Begin(req))
    ensures GuardedJob(BeginStep(s, req)) && GuardedPc(BeginStep(s, req))
  {
    if s.pc == Idle {
      match req {
        case Create(_, _, _, _) => BeginFilesKeepGuarded(s, req);
        case Save(_, _, _) => BeginFilesKeepGuarded(s, req);
        case Restore(_, _) => BeginFilesKeepGuarded(s, req);
        case Apply(_) => RegenerateKeepsGuardedJob(s);
        case Destroy(id) => BeginDestroyKeepsGuarded(s, id);
        case AddSecret(_, _, _) => BeginFilesKeepGuarded(s, req);
        case SaveSecret(_, _, _, _, _, _) => BeginFilesKeepGuarded(s, req);
        case _ => BeginSmallKeepsGuarded(s, req);
      }
    }
  }

  lemma BeginSmallKeepsGuarded(s: State, req: Request)
    requires Closed(s) && s.pc == Idle && !Reenables(s, Begin(req))
    ensures GuardedJob(BeginSmall(s, req)) && BeginSmall(s, req).pc == Idle
  {
  }

  lemma InsertKeepsGuarded(s: State, id: int, rev: int)
    requires Closed(s) && (s.pc.CreateRow? || s.pc.SaveRow?)
    ensures GuardedJob(ContinueStep(s, id, rev)) && GuardedPc(ContinueStep(s, id, rev))
  {
  }

  lemma DestroyIndexKeepsGuarded(s: State, id: int, rev: int)
    requires Closed(s) && s.pc.DestroyIndex?
    ensures GuardedJob(ContinueStep(s, id, rev)) && GuardedPc(ContinueStep(s, id, rev))
  {
    RegenerateKeepsGuardedJob(s);
    DoomedIsUnlisted(s.rows, s.pc.id, s.pc.name);
  }

  lemma StartKeepsGuarded(s: State, id: int, rev: int)
    requires Closed(s) && (s.pc.DestroyStart? || s.pc.ApplyPrune?)
    ensures GuardedJob(ContinueStep(s, id, rev)) && GuardedPc(ContinueStep(s, id, rev))
  {
  }

  lemma OtherContinueKeepsGuarded(s: State, id: int, rev: int)
    requires Closed(s) && !s.pc.CreateRow? && !s.pc.SaveRow? && !s.pc.DestroyIndex? && !s.pc.DestroyStart? && !s.pc.ApplyPrune?
    ensures GuardedJob(ContinueStep(s, id, rev)) && GuardedPc(ContinueStep(s, id, rev))
  {
    hide IndexOf, FlakeOf, Snapshot, MountsAcceptable, ReplaceMounts, NamedBy;
    var t := ContinueStep(s, id, rev);
    assert t.job == s.job && t.rows.workloads == s.rows.workloads && t.disk.index == s.disk.index;
  }

  lemma CommitKeepsGuarded(s: State, id: int)
    requires Closed(s)
    ensures GuardedJob(CommitStep(s, id)) && GuardedPc(CommitStep(s, id))
  {
  }

  lemma StepKeepsGuarded(s: State, l: Label)
    requires Closed(s) && !Reenables(s, l) && !Recreates(s, l)
    ensures GuardedJob(Next(s, l)) && GuardedPc(Next(s, l))
  {
    match l {
      case Begin(req) => BeginKeepsGuarded(s, req);
      case Continue(id, rev) =>
        if s.pc.CreateRow? || s.pc.SaveRow? {
          InsertKeepsGuarded(s, id, rev);
        } else if s.pc.DestroyIndex? {
          DestroyIndexKeepsGuarded(s, id, rev);
        } else if s.pc.DestroyStart? || s.pc.ApplyPrune? {
          StartKeepsGuarded(s, id, rev);
        } else {
          OtherContinueKeepsGuarded(s, id, rev);
        }
      case Commit(id) => CommitKeepsGuarded(s, id);
      case _ =>
    }
  }

  lemma StepKeepsClosed(s: State, l: Label)
    requires Closed(s) && !Reenables(s, l) && !Recreates(s, l)
    ensures Closed(Next(s, l))
  {
    StepKeepsOrderly(s, l);
    StepKeepsFlakeExactly(s, l);
    StepKeepsGuarded(s, l);
  }

  /** In every state of every careful run from a fresh installation. */
  lemma {:induction false} AlwaysClosed(dryRun: bool, ls: seq<Label>)
    requires Careful(Init(dryRun), ls)
    ensures Closed(Run(Init(dryRun), ls))
  {
    if ls != [] {
      var before := ls[..|ls| - 1];
      forall i | 0 <= i < |before|
        ensures !Reenables(Run(Init(dryRun), before[..i]), before[i]) && !Recreates(Run(Init(dryRun), before[..i]), before[i])
      {
        assert before[..i] == ls[..i];
      }
      AlwaysClosed(dryRun, before);
      StepKeepsClosed(Run(Init(dryRun), before), ls[|ls| - 1]);
    }
  }

  // ---- What happens without the two provisos ----

  /** An apply that finds the job slot taken has rewritten index.nix and flake.nix all
      the same, under the running job. */
  lemma RefusedApplyRegenerates(s: State, mode: Mode, orphans: seq<string>)
    requires s.pc == Idle && s.job.Job? && ListsOrphans(orphans, s) && EnabledHaveRevisions(s.rows)
    ensures Run(s, [Begin(Apply(mode))] + ApplySteps(orphans)) == Regenerated(s)
  {
    ApplyReachesTheSlot(s, mode, orphans);
  }

  lemma CommitsRemove(s: State)
    requires s.pc == Idle && At(s, DeletingRow) && s.job.task.DestroyTask?
    ensures Run(s, [Commit(0), Commit(0)]).disk == s.disk.(files := s.disk.files - {s.job.task.name})
  {
    RunTwo(s, Commit(0), Commit(0));
  }

  /** An enabled workload with a file stays listed by an apply that the slot refuses. */
  lemma RefusedApplyLists(s: State, id: int, orphans: seq<string>)
    requires s.pc == Idle && s.job.Job? && ListsOrphans(orphans, s) && EnabledHaveRevisions(s.rows)
    requires id in s.rows.workloads && s.rows.workloads[id].enabled && SectionOf(s.rows.workloads[id].typ).Some?
    ensures var t := Run(s, [Begin(Apply(Switch))] + ApplySteps(orphans));
            && t == s.(disk := t.disk) && t.disk.files == s.disk.files
            && s.rows.workloads[id].name in NamedBy(t.disk.index)
  {
    RefusedApplyRegenerates(s, Switch, orphans);
    NamedByIndexOf(s.rows, s.rows.workloads[id].name);
  }

  lemma EnablingKeepsRevisions(r: Rows, id: int)
    requires forall k :: k in r.workloads ==> RevisionsOf(r, k) != {}
    ensures EnabledHaveRevisions(SetEnabled(r, id, true))
  {
    var t := SetEnabled(r, id, true);
    forall k | k in t.workloads ensures RevisionsOf(t, k) != {} {
      assert RevisionsOf(t, k) == RevisionsOf(r, k);
    }
  }

  /** Re-enabling a workload whose destroy job has rebuilt, and then applying, is refused
      by the job slot; but the index has been regenerated, and once the job commits it
      names a file that is gone. */
  lemma ReenabledIndexDangles(s: State, orphans: seq<string>)
    requires Closed(s) && s.pc == Idle && ListsOrphans(orphans, s) && At(s, DeletingRow)
    requires s.job.task.DestroyTask? && SectionOf(s.rows.workloads[s.job.task.id].typ).Some?
    requires forall id :: id in s.rows.workloads ==> RevisionsOf(s.rows, id) != {}
    ensures var t := Run(s, [Begin(Enable(s.job.task.id, true))]
                         + ([Begin(Apply(Switch))] + ApplySteps(orphans)) + [Commit(0), Commit(0)]);
            s.job.task.name in NamedBy(t.disk.index) && s.job.task.name !in t.disk.files
  {
    var id := s.job.task.id;
    var enable, apply := Begin(Enable(id, true)), [Begin(Apply(Switch))] + ApplySteps(orphans);
    RunConcat(s, [enable] + apply, [Commit(0), Commit(0)]);
    RunCons(s, enable, apply);
    EnablingKeepsRevisions(s.rows, id);
    var enabled := s.(rows := SetEnabled(s.rows, id, true));
    assert Next(s, enable) == enabled;
    RefusedApplyLists(enabled, id, orphans);
    CommitsRemove(Run(enabled, apply));
  }

  /** A first workload, created and destroyed, up to the commit of its destroy job. */
  function CreateToCommit(name: string, typ: string, content: string): seq<Label> {
    [Begin(Create(name, typ, content, [])), Continue(1, 1), Begin(Destroy(1)), Continue(0, 0)]
    + [Continue(0, 0), Lock(true), Update(true), Rebuild(true)]
  }

  lemma FirstWorkloadCreated(name: string, typ: string, content: string)
    requires Lookup(typ).Some? && ValidNameForType(Lookup(typ).value, name)
    ensures var s := Next(Next(Init(false), Begin(Create(name, typ, content, []))), Continue(1, 1));
            && Closed(s) && s.pc == Idle && s.job.NoJob? && s.rows.secrets == map[] && s.disk.ciphertexts == map[]
            && s.rows.workloads == map[1 := Workload(name, typ, false, None)]
            && s.rows.revisions == map[1 := Revision(1, content, FormatFrom([]))]
  {
    var s0, create := Init(false), Begin(Create(name, typ, content, []));
    InitClosed(false);
    var a := Next(s0, create);
    assert a == s0.(disk := a.disk, pc := CreateRow(name, typ, content, FormatFrom([]))) && a.disk.ciphertexts == map[];
    var b := Next(a, Continue(1, 1));
    assert b == a.(rows := InsertWorkload(NO_ROWS, 1, 1, name, typ, content, FormatFrom([])), pc := Idle);
    hide Closed;
    StepKeepsClosed(s0, create);
    StepKeepsClosed(a, Continue(1, 1));
  }

  lemma FirstWorkloadDestroyed(s: State, name: string, typ: string)
    requires Closed(s) && s.pc == Idle && s.job.NoJob? && 1 in s.rows.revisions && s.rows.revisions[1].workload == 1
    requires s.rows.workloads == map[1 := Workload(name, typ, false, None)]
    ensures var t := Next(Next(Next(s, Begin(Destroy(1))), Continue(0, 0)), Continue(0, 0));
            Closed(t) && t.pc == Idle && t.job == Job(DestroyTask(1, name), Locking, map[])
            && t.rows == s.rows && t.disk.ciphertexts == s.disk.ciphertexts
  {
    hide Closed;
    var a := Next(s, Begin(Destroy(1)));
    assert a == s.(pc := DestroyIndex(1, name));
    StepKeepsClosed(s, Begin(Destroy(1)));
    var b := Next(a, Continue(0, 0));
    assert b == RegenerateIndex(s).(pc := DestroyStart(1, name));
    StepKeepsClosed(a, Continue(0, 0));
    StepKeepsClosed(b, Continue(0, 0));
  }

  lemma CommandsReachCommit(s: State, id: int, name: string)
    requires Closed(s) && s.job == Job(DestroyTask(id, name), Locking, map[])
    ensures var t := Next(Next(Next(s, Lock(true)), Update(true)), Rebuild(true));
            Closed(t) && t.pc == s.pc && At(t, DeletingRow) && t.job.task == s.job.task
            && t.rows == s.rows && t.disk == s.disk
  {
    StepKeepsClosed(s, Lock(true));
    StepKeepsClosed(Next(s, Lock(true)), Update(true));
    StepKeepsClosed(Next(Next(s, Lock(true)), Update(true)), Rebuild(true));
  }

  lemma CommitReached(name: string, typ: string, content: string)
    requires Lookup(typ).Some? && ValidNameForType(Lookup(typ).value, name)
    ensures var s := Run(Init(false), CreateToCommit(name, typ, content));
            && Closed(s) && s.pc == Idle && At(s, DeletingRow) && s.job.task == DestroyTask(1, name)
            && s.rows.workloads == map[1 := Workload(name, typ, false, None)]
            && s.rows.revisions == map[1 := Revision(1, content, FormatFrom([]))]
            && s.rows.secrets == map[] && s.disk.ciphertexts == map[]
  {
    var s0 := Init(false);
    FirstWorkloadCreated(name, typ, content);
    var created := Next(Next(s0, Begin(Create(name, typ, content, []))), Continue(1, 1));
    FirstWorkloadDestroyed(created, name, typ);
    var started := Next(Next(Next(created, Begin(Destroy(1))), Continue(0, 0)), Continue(0, 0));
    CommandsReachCommit(started, 1, name);
    var first, second := [Begin(Create(name, typ, content, [])), Continue(1, 1), Begin(Destroy(1)), Continue(0, 0)],
      [Continue(0, 0), Lock(true), Update(true), Rebuild(true)];
    RunConcat(s0, first, second);
    RunFour(s0, first[0], first[1], first[2], first[3]);
    RunFour(Run(s0, first), second[0], second[1], second[2], second[3]);
  }

  /** So the first proviso is needed: from a fresh installation, for any workload name and
      type, a run that re-enables during the destroy job ends with an index that names a
      file that is not there. */
  lemma ReenablingBreaksTheFlake(name: string, typ: string, content: string)
    requires Lookup(typ).Some? && ValidNameForType(Lookup(typ).value, name) && SectionOf(typ).Some?
    ensures var ls := CreateToCommit(name, typ, content)
                      + ([Begin(Enable(1, true))] + ([Begin(Apply(Switch))] + ApplySteps([])) + [Commit(0), Commit(0)]);
            !IndexClosed(Run(Init(false), ls).disk)
  {
    CommitReached(name, typ, content);
    var s := Run(Init(false), CreateToCommit(name, typ, content));
    assert 1 in RevisionsOf(s.rows, 1);
    ReenabledIndexDangles(s, []);
    RunConcat(Init(false), CreateToCommit(name, typ, content),
              [Begin(Enable(1, true))] + ([Begin(Apply(Switch))] + ApplySteps([])) + [Commit(0), Commit(0)]);
  }

  /** Creating a workload between the two commit statements of a destroy job for the
      same name leaves a row without a file. */
  lemma RecreatedRowLosesFile(s: State, typ: string, content: string, ports: seq<HostPort>, id: int, rev: int)
    requires s.pc == Idle && At(s, RemovingFile) && s.job.task.DestroyTask?
    requires !WorkloadNameTaken(s.rows, s.job.task.name)
    requires Lookup(typ).Some? && ValidNameForType(Lookup(typ).value, s.job.task.name)
    requires Fresh(id, s.rows.workloads) && Fresh(rev, s.rows.revisions)
    ensures var name := s.job.task.name;
            var t := Run(s, [Begin(Create(name, typ, content, ports)), Continue(id, rev), Commit(0)]);
            id in t.rows.workloads && t.rows.workloads[id].name == name && name !in t.disk.files
  {
    var a, b, c := Begin(Create(s.job.task.name, typ, content, ports)), Continue(id, rev), Commit(0);
    assert [a, b, c] == [a] + ([b] + ([c] + []));
    RunCons(s, a, [b] + ([c] + []));
    RunCons(Next(s, a), b, [c] + []);
    RunCons(Next(Next(s, a), b), c, []);
  }

  /** And so is the second: creating the name anew between the two commit statements ends
      with a row without a file. */
  lemma RecreatingBreaksTheFlake(name: string, typ: string, content: string)
    requires Lookup(typ).Some? && ValidNameForType(Lookup(typ).value, name)
    ensures var ls := CreateToCommit(name, typ, content) + [Commit(0)]
                      + [Begin(Create(name, typ, content, [])), Continue(2, 2), Commit(0)];
            !RowsHaveFiles(Run(Init(false), ls))
  {
    CommitReached(name, typ, content);
    var ls := CreateToCommit(name, typ, content);
    RunSnoc(Init(false), ls, Commit(0));
    RecreatedRowLosesFile(Run(Init(false), ls + [Commit(0)]), typ, content, [], 2, 2);
    RunConcat(Init(false), ls + [Commit(0)], [Begin(Create(name, typ, content, [])), Continue(2, 2), Commit(0)]);
  }
}
