/** Destroy is all or kept: a workload's row, revisions and file go only after the lock,
    the update and the rebuild of its own destroy job all succeeded. */
module DestroyJob {
  import opened Rows
  import opened Machine
  import opened ClosedFlake
  import opened History

  // ---- Nothing else deletes ----

  lemma ContinueDeletesNothing(s: State, id: int, rev: int)
    ensures s.rows.workloads.Keys <= ContinueStep(s, id, rev).rows.workloads.Keys
    ensures s.rows.revisions.Keys <= ContinueStep(s, id, rev).rows.revisions.Keys
  {
    hide IndexOf, FlakeOf, Snapshot, MountsAcceptable, ReplaceMounts, Orphans;
  }

  lemma ContinueLeavesFiles(s: State, id: int, rev: int)
    ensures s.disk.files == ContinueStep(s, id, rev).disk.files
  {
  }

  lemma CommitDeletesOnlyDoomed(s: State, next: int, id: int)
    requires id in s.rows.workloads && !(At(s, DeletingRow) && s.job.task.DestroyTask? && s.job.task.id == id)
    ensures id in CommitStep(s, next).rows.workloads
    ensures RevisionsOf(s.rows, id) <= CommitStep(s, next).rows.revisions.Keys
  {
  }

  lemma BeginDeletesNothing(s: State, req: Request)
    ensures s.rows.workloads.Keys <= BeginStep(s, req).rows.workloads.Keys
    ensures s.rows.revisions.Keys <= BeginStep(s, req).rows.revisions.Keys
    ensures s.disk.files.Keys <= BeginStep(s, req).disk.files.Keys
  {
  }

  /** A step after which a workload row or one of its revisions is missing is the commit
      of that workload's destroy job, past its rebuild. */
  lemma OnlyDestroyDeletesRows(s: State, l: Label, id: int)
    requires id in s.rows.workloads
    requires id !in Next(s, l).rows.workloads
             || exists x :: x in RevisionsOf(s.rows, id) && x !in Next(s, l).rows.revisions
    ensures l.Commit? && At(s, DeletingRow) && s.job.task.DestroyTask? && s.job.task.id == id
  {
    match l {
      case Begin(req) => BeginDeletesNothing(s, req);
      case Continue(newId, rev) => ContinueDeletesNothing(s, newId, rev);
      case Commit(next) =>
        if !(At(s, DeletingRow) && s.job.task.DestroyTask? && s.job.task.id == id) {
          CommitDeletesOnlyDoomed(s, next, id);
        }
      case _ =>
    }
  }

  /** A step after which a workload's file is missing is the last commit statement of a
      destroy job for that name. */
  lemma OnlyDestroyDeletesFiles(s: State, l: Label, name: string)
    requires name in s.disk.files && name !in Next(s, l).disk.files
    ensures l.Commit? && RemovingFileOf(s, name)
  {
    match l {
      case Begin(req) => BeginDeletesNothing(s, req);
      case Continue(newId, rev) => ContinueLeavesFiles(s, newId, rev);
      case _ =>
    }
  }

  // ---- The job got there by three successes ----

  /** The same job holds the slot in every state from position i on. */
  ghost predicate SameJobSince(s0: State, ls: seq<Label>, i: nat, task: Task) {
    forall m :: i <= m <= |ls| ==> Run(s0, ls[..m]).job.Job? && Run(s0, ls[..m]).job.task == task
  }

  /** Position h starts a destroy job for the workload the job is about. */
  ghost predicate StartsDestroy(s0: State, ls: seq<Label>, h: nat, task: Task) {
    && h < |ls| && ls[h].Continue? && task.DestroyTask?
    && Run(s0, ls[..h]).pc == DestroyStart(task.id, task.name) && Run(s0, ls[..h]).job.NoJob?
  }

  /** Where in a run a job was started and its commands succeeded. */
  datatype Milestones = Milestones(start: nat, lock: nat, update: nat, rebuild: nat)

  /** The milestones that a job in the given stage has behind it, in order. */
  ghost predicate Succeeded(ls: seq<Label>, m: Milestones, stage: Stage) {
    && (stage.Locking? || (m.start < m.lock < |ls| && ls[m.lock] == Lock(true)))
    && (stage.Locking? || stage.Updating? || (m.lock < m.update < |ls| && ls[m.update] == Update(true)))
    && (stage.DeletingRow? || stage.RemovingFile? ==> m.update < m.rebuild < |ls| && ls[m.rebuild] == Rebuild(true))
  }

  ghost predicate Reached(s0: State, ls: seq<Label>, m: Milestones, task: Task, stage: Stage) {
    && StartsDestroy(s0, ls, m.start, task) && SameJobSince(s0, ls, m.start + 1, task)
    && Succeeded(ls, m, stage)
  }

  ghost predicate Explained(s0: State, ls: seq<Label>) {
    var s := Run(s0, ls);
    s.job.Job? && s.job.task.DestroyTask? ==>
      !s.job.stage.Marking? && exists m :: Reached(s0, ls, m, s.job.task, s.job.stage)
  }

  lemma PrefixOf(ls: seq<Label>, m: nat)
    requires 0 < |ls| && m < |ls|
    ensures ls[..|ls| - 1][..m] == ls[..m]
  {
  }

  /** Positions of a run stay what they were when a label is added. */
  lemma StillReached(s0: State, ls: seq<Label>, m: Milestones, task: Task, stage: Stage)
    requires |ls| > 0 && Reached(s0, ls[..|ls| - 1], m, task, stage)
    requires Run(s0, ls).job.Job? && Run(s0, ls).job.task == task
    ensures Reached(s0, ls, m, task, stage)
  {
    var before := ls[..|ls| - 1];
    PrefixOf(ls, m.start);
    forall n | m.start + 1 <= n <= |ls| ensures Run(s0, ls[..n]).job.Job? && Run(s0, ls[..n]).job.task == task {
      if n < |ls| {
        PrefixOf(ls, n);
        assert Run(s0, before[..n]).job.Job?;
      } else {
        assert ls[..n] == ls;
      }
    }
  }

  /** How one step can leave a destroy job in the slot. */
  lemma JobSteps(s: State, l: Label)
    requires Next(s, l).job.Job? && Next(s, l).job.task.DestroyTask?
    ensures var t := Next(s, l);
            || (&& s.job.Job? && s.job.task == t.job.task
                && (|| s.job.stage == t.job.stage
                    || (s.job.stage.Locking? && t.job.stage.Updating? && l == Lock(true))
                    || (s.job.stage.Updating? && t.job.stage.Building? && l == Update(true))
                    || (s.job.stage.Building? && t.job.stage.DeletingRow? && l == Rebuild(true))
                    || (s.job.stage.DeletingRow? && t.job.stage.RemovingFile?)
                    || (s.job.stage.Marking? && t.job.stage.Marking?)))
            || (&& l.Continue? && s.job.NoJob? && t.job.stage.Locking?
                && s.pc == DestroyStart(t.job.task.id, t.job.task.name))
  {
  }

  lemma {:induction false} EveryDestroyJobExplained(dryRun: bool, ls: seq<Label>)
    ensures Explained(Init(dryRun), ls)
  {
    var s0 := Init(dryRun);
    var t := Run(s0, ls);
    if ls != [] && t.job.Job? && t.job.task.DestroyTask? {
      var before, l := ls[..|ls| - 1], ls[|ls| - 1];
      EveryDestroyJobExplained(dryRun, before);
      JobSteps(Run(s0, before), l);
      if Run(s0, before).job.NoJob? {
        assert ls[..|ls|] == ls;
        assert Reached(s0, ls, Milestones(|before|, 0, 0, 0), t.job.task, t.job.stage);
      } else {
        ExplainOneMore(s0, ls);
      }
    }
  }

  /** The milestones after a step at the given position that changes the stage. */
  function NextMilestones(m: Milestones, from: Stage, to: Stage, at: nat): Milestones {
    if from.Locking? && to.Updating? then m.(lock := at)
    else if from.Updating? && to.Building? then m.(update := at)
    else if from.Building? && to.DeletingRow? then m.(rebuild := at)
    else m
  }

  lemma NextSucceeded(ls: seq<Label>, m: Milestones, from: Stage, to: Stage)
    requires |ls| > 0 && Succeeded(ls[..|ls| - 1], m, from) && m.start < |ls| - 1 && !to.Marking?
    requires || from == to
             || (from.Locking? && to.Updating? && ls[|ls| - 1] == Lock(true))
             || (from.Updating? && to.Building? && ls[|ls| - 1] == Update(true))
             || (from.Building? && to.DeletingRow? && ls[|ls| - 1] == Rebuild(true))
             || (from.DeletingRow? && to.RemovingFile?)
    ensures Succeeded(ls, NextMilestones(m, from, to, |ls| - 1), to)
    ensures NextMilestones(m, from, to, |ls| - 1).start == m.start
  {
  }

  lemma ExplainOneMore(s0: State, ls: seq<Label>)
    requires |ls| > 0 && Explained(s0, ls[..|ls| - 1])
    requires Run(s0, ls[..|ls| - 1]).job.Job?
    requires Run(s0, ls).job.Job? && Run(s0, ls).job.task.DestroyTask?
    ensures Explained(s0, ls)
  {
    var before, l := ls[..|ls| - 1], ls[|ls| - 1];
    var s, t := Run(s0, before), Run(s0, ls);
    JobSteps(s, l);
    var m :| Reached(s0, before, m, s.job.task, s.job.stage);
    StillReached(s0, ls, m, s.job.task, s.job.stage);
    var n := NextMilestones(m, s.job.stage, t.job.stage, |before|);
    NextSucceeded(ls, m, s.job.stage, t.job.stage);
    assert Reached(s0, ls, n, t.job.task, t.job.stage);
  }

  /** A destroy job for exactly this workload was started in the run, has held the slot
      ever since, and its lock, update and rebuild succeeded, in that order. */
  ghost predicate RebuiltForDestroy(s0: State, ls: seq<Label>, m: Milestones, id: int, name: string) {
    && StartsDestroy(s0, ls, m.start, DestroyTask(id, name))
    && SameJobSince(s0, ls, m.start + 1, DestroyTask(id, name))
    && m.start < m.lock < m.update < m.rebuild < |ls|
    && ls[m.lock] == Lock(true) && ls[m.update] == Update(true) && ls[m.rebuild] == Rebuild(true)
  }

  lemma PastRebuildIsRebuilt(dryRun: bool, ls: seq<Label>, id: int, name: string)
    requires var s := Run(Init(dryRun), ls);
             (At(s, DeletingRow) || At(s, RemovingFile)) && s.job.task == DestroyTask(id, name)
    ensures exists m :: RebuiltForDestroy(Init(dryRun), ls, m, id, name)
  {
    var stage := Run(Init(dryRun), ls).job.stage;
    EveryDestroyJobExplained(dryRun, ls);
    var m :| Reached(Init(dryRun), ls, m, DestroyTask(id, name), stage);
    assert RebuiltForDestroy(Init(dryRun), ls, m, id, name);
  }

  /** Whenever a run deletes a workload's row or one of its revisions, it does so in the
      commit of a destroy job for this id and name, after its three commands succeeded. */
  lemma DeletionNeedsThreeSuccesses(dryRun: bool, ls: seq<Label>, l: Label, id: int)
    requires var s := Run(Init(dryRun), ls);
             && id in s.rows.workloads
             && (id !in Next(s, l).rows.workloads
                 || exists x :: x in RevisionsOf(s.rows, id) && x !in Next(s, l).rows.revisions)
    ensures l.Commit?
    ensures exists m :: RebuiltForDestroy(Init(dryRun), ls, m, id, Run(Init(dryRun), ls).rows.workloads[id].name)
  {
    var s := Run(Init(dryRun), ls);
    OnlyDestroyDeletesRows(s, l, id);
    AlwaysOrderly(dryRun, ls);
    PastRebuildIsRebuilt(dryRun, ls, id, s.job.task.name);
  }

  /** Whenever a run removes a workload's file, it does so in the commit of a destroy job
      for this name, after its three commands succeeded. */
  lemma FileRemovalNeedsThreeSuccesses(dryRun: bool, ls: seq<Label>, l: Label, name: string)
    requires var s := Run(Init(dryRun), ls); name in s.disk.files && name !in Next(s, l).disk.files
    ensures l.Commit?
    ensures exists m, id :: RebuiltForDestroy(Init(dryRun), ls, m, id, name)
  {
    var s := Run(Init(dryRun), ls);
    OnlyDestroyDeletesFiles(s, l, name);
    PastRebuildIsRebuilt(dryRun, ls, s.job.task.id, name);
  }

  // ---- On any other outcome everything is kept ----

  lemma HandlersKeepTheSlot(s: State, l: Label)
    requires s.job.Job? && (l.Begin? || l.Continue? || l.Prune? || l.Fail?)
    ensures Next(s, l).job == s.job && Next(s, l).live == s.live
  {
    match l {
      case Begin(req) => BeginKeepsJob(s, req);
      case _ =>
    }
  }

  lemma BeginKeepsJob(s: State, req: Request)
    ensures BeginStep(s, req).job == s.job && BeginStep(s, req).live == s.live
    ensures BeginStep(s, req).dryRun == s.dryRun
  {
  }

  /** A destroy job for this row holds the slot and has not deleted the row. */
  ghost predicate Destroying(s: State, id: int, name: string) {
    s.job.Job? && s.job.task == DestroyTask(id, name) && !s.job.stage.RemovingFile?
  }

  /** It has done so from position i up to the last step of the run. */
  ghost predicate DestroyingSince(s0: State, ls: seq<Label>, i: nat, id: int, name: string) {
    i < |ls| && forall m :: i <= m < |ls| ==> Destroying(Run(s0, ls[..m]), id, name)
  }

  /** The workload's revisions in the first rows are in the second, unchanged. */
  ghost predicate KeepsRevisions(r: Rows, t: Rows, id: int) {
    forall x :: x in RevisionsOf(r, id) ==> x in t.revisions && t.revisions[x] == r.revisions[x]
  }

  lemma DestroyingStepKeepsRevisions(s: State, l: Label, id: int, name: string)
    requires Orderly(s) && Destroying(s, id, name) && (Next(s, l).job.NoJob? || Destroying(Next(s, l), id, name))
    ensures KeepsRevisions(s.rows, Next(s, l).rows, id)
  {
    forall x | x in RevisionsOf(s.rows, id) ensures x in Next(s, l).rows.revisions {
      if x !in Next(s, l).rows.revisions {
        OnlyDestroyDeletesRows(s, l, id);
      }
    }
    forall x | x in RevisionsOf(s.rows, id) ensures Next(s, l).rows.revisions[x] == s.rows.revisions[x] {
      RevisionsAppendOnly(s, l, x);
    }
  }

  /** What is live while the job runs: what was live before, until its rebuild has
      switched to what it captured. */
  ghost predicate LiveWhile(before: map<string, string>, s: State) {
    s.job.Job? ==> s.live == if s.job.stage.DeletingRow? && !s.dryRun then s.job.captured else before
  }

  lemma DestroyingStepLive(s: State, l: Label, id: int, name: string, before: map<string, string>)
    requires Destroying(s, id, name) && !s.job.stage.Marking? && LiveWhile(before, s)
    requires Next(s, l).job.NoJob? || Destroying(Next(s, l), id, name)
    ensures LiveWhile(before, Next(s, l)) && (Next(s, l).job.NoJob? ==> Next(s, l).live == s.live)
  {
    if l.Begin? || l.Continue? || l.Prune? || l.Fail? {
      HandlersKeepTheSlot(s, l);
    }
  }

  /** From position i on, while the job holds the slot and in the step that ends it, the
      revisions stay, and live is as LiveWhile says. */
  lemma {:induction false} KeptWhileDestroying(dryRun: bool, ls: seq<Label>, i: nat, id: int, name: string)
    requires i <= |ls| && Destroying(Run(Init(dryRun), ls[..i]), id, name)
    requires !Run(Init(dryRun), ls[..i]).job.stage.DeletingRow?
    requires i < |ls| ==> DestroyingSince(Init(dryRun), ls, i, id, name)
    requires Run(Init(dryRun), ls).job.NoJob? || Destroying(Run(Init(dryRun), ls), id, name)
    ensures KeepsRevisions(Run(Init(dryRun), ls[..i]).rows, Run(Init(dryRun), ls).rows, id)
    ensures LiveWhile(Run(Init(dryRun), ls[..i]).live, Run(Init(dryRun), ls))
    decreases |ls|
  {
    var s0 := Init(dryRun);
    if i == |ls| {
      assert ls[..i] == ls;
    } else {
      var before := ls[..|ls| - 1];
      DestroyingPrefix(s0, ls, i, id, name);
      KeptWhileDestroying(dryRun, before, i, id, name);
      KeptOneMore(dryRun, before, ls[|ls| - 1], id, name, Run(s0, ls[..i]));
    }
  }

  lemma DestroyingPrefix(s0: State, ls: seq<Label>, i: nat, id: int, name: string)
    requires DestroyingSince(s0, ls, i, id, name)
    ensures var before := ls[..|ls| - 1];
            && before[..i] == ls[..i] && Destroying(Run(s0, before), id, name)
            && (i < |before| ==> DestroyingSince(s0, before, i, id, name))
  {
    var before := ls[..|ls| - 1];
    assert ls[..|before|] == before;
    assert forall m :: i <= m < |before| ==> before[..m] == ls[..m];
  }

  lemma KeptOneMore(dryRun: bool, before: seq<Label>, l: Label, id: int, name: string, start: State)
    requires var s := Run(Init(dryRun), before);
             && Destroying(s, id, name) && (Next(s, l).job.NoJob? || Destroying(Next(s, l), id, name))
             && KeepsRevisions(start.rows, s.rows, id) && LiveWhile(start.live, s)
    ensures var t := Next(Run(Init(dryRun), before), l);
            KeepsRevisions(start.rows, t.rows, id) && LiveWhile(start.live, t)
            && (t.job.NoJob? ==> t.live == Run(Init(dryRun), before).live)
  {
    AlwaysOrderly(dryRun, before);
    DestroyingStepKeepsRevisions(Run(Init(dryRun), before), l, id, name);
    DestroyingStepLive(Run(Init(dryRun), before), l, id, name, start.live);
  }

  lemma EndKeepsRow(s: State, l: Label, id: int, name: string)
    requires Closed(s) && LeftOut(s) && Destroying(s, id, name) && Next(s, l).job.NoJob?
    ensures DoomedRow(Next(s, l).rows, id, name) && name in Next(s, l).disk.files
    ensures s.job.stage.DeletingRow? && !s.dryRun ==> name !in s.live
  {
    if l.Begin? || l.Continue? || l.Prune? || l.Fail? {
      HandlersKeepTheSlot(s, l);
    }
    assert Next(s, l).rows == s.rows && Next(s, l).disk == s.disk;
  }

  /** In a careful run, a destroy job that was under way at position i and has ended
      without deleting its row (a command failed, the deletion failed, the process died)
      has kept the workload: its row, disabled; its file; and every revision it had then,
      unchanged. What is live changed exactly when the rebuild had switched to something
      else, and then it does not contain the workload. */
  lemma FailedDestroyKeeps(dryRun: bool, ls: seq<Label>, i: nat, id: int, name: string)
    requires Careful(Init(dryRun), ls) && DestroyingSince(Init(dryRun), ls, i, id, name)
    requires !Run(Init(dryRun), ls[..i]).job.stage.DeletingRow? && Run(Init(dryRun), ls).job.NoJob?
    ensures var s, t := Run(Init(dryRun), ls[..i]), Run(Init(dryRun), ls);
            DoomedRow(t.rows, id, name) && name in t.disk.files && KeepsRevisions(s.rows, t.rows, id)
    ensures var s, last, t := Run(Init(dryRun), ls[..i]), Run(Init(dryRun), ls[..|ls| - 1]), Run(Init(dryRun), ls);
            && (t.live == s.live <==>
                !last.job.stage.DeletingRow? || last.dryRun || last.job.captured == s.live)
            && (last.job.stage.DeletingRow? && !last.dryRun ==> t.live == last.job.captured && name !in t.live)
  {
    hide Closed, LeftOut, Careful;
    var s0, before := Init(dryRun), ls[..|ls| - 1];
    DestroyingPrefix(s0, ls, i, id, name);
    KeptWhileDestroying(dryRun, before, i, id, name);
    KeptOneMore(dryRun, before, ls[|ls| - 1], id, name, Run(s0, ls[..i]));
    CarefulPrefix(s0, ls, |before|);
    AlwaysClosed(dryRun, before);
    AlwaysLeftOut(dryRun, before);
    EndKeepsRow(Run(s0, before), ls[|ls| - 1], id, name);
  }

  // ---- The system switched to does not contain the workload ----

  ghost predicate LeftOut(s: State) {
    s.job.Job? && s.job.task.DestroyTask? ==>
      && (s.job.stage.Building? ==> s.job.task.name !in s.job.captured)
      && (s.job.stage.DeletingRow? || s.job.stage.RemovingFile? ==> s.dryRun || s.job.task.name !in s.live)
  }

  lemma ContinueKeepsLeftOut(s: State, id: int, rev: int)
    requires LeftOut(s)
    ensures LeftOut(ContinueStep(s, id, rev))
  {
    hide IndexOf, FlakeOf, Snapshot, MountsAcceptable, ReplaceMounts;
    var t := ContinueStep(s, id, rev);
    assert t.live == s.live && t.dryRun == s.dryRun && (t.job == s.job || t.job.stage.Locking?);
  }

  lemma JobKeepsLeftOut(s: State, l: Label)
    requires Closed(s) && LeftOut(s) && !l.Begin? && !l.Continue?
    ensures LeftOut(Next(s, l))
  {
  }

  lemma StepKeepsLeftOut(s: State, l: Label)
    requires Closed(s) && LeftOut(s)
    ensures LeftOut(Next(s, l))
  {
    match l {
      case Begin(req) => BeginKeepsJob(s, req);
      case Continue(id, rev) => ContinueKeepsLeftOut(s, id, rev);
      case _ => JobKeepsLeftOut(s, l);
    }
  }

  lemma CarefulPrefix(s0: State, ls: seq<Label>, m: nat)
    requires Careful(s0, ls) && m <= |ls|
    ensures Careful(s0, ls[..m])
  {
    forall i | 0 <= i < m
      ensures !Reenables(Run(s0, ls[..m][..i]), ls[..m][i]) && !Recreates(Run(s0, ls[..m][..i]), ls[..m][i])
    {
      assert ls[..m][..i] == ls[..i];
    }
  }

  lemma {:induction false} AlwaysLeftOut(dryRun: bool, ls: seq<Label>)
    requires Careful(Init(dryRun), ls)
    ensures LeftOut(Run(Init(dryRun), ls))
  {
    if ls != [] {
      hide LeftOut, Closed, Careful;
      var before := ls[..|ls| - 1];
      CarefulPrefix(Init(dryRun), ls, |before|);
      AlwaysClosed(dryRun, before);
      AlwaysLeftOut(dryRun, before);
      StepKeepsLeftOut(Run(Init(dryRun), before), ls[|ls| - 1]);
    }
  }

  /** In a careful run, a step that deletes a workload's row finds it already gone from
      the live system, unless the process runs dry. */
  lemma DeletedRowIsNotLive(dryRun: bool, ls: seq<Label>, l: Label, id: int)
    requires Careful(Init(dryRun), ls)
    requires var s := Run(Init(dryRun), ls); id in s.rows.workloads && id !in Next(s, l).rows.workloads
    ensures var s := Run(Init(dryRun), ls); s.dryRun || s.rows.workloads[id].name !in s.live
  {
    var s := Run(Init(dryRun), ls);
    OnlyDestroyDeletesRows(s, l, id);
    AlwaysLeftOut(dryRun, ls);
    AlwaysClosed(dryRun, ls);
  }

  /** After a successful rebuild of a destroy job the workload is not live, exactly when
      the process does not run dry or it was not live before. */
  lemma RebuiltWithoutExactly(s: State)
    requires Closed(s) && LeftOut(s) && At(s, Building) && s.job.task.DestroyTask?
    ensures s.job.task.name !in Next(s, Rebuild(true)).live <==> !s.dryRun || s.job.task.name !in s.live
  {
  }
}
