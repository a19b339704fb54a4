/** The applied badge is sound: a workload that reads applied and is live runs exactly
    the content of its newest revision. */
module AppliedBadge {
  import opened Base
  import opened Names
  import opened HostPorts
  import opened Rows
  import opened Machine
  import opened History

  /** content is that of a revision of the workload with id bound or above, or the save
      under way is about to record it. */
  ghost predicate Backed(s: State, id: int, content: string, bound: int) {
    || (exists x :: x in RevisionsOf(s.rows, id) && bound <= x && s.rows.revisions[x].content == content)
    || (MidSave(s, id) && s.pc.content == content)
  }

  /** Marks refer to revisions of their workload. */
  ghost predicate MarkOwned(r: Rows, id: int, rev: int) {
    id in r.workloads && rev in RevisionsOf(r, id)
  }

  ghost predicate MarksOwned(r: Rows, marks: map<int, int>) {
    forall id :: id in marks ==> MarkOwned(r, id, marks[id])
  }

  ghost predicate AppliedOwned(r: Rows) {
    forall id :: id in r.workloads && r.workloads[id].applied.Some? ==> MarkOwned(r, id, r.workloads[id].applied.value)
  }

  /** The snapshots that handlers and jobs carry. */
  ghost predicate SnapshotsOwned(s: State) {
    && (s.pc.ApplyPrune? ==> MarksOwned(s.rows, s.pc.snapshot))
    && (s.job.Job? && s.job.task.ApplyTask? ==>
          MarksOwned(s.rows, s.job.task.snapshot) && !s.job.stage.DeletingRow? && !s.job.stage.RemovingFile?)
    && (s.job.Job? && s.job.stage.Marking? ==>
          s.job.task.ApplyTask? && s.job.stage.left.Items <= s.job.task.snapshot.Items)
  }

  ghost predicate Owns(s: State) {
    AppliedOwned(s.rows) && SnapshotsOwned(s)
  }

  /** What is live is backed from the applied mark on. */
  ghost predicate LiveBacked(s: State, name: string) {
    name in s.live ==>
      forall id :: id in s.rows.workloads && s.rows.workloads[id].name == name && s.rows.workloads[id].applied.Some? ==>
        Backed(s, id, s.live[name], s.rows.workloads[id].applied.value)
  }

  /** What was captured for the rebuild is backed from the applied mark on, and from the
      mark that the job would set. */
  ghost predicate CaptureBacked(s: State, name: string) {
    At(s, Building) && name in s.job.captured ==>
      forall id :: id in s.rows.workloads && s.rows.workloads[id].name == name ==>
        && (s.rows.workloads[id].applied.Some? ==>
              Backed(s, id, s.job.captured[name], s.rows.workloads[id].applied.value))
        && (s.job.task.ApplyTask? && id in s.job.task.snapshot ==>
              Backed(s, id, s.job.captured[name], s.job.task.snapshot[id]))
  }

  /** What is live is backed from the marks on that the commit has yet to set. */
  ghost predicate MarkingBacked(s: State, name: string) {
    s.job.Job? && s.job.stage.Marking? && name in s.live ==>
      forall id :: id in s.rows.workloads && s.rows.workloads[id].name == name && id in s.job.stage.left ==>
        Backed(s, id, s.live[name], s.job.stage.left[id])
  }

  ghost predicate Sound(s: State, name: string) {
    Owns(s) && LiveBacked(s, name) && CaptureBacked(s, name) && MarkingBacked(s, name)
  }

  // ---- Marks stay owned ----

  lemma BeginKeepsApplied(s: State, req: Request)
    ensures var t := BeginStep(s, req);
            && t.rows.workloads.Keys == s.rows.workloads.Keys && t.rows.revisions == s.rows.revisions
            && (forall id :: id in s.rows.workloads ==>
                  t.rows.workloads[id].applied == s.rows.workloads[id].applied
                  && t.rows.workloads[id].name == s.rows.workloads[id].name)
            && t.job == s.job && t.live == s.live && t.dryRun == s.dryRun && (t.pc.ApplyPrune? ==> t.pc == s.pc)
            && (s.pc != Idle ==> t == s)
  {
  }

  lemma BeginKeepsOwns(s: State, req: Request)
    requires Owns(s)
    ensures Owns(BeginStep(s, req))
  {
    var t := BeginStep(s, req);
    BeginKeepsApplied(s, req);
    SameRevisions(s.rows, t.rows);
  }

  lemma SameRevisions(r: Rows, t: Rows)
    requires r.revisions == t.revisions && r.workloads.Keys == t.workloads.Keys
    ensures forall id, rev :: MarkOwned(r, id, rev) <==> MarkOwned(t, id, rev)
  {
  }

  lemma InsertKeepsOwns(s: State, id: int, rev: int)
    requires Basic(s) && Owns(s) && (s.pc.CreateRow? || s.pc.SaveRow?)
    ensures Owns(ContinueStep(s, id, rev))
  {
    var t := ContinueStep(s, id, rev);
    forall k, x | MarkOwned(s.rows, k, x) ensures MarkOwned(t.rows, k, x) {
    }
    forall k | k in t.rows.workloads && t.rows.workloads[k].applied.Some?
      ensures MarkOwned(t.rows, k, t.rows.workloads[k].applied.value)
    {
      assert MarkOwned(s.rows, k, s.rows.workloads[k].applied.value);
    }
  }

  lemma SnapshotOwned(r: Rows)
    requires EnabledHaveRevisions(r)
    ensures MarksOwned(r, Snapshot(r))
  {
  }

  /** Continuing a handler that inserts no revision. */
  lemma OtherContinues(s: State, id: int, rev: int)
    requires !s.pc.CreateRow? && !s.pc.SaveRow?
    ensures var t := ContinueStep(s, id, rev);
            && t.rows.workloads == s.rows.workloads && t.rows.revisions == s.rows.revisions
            && (t.pc.ApplyPrune? ==> t.pc == s.pc || (EnabledHaveRevisions(s.rows) && t.pc.snapshot == Snapshot(s.rows)))
            && (t.job == s.job
                || (s.pc.ApplyPrune? && t.job == Job(ApplyTask(s.pc.mode, s.pc.snapshot), Locking, map[]))
                || (s.pc.DestroyStart? && t.job == Job(DestroyTask(s.pc.id, s.pc.name), Locking, map[])))
  {
    hide IndexOf, FlakeOf, Snapshot, MountsAcceptable, ReplaceMounts;
  }

  lemma ContinueKeepsOwns(s: State, id: int, rev: int)
    requires Basic(s) && Owns(s)
    ensures Owns(ContinueStep(s, id, rev))
  {
    if s.pc.CreateRow? || s.pc.SaveRow? {
      InsertKeepsOwns(s, id, rev);
    } else {
      OtherContinues(s, id, rev);
      SameRevisions(s.rows, ContinueStep(s, id, rev).rows);
      if EnabledHaveRevisions(s.rows) {
        SnapshotOwned(s.rows);
      }
    }
  }

  lemma CommitKeepsOwns(s: State, id: int)
    requires Owns(s)
    ensures Owns(CommitStep(s, id))
  {
    var t := CommitStep(s, id);
    if s.job.Job? && s.job.stage.Marking? {
      SameRevisions(s.rows, t.rows);
      if id in s.job.stage.left {
        assert (id, s.job.stage.left[id]) in s.job.stage.left.Items;
        assert MarkOwned(s.rows, id, s.job.stage.left[id]);
      }
    } else {
      forall k, x | MarkOwned(s.rows, k, x) && k in t.rows.workloads ensures MarkOwned(t.rows, k, x) {
      }
    }
  }

  lemma StepKeepsOwns(s: State, l: Label)
    requires Basic(s) && Owns(s)
    ensures Owns(Next(s, l))
  {
    match l {
      case Begin(req) => BeginKeepsOwns(s, req);
      case Continue(id, rev) => ContinueKeepsOwns(s, id, rev);
      case Commit(id) => CommitKeepsOwns(s, id);
      case _ =>
    }
  }

  // ---- Backing persists ----

  /** Unless it tears a save, a step leaves backed what was backed. */
  lemma BackingPersists(s: State, l: Label, id: int, content: string, bound: int)
    requires Basic(s) && id in s.rows.workloads && id in Next(s, l).rows.workloads
    requires Backed(s, id, content, bound) && !Tears(s, l, s.rows.workloads[id].name)
    requires bound in RevisionsOf(s.rows, id)
    ensures Backed(Next(s, l), id, content, bound)
  {
    var t := Next(s, l);
    if x :| x in RevisionsOf(s.rows, id) && bound <= x && s.rows.revisions[x].content == content {
      RevisionStays(s, l, id, x);
      assert x in RevisionsOf(t.rows, id);
    } else if l.Continue? && t != s {
      assert l.rev in RevisionsOf(t.rows, id);
    } else if l.Commit? {
      CommitShrinks(s, l.id);
    }
  }

  lemma RevisionStays(s: State, l: Label, id: int, x: int)
    requires id in Next(s, l).rows.workloads && x in RevisionsOf(s.rows, id)
    ensures x in Next(s, l).rows.revisions && Next(s, l).rows.revisions[x] == s.rows.revisions[x]
  {
    hide IndexOf, FlakeOf, Snapshot, MountsAcceptable, ReplaceMounts;
    match l {
      case Begin(req) => BeginSameTables(s, req);
      case Commit(k) => CommitShrinks(s, k);
      case _ =>
    }
  }

  /** Every workload of the second table with a mark was in the first with that mark. */
  ghost predicate NoNewMarks(r: Rows, t: Rows) {
    && (forall id :: id in t.workloads && t.workloads[id].applied.Some? ==>
          id in r.workloads && r.workloads[id].applied == t.workloads[id].applied)
    && (forall id :: id in t.workloads && id in r.workloads ==> t.workloads[id].name == r.workloads[id].name)
  }

  lemma StepsMarkNothing(s: State, l: Label)
    requires l.Commit? ==> !(s.job.Job? && s.job.stage.Marking?)
    requires Basic(s)
    ensures NoNewMarks(s.rows, Next(s, l).rows)
  {
    hide IndexOf, FlakeOf, Snapshot, MountsAcceptable, ReplaceMounts;
    match l {
      case Begin(req) => BeginKeepsApplied(s, req);
      case Commit(id) => CommitShrinks(s, id);
      case _ =>
    }
  }

  lemma LiveStaysBacked(s: State, l: Label, name: string)
    requires Basic(s) && Sound(s, name) && !Tears(s, l, name)
    requires Next(s, l).live == s.live && NoNewMarks(s.rows, Next(s, l).rows)
    ensures LiveBacked(Next(s, l), name)
  {
    var t := Next(s, l);
    if name in t.live {
      forall id | id in t.rows.workloads && t.rows.workloads[id].name == name && t.rows.workloads[id].applied.Some?
        ensures Backed(t, id, t.live[name], t.rows.workloads[id].applied.value)
      {
        assert MarkOwned(s.rows, id, s.rows.workloads[id].applied.value);
        BackingPersists(s, l, id, s.live[name], s.rows.workloads[id].applied.value);
      }
    }
  }

  lemma CaptureStaysBacked(s: State, l: Label, name: string)
    requires Basic(s) && Sound(s, name) && !Tears(s, l, name)
    requires At(Next(s, l), Building) && Next(s, l).job == s.job && NoNewMarks(s.rows, Next(s, l).rows)
    ensures CaptureBacked(Next(s, l), name)
  {
    var t := Next(s, l);
    if name in t.job.captured {
      forall id | id in t.rows.workloads && t.rows.workloads[id].name == name
        ensures t.rows.workloads[id].applied.Some? ==>
                  Backed(t, id, t.job.captured[name], t.rows.workloads[id].applied.value)
        ensures t.job.task.ApplyTask? && id in t.job.task.snapshot ==>
                  Backed(t, id, t.job.captured[name], t.job.task.snapshot[id])
      {
        if t.rows.workloads[id].applied.Some? {
          assert MarkOwned(s.rows, id, s.rows.workloads[id].applied.value);
          BackingPersists(s, l, id, s.job.captured[name], s.rows.workloads[id].applied.value);
        }
        if t.job.task.ApplyTask? && id in t.job.task.snapshot {
          assert MarkOwned(s.rows, id, s.job.task.snapshot[id]);
          BackingPersists(s, l, id, s.job.captured[name], s.job.task.snapshot[id]);
        }
      }
    }
  }

  lemma MarkingStaysBacked(s: State, l: Label, name: string, left: map<int, int>)
    requires Basic(s) && Sound(s, name) && !Tears(s, l, name)
    requires Next(s, l).live == s.live && s.job.Job? && Next(s, l).job.Job?
    requires s.job.stage.Marking? && left.Items <= s.job.stage.left.Items && Next(s, l).job.stage == Marking(left)
    requires forall id :: id in s.rows.workloads && id in Next(s, l).rows.workloads ==>
               Next(s, l).rows.workloads[id].name == s.rows.workloads[id].name
    ensures MarkingBacked(Next(s, l), name)
  {
    var t := Next(s, l);
    if name in t.live {
      forall id | id in t.rows.workloads && t.rows.workloads[id].name == name && id in left
        ensures Backed(t, id, t.live[name], left[id])
      {
        assert (id, left[id]) in s.job.stage.left.Items;
        assert (id, left[id]) in s.job.task.snapshot.Items;
        assert MarkOwned(s.rows, id, left[id]);
        BackingPersists(s, l, id, s.live[name], left[id]);
      }
    }
  }

  /** Steps of handlers, and of the job other than its update, rebuild and marks. */
  lemma QuietStepKeepsSound(s: State, l: Label, name: string)
    requires Basic(s) && Sound(s, name) && !Tears(s, l, name)
    requires !l.Rebuild? && !l.Update? && !(l.Commit? && s.job.Job? && s.job.stage.Marking?)
    ensures Sound(Next(s, l), name)
  {
    var t := Next(s, l);
    StepKeepsOwns(s, l);
    StepsMarkNothing(s, l);
    QuietJob(s, l);
    LiveStaysBacked(s, l, name);
    if At(t, Building) {
      CaptureStaysBacked(s, l, name);
    }
    if t.job.Job? && t.job.stage.Marking? {
      MarkingStaysBacked(s, l, name, t.job.stage.left);
    }
  }

  lemma QuietJob(s: State, l: Label)
    requires !l.Rebuild? && !l.Update? && !(l.Commit? && s.job.Job? && s.job.stage.Marking?)
    ensures var t := Next(s, l);
            && t.live == s.live
            && (t.job.Job? && (t.job.stage.Building? || t.job.stage.Marking?) ==> t.job == s.job)
  {
    if l.Begin? {
      BeginKeepsApplied(s, l.req);
    }
  }

  /** What a capture takes for a named workload is its file, which is the newest
      revision or the save under way: backed from any mark on. */
  lemma FileBacked(s: State, id: int, name: string, bound: int)
    requires Basic(s) && FileIsNewest(s, name)
    requires id in s.rows.workloads && s.rows.workloads[id].name == name && name in s.disk.files
    requires bound in RevisionsOf(s.rows, id)
    ensures Backed(s, id, s.disk.files[name], bound)
  {
    var x := Latest(s.rows, id).value;
    assert x in RevisionsOf(s.rows, id) && bound <= x;
  }

  lemma UpdateKeepsSound(s: State, ok: bool, name: string)
    requires Basic(s) && Sound(s, name) && FileIsNewest(s, name)
    ensures Sound(UpdateStep(s, ok), name)
  {
    var t := UpdateStep(s, ok);
    if t != s && ok && name in t.job.captured {
      forall id | id in t.rows.workloads && t.rows.workloads[id].name == name
        ensures t.rows.workloads[id].applied.Some? ==>
                  Backed(t, id, t.job.captured[name], t.rows.workloads[id].applied.value)
        ensures t.job.task.ApplyTask? && id in t.job.task.snapshot ==>
                  Backed(t, id, t.job.captured[name], t.job.task.snapshot[id])
      {
        if t.rows.workloads[id].applied.Some? {
          assert MarkOwned(s.rows, id, s.rows.workloads[id].applied.value);
          FileBacked(s, id, name, s.rows.workloads[id].applied.value);
        }
        if t.job.task.ApplyTask? && id in t.job.task.snapshot {
          assert MarkOwned(s.rows, id, s.job.task.snapshot[id]);
          FileBacked(s, id, name, s.job.task.snapshot[id]);
        }
      }
    }
  }

  lemma RebuildKeepsSound(s: State, ok: bool, name: string)
    requires Basic(s) && Sound(s, name) && !s.dryRun
    ensures Sound(RebuildStep(s, ok), name)
  {
  }

  lemma MarkKeepsSound(s: State, id: int, name: string)
    requires Basic(s) && Sound(s, name) && s.job.Job? && s.job.stage.Marking?
    ensures Sound(CommitStep(s, id), name)
  {
    var t := CommitStep(s, id);
    CommitKeepsOwns(s, id);
    if t.job.Job? && t != s {
      var rev := s.job.stage.left[id];
      assert (s.job.stage.left - {id}).Items <= s.job.stage.left.Items;
      assert t.live == s.live;
      assert Next(s, Commit(id)) == t;
      MarkingStaysBacked(s, Commit(id), name, s.job.stage.left - {id});
      if name in t.live {
        forall k | k in t.rows.workloads && t.rows.workloads[k].name == name && t.rows.workloads[k].applied.Some?
          ensures Backed(t, k, t.live[name], t.rows.workloads[k].applied.value)
        {
          assert RevisionsOf(t.rows, k) == RevisionsOf(s.rows, k);
          if k == id {
            assert Backed(s, id, s.live[name], rev);
          } else {
            assert Backed(s, k, s.live[name], s.rows.workloads[k].applied.value);
          }
        }
      }
    }
  }

  lemma StepKeepsSound(s: State, l: Label, name: string)
    requires Basic(s) && Sound(s, name) && FileIsNewest(s, name) && !s.dryRun && !Tears(s, l, name)
    ensures Sound(Next(s, l), name)
  {
    match l {
      case Update(ok) => UpdateKeepsSound(s, ok, name);
      case Rebuild(ok) => RebuildKeepsSound(s, ok, name);
      case Commit(id) =>
        if s.job.Job? && s.job.stage.Marking? {
          MarkKeepsSound(s, id, name);
        } else {
          QuietStepKeepsSound(s, l, name);
        }
      case _ => QuietStepKeepsSound(s, l, name);
    }
  }

  /** The process never runs dry. */
  ghost predicate NeverDry(ls: seq<Label>) {
    forall i :: 0 <= i < |ls| ==> ls[i] != Restart(true)
  }

  lemma StepStaysWet(s: State, l: Label)
    requires !s.dryRun && l != Restart(true)
    ensures !Next(s, l).dryRun
  {
    if l.Begin? {
      BeginKeepsApplied(s, l.req);
    }
  }

  lemma {:induction false} AlwaysSound(ls: seq<Label>, name: string)
    requires NeverTorn(Init(false), ls, name) && NeverDry(ls)
    ensures Sound(Run(Init(false), ls), name) && !Run(Init(false), ls).dryRun
  {
    if ls != [] {
      var before := ls[..|ls| - 1];
      NeverTornPrefix(Init(false), ls, |before|, name);
      AlwaysSound(before, name);
      AlwaysBasic(false, before);
      FileAlwaysNewest(false, before, name);
      StepKeepsSound(Run(Init(false), before), ls[|ls| - 1], name);
      StepStaysWet(Run(Init(false), before), ls[|ls| - 1]);
    }
  }

  /** The badge rule of the detail page. */
  ghost predicate ReadsApplied(r: Rows, id: int) {
    id in r.workloads && r.workloads[id].applied.Some? && r.workloads[id].applied == Latest(r, id)
  }

  /** In every run without dry running that never cuts a save of this workload between
      its file and its revision: whenever no such save is under way and the workload
      reads applied and is live, what runs is its newest revision, whatever saves,
      restores, disables, destroys, crashes and refused applies came in between. */
  lemma AppliedBadgeSound(ls: seq<Label>, id: int)
    requires NeverDry(ls)
    requires var s := Run(Init(false), ls);
             && ReadsApplied(s.rows, id) && s.rows.workloads[id].name in s.live && !MidSave(s, id)
             && NeverTorn(Init(false), ls, s.rows.workloads[id].name)
    ensures var s := Run(Init(false), ls);
            s.live[s.rows.workloads[id].name] == s.rows.revisions[Latest(s.rows, id).value].content
  {
    var s := Run(Init(false), ls);
    var name := s.rows.workloads[id].name;
    AlwaysSound(ls, name);
    var bound := Latest(s.rows, id).value;
    assert Backed(s, id, s.live[name], bound);
    var x :| x in RevisionsOf(s.rows, id) && bound <= x && s.rows.revisions[x].content == s.live[name];
    assert x == bound;
  }

  // ---- Exactly when the two provisos matter ----

  /** An apply whose three commands succeed, up to the mark of one workload. */
  ghost function ApplyAndMark(orphans: seq<string>, id: int): seq<Label> {
    [Begin(Apply(Switch))] + ApplySteps(orphans) + [Lock(true), Update(true), Rebuild(true), Commit(id)]
  }

  lemma CommandsRebuild(s: State, snapshot: map<int, int>)
    requires s.job == Job(ApplyTask(Switch, snapshot), Locking, map[])
    ensures RebuildStep(UpdateStep(LockStep(s, true), true), true)
         == s.(live := if s.dryRun then s.live else Captured(s.disk),
               job := Job(ApplyTask(Switch, snapshot), Marking(snapshot), Captured(s.disk)))
  {
    var updated := UpdateStep(LockStep(s, true), true);
    assert updated == s.(job := Job(ApplyTask(Switch, snapshot), Building, Captured(s.disk)));
  }

  /** The three commands and one mark, from a job that has just started. */
  lemma CommandsMark(s: State, snapshot: map<int, int>, id: int)
    requires s.pc == Idle && s.job == Job(ApplyTask(Switch, snapshot), Locking, map[]) && id in snapshot
    ensures var t := Run(s, [Lock(true), Update(true), Rebuild(true), Commit(id)]);
            && t.rows == MarkApplied(s.rows, id, snapshot[id])
            && t.live == if s.dryRun then s.live else Captured(s.disk)
  {
    RunFour(s, Lock(true), Update(true), Rebuild(true), Commit(id));
    CommandsRebuild(s, snapshot);
  }

  /** It marks the newest revision; live becomes what the files hold, or stays as it was
      in a dry run. */
  lemma ApplyMarks(s: State, orphans: seq<string>, id: int)
    requires s.pc == Idle && s.job.NoJob? && ListsOrphans(orphans, s) && EnabledHaveRevisions(s.rows)
    requires id in s.rows.workloads && s.rows.workloads[id].enabled
    ensures var t := Run(s, ApplyAndMark(orphans, id));
            && t.rows == MarkApplied(s.rows, id, Latest(s.rows, id).value)
            && ReadsApplied(t.rows, id)
            && t.live == if s.dryRun then s.live else Captured(s.disk.(index := IndexOf(s.rows)))
  {
    RunConcat(s, [Begin(Apply(Switch))] + ApplySteps(orphans), [Lock(true), Update(true), Rebuild(true), Commit(id)]);
    ApplyReachesTheSlot(s, Switch, orphans);
    var disk := Regenerated(s).disk;
    var started := TakeSlot(Regenerated(s), ApplyTask(Switch, Snapshot(s.rows)));
    CommandsMark(started, Snapshot(s.rows), id);
    assert Captured(disk) == Captured(s.disk.(index := IndexOf(s.rows)));
    LatestDependsOnRevisions(s.rows, MarkApplied(s.rows, id, Latest(s.rows, id).value), id);
  }

  /** A save of this content that is cut between its file and its revision, and then a
      successful apply: the badge reads applied, and it is right exactly when the
      content was the newest revision's anyway. */
  lemma TornSaveBadgeExactly(s: State, orphans: seq<string>, id: int, content: string, ports: seq<HostPort>)
    requires s.pc == Idle && s.job.NoJob? && !s.dryRun && ListsOrphans(orphans, s) && EnabledHaveRevisions(s.rows)
    requires id in s.rows.workloads && s.rows.workloads[id].enabled && SectionOf(s.rows.workloads[id].typ).Some?
    ensures var t := Run(s, [Begin(Save(id, content, ports)), Fail] + ApplyAndMark(orphans, id));
            var name := s.rows.workloads[id].name;
            && ReadsApplied(t.rows, id) && name in t.live
            && (t.live[name] == t.rows.revisions[Latest(t.rows, id).value].content
                <==> content == s.rows.revisions[Latest(s.rows, id).value].content)
  {
    hide IndexOf, FormatFrom, ApplyAndMark, SectionOf, ContinueStep, CommitStep;
    var name := s.rows.workloads[id].name;
    RunConcat(s, [Begin(Save(id, content, ports)), Fail], ApplyAndMark(orphans, id));
    RunTwo(s, Begin(Save(id, content, ports)), Fail);
    var torn := s.(disk := s.disk.(files := s.disk.files[name := content]));
    ApplyMarks(torn, orphans, id);
    NamedByIndexOf(s.rows, name);
    LatestDependsOnRevisions(s.rows, MarkApplied(s.rows, id, Latest(s.rows, id).value), id);
  }

  /** A successful apply in a dry run marks the newest revision while live stays as it
      was: the badge of a live workload is right exactly when live had that content. */
  lemma DryRunBadgeExactly(s: State, orphans: seq<string>, id: int)
    requires s.pc == Idle && s.job.NoJob? && s.dryRun && ListsOrphans(orphans, s) && EnabledHaveRevisions(s.rows)
    requires id in s.rows.workloads && s.rows.workloads[id].enabled && s.rows.workloads[id].name in s.live
    ensures var t := Run(s, ApplyAndMark(orphans, id));
            var name := s.rows.workloads[id].name;
            && ReadsApplied(t.rows, id) && name in t.live
            && (t.live[name] == t.rows.revisions[Latest(t.rows, id).value].content
                <==> s.live[name] == s.rows.revisions[Latest(s.rows, id).value].content)
  {
    ApplyMarks(s, orphans, id);
    LatestDependsOnRevisions(s.rows, MarkApplied(s.rows, id, Latest(s.rows, id).value), id);
  }
}
