/** Revisions: append-only, strictly increasing, and the file on disk is the newest one. */
module History {
  import opened Base
  import opened HostPorts
  import opened Rows
  import opened Machine

  /** Every workload has a revision, and every revision a workload. */
  ghost predicate Owned(r: Rows) {
    && (forall id :: id in r.workloads ==> RevisionsOf(r, id) != {})
    && (forall x :: x in r.revisions ==> r.revisions[x].workload in r.workloads)
  }

  ghost predicate SavePcOk(s: State) {
    && (s.pc.CreateRow? ==> !WorkloadNameTaken(s.rows, s.pc.name))
    && (s.pc.SaveRow? ==> s.pc.id in s.rows.workloads)
  }

  ghost predicate Basic(s: State) {
    UniqueWorkloads(s.rows) && Owned(s.rows) && SavePcOk(s)
  }

  /** What the handler under way has written for a name without having recorded it. */
  predicate MidSave(s: State, id: int) {
    s.pc.SaveRow? && s.pc.id == id
  }

  /** The file of that name, if there is one, holds the newest revision of its workload,
      or what the save under way is about to record. */
  ghost predicate FileIsNewest(s: State, name: string) {
    && (forall id :: id in s.rows.workloads && s.rows.workloads[id].name == name && name in s.disk.files ==>
          && Latest(s.rows, id).Some? && Latest(s.rows, id).value in s.rows.revisions
          && s.disk.files[name] ==
             if MidSave(s, id) then s.pc.content else s.rows.revisions[Latest(s.rows, id).value].content)
    && (s.pc.CreateRow? && s.pc.name == name && name in s.disk.files ==> s.disk.files[name] == s.pc.content)
  }

  /** A save or restore of this workload stops between its file and its revision. */
  predicate Tears(s: State, l: Label, name: string) {
    (l.Fail? || l.Restart?) && s.pc.SaveRow?
    && s.pc.id in s.rows.workloads && s.rows.workloads[s.pc.id].name == name
  }

  ghost predicate NeverTorn(s0: State, ls: seq<Label>, name: string) {
    forall i :: 0 <= i < |ls| ==> !Tears(Run(s0, ls[..i]), ls[i], name)
  }

  // ---- How the latest revision moves ----

  lemma RevisionsAfterInsert(r: Rows, rev: int, wid: int, content: string, ports: string, id: int)
    requires Fresh(rev, r.revisions)
    ensures var t := InsertRevision(r, rev, wid, content, ports);
            RevisionsOf(t, id) == if id == wid then RevisionsOf(r, id) + {rev} else RevisionsOf(r, id)
  {
  }

  /** A fresh revision is the latest of its workload, and nobody else's. */
  lemma LatestAfterInsert(r: Rows, rev: int, wid: int, content: string, ports: string, id: int)
    requires Fresh(rev, r.revisions)
    ensures var t := InsertRevision(r, rev, wid, content, ports);
            Latest(t, id) == if id == wid then Some(rev) else Latest(r, id)
  {
    RevisionsAfterInsert(r, rev, wid, content, ports, id);
  }

  lemma LatestAfterCreate(r: Rows, newId: int, rev: int, name: string, typ: string, content: string, ports: string, id: int)
    requires Owned(r) && Fresh(newId, r.workloads) && Fresh(rev, r.revisions)
    ensures var t := InsertWorkload(r, newId, rev, name, typ, content, ports);
            && RevisionsOf(t, id) == (if id == newId then {rev} else RevisionsOf(r, id))
            && Latest(t, id) == if id == newId then Some(rev) else Latest(r, id)
  {
    var t := InsertWorkload(r, newId, rev, name, typ, content, ports);
    forall x ensures x in RevisionsOf(t, id) <==> x in if id == newId then {rev} else RevisionsOf(r, id) {
    }
  }

  lemma LatestAfterDelete(r: Rows, gone: int, id: int)
    requires id != gone
    ensures RevisionsOf(DeleteWorkload(r, gone), id) == RevisionsOf(r, id)
    ensures Latest(DeleteWorkload(r, gone), id) == Latest(r, id)
  {
    assert RevisionsOf(DeleteWorkload(r, gone), id) == RevisionsOf(r, id);
  }

  /** Statements that touch neither table of revisions leave the latest alone. */
  lemma LatestDependsOnRevisions(r: Rows, t: Rows, id: int)
    requires r.revisions == t.revisions
    ensures RevisionsOf(r, id) == RevisionsOf(t, id) && Latest(r, id) == Latest(t, id)
  {
    assert RevisionsOf(r, id) == RevisionsOf(t, id);
  }

  // ---- Preservation ----

  /** Steps that change neither the names of workloads nor any revision. */
  ghost predicate SameTables(r: Rows, t: Rows) {
    && t.revisions == r.revisions && t.workloads.Keys == r.workloads.Keys
    && forall id :: id in r.workloads ==> t.workloads[id].name == r.workloads[id].name
  }

  lemma SameTablesKeepBasic(r: Rows, t: Rows)
    requires SameTables(r, t) && UniqueWorkloads(r) && Owned(r)
    ensures UniqueWorkloads(t) && Owned(t)
    ensures forall name :: WorkloadNameTaken(t, name) <==> WorkloadNameTaken(r, name)
  {
    forall id | id in t.workloads ensures RevisionsOf(t, id) != {} {
      LatestDependsOnRevisions(r, t, id);
      assert t.workloads[id].name == r.workloads[id].name;
    }
    forall name ensures WorkloadNameTaken(t, name) <==> WorkloadNameTaken(r, name) {
      if id :| id in r.workloads && r.workloads[id].name == name {
        assert t.workloads[id].name == name;
      }
    }
  }

  lemma BeginSameTables(s: State, req: Request)
    ensures SameTables(s.rows, BeginStep(s, req).rows)
  {
  }

  lemma BeginKeepsBasic(s: State, req: Request)
    requires Basic(s)
    ensures Basic(BeginStep(s, req))
  {
    BeginSameTables(s, req);
    SameTablesKeepBasic(s.rows, BeginStep(s, req).rows);
    BeginPc(s, req);
  }

  lemma BeginPc(s: State, req: Request)
    requires SavePcOk(s)
    ensures var t := BeginStep(s, req);
            && (t.pc.CreateRow? ==> !WorkloadNameTaken(s.rows, t.pc.name))
            && (t.pc.SaveRow? ==> t.pc.id in s.rows.workloads)
  {
  }

  lemma InsertWorkloadKeepsBasic(s: State, id: int, rev: int)
    requires Basic(s) && s.pc.CreateRow?
    ensures Basic(ContinueStep(s, id, rev))
  {
    var t := ContinueStep(s, id, rev);
    if t != s {
      forall k | k in t.rows.workloads ensures RevisionsOf(t.rows, k) != {} {
        LatestAfterCreate(s.rows, id, rev, s.pc.name, s.pc.typ, s.pc.content, s.pc.ports, k);
      }
    }
  }

  lemma InsertRevisionKeepsBasic(s: State, id: int, rev: int)
    requires Basic(s) && s.pc.SaveRow?
    ensures Basic(ContinueStep(s, id, rev))
  {
    var t := ContinueStep(s, id, rev);
    if t != s {
      forall k | k in t.rows.workloads ensures RevisionsOf(t.rows, k) != {} {
        RevisionsAfterInsert(s.rows, rev, s.pc.id, s.pc.content, s.pc.ports, k);
      }
    }
  }

  lemma ContinueKeepsBasic(s: State, id: int, rev: int)
    requires Basic(s)
    ensures Basic(ContinueStep(s, id, rev))
  {
    if s.pc.CreateRow? {
      InsertWorkloadKeepsBasic(s, id, rev);
    } else if s.pc.SaveRow? {
      InsertRevisionKeepsBasic(s, id, rev);
    } else {
      var t := ContinueStep(s, id, rev);
      assert SameTables(s.rows, t.rows);
      SameTablesKeepBasic(s.rows, t.rows);
    }
  }

  /** Rows that only marks and a deletion with its cascades have changed: what is left of
      a workload is all of it. */
  ghost predicate Shrinks(r: Rows, t: Rows) {
    && t.workloads.Keys <= r.workloads.Keys
    && (forall k :: k in t.workloads ==>
          t.workloads[k].name == r.workloads[k].name && RevisionsOf(t, k) == RevisionsOf(r, k))
    && (forall x :: x in t.revisions ==>
          && x in r.revisions && t.revisions[x] == r.revisions[x]
          && (r.revisions[x].workload in r.workloads ==> r.revisions[x].workload in t.workloads))
  }

  lemma MarkShrinks(r: Rows, id: int, rev: int)
    ensures Shrinks(r, MarkApplied(r, id, rev))
  {
    forall k ensures RevisionsOf(MarkApplied(r, id, rev), k) == RevisionsOf(r, k) {
      LatestDependsOnRevisions(r, MarkApplied(r, id, rev), k);
    }
  }

  lemma DeleteShrinks(r: Rows, gone: int)
    ensures Shrinks(r, DeleteWorkload(r, gone))
  {
    forall k | k != gone ensures RevisionsOf(DeleteWorkload(r, gone), k) == RevisionsOf(r, k) {
      LatestAfterDelete(r, gone, k);
    }
  }

  lemma CommitShrinks(s: State, id: int)
    ensures Shrinks(s.rows, CommitStep(s, id).rows) && CommitStep(s, id).pc == s.pc
  {
    if s.job.Job? {
      match s.job.stage {
        case Marking(left) => MarkShrinks(s.rows, id, if id in left then left[id] else 0);
        case DeletingRow => DeleteShrinks(s.rows, if s.job.task.DestroyTask? then s.job.task.id else 0);
        case _ =>
      }
    }
  }

  lemma CommitKeepsBasic(s: State, id: int)
    requires Basic(s)
    ensures Basic(CommitStep(s, id))
  {
    CommitShrinks(s, id);
    assert s.pc == Idle || CommitStep(s, id) == s;
  }

  lemma StepKeepsBasic(s: State, l: Label)
    requires Basic(s)
    ensures Basic(Next(s, l))
  {
    match l {
      case Begin(req) => BeginKeepsBasic(s, req);
      case Continue(id, rev) => ContinueKeepsBasic(s, id, rev);
      case Commit(id) => CommitKeepsBasic(s, id);
      case _ =>
    }
  }

  /** In every run whatsoever, every workload has at least one revision. */
  lemma {:induction false} AlwaysBasic(dryRun: bool, ls: seq<Label>)
    ensures Basic(Run(Init(dryRun), ls))
  {
    if ls != [] {
      AlwaysBasic(dryRun, ls[..|ls| - 1]);
      StepKeepsBasic(Run(Init(dryRun), ls[..|ls| - 1]), ls[|ls| - 1]);
    }
  }

  // ---- The file is the newest revision ----

  lemma SaveKeepsFile(s: State, id: int, content: string, ports: string, name: string)
    requires Basic(s) && FileIsNewest(s, name) && s.pc == Idle
    ensures FileIsNewest(BeginSave(s, id, content, ports), name)
  {
    if id in s.rows.workloads {
      var t := BeginSave(s, id, content, ports);
      forall k | k in t.rows.workloads && t.rows.workloads[k].name == name && name in t.disk.files
        ensures Latest(t.rows, k).Some? && Latest(t.rows, k).value in t.rows.revisions
      {
        LatestDependsOnRevisions(s.rows, t.rows, k);
        assert RevisionsOf(t.rows, k) != {};
      }
    }
  }

  lemma CreateKeepsFile(s: State, n: string, typ: string, content: string, ports: seq<HostPort>, name: string)
    requires Basic(s) && FileIsNewest(s, name) && s.pc == Idle
    ensures FileIsNewest(BeginCreate(s, n, typ, content, ports), name)
  {
  }

  lemma OtherBeginsKeepFile(s: State, req: Request, name: string)
    requires Basic(s) && FileIsNewest(s, name) && s.pc == Idle
    requires !req.Create? && !req.Save? && !req.Restore?
    ensures FileIsNewest(BeginStep(s, req), name)
  {
    var t := BeginStep(s, req);
    BeginSameTables(s, req);
    BeginLeavesFiles(s, req);
    forall k ensures Latest(t.rows, k) == Latest(s.rows, k) {
      LatestDependsOnRevisions(s.rows, t.rows, k);
    }
  }

  lemma BeginLeavesFiles(s: State, req: Request)
    requires s.pc == Idle && !req.Create? && !req.Save? && !req.Restore?
    ensures var t := BeginStep(s, req);
            t.disk.files == s.disk.files && !t.pc.SaveRow? && !t.pc.CreateRow?
  {
  }

  lemma BeginKeepsFile(s: State, req: Request, name: string)
    requires Basic(s) && FileIsNewest(s, name)
    ensures FileIsNewest(BeginStep(s, req), name)
  {
    if s.pc == Idle {
      match req {
        case Create(n, typ, content, ports) => CreateKeepsFile(s, n, typ, content, ports, name);
        case Save(id, content, ports) => SaveKeepsFile(s, id, content, FormatFrom(ports), name);
        case Restore(id, rev) =>
          if rev in RevisionsOf(s.rows, id) {
            SaveKeepsFile(s, id, s.rows.revisions[rev].content, s.rows.revisions[rev].ports, name);
          }
        case _ => OtherBeginsKeepFile(s, req, name);
      }
    }
  }

  lemma InsertWorkloadKeepsFile(s: State, id: int, rev: int, name: string)
    requires Basic(s) && FileIsNewest(s, name) && s.pc.CreateRow?
    ensures FileIsNewest(ContinueStep(s, id, rev), name)
  {
    var t := ContinueStep(s, id, rev);
    if t != s {
      forall k | k in t.rows.workloads
        ensures Latest(t.rows, k) == if k == id then Some(rev) else Latest(s.rows, k)
      {
        LatestAfterCreate(s.rows, id, rev, s.pc.name, s.pc.typ, s.pc.content, s.pc.ports, k);
      }
    }
  }

  lemma InsertRevisionKeepsFile(s: State, id: int, rev: int, name: string)
    requires Basic(s) && FileIsNewest(s, name) && s.pc.SaveRow?
    ensures FileIsNewest(ContinueStep(s, id, rev), name)
  {
    var t := ContinueStep(s, id, rev);
    if t != s {
      forall k ensures Latest(t.rows, k) == if k == s.pc.id then Some(rev) else Latest(s.rows, k) {
        LatestAfterInsert(s.rows, rev, s.pc.id, s.pc.content, s.pc.ports, k);
      }
    }
  }

  lemma ContinueKeepsFile(s: State, id: int, rev: int, name: string)
    requires Basic(s) && FileIsNewest(s, name)
    ensures FileIsNewest(ContinueStep(s, id, rev), name)
  {
    hide IndexOf, FlakeOf, Snapshot, MountsAcceptable, ReplaceMounts;
    if s.pc.CreateRow? {
      InsertWorkloadKeepsFile(s, id, rev, name);
    } else if s.pc.SaveRow? {
      InsertRevisionKeepsFile(s, id, rev, name);
    } else {
      var t := ContinueStep(s, id, rev);
      assert SameTables(s.rows, t.rows);
      forall k ensures Latest(t.rows, k) == Latest(s.rows, k) {
        LatestDependsOnRevisions(s.rows, t.rows, k);
      }
    }
  }

  lemma CommitFiles(s: State, id: int)
    ensures var t := CommitStep(s, id);
            t.disk.files.Keys <= s.disk.files.Keys && forall n :: n in t.disk.files ==> t.disk.files[n] == s.disk.files[n]
  {
  }

  lemma CommitKeepsFile(s: State, id: int, name: string)
    requires Basic(s) && FileIsNewest(s, name)
    ensures FileIsNewest(CommitStep(s, id), name)
  {
    var t := CommitStep(s, id);
    CommitShrinks(s, id);
    CommitFiles(s, id);
    forall k | k in t.rows.workloads ensures Latest(t.rows, k) == Latest(s.rows, k) {
      assert RevisionsOf(t.rows, k) == RevisionsOf(s.rows, k);
    }
  }

  lemma StepKeepsFile(s: State, l: Label, name: string)
    requires Basic(s) && FileIsNewest(s, name) && !Tears(s, l, name)
    ensures FileIsNewest(Next(s, l), name)
  {
    match l {
      case Begin(req) => BeginKeepsFile(s, req, name);
      case Continue(id, rev) => ContinueKeepsFile(s, id, rev, name);
      case Commit(id) => CommitKeepsFile(s, id, name);
      case _ =>
    }
  }

  lemma NeverTornPrefix(s0: State, ls: seq<Label>, m: nat, name: string)
    requires NeverTorn(s0, ls, name) && m <= |ls|
    ensures NeverTorn(s0, ls[..m], name)
  {
    forall i | 0 <= i < m ensures !Tears(Run(s0, ls[..m][..i]), ls[..m][i], name) {
      assert ls[..m][..i] == ls[..i];
    }
  }

  /** In every run that never cuts a save of this workload between its file and its
      revision, the file on disk is the newest revision. */
  lemma {:induction false} FileAlwaysNewest(dryRun: bool, ls: seq<Label>, name: string)
    requires NeverTorn(Init(dryRun), ls, name)
    ensures FileIsNewest(Run(Init(dryRun), ls), name)
  {
    if ls != [] {
      var before := ls[..|ls| - 1];
      NeverTornPrefix(Init(dryRun), ls, |before|, name);
      FileAlwaysNewest(dryRun, before, name);
      AlwaysBasic(dryRun, before);
      StepKeepsFile(Run(Init(dryRun), before), ls[|ls| - 1], name);
    }
  }

  // ---- Append-only ----

  /** No step changes a revision, and a new one gets an id above all present ones. */
  lemma RevisionsAppendOnly(s: State, l: Label, x: int)
    requires x in Next(s, l).rows.revisions
    ensures x in s.rows.revisions ==> Next(s, l).rows.revisions[x] == s.rows.revisions[x]
    ensures x !in s.rows.revisions ==> Fresh(x, s.rows.revisions)
  {
    hide IndexOf, FlakeOf, Snapshot, MountsAcceptable, ReplaceMounts, Captured;
    match l {
      case Begin(req) => BeginSameTables(s, req);
      case Commit(id) => CommitShrinks(s, id);
      case _ =>
    }
  }

  /** A completed save: one more revision, the newest, with this content and these
      ports; the file holds the content; every other revision and file is as before. */
  lemma SaveMakesNewest(s: State, id: int, content: string, ports: seq<HostPort>, rev: int)
    requires s.pc == Idle && id in s.rows.workloads && Fresh(rev, s.rows.revisions)
    ensures var t := Run(s, [Begin(Save(id, content, ports)), Continue(0, rev)]);
            && t.rows == s.rows.(revisions := s.rows.revisions[rev := Revision(id, content, FormatFrom(ports))])
            && t.disk == s.disk.(files := s.disk.files[s.rows.workloads[id].name := content])
            && Latest(t.rows, id) == Some(rev) && t.pc == Idle && t.job == s.job && t.live == s.live
  {
    RunTwo(s, Begin(Save(id, content, ports)), Continue(0, rev));
    LatestAfterInsert(s.rows, rev, id, content, FormatFrom(ports), id);
  }

  /** A completed restore of revision r: the newest content and ports are r's, and r and
      all other revisions are still there, unchanged. */
  lemma RestoreMakesNewest(s: State, id: int, r: int, rev: int)
    requires Basic(s) && s.pc == Idle && r in RevisionsOf(s.rows, id) && Fresh(rev, s.rows.revisions)
    ensures var t := Run(s, [Begin(Restore(id, r)), Continue(0, rev)]);
            && Latest(t.rows, id) == Some(rev) && rev > r
            && t.rows.revisions == s.rows.revisions[rev := s.rows.revisions[r]]
            && t.disk.files == s.disk.files[s.rows.workloads[id].name := s.rows.revisions[r].content]
            && t.rows.workloads == s.rows.workloads && t.pc == Idle
  {
    RunTwo(s, Begin(Restore(id, r)), Continue(0, rev));
    LatestAfterInsert(s.rows, rev, id, s.rows.revisions[r].content, s.rows.revisions[r].ports, id);
  }

  /** A save cut between its file and its revision leaves the file at the newest
      revision exactly when it was saving that revision's content again. */
  lemma TornSaveExactly(s: State, id: int, content: string, ports: seq<HostPort>)
    requires Basic(s) && s.pc == Idle && id in s.rows.workloads
    ensures var t := Run(s, [Begin(Save(id, content, ports)), Fail]);
            && t == s.(disk := s.disk.(files := s.disk.files[s.rows.workloads[id].name := content]))
            && (FileIsNewest(t, s.rows.workloads[id].name) <==>
                content == s.rows.revisions[Latest(s.rows, id).value].content)
  {
    RunTwo(s, Begin(Save(id, content, ports)), Fail);
    assert RevisionsOf(s.rows, id) != {};
    var t := Run(s, [Begin(Save(id, content, ports)), Fail]);
    assert t.rows == s.rows;
  }
}
