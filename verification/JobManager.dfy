/** The single-slot job manager under any number of concurrent Start calls, interleaved
    at every atomic operation, with store errors, crashes and restarts. */
module JobManager {
  import opened Base

  datatype JobStatus = Running | Ok | Failed

  datatype JobRow = JobRow(status: JobStatus, exitCode: Option<int>)

  /** What a job function returns. */
  datatype Outcome = Outcome(exitCode: int, err: bool)

  /** Where a Start call, and then the goroutine it spawns, stands before its next
      atomic operation. */
  datatype Pc =
    | Calling
    | Acquired
    | Inserted(job: int)
    | Spawned(job: int)
    | InFunction(job: int)
    | Finishing(job: int, status: JobStatus, code: int)
    | Releasing

  /** What happened to the slot, in order. */
  datatype Event = Acquire(c: nat) | Launch(c: nat, job: int) | Attempt(c: nat, job: int) | Release(c: nat)

  /** up says that the process has recovered its rows and serves calls. */
  datatype State = State(busy: bool, rows: map<int, JobRow>, pcs: map<nat, Pc>, up: bool, log: seq<Event>)

  const INIT := State(false, map[], map[], true, [])

  /** What inserting a job row comes to: it can also be stored and then not read back. */
  datatype Insertion = Stored | NotStored | StoredUnread

  /** Flags say whether the store, or the creation of the log file, succeeds. */
  datatype Label =
    | Call(c: nat)
    | CompareAndSwap(c: nat)
    | CreateJob(c: nat, id: int, result: Insertion)
    | SetLogPath(c: nat, ok: bool)
    | OpenLog(c: nat, ok: bool)
    | Return(c: nat, outcome: Outcome)
    | FinishJob(c: nat, ok: bool)
    | StoreFalse(c: nat)
    | Crash
    | RecoverOne(id: int, ok: bool)
    | Serve

  /** The status and exit code that the goroutine settles on. */
  function Settle(o: Outcome): (JobStatus, int) {
    if o.err then (Failed, if o.exitCode == 0 then -1 else o.exitCode)
    else if o.exitCode != 0 then (Failed, o.exitCode)
    else (Ok, 0)
  }

  function Move(s: State, c: nat, pc: Pc): State {
    s.(pcs := s.pcs[c := pc])
  }

  function CasStep(s: State, c: nat): State {
    if c !in s.pcs || s.pcs[c] != Calling then s
    else if s.busy then s.(pcs := s.pcs - {c})
    else Move(s, c, Acquired).(busy := true, log := s.log + [Acquire(c)])
  }

  function CreateStep(s: State, c: nat, id: int, result: Insertion): State {
    if c !in s.pcs || s.pcs[c] != Acquired || id in s.rows then s
    else
      Move(s, c, if result == Stored then Inserted(id) else Releasing)
        .(rows := if result == NotStored then s.rows else s.rows[id := JobRow(Running, None)])
  }

  function LogPathStep(s: State, c: nat, ok: bool): State {
    if c !in s.pcs || !s.pcs[c].Inserted? then s
    else if !ok then Move(s, c, Releasing)
    else Move(s, c, Spawned(s.pcs[c].job)).(log := s.log + [Launch(c, s.pcs[c].job)])
  }

  function OpenLogStep(s: State, c: nat, ok: bool): State {
    if c !in s.pcs || !s.pcs[c].Spawned? then s
    else if !ok then Move(s, c, Finishing(s.pcs[c].job, Failed, -1))
    else Move(s, c, InFunction(s.pcs[c].job))
  }

  function ReturnStep(s: State, c: nat, outcome: Outcome): State {
    if c !in s.pcs || !s.pcs[c].InFunction? then s
    else Move(s, c, Finishing(s.pcs[c].job, Settle(outcome).0, Settle(outcome).1))
  }

  function FinishStep(s: State, c: nat, ok: bool): State {
    if c !in s.pcs || !s.pcs[c].Finishing? then s
    else
      var pc := s.pcs[c];
      Move(s, c, Releasing).(log := s.log + [Attempt(c, pc.job)],
                             rows := if ok then s.rows[pc.job := JobRow(pc.status, Some(pc.code))] else s.rows)
  }

  function StoreFalseStep(s: State, c: nat): State {
    if c !in s.pcs || s.pcs[c] != Releasing then s
    else s.(busy := false, pcs := s.pcs - {c}, log := s.log + [Release(c)])
  }

  function RecoverStep(s: State, id: int, ok: bool): State {
    if s.up || !ok || id !in s.rows || s.rows[id].status != Running then s
    else s.(rows := s.rows[id := JobRow(Failed, Some(-1))])
  }

  predicate NoneRunning(rows: map<int, JobRow>) {
    forall id :: id in rows ==> rows[id].status != Running
  }

  function Next(s: State, l: Label): State {
    match l
    case Call(c) => if s.up && c !in s.pcs then Move(s, c, Calling) else s
    case CompareAndSwap(c) => CasStep(s, c)
    case CreateJob(c, id, result) => CreateStep(s, c, id, result)
    case SetLogPath(c, ok) => LogPathStep(s, c, ok)
    case OpenLog(c, ok) => OpenLogStep(s, c, ok)
    case Return(c, outcome) => ReturnStep(s, c, outcome)
    case FinishJob(c, ok) => FinishStep(s, c, ok)
    case StoreFalse(c) => StoreFalseStep(s, c)
    case Crash => State(false, s.rows, map[], false, [])
    case RecoverOne(id, ok) => RecoverStep(s, id, ok)
    case Serve => if NoneRunning(s.rows) then s.(up := true) else s
  }

  function Run(ls: seq<Label>): State {
    if ls == [] then INIT else Next(Run(ls[..|ls| - 1]), ls[|ls| - 1])
  }

  // ---- The specification: one job at a time ----

  /** The slot as its users may use it: taken by one call, which may launch one job,
      whose end must be attempted to be recorded before the slot is given back. */
  datatype Slot = Free | Held(c: nat) | Working(c: nat, job: int) | Recorded(c: nat, job: int)

  function Accept(slot: Slot, e: Event): Option<Slot> {
    match (slot, e)
    case (Free, Acquire(c)) => Some(Held(c))
    case (Held(h), Launch(c, job)) => if c == h then Some(Working(c, job)) else None
    case (Working(h, j), Attempt(c, job)) => if c == h && job == j then Some(Recorded(c, job)) else None
    case (Held(h), Release(c)) => if c == h then Some(Free) else None
    case (Recorded(h, _), Release(c)) => if c == h then Some(Free) else None
    case _ => None
  }

  /** The state of the slot after a log; None if some event broke the rules. */
  function After(log: seq<Event>): Option<Slot> {
    if log == [] then Some(Free)
    else
      match After(log[..|log| - 1])
      case None => None
      case Some(slot) => Accept(slot, log[|log| - 1])
  }

  lemma AfterSnoc(log: seq<Event>, e: Event)
    ensures After(log + [e]) == match After(log) { case None => None case Some(slot) => Accept(slot, e) }
  {
    assert (log + [e])[..|log|] == log;
  }

  predicate Holds(s: State, c: nat) {
    c in s.pcs && s.pcs[c] != Calling
  }

  /** The holder's position agrees with the state of the slot. */
  predicate Agrees(s: State, c: nat, slot: Slot) {
    c in s.pcs &&
    match s.pcs[c]
    case Calling => false
    case Acquired => slot == Held(c)
    case Inserted(_) => slot == Held(c)
    case Spawned(job) => slot == Working(c, job)
    case InFunction(job) => slot == Working(c, job)
    case Finishing(job, _, _) => slot == Working(c, job)
    case Releasing => slot == Held(c) || (slot.Recorded? && slot.c == c)
  }

  /** The log obeys the specification, the busy flag is its slot being taken, and nobody
      but the slot's holder is past the compare-and-swap. */
  ghost predicate Refines(s: State) {
    && After(s.log).Some?
    && (s.busy <==> After(s.log).value != Free)
    && (forall c :: Holds(s, c) ==> s.busy && Agrees(s, c, After(s.log).value))
    && (s.busy ==> Holds(s, After(s.log).value.c))
  }

  /** A step of the holder that leaves no event. */
  lemma MoveRefines(s: State, t: State, c: nat)
    requires Refines(s) && t.log == s.log && t.busy == s.busy
    requires t.pcs != s.pcs ==> c in s.pcs && c in t.pcs && t.pcs == s.pcs[c := t.pcs[c]] && Holds(s, c) && Holds(t, c)
                                && (forall slot :: Agrees(s, c, slot) ==> Agrees(t, c, slot))
    ensures Refines(t)
  {
    forall d | Holds(t, d) ensures t.busy && Agrees(t, d, After(t.log).value) {
      assert Holds(s, d);
    }
    if s.busy {
      assert Holds(t, After(s.log).value.c);
    }
  }

  /** A step of the holder that leaves an event and keeps the slot. */
  lemma EventRefines(s: State, t: State, c: nat, e: Event)
    requires Refines(s) && t.log == s.log + [e] && t.busy == s.busy
    requires Holds(s, c) && c in t.pcs && t.pcs == s.pcs[c := t.pcs[c]]
    requires Accept(After(s.log).value, e).Some? && Agrees(t, c, Accept(After(s.log).value, e).value)
    ensures Refines(t)
  {
    AfterSnoc(s.log, e);
    forall d | Holds(t, d) ensures t.busy && Agrees(t, d, After(t.log).value) {
      if d != c {
        assert Holds(s, d);
      }
    }
  }

  lemma ReleaseRefines(s: State, c: nat)
    requires Refines(s) && c in s.pcs && s.pcs[c] == Releasing
    ensures Refines(StoreFalseStep(s, c))
  {
    assert Holds(s, c);
    AfterSnoc(s.log, Release(c));
    assert Agrees(s, c, After(s.log).value);
    assert forall d :: Holds(s, d) ==> Agrees(s, d, After(s.log).value);
    assert forall d :: d != c ==> !Holds(s, d);
    assert forall d :: Holds(StoreFalseStep(s, c), d) ==> Holds(s, d) && d != c;
  }

  lemma CasRefines(s: State, c: nat)
    requires Refines(s)
    ensures Refines(CasStep(s, c))
  {
    AfterSnoc(s.log, Acquire(c));
    var t := CasStep(s, c);
    if c in s.pcs && s.pcs[c] == Calling {
      assert forall d :: Holds(t, d) ==> Holds(s, d) || (d == c && !s.busy);
      if s.busy {
        assert After(s.log).value.c != c;
        assert Holds(t, After(s.log).value.c);
      }
    }
  }

  /** A call that has yet to try for the slot changes nothing for the others. */
  lemma CallRefines(s: State, c: nat)
    requires Refines(s)
    ensures Refines(Next(s, Call(c)))
  {
    var t := Next(s, Call(c));
    assert forall d :: Holds(t, d) <==> Holds(s, d);
    assert forall d, slot :: Holds(s, d) && Agrees(s, d, slot) ==> Agrees(t, d, slot);
  }

  lemma LogPathRefines(s: State, c: nat, ok: bool)
    requires Refines(s)
    ensures Refines(LogPathStep(s, c, ok))
  {
    if c in s.pcs && s.pcs[c].Inserted? {
      assert Holds(s, c);
      if ok {
        EventRefines(s, LogPathStep(s, c, ok), c, Launch(c, s.pcs[c].job));
      } else {
        MoveRefines(s, LogPathStep(s, c, ok), c);
      }
    }
  }

  lemma StepRefines(s: State, l: Label)
    requires Refines(s)
    ensures Refines(Next(s, l))
  {
    match l {
      case Call(c) => CallRefines(s, c);
      case CompareAndSwap(c) => CasRefines(s, c);
      case SetLogPath(c, ok) => LogPathRefines(s, c, ok);
      case FinishJob(c, _) =>
        if c in s.pcs && s.pcs[c].Finishing? {
          assert Holds(s, c);
          EventRefines(s, Next(s, l), c, Attempt(c, s.pcs[c].job));
        }
      case StoreFalse(c) =>
        if c in s.pcs && s.pcs[c] == Releasing {
          ReleaseRefines(s, c);
        }
      case CreateJob(c, _, _) => MoveRefines(s, Next(s, l), c);
      case OpenLog(c, _) => MoveRefines(s, Next(s, l), c);
      case Return(c, _) => MoveRefines(s, Next(s, l), c);
      case Crash => assert forall d :: !Holds(Next(s, l), d);
      case RecoverOne(_, _) => MoveRefines(s, Next(s, l), 0);
      case Serve => MoveRefines(s, Next(s, l), 0);
    }
  }

  /** Every run refines the specification: calls take the slot one at a time, each
      acquisition is released exactly once and, if it launched a job, only after the
      update of that job's row was attempted. */
  lemma {:induction false} AlwaysRefines(ls: seq<Label>)
    ensures Refines(Run(ls))
  {
    if ls != [] {
      AlwaysRefines(ls[..|ls| - 1]);
      StepRefines(Run(ls[..|ls| - 1]), ls[|ls| - 1]);
    }
  }

  /** At most one job function runs at any time. */
  lemma OneFunctionAtATime(ls: seq<Label>, a: nat, b: nat)
    requires var s := Run(ls); a in s.pcs && b in s.pcs && s.pcs[a].InFunction? && s.pcs[b].InFunction?
    ensures a == b
  {
    AlwaysRefines(ls);
    var s := Run(ls);
    assert Holds(s, a) && Holds(s, b);
  }

  // ---- Rows ----

  function JobOf(pc: Pc): Option<int> {
    match pc
    case Inserted(job) => Some(job)
    case Spawned(job) => Some(job)
    case InFunction(job) => Some(job)
    case Finishing(job, _, _) => Some(job)
    case _ => None
  }

  /** The job a call is responsible for still reads running, and a row that does not
      reads ok exactly when its exit code is 0. */
  ghost predicate RowsOk(s: State) {
    && (forall c :: c in s.pcs && JobOf(s.pcs[c]).Some? ==>
          JobOf(s.pcs[c]).value in s.rows && s.rows[JobOf(s.pcs[c]).value].status == Running)
    && (forall c :: c in s.pcs && s.pcs[c].Finishing? ==>
          s.pcs[c].status != Running && (s.pcs[c].status == Ok <==> s.pcs[c].code == 0))
    && (forall id :: id in s.rows && s.rows[id].status != Running ==>
          (s.rows[id].status == Ok <==> s.rows[id].exitCode == Some(0)))
    && (!s.up ==> s.pcs == map[])
  }

  /** Only the slot's holder has a job, so recording its end takes nobody else's row. */
  lemma FinishRowsOk(s: State, c: nat, ok: bool)
    requires Refines(s) && RowsOk(s)
    ensures RowsOk(FinishStep(s, c, ok))
  {
    if c in s.pcs && s.pcs[c].Finishing? {
      assert Holds(s, c);
      assert forall d :: d in s.pcs && d != c ==> !Holds(s, d);
    }
  }

  lemma StepRowsOk(s: State, l: Label)
    requires Refines(s) && RowsOk(s)
    ensures RowsOk(Next(s, l))
  {
    if l.FinishJob? {
      FinishRowsOk(s, l.c, l.ok);
    }
  }

  lemma {:induction false} AlwaysRowsOk(ls: seq<Label>)
    ensures RowsOk(Run(ls))
  {
    if ls != [] {
      AlwaysRefines(ls[..|ls| - 1]);
      AlwaysRowsOk(ls[..|ls| - 1]);
      StepRowsOk(Run(ls[..|ls| - 1]), ls[|ls| - 1]);
    }
  }

  /** A row leaves "running" at most once: after that no step changes it, not even one
      of a later process. */
  lemma SettledRowsStay(ls: seq<Label>, l: Label, id: int)
    requires id in Run(ls).rows && Run(ls).rows[id].status != Running
    ensures id in Next(Run(ls), l).rows && Next(Run(ls), l).rows[id] == Run(ls).rows[id]
  {
    AlwaysRowsOk(ls);
  }

  // ---- What a row reports ----

  predicate Success(o: Outcome) {
    !o.err && o.exitCode == 0
  }

  /** What the function of this job returned, if it has. */
  function Reported(ls: seq<Label>, job: int): Option<Outcome> {
    if ls == [] then None
    else
      var before, l := ls[..|ls| - 1], ls[|ls| - 1];
      var s := Run(before);
      if l.Return? && l.c in s.pcs && s.pcs[l.c] == InFunction(job) then Some(l.outcome) else Reported(before, job)
  }

  /** The end of this job was recorded by the call that ran it. */
  predicate EndRecorded(ls: seq<Label>, job: int) {
    ls != [] &&
    var before, l := ls[..|ls| - 1], ls[|ls| - 1];
    var s := Run(before);
    (l.FinishJob? && l.ok && l.c in s.pcs && s.pcs[l.c].Finishing? && s.pcs[l.c].job == job) || EndRecorded(before, job)
  }

  /** The status and code that a report settles to; without one the log could not be made. */
  function Settlement(report: Option<Outcome>): (JobStatus, int) {
    match report
    case Some(o) => Settle(o)
    case None => (Failed, -1)
  }

  /** A call's position agrees with what its job has reported so far. */
  predicate PcReports(pc: Pc, job: int, report: Option<Outcome>, recorded: bool) {
    JobOf(pc) == Some(job) ==>
      !recorded && if pc.Finishing? then (pc.status, pc.code) == Settlement(report) else report == None
  }

  predicate RowReports(rows: map<int, JobRow>, job: int, report: Option<Outcome>, recorded: bool) {
    if job !in rows then report == None && !recorded
    else if rows[job].status == Running then !recorded
    else
      var settled := if recorded then Settlement(report) else (Failed, -1);
      rows[job] == JobRow(settled.0, Some(settled.1))
  }

  ghost predicate Reports(s: State, job: int, report: Option<Outcome>, recorded: bool) {
    RowReports(s.rows, job, report, recorded)
    && forall c :: c in s.pcs ==> PcReports(s.pcs[c], job, report, recorded)
  }

  /** Steps other than a return and a recorded end report nothing. */
  lemma QuietStepReports(s: State, l: Label, job: int, report: Option<Outcome>, recorded: bool)
    requires RowsOk(s) && Reports(s, job, report, recorded) && !l.Return? && !l.FinishJob?
    ensures Reports(Next(s, l), job, report, recorded)
  {
  }

  lemma ReturnReports(s: State, c: nat, o: Outcome, job: int, report: Option<Outcome>, recorded: bool)
    requires Refines(s) && RowsOk(s) && Reports(s, job, report, recorded)
    ensures var mine := c in s.pcs && s.pcs[c] == InFunction(job);
            Reports(ReturnStep(s, c, o), job, if mine then Some(o) else report, recorded)
  {
    if c in s.pcs && s.pcs[c] == InFunction(job) {
      assert Holds(s, c);
      assert forall d :: d in s.pcs && d != c ==> !Holds(s, d);
    }
  }

  lemma FinishReports(s: State, c: nat, ok: bool, job: int, report: Option<Outcome>, recorded: bool)
    requires Refines(s) && RowsOk(s) && Reports(s, job, report, recorded)
    ensures var mine := ok && c in s.pcs && s.pcs[c].Finishing? && s.pcs[c].job == job;
            Reports(FinishStep(s, c, ok), job, report, recorded || mine)
  {
    if c in s.pcs && s.pcs[c].Finishing? {
      assert Holds(s, c);
      assert forall d :: d in s.pcs && d != c ==> !Holds(s, d);
    }
  }

  lemma {:induction false} AlwaysReports(ls: seq<Label>, job: int)
    ensures Reports(Run(ls), job, Reported(ls, job), EndRecorded(ls, job))
  {
    if ls != [] {
      var before, l := ls[..|ls| - 1], ls[|ls| - 1];
      AlwaysReports(before, job);
      AlwaysRefines(before);
      AlwaysRowsOk(before);
      match l {
        case Return(c, o) => ReturnReports(Run(before), c, o, job, Reported(before, job), EndRecorded(before, job));
        case FinishJob(c, ok) => FinishReports(Run(before), c, ok, job, Reported(before, job), EndRecorded(before, job));
        case _ => QuietStepReports(Run(before), l, job, Reported(before, job), EndRecorded(before, job));
      }
    }
  }

  /** In every run, with any steps of other calls in between: a settled row reads ok, and
      has code 0, exactly when its own function returned without an error and with exit
      code 0 and that end was recorded; what was not recorded can only be a recovered
      failure. */
  lemma OkExactlyOnSuccess(ls: seq<Label>, job: int)
    requires job in Run(ls).rows && Run(ls).rows[job].status != Running
    ensures var row, report := Run(ls).rows[job], Reported(ls, job);
            && (row.status == Ok <==> EndRecorded(ls, job) && report.Some? && Success(report.value))
            && (row.exitCode == Some(0) <==> EndRecorded(ls, job) && report.Some? && Success(report.value))
            && (!EndRecorded(ls, job) ==> row == JobRow(Failed, Some(-1)))
  {
    AlwaysReports(ls, job);
  }

  /** A failed row keeps the exit code that its function returned; an error without one,
      and a log that could not be made, read -1. */
  lemma FailedKeepsCode(ls: seq<Label>, job: int)
    requires job in Run(ls).rows && Run(ls).rows[job].status != Running && EndRecorded(ls, job)
    ensures var row, report := Run(ls).rows[job], Reported(ls, job);
            && (report.None? ==> row.status == Failed && row.exitCode == Some(-1))
            && (report.Some? && report.value.exitCode != 0 ==>
                  row.status == Failed && row.exitCode == Some(report.value.exitCode))
            && (report.Some? && report.value.exitCode == 0 && report.value.err ==>
                  row.status == Failed && row.exitCode == Some(-1))
  {
    AlwaysReports(ls, job);
  }

  // ---- How many rows read running ----

  /** While the process serves, a running row belongs to the call that holds the slot. */
  ghost predicate RunningIsHeld(s: State) {
    s.up ==> forall id :: id in s.rows && s.rows[id].status == Running ==>
      exists c :: c in s.pcs && JobOf(s.pcs[c]) == Some(id)
  }

  /** A step after which a row reads running and no call will settle it: its insert could
      not be read back, its log path could not be stored, or its end could not be
      recorded. */
  predicate Orphans(s: State, l: Label) {
    match l
    case CreateJob(c, id, result) => c in s.pcs && s.pcs[c] == Acquired && id !in s.rows && result == StoredUnread
    case SetLogPath(c, ok) => c in s.pcs && s.pcs[c].Inserted? && !ok
    case FinishJob(c, ok) => c in s.pcs && s.pcs[c].Finishing? && !ok
    case _ => false
  }

  function OrphanedAfter(n: nat, s: State, l: Label): nat {
    if l.Crash? then 0 else if Orphans(s, l) then n + 1 else n
  }

  /** How many rows have been orphaned since the last crash. */
  function Orphaned(ls: seq<Label>): nat {
    if ls == [] then 0 else OrphanedAfter(Orphaned(ls[..|ls| - 1]), Run(ls[..|ls| - 1]), ls[|ls| - 1])
  }

  /** At most one call has a job. */
  lemma OneWorker(s: State, c: nat, d: nat)
    requires Refines(s) && c in s.pcs && d in s.pcs && JobOf(s.pcs[c]).Some? && JobOf(s.pcs[d]).Some?
    ensures c == d
  {
    assert Holds(s, c) && Holds(s, d);
  }

  /** A step keeps running rows held exactly when it orphans none. */
  lemma OrphaningExactly(s: State, l: Label)
    requires Refines(s) && RowsOk(s) && RunningIsHeld(s)
    ensures RunningIsHeld(Next(s, l)) <==> !Orphans(s, l)
  {
    if Orphans(s, l) {
      OrphaningBreaks(s, l);
    } else {
      OtherwiseHeld(s, l);
    }
  }

  lemma OrphaningBreaks(s: State, l: Label)
    requires Refines(s) && RowsOk(s) && Orphans(s, l)
    ensures !RunningIsHeld(Next(s, l))
  {
    var t := Next(s, l);
    var id := if l.CreateJob? then l.id else JobOf(s.pcs[l.c]).value;
    assert Holds(s, l.c);
    assert forall d :: d in s.pcs && d != l.c ==> !Holds(s, d);
    assert t.up && id in t.rows && t.rows[id].status == Running;
    assert forall d :: d in t.pcs ==> JobOf(t.pcs[d]) == None;
  }

  lemma OtherwiseHeld(s: State, l: Label)
    requires RowsOk(s) && RunningIsHeld(s) && !Orphans(s, l)
    ensures RunningIsHeld(Next(s, l))
  {
    var t := Next(s, l);
    forall id | t.up && id in t.rows && t.rows[id].status == Running
      ensures exists c :: c in t.pcs && JobOf(t.pcs[c]) == Some(id)
    {
      if s.up && id in s.rows && s.rows[id].status == Running {
        var c :| c in s.pcs && JobOf(s.pcs[c]) == Some(id);
        assert c in t.pcs && JobOf(t.pcs[c]) == Some(id);
      } else if l.CreateJob? {
        assert JobOf(t.pcs[l.c]) == Some(id);
      }
    }
  }

  /** An orphaned row stays one until the process crashes. */
  lemma OrphanStays(s: State, l: Label)
    requires RowsOk(s) && !RunningIsHeld(s) && !l.Crash?
    ensures !RunningIsHeld(Next(s, l))
  {
    var id :| id in s.rows && s.rows[id].status == Running && !exists c :: c in s.pcs && JobOf(s.pcs[c]) == Some(id);
    var t := Next(s, l);
    assert forall c :: c in s.pcs ==> JobOf(s.pcs[c]) != Some(id);
    assert t.up && id in t.rows && t.rows[id].status == Running;
    assert forall c :: c in t.pcs ==> JobOf(t.pcs[c]) != Some(id);
  }

  /** In every run, every running row of a serving process belongs to the call that holds
      the slot exactly when no row has been orphaned since the last crash. */
  lemma {:induction false} RunningIsHeldExactly(ls: seq<Label>)
    ensures RunningIsHeld(Run(ls)) <==> Orphaned(ls) == 0
  {
    if ls != [] {
      var before, l := ls[..|ls| - 1], ls[|ls| - 1];
      AlwaysRefines(before);
      AlwaysRowsOk(before);
      RunningIsHeldExactly(before);
      if l.Crash? {
      } else if RunningIsHeld(Run(before)) {
        OrphaningExactly(Run(before), l);
      } else {
        OrphanStays(Run(before), l);
      }
    }
  }

  function RunningRows(rows: map<int, JobRow>): set<int> {
    set id | id in rows && rows[id].status == Running
  }

  /** One for the call with a job, if there is one. */
  ghost function Worked(s: State): nat {
    if exists c :: c in s.pcs && JobOf(s.pcs[c]).Some? then 1 else 0
  }

  lemma SameWorked(s: State, t: State)
    requires forall c :: (c in s.pcs && JobOf(s.pcs[c]).Some?) <==> (c in t.pcs && JobOf(t.pcs[c]).Some?)
    ensures Worked(s) == Worked(t)
  {
    if c :| c in s.pcs && JobOf(s.pcs[c]).Some? {
      assert c in t.pcs && JobOf(t.pcs[c]).Some?;
    }
  }

  lemma WorkerLeaves(s: State, t: State, c: nat)
    requires Refines(s) && c in s.pcs && JobOf(s.pcs[c]).Some? && t.pcs == s.pcs[c := Releasing]
    ensures Worked(s) == 1 && Worked(t) == 0
  {
    forall d | d in t.pcs && JobOf(t.pcs[d]).Some? ensures false {
      OneWorker(s, c, d);
    }
  }

  /** Running rows are conserved between the two states, but for the given number of
      orphans: they gain what the calls with a job gain. */
  ghost predicate Conserved(s: State, t: State, orphans: nat) {
    |RunningRows(t.rows)| + Worked(s) == |RunningRows(s.rows)| + Worked(t) + orphans
  }

  lemma LogPathCounted(s: State, c: nat, ok: bool)
    requires Refines(s)
    ensures Conserved(s, LogPathStep(s, c, ok), if Orphans(s, SetLogPath(c, ok)) then 1 else 0)
  {
    var t := LogPathStep(s, c, ok);
    if Orphans(s, SetLogPath(c, ok)) {
      WorkerLeaves(s, t, c);
    } else {
      SameWorked(s, t);
    }
  }

  lemma FinishCounted(s: State, c: nat, ok: bool)
    requires Refines(s) && RowsOk(s)
    ensures Conserved(s, FinishStep(s, c, ok), if Orphans(s, FinishJob(c, ok)) then 1 else 0)
  {
    if c in s.pcs && s.pcs[c].Finishing? {
      WorkerLeaves(s, FinishStep(s, c, ok), c);
      if ok {
        assert RunningRows(FinishStep(s, c, ok).rows) == RunningRows(s.rows) - {s.pcs[c].job};
      }
    }
  }

  /** Steps that change neither a running row nor a call's having a job. */
  lemma OtherStepsCounted(s: State, l: Label)
    requires s.up && !l.CreateJob? && !l.SetLogPath? && !l.FinishJob? && !l.Crash?
    ensures Conserved(s, Next(s, l), 0)
  {
    assert Next(s, l).rows == s.rows;
    SameWorked(s, Next(s, l));
  }

  lemma StepConserves(s: State, l: Label)
    requires Refines(s) && RowsOk(s) && s.up && !l.Crash?
    ensures Conserved(s, Next(s, l), if Orphans(s, l) then 1 else 0)
  {
    match l {
      case CreateJob(c, id, result) => CreateCounted(s, c, id, result);
      case SetLogPath(c, ok) => LogPathCounted(s, c, ok);
      case FinishJob(c, ok) => FinishCounted(s, c, ok);
      case _ => OtherStepsCounted(s, l);
    }
  }

  lemma AcquiredHasNoWorker(s: State, c: nat)
    requires Refines(s) && c in s.pcs && s.pcs[c] == Acquired
    ensures forall d :: d in s.pcs ==> JobOf(s.pcs[d]) == None
  {
    assert Holds(s, c);
    forall d | d in s.pcs && d != c ensures !Holds(s, d) {
    }
  }

  lemma OneMoreRunning(rows: map<int, JobRow>, id: int)
    requires id !in rows
    ensures |RunningRows(rows[id := JobRow(Running, None)])| == |RunningRows(rows)| + 1
  {
    assert RunningRows(rows[id := JobRow(Running, None)]) == RunningRows(rows) + {id};
  }

  lemma CreateCounted(s: State, c: nat, id: int, result: Insertion)
    requires Refines(s)
    ensures Conserved(s, CreateStep(s, c, id, result), if Orphans(s, CreateJob(c, id, result)) then 1 else 0)
  {
    var t := CreateStep(s, c, id, result);
    if c in s.pcs && s.pcs[c] == Acquired && id !in s.rows {
      AcquiredHasNoWorker(s, c);
      OneMoreRunning(s.rows, id);
      assert t.pcs == s.pcs[c := t.pcs[c]];
      assert JobOf(t.pcs[c]).Some? <==> result == Stored;
    }
  }

  lemma ServingStartsClean(s: State, l: Label)
    requires RowsOk(s) && (!s.up || l.Crash?)
    ensures !Orphans(s, l) || l.Crash?
    ensures Next(s, l).up ==> RunningRows(Next(s, l).rows) == {} && Worked(Next(s, l)) == 0
  {
    if Next(s, l).up {
      assert l.Serve? && NoneRunning(s.rows);
      assert forall id :: id !in RunningRows(s.rows);
      assert RunningRows(s.rows) == {};
    }
  }

  /** A serving process has n orphans and no other running row than the one worked on. */
  ghost predicate Counted(s: State, n: nat) {
    if s.up then |RunningRows(s.rows)| == n + Worked(s) else n == 0
  }

  lemma StepCounted(s: State, l: Label, n: nat)
    requires Refines(s) && RowsOk(s) && Counted(s, n)
    ensures Counted(Next(s, l), OrphanedAfter(n, s, l))
  {
    if s.up && !l.Crash? {
      StepConserves(s, l);
    } else {
      ServingStartsClean(s, l);
    }
  }

  /** In every run, a serving process has exactly as many running rows as it has orphaned
      since the last crash, and one more while a call has a job. */
  lemma {:induction false} RunningCount(ls: seq<Label>)
    ensures Counted(Run(ls), Orphaned(ls))
  {
    if ls != [] {
      var before := ls[..|ls| - 1];
      AlwaysRefines(before);
      AlwaysRowsOk(before);
      RunningCount(before);
      StepCounted(Run(before), ls[|ls| - 1], Orphaned(before));
    }
  }

  /** So at most one row reads running exactly when at most one is orphaned or worked on. */
  lemma AtMostOneRunningExactly(ls: seq<Label>)
    requires Run(ls).up
    ensures |RunningRows(Run(ls).rows)| <= 1 <==> Orphaned(ls) + Worked(Run(ls)) <= 1
  {
    RunningCount(ls);
  }

  /** No store operation of the run fails. */
  ghost predicate StoreWorks(ls: seq<Label>) {
    forall i :: 0 <= i < |ls| ==>
      match ls[i]
      case CreateJob(_, _, result) => result == Stored
      case SetLogPath(_, ok) => ok
      case FinishJob(_, ok) => ok
      case _ => true
  }

  lemma {:induction false} WorkingStoreOrphansNothing(ls: seq<Label>)
    requires StoreWorks(ls)
    ensures Orphaned(ls) == 0
  {
    if ls != [] {
      WorkingStoreOrphansNothing(ls[..|ls| - 1]);
    }
  }

  /** Without store errors, at most one row of a serving process reads running. */
  lemma AtMostOneRunning(ls: seq<Label>, a: int, b: int)
    requires StoreWorks(ls) && Run(ls).up
    requires var s := Run(ls);
             a in s.rows && b in s.rows && s.rows[a].status == Running && s.rows[b].status == Running
    ensures a == b
  {
    var s := Run(ls);
    AlwaysRefines(ls);
    WorkingStoreOrphansNothing(ls);
    RunningIsHeldExactly(ls);
    var c :| c in s.pcs && JobOf(s.pcs[c]) == Some(a);
    var d :| d in s.pcs && JobOf(s.pcs[d]) == Some(b);
    OneWorker(s, c, d);
  }

  /** How a call can orphan its row. */
  datatype Mishap = ReadBack | LogPath | Record(outcome: Outcome)

  /** A call from start to end that orphans its row. */
  function Mishandled(s: State, c: nat, id: int, how: Mishap): State {
    var acquired := Next(Next(s, Call(c)), CompareAndSwap(c));
    match how
    case ReadBack => Next(Next(acquired, CreateJob(c, id, StoredUnread)), StoreFalse(c))
    case LogPath => Next(Next(Next(acquired, CreateJob(c, id, Stored)), SetLogPath(c, false)), StoreFalse(c))
    case Record(o) =>
      var running := Next(Next(Next(acquired, CreateJob(c, id, Stored)), SetLogPath(c, true)), OpenLog(c, true));
      Next(Next(Next(running, Return(c, o)), FinishJob(c, false)), StoreFalse(c))
  }

  lemma RecordFails(s: State, c: nat, id: int, o: Outcome)
    requires s.pcs == map[c := Acquired] && s.busy && s.rows == map[] && s.up
    ensures var running := Next(Next(Next(s, CreateJob(c, id, Stored)), SetLogPath(c, true)), OpenLog(c, true));
            var t := Next(Next(Next(running, Return(c, o)), FinishJob(c, false)), StoreFalse(c));
            !t.busy && t.up && t.pcs == map[] && t.rows == map[id := JobRow(Running, None)]
  {
    var inserted := CreateStep(s, c, id, Stored);
    assert Next(s, CreateJob(c, id, Stored)) == inserted && inserted.pcs == map[c := Inserted(id)];
    var running := OpenLogStep(LogPathStep(inserted, c, true), c, true);
    assert Next(Next(inserted, SetLogPath(c, true)), OpenLog(c, true)) == running;
    assert running.pcs == map[c := InFunction(id)] && running.rows == map[id := JobRow(Running, None)];
  }

  lemma MishandledFrees(c: nat, id: int, how: Mishap)
    ensures var t := Mishandled(INIT, c, id, how);
            !t.busy && t.up && t.pcs == map[] && t.rows == map[id := JobRow(Running, None)]
  {
    var acquired := Next(Next(INIT, Call(c)), CompareAndSwap(c));
    assert acquired.pcs == map[c := Acquired] && acquired.busy && acquired.rows == map[] && acquired.up;
    if how.Record? {
      RecordFails(acquired, c, id, how.outcome);
    }
  }

  /** Each of the three is enough for two running rows: the slot is free again, and the
      next call's row is running too. */
  lemma StoreErrorLeavesTwoRunning(id: int, later: int, how: Mishap)
    requires id != later
    ensures var freed := Mishandled(INIT, 0, id, how);
            var s := Next(Next(Next(freed, Call(1)), CompareAndSwap(1)), CreateJob(1, later, Stored));
            && id in s.rows && later in s.rows
            && s.rows[id].status == Running && s.rows[later].status == Running
  {
    MishandledFrees(0, id, how);
  }

  // ---- The program ----

  /** The manager's own state, with an atomic flag, and the job rows it updates. */
  class Manager {
    var busy: bool
    var rows: map<int, JobRow>

    constructor (rows: map<int, JobRow>)
      ensures !busy && this.rows == rows
    {
      busy, this.rows := false, rows;
    }

    /** RecoverStale: every row left running by a previous process becomes failed with
        exit code -1, up to the update that fails; no other row changes. */
    method RecoverStale(fault: nat) returns (ok: bool)
      modifies `rows
      ensures ok <==> fault >= |set id | id in old(rows) && old(rows)[id].status == Running|
      ensures ok ==> NoneRunning(rows)
      ensures rows.Keys == old(rows).Keys
      ensures forall id :: id in rows ==>
                rows[id] == old(rows)[id] || (old(rows)[id].status == Running && rows[id] == JobRow(Failed, Some(-1)))
    {
      var running := set id | id in rows && rows[id].status == Running;
      var done := 0;
      while running != {}
        invariant rows.Keys == old(rows).Keys && running <= rows.Keys
        invariant done <= fault
        invariant done + |running| == |set id | id in old(rows) && old(rows)[id].status == Running|
        invariant forall id :: id in rows && id in running ==> rows[id] == old(rows)[id] && rows[id].status == Running
        invariant forall id :: id in rows && id !in running ==> rows[id].status != Running
        invariant forall id :: id in rows ==>
                    rows[id] == old(rows)[id] || (old(rows)[id].status == Running && rows[id] == JobRow(Failed, Some(-1)))
        decreases |running|
      {
        if done == fault {
          return false;
        }
        assert (forall id :: id !in running) ==> running == {};
        var id :| id in running;
        rows := rows[id := JobRow(Failed, Some(-1))];
        running := running - {id};
        done := done + 1;
      }
      ok := true;
    }

    /** Start and the goroutine it spawns, run without another call in between. Faults
        say which store operation, or the creation of the log file, fails. */
    method StartAndRun(id: int, outcome: Outcome, faults: Faults) returns (job: Option<int>)
      modifies `busy, `rows
      ensures rows == RowsAfter(old(busy), old(rows), id, outcome, faults) && busy == old(busy)
      ensures old(busy) || faults.insert ==> rows == old(rows)
      ensures !old(busy) && !faults.insert ==>
                && id in rows && (forall k :: k != id ==> (k in rows <==> k in old(rows)))
                && (forall k :: k != id && k in rows && k in old(rows) ==> rows[k] == old(rows)[k])
                && if faults.readBack || faults.path || faults.finish then rows[id].status == Running
                   else
                     && (rows[id].status == Ok <==> !faults.openLog && !outcome.err && outcome.exitCode == 0)
                     && rows[id].status != Running
                     && rows[id].exitCode == Some(if faults.openLog || (outcome.err && outcome.exitCode == 0) then -1
                                                  else outcome.exitCode)
      ensures job == if old(busy) || faults.insert || faults.readBack || faults.path then None else Some(id)
    {
      job := None;
      if busy {
        return;
      }
      busy := true;
      if faults.insert {
        busy := false;
        return;
      }
      rows := rows[id := JobRow(Running, None)];
      if faults.readBack {
        busy := false;
        return;
      }
      if faults.path {
        busy := false;
        return;
      }
      job := Some(id);
      var status, code := Failed, -1;
      if !faults.openLog {
        status := Ok;
        code := outcome.exitCode;
        if outcome.err {
          status := Failed;
          if code == 0 {
            code := -1;
          }
        } else if code != 0 {
          status := Failed;
        }
      }
      if !faults.finish {
        rows := rows[id := JobRow(status, Some(code))];
      }
      busy := false;
    }
  }

  /** Which operation of a call fails. */
  datatype Faults = Faults(insert: bool, readBack: bool, path: bool, openLog: bool, finish: bool)

  /** The rows after one call from start to end: none of its own when the slot is taken
      or the insert fails; one that still reads running when it cannot be read back, or
      its log path or its end cannot be recorded; and otherwise one with the outcome, or
      failed with code -1 when the log cannot be created. */
  function RowsAfter(busy: bool, rows: map<int, JobRow>, id: int, outcome: Outcome, faults: Faults): map<int, JobRow> {
    if busy || faults.insert then rows
    else if faults.readBack || faults.path || faults.finish then rows[id := JobRow(Running, None)]
    else if faults.openLog then rows[id := JobRow(Failed, Some(-1))]
    else rows[id := JobRow(Settle(outcome).0, Some(Settle(outcome).1))]
  }

  function InsertionOf(faults: Faults): Insertion {
    if faults.insert then NotStored else if faults.readBack then StoredUnread else Stored
  }

  function Begin(s: State, c: nat, id: int, faults: Faults): State {
    Next(Next(Next(Next(s, Call(c)), CompareAndSwap(c)), CreateJob(c, id, InsertionOf(faults))), SetLogPath(c, !faults.path))
  }

  function Conclude(s: State, c: nat, o: Outcome, faults: Faults): State {
    Next(Next(Next(Next(s, OpenLog(c, !faults.openLog)), Return(c, o)), FinishJob(c, !faults.finish)), StoreFalse(c))
  }

  lemma Begun(s: State, c: nat, id: int, faults: Faults)
    requires s.up && c !in s.pcs && id !in s.rows
    ensures var b := Begin(s, c, id, faults);
            if s.busy then b.rows == s.rows && b.pcs == s.pcs && b.busy
            else
              && b.busy && c in b.pcs && b.pcs == s.pcs[c := b.pcs[c]]
              && b.pcs[c] == (if InsertionOf(faults) != Stored || faults.path then Releasing else Spawned(id))
              && b.rows == if faults.insert then s.rows else s.rows[id := JobRow(Running, None)]
  {
    var called := Move(s, c, Calling);
    assert called.pcs - {c} == s.pcs;
  }

  lemma ConcludeSpawned(b: State, c: nat, id: int, o: Outcome, faults: Faults)
    requires c in b.pcs && b.pcs[c] == Spawned(id) && id in b.rows && b.rows[id] == JobRow(Running, None)
    ensures var t := Conclude(b, c, o, faults);
            && !t.busy && t.pcs == b.pcs - {c}
            && t.rows == if faults.finish then b.rows
                         else if faults.openLog then b.rows[id := JobRow(Failed, Some(-1))]
                         else b.rows[id := JobRow(Settle(o).0, Some(Settle(o).1))]
  {
    var withLog := OpenLogStep(b, c, !faults.openLog);
    var returned := ReturnStep(withLog, c, o);
    assert returned.pcs[c].Finishing? && returned.rows == b.rows;
    var finished := FinishStep(returned, c, !faults.finish);
    assert finished.pcs[c] == Releasing && finished.pcs - {c} == b.pcs - {c};
  }

  lemma ConcludeReleasing(b: State, c: nat, o: Outcome, faults: Faults)
    requires c in b.pcs && b.pcs[c] == Releasing
    ensures var t := Conclude(b, c, o, faults); !t.busy && t.pcs == b.pcs - {c} && t.rows == b.rows
  {
  }

  /** The machine's eight operations of one call, taken in a row, come to the same; the
      ones that a failure has made meaningless change nothing. */
  lemma CallInOnePiece(s: State, c: nat, id: int, o: Outcome, faults: Faults)
    requires s.up && c !in s.pcs && id !in s.rows
    ensures var t := Conclude(Begin(s, c, id, faults), c, o, faults);
            t.rows == RowsAfter(s.busy, s.rows, id, o, faults) && t.busy == s.busy && t.pcs == s.pcs
  {
    Begun(s, c, id, faults);
    var b := Begin(s, c, id, faults);
    if s.busy {
      ConcludeNothing(b, c, o, faults);
    } else {
      assert b.pcs - {c} == s.pcs;
      if InsertionOf(faults) != Stored || faults.path {
        ConcludeReleasing(b, c, o, faults);
      } else {
        ConcludeSpawned(b, c, id, o, faults);
      }
    }
  }

  lemma ConcludeNothing(b: State, c: nat, o: Outcome, faults: Faults)
    requires c !in b.pcs
    ensures Conclude(b, c, o, faults) == b
  {
  }
}
