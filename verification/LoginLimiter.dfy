/** The sliding-window login limiter. It keeps only the failures that can still matter;
    it is compared with the full list of failures since the last clear. */
module LoginLimiterModule {

  /** The entries that are younger than the cutoff. */
  function Recent(ts: seq<int>, cutoff: int): seq<int> {
    if ts == [] then []
    else
      var last := ts[|ts| - 1];
      Recent(ts[..|ts| - 1], cutoff) + if last > cutoff then [last] else []
  }

  predicate Ordered(ts: seq<int>) {
    forall i, j :: 0 <= i <= j < |ts| ==> ts[i] <= ts[j]
  }

  lemma {:induction false} AllOld(ts: seq<int>, cutoff: int)
    requires forall i :: 0 <= i < |ts| ==> ts[i] <= cutoff
    ensures Recent(ts, cutoff) == []
  {
    if ts != [] {
      AllOld(ts[..|ts| - 1], cutoff);
    }
  }

  /** On ordered times, dropping the old ones cuts off a prefix. */
  lemma {:induction false} RecentIsSuffix(ts: seq<int>, cutoff: int)
    requires Ordered(ts)
    ensures |Recent(ts, cutoff)| <= |ts| && Recent(ts, cutoff) == ts[|ts| - |Recent(ts, cutoff)|..]
    ensures forall i :: 0 <= i < |ts| - |Recent(ts, cutoff)| ==> ts[i] <= cutoff
    ensures forall i :: |ts| - |Recent(ts, cutoff)| <= i < |ts| ==> ts[i] > cutoff
  {
    if ts != [] && ts[|ts| - 1] > cutoff {
      var before := ts[..|ts| - 1];
      RecentIsSuffix(before, cutoff);
      var k := |before| - |Recent(before, cutoff)|;
      assert before[k..] + [ts[|ts| - 1]] == ts[k..];
    } else {
      AllOld(ts, cutoff);
    }
  }

  /** A prefix of old entries never counts. */
  lemma {:induction false} OldPrefixIsIgnored(old_: seq<int>, ts: seq<int>, cutoff: int)
    requires forall i :: 0 <= i < |old_| ==> old_[i] <= cutoff
    ensures Recent(old_ + ts, cutoff) == Recent(ts, cutoff)
    decreases |ts|, |old_|
  {
    if ts != [] {
      assert (old_ + ts)[..|old_ + ts| - 1] == old_ + ts[..|ts| - 1];
      OldPrefixIsIgnored(old_, ts[..|ts| - 1], cutoff);
    } else if old_ != [] {
      assert old_ + ts == old_ && (old_ + ts)[..|old_| - 1] == old_[..|old_| - 1] + [];
      OldPrefixIsIgnored(old_[..|old_| - 1], [], cutoff);
    }
  }

  // ---- The stored lists against the full history ----

  type Failures = map<string, seq<int>>

  function Of(m: Failures, ip: string): seq<int> {
    if ip in m then m[ip] else []
  }

  /** What is stored, every failure since the last clear, and the latest time seen. */
  datatype Books = Books(fails: Failures, history: Failures, clock: int)

  /** Stored lists are non-empty; each is what remains of that client's full, ordered
      history after entries that had left the window by the clock were dropped. */
  ghost predicate Represents(b: Books, window: int) {
    && (forall ip :: ip in b.fails ==> b.fails[ip] != [])
    && forall ip :: Represented(b, ip, window)
  }

  predicate Represented(b: Books, ip: string, window: int) {
    RepresentsOne(Of(b.fails, ip), Of(b.history, ip), window, b.clock)
  }

  predicate RepresentsOne(kept: seq<int>, all: seq<int>, window: int, clock: int) {
    && Ordered(all) && (forall i :: 0 <= i < |all| ==> all[i] <= clock)
    && |kept| <= |all| && kept == all[|all| - |kept|..]
    && forall i :: 0 <= i < |all| - |kept| ==> all[i] <= clock - window
  }

  /** The pruned list counts the same as the full one, now and at any later time. */
  lemma PruningIsInvisible(kept: seq<int>, all: seq<int>, window: int, clock: int, now: int)
    requires RepresentsOne(kept, all, window, clock) && clock <= now
    ensures Recent(kept, now - window) == Recent(all, now - window)
    ensures RepresentsOne(Recent(kept, now - window), all, window, now)
  {
    var dropped := all[..|all| - |kept|];
    assert all == dropped + kept;
    OldPrefixIsIgnored(dropped, kept, now - window);
    RecentIsSuffix(all, now - window);
  }

  function Pruned(fails: Failures, ip: string, cutoff: int): Failures {
    var kept := Recent(Of(fails, ip), cutoff);
    if kept == [] then fails - {ip} else fails[ip := kept]
  }

  function Failed(m: Failures, ip: string, now: int): Failures {
    m[ip := Of(m, ip) + [now]]
  }

  lemma FailedAppends(m: Failures, ip: string, now: int)
    ensures Of(Failed(m, ip, now), ip) == Of(m, ip) + [now]
  {
  }

  /** One operation of the limiter and the time at which it takes its lock. */
  datatype Op = Blocked(ip: string, now: int) | Fail(ip: string, now: int) | Clear(ip: string, now: int)

  function Step(b: Books, op: Op, window: int): Books {
    match op
    case Blocked(ip, now) => Books(Pruned(b.fails, ip, now - window), b.history, now)
    case Fail(ip, now) => Books(Failed(Pruned(b.fails, ip, now - window), ip, now), Failed(b.history, ip, now), now)
    case Clear(ip, now) => Books(b.fails - {ip}, b.history - {ip}, now)
  }

  /** The number that blocked compares with the cap is the number of all the client's
      failures since its last clear that lie inside the window. */
  lemma PrunedCountIsFullCount(b: Books, ip: string, window: int, now: int)
    requires Represents(b, window) && b.clock <= now
    ensures Recent(Of(b.fails, ip), now - window) == Recent(Of(b.history, ip), now - window)
    ensures RepresentsOne(Recent(Of(b.fails, ip), now - window), Of(b.history, ip), window, now)
  {
    assert Represented(b, ip, window);
    PruningIsInvisible(Of(b.fails, ip), Of(b.history, ip), window, b.clock, now);
  }

  lemma StepRepresentsOther(b: Books, op: Op, window: int, other: string)
    requires Represents(b, window) && b.clock <= op.now && other != op.ip
    ensures Represented(Step(b, op, window), other, window)
  {
    assert Represented(b, other, window);
    var t := Step(b, op, window);
    assert Of(t.fails, other) == Of(b.fails, other) && Of(t.history, other) == Of(b.history, other);
  }

  lemma OneMoreRepresents(kept: seq<int>, all: seq<int>, window: nat, now: int)
    requires RepresentsOne(kept, all, window, now)
    ensures RepresentsOne(kept + [now], all + [now], window, now)
  {
    assert kept + [now] == (all + [now])[|all| - |kept|..];
  }

  lemma StepRepresentsOwn(b: Books, op: Op, window: nat)
    requires Represents(b, window) && b.clock <= op.now
    ensures Represented(Step(b, op, window), op.ip, window)
  {
    PrunedCountIsFullCount(b, op.ip, window, op.now);
    var kept, all := Recent(Of(b.fails, op.ip), op.now - window), Of(b.history, op.ip);
    var t := Step(b, op, window);
    match op {
      case Blocked(ip, _) => assert Of(t.fails, ip) == kept && Of(t.history, ip) == all;
      case Fail(ip, now) =>
        OneMoreRepresents(kept, all, window, now);
        assert Of(t.fails, ip) == kept + [now] && Of(t.history, ip) == all + [now];
      case Clear(ip, _) => assert Of(t.fails, ip) == [] && Of(t.history, ip) == [];
    }
  }

  lemma StepRepresents(b: Books, op: Op, window: nat)
    requires Represents(b, window) && b.clock <= op.now
    ensures Represents(Step(b, op, window), window)
  {
    var t := Step(b, op, window);
    forall ip ensures Represented(t, ip, window) {
      if ip == op.ip {
        StepRepresentsOwn(b, op, window);
      } else {
        StepRepresentsOther(b, op, window, ip);
      }
    }
  }

  // ---- The program ----

  class LoginLimiter {
    const max: int
    const window: nat
    var fails: Failures
    ghost var history: Failures
    ghost var clock: int

    ghost function Abs(): Books
      reads this
    {
      Books(fails, history, clock)
    }

    ghost predicate Valid()
      reads this
    {
      Represents(Abs(), window)
    }

    constructor (max: int, window: nat, ghost now: int)
      ensures Valid() && this.max == max && this.window == window && Abs() == Books(map[], map[], now)
    {
      this.max, this.window := max, window;
      fails, history, clock := map[], map[], now;
    }

    /** Drops what has left the window, and the list with it once it is empty. */
    method Prune(ip: string, now: int) returns (kept: seq<int>)
      modifies `fails
      ensures kept == Recent(Of(old(fails), ip), now - window)
      ensures fails == Pruned(old(fails), ip, now - window)
    {
      kept := [];
      var all := if ip in fails then fails[ip] else [];
      for i := 0 to |all|
        invariant kept == Recent(all[..i], now - window)
      {
        assert all[..i + 1][..i] == all[..i];
        if all[i] > now - window {
          kept := kept + [all[i]];
        }
      }
      assert all[..|all|] == all;
      if kept == [] {
        fails := fails - {ip};
      } else {
        fails := fails[ip := kept];
      }
    }

    /** Blocked answers as if nothing had ever been dropped. */
    method Blocked(ip: string, now: int) returns (b: bool)
      requires Valid() && clock <= now
      modifies `fails, `clock
      ensures Valid() && Abs() == Step(old(Abs()), Op.Blocked(ip, now), window)
      ensures b <==> |Recent(Of(history, ip), now - window)| >= max
    {
      StepRepresents(Abs(), Op.Blocked(ip, now), window);
      PrunedCountIsFullCount(Abs(), ip, window, now);
      var kept := Prune(ip, now);
      b := |kept| >= max;
      clock := now;
    }

    method Fail(ip: string, now: int)
      requires Valid() && clock <= now
      modifies this
      ensures Valid() && Abs() == Step(old(Abs()), Op.Fail(ip, now), window)
    {
      StepRepresents(Abs(), Op.Fail(ip, now), window);
      var kept := Prune(ip, now);
      fails := fails[ip := kept + [now]];
      history := Failed(history, ip, now);
      clock := now;
    }

    method Clear(ip: string, ghost now: int)
      requires Valid() && clock <= now
      modifies this
      ensures Valid() && Abs() == Step(old(Abs()), Op.Clear(ip, now), window)
    {
      StepRepresents(Abs(), Op.Clear(ip, now), window);
      fails := fails - {ip};
      history := history - {ip};
      clock := now;
    }
  }

  // ---- Whole runs ----

  function Run(start: int, ops: seq<Op>, window: int): Books {
    if ops == [] then Books(map[], map[], start) else Step(Run(start, ops[..|ops| - 1], window), ops[|ops| - 1], window)
  }

  predicate ClockRuns(start: int, ops: seq<Op>) {
    && (forall i :: 0 <= i < |ops| ==> start <= ops[i].now)
    && forall i, j :: 0 <= i <= j < |ops| ==> ops[i].now <= ops[j].now
  }

  /** After any operations under a clock that does not run back, pruning has lost nothing
      that blocked could still count. */
  lemma {:induction false} AlwaysRepresents(start: int, ops: seq<Op>, window: nat)
    requires ClockRuns(start, ops)
    ensures Represents(Run(start, ops, window), window)
    ensures Run(start, ops, window).clock == if ops == [] then start else ops[|ops| - 1].now
  {
    if ops != [] {
      AlwaysRepresents(start, ops[..|ops| - 1], window);
      StepRepresents(Run(start, ops[..|ops| - 1], window), ops[|ops| - 1], window);
    } else {
      assert forall ip :: Represented(Run(start, ops, window), ip, window);
    }
  }

  // ---- The cap ----

  /** Any max + 1 failures in a row span at least a window. */
  predicate Spaced(ts: seq<int>, max: nat, window: int) {
    forall i :: 0 <= i < |ts| - max ==> ts[i + max] - ts[i] >= window
  }

  lemma SpacedSpan(ts: seq<int>, max: nat, window: int, first: nat, past: nat)
    requires Ordered(ts) && Spaced(ts, max, window) && first < past <= |ts|
    ensures past - first <= max || ts[past - 1] - ts[first] >= window
  {
    if past - first > max {
      assert ts[first + max] - ts[first] >= window && ts[first + max] <= ts[past - 1];
    }
  }

  /** Spaced failures never put more than max of them into any half-open window. */
  lemma SpacedBoundsEveryWindow(ts: seq<int>, max: nat, window: int, first: nat, past: nat, end: int)
    requires Ordered(ts) && Spaced(ts, max, window) && first <= past <= |ts|
    requires forall i :: first <= i < past ==> end - window < ts[i] <= end
    ensures past - first <= max
  {
    if first < past {
      SpacedSpan(ts, max, window, first, past);
    }
  }

  /** One more failure keeps the spacing exactly when the client was not blocked at the
      time it is recorded. */
  lemma FailureKeepsSpacingExactly(ts: seq<int>, max: nat, window: nat, now: int)
    requires max > 0 && Ordered(ts) && Spaced(ts, max, window) && (forall i :: 0 <= i < |ts| ==> ts[i] <= now)
    ensures Spaced(ts + [now], max, window) <==> |Recent(ts, now - window)| < max
  {
    RecentIsSuffix(ts, now - window);
    var k := |ts| - |Recent(ts, now - window)|;
    if |ts| >= max {
      var i := |ts| - max;
      assert (ts + [now])[i + max] == now && (ts + [now])[i] == ts[i];
      assert i < k <==> ts[i] <= now - window;
    }
    forall i | 0 <= i < |ts| - max ensures (ts + [now])[i + max] - (ts + [now])[i] >= window {
      assert ts[i + max] - ts[i] >= window;
    }
  }

  /** How an attempt that was not blocked ends: wrong credentials are counted, a login
      clears, and a refusal or a fault leaves the count alone. */
  datatype Verdict = Wrong | LoggedIn | Neither

  datatype Attempt = Attempt(ip: string, asked: int, ended: int, verdict: Verdict)

  /** One attempt: it asks whether the client is blocked and, if not, is judged later. */
  function Attempted(b: Books, a: Attempt, max: int, window: int): Books {
    var asked := Step(b, Blocked(a.ip, a.asked), window);
    if |Of(asked.fails, a.ip)| >= max then asked
    else
      match a.verdict
      case Wrong => Step(asked, Fail(a.ip, a.ended), window)
      case LoggedIn => Step(asked, Clear(a.ip, a.ended), window)
      case Neither => asked
  }

  function RunAttempts(start: int, attempts: seq<Attempt>, max: int, window: int): Books {
    if attempts == [] then Books(map[], map[], start)
    else Attempted(RunAttempts(start, attempts[..|attempts| - 1], max, window), attempts[|attempts| - 1], max, window)
  }

  /** Attempts handled one at a time: each is judged before the next one asks. */
  predicate OneAtATime(start: int, attempts: seq<Attempt>) {
    && (forall i :: 0 <= i < |attempts| ==> start <= attempts[i].asked <= attempts[i].ended)
    && forall i, j :: 0 <= i < j < |attempts| ==> attempts[i].ended <= attempts[j].asked
  }

  ghost predicate AllSpaced(history: Failures, max: nat, window: int) {
    forall ip :: Spaced(Of(history, ip), max, window)
  }

  /** Between the question and the verdict the window only moves on, so a failure of an
      unblocked client keeps the spacing. */
  lemma FailureKeepsSpacing(ts: seq<int>, max: nat, window: nat, asked: int, ended: int)
    requires Ordered(ts) && Spaced(ts, max, window) && asked <= ended && (forall i :: 0 <= i < |ts| ==> ts[i] <= asked)
    requires |Recent(ts, asked - window)| < max
    ensures Spaced(ts + [ended], max, window)
  {
    RecentIsSuffix(ts, asked - window);
    RecentIsSuffix(ts, ended - window);
    FailureKeepsSpacingExactly(ts, max, window, ended);
  }

  lemma AttemptedRepresents(b: Books, a: Attempt, max: nat, window: nat)
    requires Represents(b, window) && b.clock <= a.asked <= a.ended
    ensures Represents(Attempted(b, a, max, window), window) && Attempted(b, a, max, window).clock <= a.ended
  {
    var asked := Step(b, Blocked(a.ip, a.asked), window);
    StepRepresents(b, Blocked(a.ip, a.asked), window);
    StepRepresents(asked, Fail(a.ip, a.ended), window);
    StepRepresents(asked, Clear(a.ip, a.ended), window);
  }

  lemma AskedCount(b: Books, ip: string, window: nat, now: int)
    requires Represents(b, window) && b.clock <= now
    ensures Of(Step(b, Blocked(ip, now), window).fails, ip) == Recent(Of(b.history, ip), now - window)
  {
    PrunedCountIsFullCount(b, ip, window, now);
  }

  /** An attempt does to the full history what counting it in full would decide. */
  lemma AttemptByFullHistory(b: Books, a: Attempt, max: nat, window: nat)
    requires Represents(b, window) && b.clock <= a.asked
    ensures Attempted(b, a, max, window).history ==
            if |Recent(Of(b.history, a.ip), a.asked - window)| >= max || a.verdict == Neither then b.history
            else if a.verdict == Wrong then Failed(b.history, a.ip, a.ended) else b.history - {a.ip}
  {
    AskedCount(b, a.ip, window, a.asked);
  }

  lemma AttemptedSpaced(b: Books, a: Attempt, max: nat, window: nat, ip: string)
    requires Represents(b, window) && b.clock <= a.asked <= a.ended && AllSpaced(b.history, max, window)
    ensures Spaced(Of(Attempted(b, a, max, window).history, ip), max, window)
  {
    hide Recent, Ordered;
    AttemptByFullHistory(b, a, max, window);
    assert Spaced(Of(b.history, ip), max, window) && Represented(b, ip, window);
    if ip == a.ip && |Recent(Of(b.history, ip), a.asked - window)| < max && a.verdict == Wrong {
      FailureKeepsSpacing(Of(b.history, ip), max, window, a.asked, a.ended);
    }
  }

  /** With attempts handled one at a time no client ever has more than max counted
      failures since its last clear inside any half-open window, whenever it is looked at. */
  lemma {:induction false} CapHolds(start: int, attempts: seq<Attempt>, max: nat, window: nat)
    requires OneAtATime(start, attempts)
    ensures var b := RunAttempts(start, attempts, max, window);
            && Represents(b, window) && AllSpaced(b.history, max, window)
            && b.clock <= if attempts == [] then start else attempts[|attempts| - 1].ended
  {
    if attempts != [] {
      var before, a := attempts[..|attempts| - 1], attempts[|attempts| - 1];
      CapHolds(start, before, max, window);
      var b := RunAttempts(start, before, max, window);
      AttemptedRepresents(b, a, max, window);
      forall ip ensures Spaced(Of(Attempted(b, a, max, window).history, ip), max, window) {
        AttemptedSpaced(b, a, max, window, ip);
      }
    } else {
      AlwaysRepresents(start, [], window);
    }
  }

  /** Attempts that overlap are not held to the cap: under a cap of one, two attempts that
      both ask before either is judged are both let through, and both are counted. */
  lemma OverlappingAttemptsEscape(ip: string, t: int, window: nat)
    requires window > 0
    ensures var first := Step(Books(map[], map[], t), Blocked(ip, t), window);
            var second := Step(first, Blocked(ip, t), window);
            var judged := Step(Step(second, Fail(ip, t), window), Fail(ip, t), window);
            && Of(first.fails, ip) == [] && Of(second.fails, ip) == []
            && Of(judged.history, ip) == [t, t] && !Spaced(Of(judged.history, ip), 1, window)
  {
    var start := Books(map[], map[], t);
    var first := Step(start, Blocked(ip, t), window);
    assert first == start;
    var once := Step(first, Fail(ip, t), window);
    assert Of(once.history, ip) == [t];
    var h := Of(Step(once, Fail(ip, t), window).history, ip);
    assert h == [t, t] && h[0 + 1] - h[0] == 0;
  }
}
