/** Sliding sessions: the rows, the requests that push their deadlines out, and the sweep.
    Requests may interleave between the check of a session and its refresh. */
module Sessions {
  import opened Base
  import opened LoginLimiterModule

  /** Times and durations in nanoseconds. */
  const HOUR: int := 3_600_000_000_000
  const TTL: int := 7 * 24 * HOUR
  const TOUCH_AFTER: int := HOUR

  datatype Session = Session(user: string, expires: int)

  /** The sessions table, by token hash. */
  type Table = map<string, Session>

  predicate Valid(rows: Table, hash: string, now: int) {
    hash in rows && rows[hash].expires > now
  }

  function Created(rows: Table, hash: string, user: string, now: int): Table {
    rows[hash := Session(user, now + TTL)]
  }

  function Touched(rows: Table, hash: string, expires: int): Table {
    if hash in rows then rows[hash := Session(rows[hash].user, expires)] else rows
  }

  function Swept(rows: Table, now: int): Table {
    map hash | hash in rows && rows[hash].expires > now :: rows[hash]
  }

  predicate Due(s: Session, now: int) {
    s.expires - now < TTL - TOUCH_AFTER
  }

  /** What one accepted request leaves: its session's deadline, pushed out if due. */
  function Used(rows: Table, hash: string, now: int): Table
    requires Valid(rows, hash, now)
  {
    if Due(rows[hash], now) then Touched(rows, hash, now + TTL) else rows
  }

  // ---- Requests that interleave ----

  /** A refresh that has been decided but not yet written. */
  datatype Touch = Touch(hash: string, expires: int)

  /** lastUse is when each session was last created or accepted; clock the latest time
      anyone has read. */
  datatype State = State(rows: Table, inFlight: map<nat, Touch>, lastUse: map<string, int>, clock: int)

  /** Each time was read at or before the clock, and may be acted on later; Land's flag
      says whether the store took the refresh. */
  datatype Label =
    | Advance(elapsed: nat)
    | Login(hash: string, user: string, now: int)
    | Check(request: nat, hash: string, now: int)
    | Land(request: nat, ok: bool)
    | Logout(hash: string)
    | Sweep(now: int)

  function UseAt(lastUse: map<string, int>, hash: string, now: int): map<string, int> {
    if hash in lastUse && lastUse[hash] >= now then lastUse else lastUse[hash := now]
  }

  /** A login's token is fresh: no session, living or dead, had it before. */
  function Next(s: State, l: Label): State {
    match l
    case Advance(elapsed) => s.(clock := s.clock + elapsed)
    case Login(hash, user, now) =>
      if now > s.clock || hash in s.lastUse then s
      else s.(rows := Created(s.rows, hash, user, now), lastUse := s.lastUse[hash := now])
    case Check(request, hash, now) =>
      if now > s.clock || request in s.inFlight || !Valid(s.rows, hash, now) then s
      else
        s.(lastUse := UseAt(s.lastUse, hash, now),
           inFlight := if Due(s.rows[hash], now) then s.inFlight[request := Touch(hash, now + TTL)] else s.inFlight)
    case Land(request, ok) =>
      if request !in s.inFlight then s
      else
        var t := s.inFlight[request];
        s.(inFlight := s.inFlight - {request}, rows := if ok then Touched(s.rows, t.hash, t.expires) else s.rows)
    case Logout(hash) => s.(rows := s.rows - {hash})
    case Sweep(now) => if now > s.clock then s else s.(rows := Swept(s.rows, now))
  }

  function Run(s: State, ls: seq<Label>): State {
    if ls == [] then s else Next(Run(s, ls[..|ls| - 1]), ls[|ls| - 1])
  }

  function Init(clock: int): State {
    State(map[], map[], map[], clock)
  }

  /** No deadline, written or about to be, is later than TTL after the session's last
      use, and a refresh is only ever under way for a session that was once used. */
  predicate Bounded(s: State) {
    && (forall hash :: hash in s.rows ==> hash in s.lastUse && s.rows[hash].expires <= s.lastUse[hash] + TTL)
    && (forall r :: r in s.inFlight ==>
          s.inFlight[r].hash in s.lastUse && s.inFlight[r].expires <= s.lastUse[s.inFlight[r].hash] + TTL)
    && (forall hash :: hash in s.lastUse ==> s.lastUse[hash] <= s.clock)
  }

  lemma StepBounded(s: State, l: Label)
    requires Bounded(s)
    ensures Bounded(Next(s, l))
  {
  }

  lemma {:induction false} AlwaysBounded(clock: int, ls: seq<Label>)
    ensures Bounded(Run(Init(clock), ls))
  {
    if ls != [] {
      AlwaysBounded(clock, ls[..|ls| - 1]);
      StepBounded(Run(Init(clock), ls[..|ls| - 1]), ls[|ls| - 1]);
    }
  }

  /** However requests, sweeps and failures interleave, an unused session dies: TTL after
      its last use no request is accepted. */
  lemma UnusedSessionsExpire(clock: int, ls: seq<Label>, hash: string, now: int)
    requires var s := Run(Init(clock), ls); hash in s.lastUse && now >= s.lastUse[hash] + TTL
    ensures !Valid(Run(Init(clock), ls).rows, hash, now)
  {
    AlwaysBounded(clock, ls);
  }

  predicate Dead(s: State, hash: string) {
    hash in s.lastUse && hash !in s.rows
  }

  /** A session that was deleted stays deleted, whatever refreshes were in flight then or
      are decided later. */
  lemma {:induction false} DeletedStaysDeleted(s: State, hash: string, ls: seq<Label>)
    requires Dead(s, hash)
    ensures Dead(Run(s, ls), hash)
  {
    if ls != [] {
      DeletedStaysDeleted(s, hash, ls[..|ls| - 1]);
    }
  }

  /** A refresh in flight can be overtaken by a sweep. That changes a later answer exactly
      when the session had expired by the sweep and the refresh would have revived it. */
  lemma SweepOvertakesTouchExactly(rows: Table, hash: string, expires: int, swept: int, later: int)
    requires swept <= later
    ensures Valid(Touched(Swept(rows, swept), hash, expires), hash, later) == Valid(Touched(rows, hash, expires), hash, later)
       <==> hash !in rows || rows[hash].expires > swept || expires <= later
  {
  }

  // ---- Requests served one at a time ----

  datatype Visit =
    | SignIn(hash: string, user: string, now: int)
    | Request(hash: string, now: int)
    | SignOut(hash: string, now: int)
    | Clean(now: int)

  /** Refreshes made so far, and the answer to every request. */
  datatype Book = Book(rows: Table, lastUse: map<string, int>, refreshes: seq<Visit>, answers: seq<bool>)

  const EMPTY := Book(map[], map[], [], [])

  function Serve(b: Book, v: Visit): Book {
    match v
    case SignIn(hash, user, now) =>
      if hash in b.lastUse then b
      else b.(rows := Created(b.rows, hash, user, now), lastUse := b.lastUse[hash := now])
    case Request(hash, now) =>
      if !Valid(b.rows, hash, now) then b.(answers := b.answers + [false])
      else
        Book(Used(b.rows, hash, now), b.lastUse[hash := now],
             if Due(b.rows[hash], now) then b.refreshes + [v] else b.refreshes, b.answers + [true])
    case SignOut(hash, _) => b.(rows := b.rows - {hash})
    case Clean(now) => b.(rows := Swept(b.rows, now))
  }

  function ServeAll(vs: seq<Visit>): Book {
    if vs == [] then EMPTY else Serve(ServeAll(vs[..|vs| - 1]), vs[|vs| - 1])
  }

  predicate ClockNeverBack(vs: seq<Visit>) {
    forall i, j :: 0 <= i <= j < |vs| ==> vs[i].now <= vs[j].now
  }

  /** A request served in one piece is a check and its refresh, with nothing between. */
  lemma RequestIsCheckThenLand(s: State, b: Book, request: nat, hash: string, now: int)
    requires s.rows == b.rows && s.lastUse == b.lastUse && request !in s.inFlight && now == s.clock
    requires hash in s.lastUse ==> s.lastUse[hash] <= now
    ensures var t := Next(Next(s, Check(request, hash, now)), Land(request, true));
            && t.rows == Serve(b, Request(hash, now)).rows && t.lastUse == Serve(b, Request(hash, now)).lastUse
            && t.inFlight == s.inFlight
  {
    assert (s.inFlight[request := Touch(hash, now + TTL)]) - {request} == s.inFlight;
    if Valid(s.rows, hash, now) {
      assert UseAt(s.lastUse, hash, now) == s.lastUse[hash := now];
    }
  }

  /** A live row's deadline is within an hour below TTL after its last use, and is TTL
      after its last refresh, if it had one; refreshes of a session are over an hour
      apart. */
  ghost predicate Sliding(b: Book) {
    && (forall hash :: hash in b.rows ==>
          hash in b.lastUse && b.lastUse[hash] + TTL - TOUCH_AFTER <= b.rows[hash].expires <= b.lastUse[hash] + TTL)
    && (forall i :: 0 <= i < |b.refreshes| ==> b.refreshes[i].Request?)
    && (forall i :: 0 <= i < |b.refreshes| && b.refreshes[i].hash in b.rows ==>
          b.refreshes[i].now + TTL <= b.rows[b.refreshes[i].hash].expires)
    && (forall i :: 0 <= i < |b.refreshes| ==> b.refreshes[i].hash in b.lastUse)
    && Apart(b.refreshes)
  }

  predicate Apart(refreshes: seq<Visit>) {
    forall i, j :: 0 <= i < j < |refreshes| && refreshes[i].Request? && refreshes[j].Request?
                   && refreshes[i].hash == refreshes[j].hash ==>
      refreshes[j].now - refreshes[i].now > TOUCH_AFTER
  }

  lemma ServeKeepsSliding(b: Book, v: Visit)
    requires Sliding(b) && (forall hash :: hash in b.lastUse ==> b.lastUse[hash] <= v.now)
    ensures Sliding(Serve(b, v)) && (forall hash :: hash in Serve(b, v).lastUse ==> Serve(b, v).lastUse[hash] <= v.now)
  {
  }

  /** With requests served one at a time, the store taking every refresh, and a clock that
      does not run back: after each one, lastUse + TTL - 1h <= expires <= lastUse + TTL for
      every session, and no two refreshes of one session are within an hour. */
  lemma {:induction false} AlwaysSliding(vs: seq<Visit>)
    requires ClockNeverBack(vs)
    ensures Sliding(ServeAll(vs))
    ensures vs != [] ==> forall hash :: hash in ServeAll(vs).lastUse ==> ServeAll(vs).lastUse[hash] <= vs[|vs| - 1].now
  {
    if vs != [] {
      AlwaysSliding(vs[..|vs| - 1]);
      ServeKeepsSliding(ServeAll(vs[..|vs| - 1]), vs[|vs| - 1]);
    }
  }

  function WithoutSweeps(vs: seq<Visit>): seq<Visit> {
    if vs == [] then []
    else WithoutSweeps(vs[..|vs| - 1]) + if vs[|vs| - 1].Clean? then [] else [vs[|vs| - 1]]
  }

  /** Two tables that differ only in rows nobody can use any more. */
  predicate SameUse(a: Book, b: Book, now: int) {
    && a.lastUse == b.lastUse && a.answers == b.answers && a.refreshes == b.refreshes
    && (forall hash :: hash in a.rows ==> hash in b.rows && a.rows[hash] == b.rows[hash])
    && (forall hash :: hash in b.rows && hash !in a.rows ==> b.rows[hash].expires <= now)
  }

  lemma ServeKeepsSameUse(a: Book, b: Book, v: Visit, now: int)
    requires SameUse(a, b, now) && now <= v.now
    ensures SameUse(Serve(a, v), if v.Clean? then b else Serve(b, v), v.now)
  {
  }

  /** Sweeping is invisible: with every sweep left out, the same visits get the same
      answers, in the same order, and refresh the same sessions. */
  lemma {:induction false} SweepsAreInvisible(vs: seq<Visit>)
    requires ClockNeverBack(vs)
    ensures SameUse(ServeAll(vs), ServeAll(WithoutSweeps(vs)), if vs == [] then 0 else vs[|vs| - 1].now)
  {
    if vs != [] {
      var before, v := vs[..|vs| - 1], vs[|vs| - 1];
      SweepsAreInvisible(before);
      var now := if before == [] then v.now else before[|before| - 1].now;
      ServeKeepsSameUse(ServeAll(before), ServeAll(WithoutSweeps(before)), v, now);
      if v.Clean? {
        assert WithoutSweeps(vs) == WithoutSweeps(before);
      } else {
        assert WithoutSweeps(vs)[..|WithoutSweeps(vs)| - 1] == WithoutSweeps(before);
      }
    }
  }

  // ---- The program ----

  /** The response to a request: served as someone, served to anyone, or refused. */
  datatype Answer = ServedAs(user: string) | ServedOpenly | Denied | StoreError

  datatype LoginAnswer = NoLoginNeeded | Throttled | Unauthorized | Forbidden | LoginError | Welcome

  /** What the password and group checks say. */
  datatype Credentials = Empty | Bad | NotAllowed | AuthFault | Good

  class Gate {
    var rows: Table
    const enabled: bool
    const limiter: LoginLimiter

    constructor (enabled: bool, limiter: LoginLimiter)
      ensures rows == map[] && this.enabled == enabled && this.limiter == limiter
    {
      rows, this.enabled, this.limiter := map[], enabled, limiter;
    }

    /** requireAuth: a request is served exactly when the gate is off, the path is public,
        or its cookie names a session that is valid now; a due deadline is pushed out, and
        a failed refresh does not stop the request. */
    method RequireAuth(publicPath: bool, cookie: Option<string>, now: int, storeOk: bool, touchOk: bool)
        returns (answer: Answer)
      modifies `rows
      ensures !enabled || publicPath ==> answer == ServedOpenly && rows == old(rows)
      ensures enabled && !publicPath ==>
                if cookie == None then answer == Denied && rows == old(rows)
                else if !storeOk then answer == StoreError && rows == old(rows)
                else if Valid(old(rows), cookie.value, now)
                then answer == ServedAs(old(rows)[cookie.value].user)
                     && rows == (if touchOk then Used(old(rows), cookie.value, now) else old(rows))
                     && rows.Keys == old(rows).Keys
                     && (forall h :: h in rows && h != cookie.value ==> rows[h] == old(rows)[h])
                     && rows[cookie.value].user == old(rows)[cookie.value].user
                     && rows[cookie.value].expires == (if touchOk && old(rows)[cookie.value].expires - now < TTL - HOUR
                                                       then now + TTL else old(rows)[cookie.value].expires)
                else answer == Denied && rows == old(rows)
    {
      if !enabled || publicPath {
        return ServedOpenly;
      }
      if cookie == None {
        return Denied;
      }
      if !storeOk {
        return StoreError;
      }
      var hash := cookie.value;
      if hash !in rows || rows[hash].expires <= now {
        return Denied;
      }
      var session := rows[hash];
      if session.expires - now < TTL - TOUCH_AFTER && touchOk {
        rows := rows[hash := Session(session.user, now + TTL)];
      }
      return ServedAs(session.user);
    }

    /** A login attempt: refused while its client is blocked, counted when the credentials
        are wrong, and given a session row and a clean slate when they are right; only a
        login that succeeds creates a session, clears the count or sweeps the table, and a
        sweep that fails does not stop it. A hash that is already in the table is a store
        error. With the gate off nothing happens. */
    method HandleLogin(ip: string, c: Credentials, asked: int, now: int, user: string, hash: string,
                       storeOk: bool, sweepOk: bool) returns (answer: LoginAnswer)
      requires limiter.Valid() && limiter.clock <= asked <= now
      modifies `rows, limiter
      ensures limiter.Valid()
      ensures !enabled ==> answer == NoLoginNeeded && rows == old(rows) && limiter.Abs() == old(limiter.Abs())
      ensures enabled ==>
                && answer == AnswerTo(|Recent(Of(old(limiter.history), ip), asked - limiter.window)| >= limiter.max, c,
                                      storeOk && hash !in old(rows))
                && limiter.Abs() == Attempted(old(limiter.Abs()),
                                              Attempt(ip, asked, now, VerdictOf(c, storeOk && hash !in old(rows))),
                                              limiter.max, limiter.window)
      ensures enabled && answer != Throttled ==>
                && (answer == Unauthorized <==> c == Empty || c == Bad) && (answer == Forbidden <==> c == NotAllowed)
                && (answer == Welcome <==> c == Good && storeOk && hash !in old(rows))
      ensures enabled ==>
                Of(limiter.history, ip) == match answer
                                           case Unauthorized => Of(old(limiter.history), ip) + [now]
                                           case Welcome => []
                                           case _ => Of(old(limiter.history), ip)
      ensures rows == if answer == Welcome then AfterLogin(old(rows), hash, user, now, sweepOk) else old(rows)
      ensures answer == Welcome ==>
                && enabled && c == Good && hash in rows && rows[hash].user == user && rows[hash].expires == now + TTL
                && forall h :: h != hash ==>
                     && (h in rows <==> h in old(rows) && (sweepOk ==> old(rows)[h].expires > now))
                     && (h in rows ==> rows[h] == old(rows)[h])
    {
      hide Represents, Recent, Pruned, Failed;
      if !enabled {
        return NoLoginNeeded;
      }
      AskedCount(limiter.Abs(), ip, limiter.window, asked);
      var blocked := limiter.Blocked(ip, asked);
      FailedAppends(limiter.history, ip, now);
      if blocked {
        return Throttled;
      }
      match c {
        case Empty =>
          limiter.Fail(ip, now);
          return Unauthorized;
        case Bad =>
          limiter.Fail(ip, now);
          return Unauthorized;
        case NotAllowed => return Forbidden;
        case AuthFault => return LoginError;
        case Good =>
      }
      if !storeOk || hash in rows {
        return LoginError;
      }
      rows := rows[hash := Session(user, now + TTL)];
      limiter.Clear(ip, now);
      if sweepOk {
        rows := map h | h in rows && rows[h].expires > now :: rows[h];
      }
      return Welcome;
    }

    /** Logging out deletes the session the cookie names, and no other. */
    method HandleLogout(cookie: Option<string>, storeOk: bool) returns (done: bool)
      modifies `rows
      ensures done <==> !enabled || cookie == None || storeOk
      ensures rows == if enabled && cookie.Some? && storeOk then old(rows) - {cookie.value} else old(rows)
    {
      if enabled && cookie.Some? {
        if !storeOk {
          return false;
        }
        rows := rows - {cookie.value};
      }
      done := true;
    }
  }

  /** The table after a login: its session is new, the sweep optional. */
  function AfterLogin(rows: Table, hash: string, user: string, now: int, swept: bool): Table {
    if swept then Swept(Created(rows, hash, user, now), now) else Created(rows, hash, user, now)
  }

  function AnswerTo(blocked: bool, c: Credentials, created: bool): LoginAnswer {
    if blocked then Throttled
    else
      match c
      case Empty => Unauthorized
      case Bad => Unauthorized
      case NotAllowed => Forbidden
      case AuthFault => LoginError
      case Good => if created then Welcome else LoginError
  }

  function VerdictOf(c: Credentials, storeOk: bool): Verdict {
    if c in {Empty, Bad} then Wrong else if c == Good && storeOk then LoggedIn else Neither
  }
}
