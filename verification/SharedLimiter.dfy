/**
 The login limiter kept in Postgres, one row per subject, next to the in-memory one.
 `now` is the clock of the service and `dbNow` the clock of the database, used only by the cleanup statement.
 */
module SharedLimiter {
  import opened Common
  import opened LoginLimiter

  datatype Row = Row(count: int, first: Option<int>, locked: Option<int>, updated: int)

  type Table = map<Subject, Row>

  // ---------- the statements

  predicate Stale(row: Row, dbNow: int) {
    (row.locked.None? || row.locked.value < dbNow) && row.updated < dbNow - 2 * WINDOW
  }

  function Cleaned(rows: Table, dbNow: int): Table {
    map s | s in rows && !Stale(rows[s], dbNow) :: rows[s]
  }

  function CheckSubject(rows0: Table, scope: Scope, subject: string, now: int, dbNow: int): (Table, Answer) {
    if Blank(subject) then (rows0, Allowed)
    else
      var s := Subject(scope, TrimSpace(subject));
      var rows := Cleaned(rows0, dbNow);
      if s !in rows then (rows, Allowed)
      else
        var row := rows[s];
        if row.first.Some? && now - row.first.value > WINDOW then (rows[s := Row(0, None, None, now)], Allowed)
        else if row.locked.Some? && now < row.locked.value then (rows, Denied(row.locked.value - now))
        else if row.count >= MaxAttempts(scope) then
          (rows[s := row.(locked := Some(now + LOCKOUT), updated := now)], Denied(LOCKOUT))
        else (rows, Allowed)
  }

  /** The row an upsert leaves in place of the one it found. */
  function Upserted(found: Option<Row>, now: int, max: int): Row {
    match found
    case None => Row(1, Some(now), None, now)
    case Some(row) =>
      var anew := row.first.None? || now - row.first.value > WINDOW;
      Row(if anew then 1 else row.count + 1,
          if anew then Some(now) else row.first,
          if anew then None else if row.count + 1 >= max then Some(now + LOCKOUT) else row.locked,
          now)
  }

  function RowOf(rows: Table, s: Subject): Option<Row> {
    if s in rows then Some(rows[s]) else None
  }

  function FailSubject(rows: Table, scope: Scope, subject: string, now: int): Table {
    if Blank(subject) then rows
    else
      var s := Subject(scope, TrimSpace(subject));
      rows[s := Upserted(RowOf(rows, s), now, MaxAttempts(scope))]
  }

  function Succeed(rows: Table, ip: string, user: string): Table {
    rows - {Subject(Ip, TrimSpace(ip)), Subject(User, TrimSpace(user))}
  }

  // ---------- the handler: the address first, then the user

  function SharedCheck(rows: Table, ip: string, user: string, now: int, dbIp: int, dbUser: int): (Table, Answer) {
    var (rows1, ipAnswer) := CheckSubject(rows, Ip, ip, now, dbIp);
    if ipAnswer != Allowed then (rows1, ipAnswer) else CheckSubject(rows1, User, user, now, dbUser)
  }

  function SharedFailure(rows: Table, ip: string, user: string, now: int): Table {
    FailSubject(FailSubject(rows, Ip, ip, now), User, user, now)
  }

  // ---------- histories

  datatype Entry =
    | Checked(ip: string, user: string, now: int, dbIp: int, dbUser: int)
    | Failure(ip: string, user: string, now: int)
    | Success(ip: string, user: string)

  function ApplyShared(rows: Table, e: Entry): (Table, Answer) {
    match e
    case Checked(ip, user, now, dbIp, dbUser) => SharedCheck(rows, ip, user, now, dbIp, dbUser)
    case Failure(ip, user, now) => (SharedFailure(rows, ip, user, now), Allowed)
    case Success(ip, user) => (Succeed(rows, ip, user), Allowed)
  }

  function AsLocal(e: Entry): Event {
    match e
    case Checked(ip, user, now, _, _) => CheckEvent(ip, user, now)
    case Failure(ip, user, now) => FailEvent(ip, user, now)
    case Success(ip, user) => SuccessEvent(ip, user)
  }

  function TimeOf(e: Entry, before: int): int {
    if e.Success? then before else e.now
  }

  /** The login form trims both names, and the two clocks are less than a window apart. */
  predicate Sound(e: Entry, before: int) {
    && TrimSpace(e.ip) == e.ip && TrimSpace(e.user) == e.user
    && 0 < before <= TimeOf(e, before)
    && (e.Checked? ==> e.dbIp <= e.now + WINDOW && e.dbUser <= e.now + WINDOW)
  }

  predicate SoundHistory(start: int, history: seq<Entry>)
    decreases history
  {
    history == [] || (Sound(history[0], start) && SoundHistory(TimeOf(history[0], start), history[1..]))
  }

  function EndTime(start: int, history: seq<Entry>): int
    decreases history
  {
    if history == [] then start else EndTime(TimeOf(history[0], start), history[1..])
  }

  function LocalAfter(l: Limiter, history: seq<Entry>): Limiter
    decreases history
  {
    if history == [] then l else LocalAfter(Apply(l, AsLocal(history[0]), true).0, history[1..])
  }

  function SharedAfter(rows: Table, history: seq<Entry>): Table
    decreases history
  {
    if history == [] then rows else SharedAfter(ApplyShared(rows, history[0]).0, history[1..])
  }

  // ---------- the relation between a row and the in-memory state of the same subject

  /** Rows as the statements leave them: locked exactly when the count of their window is used up. */
  predicate RowOk(row: Row, now: int, max: int) {
    match row.first
    case None => row.count == 0 && row.locked == None
    case Some(f) =>
      && 0 < f <= row.updated <= now && 1 <= row.count
      && (row.locked.Some? <==> row.count >= max)
      && (row.locked.Some? ==> f + LOCKOUT <= row.locked.value)
  }

  predicate Running(found: Option<Row>, now: int) {
    found.Some? && found.value.first.Some? && now - found.value.first.value <= WINDOW
  }

  /** Count and first failure of the running window agree, and so does the lock once the count is used up. */
  predicate Matches(st: Attempts, found: Option<Row>, now: int, max: int) {
    var r := ResetWindowIfExpired(st, now);
    && 0 <= st.firstFailAt <= now
    && (found.Some? ==> RowOk(found.value, now, max))
    && (if Running(found, now) then r.count == found.value.count && r.firstFailAt == found.value.first.value
        else r.count == 0 && r.firstFailAt == 0)
    && (r.count >= max ==> Running(found, now) && found.value.locked == Some(st.lockedUntil))
  }

  predicate Named(s: Subject) {
    s.name != "" && TrimSpace(s.name) == s.name
  }

  ghost predicate MatchesAll(l: Limiter, rows: Table, now: int) {
    forall s | Named(s) :: Matches(StateOf(l, s), RowOf(rows, s), now, MaxAttempts(s.scope))
  }

  lemma MatchesLater(st: Attempts, found: Option<Row>, t: int, now: int, max: int)
    requires max > 0 && Matches(st, found, t, max) && t <= now
    ensures Matches(st, found, now, max)
  {
  }

  /** Both limiters may forget an expired subject at any time. */
  lemma ForgettingMatches(st: Attempts, st': Attempts, found: Option<Row>, found': Option<Row>, now: int, db: int,
                          max: int)
    requires max > 0 && Matches(st, found, now, max) && now > 0 && db <= now + WINDOW
    requires st' == st || (st' == NONE && Collectable(st, now))
    requires found' == found || (found' == None && found.Some? && Stale(found.value, db))
    ensures Matches(st', found', now, max)
  {
  }

  /** A used-up count is still locked, so neither limiter ever takes its re-lock branch. */
  lemma FullIsLocked(st: Attempts, found: Option<Row>, now: int, scope: Scope)
    requires Matches(st, found, now, MaxAttempts(scope)) && Full(st, now, scope)
    ensures Locked(st, now) && found.Some? && found.value.locked == Some(st.lockedUntil)
  {
  }

  lemma FailureMatches(st: Attempts, found: Option<Row>, now: int, max: int)
    requires max > 1 && Matches(st, found, now, max) && now > 0
    ensures Matches(Failed(st, now, max), Some(Upserted(found, now, max)), now, max)
  {
  }

  /** Checking one subject leaves every row as it was, forgets it, or resets its expired window. */
  lemma CheckKeepsRow(rows: Table, scope: Scope, subject: string, now: int, db: int, st: Attempts, s: Subject)
    requires TrimSpace(subject) == subject && Named(s) && now > 0 && db <= now + WINDOW
    requires Matches(st, RowOf(rows, s), now, MaxAttempts(s.scope))
    ensures Matches(st, RowOf(CheckSubject(rows, scope, subject, now, db).0, s), now, MaxAttempts(s.scope))
  {
    ForgettingMatches(st, st, RowOf(rows, s), RowOf(Cleaned(rows, db), s), now, db, MaxAttempts(s.scope));
  }

  /** A subject is denied exactly when the count of its running window is used up, and until its lock ends. */
  lemma CheckAnswer(rows: Table, scope: Scope, subject: string, now: int, db: int, st: Attempts)
    requires TrimSpace(subject) == subject && now > 0 && db <= now + WINDOW
    requires subject != "" ==> Matches(st, RowOf(rows, Subject(scope, subject)), now, MaxAttempts(scope))
    ensures var answer := CheckSubject(rows, scope, subject, now, db).1;
            && (answer.Denied? <==> subject != "" && Full(st, now, scope))
            && (answer.Denied? ==> Locked(st, now) && answer.retryAfter == st.lockedUntil - now)
  {
    if subject != "" {
      var k := Subject(scope, subject);
      ForgettingMatches(st, st, RowOf(rows, k), RowOf(Cleaned(rows, db), k), now, db, MaxAttempts(scope));
    }
  }

  /** The in-memory state of a subject when an event is applied to it, after the sweep. */
  function Before(l: Limiter, e: Entry, s: Subject): Attempts {
    StateOf(SweptBefore(l, AsLocal(e), true), s)
  }

  lemma SweptMatches(l: Limiter, rows: Table, e: Entry, now: int, s: Subject)
    requires MatchesAll(l, rows, now) && Named(s) && now > 0 && (!e.Success? ==> e.now == now)
    ensures Matches(Before(l, e, s), RowOf(rows, s), now, MaxAttempts(s.scope))
  {
    var max := MaxAttempts(s.scope);
    assert Matches(StateOf(l, s), RowOf(rows, s), now, max);
    if !e.Success? {
      GcState(l, now, true, s);
      ForgettingMatches(StateOf(l, s), Before(l, e, s), RowOf(rows, s), RowOf(rows, s), now, now, max);
    }
  }

  /** A check changes no in-memory state beyond the sweep. */
  lemma CheckOnlySweeps(l: Limiter, rows: Table, e: Entry, now: int, s: Subject)
    requires MatchesAll(l, rows, now) && Named(s) && now > 0 && e.Checked? && e.now == now
    ensures StateOf(Apply(l, AsLocal(e), true).0, s) == Before(l, e, s)
  {
    ApplyIsNext(l, AsLocal(e), true, s);
    SweptMatches(l, rows, e, now, s);
    hide MatchesAll, Gc, StateOf, CheckSubject;
    if Full(Before(l, e, s), now, s.scope) {
      FullIsLocked(Before(l, e, s), RowOf(rows, s), now, s.scope);
    }
  }

  lemma CheckMatches(l: Limiter, rows: Table, e: Entry, now: int, s: Subject)
    requires MatchesAll(l, rows, now) && e.Checked? && Sound(e, now) && e.now == now && Named(s)
    ensures Matches(StateOf(Apply(l, AsLocal(e), true).0, s), RowOf(ApplyShared(rows, e).0, s), now,
                    MaxAttempts(s.scope))
  {
    CheckOnlySweeps(l, rows, e, now, s);
    SweptMatches(l, rows, e, now, s);
    hide MatchesAll, Matches, CheckSubject, Full, Before, Apply;
    var st := Before(l, e, s);
    CheckKeepsRow(rows, Ip, e.ip, now, e.dbIp, st, s);
    CheckKeepsRow(CheckSubject(rows, Ip, e.ip, now, e.dbIp).0, User, e.user, now, e.dbUser, st, s);
  }

  /** A denial of the handler's two checks means a used-up count, of the address first. */
  lemma SharedAnswer(l: Limiter, rows: Table, e: Entry, now: int)
    requires MatchesAll(l, rows, now) && e.Checked? && Sound(e, now) && e.now == now
    ensures var a, b := Before(l, e, Subject(Ip, e.ip)), Before(l, e, Subject(User, e.user));
            var ipFull, userFull := e.ip != "" && Full(a, now, Ip), e.user != "" && Full(b, now, User);
            ApplyShared(rows, e).1 == (if ipFull then Denied(a.lockedUntil - now)
                                       else if userFull then Denied(b.lockedUntil - now) else Allowed)
            && (ipFull ==> Locked(a, now)) && (userFull ==> Locked(b, now))
  {
    var a, b := Before(l, e, Subject(Ip, e.ip)), Before(l, e, Subject(User, e.user));
    if e.ip != "" {
      SweptMatches(l, rows, e, now, Subject(Ip, e.ip));
    }
    if e.user != "" {
      SweptMatches(l, rows, e, now, Subject(User, e.user));
    }
    hide MatchesAll, Matches, CheckSubject, Full, Before;
    CheckAnswer(rows, Ip, e.ip, now, e.dbIp, a);
    var rows1 := CheckSubject(rows, Ip, e.ip, now, e.dbIp).0;
    if e.user != "" {
      CheckKeepsRow(rows, Ip, e.ip, now, e.dbIp, b, Subject(User, e.user));
    }
    CheckAnswer(rows1, User, e.user, now, e.dbUser, b);
  }

  lemma FailSubjectRow(rows: Table, scope: Scope, subject: string, now: int, s: Subject)
    requires TrimSpace(subject) == subject && Named(s)
    ensures RowOf(FailSubject(rows, scope, subject, now), s)
         == if s == Subject(scope, subject) then Some(Upserted(RowOf(rows, s), now, MaxAttempts(scope)))
            else RowOf(rows, s)
  {
  }

  lemma FailureKeepsMatch(l: Limiter, rows: Table, e: Entry, now: int, s: Subject)
    requires MatchesAll(l, rows, now) && e.Failure? && Sound(e, now) && e.now == now && Named(s)
    ensures Matches(StateOf(Apply(l, AsLocal(e), true).0, s), RowOf(ApplyShared(rows, e).0, s), now,
                    MaxAttempts(s.scope))
  {
    ApplyIsNext(l, AsLocal(e), true, s);
    SweptMatches(l, rows, e, now, s);
    FailSubjectRow(rows, Ip, e.ip, now, s);
    FailSubjectRow(FailSubject(rows, Ip, e.ip, now), User, e.user, now, s);
    FailureMatches(Before(l, e, s), RowOf(rows, s), now, MaxAttempts(s.scope));
    hide MatchesAll, Matches, FailSubject, Apply, RowOf, Failed, Upserted, Gc;
  }

  lemma SuccessKeepsMatch(l: Limiter, rows: Table, e: Entry, now: int, s: Subject)
    requires MatchesAll(l, rows, now) && e.Success? && Sound(e, now) && Named(s)
    ensures Matches(StateOf(Apply(l, AsLocal(e), true).0, s), RowOf(ApplyShared(rows, e).0, s), now,
                    MaxAttempts(s.scope))
  {
    ApplyIsNext(l, AsLocal(e), true, s);
    SweptMatches(l, rows, e, now, s);
    hide MatchesAll, Apply;
  }

  lemma {:induction false} HistoryMatches(l: Limiter, rows: Table, history: seq<Entry>, start: int)
    requires MatchesAll(l, rows, start) && SoundHistory(start, history) && start > 0
    ensures MatchesAll(LocalAfter(l, history), SharedAfter(rows, history), EndTime(start, history))
    ensures start <= EndTime(start, history)
    decreases history
  {
    if history != [] {
      var e := history[0];
      var now := TimeOf(e, start);
      var l', rows' := Apply(l, AsLocal(e), true).0, ApplyShared(rows, e).0;
      AllLater(l, rows, start, now);
      forall s | Named(s) ensures Matches(StateOf(l', s), RowOf(rows', s), now, MaxAttempts(s.scope)) {
        hide MatchesAll, Matches, Apply, ApplyShared;
        match e {
          case Checked(_, _, _, _, _) => CheckMatches(l, rows, e, now, s);
          case Failure(_, _, _) => FailureKeepsMatch(l, rows, e, now, s);
          case Success(_, _) => SuccessKeepsMatch(l, rows, e, now, s);
        }
      }
      assert MatchesAll(l', rows', now);
      hide MatchesAll, Apply, ApplyShared;
      HistoryMatches(l', rows', history[1..], now);
    }
  }

  lemma AllLater(l: Limiter, rows: Table, t: int, now: int)
    requires MatchesAll(l, rows, t) && t <= now
    ensures MatchesAll(l, rows, now)
  {
    forall s | Named(s) ensures Matches(StateOf(l, s), RowOf(rows, s), now, MaxAttempts(s.scope)) {
      MatchesLater(StateOf(l, s), RowOf(rows, s), t, now, MaxAttempts(s.scope));
    }
  }

  /** The sweep before a check hides nothing the check looks at. */
  lemma SweepHidesNothing(l: Limiter, e: Entry, s: Subject)
    requires e.Checked? && e.now > 0
    ensures Full(Before(l, e, s), e.now, s.scope) <==> Full(StateOf(l, s), e.now, s.scope)
    ensures Locked(Before(l, e, s), e.now) <==> Locked(StateOf(l, s), e.now)
    ensures Locked(StateOf(l, s), e.now) ==> Before(l, e, s) == StateOf(l, s)
  {
    GcState(l, e.now, true, s);
  }

  /** What the shared limiter denies: exactly a subject whose running window has used up its count. */
  function Verdict(l: Limiter, e: Entry): Answer
    requires e.Checked?
  {
    var a, b := StateOf(l, Subject(Ip, e.ip)), StateOf(l, Subject(User, e.user));
    if e.ip != "" && Full(a, e.now, Ip) then Denied(a.lockedUntil - e.now)
    else if e.user != "" && Full(b, e.now, User) then Denied(b.lockedUntil - e.now)
    else Allowed
  }

  /**
   The two limiters, fed the same history of checks, failures and logins with times that never go back, in
   whatever order the calls interleave. The shared one denies exactly when the in-memory one holds a used-up count
   of a running window for the address or the user, and then until the same moment; the in-memory one denies
   exactly when either is locked. Every shared denial is therefore a local denial, but not the other way round:
   the in-memory lock outlives its window.
   */
  lemma SharedDenialIsLocalDenial(history: seq<Entry>, start: int, e: Entry)
    requires start > 0 && SoundHistory(start, history) && e.Checked? && Sound(e, EndTime(start, history))
    ensures var l := LocalAfter(EMPTY, history);
            var shared := ApplyShared(SharedAfter(map[], history), e).1;
            var mine := Apply(l, AsLocal(e), true).1;
            && shared == Verdict(l, e)
            && (shared.Denied? ==> mine.Denied?)
            && (e.ip != "" && e.user != "" ==>
                  (mine.Denied? <==> Locked(StateOf(l, Subject(Ip, e.ip)), e.now)
                                     || Locked(StateOf(l, Subject(User, e.user)), e.now)))
  {
    assert MatchesAll(EMPTY, map[], start) && EndTime(start, history) <= e.now && Sound(e, e.now) && e.now > 0;
    hide *;
    HistoryMatches(EMPTY, map[], history, start);
    AllLater(LocalAfter(EMPTY, history), SharedAfter(map[], history), EndTime(start, history), e.now);
    BothAnswers(LocalAfter(EMPTY, history), SharedAfter(map[], history), e);
  }

  /** The two answers from a matching pair of states. */
  lemma BothAnswers(l: Limiter, rows: Table, e: Entry)
    requires e.Checked? && MatchesAll(l, rows, e.now) && Sound(e, e.now) && e.now > 0
    ensures var shared, mine := ApplyShared(rows, e).1, Apply(l, AsLocal(e), true).1;
            && shared == Verdict(l, e)
            && (shared.Denied? ==> mine.Denied?)
            && (e.ip != "" && e.user != "" ==>
                  (mine.Denied? <==> Locked(StateOf(l, Subject(Ip, e.ip)), e.now)
                                     || Locked(StateOf(l, Subject(User, e.user)), e.now)))
  {
    hide MatchesAll, ApplyShared, Apply, Full, Locked, Before, StateOf;
    SharedAnswer(l, rows, e, e.now);
    SweepHidesNothing(l, e, Subject(Ip, e.ip));
    SweepHidesNothing(l, e, Subject(User, e.user));
    LocalAnswer(l, e);
  }

  lemma LocalAnswer(l: Limiter, e: Entry)
    requires e.Checked? && e.now > 0
    ensures var a, b := StateOf(l, Subject(Ip, e.ip)), StateOf(l, Subject(User, e.user));
            Apply(l, AsLocal(e), true).1.Denied? <==>
              Locked(a, e.now) || Locked(b, e.now) || Full(a, e.now, Ip) || Full(b, e.now, User)
  {
    SweepHidesNothing(l, e, Subject(Ip, e.ip));
    SweepHidesNothing(l, e, Subject(User, e.user));
    hide Gc, Full, Locked;
  }

  /** The condition under which a check of the table locks a row again. */
  predicate Relocks(row: Row, now: int, max: int) {
    && !(row.first.Some? && now - row.first.value > WINDOW)
    && !(row.locked.Some? && now < row.locked.value)
    && row.count >= max
  }

  /** No history leaves a row that a check would lock again: the lockout is longer than the window. */
  lemma SharedNeverRelocks(history: seq<Entry>, start: int, s: Subject, now: int)
    requires start > 0 && SoundHistory(start, history) && EndTime(start, history) <= now
    requires Named(s) && s in SharedAfter(map[], history)
    ensures !Relocks(SharedAfter(map[], history)[s], now, MaxAttempts(s.scope))
  {
    var l, rows := LocalAfter(EMPTY, history), SharedAfter(map[], history);
    assert MatchesAll(EMPTY, map[], start);
    HistoryMatches(EMPTY, map[], history, start);
    assert Matches(StateOf(l, s), RowOf(rows, s), EndTime(start, history), MaxAttempts(s.scope));
    hide LocalAfter, SharedAfter, SoundHistory, MatchesAll, EndTime;
  }

  // ---------- the table as an object

  lemma {:induction false} AfterSnoc(rows: Table, history: seq<Entry>, e: Entry)
    ensures SharedAfter(rows, history + [e]) == ApplyShared(SharedAfter(rows, history), e).0
    decreases history
  {
    hide ApplyShared;
    if history == [] {
      assert history + [e] == [e] && [e][1..] == [];
      assert SharedAfter(rows, [e]) == SharedAfter(ApplyShared(rows, e).0, []);
    } else {
      assert (history + [e])[1..] == history[1..] + [e];
      AfterSnoc(ApplyShared(rows, history[0]).0, history[1..], e);
    }
  }

  lemma {:induction false} SoundSnoc(start: int, history: seq<Entry>, e: Entry)
    requires SoundHistory(start, history + [e])
    ensures SoundHistory(start, history) && Sound(e, EndTime(start, history))
    decreases history
  {
    if history == [] {
      assert history + [e] == [e];
    } else {
      assert (history + [e])[1..] == history[1..] + [e];
      SoundSnoc(TimeOf(history[0], start), history[1..], e);
    }
  }

  /** The answer to a check after any history, in terms of the in-memory limiter of the same history. */
  lemma AnswerMeans(history: seq<Entry>, e: Entry)
    requires e.Checked? && SoundHistory(1, history + [e])
    ensures ApplyShared(SharedAfter(map[], history), e).1 == Verdict(LocalAfter(EMPTY, history), e)
  {
    SoundSnoc(1, history, e);
    SharedDenialIsLocalDenial(history, 1, e);
  }

  /** Failures of the window that runs at `now`. */
  function RunningFailures(found: Option<Row>, now: int): int {
    if Running(found, now) then found.value.count else 0
  }

  /** A failure opens a window or adds to the running one; a count that is then used up is locked. */
  predicate CountedRow(before: Option<Row>, after: Option<Row>, now: int, max: int) {
    && Running(after, now)
    && RunningFailures(after, now) == RunningFailures(before, now) + 1
    && (Running(before, now) && after.value.count >= max ==> after.value.locked == Some(now + LOCKOUT))
    && (!Running(before, now) ==> after.value.first == Some(now) && after.value.locked == None)
  }

  lemma UpsertMeans(found: Option<Row>, now: int, max: int)
    ensures CountedRow(found, Some(Upserted(found, now, max)), now, max)
  {
  }

  lemma FailureMeansRow(rows: Table, ip: string, user: string, now: int)
    ensures var rows' := SharedFailure(rows, ip, user, now);
            var a, b := Subject(Ip, TrimSpace(ip)), Subject(User, TrimSpace(user));
            && (!Blank(ip) ==> CountedRow(RowOf(rows, a), RowOf(rows', a), now, MaxAttempts(Ip)))
            && (!Blank(user) ==> CountedRow(RowOf(rows, b), RowOf(rows', b), now, MaxAttempts(User)))
            && forall s | s != a && s != b :: RowOf(rows', s) == RowOf(rows, s)
  {
    UpsertMeans(RowOf(rows, Subject(Ip, TrimSpace(ip))), now, MaxAttempts(Ip));
    UpsertMeans(RowOf(rows, Subject(User, TrimSpace(user))), now, MaxAttempts(User));
    hide Upserted, CountedRow;
  }

  /** A login clears both subjects: whatever their history, the next check of the pair is allowed. */
  lemma SuccessMeansRows(rows: Table, ip: string, user: string)
    ensures var rows' := Succeed(rows, ip, user);
            && (forall now, dbIp, dbUser :: SharedCheck(rows', ip, user, now, dbIp, dbUser).1 == Allowed)
            && forall s | s != Subject(Ip, TrimSpace(ip)) && s != Subject(User, TrimSpace(user)) ::
                 RowOf(rows', s) == RowOf(rows, s)
  {
    hide Stale;
  }

  /** The table, updated by one statement after the other. */
  class LimitTable {
    var rows: Table
    ghost var log: seq<Entry>

    /** The rows are what the handler's calls so far, in their order, have made of an empty table. */
    ghost predicate Valid()
      reads this
    {
      rows == SharedAfter(map[], log)
    }

    constructor ()
      ensures Valid() && log == [] && rows == map[]
    {
      rows, log := map[], [];
    }

    /**
     No check adds a row or touches another subject's. With a name, exactly the rows go that nobody wrote in the last
     twenty minutes of the database clock and whose lock, if any, has ended by it.
     */
    method LoginRateLimitCheck(scope: Scope, subject: string, now: int, dbNow: int) returns (answer: Answer)
      modifies this`rows
      ensures (rows, answer) == CheckSubject(old(rows), scope, subject, now, dbNow)
      ensures Blank(subject) ==> answer == Allowed && rows == old(rows)
      ensures answer.Denied? ==> answer.retryAfter > 0
      ensures forall s | s in rows :: s in old(rows)
      ensures !Blank(subject) ==> forall s | s in old(rows) ::
                s in rows <==> old(rows)[s].updated >= dbNow - 1_200_000_000_000
                               || (old(rows)[s].locked.Some? && old(rows)[s].locked.value >= dbNow)
      ensures forall s | s in rows && s != Subject(scope, TrimSpace(subject)) :: rows[s] == old(rows)[s]
    {
      if Blank(subject) {
        return Allowed;
      }
      var s := Subject(scope, TrimSpace(subject));
      rows := map k | k in rows && !Stale(rows[k], dbNow) :: rows[k];
      if s !in rows {
        return Allowed;
      }
      var row := rows[s];
      if row.first.Some? && now - row.first.value > WINDOW {
        rows := rows[s := Row(0, None, None, now)];
        return Allowed;
      }
      if row.locked.Some? && now < row.locked.value {
        return Denied(row.locked.value - now);
      }
      if row.count >= MaxAttempts(scope) {
        rows := rows[s := row.(locked := Some(now + LOCKOUT), updated := now)];
        return Denied(LOCKOUT);
      }
      return Allowed;
    }

    method LoginRateLimitOnFailure(scope: Scope, subject: string, now: int)
      modifies this`rows
      ensures rows == FailSubject(old(rows), scope, subject, now)
      ensures var s := Subject(scope, TrimSpace(subject));
              && (!Blank(subject) ==> CountedRow(RowOf(old(rows), s), RowOf(rows, s), now, MaxAttempts(scope)))
              && forall k | k != s :: RowOf(rows, k) == RowOf(old(rows), k)
    {
      UpsertMeans(RowOf(rows, Subject(scope, TrimSpace(subject))), now, MaxAttempts(scope));
      hide CountedRow;
      if Blank(subject) {
        return;
      }
      var s := Subject(scope, TrimSpace(subject));
      if s !in rows {
        rows := rows[s := Row(1, Some(now), None, now)];
        return;
      }
      var row := rows[s];
      if row.first.None? || now - row.first.value > WINDOW {
        rows := rows[s := Row(1, Some(now), None, now)];
      } else if row.count + 1 >= MaxAttempts(scope) {
        rows := rows[s := Row(row.count + 1, row.first, Some(now + LOCKOUT), now)];
      } else {
        rows := rows[s := Row(row.count + 1, row.first, row.locked, now)];
      }
    }

    method LoginRateLimitOnSuccess(ip: string, user: string)
      requires Valid()
      modifies this
      ensures Valid() && log == old(log) + [Success(ip, user)]
      ensures rows == Succeed(old(rows), ip, user)
      ensures forall now, dbIp, dbUser :: SharedCheck(rows, ip, user, now, dbIp, dbUser).1 == Allowed
      ensures forall s | s != Subject(Ip, TrimSpace(ip)) && s != Subject(User, TrimSpace(user)) ::
                RowOf(rows, s) == RowOf(old(rows), s)
    {
      AfterSnoc(map[], log, Success(ip, user));
      SuccessMeansRows(rows, ip, user);
      hide SharedAfter, SharedCheck, RowOf;
      rows := rows - {Subject(Ip, TrimSpace(ip)), Subject(User, TrimSpace(user))};
      log := log + [Success(ip, user)];
    }

    /** The handler's check; its answer is the verdict of the in-memory limiter of the same history. */
    method LoginLimiterCheck(ip: string, user: string, now: int, dbIp: int, dbUser: int) returns (answer: Answer)
      requires Valid()
      modifies this
      ensures Valid() && log == old(log) + [Checked(ip, user, now, dbIp, dbUser)]
      ensures (rows, answer) == SharedCheck(old(rows), ip, user, now, dbIp, dbUser)
      ensures SoundHistory(1, log) ==>
                answer == Verdict(LocalAfter(EMPTY, old(log)), Checked(ip, user, now, dbIp, dbUser))
    {
      var e := Checked(ip, user, now, dbIp, dbUser);
      AfterSnoc(map[], log, e);
      if SoundHistory(1, log + [e]) {
        AnswerMeans(log, e);
      }
      hide SharedAfter, LocalAfter, SoundHistory, Verdict, CheckSubject, Stale, Blank;
      answer := LoginRateLimitCheck(Ip, ip, now, dbIp);
      if answer == Allowed {
        answer := LoginRateLimitCheck(User, user, now, dbUser);
      }
      log := log + [e];
    }

    method LoginLimiterFailure(ip: string, user: string, now: int)
      requires Valid()
      modifies this
      ensures Valid() && log == old(log) + [Failure(ip, user, now)]
      ensures rows == SharedFailure(old(rows), ip, user, now)
      ensures var a, b := Subject(Ip, TrimSpace(ip)), Subject(User, TrimSpace(user));
              && (!Blank(ip) ==> CountedRow(RowOf(old(rows), a), RowOf(rows, a), now, MaxAttempts(Ip)))
              && (!Blank(user) ==> CountedRow(RowOf(old(rows), b), RowOf(rows, b), now, MaxAttempts(User)))
              && forall s | s != a && s != b :: RowOf(rows, s) == RowOf(old(rows), s)
    {
      AfterSnoc(map[], log, Failure(ip, user, now));
      FailureMeansRow(rows, ip, user, now);
      hide SharedAfter, FailSubject, CountedRow, RowOf, Blank;
      LoginRateLimitOnFailure(Ip, ip, now);
      LoginRateLimitOnFailure(User, user, now);
      log := log + [Failure(ip, user, now)];
    }
  }

  // ---------- a lock that only the in-memory limiter still holds

  function Failures(ip: string, user: string, t: int, k: nat): seq<Entry> {
    seq(k, _ => Failure(ip, user, t))
  }

  lemma {:induction false} FailuresCount(l: Limiter, ip: string, user: string, t: int, k: nat, s: Subject)
    requires t > 0 && Touches(FailEvent(ip, user, t), s)
    requires StateOf(l, s) == NONE || StateOf(l, s).firstFailAt == t
    ensures StateOf(LocalAfter(l, Failures(ip, user, t, k)), s)
         == AfterVolley(StateOf(l, s), t, k, MaxAttempts(s.scope))
    decreases k
  {
    if k > 0 {
      var f := Failures(ip, user, t, k);
      var l' := Apply(l, FailEvent(ip, user, t), true).0;
      assert f[0] == Failure(ip, user, t) && f[1..] == Failures(ip, user, t, k - 1);
      GcState(l, t, true, s);
      ApplyIsNext(l, FailEvent(ip, user, t), true, s);
      hide Apply, Gc;
      FailuresCount(l', ip, user, t, k - 1, s);
    }
  }

  lemma {:induction false} FailuresAreSound(ip: string, user: string, t: int, k: nat)
    requires t > 0 && TrimSpace(ip) == ip && TrimSpace(user) == user
    ensures SoundHistory(t, Failures(ip, user, t, k))
    ensures EndTime(t, Failures(ip, user, t, k)) == t
  {
    if k > 0 {
      assert Failures(ip, user, t, k)[1..] == Failures(ip, user, t, k - 1);
      FailuresAreSound(ip, user, t, k - 1);
    }
  }

  /** Ten failures at once, then a check just after the window: only the in-memory limiter denies. */
  lemma LocalLockOutlivesWindow(ip: string, user: string, t: int)
    requires t > 0 && TrimSpace(ip) == ip != "" && TrimSpace(user) == user != ""
    ensures var history := Failures(ip, user, t, 10);
            var e := Checked(ip, user, t + WINDOW + 1, t + WINDOW + 1, t + WINDOW + 1);
            && Apply(LocalAfter(EMPTY, history), AsLocal(e), true).1.Denied?
            && ApplyShared(SharedAfter(map[], history), e).1 == Allowed
  {
    var history, a, b := Failures(ip, user, t, 10), Subject(Ip, ip), Subject(User, user);
    var now := t + WINDOW + 1;
    var e := Checked(ip, user, now, now, now);
    var l := LocalAfter(EMPTY, history);
    FailuresAreSound(ip, user, t, 10);
    FailuresCount(EMPTY, ip, user, t, 10, a);
    FailuresCount(EMPTY, ip, user, t, 10, b);
    AfterVolleyIs(NONE, t, 10, MaxAttempts(Ip));
    AfterVolleyIs(NONE, t, 10, MaxAttempts(User));
    SharedDenialIsLocalDenial(history, t, e);
    hide AfterVolley, LocalAfter, SharedAfter, SoundHistory, ApplyShared, Apply, Failures;
    assert StateOf(l, a) == Attempts(10, t, 0) && StateOf(l, b) == Attempts(10, t, t + LOCKOUT);
  }

  // ---------- how many failing attempts the login form lets through

  /** One attempt at the login form: a check and then, when it is let through, a failure or a success. */
  datatype FormAttempt = FormAttempt(ip: string, user: string, now: int, dbIp: int, dbUser: int, good: bool)

  function SharedTake(rows: Table, a: FormAttempt): (Table, bool) {
    var (rows1, answer) := SharedCheck(rows, a.ip, a.user, a.now, a.dbIp, a.dbUser);
    if answer != Allowed then (rows1, false)
    else if a.good then (Succeed(rows1, a.ip, a.user), false)
    else (SharedFailure(rows1, a.ip, a.user, a.now), true)
  }

  predicate Names(a: FormAttempt, s: Subject) {
    s == Subject(Ip, a.ip) || s == Subject(User, a.user)
  }

  /** The times of the failing attempts of a subject that were let through. */
  function SharedThrough(rows: Table, attempts: seq<FormAttempt>, s: Subject): seq<int>
    decreases attempts
  {
    if attempts == [] then []
    else
      var (rows', through) := SharedTake(rows, attempts[0]);
      (if through && Names(attempts[0], s) then [attempts[0].now] else []) + SharedThrough(rows', attempts[1..], s)
  }

  /** The form trims both names, the two clocks are less than a window apart. */
  predicate FormSound(a: FormAttempt) {
    && TrimSpace(a.ip) == a.ip && TrimSpace(a.user) == a.user
    && a.dbIp <= a.now + WINDOW && a.dbUser <= a.now + WINDOW
  }

  /** Times do not go back, and the subject never logs in. */
  predicate FormFailing(start: int, attempts: seq<FormAttempt>, s: Subject)
    decreases attempts
  {
    start > 0 &&
    (attempts == [] ||
     (&& start <= attempts[0].now && FormSound(attempts[0])
      && (attempts[0].good ==> !Names(attempts[0], s))
      && FormFailing(attempts[0].now, attempts[1..], s)))
  }

  /** The times seen so far: the running episode starts at `cur`, the one before it, long over, at `prev`. */
  predicate Windows(ts: seq<int>, prev: nat, cur: nat, max: int) {
    && prev <= cur && (if ts == [] then cur == 0 else cur < |ts|)
    && |ts| - cur <= max && cur - prev <= max
    && Increasing(ts) && (forall i | 0 <= i < |ts| :: ts[i] > 0)
    && (prev == cur ==> cur == 0)
    && (prev < cur ==> ts[cur] - ts[prev] > WINDOW)
  }

  predicate CountsRunning(st: Attempts, ts: seq<int>, cur: nat, now: int) {
    var r := ResetWindowIfExpired(st, now);
    && cur <= |ts| && (ts != [] ==> ts[|ts| - 1] <= now)
    && (if cur < |ts| && now - ts[cur] <= WINDOW then r.count == |ts| - cur && r.firstFailAt == ts[cur]
        else r.count == 0 && r.firstFailAt == 0)
  }

  /** Everything known about a subject whose let-through failures so far are `ts`. */
  predicate Follows(st: Attempts, found: Option<Row>, ts: seq<int>, prev: nat, cur: nat, now: int, scope: Scope) {
    && Matches(st, found, now, MaxAttempts(scope))
    && Windows(ts, prev, cur, MaxAttempts(scope)) && CountsRunning(st, ts, cur, now)
    && Spaced(ts, 2 * MaxAttempts(scope) - 1)
  }

  lemma CountsLater(st: Attempts, ts: seq<int>, cur: nat, t: int, now: int)
    requires CountsRunning(st, ts, cur, t) && t <= now && (forall i | 0 <= i < |ts| :: ts[i] > 0)
    ensures CountsRunning(st, ts, cur, now)
  {
  }

  /** Letting one more failure through keeps the spacing: old episodes give way only after their window. */
  lemma OneMoreThrough(st: Attempts, ts: seq<int>, prev: nat, cur: nat, now: int, max: int)
    returns (prev': nat, cur': nat)
    requires max >= 1 && now > 0 && Windows(ts, prev, cur, max) && CountsRunning(st, ts, cur, now)
    requires Spaced(ts, 2 * max - 1) && ResetWindowIfExpired(st, now).count < max
    ensures Windows(ts + [now], prev', cur', max) && CountsRunning(Failed(st, now, max), ts + [now], cur', now)
    ensures Spaced(ts + [now], 2 * max - 1)
  {
    var ts' := ts + [now];
    if ts != [] && now - ts[cur] <= WINDOW {
      prev', cur' := prev, cur;
    } else {
      prev', cur' := cur, |ts|;
    }
    assert Windows(ts', prev', cur', max);
    forall i, j | 0 <= i && i + (2 * max - 1) <= j < |ts'| ensures ts'[j] - ts'[i] > WINDOW {
      if j == |ts| {
        assert i <= prev' < cur' && ts'[i] <= ts'[prev'] && ts'[cur'] <= ts'[j];
      }
    }
  }

  /** The two checks of the form leave the row of any named subject matching, and deny a used-up one. */
  lemma FormChecks(rows: Table, a: FormAttempt, s: Subject, st: Attempts)
    requires FormSound(a) && a.now > 0 && Named(s) && Matches(st, RowOf(rows, s), a.now, MaxAttempts(s.scope))
    ensures var (rows1, answer) := SharedCheck(rows, a.ip, a.user, a.now, a.dbIp, a.dbUser);
            && Matches(st, RowOf(rows1, s), a.now, MaxAttempts(s.scope))
            && (answer == Allowed && Names(a, s) ==> !Full(st, a.now, s.scope))
  {
    hide Matches, CheckSubject, Full;
    CheckKeepsRow(rows, Ip, a.ip, a.now, a.dbIp, st, s);
    var rows1 := CheckSubject(rows, Ip, a.ip, a.now, a.dbIp).0;
    CheckKeepsRow(rows1, User, a.user, a.now, a.dbUser, st, s);
    if s == Subject(Ip, a.ip) {
      CheckAnswer(rows, Ip, a.ip, a.now, a.dbIp, st);
    }
    if s == Subject(User, a.user) {
      CheckAnswer(rows1, User, a.user, a.now, a.dbUser, st);
    }
  }

  lemma FormFails(rows: Table, a: FormAttempt, s: Subject, st: Attempts)
    requires FormSound(a) && a.now > 0 && Named(s) && Matches(st, RowOf(rows, s), a.now, MaxAttempts(s.scope))
    ensures Matches(if Names(a, s) then Failed(st, a.now, MaxAttempts(s.scope)) else st,
                    RowOf(SharedFailure(rows, a.ip, a.user, a.now), s), a.now, MaxAttempts(s.scope))
  {
    hide Matches, FailSubject, Failed, Upserted, RowOf;
    FailSubjectRow(rows, Ip, a.ip, a.now, s);
    FailSubjectRow(FailSubject(rows, Ip, a.ip, a.now), User, a.user, a.now, s);
    FailureMatches(st, RowOf(rows, s), a.now, MaxAttempts(s.scope));
  }

  lemma FormSucceeds(rows: Table, a: FormAttempt, s: Subject)
    requires FormSound(a) && !Names(a, s)
    ensures RowOf(Succeed(rows, a.ip, a.user), s) == RowOf(rows, s)
  {
  }

  /** What one attempt of the form does to a subject. */
  lemma FormTakes(rows: Table, a: FormAttempt, s: Subject, st: Attempts)
    requires FormSound(a) && a.now > 0 && Named(s) && (a.good ==> !Names(a, s))
    requires Matches(st, RowOf(rows, s), a.now, MaxAttempts(s.scope))
    ensures var (rows', through) := SharedTake(rows, a);
            var counted := through && Names(a, s);
            && Matches(if counted then Failed(st, a.now, MaxAttempts(s.scope)) else st, RowOf(rows', s), a.now,
                       MaxAttempts(s.scope))
            && (counted ==> !Full(st, a.now, s.scope))
  {
    hide Matches, Failed, Full, SharedCheck, SharedFailure, Succeed, RowOf;
    var rows1 := SharedCheck(rows, a.ip, a.user, a.now, a.dbIp, a.dbUser).0;
    FormChecks(rows, a, s, st);
    FormFails(rows1, a, s, st);
    if a.good {
      FormSucceeds(rows1, a, s);
    }
  }

  lemma TakeFollows(rows: Table, a: FormAttempt, s: Subject, start: int, st: Attempts, ts: seq<int>, prev: nat,
                    cur: nat)
    returns (st': Attempts, ts': seq<int>, prev': nat, cur': nat)
    requires FormSound(a) && 0 < start <= a.now && Named(s) && (a.good ==> !Names(a, s))
    requires Follows(st, RowOf(rows, s), ts, prev, cur, start, s.scope)
    ensures ts' == ts + if SharedTake(rows, a).1 && Names(a, s) then [a.now] else []
    ensures Follows(st', RowOf(SharedTake(rows, a).0, s), ts', prev', cur', a.now, s.scope)
  {
    MatchesLater(st, RowOf(rows, s), start, a.now, MaxAttempts(s.scope));
    CountsLater(st, ts, cur, start, a.now);
    hide Matches, Windows, CountsRunning, Spaced, SharedTake, RowOf, Failed;
    FormTakes(rows, a, s, st);
    st', ts', prev', cur' := st, ts, prev, cur;
    if SharedTake(rows, a).1 && Names(a, s) {
      prev', cur' := OneMoreThrough(st, ts, prev, cur, a.now, MaxAttempts(s.scope));
      st', ts' := Failed(st, a.now, MaxAttempts(s.scope)), ts + [a.now];
    }
  }

  lemma {:induction false} SharedThroughIsSpaced(rows: Table, attempts: seq<FormAttempt>, s: Subject, start: int,
                                                 st: Attempts, ts: seq<int>, prev: nat, cur: nat)
    requires FormFailing(start, attempts, s) && Named(s)
    requires Follows(st, RowOf(rows, s), ts, prev, cur, start, s.scope)
    ensures Spaced(ts + SharedThrough(rows, attempts, s), 2 * MaxAttempts(s.scope) - 1)
    ensures Increasing(ts + SharedThrough(rows, attempts, s))
    decreases attempts
  {
    if attempts == [] {
      assert ts + SharedThrough(rows, attempts, s) == ts;
    } else {
      var a := attempts[0];
      var rows' := SharedTake(rows, a).0;
      var rest := SharedThrough(rows', attempts[1..], s);
      assert SharedThrough(rows, attempts, s) == (if SharedTake(rows, a).1 && Names(a, s) then [a.now] else []) + rest;
      assert FormFailing(a.now, attempts[1..], s);
      hide *;
      var st', ts', prev', cur' := TakeFollows(rows, a, s, start, st, ts, prev, cur);
      SharedThroughIsSpaced(rows', attempts[1..], s, a.now, st', ts', prev', cur');
      Associate(ts, if SharedTake(rows, a).1 && Names(a, s) then [a.now] else [], rest);
    }
  }

  /**
   The bound of the login form, which asks the shared limiter: of the failing attempts for one user or one address
   that never logs in, at most `2 * max - 1` get through in any closed interval of one window: 19 for a user, 59
   for an address. One more than in memory, because the lock ends with the window.
   */
  lemma AtMostTwiceMaxLessOne(attempts: seq<FormAttempt>, s: Subject, start: int, lo: int)
    requires FormFailing(start, attempts, s) && Named(s)
    ensures Inside(SharedThrough(map[], attempts, s), lo, lo + WINDOW) <= 2 * MaxAttempts(s.scope) - 1
    ensures 2 * MaxAttempts(s.scope) - 1 == match s.scope case User => 19 case Ip => 59
  {
    var all := SharedThrough(map[], attempts, s);
    assert Follows(NONE, RowOf(map[], s), [], 0, 0, start, s.scope);
    hide Follows, SharedThrough, Spaced, Inside, FormFailing;
    SharedThroughIsSpaced(map[], attempts, s, start, NONE, [], 0, 0);
    assert [] + all == all;
    SpacedIsBounded(all, 2 * MaxAttempts(s.scope) - 1, lo);
  }

  // ---------- that bound is reached

  function FormVolley(ip: string, user: string, now: int, k: nat): seq<FormAttempt> {
    seq(k, _ => FormAttempt(ip, user, now, now, now, false))
  }

  function SharedAll(rows: Table, attempts: seq<FormAttempt>): Table
    decreases attempts
  {
    if attempts == [] then rows else SharedAll(SharedTake(rows, attempts[0]).0, attempts[1..])
  }

  lemma {:induction false} SharedThroughConcat(rows: Table, a: seq<FormAttempt>, b: seq<FormAttempt>, s: Subject)
    ensures SharedThrough(rows, a + b, s) == SharedThrough(rows, a, s) + SharedThrough(SharedAll(rows, a), b, s)
    decreases a
  {
    hide SharedTake;
    if a == [] {
      assert a + b == b;
    } else {
      assert (a + b)[1..] == a[1..] + b;
      SharedThroughConcat(SharedTake(rows, a[0]).0, a[1..], b, s);
    }
  }

  /** The subject is blank, and so never limited, or has `k` attempts to spare. */
  predicate Room(s: Subject, st: Attempts, found: Option<Row>, now: int, k: nat) {
    && TrimSpace(s.name) == s.name
    && (s.name != "" ==>
          && Matches(st, found, now, MaxAttempts(s.scope))
          && 0 <= ResetWindowIfExpired(st, now).count
          && ResetWindowIfExpired(st, now).count + k <= MaxAttempts(s.scope))
  }

  lemma RoomGoesThrough(rows: Table, ip: string, user: string, now: int, k: nat, a: Attempts, b: Attempts)
    requires now > 0 && k > 0
    requires Room(Subject(Ip, ip), a, RowOf(rows, Subject(Ip, ip)), now, k)
    requires Room(Subject(User, user), b, RowOf(rows, Subject(User, user)), now, k)
    ensures var (rows', through) := SharedTake(rows, FormAttempt(ip, user, now, now, now, false));
            && through
            && Room(Subject(Ip, ip), Failed(a, now, MaxAttempts(Ip)), RowOf(rows', Subject(Ip, ip)), now, k - 1)
            && Room(Subject(User, user), Failed(b, now, MaxAttempts(User)), RowOf(rows', Subject(User, user)), now,
                    k - 1)
  {
    var f := FormAttempt(ip, user, now, now, now, false);
    var x, y := Subject(Ip, ip), Subject(User, user);
    assert WINDOW > 0;
    var rows1 := CheckSubject(rows, Ip, ip, now, now).0;
    CheckAnswer(rows, Ip, ip, now, now, a);
    if user != "" {
      CheckKeepsRow(rows, Ip, ip, now, now, b, y);
    }
    CheckAnswer(rows1, User, user, now, now, b);
    if ip != "" {
      FormTakes(rows, f, x, a);
      FailedCount(a, now, MaxAttempts(Ip));
    }
    if user != "" {
      FormTakes(rows, f, y, b);
      FailedCount(b, now, MaxAttempts(User));
    }
    hide Matches, CheckSubject, SharedFailure, Failed;
  }

  lemma FailedCount(st: Attempts, now: int, max: int)
    requires now > 0
    ensures ResetWindowIfExpired(Failed(st, now, max), now).count == ResetWindowIfExpired(st, now).count + 1
  {
  }

  /** A volley with room for it goes through as a whole. */
  lemma {:induction false} RoomForVolley(rows: Table, ip: string, user: string, now: int, k: nat, a: Attempts,
                                         b: Attempts, s: Subject)
    requires now > 0 && (s == Subject(Ip, ip) || s == Subject(User, user))
    requires Room(Subject(Ip, ip), a, RowOf(rows, Subject(Ip, ip)), now, k)
    requires Room(Subject(User, user), b, RowOf(rows, Subject(User, user)), now, k)
    ensures SharedThrough(rows, FormVolley(ip, user, now, k), s) == Repeat(now, k)
    ensures var rows' := SharedAll(rows, FormVolley(ip, user, now, k));
            && Room(Subject(Ip, ip), AfterVolley(a, now, k, MaxAttempts(Ip)), RowOf(rows', Subject(Ip, ip)), now, 0)
            && Room(Subject(User, user), AfterVolley(b, now, k, MaxAttempts(User)), RowOf(rows', Subject(User, user)),
                    now, 0)
    decreases k
  {
    hide Room, SharedTake, RowOf, Failed;
    if k > 0 {
      var v := FormVolley(ip, user, now, k);
      assert v[0] == FormAttempt(ip, user, now, now, now, false) && v[1..] == FormVolley(ip, user, now, k - 1);
      RoomGoesThrough(rows, ip, user, now, k, a, b);
      var rows' := SharedTake(rows, v[0]).0;
      RoomForVolley(rows', ip, user, now, k - 1, Failed(a, now, MaxAttempts(Ip)), Failed(b, now, MaxAttempts(User)), s);
      assert Repeat(now, k) == [now] + Repeat(now, k - 1);
    }
  }

  lemma RoomLater(s: Subject, st: Attempts, found: Option<Row>, t: int, now: int, k: nat)
    requires Room(s, st, found, t, 0) && t <= now
    requires s.name != "" ==> 0 <= ResetWindowIfExpired(st, now).count
    requires s.name != "" ==> ResetWindowIfExpired(st, now).count + k <= MaxAttempts(s.scope)
    ensures Room(s, st, found, now, k)
  {
    if s.name != "" {
      MatchesLater(st, found, t, now, MaxAttempts(s.scope));
    }
    hide Matches;
  }

  /** A subject after one failure and, a whole window later, `n - 1` more: used up at first, then free again. */
  lemma TwoVolleys(t: int, n: nat, max: int)
    requires t > 0 && 2 <= n <= max
    ensures var one := AfterVolley(NONE, t, 1, max);
            var two := AfterVolley(one, t + WINDOW, n - 1, max);
            && ResetWindowIfExpired(one, t + WINDOW).count == 1
            && ResetWindowIfExpired(two, t + WINDOW + 1).count == 0
  {
    hide AfterVolley;
    AfterVolleyIs(NONE, t, 1, max);
    AfterVolleyIs(AfterVolley(NONE, t, 1, max), t + WINDOW, n - 1, max);
  }

  /** The two subjects of the volleys below: the one that is used up, and the other, which is not in the way. */
  predicate Partners(scope: Scope, ip: string, user: string) {
    && TrimSpace(ip) == ip && TrimSpace(user) == user
    && (match scope case Ip => ip != "" && user == "" case User => user != "")
  }

  lemma FirstForm(ip: string, user: string, t: int, scope: Scope)
    requires t > 0 && Partners(scope, ip, user)
    ensures var s := if scope == Ip then Subject(Ip, ip) else Subject(User, user);
            var rows := SharedAll(map[], FormVolley(ip, user, t, 1));
            && SharedThrough(map[], FormVolley(ip, user, t, 1), s) == Repeat(t, 1)
            && Room(Subject(Ip, ip), AfterVolley(NONE, t, 1, MaxAttempts(Ip)), RowOf(rows, Subject(Ip, ip)), t, 0)
            && Room(Subject(User, user), AfterVolley(NONE, t, 1, MaxAttempts(User)), RowOf(rows, Subject(User, user)),
                    t, 0)
  {
    var s := if scope == Ip then Subject(Ip, ip) else Subject(User, user);
    assert Room(Subject(Ip, ip), NONE, RowOf(map[], Subject(Ip, ip)), t, 1);
    assert Room(Subject(User, user), NONE, RowOf(map[], Subject(User, user)), t, 1);
    hide *;
    RoomForVolley(map[], ip, user, t, 1, NONE, NONE, s);
  }

  /** Another volley, from the state an earlier one left. */
  lemma NextForm(rows: Table, ip: string, user: string, t: int, now: int, k: nat, a: Attempts, b: Attempts, s: Subject)
    requires 0 < t <= now && (s == Subject(Ip, ip) || s == Subject(User, user))
    requires Room(Subject(Ip, ip), a, RowOf(rows, Subject(Ip, ip)), t, 0)
    requires Room(Subject(User, user), b, RowOf(rows, Subject(User, user)), t, 0)
    requires ip != "" ==> 0 <= ResetWindowIfExpired(a, now).count <= MaxAttempts(Ip) - k
    requires user != "" ==> 0 <= ResetWindowIfExpired(b, now).count <= MaxAttempts(User) - k
    ensures SharedThrough(rows, FormVolley(ip, user, now, k), s) == Repeat(now, k)
    ensures var rows' := SharedAll(rows, FormVolley(ip, user, now, k));
            && Room(Subject(Ip, ip), AfterVolley(a, now, k, MaxAttempts(Ip)), RowOf(rows', Subject(Ip, ip)), now, 0)
            && Room(Subject(User, user), AfterVolley(b, now, k, MaxAttempts(User)), RowOf(rows', Subject(User, user)),
                    now, 0)
  {
    RoomLater(Subject(Ip, ip), a, RowOf(rows, Subject(Ip, ip)), t, now, k);
    RoomLater(Subject(User, user), b, RowOf(rows, Subject(User, user)), t, now, k);
    hide *;
    RoomForVolley(rows, ip, user, now, k, a, b, s);
  }

  lemma ThreeForms(ip: string, user: string, t: int, scope: Scope)
    requires t > 0 && Partners(scope, ip, user)
    ensures var s := if scope == Ip then Subject(Ip, ip) else Subject(User, user);
            var n := MaxAttempts(scope);
            SharedThrough(map[], FormVolley(ip, user, t, 1) + (FormVolley(ip, user, t + WINDOW, n - 1)
                                                              + FormVolley(ip, user, t + WINDOW + 1, n)), s)
            == Repeat(t, 1) + (Repeat(t + WINDOW, n - 1) + Repeat(t + WINDOW + 1, n))
  {
    var s := if scope == Ip then Subject(Ip, ip) else Subject(User, user);
    var n := MaxAttempts(scope);
    var x, y, z := FormVolley(ip, user, t, 1), FormVolley(ip, user, t + WINDOW, n - 1),
                   FormVolley(ip, user, t + WINDOW + 1, n);
    var rows1 := SharedAll(map[], x);
    var a1, b1 := AfterVolley(NONE, t, 1, MaxAttempts(Ip)), AfterVolley(NONE, t, 1, MaxAttempts(User));
    var a2 := AfterVolley(a1, t + WINDOW, n - 1, MaxAttempts(Ip));
    var b2 := AfterVolley(b1, t + WINDOW, n - 1, MaxAttempts(User));
    var rows2 := SharedAll(rows1, y);
    assert 2 <= n <= MaxAttempts(Ip) && WINDOW > 0 && (user != "" ==> scope == User && n == MaxAttempts(User));
    TwoVolleys(t, n, MaxAttempts(Ip));
    if user != "" {
      TwoVolleys(t, n, MaxAttempts(User));
    }
    hide *;
    FirstForm(ip, user, t, scope);
    NextForm(rows1, ip, user, t, t + WINDOW, n - 1, a1, b1, s);
    NextForm(rows2, ip, user, t + WINDOW, t + WINDOW + 1, n, a2, b2, s);
    SharedThroughConcat(map[], x, y + z, s);
    SharedThroughConcat(rows1, y, z, s);
  }

  /**
   The bound is exact for users and for addresses: one failure, `max - 1` more when the window is just about over,
   and `max` as soon as it is over put `2 * max - 1` failures into one window.
   */
  lemma TwiceMaxLessOneGetThrough(ip: string, user: string, t: int, scope: Scope)
    requires t > 0 && Partners(scope, ip, user)
    ensures var s := if scope == Ip then Subject(Ip, ip) else Subject(User, user);
            var n := MaxAttempts(scope);
            var attempts := FormVolley(ip, user, t, 1) + (FormVolley(ip, user, t + WINDOW, n - 1)
                                                         + FormVolley(ip, user, t + WINDOW + 1, n));
            Inside(SharedThrough(map[], attempts, s), t + WINDOW, t + 2 * WINDOW) == 2 * n - 1
  {
    var n := MaxAttempts(scope);
    var x, y, z := Repeat(t, 1), Repeat(t + WINDOW, n - 1), Repeat(t + WINDOW + 1, n);
    assert x == [t] && WINDOW > 1 && n > 1;
    hide *;
    ThreeForms(ip, user, t, scope);
    InsideConcat(x, y + z, t + WINDOW, t + 2 * WINDOW);
    InsideConcat(y, z, t + WINDOW, t + 2 * WINDOW);
    InsideConstant(n - 1, t + WINDOW, t + WINDOW, t + 2 * WINDOW);
    InsideConstant(n, t + WINDOW + 1, t + WINDOW, t + 2 * WINDOW);
    NoneInside(x, t + WINDOW, t + 2 * WINDOW);
  }

  /** A blank name is never limited: any number of failing attempts get through at once. */
  lemma BlankIsUnlimited(rows: Table, now: int, k: nat)
    requires now > 0
    ensures SharedThrough(rows, FormVolley("", "", now, k), Subject(User, "")) == Repeat(now, k)
  {
    assert TrimSpace("") == "";
    assert Room(Subject(Ip, ""), NONE, RowOf(rows, Subject(Ip, "")), now, k);
    assert Room(Subject(User, ""), NONE, RowOf(rows, Subject(User, "")), now, k);
    hide *;
    RoomForVolley(rows, "", "", now, k, NONE, NONE, Subject(User, ""));
  }
}
