/**
 The in-memory login limiter. Times are nanoseconds and 0 is the zero time, before any clock reading.
 `check` and `onFailure` are separate critical sections; attempts are taken one after another.
 */
module LoginLimiter {
  import opened Common

  const MINUTE: int := 60_000_000_000
  const WINDOW: int := 10 * MINUTE
  const LOCKOUT: int := 15 * MINUTE

  datatype Scope = Ip | User

  /** What is limited: an address or a user name. */
  datatype Subject = Subject(scope: Scope, name: string)

  function MaxAttempts(scope: Scope): int {
    match scope
    case Ip => 30
    case User => 10
  }

  datatype Attempts = Attempts(count: int, firstFailAt: int, lockedUntil: int)

  const NONE := Attempts(0, 0, 0)

  datatype Limiter = Limiter(byIp: map<string, Attempts>, byUser: map<string, Attempts>, lastGc: int)

  const EMPTY := Limiter(map[], map[], 0)

  // ---------- the state of one subject

  function ResetWindowIfExpired(st: Attempts, now: int): Attempts {
    if st.firstFailAt == 0 || now - st.firstFailAt > WINDOW then st.(count := 0, firstFailAt := 0) else st
  }

  function Failed(st: Attempts, now: int, max: int): Attempts {
    var r := ResetWindowIfExpired(st, now);
    var counted := Attempts(r.count + 1, if r.firstFailAt == 0 then now else r.firstFailAt, r.lockedUntil);
    if counted.count >= max then counted.(lockedUntil := now + LOCKOUT) else counted
  }

  predicate Collectable(st: Attempts, now: int) {
    st.lockedUntil < now && (st.firstFailAt == 0 || st.firstFailAt < now - 2 * WINDOW)
  }

  // ---------- the whole limiter; `gc` says whether gcLocked does its work

  function Look(m: map<string, Attempts>, name: string): Attempts {
    if name in m then m[name] else NONE
  }

  function StateOf(l: Limiter, s: Subject): Attempts {
    match s.scope
    case Ip => Look(l.byIp, s.name)
    case User => Look(l.byUser, s.name)
  }

  /** `after` is `before`, without its entries of neither a lock nor a failure in the last twenty minutes if due. */
  predicate Without(before: map<string, Attempts>, after: map<string, Attempts>, due: bool, now: int) {
    && (forall name | name in after :: name in before && after[name] == before[name])
    && forall name | name in before ::
         name in after <==>
         !due || before[name].lockedUntil >= now
         || (before[name].firstFailAt != 0 && now - before[name].firstFailAt <= 1_200_000_000_000)
  }

  function Swept(m: map<string, Attempts>, now: int): map<string, Attempts> {
    map name | name in m && !Collectable(m[name], now) :: m[name]
  }

  function Gc(l: Limiter, now: int, gc: bool): Limiter {
    if !gc || (l.lastGc != 0 && now - l.lastGc < MINUTE) then l
    else Limiter(Swept(l.byIp, now), Swept(l.byUser, now), now)
  }

  datatype Answer = Allowed | Denied(retryAfter: int)

  function Check(l0: Limiter, ip: string, user: string, now: int, gc: bool): (Limiter, Answer) {
    var l := Gc(l0, now, gc);
    var ipSt := ResetWindowIfExpired(Look(l.byIp, ip), now);
    var userSt := ResetWindowIfExpired(Look(l.byUser, user), now);
    if now < ipSt.lockedUntil then (l, Denied(ipSt.lockedUntil - now))
    else if now < userSt.lockedUntil then (l, Denied(userSt.lockedUntil - now))
    else if ipSt.count >= MaxAttempts(Ip) then
      (l.(byIp := l.byIp[ip := ipSt.(lockedUntil := now + LOCKOUT)]), Denied(LOCKOUT))
    else if userSt.count >= MaxAttempts(User) then
      (l.(byUser := l.byUser[user := userSt.(lockedUntil := now + LOCKOUT)]), Denied(LOCKOUT))
    else (l, Allowed)
  }

  function OnFailure(l0: Limiter, ip: string, user: string, now: int, gc: bool): Limiter {
    var l := Gc(l0, now, gc);
    l.(byIp := l.byIp[ip := Failed(Look(l.byIp, ip), now, MaxAttempts(Ip))],
       byUser := l.byUser[user := Failed(Look(l.byUser, user), now, MaxAttempts(User))])
  }

  function OnSuccess(l: Limiter, ip: string, user: string): Limiter {
    l.(byIp := l.byIp - {ip}, byUser := l.byUser - {user})
  }

  // ---------- histories

  datatype Event =
    | CheckEvent(ip: string, user: string, now: int)
    | FailEvent(ip: string, user: string, now: int)
    | SuccessEvent(ip: string, user: string)

  function Apply(l: Limiter, e: Event, gc: bool): (Limiter, Answer) {
    match e
    case CheckEvent(ip, user, now) => Check(l, ip, user, now, gc)
    case FailEvent(ip, user, now) => (OnFailure(l, ip, user, now, gc), Allowed)
    case SuccessEvent(ip, user) => (OnSuccess(l, ip, user), Allowed)
  }

  /** The answers to every check of a history; other events contribute nothing. */
  function Answers(l: Limiter, events: seq<Event>, gc: bool): seq<Answer>
    decreases events
  {
    if events == [] then []
    else
      var (l', answer) := Apply(l, events[0], gc);
      (if events[0].CheckEvent? then [answer] else []) + Answers(l', events[1..], gc)
  }

  /** Clock readings are after the zero time and never go back. */
  predicate InOrder(start: int, events: seq<Event>)
    decreases events
  {
    start > 0 &&
    (events == [] ||
     if events[0].SuccessEvent? then InOrder(start, events[1..])
     else start <= events[0].now && InOrder(events[0].now, events[1..]))
  }

  // ---------- garbage collection is invisible

  /** Two states that no check at `now` or later can tell apart: missing and expired entries are alike. */
  predicate Alike(a: Attempts, b: Attempts, now: int) {
    && ResetWindowIfExpired(a, now).count == ResetWindowIfExpired(b, now).count
    && ResetWindowIfExpired(a, now).firstFailAt == ResetWindowIfExpired(b, now).firstFailAt
    && (a.lockedUntil == b.lockedUntil || (a.lockedUntil <= now && b.lockedUntil <= now))
  }

  ghost predicate AlikeAll(l: Limiter, l': Limiter, now: int) {
    forall s :: Alike(StateOf(l, s), StateOf(l', s), now)
  }

  /** States as the limiter makes them: nothing lies in the future, and a count needs a first failure. */
  predicate Sane(st: Attempts, now: int) {
    0 <= st.firstFailAt <= now && (st.firstFailAt == 0 ==> st.count == 0)
  }

  ghost predicate SaneAll(l: Limiter, now: int) {
    forall s :: Sane(StateOf(l, s), now)
  }

  lemma GcState(l: Limiter, now: int, gc: bool, s: Subject)
    ensures StateOf(Gc(l, now, gc), s) == StateOf(l, s)
         || (StateOf(Gc(l, now, gc), s) == NONE && Collectable(StateOf(l, s), now))
  {
  }

  lemma GcIsAlike(l: Limiter, now: int, gc: bool)
    requires SaneAll(l, now)
    ensures AlikeAll(Gc(l, now, gc), l, now) && SaneAll(Gc(l, now, gc), now)
  {
    forall s
      ensures Alike(StateOf(Gc(l, now, gc), s), StateOf(l, s), now) && Sane(StateOf(Gc(l, now, gc), s), now)
    {
      assert Sane(StateOf(l, s), now);
      GcState(l, now, gc, s);
    }
  }

  lemma AlikeLater(l: Limiter, l': Limiter, t: int, now: int)
    requires AlikeAll(l, l', t) && SaneAll(l, t) && SaneAll(l', t) && t <= now
    ensures AlikeAll(l, l', now) && SaneAll(l, now) && SaneAll(l', now)
  {
    forall s
      ensures Alike(StateOf(l, s), StateOf(l', s), now) && Sane(StateOf(l, s), now) && Sane(StateOf(l', s), now)
    {
      assert Alike(StateOf(l, s), StateOf(l', s), t) && Sane(StateOf(l, s), t) && Sane(StateOf(l', s), t);
    }
  }

  lemma AlikeChain(a: Limiter, b: Limiter, c: Limiter, d: Limiter, now: int)
    requires AlikeAll(a, b, now) && AlikeAll(b, c, now) && AlikeAll(d, c, now)
    ensures AlikeAll(a, d, now)
  {
    forall s ensures Alike(StateOf(a, s), StateOf(d, s), now) {
      assert Alike(StateOf(a, s), StateOf(b, s), now) && Alike(StateOf(b, s), StateOf(c, s), now);
      assert Alike(StateOf(d, s), StateOf(c, s), now);
    }
  }

  function Relocked(st: Attempts, now: int): Attempts {
    ResetWindowIfExpired(st, now).(lockedUntil := now + LOCKOUT)
  }

  predicate Locked(st: Attempts, now: int) {
    now < st.lockedUntil
  }

  /** The count of the running window is used up. */
  predicate Full(st: Attempts, now: int, scope: Scope) {
    ResetWindowIfExpired(st, now).count >= MaxAttempts(scope)
  }

  predicate Touches(e: Event, s: Subject) {
    s == Subject(Ip, e.ip) || s == Subject(User, e.user)
  }

  /** The subject a check locks again, if any: an unlocked one whose count is used up. */
  function RelockOf(g: Limiter, ip: string, user: string, now: int): Option<Subject> {
    var ipSt, userSt := StateOf(g, Subject(Ip, ip)), StateOf(g, Subject(User, user));
    if Locked(ipSt, now) || Locked(userSt, now) then None
    else if Full(ipSt, now, Ip) then Some(Subject(Ip, ip))
    else if Full(userSt, now, User) then Some(Subject(User, user))
    else None
  }

  /** An event seen by one subject, `g` being the limiter after the sweep. */
  function Next(g: Limiter, e: Event, s: Subject): Attempts {
    match e
    case CheckEvent(ip, user, now) =>
      if RelockOf(g, ip, user, now) == Some(s) then Relocked(StateOf(g, s), now) else StateOf(g, s)
    case FailEvent(_, _, now) =>
      if Touches(e, s) then Failed(StateOf(g, s), now, MaxAttempts(s.scope)) else StateOf(g, s)
    case SuccessEvent(_, _) => if Touches(e, s) then NONE else StateOf(g, s)
  }

  function SweptBefore(l: Limiter, e: Event, gc: bool): Limiter {
    if e.SuccessEvent? then l else Gc(l, e.now, gc)
  }

  lemma ApplyIsNext(l: Limiter, e: Event, gc: bool, s: Subject)
    ensures StateOf(Apply(l, e, gc).0, s) == Next(SweptBefore(l, e, gc), e, s)
  {
    hide Gc;
  }

  lemma NextAlike(g: Limiter, g': Limiter, e: Event, now: int, s: Subject)
    requires AlikeAll(g, g', now) && SaneAll(g, now) && SaneAll(g', now) && now > 0
    requires !e.SuccessEvent? ==> e.now == now
    ensures Alike(Next(g, e, s), Next(g', e, s), now)
    ensures Sane(Next(g, e, s), now) && Sane(Next(g', e, s), now)
  {
    assert Alike(StateOf(g, s), StateOf(g', s), now) && Sane(StateOf(g, s), now) && Sane(StateOf(g', s), now);
    var ip, user := Subject(Ip, e.ip), Subject(User, e.user);
    assert Alike(StateOf(g, ip), StateOf(g', ip), now) && Alike(StateOf(g, user), StateOf(g', user), now);
    hide AlikeAll, SaneAll, StateOf;
    if e.CheckEvent? {
      assert RelockOf(g, e.ip, e.user, now) == RelockOf(g', e.ip, e.user, now);
    }
  }

  lemma AnswerAlike(g: Limiter, g': Limiter, ip: string, user: string, now: int, l: Limiter, l': Limiter, gc: bool,
                    gc': bool)
    requires g == Gc(l, now, gc) && g' == Gc(l', now, gc') && AlikeAll(g, g', now)
    ensures Check(l, ip, user, now, gc).1 == Check(l', ip, user, now, gc').1
  {
    var a, b := Subject(Ip, ip), Subject(User, user);
    assert Alike(StateOf(g, a), StateOf(g', a), now) && Alike(StateOf(g, b), StateOf(g', b), now);
    hide Gc, AlikeAll;
  }

  /** One event on limiters that look alike gives the same answer and leaves them looking alike. */
  lemma ApplyKeepsAlike(l: Limiter, l': Limiter, e: Event, now: int, gc: bool, gc': bool)
    requires AlikeAll(l, l', now) && SaneAll(l, now) && SaneAll(l', now) && now > 0
    requires !e.SuccessEvent? ==> e.now == now
    ensures Apply(l, e, gc).1 == Apply(l', e, gc').1
    ensures AlikeAll(Apply(l, e, gc).0, Apply(l', e, gc').0, now)
    ensures SaneAll(Apply(l, e, gc).0, now) && SaneAll(Apply(l', e, gc').0, now)
  {
    var g, g' := SweptBefore(l, e, gc), SweptBefore(l', e, gc');
    if !e.SuccessEvent? {
      GcIsAlike(l, now, gc);
      GcIsAlike(l', now, gc');
      AlikeChain(g, l, l', g', now);
    }
    if e.CheckEvent? {
      AnswerAlike(g, g', e.ip, e.user, now, l, l', gc, gc');
    }
    forall s
      ensures Alike(StateOf(Apply(l, e, gc).0, s), StateOf(Apply(l', e, gc').0, s), now)
      ensures Sane(StateOf(Apply(l, e, gc).0, s), now) && Sane(StateOf(Apply(l', e, gc').0, s), now)
    {
      hide AlikeAll, SaneAll;
      ApplyIsNext(l, e, gc, s);
      ApplyIsNext(l', e, gc', s);
      NextAlike(g, g', e, now, s);
    }
  }

  /** For times that never go back, a limiter whose garbage collection does nothing answers every check alike. */
  lemma {:induction false} GcIsInvisible(l: Limiter, l': Limiter, events: seq<Event>, start: int)
    requires AlikeAll(l, l', start) && SaneAll(l, start) && SaneAll(l', start) && InOrder(start, events)
    ensures Answers(l, events, true) == Answers(l', events, false)
    decreases events
  {
    if events != [] {
      var e := events[0];
      var now := if e.SuccessEvent? then start else e.now;
      AlikeLater(l, l', start, now);
      ApplyKeepsAlike(l, l', e, now, true, false);
      hide Apply, AlikeAll, SaneAll;
      GcIsInvisible(Apply(l, e, true).0, Apply(l', e, false).0, events[1..], now);
    }
  }

  // ---------- the re-lock branches

  /** A state whose count is used up carries the lock of its last failure. */
  predicate LockedWhenFull(st: Attempts, scope: Scope) {
    st.count >= MaxAttempts(scope) ==> st.firstFailAt + LOCKOUT <= st.lockedUntil
  }

  ghost predicate AllLockedWhenFull(l: Limiter) {
    forall s :: LockedWhenFull(StateOf(l, s), s.scope)
  }

  function Final(l: Limiter, events: seq<Event>): Limiter
    decreases events
  {
    if events == [] then l else Final(Apply(l, events[0], true).0, events[1..])
  }

  function LastTime(start: int, events: seq<Event>): int
    decreases events
  {
    if events == [] then start
    else LastTime(if events[0].SuccessEvent? then start else events[0].now, events[1..])
  }

  lemma StaysLockedWhenFull(l: Limiter, e: Event, now: int, s: Subject)
    requires SaneAll(l, now) && AllLockedWhenFull(l) && now > 0
    requires !e.SuccessEvent? ==> e.now == now
    ensures LockedWhenFull(StateOf(Apply(l, e, true).0, s), s.scope)
  {
    var g := SweptBefore(l, e, true);
    ApplyIsNext(l, e, true, s);
    if !e.SuccessEvent? {
      GcState(l, now, true, s);
    }
    assert Sane(StateOf(l, s), now) && LockedWhenFull(StateOf(l, s), s.scope);
    hide AllLockedWhenFull, SaneAll, Gc, StateOf;
  }

  lemma {:induction false} FinalKeeps(l: Limiter, events: seq<Event>, start: int)
    requires SaneAll(l, start) && AllLockedWhenFull(l) && InOrder(start, events)
    ensures SaneAll(Final(l, events), LastTime(start, events)) && AllLockedWhenFull(Final(l, events))
    ensures start <= LastTime(start, events)
    decreases events
  {
    if events != [] {
      var e := events[0];
      var now := if e.SuccessEvent? then start else e.now;
      assert AlikeAll(l, l, start);
      AlikeLater(l, l, start, now);
      ApplyKeepsAlike(l, l, e, now, true, true);
      var l1 := Apply(l, e, true).0;
      forall s ensures LockedWhenFull(StateOf(l1, s), s.scope) {
        StaysLockedWhenFull(l, e, now, s);
      }
      hide SaneAll, AlikeAll, AllLockedWhenFull, Apply;
      FinalKeeps(l1, events[1..], now);
    }
  }

  /** A subject whose running count is used up is locked. */
  lemma FullMeansLocked(l: Limiter, t: int, now: int, s: Subject)
    requires SaneAll(l, t) && AllLockedWhenFull(l) && 0 < t <= now
    ensures Full(StateOf(l, s), now, s.scope) ==> Locked(StateOf(l, s), now)
  {
    assert Sane(StateOf(l, s), t) && LockedWhenFull(StateOf(l, s), s.scope);
  }

  /** After every history, in whatever order its critical sections ran, no check ever locks again. */
  lemma NeverRelocks(l: Limiter, events: seq<Event>, start: int, ip: string, user: string, now: int)
    requires SaneAll(l, start) && AllLockedWhenFull(l) && InOrder(start, events) && LastTime(start, events) <= now
    ensures RelockOf(Final(l, events), ip, user, now) == None
  {
    FinalKeeps(l, events, start);
    FullMeansLocked(Final(l, events), LastTime(start, events), now, Subject(Ip, ip));
    FullMeansLocked(Final(l, events), LastTime(start, events), now, Subject(User, user));
    hide SaneAll, AllLockedWhenFull, Final, LastTime, Full, Locked, StateOf;
  }

  // ---------- what the object's answers and writes mean

  lemma {:induction false} FinalSnoc(l: Limiter, events: seq<Event>, e: Event)
    ensures Final(l, events + [e]) == Apply(Final(l, events), e, true).0
    decreases events
  {
    hide Apply;
    if events == [] {
      assert events + [e] == [e] && [e][1..] == [];
      assert Final(l, [e]) == Final(Apply(l, e, true).0, []);
    } else {
      assert (events + [e])[1..] == events[1..] + [e];
      FinalSnoc(Apply(l, events[0], true).0, events[1..], e);
    }
  }

  lemma {:induction false} InOrderSnoc(start: int, events: seq<Event>, e: Event)
    requires InOrder(start, events + [e])
    ensures InOrder(start, events) && (!e.SuccessEvent? ==> LastTime(start, events) <= e.now)
    decreases events
  {
    if events == [] {
      assert events + [e] == [e];
    } else {
      assert (events + [e])[1..] == events[1..] + [e];
      InOrderSnoc(if events[0].SuccessEvent? then start else events[0].now, events[1..], e);
    }
  }

  /** The states after a history, and what they promise at any later time. */
  lemma FinalIsSane(events: seq<Event>, e: Event, now: int)
    requires InOrder(1, events + [e]) && now == (if e.SuccessEvent? then LastTime(1, events) else e.now)
    ensures SaneAll(Final(EMPTY, events), now) && now > 0
    ensures forall s :: Full(StateOf(Final(EMPTY, events), s), now, s.scope) ==>
                          Locked(StateOf(Final(EMPTY, events), s), now)
  {
    InOrderSnoc(1, events, e);
    FinalKeeps(EMPTY, events, 1);
    var l, t := Final(EMPTY, events), LastTime(1, events);
    assert AlikeAll(l, l, t);
    AlikeLater(l, l, t, now);
    forall s ensures Full(StateOf(l, s), now, s.scope) ==> Locked(StateOf(l, s), now) {
      FullMeansLocked(l, t, now, s);
    }
  }

  /** The answer of a check in terms of the two subjects: the wait for the first lock that still holds, if any. */
  function LockAnswer(l: Limiter, ip: string, user: string, now: int): Answer {
    var a, b := StateOf(l, Subject(Ip, ip)), StateOf(l, Subject(User, user));
    if Locked(a, now) then Denied(a.lockedUntil - now)
    else if Locked(b, now) then Denied(b.lockedUntil - now)
    else Allowed
  }

  /** After any history a check denies exactly while a lock holds, and changes nothing that a later check can see. */
  lemma CheckMeans(events: seq<Event>, ip: string, user: string, now: int)
    requires InOrder(1, events + [CheckEvent(ip, user, now)])
    ensures var l := Final(EMPTY, events);
            && Check(l, ip, user, now, true).1 == LockAnswer(l, ip, user, now)
            && AlikeAll(Check(l, ip, user, now, true).0, l, now)
  {
    var l, e := Final(EMPTY, events), CheckEvent(ip, user, now);
    var a, b := Subject(Ip, ip), Subject(User, user);
    FinalIsSane(events, e, now);
    GcState(l, now, true, a);
    GcState(l, now, true, b);
    GcIsAlike(l, now, true);
    assert RelockOf(Gc(l, now, true), ip, user, now) == None;
    assert Check(l, ip, user, now, true).1 == LockAnswer(l, ip, user, now);
    assert Check(l, ip, user, now, true).0 == Gc(l, now, true);
    hide Check, AlikeAll;
  }

  /** Failures of the running window, and their count after one more. */
  function RunningCount(st: Attempts, now: int): int {
    ResetWindowIfExpired(st, now).count
  }

  /** A failure opens a window or adds to the running one, and locks exactly when the count is then used up. */
  predicate Counted(before: Attempts, after: Attempts, now: int, scope: Scope) {
    && RunningCount(after, now) == RunningCount(before, now) + 1
    && (Locked(after, now) <==> Locked(before, now) || RunningCount(after, now) >= MaxAttempts(scope))
    && (RunningCount(after, now) >= MaxAttempts(scope) ==> after.lockedUntil == now + LOCKOUT)
  }

  lemma FailureMeans(events: seq<Event>, ip: string, user: string, now: int)
    requires InOrder(1, events + [FailEvent(ip, user, now)])
    ensures var l := Final(EMPTY, events);
            var l' := OnFailure(l, ip, user, now, true);
            && Counted(StateOf(l, Subject(Ip, ip)), StateOf(l', Subject(Ip, ip)), now, Ip)
            && Counted(StateOf(l, Subject(User, user)), StateOf(l', Subject(User, user)), now, User)
            && forall s | s != Subject(Ip, ip) && s != Subject(User, user) :: Alike(StateOf(l', s), StateOf(l, s), now)
  {
    var l, e := Final(EMPTY, events), FailEvent(ip, user, now);
    FinalIsSane(events, e, now);
    GcIsAlike(l, now, true);
    forall s
      ensures Touches(e, s) ==> Counted(StateOf(l, s), StateOf(OnFailure(l, ip, user, now, true), s), now, s.scope)
      ensures !Touches(e, s) ==> Alike(StateOf(OnFailure(l, ip, user, now, true), s), StateOf(l, s), now)
    {
      ApplyIsNext(l, e, true, s);
      GcState(l, now, true, s);
      assert Sane(StateOf(l, s), now) && Alike(StateOf(Gc(l, now, true), s), StateOf(l, s), now);
      hide SaneAll, AlikeAll, Gc, OnFailure;
    }
    assert Touches(e, Subject(Ip, ip)) && Touches(e, Subject(User, user));
    hide Counted, Alike, OnFailure, Final;
  }

  /** A login clears both subjects: whatever their history, the next check of the pair is allowed. */
  lemma SuccessMeans(l: Limiter, ip: string, user: string)
    ensures var l' := OnSuccess(l, ip, user);
            && (forall now, gc | now > 0 :: Check(l', ip, user, now, gc).1 == Allowed)
            && forall s | s != Subject(Ip, ip) && s != Subject(User, user) :: StateOf(l', s) == StateOf(l, s)
  {
    var l' := OnSuccess(l, ip, user);
    forall now, gc | now > 0 ensures Check(l', ip, user, now, gc).1 == Allowed {
      GcState(l', now, gc, Subject(Ip, ip));
      GcState(l', now, gc, Subject(User, user));
    }
  }

  // ---------- the object

  class Store {
    var byIp: map<string, Attempts>
    var byUser: map<string, Attempts>
    var lastGc: int
    ghost var log: seq<Event>

    /** The fields are what the critical sections so far, in their order, have made of an empty limiter. */
    ghost predicate Valid()
      reads this
    {
      Abs() == Final(EMPTY, log)
    }

    function Abs(): Limiter
      reads this
    {
      Limiter(byIp, byUser, lastGc)
    }

    constructor ()
      ensures Valid() && log == [] && Abs() == EMPTY
    {
      byIp, byUser, lastGc, log := map[], map[], 0, [];
    }

    method Sweep(m: map<string, Attempts>, now: int) returns (kept: map<string, Attempts>)
      ensures kept == Swept(m, now)
    {
      kept := m;
      var todo := m.Keys;
      while todo != {}
        invariant todo <= m.Keys
        invariant kept == map name | name in m && (name in todo || !Collectable(m[name], now)) :: m[name]
        decreases |todo|
      {
        var name :| name in todo;
        if Collectable(m[name], now) {
          kept := kept - {name};
        }
        todo := todo - {name};
      }
    }

    method GcLocked(now: int)
      modifies this`byIp, this`byUser, this`lastGc
      ensures Abs() == Gc(old(Abs()), now, true)
      ensures var due := old(lastGc) == 0 || now - old(lastGc) >= 60_000_000_000;
              && lastGc == (if due then now else old(lastGc))
              && Without(old(byIp), byIp, due, now) && Without(old(byUser), byUser, due, now)
    {
      if lastGc != 0 && now - lastGc < MINUTE {
        return;
      }
      byIp := Sweep(byIp, now);
      byUser := Sweep(byUser, now);
      lastGc := now;
    }

    /** The critical section of `check`. */
    method CheckLocked(ip: string, user: string, now: int) returns (answer: Answer)
      modifies this`byIp, this`byUser, this`lastGc
      ensures (Abs(), answer) == Check(old(Abs()), ip, user, now, true)
    {
      GcLocked(now);
      var ipSt := ResetWindowIfExpired(Look(byIp, ip), now);
      var userSt := ResetWindowIfExpired(Look(byUser, user), now);
      if now < ipSt.lockedUntil {
        return Denied(ipSt.lockedUntil - now);
      }
      if now < userSt.lockedUntil {
        return Denied(userSt.lockedUntil - now);
      }
      if ipSt.count >= MaxAttempts(Ip) {
        byIp := byIp[ip := ipSt.(lockedUntil := now + LOCKOUT)];
        return Denied(LOCKOUT);
      }
      if userSt.count >= MaxAttempts(User) {
        byUser := byUser[user := userSt.(lockedUntil := now + LOCKOUT)];
        return Denied(LOCKOUT);
      }
      return Allowed;
    }

    /** The critical section of `onFailure`. */
    method FailLocked(ip: string, user: string, now: int)
      modifies this`byIp, this`byUser, this`lastGc
      ensures Abs() == OnFailure(old(Abs()), ip, user, now, true)
    {
      GcLocked(now);
      var ipSt := ResetWindowIfExpired(Look(byIp, ip), now);
      if ipSt.firstFailAt == 0 {
        ipSt := ipSt.(firstFailAt := now);
      }
      ipSt := ipSt.(count := ipSt.count + 1);
      if ipSt.count >= MaxAttempts(Ip) {
        ipSt := ipSt.(lockedUntil := now + LOCKOUT);
      }
      byIp := byIp[ip := ipSt];
      var userSt := ResetWindowIfExpired(Look(byUser, user), now);
      if userSt.firstFailAt == 0 {
        userSt := userSt.(firstFailAt := now);
      }
      userSt := userSt.(count := userSt.count + 1);
      if userSt.count >= MaxAttempts(User) {
        userSt := userSt.(lockedUntil := now + LOCKOUT);
      }
      byUser := byUser[user := userSt];
    }

    method CheckAttempt(ip: string, user: string, now: int) returns (answer: Answer)
      requires Valid()
      modifies this
      ensures Valid() && log == old(log) + [CheckEvent(ip, user, now)]
      ensures (Abs(), answer) == Check(old(Abs()), ip, user, now, true)
      ensures InOrder(1, log) ==> answer == LockAnswer(old(Abs()), ip, user, now)
      ensures InOrder(1, log) ==> AlikeAll(Abs(), old(Abs()), now)
    {
      FinalSnoc(EMPTY, log, CheckEvent(ip, user, now));
      if InOrder(1, log + [CheckEvent(ip, user, now)]) {
        CheckMeans(log, ip, user, now);
      }
      hide Check, Final, InOrder, LockAnswer, AlikeAll;
      answer := CheckLocked(ip, user, now);
      log := log + [CheckEvent(ip, user, now)];
    }

    method RecordFailure(ip: string, user: string, now: int)
      requires Valid()
      modifies this
      ensures Valid() && log == old(log) + [FailEvent(ip, user, now)]
      ensures Abs() == OnFailure(old(Abs()), ip, user, now, true)
      ensures InOrder(1, log) ==>
                && Counted(old(StateOf(Abs(), Subject(Ip, ip))), StateOf(Abs(), Subject(Ip, ip)), now, Ip)
                && Counted(old(StateOf(Abs(), Subject(User, user))), StateOf(Abs(), Subject(User, user)), now, User)
      ensures InOrder(1, log) ==>
                forall s | s != Subject(Ip, ip) && s != Subject(User, user) ::
                  Alike(StateOf(Abs(), s), old(StateOf(Abs(), s)), now)
    {
      FinalSnoc(EMPTY, log, FailEvent(ip, user, now));
      if InOrder(1, log + [FailEvent(ip, user, now)]) {
        FailureMeans(log, ip, user, now);
      }
      hide OnFailure, Final, InOrder, Counted, Alike, StateOf;
      FailLocked(ip, user, now);
      log := log + [FailEvent(ip, user, now)];
    }

    method RecordSuccess(ip: string, user: string)
      requires Valid()
      modifies this
      ensures Valid() && log == old(log) + [SuccessEvent(ip, user)]
      ensures Abs() == OnSuccess(old(Abs()), ip, user)
      ensures forall now, gc | now > 0 :: Check(Abs(), ip, user, now, gc).1 == Allowed
      ensures forall s | s != Subject(Ip, ip) && s != Subject(User, user) :: StateOf(Abs(), s) == old(StateOf(Abs(), s))
    {
      FinalSnoc(EMPTY, log, SuccessEvent(ip, user));
      SuccessMeans(Abs(), ip, user);
      hide Final, Check, StateOf;
      byIp := byIp - {ip};
      byUser := byUser - {user};
      log := log + [SuccessEvent(ip, user)];
    }
  }

  // ---------- how many failing attempts get through

  /** One login attempt: a check and then, when it is let through, a failure or a success. */
  datatype Attempt = Attempt(ip: string, user: string, now: int, good: bool)

  function Take(l: Limiter, a: Attempt): (Limiter, bool) {
    var (l1, answer) := Check(l, a.ip, a.user, a.now, true);
    if answer != Allowed then (l1, false)
    else if a.good then (OnSuccess(l1, a.ip, a.user), false)
    else (OnFailure(l1, a.ip, a.user, a.now, true), true)
  }

  predicate Concerns(a: Attempt, s: Subject) {
    s == Subject(Ip, a.ip) || s == Subject(User, a.user)
  }

  /** The times of the failing attempts of a subject that were let through. */
  function LetThrough(l: Limiter, attempts: seq<Attempt>, s: Subject): seq<int>
    decreases attempts
  {
    if attempts == [] then []
    else
      var (l', through) := Take(l, attempts[0]);
      (if through && Concerns(attempts[0], s) then [attempts[0].now] else []) + LetThrough(l', attempts[1..], s)
  }

  /** Times do not go back, and the subject never logs in. */
  predicate Failing(start: int, attempts: seq<Attempt>, s: Subject)
    decreases attempts
  {
    start > 0 &&
    (attempts == [] ||
     (&& start <= attempts[0].now
      && (attempts[0].good ==> !Concerns(attempts[0], s))
      && Failing(attempts[0].now, attempts[1..], s)))
  }

  /** More than `n` consecutive times never fit into one window. */
  predicate Spaced(ts: seq<int>, n: nat) {
    forall i, j | 0 <= i && i + n <= j < |ts| :: ts[j] - ts[i] > WINDOW
  }

  /**
   How the times seen so far split: the running episode starts at index `cur`, the one before it at `prev`.
   A new episode starts only when the old window is over, and after a lockout if the old one was used up.
   */
  predicate Episodes(ts: seq<int>, prev: nat, cur: nat, max: int) {
    && prev <= cur && (if ts == [] then cur == 0 else cur < |ts|)
    && |ts| - cur <= max && cur - prev <= max
    && (forall i | 0 <= i < |ts| :: ts[i] > 0)
    && (forall i, j | 0 <= i <= j < |ts| :: ts[i] <= ts[j])
    && (prev == cur ==> cur == 0)
    && (prev < cur ==>
          && ts[cur] - ts[prev] > WINDOW
          && (cur - prev == max ==> ts[cur] - ts[cur - 1] >= LOCKOUT))
  }

  /** The stored state agrees with the running episode. */
  predicate Tracks(st: Attempts, ts: seq<int>, cur: nat, now: int, max: int) {
    var r := ResetWindowIfExpired(st, now);
    if ts == [] || cur >= |ts| then r.count == 0 && r.firstFailAt == 0
    else
      && ts[|ts| - 1] <= now
      && (if now - ts[cur] <= WINDOW then r.count == |ts| - cur && r.firstFailAt == ts[cur]
          else r.count == 0 && r.firstFailAt == 0)
      && (|ts| - cur == max && now < ts[|ts| - 1] + LOCKOUT ==> st.lockedUntil == ts[|ts| - 1] + LOCKOUT)
  }

  lemma TracksLater(st: Attempts, st': Attempts, ts: seq<int>, prev: nat, cur: nat, t: int, now: int, max: int)
    requires Episodes(ts, prev, cur, max) && Tracks(st, ts, cur, t, max) && t <= now
    requires st' == st || (st' == NONE && Collectable(st, now))
    ensures Tracks(st', ts, cur, now, max)
  {
  }

  /** A used-up episode is locked until its window is over, so a check never finds it full but unlocked. */
  lemma TrackedIsNotRelocked(st: Attempts, ts: seq<int>, prev: nat, cur: nat, now: int, scope: Scope)
    requires Episodes(ts, prev, cur, MaxAttempts(scope)) && Tracks(st, ts, cur, now, MaxAttempts(scope))
    requires Full(st, now, scope)
    ensures Locked(st, now)
  {
  }

  /** Letting one more failure through keeps the split, the spacing and the agreement. */
  lemma FailureExtends(st: Attempts, ts: seq<int>, prev: nat, cur: nat, now: int, max: int)
    returns (prev': nat, cur': nat)
    requires max >= 2 && now > 0
    requires Episodes(ts, prev, cur, max) && Tracks(st, ts, cur, now, max) && Spaced(ts, 2 * max - 2)
    requires !Locked(st, now) && ResetWindowIfExpired(st, now).count < max
    ensures Episodes(ts + [now], prev', cur', max) && Tracks(Failed(st, now, max), ts + [now], cur', now, max)
    ensures Spaced(ts + [now], 2 * max - 2)
  {
    var ts' := ts + [now];
    if ts != [] && now - ts[cur] <= WINDOW {
      prev', cur' := prev, cur;
    } else {
      prev', cur' := cur, |ts|;
    }
    assert Episodes(ts', prev', cur', max);
    forall i, j | 0 <= i && i + (2 * max - 2) <= j < |ts'| ensures ts'[j] - ts'[i] > WINDOW {
      if j == |ts| {
        assert i <= cur' - (max - 1);
        if cur' - prev' == max {
          assert ts'[i] <= ts'[cur' - 1];
        } else {
          assert ts'[i] <= ts'[prev'];
        }
      }
    }
  }

  /** The state of the subject when the failure of a let-through attempt is recorded. */
  function Settled(l: Limiter, a: Attempt, s: Subject): Attempts {
    StateOf(Gc(Check(l, a.ip, a.user, a.now, true).0, a.now, true), s)
  }

  lemma TakeState(l: Limiter, a: Attempt, s: Subject, start: int, ts: seq<int>, prev: nat, cur: nat)
    requires 0 < start <= a.now && (a.good ==> !Concerns(a, s))
    requires Episodes(ts, prev, cur, MaxAttempts(s.scope))
    requires Tracks(StateOf(l, s), ts, cur, start, MaxAttempts(s.scope))
    ensures var (l', through) := Take(l, a);
            var max := MaxAttempts(s.scope);
            && Tracks(Settled(l, a, s), ts, cur, a.now, max)
            && (if through && Concerns(a, s) then
                  && !Locked(Settled(l, a, s), a.now)
                  && ResetWindowIfExpired(Settled(l, a, s), a.now).count < max
                  && StateOf(l', s) == Failed(Settled(l, a, s), a.now, max)
                else Tracks(StateOf(l', s), ts, cur, a.now, max))
  {
    var max := MaxAttempts(s.scope);
    var check, fail := CheckEvent(a.ip, a.user, a.now), FailEvent(a.ip, a.user, a.now);
    var success := SuccessEvent(a.ip, a.user);
    var g := Gc(l, a.now, true);
    var l1 := Check(l, a.ip, a.user, a.now, true).0;
    GcState(l, a.now, true, s);
    TracksLater(StateOf(l, s), StateOf(g, s), ts, prev, cur, start, a.now, max);
    ApplyIsNext(l, check, true, s);
    if Full(StateOf(g, s), a.now, s.scope) {
      TrackedIsNotRelocked(StateOf(g, s), ts, prev, cur, a.now, s.scope);
    }
    assert StateOf(l1, s) == StateOf(g, s);
    GcState(l1, a.now, true, s);
    TracksLater(StateOf(l1, s), Settled(l, a, s), ts, prev, cur, a.now, a.now, max);
    ApplyIsNext(l1, fail, true, s);
    ApplyIsNext(l1, success, true, s);
    if Check(l, a.ip, a.user, a.now, true).1 == Allowed && Concerns(a, s) {
      AllowedIsFree(l, a.ip, a.user, a.now, s);
    }
    hide Tracks, Episodes, Check, OnFailure, OnSuccess, Gc, Failed;
  }

  /** A check that allows found neither subject locked or used up. */
  lemma AllowedIsFree(l: Limiter, ip: string, user: string, now: int, s: Subject)
    requires Check(l, ip, user, now, true).1 == Allowed && Touches(CheckEvent(ip, user, now), s)
    ensures !Locked(StateOf(Gc(l, now, true), s), now) && !Full(StateOf(Gc(l, now, true), s), now, s.scope)
  {
  }

  predicate Increasing(ts: seq<int>) {
    forall i, j | 0 <= i <= j < |ts| :: ts[i] <= ts[j]
  }

  lemma Associate(a: seq<int>, b: seq<int>, c: seq<int>)
    ensures (a + b) + c == a + (b + c)
  {
  }

  /** Everything known about a subject whose let-through failures so far are `ts`. */
  predicate Known(st: Attempts, ts: seq<int>, prev: nat, cur: nat, now: int, scope: Scope) {
    && Episodes(ts, prev, cur, MaxAttempts(scope))
    && Tracks(st, ts, cur, now, MaxAttempts(scope))
    && Spaced(ts, 2 * MaxAttempts(scope) - 2)
  }

  lemma TakeKeepsKnown(l: Limiter, a: Attempt, s: Subject, start: int, ts: seq<int>, prev: nat, cur: nat)
    returns (ts': seq<int>, prev': nat, cur': nat)
    requires 0 < start <= a.now && (a.good ==> !Concerns(a, s))
    requires Known(StateOf(l, s), ts, prev, cur, start, s.scope)
    ensures ts' == ts + if Take(l, a).1 && Concerns(a, s) then [a.now] else []
    ensures Known(StateOf(Take(l, a).0, s), ts', prev', cur', a.now, s.scope)
  {
    TakeState(l, a, s, start, ts, prev, cur);
    hide Take, StateOf, Settled, Concerns, Tracks, Episodes, Spaced;
    ts', prev', cur' := ts, prev, cur;
    if Take(l, a).1 && Concerns(a, s) {
      prev', cur' := FailureExtends(Settled(l, a, s), ts, prev, cur, a.now, MaxAttempts(s.scope));
      ts' := ts + [a.now];
    }
  }

  /** The inductive form: `ts` are the times let through before this point. */
  lemma {:induction false} LetThroughIsSpaced(l: Limiter, attempts: seq<Attempt>, s: Subject, start: int,
                                              ts: seq<int>, prev: nat, cur: nat)
    requires Failing(start, attempts, s) && Known(StateOf(l, s), ts, prev, cur, start, s.scope)
    ensures Spaced(ts + LetThrough(l, attempts, s), 2 * MaxAttempts(s.scope) - 2)
    ensures Increasing(ts + LetThrough(l, attempts, s))
    decreases attempts
  {
    if attempts == [] {
      assert ts + LetThrough(l, attempts, s) == ts;
    } else {
      var a := attempts[0];
      var l' := Take(l, a).0;
      var rest := LetThrough(l', attempts[1..], s);
      assert LetThrough(l, attempts, s) == (if Take(l, a).1 && Concerns(a, s) then [a.now] else []) + rest;
      assert Failing(a.now, attempts[1..], s);
      hide *;
      var ts', prev', cur' := TakeKeepsKnown(l, a, s, start, ts, prev, cur);
      LetThroughIsSpaced(l', attempts[1..], s, a.now, ts', prev', cur');
      Associate(ts, if Take(l, a).1 && Concerns(a, s) then [a.now] else [], rest);
    }
  }

  /** How many of the times lie in the closed interval. */
  function Inside(ts: seq<int>, lo: int, hi: int): nat {
    if ts == [] then 0
    else Inside(ts[..|ts| - 1], lo, hi) + if lo <= ts[|ts| - 1] <= hi then 1 else 0
  }

  lemma {:induction false} NoneInside(ts: seq<int>, lo: int, hi: int)
    requires forall i | 0 <= i < |ts| :: ts[i] < lo
    ensures Inside(ts, lo, hi) == 0
  {
    if ts != [] {
      NoneInside(ts[..|ts| - 1], lo, hi);
    }
  }

  lemma {:induction false} InsidePrefix(ts: seq<int>, k: nat, lo: int, hi: int)
    requires k <= |ts|
    ensures Inside(ts, lo, hi) <= Inside(ts[..k], lo, hi) + (|ts| - k)
  {
    if k == |ts| {
      assert ts[..k] == ts;
    } else {
      assert ts[..|ts| - 1][..k] == ts[..k];
      InsidePrefix(ts[..|ts| - 1], k, lo, hi);
    }
  }

  lemma {:induction false} SpacedIsBounded(ts: seq<int>, n: nat, lo: int)
    requires Spaced(ts, n) && Increasing(ts)
    ensures Inside(ts, lo, lo + WINDOW) <= n
  {
    if ts != [] {
      var m := |ts| - 1;
      if lo <= ts[m] <= lo + WINDOW && n <= m {
        var k := m + 1 - n;
        NoneInside(ts[..k], lo, lo + WINDOW);
        InsidePrefix(ts, k, lo, lo + WINDOW);
      } else if lo <= ts[m] <= lo + WINDOW {
        InsidePrefix(ts, 0, lo, lo + WINDOW);
      } else {
        SpacedIsBounded(ts[..m], n, lo);
      }
    }
  }

  /**
   The trace bound. Whatever else happens, of the failing attempts for one user or one address that never
   logs in, at most `2 * max - 2` get through in any closed interval of one window: 18 for a user, 58 for an
   address.
   */
  lemma AtMostTwiceMaxLessTwo(attempts: seq<Attempt>, s: Subject, start: int, lo: int)
    requires Failing(start, attempts, s)
    ensures Inside(LetThrough(EMPTY, attempts, s), lo, lo + WINDOW) <= 2 * MaxAttempts(s.scope) - 2
    ensures 2 * MaxAttempts(s.scope) - 2 == match s.scope case User => 18 case Ip => 58
  {
    LetThroughIsSpaced(EMPTY, attempts, s, start, [], 0, 0);
    assert [] + LetThrough(EMPTY, attempts, s) == LetThrough(EMPTY, attempts, s);
    SpacedIsBounded(LetThrough(EMPTY, attempts, s), 2 * MaxAttempts(s.scope) - 2, lo);
  }

  /**
   The failure that makes the thirtieth for an address or the tenth for a user locks it, for fifteen minutes, exactly
   if the first of them was at most ten minutes before.
   */
  lemma LastStraw(scope: Scope, st: Attempts, now: int, at: int)
    requires st.count == (match scope case Ip => 29 case User => 9) && st.firstFailAt > 0 && st.lockedUntil <= now <= at
    ensures Locked(Failed(st, now, MaxAttempts(scope)), at)
       <==> now - st.firstFailAt <= 600_000_000_000 && at - now < 900_000_000_000
  {
  }

  // ---------- the bound is reached

  /** An attempt on unlocked subjects with counts to spare goes through and is counted once on each. */
  lemma GoesThrough(l: Limiter, ip: string, user: string, now: int)
    requires now > 0
    requires forall s | s == Subject(Ip, ip) || s == Subject(User, user) ::
               && (StateOf(l, s) == NONE || StateOf(l, s).firstFailAt >= now - 2 * WINDOW > 0)
               && !Locked(StateOf(l, s), now) && !Full(StateOf(l, s), now, s.scope)
    ensures var (l', through) := Take(l, Attempt(ip, user, now, false));
            && through
            && forall s | s == Subject(Ip, ip) || s == Subject(User, user) ::
                 StateOf(l', s) == Failed(StateOf(l, s), now, MaxAttempts(s.scope))
  {
    var check, fail := CheckEvent(ip, user, now), FailEvent(ip, user, now);
    var l1 := Check(l, ip, user, now, true).0;
    var a, b := Subject(Ip, ip), Subject(User, user);
    GcState(l, now, true, a);
    GcState(l, now, true, b);
    ApplyIsNext(l, check, true, a);
    ApplyIsNext(l, check, true, b);
    GcState(l1, now, true, a);
    GcState(l1, now, true, b);
    ApplyIsNext(l1, fail, true, a);
    ApplyIsNext(l1, fail, true, b);
    hide Gc, Failed, OnFailure;
  }

  function Volley(ip: string, user: string, now: int, k: nat): seq<Attempt> {
    seq(k, _ => Attempt(ip, user, now, false))
  }

  function TakeAll(l: Limiter, attempts: seq<Attempt>): Limiter
    decreases attempts
  {
    if attempts == [] then l else TakeAll(Take(l, attempts[0]).0, attempts[1..])
  }

  lemma {:induction false} LetThroughConcat(l: Limiter, a: seq<Attempt>, b: seq<Attempt>, s: Subject)
    ensures LetThrough(l, a + b, s) == LetThrough(l, a, s) + LetThrough(TakeAll(l, a), b, s)
    decreases a
  {
    if a == [] {
      assert a + b == b;
    } else {
      assert (a + b)[1..] == a[1..] + b;
      hide Take;
      LetThroughConcat(Take(l, a[0]).0, a[1..], b, s);
    }
  }

  /** What `k` failures at one time leave of an unlocked state. */
  function AfterVolley(st: Attempts, now: int, k: nat, max: int): Attempts
    decreases k
  {
    if k == 0 then st else AfterVolley(Failed(st, now, max), now, k - 1, max)
  }

  lemma {:induction false} AfterVolleyIs(st: Attempts, now: int, k: nat, max: int)
    requires 0 < k && now > 0 && 0 <= st.firstFailAt <= now
    requires 0 <= ResetWindowIfExpired(st, now).count && ResetWindowIfExpired(st, now).count + k <= max
    ensures var r := ResetWindowIfExpired(st, now);
            AfterVolley(st, now, k, max).count == r.count + k
    ensures AfterVolley(st, now, k, max).firstFailAt
         == if st.firstFailAt == 0 || now - st.firstFailAt > WINDOW then now else st.firstFailAt
    ensures AfterVolley(st, now, k, max).lockedUntil
         == if ResetWindowIfExpired(st, now).count + k == max then now + LOCKOUT else st.lockedUntil
    decreases k
  {
    if k > 1 {
      AfterVolleyIs(Failed(st, now, max), now, k - 1, max);
    }
  }

  predicate Spare(st: Attempts, now: int, k: nat, scope: Scope) {
    && 0 <= st.firstFailAt <= now && (st == NONE || st.firstFailAt >= now - 2 * WINDOW > 0)
    && st.lockedUntil == 0
    && 0 <= ResetWindowIfExpired(st, now).count && ResetWindowIfExpired(st, now).count + k <= MaxAttempts(scope)
  }

  function Repeat(t: int, k: nat): seq<int> {
    seq(k, _ => t)
  }

  lemma {:induction false} VolleyGoesThrough(l: Limiter, ip: string, user: string, now: int, k: nat)
    requires now > 2 * WINDOW
    requires Spare(StateOf(l, Subject(Ip, ip)), now, k, Ip) && Spare(StateOf(l, Subject(User, user)), now, k, User)
    ensures LetThrough(l, Volley(ip, user, now, k), Subject(User, user)) == Repeat(now, k)
    ensures var l' := TakeAll(l, Volley(ip, user, now, k));
            && StateOf(l', Subject(Ip, ip)) == AfterVolley(StateOf(l, Subject(Ip, ip)), now, k, MaxAttempts(Ip))
            && StateOf(l', Subject(User, user))
               == AfterVolley(StateOf(l, Subject(User, user)), now, k, MaxAttempts(User))
    decreases k
  {
    if k > 0 {
      var v := Volley(ip, user, now, k);
      VolleyUnfolds(ip, user, now, k);
      GoesThrough(l, ip, user, now);
      var l' := Take(l, v[0]).0;
      assert LetThrough(l, v, Subject(User, user)) == [now] + LetThrough(l', v[1..], Subject(User, user));
      assert TakeAll(l, v) == TakeAll(l', v[1..]);
      SpareAfter(StateOf(l, Subject(Ip, ip)), now, k, Ip);
      SpareAfter(StateOf(l, Subject(User, user)), now, k, User);
      hide *;
      if k == 1 {
        NoVolley(l', ip, user, now);
      } else {
        VolleyGoesThrough(l', ip, user, now, k - 1);
      }
    } else {
      NoVolley(l, ip, user, now);
    }
  }

  lemma NoVolley(l: Limiter, ip: string, user: string, now: int)
    ensures LetThrough(l, Volley(ip, user, now, 0), Subject(User, user)) == Repeat(now, 0) == []
    ensures TakeAll(l, Volley(ip, user, now, 0)) == l
    ensures forall st, max :: AfterVolley(st, now, 0, max) == st
  {
  }

  lemma VolleyUnfolds(ip: string, user: string, now: int, k: nat)
    requires k > 0
    ensures Volley(ip, user, now, k)[0] == Attempt(ip, user, now, false)
    ensures Volley(ip, user, now, k)[1..] == Volley(ip, user, now, k - 1)
    ensures Repeat(now, k) == [now] + Repeat(now, k - 1)
  {
  }

  lemma SpareAfter(st: Attempts, now: int, k: nat, scope: Scope)
    requires now > 2 * WINDOW && Spare(st, now, k, scope) && k > 0
    ensures AfterVolley(st, now, k, MaxAttempts(scope))
         == AfterVolley(Failed(st, now, MaxAttempts(scope)), now, k - 1, MaxAttempts(scope))
    ensures k > 1 ==> Spare(Failed(st, now, MaxAttempts(scope)), now, k - 1, scope)
  {
  }

  lemma {:induction false} InsideConcat(a: seq<int>, b: seq<int>, lo: int, hi: int)
    ensures Inside(a + b, lo, hi) == Inside(a, lo, hi) + Inside(b, lo, hi)
  {
    if b == [] {
      assert a + b == a;
    } else {
      assert (a + b)[..|a + b| - 1] == a + b[..|b| - 1];
      InsideConcat(a, b[..|b| - 1], lo, hi);
    }
  }

  lemma {:induction false} InsideConstant(k: nat, t: int, lo: int, hi: int)
    requires lo <= t <= hi
    ensures Inside(Repeat(t, k), lo, hi) == k
  {
    if k > 0 {
      assert Repeat(t, k)[..k - 1] == Repeat(t, k - 1);
      InsideConstant(k - 1, t, lo, hi);
    }
  }

  /**
   The bound for a user is exact: one failure, eight more when the window is just about over, and ten in the
   next window put 18 failures into one window.
   */
  lemma EighteenGetThrough(ip: string, user: string)
    ensures var t := 2 * WINDOW + 1;
            var attempts := Volley(ip, user, t, 1) + Volley(ip, user, t + WINDOW, 8)
                            + Volley(ip, user, t + WINDOW + 1, 10);
            Inside(LetThrough(EMPTY, attempts, Subject(User, user)), t + WINDOW, t + 2 * WINDOW) == 18
  {
    var t, s := 2 * WINDOW + 1, Subject(User, user);
    VolleysGoThrough(ip, user, t);
    hide LetThrough, Volley, Inside;
    var x, y, z := Repeat(t, 1), Repeat(t + WINDOW, 8), Repeat(t + WINDOW + 1, 10);
    assert x == [t];
    InsideConcat(x, y + z, t + WINDOW, t + 2 * WINDOW);
    InsideConcat(y, z, t + WINDOW, t + 2 * WINDOW);
    InsideConstant(8, t + WINDOW, t + WINDOW, t + 2 * WINDOW);
    InsideConstant(10, t + WINDOW + 1, t + WINDOW, t + 2 * WINDOW);
    NoneInside(x, t + WINDOW, t + 2 * WINDOW);
  }

  /** A volley on two subjects in the same state leaves them in the same state, when neither is used up by it. */
  lemma EvenVolley(l: Limiter, ip: string, user: string, now: int, k: nat, st: Attempts, after: Attempts)
    requires now > 2 * WINDOW && StateOf(l, Subject(Ip, ip)) == st && StateOf(l, Subject(User, user)) == st
    requires Spare(st, now, k, Ip) && Spare(st, now, k, User)
    requires AfterVolley(st, now, k, MaxAttempts(Ip)) == after == AfterVolley(st, now, k, MaxAttempts(User))
    ensures LetThrough(l, Volley(ip, user, now, k), Subject(User, user)) == Repeat(now, k)
    ensures var l' := TakeAll(l, Volley(ip, user, now, k));
            StateOf(l', Subject(Ip, ip)) == after && StateOf(l', Subject(User, user)) == after
  {
    hide *;
    VolleyGoesThrough(l, ip, user, now, k);
  }

  lemma FirstVolley(ip: string, user: string, t: int)
    requires t > 2 * WINDOW
    ensures LetThrough(EMPTY, Volley(ip, user, t, 1), Subject(User, user)) == Repeat(t, 1)
    ensures var l := TakeAll(EMPTY, Volley(ip, user, t, 1));
            StateOf(l, Subject(Ip, ip)) == Attempts(1, t, 0) && StateOf(l, Subject(User, user)) == Attempts(1, t, 0)
  {
    assert StateOf(EMPTY, Subject(Ip, ip)) == NONE && StateOf(EMPTY, Subject(User, user)) == NONE;
    hide *;
    FirstVolleys(t, Ip);
    FirstVolleys(t, User);
    EvenVolley(EMPTY, ip, user, t, 1, NONE, Attempts(1, t, 0));
  }

  lemma SecondVolley(l: Limiter, ip: string, user: string, t: int)
    requires t > 2 * WINDOW
    requires StateOf(l, Subject(Ip, ip)) == Attempts(1, t, 0) && StateOf(l, Subject(User, user)) == Attempts(1, t, 0)
    ensures LetThrough(l, Volley(ip, user, t + WINDOW, 8), Subject(User, user)) == Repeat(t + WINDOW, 8)
    ensures var l' := TakeAll(l, Volley(ip, user, t + WINDOW, 8));
            StateOf(l', Subject(Ip, ip)) == Attempts(9, t, 0) && StateOf(l', Subject(User, user)) == Attempts(9, t, 0)
  {
    assert WINDOW > 0;
    hide *;
    FirstVolleys(t, Ip);
    FirstVolleys(t, User);
    EvenVolley(l, ip, user, t + WINDOW, 8, Attempts(1, t, 0), Attempts(9, t, 0));
  }

  lemma LastVolley(l: Limiter, ip: string, user: string, t: int, now: int, k: nat)
    requires t > 2 * WINDOW && now == t + WINDOW + 1 && k <= 10
    requires StateOf(l, Subject(Ip, ip)) == Attempts(9, t, 0) && StateOf(l, Subject(User, user)) == Attempts(9, t, 0)
    ensures LetThrough(l, Volley(ip, user, now, k), Subject(User, user)) == Repeat(now, k)
  {
    assert Spare(Attempts(9, t, 0), now, k, Ip) && Spare(Attempts(9, t, 0), now, k, User) && now > 2 * WINDOW;
    hide *;
    VolleyGoesThrough(l, ip, user, now, k);
  }

  lemma VolleysGoThrough(ip: string, user: string, t: int)
    requires t > 2 * WINDOW
    ensures LetThrough(EMPTY, Volley(ip, user, t, 1) + Volley(ip, user, t + WINDOW, 8)
                              + Volley(ip, user, t + WINDOW + 1, 10), Subject(User, user))
         == Repeat(t, 1) + (Repeat(t + WINDOW, 8) + Repeat(t + WINDOW + 1, 10))
  {
    hide *;
    var s := Subject(User, user);
    var a, b, c := Volley(ip, user, t, 1), Volley(ip, user, t + WINDOW, 8), Volley(ip, user, t + WINDOW + 1, 10);
    FirstVolley(ip, user, t);
    SecondVolley(TakeAll(EMPTY, a), ip, user, t);
    LastVolley(TakeAll(TakeAll(EMPTY, a), b), ip, user, t, t + WINDOW + 1, 10);
    ThreeParts(EMPTY, a, b, c, s);
  }

  lemma ThreeParts(l: Limiter, a: seq<Attempt>, b: seq<Attempt>, c: seq<Attempt>, s: Subject)
    ensures var l1 := TakeAll(l, a);
            LetThrough(l, a + b + c, s)
            == LetThrough(l, a, s) + (LetThrough(l1, b, s) + LetThrough(TakeAll(l1, b), c, s))
  {
    hide *;
    assert a + b + c == a + (b + c);
    LetThroughConcat(l, a, b + c, s);
    LetThroughConcat(TakeAll(l, a), b, c, s);
  }

  lemma FirstVolleys(t: int, scope: Scope)
    requires t > 2 * WINDOW
    ensures AfterVolley(NONE, t, 1, MaxAttempts(scope)) == Attempts(1, t, 0)
    ensures AfterVolley(Attempts(1, t, 0), t + WINDOW, 8, MaxAttempts(scope)) == Attempts(9, t, 0)
    ensures Spare(NONE, t, 1, scope) && Spare(Attempts(1, t, 0), t + WINDOW, 8, scope)
    ensures Spare(Attempts(9, t, 0), t + WINDOW + 1, 10, scope)
  {
    hide AfterVolley;
    AfterVolleyIs(NONE, t, 1, MaxAttempts(scope));
    AfterVolleyIs(Attempts(1, t, 0), t + WINDOW, 8, MaxAttempts(scope));
  }
}
