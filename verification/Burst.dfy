/** Suppression of bursts: triggers that keep coming inside the window share one incident. */
module Burst {
  import opened Common
  import opened Incidents
  import opened IncidentLaws
  import opened Traps

  /** The key an operation triggers, when it is an accepted create-or-touch call. */
  function KeyOf(op: Op): Option<MatchKey> {
    match op
    case OpTrigger(d, t, sv, src, _, _, _) =>
      if Blank(t) || NormalizeSeverity(sv).None? || NormalizeSource(src).None? then None
      else Some(TriggerKey(d, t, NormalizeSeverity(sv).value, NormalizeSource(src).value))
    case OpTrapTouch(k, sv, _, _, _, _) => if k.severity == None || k.severity == Some(sv) then Some(k) else None
    case _ => None
  }

  /** The suppression window of a trigger, in nanoseconds. */
  function WindowOf(op: Op): int {
    match op
    case OpTrigger(_, _, _, _, _, w, _) => WindowSeconds(w) * SECOND
    case OpTrapTouch(_, _, _, _, w, _) => WindowSeconds(w) * SECOND
    case _ => 0
  }

  ghost predicate Creates(owners: Owners, db: Db, e: Event) {
    Apply(owners, db, e.op, e.now).cases.Keys != db.cases.Keys
  }

  /** How many of the triggers for `key` inserted a new incident. */
  ghost function Created(owners: Owners, db: Db, events: seq<Event>, key: MatchKey): nat
    decreases events
  {
    if events == [] then 0
    else
      var e := events[0];
      (if KeyOf(e.op) == Some(key) && Creates(owners, db, e) then 1 else 0)
      + Created(owners, Apply(owners, db, e.op, e.now), events[1..], key)
  }

  /** Each trigger for `key` comes within its own window of the one before it. */
  predicate Gapless(events: seq<Event>, key: MatchKey, last: Option<int>)
    decreases events
  {
    events == [] ||
    var e := events[0];
    if KeyOf(e.op) == Some(key) then
      && (last.Some? ==> e.now <= last.value + WindowOf(e.op))
      && Gapless(events[1..], key, Some(e.now))
    else Gapless(events[1..], key, last)
  }

  /** An incident of the key that is neither resolved nor closed. */
  predicate Unsettled(row: Incident, key: MatchKey) {
    && (row.status == New || row.status == Acknowledged || row.status == InProgress)
    && row.source == key.source && row.title == key.title && row.device == key.device
    && (key.severity == None || key.severity == Some(row.severity))
  }

  /** No step resolves or closes an incident of `key`. */
  ghost predicate Unresolved(owners: Owners, db: Db, events: seq<Event>, key: MatchKey)
    decreases events
  {
    events == [] ||
    var db1 := Apply(owners, db, events[0].op, events[0].now);
    && (forall id | id in db.cases && id in db1.cases && Unsettled(db.cases[id].row, key) ::
          Unsettled(db1.cases[id].row, key))
    && Unresolved(owners, db1, events[1..], key)
  }

  /** Some unsettled incident of `key` was written at `since` or later. */
  ghost predicate Live(db: Db, key: MatchKey, since: int) {
    exists id :: id in db.cases && Unsettled(db.cases[id].row, key) && since <= db.cases[id].row.updatedAt
  }

  /** An accepted trigger is a touch or an insert under its key. */
  lemma TriggerTouches(owners: Owners, db: Db, e: Event, key: MatchKey)
    returns (sv: Severity, owner: Option<string>, details: string, w: int, hint: nat)
    requires KeyOf(e.op) == Some(key)
    ensures Apply(owners, db, e.op, e.now)
         == TouchOrInsert(db, key, sv, owner, details, WindowSeconds(w), hint, e.now).0
    ensures WindowOf(e.op) == WindowSeconds(w) * SECOND && (key.severity.None? || key.severity == Some(sv))
  {
    hide TouchOrInsert, DefaultAssignee, NormalizeSeverity, NormalizeSource, WindowSeconds;
    match e.op
    case OpTrigger(d, t, s, src, det, wd, h) =>
      sv, details, w, hint := NormalizeSeverity(s).value, OrEmptyObject(det), wd, h;
      owner := DefaultAssignee(owners, NormalizeSource(src).value, sv);
    case OpTrapTouch(_, s, a, det, wd, h) => sv, owner, details, w, hint := s, a, det, wd, h;
  }

  /** What one trigger does: it inserts exactly when no open incident of its key is inside the window. */
  lemma TriggerEffect(owners: Owners, db: Db, e: Event, key: MatchKey)
    requires KeyOf(e.op) == Some(key)
    requires db.nextId !in db.cases
    ensures Creates(owners, db, e) <==> !Live(db, key, e.now - WindowOf(e.op))
    ensures Live(Apply(owners, db, e.op, e.now), key, e.now)
  {
    assert Creates(owners, db, e) <==> Apply(owners, db, e.op, e.now).cases.Keys != db.cases.Keys;
    hide *;
    var sv, owner, details, w, hint := TriggerTouches(owners, db, e, key);
    TouchEffect(db, key, sv, owner, details, WindowSeconds(w), hint, e.now);
  }

  lemma TouchEffect(db: Db, key: MatchKey, sv: Severity, owner: Option<string>, details: string, w: int, hint: nat,
                    now: int)
    requires key.severity.None? || key.severity == Some(sv)
    requires db.nextId !in db.cases
    ensures var (db1, created) := TouchOrInsert(db, key, sv, owner, details, w, hint, now);
            && (created <==> !Live(db, key, now - w * SECOND))
            && (created <==> db1.cases.Keys != db.cases.Keys)
            && Live(db1, key, now)
  {
    var db1 := TouchOrInsert(db, key, sv, owner, details, w, hint, now).0;
    assert forall i | i in db.cases :: Matches(db.cases[i].row, key) <==> Unsettled(db.cases[i].row, key);
    match Chosen(db, key, now - w * SECOND, hint)
    case Some(id) =>
      assert Candidate(db, id, key, now - w * SECOND);
      assert db1.cases.Keys == db.cases.Keys;
      assert id in db1.cases && Unsettled(db1.cases[id].row, key) && now <= db1.cases[id].row.updatedAt;
    case None =>
      assert forall i | i in db.cases :: !Candidate(db, i, key, now - w * SECOND);
      assert db.nextId in db1.cases.Keys;
      assert Unsettled(db1.cases[db.nextId].row, key) && now <= db1.cases[db.nextId].row.updatedAt;
  }

  /** While the burst is alive, nothing more is inserted for the key. */
  lemma {:induction false} AliveBurstCreatesNothing(owners: Owners, db: Db, events: seq<Event>, key: MatchKey,
                                                    start: int, last: int)
    requires GoodDb(db, start) && InOrder(start, events)
    requires Gapless(events, key, Some(last)) && Unresolved(owners, db, events, key) && Live(db, key, last)
    ensures Created(owners, db, events, key) == 0
    decreases events
  {
    hide *;
    if events == [] {
      NoneCreated(owners, db, key);
    } else {
      Unfolds(owners, db, events, key, Some(last), start);
      LiveNext(owners, db, events, key, last, start);
      var e := events[0];
      var db1 := Apply(owners, db, e.op, e.now);
      if KeyOf(e.op) == Some(key) {
        LiveLonger(db, key, last, e.now - WindowOf(e.op));
        TriggerEffect(owners, db, e, key);
        AliveBurstCreatesNothing(owners, db1, events[1..], key, e.now, e.now);
      } else {
        AliveBurstCreatesNothing(owners, db1, events[1..], key, e.now, last);
      }
    }
  }

  lemma NoneCreated(owners: Owners, db: Db, key: MatchKey)
    ensures Created(owners, db, [], key) == 0
  {
  }

  lemma LiveNext(owners: Owners, db: Db, events: seq<Event>, key: MatchKey, last: int, start: int)
    requires GoodDb(db, start) && InOrder(start, events) && events != []
    requires Unresolved(owners, db, events, key) && Live(db, key, last)
    ensures Live(Apply(owners, db, events[0].op, events[0].now), key, last)
  {
    var e := events[0];
    GoodLater(db, start, e.now);
    ApplyKeeps(owners, db, e.op, e.now);
    LiveStays(db, Apply(owners, db, e.op, e.now), key, last, e.now);
  }

  /** The hypotheses of a burst, and its count, from the first event on. */
  lemma Unfolds(owners: Owners, db: Db, events: seq<Event>, key: MatchKey, last: Option<int>, start: int)
    requires GoodDb(db, start) && InOrder(start, events) && events != []
    requires Gapless(events, key, last) && Unresolved(owners, db, events, key)
    ensures var e := events[0];
            var db1 := Apply(owners, db, e.op, e.now);
            && start <= e.now && InOrder(e.now, events[1..]) && db.nextId !in db.cases && GoodDb(db1, e.now)
            && Unresolved(owners, db1, events[1..], key)
            && (if KeyOf(e.op) == Some(key) then
                  (last.Some? ==> e.now <= last.value + WindowOf(e.op)) && Gapless(events[1..], key, Some(e.now))
                else Gapless(events[1..], key, last))
            && Created(owners, db, events, key)
            == (if KeyOf(e.op) == Some(key) && Creates(owners, db, e) then 1 else 0)
               + Created(owners, db1, events[1..], key)
  {
    var e := events[0];
    GoodLater(db, start, e.now);
    ApplyKeeps(owners, db, e.op, e.now);
    hide Apply, KeyOf, WindowOf, Creates, GoodCase, Step;
  }

  /** A step that resolves nothing of the key leaves its live incident live. */
  lemma LiveStays(db: Db, db1: Db, key: MatchKey, since: int, now: int)
    requires DbStep(db, db1, now) && Live(db, key, since)
    requires forall id | id in db.cases && id in db1.cases && Unsettled(db.cases[id].row, key) ::
               Unsettled(db1.cases[id].row, key)
    ensures Live(db1, key, since)
  {
    var id :| id in db.cases && Unsettled(db.cases[id].row, key) && since <= db.cases[id].row.updatedAt;
    assert Step(id, db.cases[id], db1.cases[id], now);
    hide GoodDb, GoodCase, Unsettled;
    assert Unsettled(db1.cases[id].row, key);
  }

  lemma LiveLonger(db: Db, key: MatchKey, since: int, earlier: int)
    requires earlier <= since
    ensures Live(db, key, since) ==> Live(db, key, earlier)
  {
    if Live(db, key, since) {
      var id :| id in db.cases && Unsettled(db.cases[id].row, key) && since <= db.cases[id].row.updatedAt;
      assert earlier <= db.cases[id].row.updatedAt;
    }
  }

  /**
   Burst suppression. However long a gapless run of triggers for one key lasts, and whatever else happens
   in between short of resolving that key's incidents, it creates at most one incident.
   */
  lemma {:induction false} BurstCreatesAtMostOne(owners: Owners, db: Db, events: seq<Event>, key: MatchKey, start: int)
    requires GoodDb(db, start) && InOrder(start, events)
    requires Gapless(events, key, None) && Unresolved(owners, db, events, key)
    ensures Created(owners, db, events, key) <= 1
    decreases events
  {
    hide *;
    if events == [] {
      NoneCreated(owners, db, key);
    } else {
      Unfolds(owners, db, events, key, None, start);
      var e := events[0];
      var db1 := Apply(owners, db, e.op, e.now);
      if KeyOf(e.op) == Some(key) {
        TriggerEffect(owners, db, e, key);
        AliveBurstCreatesNothing(owners, db1, events[1..], key, e.now, e.now);
      } else {
        BurstCreatesAtMostOne(owners, db1, events[1..], key, e.now);
      }
    }
  }

  /** Link-down and BFD-down traps of one device, in any mix, are triggers for one key. */
  lemma LossTrapsShareTheBurst(owners: Owners, device: Option<int>, oid: string, oid': string, details: string,
                               details': string, window: int, hint: nat, hint': nat)
    requires IsLoss(oid) && IsLoss(oid')
    ensures KeyOf(TrapOp(owners, device, oid, details, window, hint)) == Some(TrapKey(device, oid))
    ensures KeyOf(TrapOp(owners, device, oid', details', window, hint')) == Some(TrapKey(device, oid))
  {
  }
}
