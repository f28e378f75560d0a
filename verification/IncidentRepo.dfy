/**
 The repository object over the two raw tables. Each method is one transaction; what it leaves in the
 tables is stated through the table of cases of module `Incidents`.
 */
module IncidentRepo {
  import opened Common
  import opened Incidents
  import Laws = IncidentLaws
  import Traps
  import Escalation

  /** The audit rows of one incident, oldest first. */
  function Trail(rows: seq<AuditRow>, id: nat): seq<AuditRow> {
    if rows == [] then []
    else
      var last := rows[|rows| - 1];
      Trail(rows[..|rows| - 1], id) + if last.incidentId == id then [last] else []
  }

  lemma TrailAppend(rows: seq<AuditRow>, r: AuditRow, id: nat)
    ensures Trail(rows + [r], id) == Trail(rows, id) + if r.incidentId == id then [r] else []
  {
    assert (rows + [r])[..|rows|] == rows;
  }

  lemma {:induction false} TrailOfStranger(rows: seq<AuditRow>, id: nat)
    requires forall r | r in rows :: r.incidentId != id
    ensures Trail(rows, id) == []
  {
    if rows != [] {
      TrailOfStranger(rows[..|rows| - 1], id);
    }
  }

  function AbsOf(incidents: map<nat, Incident>, transitions: seq<AuditRow>, nextId: nat): Db {
    Db(map id | id in incidents :: Case(incidents[id], Trail(transitions, id)), nextId)
  }

  function Put(db: Db, id: nat, c: Case): Db {
    db.(cases := db.cases[id := c])
  }

  /** A row update alone, and a row update with its audit row, seen on the table of cases. */
  lemma AbsTouch(incidents: map<nat, Incident>, transitions: seq<AuditRow>, nextId: nat, id: nat, row: Incident)
    requires id in incidents
    ensures AbsOf(incidents[id := row], transitions, nextId)
         == Put(AbsOf(incidents, transitions, nextId), id, Case(row, Trail(transitions, id)))
  {
  }

  lemma AbsWrite(incidents: map<nat, Incident>, transitions: seq<AuditRow>, nextId: nat, id: nat, row: Incident,
                 r: AuditRow)
    requires id in incidents && r.incidentId == id
    ensures AbsOf(incidents[id := row], transitions + [r], nextId)
         == Put(AbsOf(incidents, transitions, nextId), id, Case(row, Trail(transitions, id) + [r]))
  {
    forall i: nat {
      TrailAppend(transitions, r, i);
    }
    hide Trail;
    var a := AbsOf(incidents[id := row], transitions + [r], nextId).cases;
    var b := Put(AbsOf(incidents, transitions, nextId), id, Case(row, Trail(transitions, id) + [r])).cases;
    assert a.Keys == b.Keys;
    assert forall i | i in a :: a[i] == b[i];
  }

  lemma AbsInsert(incidents: map<nat, Incident>, transitions: seq<AuditRow>, nextId: nat, row: Incident)
    requires nextId !in incidents
    requires forall r | r in transitions :: r.incidentId in incidents
    ensures AbsOf(incidents[nextId := row], transitions, nextId + 1)
         == Insert(AbsOf(incidents, transitions, nextId), row)
  {
    TrailOfStranger(transitions, nextId);
  }

  lemma AbsCase(incidents: map<nat, Incident>, transitions: seq<AuditRow>, nextId: nat)
    ensures var db := AbsOf(incidents, transitions, nextId);
            && db.cases.Keys == incidents.Keys && db.nextId == nextId
            && forall id | id in incidents :: db.cases[id].row == incidents[id]
  {
  }

  lemma PutPut(db: Db, id: nat, c: Case, d: Case)
    ensures Put(Put(db, id, c), id, d) == Put(db, id, d)
    ensures Put(db, id, c).cases[id] == c
    ensures id in db.cases ==> Put(db, id, db.cases[id]) == db
  {
    assert db.cases[id := c][id := d] == db.cases[id := d];
    assert id in db.cases ==> db.cases[id := db.cases[id]] == db.cases;
  }

  /** The table with the cases of `ids` auto-resolved, and the table with those outside `ids` escalated. */
  function ResolvedIn(db: Db, ids: set<nat>, changedBy: string, comment: string, now: int): Db {
    db.(cases := map id | id in db.cases ::
          if id in ids then AutoResolve(id, db.cases[id], changedBy, comment, now) else db.cases[id])
  }

  function EscalatedOutside(db: Db, ids: set<nat>, p: Policy, changedBy: string, now: int): Db
    requires Runnable(p)
  {
    db.(cases := map id | id in db.cases ::
          if id in ids then db.cases[id] else EscalateCase(id, db.cases[id], p, changedBy, now))
  }

  lemma ResolveOneMore(db: Db, ids: set<nat>, todo: set<nat>, id: nat, changedBy: string, comment: string, now: int)
    requires id in db.cases && id in todo && todo <= ids
    ensures ResolvedIn(db, ids - todo, changedBy, comment, now).cases[id] == db.cases[id]
    ensures Put(ResolvedIn(db, ids - todo, changedBy, comment, now), id,
                AutoResolve(id, db.cases[id], changedBy, comment, now))
         == ResolvedIn(db, ids - (todo - {id}), changedBy, comment, now)
    ensures |todo - {id}| == |todo| - 1
  {
    hide AutoResolve;
  }

  /** With every candidate still to do nothing is resolved, with none all of them are. */
  lemma ResolveEnds(db: Db, ids: set<nat>, changedBy: string, comment: string, now: int)
    ensures ResolvedIn(db, ids - ids, changedBy, comment, now) == db
    ensures ids - {} == ids
  {
    hide AutoResolve;
    assert ResolvedIn(db, ids - ids, changedBy, comment, now).cases == db.cases;
  }

  lemma EscalateOneMore(db: Db, ids: set<nat>, id: nat, p: Policy, changedBy: string, now: int)
    requires Runnable(p) && id in db.cases && id in ids
    ensures EscalatedOutside(db, ids, p, changedBy, now).cases[id] == db.cases[id]
    ensures Put(EscalatedOutside(db, ids, p, changedBy, now), id, EscalateCase(id, db.cases[id], p, changedBy, now))
         == EscalatedOutside(db, ids - {id}, p, changedBy, now)
    ensures |ids - {id}| == |ids| - 1
  {
    hide EscalateCase;
  }

  /** With the rows a policy escalates still to do, nothing has happened; with none, the statement is complete. */
  lemma EscalateEnds(db: Db, ids: set<nat>, p: Policy, changedBy: string, now: int)
    requires Runnable(p)
    requires forall id | id in db.cases :: id in ids <==> Escalates(db.cases[id].row, p, now)
    ensures EscalatedOutside(db, ids, p, changedBy, now) == db
    ensures EscalatedOutside(db, {}, p, changedBy, now) == Escalate(db, p, changedBy, now).0
  {
    hide Escalates;
    assert EscalatedOutside(db, ids, p, changedBy, now).cases == db.cases;
    assert EscalatedOutside(db, {}, p, changedBy, now).cases == Escalate(db, p, changedBy, now).0.cases;
  }

  /** Either bulk resolution is the resolution of its candidates. */
  lemma ResolveBySourceIs(db: Db, ids: set<nat>, device: int, source: string, changedBy: string, comment: string,
                          now: int)
    requires device > 0 && NormalizeSource(source).Some?
    requires forall id | id in db.cases :: id in ids <==>
               OpenOfSource(db.cases[id].row, device, NormalizeSource(source).value)
    ensures ResolveBySource(db, device, source, changedBy, comment, now)
         == (ResolvedIn(db, ids, Actor(changedBy, "system"), Note(comment, "auto-resolved"), now), Done)
  {
    hide AutoResolve, OpenOfSource, NormalizeSource;
    assert ResolveBySource(db, device, source, changedBy, comment, now).0.cases
        == ResolvedIn(db, ids, Actor(changedBy, "system"), Note(comment, "auto-resolved"), now).cases;
  }

  lemma ResolveTrapsIs(db: Db, ids: set<nat>, device: int, titles: seq<string>, changedBy: string, comment: string,
                       now: int)
    requires forall id | id in db.cases :: id in ids <==> OpenTrapTitled(db.cases[id].row, device, titles)
    ensures ResolveTraps(db, Some(device), titles, changedBy, comment, now)
         == ResolvedIn(db, ids, Actor(changedBy, "system"), Note(comment, "auto-resolved"), now)
  {
    hide AutoResolve, OpenTrapTitled;
    assert ResolveTraps(db, Some(device), titles, changedBy, comment, now).cases
        == ResolvedIn(db, ids, Actor(changedBy, "system"), Note(comment, "auto-resolved"), now).cases;
  }

  // ---------- which rows a statement rewrites

  /** The incidents whose row a statement has changed. */
  function Rewritten(before: map<nat, Incident>, after: map<nat, Incident>): set<nat> {
    set id | id in before && id in after && before[id] != after[id]
  }

  lemma NothingRewritten(rows: map<nat, Incident>)
    ensures Rewritten(rows, rows) == {}
  {
  }

  /** In terms of the table of cases. */
  lemma RewrittenIs(before: map<nat, Incident>, trailBefore: seq<AuditRow>, idBefore: nat, after: map<nat, Incident>,
                    trailAfter: seq<AuditRow>, idAfter: nat, ids: set<nat>)
    requires var db, db' := AbsOf(before, trailBefore, idBefore), AbsOf(after, trailAfter, idAfter);
             && db'.cases.Keys == db.cases.Keys && ids <= db.cases.Keys
             && forall id | id in db.cases :: id in ids <==> db'.cases[id].row != db.cases[id].row
    ensures Rewritten(before, after) == ids
  {
    var db, db' := AbsOf(before, trailBefore, idBefore), AbsOf(after, trailAfter, idAfter);
    assert before.Keys == db.cases.Keys && after.Keys == db'.cases.Keys;
    forall id | id in before ensures id in ids <==> before[id] != after[id] {
      assert db.cases[id].row == before[id] && db'.cases[id].row == after[id];
    }
  }

  lemma EscalationRewrites(db: Db, p: Policy, changedBy: string, now: int, ids: set<nat>)
    requires Runnable(p) && ids == set id | id in db.cases && Escalates(db.cases[id].row, p, now)
    ensures var db' := Escalate(db, p, changedBy, now).0;
            && db'.cases.Keys == db.cases.Keys
            && forall id | id in db.cases :: id in ids <==> db'.cases[id].row != db.cases[id].row
  {
    hide InScope, TrimSpace, Unassigned;
  }

  lemma ResolveRewrites(db: Db, ids: set<nat>, changedBy: string, comment: string, now: int)
    requires ids <= db.cases.Keys && forall id | id in ids :: db.cases[id].row.status != Resolved
    ensures var db' := ResolvedIn(db, ids, changedBy, comment, now);
            && db'.cases.Keys == db.cases.Keys
            && forall id | id in db.cases :: id in ids <==> db'.cases[id].row != db.cases[id].row
  {
  }

  // ---------- every transaction keeps the laws

  /** From a table that keeps the laws at `now`, the step to the next one keeps them too. */
  ghost predicate Lawfully(db: Db, db': Db, now: int) {
    Laws.GoodDb(db, now) ==> Laws.DbStep(db, db', now)
  }

  lemma ApplyIsLawful(owners: Owners, db: Db, op: Laws.Op, now: int)
    ensures Lawfully(db, Laws.Apply(owners, db, op, now), now)
  {
    hide Laws.Apply, Laws.DbStep, Laws.GoodDb;
    if Laws.GoodDb(db, now) {
      Laws.ApplyKeeps(owners, db, op, now);
    }
  }

  lemma LawfulTrans(a: Db, b: Db, c: Db, now: int)
    requires Lawfully(a, b, now) && Lawfully(b, c, now)
    ensures Lawfully(a, c, now)
  {
    hide Laws.GoodCase, Laws.Later;
    if Laws.GoodDb(a, now) {
      forall id | id in a.cases ensures Laws.Step(id, a.cases[id], c.cases[id], now) {
        assert Laws.Step(id, a.cases[id], b.cases[id], now) && Laws.Step(id, b.cases[id], c.cases[id], now);
        hide Laws.Step;
        Laws.StepTrans(id, a.cases[id], b.cases[id], c.cases[id], now);
      }
    }
  }

  lemma LawfulCreate(owners: Owners, db: Db, device: Option<int>, title: string, severity: string, source: string,
                     assignee: Option<string>, details: string, now: int)
    ensures Lawfully(db, Create(db, owners, device, title, severity, source, assignee, details, now).0, now)
  {
    hide Lawfully, Create;
    ApplyIsLawful(owners, db, Laws.OpCreate(device, title, severity, source, assignee, details), now);
  }

  lemma LawfulTrigger(owners: Owners, db: Db, device: Option<int>, title: string, severity: string, source: string,
                      details: string, window: int, hint: nat, now: int)
    ensures Lawfully(db, CreateOrTouch(db, owners, device, title, severity, source, details, window, hint, now).0, now)
  {
    hide Lawfully, CreateOrTouch;
    ApplyIsLawful(owners, db, Laws.OpTrigger(device, title, severity, source, details, window, hint), now);
  }

  lemma LawfulTransition(owners: Owners, db: Db, id: int, to: string, changedBy: string, comment: string, now: int)
    ensures Lawfully(db, Transition(db, id, to, changedBy, comment, now).0, now)
  {
    hide Lawfully, Transition;
    ApplyIsLawful(owners, db, Laws.OpTransition(id, to, changedBy, comment), now);
  }

  lemma LawfulAssign(owners: Owners, db: Db, id: int, assignee: string, changedBy: string, comment: string, now: int)
    ensures Lawfully(db, Assign(db, id, assignee, changedBy, comment, now).0, now)
  {
    hide Lawfully, Assign;
    ApplyIsLawful(owners, db, Laws.OpAssign(id, assignee, changedBy, comment), now);
  }

  lemma LawfulItsm(owners: Owners, db: Db, id: int, to: string, assignee: string, changedBy: string, comment: string,
                   now: int)
    ensures Lawfully(db, ItsmUpdate(db, id, to, assignee, changedBy, comment, now).0, now)
  {
    hide Lawfully, ItsmUpdate;
    ApplyIsLawful(owners, db, Laws.OpItsm(id, to, assignee, changedBy, comment), now);
  }

  lemma LawfulResolve(owners: Owners, db: Db, device: int, source: string, changedBy: string, comment: string, now: int)
    ensures Lawfully(db, ResolveBySource(db, device, source, changedBy, comment, now).0, now)
  {
    hide Lawfully, ResolveBySource;
    ApplyIsLawful(owners, db, Laws.OpResolve(device, source, changedBy, comment), now);
  }

  lemma LawfulTrapResolve(owners: Owners, db: Db, device: Option<int>, titles: seq<string>, changedBy: string,
                          comment: string, now: int)
    ensures Lawfully(db, ResolveTraps(db, device, titles, changedBy, comment, now), now)
  {
    hide Lawfully, ResolveTraps;
    ApplyIsLawful(owners, db, Laws.OpTrapResolve(device, titles, changedBy, comment), now);
  }

  lemma LawfulEscalate(owners: Owners, db: Db, p: Policy, changedBy: string, now: int)
    ensures Lawfully(db, Escalate(db, p, changedBy, now).0, now)
  {
    hide Lawfully, Escalate;
    ApplyIsLawful(owners, db, Laws.OpEscalate(p, changedBy), now);
  }

  lemma {:induction false} TickIsLawful(owners: Owners, db: Db, policies: seq<Policy>, now: int)
    ensures Lawfully(db, Escalation.Tick(db, policies, now), now)
    decreases policies
  {
    hide Lawfully, Laws.Apply, Escalate;
    if policies == [] {
      ApplyIsLawful(owners, db, Laws.OpResolve(0, "", "", ""), now);
      NothingResolved(owners, db, now);
    } else {
      var db1 := Escalate(db, policies[0], Escalation.ACTOR, now).0;
      LawfulEscalate(owners, db, policies[0], Escalation.ACTOR, now);
      TickIsLawful(owners, db1, policies[1..], now);
      LawfulTrans(db, db1, Escalation.Tick(db, policies, now), now);
    }
  }

  lemma NothingResolved(owners: Owners, db: Db, now: int)
    ensures Laws.Apply(owners, db, Laws.OpResolve(0, "", "", ""), now) == db
  {
  }

  class Repo {
    const owners: Owners
    var incidents: map<nat, Incident>
    var transitions: seq<AuditRow>
    var nextId: nat

    /** Serial ids are positive and not yet used; every audit row belongs to an incident. */
    ghost predicate Valid()
      reads this
    {
      && nextId > 0
      && (forall id | id in incidents :: 0 < id < nextId)
      && (forall r | r in transitions :: r.incidentId in incidents)
    }

    ghost function Abs(): Db
      reads this
    {
      AbsOf(incidents, transitions, nextId)
    }

    constructor (owners: Owners)
      ensures Valid() && Abs() == EMPTY_DB && this.owners == owners
    {
      this.owners := owners;
      incidents, transitions, nextId := map[], [], 1;
    }

    // ---------- statements

    method UpdateRow(id: nat, row: Incident)
      requires Valid() && id in incidents
      modifies this`incidents
      ensures Valid() && Abs() == Put(old(Abs()), id, Case(row, old(Abs()).cases[id].trail))
      ensures incidents == old(incidents)[id := row]
    {
      AbsTouch(incidents, transitions, nextId, id, row);
      incidents := incidents[id := row];
    }

    method UpdateWithAudit(id: nat, row: Incident, to: Status, changedBy: string, comment: string, now: int)
      requires Valid() && id in incidents
      modifies this`incidents, this`transitions
      ensures Valid()
      ensures incidents == old(incidents)[id := row]
      ensures var c := old(Abs()).cases[id];
              Abs() == Put(old(Abs()), id,
                           Case(row, c.trail + [AuditRow(id, c.row.status, to, changedBy, comment, now)]))
    {
      var r := AuditRow(id, incidents[id].status, to, changedBy, comment, now);
      AbsWrite(incidents, transitions, nextId, id, row, r);
      incidents := incidents[id := row];
      transitions := transitions + [r];
    }

    method InsertRow(row: Incident) returns (id: nat)
      requires Valid()
      modifies this`incidents, this`nextId
      ensures Valid() && id == old(nextId) && id in incidents && Abs() == Insert(old(Abs()), row)
    {
      AbsInsert(incidents, transitions, nextId, row);
      id := nextId;
      incidents := incidents[id := row];
      nextId := nextId + 1;
    }

    // ---------- transactions

    method CreateIncident(device: Option<int>, title: string, severity: string, source: string,
                          assignee: Option<string>, details: string, now: int) returns (reply: Reply)
      requires Valid()
      modifies this
      ensures Valid() && (Abs(), reply)
           == Create(old(Abs()), owners, device, title, severity, source, assignee, details, now)
      ensures Lawfully(old(Abs()), Abs(), now)
    {
      LawfulCreate(owners, Abs(), device, title, severity, source, assignee, details, now);
      hide Lawfully;
      var sv, src := NormalizeSeverity(severity), NormalizeSource(source);
      if Blank(title) || sv.None? || src.None? {
        return Refused;
      }
      var owner := assignee;
      if owner.None? || Blank(owner.value) {
        owner := DefaultAssignee(owners, src.value, sv.value);
      } else {
        owner := Owner(owner.value);
      }
      var _ := InsertRow(NewRow(KnownDevice(device), owner, TrimSpace(title), sv.value, src.value,
                                OrEmptyObject(details), now));
      return Done;
    }

    /** The path of a transition, found by searching both words in the status order. */
    method IncidentStatusPath(from: string, to: string) returns (path: seq<Status>)
      ensures var f, t := NormalizeStatus(from), NormalizeStatus(to);
              path == if f.Some? && t.Some? then Path(f.value, t.value) else []
    {
      var f, t := Folded(from), Folded(to);
      if f == "" || t == "" || f == t {
        return [];
      }
      var fromIdx, toIdx := -1, -1;
      for i := 0 to |STATUS_ORDER|
        invariant fromIdx < i && toIdx < i
        invariant forall k | 0 <= k < i :: StatusName(STATUS_ORDER[k]) == f <==> fromIdx == k
        invariant forall k | 0 <= k < i :: StatusName(STATUS_ORDER[k]) == t <==> toIdx == k
        invariant -1 <= fromIdx && -1 <= toIdx
      {
        NamesDiffer(i);
        if StatusName(STATUS_ORDER[i]) == f {
          fromIdx := i;
        }
        if StatusName(STATUS_ORDER[i]) == t {
          toIdx := i;
        }
      }
      IndexIsRank(from, fromIdx);
      IndexIsRank(to, toIdx);
      if fromIdx < 0 || toIdx < 0 || toIdx <= fromIdx {
        return [];
      }
      return STATUS_ORDER[fromIdx + 1..toIdx + 1];
    }

    method TransitionIncidentStatus(id: int, toStatus: string, changedBy: string, comment: string, now: int)
      returns (reply: Reply)
      requires Valid()
      modifies this`incidents, this`transitions
      ensures Valid() && (Abs(), reply) == Transition(old(Abs()), id, toStatus, changedBy, comment, now)
      ensures Lawfully(old(Abs()), Abs(), now)
    {
      LawfulTransition(owners, Abs(), id, toStatus, changedBy, comment, now);
      hide Lawfully;
      var to := NormalizeStatus(toStatus);
      if id <= 0 || to.None? {
        return Refused;
      }
      var actor, note := Actor(changedBy, "system"), TrimSpace(comment);
      if id !in incidents {
        return NotFound;
      }
      var from := incidents[id].status;
      if from == to.value {
        return Refused;
      }
      NameIsNormal(from);
      NameIsNormal(to.value);
      var steps := IncidentStatusPath(StatusName(from), StatusName(to.value));
      if |steps| == 0 {
        return Refused;
      }
      WalkPath(id, from, to.value, steps, actor, note, now);
      return Done;
    }

    /** The loop of a transition: each step of the path is one row update with its audit row. */
    method WalkPath(id: nat, from: Status, to: Status, steps: seq<Status>, actor: string, note: string, now: int)
      requires Valid() && id in incidents && incidents[id].status == from && steps == Path(from, to)
      modifies this`incidents, this`transitions
      ensures Valid()
      ensures Abs() == Put(old(Abs()), id, Walk(id, old(Abs()).cases[id], steps, actor, note, now))
    {
      ghost var before, c := Abs(), Abs().cases[id];
      hide AbsOf;
      PutPut(before, id, c, c);
      AbsCase(incidents, transitions, nextId);
      var prev := from;
      for k := 0 to |steps|
        invariant Valid() && id in incidents && c.row == incidents[id] && prev == c.row.status
        invariant prev == if k == 0 then from else steps[k - 1]
        invariant Abs() == Put(before, id, c)
        invariant Walk(id, c, steps[k..], actor, note, now) == Walk(id, before.cases[id], steps, actor, note, now)
      {
        Laws.PathIsAllowed(from, to, k);
        if !Allowed(prev, steps[k]) {
          assert false;
        }
        assert steps[k..][1..] == steps[k + 1..];
        UpdateWithAudit(id, WithStatus(incidents[id], steps[k], now), steps[k], actor, note, now);
        PutPut(before, id, c, Move(id, c, steps[k], actor, note, now));
        c := Move(id, c, steps[k], actor, note, now);
        prev := steps[k];
      }
    }

    method AssignIncident(id: int, assignee: string, changedBy: string, comment: string, now: int)
      returns (reply: Reply)
      requires Valid()
      modifies this`incidents, this`transitions
      ensures Valid() && (Abs(), reply) == Assign(old(Abs()), id, assignee, changedBy, comment, now)
      ensures Lawfully(old(Abs()), Abs(), now)
    {
      LawfulAssign(owners, Abs(), id, assignee, changedBy, comment, now);
      hide Lawfully;
      if id <= 0 {
        return Refused;
      }
      if id !in incidents {
        return NotFound;
      }
      var target := Owner(assignee);
      UpdateWithAudit(id, WithAssignee(incidents[id], target, now), incidents[id].status, Actor(changedBy, "system"),
                      AssignNote(comment, target), now);
      return Done;
    }

    method ApplyItsmInboundUpdate(id: int, toStatus: string, assignee: string, changedBy: string, comment: string,
                                  now: int) returns (reply: Reply, statusChanged: bool, assigneeChanged: bool)
      requires Valid()
      modifies this`incidents, this`transitions
      ensures Valid() && (Abs(), reply) == ItsmUpdate(old(Abs()), id, toStatus, assignee, changedBy, comment, now)
      ensures reply == Done ==>
                && (statusChanged <==> old(Abs()).cases[id].row.status != Abs().cases[id].row.status)
                && |Abs().cases[id].trail| == |old(Abs()).cases[id].trail|
                                              + (if statusChanged then 1 else 0) + (if assigneeChanged then 1 else 0)
      ensures Lawfully(old(Abs()), Abs(), now)
    {
      LawfulItsm(owners, Abs(), id, toStatus, assignee, changedBy, comment, now);
      hide Lawfully;
      statusChanged, assigneeChanged := false, false;
      AbsCase(incidents, transitions, nextId);
      ghost var before := Abs();
      hide AbsOf;
      var to := NormalizeStatus(toStatus);
      if id <= 0 || (!Blank(toStatus) && to.None?) {
        return Refused, false, false;
      }
      if id !in incidents {
        return NotFound, false, false;
      }
      var actor := Actor(changedBy, "system");
      var current := if incidents[id].assignee.Some? then TrimSpace(incidents[id].assignee.value) else "";
      ghost var c := before.cases[id];
      PutPut(before, id, c, c);
      if !Blank(toStatus) && to.value != incidents[id].status {
        if !Allowed(incidents[id].status, to.value) {
          return Refused, false, false;
        }
        UpdateWithAudit(id, WithStatus(incidents[id], to.value, now), to.value, actor, TrimSpace(comment), now);
        statusChanged := true;
        c := Move(id, c, to.value, actor, TrimSpace(comment), now);
        PutPut(before, id, c, c);
      }
      if TrimSpace(assignee) != current {
        var target := Owner(assignee);
        UpdateWithAudit(id, WithAssignee(incidents[id], target, now), incidents[id].status, actor,
                        AssignNote(comment, target), now);
        PutPut(before, id, c, Reassign(id, c, target, actor, AssignNote(comment, target), now));
        assigneeChanged := true;
      }
      return Done, statusChanged, assigneeChanged;
    }

    /** The subquery of the touch: the open match inside the window that was updated last, or none. */
    method FindLatest(key: MatchKey, since: int) returns (r: Option<nat>)
      requires Valid()
      ensures r.Some? ==> LatestCandidate(Abs(), r.value, key, since)
      ensures r.None? ==> forall id | id in incidents :: !Candidate(Abs(), id, key, since)
    {
      r := None;
      var todo := incidents.Keys;
      while todo != {}
        invariant todo <= incidents.Keys
        invariant r.Some? ==> Candidate(Abs(), r.value, key, since)
        invariant forall id | id in incidents.Keys - todo && Candidate(Abs(), id, key, since) ::
                    r.Some? && incidents[id].updatedAt <= incidents[r.value].updatedAt
        decreases |todo|
      {
        var id :| id in todo;
        todo := todo - {id};
        if Matches(incidents[id], key) && since <= incidents[id].updatedAt
           && (r.None? || incidents[r.value].updatedAt < incidents[id].updatedAt)
        {
          r := Some(id);
        }
      }
    }

    method TouchOrCreate(key: MatchKey, severity: Severity, assignee: Option<string>, details: string,
                         windowSeconds: int, now: int) returns (id: nat, created: bool)
      requires Valid()
      modifies this`incidents, this`nextId
      ensures Valid() && id in incidents
      ensures (Abs(), created)
           == TouchOrInsert(old(Abs()), key, severity, assignee, details, windowSeconds, id, now)
    {
      var found := FindLatest(key, now - windowSeconds * SECOND);
      if found.Some? {
        id := found.value;
        UpdateRow(id, WithDetails(incidents[id], details, now));
        return id, false;
      }
      id := InsertRow(NewRow(key.device, assignee, key.title, severity, key.source, details, now));
      return id, true;
    }

    /** Create-or-touch as one serialised transaction; `id` is the incident it touched or created. */
    method CreateOrTouchOpenIncident(device: Option<int>, title: string, severity: string, source: string,
                                     details: string, window: int, now: int)
      returns (reply: Reply, id: nat, created: bool)
      requires Valid()
      modifies this`incidents, this`nextId
      ensures Valid() && (Abs(), reply, created)
           == CreateOrTouch(old(Abs()), owners, device, title, severity, source, details, window, id, now)
      ensures reply == Done ==> id in incidents
      ensures Lawfully(old(Abs()), Abs(), now)
    {
      hide Lawfully;
      id, created := 0, false;
      var sv, src := NormalizeSeverity(severity), NormalizeSource(source);
      if Blank(title) || sv.None? || src.None? {
        LawfulTrigger(owners, old(Abs()), device, title, severity, source, details, window, 0, now);
        return Refused, 0, false;
      }
      id, created := TouchOrCreate(TriggerKey(device, title, sv.value, src.value), sv.value,
                                   DefaultAssignee(owners, src.value, sv.value), OrEmptyObject(details),
                                   WindowSeconds(window), now);
      LawfulTrigger(owners, old(Abs()), device, title, severity, source, details, window, id, now);
      return Done, id, created;
    }

    method ResolveOne(id: nat, changedBy: string, comment: string, now: int)
      requires Valid() && id in incidents
      modifies this`incidents, this`transitions
      ensures Valid() && incidents.Keys == old(incidents).Keys
      ensures Abs() == Put(old(Abs()), id, AutoResolve(id, old(Abs()).cases[id], changedBy, comment, now))
      ensures Abs() == AbsOf(incidents, transitions, nextId)
    {
      UpdateWithAudit(id, WithStatus(incidents[id], Resolved, now), Resolved, changedBy, comment, now);
    }

    method EscalateOne(id: nat, p: Policy, changedBy: string, now: int)
      requires Valid() && id in incidents && Runnable(p) && Escalates(Abs().cases[id].row, p, now)
      modifies this`incidents, this`transitions
      ensures Valid() && incidents.Keys == old(incidents).Keys
      ensures Abs() == Put(old(Abs()), id, EscalateCase(id, old(Abs()).cases[id], p, changedBy, now))
      ensures Abs() == AbsOf(incidents, transitions, nextId)
    {
      UpdateWithAudit(id, WithAssignee(incidents[id], Some(TrimSpace(p.target)), now), incidents[id].status,
                      Actor(changedBy, "system-escalation"), Note(p.comment, "auto-escalated: ack timeout reached"),
                      now);
    }

    /** The bulk update shared by both auto-resolve statements: every candidate, in any order. */
    method ResolveAll(candidates: set<nat>, changedBy: string, comment: string, now: int) returns (changed: nat)
      requires Valid() && candidates <= incidents.Keys
      requires forall id | id in candidates :: incidents[id].status != Resolved
      modifies this`incidents, this`transitions
      ensures Valid() && changed == |candidates|
      ensures Abs() == ResolvedIn(old(Abs()), candidates, changedBy, comment, now)
      ensures Rewritten(old(incidents), incidents) == candidates
    {
      ghost var before := Abs();
      AbsCase(incidents, transitions, nextId);
      ResolveRewrites(before, candidates, changedBy, comment, now);
      hide *;
      changed := ResolveCandidates(candidates, changedBy, comment, now);
      RewrittenIs(old(incidents), old(transitions), old(nextId), incidents, transitions, nextId, candidates);
    }

    method ResolveCandidates(candidates: set<nat>, changedBy: string, comment: string, now: int)
      returns (changed: nat)
      requires Valid() && candidates <= incidents.Keys
      modifies this`incidents, this`transitions
      ensures Valid() && changed == |candidates| && Abs() == AbsOf(incidents, transitions, nextId)
      ensures Abs() == ResolvedIn(old(Abs()), candidates, changedBy, comment, now)
    {
      var todo := candidates;
      changed := 0;
      ghost var before := Abs();
      AbsCase(incidents, transitions, nextId);
      ResolveEnds(before, candidates, changedBy, comment, now);
      assert Abs() == AbsOf(incidents, transitions, nextId);
      hide *;
      while todo != {}
        invariant Valid() && incidents.Keys == before.cases.Keys && todo <= candidates
        invariant changed + |todo| == |candidates|
        invariant Abs() == AbsOf(incidents, transitions, nextId)
        invariant Abs() == ResolvedIn(before, candidates - todo, changedBy, comment, now)
        decreases |todo|
      {
        var id :| id in todo;
        ResolveOneMore(before, candidates, todo, id, changedBy, comment, now);
        ResolveOne(id, changedBy, comment, now);
        todo := todo - {id};
        changed := changed + 1;
      }
    }

    method ResolveOpenIncidentsBySource(device: int, source: string, changedBy: string, comment: string, now: int)
      returns (reply: Reply, changed: nat)
      requires Valid()
      modifies this`incidents, this`transitions
      ensures Valid() && (Abs(), reply) == ResolveBySource(old(Abs()), device, source, changedBy, comment, now)
      ensures device > 0 && reply == Done ==>
                changed == |set id | id in old(incidents)
                                     && OpenOfSource(old(incidents)[id], device, NormalizeSource(source).value)|
      ensures changed == |Rewritten(old(incidents), incidents)|
      ensures Lawfully(old(Abs()), Abs(), now)
    {
      LawfulResolve(owners, Abs(), device, source, changedBy, comment, now);
      NothingRewritten(incidents);
      hide Lawfully;
      if device <= 0 {
        return Done, 0;
      }
      var src := NormalizeSource(source);
      if src.None? {
        return Refused, 0;
      }
      var candidates := set id | id in incidents && OpenOfSource(incidents[id], device, src.value);
      assert candidates == set id | id in old(incidents) && OpenOfSource(old(incidents)[id], device, src.value);
      ResolveBySourceIs(Abs(), candidates, device, source, changedBy, comment, now);
      changed := ResolveAll(candidates, Actor(changedBy, "system"), Note(comment, "auto-resolved"), now);
      return Done, changed;
    }

    method ResolveOpenTrapIncidents(device: Option<int>, titles: seq<string>, changedBy: string, comment: string,
                                    now: int) returns (changed: nat)
      requires Valid()
      modifies this`incidents, this`transitions
      ensures Valid() && Abs() == ResolveTraps(old(Abs()), device, titles, changedBy, comment, now)
      ensures device.None? ==> changed == 0
      ensures device.Some? ==>
                changed == |set id | id in old(incidents)
                                     && OpenTrapTitled(old(incidents)[id], device.value, titles)|
      ensures changed == |Rewritten(old(incidents), incidents)|
      ensures Lawfully(old(Abs()), Abs(), now)
    {
      LawfulTrapResolve(owners, Abs(), device, titles, changedBy, comment, now);
      NothingRewritten(incidents);
      hide Lawfully;
      if device.None? {
        return 0;
      }
      var candidates := set id | id in incidents && OpenTrapTitled(incidents[id], device.value, titles);
      assert candidates == set id | id in old(incidents) && OpenTrapTitled(old(incidents)[id], device.value, titles);
      ResolveTrapsIs(Abs(), candidates, device.value, titles, changedBy, comment, now);
      changed := ResolveAll(candidates, Actor(changedBy, "system"), Note(comment, "auto-resolved"), now);
    }

    /** One received trap; `device` is the device row its address belongs to, if any. */
    method CreateOrTouchOpenTrapIncident(device: Option<int>, oid: string, details: string, window: int, now: int)
      returns (ghost hint: nat)
      requires Valid()
      modifies this
      ensures Valid()
      ensures Abs() == Laws.Apply(owners, old(Abs()), Traps.TrapOp(owners, device, oid, details, window, hint), now)
      ensures Lawfully(old(Abs()), Abs(), now)
    {
      hint := 0;
      hide *;
      if Traps.IsRecovery(oid) {
        var _ := ResolveOpenTrapIncidents(device, [Traps.LINK_LOSS], "system", "auto-resolved by recovery trap", now);
        Traps.TrapApplied(owners, old(Abs()), device, oid, details, window, hint, now);
        ApplyIsLawful(owners, old(Abs()), Traps.TrapOp(owners, device, oid, details, window, hint), now);
        return;
      }
      var severity := Traps.TrapSeverity(oid);
      var id, created := TouchOrCreate(Traps.TrapKey(device, oid), severity,
                                       DefaultAssignee(owners, Trap, severity), details, WindowSeconds(window), now);
      hint := id;
      Traps.TrapApplied(owners, old(Abs()), device, oid, details, window, hint, now);
      ApplyIsLawful(owners, old(Abs()), Traps.TrapOp(owners, device, oid, details, window, hint), now);
    }

    method EscalateUnackedIncidents(p: Policy, changedBy: string, now: int) returns (reply: Reply, changed: nat)
      requires Valid()
      modifies this`incidents, this`transitions
      ensures Valid() && (Abs(), reply) == Escalate(old(Abs()), p, changedBy, now)
      ensures Runnable(p) ==> changed == |set id | id in old(incidents) && Escalates(old(incidents)[id], p, now)|
      ensures changed == |Rewritten(old(incidents), incidents)|
      ensures Lawfully(old(Abs()), Abs(), now)
    {
      LawfulEscalate(owners, Abs(), p, changedBy, now);
      NothingRewritten(incidents);
      hide Lawfully;
      if p.olderThan <= 0 || Blank(p.target) {
        return Done, 0;
      }
      if !Runnable(p) {
        return Refused, 0;
      }
      var candidates := set id | id in incidents && Escalates(incidents[id], p, now);
      changed := EscalateAll(candidates, p, changedBy, now);
      return Done, changed;
    }

    method EscalateAll(candidates: set<nat>, p: Policy, changedBy: string, now: int) returns (changed: nat)
      requires Valid() && Runnable(p)
      requires candidates == set id | id in incidents && Escalates(incidents[id], p, now)
      modifies this`incidents, this`transitions
      ensures Valid() && Abs() == Escalate(old(Abs()), p, changedBy, now).0
      ensures changed == |candidates| && Rewritten(old(incidents), incidents) == candidates
    {
      var todo := candidates;
      changed := 0;
      ghost var before := Abs();
      AbsCase(incidents, transitions, nextId);
      assert before == AbsOf(incidents, transitions, nextId);
      EscalationRewrites(before, p, changedBy, now, candidates);
      hide *;
      EscalateEnds(before, candidates, p, changedBy, now);
      while todo != {}
        invariant Valid() && todo <= candidates && incidents.Keys == before.cases.Keys
        invariant changed + |todo| == |candidates| && Abs() == AbsOf(incidents, transitions, nextId)
        invariant Abs() == EscalatedOutside(before, todo, p, changedBy, now)
        decreases |todo|
      {
        var id :| id in todo;
        EscalateOneMore(before, todo, id, p, changedBy, now);
        todo := todo - {id};
        EscalateOne(id, p, changedBy, now);
        changed := changed + 1;
      }
      RewrittenIs(old(incidents), old(transitions), old(nextId), incidents, transitions, nextId, candidates);
    }

    /** One tick of the worker: the policies one after another. */
    method EscalationTick(policies: seq<Policy>, now: int)
      requires Valid()
      modifies this`incidents, this`transitions
      ensures Valid() && Abs() == Escalation.Tick(old(Abs()), policies, now)
      ensures Lawfully(old(Abs()), Abs(), now)
    {
      TickIsLawful(owners, Abs(), policies, now);
      hide Lawfully;
      ghost var before := Abs();
      for k := 0 to |policies|
        invariant Valid()
        invariant Escalation.Tick(Abs(), policies[k..], now) == Escalation.Tick(before, policies, now)
      {
        assert policies[k..][1..] == policies[k + 1..];
        var _, _ := EscalateUnackedIncidents(policies[k], Escalation.ACTOR, now);
      }
    }
  }

  lemma NamesDiffer(i: nat)
    requires i < |STATUS_ORDER|
    ensures forall k | 0 <= k < |STATUS_ORDER| && k != i ::
              StatusName(STATUS_ORDER[k]) != StatusName(STATUS_ORDER[i])
  {
    forall k: nat | k < |STATUS_ORDER| && k != i
      ensures StatusName(STATUS_ORDER[k]) != StatusName(STATUS_ORDER[i])
    {
      NameIsNormal(STATUS_ORDER[k]);
      NameIsNormal(STATUS_ORDER[i]);
      assert Rank(STATUS_ORDER[k]) == k && Rank(STATUS_ORDER[i]) == i;
    }
  }

  /** A status name is its own normal form. */
  lemma NameIsNormal(s: Status)
    ensures NormalizeStatus(StatusName(s)) == Some(s)
  {
    var w := StatusName(s);
    assert TrimSpace(w) == w;
    assert forall i | 0 <= i < |w| :: LowerChar(w[i]) == w[i];
    assert ToLower(w) == w;
  }

  /** The index the search ends with is the rank of the normalized word, or -1. */
  lemma IndexIsRank(word: string, idx: int)
    requires -1 <= idx < |STATUS_ORDER|
    requires forall k | 0 <= k < |STATUS_ORDER| :: StatusName(STATUS_ORDER[k]) == Folded(word) <==> idx == k
    ensures var s := NormalizeStatus(word);
            if s.Some? then idx == Rank(s.value) && STATUS_ORDER[idx] == s.value else idx == -1
  {
    var s := NormalizeStatus(word);
    if s.Some? {
      assert StatusName(STATUS_ORDER[Rank(s.value)]) == Folded(word);
    } else if idx != -1 {
      NameIsNormal(STATUS_ORDER[idx]);
    }
  }
}
