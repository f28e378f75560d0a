/**
 What every run keeps: the audit trail of an incident replays to its row, statuses only go forward,
 and every stamp is written once.
 */
module IncidentLaws {
  import opened Common
  import opened Incidents

  // ---------- replaying an audit trail

  /** The part of a row that the audit trail determines. */
  datatype Life = Life(
    status: Status, acknowledgedAt: Option<int>, resolvedAt: Option<int>, closedAt: Option<int>)

  const BORN := Life(New, None, None, None)

  function LifeOf(row: Incident): Life {
    Life(row.status, row.acknowledgedAt, row.resolvedAt, row.closedAt)
  }

  /** Allowed steps, the jump of an auto-resolve, and notes that leave the status alone. */
  predicate AuditEdge(from: Status, to: Status) {
    from == to || Allowed(from, to) || (IsOpen(from) && to == Resolved)
  }

  function Advance(l: Life, r: AuditRow): Option<Life> {
    if r.from != l.status || !AuditEdge(r.from, r.to) then None
    else if r.from == r.to then Some(l)
    else match r.to
      case Acknowledged => Some(l.(status := r.to, acknowledgedAt := Some(r.changedAt)))
      case Resolved => Some(l.(status := r.to, resolvedAt := Some(r.changedAt)))
      case Closed => Some(l.(status := r.to, closedAt := Some(r.changedAt)))
      case _ => Some(l.(status := r.to))
  }

  /** Replays a trail from a newborn incident; None when it is not a chain of audit edges. */
  function Replay(trail: seq<AuditRow>): Option<Life> {
    if trail == [] then Some(BORN)
    else match Replay(trail[..|trail| - 1])
      case None => None
      case Some(l) => Advance(l, trail[|trail| - 1])
  }

  lemma ReplayAppend(trail: seq<AuditRow>, r: AuditRow)
    requires Replay(trail).Some?
    ensures Replay(trail + [r]) == Advance(Replay(trail).value, r)
  {
    assert (trail + [r])[..|trail|] == trail;
  }

  lemma ReplayEnd(trail: seq<AuditRow>)
    requires Replay(trail).Some?
    ensures Replay(trail).value.status == if trail == [] then New else trail[|trail| - 1].to
  {
  }

  /** A trail that replays is a chain of audit edges that starts at new. */
  lemma {:induction false} ReplayIsChain(trail: seq<AuditRow>, i: nat)
    requires Replay(trail).Some? && i < |trail|
    ensures trail[i].from == if i == 0 then New else trail[i - 1].to
    ensures AuditEdge(trail[i].from, trail[i].to)
  {
    var front := trail[..|trail| - 1];
    if i < |front| {
      ReplayIsChain(front, i);
    } else {
      ReplayEnd(front);
    }
  }

  predicate Entered(trail: seq<AuditRow>, s: Status, at: int) {
    exists i | 0 <= i < |trail| :: trail[i].from != s && trail[i].to == s && trail[i].changedAt == at
  }

  /** Which stamps of a replayed life are set. */
  lemma {:induction false} ReplaySet(trail: seq<AuditRow>)
    requires Replay(trail).Some?
    ensures var l := Replay(trail).value;
            && (l.resolvedAt.Some? <==> l.status == Resolved || l.status == Closed)
            && (l.closedAt.Some? <==> l.status == Closed)
            && (l.status == New ==> l.acknowledgedAt.None?)
  {
    if trail != [] {
      ReplaySet(trail[..|trail| - 1]);
    }
  }

  /** Each stamp is the time of the one audit row that entered the status. */
  lemma {:induction false} ReplayStamps(trail: seq<AuditRow>, at: int)
    requires Replay(trail).Some?
    ensures var l := Replay(trail).value;
            && (l.acknowledgedAt == Some(at) <==> Entered(trail, Acknowledged, at))
            && (l.resolvedAt == Some(at) <==> Entered(trail, Resolved, at))
            && (l.closedAt == Some(at) <==> Entered(trail, Closed, at))
  {
    if trail != [] {
      var n := |trail| - 1;
      ReplaySet(trail[..n]);
      ReplayStamps(trail[..n], at);
      EnteredAppend(trail, Acknowledged, at);
      EnteredAppend(trail, Resolved, at);
      EnteredAppend(trail, Closed, at);
    }
  }

  lemma EnteredAppend(trail: seq<AuditRow>, s: Status, at: int)
    requires trail != []
    ensures var n := |trail| - 1;
            Entered(trail, s, at) <==>
              Entered(trail[..n], s, at) || (trail[n].from != s && trail[n].to == s && trail[n].changedAt == at)
  {
    var n := |trail| - 1;
    if Entered(trail, s, at) {
      var i :| 0 <= i < |trail| && trail[i].from != s && trail[i].to == s && trail[i].changedAt == at;
      assert i < n ==> trail[..n][i] == trail[i];
    }
    if Entered(trail[..n], s, at) {
      var i :| 0 <= i < n && trail[..n][i].from != s && trail[..n][i].to == s && trail[..n][i].changedAt == at;
      assert trail[i] == trail[..n][i];
    }
  }

  /** The rows belong to incident `id` and their clock times rise from `lo` to at most `hi`. */
  predicate Ordered(id: nat, trail: seq<AuditRow>, lo: int, hi: int) {
    if trail == [] then lo <= hi
    else
      var last := trail[|trail| - 1];
      last.incidentId == id && last.changedAt <= hi && Ordered(id, trail[..|trail| - 1], lo, last.changedAt)
  }

  lemma {:induction false} OrderedAppend(id: nat, trail: seq<AuditRow>, lo: int, hi: int, r: AuditRow)
    requires Ordered(id, trail, lo, hi) && hi <= r.changedAt && r.incidentId == id
    ensures Ordered(id, trail + [r], lo, r.changedAt)
  {
    assert (trail + [r])[..|trail|] == trail;
    OrderedWiden(id, trail, lo, hi, r.changedAt);
  }

  lemma {:induction false} OrderedWiden(id: nat, trail: seq<AuditRow>, lo: int, hi: int, hi': int)
    requires Ordered(id, trail, lo, hi) && hi <= hi'
    ensures Ordered(id, trail, lo, hi') && lo <= hi
  {
    if trail != [] {
      var n := |trail| - 1;
      OrderedWiden(id, trail[..n], lo, trail[n].changedAt, trail[n].changedAt);
    }
  }

  predicate NoLater(a: Option<int>, b: Option<int>) {
    a.Some? && b.Some? ==> a.value <= b.value
  }

  predicate Within(a: Option<int>, lo: int, hi: int) {
    a.Some? ==> lo <= a.value <= hi
  }

  lemma {:induction false} ReplayOrder(id: nat, trail: seq<AuditRow>, lo: int, hi: int)
    requires Replay(trail).Some? && Ordered(id, trail, lo, hi)
    ensures lo <= hi
    ensures var l := Replay(trail).value;
            && NoLater(l.acknowledgedAt, l.resolvedAt) && NoLater(l.resolvedAt, l.closedAt)
            && NoLater(l.acknowledgedAt, l.closedAt)
            && Within(l.acknowledgedAt, lo, hi) && Within(l.resolvedAt, lo, hi) && Within(l.closedAt, lo, hi)
    decreases trail
  {
    if trail != [] {
      var n := |trail| - 1;
      ReplaySet(trail[..n]);
      ReplayOrder(id, trail[..n], lo, trail[n].changedAt);
    }
  }

  // ---------- the invariant of one case, and what one write does to it

  predicate GoodCase(id: nat, c: Case, now: int) {
    && Replay(c.trail) == Some(LifeOf(c.row))
    && Ordered(id, c.trail, c.row.createdAt, c.row.updatedAt)
    && c.row.updatedAt <= now
  }

  predicate Kept(a: Option<int>, b: Option<int>) {
    a.Some? ==> b == a
  }

  /** `d` is a later version of the incident `c`. */
  predicate Later(c: Case, d: Case) {
    && c.trail <= d.trail
    && Rank(c.row.status) <= Rank(d.row.status)
    && c.row.updatedAt <= d.row.updatedAt
    && c.row.createdAt == d.row.createdAt
    && Kept(c.row.acknowledgedAt, d.row.acknowledgedAt)
    && Kept(c.row.resolvedAt, d.row.resolvedAt)
    && Kept(c.row.closedAt, d.row.closedAt)
    && c.row.title == d.row.title && c.row.severity == d.row.severity
    && c.row.source == d.row.source && c.row.device == d.row.device
  }

  /** A later version written at time `now`, or not written at all. */
  predicate Step(id: nat, c: Case, d: Case, now: int) {
    Later(c, d) && GoodCase(id, d, now) && (d == c || d.row.updatedAt == now)
  }

  lemma MoveKeeps(id: nat, c: Case, to: Status, changedBy: string, comment: string, now: int)
    requires GoodCase(id, c, now) && to != c.row.status && AuditEdge(c.row.status, to)
    ensures Step(id, c, Move(id, c, to, changedBy, comment, now), now)
  {
    var r := AuditRow(id, c.row.status, to, changedBy, comment, now);
    ReplayAppend(c.trail, r);
    OrderedAppend(id, c.trail, c.row.createdAt, c.row.updatedAt, r);
    ReplaySet(c.trail);
  }

  lemma ReassignKeeps(id: nat, c: Case, assignee: Option<string>, changedBy: string, comment: string, now: int)
    requires GoodCase(id, c, now)
    ensures Step(id, c, Reassign(id, c, assignee, changedBy, comment, now), now)
  {
    var r := AuditRow(id, c.row.status, c.row.status, changedBy, comment, now);
    ReplayAppend(c.trail, r);
    OrderedAppend(id, c.trail, c.row.createdAt, c.row.updatedAt, r);
  }

  function Next(s: Status): Status
    requires s != Closed
  {
    STATUS_ORDER[Rank(s) + 1]
  }

  lemma NextIsAllowed(s: Status)
    requires s != Closed
    ensures Allowed(s, Next(s)) && Rank(Next(s)) == Rank(s) + 1
  {
  }

  /** A path starts one allowed step up and goes on from there. */
  lemma PathUnfold(from: Status, to: Status)
    requires Rank(from) < Rank(to)
    ensures Path(from, to) == [Next(from)] + Path(Next(from), to)
    ensures Allowed(from, Next(from)) && Rank(Next(from)) == Rank(from) + 1
  {
    NextIsAllowed(from);
    SliceHead(STATUS_ORDER, Rank(from) + 1, Rank(to) + 1);
    if Rank(Next(from)) == Rank(to) {
      assert STATUS_ORDER[Rank(from) + 2..Rank(to) + 1] == [];
    }
  }

  lemma SliceHead<T>(s: seq<T>, lo: nat, hi: nat)
    requires lo < hi <= |s|
    ensures s[lo..hi] == [s[lo]] + s[lo + 1..hi]
  {
  }

  lemma SliceSplit<T>(s: seq<T>, a: nat, b: nat, c: nat)
    requires a <= b <= c <= |s|
    ensures s[a..b] + s[b..c] == s[a..c]
  {
  }

  lemma SliceAt<T>(s: seq<T>, lo: nat, hi: nat, i: nat)
    requires lo + i < hi <= |s|
    ensures s[lo..hi][i] == s[lo + i] && |s[lo..hi]| == hi - lo
  {
  }

  lemma OrderIsAllowed(k: nat)
    requires k < 4
    ensures Allowed(STATUS_ORDER[k], STATUS_ORDER[k + 1])
  {
    assert k == 0 || k == 1 || k == 2 || k == 3;
  }

  /** Every consecutive pair on a path, from its start to its target, is an allowed step. */
  lemma {:induction false} PathIsAllowed(from: Status, to: Status, i: nat)
    requires i < |Path(from, to)|
    ensures var p := Path(from, to);
            Allowed(if i == 0 then from else p[i - 1], p[i]) && p[|p| - 1] == to
  {
    var p, k := Path(from, to), Rank(from) + i;
    SliceAt(STATUS_ORDER, Rank(from) + 1, Rank(to) + 1, i);
    SliceAt(STATUS_ORDER, Rank(from) + 1, Rank(to) + 1, |p| - 1);
    if 0 < i {
      SliceAt(STATUS_ORDER, Rank(from) + 1, Rank(to) + 1, i - 1);
    }
    OrderIsAllowed(k);
  }

  lemma StepTrans(id: nat, a: Case, b: Case, c: Case, now: int)
    requires Step(id, a, b, now) && Step(id, b, c, now)
    ensures Step(id, a, c, now)
  {
    hide GoodCase;
  }

  /** A walk takes one allowed step and goes on. */
  lemma WalkUnfold(id: nat, c: Case, to: Status, changedBy: string, comment: string, now: int)
    requires Rank(c.row.status) < Rank(to)
    ensures var d := Move(id, c, Next(c.row.status), changedBy, comment, now);
            && Allowed(c.row.status, d.row.status) && Rank(d.row.status) == Rank(c.row.status) + 1
            && Walk(id, c, Path(c.row.status, to), changedBy, comment, now)
            == Walk(id, d, Path(d.row.status, to), changedBy, comment, now)
  {
    PathUnfold(c.row.status, to);
    var next := Next(c.row.status);
    assert Path(c.row.status, to)[1..] == Path(next, to);
    hide Path;
  }

  lemma {:induction false} WalkKeeps(id: nat, c: Case, to: Status, changedBy: string, comment: string, now: int)
    requires GoodCase(id, c, now)
    ensures var d := Walk(id, c, Path(c.row.status, to), changedBy, comment, now);
            && Step(id, c, d, now)
            && (Rank(c.row.status) < Rank(to) ==> d.row.status == to)
    decreases Rank(to) - Rank(c.row.status)
  {
    if Rank(c.row.status) < Rank(to) {
      WalkUnfold(id, c, to, changedBy, comment, now);
      var next := Move(id, c, Next(c.row.status), changedBy, comment, now);
      MoveKeeps(id, c, next.row.status, changedBy, comment, now);
      assert GoodCase(id, next, now);
      hide Walk, Path, Move, Later, GoodCase;
      WalkKeeps(id, next, to, changedBy, comment, now);
      StepTrans(id, c, next, Walk(id, next, Path(next.row.status, to), changedBy, comment, now), now);
      assert Rank(next.row.status) == Rank(to) ==> next.row.status == to;
      EndOfPath(id, next, to, changedBy, comment, now);
    }
  }

  lemma EndOfPath(id: nat, c: Case, to: Status, changedBy: string, comment: string, now: int)
    ensures Rank(c.row.status) >= Rank(to) ==> Walk(id, c, Path(c.row.status, to), changedBy, comment, now) == c
  {
  }

  // ---------- path composition

  lemma {:induction false} WalkConcat(id: nat, c: Case, p: seq<Status>, q: seq<Status>, changedBy: string,
                                      comment: string, now: int)
    ensures Walk(id, c, p + q, changedBy, comment, now)
         == Walk(id, Walk(id, c, p, changedBy, comment, now), q, changedBy, comment, now)
    decreases p
  {
    if p == [] {
      assert p + q == q;
    } else {
      assert (p + q)[1..] == p[1..] + q;
      WalkConcat(id, Move(id, c, p[0], changedBy, comment, now), p[1..], q, changedBy, comment, now);
    }
  }

  lemma WalkCompose(id: nat, c: Case, mid: Status, to: Status, changedBy: string, comment: string, now: int)
    requires Rank(c.row.status) < Rank(mid) < Rank(to)
    ensures var c1 := Walk(id, c, Path(c.row.status, mid), changedBy, comment, now);
            && c1.row.status == mid
            && Walk(id, c1, Path(mid, to), changedBy, comment, now)
            == Walk(id, c, Path(c.row.status, to), changedBy, comment, now)
  {
    WalkEnd(id, c, mid, changedBy, comment, now);
    SliceSplit(STATUS_ORDER, Rank(c.row.status) + 1, Rank(mid) + 1, Rank(to) + 1);
    WalkConcat(id, c, Path(c.row.status, mid), Path(mid, to), changedBy, comment, now);
  }

  /** Going up in two calls at one clock time leaves the same table, audit rows included, as in one call. */
  lemma TransitionsCompose(db: Db, id: int, mid: string, to: string, changedBy: string, comment: string, now: int)
    requires Transition(db, id, mid, changedBy, comment, now).1 == Done
    requires Transition(Transition(db, id, mid, changedBy, comment, now).0, id, to, changedBy, comment, now).1 == Done
    ensures Transition(db, id, to, changedBy, comment, now)
         == Transition(Transition(db, id, mid, changedBy, comment, now).0, id, to, changedBy, comment, now)
  {
    var c, actor, note := db.cases[id], Actor(changedBy, "system"), TrimSpace(comment);
    DoneMeans(db, id, mid, changedBy, comment, now);
    var db1 := Transition(db, id, mid, changedBy, comment, now).0;
    DoneMeans(db1, id, to, changedBy, comment, now);
    hide *;
    var b, d := NormalizeStatus(mid).value, NormalizeStatus(to).value;
    WalkEnd(id, c, b, actor, note, now);
    WalkCompose(id, c, b, d, actor, note, now);
    TransitionDone(db, id, to, changedBy, comment, now);
    WriteTwice(db.cases, id, db1.cases[id], Walk(id, c, Path(c.row.status, d), actor, note, now));
  }

  lemma WriteTwice(m: map<nat, Case>, id: nat, a: Case, b: Case)
    ensures m[id := a][id := b] == m[id := b]
  {
  }

  lemma DoneMeans(db: Db, id: int, to: string, changedBy: string, comment: string, now: int)
    requires Transition(db, id, to, changedBy, comment, now).1 == Done
    ensures id > 0 && id in db.cases && NormalizeStatus(to).Some?
    ensures Rank(db.cases[id].row.status) < Rank(NormalizeStatus(to).value)
    ensures Transition(db, id, to, changedBy, comment, now).0
         == db.(cases := db.cases[id := Walk(id, db.cases[id], Path(db.cases[id].row.status, NormalizeStatus(to).value),
                                             Actor(changedBy, "system"), TrimSpace(comment), now)])
  {
    hide NormalizeStatus, Walk, Actor, TrimSpace;
  }

  /** When a transition of an existing incident is done, and what it then leaves. */
  lemma TransitionDone(db: Db, id: int, to: string, changedBy: string, comment: string, now: int)
    requires id > 0 && id in db.cases
    ensures var target := NormalizeStatus(to);
            var c := db.cases[id];
            if target.Some? && Rank(c.row.status) < Rank(target.value)
            then Transition(db, id, to, changedBy, comment, now)
              == (db.(cases := db.cases[id := Walk(id, c, Path(c.row.status, target.value), Actor(changedBy, "system"),
                                                   TrimSpace(comment), now)]), Done)
            else Transition(db, id, to, changedBy, comment, now) == (db, Refused)
  {
  }

  lemma {:induction false} WalkEnd(id: nat, c: Case, to: Status, changedBy: string, comment: string, now: int)
    requires Rank(c.row.status) < Rank(to)
    ensures Walk(id, c, Path(c.row.status, to), changedBy, comment, now).row.status == to
    decreases Rank(to) - Rank(c.row.status)
  {
    WalkUnfold(id, c, to, changedBy, comment, now);
    var next := Move(id, c, Next(c.row.status), changedBy, comment, now);
    if Rank(next.row.status) < Rank(to) {
      hide Walk, Path, Move;
      WalkEnd(id, next, to, changedBy, comment, now);
    } else {
      EndOfPath(id, next, to, changedBy, comment, now);
    }
  }

  /** A transition of an existing incident succeeds exactly when the target is a known, higher status. */
  lemma TransitionSucceedsIff(db: Db, id: int, to: string, changedBy: string, comment: string, now: int)
    requires id > 0 && id in db.cases
    ensures var (db', reply) := Transition(db, id, to, changedBy, comment, now);
            var target := NormalizeStatus(to);
            && (reply == Done <==> target.Some? && Rank(db.cases[id].row.status) < Rank(target.value))
            && (reply == Done ==>
                  && db'.cases[id].row.status == target.value
                  && |db'.cases[id].trail| == |db.cases[id].trail| + Rank(target.value) - Rank(db.cases[id].row.status))
            && (reply != Done ==> db' == db)
  {
    TransitionDone(db, id, to, changedBy, comment, now);
    var c, target := db.cases[id], NormalizeStatus(to);
    if target.Some? && Rank(c.row.status) < Rank(target.value) {
      WalkEnd(id, c, target.value, Actor(changedBy, "system"), TrimSpace(comment), now);
      WalkLength(id, c, Path(c.row.status, target.value), Actor(changedBy, "system"), TrimSpace(comment), now);
    }
  }

  lemma {:induction false} WalkLength(id: nat, c: Case, p: seq<Status>, changedBy: string, comment: string, now: int)
    ensures |Walk(id, c, p, changedBy, comment, now).trail| == |c.trail| + |p|
    decreases p
  {
    if p != [] {
      WalkLength(id, Move(id, c, p[0], changedBy, comment, now), p[1..], changedBy, comment, now);
    }
  }

  // ---------- creating

  /** No owner is configured for such an incident. */
  predicate NoDefault(owners: Owners, source: Source, severity: Severity) {
    && (severity == Critical ==> Blank(owners.critical))
    && (source == Trap ==> Blank(owners.trap))
    && (source == Polling ==> Blank(owners.polling))
    && (source == Manual ==> Blank(owners.manual))
    && Blank(owners.fallback)
  }

  /**
   Creating is refused exactly for a blank title or an unknown word. Otherwise it adds one newborn incident and
   nothing else, which is unassigned exactly when neither the caller nor the configuration names an owner.
   */
  lemma CreatedIncident(db: Db, owners: Owners, device: Option<int>, title: string, severity: string, source: string,
                        assignee: Option<string>, details: string, now: int)
    requires db.nextId !in db.cases
    ensures var (db', reply) := Create(db, owners, device, title, severity, source, assignee, details, now);
            var sv, src := NormalizeSeverity(severity), NormalizeSource(source);
            && (reply == Done <==> !Blank(title) && sv.Some? && src.Some?)
            && (reply != Done ==> db' == db)
            && (reply == Done ==>
                  && db'.cases.Keys == db.cases.Keys + {db.nextId} && db'.nextId == db.nextId + 1
                  && (forall id | id in db.cases :: db'.cases[id] == db.cases[id])
                  && var c := db'.cases[db.nextId];
                     && c.trail == [] && LifeOf(c.row) == BORN && c.row.createdAt == c.row.updatedAt == now
                     && (c.row.assignee.None? <==>
                           (assignee.None? || Blank(assignee.value)) && NoDefault(owners, src.value, sv.value))
                     && (c.row.assignee.Some? ==>
                           !Blank(c.row.assignee.value) && TrimSpace(c.row.assignee.value) == c.row.assignee.value))
  {
    if assignee.Some? {
      TrimSpaceIdempotent(assignee.value);
    }
    TrimSpaceIdempotent(owners.critical);
    TrimSpaceIdempotent(owners.trap);
    TrimSpaceIdempotent(owners.polling);
    TrimSpaceIdempotent(owners.manual);
    TrimSpaceIdempotent(owners.fallback);
    hide TrimSpace;
  }

  // ---------- the inbound update

  function OwnerText(row: Incident): string {
    if row.assignee.Some? then TrimSpace(row.assignee.value) else ""
  }

  /**
   An accepted inbound update leaves the incident as the message says, in status and in owner: a message
   without an owner clears the one that was set.
   */
  lemma ItsmSettles(db: Db, id: int, to: string, owner: string, changedBy: string, comment: string, now: int)
    ensures var (db', reply) := ItsmUpdate(db, id, to, owner, changedBy, comment, now);
            reply == Done ==>
              && id in db.cases && id in db'.cases
              && OwnerText(db'.cases[id].row) == TrimSpace(owner)
              && (if Blank(to) then db'.cases[id].row.status == db.cases[id].row.status
                  else Some(db'.cases[id].row.status) == NormalizeStatus(to))
  {
    TrimSpaceIdempotent(owner);
  }

  /** It is accepted exactly when the status is left out, unchanged, or one allowed step away. */
  lemma ItsmAcceptedIff(db: Db, id: int, to: string, owner: string, changedBy: string, comment: string, now: int)
    requires id > 0 && id in db.cases
    ensures var (db', reply) := ItsmUpdate(db, id, to, owner, changedBy, comment, now);
            var from, target := db.cases[id].row.status, NormalizeStatus(to);
            && (reply == Done <==>
                  Blank(to) || (target.Some? && (target.value == from || Allowed(from, target.value))))
            && (reply != Done ==> db' == db)
  {
  }

  /** Delivered a second time, by whomever and however late, an accepted message changes nothing. */
  lemma ItsmIsIdempotent(db: Db, id: int, to: string, owner: string, changedBy: string, comment: string, now: int,
                         changedBy': string, comment': string, later: int)
    requires ItsmUpdate(db, id, to, owner, changedBy, comment, now).1 == Done
    ensures var db' := ItsmUpdate(db, id, to, owner, changedBy, comment, now).0;
            ItsmUpdate(db', id, to, owner, changedBy', comment', later) == (db', Done)
  {
    ItsmSettles(db, id, to, owner, changedBy, comment, now);
    var db' := ItsmUpdate(db, id, to, owner, changedBy, comment, now).0;
    ItsmSettled(db', id, to, owner, changedBy', comment', later);
  }

  lemma ItsmSettled(db: Db, id: int, to: string, owner: string, changedBy: string, comment: string, now: int)
    requires id > 0 && id in db.cases && OwnerText(db.cases[id].row) == TrimSpace(owner)
    requires Blank(to) || Some(db.cases[id].row.status) == NormalizeStatus(to)
    ensures ItsmUpdate(db, id, to, owner, changedBy, comment, now) == (db, Done)
  {
    assert db.cases[id := db.cases[id]] == db.cases;
  }

  // ---------- runs of the whole service

  datatype Op =
    | OpCreate(device: Option<int>, title: string, severity: string, source: string, assignee: Option<string>,
               details: string)
    | OpTrigger(device: Option<int>, title: string, severity: string, source: string, details: string, window: int,
                hint: nat)
    | OpTransition(id: int, to: string, changedBy: string, comment: string)
    | OpAssign(id: int, owner: string, changedBy: string, comment: string)
    | OpItsm(id: int, to: string, owner: string, changedBy: string, comment: string)
    | OpResolve(deviceId: int, source: string, changedBy: string, comment: string)
    | OpEscalate(policy: Policy, changedBy: string)
    | OpTrapTouch(key: MatchKey, sv: Severity, owner': Option<string>, details: string, window: int, hint: nat)
    | OpTrapResolve(device: Option<int>, titles: seq<string>, changedBy: string, comment: string)

  datatype Event = Event(op: Op, now: int)

  ghost function Apply(owners: Owners, db: Db, op: Op, now: int): Db {
    match op
    case OpCreate(d, t, sv, src, a, det) => Create(db, owners, d, t, sv, src, a, det, now).0
    case OpTrigger(d, t, sv, src, det, w, h) => CreateOrTouch(db, owners, d, t, sv, src, det, w, h, now).0
    case OpTransition(id, to, who, note) => Transition(db, id, to, who, note, now).0
    case OpAssign(id, a, who, note) => Assign(db, id, a, who, note, now).0
    case OpItsm(id, to, a, who, note) => ItsmUpdate(db, id, to, a, who, note, now).0
    case OpResolve(d, src, who, note) => ResolveBySource(db, d, src, who, note, now).0
    case OpEscalate(p, who) => Escalate(db, p, who, now).0
    case OpTrapTouch(k, sv, a, det, w, h) => TouchOrInsert(db, k, sv, a, det, WindowSeconds(w), h, now).0
    case OpTrapResolve(d, titles, who, note) => ResolveTraps(db, d, titles, who, note, now)
  }

  ghost function Run(owners: Owners, db: Db, events: seq<Event>): Db
    decreases events
  {
    if events == [] then db
    else Run(owners, Apply(owners, db, events[0].op, events[0].now), events[1..])
  }

  /** Transactions are serialised and NOW() never goes back. */
  predicate InOrder(start: int, events: seq<Event>) {
    && (forall i | 0 <= i < |events| :: start <= events[i].now)
    && (forall i, j | 0 <= i <= j < |events| :: events[i].now <= events[j].now)
  }

  predicate GoodDb(db: Db, now: int) {
    && db.nextId > 0
    && forall id | id in db.cases :: 0 < id < db.nextId && GoodCase(id, db.cases[id], now)
  }

  /** No incident disappears, each is a later version, and whatever changed or is new was written at `now`. */
  predicate DbStep(db: Db, db': Db, now: int) {
    && GoodDb(db', now)
    && db.nextId <= db'.nextId
    && db.cases.Keys <= db'.cases.Keys
    && (forall id | id in db.cases :: Step(id, db.cases[id], db'.cases[id], now))
    && (forall id | id in db'.cases && id !in db.cases :: db.nextId <= id && db'.cases[id].row.updatedAt == now)
  }

  predicate DbLater(db: Db, db': Db) {
    && db.nextId <= db'.nextId
    && db.cases.Keys <= db'.cases.Keys
    && (forall id | id in db.cases :: Later(db.cases[id], db'.cases[id]))
    && (forall id | id in db'.cases && id !in db.cases :: db.nextId <= id)
  }

  lemma GoodLater(db: Db, t: int, now: int)
    requires GoodDb(db, t) && t <= now
    ensures GoodDb(db, now)
  {
  }

  /** A good table stays good when one of its cases takes a step. */
  lemma WriteKeeps(db: Db, id: nat, d: Case, now: int)
    requires GoodDb(db, now) && id in db.cases && Step(id, db.cases[id], d, now)
    ensures DbStep(db, db.(cases := db.cases[id := d]), now)
  {
    hide GoodCase, Later;
    StepRefl(db, now);
  }

  lemma BulkKeeps(db: Db, cases: map<nat, Case>, now: int)
    requires GoodDb(db, now) && cases.Keys == db.cases.Keys
    requires forall id | id in db.cases :: Step(id, db.cases[id], cases[id], now)
    ensures DbStep(db, db.(cases := cases), now)
  {
    hide GoodCase, Later;
  }

  lemma StepRefl(db: Db, now: int)
    requires GoodDb(db, now)
    ensures forall id | id in db.cases :: Step(id, db.cases[id], db.cases[id], now)
  {
    forall id | id in db.cases ensures Later(db.cases[id], db.cases[id]) {
    }
    hide GoodCase, Later;
  }

  lemma InsertKeeps(db: Db, row: Incident, now: int)
    requires GoodDb(db, now)
    requires LifeOf(row) == BORN && row.createdAt == row.updatedAt == now
    ensures DbStep(db, Insert(db, row), now)
  {
    assert GoodCase(db.nextId, Case(row, []), now);
    hide GoodCase, Later;
    StepRefl(db, now);
  }

  lemma TouchKeeps(db: Db, key: MatchKey, severity: Severity, assignee: Option<string>, details: string,
                   windowSeconds: int, hint: nat, now: int)
    requires GoodDb(db, now)
    ensures DbStep(db, TouchOrInsert(db, key, severity, assignee, details, windowSeconds, hint, now).0, now)
  {
    match Chosen(db, key, now - windowSeconds * SECOND, hint)
    case Some(id) =>
      var c := db.cases[id];
      OrderedWiden(id, c.trail, c.row.createdAt, c.row.updatedAt, now);
      WriteKeeps(db, id, c.(row := WithDetails(c.row, details, now)), now);
    case None =>
      InsertKeeps(db, NewRow(key.device, assignee, key.title, severity, key.source, details, now), now);
  }

  lemma ItsmKeeps(db: Db, id: int, to: string, owner: string, changedBy: string, comment: string, now: int)
    requires GoodDb(db, now)
    ensures DbStep(db, ItsmUpdate(db, id, to, owner, changedBy, comment, now).0, now)
  {
    var (db', reply) := ItsmUpdate(db, id, to, owner, changedBy, comment, now);
    if reply == Done {
      var c := db.cases[id];
      var actor := Actor(changedBy, "system");
      var target := NormalizeStatus(to);
      var moves := !Blank(to) && target.value != c.row.status;
      var c1 := c;
      if moves {
        c1 := Move(id, c, target.value, actor, TrimSpace(comment), now);
        MoveKeeps(id, c, target.value, actor, TrimSpace(comment), now);
      }
      var who := Owner(owner);
      ReassignKeeps(id, c1, who, actor, AssignNote(comment, who), now);
      WriteKeeps(db, id, db'.cases[id], now);
    } else {
      StepRefl(db, now);
    }
  }

  /** Every transaction is a step: nothing vanishes and every incident stays good. */
  lemma ApplyKeeps(owners: Owners, db: Db, op: Op, now: int)
    requires GoodDb(db, now)
    ensures DbStep(db, Apply(owners, db, op, now), now)
  {
    hide GoodCase, Later;
    StepRefl(db, now);
    match op
    case OpCreate(d, t, sv, src, a, det) =>
      var (db', reply) := Create(db, owners, d, t, sv, src, a, det, now);
      if reply == Done {
        InsertKeeps(db, db'.cases[db.nextId].row, now);
      }
    case OpTrigger(d, t, sv, src, det, w, h) =>
      var s, o := NormalizeSeverity(sv), NormalizeSource(src);
      if s.Some? && o.Some? {
        TouchKeeps(db, TriggerKey(d, t, s.value, o.value), s.value, DefaultAssignee(owners, o.value, s.value),
                   OrEmptyObject(det), WindowSeconds(w), h, now);
      }
    case OpTransition(id, to, who, note) => TransitionKeeps(db, id, to, who, note, now);
    case OpAssign(id, a, who, note) =>
      if id > 0 && id in db.cases {
        ReassignKeeps(id, db.cases[id], Owner(a), Actor(who, "system"), AssignNote(note, Owner(a)), now);
        WriteKeeps(db, id, Reassign(id, db.cases[id], Owner(a), Actor(who, "system"), AssignNote(note, Owner(a)), now),
                   now);
      }
    case OpItsm(id, to, a, who, note) => ItsmKeeps(db, id, to, a, who, note, now);
    case OpResolve(d, src, who, note) => ResolveKeeps(db, d, src, who, note, now);
    case OpEscalate(p, who) => EscalateKeeps(db, p, who, now);
    case OpTrapTouch(k, sv, a, det, w, h) => TouchKeeps(db, k, sv, a, det, WindowSeconds(w), h, now);
    case OpTrapResolve(d, titles, who, note) => TrapResolveKeeps(db, d, titles, who, note, now);
  }

  lemma TransitionKeeps(db: Db, id: int, to: string, changedBy: string, comment: string, now: int)
    requires GoodDb(db, now)
    ensures DbStep(db, Transition(db, id, to, changedBy, comment, now).0, now)
  {
    StepRefl(db, now);
    if id > 0 && id in db.cases && NormalizeStatus(to).Some? {
      var target := NormalizeStatus(to).value;
      WalkKeeps(id, db.cases[id], target, Actor(changedBy, "system"), TrimSpace(comment), now);
      WriteKeeps(db, id, Walk(id, db.cases[id], Path(db.cases[id].row.status, target), Actor(changedBy, "system"),
                              TrimSpace(comment), now), now);
    }
  }

  lemma AutoResolveKeeps(db: Db, changedBy: string, comment: string, now: int)
    requires GoodDb(db, now)
    ensures forall id | id in db.cases && IsOpen(db.cases[id].row.status) ::
              Step(id, db.cases[id], AutoResolve(id, db.cases[id], changedBy, comment, now), now)
  {
    forall id | id in db.cases && IsOpen(db.cases[id].row.status)
      ensures Step(id, db.cases[id], AutoResolve(id, db.cases[id], changedBy, comment, now), now)
    {
      MoveKeeps(id, db.cases[id], Resolved, changedBy, comment, now);
    }
  }

  lemma ResolveKeeps(db: Db, device: int, source: string, changedBy: string, comment: string, now: int)
    requires GoodDb(db, now)
    ensures DbStep(db, ResolveBySource(db, device, source, changedBy, comment, now).0, now)
  {
    hide Step, GoodCase;
    StepRefl(db, now);
    AutoResolveKeeps(db, Actor(changedBy, "system"), Note(comment, "auto-resolved"), now);
    BulkKeeps(db, ResolveBySource(db, device, source, changedBy, comment, now).0.cases, now);
  }

  lemma TrapResolveKeeps(db: Db, device: Option<int>, titles: seq<string>, changedBy: string, comment: string, now: int)
    requires GoodDb(db, now)
    ensures DbStep(db, ResolveTraps(db, device, titles, changedBy, comment, now), now)
  {
    hide Step, GoodCase;
    StepRefl(db, now);
    AutoResolveKeeps(db, Actor(changedBy, "system"), Note(comment, "auto-resolved"), now);
    BulkKeeps(db, ResolveTraps(db, device, titles, changedBy, comment, now).cases, now);
  }

  lemma EscalateKeeps(db: Db, p: Policy, changedBy: string, now: int)
    requires GoodDb(db, now)
    ensures DbStep(db, Escalate(db, p, changedBy, now).0, now)
  {
    hide Step, GoodCase;
    StepRefl(db, now);
    if Runnable(p) {
      forall id | id in db.cases
        ensures Step(id, db.cases[id], EscalateCase(id, db.cases[id], p, changedBy, now), now)
      {
        ReassignKeeps(id, db.cases[id], Some(TrimSpace(p.target)), Actor(changedBy, "system-escalation"),
                      Note(p.comment, "auto-escalated: ack timeout reached"), now);
      }
    }
    BulkKeeps(db, Escalate(db, p, changedBy, now).0.cases, now);
  }

  // ---------- where rows come from

  /** What an incident is about; no operation ever changes it. */
  datatype Topic = Topic(source: Source, title: string, device: Option<int>)

  function TopicOf(row: Incident): Topic {
    Topic(row.source, row.title, row.device)
  }

  /** The topic of an accepted create or trigger. */
  function RaisedBy(op: Op): Option<Topic> {
    match op
    case OpCreate(d, t, sv, src, _, _) => RaisedByCall(d, t, sv, src)
    case OpTrigger(d, t, sv, src, _, _, _) => RaisedByCall(d, t, sv, src)
    case OpTrapTouch(k, _, _, _, _, _) => Some(Topic(k.source, k.title, k.device))
    case _ => None
  }

  function RaisedByCall(device: Option<int>, title: string, severity: string, source: string): Option<Topic> {
    if Blank(title) || NormalizeSeverity(severity).None? || NormalizeSource(source).None? then None
    else Some(Topic(NormalizeSource(source).value, TrimSpace(title), KnownDevice(device)))
  }

  ghost predicate About(db: Db, topic: Topic) {
    exists id :: id in db.cases && TopicOf(db.cases[id].row) == topic
  }

  lemma InsertRaises(db: Db, row: Incident)
    ensures About(Insert(db, row), TopicOf(row))
    ensures forall id | id in Insert(db, row).cases && id !in db.cases ::
              TopicOf(Insert(db, row).cases[id].row) == TopicOf(row)
  {
    assert db.nextId in Insert(db, row).cases;
  }

  lemma TouchRaises(db: Db, key: MatchKey, severity: Severity, assignee: Option<string>, details: string,
                    windowSeconds: int, hint: nat, now: int)
    ensures var db' := TouchOrInsert(db, key, severity, assignee, details, windowSeconds, hint, now).0;
            var topic := Topic(key.source, key.title, key.device);
            About(db', topic) && forall id | id in db'.cases && id !in db.cases :: TopicOf(db'.cases[id].row) == topic
  {
    match Chosen(db, key, now - windowSeconds * SECOND, hint)
    case Some(id) =>
      var db' := TouchOrInsert(db, key, severity, assignee, details, windowSeconds, hint, now).0;
      assert id in db'.cases && TopicOf(db'.cases[id].row) == Topic(key.source, key.title, key.device);
    case None =>
      InsertRaises(db, NewRow(key.device, assignee, key.title, severity, key.source, details, now));
  }

  /** An operation that raises nothing adds no row. */
  lemma OthersAddNothing(owners: Owners, db: Db, op: Op, now: int)
    requires RaisedBy(op).None?
    ensures forall id | id in Apply(owners, db, op, now).cases :: id in db.cases
  {
    hide Walk, TouchOrInsert, Move, Reassign, EscalateCase;
  }

  /** After an operation that raises a topic some incident is about it, and every row it adds is. */
  lemma RaisedIsThere(owners: Owners, db: Db, op: Op, now: int)
    requires RaisedBy(op).Some?
    ensures var db' := Apply(owners, db, op, now);
            && About(db', RaisedBy(op).value)
            && forall id | id in db'.cases && id !in db.cases :: TopicOf(db'.cases[id].row) == RaisedBy(op).value
  {
    hide About, TouchOrInsert;
    match op
    case OpCreate(d, t, sv, src, a, det) =>
      InsertRaises(db, Create(db, owners, d, t, sv, src, a, det, now).0.cases[db.nextId].row);
    case OpTrigger(d, t, sv, src, det, w, h) =>
      var s, o := NormalizeSeverity(sv).value, NormalizeSource(src).value;
      TouchRaises(db, TriggerKey(d, t, s, o), s, DefaultAssignee(owners, o, s), OrEmptyObject(det), WindowSeconds(w), h,
                  now);
    case OpTrapTouch(k, sv, a, det, w, h) => TouchRaises(db, k, sv, a, det, WindowSeconds(w), h, now);
  }

  function EndOf(start: int, events: seq<Event>): int {
    if events == [] then start else events[|events| - 1].now
  }

  lemma LaterTrans(a: Db, b: Db, c: Db, now: int)
    requires DbStep(a, b, now) && DbLater(b, c)
    ensures DbLater(a, c)
  {
    forall id | id in a.cases ensures Later(a.cases[id], c.cases[id]) {
      assert Step(id, a.cases[id], b.cases[id], now) && Later(b.cases[id], c.cases[id]);
    }
    hide Step, GoodCase, Later;
  }

  lemma LaterRefl(db: Db)
    ensures DbLater(db, db)
  {
  }

  /** Over any run, from any good table: every incident stays good and only moves forward. */
  lemma {:induction false} RunKeeps(owners: Owners, db: Db, events: seq<Event>, start: int)
    requires GoodDb(db, start) && InOrder(start, events)
    ensures GoodDb(Run(owners, db, events), EndOf(start, events))
    ensures DbLater(db, Run(owners, db, events))
    decreases events
  {
    if events == [] {
      LaterRefl(db);
    } else {
      hide DbLater;
      var e := events[0];
      GoodLater(db, start, e.now);
      hide GoodDb;
      ApplyKeeps(owners, db, e.op, e.now);
      var db1 := Apply(owners, db, e.op, e.now);
      RunKeeps(owners, db1, events[1..], e.now);
      LaterTrans(db, db1, Run(owners, db, events), e.now);
    }
  }

  /** The laws of one incident: its audit rows account for its status and its stamps, which are in order. */
  ghost predicate Lawful(row: Incident, trail: seq<AuditRow>) {
    && Replay(trail) == Some(LifeOf(row))
    && (row.resolvedAt.Some? <==> row.status == Resolved || row.status == Closed)
    && (row.closedAt.Some? <==> row.status == Closed)
    && (forall at :: row.acknowledgedAt == Some(at) <==> Entered(trail, Acknowledged, at))
    && (forall at :: row.resolvedAt == Some(at) <==> Entered(trail, Resolved, at))
    && (forall at :: row.closedAt == Some(at) <==> Entered(trail, Closed, at))
    && row.createdAt <= row.updatedAt
    && Within(row.acknowledgedAt, row.createdAt, row.updatedAt)
    && Within(row.resolvedAt, row.createdAt, row.updatedAt)
    && Within(row.closedAt, row.createdAt, row.updatedAt)
    && NoLater(row.acknowledgedAt, row.resolvedAt)
    && NoLater(row.resolvedAt, row.closedAt)
  }

  lemma GoodIsLawful(id: nat, c: Case, now: int)
    requires GoodCase(id, c, now)
    ensures Lawful(c.row, c.trail)
  {
    ReplaySet(c.trail);
    ReplayOrder(id, c.trail, c.row.createdAt, c.row.updatedAt);
    forall at
      ensures c.row.acknowledgedAt == Some(at) <==> Entered(c.trail, Acknowledged, at)
      ensures c.row.resolvedAt == Some(at) <==> Entered(c.trail, Resolved, at)
      ensures c.row.closedAt == Some(at) <==> Entered(c.trail, Closed, at)
    {
      ReplayStamps(c.trail, at);
    }
  }

  /**
   Audit replay and life cycle. From the empty tables, after any run, the audit rows of each incident
   replay to its status and its three stamps, and the stamps are in order.
   */
  lemma AuditReplaysToTable(owners: Owners, events: seq<Event>, start: int)
    requires InOrder(start, events)
    ensures var db := Run(owners, EMPTY_DB, events);
            forall id | id in db.cases :: Lawful(db.cases[id].row, db.cases[id].trail)
  {
    hide Lawful;
    var db := Run(owners, EMPTY_DB, events);
    RunKeeps(owners, EMPTY_DB, events, start);
    forall id | id in db.cases ensures Lawful(db.cases[id].row, db.cases[id].trail) {
      GoodIsLawful(id, db.cases[id], EndOf(start, events));
    }
  }

  lemma {:induction false} RunSplit(owners: Owners, db: Db, before: seq<Event>, after: seq<Event>)
    ensures Run(owners, db, before + after) == Run(owners, Run(owners, db, before), after)
    decreases before
  {
    if before == [] {
      assert before + after == after;
    } else {
      assert (before + after)[1..] == before[1..] + after;
      RunSplit(owners, Apply(owners, db, before[0].op, before[0].now), before[1..], after);
    }
  }

  /**
   Between any two moments of a run: an incident never goes back, a closed one keeps its status, stamps
   once set are never rewritten, and its audit trail only grows.
   */
  lemma LifeOnlyMovesForward(owners: Owners, before: seq<Event>, after: seq<Event>, start: int, id: nat)
    requires InOrder(start, before + after)
    requires id in Run(owners, EMPTY_DB, before).cases
    ensures var db, db' := Run(owners, EMPTY_DB, before), Run(owners, EMPTY_DB, before + after);
            && id in db'.cases
            && Later(db.cases[id], db'.cases[id])
            && (db.cases[id].row.status == Closed ==> db'.cases[id].row.status == Closed)
  {
    OrderSplit(start, before, after);
    hide GoodDb, InOrder, Later;
    RunKeeps(owners, EMPTY_DB, before, start) by {
      assert GoodDb(EMPTY_DB, start) by { EmptyIsGood(start); }
    }
    RunSplit(owners, EMPTY_DB, before, after);
    RunKeeps(owners, Run(owners, EMPTY_DB, before), after, EndOf(start, before));
    if Run(owners, EMPTY_DB, before).cases[id].row.status == Closed {
      ClosedStays(Run(owners, EMPTY_DB, before).cases[id], Run(owners, EMPTY_DB, before + after).cases[id]);
    }
  }

  lemma ClosedStays(c: Case, d: Case)
    requires Later(c, d) && c.row.status == Closed
    ensures d.row.status == Closed
  {
  }

  lemma EmptyIsGood(now: int)
    ensures GoodDb(EMPTY_DB, now)
  {
  }

  lemma OrderSplit(start: int, before: seq<Event>, after: seq<Event>)
    requires InOrder(start, before + after)
    ensures InOrder(start, before) && InOrder(EndOf(start, before), after)
  {
    var all := before + after;
    assert forall i | 0 <= i < |before| :: before[i] == all[i];
    assert forall i | 0 <= i < |after| :: after[i] == all[|before| + i];
  }
}
