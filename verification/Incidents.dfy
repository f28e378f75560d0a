/**
 The incident table and its audit table, and every write the services make to them.

 The audit table is kept per incident, in the order of its serial ids: a `Case` is an incident
 row with its own audit rows. Every function here gives the whole table after one committed
 transaction; `now` is the transaction's NOW(), in nanoseconds.
 */
module Incidents {
  import opened Common

  // ---------- enumerations and their normalizers

  datatype Status = New | Acknowledged | InProgress | Resolved | Closed
  datatype Severity = Critical | Warning | Info
  datatype Source = Polling | Trap | Manual

  const STATUS_ORDER: seq<Status> := [New, Acknowledged, InProgress, Resolved, Closed]

  function Rank(s: Status): (r: nat)
    ensures r < |STATUS_ORDER| && STATUS_ORDER[r] == s
  {
    match s
    case New => 0
    case Acknowledged => 1
    case InProgress => 2
    case Resolved => 3
    case Closed => 4
  }

  function StatusName(s: Status): string {
    match s
    case New => "new"
    case Acknowledged => "acknowledged"
    case InProgress => "in_progress"
    case Resolved => "resolved"
    case Closed => "closed"
  }

  function SeverityName(s: Severity): string {
    match s
    case Critical => "critical"
    case Warning => "warning"
    case Info => "info"
  }

  function SourceName(s: Source): string {
    match s
    case Polling => "polling"
    case Trap => "trap"
    case Manual => "manual"
  }

  function NormalizeStatus(v: string): Option<Status> {
    var w := Folded(v);
    if w == "new" then Some(New)
    else if w == "acknowledged" then Some(Acknowledged)
    else if w == "in_progress" then Some(InProgress)
    else if w == "resolved" then Some(Resolved)
    else if w == "closed" then Some(Closed)
    else None
  }

  function NormalizeSeverity(v: string): Option<Severity> {
    var w := Folded(v);
    if w == "critical" then Some(Critical)
    else if w == "info" then Some(Info)
    else if w == "" || w == "warning" then Some(Warning)
    else None
  }

  function NormalizeSource(v: string): Option<Source> {
    var w := Folded(v);
    if w == "polling" then Some(Polling)
    else if w == "trap" then Some(Trap)
    else if w == "" || w == "manual" then Some(Manual)
    else None
  }

  predicate IsOpen(s: Status) {
    s == New || s == Acknowledged || s == InProgress
  }

  /** The table of transitions that a caller may ask for one at a time. */
  predicate Allowed(from: Status, to: Status) {
    || (from == New && to == Acknowledged)
    || (from == Acknowledged && (to == InProgress || to == Resolved))
    || (from == InProgress && to == Resolved)
    || (from == Resolved && to == Closed)
  }

  /** The statuses a multi-step transition visits, the target last; empty when it may not start. */
  function Path(from: Status, to: Status): seq<Status> {
    if Rank(from) < Rank(to) then STATUS_ORDER[Rank(from) + 1..Rank(to) + 1] else []
  }

  // ---------- rows

  datatype Incident = Incident(
    device: Option<int>,
    assignee: Option<string>,
    title: string,
    severity: Severity,
    status: Status,
    source: Source,
    details: string,
    createdAt: int,
    updatedAt: int,
    acknowledgedAt: Option<int>,
    resolvedAt: Option<int>,
    closedAt: Option<int>)

  datatype AuditRow = AuditRow(
    incidentId: nat, from: Status, to: Status, changedBy: string, comment: string, changedAt: int)

  datatype Case = Case(row: Incident, trail: seq<AuditRow>)

  datatype Db = Db(cases: map<nat, Case>, nextId: nat)

  const EMPTY_DB := Db(map[], 1)

  /** Default owners from the environment; an empty string is an unset variable. */
  datatype Owners = Owners(critical: string, trap: string, polling: string, manual: string, fallback: string)

  // ---------- statements on one row

  function WithStatus(row: Incident, to: Status, now: int): Incident {
    row.(status := to,
         updatedAt := now,
         acknowledgedAt := if to == Acknowledged && row.acknowledgedAt.None? then Some(now) else row.acknowledgedAt,
         resolvedAt := if to == Resolved then Some(now) else row.resolvedAt,
         closedAt := if to == Closed then Some(now) else row.closedAt)
  }

  function WithAssignee(row: Incident, assignee: Option<string>, now: int): Incident {
    row.(assignee := assignee, updatedAt := now)
  }

  function WithDetails(row: Incident, details: string, now: int): Incident {
    row.(details := details, updatedAt := now)
  }

  function NewRow(device: Option<int>, assignee: Option<string>, title: string, severity: Severity,
                  source: Source, details: string, now: int): Incident
  {
    Incident(device, assignee, title, severity, New, source, details, now, now, None, None, None)
  }

  // ---------- writes on one case: a row update together with its audit row

  function Move(id: nat, c: Case, to: Status, changedBy: string, comment: string, now: int): Case {
    Case(WithStatus(c.row, to, now),
         c.trail + [AuditRow(id, c.row.status, to, changedBy, comment, now)])
  }

  function Reassign(id: nat, c: Case, assignee: Option<string>, changedBy: string, comment: string, now: int): Case {
    Case(WithAssignee(c.row, assignee, now),
         c.trail + [AuditRow(id, c.row.status, c.row.status, changedBy, comment, now)])
  }

  function Walk(id: nat, c: Case, path: seq<Status>, changedBy: string, comment: string, now: int): Case
    decreases path
  {
    if path == [] then c
    else Walk(id, Move(id, c, path[0], changedBy, comment, now), path[1..], changedBy, comment, now)
  }

  // ---------- transactions

  /** What a caller is told: done, no such incident, or refused with the table untouched. */
  datatype Reply = Done | NotFound | Refused

  function Actor(changedBy: string, fallback: string): string {
    if Blank(changedBy) then fallback else TrimSpace(changedBy)
  }

  function Note(comment: string, fallback: string): string {
    if Blank(comment) then fallback else TrimSpace(comment)
  }

  function Owner(assignee: string): Option<string> {
    if Blank(assignee) then None else Some(TrimSpace(assignee))
  }

  function AssignNote(comment: string, target: Option<string>): string {
    Note(comment, if target.Some? then "assigned to " + target.value else "assignee cleared")
  }

  function KnownDevice(device: Option<int>): Option<int> {
    if device.Some? && device.value > 0 then device else None
  }

  function OrEmptyObject(details: string): string {
    if details == "" then "{}" else details
  }

  function DefaultAssignee(owners: Owners, source: Source, severity: Severity): Option<string> {
    if severity == Critical && !Blank(owners.critical) then Owner(owners.critical)
    else
      var bySource := match source
        case Trap => owners.trap
        case Polling => owners.polling
        case Manual => owners.manual;
      if !Blank(bySource) then Owner(bySource) else Owner(owners.fallback)
  }

  function Insert(db: Db, row: Incident): Db {
    Db(db.cases[db.nextId := Case(row, [])], db.nextId + 1)
  }

  function Create(db: Db, owners: Owners, device: Option<int>, title: string, severity: string, source: string,
                  assignee: Option<string>, details: string, now: int): (Db, Reply)
  {
    var sv, src := NormalizeSeverity(severity), NormalizeSource(source);
    if Blank(title) || sv.None? || src.None? then (db, Refused)
    else
      var owner := if assignee.None? || Blank(assignee.value) then DefaultAssignee(owners, src.value, sv.value)
                   else Owner(assignee.value);
      (Insert(db, NewRow(KnownDevice(device), owner, TrimSpace(title), sv.value, src.value,
                         OrEmptyObject(details), now)), Done)
  }

  function Transition(db: Db, id: int, to: string, changedBy: string, comment: string, now: int): (Db, Reply) {
    var target := NormalizeStatus(to);
    if id <= 0 || target.None? then (db, Refused)
    else if id !in db.cases then (db, NotFound)
    else
      var c := db.cases[id];
      var path := Path(c.row.status, target.value);
      if path == [] then (db, Refused)
      else
        var c' := Walk(id, c, path, Actor(changedBy, "system"), TrimSpace(comment), now);
        (db.(cases := db.cases[id := c']), Done)
  }

  function Assign(db: Db, id: int, assignee: string, changedBy: string, comment: string, now: int): (Db, Reply) {
    if id <= 0 then (db, Refused)
    else if id !in db.cases then (db, NotFound)
    else
      var target := Owner(assignee);
      var c' := Reassign(id, db.cases[id], target, Actor(changedBy, "system"), AssignNote(comment, target), now);
      (db.(cases := db.cases[id := c']), Done)
  }

  /** The requested status, when it differs, must be one allowed step away; the assignee is always overwritten. */
  function ItsmUpdate(db: Db, id: int, to: string, assignee: string, changedBy: string, comment: string, now: int)
    : (Db, Reply)
  {
    var target := NormalizeStatus(to);
    if id <= 0 || (!Blank(to) && target.None?) then (db, Refused)
    else if id !in db.cases then (db, NotFound)
    else
      var c := db.cases[id];
      var actor := Actor(changedBy, "system");
      var moves := !Blank(to) && target.value != c.row.status;
      if moves && !Allowed(c.row.status, target.value) then (db, Refused)
      else
        var c1 := if moves then Move(id, c, target.value, actor, TrimSpace(comment), now) else c;
        var owner := Owner(assignee);
        var current := if c.row.assignee.Some? then TrimSpace(c.row.assignee.value) else "";
        var c2 := if TrimSpace(assignee) != current then Reassign(id, c1, owner, actor, AssignNote(comment, owner), now)
                  else c1;
        (db.(cases := db.cases[id := c2]), Done)
  }

  // ---------- create-or-touch

  /** What makes two triggers the same problem. Traps are matched whatever their severity. */
  datatype MatchKey = MatchKey(source: Source, title: string, severity: Option<Severity>, device: Option<int>)

  predicate Matches(row: Incident, key: MatchKey) {
    && IsOpen(row.status)
    && row.source == key.source
    && row.title == key.title
    && (key.severity.Some? ==> row.severity == key.severity.value)
    && row.device == key.device
  }

  const SECOND: int := 1_000_000_000
  const TEN_MINUTES: int := 600 * SECOND

  /** The suppression window in whole seconds, at least one. */
  function WindowSeconds(window: int): (s: int)
    ensures s >= 1
  {
    var w := if window <= 0 then TEN_MINUTES else window;
    if w / SECOND < 1 then 1 else w / SECOND
  }

  predicate Candidate(db: Db, id: nat, key: MatchKey, since: int) {
    id in db.cases && Matches(db.cases[id].row, key) && since <= db.cases[id].row.updatedAt
  }

  predicate LatestCandidate(db: Db, id: nat, key: MatchKey, since: int) {
    && Candidate(db, id, key, since)
    && forall other | other in db.cases && Candidate(db, other, key, since) ::
         db.cases[other].row.updatedAt <= db.cases[id].row.updatedAt
  }

  /** Among some rows, one was updated last. */
  lemma {:induction false} LatestExists(db: Db, ids: set<nat>) returns (id: nat)
    requires ids != {}
    requires ids <= db.cases.Keys
    ensures id in ids
    ensures forall i | i in ids :: db.cases[i].row.updatedAt <= db.cases[id].row.updatedAt
    decreases |ids|
  {
    id :| id in ids;
    if ids != {id} {
      var other := LatestExists(db, ids - {id});
      if db.cases[id].row.updatedAt < db.cases[other].row.updatedAt {
        id := other;
      }
    }
  }

  /**
   The incident a trigger touches: one with the greatest `updated_at`. The database breaks ties as it
   likes; `hint` is the one it picks, so every tie-break is some hint.
   */
  ghost function Chosen(db: Db, key: MatchKey, since: int, hint: nat): (r: Option<nat>)
    ensures r.Some? ==> LatestCandidate(db, r.value, key, since)
    ensures r.None? ==> forall id | id in db.cases :: !Candidate(db, id, key, since)
    ensures LatestCandidate(db, hint, key, since) ==> r == Some(hint)
  {
    var ids := set id | id in db.cases && Candidate(db, id, key, since);
    if ids == {} then
      assert forall id | id in db.cases && Candidate(db, id, key, since) :: id in ids;
      None
    else
      var latest := LatestOf(db, ids);
      if LatestCandidate(db, hint, key, since) then Some(hint) else Some(latest)
  }

  ghost function LatestOf(db: Db, ids: set<nat>): (id: nat)
    requires ids != {}
    requires ids <= db.cases.Keys
    ensures id in ids
    ensures forall i | i in ids :: db.cases[i].row.updatedAt <= db.cases[id].row.updatedAt
  {
    assert exists id :: id in ids && forall i | i in ids :: db.cases[i].row.updatedAt <= db.cases[id].row.updatedAt by {
      var id := LatestExists(db, ids);
    }
    var id :| id in ids && forall i | i in ids :: db.cases[i].row.updatedAt <= db.cases[id].row.updatedAt;
    id
  }

  ghost function TouchOrInsert(db: Db, key: MatchKey, severity: Severity, assignee: Option<string>, details: string,
                               windowSeconds: int, hint: nat, now: int): (Db, bool)
  {
    match Chosen(db, key, now - windowSeconds * SECOND, hint)
    case Some(id) =>
      var c := db.cases[id];
      (db.(cases := db.cases[id := c.(row := WithDetails(c.row, details, now))]), false)
    case None =>
      (Insert(db, NewRow(key.device, assignee, key.title, severity, key.source, details, now)), true)
  }

  function TriggerKey(device: Option<int>, title: string, severity: Severity, source: Source): MatchKey {
    MatchKey(source, TrimSpace(title), Some(severity), KnownDevice(device))
  }

  ghost function CreateOrTouch(db: Db, owners: Owners, device: Option<int>, title: string, severity: string,
                               source: string, details: string, window: int, hint: nat, now: int): (Db, Reply, bool)
  {
    var sv, src := NormalizeSeverity(severity), NormalizeSource(source);
    if Blank(title) || sv.None? || src.None? then (db, Refused, false)
    else
      var (db', created) := TouchOrInsert(
        db, TriggerKey(device, title, sv.value, src.value), sv.value, DefaultAssignee(owners, src.value, sv.value),
        OrEmptyObject(details), WindowSeconds(window), hint, now);
      (db', Done, created)
  }

  // ---------- bulk statements

  function AutoResolve(id: nat, c: Case, changedBy: string, comment: string, now: int): Case {
    Move(id, c, Resolved, changedBy, comment, now)
  }

  predicate OpenOfSource(row: Incident, device: int, source: Source) {
    row.device == Some(device) && row.source == source && IsOpen(row.status)
  }

  function ResolveBySource(db: Db, device: int, source: string, changedBy: string, comment: string, now: int)
    : (Db, Reply)
  {
    var src := NormalizeSource(source);
    if device <= 0 then (db, Done)
    else if src.None? then (db, Refused)
    else
      (db.(cases := map id | id in db.cases ::
             if OpenOfSource(db.cases[id].row, device, src.value)
             then AutoResolve(id, db.cases[id], Actor(changedBy, "system"), Note(comment, "auto-resolved"), now)
             else db.cases[id]), Done)
  }

  predicate OpenTrapTitled(row: Incident, device: int, titles: seq<string>) {
    row.source == Trap && row.device == Some(device) && IsOpen(row.status) && Wanted(row.title, titles)
  }

  /** Blank titles are skipped and the others trimmed. */
  predicate Wanted(title: string, titles: seq<string>) {
    exists t :: t in titles && !Blank(t) && TrimSpace(t) == title
  }

  /** Without a device or a title nothing is resolved. */
  function ResolveTraps(db: Db, device: Option<int>, titles: seq<string>, changedBy: string, comment: string, now: int)
    : Db
  {
    if device.None? then db
    else
      db.(cases := map id | id in db.cases ::
            if OpenTrapTitled(db.cases[id].row, device.value, titles)
            then AutoResolve(id, db.cases[id], Actor(changedBy, "system"), Note(comment, "auto-resolved"), now)
            else db.cases[id])
  }

  /** One escalation statement; an empty severity or source filters nothing. */
  datatype Policy = Policy(
    olderThan: int, target: string, severity: string, source: string, onlyIfUnassigned: bool, comment: string)

  /** `btrim`, which removes blanks only. */
  function TrimBlanks(s: string): string
    decreases |s|
  {
    if s != "" && s[0] == ' ' then TrimBlanks(s[1..])
    else if s != "" && s[|s| - 1] == ' ' then TrimBlanks(s[..|s| - 1])
    else s
  }

  predicate Unassigned(row: Incident) {
    row.assignee.None? || TrimBlanks(row.assignee.value) == ""
  }

  /** A filter word as it reaches the statement; None when it is refused. */
  function SeverityFilter(v: string): Option<string> {
    if Blank(v) then Some(v)
    else match NormalizeSeverity(v) case Some(s) => Some(SeverityName(s)) case None => None
  }

  function SourceFilter(v: string): Option<string> {
    if Blank(v) then Some(v)
    else match NormalizeSource(v) case Some(s) => Some(SourceName(s)) case None => None
  }

  predicate Runnable(p: Policy) {
    p.olderThan > 0 && !Blank(p.target) && SeverityFilter(p.severity).Some? && SourceFilter(p.source).Some?
  }

  /** Whether the statement of a runnable policy would look at this row at all, whoever owns it. */
  predicate InScope(row: Incident, p: Policy, now: int)
    requires Runnable(p)
  {
    && row.status == New
    && row.createdAt <= now - p.olderThan
    && (var sv := SeverityFilter(p.severity).value; sv == "" || sv == SeverityName(row.severity))
    && (var src := SourceFilter(p.source).value; src == "" || src == SourceName(row.source))
  }

  predicate Escalates(row: Incident, p: Policy, now: int)
    requires Runnable(p)
  {
    && InScope(row, p, now)
    && row.assignee != Some(TrimSpace(p.target))
    && (p.onlyIfUnassigned ==> Unassigned(row))
  }

  function EscalateCase(id: nat, c: Case, p: Policy, changedBy: string, now: int): Case
    requires Runnable(p)
  {
    if Escalates(c.row, p, now)
    then Reassign(id, c, Some(TrimSpace(p.target)), Actor(changedBy, "system-escalation"),
                  Note(p.comment, "auto-escalated: ack timeout reached"), now)
    else c
  }

  /** Not runnable: either nothing to do or a refused filter; both leave the table alone. */
  function Escalate(db: Db, p: Policy, changedBy: string, now: int): (Db, Reply) {
    if p.olderThan <= 0 || Blank(p.target) then (db, Done)
    else if !Runnable(p) then (db, Refused)
    else (db.(cases := map id | id in db.cases :: EscalateCase(id, db.cases[id], p, changedBy, now)), Done)
  }
}
