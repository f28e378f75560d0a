/**
 What each operation leaves in the table, row by row, said in the terms of the statements themselves: statuses, words,
 times and owners, and not the predicates the operations are written with.
 */
module Outcomes {
  import opened Common
  import opened Incidents
  import opened IncidentLaws
  import Burst

  // ---------- words

  /** Exactly these spellings are known, in any case and with white space around them. */
  lemma Words(v: string)
    ensures NormalizeStatus(v) == Some(New) <==> Folded(v) == "new"
    ensures NormalizeStatus(v) == Some(Acknowledged) <==> Folded(v) == "acknowledged"
    ensures NormalizeStatus(v) == Some(InProgress) <==> Folded(v) == "in_progress"
    ensures NormalizeStatus(v) == Some(Resolved) <==> Folded(v) == "resolved"
    ensures NormalizeStatus(v) == Some(Closed) <==> Folded(v) == "closed"
    ensures NormalizeSeverity(v) == Some(Critical) <==> Folded(v) == "critical"
    ensures NormalizeSeverity(v) == Some(Warning) <==> Folded(v) == "warning" || Blank(v)
    ensures NormalizeSeverity(v) == Some(Info) <==> Folded(v) == "info"
    ensures NormalizeSource(v) == Some(Polling) <==> Folded(v) == "polling"
    ensures NormalizeSource(v) == Some(Trap) <==> Folded(v) == "trap"
    ensures NormalizeSource(v) == Some(Manual) <==> Folded(v) == "manual" || Blank(v)
  {
    assert Folded(v) == "" <==> Blank(v);
    hide TrimSpace, ToLower;
  }

  lemma {:induction false} OnlyBlanks(s: string)
    ensures TrimBlanks(s) == "" <==> forall c | c in s :: c == ' '
    decreases |s|
  {
    if s != "" && s[0] == ' ' {
      OnlyBlanks(s[1..]);
      assert forall c :: c in s <==> c == s[0] || c in s[1..];
    } else if s != "" && s[|s| - 1] == ' ' {
      OnlyBlanks(s[..|s| - 1]);
      assert s[0] in s && s[..|s| - 1][0] == s[0] && s[..|s| - 1][0] in s[..|s| - 1];
    } else if s != "" {
      assert s[0] in s;
    }
  }

  // ---------- who and why, in an audit row

  function By(changedBy: string, otherwise: string): string {
    if TrimSpace(changedBy) == "" then otherwise else TrimSpace(changedBy)
  }

  // ---------- escalation

  /** The age of a `new` incident, its filters and its owner make one statement of a policy reach it. */
  predicate Reached(row: Incident, p: Policy, now: int) {
    && row.status == New
    && now - row.createdAt >= p.olderThan
    && (p.severity == "" || (!Blank(p.severity) && NormalizeSeverity(p.severity) == Some(row.severity)))
    && (p.source == "" || (!Blank(p.source) && NormalizeSource(p.source) == Some(row.source)))
    && row.assignee != Some(TrimSpace(p.target))
    && (p.onlyIfUnassigned ==> row.assignee.None? || forall c | c in row.assignee.value :: c == ' ')
  }

  lemma SeverityNames(a: Severity, b: Severity)
    ensures !Blank(SeverityName(a)) && (SeverityName(a) == SeverityName(b) ==> a == b)
  {
    LowerWord(SeverityName(a));
    hide Blank, Folded;
  }

  lemma SourceNames(a: Source, b: Source)
    ensures !Blank(SourceName(a)) && (SourceName(a) == SourceName(b) ==> a == b)
  {
    LowerWord(SourceName(a));
    hide Blank, Folded;
  }

  /** A filter word that is blank but not empty matches no incident; the others match their own. */
  lemma SeverityWord(word: string, sv: Severity)
    requires SeverityFilter(word).Some?
    ensures SeverityFilter(word).value == SeverityName(sv) <==> !Blank(word) && NormalizeSeverity(word) == Some(sv)
    ensures SeverityFilter(word).value == "" <==> word == ""
  {
    assert Blank("");
    hide Blank, NormalizeSeverity, SeverityName;
    SeverityNames(sv, if NormalizeSeverity(word).Some? then NormalizeSeverity(word).value else sv);
    SeverityNames(if NormalizeSeverity(word).Some? then NormalizeSeverity(word).value else sv, sv);
  }

  lemma SourceWord(word: string, src: Source)
    requires SourceFilter(word).Some?
    ensures SourceFilter(word).value == SourceName(src) <==> !Blank(word) && NormalizeSource(word) == Some(src)
    ensures SourceFilter(word).value == "" <==> word == ""
  {
    assert Blank("");
    hide Blank, NormalizeSource, SourceName;
    SourceNames(src, if NormalizeSource(word).Some? then NormalizeSource(word).value else src);
    SourceNames(if NormalizeSource(word).Some? then NormalizeSource(word).value else src, src);
  }

  /**
   One escalation statement: it changes exactly the incidents it reaches. Each gets the trimmed target as its owner
   and one audit row; a younger incident, or one whose status, severity, source or owner does not fit, stays as it is.
   */
  lemma EscalationOutcome(db: Db, p: Policy, changedBy: string, now: int, id: nat)
    requires id in db.cases && p.olderThan > 0 && !Blank(p.target)
    requires Blank(p.severity) || NormalizeSeverity(p.severity).Some?
    requires Blank(p.source) || NormalizeSource(p.source).Some?
    ensures var (db', reply) := Escalate(db, p, changedBy, now);
            var c := db.cases[id];
            && reply == Done && db'.cases.Keys == db.cases.Keys && db'.nextId == db.nextId
            && (db'.cases[id].row != c.row <==> Reached(c.row, p, now))
            && db'.cases[id] == if Reached(c.row, p, now) then
                 Case(c.row.(assignee := Some(TrimSpace(p.target)), updatedAt := now),
                      c.trail + [AuditRow(id, New, New, By(changedBy, "system-escalation"),
                                          By(p.comment, "auto-escalated: ack timeout reached"), now)])
                 else c
  {
    var row := db.cases[id].row;
    assert Runnable(p);
    SeverityWord(p.severity, row.severity);
    SourceWord(p.source, row.source);
    if row.assignee.Some? {
      OnlyBlanks(row.assignee.value);
    }
    hide SeverityFilter, SourceFilter, NormalizeSeverity, NormalizeSource, TrimBlanks, TrimSpace, Folded;
  }

  /** Without a timeout or a target there is nothing to do, and an unknown filter word is refused. */
  lemma EscalationDoesNothing(db: Db, p: Policy, changedBy: string, now: int)
    requires p.olderThan <= 0 || Blank(p.target)
             || (!Blank(p.severity) && NormalizeSeverity(p.severity).None?)
             || (!Blank(p.source) && NormalizeSource(p.source).None?)
    ensures Escalate(db, p, changedBy, now) == (db, if p.olderThan <= 0 || Blank(p.target) then Done else Refused)
  {
  }

  // ---------- bulk resolve

  /** The resolved form of an incident that was not resolved or closed yet: one audit row, whatever its status was. */
  function ResolvedCase(id: nat, c: Case, changedBy: string, comment: string, now: int): Case {
    Case(c.row.(status := Resolved, updatedAt := now, resolvedAt := Some(now)),
         c.trail + [AuditRow(id, c.row.status, Resolved, By(changedBy, "system"), By(comment, "auto-resolved"), now)])
  }

  predicate Unresolved(row: Incident) {
    row.status == New || row.status == Acknowledged || row.status == InProgress
  }

  /** The resolve by source: every unresolved incident of the device and source is resolved, no other changes. */
  lemma SourceResolveOutcome(db: Db, device: int, source: string, changedBy: string, comment: string, now: int, id: nat)
    requires id in db.cases && device > 0 && NormalizeSource(source).Some?
    ensures var (db', reply) := ResolveBySource(db, device, source, changedBy, comment, now);
            var c := db.cases[id];
            var named := c.row.device == Some(device) && NormalizeSource(source) == Some(c.row.source);
            && reply == Done && db'.cases.Keys == db.cases.Keys && db'.nextId == db.nextId
            && (named ==> Rank(db'.cases[id].row.status) >= Rank(Resolved))
            && db'.cases[id] == if named && Unresolved(c.row) then ResolvedCase(id, c, changedBy, comment, now) else c
  {
    hide NormalizeSource, TrimSpace;
  }

  lemma SourceResolveDoesNothing(db: Db, device: int, source: string, changedBy: string, comment: string, now: int)
    requires device <= 0 || NormalizeSource(source).None?
    ensures ResolveBySource(db, device, source, changedBy, comment, now) == (db, if device <= 0 then Done else Refused)
  {
  }

  /** The resolve of traps: the same for the trap incidents of the device under one of the titles. */
  lemma TrapResolveOutcome(db: Db, device: Option<int>, titles: seq<string>, changedBy: string, comment: string,
                           now: int, id: nat)
    requires id in db.cases
    ensures var db' := ResolveTraps(db, device, titles, changedBy, comment, now);
            var c := db.cases[id];
            var named := && device.Some? && c.row.source == Trap && c.row.device == device
                         && exists t :: t in titles && TrimSpace(t) != "" && TrimSpace(t) == c.row.title;
            && db'.cases.Keys == db.cases.Keys && db'.nextId == db.nextId
            && (named ==> Rank(db'.cases[id].row.status) >= Rank(Resolved))
            && db'.cases[id] == if named && Unresolved(c.row) then ResolvedCase(id, c, changedBy, comment, now) else c
  {
    hide TrimSpace;
  }

  // ---------- create-or-touch

  /** An unsettled incident of the key that was written at `since` or later. */
  predicate Fresh(row: Incident, key: MatchKey, since: int) {
    Burst.Unsettled(row, key) && since <= row.updatedAt
  }

  /** The window in nanoseconds: whole seconds only, at least one of them, ten minutes if none is configured. */
  function Window(window: int): int {
    var w := if window <= 0 then 600_000_000_000 else window;
    if w < 1_000_000_000 then 1_000_000_000 else w - w % 1_000_000_000
  }

  lemma WindowIs(window: int)
    ensures WindowSeconds(window) * SECOND == Window(window)
  {
  }

  /**
   A trigger under a key inserts exactly if there is no fresh incident of it. Otherwise it writes the new details and
   the time to one fresh incident, the last written of them, and leaves its audit trail and all others alone.
   */
  lemma TouchOutcome(db: Db, key: MatchKey, severity: Severity, assignee: Option<string>, details: string, window: int,
                     hint: nat, now: int) returns (id: nat)
    requires db.nextId !in db.cases
    ensures var (db', created) := TouchOrInsert(db, key, severity, assignee, details, WindowSeconds(window), hint, now);
            var since := now - Window(window);
            && (created <==> !exists i :: i in db.cases && Fresh(db.cases[i].row, key, since))
            && (created ==> id == db.nextId && db'.nextId == db.nextId + 1)
            && (!created ==>
                  && id in db.cases && Fresh(db.cases[id].row, key, since) && db'.nextId == db.nextId
                  && (forall i | i in db.cases && Fresh(db.cases[i].row, key, since) ::
                        db.cases[i].row.updatedAt <= db.cases[id].row.updatedAt))
            && db'.cases == db.cases[id := if created then
                 Case(Incident(key.device, assignee, key.title, severity, New, key.source, details, now, now, None,
                               None, None), [])
                 else Case(db.cases[id].row.(details := details, updatedAt := now), db.cases[id].trail)]
  {
    WindowIs(window);
    var since := now - Window(window);
    assert forall i | i in db.cases :: Fresh(db.cases[i].row, key, since) <==> Candidate(db, i, key, since);
    var found := Chosen(db, key, since, hint);
    id := if found.Some? then found.value else db.nextId;
    hide WindowSeconds, Window, Fresh, Matches, Burst.Unsettled;
  }

  /** The owner a new incident gets: the configured one for critical, else for its source, else the general one. */
  function FirstOwner(owners: Owners, source: Source, severity: Severity): Option<string> {
    if severity == Critical && TrimSpace(owners.critical) != "" then Some(TrimSpace(owners.critical))
    else if source == Trap && TrimSpace(owners.trap) != "" then Some(TrimSpace(owners.trap))
    else if source == Polling && TrimSpace(owners.polling) != "" then Some(TrimSpace(owners.polling))
    else if source == Manual && TrimSpace(owners.manual) != "" then Some(TrimSpace(owners.manual))
    else if TrimSpace(owners.fallback) != "" then Some(TrimSpace(owners.fallback))
    else None
  }

  lemma FirstOwnerIs(owners: Owners, source: Source, severity: Severity)
    ensures DefaultAssignee(owners, source, severity) == FirstOwner(owners, source, severity)
  {
    hide TrimSpace;
  }

  function PositiveOnly(device: Option<int>): Option<int> {
    match device case Some(d) => if d > 0 then Some(d) else None case None => None
  }

  /** The call from outside: refused for a blank title or an unknown word, else a trigger for what it names. */
  lemma TriggerOutcome(db: Db, owners: Owners, device: Option<int>, title: string, severity: string, source: string,
                       details: string, window: int, hint: nat, now: int)
    ensures var (db', reply, created) :=
              CreateOrTouch(db, owners, device, title, severity, source, details, window, hint, now);
            var sv, src := NormalizeSeverity(severity), NormalizeSource(source);
            && (reply == Done <==> TrimSpace(title) != "" && sv.Some? && src.Some?)
            && (reply != Done ==> (db', reply, created) == (db, Refused, false))
            && (reply == Done ==>
                  (db', created) == TouchOrInsert(
                    db, MatchKey(src.value, TrimSpace(title), Some(sv.value), PositiveOnly(device)), sv.value,
                    FirstOwner(owners, src.value, sv.value), if details == "" then "{}" else details,
                    WindowSeconds(window), hint, now))
  {
    hide TrimSpace, NormalizeSeverity, NormalizeSource, TouchOrInsert, WindowSeconds, DefaultAssignee, FirstOwner;
    if NormalizeSeverity(severity).Some? && NormalizeSource(source).Some? {
      FirstOwnerIs(owners, NormalizeSource(source).value, NormalizeSeverity(severity).value);
    }
  }

  /** Creating from outside: the new row, field by field. */
  lemma CreateOutcome(db: Db, owners: Owners, device: Option<int>, title: string, severity: string, source: string,
                      assignee: Option<string>, details: string, now: int)
    ensures var (db', reply) := Create(db, owners, device, title, severity, source, assignee, details, now);
            var sv, src := NormalizeSeverity(severity), NormalizeSource(source);
            && (reply == Done <==> TrimSpace(title) != "" && sv.Some? && src.Some?)
            && (reply != Done ==> (db', reply) == (db, Refused))
            && (reply == Done ==>
                  var asked := if assignee.Some? then TrimSpace(assignee.value) else "";
                  var owner := if asked != "" then Some(asked) else FirstOwner(owners, src.value, sv.value);
                  db' == Db(db.cases[db.nextId :=
                    Case(Incident(PositiveOnly(device), owner, TrimSpace(title), sv.value, New, src.value,
                                  if details == "" then "{}" else details, now, now, None, None, None), [])],
                            db.nextId + 1))
  {
    hide TrimSpace, NormalizeSeverity, NormalizeSource, DefaultAssignee, FirstOwner;
    if NormalizeSeverity(severity).Some? && NormalizeSource(source).Some? {
      FirstOwnerIs(owners, NormalizeSource(source).value, NormalizeSeverity(severity).value);
    }
  }

  // ---------- assignment and transition

  /** An assignment stores the trimmed name, or clears the owner for a blank one, and writes one audit row. */
  lemma AssignOutcome(db: Db, id: int, assignee: string, changedBy: string, comment: string, now: int)
    ensures var (db', reply) := Assign(db, id, assignee, changedBy, comment, now);
            var name := TrimSpace(assignee);
            && reply == (if id <= 0 then Refused else if id in db.cases then Done else NotFound)
            && (reply != Done ==> db' == db)
            && (reply == Done ==>
                  var c := db.cases[id];
                  && db'.nextId == db.nextId
                  && db'.cases == db.cases[id := Case(
                       c.row.(assignee := if name == "" then None else Some(name), updatedAt := now),
                       c.trail + [AuditRow(id, c.row.status, c.row.status, By(changedBy, "system"),
                                           By(comment, if name == "" then "assignee cleared"
                                                       else "assigned to " + name), now)])])
  {
    hide TrimSpace;
  }

  /** A walk adds one audit row for each of its steps and touches nothing but status, stamps and time. */
  lemma {:induction false} WalkOutcome(id: nat, c: Case, path: seq<Status>, changedBy: string, comment: string,
                                       now: int)
    ensures var d := Walk(id, c, path, changedBy, comment, now);
            && |d.trail| == |c.trail| + |path| && c.trail <= d.trail
            && d.row == c.row.(status := if path == [] then c.row.status else path[|path| - 1],
                               updatedAt := if path == [] then c.row.updatedAt else now,
                               acknowledgedAt := d.row.acknowledgedAt, resolvedAt := d.row.resolvedAt,
                               closedAt := d.row.closedAt)
    decreases path
  {
    if path != [] {
      WalkOutcome(id, Move(id, c, path[0], changedBy, comment, now), path[1..], changedBy, comment, now);
    }
  }

  /** The row of its step `k`: by the same person, with the same comment, at the same time. */
  lemma {:induction false} WalkRow(id: nat, c: Case, path: seq<Status>, changedBy: string, comment: string, now: int,
                                   k: nat)
    requires k < |path|
    ensures |Walk(id, c, path, changedBy, comment, now).trail| == |c.trail| + |path|
    ensures Walk(id, c, path, changedBy, comment, now).trail[|c.trail| + k]
         == AuditRow(id, if k == 0 then c.row.status else path[k - 1], path[k], changedBy, comment, now)
    decreases path
  {
    var next := Move(id, c, path[0], changedBy, comment, now);
    WalkOutcome(id, c, path, changedBy, comment, now);
    WalkOutcome(id, next, path[1..], changedBy, comment, now);
    if k > 0 {
      WalkRow(id, next, path[1..], changedBy, comment, now, k - 1);
    }
  }

  /**
   `d` is `c` after climbing every status up to `to`: the rows it adds name each of them in turn, with one author and
   comment, and nothing but status, stamps and time differs.
   */
  predicate Climbed(id: nat, c: Case, d: Case, to: Status, actor: string, note: string, now: int) {
    var from, target := Rank(c.row.status), Rank(to);
    && from < target && |d.trail| == |c.trail| + target - from && c.trail <= d.trail
    && (forall k | from < k <= target ::
          d.trail[|c.trail| + k - from - 1]
          == AuditRow(id, STATUS_ORDER[k - 1], STATUS_ORDER[k], actor, note, now))
    && d.row.status == to && d.row.updatedAt == now
    && d.row == c.row.(status := to, updatedAt := now, acknowledgedAt := d.row.acknowledgedAt,
                       resolvedAt := d.row.resolvedAt, closedAt := d.row.closedAt)
  }

  /** A transition that succeeds climbs to its target and leaves every other incident alone. */
  lemma TransitionOutcome(db: Db, id: int, to: string, changedBy: string, comment: string, now: int)
    requires Transition(db, id, to, changedBy, comment, now).1 == Done
    ensures id in db.cases && NormalizeStatus(to).Some?
    ensures var db' := Transition(db, id, to, changedBy, comment, now).0;
            && db'.cases.Keys == db.cases.Keys && db'.nextId == db.nextId
            && (forall i | i in db.cases && i != id :: db'.cases[i] == db.cases[i])
            && Climbed(id, db.cases[id], db'.cases[id], NormalizeStatus(to).value, By(changedBy, "system"),
                       TrimSpace(comment), now)
  {
    DoneMeans(db, id, to, changedBy, comment, now);
    assert Actor(changedBy, "system") == By(changedBy, "system");
    hide *;
    ClimbOutcome(id, db.cases[id], NormalizeStatus(to).value, By(changedBy, "system"), TrimSpace(comment), now);
  }

  lemma PathIs(from: Status, to: Status)
    requires Rank(from) < Rank(to)
    ensures var path := Path(from, to);
            && |path| == Rank(to) - Rank(from) && Rank(to) < |STATUS_ORDER| && path[|path| - 1] == to
            && STATUS_ORDER[Rank(from)] == from
            && forall j | 0 <= j < |path| :: path[j] == STATUS_ORDER[Rank(from) + 1 + j]
  {
  }

  lemma ClimbOutcome(id: nat, c: Case, to: Status, actor: string, note: string, now: int)
    requires Rank(c.row.status) < Rank(to)
    ensures Climbed(id, c, Walk(id, c, Path(c.row.status, to), actor, note, now), to, actor, note, now)
  {
    var path := Path(c.row.status, to);
    var from, target := Rank(c.row.status), Rank(to);
    PathIs(c.row.status, to);
    hide STATUS_ORDER, Path, Rank, Walk;
    WalkOutcome(id, c, path, actor, note, now);
    var d := Walk(id, c, path, actor, note, now);
    forall k | from < k <= target
      ensures d.trail[|c.trail| + k - from - 1] == AuditRow(id, STATUS_ORDER[k - 1], STATUS_ORDER[k], actor, note, now)
    {
      var j := k - from - 1;
      WalkRow(id, c, path, actor, note, now, j);
      assert path[j] == STATUS_ORDER[k] && (j > 0 ==> path[j - 1] == STATUS_ORDER[k - 1]);
    }
  }

  /** An accepted inbound update writes one audit row for a changed status, then one for a changed owner. */
  lemma ItsmOutcome(db: Db, id: int, to: string, owner: string, changedBy: string, comment: string, now: int)
    requires ItsmUpdate(db, id, to, owner, changedBy, comment, now).1 == Done
    ensures id in db.cases && (!Blank(to) ==> NormalizeStatus(to).Some?)
    ensures var db' := ItsmUpdate(db, id, to, owner, changedBy, comment, now).0;
            var c, d, name := db.cases[id], db'.cases[id], TrimSpace(owner);
            var status := if Blank(to) then c.row.status else NormalizeStatus(to).value;
            var moved, reowned := status != c.row.status, name != OwnerText(c.row);
            && db'.cases == db.cases[id := d] && db'.nextId == db.nextId
            && d.trail == c.trail
               + (if moved then [AuditRow(id, c.row.status, status, By(changedBy, "system"), TrimSpace(comment), now)]
                  else [])
               + (if reowned then
                    [AuditRow(id, status, status, By(changedBy, "system"),
                              By(comment, if name == "" then "assignee cleared" else "assigned to " + name), now)]
                  else [])
            && d.row.status == status
            && d.row.assignee == (if !reowned then c.row.assignee else if name == "" then None else Some(name))
            && d.row.updatedAt == (if moved || reowned then now else c.row.updatedAt)
            && d.row.details == c.row.details
  {
    hide TrimSpace, NormalizeStatus;
  }
}
