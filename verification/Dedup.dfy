/**
 Create-or-touch calls that run at the same time, statement by statement.

 Each call is a transaction with its own NOW(), fixed when it starts: take the advisory lock, try the
 update, insert if nothing matched, commit. Under READ COMMITTED a statement sees committed rows only, so
 what a call has written stays with it until it commits. The lock is held from its statement to the commit.
 */
module Dedup {
  import opened Common
  import opened Incidents
  import Burst
  import Cursor

  /** What a call asks for: `start` is its NOW(), `window` its suppression window in whole seconds. */
  datatype Call = Call(key: MatchKey, severity: Severity, start: int, window: int)

  datatype Phase =
    | Begun
    | Locked
    | Hit(id: nat)      // the update matched this row
    | Missed            // the update matched nothing
    | Inserted          // the new row is written, not yet committed
    | TouchDone(id: nat)
    | InsertDone(id: nat)

  /** `rows` are the committed rows. */
  datatype Sys = Sys(rows: map<nat, Incident>, phases: seq<Phase>, nextId: nat)

  predicate InCritical(p: Phase) {
    p == Locked || p.Hit? || p == Missed || p == Inserted
  }

  /** The text that is hashed into the advisory lock: a function of the match key alone. */
  function LockText(key: MatchKey): string {
    if key.severity.Some? then
      "incident|src=" + Folded(SourceName(key.source)) + "|sev=" + Folded(SeverityName(key.severity.value))
      + "|title=" + TrimSpace(ToLower(key.title)) + DeviceText(key.device)
    else
      "trap-incident|title=" + TrimSpace(ToLower(key.title)) + DeviceText(key.device)
  }

  function DeviceText(device: Option<int>): string {
    match device
    case Some(d) => "|dev_valid=true|dev_id=" + Cursor.PrintInt(d)
    case None => "|dev_valid=false|dev_id=0"
  }

  predicate LockFree(s: Sys, calls: seq<Call>, hash: string -> int, lock: int)
    requires |s.phases| == |calls|
  {
    forall j | 0 <= j < |calls| && InCritical(s.phases[j]) :: hash(LockText(calls[j].key)) != lock
  }

  predicate Visible(row: Incident, c: Call) {
    Matches(row, c.key) && c.start - c.window * SECOND <= row.updatedAt
  }

  predicate RowFree(s: Sys, id: nat) {
    forall j | 0 <= j < |s.phases| :: s.phases[j] != Hit(id)
  }

  function At(s: Sys, i: nat, p: Phase): Sys
    requires i < |s.phases|
  {
    s.(phases := s.phases[i := p])
  }

  datatype Move =
    | Lock(i: nat)
    | Touch(i: nat, id: nat)
    | Miss(i: nat)
    | Insert(i: nat)
    | Commit(i: nat)
    | Others(rows: map<nat, Incident>)

  /**
   What other committed transactions may do in one step without resolving: leave alone every row that a call
   has locked, keep each open match of each call a match, write times that are not before `lo`, and add rows.
   */
  ghost predicate Benign(s: Sys, calls: seq<Call>, rows: map<nat, Incident>, lo: int) {
    && s.rows.Keys <= rows.Keys
    && (forall id | id in rows :: id < s.nextId)
    && (forall id | id in s.rows :: RowFree(s, id) || rows[id] == s.rows[id])
    && (forall id | id in s.rows :: rows[id].updatedAt == s.rows[id].updatedAt || lo <= rows[id].updatedAt)
    && (forall id, i | id in s.rows && 0 <= i < |calls| && Matches(s.rows[id], calls[i].key) ::
          Matches(rows[id], calls[i].key))
  }

  ghost predicate Step(s: Sys, s': Sys, calls: seq<Call>, hash: string -> int, lo: int, m: Move)
    requires |s.phases| == |calls|
  {
    match m
    case Lock(i) =>
      && i < |calls| && s.phases[i] == Begun
      && LockFree(s, calls, hash, hash(LockText(calls[i].key)))
      && s' == At(s, i, Locked)
    case Touch(i, id) =>
      && i < |calls| && s.phases[i] == Locked
      && id in s.rows && Visible(s.rows[id], calls[i]) && RowFree(s, id)
      && (forall other | other in s.rows && Visible(s.rows[other], calls[i]) ::
            s.rows[other].updatedAt <= s.rows[id].updatedAt)
      && s' == At(s, i, Hit(id))
    case Miss(i) =>
      && i < |calls| && s.phases[i] == Locked
      && (forall id | id in s.rows :: !Visible(s.rows[id], calls[i]))
      && s' == At(s, i, Missed)
    case Insert(i) =>
      && i < |calls| && s.phases[i] == Missed && s' == At(s, i, Inserted)
    case Commit(i) =>
      && i < |calls|
      && (match s.phases[i]
         case Hit(id) => id in s.rows &&
           s' == At(s.(rows := s.rows[id := s.rows[id].(updatedAt := calls[i].start)]), i, TouchDone(id))
         case Inserted =>
           var c := calls[i];
           s' == At(Sys(s.rows[s.nextId := NewRow(c.key.device, None, c.key.title, c.severity, c.key.source, "",
                                                  c.start)], s.phases, s.nextId + 1), i, InsertDone(s.nextId))
         case _ => false)
    case Others(rows) =>
      Benign(s, calls, rows, lo) && s' == s.(rows := rows)
  }

  ghost predicate Start(s: Sys, calls: seq<Call>) {
    && |s.phases| == |calls|
    && (forall i | 0 <= i < |calls| :: s.phases[i] == Begun)
    && (forall id | id in s.rows :: id < s.nextId)
  }

  /** A run: states joined by moves. */
  ghost predicate IsRun(run: seq<Sys>, moves: seq<Move>, calls: seq<Call>, hash: string -> int, lo: int) {
    && |run| == |moves| + 1 && Start(run[0], calls)
    && (forall k | 0 <= k < |run| :: |run[k].phases| == |calls|)
    && (forall k | 0 <= k < |moves| :: Step(run[k], run[k + 1], calls, hash, lo, moves[k]))
  }

  /** No call starts before `lo`, and those for the key start within their window of it. */
  predicate InWindow(c: Call, key: MatchKey, lo: int) {
    && lo <= c.start
    && (c.key == key ==> c.start <= lo + c.window * SECOND && (key.severity.None? || key.severity == Some(c.severity)))
  }

  predicate Inserts(p: Phase) {
    p == Missed || p == Inserted || p.InsertDone?
  }

  ghost predicate Fresh(s: Sys, key: MatchKey, lo: int) {
    exists id :: id in s.rows && Matches(s.rows[id], key) && lo <= s.rows[id].updatedAt
  }

  /** The lock excludes: two calls with one lock are never both in their critical section. */
  predicate Excluded(phases: seq<Phase>, locks: seq<int>)
    requires |phases| == |locks|
  {
    forall i, j | 0 <= i < j < |locks| && InCritical(phases[i]) && InCritical(phases[j]) :: locks[i] != locks[j]
  }

  predicate OneInserter(phases: seq<Phase>, calls: seq<Call>, key: MatchKey)
    requires |phases| == |calls|
  {
    forall i, j | 0 <= i < j < |calls| && calls[i].key == key && calls[j].key == key ::
      !(Inserts(phases[i]) && Inserts(phases[j]))
  }

  /** An inserted row stays visible to every later call for the key. */
  ghost predicate Published(s: Sys, calls: seq<Call>, key: MatchKey, lo: int)
    requires |s.phases| == |calls|
  {
    forall i | 0 <= i < |calls| && calls[i].key == key && s.phases[i].InsertDone? :: Fresh(s, key, lo)
  }

  function Locks(calls: seq<Call>, hash: string -> int): seq<int> {
    seq(|calls|, i requires 0 <= i < |calls| => hash(LockText(calls[i].key)))
  }

  ghost predicate Inv(s: Sys, calls: seq<Call>, hash: string -> int, key: MatchKey, lo: int) {
    && |s.phases| == |calls|
    && (forall id | id in s.rows :: id < s.nextId)
    && Excluded(s.phases, Locks(calls, hash))
    && OneInserter(s.phases, calls, key)
    && Published(s, calls, key, lo)
  }

  lemma KeepsExcluded(s: Sys, s': Sys, calls: seq<Call>, hash: string -> int, lo: int, m: Move)
    requires |s.phases| == |calls| && Step(s, s', calls, hash, lo, m)
    requires Excluded(s.phases, Locks(calls, hash))
    ensures |s'.phases| == |calls| && Excluded(s'.phases, Locks(calls, hash))
  {
    hide LockText, Benign, Visible, RowFree;
  }

  lemma FreshIsVisible(s: Sys, c: Call, key: MatchKey, lo: int)
    requires c.key == key && InWindow(c, key, lo)
    ensures Fresh(s, key, lo) ==> exists id :: id in s.rows && Visible(s.rows[id], c)
  {
    if Fresh(s, key, lo) {
      var id :| id in s.rows && Matches(s.rows[id], key) && lo <= s.rows[id].updatedAt;
      assert Visible(s.rows[id], c);
    }
  }

  /** A call that misses is the first of its key to do so, and no row of the key has been committed. */
  lemma KeepsOneInserter(s: Sys, s': Sys, calls: seq<Call>, hash: string -> int, lo: int, m: Move, key: MatchKey)
    requires Inv(s, calls, hash, key, lo)
    requires forall c | c in calls :: InWindow(c, key, lo)
    requires Step(s, s', calls, hash, lo, m)
    ensures |s'.phases| == |calls| && OneInserter(s'.phases, calls, key)
  {
    hide LockText, Benign, Fresh, Visible;
    if m.Miss? && calls[m.i].key == key {
      FreshIsVisible(s, calls[m.i], key, lo);
      forall j | 0 <= j < |calls| && j != m.i && calls[j].key == key ensures !Inserts(s.phases[j]) {
        assert Locks(calls, hash)[j] == Locks(calls, hash)[m.i];
      }
    }
    hide Excluded, Published, Locks;
  }

  lemma KeepsPublished(s: Sys, s': Sys, calls: seq<Call>, hash: string -> int, lo: int, m: Move, key: MatchKey)
    requires Inv(s, calls, hash, key, lo)
    requires forall c | c in calls :: InWindow(c, key, lo)
    requires Step(s, s', calls, hash, lo, m)
    ensures |s'.phases| == |calls| && Published(s', calls, key, lo)
    ensures forall id | id in s'.rows :: id < s'.nextId
  {
    hide LockText, Excluded, OneInserter, Visible;
    if exists i :: 0 <= i < |calls| && calls[i].key == key {
      FreshStays(s, s', calls, hash, lo, m, key);
      if m.Commit? && s.phases[m.i] == Inserted && calls[m.i].key == key {
        InsertIsFresh(s, s', calls, hash, lo, m, key);
      }
    }
    hide Fresh;
  }

  lemma StepKeepsInv(s: Sys, s': Sys, calls: seq<Call>, hash: string -> int, lo: int, m: Move, key: MatchKey)
    requires Inv(s, calls, hash, key, lo)
    requires forall c | c in calls :: InWindow(c, key, lo)
    requires Step(s, s', calls, hash, lo, m)
    ensures Inv(s', calls, hash, key, lo)
  {
    KeepsExcluded(s, s', calls, hash, lo, m);
    KeepsOneInserter(s, s', calls, hash, lo, m, key);
    KeepsPublished(s, s', calls, hash, lo, m, key);
    hide Step, Excluded, OneInserter, Published;
  }

  /** A fresh open incident of the key stays one. */
  lemma FreshStays(s: Sys, s': Sys, calls: seq<Call>, hash: string -> int, lo: int, m: Move, key: MatchKey)
    requires |s.phases| == |calls|
    requires forall id | id in s.rows :: id < s.nextId
    requires forall c | c in calls :: InWindow(c, key, lo)
    requires Step(s, s', calls, hash, lo, m)
    requires exists i :: 0 <= i < |calls| && calls[i].key == key
    ensures Fresh(s, key, lo) ==> Fresh(s', key, lo)
  {
    if Fresh(s, key, lo) {
      var id :| id in s.rows && Matches(s.rows[id], key) && lo <= s.rows[id].updatedAt;
      if m.Commit? {
        assert calls[m.i] in calls;
      }
      assert id in s'.rows && Matches(s'.rows[id], key) && lo <= s'.rows[id].updatedAt;
    }
  }

  /** Committing an insert for the key makes a fresh open incident of it. */
  lemma InsertIsFresh(s: Sys, s': Sys, calls: seq<Call>, hash: string -> int, lo: int, m: Move, key: MatchKey)
    requires |s.phases| == |calls|
    requires forall c | c in calls :: InWindow(c, key, lo)
    requires Step(s, s', calls, hash, lo, m)
    requires m.Commit? && s.phases[m.i] == Inserted && calls[m.i].key == key
    ensures Fresh(s', key, lo)
  {
    assert calls[m.i] in calls;
    assert s.nextId in s'.rows && Matches(s'.rows[s.nextId], key) && lo <= s'.rows[s.nextId].updatedAt;
  }

  lemma StartInv(s: Sys, calls: seq<Call>, hash: string -> int, key: MatchKey, lo: int)
    requires Start(s, calls)
    ensures Inv(s, calls, hash, key, lo)
  {
  }

  lemma {:induction false} RunKeepsInv(run: seq<Sys>, moves: seq<Move>, calls: seq<Call>, hash: string -> int,
                                       key: MatchKey, lo: int, k: nat)
    requires IsRun(run, moves, calls, hash, lo) && k < |run|
    requires forall c | c in calls :: InWindow(c, key, lo)
    ensures Inv(run[k], calls, hash, key, lo)
  {
    hide Step, Inv, InWindow;
    if k == 0 {
      StartInv(run[0], calls, hash, key, lo);
    } else {
      RunKeepsInv(run, moves, calls, hash, key, lo, k - 1);
      assert Step(run[k - 1], run[k - 1 + 1], calls, hash, lo, moves[k - 1]);
      StepKeepsInv(run[k - 1], run[k], calls, hash, lo, moves[k - 1], key);
    }
  }

  predicate IsDone(p: Phase) {
    p.TouchDone? || p.InsertDone?
  }

  /**
   Concurrent suppression. However many calls there are for one key and however their statements interleave,
   when they start within one window and nothing is resolved, at most one inserts; once all of them are done,
   every other one has touched.
   */
  lemma AtMostOneInserts(run: seq<Sys>, moves: seq<Move>, calls: seq<Call>, hash: string -> int, key: MatchKey,
                         lo: int, k: nat, i: nat, j: nat)
    requires IsRun(run, moves, calls, hash, lo) && k < |run|
    requires forall c | c in calls :: InWindow(c, key, lo)
    requires i < |calls| && j < |calls| && i != j && calls[i].key == key && calls[j].key == key
    requires Inserts(run[k].phases[i])
    ensures !Inserts(run[k].phases[j])
    ensures IsDone(run[k].phases[j]) ==> run[k].phases[j].TouchDone?
  {
    RunKeepsInv(run, moves, calls, hash, key, lo, k);
  }

  // ---------- what the lock tells apart

  /** Two texts with the same mark before their unmarked ends have the same ends. */
  lemma LastMark(x: string, y: string, c: char, d: string, e: string)
    requires c !in d && c !in e && x + ([c] + d) == y + ([c] + e)
    ensures x == y && d == e
  {
    var all, n := x + ([c] + d), |x| + 1 + |d|;
    assert n == |y| + 1 + |e|;
    assert all[|x|] == c && all[|y|] == c;
    assert forall k | 0 <= k < |d| :: all[|x| + 1 + k] == d[k];
    assert forall k | 0 <= k < |e| :: all[|y| + 1 + k] == e[k];
    if |x| < |y| {
      assert false;
    } else if |y| < |x| {
      assert false;
    }
    assert x == all[..|x|] && y == all[..|x|];
    assert d == all[|x| + 1..] && e == all[|x| + 1..];
  }

  lemma EqualHeads(a: string, x: string, b: string, y: string)
    requires a + x == b + y && |a| == |b|
    ensures a == b && x == y
  {
    assert a == (a + x)[..|a|] && b == (b + y)[..|a|];
    assert x == (a + x)[|a|..] && y == (b + y)[|a|..];
  }

  predicate Known(device: Option<int>) {
    device.Some? ==> device.value > 0
  }

  function DeviceHead(device: Option<int>): string {
    if device.Some? then "|dev_valid=true|dev_id" else "|dev_valid=false|dev_id"
  }

  lemma DevicePrinted(device: Option<int>) returns (digits: string)
    requires Known(device)
    ensures DeviceText(device) == DeviceHead(device) + (['='] + digits) && '=' !in digits
    ensures digits == if device.Some? then Cursor.PrintInt(device.value) else "0"
  {
    digits := if device.Some? then Cursor.PrintInt(device.value) else "0";
  }

  lemma SameHead(t: string, u: string, a: Option<int>, b: Option<int>)
    requires t + DeviceHead(a) == u + DeviceHead(b)
    ensures t == u && (a.Some? <==> b.Some?)
  {
    var x, y := t + DeviceHead(a), u + DeviceHead(b);
    assert x[|x| - 9] == if a.Some? then 'u' else 's';
    assert y[|y| - 9] == if b.Some? then 'u' else 's';
    assert t == x[..|t|] && u == y[..|u|];
  }

  lemma PrintedOnce(a: nat, b: nat)
    requires Cursor.PrintNat(a) == Cursor.PrintNat(b)
    ensures a == b
  {
    Cursor.ParsePrintNat(a);
    Cursor.ParsePrintNat(b);
  }

  lemma SameDevice(t: string, u: string, a: Option<int>, b: Option<int>)
    requires Known(a) && Known(b) && t + DeviceText(a) == u + DeviceText(b)
    ensures t == u && a == b
  {
    var d := DevicePrinted(a);
    var e := DevicePrinted(b);
    var x, y := t + DeviceHead(a), u + DeviceHead(b);
    hide DeviceText, DeviceHead, Cursor.PrintNat;
    assert t + DeviceText(a) == x + (['='] + d) && u + DeviceText(b) == y + (['='] + e);
    LastMark(x, y, '=', d, e);
    SameHead(t, u, a, b);
    if a.Some? {
      PrintedOnce(a.value, b.value);
    }
  }

  /** The part of the lock text before the title. */
  function LockHead(key: MatchKey): string {
    if key.severity.Some? then
      "incident|src=" + (SourceName(key.source) + ("|sev=" + (SeverityName(key.severity.value) + "|title=")))
    else
      "trap-incident|title="
  }

  lemma Regroup(a: string, b: string, c: string, d: string, e: string, f: string, g: string)
    ensures a + b + c + d + e + f + g == (a + (b + (c + (d + e)))) + (f + g)
  {
  }

  lemma LockTextParts(key: MatchKey)
    ensures LockText(key) == LockHead(key) + (TrimSpace(ToLower(key.title)) + DeviceText(key.device))
  {
    LowerWord(SourceName(key.source));
    if key.severity.Some? {
      LowerWord(SeverityName(key.severity.value));
      Regroup("incident|src=", SourceName(key.source), "|sev=", SeverityName(key.severity.value), "|title=",
              TrimSpace(ToLower(key.title)), DeviceText(key.device));
    }
    hide Folded, TrimSpace, ToLower, DeviceText, SourceName, SeverityName;
  }

  lemma SameWord(a: MatchKey, x: string, b: MatchKey, y: string)
    requires LockHead(a) + x == LockHead(b) + y
    ensures a.severity == b.severity && (a.severity.Some? ==> a.source == b.source) && x == y
  {
    assert (LockHead(a) + x)[0] == (LockHead(b) + y)[0];
    if a.severity.Some? {
      var p, q := "|sev=" + (SeverityName(a.severity.value) + "|title="),
                  "|sev=" + (SeverityName(b.severity.value) + "|title=");
      assert (LockHead(a) + x)[13] == SourceName(a.source)[0] && (LockHead(b) + y)[13] == SourceName(b.source)[0];
      assert a.source == b.source;
      var n := 13 + |SourceName(a.source)| + 5;
      assert (LockHead(a) + x)[n] == SeverityName(a.severity.value)[0];
      assert (LockHead(b) + y)[n] == SeverityName(b.severity.value)[0];
      assert a.severity == b.severity;
    }
    EqualHeads(LockHead(a), x, LockHead(b), y);
  }

  /** Two keys have one lock text exactly if they agree up to case and white space in the title. */
  lemma LockTextExact(a: MatchKey, b: MatchKey)
    requires Known(a.device) && Known(b.device)
    ensures LockText(a) == LockText(b) <==>
              && a.severity == b.severity && (a.severity.Some? ==> a.source == b.source)
              && TrimSpace(ToLower(a.title)) == TrimSpace(ToLower(b.title)) && a.device == b.device
  {
    LockTextParts(a);
    LockTextParts(b);
    var t, u := TrimSpace(ToLower(a.title)), TrimSpace(ToLower(b.title));
    assert LockHead(a) == LockHead(b) <== a.severity == b.severity && (a.severity.Some? ==> a.source == b.source);
    hide LockText, LockHead, TrimSpace, ToLower, DeviceText;
    if LockText(a) == LockText(b) {
      SameWord(a, t + DeviceText(a.device), b, u + DeviceText(b.device));
      SameDevice(t, u, a.device, b.device);
    }
  }

  // ---------- what the statements do

  /** An unsettled incident of the key of the call, written inside the window that ends at the start of the call. */
  predicate Fits(row: Incident, c: Call) {
    Burst.Unsettled(row, c.key) && c.start - row.updatedAt <= c.window * 1_000_000_000
  }

  lemma VisibleFits(row: Incident, c: Call)
    ensures Visible(row, c) <==> Fits(row, c)
  {
  }

  /** A call touches only the latest incident that fits it, and misses only if none does. */
  lemma StatementsMean(s: Sys, s': Sys, calls: seq<Call>, hash: string -> int, lo: int, m: Move)
    requires |s.phases| == |calls| && Step(s, s', calls, hash, lo, m)
    ensures m.Touch? ==>
              && m.id in s.rows && Fits(s.rows[m.id], calls[m.i]) && Hit(m.id) !in s.phases
              && forall id | id in s.rows && Fits(s.rows[id], calls[m.i]) ::
                   s.rows[id].updatedAt <= s.rows[m.id].updatedAt
    ensures m.Miss? ==> forall id | id in s.rows :: !Fits(s.rows[id], calls[m.i])
  {
    forall row, c {
      VisibleFits(row, c);
    }
    hide Visible, Fits, Benign, LockText;
  }

  // ---------- nobody waits for ever

  /** Every row that a call has hit is there, and no two calls have hit one row. */
  predicate RowsHeld(s: Sys) {
    && (forall i | 0 <= i < |s.phases| && s.phases[i].Hit? :: s.phases[i].id in s.rows)
    && (forall i, j | 0 <= i < j < |s.phases| && s.phases[i].Hit? && s.phases[j].Hit? ::
          s.phases[i].id != s.phases[j].id)
  }

  lemma StepKeepsRowsHeld(s: Sys, s': Sys, calls: seq<Call>, hash: string -> int, lo: int, m: Move)
    requires |s.phases| == |calls| && Step(s, s', calls, hash, lo, m) && RowsHeld(s)
    ensures RowsHeld(s')
  {
    hide Visible, LockText, LockFree;
  }

  lemma {:induction false} RunKeepsRowsHeld(run: seq<Sys>, moves: seq<Move>, calls: seq<Call>, hash: string -> int,
                                            lo: int, k: nat)
    requires IsRun(run, moves, calls, hash, lo) && k < |run|
    ensures RowsHeld(run[k])
  {
    if k > 0 {
      RunKeepsRowsHeld(run, moves, calls, hash, lo, k - 1);
      assert Step(run[k - 1], run[k - 1 + 1], calls, hash, lo, moves[k - 1]);
      hide Step, RowsHeld;
      StepKeepsRowsHeld(run[k - 1], run[k], calls, hash, lo, moves[k - 1]);
    }
  }

  lemma {:induction false} LatestExists(rows: map<nat, Incident>, c: Call, ids: set<nat>) returns (latest: nat)
    requires ids <= rows.Keys && exists id :: id in ids && Visible(rows[id], c)
    ensures latest in ids && Visible(rows[latest], c)
    ensures forall id | id in ids && Visible(rows[id], c) :: rows[id].updatedAt <= rows[latest].updatedAt
    decreases |ids|
  {
    latest :| latest in ids && Visible(rows[latest], c);
    hide Visible;
    var rest := ids - {latest};
    if exists id :: id in rest && Visible(rows[id], c) {
      var other := LatestExists(rows, c, rest);
      assert forall id | id in ids :: id == latest || id in rest;
      latest := if rows[other].updatedAt > rows[latest].updatedAt then other else latest;
    }
  }

  /** A call that holds the advisory lock can go on, unless it waits for a row that another call has hit. */
  lemma LockedGoesOn(s: Sys, calls: seq<Call>, hash: string -> int, lo: int, i: nat) returns (m: Move, s': Sys)
    requires |s.phases| == |calls| && i < |calls| && s.phases[i] == Locked && forall p | p in s.phases :: !p.Hit?
    ensures !m.Others? && Step(s, s', calls, hash, lo, m)
  {
    hide Visible;
    if exists id :: id in s.rows && Visible(s.rows[id], calls[i]) {
      var id := LatestExists(s.rows, calls[i], s.rows.Keys);
      m, s' := Touch(i, id), At(s, i, Hit(id));
    } else {
      m, s' := Miss(i), At(s, i, Missed);
    }
  }

  /**
   No deadlock: in every reachable state, as long as some call is not done, one of the calls can take its next step,
   whatever locks and rows the others hold.
   */
  lemma NeverStuck(run: seq<Sys>, moves: seq<Move>, calls: seq<Call>, hash: string -> int, lo: int, k: nat, i: nat)
    returns (m: Move, s': Sys)
    requires IsRun(run, moves, calls, hash, lo) && k < |run|
    requires i < |calls| && !IsDone(run[k].phases[i])
    ensures !m.Others? && Step(run[k], s', calls, hash, lo, m)
  {
    RunKeepsRowsHeld(run, moves, calls, hash, lo, k);
    var s := run[k];
    assert |s.phases| == |calls|;
    hide IsRun;
    if j: nat :| j < |calls| && s.phases[j].Hit? {
      m, s' := CommitHit(s, calls, hash, lo, j);
    } else if j: nat :| j < |calls| && s.phases[j] == Missed {
      m, s' := Insert(j), At(s, j, Inserted);
    } else if j: nat :| j < |calls| && s.phases[j] == Inserted {
      m, s' := CommitInsert(s, calls, hash, lo, j);
    } else if j: nat :| j < |calls| && s.phases[j] == Locked {
      m, s' := LockedGoesOn(s, calls, hash, lo, j);
    } else {
      m, s' := Lock(i), At(s, i, Locked);
    }
  }

  lemma CommitHit(s: Sys, calls: seq<Call>, hash: string -> int, lo: int, i: nat) returns (m: Move, s': Sys)
    requires |s.phases| == |calls| && i < |calls| && s.phases[i].Hit? && s.phases[i].id in s.rows
    ensures !m.Others? && Step(s, s', calls, hash, lo, m)
  {
    var id := s.phases[i].id;
    m, s' := Commit(i), At(s.(rows := s.rows[id := s.rows[id].(updatedAt := calls[i].start)]), i, TouchDone(id));
  }

  lemma CommitInsert(s: Sys, calls: seq<Call>, hash: string -> int, lo: int, i: nat) returns (m: Move, s': Sys)
    requires |s.phases| == |calls| && i < |calls| && s.phases[i] == Inserted
    ensures !m.Others? && Step(s, s', calls, hash, lo, m)
  {
    var c := calls[i];
    m := Commit(i);
    s' := At(Sys(s.rows[s.nextId := NewRow(c.key.device, None, c.key.title, c.severity, c.key.source, "", c.start)],
                 s.phases, s.nextId + 1), i, InsertDone(s.nextId));
  }

  // ---------- exactly one

  /** There is an unsettled incident of the key. */
  ghost predicate Present(s: Sys, key: MatchKey) {
    exists id :: id in s.rows && Burst.Unsettled(s.rows[id], key)
  }

  /** Nobody else makes one: what others commit brings no unsettled incident of the key that was not one before. */
  ghost predicate Uninvolved(run: seq<Sys>, moves: seq<Move>, key: MatchKey)
    requires |run| == |moves| + 1
  {
    forall k | 0 <= k < |moves| && moves[k].Others? :: Present(run[k + 1], key) ==> Present(run[k], key)
  }

  ghost predicate OwnRows(s: Sys, key: MatchKey) {
    (Present(s, key) || exists i :: 0 <= i < |s.phases| && (s.phases[i].Hit? || s.phases[i].TouchDone?)) ==>
      exists i :: 0 <= i < |s.phases| && s.phases[i].InsertDone?
  }

  lemma StepKeepsOwnRows(s: Sys, s': Sys, calls: seq<Call>, hash: string -> int, lo: int, m: Move, key: MatchKey)
    requires |s.phases| == |calls| && Step(s, s', calls, hash, lo, m) && RowsHeld(s) && OwnRows(s, key)
    requires forall c | c in calls :: c.key == key
    requires m.Others? ==> Present(s', key) ==> Present(s, key)
    ensures OwnRows(s', key)
  {
    StatementsMean(s, s', calls, hash, lo, m);
    if m.Touch? {
      assert calls[m.i] in calls;
      assert Present(s, key);
    } else if m.Commit? {
      assert s.phases[m.i].Hit? || s'.phases[m.i].InsertDone?;
    }
    if j :| 0 <= j < |s.phases| && s.phases[j].InsertDone? {
      assert s'.phases[j] == s.phases[j];
    } else {
      assert !Present(s, key);
      assert Present(s', key) ==> m.Commit?;
    }
  }

  lemma {:induction false} RunKeepsOwnRows(run: seq<Sys>, moves: seq<Move>, calls: seq<Call>, hash: string -> int,
                                           key: MatchKey, lo: int, k: nat)
    requires IsRun(run, moves, calls, hash, lo) && k < |run|
    requires forall c | c in calls :: c.key == key
    requires !Present(run[0], key) && Uninvolved(run, moves, key)
    ensures OwnRows(run[k], key)
  {
    if k > 0 {
      RunKeepsOwnRows(run, moves, calls, hash, key, lo, k - 1);
      RunKeepsRowsHeld(run, moves, calls, hash, lo, k - 1);
      assert Step(run[k - 1], run[k - 1 + 1], calls, hash, lo, moves[k - 1]);
      assert moves[k - 1].Others? ==> Present(run[k - 1 + 1], key) ==> Present(run[k - 1], key);
      hide Step, RowsHeld, OwnRows, Present;
      StepKeepsOwnRows(run[k - 1], run[k], calls, hash, lo, moves[k - 1], key);
    }
  }

  /**
   Calls for one key that start within one window, when there is no unsettled incident of it and nobody else brings
   one: once all of them are done, exactly one has inserted and every other one has touched.
   */
  lemma ExactlyOneInserts(run: seq<Sys>, moves: seq<Move>, calls: seq<Call>, hash: string -> int, key: MatchKey,
                          lo: int, k: nat) returns (i: nat)
    requires IsRun(run, moves, calls, hash, lo) && k < |run| && calls != []
    requires forall c | c in calls :: c.key == key && InWindow(c, key, lo)
    requires !Present(run[0], key) && Uninvolved(run, moves, key)
    requires forall p | p in run[k].phases :: IsDone(p)
    ensures i < |calls| && run[k].phases[i].InsertDone?
    ensures forall j | 0 <= j < |calls| && j != i :: run[k].phases[j].TouchDone?
  {
    RunKeepsOwnRows(run, moves, calls, hash, key, lo, k);
    assert |run[k].phases| == |calls|;
    assert IsDone(run[k].phases[0]);
    i :| i < |calls| && run[k].phases[i].InsertDone?;
    forall j: nat | j < |calls| && j != i ensures run[k].phases[j].TouchDone? {
      AtMostOneInserts(run, moves, calls, hash, key, lo, k, i, j);
    }
  }
}
