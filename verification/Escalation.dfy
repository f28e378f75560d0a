/** The escalation policies of the worker and its periodic tick. */
module Escalation {
  import opened Common
  import opened Incidents
  import Outcomes

  // ---------- building the policy list

  function AppendPolicy(out: seq<Policy>, p: Policy): seq<Policy> {
    if p.olderThan <= 0 || Blank(p.target) then out
    else
      out + [p.(target := TrimSpace(p.target),
                comment := if Blank(p.comment) then "auto-escalated: no ack within timeout" else p.comment)]
  }

  /** One timeout and target from the environment; an unset timeout is 0. */
  datatype Stage = Stage(timeout: int, target: string)

  datatype Settings = Settings(
    default_: Stage, critical: Stage, trap: Stage, polling: Stage, manual: Stage, stage2: Stage)

  const ACTOR := "system-escalation"

  function LoadStage1(e: Settings): seq<Policy> {
    var a := AppendPolicy([], Policy(e.default_.timeout, e.default_.target, "", "", true,
                                     "auto-escalated stage1: no ack within timeout"));
    var b := AppendPolicy(a, Policy(e.critical.timeout, e.critical.target, "critical", "", true,
                                    "auto-escalated stage1 critical: no ack within timeout"));
    var c := AppendPolicy(b, Policy(e.trap.timeout, e.trap.target, "", "trap", true,
                                    "auto-escalated stage1 trap: no ack within timeout"));
    var d := AppendPolicy(c, Policy(e.polling.timeout, e.polling.target, "", "polling", true,
                                    "auto-escalated stage1 polling: no ack within timeout"));
    AppendPolicy(d, Policy(e.manual.timeout, e.manual.target, "", "manual", true,
                           "auto-escalated stage1 manual: no ack within timeout"))
  }

  function LoadPolicies(e: Settings): seq<Policy> {
    AppendPolicy(LoadStage1(e), Policy(e.stage2.timeout, e.stage2.target, "", "", false,
                                       "auto-escalated stage2: no ack within extended timeout"))
  }

  // ---------- a tick

  function Tick(db: Db, policies: seq<Policy>, now: int): Db
    decreases policies
  {
    if policies == [] then db else Tick(Escalate(db, policies[0], ACTOR, now).0, policies[1..], now)
  }

  function TickCase(id: nat, c: Case, policies: seq<Policy>, now: int): Case
    requires AllRunnable(policies)
    decreases policies
  {
    if policies == [] then c else TickCase(id, EscalateCase(id, c, policies[0], ACTOR, now), policies[1..], now)
  }

  predicate AllRunnable(policies: seq<Policy>) {
    forall p | p in policies :: Runnable(p)
  }

  function Listed(p: Option<Policy>): seq<Policy> {
    if p.Some? then [p.value] else []
  }

  /** The shape of every loaded list: stage-1 policies, then at most one stage-2 policy. */
  predicate Staged(stage1: seq<Policy>, stage2: Option<Policy>) {
    && AllRunnable(stage1)
    && (forall p | p in stage1 :: p.onlyIfUnassigned)
    && (stage2.Some? ==> Runnable(stage2.value) && !stage2.value.onlyIfUnassigned)
  }

  /** The loaded list is staged, whatever the environment holds. */
  lemma LoadedIsStaged(e: Settings)
    ensures var stage1 := LoadStage1(e);
            exists stage2 :: LoadPolicies(e) == stage1 + Listed(stage2) && Staged(stage1, stage2)
  {
    KnownFilters();
    var p := Policy(e.stage2.timeout, e.stage2.target, "", "", false,
                    "auto-escalated stage2: no ack within extended timeout");
    var last := AppendPolicy([], p);
    var stage2 := if last == [] then None else Some(last[0]);
    assert LoadPolicies(e) == AppendPolicy(LoadStage1(e), p);
    hide AppendPolicy, Runnable, LoadStage1, LoadPolicies, SeverityFilter, SourceFilter;
    AppendOne(LoadStage1(e), p);
    Stage1Runnable(e);
    assert Listed(stage2) == last;
    assert Staged(LoadStage1(e), stage2) && LoadPolicies(e) == LoadStage1(e) + Listed(stage2);
  }

  lemma Stage1Runnable(e: Settings)
    ensures forall q | q in LoadStage1(e) :: Runnable(q) && q.onlyIfUnassigned
  {
    KnownFilters();
    AppendRunnable(Policy(e.default_.timeout, e.default_.target, "", "", true,
                          "auto-escalated stage1: no ack within timeout"));
    AppendRunnable(Policy(e.critical.timeout, e.critical.target, "critical", "", true,
                          "auto-escalated stage1 critical: no ack within timeout"));
    AppendRunnable(Policy(e.trap.timeout, e.trap.target, "", "trap", true,
                          "auto-escalated stage1 trap: no ack within timeout"));
    AppendRunnable(Policy(e.polling.timeout, e.polling.target, "", "polling", true,
                          "auto-escalated stage1 polling: no ack within timeout"));
    AppendRunnable(Policy(e.manual.timeout, e.manual.target, "", "manual", true,
                          "auto-escalated stage1 manual: no ack within timeout"));
    hide AppendPolicy, Runnable, SeverityFilter, SourceFilter;
  }

  lemma KnownFilters()
    ensures SeverityFilter("").Some? && SeverityFilter("critical").Some?
    ensures SourceFilter("").Some? && SourceFilter("trap").Some? && SourceFilter("polling").Some?
    ensures SourceFilter("manual").Some?
  {
    assert Blank("");
    LowerWord("critical");
    LowerWord("trap");
    LowerWord("polling");
    LowerWord("manual");
    hide Folded, Blank;
  }

  lemma AppendOne(out: seq<Policy>, p: Policy)
    requires SeverityFilter(p.severity).Some? && SourceFilter(p.source).Some?
    ensures var added := AppendPolicy([], p);
            && AppendPolicy(out, p) == out + added && |added| <= 1
            && (added != [] ==> Runnable(added[0]) && added[0].onlyIfUnassigned == p.onlyIfUnassigned)
  {
    TrimSpaceIdempotent(p.target);
    hide SeverityFilter, SourceFilter, TrimSpace;
  }

  lemma AppendRunnable(p: Policy)
    requires SeverityFilter(p.severity).Some? && SourceFilter(p.source).Some?
    ensures forall out: seq<Policy>, q | q in AppendPolicy(out, p) ::
              q in out || (Runnable(q) && q.onlyIfUnassigned == p.onlyIfUnassigned)
  {
    forall out: seq<Policy>, q | q in AppendPolicy(out, p)
      ensures q in out || (Runnable(q) && q.onlyIfUnassigned == p.onlyIfUnassigned)
    {
      hide AppendPolicy, Runnable, SeverityFilter, SourceFilter;
      AppendOne(out, p);
    }
  }

  /** Running the list over the table is running it over each incident by itself. */
  lemma {:induction false} TickIsPerCase(db: Db, policies: seq<Policy>, now: int)
    requires AllRunnable(policies)
    ensures Tick(db, policies, now)
         == db.(cases := map id | id in db.cases :: TickCase(id, db.cases[id], policies, now))
    decreases policies
  {
    if policies == [] {
      assert db.cases == map id | id in db.cases :: TickCase(id, db.cases[id], policies, now);
    } else {
      var db1 := Escalate(db, policies[0], ACTOR, now).0;
      assert policies[0] in policies;
      TickIsPerCase(db1, policies[1..], now);
      assert (map id | id in db1.cases :: TickCase(id, db1.cases[id], policies[1..], now))
          == (map id | id in db.cases :: TickCase(id, db.cases[id], policies, now));
    }
  }

  // ---------- the decision for one incident

  function FirstMatch(row: Incident, stage1: seq<Policy>, now: int): Option<string>
    requires AllRunnable(stage1)
    decreases stage1
  {
    if stage1 == [] then None
    else if InScope(row, stage1[0], now) then Some(TrimSpace(stage1[0].target))
    else FirstMatch(row, stage1[1..], now)
  }

  /** Stage 2 wins; then an owner stays; then the first stage-1 policy in scope; else nothing changes. */
  function Decision(row: Incident, stage1: seq<Policy>, stage2: Option<Policy>, now: int): Option<string>
    requires Staged(stage1, stage2)
  {
    if stage2.Some? && InScope(row, stage2.value, now) then Some(TrimSpace(stage2.value.target))
    else if !Unassigned(row) then row.assignee
    else
      var first := FirstMatch(row, stage1, now);
      if first.Some? then first else row.assignee
  }

  /** Everything an escalation leaves alone. */
  predicate SameButOwner(a: Incident, b: Incident) {
    b == a.(assignee := b.assignee, updatedAt := b.updatedAt)
  }

  /** A policy target that gets stored counts as an owner. */
  lemma TargetIsOwner(p: Policy)
    requires Runnable(p)
    ensures TrimBlanks(TrimSpace(p.target)) != ""
  {
    TrimmedEnds(p.target);
  }

  lemma {:induction false} Stage1Only(id: nat, c: Case, stage1: seq<Policy>, now: int)
    requires Staged(stage1, None)
    ensures var d := TickCase(id, c, stage1, now);
            var first := FirstMatch(c.row, stage1, now);
            && SameButOwner(c.row, d.row)
            && d.row.assignee == (if Unassigned(c.row) && first.Some? then first else c.row.assignee)
            && (Unassigned(c.row) && first.Some? ==> !Unassigned(d.row))
            && |d.trail| == |c.trail| + (if Unassigned(c.row) && first.Some? then 1 else 0)
            && (!(Unassigned(c.row) && first.Some?) ==> d == c)
    decreases stage1
  {
    if stage1 != [] {
      var p := stage1[0];
      assert p in stage1;
      TargetIsOwner(p);
      var c1 := EscalateCase(id, c, p, ACTOR, now);
      assert forall q | q in stage1[1..] :: q in stage1;
      Stage1Only(id, c1, stage1[1..], now);
    }
  }

  lemma {:induction false} TickCaseSplit(id: nat, c: Case, first: seq<Policy>, second: seq<Policy>, now: int)
    requires AllRunnable(first)
    requires AllRunnable(second)
    ensures AllRunnable(first + second)
    ensures TickCase(id, c, first + second, now) == TickCase(id, TickCase(id, c, first, now), second, now)
    decreases first
  {
    if first == [] {
      assert first + second == second;
    } else {
      assert (first + second)[1..] == first[1..] + second;
      assert forall q | q in first[1..] :: q in first;
      TickCaseSplit(id, EscalateCase(id, c, first[0], ACTOR, now), first[1..], second, now);
    }
  }

  lemma Stage2Only(id: nat, c: Case, stage2: Option<Policy>, now: int)
    requires Staged([], stage2)
    ensures var d := TickCase(id, c, Listed(stage2), now);
            && SameButOwner(c.row, d.row)
            && d.row.assignee == (if stage2.Some? && InScope(c.row, stage2.value, now)
                                  then Some(TrimSpace(stage2.value.target)) else c.row.assignee)
            && |d.trail| == |c.trail| + (if d.row.assignee == c.row.assignee then 0 else 1)
            && (d.row.assignee == c.row.assignee ==> d == c)
  {
    if stage2.Some? {
      assert Listed(stage2)[1..] == [];
    }
  }

  /** At a fixed clock, the whole policy list amounts to one decision for each incident. */
  lemma TickDecides(id: nat, c: Case, stage1: seq<Policy>, stage2: Option<Policy>, now: int)
    requires Staged(stage1, stage2)
    ensures AllRunnable(stage1 + Listed(stage2))
    ensures var d := TickCase(id, c, stage1 + Listed(stage2), now);
            && SameButOwner(c.row, d.row)
            && d.row.assignee == Decision(c.row, stage1, stage2, now)
  {
    TickCaseSplit(id, c, stage1, Listed(stage2), now);
    Stage1Only(id, c, stage1, now);
    var c1 := TickCase(id, c, stage1, now);
    Stage2Only(id, c1, stage2, now);
    assert stage2.Some? ==> InScope(c1.row, stage2.value, now) == InScope(c.row, stage2.value, now);
  }

  /** A second tick at the same clock leaves the incident, audit rows included, as it is. */
  lemma SecondTickChangesNothing(id: nat, c: Case, stage1: seq<Policy>, stage2: Option<Policy>, now: int)
    requires Staged(stage1, stage2)
    ensures AllRunnable(stage1 + Listed(stage2))
    ensures var d := TickCase(id, c, stage1 + Listed(stage2), now);
            TickCase(id, d, stage1 + Listed(stage2), now) == d
  {
    TickDecides(id, c, stage1, stage2, now);
    var d := TickCase(id, c, stage1 + Listed(stage2), now);
    TickCaseSplit(id, d, stage1, Listed(stage2), now);
    Stage1Only(id, d, stage1, now);
    FirstMatchAgrees(c.row, d.row, stage1, now);
    if stage2.Some? {
      TargetIsOwner(stage2.value);
    }
    Stage1Target(c.row, stage1, now);
    var d1 := TickCase(id, d, stage1, now);
    assert d1 == d;
    Stage2Only(id, d, stage2, now);
  }

  lemma {:induction false} FirstMatchAgrees(a: Incident, b: Incident, stage1: seq<Policy>, now: int)
    requires AllRunnable(stage1)
    requires SameButOwner(a, b)
    ensures FirstMatch(a, stage1, now) == FirstMatch(b, stage1, now)
    decreases stage1
  {
    if stage1 != [] {
      FirstMatchAgrees(a, b, stage1[1..], now);
    }
  }

  lemma {:induction false} Stage1Target(row: Incident, stage1: seq<Policy>, now: int)
    requires AllRunnable(stage1)
    ensures var first := FirstMatch(row, stage1, now);
            first.Some? ==> TrimBlanks(first.value) != ""
    decreases stage1
  {
    if stage1 != [] {
      TargetIsOwner(stage1[0]);
      Stage1Target(row, stage1[1..], now);
    }
  }

  /**
   The tick of the worker over the whole table, with the list it loads: each incident gets its decision
   and keeps everything else.
   */
  lemma TickOfTable(db: Db, e: Settings, stage2: Option<Policy>, now: int)
    requires LoadPolicies(e) == LoadStage1(e) + Listed(stage2) && Staged(LoadStage1(e), stage2)
    ensures var db1 := Tick(db, LoadPolicies(e), now);
            && db1.cases.Keys == db.cases.Keys && db1.nextId == db.nextId
            && forall id | id in db.cases ::
                 && SameButOwner(db.cases[id].row, db1.cases[id].row)
                 && db1.cases[id].row.assignee == Decision(db.cases[id].row, LoadStage1(e), stage2, now)
  {
    hide LoadPolicies, LoadStage1, SameButOwner, Decision, Tick, TickCase;
    var stage1 := LoadStage1(e);
    TickIsPerCase(db, stage1 + Listed(stage2), now);
    forall id | id in db.cases
      ensures var d := TickCase(id, db.cases[id], stage1 + Listed(stage2), now);
              && SameButOwner(db.cases[id].row, d.row)
              && d.row.assignee == Decision(db.cases[id].row, stage1, stage2, now)
    {
      TickDecides(id, db.cases[id], stage1, stage2, now);
    }
  }

  // ---------- the tick, said of the settings alone

  /** The stage is configured and the `new` incident is old enough for it. */
  predicate Due(stage: Stage, row: Incident, now: int) {
    stage.timeout > 0 && !Blank(stage.target) && row.status == New && now - row.createdAt >= stage.timeout
  }

  /** The target of the first stage-1 setting that is due: the general one, then critical, then by source. */
  function Stage1Owner(e: Settings, row: Incident, now: int): Option<string> {
    if Due(e.default_, row, now) then Some(TrimSpace(e.default_.target))
    else if row.severity == Critical && Due(e.critical, row, now) then Some(TrimSpace(e.critical.target))
    else if row.source == Trap && Due(e.trap, row, now) then Some(TrimSpace(e.trap.target))
    else if row.source == Polling && Due(e.polling, row, now) then Some(TrimSpace(e.polling.target))
    else if row.source == Manual && Due(e.manual, row, now) then Some(TrimSpace(e.manual.target))
    else None
  }

  predicate NobodyOwns(row: Incident) {
    row.assignee.None? || forall c | c in row.assignee.value :: c == ' '
  }

  /** The owner after a tick, from the settings. */
  function TickOwner(e: Settings, row: Incident, now: int): Option<string> {
    if Due(e.stage2, row, now) then Some(TrimSpace(e.stage2.target))
    else if NobodyOwns(row) && Stage1Owner(e, row, now).Some? then Stage1Owner(e, row, now)
    else row.assignee
  }

  lemma {:induction false} FirstMatchConcat(row: Incident, a: seq<Policy>, b: seq<Policy>, now: int)
    requires AllRunnable(a)
    requires AllRunnable(b)
    ensures AllRunnable(a + b)
    ensures FirstMatch(row, a + b, now)
         == if FirstMatch(row, a, now).Some? then FirstMatch(row, a, now) else FirstMatch(row, b, now)
    decreases a
  {
    assert forall p | p in a + b :: p in a || p in b;
    if a == [] {
      assert a + b == b;
    } else {
      assert (a + b)[1..] == a[1..] + b && forall p | p in a[1..] :: p in a;
      hide InScope, Runnable;
      FirstMatchConcat(row, a[1..], b, now);
    }
  }

  /** The filter words of a policy let the incident pass. */
  predicate Fits(p: Policy, row: Incident) {
    && (p.severity == "" || NormalizeSeverity(p.severity) == Some(row.severity))
    && (p.source == "" || NormalizeSource(p.source) == Some(row.source))
  }

  /** A word that a loaded policy filters by: none, or one that names something. */
  predicate Plain(p: Policy) {
    && (p.severity == "" || (!Blank(p.severity) && NormalizeSeverity(p.severity).Some?))
    && (p.source == "" || (!Blank(p.source) && NormalizeSource(p.source).Some?))
  }

  lemma ScopeOfPlain(p: Policy, row: Incident, now: int)
    requires Runnable(p) && Plain(p)
    ensures InScope(row, p, now) <==> row.status == New && now - row.createdAt >= p.olderThan && Fits(p, row)
  {
    hide Folded, NormalizeSeverity, NormalizeSource, SeverityFilter, SourceFilter, Blank;
    Outcomes.SeverityWord(p.severity, row.severity);
    Outcomes.SourceWord(p.source, row.source);
  }

  /** What appending one policy adds to the decision. */
  lemma AppendMatch(row: Incident, out: seq<Policy>, p: Policy, now: int)
    requires AllRunnable(out)
    requires Plain(p)
    ensures AllRunnable(AppendPolicy(out, p))
    ensures FirstMatch(row, AppendPolicy(out, p), now)
         == if FirstMatch(row, out, now).Some? then FirstMatch(row, out, now)
            else if Due(Stage(p.olderThan, p.target), row, now) && Fits(p, row) then Some(TrimSpace(p.target))
            else None
  {
    assert Blank("");
    hide Folded, NormalizeSeverity, NormalizeSource, TrimSpace, InScope;
    var added := AppendPolicy([], p);
    AppendOne(out, p);
    TrimSpaceIdempotent(p.target);
    if added != [] {
      assert added == [added[0]] && added[1..] == [] && forall q | q in added :: q == added[0];
      ScopeOfPlain(added[0], row, now);
    }
    FirstMatchConcat(row, out, added, now);
  }

  lemma StagePolicies(row: Incident)
    ensures NormalizeSeverity("critical") == Some(Critical) && !Blank("critical")
    ensures NormalizeSource("trap") == Some(Trap) && !Blank("trap")
    ensures NormalizeSource("polling") == Some(Polling) && !Blank("polling")
    ensures NormalizeSource("manual") == Some(Manual) && !Blank("manual")
  {
    LowerWord("critical");
    LowerWord("trap");
    LowerWord("polling");
    LowerWord("manual");
    hide Folded, Blank;
  }

  /** The stage-1 list decides as the settings say, each target with its own timeout, severity and source. */
  lemma Stage1BySettings(e: Settings, row: Incident, now: int)
    ensures AllRunnable(LoadStage1(e)) && FirstMatch(row, LoadStage1(e), now) == Stage1Owner(e, row, now)
  {
    hide AppendPolicy, FirstMatch, NormalizeSeverity, NormalizeSource, Due, TrimSpace, Blank, AllRunnable, Runnable;
    StagePolicies(row);
    var p1 := Policy(e.default_.timeout, e.default_.target, "", "", true,
                     "auto-escalated stage1: no ack within timeout");
    var p2 := Policy(e.critical.timeout, e.critical.target, "critical", "", true,
                     "auto-escalated stage1 critical: no ack within timeout");
    var p3 := Policy(e.trap.timeout, e.trap.target, "", "trap", true,
                     "auto-escalated stage1 trap: no ack within timeout");
    var p4 := Policy(e.polling.timeout, e.polling.target, "", "polling", true,
                     "auto-escalated stage1 polling: no ack within timeout");
    var p5 := Policy(e.manual.timeout, e.manual.target, "", "manual", true,
                     "auto-escalated stage1 manual: no ack within timeout");
    var a := AppendPolicy([], p1);
    var b := AppendPolicy(a, p2);
    var c := AppendPolicy(b, p3);
    var d := AppendPolicy(c, p4);
    NoMatch(row, now);
    AppendMatch(row, [], p1, now);
    AppendMatch(row, a, p2, now);
    AppendMatch(row, b, p3, now);
    AppendMatch(row, c, p4, now);
    AppendMatch(row, d, p5, now);
    assert LoadStage1(e) == AppendPolicy(d, p5);
  }

  lemma NoMatch(row: Incident, now: int)
    ensures AllRunnable([]) && FirstMatch(row, [], now) == None
  {
  }

  /** The last policy of the loaded list is stage 2, if it is configured. */
  lemma Stage2BySettings(e: Settings, stage2: Option<Policy>, row: Incident, now: int)
    requires LoadPolicies(e) == LoadStage1(e) + Listed(stage2) && Staged(LoadStage1(e), stage2)
    ensures stage2.Some? && InScope(row, stage2.value, now) <==> Due(e.stage2, row, now)
    ensures Due(e.stage2, row, now) ==> TrimSpace(stage2.value.target) == TrimSpace(e.stage2.target)
  {
    var p := Policy(e.stage2.timeout, e.stage2.target, "", "", false,
                    "auto-escalated stage2: no ack within extended timeout");
    assert LoadPolicies(e) == AppendPolicy(LoadStage1(e), p) && SeverityFilter("").Some? && SourceFilter("").Some?;
    hide LoadPolicies, LoadStage1, SeverityFilter, SourceFilter, TrimSpace, InScope;
    AppendOne(LoadStage1(e), p);
    SameTail(LoadStage1(e), Listed(stage2), AppendPolicy([], p));
    TrimSpaceIdempotent(e.stage2.target);
    if stage2.Some? {
      assert Listed(stage2)[0] == stage2.value;
      ScopeOfPlain(stage2.value, row, now);
    }
  }

  lemma SameTail(a: seq<Policy>, b: seq<Policy>, c: seq<Policy>)
    requires a + b == a + c
    ensures b == c
  {
    assert (a + b)[|a|..] == b && (a + c)[|a|..] == c;
  }

  /**
   The tick of the worker, from its settings: a `new` incident old enough for stage 2 goes to its target; otherwise
   an owner stays; otherwise the first stage-1 setting that is due gives the owner; otherwise nothing changes.
   */
  lemma TickBySettings(db: Db, e: Settings, now: int, id: nat)
    requires id in db.cases
    ensures var db1 := Tick(db, LoadPolicies(e), now);
            && db1.cases.Keys == db.cases.Keys && db1.nextId == db.nextId
            && SameButOwner(db.cases[id].row, db1.cases[id].row)
            && db1.cases[id].row.assignee == TickOwner(e, db.cases[id].row, now)
  {
    hide LoadPolicies, LoadStage1, Tick, TickOwner, Decision, SameButOwner, Staged;
    var row := db.cases[id].row;
    LoadedIsStaged(e);
    var stage2 :| LoadPolicies(e) == LoadStage1(e) + Listed(stage2) && Staged(LoadStage1(e), stage2);
    TickOfTable(db, e, stage2, now);
    DecisionBySettings(e, stage2, row, now);
  }

  lemma DecisionBySettings(e: Settings, stage2: Option<Policy>, row: Incident, now: int)
    requires LoadPolicies(e) == LoadStage1(e) + Listed(stage2) && Staged(LoadStage1(e), stage2)
    ensures Decision(row, LoadStage1(e), stage2, now) == TickOwner(e, row, now)
  {
    if row.assignee.Some? {
      Outcomes.OnlyBlanks(row.assignee.value);
    }
    assert NobodyOwns(row) <==> Unassigned(row);
    hide LoadPolicies, LoadStage1, Due, Stage1Owner, InScope, FirstMatch, NobodyOwns, Unassigned, TrimSpace;
    Stage1BySettings(e, row, now);
    Stage2BySettings(e, stage2, row, now);
  }

  /** An immediate second tick changes nothing in the table. */
  lemma SecondTickOfTable(db: Db, e: Settings, now: int)
    ensures Tick(Tick(db, LoadPolicies(e), now), LoadPolicies(e), now) == Tick(db, LoadPolicies(e), now)
  {
    LoadedIsStaged(e);
    hide LoadPolicies, LoadStage1, Tick, TickCase;
    var stage1 := LoadStage1(e);
    var stage2 :| LoadPolicies(e) == stage1 + Listed(stage2) && Staged(stage1, stage2);
    var policies := stage1 + Listed(stage2);
    TickIsPerCase(db, policies, now);
    var db1 := Tick(db, policies, now);
    TickIsPerCase(db1, policies, now);
    forall id | id in db.cases
      ensures TickCase(id, TickCase(id, db.cases[id], policies, now), policies, now)
           == TickCase(id, db.cases[id], policies, now)
    {
      SecondTickChangesNothing(id, db.cases[id], stage1, stage2, now);
    }
    assert (map id | id in db1.cases :: TickCase(id, db1.cases[id], policies, now)) == db1.cases;
  }

  // ---------- unboundedly many ticks

  /**
   What happens to an incident over time: single policy statements, each at a clock time of its own, and anything
   else that leaves its owner alone. A tick is the statements of the list, with whatever comes between them.
   */
  datatype Moment = Statement(policy: Policy, now: int) | Otherwise(after: Case)

  function After(id: nat, c: Case, m: Moment): Case
    requires m.Statement? ==> Runnable(m.policy)
  {
    match m
    case Statement(p, now) => EscalateCase(id, c, p, ACTOR, now)
    case Otherwise(d) => d
  }

  /** Statements are those of the list, in any order, and nothing else assigns the incident. */
  predicate OwnerKept(id: nat, c: Case, history: seq<Moment>, policies: seq<Policy>)
    requires AllRunnable(policies)
    decreases history
  {
    history == [] ||
    var m := history[0];
    && (m.Statement? ==> m.policy in policies)
    && (m.Otherwise? ==> m.after.row.assignee == c.row.assignee)
    && OwnerKept(id, After(id, c, m), history[1..], policies)
  }

  /** Audit rows that the statements of a history write. */
  function EscalationRows(id: nat, c: Case, history: seq<Moment>, policies: seq<Policy>): int
    requires AllRunnable(policies) && OwnerKept(id, c, history, policies)
    decreases history
  {
    if history == [] then 0
    else
      var d := After(id, c, history[0]);
      (if history[0].Statement? then |d.trail| - |c.trail| else 0) + EscalationRows(id, d, history[1..], policies)
  }

  /** How many escalations are still ahead at most. */
  function Ahead(row: Incident, stage2: Option<Policy>): int {
    if stage2.Some? && row.assignee == Some(TrimSpace(stage2.value.target)) then 0
    else (if Unassigned(row) then 1 else 0) + |Listed(stage2)|
  }

  lemma StatementUsesUp(id: nat, c: Case, p: Policy, stage1: seq<Policy>, stage2: Option<Policy>, now: int)
    requires Staged(stage1, stage2) && p in stage1 + Listed(stage2)
    ensures Runnable(p)
    ensures var d := EscalateCase(id, c, p, ACTOR, now);
            |d.trail| - |c.trail| <= Ahead(c.row, stage2) - Ahead(d.row, stage2)
  {
    assert p in stage1 || p in Listed(stage2);
    TargetIsOwner(p);
    if stage2.Some? {
      TargetIsOwner(stage2.value);
    }
    hide SeverityFilter, SourceFilter, TrimSpace, TrimBlanks;
  }

  /** As long as nobody else assigns it, an incident gets at most two escalation audit rows, ever. */
  lemma {:induction false} AtMostTwoEscalations(id: nat, c: Case, history: seq<Moment>, stage1: seq<Policy>,
                                                stage2: Option<Policy>)
    requires Staged(stage1, stage2) && AllRunnable(stage1 + Listed(stage2))
    requires OwnerKept(id, c, history, stage1 + Listed(stage2))
    ensures EscalationRows(id, c, history, stage1 + Listed(stage2)) <= Ahead(c.row, stage2) <= 2
    decreases history
  {
    hide EscalateCase, Staged, AllRunnable, Runnable;
    if history != [] {
      var m := history[0];
      if m.Statement? {
        StatementUsesUp(id, c, m.policy, stage1, stage2, m.now);
      }
      AtMostTwoEscalations(id, After(id, c, m), history[1..], stage1, stage2);
    }
  }
}
