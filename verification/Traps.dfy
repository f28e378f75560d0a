/** Trap classification and correlation, with no vendor mapping row for the OID. */
module Traps {
  import opened Common
  import opened Incidents
  import opened IncidentLaws

  datatype Signal = Generic | LinkDown | LinkUp | BfdDown | BfdUp

  const LINK_LOSS := "Link loss detected"
  const LINK_RECOVERY := "Link recovery detected"

  function SignalOf(oid: string): Signal {
    var o := Folded(oid);
    if Contains(o, "linkdown") then LinkDown
    else if Contains(o, "linkup") then LinkUp
    else if Contains(o, "bfddown") || Contains(o, "bfd.down") || Contains(o, "bfd_down") then BfdDown
    else if Contains(o, "bfdup") || Contains(o, "bfd.up") || Contains(o, "bfd_up") then BfdUp
    else Generic
  }

  function TrapSeverity(oid: string): Severity {
    match SignalOf(oid)
    case LinkDown | BfdDown => Critical
    case LinkUp | BfdUp => Info
    case Generic => if Contains(Folded(oid), "coldstart") then Critical else Warning
  }

  function TrapTitle(oid: string): string {
    match SignalOf(oid)
    case LinkDown | BfdDown => LINK_LOSS
    case LinkUp | BfdUp => LINK_RECOVERY
    case Generic =>
      if Blank(oid) || Folded(oid) == "unknown" then "SNMP trap: unknown" else "SNMP trap: " + TrimSpace(oid)
  }

  predicate IsRecovery(oid: string) {
    SignalOf(oid) == LinkUp || SignalOf(oid) == BfdUp
  }

  /** Trap incidents are matched by title and device only. */
  function TrapKey(device: Option<int>, oid: string): MatchKey {
    MatchKey(Trap, TrapTitle(oid), None, device)
  }

  /** The one transaction a received trap runs: a recovery resolves, anything else touches or inserts. */
  function TrapOp(owners: Owners, device: Option<int>, oid: string, details: string, window: int, hint: nat): Op {
    if IsRecovery(oid) then OpTrapResolve(device, [LINK_LOSS], "system", "auto-resolved by recovery trap")
    else OpTrapTouch(TrapKey(device, oid), TrapSeverity(oid), DefaultAssignee(owners, Trap, TrapSeverity(oid)),
                     details, window, hint)
  }

  lemma TrapApplied(owners: Owners, db: Db, device: Option<int>, oid: string, details: string, window: int, hint: nat,
                    now: int)
    ensures Apply(owners, db, TrapOp(owners, device, oid, details, window, hint), now)
         == if IsRecovery(oid) then
              ResolveTraps(db, device, [LINK_LOSS], "system", "auto-resolved by recovery trap", now)
            else TouchOrInsert(db, TrapKey(device, oid), TrapSeverity(oid),
                               DefaultAssignee(owners, Trap, TrapSeverity(oid)), details, WindowSeconds(window), hint,
                               now).0
  {
  }

  predicate IsLoss(oid: string) {
    SignalOf(oid) == LinkDown || SignalOf(oid) == BfdDown
  }

  /** Link-down and BFD-down traps of a device are one incident class, and nothing else falls into it. */
  lemma LossTrapsCorrelate(device: Option<int>, oid: string, oid': string)
    requires IsLoss(oid)
    ensures TrapKey(device, oid) == TrapKey(device, oid') <==> IsLoss(oid')
    ensures IsLoss(oid') ==> TrapSeverity(oid) == TrapSeverity(oid') == Critical
  {
    TitleHead(oid');
  }

  lemma TitleHead(oid: string)
    ensures SignalOf(oid) == Generic ==> TrapTitle(oid)[..1] == "S"
    ensures LINK_LOSS[..1] == "L" && LINK_RECOVERY[..1] == "L" && LINK_LOSS[5] != LINK_RECOVERY[5]
  {
  }

  /** The link-loss incidents of the device are all resolved or closed. */
  predicate LossFree(db: Db, device: int) {
    forall id | id in db.cases && TopicOf(db.cases[id].row) == Topic(Trap, "Link loss detected", Some(device)) ::
      db.cases[id].row.status == Resolved || db.cases[id].row.status == Closed
  }

  /** A recovery trap of a known device leaves none of its link-loss incidents open. */
  lemma RecoveryClears(owners: Owners, db: Db, device: int, oid: string, details: string, window: int, hint: nat,
                       now: int)
    requires IsRecovery(oid)
    ensures LossFree(Apply(owners, db, TrapOp(owners, Some(device), oid, details, window, hint), now), device)
  {
    TrapApplied(owners, db, Some(device), oid, details, window, hint, now);
    assert TrimSpace(LINK_LOSS) == LINK_LOSS;
    assert Wanted(LINK_LOSS, [LINK_LOSS]);
  }

  /** Without a new link-loss trigger for the device, nothing opens such an incident again. */
  lemma StaysLossFree(owners: Owners, db: Db, op: Op, device: int, now: int)
    requires GoodDb(db, now) && LossFree(db, device)
    requires RaisedBy(op) != Some(Topic(Trap, LINK_LOSS, Some(device)))
    ensures LossFree(Apply(owners, db, op, now), device)
  {
    var db' := Apply(owners, db, op, now);
    ApplyKeeps(owners, db, op, now);
    forall id | id in db'.cases && TopicOf(db'.cases[id].row) == Topic(Trap, "Link loss detected", Some(device))
      ensures db'.cases[id].row.status == Resolved || db'.cases[id].row.status == Closed
    {
      if id in db.cases {
        assert Step(id, db.cases[id], db'.cases[id], now);
        hide GoodDb, GoodCase, Apply;
      } else {
        NewRowTopic(owners, db, op, now, id);
        hide GoodDb, Apply, RaisedBy;
        assert false;
      }
    }
  }

  lemma {:induction false} RunStaysLossFree(owners: Owners, db: Db, events: seq<Event>, device: int, start: int)
    requires GoodDb(db, start) && InOrder(start, events) && LossFree(db, device)
    requires forall e | e in events :: RaisedBy(e.op) != Some(Topic(Trap, LINK_LOSS, Some(device)))
    ensures LossFree(Run(owners, db, events), device)
    decreases events
  {
    if events != [] {
      var e := events[0];
      assert e in events;
      GoodLater(db, start, e.now);
      ApplyKeeps(owners, db, e.op, e.now);
      StaysLossFree(owners, db, e.op, device, e.now);
      var db1 := Apply(owners, db, e.op, e.now);
      assert Run(owners, db, events) == Run(owners, db1, events[1..]);
      hide GoodDb, Apply, LossFree, Run;
      RunStaysLossFree(owners, db1, events[1..], device, e.now);
    }
  }

  /**
   Whatever happened before, from a recovery trap of a known device on no link-loss incident of it is open, until
   the next trap, create or trigger that raises one.
   */
  lemma RecoveryClosesLoss(owners: Owners, before: seq<Event>, device: int, oid: string, details: string, window: int,
                           hint: nat, now: int, after: seq<Event>, start: int)
    requires IsRecovery(oid)
    requires var e := Event(TrapOp(owners, Some(device), oid, details, window, hint), now);
             InOrder(start, before + ([e] + after))
    requires forall a | a in after :: RaisedBy(a.op) != Some(Topic(Trap, LINK_LOSS, Some(device)))
    ensures var e := Event(TrapOp(owners, Some(device), oid, details, window, hint), now);
            LossFree(Run(owners, EMPTY_DB, before + ([e] + after)), device)
  {
    var e := Event(TrapOp(owners, Some(device), oid, details, window, hint), now);
    OrderSplit(start, before, [e] + after);
    EmptyIsGood(start);
    RunKeeps(owners, EMPTY_DB, before, start);
    RunSplit(owners, EMPTY_DB, before, [e] + after);
    var db := Run(owners, EMPTY_DB, before);
    RecoveryClears(owners, db, device, oid, details, window, hint, now);
    OrderSplit(EndOf(start, before), [e], after);
    assert ([e] + after)[1..] == after && ([e] + after)[0] == e;
    GoodLater(db, EndOf(start, before), now) by {
      assert EndOf(start, before) <= ([e] + after)[0].now;
    }
    ApplyKeeps(owners, db, e.op, now);
    hide GoodDb, Apply, LossFree, TrapOp;
    RunStaysLossFree(owners, Apply(owners, db, e.op, now), after, device, now);
  }

  /** A row that an operation adds is about what the operation raises. */
  lemma NewRowTopic(owners: Owners, db: Db, op: Op, now: int, id: nat)
    requires id in Apply(owners, db, op, now).cases && id !in db.cases
    ensures RaisedBy(op) == Some(TopicOf(Apply(owners, db, op, now).cases[id].row))
  {
    if RaisedBy(op).None? {
      OthersAddNothing(owners, db, op, now);
      assert false;
    } else {
      RaisedIsThere(owners, db, op, now);
    }
  }

  // ---------- classification, said of the text of an OID

  predicate Has(s: string, part: string) {
    exists i :: 0 <= i <= |s| && part <= s[i..]
  }

  lemma {:induction false} ContainsIsHas(s: string, part: string)
    requires part != ""
    ensures Contains(s, part) <==> Has(s, part)
  {
    assert s[0..] == s;
    if s != "" {
      ContainsIsHas(s[1..], part);
      if Has(s[1..], part) {
        var i :| 0 <= i <= |s[1..]| && part <= s[1..][i..];
        assert s[i + 1..] == s[1..][i..];
      }
      if Has(s, part) {
        var i :| 0 <= i <= |s| && part <= s[i..];
        assert i > 0 ==> s[1..][i - 1..] == s[i..];
      }
    }
  }

  predicate Mentions(oid: string, part: string) {
    Has(Folded(oid), part)
  }

  predicate MentionsOneOf(oid: string, a: string, b: string, c: string) {
    Mentions(oid, a) || Mentions(oid, b) || Mentions(oid, c)
  }

  /**
   What the text of an OID makes of its trap. "linkdown" is a loss whatever else it says, else "linkup" a recovery,
   else BFD down a loss, else BFD up a recovery; any other trap is a warning, or critical if it says "coldstart".
   */
  lemma TrapByText(oid: string)
    ensures var down := MentionsOneOf(oid, "bfddown", "bfd.down", "bfd_down");
            var up := MentionsOneOf(oid, "bfdup", "bfd.up", "bfd_up");
            var loss := Mentions(oid, "linkdown") || (!Mentions(oid, "linkup") && down);
            var recovery := !loss && (Mentions(oid, "linkup") || up);
            && (IsLoss(oid) <==> loss) && (IsRecovery(oid) <==> recovery)
            && (loss ==> TrapTitle(oid) == "Link loss detected" && TrapSeverity(oid) == Critical)
            && (recovery ==> TrapTitle(oid) == "Link recovery detected" && TrapSeverity(oid) == Info)
            && (!loss && !recovery ==>
                  TrapSeverity(oid) == if Mentions(oid, "coldstart") then Critical else Warning)
  {
    hide Contains, Has, Folded;
    var o := Folded(oid);
    ContainsIsHas(o, "linkdown");
    ContainsIsHas(o, "linkup");
    ContainsIsHas(o, "bfddown");
    ContainsIsHas(o, "bfd.down");
    ContainsIsHas(o, "bfd_down");
    ContainsIsHas(o, "bfdup");
    ContainsIsHas(o, "bfd.up");
    ContainsIsHas(o, "bfd_up");
    ContainsIsHas(o, "coldstart");
  }

  predicate Anonymous(oid: string) {
    Folded(oid) == "" || Folded(oid) == "unknown"
  }

  /** Other traps share an incident class exactly if their OIDs agree, white space aside, or are both unknown. */
  lemma OtherTrapsByOid(device: Option<int>, oid: string, oid': string)
    requires !IsLoss(oid) && !IsRecovery(oid) && !IsLoss(oid') && !IsRecovery(oid')
    ensures TrapKey(device, oid) == TrapKey(device, oid')
       <==> TrimSpace(oid) == TrimSpace(oid') || (Anonymous(oid) && Anonymous(oid'))
  {
    TitleOfOther(oid);
    TitleOfOther(oid');
    var a, b, head := TrimSpace(oid), TrimSpace(oid'), "SNMP trap: ";
    assert Anonymous(oid) == (ToLower(a) == "" || ToLower(a) == "unknown");
    assert Anonymous(oid') == (ToLower(b) == "" || ToLower(b) == "unknown");
    LowerWord("unknown");
    assert ToLower("unknown") == "unknown";
    hide TrimSpace, ToLower, TrapTitle, SignalOf, Anonymous;
    assert head + a == head + b ==> (head + a)[|head|..] == (head + b)[|head|..];
    assert (head + a)[|head|..] == a && (head + b)[|head|..] == b && (head + "unknown")[|head|..] == "unknown";
  }

  lemma TitleOfOther(oid: string)
    requires !IsLoss(oid) && !IsRecovery(oid)
    ensures TrapTitle(oid) == "SNMP trap: " + if Anonymous(oid) then "unknown" else TrimSpace(oid)
  {
    assert Folded(oid) == "" <==> Blank(oid);
    hide TrimSpace, ToLower;
  }

  // ---------- the recovery title

  ghost predicate RecoveryTitled(row: Incident) {
    row.source == Trap && row.title == LINK_RECOVERY
  }

  ghost predicate HasRecovery(db: Db) {
    exists id :: id in db.cases && RecoveryTitled(db.cases[id].row)
  }

  /** An accepted create or trigger whose caller asks for source "trap" and the recovery title. */
  predicate AsksForRecovery(op: Op) {
    (op.OpCreate? || op.OpTrigger?) && RaisedBy(op).Some?
    && RaisedBy(op).value.source == Trap && RaisedBy(op).value.title == LINK_RECOVERY
  }

  /** Trap touches come from received traps only. */
  ghost predicate FromTrap(owners: Owners, op: Op) {
    op.OpTrapTouch? ==>
      exists device, oid, details, window, hint :: op == TrapOp(owners, device, oid, details, window, hint)
  }

  lemma TrapsRaiseNoRecovery(owners: Owners, op: Op)
    requires FromTrap(owners, op) && RaisedBy(op).Some?
    requires RaisedBy(op).value.source == Trap && RaisedBy(op).value.title == LINK_RECOVERY
    ensures AsksForRecovery(op)
  {
    if op.OpTrapTouch? {
      var device, oid, details, window, hint :| op == TrapOp(owners, device, oid, details, window, hint);
      assert op.key.title == TrapTitle(oid) && SignalOf(oid) != LinkUp && SignalOf(oid) != BfdUp;
      TitleHead(oid);
      hide SignalOf, TrapSeverity, DefaultAssignee, Blank, Folded;
    }
  }

  lemma RecoveryHasOrigin(owners: Owners, db: Db, op: Op, now: int)
    requires GoodDb(db, now) && FromTrap(owners, op) && HasRecovery(Apply(owners, db, op, now))
    ensures HasRecovery(db) || AsksForRecovery(op)
  {
    var db' := Apply(owners, db, op, now);
    ApplyKeeps(owners, db, op, now);
    var id :| id in db'.cases && RecoveryTitled(db'.cases[id].row);
    if id in db.cases {
      assert Step(id, db.cases[id], db'.cases[id], now);
      hide GoodDb, GoodCase, Apply, FromTrap;
    } else {
      NewRowTopic(owners, db, op, now, id);
      TrapsRaiseNoRecovery(owners, op);
      hide GoodDb, Apply, RaisedBy, HasRecovery;
    }
  }

  lemma RecoveryStays(owners: Owners, db: Db, op: Op, now: int)
    requires GoodDb(db, now) && HasRecovery(db)
    ensures HasRecovery(Apply(owners, db, op, now))
  {
    var id :| id in db.cases && RecoveryTitled(db.cases[id].row);
    ApplyKeeps(owners, db, op, now);
    assert Step(id, db.cases[id], Apply(owners, db, op, now).cases[id], now);
    hide GoodDb, GoodCase, Apply;
  }

  lemma AskedIsThere(owners: Owners, db: Db, op: Op, now: int)
    requires AsksForRecovery(op)
    ensures HasRecovery(Apply(owners, db, op, now))
  {
    RaisedIsThere(owners, db, op, now);
    hide Apply, RaisedBy;
  }

  lemma StepRecovery(owners: Owners, db: Db, op: Op, now: int)
    requires GoodDb(db, now) && FromTrap(owners, op)
    ensures HasRecovery(Apply(owners, db, op, now)) <==> HasRecovery(db) || AsksForRecovery(op)
  {
    hide *;
    if HasRecovery(Apply(owners, db, op, now)) {
      RecoveryHasOrigin(owners, db, op, now);
    } else if HasRecovery(db) {
      RecoveryStays(owners, db, op, now);
    } else if AsksForRecovery(op) {
      AskedIsThere(owners, db, op, now);
    }
  }

  lemma {:induction false} RunRecovery(owners: Owners, db: Db, events: seq<Event>, start: int)
    requires GoodDb(db, start) && InOrder(start, events) && forall e | e in events :: FromTrap(owners, e.op)
    ensures HasRecovery(Run(owners, db, events))
       <==> HasRecovery(db) || exists e :: e in events && AsksForRecovery(e.op)
    decreases events
  {
    if events != [] {
      var e := events[0];
      assert e in events;
      GoodLater(db, start, e.now);
      ApplyKeeps(owners, db, e.op, e.now);
      StepRecovery(owners, db, e.op, e.now);
      var db1 := Apply(owners, db, e.op, e.now);
      assert Run(owners, db, events) == Run(owners, db1, events[1..]);
      hide GoodDb, Apply, HasRecovery, Run, FromTrap, AsksForRecovery;
      RunRecovery(owners, db1, events[1..], e.now);
      assert forall a :: a in events <==> a == e || a in events[1..];
    }
  }

  /**
   Recovery traps insert nothing. Over any run from the empty tables a trap incident with the recovery title exists
   exactly if some caller created or triggered one by source and title.
   */
  lemma RecoveryTitledIff(owners: Owners, events: seq<Event>, start: int)
    requires InOrder(start, events) && forall e | e in events :: FromTrap(owners, e.op)
    ensures HasRecovery(Run(owners, EMPTY_DB, events)) <==> exists e :: e in events && AsksForRecovery(e.op)
  {
    EmptyIsGood(start);
    RunRecovery(owners, EMPTY_DB, events, start);
  }

  /** Such a call is accepted: an incident created with source "trap" and the recovery title. */
  lemma RecoveryTitleCanBeCreated(owners: Owners, device: Option<int>, details: string, now: int)
    ensures var op := OpCreate(device, LINK_RECOVERY, "info", "trap", None, details);
            HasRecovery(Run(owners, EMPTY_DB, [Event(op, now)]))
  {
    var e := Event(OpCreate(device, LINK_RECOVERY, "info", "trap", None, details), now);
    CreateAsks(device, details);
    assert e in [e];
    hide AsksForRecovery, HasRecovery, Run;
    RecoveryTitledIff(owners, [e], now);
  }

  lemma CreateAsks(device: Option<int>, details: string)
    ensures AsksForRecovery(OpCreate(device, LINK_RECOVERY, "info", "trap", None, details))
  {
    LowerWord("info");
    LowerWord("trap");
    assert LINK_RECOVERY != "" && TrimSpace(LINK_RECOVERY) == LINK_RECOVERY;
    hide Folded, TrimSpace;
  }
}
