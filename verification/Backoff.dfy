/**
 The retry backoff of the poll worker: one entry per device address, updated under a mutex. Times are
 nanoseconds and 0 is the zero time. Every mutex section is one event, so polls of different devices interleave.
 */
module Backoff {
  import opened Common

  const MINUTE: int := 60_000_000_000
  const MAX_GAP: int := 15 * MINUTE

  datatype State = State(failures: int, nextTry: int, lastErr: string)

  const FRESH := State(0, 0, "")

  function Pow2(n: nat): (p: nat)
    ensures p >= 1
  {
    if n == 0 then 1 else 2 * Pow2(n - 1)
  }

  // ---------- the mutex sections

  function ShouldSkip(byIp: map<string, State>, ip: string, now: int): Option<int> {
    if ip !in byIp || byIp[ip].nextTry == 0 || now >= byIp[ip].nextTry then None else Some(byIp[ip].nextTry - now)
  }

  function DelayAfter(failures: int): int {
    var shift := if failures - 1 < 0 then 0 else if failures - 1 > 30 then 30 else failures - 1;
    var delay := MINUTE * Pow2(shift);
    if delay > MAX_GAP then MAX_GAP else delay
  }

  function Failed(st: State, err: string, now: int): State {
    var failures := if st.failures + 1 > 5 then 5 else st.failures + 1;
    State(failures, now + DelayAfter(failures), err)
  }

  function Look(byIp: map<string, State>, ip: string): State {
    if ip in byIp then byIp[ip] else FRESH
  }

  // ---------- histories

  datatype Event = Ask(ip: string, now: int) | Fail(ip: string, now: int, err: string) | Succeed(ip: string)

  function Apply(byIp: map<string, State>, e: Event): map<string, State> {
    match e
    case Ask(_, _) => byIp
    case Fail(ip, now, err) => byIp[ip := Failed(Look(byIp, ip), err, now)]
    case Succeed(ip) => byIp - {ip}
  }

  function After(byIp: map<string, State>, events: seq<Event>): map<string, State> {
    if events == [] then byIp else Apply(After(byIp, events[..|events| - 1]), events[|events| - 1])
  }

  /** The failures of a device since its last success, oldest first. */
  function Streak(events: seq<Event>, ip: string): seq<int> {
    if events == [] then []
    else
      var e, before := events[|events| - 1], Streak(events[..|events| - 1], ip);
      if e.ip != ip then before
      else match e
        case Ask(_, _) => before
        case Fail(_, now, _) => before + [now]
        case Succeed(_) => []
  }

  /** The clock readings of one device are after the zero time and never go back. */
  predicate InOrder(events: seq<Event>, ip: string) {
    events == [] ||
    var e, before := events[|events| - 1], events[..|events| - 1];
    InOrder(before, ip) && (e.ip == ip && !e.Succeed? ==> LastTime(before, ip) <= e.now)
  }

  function LastTime(events: seq<Event>, ip: string): int {
    if events == [] then 1
    else
      var e := events[|events| - 1];
      if e.ip == ip && !e.Succeed? then e.now else LastTime(events[..|events| - 1], ip)
  }

  /** Minutes to wait after the `n`-th failure in a row. */
  function Gap(n: nat): int {
    if n <= 1 then 1 else if n == 2 then 2 else if n == 3 then 4 else if n == 4 then 8 else 15
  }

  lemma DelayIsGap(n: nat)
    requires 1 <= n
    ensures DelayAfter(if n > 5 then 5 else n) == Gap(n) * MINUTE
  {
    assert Pow2(1) == 2 && Pow2(2) == 4 && Pow2(3) == 8;
    assert Pow2(4) == 16;
  }

  /** After any history, interleaved with other devices, the stored state is the current run of failures. */
  lemma {:induction false} StateIsStreak(events: seq<Event>, ip: string)
    ensures var byIp, streak := After(map[], events), Streak(events, ip);
            var n := |streak|;
            (ip in byIp <==> n > 0)
            && (n > 0 ==> byIp[ip].failures == (if n > 5 then 5 else n)
                          && byIp[ip].nextTry == streak[n - 1] + Gap(n) * MINUTE)
  {
    if events != [] {
      var before := events[..|events| - 1];
      StateIsStreak(before, ip);
      DelayIsGap(|Streak(before, ip)| + 1);
      hide DelayAfter;
    }
  }

  lemma {:induction false} StreakInOrder(events: seq<Event>, ip: string)
    requires InOrder(events, ip)
    ensures forall i | 0 <= i < |Streak(events, ip)| :: 1 <= Streak(events, ip)[i] <= LastTime(events, ip)
    ensures 1 <= LastTime(events, ip)
  {
    if events != [] {
      StreakInOrder(events[..|events| - 1], ip);
    }
  }

  /**
   The answer to every question: a device is skipped exactly while the gap after its latest failure in a row
   runs, and is then told to wait for the rest of that gap, never more than fifteen minutes.
   */
  lemma SkipIsExact(events: seq<Event>, ip: string, now: int)
    requires InOrder(events, ip) && LastTime(events, ip) <= now
    ensures var streak := Streak(events, ip);
            var n := |streak|;
            ShouldSkip(After(map[], events), ip, now)
            == if n > 0 && now < streak[n - 1] + Gap(n) * MINUTE then Some(streak[n - 1] + Gap(n) * MINUTE - now)
               else None
    ensures ShouldSkip(After(map[], events), ip, now).Some? ==>
              0 < ShouldSkip(After(map[], events), ip, now).value <= 15 * MINUTE
  {
    StateIsStreak(events, ip);
    StreakInOrder(events, ip);
  }

  lemma StreakSnoc(events: seq<Event>, e: Event)
    ensures After(map[], events + [e]) == Apply(After(map[], events), e)
    ensures forall ip | ip != e.ip :: Streak(events + [e], ip) == Streak(events, ip)
    ensures Streak(events + [e], e.ip)
         == if e.Ask? then Streak(events, e.ip) else if e.Fail? then Streak(events, e.ip) + [e.now] else []
  {
    assert (events + [e])[..|events|] == events;
  }

  // ---------- the object

  class DeviceBackoff {
    var byIp: map<string, State>
    ghost var log: seq<Event>

    /** The entries are what the failures and successes so far, in their order, have left. */
    ghost predicate Valid()
      reads this
    {
      byIp == After(map[], log)
    }

    constructor ()
      ensures Valid() && log == []
    {
      byIp, log := map[], [];
    }

    /** A device is told to wait exactly while the gap after its latest failure in a row runs. */
    method CheckSkip(ip: string, now: int) returns (wait: Option<int>)
      requires Valid()
      ensures wait == ShouldSkip(byIp, ip, now)
      ensures InOrder(log, ip) && LastTime(log, ip) <= now ==>
                var streak := Streak(log, ip);
                var n := |streak|;
                && wait == (if n > 0 && now < streak[n - 1] + Gap(n) * MINUTE
                            then Some(streak[n - 1] + Gap(n) * MINUTE - now) else None)
                && (wait.Some? ==> 0 < wait.value <= 15 * MINUTE)
    {
      if InOrder(log, ip) && LastTime(log, ip) <= now {
        SkipIsExact(log, ip, now);
      }
      hide InOrder, LastTime, Streak, After, Gap;
      if ip !in byIp {
        return None;
      }
      var st := byIp[ip];
      if st.nextTry == 0 || !(now < st.nextTry) {
        return None;
      }
      return Some(st.nextTry - now);
    }

    /** The mutex section of a failure. */
    method FailLocked(ip: string, err: string, now: int) returns (delay: int)
      modifies this`byIp
      ensures byIp == old(byIp)[ip := Failed(Look(old(byIp), ip), err, now)]
      ensures now + delay == byIp[ip].nextTry
    {
      var st := Look(byIp, ip);
      st := st.(failures := st.failures + 1);
      if st.failures > 5 {
        st := st.(failures := 5);
      }
      var shift := st.failures - 1;
      if shift < 0 {
        shift := 0;
      }
      if shift > 30 {
        shift := 30;
      }
      delay := MINUTE * Pow2(shift);
      if delay > MAX_GAP {
        delay := MAX_GAP;
      }
      st := st.(nextTry := now + delay, lastErr := err);
      byIp := byIp[ip := st];
    }

    method OnFailure(ip: string, err: string, now: int) returns (delay: int)
      requires Valid()
      modifies this
      ensures Valid() && log == old(log) + [Fail(ip, now, err)]
      ensures byIp == old(byIp)[ip := Failed(Look(old(byIp), ip), err, now)]
      ensures Streak(log, ip) == Streak(old(log), ip) + [now]
      ensures now + delay == byIp[ip].nextTry && delay == Gap(|Streak(log, ip)|) * 60_000_000_000
      ensures forall other | other != ip :: Streak(log, other) == Streak(old(log), other)
    {
      var e := Fail(ip, now, err);
      StreakSnoc(log, e);
      StateIsStreak(log + [e], ip);
      hide Streak, After, Gap, Failed, Look;
      delay := FailLocked(ip, err, now);
      log := log + [e];
    }

    method OnSuccess(ip: string)
      requires Valid()
      modifies this
      ensures Valid() && log == old(log) + [Succeed(ip)]
      ensures byIp == old(byIp) - {ip} && Streak(log, ip) == []
      ensures forall other | other != ip :: Streak(log, other) == Streak(old(log), other)
    {
      StreakSnoc(log, Succeed(ip));
      hide Streak, After;
      byIp := byIp - {ip};
      log := log + [Succeed(ip)];
    }
  }

  // ---------- spacing

  /** Polls of one device do not overlap: it is asked first and its outcome is recorded before the next question. */
  predicate Sequential(events: seq<Event>, ip: string) {
    events == [] ||
    var e, before := events[|events| - 1], events[..|events| - 1];
    Sequential(before, ip) && (e.ip == ip ==> (e.Ask? <==> !Polling(before, ip)))
  }

  /** The latest event of the device is a question that let the poll through. */
  predicate Polling(events: seq<Event>, ip: string) {
    events != [] &&
    var e, before := events[|events| - 1], events[..|events| - 1];
    if e.ip != ip then Polling(before, ip)
    else e.Ask? && ShouldSkip(After(map[], before), ip, e.now) == None
  }

  lemma {:induction false} PollingIsLate(events: seq<Event>, ip: string)
    requires InOrder(events, ip) && Polling(events, ip)
    ensures var streak := Streak(events, ip);
            |streak| > 0 ==> LastTime(events, ip) >= streak[|streak| - 1] + Gap(|streak|) * MINUTE
  {
    var e, before := events[|events| - 1], events[..|events| - 1];
    if e.ip != ip {
      PollingIsLate(before, ip);
    } else {
      SkipIsExact(before, ip, e.now);
    }
  }

  /** Minutes from the first failure in a row to the `k`-th, at the least. */
  function Spread(k: nat): int
    requires k >= 1
  {
    if k <= 5 then Pow2(k - 1) - 1 else 15 * (k - 4)
  }

  lemma SpreadIsSumOfGaps(k: nat)
    requires k >= 1
    ensures Spread(k + 1) == Spread(k) + Gap(k)
    ensures k >= 5 ==> Spread(k) == 15 * (k - 4)
  {
    assert Pow2(1) == 2 && Pow2(2) == 4 && Pow2(3) == 8;
    assert Pow2(4) == 16;
  }

  /**
   A device that keeps failing: its `k`-th failure in a row comes at least `2^(k-1) - 1` minutes after the first
   for `k <= 5`, and at least `15 * (k - 4)` minutes after it from then on.
   */
  lemma {:induction false} FailuresSpreadOut(events: seq<Event>, ip: string, k: nat)
    requires InOrder(events, ip) && Sequential(events, ip) && 1 <= k <= |Streak(events, ip)|
    ensures Streak(events, ip)[k - 1] - Streak(events, ip)[0] >= Spread(k) * 60_000_000_000
  {
    var e, before := events[|events| - 1], events[..|events| - 1];
    var earlier := Streak(before, ip);
    if k <= |earlier| {
      FailuresSpreadOut(before, ip, k);
    } else if k > 1 {
      FailuresSpreadOut(before, ip, k - 1);
      PollingIsLate(before, ip);
      SpreadIsSumOfGaps(k - 1);
    }
  }
}
