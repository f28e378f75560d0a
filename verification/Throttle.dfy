/**
 The token throttle of the poll worker as a state machine. A ticker puts ticks into a channel that holds one, a
 goroutine takes a tick in hand and then offers a token to a second channel that holds one, and workers take the
 tokens. Ticks may fire late and the goroutine may lag. Times are nanoseconds since the throttle was created.
 */
module Throttle {

  const SECOND: int := 1_000_000_000

  /** The clamp on the configured rate; 0 means no throttle. */
  function RateLimit(configured: int): (rate: int)
    ensures 0 <= rate <= 1000
    ensures rate == configured <==> 0 <= configured <= 1000
    ensures (configured <= 0 ==> rate == 0) && (configured > 1000 ==> rate == 1000)
  {
    if configured <= 0 then 0 else if configured > 1000 then 1000 else configured
  }

  function Interval(rate: int): int
    requires rate > 0
  {
    var interval := SECOND / rate;
    if interval <= 0 then 1_000_000 else interval
  }

  /** A whole interval fits into a second exactly `rate` times, although the division rounds. */
  lemma IntervalFitsRateTimes(rate: int)
    requires 1 <= rate <= 1000
    ensures Interval(rate) == SECOND / rate >= 1_000_000
    ensures rate * Interval(rate) <= 1_000_000_000 < (rate + 1) * Interval(rate)
  {
    var d := SECOND / rate;
    DivisionBelow(SECOND, rate);
    QuotientAtLeast(1_000_000, SECOND, rate);
    assert (rate + 1) * d == rate * d + d;
  }

  lemma DivisionBelow(n: int, d: int)
    requires d > 0
    ensures n / d * d <= n < n / d * d + d
  {
  }

  lemma QuotientAtLeast(q: int, n: int, d: int)
    requires d > 0 && q * d <= n
    ensures q <= n / d
  {
    if n / d < q {
      QuotientBelow(q, n, d);
      assert false;
    }
  }

  lemma QuotientBelow(q: int, n: int, d: int)
    requires d > 0 && n / d < q
    ensures n < q * d
  {
    DivisionBelow(n, d);
    MulMonotone(n / d + 1, q, d);
    assert (n / d + 1) * d == n / d * d + d;
  }

  lemma MulMonotone(a: int, b: int, d: int)
    requires a <= b && d > 0
    ensures a * d <= b * d
  {
  }

  // ---------- the machine

  /**
   `cell` is the latest grid cell whose tick has fired: the timer fires at most once in every interval of its
   grid, late if it must, and skips the intervals it missed altogether.
   */
  datatype State = State(
    now: int,
    cell: int,
    tick: bool,
    hand: bool,
    token: bool,
    done: bool,
    ticking: bool,
    closed: bool,
    taken: seq<int>)

  datatype Step = Wait(until: int) | Fire | Receive | Offer | Take | Stop | StopTicker | Exit

  const INIT := State(0, 0, false, false, true, false, true, false, [])

  predicate Enabled(d: int, st: State, step: Step)
    requires d > 0
  {
    match step
    case Wait(until) => st.now <= until
    case Fire => st.ticking && st.cell < st.now / d
    case Receive => st.tick && !st.hand && !st.closed
    case Offer => st.hand
    case Take => st.token
    case Stop => !st.done
    case StopTicker => st.done && st.ticking
    case Exit => st.done && !st.hand && !st.closed
  }

  function Do(d: int, st: State, step: Step): State
    requires d > 0
  {
    match step
    case Wait(until) => st.(now := until)
    case Fire => st.(cell := st.now / d, tick := true)
    case Receive => st.(tick := false, hand := true)
    case Offer => st.(hand := false, token := true)
    case Take => st.(token := false, taken := st.taken + [st.now])
    case Stop => st.(done := true)
    case StopTicker => st.(ticking := false)
    case Exit => st.(closed := true)
  }

  predicate IsRun(d: int, st: State, steps: seq<Step>)
    requires d > 0
    decreases steps
  {
    steps == [] || (Enabled(d, st, steps[0]) && IsRun(d, Do(d, st, steps[0]), steps[1..]))
  }

  function End(d: int, st: State, steps: seq<Step>): State
    requires d > 0
    decreases steps
  {
    if steps == [] then st else End(d, Do(d, st, steps[0]), steps[1..])
  }

  lemma {:induction false} RunConcat(d: int, st: State, a: seq<Step>, b: seq<Step>)
    requires d > 0
    ensures IsRun(d, st, a + b) <==> IsRun(d, st, a) && IsRun(d, End(d, st, a), b)
    ensures End(d, st, a + b) == End(d, End(d, st, a), b)
    decreases a
  {
    if a == [] {
      assert a + b == b;
    } else {
      assert (a + b)[1..] == a[1..] + b;
      hide Enabled, Do;
      RunConcat(d, Do(d, st, a[0]), a[1..], b);
    }
  }

  function Bit(b: bool): nat {
    if b then 1 else 0
  }

  function InFlight(st: State): nat {
    Bit(st.tick) + Bit(st.hand) + Bit(st.token)
  }

  // ---------- tokens by time T

  /** Every token taken, held or on its way comes from the first one or from a tick of its own. */
  predicate Accounted(d: int, st: State)
    requires d > 0
  {
    && 0 <= st.cell && st.cell * d <= st.now
    && |st.taken| + InFlight(st) <= 1 + st.cell
    && (forall i | 0 <= i < |st.taken| :: i * d <= st.taken[i] <= st.now)
  }

  lemma TakeAccounted(d: int, st: State)
    requires d > 0 && Accounted(d, st) && st.token
    ensures Accounted(d, Do(d, st, Take))
  {
    MulMonotone(|st.taken|, st.cell, d);
  }

  lemma FireAccounted(d: int, st: State)
    requires d > 0 && Accounted(d, st) && st.cell < st.now / d
    ensures Accounted(d, Do(d, st, Fire))
  {
    DivisionBelow(st.now, d);
  }

  lemma StaysAccounted(d: int, st: State, st': State)
    requires d > 0 && Accounted(d, st)
    requires st'.taken == st.taken && st'.cell == st.cell && st.now <= st'.now && InFlight(st') <= InFlight(st)
    ensures Accounted(d, st')
  {
    hide InFlight;
  }

  lemma StepAccounted(d: int, st: State, step: Step)
    requires d > 0 && Accounted(d, st) && Enabled(d, st, step)
    ensures Accounted(d, Do(d, st, step))
  {
    hide Accounted;
    match step {
      case Take => TakeAccounted(d, st);
      case Fire => FireAccounted(d, st);
      case _ => StaysAccounted(d, st, Do(d, st, step));
    }
  }

  lemma {:induction false} RunAccounted(d: int, st: State, steps: seq<Step>)
    requires d > 0 && Accounted(d, st) && IsRun(d, st, steps)
    ensures Accounted(d, End(d, st, steps))
    decreases steps
  {
    if steps != [] {
      StepAccounted(d, st, steps[0]);
      RunAccounted(d, Do(d, st, steps[0]), steps[1..]);
    }
  }

  /** By time T at most `1 + T / interval` tokens are taken: the one after the first `i` not before `i * interval`. */
  lemma TokensByTime(rate: int, steps: seq<Step>)
    requires 1 <= rate <= 1000 && IsRun(Interval(rate), INIT, steps)
    ensures var st, d := End(Interval(rate), INIT, steps), Interval(rate);
            && |st.taken| <= 1 + st.now / d
            && forall i | 0 <= i < |st.taken| :: st.taken[i] >= i * d
  {
    var d := Interval(rate);
    RunAccounted(d, INIT, steps);
    var st := End(d, INIT, steps);
    hide End, IsRun, Interval, INIT;
    QuotientAtLeast(st.cell, st.now, d);
  }

  // ---------- stopping

  /** Once the goroutine has left, it takes no tick and gives no token; only one that lies there can be taken. */
  lemma {:induction false} NothingAfterExit(d: int, st: State, steps: seq<Step>)
    requires d > 0 && st.closed && st.done && !st.hand && IsRun(d, st, steps)
    ensures Receive !in steps && Offer !in steps && Exit !in steps && Stop !in steps
    ensures |End(d, st, steps).taken| <= |st.taken| + Bit(st.token)
    decreases steps
  {
    if steps != [] {
      NothingAfterExit(d, Do(d, st, steps[0]), steps[1..]);
      assert forall s | s in steps :: s == steps[0] || s in steps[1..];
    }
  }

  lemma {:induction false} NothingFires(d: int, st: State, steps: seq<Step>)
    requires d > 0 && !st.ticking && IsRun(d, st, steps)
    ensures Fire !in steps && StopTicker !in steps
    decreases steps
  {
    if steps != [] {
      NothingFires(d, Do(d, st, steps[0]), steps[1..]);
      assert forall s | s in steps :: s == steps[0] || s in steps[1..];
    }
  }

  /**
   Stopping works: after the ticker is stopped it fires no more, and after the goroutine has left, once, at most one
   more token is taken; both happen only after the request to stop.
   */
  lemma ThrottleStops(d: int, before: seq<Step>, e: Step, after: seq<Step>)
    requires d > 0 && IsRun(d, INIT, before + ([e] + after)) && (e == StopTicker || e == Exit)
    ensures e !in after && Stop in before
    ensures e == StopTicker ==> Fire !in after
    ensures e == Exit ==> Receive !in after && Offer !in after
    ensures e == Exit ==> |End(d, INIT, before + ([e] + after)).taken| <= |End(d, INIT, before).taken| + 1
  {
    RunConcat(d, INIT, before, [e] + after);
    DoneByStop(d, INIT, before);
    var st := End(d, INIT, before);
    assert ([e] + after)[1..] == after;
    if e == Exit {
      NothingAfterExit(d, Do(d, st, e), after);
    } else {
      NothingFires(d, Do(d, st, e), after);
    }
  }

  lemma {:induction false} DoneByStop(d: int, st: State, steps: seq<Step>)
    requires d > 0 && IsRun(d, st, steps)
    ensures End(d, st, steps).done <==> st.done || Stop in steps
    decreases steps
  {
    if steps != [] {
      DoneByStop(d, Do(d, st, steps[0]), steps[1..]);
      assert forall s :: s in steps <==> s == steps[0] || s in steps[1..];
    }
  }

  // ---------- tokens in one second

  /** A tick of a past grid cell that has not fired yet: the timer is late, not merely due at this very moment. */
  predicate Overdue(d: int, st: State)
    requires d > 0
  {
    st.cell < st.now / d && st.now % d > 0
  }

  /** Undelivered ticks: one in the ticker channel, one in the hand of the goroutine, one the timer owes. */
  function Backlog(d: int, st: State): nat
    requires d > 0
  {
    Bit(st.tick) + Bit(st.hand) + Bit(Overdue(d, st))
  }

  /** The latest grid cell whose tick can no longer fire. */
  function Base(d: int, st: State): int
    requires d > 0
  {
    if st.cell < st.now / d then st.now / d - 1 else st.cell
  }

  /** Tokens that can still be taken up to grid cell `last`: those lying, those in flight, those of ticks to come. */
  function Ahead(d: int, st: State, last: int): int
    requires d > 0
  {
    Bit(st.token) + Bit(st.hand)
    + if st.closed then 0 else Bit(st.tick) + if st.ticking then last - Base(d, st) else 0
  }

  lemma QuotientMonotone(a: int, b: int, d: int)
    requires a <= b && d > 0
    ensures a / d <= b / d
  {
    DivisionBelow(a, d);
    QuotientAtLeast(a / d, b, d);
  }

  lemma StepSpends(d: int, st: State, step: Step, last: int)
    requires d > 0 && Enabled(d, st, step) && st.cell <= st.now / d
    requires Do(d, st, step).now / d <= last
    ensures |Do(d, st, step).taken| + Ahead(d, Do(d, st, step), last) <= |st.taken| + Ahead(d, st, last)
    ensures Do(d, st, step).cell <= Do(d, st, step).now / d
  {
    if step.Wait? {
      QuotientMonotone(st.now, step.until, d);
    }
  }

  lemma {:induction false} NowGrows(d: int, st: State, steps: seq<Step>)
    requires d > 0 && IsRun(d, st, steps)
    ensures st.now <= End(d, st, steps).now
    decreases steps
  {
    if steps != [] {
      assert st.now <= Do(d, st, steps[0]).now;
      hide Do, Enabled;
      NowGrows(d, Do(d, st, steps[0]), steps[1..]);
    }
  }

  lemma {:induction false} RunSpends(d: int, st: State, steps: seq<Step>, last: int)
    requires d > 0 && IsRun(d, st, steps) && st.cell <= st.now / d
    requires End(d, st, steps).now / d <= last
    ensures |End(d, st, steps).taken| <= |st.taken| + Ahead(d, st, last)
    decreases steps
  {
    if steps != [] {
      var next := Do(d, st, steps[0]);
      NowGrows(d, next, steps[1..]);
      QuotientMonotone(next.now, End(d, next, steps[1..]).now, d);
      StepSpends(d, st, steps[0], last);
      hide Ahead, Enabled, Do;
      RunSpends(d, next, steps[1..], last);
    }
  }

  /** Grid cells from `s` to one second later: at most `rate` more if `s` is on the grid, else `rate + 1` more. */
  lemma CellsInSecond(rate: int, s: int)
    requires 1 <= rate <= 1000
    ensures var d := Interval(rate);
            && (s + SECOND) / d <= s / d + rate + 1
            && (s % d == 0 ==> (s + SECOND) / d <= s / d + rate)
  {
    var d := Interval(rate);
    IntervalFitsRateTimes(rate);
    CellsInSpan(rate, d, s, SECOND);
  }

  lemma CellsInSpan(n: int, d: int, s: int, span: int)
    requires d > 0 && span < (n + 1) * d
    ensures (s + span) / d <= s / d + n + 1
    ensures s % d == 0 ==> (s + span) / d <= s / d + n
  {
    var q := s / d;
    DivisionBelow(s, d);
    assert (q + (n + 2)) * d == q * d + (n + 1) * d + d;
    assert (q + (n + 1)) * d == q * d + (n + 1) * d;
    BelowQuotient(q + n + 2, s + span, d);
    if s % d == 0 {
      assert s == q * d;
      BelowQuotient(q + n + 1, s + span, d);
    }
  }

  lemma BelowQuotient(q: int, n: int, d: int)
    requires d > 0 && n < q * d
    ensures n / d < q
  {
    if q <= n / d {
      MulMonotone(q, n / d, d);
      DivisionBelow(n, d);
      assert false;
    }
  }

  /** Tokens that the closed second after a state can see. */
  function Most(rate: int, st: State): int
    requires rate > 0
  {
    Ahead(Interval(rate), st, (st.now + SECOND) / Interval(rate))
  }

  /** No run takes more of them. */
  lemma AtMostMost(rate: int, st: State, steps: seq<Step>)
    requires 1 <= rate <= 1000 && Accounted(Interval(rate), st) && IsRun(Interval(rate), st, steps)
    requires End(Interval(rate), st, steps).now <= st.now + SECOND
    ensures |End(Interval(rate), st, steps).taken| - |st.taken| <= Most(rate, st)
  {
    var d := Interval(rate);
    QuotientAtLeast(st.cell, st.now, d);
    QuotientMonotone(End(d, st, steps).now, st.now + SECOND, d);
    RunSpends(d, st, steps, (st.now + SECOND) / d);
  }

  /**
   From any state reached by time `s`, the tokens taken in the closed second that starts there are at most
   `rate + 2` and the backlog of undelivered ticks.
   */
  lemma TokensInSecond(rate: int, st: State, steps: seq<Step>)
    requires 1 <= rate <= 1000 && Accounted(Interval(rate), st) && IsRun(Interval(rate), st, steps)
    requires End(Interval(rate), st, steps).now <= st.now + SECOND
    ensures |End(Interval(rate), st, steps).taken| - |st.taken| <= rate + 2 + Backlog(Interval(rate), st)
  {
    AtMostMost(rate, st, steps);
    CellsInSecond(rate, st.now);
    QuotientAtLeast(st.cell, st.now, Interval(rate));
    hide IsRun, End, Interval, Accounted;
  }

  /** The most tokens any closed second of a run can see. */
  function LeastBound(rate: int): int
    requires rate > 0
  {
    if rate * Interval(rate) == SECOND then rate + 4 else rate + 5
  }

  lemma MostIsBounded(rate: int, st: State)
    requires 1 <= rate <= 1000 && Accounted(Interval(rate), st)
    ensures Most(rate, st) <= LeastBound(rate)
  {
    var d := Interval(rate);
    CellsInSecond(rate, st.now);
    QuotientAtLeast(st.cell, st.now, d);
    if rate * d == SECOND {
      WholeCells(st.now, rate, d);
    }
    hide Interval, Accounted;
  }

  lemma WholeCells(n: int, k: int, d: int)
    requires d > 0
    ensures (n + k * d) / d == n / d + k
  {
    var q := n / d;
    DivisionBelow(n, d);
    assert (q + k) * d == q * d + k * d && (q + k + 1) * d == q * d + k * d + d;
    QuotientAtLeast(q + k, n + k * d, d);
    BelowQuotient(q + k + 1, n + k * d, d);
  }

  /** Where a run takes its token number `n`, counting from 0. */
  lemma {:induction false} SplitAtTake(d: int, st: State, steps: seq<Step>, n: nat) returns (p: nat)
    requires d > 0 && IsRun(d, st, steps) && |st.taken| <= n < |End(d, st, steps).taken|
    ensures p < |steps| && steps[p] == Take && IsRun(d, st, steps[..p])
    ensures IsRun(d, End(d, st, steps[..p]), steps[p..])
    ensures End(d, End(d, st, steps[..p]), steps[p..]) == End(d, st, steps)
    ensures |End(d, st, steps[..p]).taken| == n
    ensures End(d, st, steps[..p]).now == End(d, st, steps).taken[n]
    ensures st.taken <= End(d, st, steps).taken
    decreases steps
  {
    var next := Do(d, st, steps[0]);
    OnlyTakeTakes(d, st, steps[0]);
    TakenGrows(d, next, steps[1..]);
    hide Do, Enabled;
    if steps[0] == Take && |st.taken| == n {
      p := 0;
      assert steps[0..] == steps && steps[..0] == [];
    } else {
      hide End;
      var q := SplitAtTake(d, next, steps[1..], n);
      p := q + 1;
      PrefixUnfolds(d, st, steps, q);
    }
  }

  lemma OnlyTakeTakes(d: int, st: State, step: Step)
    requires d > 0
    ensures step == Take ==> Do(d, st, step).taken == st.taken + [st.now]
    ensures step != Take ==> Do(d, st, step).taken == st.taken
  {
  }

  lemma PrefixUnfolds(d: int, st: State, steps: seq<Step>, q: nat)
    requires d > 0 && steps != [] && q < |steps| - 1
    ensures var next := Do(d, st, steps[0]);
            && IsRun(d, st, steps[..q + 1]) == (Enabled(d, st, steps[0]) && IsRun(d, next, steps[1..][..q]))
            && End(d, st, steps[..q + 1]) == End(d, next, steps[1..][..q])
            && End(d, st, steps) == End(d, next, steps[1..])
            && steps[q + 1..] == steps[1..][q..]
  {
    assert steps[..q + 1][1..] == steps[1..][..q];
    hide Do, Enabled;
  }

  lemma {:induction false} TakenGrows(d: int, st: State, steps: seq<Step>)
    requires d > 0
    ensures st.taken <= End(d, st, steps).taken
    decreases steps
  {
    if steps != [] {
      OnlyTakeTakes(d, st, steps[0]);
      hide Do;
      TakenGrows(d, Do(d, st, steps[0]), steps[1..]);
    }
  }

  /** In no run do more than `LeastBound` tokens fall into one closed second, wherever it starts. */
  lemma TokensInAnySecond(rate: int, steps: seq<Step>, i: nat, j: nat)
    requires 1 <= rate <= 1000 && IsRun(Interval(rate), INIT, steps)
    requires i <= j < |End(Interval(rate), INIT, steps).taken|
    requires End(Interval(rate), INIT, steps).taken[j] - End(Interval(rate), INIT, steps).taken[i] <= SECOND
    ensures j - i + 1 <= LeastBound(rate)
  {
    var d := Interval(rate);
    assert Accounted(d, INIT);
    var p := SplitAtTake(d, INIT, steps, i);
    var from := End(d, INIT, steps[..p]);
    RunAccounted(d, INIT, steps[..p]);
    var q := SplitAtTake(d, from, steps[p..], j);
    var part := steps[p..][..q];
    var to := End(d, from, part);
    hide IsRun, End, Interval, Accounted, INIT;
    OneMoreTake(d, from, part, steps[p..][q..]);
    AtMostMost(rate, from, part + [Take]);
    MostIsBounded(rate, from);
  }

  lemma OneMoreTake(d: int, st: State, part: seq<Step>, rest: seq<Step>)
    requires d > 0 && IsRun(d, st, part) && IsRun(d, End(d, st, part), rest) && |rest| > 0 && rest[0] == Take
    ensures IsRun(d, st, part + [Take])
    ensures |End(d, st, part + [Take]).taken| == |End(d, st, part).taken| + 1
    ensures End(d, st, part + [Take]).now == End(d, st, part).now
  {
    assert [Take][1..] == [];
    RunConcat(d, st, part, [Take]);
  }

  // ---------- what can be taken is taken by some run

  predicate Leads(d: int, st: State, steps: seq<Step>, end: State)
    requires d > 0
  {
    IsRun(d, st, steps) && End(d, st, steps) == end
  }

  lemma Then(d: int, st: State, steps: seq<Step>, end: State, step: Step) returns (longer: seq<Step>, next: State)
    requires d > 0 && Leads(d, st, steps, end) && Enabled(d, end, step)
    ensures next == Do(d, end, step) && Leads(d, st, longer, next)
  {
    longer, next := steps + [step], Do(d, end, step);
    RunConcat(d, st, steps, [step]);
    assert [step][1..] == [];
    hide Do, Enabled;
  }

  lemma GridCell(m: int, d: int)
    requires d > 0
    ensures m * d / d == m
  {
    WholeCells(0, m, d);
  }

  /** All ticks up to now have fired and their tokens are taken; the throttle runs. */
  predicate Quiet(d: int, st: State)
    requires d > 0
  {
    st.cell == st.now / d && InFlight(st) == 0 && st.ticking && !st.closed
  }

  /** A tick that can fire reaches a worker at once when nothing is in its way. */
  lemma Delivered(d: int, st: State, steps: seq<Step>, mid: State) returns (longer: seq<Step>, end: State)
    requires d > 0 && Leads(d, st, steps, mid)
    requires mid.cell < mid.now / d && InFlight(mid) == 0 && mid.ticking && !mid.closed
    ensures Leads(d, st, longer, end) && Quiet(d, end) && end.now == mid.now && |end.taken| == |mid.taken| + 1
  {
    hide Leads;
    longer, end := Then(d, st, steps, mid, Fire);
    longer, end := Then(d, st, longer, end, Receive);
    longer, end := Then(d, st, longer, end, Offer);
    longer, end := Then(d, st, longer, end, Take);
  }

  /** Tokens lying and in flight are all taken at once, as far as the goroutine is still there. */
  lemma Drained(d: int, st: State) returns (steps: seq<Step>, end: State)
    requires d > 0
    ensures Leads(d, st, steps, end) && !end.token && !end.hand && (!end.closed ==> !end.tick)
    ensures end == st.(token := false, hand := false, tick := end.tick, taken := end.taken)
    ensures |end.taken| == |st.taken| + Bit(st.token) + Bit(st.hand) + if st.closed then 0 else Bit(st.tick)
  {
    assert Leads(d, st, [], st);
    hide Leads;
    steps, end := [], st;
    if st.token {
      steps, end := Then(d, st, steps, end, Take);
    }
    if st.hand {
      steps, end := Then(d, st, steps, end, Offer);
      steps, end := Then(d, st, steps, end, Take);
    }
    if st.tick && !st.closed {
      steps, end := Then(d, st, steps, end, Receive);
      steps, end := Then(d, st, steps, end, Offer);
      steps, end := Then(d, st, steps, end, Take);
    }
  }

  /** Then one token for each of the next `n` ticks, the moment it is due. */
  lemma {:induction false} Steady(d: int, st: State, steps: seq<Step>, mid: State, n: nat)
    returns (longer: seq<Step>, end: State)
    requires d > 0 && Leads(d, st, steps, mid) && Quiet(d, mid)
    ensures Leads(d, st, longer, end) && |end.taken| == |mid.taken| + n
    ensures end.now == if n == 0 then mid.now else (mid.cell + n) * d
    decreases n
  {
    if n == 0 {
      longer, end := steps, mid;
    } else {
      var due := mid.cell + 1;
      DivisionBelow(mid.now, d);
      GridCell(due, d);
      assert due * d == mid.cell * d + d;
      longer, end := Then(d, st, steps, mid, Wait(due * d));
      hide Leads;
      longer, end := Delivered(d, st, longer, end);
      longer, end := Steady(d, st, longer, end, n - 1);
    }
  }

  /** Some run takes exactly what the second after a state can see. */
  lemma MostIsReached(rate: int, st: State) returns (steps: seq<Step>)
    requires 1 <= rate <= 1000 && Accounted(Interval(rate), st)
    ensures IsRun(Interval(rate), st, steps) && End(Interval(rate), st, steps).now <= st.now + SECOND
    ensures |End(Interval(rate), st, steps).taken| - |st.taken| == Most(rate, st)
  {
    var d := Interval(rate);
    var last := (st.now + SECOND) / d;
    QuotientAtLeast(st.cell, st.now, d);
    QuotientMonotone(st.now, st.now + SECOND, d);
    DivisionBelow(st.now + SECOND, d);
    hide Interval, Accounted, Leads;
    var end;
    steps, end := Drained(d, st);
    if st.ticking && !st.closed {
      if end.cell < end.now / d {
        steps, end := Delivered(d, st, steps, end);
      }
      steps, end := Steady(d, st, steps, end, last - st.now / d);
      assert st.now / d + (last - st.now / d) == last;
    }
    LeadsIs(d, st, steps, end);
  }

  lemma LeadsIs(d: int, st: State, steps: seq<Step>, end: State)
    requires d > 0 && Leads(d, st, steps, end)
    ensures IsRun(d, st, steps) && End(d, st, steps) == end
  {
  }

  /** No run of one second from here takes more than `rate + 2` tokens. */
  ghost predicate KeepsToRate(rate: int, st: State)
    requires 1 <= rate
  {
    var d := Interval(rate);
    forall steps | IsRun(d, st, steps) && End(d, st, steps).now <= st.now + SECOND ::
      |End(d, st, steps).taken| - |st.taken| <= rate + 2
  }

  /** `rate + 2` bounds the next second of every run exactly if no more than that many tokens can still come in it. */
  lemma RatePlusTwoExactly(rate: int, st: State)
    requires 1 <= rate <= 1000 && Accounted(Interval(rate), st)
    ensures KeepsToRate(rate, st) <==> Most(rate, st) <= rate + 2
  {
    var d := Interval(rate);
    var most := MostIsReached(rate, st);
    hide Interval, Accounted, Most;
    if Most(rate, st) <= rate + 2 {
      forall steps | IsRun(d, st, steps) && End(d, st, steps).now <= st.now + SECOND
        ensures |End(d, st, steps).taken| - |st.taken| <= rate + 2
      {
        AtMostMost(rate, st, steps);
      }
    }
  }

  /**
   The bound over whole runs cannot be lowered for any rate: two ticks that lag, a third that is late and a token
   left lying are all taken in one second together with the ticks that fall into it.
   */
  lemma LeastBoundIsReached(rate: int) returns (before: seq<Step>, steps: seq<Step>)
    requires 1 <= rate <= 1000
    ensures var d := Interval(rate);
            && IsRun(d, INIT, before) && IsRun(d, End(d, INIT, before), steps)
            && End(d, End(d, INIT, before), steps).now <= End(d, INIT, before).now + SECOND
            && |End(d, End(d, INIT, before), steps).taken| - |End(d, INIT, before).taken| == LeastBound(rate)
  {
    var d := Interval(rate);
    var st;
    before, st := Lagging(d) by {
      IntervalFitsRateTimes(rate);
    }
    LeadsIs(d, INIT, before, st);
    RunAccounted(d, INIT, before);
    LaggingMost(rate, st);
    hide Interval, INIT, Accounted;
    steps := MostIsReached(rate, st);
  }

  predicate Laggard(d: int, st: State)
    requires d > 0
  {
    st.now == 4 * d - 1 && st.cell == 2 && st.tick && st.hand && st.token && st.ticking && !st.closed
  }

  lemma Lagging(d: int) returns (before: seq<Step>, st: State)
    requires d > 1
    ensures Leads(d, INIT, before, st) && Laggard(d, st)
  {
    GridCell(1, d);
    GridCell(2, d);
    assert Leads(d, INIT, [], INIT);
    st := INIT;
    before, st := Then(d, INIT, [], st, Wait(1 * d));
    before, st := Then(d, INIT, before, st, Fire);
    before, st := Then(d, INIT, before, st, Receive);
    before, st := Then(d, INIT, before, st, Wait(2 * d));
    before, st := Then(d, INIT, before, st, Fire);
    before, st := Then(d, INIT, before, st, Wait(4 * d - 1));
  }

  lemma LaggingMost(rate: int, st: State)
    requires 1 <= rate <= 1000 && Laggard(Interval(rate), st)
    ensures Most(rate, st) == LeastBound(rate)
  {
    var d := Interval(rate);
    IntervalFitsRateTimes(rate);
    assert 3 * d + (d - 1) == 4 * d - 1 && (rate + 1) * d == rate * d + d;
    Quotient(3, d - 1, d);
    if rate * d == SECOND {
      WholeCells(4 * d - 1, rate, d);
    } else {
      assert (rate + 4) * d == rate * d + 4 * d;
      Quotient(rate + 4, SECOND - rate * d - 1, d);
    }
    hide Interval;
  }

  lemma Quotient(q: int, r: int, d: int)
    requires 0 <= r < d
    ensures (q * d + r) / d == q
  {
    WholeCells(r, q, d);
    BelowQuotient(1, r, d);
    QuotientAtLeast(0, r, d);
  }
}
