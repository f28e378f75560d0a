/**
 The token provider of the server: a value with an expiry behind a read-write lock, refreshed by flights that
 other callers join. Every clock reading, every lock section and every operation of the flight group is one step,
 and any number of callers interleave. Times are nanoseconds, and 0 is the zero time.
 */
module TokenCache {
  import opened Common

  /** One load: the clock reading recorded for it, and when it really began and finished. */
  datatype Load = Load(start: int, begun: int, finish: int)

  function Ttl(configured: int): (ttl: int)
    ensures ttl > 0
    ensures ttl == configured <==> configured > 0
    ensures configured <= 0 ==> ttl == 2_000_000_000
  {
    if configured <= 0 then 2_000_000_000 else configured
  }

  /** A flight: what the leader has done so far. `settled` is when its result was decided. */
  datatype Flight =
    | Starting
    | Timed(at: int)
    | Loading(at: int, begun: int)
    | Loaded(load: Load)
    | Done(load: Load, cached: bool, settled: int)

  datatype How = Hit | Led | Shared(whileLoading: bool)

  datatype Caller =
    | Began(began: int)
    | Missed(began: int)
    | Leads(began: int)
    | Joined(began: int, flight: nat, whileLoading: bool)
    | Returned(began: int, how: How, load: Load, settled: int)

  datatype State = State(
    now: int,
    value: Option<Load>,
    expiresAt: int,
    leader: Option<nat>,
    flights: seq<Flight>,
    callers: seq<Caller>,
    loads: seq<Load>)

  function Init(now: int): State {
    State(now, None, 0, None, [], [], [])
  }

  datatype Step =
    | Wait(until: int)
    | Call
    | Read(caller: nat)
    | Enter(caller: nat)
    | ReadClock
    | Look
    | LoadEnds
    | Store
    | Land
    | Wake(caller: nat)

  function Last(st: State): Flight
    requires st.flights != []
  {
    st.flights[|st.flights| - 1]
  }

  predicate Flying(st: State) {
    st.leader.Some? && st.flights != []
  }

  predicate Enabled(st: State, step: Step) {
    match step
    case Wait(until) => st.now <= until
    case Call => true
    case Read(c) => c < |st.callers| && st.callers[c].Began? && (st.callers[c].began < st.expiresAt ==> st.value.Some?)
    case Enter(c) => c < |st.callers| && st.callers[c].Missed? && (st.leader.Some? ==> st.flights != [])
    case ReadClock => Flying(st) && Last(st).Starting?
    case Look => Flying(st) && Last(st).Timed? && (Last(st).at < st.expiresAt ==> st.value.Some?)
    case LoadEnds => Flying(st) && Last(st).Loading?
    case Store => Flying(st) && Last(st).Loaded?
    case Land =>
      Flying(st) && Last(st).Done? && st.leader.value < |st.callers| && st.callers[st.leader.value].Leads?
    case Wake(c) =>
      && c < |st.callers| && st.callers[c].Joined? && st.callers[c].flight < |st.flights|
      && st.flights[st.callers[c].flight].Done?
      && (st.leader.Some? ==> st.callers[c].flight < |st.flights| - 1)
  }

  function SetLast(st: State, flight: Flight): State
    requires st.flights != []
  {
    st.(flights := st.flights[|st.flights| - 1 := flight])
  }

  function Do(ttl: int, st: State, step: Step): State
    requires Enabled(st, step)
  {
    match step
    case Wait(until) => st.(now := until)
    case Call => st.(callers := st.callers + [Began(st.now)])
    case Read(c) =>
      var began := st.callers[c].began;
      st.(callers := st.callers[c := if began < st.expiresAt then Returned(began, Hit, st.value.value, began)
                                     else Missed(began)])
    case Enter(c) =>
      var began := st.callers[c].began;
      if st.leader.Some? then
        st.(callers := st.callers[c := Joined(began, |st.flights| - 1, Last(st).Loading?)])
      else
        st.(leader := Some(c), flights := st.flights + [Starting], callers := st.callers[c := Leads(began)])
    case ReadClock => SetLast(st, Timed(st.now))
    case Look =>
      var at := Last(st).at;
      SetLast(st, if at < st.expiresAt then Done(st.value.value, true, at) else Loading(at, st.now))
    case LoadEnds => SetLast(st, Loaded(Load(Last(st).at, Last(st).begun, st.now)))
    case Store =>
      var load := Last(st).load;
      SetLast(st.(value := Some(load), expiresAt := load.start + ttl, loads := st.loads + [load]),
              Done(load, false, load.finish))
    case Land =>
      var c, flight := st.leader.value, Last(st);
      st.(leader := None,
          callers := st.callers[c := Returned(st.callers[c].began, Led, flight.load, flight.settled)])
    case Wake(c) =>
      var flight := st.flights[st.callers[c].flight];
      st.(callers := st.callers[c := Returned(st.callers[c].began, Shared(st.callers[c].whileLoading), flight.load,
                                              flight.settled)])
  }

  predicate IsRun(ttl: int, st: State, steps: seq<Step>)
    decreases steps
  {
    steps == [] || (Enabled(st, steps[0]) && IsRun(ttl, Do(ttl, st, steps[0]), steps[1..]))
  }

  function End(ttl: int, st: State, steps: seq<Step>): State
    requires IsRun(ttl, st, steps)
    decreases steps
  {
    if steps == [] then st else End(ttl, Do(ttl, st, steps[0]), steps[1..])
  }

  // ---------- what every interleaving keeps

  predicate Timely(load: Load, now: int) {
    0 < load.start <= load.begun <= load.finish <= now
  }

  /** Loads one after the other, their recorded starts at least `ttl` apart. */
  predicate Spaced(ttl: int, loads: seq<Load>, now: int) {
    && (forall i | 0 <= i < |loads| :: Timely(loads[i], now))
    && (forall i | 0 <= i < |loads| - 1 ::
          loads[i].finish <= loads[i + 1].begun && loads[i].start + ttl <= loads[i + 1].start)
  }

  /** The cache holds the latest load until `ttl` after its recorded start. */
  predicate CacheOk(ttl: int, st: State) {
    && Spaced(ttl, st.loads, st.now)
    && (if st.loads == [] then st.value == None && st.expiresAt == 0
        else st.value == Some(st.loads[|st.loads| - 1]) && st.expiresAt == st.loads[|st.loads| - 1].start + ttl)
  }

  predicate LandedOk(ttl: int, flight: Flight, now: int) {
    flight.Done? && Timely(flight.load, now) && flight.settled <= now && flight.settled < flight.load.finish + ttl
    && (!flight.cached ==> flight.settled == flight.load.finish)
  }

  /** The next load of a flight cannot start before the cached value has expired, nor before the last one finished. */
  predicate MayLoad(st: State, start: int, begun: int) {
    && 0 < start <= begun && st.expiresAt <= start
    && (st.loads == [] || st.loads[|st.loads| - 1].finish <= begun)
  }

  predicate FlightOk(ttl: int, st: State, flight: Flight) {
    match flight
    case Starting => true
    case Timed(at) => 0 < at <= st.now
    case Loading(at, begun) => MayLoad(st, at, begun) && begun <= st.now
    case Loaded(load) => MayLoad(st, load.start, load.begun) && Timely(load, st.now)
    case Done(_, _, _) => LandedOk(ttl, flight, st.now)
  }

  predicate FlightsOk(ttl: int, st: State) {
    && (st.leader.Some? ==> st.flights != [] && FlightOk(ttl, st, Last(st)))
    && forall i | 0 <= i < |st.flights| - (if st.leader.Some? then 1 else 0) :: LandedOk(ttl, st.flights[i], st.now)
  }

  /** The leader called before its flight read the clock. */
  predicate LeaderOk(st: State, began: int) {
    st.flights != [] &&
    match Last(st)
    case Starting => began <= st.now
    case Timed(at) => began <= at
    case Loading(at, _) => began <= at
    case Loaded(load) => began <= load.start
    case Done(_, _, settled) => began <= settled
  }

  /** Who joined a load that was running is served by a load that finished later. */
  predicate JoinerOk(flight: Flight, began: int) {
    match flight
    case Loading(_, begun) => true
    case Loaded(load) => began <= load.finish
    case Done(load, cached, _) => !cached && began <= load.finish
    case _ => false
  }

  predicate CallerOk(ttl: int, st: State, k: nat, caller: Caller) {
    && caller.began <= st.now
    && match caller
       case Leads(began) => st.leader == Some(k) && LeaderOk(st, began)
       case Joined(began, f, whileLoading) => f < |st.flights| && (whileLoading ==> JoinerOk(st.flights[f], began))
       case Returned(began, how, load, settled) =>
         && Timely(load, st.now) && settled < load.finish + ttl
         && (!how.Shared? ==> began <= settled)
         && (how == Shared(true) ==> began <= load.finish)
       case _ => true
  }

  ghost predicate Good(ttl: int, st: State) {
    && ttl > 0 && st.now > 0 && CacheOk(ttl, st) && FlightsOk(ttl, st)
    && (st.leader.Some? ==> st.leader.value < |st.callers| && st.callers[st.leader.value].Leads?)
    && forall k: nat | k < |st.callers| :: CallerOk(ttl, st, k, st.callers[k])
  }

  /** Steps of the flight itself; all others are steps of a caller or of the clock. */
  predicate FlightStep(step: Step) {
    step == ReadClock || step == Look || step == LoadEnds || step == Store
  }

  /** A step of a caller or of the clock leaves the cache and every flight as they are; a new one is at its start. */
  lemma CallerStepFrame(ttl: int, st: State, step: Step)
    requires Enabled(st, step) && !FlightStep(step)
    ensures var st' := Do(ttl, st, step);
            && st'.now >= st.now && st'.value == st.value && st'.expiresAt == st.expiresAt && st'.loads == st.loads
            && (if step.Enter? && st.leader.None? then
                  st'.leader == Some(step.caller) && st'.flights == st.flights + [Starting]
                else st'.flights == st.flights && st'.leader == if step.Land? then None else st.leader)
  {
  }

  lemma FlightStepFrame(ttl: int, st: State, step: Step)
    requires Enabled(st, step) && FlightStep(step)
    ensures var st' := Do(ttl, st, step);
            && st'.now == st.now && st'.callers == st.callers && st'.leader == st.leader
            && st'.flights == st.flights[|st.flights| - 1 := Last(st')]
            && (step != Store ==> st'.value == st.value && st'.expiresAt == st.expiresAt && st'.loads == st.loads)
  {
  }

  lemma StoreKeepsCache(ttl: int, st: State)
    requires Good(ttl, st) && Enabled(st, Store)
    ensures CacheOk(ttl, Do(ttl, st, Store))
  {
  }

  lemma CacheKept(ttl: int, st: State, step: Step)
    requires Good(ttl, st) && Enabled(st, step)
    ensures CacheOk(ttl, Do(ttl, st, step)) && Do(ttl, st, step).now >= st.now
  {
    if FlightStep(step) {
      FlightStepFrame(ttl, st, step);
      if step == Store {
        StoreKeepsCache(ttl, st);
      }
    } else {
      CallerStepFrame(ttl, st, step);
    }
    hide Do, Enabled;
  }

  /** What the leader does next is right for its flight. */
  lemma LastKept(ttl: int, st: State, step: Step)
    requires Good(ttl, st) && Enabled(st, step) && FlightStep(step)
    ensures FlightOk(ttl, Do(ttl, st, step), Last(Do(ttl, st, step)))
  {
    if st.loads != [] {
      assert Timely(st.loads[|st.loads| - 1], st.now);
    }
    hide Spaced;
  }

  lemma LandedStays(ttl: int, flights: seq<Flight>, n: nat, now: int, later: int)
    requires n <= |flights| && now <= later && forall i | 0 <= i < n :: LandedOk(ttl, flights[i], now)
    ensures forall i | 0 <= i < n :: LandedOk(ttl, flights[i], later)
  {
  }

  lemma FlightsKept(ttl: int, st: State, step: Step)
    requires Good(ttl, st) && Enabled(st, step)
    ensures FlightsOk(ttl, Do(ttl, st, step))
  {
    var st' := Do(ttl, st, step);
    if FlightStep(step) {
      FlightStepFrame(ttl, st, step);
      LastKept(ttl, st, step);
      hide Do, Enabled, FlightOk, LandedOk, CacheOk;
      assert forall i | 0 <= i < |st'.flights| - 1 :: st'.flights[i] == st.flights[i];
    } else {
      CallerStepFrame(ttl, st, step);
      assert step.Land? ==> Last(st).Done?;
      LandedStays(ttl, st.flights, |st.flights| - (if st.leader.Some? then 1 else 0), st.now, st'.now);
      hide Do, Enabled, CacheOk;
      assert forall i | 0 <= i < |st.flights| :: st'.flights[i] == st.flights[i];
    }
  }

  /** A caller that the step does not move. */
  lemma BystanderKept(ttl: int, st: State, st': State, k: nat)
    requires Good(ttl, st) && k < |st.callers| && k < |st'.callers| && st'.callers[k] == st.callers[k]
    requires st'.now >= st.now
    requires st'.leader == st.leader || (!st.callers[k].Leads?)
    requires st'.flights == st.flights || (st.leader.None? && st'.flights == st.flights + [Starting])
    ensures CallerOk(ttl, st', k, st'.callers[k])
  {
    assert CallerOk(ttl, st, k, st.callers[k]);
    hide CacheOk, FlightsOk;
  }

  lemma CallerKeptByFlight(ttl: int, st: State, step: Step, k: nat)
    requires Good(ttl, st) && Enabled(st, step) && FlightStep(step) && k < |st.callers|
    ensures CallerOk(ttl, Do(ttl, st, step), k, Do(ttl, st, step).callers[k])
  {
    assert CallerOk(ttl, st, k, st.callers[k]);
    FlightStepFrame(ttl, st, step);
    hide CacheOk, FlightsOk, Good;
  }

  /** The caller a step moves, or the one that arrives. */
  function Mover(st: State, step: Step): nat
    requires Enabled(st, step)
  {
    match step
    case Read(c) => c
    case Enter(c) => c
    case Wake(c) => c
    case Land => st.leader.value
    case _ => |st.callers|
  }

  lemma ReadKept(ttl: int, st: State, c: nat)
    requires Good(ttl, st) && Enabled(st, Read(c))
    ensures CallerOk(ttl, Do(ttl, st, Read(c)), c, Do(ttl, st, Read(c)).callers[c])
  {
    assert CallerOk(ttl, st, c, st.callers[c]);
    if st.loads != [] {
      assert Timely(st.loads[|st.loads| - 1], st.now);
    }
    hide FlightsOk, Spaced;
  }

  lemma EnterKept(ttl: int, st: State, c: nat)
    requires Good(ttl, st) && Enabled(st, Enter(c))
    ensures CallerOk(ttl, Do(ttl, st, Enter(c)), c, Do(ttl, st, Enter(c)).callers[c])
  {
    assert CallerOk(ttl, st, c, st.callers[c]);
    hide CacheOk, FlightsOk;
  }

  lemma LandKept(ttl: int, st: State)
    requires Good(ttl, st) && Enabled(st, Land)
    ensures var c := st.leader.value; CallerOk(ttl, Do(ttl, st, Land), c, Do(ttl, st, Land).callers[c])
  {
    assert CallerOk(ttl, st, st.leader.value, st.callers[st.leader.value]);
    hide CacheOk;
  }

  lemma WakeKept(ttl: int, st: State, c: nat)
    requires Good(ttl, st) && Enabled(st, Wake(c))
    ensures CallerOk(ttl, Do(ttl, st, Wake(c)), c, Do(ttl, st, Wake(c)).callers[c])
  {
    assert CallerOk(ttl, st, c, st.callers[c]);
    assert LandedOk(ttl, st.flights[st.callers[c].flight], st.now);
    hide CacheOk;
  }

  lemma MoverFrame(ttl: int, st: State, step: Step, k: nat)
    requires Good(ttl, st) && Enabled(st, step) && !FlightStep(step) && k < |Do(ttl, st, step).callers|
    requires k != Mover(st, step)
    ensures k < |st.callers| && Do(ttl, st, step).callers[k] == st.callers[k]
    ensures Do(ttl, st, step).leader == st.leader || !st.callers[k].Leads?
  {
    if k < |st.callers| {
      assert CallerOk(ttl, st, k, st.callers[k]);
    }
    hide CacheOk, FlightsOk;
  }

  lemma CallerKept(ttl: int, st: State, step: Step, k: nat)
    requires Good(ttl, st) && Enabled(st, step) && k < |Do(ttl, st, step).callers|
    ensures CallerOk(ttl, Do(ttl, st, step), k, Do(ttl, st, step).callers[k])
  {
    if FlightStep(step) {
      FlightStepFrame(ttl, st, step);
      CallerKeptByFlight(ttl, st, step, k);
    } else if k != Mover(st, step) {
      MoverFrame(ttl, st, step, k);
      CallerStepFrame(ttl, st, step);
      hide Do, Enabled, Good, CallerOk;
      BystanderKept(ttl, st, Do(ttl, st, step), k);
    } else {
      match step {
        case Read(c) => ReadKept(ttl, st, c);
        case Enter(c) => EnterKept(ttl, st, c);
        case Land => LandKept(ttl, st);
        case Wake(c) => WakeKept(ttl, st, c);
        case _ =>
      }
      hide Good;
    }
  }

  lemma StepKeepsGood(ttl: int, st: State, step: Step)
    requires Good(ttl, st) && Enabled(st, step)
    ensures Good(ttl, Do(ttl, st, step))
  {
    var st' := Do(ttl, st, step);
    CacheKept(ttl, st, step);
    FlightsKept(ttl, st, step);
    assert st'.leader.Some? ==> st'.leader.value < |st'.callers| && st'.callers[st'.leader.value].Leads?;
    hide Do, Enabled, CallerOk, CacheOk, FlightsOk;
    forall k: nat | k < |st'.callers| ensures CallerOk(ttl, st', k, st'.callers[k]) {
      CallerKept(ttl, st, step, k);
    }
  }

  lemma {:induction false} RunKeepsGood(ttl: int, st: State, steps: seq<Step>)
    requires Good(ttl, st) && IsRun(ttl, st, steps)
    ensures Good(ttl, End(ttl, st, steps))
    decreases steps
  {
    if steps != [] {
      StepKeepsGood(ttl, st, steps[0]);
      hide Good, Do, Enabled;
      RunKeepsGood(ttl, Do(ttl, st, steps[0]), steps[1..]);
    }
  }

  // ---------- the promises

  /** The value was not older than `ttl` when the call began, counted from the end of its load. */
  predicate Fresh(ttl: int, began: int, load: Load) {
    began <= load.finish + ttl
  }

  /** Loads never overlap, not even with one still running, and their recorded starts are at least `ttl` apart. */
  lemma LoadsAreSpaced(ttl: int, begin: int, steps: seq<Step>)
    requires ttl > 0 && begin > 0 && IsRun(ttl, Init(begin), steps)
    ensures var st := End(ttl, Init(begin), steps);
            && Spaced(ttl, st.loads, st.now)
            && (Flying(st) && Last(st).Loading? && st.loads != [] ==>
                  var latest := st.loads[|st.loads| - 1];
                  latest.finish <= Last(st).begun && latest.start + ttl <= Last(st).at)
  {
    RunKeepsGood(ttl, Init(begin), steps);
  }

  /**
   Every call that hits the cache, leads a flight or joins a running load returns a fresh value. So does one that
   joins a flight whose result is decided after the call began; a result decided earlier is stale by less than
   the time it was left lying.
   */
  lemma ResultsAreFresh(ttl: int, begin: int, steps: seq<Step>, k: nat)
    requires ttl > 0 && begin > 0 && IsRun(ttl, Init(begin), steps)
    requires k < |End(ttl, Init(begin), steps).callers| && End(ttl, Init(begin), steps).callers[k].Returned?
    ensures var c := End(ttl, Init(begin), steps).callers[k];
            && (c.how != Shared(false) || c.began <= c.settled ==> Fresh(ttl, c.began, c.load))
            && c.settled < c.load.finish + ttl
  {
    RunKeepsGood(ttl, Init(begin), steps);
    var st := End(ttl, Init(begin), steps);
    assert CallerOk(ttl, st, k, st.callers[k]);
  }

  // ---------- exactly which calls may be served a stale value

  predicate LeadsTo(ttl: int, st: State, steps: seq<Step>, end: State) {
    IsRun(ttl, st, steps) && End(ttl, st, steps) == end
  }

  lemma {:induction false} Snoc(ttl: int, st: State, steps: seq<Step>, end: State, step: Step)
    requires LeadsTo(ttl, st, steps, end) && Enabled(end, step)
    ensures LeadsTo(ttl, st, steps + [step], Do(ttl, end, step))
    decreases steps
  {
    if steps == [] {
      var one := [step];
      assert steps + [step] == one && one[0] == step && one[1..] == [];
      assert IsRun(ttl, st, one) && End(ttl, st, one) == End(ttl, Do(ttl, st, step), one[1..]);
    } else {
      assert (steps + [step])[1..] == steps[1..] + [step];
      hide Do, Enabled;
      Snoc(ttl, Do(ttl, st, steps[0]), steps[1..], end, step);
    }
  }

  lemma Then(ttl: int, st: State, steps: seq<Step>, end: State, step: Step) returns (longer: seq<Step>, next: State)
    requires LeadsTo(ttl, st, steps, end) && Enabled(end, step)
    ensures next == Do(ttl, end, step) && LeadsTo(ttl, st, longer, next)
  {
    longer, next := steps + [step], Do(ttl, end, step);
    Snoc(ttl, st, steps, end, step);
  }

  lemma EndOf(ttl: int, st: State, steps: seq<Step>, end: State)
    requires LeadsTo(ttl, st, steps, end)
    ensures IsRun(ttl, st, steps) && End(ttl, st, steps) == end
  {
  }

  /** The load that the flight under way is already bound to return: the cached one, or one that has finished. */
  function Bound(st: State): Option<Load> {
    if !Flying(st) then None
    else match Last(st)
      case Timed(at) => if at < st.expiresAt then st.value else None
      case Loaded(load) => Some(load)
      case Done(load, _, _) => Some(load)
      case _ => None
  }

  /** Flight `f` will return `load`, whatever happens. */
  predicate Fated(st: State, f: nat, load: Load) {
    && f < |st.flights|
    && match st.flights[f]
       case Timed(at) => st.leader.Some? && f == |st.flights| - 1 && at < st.expiresAt && st.value == Some(load)
       case Loaded(l) => st.leader.Some? && f == |st.flights| - 1 && l == load
       case Done(l, _, _) => l == load
       case _ => false
  }

  /** Flight `f` is not bound to a load that is stale for a call that began at `began`. */
  predicate Promising(ttl: int, st: State, f: nat, began: int) {
    && f < |st.flights| && began <= st.now
    && match st.flights[f]
       case Starting => true
       case Timed(at) =>
         && f == |st.flights| - 1
         && (st.expiresAt <= at || began <= at || (st.value.Some? && Fresh(ttl, began, st.value.value)))
       case Loading(_, _) => true
       case Loaded(load) => Fresh(ttl, began, load)
       case Done(load, _, _) => Fresh(ttl, began, load)
  }

  /** The call `c` waits for flight `f`, or has returned with what holds of its result. */
  predicate Serves(st: State, c: nat, began: int, f: nat, load: Load) {
    && c < |st.callers|
    && match st.callers[c]
       case Joined(b, g, _) => b == began && g == f && Fated(st, f, load)
       case Returned(b, _, l, _) => b == began && l == load
       case _ => false
  }

  predicate Hopes(ttl: int, st: State, c: nat, began: int, f: nat) {
    && c < |st.callers|
    && match st.callers[c]
       case Joined(b, g, _) => b == began && g == f && Promising(ttl, st, f, began)
       case Returned(b, _, l, _) => b == began && Fresh(ttl, began, l)
       case Leads(b) => b == began
       case _ => false
  }

  lemma FatedStays(ttl: int, st: State, step: Step, f: nat, load: Load)
    requires Good(ttl, st) && Enabled(st, step) && Fated(st, f, load)
    ensures Fated(Do(ttl, st, step), f, load)
  {
    if st.leader.None? {
      assert LandedOk(ttl, st.flights[f], st.now);
    }
  }

  lemma PromisingStays(ttl: int, st: State, step: Step, f: nat, began: int)
    requires Good(ttl, st) && Enabled(st, step) && Promising(ttl, st, f, began)
    requires !(st.leader.Some? && f == |st.flights| - 1) ==> st.flights[f].Done?
    ensures Promising(ttl, Do(ttl, st, step), f, began)
  {
    if st.loads != [] {
      assert Timely(st.loads[|st.loads| - 1], st.now);
    }
  }

  lemma OnlyLastIsOpen(ttl: int, st: State, f: nat)
    requires Good(ttl, st) && f < |st.flights| && !(st.leader.Some? && f == |st.flights| - 1)
    ensures st.flights[f].Done?
  {
    assert LandedOk(ttl, st.flights[f], st.now);
  }

  lemma ServesStays(ttl: int, st: State, step: Step, c: nat, began: int, f: nat, load: Load)
    requires Good(ttl, st) && Enabled(st, step) && Serves(st, c, began, f, load)
    ensures Serves(Do(ttl, st, step), c, began, f, load)
  {
    assert CallerOk(ttl, st, c, st.callers[c]);
    if st.callers[c].Joined? {
      FatedStays(ttl, st, step, f, load);
    }
    hide Good, CallerOk;
  }

  lemma HopesStays(ttl: int, st: State, step: Step, c: nat, began: int, f: nat)
    requires Good(ttl, st) && Enabled(st, step) && Hopes(ttl, st, c, began, f)
    ensures Hopes(ttl, Do(ttl, st, step), c, began, f)
  {
    assert CallerOk(ttl, st, c, st.callers[c]);
    if st.callers[c].Joined? {
      if !(st.leader.Some? && f == |st.flights| - 1) {
        OnlyLastIsOpen(ttl, st, f);
      }
      PromisingStays(ttl, st, step, f, began);
    }
    hide Good;
  }

  lemma {:induction false} RunServes(ttl: int, st: State, steps: seq<Step>, c: nat, began: int, f: nat, load: Load)
    requires Good(ttl, st) && IsRun(ttl, st, steps) && Serves(st, c, began, f, load)
    ensures Serves(End(ttl, st, steps), c, began, f, load)
    decreases steps
  {
    if steps != [] {
      StepKeepsGood(ttl, st, steps[0]);
      ServesStays(ttl, st, steps[0], c, began, f, load);
      hide Good, Do, Enabled, Serves;
      RunServes(ttl, Do(ttl, st, steps[0]), steps[1..], c, began, f, load);
    }
  }

  lemma {:induction false} RunHopes(ttl: int, st: State, steps: seq<Step>, c: nat, began: int, f: nat)
    requires Good(ttl, st) && IsRun(ttl, st, steps) && Hopes(ttl, st, c, began, f)
    ensures Hopes(ttl, End(ttl, st, steps), c, began, f)
    decreases steps
  {
    if steps != [] {
      StepKeepsGood(ttl, st, steps[0]);
      HopesStays(ttl, st, steps[0], c, began, f);
      hide Good, Do, Enabled, Hopes;
      RunHopes(ttl, Do(ttl, st, steps[0]), steps[1..], c, began, f);
    }
  }

  /** A bound flight can land at once and wake a caller that joined it. */
  lemma LandsAndWakes(ttl: int, st: State, c: nat) returns (steps: seq<Step>)
    requires Good(ttl, st) && Bound(st).Some? && c < |st.callers|
    requires st.callers[c].Joined? && st.callers[c].flight == |st.flights| - 1
    ensures IsRun(ttl, st, steps) && c < |End(ttl, st, steps).callers| && End(ttl, st, steps).callers[c].Returned?
  {
    assert LeadsTo(ttl, st, [], st);
    assert st.leader.value < |st.callers| && st.callers[st.leader.value].Leads?;
    hide LeadsTo, Good;
    var end := st;
    steps := [];
    if Last(st).Timed? {
      steps, end := Then(ttl, st, steps, end, Look);
    } else if Last(st).Loaded? {
      steps, end := Then(ttl, st, steps, end, Store);
    }
    steps, end := Then(ttl, st, steps, end, Land);
    steps, end := Then(ttl, st, steps, end, Wake(c));
    EndOf(ttl, st, steps, end);
  }

  /** However things go on from here, if the call returns it returns a fresh value. */
  ghost predicate StaysFresh(ttl: int, st: State, c: nat) {
    forall steps | IsRun(ttl, st, steps) && c < |End(ttl, st, steps).callers|
                   && End(ttl, st, steps).callers[c].Returned? ::
      Fresh(ttl, End(ttl, st, steps).callers[c].began, End(ttl, st, steps).callers[c].load)
  }

  lemma BoundIsServed(ttl: int, st: State, c: nat)
    requires Good(ttl, st) && Enabled(st, Enter(c)) && Bound(st).Some?
    ensures var st' := Do(ttl, st, Enter(c));
            && Bound(st') == Bound(st)
            && c < |st'.callers| && st'.callers[c].Joined? && st'.callers[c].flight == |st'.flights| - 1
            && Serves(st', c, st.callers[c].began, |st'.flights| - 1, Bound(st).value)
  {
  }

  lemma UnboundHopes(ttl: int, st: State, c: nat)
    requires Good(ttl, st) && Enabled(st, Enter(c))
    requires Bound(st).Some? ==> Fresh(ttl, st.callers[c].began, Bound(st).value)
    ensures var st' := Do(ttl, st, Enter(c));
            Hopes(ttl, st', c, st.callers[c].began, |st'.flights| - 1)
  {
    assert CallerOk(ttl, st, c, st.callers[c]);
    if st.loads != [] {
      assert Timely(st.loads[|st.loads| - 1], st.now);
    }
  }

  /**
   The exact condition, at the moment a call enters: it is fresh in every continuation if and only if the flight
   under way, if any, is not already bound to a load that finished more than `ttl` before the call began.
   */
  lemma FreshExactlyIf(ttl: int, st: State, c: nat)
    requires Good(ttl, st) && Enabled(st, Enter(c))
    ensures StaysFresh(ttl, Do(ttl, st, Enter(c)), c)
       <==> (Bound(st).Some? ==> Fresh(ttl, st.callers[c].began, Bound(st).value))
  {
    var st', began := Do(ttl, st, Enter(c)), st.callers[c].began;
    StepKeepsGood(ttl, st, Enter(c));
    if Bound(st).Some? ==> Fresh(ttl, began, Bound(st).value) {
      UnboundHopes(ttl, st, c);
      forall steps | IsRun(ttl, st', steps) && c < |End(ttl, st', steps).callers|
                     && End(ttl, st', steps).callers[c].Returned?
        ensures Fresh(ttl, End(ttl, st', steps).callers[c].began, End(ttl, st', steps).callers[c].load)
      {
        hide Good, Do, Enabled, Bound, Fresh, IsRun, End;
        RunHopes(ttl, st', steps, c, began, |st'.flights| - 1);
      }
    } else {
      BoundIsServed(ttl, st, c);
      hide Good, Do, Enabled, Bound, Fresh, IsRun, End;
      var steps := LandsAndWakes(ttl, st', c);
      RunServes(ttl, st', steps, c, began, |st'.flights| - 1, Bound(st).value);
    }
  }

  /** Wherever a flight is bound, time alone makes it stale for a call that comes later. */
  lemma LagMakesStale(ttl: int, st: State) returns (steps: seq<Step>, c: nat)
    requires Good(ttl, st) && Bound(st).Some?
    ensures IsRun(ttl, st, steps)
    ensures var late := End(ttl, st, steps);
            && Good(ttl, late) && Enabled(late, Enter(c)) && !StaysFresh(ttl, Do(ttl, late, Enter(c)), c)
  {
    c := |st.callers|;
    var load := Bound(st).value;
    var late := st.now + (if st.expiresAt > 0 then st.expiresAt else 0)
                + (if load.finish > 0 then load.finish else 0) + ttl + 1;
    assert LeadsTo(ttl, st, [], st) && st.now > 0 && ttl > 0;
    hide LeadsTo, Good;
    var end;
    steps, end := Then(ttl, st, [], st, Wait(late));
    steps, end := Then(ttl, st, steps, end, Call);
    steps, end := Then(ttl, st, steps, end, Read(c));
    EndOf(ttl, st, steps, end);
    RunKeepsGood(ttl, st, steps);
    FreshExactlyIf(ttl, end, c);
  }

  /** Such a flight is reached by the very first call. */
  lemma BoundFlightHappens(ttl: int, begin: int) returns (steps: seq<Step>)
    requires ttl > 0 && begin > 0
    ensures IsRun(ttl, Init(begin), steps)
    ensures Good(ttl, End(ttl, Init(begin), steps)) && Bound(End(ttl, Init(begin), steps)).Some?
  {
    var st := Init(begin);
    assert LeadsTo(ttl, st, [], st);
    hide LeadsTo, Good;
    var end;
    steps, end := Then(ttl, st, [], st, Call);
    steps, end := Then(ttl, st, steps, end, Read(0));
    steps, end := Then(ttl, st, steps, end, Enter(0));
    steps, end := Then(ttl, st, steps, end, ReadClock);
    steps, end := Then(ttl, st, steps, end, Look);
    steps, end := Then(ttl, st, steps, end, LoadEnds);
    EndOf(ttl, st, steps, end);
    InitIsGood(ttl, begin);
    RunKeepsGood(ttl, st, steps);
  }

  lemma InitIsGood(ttl: int, begin: int)
    requires ttl > 0 && begin > 0
    ensures Good(ttl, Init(begin))
  {
  }
}
