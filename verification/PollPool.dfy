/**
 The worker pool of one poll round as a state machine: the main routine sends devices into a buffered channel and
 closes it, workers receive, wait for a token when polls are throttled, poll and count. Cancellation may come at
 any time. A step of any routine is one step of the machine.
 */
module PollPool {

  type Device = int

  datatype Outcome = Success | Skipped | Failed

  datatype Worker = Idle | Waiting(device: Device) | Polling(device: Device) | Gone

  datatype Phase = Sending | Draining | Finished

  datatype State = State(
    toSend: seq<Device>,
    jobs: seq<Device>,
    workers: seq<Worker>,
    phase: Phase,
    cancelled: bool,
    interrupted: bool,
    throttled: bool,
    token: bool,
    throttleClosed: bool,
    succeeded: multiset<Device>,
    skipped: multiset<Device>,
    failed: multiset<Device>,
    dropped: multiset<Device>)

  /** The clamp on the configured number of workers. */
  function Concurrency(configured: int): (workers: int)
    ensures 1 <= workers <= 128
    ensures workers == configured <==> 1 <= configured <= 128
    ensures (configured <= 0 ==> workers == 4) && (configured > 128 ==> workers == 128)
  {
    if configured <= 0 then 4 else if configured > 128 then 128 else configured
  }

  function Idles(workers: nat): seq<Worker> {
    seq(workers, _ => Idle)
  }

  function Start(devices: seq<Device>, workers: nat, throttled: bool): State {
    State(devices, [], Idles(workers), Sending, false, false, throttled, throttled, false,
          multiset{}, multiset{}, multiset{}, multiset{})
  }

  datatype Step =
    | Send
    | Interrupt
    | CloseJobs
    | Finish
    | StopThrottle
    | Receive(worker: nat)
    | Leave(worker: nat)
    | TakeToken(worker: nat)
    | GiveUp(worker: nat)
    | FindThrottleClosed(worker: nat)
    | Complete(worker: nat, outcome: Outcome)
    | Tick
    | Cancel

  predicate Is(st: State, worker: nat, w: Worker) {
    worker < |st.workers| && st.workers[worker] == w
  }

  predicate AllGone(workers: seq<Worker>) {
    forall i | 0 <= i < |workers| :: workers[i] == Gone
  }

  predicate Enabled(st: State, step: Step) {
    match step
    case Send => st.phase == Sending && !st.interrupted && st.toSend != [] && |st.jobs| < 2 * |st.workers|
    case Interrupt => st.phase == Sending && !st.interrupted && st.toSend != [] && st.cancelled
    case CloseJobs => st.phase == Sending && (st.interrupted || st.toSend == [])
    case Finish => st.phase == Draining && AllGone(st.workers)
    case StopThrottle => st.phase == Finished && !st.throttleClosed
    case Receive(k) => Is(st, k, Idle) && st.jobs != []
    case Leave(k) => Is(st, k, Idle) && st.jobs == [] && st.phase != Sending
    case TakeToken(k) => k < |st.workers| && st.workers[k].Waiting? && st.token
    case GiveUp(k) => k < |st.workers| && st.workers[k].Waiting? && st.cancelled
    case FindThrottleClosed(k) => k < |st.workers| && st.workers[k].Waiting? && st.throttleClosed && !st.token
    case Complete(k, _) => k < |st.workers| && st.workers[k].Polling?
    case Tick => st.throttled && !st.throttleClosed
    case Cancel => !st.cancelled
  }

  function Do(st: State, step: Step): (st': State)
    requires Enabled(st, step)
    ensures |st'.workers| == |st.workers|
  {
    match step
    case Send => st.(toSend := st.toSend[1..], jobs := st.jobs + [st.toSend[0]])
    case Interrupt => st.(interrupted := true)
    case CloseJobs => st.(phase := Draining)
    case Finish => st.(phase := Finished)
    case StopThrottle => st.(throttleClosed := true)
    case Receive(k) =>
      st.(jobs := st.jobs[1..],
          workers := st.workers[k := if st.throttled then Waiting(st.jobs[0]) else Polling(st.jobs[0])])
    case Leave(k) => st.(workers := st.workers[k := Gone])
    case TakeToken(k) => st.(token := false, workers := st.workers[k := Polling(st.workers[k].device)])
    case GiveUp(k) => Drop(st, k)
    case FindThrottleClosed(k) => Drop(st, k)
    case Complete(k, outcome) =>
      Count(st.(workers := st.workers[k := Idle]), st.workers[k].device, outcome)
    case Tick => st.(token := true)
    case Cancel => st.(cancelled := true)
  }

  function Count(st: State, d: Device, outcome: Outcome): State {
    match outcome
    case Success => st.(succeeded := st.succeeded + multiset{d})
    case Skipped => st.(skipped := st.skipped + multiset{d})
    case Failed => st.(failed := st.failed + multiset{d})
  }

  /** A worker that returns from the wait for a token lets go of its device. */
  function Drop(st: State, k: nat): State
    requires k < |st.workers| && st.workers[k].Waiting?
  {
    st.(workers := st.workers[k := Gone], dropped := st.dropped + multiset{st.workers[k].device})
  }

  predicate IsRun(st: State, steps: seq<Step>)
    decreases steps
  {
    steps == [] || (Enabled(st, steps[0]) && IsRun(Do(st, steps[0]), steps[1..]))
  }

  function End(st: State, steps: seq<Step>): State
    requires IsRun(st, steps)
    decreases steps
  {
    if steps == [] then st else End(Do(st, steps[0]), steps[1..])
  }

  // ---------- where the devices are

  function HeldBy(w: Worker, d: Device): nat {
    if (w.Waiting? || w.Polling?) && w.device == d then 1 else 0
  }

  /** How many workers hold the device. */
  function Held(workers: seq<Worker>, d: Device): nat {
    if workers == [] then 0 else HeldBy(workers[0], d) + Held(workers[1..], d)
  }

  /** How many polls of the device were counted. */
  function Counted(st: State, d: Device): nat {
    st.succeeded[d] + st.skipped[d] + st.failed[d]
  }

  /** How often a device is in the list still to send, in the channel, held, counted or dropped. */
  function Places(st: State, d: Device): nat {
    multiset(st.toSend)[d] + multiset(st.jobs)[d] + Held(st.workers, d) + Counted(st, d) + st.dropped[d]
  }

  lemma {:induction false} HeldUpdate(workers: seq<Worker>, k: nat, w: Worker, d: Device)
    requires k < |workers|
    ensures Held(workers[k := w], d) == Held(workers, d) - HeldBy(workers[k], d) + HeldBy(w, d)
  {
    var updated := workers[k := w];
    hide HeldBy;
    if k == 0 {
      assert updated[1..] == workers[1..];
    } else {
      assert updated[1..] == workers[1..][k - 1 := w] && updated[0] == workers[0];
      HeldUpdate(workers[1..], k - 1, w, d);
    }
  }

  lemma HeadOf(s: seq<Device>, d: Device)
    requires s != []
    ensures multiset(s)[d] == multiset(s[1..])[d] + if d == s[0] then 1 else 0
  {
    assert s == [s[0]] + s[1..];
  }

  lemma TailOf(s: seq<Device>, x: Device, d: Device)
    ensures multiset(s + [x])[d] == multiset(s)[d] + if d == x then 1 else 0
  {
  }

  lemma PlusOne(m: multiset<Device>, x: Device, d: Device)
    ensures (m + multiset{x})[d] == m[d] + if d == x then 1 else 0
  {
  }

  lemma ChannelStepConserves(st: State, step: Step, d: Device)
    requires Enabled(st, step) && (step.Send? || step.Receive?)
    ensures Places(Do(st, step), d) == Places(st, d)
  {
    var st' := Do(st, step);
    hide Held;
    if step.Send? {
      HeadOf(st.toSend, d);
      TailOf(st.jobs, st.toSend[0], d);
    } else {
      HeadOf(st.jobs, d);
      HeldUpdate(st.workers, step.worker, st'.workers[step.worker], d);
    }
  }

  lemma DropConserves(st: State, k: nat, d: Device)
    requires k < |st.workers| && st.workers[k].Waiting?
    ensures Places(Drop(st, k), d) == Places(st, d)
  {
    var x := st.workers[k].device;
    HeldUpdate(st.workers, k, Gone, d);
    PlusOne(st.dropped, x, d);
    assert HeldBy(st.workers[k], d) == (if d == x then 1 else 0) && HeldBy(Gone, d) == 0;
    assert Drop(st, k).dropped == st.dropped + multiset{x};
    hide Held, HeldBy;
  }

  /** Exactly one counter goes up, by the device that was polled. */
  lemma CompleteCounts(st: State, k: nat, outcome: Outcome, d: Device)
    requires k < |st.workers| && st.workers[k].Polling?
    ensures var st' := Do(st, Complete(k, outcome));
            && Counted(st', d) == Counted(st, d) + HeldBy(st.workers[k], d)
            && st'.workers == st.workers[k := Idle] && st'.dropped == st.dropped
            && st'.toSend == st.toSend && st'.jobs == st.jobs
  {
    var x := st.workers[k].device;
    match outcome {
      case Success => PlusOne(st.succeeded, x, d);
      case Skipped => PlusOne(st.skipped, x, d);
      case Failed => PlusOne(st.failed, x, d);
    }
  }

  lemma CompleteConserves(st: State, step: Step, d: Device)
    requires Enabled(st, step) && step.Complete?
    ensures Places(Do(st, step), d) == Places(st, d)
  {
    HeldUpdate(st.workers, step.worker, Idle, d);
    CompleteCounts(st, step.worker, step.outcome, d);
    assert HeldBy(Idle, d) == 0;
    hide Held, HeldBy, Counted, Do;
  }

  lemma StepConserves(st: State, step: Step, d: Device)
    requires Enabled(st, step)
    ensures Places(Do(st, step), d) == Places(st, d)
  {
    match step {
      case Send => ChannelStepConserves(st, step, d);
      case Receive(_) => ChannelStepConserves(st, step, d);
      case Leave(k) =>
        HeldUpdate(st.workers, k, Gone, d);
        hide Held;
      case TakeToken(k) =>
        HeldUpdate(st.workers, k, Polling(st.workers[k].device), d);
        hide Held;
      case GiveUp(k) => DropConserves(st, k, d);
      case FindThrottleClosed(k) => DropConserves(st, k, d);
      case Complete(_, _) => CompleteConserves(st, step, d);
      case _ =>
    }
  }

  lemma {:induction false} RunConserves(st: State, steps: seq<Step>, d: Device)
    requires IsRun(st, steps)
    ensures Places(End(st, steps), d) == Places(st, d)
    decreases steps
  {
    if steps != [] {
      StepConserves(st, steps[0], d);
      hide Places, Enabled, Do;
      RunConserves(Do(st, steps[0]), steps[1..], d);
    }
  }

  lemma {:induction false} NoneHeld(workers: seq<Worker>, d: Device)
    requires forall i | 0 <= i < |workers| :: workers[i].Idle? || workers[i].Gone?
    ensures Held(workers, d) == 0
  {
    if workers != [] {
      NoneHeld(workers[1..], d);
    }
  }

  /** At every moment of every round a device is in as many places as it stands in the list: in one, when once. */
  lemma EveryDeviceIsSomewhere(devices: seq<Device>, workers: nat, throttled: bool, steps: seq<Step>, d: Device)
    requires IsRun(Start(devices, workers, throttled), steps)
    ensures Places(End(Start(devices, workers, throttled), steps), d) == multiset(devices)[d]
  {
    RunConserves(Start(devices, workers, throttled), steps, d);
    NoneHeld(Idles(workers), d);
  }

  // ---------- what every round keeps

  predicate Valid(st: State) {
    && |st.workers| >= 1 && |st.jobs| <= 2 * |st.workers|
    && (st.interrupted ==> st.cancelled)
    && (st.phase != Sending ==> st.toSend == [] || st.interrupted)
    && (st.phase == Finished ==> AllGone(st.workers))
    && (st.throttleClosed ==> st.phase == Finished)
    && (!st.cancelled ==> st.dropped == multiset{})
    && (forall i | 0 <= i < |st.workers| :: ValidWorker(st, st.workers[i]))
  }

  predicate ValidWorker(st: State, w: Worker) {
    && (w.Waiting? ==> st.throttled)
    && (w == Gone ==> st.cancelled || (st.phase != Sending && st.jobs == []))
  }

  predicate WorkerStep(step: Step) {
    step.Receive? || step.Leave? || step.TakeToken? || step.GiveUp? || step.FindThrottleClosed? || step.Complete?
  }

  /** What no move of a worker changes. */
  predicate SameRound(st: State, st': State) {
    && st'.throttled == st.throttled && st'.cancelled == st.cancelled && st'.phase == st.phase
    && st'.toSend == st.toSend && st'.interrupted == st.interrupted && st'.throttleClosed == st.throttleClosed
    && |st'.jobs| <= |st.jobs|
  }

  lemma CountFrame(st: State, d: Device, outcome: Outcome)
    ensures var st' := Count(st, d, outcome);
            SameRound(st, st') && st'.workers == st.workers && st'.jobs == st.jobs && st'.dropped == st.dropped
  {
  }

  lemma WorkerStepFrame(st: State, step: Step)
    requires Enabled(st, step) && WorkerStep(step)
    ensures var st' := Do(st, step);
            && SameRound(st, st') && |st'.workers| == |st.workers|
            && st'.workers == st.workers[step.worker := st'.workers[step.worker]]
            && (!st.cancelled && !st.throttleClosed ==> st'.dropped == st.dropped)
  {
    if step.Complete? {
      var k := step.worker;
      CountFrame(st.(workers := st.workers[k := Idle]), st.workers[k].device, step.outcome);
    }
    hide Count;
  }

  /** A worker that moves leaves the others as they were. */
  lemma OthersStayValid(st: State, st': State, k: nat)
    requires Valid(st) && SameRound(st, st') && k < |st.workers| == |st'.workers|
    requires st'.workers == st.workers[k := st'.workers[k]]
    ensures forall i | 0 <= i < |st'.workers| :: i != k ==> ValidWorker(st', st'.workers[i])
  {
    forall i | 0 <= i < |st'.workers| && i != k ensures ValidWorker(st', st'.workers[i]) {
      assert ValidWorker(st, st.workers[i]);
    }
  }

  lemma MoverStaysValid(st: State, step: Step)
    requires Valid(st) && Enabled(st, step) && WorkerStep(step)
    ensures ValidWorker(Do(st, step), Do(st, step).workers[step.worker]) && st.workers[step.worker] != Gone
  {
    assert ValidWorker(st, st.workers[step.worker]);
    if step.Complete? {
      var k := step.worker;
      CountFrame(st.(workers := st.workers[k := Idle]), st.workers[k].device, step.outcome);
    }
    hide Count;
  }

  lemma WorkerStepKeepsValid(st: State, step: Step)
    requires Valid(st) && Enabled(st, step) && WorkerStep(step)
    ensures Valid(Do(st, step))
  {
    WorkerStepFrame(st, step);
    OthersStayValid(st, Do(st, step), step.worker);
    MoverStaysValid(st, step);
    hide Do, ValidWorker, Enabled;
  }

  lemma StepKeepsValid(st: State, step: Step)
    requires Valid(st) && Enabled(st, step)
    ensures Valid(Do(st, step))
  {
    if WorkerStep(step) {
      WorkerStepKeepsValid(st, step);
    } else {
      var st' := Do(st, step);
      forall i | 0 <= i < |st'.workers| ensures ValidWorker(st', st'.workers[i]) {
        assert ValidWorker(st, st.workers[i]);
      }
    }
  }

  lemma {:induction false} RunKeepsValid(st: State, steps: seq<Step>)
    requires Valid(st) && IsRun(st, steps)
    ensures Valid(End(st, steps))
    decreases steps
  {
    if steps != [] {
      StepKeepsValid(st, steps[0]);
      hide Valid, Enabled, Do;
      RunKeepsValid(Do(st, steps[0]), steps[1..]);
    }
  }

  lemma StartIsValid(devices: seq<Device>, workers: nat, throttled: bool)
    requires workers >= 1
    ensures Valid(Start(devices, workers, throttled))
  {
  }

  /** No worker ever finds the throttle closed: it is stopped after every worker has returned. */
  lemma ThrottleOutlivesWorkers(st: State, k: nat)
    requires Valid(st)
    ensures !Enabled(st, FindThrottleClosed(k))
  {
  }

  // ---------- a round never gets stuck

  /** A step that gets the round further: not a cancellation and not a tick into a full token channel. */
  predicate Useful(st: State, step: Step) {
    Enabled(st, step) && step != Cancel && (step == Tick ==> !st.token)
  }

  lemma WorkerCanMove(st: State, k: nat) returns (step: Step)
    requires Valid(st) && k < |st.workers| && st.workers[k] != Gone
    requires st.workers[k] == Idle ==> st.jobs != [] || st.phase != Sending
    ensures Useful(st, step)
  {
    assert ValidWorker(st, st.workers[k]);
    match st.workers[k] {
      case Idle => step := if st.jobs == [] then Leave(k) else Receive(k);
      case Waiting(_) => step := if st.token then TakeToken(k) else Tick;
      case Polling(_) => step := Complete(k, Failed);
    }
  }

  /** With or without cancellation, a round that is not over can go on. */
  lemma NeverStuck(st: State) returns (step: Step)
    requires Valid(st) && st.phase != Finished
    ensures Useful(st, step)
  {
    if k :| 0 <= k < |st.workers| && st.workers[k] != Gone
            && (st.workers[k] == Idle ==> st.jobs != [] || st.phase != Sending) {
      step := WorkerCanMove(st, k);
    } else if st.phase == Draining {
      step := Finish;
    } else if st.interrupted || st.toSend == [] {
      step := CloseJobs;
    } else if |st.jobs| < 2 * |st.workers| {
      step := Send;
    } else {
      assert ValidWorker(st, st.workers[0]);
      step := Interrupt;
    }
  }

  // ---------- a round ends

  function Weight(w: Worker): nat {
    match w
    case Waiting(_) => 4
    case Polling(_) => 2
    case Idle => 1
    case Gone => 0
  }

  function Weights(workers: seq<Worker>): nat {
    if workers == [] then 0 else Weight(workers[0]) + Weights(workers[1..])
  }

  function Bit(b: bool): nat {
    if b then 1 else 0
  }

  function PhaseWeight(phase: Phase): nat {
    match phase case Sending => 2 case Draining => 1 case Finished => 0
  }

  /** Drops with every step except a tick into a full token channel. */
  function Measure(st: State): nat {
    5 * |st.toSend| + 4 * |st.jobs| + Weights(st.workers) + PhaseWeight(st.phase)
    + Bit(!st.cancelled) + Bit(!st.interrupted) + Bit(st.throttled && !st.token) + Bit(!st.throttleClosed)
  }

  predicate IdleTick(st: State, step: Step) {
    step == Tick && st.token
  }

  lemma {:induction false} WeightsUpdate(workers: seq<Worker>, k: nat, w: Worker)
    requires k < |workers|
    ensures Weights(workers[k := w]) == Weights(workers) - Weight(workers[k]) + Weight(w)
  {
    var updated := workers[k := w];
    hide Weight;
    if k == 0 {
      assert updated[1..] == workers[1..];
    } else {
      assert updated[1..] == workers[1..][k - 1 := w] && updated[0] == workers[0];
      WeightsUpdate(workers[1..], k - 1, w);
    }
  }

  lemma WorkerStepDrops(st: State, step: Step)
    requires Enabled(st, step) && WorkerStep(step)
    ensures Measure(Do(st, step)) < Measure(st)
  {
    if step.Complete? {
      CompleteDrops(st, step.worker, step.outcome);
    } else {
      WeightsUpdate(st.workers, step.worker, Do(st, step).workers[step.worker]);
      hide Count, Weights;
    }
  }

  lemma CompleteDrops(st: State, k: nat, outcome: Outcome)
    requires Enabled(st, Complete(k, outcome))
    ensures Measure(Do(st, Complete(k, outcome))) < Measure(st)
  {
    WeightsUpdate(st.workers, k, Idle);
    CountFrame(st.(workers := st.workers[k := Idle]), st.workers[k].device, outcome);
    assert Do(st, Complete(k, outcome)) == Count(st.(workers := st.workers[k := Idle]), st.workers[k].device, outcome);
    assert Count(st.(workers := st.workers[k := Idle]), st.workers[k].device, outcome).token == st.token;
    hide Count, Weights, Do;
  }

  /** Every step but an idle tick brings the round nearer to its end. */
  lemma StepDrops(st: State, step: Step)
    requires Enabled(st, step)
    ensures IdleTick(st, step) ==> Do(st, step) == st
    ensures !IdleTick(st, step) ==> Measure(Do(st, step)) < Measure(st)
  {
    if WorkerStep(step) {
      WorkerStepDrops(st, step);
    }
    hide Weights;
  }

  /** The steps of a run that are not idle ticks. */
  function Moves(st: State, steps: seq<Step>): nat
    requires IsRun(st, steps)
    decreases steps
  {
    if steps == [] then 0
    else (if IdleTick(st, steps[0]) then 0 else 1) + Moves(Do(st, steps[0]), steps[1..])
  }

  lemma {:induction false} MovesAreBounded(st: State, steps: seq<Step>)
    requires IsRun(st, steps)
    ensures Moves(st, steps) + Measure(End(st, steps)) <= Measure(st)
    decreases steps
  {
    if steps != [] {
      StepDrops(st, steps[0]);
      hide Measure, Enabled, Do, IdleTick;
      MovesAreBounded(Do(st, steps[0]), steps[1..]);
    }
  }

  lemma {:induction false} IdleWeights(n: nat)
    ensures Weights(Idles(n)) == n
  {
    if n > 0 {
      assert Idles(n)[1..] == Idles(n - 1);
      IdleWeights(n - 1);
    }
  }

  /** A round of `n` devices and `w` workers makes at most `5 * n + w + 5` steps other than idle ticks. */
  lemma RoundEnds(devices: seq<Device>, workers: nat, throttled: bool, steps: seq<Step>)
    requires IsRun(Start(devices, workers, throttled), steps)
    ensures Moves(Start(devices, workers, throttled), steps) <= 5 * |devices| + workers + 5
  {
    IdleWeights(workers);
    MovesAreBounded(Start(devices, workers, throttled), steps);
    hide Moves, IsRun, End, Weights;
  }

  // ---------- what a finished round has done

  lemma {:induction false} NobodyHolds(workers: seq<Worker>)
    requires AllGone(workers)
    ensures forall d :: Held(workers, d) == 0
  {
    forall d ensures Held(workers, d) == 0 {
      NoneHeld(workers, d);
    }
  }

  /** The counts the round reports, and whether it reports the cancellation instead of success. */
  function Report(st: State): (nat, nat, nat, bool) {
    (|st.succeeded|, |st.failed|, |st.skipped|, st.interrupted || st.cancelled)
  }

  lemma StepCancels(st: State, step: Step)
    requires Enabled(st, step)
    ensures Do(st, step).cancelled <==> st.cancelled || step == Cancel
  {
  }

  /** A round is cancelled exactly by the step that cancels it. */
  lemma {:induction false} CancelledByCancel(st: State, steps: seq<Step>)
    requires IsRun(st, steps)
    ensures End(st, steps).cancelled <==> st.cancelled || Cancel in steps
    decreases steps
  {
    if steps != [] {
      StepCancels(st, steps[0]);
      hide Do, Enabled;
      CancelledByCancel(Do(st, steps[0]), steps[1..]);
      assert Cancel in steps <==> Cancel == steps[0] || Cancel in steps[1..];
    }
  }

  /**
   A finished round has counted every device once per place in the list, save those it never sent, left in the
   channel or dropped; and a round that was not cancelled has counted them all.
   */
  lemma FinishedRound(devices: seq<Device>, workers: nat, throttled: bool, steps: seq<Step>)
    requires workers >= 1 && IsRun(Start(devices, workers, throttled), steps)
    requires End(Start(devices, workers, throttled), steps).phase == Finished
    ensures var st := End(Start(devices, workers, throttled), steps);
            && st.succeeded + st.skipped + st.failed + (st.dropped + multiset(st.toSend) + multiset(st.jobs))
               == multiset(devices)
            && |st.succeeded| + |st.skipped| + |st.failed| + |st.dropped| + |st.toSend| + |st.jobs| == |devices|
            && (Cancel !in steps ==> |st.succeeded| + |st.skipped| + |st.failed| == |devices|)
            && (Report(st).3 <==> Cancel in steps)
  {
    var start := Start(devices, workers, throttled);
    var st := End(start, steps);
    StartIsValid(devices, workers, throttled);
    RunKeepsValid(start, steps);
    NobodyHolds(st.workers);
    CancelledByCancel(start, steps);
    var all := st.succeeded + st.skipped + st.failed + (st.dropped + multiset(st.toSend) + multiset(st.jobs));
    forall d ensures all[d] == multiset(devices)[d] {
      EveryDeviceIsSomewhere(devices, workers, throttled, steps, d);
      hide IsRun, End, Valid, Held;
    }
    assert all == multiset(devices);
    Uncancelled(st);
    hide IsRun, End, Valid, Held;
  }

  lemma Uncancelled(st: State)
    requires Valid(st) && st.phase == Finished
    ensures st.interrupted ==> st.cancelled
    ensures !st.cancelled ==> st.dropped == multiset{} && st.toSend == [] && st.jobs == []
  {
    assert ValidWorker(st, st.workers[0]);
  }

  // ---------- polls and tokens

  function PollingNow(workers: seq<Worker>): nat {
    if workers == [] then 0 else (if workers[0].Polling? then 1 else 0) + PollingNow(workers[1..])
  }

  lemma {:induction false} PollingUpdate(workers: seq<Worker>, k: nat, w: Worker)
    requires k < |workers|
    ensures PollingNow(workers[k := w]) + (if workers[k].Polling? then 1 else 0)
         == PollingNow(workers) + if w.Polling? then 1 else 0
  {
    if k == 0 {
      assert workers[k := w][1..] == workers[1..];
    } else {
      PollingUpdate(workers[1..], k - 1, w);
      assert workers[k := w][1..] == workers[1..][k - 1 := w];
    }
  }

  /** The polls begun so far. */
  function Begun(st: State): nat {
    |st.succeeded| + |st.failed| + |st.skipped| + PollingNow(st.workers)
  }

  function Ticks(steps: seq<Step>): nat {
    if steps == [] then 0 else Bit(steps[0] == Tick) + Ticks(steps[1..])
  }

  lemma WorkerNeedsToken(st: State, step: Step, k: nat)
    requires Enabled(st, step) && st.throttled
    requires step == Receive(k) || step == Leave(k) || step == TakeToken(k) || step == GiveUp(k)
             || step == FindThrottleClosed(k)
    ensures var st' := Do(st, step); Begun(st') + Bit(st'.token) <= Begun(st) + Bit(st.token)
  {
    PollingUpdate(st.workers, k, Do(st, step).workers[k]);
    hide PollingNow, Count;
  }

  lemma CompleteNeedsNone(st: State, k: nat, outcome: Outcome)
    requires Enabled(st, Complete(k, outcome))
    ensures var st' := Do(st, Complete(k, outcome)); Begun(st') == Begun(st) && st'.token == st.token
  {
    PollingUpdate(st.workers, k, Idle);
    hide PollingNow;
  }

  /** A poll begins only with a token, which is then gone; a token comes only with a tick. */
  lemma StepNeedsToken(st: State, step: Step)
    requires Enabled(st, step) && st.throttled
    ensures var st' := Do(st, step);
            && st'.throttled && Begun(st') + Bit(st'.token) <= Begun(st) + Bit(st.token) + Bit(step == Tick)
  {
    hide PollingNow;
    match step {
      case Receive(k) => WorkerNeedsToken(st, step, k);
      case Leave(k) => WorkerNeedsToken(st, step, k);
      case TakeToken(k) => WorkerNeedsToken(st, step, k);
      case GiveUp(k) => WorkerNeedsToken(st, step, k);
      case FindThrottleClosed(k) => WorkerNeedsToken(st, step, k);
      case Complete(k, outcome) => CompleteNeedsNone(st, k, outcome);
      case _ =>
    }
  }

  lemma {:induction false} RunNeedsTokens(st: State, steps: seq<Step>)
    requires IsRun(st, steps) && st.throttled
    ensures Begun(End(st, steps)) <= Begun(st) + Bit(st.token) + Ticks(steps)
    decreases steps
  {
    if steps != [] {
      StepNeedsToken(st, steps[0]);
      hide Begun, Do, Enabled;
      RunNeedsTokens(Do(st, steps[0]), steps[1..]);
    }
  }

  lemma {:induction false} NonePolling(workers: nat)
    ensures PollingNow(Idles(workers)) == 0
  {
    if workers > 0 {
      NonePolling(workers - 1);
      assert Idles(workers)[1..] == Idles(workers - 1);
    }
  }

  /** A throttled round never begins more polls than there were ticks, and one for the first token. */
  lemma PollsNeedTokens(devices: seq<Device>, workers: nat, steps: seq<Step>)
    requires IsRun(Start(devices, workers, true), steps)
    ensures Begun(End(Start(devices, workers, true), steps)) <= 1 + Ticks(steps)
  {
    NonePolling(workers);
    RunNeedsTokens(Start(devices, workers, true), steps);
  }

  // ---------- what a round reports

  /** How many polls of the run ended that way: a matter of its steps alone. */
  function Completions(steps: seq<Step>, outcome: Outcome): nat {
    if steps == [] then 0
    else (if steps[0].Complete? && steps[0].outcome == outcome then 1 else 0) + Completions(steps[1..], outcome)
  }

  /** How many polls of one device ended that way: the device is the one its worker held when the step came. */
  function CompletionsOf(st: State, steps: seq<Step>, d: Device, outcome: Outcome): nat
    requires IsRun(st, steps)
    decreases steps
  {
    if steps == [] then 0
    else
      (if steps[0].Complete? && steps[0].outcome == outcome && st.workers[steps[0].worker] == Polling(d) then 1 else 0)
      + CompletionsOf(Do(st, steps[0]), steps[1..], d, outcome)
  }

  /** The counter that an outcome is reported in: success, failure and skip, each under its own name. */
  function CounterOf(st: State, outcome: Outcome): multiset<Device> {
    match outcome
    case Success => st.succeeded
    case Failed => st.failed
    case Skipped => st.skipped
  }

  lemma CountsItself(st: State, d: Device, counted: Outcome, outcome: Outcome)
    ensures CounterOf(Count(st, d, counted), outcome)
         == CounterOf(st, outcome) + if counted == outcome then multiset{d} else multiset{}
  {
  }

  lemma StepReports(st: State, step: Step, outcome: Outcome)
    requires Enabled(st, step)
    ensures CounterOf(Do(st, step), outcome)
         == CounterOf(st, outcome)
            + if step.Complete? && step.outcome == outcome then multiset{st.workers[step.worker].device} else multiset{}
  {
    if step.Complete? {
      var k := step.worker;
      CountsItself(st.(workers := st.workers[k := Idle]), st.workers[k].device, step.outcome, outcome);
    }
    hide Count;
  }

  lemma {:induction false} RunReports(st: State, steps: seq<Step>, outcome: Outcome)
    requires IsRun(st, steps)
    ensures |CounterOf(End(st, steps), outcome)| == |CounterOf(st, outcome)| + Completions(steps, outcome)
    decreases steps
  {
    if steps != [] {
      StepReports(st, steps[0], outcome);
      hide CounterOf, Enabled, Do;
      RunReports(Do(st, steps[0]), steps[1..], outcome);
    }
  }

  lemma {:induction false} RunReportsOf(st: State, steps: seq<Step>, d: Device, outcome: Outcome)
    requires IsRun(st, steps)
    ensures CounterOf(End(st, steps), outcome)[d]
         == CounterOf(st, outcome)[d] + CompletionsOf(st, steps, d, outcome)
    decreases steps
  {
    if steps != [] {
      StepReports(st, steps[0], outcome);
      if steps[0].Complete? {
        assert st.workers[steps[0].worker] == Polling(st.workers[steps[0].worker].device);
      }
      hide CounterOf, Enabled, Do;
      RunReportsOf(Do(st, steps[0]), steps[1..], d, outcome);
    }
  }

  /**
   The report of a round, at any moment of any run: so many polls succeeded, so many failed, so many were skipped as
   there were steps of each kind, in all and for each device.
   */
  lemma ReportCountsOutcomes(devices: seq<Device>, workers: nat, throttled: bool, steps: seq<Step>)
    requires IsRun(Start(devices, workers, throttled), steps)
    ensures var start := Start(devices, workers, throttled);
            var st := End(start, steps);
            && Report(st).0 == Completions(steps, Success)
            && Report(st).1 == Completions(steps, Failed)
            && Report(st).2 == Completions(steps, Skipped)
            && (forall d :: st.succeeded[d] == CompletionsOf(start, steps, d, Success))
            && (forall d :: st.failed[d] == CompletionsOf(start, steps, d, Failed))
            && (forall d :: st.skipped[d] == CompletionsOf(start, steps, d, Skipped))
  {
    var start := Start(devices, workers, throttled);
    RunReports(start, steps, Success);
    RunReports(start, steps, Failed);
    RunReports(start, steps, Skipped);
    forall d
      ensures End(start, steps).succeeded[d] == CompletionsOf(start, steps, d, Success)
      ensures End(start, steps).failed[d] == CompletionsOf(start, steps, d, Failed)
      ensures End(start, steps).skipped[d] == CompletionsOf(start, steps, d, Skipped)
    {
      RunReportsOf(start, steps, d, Success);
      RunReportsOf(start, steps, d, Failed);
      RunReportsOf(start, steps, d, Skipped);
    }
    hide IsRun, End, Completions, CompletionsOf;
  }
}
