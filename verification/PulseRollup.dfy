/**
 The pulse relay scheduler: at most `maxConcurrentQueries` relay queries at a time, the most
 urgent due relay first, a cooldown after success, exponential backoff after failure, and one
 timer that every pump re-arms. The class is the scheduler as the client runs it; the
 functions above it say what one callback does to the whole scheduler state.
 */
module PulseRollup {
  import opened Arithmetic
  import opened Text
  import opened Sorting

  datatype RelayListEntry = RelayListEntry(url: string, inbox: bool)

  /** Unset and non-finite numbers are both `None`. */
  datatype Options = Options(
    initialDelayMs: Option<real>, maxConcurrentQueries: Option<real>, successCooldownMs: Option<real>,
    failureBackoffBaseMs: Option<real>, failureBackoffMaxMs: Option<real>)

  datatype Config = Config(
    currentRelayUrl: string, initialDelayMs: nat, maxConcurrent: nat, cooldownMs: nat, baseMs: nat, maxMs: nat) {
    predicate Valid() { maxConcurrent >= 1 && 1 <= baseMs <= maxMs }
  }

  /** Where a relay's query promise stands. `inFlight` is true from the query's start until
      its `finally` handler runs, so in every stage but `Resting`. */
  datatype Stage = Resting | Querying | NotesHandlerThrew | Settled

  datatype RelayState = RelayState(relay: RelayListEntry, nextRunAt: int, failureCount: nat, stage: Stage) {
    predicate InFlight() { stage != Resting }
  }

  datatype Rollup = Rollup(relays: seq<RelayState>, stopped: bool, timer: Option<int>)

  function NormalizeNonNegativeInteger(value: Option<real>, fallback: nat): nat {
    match value
    case None => fallback
    case Some(v) => Max(0, v.Floor)
  }

  function Configure(o: Options, currentRelayUrl: string): (c: Config)
    ensures c.Valid()
  {
    var base := Max(1, NormalizeNonNegativeInteger(o.failureBackoffBaseMs, 15000));
    Config(
      currentRelayUrl,
      NormalizeNonNegativeInteger(o.initialDelayMs, 250),
      Max(1, NormalizeNonNegativeInteger(o.maxConcurrentQueries, 4)),
      NormalizeNonNegativeInteger(o.successCooldownMs, 60000),
      base,
      Max(base, NormalizeNonNegativeInteger(o.failureBackoffMaxMs, 300000)))
  }

  function Pow2(n: nat): (r: nat)
    ensures r >= 1
  {
    if n == 0 then 1 else 2 * Pow2(n - 1)
  }

  function BackoffMs(failureCount: nat, baseMs: nat, maxMs: nat): nat {
    Min(maxMs, baseMs * Pow2(Max(1, failureCount) - 1))
  }

  // ----- Order -----

  function Listed(currentRelayUrl: string, current: bool): RelayListEntry -> bool {
    (relay: RelayListEntry) => relay.inbox && (relay.url == currentRelayUrl) == current
  }

  function OrderPulseRelays(relays: seq<RelayListEntry>, currentRelayUrl: string): seq<RelayListEntry> {
    Filter(Listed(currentRelayUrl, true), relays) + Filter(Listed(currentRelayUrl, false), relays)
  }

  /** What the comparator reads of a relay state. */
  datatype Candidate = Candidate(current: bool, nextRunAt: int, index: nat)

  function CandidateAt(relays: seq<RelayState>, c: Config, i: nat): Candidate
    requires i < |relays|
  {
    Candidate(relays[i].relay.url == c.currentRelayUrl, relays[i].nextRunAt, i)
  }

  function Compare(left: Candidate, right: Candidate): int {
    var leftPriority := if left.current then 0 else 1;
    var rightPriority := if right.current then 0 else 1;
    if leftPriority != rightPriority then leftPriority - rightPriority
    else if left.nextRunAt != right.nextRunAt then left.nextRunAt - right.nextRunAt
    else left.index - right.index
  }

  const NoLater: (Candidate, Candidate) -> bool := (left, right) => Compare(left, right) <= 0

  // ----- One pump -----

  function InFlight(relays: seq<RelayState>): set<nat> {
    set i: nat | i < |relays| && relays[i].InFlight()
  }

  predicate Due(relays: seq<RelayState>, i: nat, now: int)
    requires i < |relays|
  {
    !relays[i].InFlight() && relays[i].nextRunAt <= now
  }

  /** The idle, due relays among the first n, in index order. */
  function DueUpTo(relays: seq<RelayState>, c: Config, now: int, n: nat): seq<Candidate>
    requires n <= |relays|
  {
    if n == 0 then []
    else DueUpTo(relays, c, now, n - 1) + (if Due(relays, n - 1, now) then [CandidateAt(relays, c, n - 1)] else [])
  }

  function Slots(relays: seq<RelayState>, c: Config): nat {
    Max(0, c.maxConcurrent - |InFlight(relays)|)
  }

  /** The relays one pump starts, in the order it starts them. */
  function Chosen(relays: seq<RelayState>, c: Config, now: int): seq<Candidate> {
    var due := Sort(DueUpTo(relays, c, now, |relays|), NoLater);
    due[..Min(|due|, Slots(relays, c))]
  }

  function Launch(relays: seq<RelayState>, chosen: seq<Candidate>): (r: seq<RelayState>)
    ensures |r| == |relays|
  {
    if chosen == [] then relays
    else
      var r := Launch(relays, chosen[..|chosen| - 1]);
      var i := chosen[|chosen| - 1].index;
      if i < |r| then r[i := r[i].(stage := Querying)] else r
  }

  /** The earliest `nextRunAt` among the idle relays of the first n. */
  function SoonestUpTo(relays: seq<RelayState>, n: nat): Option<int>
    requires n <= |relays|
  {
    if n == 0 then None
    else
      var soonest := SoonestUpTo(relays, n - 1);
      if relays[n - 1].InFlight() then soonest
      else if soonest.None? then Some(relays[n - 1].nextRunAt)
      else Some(Min(soonest.value, relays[n - 1].nextRunAt))
  }

  /** When a pump that reads the clock at `armNow` has the timer fire. */
  function TimerFor(relays: seq<RelayState>, armNow: int): Option<int> {
    var soonest := SoonestUpTo(relays, |relays|);
    if soonest.None? then None else Some(armNow + Max(0, soonest.value - armNow))
  }

  /** The pump reads the clock twice: once to find due relays, once to arm the timer. */
  function Pump(s: Rollup, c: Config, now: int, armNow: int): Rollup {
    if s.stopped then s
    else
      var relays := Launch(s.relays, Chosen(s.relays, c, now));
      Rollup(relays, false, TimerFor(relays, armNow))
  }

  // ----- Callbacks -----

  /** The callbacks the scheduler can receive. `Fulfilled` says whether the notes handler of
      the caller throws, which sends the promise to its `catch` handler; `Rejected` is that
      `catch` handler, reached from a failed query or a throwing notes handler. */
  datatype Event =
    | TimerFires
    | Fulfilled(relay: nat, handlerThrows: bool)
    | Rejected(relay: nat)
    | Finally(relay: nat)
    | Stop

  datatype Step = Step(event: Event, now: int, armNow: int)

  /** A timer may fire early; the results below do not depend on its punctuality. */
  predicate Enabled(s: Rollup, e: Event) {
    match e
    case TimerFires => s.timer.Some?
    case Fulfilled(i, _) => i < |s.relays| && s.relays[i].stage == Querying
    case Rejected(i) => i < |s.relays| && (s.relays[i].stage == Querying || s.relays[i].stage == NotesHandlerThrew)
    case Finally(i) => i < |s.relays| && s.relays[i].stage == Settled
    case Stop => true
  }

  /** The effect of a callback up to the pump it may end with. */
  function Receive(s: Rollup, c: Config, e: Event, now: int): (r: Rollup)
    requires Enabled(s, e)
    ensures |r.relays| == |s.relays|
  {
    match e
    case TimerFires => s.(timer := None)
    case Fulfilled(i, throws) =>
      var r := s.relays[i];
      if s.stopped then s.(relays := s.relays[i := r.(stage := Settled)])
      else
        var next := if throws then NotesHandlerThrew else Settled;
        s.(relays := s.relays[i := RelayState(r.relay, now + c.cooldownMs, 0, next)])
    case Rejected(i) =>
      var r := s.relays[i];
      if s.stopped then s.(relays := s.relays[i := r.(stage := Settled)])
      else
        var failures := r.failureCount + 1;
        var again := now + BackoffMs(failures, c.baseMs, c.maxMs);
        s.(relays := s.relays[i := RelayState(r.relay, again, failures, Settled)])
    case Finally(i) => s.(relays := s.relays[i := s.relays[i].(stage := Resting)])
    case Stop => s.(stopped := true, timer := None)
  }

  function Next(s: Rollup, c: Config, step: Step): (r: Rollup)
    requires Enabled(s, step.event)
    ensures |r.relays| == |s.relays|
  {
    var received := Receive(s, c, step.event, step.now);
    if step.event.TimerFires? || step.event.Finally? then Pump(received, c, step.now, step.armNow) else received
  }

  /** The relays a callback starts, in order. */
  function Started(s: Rollup, c: Config, step: Step): seq<Candidate>
    requires Enabled(s, step.event)
  {
    var received := Receive(s, c, step.event, step.now);
    if (step.event.TimerFires? || step.event.Finally?) && !received.stopped then Chosen(received.relays, c, step.now)
    else []
  }

  /** Whether a callback calls `onRelayNotes` or `onRelayError`. */
  predicate Notifies(s: Rollup, step: Step) {
    (step.event.Fulfilled? || step.event.Rejected?) && !s.stopped
  }

  function Resting0(relays: seq<RelayListEntry>): seq<RelayState> {
    seq(|relays|, i requires 0 <= i < |relays| => RelayState(relays[i], 0, 0, Resting))
  }

  function Initial(relays: seq<RelayListEntry>, c: Config, startedAt: int): Rollup {
    Rollup(Resting0(OrderPulseRelays(relays, c.currentRelayUrl)), false, Some(startedAt + Max(0, c.initialDelayMs)))
  }

  // ----- The scheduler as the client runs it -----

  class PulseRelayRollup {
    const config: Config
    var relayStates: seq<RelayState>
    var stopped: bool
    var timeoutId: Option<int>

    function State(): Rollup
      reads this
    {
      Rollup(relayStates, stopped, timeoutId)
    }

    constructor (options: Options, relays: seq<RelayListEntry>, currentRelayUrl: string, now: int)
      ensures config == Configure(options, currentRelayUrl)
      ensures State() == Initial(relays, config, now)
    {
      config := Configure(options, currentRelayUrl);
      relayStates := Resting0(OrderPulseRelays(relays, currentRelayUrl));
      stopped := false;
      timeoutId := None;
      new;
      SchedulePump(config.initialDelayMs, now);
    }

    method ClearScheduledPump()
      modifies this`timeoutId
      ensures timeoutId == None
    {
      if timeoutId.Some? {
        timeoutId := None;
      }
    }

    method SchedulePump(delayMs: int, now: int)
      modifies this`timeoutId
      ensures timeoutId == if stopped then old(timeoutId) else Some(now + Max(0, delayMs))
    {
      if stopped {
        return;
      }
      ClearScheduledPump();
      timeoutId := Some(now + Max(0, delayMs));
    }

    method RunRelayQuery(i: nat)
      requires i < |relayStates|
      modifies this`relayStates
      ensures relayStates == old(relayStates)[i := old(relayStates)[i].(stage := Querying)]
    {
      relayStates := relayStates[i := relayStates[i].(stage := Querying)];
    }

    /** The loop of `pump`: the most urgent due relays that fit. */
    method StartDue(now: int)
      modifies this`relayStates
      ensures relayStates == Launch(old(relayStates), Chosen(old(relayStates), config, now))
    {
      var inFlightCount := |InFlight(relayStates)|;
      var availableSlots := Max(0, config.maxConcurrent - inFlightCount);
      ghost var before, chosen := relayStates, Chosen(relayStates, config, now);
      if availableSlots > 0 {
        var due := Sort(DueUpTo(relayStates, config, now, |relayStates|), NoLater);
        ChosenInRange(before, config, now);
        assert Launch(before, chosen[..0]) == before;
        hide Launch, DueUpTo, Sort, InFlight;
        for k := 0 to Min(|due|, availableSlots)
          invariant relayStates == Launch(before, chosen[..k])
        {
          LaunchStep(before, chosen, k);
          assert due[k] == chosen[k];
          RunRelayQuery(due[k].index);
        }
        assert chosen[..|chosen|] == chosen;
      } else {
        assert chosen == [];
      }
    }

    /** The end of `pump`: arm the timer for the idle relay that is due first. */
    method ArmTimer(armNow: int)
      requires !stopped && timeoutId == None
      modifies this`timeoutId
      ensures timeoutId == TimerFor(relayStates, armNow)
    {
      hide SoonestUpTo;
      var nextRunAt := SoonestUpTo(relayStates, |relayStates|);
      if nextRunAt.Some? {
        SchedulePump(Max(0, nextRunAt.value - armNow), armNow);
      }
    }

    method RunPump(now: int, armNow: int)
      modifies this
      ensures State() == Pump(old(State()), config, now, armNow)
    {
      if stopped {
        return;
      }
      hide Launch, Chosen, TimerFor;
      ClearScheduledPump();
      StartDue(now);
      ArmTimer(armNow);
    }

    method OnTimer(now: int, armNow: int)
      requires Enabled(State(), TimerFires)
      modifies this
      ensures State() == Next(old(State()), config, Step(TimerFires, now, armNow))
    {
      timeoutId := None;
      RunPump(now, armNow);
    }

    method OnFulfilled(i: nat, handlerThrows: bool, now: int) returns (notified: bool)
      requires Enabled(State(), Fulfilled(i, handlerThrows))
      modifies this
      ensures forall armNow :: State() == Next(old(State()), config, Step(Fulfilled(i, handlerThrows), now, armNow))
      ensures notified == !old(stopped)
    {
      if stopped {
        relayStates := relayStates[i := relayStates[i].(stage := Settled)];
        return false;
      }
      relayStates := relayStates[i := relayStates[i].(failureCount := 0)];
      relayStates := relayStates[i := relayStates[i].(nextRunAt := now + config.cooldownMs)];
      relayStates := relayStates[i := relayStates[i].(stage := if handlerThrows then NotesHandlerThrew else Settled)];
      return true;
    }

    method OnRejected(i: nat, now: int) returns (notified: bool)
      requires Enabled(State(), Rejected(i))
      modifies this
      ensures forall armNow :: State() == Next(old(State()), config, Step(Rejected(i), now, armNow))
      ensures notified == !old(stopped)
    {
      if stopped {
        relayStates := relayStates[i := relayStates[i].(stage := Settled)];
        return false;
      }
      relayStates := relayStates[i := relayStates[i].(failureCount := relayStates[i].failureCount + 1)];
      var delay := BackoffMs(relayStates[i].failureCount, config.baseMs, config.maxMs);
      relayStates := relayStates[i := relayStates[i].(nextRunAt := now + delay)];
      relayStates := relayStates[i := relayStates[i].(stage := Settled)];
      return true;
    }

    method OnFinally(i: nat, now: int, armNow: int)
      requires Enabled(State(), Finally(i))
      modifies this
      ensures State() == Next(old(State()), config, Step(Finally(i), now, armNow))
    {
      relayStates := relayStates[i := relayStates[i].(stage := Resting)];
      RunPump(now, armNow);
    }

    method StopRollup()
      modifies this
      ensures forall now, armNow :: State() == Next(old(State()), config, Step(Stop, now, armNow))
    {
      stopped := true;
      ClearScheduledPump();
    }
  }

  // ----- What a pump chooses -----

  lemma LaunchStep(relays: seq<RelayState>, chosen: seq<Candidate>, k: nat)
    requires k < |chosen|
    ensures var r, i := Launch(relays, chosen[..k]), chosen[k].index;
      Launch(relays, chosen[..k + 1]) == if i < |r| then r[i := r[i].(stage := Querying)] else r
  {
    assert chosen[..k + 1][..k] == chosen[..k];
  }

  lemma {:induction false} DueUpToIffDue(relays: seq<RelayState>, c: Config, now: int, n: nat, x: Candidate)
    requires n <= |relays|
    ensures x in DueUpTo(relays, c, now, n)
       <==> x.index < n && Due(relays, x.index, now) && x == CandidateAt(relays, c, x.index)
  {
    if n > 0 { DueUpToIffDue(relays, c, now, n - 1, x); }
  }

  lemma ChosenInRange(relays: seq<RelayState>, c: Config, now: int)
    ensures forall k :: 0 <= k < |Chosen(relays, c, now)| ==>
      var x := Chosen(relays, c, now)[k];
      x.index < |relays| && Due(relays, x.index, now) && x == CandidateAt(relays, c, x.index)
  {
    var due := DueUpTo(relays, c, now, |relays|);
    var chosen := Chosen(relays, c, now);
    forall k | 0 <= k < |chosen| ensures chosen[k] in due {
      assert chosen[k] in multiset(Sort(due, NoLater));
    }
    forall k | 0 <= k < |chosen|
      ensures chosen[k].index < |relays| && Due(relays, chosen[k].index, now)
      ensures chosen[k] == CandidateAt(relays, c, chosen[k].index)
    {
      DueUpToIffDue(relays, c, now, |relays|, chosen[k]);
    }
  }
}
