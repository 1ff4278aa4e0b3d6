/**
 Whole runs of the pulse relay scheduler: any sequence of timer ticks, query outcomes, `finally`
 callbacks and a stop, in any order the promises allow, on a clock that never goes back.
 */
module PulseRollupRuns {
  import opened Arithmetic
  import opened Text
  import opened PulseRollup
  import opened PulseRollupLaws

  datatype Run = Run(c: Config, entries: seq<RelayListEntry>, startedAt: int, states: seq<Rollup>, steps: seq<Step>) {
    /** The clock before callback k. */
    function Clock(k: nat): int
      requires k <= |steps|
    {
      if k == 0 then startedAt else steps[k - 1].armNow
    }

    ghost predicate Legal(k: nat)
      requires k < |steps| && |states| == |steps| + 1
    {
      && Enabled(states[k], steps[k].event)
      && states[k + 1] == Next(states[k], c, steps[k])
      && Clock(k) <= steps[k].now <= steps[k].armNow
    }

    ghost predicate Valid() {
      && c.Valid()
      && |states| == |steps| + 1
      && states[0] == Initial(entries, c, startedAt)
      && forall k :: 0 <= k < |steps| ==> Legal(k)
    }

    /** Callback k starts a query of relay i. */
    ghost predicate Starts(k: nat, i: nat)
      requires Valid() && k < |steps|
    {
      assert Legal(k);
      i in Indices(Started(states[k], c, steps[k]))
    }

    /** The number of failures of relay i since its last success, counted from the callbacks. */
    function Streak(k: nat, i: nat): nat
      requires k <= |steps|
    {
      if k == 0 then 0
      else
        match steps[k - 1].event
        case Fulfilled(j, _) => if j == i then 0 else Streak(k - 1, i)
        case Rejected(j) => if j == i then Streak(k - 1, i) + 1 else Streak(k - 1, i)
        case _ => Streak(k - 1, i)
    }
  }

  lemma {:induction false} RelayCount(r: Run, k: nat)
    requires r.Valid() && k < |r.states|
    ensures |r.states[k].relays| == |r.states[0].relays|
  {
    hide Next, Enabled, Initial;
    if k > 0 {
      RelayCount(r, k - 1);
      assert r.Legal(k - 1);
    }
  }

  lemma {:induction false} ClockAdvances(r: Run, j: nat, k: nat)
    requires r.Valid() && j <= k <= |r.steps|
    ensures r.Clock(j) <= r.Clock(k)
  {
    hide Next;
    if j < k {
      ClockAdvances(r, j, k - 1);
      assert r.Legal(k - 1);
    }
  }

  // ----- The concurrency limit -----

  lemma ReceiveInFlight(s: Rollup, c: Config, e: Event, now: int)
    requires Enabled(s, e)
    ensures InFlight(Receive(s, c, e, now).relays) == InFlight(s.relays) - (if e.Finally? then {e.relay} else {})
  {
  }

  lemma {:induction false} ReceiveKeepsLimit(s: Rollup, c: Config, e: Event, now: int)
    requires Enabled(s, e) && |InFlight(s.relays)| <= c.maxConcurrent
    ensures |InFlight(Receive(s, c, e, now).relays)| <= c.maxConcurrent
  {
    ReceiveInFlight(s, c, e, now);
    if e.Finally? {
      assert e.relay in InFlight(s.relays);
      assert |InFlight(s.relays) - {e.relay}| == |InFlight(s.relays)| - 1;
    }
  }

  /** In-flight queries never exceed the limit. */
  lemma {:induction false} LimitHolds(r: Run, k: nat)
    requires r.Valid() && k < |r.states|
    ensures |InFlight(r.states[k].relays)| <= r.c.maxConcurrent
  {
    hide Receive, Chosen, Launch, SoonestUpTo;
    if k == 0 {
      assert InFlight(r.states[0].relays) == {};
    } else {
      LimitHolds(r, k - 1);
      assert r.Legal(k - 1);
      var s, step := r.states[k - 1], r.steps[k - 1];
      ReceiveKeepsLimit(s, r.c, step.event, step.now);
      var received := Receive(s, r.c, step.event, step.now);
      if !received.stopped {
        PumpConservesWork(received, r.c, step.now, step.armNow);
      }
    }
  }

  // ----- No lost wake-up -----

  /** Until `stop`, whenever a relay is idle the timer is armed, and it is due no later than
      that relay, unless the relay was already due at the last callback or the first pump is
      still to come. */
  ghost predicate Awake(r: Run, k: nat)
    requires r.Valid() && k < |r.states|
  {
    var s := r.states[k];
    !s.stopped ==> forall i :: 0 <= i < |s.relays| && !s.relays[i].InFlight() ==>
      && s.timer.Some?
      && s.timer.value <= Max(r.startedAt + r.c.initialDelayMs, Max(r.Clock(k), s.relays[i].nextRunAt))
  }

  lemma {:induction false} NoLostWakeUp(r: Run, k: nat)
    requires r.Valid() && k < |r.states|
    ensures Awake(r, k)
  {
    hide Chosen, Launch, SoonestUpTo;
    if k > 0 {
      NoLostWakeUp(r, k - 1);
      assert r.Legal(k - 1);
      var step := r.steps[k - 1];
      var received := Receive(r.states[k - 1], r.c, step.event, step.now);
      if !received.stopped {
        PumpArmsTimer(received, r.c, step.now, step.armNow);
      }
    }
  }

  /** A pump leaves a due relay idle only when the limit is reached. */
  lemma WorkIsConserved(r: Run, k: nat)
    requires r.Valid() && k < |r.steps|
    requires r.steps[k].event.TimerFires? || r.steps[k].event.Finally?
    requires !r.states[k + 1].stopped
    ensures var after := r.states[k + 1].relays;
      |InFlight(after)| == r.c.maxConcurrent || forall i :: 0 <= i < |after| ==> !Due(after, i, r.steps[k].now)
  {
    assert r.Legal(k);
    LimitHolds(r, k);
    var step := r.steps[k];
    ReceiveKeepsLimit(r.states[k], r.c, step.event, step.now);
    PumpConservesWork(Receive(r.states[k], r.c, step.event, step.now), r.c, step.now, step.armNow);
  }

  // ----- Polling at the limit -----

  /** Relay w is idle and due while the limit is full. */
  ghost predicate Starved(r: Run, k: nat, w: nat)
    requires r.Valid() && k < |r.states|
  {
    var s := r.states[k];
    && !s.stopped && |InFlight(s.relays)| == r.c.maxConcurrent
    && w < |s.relays| && Due(s.relays, w, r.Clock(k))
  }

  /** A callback that ends neither a query nor the scheduler. */
  predicate LeavesFull(e: Event) {
    !e.Finally? && !e.Stop?
  }

  lemma ReceiveKeepsWaiter(s: Rollup, c: Config, e: Event, now: int, w: nat)
    requires Enabled(s, e) && LeavesFull(e) && w < |s.relays| && !s.relays[w].InFlight()
    ensures var received := Receive(s, c, e, now);
      && received.stopped == s.stopped && InFlight(received.relays) == InFlight(s.relays)
      && received.relays[w] == s.relays[w]
  {
    ReceiveInFlight(s, c, e, now);
  }

  /** While every callback leaves the limit full, the waiting relay stays starved ... */
  lemma {:induction false} StarvationLasts(r: Run, w: nat, a: nat, k: nat)
    requires r.Valid() && a <= k < |r.states| && Starved(r, a, w)
    requires forall m :: a <= m < k ==> LeavesFull(r.steps[m].event)
    ensures Starved(r, k, w)
  {
    if a < k {
      StarvationLasts(r, w, a, k - 1);
      assert r.Legal(k - 1);
      var s, step := r.states[k - 1], r.steps[k - 1];
      ReceiveKeepsWaiter(s, r.c, step.event, step.now, w);
      if step.event.TimerFires? {
        FullPumpStartsNothing(Receive(s, r.c, step.event, step.now), r.c, step.now, step.armNow);
      }
    }
  }

  /** ... and the scheduler polls: every timer tick starts nothing and re-arms the timer with no delay,
      until a query settles or the scheduler stops. */
  lemma PollsWhileFull(r: Run, w: nat, a: nat, k: nat)
    requires r.Valid() && a <= k < |r.steps| && Starved(r, a, w)
    requires forall m :: a <= m <= k ==> LeavesFull(r.steps[m].event)
    requires r.steps[k].event.TimerFires?
    ensures forall i: nat :: !r.Starts(k, i)
    ensures r.states[k + 1].relays == r.states[k].relays && r.states[k + 1].timer == Some(r.steps[k].armNow)
  {
    StarvationLasts(r, w, a, k);
    assert r.Legal(k);
    var step := r.steps[k];
    var received := Receive(r.states[k], r.c, step.event, step.now);
    FullPumpStartsNothing(received, r.c, step.now, step.armNow);
    PumpArmsTimer(received, r.c, step.now, step.armNow);
    assert Due(r.states[k + 1].relays, w, step.armNow);
  }

  // ----- Stop -----

  lemma {:induction false} StopIsFinal(r: Run, j: nat, k: nat)
    requires r.Valid() && j <= k < |r.states| && r.states[j].stopped
    ensures r.states[k].stopped
  {
    hide Chosen, Launch, SoonestUpTo;
    if j < k {
      StopIsFinal(r, j, k - 1);
      assert r.Legal(k - 1);
    }
  }

  /** After `stop` no query starts, no callback of the caller runs, and no timer is ever armed. */
  lemma SilentAfterStop(r: Run, j: nat, k: nat)
    requires r.Valid() && j < k < |r.steps| && r.steps[j].event.Stop?
    ensures forall i: nat :: !r.Starts(k, i)
    ensures !Notifies(r.states[k], r.steps[k])
    ensures r.states[k].timer.None?
  {
    assert r.Legal(j) && r.Legal(k);
    StopIsFinal(r, j + 1, k);
    NoTimerWhenStopped(r, k);
  }

  lemma {:induction false} NoTimerWhenStopped(r: Run, k: nat)
    requires r.Valid() && k < |r.states| && r.states[k].stopped
    ensures r.states[k].timer.None?
  {
    hide Chosen, Launch, SoonestUpTo;
    if k > 0 {
      assert r.Legal(k - 1);
      if r.states[k - 1].stopped { NoTimerWhenStopped(r, k - 1); }
    }
  }

  lemma {:induction false} StoppedIffStop(r: Run, k: nat)
    requires r.Valid() && k < |r.states|
    ensures r.states[k].stopped <==> exists j :: 0 <= j < k && r.steps[j].event.Stop?
  {
    hide Chosen, Launch, SoonestUpTo, TimerFor;
    if k > 0 {
      StoppedIffStop(r, k - 1);
      assert r.Legal(k - 1);
    }
  }

  /** The caller hears of every outcome of every query until the scheduler is stopped, and of nothing else. */
  lemma NotifiesUntilStop(r: Run, k: nat)
    requires r.Valid() && k < |r.steps|
    ensures Notifies(r.states[k], r.steps[k]) <==>
      && (r.steps[k].event.Fulfilled? || r.steps[k].event.Rejected?)
      && forall j :: 0 <= j < k ==> !r.steps[j].event.Stop?
  {
    StoppedIffStop(r, k);
  }

  // ----- The first callback -----

  /** The scheduler starts with every relay idle and due, and one timer after the initial delay; nothing
      but that timer or a stop can come first. */
  lemma FirstTickFirst(r: Run)
    requires r.Valid()
    ensures r.states[0].timer == Some(r.startedAt + r.c.initialDelayMs) && !r.states[0].stopped
    ensures forall i :: 0 <= i < |r.states[0].relays| ==> Due(r.states[0].relays, i, 0)
    ensures |r.steps| > 0 ==> r.steps[0].event.TimerFires? || r.steps[0].event.Stop?
  {
    if |r.steps| > 0 { assert r.Legal(0); }
  }

  // ----- One relay across a callback -----

  /** How one callback changes one relay: a start, its own query's outcome, or nothing. */
  lemma RelayAcrossStep(r: Run, k: nat, i: nat)
    requires r.Valid() && k < |r.steps| && i < |r.states[k].relays|
    ensures r.Legal(k) && |r.states[k + 1].relays| == |r.states[k].relays|
    ensures var before, after := r.states[k].relays[i], r.states[k + 1].relays[i];
      var e := r.steps[k].event;
      var received := Receive(r.states[k], r.c, e, r.steps[k].now).relays[i];
      && after == (if r.Starts(k, i) then received.(stage := Querying) else received)
      && (r.Starts(k, i) ==> received.stage == Resting && received.nextRunAt <= r.steps[k].now)
      && (received == before || ((e.Fulfilled? || e.Rejected? || e.Finally?) && e.relay == i))
  {
    assert r.Legal(k);
    var received := Receive(r.states[k], r.c, r.steps[k].event, r.steps[k].now);
    var chosen := Started(r.states[k], r.c, r.steps[k]);
    LaunchEffect(received.relays, chosen, i);
    ChosenInRange(received.relays, r.c, r.steps[k].now);
  }

  /** A relay is never queried twice at once: between two starts its `finally` callback runs. */
  lemma {:induction false} NoDoubleStart(r: Run, a: nat, b: nat, i: nat)
    requires r.Valid() && a < b < |r.steps| && i < |r.states[0].relays|
    requires r.Starts(a, i)
    requires forall k :: a < k <= b ==> r.steps[k].event != Finally(i)
    ensures |r.states[b].relays| == |r.states[0].relays|
    ensures !r.Starts(b, i) && r.states[b].relays[i].InFlight()
  {
    hide Next, Started;
    RelayCount(r, b);
    if b == a + 1 {
      RelayCount(r, a);
      RelayAcrossStep(r, a, i);
    } else {
      NoDoubleStart(r, a, b - 1, i);
      RelayCount(r, b - 1);
      RelayAcrossStep(r, b - 1, i);
    }
    RelayAcrossStep(r, b, i);
  }

  // ----- Backoff -----

  lemma {:induction false} Pow2Grows(m: nat, n: nat)
    requires m <= n
    ensures Pow2(m) <= Pow2(n)
  {
    if m < n { Pow2Grows(m, n - 1); }
  }

  /** The backoff is at least 1 ms, at most the maximum, and never shrinks as failures add up. */
  lemma BackoffBounds(m: nat, n: nat, baseMs: nat, maxMs: nat)
    requires m <= n && 1 <= baseMs <= maxMs
    ensures 1 <= BackoffMs(m, baseMs, maxMs) <= BackoffMs(n, baseMs, maxMs) <= maxMs
  {
    var a, b := Max(1, m) - 1, Max(1, n) - 1;
    Pow2Grows(a, b);
    ProductMonotone(1, Pow2(a), baseMs);
    ProductMonotone(Pow2(a), Pow2(b), baseMs);
  }

  /** The failure counter is the number of failures since the last success. */
  lemma {:induction false} FailureCountIsStreak(r: Run, k: nat, i: nat)
    requires r.Valid() && k < |r.states| && i < |r.states[0].relays|
    ensures |r.states[k].relays| == |r.states[0].relays|
    ensures !r.states[k].stopped ==> r.states[k].relays[i].failureCount == r.Streak(k, i)
  {
    RelayCount(r, k);
    if k > 0 {
      FailureCountIsStreak(r, k - 1, i);
      RelayAcrossStep(r, k - 1, i);
      if r.states[k - 1].stopped { StopIsFinal(r, k - 1, k); }
    }
  }

  /** The backoff after the first failure is the base, and every further failure doubles it, up to the
      maximum. */
  lemma BackoffDoubles(n: nat, baseMs: nat, maxMs: nat)
    requires n >= 1 && baseMs <= maxMs
    ensures BackoffMs(0, baseMs, maxMs) == BackoffMs(1, baseMs, maxMs) == baseMs
    ensures BackoffMs(n + 1, baseMs, maxMs) == Min(maxMs, 2 * BackoffMs(n, baseMs, maxMs))
  {
    assert Pow2(0) == 1;
    assert baseMs * Pow2(n) == 2 * (baseMs * Pow2(n - 1));
  }

  /** What a failure or a success sets: the time of the callback, plus the backoff of the current streak
      or the cooldown. A success whose notes handler throws is followed by a failure. */
  ghost predicate SettlesUntil(r: Run, a: nat, i: nat, until: int)
    requires r.Valid() && a < |r.steps|
  {
    var step, n := r.steps[a], r.Streak(a + 1, i);
    && !r.states[a].stopped
    && ((step.event == Rejected(i) && n >= 1 && until == step.now + Min(r.c.maxMs, r.c.baseMs * Pow2(n - 1)))
        || (step.event == Fulfilled(i, false) && until == step.now + r.c.cooldownMs))
  }

  lemma SettledRelay(r: Run, a: nat, i: nat, until: int)
    requires r.Valid() && a < |r.steps| && i < |r.states[0].relays| && SettlesUntil(r, a, i, until)
    ensures |r.states[a + 1].relays| == |r.states[0].relays|
    ensures r.states[a + 1].relays[i].stage == Settled && r.states[a + 1].relays[i].nextRunAt == until
  {
    FailureCountIsStreak(r, a, i);
    FailureCountIsStreak(r, a + 1, i);
    RelayAcrossStep(r, a, i);
  }

  /** Until its next start, a settled relay is due exactly at the time that was set, no sooner and no later. */
  lemma {:induction false} DueExactlyThen(r: Run, a: nat, k: nat, i: nat, until: int)
    requires r.Valid() && a < k < |r.states| && i < |r.states[0].relays| && SettlesUntil(r, a, i, until)
    requires forall m :: a < m < k ==> !r.Starts(m, i)
    ensures |r.states[k].relays| == |r.states[0].relays|
    ensures r.states[k].relays[i].nextRunAt == until && r.states[k].relays[i].stage in {Settled, Resting}
  {
    if k == a + 1 {
      SettledRelay(r, a, i, until);
    } else {
      DueExactlyThen(r, a, k - 1, i, until);
      RelayAcrossStep(r, k - 1, i);
    }
  }

  lemma {:induction false} WaitsUntilDue(r: Run, a: nat, k: nat, i: nat, until: int)
    requires r.Valid() && a < k < |r.states| && i < |r.states[0].relays| && SettlesUntil(r, a, i, until)
    ensures |r.states[k].relays| == |r.states[0].relays|
    ensures r.Clock(k) >= until
         || (r.states[k].relays[i].nextRunAt == until && r.states[k].relays[i].stage in {Settled, Resting})
  {
    if k == a + 1 {
      SettledRelay(r, a, i, until);
    } else {
      WaitsUntilDue(r, a, k - 1, i, until);
      RelayAcrossStep(r, k - 1, i);
    }
  }

  lemma NotStartedBefore(r: Run, a: nat, b: nat, i: nat, until: int)
    requires r.Valid() && a < b < |r.steps| && i < |r.states[0].relays| && SettlesUntil(r, a, i, until)
    requires r.Starts(b, i)
    ensures r.steps[b].now >= until
  {
    WaitsUntilDue(r, a, b, i, until);
    RelayAcrossStep(r, b, i);
  }

  /** After its n-th failure in a row, a relay is not started again for min(max, base * 2^(n-1)) ms. */
  lemma BackoffHolds(r: Run, a: nat, b: nat, i: nat)
    requires r.Valid() && a < b < |r.steps| && i < |r.states[0].relays|
    requires r.steps[a].event == Rejected(i) && !r.states[a].stopped
    requires r.Starts(b, i)
    ensures r.Streak(a + 1, i) >= 1
    ensures r.steps[b].now >= r.steps[a].now + Min(r.c.maxMs, r.c.baseMs * Pow2(r.Streak(a + 1, i) - 1))
  {
    NotStartedBefore(r, a, b, i, r.steps[a].now + Min(r.c.maxMs, r.c.baseMs * Pow2(r.Streak(a + 1, i) - 1)));
  }

  /** After a success a relay is not started again for the cooldown. */
  lemma CooldownHolds(r: Run, a: nat, b: nat, i: nat)
    requires r.Valid() && a < b < |r.steps| && i < |r.states[0].relays|
    requires r.steps[a].event == Fulfilled(i, false) && !r.states[a].stopped
    requires r.Starts(b, i)
    ensures r.steps[b].now >= r.steps[a].now + r.c.cooldownMs
  {
    NotStartedBefore(r, a, b, i, r.steps[a].now + r.c.cooldownMs);
  }

  // ----- Bounded overtaking -----

  /** Relay w is idle in every state from a to b. */
  ghost predicate Waits(r: Run, w: nat, a: nat, b: nat)
    requires r.Valid() && a <= b < |r.states| && w < |r.states[0].relays|
  {
    forall k :: a <= k <= b ==> w < |r.states[k].relays| && !r.states[k].relays[w].InFlight()
  }

  lemma {:induction false} WaiterUnchanged(r: Run, w: nat, a: nat, k: nat, b: nat)
    requires r.Valid() && a <= k <= b < |r.states| && w < |r.states[0].relays| && Waits(r, w, a, b)
    ensures r.states[k].relays[w] == r.states[a].relays[w]
  {
    if a < k {
      WaiterUnchanged(r, w, a, k - 1, b);
      RelayAcrossStep(r, k - 1, w);
      assert !r.states[k].relays[w].InFlight() && !r.states[k - 1].relays[w].InFlight();
    }
  }

  /** Once started, a relay is still being queried or is due again only after time `t`. */
  lemma {:induction false} CompletionMovesBack(r: Run, x: nat, p: nat, k: nat, t: int, strict: bool)
    requires r.Valid() && p < k < |r.states| && x < |r.states[0].relays|
    requires r.Starts(p, x) && t <= r.steps[p].now && (strict ==> r.c.cooldownMs > 0)
    ensures |r.states[k].relays| == |r.states[0].relays|
    ensures var y := r.states[k].relays[x];
      r.states[k].stopped || y.stage == Querying || (if strict then y.nextRunAt > t else y.nextRunAt >= t)
  {
    hide Next, Started, BackoffMs;
    RelayCount(r, k - 1);
    RelayAcrossStep(r, k - 1, x);
    if k > p + 1 {
      CompletionMovesBack(r, x, p, k - 1, t, strict);
      assert r.Legal(p) && r.Legal(k - 1);
      ClockAdvances(r, p + 1, k - 1);
      var failures := r.states[k - 1].relays[x].failureCount + 1;
      BackoffBounds(failures, failures, r.c.baseMs, r.c.maxMs);
      if r.states[k - 1].stopped { StopIsFinal(r, k - 1, k); }
    }
  }

  /** In the callback that starts both, w is started before x. */
  ghost predicate StartsAhead(r: Run, q: nat, w: nat, x: nat)
    requires r.Valid() && q < |r.steps|
  {
    assert r.Legal(q);
    var started := Started(r.states[q], r.c, r.steps[q]);
    exists a, b :: 0 <= a < b < |started| && started[a].index == w && started[b].index == x
  }

  /** Bounded overtaking: while relay w is idle and due, any other relay x is started at most once before
      it. If a callback starts x a second time, the same callback starts w, and ahead of x; provided neither
      is the current relay, and the success cooldown is positive or w comes first in the list. */
  lemma BoundedOvertaking(r: Run, w: nat, x: nat, a: nat, p: nat, q: nat)
    requires r.Valid() && a <= p < q < |r.steps|
    requires w < |r.states[0].relays| && x < |r.states[0].relays| && w != x
    requires r.states[0].relays[w].relay.url != r.c.currentRelayUrl
    requires r.states[0].relays[x].relay.url != r.c.currentRelayUrl
    requires r.c.cooldownMs > 0 || w < x
    requires Waits(r, w, a, q) && r.states[a].relays[w].nextRunAt <= r.steps[a].now
    ensures r.Starts(p, x) && r.Starts(q, x) ==> StartsAhead(r, q, w, x)
  {
    if r.Starts(p, x) && r.Starts(q, x) {
      var t := r.states[a].relays[w].nextRunAt;
      StartTimes(r, a, p);
      StartTimes(r, a, q);
      CompletionMovesBack(r, x, p, q, t, r.c.cooldownMs > 0);
      WaiterUnchanged(r, w, a, q, q);
      UrlFixed(r, q, w);
      UrlFixed(r, q, x);
      StartableIsIdle(r, q, x);
      UrgentStartsAhead(r, q, w, x);
    }
  }

  /** A started relay is not being queried, and the scheduler is not stopped. */
  lemma StartableIsIdle(r: Run, q: nat, x: nat)
    requires r.Valid() && q < |r.steps| && x < |r.states[q].relays| && r.Starts(q, x)
    ensures !r.states[q].stopped && r.states[q].relays[x].stage != Querying
  {
    assert r.Legal(q);
    RelayAcrossStep(r, q, x);
  }

  lemma StartTimes(r: Run, a: nat, p: nat)
    requires r.Valid() && a <= p < |r.steps|
    ensures r.steps[a].now <= r.steps[p].now
  {
    hide Next;
    assert r.Legal(a) && r.Legal(p);
    if a < p { ClockAdvances(r, a + 1, p); }
  }

  lemma {:induction false} UrlFixed(r: Run, k: nat, i: nat)
    requires r.Valid() && k < |r.states| && i < |r.states[0].relays|
    ensures |r.states[k].relays| == |r.states[0].relays| && r.states[k].relays[i].relay == r.states[0].relays[i].relay
  {
    if k > 0 {
      UrlFixed(r, k - 1, i);
      RelayAcrossStep(r, k - 1, i);
    }
  }

  /** What a callback compares when it starts relay x: its place and time are those of the state before. */
  lemma CandidateUnchanged(r: Run, q: nat, i: nat)
    requires r.Valid() && q < |r.steps| && i < |r.states[q].relays|
    requires !r.states[q].relays[i].InFlight() || r.Starts(q, i)
    ensures r.Legal(q)
    ensures var received := Receive(r.states[q], r.c, r.steps[q].event, r.steps[q].now).relays;
      CandidateAt(received, r.c, i) == CandidateAt(r.states[q].relays, r.c, i)
  {
    assert r.Legal(q);
    RelayAcrossStep(r, q, i);
  }

  /** A callback that starts x also starts every idle, due relay that is more urgent, and ahead of x. */
  lemma UrgentStartsAhead(r: Run, q: nat, w: nat, x: nat)
    requires r.Valid() && q < |r.steps| && w < |r.states[q].relays| && x < |r.states[q].relays|
    requires r.Starts(q, x)
    requires !r.states[q].relays[w].InFlight() && r.states[q].relays[w].nextRunAt <= r.steps[q].now
    requires Compare(CandidateAt(r.states[q].relays, r.c, w), CandidateAt(r.states[q].relays, r.c, x)) < 0
    ensures StartsAhead(r, q, w, x)
  {
    hide Next, Chosen;
    CandidateUnchanged(r, q, w);
    CandidateUnchanged(r, q, x);
    RelayAcrossStep(r, q, w);
    var received := Receive(r.states[q], r.c, r.steps[q].event, r.steps[q].now).relays;
    var started := Started(r.states[q], r.c, r.steps[q]);
    assert received[w] == r.states[q].relays[w];
    var b :| 0 <= b < |started| && started[b].index == x;
    ChosenInRange(received, r.c, r.steps[q].now);
    if w !in Indices(started) {
      ChosenBeforeWaiting(received, r.c, r.steps[q].now, b, w);
      assert false;
    }
    var a :| 0 <= a < |started| && started[a].index == w;
    if b < a {
      ChosenInOrder(received, r.c, r.steps[q].now, b, a);
      assert false;
    }
  }
}
