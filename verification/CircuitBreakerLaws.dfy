/**
 Whole runs of the breaker: the counters stay below their thresholds under any interleaving of
 its operations, and a failing upstream is called only so often.
 */
module CircuitBreakerLaws {
  import opened Arithmetic
  import opened CircuitBreaker

  datatype Operation = Ask(now: int) | Success | Failed(now: int)

  function Apply(b: Core, c: Config, op: Operation): Core {
    match op
    case Ask(now) => AfterAllow(b, c, now)
    case Success => AfterSuccess(b, c)
    case Failed(now) => AfterFailure(b, c, now)
  }

  function ApplyAll(c: Config, ops: seq<Operation>): Core {
    if ops == [] then FRESH else Apply(ApplyAll(c, ops[..|ops| - 1]), c, ops[|ops| - 1])
  }

  ghost predicate Inv(b: Core, c: Config) {
    && (b.state == Closed ==> b.consecutiveFails < c.failureThreshold)
    && (b.state == HalfOpen ==> b.halfOpenFails < c.halfOpenFailureThreshold && b.halfOpenSuccess < c.successThreshold)
  }

  /** Concurrent callers included: asks and outcomes may arrive in any order. */
  lemma {:induction false} CountersBelowThresholds(c: Config, ops: seq<Operation>)
    requires c.Positive()
    ensures Inv(ApplyAll(c, ops), c)
  {
    if ops != [] { CountersBelowThresholds(c, ops[..|ops| - 1]); }
  }

  /** `Allow` refuses exactly while `State` reports open. */
  predicate Agree(b: Core, c: Config, now: int) {
    !Admits(b, c, now) <==> Reported(b, c, now) == Open
  }

  /** A half-open breaker that has no failure left to give: it refuses, yet reports half-open. */
  predicate Wedged(b: Core, c: Config) {
    b.state == HalfOpen && b.halfOpenFails >= c.halfOpenFailureThreshold
  }

  lemma {:induction false} NeverWedged(c: Config, ops: seq<Operation>)
    requires c.halfOpenFailureThreshold > 0
    ensures !Wedged(ApplyAll(c, ops), c)
  {
    if ops != [] { NeverWedged(c, ops[..|ops| - 1]); }
  }

  /** n failures in a row at time 0. */
  function Failures(n: nat): seq<Operation> {
    if n == 0 then [] else Failures(n - 1) + [Failed(0)]
  }

  lemma {:induction false} FailuresOpen(c: Config, n: nat)
    requires n <= Max(1, c.failureThreshold)
    ensures var b := ApplyAll(c, Failures(n));
      b == Core(if n == Max(1, c.failureThreshold) then Open else Closed, n, 0, 0, 0)
  {
    if n > 0 {
      FailuresOpen(c, n - 1);
      assert Failures(n)[..|Failures(n)| - 1] == Failures(n - 1);
    }
  }

  /** Enough failures to open, and one call once the recovery time is over. */
  function Reopening(c: Config): seq<Operation> {
    Failures(Max(1, c.failureThreshold)) + [Ask(c.recoveryTimeout)]
  }

  lemma ReopeningIsHalfOpen(c: Config)
    ensures ApplyAll(c, Reopening(c)) == Core(HalfOpen, Max(1, c.failureThreshold), 0, 0, 0)
  {
    var fails := Failures(Max(1, c.failureThreshold));
    FailuresOpen(c, Max(1, c.failureThreshold));
    assert Reopening(c)[..|Reopening(c)| - 1] == fails;
  }

  /** `Allow` refuses exactly while `State` reports open, whatever asks and outcomes arrive in
      whatever order, if and only if the half-open failure threshold is positive. */
  lemma RefusesIffOpen(c: Config)
    ensures (forall ops, now :: Agree(ApplyAll(c, ops), c, now)) <==> c.halfOpenFailureThreshold > 0
  {
    if c.halfOpenFailureThreshold > 0 {
      forall ops, now ensures Agree(ApplyAll(c, ops), c, now) {
        NeverWedged(c, ops);
      }
    } else {
      ReopeningIsHalfOpen(c);
      assert !Agree(ApplyAll(c, Reopening(c)), c, c.recoveryTimeout);
    }
  }

  /** Zero settings are replaced, so a breaker made from non-negative settings has positive ones. */
  lemma DefaultsArePositive(c: Config)
    ensures WithDefaults(c).Positive() <==>
      c.failureThreshold >= 0 && c.recoveryTimeout >= 0 && c.successThreshold >= 0 && c.halfOpenFailureThreshold >= 0
  {
  }

  /** The defaults, and that settings that are not zero are kept. */
  lemma DefaultSettings(c: Config)
    ensures WithDefaults(Config(0, 0, 0, 0)) == Config(5, 30000000000, 1, 3)
    ensures c.Positive() ==> WithDefaults(c) == c
  {
  }

  // ----- What the counters count -----

  /** Failures recorded since the last success, or since the start. */
  function FailureStreak(ops: seq<Operation>): nat {
    if ops == [] || ops[|ops| - 1].Success? then 0
    else FailureStreak(ops[..|ops| - 1]) + (if ops[|ops| - 1].Failed? then 1 else 0)
  }

  /** A closed breaker has counted exactly the failures in a row. */
  lemma {:induction false} ClosedCountsStreak(c: Config, ops: seq<Operation>)
    ensures var b := ApplyAll(c, ops); b.state == Closed ==> b.consecutiveFails == FailureStreak(ops)
  {
    if ops != [] { ClosedCountsStreak(c, ops[..|ops| - 1]); }
  }

  /** The operations since the breaker last became half-open. */
  function Trial(c: Config, ops: seq<Operation>): seq<Operation> {
    if ops == [] || ApplyAll(c, ops).state != HalfOpen then []
    else
      var init := ops[..|ops| - 1];
      if ApplyAll(c, init).state != HalfOpen then [] else Trial(c, init) + [ops[|ops| - 1]]
  }

  function Successes(ops: seq<Operation>): nat {
    if ops == [] then 0 else Successes(ops[..|ops| - 1]) + (if ops[|ops| - 1].Success? then 1 else 0)
  }

  function FailuresIn(ops: seq<Operation>): nat {
    if ops == [] then 0 else FailuresIn(ops[..|ops| - 1]) + (if ops[|ops| - 1].Failed? then 1 else 0)
  }

  /** A half-open breaker has counted exactly the outcomes of its trial. */
  lemma {:induction false} HalfOpenCountsTrial(c: Config, ops: seq<Operation>)
    ensures var b := ApplyAll(c, ops);
      b.state == HalfOpen ==>
        b.halfOpenSuccess == Successes(Trial(c, ops)) && b.halfOpenFails == FailuresIn(Trial(c, ops))
  {
    if ops != [] {
      var init, op := ops[..|ops| - 1], ops[|ops| - 1];
      HalfOpenCountsTrial(c, init);
      if ApplyAll(c, ops).state == HalfOpen && ApplyAll(c, init).state == HalfOpen {
        assert (Trial(c, init) + [op])[..|Trial(c, init)|] == Trial(c, init);
      }
    }
  }

  /** When the breaker changes its state, told from the operations alone: it opens at the failure that
      completes a streak or the failures of a trial, tries again at the first call after the recovery time,
      and closes at the success that completes a trial. */
  lemma StateChanges(c: Config, ops: seq<Operation>, op: Operation)
    ensures var b, b' := ApplyAll(c, ops), ApplyAll(c, ops + [op]);
      && (b.state == Closed ==>
            b'.state == if op.Failed? && FailureStreak(ops) + 1 >= c.failureThreshold then Open else Closed)
      && (b.state == Open ==>
            b'.state == if op.Ask? && op.now - b.lastOpenedAt >= c.recoveryTimeout then HalfOpen else Open)
      && (b.state == HalfOpen ==>
            b'.state == if op.Success? && Successes(Trial(c, ops)) + 1 >= c.successThreshold then Closed
                        else if op.Failed? && FailuresIn(Trial(c, ops)) + 1 >= c.halfOpenFailureThreshold then Open
                        else HalfOpen)
      && b'.lastOpenedAt == if b.state != Open && b'.state == Open then op.now else b.lastOpenedAt
  {
    assert (ops + [op])[..|ops|] == ops;
    ClosedCountsStreak(c, ops);
    HalfOpenCountsTrial(c, ops);
  }

  // ----- What the shim answers -----

  /** A line is accepted exactly when it is a new event and its own upstream call allowed it; a "blocked"
      rejection carries the reason of the call that denied it; everything else is unavailable, silent, or
      a failure. */
  lemma AnswersVerdict(b: Core, c: Config, endpointValid: bool, x: Exchange, id: string)
    ensures Answer(b, c, endpointValid, x) == Accept(id) <==>
      x.line == NewEvent(id) && Calls(b, c, endpointValid, x) && x.upstream.Verdict? && x.upstream.allow
    ensures Calls(b, c, endpointValid, x) && x.upstream.Verdict? && !x.upstream.allow ==>
      Answer(b, c, endpointValid, x) == Reject(x.line.id, "blocked: " + x.upstream.reason)
    ensures Calls(b, c, endpointValid, x) && !x.upstream.Verdict? ==>
      Answer(b, c, endpointValid, x) == Reject(x.line.id, "error: relay authorization unavailable")
    ensures x.line.NewEvent? && !Admits(b, c, x.askedAt) ==>
      Answer(b, c, endpointValid, x) == Reject(x.line.id, "error: relay authorization unavailable")
    ensures Answer(b, c, endpointValid, x) == Silence <==> x.line == OtherType
    ensures Answer(b, c, endpointValid, x) == Failure <==>
      x.line == Malformed || (x.line.NewEvent? && Admits(b, c, x.askedAt) && !endpointValid)
  {
  }

  /** Upstream is asked exactly for the new events the breaker lets through, with a valid endpoint. */
  lemma CallsUnlessRefused(c: Config, endpointValid: bool, run: seq<Exchange>, x: Exchange)
    requires c.halfOpenFailureThreshold > 0
    ensures var b := AfterRun(FRESH, c, endpointValid, run);
      Calls(b, c, endpointValid, x) <==> x.line.NewEvent? && endpointValid && Reported(b, c, x.askedAt) != Open
  {
    RunNotWedged(c, endpointValid, run);
  }

  /** Over whole runs: the k-th answer accepts an event only if the k-th exchange called upstream for it
      and was told to. */
  lemma NothingAcceptedUnasked(c: Config, endpointValid: bool, run: seq<Exchange>, k: nat, id: string)
    requires k < |run|
    requires Answer(AfterRun(FRESH, c, endpointValid, run[..k]), c, endpointValid, run[k]) == Accept(id)
    ensures run[k].line == NewEvent(id) && run[k].upstream.Verdict? && run[k].upstream.allow
    ensures Drive(c, endpointValid, run[..k + 1]).calls == Drive(c, endpointValid, run[..k]).calls + 1
  {
    DriveFollowsRun(c, endpointValid, run[..k]);
    assert run[..k + 1][..k] == run[..k];
  }

  lemma {:induction false} DriveFollowsRun(c: Config, endpointValid: bool, run: seq<Exchange>)
    ensures Drive(c, endpointValid, run).core == AfterRun(FRESH, c, endpointValid, run)
  {
    if run != [] { DriveFollowsRun(c, endpointValid, run[..|run| - 1]); }
  }

  // ----- The shim against upstream -----

  /** A run of the shim: the breaker, the upstream calls made, how often the breaker opened,
      and when it first did. */
  datatype Tally = Tally(core: Core, calls: nat, openings: nat, firstOpenedAt: int)

  function Drive(c: Config, endpointValid: bool, run: seq<Exchange>): Tally {
    if run == [] then Tally(FRESH, 0, 0, 0)
    else Advance(Drive(c, endpointValid, run[..|run| - 1]), c, endpointValid, run[|run| - 1])
  }

  /** A call that leaves the breaker open has opened it: no call is made through an open breaker. */
  function Advance(t: Tally, c: Config, endpointValid: bool, x: Exchange): Tally {
    var after := AfterExchange(t.core, c, endpointValid, x);
    var calls := Calls(t.core, c, endpointValid, x);
    var opens := calls && after.state == Open;
    Tally(
      after,
      t.calls + (if calls then 1 else 0),
      t.openings + (if opens then 1 else 0),
      if opens && t.openings == 0 then x.answeredAt else t.firstOpenedAt)
  }

  ghost predicate Sequential(run: seq<Exchange>) {
    && (forall k :: 0 <= k < |run| ==> run[k].askedAt <= run[k].answeredAt)
    && (forall k :: 0 < k < |run| ==> run[k - 1].answeredAt <= run[k].askedAt)
  }

  /** How far a run whose calls all fail can have got by the time of its latest line. */
  ghost predicate Paced(t: Tally, c: Config, clock: int)
    requires c.Positive()
  {
    && (t.openings == 0 ==> t.core.state == Closed && t.calls == t.core.consecutiveFails < c.failureThreshold)
    && (t.openings > 0 ==>
         && t.core.state != Closed
         && t.calls == c.failureThreshold + Times(t.openings - 1, c.halfOpenFailureThreshold)
                       + (if t.core.state == HalfOpen then t.core.halfOpenFails else 0)
         && (t.openings > 1 ==> clock >= t.firstOpenedAt + Times(t.openings - 1, c.recoveryTimeout)))
    && (t.core.state == Open ==> t.core.lastOpenedAt >= t.firstOpenedAt + Times(t.openings - 1, c.recoveryTimeout))
    && (t.core.state == HalfOpen ==>
         && t.core.halfOpenFails < c.halfOpenFailureThreshold
         && clock >= t.firstOpenedAt + Times(t.openings, c.recoveryTimeout))
  }

  lemma PacedStep(t: Tally, c: Config, clock: int, endpointValid: bool, x: Exchange)
    requires c.Positive() && Paced(t, c, clock)
    requires clock <= x.askedAt <= x.answeredAt && !x.upstream.Verdict?
    ensures Paced(Advance(t, c, endpointValid, x), c, x.askedAt)
  {
  }

  lemma {:induction false} RunIsPaced(c: Config, endpointValid: bool, run: seq<Exchange>)
    requires c.Positive() && Sequential(run) && run != []
    requires forall k :: 0 <= k < |run| ==> !run[k].upstream.Verdict?
    ensures Paced(Drive(c, endpointValid, run), c, run[|run| - 1].askedAt)
  {
    var init, x := run[..|run| - 1], run[|run| - 1];
    if init == [] {
      PacedStep(Tally(FRESH, 0, 0, 0), c, x.askedAt, endpointValid, x);
    } else {
      RunIsPaced(c, endpointValid, init);
      PacedStep(Drive(c, endpointValid, init), c, init[|init| - 1].askedAt, endpointValid, x);
    }
  }

  lemma RoundsBound(rounds: nat, extra: nat, per: nat, elapsed: nat, unit: nat)
    requires unit > 0 && elapsed >= Times(rounds, unit)
    requires rounds == 0 ==> extra == 0
    requires extra <= per
    ensures Times(rounds, per) <= per * (elapsed / unit)
    ensures rounds > 0 ==> Times(rounds - 1, per) + extra <= per * (elapsed / unit)
  {
    QuotientAtLeast(elapsed, rounds, unit);
    TimesIsProduct(rounds, per);
    ProductMonotone(rounds, elapsed / unit, per);
  }

  /** The call bound: by any time T after the breaker first opened, an upstream that always fails
      has been called at most FailureThreshold + HalfOpenFailureThreshold * floor(T / RecoveryTimeout)
      times; before that, fewer than FailureThreshold times. */
  lemma CallBound(c: Config, endpointValid: bool, run: seq<Exchange>, now: int)
    requires c.Positive() && Sequential(run) && run != []
    requires forall k :: 0 <= k < |run| ==> !run[k].upstream.Verdict?
    requires now >= run[|run| - 1].askedAt
    ensures var t := Drive(c, endpointValid, run);
      && (t.openings == 0 ==> t.calls < c.failureThreshold)
      && (t.openings > 0 && now >= t.firstOpenedAt ==>
           t.calls <= c.failureThreshold + c.halfOpenFailureThreshold * ((now - t.firstOpenedAt) / c.recoveryTimeout))
  {
    var t := Drive(c, endpointValid, run);
    RunIsPaced(c, endpointValid, run);
    if t.openings > 0 && now >= t.firstOpenedAt {
      var half := t.core.state == HalfOpen;
      RoundsBound(if half then t.openings else t.openings - 1, if half then t.core.halfOpenFails else 0,
        c.halfOpenFailureThreshold, now - t.firstOpenedAt, c.recoveryTimeout);
    }
  }

  // ----- Wedging -----

  function AfterRun(b: Core, c: Config, endpointValid: bool, run: seq<Exchange>): Core {
    if run == [] then b
    else AfterExchange(AfterRun(b, c, endpointValid, run[..|run| - 1]), c, endpointValid, run[|run| - 1])
  }

  /** What one line of the shim does to its breaker: a new event asks, and when upstream is called, a verdict
      delivered is a success, whatever it says, and every other end of the call a failure. */
  function LineOperations(b: Core, c: Config, endpointValid: bool, x: Exchange): seq<Operation> {
    if !x.line.NewEvent? then []
    else if !Calls(b, c, endpointValid, x) then [Ask(x.askedAt)]
    else [Ask(x.askedAt), if x.upstream.Verdict? then Success else Failed(x.answeredAt)]
  }

  function RunOperations(c: Config, endpointValid: bool, run: seq<Exchange>): seq<Operation> {
    if run == [] then []
    else
      var before, x := run[..|run| - 1], run[|run| - 1];
      RunOperations(c, endpointValid, before)
        + LineOperations(AfterRun(FRESH, c, endpointValid, before), c, endpointValid, x)
  }

  lemma ApplyMore(c: Config, ops: seq<Operation>, op: Operation)
    ensures ApplyAll(c, ops + [op]) == Apply(ApplyAll(c, ops), c, op)
  {
    assert (ops + [op])[..|ops|] == ops;
  }

  lemma LineIsOperations(c: Config, endpointValid: bool, ops: seq<Operation>, x: Exchange)
    ensures var b := ApplyAll(c, ops);
      AfterExchange(b, c, endpointValid, x) == ApplyAll(c, ops + LineOperations(b, c, endpointValid, x))
  {
    hide Admits, AfterAllow, AfterSuccess, AfterFailure, ApplyAll;
    var more := LineOperations(ApplyAll(c, ops), c, endpointValid, x);
    if more == [] {
      assert ops + more == ops;
    } else {
      ApplyMore(c, ops, more[0]);
      if |more| == 1 {
        assert more == [more[0]];
      } else {
        ApplyMore(c, ops + [more[0]], more[1]);
        assert ops + more == ops + [more[0]] + [more[1]];
      }
    }
  }

  /** So what holds of all operations holds of the shim: its breaker is the one these operations leave. */
  lemma {:induction false} RunsAreOperations(c: Config, endpointValid: bool, run: seq<Exchange>)
    ensures AfterRun(FRESH, c, endpointValid, run) == ApplyAll(c, RunOperations(c, endpointValid, run))
  {
    hide AfterExchange, LineOperations;
    if run != [] {
      RunsAreOperations(c, endpointValid, run[..|run| - 1]);
      LineIsOperations(c, endpointValid, RunOperations(c, endpointValid, run[..|run| - 1]), run[|run| - 1]);
    }
  }

  /** A wedged breaker stays as it is: the shim refuses every line for ever, and `State` keeps
      reporting half-open. */
  lemma {:induction false} WedgedForEver(b: Core, c: Config, endpointValid: bool, run: seq<Exchange>, x: Exchange)
    requires Wedged(b, c) && x.line.NewEvent?
    ensures var after := AfterRun(b, c, endpointValid, run);
      && after == b
      && Answer(after, c, endpointValid, x) == Reject(x.line.id, UNAVAILABLE)
      && Reported(after, c, x.askedAt) == HalfOpen
  {
    if run != [] { WedgedForEver(b, c, endpointValid, run[..|run| - 1], x); }
  }

  /** What keeps a run of the shim from wedging. */
  lemma {:induction false} RunNotWedged(c: Config, endpointValid: bool, run: seq<Exchange>)
    requires !(endpointValid && c.halfOpenFailureThreshold <= 0 && c.successThreshold > 1)
    ensures var b := AfterRun(FRESH, c, endpointValid, run);
      && !Wedged(b, c)
      && (!endpointValid ==> b == FRESH)
      && (c.halfOpenFailureThreshold <= 0 ==> b.state != HalfOpen)
  {
    if run != [] { RunNotWedged(c, endpointValid, run[..|run| - 1]); }
  }

  lemma AfterRunSnoc(b: Core, c: Config, endpointValid: bool, run: seq<Exchange>, x: Exchange)
    ensures AfterRun(b, c, endpointValid, run + [x])
         == AfterExchange(AfterRun(b, c, endpointValid, run), c, endpointValid, x)
  {
    assert (run + [x])[..|run|] == run;
  }

  const FAILING: Exchange := Exchange(NewEvent(""), TransportError, 0, 0)

  /** n failing exchanges at time 0. */
  function FailingRun(n: nat): (run: seq<Exchange>)
    ensures |run| == n
    ensures forall k :: 0 <= k < n ==> run[k].askedAt == 0 && run[k].answeredAt == 0
  {
    if n == 0 then [] else FailingRun(n - 1) + [FAILING]
  }

  lemma {:induction false} FailingRunOpens(c: Config, n: nat)
    requires n <= Max(1, c.failureThreshold)
    ensures AfterRun(FRESH, c, true, FailingRun(n))
         == Core(if n == Max(1, c.failureThreshold) then Open else Closed, n, 0, 0, 0)
  {
    if n > 0 {
      FailingRunOpens(c, n - 1);
      AfterRunSnoc(FRESH, c, true, FailingRun(n - 1), FAILING);
    }
  }

  /** Failures until the breaker opens, then one success once the recovery time is over. */
  function WedgingRun(c: Config): seq<Exchange> {
    var later := Max(0, c.recoveryTimeout);
    FailingRun(Max(1, c.failureThreshold)) + [Exchange(NewEvent(""), Verdict(true, ""), later, later)]
  }

  lemma WedgingRunWedges(c: Config)
    requires c.halfOpenFailureThreshold <= 0 && c.successThreshold > 1
    ensures Sequential(WedgingRun(c)) && Wedged(AfterRun(FRESH, c, true, WedgingRun(c)), c)
  {
    var n := Max(1, c.failureThreshold);
    var later := Max(0, c.recoveryTimeout);
    FailingRunOpens(c, n);
    AfterRunSnoc(FRESH, c, true, FailingRun(n), Exchange(NewEvent(""), Verdict(true, ""), later, later));
  }

  /** A sequential run of the shim can come to rest wedged if and only if its endpoint is valid, the
      half-open failure threshold is not positive, and closing takes more than one success. */
  lemma WedgesIff(c: Config, endpointValid: bool)
    ensures (exists run :: Sequential(run) && Wedged(AfterRun(FRESH, c, endpointValid, run), c))
       <==> endpointValid && c.halfOpenFailureThreshold <= 0 && c.successThreshold > 1
  {
    if endpointValid && c.halfOpenFailureThreshold <= 0 && c.successThreshold > 1 {
      WedgingRunWedges(c);
    } else {
      forall run ensures !Wedged(AfterRun(FRESH, c, endpointValid, run), c) {
        RunNotWedged(c, endpointValid, run);
      }
    }
  }
}
