/**
 The circuit breaker and the relay shim that drives it: one line in, at most one upstream call,
 one record of its outcome.
 */
module CircuitBreaker {

  datatype State = Closed | Open | HalfOpen

  datatype Config = Config(failureThreshold: int, recoveryTimeout: int, successThreshold: int,
                           halfOpenFailureThreshold: int) {
    predicate Positive() {
      failureThreshold > 0 && recoveryTimeout > 0 && successThreshold > 0 && halfOpenFailureThreshold > 0
    }
  }

  const SECOND: int := 1000000000

  /** `New` replaces zero settings, and only those, by the defaults. */
  function WithDefaults(c: Config): Config {
    Config(
      if c.failureThreshold == 0 then 5 else c.failureThreshold,
      if c.recoveryTimeout == 0 then 30 * SECOND else c.recoveryTimeout,
      if c.successThreshold == 0 then 1 else c.successThreshold,
      if c.halfOpenFailureThreshold == 0 then 3 else c.halfOpenFailureThreshold)
  }

  datatype Core = Core(state: State, consecutiveFails: nat, halfOpenFails: nat, halfOpenSuccess: nat, lastOpenedAt: int)

  const FRESH: Core := Core(Closed, 0, 0, 0, 0)

  predicate Recovered(b: Core, c: Config, now: int) {
    now - b.lastOpenedAt >= c.recoveryTimeout
  }

  /** Whether `Allow` lets a call through, and the breaker afterwards. */
  predicate Admits(b: Core, c: Config, now: int) {
    match b.state
    case Closed => true
    case Open => Recovered(b, c, now)
    case HalfOpen => b.halfOpenFails < c.halfOpenFailureThreshold
  }

  function AfterAllow(b: Core, c: Config, now: int): Core {
    if b.state == Open && Recovered(b, c, now) then b.(state := HalfOpen, halfOpenFails := 0, halfOpenSuccess := 0)
    else b
  }

  function AfterSuccess(b: Core, c: Config): Core {
    match b.state
    case Closed => b.(consecutiveFails := 0)
    case Open => b
    case HalfOpen =>
      if b.halfOpenSuccess + 1 >= c.successThreshold then Core(Closed, 0, 0, 0, b.lastOpenedAt)
      else b.(halfOpenSuccess := b.halfOpenSuccess + 1)
  }

  function AfterFailure(b: Core, c: Config, now: int): Core {
    match b.state
    case Closed =>
      var fails := b.consecutiveFails + 1;
      if fails >= c.failureThreshold then b.(state := Open, consecutiveFails := fails, lastOpenedAt := now)
      else b.(consecutiveFails := fails)
    case Open => b
    case HalfOpen =>
      var fails := b.halfOpenFails + 1;
      if fails >= c.halfOpenFailureThreshold then b.(state := Open, halfOpenFails := fails, lastOpenedAt := now)
      else b.(halfOpenFails := fails)
  }

  /** What `State` reports. */
  function Reported(b: Core, c: Config, now: int): State {
    if b.state == Open && Recovered(b, c, now) then HalfOpen else b.state
  }

  class Breaker {
    const config: Config
    var state: State
    var consecutiveFails: nat
    var halfOpenFails: nat
    var halfOpenSuccess: nat
    var lastOpenedAt: int

    function Contents(): Core
      reads this
    {
      Core(state, consecutiveFails, halfOpenFails, halfOpenSuccess, lastOpenedAt)
    }

    constructor (cfg: Config)
      ensures config == WithDefaults(cfg) && Contents() == FRESH
    {
      config := WithDefaults(cfg);
      state := Closed;
      consecutiveFails, halfOpenFails, halfOpenSuccess, lastOpenedAt := 0, 0, 0, 0;
    }

    method Allow(now: int) returns (ok: bool)
      modifies this
      ensures ok == Admits(old(Contents()), config, now)
      ensures Contents() == AfterAllow(old(Contents()), config, now)
    {
      match state {
        case Closed =>
          return true;
        case Open =>
          if now - lastOpenedAt >= config.recoveryTimeout {
            state := HalfOpen;
            halfOpenFails := 0;
            halfOpenSuccess := 0;
            return true;
          }
          return false;
        case HalfOpen =>
          if halfOpenFails >= config.halfOpenFailureThreshold {
            return false;
          }
          return true;
      }
    }

    method RecordSuccess()
      modifies this
      ensures Contents() == AfterSuccess(old(Contents()), config)
    {
      match state {
        case Closed =>
          consecutiveFails := 0;
        case Open =>
        case HalfOpen =>
          halfOpenSuccess := halfOpenSuccess + 1;
          if halfOpenSuccess >= config.successThreshold {
            state := Closed;
            consecutiveFails := 0;
            halfOpenFails := 0;
            halfOpenSuccess := 0;
          }
      }
    }

    method RecordFailure(now: int)
      modifies this
      ensures Contents() == AfterFailure(old(Contents()), config, now)
    {
      match state {
        case Closed =>
          consecutiveFails := consecutiveFails + 1;
          if consecutiveFails >= config.failureThreshold {
            state := Open;
            lastOpenedAt := now;
          }
        case Open =>
        case HalfOpen =>
          halfOpenFails := halfOpenFails + 1;
          if halfOpenFails >= config.halfOpenFailureThreshold {
            state := Open;
            lastOpenedAt := now;
          }
      }
    }

    method ReadState(now: int) returns (s: State)
      ensures s == Reported(Contents(), config, now)
    {
      if state == Open && now - lastOpenedAt >= config.recoveryTimeout {
        return HalfOpen;
      }
      return state;
    }
  }

  // ----- The relay shim -----

  /** What a line of input unmarshals to. */
  datatype Line = Malformed | OtherType | NewEvent(id: string)

  /** How an upstream call can end. */
  datatype Upstream = TransportError | BadStatus | BadBody | Verdict(allow: bool, reason: string)

  /** `Failure` is a Go error return; `Silence` a nil output. */
  datatype Output = Failure | Silence | Accept(id: string) | Reject(id: string, msg: string)

  datatype Exchange = Exchange(line: Line, upstream: Upstream, askedAt: int, answeredAt: int)

  const UNAVAILABLE: string := "error: relay authorization unavailable"

  /** A line reaches upstream when it is a new event, the breaker admits it, and the request to
      the configured endpoint can be built. */
  predicate Calls(b: Core, c: Config, endpointValid: bool, x: Exchange) {
    x.line.NewEvent? && Admits(b, c, x.askedAt) && endpointValid
  }

  function AfterExchange(b: Core, c: Config, endpointValid: bool, x: Exchange): Core {
    if !x.line.NewEvent? then b
    else
      var asked := AfterAllow(b, c, x.askedAt);
      if !Calls(b, c, endpointValid, x) then asked
      else if x.upstream.Verdict? then AfterSuccess(asked, c)
      else AfterFailure(asked, c, x.answeredAt)
  }

  function Answer(b: Core, c: Config, endpointValid: bool, x: Exchange): Output {
    match x.line
    case Malformed => Failure
    case OtherType => Silence
    case NewEvent(id) =>
      if !Admits(b, c, x.askedAt) then Reject(id, UNAVAILABLE)
      else if !endpointValid then Failure
      else
        match x.upstream
        case Verdict(allow, reason) => if allow then Accept(id) else Reject(id, "blocked: " + reason)
        case _ => Reject(id, UNAVAILABLE)
  }

  class Processor {
    const breaker: Breaker
    const endpointValid: bool

    constructor (cfg: Config, endpointValid: bool)
      ensures fresh(breaker) && breaker.config == WithDefaults(cfg) && breaker.Contents() == FRESH
      ensures this.endpointValid == endpointValid
    {
      breaker := new Breaker(cfg);
      this.endpointValid := endpointValid;
    }

    method ProcessLine(x: Exchange) returns (out: Output, called: bool)
      modifies breaker
      ensures out == Answer(old(breaker.Contents()), breaker.config, endpointValid, x)
      ensures called == Calls(old(breaker.Contents()), breaker.config, endpointValid, x)
      ensures breaker.Contents() == AfterExchange(old(breaker.Contents()), breaker.config, endpointValid, x)
    {
      if x.line.Malformed? {
        return Failure, false;
      }
      if x.line.OtherType? {
        return Silence, false;
      }
      var ok := breaker.Allow(x.askedAt);
      if !ok {
        return Reject(x.line.id, UNAVAILABLE), false;
      }
      if !endpointValid {
        return Failure, false;
      }
      called := true;
      match x.upstream {
        case Verdict(allow, reason) =>
          breaker.RecordSuccess();
          if allow {
            out := Accept(x.line.id);
          } else {
            out := Reject(x.line.id, "blocked: " + reason);
          }
        case _ =>
          breaker.RecordFailure(x.answeredAt);
          out := Reject(x.line.id, UNAVAILABLE);
      }
    }
  }
}
