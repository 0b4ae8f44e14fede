/** The circuit breaker of `core/circuit_breaker.py`, first process-local, then shared
    through two keys with a time to live. */
module CircuitBreaker {
  import opened Common

  /** Failures that open the breaker, and how long it then stays open. */
  datatype Config = Config(threshold: int, cooldown: real)

  datatype State = State(openedAt: Option<real>, fails: nat)
  const CLOSED := State(None, 0)

  datatype Event = IsOpen(now: real) | Success | Failure(now: real) | Reset

  /** One call of the breaker and, for IsOpen, its answer. */
  function Step(c: Config, s: State, e: Event): (State, bool) {
    match e
    case IsOpen(now) =>
      if s.openedAt.None? then (s, false)
      else if now - s.openedAt.value >= c.cooldown then (CLOSED, false)
      else (s, true)
    case Failure(now) =>
      var fails := s.fails + 1;
      if fails >= c.threshold && s.openedAt.None? then (State(Some(now), fails), false)
      else (s.(fails := fails), false)
    case Success => (CLOSED, false)
    case Reset => (CLOSED, false)
  }

  class LocalBreaker {
    const config: Config
    var openedAt: Option<real>
    var fails: nat

    ghost function Now(): State
      reads this
    {
      State(openedAt, fails)
    }

    constructor (config: Config)
      ensures this.config == config && Now() == CLOSED
    {
      this.config := config;
      openedAt, fails := None, 0;
    }

    /** True means: do not attempt the call. */
    method CheckOpen(now: real) returns (open: bool)
      modifies this
      ensures (Now(), open) == Step(config, old(Now()), IsOpen(now))
    {
      if openedAt.None? {
        return false;
      }
      if now - openedAt.value >= config.cooldown {
        openedAt, fails := None, 0;
        return false;
      }
      open := true;
    }

    method RecordSuccess()
      modifies this
      ensures Now() == Step(config, old(Now()), Success).0
    {
      openedAt, fails := None, 0;
    }

    method RecordFailure(now: real)
      modifies this
      ensures Now() == Step(config, old(Now()), Failure(now)).0
    {
      fails := fails + 1;
      if fails >= config.threshold && openedAt.None? {
        openedAt := Some(now);
      }
    }

    method ForceClosed()
      modifies this
      ensures Now() == Step(config, old(Now()), Reset).0
    {
      openedAt, fails := None, 0;
    }
  }

  // ---- What the state means ----

  /** How many failures open the breaker: at least one, whatever the configuration says. */
  function Needed(c: Config): nat { MaxInt(1, c.threshold) }

  /** The reference: the times of the failures since the last close.  A success, a reset, or a poll after
      the cooldown of the failure that opened it closes the breaker. */
  function LogStep(c: Config, log: seq<real>, e: Event): seq<real> {
    match e
    case IsOpen(now) => if |log| >= Needed(c) && now - log[Needed(c) - 1] >= c.cooldown then [] else log
    case Failure(now) => log + [now]
    case Success => []
    case Reset => []
  }

  ghost predicate Means(c: Config, s: State, log: seq<real>) {
    && s.fails == |log|
    && s.openedAt == if |log| >= Needed(c) then Some(log[Needed(c) - 1]) else None
  }

  function Run(c: Config, s: State, events: seq<Event>): State
    decreases |events|
  {
    if events == [] then s else Run(c, Step(c, s, events[0]).0, events[1..])
  }

  function LogRun(c: Config, log: seq<real>, events: seq<Event>): seq<real>
    decreases |events|
  {
    if events == [] then log else LogRun(c, LogStep(c, log, events[0]), events[1..])
  }

  /** After any run the breaker is open exactly when the failures since the last close reach the
      threshold, it counts them, and it was opened by the one that reached it. */
  lemma {:induction false} OpenIffEnoughFailures(c: Config, s: State, log: seq<real>, events: seq<Event>)
    requires Means(c, s, log)
    ensures var s', log' := Run(c, s, events), LogRun(c, log, events);
            && s'.fails == |log'|
            && (s'.openedAt.Some? <==> |log'| >= Needed(c))
            && (s'.openedAt.Some? ==> s'.openedAt.value == log'[Needed(c) - 1])
    decreases |events|
  {
    if events != [] {
      OpenIffEnoughFailures(c, Step(c, s, events[0]).0, LogStep(c, log, events[0]), events[1..]);
    }
  }

  /** The events close nothing before the cooldown of a breaker opened at t is over. */
  ghost predicate WithinCooldown(c: Config, events: seq<Event>, t: real) {
    forall i :: 0 <= i < |events| ==>
      !events[i].Success? && !events[i].Reset? && (events[i].IsOpen? ==> events[i].now - t < c.cooldown)
  }

  function Answers(c: Config, s: State, events: seq<Event>): seq<bool>
    decreases |events|
  {
    if events == [] then []
    else
      var (s', answer) := Step(c, s, events[0]);
      (if events[0].IsOpen? then [answer] else []) + Answers(c, s', events[1..])
  }

  /** While open, every poll before the cooldown answers true, whatever failures arrive, and the first
      poll after it answers false and closes the breaker. */
  lemma {:induction false} OpenHoldsForCooldown(c: Config, s: State, events: seq<Event>, t: real, after: real)
    requires s.openedAt == Some(t) && WithinCooldown(c, events, t) && after - t >= c.cooldown
    ensures Run(c, s, events).openedAt == Some(t)
    ensures forall a :: a in Answers(c, s, events) ==> a
    ensures Step(c, Run(c, s, events), IsOpen(after)) == (CLOSED, false)
    decreases |events|
  {
    if events != [] {
      OpenHoldsForCooldown(c, Step(c, s, events[0]).0, events[1..], t, after);
    }
  }

  function FailureCount(events: seq<Event>): nat {
    if events == [] then 0 else (if events[0].Failure? then 1 else 0) + FailureCount(events[1..])
  }

  /** The half-open state is not a single probe: once it has closed, the breaker lets every call through
      until as many failures as before have come in again. */
  lemma {:induction false} ClosedUntilThresholdAgain(c: Config, s: State, events: seq<Event>)
    requires s.openedAt.None? && s.fails + FailureCount(events) < Needed(c)
    ensures forall a :: a in Answers(c, s, events) ==> !a
    ensures Run(c, s, events).openedAt.None?
    decreases |events|
  {
    if events != [] {
      ClosedUntilThresholdAgain(c, Step(c, s, events[0]).0, events[1..]);
    }
  }
}
