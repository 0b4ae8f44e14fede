/** The breaker shared by several replicas through two expiring keys: each call is one atomic
    script on the server's clock, so any interleaving of replicas is a sequence of events. */
module SharedBreaker {
  import opened Common
  import opened CircuitBreaker

  datatype Timed<T> = Timed(value: T, expireAt: real)

  /** The two keys. */
  datatype Keys = Keys(tripped: Option<Timed<real>>, fails: Option<Timed<nat>>)
  const NO_KEYS := Keys(None, None)

  function Ttl(c: Config): int { MaxInt(c.cooldown.Floor * 4, 60) }

  /** The backstop never shortens a cooldown. */
  lemma TtlCoversCooldown(c: Config)
    ensures Ttl(c) as real >= c.cooldown
    ensures Ttl(c) == 60 || (60.0 < Ttl(c) as real && 4.0 * c.cooldown - 4.0 < Ttl(c) as real <= 4.0 * c.cooldown)
  {
    if c.cooldown >= 1.0 { assert 4.0 * c.cooldown.Floor as real >= c.cooldown; }
  }

  function Live<T>(k: Option<Timed<T>>, t: real): Option<T> {
    if k.Some? && t < k.value.expireAt then Some(k.value.value) else None
  }

  function LiveFails(k: Keys, t: real): nat {
    if Live(k.fails, t).Some? then Live(k.fails, t).value else 0
  }

  /** One script at server time t. */
  function Script(c: Config, k: Keys, e: Event, t: real): (Keys, bool) {
    match e
    case IsOpen(_) =>
      var openedAt := Live(k.tripped, t);
      if openedAt.None? then (k, false)
      else if t - openedAt.value >= c.cooldown then (NO_KEYS, false)
      else (k, true)
    case Failure(_) =>
      var fails := LiveFails(k, t) + 1;
      var expireAt := t + Ttl(c) as real;
      if Live(k.tripped, t).None? && fails >= c.threshold then
        (Keys(Some(Timed(t, expireAt)), Some(Timed(fails, expireAt))), false)
      else (k.(fails := Some(Timed(fails, expireAt))), false)
    case Success => (NO_KEYS, false)
    case Reset => (NO_KEYS, false)
  }

  /** An event as the local breaker sees it at that time. */
  function At(e: Event, t: real): Event {
    match e
    case IsOpen(_) => IsOpen(t)
    case Failure(_) => Failure(t)
    case _ => e
  }

  /** At time t the keys read like the local state. */
  ghost predicate ReadsAs(k: Keys, s: State, t: real) {
    Live(k.tripped, t) == s.openedAt && LiveFails(k, t) == s.fails
  }

  /** Keys written by the scripts. */
  ghost predicate Written(c: Config, k: Keys) {
    && (k.tripped.Some? ==> k.tripped.value.expireAt == k.tripped.value.value + Ttl(c) as real)
    && (k.fails.Some? ==> k.fails.value.value >= 1)
  }

  /** A key the state depends on has run out by time t. */
  predicate OpenedLost(k: Keys, s: State, t: real) { s.openedAt.Some? && Live(k.tripped, t).None? }
  predicate FailsLost(k: Keys, s: State, t: real) { s.fails > 0 && Live(k.fails, t).None? }

  /** When expiry does no harm: never for a failure; for a poll only when everything is about to be
      cleared anyway or has run out together; always for a success or a reset. */
  predicate Harmless(c: Config, k: Keys, s: State, e: Event, t: real) {
    match e
    case IsOpen(_) =>
      if OpenedLost(k, s, t) then s.fails == 0 || FailsLost(k, s, t)
      else (s.openedAt.Some? && t - s.openedAt.value >= c.cooldown) || !FailsLost(k, s, t)
    case Failure(_) => !OpenedLost(k, s, t) && !FailsLost(k, s, t)
    case _ => true
  }

  /** One event on keys that read like a local breaker: the poll is answered the same in any case, and
      afterwards they still read alike if and only if expiry did no harm. */
  lemma SharedStep(c: Config, k: Keys, s: State, e: Event, before: real, t: real)
    requires Written(c, k) && ReadsAs(k, s, before) && before <= t
    ensures Script(c, k, e, t).1 == Step(c, s, At(e, t)).1
    ensures ReadsAs(Script(c, k, e, t).0, Step(c, s, At(e, t)).0, t) <==> Harmless(c, k, s, e, t)
    ensures Written(c, Script(c, k, e, t).0)
  {
    TtlCoversCooldown(c);
  }

  /** A run on the shared keys beside one local breaker fed the same events at the same times. */
  ghost predicate SideBySide(c: Config, ks: seq<Keys>, ss: seq<State>, events: seq<Event>, times: seq<real>) {
    && |ks| == |ss| == |events| + 1 == |times|
    && ks[0] == NO_KEYS && ss[0] == CLOSED
    && (forall i :: 0 <= i < |events| ==> times[i] <= times[i + 1])
    && (forall i :: 0 <= i < |events| ==> ks[i + 1] == Script(c, ks[i], events[i], times[i + 1]).0)
    && (forall i :: 0 <= i < |events| ==> ss[i + 1] == Step(c, ss[i], At(events[i], times[i + 1])).0)
  }

  /** The shared breaker refines the local one through a whole run if and only if expiry does no harm
      at any of its events. */
  lemma {:induction false} RefinesIffHarmless(c: Config, ks: seq<Keys>, ss: seq<State>, events: seq<Event>,
                                              times: seq<real>)
    requires SideBySide(c, ks, ss, events, times)
    ensures (forall i :: 0 <= i < |ks| ==> ReadsAs(ks[i], ss[i], times[i]))
            <==> (forall i :: 0 <= i < |events| ==> Harmless(c, ks[i], ss[i], events[i], times[i + 1]))
  {
    if forall i :: 0 <= i < |ks| ==> ReadsAs(ks[i], ss[i], times[i]) {
      forall i | 0 <= i < |events| ensures Harmless(c, ks[i], ss[i], events[i], times[i + 1]) {
        WrittenAlong(c, ks, ss, events, times, i);
        assert ReadsAs(ks[i], ss[i], times[i]) && ReadsAs(ks[i + 1], ss[i + 1], times[i + 1]);
        SharedStep(c, ks[i], ss[i], events[i], times[i], times[i + 1]);
      }
    }
    if forall i :: 0 <= i < |events| ==> Harmless(c, ks[i], ss[i], events[i], times[i + 1]) {
      forall i | 0 <= i < |ks| ensures ReadsAs(ks[i], ss[i], times[i]) {
        RefinesUpTo(c, ks, ss, events, times, i);
      }
    }
  }

  lemma {:induction false} WrittenAlong(c: Config, ks: seq<Keys>, ss: seq<State>, events: seq<Event>,
                                        times: seq<real>, n: nat)
    requires SideBySide(c, ks, ss, events, times) && n < |ks|
    ensures Written(c, ks[n])
  {
    if n > 0 {
      WrittenAlong(c, ks, ss, events, times, n - 1);
      assert ks[n - 1 + 1] == Script(c, ks[n - 1], events[n - 1], times[n]).0;
    }
  }

  lemma {:induction false} RefinesUpTo(c: Config, ks: seq<Keys>, ss: seq<State>, events: seq<Event>, times: seq<real>,
                                       n: nat)
    requires SideBySide(c, ks, ss, events, times) && n < |ks|
    requires forall i :: 0 <= i < n ==> Harmless(c, ks[i], ss[i], events[i], times[i + 1])
    ensures ReadsAs(ks[n], ss[n], times[n])
    ensures n < |events| ==>
              Script(c, ks[n], events[n], times[n + 1]).1 == Step(c, ss[n], At(events[n], times[n + 1])).1
  {
    WrittenAlong(c, ks, ss, events, times, n);
    if n > 0 {
      var j := n - 1;
      RefinesUpTo(c, ks, ss, events, times, j);
      WrittenAlong(c, ks, ss, events, times, j);
      assert ks[j + 1] == Script(c, ks[j], events[j], times[j + 1]).0;
      assert ss[j + 1] == Step(c, ss[j], At(events[j], times[j + 1])).0;
      SharedStep(c, ks[j], ss[j], events[j], times[j], times[j + 1]);
    }
    if n < |events| {
      assert times[n] <= times[n + 1];
      SharedStep(c, ks[n], ss[n], events[n], times[n], times[n + 1]);
    }
  }

  // ---- When expiry cannot be seen, in terms of events and times ----

  /** The failures since the last close before event n of a run, as in the local breaker. */
  function LogBefore(c: Config, events: seq<Event>, times: seq<real>, n: nat): seq<real>
    requires n <= |events| < |times|
  {
    if n == 0 then [] else LogStep(c, LogBefore(c, events, times, n - 1), At(events[n - 1], times[n]))
  }

  /** An event comes in time.  A failure must come within a TTL of the failure before it and, on an open
      breaker, within a TTL of its opening.  An open breaker may be polled later than that only when the
      counter has run out as well, or one failure is enough to open it. */
  predicate InTime(c: Config, log: seq<real>, e: Event, t: real) {
    var open := |log| >= Needed(c);
    match e
    case Failure(_) =>
      && (log != [] ==> t < log[|log| - 1] + Ttl(c) as real)
      && (open ==> t < log[Needed(c) - 1] + Ttl(c) as real)
    case IsOpen(_) =>
      open && t >= log[Needed(c) - 1] + Ttl(c) as real ==> Needed(c) == 1 || t >= log[|log| - 1] + Ttl(c) as real
    case _ => true
  }

  /** The first n events all come in time. */
  ghost predicate TimelyBefore(c: Config, events: seq<Event>, times: seq<real>, n: nat)
    requires n <= |events| && |times| == |events| + 1
  {
    forall i :: 0 <= i < n ==> InTime(c, LogBefore(c, events, times, i), events[i], times[i + 1])
  }

  ghost predicate Rising(log: seq<real>, t: real) {
    (forall i, j :: 0 <= i < j < |log| ==> log[i] <= log[j]) && forall i :: 0 <= i < |log| ==> log[i] <= t
  }

  /** What the keys hold for a log of failures: its length with the TTL of its last failure, and its
      threshold-th failure with its own TTL. */
  ghost predicate Holds(c: Config, k: Keys, log: seq<real>, t: real) {
    && (if |log| >= Needed(c)
        then k.tripped == Some(Timed(log[Needed(c) - 1], log[Needed(c) - 1] + Ttl(c) as real))
        else Live(k.tripped, t).None?)
    && (Needed(c) == 1
        || if log == [] then Live(k.fails, t).None?
           else k.fails == Some(Timed(|log| as nat, log[|log| - 1] + Ttl(c) as real)))
  }

  /** An event in time is answered as by the local breaker, and the keys go on holding the log. */
  lemma InTimeStep(c: Config, k: Keys, s: State, log: seq<real>, e: Event, before: real, t: real)
    requires Holds(c, k, log, before) && Means(c, s, log) && before <= t
    requires InTime(c, log, e, t)
    ensures Script(c, k, e, t).1 == Step(c, s, At(e, t)).1
    ensures Holds(c, Script(c, k, e, t).0, LogStep(c, log, At(e, t)), t)
    ensures Means(c, Step(c, s, At(e, t)).0, LogStep(c, log, At(e, t)))
  {
    TtlCoversCooldown(c);
  }

  lemma {:induction false} TimelyUpTo(c: Config, ks: seq<Keys>, ss: seq<State>, events: seq<Event>, times: seq<real>,
                                      n: nat)
    requires SideBySide(c, ks, ss, events, times) && n <= |events| && TimelyBefore(c, events, times, n)
    ensures Holds(c, ks[n], LogBefore(c, events, times, n), times[n])
    ensures Means(c, ss[n], LogBefore(c, events, times, n))
    ensures Rising(LogBefore(c, events, times, n), times[n])
  {
    if n > 0 {
      var j := n - 1;
      TimelyUpTo(c, ks, ss, events, times, j);
      assert InTime(c, LogBefore(c, events, times, j), events[j], times[j + 1]);
      InTimeStep(c, ks[j], ss[j], LogBefore(c, events, times, j), events[j], times[j], times[j + 1]);
      assert ks[j + 1] == Script(c, ks[j], events[j], times[j + 1]).0;
      assert ss[j + 1] == Step(c, ss[j], At(events[j], times[j + 1])).0;
    }
  }

  /** Whatever replicas the events come from: while failures are less than a TTL apart and an open breaker
      is used before its key runs out, every poll is answered as by one local breaker. */
  lemma TimelyRunsAgree(c: Config, ks: seq<Keys>, ss: seq<State>, events: seq<Event>, times: seq<real>)
    requires SideBySide(c, ks, ss, events, times) && TimelyBefore(c, events, times, |events|)
    ensures forall i :: 0 <= i < |events| ==>
              Script(c, ks[i], events[i], times[i + 1]).1 == Step(c, ss[i], At(events[i], times[i + 1])).1
  {
    forall i | 0 <= i < |events|
      ensures Script(c, ks[i], events[i], times[i + 1]).1 == Step(c, ss[i], At(events[i], times[i + 1])).1
    {
      TimelyUpTo(c, ks, ss, events, times, i);
      assert InTime(c, LogBefore(c, events, times, i), events[i], times[i + 1]);
      InTimeStep(c, ks[i], ss[i], LogBefore(c, events, times, i), events[i], times[i], times[i + 1]);
    }
  }

  // ---- The condition cannot be weakened at any event ----

  /** n failures at one instant. */
  function SharedBurst(c: Config, k: Keys, t: real, n: nat): Keys {
    if n == 0 then k else Script(c, SharedBurst(c, k, t, n - 1), Failure(t), t).0
  }

  function LocalBurst(c: Config, s: State, t: real, n: nat): State {
    if n == 0 then s else Step(c, LocalBurst(c, s, t, n - 1), Failure(t)).0
  }

  /** A burst opens a closed shared breaker exactly when it brings the counter to the threshold. */
  lemma {:induction false} SharedBurstCounts(c: Config, k: Keys, t: real, n: nat)
    requires Live(k.tripped, t).None? && LiveFails(k, t) < Needed(c)
    ensures var k' := SharedBurst(c, k, t, n);
            && LiveFails(k', t) == LiveFails(k, t) + n
            && Live(k'.tripped, t) == (if LiveFails(k, t) + n >= Needed(c) then Some(t) else None)
  {
    TtlCoversCooldown(c);
    if n > 0 { SharedBurstCounts(c, k, t, n - 1); }
  }

  lemma {:induction false} LocalBurstCounts(c: Config, s: State, t: real, n: nat)
    requires s.openedAt.None? && s.fails < Needed(c)
    ensures var s' := LocalBurst(c, s, t, n);
            s'.fails == s.fails + n && s'.openedAt == (if s.fails + n >= Needed(c) then Some(t) else None)
  {
    if n > 0 { LocalBurstCounts(c, s, t, n - 1); }
  }

  /** A burst of n failures, perhaps after one poll, and then a poll tell the two apart. */
  ghost predicate Told(c: Config, k: Keys, s: State, t: real, n: nat, pollFirst: bool) {
    var k1 := if pollFirst then Script(c, k, IsOpen(t), t).0 else k;
    var s1 := if pollFirst then Step(c, s, IsOpen(t)).0 else s;
    Script(c, SharedBurst(c, k1, t, n), IsOpen(t), t).1 != Step(c, LocalBurst(c, s1, t, n), IsOpen(t)).1
  }

  /** After the first event that is not in time, some calls at that same instant are answered differently. */
  lemma NotInTimeCanBeTold(c: Config, k: Keys, s: State, log: seq<real>, e: Event, before: real, t: real)
    returns (n: nat, pollFirst: bool)
    requires c.cooldown > 0.0
    requires Holds(c, k, log, before) && Means(c, s, log) && Rising(log, before) && before <= t
    requires !InTime(c, log, e, t)
    ensures Told(c, Script(c, k, e, t).0, Step(c, s, At(e, t)).0, t, n, pollFirst)
  {
    TtlCoversCooldown(c);
    var k1, s1 := Script(c, k, e, t).0, Step(c, s, At(e, t)).0;
    if e.IsOpen? {
      n, pollFirst := 1, false;
      assert SharedBurst(c, k1, t, 0) == k1 && LocalBurst(c, s1, t, 0) == s1;
    } else if |log| < Needed(c) {
      n, pollFirst := Needed(c) - (|log| + 1), false;
      UncountedFailure(c, k1, s1, t, n);
    } else if Live(k1.tripped, t).Some? {
      n, pollFirst := 0, false;
    } else {
      n, pollFirst := Needed(c) - 1, true;
      SharedBurstCounts(c, Script(c, k1, IsOpen(t), t).0, t, n);
      LocalBurstCounts(c, CLOSED, t, n);
    }
  }

  /** So the condition is exact: while the events of a run are in time all polls agree, and at the first one
      that is not, callers can tell the shared breaker from the local one then and there. */
  lemma FirstLateEventCanBeTold(c: Config, ks: seq<Keys>, ss: seq<State>, events: seq<Event>, times: seq<real>, i: nat)
    returns (n: nat, pollFirst: bool)
    requires c.cooldown > 0.0
    requires SideBySide(c, ks, ss, events, times) && i < |events| && TimelyBefore(c, events, times, i)
    requires !InTime(c, LogBefore(c, events, times, i), events[i], times[i + 1])
    ensures Told(c, ks[i + 1], ss[i + 1], times[i + 1], n, pollFirst)
  {
    TimelyUpTo(c, ks, ss, events, times, i);
    n, pollFirst := NotInTimeCanBeTold(c, ks[i], ss[i], LogBefore(c, events, times, i), events[i],
                                       times[i], times[i + 1]);
    assert ks[i + 1] == Script(c, ks[i], events[i], times[i + 1]).0;
    assert ss[i + 1] == Step(c, ss[i], At(events[i], times[i + 1])).0;
  }

  /** The local breaker has counted a failure more than the shared one: as many as it lacks open it alone. */
  lemma UncountedFailure(c: Config, k: Keys, s: State, t: real, n: nat)
    requires c.cooldown > 0.0
    requires Live(k.tripped, t).None? && LiveFails(k, t) + n < Needed(c) == s.fails + n
    requires s.openedAt == if n == 0 then Some(t) else None
    ensures Told(c, k, s, t, n, false)
  {
    SharedBurstCounts(c, k, t, n);
    if n > 0 { LocalBurstCounts(c, s, t, n); }
  }

  /** Witness: threshold 2, cooldown 30.  Opened at 1 and not polled until its key is gone, while a late
      failure kept the counter alive, the shared breaker re-opens on a single failure where the local
      one does not. */
  lemma UnpolledBreakerDiverges(c: Config)
    requires c == Config(2, 30.0)
    ensures var k0 := Script(c, NO_KEYS, Failure(0.0), 0.0).0;
            var k := Script(c, Script(c, k0, Failure(0.0), 1.0).0, Failure(0.0), 100.0).0;
            var s := Step(c, Step(c, Step(c, CLOSED, Failure(0.0)).0, Failure(1.0)).0, Failure(100.0)).0;
            var (k1, polled) := Script(c, k, IsOpen(0.0), 130.0);
            var (s1, localPolled) := Step(c, s, IsOpen(130.0));
            && polled == localPolled == false
            && Script(c, Script(c, k1, Failure(0.0), 131.0).0, IsOpen(0.0), 132.0).1
            && !Step(c, Step(c, s1, Failure(131.0)).0, IsOpen(132.0)).1
  {
    assert Ttl(c) == 120;
    var k0 := Script(c, NO_KEYS, Failure(0.0), 0.0).0;
    assert k0 == Keys(None, Some(Timed(1, 120.0)));
    var k := Script(c, k0, Failure(0.0), 1.0).0;
    assert k == Keys(Some(Timed(1.0, 121.0)), Some(Timed(2, 121.0)));
    assert Script(c, k, Failure(0.0), 100.0).0 == Keys(Some(Timed(1.0, 121.0)), Some(Timed(3, 220.0)));
  }
}
