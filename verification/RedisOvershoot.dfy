/** How far a tenant can overshoot its quota when the counter is shared by replicas through a store, and an
    operation that the store fails is done on the fallback instead. */
module RedisOvershoot {
  import opened Common
  import opened OrderedDicts
  import TokenQuota
  import opened RedisQuota

  type Tenant = TokenQuota.Tenant

  /** `up` says whether the store answers: an operation is done on the store when it does and on the fallback
      when it does not.  `admitted` is the backend that a finished or abandoned call was admitted by. */
  datatype Step =
    | Begin(tenant: Tenant, quota: int, now: real, up: bool)
    | Finish(tenant: Tenant, tokens: int, now: real, admitted: bool, up: bool)
    | Abandon(tenant: Tenant, now: real, admitted: bool)

  type Tally = map<(Tenant, bool), nat>

  /** The ledger; per tenant and backend the calls admitted there and not finished; and the calls that were
      charged there but admitted by the other. */
  datatype System = System(ledger: Ledger, inFlight: Tally, crossed: Tally)

  function Of(tally: Tally, t: Tenant, up: bool): nat { if (t, up) in tally then tally[(t, up)] else 0 }
  function InFlight(s: System, t: Tenant, up: bool): nat { Of(s.inFlight, t, up) }
  function Crossed(s: System, t: Tenant, up: bool): nat { Of(s.crossed, t, up) }

  function More(tally: Tally, t: Tenant, up: bool): Tally { tally[(t, up) := Of(tally, t, up) + 1] }
  function Fewer(tally: Tally, t: Tenant, up: bool): Tally { tally[(t, up) := MaxInt(0, Of(tally, t, up) - 1)] }

  function Next(s: System, maxTracked: nat, step: Step): (s': System)
    requires s.ledger.fallback.Valid()
    ensures s'.ledger.fallback.Valid()
  {
    match step
    case Begin(tenant, quota, now, up) =>
      if up then
        if Exceeded(s.ledger, tenant, quota, now, true) then s else s.(inFlight := More(s.inFlight, tenant, up))
      else
        var (fallback, exceeded) := TokenQuota.WouldExceed(s.ledger.fallback, maxTracked, tenant, quota, DayOf(now));
        s.(ledger := s.ledger.(fallback := fallback),
           inFlight := if exceeded then s.inFlight else More(s.inFlight, tenant, up))
    case Finish(tenant, tokens, now, admitted, up) =>
      if InFlight(s, tenant, admitted) == 0 then s
      else System(RedisQuota.Next(s.ledger, maxTracked, Charge(tenant, tokens, now, up)),
                  Fewer(s.inFlight, tenant, admitted),
                  if admitted == up then s.crossed else More(s.crossed, tenant, up))
    case Abandon(tenant, _, admitted) => s.(inFlight := Fewer(s.inFlight, tenant, admitted))
  }

  /** A run from empty at times that do not go back. */
  ghost predicate IsRun(ss: seq<System>, steps: seq<Step>, maxTracked: nat) {
    && |ss| == |steps| + 1
    && ss[0] == System(Ledger(map[], Empty()), map[], map[])
    && (forall i :: 0 <= i < |ss| ==> ss[i].ledger.fallback.Valid())
    && (forall i :: 0 <= i < |steps| ==> ss[i + 1] == Next(ss[i], maxTracked, steps[i]))
    && forall i, j :: 0 <= i < j < |steps| ==> steps[i].now <= steps[j].now
  }

  /** The tenant always checks against this quota, charges at most M tokens a call, and never has more than K
      calls in flight on one backend. */
  ghost predicate Disciplined(ss: seq<System>, steps: seq<Step>, t: Tenant, quota: int, K: nat, M: nat) {
    && (forall i :: 0 <= i < |ss| ==> InFlight(ss[i], t, true) <= K && InFlight(ss[i], t, false) <= K)
    && forall i :: 0 <= i < |steps| ==> Orderly(steps[i], t, quota, M)
  }

  // ---- The store ----

  /** The tenant's stored counts at a time: each outlives its day, none is of a later day, all are within the
      bound, and today's leaves room for the calls in flight. */
  ghost predicate StoreWithin(m: Store, t: Tenant, quota: int, K: nat, M: nat, inFlight: nat, now: real) {
    forall day :: (t, day) in m ==>
      && day <= DayOf(now)
      && m[(t, day)].expireAt > Midnight(day)
      && m[(t, day)].tokens <= TokenQuota.Bound(quota, K, M, 0)
      && (day == DayOf(now) ==> m[(t, day)].tokens <= TokenQuota.Bound(quota, K, M, inFlight))
  }

  lemma StoreLater(m: Store, t: Tenant, quota: int, K: nat, M: nat, inFlight: nat, before: real, now: real)
    requires StoreWithin(m, t, quota, K, M, inFlight, before) && before <= now
    ensures StoreWithin(m, t, quota, K, M, inFlight, now)
  {
    DaysGrow(before, now);
  }

  /** An admitted call finds today's count below the quota. */
  lemma StoreAdmits(m: Store, t: Tenant, quota: int, K: nat, M: nat, inFlight: nat, now: real)
    requires StoreWithin(m, t, quota, K, M, inFlight, now) && quota >= 1 && inFlight + 1 <= K
    requires Get(m, t, DayOf(now), now) < quota
    ensures StoreWithin(m, t, quota, K, M, inFlight + 1, now)
  {
    TtlCoversTheDay(now);
    TokenQuota.BoundShrinks(quota, K, M, inFlight + 1, inFlight + 1);
  }

  lemma StoreCharges(m: Store, t: Tenant, tokens: int, quota: int, K: nat, M: nat, inFlight: nat, now: real)
    requires StoreWithin(m, t, quota, K, M, inFlight, now) && quota >= 1 && 1 <= inFlight <= K && 0 < tokens <= M
    ensures StoreWithin(Increment(m, t, tokens, now), t, quota, K, M, inFlight - 1, now)
  {
    TtlCoversTheDay(now);
    TokenQuota.BoundShrinks(quota, K, M, inFlight - 1, inFlight);
    TokenQuota.BoundShrinks(quota, K, M, 0, inFlight - 1);
  }

  /** A call that leaves makes room. */
  lemma StoreLeaves(m: Store, t: Tenant, quota: int, K: nat, M: nat, inFlight: nat, now: real)
    requires StoreWithin(m, t, quota, K, M, inFlight, now) && inFlight <= K
    ensures StoreWithin(m, t, quota, K, M, MaxInt(0, inFlight - 1), now)
  {
    TokenQuota.BoundShrinks(quota, K, M, MaxInt(0, inFlight - 1), inFlight);
  }

  /** Allowing for one more call, which is charged without having been admitted here. */
  lemma StoreCrossed(m: Store, t: Tenant, tokens: int, quota: int, K: nat, M: nat, inFlight: nat, now: real)
    requires StoreWithin(m, t, quota, K, M, inFlight, now) && quota >= 1 && inFlight <= K && tokens <= M
    ensures StoreWithin(if tokens > 0 then Increment(m, t, tokens, now) else m, t, quota, K + 1, M, inFlight, now)
  {
    OneMoreCall(quota, K, M, inFlight);
    OneMoreCall(quota, K, M, 0);
    TokenQuota.BoundShrinks(quota, K, M, 0, inFlight);
    TtlCoversTheDay(now);
  }

  lemma OneMoreCall(quota: int, K: nat, M: nat, inFlight: nat)
    requires inFlight <= K
    ensures TokenQuota.Bound(quota, K + 1, M, inFlight) == TokenQuota.Bound(quota, K, M, inFlight) + M
  {
    TokenQuota.Distribute(M, K - inFlight, 1);
  }

  /** The tenant keeps to its quota and to M tokens a call. */
  predicate Orderly(step: Step, t: Tenant, quota: int, M: nat) {
    step.tenant == t ==> (step.Begin? ==> step.quota == quota) && (step.Finish? ==> step.tokens <= M)
  }

  /** In flight are the calls that a backend let in and that have neither finished nor been given up. */
  lemma TallyStep(s: System, maxTracked: nat, step: Step, t: Tenant, up: bool)
    requires s.ledger.fallback.Valid()
    ensures var before, after := InFlight(s, t, up), InFlight(Next(s, maxTracked, step), t, up);
            if step.tenant != t then after == before
            else if step.Begin? then
              var refused := Exceeded(s.ledger, t, step.quota, step.now, up);
              after == before + if step.up == up && !refused then 1 else 0
            else after == if step.admitted == up && before > 0 then before - 1 else before
  {
  }

  /** Crossed are the calls charged to the backend that did not let them in. */
  lemma CrossedStep(s: System, maxTracked: nat, step: Step, t: Tenant, up: bool)
    requires s.ledger.fallback.Valid()
    ensures Crossed(Next(s, maxTracked, step), t, up)
            == Crossed(s, t, up)
               + if step.Finish? && step.tenant == t && step.up == up && step.admitted != up && InFlight(s, t, !up) > 0
                 then 1 else 0
  {
  }

  /** The tenant's stored counts are within the bound, given the calls in flight and those that crossed over. */
  ghost predicate StoreOk(s: System, t: Tenant, quota: int, K: nat, M: nat, now: real) {
    StoreWithin(s.ledger.store, t, quota, K + Crossed(s, t, true), M, InFlight(s, t, true), now)
  }

  lemma StoreStep(s: System, maxTracked: nat, step: Step, t: Tenant, quota: int, K: nat, M: nat, before: real)
    requires s.ledger.fallback.Valid() && quota >= 1 && before <= step.now && Orderly(step, t, quota, M)
    requires InFlight(s, t, true) <= K && InFlight(Next(s, maxTracked, step), t, true) <= K
    requires StoreOk(s, t, quota, K, M, before)
    ensures StoreOk(Next(s, maxTracked, step), t, quota, K, M, step.now)
  {
    var inFlight, room := InFlight(s, t, true), K + Crossed(s, t, true);
    StoreLater(s.ledger.store, t, quota, room, M, inFlight, before, step.now);
    if step.tenant == t {
      OwnStoreStep(s, maxTracked, step, t, quota, K, M);
    } else {
      Tallies(s, maxTracked, step, t, true);
      StoreChange(s, maxTracked, step);
      OthersStep(s, Next(s, maxTracked, step), step, t, quota, K, M);
    }
  }

  /** What a step does to the tallies of a tenant. */
  lemma Tallies(s: System, maxTracked: nat, step: Step, t: Tenant, up: bool)
    requires s.ledger.fallback.Valid()
    ensures var s' := Next(s, maxTracked, step);
            if step.tenant != t then
              InFlight(s', t, up) == InFlight(s, t, up) && Crossed(s', t, up) == Crossed(s, t, up)
            else match step
              case Begin(_, _, _, _) => Crossed(s', t, up) == Crossed(s, t, up)
              case Abandon(_, _, admitted) =>
                && Crossed(s', t, up) == Crossed(s, t, up)
                && InFlight(s', t, up)
                   == (if admitted == up then MaxInt(0, InFlight(s, t, up) - 1) else InFlight(s, t, up))
              case Finish(_, _, _, admitted, charged) =>
                InFlight(s, t, admitted) > 0 ==>
                  && InFlight(s', t, up) == (if admitted == up then InFlight(s, t, up) - 1 else InFlight(s, t, up))
                  && Crossed(s', t, up)
                     == (if charged == up && admitted != up then Crossed(s, t, up) + 1 else Crossed(s, t, up))
  {
  }

  function StoreAfter(m: Store, step: Step): Store {
    if step.Finish? && step.up && step.tokens > 0 then Increment(m, step.tenant, step.tokens, step.now) else m
  }

  lemma OthersStep(s: System, s': System, step: Step, t: Tenant, quota: int, K: nat, M: nat)
    requires step.tenant != t && StoreOk(s, t, quota, K, M, step.now)
    requires s'.ledger.store == s.ledger.store || s'.ledger.store == StoreAfter(s.ledger.store, step)
    requires InFlight(s', t, true) == InFlight(s, t, true) && Crossed(s', t, true) == Crossed(s, t, true)
    ensures StoreOk(s', t, quota, K, M, step.now)
  {
    if step.Finish? { OthersCharge(s.ledger.store, t, step.tenant, step.tokens, step.now); }
    SameStore(s.ledger.store, s'.ledger.store, t, quota, K + Crossed(s, t, true), M, InFlight(s, t, true), step.now);
  }

  lemma StoreChange(s: System, maxTracked: nat, step: Step)
    requires s.ledger.fallback.Valid()
    ensures var m, m' := s.ledger.store, Next(s, maxTracked, step).ledger.store;
            m' == m || m' == StoreAfter(m, step)
  {
  }

  lemma SameStore(m: Store, m': Store, t: Tenant, quota: int, room: nat, M: nat, inFlight: nat, now: real)
    requires StoreWithin(m, t, quota, room, M, inFlight, now)
    requires forall day :: ((t, day) in m' <==> (t, day) in m) && ((t, day) in m ==> m'[(t, day)] == m[(t, day)])
    ensures StoreWithin(m', t, quota, room, M, inFlight, now)
  {
  }

  lemma OwnStoreStep(s: System, maxTracked: nat, step: Step, t: Tenant, quota: int, K: nat, M: nat)
    requires s.ledger.fallback.Valid() && quota >= 1 && step.tenant == t && Orderly(step, t, quota, M)
    requires InFlight(s, t, true) <= K && InFlight(Next(s, maxTracked, step), t, true) <= K
    requires StoreOk(s, t, quota, K, M, step.now)
    ensures StoreOk(Next(s, maxTracked, step), t, quota, K, M, step.now)
  {
    match step
    case Begin(_, _, now, up) => OwnBegin(s, maxTracked, t, quota, K, M, now, up);
    case Finish(_, tokens, now, admitted, up) =>
      if InFlight(s, t, admitted) > 0 { OwnFinish(s, maxTracked, t, tokens, quota, K, M, now, admitted, up); }
    case Abandon(_, now, admitted) =>
      Tallies(s, maxTracked, step, t, true);
      if admitted { StoreLeaves(s.ledger.store, t, quota, K + Crossed(s, t, true), M, InFlight(s, t, true), now); }
  }

  lemma OwnBegin(s: System, maxTracked: nat, t: Tenant, quota: int, K: nat, M: nat, now: real, up: bool)
    requires s.ledger.fallback.Valid() && quota >= 1
    requires InFlight(Next(s, maxTracked, Begin(t, quota, now, up)), t, true) <= K
    requires StoreOk(s, t, quota, K, M, now)
    ensures StoreOk(Next(s, maxTracked, Begin(t, quota, now, up)), t, quota, K, M, now)
  {
    var s' := Next(s, maxTracked, Begin(t, quota, now, up));
    BeginTallies(s, maxTracked, t, quota, now, up);
    Admitted(s, s', t, quota, K, M, now);
  }

  lemma BeginTallies(s: System, maxTracked: nat, t: Tenant, quota: int, now: real, up: bool)
    requires s.ledger.fallback.Valid()
    ensures var s' := Next(s, maxTracked, Begin(t, quota, now, up));
            var room := up && !Exceeded(s.ledger, t, quota, now, true);
            && s'.ledger.store == s.ledger.store && Crossed(s', t, true) == Crossed(s, t, true)
            && InFlight(s', t, true) == if room then InFlight(s, t, true) + 1 else InFlight(s, t, true)
  {
  }

  lemma Admitted(s: System, s': System, t: Tenant, quota: int, K: nat, M: nat, now: real)
    requires quota >= 1 && StoreOk(s, t, quota, K, M, now) && InFlight(s', t, true) <= K
    requires s'.ledger.store == s.ledger.store && Crossed(s', t, true) == Crossed(s, t, true)
    requires InFlight(s', t, true) == InFlight(s, t, true)
             || (InFlight(s', t, true) == InFlight(s, t, true) + 1 && !Exceeded(s.ledger, t, quota, now, true))
    ensures StoreOk(s', t, quota, K, M, now)
  {
    if InFlight(s', t, true) != InFlight(s, t, true) {
      StoreAdmits(s.ledger.store, t, quota, K + Crossed(s, t, true), M, InFlight(s, t, true), now);
    }
  }

  lemma OwnFinish(s: System, maxTracked: nat, t: Tenant, tokens: int, quota: int, K: nat, M: nat, now: real,
                  admitted: bool, up: bool)
    requires s.ledger.fallback.Valid() && quota >= 1 && tokens <= M
    requires InFlight(s, t, true) <= K && InFlight(s, t, admitted) > 0
    requires StoreOk(s, t, quota, K, M, now)
    ensures StoreOk(Next(s, maxTracked, Finish(t, tokens, now, admitted, up)), t, quota, K, M, now)
  {
    var m, step := s.ledger.store, Finish(t, tokens, now, admitted, up);
    Tallies(s, maxTracked, step, t, true);
    assert Next(s, maxTracked, step).ledger.store == StoreAfter(m, step);
    StoreFinishes(m, t, tokens, quota, K + Crossed(s, t, true), M, InFlight(s, t, true), now, admitted, up);
  }

  /** A call that is finished, wherever it was admitted and wherever it is charged. */
  lemma StoreFinishes(m: Store, t: Tenant, tokens: int, quota: int, room: nat, M: nat, inFlight: nat, now: real,
                      admitted: bool, up: bool)
    requires StoreWithin(m, t, quota, room, M, inFlight, now) && quota >= 1 && inFlight <= room && tokens <= M
    requires admitted ==> inFlight > 0
    ensures StoreWithin(if up && tokens > 0 then Increment(m, t, tokens, now) else m, t, quota,
                        if up && !admitted then room + 1 else room, M, if admitted then inFlight - 1 else inFlight, now)
  {
    if admitted {
      StoreLeaves(m, t, quota, room, M, inFlight, now);
      if up && tokens > 0 { StoreCharges(m, t, tokens, quota, room, M, inFlight, now); }
    } else if up {
      StoreCrossed(m, t, tokens, quota, room, M, inFlight, now);
    }
  }

  lemma OthersCharge(m: Store, t: Tenant, other: Tenant, tokens: int, now: real)
    requires other != t
    ensures forall day :: ((t, day) in Increment(m, other, tokens, now) <==> (t, day) in m)
                          && ((t, day) in m ==> Increment(m, other, tokens, now)[(t, day)] == m[(t, day)])
  {
  }

  // ---- The fallback ----

  ghost predicate FallbackWithin(d: TokenQuota.Registry, t: Tenant, quota: int, K: nat, M: nat, inFlight: nat) {
    forall day :: TokenQuota.Used(d, t, day) <= TokenQuota.Bound(quota, K, M, inFlight)
  }

  ghost predicate FallbackOk(s: System, t: Tenant, quota: int, K: nat, M: nat) {
    FallbackWithin(s.ledger.fallback, t, quota, K + Crossed(s, t, false), M, InFlight(s, t, false))
  }

  lemma FallbackStep(s: System, maxTracked: nat, step: Step, t: Tenant, quota: int, K: nat, M: nat)
    requires s.ledger.fallback.Valid() && quota >= 1 && Orderly(step, t, quota, M)
    requires InFlight(s, t, false) <= K && InFlight(Next(s, maxTracked, step), t, false) <= K
    requires FallbackOk(s, t, quota, K, M)
    ensures FallbackOk(Next(s, maxTracked, step), t, quota, K, M)
  {
    var s', room := Next(s, maxTracked, step), K + Crossed(s, t, false);
    Tallies(s, maxTracked, step, t, false);
    forall day
      ensures TokenQuota.Used(s'.ledger.fallback, t, day)
              <= TokenQuota.Bound(quota, room, M, InFlight(s', t, false)) + CrossingTokens(s, s', t, M)
    {
      FallbackCounter(s, maxTracked, step, t, quota, room, M, day);
    }
    FallbackRoom(s, s', t, quota, K, M);
  }

  /** What a call that crosses over may charge. */
  function CrossingTokens(s: System, s': System, t: Tenant, M: nat): nat {
    if Crossed(s', t, false) > Crossed(s, t, false) then M else 0
  }

  lemma FallbackRoom(s: System, s': System, t: Tenant, quota: int, K: nat, M: nat)
    requires InFlight(s', t, false) <= K
    requires Crossed(s', t, false) == Crossed(s, t, false) || Crossed(s', t, false) == Crossed(s, t, false) + 1
    requires forall day :: TokenQuota.Used(s'.ledger.fallback, t, day)
               <= TokenQuota.Bound(quota, K + Crossed(s, t, false), M, InFlight(s', t, false))
                 + CrossingTokens(s, s', t, M)
    ensures FallbackOk(s', t, quota, K, M)
  {
    OneMoreCall(quota, K + Crossed(s, t, false), M, InFlight(s', t, false));
  }

  /** One counter of the fallback after a step. */
  lemma FallbackCounter(s: System, maxTracked: nat, step: Step, t: Tenant, quota: int, room: nat, M: nat, day: int)
    requires s.ledger.fallback.Valid() && quota >= 1 && Orderly(step, t, quota, M)
    requires InFlight(s, t, false) <= room && InFlight(Next(s, maxTracked, step), t, false) <= room
    requires FallbackWithin(s.ledger.fallback, t, quota, room, M, InFlight(s, t, false))
    ensures var s' := Next(s, maxTracked, step);
            TokenQuota.Used(s'.ledger.fallback, t, day)
            <= TokenQuota.Bound(quota, room, M, InFlight(s', t, false)) + CrossingTokens(s, s', t, M)
  {
    var d, s' := s.ledger.fallback, Next(s, maxTracked, step);
    var a, b := InFlight(s, t, false), InFlight(s', t, false);
    TokenQuota.BoundShrinks(quota, room, M, MinInt(a, b), MaxInt(a, b));
    TokenQuota.BoundShrinks(quota, room, M, b, b);
    match step
    case Begin(tenant, q, now, up) =>
      if !up { TokenQuota.CounterAfterCheck(d, maxTracked, tenant, q, DayOf(now), t, day); }
    case Finish(tenant, tokens, now, admitted, up) =>
      if !up { TokenQuota.CounterAfterRecord(d, maxTracked, tenant, tokens, DayOf(now), t, day); }
    case Abandon(_, _, _) =>
  }

  // ---- The bound ----

  lemma {:induction false} BothOk(ss: seq<System>, steps: seq<Step>, maxTracked: nat, t: Tenant,
                                  quota: int, K: nat, M: nat, n: nat)
    requires IsRun(ss, steps, maxTracked) && Disciplined(ss, steps, t, quota, K, M) && quota >= 1 && n < |ss|
    ensures StoreOk(ss[n], t, quota, K, M, TimeBefore(steps, n)) && FallbackOk(ss[n], t, quota, K, M)
  {
    if n == 0 {
      TokenQuota.BoundShrinks(quota, K, M, 0, 0);
    } else {
      var k := n - 1;
      BothOk(ss, steps, maxTracked, t, quota, K, M, k);
      assert ss[k + 1] == Next(ss[k], maxTracked, steps[k]) && Orderly(steps[k], t, quota, M);
      assert InFlight(ss[k], t, true) <= K && InFlight(ss[k + 1], t, true) <= K;
      assert InFlight(ss[k], t, false) <= K && InFlight(ss[k + 1], t, false) <= K;
      StoreStep(ss[k], maxTracked, steps[k], t, quota, K, M, TimeBefore(steps, k));
      FallbackStep(ss[k], maxTracked, steps[k], t, quota, K, M);
    }
  }

  /** The time of the step before step n. */
  function TimeBefore(steps: seq<Step>, n: nat): real
    requires n <= |steps|
  {
    if n > 0 then steps[n - 1].now else if steps != [] then steps[0].now else 0.0
  }

  /** However the steps of all tenants and replicas interleave, however often the store fails and returns, and
      across day changes: on any day neither the stored count nor the fallback's count of the tenant exceeds
      quota - 1 + M * (K + c), where c counts the calls charged there that the other backend had admitted. */
  lemma RedisOvershootBound(ss: seq<System>, steps: seq<Step>, maxTracked: nat, t: Tenant, quota: int, K: nat, M: nat,
                            n: nat)
    requires IsRun(ss, steps, maxTracked) && Disciplined(ss, steps, t, quota, K, M) && quota >= 1 && n < |ss|
    ensures forall day, now :: Get(ss[n].ledger.store, t, day, now) <= quota - 1 + M * (K + Crossed(ss[n], t, true))
    ensures forall day ::
              TokenQuota.Used(ss[n].ledger.fallback, t, day) <= quota - 1 + M * (K + Crossed(ss[n], t, false))
  {
    BothOk(ss, steps, maxTracked, t, quota, K, M, n);
    assert InFlight(ss[n], t, false) <= K;
    TokenQuota.BoundShrinks(quota, K + Crossed(ss[n], t, true), M, 0, 0);
    TokenQuota.BoundShrinks(quota, K + Crossed(ss[n], t, false), M, 0, InFlight(ss[n], t, false));
  }
}
