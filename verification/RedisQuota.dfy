/** The shared daily quota: one counter per tenant and day in a store with key expiry, and a local
    tracker for the calls whose store operation failed. */
module RedisQuota {
  import opened Common
  import opened OrderedDicts
  import opened TokenQuota

  const DAY := 86400.0

  function DayOf(t: real): int { (t / DAY).Floor }
  function Midnight(day: int): real { (day + 1) as real * DAY }

  /** Until midnight, whole seconds, plus a day. */
  function Ttl(t: real): int { (Midnight(DayOf(t)) - t).Floor + 86400 }

  /** A key written on a day outlives that day. */
  lemma TtlCoversTheDay(t: real)
    ensures Midnight(DayOf(t)) - DAY <= t < Midnight(DayOf(t)) < t + Ttl(t) as real
    ensures 86399.0 < t + Ttl(t) as real - Midnight(DayOf(t)) <= 86400.0
  {
    var q := t / DAY;
    assert q * DAY == t && q < q.Floor as real + 1.0;
    var left := Midnight(DayOf(t)) - t;
    assert left > 0.0 && left.Floor as real > left - 1.0;
  }

  datatype Counter = Counter(tokens: int, expireAt: real)
  type Store = map<(Tenant, int), Counter>

  /** What GET returns for a tenant's key of a day at time t. */
  function Get(m: Store, tenant: Tenant, day: int, t: real): int {
    if (tenant, day) in m && t < m[(tenant, day)].expireAt then m[(tenant, day)].tokens else 0
  }

  /** The recording script: INCRBY, and the expiry only when the key is new. */
  function Increment(m: Store, tenant: Tenant, tokens: int, t: real): Store {
    var key := (tenant, DayOf(t));
    var current := Get(m, tenant, DayOf(t), t) + tokens;
    m[key := Counter(current, if current == tokens then t + Ttl(t) as real else m[key].expireAt)]
  }

  /** Only the first charge of a day sets the expiry; later ones and those of others leave it alone. */
  lemma FirstChargeSetsExpiry(m: Store, tenant: Tenant, tokens: int, t: real)
    requires tokens > 0
    ensures var key, m' := (tenant, DayOf(t)), Increment(m, tenant, tokens, t);
            && m' == m[key := m'[key]] && m'[key].tokens == Get(m, tenant, DayOf(t), t) + tokens
            && m'[key].expireAt == if Get(m, tenant, DayOf(t), t) == 0 then t + Ttl(t) as real else m[key].expireAt
  {
  }

  /** The shared store and one replica's fallback. */
  datatype Ledger = Ledger(store: Store, fallback: Registry)

  /** A recorded call: `stored` says whether the store took it or raised without effect. */
  datatype Charge = Charge(tenant: Tenant, tokens: int, now: real, stored: bool)

  function Next(s: Ledger, maxTracked: nat, c: Charge): (s': Ledger)
    requires s.fallback.Valid()
    ensures s'.fallback.Valid()
  {
    if c.tokens <= 0 then s
    else if c.stored then s.(store := Increment(s.store, c.tenant, c.tokens, c.now))
    else s.(fallback := Record(s.fallback, maxTracked, c.tenant, c.tokens, DayOf(c.now)))
  }

  function After(charges: seq<Charge>, maxTracked: nat): (s: Ledger)
    ensures s.fallback.Valid()
    decreases |charges|
  {
    if charges == [] then Ledger(map[], Empty())
    else Next(After(charges[..|charges| - 1], maxTracked), maxTracked, charges[|charges| - 1])
  }

  function Amount(c: Charge, tenant: Tenant, day: int, stored: bool): nat {
    if c.tenant == tenant && DayOf(c.now) == day && c.stored == stored then MaxInt(0, c.tokens) else 0
  }

  /** The tokens of a tenant's calls of a day that went to the store, or that did not. */
  function Total(charges: seq<Charge>, tenant: Tenant, day: int, stored: bool): nat
    decreases |charges|
  {
    if charges == [] then 0
    else Total(charges[..|charges| - 1], tenant, day, stored) + Amount(charges[|charges| - 1], tenant, day, stored)
  }

  ghost predicate Ordered(charges: seq<Charge>, now: real) {
    && (forall i :: 0 <= i < |charges| ==> charges[i].now <= now)
    && (forall i, j :: 0 <= i < j < |charges| ==> charges[i].now <= charges[j].now)
  }

  /** The keys of a tenant: what the store took that day, each key outliving its day. */
  ghost predicate StoreTracks(m: Store, charges: seq<Charge>, tenant: Tenant) {
    forall day ::
      if (tenant, day) in m
      then m[(tenant, day)].tokens == Total(charges, tenant, day, true) && m[(tenant, day)].expireAt > Midnight(day)
      else Total(charges, tenant, day, true) == 0
  }

  lemma StoreStep(m: Store, charges: seq<Charge>, c: Charge, tenant: Tenant)
    requires StoreTracks(m, charges, tenant)
    ensures StoreTracks(if c.tokens > 0 && c.stored then Increment(m, c.tenant, c.tokens, c.now) else m,
                        charges + [c], tenant)
  {
    assert (charges + [c])[..|charges|] == charges;
    TtlCoversTheDay(c.now);
    var day := DayOf(c.now);
    var m' := if c.tokens > 0 && c.stored then Increment(m, c.tenant, c.tokens, c.now) else m;
    forall d
      ensures if (tenant, d) in m'
              then m'[(tenant, d)].tokens == Total(charges + [c], tenant, d, true)
                && m'[(tenant, d)].expireAt > Midnight(d)
              else Total(charges + [c], tenant, d, true) == 0
    {
      assert if (tenant, d) in m
             then m[(tenant, d)].tokens == Total(charges, tenant, d, true) && m[(tenant, d)].expireAt > Midnight(d)
             else Total(charges, tenant, d, true) == 0;
    }
  }

  lemma {:induction false} StoreIsRecorded(charges: seq<Charge>, maxTracked: nat, tenant: Tenant)
    ensures StoreTracks(After(charges, maxTracked).store, charges, tenant)
    decreases |charges|
  {
    if charges != [] {
      var before, c := charges[..|charges| - 1], charges[|charges| - 1];
      StoreIsRecorded(before, maxTracked, tenant);
      StoreStep(After(before, maxTracked).store, before, c, tenant);
      assert before + [c] == charges;
    }
  }

  /** The charges the fallback takes, as steps of the local tracker. */
  function Fallen(charges: seq<Charge>): seq<Step>
    decreases |charges|
  {
    if charges == [] then []
    else
      var c := charges[|charges| - 1];
      Fallen(charges[..|charges| - 1]) + (if c.stored then [] else [Finish(c.tenant, c.tokens, DayOf(c.now))])
  }

  lemma DaysGrow(a: real, b: real)
    requires a <= b
    ensures DayOf(a) <= DayOf(b)
  {
    assert a / DAY <= b / DAY;
  }

  /** The fallback runs like a local tracker on the charges it takes. */
  lemma {:induction false} FallbackIsLocalRun(charges: seq<Charge>, maxTracked: nat)
    ensures After(charges, maxTracked).fallback == TokenQuota.After(Fallen(charges), maxTracked)
    decreases |charges|
  {
    if charges != [] {
      var before, c := charges[..|charges| - 1], charges[|charges| - 1];
      FallbackIsLocalRun(before, maxTracked);
      var fallen := Fallen(before);
      if c.stored {
        assert Fallen(charges) == fallen;
      } else {
        var step := Finish(c.tenant, c.tokens, DayOf(c.now));
        assert Fallen(charges) == fallen + [step] && (fallen + [step])[..|fallen|] == fallen;
      }
    }
  }

  lemma {:induction false} FallenTotals(charges: seq<Charge>, tenant: Tenant)
    ensures forall day :: Recorded(Fallen(charges), tenant, day) == Total(charges, tenant, day, false)
    decreases |charges|
  {
    if charges != [] {
      var before, c := charges[..|charges| - 1], charges[|charges| - 1];
      FallenTotals(before, tenant);
      if c.stored {
        assert Fallen(charges) == Fallen(before);
      } else {
        RecordedStep(Fallen(before), Finish(c.tenant, c.tokens, DayOf(c.now)), tenant);
      }
    }
  }

  lemma {:induction false} FallenDaily(charges: seq<Charge>, now: real)
    requires Ordered(charges, now)
    ensures Daily(Fallen(charges), DayOf(now))
    decreases |charges|
  {
    if charges != [] {
      var before, c := charges[..|charges| - 1], charges[|charges| - 1];
      assert forall i :: 0 <= i < |before| ==> before[i] == charges[i];
      FallenDaily(before, c.now);
      DaysGrow(c.now, now);
      var fallen, step := Fallen(before), Finish(c.tenant, c.tokens, DayOf(c.now));
      assert Fallen(charges) == if c.stored then fallen else fallen + [step];
    }
  }

  /** However the store's operations fail, as long as they fail cleanly and the fallback does not evict the
      tenant, today's stored count and today's fallback count add up to the tokens recorded today. */
  lemma NothingIsLost(charges: seq<Charge>, maxTracked: nat, now: real, tenant: Tenant)
    requires Ordered(charges, now) && Stays(Fallen(charges), maxTracked, tenant)
    ensures var s, today := After(charges, maxTracked), DayOf(now);
            && Get(s.store, tenant, today, now) == Total(charges, tenant, today, true)
            && Used(s.fallback, tenant, today) == Total(charges, tenant, today, false)
            && Get(s.store, tenant, today, now) + Used(s.fallback, tenant, today)
               == Total(charges, tenant, today, true) + Total(charges, tenant, today, false)
  {
    StoreIsRecorded(charges, maxTracked, tenant);
    FallbackIsLocalRun(charges, maxTracked);
    FallenTotals(charges, tenant);
    FallenDaily(charges, now);
    CounterIsRecorded(Fallen(charges), maxTracked, DayOf(now), tenant);
    TtlCoversTheDay(now);
  }

  /** If the fallback does evict, it can only hold less than was recorded on it. */
  lemma NothingIsInvented(charges: seq<Charge>, maxTracked: nat, now: real, tenant: Tenant)
    ensures var s, today := After(charges, maxTracked), DayOf(now);
            && Get(s.store, tenant, today, now) == Total(charges, tenant, today, true)
            && Used(s.fallback, tenant, today) <= Total(charges, tenant, today, false)
  {
    StoreIsRecorded(charges, maxTracked, tenant);
    FallbackIsLocalRun(charges, maxTracked);
    FallenTotals(charges, tenant);
    CounterIsAtMostRecorded(Fallen(charges), maxTracked, tenant, DayOf(now));
    TtlCoversTheDay(now);
  }

  /** But the check reads one of the two only: `readable` says whether the store answers. */
  function Exceeded(s: Ledger, tenant: Tenant, quota: int, now: real, readable: bool): bool {
    quota > 0 && (if readable then Get(s.store, tenant, DayOf(now), now) else Used(s.fallback, tenant, DayOf(now)))
      >= quota
  }

  /** The check is exact for the backend that answers it: it refuses exactly when the tenant has a quota and the
      tokens charged to that backend today have reached it. */
  lemma CheckIsExact(charges: seq<Charge>, maxTracked: nat, now: real, tenant: Tenant, quota: int, readable: bool)
    requires Ordered(charges, now) && (!readable ==> Stays(Fallen(charges), maxTracked, tenant))
    ensures Exceeded(After(charges, maxTracked), tenant, quota, now, readable)
            <==> quota > 0 && Total(charges, tenant, DayOf(now), readable) >= quota
  {
    NothingIsInvented(charges, maxTracked, now, tenant);
    if !readable { NothingIsLost(charges, maxTracked, now, tenant); }
  }

  /** So when reads work and writes fail, a tenant that starts the day with room is never stopped, however
      much it uses. */
  lemma {:induction false} FailedWritesAreNeverEnforced(s: Ledger, maxTracked: nat, charges: seq<Charge>,
                                                        tenant: Tenant, quota: int, now: real)
    requires s.fallback.Valid() && !Exceeded(s, tenant, quota, now, true)
    requires forall i :: 0 <= i < |charges| ==> !charges[i].stored
    ensures !Exceeded(RunFrom(s, maxTracked, charges), tenant, quota, now, true)
    decreases |charges|
  {
    if charges != [] {
      FailedWritesAreNeverEnforced(Next(s, maxTracked, charges[0]), maxTracked, charges[1..], tenant, quota, now);
    }
  }

  /** Nor is it when writes work and reads fail: the stored count grows without bound while the check looks at
      the fallback's. */
  lemma {:induction false} FailedReadsAreNeverEnforced(s: Ledger, maxTracked: nat, charges: seq<Charge>, tenant: Tenant,
                                                       quota: int, now: real)
    requires s.fallback.Valid() && !Exceeded(s, tenant, quota, now, false)
    requires forall i :: 0 <= i < |charges| ==> charges[i].stored
    ensures !Exceeded(RunFrom(s, maxTracked, charges), tenant, quota, now, false)
    decreases |charges|
  {
    if charges != [] {
      FailedReadsAreNeverEnforced(Next(s, maxTracked, charges[0]), maxTracked, charges[1..], tenant, quota, now);
    }
  }

  function RunFrom(s: Ledger, maxTracked: nat, charges: seq<Charge>): (s': Ledger)
    requires s.fallback.Valid()
    ensures s'.fallback.Valid()
    decreases |charges|
  {
    if charges == [] then s else RunFrom(Next(s, maxTracked, charges[0]), maxTracked, charges[1..])
  }
}
