/** Per-tenant daily token accounting of `core/token_quota.py`, and how far a tenant can
    overshoot a quota that is checked before a call and charged after it. */
module TokenQuota {
  import opened Common
  import opened OrderedDicts

  type Tenant = string
  datatype Usage = Usage(day: int, tokens: int)
  type Registry = OrderedDict<Tenant, Usage>

  /** The tenant's counter for today, rolled over to a fresh day or created as needed. */
  function Current(d: Registry, maxTracked: nat, tenant: Tenant, today: int): (r: Registry)
    requires d.Valid()
    ensures r.Valid()
  {
    if tenant in d.data && d.data[tenant].day == today then d.MoveToEnd(tenant)
    else EvictTo(d.Put(tenant, Usage(today, 0)), maxTracked)
  }

  /** What the registry says a tenant has used on a day. */
  function Used(d: Registry, tenant: Tenant, day: int): int {
    if tenant in d.data && d.data[tenant].day == day then d.data[tenant].tokens else 0
  }

  /** The registry and the answer of would_exceed; a quota of zero or less means unlimited. */
  function WouldExceed(d: Registry, maxTracked: nat, tenant: Tenant, quota: int, today: int): (r: (Registry, bool))
    requires d.Valid()
    ensures r.0.Valid()
  {
    if quota <= 0 then (d, false)
    else (Current(d, maxTracked, tenant, today), Used(d, tenant, today) >= quota)
  }

  function Record(d: Registry, maxTracked: nat, tenant: Tenant, tokens: int, today: int): (r: Registry)
    requires d.Valid()
    ensures r.Valid()
  {
    if tokens <= 0 then d
    else
      Charge(Current(d, maxTracked, tenant, today), tenant, tokens)
  }

  /** Adds to a counter; one that was evicted at once is charged in vain. */
  function Charge(d: Registry, tenant: Tenant, tokens: int): (r: Registry)
    requires d.Valid()
    ensures r.Valid()
  {
    if tenant in d.data then d.Put(tenant, d.data[tenant].(tokens := d.data[tenant].tokens + tokens)) else d
  }

  class LocalTracker {
    const maxTracked: nat
    var usage: Registry

    constructor (maxTracked: nat)
      ensures this.maxTracked == maxTracked && usage == Empty()
    {
      this.maxTracked := maxTracked;
      usage := Empty();
    }

    /** Makes the tenant's counter current and returns it, even if it was evicted at once. */
    method GetCurrent(tenant: Tenant, today: int) returns (tokens: int)
      requires usage.Valid()
      modifies this
      ensures usage.Valid() && usage == Current(old(usage), maxTracked, tenant, today)
      ensures tokens == Used(old(usage), tenant, today)
    {
      if tenant !in usage.data || usage.data[tenant].day != today {
        usage := usage.Put(tenant, Usage(today, 0));
        while |usage.order| > maxTracked
          invariant usage.Valid()
          invariant EvictTo(usage, maxTracked) == Current(old(usage), maxTracked, tenant, today)
          decreases |usage.order|
        {
          usage := usage.PopFirst();
        }
        return 0;
      }
      usage := usage.MoveToEnd(tenant);
      tokens := usage.data[tenant].tokens;
    }

    method CheckExceeded(tenant: Tenant, quota: int, today: int) returns (exceeded: bool)
      requires usage.Valid()
      modifies this
      ensures usage.Valid() && (usage, exceeded) == WouldExceed(old(usage), maxTracked, tenant, quota, today)
    {
      if quota <= 0 {
        return false;
      }
      var tokens := GetCurrent(tenant, today);
      exceeded := tokens >= quota;
    }

    method RecordUsage(tenant: Tenant, tokens: int, today: int)
      requires usage.Valid()
      modifies this
      ensures usage.Valid() && usage == Record(old(usage), maxTracked, tenant, tokens, today)
    {
      if tokens <= 0 {
        return;
      }
      var used := GetCurrent(tenant, today);
      usage := Charge(usage, tenant, tokens);
    }
  }

  // ---- Calls in flight ----

  /** What happens to the tracker: a call is checked, and later charged or abandoned. */
  datatype Step =
    | Begin(tenant: Tenant, quota: int, today: int)
    | Finish(tenant: Tenant, tokens: int, today: int)
    | Abandon(tenant: Tenant)

  /** The tracker and, per tenant, the calls admitted and not finished. */
  datatype System = System(usage: Registry, inFlight: map<Tenant, nat>)

  function InFlight(s: System, t: Tenant): nat { if t in s.inFlight then s.inFlight[t] else 0 }

  function Leave(s: System, t: Tenant): map<Tenant, nat> {
    s.inFlight[t := MaxInt(0, InFlight(s, t) - 1)]
  }

  function Next(s: System, maxTracked: nat, step: Step): (s': System)
    requires s.usage.Valid()
    ensures s'.usage.Valid()
  {
    match step
    case Begin(tenant, quota, today) =>
      var (usage, exceeded) := WouldExceed(s.usage, maxTracked, tenant, quota, today);
      System(usage, if exceeded then s.inFlight else s.inFlight[tenant := InFlight(s, tenant) + 1])
    case Finish(tenant, tokens, today) =>
      if InFlight(s, tenant) == 0 then s
      else System(Record(s.usage, maxTracked, tenant, tokens, today), Leave(s, tenant))
    case Abandon(tenant) => s.(inFlight := Leave(s, tenant))
  }

  function Run(s: System, maxTracked: nat, steps: seq<Step>): (s': System)
    requires s.usage.Valid()
    ensures s'.usage.Valid()
    decreases |steps|
  {
    if steps == [] then s else Run(Next(s, maxTracked, steps[0]), maxTracked, steps[1..])
  }

  /** The tenant always checks against this quota, charges at most M tokens a call, and never has more
      than K calls in flight. */
  ghost predicate Disciplined(s: System, maxTracked: nat, steps: seq<Step>, t: Tenant, quota: int, K: nat, M: nat)
    requires s.usage.Valid()
    decreases |steps|
  {
    && InFlight(s, t) <= K
    && (steps != [] ==>
          && (steps[0].Begin? && steps[0].tenant == t ==> steps[0].quota == quota)
          && (steps[0].Finish? && steps[0].tenant == t ==> steps[0].tokens <= M)
          && Disciplined(Next(s, maxTracked, steps[0]), maxTracked, steps[1..], t, quota, K, M))
  }

  /** Room left in the quota for the calls not in flight. */
  function Bound(quota: int, K: nat, M: nat, inFlight: nat): int { quota - 1 + M * (K - inFlight) }

  /** However the steps of all tenants interleave, and across day changes, no counter of the tenant ever
      exceeds quota - 1 + K * M; with calls still in flight their share is still to come. */
  lemma {:induction false} OvershootBound(s: System, maxTracked: nat, steps: seq<Step>, t: Tenant, quota: int, K: nat,
                                          M: nat)
    requires s.usage.Valid() && quota >= 1
    requires Disciplined(s, maxTracked, steps, t, quota, K, M)
    requires forall day :: Used(s.usage, t, day) <= Bound(quota, K, M, InFlight(s, t))
    ensures var s' := Run(s, maxTracked, steps);
            && InFlight(s', t) <= K
            && forall day :: Used(s'.usage, t, day) <= Bound(quota, K, M, InFlight(s', t)) <= quota - 1 + M * K
    decreases |steps|
  {
    if steps == [] {
      BoundShrinks(quota, K, M, 0, InFlight(s, t));
    } else {
      BoundStep(s, maxTracked, steps[0], t, quota, K, M);
      OvershootBound(Next(s, maxTracked, steps[0]), maxTracked, steps[1..], t, quota, K, M);
    }
  }

  lemma BoundShrinks(quota: int, K: nat, M: nat, a: nat, b: nat)
    requires a <= b <= K
    ensures Bound(quota, K, M, b) <= Bound(quota, K, M, a)
    ensures quota - 1 <= Bound(quota, K, M, b)
    ensures a < b ==> Bound(quota, K, M, b) + M <= Bound(quota, K, M, a)
    ensures Bound(quota, K, M, 0) == quota - 1 + M * K
  {
    Distribute(M, K - b, b - a);
    NonNegative(M, b - a);
    NonNegative(M, K - b);
    if a < b {
      Distribute(M, b - a - 1, 1);
      NonNegative(M, b - a - 1);
    }
  }

  lemma Distribute(m: int, x: int, y: int)
    ensures m * (x + y) == m * x + m * y
  {
  }

  lemma NonNegative(m: nat, x: nat)
    ensures m * x >= 0
  {
  }

  /** In flight are the calls that were let in and have neither finished nor been given up. */
  lemma InFlightStep(s: System, maxTracked: nat, step: Step, t: Tenant)
    requires s.usage.Valid()
    ensures var before, after := InFlight(s, t), InFlight(Next(s, maxTracked, step), t);
            if step.tenant != t then after == before
            else if step.Begin? then
              after == before + if step.quota > 0 && Used(s.usage, t, step.today) >= step.quota then 0 else 1
            else after == if before > 0 then before - 1 else 0
  {
  }

  lemma BoundStep(s: System, maxTracked: nat, step: Step, t: Tenant, quota: int, K: nat, M: nat)
    requires s.usage.Valid() && quota >= 1
    requires InFlight(s, t) <= K && InFlight(Next(s, maxTracked, step), t) <= K
    requires step.Begin? && step.tenant == t ==> step.quota == quota
    requires step.Finish? && step.tenant == t ==> step.tokens <= M
    requires forall day :: Used(s.usage, t, day) <= Bound(quota, K, M, InFlight(s, t))
    ensures var s' := Next(s, maxTracked, step);
            forall day :: Used(s'.usage, t, day) <= Bound(quota, K, M, InFlight(s', t))
  {
    var s' := Next(s, maxTracked, step);
    var a, b := InFlight(s, t), InFlight(s', t);
    BoundShrinks(quota, K, M, a, a);
    BoundShrinks(quota, K, M, b, b);
    if b < a { BoundShrinks(quota, K, M, b, a); }
    forall day ensures Used(s'.usage, t, day) <= Bound(quota, K, M, b) {
      match step {
        case Begin(tenant, q, today) => CounterAfterCheck(s.usage, maxTracked, tenant, q, today, t, day);
        case Finish(tenant, tokens, today) =>
          if InFlight(s, tenant) > 0 { CounterAfterRecord(s.usage, maxTracked, tenant, tokens, today, t, day); }
        case Abandon(tenant) =>
      }
    }
  }

  /** A check never raises a counter. */
  lemma CounterAfterCheck(d: Registry, maxTracked: nat, tenant: Tenant, quota: int, today: int, t: Tenant, day: int)
    requires d.Valid()
    ensures var u := Used(WouldExceed(d, maxTracked, tenant, quota, today).0, t, day);
            u == Used(d, t, day) || u == 0
  {
  }

  /** Charging raises only this tenant's counter of this day, and by no more than the tokens. */
  lemma CounterAfterRecord(d: Registry, maxTracked: nat, tenant: Tenant, tokens: int, today: int, t: Tenant, day: int)
    requires d.Valid()
    ensures var u := Used(Record(d, maxTracked, tenant, tokens, today), t, day);
            u == Used(d, t, day) || u == 0 || (tenant == t && u == MaxInt(0, tokens)) ||
            (tenant == t && today == day && tokens > 0 && u == Used(d, t, day) + tokens)
  {
  }

  // ---- The counters are the recorded tokens ----

  /** The registry alone under checks and charges. */
  function Apply(d: Registry, maxTracked: nat, step: Step): (r: Registry)
    requires d.Valid()
    ensures r.Valid()
  {
    match step
    case Begin(tenant, quota, today) => WouldExceed(d, maxTracked, tenant, quota, today).0
    case Finish(tenant, tokens, today) => Record(d, maxTracked, tenant, tokens, today)
    case Abandon(_) => d
  }

  function After(steps: seq<Step>, maxTracked: nat): (r: Registry)
    ensures r.Valid()
    decreases |steps|
  {
    if steps == [] then Empty() else Apply(After(steps[..|steps| - 1], maxTracked), maxTracked, steps[|steps| - 1])
  }

  function Tokens(step: Step, t: Tenant, day: int): nat {
    if step.Finish? && step.tenant == t && step.today == day then MaxInt(0, step.tokens) else 0
  }

  /** The tokens recorded for a tenant on a day. */
  function Recorded(steps: seq<Step>, t: Tenant, day: int): nat
    decreases |steps|
  {
    if steps == [] then 0
    else Recorded(steps[..|steps| - 1], t, day) + Tokens(steps[|steps| - 1], t, day)
  }

  /** Steps on days that never go back, none after `today`. */
  ghost predicate Daily(steps: seq<Step>, today: int) {
    && (forall i :: 0 <= i < |steps| && !steps[i].Abandon? ==> steps[i].today <= today)
    && (forall i, j :: 0 <= i < j < |steps| && !steps[i].Abandon? && !steps[j].Abandon? ==>
          steps[i].today <= steps[j].today)
  }

  /** The step makes its tenant's counter current. */
  predicate Writes(step: Step) { (step.Begin? && step.quota > 0) || (step.Finish? && step.tokens > 0) }

  /** The tenant's counter is never evicted. */
  ghost predicate Stays(steps: seq<Step>, maxTracked: nat, t: Tenant)
    decreases |steps|
  {
    steps != [] ==>
      var before, step := steps[..|steps| - 1], steps[|steps| - 1];
      && Stays(before, maxTracked, t)
      && StaysAt(After(before, maxTracked), maxTracked, step, t)
  }

  ghost predicate StaysAt(d: Registry, maxTracked: nat, step: Step, t: Tenant)
    requires d.Valid()
  {
    t in d.data || (Writes(step) && step.tenant == t) ==> t in Apply(d, maxTracked, step).data
  }

  /** The counter of a tenant holds what was recorded on its day, and nothing was recorded later. */
  ghost predicate Tracks(data: map<Tenant, Usage>, steps: seq<Step>, t: Tenant) {
    && (t in data ==> data[t].tokens == Recorded(steps, t, data[t].day))
    && forall day :: (t in data ==> day > data[t].day) ==> Recorded(steps, t, day) == 0
  }

  /** A step writes at most its own tenant's counter; others it can only evict. */
  lemma AppliedAt(d: Registry, maxTracked: nat, step: Step, t: Tenant)
    requires d.Valid()
    ensures var d' := Apply(d, maxTracked, step).data;
            t in d' ==>
              if Writes(step) && step.tenant == t
              then d'[t] == Usage(step.today, Used(d, t, step.today) + Tokens(step, t, step.today))
              else t in d.data && d'[t] == d.data[t]
  {
    if Writes(step) { CurrentAt(d, maxTracked, step.tenant, step.today, t); }
  }

  /** Making a counter current keeps what it holds for the day; others it can only evict. */
  lemma CurrentAt(d: Registry, maxTracked: nat, x: Tenant, today: int, t: Tenant)
    requires d.Valid()
    ensures var r := Current(d, maxTracked, x, today).data;
            t in r ==> if t == x then r[t] == Usage(today, Used(d, x, today)) else t in d.data && r[t] == d.data[t]
  {
    var put := d.Put(x, Usage(today, 0));
    assert put.data == d.data[x := Usage(today, 0)];
  }

  /** As long as a tenant's counter is never evicted, and across day changes, today's counter is exactly the
      tokens recorded today. */
  lemma {:induction false} CounterIsRecorded(steps: seq<Step>, maxTracked: nat, today: int, t: Tenant)
    requires Daily(steps, today) && Stays(steps, maxTracked, t)
    ensures Used(After(steps, maxTracked), t, today) == Recorded(steps, t, today)
    ensures Tracks(After(steps, maxTracked).data, steps, t)
    ensures t in After(steps, maxTracked).data ==> After(steps, maxTracked).data[t].day <= today
    decreases |steps|
  {
    if steps != [] {
      var before, step := steps[..|steps| - 1], steps[|steps| - 1];
      var day := if step.Abandon? then today else step.today;
      assert forall i :: 0 <= i < |before| ==> before[i] == steps[i];
      assert Daily(before, day);
      CounterIsRecorded(before, maxTracked, day, t);
      TracksStep(After(before, maxTracked), before, step, maxTracked, day, t);
      assert before + [step] == steps;
      CounterOfDay(After(steps, maxTracked), steps, t, today);
    }
  }

  lemma CounterOfDay(d: Registry, steps: seq<Step>, t: Tenant, today: int)
    requires Tracks(d.data, steps, t) && (t in d.data ==> d.data[t].day <= today)
    ensures Used(d, t, today) == Recorded(steps, t, today)
  {
  }

  lemma TracksStep(d: Registry, steps: seq<Step>, step: Step, maxTracked: nat, day: int, t: Tenant)
    requires d.Valid() && Tracks(d.data, steps, t) && StaysAt(d, maxTracked, step, t)
    requires t in d.data ==> d.data[t].day <= day
    requires !step.Abandon? ==> step.today == day
    ensures var d' := Apply(d, maxTracked, step);
            Tracks(d'.data, steps + [step], t) && (t in d'.data ==> d'.data[t].day <= day)
  {
    AppliedAt(d, maxTracked, step, t);
    RecordedStep(steps, step, t);
    if !step.Abandon? && step.tenant == t { CounterOfDay(d, steps, t, day); }
  }

  lemma RecordedStep(steps: seq<Step>, step: Step, t: Tenant)
    ensures forall day :: Recorded(steps + [step], t, day) == Recorded(steps, t, day) + Tokens(step, t, day)
  {
    assert (steps + [step])[..|steps|] == steps;
  }

  /** With evictions, and on any days, a counter never holds more than was recorded. */
  lemma {:induction false} CounterIsAtMostRecorded(steps: seq<Step>, maxTracked: nat, t: Tenant, day: int)
    ensures Used(After(steps, maxTracked), t, day) <= Recorded(steps, t, day)
    decreases |steps|
  {
    if steps != [] {
      var before, step := steps[..|steps| - 1], steps[|steps| - 1];
      CounterIsAtMostRecorded(before, maxTracked, t, day);
      AppliedAt(After(before, maxTracked), maxTracked, step, t);
      assert After(steps, maxTracked) == Apply(After(before, maxTracked), maxTracked, step);
    }
  }

  /** With room for all tenants no counter is ever evicted. */
  lemma {:induction false} RoomyStays(steps: seq<Step>, maxTracked: nat, ids: set<Tenant>, t: Tenant)
    requires (forall i :: 0 <= i < |steps| ==> steps[i].tenant in ids) && |ids| <= maxTracked
    ensures Stays(steps, maxTracked, t) && After(steps, maxTracked).data.Keys <= ids
    decreases |steps|
  {
    if steps != [] {
      var before, step := steps[..|steps| - 1], steps[|steps| - 1];
      RoomyStays(before, maxTracked, ids, t);
      assert step.tenant in ids;
      NothingEvicted(After(before, maxTracked), maxTracked, step, ids);
    }
  }

  lemma NothingEvicted(d: Registry, maxTracked: nat, step: Step, ids: set<Tenant>)
    requires d.Valid() && d.data.Keys + {step.tenant} <= ids && |ids| <= maxTracked
    ensures Apply(d, maxTracked, step).data.Keys == d.data.Keys + (if Writes(step) then {step.tenant} else {})
  {
    if Writes(step) {
      DistinctSize(d.Put(step.tenant, Usage(step.today, 0)).order, ids);
    }
  }

  // ---- The check ----

  /** Over any run, as long as the tenant's counter is not evicted, the check refuses exactly when the tenant has
      a quota and the tokens recorded today have reached it. */
  lemma CheckIsExact(steps: seq<Step>, maxTracked: nat, today: int, t: Tenant, quota: int)
    requires Daily(steps, today) && Stays(steps, maxTracked, t)
    ensures WouldExceed(After(steps, maxTracked), maxTracked, t, quota, today).1
            <==> quota > 0 && Recorded(steps, t, today) >= quota
  {
    CounterIsRecorded(steps, maxTracked, today, t);
  }

  /** And in any run at all, it refuses only then. */
  lemma RefusesOnlyWhenReached(steps: seq<Step>, maxTracked: nat, today: int, t: Tenant, quota: int)
    requires WouldExceed(After(steps, maxTracked), maxTracked, t, quota, today).1
    ensures quota > 0 && Recorded(steps, t, today) >= quota
  {
    CounterIsAtMostRecorded(steps, maxTracked, t, today);
  }

  /** A counter that is rolled over to a new day keeps its old place in the registry.  So the tenant that has gone
      unused longest is evicted next even if it has just been charged on the new day, and the charge is lost. */
  lemma RolledOverIsEvictedFirst(d: Registry, maxTracked: nat, x: Tenant, tokens: int, newcomer: Tenant, today: int)
    requires d.Valid() && 0 < |d.order| == maxTracked && d.order[0] == x && d.data[x].day != today
    requires newcomer !in d.data && tokens > 0
    ensures var charged := Record(d, maxTracked, x, tokens, today);
            && charged.order == d.order && Used(charged, x, today) == tokens
            && Used(Current(charged, maxTracked, newcomer, today), x, today) == 0
  {
    var charged := Record(d, maxTracked, x, tokens, today);
    assert charged.order == d.order;
    var put := charged.Put(newcomer, Usage(today, 0));
    assert put.order == d.order + [newcomer];
    assert EvictTo(put, maxTracked) == EvictTo(put.PopFirst(), maxTracked);
    assert x !in put.PopFirst().data;
  }
}
