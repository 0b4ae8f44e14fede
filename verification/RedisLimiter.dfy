/** The Lua token bucket: one hash per identity in a shared store, with a key TTL.
    When it gives the answers of the local limiter, whatever the caller's and the server's clocks do. */
module RedisLimiter {
  import opened Common
  import opened OrderedDicts
  import opened RateLimiter

  datatype Entry = Entry(bucket: Bucket, expireAt: real)
  type Store = map<Id, Entry>

  function Ceil(x: real): int { -((-x).Floor) }

  /** Seconds a key lives after a write: at least twice the full refill time. */
  function Ttl(capacity: real, rate: real): int
    requires rate > 0.0
  {
    MaxInt(3600, Ceil(capacity / rate) * 2)
  }

  lemma TtlCoversRefill(capacity: real, rate: real)
    requires capacity > 0.0 && rate > 0.0
    ensures Ttl(capacity, rate) as real >= 2.0 * (capacity / rate)
    ensures Ttl(capacity, rate) == 3600 || 3600.0 < Ttl(capacity, rate) as real < 2.0 * (capacity / rate) + 2.0
    ensures (Ttl(capacity, rate) as real) * rate >= 2.0 * capacity
  {
    var fill := capacity / rate;
    assert fill > 0.0 && fill * rate == capacity;
    assert Ceil(fill) as real >= fill;
    var ttl := Ttl(capacity, rate) as real;
    GainNonNegative(2.0 * fill, ttl, rate);
    assert Gain(2.0 * fill, ttl, rate) == ttl * rate - 2.0 * (fill * rate);
  }

  /** The bucket the script reads at server time t: an expired key reads as absent. */
  function Live(m: Store, id: Id, t: real): Option<Bucket> {
    if id in m && t < m[id].expireAt then Some(m[id].bucket) else None
  }

  /** The two hash fields after the script's refill. */
  function ScriptTokens(held: Option<Bucket>, capacity: real, rate: real, now: real): real {
    if held.None? then capacity
    else if now - held.value.lastRefill > 0.0 then
      MinReal(capacity, held.value.tokens + Gain(held.value.lastRefill, now, rate))
    else held.value.tokens
  }

  function ScriptStamp(held: Option<Bucket>, now: real): real {
    if held.None? || now - held.value.lastRefill > 0.0 then now else held.value.lastRefill
  }

  /** Spending in the script. */
  function ScriptBody(held: Option<Bucket>, capacity: real, rate: real, now: real): (Bucket, Answer)
    requires rate > 0.0
  {
    var tokens, lastRefill := ScriptTokens(held, capacity, rate, now), ScriptStamp(held, now);
    if tokens >= 1.0 then (Bucket(tokens - 1.0, lastRefill), Answer(true, 0.0))
    else (Bucket(tokens, lastRefill), Answer(false, Wait(tokens, rate)))
  }

  lemma ScriptBodyIsCheck(held: Option<Bucket>, capacity: real, rate: real, now: real)
    requires rate > 0.0
    ensures ScriptBody(held, capacity, rate, now) == CheckBucket(held, capacity, rate, now)
  {
    var filled := if held.None? then Bucket(capacity, now) else Refill(held.value, capacity, rate, now);
    assert filled == Bucket(ScriptTokens(held, capacity, rate, now), ScriptStamp(held, now));
  }

  /** One run of the script; `c.now` is the argument, used only when positive, `t` the server time. */
  function LuaStep(m: Store, c: Call, t: real): (Store, Answer) {
    if Unlimited(c) then (m, Answer(true, 0.0))
    else
      var now := if c.now > 0.0 then c.now else t;
      var (b, answer) := ScriptBody(Live(m, c.id, t), c.capacity, c.rate, now);
      (m[c.id := Entry(b, t + Ttl(c.capacity, c.rate) as real)], answer)
  }

  // ---- Calls without a stamp ----

  /** The instant a check counts for: its own stamp when it has one, otherwise the server's time. */
  function StampOf(c: Call, t: real): real { if c.now > 0.0 then c.now else t }

  /** A call that brings no stamp is the same call stamped with the server's time. */
  lemma UnstampedStep(m: Store, c: Call, t: real)
    requires c.now <= 0.0 < t && !Unlimited(c)
    ensures var (b, answer) := CheckBucket(Live(m, c.id, t), c.capacity, c.rate, t);
            LuaStep(m, c, t) == (m[c.id := Entry(b, t + Ttl(c.capacity, c.rate) as real)], answer)
  {
    ScriptBodyIsCheck(Live(m, c.id, t), c.capacity, c.rate, t);
  }

  // ---- The two limiters side by side ----

  /** The store holds the limiter's buckets. */
  ghost predicate Mirrors(data: map<Id, Bucket>, m: Store) {
    data.Keys == m.Keys && forall id :: id in m ==> m[id].bucket == data[id]
  }

  /** The call meets a key that has expired on the server although, on the caller's clock, the bucket would
      not be full again. */
  predicate Forgets(m: Store, c: Call, t: real) {
    && !Unlimited(c) && c.id in m && t >= m[c.id].expireAt
    && Refill(m[c.id].bucket, c.capacity, c.rate, c.now) != Bucket(c.capacity, c.now)
  }

  lemma SpendIsInjective(a: Bucket, b: Bucket, rate: real)
    requires rate > 0.0
    ensures Spend(a, rate) == Spend(b, rate) <==> a == b
  {
    if a.tokens >= 1.0 && b.tokens >= 1.0 { assert a.tokens == b.tokens <==> a.tokens - 1.0 == b.tokens - 1.0; }
  }

  lemma NothingEvicted(d: OrderedDict<Id, Bucket>, maxTracked: nat, c: Call)
    requires d.Valid() && !Unlimited(c)
    requires |d.data.Keys + {c.id}| <= maxTracked
    ensures var (b, answer) := CheckBucket(Lookup(d, c.id), c.capacity, c.rate, c.now);
            Step(d, maxTracked, c).0.data == d.data[c.id := b] && Step(d, maxTracked, c).1 == answer
  {
    var (b, answer) := CheckBucket(Lookup(d, c.id), c.capacity, c.rate, c.now);
    if c.id !in d.data {
      DistinctSize(d.Put(c.id, b).order, d.data.Keys + {c.id});
    }
  }

  /** What the script does, in terms of the local check. */
  lemma ScriptIsCheck(m: Store, c: Call, t: real)
    requires c.now > 0.0 && !Unlimited(c)
    ensures var (b, answer) := CheckBucket(Live(m, c.id, t), c.capacity, c.rate, c.now);
            LuaStep(m, c, t) == (m[c.id := Entry(b, t + Ttl(c.capacity, c.rate) as real)], answer)
  {
    ScriptBodyIsCheck(Live(m, c.id, t), c.capacity, c.rate, c.now);
  }

  /** Reading no bucket in place of an expired one makes no difference exactly when that one would be full. */
  lemma ExpiryIsUnseenIff(d: OrderedDict<Id, Bucket>, m: Store, c: Call, t: real)
    requires Mirrors(d.data, m) && !Unlimited(c)
    ensures (CheckBucket(Live(m, c.id, t), c.capacity, c.rate, c.now)
             == CheckBucket(Lookup(d, c.id), c.capacity, c.rate, c.now))
            <==> !Forgets(m, c, t)
  {
    if c.id in m {
      SpendIsInjective(Refill(m[c.id].bucket, c.capacity, c.rate, c.now), Bucket(c.capacity, c.now), c.rate);
    }
  }

  /** One call, whatever the two clocks say: the same answer and again the same buckets, if and only if the
      call does not forget. */
  lemma StepMirrorsIff(d: OrderedDict<Id, Bucket>, m: Store, maxTracked: nat, c: Call, t: real)
    requires d.Valid() && Mirrors(d.data, m) && c.now > 0.0
    requires |d.data.Keys + {c.id}| <= maxTracked
    ensures LuaStep(m, c, t).1 == Step(d, maxTracked, c).1 && Mirrors(Step(d, maxTracked, c).0.data, LuaStep(m, c, t).0)
            <==> !Forgets(m, c, t)
    ensures Step(d, maxTracked, c).0.data.Keys <= d.data.Keys + {c.id}
  {
    if !Unlimited(c) {
      NothingEvicted(d, maxTracked, c);
      ScriptIsCheck(m, c, t);
      ExpiryIsUnseenIff(d, m, c, t);
      var local := CheckBucket(Lookup(d, c.id), c.capacity, c.rate, c.now);
      var shared := CheckBucket(Live(m, c.id, t), c.capacity, c.rate, c.now);
      SameWrite(d.data, m, c.id, local.0, Entry(shared.0, t + Ttl(c.capacity, c.rate) as real));
    }
  }

  lemma SameWrite(data: map<Id, Bucket>, m: Store, id: Id, b: Bucket, e: Entry)
    requires Mirrors(data, m)
    ensures Mirrors(data[id := b], m[id := e]) <==> b == e.bucket
  {
    if Mirrors(data[id := b], m[id := e]) { assert id in m[id := e]; }
  }

  /** A run on both limiters from empty: call i comes at server time times[i]. */
  ghost predicate SideBySide(ds: seq<OrderedDict<Id, Bucket>>, ms: seq<Store>, maxTracked: nat, calls: seq<Call>,
                             times: seq<real>)
  {
    && |ds| == |ms| == |calls| + 1 && |times| == |calls|
    && ds[0] == Empty() && ms[0] == map[]
    && (forall i :: 0 <= i < |ds| ==> ds[i].Valid())
    && forall i :: 0 <= i < |calls| ==> BothStep(ds, ms, maxTracked, calls, times, i)
  }

  ghost predicate BothStep(ds: seq<OrderedDict<Id, Bucket>>, ms: seq<Store>, maxTracked: nat, calls: seq<Call>,
                           times: seq<real>, i: nat)
    requires |ds| == |ms| == |calls| + 1 && |times| == |calls| && i < |calls| && ds[i].Valid()
  {
    && ds[i + 1] == Step(ds[i], maxTracked, calls[i]).0
    && ms[i + 1] == LuaStep(ms[i], calls[i], times[i]).0
  }

  /** Positive time stamps, and room for every identity that is checked. */
  ghost predicate Roomy(calls: seq<Call>, ids: set<Id>, maxTracked: nat) {
    |ids| <= maxTracked && forall i :: 0 <= i < |calls| ==> calls[i].id in ids && calls[i].now > 0.0
  }

  /** Call i is answered alike, and leaves the same buckets. */
  ghost predicate Alike(ds: seq<OrderedDict<Id, Bucket>>, ms: seq<Store>, maxTracked: nat, calls: seq<Call>,
                        times: seq<real>, i: nat)
    requires SideBySide(ds, ms, maxTracked, calls, times) && i < |calls|
  {
    SameAnswer(ds, ms, maxTracked, calls, times, i) && Mirrors(ds[i + 1].data, ms[i + 1])
  }

  ghost predicate SameAnswer(ds: seq<OrderedDict<Id, Bucket>>, ms: seq<Store>, maxTracked: nat, calls: seq<Call>,
                             times: seq<real>, i: nat)
    requires SideBySide(ds, ms, maxTracked, calls, times) && i < |calls|
  {
    LuaStep(ms[i], calls[i], times[i]).1 == Step(ds[i], maxTracked, calls[i]).1
  }

  lemma {:induction false} TracksOnlyIds(ds: seq<OrderedDict<Id, Bucket>>, ms: seq<Store>, maxTracked: nat,
                                         calls: seq<Call>, times: seq<real>, ids: set<Id>, i: nat)
    requires SideBySide(ds, ms, maxTracked, calls, times) && Roomy(calls, ids, maxTracked) && i <= |calls|
    ensures ds[i].data.Keys <= ids
  {
    if i > 0 {
      TracksOnlyIds(ds, ms, maxTracked, calls, times, ids, i - 1);
      assert BothStep(ds, ms, maxTracked, calls, times, i - 1);
      OnlyItsOwnKey(ds[i - 1], maxTracked, calls[i - 1]);
    }
  }

  lemma OnlyItsOwnKey(d: OrderedDict<Id, Bucket>, maxTracked: nat, c: Call)
    requires d.Valid()
    ensures Step(d, maxTracked, c).0.data.Keys <= d.data.Keys + {c.id}
  {
  }

  /** On mirroring states a call of the run is answered alike, leaving the same buckets, iff it does not forget. */
  lemma AlikeIff(ds: seq<OrderedDict<Id, Bucket>>, ms: seq<Store>, maxTracked: nat, calls: seq<Call>,
                 times: seq<real>, ids: set<Id>, n: nat)
    requires SideBySide(ds, ms, maxTracked, calls, times) && Roomy(calls, ids, maxTracked) && n < |calls|
    requires Mirrors(ds[n].data, ms[n])
    ensures Alike(ds, ms, maxTracked, calls, times, n) <==> !Forgets(ms[n], calls[n], times[n])
  {
    TracksOnlyIds(ds, ms, maxTracked, calls, times, ids, n);
    SubsetSize(ds[n].data.Keys + {calls[n].id}, ids);
    assert BothStep(ds, ms, maxTracked, calls, times, n);
    StepMirrorsIff(ds[n], ms[n], maxTracked, calls[n], times[n]);
  }

  lemma {:induction false} MirroredAfter(ds: seq<OrderedDict<Id, Bucket>>, ms: seq<Store>, maxTracked: nat,
                                         calls: seq<Call>, times: seq<real>, ids: set<Id>, n: nat)
    requires SideBySide(ds, ms, maxTracked, calls, times) && Roomy(calls, ids, maxTracked) && n <= |calls|
    requires forall i :: 0 <= i < n ==> !Forgets(ms[i], calls[i], times[i])
    ensures Mirrors(ds[n].data, ms[n])
  {
    if n > 0 {
      MirroredAfter(ds, ms, maxTracked, calls, times, ids, n - 1);
      AlikeIff(ds, ms, maxTracked, calls, times, ids, n - 1);
    }
  }

  /** Whatever the two clocks do, the limiters give every call the same answer from the same buckets if and
      only if no call meets an expired key whose bucket would not be full again. */
  lemma SharedEqualsLocalIff(ds: seq<OrderedDict<Id, Bucket>>, ms: seq<Store>, maxTracked: nat, calls: seq<Call>,
                             times: seq<real>, ids: set<Id>)
    requires SideBySide(ds, ms, maxTracked, calls, times) && Roomy(calls, ids, maxTracked)
    ensures (forall i :: 0 <= i < |calls| ==> Alike(ds, ms, maxTracked, calls, times, i))
            <==> (forall i :: 0 <= i < |calls| ==> !Forgets(ms[i], calls[i], times[i]))
  {
    if forall i :: 0 <= i < |calls| ==> !Forgets(ms[i], calls[i], times[i]) {
      forall i | 0 <= i < |calls| ensures Alike(ds, ms, maxTracked, calls, times, i) {
        MirroredAfter(ds, ms, maxTracked, calls, times, ids, i);
        AlikeIff(ds, ms, maxTracked, calls, times, ids, i);
      }
    }
    if forall i :: 0 <= i < |calls| ==> Alike(ds, ms, maxTracked, calls, times, i) {
      forall i | 0 <= i < |calls| ensures !Forgets(ms[i], calls[i], times[i]) {
        NeverForgot(ds, ms, maxTracked, calls, times, ids, i);
      }
    }
  }

  lemma {:induction false} NeverForgot(ds: seq<OrderedDict<Id, Bucket>>, ms: seq<Store>, maxTracked: nat,
                                       calls: seq<Call>, times: seq<real>, ids: set<Id>, n: nat)
    requires SideBySide(ds, ms, maxTracked, calls, times) && Roomy(calls, ids, maxTracked) && n < |calls|
    requires forall i :: 0 <= i <= n ==> Alike(ds, ms, maxTracked, calls, times, i)
    ensures forall i :: 0 <= i <= n ==> !Forgets(ms[i], calls[i], times[i])
  {
    if n > 0 { NeverForgot(ds, ms, maxTracked, calls, times, ids, n - 1); }
    MirroredAfter(ds, ms, maxTracked, calls, times, ids, n);
    AlikeIff(ds, ms, maxTracked, calls, times, ids, n);
  }

  // ---- Such a call can be told from the answers ----

  /** The answers to further checks of the same identity, with the same parameters, at these stamps and at one
      server time. */
  function LuaAnswers(m: Store, c: Call, stamps: seq<real>, t: real): seq<Answer>
    decreases |stamps|
  {
    if stamps == [] then []
    else
      var (m', answer) := LuaStep(m, c.(now := stamps[0]), t);
      [answer] + LuaAnswers(m', c, stamps[1..], t)
  }

  function LocalAnswers(d: OrderedDict<Id, Bucket>, maxTracked: nat, c: Call, stamps: seq<real>): seq<Answer>
    requires d.Valid()
    decreases |stamps|
  {
    if stamps == [] then []
    else
      var (d', answer) := Step(d, maxTracked, c.(now := stamps[0]));
      [answer] + LocalAnswers(d', maxTracked, c, stamps[1..])
  }

  ghost predicate Positive(stamps: seq<real>) { forall i :: 0 <= i < |stamps| ==> stamps[i] > 0.0 }

  /** While the key is there, both are checks of a single bucket. */
  lemma {:induction false} LuaIsBucketRun(m: Store, c: Call, stamps: seq<real>, t: real)
    requires !Unlimited(c) && c.id in m && t < m[c.id].expireAt && Positive(stamps)
    ensures LuaAnswers(m, c, stamps, t) == BucketRun(m[c.id].bucket, c.capacity, c.rate, stamps).1
    decreases |stamps|
  {
    if stamps != [] {
      var here := c.(now := stamps[0]);
      ScriptIsCheck(m, here, t);
      TtlCoversRefill(c.capacity, c.rate);
      LuaIsBucketRun(LuaStep(m, here, t).0, c, stamps[1..], t);
    }
  }

  lemma {:induction false} LocalIsBucketRun(d: OrderedDict<Id, Bucket>, maxTracked: nat, c: Call, stamps: seq<real>)
    requires d.Valid() && !Unlimited(c) && c.id in d.data
    ensures LocalAnswers(d, maxTracked, c, stamps) == BucketRun(d.data[c.id], c.capacity, c.rate, stamps).1
    decreases |stamps|
  {
    if stamps != [] {
      LocalIsBucketRun(Step(d, maxTracked, c.(now := stamps[0])).0, maxTracked, c, stamps[1..]);
    }
  }

  /** Two buckets told apart by a burst of checks at one stamp. */
  ghost predicate ToldBy(a: Bucket, b: Bucket, capacity: real, rate: real, stamp: real, stamps: seq<real>)
    requires rate > 0.0
  {
    && stamps != []
    && (forall i :: 0 <= i < |stamps| ==> stamps[i] == stamp)
    && BucketRun(a, capacity, rate, stamps).1 != BucketRun(b, capacity, rate, stamps).1
  }

  lemma WaitIsInjective(x: real, y: real, rate: real)
    requires rate > 0.0 && x != y
    ensures Wait(x, rate) != Wait(y, rate)
  {
    assert Wait(x, rate) * rate == 1.0 - x && Wait(y, rate) * rate == 1.0 - y;
  }

  /** When no refill is due, a burst that drains the poorer bucket tells the two apart: the richer one admits
      once more, or promises another wait. */
  lemma {:induction false} DrainTells(poor: Bucket, rich: Bucket, capacity: real, rate: real, stamp: real)
    returns (stamps: seq<real>)
    requires rate > 0.0 && poor.tokens < rich.tokens && stamp <= poor.lastRefill && stamp <= rich.lastRefill
    ensures ToldBy(poor, rich, capacity, rate, stamp, stamps)
    decreases MaxInt(0, poor.tokens.Floor + 1)
  {
    if poor.tokens < 1.0 {
      stamps := [stamp];
      WaitIsInjective(poor.tokens, rich.tokens, rate);
      assert BucketRun(poor, capacity, rate, stamps).1[0] == Answer(false, Wait(poor.tokens, rate));
      assert BucketRun(rich, capacity, rate, stamps).1[0] != Answer(false, Wait(poor.tokens, rate));
    } else {
      var rest := DrainTells(poor.(tokens := poor.tokens - 1.0), rich.(tokens := rich.tokens - 1.0),
                             capacity, rate, stamp);
      stamps := [stamp] + rest;
      assert stamps[1..] == rest;
      OneAdmitted(poor, capacity, rate, stamp, rest);
      OneAdmitted(rich, capacity, rate, stamp, rest);
    }
  }

  lemma OneAdmitted(b: Bucket, capacity: real, rate: real, stamp: real, rest: seq<real>)
    requires rate > 0.0 && b.tokens >= 1.0 && stamp <= b.lastRefill
    ensures BucketRun(b, capacity, rate, [stamp] + rest).1[1..]
            == BucketRun(b.(tokens := b.tokens - 1.0), capacity, rate, rest).1
  {
    assert ([stamp] + rest)[1..] == rest;
  }

  /** A first check can as well be made of the bucket refilled for it. */
  lemma RefillFirst(b: Bucket, capacity: real, rate: real, stamp: real, stamps: seq<real>)
    requires rate > 0.0 && stamps != [] && stamps[0] == stamp
    ensures BucketRun(b, capacity, rate, stamps).1
            == BucketRun(Refill(b, capacity, rate, stamp), capacity, rate, stamps).1
  {
    var full := Refill(b, capacity, rate, stamp);
    assert Refill(full, capacity, rate, stamp) == full;
  }

  /** A bucket last refilled at `now`, with room, against one whose clock is ahead: at that later stamp the first
      is refilled and the second is not. */
  lemma ClockTells(behind: Bucket, ahead: Bucket, capacity: real, rate: real) returns (stamps: seq<real>)
    requires rate > 0.0 && behind.tokens == ahead.tokens < capacity && behind.lastRefill < ahead.lastRefill
    ensures ToldBy(ahead, behind, capacity, rate, ahead.lastRefill, stamps)
  {
    var stamp := ahead.lastRefill;
    var refilled := Refill(behind, capacity, rate, stamp);
    MoreTime(behind.lastRefill, stamp, rate);
    stamps := DrainTells(ahead, refilled, capacity, rate, stamp);
    RefillFirst(behind, capacity, rate, stamp, stamps);
  }

  lemma MoreTime(from: real, to: real, rate: real)
    requires from < to && rate > 0.0
    ensures Gain(from, to, rate) > 0.0
  {
    var x := to - from;
    assert x * rate > 0.0;
  }

  /** What the forgetting call itself leaves behind: either it is answered differently, or the two buckets can
      be told apart by further checks of the identity.  Below a capacity of one token, where nobody is ever
      admitted, a bucket that is full on both sides cannot. */
  lemma ForgettingTells(b: Bucket, capacity: real, rate: real, now: real) returns (stamps: seq<real>)
    requires rate > 0.0 && now > 0.0 && Refill(b, capacity, rate, now) != Bucket(capacity, now)
    requires capacity >= 1.0 || Refill(b, capacity, rate, now).tokens != capacity
    ensures Positive(stamps)
    ensures var (local, answer) := CheckBucket(Some(b), capacity, rate, now);
            var (shared, other) := CheckBucket(None, capacity, rate, now);
            answer != other || BucketRun(local, capacity, rate, stamps).1 != BucketRun(shared, capacity, rate, stamps).1
  {
    var (local, answer) := CheckBucket(Some(b), capacity, rate, now);
    var (shared, other) := CheckBucket(None, capacity, rate, now);
    SpendIsInjective(Refill(b, capacity, rate, now), Bucket(capacity, now), rate);
    stamps := [];
    if answer == other {
      if local.tokens < shared.tokens {
        stamps := DrainTells(local, shared, capacity, rate, now);
      } else if local.tokens > shared.tokens {
        stamps := DrainTells(shared, local, capacity, rate, now);
      } else {
        stamps := ClockTells(shared, local, capacity, rate);
      }
    }
  }

  /** So the condition is exact for the answers too: while no call forgets all are answered alike, and the first
      one that does is answered differently, or further checks of its identity at that server time are. */
  lemma FirstForgottenCanBeTold(ds: seq<OrderedDict<Id, Bucket>>, ms: seq<Store>, maxTracked: nat, calls: seq<Call>,
                                times: seq<real>, ids: set<Id>, i: nat)
    returns (stamps: seq<real>)
    requires SideBySide(ds, ms, maxTracked, calls, times) && Roomy(calls, ids, maxTracked) && i < |calls|
    requires forall j :: 0 <= j < i ==> !Forgets(ms[j], calls[j], times[j])
    requires Forgets(ms[i], calls[i], times[i])
    requires var c := calls[i];
             c.capacity >= 1.0 || Refill(ms[i][c.id].bucket, c.capacity, c.rate, c.now).tokens != c.capacity
    ensures Positive(stamps)
    ensures !SameAnswer(ds, ms, maxTracked, calls, times, i)
            || LuaAnswers(ms[i + 1], calls[i], stamps, times[i])
               != LocalAnswers(ds[i + 1], maxTracked, calls[i], stamps)
  {
    var c := calls[i];
    MirroredAfter(ds, ms, maxTracked, calls, times, ids, i);
    TracksOnlyIds(ds, ms, maxTracked, calls, times, ids, i);
    SubsetSize(ds[i].data.Keys + {c.id}, ids);
    assert BothStep(ds, ms, maxTracked, calls, times, i);
    stamps := ForgettingTells(ms[i][c.id].bucket, c.capacity, c.rate, c.now);
    ForgottenStep(ds[i], ms[i], maxTracked, c, times[i]);
    LuaIsBucketRun(ms[i + 1], c, stamps, times[i]);
    LocalIsBucketRun(ds[i + 1], maxTracked, c, stamps);
  }

  /** A forgetting call, on both sides. */
  lemma ForgottenStep(d: OrderedDict<Id, Bucket>, m: Store, maxTracked: nat, c: Call, t: real)
    requires d.Valid() && Mirrors(d.data, m) && c.now > 0.0 && Forgets(m, c, t)
    requires |d.data.Keys + {c.id}| <= maxTracked
    ensures var (d', answer) := Step(d, maxTracked, c);
            var (m', other) := LuaStep(m, c, t);
            && c.id in d'.data && c.id in m' && t < m'[c.id].expireAt
            && (d'.data[c.id], answer) == CheckBucket(Some(m[c.id].bucket), c.capacity, c.rate, c.now)
            && (m'[c.id].bucket, other) == CheckBucket(None, c.capacity, c.rate, c.now)
  {
    NothingEvicted(d, maxTracked, c);
    ScriptIsCheck(m, c, t);
    TtlCoversRefill(c.capacity, c.rate);
  }

  /** What is left: below a capacity of one token a bucket that is full stays full, at every stamp, and every
      check of it gets the same answer. */
  lemma FullBelowOne(b: Bucket, capacity: real, rate: real, now: real)
    requires rate > 0.0 && capacity < 1.0 && b.tokens == capacity
    ensures var (b', answer) := CheckBucket(Some(b), capacity, rate, now);
            b'.tokens == capacity && answer == Answer(false, Wait(capacity, rate))
  {
    GainNonNegative(if now > b.lastRefill then b.lastRefill else now, now, rate);
  }

  // ---- When that is certain: a condition on the two clocks ----

  /** Fixed parameters per identity. */
  ghost predicate Fixed(calls: seq<Call>, capacity: Id -> real, rate: Id -> real) {
    forall i :: 0 <= i < |calls| ==> calls[i].capacity == capacity(calls[i].id) && calls[i].rate == rate(calls[i].id)
  }

  /** The server's clock does not go back, and where a TTL passes on it between two calls of one identity, at
      least half of that passes on the caller's clock. */
  ghost predicate ClocksAgreeByHalf(calls: seq<Call>, times: seq<real>)
    requires |calls| == |times|
  {
    && (forall i, j :: 0 <= i < j < |times| ==> times[i] <= times[j])
    && forall i, j :: 0 <= i < j < |calls| && calls[i].id == calls[j].id && !Unlimited(calls[j]) ==>
         times[j] - times[i] >= Ttl(calls[j].capacity, calls[j].rate) as real ==>
           2.0 * (calls[j].now - calls[i].now) >= times[j] - times[i]
  }

  /** A bucket refilled for half a TTL is full, so its expiry cannot be seen. */
  lemma ExpiredIsFull(b: Bucket, capacity: real, rate: real, now: real)
    requires capacity > 0.0 && rate > 0.0 && WithinCapacity(b, capacity)
    requires 2.0 * (now - b.lastRefill) >= Ttl(capacity, rate) as real
    ensures Refill(b, capacity, rate, now) == Bucket(capacity, now)
  {
    TtlCoversRefill(capacity, rate);
    var fill := capacity / rate;
    assert fill > 0.0 && fill * rate == capacity;
    Distribute(b.lastRefill, b.lastRefill + fill, now, rate);
    GainNonNegative(b.lastRefill + fill, now, rate);
    assert Gain(b.lastRefill, b.lastRefill + fill, rate) == fill * rate;
  }

  /** Some earlier call of the identity set the bucket's clock, and its key lives at least a TTL from then. */
  ghost predicate SetBy(e: Entry, calls: seq<Call>, times: seq<real>, n: nat, id: Id, capacity: real, rate: real)
    requires n <= |calls| == |times|
  {
    && capacity > 0.0 && rate > 0.0 && WithinCapacity(e.bucket, capacity)
    && exists h :: 0 <= h < n && calls[h].id == id && e.bucket.lastRefill == calls[h].now
                   && e.expireAt >= times[h] + Ttl(capacity, rate) as real
  }

  lemma ScriptSetBy(m: Store, calls: seq<Call>, times: seq<real>, n: nat, capacity: Id -> real, rate: Id -> real)
    requires n < |calls| == |times| && calls[n].now > 0.0 && !Unlimited(calls[n])
    requires calls[n].capacity == capacity(calls[n].id) && calls[n].rate == rate(calls[n].id)
    requires forall i :: 0 <= i < n ==> times[i] <= times[n]
    requires calls[n].id in m ==> SetBy(m[calls[n].id], calls, times, n, calls[n].id, calls[n].capacity, calls[n].rate)
    ensures calls[n].id in LuaStep(m, calls[n], times[n]).0
    ensures SetBy(LuaStep(m, calls[n], times[n]).0[calls[n].id], calls, times, n + 1,
                  calls[n].id, calls[n].capacity, calls[n].rate)
  {
    var c, t := calls[n], times[n];
    ScriptIsCheck(m, c, t);
    var held := Live(m, c.id, t);
    if held.Some? {
      RefillGain(held.value, c.capacity, c.rate, c.now);
      var h :| 0 <= h < n && calls[h].id == c.id && held.value.lastRefill == calls[h].now
               && m[c.id].expireAt >= times[h] + Ttl(c.capacity, c.rate) as real;
      assert times[h] <= t;
    }
  }

  lemma {:induction false} AllSetBy(ds: seq<OrderedDict<Id, Bucket>>, ms: seq<Store>, maxTracked: nat, calls: seq<Call>,
                                    times: seq<real>, ids: set<Id>, capacity: Id -> real, rate: Id -> real,
                                    n: nat, id: Id)
    requires SideBySide(ds, ms, maxTracked, calls, times) && Roomy(calls, ids, maxTracked) && n <= |calls|
    requires Fixed(calls, capacity, rate) && ClocksAgreeByHalf(calls, times)
    ensures id in ms[n] ==> SetBy(ms[n][id], calls, times, n, id, capacity(id), rate(id))
  {
    if n > 0 {
      var k := n - 1;
      AllSetBy(ds, ms, maxTracked, calls, times, ids, capacity, rate, k, id);
      assert BothStep(ds, ms, maxTracked, calls, times, k);
      if calls[k].id == id && !Unlimited(calls[k]) { ScriptSetBy(ms[k], calls, times, k, capacity, rate); }
    }
  }

  /** With fixed parameters and such clocks, every call is answered alike: time stamps may go back, and the
      clocks may differ by any offset and drift by up to a factor of two. */
  lemma SharedEqualsLocal(ds: seq<OrderedDict<Id, Bucket>>, ms: seq<Store>, maxTracked: nat, calls: seq<Call>,
                          times: seq<real>, ids: set<Id>, capacity: Id -> real, rate: Id -> real, i: nat)
    requires SideBySide(ds, ms, maxTracked, calls, times) && Roomy(calls, ids, maxTracked) && i < |calls|
    requires Fixed(calls, capacity, rate) && ClocksAgreeByHalf(calls, times)
    ensures SameAnswer(ds, ms, maxTracked, calls, times, i)
  {
    forall j | 0 <= j < |calls| ensures !Forgets(ms[j], calls[j], times[j]) {
      AllSetBy(ds, ms, maxTracked, calls, times, ids, capacity, rate, j, calls[j].id);
      if calls[j].id in ms[j] && !Unlimited(calls[j]) { NothingForgotten(ms[j], calls, times, j); }
    }
    SharedEqualsLocalIff(ds, ms, maxTracked, calls, times, ids);
    assert Alike(ds, ms, maxTracked, calls, times, i);
  }

  lemma NothingForgotten(m: Store, calls: seq<Call>, times: seq<real>, n: nat)
    requires n < |calls| == |times| && ClocksAgreeByHalf(calls, times)
    requires calls[n].id in m && !Unlimited(calls[n])
    requires SetBy(m[calls[n].id], calls, times, n, calls[n].id, calls[n].capacity, calls[n].rate)
    ensures !Forgets(m, calls[n], times[n])
  {
    var c, e := calls[n], m[calls[n].id];
    var h :| 0 <= h < n && calls[h].id == c.id && e.bucket.lastRefill == calls[h].now
             && e.expireAt >= times[h] + Ttl(c.capacity, c.rate) as real;
    if times[n] >= e.expireAt { ExpiredIsFull(e.bucket, c.capacity, c.rate, c.now); }
  }

  // ---- The same for calls without a stamp ----

  /** The calls with the server's times as their stamps. */
  function Stamped(calls: seq<Call>, times: seq<real>): (stamped: seq<Call>)
    requires |calls| == |times|
    ensures |stamped| == |calls|
    ensures forall i :: 0 <= i < |calls| ==> stamped[i] == calls[i].(now := StampOf(calls[i], times[i]))
  {
    seq(|calls|, i requires 0 <= i < |calls| && |calls| == |times| => calls[i].(now := StampOf(calls[i], times[i])))
  }

  /** The script on calls as they come, beside the local limiter on the same calls with the server's times. */
  ghost predicate UnstampedSideBySide(ds: seq<OrderedDict<Id, Bucket>>, ms: seq<Store>, maxTracked: nat,
                                      calls: seq<Call>, times: seq<real>)
  {
    && |ds| == |ms| == |calls| + 1 && |times| == |calls|
    && ds[0] == Empty() && ms[0] == map[]
    && (forall i :: 0 <= i < |ds| ==> ds[i].Valid())
    && (forall i :: 0 <= i < |calls| ==> ds[i + 1] == Step(ds[i], maxTracked, calls[i].(now := times[i])).0)
    && (forall i :: 0 <= i < |calls| ==> ms[i + 1] == LuaStep(ms[i], calls[i], times[i]).0)
  }

  /** No stamps, positive server times that do not go back, room and fixed parameters for every identity. */
  ghost predicate Plain(calls: seq<Call>, times: seq<real>, ids: set<Id>, maxTracked: nat, capacity: Id -> real,
                        rate: Id -> real)
    requires |calls| == |times|
  {
    && |ids| <= maxTracked && Fixed(calls, capacity, rate)
    && (forall i :: 0 <= i < |calls| ==> calls[i].id in ids && calls[i].now <= 0.0 < times[i])
    && (forall i, j :: 0 <= i < j < |calls| ==> times[i] <= times[j])
  }

  lemma SameUnstamped(m: Store, c: Call, t: real)
    requires c.now <= 0.0 < t
    ensures LuaStep(m, c, t) == LuaStep(m, c.(now := t), t)
  {
    if !Unlimited(c) {
      UnstampedStep(m, c, t);
      ScriptIsCheck(m, c.(now := t), t);
    }
  }

  /** Calls without a stamp, at whatever server times: every one is answered like the local limiter's check at
      that time.  Key expiry cannot be seen, with no condition on it. */
  lemma UnstampedEqualsLocal(ds: seq<OrderedDict<Id, Bucket>>, ms: seq<Store>, maxTracked: nat, calls: seq<Call>,
                             times: seq<real>, ids: set<Id>, capacity: Id -> real, rate: Id -> real, i: nat)
    requires UnstampedSideBySide(ds, ms, maxTracked, calls, times) && i < |calls|
    requires Plain(calls, times, ids, maxTracked, capacity, rate)
    ensures LuaStep(ms[i], calls[i], times[i]).1 == Step(ds[i], maxTracked, calls[i].(now := times[i])).1
  {
    var stamped := Stamped(calls, times);
    forall k | 0 <= k < |calls| ensures BothStep(ds, ms, maxTracked, stamped, times, k) {
      SameUnstamped(ms[k], calls[k], times[k]);
    }
    assert SideBySide(ds, ms, maxTracked, stamped, times);
    SharedEqualsLocal(ds, ms, maxTracked, stamped, times, ids, capacity, rate, i);
    assert SameAnswer(ds, ms, maxTracked, stamped, times, i);
    SameUnstamped(ms[i], calls[i], times[i]);
  }
}
