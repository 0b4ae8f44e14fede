/** The process-local token bucket limiter of `core/rate_limit.py`. */
module RateLimiter {
  import opened Common
  import opened OrderedDicts
  import opened RecentUse

  type Id = string
  datatype Bucket = Bucket(tokens: real, lastRefill: real)
  datatype Answer = Answer(allowed: bool, retryAfter: real)

  // ---- One bucket ----

  /** What the refill clock can have added between two instants. */
  function Gain(from: real, to: real, rate: real): real { (to - from) * rate }

  /** Refill, never past the capacity, and only when the clock has moved on. */
  function Refill(b: Bucket, capacity: real, rate: real, now: real): Bucket {
    if now - b.lastRefill > 0.0 then Bucket(MinReal(capacity, b.tokens + Gain(b.lastRefill, now, rate)), now) else b
  }

  /** The time until the bucket holds one token. */
  function Wait(tokens: real, rate: real): real
    requires rate > 0.0
  {
    (1.0 - tokens) / rate
  }

  function Spend(b: Bucket, rate: real): (Bucket, Answer)
    requires rate > 0.0
  {
    if b.tokens >= 1.0 then (b.(tokens := b.tokens - 1.0), Answer(true, 0.0))
    else (b, Answer(false, Wait(b.tokens, rate)))
  }

  /** One check of a bucket that may not exist yet. */
  function CheckBucket(b: Option<Bucket>, capacity: real, rate: real, now: real): (Bucket, Answer)
    requires rate > 0.0
  {
    Spend(if b.None? then Bucket(capacity, now) else Refill(b.value, capacity, rate, now), rate)
  }

  /** The (capacity, rate) pair behind "N requests per minute". */
  function BucketParameters(requestsPerMinute: real, burstSeconds: real): (r: (real, real))
    ensures r.1 > 0.0 <==> requestsPerMinute > 0.0
    // a minute gains the limit, and the burst is what burstSeconds gain, but at least one token
    ensures Gain(0.0, 60.0, r.1) == requestsPerMinute
    ensures 1.0 <= r.0 && Gain(0.0, burstSeconds, r.1) <= r.0
    ensures r.0 == 1.0 || r.0 == Gain(0.0, burstSeconds, r.1)
  {
    var rate := requestsPerMinute / 60.0;
    (MaxReal(1.0, rate * burstSeconds), rate)
  }

  // ---- The limiter ----

  datatype Call = Call(id: Id, capacity: real, rate: real, now: real)

  /** A non-positive capacity or rate switches limiting off for that call. */
  predicate Unlimited(c: Call) { c.rate <= 0.0 || c.capacity <= 0.0 }

  function Lookup(d: OrderedDict<Id, Bucket>, id: Id): Option<Bucket> {
    if id in d.data then Some(d.data[id]) else None
  }

  /** One check on the whole limiter: the new registry and the answer. */
  function Step(d: OrderedDict<Id, Bucket>, maxTracked: nat, c: Call): (r: (OrderedDict<Id, Bucket>, Answer))
    requires d.Valid()
    ensures r.0.Valid()
  {
    if Unlimited(c) then (d, Answer(true, 0.0))
    else
      var (b, answer) := CheckBucket(Lookup(d, c.id), c.capacity, c.rate, c.now);
      if c.id in d.data then (d.MoveToEnd(c.id).Put(c.id, b), answer)
      else (EvictTo(d.Put(c.id, b), maxTracked), answer)
  }

  class LocalRateLimiter {
    const maxTracked: nat
    var buckets: OrderedDict<Id, Bucket>

    constructor (maxTracked: nat)
      ensures this.maxTracked == maxTracked && buckets == Empty()
    {
      this.maxTracked := maxTracked;
      buckets := Empty();
    }

    method Check(identity: Id, capacity: real, rate: real, now: real) returns (answer: Answer)
      requires buckets.Valid()
      modifies this
      ensures (buckets, answer) == Step(old(buckets), maxTracked, Call(identity, capacity, rate, now))
      ensures buckets.Valid()
    {
      if rate <= 0.0 || capacity <= 0.0 {
        return Answer(true, 0.0);
      }
      if identity in buckets.data {
        var bucket := buckets.data[identity];
        buckets := buckets.MoveToEnd(identity);
        bucket, answer := TakeToken(Some(bucket), capacity, rate, now);
        buckets := buckets.Put(identity, bucket);
      } else {
        var bucket;
        bucket, answer := TakeToken(None, capacity, rate, now);
        buckets := buckets.Put(identity, bucket);
        EvictIfNeeded();
      }
    }

    /** Refills an existing bucket or makes a full one, then tries to spend one token. */
    static method TakeToken(held: Option<Bucket>, capacity: real, rate: real, now: real)
      returns (bucket: Bucket, answer: Answer)
      requires rate > 0.0
      ensures (bucket, answer) == CheckBucket(held, capacity, rate, now)
    {
      if held.None? {
        bucket := Bucket(capacity, now);
      } else {
        bucket := held.value;
        var elapsed := now - bucket.lastRefill;
        if elapsed > 0.0 {
          assert elapsed * rate == Gain(bucket.lastRefill, now, rate);
          bucket := Bucket(MinReal(capacity, bucket.tokens + elapsed * rate), now);
        }
      }
      if bucket.tokens >= 1.0 {
        bucket := bucket.(tokens := bucket.tokens - 1.0);
        answer := Answer(true, 0.0);
      } else {
        answer := Answer(false, Wait(bucket.tokens, rate));
      }
    }

    /** Drops least-recently-used buckets. */
    method EvictIfNeeded()
      requires buckets.Valid()
      modifies this
      ensures buckets.Valid() && buckets == EvictTo(old(buckets), maxTracked)
    {
      while |buckets.order| > maxTracked
        invariant buckets.Valid()
        invariant EvictTo(buckets, maxTracked) == EvictTo(old(buckets), maxTracked)
        decreases |buckets.order|
      {
        buckets := buckets.PopFirst();
      }
    }

    method Reset()
      modifies this
      ensures buckets == Empty()
    {
      buckets := Empty();
    }
  }

  // ---- Runs ----

  function Run(d: OrderedDict<Id, Bucket>, maxTracked: nat, calls: seq<Call>): (r: OrderedDict<Id, Bucket>)
    requires d.Valid()
    ensures r.Valid()
    decreases |calls|
  {
    if calls == [] then d else Run(Step(d, maxTracked, calls[0]).0, maxTracked, calls[1..])
  }

  /** The answers given to one identity, in order. */
  function AnswersTo(d: OrderedDict<Id, Bucket>, maxTracked: nat, calls: seq<Call>, id: Id): seq<Answer>
    requires d.Valid()
    decreases |calls|
  {
    if calls == [] then []
    else
      var (d', answer) := Step(d, maxTracked, calls[0]);
      (if calls[0].id == id then [answer] else []) + AnswersTo(d', maxTracked, calls[1..], id)
  }

  /** The identity has a bucket now and keeps one through the run. */
  ghost predicate Tracked(d: OrderedDict<Id, Bucket>, maxTracked: nat, calls: seq<Call>, id: Id)
    requires d.Valid()
    decreases |calls|
  {
    && id in d.data
    && (calls != [] ==> Tracked(Step(d, maxTracked, calls[0]).0, maxTracked, calls[1..], id))
  }

  /** The times at which one identity is checked. */
  function TimesOf(calls: seq<Call>, id: Id): seq<real> {
    if calls == [] then []
    else (if calls[0].id == id then [calls[0].now] else []) + TimesOf(calls[1..], id)
  }

  ghost predicate FixedFor(calls: seq<Call>, id: Id, capacity: real, rate: real) {
    forall i :: 0 <= i < |calls| && calls[i].id == id ==> calls[i].capacity == capacity && calls[i].rate == rate
  }

  /** A run of checks of one bucket alone. */
  function BucketRun(b: Bucket, capacity: real, rate: real, times: seq<real>): (Bucket, seq<Answer>)
    requires rate > 0.0
    decreases |times|
  {
    if times == [] then (b, [])
    else
      var (b1, answer) := CheckBucket(Some(b), capacity, rate, times[0]);
      var (b2, answers) := BucketRun(b1, capacity, rate, times[1..]);
      (b2, [answer] + answers)
  }

  /** While an identity stays tracked, the whole limiter looks to it like its own bucket: checks on
      other identities change neither its bucket nor its answers. */
  lemma {:induction false} LimiterProjectsToBucket(d: OrderedDict<Id, Bucket>, maxTracked: nat,
                                                   calls: seq<Call>, id: Id, capacity: real, rate: real)
    requires d.Valid() && capacity > 0.0 && rate > 0.0
    requires FixedFor(calls, id, capacity, rate)
    requires Tracked(d, maxTracked, calls, id)
    ensures id in Run(d, maxTracked, calls).data
    ensures BucketRun(d.data[id], capacity, rate, TimesOf(calls, id))
            == (Run(d, maxTracked, calls).data[id], AnswersTo(d, maxTracked, calls, id))
    decreases |calls|
  {
    if calls != [] {
      var c := calls[0];
      var d' := Step(d, maxTracked, c).0;
      LimiterProjectsToBucket(d', maxTracked, calls[1..], id, capacity, rate);
      if c.id == id {
        var times := TimesOf(calls, id);
        assert times == [c.now] + TimesOf(calls[1..], id);
        assert times[1..] == TimesOf(calls[1..], id);
      } else {
        assert d'.data[id] == d.data[id];
        var rest := AnswersTo(d', maxTracked, calls[1..], id);
        assert [] + rest == rest && [] + TimesOf(calls[1..], id) == TimesOf(calls[1..], id);
      }
    }
  }

  // ---- The admission bound ----

  function Admitted(answers: seq<Answer>): nat {
    if answers == [] then 0 else (if answers[0].allowed then 1 else 0) + Admitted(answers[1..])
  }

  predicate WithinCapacity(b: Bucket, capacity: real) { 0.0 <= b.tokens <= capacity }

  /** Tokens are conserved: what is left plus what was admitted is at most what was there plus what
      the refill clock, which never runs backwards, can have added. */
  lemma {:induction false} TokensAreConserved(b: Bucket, capacity: real, rate: real, times: seq<real>)
    requires rate > 0.0 && WithinCapacity(b, capacity)
    ensures var (b', answers) := BucketRun(b, capacity, rate, times);
            && WithinCapacity(b', capacity)
            && b'.lastRefill >= b.lastRefill
            && b'.tokens + Admitted(answers) as real
               <= b.tokens + Gain(b.lastRefill, b'.lastRefill, rate)
    decreases |times|
  {
    if times != [] {
      var (b1, answer) := CheckBucket(Some(b), capacity, rate, times[0]);
      RefillGain(b, capacity, rate, times[0]);
      TokensAreConserved(b1, capacity, rate, times[1..]);
      var (b2, answers) := BucketRun(b1, capacity, rate, times[1..]);
      assert ([answer] + answers)[1..] == answers;
      Distribute(b.lastRefill, b1.lastRefill, b2.lastRefill, rate);
    }
  }

  lemma Distribute(a: real, b: real, c: real, rate: real)
    ensures Gain(a, b, rate) + Gain(b, c, rate) == Gain(a, c, rate)
  {
  }

  lemma GainNonNegative(from: real, to: real, rate: real)
    requires from <= to && rate >= 0.0
    ensures Gain(from, to, rate) >= 0.0
  {
    var x := to - from;
    assert x * rate >= 0.0;
  }

  lemma RefillGain(b: Bucket, capacity: real, rate: real, now: real)
    requires rate > 0.0 && WithinCapacity(b, capacity)
    ensures var b' := Refill(b, capacity, rate, now);
            && WithinCapacity(b', capacity) && b'.lastRefill >= b.lastRefill
            && b.tokens <= b'.tokens <= b.tokens + Gain(b.lastRefill, b'.lastRefill, rate)
  {
    if now > b.lastRefill {
      GainNonNegative(b.lastRefill, now, rate);
      var g := Gain(b.lastRefill, now, rate);
      assert Refill(b, capacity, rate, now) == Bucket(MinReal(capacity, b.tokens + g), now);
    }
  }

  /** Over any stretch of any run in which the identity stays tracked, at most
      capacity + rate * elapsed calls are admitted. */
  lemma AdmissionBound(d: OrderedDict<Id, Bucket>, maxTracked: nat, calls: seq<Call>, id: Id,
                       capacity: real, rate: real)
    requires d.Valid() && capacity > 0.0 && rate > 0.0
    requires FixedFor(calls, id, capacity, rate)
    requires Tracked(d, maxTracked, calls, id)
    requires WithinCapacity(d.data[id], capacity)
    ensures var d' := Run(d, maxTracked, calls);
            && id in d'.data
            && WithinCapacity(d'.data[id], capacity)
            && Admitted(AnswersTo(d, maxTracked, calls, id)) as real
               <= capacity + Gain(d.data[id].lastRefill, d'.data[id].lastRefill, rate)
  {
    LimiterProjectsToBucket(d, maxTracked, calls, id, capacity, rate);
    TokensAreConserved(d.data[id], capacity, rate, TimesOf(calls, id));
  }

  /** The bound's premise: from an empty limiter, any bucket an identity has is within its capacity. */
  lemma {:induction false} ReachableWithinCapacity(d: OrderedDict<Id, Bucket>, maxTracked: nat,
                                                   calls: seq<Call>, id: Id, capacity: real, rate: real)
    requires d.Valid() && FixedFor(calls, id, capacity, rate)
    requires id in d.data ==> WithinCapacity(d.data[id], capacity)
    ensures var d' := Run(d, maxTracked, calls);
            id in d'.data ==> WithinCapacity(d'.data[id], capacity)
    decreases |calls|
  {
    if calls != [] {
      var c := calls[0];
      if c.id == id && !Unlimited(c) && id in d.data { RefillGain(d.data[id], capacity, rate, c.now); }
      ReachableWithinCapacity(Step(d, maxTracked, c).0, maxTracked, calls[1..], id, capacity, rate);
    }
  }

  // ---- The bound with evictions ----

  /** The registries along a run. */
  ghost predicate IsRun(ds: seq<OrderedDict<Id, Bucket>>, maxTracked: nat, calls: seq<Call>) {
    && |ds| == |calls| + 1
    && (forall i :: 0 <= i < |ds| ==> ds[i].Valid())
    && forall i :: 0 <= i < |calls| ==> ds[i + 1] == Step(ds[i], maxTracked, calls[i]).0
  }

  /** Call i is one of the identity's and is admitted. */
  predicate AdmitsAt(ds: seq<OrderedDict<Id, Bucket>>, maxTracked: nat, calls: seq<Call>, id: Id, i: nat)
    requires i < |calls| && i < |ds| && ds[i].Valid()
  {
    calls[i].id == id && Step(ds[i], maxTracked, calls[i]).1.allowed
  }

  /** Call i gives the identity a fresh bucket. */
  predicate FreshAt(ds: seq<OrderedDict<Id, Bucket>>, calls: seq<Call>, id: Id, i: nat)
    requires i < |calls| && i < |ds|
  {
    calls[i].id == id && id !in ds[i].data
  }

  function Count(marks: seq<bool>, n: nat): nat
    requires n <= |marks|
  {
    if n == 0 then 0 else Count(marks, n - 1) + if marks[n - 1] then 1 else 0
  }

  /** Which calls are the identity's and admitted, and which give it a fresh bucket. */
  ghost predicate Marks(ds: seq<OrderedDict<Id, Bucket>>, maxTracked: nat, calls: seq<Call>, id: Id,
                        hits: seq<bool>, anew: seq<bool>)
    requires IsRun(ds, maxTracked, calls)
  {
    && |hits| == |anew| == |calls|
    && forall i :: 0 <= i < |calls| ==>
         hits[i] == AdmitsAt(ds, maxTracked, calls, id, i) && anew[i] == FreshAt(ds, calls, id, i)
  }

  /** What an identity can still spend at once, and when it was last refilled. */
  function TokensOf(d: OrderedDict<Id, Bucket>, id: Id): real { if id in d.data then d.data[id].tokens else 0.0 }
  function RefilledAt(d: OrderedDict<Id, Bucket>, id: Id, from: real): real {
    if id in d.data then d.data[id].lastRefill else from
  }

  ghost predicate Ticking(calls: seq<Call>, from: real) {
    && (forall i :: 0 <= i < |calls| ==> from <= calls[i].now)
    && (forall i, j :: 0 <= i < j < |calls| ==> calls[i].now <= calls[j].now)
  }

  ghost predicate Sound(d: OrderedDict<Id, Bucket>, id: Id, capacity: real, from: real) {
    id in d.data ==> WithinCapacity(d.data[id], capacity) && d.data[id].lastRefill <= from
  }

  /** One call on a clock that does not go back: what can be spent after it, and has been by it, is covered by
      what could be before, the refill, and the capacity of a bucket made anew. */
  lemma SpendingStep(d: OrderedDict<Id, Bucket>, maxTracked: nat, c: Call, id: Id, capacity: real, rate: real,
                     from: real)
    requires d.Valid() && capacity > 0.0 && rate > 0.0 && Sound(d, id, capacity, from) && from <= c.now
    requires c.id == id ==> c.capacity == capacity && c.rate == rate
    ensures var (d', answer) := Step(d, maxTracked, c);
            var anew := if c.id == id && id !in d.data then capacity else 0.0;
            && Sound(d', id, capacity, c.now)
            && RefilledAt(d, id, from) <= RefilledAt(d', id, c.now)
            && TokensOf(d', id) + (if c.id == id && answer.allowed then 1.0 else 0.0)
               <= TokensOf(d, id) + anew + Gain(RefilledAt(d, id, from), RefilledAt(d', id, c.now), rate)
  {
    GainNonNegative(RefilledAt(d, id, from), c.now, rate);
    if c.id == id && id in d.data { RefillGain(d.data[id], capacity, rate, c.now); }
  }

  /** n times the capacity. */
  function Shares(capacity: real, n: nat): real { capacity * n as real }

  lemma OneMoreShare(capacity: real, n: nat)
    ensures Shares(capacity, n + 1) == Shares(capacity, n) + capacity
  {
  }

  /** Entry i of an account: what is left and what is spent is covered by what was there, a capacity if the
      bucket is new, and the refill. */
  predicate Covered(tokens: seq<real>, clock: seq<real>, hits: seq<bool>, anew: seq<bool>, capacity: real, rate: real,
                    i: nat)
    requires i < |hits| == |anew| && |tokens| == |clock| == |hits| + 1
  {
    tokens[i + 1] + (if hits[i] then 1.0 else 0.0)
    <= tokens[i] + (if anew[i] then capacity else 0.0) + Gain(clock[i], clock[i + 1], rate)
  }

  lemma {:induction false} AccountBound(tokens: seq<real>, clock: seq<real>, hits: seq<bool>, anew: seq<bool>,
                                        capacity: real, rate: real, n: nat)
    requires n <= |hits| == |anew| && |tokens| == |clock| == |hits| + 1
    requires forall i :: 0 <= i < n ==> Covered(tokens, clock, hits, anew, capacity, rate, i)
    ensures Count(hits, n) as real + tokens[n]
            <= tokens[0] + Shares(capacity, Count(anew, n)) + Gain(clock[0], clock[n], rate)
  {
    if n > 0 {
      var k := n - 1;
      AccountBound(tokens, clock, hits, anew, capacity, rate, k);
      assert Covered(tokens, clock, hits, anew, capacity, rate, k);
      Distribute(clock[0], clock[k], clock[n], rate);
      OneMoreShare(capacity, Count(anew, k));
    }
  }

  lemma {:induction false} SoundAt(ds: seq<OrderedDict<Id, Bucket>>, maxTracked: nat, calls: seq<Call>, id: Id,
                                   capacity: real, rate: real, from: real, n: nat)
    requires IsRun(ds, maxTracked, calls) && capacity > 0.0 && rate > 0.0 && n <= |calls|
    requires FixedFor(calls, id, capacity, rate) && Ticking(calls, from) && Sound(ds[0], id, capacity, from)
    ensures Sound(ds[n], id, capacity, TimeAt(calls, from, n))
  {
    if n > 0 {
      SoundAt(ds, maxTracked, calls, id, capacity, rate, from, n - 1);
      SpendingStep(ds[n - 1], maxTracked, calls[n - 1], id, capacity, rate, TimeAt(calls, from, n - 1));
      assert ds[n - 1 + 1] == Step(ds[n - 1], maxTracked, calls[n - 1]).0;
    }
  }

  lemma SpendingAt(ds: seq<OrderedDict<Id, Bucket>>, maxTracked: nat, calls: seq<Call>, id: Id,
                   capacity: real, rate: real, from: real, hits: seq<bool>, anew: seq<bool>, i: nat)
    requires IsRun(ds, maxTracked, calls) && capacity > 0.0 && rate > 0.0 && i < |calls|
    requires FixedFor(calls, id, capacity, rate) && Ticking(calls, from) && Sound(ds[0], id, capacity, from)
    requires Marks(ds, maxTracked, calls, id, hits, anew)
    ensures TokensOf(ds[i + 1], id) + (if hits[i] then 1.0 else 0.0)
            <= TokensOf(ds[i], id) + (if anew[i] then capacity else 0.0)
               + Gain(RefilledAt(ds[i], id, TimeAt(calls, from, i)),
                      RefilledAt(ds[i + 1], id, TimeAt(calls, from, i + 1)), rate)
  {
    SoundAt(ds, maxTracked, calls, id, capacity, rate, from, i);
    SpendingStep(ds[i], maxTracked, calls[i], id, capacity, rate, TimeAt(calls, from, i));
    assert ds[i + 1] == Step(ds[i], maxTracked, calls[i]).0;
  }

  /** The account of an identity along a run. */
  ghost predicate AccountOf(ds: seq<OrderedDict<Id, Bucket>>, calls: seq<Call>, id: Id, from: real,
                            tokens: seq<real>, clock: seq<real>)
    requires |ds| == |calls| + 1
  {
    && |tokens| == |clock| == |ds|
    && forall i :: 0 <= i < |ds| ==>
         tokens[i] == TokensOf(ds[i], id) && clock[i] == RefilledAt(ds[i], id, TimeAt(calls, from, i))
  }

  lemma EveryEntryCovered(ds: seq<OrderedDict<Id, Bucket>>, maxTracked: nat, calls: seq<Call>, id: Id,
                          capacity: real, rate: real, from: real, hits: seq<bool>, anew: seq<bool>,
                          tokens: seq<real>, clock: seq<real>, i: nat)
    requires IsRun(ds, maxTracked, calls) && capacity > 0.0 && rate > 0.0 && i < |calls|
    requires FixedFor(calls, id, capacity, rate) && Ticking(calls, from) && Sound(ds[0], id, capacity, from)
    requires Marks(ds, maxTracked, calls, id, hits, anew) && AccountOf(ds, calls, id, from, tokens, clock)
    ensures Covered(tokens, clock, hits, anew, capacity, rate, i)
  {
    SpendingAt(ds, maxTracked, calls, id, capacity, rate, from, hits, anew, i);
  }

  /** Over any run, evictions included, on a clock that does not go back: calls admitted and tokens left at the
      end are at most the tokens at the start, a capacity for every fresh bucket, and the refill in between. */
  lemma AdmissionBoundWithEvictions(ds: seq<OrderedDict<Id, Bucket>>, maxTracked: nat, calls: seq<Call>, id: Id,
                                    capacity: real, rate: real, from: real, hits: seq<bool>, anew: seq<bool>,
                                    tokens: seq<real>, clock: seq<real>)
    requires IsRun(ds, maxTracked, calls) && capacity > 0.0 && rate > 0.0
    requires FixedFor(calls, id, capacity, rate) && Ticking(calls, from) && Sound(ds[0], id, capacity, from)
    requires Marks(ds, maxTracked, calls, id, hits, anew) && AccountOf(ds, calls, id, from, tokens, clock)
    ensures var n := |calls|;
            Count(hits, n) as real + tokens[n]
            <= tokens[0] + Shares(capacity, Count(anew, n)) + Gain(clock[0], clock[n], rate)
  {
    forall i | 0 <= i < |calls| ensures Covered(tokens, clock, hits, anew, capacity, rate, i) {
      EveryEntryCovered(ds, maxTracked, calls, id, capacity, rate, from, hits, anew, tokens, clock, i);
    }
    AccountBound(tokens, clock, hits, anew, capacity, rate, |calls|);
  }

  /** The time of the call before call n. */
  function TimeAt(calls: seq<Call>, from: real, n: nat): real
    requires n <= |calls|
  {
    if n == 0 then from else calls[n - 1].now
  }

  // ---- What a bucket gives ----

  /** A burst is admitted to the last whole token: at stamps that bring no refill exactly the first
      floor(tokens) checks are. */
  lemma {:induction false} BurstAdmitsWholeTokens(b: Bucket, capacity: real, rate: real, times: seq<real>)
    requires rate > 0.0 && b.tokens >= 0.0 && forall i :: 0 <= i < |times| ==> times[i] <= b.lastRefill
    ensures var answers := BucketRun(b, capacity, rate, times).1;
            |answers| == |times| && forall i :: 0 <= i < |times| ==> (answers[i].allowed <==> i < b.tokens.Floor)
    decreases |times|
  {
    if times != [] {
      var (b', answer) := CheckBucket(Some(b), capacity, rate, times[0]);
      BurstAdmitsWholeTokens(b', capacity, rate, times[1..]);
      var rest := BucketRun(b', capacity, rate, times[1..]).1;
      assert BucketRun(b, capacity, rate, times).1 == [answer] + rest;
    }
  }

  /** Tokens come in at the rate until the bucket is full, and are then capped: a bucket left alone long enough has
      its whole capacity again, and before that exactly what it had and what time gained. */
  lemma RefillsAtTheRate(b: Bucket, capacity: real, rate: real, now: real)
    requires rate > 0.0 && now > b.lastRefill
    ensures var after := Refill(b, capacity, rate, now);
            && after.lastRefill == now
            && (now - b.lastRefill >= (capacity - b.tokens) / rate <==> after.tokens == capacity)
            && (now - b.lastRefill < (capacity - b.tokens) / rate ==>
                  after.tokens == b.tokens + rate * (now - b.lastRefill))
  {
    var need, elapsed := (capacity - b.tokens) / rate, now - b.lastRefill;
    assert need * rate == capacity - b.tokens;
    if elapsed >= need {
      GainNonNegative(need, elapsed, rate);
      assert Gain(need, elapsed, rate) == elapsed * rate - need * rate;
    } else {
      assert (need - elapsed) * rate > 0.0;
    }
  }

  /** A new identity starts with a full bucket; the answer carries a wait exactly when it refuses. */
  lemma FirstCheckIsOfAFullBucket(held: Option<Bucket>, capacity: real, rate: real, now: real)
    requires rate > 0.0
    ensures CheckBucket(None, capacity, rate, now) == CheckBucket(Some(Bucket(capacity, now)), capacity, rate, now)
    ensures var answer := CheckBucket(held, capacity, rate, now).1;
            if answer.allowed then answer.retryAfter == 0.0 else answer.retryAfter > 0.0
  {
    var b := if held.None? then Bucket(capacity, now) else Refill(held.value, capacity, rate, now);
    if b.tokens < 1.0 { assert Wait(b.tokens, rate) * rate == 1.0 - b.tokens; }
  }

  /** A call without limits is always admitted, at once, and leaves no trace. */
  lemma UnlimitedIsAdmitted(d: OrderedDict<Id, Bucket>, maxTracked: nat, c: Call)
    requires d.Valid() && (c.rate <= 0.0 || c.capacity <= 0.0)
    ensures Step(d, maxTracked, c) == (d, Answer(true, 0.0))
  {
  }

  // ---- Eviction ----

  /** The identity a call uses; a call without limits uses none. */
  function UseOf(c: Call): Option<Id> { if Unlimited(c) then None else Some(c.id) }

  function UsesOf(calls: seq<Call>): (uses: seq<Option<Id>>)
    ensures |uses| == |calls| && forall i :: 0 <= i < |calls| ==> uses[i] == UseOf(calls[i])
  {
    seq(|calls|, i requires 0 <= i < |calls| => UseOf(calls[i]))
  }

  /** One call: the registry stays in the order of last use, within its cap; a call uses its identity, and only
      the identities used longest ago are dropped, and only for a new one. */
  lemma EvictionStep(d: OrderedDict<Id, Bucket>, maxTracked: nat, c: Call, uses: seq<Option<Id>>)
    requires d.Valid() && |d.order| <= maxTracked && ByLastUse(d.order, uses)
    ensures var d' := Step(d, maxTracked, c).0;
            && |d'.order| <= maxTracked && ByLastUse(d'.order, uses + [UseOf(c)])
            && (forall x, y :: x in d.data && x !in d'.data && y in d'.data ==>
                  !Unlimited(c) && c.id !in d.data && |d.order| == maxTracked
                  && LastUse(uses + [UseOf(c)], x) < LastUse(uses + [UseOf(c)], y))
  {
    if Unlimited(c) {
      ByLastUseStep(d.order, uses, None);
    } else if c.id in d.data {
      WithoutByLastUse(d.order, c.id, uses);
      WithoutKeepsDistinct(d.order, c.id);
      ByLastUseStep(Without(d.order, c.id), uses, Some(c.id));
    } else {
      ByLastUseStep(d.order, uses, Some(c.id));
      NewIdentity(d, maxTracked, c, uses + [UseOf(c)]);
    }
  }

  lemma NewIdentity(d: OrderedDict<Id, Bucket>, maxTracked: nat, c: Call, uses: seq<Option<Id>>)
    requires d.Valid() && |d.order| <= maxTracked && !Unlimited(c) && c.id !in d.data
    requires ByLastUse(d.order + [c.id], uses)
    ensures var d' := Step(d, maxTracked, c).0;
            && |d'.order| <= maxTracked && ByLastUse(d'.order, uses)
            && (forall x, y :: x in d.data && x !in d'.data && y in d'.data ==>
                  |d.order| == maxTracked && LastUse(uses, x) < LastUse(uses, y))
  {
    var b := CheckBucket(Lookup(d, c.id), c.capacity, c.rate, c.now).0;
    var put := d.Put(c.id, b);
    var d' := Step(d, maxTracked, c).0;
    assert put.order == d.order + [c.id] && d' == EvictTo(put, maxTracked);
    if |d.order| == maxTracked {
      EvictsOldest(put, maxTracked);
      ByLastUseSuffix(put.order, 1, uses);
      forall x, y | x in d.data && x !in d'.data && y in d'.data ensures LastUse(uses, x) < LastUse(uses, y) {
        FirstIsOldest(put.order, uses, x, y);
      }
    }
  }

  lemma FirstIsOldest(order: seq<Id>, uses: seq<Option<Id>>, x: Id, y: Id)
    requires ByLastUse(order, uses) && order != [] && x in order && x !in order[1..] && y in order[1..]
    ensures LastUse(uses, x) < LastUse(uses, y)
  {
    assert order == [order[0]] + order[1..];
    var j :| 0 <= j < |order[1..]| && order[1..][j] == y;
    assert order[j + 1] == y;
  }

  /** Over any run from empty the registry is within its cap and in the order of last use, so what is dropped is
      always the least recently used. */
  lemma {:induction false} RegistryByLastUse(calls: seq<Call>, maxTracked: nat, ds: seq<OrderedDict<Id, Bucket>>,
                                             n: nat)
    requires IsRun(ds, maxTracked, calls) && ds[0] == Empty() && n <= |calls|
    ensures |ds[n].order| <= maxTracked && ByLastUse(ds[n].order, UsesOf(calls[..n]))
  {
    if n > 0 {
      var k := n - 1;
      RegistryByLastUse(calls, maxTracked, ds, k);
      UsesUpTo(calls, k);
      RegistryAfter(calls, maxTracked, ds, k, UsesOf(calls[..k]));
    }
  }

  lemma UsesUpTo(calls: seq<Call>, k: nat)
    requires k < |calls|
    ensures UsesOf(calls[..k + 1]) == UsesOf(calls[..k]) + [UseOf(calls[k])]
  {
  }

  lemma RegistryAfter(calls: seq<Call>, maxTracked: nat, ds: seq<OrderedDict<Id, Bucket>>, k: nat,
                      uses: seq<Option<Id>>)
    requires IsRun(ds, maxTracked, calls) && k < |calls|
    requires |ds[k].order| <= maxTracked && ByLastUse(ds[k].order, uses)
    ensures |ds[k + 1].order| <= maxTracked && ByLastUse(ds[k + 1].order, uses + [UseOf(calls[k])])
  {
    EvictionStep(ds[k], maxTracked, calls[k], uses);
  }

  // ---- retry_after is exact ----

  /** The time at which a drained bucket says it will have a token again. */
  function Promise(b: Bucket, rate: real): real
    requires rate > 0.0
  {
    b.lastRefill + Wait(b.tokens, rate)
  }

  ghost predicate Clock(from: real, times: seq<real>) {
    && (forall i :: 0 <= i < |times| ==> from <= times[i])
    && (forall i, j :: 0 <= i < j < |times| ==> times[i] <= times[j])
  }

  /** A check of a drained bucket is denied before its promise and admitted from then on; a denial
      repeats the same promise. */
  lemma CheckAgainstPromise(b: Bucket, capacity: real, rate: real, now: real)
    requires rate > 0.0 && capacity >= 1.0 && b.tokens < 1.0 && now >= b.lastRefill
    ensures var (b', answer) := CheckBucket(Some(b), capacity, rate, now);
            && (answer.allowed <==> now >= Promise(b, rate))
            && (!answer.allowed ==>
                  && b'.tokens < 1.0 && b'.lastRefill == now && Promise(b', rate) == Promise(b, rate)
                  && now + answer.retryAfter == Promise(b, rate))
  {
    var elapsed := now - b.lastRefill;
    var wait := Wait(b.tokens, rate);
    assert wait * rate == 1.0 - b.tokens;
    assert (elapsed - wait) * rate == b.tokens + elapsed * rate - 1.0;
    if elapsed < wait {
      assert (wait - elapsed) * rate > 0.0;
      var t := b.tokens + elapsed * rate;
      assert (1.0 - t) / rate == wait - elapsed by { assert (wait - elapsed) * rate == 1.0 - t; }
    } else {
      GainNonNegative(wait, elapsed, rate);
    }
  }

  /** The i-th check is the first one that could be admitted: all earlier ones came before the promise. */
  ghost predicate NoneReached(times: seq<real>, i: nat, promise: real)
    requires i <= |times|
  {
    forall j :: 0 <= j < i ==> times[j] < promise
  }

  /** Any number of denied checks never postpones admission: every check before the promise is
      denied and repeats it, and the first check at or after it is admitted. */
  lemma {:induction false} RetryAfterIsExact(b: Bucket, capacity: real, rate: real, times: seq<real>)
    requires rate > 0.0 && capacity >= 1.0 && b.tokens < 1.0
    requires Clock(b.lastRefill, times)
    ensures var promise, answers := Promise(b, rate), BucketRun(b, capacity, rate, times).1;
            && |answers| == |times|
            && forall i :: 0 <= i < |times| && NoneReached(times, i, promise) ==>
                 && (answers[i].allowed <==> times[i] >= promise)
                 && (times[i] < promise ==> times[i] + answers[i].retryAfter == promise)
    decreases |times|
  {
    if times != [] {
      var promise := Promise(b, rate);
      CheckAgainstPromise(b, capacity, rate, times[0]);
      var (b1, answer) := CheckBucket(Some(b), capacity, rate, times[0]);
      var rest := BucketRun(b1, capacity, rate, times[1..]).1;
      AnswerPerCheck(b1, capacity, rate, times[1..]);
      if times[0] < promise {
        RetryAfterIsExact(b1, capacity, rate, times[1..]);
        forall i | 0 < i < |times| && NoneReached(times, i, promise)
          ensures rest[i - 1].allowed <==> times[i] >= promise
          ensures times[i] < promise ==> times[i] + rest[i - 1].retryAfter == promise
        {
          assert NoneReached(times[1..], i - 1, promise);
        }
      }
    }
  }

  lemma {:induction false} AnswerPerCheck(b: Bucket, capacity: real, rate: real, times: seq<real>)
    requires rate > 0.0
    ensures |BucketRun(b, capacity, rate, times).1| == |times|
    decreases |times|
  {
    if times != [] { AnswerPerCheck(CheckBucket(Some(b), capacity, rate, times[0]).0, capacity, rate, times[1..]); }
  }

  /** The same for an identity inside the limiter, whatever else is checked in between. */
  lemma RetryAfterInLimiter(d: OrderedDict<Id, Bucket>, maxTracked: nat, calls: seq<Call>, id: Id,
                            capacity: real, rate: real)
    requires d.Valid() && capacity >= 1.0 && rate > 0.0
    requires FixedFor(calls, id, capacity, rate)
    requires Tracked(d, maxTracked, calls, id)
    requires d.data[id].tokens < 1.0 && Clock(d.data[id].lastRefill, TimesOf(calls, id))
    ensures var times, answers := TimesOf(calls, id), AnswersTo(d, maxTracked, calls, id);
            var promise := Promise(d.data[id], rate);
            && |answers| == |times|
            && forall i :: 0 <= i < |times| && NoneReached(times, i, promise) ==>
                 && (answers[i].allowed <==> times[i] >= promise)
                 && (times[i] < promise ==> times[i] + answers[i].retryAfter == promise)
  {
    LimiterProjectsToBucket(d, maxTracked, calls, id, capacity, rate);
    RetryAfterIsExact(d.data[id], capacity, rate, TimesOf(calls, id));
  }

  /** The capacity floor of BucketParameters is needed: a positive capacity below one token is never
      admitted, whatever retry_after said, and one of at least one token is admitted on its first check. */
  lemma {:induction false} AdmissibleIffWholeToken(capacity: real, rate: real, times: seq<real>, first: real)
    requires capacity > 0.0 && rate > 0.0
    ensures CheckBucket(None, capacity, rate, first).1.allowed <==> capacity >= 1.0
    ensures capacity < 1.0 ==>
              Admitted(BucketRun(CheckBucket(None, capacity, rate, first).0, capacity, rate, times).1) == 0
  {
    if capacity < 1.0 { NeverAdmitted(Bucket(capacity, first), capacity, rate, times); }
  }

  lemma {:induction false} NeverAdmitted(b: Bucket, capacity: real, rate: real, times: seq<real>)
    requires rate > 0.0 && capacity < 1.0 && b.tokens <= capacity
    ensures Admitted(BucketRun(b, capacity, rate, times).1) == 0
    decreases |times|
  {
    if times != [] {
      var (b1, answer) := CheckBucket(Some(b), capacity, rate, times[0]);
      NeverAdmitted(b1, capacity, rate, times[1..]);
      assert BucketRun(b, capacity, rate, times).1[1..] == BucketRun(b1, capacity, rate, times[1..]).1;
    }
  }
}
