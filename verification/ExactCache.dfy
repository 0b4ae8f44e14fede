/** The process-local exact-match cache of `core/cache_backend.py`: least-recently-used
    eviction and a time to live per entry. */
module ExactCache {
  import opened Common
  import opened OrderedDicts
  import opened RecentUse

  type Key = string
  datatype Entry<V> = Entry(value: V, storedAt: real, ttl: real)
  type Cache<V> = OrderedDict<Key, Entry<V>>

  datatype Op<V> =
    | Get(key: Key, now: real)
    | Set(key: Key, value: V, ttl: real, now: real)
    | Delete(key: Key)
    | Flush

  predicate Expired<V>(e: Entry<V>, now: real) { now - e.storedAt >= e.ttl }

  /** An entry is handed out only while it is younger than its TTL; an expired one is dropped. */
  function GetSpec<V>(d: Cache<V>, key: Key, now: real): (r: (Cache<V>, Option<V>))
    requires d.Valid()
    ensures r.0.Valid()
  {
    if key !in d.data then (d, None)
    else if Expired(d.data[key], now) then (d.Remove(key), None)
    else (d.MoveToEnd(key), Some(d.data[key].value))
  }

  /** A new key makes room by dropping the oldest one; a known key moves to the end. */
  function SetSpec<V>(d: Cache<V>, maxSize: nat, key: Key, e: Entry<V>): (r: Cache<V>)
    requires d.Valid() && maxSize >= 1
    ensures r.Valid()
  {
    var room := if key in d.data then d.Remove(key) else if |d.order| >= maxSize then d.PopFirst() else d;
    room.Put(key, e)
  }

  function Apply<V>(d: Cache<V>, maxSize: nat, op: Op<V>): (r: Cache<V>)
    requires d.Valid() && maxSize >= 1
    ensures r.Valid()
  {
    match op
    case Get(key, now) => GetSpec(d, key, now).0
    case Set(key, value, ttl, now) => SetSpec(d, maxSize, key, Entry(value, now, ttl))
    case Delete(key) => d.Remove(key)
    case Flush => Empty()
  }

  class LocalExactCache<V> {
    const maxSize: nat
    var data: Cache<V>

    ghost predicate Valid()
      reads this
    {
      data.Valid() && maxSize >= 1
    }

    constructor (maxSize: nat)
      requires maxSize >= 1
      ensures Valid() && this.maxSize == maxSize && data == Empty()
    {
      this.maxSize := maxSize;
      data := Empty();
    }

    method Get(key: Key, now: real) returns (r: Option<V>)
      requires Valid()
      modifies this
      ensures Valid() && (data, r) == GetSpec(old(data), key, now)
    {
      if key !in data.data {
        return None;
      }
      var entry := data.data[key];
      if now - entry.storedAt >= entry.ttl {
        data := data.Remove(key);
        return None;
      }
      data := data.MoveToEnd(key);
      r := Some(entry.value);
    }

    method Set(key: Key, value: V, ttl: real, now: real)
      requires Valid()
      modifies this
      ensures Valid() && data == SetSpec(old(data), maxSize, key, Entry(value, now, ttl))
    {
      if key in data.data {
        data := data.Remove(key);
      } else if |data.order| >= maxSize {
        data := data.PopFirst();
      }
      data := data.Put(key, Entry(value, now, ttl));
    }

    method Delete(key: Key)
      requires Valid()
      modifies this
      ensures Valid() && data == old(data).Remove(key)
    {
      data := data.Remove(key);
    }

    method Flush()
      requires Valid()
      modifies this
      ensures Valid() && data == Empty()
    {
      data := Empty();
    }
  }

  // ---- Runs ----

  function After<V>(ops: seq<Op<V>>, maxSize: nat): (r: Cache<V>)
    requires maxSize >= 1
    ensures r.Valid()
    decreases |ops|
  {
    if ops == [] then Empty() else Apply(After(ops[..|ops| - 1], maxSize), maxSize, ops[|ops| - 1])
  }

  /** What the history says about a key: its last write, unless deleted or flushed since. */
  function LastWrite<V>(ops: seq<Op<V>>, key: Key): Option<Entry<V>>
    decreases |ops|
  {
    if ops == [] then None
    else
      var before := LastWrite(ops[..|ops| - 1], key);
      match ops[|ops| - 1]
      case Set(k, value, ttl, now) => if k == key then Some(Entry(value, now, ttl)) else before
      case Delete(k) => if k == key then None else before
      case Flush => None
      case Get(_, _) => before
  }

  /** The key an operation reads or writes. */
  function Use<V>(op: Op<V>): Option<Key> { if op.Get? || op.Set? then Some(op.key) else None }

  function Uses<V>(ops: seq<Op<V>>): (uses: seq<Option<Key>>)
    ensures |uses| == |ops|
    ensures forall i :: 0 <= i < |ops| ==> uses[i] == Use(ops[i])
  {
    seq(|ops|, i requires 0 <= i < |ops| => Use(ops[i]))
  }

  lemma UsesSnoc<V>(ops: seq<Op<V>>, op: Op<V>)
    ensures Uses(ops + [op]) == Uses(ops) + [Use(op)]
  {
  }

  /** The position of the last operation that reads or writes the key; -1 when there is none. */
  function LastTouch<V>(ops: seq<Op<V>>, key: Key): int { LastUse(Uses(ops), key) }

  /** Every reachable cache: its entries are the last writes, its order is the order of last use,
      and its size is bounded. */
  ghost predicate Faithful<V>(d: Cache<V>, ops: seq<Op<V>>, maxSize: nat) {
    && d.Valid()
    && |d.order| <= maxSize
    && (forall k :: k in d.data ==> LastWrite(ops, k) == Some(d.data[k]))
    && ByLastUse(d.order, Uses(ops))
  }

  lemma ReachableIsFaithful<V>(ops: seq<Op<V>>, maxSize: nat)
    requires maxSize >= 1
    ensures Faithful(After(ops, maxSize), ops, maxSize)
    decreases |ops|
  {
    if ops != [] {
      var before, op := ops[..|ops| - 1], ops[|ops| - 1];
      ReachableIsFaithful(before, maxSize);
      FaithfulStep(After(before, maxSize), before, op, maxSize);
      assert before + [op] == ops;
    }
  }

  lemma FaithfulStep<V>(d: Cache<V>, ops: seq<Op<V>>, op: Op<V>, maxSize: nat)
    requires maxSize >= 1 && Faithful(d, ops, maxSize)
    ensures Faithful(Apply(d, maxSize, op), ops + [op], maxSize)
  {
    WritesStep(d, ops, op, maxSize);
    UsesSnoc(ops, op);
    match op {
      case Get(key, now) => GetOrder(d, Uses(ops), key, now);
      case Set(key, value, ttl, now) => SetOrder(d, Uses(ops), maxSize, key, Entry(value, now, ttl));
      case Delete(key) =>
        WithoutByLastUse(d.order, key, Uses(ops));
        ByLastUseStep(Without(d.order, key), Uses(ops), None);
      case Flush =>
    }
  }

  lemma WritesStep<V>(d: Cache<V>, ops: seq<Op<V>>, op: Op<V>, maxSize: nat)
    requires maxSize >= 1 && d.Valid()
    requires forall k :: k in d.data ==> LastWrite(ops, k) == Some(d.data[k])
    ensures var d' := Apply(d, maxSize, op);
            forall k :: k in d'.data ==> LastWrite(ops + [op], k) == Some(d'.data[k])
  {
    assert (ops + [op])[..|ops|] == ops;
  }

  lemma GetOrder<V>(d: Cache<V>, uses: seq<Option<Key>>, key: Key, now: real)
    requires d.Valid() && ByLastUse(d.order, uses)
    ensures var d' := GetSpec(d, key, now).0;
            ByLastUse(d'.order, uses + [Some(key)]) && |d'.order| <= |d.order|
  {
    WithoutByLastUse(d.order, key, uses);
    WithoutKeepsDistinct(d.order, key);
    ByLastUseStep(Without(d.order, key), uses, Some(key));
  }

  lemma SetOrder<V>(d: Cache<V>, uses: seq<Option<Key>>, maxSize: nat, key: Key, e: Entry<V>)
    requires d.Valid() && ByLastUse(d.order, uses) && maxSize >= 1
    ensures var d' := SetSpec(d, maxSize, key, e);
            && ByLastUse(d'.order, uses + [Some(key)])
            && |d'.order| <= MaxInt(maxSize, |d.order|)
  {
    if key in d.data {
      WithoutByLastUse(d.order, key, uses);
      WithoutKeepsDistinct(d.order, key);
      ByLastUseStep(Without(d.order, key), uses, Some(key));
    } else if |d.order| >= maxSize {
      ByLastUseSuffix(d.order, 1, uses);
      assert key !in d.order[1..];
      ByLastUseStep(d.order[1..], uses, Some(key));
    } else {
      ByLastUseStep(d.order, uses, Some(key));
    }
  }

  /** A hit only ever returns the latest value written for that key, within its TTL; and a key that is still
      there is missed only when its TTL has passed. */
  lemma HitIsLatestWrite<V>(ops: seq<Op<V>>, maxSize: nat, key: Key, now: real)
    requires maxSize >= 1
    ensures var hit := GetSpec(After(ops, maxSize), key, now).1;
            var write := LastWrite(ops, key);
            && (hit.Some? ==>
                  && write.Some? && hit.value == write.value.value && now - write.value.storedAt < write.value.ttl)
            && (key in After(ops, maxSize).data ==>
                  write.Some? && (now - write.value.storedAt < write.value.ttl ==> hit.Some?))
  {
    ReachableIsFaithful(ops, maxSize);
  }

  /** Only a write of a new key to a full cache drops another key, and then exactly the one whose last
      use is the longest ago. */
  lemma EvictsLeastRecentlyUsed<V>(ops: seq<Op<V>>, maxSize: nat, op: Op<V>, lost: Key)
    requires maxSize >= 1
    requires lost in After(ops, maxSize).data && lost !in After(ops + [op], maxSize).data
    requires op.Get? || op.Set?
    requires op.key != lost
    ensures op.Set? && op.key !in After(ops, maxSize).data && |After(ops, maxSize).order| == maxSize
    ensures forall k :: k in After(ops, maxSize).data && k != lost ==> LastTouch(ops, lost) < LastTouch(ops, k)
  {
    ReachableIsFaithful(ops, maxSize);
    assert (ops + [op])[..|ops|] == ops;
    var d := After(ops, maxSize);
    assert After(ops + [op], maxSize) == Apply(d, maxSize, op);
    assert lost == d.order[0];
    forall k | k in d.data && k != lost ensures LastTouch(ops, lost) < LastTouch(ops, k) {
      var i :| 0 <= i < |d.order| && d.order[i] == k;
    }
  }

  // ---- Retention ----

  function RunFrom<V>(d: Cache<V>, maxSize: nat, ops: seq<Op<V>>): (r: Cache<V>)
    requires d.Valid() && maxSize >= 1
    ensures r.Valid()
    decreases |ops|
  {
    if ops == [] then d else RunFrom(Apply(d, maxSize, ops[0]), maxSize, ops[1..])
  }

  /** The keys read or written by these operations. */
  function Touched<V>(ops: seq<Op<V>>): set<Key> {
    set i | 0 <= i < |ops| && (ops[i].Get? || ops[i].Set?) :: ops[i].key
  }

  /** None of the operations names the key, and none flushes. */
  ghost predicate Leaves<V>(ops: seq<Op<V>>, key: Key) {
    forall i :: 0 <= i < |ops| ==> !ops[i].Flush? && ops[i].key != key
  }

  /** The keys used more recently than `key`. */
  function NewerThan(order: seq<Key>, key: Key): seq<Key> {
    if order == [] then [] else if order[0] == key then order[1..] else NewerThan(order[1..], key)
  }

  ghost predicate OnlyNewer(order: seq<Key>, key: Key, used: set<Key>) {
    forall k :: k in NewerThan(order, key) ==> k in used
  }

  lemma {:induction false} NewerAfterRemoval(order: seq<Key>, k: Key, key: Key)
    requires k != key
    ensures forall x :: x in NewerThan(Without(order, k), key) ==> x in NewerThan(order, key)
  {
    if order != [] {
      NewerAfterRemoval(order[1..], k, key);
      var r := Without(order[1..], k);
      assert order[0] != k ==> ([order[0]] + r)[1..] == r;
    }
  }

  lemma {:induction false} NewerAfterAppend(order: seq<Key>, k: Key, key: Key)
    requires key in order
    ensures forall x :: x in NewerThan(order + [k], key) ==> x in NewerThan(order, key) || x == k
  {
    assert (order + [k])[1..] == order[1..] + [k];
    if order[0] != key { NewerAfterAppend(order[1..], k, key); }
  }

  /** A key survives while fewer than maxSize distinct other keys have been used since its last use. */
  lemma {:induction false} RetainedWhileRecent<V>(d: Cache<V>, maxSize: nat, ops: seq<Op<V>>, key: Key, used: set<Key>)
    requires d.Valid() && maxSize >= 1 && |d.order| <= maxSize
    requires key in d.data && OnlyNewer(d.order, key, used)
    requires Leaves(ops, key) && key !in used
    requires |used + Touched(ops)| < maxSize
    ensures key in RunFrom(d, maxSize, ops).data
    ensures RunFrom(d, maxSize, ops).data[key] == d.data[key]
    decreases |ops|
  {
    if ops != [] {
      var op, rest := ops[0], ops[1..];
      var used' := used + (if op.Get? || op.Set? then {op.key} else {});
      assert used' + Touched(rest) <= used + Touched(ops) by {
        forall k | k in Touched(rest) ensures k in Touched(ops) {
          var i :| 0 <= i < |rest| && (rest[i].Get? || rest[i].Set?) && rest[i].key == k;
          assert ops[i + 1] == rest[i];
        }
      }
      SubsetSize(used' + Touched(rest), used + Touched(ops));
      SubsetSize(used', used + Touched(ops));
      RetainedStep(d, maxSize, op, key, used, used');
      RetainedWhileRecent(Apply(d, maxSize, op), maxSize, rest, key, used');
    }
  }

  lemma RetainedStep<V>(d: Cache<V>, maxSize: nat, op: Op<V>, key: Key, used: set<Key>, used': set<Key>)
    requires d.Valid() && maxSize >= 1 && |d.order| <= maxSize
    requires key in d.data && OnlyNewer(d.order, key, used)
    requires !op.Flush? && op.key != key && key !in used
    requires used' == used + (if op.Get? || op.Set? then {op.key} else {})
    requires |used'| < maxSize
    ensures var d' := Apply(d, maxSize, op);
            && key in d'.data && d'.data[key] == d.data[key]
            && OnlyNewer(d'.order, key, used') && |d'.order| <= maxSize
  {
    var x := op.key;
    WithoutKeepsDistinct(d.order, x);
    NewerAfterRemoval(d.order, x, key);
    if op.Set? && x !in d.data && |d.order| >= maxSize {
      OldestIsAnother(d, key, used, maxSize, x);
      NewerAfterAppend(d.order[1..], x, key);
    } else {
      NewerAfterAppend(Without(d.order, x), x, key);
    }
  }

  /** While fewer than maxSize others have been used, the oldest key of a full cache is not this one. */
  lemma OldestIsAnother<V>(d: Cache<V>, key: Key, used: set<Key>, maxSize: nat, x: Key)
    requires d.Valid() && |d.order| == maxSize >= 1 && key in d.data && OnlyNewer(d.order, key, used)
    requires x !in d.data && |used + {x}| < maxSize
    ensures d.order[0] != key && key in d.order[1..]
    ensures NewerThan(d.order[1..], key) == NewerThan(d.order, key)
  {
    assert d.order == [d.order[0]] + d.order[1..];
    if d.order[0] == key { DistinctSize(d.order[1..] + [x], used + {x}); }
  }

  /** In particular right after the key was read or written, when no other key is newer. */
  lemma RetainedAfterUse<V>(d: Cache<V>, maxSize: nat, ops: seq<Op<V>>, key: Key)
    requires d.Valid() && maxSize >= 1 && |d.order| <= maxSize
    requires d.order != [] && d.order[|d.order| - 1] == key
    requires Leaves(ops, key) && |Touched(ops)| < maxSize
    ensures key in RunFrom(d, maxSize, ops).data && RunFrom(d, maxSize, ops).data[key] == d.data[key]
  {
    NothingNewerThanLast(d.order);
    assert {} + Touched(ops) == Touched(ops);
    RetainedWhileRecent(d, maxSize, ops, key, {});
  }

  lemma {:induction false} NothingNewerThanLast(order: seq<Key>)
    requires order != [] && Distinct(order)
    ensures NewerThan(order, order[|order| - 1]) == []
  {
    if |order| > 1 { NothingNewerThanLast(order[1..]); }
  }

  /** Witness that the bound is sharp: maxSize other keys do push it out. */
  lemma EvictedByOneMore<V>(v: V)
    ensures var ops := [Set("a", v, 1.0, 0.0), Set("b", v, 1.0, 0.0)];
            "a" !in RunFrom(Empty(), 1, ops).data && |Touched(ops[1..])| == 1
  {
    var first, second := Op.Set("a", v, 1.0, 0.0), Op.Set("b", v, 1.0, 0.0);
    var ops := [first, second];
    assert ops[1..] == [second] && [second][1..] == [];
    var d := Apply(Empty(), 1, first);
    assert d.order == ["a"];
    assert RunFrom(Empty(), 1, ops) == RunFrom(d, 1, [second]);
    assert RunFrom(d, 1, [second]) == RunFrom(Apply(d, 1, second), 1, []);
    assert Touched([second]) == {"b"} by { assert [second][0].key == "b"; }
  }
}
