/** An insertion-ordered dictionary, as the caches, the rate limiter and the quota
    tracker use it: a map together with the order of its keys, oldest first. */
module OrderedDicts {
  import opened Common

  /** s with every occurrence of k taken out. */
  function Without<K(==, !new)>(s: seq<K>, k: K): (r: seq<K>)
    ensures forall x :: x in r <==> x in s && x != k
    ensures |r| <= |s|
    ensures k !in s ==> r == s
  {
    if s == [] then []
    else
      assert s == [s[0]] + s[1..];
      if s[0] == k then Without(s[1..], k) else [s[0]] + Without(s[1..], k)
  }

  lemma {:induction false} WithoutKeepsDistinct<K(!new)>(s: seq<K>, k: K)
    requires Distinct(s)
    ensures Distinct(Without(s, k))
    ensures k in s ==> |Without(s, k)| == |s| - 1
  {
    if s != [] {
      assert s == [s[0]] + s[1..];
      WithoutKeepsDistinct(s[1..], k);
      assert s[0] !in s[1..];
    }
  }

  lemma {:induction false} WithoutAt<K(!new)>(s: seq<K>, i: nat)
    requires Distinct(s) && i < |s|
    ensures Without(s, s[i]) == s[..i] + s[i + 1..]
  {
    assert s == [s[0]] + s[1..];
    if i == 0 {
      assert s[0] !in s[1..];
    } else {
      WithoutAt(s[1..], i - 1);
      assert s[..i] == [s[0]] + s[1..][..i - 1] && s[1..][i..] == s[i + 1..];
    }
  }

  lemma {:induction false} DistinctSize<K>(s: seq<K>, keys: set<K>)
    requires Distinct(s) && forall x :: x in s ==> x in keys
    ensures |s| <= |keys|
  {
    if s != [] {
      assert s == [s[0]] + s[1..];
      DistinctSize(s[1..], keys - {s[0]});
    }
  }

  datatype OrderedDict<K(==, !new), V> = OrderedDict(order: seq<K>, data: map<K, V>) {

    ghost predicate Valid() {
      Distinct(order) && forall k :: k in order <==> k in data
    }

    /** d[k] = v: keeps the place of an existing key, appends a new one. */
    function Put(k: K, v: V): (r: OrderedDict<K, V>)
      requires Valid()
      ensures r.Valid()
    {
      if k in data then OrderedDict(order, data[k := v]) else OrderedDict(order + [k], data[k := v])
    }

    function Remove(k: K): (r: OrderedDict<K, V>)
      requires Valid()
      ensures r.Valid()
    {
      WithoutKeepsDistinct(order, k);
      OrderedDict(Without(order, k), data - {k})
    }

    function MoveToEnd(k: K): (r: OrderedDict<K, V>)
      requires Valid() && k in data
      ensures r.Valid()
    {
      WithoutKeepsDistinct(order, k);
      OrderedDict(Without(order, k) + [k], data)
    }

    /** popitem(last=False): drops the oldest key. */
    function PopFirst(): (r: OrderedDict<K, V>)
      requires Valid() && order != []
      ensures r.Valid()
    {
      assert order == [order[0]] + order[1..];
      assert order[0] !in order[1..];
      OrderedDict(order[1..], data - {order[0]})
    }
  }

  function Empty<K(==, !new), V>(): (r: OrderedDict<K, V>)
    ensures r.Valid()
  {
    OrderedDict([], map[])
  }

  /** The oldest keys dropped until at most `cap` remain. */
  function EvictTo<K(==, !new), V>(d: OrderedDict<K, V>, cap: nat): (r: OrderedDict<K, V>)
    requires d.Valid()
    ensures r.Valid() && |r.order| <= cap
    ensures |d.order| <= cap ==> r == d
    ensures forall k :: k in r.data ==> k in d.data && r.data[k] == d.data[k]
    decreases |d.order|
  {
    if |d.order| <= cap then d else EvictTo(d.PopFirst(), cap)
  }

  /** One key too many: what goes is the oldest. */
  lemma EvictsOldest<K(!new), V>(d: OrderedDict<K, V>, cap: nat)
    requires d.Valid() && |d.order| == cap + 1
    ensures EvictTo(d, cap) == d.PopFirst() && d.PopFirst().order == d.order[1..]
  {
    assert EvictTo(d.PopFirst(), cap) == d.PopFirst();
  }
}
