/** Keys in the order of their last use: what "least recently used" means for the caches and registries. */
module RecentUse {
  import opened Common
  import opened OrderedDicts

  /** The position of the last use of a key in a run of uses; a step that uses no key is None; -1 for never. */
  function LastUse<K(==)>(uses: seq<Option<K>>, k: K): int {
    if uses == [] then -1
    else if uses[|uses| - 1] == Some(k) then |uses| - 1
    else LastUse(uses[..|uses| - 1], k)
  }

  lemma {:induction false} LastUseBound<K>(uses: seq<Option<K>>, k: K)
    ensures -1 <= LastUse(uses, k) < |uses|
  {
    if uses != [] { LastUseBound(uses[..|uses| - 1], k); }
  }

  /** Every key has been used, and later keys more recently. */
  ghost predicate ByLastUse<K>(order: seq<K>, uses: seq<Option<K>>) {
    && (forall i :: 0 <= i < |order| ==> 0 <= LastUse(uses, order[i]))
    && (forall i, j :: 0 <= i < j < |order| ==> LastUse(uses, order[i]) < LastUse(uses, order[j]))
  }

  /** Taking keys out keeps the order of last use. */
  lemma {:induction false} WithoutByLastUse<K(!new)>(order: seq<K>, k: K, uses: seq<Option<K>>)
    requires ByLastUse(order, uses)
    ensures ByLastUse(Without(order, k), uses)
  {
    if order != [] {
      var rest := order[1..];
      WithoutByLastUse(rest, k, uses);
      var r := Without(rest, k);
      if order[0] != k {
        forall i | 0 <= i < |r| ensures LastUse(uses, order[0]) < LastUse(uses, r[i]) {
          assert r[i] in rest;
        }
        ByLastUseCons(order[0], r, uses);
      }
    }
  }

  lemma ByLastUseCons<K>(k: K, order: seq<K>, uses: seq<Option<K>>)
    requires ByLastUse(order, uses) && 0 <= LastUse(uses, k)
    requires forall i :: 0 <= i < |order| ==> LastUse(uses, k) < LastUse(uses, order[i])
    ensures ByLastUse([k] + order, uses)
  {
  }

  lemma ByLastUseSuffix<K>(order: seq<K>, i: nat, uses: seq<Option<K>>)
    requires ByLastUse(order, uses) && i <= |order|
    ensures ByLastUse(order[i..], uses)
  {
  }

  /** A further use of another key leaves the order of the remaining keys alone, and that key goes last. */
  lemma ByLastUseStep<K>(order: seq<K>, uses: seq<Option<K>>, use: Option<K>)
    requires ByLastUse(order, uses) && (use.Some? ==> use.value !in order)
    ensures ByLastUse(order, uses + [use])
    ensures use.Some? ==> ByLastUse(order + [use.value], uses + [use])
  {
    var all := uses + [use];
    assert all[..|uses|] == uses;
    forall k | k in order ensures LastUse(all, k) == LastUse(uses, k) < |uses| {
      LastUseBound(uses, k);
    }
  }
}
