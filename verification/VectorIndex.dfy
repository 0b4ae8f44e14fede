/** The fuzzy tier of `core/cache.py`: a positional vector index that is meant to run
    parallel to an ordered dictionary, row i being the vector of the i-th entry. */
module VectorIndex {
  import opened Common
  import opened OrderedDicts
  import opened RecentUse
  import opened ExactCache

  /** A unit vector; rebuilding the index normalises every stored vector. */
  datatype Vec = Vec(coordinates: seq<real>)
  datatype Item = Item(vector: Vec, risk: string, score: real)
  const TTL_SECONDS := 86400.0

  /** The local entries and the index over them, which is built on first use. */
  datatype State = State(entries: Cache<Item>, index: Option<seq<Vec>>)

  function RowsOf(entries: Cache<Item>): (rows: seq<Vec>)
    requires entries.Valid()
    ensures |rows| == |entries.order|
    ensures forall i :: 0 <= i < |rows| ==> rows[i] == entries.data[entries.order[i]].value.vector
  {
    seq(|entries.order|, i requires 0 <= i < |entries.order| && entries.Valid() =>
      entries.data[entries.order[i]].value.vector)
  }

  ghost predicate Aligned(s: State)
    requires s.entries.Valid()
  {
    s.index.Some? ==> s.index.value == RowsOf(s.entries)
  }

  /** The same vectors, in whatever order; in particular as many rows as entries. */
  ghost predicate SameVectors(s: State)
    requires s.entries.Valid()
  {
    s.index.Some? ==> multiset(s.index.value) == multiset(RowsOf(s.entries))
  }

  datatype Op =
    | Add(key: Key, item: Item, now: real)
    | Lookup(best: int, similar: bool, now: real)
    | FlushAll

  /** The index a lookup searches: built from the entries when there is none yet. */
  function Searched(s: State): seq<Vec>
    requires s.entries.Valid()
  {
    if s.index.None? then RowsOf(s.entries) else s.index.value
  }

  /** The search found row `best`, `similar` enough, and that position names an entry. */
  predicate Candidate(s: State, best: int, similar: bool)
    requires s.entries.Valid()
  {
    similar && 0 <= best < |s.entries.order| && s.entries.order != [] && Searched(s) != []
  }

  /** The second tier of a lookup: a hit moves its entry to the end and leaves the index alone, an
      expired entry is dropped and the index rebuilt. */
  function LookupSpec(s: State, best: int, similar: bool, now: real): (r: (State, Option<Item>))
    requires s.entries.Valid()
    ensures r.0.entries.Valid()
  {
    if s.entries.order == [] then (s, None)
    else
      var rows := Searched(s);
      if !Candidate(s, best, similar) then (State(s.entries, Some(rows)), None)
      else
        var key := s.entries.order[best];
        var entry := s.entries.data[key];
        if !Expired(entry, now) then (State(s.entries.MoveToEnd(key), Some(rows)), Some(entry.value))
        else
          var rest := s.entries.Remove(key);
          (State(rest, Some(RowsOf(rest))), None)
  }

  function Next(s: State, maxSize: nat, op: Op): (s': State)
    requires s.entries.Valid() && maxSize >= 1
    ensures s'.entries.Valid()
  {
    match op
    case Add(key, item, now) =>
      var entries := SetSpec(s.entries, maxSize, key, Entry(item, now, TTL_SECONDS));
      State(entries, Some(RowsOf(entries)))
    case Lookup(best, similar, now) => LookupSpec(s, best, similar, now).0
    case FlushAll => State(Empty(), Some([]))
  }

  class FaissCache {
    const maxSize: nat
    var entries: Cache<Item>
    var index: Option<seq<Vec>>

    ghost predicate Valid()
      reads this
    {
      entries.Valid() && maxSize >= 1
    }

    ghost function Now(): State
      reads this
    {
      State(entries, index)
    }

    /** Entries loaded from disk; the index is left for the first lookup. */
    constructor (maxSize: nat, loaded: Cache<Item>)
      requires maxSize >= 1 && loaded.Valid()
      ensures Valid() && this.maxSize == maxSize && Now() == State(loaded, None)
    {
      this.maxSize := maxSize;
      entries := loaded;
      index := None;
    }

    method Rebuild()
      requires Valid()
      modifies this`index
      ensures Valid() && index == Some(RowsOf(entries))
    {
      var vectors := [];
      for i := 0 to |entries.order|
        invariant vectors == RowsOf(entries)[..i]
      {
        vectors := vectors + [entries.data[entries.order[i]].value.vector];
      }
      assert RowsOf(entries)[..|entries.order|] == RowsOf(entries);
      index := Some(vectors);
    }

    method AddEntry(key: Key, item: Item, now: real)
      requires Valid()
      modifies this
      ensures Valid() && Now() == Next(old(Now()), maxSize, Add(key, item, now))
    {
      if key in entries.data {
        entries := entries.Remove(key);
      } else if |entries.order| >= maxSize {
        entries := entries.PopFirst();
      }
      entries := entries.Put(key, Entry(item, now, TTL_SECONDS));
      Rebuild();
    }

    /** `search` stands for the nearest-neighbour query: a row number, or -1, and whether it is close enough. */
    method LookupFuzzy(search: seq<Vec> -> (int, bool), now: real) returns (r: Option<Item>)
      requires Valid()
      modifies this
      ensures Valid()
      ensures var (best, similar) := search(Searched(old(Now())));
              (Now(), r) == LookupSpec(old(Now()), best, similar, now)
    {
      if |entries.order| == 0 {
        return None;
      }
      if index.None? {
        Rebuild();
      }
      if |index.value| == 0 {
        return None;
      }
      var (best, similar) := search(index.value);
      if similar && 0 <= best < |entries.order| {
        var key := entries.order[best];
        var entry := entries.data[key];
        if now - entry.storedAt < entry.ttl {
          entries := entries.MoveToEnd(key);
          return Some(entry.value);
        }
        entries := entries.Remove(key);
        Rebuild();
      }
      r := None;
    }

    method Flush()
      requires Valid()
      modifies this
      ensures Valid() && Now() == Next(old(Now()), maxSize, FlushAll)
    {
      entries := Empty();
      Rebuild();
    }
  }

  // ---- What moving an entry does to the rows ----

  /** Row i taken out and put at the end. */
  function Rotated<T>(rows: seq<T>, i: nat): seq<T>
    requires i < |rows|
  {
    rows[..i] + rows[i + 1..] + [rows[i]]
  }

  lemma MovedRows(entries: Cache<Item>, i: nat)
    requires entries.Valid() && i < |entries.order|
    ensures RowsOf(entries.MoveToEnd(entries.order[i])) == Rotated(RowsOf(entries), i)
    ensures entries.MoveToEnd(entries.order[i]).order == entries.order[..i] + entries.order[i + 1..]
            + [entries.order[i]]
  {
    WithoutAt(entries.order, i);
    var moved, rows := entries.MoveToEnd(entries.order[i]), RowsOf(entries);
    assert moved.order == Rotated(entries.order, i);
    forall j | 0 <= j < |rows| ensures RowsOf(moved)[j] == Rotated(rows, i)[j] {
      RotatedAt(rows, i, j);
      RotatedAt(entries.order, i, j);
      var was := if j < i then j else if j < |rows| - 1 then j + 1 else i;
      assert moved.order[j] == entries.order[was];
    }
  }

  lemma RotatedIsPermutation<T>(rows: seq<T>, i: nat)
    requires i < |rows|
    ensures multiset(Rotated(rows, i)) == multiset(rows)
  {
    assert rows == rows[..i] + [rows[i]] + rows[i + 1..];
  }

  lemma RotatedAt<T>(rows: seq<T>, i: nat, j: nat)
    requires i < |rows| && j < |rows|
    ensures |Rotated(rows, i)| == |rows|
    ensures Rotated(rows, i)[j] == rows[if j < i then j else if j < |rows| - 1 then j + 1 else i]
  {
  }

  ghost predicate ConstantFrom<T>(rows: seq<T>, i: nat)
    requires i < |rows|
  {
    forall j :: i <= j < |rows| ==> rows[j] == rows[i]
  }

  /** Moving row i to the end changes nothing exactly when all rows from i on are equal. */
  lemma RotationFixes<T>(rows: seq<T>, i: nat)
    requires i < |rows|
    ensures Rotated(rows, i) == rows <==> ConstantFrom(rows, i)
  {
    if Rotated(rows, i) == rows {
      forall j | i <= j < |rows| ensures rows[j] == rows[i] { FixedRun(rows, i, j); }
    } else if ConstantFrom(rows, i) {
      forall j | 0 <= j < |rows| ensures Rotated(rows, i)[j] == rows[j] { RotatedAt(rows, i, j); }
    }
  }

  lemma {:induction false} FixedRun<T>(rows: seq<T>, i: nat, j: nat)
    requires i <= j < |rows| && Rotated(rows, i) == rows
    ensures rows[j] == rows[i]
  {
    if i < j {
      FixedRun(rows, i, j - 1);
      RotatedAt(rows, i, j - 1);
    }
  }

  // ---- Invariants over every run ----

  lemma SameVectorsStep(s: State, maxSize: nat, op: Op)
    requires s.entries.Valid() && maxSize >= 1 && SameVectors(s)
    ensures SameVectors(Next(s, maxSize, op))
  {
    if op.Lookup? && s.entries.order != [] && Candidate(s, op.best, op.similar) {
      MovedRows(s.entries, op.best);
      RotatedIsPermutation(RowsOf(s.entries), op.best);
    }
  }

  function Run(s: State, maxSize: nat, ops: seq<Op>): (s': State)
    requires s.entries.Valid() && maxSize >= 1
    ensures s'.entries.Valid()
    decreases |ops|
  {
    if ops == [] then s else Run(Next(s, maxSize, ops[0]), maxSize, ops[1..])
  }

  /** From any loaded cache, after any operations: an index holds exactly the vectors of the entries,
      so every row number names an entry. */
  lemma {:induction false} IndexHoldsTheVectors(s: State, maxSize: nat, ops: seq<Op>)
    requires s.entries.Valid() && maxSize >= 1 && SameVectors(s)
    ensures var s' := Run(s, maxSize, ops);
            SameVectors(s') && (s'.index.Some? ==> |s'.index.value| == |s'.entries.order|)
    decreases |ops|
  {
    if ops == [] {
      if s.index.Some? {
        assert |multiset(s.index.value)| == |s.index.value|;
        assert |multiset(RowsOf(s.entries))| == |RowsOf(s.entries)|;
      }
    } else {
      SameVectorsStep(s, maxSize, ops[0]);
      IndexHoldsTheVectors(Next(s, maxSize, ops[0]), maxSize, ops[1..]);
    }
  }

  /** Adding, flushing and meeting an expired entry re-align the index from any state. */
  lemma Realigns(s: State, maxSize: nat, op: Op)
    requires s.entries.Valid() && maxSize >= 1
    requires op.Add? || op.FlushAll?
             || (op.Lookup? && Candidate(s, op.best, op.similar) && LookupSpec(s, op.best, op.similar, op.now).1.None?)
    ensures Aligned(Next(s, maxSize, op))
  {
    if op.FlushAll? { assert RowsOf(Empty()) == []; }
  }

  /** Exactly what a lookup does to an aligned index: it stays aligned unless the hit moves an entry
      past one with a different vector. */
  lemma AlignmentAfterLookup(s: State, best: int, similar: bool, now: real)
    requires s.entries.Valid() && Aligned(s)
    ensures var (s', hit) := LookupSpec(s, best, similar, now);
            && (hit.Some? ==> 0 <= best < |s.entries.order|)
            && (Aligned(s') <==> (hit.Some? ==> ConstantFrom(RowsOf(s.entries), best)))
  {
    var (s', hit) := LookupSpec(s, best, similar, now);
    if hit.Some? {
      var entries := s.entries.MoveToEnd(s.entries.order[best]);
      assert s' == State(entries, Some(RowsOf(s.entries)));
      MovedRows(s.entries, best);
      RotationFixes(RowsOf(s.entries), best);
    }
  }

  // ---- What a hit means to the caller ----

  /** What the index answers: the row most similar to the query, close enough when it is above the threshold,
      and -1 when there is no row. */
  ghost predicate Finds(rows: seq<Vec>, similarity: Vec -> real, threshold: real, best: int, similar: bool) {
    if rows == [] then best == -1 && !similar
    else
      && 0 <= best < |rows|
      && (forall j :: 0 <= j < |rows| ==> similarity(rows[j]) <= similarity(rows[best]))
      && (similar <==> similarity(rows[best]) > threshold)
  }

  /** From an aligned index a hit is the cached entry most similar to the query, and above the threshold. */
  lemma AlignedHitIsNearest(s: State, similarity: Vec -> real, threshold: real, best: int, similar: bool, now: real)
    requires s.entries.Valid() && Aligned(s)
    requires Finds(Searched(s), similarity, threshold, best, similar)
    requires LookupSpec(s, best, similar, now).1.Some?
    ensures var hit := LookupSpec(s, best, similar, now).1.value;
            && similarity(hit.vector) > threshold
            && forall k :: k in s.entries.data ==> similarity(s.entries.data[k].value.vector) <= similarity(hit.vector)
  {
    var rows := RowsOf(s.entries);
    forall k | k in s.entries.data ensures similarity(s.entries.data[k].value.vector) <= similarity(rows[best]) {
      var j :| 0 <= j < |s.entries.order| && s.entries.order[j] == k;
      assert rows[j] == s.entries.data[k].value.vector;
    }
  }

  /** From any index at all, a hit can be relied on to be above the threshold, whatever the query, if and only
      if the matched row is in its place. */
  lemma HitIsSimilarIff(s: State, best: int, now: real)
    requires s.entries.Valid() && LookupSpec(s, best, true, now).1.Some? && best < |Searched(s)|
    ensures (forall similarity: Vec -> real, threshold: real ::
               Finds(Searched(s), similarity, threshold, best, true) ==>
                 similarity(LookupSpec(s, best, true, now).1.value.vector) > threshold)
            <==> RowsOf(s.entries)[best] == Searched(s)[best]
  {
    var hit, row := LookupSpec(s, best, true, now).1.value.vector, Searched(s)[best];
    assert hit == RowsOf(s.entries)[best];
    IndicatorFinds(Searched(s), best);
    assert hit != row ==> Indicator(row)(hit) == 0.0;
  }

  /** Only one vector is similar to anything. */
  function Indicator(row: Vec): Vec -> real { (v: Vec) => if v == row then 1.0 else 0.0 }

  lemma IndicatorFinds(rows: seq<Vec>, best: int)
    requires 0 <= best < |rows|
    ensures Finds(rows, Indicator(rows[best]), 0.5, best, true)
  {
  }

  // ---- Whole runs ----

  ghost predicate IsRun(ss: seq<State>, maxSize: nat, ops: seq<Op>) {
    && maxSize >= 1
    && |ss| == |ops| + 1
    && (forall i :: 0 <= i < |ss| ==> ss[i].entries.Valid())
    && forall i :: 0 <= i < |ops| ==> ss[i + 1] == Next(ss[i], maxSize, ops[i])
  }

  /** The operation is not a hit that moves an entry past one with a different vector. */
  ghost predicate KeepsPlaces(s: State, op: Op)
    requires s.entries.Valid()
  {
    op.Lookup? && LookupSpec(s, op.best, op.similar, op.now).1.Some? ==>
      0 <= op.best < |s.entries.order| && ConstantFrom(RowsOf(s.entries), op.best)
  }

  lemma AlignedStepIff(s: State, maxSize: nat, op: Op)
    requires s.entries.Valid() && maxSize >= 1 && Aligned(s)
    ensures Aligned(Next(s, maxSize, op)) <==> KeepsPlaces(s, op)
  {
    match op
    case Lookup(best, similar, now) => AlignmentAfterLookup(s, best, similar, now);
    case _ => Realigns(s, maxSize, op);
  }

  /** The index stays aligned through a whole run if and only if no hit in it moves an entry past one with a
      different vector. */
  lemma {:induction false} AlignedRunIff(ss: seq<State>, maxSize: nat, ops: seq<Op>)
    requires IsRun(ss, maxSize, ops) && Aligned(ss[0])
    ensures (forall i :: 0 <= i < |ss| ==> Aligned(ss[i]))
            <==> (forall i :: 0 <= i < |ops| ==> KeepsPlaces(ss[i], ops[i]))
  {
    if forall i :: 0 <= i < |ss| ==> Aligned(ss[i]) {
      forall i | 0 <= i < |ops| ensures KeepsPlaces(ss[i], ops[i]) {
        assert Aligned(ss[i]) && Aligned(ss[i + 1]);
        AlignedStepIff(ss[i], maxSize, ops[i]);
      }
    }
    if forall i :: 0 <= i < |ops| ==> KeepsPlaces(ss[i], ops[i]) {
      forall i | 0 <= i < |ss| ensures Aligned(ss[i]) { AlignedUpTo(ss, maxSize, ops, i); }
    }
  }

  lemma {:induction false} AlignedUpTo(ss: seq<State>, maxSize: nat, ops: seq<Op>, n: nat)
    requires IsRun(ss, maxSize, ops) && Aligned(ss[0]) && n < |ss|
    requires forall i :: 0 <= i < n ==> KeepsPlaces(ss[i], ops[i])
    ensures Aligned(ss[n])
  {
    if n > 0 {
      AlignedUpTo(ss, maxSize, ops, n - 1);
      AlignedStepIff(ss[n - 1], maxSize, ops[n - 1]);
      assert ss[n - 1 + 1] == Next(ss[n - 1], maxSize, ops[n - 1]);
    }
  }

  /** So the same query asked twice is answered from a neighbour: after a hit on any row but the last
      of an aligned index, the next hit on that row returns the entry that used to follow it. */
  lemma SecondLookupReturnsNeighbour(s: State, best: nat, now: real, later: real)
    requires s.entries.Valid() && Aligned(s)
    requires best + 1 < |s.entries.order|
    requires !Expired(s.entries.data[s.entries.order[best]], now)
    requires !Expired(s.entries.data[s.entries.order[best + 1]], later)
    ensures var (s1, first) := LookupSpec(s, best, true, now);
            var (s2, second) := LookupSpec(s1, best, true, later);
            && Searched(s1) == Searched(s)
            && first == Some(s.entries.data[s.entries.order[best]].value)
            && second == Some(s.entries.data[s.entries.order[best + 1]].value)
  {
    MovedRows(s.entries, best);
  }

  // ---- Which entries there are ----

  /** The entry an Add stores. */
  function Stored(op: Op): Entry<Item>
    requires op.Add?
  {
    Entry(op.item, op.now, TTL_SECONDS)
  }

  /** After an Add its entry is there and is the last one; every other entry stays as it was, but for the oldest
      when a new key meets a full cache. */
  lemma AddStores(s: State, maxSize: nat, op: Op)
    requires s.entries.Valid() && maxSize >= 1 && op.Add?
    ensures var before, after := s.entries, Next(s, maxSize, op).entries;
            var full := op.key !in before.data && |before.order| >= maxSize;
            && after.order != [] && after.order[|after.order| - 1] == op.key
            && op.key in after.data && after.data[op.key] == Entry(op.item, op.now, 86400.0)
            && forall k :: k != op.key ==>
                 && (k in after.data <==> k in before.data && !(full && k == before.order[0]))
                 && (k in after.data ==> after.data[k] == before.data[k])
  {
  }

  /** A lookup hits exactly when its candidate is younger than the TTL; it answers that entry, moves it to the end
      and drops nothing.  It drops only a candidate that has expired. */
  lemma LookupUses(s: State, best: int, similar: bool, now: real)
    requires s.entries.Valid()
    ensures var (s', hit) := LookupSpec(s, best, similar, now);
            var answered := similar && 0 <= best < |s.entries.order| && (s.index.Some? ==> s.index.value != []);
            if !answered then hit.None? && s'.entries == s.entries
            else
              var key := s.entries.order[best];
              var entry := s.entries.data[key];
              if now - entry.storedAt < entry.ttl then
                && hit == Some(entry.value) && s'.entries.data == s.entries.data
                && s'.entries.order[|s'.entries.order| - 1] == key
              else hit.None? && s'.entries.data == s.entries.data - {key}
  {
    if Candidate(s, best, similar) { assert s.entries.order[best] in s.entries.data; }
  }

  /** The entry a key should have after a run: the last one added since the last flush, and without either the one
      it was loaded with. */
  function LastAdd(loaded: map<Key, Entry<Item>>, ops: seq<Op>, key: Key): Option<Entry<Item>>
    decreases |ops|
  {
    if ops == [] then if key in loaded then Some(loaded[key]) else None
    else
      var before := LastAdd(loaded, ops[..|ops| - 1], key);
      match ops[|ops| - 1]
      case Add(k, item, now) => if k == key then Some(Entry(item, now, TTL_SECONDS)) else before
      case FlushAll => None
      case Lookup(_, _, _) => before
  }

  /** Over any run: every entry is the last one added for its key since the last flush (or loaded), and there are
      never more than maxSize. */
  lemma {:induction false} EntriesAreLastAdds(ss: seq<State>, maxSize: nat, ops: seq<Op>, n: nat)
    requires IsRun(ss, maxSize, ops) && n < |ss| && |ss[0].entries.order| <= maxSize
    ensures |ss[n].entries.order| <= maxSize
    ensures forall k :: k in ss[n].entries.data ==>
              LastAdd(ss[0].entries.data, ops[..n], k) == Some(ss[n].entries.data[k])
  {
    if n == 0 {
      assert ops[..0] == [];
    } else {
      var j := n - 1;
      EntriesAreLastAdds(ss, maxSize, ops, j);
      assert ss[j + 1] == Next(ss[j], maxSize, ops[j]);
      assert ops[..n] == ops[..j] + [ops[j]];
      LastAddStep(ss[j], maxSize, ss[0].entries.data, ops[..j], ops[j]);
    }
  }

  lemma LastAddStep(s: State, maxSize: nat, loaded: map<Key, Entry<Item>>, ops: seq<Op>, op: Op)
    requires s.entries.Valid() && maxSize >= 1 && |s.entries.order| <= maxSize
    requires forall k :: k in s.entries.data ==> LastAdd(loaded, ops, k) == Some(s.entries.data[k])
    ensures var s' := Next(s, maxSize, op);
            && |s'.entries.order| <= maxSize
            && forall k :: k in s'.entries.data ==> LastAdd(loaded, ops + [op], k) == Some(s'.entries.data[k])
  {
    assert (ops + [op])[..|ops|] == ops;
    match op
    case Add(key, item, now) =>
      AddStores(s, maxSize, op);
      WithoutKeepsDistinct(s.entries.order, key);
    case Lookup(best, similar, now) =>
      LookupUses(s, best, similar, now);
      if Candidate(s, best, similar) { WithoutKeepsDistinct(s.entries.order, s.entries.order[best]); }
    case FlushAll =>
  }

  /** The key an operation uses: an added one, or the one a hit answers from. */
  function Used(s: State, op: Op): Option<Key>
    requires s.entries.Valid()
  {
    match op
    case Add(key, _, _) => Some(key)
    case Lookup(best, similar, now) =>
      if LookupSpec(s, best, similar, now).1.Some? && 0 <= best < |s.entries.order| then Some(s.entries.order[best])
      else None
    case FlushAll => None
  }

  /** One operation keeps the entries in the order of last use, so what a full cache drops is the entry used
      longest ago. */
  lemma UseOrderStep(s: State, maxSize: nat, op: Op, uses: seq<Option<Key>>)
    requires s.entries.Valid() && maxSize >= 1 && ByLastUse(s.entries.order, uses)
    ensures ByLastUse(Next(s, maxSize, op).entries.order, uses + [Used(s, op)])
  {
    match op
    case Add(key, item, now) => SetOrder(s.entries, uses, maxSize, key, Entry(item, now, TTL_SECONDS));
    case FlushAll =>
    case Lookup(best, similar, now) =>
      var hit := LookupSpec(s, best, similar, now).1;
      if Candidate(s, best, similar) {
        var key := s.entries.order[best];
        WithoutByLastUse(s.entries.order, key, uses);
        ByLastUseStep(Without(s.entries.order, key), uses, if hit.Some? then Some(key) else None);
      } else {
        ByLastUseStep(s.entries.order, uses, None);
      }
  }

  /** Over any run from an empty cache the entries are in the order of last use. */
  lemma {:induction false} EntriesByLastUse(ss: seq<State>, maxSize: nat, ops: seq<Op>, uses: seq<Option<Key>>, n: nat)
    requires IsRun(ss, maxSize, ops) && n < |ss| && ss[0].entries == Empty()
    requires |uses| == |ops| && forall i :: 0 <= i < |ops| ==> uses[i] == Used(ss[i], ops[i])
    ensures ByLastUse(ss[n].entries.order, uses[..n])
  {
    if n > 0 {
      var j := n - 1;
      EntriesByLastUse(ss, maxSize, ops, uses, j);
      UseOrderStep(ss[j], maxSize, ops[j], uses[..j]);
      assert ss[j + 1] == Next(ss[j], maxSize, ops[j]);
      assert uses[..n] == uses[..j] + [uses[j]];
    }
  }
}
