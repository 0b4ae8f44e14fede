/** The rank-sum AUC of `evaluation/metrics.py`, proved equal to counting pairs. */
module RocAuc {
  import opened Common

  /** One scored example; `pos` is its label. */
  datatype Obs = Obs(score: real, pos: bool)

  // ---- Sums over examples ----

  function Sum(s: seq<Obs>, f: Obs -> int): int {
    if s == [] then 0 else f(s[0]) + Sum(s[1..], f)
  }

  lemma {:induction false} SumOfConcat(s: seq<Obs>, t: seq<Obs>, f: Obs -> int)
    ensures Sum(s + t, f) == Sum(s, f) + Sum(t, f)
  {
    if s == [] {
      assert s + t == t;
    } else {
      SumOfConcat(s[1..], t, f);
      assert (s + t)[1..] == s[1..] + t;
    }
  }

  lemma {:induction false} SumConst(s: seq<Obs>, f: Obs -> int, c: int)
    requires forall k :: 0 <= k < |s| ==> f(s[k]) == c
    ensures Sum(s, f) == c * |s|
  {
    if s != [] { SumConst(s[1..], f, c); }
  }

  lemma {:induction false} SumEqual(s: seq<Obs>, f: Obs -> int, g: Obs -> int)
    requires forall x :: x in s ==> f(x) == g(x)
    ensures Sum(s, f) == Sum(s, g)
  {
    if s != [] { SumEqual(s[1..], f, g); }
  }

  lemma {:induction false} SumPlus(s: seq<Obs>, f: Obs -> int, g: Obs -> int, h: Obs -> int)
    requires forall x :: x in s ==> f(x) == g(x) + h(x)
    ensures Sum(s, f) == Sum(s, g) + Sum(s, h)
  {
    if s != [] { SumPlus(s[1..], f, g, h); }
  }

  function Without(s: seq<Obs>, i: nat): seq<Obs>
    requires i < |s|
  {
    s[..i] + s[i + 1..]
  }

  lemma SumWithout(s: seq<Obs>, i: nat, f: Obs -> int)
    requires i < |s|
    ensures Sum(s, f) == f(s[i]) + Sum(Without(s, i), f)
  {
    assert s == s[..i] + ([s[i]] + s[i + 1..]);
    SumOfConcat(s[..i], [s[i]] + s[i + 1..], f);
    assert ([s[i]] + s[i + 1..])[1..] == s[i + 1..];
    SumOfConcat(s[..i], s[i + 1..], f);
  }

  lemma MultisetWithout(s: seq<Obs>, i: nat)
    requires i < |s|
    ensures multiset(Without(s, i)) == multiset(s) - multiset{s[i]}
  {
    assert s == s[..i] + [s[i]] + s[i + 1..];
  }

  lemma {:induction false} SumPermuted(s: seq<Obs>, t: seq<Obs>, f: Obs -> int)
    requires multiset(s) == multiset(t)
    ensures Sum(s, f) == Sum(t, f)
    decreases |s|
  {
    if s == [] {
      assert |multiset(t)| == 0;
    } else {
      assert s[0] in multiset(t);
      var i :| 0 <= i < |t| && t[i] == s[0];
      MultisetWithout(s, 0);
      MultisetWithout(t, i);
      SumPermuted(Without(s, 0), Without(t, i), f);
      SumWithout(s, 0, f);
      SumWithout(t, i, f);
    }
  }

  // ---- Stable sorting by score ----

  /** x may stand before y. */
  predicate Ahead(x: Obs, y: Obs, descending: bool) {
    if descending then x.score >= y.score else x.score <= y.score
  }

  predicate Sorted(s: seq<Obs>, descending: bool) {
    forall i, j :: 0 <= i < j < |s| ==> Ahead(s[i], s[j], descending)
  }

  function Insert(x: Obs, s: seq<Obs>, descending: bool): (r: seq<Obs>)
    ensures multiset(r) == multiset(s) + multiset{x}
  {
    if s == [] || Ahead(x, s[0], descending) then [x] + s
    else
      assert s == [s[0]] + s[1..];
      [s[0]] + Insert(x, s[1..], descending)
  }

  /** Stable: an element is placed before those of equal score that followed it. */
  function SortByScore(s: seq<Obs>, descending: bool): (r: seq<Obs>)
    ensures multiset(r) == multiset(s)
  {
    if s == [] then []
    else
      assert s == [s[0]] + s[1..];
      Insert(s[0], SortByScore(s[1..], descending), descending)
  }

  lemma {:induction false} InsertKeepsSorted(x: Obs, s: seq<Obs>, descending: bool)
    requires Sorted(s, descending)
    ensures Sorted(Insert(x, s, descending), descending)
  {
    if s != [] && !Ahead(x, s[0], descending) {
      InsertKeepsSorted(x, s[1..], descending);
      var r := Insert(x, s[1..], descending);
      forall y | y in r ensures Ahead(s[0], y, descending) {
        assert y in multiset(r);
      }
    }
  }

  lemma {:induction false} SortSorts(s: seq<Obs>, descending: bool)
    ensures Sorted(SortByScore(s, descending), descending)
  {
    if s != [] {
      SortSorts(s[1..], descending);
      InsertKeepsSorted(s[0], SortByScore(s[1..], descending), descending);
    }
  }

  // ---- The reference: counting pairs ----

  function IsPos(): Obs -> int { (x: Obs) => if x.pos then 1 else 0 }
  function IsNeg(): Obs -> int { (x: Obs) => if x.pos then 0 else 1 }
  function Positives(s: seq<Obs>): int { Sum(s, IsPos()) }
  function Negatives(s: seq<Obs>): int { Sum(s, IsNeg()) }

  /** Twice the credit for a below b: 2 when it is, 1 for a tie, 0 otherwise. */
  function Credit(a: real, b: real): int { if a < b then 2 else if a == b then 1 else 0 }

  function Below(b: real): Obs -> int { (y: Obs) => Credit(y.score, b) }
  function BelowIn(b: real, pos: bool): Obs -> int {
    (y: Obs) => if y.pos == pos then Credit(y.score, b) else 0
  }

  /** The credit a positive collects over the examples of t labelled `pos`. */
  function Collects(t: seq<Obs>, pos: bool): Obs -> int {
    (x: Obs) => if x.pos then Sum(t, BelowIn(x.score, pos)) else 0
  }

  /** Twice the number of (positive, negative) pairs that are ranked right, ties counting half. */
  function RightPairs2(s: seq<Obs>): int { Sum(s, Collects(s, false)) }

  function Ratio(a: int, b: int): real
    requires b != 0
  {
    a as real / b as real
  }

  function Auc(s: seq<Obs>): Option<real> {
    if Positives(s) == 0 || Negatives(s) == 0 then None
    else Some(Ratio(RightPairs2(s), 2 * (Positives(s) * Negatives(s))))
  }

  lemma {:induction false} CountsAreCounts(s: seq<Obs>)
    ensures 0 <= Positives(s) && 0 <= Negatives(s) && Positives(s) + Negatives(s) == |s|
  {
    if s != [] { CountsAreCounts(s[1..]); }
  }

  lemma RightPairsPermuted(s: seq<Obs>, t: seq<Obs>)
    requires multiset(s) == multiset(t)
    ensures RightPairs2(s) == RightPairs2(t)
    ensures Positives(s) == Positives(t) && Negatives(s) == Negatives(t)
  {
    SumPermuted(s, t, IsPos());
    SumPermuted(s, t, IsNeg());
    forall x | x in s ensures Collects(s, false)(x) == Collects(t, false)(x) {
      SumPermuted(s, t, BelowIn(x.score, false));
    }
    SumEqual(s, Collects(s, false), Collects(t, false));
    SumPermuted(s, t, Collects(t, false));
  }

  // ---- Rank sums ----

  /** Every positive against every positive: each unordered pair gives 2 in total, each with itself 1. */
  lemma {:induction false} PositivesAgainstThemselves(s: seq<Obs>)
    ensures Sum(s, Collects(s, true)) == Positives(s) * Positives(s)
  {
    if s != [] {
      var h, r := s[0], s[1..];
      var one, n := [h], Positives(r);
      assert s == one + r && one[1..] == [];
      PositivesAgainstThemselves(r);
      forall x | x in r ensures Collects(s, true)(x) == Collects(r, true)(x) + Collects(one, true)(x) {
        SumOfConcat(one, r, BelowIn(x.score, true));
      }
      SumPlus(r, Collects(s, true), Collects(r, true), Collects(one, true));
      SumOfConcat(one, r, BelowIn(h.score, true));
      BothWays(h, r);
      if h.pos {
        assert Sum(one, BelowIn(h.score, true)) == 1;
        assert Positives(s) == n + 1;
        assert (n + 1) * (n + 1) == n * n + 2 * n + 1;
      }
    }
  }

  lemma {:induction false} BothWays(h: Obs, r: seq<Obs>)
    ensures Sum(r, Collects([h], true)) + Collects(r, true)(h) == if h.pos then 2 * Positives(r) else 0
  {
    if r != [] {
      BothWays(h, r[1..]);
      assert [h][1..] == [];
      assert Sum([h], BelowIn(r[0].score, true)) == BelowIn(r[0].score, true)(h);
    }
  }

  /** Twice the tie-averaged rank of an example of score b. */
  function Rank2(s: seq<Obs>, b: real): int { Sum(s, Below(b)) + 1 }

  function PosRank2(s: seq<Obs>): Obs -> int { (x: Obs) => if x.pos then Rank2(s, x.score) else 0 }

  /** The Mann-Whitney identity with ties, doubled. */
  lemma RankSumIdentity(s: seq<Obs>)
    ensures Sum(s, PosRank2(s)) == RightPairs2(s) + Positives(s) * (Positives(s) + 1)
  {
    PositivesAgainstThemselves(s);
    var both := (x: Obs) => Collects(s, false)(x) + Collects(s, true)(x);
    forall x | x in s ensures PosRank2(s)(x) == both(x) + IsPos()(x) {
      SumPlus(s, Below(x.score), BelowIn(x.score, false), BelowIn(x.score, true));
    }
    SumPlus(s, PosRank2(s), both, IsPos());
    SumPlus(s, both, Collects(s, false), Collects(s, true));
  }

  /** In a sorted list, a maximal run i..j of equal scores gives all its members the rank (i+j)/2 + 1. */
  lemma TieGroupRank(s: seq<Obs>, i: nat, j: nat)
    requires i <= j < |s| && Sorted(s, false)
    requires s[i].score == s[j].score
    requires i == 0 || s[i - 1].score < s[i].score
    requires j + 1 == |s| || s[j].score < s[j + 1].score
    ensures Rank2(s, s[i].score) == i + j + 2
  {
    var b := s[i].score;
    TieGroupCredits(s, i, j);
    SumOfThree(s, i, j + 1, Below(b));
    SumConstOver(s, 0, i, Below(b), 2);
    SumConstOver(s, i, j + 1, Below(b), 1);
    SumConstOver(s, j + 1, |s|, Below(b), 0);
    assert s[..i] == s[0..i] && s[j + 1..] == s[j + 1..|s|];
  }

  lemma SumConstOver(s: seq<Obs>, from: nat, to: nat, f: Obs -> int, c: int)
    requires from <= to <= |s| && forall k :: from <= k < to ==> f(s[k]) == c
    ensures Sum(s[from..to], f) == c * (to - from)
  {
    SumConst(s[from..to], f, c);
  }

  lemma SumOfThree(s: seq<Obs>, i: nat, j: nat, f: Obs -> int)
    requires i <= j <= |s|
    ensures Sum(s, f) == Sum(s[..i], f) + Sum(s[i..j], f) + Sum(s[j..], f)
  {
    assert s == s[..i] + s[i..j] + s[j..];
    SumOfConcat(s[..i] + s[i..j], s[j..], f);
    SumOfConcat(s[..i], s[i..j], f);
  }

  lemma TieGroupCredits(s: seq<Obs>, i: nat, j: nat)
    requires i <= j < |s| && Sorted(s, false)
    requires s[i].score == s[j].score
    requires i == 0 || s[i - 1].score < s[i].score
    requires j + 1 == |s| || s[j].score < s[j + 1].score
    ensures forall k :: 0 <= k < |s| ==>
              Credit(s[k].score, s[i].score) == if k < i then 2 else if k <= j then 1 else 0
  {
    forall k | 0 <= k < |s|
      ensures Credit(s[k].score, s[i].score) == if k < i then 2 else if k <= j then 1 else 0
    {
      if k < i {
        assert k == i - 1 || Ahead(s[k], s[i - 1], false);
      } else if k <= j {
        assert (k == i || Ahead(s[i], s[k], false)) && (k == j || Ahead(s[k], s[j], false));
      } else {
        assert k == j + 1 || Ahead(s[j + 1], s[k], false);
      }
    }
  }

  /** The last place of the run of equal scores that starts at i. */
  method RunEnd(pairs: seq<Obs>, i: nat) returns (j: nat)
    requires Sorted(pairs, false) && i < |pairs|
    ensures i <= j < |pairs|
    ensures forall k :: i <= k <= j ==> pairs[k].score == pairs[i].score
    ensures j + 1 == |pairs| || pairs[j].score < pairs[j + 1].score
  {
    j := i;
    while j + 1 < |pairs| && pairs[j + 1].score == pairs[i].score
      invariant i <= j < |pairs|
      invariant forall k :: i <= k <= j ==> pairs[k].score == pairs[i].score
    {
      j := j + 1;
    }
    assert j + 1 == |pairs| || Ahead(pairs[j], pairs[j + 1], false);
  }

  /** Average ranks within tie groups, as the nested loops fill them in. */
  method TieRanks(pairs: seq<Obs>) returns (ranks: array<real>)
    requires Sorted(pairs, false)
    ensures fresh(ranks) && ranks.Length == |pairs|
    ensures forall k :: 0 <= k < |pairs| ==> 2.0 * ranks[k] == Rank2(pairs, pairs[k].score) as real
  {
    var n := |pairs|;
    ranks := new real[n](_ => 0.0);
    var i := 0;
    while i < n
      invariant 0 <= i <= n
      invariant 0 < i < n ==> pairs[i - 1].score < pairs[i].score
      invariant forall k :: 0 <= k < i ==> 2.0 * ranks[k] == Rank2(pairs, pairs[k].score) as real
    {
      var j := RunEnd(pairs, i);
      TieGroupRank(pairs, i, j);
      var avg := (i + j) as real / 2.0 + 1.0;
      for k := i to j + 1
        invariant forall m :: 0 <= m < i ==> 2.0 * ranks[m] == Rank2(pairs, pairs[m].score) as real
        invariant forall m :: i <= m < k ==> ranks[m] == avg
      {
        ranks[k] := avg;
      }
      i := j + 1;
    }
  }

  function Zip(scores: seq<real>, labels: seq<bool>): seq<Obs> {
    seq(MinInt(|scores|, |labels|), i requires 0 <= i < |scores| && i < |labels| => Obs(scores[i], labels[i]))
  }

  // ---- The same count over positions ----

  function CountLabels(labels: seq<bool>, wanted: bool): int {
    if labels == [] then 0
    else
      var last := |labels| - 1;
      CountLabels(labels[..last], wanted) + if labels[last] == wanted then 1 else 0
  }

  /** Twice the credit of position i over the first m positions: a positive collects 2 for every negative with a
      lower score and 1 for every negative with the same score. */
  function RowCredit(scores: seq<real>, labels: seq<bool>, i: nat, m: nat): int
    requires i < |scores| && i < |labels| && m <= |scores| && m <= |labels|
  {
    if m == 0 then 0
    else
      var j := m - 1;
      RowCredit(scores, labels, i, j)
      + if !labels[i] || labels[j] || scores[j] > scores[i] then 0 else if scores[j] < scores[i] then 2 else 1
  }

  /** The credits of the first n positions, each against the first m. */
  function PairsAgainst(scores: seq<real>, labels: seq<bool>, n: nat, m: nat): int
    requires n <= |scores| && n <= |labels| && m <= |scores| && m <= |labels|
  {
    if n == 0 then 0 else PairsAgainst(scores, labels, n - 1, m) + RowCredit(scores, labels, n - 1, m)
  }

  lemma SumSnoc(s: seq<Obs>, k: nat, f: Obs -> int)
    requires k < |s|
    ensures Sum(s[..k + 1], f) == Sum(s[..k], f) + f(s[k])
  {
    assert s[..k + 1] == s[..k] + [s[k]] && [s[k]][1..] == [];
    SumOfConcat(s[..k], [s[k]], f);
  }

  lemma {:induction false} RowOfPosition(scores: seq<real>, labels: seq<bool>, i: nat, m: nat)
    requires i < |scores| && i < |labels| && m <= |scores| && m <= |labels|
    ensures RowCredit(scores, labels, i, m)
            == if labels[i] then Sum(Zip(scores, labels)[..m], BelowIn(scores[i], false)) else 0
  {
    if m > 0 {
      RowOfPosition(scores, labels, i, m - 1);
      SumSnoc(Zip(scores, labels), m - 1, BelowIn(scores[i], false));
    }
  }

  lemma {:induction false} PairsOfPrefix(scores: seq<real>, labels: seq<bool>, n: nat)
    requires n <= |scores| && n <= |labels|
    ensures var data := Zip(scores, labels);
            PairsAgainst(scores, labels, n, |data|) == Sum(data[..n], Collects(data, false))
  {
    var data := Zip(scores, labels);
    if n > 0 {
      PairsOfPrefix(scores, labels, n - 1);
      SumSnoc(data, n - 1, Collects(data, false));
      RowOfPosition(scores, labels, n - 1, |data|);
      assert data[..|data|] == data;
    }
  }

  lemma {:induction false} CountsOfPrefix(scores: seq<real>, labels: seq<bool>, n: nat)
    requires n <= |scores| && n <= |labels|
    ensures CountLabels(labels[..n], true) == Positives(Zip(scores, labels)[..n])
    ensures CountLabels(labels[..n], false) == Negatives(Zip(scores, labels)[..n])
  {
    if n > 0 {
      CountsOfPrefix(scores, labels, n - 1);
      SumSnoc(Zip(scores, labels), n - 1, IsPos());
      SumSnoc(Zip(scores, labels), n - 1, IsNeg());
      assert labels[..n][..n - 1] == labels[..n - 1];
    }
  }

  /** Every score goes with the label in its own position: the pair count and the two label counts of the zipped
      list are those of the positions. */
  lemma PairsOfPositions(scores: seq<real>, labels: seq<bool>)
    ensures var n, data := MinInt(|scores|, |labels|), Zip(scores, labels);
            && RightPairs2(data) == PairsAgainst(scores, labels, n, n)
            && Positives(data) == CountLabels(labels[..n], true) && Negatives(data) == CountLabels(labels[..n], false)
  {
    var n, data := MinInt(|scores|, |labels|), Zip(scores, labels);
    PairsOfPrefix(scores, labels, n);
    CountsOfPrefix(scores, labels, n);
    assert data[..n] == data;
  }

  /** The sum of the ranks of the positives, and how many there are. */
  method PositiveRanks(ranks: array<real>, pairs: seq<Obs>) returns (posRanks: real, nPos: int)
    requires ranks.Length == |pairs|
    requires forall k :: 0 <= k < |pairs| ==> 2.0 * ranks[k] == Rank2(pairs, pairs[k].score) as real
    ensures 2.0 * posRanks == Sum(pairs, PosRank2(pairs)) as real
    ensures nPos == Positives(pairs)
  {
    posRanks, nPos := 0.0, 0;
    for k := 0 to |pairs|
      invariant 2.0 * posRanks == Sum(pairs[..k], PosRank2(pairs)) as real
      invariant nPos == Positives(pairs[..k])
    {
      assert pairs[..k + 1] == pairs[..k] + [pairs[k]] && [pairs[k]][1..] == [];
      SumOfConcat(pairs[..k], [pairs[k]], PosRank2(pairs));
      SumOfConcat(pairs[..k], [pairs[k]], IsPos());
      if pairs[k].pos {
        posRanks, nPos := posRanks + ranks[k], nPos + 1;
      }
    }
    assert pairs[..|pairs|] == pairs;
  }

  /** For every list of scores the rank-sum AUC is the fraction of (positive, negative) pairs
      ranked right, ties counting half; None stands for NaN. */
  method RankSumAuc(scores: seq<real>, labels: seq<bool>) returns (auc: Option<real>)
    ensures auc == Auc(Zip(scores, labels))
    ensures var n := MinInt(|scores|, |labels|);
            var positives, negatives := CountLabels(labels[..n], true), CountLabels(labels[..n], false);
            if positives == 0 || negatives == 0 then auc == None
            else auc == Some(Ratio(PairsAgainst(scores, labels, n, n), 2 * (positives * negatives)))
  {
    var data := Zip(scores, labels);
    PairsOfPositions(scores, labels);
    var pairs := SortByScore(data, false);
    SortSorts(data, false);
    RightPairsPermuted(data, pairs);
    CountsAreCounts(pairs);
    if |pairs| == 0 {
      return None;
    }
    var ranks := TieRanks(pairs);
    var posRanks, nPos := PositiveRanks(ranks, pairs);
    var nNeg := |pairs| - nPos;
    if nPos == 0 || nNeg == 0 {
      return None;
    }
    RankSumIdentity(pairs);
    auc := Some(FromRanks(posRanks, RightPairs2(pairs), nPos, nNeg));
  }

  /** The closing formula, on the counts of a list with both labels. */
  function FromRanks(posRanks: real, ghost right2: int, nPos: int, nNeg: int): (auc: real)
    requires nPos > 0 && nNeg > 0 && 2.0 * posRanks == (right2 + nPos * (nPos + 1)) as real
    ensures nPos * nNeg > 0 && auc == Ratio(right2, 2 * (nPos * nNeg))
  {
    PositiveProduct(nPos, nNeg);
    HalvedRatio(posRanks, right2, nPos, nNeg);
    (posRanks - (nPos * (nPos + 1)) as real / 2.0) / (nPos * nNeg) as real
  }

  lemma PositiveProduct(p: int, n: int)
    requires p > 0 && n > 0
    ensures p * n > 0 && p * (2 * n) == 2 * (p * n)
  {
  }

  lemma HalvedRatio(posRanks: real, right2: int, nPos: int, nNeg: int)
    requires nPos * nNeg != 0
    requires 2.0 * posRanks == (right2 + nPos * (nPos + 1)) as real
    ensures (posRanks - (nPos * (nPos + 1)) as real / 2.0) / (nPos * nNeg) as real
            == Ratio(right2, 2 * (nPos * nNeg))
  {
    var d := (nPos * nNeg) as real;
    assert posRanks - (nPos * (nPos + 1)) as real / 2.0 == right2 as real / 2.0;
    assert (2 * (nPos * nNeg)) as real == 2.0 * d;
    Halve(right2 as real, d);
  }

  lemma Halve(a: real, d: real)
    requires d != 0.0
    ensures (a / 2.0) / d == a / (2.0 * d)
  {
    assert (a / 2.0) / d * (2.0 * d) == a;
  }
}
