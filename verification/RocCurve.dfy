/** Consequences of the pair-counting form of AUC, and the trapezoid area of the
    stepwise curve, which differs from it exactly by the order of tied pairs. */
module RocCurve {
  import opened Common
  import opened RocAuc

  // ---- AUC is a proportion, and only the order of the scores matters ----

  lemma {:induction false} CreditBounds(t: seq<Obs>, b: real)
    ensures 0 <= Sum(t, BelowIn(b, false)) <= 2 * Negatives(t)
  {
    if t != [] { CreditBounds(t[1..], b); }
  }

  lemma {:induction false} CollectedBounds(s: seq<Obs>, t: seq<Obs>)
    ensures 0 <= Sum(s, Collects(t, false)) <= Positives(s) * (2 * Negatives(t))
  {
    if s != [] {
      CollectedBounds(s[1..], t);
      CreditBounds(t, s[0].score);
      var m := 2 * Negatives(t);
      assert (Positives(s[1..]) + 1) * m == Positives(s[1..]) * m + m;
    }
  }

  lemma ProperRatio(a: int, b: int)
    requires 0 <= a <= b && 0 < b
    ensures 0.0 <= Ratio(a, b) <= 1.0
    ensures a == b ==> Ratio(a, b) == 1.0
  {
    var x, y := a as real, b as real;
    var q := x / y;
    assert q * y == x;
    if a == b { assert (q - 1.0) * y == 0.0; }
  }

  lemma AucIsProportion(s: seq<Obs>)
    ensures Auc(s).Some? ==> 0.0 <= Auc(s).value <= 1.0
  {
    CountsAreCounts(s);
    CollectedBounds(s, s);
    if Auc(s).Some? {
      PositiveProduct(Positives(s), Negatives(s));
      ProperRatio(RightPairs2(s), 2 * (Positives(s) * Negatives(s)));
    }
  }

  function Rescored(s: seq<Obs>, f: real -> real): seq<Obs> {
    if s == [] then [] else [Obs(f(s[0].score), s[0].pos)] + Rescored(s[1..], f)
  }

  ghost predicate StrictlyIncreasing(f: real -> real) { forall a, b :: a < b ==> f(a) < f(b) }

  lemma {:induction false} RescoredCredits(t: seq<Obs>, f: real -> real, b: real)
    requires StrictlyIncreasing(f)
    ensures Sum(Rescored(t, f), BelowIn(f(b), false)) == Sum(t, BelowIn(b, false))
    ensures Positives(Rescored(t, f)) == Positives(t) && Negatives(Rescored(t, f)) == Negatives(t)
  {
    if t != [] {
      RescoredCredits(t[1..], f, b);
      var a := t[0].score;
      assert Rescored(t, f)[1..] == Rescored(t[1..], f);
      assert (a < b ==> f(a) < f(b)) && (b < a ==> f(b) < f(a));
    }
  }

  lemma {:induction false} RescoredCollects(s: seq<Obs>, t: seq<Obs>, f: real -> real)
    requires StrictlyIncreasing(f)
    ensures Sum(Rescored(s, f), Collects(Rescored(t, f), false)) == Sum(s, Collects(t, false))
  {
    if s != [] {
      RescoredCollects(s[1..], t, f);
      RescoredCredits(t, f, s[0].score);
      assert Rescored(s, f)[1..] == Rescored(s[1..], f);
    }
  }

  /** A strictly increasing change of scale leaves AUC as it is. */
  lemma AucIsRankInvariant(s: seq<Obs>, f: real -> real)
    requires StrictlyIncreasing(f)
    ensures Auc(Rescored(s, f)) == Auc(s)
  {
    RescoredCollects(s, s, f);
    RescoredCredits(s, f, 0.0);
  }

  // ---- The trapezoid area ----

  /** Pairs with the positive before the negative. */
  function PosBeforeNeg(s: seq<Obs>): int {
    if s == [] then 0 else (if s[0].pos then Negatives(s[1..]) else 0) + PosBeforeNeg(s[1..])
  }

  lemma {:induction false} PosBeforeNegSnoc(s: seq<Obs>, x: Obs)
    ensures PosBeforeNeg(s + [x]) == PosBeforeNeg(s) + if x.pos then 0 else Positives(s)
  {
    if s == [] {
      assert s + [x] == [x] && [x][1..] == [];
    } else {
      PosBeforeNegSnoc(s[1..], x);
      assert (s + [x])[1..] == s[1..] + [x];
      SumOfConcat(s[1..], [x], IsNeg());
      assert [x][1..] == [];
    }
  }

  /** Over tied pairs in list order: +1 for positive then negative, -1 for negative then positive. */
  function TieSign(h: Obs): Obs -> int {
    (y: Obs) => if y.score != h.score || y.pos == h.pos then 0 else if h.pos then 1 else -1
  }

  function TieImbalance(s: seq<Obs>): int {
    if s == [] then 0 else Sum(s[1..], TieSign(s[0])) + TieImbalance(s[1..])
  }

  lemma ImbalanceCons(x: Obs, t: seq<Obs>)
    ensures TieImbalance([x] + t) == Sum(t, TieSign(x)) + TieImbalance(t)
  {
    assert ([x] + t)[1..] == t;
  }

  lemma SumCons(x: Obs, t: seq<Obs>, f: Obs -> int)
    ensures Sum([x] + t, f) == f(x) + Sum(t, f)
  {
    assert ([x] + t)[1..] == t;
  }

  /** Stable sorting never reorders tied examples. */
  lemma {:induction false} InsertKeepsImbalance(x: Obs, t: seq<Obs>, descending: bool)
    ensures TieImbalance(Insert(x, t, descending)) == TieImbalance([x] + t)
  {
    if t != [] && !Ahead(x, t[0], descending) {
      var h, r := t[0], t[1..];
      var ins := Insert(x, r, descending);
      InsertKeepsImbalance(x, r, descending);
      ImbalanceCons(h, ins);
      ImbalanceCons(h, r);
      ImbalanceCons(x, r);
      ImbalanceCons(x, t);
      assert t == [h] + r;
      SumCons(h, r, TieSign(x));
      SumPermuted(ins, [x] + r, TieSign(h));
      SumCons(x, r, TieSign(h));
    }
  }

  lemma {:induction false} SortKeepsImbalance(s: seq<Obs>, descending: bool)
    ensures TieImbalance(SortByScore(s, descending)) == TieImbalance(s)
  {
    if s != [] {
      var t := SortByScore(s[1..], descending);
      SortKeepsImbalance(s[1..], descending);
      InsertKeepsImbalance(s[0], t, descending);
      assert ([s[0]] + t)[1..] == t;
      SumPermuted(t, s[1..], TieSign(s[0]));
    }
  }

  /** In descending order the steps of the curve credit tied pairs fully or not at all. */
  lemma {:induction false} DescendingPairs(s: seq<Obs>)
    requires Sorted(s, true)
    ensures 2 * PosBeforeNeg(s) == RightPairs2(s) + TieImbalance(s)
  {
    if s != [] {
      var h, r := s[0], s[1..];
      DescendingPairs(r);
      assert s == [h] + r && [h][1..] == [];
      forall x | x in r ensures Collects(s, false)(x) == Collects(r, false)(x) + Collects([h], false)(x) {
        SumOfConcat([h], r, BelowIn(x.score, false));
      }
      SumPlus(r, Collects(s, false), Collects(r, false), Collects([h], false));
      SumOfConcat([h], r, BelowIn(h.score, false));
      HeadPairs(h, r);
    }
  }

  lemma {:induction false} HeadPairs(h: Obs, r: seq<Obs>)
    requires forall x :: x in r ==> h.score >= x.score
    ensures Sum(r, Collects([h], false)) + Collects(r, false)(h) + Sum(r, TieSign(h))
            == if h.pos then 2 * Negatives(r) else 0
  {
    if r != [] {
      HeadPairs(h, r[1..]);
      assert [h][1..] == [];
      assert Sum([h], BelowIn(r[0].score, false)) == BelowIn(r[0].score, false)(h);
    }
  }

  datatype Point = Point(fpr: real, tpr: real, threshold: real)

  /** The curve of the sorted examples, one step each, between its two fixed ends. */
  function CurvePoint(s: seq<Obs>, nPos: int, nNeg: int, k: nat): Point
    requires k <= |s| && nPos != 0 && nNeg != 0
  {
    Point(Ratio(Negatives(s[..k]), nNeg), Ratio(Positives(s[..k]), nPos), if k == 0 then 1.01 else s[k - 1].score)
  }

  /** Builds the points with running counters. */
  method CurvePoints(s: seq<Obs>, nPos: int, nNeg: int) returns (points: seq<Point>)
    requires nPos == Positives(s) != 0 && nNeg == Negatives(s) != 0
    ensures IsCurve(points, s, nPos, nNeg)
  {
    points := [Point(0.0, 0.0, 1.01)];
    var tp, fp := 0, 0;
    for i := 0 to |s|
      invariant tp == Positives(s[..i]) && fp == Negatives(s[..i])
      invariant |points| == i + 1
      invariant forall k :: 0 <= k <= i ==> points[k] == CurvePoint(s, nPos, nNeg, k)
    {
      CountStep(s, i);
      if s[i].pos { tp := tp + 1; } else { fp := fp + 1; }
      points := points + [Point(Ratio(fp, nNeg), Ratio(tp, nPos), s[i].score)];
    }
    points := points + [Point(1.0, 1.0, -0.01)];
  }

  lemma CountStep(s: seq<Obs>, i: nat)
    requires i < |s|
    ensures Positives(s[..i + 1]) == Positives(s[..i]) + IsPos()(s[i])
    ensures Negatives(s[..i + 1]) == Negatives(s[..i]) + IsNeg()(s[i])
    ensures PosBeforeNeg(s[..i + 1]) == PosBeforeNeg(s[..i]) + if s[i].pos then 0 else Positives(s[..i])
  {
    assert s[..i + 1] == s[..i] + [s[i]] && [s[i]][1..] == [];
    SumOfConcat(s[..i], [s[i]], IsPos());
    SumOfConcat(s[..i], [s[i]], IsNeg());
    PosBeforeNegSnoc(s[..i], s[i]);
  }

  function Trapezoid(a: Point, b: Point): real { (b.fpr - a.fpr) * (a.tpr + b.tpr) / 2.0 }

  /** One step of the curve adds a column only for a negative, as high as the positives before it. */
  lemma StepArea(s: seq<Obs>, nPos: int, nNeg: int, i: nat, d: int)
    requires nPos > 0 && nNeg > 0 && i < |s| && d == nPos * nNeg != 0
    ensures Trapezoid(CurvePoint(s, nPos, nNeg, i), CurvePoint(s, nPos, nNeg, i + 1))
            == Ratio(PosBeforeNeg(s[..i + 1]) - PosBeforeNeg(s[..i]), d)
  {
    CountStep(s, i);
    var tp, fp := Positives(s[..i]), Negatives(s[..i]);
    if s[i].pos {
      FlatStep(CurvePoint(s, nPos, nNeg, i), CurvePoint(s, nPos, nNeg, i + 1), d);
    } else {
      ColumnArea(tp, fp, nPos, nNeg, d);
    }
  }

  lemma FlatStep(a: Point, b: Point, d: int)
    requires a.fpr == b.fpr && d != 0
    ensures Trapezoid(a, b) == Ratio(0, d)
  {
  }

  lemma ColumnArea(tp: int, fp: int, nPos: int, nNeg: int, d: int)
    requires nPos > 0 && nNeg > 0 && d == nPos * nNeg != 0
    ensures (Ratio(fp + 1, nNeg) - Ratio(fp, nNeg)) * (Ratio(tp, nPos) + Ratio(tp, nPos)) / 2.0 == Ratio(tp, d)
  {
    Column(tp as real, fp as real, nPos as real, nNeg as real);
    assert d as real == nPos as real * nNeg as real;
  }

  lemma Column(tp: real, fp: real, p: real, n: real)
    requires p > 0.0 && n > 0.0
    ensures ((fp + 1.0) / n - fp / n) * (tp / p + tp / p) / 2.0 == tp / (p * n)
  {
    assert (fp + 1.0) / n - fp / n == 1.0 / n;
    assert tp / (p * n) == (tp / p) * (1.0 / n);
  }

  lemma ZeroRatio(a: int, d: int)
    requires d != 0
    ensures Ratio(a, d) == 0.0 <==> a == 0
  {
    var x, y := a as real, d as real;
    assert x / y * y == x;
  }

  lemma RatioPlus(a: int, b: int, d: int)
    requires d != 0
    ensures Ratio(a, d) + Ratio(b, d) == Ratio(a + b, d)
  {
  }

  /** The points of the curve of the sorted examples. */
  ghost predicate IsCurve(points: seq<Point>, s: seq<Obs>, nPos: int, nNeg: int) {
    && nPos != 0 && nNeg != 0
    && |points| == |s| + 2
    && (forall k :: 0 <= k <= |s| ==> points[k] == CurvePoint(s, nPos, nNeg, k))
    && points[|s| + 1] == Point(1.0, 1.0, -0.01)
  }

  /** The trapezoid AUC, and how far it is from the rank-sum AUC: half the imbalance of the tied
      pairs.  Without a positive and a negative it is 0. */
  method RocCurve(records: seq<Obs>) returns (points: seq<Point>, auc: real)
    ensures Auc(records).None? ==> points == [] && auc == 0.0
    ensures Auc(records).Some? ==>
              && IsCurve(points, SortByScore(records, true), Positives(records), Negatives(records))
              && auc == Auc(records).value
                        + Ratio(TieImbalance(records), 2 * (Positives(records) * Negatives(records)))
  {
    var scored := SortByScore(records, true);
    RightPairsPermuted(records, scored);
    CountsAreCounts(scored);
    var nPos := Positives(scored);
    var nNeg := |scored| - nPos;
    if nPos == 0 || nNeg == 0 {
      return [], 0.0;
    }
    points := CurvePoints(scored, nPos, nNeg);
    ghost var d := nPos * nNeg;
    PositiveProduct(nPos, nNeg);
    CurveSteps(scored, nPos, nNeg, points, d);
    auc := Area(scored, points, d);
    AreaOfSorted(records, d);
  }

  lemma AreaOfSorted(records: seq<Obs>, d: int)
    requires Positives(records) > 0 && Negatives(records) > 0
    requires d == Positives(records) * Negatives(records) != 0
    ensures Ratio(PosBeforeNeg(SortByScore(records, true)), d)
            == Auc(records).value + Ratio(TieImbalance(records), 2 * d)
  {
    var scored := SortByScore(records, true);
    SortSorts(records, true);
    RightPairsPermuted(records, scored);
    DescendingPairs(scored);
    SortKeepsImbalance(records, true);
    SplitArea(PosBeforeNeg(scored), RightPairs2(records), TieImbalance(records), d);
  }

  lemma SplitArea(area: int, right2: int, imbalance: int, d: int)
    requires d != 0 && 2 * area == right2 + imbalance
    ensures Ratio(area, d) == Ratio(right2, 2 * d) + Ratio(imbalance, 2 * d)
  {
    DoubledRatio(area, d);
    RatioPlus(right2, imbalance, 2 * d);
  }

  lemma DoubledRatio(a: int, d: int)
    requires d != 0
    ensures Ratio(a, d) == Ratio(2 * a, 2 * d)
  {
    Halve((2 * a) as real, d as real);
  }

  /** What each pair of consecutive points adds to the area. */
  lemma CurveSteps(s: seq<Obs>, nPos: int, nNeg: int, points: seq<Point>, d: int)
    requires nPos == Positives(s) > 0 && nNeg == Negatives(s) > 0
    requires d == nPos * nNeg != 0
    requires IsCurve(points, s, nPos, nNeg)
    ensures forall i :: 0 <= i < |s| ==> Trapezoid(points[i], points[i + 1])
                                         == Ratio(PosBeforeNeg(s[..i + 1]) - PosBeforeNeg(s[..i]), d)
    ensures Trapezoid(points[|s|], points[|s| + 1]) == 0.0
  {
    forall i | 0 <= i < |s|
      ensures Trapezoid(points[i], points[i + 1])
              == Ratio(PosBeforeNeg(s[..i + 1]) - PosBeforeNeg(s[..i]), d)
    {
      assert points[i] == CurvePoint(s, nPos, nNeg, i) && points[i + 1] == CurvePoint(s, nPos, nNeg, i + 1);
      StepArea(s, nPos, nNeg, i, d);
    }
    LastStep(s, nPos, nNeg);
  }

  lemma LastStep(s: seq<Obs>, nPos: int, nNeg: int)
    requires nPos > 0 && nNeg == Negatives(s) > 0
    ensures Trapezoid(CurvePoint(s, nPos, nNeg, |s|), Point(1.0, 1.0, -0.01)) == 0.0
  {
    assert s[..|s|] == s;
    ProperRatio(nNeg, nNeg);
    var a := CurvePoint(s, nPos, nNeg, |s|);
    assert a.fpr == 1.0;
    assert (1.0 - a.fpr) * (a.tpr + 1.0) == 0.0;
  }

  /** The sum of the trapezoids over consecutive points. */
  method Area(ghost s: seq<Obs>, points: seq<Point>, ghost d: int) returns (auc: real)
    requires d != 0 && |points| == |s| + 2
    requires forall i :: 0 <= i < |s| ==> Trapezoid(points[i], points[i + 1])
                                          == Ratio(PosBeforeNeg(s[..i + 1]) - PosBeforeNeg(s[..i]), d)
    requires Trapezoid(points[|s|], points[|s| + 1]) == 0.0
    ensures auc == Ratio(PosBeforeNeg(s), d)
  {
    auc := 0.0;
    for i := 0 to |points| - 1
      invariant i <= |s| ==> auc == Ratio(PosBeforeNeg(s[..i]), d)
      invariant i == |s| + 1 ==> auc == Ratio(PosBeforeNeg(s), d)
    {
      if i < |s| {
        RatioPlus(PosBeforeNeg(s[..i]), PosBeforeNeg(s[..i + 1]) - PosBeforeNeg(s[..i]), d);
      } else {
        assert s[..|s|] == s;
      }
      auc := auc + Trapezoid(points[i], points[i + 1]);
    }
  }

  /** No positive ties a negative. */
  predicate NoCrossTies(s: seq<Obs>) {
    forall i, j :: 0 <= i < |s| && 0 <= j < |s| && s[i].score == s[j].score ==> s[i].pos == s[j].pos
  }

  lemma {:induction false} NoCrossTiesBalance(s: seq<Obs>)
    requires NoCrossTies(s)
    ensures TieImbalance(s) == 0
  {
    if s != [] {
      NoCrossTiesBalance(s[1..]);
      SumConst(s[1..], TieSign(s[0]), 0);
    }
  }

  /** The two AUCs agree exactly when the tied pairs balance; in particular when no positive ties
      a negative. */
  lemma TrapezoidAgreesIffBalanced(s: seq<Obs>, trapezoid: real)
    requires Auc(s).Some?
    requires trapezoid == Auc(s).value + Ratio(TieImbalance(s), 2 * (Positives(s) * Negatives(s)))
    ensures trapezoid == Auc(s).value <==> TieImbalance(s) == 0
    ensures NoCrossTies(s) ==> trapezoid == Auc(s).value
  {
    ZeroRatio(TieImbalance(s), 2 * (Positives(s) * Negatives(s)));
    if NoCrossTies(s) { NoCrossTiesBalance(s); }
  }

  /** Witness: one tied pair, positive first: the trapezoid says 1, the rank sum says 1/2. */
  lemma TrapezoidInflatesATie()
    ensures var s := [Obs(0.5, true), Obs(0.5, false)];
            Auc(s) == Some(0.5) && TieImbalance(s) == 1
  {
    var s := [Obs(0.5, true), Obs(0.5, false)];
    assert s[1..] == [Obs(0.5, false)] && s[1..][1..] == [];
    assert Sum(s, BelowIn(0.5, false)) == 1;
    assert Positives(s) == 1 && Negatives(s) == 1;
  }
}
