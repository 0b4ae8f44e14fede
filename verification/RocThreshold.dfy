/** Choosing a score cutoff under a false-positive budget (`roc_points`, `recall_at_fpr`,
    `threshold_at_fpr`) against what `confusion` then measures at that cutoff. */
module RocThreshold {
  import opened Common
  import opened RocAuc
  import opened RocCurve

  datatype Threshold = Infinity | At(t: real)

  predicate Flagged(x: Obs, thr: Threshold) { thr.At? && x.score >= thr.t }

  function Hits(thr: Threshold): Obs -> int { (x: Obs) => if x.pos && Flagged(x, thr) then 1 else 0 }
  function Alarms(thr: Threshold): Obs -> int { (x: Obs) => if !x.pos && Flagged(x, thr) then 1 else 0 }

  method Confusion(scores: seq<real>, labels: seq<bool>, thr: Threshold)
    returns (tp: int, fp: int, tn: int, fn: int)
    ensures var data := Zip(scores, labels);
            && tp == Sum(data, Hits(thr)) && fp == Sum(data, Alarms(thr))
            && tp + fn == Positives(data) && fp + tn == Negatives(data)
  {
    var data := Zip(scores, labels);
    tp, fp, tn, fn := 0, 0, 0, 0;
    for i := 0 to |data|
      invariant tp == Sum(data[..i], Hits(thr)) && fp == Sum(data[..i], Alarms(thr))
      invariant tp + fn == Positives(data[..i]) && fp + tn == Negatives(data[..i])
    {
      CountStep(data, i);
      assert data[..i + 1] == data[..i] + [data[i]] && [data[i]][1..] == [];
      SumOfConcat(data[..i], [data[i]], Hits(thr));
      SumOfConcat(data[..i], [data[i]], Alarms(thr));
      var flagged := Flagged(data[i], thr);
      if data[i].pos && flagged {
        tp := tp + 1;
      } else if !data[i].pos && flagged {
        fp := fp + 1;
      } else if !data[i].pos && !flagged {
        tn := tn + 1;
      } else {
        fn := fn + 1;
      }
    }
    assert data[..|data|] == data;
  }

  datatype RocPoint = RocPoint(fpr: real, tpr: real, thr: Threshold)

  /** The operating point that flags the first k examples of the descending order. */
  function PointAt(s: seq<Obs>, nPos: int, nNeg: int, k: nat): RocPoint
    requires k <= |s| && nPos != 0 && nNeg != 0
  {
    RocPoint(Ratio(Negatives(s[..k]), nNeg), Ratio(Positives(s[..k]), nPos),
             if k == 0 then Infinity else At(s[k - 1].score))
  }

  ghost predicate ArePoints(pts: seq<RocPoint>, s: seq<Obs>, nPos: int, nNeg: int) {
    && nPos != 0 && nNeg != 0
    && |pts| == |s| + 1
    && forall k :: 0 <= k <= |s| ==> pts[k] == PointAt(s, nPos, nNeg, k)
  }

  method RocPoints(scores: seq<real>, labels: seq<bool>) returns (pts: seq<RocPoint>)
    ensures var data := Zip(scores, labels);
            if Positives(data) == 0 || Negatives(data) == 0 then pts == []
            else ArePoints(pts, SortByScore(data, true), Positives(data), Negatives(data))
  {
    var data := Zip(scores, labels);
    var ordered := SortByScore(data, true);
    RightPairsPermuted(data, ordered);
    CountsAreCounts(ordered);
    var nPos := Positives(ordered);
    var nNeg := |ordered| - nPos;
    if nPos == 0 || nNeg == 0 {
      return [];
    }
    pts := SweepPoints(ordered, nPos, nNeg);
  }

  /** One point per example, with running counters. */
  method SweepPoints(ordered: seq<Obs>, nPos: int, nNeg: int) returns (pts: seq<RocPoint>)
    requires nPos != 0 && nNeg != 0
    ensures ArePoints(pts, ordered, nPos, nNeg)
  {
    pts := [RocPoint(0.0, 0.0, Infinity)];
    var tp, fp := 0, 0;
    for i := 0 to |ordered|
      invariant tp == Positives(ordered[..i]) && fp == Negatives(ordered[..i])
      invariant |pts| == i + 1
      invariant forall k :: 0 <= k <= i ==> pts[k] == PointAt(ordered, nPos, nNeg, k)
    {
      CountStep(ordered, i);
      if ordered[i].pos { tp := tp + 1; } else { fp := fp + 1; }
      pts := pts + [RocPoint(Ratio(fp, nNeg), Ratio(tp, nPos), At(ordered[i].score))];
    }
  }

  /** The order Python compares (tpr, threshold) tuples by. */
  predicate AtLeastThr(a: Threshold, b: Threshold) { a.Infinity? || (b.At? && a.t >= b.t) }
  predicate AtLeast(a: RocPoint, b: RocPoint) {
    a.tpr > b.tpr || (a.tpr == b.tpr && AtLeastThr(a.thr, b.thr))
  }

  /** The first greatest point within budget. */
  function Best(pts: seq<RocPoint>, budget: real): (r: Option<RocPoint>)
    ensures r.Some? ==> r.value in pts && r.value.fpr <= budget
    ensures forall p :: p in pts && p.fpr <= budget ==> r.Some? && AtLeast(r.value, p)
  {
    if pts == [] then None
    else
      assert pts == [pts[0]] + pts[1..];
      var rest := Best(pts[1..], budget);
      if pts[0].fpr > budget then rest
      else if rest.None? || AtLeast(pts[0], rest.value) then Some(pts[0])
      else rest
  }

  /** recall_at_fpr: None is NaN (no curve); 0 when nothing is within budget. */
  function RecallAtFpr(pts: seq<RocPoint>, budget: real): Option<real> {
    if pts == [] then None
    else if Best(pts, budget).None? then Some(0.0)
    else Some(Best(pts, budget).value.tpr)
  }

  function ThresholdAtFpr(pts: seq<RocPoint>, budget: real): Option<Threshold> {
    if Best(pts, budget).None? then None else Some(Best(pts, budget).value.thr)
  }

  /** Only a negative budget admits no point at all: then the recall is 0 and there is no threshold.  Without a
      curve there is neither. */
  lemma NothingWithinBudgetIff(pts: seq<RocPoint>, s: seq<Obs>, nPos: int, nNeg: int, budget: real)
    requires nPos > 0 && nNeg > 0 && ArePoints(pts, s, nPos, nNeg)
    ensures ThresholdAtFpr(pts, budget) == None <==> budget < 0.0
    ensures budget < 0.0 ==> RecallAtFpr(pts, budget) == Some(0.0)
    ensures RecallAtFpr([], budget) == None && ThresholdAtFpr([], budget) == None
  {
    assert s[..0] == [];
    assert pts[0].fpr == 0.0 && pts[0] in pts;
    forall p | p in pts ensures p.fpr >= 0.0 {
      var k :| 0 <= k < |pts| && pts[k] == p;
      NonNegativeFpr(s, nPos, nNeg, k);
    }
  }

  lemma RatioOrder(a: int, b: int, d: int)
    requires d > 0
    ensures a < b <==> Ratio(a, d) < Ratio(b, d)
    ensures a == b <==> Ratio(a, d) == Ratio(b, d)
  {
    var x, y, z := a as real, b as real, d as real;
    assert x / z * z == x && y / z * z == y;
  }

  // ---- Thresholds and cuts of the descending order ----

  ghost predicate CutsAt(s: seq<Obs>, k: nat, thr: Threshold) {
    && k <= |s|
    && (forall i :: 0 <= i < k ==> Flagged(s[i], thr))
    && (forall i :: k <= i < |s| ==> !Flagged(s[i], thr))
  }

  lemma CutCounts(data: seq<Obs>, s: seq<Obs>, k: nat, thr: Threshold)
    requires multiset(data) == multiset(s) && CutsAt(s, k, thr)
    ensures Sum(data, Hits(thr)) == Positives(s[..k])
    ensures Sum(data, Alarms(thr)) == Negatives(s[..k])
  {
    assert s == s[..k] + s[k..];
    SumPermuted(data, s, Hits(thr));
    SumPermuted(data, s, Alarms(thr));
    SumOfConcat(s[..k], s[k..], Hits(thr));
    SumOfConcat(s[..k], s[k..], Alarms(thr));
    SumEqual(s[..k], Hits(thr), IsPos());
    SumEqual(s[..k], Alarms(thr), IsNeg());
    SumConst(s[k..], Hits(thr), 0);
    SumConst(s[k..], Alarms(thr), 0);
  }

  lemma {:induction false} EveryThresholdCuts(s: seq<Obs>, thr: Threshold) returns (k: nat)
    requires Sorted(s, true)
    ensures CutsAt(s, k, thr)
  {
    k := 0;
    while k < |s| && Flagged(s[k], thr)
      invariant k <= |s|
      invariant forall i :: 0 <= i < k ==> Flagged(s[i], thr)
    {
      k := k + 1;
    }
    assert forall i :: k < i < |s| ==> Ahead(s[k], s[i], true);
  }

  /** A point's own threshold flags exactly its examples if and only if no later example ties
      with the last of them. */
  lemma PointCutsItself(s: seq<Obs>, nPos: int, nNeg: int, k: nat)
    requires Sorted(s, true) && k <= |s| && nPos != 0 && nNeg != 0
    ensures CutsAt(s, k, PointAt(s, nPos, nNeg, k).thr)
            <==> k == 0 || k == |s| || s[k].score != s[k - 1].score
  {
    var thr := PointAt(s, nPos, nNeg, k).thr;
    if k > 0 {
      assert forall i :: 0 <= i < k - 1 ==> Ahead(s[i], s[k - 1], true);
      if k < |s| {
        assert Ahead(s[k - 1], s[k], true);
        assert forall i :: k < i < |s| ==> Ahead(s[k], s[i], true);
        if s[k].score == s[k - 1].score { assert Flagged(s[k], thr); }
      }
    }
  }

  /** No threshold within budget has a higher recall than recall_at_fpr, ties or not. */
  lemma RecallIsOptimal(data: seq<Obs>, pts: seq<RocPoint>, budget: real, thr: Threshold)
    requires Positives(data) > 0 && Negatives(data) > 0
    requires ArePoints(pts, SortByScore(data, true), Positives(data), Negatives(data))
    requires Ratio(Sum(data, Alarms(thr)), Negatives(data)) <= budget
    ensures Ratio(Sum(data, Hits(thr)), Positives(data)) <= RecallAtFpr(pts, budget).value
  {
    var s := SortByScore(data, true);
    SortSorts(data, true);
    var k := EveryThresholdCuts(s, thr);
    CutCounts(data, s, k, thr);
    assert pts[k] in pts;
  }

  // ---- Ties ----

  predicate HeadFits(h: Obs, t: seq<Obs>) { h.pos ==> forall y :: y in t && y.score == h.score ==> y.pos }

  /** No positive is followed by a negative of the same score. */
  predicate NegativesFirst(s: seq<Obs>) { s == [] || (HeadFits(s[0], s[1..]) && NegativesFirst(s[1..])) }

  lemma {:induction false} NegativesFirstMeans(s: seq<Obs>)
    ensures NegativesFirst(s) <==>
              forall i, j :: 0 <= i < j < |s| && s[i].score == s[j].score && s[i].pos ==> s[j].pos
  {
    if s != [] {
      NegativesFirstMeans(s[1..]);
      assert forall i :: 0 < i < |s| ==> s[i] == s[1..][i - 1] && s[i] in s[1..];
      if NegativesFirst(s) {
        forall i, j | 0 <= i < j < |s| && s[i].score == s[j].score && s[i].pos ensures s[j].pos {
          if i > 0 { assert s[1..][i - 1] == s[i] && s[1..][j - 1] == s[j]; }
        }
      }
    }
  }

  lemma NegativesFirstCons(x: Obs, t: seq<Obs>)
    ensures NegativesFirst([x] + t) <==> HeadFits(x, t) && NegativesFirst(t)
  {
    assert ([x] + t)[1..] == t;
  }

  lemma HeadFitsPermuted(h: Obs, x: Obs, r: seq<Obs>, ins: seq<Obs>)
    requires multiset(ins) == multiset([x] + r)
    ensures HeadFits(h, ins) <==> HeadFits(h, r) && (h.pos && x.score == h.score ==> x.pos)
  {
    SameMembers(ins, [x] + r);
    assert forall y :: y in [x] + r <==> y == x || y in r;
  }

  lemma {:induction false} InsertKeepsNegativesFirst(x: Obs, t: seq<Obs>, descending: bool)
    ensures NegativesFirst(Insert(x, t, descending)) <==> NegativesFirst([x] + t)
  {
    if t != [] && !Ahead(x, t[0], descending) {
      var h, r := t[0], t[1..];
      var ins := Insert(x, r, descending);
      InsertKeepsNegativesFirst(x, r, descending);
      assert t == [h] + r;
      NegativesFirstCons(h, ins);
      NegativesFirstCons(x, r);
      NegativesFirstCons(x, t);
      NegativesFirstCons(h, r);
      HeadFitsPermuted(h, x, r, ins);
      HeadFitsPermuted(x, h, r, t);
    }
  }

  lemma SameMembers(s: seq<Obs>, t: seq<Obs>)
    requires multiset(s) == multiset(t)
    ensures forall y :: y in s <==> y in t
  {
    forall y ensures y in s <==> y in t { assert y in multiset(s) <==> y in multiset(t); }
  }

  /** The sort is stable, so it neither makes nor removes such a pair. */
  lemma {:induction false} SortKeepsNegativesFirst(s: seq<Obs>, descending: bool)
    ensures NegativesFirst(SortByScore(s, descending)) <==> NegativesFirst(s)
  {
    if s != [] {
      var t := SortByScore(s[1..], descending);
      SortKeepsNegativesFirst(s[1..], descending);
      InsertKeepsNegativesFirst(s[0], t, descending);
      assert ([s[0]] + t)[1..] == t;
      SameMembers(t, s[1..]);
    }
  }

  /** Up to the start of its run of negatives a point keeps its recall and gains threshold. */
  lemma {:induction false} NegativePointIsBeaten(s: seq<Obs>, nPos: int, nNeg: int, k: nat) returns (j: nat)
    requires Sorted(s, true) && NegativesFirst(s) && 0 < k <= |s| && !s[k - 1].pos
    requires nPos > 0 && nNeg > 0
    ensures j < k
    ensures var p, q := PointAt(s, nPos, nNeg, j), PointAt(s, nPos, nNeg, k);
            p.tpr == q.tpr && p.fpr <= q.fpr && !AtLeastThr(q.thr, p.thr)
  {
    j := k - 1;
    CountStep(s, j);
    RatioOrder(Negatives(s[..j]), Negatives(s[..k]), nNeg);
    if j > 0 {
      assert Ahead(s[j - 1], s[j], true);
      if s[j - 1].score == s[j].score {
        NegativesFirstMeans(s);
        j := NegativePointIsBeaten(s, nPos, nNeg, k - 1);
      }
    }
  }

  /** The chosen threshold measures within budget, with exactly the promised recall. */
  ghost predicate KeepsItsPromise(data: seq<Obs>, pts: seq<RocPoint>, budget: real)
    requires Positives(data) > 0 && Negatives(data) > 0
  {
    && ThresholdAtFpr(pts, budget).Some?
    && var thr := ThresholdAtFpr(pts, budget).value;
    && Ratio(Sum(data, Alarms(thr)), Negatives(data)) <= budget
    && Some(Ratio(Sum(data, Hits(thr)), Positives(data))) == RecallAtFpr(pts, budget)
  }

  lemma ThresholdKeepsItsPromise(data: seq<Obs>, pts: seq<RocPoint>, budget: real)
    requires NegativesFirst(data) && budget >= 0.0
    requires Positives(data) > 0 && Negatives(data) > 0
    requires ArePoints(pts, SortByScore(data, true), Positives(data), Negatives(data))
    ensures KeepsItsPromise(data, pts, budget)
  {
    var s := SortByScore(data, true);
    SortSorts(data, true);
    SortKeepsNegativesFirst(data, true);
    var k := BestCutsItself(s, Positives(data), Negatives(data), pts, budget);
    CutCounts(data, s, k, pts[k].thr);
  }

  /** Where negatives come first, the chosen point flags exactly its own examples. */
  lemma BestCutsItself(s: seq<Obs>, nPos: int, nNeg: int, pts: seq<RocPoint>, budget: real) returns (k: nat)
    requires Sorted(s, true) && NegativesFirst(s) && nPos > 0 && nNeg > 0 && budget >= 0.0
    requires ArePoints(pts, s, nPos, nNeg)
    ensures k < |pts| && Best(pts, budget) == Some(pts[k]) && CutsAt(s, k, pts[k].thr)
  {
    assert s[..0] == [];
    assert pts[0].fpr == 0.0 && pts[0] in pts;
    k :| 0 <= k < |pts| && pts[k] == Best(pts, budget).value;
    if 0 < k < |s| && s[k].score == s[k - 1].score { MidRunIsNotBest(s, nPos, nNeg, pts, budget, k); }
    PointCutsItself(s, nPos, nNeg, k);
  }

  /** A point in the middle of a run of tied examples is beaten by another within the same budget. */
  lemma MidRunIsNotBest(s: seq<Obs>, nPos: int, nNeg: int, pts: seq<RocPoint>, budget: real, k: nat)
    requires Sorted(s, true) && NegativesFirst(s) && nPos > 0 && nNeg > 0
    requires ArePoints(pts, s, nPos, nNeg)
    requires 0 < k < |s| && s[k].score == s[k - 1].score
    ensures Best(pts, budget) != Some(pts[k])
  {
    if pts[k].fpr <= budget {
      if s[k].pos {
        CountStep(s, k);
        RatioOrder(Positives(s[..k]), Positives(s[..k + 1]), nPos);
        assert pts[k + 1] in pts && pts[k + 1].fpr <= budget && !AtLeast(pts[k], pts[k + 1]);
      } else {
        NegativesFirstMeans(s);
        var j := NegativePointIsBeaten(s, nPos, nNeg, k);
        assert pts[j] in pts && pts[j].fpr <= budget && !AtLeast(pts[k], pts[j]);
      }
    }
  }

  /** Where some positive is followed by a tied negative, two neighbours are such a pair. */
  lemma AdjacentPair(s: seq<Obs>) returns (k: nat)
    requires Sorted(s, true) && !NegativesFirst(s)
    ensures 0 < k < |s| && s[k - 1].pos && !s[k].pos && s[k - 1].score == s[k].score
  {
    NegativesFirstMeans(s);
    var i, j :| 0 <= i < j < |s| && s[i].score == s[j].score && s[i].pos && !s[j].pos;
    k := j;
    while !s[k - 1].pos
      invariant i < k <= j && !s[k].pos && s[k].score == s[i].score
      decreases k
    {
      k := k - 1;
      assert Ahead(s[i], s[k], true) && Ahead(s[k], s[j], true);
    }
    assert k - 1 == i || (Ahead(s[i], s[k - 1], true) && Ahead(s[k - 1], s[k], true));
  }

  /** A budget that reaches just such a pair chooses the point between the two. */
  lemma ChosenBetween(s: seq<Obs>, nPos: int, nNeg: int, pts: seq<RocPoint>, k: nat)
    requires nPos > 0 && nNeg > 0 && ArePoints(pts, s, nPos, nNeg)
    requires 0 < k < |s| && s[k - 1].pos && !s[k].pos
    ensures Best(pts, pts[k].fpr) == Some(pts[k])
  {
    var budget := pts[k].fpr;
    assert pts[k] in pts;
    var best := Best(pts, budget).value;
    var m :| 0 <= m < |pts| && pts[m] == best;
    CountStep(s, k - 1);
    CountStep(s, k);
    if m > k {
      MoreCounts(s, k + 1, m);
      RatioOrder(Negatives(s[..k]), Negatives(s[..m]), nNeg);
    } else if m < k {
      MoreCounts(s, m, k - 1);
      RatioOrder(Positives(s[..m]), Positives(s[..k]), nPos);
    }
  }

  /** The threshold keeps its promise at every budget if and only if no positive is followed, in the order
      given, by a negative of the same score; in particular when no positive ties a negative. */
  lemma PromiseHoldsIff(data: seq<Obs>, pts: seq<RocPoint>)
    requires Positives(data) > 0 && Negatives(data) > 0
    requires ArePoints(pts, SortByScore(data, true), Positives(data), Negatives(data))
    ensures (forall budget :: budget >= 0.0 ==> KeepsItsPromise(data, pts, budget)) <==> NegativesFirst(data)
    ensures NoCrossTies(data) ==> NegativesFirst(data)
  {
    NegativesFirstMeans(data);
    if NegativesFirst(data) {
      forall budget | budget >= 0.0 ensures KeepsItsPromise(data, pts, budget) {
        ThresholdKeepsItsPromise(data, pts, budget);
      }
    } else {
      var budget := PromiseFails(data, pts);
      assert budget >= 0.0 && !KeepsItsPromise(data, pts, budget);
    }
  }

  lemma PromiseFails(data: seq<Obs>, pts: seq<RocPoint>) returns (budget: real)
    requires Positives(data) > 0 && Negatives(data) > 0 && !NegativesFirst(data)
    requires ArePoints(pts, SortByScore(data, true), Positives(data), Negatives(data))
    ensures budget >= 0.0 && !KeepsItsPromise(data, pts, budget)
  {
    var s := SortByScore(data, true);
    SortSorts(data, true);
    SortKeepsNegativesFirst(data, true);
    var k := AdjacentPair(s);
    budget := pts[k].fpr;
    NonNegativeFpr(s, Positives(data), Negatives(data), k);
    PromiseFailsAt(data, s, pts, k);
  }

  lemma NonNegativeFpr(s: seq<Obs>, nPos: int, nNeg: int, k: nat)
    requires k <= |s| && nPos > 0 && nNeg > 0
    ensures PointAt(s, nPos, nNeg, k).fpr >= 0.0
  {
    CountsAreCounts(s[..k]);
    RatioOrder(Negatives(s[..k]), 0, nNeg);
    assert Ratio(0, nNeg) == 0.0;
  }

  lemma PromiseFailsAt(data: seq<Obs>, s: seq<Obs>, pts: seq<RocPoint>, k: nat)
    requires Positives(data) > 0 && Negatives(data) > 0
    requires multiset(data) == multiset(s) && Sorted(s, true) && ArePoints(pts, s, Positives(data), Negatives(data))
    requires 0 < k < |s| && s[k - 1].pos && !s[k].pos && s[k - 1].score == s[k].score
    ensures !KeepsItsPromise(data, pts, pts[k].fpr)
  {
    ChosenBetween(s, Positives(data), Negatives(data), pts, k);
    ExtraAlarm(data, s, k);
    RatioOrder(Negatives(s[..k]), Sum(data, Alarms(At(s[k - 1].score))), Negatives(data));
  }

  /** The threshold between two tied examples flags the second as well. */
  lemma ExtraAlarm(data: seq<Obs>, s: seq<Obs>, k: nat)
    requires multiset(data) == multiset(s) && Sorted(s, true)
    requires 0 < k < |s| && !s[k].pos && s[k - 1].score == s[k].score
    ensures Sum(data, Alarms(At(s[k - 1].score))) > Negatives(s[..k])
  {
    var thr := At(s[k - 1].score);
    var e := EveryThresholdCuts(s, thr);
    assert Flagged(s[k], thr);
    assert e > k;
    CutCounts(data, s, e, thr);
    CountStep(s, k);
    MoreCounts(s, k + 1, e);
  }

  /** The last point within budget with the recall and threshold that were chosen. */
  ghost predicate IsChosen(pts: seq<RocPoint>, budget: real, k: nat) {
    && Best(pts, budget).Some? && k < |pts| && Chosen(pts, budget, k)
    && forall m :: k < m < |pts| ==> !Chosen(pts, budget, m)
  }

  predicate Chosen(pts: seq<RocPoint>, budget: real, k: nat)
    requires Best(pts, budget).Some? && k < |pts|
  {
    var best := Best(pts, budget).value;
    pts[k].fpr <= budget && pts[k].tpr == best.tpr && pts[k].thr == best.thr
  }

  lemma ChosenExists(pts: seq<RocPoint>, budget: real) returns (k: nat)
    requires Best(pts, budget).Some?
    ensures IsChosen(pts, budget, k)
  {
    var first :| 0 <= first < |pts| && pts[first] == Best(pts, budget).value;
    k := |pts| - 1;
    while !Chosen(pts, budget, k)
      invariant first <= k < |pts|
      invariant forall m :: k < m < |pts| ==> !Chosen(pts, budget, m)
      decreases k
    {
      k := k - 1;
    }
  }

  /** For one budget: the promise is kept if and only if the example after the chosen point does not tie with
      the last one it flags. */
  lemma PromiseAtBudgetIff(data: seq<Obs>, pts: seq<RocPoint>, budget: real, k: nat)
    requires Positives(data) > 0 && Negatives(data) > 0
    requires ArePoints(pts, SortByScore(data, true), Positives(data), Negatives(data))
    requires IsChosen(pts, budget, k)
    ensures var s := SortByScore(data, true);
            KeepsItsPromise(data, pts, budget) <==> k == 0 || k == |s| || s[k].score != s[k - 1].score
  {
    var nPos, nNeg := Positives(data), Negatives(data);
    var s := SortByScore(data, true);
    SortSorts(data, true);
    PointCutsItself(s, nPos, nNeg, k);
    if k == 0 || k == |s| || s[k].score != s[k - 1].score {
      CutCounts(data, s, k, pts[k].thr);
    } else {
      TieAfterChosen(s, nPos, nNeg, pts, budget, k);
      ExtraAlarm(data, s, k);
      CountStep(s, k);
      RatioOrder(Negatives(s[..k + 1]), Sum(data, Alarms(pts[k].thr)), nNeg);
      RatioOrder(Sum(data, Alarms(pts[k].thr)), Negatives(s[..k + 1]), nNeg);
    }
  }

  /** A tie right after the chosen point is a negative that the budget has no room for. */
  lemma TieAfterChosen(s: seq<Obs>, nPos: int, nNeg: int, pts: seq<RocPoint>, budget: real, k: nat)
    requires nPos > 0 && nNeg > 0 && ArePoints(pts, s, nPos, nNeg)
    requires IsChosen(pts, budget, k) && 0 < k < |s| && s[k].score == s[k - 1].score
    ensures !s[k].pos && pts[k + 1].fpr > budget
  {
    CountStep(s, k);
    assert pts[k + 1] in pts && !Chosen(pts, budget, k + 1);
    RatioOrder(Positives(s[..k]), Positives(s[..k + 1]), nPos);
  }

  /** With ties of any kind the chosen threshold never promises recall it does not deliver: all that
      can go wrong is the budget, and within budget the promised recall is measured exactly. */
  lemma OnlyTheBudgetCanBreak(data: seq<Obs>, pts: seq<RocPoint>, budget: real)
    requires Positives(data) > 0 && Negatives(data) > 0
    requires ArePoints(pts, SortByScore(data, true), Positives(data), Negatives(data))
    requires ThresholdAtFpr(pts, budget).Some?
    ensures var thr := ThresholdAtFpr(pts, budget).value;
            var measured := Ratio(Sum(data, Hits(thr)), Positives(data));
            && measured >= RecallAtFpr(pts, budget).value
            && (Ratio(Sum(data, Alarms(thr)), Negatives(data)) <= budget ==>
                  measured == RecallAtFpr(pts, budget).value)
  {
    var s := SortByScore(data, true);
    SortSorts(data, true);
    var best := Best(pts, budget).value;
    var k :| 0 <= k < |pts| && pts[k] == best;
    var e := EveryThresholdCuts(s, best.thr);
    if k > 0 { assert forall i :: 0 <= i < k - 1 ==> Ahead(s[i], s[k - 1], true); }
    assert k <= e;
    CutCounts(data, s, e, best.thr);
    MoreCounts(s, k, e);
    RatioOrder(Sum(data, Hits(best.thr)), Positives(s[..k]), Positives(data));
    if Ratio(Sum(data, Alarms(best.thr)), Negatives(data)) <= budget {
      RecallIsOptimal(data, pts, budget, best.thr);
    }
  }

  lemma MoreCounts(s: seq<Obs>, k: nat, e: nat)
    requires k <= e <= |s|
    ensures Positives(s[..k]) <= Positives(s[..e]) && Negatives(s[..k]) <= Negatives(s[..e])
  {
    assert s[..e] == s[..k] + s[k..e];
    SumOfConcat(s[..k], s[k..e], IsPos());
    SumOfConcat(s[..k], s[k..e], IsNeg());
    CountsAreCounts(s[k..e]);
  }

  /** Witness: with a tied pair, positive first, and no budget at all, the chosen threshold still
      flags the negative. */
  lemma TiesBreakThePromise(pts: seq<RocPoint>)
    requires ArePoints(pts, SortByScore([Obs(0.5, true), Obs(0.5, false)], true), 1, 1)
    ensures ThresholdAtFpr(pts, 0.0) == Some(At(0.5)) && RecallAtFpr(pts, 0.0) == Some(1.0)
    ensures Sum([Obs(0.5, true), Obs(0.5, false)], Alarms(At(0.5))) == 1
  {
    var p, n := Obs(0.5, true), Obs(0.5, false);
    var data := [p, n];
    assert data[1..] == [n] && [n][1..] == [];
    assert SortByScore([n], true) == [n];
    assert SortByScore(data, true) == data;
    assert data[..0] == [] && data[..1] == [p] && data[..2] == data && [p][1..] == [];
    assert pts[0] == RocPoint(0.0, 0.0, Infinity) && pts[1] == RocPoint(0.0, 1.0, At(0.5));
    assert pts[2] == RocPoint(1.0, 1.0, At(0.5));
    assert pts[1] in pts;
    assert forall q :: q in pts ==> q == pts[0] || q == pts[1] || q == pts[2];
  }
}
