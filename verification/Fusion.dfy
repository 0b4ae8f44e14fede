/** Detector fusion of `core/fusion.py`: choosing the richest tier whose detectors all answered, and
    reducing per-class scores to one triple that the later threshold cascade reads correctly. */
module Fusion {
  import opened Common

  type Feature = string
  type Scores = map<Feature, real>
  const ANCHORS := "anchors"

  /** A linear model over standardised features, with its two cutoffs. */
  datatype Policy = Policy(mean: seq<real>, scale: seq<real>, coefficients: seq<real>, intercept: real,
                           high: real, medium: real)

  /** A feature set with its own model and, possibly, one model per attack class. */
  datatype Tier = Tier(features: seq<Feature>, policy: Policy, classes: seq<Policy>)

  /** What fusion hands to the decision: a score with the thresholds it is to be compared with. */
  datatype Fused = Unavailable | Available(score: real, high: real, medium: real)

  // ---- The linear term ----

  /** zip() stops at the shortest of the four lists. */
  function Width(order: seq<Feature>, p: Policy): (w: nat)
    ensures w <= |order| && w <= |p.mean| && w <= |p.scale| && w <= |p.coefficients|
    ensures w == |order| || w == |p.mean| || w == |p.scale| || w == |p.coefficients|
  {
    MinInt(MinInt(|order|, |p.mean|), MinInt(|p.scale|, |p.coefficients|))
  }

  function Term(raw: real, mean: real, scale: real, coefficient: real): real {
    coefficient * (if scale != 0.0 then (raw - mean) / scale else 0.0)
  }

  function Linear(order: seq<Feature>, p: Policy, scores: Scores, n: nat): real
    requires n <= Width(order, p) && forall i :: 0 <= i < n ==> order[i] in scores
  {
    if n == 0 then p.intercept
    else
      var k := n - 1;
      Linear(order, p, scores, k) + Term(scores[order[k]], p.mean[k], p.scale[k], p.coefficients[k])
  }

  /** A feature counts by how many scales it is from its mean, times its coefficient; one without a scale does not
      count. */
  lemma TermIsStandardised(mean: real, scale: real, coefficient: real, deviations: real, raw: real)
    ensures scale != 0.0 ==> Term(mean + scale * deviations, mean, scale, coefficient) == coefficient * deviations
    ensures scale == 0.0 ==> Term(raw, mean, scale, coefficient) == 0.0
  {
    if scale != 0.0 { assert (scale * deviations) / scale == deviations; }
  }

  /** With every feature at its mean only the intercept counts. */
  lemma {:induction false} AtTheMeans(order: seq<Feature>, p: Policy, scores: Scores, n: nat)
    requires n <= Width(order, p) && forall i :: 0 <= i < n ==> order[i] in scores && scores[order[i]] == p.mean[i]
    ensures Linear(order, p, scores, n) == p.intercept
  {
    if n > 0 {
      AtTheMeans(order, p, scores, n - 1);
      var k := n - 1;
      TermIsStandardised(p.mean[k], p.scale[k], p.coefficients[k], 0.0, p.mean[k]);
      assert p.mean[k] + p.scale[k] * 0.0 == p.mean[k];
    }
  }

  ghost predicate Scored(order: seq<Feature>, scores: Scores) { forall i :: 0 <= i < |order| ==> order[i] in scores }

  /** The attack probability under a policy. */
  function Probability(order: seq<Feature>, p: Policy, scores: Scores, sigmoid: real -> real): real
    requires Scored(order, scores)
  {
    sigmoid(Linear(order, p, scores, Width(order, p)))
  }

  method ApplyPolicy(order: seq<Feature>, p: Policy, scores: Scores, sigmoid: real -> real) returns (r: real)
    requires Scored(order, scores)
    ensures r == Probability(order, p, scores, sigmoid)
  {
    var z := p.intercept;
    for i := 0 to Width(order, p)
      invariant z == Linear(order, p, scores, i)
    {
      z := z + Term(scores[order[i]], p.mean[i], p.scale[i], p.coefficients[i]);
    }
    r := sigmoid(z);
  }

  // ---- The threshold cascade ----

  /** HIGH, then MEDIUM, then LOW: the comparison made everywhere a score meets its thresholds. */
  function Cascade(score: real, high: real, medium: real): Risk {
    if score >= high then HIGH else if score >= medium then MEDIUM else LOW
  }

  function Severity(r: Risk): int {
    match r
    case LOW => 0
    case MEDIUM => 1
    case HIGH => 2
  }

  function ClassScore(t: Tier, i: nat, scores: Scores, sigmoid: real -> real): real
    requires i < |t.classes| && Scored(t.features, scores)
  {
    Probability(t.features, t.classes[i], scores, sigmoid)
  }

  function ClassRisk(t: Tier, i: nat, scores: Scores, sigmoid: real -> real): Risk
    requires i < |t.classes| && Scored(t.features, scores)
  {
    Cascade(ClassScore(t, i, scores, sigmoid), t.classes[i].high, t.classes[i].medium)
  }

  /** How far into its own band a score sits. */
  function BandRatio(score: real, high: real): real { if high != 0.0 then score / high else 0.0 }

  /** The order classes are compared in: severity first, then the ratio. */
  predicate Beats(t: Tier, i: nat, j: nat, scores: Scores, sigmoid: real -> real)
    requires i < |t.classes| && j < |t.classes| && Scored(t.features, scores)
  {
    var a, b := Severity(ClassRisk(t, i, scores, sigmoid)), Severity(ClassRisk(t, j, scores, sigmoid));
    || a > b
    || (a == b && BandRatio(ClassScore(t, i, scores, sigmoid), t.classes[i].high)
                  > BandRatio(ClassScore(t, j, scores, sigmoid), t.classes[j].high))
  }

  /** The first of the greatest classes. */
  ghost predicate Wins(t: Tier, winner: nat, scores: Scores, sigmoid: real -> real)
    requires winner < |t.classes| && Scored(t.features, scores)
  {
    && (forall i :: 0 <= i < |t.classes| ==> !Beats(t, i, winner, scores, sigmoid))
    && (forall i :: 0 <= i < winner ==> Beats(t, winner, i, scores, sigmoid))
  }

  /** A score against its HIGH cutoff, as a fraction; one with a cutoff of zero counts as nothing. */
  function Fraction(score: real, high: real): (real, real) { if high == 0.0 then (0.0, 1.0) else (score, high) }

  /** On the scores and cutoffs themselves: a class beats another when its band is more severe, or the same and its
      score the larger part of its own HIGH cutoff. */
  lemma BeatsIff(t: Tier, i: nat, j: nat, scores: Scores, sigmoid: real -> real)
    requires i < |t.classes| && j < |t.classes| && Scored(t.features, scores)
    ensures var (a, p) := Fraction(ClassScore(t, i, scores, sigmoid), t.classes[i].high);
            var (b, q) := Fraction(ClassScore(t, j, scores, sigmoid), t.classes[j].high);
            var x, y := ClassRisk(t, i, scores, sigmoid), ClassRisk(t, j, scores, sigmoid);
            Beats(t, i, j, scores, sigmoid) <==>
              || (x == HIGH && y != HIGH) || (x == MEDIUM && y == LOW)
              || (x == y && (if p * q > 0.0 then a * q > b * p else a * q < b * p))
  {
    RatioAbove(ClassScore(t, i, scores, sigmoid), t.classes[i].high,
               ClassScore(t, j, scores, sigmoid), t.classes[j].high);
  }

  lemma RatioAbove(score: real, high: real, other: real, cutoff: real)
    ensures var ((a, p), (b, q)) := (Fraction(score, high), Fraction(other, cutoff));
            BandRatio(score, high) > BandRatio(other, cutoff)
            <==> if p * q > 0.0 then a * q > b * p else a * q < b * p
  {
    var ((a, p), (b, q)) := (Fraction(score, high), Fraction(other, cutoff));
    CrossMultiplied(BandRatio(score, high), a, p, BandRatio(other, cutoff), b, q);
  }

  lemma CrossMultiplied(x: real, a: real, p: real, y: real, b: real, q: real)
    requires p != 0.0 && q != 0.0 && x * p == a && y * q == b
    ensures x > y <==> if p * q > 0.0 then a * q > b * p else a * q < b * p
  {
    SpreadOut(x, p, y, q);
    SignOfProduct(x - y, p * q);
  }

  lemma SpreadOut(x: real, p: real, y: real, q: real)
    ensures (x * p) * q - (y * q) * p == (x - y) * (p * q)
  {
  }

  lemma SignOfProduct(x: real, p: real)
    requires p != 0.0
    ensures x > 0.0 <==> if p > 0.0 then x * p > 0.0 else x * p < 0.0
  {
  }

  /** A class's score with its own thresholds. */
  function TripleOf(t: Tier, i: nat, scores: Scores, sigmoid: real -> real): Fused
    requires i < |t.classes| && Scored(t.features, scores)
  {
    Available(ClassScore(t, i, scores, sigmoid), t.classes[i].high, t.classes[i].medium)
  }

  lemma Overtakes(t: Tier, i: nat, j: nat, best: nat, scores: Scores, sigmoid: real -> real)
    requires i < |t.classes| && j < |t.classes| && best < |t.classes| && Scored(t.features, scores)
    requires Beats(t, i, best, scores, sigmoid) && !Beats(t, j, best, scores, sigmoid)
    ensures Beats(t, i, j, scores, sigmoid) && !Beats(t, j, i, scores, sigmoid)
  {
  }

  /** The triple of the class that wins; the cascade on it gives the most severe verdict of all. */
  method SelectPerClass(t: Tier, scores: Scores, sigmoid: real -> real) returns (winner: nat, fused: Fused)
    requires t.classes != [] && Scored(t.features, scores)
    ensures winner < |t.classes| && fused == TripleOf(t, winner, scores, sigmoid)
    ensures Wins(t, winner, scores, sigmoid) && MostSevere(t, scores, sigmoid, fused)
  {
    winner := 0;
    var best := ApplyPolicy(t.features, t.classes[0], scores, sigmoid);
    for i := 1 to |t.classes|
      invariant winner < i
      invariant best == ClassScore(t, winner, scores, sigmoid)
      invariant forall j :: 0 <= j < i ==> !Beats(t, j, winner, scores, sigmoid)
      invariant forall j :: 0 <= j < winner ==> Beats(t, winner, j, scores, sigmoid)
    {
      var score := ApplyPolicy(t.features, t.classes[i], scores, sigmoid);
      var severity := Severity(Cascade(score, t.classes[i].high, t.classes[i].medium));
      var bestSeverity := Severity(Cascade(best, t.classes[winner].high, t.classes[winner].medium));
      if severity > bestSeverity
         || (severity == bestSeverity
            && BandRatio(score, t.classes[i].high) > BandRatio(best, t.classes[winner].high)) {
        forall j | 0 <= j < i
          ensures Beats(t, i, j, scores, sigmoid) && !Beats(t, j, i, scores, sigmoid)
        {
          Overtakes(t, i, j, winner, scores, sigmoid);
        }
        winner, best := i, score;
      }
    }
    fused := Available(best, t.classes[winner].high, t.classes[winner].medium);
    WinnerIsMostSevere(t, winner, scores, sigmoid);
  }

  /** Some class is judged as the cascade judges the triple, and none more severely. */
  ghost predicate MostSevere(t: Tier, scores: Scores, sigmoid: real -> real, fused: Fused)
    requires Scored(t.features, scores)
  {
    && fused.Available?
    && (exists i :: 0 <= i < |t.classes| &&
          ClassRisk(t, i, scores, sigmoid) == Cascade(fused.score, fused.high, fused.medium))
    && (forall i :: 0 <= i < |t.classes| ==>
          Severity(ClassRisk(t, i, scores, sigmoid)) <= Severity(Cascade(fused.score, fused.high, fused.medium)))
  }

  lemma WinnerIsMostSevere(t: Tier, winner: nat, scores: Scores, sigmoid: real -> real)
    requires winner < |t.classes| && Scored(t.features, scores)
    requires Wins(t, winner, scores, sigmoid)
    ensures MostSevere(t, scores, sigmoid, TripleOf(t, winner, scores, sigmoid))
  {
    assert ClassRisk(t, winner, scores, sigmoid)
        == Cascade(ClassScore(t, winner, scores, sigmoid), t.classes[winner].high, t.classes[winner].medium);
    forall i | 0 <= i < |t.classes|
      ensures Severity(ClassRisk(t, i, scores, sigmoid)) <= Severity(ClassRisk(t, winner, scores, sigmoid))
    {
      assert !Beats(t, i, winner, scores, sigmoid);
    }
  }

  // ---- Choosing a tier ----

  /** The detectors a tier needs: its features other than the anchor score, which is always there. */
  predicate Needs(t: Tier, name: Feature) { name in t.features && name != ANCHORS }

  /** The policy artifact: missing or rejected when it was loaded, or a floor tier and its upgrades. */
  datatype Artifact = NoPolicy | Artifact(floor: Tier, upgrades: seq<Tier>)

  /** Richest first, the floor last; none without a policy. */
  function AllTiers(artifact: Artifact): seq<Tier> {
    match artifact
    case NoPolicy => []
    case Artifact(floor, upgrades) => upgrades + [floor]
  }

  /** The floor tier is used only when no upgrade is fully scored, and upgrades are tried in their order. */
  lemma FloorIsTheLastResort(floor: Tier, upgrades: seq<Tier>, detectors: Detectors)
    ensures var tiers := AllTiers(Artifact(floor, upgrades));
            var k := Chosen(tiers, detectors);
            && (k < |upgrades| ==> tiers[k] == upgrades[k])
            && (k == |upgrades| <==> FullyScored(floor, detectors)
                                     && forall i :: 0 <= i < |upgrades| ==> !FullyScored(upgrades[i], detectors))
            && (k == |tiers| <==> !FullyScored(floor, detectors)
                                  && forall i :: 0 <= i < |upgrades| ==> !FullyScored(upgrades[i], detectors))
  {
    var tiers := AllTiers(Artifact(floor, upgrades));
    assert forall i :: 0 <= i < |upgrades| ==> tiers[i] == upgrades[i];
    assert tiers[|upgrades|] == floor;
  }

  /** Every detector any tier needs, each once. */
  method UnionRequired(tiers: seq<Tier>) returns (names: seq<Feature>)
    ensures forall n :: n in names <==> exists t :: t in tiers && Needs(t, n)
    ensures Distinct(names)
  {
    names := [];
    for i := 0 to |tiers|
      invariant forall n :: n in names <==> exists t :: t in tiers[..i] && Needs(t, n)
      invariant Distinct(names)
    {
      names := AddFeatures(names, tiers[i]);
      assert tiers[..i + 1] == tiers[..i] + [tiers[i]];
    }
    assert tiers[..|tiers|] == tiers;
  }

  method AddFeatures(seen: seq<Feature>, t: Tier) returns (names: seq<Feature>)
    requires Distinct(seen)
    ensures forall n :: n in names <==> n in seen || Needs(t, n)
    ensures Distinct(names)
  {
    names := seen;
    for i := 0 to |t.features|
      invariant forall n :: n in names <==> n in seen || (n in t.features[..i] && n != ANCHORS)
      invariant Distinct(names)
    {
      assert t.features[..i + 1] == t.features[..i] + [t.features[i]];
      if t.features[i] != ANCHORS && t.features[i] !in names {
        names := names + [t.features[i]];
      }
    }
    assert t.features[..|t.features|] == t.features;
  }

  /** A detector is up when it returns a score. */
  type Detectors = Feature -> Option<real>

  predicate FullyScored(t: Tier, detectors: Detectors) {
    forall i :: 0 <= i < |t.features| && t.features[i] != ANCHORS ==> detectors(t.features[i]).Some?
  }

  /** The place of the richest tier whose detectors all answered. */
  function Chosen(tiers: seq<Tier>, detectors: Detectors): (k: nat)
    ensures k <= |tiers|
    ensures k < |tiers| ==> FullyScored(tiers[k], detectors)
    ensures forall i :: 0 <= i < k ==> !FullyScored(tiers[i], detectors)
  {
    if tiers == [] || FullyScored(tiers[0], detectors) then 0
    else
      var k := Chosen(tiers[1..], detectors);
      assert forall i :: 1 <= i < |tiers| ==> tiers[i] == tiers[1..][i - 1];
      k + 1
  }

  /** Fewer detectors never make the choice richer. */
  lemma LosingDetectorsMovesDown(tiers: seq<Tier>, detectors: Detectors, fewer: Detectors)
    requires forall n :: fewer(n).Some? ==> detectors(n).Some?
    ensures Chosen(tiers, detectors) <= Chosen(tiers, fewer)
  {
    var k := Chosen(tiers, fewer);
    if k < |tiers| { assert FullyScored(tiers[k], detectors); }
  }

  /** Scores every needed detector once; a failed one is left out, never counted as zero. */
  method ScoreAll(names: seq<Feature>, anchor: real, detectors: Detectors) returns (scores: Scores)
    requires ANCHORS !in names
    ensures forall n :: n in scores <==> n == ANCHORS || (n in names && detectors(n).Some?)
    ensures scores[ANCHORS] == anchor
    ensures forall n :: n in names && n in scores ==> detectors(n) == Some(scores[n])
  {
    scores := map[ANCHORS := anchor];
    for i := 0 to |names|
      invariant forall n :: n in scores <==> n == ANCHORS || (n in names[..i] && detectors(n).Some?)
      invariant scores[ANCHORS] == anchor
      invariant forall n :: n in names[..i] && n in scores ==> detectors(n) == Some(scores[n])
    {
      assert names[..i + 1] == names[..i] + [names[i]];
      var r := detectors(names[i]);
      if r.Some? {
        scores := scores[names[i] := r.value];
      }
    }
    assert names[..|names|] == names;
  }

  /** The scores a tier is judged on: the anchor score and what its detectors answered. */
  function TierScores(t: Tier, anchor: real, detectors: Detectors): Scores {
    map n | n in t.features && (n == ANCHORS || detectors(n).Some?) ::
      if n == ANCHORS then anchor else detectors(n).value
  }

  ghost predicate ScoresOf(t: Tier, anchor: real, detectors: Detectors, scores: Scores) {
    forall i :: 0 <= i < |t.features| ==>
      var n := t.features[i];
      n in scores && (if n == ANCHORS then scores[n] == anchor else detectors(n) == Some(scores[n]))
  }

  /** Only the tier's own features matter. */
  lemma {:induction false} SameLinear(order: seq<Feature>, p: Policy, scores: Scores, others: Scores, n: nat)
    requires n <= Width(order, p)
    requires forall i :: 0 <= i < n ==> order[i] in scores && order[i] in others && scores[order[i]] == others[order[i]]
    ensures Linear(order, p, scores, n) == Linear(order, p, others, n)
  {
    if n > 0 { SameLinear(order, p, scores, others, n - 1); }
  }

  lemma JudgedOnTierScores(t: Tier, p: Policy, anchor: real, detectors: Detectors, scores: Scores,
                           sigmoid: real -> real)
    requires ScoresOf(t, anchor, detectors, scores)
    ensures Scored(t.features, scores) && Scored(t.features, TierScores(t, anchor, detectors))
    ensures Probability(t.features, p, scores, sigmoid)
            == Probability(t.features, p, TierScores(t, anchor, detectors), sigmoid)
  {
    var own := TierScores(t, anchor, detectors);
    forall i | 0 <= i < |t.features| ensures t.features[i] in own && scores[t.features[i]] == own[t.features[i]] {
      assert t.features[i] in t.features;
    }
    SameLinear(t.features, p, scores, own, Width(t.features, p));
  }

  lemma SameWinner(t: Tier, winner: nat, anchor: real, detectors: Detectors, scores: Scores, sigmoid: real -> real)
    requires ScoresOf(t, anchor, detectors, scores) && Scored(t.features, scores)
    requires winner < |t.classes| && Wins(t, winner, scores, sigmoid)
    ensures Scored(t.features, TierScores(t, anchor, detectors))
    ensures TripleOf(t, winner, scores, sigmoid) == TripleOf(t, winner, TierScores(t, anchor, detectors), sigmoid)
    ensures Wins(t, winner, TierScores(t, anchor, detectors), sigmoid)
  {
    var own := TierScores(t, anchor, detectors);
    JudgedOnTierScores(t, t.policy, anchor, detectors, scores, sigmoid);
    forall i | 0 <= i < |t.classes| ensures ClassScore(t, i, scores, sigmoid) == ClassScore(t, i, own, sigmoid) {
      JudgedOnTierScores(t, t.classes[i], anchor, detectors, scores, sigmoid);
    }
    forall i, j | 0 <= i < |t.classes| && 0 <= j < |t.classes|
      ensures Beats(t, i, j, scores, sigmoid) <==> Beats(t, i, j, own, sigmoid)
    {
    }
  }

  /** What the chosen tier has to answer: under per-class scoring the triple of the winning class, on which the
      cascade gives the most severe verdict of all; otherwise its own probability and thresholds. */
  ghost predicate TierAnswer(t: Tier, scores: Scores, perClass: bool, sigmoid: real -> real, fused: Fused) {
    && Scored(t.features, scores)
    && (if perClass && t.classes != [] then
          && MostSevere(t, scores, sigmoid, fused)
          && exists w :: 0 <= w < |t.classes| && Wins(t, w, scores, sigmoid) && fused == TripleOf(t, w, scores, sigmoid)
        else fused == Available(Probability(t.features, t.policy, scores, sigmoid), t.policy.high, t.policy.medium))
  }

  /** One tier, all of whose detectors answered. */
  method ScoreTier(t: Tier, perClass: bool, sigmoid: real -> real, values: Scores, ghost anchor: real,
                   ghost detectors: Detectors)
    returns (fused: Fused)
    requires ScoresOf(t, anchor, detectors, values) && Scored(t.features, values)
    ensures fused.Available? && TierAnswer(t, TierScores(t, anchor, detectors), perClass, sigmoid, fused)
  {
    JudgedOnTierScores(t, t.policy, anchor, detectors, values, sigmoid);
    if perClass && |t.classes| > 0 {
      var winner;
      winner, fused := SelectPerClass(t, values, sigmoid);
      SameWinner(t, winner, anchor, detectors, values, sigmoid);
      WinnerIsMostSevere(t, winner, TierScores(t, anchor, detectors), sigmoid);
    } else {
      var p := ApplyPolicy(t.features, t.policy, values, sigmoid);
      fused := Available(p, t.policy.high, t.policy.medium);
    }
  }

  /** What fusion promises: no answer exactly when not even the floor tier is fully scored, otherwise the
      answer of the richest fully scored tier. */
  ghost predicate FusionAnswer(tiers: seq<Tier>, anchor: real, detectors: Detectors, perClass: bool,
                               sigmoid: real -> real, fused: Fused)
  {
    var k := Chosen(tiers, detectors);
    if k == |tiers| then fused == Unavailable
    else fused.Available? && TierAnswer(tiers[k], TierScores(tiers[k], anchor, detectors), perClass, sigmoid, fused)
  }

  method FusedThreatScore(artifact: Artifact, anchor: real, detectors: Detectors, perClass: bool, sigmoid: real -> real)
    returns (fused: Fused)
    ensures FusionAnswer(AllTiers(artifact), anchor, detectors, perClass, sigmoid, fused)
    ensures artifact.NoPolicy? ==> fused == Unavailable
  {
    if artifact.NoPolicy? {
      return Unavailable;
    }
    var tiers := AllTiers(artifact);
    var names := UnionRequired(tiers);
    var values := ScoreAll(names, anchor, detectors);
    var k := RichestScored(tiers, names, anchor, detectors, values);
    if k == |tiers| {
      return Unavailable;
    }
    fused := ScoreTier(tiers[k], perClass, sigmoid, values, anchor, detectors);
  }

  /** Tries the tiers in order: the first whose features all have a score, or the number of tiers. */
  method RichestScored(tiers: seq<Tier>, ghost names: seq<Feature>, ghost anchor: real, ghost detectors: Detectors,
                       values: Scores)
    returns (k: nat)
    requires forall n :: n in names <==> exists t :: t in tiers && Needs(t, n)
    requires forall n :: n in values <==> n == ANCHORS || (n in names && detectors(n).Some?)
    requires ANCHORS in values && values[ANCHORS] == anchor
    requires forall n :: n in names && n in values ==> detectors(n) == Some(values[n])
    ensures k == Chosen(tiers, detectors)
    ensures k < |tiers| ==> Scored(tiers[k].features, values) && ScoresOf(tiers[k], anchor, detectors, values)
  {
    k := 0;
    while k < |tiers|
      invariant k <= Chosen(tiers, detectors) <= |tiers|
    {
      var features := tiers[k].features;
      if forall j :: 0 <= j < |features| && features[j] != ANCHORS ==> features[j] in values {
        TierIsScored(tiers, k, names, anchor, detectors, values);
        return;
      }
      TierIsNotScored(tiers, k, names, detectors, values);
      k := k + 1;
    }
  }

  lemma TierIsScored(tiers: seq<Tier>, i: nat, names: seq<Feature>, anchor: real, detectors: Detectors, values: Scores)
    requires i < |tiers| && forall n :: n in names <==> exists t :: t in tiers && Needs(t, n)
    requires forall n :: n in values <==> n == ANCHORS || (n in names && detectors(n).Some?)
    requires ANCHORS in values && values[ANCHORS] == anchor
    requires forall n :: n in names && n in values ==> detectors(n) == Some(values[n])
    requires forall j :: 0 <= j < |tiers[i].features| && tiers[i].features[j] != ANCHORS ==>
               tiers[i].features[j] in values
    ensures FullyScored(tiers[i], detectors) && Scored(tiers[i].features, values)
    ensures ScoresOf(tiers[i], anchor, detectors, values)
  {
    forall j | 0 <= j < |tiers[i].features| && tiers[i].features[j] != ANCHORS
      ensures tiers[i].features[j] in names
    {
      assert tiers[i] in tiers && Needs(tiers[i], tiers[i].features[j]);
    }
  }

  lemma TierIsNotScored(tiers: seq<Tier>, i: nat, names: seq<Feature>, detectors: Detectors, values: Scores)
    requires i < |tiers| && forall n :: n in names <==> exists t :: t in tiers && Needs(t, n)
    requires forall n :: n in values <==> n == ANCHORS || (n in names && detectors(n).Some?)
    requires exists j :: 0 <= j < |tiers[i].features| &&
               tiers[i].features[j] != ANCHORS && tiers[i].features[j] !in values
    ensures !FullyScored(tiers[i], detectors)
  {
    var j :| 0 <= j < |tiers[i].features| && tiers[i].features[j] != ANCHORS && tiers[i].features[j] !in values;
    assert tiers[i] in tiers && Needs(tiers[i], tiers[i].features[j]);
  }
}
