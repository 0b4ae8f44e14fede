/** The decision stages of `core/risk.py` that follow a cache miss: symbolic veto, fast path, threshold
    cascade, arbitration of the ambiguous band, and the background confirmation. */
module RiskDecision {
  import opened Common
  import opened Fusion

  datatype Settings = Settings(metaThreshold: real, enforcing: bool, high: real, medium: real, mayClearToLow: bool)

  datatype Signals = Signals(metaIntent: real, threat: real, educational: bool, domainAligned: Option<bool>,
                             fused: Fused)

  datatype Topicality = IN_DOMAIN | OUT_OF_DOMAIN | UNKNOWN

  datatype Source =
    | SymbolicRule | FastMetaIntent | FastAnchorCritical
    | SemanticMetaIntent | DomainGuardrail
    | FusionCritical | FusionSafeHarbor | FusionPending | FusionClean
    | VectorCritical | SafeHarbor | Pending | Clean
    | Guard | GuardRestricted | GuardCapped | GuardOverride
    | Judge | JudgeRestricted | JudgeCapped | JudgeOverride | JudgeAmbiguous | JudgeFailure

  datatype Decision = Decision(risk: Risk, source: Source, judgeRequired: bool, topicality: Topicality)

  /** What the judge says; any text it does not recognise, and any failure, is `Other`. */
  datatype Verdict = SAFE | DANGEROUS | AMBIGUOUS | Other(text: string)

  /** Llama Guard: not asked or failed, or a verdict that is `unsafe` or not. */
  datatype GuardAnswer = NoAnswer | Unsafe | NotUnsafe

  datatype Arbiters = Arbiters(guard: GuardAnswer, judge: Verdict)

  /** In-request arbitration by both arbiters, or by the judge alone with Llama Guard afterwards. */
  datatype Mode = Sync | Async

  // ---- The score that decides, and its thresholds ----

  function Score(s: Signals): real { if s.fused.Available? then s.fused.score else s.threat }
  function High(c: Settings, s: Signals): real { if s.fused.Available? then s.fused.high else c.high }
  function Medium(c: Settings, s: Signals): real { if s.fused.Available? then s.fused.medium else c.medium }

  function Topic(s: Signals): Topicality {
    match s.domainAligned
    case None => UNKNOWN
    case Some(aligned) => if aligned then IN_DOMAIN else OUT_OF_DOMAIN
  }

  predicate Vetoed(c: Settings, s: Signals) { s.metaIntent >= c.metaThreshold }
  predicate OffTopic(c: Settings, s: Signals) { c.enforcing && Topic(s) == OUT_OF_DOMAIN }

  // ---- Stage 3 ----

  function FuseSignals(c: Settings, s: Signals): Decision {
    var topic := Topic(s);
    if s.metaIntent >= c.metaThreshold then Decision(HIGH, SemanticMetaIntent, false, topic)
    else if c.enforcing && topic == OUT_OF_DOMAIN then Decision(MEDIUM, DomainGuardrail, false, topic)
    else if s.fused.Available? then
      if s.fused.score >= s.fused.high then Decision(HIGH, FusionCritical, false, topic)
      else if s.fused.score >= s.fused.medium then
        if s.educational then Decision(MEDIUM, FusionSafeHarbor, false, topic)
        else Decision(MEDIUM, FusionPending, true, topic)
      else Decision(LOW, FusionClean, false, topic)
    else if s.threat >= c.high then Decision(HIGH, VectorCritical, false, topic)
    else if s.threat >= c.medium then
      if s.educational then Decision(MEDIUM, SafeHarbor, false, topic)
      else Decision(MEDIUM, Pending, true, topic)
    else Decision(LOW, Clean, false, topic)
  }

  /** Both branches of stage 3 are one cascade over whichever score is in force. */
  lemma FuseIsTheCascade(c: Settings, s: Signals)
    ensures !Vetoed(c, s) && !OffTopic(c, s) ==> FuseSignals(c, s).risk == Cascade(Score(s), High(c, s), Medium(c, s))
    ensures FuseSignals(c, s).judgeRequired <==>
              !Vetoed(c, s) && !OffTopic(c, s) && !s.educational && Medium(c, s) <= Score(s) < High(c, s)
  {
  }

  // ---- Stage 4 ----

  function InUpperBand(score: real, medium: real, high: real): bool {
    var band := high - medium;
    if band <= 0.0 then true else score >= medium + band / 2.0
  }

  /** None when Llama Guard gave no answer. */
  function GuardArbitration(c: Settings, guard: GuardAnswer, threatPresent: bool): Option<(Risk, Source)> {
    match guard
    case NoAnswer => None
    case Unsafe => Some((HIGH, Guard))
    case NotUnsafe =>
      if threatPresent || !c.mayClearToLow then Some((MEDIUM, if threatPresent then GuardRestricted else GuardCapped))
      else Some((LOW, GuardOverride))
  }

  function JudgeArbitration(c: Settings, verdict: Verdict, threatPresent: bool): (Risk, Source) {
    match verdict
    case DANGEROUS => (HIGH, Judge)
    case SAFE =>
      if threatPresent || !c.mayClearToLow then (MEDIUM, if threatPresent then JudgeRestricted else JudgeCapped)
      else (LOW, JudgeOverride)
    case AMBIGUOUS => (MEDIUM, JudgeAmbiguous)
    case Other(_) => (HIGH, JudgeFailure)
  }

  /** Stages 3 and 4. */
  function DeepPath(c: Settings, s: Signals, a: Arbiters, mode: Mode): (Risk, Source) {
    var d := FuseSignals(c, s);
    if !d.judgeRequired then (d.risk, d.source)
    else
      var threatPresent :=
        if s.fused.Available? then InUpperBand(s.fused.score, s.fused.medium, s.fused.high)
        else InUpperBand(s.threat, c.medium, c.high);
      match mode
      case Async => JudgeArbitration(c, a.judge, threatPresent)
      case Sync =>
        match GuardArbitration(c, a.guard, threatPresent)
        case Some(r) => r
        case None => JudgeArbitration(c, a.judge, threatPresent)
  }

  /** What the background confirmation leaves in the cache for the prompt; it runs only after an
      asynchronous arbitration. */
  function Confirmed(c: Settings, fast: Risk, guard: GuardAnswer): Risk {
    match GuardArbitration(c, guard, fast != LOW)
    case None => fast
    case Some((risk, _)) => if risk == HIGH && fast != HIGH then HIGH else fast
  }

  /** The cached verdict once everything a request started has run. */
  function Settled(c: Settings, s: Signals, a: Arbiters, mode: Mode): Risk {
    var served := DeepPath(c, s, a, mode).0;
    if mode == Async && FuseSignals(c, s).judgeRequired then Confirmed(c, served, a.guard) else served
  }

  // ---- What can come out LOW ----

  /** Below both thresholds: nothing fired. */
  predicate CleanPass(c: Settings, s: Signals) {
    !Vetoed(c, s) && !OffTopic(c, s) && Score(s) < High(c, s) && Score(s) < Medium(c, s)
  }

  /** The lower half of a proper band, outside safe harbour, with clear authority granted. */
  predicate Clearable(c: Settings, s: Signals) {
    && !Vetoed(c, s) && !OffTopic(c, s) && !s.educational && c.mayClearToLow
    && Medium(c, s) <= Score(s) && 2.0 * Score(s) < Medium(c, s) + High(c, s)
  }

  /** The arbiter that speaks is content. */
  predicate Cleared(a: Arbiters, mode: Mode) {
    if mode == Sync && a.guard != NoAnswer then a.guard == NotUnsafe else a.judge == SAFE
  }

  /** Exactly when a prompt that reached the deep path is served LOW. */
  lemma LowIff(c: Settings, s: Signals, a: Arbiters, mode: Mode)
    ensures DeepPath(c, s, a, mode).0 == LOW <==> CleanPass(c, s) || (Clearable(c, s) && Cleared(a, mode))
  {
    FuseIsTheCascade(c, s);
    var m, h, x := Medium(c, s), High(c, s), Score(s);
    if m <= x < h { assert InUpperBand(x, m, h) <==> 2.0 * x >= m + h; }
  }

  /** LOW is within reach of some arbitration exactly for clean prompts and clearable ones: at or above
      medium it takes the clear authority, whatever arbiters and mode. */
  lemma LowIsReachableIff(c: Settings, s: Signals)
    ensures (exists a: Arbiters, mode: Mode :: DeepPath(c, s, a, mode).0 == LOW) <==> CleanPass(c, s) || Clearable(c, s)
    ensures !c.mayClearToLow && Score(s) >= Medium(c, s) ==>
              forall a: Arbiters, mode: Mode :: DeepPath(c, s, a, mode).0 != LOW && Settled(c, s, a, mode) != LOW
  {
    forall a: Arbiters, mode: Mode
      ensures DeepPath(c, s, a, mode).0 == LOW <==> CleanPass(c, s) || (Clearable(c, s) && Cleared(a, mode))
      ensures Settled(c, s, a, mode) == LOW ==> DeepPath(c, s, a, mode).0 == LOW
    {
      LowIff(c, s, a, mode);
    }
    var content := Arbiters(NotUnsafe, SAFE);
    assert Cleared(content, Sync);
    assert DeepPath(c, s, content, Sync).0 == LOW <==> CleanPass(c, s) || Clearable(c, s);
  }

  // ---- What comes out HIGH ----

  /** The arbiter that speaks objects: Llama Guard when it is asked and answers, otherwise the judge, whose
      failures and unrecognised texts count as objections. */
  predicate Objects(a: Arbiters, mode: Mode) {
    if mode == Sync && a.guard != NoAnswer then a.guard == Unsafe else a.judge == DANGEROUS || a.judge.Other?
  }

  /** Exactly when a prompt that reached the deep path is served HIGH; with LowIff, everything else is MEDIUM. */
  lemma HighIff(c: Settings, s: Signals, a: Arbiters, mode: Mode)
    ensures DeepPath(c, s, a, mode).0 == HIGH <==>
              Vetoed(c, s)
              || (!OffTopic(c, s)
                  && (Score(s) >= High(c, s) || (!s.educational && Score(s) >= Medium(c, s) && Objects(a, mode))))
  {
    FuseIsTheCascade(c, s);
  }

  /** The half of the band a score is in, from its end points: not below the midpoint, or no proper band at all. */
  predicate UpperHalf(c: Settings, s: Signals) {
    High(c, s) <= Medium(c, s) || 2.0 * Score(s) >= Medium(c, s) + High(c, s)
  }

  /** What the recorded source of an arbitrated verdict says: who spoke, and for a capped verdict whether the
      score alone would have restricted it or only the missing clear authority did. */
  lemma SourceOfArbitration(c: Settings, s: Signals, a: Arbiters, mode: Mode)
    requires FuseSignals(c, s).judgeRequired
    ensures var source := DeepPath(c, s, a, mode).1;
            if mode == Sync && a.guard != NoAnswer then
              && (source == Guard <==> a.guard == Unsafe)
              && (source == GuardRestricted <==> a.guard == NotUnsafe && UpperHalf(c, s))
              && (source == GuardCapped <==> a.guard == NotUnsafe && !UpperHalf(c, s) && !c.mayClearToLow)
              && (source == GuardOverride <==> a.guard == NotUnsafe && !UpperHalf(c, s) && c.mayClearToLow)
            else
              && (source == Judge <==> a.judge == DANGEROUS)
              && (source == JudgeFailure <==> a.judge.Other?)
              && (source == JudgeAmbiguous <==> a.judge == AMBIGUOUS)
              && (source == JudgeRestricted <==> a.judge == SAFE && UpperHalf(c, s))
              && (source == JudgeCapped <==> a.judge == SAFE && !UpperHalf(c, s) && !c.mayClearToLow)
              && (source == JudgeOverride <==> a.judge == SAFE && !UpperHalf(c, s) && c.mayClearToLow)
  {
    FuseIsTheCascade(c, s);
    var m, h, x := Medium(c, s), High(c, s), Score(s);
    assert InUpperBand(x, m, h) <==> UpperHalf(c, s);
  }

  /** What the recorded source of any other verdict says: which stage decided, and on which score. */
  lemma SourceOfStageThree(c: Settings, s: Signals)
    ensures var d := FuseSignals(c, s);
            && (d.source == SemanticMetaIntent <==> Vetoed(c, s))
            && (d.source == DomainGuardrail <==> !Vetoed(c, s) && OffTopic(c, s))
            && (d.source in {FusionCritical, FusionSafeHarbor, FusionPending, FusionClean} <==>
                  !Vetoed(c, s) && !OffTopic(c, s) && s.fused.Available?)
            && (d.source in {VectorCritical, SafeHarbor, Pending, Clean} <==>
                  !Vetoed(c, s) && !OffTopic(c, s) && s.fused.Unavailable?)
            && (d.source in {FusionSafeHarbor, SafeHarbor} <==>
                  !Vetoed(c, s) && !OffTopic(c, s) && s.educational && Medium(c, s) <= Score(s) < High(c, s))
            && (d.source in {FusionPending, Pending} <==> d.judgeRequired)
            && (d.source in {FusionCritical, VectorCritical} ==> d.risk == HIGH)
            && (d.source in {FusionClean, Clean} <==> d.risk == LOW)
  {
  }

  /** Topicality is advice: unless the guardrail is enforced, it is reported and changes nothing else. */
  lemma TopicalityIsAdvice(c: Settings, s: Signals, aligned: Option<bool>, a: Arbiters, mode: Mode)
    requires !c.enforcing
    ensures var other := s.(domainAligned := aligned);
            && DeepPath(c, other, a, mode) == DeepPath(c, s, a, mode)
            && FuseSignals(c, other) == FuseSignals(c, s).(topicality := FuseSignals(c, other).topicality)
            && (FuseSignals(c, other).topicality == UNKNOWN <==> aligned.None?)
            && (FuseSignals(c, other).topicality == IN_DOMAIN <==> aligned == Some(true))
  {
  }

  /** The confirmation never lowers the served verdict, and raises it exactly when Llama Guard finds the
      prompt unsafe. */
  lemma ConfirmationOnlyRaises(c: Settings, fast: Risk, guard: GuardAnswer)
    ensures Severity(fast) <= Severity(Confirmed(c, fast, guard))
    ensures Confirmed(c, fast, guard) == if guard == Unsafe then HIGH else fast
  {
  }

  /** What the cache holds in the end: as served, but for prompts that went to the judge and that Llama Guard,
      asked afterwards, finds unsafe. */
  lemma SettledIff(c: Settings, s: Signals, a: Arbiters, mode: Mode)
    ensures Settled(c, s, a, mode) == HIGH <==>
              Vetoed(c, s)
              || (!OffTopic(c, s)
                  && (Score(s) >= High(c, s)
                      || (!s.educational && Score(s) >= Medium(c, s) && (Objects(a, mode) || a.guard == Unsafe))))
    ensures Settled(c, s, a, mode) == LOW <==>
              CleanPass(c, s) || (Clearable(c, s) && Cleared(a, mode) && a.guard != Unsafe)
  {
    HighIff(c, s, a, mode);
    LowIff(c, s, a, mode);
    FuseIsTheCascade(c, s);
  }

  // ---- Order ----

  /** The same prompt with another deciding score. */
  function WithScore(s: Signals, score: real): Signals {
    if s.fused.Available? then s.(fused := s.fused.(score := score)) else s.(threat := score)
  }

  /** A higher score never gives a milder verdict, served or settled, for fixed arbiters; not even across
      the midpoint of the band or with thresholds the wrong way round. */
  lemma RiskIsMonotoneInScore(c: Settings, s: Signals, more: real, a: Arbiters, mode: Mode)
    requires Score(s) <= more
    ensures Severity(DeepPath(c, s, a, mode).0) <= Severity(DeepPath(c, WithScore(s, more), a, mode).0)
    ensures Severity(Settled(c, s, a, mode)) <= Severity(Settled(c, WithScore(s, more), a, mode))
  {
    var t := WithScore(s, more);
    FuseIsTheCascade(c, s);
    FuseIsTheCascade(c, t);
    LowIff(c, s, a, mode);
    LowIff(c, t, a, mode);
  }

  // ---- The whole miss path ----

  function FastPath(c: Settings, s: Signals): Option<(Risk, Source)> {
    if s.metaIntent >= c.metaThreshold then Some((HIGH, FastMetaIntent))
    else if s.threat >= c.high then Some((HIGH, FastAnchorCritical))
    else None
  }

  /** From the cache miss to the served verdict. */
  function Assess(c: Settings, banned: bool, s: Signals, a: Arbiters, mode: Mode): (Risk, Source) {
    if banned then (HIGH, SymbolicRule)
    else
      match FastPath(c, s)
      case Some(r) => r
      case None => DeepPath(c, s, a, mode)
  }

  /** The fast path only ever escalates; its veto is one the deep path makes too, and what it lets through is
      the deep path's alone, where the two HIGH exits it pre-empts are never taken again. */
  lemma FastPathOnlyEscalates(c: Settings, s: Signals, a: Arbiters, mode: Mode)
    ensures Severity(DeepPath(c, s, a, mode).0) <= Severity(Assess(c, false, s, a, mode).0)
    ensures Vetoed(c, s) ==> DeepPath(c, s, a, mode).0 == HIGH
    ensures FastPath(c, s).None? ==> Assess(c, false, s, a, mode) == DeepPath(c, s, a, mode)
    ensures Assess(c, false, s, a, mode).1 !in {SemanticMetaIntent, VectorCritical}
    ensures FastPath(c, s).Some? <==> Vetoed(c, s) || s.threat >= c.high
    ensures Assess(c, true, s, a, mode) == (HIGH, SymbolicRule)
    ensures Assess(c, false, s, a, mode).1 == FastMetaIntent <==> Vetoed(c, s)
    ensures Assess(c, false, s, a, mode).1 == FastAnchorCritical <==> !Vetoed(c, s) && s.threat >= c.high
  {
  }

  /** The fast path's anchor exit agrees with the deep path for every arbiter and mode exactly when the deep
      path is past its own HIGH cutoff unhindered. */
  lemma FastAnchorAgreesIff(c: Settings, s: Signals)
    requires !Vetoed(c, s) && s.threat >= c.high
    ensures (forall a: Arbiters, mode: Mode :: DeepPath(c, s, a, mode).0 == HIGH)
              <==> !OffTopic(c, s) && (s.fused.Available? ==> s.fused.score >= s.fused.high)
  {
    FuseIsTheCascade(c, s);
    var undecided := Arbiters(NoAnswer, AMBIGUOUS);
    assert DeepPath(c, s, undecided, Sync).0 == HIGH <==> FuseSignals(c, s).risk == HIGH;
  }

  /** A prompt close to the threat anchors that the fused detectors call clean: blocked by the fast path,
      passed by the deep path. */
  lemma FastPathIsNotJustEarlier(a: Arbiters, mode: Mode)
    ensures var c := Settings(0.9, false, 0.8, 0.5, false);
            var s := Signals(0.0, 0.85, false, None, Available(0.1, 0.7, 0.4));
            Assess(c, false, s, a, mode).0 == HIGH && DeepPath(c, s, a, mode).0 == LOW
  {
  }

  /** Some class of the tier is in its HIGH band. */
  ghost predicate SomeClassHigh(t: Tier, scores: Scores, sigmoid: real -> real)
    requires Scored(t.features, scores)
  {
    exists i :: 0 <= i < |t.classes| && ClassRisk(t, i, scores, sigmoid) == HIGH
  }

  ghost predicate AllClassesLow(t: Tier, scores: Scores, sigmoid: real -> real)
    requires Scored(t.features, scores)
  {
    forall i :: 0 <= i < |t.classes| ==> ClassRisk(t, i, scores, sigmoid) == LOW
  }

  /** The chosen tier puts the prompt in its HIGH band: some class of it, or its own probability. */
  ghost predicate TierHigh(t: Tier, scores: Scores, perClass: bool, sigmoid: real -> real)
    requires Scored(t.features, scores)
  {
    if perClass && t.classes != [] then SomeClassHigh(t, scores, sigmoid)
    else Probability(t.features, t.policy, scores, sigmoid) >= t.policy.high
  }

  /** The chosen tier finds nothing: none of its classes, or not its own probability. */
  ghost predicate TierLow(t: Tier, scores: Scores, perClass: bool, sigmoid: real -> real)
    requires Scored(t.features, scores)
  {
    if perClass && t.classes != [] then AllClassesLow(t, scores, sigmoid)
    else
      var p := Probability(t.features, t.policy, scores, sigmoid);
      p < t.policy.high && p < t.policy.medium
  }

  lemma TierDecides(t: Tier, scores: Scores, perClass: bool, sigmoid: real -> real, fused: Fused)
    requires TierAnswer(t, scores, perClass, sigmoid, fused)
    ensures fused.Available?
    ensures var r := Cascade(fused.score, fused.high, fused.medium);
            && (r == HIGH <==> TierHigh(t, scores, perClass, sigmoid))
            && (r == LOW <==> TierLow(t, scores, perClass, sigmoid))
  {
    if perClass && t.classes != [] { SeverestDecides(t, scores, sigmoid, fused); }
  }

  /** Stages 2 to 4.  With no tier fully scored the anchors alone decide.  Otherwise the chosen tier does: in its
      HIGH band the verdict is HIGH, below that only an arbiter that objects makes it so, and with no clear
      authority the verdict is LOW exactly when the tier finds nothing. */
  method AssessDeep(c: Settings, s: Signals, artifact: Artifact, detectors: Detectors, perClass: bool,
                    sigmoid: real -> real, a: Arbiters, mode: Mode)
    returns (risk: Risk, source: Source)
    ensures var tiers := AllTiers(artifact);
            var k := Chosen(tiers, detectors);
            && (k == |tiers| ==> (risk, source) == DeepPath(c, s.(fused := Unavailable), a, mode))
            && (k < |tiers| && !OffTopic(c, s) ==>
                  var t, scores := tiers[k], TierScores(tiers[k], s.threat, detectors);
                  && Scored(t.features, scores)
                  && (risk == HIGH <==>
                        Vetoed(c, s) || TierHigh(t, scores, perClass, sigmoid)
                        || (!s.educational && !TierLow(t, scores, perClass, sigmoid) && Objects(a, mode)))
                  && (!c.mayClearToLow && !Vetoed(c, s) ==> (risk == LOW <==> TierLow(t, scores, perClass, sigmoid))))
    ensures OffTopic(c, s) ==>
              (risk, source) == if Vetoed(c, s) then (HIGH, SemanticMetaIntent) else (MEDIUM, DomainGuardrail)
  {
    var fused := FusedThreatScore(artifact, s.threat, detectors, perClass, sigmoid);
    var signals := s.(fused := fused);
    var r := DeepPath(c, signals, a, mode);
    risk, source := r.0, r.1;
    FuseIsTheCascade(c, signals);
    LowIff(c, signals, a, mode);
    HighIff(c, signals, a, mode);
    ghost var tiers := AllTiers(artifact);
    ghost var k := Chosen(tiers, detectors);
    if k < |tiers| {
      TierDecides(tiers[k], TierScores(tiers[k], s.threat, detectors), perClass, sigmoid, fused);
    }
  }

  lemma SeverestDecides(t: Tier, scores: Scores, sigmoid: real -> real, fused: Fused)
    requires Scored(t.features, scores) && MostSevere(t, scores, sigmoid, fused)
    ensures var r := Cascade(fused.score, fused.high, fused.medium);
            (r == HIGH <==> SomeClassHigh(t, scores, sigmoid)) && (r == LOW <==> AllClassesLow(t, scores, sigmoid))
  {
    var r := Cascade(fused.score, fused.high, fused.medium);
    var w :| 0 <= w < |t.classes| && ClassRisk(t, w, scores, sigmoid) == r;
    forall i | 0 <= i < |t.classes|
      ensures (ClassRisk(t, i, scores, sigmoid) == HIGH ==> r == HIGH)
              && (r == LOW ==> ClassRisk(t, i, scores, sigmoid) == LOW)
    {
      assert Severity(ClassRisk(t, i, scores, sigmoid)) <= Severity(r);
    }
  }
}
