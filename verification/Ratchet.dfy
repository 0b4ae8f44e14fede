/** The one-way ratchet of `core/risk.py`: an escalation to HIGH is written to the exact
    cache and must never be undone.  Assessments and background confirmations run against
    the shared cache; a request that missed saves its verdict later, in a step of its own. */
module Ratchet {
  import opened Common
  import opened OrderedDicts
  import opened ExactCache

  /** The hash of a prompt is taken to be injective, so a prompt is its own key. */
  type Prompt = Key
  type Request = nat
  datatype Task = Task(prompt: Prompt, served: Risk)

  /** The exact cache, the requests that looked up, missed and have not saved yet, and the scheduled
      background confirmations. */
  datatype System = System(cache: Cache<Risk>, inFlight: map<Request, Prompt>, tasks: set<Task>)

  const TTL := 86400.0

  datatype Step =
    /** Stage 0: the exact tier, then whatever the fuzzy tier answers. */
    | LookUp(request: Request, prompt: Prompt, fuzzy: Option<Risk>, now: real)
    /** Every later exit of an assessment: save the verdict, answer it, perhaps schedule a confirmation. */
    | Save(request: Request, verdict: Risk, scheduled: bool, now: real)
    /** A background confirmation; None when the second opinion is unavailable. */
    | Confirm(task: Task, opinion: Option<Risk>, now: real)
    | FlushCache

  function Write(s: System, maxSize: nat, p: Prompt, risk: Risk, now: real): (c: Cache<Risk>)
    requires s.cache.Valid() && maxSize >= 1
    ensures c.Valid()
  {
    SetSpec(s.cache, maxSize, p, Entry(risk, now, TTL))
  }

  /** One step of the protocol and the verdict it answers, if any. */
  function Next(s: System, maxSize: nat, step: Step): (r: (System, Option<Risk>))
    requires s.cache.Valid() && maxSize >= 1
    ensures r.0.cache.Valid()
  {
    match step
    case LookUp(request, p, fuzzy, now) =>
      var (cache, hit) := GetSpec(s.cache, p, now);
      if hit.Some? then (s.(cache := cache), hit)
      else if fuzzy.Some? then (s.(cache := cache), fuzzy)
      else (s.(cache := cache, inFlight := s.inFlight[request := p]), None)
    case Save(request, verdict, scheduled, now) =>
      if request !in s.inFlight then (s, None)
      else
        var p := s.inFlight[request];
        (System(Write(s, maxSize, p, verdict, now), s.inFlight - {request},
                if scheduled then s.tasks + {Task(p, verdict)} else s.tasks), Some(verdict))
    case Confirm(task, opinion, now) =>
      if task !in s.tasks then (s, None)
      else if opinion == Some(HIGH) && task.served != HIGH then
        (s.(cache := Write(s, maxSize, task.prompt, HIGH, now), tasks := s.tasks - {task}), None)
      else (s.(tasks := s.tasks - {task}), None)
    case FlushCache => (s.(cache := Empty()), None)
  }

  /** The cache holds HIGH for the prompt. */
  predicate Locked(s: System, p: Prompt) { p in s.cache.data && s.cache.data[p].value == HIGH }

  /** What a confirmation writes: an escalation of a milder verdict locks the prompt; anything else leaves the cache
      as it is.  Either way the task is done. */
  lemma ConfirmationEscalates(s: System, maxSize: nat, task: Task, opinion: Option<Risk>, now: real)
    requires s.cache.Valid() && maxSize >= 1 && task in s.tasks
    ensures var (s', answer) := Next(s, maxSize, Confirm(task, opinion, now));
            && answer.None? && task !in s'.tasks && s'.inFlight == s.inFlight
            && (opinion == Some(HIGH) && task.served != HIGH ==>
                  Locked(s', task.prompt) && s'.cache.data[task.prompt].storedAt == now)
            && (opinion != Some(HIGH) || task.served == HIGH ==> s'.cache == s.cache)
  {
  }

  /** What an assessment does: a fresh entry answers, then the fuzzy tier; a miss is in flight until it saves its
      verdict, which is then what the cache holds, and schedules its confirmation if asked to. */
  lemma AssessmentSteps(s: System, maxSize: nat, r: Request, p: Prompt, fuzzy: Option<Risk>, verdict: Risk,
                        scheduled: bool, now: real)
    requires s.cache.Valid() && maxSize >= 1
    ensures var (s1, answer) := Next(s, maxSize, LookUp(r, p, fuzzy, now));
            var cached := p in s.cache.data && now - s.cache.data[p].storedAt < s.cache.data[p].ttl;
            && answer == (if cached then Some(s.cache.data[p].value) else fuzzy)
            && s1.tasks == s.tasks && (Pending(s1, r, p) <==> answer.None? || Pending(s, r, p))
    ensures Pending(s, r, p) ==>
              var (s2, served) := Next(s, maxSize, Save(r, verdict, scheduled, now));
              && served == Some(verdict) && r !in s2.inFlight
              && p in s2.cache.data && s2.cache.data[p] == Entry(verdict, now, 86400.0)
              && s2.tasks == s.tasks + (if scheduled then {Task(p, verdict)} else {})
  {
  }

  /** A flush forgets every verdict: the next lookup of any prompt answers what the fuzzy tier says, or waits.  It
      forgets neither the requests in flight nor the confirmations to come. */
  lemma FlushForgets(s: System, maxSize: nat, r: Request, p: Prompt, fuzzy: Option<Risk>, now: real)
    requires s.cache.Valid() && maxSize >= 1
    ensures var s1 := Next(s, maxSize, FlushCache).0;
            var (s2, answer) := Next(s1, maxSize, LookUp(r, p, fuzzy, now));
            && s1.inFlight == s.inFlight && s1.tasks == s.tasks && !Locked(s1, p)
            && answer == fuzzy && !Locked(s2, p) && (fuzzy.None? ==> Pending(s2, r, p))
  {
  }

  /** A run of the protocol: ss[i] is the system before step i. */
  ghost predicate IsRun(ss: seq<System>, steps: seq<Step>, maxSize: nat) {
    && maxSize >= 1
    && |ss| == |steps| + 1
    && (forall i :: 0 <= i < |ss| ==> ss[i].cache.Valid())
    && forall i :: 0 <= i < |steps| ==> ss[i + 1] == Next(ss[i], maxSize, steps[i]).0
  }

  /** The entry of p is neither expired away, evicted nor flushed during the run. */
  ghost predicate Kept(ss: seq<System>, p: Prompt) { forall i :: 0 <= i < |ss| ==> p in ss[i].cache.data }

  /** A request for p that missed earlier saves less than HIGH. */
  predicate LowerSave(s: System, step: Step, p: Prompt) {
    step.Save? && step.request in s.inFlight && s.inFlight[step.request] == p && step.verdict != HIGH
  }

  predicate Pending(s: System, r: Request, p: Prompt) { r in s.inFlight && s.inFlight[r] == p }

  /** One step on a locked prompt that keeps its entry: it stays locked unless the step is a lower
      save, every lookup of it answers HIGH, and no new request for it gets past the lookup. */
  lemma LockedStep(s: System, maxSize: nat, step: Step, p: Prompt)
    requires s.cache.Valid() && maxSize >= 1 && Locked(s, p)
    requires p in Next(s, maxSize, step).0.cache.data
    ensures Locked(Next(s, maxSize, step).0, p) <==> !LowerSave(s, step, p)
    ensures step.LookUp? && step.prompt == p ==> Next(s, maxSize, step).1 == Some(HIGH)
    ensures forall r :: Pending(Next(s, maxSize, step).0, r, p) ==> Pending(s, r, p)
  {
    match step {
      case LookUp(request, q, fuzzy, now) =>
      case Save(request, verdict, scheduled, now) =>
      case Confirm(task, opinion, now) =>
      case FlushCache =>
    }
  }

  /** The ratchet with lookup and save as separate steps.  While its entry is kept, a prompt once locked
      stays locked through the whole run if and only if no request for it that was already past its
      lookup when it was locked saves a lower verdict. */
  lemma {:induction false} RatchetHoldsIff(ss: seq<System>, steps: seq<Step>, maxSize: nat, p: Prompt)
    requires IsRun(ss, steps, maxSize) && Kept(ss, p) && Locked(ss[0], p)
    ensures (forall i :: 0 <= i < |ss| ==> Locked(ss[i], p))
            <==> (forall i :: 0 <= i < |steps| ==>
                    !(LowerSave(ss[i], steps[i], p) && Pending(ss[0], steps[i].request, p)))
  {
    if forall i :: 0 <= i < |ss| ==> Locked(ss[i], p) {
      forall i | 0 <= i < |steps| ensures !LowerSave(ss[i], steps[i], p) {
        assert Locked(ss[i], p) && Locked(ss[i + 1], p);
        LockedStep(ss[i], maxSize, steps[i], p);
      }
    }
    if forall i :: 0 <= i < |steps| ==> !(LowerSave(ss[i], steps[i], p) && Pending(ss[0], steps[i].request, p)) {
      forall i | 0 <= i < |ss| ensures Locked(ss[i], p) { LockedUpTo(ss, steps, maxSize, p, i); }
    }
  }

  lemma {:induction false} LockedUpTo(ss: seq<System>, steps: seq<Step>, maxSize: nat, p: Prompt, n: nat)
    requires IsRun(ss, steps, maxSize) && Kept(ss, p) && Locked(ss[0], p) && n < |ss|
    requires forall i :: 0 <= i < n ==> !(LowerSave(ss[i], steps[i], p) && Pending(ss[0], steps[i].request, p))
    ensures Locked(ss[n], p)
    ensures forall r :: Pending(ss[n], r, p) ==> Pending(ss[0], r, p)
  {
    if n > 0 {
      var k := n - 1;
      LockedUpTo(ss, steps, maxSize, p, k);
      assert ss[k + 1] == Next(ss[k], maxSize, steps[k]).0 && p in ss[k + 1].cache.data;
      LockedStep(ss[k], maxSize, steps[k], p);
    }
  }

  /** While a prompt is locked and kept, every lookup of it answers HIGH. */
  lemma LockedAnswersHigh(ss: seq<System>, steps: seq<Step>, maxSize: nat, p: Prompt, i: nat)
    requires IsRun(ss, steps, maxSize) && Kept(ss, p) && i < |steps| && Locked(ss[i], p)
    requires steps[i].LookUp? && steps[i].prompt == p
    ensures Next(ss[i], maxSize, steps[i]).1 == Some(HIGH)
  {
    assert ss[i + 1] == Next(ss[i], maxSize, steps[i]).0 && p in ss[i + 1].cache.data;
    LockedStep(ss[i], maxSize, steps[i], p);
  }

  // ---- Assessments as one atomic step ----

  /** An assessment in one piece: look up and, on a miss, save at once. */
  function Assess(s: System, maxSize: nat, request: Request, p: Prompt, fuzzy: Option<Risk>, verdict: Risk,
                  scheduled: bool, now: real): (r: (System, Risk))
    requires s.cache.Valid() && maxSize >= 1
    ensures r.0.cache.Valid()
  {
    var (s1, answer) := Next(s, maxSize, LookUp(request, p, fuzzy, now));
    if answer.Some? then (s1, answer.value)
    else (Next(s1, maxSize, Save(request, verdict, scheduled, now)).0, verdict)
  }

  datatype AtomicStep =
    | Assessment(request: Request, prompt: Prompt, fuzzy: Option<Risk>, verdict: Risk, scheduled: bool, now: real)
    | Confirmation(task: Task, opinion: Option<Risk>, now: real)
    | Flushing

  function AtomicNext(s: System, maxSize: nat, step: AtomicStep): (s': System)
    requires s.cache.Valid() && maxSize >= 1
    ensures s'.cache.Valid()
  {
    match step
    case Assessment(request, p, fuzzy, verdict, scheduled, now) =>
      Assess(s, maxSize, request, p, fuzzy, verdict, scheduled, now).0
    case Confirmation(task, opinion, now) => Next(s, maxSize, Confirm(task, opinion, now)).0
    case Flushing => Next(s, maxSize, FlushCache).0
  }

  ghost predicate IsAtomicRun(ss: seq<System>, steps: seq<AtomicStep>, maxSize: nat) {
    && maxSize >= 1
    && |ss| == |steps| + 1
    && (forall i :: 0 <= i < |ss| ==> ss[i].cache.Valid())
    && forall i :: 0 <= i < |steps| ==> ss[i + 1] == AtomicNext(ss[i], maxSize, steps[i])
  }

  /** No assessment of p finds its entry expired. */
  ghost predicate Unexpired(ss: seq<System>, steps: seq<AtomicStep>, p: Prompt)
    requires |ss| == |steps| + 1
  {
    forall i :: 0 <= i < |steps| && p in ss[i].cache.data && steps[i].Assessment? && steps[i].prompt == p ==>
      !Expired(ss[i].cache.data[p], steps[i].now)
  }

  /** With atomic assessments the ratchet needs no side condition: once locked, a prompt stays locked
      and is answered HIGH until its entry expires, is evicted or is flushed. */
  lemma {:induction false} AtomicRatchet(ss: seq<System>, steps: seq<AtomicStep>, maxSize: nat, p: Prompt, n: nat)
    requires IsAtomicRun(ss, steps, maxSize) && Locked(ss[0], p) && n < |ss|
    requires Kept(ss, p) && Unexpired(ss, steps, p)
    ensures Locked(ss[n], p)
    ensures n < |steps| && steps[n].Assessment? && steps[n].prompt == p ==>
              Assess(ss[n], maxSize, steps[n].request, p, steps[n].fuzzy, steps[n].verdict, steps[n].scheduled,
                     steps[n].now).1 == HIGH
  {
    if n > 0 {
      var k := n - 1;
      AtomicRatchet(ss, steps, maxSize, p, k);
      assert ss[k + 1] == AtomicNext(ss[k], maxSize, steps[k]) && p in ss[k + 1].cache.data;
      AtomicLockedStep(ss[k], maxSize, steps[k], p);
    }
    if n < |steps| {
      assert ss[n + 1] == AtomicNext(ss[n], maxSize, steps[n]) && p in ss[n + 1].cache.data;
      AtomicLockedStep(ss[n], maxSize, steps[n], p);
    }
  }

  lemma AtomicLockedStep(s: System, maxSize: nat, step: AtomicStep, p: Prompt)
    requires s.cache.Valid() && maxSize >= 1 && Locked(s, p)
    requires p in AtomicNext(s, maxSize, step).cache.data
    requires step.Assessment? && step.prompt == p ==> !Expired(s.cache.data[p], step.now)
    ensures Locked(AtomicNext(s, maxSize, step), p)
    ensures step.Assessment? && step.prompt == p ==>
              Assess(s, maxSize, step.request, p, step.fuzzy, step.verdict, step.scheduled, step.now).1 == HIGH
  {
    match step {
      case Assessment(request, q, fuzzy, verdict, scheduled, now) =>
        var look := LookUp(request, q, fuzzy, now);
        var (s1, answer) := Next(s, maxSize, look);
        LockedStep(s, maxSize, look, p);
        if answer.None? { LockedStep(s1, maxSize, Save(request, verdict, scheduled, now), p); }
      case Confirmation(task, opinion, now) => LockedStep(s, maxSize, Confirm(task, opinion, now), p);
      case Flushing =>
    }
  }

  // ---- The race ----

  /** Witness: a request that missed before the escalation finishes after it.  Its lower verdict
      replaces the HIGH, and the next assessment is served that verdict from the cache. */
  lemma LateSaveUndoesEscalation(p: Prompt, s: System)
    requires s == System(Empty(), map[], {})
    ensures var s1 := Next(s, 10, LookUp(1, p, None, 0.0)).0;
            var s2 := Next(s1, 10, LookUp(2, p, None, 0.0)).0;
            var s3 := Next(s2, 10, Save(2, MEDIUM, true, 1.0)).0;
            var s4 := Next(s3, 10, Confirm(Task(p, MEDIUM), Some(HIGH), 2.0)).0;
            var s5 := Next(s4, 10, Save(1, LOW, false, 3.0)).0;
            && Locked(s4, p)
            && Next(s5, 10, LookUp(3, p, None, 4.0)).1 == Some(LOW)
  {
    var s1 := Next(s, 10, LookUp(1, p, None, 0.0)).0;
    assert s1 == System(Empty(), map[1 := p], {});
    var s2 := Next(s1, 10, LookUp(2, p, None, 0.0)).0;
    assert s2 == System(Empty(), map[1 := p, 2 := p], {});
    var s3 := Next(s2, 10, Save(2, MEDIUM, true, 1.0)).0;
    assert s3.inFlight == map[1 := p] && s3.tasks == {Task(p, MEDIUM)};
    var s4 := Next(s3, 10, Confirm(Task(p, MEDIUM), Some(HIGH), 2.0)).0;
    assert s4.inFlight == map[1 := p];
    var s5 := Next(s4, 10, Save(1, LOW, false, 3.0)).0;
    assert s5.cache.data[p] == Entry(LOW, 3.0, TTL);
  }
}
