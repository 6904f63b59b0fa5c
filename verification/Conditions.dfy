/** Pruning jobs and steps by their conditions, in the three passes of the source. */
module Conditions {
  // EvaluateConditions: removing the jobs and steps whose static conditions fail, and every
  // reference to what was removed.

  import opened Prelude
  import opened Graphs
  import opened PipelineModel
  import opened Validate

  datatype Verdict = Holds | Fails | EvalError

  /** What the condition evaluator answers for a job and for a step of a job. */
  datatype Evaluator = Evaluator(job: (Name, When) -> Verdict, step: (Name, Name, When) -> Verdict)

  datatype ConditionError = JobCondition | StepCondition

  datatype ConditionResult = ConditionResult(
    jobs: seq<Job>,
    skipped: seq<Name>,
    skippedSteps: map<Name, seq<Name>>)

  /** Only a present, non-deferred condition is evaluated; everything else holds. */
  function JobVerdict(ev: Evaluator, j: Job): Verdict {
    if j.when.Some? && !j.when.value.deferred then ev.job(j.name, j.when.value) else Holds
  }

  function StepVerdict(ev: Evaluator, n: Name, s: Step): Verdict {
    if s.when.Some? && !s.when.value.deferred then ev.step(n, s.name, s.when.value) else Holds
  }

  /** The condition is there and not left to the run. */
  predicate Asked(w: Option<When>) {
    w.Some? && !w.value.deferred
  }

  predicate JobAnswers(ev: Evaluator, j: Job, v: Verdict) {
    Asked(j.when) && ev.job(j.name, j.when.value) == v
  }

  predicate StepAnswers(ev: Evaluator, n: Name, s: Step, v: Verdict) {
    Asked(s.when) && ev.step(n, s.name, s.when.value) == v
  }

  predicate JobPasses(ev: Evaluator, j: Job) {
    Asked(j.when) ==> JobAnswers(ev, j, Holds)
  }

  predicate StepPasses(ev: Evaluator, n: Name, s: Step) {
    Asked(s.when) ==> StepAnswers(ev, n, s, Holds)
  }

  function CleanArtifacts(artifacts: seq<Artifact>, skipped: set<Name>): seq<Artifact> {
    Where(artifacts, (a: Artifact) => a.from !in skipped)
  }

  function CleanStep(s: Step, skipped: set<Name>): Step {
    s.(artifacts := CleanArtifacts(s.artifacts, skipped))
  }

  function CleanSteps(steps: seq<Step>, skipped: set<Name>): (r: seq<Step>)
    ensures |r| == |steps| && forall i :: 0 <= i < |r| ==> r[i] == CleanStep(steps[i], skipped)
  {
    seq(|steps|, i requires 0 <= i < |steps| => CleanStep(steps[i], skipped))
  }

  /** cleanJobRefs. */
  function CleanJobRefs(j: Job, skipped: set<Name>): Job {
    j.(deps := Where(j.deps, d => d !in skipped),
       artifacts := CleanArtifacts(j.artifacts, skipped),
       steps := CleanSteps(j.steps, skipped))
  }

  function KeptSteps(ev: Evaluator, n: Name, steps: seq<Step>): seq<Step> {
    Where(steps, s => StepVerdict(ev, n, s) == Holds)
  }

  /** A job survives when its own condition and that of at least one of its steps hold. */
  predicate Survives(ev: Evaluator, j: Job) {
    JobVerdict(ev, j) == Holds && KeptSteps(ev, j.name, j.steps) != []
  }

  ghost predicate IsSkipped(ev: Evaluator, jobs: seq<Job>, n: Name) {
    exists j :: j in jobs && j.name == n && !Survives(ev, j)
  }

  function Trim(ev: Evaluator, j: Job): Job {
    j.(steps := KeptSteps(ev, j.name, j.steps))
  }

  /** The reference result: the surviving jobs in order, with their surviving steps, cleaned of all
      references to skipped jobs. */
  function Pruned(ev: Evaluator, jobs: seq<Job>, skipped: set<Name>): seq<Job> {
    if jobs == [] then []
    else var last := jobs[|jobs| - 1];
      Pruned(ev, jobs[..|jobs| - 1], skipped)
      + if Survives(ev, last) then [CleanJobRefs(Trim(ev, last), skipped)] else []
  }

  // ---------------------------------------------------------------- the three phases

  function PassingJobs(ev: Evaluator, jobs: seq<Job>): seq<Job> {
    Where(jobs, j => JobVerdict(ev, j) == Holds)
  }

  function FailingJobs(ev: Evaluator, jobs: seq<Job>): seq<Job> {
    Where(jobs, j => JobAnswers(ev, j, Fails))
  }

  function NameSet(names: seq<Name>): set<Name> {
    set n | n in names
  }

  function JobNames(jobs: seq<Job>): (r: seq<Name>)
    ensures |r| == |jobs| && forall i :: 0 <= i < |r| ==> r[i] == jobs[i].name
  {
    seq(|jobs|, i requires 0 <= i < |jobs| => jobs[i].name)
  }

  function StepNames(steps: seq<Step>): (r: seq<Name>)
    ensures |r| == |steps| && forall i :: 0 <= i < |r| ==> r[i] == steps[i].name
  {
    seq(|steps|, i requires 0 <= i < |steps| => steps[i].name)
  }

  method EvaluateJobs(ev: Evaluator, jobs: seq<Job>) returns (r: Result<(seq<Job>, seq<Name>), ConditionError>)
    ensures r.Err? <==> JobError(ev, jobs)
    ensures r.Err? ==> r.error == JobCondition
    ensures r.Ok? ==> r.value.0 == PassingJobs(ev, jobs)
    ensures r.Ok? ==> FailedFirst(ev, jobs, NameSet(r.value.1))
    ensures r.Ok? ==> r.value.1 == JobNames(FailingJobs(ev, jobs))
    ensures FirstPass(ev, jobs, r)
  {
    var kept: seq<Job>, skipped: seq<Name> := [], [];
    for i := 0 to |jobs|
      invariant kept == PassingJobs(ev, jobs[..i])
      invariant skipped == JobNames(FailingJobs(ev, jobs[..i]))
      invariant forall k :: 0 <= k < i ==> JobVerdict(ev, jobs[k]) != EvalError
      invariant forall n :: n in skipped <==> exists k :: 0 <= k < i && jobs[k].name == n && JobVerdict(ev, jobs[k]) == Fails
    {
      assert jobs[..i + 1][..i] == jobs[..i];
      assert jobs[i] in jobs;
      match JobVerdict(ev, jobs[i]) {
        case EvalError =>
          r := Err(JobCondition);
          PassIsFirst(ev, jobs, r);
          return;
        case Fails => skipped := skipped + [jobs[i].name];
        case Holds => kept := kept + [jobs[i]];
      }
    }
    assert jobs[..|jobs|] == jobs;
    r := Ok((kept, skipped));
    PassIsFirst(ev, jobs, r);
  }

  ghost predicate SomeJobBreaks(ev: Evaluator, jobs: seq<Job>) {
    exists j :: j in jobs && JobAnswers(ev, j, EvalError)
  }

  /** The first pass told from the conditions alone. */
  ghost predicate FirstPass(ev: Evaluator, jobs: seq<Job>, r: Result<(seq<Job>, seq<Name>), ConditionError>) {
    && (r.Err? <==> SomeJobBreaks(ev, jobs))
    && (r.Ok? ==> Selects(jobs, j => JobPasses(ev, j), r.value.0))
  }

  lemma PassIsFirst(ev: Evaluator, jobs: seq<Job>, r: Result<(seq<Job>, seq<Name>), ConditionError>)
    requires r.Err? <==> JobError(ev, jobs)
    requires r.Ok? ==> r.value.0 == PassingJobs(ev, jobs)
    ensures FirstPass(ev, jobs, r)
  {
    WhereSelects(jobs, j => JobVerdict(ev, j) == Holds);
    SelectsSame(jobs, j => JobVerdict(ev, j) == Holds, j => JobPasses(ev, j), PassingJobs(ev, jobs));
  }

  ghost predicate DropsStepIn(ev: Evaluator, n: Name, steps: seq<Step>, x: Name) {
    exists s :: s in steps && s.name == x && StepVerdict(ev, n, s) == Fails
  }

  ghost predicate DropsStep(ev: Evaluator, j: Job, x: Name) {
    DropsStepIn(ev, j.name, j.steps, x)
  }

  /** The record of dropped steps: per job name, the names of the steps whose condition fails. */
  ghost predicate DroppedSteps(ev: Evaluator, kept: seq<Job>, dropped: map<Name, seq<Name>>) {
    forall n, x :: Recorded(dropped, n, x) <==> DroppedIn(ev, kept, n, x)
  }

  predicate Recorded(dropped: map<Name, seq<Name>>, n: Name, x: Name) {
    n in dropped && x in dropped[n]
  }

  ghost predicate DroppedIn(ev: Evaluator, kept: seq<Job>, n: Name, x: Name) {
    exists j :: j in kept && j.name == n && DropsStep(ev, j, x)
  }

  method EvaluateSteps(ev: Evaluator, n: Name, steps: seq<Step>) returns (r: Result<(seq<Step>, seq<Name>), ConditionError>)
    ensures r.Err? <==> exists s :: s in steps && StepVerdict(ev, n, s) == EvalError
    ensures r.Err? ==> r.error == StepCondition
    ensures r.Ok? ==> r.value.0 == KeptSteps(ev, n, steps)
    ensures r.Ok? ==> forall x :: x in r.value.1 <==> DropsStepIn(ev, n, steps, x)
    ensures r.Ok? ==> r.value.1 == StepNames(Where(steps, s => StepAnswers(ev, n, s, Fails)))
  {
    var kept: seq<Step>, dropped: seq<Name> := [], [];
    for i := 0 to |steps|
      invariant kept == KeptSteps(ev, n, steps[..i])
      invariant dropped == StepNames(Where(steps[..i], s => StepAnswers(ev, n, s, Fails)))
      invariant forall k :: 0 <= k < i ==> StepVerdict(ev, n, steps[k]) != EvalError
      invariant forall x :: x in dropped <==> exists k :: 0 <= k < i && steps[k].name == x && StepVerdict(ev, n, steps[k]) == Fails
    {
      assert steps[..i + 1][..i] == steps[..i];
      match StepVerdict(ev, n, steps[i]) {
        case EvalError => return Err(StepCondition);
        case Fails => dropped := dropped + [steps[i].name];
        case Holds => kept := kept + [steps[i]];
      }
    }
    assert steps[..|steps|] == steps;
    return Ok((kept, dropped));
  }

  /** Phase 3 on the jobs that passed phase 1, given the two sets of skipped names. */
  function Remaining(ev: Evaluator, kept: seq<Job>, first: set<Name>, empty: set<Name>): seq<Job> {
    if kept == [] then []
    else var last := kept[|kept| - 1];
      Remaining(ev, kept[..|kept| - 1], first, empty)
      + if last.name in empty then [] else [CleanJobRefs(Trim(ev, CleanJobRefs(last, first)), empty)]
  }

  ghost predicate AreTrimmed(ev: Evaluator, kept: seq<Job>, first: set<Name>, trimmed: seq<Job>) {
    |trimmed| == |kept| && forall i :: 0 <= i < |kept| ==> trimmed[i] == Trim(ev, CleanJobRefs(kept[i], first))
  }

  ghost predicate StepError(ev: Evaluator, j: Job) {
    exists s :: s in j.steps && StepVerdict(ev, j.name, s) == EvalError
  }

  /** One job of phase 2: its trimmed form and the names of its dropped steps. */
  method TrimOne(ev: Evaluator, j: Job, first: set<Name>) returns (r: Result<(Job, seq<Name>), ConditionError>)
    ensures r.Err? <==> StepError(ev, j)
    ensures r.Err? ==> r.error == StepCondition
    ensures r.Ok? ==> r.value.0 == Trim(ev, CleanJobRefs(j, first))
    ensures r.Ok? ==> (r.value.0.steps == [] <==> KeptSteps(ev, j.name, j.steps) == [])
    ensures r.Ok? ==> forall x :: x in r.value.1 <==> DropsStep(ev, j, x)
  {
    var job := CleanJobRefs(j, first);
    CleaningKeepsVerdicts(ev, j, first);
    var steps := EvaluateSteps(ev, job.name, job.steps);
    if steps.Err? {
      return Err(steps.error);
    }
    forall x ensures DropsStep(ev, job, x) <==> DropsStep(ev, j, x) {
      CleaningKeepsDrops(ev, j, first, x);
    }
    return Ok((job.(steps := steps.value.0), steps.value.1));
  }

  predicate Emptied(ev: Evaluator, j: Job) {
    KeptSteps(ev, j.name, j.steps) == []
  }

  function EmptiedJobs(ev: Evaluator, kept: seq<Job>): seq<Job> {
    Where(kept, j => Emptied(ev, j))
  }

  lemma DropMore(ev: Evaluator, kept: seq<Job>, j: Job, before: map<Name, seq<Name>>, dropped: seq<Name>)
    requires DroppedSteps(ev, kept, before) && forall x :: x in dropped <==> DropsStep(ev, j, x)
    ensures DroppedSteps(ev, kept + [j],
      if dropped == [] then before else before[j.name := (if j.name in before then before[j.name] else []) + dropped])
  {
    var after := if dropped == [] then before else before[j.name := (if j.name in before then before[j.name] else []) + dropped];
    forall n, x ensures Recorded(after, n, x) <==> DroppedIn(ev, kept + [j], n, x) {
      assert Recorded(before, n, x) <==> DroppedIn(ev, kept, n, x);
      assert j in kept + [j];
      if DroppedIn(ev, kept, n, x) {
        var k :| k in kept && k.name == n && DropsStep(ev, k, x);
        assert k in kept + [j];
      }
    }
  }

  method TrimAll(ev: Evaluator, kept: seq<Job>, first: set<Name>)
    returns (r: Result<(seq<Job>, seq<Name>, map<Name, seq<Name>>), ConditionError>)
    ensures r.Err? <==> StepErrorIn(ev, kept)
    ensures r.Err? ==> r.error == StepCondition
    ensures r.Ok? ==> AreTrimmed(ev, kept, first, r.value.0)
    ensures r.Ok? ==> EmptiedNames(ev, kept, NameSet(r.value.1)) && r.value.1 == JobNames(EmptiedJobs(ev, kept))
    ensures r.Ok? ==> DroppedSteps(ev, kept, r.value.2)
  {
    var trimmed: seq<Job>, emptyJobs: seq<Name>, skippedSteps: map<Name, seq<Name>> := [], [], map[];
    for i := 0 to |kept|
      invariant AreTrimmed(ev, kept[..i], first, trimmed)
      invariant !StepErrorIn(ev, kept[..i])
      invariant emptyJobs == JobNames(EmptiedJobs(ev, kept[..i]))
      invariant DroppedSteps(ev, kept[..i], skippedSteps)
    {
      var one := TrimOne(ev, kept[i], first);
      if one.Err? {
        assert kept[i] in kept;
        return Err(one.error);
      }
      var (job, dropped) := one.value;
      DropMore(ev, kept[..i], kept[i], skippedSteps, dropped);
      TrimMore(ev, kept[..i], kept[i], first, trimmed, job);
      EmptyMore(ev, kept[..i], kept[i]);
      assert kept[..i + 1] == kept[..i] + [kept[i]];
      if dropped != [] {
        skippedSteps := skippedSteps[job.name := (if job.name in skippedSteps then skippedSteps[job.name] else []) + dropped];
      }
      if |job.steps| == 0 {
        emptyJobs := emptyJobs + [job.name];
      }
      trimmed := trimmed + [job];
    }
    assert kept[..|kept|] == kept;
    EmptiedAreNamed(ev, kept);
    return Ok((trimmed, emptyJobs, skippedSteps));
  }

  lemma TrimMore(ev: Evaluator, kept: seq<Job>, j: Job, first: set<Name>, trimmed: seq<Job>, job: Job)
    requires AreTrimmed(ev, kept, first, trimmed) && job == Trim(ev, CleanJobRefs(j, first))
    requires !StepErrorIn(ev, kept) && !StepError(ev, j)
    ensures AreTrimmed(ev, kept + [j], first, trimmed + [job])
    ensures !StepErrorIn(ev, kept + [j])
  {
  }

  lemma EmptyMore(ev: Evaluator, kept: seq<Job>, j: Job)
    ensures JobNames(EmptiedJobs(ev, kept + [j])) == JobNames(EmptiedJobs(ev, kept)) + if Emptied(ev, j) then [j.name] else []
  {
    WhereAppend(kept, j, j => Emptied(ev, j));
  }

  lemma EmptiedAreNamed(ev: Evaluator, kept: seq<Job>)
    ensures EmptiedNames(ev, kept, NameSet(JobNames(EmptiedJobs(ev, kept))))
  {
    var empty := EmptiedJobs(ev, kept);
    forall j ensures j in empty <==> j in kept && Emptied(ev, j) {
      WhereMembers(kept, j => Emptied(ev, j), j);
    }
    forall n ensures n in NameSet(JobNames(empty)) <==> exists k :: k in kept && k.name == n && Emptied(ev, k) {
      if n in JobNames(empty) {
        var i :| 0 <= i < |empty| && empty[i].name == n;
        assert empty[i] in empty;
      }
      if k :| k in kept && k.name == n && Emptied(ev, k) {
        var i :| 0 <= i < |empty| && empty[i] == k;
        assert JobNames(empty)[i] == n;
      }
    }
  }

  /** Cleaning changes no step's name or condition, so it commutes with dropping failing steps. */
  lemma {:induction false} CleanThenKeep(ev: Evaluator, n: Name, steps: seq<Step>, skipped: set<Name>)
    ensures KeptSteps(ev, n, CleanSteps(steps, skipped)) == CleanSteps(KeptSteps(ev, n, steps), skipped)
  {
    if steps != [] {
      var front, last := steps[..|steps| - 1], steps[|steps| - 1];
      CleanThenKeep(ev, n, front, skipped);
      assert CleanSteps(steps, skipped)[..|front|] == CleanSteps(front, skipped);
    }
  }

  lemma CleaningKeepsVerdicts(ev: Evaluator, j: Job, skipped: set<Name>)
    ensures (KeptSteps(ev, j.name, CleanJobRefs(j, skipped).steps) == []) <==> (KeptSteps(ev, j.name, j.steps) == [])
    ensures (exists s :: s in CleanJobRefs(j, skipped).steps && StepVerdict(ev, j.name, s) == EvalError)
      <==> (exists s :: s in j.steps && StepVerdict(ev, j.name, s) == EvalError)
  {
    CleanThenKeep(ev, j.name, j.steps, skipped);
    var cleaned := CleanJobRefs(j, skipped).steps;
    if s :| s in j.steps && StepVerdict(ev, j.name, s) == EvalError {
      var i :| 0 <= i < |j.steps| && j.steps[i] == s;
      assert StepVerdict(ev, j.name, cleaned[i]) == EvalError;
    }
  }

  lemma CleaningKeepsDrops(ev: Evaluator, j: Job, skipped: set<Name>, x: Name)
    ensures DropsStep(ev, CleanJobRefs(j, skipped), x) <==> DropsStep(ev, j, x)
  {
    var cleaned := CleanJobRefs(j, skipped).steps;
    if s :| s in j.steps && s.name == x && StepVerdict(ev, j.name, s) == Fails {
      var i :| 0 <= i < |j.steps| && j.steps[i] == s;
      assert cleaned[i].name == x && StepVerdict(ev, j.name, cleaned[i]) == Fails;
    }
  }

  lemma CleanStepTwice(s: Step, a: set<Name>, b: set<Name>)
    ensures CleanStep(CleanStep(s, a), b) == CleanStep(s, a + b)
  {
    WhereTwice(s.artifacts, (x: Artifact) => x.from !in a, (x: Artifact) => x.from !in b, (x: Artifact) => x.from !in a + b);
  }

  /** Cleaning before and after the steps are dropped amounts to one cleaning at the end. */
  lemma CleanTwice(ev: Evaluator, j: Job, a: set<Name>, b: set<Name>)
    ensures CleanJobRefs(Trim(ev, CleanJobRefs(j, a)), b) == CleanJobRefs(Trim(ev, j), a + b)
  {
    WhereTwice(j.deps, d => d !in a, d => d !in b, d => d !in a + b);
    WhereTwice(j.artifacts, (x: Artifact) => x.from !in a, (x: Artifact) => x.from !in b, (x: Artifact) => x.from !in a + b);
    CleanThenKeep(ev, j.name, j.steps, a);
    var steps := KeptSteps(ev, j.name, j.steps);
    forall i | 0 <= i < |steps| ensures CleanStep(CleanStep(steps[i], a), b) == CleanStep(steps[i], a + b) {
      CleanStepTwice(steps[i], a, b);
    }
    assert CleanSteps(CleanSteps(steps, a), b) == CleanSteps(steps, a + b);
  }

  lemma RemainingAppend(ev: Evaluator, kept: seq<Job>, j: Job, first: set<Name>, empty: set<Name>)
    ensures Remaining(ev, kept + [j], first, empty) == Remaining(ev, kept, first, empty)
      + if j.name in empty then [] else [CleanJobRefs(Trim(ev, CleanJobRefs(j, first)), empty)]
  {
    assert (kept + [j])[..|kept|] == kept;
  }

  lemma {:induction false} RemainingIsPruned(ev: Evaluator, jobs: seq<Job>, first: set<Name>, empty: set<Name>)
    requires forall j :: j in jobs && JobVerdict(ev, j) == Holds ==> (j.name in empty <==> Emptied(ev, j))
    ensures Remaining(ev, PassingJobs(ev, jobs), first, empty) == Pruned(ev, jobs, first + empty)
  {
    if jobs != [] {
      var front, last := jobs[..|jobs| - 1], jobs[|jobs| - 1];
      assert jobs == front + [last];
      RemainingIsPruned(ev, front, first, empty);
      if JobVerdict(ev, last) == Holds {
        RemainingAppend(ev, PassingJobs(ev, front), last, first, empty);
        CleanTwice(ev, last, first, empty);
        assert last.name in empty <==> Emptied(ev, last);
      } else {
        assert PassingJobs(ev, jobs) == PassingJobs(ev, front);
      }
    }
  }

  /** Without empty jobs the last phase is skipped, which changes nothing. */
  lemma CleaningNothing(j: Job)
    ensures CleanJobRefs(j, {}) == j
  {
    var none: set<Name> := {};
    WhereAll(j.deps, d => d !in none);
    WhereAll(j.artifacts, (a: Artifact) => a.from !in none);
    forall i | 0 <= i < |j.steps| ensures CleanStep(j.steps[i], {}) == j.steps[i] {
      WhereAll(j.steps[i].artifacts, (a: Artifact) => a.from !in none);
    }
    assert CleanSteps(j.steps, {}) == j.steps;
  }

  ghost predicate JobError(ev: Evaluator, jobs: seq<Job>) {
    exists j :: j in jobs && JobVerdict(ev, j) == EvalError
  }

  ghost predicate StepErrorIn(ev: Evaluator, kept: seq<Job>) {
    exists j :: j in kept && StepError(ev, j)
  }

  ghost predicate AreSkipped(ev: Evaluator, jobs: seq<Job>, names: set<Name>) {
    forall n :: n in names <==> IsSkipped(ev, jobs, n)
  }

  ghost predicate FailedFirst(ev: Evaluator, jobs: seq<Job>, names: set<Name>) {
    forall n :: n in names <==> exists j :: j in jobs && j.name == n && JobVerdict(ev, j) == Fails
  }

  ghost predicate EmptiedNames(ev: Evaluator, kept: seq<Job>, names: set<Name>) {
    forall n :: n in names <==> exists j :: j in kept && j.name == n && Emptied(ev, j)
  }

  method RemoveEmpty(ev: Evaluator, kept: seq<Job>, first: set<Name>, trimmed: seq<Job>, empty: set<Name>) returns (final: seq<Job>)
    requires AreTrimmed(ev, kept, first, trimmed)
    ensures final == Remaining(ev, kept, first, empty)
  {
    final := [];
    for i := 0 to |kept|
      invariant final == Remaining(ev, kept[..i], first, empty)
    {
      assert kept[..i + 1][..i] == kept[..i];
      if trimmed[i].name !in empty {
        final := final + [CleanJobRefs(trimmed[i], empty)];
      }
    }
    assert kept[..|kept|] == kept;
  }

  lemma {:induction false} NothingRemoved(ev: Evaluator, kept: seq<Job>, first: set<Name>, trimmed: seq<Job>)
    requires AreTrimmed(ev, kept, first, trimmed)
    ensures Remaining(ev, kept, first, {}) == trimmed
  {
    if kept != [] {
      var k := |kept| - 1;
      NothingRemoved(ev, kept[..k], first, trimmed[..k]);
      CleaningNothing(trimmed[k]);
    }
  }

  lemma PassingMembers(ev: Evaluator, jobs: seq<Job>)
    ensures forall j :: j in PassingJobs(ev, jobs) <==> j in jobs && JobVerdict(ev, j) == Holds
  {
    forall j ensures j in PassingJobs(ev, jobs) <==> j in jobs && JobVerdict(ev, j) == Holds {
      WhereMembers(jobs, j => JobVerdict(ev, j) == Holds, j);
    }
  }

  lemma SameJob(jobs: seq<Job>, a: Job, b: Job)
    requires UniqueNames(jobs) && a in jobs && b in jobs && a.name == b.name
    ensures a == b
  {
  }

  /** The names skipped in phase 1 and the names of the emptied jobs are the skipped names, and the
      jobs left are the reference result. */
  lemma PhasesArePruning(ev: Evaluator, jobs: seq<Job>, first: set<Name>, empty: set<Name>)
    requires UniqueNames(jobs) && !JobError(ev, jobs)
    requires FailedFirst(ev, jobs, first) && EmptiedNames(ev, PassingJobs(ev, jobs), empty)
    ensures AreSkipped(ev, jobs, first + empty)
    ensures Remaining(ev, PassingJobs(ev, jobs), first, empty) == Pruned(ev, jobs, first + empty)
  {
    PassingMembers(ev, jobs);
    forall j | j in jobs && JobVerdict(ev, j) == Holds
      ensures j.name in empty <==> Emptied(ev, j)
    {
      if j.name in empty {
        var k :| k in PassingJobs(ev, jobs) && k.name == j.name && Emptied(ev, k);
        SameJob(jobs, j, k);
      }
    }
    forall n ensures n in first + empty <==> IsSkipped(ev, jobs, n) {
      if IsSkipped(ev, jobs, n) {
        var j :| j in jobs && j.name == n && !Survives(ev, j);
        assert JobVerdict(ev, j) == Fails || j in PassingJobs(ev, jobs);
      }
    }
    RemainingIsPruned(ev, jobs, first, empty);
  }

  /** An evaluation error is one of a job, or of a step of a job that passed. */
  ghost predicate SomeError(ev: Evaluator, jobs: seq<Job>) {
    JobError(ev, jobs) || StepErrorIn(ev, PassingJobs(ev, jobs))
  }

  // ---------------------------------------------------------------- told from the conditions alone

  /** The job passes, and so does one of its steps. */
  predicate Stays(ev: Evaluator, j: Job) {
    JobPasses(ev, j) && exists s :: s in j.steps && StepPasses(ev, j.name, s)
  }

  ghost predicate SomeStepBreaks(ev: Evaluator, jobs: seq<Job>) {
    exists j, s :: j in jobs && JobPasses(ev, j) && s in j.steps && StepAnswers(ev, j.name, s, EvalError)
  }

  /** What is left of a job that stays: its passing steps, and of all references those to jobs that are
      not skipped. */
  ghost predicate PrunedTo(ev: Evaluator, skipped: set<Name>, j: Job, r: Job) {
    && r == j.(deps := r.deps, artifacts := r.artifacts, steps := r.steps)
    && Selects(j.deps, d => d !in skipped, r.deps)
    && Selects(j.artifacts, (a: Artifact) => a.from !in skipped, r.artifacts)
    && exists kept :: Selects(j.steps, s => StepPasses(ev, j.name, s), kept) && StepsPrunedTo(skipped, kept, r.steps)
  }

  ghost predicate StepsPrunedTo(skipped: set<Name>, kept: seq<Step>, steps: seq<Step>) {
    |steps| == |kept| && forall i :: 0 <= i < |kept| ==>
      && steps[i] == kept[i].(artifacts := steps[i].artifacts)
      && Selects(kept[i].artifacts, (a: Artifact) => a.from !in skipped, steps[i].artifacts)
  }

  ghost predicate JobsPrunedTo(ev: Evaluator, skipped: set<Name>, kept: seq<Job>, r: seq<Job>) {
    |r| == |kept| && forall i :: 0 <= i < |kept| ==> PrunedTo(ev, skipped, kept[i], r[i])
  }

  ghost predicate LeavesOut(ev: Evaluator, jobs: seq<Job>, n: Name) {
    exists j :: j in jobs && j.name == n && !Stays(ev, j)
  }

  ghost predicate LeavesOutStep(ev: Evaluator, jobs: seq<Job>, n: Name, x: Name) {
    exists j, s :: j in jobs && j.name == n && JobPasses(ev, j) && s in j.steps && s.name == x && StepAnswers(ev, n, s, Fails)
  }

  /** The jobs that stay, in their order, pruned; the names of the others; and per job that passed the
      steps whose conditions fail. */
  ghost predicate Evaluated(ev: Evaluator, jobs: seq<Job>, r: ConditionResult) {
    && (forall n :: n in r.skipped <==> LeavesOut(ev, jobs, n))
    && (forall n, x :: Recorded(r.skippedSteps, n, x) <==> LeavesOutStep(ev, jobs, n, x))
    && exists kept :: Selects(jobs, j => Stays(ev, j), kept) && JobsPrunedTo(ev, NameSet(r.skipped), kept, r.jobs)
  }

  lemma KeptStepsSelect(ev: Evaluator, n: Name, steps: seq<Step>)
    ensures Selects(steps, s => StepPasses(ev, n, s), KeptSteps(ev, n, steps))
    ensures KeptSteps(ev, n, steps) != [] <==> exists s :: s in steps && StepPasses(ev, n, s)
  {
    WhereSelects(steps, s => StepVerdict(ev, n, s) == Holds);
    SelectsSame(steps, s => StepVerdict(ev, n, s) == Holds, s => StepPasses(ev, n, s), KeptSteps(ev, n, steps));
    if s :| s in steps && StepPasses(ev, n, s) {
      WhereMembers(steps, s => StepVerdict(ev, n, s) == Holds, s);
    }
    if KeptSteps(ev, n, steps) != [] {
      WhereMembers(steps, s => StepVerdict(ev, n, s) == Holds, KeptSteps(ev, n, steps)[0]);
    }
  }

  lemma SurvivesIfStays(ev: Evaluator, j: Job)
    ensures Survives(ev, j) <==> Stays(ev, j)
  {
    KeptStepsSelect(ev, j.name, j.steps);
  }

  lemma CleanedIsPrunedTo(ev: Evaluator, j: Job, skipped: set<Name>)
    ensures PrunedTo(ev, skipped, j, CleanJobRefs(Trim(ev, j), skipped))
  {
    var kept, r := KeptSteps(ev, j.name, j.steps), CleanJobRefs(Trim(ev, j), skipped);
    KeptStepsSelect(ev, j.name, j.steps);
    WhereSelects(j.deps, d => d !in skipped);
    WhereSelects(j.artifacts, (a: Artifact) => a.from !in skipped);
    forall i | 0 <= i < |kept|
      ensures Selects(kept[i].artifacts, (a: Artifact) => a.from !in skipped, r.steps[i].artifacts)
    {
      WhereSelects(kept[i].artifacts, (a: Artifact) => a.from !in skipped);
    }
    assert StepsPrunedTo(skipped, kept, r.steps);
  }

  lemma {:induction false} PrunedSelects(ev: Evaluator, jobs: seq<Job>, skipped: set<Name>)
    ensures JobsPrunedTo(ev, skipped, Where(jobs, j => Survives(ev, j)), Pruned(ev, jobs, skipped))
  {
    if jobs != [] {
      PrunedSelects(ev, jobs[..|jobs| - 1], skipped);
      CleanedIsPrunedTo(ev, jobs[|jobs| - 1], skipped);
    }
  }

  lemma DropsAreLeftOut(ev: Evaluator, jobs: seq<Job>, n: Name, x: Name)
    ensures DroppedIn(ev, PassingJobs(ev, jobs), n, x) <==> LeavesOutStep(ev, jobs, n, x)
  {
    PassingMembers(ev, jobs);
    if DroppedIn(ev, PassingJobs(ev, jobs), n, x) {
      var j :| j in PassingJobs(ev, jobs) && j.name == n && DropsStep(ev, j, x);
      var s :| s in j.steps && s.name == x && StepVerdict(ev, n, s) == Fails;
      assert StepAnswers(ev, n, s, Fails);
    }
    if LeavesOutStep(ev, jobs, n, x) {
      var j, s :| j in jobs && j.name == n && JobPasses(ev, j) && s in j.steps && s.name == x && StepAnswers(ev, n, s, Fails);
      assert DropsStep(ev, j, x);
    }
  }

  lemma ErrorsAreBreaks(ev: Evaluator, jobs: seq<Job>)
    ensures JobError(ev, jobs) <==> SomeJobBreaks(ev, jobs)
    ensures StepErrorIn(ev, PassingJobs(ev, jobs)) <==> SomeStepBreaks(ev, jobs)
  {
    PassingMembers(ev, jobs);
    if StepErrorIn(ev, PassingJobs(ev, jobs)) {
      var j :| j in PassingJobs(ev, jobs) && StepError(ev, j);
      var s :| s in j.steps && StepVerdict(ev, j.name, s) == EvalError;
      assert StepAnswers(ev, j.name, s, EvalError);
    }
    if SomeStepBreaks(ev, jobs) {
      var j, s :| j in jobs && JobPasses(ev, j) && s in j.steps && StepAnswers(ev, j.name, s, EvalError);
      assert StepError(ev, j);
    }
  }

  lemma PruningIsEvaluated(ev: Evaluator, jobs: seq<Job>, r: ConditionResult)
    requires AreSkipped(ev, jobs, NameSet(r.skipped)) && r.jobs == Pruned(ev, jobs, NameSet(r.skipped))
    requires DroppedSteps(ev, PassingJobs(ev, jobs), r.skippedSteps)
    ensures Evaluated(ev, jobs, r)
  {
    forall j ensures Survives(ev, j) <==> Stays(ev, j) {
      SurvivesIfStays(ev, j);
    }
    forall n ensures n in r.skipped <==> LeavesOut(ev, jobs, n) {
      assert n in r.skipped <==> n in NameSet(r.skipped);
    }
    forall n, x ensures Recorded(r.skippedSteps, n, x) <==> LeavesOutStep(ev, jobs, n, x) {
      DropsAreLeftOut(ev, jobs, n, x);
    }
    var kept := Where(jobs, j => Survives(ev, j));
    PrunedSelects(ev, jobs, NameSet(r.skipped));
    WhereSelects(jobs, j => Survives(ev, j));
    SelectsSame(jobs, j => Survives(ev, j), j => Stays(ev, j), kept);
  }

  /** The names of the jobs whose condition fails, and then of those left without a step, each in the
      order of the jobs. */
  ghost predicate NamedInOrder(ev: Evaluator, jobs: seq<Job>, skipped: seq<Name>) {
    exists failing, emptied ::
      && Selects(jobs, j => JobAnswers(ev, j, Fails), failing)
      && Selects(jobs, j => JobPasses(ev, j) && !Stays(ev, j), emptied)
      && skipped == JobNames(failing) + JobNames(emptied)
  }

  lemma SkippedInOrder(ev: Evaluator, jobs: seq<Job>)
    ensures NamedInOrder(ev, jobs, JobNames(FailingJobs(ev, jobs)) + JobNames(EmptiedJobs(ev, PassingJobs(ev, jobs))))
  {
    var emptied := EmptiedJobs(ev, PassingJobs(ev, jobs));
    forall j ensures JobVerdict(ev, j) == Holds && Emptied(ev, j) <==> JobPasses(ev, j) && !Stays(ev, j) {
      SurvivesIfStays(ev, j);
    }
    WhereSelects(jobs, j => JobAnswers(ev, j, Fails));
    WhereTwice(jobs, j => JobVerdict(ev, j) == Holds, j => Emptied(ev, j), j => JobPasses(ev, j) && !Stays(ev, j));
    WhereSelects(jobs, j => JobPasses(ev, j) && !Stays(ev, j));
  }

  /** EvaluateConditions on jobs with distinct names. It fails exactly when a condition it asks cannot be
      evaluated, and otherwise keeps exactly the jobs that stay. */
  method EvaluateConditions(ev: Evaluator, jobs: seq<Job>) returns (r: Result<ConditionResult, ConditionError>)
    requires UniqueNames(jobs)
    ensures r.Err? <==> SomeError(ev, jobs)
    ensures r.Ok? ==> AreSkipped(ev, jobs, NameSet(r.value.skipped))
    ensures r.Ok? ==> r.value.jobs == Pruned(ev, jobs, NameSet(r.value.skipped))
    ensures r.Ok? ==> DroppedSteps(ev, PassingJobs(ev, jobs), r.value.skippedSteps)
    ensures r.Err? <==> SomeJobBreaks(ev, jobs) || SomeStepBreaks(ev, jobs)
    ensures r.Err? ==> r.error == if SomeJobBreaks(ev, jobs) then JobCondition else StepCondition
    ensures r.Ok? ==> Evaluated(ev, jobs, r.value) && NamedInOrder(ev, jobs, r.value.skipped)
  {
    ErrorsAreBreaks(ev, jobs);
    var phase1 := EvaluateJobs(ev, jobs);
    if phase1.Err? {
      return Err(phase1.error);
    }
    var (kept, skippedNames) := phase1.value;
    var first := NameSet(skippedNames);
    var phase2 := TrimAll(ev, kept, first);
    if phase2.Err? {
      return Err(phase2.error);
    }
    var (final, emptyJobs, skippedSteps) := phase2.value;
    var empty := NameSet(emptyJobs);
    if |emptyJobs| > 0 {
      final := RemoveEmpty(ev, kept, first, final, empty);
    } else {
      NothingRemoved(ev, kept, first, final);
      assert empty == {};
    }
    PhasesArePruning(ev, jobs, first, empty);
    assert NameSet(skippedNames + emptyJobs) == first + empty;
    var result := ConditionResult(final, skippedNames + emptyJobs, skippedSteps);
    PruningIsEvaluated(ev, jobs, result);
    SkippedInOrder(ev, jobs);
    return Ok(result);
  }

  // ---------------------------------------------------------------- what pruning keeps

  lemma {:induction false} PrunedMembers(ev: Evaluator, jobs: seq<Job>, skipped: set<Name>, x: Job)
    ensures x in Pruned(ev, jobs, skipped) <==>
      exists j :: j in jobs && Survives(ev, j) && x == CleanJobRefs(Trim(ev, j), skipped)
  {
    if jobs != [] {
      PrunedMembers(ev, jobs[..|jobs| - 1], skipped, x);
      assert jobs == jobs[..|jobs| - 1] + [jobs[|jobs| - 1]];
    }
  }

  lemma CleanedRefs(ev: Evaluator, j: Job, skipped: set<Name>)
    ensures var c := CleanJobRefs(Trim(ev, j), skipped);
      && (forall d :: d in c.deps <==> d in j.deps && d !in skipped)
      && (forall a :: a in c.artifacts <==> a in j.artifacts && a.from !in skipped)
  {
    forall d ensures d in Where(j.deps, d => d !in skipped) <==> d in j.deps && d !in skipped {
      WhereMembers(j.deps, d => d !in skipped, d);
    }
    forall a ensures a in CleanArtifacts(j.artifacts, skipped) <==> a in j.artifacts && a.from !in skipped {
      WhereMembers(j.artifacts, (a: Artifact) => a.from !in skipped, a);
    }
  }

  /** A validated job stays well-formed by itself: it has a step, and its artifacts and those of its
      steps still come from its dependencies. */
  lemma SurvivorIsWellFormed(ev: Evaluator, j: Job, skipped: set<Name>)
    requires Survives(ev, j) && ArtifactsFromDeps(j)
    ensures var c := CleanJobRefs(Trim(ev, j), skipped); c.steps != [] && ArtifactsFromDeps(c)
  {
    var c := CleanJobRefs(Trim(ev, j), skipped);
    CleanedRefs(ev, j, skipped);
    forall s, a | s in c.steps && a in s.artifacts ensures a.from in c.deps {
      var i :| 0 <= i < |c.steps| && c.steps[i] == s;
      var original := KeptSteps(ev, j.name, j.steps)[i];
      WhereMembers(j.steps, s => StepVerdict(ev, j.name, s) == Holds, original);
      WhereMembers(original.artifacts, (a: Artifact) => a.from !in skipped, a);
    }
  }

  lemma {:induction false} PrunedNames(ev: Evaluator, jobs: seq<Job>, skipped: set<Name>)
    requires UniqueNames(jobs)
    ensures UniqueNames(Pruned(ev, jobs, skipped))
    ensures forall n :: HasJob(Pruned(ev, jobs, skipped), n) <==> exists j :: j in jobs && j.name == n && Survives(ev, j)
  {
    var p := Pruned(ev, jobs, skipped);
    forall n ensures HasJob(p, n) <==> exists j :: j in jobs && j.name == n && Survives(ev, j) {
      if HasJob(p, n) {
        var i :| 0 <= i < |p| && p[i].name == n;
        PrunedMembers(ev, jobs, skipped, p[i]);
      }
      if j :| j in jobs && j.name == n && Survives(ev, j) {
        PrunedMembers(ev, jobs, skipped, CleanJobRefs(Trim(ev, j), skipped));
      }
    }
    if jobs != [] {
      var front, last := jobs[..|jobs| - 1], jobs[|jobs| - 1];
      PrunedNames(ev, front, skipped);
      assert !HasJob(Pruned(ev, front, skipped), last.name) by {
        assert forall j :: j in front ==> j.name != last.name;
      }
    }
  }

  lemma PrunedEdge(ev: Evaluator, jobs: seq<Job>, skipped: set<Name>, a: Name, b: Name)
    requires UniqueNames(jobs) && Edge(DepGraph(Pruned(ev, jobs, skipped)), a, b)
    ensures Edge(DepGraph(jobs), a, b) && b !in skipped
  {
    var p := Pruned(ev, jobs, skipped);
    PrunedNames(ev, jobs, skipped);
    EdgeIffDep(p, a, b);
    var i :| 0 <= i < |p| && p[i].name == a && b in p[i].deps;
    PrunedMembers(ev, jobs, skipped, p[i]);
    var j :| j in jobs && Survives(ev, j) && p[i] == CleanJobRefs(Trim(ev, j), skipped);
    CleanedRefs(ev, j, skipped);
    var k :| 0 <= k < |jobs| && jobs[k] == j;
    EdgeIffDep(jobs, a, b);
  }

  /** Pruning a validated pipeline splits its job names into kept and skipped, and what is left, if
      anything, is again valid: references lead to kept jobs only, artifacts come from dependencies,
      every job has a step, and nothing is cyclic. */
  lemma PruningKeepsValidity(ev: Evaluator, jobs: seq<Job>, skipped: set<Name>)
    requires WellFormedJobs(jobs) && AreSkipped(ev, jobs, skipped)
    ensures var p := Pruned(ev, jobs, skipped);
      && (forall n :: HasJob(jobs, n) <==> HasJob(p, n) || n in skipped)
      && (forall n :: !(HasJob(p, n) && n in skipped))
      && (p == [] || WellFormedJobs(p))
  {
    var p := Pruned(ev, jobs, skipped);
    PrunedNames(ev, jobs, skipped);
    NamesSplit(ev, jobs, skipped);
    forall i | 0 <= i < |p| ensures p[i].steps != [] && ArtifactsFromDeps(p[i]) {
      PrunedMembers(ev, jobs, skipped, p[i]);
      var j :| j in jobs && Survives(ev, j) && p[i] == CleanJobRefs(Trim(ev, j), skipped);
      SurvivorIsWellFormed(ev, j, skipped);
    }
    forall i, d | 0 <= i < |p| && d in p[i].deps ensures HasJob(p, d) {
      EdgeIffDep(p, p[i].name, d);
      PrunedEdge(ev, jobs, skipped, p[i].name, d);
      KnownDepsClose(jobs);
      DepGraphKeys(jobs, d);
    }
    forall a, b | Edge(DepGraph(p), a, b) ensures Edge(DepGraph(jobs), a, b) {
      PrunedEdge(ev, jobs, skipped, a, b);
    }
    forall c: seq<Name> | IsCycle(DepGraph(p), c) ensures false {
      PathInBigger(DepGraph(p), DepGraph(jobs), c);
      assert IsCycle(DepGraph(jobs), c);
    }
  }

  lemma NamesSplit(ev: Evaluator, jobs: seq<Job>, skipped: set<Name>)
    requires UniqueNames(jobs) && AreSkipped(ev, jobs, skipped)
    ensures forall n :: HasJob(jobs, n) <==> HasJob(Pruned(ev, jobs, skipped), n) || n in skipped
    ensures forall n :: !(HasJob(Pruned(ev, jobs, skipped), n) && n in skipped)
  {
    PrunedNames(ev, jobs, skipped);
    forall n ensures HasJob(jobs, n) <==> HasJob(Pruned(ev, jobs, skipped), n) || n in skipped {
      if HasJob(jobs, n) {
        var i :| 0 <= i < |jobs| && jobs[i].name == n;
        assert jobs[i] in jobs;
      }
    }
    forall n | HasJob(Pruned(ev, jobs, skipped), n) ensures n !in skipped {
      var j :| j in jobs && j.name == n && Survives(ev, j);
      forall k | k in jobs && k.name == n ensures k == j {
        SameJob(jobs, j, k);
      }
    }
  }

  // ---------------------------------------------------------------- the old order still serves

  /** The index a surviving job has after pruning. */
  function NewIndex(ev: Evaluator, jobs: seq<Job>, skipped: set<Name>, i: nat): nat
    requires i <= |jobs|
  {
    |Pruned(ev, jobs[..i], skipped)|
  }

  lemma {:induction false} NewIndexAt(ev: Evaluator, jobs: seq<Job>, skipped: set<Name>, i: nat)
    requires i < |jobs| && Survives(ev, jobs[i])
    ensures NewIndex(ev, jobs, skipped, i) < |Pruned(ev, jobs, skipped)|
    ensures Pruned(ev, jobs, skipped)[NewIndex(ev, jobs, skipped, i)] == CleanJobRefs(Trim(ev, jobs[i]), skipped)
  {
    var last := |jobs| - 1;
    if i < last {
      NewIndexAt(ev, jobs[..last], skipped, i);
      assert jobs[..last][..i] == jobs[..i];
    }
  }

  /** The old order without the skipped jobs, renumbered. */
  function RestrictOrder(ev: Evaluator, jobs: seq<Job>, skipped: set<Name>, order: seq<nat>): seq<nat>
    requires forall k :: 0 <= k < |order| ==> order[k] < |jobs|
  {
    if order == [] then []
    else var front, i := order[..|order| - 1], order[|order| - 1];
      RestrictOrder(ev, jobs, skipped, front)
      + if Survives(ev, jobs[i]) then [NewIndex(ev, jobs, skipped, i)] else []
  }

  lemma {:induction false} RestrictMembers(ev: Evaluator, jobs: seq<Job>, skipped: set<Name>, order: seq<nat>, x: nat)
    requires forall k :: 0 <= k < |order| ==> order[k] < |jobs|
    ensures x in RestrictOrder(ev, jobs, skipped, order) <==>
      exists i :: i in order && Survives(ev, jobs[i]) && x == NewIndex(ev, jobs, skipped, i)
  {
    if order != [] {
      RestrictMembers(ev, jobs, skipped, order[..|order| - 1], x);
      assert order == order[..|order| - 1] + [order[|order| - 1]];
    }
  }

  /** Different surviving jobs get different new indices. */
  lemma NewIndexInjective(ev: Evaluator, jobs: seq<Job>, skipped: set<Name>, i: nat, k: nat)
    requires UniqueNames(jobs) && i < |jobs| && k < |jobs| && Survives(ev, jobs[i]) && Survives(ev, jobs[k])
    requires NewIndex(ev, jobs, skipped, i) == NewIndex(ev, jobs, skipped, k)
    ensures i == k
  {
    NewIndexAt(ev, jobs, skipped, i);
    NewIndexAt(ev, jobs, skipped, k);
  }

  /** The dependencies a survivor keeps are survivors the old order lists before it. */
  lemma DepsStillBefore(ev: Evaluator, jobs: seq<Job>, skipped: set<Name>, order: seq<nat>, d: Name)
    requires UniqueNames(jobs) && AreSkipped(ev, jobs, skipped) && PartialOrder(jobs, order) && order != []
    requires var i := order[|order| - 1];
      Survives(ev, jobs[i]) && d in CleanJobRefs(Trim(ev, jobs[i]), skipped).deps
    ensures Listed(Pruned(ev, jobs, skipped), RestrictOrder(ev, jobs, skipped, order[..|order| - 1]), d)
  {
    var last := |order| - 1;
    var i, front, p := order[last], order[..last], Pruned(ev, jobs, skipped);
    CleanedRefs(ev, jobs[i], skipped);
    assert DepsBefore(jobs, order, last);
    var m :| 0 <= m < last && jobs[order[m]].name == d;
    assert jobs[order[m]] in jobs && Survives(ev, jobs[order[m]]);
    var x := NewIndex(ev, jobs, skipped, order[m]);
    NewIndexAt(ev, jobs, skipped, order[m]);
    assert front[m] == order[m];
    RestrictMembers(ev, jobs, skipped, front, x);
    ListedAt(p, RestrictOrder(ev, jobs, skipped, front), x);
  }

  lemma {:induction false} RestrictIsPartialOrder(ev: Evaluator, jobs: seq<Job>, skipped: set<Name>, order: seq<nat>)
    requires UniqueNames(jobs) && AreSkipped(ev, jobs, skipped) && PartialOrder(jobs, order)
    ensures PartialOrder(Pruned(ev, jobs, skipped), RestrictOrder(ev, jobs, skipped, order))
  {
    if order != [] {
      var last := |order| - 1;
      var front, i, p := order[..last], order[last], Pruned(ev, jobs, skipped);
      PrefixIsPartialOrder(jobs, order);
      RestrictIsPartialOrder(ev, jobs, skipped, front);
      if Survives(ev, jobs[i]) {
        var r, x := RestrictOrder(ev, jobs, skipped, front), NewIndex(ev, jobs, skipped, i);
        NewIndexAt(ev, jobs, skipped, i);
        RestrictMembers(ev, jobs, skipped, front, x);
        if x in r {
          var k :| k in front && Survives(ev, jobs[k]) && x == NewIndex(ev, jobs, skipped, k);
          NewIndexInjective(ev, jobs, skipped, i, k);
          assert false;
        }
        forall d | d in p[x].deps ensures Listed(p, r, d) {
          DepsStillBefore(ev, jobs, skipped, order, d);
        }
        ExtendPartialOrder(p, r, x);
      } else {
        assert RestrictOrder(ev, jobs, skipped, order) == RestrictOrder(ev, jobs, skipped, front);
      }
    }
  }

  lemma PrefixIsPartialOrder(jobs: seq<Job>, order: seq<nat>)
    requires PartialOrder(jobs, order) && order != []
    ensures PartialOrder(jobs, order[..|order| - 1])
  {
    var front := order[..|order| - 1];
    forall k | 0 <= k < |front| ensures DepsBefore(jobs, front, k) {
      assert DepsBefore(jobs, order, k);
      forall d | d in jobs[front[k]].deps ensures exists m :: 0 <= m < k && jobs[front[m]].name == d {
        var m :| 0 <= m < k && jobs[order[m]].name == d;
        assert front[m] == order[m];
      }
    }
  }

  /** A topological order of the pipeline, restricted to the kept jobs, is a topological order of
      what is left. */
  lemma OldOrderStillServes(ev: Evaluator, jobs: seq<Job>, skipped: set<Name>, order: seq<nat>)
    requires UniqueNames(jobs) && AreSkipped(ev, jobs, skipped) && TopoOrder(jobs, order)
    ensures TopoOrder(Pruned(ev, jobs, skipped), RestrictOrder(ev, jobs, skipped, order))
  {
    var p, r := Pruned(ev, jobs, skipped), RestrictOrder(ev, jobs, skipped, order);
    RestrictIsPartialOrder(ev, jobs, skipped, order);
    PrunedNames(ev, jobs, skipped);
    forall k: nat | k < |p| ensures k in r {
      PrunedMembers(ev, jobs, skipped, p[k]);
      var j :| j in jobs && Survives(ev, j) && p[k] == CleanJobRefs(Trim(ev, j), skipped);
      var i :| 0 <= i < |jobs| && jobs[i] == j;
      NewIndexAt(ev, jobs, skipped, i);
      PermutationIsComplete(order, |jobs|, i);
      RestrictMembers(ev, jobs, skipped, order, k);
    }
    assert forall k: nat :: k < |p| <==> k in r;
    CompleteOrder(|p|, r);
  }
}
