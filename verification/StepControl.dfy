/** Step-controlled execution of a job: one solve per step, with retries. */
module StepControl {
  // Step-controlled execution: one solve per step, with retries and allowed failures. The state of
  // the image under construction is the list of operations on it.

  import opened Prelude
  import opened PipelineModel
  import opened Retry

  datatype Op =
    | CopyFrom(job: Name, source: string, target: string)
    | Dir(path: string)
    | AddEnv(key: string, value: string)
    | Run(args: seq<string>)

  type State = seq<Op>

  /** A step as the runner sees it. Its build function applies the same operations to whatever state
      it is given, if it can build them; they may mention the number of the attempt. */
  datatype StepExec = StepExec(ops: nat -> Option<State>, retries: Option<nat>, allowFailure: bool)

  function Build(step: StepExec, base: State, attempt: nat): Option<State> {
    match step.ops(attempt) case None => None case Some(ops) => Some(base + ops)
  }

  /** The answers of the build service to the attempts of each step, and when the run is cancelled. */
  datatype Service = Service(answer: (nat, nat) -> Answer, cancelled: (nat, nat) -> bool)

  datatype Answer = Evaluated | SolveFailed | MarshalFailed | NoSingleRef

  /** A solved filesystem, by the state it was solved from. */
  datatype Reference = Reference(of: State)

  datatype Solved = Solved(state: State, ref: Reference)

  function AttemptOf(step: StepExec, i: nat, sv: Service, a: nat): Attempt {
    if step.ops(a).None? then FailsForGood
    else match sv.answer(i, a)
      case Evaluated => Succeeds
      case SolveFailed => Fails
      case MarshalFailed => FailsForGood
      case NoSingleRef => FailsForGood
  }

  /** Step number i as a retry script. */
  function StepScript(step: StepExec, i: nat, sv: Service): Script {
    Script((a: nat) => AttemptOf(step, i, sv, a), (a: nat) => sv.cancelled(i, a))
  }

  /** The attempt at which step number i succeeds, if it does. */
  function Winner(step: StepExec, i: nat, sv: Service): (r: Option<nat>)
    ensures r.Some? ==> step.ops(r.value).Some?
  {
    DecisiveIsFirstSuccess(StepScript(step, i, sv), Tries(step.retries), 0);
    Decisive(StepScript(step, i, sv), Tries(step.retries), 0)
  }

  /** The winning attempt is the only one: it evaluated, and every earlier one was a plain failure. */
  lemma WinnerIsFirst(step: StepExec, i: nat, sv: Service, a: nat)
    ensures Winner(step, i, sv) == Some(a) <==>
      && a < Tries(step.retries) && step.ops(a).Some? && sv.answer(i, a) == Evaluated
      && forall b: nat :: b < a ==> PlainFailure(step, i, sv, b)
  {
    var s := StepScript(step, i, sv);
    DecisiveIsFirstSuccess(s, Tries(step.retries), 0);
    assert forall b: nat :: GoesOn(s, b) <==> PlainFailure(step, i, sv, b);
  }

  predicate PlainFailure(step: StepExec, i: nat, sv: Service, b: nat) {
    step.ops(b).Some? && sv.answer(i, b) == SolveFailed && !sv.cancelled(i, b)
  }

  /** solveStep: solves the step's state up to 1 + retries times. The state it returns is that of
      the first attempt that succeeds, built on the base it was given. */
  method SolveStep(step: StepExec, i: nat, base: State, sv: Service)
    returns (r: Option<Solved>, solves: nat)
    ensures r.Some? <==> Winner(step, i, sv).Some?
    ensures r.Some? ==> r.value.state == base + step.ops(Winner(step, i, sv).value).value
    ensures r.Some? ==> r.value.ref == Reference(r.value.state) && solves == Winner(step, i, sv).value + 1
    ensures solves <= Tries(step.retries)
  {
    ghost var s := StepScript(step, i, sv);
    var maxAttempts := Tries(step.retries);
    solves := 0;
    for attempt := 0 to maxAttempts
      invariant solves == attempt
      invariant Decisive(s, maxAttempts, 0) == Decisive(s, maxAttempts, attempt)
    {
      var built := Build(step, base, attempt);
      if built.None? || sv.answer(i, attempt) == MarshalFailed {
        return None, solves;
      }
      solves := solves + 1;
      match sv.answer(i, attempt) {
        case Evaluated =>
          return Some(Solved(built.value, Reference(built.value))), solves;
        case NoSingleRef =>
          return None, solves;
        case _ =>
      }
      if attempt == maxAttempts - 1 {
        assert Decisive(s, maxAttempts, attempt + 1) == None;
        return None, solves;
      }
      if sv.cancelled(i, attempt) {
        return None, solves;
      }
    }
    r := None;
  }

  /** What step number i leaves behind: the operations of its winning attempt, or nothing. */
  function Kept(step: StepExec, i: nat, sv: Service): State {
    match Winner(step, i, sv) case None => [] case Some(a) => step.ops(a).value
  }

  function KeptOps(steps: seq<StepExec>, sv: Service): State {
    if steps == [] then []
    else var n := |steps| - 1; KeptOps(steps[..n], sv) + Kept(steps[n], n, sv)
  }

  predicate Won(steps: seq<StepExec>, sv: Service, i: nat)
    requires i < |steps|
  {
    Winner(steps[i], i, sv).Some?
  }

  predicate Survives(steps: seq<StepExec>, sv: Service, i: nat)
    requires i < |steps|
  {
    steps[i].allowFailure || Won(steps, sv, i)
  }

  function TotalTries(steps: seq<StepExec>): nat {
    if steps == [] then 0 else TotalTries(steps[..|steps| - 1]) + Tries(steps[|steps| - 1].retries)
  }

  /** The reference handed on exists if one of the first n steps won, and was solved from state. */
  ghost predicate LastRef(steps: seq<StepExec>, sv: Service, n: nat, state: State, last: Option<Reference>)
    requires n <= |steps|
  {
    && (last.Some? <==> exists i :: 0 <= i < n && Won(steps, sv, i))
    && (last.Some? ==> last.value == Reference(state))
  }

  ghost predicate SurviveTo(steps: seq<StepExec>, sv: Service, n: nat)
    requires n <= |steps|
  {
    forall i :: 0 <= i < n ==> Survives(steps, sv, i)
  }

  /** The state after the first n steps and the reference handed on so far. */
  ghost predicate Controlled(base: State, steps: seq<StepExec>, sv: Service, n: nat,
                             state: State, last: Option<Reference>)
    requires n <= |steps|
  {
    state == base + KeptOps(steps[..n], sv) && LastRef(steps, sv, n, state, last)
  }

  /** The step loop. It ends well exactly when every step succeeds or may fail; its state is then the
      fold of the winning attempts, and the reference it hands on was solved from that very state. */
  method StepControl(base: State, steps: seq<StepExec>, sv: Service)
    returns (ok: bool, state: State, last: Option<Reference>, solves: nat)
    ensures ok <==> forall i :: 0 <= i < |steps| ==> Survives(steps, sv, i)
    ensures ok ==> state == base + KeptOps(steps, sv)
    ensures ok ==> LastRef(steps, sv, |steps|, state, last)
    ensures solves <= TotalTries(steps)
  {
    state, last, solves := base, None, 0;
    for i := 0 to |steps|
      invariant SurviveTo(steps, sv, i)
      invariant Controlled(base, steps, sv, i, state, last)
      invariant solves <= TotalTries(steps[..i])
    {
      var n;
      ok, state, last, n := ControlStep(base, steps, i, sv, state, last);
      solves := solves + n;
      OneMoreTry(steps, i);
      TriesGrow(steps, i + 1);
      if !ok {
        return;
      }
    }
    assert steps[..|steps|] == steps;
    ok := true;
  }

  /** The body of the loop: a step that fails where it may leaves state and reference alone. */
  method ControlStep(ghost base: State, steps: seq<StepExec>, i: nat, sv: Service,
                     state: State, last: Option<Reference>)
    returns (ok: bool, state': State, last': Option<Reference>, solves: nat)
    requires i < |steps| && Controlled(base, steps, sv, i, state, last)
    ensures ok <==> Survives(steps, sv, i)
    ensures ok ==> Controlled(base, steps, sv, i + 1, state', last')
    ensures solves <= Tries(steps[i].retries)
  {
    var r;
    r, solves := SolveStep(steps[i], i, state, sv);
    OneMoreStep(steps, sv, i, base);
    state', last' := state, last;
    if r.None? {
      assert Kept(steps[i], i, sv) == [] && state + [] == state;
      return steps[i].allowFailure, state', last', solves;
    }
    state', last' := r.value.state, Some(r.value.ref);
    assert Won(steps, sv, i);
    ok := true;
  }

  lemma OneMoreTry(steps: seq<StepExec>, i: nat)
    requires i < |steps|
    ensures TotalTries(steps[..i + 1]) == TotalTries(steps[..i]) + Tries(steps[i].retries)
  {
    assert steps[..i + 1][..i] == steps[..i];
  }

  lemma OneMoreStep(steps: seq<StepExec>, sv: Service, i: nat, base: State)
    requires i < |steps|
    ensures base + KeptOps(steps[..i + 1], sv) == base + KeptOps(steps[..i], sv) + Kept(steps[i], i, sv)
  {
    assert steps[..i + 1][..i] == steps[..i];
  }

  lemma {:induction false} TriesGrow(steps: seq<StepExec>, n: nat)
    requires n <= |steps|
    ensures TotalTries(steps[..n]) <= TotalTries(steps)
  {
    if n < |steps| {
      assert steps[..|steps| - 1][..n] == steps[..n];
      TriesGrow(steps[..|steps| - 1], n);
    } else {
      assert steps[..n] == steps;
    }
  }

  // ---------------------------------------------------------------- removing what failed

  /** Steps that failed leave no trace: the operations kept are those of the winning steps alone, one
      after the other, and each of them is one of the step's own operations. */
  lemma {:induction false} EveryKeptOpIsWon(steps: seq<StepExec>, sv: Service, op: Op)
    ensures op in KeptOps(steps, sv) <==>
      exists i :: 0 <= i < |steps| && Won(steps, sv, i)
                  && op in steps[i].ops(Winner(steps[i], i, sv).value).value
  {
    if steps != [] {
      var n := |steps| - 1;
      var front := steps[..n];
      EveryKeptOpIsWon(front, sv, op);
      assert forall i :: 0 <= i < n ==> front[i] == steps[i] && (Won(front, sv, i) <==> Won(steps, sv, i));
      var added := Kept(steps[n], n, sv);
      assert op in KeptOps(steps, sv) <==> op in KeptOps(front, sv) || op in added;
      assert op in added ==> Won(steps, sv, n);
    }
  }
}
