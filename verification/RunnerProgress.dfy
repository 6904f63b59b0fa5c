/** Freedom from deadlock, and termination. */
module RunnerProgress {
  import opened Graphs
  import opened Runner
  import opened RunnerSafety

  /** An upper bound on the moves a node in phase p still makes. */
  function StepsLeft(c: Config, n: Name, p: Phase): nat {
    if n !in c.jobs then 0 else
    var attempts := Retry.Tries(c.jobs[n].retries);
    match p
    case Waiting(k) => attempts + 6 + if k < |c.jobs[n].deps| then |c.jobs[n].deps| - k else 0
    case Evaluating => attempts + 5
    case Acquiring => attempts + 4
    case Solving(a) => 3 + if a < attempts then attempts - a else 0
    case Extracting(_) => 3
    case Releasing(_) => 2
    case Closing(_) => 1
    case Done(_) => 0
  }

  function StepsLeftIn(c: Config): (Name, Phase) -> nat {
    (n, p) => StepsLeft(c, n, p)
  }

  function Measure(c: Config, s: State): nat {
    Total(c.order, s.nodes, StepsLeftIn(c)) + (if s.cancelled then 0 else 1) + |c.jobs.Keys - s.timedOut|
  }

  lemma NodeActionUsesSteps(c: Config, w: World, s: State, a: Action)
    requires Safe(c, s) && Enabled(c, s, a) && (a.Advance? || a.Interrupt?)
    ensures StepsLeft(c, a.n, Next(c, w, s, a).nodes[a.n]) < StepsLeft(c, a.n, s.nodes[a.n])
  {
    assert NodeSafe(c, s, a.n);
  }

  lemma NodeActionDecreases(c: Config, w: World, s: State, a: Action)
    requires WellFormed(c) && Safe(c, s) && Enabled(c, s, a) && (a.Advance? || a.Interrupt?)
    ensures Measure(c, Next(c, w, s, a)) < Measure(c, s)
  {
    var s' := Next(c, w, s, a);
    NodeActionIsLocal(c, w, s, a);
    NodeActionUsesSteps(c, w, s, a);
    var p := s'.nodes[a.n];
    TotalAfterMove(c.order, s.nodes, StepsLeftIn(c), a.n, p);
    assert s'.nodes == s.nodes[a.n := p];
  }

  /** Every move, of whatever party, makes the measure smaller. */
  lemma EveryMoveDecreases(c: Config, w: World, s: State, a: Action)
    requires WellFormed(c) && Safe(c, s) && Enabled(c, s, a)
    ensures Measure(c, Next(c, w, s, a)) < Measure(c, s)
  {
    if a.Advance? || a.Interrupt? {
      NodeActionDecreases(c, w, s, a);
    } else if a.Timeout? {
      assert c.jobs.Keys - (s.timedOut + {a.n}) == (c.jobs.Keys - s.timedOut) - {a.n};
    }
  }

  /** No run is longer than the measure of the state it starts in. */
  lemma {:induction false} RunsAreBounded(c: Config, w: World, s: State, acts: seq<Action>)
    requires WellFormed(c) && Safe(c, s) && Legal(c, w, s, acts)
    ensures |acts| + Measure(c, After(c, w, s, acts)) <= Measure(c, s)
    decreases |acts|
  {
    if acts != [] {
      EveryMoveDecreases(c, w, s, acts[0]);
      NextKeepsSafe(c, w, s, acts[0]);
      RunsAreBounded(c, w, Next(c, w, s, acts[0]), acts[1..]);
    }
  }

  /** Of the unfinished jobs, one of least rank has only finished dependencies. */
  lemma {:induction false} LowestUnfinished(c: Config, s: State, n: Name) returns (m: Name)
    requires WellFormed(c) && s.nodes.Keys == c.jobs.Keys
    requires n in c.jobs && !s.nodes[n].Done?
    ensures m in c.jobs && !s.nodes[m].Done?
    ensures forall d :: d in c.jobs[m].deps ==> d in s.nodes && s.nodes[d].Done?
    decreases RankOf(DepGraph(c))[n]
  {
    forall d | d in c.jobs[n].deps ensures d in s.nodes && Edge(DepGraph(c), n, d) {
      DepKnown(c, n, d);
    }
    if d :| d in c.jobs[n].deps && !s.nodes[d].Done? {
      m := LowestUnfinished(c, s, d);
    } else {
      m := n;
    }
  }

  /** No deadlock: while a job is unfinished, some goroutine has an enabled move of its own. A job
      kept out by a full semaphore is only waiting for holders, and holders never wait. */
  lemma SomeoneCanAdvance(c: Config, s: State) returns (n: Name)
    requires WellFormed(c) && Safe(c, s) && !AllDone(c, s)
    ensures Enabled(c, s, Advance(n))
  {
    var unfinished :| unfinished in c.jobs && !s.nodes[unfinished].Done?;
    n := LowestUnfinished(c, s, unfinished);
    if s.nodes[n].Releasing? {
      TotalAtLeast(c.order, s.nodes, SlotWeight, n);
    } else if s.nodes[n].Acquiring? && s.held >= c.limit {
      n := PositiveTotalHasWitness(c.order, s.nodes, SlotWeight);
    }
  }

  lemma StuckIffDone(c: Config, s: State)
    requires WellFormed(c) && Safe(c, s)
    ensures AllDone(c, s) <==> !exists n :: Enabled(c, s, Advance(n))
  {
    if !AllDone(c, s) {
      var n := SomeoneCanAdvance(c, s);
    }
  }

  lemma {:induction false} CompletesFrom(c: Config, w: World, s: State) returns (rest: seq<Action>)
    requires WellFormed(c) && Safe(c, s)
    ensures Legal(c, w, s, rest) && AllDone(c, After(c, w, s, rest))
    decreases Measure(c, s)
  {
    if AllDone(c, s) {
      rest := [];
    } else {
      var n := SomeoneCanAdvance(c, s);
      EveryMoveDecreases(c, w, s, Advance(n));
      NextKeepsSafe(c, w, s, Advance(n));
      var more := CompletesFrom(c, w, Next(c, w, s, Advance(n)));
      rest := [Advance(n)] + more;
    }
  }

  /** However a run has gone so far, it is bounded, it is stuck only when every job is done, and
      the goroutines alone can bring it to an end. */
  lemma RunsTerminate(c: Config, w: World, acts: seq<Action>)
    requires WellFormed(c) && Legal(c, w, Init(c), acts)
    ensures |acts| <= Measure(c, Init(c))
    ensures var s := After(c, w, Init(c), acts);
      && (AllDone(c, s) <==> !exists n :: Enabled(c, s, Advance(n)))
      && exists rest :: Legal(c, w, s, rest) && AllDone(c, After(c, w, s, rest))
  {
    var s := After(c, w, Init(c), acts);
    InitIsSafe(c);
    RunsAreSafe(c, w, Init(c), acts);
    RunsAreBounded(c, w, Init(c), acts);
    StuckIffDone(c, s);
    var rest := CompletesFrom(c, w, s);
  }

  // ---------------------------------------------------------------- a cancelled run

  /** The move asks nothing of the solver. */
  predicate AsksNoSolve(s: State, a: Action) {
    a.Interrupt? || (a.Advance? && a.n in s.nodes && !s.nodes[a.n].Acquiring? && !s.nodes[a.n].Solving?)
  }

  ghost predicate NoSolveAsked(c: Config, w: World, s: State, acts: seq<Action>)
    requires Legal(c, w, s, acts)
    decreases |acts|
  {
    acts != [] ==> AsksNoSolve(s, acts[0]) && NoSolveAsked(c, w, Next(c, w, s, acts[0]), acts[1..])
  }

  /** Once the run is cancelled no job has to wait for anybody any more, for whatever reason it waits. */
  lemma CancelledJobCanStop(c: Config, s: State, n: Name) returns (a: Action)
    requires WellFormed(c) && Safe(c, s) && s.cancelled && n in c.jobs && !s.nodes[n].Done?
    ensures Enabled(c, s, a) && AsksNoSolve(s, a) && (a == Advance(n) || a == Interrupt(n))
  {
    assert NodeSafe(c, s, n);
    if s.nodes[n].Releasing? {
      TotalAtLeast(c.order, s.nodes, SlotWeight, n);
    }
    a := if Enabled(c, s, Interrupt(n)) then Interrupt(n) else Advance(n);
  }

  lemma CancelledStays(c: Config, w: World, s: State, a: Action)
    requires Enabled(c, s, a) && s.cancelled
    ensures Next(c, w, s, a).cancelled
  {
  }

  /** A cancelled run can be brought to its end without another solve. */
  lemma {:induction false} CancelledRunStops(c: Config, w: World, s: State) returns (rest: seq<Action>)
    requires WellFormed(c) && Safe(c, s) && s.cancelled
    ensures Legal(c, w, s, rest) && NoSolveAsked(c, w, s, rest) && AllDone(c, After(c, w, s, rest))
    decreases Measure(c, s)
  {
    if AllDone(c, s) {
      rest := [];
    } else {
      var n :| n in c.jobs && !s.nodes[n].Done?;
      var a := CancelledJobCanStop(c, s, n);
      EveryMoveDecreases(c, w, s, a);
      NextKeepsSafe(c, w, s, a);
      CancelledStays(c, w, s, a);
      var more := CancelledRunStops(c, w, Next(c, w, s, a));
      rest := [a] + more;
      assert rest[1..] == more;
    }
  }
}
