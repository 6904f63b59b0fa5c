/** What holds in every state a run can reach. */
module RunnerSafety {
  import opened Prelude
  import opened Graphs
  import opened Runner

  /** Adds up a weight over the nodes, in the order of the job slice. */
  function Total(order: seq<Name>, nodes: map<Name, Phase>, f: (Name, Phase) -> nat): nat {
    if order == [] then 0
    else (if order[0] in nodes then f(order[0], nodes[order[0]]) else 0) + Total(order[1..], nodes, f)
  }

  function SlotWeight(n: Name, p: Phase): nat {
    if HoldsSlot(p) then 1 else 0
  }

  function SlotsInUse(c: Config, s: State): nat {
    Total(c.order, s.nodes, SlotWeight)
  }

  /** Moving one node changes the total by that node's change of weight. */
  lemma {:induction false} TotalAfterMove(order: seq<Name>, nodes: map<Name, Phase>, f: (Name, Phase) -> nat, n: Name, p: Phase)
    requires Distinct(order) && n in nodes
    ensures n in order ==>
      Total(order, nodes[n := p], f) + f(n, nodes[n]) == Total(order, nodes, f) + f(n, p)
    ensures n !in order ==> Total(order, nodes[n := p], f) == Total(order, nodes, f)
  {
    if order != [] {
      TotalAfterMove(order[1..], nodes, f, n, p);
      assert Distinct(order[1..]);
      assert order == [order[0]] + order[1..];
    }
  }

  lemma {:induction false} TotalAtLeast(order: seq<Name>, nodes: map<Name, Phase>, f: (Name, Phase) -> nat, n: Name)
    requires n in order && n in nodes
    ensures Total(order, nodes, f) >= f(n, nodes[n])
  {
    if order[0] != n {
      TotalAtLeast(order[1..], nodes, f, n);
    }
  }

  lemma {:induction false} PositiveTotalHasWitness(order: seq<Name>, nodes: map<Name, Phase>, f: (Name, Phase) -> nat) returns (n: Name)
    requires Total(order, nodes, f) > 0
    ensures n in order && n in nodes && f(n, nodes[n]) > 0
  {
    if order[0] in nodes && f(order[0], nodes[order[0]]) > 0 {
      n := order[0];
    } else {
      n := PositiveTotalHasWitness(order[1..], nodes, f);
    }
  }

  /** The node has left its dependency loop by the normal exit. An outcome tells this too: only the
      loop itself reports DependencyFailed, and only before the solve can a node be cut short as
      Cancelled or Skipped. */
  predicate PastWait(p: Phase) {
    match p
    case Waiting(_) => false
    case Closing(r) => OutcomePastWait(r)
    case Done(r) => OutcomePastWait(r)
    case _ => true
  }

  predicate OutcomePastWait(r: Outcome) {
    match r
    case Succeeded(_) => true
    case Failed(k) => k != DependencyFailed && k != Cancelled
    case Skipped => false
  }

  predicate DoneOk(s: State, n: Name) {
    n in s.nodes && s.nodes[n].Done? && s.nodes[n].result.Succeeded?
  }

  ghost predicate NodeSafe(c: Config, s: State, n: Name)
    requires n in c.jobs && n in s.nodes
  {
    && (s.nodes[n].Waiting? ==>
      && s.nodes[n].k <= |c.jobs[n].deps|
      && forall i :: 0 <= i < s.nodes[n].k ==> DoneOk(s, c.jobs[n].deps[i]))
    && (PastWait(s.nodes[n]) ==> forall d :: d in c.jobs[n].deps ==> DoneOk(s, d))
    && (s.nodes[n].Solving? ==> s.nodes[n].attempt < Retry.Tries(c.jobs[n].retries))
    && (s.nodes[n].Evaluating? ==> c.jobs[n].conditional && c.whenCtx)
  }

  ghost predicate Safe(c: Config, s: State) {
    && s.nodes.Keys == c.jobs.Keys
    && s.held == SlotsInUse(c, s)
    && s.held <= c.limit
    && forall n :: n in c.jobs ==> NodeSafe(c, s, n)
  }

  lemma {:induction false} AllWaitingUsesNoSlot(order: seq<Name>, nodes: map<Name, Phase>)
    requires forall n :: n in nodes ==> nodes[n] == Waiting(0)
    ensures Total(order, nodes, SlotWeight) == 0
  {
    if order != [] {
      AllWaitingUsesNoSlot(order[1..], nodes);
    }
  }

  lemma InitIsSafe(c: Config)
    requires WellFormed(c)
    ensures Safe(c, Init(c))
  {
    AllWaitingUsesNoSlot(c.order, Init(c).nodes);
  }

  /** A node action touches its own node only, and takes or gives back a slot exactly when the
      node enters or leaves its slot-holding phases. */
  lemma NodeActionIsLocal(c: Config, w: World, s: State, a: Action)
    requires Enabled(c, s, a) && (a.Advance? || a.Interrupt?)
    ensures var s' := Next(c, w, s, a);
      && a.n in s'.nodes && s'.nodes == s.nodes[a.n := s'.nodes[a.n]]
      && s'.held + SlotWeight(a.n, s.nodes[a.n]) == s.held + SlotWeight(a.n, s'.nodes[a.n])
      && (s'.held > s.held ==> s'.held <= c.limit)
      && s'.cancelled == s.cancelled && s'.timedOut == s.timedOut
  {
  }

  /** The semaphore counter tracks the slot holders through every move. */
  lemma NextKeepsSlots(c: Config, w: World, s: State, a: Action)
    requires WellFormed(c) && Safe(c, s) && Enabled(c, s, a)
    ensures Next(c, w, s, a).held == SlotsInUse(c, Next(c, w, s, a)) <= c.limit
  {
    if a.Advance? || a.Interrupt? {
      NodeActionIsLocal(c, w, s, a);
      TotalAfterMove(c.order, s.nodes, SlotWeight, a.n, Next(c, w, s, a).nodes[a.n]);
    }
  }

  /** A node that is done stays done with the same outcome. */
  lemma DoneIsStable(c: Config, w: World, s: State, a: Action, n: Name)
    requires Enabled(c, s, a) && n in s.nodes && s.nodes[n].Done?
    ensures n in Next(c, w, s, a).nodes && Next(c, w, s, a).nodes[n] == s.nodes[n]
  {
  }

  /** The node that moves stays safe, seen in the old state of the others. */
  lemma MoverKeepsNodeSafe(c: Config, w: World, s: State, a: Action)
    requires Safe(c, s) && Enabled(c, s, a) && (a.Advance? || a.Interrupt?)
    ensures NodeSafe(c, s.(nodes := Next(c, w, s, a).nodes), a.n)
  {
    assert NodeSafe(c, s, a.n);
    NodeActionIsLocal(c, w, s, a);
    var s' := s.(nodes := Next(c, w, s, a).nodes);
    forall d | DoneOk(s, d) ensures DoneOk(s', d) {
      DoneIsStable(c, w, s, a, d);
    }
    if s.nodes[a.n].Waiting? && s'.nodes[a.n].Waiting? {
      assert forall i :: 0 <= i < s'.nodes[a.n].k ==> DoneOk(s, c.jobs[a.n].deps[i]);
    }
    if s.nodes[a.n].Waiting? && PastWait(s'.nodes[a.n]) {
      assert forall d :: d in c.jobs[a.n].deps ==> DoneOk(s, d);
    }
  }

  lemma NextKeepsNodeSafe(c: Config, w: World, s: State, a: Action, n: Name)
    requires Safe(c, s) && Enabled(c, s, a) && n in c.jobs
    ensures Next(c, w, s, a).nodes.Keys == c.jobs.Keys
    ensures NodeSafe(c, Next(c, w, s, a), n)
  {
    var s' := Next(c, w, s, a);
    if a.Advance? || a.Interrupt? {
      NodeActionIsLocal(c, w, s, a);
      if a.n == n {
        MoverKeepsNodeSafe(c, w, s, a);
      } else {
        assert NodeSafe(c, s, n);
        forall d | DoneOk(s, d) ensures DoneOk(s', d) {
          DoneIsStable(c, w, s, a, d);
        }
      }
    } else {
      assert NodeSafe(c, s, n);
    }
  }

  lemma NextKeepsSafe(c: Config, w: World, s: State, a: Action)
    requires WellFormed(c) && Safe(c, s) && Enabled(c, s, a)
    ensures Safe(c, Next(c, w, s, a))
  {
    NextKeepsSlots(c, w, s, a);
    forall n | n in c.jobs {
      NextKeepsNodeSafe(c, w, s, a, n);
    }
    assert Next(c, w, s, a).nodes.Keys == c.jobs.Keys;
  }

  lemma {:induction false} RunsAreSafe(c: Config, w: World, s: State, acts: seq<Action>)
    requires WellFormed(c) && Safe(c, s) && Legal(c, w, s, acts)
    ensures Safe(c, After(c, w, s, acts))
    decreases |acts|
  {
    if acts != [] {
      NextKeepsSafe(c, w, s, acts[0]);
      RunsAreSafe(c, w, Next(c, w, s, acts[0]), acts[1..]);
    }
  }

  lemma {:induction false} SlotTotalIsCardinality(order: seq<Name>, nodes: map<Name, Phase>)
    requires Distinct(order)
    ensures Total(order, nodes, SlotWeight) == |set n | n in order && n in nodes && HoldsSlot(nodes[n])|
  {
    var holders := set n | n in order && n in nodes && HoldsSlot(nodes[n]);
    if order != [] {
      SlotTotalIsCardinality(order[1..], nodes);
      var rest := set n | n in order[1..] && n in nodes && HoldsSlot(nodes[n]);
      assert order == [order[0]] + order[1..];
      if order[0] in nodes && HoldsSlot(nodes[order[0]]) {
        assert holders == rest + {order[0]} && order[0] !in rest;
      } else {
        assert holders == rest;
      }
    }
  }

  lemma {:induction false} PathOfDoneDeps(c: Config, s: State, p: seq<Name>)
    requires WellFormed(c) && Safe(c, s) && IsPath(DepGraph(c), p) && |p| > 1
    requires p[0] in c.jobs && PastWait(s.nodes[p[0]])
    ensures DoneOk(s, p[|p| - 1])
  {
    assert NodeSafe(c, s, p[0]);
    assert DoneOk(s, p[1]);
    if |p| > 2 {
      PathOfDoneDeps(c, s, p[1..]);
    }
  }

  /** In every reachable state of every run: at most `limit` jobs hold a slot; a job past its
      dependency loop has all its transitive dependencies finished without error or skip; and so
      has a job whose deferred condition is being evaluated. */
  lemma WholeRunSafety(c: Config, w: World, acts: seq<Action>)
    requires WellFormed(c) && Legal(c, w, Init(c), acts)
    ensures var s := After(c, w, Init(c), acts);
      && s.nodes.Keys == c.jobs.Keys
      && |set n | n in s.nodes && HoldsSlot(s.nodes[n])| <= c.limit
      && forall n, m :: n in c.jobs && PastWait(s.nodes[n]) && m != n && Reaches(DepGraph(c), n, m) ==> DoneOk(s, m)
  {
    var s := After(c, w, Init(c), acts);
    InitIsSafe(c);
    RunsAreSafe(c, w, Init(c), acts);
    SlotTotalIsCardinality(c.order, s.nodes);
    assert (set n | n in s.nodes && HoldsSlot(s.nodes[n]))
      == (set n | n in c.order && n in s.nodes && HoldsSlot(s.nodes[n]));
    forall n, m | n in c.jobs && PastWait(s.nodes[n]) && m != n && Reaches(DepGraph(c), n, m)
      ensures DoneOk(s, m)
    {
      var p: seq<Name> :| Links(DepGraph(c), p, n, m);
      PathOfDoneDeps(c, s, p);
    }
  }

  /** Once a job is done, nothing that happens later changes what it published. */
  lemma {:induction false} OutcomeIsFinal(c: Config, w: World, s: State, acts: seq<Action>, n: Name)
    requires Legal(c, w, s, acts) && n in s.nodes && s.nodes[n].Done?
    ensures n in After(c, w, s, acts).nodes && After(c, w, s, acts).nodes[n] == s.nodes[n]
    decreases |acts|
  {
    if acts != [] {
      DoneIsStable(c, w, s, acts[0], n);
      OutcomeIsFinal(c, w, Next(c, w, s, acts[0]), acts[1..], n);
    }
  }

  /** A job that was past its dependency wait at any moment of a run, whether it then ran, was skipped
      by its own condition or was cancelled for want of a slot, has all its transitive dependencies
      finished well from then on. */
  lemma PastWaitForGood(c: Config, w: World, acts: seq<Action>, more: seq<Action>, n: Name, m: Name)
    requires WellFormed(c) && Legal(c, w, Init(c), acts) && Legal(c, w, After(c, w, Init(c), acts), more)
    requires n in c.jobs && m != n && Reaches(DepGraph(c), n, m)
    requires n in After(c, w, Init(c), acts).nodes && PastWait(After(c, w, Init(c), acts).nodes[n])
    ensures DoneOk(After(c, w, After(c, w, Init(c), acts), more), m)
  {
    WholeRunSafety(c, w, acts);
    var s := After(c, w, Init(c), acts);
    assert DoneOk(s, m);
    OutcomeIsFinal(c, w, s, more, m);
  }

  /** What a job's own deadline may have done by the time it is in phase p. */
  predicate DeadlineOk(p: Phase, expired: bool) {
    match p
    case Waiting(_) => !expired
    case Evaluating => !expired
    case Acquiring => !expired
    case Solving(_) => true
    case Extracting(_) => true
    case Releasing(r) => ReportsDeadline(r, expired)
    case Closing(r) => ReportsDeadline(r, expired)
    case Done(r) => ReportsDeadline(r, expired)
  }

  /** A timeout is reported only after the deadline, and a solve that fails after it as nothing else. */
  predicate ReportsDeadline(r: Outcome, expired: bool) {
    && (r == Failed(TimedOut) ==> expired)
    && (expired && r.Failed? ==> r.kind == TimedOut || r.kind == OutputFailed)
  }

  ghost predicate DeadlinesOk(c: Config, s: State) {
    forall n :: n in c.jobs && n in s.nodes ==> DeadlineOk(s.nodes[n], n in s.timedOut)
  }

  lemma NextKeepsDeadlines(c: Config, w: World, s: State, a: Action)
    requires DeadlinesOk(c, s) && Enabled(c, s, a)
    ensures DeadlinesOk(c, Next(c, w, s, a))
  {
    if a.Advance? || a.Interrupt? {
      NodeActionIsLocal(c, w, s, a);
      var s' := Next(c, w, s, a);
      forall n | n in c.jobs && n in s'.nodes ensures DeadlineOk(s'.nodes[n], n in s'.timedOut) {
        assert DeadlineOk(s.nodes[a.n], a.n in s.timedOut);
      }
    }
  }

  lemma {:induction false} RunsKeepDeadlines(c: Config, w: World, s: State, acts: seq<Action>)
    requires DeadlinesOk(c, s) && Legal(c, w, s, acts)
    ensures DeadlinesOk(c, After(c, w, s, acts))
    decreases |acts|
  {
    if acts != [] {
      NextKeepsDeadlines(c, w, s, acts[0]);
      RunsKeepDeadlines(c, w, Next(c, w, s, acts[0]), acts[1..]);
    }
  }

  /** In every reachable state a published timeout is the job's own deadline, and a job whose deadline
      expired while it was solving has published success, a timeout, or a failure behind the solve. */
  lemma DeadlinesAreReported(c: Config, w: World, acts: seq<Action>)
    requires Legal(c, w, Init(c), acts)
    ensures var s := After(c, w, Init(c), acts);
      forall n, r :: n in c.jobs && n in s.nodes && s.nodes[n] == Done(r) ==> ReportsDeadline(r, n in s.timedOut)
    ensures DeadlinesOk(c, After(c, w, Init(c), acts))
  {
    RunsKeepDeadlines(c, w, Init(c), acts);
    var s := After(c, w, Init(c), acts);
    assert forall n :: n in c.jobs && n in s.nodes ==> DeadlineOk(s.nodes[n], n in s.timedOut);
  }

  /** collectDepOutputs: visits the dependencies in order and keeps the outputs that exist. */
  method CollectDepOutputs(nodes: map<Name, Phase>, deps: seq<Name>) returns (result: map<Name, Outputs>)
    ensures result == DepOutputs(nodes, deps)
  {
    result := map[];
    for i := 0 to |deps|
      invariant result == DepOutputs(nodes, deps[..i])
    {
      if deps[i] in nodes && OutputsIn(nodes[deps[i]]).Some? {
        result := result[deps[i] := OutputsIn(nodes[deps[i]]).value];
      }
      assert deps[..i + 1] == deps[..i] + [deps[i]];
    }
    assert deps[..|deps|] == deps;
  }

  /** filterSuccessful keeps an export or publish item when its job is not in the DAG, or has
      finished without error or skip. */
  predicate KeepsItem(s: State, job: Name) {
    job in s.nodes ==> DoneOk(s, job)
  }

  function Kept<T>(items: seq<(Name, T)>, s: State): seq<(Name, T)> {
    if items == [] then []
    else (if KeepsItem(s, items[0].0) then [items[0]] else []) + Kept(items[1..], s)
  }

  lemma {:induction false} KeptAppend<T>(items: seq<(Name, T)>, x: (Name, T), s: State)
    ensures Kept(items + [x], s) == Kept(items, s) + (if KeepsItem(s, x.0) then [x] else [])
  {
    if items == [] {
      assert [x][1..] == [];
    } else {
      KeptAppend(items[1..], x, s);
      assert (items + [x])[1..] == items[1..] + [x];
    }
  }

  method FilterSuccessful<T>(items: seq<(Name, T)>, s: State) returns (result: seq<(Name, T)>)
    ensures result == Kept(items, s)
  {
    result := [];
    for i := 0 to |items|
      invariant result == Kept(items[..i], s)
    {
      KeptAppend(items[..i], items[i], s);
      assert items[..i + 1] == items[..i] + [items[i]];
      if items[i].0 !in s.nodes || DoneOk(s, items[i].0) {
        result := result + [items[i]];
      }
    }
    assert items[..|items|] == items;
  }

  lemma {:induction false} KeptMembers<T>(items: seq<(Name, T)>, s: State, x: (Name, T))
    ensures x in Kept(items, s) <==> x in items && KeepsItem(s, x.0)
  {
    if items != [] {
      KeptMembers(items[1..], s, x);
    }
  }

  /** The items kept are in the order in which they were given. */
  lemma {:induction false} KeptInOrder<T>(items: seq<(Name, T)>, s: State)
    ensures Selects(items, (x: (Name, T)) => x.0 in s.nodes ==> DoneOk(s, x.0), Kept(items, s))
  {
    KeptIsWhere(items, s);
    WhereSelects(items, (x: (Name, T)) => x.0 in s.nodes ==> DoneOk(s, x.0));
  }

  lemma {:induction false} KeptIsWhere<T>(items: seq<(Name, T)>, s: State)
    ensures Kept(items, s) == Where(items, (x: (Name, T)) => x.0 in s.nodes ==> DoneOk(s, x.0))
  {
    if items != [] {
      var n := |items| - 1;
      KeptIsWhere(items[..n], s);
      KeptAppend(items[..n], items[n], s);
      assert items == items[..n] + [items[n]];
    }
  }

  /** After a complete run, an item of a DAG job survives exactly when that job and every job it
      transitively depends on published success. */
  lemma ExportsOnlyFromSuccess<T>(c: Config, w: World, acts: seq<Action>, items: seq<(Name, T)>, x: (Name, T))
    requires WellFormed(c) && Legal(c, w, Init(c), acts)
    requires AllDone(c, After(c, w, Init(c), acts)) && x.0 in c.jobs
    ensures var s := After(c, w, Init(c), acts);
      x in Kept(items, s) <==> x in items && forall m :: Reaches(DepGraph(c), x.0, m) ==> DoneOk(s, m)
  {
    var s := After(c, w, Init(c), acts);
    WholeRunSafety(c, w, acts);
    KeptMembers(items, s, x);
    ReachesSelf(DepGraph(c), x.0);
  }
}
