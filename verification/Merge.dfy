/** Merging job groups, and replacing aliases by their terminals. */
module Merge {
  import opened Prelude
  import opened Graphs
  import opened PipelineModel

  datatype ConflictStrategy = ConflictError | ConflictSkip

  datatype JobGroup = JobGroup(jobs: seq<Job>, onConflict: ConflictStrategy)

  datatype MergeError = DuplicateJob(name: Name) | AliasCollision(alias: Name)

  // ---------------------------------------------------------------- MergeJobs

  datatype Entry = Entry(job: Job, onConflict: ConflictStrategy)

  function Entries(jobs: seq<Job>, onConflict: ConflictStrategy): seq<Entry> {
    seq(|jobs|, i requires 0 <= i < |jobs| => Entry(jobs[i], onConflict))
  }

  /** All jobs in document order, each with its group's conflict strategy. */
  function Flatten(groups: seq<JobGroup>): seq<Entry> {
    if groups == [] then []
    else var last := groups[|groups| - 1]; Flatten(groups[..|groups| - 1]) + Entries(last.jobs, last.onConflict)
  }

  predicate Seen(es: seq<Entry>, name: Name) {
    exists i :: 0 <= i < |es| && es[i].job.name == name
  }

  /** The first job of each name, in document order. */
  function Firsts(es: seq<Entry>): seq<Job> {
    if es == [] then []
    else var front, last := es[..|es| - 1], es[|es| - 1];
      Firsts(front) + if Seen(front, last.job.name) then [] else [last.job]
  }

  /** A repeated name in a group that does not skip conflicts. */
  predicate ClashAt(es: seq<Entry>, k: nat) {
    k < |es| && es[k].onConflict == ConflictError && Seen(es[..k], es[k].job.name)
  }

  ghost predicate MergedSoFar(done: seq<Entry>, merged: seq<Job>, seen: set<Name>) {
    && merged == Firsts(done)
    && (forall n :: n in seen <==> Seen(done, n))
    && (forall k: nat :: !ClashAt(done, k))
  }

  /** The inner loop: adds the jobs of one group, stopping at the first clash. */
  method MergeGroup(g: JobGroup, ghost before: seq<Entry>, merged: seq<Job>, seen: set<Name>)
    returns (merged': seq<Job>, seen': set<Name>, clash: Option<nat>)
    requires MergedSoFar(before, merged, seen)
    ensures clash.None? ==> MergedSoFar(before + Entries(g.jobs, g.onConflict), merged', seen')
    ensures clash.Some? ==> clash.value < |g.jobs|
    ensures clash.Some? ==>
      ClashAt(before + Entries(g.jobs[..clash.value + 1], g.onConflict), |before| + clash.value)
  {
    merged', seen' := merged, seen;
    ghost var done := before;
    assert before + Entries(g.jobs[..0], g.onConflict) == before;
    for j := 0 to |g.jobs|
      invariant done == before + Entries(g.jobs[..j], g.onConflict)
      invariant MergedSoFar(done, merged', seen')
    {
      var name := g.jobs[j].name;
      ghost var e := Entry(g.jobs[j], g.onConflict);
      assert done + [e] == before + Entries(g.jobs[..j + 1], g.onConflict);
      AppendEntry(done, e);
      if name in seen' {
        if g.onConflict.ConflictError? {
          assert (done + [e])[..|done|] == done;
          return merged', seen', Some(j);
        }
      } else {
        seen' := seen' + {name};
        merged' := merged' + [g.jobs[j]];
      }
      done := done + [e];
    }
    assert g.jobs[..|g.jobs|] == g.jobs;
    clash := None;
  }

  method MergeJobs(groups: seq<JobGroup>) returns (r: Result<seq<Job>, MergeError>)
    ensures r.Err? <==> exists k: nat :: ClashAt(Flatten(groups), k)
    ensures r.Ok? ==> r.value == Firsts(Flatten(groups))
  {
    var merged: seq<Job>, seen: set<Name> := [], {};
    for i := 0 to |groups|
      invariant MergedSoFar(Flatten(groups[..i]), merged, seen)
    {
      var clash;
      ghost var before := Flatten(groups[..i]);
      merged, seen, clash := MergeGroup(groups[i], before, merged, seen);
      if clash.Some? {
        var j := clash.value;
        FlattenPrefix(groups, i, j + 1);
        ClashStays(before + Entries(groups[i].jobs[..j + 1], groups[i].onConflict), Flatten(groups), |before| + j);
        return Err(DuplicateJob(groups[i].jobs[j].name));
      }
      assert groups[..i + 1][..i] == groups[..i];
    }
    assert groups[..|groups|] == groups;
    return Ok(merged);
  }

  lemma AppendEntry(es: seq<Entry>, e: Entry)
    ensures Firsts(es + [e]) == Firsts(es) + if Seen(es, e.job.name) then [] else [e.job]
    ensures forall n :: Seen(es + [e], n) <==> Seen(es, n) || n == e.job.name
    ensures (forall k: nat :: !ClashAt(es, k)) && !(e.onConflict.ConflictError? && Seen(es, e.job.name)) ==>
      forall k: nat :: !ClashAt(es + [e], k)
  {
    var next := es + [e];
    assert next[..|es|] == es;
    forall n ensures Seen(next, n) <==> Seen(es, n) || n == e.job.name {
      if Seen(es, n) {
        var i :| 0 <= i < |es| && es[i].job.name == n;
        assert next[i].job.name == n;
      }
      assert next[|es|] == e;
    }
    forall k: nat | k < |es| ensures ClashAt(next, k) <==> ClashAt(es, k) {
      assert next[..k] == es[..k];
    }
  }

  lemma ClashStays(a: seq<Entry>, b: seq<Entry>, k: nat)
    requires a <= b && ClashAt(a, k)
    ensures ClashAt(b, k)
  {
    assert a[..k] == b[..k];
  }

  lemma {:induction false} FlattenPrefix(groups: seq<JobGroup>, i: nat, j: nat)
    requires i < |groups| && j <= |groups[i].jobs|
    ensures Flatten(groups[..i]) + Entries(groups[i].jobs[..j], groups[i].onConflict) <= Flatten(groups)
  {
    var last := |groups| - 1;
    if i < last {
      FlattenPrefix(groups[..last], i, j);
      assert groups[..last][..i] == groups[..i];
    } else {
      assert Entries(groups[i].jobs[..j], groups[i].onConflict) <= Entries(groups[i].jobs, groups[i].onConflict);
    }
  }

  lemma HasJobAppend(jobs: seq<Job>, j: Job, n: Name)
    ensures HasJob(jobs + [j], n) <==> HasJob(jobs, n) || n == j.name
  {
    var next := jobs + [j];
    if HasJob(jobs, n) {
      var i :| 0 <= i < |jobs| && jobs[i].name == n;
      assert next[i].name == n;
    }
    assert next[|jobs|] == j;
  }

  lemma {:induction false} MergeNames(es: seq<Entry>, n: Name)
    ensures HasJob(Firsts(es), n) <==> Seen(es, n)
  {
    if es != [] {
      var front, last := es[..|es| - 1], es[|es| - 1];
      MergeNames(front, n);
      AppendEntry(front, last);
      assert es == front + [last];
      if !Seen(front, last.job.name) {
        HasJobAppend(Firsts(front), last.job, n);
      } else {
        assert Firsts(es) == Firsts(front);
      }
    }
  }

  /** A merge has distinct names, contains every name once, and takes each from its first entry. */
  lemma {:induction false} MergeIsFirstWins(es: seq<Entry>)
    ensures UniqueNames(Firsts(es))
    ensures forall n :: HasJob(Firsts(es), n) <==> Seen(es, n)
    ensures forall k :: 0 <= k < |es| && !Seen(es[..k], es[k].job.name) ==> es[k].job in Firsts(es)
  {
    forall n {
      MergeNames(es, n);
    }
    if es != [] {
      var front, last := es[..|es| - 1], es[|es| - 1];
      MergeIsFirstWins(front);
      forall k | 0 <= k < |es| && !Seen(es[..k], es[k].job.name) ensures es[k].job in Firsts(es) {
        if k < |front| {
          assert front[..k] == es[..k];
        }
      }
    }
  }

  /** Position k holds the first entry of its name. */
  predicate FirstOfName(es: seq<Entry>, k: nat) {
    k < |es| && forall i :: 0 <= i < k ==> es[i].job.name != es[k].job.name
  }

  ghost predicate JobsAt(es: seq<Entry>, at: seq<nat>, jobs: seq<Job>) {
    && |at| == |jobs|
    && (forall i, k :: 0 <= i < k < |at| ==> at[i] < at[k])
    && (forall i :: 0 <= i < |at| ==> at[i] < |es| && jobs[i] == es[at[i]].job)
    && (forall k: nat :: k in at <==> FirstOfName(es, k))
  }

  /** A merge holds the first entry of each name, in the order of the document. */
  lemma {:induction false} MergeKeepsOrder(es: seq<Entry>) returns (at: seq<nat>)
    ensures JobsAt(es, at, Firsts(es))
  {
    at := [];
    if es != [] {
      var n := |es| - 1;
      at := MergeKeepsOrder(es[..n]);
      assert es == es[..n] + [es[n]];
      AppendEntry(es[..n], es[n]);
      at := OneMoreEntry(es[..n], es[n], at, Firsts(es[..n]));
    }
  }

  lemma FirstOfMore(es: seq<Entry>, e: Entry, k: nat)
    ensures FirstOfName(es + [e], k) <==> FirstOfName(es, k) || (k == |es| && !Seen(es, e.job.name))
  {
    var next := es + [e];
    assert forall i :: 0 <= i < |es| ==> next[i] == es[i];
  }

  lemma OneMoreEntry(es: seq<Entry>, e: Entry, at: seq<nat>, jobs: seq<Job>) returns (at': seq<nat>)
    requires JobsAt(es, at, jobs)
    ensures JobsAt(es + [e], at', jobs + if Seen(es, e.job.name) then [] else [e.job])
  {
    at' := if Seen(es, e.job.name) then at else at + [|es|];
    forall k: nat ensures k in at' <==> FirstOfName(es + [e], k) {
      assert k in at' <==> k in at || (k == |es| && !Seen(es, e.job.name));
      FirstOfMore(es, e, k);
    }
    PlacesStay(es, e, at, jobs);
  }

  lemma PlacesStay(es: seq<Entry>, e: Entry, at: seq<nat>, jobs: seq<Job>)
    requires JobsAt(es, at, jobs)
    ensures forall i :: 0 <= i < |at| ==> at[i] < |es| && jobs[i] == (es + [e])[at[i]].job
  {
    assert forall i :: 0 <= i < |es| ==> (es + [e])[i] == es[i];
  }

  // ---------------------------------------------------------------- TerminalJobs

  predicate DependedOn(jobs: seq<Job>, n: Name) {
    exists i :: 0 <= i < |jobs| && n in jobs[i].deps
  }

  /** The names that occur in no depends-on list of the slice, in slice order. */
  function Terminals(jobs: seq<Job>, within: seq<Job>): seq<Name> {
    if jobs == [] then []
    else var last := jobs[|jobs| - 1].name;
      Terminals(jobs[..|jobs| - 1], within) + if DependedOn(within, last) then [] else [last]
  }

  method TerminalJobs(jobs: seq<Job>) returns (terminals: seq<Name>)
    ensures terminals == Terminals(jobs, jobs)
  {
    var depended: set<Name> := {};
    for i := 0 to |jobs|
      invariant forall n :: n in depended <==> DependedOn(jobs[..i], n)
    {
      var deps := jobs[i].deps;
      ghost var before := depended;
      for k := 0 to |deps|
        invariant forall n :: n in depended <==> n in before || n in deps[..k]
      {
        depended := depended + {deps[k]};
      }
      forall n ensures n in depended <==> DependedOn(jobs[..i + 1], n) {
        assert jobs[..i + 1] == jobs[..i] + [jobs[i]];
        if DependedOn(jobs[..i], n) {
          var m :| 0 <= m < i && n in jobs[..i][m].deps;
          assert jobs[..i + 1][m] == jobs[m];
        }
        assert jobs[..i + 1][i] == jobs[i];
        if DependedOn(jobs[..i + 1], n) && n !in deps {
          var m :| 0 <= m < i + 1 && n in jobs[..i + 1][m].deps;
          assert jobs[..i][m] == jobs[m];
        }
      }
    }
    assert jobs[..|jobs|] == jobs;
    terminals := [];
    for i := 0 to |jobs|
      invariant terminals == Terminals(jobs[..i], jobs)
    {
      assert jobs[..i + 1][..i] == jobs[..i];
      if jobs[i].name !in depended {
        terminals := terminals + [jobs[i].name];
      }
    }
  }

  lemma {:induction false} TerminalMembers(jobs: seq<Job>, within: seq<Job>, n: Name)
    ensures n in Terminals(jobs, within) <==> HasJob(jobs, n) && !DependedOn(within, n)
  {
    if jobs != [] {
      var front, last := jobs[..|jobs| - 1], jobs[|jobs| - 1];
      TerminalMembers(front, within, n);
      if HasJob(front, n) {
        var i :| 0 <= i < |front| && front[i].name == n;
        assert jobs[i].name == n;
      }
      assert forall i :: 0 <= i < |front| ==> front[i] == jobs[i];
      assert jobs[|front|] == last;
    }
  }

  /** No job of within lists j. */
  predicate NobodyNeeds(within: seq<Job>, j: Job) {
    forall k :: 0 <= k < |within| ==> j.name !in within[k].deps
  }

  /** The terminal jobs are named in the order of the jobs. */
  lemma {:induction false} TerminalsInOrder(jobs: seq<Job>, within: seq<Job>) returns (kept: seq<Job>)
    ensures Selects(jobs, (j: Job) => NobodyNeeds(within, j), kept)
    ensures |Terminals(jobs, within)| == |kept| && forall i :: 0 <= i < |kept| ==> Terminals(jobs, within)[i] == kept[i].name
  {
    kept := Where(jobs, (j: Job) => NobodyNeeds(within, j));
    WhereSelects(jobs, (j: Job) => NobodyNeeds(within, j));
    TerminalsAreWhere(jobs, within);
  }

  lemma {:induction false} TerminalsAreWhere(jobs: seq<Job>, within: seq<Job>)
    ensures var kept := Where(jobs, (j: Job) => NobodyNeeds(within, j));
      |Terminals(jobs, within)| == |kept| && forall i :: 0 <= i < |kept| ==> Terminals(jobs, within)[i] == kept[i].name
  {
    if jobs != [] {
      TerminalsAreWhere(jobs[..|jobs| - 1], within);
    }
  }

  /** Going from dependents to dependents in an acyclic job set ends at a terminal job. */
  lemma {:induction false} ClimbToTerminal(jobs: seq<Job>, rank: map<Name, nat>, top: nat, n: Name)
    requires UniqueNames(jobs) && HasJob(jobs, n) && Ranked(DepGraph(jobs), rank)
    requires forall x :: x in rank ==> rank[x] < top
    requires n in rank
    ensures exists t :: t in Terminals(jobs, jobs) && Reaches(DepGraph(jobs), t, n)
    decreases top - rank[n]
  {
    TerminalMembers(jobs, jobs, n);
    if DependedOn(jobs, n) {
      var i :| 0 <= i < |jobs| && n in jobs[i].deps;
      var m := jobs[i].name;
      DepGraphAt(jobs, i);
      DepGraphKeys(jobs, n);
      assert rank[n] < rank[m];
      ClimbToTerminal(jobs, rank, top, m);
      var t :| t in Terminals(jobs, jobs) && Reaches(DepGraph(jobs), t, m);
      ReachesEdge(DepGraph(jobs), m, n);
      ReachesTrans(DepGraph(jobs), t, m, n);
    } else {
      ReachesSelf(DepGraph(jobs), n);
    }
  }

  /** In an acyclic job set every job is terminal or a transitive dependency of a terminal job. */
  lemma TerminalsCoverJobs(jobs: seq<Job>, n: Name)
    requires UniqueNames(jobs) && Acyclic(DepGraph(jobs)) && HasJob(jobs, n)
    ensures exists t :: t in Terminals(jobs, jobs) && Reaches(DepGraph(jobs), t, n)
  {
    var rank := RankOf(DepGraph(jobs));
    DepGraphKeys(jobs, n);
    ClimbToTerminal(jobs, rank, RankBound(rank), n);
  }

  // ---------------------------------------------------------------- ExpandAliases

  type Aliases = map<Name, seq<Name>>

  function TargetsOf(dep: Name, aliases: Aliases): seq<Name> {
    if dep in aliases && aliases[dep] != [] then aliases[dep] else [dep]
  }

  function AddAll(acc: seq<Name>, names: seq<Name>): seq<Name> {
    if names == [] then acc
    else var front, last := AddAll(acc, names[..|names| - 1]), names[|names| - 1];
      if last in front then front else front + [last]
  }

  function Expanded(deps: seq<Name>, aliases: Aliases): seq<Name> {
    if deps == [] then []
    else AddAll(Expanded(deps[..|deps| - 1], aliases), TargetsOf(deps[|deps| - 1], aliases))
  }

  method ExpandDeps(deps: seq<Name>, aliases: Aliases) returns (deduped: seq<Name>)
    ensures deduped == Expanded(deps, aliases)
  {
    var seen: set<Name> := {};
    deduped := [];
    for i := 0 to |deps|
      invariant deduped == Expanded(deps[..i], aliases)
      invariant forall x :: x in seen <==> x in deduped
    {
      assert deps[..i + 1][..i] == deps[..i];
      var targets := if deps[i] in aliases then aliases[deps[i]] else [];
      if targets == [] {
        targets := [deps[i]];
      }
      ghost var before := deduped;
      for k := 0 to |targets|
        invariant deduped == AddAll(before, targets[..k])
        invariant forall x :: x in seen <==> x in deduped
      {
        assert targets[..k + 1][..k] == targets[..k];
        if targets[k] !in seen {
          seen := seen + {targets[k]};
          deduped := deduped + [targets[k]];
        }
      }
      assert targets[..|targets|] == targets;
    }
    assert deps[..|deps|] == deps;
  }

  lemma {:induction false} AddAllMembers(acc: seq<Name>, names: seq<Name>)
    ensures forall x :: x in AddAll(acc, names) <==> x in acc || x in names
    ensures Distinct(acc) ==> Distinct(AddAll(acc, names))
  {
    if names != [] {
      AddAllMembers(acc, names[..|names| - 1]);
      assert names == names[..|names| - 1] + [names[|names| - 1]];
    }
  }

  /** The expanded list is duplicate-free and holds exactly the targets of the original entries. */
  lemma {:induction false} ExpandedMembers(deps: seq<Name>, aliases: Aliases)
    ensures Distinct(Expanded(deps, aliases))
    ensures forall x :: x in Expanded(deps, aliases) <==> exists d :: d in deps && x in TargetsOf(d, aliases)
    ensures forall x :: x in Expanded(deps, aliases) <==> exists d :: d in deps && ReplacedBy(d, aliases, x)
  {
    if deps != [] {
      var front, last := deps[..|deps| - 1], deps[|deps| - 1];
      ExpandedMembers(front, aliases);
      assert forall d, x :: x in TargetsOf(d, aliases) <==> ReplacedBy(d, aliases, x);
      AddAllMembers(Expanded(front, aliases), TargetsOf(last, aliases));
      assert deps == front + [last];
    }
  }

  /** d is replaced by x: d is an alias of some jobs and x one of them, or it is not and stays. */
  predicate ReplacedBy(d: Name, aliases: Aliases, x: Name) {
    if d in aliases && |aliases[d]| > 0 then x in aliases[d] else x == d
  }

  /** The names that replace the entries, entry by entry. */
  function Replacements(deps: seq<Name>, aliases: Aliases): seq<Name> {
    FlatMap(deps, d => TargetsOf(d, aliases))
  }

  predicate FirstOccurrence(s: seq<Name>, k: nat) {
    k < |s| && forall i :: 0 <= i < k ==> s[i] != s[k]
  }

  ghost predicate OccurrencesAt(s: seq<Name>, at: seq<nat>, r: seq<Name>) {
    PickedAt(s, at, r) && forall k: nat :: k in at <==> FirstOccurrence(s, k)
  }

  lemma {:induction false} AddAllInOrder(s: seq<Name>, at: seq<nat>, acc: seq<Name>, names: seq<Name>) returns (at': seq<nat>)
    requires OccurrencesAt(s, at, acc)
    ensures OccurrencesAt(s + names, at', AddAll(acc, names))
    decreases |names|
  {
    if names == [] {
      at' := at;
      assert s + names == s;
    } else {
      var n := |names| - 1;
      at' := AddAllInOrder(s, at, acc, names[..n]);
      var t := s + names[..n];
      assert s + names == t + [names[n]];
      at' := AddOneInOrder(t, at', AddAll(acc, names[..n]), names[n]);
    }
  }

  lemma AddOneInOrder(s: seq<Name>, at: seq<nat>, acc: seq<Name>, x: Name) returns (at': seq<nat>)
    requires OccurrencesAt(s, at, acc)
    ensures OccurrencesAt(s + [x], at', if x in acc then acc else acc + [x])
  {
    OccurrencesHold(s, at, acc, x);
    at' := if x in acc then at else at + [|s|];
    forall k: nat ensures k in at' <==> FirstOccurrence(s + [x], k) {
      assert k in at' <==> k in at || (x !in acc && k == |s|);
      FirstInMore(s, x, k);
    }
    assert forall i :: 0 <= i < |s| ==> (s + [x])[i] == s[i];
  }

  lemma FirstInMore(s: seq<Name>, x: Name, k: nat)
    ensures FirstOccurrence(s + [x], k) <==> FirstOccurrence(s, k) || (k == |s| && x !in s)
  {
    var t := s + [x];
    assert forall i :: 0 <= i < |s| ==> t[i] == s[i];
  }

  lemma {:induction false} FirstOne(s: seq<Name>, x: Name, i: nat) returns (k: nat)
    requires i < |s| && s[i] == x
    ensures k <= i && s[k] == x && FirstOccurrence(s, k)
  {
    if m: nat :| m < i && s[m] == x {
      k := FirstOne(s, x, m);
    } else {
      k := i;
    }
  }

  lemma OccurrencesHold(s: seq<Name>, at: seq<nat>, acc: seq<Name>, x: Name)
    requires OccurrencesAt(s, at, acc)
    ensures x in acc <==> x in s
  {
    if x in s {
      var i :| 0 <= i < |s| && s[i] == x;
      var k := FirstOne(s, x, i);
      var m :| 0 <= m < |at| && at[m] == k;
      assert acc[m] == x;
    }
    if x in acc {
      var m :| 0 <= m < |acc| && acc[m] == x;
      assert s[at[m]] == x;
    }
  }

  /** The expanded list holds the replacements of the entries in their order, each where it first occurs. */
  lemma {:induction false} ExpandedInOrder(deps: seq<Name>, aliases: Aliases) returns (at: seq<nat>)
    ensures OccurrencesAt(Replacements(deps, aliases), at, Expanded(deps, aliases))
  {
    at := [];
    if deps != [] {
      var n := |deps| - 1;
      at := ExpandedInOrder(deps[..n], aliases);
      at := AddAllInOrder(Replacements(deps[..n], aliases), at, Expanded(deps[..n], aliases), TargetsOf(deps[n], aliases));
    }
  }

  /** An alias that is also a job name, other than a job standing for itself. */
  predicate Collides(jobs: seq<Job>, aliases: Aliases, alias: Name) {
    alias in aliases && HasJob(jobs, alias) && aliases[alias] != [alias]
  }

  predicate NoCollision(jobs: seq<Job>, aliases: Aliases) {
    forall a :: a in aliases ==> !Collides(jobs, aliases, a)
  }

  function ExpandAll(jobs: seq<Job>, aliases: Aliases): (r: seq<Job>)
    ensures |r| == |jobs| && forall i :: 0 <= i < |r| ==> r[i] == jobs[i].(deps := r[i].deps)
  {
    seq(|jobs|, i requires 0 <= i < |jobs| => jobs[i].(deps := Expanded(jobs[i].deps, aliases)))
  }

  method ExpandAliases(jobs: seq<Job>, aliases: Aliases) returns (r: Result<seq<Job>, MergeError>)
    ensures aliases == map[] ==> r == Ok(jobs)
    ensures aliases != map[] ==> (r.Ok? <==> NoCollision(jobs, aliases))
    ensures aliases != map[] && r.Ok? ==> r.value == ExpandAll(jobs, aliases)
    ensures r.Err? ==> r.error.AliasCollision? && Collides(jobs, aliases, r.error.alias)
  {
    if aliases == map[] {
      return Ok(jobs);
    }
    var jobNames: set<Name> := {};
    for i := 0 to |jobs|
      invariant forall n :: n in jobNames <==> exists k :: 0 <= k < i && jobs[k].name == n
    {
      jobNames := jobNames + {jobs[i].name};
    }
    var todo := aliases.Keys;
    while todo != {}
      invariant todo <= aliases.Keys
      invariant forall a :: a in aliases && a !in todo ==> !Collides(jobs, aliases, a)
    {
      var alias :| alias in todo;
      if alias in jobNames && !(|aliases[alias]| == 1 && aliases[alias][0] == alias) {
        return Err(AliasCollision(alias));
      }
      todo := todo - {alias};
    }
    var result: seq<Job> := [];
    for i := 0 to |jobs|
      invariant |result| == i
      invariant forall k :: 0 <= k < i ==> result[k] == jobs[k].(deps := Expanded(jobs[k].deps, aliases))
    {
      var c := jobs[i];
      if |jobs[i].deps| > 0 {
        var deps := ExpandDeps(jobs[i].deps, aliases);
        c := c.(deps := deps);
      }
      result := result + [c];
    }
    return Ok(result);
  }

  lemma ExpandedEdge(jobs: seq<Job>, aliases: Aliases, i: nat, x: Name)
    requires UniqueNames(jobs) && i < |jobs|
    requires exists d :: d in jobs[i].deps && x in TargetsOf(d, aliases)
    ensures Edge(DepGraph(ExpandAll(jobs, aliases)), jobs[i].name, x)
  {
    var e := ExpandAll(jobs, aliases);
    ExpandedMembers(jobs[i].deps, aliases);
    assert e[i].name == jobs[i].name && x in e[i].deps;
    assert UniqueNames(e);
    DepGraphAt(e, i);
  }

  /** Some job has the name and the dependencies of j. */
  predicate Kept(jobs: seq<Job>, j: Job) {
    exists k :: 0 <= k < |jobs| && jobs[k].name == j.name && jobs[k].deps == j.deps
  }

  predicate AllKept(jobs: seq<Job>, included: seq<Job>) {
    forall i :: 0 <= i < |included| ==> Kept(jobs, included[i])
  }

  /** A dependency chain inside the included jobs is still there after merging and expansion. */
  lemma {:induction false} ChainSurvives(included: seq<Job>, merged: seq<Job>, aliases: Aliases, p: seq<Name>)
    requires UniqueNames(included) && UniqueNames(merged) && NoCollision(merged, aliases) && AllKept(merged, included)
    requires IsPath(DepGraph(included), p) && HasJob(included, p[|p| - 1])
    ensures IsPath(DepGraph(ExpandAll(merged, aliases)), p)
  {
    if |p| > 1 {
      ChainSurvives(included, merged, aliases, p[1..]);
      EdgeIffDep(included, p[0], p[1]);
      var i :| 0 <= i < |included| && included[i].name == p[0] && p[1] in included[i].deps;
      assert Kept(merged, included[i]);
      var k :| 0 <= k < |merged| && merged[k].name == p[0] && merged[k].deps == included[i].deps;
      JobNotAlias(included, merged, aliases, p[1..]);
      assert p[1] in TargetsOf(p[1], aliases);
      ExpandedEdge(merged, aliases, k, p[1]);
    }
  }

  lemma JobNotAlias(included: seq<Job>, merged: seq<Job>, aliases: Aliases, p: seq<Name>)
    requires NoCollision(merged, aliases) && AllKept(merged, included)
    requires IsPath(DepGraph(included), p) && HasJob(included, p[|p| - 1])
    ensures TargetsOf(p[0], aliases) == [p[0]]
  {
    DepGraphKeys(included, p[0]);
    assert HasJob(included, p[0]);
    var i :| 0 <= i < |included| && included[i].name == p[0];
    assert Kept(merged, included[i]);
    assert HasJob(merged, p[0]);
  }

  /** A cycle among the included jobs would still be there after merging and expansion. */
  lemma CyclesSurvive(included: seq<Job>, merged: seq<Job>, aliases: Aliases)
    requires UniqueNames(included) && UniqueNames(merged) && NoCollision(merged, aliases) && AllKept(merged, included)
    ensures Acyclic(DepGraph(ExpandAll(merged, aliases))) ==> Acyclic(DepGraph(included))
  {
    forall p | IsCycle(DepGraph(included), p) ensures IsCycle(DepGraph(ExpandAll(merged, aliases)), p) {
      DepGraphKeys(included, p[0]);
      ChainSurvives(included, merged, aliases, p);
    }
  }

  /** Alias coverage. When the jobs of an acyclic include all reach the merged pipeline, a job that
      depends on the include's alias transitively depends on every one of them after expansion. */
  lemma AliasCoversInclude(included: seq<Job>, merged: seq<Job>, aliases: Aliases, alias: Name, j: Job, n: Name)
    requires UniqueNames(included) && Acyclic(DepGraph(included)) && HasJob(included, n)
    requires UniqueNames(merged) && AllKept(merged, included)
    requires NoCollision(merged, aliases) && alias in aliases && aliases[alias] == Terminals(included, included)
    requires j in merged && alias in j.deps
    ensures Reaches(DepGraph(ExpandAll(merged, aliases)), j.name, n)
  {
    var g := DepGraph(ExpandAll(merged, aliases));
    TerminalsCoverJobs(included, n);
    var t :| t in Terminals(included, included) && Reaches(DepGraph(included), t, n);
    var p: seq<Name> :| Links(DepGraph(included), p, t, n);
    ChainSurvives(included, merged, aliases, p);
    assert Links(g, p, t, n);
    var k :| 0 <= k < |merged| && merged[k] == j;
    assert t in TargetsOf(alias, aliases);
    ExpandedEdge(merged, aliases, k, t);
    ReachesEdge(g, j.name, t);
    ReachesTrans(g, j.name, t, n);
  }

  /** A list of distinct names that stand for themselves expands to itself. */
  lemma {:induction false} FixedDeps(deps: seq<Name>, aliases: Aliases)
    requires Distinct(deps) && forall d :: d in deps ==> TargetsOf(d, aliases) == [d]
    ensures Expanded(deps, aliases) == deps
  {
    if deps != [] {
      var front, last := deps[..|deps| - 1], deps[|deps| - 1];
      FixedDeps(front, aliases);
      assert last in deps && last !in front;
      assert AddAll(front, [last][..0]) == front;
    }
  }

  /** When every alias stands for job names of the merged pipeline, expanding once is enough. */
  lemma ExpansionIsIdempotent(jobs: seq<Job>, aliases: Aliases)
    requires NoCollision(jobs, aliases)
    requires forall a, t :: a in aliases && t in aliases[a] ==> HasJob(jobs, t)
    ensures NoCollision(ExpandAll(jobs, aliases), aliases)
    ensures ExpandAll(ExpandAll(jobs, aliases), aliases) == ExpandAll(jobs, aliases)
  {
    var e := ExpandAll(jobs, aliases);
    forall n | HasJob(e, n) ensures HasJob(jobs, n) {
      var i :| 0 <= i < |e| && e[i].name == n;
      assert jobs[i].name == n;
    }
    forall i | 0 <= i < |jobs| ensures Expanded(e[i].deps, aliases) == e[i].deps {
      ExpandedMembers(jobs[i].deps, aliases);
      forall x | x in e[i].deps ensures TargetsOf(x, aliases) == [x] {
        var d :| d in jobs[i].deps && x in TargetsOf(d, aliases);
      }
      FixedDeps(e[i].deps, aliases);
    }
    assert ExpandAll(e, aliases) == e;
  }
}
