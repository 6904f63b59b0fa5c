/** What depends on an alias depends on the whole include. */
module Coverage {
  // From the parsed root file to the pipeline with its aliases expanded.

  import opened Prelude
  import opened Graphs
  import opened PipelineModel
  import opened Params
  import opened Merge
  import opened IncludeMeaning
  import opened IncludeWalk
  import opened IncludeSites
  import opened Include

  // ---------------------------------------------------------------- which included jobs are kept

  lemma KeptAcross(jobs: seq<Job>, middle: seq<Job>, included: seq<Job>)
    requires AllKept(jobs, middle) && AllKept(middle, included)
    ensures AllKept(jobs, included)
  {
    forall i | 0 <= i < |included| ensures Kept(jobs, included[i]) {
      assert Kept(middle, included[i]);
      var k :| 0 <= k < |middle| && middle[k].name == included[i].name && middle[k].deps == included[i].deps;
      assert Kept(jobs, middle[k]);
    }
  }

  /** An include contributes all its jobs to the entries of the file it stands in. */
  lemma {:induction false} IncludeEnters(w: World, items: seq<Item>, from: Path, fuel: nat, s: Site, r: Resolved)
    requires DenoteItems(w, items, from, fuel).Some? && IsChild(items, s) && IncludeMeans(w, s.inc, from, r)
    ensures forall j :: j in r.jobs ==> Entry(j, s.inc.onConflict) in DenoteItems(w, items, from, fuel).value
  {
    var front, last := items[..|items| - 1], items[|items| - 1];
    if s.index < |front| {
      IncludeEnters(w, front, from, fuel, s, r);
    } else {
      var path := w.resolver[(s.inc.source, from)];
      var q := Denote(w, path, s.inc.params, fuel).value;
      assert Means(w, path, s.inc.params, q);
      MeaningIsUnique(w, path, s.inc.params, q, r);
      var added := Entries(r.jobs, s.inc.onConflict);
      forall j | j in r.jobs ensures Entry(j, s.inc.onConflict) in added {
        var i :| 0 <= i < |r.jobs| && r.jobs[i] == j;
        assert added[i] == Entry(j, s.inc.onConflict);
      }
    }
  }

  /** Where nothing clashes, a job that may not meet a conflict is the first of its name. */
  lemma StrictEntryIsFirst(es: seq<Entry>, j: Job)
    requires !Clashes(es) && Entry(j, ConflictError) in es
    ensures j in Firsts(es)
  {
    var k: nat :| k < |es| && es[k] == Entry(j, ConflictError);
    assert !ClashAt(es, k);
    MergeIsFirstWins(es);
  }

  lemma StrictChildIsKept(w: World, items: seq<Item>, from: Path, es: seq<Entry>, s: Site, r: Resolved)
    requires ItemsMean(w, items, from, es) && !Clashes(es)
    requires IsChild(items, s) && s.inc.onConflict == ConflictError && IncludeMeans(w, s.inc, from, r)
    ensures AllKept(Firsts(es), r.jobs)
  {
    var fuel: nat :| DenoteItems(w, items, from, fuel) == Some(es);
    IncludeEnters(w, items, from, fuel, s, r);
    forall i | 0 <= i < |r.jobs| ensures Kept(Firsts(es), r.jobs[i]) {
      StrictEntryIsFirst(es, r.jobs[i]);
    }
  }

  /** A file denotes the first jobs of its entries, whose names and dependencies parameters leave alone. */
  lemma FileHolds(w: World, path: Path, params: Combo, r: Resolved) returns (es: seq<Entry>)
    requires Means(w, path, params, r)
    ensures ItemsMean(w, ItemsAt(w, path), path, es) && !Clashes(es)
    ensures AllKept(r.jobs, Firsts(es)) && UniqueNames(r.jobs)
  {
    var fuel: nat :| Denote(w, path, params, fuel) == Some(r);
    var f := w.files[path];
    es := DenoteItems(w, ItemsOf(f.nodes), path, fuel - 1).value;
    MergeIsFirstWins(es);
    if IsFragmentFile(f.nodes) {
      SubstituteParamsKeepsGraph(Firsts(es), ResolvedParams(ParamDefs(f.nodes[0].children), params));
    }
  }

  /** The jobs of an included fragment are those of its entries, with the provided value, or else the
      default, of each parameter filled in wherever it stands in a text, and otherwise as they were. */
  lemma FragmentIsFilledIn(w: World, path: Path, params: Combo, r: Resolved) returns (es: seq<Entry>, values: Combo)
    requires Means(w, path, params, r) && path in w.files && IsFragmentFile(w.files[path].nodes)
    ensures ItemsMean(w, ItemsAt(w, path), path, es) && BindsExactly(values, ParamDefs(ItemsAt(w, path)), params)
    ensures |r.jobs| == |Firsts(es)| && forall i :: 0 <= i < |r.jobs| ==> JobBecomes(Firsts(es)[i], r.jobs[i], values, PARAM)
  {
    var fuel: nat :| Denote(w, path, params, fuel) == Some(r);
    var defs := ParamDefs(ItemsAt(w, path));
    es := DenoteItems(w, ItemsAt(w, path), path, fuel - 1).value;
    values := ResolvedParams(defs, params);
    ResolvedParamsExactly(defs, params);
    SubstituteParamsKeepsGraph(Firsts(es), values);
    forall i | 0 <= i < |r.jobs| ensures JobBecomes(Firsts(es)[i], r.jobs[i], values, PARAM) {
      JobsAreSubstituted(Firsts(es), values, i);
    }
  }

  /** Every include on the way is strict: it skips no conflict. */
  predicate Strict(p: seq<Site>) {
    forall i :: 0 <= i < |p| ==> p[i].inc.onConflict == ConflictError
  }

  lemma {:induction false} ChainMeans(w: World, p: seq<Site>, r: Resolved) returns (x: Resolved)
    requires Nested(w, p) && IncludeMeans(w, p[0].inc, p[0].owner.path, r) && Strict(p)
    ensures IncludeMeans(w, p[|p| - 1].inc, p[|p| - 1].owner.path, x) && AllKept(r.jobs, x.jobs)
    decreases |p|
  {
    x := r;
    assert AllKept(r.jobs, r.jobs);
    if |p| > 1 {
      var s, t := p[0], p[1];
      assert Behind(w, s, t);
      var path := TargetOf(w, s).path;
      var es := FileHolds(w, path, s.inc.params, r);
      var m := ChildMeans(w, ItemsAt(w, path), path, es, t);
      StrictChildIsKept(w, ItemsAt(w, path), path, es, t, m);
      KeptAcross(r.jobs, Firsts(es), m.jobs);
      assert forall i :: 0 <= i < |p| - 1 ==> p[1..][i] == p[i + 1];
      x := ChainMeans(w, p[1..], m);
      KeptAcross(r.jobs, m.jobs, x.jobs);
    }
  }

  lemma ChildMeans(w: World, items: seq<Item>, from: Path, es: seq<Entry>, t: Site) returns (m: Resolved)
    requires ItemsMean(w, items, from, es) && IsChild(items, t)
    ensures IncludeMeans(w, t.inc, from, m)
  {
    var fuel: nat :| DenoteItems(w, items, from, fuel) == Some(es);
    ChildDenotes(w, items, from, fuel, t);
    var path := w.resolver[(t.inc.source, from)];
    m := Denote(w, path, t.inc.params, fuel).value;
    assert Means(w, path, t.inc.params, m);
  }

  lemma {:induction false} ChildDenotes(w: World, items: seq<Item>, from: Path, fuel: nat, t: Site)
    requires DenoteItems(w, items, from, fuel).Some? && IsChild(items, t)
    ensures (t.inc.source, from) in w.resolver
    ensures Denote(w, w.resolver[(t.inc.source, from)], t.inc.params, fuel).Some?
  {
    var front := items[..|items| - 1];
    if t.index < |front| {
      ChildDenotes(w, front, from, fuel, t);
    }
  }

  ghost predicate StrictlyAmong(w: World, owner: Owner, items: seq<Item>, t: Site) {
    exists p: seq<Site> :: StrictChain(w, p, owner, items, t)
  }

  ghost predicate StrictChain(w: World, p: seq<Site>, owner: Owner, items: seq<Item>, t: Site) {
    Nested(w, p) && Strict(p) && p[0].owner == owner && IsChild(items, p[0]) && p[|p| - 1] == t
  }

  /** All jobs of an include reach the merged pipeline when no include on the way to it skips conflicts. */
  lemma StrictIncludesAreKept(w: World, items: seq<Item>, root: Path, es: seq<Entry>, t: Site, x: Resolved)
    requires ItemsMean(w, items, root, es) && !Clashes(es)
    requires StrictlyAmong(w, RootFile(root), items, t) && IncludeMeans(w, t.inc, t.owner.path, x)
    ensures AllKept(Firsts(es), x.jobs)
  {
    var p: seq<Site> :| StrictChain(w, p, RootFile(root), items, t);
    var m := ChildMeans(w, items, root, es, p[0]);
    StrictChildIsKept(w, items, root, es, p[0], m);
    var y := ChainMeans(w, p, m);
    MeaningIsUnique(w, w.resolver[(t.inc.source, t.owner.path)], t.inc.params, x, y);
    KeptAcross(Firsts(es), m.jobs, x.jobs);
  }

  // ---------------------------------------------------------------- the name an alias falls back to

  /** An include node without an alias is registered under the name of its fragment, or of its file. */
  lemma AliasFallsBack(w: World, owner: Owner, items: seq<Item>, aliases: Aliases, s: Site, r: Resolved)
    requires Tabled(w, owner, items, aliases) && Among(w, owner, items, s) && IncludeMeans(w, s.inc, s.owner.path, r)
    ensures TargetOf(w, s).path in w.files
    ensures var f := w.files[TargetOf(w, s).path];
      && (s.inc.alias != "" ==> MapsTo(aliases, s.inc.alias, Terminals(r.jobs, r.jobs)))
      && (s.inc.alias == "" && IsFragmentFile(f.nodes) ==> MapsTo(aliases, f.nodes[0].name, Terminals(r.jobs, r.jobs)))
      && (s.inc.alias == "" && !IsFragmentFile(f.nodes) ==> MapsTo(aliases, f.name, Terminals(r.jobs, r.jobs)))
  {
    TableHas(w, owner, items, aliases, s, r);
    var fuel: nat :| Denote(w, TargetOf(w, s).path, s.inc.params, fuel) == Some(r);
  }

  // ---------------------------------------------------------------- from the root file to the pipeline

  /** j depends on the alias of the include node s, whose file has a job n. */
  ghost predicate DependsOnInclude(w: World, s: Site, x: Resolved, j: Job, n: Name) {
    IncludeMeans(w, s.inc, s.owner.path, x) && AliasOf(s.inc, x) in j.deps && HasJob(x.jobs, n)
  }

  /** A job that depends on the alias of an include node, at whatever depth the node stands, depends in
      the end on every job of its file, provided that those jobs are all kept. */
  ghost predicate Covers(w: World, owner: Owner, items: seq<Item>, merged: seq<Job>, result: seq<Job>) {
    forall s, x, j, n ::
      Among(w, owner, items, s) && j in merged && DependsOnInclude(w, s, x, j, n) && AllKept(merged, x.jobs) ==>
        Reaches(DepGraph(result), j.name, n)
  }

  lemma TableHas(w: World, owner: Owner, items: seq<Item>, aliases: Aliases, s: Site, x: Resolved)
    requires Tabled(w, owner, items, aliases) && Among(w, owner, items, s) && IncludeMeans(w, s.inc, s.owner.path, x)
    ensures MapsTo(aliases, AliasOf(s.inc, x), Terminals(x.jobs, x.jobs))
  {
  }

  /** No include node bears the name of a job, unless its file comes down to just that job. */
  ghost predicate AliasesNameNoJob(w: World, owner: Owner, items: seq<Item>, merged: seq<Job>) {
    forall s, x :: Among(w, owner, items, s) && IncludeMeans(w, s.inc, s.owner.path, x) ==>
      HasJob(merged, AliasOf(s.inc, x)) ==> Terminals(x.jobs, x.jobs) == [AliasOf(s.inc, x)]
  }

  lemma CollisionIffNamed(w: World, owner: Owner, items: seq<Item>, merged: seq<Job>, aliases: Aliases)
    requires Tabled(w, owner, items, aliases) && forall a :: a in aliases <==> Borne(w, owner, items, a)
    ensures NoCollision(merged, aliases) <==> AliasesNameNoJob(w, owner, items, merged)
  {
    if AliasesNameNoJob(w, owner, items, merged) {
      forall a | a in aliases ensures !Collides(merged, aliases, a) {
        var s :| Among(w, owner, items, s) && Bears(w, s, a);
        var x :| IncludeMeans(w, s.inc, s.owner.path, x) && AliasOf(s.inc, x) == a;
        TableHas(w, owner, items, aliases, s, x);
      }
    }
    if NoCollision(merged, aliases) {
      forall s, x | Among(w, owner, items, s) && IncludeMeans(w, s.inc, s.owner.path, x)
        ensures HasJob(merged, AliasOf(s.inc, x)) ==> Terminals(x.jobs, x.jobs) == [AliasOf(s.inc, x)]
      {
        TableHas(w, owner, items, aliases, s, x);
        assert !Collides(merged, aliases, AliasOf(s.inc, x));
      }
    }
  }

  lemma TableCovers(w: World, owner: Owner, items: seq<Item>, merged: seq<Job>, aliases: Aliases)
    requires UniqueNames(merged) && NoCollision(merged, aliases) && Tabled(w, owner, items, aliases)
    requires Acyclic(DepGraph(ExpandAll(merged, aliases)))
    ensures Covers(w, owner, items, merged, ExpandAll(merged, aliases))
  {
    forall s, x, j, n |
      Among(w, owner, items, s) && j in merged && DependsOnInclude(w, s, x, j, n) && AllKept(merged, x.jobs)
      ensures Reaches(DepGraph(ExpandAll(merged, aliases)), j.name, n)
    {
      var es := FileHolds(w, TargetOf(w, s).path, s.inc.params, x);
      CyclesSurvive(x.jobs, merged, aliases);
      assert MapsTo(aliases, AliasOf(s.inc, x), Terminals(x.jobs, x.jobs));
      AliasCoversInclude(x.jobs, merged, aliases, AliasOf(s.inc, x), j, n);
    }
  }

  lemma NoNodeWithoutAlias(w: World, owner: Owner, items: seq<Item>, merged: seq<Job>, result: seq<Job>)
    requires Tabled(w, owner, items, map[])
    ensures Covers(w, owner, items, merged, result)
  {
    forall s, x | Among(w, owner, items, s) && IncludeMeans(w, s.inc, s.owner.path, x) ensures false {
      TableHas(w, owner, items, map[], s, x);
    }
  }

  /** A sound root file in which no alias is the name of another job. */
  ghost predicate Joins(w: World, items: seq<Item>, root: Path) {
    && Sound(w, items, root)
    && exists es :: ItemsMean(w, items, root, es) && !Clashes(es) && AliasesNameNoJob(w, RootFile(root), items, Firsts(es))
  }

  lemma NamedJobsDoNotJoin(w: World, items: seq<Item>, root: Path, es: seq<Entry>)
    requires ItemsMean(w, items, root, es) && !AliasesNameNoJob(w, RootFile(root), items, Firsts(es))
    ensures !Joins(w, items, root)
  {
    forall ds | ItemsMean(w, items, root, ds) ensures ds == es {
      ItemsMeaningIsUnique(w, items, root, es, ds);
    }
  }

  /** parse up to finalizePipeline's expansion of aliases. Unless includes nest too deeply it succeeds on
      exactly the sound root files in which no alias is the name of another job. In an acyclic result
      whoever depends on an include depends on all of it. */
  method ParseJobs(w: World, items: seq<Item>, root: Path)
    returns (r: Result<seq<Job>, IncludeError>, ghost es: seq<Entry>, ghost table: Aliases)
    requires WellNamed(w)
    ensures r.Ok? ==> Joins(w, items, root)
    ensures Joins(w, items, root) && !TooDeeply(w, items, root) ==> r.Ok?
    ensures r.Ok? ==> ItemsMean(w, items, root, es) && !Clashes(es)
    ensures r.Ok? ==> Tabled(w, RootFile(root), items, table) && forall a :: a in table <==> Borne(w, RootFile(root), items, a)
    ensures r.Ok? ==> r.value == if table == map[] then Firsts(es) else ExpandAll(Firsts(es), table)
    ensures r.Ok? && Acyclic(DepGraph(r.value)) ==> Covers(w, RootFile(root), items, Firsts(es), r.value)
  {
    var parsed;
    parsed, es := ParseRoot(w, items, root);
    if parsed.Err? {
      return Err(parsed.error), es, map[];
    }
    var jobs, aliases := parsed.value.jobs, parsed.value.aliases;
    MergeIsFirstWins(es);
    CollisionIffNamed(w, RootFile(root), items, jobs, aliases);
    var expanded := ExpandAliases(jobs, aliases);
    if expanded.Err? {
      NamedJobsDoNotJoin(w, items, root, es);
      return Err(BadMerge(expanded.error)), es, aliases;
    }
    r, table := Ok(expanded.value), aliases;
    if aliases == map[] {
      NoNodeWithoutAlias(w, RootFile(root), items, jobs, expanded.value);
    } else if Acyclic(DepGraph(expanded.value)) {
      TableCovers(w, RootFile(root), items, jobs, aliases);
    }
  }
}
