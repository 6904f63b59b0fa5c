/** Include resolution with its cache, as the parser runs it. */
module Include {
  // Include resolution as the parser runs it: an ancestor stack with its set, a cache shared by
  // diamond includes, and the table of include aliases.

  import opened Prelude
  import opened Graphs
  import opened PipelineModel
  import opened Params
  import opened Merge
  import opened CacheKeys
  import opened IncludeMeaning
  import opened IncludeWalk
  import opened IncludeSites
  import opened WalkSites

  /** A reported cycle ends in a real cycle of includes. */
  ghost predicate Explained(w: World, e: IncludeError) {
    e.CircularInclude? ==> exists i: nat :: i < |e.chain| && IsCycle(IncludeGraph(w), e.chain[i..])
  }

  // ---------------------------------------------------------------- collecting groups

  /** Job groups in document order; inline jobs are flushed as a group when an include comes. */
  class GroupCollector {
    var inline: seq<Job>
    var groups: seq<JobGroup>

    ghost function Contents(): seq<Entry>
      reads this
    {
      Flatten(groups) + Entries(inline, ConflictError)
    }

    constructor ()
      ensures Contents() == []
    {
      inline, groups := [], [];
    }

    method AddJob(j: Job)
      modifies this
      ensures Contents() == old(Contents()) + [Entry(j, ConflictError)]
    {
      inline := inline + [j];
      assert Entries(inline, ConflictError) == old(Entries(inline, ConflictError)) + [Entry(j, ConflictError)];
    }

    method AddInclude(jobs: seq<Job>, onConflict: ConflictStrategy)
      modifies this
      ensures Contents() == old(Contents()) + Entries(jobs, onConflict)
    {
      Flush();
      ghost var before := groups;
      groups := groups + [JobGroup(jobs, onConflict)];
      assert groups[..|groups| - 1] == before;
    }

    method Flush()
      modifies this
      ensures inline == [] && Contents() == old(Contents())
    {
      if |inline| > 0 {
        ghost var before := groups;
        groups := groups + [JobGroup(inline, ConflictError)];
        assert groups[..|groups| - 1] == before;
        inline := [];
      }
    }

    method Merge() returns (r: Result<seq<Job>, MergeError>)
      modifies this
      ensures r.Ok? <==> !Clashes(old(Contents()))
      ensures r.Ok? ==> r.value == Firsts(old(Contents()))
    {
      Flush();
      assert Contents() == Flatten(groups);
      r := MergeJobs(groups);
    }
  }

  // ---------------------------------------------------------------- the resolver state

  ghost predicate CachedFor(w: World, key: string, r: Resolved) {
    exists p, c: Combo :: p in w.resolver.Values && CacheKey(p, c) == key && Means(w, p, c, r)
  }

  /** Every cache entry is what its file, given its parameters, denotes. */
  ghost predicate CacheOk(w: World, cache: map<string, Resolved>) {
    forall k {:trigger CachedFor(w, k, cache[k])} :: k in cache ==> CachedFor(w, k, cache[k])
  }

  ghost predicate StackOk(stack: seq<Path>, members: set<Path>) {
    |stack| <= MAX_INCLUDE_DEPTH && Distinct(stack) && members == Elements(stack)
  }

  /** What may stop the merge of a file's children even when every include in it resolves. */
  ghost predicate Unfit(items: seq<Item>, inFragment: bool, es: seq<Entry>) {
    Clashes(es) || BadChildren(items, inFragment)
  }

  predicate Allowed(items: seq<Item>, inFragment: bool) {
    forall i :: 0 <= i < |items| ==> if inFragment then InFragment(items[i]) else !items[i].ParamItem?
  }

  ghost predicate BadChildren(items: seq<Item>, inFragment: bool) {
    !Allowed(items, inFragment) || (inFragment && !DistinctParams(ParamDefs(items)))
  }

  predicate Extends(a: Aliases, b: Aliases) {
    forall n :: n in a ==> n in b && b[n] == a[n]
  }

  /** What the resolver takes for granted of the files: their cache keys tell requests apart, and the
      names of their parameters leave no choice which placeholder a text holds. */
  ghost predicate WellNamed(w: World) {
    KeysApart(w.resolver.Values) && ParamsUnambiguous(w)
  }

  class IncludeState {
    var ancestors: seq<Path>
    var ancestorSet: set<Path>
    var cache: map<string, Resolved>
    var aliases: Aliases
    ghost var sites: map<Name, Site>

    ghost function Book(): Ledger
      reads this
    {
      Ledger(cache, aliases, sites)
    }

    ghost predicate Valid(w: World)
      reads this
    {
      && StackOk(ancestors, ancestorSet) && Chain(w, ancestors)
      && CacheOk(w, cache) && BookOk(w, Book())
    }

    constructor (ghost w: World)
      ensures Valid(w) && ancestors == [] && Book() == NOTHING
    {
      ancestors, ancestorSet, cache, aliases := [], {}, map[], map[];
      sites := map[];
    }

    /** Refuses a path already on the stack and a stack that is full; otherwise grows the stack. */
    method Push(path: Path) returns (e: Option<IncludeError>)
      requires StackOk(ancestors, ancestorSet)
      modifies this`ancestors, this`ancestorSet
      ensures StackOk(ancestors, ancestorSet)
      ensures e.None? <==> path !in old(ancestors) && |old(ancestors)| < MAX_INCLUDE_DEPTH
      ensures e.None? ==> ancestors == old(ancestors) + [path]
      ensures e.Some? ==> ancestors == old(ancestors) && ancestorSet == old(ancestorSet)
      ensures e.Some? ==> e.value == if path in ancestors then CircularInclude(ancestors + [path]) else IncludeDepth
    {
      if path in ancestorSet {
        return Some(CircularInclude(ancestors + [path]));
      }
      if |ancestors| >= MAX_INCLUDE_DEPTH {
        return Some(IncludeDepth);
      }
      ancestors := ancestors + [path];
      ancestorSet := ancestorSet + {path};
      e := None;
    }

    method Pop()
      requires StackOk(ancestors, ancestorSet) && ancestors != []
      modifies this`ancestors, this`ancestorSet
      ensures StackOk(ancestors, ancestorSet)
      ensures ancestors == old(ancestors[..|ancestors| - 1])
      ensures ancestorSet == old(ancestorSet) - {old(ancestors[|ancestors| - 1])}
    {
      var last := ancestors[|ancestors| - 1];
      assert ancestors == ancestors[..|ancestors| - 1] + [last];
      ancestors := ancestors[..|ancestors| - 1];
      ancestorSet := ancestorSet - {last};
    }

    /** Registers the alias of a resolved include, or refuses one that is taken. */
    method RegisterAlias(w: World, hit: Resolved, ghost here: Site, inc: Directive)
      returns (r: Result<Resolved, IncludeError>)
      requires here.inc == inc && IncludeMeans(w, inc, here.owner.path, hit)
      modifies this`aliases, this`sites
      ensures Extends(old(aliases), aliases)
      ensures r.Ok? <==> AliasOf(inc, hit) !in old(aliases)
      ensures r.Ok? ==> r.value == hit
      ensures r.Ok? ==> Book() == WithAlias(old(Book()), AliasOf(inc, hit), Terminals(hit.jobs, hit.jobs), here)
      ensures r.Err? ==> Book() == old(Book()) && r.error == DuplicateAlias(AliasOf(inc, hit))
    {
      var alias := AliasOf(inc, hit);
      var terminals := TerminalJobs(hit.jobs);
      if alias in aliases {
        return Err(DuplicateAlias(alias));
      }
      aliases := aliases[alias := terminals];
      sites := sites[alias := here];
      return Ok(hit);
    }

    /** Resolves one directive. A success is what the file denotes, whatever the cache held before;
        the stack is restored on every exit; only here and nodes under it are registered, each once.
        Where the file has a meaning, nothing but two nodes of one alias or too long a chain of
        includes is an error; and where resolution without the cache succeeds from the same stack and
        at least the same aliases, so does this. */
    method ResolveInclude(w: World, inc: Directive, from: Path, ghost here: Site, ghost plain: Aliases)
      returns (r: Result<Resolved, IncludeError>)
      requires Valid(w) && WellNamed(w) && StandsIn(w, inc, from, ancestors)
      requires here.inc == inc && here.owner.path == from && MayResolve(Book(), ancestors, here)
      requires aliases.Keys <= plain.Keys
      modifies this
      ensures Valid(w) && Extends(old(aliases), aliases)
      ensures ancestors == old(ancestors) && ancestorSet == old(ancestorSet)
      ensures r.Ok? ==> IncludeMeans(w, inc, from, r.value)
      ensures r.Ok? ==> AliasOf(inc, r.value) !in old(aliases) && AliasOf(inc, r.value) in aliases
      ensures r.Ok? ==> aliases[AliasOf(inc, r.value)] == Terminals(r.value.jobs, r.value.jobs)
      ensures r.Ok? ==> GrownAt(w, old(Book()), Book(), ancestors, here) && Booked(w, Book(), here)
      ensures r.Err? ==> Explained(w, r.error) && StopsAt(w, old(Book()), ancestors, here, r.error)
      ensures r.Err? ==> Capped(r.error) || NoTarget(w, inc, from)
      ensures match WalkInclude(w, inc, from, ancestors, plain)
        case Ok(x) => r.Ok? && aliases.Keys <= x.aliases.Keys
        case Err(_) => true
      decreases Room(ancestors), 0, 0
    {
      ghost var stack, before := ancestors, Book();
      r := ResolveNode(w, inc, from, here);
      if r.Ok? {
        WalkHasAliases(w, here, stack, plain, before, Book());
      } else {
        WalkIsNotStopped(w, here, stack, plain, before, r.error);
      }
    }

    method ResolveNode(w: World, inc: Directive, from: Path, ghost here: Site)
      returns (r: Result<Resolved, IncludeError>)
      requires Valid(w) && WellNamed(w) && StandsIn(w, inc, from, ancestors)
      requires here.inc == inc && here.owner.path == from && MayResolve(Book(), ancestors, here)
      modifies this
      ensures Valid(w) && Extends(old(aliases), aliases)
      ensures ancestors == old(ancestors) && ancestorSet == old(ancestorSet)
      ensures NodeOutcome(w, old(Book()), Book(), ancestors, here, r)
      decreases Room(ancestors), 0, -1
    {
      if (inc.source, from) !in w.resolver {
        return Err(Unresolvable(inc.source));
      }
      var path := w.resolver[(inc.source, from)];
      ghost var stack := ancestors;
      var e := Push(path);
      if e.Some? {
        if path in stack {
          RepeatRefused(w, here, stack, Book());
        } else {
          FullRefused(w, here, stack, Book());
        }
        return Err(e.value);
      }
      ChainGrows(w, inc, from, stack);
      r := ResolvePushed(w, inc, path, stack, here);
      Pop();
    }

    /** The part of ResolveInclude between push and the deferred pop. */
    method ResolvePushed(w: World, inc: Directive, path: Path, ghost stack: seq<Path>, ghost here: Site)
      returns (r: Result<Resolved, IncludeError>)
      requires Valid(w) && WellNamed(w) && ancestors == stack + [path] && path !in stack
      requires here.inc == inc && Resolves(w, here) && TargetOf(w, here).path == path && MayResolve(Book(), stack, here)
      modifies this
      ensures Valid(w) && Extends(old(aliases), aliases)
      ensures ancestors == old(ancestors) && ancestorSet == old(ancestorSet)
      ensures NodeOutcome(w, old(Book()), Book(), stack, here, r)
      decreases Room(ancestors), 5
    {
      ghost var before := Book();
      var key := CacheKey(path, inc.params);
      if key in cache {
        var hit := cache[key];
        HitMeans(w, key, hit, path, inc.params);
        r := RegisterAlias(w, hit, here, inc);
        NodeRegisters(w, before, before, Book(), stack, here, hit, r);
        return;
      }
      FileEntered(w, before, stack, path, inc.params);
      r := ParseIncludedFile(w, path, inc.params);
      if r.Err? {
        FileStops(w, before, stack, here, r.error);
        return;
      }
      ghost var read := Book();
      var found := r.value;
      r := RegisterAlias(w, found, here, inc);
      NodeRegisters(w, before, read, Book(), stack, here, found, r);
    }

    /** Tells a fragment file from a pipeline file by its top-level nodes, and includes it as such. */
    method ParseIncludedFile(w: World, path: Path, params: Combo)
      returns (r: Result<Resolved, IncludeError>)
      requires Valid(w) && WellNamed(w) && path in w.resolver.Values
      requires Entered(Book(), ancestors, Included(path, params))
      modifies this
      ensures Valid(w) && Extends(old(aliases), aliases)
      ensures ancestors == old(ancestors) && ancestorSet == old(ancestorSet)
      ensures r.Ok? ==> Means(w, path, params, r.value)
      ensures r.Ok? ==> FileBooked(w, old(Book()), Book(), ancestors, path, params)
      ensures r.Err? ==> FileRefused(w, old(Book()), ancestors, path, params, r.error)
      decreases Room(ancestors), 4
    {
      if path !in w.files {
        NoFileMeaning(w, path, params);
        return Err(Unreadable);
      }
      var f := w.files[path];
      var fragment, others := ClassifyNodes(f.nodes);
      if !(fragment.Ok? && (fragment.value.Some? != others)) {
        NeitherKind(w, path, params);
      }
      if fragment.Err? {
        return Err(fragment.error);
      }
      if fragment.value.Some? && others {
        return Err(AmbiguousFile);
      } else if fragment.value.Some? {
        r := IncludeFragment(w, path, params);
      } else if others {
        r := IncludePipelineFile(w, path, params);
      } else {
        return Err(EmptyInclude);
      }
    }

    /** includeFragment: collects the fragment's children, resolves its parameters, substitutes them
        and caches the outcome. */
    method IncludeFragment(w: World, path: Path, params: Combo)
      returns (r: Result<Resolved, IncludeError>)
      requires Valid(w) && WellNamed(w) && path in w.resolver.Values
      requires path in w.files && IsFragmentFile(w.files[path].nodes)
      requires Entered(Book(), ancestors, Included(path, params))
      modifies this
      ensures Valid(w) && Extends(old(aliases), aliases)
      ensures ancestors == old(ancestors) && ancestorSet == old(ancestorSet)
      ensures r.Ok? ==> Means(w, path, params, r.value)
      ensures r.Ok? ==> FileBooked(w, old(Book()), Book(), ancestors, path, params)
      ensures r.Err? ==> FileRefused(w, old(Book()), ancestors, path, params, r.error)
      decreases Room(ancestors), 3
    {
      ghost var before := Book();
      var node := w.files[path].nodes[0];
      var collected, es := CollectItems(w, node.children, path, true, Included(path, params));
      if collected.Err? {
        MisfitFile(w, path, params, true);
        return Err(collected.error);
      }
      var resolved := ResolveParams(collected.value.defs, params);
      if resolved.Err? {
        UnfitParams(w, path, params);
        return Err(BadParams(resolved.error));
      }
      ResolvedUnambiguous(collected.value.defs, params);
      var jobs := SubstituteJobs(collected.value.jobs, resolved.value);
      var found := Resolved(node.name, jobs);
      CacheFile(w, path, params, found, before, es);
      return Ok(found);
    }

    /** includePipelineFile: collects the file's jobs and caches them; parameters are refused. */
    method IncludePipelineFile(w: World, path: Path, params: Combo)
      returns (r: Result<Resolved, IncludeError>)
      requires Valid(w) && WellNamed(w) && path in w.resolver.Values
      requires path in w.files && IsPipelineFile(w.files[path].nodes) && !IsFragmentFile(w.files[path].nodes)
      requires Entered(Book(), ancestors, Included(path, params))
      modifies this
      ensures Valid(w) && Extends(old(aliases), aliases)
      ensures ancestors == old(ancestors) && ancestorSet == old(ancestorSet)
      ensures r.Ok? ==> Means(w, path, params, r.value)
      ensures r.Ok? ==> FileBooked(w, old(Book()), Book(), ancestors, path, params)
      ensures r.Err? ==> FileRefused(w, old(Book()), ancestors, path, params, r.error)
      decreases Room(ancestors), 3
    {
      ghost var before := Book();
      if params != map[] {
        NoFileMeaning(w, path, params);
        return Err(PipelineNoParams);
      }
      var items := ItemsOf(w.files[path].nodes);
      var collected, es := CollectItems(w, items, path, false, Included(path, params));
      if collected.Err? {
        MisfitFile(w, path, params, false);
        return Err(collected.error);
      }
      var found := Resolved(w.files[path].name, collected.value.jobs);
      CacheFile(w, path, params, found, before, es);
      return Ok(found);
    }

    method CacheFile(w: World, path: Path, params: Combo, found: Resolved, ghost before: Ledger, ghost es: seq<Entry>)
      requires Valid(w) && WellNamed(w) && path in w.resolver.Values && path in w.files
      requires ItemsMean(w, ItemsOf(w.files[path].nodes), path, es) && FileMeaning(w.files[path], params, es) == Some(found)
      requires Progress(w, before, Book(), ancestors, Included(path, params), ItemsAt(w, path))
      modifies this`cache
      ensures Valid(w) && cache == old(cache)[CacheKey(path, params) := found]
      ensures Means(w, path, params, found) && FileBooked(w, before, Book(), ancestors, path, params)
    {
      FileMeans(w, path, params, es, found);
      FileCached(w, before, Book(), ancestors, path, params, found);
      assert CachedFor(w, CacheKey(path, params), found);
      cache := cache[CacheKey(path, params) := found];
    }

    /** The loop over the children of a fragment or of a pipeline file, and the merge behind it. */
    method CollectItems(w: World, items: seq<Item>, file: Path, inFragment: bool, ghost owner: Owner)
      returns (r: Result<Collected, IncludeError>, ghost es: seq<Entry>)
      requires Valid(w) && WellNamed(w)
      requires file in w.files && items == ItemsOf(w.files[file].nodes)
      requires owner.Included? && owner.path == file && Entered(Book(), ancestors, owner)
      modifies this
      ensures Valid(w) && Extends(old(aliases), aliases)
      ensures ancestors == old(ancestors) && ancestorSet == old(ancestorSet)
      ensures r.Ok? ==> ItemsMean(w, items, file, es) && !Unfit(items, inFragment, es)
      ensures r.Ok? ==> r.value == Collected(Firsts(es), ParamDefs(items))
      ensures r.Ok? ==> Progress(w, old(Book()), Book(), ancestors, owner, items)
      ensures r.Err? ==> ItemsRefused(w, old(Book()), ancestors, owner, items, inFragment, r.error)
      decreases Room(ancestors), 2
    {
      ghost var before := Book();
      var gc := new GroupCollector();
      var e, defs := AddItems(w, items, file, inFragment, gc, owner);
      if e.Some? {
        return Err(e.value), [];
      }
      es := gc.Contents();
      var merged := MergeItems(w, items, inFragment, gc, before, ancestors, owner);
      r := if merged.Err? then Err(merged.error) else Ok(Collected(merged.value, defs));
    }

    method AddItems(w: World, items: seq<Item>, file: Path, inFragment: bool, gc: GroupCollector, ghost owner: Owner)
      returns (e: Option<IncludeError>, defs: seq<ParamDef>)
      requires Valid(w) && WellNamed(w) && gc.Contents() == []
      requires file in w.files && items == ItemsOf(w.files[file].nodes)
      requires owner.Included? && owner.path == file && Entered(Book(), ancestors, owner)
      modifies this, gc
      ensures Valid(w) && Extends(old(aliases), aliases)
      ensures ancestors == old(ancestors) && ancestorSet == old(ancestorSet)
      ensures e.None? ==> ItemsMean(w, items, file, gc.Contents()) && !BadChildren(items, inFragment)
      ensures e.None? ==> defs == ParamDefs(items) && Progress(w, old(Book()), Book(), ancestors, owner, items)
      ensures e.Some? ==> ItemsRefused(w, old(Book()), ancestors, owner, items, inFragment, e.value)
      decreases Room(ancestors), 1, 1
    {
      ghost var before := Book();
      defs := [];
      assert items[..0] == [];
      NoItemsMean(w, file);
      for i := 0 to |items|
        invariant Valid(w) && Extends(old(aliases), aliases)
        invariant ancestors == old(ancestors) && ancestorSet == old(ancestorSet)
        invariant ItemsMean(w, items[..i], file, gc.Contents())
        invariant !BadChildren(items[..i], inFragment)
        invariant defs == ParamDefs(items[..i])
        invariant Progress(w, before, Book(), ancestors, owner, items[..i])
      {
        e, defs := AddItem(w, items, i, file, inFragment, gc, defs, before, owner);
        if e.Some? {
          return;
        }
      }
      assert items[..|items|] == items;
      e := None;
    }

    /** resolveChildInclude and addInclude: the include's jobs, or why there are none. */
    method AddIncludeItem(w: World, ghost front: seq<Item>, inc: Directive, file: Path, gc: GroupCollector,
                          ghost before: Ledger, ghost owner: Owner)
      returns (e: Option<IncludeError>)
      requires Valid(w) && WellNamed(w) && StandsIn(w, inc, file, ancestors)
      requires owner.path == file && Progress(w, before, Book(), ancestors, owner, front)
      requires ItemsMean(w, front, file, gc.Contents())
      modifies this, gc
      ensures Valid(w) && Extends(old(aliases), aliases)
      ensures ancestors == old(ancestors) && ancestorSet == old(ancestorSet)
      ensures e.None? ==> ItemsMean(w, front + [IncludeItem(inc)], file, gc.Contents())
      ensures e.None? ==> Progress(w, before, Book(), ancestors, owner, front + [IncludeItem(inc)])
      ensures e.Some? ==> ItemRefused(w, before, ancestors, owner, front + [IncludeItem(inc)], e.value)
      decreases Room(ancestors), 0, 1
    {
      ghost var es, stack, now := gc.Contents(), ancestors, Book();
      ghost var here := Site(owner, |front|, inc);
      var r := ResolveInclude(w, inc, file, here, aliases);
      if r.Err? {
        NodeStops(w, before, now, stack, here, front, r.error);
        if !Capped(r.error) {
          NoLastMeaning(w, front, IncludeItem(inc), file);
        }
        return Some(r.error);
      }
      gc.AddInclude(r.value.jobs, inc.onConflict);
      IncludeAdds(w, front, inc, file, es, r.value);
      NodeDone(w, before, now, Book(), stack, here, front);
      e := None;
    }

    /** One child: an include is resolved and added, any other child is added or refused. */
    method AddItem(w: World, items: seq<Item>, i: nat, file: Path, inFragment: bool, gc: GroupCollector,
                   defs: seq<ParamDef>, ghost before: Ledger, ghost owner: Owner)
      returns (e: Option<IncludeError>, defs': seq<ParamDef>)
      requires Valid(w) && WellNamed(w)
      requires file in w.files && items == ItemsOf(w.files[file].nodes) && i < |items|
      requires owner.Included? && owner.path == file && Progress(w, before, Book(), ancestors, owner, items[..i])
      requires ItemsMean(w, items[..i], file, gc.Contents())
      requires !BadChildren(items[..i], inFragment)
      requires defs == ParamDefs(items[..i])
      modifies this, gc
      ensures Valid(w) && Extends(old(aliases), aliases)
      ensures ancestors == old(ancestors) && ancestorSet == old(ancestorSet)
      ensures e.None? ==> ItemsMean(w, items[..i + 1], file, gc.Contents())
      ensures e.None? ==> !BadChildren(items[..i + 1], inFragment)
      ensures e.None? ==> Progress(w, before, Book(), ancestors, owner, items[..i + 1])
      ensures e.None? ==> defs' == ParamDefs(items[..i + 1])
      ensures e.Some? ==> ItemsRefused(w, before, ancestors, owner, items, inFragment, e.value)
      decreases Room(ancestors), 1, 0
    {
      ghost var front := items[..i];
      NextChild(items, i);
      if items[i].IncludeItem? {
        IncludeKeepsGood(front, items[i].inc, inFragment);
        e := AddIncludeItem(w, front, items[i].inc, file, gc, before, owner);
      } else {
        e := AddOtherItem(w, front, items[i], inFragment, gc, defs, before, Book(), ancestors, owner);
      }
      if e.Some? {
        PrefixRefused(w, before, ancestors, owner, items, i + 1, inFragment, e.value);
      }
      defs' := if items[i].ParamItem? then defs + [items[i].def] else defs;
    }
  }

  /** A job is added, a parameter checked for a duplicate, an ignored node passed over; what the
      enclosing kind of file does not know is refused. */
  method AddOtherItem(w: World, ghost front: seq<Item>, it: Item, inFragment: bool, gc: GroupCollector, defs: seq<ParamDef>,
                      ghost before: Ledger, ghost now: Ledger, ghost stack: seq<Path>, ghost owner: Owner)
    returns (e: Option<IncludeError>)
    requires !it.IncludeItem? && Progress(w, before, now, stack, owner, front)
    requires ItemsMean(w, front, owner.path, gc.Contents())
    requires !BadChildren(front, inFragment) && (inFragment ==> defs == ParamDefs(front))
    modifies gc
    ensures e.None? ==> ItemsMean(w, front + [it], owner.path, gc.Contents())
    ensures e.None? ==> !BadChildren(front + [it], inFragment)
    ensures e.None? ==> Progress(w, before, now, stack, owner, front + [it])
    ensures e.Some? ==> OutOfPlace(front + [it], inFragment, e.value) || ItemRefused(w, before, stack, owner, front + [it], e.value)
  {
    assert (front + [it])[..|front|] == front;
    match it {
      case JobItem(job) =>
        ItemAdds(w, front, it, owner.path, gc.Contents());
        gc.AddJob(job);
      case ParamItem(def) =>
        if !inFragment {
          assert (front + [it])[|front|].ParamItem?;
          return Some(UnknownNode);
        }
        if k: nat :| k < |defs| && defs[k].name == def.name {
          assert ParamDefs(front + [it]) == defs + [def] && (defs + [def])[k].name == (defs + [def])[|defs|].name;
          return Some(DuplicateParamDef(def.name));
        }
        ItemAdds(w, front, it, owner.path, gc.Contents());
      case IgnoredItem =>
        if inFragment {
          assert !InFragment((front + [it])[|front|]);
          return Some(UnknownNode);
        }
        ItemAdds(w, front, it, owner.path, gc.Contents());
      case UnknownItem =>
        NoLastMeaning(w, front, it, owner.path);
        return Some(UnknownNode);
      case MalformedItem =>
        NoLastMeaning(w, front, it, owner.path);
        return Some(Malformed);
    }
    OtherDone(w, before, now, stack, owner, front, it);
    e := None;
  }

  /** The merge behind the loop over a file's children. */
  method MergeItems(w: World, items: seq<Item>, inFragment: bool, gc: GroupCollector,
                    ghost before: Ledger, ghost stack: seq<Path>, ghost owner: Owner)
    returns (r: Result<seq<Job>, IncludeError>)
    requires ItemsMean(w, items, owner.path, gc.Contents()) && !BadChildren(items, inFragment)
    modifies gc
    ensures r.Ok? ==> !Unfit(items, inFragment, old(gc.Contents())) && r.value == Firsts(old(gc.Contents()))
    ensures r.Err? ==> r.error.BadMerge? && ItemsRefused(w, before, stack, owner, items, inFragment, r.error)
  {
    ghost var es := gc.Contents();
    var merged := gc.Merge();
    if merged.Err? {
      ClashIsMisfit(w, items, owner.path, inFragment, es);
      return Err(BadMerge(merged.error));
    }
    return Ok(merged.value);
  }

  lemma NextChild(items: seq<Item>, i: nat)
    requires i < |items|
    ensures items[..i + 1] == items[..i] + [items[i]]
    ensures ParamDefs(items[..i + 1]) == ParamDefs(items[..i]) + if items[i].ParamItem? then [items[i].def] else []
  {
    assert items[..i + 1][..i] == items[..i];
  }

  lemma IncludeKeepsGood(front: seq<Item>, inc: Directive, inFragment: bool)
    requires !BadChildren(front, inFragment)
    ensures !BadChildren(front + [IncludeItem(inc)], inFragment)
  {
    var items := front + [IncludeItem(inc)];
    assert items[..|items| - 1] == front;
    assert ParamDefs(items) == ParamDefs(front);
  }

  // ---------------------------------------------------------------- the root file

  datatype Parsed = Parsed(jobs: seq<Job>, aliases: Aliases)

  /** What the root file must satisfy for its includes to resolve, apart from how deep they nest: the
      file has a meaning, its groups merge, and no two include nodes bear one alias. */
  ghost predicate Sound(w: World, items: seq<Item>, root: Path) {
    && Allowed(items, false)
    && AliasesApart(w, RootFile(root), items)
    && exists es :: ItemsMean(w, items, root, es) && !Clashes(es)
  }

  /** Some 65 include nodes are nested in one another. */
  ghost predicate TooDeeply(w: World, items: seq<Item>, root: Path) {
    DeepAmong(w, RootFile(root), items, 65)
  }

  /** The root file's loop: merges its jobs and includes and hands on the aliases. What it returns is
      what the items denote, with exactly the aliases their include nodes bear. Unless includes nest
      too deeply it succeeds exactly on a sound root file; where the items denote entries that merge,
      only depth and a repeated alias are errors. Resolving everything again at every use, without the
      cache, returns the same or is stopped by the depth limit or an alias met twice; and whenever that
      succeeds, so does this. */
  method ParseRoot(w: World, items: seq<Item>, root: Path)
    returns (r: Result<Parsed, IncludeError>, ghost es: seq<Entry>)
    requires WellNamed(w)
    ensures r.Ok? ==> ItemsMean(w, items, root, es) && !Clashes(es) && r.value.jobs == Firsts(es)
    ensures r.Ok? ==> Tabled(w, RootFile(root), items, r.value.aliases)
    ensures r.Ok? ==> forall a :: a in r.value.aliases <==> Borne(w, RootFile(root), items, a)
    ensures r.Ok? ==> Sound(w, items, root)
    ensures Sound(w, items, root) && !TooDeeply(w, items, root) ==> r.Ok?
    ensures r.Err? ==> Explained(w, r.error)
    ensures r.Err? && Capped(r.error) ==> !AliasesApart(w, RootFile(root), items) || TooDeeply(w, items, root)
    ensures r.Err? && !Capped(r.error) ==> Misfit(w, items, root, false)
    ensures r.Ok? ==> SameOrCapped(WalkItems(w, items, root, [], map[]), es)
    ensures match WalkItems(w, items, root, [], map[])
      case Ok(x) => (r.Ok? && r.value.aliases.Keys <= x.aliases.Keys) || Clashes(x.entries) || !Allowed(items, false)
      case Err(_) => true
  {
    r, es := ParseItems(w, items, root);
    if r.Ok? {
      RootIsWalkable(w, items, root, es);
    }
    RootWalk(w, items, root, r);
  }

  method ParseItems(w: World, items: seq<Item>, root: Path)
    returns (r: Result<Parsed, IncludeError>, ghost es: seq<Entry>)
    requires WellNamed(w)
    ensures r.Ok? ==> ItemsMean(w, items, root, es) && !Clashes(es) && r.value.jobs == Firsts(es) && Allowed(items, false)
    ensures r.Ok? ==> Tabled(w, RootFile(root), items, r.value.aliases)
    ensures r.Ok? ==> forall a :: a in r.value.aliases <==> Borne(w, RootFile(root), items, a)
    ensures r.Ok? ==> AliasesApart(w, RootFile(root), items)
    ensures r.Err? ==> Explained(w, r.error)
    ensures r.Err? && Capped(r.error) ==> !AliasesApart(w, RootFile(root), items) || TooDeeply(w, items, root)
    ensures r.Err? && !Capped(r.error) ==> Misfit(w, items, root, false)
  {
    var gc := new GroupCollector();
    var state := new IncludeState(w);
    assert items[..0] == [];
    NoItemsMean(w, root);
    for i := 0 to |items|
      invariant state.Valid(w) && state.ancestors == []
      invariant !BadChildren(items[..i], false)
      invariant ItemsMean(w, items[..i], root, gc.Contents())
      invariant Progress(w, NOTHING, state.Book(), [], RootFile(root), items[..i])
    {
      var e := AddRootItem(w, items[..i], items[i], root, gc, state);
      assert items[..i + 1] == items[..i] + [items[i]];
      if e.Some? {
        PrefixRefused(w, NOTHING, [], RootFile(root), items, i + 1, false, e.value);
        if Capped(e.value) {
          NothingStops(w, RootFile(root), items, e.value);
        }
        return Err(e.value), [];
      }
    }
    assert items[..|items|] == items;
    es := gc.Contents();
    AllDone(w, state.Book(), [], RootFile(root), items);
    AllTabled(w, state.Book(), RootFile(root), items);
    var merged := MergeItems(w, items, false, gc, NOTHING, [], RootFile(root));
    r := if merged.Err? then Err(merged.error) else Ok(Parsed(merged.value, state.aliases));
  }

  /** parsePipelineChild, as far as jobs and includes go. */
  method AddRootItem(w: World, ghost front: seq<Item>, it: Item, root: Path, gc: GroupCollector, state: IncludeState)
    returns (e: Option<IncludeError>)
    requires state.Valid(w) && state.ancestors == [] && WellNamed(w)
    requires !BadChildren(front, false)
    requires ItemsMean(w, front, root, gc.Contents())
    requires Progress(w, NOTHING, state.Book(), [], RootFile(root), front)
    modifies gc, state
    ensures state.Valid(w) && state.ancestors == []
    ensures e.None? ==> ItemsMean(w, front + [it], root, gc.Contents()) && !BadChildren(front + [it], false)
    ensures e.None? ==> Progress(w, NOTHING, state.Book(), [], RootFile(root), front + [it])
    ensures e.Some? ==> OutOfPlace(front + [it], false, e.value) || ItemRefused(w, NOTHING, [], RootFile(root), front + [it], e.value)
  {
    if it.IncludeItem? {
      e := state.AddIncludeItem(w, front, it.inc, root, gc, NOTHING, RootFile(root));
      IncludeKeepsGood(front, it.inc, false);
    } else {
      e := AddOtherItem(w, front, it, false, gc, [], NOTHING, state.Book(), [], RootFile(root));
    }
  }

  /** A walk without the cache that succeeds has no capped node. */
  lemma RootWalk(w: World, items: seq<Item>, root: Path, r: Result<Parsed, IncludeError>)
    requires r.Err? && Capped(r.error) ==> !AliasesApart(w, RootFile(root), items) || TooDeeply(w, items, root)
    requires r.Err? && !Capped(r.error) ==> Misfit(w, items, root, false)
    requires r.Ok? ==> forall a :: a in r.value.aliases ==> Borne(w, RootFile(root), items, a)
    ensures match WalkItems(w, items, root, [], map[])
      case Ok(x) => (r.Ok? && r.value.aliases.Keys <= x.aliases.Keys) || Clashes(x.entries) || !Allowed(items, false)
      case Err(_) => true
  {
    if WalkItems(w, items, root, [], map[]).Ok? {
      WalkFindsItems(w, items, root, [], map[]);
      WalkBooksItems(w, RootFile(root), items, [], map[]);
    }
  }

  ghost predicate SameOrCapped(walk: Result<ItemsWalk, Stop>, es: seq<Entry>) {
    match walk
    case Ok(x) => x.entries == es
    case Err(s) => s == TooDeep || s == AliasTaken
  }

  lemma RootIsWalkable(w: World, items: seq<Item>, root: Path, es: seq<Entry>)
    requires ItemsMean(w, items, root, es)
    ensures SameOrCapped(WalkItems(w, items, root, [], map[]), es)
  {
    var fuel: nat :| DenoteItems(w, items, root, fuel) == Some(es);
    assert items[..|items|] == items;
    MeaningIsWalkableItems(w, items, |items|, root, fuel, [], map[]);
  }

  /** The classifying loop of parseIncludedFile: the fragment node if there is one, and whether there
      are nodes of a pipeline. */
  method ClassifyNodes(nodes: seq<Node>) returns (fragment: Result<Option<Node>, IncludeError>, others: bool)
    ensures IsFragmentFile(nodes) <==> fragment.Ok? && fragment.value.Some? && !others
    ensures IsPipelineFile(nodes) <==> fragment.Ok? && fragment.value.None? && others
    ensures fragment.Ok? && fragment.value.None? && !others <==> nodes == []
    ensures fragment.Err? ==> fragment.error.AmbiguousFile? || fragment.error.UnknownNode?
  {
    fragment, others := Ok(None), false;
    for i := 0 to |nodes|
      invariant fragment.Ok?
      invariant fragment.value.Some? <==> exists k :: 0 <= k < i && nodes[k].FragmentNode?
      invariant forall k, m :: 0 <= k < m < i ==> !(nodes[k].FragmentNode? && nodes[m].FragmentNode?)
      invariant others <==> exists k :: 0 <= k < i && nodes[k].ItemNode?
      invariant forall k :: 0 <= k < i ==> nodes[k].FragmentNode? || InPipeline(nodes[k])
    {
      match nodes[i] {
        case FragmentNode(_, _) =>
          if fragment.value.Some? {
            return Err(AmbiguousFile), others;
          }
          fragment := Ok(Some(nodes[i]));
        case ItemNode(item) =>
          if item.ParamItem? || item.UnknownItem? {
            return Err(UnknownNode), others;
          }
          others := true;
      }
    }
    assert |nodes| > 1 && nodes[0].FragmentNode? ==> nodes[1].ItemNode?;
  }

  datatype Collected = Collected(jobs: seq<Job>, defs: seq<ParamDef>)

  /** Whatever its children denote, the file makes nothing of it. */
  ghost predicate Misfit(w: World, items: seq<Item>, from: Path, inFragment: bool) {
    forall es :: ItemsMean(w, items, from, es) ==> Unfit(items, inFragment, es)
  }

  ghost predicate FileBooked(w: World, b0: Ledger, b: Ledger, stack: seq<Path>, path: Path, params: Combo) {
    GrownAmong(w, b0, b, stack, Included(path, params), ItemsAt(w, path)) && CachedAt(b, Included(path, params))
  }

  ghost predicate FileRefused(w: World, b0: Ledger, stack: seq<Path>, path: Path, params: Combo, e: IncludeError) {
    && Explained(w, e)
    && StopsAmong(w, b0, stack, Included(path, params), ItemsAt(w, path), e)
    && (Capped(e) || NoMeaning(w, path, params))
  }

  /** A child is refused because it does not belong there, or repeats a parameter. */
  ghost predicate OutOfPlace(items: seq<Item>, inFragment: bool, e: IncludeError) {
    BadChildren(items, inFragment) && (e.UnknownNode? || e.DuplicateParamDef?)
  }

  ghost predicate ItemRefused(w: World, b0: Ledger, stack: seq<Path>, owner: Owner, items: seq<Item>, e: IncludeError) {
    && Explained(w, e)
    && StopsAmong(w, b0, stack, owner, items, e)
    && (Capped(e) || NoItemsMeaning(w, items, owner.path))
  }

  /** All of a file's children refused, the ones that make it unfit included. */
  ghost predicate ItemsRefused(w: World, b0: Ledger, stack: seq<Path>, owner: Owner, items: seq<Item>, inFragment: bool,
                               e: IncludeError) {
    && Explained(w, e)
    && StopsAmong(w, b0, stack, owner, items, e)
    && (Capped(e) || Misfit(w, items, owner.path, inFragment))
  }

  lemma PrefixRefused(w: World, b0: Ledger, stack: seq<Path>, owner: Owner, items: seq<Item>, n: nat, inFragment: bool,
                      e: IncludeError)
    requires n <= |items|
    requires OutOfPlace(items[..n], inFragment, e) || ItemRefused(w, b0, stack, owner, items[..n], e)
    ensures ItemsRefused(w, b0, stack, owner, items, inFragment, e)
  {
    StopsMore(w, b0, stack, owner, items[..n], items, e);
    MisfitPrefix(w, items, n, owner.path, inFragment);
  }

  /** What resolving the node here comes to. */
  ghost predicate NodeOutcome(w: World, b0: Ledger, b: Ledger, stack: seq<Path>, here: Site, r: Result<Resolved, IncludeError>) {
    match r
    case Ok(x) => NodeTaken(w, b0, b, here, x) && GrownAt(w, b0, b, stack, here) && Booked(w, b, here)
    case Err(e) => NodeRefused(w, b0, stack, here, e)
  }

  ghost predicate NodeTaken(w: World, b0: Ledger, b: Ledger, here: Site, r: Resolved) {
    var a := AliasOf(here.inc, r);
    && IncludeMeans(w, here.inc, here.owner.path, r)
    && a !in b0.aliases && a in b.aliases && b.aliases[a] == Terminals(r.jobs, r.jobs)
  }

  ghost predicate NodeRefused(w: World, b0: Ledger, stack: seq<Path>, here: Site, e: IncludeError) {
    && Explained(w, e)
    && StopsAt(w, b0, stack, here, e)
    && (Capped(e) || NoTarget(w, here.inc, here.owner.path))
  }

  /** From b0 the file of here is read, unless it is cached, which gives b; then the alias is registered. */
  lemma NodeRegisters(w: World, b0: Ledger, b: Ledger, b1: Ledger, stack: seq<Path>, here: Site, found: Resolved,
                      r: Result<Resolved, IncludeError>)
    requires BookOk(w, b) && b0.aliases.Keys == b0.sites.Keys && MayResolve(b0, stack, here) && Resolves(w, here)
    requires IncludeMeans(w, here.inc, here.owner.path, found)
    requires CachedAt(b, TargetOf(w, here)) && TargetOf(w, here).path !in stack
    requires b == b0 || FileBooked(w, b0, b, stack + [TargetOf(w, here).path], TargetOf(w, here).path, here.inc.params)
    requires var a := AliasOf(here.inc, found);
      if a in b.aliases then r == Err(DuplicateAlias(a)) && b1 == b
      else r == Ok(found) && b1 == WithAlias(b, a, Terminals(found.jobs, found.jobs), here)
    ensures NodeOutcome(w, b0, b1, stack, here, r) && BookOk(w, b1)
  {
    var a := AliasOf(here.inc, found);
    assert Bears(w, here, a);
    assert TerminalsOf(w, here, Terminals(found.jobs, found.jobs));
    if b == b0 {
      HitRegisters(w, b, stack, here, a, Terminals(found.jobs, found.jobs));
    } else {
      FileRegisters(w, b0, b, stack, here, a, Terminals(found.jobs, found.jobs));
      assert a !in b.aliases ==> a !in b0.sites;
    }
  }

  /** A path on the stack closes a cycle, and then the file has no meaning. */
  lemma RepeatRefused(w: World, here: Site, stack: seq<Path>, b: Ledger)
    requires Chain(w, stack) && StandsIn(w, here.inc, here.owner.path, stack) && Resolves(w, here)
    requires TargetOf(w, here).path in stack
    ensures NodeRefused(w, b, stack, here, CircularInclude(stack + [TargetOf(w, here).path]))
  {
    var inc, from, path := here.inc, here.owner.path, TargetOf(w, here).path;
    var i: nat :| i < |stack| && stack[i] == path;
    RepeatIsCycle(w, inc, from, stack, i);
    assert Explained(w, CircularInclude(stack + [stack[i]]));
    forall r | Means(w, path, inc.params, r) ensures false {
      MeaningNotOnStack(w, inc, from, r, stack);
    }
  }

  lemma FullRefused(w: World, here: Site, stack: seq<Path>, b: Ledger)
    requires |stack| == MAX_INCLUDE_DEPTH
    ensures NodeRefused(w, b, stack, here, IncludeDepth)
  {
    DeepSelf(w, here);
  }

  lemma NeitherKind(w: World, path: Path, params: Combo)
    requires path in w.files && !IsFragmentFile(w.files[path].nodes) && !IsPipelineFile(w.files[path].nodes)
    ensures NoMeaning(w, path, params)
  {
    NoFileMeaning(w, path, params);
  }

  lemma MisfitFile(w: World, path: Path, params: Combo, inFragment: bool)
    requires path in w.files && IsFragmentFile(w.files[path].nodes) == inFragment
    ensures Misfit(w, ItemsOf(w.files[path].nodes), path, inFragment) ==> NoMeaning(w, path, params)
  {
    var f := w.files[path];
    if Misfit(w, ItemsOf(f.nodes), path, inFragment) {
      forall es | ItemsMean(w, ItemsOf(f.nodes), path, es) ensures FileMeaning(f, params, es).None? {
        assert Unfit(ItemsOf(f.nodes), inFragment, es);
      }
      NoFileMeaning(w, path, params);
    }
  }

  lemma UnfitParams(w: World, path: Path, params: Combo)
    requires path in w.files && IsFragmentFile(w.files[path].nodes)
    requires !ParamsFit(ParamDefs(w.files[path].nodes[0].children), params)
    ensures NoMeaning(w, path, params)
  {
    NoFileMeaning(w, path, params);
  }

  lemma ClashIsMisfit(w: World, items: seq<Item>, from: Path, inFragment: bool, es: seq<Entry>)
    requires ItemsMean(w, items, from, es) && Clashes(es)
    ensures Misfit(w, items, from, inFragment)
  {
    forall ds | ItemsMean(w, items, from, ds) ensures Unfit(items, inFragment, ds) {
      ItemsMeaningIsUnique(w, items, from, es, ds);
    }
  }

  /** Where the first children have no meaning or do not belong, so have all of them. */
  lemma MisfitPrefix(w: World, items: seq<Item>, n: nat, from: Path, inFragment: bool)
    requires n <= |items|
    ensures NoItemsMeaning(w, items[..n], from) || BadChildren(items[..n], inFragment) ==> Misfit(w, items, from, inFragment)
  {
    if NoItemsMeaning(w, items[..n], from) {
      NoPrefixMeaning(w, items, n, from);
    } else if BadChildren(items[..n], inFragment) {
      BadChildrenStay(items, n, inFragment);
    }
  }

  lemma HitMeans(w: World, key: string, hit: Resolved, path: Path, params: Combo)
    requires CachedFor(w, key, hit) && KeysApart(w.resolver.Values)
    requires path in w.resolver.Values && key == CacheKey(path, params)
    ensures Means(w, path, params, hit)
  {
  }

  /** What is wrong with the first children does not go away with further ones. */
  lemma {:induction false} BadChildrenStay(items: seq<Item>, n: nat, inFragment: bool)
    requires n <= |items| && BadChildren(items[..n], inFragment)
    ensures BadChildren(items, inFragment)
    decreases |items|
  {
    if n == |items| {
      assert items[..n] == items;
    } else {
      var front := items[..|items| - 1];
      assert front[..n] == items[..n];
      BadChildrenStay(front, n, inFragment);
      LastChildKeepsBad(items, inFragment);
    }
  }

  lemma LastChildKeepsBad(items: seq<Item>, inFragment: bool)
    requires items != [] && BadChildren(items[..|items| - 1], inFragment)
    ensures BadChildren(items, inFragment)
  {
    var front := items[..|items| - 1];
    var defs, all := ParamDefs(front), ParamDefs(items);
    assert forall i :: 0 <= i < |front| ==> front[i] == items[i];
    assert forall i :: 0 <= i < |defs| ==> all[i] == defs[i];
  }
}
