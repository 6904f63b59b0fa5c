/** Include resolution with an ancestor stack but no cache. */
module IncludeWalk {
  import opened Prelude
  import opened Graphs
  import opened PipelineModel
  import opened Merge
  import opened IncludeMeaning

  const MAX_INCLUDE_DEPTH: nat := 64

  datatype Stop = Broken | Cycle | TooDeep | AliasTaken

  datatype Walk = Walk(resolved: Resolved, aliases: Aliases)

  datatype ItemsWalk = ItemsWalk(entries: seq<Entry>, aliases: Aliases)

  function AliasOf(inc: Directive, r: Resolved): Name {
    if inc.alias == "" then r.name else inc.alias
  }

  function Room(stack: seq<Path>): nat {
    if |stack| <= MAX_INCLUDE_DEPTH then MAX_INCLUDE_DEPTH - |stack| else 0
  }

  ghost function WalkInclude(w: World, inc: Directive, from: Path, stack: seq<Path>, aliases: Aliases)
    : Result<Walk, Stop>
    decreases Room(stack), 0
  {
    if (inc.source, from) !in w.resolver then Err(Broken)
    else
      var path := w.resolver[(inc.source, from)];
      if path in stack then Err(Cycle)
      else if |stack| >= MAX_INCLUDE_DEPTH then Err(TooDeep)
      else if path !in w.files then Err(Broken)
      else
        var f := w.files[path];
        match WalkItems(w, ItemsOf(f.nodes), path, stack + [path], aliases)
        case Err(s) => Err(s)
        case Ok(x) => Registered(inc, FileMeaning(f, inc.params, x.entries), x.aliases)
  }

  ghost function Registered(inc: Directive, r: Option<Resolved>, aliases: Aliases): Result<Walk, Stop> {
    if r.None? then Err(Broken)
    else if AliasOf(inc, r.value) in aliases then Err(AliasTaken)
    else Ok(Walk(r.value, aliases[AliasOf(inc, r.value) := Terminals(r.value.jobs, r.value.jobs)]))
  }

  ghost function WalkItems(w: World, items: seq<Item>, from: Path, stack: seq<Path>, aliases: Aliases)
    : Result<ItemsWalk, Stop>
    decreases Room(stack), 1 + |items|
  {
    if items == [] then Ok(ItemsWalk([], aliases))
    else match WalkItems(w, items[..|items| - 1], from, stack, aliases)
      case Err(s) => Err(s)
      case Ok(x) =>
        match items[|items| - 1]
        case JobItem(job) => Ok(x.(entries := x.entries + [Entry(job, ConflictError)]))
        case IncludeItem(inc) =>
          (match WalkInclude(w, inc, from, stack, x.aliases)
           case Err(s) => Err(s)
           case Ok(y) => Ok(ItemsWalk(x.entries + Entries(y.resolved.jobs, inc.onConflict), y.aliases)))
        case ParamItem(_) => Ok(x)
        case IgnoredItem => Ok(x)
        case UnknownItem => Err(Broken)
        case MalformedItem => Err(Broken)
  }

  lemma {:induction false} PrefixFails(w: World, items: seq<Item>, i: nat, from: Path, stack: seq<Path>, aliases: Aliases)
    requires i <= |items| && WalkItems(w, items[..i], from, stack, aliases).Err?
    ensures WalkItems(w, items, from, stack, aliases).Err?
    decreases |items|
  {
    if i == |items| {
      assert items[..i] == items;
    } else {
      assert items[..|items| - 1][..i] == items[..i];
      PrefixFails(w, items[..|items| - 1], i, from, stack, aliases);
    }
  }

  ghost predicate IncludeMeans(w: World, inc: Directive, from: Path, r: Resolved) {
    (inc.source, from) in w.resolver && Means(w, w.resolver[(inc.source, from)], inc.params, r)
  }

  /** A walk that succeeds finds what the file denotes, and only adds aliases. */
  lemma {:induction false} WalkFindsMeaning(w: World, inc: Directive, from: Path, stack: seq<Path>, aliases: Aliases)
    requires WalkInclude(w, inc, from, stack, aliases).Ok?
    ensures IncludeMeans(w, inc, from, WalkInclude(w, inc, from, stack, aliases).value.resolved)
    ensures aliases.Keys <= WalkInclude(w, inc, from, stack, aliases).value.aliases.Keys
    decreases Room(stack), 0
  {
    var path := w.resolver[(inc.source, from)];
    var items := ItemsOf(w.files[path].nodes);
    WalkFindsItems(w, items, path, stack + [path], aliases);
    var x := WalkItems(w, items, path, stack + [path], aliases).value;
    FileMeans(w, path, inc.params, x.entries, FileMeaning(w.files[path], inc.params, x.entries).value);
  }

  lemma {:induction false} WalkFindsItems(w: World, items: seq<Item>, from: Path, stack: seq<Path>, aliases: Aliases)
    requires WalkItems(w, items, from, stack, aliases).Ok?
    ensures ItemsMean(w, items, from, WalkItems(w, items, from, stack, aliases).value.entries)
    ensures aliases.Keys <= WalkItems(w, items, from, stack, aliases).value.aliases.Keys
    decreases Room(stack), 1 + |items|
  {
    if items == [] {
      NoItemsMean(w, from);
    } else {
      var front, last := items[..|items| - 1], items[|items| - 1];
      assert items == front + [last];
      WalkFindsItems(w, front, from, stack, aliases);
      var x := WalkItems(w, front, from, stack, aliases).value;
      if last.IncludeItem? {
        WalkFindsMeaning(w, last.inc, from, stack, x.aliases);
        var y := WalkInclude(w, last.inc, from, stack, x.aliases).value;
        IncludeAdds(w, front, last.inc, from, x.entries, y.resolved);
      } else {
        ItemAdds(w, front, last, from, x.entries);
      }
    }
  }

  // ---------------------------------------------------------------- the stack as a chain of includes

  /** Each file of the stack includes the next. */
  ghost predicate Chain(w: World, stack: seq<Path>) {
    forall i :: 0 <= i < |stack| - 1 ==> Edge(IncludeGraph(w), stack[i], stack[i + 1])
  }

  /** The directive stands in the file on top of the stack, or in the root file. */
  ghost predicate StandsIn(w: World, inc: Directive, from: Path, stack: seq<Path>) {
    stack != [] ==>
      stack[|stack| - 1] == from && from in w.files && IncludeItem(inc) in ItemsOf(w.files[from].nodes)
  }

  lemma {:induction false} ChainIsPath(w: World, g: Graph<Path>, stack: seq<Path>, i: nat)
    requires g == IncludeGraph(w) && Chain(w, stack) && i < |stack|
    ensures IsPath(g, stack[i..])
    decreases |stack| - i
  {
    if i < |stack| - 1 {
      ChainIsPath(w, g, stack, i + 1);
      assert stack[i..][1..] == stack[i + 1..];
    }
  }

  lemma ChainGrows(w: World, inc: Directive, from: Path, stack: seq<Path>)
    requires Chain(w, stack) && StandsIn(w, inc, from, stack) && (inc.source, from) in w.resolver
    ensures Chain(w, stack + [w.resolver[(inc.source, from)]])
  {
    var path := w.resolver[(inc.source, from)];
    if stack != [] {
      assert LeadsTo(w, IncludeItem(inc), from, path);
      EdgeIffIncludes(w, from, path);
    }
    var more := stack + [path];
    forall i | 0 <= i < |more| - 1 ensures Edge(IncludeGraph(w), more[i], more[i + 1]) {
      assert i < |stack| - 1 ==> more[i] == stack[i] && more[i + 1] == stack[i + 1];
    }
  }

  /** A path found on the stack closes a cycle of includes. */
  lemma RepeatIsCycle(w: World, inc: Directive, from: Path, stack: seq<Path>, i: nat)
    requires Chain(w, stack) && StandsIn(w, inc, from, stack) && (inc.source, from) in w.resolver
    requires i < |stack| && stack[i] == w.resolver[(inc.source, from)]
    ensures IsCycle(IncludeGraph(w), (stack + [stack[i]])[i..])
  {
    ChainGrows(w, inc, from, stack);
    ChainIsPath(w, IncludeGraph(w), stack + [stack[i]], i);
  }

  /** Where the file has a meaning, resolving it without the cache can only be stopped by the depth
      limit or by an alias registered twice: never by a cycle or a broken file. */
  lemma {:induction false} MeaningIsWalkable(w: World, inc: Directive, from: Path, r: Resolved, stack: seq<Path>, aliases: Aliases)
    requires IncludeMeans(w, inc, from, r) && Chain(w, stack) && StandsIn(w, inc, from, stack)
    ensures match WalkInclude(w, inc, from, stack, aliases)
      case Ok(x) => x.resolved == r
      case Err(s) => s == TooDeep || s == AliasTaken
    decreases Room(stack), 0
  {
    var path := w.resolver[(inc.source, from)];
    MeaningNotOnStack(w, inc, from, r, stack);
    if |stack| < MAX_INCLUDE_DEPTH {
      var fuel: nat :| Denote(w, path, inc.params, fuel) == Some(r);
      var items := ItemsOf(w.files[path].nodes);
      ChainGrows(w, inc, from, stack);
      assert items[..|items|] == items;
      MeaningIsWalkableItems(w, items, |items|, path, fuel - 1, stack + [path], aliases);
    }
  }

  lemma MeaningNotOnStack(w: World, inc: Directive, from: Path, r: Resolved, stack: seq<Path>)
    requires IncludeMeans(w, inc, from, r) && Chain(w, stack) && StandsIn(w, inc, from, stack)
    ensures w.resolver[(inc.source, from)] !in stack
  {
    var path := w.resolver[(inc.source, from)];
    forall i: nat | i < |stack| ensures stack[i] != path {
      if stack[i] == path {
        RepeatIsCycle(w, inc, from, stack, i);
        ReachesSelf(IncludeGraph(w), path);
        MeaningExcludesCycles(w, path, inc.params, r, (stack + [path])[i..]);
        assert false;
      }
    }
  }

  lemma {:induction false} MeaningIsWalkableItems(w: World, items: seq<Item>, n: nat, from: Path, fuel: nat, stack: seq<Path>, aliases: Aliases)
    requires n <= |items| && DenoteItems(w, items[..n], from, fuel).Some?
    requires Chain(w, stack)
    requires stack != [] ==> stack[|stack| - 1] == from && from in w.files && items == ItemsOf(w.files[from].nodes)
    ensures match WalkItems(w, items[..n], from, stack, aliases)
      case Ok(x) => Some(x.entries) == DenoteItems(w, items[..n], from, fuel)
      case Err(s) => s == TooDeep || s == AliasTaken
    decreases Room(stack), 1 + n
  {
    if n > 0 {
      var last := items[n - 1];
      assert items[..n][..n - 1] == items[..n - 1];
      MeaningIsWalkableItems(w, items, n - 1, from, fuel, stack, aliases);
      var x := WalkItems(w, items[..n - 1], from, stack, aliases);
      if x.Ok? && last.IncludeItem? {
        var r := Denote(w, w.resolver[(last.inc.source, from)], last.inc.params, fuel).value;
        assert IncludeMeans(w, last.inc, from, r);
        MeaningIsWalkable(w, last.inc, from, r, stack, x.value.aliases);
      }
    }
  }
}
