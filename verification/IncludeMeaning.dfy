/** What an include directive denotes, apart from any state. */
module IncludeMeaning {
  // What an include directive means: the jobs its file denotes, without the cache, the ancestor
  // stack and the alias table the resolver keeps beside it.

  import opened Prelude
  import opened Graphs
  import opened PipelineModel
  import opened Params
  import opened Merge

  type Path = string

  datatype Directive = Directive(source: string, alias: Name, onConflict: ConflictStrategy, params: Combo)

  /** A child of a fragment or of a pipeline file. Ignored are the matrix, env, defaults and secret
      nodes of an included pipeline; malformed is a job, step, param or include that does not parse. */
  datatype Item =
    | JobItem(job: Job)
    | ParamItem(def: ParamDef)
    | IncludeItem(inc: Directive)
    | IgnoredItem
    | UnknownItem
    | MalformedItem

  datatype Node = FragmentNode(name: Name, children: seq<Item>) | ItemNode(item: Item)

  /** A readable file: the name taken from its path, and its top-level nodes. */
  datatype File = File(name: Name, nodes: seq<Node>)

  /** The resolver and the files behind it. A source is resolved relative to the including file. */
  datatype World = World(resolver: map<(string, Path), Path>, files: map<Path, File>)

  // ---------------------------------------------------------------- the two kinds of file

  predicate IsFragmentFile(nodes: seq<Node>) {
    |nodes| == 1 && nodes[0].FragmentNode?
  }

  predicate InPipeline(n: Node) {
    n.ItemNode? && !n.item.ParamItem? && !n.item.UnknownItem?
  }

  predicate IsPipelineFile(nodes: seq<Node>) {
    nodes != [] && forall i :: 0 <= i < |nodes| ==> InPipeline(nodes[i])
  }

  predicate InFragment(it: Item) {
    it.JobItem? || it.ParamItem? || it.IncludeItem?
  }

  predicate FragmentItems(items: seq<Item>) {
    forall i :: 0 <= i < |items| ==> InFragment(items[i])
  }

  /** The children that make up the file's jobs, whichever kind of file it is. */
  function ItemsOf(nodes: seq<Node>): seq<Item> {
    if IsFragmentFile(nodes) then nodes[0].children
    else if IsPipelineFile(nodes) then seq(|nodes|, i requires 0 <= i < |nodes| && InPipeline(nodes[i]) => nodes[i].item)
    else []
  }

  function ParamDefs(items: seq<Item>): seq<ParamDef> {
    if items == [] then []
    else var last := items[|items| - 1];
      ParamDefs(items[..|items| - 1]) + if last.ParamItem? then [last.def] else []
  }

  // ---------------------------------------------------------------- the denotation

  /** The name an include falls back to as its alias, and the jobs it contributes. */
  datatype Resolved = Resolved(name: Name, jobs: seq<Job>)

  ghost predicate Clashes(es: seq<Entry>) {
    exists k: nat :: ClashAt(es, k)
  }

  /** What a file makes of its collected entries: merged, and in a fragment with its parameters filled in. */
  ghost function FileMeaning(f: File, params: Combo, es: seq<Entry>): Option<Resolved> {
    if Clashes(es) then None
    else if IsFragmentFile(f.nodes) then
      var items := f.nodes[0].children;
      if FragmentItems(items) && ParamsFit(ParamDefs(items), params)
      then Some(Resolved(f.nodes[0].name, SubstituteParams(Firsts(es), ResolvedParams(ParamDefs(items), params))))
      else None
    else if IsPipelineFile(f.nodes) && params == map[] then Some(Resolved(f.name, Firsts(es)))
    else None
  }

  /** In no fragment does a parameter's name, with a closing brace behind it, begin another's: otherwise
      what a text becomes can turn on the order in which the parameters are listed. */
  ghost predicate ParamsUnambiguous(w: World) {
    forall p :: p in w.files && IsFragmentFile(w.files[p].nodes) ==> NamesUnambiguous(ParamDefs(w.files[p].nodes[0].children))
  }

  /** The jobs of an included file; fuel bounds the nesting of includes. */
  ghost function Denote(w: World, path: Path, params: Combo, fuel: nat): Option<Resolved>
    decreases fuel, 0
  {
    if fuel == 0 || path !in w.files then None
    else match DenoteItems(w, ItemsOf(w.files[path].nodes), path, fuel - 1)
      case None => None
      case Some(es) => FileMeaning(w.files[path], params, es)
  }

  ghost function DenoteItems(w: World, items: seq<Item>, from: Path, fuel: nat): Option<seq<Entry>>
    decreases fuel, 1 + |items|
  {
    if items == [] then Some([])
    else match DenoteItems(w, items[..|items| - 1], from, fuel)
      case None => None
      case Some(es) =>
        match items[|items| - 1]
        case JobItem(job) => Some(es + [Entry(job, ConflictError)])
        case IncludeItem(inc) =>
          if (inc.source, from) !in w.resolver then None
          else (match Denote(w, w.resolver[(inc.source, from)], inc.params, fuel)
            case None => None
            case Some(r) => Some(es + Entries(r.jobs, inc.onConflict)))
        case ParamItem(_) => Some(es)
        case IgnoredItem => Some(es)
        case UnknownItem => None
        case MalformedItem => None
  }

  lemma {:induction false} MoreFuel(w: World, path: Path, params: Combo, fuel: nat, more: nat)
    requires fuel <= more && Denote(w, path, params, fuel).Some?
    ensures Denote(w, path, params, more) == Denote(w, path, params, fuel)
    decreases fuel, 0
  {
    var items := ItemsOf(w.files[path].nodes);
    MoreFuelItems(w, items, path, fuel - 1, more - 1);
    assert DenoteItems(w, items, path, more - 1) == DenoteItems(w, items, path, fuel - 1);
  }

  lemma {:induction false} MoreFuelItems(w: World, items: seq<Item>, from: Path, fuel: nat, more: nat)
    requires fuel <= more && DenoteItems(w, items, from, fuel).Some?
    ensures DenoteItems(w, items, from, more) == DenoteItems(w, items, from, fuel)
    decreases fuel, 1 + |items|
  {
    if items != [] {
      MoreFuelItems(w, items[..|items| - 1], from, fuel, more);
      var last := items[|items| - 1];
      if last.IncludeItem? {
        MoreFuel(w, w.resolver[(last.inc.source, from)], last.inc.params, fuel, more);
      }
    }
  }

  /** The file at path, given params, denotes r. */
  ghost predicate Means(w: World, path: Path, params: Combo, r: Resolved) {
    exists fuel: nat :: Denote(w, path, params, fuel) == Some(r)
  }

  ghost predicate ItemsMean(w: World, items: seq<Item>, from: Path, es: seq<Entry>) {
    exists fuel: nat :: DenoteItems(w, items, from, fuel) == Some(es)
  }

  lemma MeaningIsUnique(w: World, path: Path, params: Combo, r: Resolved, s: Resolved)
    requires Means(w, path, params, r) && Means(w, path, params, s)
    ensures r == s
  {
    var f: nat :| Denote(w, path, params, f) == Some(r);
    var g: nat :| Denote(w, path, params, g) == Some(s);
    MoreFuel(w, path, params, f, f + g);
    MoreFuel(w, path, params, g, f + g);
  }

  // ---------------------------------------------------------------- building meanings up

  lemma NoItemsMean(w: World, from: Path)
    ensures ItemsMean(w, [], from, [])
  {
    assert DenoteItems(w, [], from, 0) == Some([]);
  }

  /** What one more item adds; an include adds the jobs its directive resolved to. */
  lemma ItemAdds(w: World, items: seq<Item>, it: Item, from: Path, es: seq<Entry>)
    requires ItemsMean(w, items, from, es)
    ensures it.JobItem? ==> ItemsMean(w, items + [it], from, es + [Entry(it.job, ConflictError)])
    ensures it.ParamItem? || it.IgnoredItem? ==> ItemsMean(w, items + [it], from, es)
  {
    var f: nat :| DenoteItems(w, items, from, f) == Some(es);
    assert (items + [it])[..|items|] == items;
    assert it.JobItem? ==> DenoteItems(w, items + [it], from, f) == Some(es + [Entry(it.job, ConflictError)]);
    assert it.ParamItem? || it.IgnoredItem? ==> DenoteItems(w, items + [it], from, f) == Some(es);
  }

  lemma IncludeAdds(w: World, items: seq<Item>, inc: Directive, from: Path, es: seq<Entry>, r: Resolved)
    requires ItemsMean(w, items, from, es)
    requires (inc.source, from) in w.resolver && Means(w, w.resolver[(inc.source, from)], inc.params, r)
    ensures ItemsMean(w, items + [IncludeItem(inc)], from, es + Entries(r.jobs, inc.onConflict))
  {
    var path, all := w.resolver[(inc.source, from)], items + [IncludeItem(inc)];
    var f: nat :| DenoteItems(w, items, from, f) == Some(es);
    var g: nat :| Denote(w, path, inc.params, g) == Some(r);
    MoreFuelItems(w, items, from, f, f + g);
    MoreFuel(w, path, inc.params, g, f + g);
    assert all[..|items|] == items;
    assert DenoteItems(w, all, from, f + g) == Some(es + Entries(r.jobs, inc.onConflict));
  }

  lemma FileMeans(w: World, path: Path, params: Combo, es: seq<Entry>, r: Resolved)
    requires path in w.files && ItemsMean(w, ItemsOf(w.files[path].nodes), path, es)
    requires FileMeaning(w.files[path], params, es) == Some(r)
    ensures Means(w, path, params, r)
  {
    var f: nat :| DenoteItems(w, ItemsOf(w.files[path].nodes), path, f) == Some(es);
    assert Denote(w, path, params, f + 1) == Some(r);
  }

  // ---------------------------------------------------------------- what has no meaning

  ghost predicate NoMeaning(w: World, path: Path, params: Combo) {
    forall r :: !Means(w, path, params, r)
  }

  ghost predicate NoItemsMeaning(w: World, items: seq<Item>, from: Path) {
    forall es :: !ItemsMean(w, items, from, es)
  }

  lemma ItemsMeaningIsUnique(w: World, items: seq<Item>, from: Path, es: seq<Entry>, ds: seq<Entry>)
    requires ItemsMean(w, items, from, es) && ItemsMean(w, items, from, ds)
    ensures es == ds
  {
    var f: nat :| DenoteItems(w, items, from, f) == Some(es);
    var g: nat :| DenoteItems(w, items, from, g) == Some(ds);
    MoreFuelItems(w, items, from, f, f + g);
    MoreFuelItems(w, items, from, g, f + g);
  }

  lemma {:induction false} PrefixDenotes(w: World, items: seq<Item>, n: nat, from: Path, fuel: nat)
    requires n <= |items| && DenoteItems(w, items, from, fuel).Some?
    ensures DenoteItems(w, items[..n], from, fuel).Some?
    decreases |items|
  {
    if n == |items| {
      assert items[..n] == items;
    } else {
      assert items[..|items| - 1][..n] == items[..n];
      PrefixDenotes(w, items[..|items| - 1], n, from, fuel);
    }
  }

  lemma NoPrefixMeaning(w: World, items: seq<Item>, n: nat, from: Path)
    requires n <= |items| && NoItemsMeaning(w, items[..n], from)
    ensures NoItemsMeaning(w, items, from)
  {
    forall es | ItemsMean(w, items, from, es) ensures false {
      var fuel: nat :| DenoteItems(w, items, from, fuel) == Some(es);
      PrefixDenotes(w, items, n, from, fuel);
      var ds := DenoteItems(w, items[..n], from, fuel).value;
      assert ItemsMean(w, items[..n], from, ds);
    }
  }

  /** A child that cannot be read, or an include of nothing, leaves the file without meaning. */
  lemma NoLastMeaning(w: World, front: seq<Item>, it: Item, from: Path)
    requires it.UnknownItem? || it.MalformedItem? || (it.IncludeItem? && NoTarget(w, it.inc, from))
    ensures NoItemsMeaning(w, front + [it], from)
  {
    var items := front + [it];
    assert items[..|items| - 1] == front;
    forall es | ItemsMean(w, items, from, es) ensures false {
      var fuel: nat :| DenoteItems(w, items, from, fuel) == Some(es);
      if it.IncludeItem? {
        var path := w.resolver[(it.inc.source, from)];
        var r := Denote(w, path, it.inc.params, fuel).value;
        assert Means(w, path, it.inc.params, r);
      }
    }
  }

  ghost predicate NoTarget(w: World, inc: Directive, from: Path) {
    (inc.source, from) in w.resolver ==> NoMeaning(w, w.resolver[(inc.source, from)], inc.params)
  }

  /** No entries that the children denote make up a meaning of the file. */
  lemma NoFileMeaning(w: World, path: Path, params: Combo)
    requires path in w.files ==> forall es ::
      ItemsMean(w, ItemsOf(w.files[path].nodes), path, es) ==> FileMeaning(w.files[path], params, es).None?
    ensures NoMeaning(w, path, params)
  {
    forall fuel: nat ensures Denote(w, path, params, fuel).None? {
      if fuel > 0 && path in w.files {
        var items := ItemsOf(w.files[path].nodes);
        var es := DenoteItems(w, items, path, fuel - 1);
        assert es.Some? ==> ItemsMean(w, items, path, es.value);
      }
    }
  }

  lemma {:induction false} BadItemDenotesNothing(w: World, items: seq<Item>, from: Path, fuel: nat, i: nat)
    requires i < |items| && (items[i].UnknownItem? || items[i].MalformedItem?)
    ensures DenoteItems(w, items, from, fuel).None?
    decreases |items|
  {
    if i < |items| - 1 {
      BadItemDenotesNothing(w, items[..|items| - 1], from, fuel, i);
    }
  }

  /** An included file with a fragment beside anything else, without any node, or with a node that is at
      home in neither kind of file means nothing, and so does a pipeline file that is given parameters. */
  lemma IllFormedFileMeansNothing(w: World, path: Path, params: Combo)
    requires path in w.files
    requires var nodes := w.files[path].nodes;
      || nodes == []
      || (|nodes| > 1 && exists i :: 0 <= i < |nodes| && nodes[i].FragmentNode?)
      || (exists i :: 0 <= i < |nodes| && nodes[i].ItemNode? && (nodes[i].item.ParamItem? || nodes[i].item.UnknownItem? || nodes[i].item.MalformedItem?))
      || (params != map[] && exists i :: 0 <= i < |nodes| && nodes[i].ItemNode?)
    ensures NoMeaning(w, path, params)
  {
    var nodes := w.files[path].nodes;
    if IsPipelineFile(nodes) {
      if i :| 0 <= i < |nodes| && nodes[i].ItemNode? && nodes[i].item.MalformedItem? {
        forall fuel: nat ensures DenoteItems(w, ItemsOf(nodes), path, fuel).None? {
          BadItemDenotesNothing(w, ItemsOf(nodes), path, fuel, i);
        }
      }
    }
    NoFileMeaning(w, path, params);
  }

  /** A fragment with a child that is no job, parameter or include means nothing. */
  lemma IllFormedFragmentMeansNothing(w: World, path: Path, params: Combo, i: nat)
    requires path in w.files && |w.files[path].nodes| == 1 && w.files[path].nodes[0].FragmentNode?
    requires var items := w.files[path].nodes[0].children;
      i < |items| && !items[i].JobItem? && !items[i].ParamItem? && !items[i].IncludeItem?
    ensures NoMeaning(w, path, params)
  {
    NoFileMeaning(w, path, params);
  }

  // ---------------------------------------------------------------- the include graph

  /** One of the file's include nodes resolves to q. */
  ghost predicate Includes(w: World, p: Path, q: Path) {
    p in w.files && exists it :: it in ItemsOf(w.files[p].nodes) && LeadsTo(w, it, p, q)
  }

  predicate LeadsTo(w: World, it: Item, from: Path, q: Path) {
    it.IncludeItem? && (it.inc.source, from) in w.resolver && w.resolver[(it.inc.source, from)] == q
  }

  function Targets(w: World, items: seq<Item>, from: Path): seq<Path> {
    if items == [] then []
    else var last := items[|items| - 1];
      Targets(w, items[..|items| - 1], from) +
      if last.IncludeItem? && (last.inc.source, from) in w.resolver then [w.resolver[(last.inc.source, from)]] else []
  }

  function IncludeGraph(w: World): Graph<Path> {
    map p | p in w.files :: Targets(w, ItemsOf(w.files[p].nodes), p)
  }

  lemma {:induction false} TargetMembers(w: World, items: seq<Item>, from: Path, q: Path)
    ensures q in Targets(w, items, from) <==> exists it :: it in items && LeadsTo(w, it, from, q)
  {
    if items != [] {
      var front, last := items[..|items| - 1], items[|items| - 1];
      TargetMembers(w, front, from, q);
      assert items == front + [last];
      assert q in Targets(w, items, from) <==> q in Targets(w, front, from) || LeadsTo(w, last, from, q);
    }
  }

  lemma EdgeIffIncludes(w: World, p: Path, q: Path)
    ensures Edge(IncludeGraph(w), p, q) <==> Includes(w, p, q)
  {
    if p in w.files {
      TargetMembers(w, ItemsOf(w.files[p].nodes), p, q);
    }
  }

  /** Where a file has a meaning, each file it includes has one, with less fuel. */
  lemma {:induction false} IncludedHasMeaning(w: World, items: seq<Item>, from: Path, it: Item, q: Path, fuel: nat)
    requires DenoteItems(w, items, from, fuel).Some? && it in items && LeadsTo(w, it, from, q)
    ensures Denote(w, q, it.inc.params, fuel).Some?
  {
    var front, last := items[..|items| - 1], items[|items| - 1];
    assert items == front + [last];
    if it in front {
      IncludedHasMeaning(w, front, from, it, q, fuel);
    }
  }

  ghost predicate HasFuel(w: World, p: Path, fuel: nat) {
    exists params: Combo :: Denote(w, p, params, fuel).Some?
  }

  lemma StepUsesFuel(w: World, p: Path, q: Path, fuel: nat)
    requires Edge(IncludeGraph(w), p, q) && HasFuel(w, p, fuel)
    ensures fuel > 1 && HasFuel(w, q, fuel - 1)
  {
    EdgeIffIncludes(w, p, q);
    var it :| it in ItemsOf(w.files[p].nodes) && LeadsTo(w, it, p, q);
    ItemUsesFuel(w, p, it, q, fuel);
  }

  lemma ItemUsesFuel(w: World, p: Path, it: Item, q: Path, fuel: nat)
    requires p in w.files && it in ItemsOf(w.files[p].nodes) && LeadsTo(w, it, p, q) && HasFuel(w, p, fuel)
    ensures fuel > 1 && HasFuel(w, q, fuel - 1)
  {
    var params: Combo :| Denote(w, p, params, fuel).Some?;
    IncludedHasMeaning(w, ItemsOf(w.files[p].nodes), p, it, q, fuel - 1);
  }

  ghost function Fuels(w: World): (Path, nat) -> bool {
    (p: Path, fuel: nat) => HasFuel(w, p, fuel)
  }

  lemma IncludesUseFuel(w: World)
    ensures Budgeted(IncludeGraph(w), Fuels(w))
  {
    var g, has := IncludeGraph(w), Fuels(w);
    forall a, b, f: nat | Edge(g, a, b) && has(a, f) ensures f > 1 && has(b, f - 1) {
      StepUsesFuel(w, a, b, f);
    }
  }

  /** Nothing that an expandable file reaches through includes lies on a cycle of includes. */
  lemma MeaningExcludesCycles(w: World, path: Path, params: Combo, r: Resolved, cycle: seq<Path>)
    requires Means(w, path, params, r) && |cycle| > 0 && Reaches(IncludeGraph(w), path, cycle[0])
    ensures !IsCycle(IncludeGraph(w), cycle)
  {
    IncludesUseFuel(w);
    var fuel: nat :| Denote(w, path, params, fuel) == Some(r);
    assert Fuels(w)(path, fuel);
    ReachedByBudget(IncludeGraph(w), Fuels(w), path, fuel, cycle);
  }

  lemma ReachedByBudget(g: Graph<Path>, has: (Path, nat) -> bool, path: Path, fuel: nat, cycle: seq<Path>)
    requires Budgeted(g, has) && has(path, fuel) && |cycle| > 0 && Reaches(g, path, cycle[0])
    ensures !IsCycle(g, cycle)
  {
    var p: seq<Path> :| Links(g, p, path, cycle[0]);
    PathUsesBudget(g, has, p, fuel);
    BudgetExcludesCycles(g, has, cycle, fuel - (|p| - 1));
  }
}
