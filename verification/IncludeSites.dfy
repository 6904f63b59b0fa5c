/** Include nodes and what each one registers. */
module IncludeSites {
  // An include node of the files that a root file draws in is resolved once for each set of
  // parameters its file is asked for. The ledger pairs every alias with the node that took it.

  import opened PipelineModel
  import opened Params
  import opened Merge
  import opened CacheKeys
  import opened IncludeMeaning
  import opened IncludeWalk

  datatype IncludeError =
    | Unresolvable(source: string)
    | CircularInclude(chain: seq<Path>)
    | IncludeDepth
    | Unreadable
    | AmbiguousFile
    | EmptyInclude
    | UnknownNode
    | Malformed
    | DuplicateParamDef(name: string)
    | BadParams(cause: ParamError)
    | PipelineNoParams
    | BadMerge(conflict: MergeError)
    | DuplicateAlias(alias: Name)

  /** The root file, or an included file with the parameters it is asked for. */
  datatype Owner = RootFile(path: Path) | Included(path: Path, params: Combo)

  /** An include node: a child of its owner, by position. */
  datatype Site = Site(owner: Owner, index: nat, inc: Directive)

  predicate Resolves(w: World, s: Site) {
    (s.inc.source, s.owner.path) in w.resolver
  }

  function TargetOf(w: World, s: Site): Owner
    requires Resolves(w, s)
  {
    Included(w.resolver[(s.inc.source, s.owner.path)], s.inc.params)
  }

  function ItemsAt(w: World, path: Path): seq<Item> {
    if path in w.files then ItemsOf(w.files[path].nodes) else []
  }

  predicate IsChild(items: seq<Item>, s: Site) {
    s.index < |items| && items[s.index] == IncludeItem(s.inc)
  }

  /** t stands in the file that s includes. */
  predicate Behind(w: World, s: Site, t: Site) {
    Resolves(w, s) && t.owner == TargetOf(w, s) && IsChild(ItemsAt(w, t.owner.path), t)
  }

  ghost predicate Nested(w: World, p: seq<Site>) {
    |p| > 0 && forall i :: 0 <= i < |p| - 1 ==> Behind(w, p[i], p[i + 1])
  }

  ghost predicate Connects(w: World, p: seq<Site>, s: Site, t: Site) {
    Nested(w, p) && p[0] == s && p[|p| - 1] == t
  }

  /** t is s or stands in a file that s draws in, at whatever depth. */
  ghost predicate Under(w: World, s: Site, t: Site) {
    exists p: seq<Site> :: Connects(w, p, s, t)
  }

  ghost predicate HeadedBy(w: World, s: Site, owner: Owner, items: seq<Item>, t: Site) {
    s.owner == owner && IsChild(items, s) && Under(w, s, t)
  }

  /** t is one of the include nodes among items, or under one of them. */
  ghost predicate Among(w: World, owner: Owner, items: seq<Item>, t: Site) {
    exists s :: HeadedBy(w, s, owner, items, t)
  }

  /** The node registers alias a if it is resolved. */
  ghost predicate Bears(w: World, s: Site, a: Name) {
    exists r :: IncludeMeans(w, s.inc, s.owner.path, r) && AliasOf(s.inc, r) == a
  }

  lemma UnderSelf(w: World, s: Site)
    ensures Under(w, s, s)
  {
    assert Connects(w, [s], s, s);
  }

  lemma UnderVia(w: World, s: Site, m: Site, t: Site)
    requires Behind(w, s, m) && Under(w, m, t)
    ensures Under(w, s, t)
  {
    var p: seq<Site> :| Connects(w, p, m, t);
    var q := [s] + p;
    assert forall i :: 0 <= i < |p| ==> q[i + 1] == p[i];
    assert Connects(w, q, s, t);
  }

  /** What is under a node is the node, or among the children of the file it includes. */
  lemma UnderIffAmong(w: World, s: Site, t: Site)
    ensures Under(w, s, t) <==>
      t == s || (Resolves(w, s) && Among(w, TargetOf(w, s), ItemsAt(w, TargetOf(w, s).path), t))
  {
    UnderSelf(w, s);
    if Under(w, s, t) && t != s {
      var p: seq<Site> :| Connects(w, p, s, t);
      assert forall i :: 0 <= i < |p| - 1 ==> p[1..][i] == p[i + 1];
      assert Connects(w, p[1..], p[1], t);
      assert Behind(w, p[0], p[1]);
      assert HeadedBy(w, p[1], TargetOf(w, s), ItemsAt(w, TargetOf(w, s).path), t);
    }
    if Resolves(w, s) && Among(w, TargetOf(w, s), ItemsAt(w, TargetOf(w, s).path), t) {
      var m :| HeadedBy(w, m, TargetOf(w, s), ItemsAt(w, TargetOf(w, s).path), t);
      UnderVia(w, s, m, t);
    }
  }

  lemma AmongMore(w: World, owner: Owner, front: seq<Item>, items: seq<Item>, t: Site)
    requires |front| <= |items| && forall i :: 0 <= i < |front| ==> items[i] == front[i]
    requires Among(w, owner, front, t)
    ensures Among(w, owner, items, t)
  {
    var s :| HeadedBy(w, s, owner, front, t);
    assert HeadedBy(w, s, owner, items, t);
  }

  lemma AmongLast(w: World, here: Site, front: seq<Item>, t: Site)
    requires here.index == |front| && Under(w, here, t)
    ensures Among(w, here.owner, front + [IncludeItem(here.inc)], t)
  {
    assert HeadedBy(w, here, here.owner, front + [IncludeItem(here.inc)], t);
  }

  lemma BearsOne(w: World, s: Site, a: Name, b: Name)
    requires Bears(w, s, a) && Bears(w, s, b)
    ensures a == b
  {
    var q :| IncludeMeans(w, s.inc, s.owner.path, q) && AliasOf(s.inc, q) == a;
    var r :| IncludeMeans(w, s.inc, s.owner.path, r) && AliasOf(s.inc, r) == b;
    MeaningIsUnique(w, w.resolver[(s.inc.source, s.owner.path)], s.inc.params, q, r);
  }

  // ---------------------------------------------------------------- nesting depth

  ghost predicate ChainFrom(w: World, p: seq<Site>, s: Site, n: nat) {
    Nested(w, p) && p[0] == s && |p| == n
  }

  /** A chain of n include nodes, each in the file the one before it includes, starts at s. */
  ghost predicate DeepAt(w: World, s: Site, n: nat) {
    exists p: seq<Site> :: ChainFrom(w, p, s, n)
  }

  ghost predicate DeepHead(w: World, s: Site, owner: Owner, items: seq<Item>, n: nat) {
    s.owner == owner && IsChild(items, s) && DeepAt(w, s, n)
  }

  ghost predicate DeepAmong(w: World, owner: Owner, items: seq<Item>, n: nat) {
    exists s :: DeepHead(w, s, owner, items, n)
  }

  lemma DeepSelf(w: World, s: Site)
    ensures DeepAt(w, s, 1)
  {
    assert ChainFrom(w, [s], s, 1);
  }

  lemma DeepVia(w: World, s: Site, n: nat)
    requires Resolves(w, s) && DeepAmong(w, TargetOf(w, s), ItemsAt(w, TargetOf(w, s).path), n)
    ensures DeepAt(w, s, n + 1)
  {
    var m :| DeepHead(w, m, TargetOf(w, s), ItemsAt(w, TargetOf(w, s).path), n);
    var p: seq<Site> :| ChainFrom(w, p, m, n);
    var q := [s] + p;
    assert forall i :: 0 <= i < |p| ==> q[i + 1] == p[i];
    assert ChainFrom(w, q, s, n + 1);
  }

  lemma DeepBelow(w: World, s: Site, n: nat)
    requires n > 1 && DeepAt(w, s, n)
    ensures Resolves(w, s) && DeepAmong(w, TargetOf(w, s), ItemsAt(w, TargetOf(w, s).path), n - 1)
  {
    var p: seq<Site> :| ChainFrom(w, p, s, n);
    assert Behind(w, p[0], p[1]);
    assert forall i :: 0 <= i < |p| - 1 ==> p[1..][i] == p[i + 1];
    assert ChainFrom(w, p[1..], p[1], n - 1);
    assert DeepHead(w, p[1], TargetOf(w, s), ItemsAt(w, TargetOf(w, s).path), n - 1);
  }

  lemma DeepMore(w: World, owner: Owner, front: seq<Item>, items: seq<Item>, n: nat)
    requires |front| <= |items| && forall i :: 0 <= i < |front| ==> items[i] == front[i]
    requires DeepAmong(w, owner, front, n)
    ensures DeepAmong(w, owner, items, n)
  {
    var s :| DeepHead(w, s, owner, front, n);
    assert DeepHead(w, s, owner, items, n);
  }

  lemma DeepLast(w: World, here: Site, front: seq<Item>, n: nat)
    requires here.index == |front| && DeepAt(w, here, n)
    ensures DeepAmong(w, here.owner, front + [IncludeItem(here.inc)], n)
  {
    assert DeepHead(w, here, here.owner, front + [IncludeItem(here.inc)], n);
  }

  // ---------------------------------------------------------------- the ledger

  /** The tables of the resolver, and for each alias the node that registered it. */
  datatype Ledger = Ledger(cache: map<string, Resolved>, aliases: Aliases, sites: map<Name, Site>)

  predicate CachedAt(b: Ledger, o: Owner) {
    o.Included? && CacheKey(o.path, o.params) in b.cache
  }

  /** The node is registered and its file is in the cache. */
  predicate Booked(w: World, b: Ledger, s: Site) {
    s in b.sites.Values && Resolves(w, s) && CachedAt(b, TargetOf(w, s))
  }

  ghost predicate AllBooked(w: World, b: Ledger, owner: Owner, items: seq<Item>) {
    forall s: Site {:trigger Booked(w, b, s)} :: s.owner == owner && IsChild(items, s) ==> Booked(w, b, s)
  }

  ghost predicate CacheComplete(w: World, b: Ledger) {
    forall p, c: Combo {:trigger AllBooked(w, b, Included(p, c), ItemsAt(w, p))} ::
      p in w.resolver.Values && CacheKey(p, c) in b.cache ==> AllBooked(w, b, Included(p, c), ItemsAt(w, p))
  }

  ghost predicate SitesBear(w: World, b: Ledger) {
    forall a {:trigger Bears(w, b.sites[a], a)} :: a in b.sites ==> Bears(w, b.sites[a], a)
  }

  /** names are the terminal jobs of what s includes. */
  ghost predicate TerminalsOf(w: World, s: Site, names: seq<Name>) {
    exists r :: IncludeMeans(w, s.inc, s.owner.path, r) && names == Terminals(r.jobs, r.jobs)
  }

  ghost predicate AliasesStand(w: World, b: Ledger) {
    forall a {:trigger TerminalsOf(w, b.sites[a], b.aliases[a])} :: a in b.sites && a in b.aliases ==>
      TerminalsOf(w, b.sites[a], b.aliases[a])
  }

  /** Each alias is borne by the node that took it and stands for the terminal jobs of what that node
      includes, and a cached file has all its nodes registered. */
  ghost predicate BookOk(w: World, b: Ledger) {
    b.sites.Keys == b.aliases.Keys && SitesBear(w, b) && AliasesStand(w, b) && CacheComplete(w, b)
  }

  predicate Settled(b: Ledger, stack: seq<Path>, o: Owner) {
    CachedAt(b, o) && o.path !in stack
  }

  /** Every registered node stands in the root file, in a file being read, or in a cached one. */
  ghost predicate Placed(b: Ledger, stack: seq<Path>) {
    forall a {:trigger PlacedOwner(b, stack, b.sites[a].owner)} :: a in b.sites ==> PlacedOwner(b, stack, b.sites[a].owner)
  }

  predicate PlacedOwner(b: Ledger, stack: seq<Path>, o: Owner) {
    o.RootFile? || o.path in stack || CachedAt(b, o)
  }

  /** Of the owner's nodes only some of the first k are registered. */
  ghost predicate Fresh(b: Ledger, owner: Owner, k: nat) {
    forall a :: a in b.sites && b.sites[a].owner == owner ==> b.sites[a].index < k
  }

  ghost predicate Keeps(b0: Ledger, b1: Ledger) {
    && b0.cache.Keys <= b1.cache.Keys
    && forall a :: a in b0.sites ==> a in b1.sites && b1.sites[a] == b0.sites[a]
  }

  /** From b0 to b1 only here and nodes under it were registered. */
  ghost predicate GrownAt(w: World, b0: Ledger, b1: Ledger, stack: seq<Path>, here: Site) {
    Keeps(b0, b1) && forall a :: a in b1.sites && a !in b0.sites ==>
      b1.sites[a] == here || (Under(w, here, b1.sites[a]) && Settled(b1, stack, b1.sites[a].owner))
  }

  ghost predicate GrownAmong(w: World, b0: Ledger, b1: Ledger, stack: seq<Path>, owner: Owner, items: seq<Item>) {
    Keeps(b0, b1) && forall a :: a in b1.sites && a !in b0.sites ==>
      Among(w, owner, items, b1.sites[a]) && (b1.sites[a].owner == owner || Settled(b1, stack, b1.sites[a].owner))
  }

  predicate Reading(stack: seq<Path>, owner: Owner) {
    if stack == [] then owner.RootFile? else owner.Included? && stack[|stack| - 1] == owner.path
  }

  /** How far the resolver is with the owner's children: those in front are done. */
  ghost predicate Progress(w: World, b0: Ledger, b: Ledger, stack: seq<Path>, owner: Owner, front: seq<Item>) {
    && Reading(stack, owner)
    && GrownAmong(w, b0, b, stack, owner, front)
    && AllBooked(w, b, owner, front)
    && Fresh(b, owner, |front|)
    && Placed(b, stack)
  }

  /** The resolver may turn to the node here. */
  ghost predicate MayResolve(b: Ledger, stack: seq<Path>, here: Site) {
    Reading(stack, here.owner) && Fresh(b, here.owner, here.index) && Placed(b, stack)
  }

  lemma KeepsBooked(w: World, b0: Ledger, b1: Ledger, owner: Owner, items: seq<Item>)
    requires Keeps(b0, b1) && AllBooked(w, b0, owner, items)
    ensures AllBooked(w, b1, owner, items)
  {
    forall s: Site | s.owner == owner && IsChild(items, s) ensures Booked(w, b1, s) {
      assert Booked(w, b0, s);
    }
  }

  lemma KeepsPlaced(w: World, b0: Ledger, b1: Ledger, stack: seq<Path>, here: Site)
    requires MayResolve(b0, stack, here) && GrownAt(w, b0, b1, stack, here)
    ensures Placed(b1, stack)
  {
    forall a | a in b1.sites ensures PlacedOwner(b1, stack, b1.sites[a].owner) {
      assert a in b0.sites ==> PlacedOwner(b0, stack, b0.sites[a].owner);
    }
  }

  /** One more child done. */
  lemma NodeDone(w: World, b0: Ledger, b: Ledger, b1: Ledger, stack: seq<Path>, here: Site, front: seq<Item>)
    requires Progress(w, b0, b, stack, here.owner, front) && here.index == |front|
    requires GrownAt(w, b, b1, stack, here) && Booked(w, b1, here)
    ensures Progress(w, b0, b1, stack, here.owner, front + [IncludeItem(here.inc)])
  {
    var items := front + [IncludeItem(here.inc)];
    KeepsPlaced(w, b, b1, stack, here);
    KeepsBooked(w, b, b1, here.owner, front);
    forall s: Site | s.owner == here.owner && IsChild(items, s) ensures Booked(w, b1, s) {
      assert s == here || IsChild(front, s);
    }
    NodeGrows(w, b0, b, b1, stack, here, front);
  }

  lemma NodeGrows(w: World, b0: Ledger, b: Ledger, b1: Ledger, stack: seq<Path>, here: Site, front: seq<Item>)
    requires GrownAmong(w, b0, b, stack, here.owner, front) && here.index == |front|
    requires GrownAt(w, b, b1, stack, here)
    ensures GrownAmong(w, b0, b1, stack, here.owner, front + [IncludeItem(here.inc)])
  {
    UnderSelf(w, here);
    forall a | a in b1.sites && a !in b0.sites
      ensures Among(w, here.owner, front + [IncludeItem(here.inc)], b1.sites[a])
    {
      if a in b.sites {
        AmongMore(w, here.owner, front, front + [IncludeItem(here.inc)], b.sites[a]);
      } else {
        AmongLast(w, here, front, b1.sites[a]);
      }
    }
  }

  /** A child that is no include. */
  lemma OtherDone(w: World, b0: Ledger, b: Ledger, stack: seq<Path>, owner: Owner, front: seq<Item>, it: Item)
    requires Progress(w, b0, b, stack, owner, front) && !it.IncludeItem?
    ensures Progress(w, b0, b, stack, owner, front + [it])
  {
    var items := front + [it];
    forall s: Site | s.owner == owner && IsChild(items, s) ensures Booked(w, b, s) {
      assert IsChild(front, s);
    }
    forall a | a in b.sites && a !in b0.sites ensures Among(w, owner, items, b.sites[a]) {
      AmongMore(w, owner, front, items, b.sites[a]);
    }
  }

  /** A file that is neither being read nor cached has no node registered yet. */
  lemma FileEntered(w: World, b: Ledger, stack: seq<Path>, path: Path, params: Combo)
    requires Placed(b, stack) && path !in stack && CacheKey(path, params) !in b.cache
    ensures Progress(w, b, b, stack + [path], Included(path, params), [])
  {
    var owner := Included(path, params);
    forall a | a in b.sites ensures b.sites[a].owner != owner && PlacedOwner(b, stack + [path], b.sites[a].owner) {
      assert PlacedOwner(b, stack, b.sites[a].owner);
    }
  }

  ghost predicate Entered(b: Ledger, stack: seq<Path>, owner: Owner) {
    Reading(stack, owner) && Fresh(b, owner, 0) && Placed(b, stack)
  }

  function WithFile(b: Ledger, path: Path, params: Combo, r: Resolved): Ledger {
    b.(cache := b.cache[CacheKey(path, params) := r])
  }

  /** A file whose children are all done may be cached. */
  lemma FileCached(w: World, b0: Ledger, b: Ledger, stack: seq<Path>, path: Path, params: Combo, r: Resolved)
    requires KeysApart(w.resolver.Values) && path in w.resolver.Values
    requires BookOk(w, b) && Progress(w, b0, b, stack, Included(path, params), ItemsAt(w, path))
    ensures BookOk(w, WithFile(b, path, params, r))
    ensures GrownAmong(w, b0, WithFile(b, path, params, r), stack, Included(path, params), ItemsAt(w, path))
  {
    var b1 := WithFile(b, path, params, r);
    forall p, c: Combo | p in w.resolver.Values && CacheKey(p, c) in b1.cache
      ensures AllBooked(w, b1, Included(p, c), ItemsAt(w, p))
    {
      assert CacheKey(p, c) == CacheKey(path, params) ==> p == path && c == params;
      KeepsBooked(w, b, b1, Included(p, c), ItemsAt(w, p));
    }
  }

  function WithAlias(b: Ledger, a: Name, terminals: seq<Name>, here: Site): Ledger {
    b.(aliases := b.aliases[a := terminals], sites := b.sites[a := here])
  }

  lemma NodeRegistered(w: World, b: Ledger, a: Name, terminals: seq<Name>, here: Site)
    requires BookOk(w, b) && a !in b.aliases && Bears(w, here, a) && TerminalsOf(w, here, terminals)
    ensures BookOk(w, WithAlias(b, a, terminals, here)) && Keeps(b, WithAlias(b, a, terminals, here))
    ensures here in WithAlias(b, a, terminals, here).sites.Values
  {
    var b1 := WithAlias(b, a, terminals, here);
    assert b1.sites[a] == here;
    forall m | m in b1.sites ensures TerminalsOf(w, b1.sites[m], b1.aliases[m]) {
      assert m != a ==> TerminalsOf(w, b.sites[m], b.aliases[m]);
    }
    forall p, c: Combo | p in w.resolver.Values && CacheKey(p, c) in b1.cache
      ensures AllBooked(w, b1, Included(p, c), ItemsAt(w, p))
    {
      KeepsBooked(w, b, b1, Included(p, c), ItemsAt(w, p));
    }
  }

  /** The node here is registered once its file is read. */
  lemma FileLeft(w: World, b0: Ledger, b: Ledger, stack: seq<Path>, here: Site, a: Name, terminals: seq<Name>)
    requires Resolves(w, here) && a !in b.sites
    requires var o := TargetOf(w, here);
      CachedAt(b, o) && o.path !in stack && GrownAmong(w, b0, b, stack + [o.path], o, ItemsAt(w, o.path))
    ensures GrownAt(w, b0, WithAlias(b, a, terminals, here), stack, here)
  {
    var o, b1 := TargetOf(w, here), WithAlias(b, a, terminals, here);
    forall m | m in b1.sites && m !in b0.sites && b1.sites[m] != here
      ensures Under(w, here, b1.sites[m]) && Settled(b1, stack, b1.sites[m].owner)
    {
      UnderIffAmong(w, here, b.sites[m]);
      assert forall p :: p !in stack + [o.path] ==> p !in stack;
    }
  }

  // ---------------------------------------------------------------- what stops the resolver

  /** Two different nodes bear a: one under here, the other too or registered before. */
  ghost predicate ClashAtNode(w: World, b0: Ledger, here: Site, a: Name) {
    exists s, t :: Rivals(w, s, t, a) && Under(w, here, t) && (Under(w, here, s) || s in b0.sites.Values)
  }

  ghost predicate Rivals(w: World, s: Site, t: Site, a: Name) {
    s != t && Bears(w, s, a) && Bears(w, t, a)
  }

  ghost predicate ClashAmong(w: World, b0: Ledger, owner: Owner, items: seq<Item>, a: Name) {
    exists s, t :: Rivals(w, s, t, a) && Among(w, owner, items, t) && (Among(w, owner, items, s) || s in b0.sites.Values)
  }

  /** Only a chain of nodes too long for the stack, or two nodes with one alias, stop the resolver where
      the files have a meaning. */
  predicate Capped(e: IncludeError) {
    e.IncludeDepth? || e.DuplicateAlias?
  }

  ghost predicate StopsAt(w: World, b0: Ledger, stack: seq<Path>, here: Site, e: IncludeError) {
    && (e.DuplicateAlias? ==> ClashAtNode(w, b0, here, e.alias))
    && (e.IncludeDepth? ==> |stack| <= MAX_INCLUDE_DEPTH && DeepAt(w, here, MAX_INCLUDE_DEPTH + 1 - |stack|))
  }

  ghost predicate StopsAmong(w: World, b0: Ledger, stack: seq<Path>, owner: Owner, items: seq<Item>, e: IncludeError) {
    && (e.DuplicateAlias? ==> ClashAmong(w, b0, owner, items, e.alias))
    && (e.IncludeDepth? ==> |stack| <= MAX_INCLUDE_DEPTH && DeepAmong(w, owner, items, MAX_INCLUDE_DEPTH + 1 - |stack|))
  }

  lemma StopsMore(w: World, b0: Ledger, stack: seq<Path>, owner: Owner, front: seq<Item>, items: seq<Item>, e: IncludeError)
    requires |front| <= |items| && forall i :: 0 <= i < |front| ==> items[i] == front[i]
    requires StopsAmong(w, b0, stack, owner, front, e)
    ensures StopsAmong(w, b0, stack, owner, items, e)
  {
    if e.DuplicateAlias? {
      var s, t :| Rivals(w, s, t, e.alias) && Among(w, owner, front, t) && (Among(w, owner, front, s) || s in b0.sites.Values);
      AmongMore(w, owner, front, items, t);
      if Among(w, owner, front, s) {
        AmongMore(w, owner, front, items, s);
      }
    }
    if e.IncludeDepth? {
      DeepMore(w, owner, front, items, MAX_INCLUDE_DEPTH + 1 - |stack|);
    }
  }

  /** What stops a file's children stops the node that includes it. */
  lemma FileStops(w: World, b0: Ledger, stack: seq<Path>, here: Site, e: IncludeError)
    requires Resolves(w, here)
    requires StopsAmong(w, b0, stack + [TargetOf(w, here).path], TargetOf(w, here), ItemsAt(w, TargetOf(w, here).path), e)
    ensures StopsAt(w, b0, stack, here, e)
  {
    var o := TargetOf(w, here);
    var items := ItemsAt(w, o.path);
    if e.DuplicateAlias? {
      var s, t :| Rivals(w, s, t, e.alias) && Among(w, o, items, t) && (Among(w, o, items, s) || s in b0.sites.Values);
      UnderIffAmong(w, here, s);
      UnderIffAmong(w, here, t);
    }
    if e.IncludeDepth? {
      DeepVia(w, here, MAX_INCLUDE_DEPTH - |stack|);
    }
  }

  /** What stops a node stops the children of its file up to it. */
  lemma NodeStops(w: World, b0: Ledger, b: Ledger, stack: seq<Path>, here: Site, front: seq<Item>, e: IncludeError)
    requires Progress(w, b0, b, stack, here.owner, front) && here.index == |front|
    requires StopsAt(w, b, stack, here, e)
    ensures StopsAmong(w, b0, stack, here.owner, front + [IncludeItem(here.inc)], e)
  {
    var items := front + [IncludeItem(here.inc)];
    if e.DuplicateAlias? {
      var s, t :| Rivals(w, s, t, e.alias) && Under(w, here, t) && (Under(w, here, s) || s in b.sites.Values);
      AmongLast(w, here, front, t);
      if Under(w, here, s) {
        AmongLast(w, here, front, s);
      } else if s !in b0.sites.Values {
        var a :| a in b.sites && b.sites[a] == s;
        AmongMore(w, here.owner, front, items, s);
      }
    }
    if e.IncludeDepth? {
      DeepLast(w, here, front, MAX_INCLUDE_DEPTH + 1 - |stack|);
    }
  }

  /** An alias already taken when its own node comes to be registered. */
  lemma AliasStops(w: World, b0: Ledger, b: Ledger, stack: seq<Path>, here: Site, a: Name)
    requires Resolves(w, here) && BookOk(w, b) && MayResolve(b0, stack, here)
    requires Bears(w, here, a) && a in b.sites
    requires b == b0 || GrownAmong(w, b0, b, stack + [TargetOf(w, here).path], TargetOf(w, here), ItemsAt(w, TargetOf(w, here).path))
    requires TargetOf(w, here).path !in stack
    ensures StopsAt(w, b0, stack, here, DuplicateAlias(a))
  {
    var s := b.sites[a];
    UnderSelf(w, here);
    if a in b0.sites {
      assert b0.sites[a] == s && s != here;
      assert Rivals(w, s, here, a);
    } else {
      UnderIffAmong(w, here, s);
      assert s != here;
      assert Rivals(w, s, here, a);
    }
  }

  /** A cached file met again. */
  lemma HitRegisters(w: World, b: Ledger, stack: seq<Path>, here: Site, a: Name, terminals: seq<Name>)
    requires BookOk(w, b) && MayResolve(b, stack, here) && Bears(w, here, a) && TerminalsOf(w, here, terminals)
    requires Resolves(w, here) && CachedAt(b, TargetOf(w, here)) && TargetOf(w, here).path !in stack
    ensures a in b.aliases ==> StopsAt(w, b, stack, here, DuplicateAlias(a))
    ensures a !in b.aliases ==> BookOk(w, WithAlias(b, a, terminals, here))
    ensures a !in b.aliases ==> GrownAt(w, b, WithAlias(b, a, terminals, here), stack, here)
    ensures a !in b.aliases ==> Booked(w, WithAlias(b, a, terminals, here), here)
  {
    if a in b.aliases {
      AliasStops(w, b, b, stack, here, a);
    } else {
      NodeRegistered(w, b, a, terminals, here);
    }
  }

  /** A file read for the first time. */
  lemma FileRegisters(w: World, b0: Ledger, b: Ledger, stack: seq<Path>, here: Site, a: Name, terminals: seq<Name>)
    requires BookOk(w, b) && MayResolve(b0, stack, here) && Bears(w, here, a) && TerminalsOf(w, here, terminals)
    requires Resolves(w, here) && CachedAt(b, TargetOf(w, here)) && TargetOf(w, here).path !in stack
    requires GrownAmong(w, b0, b, stack + [TargetOf(w, here).path], TargetOf(w, here), ItemsAt(w, TargetOf(w, here).path))
    ensures a in b.aliases ==> StopsAt(w, b0, stack, here, DuplicateAlias(a))
    ensures a !in b.aliases ==> BookOk(w, WithAlias(b, a, terminals, here))
    ensures a !in b.aliases ==> GrownAt(w, b0, WithAlias(b, a, terminals, here), stack, here)
    ensures a !in b.aliases ==> Booked(w, WithAlias(b, a, terminals, here), here)
  {
    if a in b.aliases {
      AliasStops(w, b0, b, stack, here, a);
    } else {
      NodeRegistered(w, b, a, terminals, here);
      FileLeft(w, b0, b, stack, here, a, terminals);
    }
  }

  // ---------------------------------------------------------------- when all is done

  /** Under a registered node whose file is cached every node is registered. */
  lemma {:induction false} ChainBooked(w: World, b: Ledger, p: seq<Site>)
    requires BookOk(w, b) && Nested(w, p) && Booked(w, b, p[0])
    ensures Booked(w, b, p[|p| - 1])
  {
    if |p| > 1 {
      assert Behind(w, p[0], p[1]);
      var o := TargetOf(w, p[0]);
      assert AllBooked(w, b, Included(o.path, o.params), ItemsAt(w, o.path));
      assert forall i :: 0 <= i < |p| - 1 ==> p[1..][i] == p[i + 1];
      ChainBooked(w, b, p[1..]);
    }
  }

  /** No two include nodes below the owner's items bear the same alias. */
  ghost predicate AliasesApart(w: World, owner: Owner, items: seq<Item>) {
    forall s, t, a :: Among(w, owner, items, s) && Among(w, owner, items, t) ==> !Rivals(w, s, t, a)
  }

  ghost predicate Borne(w: World, owner: Owner, items: seq<Item>, a: Name) {
    exists s :: Among(w, owner, items, s) && Bears(w, s, a)
  }

  /** Every include node below the owner's items has its alias in the table, and there the alias stands
      for the terminal jobs of what the node includes. */
  ghost predicate Tabled(w: World, owner: Owner, items: seq<Item>, aliases: Aliases) {
    forall s, r :: Among(w, owner, items, s) && IncludeMeans(w, s.inc, s.owner.path, r) ==>
      MapsTo(aliases, AliasOf(s.inc, r), Terminals(r.jobs, r.jobs))
  }

  predicate MapsTo(aliases: Aliases, a: Name, names: seq<Name>) {
    a in aliases && aliases[a] == names
  }

  const NOTHING := Ledger(map[], map[], map[])

  /** When all is done the aliases are exactly those of the include nodes, each borne by one of them. */
  lemma AllDone(w: World, b: Ledger, stack: seq<Path>, owner: Owner, items: seq<Item>)
    requires BookOk(w, b) && Progress(w, NOTHING, b, stack, owner, items)
    ensures AliasesApart(w, owner, items)
    ensures forall a :: a in b.aliases <==> Borne(w, owner, items, a)
    ensures forall t, a :: Among(w, owner, items, t) && Bears(w, t, a) ==> a in b.sites && b.sites[a] == t
  {
    forall t | Among(w, owner, items, t) ensures t in b.sites.Values {
      var s :| HeadedBy(w, s, owner, items, t);
      assert Booked(w, b, s);
      var p: seq<Site> :| Connects(w, p, s, t);
      ChainBooked(w, b, p);
    }
    forall t, a | Among(w, owner, items, t) && Bears(w, t, a) ensures a in b.sites && b.sites[a] == t {
      var c :| c in b.sites && b.sites[c] == t;
      BearsOne(w, t, a, c);
    }
    forall a | a in b.aliases ensures Borne(w, owner, items, a) {
      assert Bears(w, b.sites[a], a);
    }
  }

  lemma AllTabled(w: World, b: Ledger, owner: Owner, items: seq<Item>)
    requires BookOk(w, b)
    requires forall t, a :: Among(w, owner, items, t) && Bears(w, t, a) ==> a in b.sites && b.sites[a] == t
    ensures Tabled(w, owner, items, b.aliases)
  {
    forall s, r | Among(w, owner, items, s) && IncludeMeans(w, s.inc, s.owner.path, r)
      ensures MapsTo(b.aliases, AliasOf(s.inc, r), Terminals(r.jobs, r.jobs))
    {
      var a := AliasOf(s.inc, r);
      assert Bears(w, s, a);
      assert TerminalsOf(w, b.sites[a], b.aliases[a]);
      var q :| IncludeMeans(w, s.inc, s.owner.path, q) && b.aliases[a] == Terminals(q.jobs, q.jobs);
      MeaningIsUnique(w, w.resolver[(s.inc.source, s.owner.path)], s.inc.params, q, r);
    }
  }

  /** Without two nodes of one alias and without too long a chain, nothing caps the resolver. */
  lemma NothingStops(w: World, owner: Owner, items: seq<Item>, e: IncludeError)
    requires StopsAmong(w, NOTHING, [], owner, items, e) && Capped(e)
    ensures AliasesApart(w, owner, items) ==> DeepAmong(w, owner, items, MAX_INCLUDE_DEPTH + 1)
  {
  }
}
