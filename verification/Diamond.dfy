/** A diamond of includes that only the cache resolves. */
module Diamond {
  import opened Prelude
  import opened PipelineModel
  import opened Merge
  import opened CacheKeys
  import opened IncludeMeaning
  import opened IncludeWalk
  import opened IncludeSites
  import opened Include

  const SHARED := Job("job", "image", [], [], [], None, [], None, None, None)

  const B := Directive("b", "z", ConflictError, map[])

  function A(alias: Name): Directive {
    Directive("a", alias, ConflictSkip, map[])
  }

  /** File a includes file b; file b has one job. */
  function TwoFiles(): World {
    World(map[("a", "root") := "a", ("b", "a") := "b"],
          map["a" := File("a", [ItemNode(IncludeItem(B))]), "b" := File("b", [ItemNode(JobItem(SHARED))])])
  }

  /** The root file includes a twice, under two aliases. */
  const ROOT := [IncludeItem(A("x")), IncludeItem(A("y"))]

  lemma Files()
    ensures var w := TwoFiles();
      && "a" in w.files && ItemsOf(w.files["a"].nodes) == [IncludeItem(B)]
      && "b" in w.files && ItemsOf(w.files["b"].nodes) == [JobItem(SHARED)]
      && ("a", "root") in w.resolver && w.resolver[("a", "root")] == "a"
      && ("b", "a") in w.resolver && w.resolver[("b", "a")] == "b"
  {
  }

  lemma OneEntry(e: Entry)
    ensures !Clashes([e]) && Firsts([e]) == [e.job]
  {
    assert [e][..0] == [];
  }

  lemma FilesMean()
    ensures Means(TwoFiles(), "b", map[], Resolved("b", [SHARED]))
    ensures Means(TwoFiles(), "a", map[], Resolved("a", [SHARED]))
  {
    var w := TwoFiles();
    Files();
    var e := Entry(SHARED, ConflictError);
    OneEntry(e);
    NoItemsMean(w, "b");
    ItemAdds(w, [], JobItem(SHARED), "b", []);
    assert [] + [JobItem(SHARED)] == [JobItem(SHARED)] && [] + [e] == [e];
    FileMeans(w, "b", map[], [e], Resolved("b", [SHARED]));
    NoItemsMean(w, "a");
    IncludeAdds(w, [], B, "a", [], Resolved("b", [SHARED]));
    assert [] + [IncludeItem(B)] == [IncludeItem(B)] && [] + Entries([SHARED], ConflictError) == [e];
    FileMeans(w, "a", map[], [e], Resolved("a", [SHARED]));
  }

  lemma RootMeans()
    ensures var e := Entry(SHARED, ConflictSkip); ItemsMean(TwoFiles(), ROOT, "root", [e, e]) && !Clashes([e, e])
  {
    var w, e := TwoFiles(), Entry(SHARED, ConflictSkip);
    Files();
    FilesMean();
    NoItemsMean(w, "root");
    IncludeAdds(w, [], A("x"), "root", [], Resolved("a", [SHARED]));
    assert Entries([SHARED], ConflictSkip) == [e];
    IncludeAdds(w, [] + [IncludeItem(A("x"))], A("y"), "root", [] + [e], Resolved("a", [SHARED]));
    assert [] + [IncludeItem(A("x"))] + [IncludeItem(A("y"))] == ROOT && [] + [e] + [e] == [e, e];
  }

  /** The include nodes: two in the root file, one in a. */
  lemma ChainsEnd(p: seq<Site>)
    requires Nested(TwoFiles(), p) && p[0].owner == RootFile("root") && IsChild(ROOT, p[0])
    ensures |p| <= 2 && (|p| == 2 ==> p[1] == Site(Included("a", map[]), 0, B))
  {
    Files();
    assert |p| > 1 ==> Behind(TwoFiles(), p[0], p[1]);
    assert |p| > 2 ==> Behind(TwoFiles(), p[1], p[2]);
  }

  lemma NodesOf()
    ensures forall t :: Among(TwoFiles(), RootFile("root"), ROOT, t) ==>
      t in {Site(RootFile("root"), 0, A("x")), Site(RootFile("root"), 1, A("y")), Site(Included("a", map[]), 0, B)}
  {
    var w, o := TwoFiles(), RootFile("root");
    forall t | Among(w, o, ROOT, t) ensures t in {Site(o, 0, A("x")), Site(o, 1, A("y")), Site(Included("a", map[]), 0, B)} {
      var s :| HeadedBy(w, s, o, ROOT, t);
      var p: seq<Site> :| Connects(w, p, s, t);
      ChainsEnd(p);
    }
  }

  lemma NodesApart()
    ensures AliasesApart(TwoFiles(), RootFile("root"), ROOT) && !TooDeeply(TwoFiles(), ROOT, "root")
  {
    var w, o := TwoFiles(), RootFile("root");
    NodesOf();
    if TooDeeply(w, ROOT, "root") {
      var s :| DeepHead(w, s, o, ROOT, MAX_INCLUDE_DEPTH + 1);
      var p: seq<Site> :| ChainFrom(w, p, s, MAX_INCLUDE_DEPTH + 1);
      ChainsEnd(p);
    }
  }

  /** The second visit of b finds its alias taken. */
  lemma WalkB(stack: seq<Path>, aliases: Aliases)
    requires |stack| < MAX_INCLUDE_DEPTH && "b" !in stack
    ensures var walk := WalkInclude(TwoFiles(), B, "a", stack, aliases);
      if "z" in aliases then walk == Err(AliasTaken)
      else walk.Ok? && walk.value.resolved == Resolved("b", [SHARED]) && walk.value.aliases.Keys == aliases.Keys + {"z"}
  {
    var w, e := TwoFiles(), Entry(SHARED, ConflictError);
    Files();
    OneEntry(e);
    var items := [JobItem(SHARED)];
    assert items[..0] == [];
    assert WalkItems(w, items[..0], "b", stack + ["b"], aliases) == Ok(ItemsWalk([], aliases));
    assert WalkItems(w, items, "b", stack + ["b"], aliases) == Ok(ItemsWalk([] + [e], aliases));
    assert [] + [e] == [e];
  }

  lemma WalkA(alias: Name, aliases: Aliases)
    requires alias != "" && alias != "z" && alias !in aliases
    ensures var walk := WalkInclude(TwoFiles(), A(alias), "root", [], aliases);
      if "z" in aliases then walk == Err(AliasTaken)
      else walk.Ok? && walk.value.resolved == Resolved("a", [SHARED]) && walk.value.aliases.Keys == aliases.Keys + {"z", alias}
  {
    var w, e := TwoFiles(), Entry(SHARED, ConflictError);
    Files();
    OneEntry(e);
    var items := [IncludeItem(B)];
    WalkB([] + ["a"], aliases);
    assert items[..0] == [];
    assert WalkItems(w, items[..0], "a", [] + ["a"], aliases) == Ok(ItemsWalk([], aliases));
    assert [] + Entries([SHARED], ConflictError) == [e];
  }

  /** Resolving a again at its second use is stopped by the alias of b; with the cache, b is met once
      and ParseRoot succeeds. */
  lemma OnlyTheCacheResolves()
    ensures KeysApart(TwoFiles().resolver.Values)
    ensures Sound(TwoFiles(), ROOT, "root") && !TooDeeply(TwoFiles(), ROOT, "root")
    ensures WalkItems(TwoFiles(), ROOT, "root", [], map[]) == Err(AliasTaken)
  {
    RootMeans();
    NodesApart();
    RootWalks();
    PlainPathsAreApart(TwoFiles().resolver.Values);
  }

  lemma RootWalks()
    ensures WalkItems(TwoFiles(), ROOT, "root", [], map[]) == Err(AliasTaken)
  {
    var w, front := TwoFiles(), [IncludeItem(A("x"))];
    assert ROOT[..1] == front && front[..0] == [];
    assert WalkItems(w, front[..0], "root", [], map[]) == Ok(ItemsWalk([], map[]));
    WalkA("x", map[]);
    var first := WalkItems(w, front, "root", [], map[]).value;
    WalkA("y", first.aliases);
  }

  /** And so it does. */
  method RootParses() returns (r: Result<Parsed, IncludeError>)
    ensures r.Ok? && r.value.aliases.Keys == {"x", "y", "z"}
  {
    OnlyTheCacheResolves();
    ghost var es;
    r, es := ParseRoot(TwoFiles(), ROOT, "root");
    NodesBear();
    assert forall a :: a in r.value.aliases <==> a in {"x", "y", "z"};
  }

  lemma NodesBear()
    ensures forall a :: Borne(TwoFiles(), RootFile("root"), ROOT, a) <==> a in {"x", "y", "z"}
  {
    var w, o := TwoFiles(), RootFile("root");
    var x, y, z := Site(o, 0, A("x")), Site(o, 1, A("y")), Site(Included("a", map[]), 0, B);
    Files();
    FilesMean();
    NodesOf();
    UnderSelf(w, x);
    UnderSelf(w, y);
    UnderSelf(w, z);
    assert Behind(w, x, z);
    UnderVia(w, x, z, z);
    assert HeadedBy(w, x, o, ROOT, x) && HeadedBy(w, x, o, ROOT, z) && HeadedBy(w, y, o, ROOT, y);
    assert IncludeMeans(w, A("x"), "root", Resolved("a", [SHARED])) && IncludeMeans(w, A("y"), "root", Resolved("a", [SHARED]));
    assert IncludeMeans(w, B, "a", Resolved("b", [SHARED]));
    assert Bears(w, x, "x") && Bears(w, y, "y") && Bears(w, z, "z");
    forall a | Borne(w, o, ROOT, a) ensures a in {"x", "y", "z"} {
      var s :| Among(w, o, ROOT, s) && Bears(w, s, a);
    }
  }
}
