/** Exactly when includes resolve without a cache. */
module WalkExactly {
  // With the cache each include node counts once; without it, each chain of nodes that leads to it.

  import opened Prelude
  import opened PipelineModel
  import opened Merge
  import opened IncludeMeaning
  import opened IncludeWalk
  import opened IncludeSites
  import opened WalkSites

  ghost predicate ChainAt(w: World, p: seq<Site>, here: Site) {
    Nested(w, p) && p[0] == here
  }

  ghost predicate ChainAmong(w: World, p: seq<Site>, owner: Owner, items: seq<Item>) {
    Nested(w, p) && p[0].owner == owner && IsChild(items, p[0])
  }

  /** Both chains end in nodes that bear a. */
  ghost predicate BothBear(w: World, p: seq<Site>, q: seq<Site>, a: Name) {
    p != [] && q != [] && Bears(w, p[|p| - 1], a) && Bears(w, q[|q| - 1], a)
  }

  ghost predicate ChainsApartAt(w: World, here: Site) {
    forall p, q, a :: ChainAt(w, p, here) && ChainAt(w, q, here) && BothBear(w, p, q, a) ==> p == q
  }

  /** No two chains of include nodes from the owner's items end in nodes of the same alias. */
  ghost predicate ChainsApart(w: World, owner: Owner, items: seq<Item>) {
    forall p, q, a :: ChainAmong(w, p, owner, items) && ChainAmong(w, q, owner, items) && BothBear(w, p, q, a) ==> p == q
  }

  lemma TailChain(w: World, p: seq<Site>)
    requires Nested(w, p) && |p| > 1
    ensures Resolves(w, p[0]) && ChainAmong(w, p[1..], TargetOf(w, p[0]), ItemsAt(w, TargetOf(w, p[0]).path))
  {
    assert Behind(w, p[0], p[1]);
    assert forall i :: 0 <= i < |p| - 1 ==> p[1..][i] == p[i + 1];
  }

  lemma LongerChain(w: World, here: Site, p: seq<Site>)
    requires Resolves(w, here) && ChainAmong(w, p, TargetOf(w, here), ItemsAt(w, TargetOf(w, here).path))
    ensures ChainAt(w, [here] + p, here)
  {
    var q := [here] + p;
    assert forall i :: 0 <= i < |p| ==> q[i + 1] == p[i];
  }

  lemma EndIsUnder(w: World, p: seq<Site>)
    requires Nested(w, p)
    ensures Under(w, p[0], p[|p| - 1])
  {
    assert Connects(w, p, p[0], p[|p| - 1]);
  }

  lemma EndIsAmong(w: World, p: seq<Site>, owner: Owner, items: seq<Item>)
    requires ChainAmong(w, p, owner, items)
    ensures Among(w, owner, items, p[|p| - 1])
  {
    EndIsUnder(w, p);
    assert HeadedBy(w, p[0], owner, items, p[|p| - 1]);
  }

  // ---------------------------------------------------------------- a walk that succeeds

  /** Where the walk succeeds it meets every chain, and each registers an alias of its own. */
  lemma {:induction false} WalkCounts(w: World, here: Site, stack: seq<Path>, before: Aliases)
    requires WalkInclude(w, here.inc, here.owner.path, stack, before).Ok?
    ensures ChainsApartAt(w, here)
    decreases Room(stack), 0
  {
    var o := TargetOf(w, here);
    var items := ItemsAt(w, o.path);
    WalkCountsItems(w, o, items, stack + [o.path], before);
    WalkBooksItems(w, o, items, stack + [o.path], before);
    var inner := WalkItems(w, items, o.path, stack + [o.path], before).value.aliases;
    var y := WalkInclude(w, here.inc, here.owner.path, stack, before).value;
    WalkFindsMeaning(w, here.inc, here.owner.path, stack, before);
    var own := AliasOf(here.inc, y.resolved);
    assert Bears(w, here, own) && own !in inner;
    OwnOrOneBelow(w, here, stack, before, inner, own);
  }

  lemma OwnOrOneBelow(w: World, here: Site, stack: seq<Path>, before: Aliases, inner: Aliases, own: Name)
    requires Resolves(w, here) && Bears(w, here, own) && own !in inner
    requires var o := TargetOf(w, here);
      WalkedAmong(w, o, ItemsAt(w, o.path), stack + [o.path], before, inner) && ChainsApart(w, o, ItemsAt(w, o.path))
    ensures ChainsApartAt(w, here)
  {
    forall p, q, a | ChainAt(w, p, here) && ChainAt(w, q, here) && BothBear(w, p, q, a) ensures p == q {
      OwnOrInner(w, here, p, own, inner, before, stack, a);
      OwnOrInner(w, here, q, own, inner, before, stack, a);
      if |p| > 1 && |q| > 1 {
        OneBelow(w, here, p, q, a);
      } else {
        assert p == [here] && q == [here];
      }
    }
  }

  lemma OneBelow(w: World, here: Site, p: seq<Site>, q: seq<Site>, a: Name)
    requires ChainAt(w, p, here) && ChainAt(w, q, here) && |p| > 1 && |q| > 1
    requires Bears(w, p[|p| - 1], a) && Bears(w, q[|q| - 1], a)
    requires Resolves(w, here) ==> ChainsApart(w, TargetOf(w, here), ItemsAt(w, TargetOf(w, here).path))
    ensures p == q
  {
    TailChain(w, p);
    TailChain(w, q);
    assert BothBear(w, p[1..], q[1..], a);
    assert p == [here] + p[1..] && q == [here] + q[1..];
  }

  lemma OwnOrInner(w: World, here: Site, p: seq<Site>, own: Name, inner: Aliases, before: Aliases, stack: seq<Path>, a: Name)
    requires ChainAt(w, p, here) && Bears(w, p[|p| - 1], a) && Bears(w, here, own) && Resolves(w, here) && own !in inner
    requires var o := TargetOf(w, here); WalkedAmong(w, o, ItemsAt(w, o.path), stack + [o.path], before, inner)
    ensures if |p| == 1 then a == own else a in inner
  {
    if |p| == 1 {
      BearsOne(w, here, a, own);
    } else {
      TailChain(w, p);
      EndIsAmong(w, p[1..], TargetOf(w, here), ItemsAt(w, TargetOf(w, here).path));
    }
  }

  lemma {:induction false} WalkCountsItems(w: World, owner: Owner, items: seq<Item>, stack: seq<Path>, before: Aliases)
    requires WalkItems(w, items, owner.path, stack, before).Ok?
    ensures ChainsApart(w, owner, items)
    decreases Room(stack), 1 + |items|
  {
    if items != [] {
      var front, last := items[..|items| - 1], items[|items| - 1];
      assert items == front + [last];
      WalkCountsItems(w, owner, front, stack, before);
      WalkBooksItems(w, owner, front, stack, before);
      var x := WalkItems(w, front, owner.path, stack, before).value;
      if last.IncludeItem? {
        var here := Site(owner, |front|, last.inc);
        WalkCounts(w, here, stack, x.aliases);
        WalkBooks(w, here, stack, x.aliases);
        var after := WalkInclude(w, last.inc, owner.path, stack, x.aliases).value.aliases;
        LastApart(w, front, here, stack, before, x.aliases, after);
      } else {
        forall p | ChainAmong(w, p, owner, items) ensures ChainAmong(w, p, owner, front) {
        }
      }
    }
  }

  lemma LastApart(w: World, front: seq<Item>, here: Site, stack: seq<Path>, before: Aliases, middle: Aliases, after: Aliases)
    requires here.index == |front| && ChainsApart(w, here.owner, front) && ChainsApartAt(w, here)
    requires WalkedAmong(w, here.owner, front, stack, before, middle) && WalkedAt(w, here, stack, middle, after)
    ensures ChainsApart(w, here.owner, front + [IncludeItem(here.inc)])
  {
    var items := front + [IncludeItem(here.inc)];
    forall p, q, a | ChainAmong(w, p, here.owner, items) && ChainAmong(w, q, here.owner, items) && BothBear(w, p, q, a)
      ensures p == q
    {
      FrontOrHere(w, front, here, stack, before, middle, after, p, a);
      FrontOrHere(w, front, here, stack, before, middle, after, q, a);
    }
  }

  lemma FrontOrHere(w: World, front: seq<Item>, here: Site, stack: seq<Path>, before: Aliases, middle: Aliases, after: Aliases,
                    p: seq<Site>, a: Name)
    requires here.index == |front|
    requires WalkedAmong(w, here.owner, front, stack, before, middle) && WalkedAt(w, here, stack, middle, after)
    requires ChainAmong(w, p, here.owner, front + [IncludeItem(here.inc)]) && Bears(w, p[|p| - 1], a)
    ensures if a in middle then ChainAmong(w, p, here.owner, front) else ChainAt(w, p, here)
  {
    if p[0].index < |front| {
      EndIsAmong(w, p, here.owner, front);
    } else {
      assert p[0] == here;
      EndIsUnder(w, p);
    }
  }

  // ---------------------------------------------------------------- when the walk succeeds

  ghost predicate BorneAt(w: World, here: Site, a: Name) {
    exists t :: Under(w, here, t) && Bears(w, t, a)
  }

  lemma {:induction false} WalkAdds(w: World, here: Site, stack: seq<Path>, before: Aliases)
    requires WalkInclude(w, here.inc, here.owner.path, stack, before).Ok?
    ensures forall a :: a in WalkInclude(w, here.inc, here.owner.path, stack, before).value.aliases ==>
      a in before || BorneAt(w, here, a)
    decreases Room(stack), 0
  {
    var o := TargetOf(w, here);
    var items := ItemsAt(w, o.path);
    WalkAddsItems(w, o, items, stack + [o.path], before);
    var inner := WalkItems(w, items, o.path, stack + [o.path], before).value.aliases;
    var y := WalkInclude(w, here.inc, here.owner.path, stack, before).value;
    WalkFindsMeaning(w, here.inc, here.owner.path, stack, before);
    var own := AliasOf(here.inc, y.resolved);
    UnderSelf(w, here);
    assert Bears(w, here, own);
    forall a | a in y.aliases ensures a in before || BorneAt(w, here, a) {
      assert a in inner || a == own;
      if a in inner && a !in before {
        var t :| Among(w, o, items, t) && Bears(w, t, a);
        UnderIffAmong(w, here, t);
      }
    }
  }

  lemma {:induction false} WalkAddsItems(w: World, owner: Owner, items: seq<Item>, stack: seq<Path>, before: Aliases)
    requires WalkItems(w, items, owner.path, stack, before).Ok?
    ensures forall a :: a in WalkItems(w, items, owner.path, stack, before).value.aliases ==>
      a in before || Borne(w, owner, items, a)
    decreases Room(stack), 1 + |items|
  {
    if items != [] {
      var front, last := items[..|items| - 1], items[|items| - 1];
      assert items == front + [last];
      WalkAddsItems(w, owner, front, stack, before);
      var x := WalkItems(w, front, owner.path, stack, before).value.aliases;
      forall a | Borne(w, owner, front, a) ensures Borne(w, owner, items, a) {
        var t :| Among(w, owner, front, t) && Bears(w, t, a);
        AmongMore(w, owner, front, items, t);
      }
      if last.IncludeItem? {
        var here := Site(owner, |front|, last.inc);
        WalkAdds(w, here, stack, x);
        forall a | BorneAt(w, here, a) ensures Borne(w, owner, items, a) {
          var t :| Under(w, here, t) && Bears(w, t, a);
          AmongLast(w, here, front, t);
        }
      }
    }
  }

  ghost predicate RoomAt(w: World, here: Site, stack: seq<Path>) {
    forall n: nat :: DeepAt(w, here, n) ==> |stack| + n <= MAX_INCLUDE_DEPTH
  }

  ghost predicate RoomAmong(w: World, owner: Owner, items: seq<Item>, stack: seq<Path>) {
    forall n: nat :: DeepAmong(w, owner, items, n) ==> |stack| + n <= MAX_INCLUDE_DEPTH
  }

  /** Where the file has a meaning, its chains end in aliases of their own, none of them taken, and the
      stack has room for all of them, the walk succeeds. */
  lemma {:induction false} WalkSucceeds(w: World, here: Site, r: Resolved, stack: seq<Path>, before: Aliases)
    requires IncludeMeans(w, here.inc, here.owner.path, r)
    requires Chain(w, stack) && StandsIn(w, here.inc, here.owner.path, stack)
    requires ChainsApartAt(w, here) && RoomAt(w, here, stack)
    requires forall a :: a in before ==> !BorneAt(w, here, a)
    ensures WalkInclude(w, here.inc, here.owner.path, stack, before).Ok?
    decreases Room(stack), 0
  {
    var inc, from, o := here.inc, here.owner.path, TargetOf(w, here);
    DeepSelf(w, here);
    MeaningNotOnStack(w, inc, from, r, stack);
    ChainGrows(w, inc, from, stack);
    var fuel: nat :| Denote(w, o.path, inc.params, fuel) == Some(r);
    var items := ItemsAt(w, o.path);
    BelowConditions(w, here, stack, before);
    assert items[..|items|] == items;
    WalkSucceedsItems(w, o, items, |items|, fuel - 1, stack + [o.path], before);
    OwnAliasFree(w, here, r, stack, before);
    WalkEnds(w, here, r, stack, before);
  }

  /** The file is read and the alias free: nothing is left to stop the walk. */
  lemma WalkEnds(w: World, here: Site, r: Resolved, stack: seq<Path>, before: Aliases)
    requires IncludeMeans(w, here.inc, here.owner.path, r)
    requires Chain(w, stack) && StandsIn(w, here.inc, here.owner.path, stack)
    requires |stack| < MAX_INCLUDE_DEPTH && TargetOf(w, here).path in w.files && TargetOf(w, here).path !in stack
    requires var o := TargetOf(w, here);
      var walk := WalkItems(w, ItemsAt(w, o.path), o.path, stack + [o.path], before);
      walk.Ok? && AliasOf(here.inc, r) !in walk.value.aliases
    ensures WalkInclude(w, here.inc, here.owner.path, stack, before).Ok?
  {
    var o := TargetOf(w, here);
    var x := WalkItems(w, ItemsAt(w, o.path), o.path, stack + [o.path], before).value;
    WalkFindsItems(w, ItemsAt(w, o.path), o.path, stack + [o.path], before);
    ItemsMakeMeaning(w, o.path, here.inc.params, x.entries, r);
  }

  lemma ItemsMakeMeaning(w: World, path: Path, params: Combo, es: seq<Entry>, r: Resolved)
    requires path in w.files && ItemsMean(w, ItemsAt(w, path), path, es) && Means(w, path, params, r)
    ensures FileMeaning(w.files[path], params, es) == Some(r)
  {
    var fuel: nat :| Denote(w, path, params, fuel) == Some(r);
    var ds := DenoteItems(w, ItemsAt(w, path), path, fuel - 1).value;
    assert ItemsMean(w, ItemsAt(w, path), path, ds);
    ItemsMeaningIsUnique(w, ItemsAt(w, path), path, es, ds);
  }

  lemma BelowConditions(w: World, here: Site, stack: seq<Path>, before: Aliases)
    requires Resolves(w, here) && ChainsApartAt(w, here) && RoomAt(w, here, stack)
    requires forall a :: a in before ==> !BorneAt(w, here, a)
    ensures var o := TargetOf(w, here);
      && ChainsApart(w, o, ItemsAt(w, o.path)) && RoomAmong(w, o, ItemsAt(w, o.path), stack + [o.path])
      && forall a :: a in before ==> !Borne(w, o, ItemsAt(w, o.path), a)
  {
    var o := TargetOf(w, here);
    var items := ItemsAt(w, o.path);
    forall p, q, a | ChainAmong(w, p, o, items) && ChainAmong(w, q, o, items) && BothBear(w, p, q, a) ensures p == q {
      LongerChain(w, here, p);
      LongerChain(w, here, q);
      assert BothBear(w, [here] + p, [here] + q, a);
      assert p == ([here] + p)[1..] && q == ([here] + q)[1..];
    }
    forall n: nat | DeepAmong(w, o, items, n) ensures |stack + [o.path]| + n <= MAX_INCLUDE_DEPTH {
      DeepVia(w, here, n);
    }
    forall a | a in before ensures !Borne(w, o, items, a) {
      if Borne(w, o, items, a) {
        var t :| Among(w, o, items, t) && Bears(w, t, a);
        UnderIffAmong(w, here, t);
        assert BorneAt(w, here, a);
      }
    }
  }

  /** The node's own alias is free once its file is read. */
  lemma OwnAliasFree(w: World, here: Site, r: Resolved, stack: seq<Path>, before: Aliases)
    requires IncludeMeans(w, here.inc, here.owner.path, r) && ChainsApartAt(w, here)
    requires forall a :: a in before ==> !BorneAt(w, here, a)
    requires var o := TargetOf(w, here); WalkItems(w, ItemsAt(w, o.path), o.path, stack + [o.path], before).Ok?
    ensures var o := TargetOf(w, here);
      AliasOf(here.inc, r) !in WalkItems(w, ItemsAt(w, o.path), o.path, stack + [o.path], before).value.aliases
  {
    var o, own := TargetOf(w, here), AliasOf(here.inc, r);
    UnderSelf(w, here);
    assert Bears(w, here, own);
    assert BorneAt(w, here, own);
    WalkAddsItems(w, o, ItemsAt(w, o.path), stack + [o.path], before);
    OwnNotBelow(w, here, own);
  }

  lemma OwnNotBelow(w: World, here: Site, own: Name)
    requires Resolves(w, here) && ChainsApartAt(w, here) && Bears(w, here, own)
    ensures !Borne(w, TargetOf(w, here), ItemsAt(w, TargetOf(w, here).path), own)
  {
    var o := TargetOf(w, here);
    var items := ItemsAt(w, o.path);
    if Borne(w, o, items, own) {
      var t :| Among(w, o, items, t) && Bears(w, t, own);
      var s :| HeadedBy(w, s, o, items, t);
      var p: seq<Site> :| Connects(w, p, s, t);
      LongerChain(w, here, p);
      OwnMeetsChain(w, here, [here] + p, own);
    }
  }

  lemma OwnMeetsChain(w: World, here: Site, q: seq<Site>, own: Name)
    requires ChainsApartAt(w, here) && ChainAt(w, q, here) && Bears(w, here, own) && Bears(w, q[|q| - 1], own)
    ensures |q| == 1
  {
    var p := [here];
    assert ChainAt(w, p, here) && BothBear(w, p, q, own);
  }

  lemma {:induction false} WalkSucceedsItems(w: World, owner: Owner, items: seq<Item>, n: nat, fuel: nat, stack: seq<Path>,
                                             before: Aliases)
    requires n <= |items| && DenoteItems(w, items[..n], owner.path, fuel).Some? && Chain(w, stack)
    requires stack != [] ==> stack[|stack| - 1] == owner.path && items == ItemsAt(w, owner.path) && owner.path in w.files
    requires ChainsApart(w, owner, items) && RoomAmong(w, owner, items, stack)
    requires forall a :: a in before ==> !Borne(w, owner, items, a)
    ensures WalkItems(w, items[..n], owner.path, stack, before).Ok?
    decreases Room(stack), 1 + n
  {
    if n > 0 {
      var front, last := items[..n - 1], items[n - 1];
      assert items[..n][..n - 1] == front;
      WalkSucceedsItems(w, owner, items, n - 1, fuel, stack, before);
      if last.IncludeItem? {
        var here := Site(owner, n - 1, last.inc);
        var x := WalkItems(w, front, owner.path, stack, before).value.aliases;
        var r := Denote(w, w.resolver[(last.inc.source, owner.path)], last.inc.params, fuel).value;
        assert IncludeMeans(w, last.inc, owner.path, r);
        WalkAddsItems(w, owner, front, stack, before);
        NextConditions(w, owner, items, n - 1, here, stack, before, x);
        WalkSucceeds(w, here, r, stack, x);
      }
    }
  }

  lemma NextConditions(w: World, owner: Owner, items: seq<Item>, n: nat, here: Site, stack: seq<Path>, before: Aliases, x: Aliases)
    requires n < |items| && here == Site(owner, n, here.inc) && IsChild(items, here)
    requires ChainsApart(w, owner, items) && RoomAmong(w, owner, items, stack)
    requires forall a :: a in before ==> !Borne(w, owner, items, a)
    requires forall a :: a in x ==> a in before || Borne(w, owner, items[..n], a)
    ensures ChainsApartAt(w, here) && RoomAt(w, here, stack)
    ensures forall a :: a in x ==> !BorneAt(w, here, a)
  {
    forall p | ChainAt(w, p, here) ensures ChainAmong(w, p, owner, items) {
    }
    forall k: nat | DeepAt(w, here, k) ensures |stack| + k <= MAX_INCLUDE_DEPTH {
      assert DeepHead(w, here, owner, items, k);
      assert DeepAmong(w, owner, items, k);
    }
    forall a | a in x && BorneAt(w, here, a) ensures false {
      BorneAtIsBorne(w, owner, items, here, a);
      BorneTwice(w, owner, items, n, here, a);
    }
  }

  lemma BorneByChain(w: World, owner: Owner, items: seq<Item>, a: Name) returns (p: seq<Site>)
    requires Borne(w, owner, items, a)
    ensures ChainAmong(w, p, owner, items) && Bears(w, p[|p| - 1], a)
  {
    var s :| Among(w, owner, items, s) && Bears(w, s, a);
    var m :| HeadedBy(w, m, owner, items, s);
    p :| Connects(w, p, m, s);
  }

  lemma BorneAtByChain(w: World, here: Site, a: Name) returns (q: seq<Site>)
    requires BorneAt(w, here, a)
    ensures ChainAt(w, q, here) && Bears(w, q[|q| - 1], a)
  {
    var t :| Under(w, here, t) && Bears(w, t, a);
    q :| Connects(w, q, here, t);
  }

  lemma BorneAtIsBorne(w: World, owner: Owner, items: seq<Item>, here: Site, a: Name)
    requires here.owner == owner && IsChild(items, here) && BorneAt(w, here, a)
    ensures Borne(w, owner, items, a)
  {
    var t :| Under(w, here, t) && Bears(w, t, a);
    assert HeadedBy(w, here, owner, items, t);
    assert Among(w, owner, items, t);
  }

  /** An alias cannot be borne below the first children and below the next. */
  lemma BorneTwice(w: World, owner: Owner, items: seq<Item>, n: nat, here: Site, a: Name)
    requires n < |items| && here == Site(owner, n, here.inc) && IsChild(items, here)
    requires BorneAt(w, here, a) && Borne(w, owner, items[..n], a)
    ensures !ChainsApart(w, owner, items)
  {
    var p := BorneByChain(w, owner, items[..n], a);
    var q := BorneAtByChain(w, here, a);
    ChainsMeet(w, owner, items, p, q, a);
  }

  lemma ChainsMeet(w: World, owner: Owner, items: seq<Item>, p: seq<Site>, q: seq<Site>, a: Name)
    requires ChainAmong(w, p, owner, items) && ChainAmong(w, q, owner, items) && p[0].index < q[0].index
    requires Bears(w, p[|p| - 1], a) && Bears(w, q[|q| - 1], a)
    ensures !ChainsApart(w, owner, items)
  {
    assert BothBear(w, p, q, a);
  }

  // ---------------------------------------------------------------- exactly

  /** Resolving the root file without the cache succeeds if and only if its items have a meaning, no two
      chains of include nodes end in nodes of one alias, and no chain is longer than the stack. */
  lemma WalkSucceedsExactly(w: World, items: seq<Item>, root: Path)
    ensures WalkItems(w, items, root, [], map[]).Ok? <==>
      && (exists es :: ItemsMean(w, items, root, es))
      && ChainsApart(w, RootFile(root), items)
      && !DeepAmong(w, RootFile(root), items, 65)
  {
    var o := RootFile(root);
    if WalkItems(w, items, root, [], map[]).Ok? {
      WalkFindsItems(w, items, root, [], map[]);
      WalkBooksItems(w, o, items, [], map[]);
      WalkCountsItems(w, o, items, [], map[]);
    }
    if (exists es :: ItemsMean(w, items, root, es)) && ChainsApart(w, o, items) && !DeepAmong(w, o, items, MAX_INCLUDE_DEPTH + 1) {
      var es :| ItemsMean(w, items, root, es);
      var fuel: nat :| DenoteItems(w, items, root, fuel) == Some(es);
      forall n: nat | DeepAmong(w, o, items, n) ensures n <= MAX_INCLUDE_DEPTH {
        if n > MAX_INCLUDE_DEPTH {
          Shorter(w, o, items, n, MAX_INCLUDE_DEPTH + 1);
          assert false;
        }
      }
      assert items[..|items|] == items;
      WalkSucceedsItems(w, o, items, |items|, fuel, [], map[]);
    }
  }

  lemma Shorter(w: World, owner: Owner, items: seq<Item>, n: nat, m: nat)
    requires 0 < m <= n && DeepAmong(w, owner, items, n)
    ensures DeepAmong(w, owner, items, m)
  {
    var s :| DeepHead(w, s, owner, items, n);
    var p: seq<Site> :| ChainFrom(w, p, s, n);
    assert ChainFrom(w, p[..m], s, m);
    assert DeepHead(w, s, owner, items, m);
  }

  /** Where chains are apart so are nodes: what resolves without the cache resolves with it. */
  lemma ChainsApartNodesApart(w: World, owner: Owner, items: seq<Item>)
    requires ChainsApart(w, owner, items)
    ensures AliasesApart(w, owner, items)
  {
    forall s, t, a | Among(w, owner, items, s) && Among(w, owner, items, t) ensures !Rivals(w, s, t, a) {
      if Rivals(w, s, t, a) {
        var x :| HeadedBy(w, x, owner, items, s);
        var y :| HeadedBy(w, y, owner, items, t);
        var p: seq<Site> :| Connects(w, p, x, s);
        var q: seq<Site> :| Connects(w, q, y, t);
        assert BothBear(w, p, q, a);
        assert ChainAmong(w, p, owner, items) && ChainAmong(w, q, owner, items);
        assert false;
      }
    }
  }
}
