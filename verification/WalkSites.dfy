/** Resolution without the cache, node by node. */
module WalkSites {
  import opened PipelineModel
  import opened Merge
  import opened IncludeMeaning
  import opened IncludeWalk
  import opened IncludeSites

  /** Under a node that the walk resolves, every alias is new and kept, no two nodes share one, and no
      chain of nodes is too long for the stack. */
  ghost predicate WalkedAt(w: World, here: Site, stack: seq<Path>, before: Aliases, after: Aliases) {
    && before.Keys <= after.Keys
    && (forall t, a :: Under(w, here, t) && Bears(w, t, a) ==> a in after && a !in before)
    && (forall s, t, a :: Under(w, here, s) && Under(w, here, t) ==> !Rivals(w, s, t, a))
    && (forall n: nat :: DeepAt(w, here, n) ==> |stack| + n <= MAX_INCLUDE_DEPTH)
  }

  ghost predicate WalkedAmong(w: World, owner: Owner, items: seq<Item>, stack: seq<Path>, before: Aliases, after: Aliases) {
    && before.Keys <= after.Keys
    && (forall t, a :: Among(w, owner, items, t) && Bears(w, t, a) ==> a in after && a !in before)
    && AliasesApart(w, owner, items)
    && (forall n: nat :: DeepAmong(w, owner, items, n) ==> |stack| + n <= MAX_INCLUDE_DEPTH)
  }

  lemma {:induction false} WalkBooks(w: World, here: Site, stack: seq<Path>, before: Aliases)
    requires WalkInclude(w, here.inc, here.owner.path, stack, before).Ok?
    ensures WalkedAt(w, here, stack, before, WalkInclude(w, here.inc, here.owner.path, stack, before).value.aliases)
    decreases Room(stack), 0
  {
    var o := TargetOf(w, here);
    var items := ItemsAt(w, o.path);
    WalkBooksItems(w, o, items, stack + [o.path], before);
    var inner := WalkItems(w, items, o.path, stack + [o.path], before).value.aliases;
    var y := WalkInclude(w, here.inc, here.owner.path, stack, before).value;
    WalkFindsMeaning(w, here.inc, here.owner.path, stack, before);
    NodeWalked(w, here, stack, before, inner, AliasOf(here.inc, y.resolved));
  }

  lemma NodeWalked(w: World, here: Site, stack: seq<Path>, before: Aliases, inner: Aliases, own: Name)
    requires Resolves(w, here) && |stack| < MAX_INCLUDE_DEPTH
    requires var o := TargetOf(w, here); WalkedAmong(w, o, ItemsAt(w, o.path), stack + [o.path], before, inner)
    requires Bears(w, here, own) && own !in inner
    ensures forall after: Aliases | after.Keys == inner.Keys + {own} :: WalkedAt(w, here, stack, before, after)
  {
    forall t, a | Under(w, here, t) && Bears(w, t, a)
      ensures (t == here ==> a == own) && (t != here ==> a in inner && a !in before)
    {
      UnderIffAmong(w, here, t);
      if t == here {
        BearsOne(w, here, a, own);
      }
    }
    forall s, t, a | Under(w, here, s) && Under(w, here, t) ensures !Rivals(w, s, t, a) {
      UnderIffAmong(w, here, s);
      UnderIffAmong(w, here, t);
    }
    forall n: nat | DeepAt(w, here, n) ensures |stack| + n <= MAX_INCLUDE_DEPTH {
      if n > 1 {
        DeepBelow(w, here, n);
      }
    }
  }

  lemma {:induction false} WalkBooksItems(w: World, owner: Owner, items: seq<Item>, stack: seq<Path>, before: Aliases)
    requires WalkItems(w, items, owner.path, stack, before).Ok?
    ensures WalkedAmong(w, owner, items, stack, before, WalkItems(w, items, owner.path, stack, before).value.aliases)
    decreases Room(stack), 1 + |items|
  {
    if items != [] {
      var front, last := items[..|items| - 1], items[|items| - 1];
      assert items == front + [last];
      WalkBooksItems(w, owner, front, stack, before);
      var x := WalkItems(w, front, owner.path, stack, before).value;
      if last.IncludeItem? {
        var here := Site(owner, |front|, last.inc);
        WalkBooks(w, here, stack, x.aliases);
        LastWalked(w, owner, front, here, stack, before, x.aliases,
          WalkInclude(w, last.inc, owner.path, stack, x.aliases).value.aliases);
      } else {
        OtherWalked(w, owner, front, last, stack, before, x.aliases);
      }
    }
  }

  /** A node among the children up to here is among those in front, or under here. */
  lemma AmongCases(w: World, here: Site, front: seq<Item>, t: Site)
    requires here.index == |front| && Among(w, here.owner, front + [IncludeItem(here.inc)], t)
    ensures Among(w, here.owner, front, t) || Under(w, here, t)
  {
    var s :| HeadedBy(w, s, here.owner, front + [IncludeItem(here.inc)], t);
    if s.index < |front| {
      assert HeadedBy(w, s, here.owner, front, t);
    } else {
      assert s == here;
    }
  }

  lemma DeepCases(w: World, here: Site, front: seq<Item>, n: nat)
    requires here.index == |front| && DeepAmong(w, here.owner, front + [IncludeItem(here.inc)], n)
    ensures DeepAmong(w, here.owner, front, n) || DeepAt(w, here, n)
  {
    var s :| DeepHead(w, s, here.owner, front + [IncludeItem(here.inc)], n);
    if s.index < |front| {
      assert DeepHead(w, s, here.owner, front, n);
    } else {
      assert s == here;
    }
  }

  lemma LastWalked(w: World, owner: Owner, front: seq<Item>, here: Site, stack: seq<Path>,
                   before: Aliases, middle: Aliases, after: Aliases)
    requires here.owner == owner && here.index == |front|
    requires WalkedAmong(w, owner, front, stack, before, middle) && WalkedAt(w, here, stack, middle, after)
    ensures WalkedAmong(w, owner, front + [IncludeItem(here.inc)], stack, before, after)
  {
    var items := front + [IncludeItem(here.inc)];
    forall t, a | Among(w, owner, items, t) && Bears(w, t, a) ensures a in after && a !in before {
      AmongCases(w, here, front, t);
    }
    forall s, t, a | Among(w, owner, items, s) && Among(w, owner, items, t) ensures !Rivals(w, s, t, a) {
      AmongCases(w, here, front, s);
      AmongCases(w, here, front, t);
    }
    forall n: nat | DeepAmong(w, owner, items, n) ensures |stack| + n <= MAX_INCLUDE_DEPTH {
      DeepCases(w, here, front, n);
    }
  }

  lemma OtherWalked(w: World, owner: Owner, front: seq<Item>, it: Item, stack: seq<Path>, before: Aliases, after: Aliases)
    requires WalkedAmong(w, owner, front, stack, before, after) && !it.IncludeItem?
    ensures WalkedAmong(w, owner, front + [it], stack, before, after)
  {
    var items := front + [it];
    forall t | Among(w, owner, items, t) ensures Among(w, owner, front, t) {
      var s :| HeadedBy(w, s, owner, items, t);
      assert HeadedBy(w, s, owner, front, t);
    }
    forall n: nat | DeepAmong(w, owner, items, n) ensures DeepAmong(w, owner, front, n) {
      var s :| DeepHead(w, s, owner, items, n);
      assert DeepHead(w, s, owner, front, n);
    }
  }

  // ---------------------------------------------------------------- against the resolver with the cache

  /** What stops the resolver stops the walk, from the same stack and at least the same aliases. */
  lemma WalkIsNotStopped(w: World, here: Site, stack: seq<Path>, plain: Aliases, b: Ledger, e: IncludeError)
    requires BookOk(w, b) && b.aliases.Keys <= plain.Keys && StopsAt(w, b, stack, here, e)
    requires Capped(e) || NoTarget(w, here.inc, here.owner.path)
    ensures WalkInclude(w, here.inc, here.owner.path, stack, plain).Err?
  {
    if WalkInclude(w, here.inc, here.owner.path, stack, plain).Ok? {
      WalkFindsMeaning(w, here.inc, here.owner.path, stack, plain);
      WalkBooks(w, here, stack, plain);
      if e.DuplicateAlias? {
        var s, t :| Rivals(w, s, t, e.alias) && Under(w, here, t) && (Under(w, here, s) || s in b.sites.Values);
        if !Under(w, here, s) {
          var a :| a in b.sites && b.sites[a] == s;
          BearsOne(w, s, a, e.alias);
        }
      }
    }
  }

  lemma WalkHasAliases(w: World, here: Site, stack: seq<Path>, plain: Aliases, b0: Ledger, b: Ledger)
    requires BookOk(w, b0) && BookOk(w, b) && b0.aliases.Keys <= plain.Keys && GrownAt(w, b0, b, stack, here)
    ensures match WalkInclude(w, here.inc, here.owner.path, stack, plain)
      case Ok(x) => b.aliases.Keys <= x.aliases.Keys
      case Err(_) => true
  {
    if WalkInclude(w, here.inc, here.owner.path, stack, plain).Ok? {
      WalkBooks(w, here, stack, plain);
      UnderSelf(w, here);
      assert forall a :: a in b.sites ==> Bears(w, b.sites[a], a);
    }
  }
}
