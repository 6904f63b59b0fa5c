/** What matrix expansion does to the job graph: the laws. */
module ExpansionGraph {
  // What expansion does to the job graph: variant j[p,q] depends on k[p',q'] exactly when j depended
  // on k and the pipeline-level combos p and p' are the same.

  import opened Prelude
  import opened Graphs
  import opened PipelineModel
  import opened Names
  import opened Matrix
  import opened Expand
  import opened Params

  /** The values a level of expansion contributes; None when that level has no matrix. */
  type Choice = Option<Combo>

  function Values(c: Choice): Combo {
    if c.None? then map[] else c.value
  }

  predicate Chooses(m: Option<seq<Dimension>>, c: Choice) {
    match m case None => c.None? case Some(dims) => c.Some? && c.value in Product(dims)
  }

  /** The job after phase 1, and after phase 2 but before references are rewritten. */
  function Staged(j: Job, p: Choice): Job {
    if p.None? then j else Replica(j, p.value)
  }

  /** The matrix the job is left with after phase 1. */
  function StagedMatrix(j: Job, p: Choice): Option<seq<Dimension>> {
    if p.None? then j.matrix else SubstMatrix(j.matrix, p.value, MATRIX)
  }

  lemma StagedMatrixIs(j: Job, p: Choice)
    ensures Staged(j, p).matrix == StagedMatrix(j, p)
  {
  }

  function Fanned(j: Job, q: Choice): Job {
    if q.None? then j else Variant(j, q.value)
  }

  predicate TidyValues(dims: seq<Dimension>) {
    forall i :: 0 <= i < |dims| ==> TidyDim(dims[i])
  }

  predicate TidyDim(d: Dimension) {
    (forall v :: v in d.values ==> ',' !in v) && (forall i, k :: 0 <= i < k < |d.values| ==> d.values[i] != d.values[k])
  }

  ghost predicate GoodMatrix(m: Option<seq<Dimension>>) {
    m.Some? ==> ValidMatrix(m.value) && TidyValues(m.value)
  }

  /** Pipelines that expansion accepts, with distinct bracket-free job names, known dependencies, and
      distinct comma-free values in every dimension. */
  ghost predicate Expandable(jobs: seq<Job>, matrix: Option<seq<Dimension>>) {
    && UniqueNames(jobs) && DepsKnown(jobs)
    && (forall j :: j in jobs ==> '[' !in j.name)
    && GoodMatrix(matrix) && (matrix.Some? ==> !SharesDim(matrix.value, jobs))
    && (forall j, p :: j in jobs && Chooses(matrix, p) ==> GoodMatrix(StagedMatrix(j, p)))
  }

  // ---------------------------------------------------------------- names of variants

  lemma ChoiceIsPlain(m: Option<seq<Dimension>>, c: Choice)
    requires GoodMatrix(m) && Chooses(m, c)
    ensures PlainKeys(Values(c)) && CommaFree(Values(c))
    ensures m.Some? ==> forall k :: k in Values(c) <==> HasDim(m.value, k)
  {
    if m.Some? {
      var dims := m.value;
      ProductIsAllChoices(dims, c.value);
      forall k | k in c.value ensures '=' !in k && ',' !in k && ',' !in c.value[k] {
        var d :| d in dims && d.name == k;
        var i :| 0 <= i < |dims| && dims[i] == d;
        assert ValidDim(d) && TidyDim(dims[i]);
      }
    }
  }

  /** The keys of a choice may stand in placeholders. */
  lemma ChoiceKeysArePlain(m: Option<seq<Dimension>>, c: Choice)
    requires GoodMatrix(m) && Chooses(m, c)
    ensures forall k :: k in Values(c) ==> '}' !in k && '$' !in k
  {
    if m.Some? {
      ProductIsPlain(m.value, c.value);
    }
  }

  function FullName(n: Name, p: Choice, q: Choice): Name {
    if p.None? && q.None? then n else Print(n, Values(p) + Values(q))
  }

  function Suffixed(n: Name, c: Choice): Name {
    if c.None? then n else ExpandedName(n, c.value)
  }

  lemma SuffixTwice(n: Name, p: Choice, q: Choice)
    requires '[' !in n && PlainKeys(Values(p)) && CommaFree(Values(p))
    ensures Suffixed(Suffixed(n, p), q) == FullName(n, p, q)
  {
    var none: Combo := map[];
    assert Parse(n) == (n, none);
    assert none + Values(p) == Values(p) && Values(p) + none == Values(p);
    assert none + Values(q) == Values(q) && none + (Values(p) + Values(q)) == Values(p) + Values(q);
    if p.Some? {
      ExpansionComposes(n, p.value, Values(q));
    }
  }

  lemma NameOfVariant(j: Job, p: Choice, q: Choice)
    requires '[' !in j.name && PlainKeys(Values(p)) && CommaFree(Values(p))
    ensures Fanned(Staged(j, p), q).name == FullName(j.name, p, q)
    ensures Staged(j, p).name == FullName(j.name, p, None)
  {
    SuffixTwice(j.name, p, q);
    SuffixTwice(j.name, p, None);
  }

  /** Both levels' choices of one job, as they occur in an expandable pipeline. */
  ghost predicate IsTag(jobs: seq<Job>, matrix: Option<seq<Dimension>>, j: Job, p: Choice, q: Choice) {
    j in jobs && Chooses(matrix, p) && Chooses(StagedMatrix(j, p), q)
  }

  lemma TagFacts(jobs: seq<Job>, matrix: Option<seq<Dimension>>, j: Job, p: Choice, q: Choice)
    requires Expandable(jobs, matrix) && IsTag(jobs, matrix, j, p, q)
    ensures PlainKeys(Values(p) + Values(q)) && CommaFree(Values(p) + Values(q))
    ensures PlainKeys(Values(p)) && CommaFree(Values(p))
    ensures Values(p).Keys !! Values(q).Keys
    ensures q.Some? ==> Values(q) != map[]
  {
    ChoiceIsPlain(matrix, p);
    ChoiceIsPlain(StagedMatrix(j, p), q);
    if p.Some? && q.Some? {
      forall k | k in Values(q) ensures k !in Values(p) {
        StagedDims(jobs, matrix, j, p, k);
      }
    }
    if q.Some? {
      var dims := StagedMatrix(j, p).value;
      assert dims[0] in dims && HasDim(dims, dims[0].name);
      assert dims[0].name in Values(q);
    }
  }

  /** A dimension of a staged job is not one of the pipeline's. */
  lemma StagedDims(jobs: seq<Job>, matrix: Option<seq<Dimension>>, j: Job, p: Choice, k: string)
    requires j in jobs && matrix.Some? && !SharesDim(matrix.value, jobs)
    requires StagedMatrix(j, p).Some? && HasDim(StagedMatrix(j, p).value, k)
    ensures !HasDim(matrix.value, k)
  {
    var dims := StagedMatrix(j, p).value;
    var d :| d in dims && d.name == k;
    var i :| 0 <= i < |dims| && dims[i] == d;
    var n :| 0 <= n < |jobs| && jobs[n] == j;
    assert jobs[n].matrix.Some? && jobs[n].matrix.value[i].name == k;
  }

  lemma BracketInPrint(n: Name, m: Combo)
    ensures '[' in Print(n, m)
  {
    assert Print(n, m)[|n|] == '[';
  }

  lemma SplitSum(a: Combo, b: Combo, c: Combo, d: Combo)
    requires a + b == c + d && a.Keys == c.Keys && a.Keys !! b.Keys && c.Keys !! d.Keys
    ensures a == c && b == d
  {
    forall k | k in a ensures a[k] == c[k] {
      assert (a + b)[k] == a[k] && (c + d)[k] == c[k];
    }
    assert b.Keys == (a + b).Keys - a.Keys && d.Keys == (c + d).Keys - c.Keys;
    forall k | k in b ensures b[k] == d[k] {
      assert (a + b)[k] == b[k] && (c + d)[k] == d[k];
    }
  }

  /** Variants with the same name are the same variant of the same job. */
  lemma FullNameInjective(jobs: seq<Job>, matrix: Option<seq<Dimension>>, j: Job, p: Choice, q: Choice, k: Job, p': Choice, q': Choice)
    requires Expandable(jobs, matrix) && IsTag(jobs, matrix, j, p, q) && IsTag(jobs, matrix, k, p', q')
    requires FullName(j.name, p, q) == FullName(k.name, p', q')
    ensures j == k && p == p' && q == q'
  {
    TagFacts(jobs, matrix, j, p, q);
    TagFacts(jobs, matrix, k, p', q');
    BracketInPrint(j.name, Values(p) + Values(q));
    BracketInPrint(k.name, Values(p') + Values(q'));
    if !(p.None? && q.None?) {
      PrintIsInjective(j.name, Values(p) + Values(q), k.name, Values(p') + Values(q'));
    }
    assert j == k by {
      assert j.name == k.name;
    }
    SameKeys(matrix, p, p');
    if !(p.None? && q.None?) {
      SplitSum(Values(p), Values(q), Values(p'), Values(q'));
    }
  }

  lemma SameKeys(matrix: Option<seq<Dimension>>, p: Choice, p': Choice)
    requires GoodMatrix(matrix) && Chooses(matrix, p) && Chooses(matrix, p')
    ensures Values(p).Keys == Values(p').Keys
  {
    ChoiceIsPlain(matrix, p);
    ChoiceIsPlain(matrix, p');
  }

  // ---------------------------------------------------------------- which jobs there are

  lemma ReplicaOrigin(jobs: seq<Job>, c: Combo, x: Job) returns (j: Job)
    requires x in Replicas(jobs, c)
    ensures j in jobs && x == Replica(j, c)
  {
    var i :| 0 <= i < |jobs| && Replicas(jobs, c)[i] == x;
    j := jobs[i];
  }

  lemma ReplicaHolds(jobs: seq<Job>, c: Combo, j: Job)
    requires j in jobs
    ensures Replica(j, c) in Replicas(jobs, c)
  {
    var i :| 0 <= i < |jobs| && jobs[i] == j;
    assert Replicas(jobs, c)[i] == Replica(j, c);
  }

  lemma Phase1Step(jobs: seq<Job>, front: seq<Combo>, last: Combo)
    ensures Phase1(jobs, front + [last]) == Phase1(jobs, front) + Replicas(jobs, last)
  {
    assert (front + [last])[..|front|] == front;
  }

  /** Phase 1 yields replicas of the jobs for the combos, and ... */
  lemma {:induction false} Phase1Origin(jobs: seq<Job>, combos: seq<Combo>, x: Job) returns (j: Job, c: Combo)
    requires x in Phase1(jobs, combos)
    ensures j in jobs && c in combos && x == Replica(j, c)
    decreases |combos|
  {
    var front, last := combos[..|combos| - 1], combos[|combos| - 1];
    assert combos == front + [last];
    Phase1Step(jobs, front, last);
    if x in Phase1(jobs, front) {
      j, c := Phase1Origin(jobs, front, x);
    } else {
      j := ReplicaOrigin(jobs, last, x);
      c := last;
    }
  }

  /** ... one for every job and combo. */
  lemma {:induction false} Phase1Holds(jobs: seq<Job>, combos: seq<Combo>, j: Job, c: Combo)
    requires j in jobs && c in combos
    ensures Replica(j, c) in Phase1(jobs, combos)
    decreases |combos|
  {
    var front, last := combos[..|combos| - 1], combos[|combos| - 1];
    assert combos == front + [last];
    Phase1Step(jobs, front, last);
    if c in front {
      Phase1Holds(jobs, front, j, c);
    } else {
      ReplicaHolds(jobs, last, j);
    }
  }

  lemma Stage1Members(jobs: seq<Job>, matrix: Option<seq<Dimension>>, x: Job)
    ensures x in Stage1(jobs, matrix) <==> exists j, p :: j in jobs && Chooses(matrix, p) && x == Staged(j, p)
  {
    if matrix.Some? {
      if x in Stage1(jobs, matrix) {
        var j, c := Phase1Origin(jobs, Product(matrix.value), x);
        assert Chooses(matrix, Some(c)) && x == Staged(j, Some(c));
      }
      if j, p :| j in jobs && Chooses(matrix, p) && x == Staged(j, p) {
        Phase1Holds(jobs, Product(matrix.value), j, p.value);
      }
    } else {
      assert Chooses(matrix, None) && x == Staged(x, None);
    }
  }

  lemma VariantsForMembers(j: Job, combos: seq<Combo>, x: Job)
    ensures x in VariantsFor(j, combos) <==> exists c :: c in combos && x == Variant(j, c)
  {
    var r := VariantsFor(j, combos);
    if x in r {
      var i :| 0 <= i < |r| && r[i] == x;
      assert combos[i] in combos;
    }
    if c :| c in combos && x == Variant(j, c) {
      var i :| 0 <= i < |combos| && combos[i] == c;
      assert r[i] == x;
    }
  }

  lemma VariantMembers(j: Job, x: Job)
    ensures x in Variants(j) <==> exists q :: Chooses(j.matrix, q) && x == Fanned(j, q)
  {
    if j.matrix.None? {
      assert Chooses(j.matrix, None) && Fanned(j, None) == j;
    } else {
      var combos := Product(j.matrix.value);
      VariantsForMembers(j, combos, x);
      if c :| c in combos && x == Variant(j, c) {
        assert Chooses(j.matrix, Some(c)) && x == Fanned(j, Some(c));
      }
      if q :| Chooses(j.matrix, q) && x == Fanned(j, q) {
        assert q.value in combos && x == Variant(j, q.value);
      }
    }
  }

  lemma AllVariantsMembers(jobs: seq<Job>, x: Job)
    ensures x in AllVariants(jobs) <==> exists i :: 0 <= i < |jobs| && x in Variants(jobs[i])
  {
    FlatMapMembers(jobs, Variants, x);
  }

  ghost predicate FromTag(jobs: seq<Job>, matrix: Option<seq<Dimension>>, v: Job) {
    exists j, p, q :: IsTag(jobs, matrix, j, p, q) && v == Fanned(Staged(j, p), q)
  }

  lemma VariantHasTag(jobs: seq<Job>, matrix: Option<seq<Dimension>>, v: Job)
    requires v in AllVariants(Stage1(jobs, matrix))
    ensures FromTag(jobs, matrix, v)
  {
    var first := Stage1(jobs, matrix);
    AllVariantsMembers(first, v);
    var n :| 0 <= n < |first| && v in Variants(first[n]);
    var s := first[n];
    Stage1Members(jobs, matrix, s);
    var j, p :| j in jobs && Chooses(matrix, p) && s == Staged(j, p);
    VariantMembers(s, v);
    var q :| Chooses(s.matrix, q) && v == Fanned(s, q);
    assert IsTag(jobs, matrix, j, p, q);
  }

  lemma TagHasVariant(jobs: seq<Job>, matrix: Option<seq<Dimension>>, j: Job, p: Choice, q: Choice)
    requires IsTag(jobs, matrix, j, p, q)
    ensures Fanned(Staged(j, p), q) in AllVariants(Stage1(jobs, matrix))
  {
    var first, v := Stage1(jobs, matrix), Fanned(Staged(j, p), q);
    Stage1Members(jobs, matrix, Staged(j, p));
    VariantMembers(Staged(j, p), v);
    var n :| 0 <= n < |first| && first[n] == Staged(j, p);
    AllVariantsMembers(first, v);
  }

  lemma Phase2Members(first: seq<Job>, x: Job)
    ensures x in Phase2(first) <==> exists v :: v in AllVariants(first) && x == Rewrite(v, ExpansionMap(first))
  {
    var all, done := AllVariants(first), Phase2(first);
    assert |done| == |all| && forall i :: 0 <= i < |all| ==> done[i] == Rewrite(all[i], ExpansionMap(first));
    if v :| v in all && x == Rewrite(v, ExpansionMap(first)) {
      var i :| 0 <= i < |all| && all[i] == v;
      assert done[i] == x;
    }
  }

  /** The jobs after both phases: one per job and pair of choices, with rewritten references. */
  lemma ExpandedMembers(jobs: seq<Job>, matrix: Option<seq<Dimension>>, x: Job)
    ensures var m := ExpansionMap(Stage1(jobs, matrix));
      x in Phase2(Stage1(jobs, matrix)) <==>
      exists j, p, q :: IsTag(jobs, matrix, j, p, q) && x == Rewrite(Fanned(Staged(j, p), q), m)
  {
    var first := Stage1(jobs, matrix);
    var m := ExpansionMap(first);
    Phase2Members(first, x);
    if x in Phase2(first) {
      var v :| v in AllVariants(first) && x == Rewrite(v, m);
      VariantHasTag(jobs, matrix, v);
    }
    if j, p, q :| IsTag(jobs, matrix, j, p, q) && x == Rewrite(Fanned(Staged(j, p), q), m) {
      TagHasVariant(jobs, matrix, j, p, q);
    }
  }

  // ---------------------------------------------------------------- the names are distinct

  lemma AppendUniqueNames(a: seq<Job>, b: seq<Job>)
    requires UniqueNames(a) && UniqueNames(b)
    requires forall x, y :: x in a && y in b ==> x.name != y.name
    ensures UniqueNames(a + b)
  {
    forall i, k | 0 <= i < k < |a + b| ensures (a + b)[i].name != (a + b)[k].name {
      if i < |a| && |a| <= k {
        assert a[i] in a && b[k - |a|] in b;
      }
    }
  }

  lemma {:induction false} FlatMapUniqueNames(jobs: seq<Job>, f: Job -> seq<Job>)
    requires forall i :: 0 <= i < |jobs| ==> UniqueNames(f(jobs[i]))
    requires forall i, k, x, y :: 0 <= i < k < |jobs| && x in f(jobs[i]) && y in f(jobs[k]) ==> x.name != y.name
    ensures UniqueNames(FlatMap(jobs, f))
  {
    if jobs != [] {
      var front, last := jobs[..|jobs| - 1], jobs[|jobs| - 1];
      FlatMapUniqueNames(front, f);
      forall x, y | x in FlatMap(front, f) && y in f(last) ensures x.name != y.name {
        FlatMapMembers(front, f, x);
        var i :| 0 <= i < |front| && x in f(front[i]);
        assert front[i] == jobs[i];
      }
      AppendUniqueNames(FlatMap(front, f), f(last));
    }
  }

  /** A replica's name and a replica's name of another combo never meet. */
  lemma ReplicaNamesDiffer(jobs: seq<Job>, matrix: Option<seq<Dimension>>, j: Job, c: Combo, k: Job, d: Combo)
    requires Expandable(jobs, matrix) && matrix.Some? && j in jobs && k in jobs
    requires c in Product(matrix.value) && d in Product(matrix.value)
    requires Replica(j, c).name == Replica(k, d).name
    ensures j.name == k.name && c == d
  {
    ChoiceIsPlain(matrix, Some(c));
    ChoiceIsPlain(matrix, Some(d));
    ExpansionComposes(j.name, c, map[]);
    ExpansionComposes(k.name, d, map[]);
    PrintIsInjective(j.name, c, k.name, d);
  }

  lemma ReplicasUnique(jobs: seq<Job>, matrix: Option<seq<Dimension>>, c: Combo)
    requires Expandable(jobs, matrix) && matrix.Some? && c in Product(matrix.value)
    ensures UniqueNames(Replicas(jobs, c))
  {
    var r := Replicas(jobs, c);
    forall i, k | 0 <= i < k < |r| ensures r[i].name != r[k].name {
      if Replica(jobs[i], c).name == Replica(jobs[k], c).name {
        ReplicaNamesDiffer(jobs, matrix, jobs[i], c, jobs[k], c);
        assert false;
      }
    }
  }

  lemma {:induction false} Phase1Unique(jobs: seq<Job>, matrix: Option<seq<Dimension>>, combos: seq<Combo>)
    requires Expandable(jobs, matrix) && matrix.Some? && Distinct(combos)
    requires forall c :: c in combos ==> c in Product(matrix.value)
    ensures UniqueNames(Phase1(jobs, combos))
  {
    if combos != [] {
      var front, last := combos[..|combos| - 1], combos[|combos| - 1];
      assert combos == front + [last];
      Phase1Unique(jobs, matrix, front);
      ReplicasUnique(jobs, matrix, last);
      forall x, y | x in Phase1(jobs, front) && y in Replicas(jobs, last) ensures x.name != y.name {
        var j, c := Phase1Origin(jobs, front, x);
        var k := ReplicaOrigin(jobs, last, y);
        if x.name == y.name {
          ReplicaNamesDiffer(jobs, matrix, j, c, k, last);
          assert false;
        }
      }
      AppendUniqueNames(Phase1(jobs, front), Replicas(jobs, last));
    }
  }

  lemma Stage1Unique(jobs: seq<Job>, matrix: Option<seq<Dimension>>)
    requires Expandable(jobs, matrix)
    ensures UniqueNames(Stage1(jobs, matrix))
  {
    if matrix.Some? {
      TidyIsDistinct(matrix.value);
      Phase1Unique(jobs, matrix, Product(matrix.value));
    }
  }

  lemma TidyIsDistinct(dims: seq<Dimension>)
    requires ValidMatrix(dims) && TidyValues(dims)
    ensures Distinct(Product(dims))
  {
    forall d | d in dims ensures Distinct(d.values) {
      var i :| 0 <= i < |dims| && dims[i] == d;
      assert TidyDim(dims[i]);
    }
    ProductIsDistinct(dims);
  }

  lemma VariantNamed(jobs: seq<Job>, matrix: Option<seq<Dimension>>, s: Job, x: Job) returns (j: Job, p: Choice, q: Choice)
    requires Expandable(jobs, matrix) && s in Stage1(jobs, matrix) && x in Variants(s)
    ensures IsTag(jobs, matrix, j, p, q) && s == Staged(j, p) && x == Fanned(s, q)
    ensures x.name == FullName(j.name, p, q)
  {
    Stage1Members(jobs, matrix, s);
    j, p :| j in jobs && Chooses(matrix, p) && s == Staged(j, p);
    VariantMembers(s, x);
    q :| Chooses(s.matrix, q) && x == Fanned(s, q);
    ChoiceIsPlain(matrix, p);
    NameOfVariant(j, p, q);
  }

  lemma VariantsOfDifferentJobs(jobs: seq<Job>, matrix: Option<seq<Dimension>>, s: Job, t: Job, x: Job, y: Job)
    requires Expandable(jobs, matrix) && s in Stage1(jobs, matrix) && t in Stage1(jobs, matrix)
    requires x in Variants(s) && y in Variants(t) && x.name == y.name
    ensures s == t
  {
    var j, p, q := VariantNamed(jobs, matrix, s, x);
    var k, p', q' := VariantNamed(jobs, matrix, t, y);
    FullNameInjective(jobs, matrix, j, p, q, k, p', q');
  }

  lemma VariantsUnique(jobs: seq<Job>, matrix: Option<seq<Dimension>>, s: Job)
    requires Expandable(jobs, matrix) && s in Stage1(jobs, matrix)
    ensures UniqueNames(Variants(s))
  {
    if s.matrix.Some? {
      Stage1Members(jobs, matrix, s);
      var j, p :| j in jobs && Chooses(matrix, p) && s == Staged(j, p);
      StagedMatrixIs(j, p);
      FannedUnique(jobs, matrix, j, p, Product(s.matrix.value));
    }
  }

  lemma FannedUnique(jobs: seq<Job>, matrix: Option<seq<Dimension>>, j: Job, p: Choice, combos: seq<Combo>)
    requires Expandable(jobs, matrix) && j in jobs && Chooses(matrix, p) && StagedMatrix(j, p).Some?
    requires combos == Product(StagedMatrix(j, p).value)
    ensures UniqueNames(VariantsFor(Staged(j, p), combos))
  {
    TidyIsDistinct(StagedMatrix(j, p).value);
    var r := VariantsFor(Staged(j, p), combos);
    forall i, k | 0 <= i < k < |r| ensures r[i].name != r[k].name {
      NamesDiffer(jobs, matrix, j, p, combos[i], combos[k]);
    }
  }

  lemma NamesDiffer(jobs: seq<Job>, matrix: Option<seq<Dimension>>, j: Job, p: Choice, c: Combo, d: Combo)
    requires Expandable(jobs, matrix) && IsTag(jobs, matrix, j, p, Some(c)) && IsTag(jobs, matrix, j, p, Some(d)) && c != d
    ensures Variant(Staged(j, p), c).name != Variant(Staged(j, p), d).name
  {
    ChoiceIsPlain(matrix, p);
    NameOfVariant(j, p, Some(c));
    NameOfVariant(j, p, Some(d));
    if FullName(j.name, p, Some(c)) == FullName(j.name, p, Some(d)) {
      FullNameInjective(jobs, matrix, j, p, Some(c), j, p, Some(d));
      assert false;
    }
  }

  /** All variants of all jobs have different names. */
  lemma ExpansionUnique(jobs: seq<Job>, matrix: Option<seq<Dimension>>)
    requires Expandable(jobs, matrix)
    ensures UniqueNames(Phase2(Stage1(jobs, matrix)))
  {
    var first := Stage1(jobs, matrix);
    Stage1Unique(jobs, matrix);
    forall i | 0 <= i < |first| ensures UniqueNames(Variants(first[i])) {
      VariantsUnique(jobs, matrix, first[i]);
    }
    forall i, k, x, y | 0 <= i < k < |first| && x in Variants(first[i]) && y in Variants(first[k])
      ensures x.name != y.name
    {
      if x.name == y.name {
        VariantsOfDifferentJobs(jobs, matrix, first[i], first[k], x, y);
        assert false;
      }
    }
    FlatMapUniqueNames(first, Variants);
  }

  // ---------------------------------------------------------------- dependencies

  lemma {:induction false} ExpansionMapAt(first: seq<Job>, i: nat)
    requires UniqueNames(first) && i < |first|
    ensures first[i].name in ExpansionMap(first)
    ensures ExpansionMap(first)[first[i].name] == NamesOf(Variants(first[i]))
  {
    if i < |first| - 1 {
      ExpansionMapAt(first[..|first| - 1], i);
    }
  }

  lemma {:induction false} RewrittenDeps(deps: seq<Name>, m: map<Name, seq<Name>>, y: Name)
    ensures y in RewriteDeps(deps, m) <==> exists d :: d in deps && y in RewriteDep(d, m)
  {
    if deps != [] {
      RewrittenDeps(deps[..|deps| - 1], m, y);
      assert deps == deps[..|deps| - 1] + [deps[|deps| - 1]];
    }
  }

  lemma NamesMembers(vs: seq<Job>, y: Name)
    ensures y in NamesOf(vs) <==> exists v :: v in vs && v.name == y
  {
    var names := NamesOf(vs);
    if y in names {
      var n :| 0 <= n < |names| && names[n] == y;
      assert vs[n] in vs;
    }
    if v :| v in vs && v.name == y {
      var n :| 0 <= n < |vs| && vs[n] == v;
      assert names[n] == y;
    }
  }

  lemma DepIsRewrittenTo(jobs: seq<Job>, matrix: Option<seq<Dimension>>, k: Job, p: Choice)
    requires Expandable(jobs, matrix) && k in jobs && Chooses(matrix, p)
    ensures RewriteDep(Suffixed(k.name, p), ExpansionMap(Stage1(jobs, matrix))) == NamesOf(Variants(Staged(k, p)))
    ensures Suffixed(k.name, p) in ExpansionMap(Stage1(jobs, matrix))
  {
    var first, s := Stage1(jobs, matrix), Staged(k, p);
    Stage1Unique(jobs, matrix);
    Stage1Members(jobs, matrix, s);
    var i :| 0 <= i < |first| && first[i] == s;
    ExpansionMapAt(first, i);
    assert s.name == Suffixed(k.name, p);
  }

  /** The names a dependency is rewritten to are those of the variants of the one staged job it
      names. */
  lemma TargetsOfDep(jobs: seq<Job>, matrix: Option<seq<Dimension>>, k: Job, p: Choice, y: Name)
    requires Expandable(jobs, matrix) && k in jobs && Chooses(matrix, p)
    ensures y in RewriteDep(Suffixed(k.name, p), ExpansionMap(Stage1(jobs, matrix)))
      <==> exists q :: IsTag(jobs, matrix, k, p, q) && y == FullName(k.name, p, q)
  {
    var s := Staged(k, p);
    DepIsRewrittenTo(jobs, matrix, k, p);
    NamesMembers(Variants(s), y);
    ChoiceIsPlain(matrix, p);
    if v :| v in Variants(s) && v.name == y {
      VariantMembers(s, v);
      var q :| Chooses(s.matrix, q) && v == Fanned(s, q);
      NameOfVariant(k, p, q);
      assert IsTag(jobs, matrix, k, p, q);
    }
    if q :| IsTag(jobs, matrix, k, p, q) && y == FullName(k.name, p, q) {
      VariantMembers(s, Fanned(s, q));
      NameOfVariant(k, p, q);
    }
  }

  lemma StagedDeps(j: Job, p: Choice, q: Choice, d: Name)
    ensures d in Fanned(Staged(j, p), q).deps <==> exists e :: e in j.deps && d == Suffixed(e, p)
  {
    FannedDeps(Staged(j, p), q);
    if p.Some? {
      CorrelatedMembers(j.deps, p.value, d);
      assert Staged(j, p).deps == CorrelateDeps(j.deps, p.value);
    }
  }

  lemma FannedDeps(s: Job, q: Choice)
    ensures Fanned(s, q).deps == s.deps
  {
  }

  lemma CorrelatedMembers(deps: seq<Name>, c: Combo, d: Name)
    ensures d in CorrelateDeps(deps, c) <==> exists e :: e in deps && d == ExpandedName(e, c)
  {
    var r := CorrelateDeps(deps, c);
    if d in r {
      var i :| 0 <= i < |r| && r[i] == d;
      assert deps[i] in deps;
    }
    if e :| e in deps && d == ExpandedName(e, c) {
      var i :| 0 <= i < |deps| && deps[i] == e;
      assert r[i] == d;
    }
  }

  lemma JobOfName(jobs: seq<Job>, n: Name) returns (k: Job)
    requires HasJob(jobs, n)
    ensures k in jobs && k.name == n
  {
    var i :| 0 <= i < |jobs| && jobs[i].name == n;
    k := jobs[i];
  }

  /** What the dependency list of a finished variant holds. */
  lemma FinalDeps(jobs: seq<Job>, matrix: Option<seq<Dimension>>, j: Job, p: Choice, q: Choice, y: Name)
    requires Expandable(jobs, matrix) && IsTag(jobs, matrix, j, p, q)
    ensures var m := ExpansionMap(Stage1(jobs, matrix));
      y in Rewrite(Fanned(Staged(j, p), q), m).deps <==>
      exists k: Job, r :: k.name in j.deps && IsTag(jobs, matrix, k, p, r) && y == FullName(k.name, p, r)
  {
    var m := ExpansionMap(Stage1(jobs, matrix));
    var deps := Fanned(Staged(j, p), q).deps;
    RewrittenDeps(deps, m, y);
    if d :| d in deps && y in RewriteDep(d, m) {
      StagedDeps(j, p, q, d);
      var e :| e in j.deps && d == Suffixed(e, p);
      DepIsJob(jobs, j, e);
      var k := JobOfName(jobs, e);
      TargetsOfDep(jobs, matrix, k, p, y);
      var r :| IsTag(jobs, matrix, k, p, r) && y == FullName(k.name, p, r);
    }
    if k: Job, r :| k.name in j.deps && IsTag(jobs, matrix, k, p, r) && y == FullName(k.name, p, r) {
      StagedDeps(j, p, q, Suffixed(k.name, p));
      TargetsOfDep(jobs, matrix, k, p, y);
    }
  }

  lemma DepIsJob(jobs: seq<Job>, j: Job, d: Name)
    requires DepsKnown(jobs) && j in jobs && d in j.deps
    ensures HasJob(jobs, d)
  {
    var i :| 0 <= i < |jobs| && jobs[i] == j;
  }

  lemma EdgeOfMember(all: seq<Job>, x: Job, b: Name)
    requires UniqueNames(all) && x in all
    ensures Edge(DepGraph(all), x.name, b) <==> b in x.deps
  {
    var i :| 0 <= i < |all| && all[i] == x;
    DepGraphAt(all, i);
  }

  /** The edges of the expanded graph. */
  lemma ExpansionEdges(jobs: seq<Job>, matrix: Option<seq<Dimension>>, j: Job, p: Choice, q: Choice, k: Job, p': Choice, q': Choice)
    requires Expandable(jobs, matrix) && IsTag(jobs, matrix, j, p, q) && IsTag(jobs, matrix, k, p', q')
    ensures Edge(DepGraph(Phase2(Stage1(jobs, matrix))), FullName(j.name, p, q), FullName(k.name, p', q'))
      <==> k.name in j.deps && p == p'
  {
    var first := Stage1(jobs, matrix);
    var m := ExpansionMap(first);
    var x := Rewrite(Fanned(Staged(j, p), q), m);
    ExpandedMembers(jobs, matrix, x);
    ExpansionUnique(jobs, matrix);
    ChoiceIsPlain(matrix, p);
    NameOfVariant(j, p, q);
    var y := FullName(k.name, p', q');
    EdgeOfMember(Phase2(first), x, y);
    FinalDeps(jobs, matrix, j, p, q, y);
    if y in x.deps {
      var k2: Job, r :| k2.name in j.deps && IsTag(jobs, matrix, k2, p, r) && y == FullName(k2.name, p, r);
      FullNameInjective(jobs, matrix, k, p', q', k2, p, r);
    }
  }

  // ---------------------------------------------------------------- what is preserved

  /** Every node of the expanded graph projects to the job it was made from, by dropping the suffix. */
  function BaseName(n: Name): Name {
    Parse(n).0
  }

  lemma BaseOfFullName(jobs: seq<Job>, matrix: Option<seq<Dimension>>, j: Job, p: Choice, q: Choice)
    requires Expandable(jobs, matrix) && IsTag(jobs, matrix, j, p, q)
    ensures BaseName(FullName(j.name, p, q)) == j.name
  {
    TagFacts(jobs, matrix, j, p, q);
    ParseOfPrint(j.name, Values(p) + Values(q));
  }

  lemma EdgeProjects(jobs: seq<Job>, matrix: Option<seq<Dimension>>, a: Name, b: Name)
    requires Expandable(jobs, matrix) && Edge(DepGraph(Phase2(Stage1(jobs, matrix))), a, b)
    ensures Edge(DepGraph(jobs), BaseName(a), BaseName(b))
    ensures HasJob(Phase2(Stage1(jobs, matrix)), b)
  {
    var all, m := Phase2(Stage1(jobs, matrix)), ExpansionMap(Stage1(jobs, matrix));
    ExpansionUnique(jobs, matrix);
    EdgeIffDep(all, a, b);
    var i :| 0 <= i < |all| && all[i].name == a && b in all[i].deps;
    ExpandedMembers(jobs, matrix, all[i]);
    var j, p, q :| IsTag(jobs, matrix, j, p, q) && all[i] == Rewrite(Fanned(Staged(j, p), q), m);
    ChoiceIsPlain(matrix, p);
    NameOfVariant(j, p, q);
    FinalDeps(jobs, matrix, j, p, q, b);
    var k: Job, r :| k.name in j.deps && IsTag(jobs, matrix, k, p, r) && b == FullName(k.name, p, r);
    BaseOfFullName(jobs, matrix, j, p, q);
    BaseOfFullName(jobs, matrix, k, p, r);
    EdgeOfMember(jobs, j, k.name);
    NamedMember(jobs, matrix, k, p, r);
  }

  lemma NamedMember(jobs: seq<Job>, matrix: Option<seq<Dimension>>, j: Job, p: Choice, q: Choice)
    requires Expandable(jobs, matrix) && IsTag(jobs, matrix, j, p, q)
    ensures HasJob(Phase2(Stage1(jobs, matrix)), FullName(j.name, p, q))
  {
    var all := Phase2(Stage1(jobs, matrix));
    var x := Rewrite(Fanned(Staged(j, p), q), ExpansionMap(Stage1(jobs, matrix)));
    ExpandedMembers(jobs, matrix, x);
    ChoiceIsPlain(matrix, p);
    NameOfVariant(j, p, q);
    var i :| 0 <= i < |all| && all[i] == x;
  }

  lemma ExpansionProjects(jobs: seq<Job>, matrix: Option<seq<Dimension>>)
    requires Expandable(jobs, matrix)
    ensures Projects(DepGraph(Phase2(Stage1(jobs, matrix))), DepGraph(jobs), BaseName)
  {
    forall a, b | Edge(DepGraph(Phase2(Stage1(jobs, matrix))), a, b)
      ensures Edge(DepGraph(jobs), BaseName(a), BaseName(b))
    {
      EdgeProjects(jobs, matrix, a, b);
    }
  }

  /** Expansion keeps names distinct, resolves every dependency, and creates no cycle. */
  lemma ExpansionKeepsGraph(jobs: seq<Job>, matrix: Option<seq<Dimension>>)
    requires Expandable(jobs, matrix)
    ensures var all := Phase2(Stage1(jobs, matrix));
      && UniqueNames(all)
      && DepsKnown(all)
      && (Acyclic(DepGraph(jobs)) ==> Acyclic(DepGraph(all)))
  {
    var all := Phase2(Stage1(jobs, matrix));
    ExpansionUnique(jobs, matrix);
    forall i, d | 0 <= i < |all| && d in all[i].deps ensures HasJob(all, d) {
      EdgeIffDep(all, all[i].name, d);
      EdgeProjects(jobs, matrix, all[i].name, d);
    }
    if Acyclic(DepGraph(jobs)) {
      ExpansionProjects(jobs, matrix);
      ProjectionKeepsAcyclic(DepGraph(all), DepGraph(jobs), BaseName);
    }
  }

  lemma StagedArtifacts(j: Job, p: Choice, q: Choice, i: nat)
    requires i < |j.artifacts| && j.artifacts[i].from != ""
    ensures i < |Fanned(Staged(j, p), q).artifacts|
    ensures Fanned(Staged(j, p), q).artifacts[i].from == Suffixed(j.artifacts[i].from, p)
  {
  }

  lemma StagedStepArtifacts(j: Job, p: Choice, q: Choice, n: nat, i: nat)
    requires n < |j.steps| && i < |j.steps[n].artifacts| && j.steps[n].artifacts[i].from != ""
    ensures |Fanned(Staged(j, p), q).steps| == |j.steps|
    ensures |Fanned(Staged(j, p), q).steps[n].artifacts| == |j.steps[n].artifacts|
    ensures Fanned(Staged(j, p), q).steps[n].artifacts[i].from == Suffixed(j.steps[n].artifacts[i].from, p)
  {
  }

  lemma SuffixedNonEmpty(n: Name, p: Choice)
    requires n != ""
    ensures Suffixed(n, p) != ""
  {
    if p.Some? {
      BracketInPrint(Parse(n).0, Parse(n).1 + p.value);
    }
  }

  /** Whether a staged job has just one variant. */
  predicate SingleVariant(k: Job, p: Choice) {
    |Variants(Staged(k, p))| == 1
  }

  /** What becomes of a source that names dependency k: it is rewritten to a dependency exactly when k
      has a single job-level variant; otherwise it names no dependency. */
  lemma SourceStaysDep(jobs: seq<Job>, matrix: Option<seq<Dimension>>, j: Job, p: Choice, q: Choice, k: Job, a: Artifact)
    requires Expandable(jobs, matrix) && IsTag(jobs, matrix, j, p, q)
    requires k in jobs && k.name in j.deps && k.name != "" && a.from == Suffixed(k.name, p)
    ensures var m := ExpansionMap(Stage1(jobs, matrix));
      RewriteArtifact(a, m).from in Rewrite(Fanned(Staged(j, p), q), m).deps <==> SingleVariant(k, p)
  {
    var m := ExpansionMap(Stage1(jobs, matrix));
    SuffixedNonEmpty(k.name, p);
    DepIsRewrittenTo(jobs, matrix, k, p);
    var from := RewriteArtifact(a, m).from;
    FinalDeps(jobs, matrix, j, p, q, from);
    if SingleVariant(k, p) {
      TargetsOfDep(jobs, matrix, k, p, from);
    } else {
      SourceIsNoVariant(jobs, matrix, k, p);
      ChoiceIsPlain(matrix, p);
      NameOfVariant(k, p, None);
    }
  }

  /** An artifact of the job that is taken from a dependency is still taken from a dependency after
      expansion exactly when its source has a single job-level variant. */
  lemma ArtifactStaysDep(jobs: seq<Job>, matrix: Option<seq<Dimension>>, j: Job, p: Choice, q: Choice, k: Job, i: nat)
    requires Expandable(jobs, matrix) && IsTag(jobs, matrix, j, p, q)
    requires k in jobs && k.name in j.deps && k.name != "" && i < |j.artifacts| && j.artifacts[i].from == k.name
    ensures var x := Rewrite(Fanned(Staged(j, p), q), ExpansionMap(Stage1(jobs, matrix)));
      i < |x.artifacts| && (x.artifacts[i].from in x.deps <==> SingleVariant(k, p))
  {
    StagedArtifacts(j, p, q, i);
    SourceStaysDep(jobs, matrix, j, p, q, k, Fanned(Staged(j, p), q).artifacts[i]);
  }

  /** And so is an artifact of one of its steps. */
  lemma StepArtifactStaysDep(jobs: seq<Job>, matrix: Option<seq<Dimension>>, j: Job, p: Choice, q: Choice, k: Job, n: nat, i: nat)
    requires Expandable(jobs, matrix) && IsTag(jobs, matrix, j, p, q)
    requires k in jobs && k.name in j.deps && k.name != ""
    requires n < |j.steps| && i < |j.steps[n].artifacts| && j.steps[n].artifacts[i].from == k.name
    ensures var x := Rewrite(Fanned(Staged(j, p), q), ExpansionMap(Stage1(jobs, matrix)));
      n < |x.steps| && i < |x.steps[n].artifacts| && (x.steps[n].artifacts[i].from in x.deps <==> SingleVariant(k, p))
  {
    StagedStepArtifacts(j, p, q, n, i);
    SourceStaysDep(jobs, matrix, j, p, q, k, Fanned(Staged(j, p), q).steps[n].artifacts[i]);
  }

  predicate TakesFrom(artifacts: seq<Artifact>, n: Name) {
    exists a :: a in artifacts && a.from == n
  }

  /** The job, or one of its steps, takes an artifact from n. */
  predicate IsSource(j: Job, n: Name) {
    TakesFrom(j.artifacts, n) || exists s :: s in j.steps && TakesFrom(s.artifacts, n)
  }

  ghost predicate SourcesSingle(jobs: seq<Job>, j: Job, p: Choice) {
    forall k :: k in jobs && IsSource(j, k.name) ==> SingleVariant(k, p)
  }

  /** Expansion keeps all artifacts of a job among its dependencies if and only if every source the job
      or its steps take from has a single variant. */
  lemma ArtifactsStayDeps(jobs: seq<Job>, matrix: Option<seq<Dimension>>, j: Job, p: Choice, q: Choice)
    requires Expandable(jobs, matrix) && IsTag(jobs, matrix, j, p, q)
    requires ArtifactsFromDeps(j) && !IsSource(j, "")
    ensures ArtifactsFromDeps(Finished(jobs, matrix, j, p, q)) <==> SourcesSingle(jobs, j, p)
  {
    var x := Finished(jobs, matrix, j, p, q);
    JobSources(jobs, matrix, j, p, q);
    StepSources(jobs, matrix, j, p, q);
    SplitSources(jobs, j, p);
    KeepsBoth(x);
  }

  ghost predicate JobSingle(jobs: seq<Job>, j: Job, p: Choice) {
    forall k :: k in jobs && TakesFrom(j.artifacts, k.name) ==> SingleVariant(k, p)
  }

  ghost predicate StepSingle(jobs: seq<Job>, s: Step, p: Choice) {
    forall k :: k in jobs && TakesFrom(s.artifacts, k.name) ==> SingleVariant(k, p)
  }

  ghost predicate StepsSingle(jobs: seq<Job>, steps: seq<Step>, p: Choice) {
    forall s :: s in steps ==> StepSingle(jobs, s, p)
  }

  predicate JobKeeps(x: Job) {
    forall a :: a in x.artifacts ==> a.from in x.deps
  }

  predicate StepKeeps(s: Step, deps: seq<Name>) {
    forall a :: a in s.artifacts ==> a.from in deps
  }

  predicate StepsKeep(steps: seq<Step>, deps: seq<Name>) {
    forall s :: s in steps ==> StepKeeps(s, deps)
  }

  lemma KeepsBoth(x: Job)
    ensures ArtifactsFromDeps(x) <==> JobKeeps(x) && StepsKeep(x.steps, x.deps)
  {
  }

  /** The job that a tag stands for, after both phases. */
  function Finished(jobs: seq<Job>, matrix: Option<seq<Dimension>>, j: Job, p: Choice, q: Choice): Job {
    Rewrite(Fanned(Staged(j, p), q), ExpansionMap(Stage1(jobs, matrix)))
  }

  /** An artifact taken from n is kept exactly if n names a job with a single variant. */
  ghost predicate KeptIffSingle(jobs: seq<Job>, p: Choice, n: Name, kept: bool) {
    exists k :: k in jobs && k.name == n && (kept <==> SingleVariant(k, p))
  }

  lemma JobArtifactKept(jobs: seq<Job>, matrix: Option<seq<Dimension>>, j: Job, p: Choice, q: Choice, i: nat)
    requires Expandable(jobs, matrix) && IsTag(jobs, matrix, j, p, q)
    requires ArtifactsFromDeps(j) && !IsSource(j, "") && i < |j.artifacts|
    ensures var x := Finished(jobs, matrix, j, p, q);
      i < |x.artifacts| && KeptIffSingle(jobs, p, j.artifacts[i].from, x.artifacts[i].from in x.deps)
  {
    assert j.artifacts[i] in j.artifacts && TakesFrom(j.artifacts, j.artifacts[i].from);
    DepIsJob(jobs, j, j.artifacts[i].from);
    var k := JobOfName(jobs, j.artifacts[i].from);
    ArtifactStaysDep(jobs, matrix, j, p, q, k, i);
  }

  lemma StepArtifactKept(jobs: seq<Job>, matrix: Option<seq<Dimension>>, j: Job, p: Choice, q: Choice, n: nat, i: nat)
    requires Expandable(jobs, matrix) && IsTag(jobs, matrix, j, p, q)
    requires ArtifactsFromDeps(j) && !IsSource(j, "") && n < |j.steps| && i < |j.steps[n].artifacts|
    ensures var x := Finished(jobs, matrix, j, p, q);
      n < |x.steps| && i < |x.steps[n].artifacts|
      && KeptIffSingle(jobs, p, j.steps[n].artifacts[i].from, x.steps[n].artifacts[i].from in x.deps)
  {
    var from := j.steps[n].artifacts[i].from;
    assert j.steps[n] in j.steps && j.steps[n].artifacts[i] in j.steps[n].artifacts && TakesFrom(j.steps[n].artifacts, from);
    DepIsJob(jobs, j, from);
    var k := JobOfName(jobs, from);
    StepArtifactStaysDep(jobs, matrix, j, p, q, k, n, i);
  }

  lemma JobSources(jobs: seq<Job>, matrix: Option<seq<Dimension>>, j: Job, p: Choice, q: Choice)
    requires Expandable(jobs, matrix) && IsTag(jobs, matrix, j, p, q)
    requires ArtifactsFromDeps(j) && !IsSource(j, "")
    ensures JobKeeps(Finished(jobs, matrix, j, p, q)) <==> JobSingle(jobs, j, p)
  {
    var x := Finished(jobs, matrix, j, p, q);
    SameArtifactCounts(j, p, q, ExpansionMap(Stage1(jobs, matrix)));
    forall i | 0 <= i < |j.artifacts| ensures KeptIffSingle(jobs, p, j.artifacts[i].from, x.artifacts[i].from in x.deps) {
      JobArtifactKept(jobs, matrix, j, p, q, i);
    }
    AllOrNone(jobs, p, j.artifacts, x.artifacts, x.deps);
  }

  lemma SplitSources(jobs: seq<Job>, j: Job, p: Choice)
    ensures SourcesSingle(jobs, j, p) <==> JobSingle(jobs, j, p) && StepsSingle(jobs, j.steps, p)
  {
    if JobSingle(jobs, j, p) && StepsSingle(jobs, j.steps, p) {
      forall k | k in jobs && IsSource(j, k.name) ensures SingleVariant(k, p) {
        if !TakesFrom(j.artifacts, k.name) {
          var s :| s in j.steps && TakesFrom(s.artifacts, k.name);
          assert StepSingle(jobs, s, p);
        }
      }
    }
    if SourcesSingle(jobs, j, p) {
      forall s | s in j.steps ensures StepSingle(jobs, s, p) {
        forall k | k in jobs && TakesFrom(s.artifacts, k.name) ensures SingleVariant(k, p) {
          assert IsSource(j, k.name);
        }
      }
    }
  }

  lemma StepSources(jobs: seq<Job>, matrix: Option<seq<Dimension>>, j: Job, p: Choice, q: Choice)
    requires Expandable(jobs, matrix) && IsTag(jobs, matrix, j, p, q)
    requires ArtifactsFromDeps(j) && !IsSource(j, "")
    ensures var x := Finished(jobs, matrix, j, p, q); StepsKeep(x.steps, x.deps) <==> StepsSingle(jobs, j.steps, p)
  {
    var x := Finished(jobs, matrix, j, p, q);
    SameArtifactCounts(j, p, q, ExpansionMap(Stage1(jobs, matrix)));
    forall n | 0 <= n < |j.steps| ensures StepKeeps(x.steps[n], x.deps) <==> StepSingle(jobs, j.steps[n], p) {
      OneStepSources(jobs, matrix, j, p, q, n);
    }
    EveryStep(jobs, p, j.steps, x.steps, x.deps);
  }

  lemma EveryStep(jobs: seq<Job>, p: Choice, before: seq<Step>, after: seq<Step>, deps: seq<Name>)
    requires |after| == |before|
    requires forall n :: 0 <= n < |before| ==> (StepKeeps(after[n], deps) <==> StepSingle(jobs, before[n], p))
    ensures StepsKeep(after, deps) <==> StepsSingle(jobs, before, p)
  {
    if StepsKeep(after, deps) {
      forall s | s in before ensures StepSingle(jobs, s, p) {
        var n :| 0 <= n < |before| && before[n] == s;
        assert after[n] in after;
      }
    }
    if StepsSingle(jobs, before, p) {
      forall s | s in after ensures StepKeeps(s, deps) {
        var n :| 0 <= n < |after| && after[n] == s;
        assert before[n] in before;
      }
    }
  }

  lemma OneStepSources(jobs: seq<Job>, matrix: Option<seq<Dimension>>, j: Job, p: Choice, q: Choice, n: nat)
    requires Expandable(jobs, matrix) && IsTag(jobs, matrix, j, p, q) && n < |j.steps|
    requires ArtifactsFromDeps(j) && !IsSource(j, "")
    ensures n < |Finished(jobs, matrix, j, p, q).steps|
    ensures var x := Finished(jobs, matrix, j, p, q); StepKeeps(x.steps[n], x.deps) <==> StepSingle(jobs, j.steps[n], p)
  {
    var x := Finished(jobs, matrix, j, p, q);
    SameArtifactCounts(j, p, q, ExpansionMap(Stage1(jobs, matrix)));
    var artifacts := j.steps[n].artifacts;
    forall i | 0 <= i < |artifacts| ensures KeptIffSingle(jobs, p, artifacts[i].from, x.steps[n].artifacts[i].from in x.deps) {
      StepArtifactKept(jobs, matrix, j, p, q, n, i);
    }
    AllOrNone(jobs, p, artifacts, x.steps[n].artifacts, x.deps);
  }

  lemma SameArtifactCounts(j: Job, p: Choice, q: Choice, m: map<Name, seq<Name>>)
    ensures var x := Rewrite(Fanned(Staged(j, p), q), m);
      |x.artifacts| == |j.artifacts| && |x.steps| == |j.steps|
      && forall n :: 0 <= n < |j.steps| ==> |x.steps[n].artifacts| == |j.steps[n].artifacts|
  {
  }

  lemma AllOrNone(jobs: seq<Job>, p: Choice, before: seq<Artifact>, after: seq<Artifact>, deps: seq<Name>)
    requires UniqueNames(jobs) && |after| == |before|
    requires forall i :: 0 <= i < |before| ==> KeptIffSingle(jobs, p, before[i].from, after[i].from in deps)
    ensures (forall a :: a in after ==> a.from in deps)
      <==> forall k :: k in jobs && TakesFrom(before, k.name) ==> SingleVariant(k, p)
  {
    if forall a :: a in after ==> a.from in deps {
      forall k | k in jobs && TakesFrom(before, k.name) ensures SingleVariant(k, p) {
        var a :| a in before && a.from == k.name;
        var i :| 0 <= i < |before| && before[i] == a;
        var k' :| k' in jobs && k'.name == before[i].from && (after[i].from in deps <==> SingleVariant(k', p));
        assert after[i] in after && k' == k;
      }
    }
    if forall k :: k in jobs && TakesFrom(before, k.name) ==> SingleVariant(k, p) {
      forall a | a in after ensures a.from in deps {
        var i :| 0 <= i < |after| && after[i] == a;
        var k :| k in jobs && k.name == before[i].from && (after[i].from in deps <==> SingleVariant(k, p));
        assert before[i] in before && TakesFrom(before, k.name);
      }
    }
  }

  /** The unsuffixed name of a job with several variants is the name of no variant at all. */
  lemma SourceIsNoVariant(jobs: seq<Job>, matrix: Option<seq<Dimension>>, k: Job, p: Choice)
    requires Expandable(jobs, matrix) && k in jobs && Chooses(matrix, p) && !SingleVariant(k, p)
    ensures forall k2: Job, r :: IsTag(jobs, matrix, k2, p, r) ==> FullName(k.name, p, None) != FullName(k2.name, p, r)
  {
    assert StagedMatrix(k, p).Some?;
    forall k2: Job, r | IsTag(jobs, matrix, k2, p, r) ensures FullName(k.name, p, None) != FullName(k2.name, p, r) {
      TagFacts(jobs, matrix, k2, p, r);
      ChoiceIsPlain(matrix, p);
      BracketInPrint(k2.name, Values(p) + Values(r));
      if FullName(k.name, p, None) == FullName(k2.name, p, r) {
        BareIsNotFull(k.name, k2, p, r);
        assert false;
      }
    }
  }

  lemma BareIsNotFull(n: Name, k2: Job, p: Choice, r: Choice)
    requires '[' !in n && '[' !in k2.name && PlainKeys(Values(p)) && CommaFree(Values(p))
    requires PlainKeys(Values(p) + Values(r)) && CommaFree(Values(p) + Values(r))
    requires Values(p).Keys !! Values(r).Keys && (r.Some? ==> Values(r) != map[])
    requires FullName(n, p, None) == FullName(k2.name, p, r)
    ensures n == k2.name && r.None?
  {
    var none: Combo := map[];
    assert Values(p) + none == Values(p);
    BracketInPrint(k2.name, Values(p) + Values(r));
    if r.Some? {
      var key :| key in Values(r);
      assert key in Values(p) + Values(r) && key !in Values(p);
    }
    if p.Some? {
      PrintIsInjective(n, Values(p), k2.name, Values(p) + Values(r));
    }
  }

  lemma {:induction false} KeepsUnlessMatrix(jobs: seq<Job>)
    requires forall i :: 0 <= i < |jobs| ==> jobs[i].matrix.None?
    ensures AllVariants(jobs) == jobs
    ensures forall n :: n in ExpansionMap(jobs) ==> ExpansionMap(jobs)[n] == [n]
  {
    if jobs != [] {
      KeepsUnlessMatrix(jobs[..|jobs| - 1]);
      assert NamesOf([jobs[|jobs| - 1]]) == [jobs[|jobs| - 1].name];
    }
  }

  lemma {:induction false} RewriteSame(deps: seq<Name>, m: map<Name, seq<Name>>)
    requires forall n :: n in m ==> m[n] == [n]
    ensures RewriteDeps(deps, m) == deps
  {
    if deps != [] {
      RewriteSame(deps[..|deps| - 1], m);
    }
  }

  lemma RewriteArtifactsSame(artifacts: seq<Artifact>, m: map<Name, seq<Name>>)
    requires forall n :: n in m ==> m[n] == [n]
    ensures RewriteArtifacts(artifacts, m) == artifacts
  {
  }

  /** Without job-level matrices the second phase has nothing to do, so returning early is the same. */
  lemma NothingToFanOut(jobs: seq<Job>)
    requires !SomeMatrix(jobs)
    ensures Phase2(jobs) == jobs
  {
    KeepsUnlessMatrix(jobs);
    var m := ExpansionMap(jobs);
    forall i | 0 <= i < |jobs| ensures Rewrite(jobs[i], m) == jobs[i] {
      RewriteSame(jobs[i].deps, m);
      RewriteArtifactsSame(jobs[i].artifacts, m);
      forall k | 0 <= k < |jobs[i].steps|
        ensures jobs[i].steps[k].(artifacts := RewriteArtifacts(jobs[i].steps[k].artifacts, m)) == jobs[i].steps[k]
      {
        RewriteArtifactsSame(jobs[i].steps[k].artifacts, m);
      }
    }
  }
}
