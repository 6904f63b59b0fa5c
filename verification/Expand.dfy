/** Two-phase matrix expansion: pipeline matrices replicate the graph, job matrices fan jobs out. */
module Expand {
  import opened Prelude
  import opened PipelineModel
  import opened Names
  import opened Matrix
  import opened Params
  import opened Substitute

  const MATRIX := "matrix."

  // ---------------------------------------------------------------- phase 1

  /** A dimension is written ${matrix.name} in the texts. */
  lemma DimensionIsWritten(name: string, value: string)
    requires PlainKey(name)
    ensures Subst("${matrix." + name + "}", map[name := value], MATRIX) == value
  {
    LoneKey(name, value, MATRIX);
    assert "${" + "matrix." + name + "}" == "${matrix." + name + "}";
  }

  function CorrelateDeps(deps: seq<Name>, c: Combo): (r: seq<Name>)
    ensures |r| == |deps| && forall i :: 0 <= i < |r| ==> r[i] == ExpandedName(deps[i], c)
  {
    seq(|deps|, i requires 0 <= i < |deps| => ExpandedName(deps[i], c))
  }

  function CorrelateArtifact(a: Artifact, c: Combo): Artifact {
    if a.from == "" then a else a.(from := ExpandedName(a.from, c))
  }

  function CorrelateArtifacts(artifacts: seq<Artifact>, c: Combo): (r: seq<Artifact>)
    ensures |r| == |artifacts| && forall i :: 0 <= i < |r| ==> r[i] == CorrelateArtifact(artifacts[i], c)
  {
    seq(|artifacts|, i requires 0 <= i < |artifacts| => CorrelateArtifact(artifacts[i], c))
  }

  /** The replica of a job for one pipeline combo: it and everything it refers to get the suffix. */
  function Replica(j: Job, c: Combo): Job {
    var r := SubstituteJobVars(j, c, MATRIX);
    r.(name := ExpandedName(j.name, c),
       matrixValues := Some(c),
       deps := CorrelateDeps(j.deps, c),
       artifacts := CorrelateArtifacts(r.artifacts, c),
       steps := seq(|r.steps|, i requires 0 <= i < |r.steps| =>
         r.steps[i].(artifacts := CorrelateArtifacts(r.steps[i].artifacts, c))))
  }

  function Replicas(jobs: seq<Job>, c: Combo): (r: seq<Job>)
    ensures |r| == |jobs| && forall i :: 0 <= i < |r| ==> r[i] == Replica(jobs[i], c)
  {
    seq(|jobs|, i requires 0 <= i < |jobs| => Replica(jobs[i], c))
  }

  function Phase1(jobs: seq<Job>, combos: seq<Combo>): seq<Job> {
    if combos == [] then []
    else Phase1(jobs, combos[..|combos| - 1]) + Replicas(jobs, combos[|combos| - 1])
  }

  /** One combo after the other, and for each all jobs in their order. */
  lemma {:induction false} ReplicasInOrder(jobs: seq<Job>, a: seq<Combo>, b: seq<Combo>)
    ensures Phase1(jobs, a + b) == Phase1(jobs, a) + Phase1(jobs, b)
  {
    if b == [] {
      assert a + b == a;
    } else {
      var n := |b| - 1;
      ReplicasInOrder(jobs, a, b[..n]);
      assert a + b == (a + b[..n]) + [b[n]];
      OneMoreCombo(jobs, a + b[..n], b[n]);
      AssociateJobs(Phase1(jobs, a), Phase1(jobs, b[..n]), Replicas(jobs, b[n]));
    }
  }

  lemma OneMoreCombo(jobs: seq<Job>, combos: seq<Combo>, c: Combo)
    ensures Phase1(jobs, combos + [c]) == Phase1(jobs, combos) + Replicas(jobs, c)
  {
    assert (combos + [c])[..|combos|] == combos;
  }

  lemma AssociateJobs(a: seq<Job>, b: seq<Job>, c: seq<Job>)
    ensures (a + b) + c == a + (b + c)
  {
  }

  lemma OneComboReplicates(jobs: seq<Job>, c: Combo)
    ensures |Phase1(jobs, [c])| == |jobs|
    ensures forall i :: 0 <= i < |jobs| ==> Phase1(jobs, [c])[i].name == ExpandedName(jobs[i].name, c)
    ensures forall i :: 0 <= i < |jobs| ==> Phase1(jobs, [c])[i].matrixValues == Some(c)
  {
    assert [c][..0] == [];
  }

  datatype ExpandError = BadMatrix(error: MatrixError)

  predicate SharesDim(dims: seq<Dimension>, jobs: seq<Job>) {
    exists i, k :: 0 <= i < |jobs| && jobs[i].matrix.Some? && 0 <= k < |jobs[i].matrix.value|
      && HasDim(dims, jobs[i].matrix.value[k].name)
  }

  /** checkDimCollisions. */
  method CheckDimCollisions(dims: seq<Dimension>, jobs: seq<Job>) returns (clash: bool)
    ensures clash <==> SharesDim(dims, jobs)
  {
    var names: set<string> := {};
    for i := 0 to |dims|
      invariant forall n :: n in names <==> HasDim(dims[..i], n)
    {
      names := names + {dims[i].name};
      assert dims[..i + 1] == dims[..i] + [dims[i]];
    }
    assert dims[..|dims|] == dims;
    for i := 0 to |jobs|
      invariant forall m, k :: 0 <= m < i && jobs[m].matrix.Some? && 0 <= k < |jobs[m].matrix.value| ==>
        !HasDim(dims, jobs[m].matrix.value[k].name)
    {
      if jobs[i].matrix.Some? {
        var own := jobs[i].matrix.value;
        for k := 0 to |own|
          invariant forall m :: 0 <= m < k ==> !HasDim(dims, own[m].name)
        {
          if own[k].name in names {
            return true;
          }
        }
      }
    }
    return false;
  }

  /** The dimension names that validation admits are plain keys. */
  lemma ProductIsPlain(dims: seq<Dimension>, c: Combo)
    requires ValidMatrix(dims) && c in Product(dims)
    ensures PlainKeysIn(c) && Unambiguous(c.Keys)
  {
    ProductIsAllChoices(dims, c);
    forall k | k in c ensures PlainKey(k) {
      var d :| d in dims && d.name == k;
      assert ValidDim(d);
    }
    PlainIsUnambiguous(c);
  }

  /** replicateJob and the renaming behind it. */
  method ReplicateJob(j: Job, c: Combo) returns (r: Job)
    requires Unambiguous(c.Keys)
    ensures r == Replica(j, c)
  {
    r := SubstituteJob(j, c, MATRIX);
    var steps: seq<Step> := [];
    for i := 0 to |r.steps|
      invariant |steps| == i
      invariant forall k :: 0 <= k < i ==> steps[k] == r.steps[k].(artifacts := CorrelateArtifacts(r.steps[k].artifacts, c))
    {
      steps := steps + [r.steps[i].(artifacts := CorrelateArtifacts(r.steps[i].artifacts, c))];
    }
    r := r.(name := ExpandedName(j.name, c), matrixValues := Some(c), deps := CorrelateDeps(j.deps, c),
            artifacts := CorrelateArtifacts(r.artifacts, c), steps := steps);
  }

  method ReplicateAll(jobs: seq<Job>, c: Combo) returns (replicas: seq<Job>)
    requires Unambiguous(c.Keys)
    ensures replicas == Replicas(jobs, c)
  {
    replicas := [];
    for k := 0 to |jobs|
      invariant replicas == Replicas(jobs, c)[..k]
    {
      var replica := ReplicateJob(jobs[k], c);
      replicas := replicas + [replica];
    }
  }

  method ExpandPipeline(jobs: seq<Job>, matrix: Option<seq<Dimension>>) returns (r: Result<seq<Job>, ExpandError>)
    ensures matrix.None? ==> r == Ok(jobs)
    ensures matrix.Some? ==> (r.Ok? <==> ValidMatrix(matrix.value) && !SharesDim(matrix.value, jobs))
    ensures matrix.Some? && r.Ok? ==> r.value == Phase1(jobs, Product(matrix.value))
    ensures r.Err? ==> if ValidMatrix(matrix.value) then r.error == BadMatrix(DuplicateDim) else FaultIn(matrix.value, r.error.error)
  {
    if matrix.None? {
      return Ok(jobs);
    }
    var dims := matrix.value;
    var bad := ValidateMatrix(dims);
    if bad.Some? {
      return Err(BadMatrix(bad.value));
    }
    var clash := CheckDimCollisions(dims, jobs);
    if clash {
      return Err(BadMatrix(DuplicateDim));
    }
    ValidMatrixFits(dims);
    var product := Combinations(dims);
    var combos := product.value;
    var expanded: seq<Job> := [];
    for i := 0 to |combos|
      invariant expanded == Phase1(jobs, combos[..i])
    {
      assert combos[..i + 1][..i] == combos[..i];
      ProductIsPlain(dims, combos[i]);
      var replicas := ReplicateAll(jobs, combos[i]);
      expanded := expanded + replicas;
    }
    assert combos[..|combos|] == combos;
    return Ok(expanded);
  }

  // ---------------------------------------------------------------- phase 2

  function Merged(existing: Option<Combo>, c: Combo): Combo {
    match existing case None => c case Some(m) => m + c
  }

  function Variant(j: Job, c: Combo): Job {
    SubstituteJobVars(j, c, MATRIX).(name := ExpandedName(j.name, c), matrix := None, matrixValues := Some(Merged(j.matrixValues, c)))
  }

  function VariantsFor(j: Job, combos: seq<Combo>): (r: seq<Job>)
    ensures |r| == |combos| && forall i :: 0 <= i < |r| ==> r[i] == Variant(j, combos[i])
  {
    seq(|combos|, i requires 0 <= i < |combos| => Variant(j, combos[i]))
  }

  /** A job without a matrix is kept as it is; one with a matrix gives a variant per combo. */
  function Variants(j: Job): seq<Job> {
    if j.matrix.None? then [j] else VariantsFor(j, Product(j.matrix.value))
  }

  function NamesOf(jobs: seq<Job>): (r: seq<Name>)
    ensures |r| == |jobs| && forall i :: 0 <= i < |r| ==> r[i] == jobs[i].name
  {
    seq(|jobs|, i requires 0 <= i < |jobs| => jobs[i].name)
  }

  function AllVariants(jobs: seq<Job>): seq<Job> {
    FlatMap(jobs, Variants)
  }

  function ExpansionMap(jobs: seq<Job>): map<Name, seq<Name>> {
    if jobs == [] then map[]
    else var last := jobs[|jobs| - 1]; ExpansionMap(jobs[..|jobs| - 1])[last.name := NamesOf(Variants(last))]
  }

  function RewriteDep(dep: Name, m: map<Name, seq<Name>>): seq<Name> {
    if dep in m then m[dep] else [dep]
  }

  /** Every dependency is replaced by all its variants. */
  function RewriteDeps(deps: seq<Name>, m: map<Name, seq<Name>>): seq<Name> {
    if deps == [] then [] else RewriteDeps(deps[..|deps| - 1], m) + RewriteDep(deps[|deps| - 1], m)
  }

  /** The variants take the place of the dependency they belong to. */
  lemma {:induction false} DepsStayInOrder(a: seq<Name>, b: seq<Name>, m: map<Name, seq<Name>>)
    ensures RewriteDeps(a + b, m) == RewriteDeps(a, m) + RewriteDeps(b, m)
  {
    if b == [] {
      assert a + b == a;
    } else {
      var n := |b| - 1;
      DepsStayInOrder(a, b[..n], m);
      assert a + b == (a + b[..n]) + [b[n]];
      RewriteOneMore(a + b[..n], b[n], m);
      Associate(RewriteDeps(a, m), RewriteDeps(b[..n], m), RewriteDep(b[n], m));
    }
  }

  lemma RewriteOneMore(deps: seq<Name>, d: Name, m: map<Name, seq<Name>>)
    ensures RewriteDeps(deps + [d], m) == RewriteDeps(deps, m) + RewriteDep(d, m)
  {
    assert (deps + [d])[..|deps|] == deps;
  }

  lemma Associate(a: seq<Name>, b: seq<Name>, c: seq<Name>)
    ensures (a + b) + c == a + (b + c)
  {
  }

  /** One dependency becomes all its variants; one that names no job stays for validation to find. */
  lemma OneDepBecomes(d: Name, m: map<Name, seq<Name>>)
    ensures d in m ==> RewriteDeps([d], m) == m[d]
    ensures d !in m ==> RewriteDeps([d], m) == [d]
  {
    assert [d][..0] == [];
  }

  /** An artifact source is rewritten only when it has a single variant. */
  function RewriteArtifact(a: Artifact, m: map<Name, seq<Name>>): Artifact {
    if a.from != "" && a.from in m && |m[a.from]| == 1 then a.(from := m[a.from][0]) else a
  }

  function RewriteArtifacts(artifacts: seq<Artifact>, m: map<Name, seq<Name>>): (r: seq<Artifact>)
    ensures |r| == |artifacts| && forall i :: 0 <= i < |r| ==> r[i] == RewriteArtifact(artifacts[i], m)
  {
    seq(|artifacts|, i requires 0 <= i < |artifacts| => RewriteArtifact(artifacts[i], m))
  }

  function Rewrite(j: Job, m: map<Name, seq<Name>>): Job {
    j.(deps := RewriteDeps(j.deps, m),
       artifacts := RewriteArtifacts(j.artifacts, m),
       steps := seq(|j.steps|, i requires 0 <= i < |j.steps| =>
         j.steps[i].(artifacts := RewriteArtifacts(j.steps[i].artifacts, m))))
  }

  function RewriteAll(jobs: seq<Job>, m: map<Name, seq<Name>>): (r: seq<Job>)
    ensures |r| == |jobs| && forall i :: 0 <= i < |r| ==> r[i] == Rewrite(jobs[i], m)
  {
    seq(|jobs|, i requires 0 <= i < |jobs| => Rewrite(jobs[i], m))
  }

  function Phase2(jobs: seq<Job>): seq<Job> {
    RewriteAll(AllVariants(jobs), ExpansionMap(jobs))
  }

  predicate SomeMatrix(jobs: seq<Job>) {
    exists j :: j in jobs && j.matrix.Some?
  }

  ghost predicate MatricesValid(jobs: seq<Job>) {
    jobs == [] || (MatricesValid(jobs[..|jobs| - 1]) && MatrixValid(jobs[|jobs| - 1]))
  }

  lemma {:induction false} BadPrefix(jobs: seq<Job>, k: nat)
    requires k <= |jobs| && !MatricesValid(jobs[..k])
    ensures !MatricesValid(jobs)
  {
    if k < |jobs| {
      assert jobs[..|jobs| - 1][..k] == jobs[..k];
      BadPrefix(jobs[..|jobs| - 1], k);
    } else {
      assert jobs[..k] == jobs;
    }
  }

  ghost predicate MatrixValid(j: Job) {
    j.matrix.Some? ==> ValidMatrix(j.matrix.value)
  }

  method ExpandJobs(jobs: seq<Job>) returns (r: Result<seq<Job>, ExpandError>)
    ensures !SomeMatrix(jobs) ==> r == Ok(jobs)
    ensures SomeMatrix(jobs) ==> (r.Ok? <==> MatricesValid(jobs))
    ensures SomeMatrix(jobs) && r.Ok? ==> r.value == Phase2(jobs)
  {
    if !SomeMatrix(jobs) {
      return Ok(jobs);
    }
    var each := ExpandEach(jobs);
    if each.Err? {
      return Err(each.error);
    }
    var result := RewriteEach(each.value.expanded, each.value.variantNames);
    return Ok(result);
  }

  lemma VariantsAppend(jobs: seq<Job>, j: Job)
    ensures AllVariants(jobs + [j]) == AllVariants(jobs) + Variants(j)
    ensures MatricesValid(jobs + [j]) <==> MatricesValid(jobs) && MatrixValid(j)
    ensures ExpansionMap(jobs + [j]) == ExpansionMap(jobs)[j.name := NamesOf(Variants(j))]
  {
    FlatMapAppend(jobs, j, Variants);
    assert (jobs + [j])[..|jobs|] == jobs;
  }

  /** What the loop has built of the first jobs. */
  ghost predicate FannedOut(done: seq<Job>, expanded: seq<Job>, m: map<Name, seq<Name>>) {
    m == ExpansionMap(done) && expanded == AllVariants(done) && MatricesValid(done)
  }

  lemma NothingFannedOut()
    ensures FannedOut([], [], map[])
  {
  }

  datatype Fan = Fan(expanded: seq<Job>, variantNames: map<Name, seq<Name>>)

  method ExpandEach(jobs: seq<Job>) returns (r: Result<Fan, ExpandError>)
    ensures r.Ok? <==> MatricesValid(jobs)
    ensures r.Ok? ==> FannedOut(jobs, r.value.expanded, r.value.variantNames)
  {
    var fan: Fan := Fan([], map[]);
    NothingFannedOut();
    for i := 0 to |jobs|
      invariant FannedOut(jobs[..i], fan.expanded, fan.variantNames)
    {
      var next := ExpandNext(jobs[..i], jobs[i], fan);
      assert jobs[..i + 1] == jobs[..i] + [jobs[i]];
      if next.Err? {
        BadPrefix(jobs, i + 1);
        return Err(next.error);
      }
      fan := next.value;
    }
    assert jobs[..|jobs|] == jobs;
    return Ok(fan);
  }

  /** One turn of the loop. */
  method ExpandNext(ghost done: seq<Job>, job: Job, fan: Fan) returns (r: Result<Fan, ExpandError>)
    requires FannedOut(done, fan.expanded, fan.variantNames)
    ensures r.Ok? <==> MatricesValid(done + [job])
    ensures r.Ok? ==> FannedOut(done + [job], r.value.expanded, r.value.variantNames)
  {
    VariantsAppend(done, job);
    var one := ExpandOne(job);
    if one.Err? {
      return Err(one.error);
    }
    return Ok(Fan(fan.expanded + one.value.0, fan.variantNames[job.name := one.value.1]));
  }

  method RewriteEach(expanded: seq<Job>, m: map<Name, seq<Name>>) returns (result: seq<Job>)
    ensures result == RewriteAll(expanded, m)
  {
    result := [];
    for i := 0 to |expanded|
      invariant result == RewriteAll(expanded, m)[..i]
    {
      result := result + [Rewrite(expanded[i], m)];
    }
  }

  method ExpandOne(job: Job) returns (r: Result<(seq<Job>, seq<Name>), ExpandError>)
    ensures r.Ok? <==> MatrixValid(job)
    ensures r.Ok? ==> r.value == (Variants(job), NamesOf(Variants(job)))
  {
    if job.matrix.None? {
      assert NamesOf([job]) == [job.name];
      return Ok(([job], [job.name]));
    }
    var bad := ValidateMatrix(job.matrix.value);
    if bad.Some? {
      return Err(BadMatrix(bad.value));
    }
    ValidMatrixFits(job.matrix.value);
    var product := Combinations(job.matrix.value);
    forall c | c in product.value ensures Unambiguous(c.Keys) {
      ProductIsPlain(job.matrix.value, c);
    }
    var variants, names := ExpandJob(job, product.value);
    return Ok((variants, names));
  }

  method ExpandJob(job: Job, combos: seq<Combo>) returns (variants: seq<Job>, names: seq<Name>)
    requires forall c :: c in combos ==> Unambiguous(c.Keys)
    ensures variants == VariantsFor(job, combos) && names == NamesOf(variants)
  {
    variants, names := [], [];
    for i := 0 to |combos|
      invariant variants == VariantsFor(job, combos)[..i]
      invariant names == NamesOf(variants)
    {
      var v := SubstituteJob(job, combos[i], MATRIX);
      v := v.(name := ExpandedName(job.name, combos[i]), matrix := None,
              matrixValues := Some(Merged(job.matrixValues, combos[i])));
      variants := variants + [v];
      names := names + [variants[i].name];
    }
  }

  function Stage1(jobs: seq<Job>, matrix: Option<seq<Dimension>>): seq<Job> {
    if matrix.None? then jobs else Phase1(jobs, Product(matrix.value))
  }

  /** Expand. */
  method ExpandMatrices(jobs: seq<Job>, matrix: Option<seq<Dimension>>) returns (r: Result<seq<Job>, ExpandError>)
    ensures matrix.None? && !SomeMatrix(jobs) ==> r == Ok(jobs)
    ensures matrix.None? && (forall j :: j in jobs ==> j.matrix.None?) ==> r == Ok(jobs)
    ensures !(matrix.None? && !SomeMatrix(jobs)) ==>
      var first := Stage1(jobs, matrix);
      && (r.Ok? <==>
        && (matrix.Some? ==> ValidMatrix(matrix.value) && !SharesDim(matrix.value, jobs))
        && (SomeMatrix(first) ==> MatricesValid(first)))
      && (r.Ok? ==> r.value == if SomeMatrix(first) then Phase2(first) else first)
  {
    if matrix.None? && !SomeMatrix(jobs) {
      return Ok(jobs);
    }
    var first := ExpandPipeline(jobs, matrix);
    if first.Err? {
      return first;
    }
    r := ExpandJobs(first.value);
  }
}
