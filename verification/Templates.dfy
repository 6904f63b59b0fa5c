/** The phases of expansion and the texts of a job. */
module Templates {
  import opened Prelude
  import opened PipelineModel
  import opened Substitute
  import opened Matrix
  import opened TwoPasses
  import opened Params
  import opened Expand
  import opened ExpansionGraph

  // ---------------------------------------------------------------- the texts of a job

  function ExportTexts(es: seq<Export>): (r: seq<string>)
    ensures |r| == 2 * |es|
  {
    seq(|es|, i requires 0 <= i < |es| => es[i].path) + seq(|es|, i requires 0 <= i < |es| => es[i].local)
  }

  function ArtifactTexts(artifacts: seq<Artifact>): (r: seq<string>)
    ensures |r| == 2 * |artifacts|
  {
    seq(|artifacts|, i requires 0 <= i < |artifacts| => artifacts[i].source)
    + seq(|artifacts|, i requires 0 <= i < |artifacts| => artifacts[i].target)
  }

  function WhenTexts(w: Option<When>): seq<string> {
    match w case None => [] case Some(x) => [x.expression]
  }

  function StepTexts(s: Step): seq<string> {
    s.run + ExportTexts(s.exports) + ArtifactTexts(s.artifacts) + WhenTexts(s.when)
  }

  function StepsTexts(steps: seq<Step>): seq<string> {
    if steps == [] then [] else StepsTexts(steps[..|steps| - 1]) + StepTexts(steps[|steps| - 1])
  }

  function PublishTexts(publish: Option<string>): seq<string> {
    match publish case None => [] case Some(image) => [image]
  }

  /** Every text of the job in which placeholders are replaced, in a fixed order. */
  function JobTexts(j: Job): seq<string> {
    [j.image] + ExportTexts(j.exports) + ArtifactTexts(j.artifacts) + PublishTexts(j.publish) + WhenTexts(j.when)
    + StepsTexts(j.steps)
  }

  function SubstAll(ts: seq<string>, c: Combo): (r: seq<string>)
    ensures |r| == |ts| && forall i :: 0 <= i < |r| ==> r[i] == Subst(ts[i], c, MATRIX)
  {
    seq(|ts|, i requires 0 <= i < |ts| => Subst(ts[i], c, MATRIX))
  }

  lemma SubstAllSum(a: seq<string>, b: seq<string>, c: Combo)
    ensures SubstAll(a + b, c) == SubstAll(a, c) + SubstAll(b, c)
  {
  }

  // ---------------------------------------------------------------- substitution acts on the texts

  lemma ExportsSubst(es: seq<Export>, c: Combo)
    ensures ExportTexts(SubstExports(es, c, MATRIX)) == SubstAll(ExportTexts(es), c)
  {
  }

  lemma ArtifactsSubst(artifacts: seq<Artifact>, c: Combo)
    ensures ArtifactTexts(SubstArtifacts(artifacts, c, MATRIX)) == SubstAll(ArtifactTexts(artifacts), c)
  {
  }

  lemma FourSums(a: seq<string>, b: seq<string>, d: seq<string>, e: seq<string>, c: Combo)
    ensures SubstAll(a + b + d + e, c) == SubstAll(a, c) + SubstAll(b, c) + SubstAll(d, c) + SubstAll(e, c)
  {
  }

  lemma StepSubst(s: Step, c: Combo)
    ensures StepTexts(SubstStep(s, c, MATRIX)) == SubstAll(StepTexts(s), c)
  {
    ExportsSubst(s.exports, c);
    ArtifactsSubst(s.artifacts, c);
    FourSums(s.run, ExportTexts(s.exports), ArtifactTexts(s.artifacts), WhenTexts(s.when), c);
    assert SubstStep(s, c, MATRIX).run == SubstAll(s.run, c);
    assert WhenTexts(SubstWhen(s.when, c, MATRIX)) == SubstAll(WhenTexts(s.when), c);
  }

  lemma {:induction false} StepsSubst(steps: seq<Step>, c: Combo)
    ensures StepsTexts(SubstSteps(steps, c, MATRIX)) == SubstAll(StepsTexts(steps), c)
  {
    if steps != [] {
      var n := |steps| - 1;
      StepsSubst(steps[..n], c);
      StepSubst(steps[n], c);
      assert SubstSteps(steps, c, MATRIX)[..n] == SubstSteps(steps[..n], c, MATRIX);
      SubstAllSum(StepsTexts(steps[..n]), StepTexts(steps[n]), c);
    }
  }

  lemma JobSubst(j: Job, c: Combo)
    ensures JobTexts(SubstituteJobVars(j, c, MATRIX)) == SubstAll(JobTexts(j), c)
  {
    var e, a, p, w, s := ExportTexts(j.exports), ArtifactTexts(j.artifacts), PublishTexts(j.publish), WhenTexts(j.when), StepsTexts(j.steps);
    ExportsSubst(j.exports, c);
    ArtifactsSubst(j.artifacts, c);
    StepsSubst(j.steps, c);
    FourSums([j.image], e, a, p, c);
    SubstAllSum([j.image] + e + a + p, w, c);
    SubstAllSum([j.image] + e + a + p + w, s, c);
    SubstitutedParts(j, c);
  }

  lemma SubstitutedParts(j: Job, c: Combo)
    ensures var r := SubstituteJobVars(j, c, MATRIX);
      && r.steps == SubstSteps(j.steps, c, MATRIX) && [r.image] == SubstAll([j.image], c)
      && r.exports == SubstExports(j.exports, c, MATRIX) && r.artifacts == SubstArtifacts(j.artifacts, c, MATRIX)
      && PublishTexts(r.publish) == SubstAll(PublishTexts(j.publish), c)
      && WhenTexts(r.when) == SubstAll(WhenTexts(j.when), c)
  {
  }

  // ---------------------------------------------------------------- references are not texts

  /** The jobs differ at most in names and references. */
  ghost predicate SameTexts(a: Job, b: Job) {
    && a.image == b.image && a.exports == b.exports && a.publish == b.publish && a.when == b.when
    && ArtifactTexts(a.artifacts) == ArtifactTexts(b.artifacts) && |a.steps| == |b.steps|
    && forall n :: 0 <= n < |a.steps| ==> SameStepTexts(a.steps[n], b.steps[n])
  }

  ghost predicate SameStepTexts(s: Step, t: Step) {
    s.run == t.run && s.exports == t.exports && s.when == t.when && ArtifactTexts(s.artifacts) == ArtifactTexts(t.artifacts)
  }

  lemma {:induction false} SameStepsTexts(a: seq<Step>, b: seq<Step>)
    requires |a| == |b| && forall n :: 0 <= n < |a| ==> SameStepTexts(a[n], b[n])
    ensures StepsTexts(a) == StepsTexts(b)
  {
    if a != [] {
      SameStepsTexts(a[..|a| - 1], b[..|b| - 1]);
    }
  }

  lemma SameJobTexts(a: Job, b: Job)
    requires SameTexts(a, b)
    ensures JobTexts(a) == JobTexts(b)
  {
    SameStepsTexts(a.steps, b.steps);
  }

  lemma CorrelatedTexts(artifacts: seq<Artifact>, c: Combo)
    ensures ArtifactTexts(CorrelateArtifacts(artifacts, c)) == ArtifactTexts(artifacts)
  {
  }

  lemma RewrittenTexts(artifacts: seq<Artifact>, m: map<Name, seq<Name>>)
    ensures ArtifactTexts(RewriteArtifacts(artifacts, m)) == ArtifactTexts(artifacts)
  {
  }

  lemma ReplicaTexts(j: Job, c: Combo)
    ensures JobTexts(Replica(j, c)) == SubstAll(JobTexts(j), c)
  {
    var r := SubstituteJobVars(j, c, MATRIX);
    CorrelatedTexts(r.artifacts, c);
    forall n | 0 <= n < |r.steps| ensures SameStepTexts(Replica(j, c).steps[n], r.steps[n]) {
      CorrelatedTexts(r.steps[n].artifacts, c);
    }
    SameJobTexts(Replica(j, c), r);
    JobSubst(j, c);
  }

  lemma VariantTexts(j: Job, c: Combo)
    ensures JobTexts(Variant(j, c)) == SubstAll(JobTexts(j), c)
  {
    SameJobTexts(Variant(j, c), SubstituteJobVars(j, c, MATRIX));
    JobSubst(j, c);
  }

  lemma RewriteKeepsTexts(x: Job, m: map<Name, seq<Name>>)
    ensures JobTexts(Rewrite(x, m)) == JobTexts(x)
  {
    RewrittenTexts(x.artifacts, m);
    forall n | 0 <= n < |x.steps| ensures SameStepTexts(Rewrite(x, m).steps[n], x.steps[n]) {
      RewrittenTexts(x.steps[n].artifacts, m);
    }
    SameJobTexts(Rewrite(x, m), x);
  }

  lemma SubstNone(ts: seq<string>)
    ensures SubstAll(ts, map[]) == ts
  {
    forall i | 0 <= i < |ts| ensures SubstAll(ts, map[])[i] == ts[i] {
      SubstNothing(ts[i], map[], MATRIX);
    }
  }

  lemma StagedTexts(j: Job, p: Choice)
    ensures JobTexts(Staged(j, p)) == SubstAll(JobTexts(j), Values(p))
  {
    if p.None? {
      SubstNone(JobTexts(j));
    } else {
      ReplicaTexts(j, p.value);
    }
  }

  lemma FannedTexts(s: Job, q: Choice)
    ensures JobTexts(Fanned(s, q)) == SubstAll(JobTexts(s), Values(q))
  {
    if q.None? {
      SubstNone(JobTexts(s));
    } else {
      VariantTexts(s, q.value);
    }
  }

  // ---------------------------------------------------------------- both phases

  ghost predicate NoneNested(ts: seq<string>) {
    forall t :: t in ts ==> !Nested(t, MATRIX)
  }

  lemma TwoPassesOnAll(ts: seq<string>, c1: Combo, c2: Combo)
    requires NoneNested(ts) && SafeValues(c1, MATRIX) && PlainKeysIn(c1) && PlainKeysIn(c2) && c1.Keys !! c2.Keys
    ensures SubstAll(SubstAll(ts, c1), c2) == SubstAll(ts, c1 + c2)
  {
    forall i | 0 <= i < |ts| ensures SubstAll(SubstAll(ts, c1), c2)[i] == SubstAll(ts, c1 + c2)[i] {
      assert ts[i] in ts;
      TwoPassesAreOne(ts[i], c1, c2, MATRIX);
    }
  }

  /** Every template text of the original job, in the job and in its steps, reaches its variant as if
      both phases' values had been substituted at once, and the variant records both phases' values. */
  lemma VariantTemplate(jobs: seq<Job>, matrix: Option<seq<Dimension>>, j: Job, p: Choice, q: Choice)
    requires Expandable(jobs, matrix) && IsTag(jobs, matrix, j, p, q)
    requires NoneNested(JobTexts(j)) && SafeValues(Values(p), MATRIX)
    requires j.matrixValues.None?
    ensures var x := Rewrite(Fanned(Staged(j, p), q), ExpansionMap(Stage1(jobs, matrix)));
      && JobTexts(x) == SubstAll(JobTexts(j), Values(p) + Values(q))
      && (p.Some? || q.Some? ==> x.matrixValues == Some(Values(p) + Values(q)))
  {
    TagFacts(jobs, matrix, j, p, q);
    ChoiceKeysArePlain(matrix, p);
    ChoiceKeysArePlain(StagedMatrix(j, p), q);
    RewriteKeepsTexts(Fanned(Staged(j, p), q), ExpansionMap(Stage1(jobs, matrix)));
    FannedTexts(Staged(j, p), q);
    StagedTexts(j, p);
    TwoPassesOnAll(JobTexts(j), Values(p), Values(q));
    RecordedValues(j, p, q);
  }

  lemma RecordedValues(j: Job, p: Choice, q: Choice)
    requires j.matrixValues.None?
    ensures p.Some? || q.Some? ==> Fanned(Staged(j, p), q).matrixValues == Some(Values(p) + Values(q))
  {
    var none: Combo := map[];
    assert Values(p) + none == Values(p) && none + Values(q) == Values(q);
  }

  /** An artifact that names no source names none after expansion. */
  lemma SourcelessStays(jobs: seq<Job>, matrix: Option<seq<Dimension>>, j: Job, p: Choice, q: Choice, i: nat)
    requires i < |j.artifacts| && j.artifacts[i].from == ""
    ensures var x := Rewrite(Fanned(Staged(j, p), q), ExpansionMap(Stage1(jobs, matrix)));
      i < |x.artifacts| && x.artifacts[i].from == ""
  {
    var s := Staged(j, p);
    assert i < |s.artifacts| && s.artifacts[i].from == "";
    var v := Fanned(s, q);
    assert i < |v.artifacts| && v.artifacts[i].from == "";
  }

  // ---------------------------------------------------------------- the matrix of a job is a template too

  /** q gives each dimension one of its values, with the pipeline's choice p filled in. */
  ghost predicate PicksFilledIn(dims: seq<Dimension>, p: Combo, q: Combo) {
    && (forall k :: k in q <==> HasDim(dims, k))
    && (forall d :: d in dims ==> d.name in q && FillsIn(d.values, p, q[d.name]))
  }

  ghost predicate FillsIn(values: seq<string>, p: Combo, text: string) {
    exists v :: v in values && text == Subst(v, p, MATRIX)
  }

  lemma FilledIn(a: seq<string>, b: seq<string>, p: Combo, text: string)
    requires TextsBecome(a, b, p, MATRIX)
    ensures text in b <==> FillsIn(a, p, text)
  {
    if text in b {
      var i :| 0 <= i < |b| && b[i] == text;
      assert a[i] in a;
    }
    if FillsIn(a, p, text) {
      var v :| v in a && text == Subst(v, p, MATRIX);
      var i :| 0 <= i < |a| && a[i] == v;
      assert b[i] in b;
    }
  }

  lemma FilledInDims(a: seq<Dimension>, b: seq<Dimension>, p: Combo, q: Combo)
    requires MatrixBecomes(Some(a), Some(b), p, MATRIX)
    ensures IsChoice(b, q) <==> PicksFilledIn(a, p, q)
  {
    forall k ensures HasDim(b, k) <==> HasDim(a, k) {
      if HasDim(a, k) {
        var d :| d in a && d.name == k;
        var i :| 0 <= i < |a| && a[i] == d;
        assert b[i] in b;
      }
      if HasDim(b, k) {
        var d :| d in b && d.name == k;
        var i :| 0 <= i < |b| && b[i] == d;
        assert a[i] in a;
      }
    }
    forall i, text | 0 <= i < |a| ensures text in b[i].values <==> FillsIn(a[i].values, p, text) {
      FilledIn(a[i].values, b[i].values, p, text);
    }
    if PicksFilledIn(a, p, q) {
      forall d | d in b ensures d.name in q && q[d.name] in d.values {
        var i :| 0 <= i < |b| && b[i] == d;
        assert a[i] in a;
      }
    }
    if IsChoice(b, q) {
      forall d | d in a ensures d.name in q && FillsIn(d.values, p, q[d.name]) {
        var i :| 0 <= i < |a| && a[i] == d;
        assert b[i] in b;
      }
    }
  }

  /** Phase 2 fans a job out over its own matrix with the pipeline's values filled in: by exactly one
      variant for each choice of one filled-in value per dimension, or none without a matrix. */
  lemma ChoicesAreFilledIn(j: Job, p: Choice, q: Choice)
    requires j.matrix.Some? ==> UniqueDims(j.matrix.value)
    ensures Chooses(Staged(j, p).matrix, q) <==>
      match j.matrix
      case None => q.None?
      case Some(dims) => q.Some? && PicksFilledIn(dims, Values(p), q.value)
  {
    if j.matrix.Some? {
      var b := Staged(j, p).matrix;
      if p.None? {
        NothingBecomesItself(j, MATRIX);
      } else {
        JobIsSubstituted(j, p.value, MATRIX);
      }
      assert MatrixBecomes(j.matrix, b, Values(p), MATRIX);
      if q.Some? {
        SameDimNames(j.matrix.value, b.value, Values(p));
        ProductIsAllChoices(b.value, q.value);
        FilledInDims(j.matrix.value, b.value, Values(p), q.value);
      }
    }
  }

  lemma SameDimNames(a: seq<Dimension>, b: seq<Dimension>, p: Combo)
    requires MatrixBecomes(Some(a), Some(b), p, MATRIX) && UniqueDims(a)
    ensures UniqueDims(b)
  {
  }

  /** So the tags of the expansion are: a job, a choice of the pipeline's matrix, and a filled-in choice
      of the job's own. */
  lemma TagsExactly(jobs: seq<Job>, matrix: Option<seq<Dimension>>, j: Job, p: Choice, q: Choice)
    requires Expandable(jobs, matrix) && (j.matrix.Some? ==> UniqueDims(j.matrix.value))
    ensures IsTag(jobs, matrix, j, p, q) <==>
      && j in jobs
      && (matrix.None? ==> p.None?)
      && (matrix.Some? ==> p.Some? && IsChoice(matrix.value, p.value))
      && (j.matrix.None? ==> q.None?)
      && (j.matrix.Some? ==> q.Some? && PicksFilledIn(j.matrix.value, Values(p), q.value))
  {
    StagedMatrixIs(j, p);
    ChoicesAreFilledIn(j, p, q);
    if matrix.Some? && p.Some? {
      ProductIsAllChoices(matrix.value, p.value);
    }
  }

  predicate SameKind(a: Option<When>, b: Option<When>) {
    a.Some? == b.Some? && (a.Some? ==> a.value.deferred == b.value.deferred)
  }

  ghost predicate SameRest(j: Job, x: Job) {
    && |x.steps| == |j.steps|
    && (forall n :: 0 <= n < |j.steps| ==> x.steps[n].name == j.steps[n].name && SameKind(x.steps[n].when, j.steps[n].when))
    && SameKind(x.when, j.when) && x.publish.Some? == j.publish.Some?
  }

  lemma SubstitutionKeepsRest(j: Job, c: Combo)
    ensures SameRest(j, SubstituteJobVars(j, c, MATRIX))
  {
  }

  lemma ReplicaKeepsRest(j: Job, c: Combo)
    ensures SameRest(j, Replica(j, c))
  {
    SubstitutionKeepsRest(j, c);
  }

  lemma VariantKeeps(j: Job, c: Combo)
    ensures SameRest(j, Variant(j, c)) && Variant(j, c).matrix.None?
  {
    SubstitutionKeepsRest(j, c);
  }

  lemma RewriteKeepsRest(j: Job, m: map<Name, seq<Name>>)
    ensures SameRest(j, Rewrite(j, m)) && Rewrite(j, m).matrix == j.matrix
  {
  }

  /** Whatever is neither text nor name nor reference reaches the variant as it is, and the variant has
      no matrix left. */
  lemma VariantKeepsRest(jobs: seq<Job>, matrix: Option<seq<Dimension>>, j: Job, p: Choice, q: Choice)
    requires IsTag(jobs, matrix, j, p, q)
    ensures var x := Rewrite(Fanned(Staged(j, p), q), ExpansionMap(Stage1(jobs, matrix)));
      x.matrix.None? && SameRest(j, x)
  {
    var s := Staged(j, p);
    var v := Fanned(s, q);
    var x := Rewrite(v, ExpansionMap(Stage1(jobs, matrix)));
    StagedKeepsRest(j, p);
    StagedMatrixIs(j, p);
    FannedKeepsRest(s, q);
    RewriteKeepsRest(v, ExpansionMap(Stage1(jobs, matrix)));
    RestStays(j, s, v);
    RestStays(j, v, x);
  }

  lemma StagedKeepsRest(j: Job, p: Choice)
    ensures SameRest(j, Staged(j, p))
  {
    if p.Some? {
      ReplicaKeepsRest(j, p.value);
    }
  }

  lemma FannedKeepsRest(s: Job, q: Choice)
    requires Chooses(s.matrix, q)
    ensures SameRest(s, Fanned(s, q)) && Fanned(s, q).matrix.None?
  {
    if q.Some? {
      VariantKeeps(s, q.value);
    }
  }

  lemma RestStays(a: Job, b: Job, c: Job)
    requires SameRest(a, b) && SameRest(b, c)
    ensures SameRest(a, c)
  {
  }
}
