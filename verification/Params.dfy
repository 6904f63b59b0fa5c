/** Fragment parameters: checking what is provided, resolving the defaults, and substituting values into the jobs. */
module Params {
  import opened Prelude
  import opened PipelineModel
  import opened Substitute

  const PARAM := "param."

  // ---------------------------------------------------------------- resolving parameters

  datatype ParamDef = ParamDef(name: string, default: string, required: bool)

  datatype ParamError = DuplicateParam(name: string) | MissingParam(name: string) | UnknownParam(name: string)

  predicate Declares(defs: seq<ParamDef>, n: string) {
    exists i :: 0 <= i < |defs| && defs[i].name == n
  }

  ghost predicate DistinctParams(defs: seq<ParamDef>) {
    forall i, j :: 0 <= i < j < |defs| ==> defs[i].name != defs[j].name
  }

  /** Declared once each, the required ones provided, and nothing else provided. */
  ghost predicate ParamsFit(defs: seq<ParamDef>, provided: Combo) {
    && DistinctParams(defs)
    && (forall i :: 0 <= i < |defs| && defs[i].required ==> defs[i].name in provided)
    && (forall k :: k in provided ==> Declares(defs, k))
  }

  ghost predicate Faults(e: ParamError, defs: seq<ParamDef>, provided: Combo) {
    match e
    case DuplicateParam(n) => exists i, j :: 0 <= i < j < |defs| && defs[i].name == defs[j].name == n
    case MissingParam(n) => exists i :: 0 <= i < |defs| && defs[i].name == n && defs[i].required && n !in provided
    case UnknownParam(n) => n in provided && !Declares(defs, n)
  }

  method ValidateParams(defs: seq<ParamDef>, provided: Combo) returns (e: Option<ParamError>)
    ensures e.None? <==> ParamsFit(defs, provided)
    ensures e.Some? ==> Faults(e.value, defs, provided)
  {
    var known: set<string> := {};
    for i := 0 to |defs|
      invariant forall n :: n in known <==> exists m :: 0 <= m < i && defs[m].name == n
      invariant forall m, k :: 0 <= m < k < i ==> defs[m].name != defs[k].name
      invariant forall m :: 0 <= m < i && defs[m].required ==> defs[m].name in provided
    {
      if defs[i].name in known {
        return Some(DuplicateParam(defs[i].name));
      }
      known := known + {defs[i].name};
      if defs[i].required && defs[i].name !in provided {
        return Some(MissingParam(defs[i].name));
      }
    }
    var rest := provided.Keys;
    while rest != {}
      invariant rest <= provided.Keys
      invariant forall k :: k in provided.Keys - rest ==> Declares(defs, k)
    {
      var k :| k in rest;
      if k !in known {
        return Some(UnknownParam(k));
      }
      rest := rest - {k};
    }
    e := None;
  }

  function ParamValue(d: ParamDef, provided: Combo): string {
    if d.name in provided then provided[d.name] else d.default
  }

  function ResolvedParams(defs: seq<ParamDef>, provided: Combo): Combo {
    if defs == [] then map[]
    else var d := defs[|defs| - 1]; ResolvedParams(defs[..|defs| - 1], provided)[d.name := ParamValue(d, provided)]
  }

  /** The provided value, or without one the default. */
  predicate Binds(m: Combo, d: ParamDef, provided: Combo) {
    && d.name in m
    && (d.name in provided ==> m[d.name] == provided[d.name])
    && (d.name !in provided ==> m[d.name] == d.default)
  }

  ghost predicate BindsExactly(m: Combo, defs: seq<ParamDef>, provided: Combo) {
    && (forall n :: n in m <==> Declares(defs, n))
    && (forall i :: 0 <= i < |defs| ==> Binds(m, defs[i], provided))
  }

  /** Every declared parameter gets its provided value, or else its default; nothing else is bound. */
  lemma {:induction false} ResolvedParamsExactly(defs: seq<ParamDef>, provided: Combo)
    requires DistinctParams(defs)
    ensures BindsExactly(ResolvedParams(defs, provided), defs, provided)
  {
    if defs != [] {
      var front, last := defs[..|defs| - 1], defs[|defs| - 1];
      ResolvedParamsExactly(front, provided);
      forall n ensures Declares(defs, n) <==> Declares(front, n) || n == last.name {
        if Declares(front, n) {
          var i :| 0 <= i < |front| && front[i].name == n;
          assert defs[i].name == n;
        }
        if n == last.name {
          assert defs[|defs| - 1].name == n;
        }
      }
      forall i | 0 <= i < |defs|
        ensures Binds(ResolvedParams(defs, provided), defs[i], provided)
      {
        assert i < |front| ==> front[i] == defs[i] && Declares(front, defs[i].name);
      }
    }
  }

  method ResolveParams(defs: seq<ParamDef>, provided: Combo) returns (r: Result<Combo, ParamError>)
    ensures r.Ok? <==> ParamsFit(defs, provided)
    ensures r.Ok? ==> r.value == ResolvedParams(defs, provided) && BindsExactly(r.value, defs, provided)
    ensures r.Err? <==>
      || (exists i, k :: 0 <= i < k < |defs| && defs[i].name == defs[k].name)
      || (exists i :: 0 <= i < |defs| && defs[i].required && defs[i].name !in provided)
      || (exists k :: k in provided && forall i :: 0 <= i < |defs| ==> defs[i].name != k)
    ensures r.Err? ==> Faults(r.error, defs, provided)
  {
    var e := ValidateParams(defs, provided);
    if e.Some? {
      return Err(e.value);
    }
    var resolved: Combo := map[];
    for i := 0 to |defs|
      invariant resolved == ResolvedParams(defs[..i], provided)
    {
      assert defs[..i + 1][..i] == defs[..i];
      if defs[i].name in provided {
        resolved := resolved[defs[i].name := provided[defs[i].name]];
      } else {
        resolved := resolved[defs[i].name := defs[i].default];
      }
    }
    assert defs[..|defs|] == defs;
    ResolvedParamsExactly(defs, provided);
    return Ok(resolved);
  }

  // ---------------------------------------------------------------- substitution in jobs

  function SubstTexts(texts: seq<string>, c: Combo, prefix: string): (r: seq<string>)
    ensures |r| == |texts| && forall i :: 0 <= i < |r| ==> r[i] == Subst(texts[i], c, prefix)
  {
    seq(|texts|, i requires 0 <= i < |texts| => Subst(texts[i], c, prefix))
  }

  function SubstExport(e: Export, c: Combo, prefix: string): Export {
    Export(Subst(e.path, c, prefix), Subst(e.local, c, prefix))
  }

  function SubstExports(es: seq<Export>, c: Combo, prefix: string): (r: seq<Export>)
    ensures |r| == |es| && forall i :: 0 <= i < |r| ==> r[i] == SubstExport(es[i], c, prefix)
  {
    seq(|es|, i requires 0 <= i < |es| => SubstExport(es[i], c, prefix))
  }

  function SubstArtifact(a: Artifact, c: Combo, prefix: string): Artifact {
    a.(source := Subst(a.source, c, prefix), target := Subst(a.target, c, prefix))
  }

  function SubstArtifacts(artifacts: seq<Artifact>, c: Combo, prefix: string): (r: seq<Artifact>)
    ensures |r| == |artifacts| && forall i :: 0 <= i < |r| ==> r[i] == SubstArtifact(artifacts[i], c, prefix)
  {
    seq(|artifacts|, i requires 0 <= i < |artifacts| => SubstArtifact(artifacts[i], c, prefix))
  }

  function SubstWhen(w: Option<When>, c: Combo, prefix: string): Option<When> {
    match w case None => None case Some(x) => Some(x.(expression := Subst(x.expression, c, prefix)))
  }

  function SubstStep(s: Step, c: Combo, prefix: string): Step {
    s.(run := SubstTexts(s.run, c, prefix),
       exports := SubstExports(s.exports, c, prefix),
       artifacts := SubstArtifacts(s.artifacts, c, prefix),
       when := SubstWhen(s.when, c, prefix))
  }

  function SubstDim(d: Dimension, c: Combo, prefix: string): Dimension {
    d.(values := SubstTexts(d.values, c, prefix))
  }

  function SubstDims(dims: seq<Dimension>, c: Combo, prefix: string): (r: seq<Dimension>)
    ensures |r| == |dims| && forall i :: 0 <= i < |r| ==> r[i] == SubstDim(dims[i], c, prefix)
  {
    seq(|dims|, i requires 0 <= i < |dims| => SubstDim(dims[i], c, prefix))
  }

  function SubstMatrix(m: Option<seq<Dimension>>, c: Combo, prefix: string): Option<seq<Dimension>> {
    match m case None => None case Some(dims) => Some(SubstDims(dims, c, prefix))
  }

  function SubstSteps(steps: seq<Step>, c: Combo, prefix: string): (r: seq<Step>)
    ensures |r| == |steps| && forall i :: 0 <= i < |r| ==> r[i] == SubstStep(steps[i], c, prefix)
  {
    seq(|steps|, i requires 0 <= i < |steps| => SubstStep(steps[i], c, prefix))
  }

  function SubstPublish(p: Option<string>, c: Combo, prefix: string): Option<string> {
    match p case None => None case Some(image) => Some(Subst(image, c, prefix))
  }

  /** substituteJobVars: the job with every ${prefix.key} of its text fields replaced; names and
      dependencies are not text fields. */
  function SubstituteJobVars(j: Job, c: Combo, prefix: string): Job {
    j.(image := Subst(j.image, c, prefix),
       exports := SubstExports(j.exports, c, prefix),
       artifacts := SubstArtifacts(j.artifacts, c, prefix),
       publish := SubstPublish(j.publish, c, prefix),
       steps := SubstSteps(j.steps, c, prefix),
       when := SubstWhen(j.when, c, prefix),
       matrix := SubstMatrix(j.matrix, c, prefix))
  }

  function SubstituteParams(jobs: seq<Job>, params: Combo): seq<Job> {
    if params == map[] then jobs
    else seq(|jobs|, i requires 0 <= i < |jobs| => SubstituteJobVars(jobs[i], params, PARAM))
  }

  // ---------------------------------------------------------------- what substitution does, field by field

  ghost predicate TextsBecome(a: seq<string>, b: seq<string>, c: Combo, prefix: string) {
    |b| == |a| && forall i :: 0 <= i < |a| ==> b[i] == Subst(a[i], c, prefix)
  }

  ghost predicate ExportsBecome(a: seq<Export>, b: seq<Export>, c: Combo, prefix: string) {
    |b| == |a| && forall i :: 0 <= i < |a| ==>
      b[i].path == Subst(a[i].path, c, prefix) && b[i].local == Subst(a[i].local, c, prefix)
  }

  ghost predicate ArtifactsBecome(a: seq<Artifact>, b: seq<Artifact>, c: Combo, prefix: string) {
    |b| == |a| && forall i :: 0 <= i < |a| ==>
      && b[i].from == a[i].from
      && b[i].source == Subst(a[i].source, c, prefix) && b[i].target == Subst(a[i].target, c, prefix)
  }

  ghost predicate WhenBecomes(a: Option<When>, b: Option<When>, c: Combo, prefix: string) {
    match a
    case None => b.None?
    case Some(x) => b.Some? && b.value.deferred == x.deferred && b.value.expression == Subst(x.expression, c, prefix)
  }

  ghost predicate MatrixBecomes(a: Option<seq<Dimension>>, b: Option<seq<Dimension>>, c: Combo, prefix: string) {
    match a
    case None => b.None?
    case Some(dims) => b.Some? && |b.value| == |dims| && forall i :: 0 <= i < |dims| ==>
      b.value[i].name == dims[i].name && TextsBecome(dims[i].values, b.value[i].values, c, prefix)
  }

  ghost predicate StepBecomes(a: Step, b: Step, c: Combo, prefix: string) {
    && b.name == a.name
    && TextsBecome(a.run, b.run, c, prefix)
    && ExportsBecome(a.exports, b.exports, c, prefix)
    && ArtifactsBecome(a.artifacts, b.artifacts, c, prefix)
    && WhenBecomes(a.when, b.when, c, prefix)
  }

  ghost predicate StepsBecome(a: seq<Step>, b: seq<Step>, c: Combo, prefix: string) {
    |b| == |a| && forall i :: 0 <= i < |a| ==> StepBecomes(a[i], b[i], c, prefix)
  }

  /** b is a with every placeholder of every text replaced, and nothing else changed. */
  ghost predicate JobBecomes(a: Job, b: Job, c: Combo, prefix: string) {
    && b.name == a.name && b.deps == a.deps && b.matrixValues == a.matrixValues
    && b.image == Subst(a.image, c, prefix)
    && ExportsBecome(a.exports, b.exports, c, prefix)
    && ArtifactsBecome(a.artifacts, b.artifacts, c, prefix)
    && (a.publish.None? ==> b.publish.None?)
    && (a.publish.Some? ==> b.publish == Some(Subst(a.publish.value, c, prefix)))
    && WhenBecomes(a.when, b.when, c, prefix)
    && MatrixBecomes(a.matrix, b.matrix, c, prefix)
    && StepsBecome(a.steps, b.steps, c, prefix)
  }

  lemma StepIsSubstituted(s: Step, c: Combo, prefix: string)
    ensures StepBecomes(s, SubstStep(s, c, prefix), c, prefix)
  {
  }

  /** A parameter is written ${param.name} in the texts. */
  lemma ParamIsWritten(name: string, value: string)
    requires PlainKey(name)
    ensures Subst("${param." + name + "}", map[name := value], PARAM) == value
  {
    LoneKey(name, value, PARAM);
    assert "${" + "param." + name + "}" == "${param." + name + "}";
  }

  lemma LoneKey(name: string, value: string, prefix: string)
    requires PlainKey(name)
    ensures Subst("${" + prefix + name + "}", map[name := value], prefix) == value
  {
    var s := Placeholder(prefix, name);
    assert s[..|s|] == s && s[|s|..] == "";
    KeyAtPlaceholder(s, map[name := value], prefix, name);
  }

  /** Substitution reaches every text of the job and of its steps, and nothing else. */
  lemma JobIsSubstituted(j: Job, c: Combo, prefix: string)
    ensures JobBecomes(j, SubstituteJobVars(j, c, prefix), c, prefix)
  {
    var r := SubstituteJobVars(j, c, prefix);
    forall i | 0 <= i < |j.steps| ensures StepBecomes(j.steps[i], r.steps[i], c, prefix) {
      StepIsSubstituted(j.steps[i], c, prefix);
    }
    if j.matrix.Some? {
      forall i | 0 <= i < |j.matrix.value|
        ensures TextsBecome(j.matrix.value[i].values, r.matrix.value[i].values, c, prefix)
      {
        assert r.matrix.value[i] == SubstDim(j.matrix.value[i], c, prefix);
      }
    }
  }

  /** So it does for parameters, and without any parameters nothing changes. */
  lemma JobsAreSubstituted(jobs: seq<Job>, params: Combo, i: nat)
    requires i < |jobs|
    ensures |SubstituteParams(jobs, params)| == |jobs|
    ensures JobBecomes(jobs[i], SubstituteParams(jobs, params)[i], params, PARAM)
  {
    JobIsSubstituted(jobs[i], params, PARAM);
    if params == map[] {
      NothingBecomesItself(jobs[i], PARAM);
    }
  }

  lemma NothingBecomesItself(j: Job, prefix: string)
    ensures JobBecomes(j, j, map[], prefix)
  {
    forall t ensures Subst(t, map[], prefix) == t {
      SubstNothing(t, map[], prefix);
    }
  }

  // ---------------------------------------------------------------- the loops over a job's texts

  method SubstituteTexts(texts: seq<string>, c: Combo, prefix: string) returns (r: seq<string>)
    requires Unambiguous(c.Keys)
    ensures r == SubstTexts(texts, c, prefix)
  {
    r := [];
    for i := 0 to |texts|
      invariant r == SubstTexts(texts, c, prefix)[..i]
    {
      var text := SubstituteVars(texts[i], c, prefix);
      r := r + [text];
    }
  }

  method SubstituteExports(es: seq<Export>, c: Combo, prefix: string) returns (r: seq<Export>)
    requires Unambiguous(c.Keys)
    ensures r == SubstExports(es, c, prefix)
  {
    r := [];
    for i := 0 to |es|
      invariant r == SubstExports(es, c, prefix)[..i]
    {
      var path := SubstituteVars(es[i].path, c, prefix);
      var local := SubstituteVars(es[i].local, c, prefix);
      r := r + [Export(path, local)];
    }
  }

  method SubstituteArtifacts(artifacts: seq<Artifact>, c: Combo, prefix: string) returns (r: seq<Artifact>)
    requires Unambiguous(c.Keys)
    ensures r == SubstArtifacts(artifacts, c, prefix)
  {
    r := [];
    for i := 0 to |artifacts|
      invariant r == SubstArtifacts(artifacts, c, prefix)[..i]
    {
      var source := SubstituteVars(artifacts[i].source, c, prefix);
      var target := SubstituteVars(artifacts[i].target, c, prefix);
      r := r + [artifacts[i].(source := source, target := target)];
    }
  }

  method SubstituteWhen(w: Option<When>, c: Combo, prefix: string) returns (r: Option<When>)
    requires Unambiguous(c.Keys)
    ensures r == SubstWhen(w, c, prefix)
  {
    r := None;
    if w.Some? {
      var expression := SubstituteVars(w.value.expression, c, prefix);
      r := Some(w.value.(expression := expression));
    }
  }

  method SubstituteMatrix(m: Option<seq<Dimension>>, c: Combo, prefix: string) returns (r: Option<seq<Dimension>>)
    requires Unambiguous(c.Keys)
    ensures r == SubstMatrix(m, c, prefix)
  {
    if m.None? {
      return None;
    }
    var dims: seq<Dimension> := [];
    for i := 0 to |m.value|
      invariant dims == SubstDims(m.value, c, prefix)[..i]
    {
      var values := SubstituteTexts(m.value[i].values, c, prefix);
      dims := dims + [m.value[i].(values := values)];
    }
    assert dims == SubstDims(m.value, c, prefix);
    return Some(dims);
  }

  method SubstituteStepFields(s: Step, c: Combo, prefix: string) returns (r: Step)
    requires Unambiguous(c.Keys)
    ensures r == SubstStep(s, c, prefix)
  {
    var run := SubstituteTexts(s.run, c, prefix);
    var exports := SubstituteExports(s.exports, c, prefix);
    var artifacts := SubstituteArtifacts(s.artifacts, c, prefix);
    var when := SubstituteWhen(s.when, c, prefix);
    r := s.(run := run, exports := exports, artifacts := artifacts, when := when);
  }

  method SubstituteJob(j: Job, c: Combo, prefix: string) returns (r: Job)
    requires Unambiguous(c.Keys)
    ensures r == SubstituteJobVars(j, c, prefix) && JobBecomes(j, r, c, prefix)
  {
    var image := SubstituteVars(j.image, c, prefix);
    var matrix := SubstituteMatrix(j.matrix, c, prefix);
    var exports := SubstituteExports(j.exports, c, prefix);
    var artifacts := SubstituteArtifacts(j.artifacts, c, prefix);
    var publish := j.publish;
    if publish.Some? {
      var text := SubstituteVars(publish.value, c, prefix);
      publish := Some(text);
    }
    var when := SubstituteWhen(j.when, c, prefix);
    var steps: seq<Step> := [];
    for i := 0 to |j.steps|
      invariant steps == SubstSteps(j.steps, c, prefix)[..i]
    {
      var step := SubstituteStepFields(j.steps[i], c, prefix);
      steps := steps + [step];
    }
    JobIsSubstituted(j, c, prefix);
    r := j.(image := image, exports := exports, artifacts := artifacts, publish := publish, steps := steps,
            when := when, matrix := matrix);
  }

  /** SubstituteParams: every text is substituted with the parameters listed anew, in whatever order. */
  method SubstituteJobs(jobs: seq<Job>, params: Combo) returns (r: seq<Job>)
    requires Unambiguous(params.Keys)
    ensures r == SubstituteParams(jobs, params)
    ensures |r| == |jobs| && forall i :: 0 <= i < |jobs| ==> JobBecomes(jobs[i], r[i], params, PARAM)
  {
    forall i | 0 <= i < |jobs| ensures JobBecomes(jobs[i], SubstituteParams(jobs, params)[i], params, PARAM) {
      JobsAreSubstituted(jobs, params, i);
    }
    if |params| == 0 {
      return jobs;
    }
    r := [];
    for i := 0 to |jobs|
      invariant r == SubstituteParams(jobs, params)[..i]
    {
      var j := SubstituteJob(jobs[i], params, PARAM);
      r := r + [j];
    }
  }

  /** No parameter's name, with a closing brace behind it, begins another's. */
  ghost predicate NamesUnambiguous(defs: seq<ParamDef>) {
    forall i, k :: 0 <= i < |defs| && 0 <= k < |defs| && defs[i].name != defs[k].name ==>
      !StartsWith(defs[k].name, defs[i].name + "}")
  }

  lemma ResolvedUnambiguous(defs: seq<ParamDef>, provided: Combo)
    requires DistinctParams(defs) && NamesUnambiguous(defs)
    ensures Unambiguous(ResolvedParams(defs, provided).Keys)
  {
    ResolvedParamsExactly(defs, provided);
  }

  // ---------------------------------------------------------------- the graph is left alone

  /** Substituting parameters leaves the name graph of the jobs, hence its terminal jobs, alone. */
  lemma SubstituteParamsKeepsGraph(jobs: seq<Job>, params: Combo)
    ensures |SubstituteParams(jobs, params)| == |jobs|
    ensures forall i :: 0 <= i < |jobs| ==>
      SubstituteParams(jobs, params)[i].name == jobs[i].name && SubstituteParams(jobs, params)[i].deps == jobs[i].deps
    ensures DepGraph(SubstituteParams(jobs, params)) == DepGraph(jobs)
  {
    SameNamesSameGraph(jobs, SubstituteParams(jobs, params));
  }

  lemma {:induction false} SameNamesSameGraph(a: seq<Job>, b: seq<Job>)
    requires |a| == |b| && forall i :: 0 <= i < |a| ==> a[i].name == b[i].name && a[i].deps == b[i].deps
    ensures DepGraph(a) == DepGraph(b)
  {
    if a != [] {
      SameNamesSameGraph(a[..|a| - 1], b[..|b| - 1]);
    }
  }
}
