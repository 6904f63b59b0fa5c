/** Build matrices: their validation, and the cartesian product of their dimensions with its overflow guard. */
module Matrix {
  import opened Prelude
  import opened PipelineModel

  datatype MatrixError = EmptyMatrix | InvalidDimName | DuplicateDim | EmptyDimension | MatrixTooLarge

  const MAX_COMBINATIONS: nat := 10_000

  function Count(dims: seq<Dimension>): nat {
    if dims == [] then 1 else Count(dims[..|dims| - 1]) * |dims[|dims| - 1].values|
  }

  function Extend(c: Combo, name: string, values: seq<string>): seq<Combo> {
    seq(|values|, i requires 0 <= i < |values| => c[name := values[i]])
  }

  function ExtendAll(combos: seq<Combo>, d: Dimension): seq<Combo> {
    if combos == [] then []
    else ExtendAll(combos[..|combos| - 1], d) + Extend(combos[|combos| - 1], d.name, d.values)
  }

  /** The cartesian product, the last dimension varying fastest. */
  function Product(dims: seq<Dimension>): seq<Combo> {
    if dims == [] then [map[]] else ExtendAll(Product(dims[..|dims| - 1]), dims[|dims| - 1])
  }

  predicate Overflows(dims: seq<Dimension>) {
    exists k :: 0 <= k <= |dims| && Count(dims[..k]) > MAX_INT64
  }

  /** The counting loop. */
  method CountCombos(dims: seq<Dimension>) returns (total: Option<nat>)
    ensures total == if Overflows(dims) then None else Some(Count(dims))
  {
    var n: nat := 1;
    for i := 0 to |dims|
      invariant n == Count(dims[..i])
      invariant forall k :: 0 <= k <= i ==> Count(dims[..k]) <= MAX_INT64
    {
      assert dims[..i + 1][..i] == dims[..i];
      assert Count(dims[..i + 1]) == n * |dims[i].values|;
      if |dims[i].values| > 0 {
        OverflowGuard(n, |dims[i].values|);
        if n > MAX_INT64 / |dims[i].values| {
          return None;
        }
      }
      n := n * |dims[i].values|;
    }
    assert dims[..|dims|] == dims;
    total := Some(n);
  }

  /** The combos keep their order, and for each the values of the next dimension theirs: the last dimension
      varies fastest. */
  lemma {:induction false} ExtendInOrder(a: seq<Combo>, b: seq<Combo>, d: Dimension)
    ensures ExtendAll(a + b, d) == ExtendAll(a, d) + ExtendAll(b, d)
  {
    if b == [] {
      assert a + b == a;
    } else {
      var n := |b| - 1;
      ExtendInOrder(a, b[..n], d);
      assert (a + b)[..|a| + n] == a + b[..n];
      assert (a + b)[|a| + n] == b[n];
    }
  }

  lemma ExtendOne(c: Combo, d: Dimension)
    ensures |ExtendAll([c], d)| == |d.values|
    ensures forall k :: 0 <= k < |d.values| ==> ExtendAll([c], d)[k] == c[d.name := d.values[k]]
  {
    assert [c][..0] == [];
  }

  /** One round of the product: every combo so far with every value of the next dimension. */
  method ExtendCombos(combos: seq<Combo>, d: Dimension) returns (next: seq<Combo>)
    ensures next == ExtendAll(combos, d)
  {
    next := [];
    for k := 0 to |combos|
      invariant next == ExtendAll(combos[..k], d)
    {
      assert combos[..k + 1][..k] == combos[..k];
      ghost var before := next;
      for v := 0 to |d.values|
        invariant next == before + Extend(combos[k], d.name, d.values[..v])
      {
        next := next + [combos[k][d.name := d.values[v]]];
      }
      assert d.values[..|d.values|] == d.values;
    }
    assert combos[..|combos|] == combos;
  }

  /** Combinations: the product, unless counting it would overflow; no dimensions give no combos. */
  method Combinations(dims: seq<Dimension>) returns (r: Result<seq<Combo>, MatrixError>)
    ensures dims == [] ==> r == Ok([])
    ensures dims != [] ==> r == if Overflows(dims) then Err(MatrixTooLarge) else Ok(Product(dims))
  {
    if dims == [] {
      return Ok([]);
    }
    var total := CountCombos(dims);
    if total.None? {
      return Err(MatrixTooLarge);
    }
    var combos: seq<Combo> := [map[]];
    for i := 0 to |dims|
      invariant combos == Product(dims[..i])
    {
      assert dims[..i + 1][..i] == dims[..i];
      combos := ExtendCombos(combos, dims[i]);
    }
    assert dims[..|dims|] == dims;
    return Ok(combos);
  }

  // ---------------------------------------------------------------- what the product contains

  predicate HasDim(dims: seq<Dimension>, name: string) {
    exists d :: d in dims && d.name == name
  }

  predicate UniqueDims(dims: seq<Dimension>) {
    forall i, j :: 0 <= i < j < |dims| ==> dims[i].name != dims[j].name
  }

  /** c chooses one listed value for every dimension, and nothing else. */
  ghost predicate IsChoice(dims: seq<Dimension>, c: Combo) {
    && (forall k :: k in c <==> HasDim(dims, k))
    && (forall d :: d in dims ==> d.name in c && c[d.name] in d.values)
  }

  ghost predicate ExtendsSome(combos: seq<Combo>, d: Dimension, c: Combo) {
    exists b :: b in combos && ExtendsOne(b, d, c)
  }

  ghost predicate ExtendsOne(b: Combo, d: Dimension, c: Combo) {
    exists v :: v in d.values && c == b[d.name := v]
  }

  lemma ExtendMembers(b: Combo, d: Dimension, c: Combo)
    ensures c in Extend(b, d.name, d.values) <==> ExtendsOne(b, d, c)
  {
    var r := Extend(b, d.name, d.values);
    if c in r {
      var i :| 0 <= i < |r| && r[i] == c;
      assert d.values[i] in d.values;
    }
    if v :| v in d.values && c == b[d.name := v] {
      var i :| 0 <= i < |d.values| && d.values[i] == v;
      assert r[i] == c;
    }
  }

  lemma {:induction false} ExtendAllMembers(combos: seq<Combo>, d: Dimension, c: Combo)
    ensures c in ExtendAll(combos, d) <==> ExtendsSome(combos, d, c)
  {
    if combos != [] {
      var front, last := combos[..|combos| - 1], combos[|combos| - 1];
      ExtendAllMembers(front, d, c);
      ExtendMembers(last, d, c);
      assert combos == front + [last];
    }
  }

  lemma LastChoice(front: seq<Dimension>, d: Dimension, c: Combo)
    requires !HasDim(front, d.name)
    ensures IsChoice(front + [d], c) <==> IsChoice(front, c - {d.name}) && ExtendsOne(c - {d.name}, d, c)
  {
    var dims := front + [d];
    assert forall k :: HasDim(dims, k) <==> HasDim(front, k) || k == d.name by {
      assert forall x :: x in dims <==> x in front || x == d;
    }
    if IsChoice(dims, c) {
      assert c == (c - {d.name})[d.name := c[d.name]];
    }
  }

  lemma BaseOf(front: seq<Dimension>, b: Combo, d: Dimension, c: Combo)
    requires IsChoice(front, b) && !HasDim(front, d.name) && ExtendsOne(b, d, c)
    ensures b == c - {d.name}
  {
    assert d.name !in b;
  }

  /** The product holds exactly the choices. */
  lemma {:induction false} ProductIsAllChoices(dims: seq<Dimension>, c: Combo)
    requires UniqueDims(dims)
    ensures c in Product(dims) <==> IsChoice(dims, c)
  {
    if dims != [] {
      var front, d := dims[..|dims| - 1], dims[|dims| - 1];
      assert dims == front + [d];
      ExtendAllMembers(Product(front), d, c);
      LastChoice(front, d, c);
      ProductIsAllChoices(front, c - {d.name});
      forall b | b in Product(front) && ExtendsOne(b, d, c) ensures b == c - {d.name} {
        ProductIsAllChoices(front, b);
        BaseOf(front, b, d, c);
      }
    }
  }

  lemma {:induction false} ExtendAllCount(combos: seq<Combo>, d: Dimension)
    ensures |ExtendAll(combos, d)| == |combos| * |d.values|
  {
    if combos != [] {
      ExtendAllCount(combos[..|combos| - 1], d);
    }
  }

  lemma {:induction false} ProductCount(dims: seq<Dimension>)
    ensures |Product(dims)| == Count(dims)
  {
    if dims != [] {
      ProductCount(dims[..|dims| - 1]);
      ExtendAllCount(Product(dims[..|dims| - 1]), dims[|dims| - 1]);
    }
  }

  lemma {:induction false} ExtendAllDistinct(combos: seq<Combo>, d: Dimension)
    requires Distinct(combos) && Distinct(d.values)
    requires forall c :: c in combos ==> d.name !in c
    ensures Distinct(ExtendAll(combos, d))
  {
    if combos != [] {
      var front, last := combos[..|combos| - 1], combos[|combos| - 1];
      ExtendAllDistinct(front, d);
      var a, b := ExtendAll(front, d), Extend(last, d.name, d.values);
      forall i, j | 0 <= i < |b| && 0 <= j < i ensures b[i] != b[j] {
        assert b[i][d.name] == d.values[i] && b[j][d.name] == d.values[j];
      }
      forall i, j | 0 <= i < |a| && 0 <= j < |b| ensures a[i] != b[j] {
        ExtendAllMembers(front, d, a[i]);
        var c :| c in front && ExtendsOne(c, d, a[i]);
        assert a[i] - {d.name} == c && b[j] - {d.name} == last;
      }
    }
  }

  /** Distinct dimension names and distinct values per dimension make all combos different. */
  lemma {:induction false} ProductIsDistinct(dims: seq<Dimension>)
    requires UniqueDims(dims) && forall d :: d in dims ==> Distinct(d.values)
    ensures Distinct(Product(dims))
  {
    if dims != [] {
      var front, d := dims[..|dims| - 1], dims[|dims| - 1];
      ProductIsDistinct(front);
      forall c | c in Product(front) ensures d.name !in c {
        ProductIsAllChoices(front, c);
      }
      ExtendAllDistinct(Product(front), d);
    }
  }

  // ---------------------------------------------------------------- ValidateMatrix

  /** The characters of _validDimName. */
  predicate DimChar(c: char) {
    'a' <= c <= 'z' || 'A' <= c <= 'Z' || '0' <= c <= '9' || c == '_' || c == '-'
  }

  predicate ValidDimName(name: string) {
    name != "" && forall i :: 0 <= i < |name| ==> DimChar(name[i])
  }

  predicate ValidDim(d: Dimension) {
    ValidDimName(d.name) && d.values != []
  }

  ghost predicate ValidMatrix(dims: seq<Dimension>) {
    && dims != []
    && (forall d :: d in dims ==> ValidDim(d))
    && UniqueDims(dims)
    && Count(dims) <= MAX_COMBINATIONS
  }

  lemma {:induction false} CountGrows(dims: seq<Dimension>, k: nat)
    requires k <= |dims| && forall d :: d in dims ==> d.values != []
    ensures 1 <= Count(dims[..k]) <= Count(dims)
    decreases |dims|
  {
    if k < |dims| {
      var front, last := dims[..|dims| - 1], dims[|dims| - 1];
      CountGrows(front, k);
      assert front[..k] == dims[..k];
      assert last in dims;
      TimesGrows(Count(front), |last.values|);
    } else {
      assert dims[..k] == dims;
      if dims != [] {
        var front, last := dims[..|dims| - 1], dims[|dims| - 1];
        CountGrows(front, |front|);
        assert front[..|front|] == front && last in dims;
        TimesGrows(Count(front), |last.values|);
      }
    }
  }

  lemma TimesGrows(a: nat, b: nat)
    requires b >= 1
    ensures a * b >= a
  {
  }

  /** Once the count is beyond the limit it stays there, unless a dimension has no values. */
  lemma CountedTooLarge(dims: seq<Dimension>, i: nat)
    requires i <= |dims| && Count(dims[..i]) > MAX_COMBINATIONS
    ensures !ValidMatrix(dims) && FaultIn(dims, MatrixTooLarge)
  {
    if forall d :: d in dims ==> d.values != [] {
      CountGrows(dims, i);
    }
  }

  lemma WrongName(dims: seq<Dimension>, d: Dimension)
    requires d in dims && !ValidDimName(d.name)
    ensures !ValidMatrix(dims) && FaultIn(dims, InvalidDimName)
  {
    if d.name != "" {
      var i :| 0 <= i < |d.name| && !DimChar(d.name[i]);
      assert d.name[i] in d.name;
    }
    assert BadDimName(d.name);
  }

  /** The characters of a dimension name by their codes: digits, letters, underscore and hyphen. */
  lemma DimCharsAre(c: char)
    ensures var u := c as int; DimChar(c) <==> 48 <= u <= 57 || 65 <= u <= 90 || 97 <= u <= 122 || u == 95 || u == 45
  {
  }

  predicate BadDimName(name: string) {
    name == "" || exists c :: c in name && !DimChar(c)
  }

  /** The error names a fault that is there. */
  ghost predicate FaultIn(dims: seq<Dimension>, e: MatrixError) {
    match e
    case EmptyMatrix => dims == []
    case InvalidDimName => exists d :: d in dims && BadDimName(d.name)
    case DuplicateDim => exists i, k :: 0 <= i < k < |dims| && dims[i].name == dims[k].name
    case EmptyDimension => exists d :: d in dims && d.values == []
    case MatrixTooLarge => exists k :: 0 <= k <= |dims| && Count(dims[..k]) > 10_000
  }

  method ValidateMatrix(dims: seq<Dimension>) returns (err: Option<MatrixError>)
    ensures err.None? <==> ValidMatrix(dims)
    ensures err.None? ==> Count(dims) <= 10_000
    ensures err.Some? ==> FaultIn(dims, err.value)
  {
    if dims == [] {
      return Some(EmptyMatrix);
    }
    var seen: set<string>, total: nat := {}, 1;
    for i := 0 to |dims|
      invariant forall k :: 0 <= k < i ==> ValidDimName(dims[k].name) && dims[k].values != []
      invariant forall n :: n in seen <==> exists k :: 0 <= k < i && dims[k].name == n
      invariant UniqueDims(dims[..i])
      invariant total == Count(dims[..i]) <= MAX_COMBINATIONS
    {
      var d := dims[i];
      assert d in dims;
      if !ValidDimName(d.name) {
        WrongName(dims, d);
        return Some(InvalidDimName);
      }
      if d.name in seen {
        return Some(DuplicateDim);
      }
      seen := seen + {d.name};
      if d.values == [] {
        return Some(EmptyDimension);
      }
      assert dims[..i + 1][..i] == dims[..i];
      total := total * |d.values|;
      if total > MAX_COMBINATIONS {
        CountedTooLarge(dims, i + 1);
        return Some(MatrixTooLarge);
      }
    }
    assert dims[..|dims|] == dims;
    return None;
  }

  /** A validated matrix never trips the overflow guard. */
  lemma ValidMatrixFits(dims: seq<Dimension>)
    requires ValidMatrix(dims)
    ensures !Overflows(dims) && Product(dims) != []
  {
    forall k | 0 <= k <= |dims| ensures Count(dims[..k]) <= MAX_INT64 {
      CountGrows(dims, k);
    }
    ProductCount(dims);
    CountGrows(dims, 0);
  }
}
