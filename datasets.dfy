/** Gridded datasets as the processor handles them: a longitude axis, a latitude
    axis, and named data variables sampled at every (longitude, latitude) cell. */
module Datasets {
  import opened Outcomes

  /** One sample of a data variable; None stands for a missing (NaN) value. */
  type Sample = Option<real>

  /** The first dimension of a variable's array, whose length is what `len` of
      the variable gives: a non-spatial one (time, depth) of a fixed size, or
      one of the two spatial axes, whose size is that of the dataset's axis. */
  datatype Leading = NonSpatial(size: nat) | Longitude | Latitude

  /** A data variable: cells[i][j] holds all samples at longitude index i and
      latitude index j, across the non-spatial dimensions. `rest` is the
      product of the sizes of the non-spatial dimensions other than the
      leading one (1 when there are none). */
  datatype Variable = Variable(leading: Leading, rest: nat, cells: seq<seq<seq<Sample>>>)

  datatype Dataset = Dataset(lon: seq<real>, lat: seq<real>, vars: map<string, Variable>)

  /** How many samples one (longitude, latitude) cell of the variable holds:
      the product of the sizes of all its non-spatial dimensions. */
  function CellSize(v: Variable): nat {
    match v.leading
    case NonSpatial(size) => size * v.rest
    case _ => v.rest
  }

  /** The variable is an n x m grid of cells of CellSize(v) samples each. */
  predicate Shaped(v: Variable, n: nat, m: nat) {
    && |v.cells| == n
    && (forall i :: 0 <= i < n ==> |v.cells[i]| == m)
    && (forall i, j :: 0 <= i < n && 0 <= j < m ==> |v.cells[i][j]| == CellSize(v))
  }

  /** Every variable is laid out on the dataset's longitude x latitude grid,
      with the same number of samples in every cell. */
  predicate WellFormed(d: Dataset) {
    forall name :: name in d.vars ==> Shaped(d.vars[name], |d.lon|, |d.lat|)
  }

  /** The product of the sizes of every dimension of the variable except
      its first one. */
  function OtherSize(d: Dataset, name: string): nat
    requires name in d.vars
  {
    var v := d.vars[name];
    match v.leading
    case NonSpatial(_) => |d.lon| * |d.lat| * v.rest
    case Longitude => |d.lat| * v.rest
    case Latitude => |d.lon| * v.rest
  }

  /** `len(ds[name])`: the length of the variable's first dimension, that is,
      the number of its samples divided by the sizes of its other dimensions. */
  function LeadingLength(d: Dataset, name: string): (r: nat)
    requires name in d.vars
    ensures WellFormed(d) ==> |Samples(d.vars[name])| == r * OtherSize(d, name)
  {
    var v := d.vars[name];
    var n, m := |d.lon|, |d.lat|;
    SampleTotal(v, n, m);
    match v.leading
    case NonSpatial(size) =>
      assert n * m * (size * v.rest) == size * (n * m * v.rest);
      size
    case Longitude =>
      assert n * m * v.rest == n * (m * v.rest);
      n
    case Latitude =>
      assert n * m * v.rest == m * (n * v.rest);
      m
  }

  function Min(a: nat, b: nat): nat {
    if a <= b then a else b
  }

  predicate InRange(ix: seq<nat>, n: nat) {
    forall a :: 0 <= a < |ix| ==> ix[a] < n
  }

  /** The indices 0, 1, ..., n - 1: a `slice(None, n)` as an index list. */
  function Range(n: nat): (r: seq<nat>)
    ensures |r| == n && forall a :: 0 <= a < n ==> r[a] == a
  {
    seq(n, a => a)
  }

  function SelectVariable(v: Variable, lonIx: seq<nat>, latIx: seq<nat>, n: nat, m: nat): Variable
    requires Shaped(v, n, m) && InRange(lonIx, n) && InRange(latIx, m)
  {
    Variable(v.leading, v.rest,
      seq(|lonIx|, a requires 0 <= a < |lonIx| =>
        seq(|latIx|, b requires 0 <= b < |latIx| => v.cells[lonIx[a]][latIx[b]])))
  }

  /** `isel(longitude=lonIx, latitude=latIx)`: orthogonal indexing. The result is the
      |lonIx| x |latIx| grid whose cell (a, b) is the original cell (lonIx[a], latIx[b]);
      repeated indices are kept, not merged. */
  function Select(d: Dataset, lonIx: seq<nat>, latIx: seq<nat>): (r: Dataset)
    requires WellFormed(d) && InRange(lonIx, |d.lon|) && InRange(latIx, |d.lat|)
    ensures WellFormed(r)
    ensures |r.lon| == |lonIx| && |r.lat| == |latIx| && r.vars.Keys == d.vars.Keys
    ensures forall a :: 0 <= a < |lonIx| ==> r.lon[a] == d.lon[lonIx[a]]
    ensures forall b :: 0 <= b < |latIx| ==> r.lat[b] == d.lat[latIx[b]]
    ensures forall name :: name in r.vars ==>
              r.vars[name].leading == d.vars[name].leading && r.vars[name].rest == d.vars[name].rest
    ensures forall name, a, b :: name in r.vars && 0 <= a < |lonIx| && 0 <= b < |latIx| ==>
              r.vars[name].cells[a][b] == d.vars[name].cells[lonIx[a]][latIx[b]]
  {
    var vars := map name | name in d.vars :: SelectVariable(d.vars[name], lonIx, latIx, |d.lon|, |d.lat|);
    assert vars.Keys == d.vars.Keys;
    Dataset(seq(|lonIx|, a requires 0 <= a < |lonIx| => d.lon[lonIx[a]]),
            seq(|latIx|, b requires 0 <= b < |latIx| => d.lat[latIx[b]]),
            vars)
  }

  /** A variable with every sample present keeps that in any selection,
      whose cells are cells of the original grid. */
  lemma SelectKeepsAllPresent(d: Dataset, lonIx: seq<nat>, latIx: seq<nat>, name: string)
    requires WellFormed(d) && InRange(lonIx, |d.lon|) && InRange(latIx, |d.lat|)
    requires name in d.vars && AllPresent(d.vars[name])
    ensures AllPresent(Select(d, lonIx, latIx).vars[name])
  {
    var v := d.vars[name];
    var w := Select(d, lonIx, latIx).vars[name];
    assert Shaped(w, |lonIx|, |latIx|);
    forall a, b, k | 0 <= a < |w.cells| && 0 <= b < |w.cells[a]| && 0 <= k < |w.cells[a][b]|
      ensures w.cells[a][b][k].Some?
    {
      assert w.cells[a][b] == v.cells[lonIx[a]][latIx[b]];
    }
  }

  /** The dataset after its longer axis is cropped to the length of the shorter
      one (the first branch that applies: longitude, then latitude). */
  function Normalized(d: Dataset): (r: Dataset)
    requires WellFormed(d)
    ensures WellFormed(r)
    ensures |r.lon| == |r.lat| == Min(|d.lon|, |d.lat|)
    ensures r.lon == d.lon[..|r.lon|] && r.lat == d.lat[..|r.lat|]
    ensures r.vars.Keys == d.vars.Keys
    ensures forall name :: name in r.vars ==>
              r.vars[name].leading == d.vars[name].leading && r.vars[name].rest == d.vars[name].rest
    ensures forall name, i, j :: name in r.vars && 0 <= i < |r.lon| && 0 <= j < |r.lat| ==>
              r.vars[name].cells[i][j] == d.vars[name].cells[i][j]
    ensures |d.lon| == |d.lat| ==> r == d
  {
    var minDim := Min(|d.lon|, |d.lat|);
    if minDim < |d.lon| then Select(d, Range(minDim), Range(|d.lat|))
    else if minDim < |d.lat| then Select(d, Range(|d.lon|), Range(minDim))
    else d
  }

  /** The rows of xss one after the other (`np.ravel` of a grid, or the
      samples of a variable flattened across its dimensions). */
  function Flatten<T>(xss: seq<seq<T>>): seq<T> {
    if xss == [] then [] else xss[0] + Flatten(xss[1..])
  }

  /** Flattening keeps every element of every row. */
  lemma {:induction false} FlattenContains<T>(xss: seq<seq<T>>, i: nat, k: nat)
    requires i < |xss| && k < |xss[i]|
    ensures xss[i][k] in Flatten(xss)
  {
    if i > 0 {
      FlattenContains(xss[1..], i - 1, k);
    }
  }

  /** Flattening adds nothing: each element comes from some row. */
  lemma {:induction false} FlattenOrigin<T>(xss: seq<seq<T>>, x: T) returns (i: nat, k: nat)
    requires x in Flatten(xss)
    ensures i < |xss| && k < |xss[i]| && xss[i][k] == x
  {
    if x in xss[0] {
      i := 0;
      k :| 0 <= k < |xss[0]| && xss[0][k] == x;
    } else {
      var i', k' := FlattenOrigin(xss[1..], x);
      i, k := i' + 1, k';
    }
  }

  lemma {:induction false} FlattenLength<T>(xss: seq<seq<T>>, m: nat)
    requires forall i :: 0 <= i < |xss| ==> |xss[i]| == m
    ensures |Flatten(xss)| == |xss| * m
  {
    if xss != [] {
      FlattenLength(xss[1..], m);
      var rows := |xss| - 1;
      assert |Flatten(xss)| == m + rows * m;
      assert m + rows * m == (rows + 1) * m;
    }
  }

  /** `np.count_nonzero(~np.isnan(s))`: the number of samples that are present. */
  function ValidCount(s: seq<Sample>): (c: nat)
    ensures c <= |s|
    ensures c == 0 <==> forall k :: 0 <= k < |s| ==> s[k].None?
    ensures c == |s| <==> forall k :: 0 <= k < |s| ==> s[k].Some?
  {
    if s == [] then 0 else (if s[0].Some? then 1 else 0) + ValidCount(s[1..])
  }

  /** All samples of a variable, flattened across all of its dimensions. */
  function Samples(v: Variable): seq<Sample> {
    Flatten(Flatten(v.cells))
  }

  /** A variable of shape n x m x CellSize(v) has n * m * CellSize(v) samples. */
  lemma SampleTotal(v: Variable, n: nat, m: nat)
    ensures Shaped(v, n, m) ==> |Samples(v)| == n * m * CellSize(v)
  {
    if Shaped(v, n, m) {
      var rows := Flatten(v.cells);
      FlattenLength(v.cells, m);
      forall c | 0 <= c < |rows| ensures |rows[c]| == CellSize(v) {
        var i, j := FlattenOrigin(v.cells, rows[c]);
      }
      FlattenLength(rows, CellSize(v));
    }
  }

  /** A property holds of every flattened sample exactly when it holds of
      every sample of every cell. */
  lemma EverySample(v: Variable, p: Sample -> bool)
    ensures (forall t :: 0 <= t < |Samples(v)| ==> p(Samples(v)[t])) <==>
            (forall i, j, k :: 0 <= i < |v.cells| && 0 <= j < |v.cells[i]| && 0 <= k < |v.cells[i][j]| ==>
               p(v.cells[i][j][k]))
  {
    var rows := Flatten(v.cells);
    var samples := Samples(v);
    if forall t :: 0 <= t < |samples| ==> p(samples[t]) {
      forall i, j, k | 0 <= i < |v.cells| && 0 <= j < |v.cells[i]| && 0 <= k < |v.cells[i][j]|
        ensures p(v.cells[i][j][k])
      {
        FlattenContains(v.cells, i, j);
        var c :| 0 <= c < |rows| && rows[c] == v.cells[i][j];
        FlattenContains(rows, c, k);
        var t :| 0 <= t < |samples| && samples[t] == v.cells[i][j][k];
      }
    }
    if forall i, j, k :: 0 <= i < |v.cells| && 0 <= j < |v.cells[i]| && 0 <= k < |v.cells[i][j]| ==>
         p(v.cells[i][j][k])
    {
      forall t | 0 <= t < |samples| ensures p(samples[t]) {
        var c, k := FlattenOrigin(rows, samples[t]);
        var i, j := FlattenOrigin(v.cells, rows[c]);
      }
    }
  }

  /** Every sample of every cell of the variable is missing. */
  predicate AllMissing(v: Variable) {
    forall i, j, k :: 0 <= i < |v.cells| && 0 <= j < |v.cells[i]| && 0 <= k < |v.cells[i][j]| ==>
      v.cells[i][j][k].None?
  }

  /** Every sample of every cell of the variable is present. */
  predicate AllPresent(v: Variable) {
    forall i, j, k :: 0 <= i < |v.cells| && 0 <= j < |v.cells[i]| && 0 <= k < |v.cells[i][j]| ==>
      v.cells[i][j][k].Some?
  }

  /** `np.count_nonzero(~np.isnan(ds[var]))`: the present samples of a
      variable, counted over all of its dimensions. */
  function VariableValidCount(v: Variable): (c: nat)
    ensures c <= |Samples(v)|
    ensures c == 0 <==> AllMissing(v)
    ensures c == |Samples(v)| <==> AllPresent(v)
  {
    EverySample(v, (s: Sample) => s.None?);
    EverySample(v, (s: Sample) => s.Some?);
    ValidCount(Samples(v))
  }
}
