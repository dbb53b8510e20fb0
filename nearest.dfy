/** The nearest-valid-point scan: distances from a query point to every grid
    cell, cells grouped by equal distance, and groups tried from nearest to
    farthest until one passes the validity gate. */
module NearestPoint {
  import opened Outcomes
  import opened Datasets
  import opened Sorting
  import opened Validity

  /** A grid cell: (longitude index, latitude index). */
  type Cell = (nat, nat)

  function Square(x: real): real {
    x * x
  }

  /** Squared planar distance; the square root is left out because it is
      monotone and so changes neither the order nor equality of distances. */
  function SquaredDistance(x: real, y: real, qx: real, qy: real): real {
    Square(x - qx) + Square(y - qy)
  }

  predicate Rectangular(g: seq<seq<real>>, n: nat, m: nat) {
    |g| == n && forall i :: 0 <= i < n ==> |g[i]| == m
  }

  /** The distance of cell (i, j) pairs longitude i with latitude j of the
      projected copy (the outer sum of the two 1-D axes). */
  function DistanceGrid(utm: Dataset, qx: real, qy: real): (g: seq<seq<real>>)
    ensures Rectangular(g, |utm.lon|, |utm.lat|)
    ensures forall i, j :: 0 <= i < |g| && 0 <= j < |g[i]| ==>
              g[i][j] == SquaredDistance(utm.lon[i], utm.lat[j], qx, qy)
  {
    seq(|utm.lon|, i requires 0 <= i < |utm.lon| =>
      seq(|utm.lat|, j requires 0 <= j < |utm.lat| => SquaredDistance(utm.lon[i], utm.lat[j], qx, qy)))
  }

  /** Row-major order on cells, the order in which `np.where` lists them. */
  predicate RowMajorBefore(c: Cell, e: Cell) {
    c.0 < e.0 || (c.0 == e.0 && c.1 < e.1)
  }

  /** The cells (i, j), j >= from, of row i whose distance is d, left to right. */
  function RowMatches(row: seq<real>, i: nat, d: real, from: nat): (r: seq<Cell>)
    requires from <= |row|
    ensures forall p :: 0 <= p < |r| ==> r[p].0 == i && from <= r[p].1 < |row| && row[r[p].1] == d
    ensures forall b {:trigger (i, b) in r} :: from <= b < |row| && row[b] == d ==> (i, b) in r
    ensures forall p, q :: 0 <= p < q < |r| ==> r[p].1 < r[q].1
    decreases |row| - from
  {
    if from == |row| then []
    else
      var rest := RowMatches(row, i, d, from + 1);
      if row[from] == d then [(i, from)] + rest else rest
  }

  /** `np.where(dist == d)` from row `from` on: every cell at distance d,
      in row-major order, each exactly once. */
  function Matches(g: seq<seq<real>>, d: real, from: nat): (r: seq<Cell>)
    requires from <= |g|
    ensures forall p :: 0 <= p < |r| ==> from <= r[p].0 < |g| && r[p].1 < |g[r[p].0]| && g[r[p].0][r[p].1] == d
    ensures forall a, b {:trigger (a, b) in r} :: from <= a < |g| && 0 <= b < |g[a]| && g[a][b] == d ==> (a, b) in r
    ensures forall p, q :: 0 <= p < q < |r| ==> RowMajorBefore(r[p], r[q])
    decreases |g| - from
  {
    if from == |g| then []
    else
      var row := RowMatches(g[from], from, d, 0);
      var rest := Matches(g, d, from + 1);
      assert forall a, b :: from < a < |g| && 0 <= b < |g[a]| && g[a][b] == d ==> (a, b) in rest;
      row + rest
  }

  /** The first components of the cells (`idx_point[0]`). */
  function LonIndices(cells: seq<Cell>): (r: seq<nat>)
    ensures |r| == |cells| && forall p :: 0 <= p < |r| ==> r[p] == cells[p].0
  {
    seq(|cells|, p requires 0 <= p < |cells| => cells[p].0)
  }

  /** The second components of the cells (`idx_point[1]`). */
  function LatIndices(cells: seq<Cell>): (r: seq<nat>)
    ensures |r| == |cells| && forall p :: 0 <= p < |r| ==> r[p] == cells[p].1
  {
    seq(|cells|, p requires 0 <= p < |cells| => cells[p].1)
  }

  /** The distance grid fits the dataset the selection is drawn from. */
  predicate Fits(ds: Dataset, g: seq<seq<real>>) {
    WellFormed(ds) && Rectangular(g, |ds.lon|, |ds.lat|)
  }

  /** The selection tried for distance d: the dataset indexed orthogonally by
      the longitude indices and the latitude indices of the cells at distance d.
      For c such cells it is c x c; its diagonal holds those cells in row-major
      order, and cell (a, b) pairs the longitude of the a-th with the latitude
      of the b-th, so off-diagonal cells need not lie at distance d. */
  function GroupSelection(ds: Dataset, g: seq<seq<real>>, d: real): (r: Dataset)
    requires Fits(ds, g)
    ensures var cells := Matches(g, d, 0);
      && WellFormed(r)
      && |r.lon| == |r.lat| == |cells|
      && (forall a :: 0 <= a < |cells| ==> r.lon[a] == ds.lon[cells[a].0] && r.lat[a] == ds.lat[cells[a].1])
      && r.vars.Keys == ds.vars.Keys
      && (forall name :: name in r.vars ==>
            r.vars[name].leading == ds.vars[name].leading && r.vars[name].rest == ds.vars[name].rest)
      && (forall name, a, b :: name in r.vars && 0 <= a < |cells| && 0 <= b < |cells| ==>
            r.vars[name].cells[a][b] == ds.vars[name].cells[cells[a].0][cells[b].1])
  {
    var cells := Matches(g, d, 0);
    Select(ds, LonIndices(cells), LatIndices(cells))
  }

  function GroupCheck(ds: Dataset, g: seq<seq<real>>, variables: seq<string>, d: real): Result<bool>
    requires Fits(ds, g)
  {
    AllVariablesValid(variables, GroupSelection(ds, g, d))
  }

  /** The gate's outcome for each distance of `order`, in scan order. */
  function GateOutcomes(ds: Dataset, g: seq<seq<real>>, variables: seq<string>, order: seq<real>): (r: seq<Result<bool>>)
    requires Fits(ds, g)
    ensures |r| == |order|
  {
    if order == [] then []
    else [GroupCheck(ds, g, variables, order[0])] + GateOutcomes(ds, g, variables, order[1..])
  }

  /** The outcome at position t is the gate on the group of the t-th distance. */
  lemma {:induction false} GateOutcomeAt(ds: Dataset, g: seq<seq<real>>, variables: seq<string>, order: seq<real>, t: nat)
    requires Fits(ds, g) && t < |order|
    ensures GateOutcomes(ds, g, variables, order)[t] == GroupCheck(ds, g, variables, order[t])
  {
    if t > 0 {
      GateOutcomeAt(ds, g, variables, order[1..], t - 1);
    }
  }

  /** Where a scan over these outcomes starting at k stops: at the first one
      that is not a quiet failure (the group passed or the gate raised), or at
      the last one when every group failed. */
  function StopIndex(outcomes: seq<Result<bool>>, k: nat): (r: nat)
    requires k < |outcomes|
    ensures k <= r < |outcomes|
    ensures forall t :: k <= t < r ==> outcomes[t] == Ok(false)
    ensures r < |outcomes| - 1 ==> outcomes[r] != Ok(false)
    decreases |outcomes| - k
  {
    if k == |outcomes| - 1 || outcomes[k] != Ok(false) then k
    else StopIndex(outcomes, k + 1)
  }

  /** Every outcome before position k is a quiet failure. */
  predicate FailsBefore(outcomes: seq<Result<bool>>, k: nat)
    requires k <= |outcomes|
  {
    k == 0 || (outcomes[k - 1] == Ok(false) && FailsBefore(outcomes, k - 1))
  }

  /** The recursive record read as a statement about each position. */
  lemma {:induction false} FailsBeforeAll(outcomes: seq<Result<bool>>, k: nat)
    requires k <= |outcomes| && FailsBefore(outcomes, k)
    ensures forall t :: 0 <= t < k ==> outcomes[t] == Ok(false)
  {
    if k > 0 {
      FailsBeforeAll(outcomes, k - 1);
    }
  }

  /** The converse: outcomes that all fail quietly before k are recorded so. */
  lemma {:induction false} AllFailBefore(outcomes: seq<Result<bool>>, k: nat)
    requires k <= |outcomes| && forall t :: 0 <= t < k ==> outcomes[t] == Ok(false)
    ensures FailsBefore(outcomes, k)
  {
    if k > 0 {
      AllFailBefore(outcomes, k - 1);
    }
  }

  /** When every outcome is a quiet failure, the scan stops at the last one. */
  lemma NoStopBeforeLast(outcomes: seq<Result<bool>>, last: nat)
    requires last == |outcomes| - 1 && forall t :: 0 <= t < |outcomes| ==> outcomes[t] == Ok(false)
    ensures FailsBefore(outcomes, last) && outcomes[last] == Ok(false)
    ensures StopIndex(outcomes, 0) == last
  {
    AllFailBefore(outcomes, last);
    StopsAt(outcomes, last);
  }

  /** A scan whose outcomes before k are all quiet failures, and whose
      outcome at k is not or is the last, stops at k. */
  lemma StopsAt(outcomes: seq<Result<bool>>, k: nat)
    requires k < |outcomes| && forall t :: 0 <= t < k ==> outcomes[t] == Ok(false)
    requires k == |outcomes| - 1 || outcomes[k] != Ok(false)
    ensures StopIndex(outcomes, 0) == k
  {
  }

  /** On an ascending order, the scan stops at the distance of a passing
      entry when every entry at a strictly smaller distance failed. */
  lemma StopAtNearestPassing(order: seq<real>, outcomes: seq<Result<bool>>, t: nat)
    requires Sorted(order) && |outcomes| == |order| && t < |order| && outcomes[t] == Ok(true)
    requires forall u :: 0 <= u < |order| && order[u] < order[t] ==> outcomes[u] == Ok(false)
    ensures order[StopIndex(outcomes, 0)] == order[t]
  {
    var k := StopIndex(outcomes, 0);
    assert k <= t;
    assert order[k] <= order[t];
  }

  /** On an ascending order, every entry at a distance strictly smaller than
      the one the scan stops at is a quiet failure. */
  lemma BeforeStopFails(order: seq<real>, outcomes: seq<Result<bool>>, t: nat)
    requires Sorted(order) && |outcomes| == |order| && t < |order|
    requires order[t] < order[StopIndex(outcomes, 0)]
    ensures outcomes[t] == Ok(false)
  {
    var k := StopIndex(outcomes, 0);
    assert t < k;
  }

  /** The order of the scan: every cell's distance, duplicates included,
      ascending (`np.sort(np.ravel(dist))`). */
  function ScanOrder(utm: Dataset, qx: real, qy: real): (order: seq<real>)
    ensures Sorted(order)
    ensures |order| == |utm.lon| * |utm.lat|
    ensures multiset(order) == multiset(Flatten(DistanceGrid(utm, qx, qy)))
  {
    var g := DistanceGrid(utm, qx, qy);
    FlattenLength(g, |utm.lat|);
    Sort(Flatten(g))
  }

  /** The two datasets share one index space: `ds` (geographic) gives the
      selection, `utm` (projected) gives the distances. */
  predicate Aligned(ds: Dataset, utm: Dataset) {
    WellFormed(ds) && |utm.lon| == |ds.lon| && |utm.lat| == |ds.lat|
  }

  /** The distance at which the scan stops. */
  function ChosenDistance(ds: Dataset, utm: Dataset, variables: seq<string>, qx: real, qy: real): real
    requires Aligned(ds, utm) && |ds.lon| > 0 && |ds.lat| > 0
  {
    var order := ScanOrder(utm, qx, qy);
    order[StopIndex(GateOutcomes(ds, DistanceGrid(utm, qx, qy), variables, order), 0)]
  }

  /** `find_valid_points`: the selection for the chosen distance, or the error
      its gate raised; on an empty grid, NoCandidates. */
  function Resolve(ds: Dataset, utm: Dataset, variables: seq<string>, qx: real, qy: real): (r: Result<Dataset>)
    requires Aligned(ds, utm)
    ensures r == Err(NoCandidates) <==> |ds.lon| == 0 || |ds.lat| == 0
  {
    if |ds.lon| == 0 || |ds.lat| == 0 then Err(NoCandidates)
    else
      var sel := GroupSelection(ds, DistanceGrid(utm, qx, qy), ChosenDistance(ds, utm, variables, qx, qy));
      match AllVariablesValid(variables, sel)
      case Err(e) => Err(e)
      case Ok(_) => Ok(sel)
  }

  /** The scan stops at position k of the scan order exactly when every
      earlier group failed and the group at k did not fail or is the last;
      the outcome is then that group's selection, or the error its gate raised. */
  lemma ResolveStopsAt(ds: Dataset, utm: Dataset, variables: seq<string>, qx: real, qy: real, k: nat)
    requires Aligned(ds, utm)
    requires var outcomes := GateOutcomes(ds, DistanceGrid(utm, qx, qy), variables, ScanOrder(utm, qx, qy));
      && k < |outcomes|
      && FailsBefore(outcomes, k)
      && (k == |outcomes| - 1 || outcomes[k] != Ok(false))
    ensures var order := ScanOrder(utm, qx, qy); var g := DistanceGrid(utm, qx, qy);
      Resolve(ds, utm, variables, qx, qy) ==
        match GateOutcomes(ds, g, variables, order)[k]
        case Err(e) => Err(e)
        case Ok(_) => Ok(GroupSelection(ds, g, order[k]))
    ensures |ds.lon| > 0 && |ds.lat| > 0 && ChosenDistance(ds, utm, variables, qx, qy) == ScanOrder(utm, qx, qy)[k]
  {
    var order := ScanOrder(utm, qx, qy);
    var g := DistanceGrid(utm, qx, qy);
    var outcomes := GateOutcomes(ds, g, variables, order);
    FailsBeforeAll(outcomes, k);
    StopsAt(outcomes, k);
    GateOutcomeAt(ds, g, variables, order, k);
    assert ChosenDistance(ds, utm, variables, qx, qy) == order[k];
  }

  /** Every element of the scan order is the distance of some cell, and
      every cell's distance is in the scan order. */
  lemma OrderCell(utm: Dataset, qx: real, qy: real, x: real) returns (i: nat, j: nat)
    requires x in ScanOrder(utm, qx, qy)
    ensures i < |utm.lon| && j < |utm.lat| && DistanceGrid(utm, qx, qy)[i][j] == x
  {
    var g := DistanceGrid(utm, qx, qy);
    assert x in multiset(ScanOrder(utm, qx, qy));
    assert x in Flatten(g);
    i, j := FlattenOrigin(g, x);
  }

  lemma CellInOrder(utm: Dataset, qx: real, qy: real, i: nat, j: nat) returns (t: nat)
    requires i < |utm.lon| && j < |utm.lat|
    ensures t < |ScanOrder(utm, qx, qy)| && ScanOrder(utm, qx, qy)[t] == DistanceGrid(utm, qx, qy)[i][j]
  {
    var g := DistanceGrid(utm, qx, qy);
    FlattenContains(g, i, j);
    assert g[i][j] in multiset(Flatten(g));
    assert g[i][j] in ScanOrder(utm, qx, qy);
    t :| 0 <= t < |ScanOrder(utm, qx, qy)| && ScanOrder(utm, qx, qy)[t] == g[i][j];
  }

  lemma {:induction false} RowMatchCount(row: seq<real>, i: nat, d: real, from: nat)
    requires from <= |row|
    ensures multiset(row[from..])[d] == |RowMatches(row, i, d, from)|
    decreases |row| - from
  {
    if from < |row| {
      RowMatchCount(row, i, d, from + 1);
      assert row[from..] == [row[from]] + row[from + 1..];
      assert multiset(row[from..]) == multiset{row[from]} + multiset(row[from + 1..]);
      var rest := RowMatches(row, i, d, from + 1);
      if row[from] == d {
        assert RowMatches(row, i, d, from) == [(i, from)] + rest;
      } else {
        assert RowMatches(row, i, d, from) == rest;
      }
    }
  }

  lemma {:induction false} MatchCount(g: seq<seq<real>>, d: real, from: nat)
    requires from <= |g|
    ensures multiset(Flatten(g[from..]))[d] == |Matches(g, d, from)|
    decreases |g| - from
  {
    if from < |g| {
      MatchCount(g, d, from + 1);
      RowMatchCount(g[from], from, d, 0);
      assert g[from..][1..] == g[from + 1..];
      assert g[from][0..] == g[from];
    }
  }

  /** Equal distances are not merged in the scan order: a distance shared by
      c cells occurs c times, so the same group is selected and checked again
      at each occurrence. */
  lemma ScanRepeatsSharedDistance(utm: Dataset, qx: real, qy: real, d: real)
    ensures multiset(ScanOrder(utm, qx, qy))[d] == |Matches(DistanceGrid(utm, qx, qy), d, 0)|
  {
    var g := DistanceGrid(utm, qx, qy);
    MatchCount(g, d, 0);
    assert g[0..] == g;
  }

  /** The gate fails, without raising, on the group at the distance of cell (a, b). */
  predicate FailsAt(ds: Dataset, utm: Dataset, variables: seq<string>, qx: real, qy: real, a: nat, b: nat)
    requires Aligned(ds, utm) && a < |ds.lon| && b < |ds.lat|
  {
    var g := DistanceGrid(utm, qx, qy);
    GroupCheck(ds, g, variables, g[a][b]) == Ok(false)
  }

  /** The scan order runs from the smallest cell distance to the largest. */
  lemma WithinOrder(utm: Dataset, qx: real, qy: real, i: nat, j: nat)
    requires i < |utm.lon| && j < |utm.lat|
    ensures var order := ScanOrder(utm, qx, qy);
      order[0] <= DistanceGrid(utm, qx, qy)[i][j] <= order[|order| - 1]
  {
    var t := CellInOrder(utm, qx, qy, i, j);
  }

  /** The chosen distance is the distance of a grid cell, and the group of
      every strictly nearer distance failed the gate. */
  lemma NearerGroupsFail(ds: Dataset, utm: Dataset, variables: seq<string>, qx: real, qy: real, i: nat, j: nat)
    requires Aligned(ds, utm) && i < |ds.lon| && j < |ds.lat|
    requires DistanceGrid(utm, qx, qy)[i][j] < ChosenDistance(ds, utm, variables, qx, qy)
    ensures exists a, b ::
              0 <= a < |ds.lon| && 0 <= b < |ds.lat| &&
              DistanceGrid(utm, qx, qy)[a][b] == ChosenDistance(ds, utm, variables, qx, qy)
    ensures GroupCheck(ds, DistanceGrid(utm, qx, qy), variables, DistanceGrid(utm, qx, qy)[i][j]) == Ok(false)
  {
    var g := DistanceGrid(utm, qx, qy);
    var order := ScanOrder(utm, qx, qy);
    var outcomes := GateOutcomes(ds, g, variables, order);
    var k := StopIndex(outcomes, 0);
    assert order[k] in order;
    var a, b := OrderCell(utm, qx, qy, order[k]);
    assert g[a][b] == ChosenDistance(ds, utm, variables, qx, qy);
    var t := CellInOrder(utm, qx, qy, i, j);
    BeforeStopFails(order, outcomes, t);
    GateOutcomeAt(ds, g, variables, order, t);
  }

  /** If the group of cell (i, j) passes and every strictly nearer group fails,
      the scan returns exactly the group of (i, j): the nearest passing group. */
  lemma ResolveFindsNearestPassingGroup(ds: Dataset, utm: Dataset, variables: seq<string>, qx: real, qy: real, i: nat, j: nat)
    requires Aligned(ds, utm) && i < |ds.lon| && j < |ds.lat|
    requires var g := DistanceGrid(utm, qx, qy); GroupCheck(ds, g, variables, g[i][j]) == Ok(true)
    requires forall a, b {:trigger FailsAt(ds, utm, variables, qx, qy, a, b)} ::
      0 <= a < |ds.lon| && 0 <= b < |ds.lat| && DistanceGrid(utm, qx, qy)[a][b] < DistanceGrid(utm, qx, qy)[i][j] ==>
        FailsAt(ds, utm, variables, qx, qy, a, b)
    ensures var g := DistanceGrid(utm, qx, qy);
      Resolve(ds, utm, variables, qx, qy) == Ok(GroupSelection(ds, g, g[i][j]))
  {
    var g := DistanceGrid(utm, qx, qy);
    var order := ScanOrder(utm, qx, qy);
    var outcomes := GateOutcomes(ds, g, variables, order);
    var t := CellInOrder(utm, qx, qy, i, j);
    forall u | 0 <= u < |order| && order[u] < order[t] ensures outcomes[u] == Ok(false) {
      assert order[u] in order;
      var a, b := OrderCell(utm, qx, qy, order[u]);
      assert FailsAt(ds, utm, variables, qx, qy, a, b);
      GateOutcomeAt(ds, g, variables, order, u);
    }
    GateOutcomeAt(ds, g, variables, order, t);
    StopAtNearestPassing(order, outcomes, t);
    assert ChosenDistance(ds, utm, variables, qx, qy) == g[i][j];
    assert AllVariablesValid(variables, GroupSelection(ds, g, g[i][j])) == Ok(true);
  }

  /** If every cell's group fails, every outcome of the scan is a quiet failure. */
  lemma AllOutcomesFail(ds: Dataset, utm: Dataset, variables: seq<string>, qx: real, qy: real)
    requires Aligned(ds, utm)
    requires forall a, b {:trigger FailsAt(ds, utm, variables, qx, qy, a, b)} ::
      0 <= a < |ds.lon| && 0 <= b < |ds.lat| ==> FailsAt(ds, utm, variables, qx, qy, a, b)
    ensures forall u :: 0 <= u < |ScanOrder(utm, qx, qy)| ==>
      GateOutcomes(ds, DistanceGrid(utm, qx, qy), variables, ScanOrder(utm, qx, qy))[u] == Ok(false)
  {
    var g := DistanceGrid(utm, qx, qy);
    var order := ScanOrder(utm, qx, qy);
    var outcomes := GateOutcomes(ds, g, variables, order);
    forall u | 0 <= u < |order| ensures outcomes[u] == Ok(false) {
      assert order[u] in order;
      var a', b' := OrderCell(utm, qx, qy, order[u]);
      assert FailsAt(ds, utm, variables, qx, qy, a', b');
      GateOutcomeAt(ds, g, variables, order, u);
    }
  }

  /** No cell is farther than the last entry of the scan order, and some cell
      lies exactly there. */
  lemma LastIsFarthest(utm: Dataset, qx: real, qy: real)
    requires |utm.lon| > 0 && |utm.lat| > 0
    ensures var g := DistanceGrid(utm, qx, qy);
      var order := ScanOrder(utm, qx, qy);
      && (forall a, b :: 0 <= a < |utm.lon| && 0 <= b < |utm.lat| ==> g[a][b] <= order[|order| - 1])
      && (exists a, b :: 0 <= a < |utm.lon| && 0 <= b < |utm.lat| && g[a][b] == order[|order| - 1])
  {
    var g := DistanceGrid(utm, qx, qy);
    var order := ScanOrder(utm, qx, qy);
    var last := |order| - 1;
    assert order[last] in order;
    var a, b := OrderCell(utm, qx, qy, order[last]);
    forall a', b' | 0 <= a' < |utm.lon| && 0 <= b' < |utm.lat| ensures g[a'][b'] <= order[last] {
      WithinOrder(utm, qx, qy, a', b');
    }
  }

  /** When every outcome of the scan is a quiet failure, the scan runs to the
      end of the order and returns the selection of its last distance. */
  lemma NoPassStopsAtLast(ds: Dataset, utm: Dataset, variables: seq<string>, qx: real, qy: real)
    requires Aligned(ds, utm) && |ds.lon| > 0 && |ds.lat| > 0
    requires forall u :: 0 <= u < |ScanOrder(utm, qx, qy)| ==>
      GateOutcomes(ds, DistanceGrid(utm, qx, qy), variables, ScanOrder(utm, qx, qy))[u] == Ok(false)
    ensures var order := ScanOrder(utm, qx, qy);
      && ChosenDistance(ds, utm, variables, qx, qy) == order[|order| - 1]
      && Resolve(ds, utm, variables, qx, qy) == Ok(GroupSelection(ds, DistanceGrid(utm, qx, qy), order[|order| - 1]))
  {
    var order := ScanOrder(utm, qx, qy);
    var outcomes := GateOutcomes(ds, DistanceGrid(utm, qx, qy), variables, order);
    AtLeastOnce(|ds.lon|, |ds.lat|);
    NoStopBeforeLast(outcomes, |order| - 1);
    ResolveStopsAt(ds, utm, variables, qx, qy, |order| - 1);
  }

  /** When every group fails the gate, no failure is signalled: the scan
      returns the group of the largest distance in the grid. */
  lemma ResolveWhenNoGroupPasses(ds: Dataset, utm: Dataset, variables: seq<string>, qx: real, qy: real)
    requires Aligned(ds, utm) && |ds.lon| > 0 && |ds.lat| > 0
    requires forall a, b {:trigger FailsAt(ds, utm, variables, qx, qy, a, b)} ::
      0 <= a < |ds.lon| && 0 <= b < |ds.lat| ==> FailsAt(ds, utm, variables, qx, qy, a, b)
    ensures var g := DistanceGrid(utm, qx, qy);
      var d := ChosenDistance(ds, utm, variables, qx, qy);
      && Resolve(ds, utm, variables, qx, qy) == Ok(GroupSelection(ds, g, d))
      && (forall a, b :: 0 <= a < |ds.lon| && 0 <= b < |ds.lat| ==> g[a][b] <= d)
      && (exists a, b :: 0 <= a < |ds.lon| && 0 <= b < |ds.lat| && g[a][b] == d)
  {
    var g := DistanceGrid(utm, qx, qy);
    var order := ScanOrder(utm, qx, qy);
    var d := ChosenDistance(ds, utm, variables, qx, qy);
    assert d == order[|order| - 1] && Resolve(ds, utm, variables, qx, qy) == Ok(GroupSelection(ds, g, d)) by {
      AllOutcomesFail(ds, utm, variables, qx, qy);
      NoPassStopsAtLast(ds, utm, variables, qx, qy);
    }
    assert (forall a, b :: 0 <= a < |ds.lon| && 0 <= b < |ds.lat| ==> g[a][b] <= d)
        && (exists a, b :: 0 <= a < |ds.lon| && 0 <= b < |ds.lat| && g[a][b] == d) by {
      LastIsFarthest(utm, qx, qy);
    }
  }

  /** A fully present variable stays fully present in any group's selection,
      whose cells are cells of the grid. */
  lemma GroupKeepsFullyPresent(ds: Dataset, g: seq<seq<real>>, d: real, name: string)
    requires Fits(ds, g) && FullyPresent(ds, name)
    ensures FullyPresent(GroupSelection(ds, g, d), name)
  {
    var cells := Matches(g, d, 0);
    SelectKeepsAllPresent(ds, LonIndices(cells), LatIndices(cells), name);
  }

  /** The gate passes on the group of any distance some cell has, when every
      requested variable is fully present in the grid. */
  lemma FullyPresentGroupPasses(ds: Dataset, g: seq<seq<real>>, variables: seq<string>, i: nat, j: nat)
    requires Fits(ds, g) && i < |ds.lon| && j < |ds.lat|
    requires forall t :: 0 <= t < |variables| ==> FullyPresent(ds, variables[t])
    ensures GroupCheck(ds, g, variables, g[i][j]) == Ok(true)
  {
    var sel := GroupSelection(ds, g, g[i][j]);
    assert (i, j) in Matches(g, g[i][j], 0);
    forall t | 0 <= t < |variables| ensures CheckVariable(sel, variables[t]) == Ok(true) {
      GroupKeepsFullyPresent(ds, g, g[i][j], variables[t]);
      FullyPresentPasses(sel, variables[t]);
    }
  }

  /** A grid whose requested variables have no missing sample and no empty
      dimension resolves to the group of the nearest cell: the first distance
      of the scan, which no cell undercuts and some cell has. */
  lemma ResolveWhenFullyPresent(ds: Dataset, utm: Dataset, variables: seq<string>, qx: real, qy: real)
    requires Aligned(ds, utm) && |ds.lon| > 0 && |ds.lat| > 0
    requires forall t :: 0 <= t < |variables| ==> FullyPresent(ds, variables[t])
    ensures var g := DistanceGrid(utm, qx, qy);
      var d := ScanOrder(utm, qx, qy)[0];
      && Resolve(ds, utm, variables, qx, qy) == Ok(GroupSelection(ds, g, d))
      && (forall a, b :: 0 <= a < |ds.lon| && 0 <= b < |ds.lat| ==> d <= g[a][b])
      && (exists a, b :: 0 <= a < |ds.lon| && 0 <= b < |ds.lat| && g[a][b] == d)
  {
    var g := DistanceGrid(utm, qx, qy);
    var order := ScanOrder(utm, qx, qy);
    assert order[0] in order;
    var i, j := OrderCell(utm, qx, qy, order[0]);
    FullyPresentGroupPasses(ds, g, variables, i, j);
    forall a, b | 0 <= a < |ds.lon| && 0 <= b < |ds.lat| ensures order[0] <= g[a][b] {
      WithinOrder(utm, qx, qy, a, b);
    }
    ResolveFindsNearestPassingGroup(ds, utm, variables, qx, qy, i, j);
  }
}
