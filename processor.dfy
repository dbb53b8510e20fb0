/** The dataset processor: it keeps a private copy of the downloaded dataset
    (`ds`, geographic coordinates) and a second copy whose coordinates are
    projected (`dsUTM`), and resolves the nearest valid grid point. */
module Processor {
  import opened Outcomes
  import opened Datasets
  import opened Sorting
  import opened Validity
  import opened NearestPoint

  class DatasetProcessor {
    var ds: Dataset
    var dsUTM: Dataset
    const gcsEpsg: int
    const utmEpsg: int

    /** The two copies share one grid with axes of equal length, and differ
        at most in their coordinate values. */
    ghost predicate Valid()
      reads this
    {
      && WellFormed(ds)
      && |ds.lon| == |ds.lat|
      && |dsUTM.lon| == |ds.lon| && |dsUTM.lat| == |ds.lat|
      && dsUTM.vars == ds.vars
    }

    /** Copies the dataset, crops it to a square grid and copies the result
        again as the copy to be projected. Datasets are values here, so the
        caller's dataset cannot be changed through either copy. */
    constructor (source: Dataset, gcsEpsg: int, utmEpsg: int)
      requires WellFormed(source)
      ensures Valid()
      ensures ds == Normalized(source) && dsUTM == ds
      ensures this.gcsEpsg == gcsEpsg && this.utmEpsg == utmEpsg
    {
      ds := source;
      dsUTM := source;
      this.gcsEpsg := gcsEpsg;
      this.utmEpsg := utmEpsg;
      new;
      NormalizeDimensions();
      dsUTM := ds;
    }

    /** `_check_and_process_dimensions`: crops the longer axis to the length
        of the shorter one. The constructor calls it; on a processor whose
        axes already agree it changes nothing, so it keeps `Valid()`. */
    method NormalizeDimensions()
      requires WellFormed(ds)
      modifies this`ds
      ensures ds == Normalized(old(ds))
      ensures old(Valid()) ==> Valid() && ds == old(ds)
    {
      var minDim := Min(|ds.lon|, |ds.lat|);
      if minDim < |ds.lon| {
        ds := Select(ds, Range(minDim), Range(|ds.lat|));
      } else if minDim < |ds.lat| {
        ds := Select(ds, Range(|ds.lon|), Range(minDim));
      }
    }

    /** `reproject_GCS_to_UTM`: the transform (a coordinate projection the
        caller supplies) is applied to the pairs (longitude k, latitude k) of
        the projected copy; the data variables are untouched. */
    method ReprojectToUTM(transform: (real, real) -> (real, real)) returns (projected: Dataset)
      requires Valid()
      modifies this`dsUTM
      ensures Valid()
      ensures dsUTM.vars == old(dsUTM.vars)
      ensures |dsUTM.lon| == |old(dsUTM.lon)| && |dsUTM.lat| == |old(dsUTM.lat)|
      ensures forall k :: 0 <= k < |dsUTM.lon| ==>
                (dsUTM.lon[k], dsUTM.lat[k]) == transform(old(dsUTM.lon[k]), old(dsUTM.lat[k]))
      ensures projected == dsUTM
    {
      var lon, lat := dsUTM.lon, dsUTM.lat;
      var n := |lon|;
      var newLon := seq(n, k requires 0 <= k < n => transform(lon[k], lat[k]).0);
      var newLat := seq(n, k requires 0 <= k < n => transform(lon[k], lat[k]).1);
      dsUTM := Dataset(newLon, newLat, dsUTM.vars);
      projected := dsUTM;
    }

    /** `find_valid_points`: scans the sorted distances of the projected copy,
        selects from the geographic copy the cells at each distance and stops
        at the first selection that passes the gate; when none passes, the
        last selection tried is returned. */
    method FindValidPoint(variables: seq<string>, qx: real, qy: real) returns (r: Result<Dataset>)
      requires Valid()
      ensures r == Resolve(ds, dsUTM, variables, qx, qy)
    {
      var dist := DistanceGrid(dsUTM, qx, qy);
      var sorted := ScanOrder(dsUTM, qx, qy);
      ghost var outcomes := GateOutcomes(ds, dist, variables, sorted);
      var selection: Option<Dataset> := None;
      var k := 0;
      while k < |sorted|
        invariant 0 <= k <= |sorted|
        invariant FailsBefore(outcomes, k)
        invariant k == 0 <==> selection.None?
        invariant 0 < k ==> selection == Some(GroupSelection(ds, dist, sorted[k - 1]))
      {
        var chosen, passed := TryDistance(variables, dist, sorted, k);
        selection := Some(chosen);
        if passed != Ok(false) {
          r := if passed.Err? then Err(passed.error) else Ok(chosen);
          assert r == Resolve(ds, dsUTM, variables, qx, qy) by {
            ResolveStopsAt(ds, dsUTM, variables, qx, qy, k);
          }
          return;
        }
        k := k + 1;
      }
      if selection.None? {
        return Err(NoCandidates);
      }
      ResolveStopsAt(ds, dsUTM, variables, qx, qy, k - 1);
      return Ok(selection.value);
    }

    /** Step k of the scan: the cells at distance `sorted[k]` (`np.where`),
        the geographic copy indexed by them (`isel`), and the gate on it,
        which is the k-th of the scan's gate outcomes. */
    method TryDistance(variables: seq<string>, dist: seq<seq<real>>, sorted: seq<real>, k: nat)
      returns (chosen: Dataset, passed: Result<bool>)
      requires Fits(ds, dist) && k < |sorted|
      ensures chosen == GroupSelection(ds, dist, sorted[k])
      ensures passed == GateOutcomes(ds, dist, variables, sorted)[k]
    {
      var cells := Matches(dist, sorted[k], 0);
      chosen := Select(ds, LonIndices(cells), LatIndices(cells));
      passed := CheckAllVariables(variables, chosen);
      GateOutcomeAt(ds, dist, variables, sorted, k);
    }

    /** `_check_all_variables`: one flag per variable, in order, then whether
        all flags are true. */
    method CheckAllVariables(variables: seq<string>, sel: Dataset) returns (r: Result<bool>)
      ensures r == AllVariablesValid(variables, sel)
    {
      var flags: seq<bool> := [];
      for t := 0 to |variables|
        invariant |flags| == t
        invariant forall u :: 0 <= u < t ==> CheckVariable(sel, variables[u]) == Ok(flags[u])
      {
        var name := variables[t];
        if name !in sel.vars {
          FirstErrorWins(variables, sel, t);
          return Err(MissingVariable(name));
        }
        var total := LeadingLength(sel, name);
        if total == 0 {
          FirstErrorWins(variables, sel, t);
          return Err(ZeroDivision(name));
        }
        if AboveThreshold(VariableValidCount(sel.vars[name]), total) {
          flags := flags + [true];
        } else {
          flags := flags + [false];
        }
      }
      r := Ok(forall u | 0 <= u < |flags| :: flags[u]);
    }
  }
}
