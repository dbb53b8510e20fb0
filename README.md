# Nearest valid grid point of a CMEMS dataset, in Dafny

This project models the dataset-processing core of the CMEMS downloader
toolbox (`src/utils/download_cmems_data.py`). The toolbox downloads a small
gridded marine dataset (waves or sea level) around a feature. It then picks
the grid point nearest to the feature whose data are usable.

The processor keeps two copies of the dataset. `ds` has geographic
coordinates. `dsUTM` has the same grid with projected (UTM) coordinates.

- **Normalising dimensions.** When the longitude and latitude axes differ in
  length, the longer axis is cropped to its first `min` indices. The data
  variables are cropped with it.
- **Resolving the nearest valid point.** A squared distance is computed from
  the query point to every cell `(i, j)`. It pairs longitude `i` with
  latitude `j` of the projected copy. All cell distances, duplicates
  included, are sorted ascending. For each distance `d` in that order:
  - the cells at distance `d` are listed in row-major order (`np.where`);
  - the geographic copy is indexed orthogonally by their longitude indices
    and their latitude indices (`isel`);
  - the selection goes to the validity gate.

  The scan stops at the first selection that passes or whose gate raises.
  When every selection fails the gate without raising, no failure is
  signalled and the last (farthest) selection is returned.
- **The validity gate.** For each requested variable, the present samples
  divided by the length of the first dimension must exceed 0.9. The present
  samples are counted over the whole array of the selection. The gate is
  the conjunction over all variables, so an empty list passes.

Modules:

- `Outcomes`: `Option`, the error kinds and `Result`.
- `Datasets`: datasets as values, `isel` (`Select`), the normalised dataset,
  flattening and counting of present samples.
- `Sorting`: the ascending sort of the distances.
- `Validity`: the gate as specification functions.
- `NearestPoint`: the distance grid, `np.where`, the scan order, where the
  scan stops (`StopIndex`), the whole resolution as a function (`Resolve`)
  and lemmas about it.
- `Processor`: the class `DatasetProcessor`. Its fields `ds` and `dsUTM` are
  reassigned by its methods. `FindValidPoint` and `CheckAllVariables` are
  loops proved against `Resolve` and `AllVariablesValid`.
- `Downloader`: the per-data-type settings.

Modelling choices:

- Coordinates and distances are exact reals. The square root is dropped
  because it is monotone, so it changes neither the order nor the equality
  of distances.
- A missing (NaN) sample is `None`.
- The check `valid / len > 0.9` is decided as `10 * valid > 9 * len`.
  `AboveThreshold` proves that this agrees with the real ratio.
- Errors the source raises are modelled as `Err` values:
  - `MissingVariable`: a requested name that is not a data variable of the
    dataset (a `KeyError`);
  - `ZeroDivision`: a variable whose first dimension has length 0;
  - `NoCandidates`: an empty grid, where the selection variable is never
    bound.
- Datasets are immutable values. The deep copies in the constructor (lines
  111 and 117) therefore need no code. The caller's dataset cannot change
  through either copy.
- The source stores the projected copy's coordinates by transforming the
  pairs (longitude k, latitude k). The transform is a parameter of
  `ReprojectToUTM`.

Three consequences of the code are stated as lemmas:

- When every selection fails the gate without raising, no failure is
  signalled and the last selection tried is returned
  (`ResolveWhenNoGroupPasses`).
- A distance shared by several cells occurs once per cell in the sorted
  array, so a failing group is checked once per occurrence
  (`ScanRepeatsSharedDistance`).
- `isel` with two index arrays selects their orthogonal product. For a group
  of c cells the selection is c x c, and its off-diagonal cells need not lie
  at the group's distance (`GroupSelection`). The gate counts present
  samples over all c x c cells and divides by the length of the first
  dimension. So a grid whose requested variables have no missing sample
  (and no empty dimension) resolves to the group of its nearest cell
  (`ResolveWhenFullyPresent`).

## Model

| member | source | states |
|---|---|---|
| `Datasets.Select` | src/utils/download_cmems_data.py:165-166 | orthogonal indexing: the result is the index-list product grid, and cell (a, b) is the original cell (lonIx[a], latIx[b]), repeats kept; variables keep their names and layout |
| `Datasets.Normalized` | src/utils/download_cmems_data.py:179-184 | both axes end with length min(lon size, lat size); each axis and every variable keep exactly their low-index prefix; a dataset whose axes already agree is returned unchanged |
| `Datasets.FlattenContains` | src/utils/download_cmems_data.py:158 | raveling a grid keeps every cell's value |
| `Datasets.FlattenOrigin` | src/utils/download_cmems_data.py:158 | every value of the raveled grid comes from some cell |
| `Datasets.FlattenLength` | src/utils/download_cmems_data.py:158 | an n x m grid ravels to n * m values |
| `Datasets.ValidCount` | src/utils/download_cmems_data.py:201 | the count of non-NaN samples is at most their number; it is 0 exactly when all are missing and full exactly when none is |
| `Datasets.LeadingLength` | src/utils/download_cmems_data.py:201 | `len` of a variable is the length of its first dimension: its samples number that length times the sizes of its other dimensions |
| `Datasets.SampleTotal` | src/utils/download_cmems_data.py:201 | a variable on an n x m grid has n * m times its per-cell sample count in all |
| `Datasets.VariableValidCount` | src/utils/download_cmems_data.py:201 | the count of present samples over the whole array is at most the number of samples; it is 0 exactly when every sample is NaN and full exactly when none is |
| `Datasets.SelectKeepsAllPresent` | src/utils/download_cmems_data.py:165-166 | a variable with no NaN sample has none in any `isel` selection |
| `Validity.AboveThreshold` | src/utils/download_cmems_data.py:201-203 | the integer test agrees with valid / total > 0.9 on reals |
| `Validity.CheckVariable` | src/utils/download_cmems_data.py:200-206 | a variable raises when absent or when its first dimension is empty; otherwise it passes exactly when present samples / first-dimension length > 0.9 |
| `Validity.AllVariablesValid` | src/utils/download_cmems_data.py:197-209 | the gate is true exactly when every listed variable passes (so an empty list passes), and raises exactly when some variable raises |
| `Validity.FirstErrorWins` | src/utils/download_cmems_data.py:200-201 | the error reported is that of the first variable, in list order, that raises |
| `Validity.AllMissingRejected` | src/utils/download_cmems_data.py:201-209 | an all-NaN variable has ratio 0 and fails, and no variable list containing it passes |
| `Validity.FullyPresentPasses` | src/utils/download_cmems_data.py:201-204 | on a non-empty selection, a variable with no NaN sample and no empty dimension has at least as many present samples as its first dimension is long (ratio at least 1) and passes |
| `Sorting.Insert` | src/utils/download_cmems_data.py:158 | inserting into a sorted sequence keeps it sorted and adds exactly that element |
| `Sorting.Sort` | src/utils/download_cmems_data.py:158 | the result is ascending and a permutation of the input |
| `NearestPoint.DistanceGrid` | src/utils/download_cmems_data.py:153-155 | the grid has one row per longitude and one column per latitude, and cell (i, j) is the squared distance from (lon i, lat j) of the projected copy to the query point |
| `NearestPoint.RowMatches` | src/utils/download_cmems_data.py:162 | within one row: exactly the columns at distance d, left to right, each once |
| `NearestPoint.Matches` | src/utils/download_cmems_data.py:162 | exactly the cells at distance d, each listed once, in strictly increasing row-major order |
| `NearestPoint.GroupSelection` | src/utils/download_cmems_data.py:162-166 | the selection for d is c x c for the c cells at distance d; cell (a, b) is the grid cell pairing the a-th cell's longitude with the b-th cell's latitude, and the axes take those cells' coordinates |
| `NearestPoint.GateOutcomeAt` | src/utils/download_cmems_data.py:160-169 | the t-th gate outcome of the scan is the gate applied to the selection of the t-th distance of the order |
| `NearestPoint.FailsBeforeAll` | src/utils/download_cmems_data.py:160-170 | the loop's record of quiet failures before k means every outcome before k is `Ok(false)` |
| `NearestPoint.AllFailBefore` | src/utils/download_cmems_data.py:160-170 | conversely, outcomes that are all `Ok(false)` before k make that record hold |
| `NearestPoint.StopsAt` | src/utils/download_cmems_data.py:160-170 | a scan whose outcomes before k all fail quietly, and whose outcome at k does not or is the last, stops at k |
| `NearestPoint.NoStopBeforeLast` | src/utils/download_cmems_data.py:160-172 | when every outcome is a quiet failure, the scan stops at the last one |
| `NearestPoint.BeforeStopFails` | src/utils/download_cmems_data.py:158-170 | on an ascending order, every entry strictly nearer than where the scan stops failed quietly |
| `NearestPoint.StopIndex` | src/utils/download_cmems_data.py:160-170 | the scan stops at the first outcome that is not a quiet failure, or at the last; every outcome before the stop is a failure |
| `NearestPoint.StopAtNearestPassing` | src/utils/download_cmems_data.py:158-170 | on an ascending order, a passing entry whose strictly smaller distances all fail is where the scan stops |
| `NearestPoint.ScanOrder` | src/utils/download_cmems_data.py:158 | the scan order is ascending, has n * m entries and is a permutation of all cell distances |
| `NearestPoint.Resolve` | src/utils/download_cmems_data.py:139-172 | the result is the error for an empty grid exactly when the grid is empty |
| `NearestPoint.ResolveStopsAt` | src/utils/download_cmems_data.py:160-172 | if all earlier groups fail and group k does not fail or is last, the grid is non-empty, the chosen distance is the k-th of the order, and the result is group k's selection or the error its gate raised |
| `NearestPoint.OrderCell` | src/utils/download_cmems_data.py:158 | every distance in the scan order is the distance of some cell |
| `NearestPoint.CellInOrder` | src/utils/download_cmems_data.py:158 | every cell's distance occurs in the scan order |
| `NearestPoint.WithinOrder` | src/utils/download_cmems_data.py:158 | every cell's distance lies between the first and the last entry of the scan order |
| `NearestPoint.RowMatchCount` | src/utils/download_cmems_data.py:162 | the number of matches in a row equals how often d occurs in that row |
| `NearestPoint.MatchCount` | src/utils/download_cmems_data.py:158-162 | the number of cells at distance d equals how often d occurs in the raveled grid |
| `NearestPoint.ScanRepeatsSharedDistance` | src/utils/download_cmems_data.py:158-162 | a distance shared by c cells occurs c times in the scan order; a failing group is checked once per occurrence |
| `NearestPoint.NearerGroupsFail` | src/utils/download_cmems_data.py:158-170 | the chosen distance is the distance of some grid cell, and every cell strictly nearer than it has a group that failed the gate quietly |
| `NearestPoint.ResolveFindsNearestPassingGroup` | src/utils/download_cmems_data.py:158-172 | if cell (i, j)'s group passes and every strictly nearer group fails, the result is exactly (i, j)'s group |
| `NearestPoint.AllOutcomesFail` | src/utils/download_cmems_data.py:160-170 | if every cell's group fails the gate, every step of the scan is a quiet failure |
| `NearestPoint.LastIsFarthest` | src/utils/download_cmems_data.py:158 | no cell is farther than the last distance of the scan order, and some cell lies exactly there |
| `NearestPoint.NoPassStopsAtLast` | src/utils/download_cmems_data.py:160-172 | if every step of the scan fails quietly, the scan runs to the last distance and returns its selection |
| `NearestPoint.ResolveWhenNoGroupPasses` | src/utils/download_cmems_data.py:160-172 | if every group fails, no error is signalled: the result is the group of a distance that some cell has and that no cell exceeds |
| `NearestPoint.GroupKeepsFullyPresent` | src/utils/download_cmems_data.py:162-166 | a variable with no NaN sample and no empty dimension keeps both in every group's selection |
| `NearestPoint.FullyPresentGroupPasses` | src/utils/download_cmems_data.py:162-169 | when every requested variable is fully present, the group of any cell's distance passes the gate |
| `NearestPoint.ResolveWhenFullyPresent` | src/utils/download_cmems_data.py:158-172 | when every requested variable is fully present, the result is the group of the first scanned distance, which is the minimum cell distance |
| `Processor.DatasetProcessor.constructor` | src/utils/download_cmems_data.py:107-117 | `ds` is the normalised copy of the input, `dsUTM` equals it, and the EPSG codes are stored |
| `Processor.DatasetProcessor.NormalizeDimensions` | src/utils/download_cmems_data.py:174-184 | `ds` becomes the normalised dataset; nothing else changes; on a valid processor it is a no-op |
| `Processor.DatasetProcessor.TryDistance` | src/utils/download_cmems_data.py:162-169 | step k of the scan returns the group selection for the k-th distance and the k-th gate outcome |
| `Processor.DatasetProcessor.ReprojectToUTM` | src/utils/download_cmems_data.py:119-137 | each (longitude k, latitude k) pair of the projected copy is replaced by its transform; the variables and `ds` are untouched; the projected copy is returned |
| `Processor.DatasetProcessor.FindValidPoint` | src/utils/download_cmems_data.py:139-172 | the loop returns exactly `Resolve` of the geographic copy, with distances from the projected copy |
| `Processor.DatasetProcessor.CheckAllVariables` | src/utils/download_cmems_data.py:186-209 | the flag loop returns exactly `AllVariablesValid`, including which error is raised |
| `Downloader.SettingsFor` | src/utils/download_cmems_data.py:33-42 | only "Waves" and "Sea Level" are configured, both with EPSG 4326; Waves has variables VHM0, VTPK, VMDR and Sea Level has zos |

## Left out

- Coordinate projection (pyproj): `reproject_UTM_to_GCS` and the transform
  inside `reproject_GCS_to_UTM` are foreign floating-point code. The
  transform is a parameter of `ReprojectToUTM`. Unknown EPSG codes and CRS
  metadata are not modelled.
- `DataDownloader.get_data`: an asynchronous network call to the Copernicus
  Marine service with a ±0.1 degree window. It is I/O.
- The side effects of `DataDownloader.__init__`: the ArcGIS project folder
  lookup, the creation of the output directory, the timestamped output file
  name and the stored credentials. They are I/O and clock reads.
  `SettingsFor` keeps only the dataset id, EPSG code and variable list.
- `src/downloader_tool.py`: the ArcGIS tool's parameters, messages,
  centroid averaging, NetCDF reading and writing. It is UI and I/O glue.
- Floating point: distances are exact reals without the square root, and
  equality of distances is exact. Two mathematically different float
  distances that round to the same value are not merged here. The 0.9
  threshold is compared exactly rather than as a double.
- `CheckVariable` looks a name up among the data variables only. `ds[name]`
  in the source also finds coordinates, which no caller requests.
- NaN is `None`, and only the "present or missing" distinction is kept.
  Sample values are not otherwise used.
- Array layout: a variable's samples are grouped per (longitude, latitude)
  cell. Only the identity of its first dimension and the product of the
  sizes of its other non-spatial dimensions are kept. The order of the
  dimensions beyond the first does not affect the count or `len`.
