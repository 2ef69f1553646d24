# Point-to-grid interpolation of geospatialtools, in Dafny

This project models the interpolation core of `geospatialtools`. That core turns
scattered measurements, given as a table with an x column, a y column and a value
column, into values on a regular grid. It has four parts:

- **Grid builder** (`get_grid_from_df`). The distinct x values and the distinct y
  values of the table are each sorted ascending. The grid is their mesh: one row per
  y value, one column per x value. This holds even when the table does not cover
  every (x, y) pair.
- **NaN filtering**. Both interpolators drop every row whose x, y or value is NaN.
  The rows that remain keep their order. The griddata interpolator and the rbf
  interpolator build their masks differently.
- **Kernel choice** of the rbf interpolator. The requested method name is
  lower-cased, with `my_method=None` (or `""`) read as `""`. One of the seven kernel names
  (`linear`, `cubic`, `quintic`, `thin_plate`, `multiquadric`, `inverse`,
  `gaussian`) is used as it is. `nearest` becomes `linear`. Anything else becomes
  `thin_plate`. The docstring at lines 91-96 lists only `linear`, `cubic` and
  `quintic` as passed through unchanged. The code at line 118 passes all seven
  names through, and the model follows the code.
- **Grid argument and evaluation**. `my_grid` is rejected with `ValueError` when it
  is None or does not have exactly two parts. The fitted surface is then evaluated
  at every node, so the result has the grid's shape.

A cell is `Num = NaN | Fin(real)`. A table is `Columns(x, y, z)`, three row-aligned
sequences. A grid is `Grid(xg, yg)`, two 2-D arrays. scipy's `griddata` and `Rbf` are
not modelled. Each interpolator takes an `Evaluator` instead: an arbitrary function
from (filtered points, method or kernel name, node x, node y) to a value. Every
property below therefore holds whatever that library computes.

The grid builder does not filter NaN. pandas `unique` keeps one NaN and NumPy's
sort puts it last. The model follows this with a strict order `Less` on `Num` in
which NaN comes after every finite value, so a NaN coordinate gives a last row or
column at NaN (`ScenarioNaNCoordinate`).

Modules: `Values` (cells, order, shapes), `GridBuilder`, `NaNFilter`, `RbfKernel`,
`Interpolators`. All source paths below are in
`src/geospatialtools/interpolators.py`.

## Model

| member | source | states |
|---|---|---|
| Values.Less | src/geospatialtools/interpolators.py:17-18 | only a finite value precedes anything, and every finite value precedes NaN, as NumPy sorts NaN last |
| Values.LessIsStrictTotalOrder | src/geospatialtools/interpolators.py:17-18 | the sort order is irreflexive, asymmetric, transitive and total |
| GridBuilder.Axis | src/geospatialtools/interpolators.py:17-18 | an axis is strictly ascending (NaN last), has no value twice, and holds exactly the values that occur in the column |
| GridBuilder.AxisIsCharacterised | src/geospatialtools/interpolators.py:17-18 | any strictly ascending sequence holding exactly the column's values equals the computed axis, so the sorted distinct values are uniquely determined |
| GridBuilder.AscendingIsUnique | src/geospatialtools/interpolators.py:17-18 | two strictly ascending sequences with the same elements are equal |
| GridBuilder.Meshgrid | src/geospatialtools/interpolators.py:19 | both arrays have one row per y value and one column per x value; node (i, j) lies at (xs[j], ys[i]) |
| GridBuilder.GridFromColumns | src/geospatialtools/interpolators.py:5-20 | the built grid has one row per y axis value and one node per x axis value in each row; node (i, j) lies at (x axis[j], y axis[i]) |
| GridBuilder.GridIsOrdered | src/geospatialtools/interpolators.py:17-19 | along a row of the built grid x strictly increases; down a column y strictly increases |
| GridBuilder.NodesAreCartesianProduct | src/geospatialtools/interpolators.py:10-19 | (a, b) is a node of the built grid exactly when a occurs in the x column and b in the y column, whether or not a row holds that pair |
| GridBuilder.ObservedPointsAreNodes | src/geospatialtools/interpolators.py:5-20 | every row's (x, y) is a node of the grid built from the table |
| GridBuilder.NodesAreDistinct | src/geospatialtools/interpolators.py:17-19 | two different node positions never carry the same coordinate pair |
| GridBuilder.ScenarioIncompleteLattice | src/geospatialtools/interpolators.py:10-19 | points on x in {1,2,3}, y in {10,20}, unordered and missing (2,20), give the 2 x 3 grid with row 0 at y=10, row 1 at y=20, columns x=1,2,3 |
| GridBuilder.ScenarioNaNCoordinate | src/geospatialtools/interpolators.py:17-18 | a NaN coordinate appears once, as the last axis value |
| NaNFilter.Select | src/geospatialtools/interpolators.py:60-61 | boolean indexing never lengthens a sequence; which entries it keeps is stated by SelectAt |
| NaNFilter.SelectAt | src/geospatialtools/interpolators.py:60-61 | boolean indexing keeps, in order, exactly the entries at the true positions of the mask: entry k of s[m] is s at the k-th true position |
| NaNFilter.GriddataMask | src/geospatialtools/interpolators.py:59 | one entry per row, true exactly when none of the row's x, y and value is NaN |
| NaNFilter.RbfMask | src/geospatialtools/interpolators.py:113 | one entry per row, true exactly when none of the row's x, y and value is NaN |
| NaNFilter.GriddataPoints | src/geospatialtools/interpolators.py:59-61 | the points griddata receives are aligned and are exactly the points the rbf interpolator receives |
| NaNFilter.Kept | src/geospatialtools/interpolators.py:113 | the kept row positions ascend strictly, and a row is kept exactly when none of its x, y and value is NaN |
| NaNFilter.RbfPoints | src/geospatialtools/interpolators.py:113-114 | filtered columns stay aligned; filtered row k is table row Kept[k]; no filtered row has a NaN |
| NaNFilter.MasksAgree | src/geospatialtools/interpolators.py:59-61 | the griddata mask (value and point checked) equals the rbf mask (x, y, value checked), so both select the same rows |
| NaNFilter.UsableRowIsKept | src/geospatialtools/interpolators.py:113-114 | every row without NaN appears among the filtered points, unchanged |
| NaNFilter.TrueIndicesOfAllTrue | src/geospatialtools/interpolators.py:114 | on a mask with no false entry, boolean indexing selects every position in order |
| NaNFilter.FilterIsIdempotent | src/geospatialtools/interpolators.py:113-114 | filtering already filtered points changes nothing |
| NaNFilter.SelectAppend | src/geospatialtools/interpolators.py:114 | boolean indexing of a concatenation is the concatenation of the boolean indexings |
| NaNFilter.InsertingUnusableRowChangesNothing | src/geospatialtools/interpolators.py:113-114 | inserting, at any position, a row with a NaN in x, y or value leaves the filtered points unchanged |
| RbfKernel.Lower | src/geospatialtools/interpolators.py:117 | lower-casing keeps the length, leaves no upper-case letter and changes each character only in its case |
| RbfKernel.LowerIsIdempotent | src/geospatialtools/interpolators.py:117 | lower-casing twice is lower-casing once |
| RbfKernel.NameOrEmpty | src/geospatialtools/interpolators.py:117 | `my_method or ""` is the empty name exactly when my_method is None or empty, and my_method itself otherwise |
| RbfKernel.KernelFor | src/geospatialtools/interpolators.py:117-125 | the chosen kernel is always one of the seven names; a kernel name in any case is kept (lower-cased), nearest becomes linear, everything else thin_plate |
| RbfKernel.KernelNamesAreLowerCase | src/geospatialtools/interpolators.py:118 | every supported kernel name is its own lower-case form |
| RbfKernel.KernelForIsIdempotent | src/geospatialtools/interpolators.py:117-119 | mapping the chosen kernel again gives the same kernel |
| RbfKernel.KernelForIgnoresCase | src/geospatialtools/interpolators.py:117 | names equal up to letter case choose the same kernel |
| RbfKernel.KernelForOfLowerCase | src/geospatialtools/interpolators.py:117 | a name and its lower-case form choose the same kernel |
| RbfKernel.NearestChoosesLinear | src/geospatialtools/interpolators.py:120-122 | nearest, in any letter case, chooses linear |
| RbfKernel.FallbackIsThinPlate | src/geospatialtools/interpolators.py:117-125 | my_method=None, the empty name and an unknown name choose thin_plate |
| RbfKernel.ExampleMappings | src/geospatialtools/interpolators.py:117-125 | NEAREST gives linear, Gaussian gives gaussian, Thin_Plate gives thin_plate |
| Interpolators.CheckGrid | src/geospatialtools/interpolators.py:51-52 | ValueError exactly when my_grid is None or its length is not 2; otherwise the two parts become (Xg, Yg), whatever their shapes |
| Interpolators.EvaluateOnGrid | src/geospatialtools/interpolators.py:131-132 | the result has the grid's shape and holds at each node the library's value at (Xg[i][j], Yg[i][j]) |
| Interpolators.InterpGriddata | src/geospatialtools/interpolators.py:51-65 | the wrapper's own ValueError is raised exactly for a rejected my_grid; otherwise a grid-shaped result whose every node is the library's value for the NaN-free rows and the method as given |
| Interpolators.InterpRbf | src/geospatialtools/interpolators.py:104-132 | the wrapper's own ValueError is raised exactly for a rejected my_grid; otherwise a grid-shaped result whose every node is the library's value for the NaN-free rows and the chosen kernel |
| Interpolators.BuiltGridIsAccepted | src/geospatialtools/interpolators.py:40-48 | a grid built from the table is accepted by both interpolators; each result has one row per y axis value and one value per x axis value in each row, node (i, j) evaluated at (x axis[j], y axis[i]) with the given method or the chosen kernel |
| Interpolators.UnusableRowsDoNotChangeResults | src/geospatialtools/interpolators.py:58-114 | inserting a row with a NaN anywhere changes the output of neither interpolator (griddata filter at lines 58-61, rbf filter at lines 112-114) |
| Interpolators.PrefilteringChangesNothing | src/geospatialtools/interpolators.py:58-114 | dropping the NaN rows beforehand changes the output of neither interpolator (griddata filter at lines 58-61, rbf filter at lines 112-114) |
| Interpolators.RbfNearestIsLinear | src/geospatialtools/interpolators.py:120-122 | requesting nearest (any case) from the rbf interpolator gives the same result as requesting linear |
| Interpolators.RbfUnknownIsThinPlate | src/geospatialtools/interpolators.py:123-125 | an unknown name, or my_method=None, gives the same result as requesting thin_plate |
| Interpolators.RbfIgnoresCase | src/geospatialtools/interpolators.py:117 | the rbf result does not depend on the letter case of the requested name |
| Interpolators.StrategiesShareInputs | src/geospatialtools/interpolators.py:59-65 | with one library and a lower-case kernel name, both wrappers hand the library the same NaN-free rows, the same name and the same nodes, so they return the same result |

## Left out

- The numerics of scipy's `griddata` (triangulation; linear, cubic and nearest schemes) and of `Rbf` with `smooth=0.0`. They are foreign floating-point code and enter only as the `Evaluator` parameter. Nothing is claimed about convex hulls, NaN outside the hull or exact fit at the data points.
- Floating point itself. Cells are NaN or an exact real. Infinities, signed zeros and rounding are not modelled.
- Column lookup by name in the DataFrame, and the KeyError for a missing column. The model takes the three columns directly, already aligned.
- Failures inside scipy. An `Evaluator` always returns a value, so the model cannot fail after the grid check. Not modelled: griddata's ValueError for a method other than `linear`, `nearest` or `cubic`; Qhull errors for too few or collinear points; the singular-matrix failure of `Rbf`. The wrappers add no check of their own for these.
- Interpolators.InterpGriddata: requires that the two parts of a pair are two 2-D arrays of the same shape (`PairHasOneShape`, and `Matrix` is 2-D), as the docstring asks of callers. A pair of 1-D arrays also passes the length check at line 51, and scipy evaluates it; that case is not modelled. The code does not check this, and what NumPy and scipy do with two arrays of different shapes (broadcast or raise) is not modelled. `CheckGrid` itself accepts any two arrays.
- Interpolators.InterpRbf: the same requirement as InterpGriddata, two 2-D arrays of one shape, for the same reason; a pair of 1-D arrays also passes the length check at line 104.
- RbfKernel.Lower: folds only ASCII letters, while Python's `str.lower` folds all of Unicode. The chosen kernel is the same either way. The only non-ASCII characters whose lower-case form contains an ASCII letter are U+0130, which becomes two characters, and U+212A, which becomes `k`, a letter in none of the names.
- Default arguments. The defaults `my_method='cubic'`, `my_grid=None`, `points_xy=['lon', 'lat']` and `feature='temperature_2m'` are not modelled. Callers pass every argument explicitly, as columns, a `GridArg` and a name.
- Non-string `my_method` values and non-sequence `my_grid` values. They are outside the model: its `Option<string>` covers only `None` and strings, and `GridArg` only None and sequences of arrays. In the rbf wrapper a falsy non-string (`False`, `0`, `[]`) is read as `""` by `my_method or ""` and chooses `thin_plate`, like `None` (line 117). A truthy one without a `lower` method fails at line 117. A `bytes` value lower-cases without error, matches no name and chooses `thin_plate`. A `bytearray` fails at the membership test at line 118. The griddata wrapper passes `my_method` to scipy unchanged (line 65).
- `getMeteoData.py` (HTTP requests, sleeps, JSON and CSV handling), `clipDFbyShape.py` (shapefile reading, CRS handling, polygon overlay), `tif_to_df.py` (raster reading, affine and pyproj transforms) and `__init__.py` (re-exports). They are I/O and foreign geometry code, not part of the interpolation core.
