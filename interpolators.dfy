/**
 * getInterpArray_griddata and getInterpArray_rbf: check the grid argument,
 * drop the rows with a NaN, and evaluate a fitted surface at every grid node.
 *
 * The fitting itself (scipy's griddata triangulation and its Rbf solver) is a
 * foreign library: it enters the model as an Evaluator, a function from the
 * filtered points, the method or kernel name and one node (x, y) to the value
 * the library returns there.
 */
module Interpolators {
  import opened Values
  import opened GridBuilder
  import opened NaNFilter
  import opened RbfKernel

  /** The my_grid argument: None, or a tuple of arrays. */
  datatype GridArg = NoGrid | Parts(parts: seq<Matrix>)

  /** The one error the interpolators raise themselves. */
  datatype Error = ValueError

  datatype Result<T> = Ok(value: T) | Err(error: Error)

  /** Fit a model of the named kind to the points, evaluate it at (x, y). */
  type Evaluator = (Columns, string, Num, Num) -> Num

  /** my_grid is rejected when it is None or does not have exactly two parts. */
  predicate RejectedGrid(arg: GridArg)
  {
    arg.NoGrid? || |arg.parts| != 2
  }

  /**
   * The caller's side of the documented contract: a pair passed as my_grid
   * holds two arrays of one shape.
   */
  predicate PairHasOneShape(arg: GridArg)
  {
    arg.Parts? && |arg.parts| == 2 ==> SameShape(arg.parts[0], arg.parts[1])
  }

  /**
   * The grid check: None or a tuple whose length is not 2 is a ValueError;
   * any two arrays are accepted, whatever their shapes.
   */
  function CheckGrid(arg: GridArg): (r: Result<Grid>)
    ensures r.Err? <==> RejectedGrid(arg)
    ensures r.Ok? ==> r.value.xg == arg.parts[0] && r.value.yg == arg.parts[1]
  {
    if RejectedGrid(arg) then Err(ValueError)
    else Ok(Grid(arg.parts[0], arg.parts[1]))
  }

  /** Z is grid-shaped and holds, at each node, what the library returns there. */
  ghost predicate IsGridResult(z: Matrix, g: Grid, pts: Columns, kind: string, fit: Evaluator)
  {
    SameShape(z, g.xg) && SameShape(z, g.yg)
    && forall i, j :: 0 <= i < |z| && 0 <= j < |z[i]| ==>
         z[i][j] == fit(pts, kind, g.xg[i][j], g.yg[i][j])
  }

  /** The library evaluated node by node: the result has the grid's shape. */
  function EvaluateOnGrid(g: Grid, pts: Columns, kind: string, fit: Evaluator): (z: Matrix)
    requires SameShape(g.xg, g.yg)
    ensures IsGridResult(z, g, pts, kind, fit)
  {
    seq(|g.xg|, i requires 0 <= i < |g.xg| =>
      seq(|g.xg[i]|, j requires 0 <= j < |g.xg[i]| => fit(pts, kind, g.xg[i][j], g.yg[i][j])))
  }

  /**
   * getInterpArray_griddata: the method name is handed to the library as given;
   * the library sees only the rows without NaN.
   */
  function InterpGriddata(t: Columns, arg: GridArg, requested: string, griddata: Evaluator): (r: Result<Matrix>)
    requires t.Aligned() && PairHasOneShape(arg)
    ensures r.Err? <==> RejectedGrid(arg)
    ensures r.Ok? ==> IsGridResult(r.value, Grid(arg.parts[0], arg.parts[1]), GriddataPoints(t), requested, griddata)
  {
    match CheckGrid(arg)
    case Err(e) => Err(e)
    case Ok(g) => Ok(EvaluateOnGrid(g, GriddataPoints(t), requested, griddata))
  }

  /**
   * getInterpArray_rbf: the library is asked for the kernel KernelFor chooses,
   * and sees only the rows without NaN.
   */
  function InterpRbf(t: Columns, arg: GridArg, requested: Option<string>, rbf: Evaluator): (r: Result<Matrix>)
    requires t.Aligned() && PairHasOneShape(arg)
    ensures r.Err? <==> RejectedGrid(arg)
    ensures r.Ok? ==> IsGridResult(r.value, Grid(arg.parts[0], arg.parts[1]), RbfPoints(t), KernelFor(requested), rbf)
  {
    match CheckGrid(arg)
    case Err(e) => Err(e)
    case Ok(g) => Ok(EvaluateOnGrid(g, RbfPoints(t), KernelFor(requested), rbf))
  }

  /**
   * A grid built by get_grid_from_df from the table's own coordinates is
   * accepted by both interpolators, and each result has one row per distinct
   * y value and one column per distinct x value.
   */
  lemma BuiltGridIsAccepted(t: Columns, requested: string, fit: Evaluator)
    requires t.Aligned()
    ensures var g := GridFromColumns(t.x, t.y);
      var arg := Parts([g.xg, g.yg]);
      && PairHasOneShape(arg)
      && InterpGriddata(t, arg, requested, fit).Ok?
      && InterpRbf(t, arg, Some(requested), fit).Ok?
      && var z := InterpGriddata(t, arg, requested, fit).value;
      && |z| == |Axis(t.y)|
      && (forall i :: 0 <= i < |z| ==> |z[i]| == |Axis(t.x)|)
      && (forall i, j :: 0 <= i < |z| && 0 <= j < |z[i]| ==>
            z[i][j] == fit(RbfPoints(t), requested, Axis(t.x)[j], Axis(t.y)[i]))
      && var w := InterpRbf(t, arg, Some(requested), fit).value;
      && |w| == |Axis(t.y)|
      && (forall i :: 0 <= i < |w| ==> |w[i]| == |Axis(t.x)|)
      && (forall i, j :: 0 <= i < |w| && 0 <= j < |w[i]| ==>
            w[i][j] == fit(RbfPoints(t), KernelFor(Some(requested)), Axis(t.x)[j], Axis(t.y)[i]))
  {
  }

  /**
   * Inserting anywhere a row with a NaN in x, y or the value changes the result
   * of neither interpolator.
   */
  lemma UnusableRowsDoNotChangeResults(t: Columns, p: nat, x: Num, y: Num, z: Num, arg: GridArg,
                                       requested: string, fit: Evaluator)
    requires t.Aligned() && p <= |t.x| && PairHasOneShape(arg)
    requires x.NaN? || y.NaN? || z.NaN?
    ensures InterpGriddata(InsertRow(t, p, x, y, z), arg, requested, fit) == InterpGriddata(t, arg, requested, fit)
    ensures InterpRbf(InsertRow(t, p, x, y, z), arg, Some(requested), fit) == InterpRbf(t, arg, Some(requested), fit)
  {
    var t' := InsertRow(t, p, x, y, z);
    InsertingUnusableRowChangesNothing(t, p, x, y, z);
    MasksAgree(t);
    MasksAgree(t');
  }

  /** Removing the NaN rows beforehand changes the result of neither interpolator. */
  lemma PrefilteringChangesNothing(t: Columns, arg: GridArg, requested: string, fit: Evaluator)
    requires t.Aligned() && PairHasOneShape(arg)
    ensures InterpGriddata(RbfPoints(t), arg, requested, fit) == InterpGriddata(t, arg, requested, fit)
    ensures InterpRbf(RbfPoints(t), arg, Some(requested), fit) == InterpRbf(t, arg, Some(requested), fit)
  {
    FilterIsIdempotent(t);
    MasksAgree(t);
    MasksAgree(RbfPoints(t));
  }

  /** Requesting "nearest" (in any case) from the rbf interpolator is requesting "linear". */
  lemma RbfNearestIsLinear(t: Columns, arg: GridArg, s: string, rbf: Evaluator)
    requires t.Aligned() && PairHasOneShape(arg)
    requires Lower(s) == "nearest"
    ensures InterpRbf(t, arg, Some(s), rbf) == InterpRbf(t, arg, Some("linear"), rbf)
  {
    NearestChoosesLinear(s);
    KernelNamesAreLowerCase("linear");
  }

  /** An unrecognised name, or my_method=None, is requesting "thin_plate". */
  lemma RbfUnknownIsThinPlate(t: Columns, arg: GridArg, s: string, rbf: Evaluator)
    requires t.Aligned() && PairHasOneShape(arg)
    requires Lower(s) !in KernelNames && Lower(s) != "nearest"
    ensures InterpRbf(t, arg, Some(s), rbf) == InterpRbf(t, arg, Some("thin_plate"), rbf)
    ensures InterpRbf(t, arg, None, rbf) == InterpRbf(t, arg, Some("thin_plate"), rbf)
  {
    KernelNamesAreLowerCase("thin_plate");
    FallbackIsThinPlate();
  }

  /** The rbf interpolator does not see the letter case of the requested name. */
  lemma RbfIgnoresCase(t: Columns, arg: GridArg, s: string, rbf: Evaluator)
    requires t.Aligned() && PairHasOneShape(arg)
    ensures InterpRbf(t, arg, Some(s), rbf) == InterpRbf(t, arg, Some(Lower(s)), rbf)
  {
    KernelForOfLowerCase(s);
  }

  /**
   * The two strategies hand the library the same inputs: given a name that is
   * already a lower-case kernel name, both pass it on unchanged, with the same
   * NaN-free rows and the same nodes.
   */
  lemma StrategiesShareInputs(t: Columns, arg: GridArg, k: string, fit: Evaluator)
    requires t.Aligned() && PairHasOneShape(arg)
    requires k in KernelNames
    ensures InterpGriddata(t, arg, k, fit) == InterpRbf(t, arg, Some(k), fit)
  {
    KernelNamesAreLowerCase(k);
    MasksAgree(t);
  }
}
