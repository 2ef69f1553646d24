/**
 * get_grid_from_df: the target grid is the mesh of the distinct x values and
 * the distinct y values of the table, each sorted ascending.
 */
module GridBuilder {
  import opened Values

  /** A mesh grid: xg holds the x coordinate of every node, yg the y coordinate. */
  datatype Grid = Grid(xg: Matrix, yg: Matrix)

  /** Inserts v into a strictly ascending sequence, unless it is already there. */
  function InsertSorted(v: Num, s: seq<Num>): (r: seq<Num>)
    requires StrictlyAscending(s)
    ensures StrictlyAscending(r)
    ensures forall w :: w in r <==> w == v || w in s
    ensures |r| <= |s| + 1
  {
    if |s| == 0 then [v]
    else if v == s[0] then s
    else if Less(v, s[0]) then
      assert forall j :: 0 <= j < |s| ==> Less(v, s[j]) by {
        forall j | 0 <= j < |s| ensures Less(v, s[j]) {
          LessIsStrictTotalOrder(v, s[0], s[j]);
        }
      }
      [v] + s
    else
      var rest := InsertSorted(v, s[1..]);
      LessIsStrictTotalOrder(v, s[0], v);
      assert forall w :: w in rest ==> Less(s[0], w) by {
        forall w | w in rest ensures Less(s[0], w) {
          if w != v {
            var j :| 0 <= j < |s[1..]| && s[1..][j] == w;
            assert s[j + 1] == w;
          }
        }
      }
      [s[0]] + rest
  }

  /**
   * The distinct values of a column in ascending order (pandas unique followed
   * by NumPy sort).  NaN counts as one value and sorts last.
   */
  function Axis(col: seq<Num>): (r: seq<Num>)
    ensures StrictlyAscending(r)
    ensures forall w :: w in r <==> w in col
    ensures forall i, j :: 0 <= i < j < |r| ==> r[i] != r[j]
    ensures |r| <= |col|
  {
    if |col| == 0 then []
    else
      var rest := Axis(col[1..]);
      assert forall w :: w in col <==> w == col[0] || w in col[1..] by {
        assert col == [col[0]] + col[1..];
      }
      InsertSorted(col[0], rest)
  }

  /**
   * A strictly ascending sequence is determined by its elements: whatever
   * sorted, duplicate-free list of the column's values one computes, it is Axis.
   */
  lemma {:induction false} AscendingIsUnique(a: seq<Num>, b: seq<Num>)
    requires StrictlyAscending(a) && StrictlyAscending(b)
    requires forall w :: w in a <==> w in b
    ensures a == b
  {
    if |a| == 0 || |b| == 0 {
      EmptyIffNoMember(a);
      EmptyIffNoMember(b);
    } else {
      assert a[0] in b;
      assert b[0] in a;
      var j :| 0 <= j < |b| && b[j] == a[0];
      var i :| 0 <= i < |a| && a[i] == b[0];
      LessIsStrictTotalOrder(a[0], b[0], a[0]);
      HeadIsLeast(b, j);
      HeadIsLeast(a, i);
      assert a[0] == b[0];
      forall w ensures w in a[1..] <==> w in b[1..] {
        if w in a[1..] {
          var k :| 0 <= k < |a[1..]| && a[1..][k] == w;
          assert Less(a[0], a[k + 1]);
          assert w in b;
          assert w != b[0];
          var m :| 0 <= m < |b| && b[m] == w;
          assert b[1..][m - 1] == w;
        }
        if w in b[1..] {
          var k :| 0 <= k < |b[1..]| && b[1..][k] == w;
          assert Less(b[0], b[k + 1]);
          assert w in a;
          assert w != a[0];
          var m :| 0 <= m < |a| && a[m] == w;
          assert a[1..][m - 1] == w;
        }
      }
      AscendingIsUnique(a[1..], b[1..]);
      assert a == [a[0]] + a[1..] && b == [b[0]] + b[1..];
    }
  }

  lemma HeadIsLeast(s: seq<Num>, k: nat)
    requires StrictlyAscending(s) && k < |s|
    ensures s[0] == s[k] || Less(s[0], s[k])
  {
  }

  lemma EmptyIffNoMember(s: seq<Num>)
    ensures s == [] <==> forall w :: w !in s
  {
    if s != [] {
      assert s[0] in s;
    }
  }

  /** Axis is the one strictly ascending sequence holding exactly the column's values. */
  lemma AxisIsCharacterised(col: seq<Num>, r: seq<Num>)
    requires StrictlyAscending(r)
    requires forall w :: w in r <==> w in col
    ensures Axis(col) == r
  {
    AscendingIsUnique(Axis(col), r);
  }

  /**
   * np.meshgrid(xs, ys): one row per y value, one column per x value.
   */
  function Meshgrid(xs: seq<Num>, ys: seq<Num>): (g: Grid)
    ensures |g.xg| == |ys| && SameShape(g.xg, g.yg)
    ensures forall i :: 0 <= i < |ys| ==> |g.xg[i]| == |xs|
    ensures forall i, j :: 0 <= i < |ys| && 0 <= j < |xs| ==> g.xg[i][j] == xs[j] && g.yg[i][j] == ys[i]
  {
    Grid(seq(|ys|, i => xs), seq(|ys|, i requires 0 <= i < |ys| => seq(|xs|, j => ys[i])))
  }

  /**
   * get_grid_from_df, with the table's x and y columns as input.  The grid has
   * |Axis(ycol)| rows of |Axis(xcol)| nodes; row i lies at the i-th smallest
   * y value and column j at the j-th smallest x value.
   */
  function GridFromColumns(xcol: seq<Num>, ycol: seq<Num>): (g: Grid)
    ensures SameShape(g.xg, g.yg) && |g.xg| == |Axis(ycol)|
    ensures forall i :: 0 <= i < |g.xg| ==> |g.xg[i]| == |Axis(xcol)|
    ensures forall i, j :: 0 <= i < |g.xg| && 0 <= j < |g.xg[i]| ==>
              g.xg[i][j] == Axis(xcol)[j] && g.yg[i][j] == Axis(ycol)[i]
  {
    Meshgrid(Axis(xcol), Axis(ycol))
  }

  /** Along a row of the grid x strictly increases; down a column y does. */
  lemma GridIsOrdered(xcol: seq<Num>, ycol: seq<Num>)
    ensures var g := GridFromColumns(xcol, ycol);
      && (forall i, i', j :: 0 <= i < i' < |g.xg| && 0 <= j < |g.xg[i]| ==> Less(g.yg[i][j], g.yg[i'][j]))
      && (forall i, j, j' :: 0 <= i < |g.xg| && 0 <= j < j' < |g.xg[i]| ==> Less(g.xg[i][j], g.xg[i][j']))
  {
  }

  /** (a, b) is the coordinate pair of some node of g. */
  ghost predicate IsNode(g: Grid, a: Num, b: Num)
  {
    exists i, j :: 0 <= i < |g.xg| && 0 <= j < |g.xg[i]| && 0 <= i < |g.yg| && 0 <= j < |g.yg[i]|
      && g.xg[i][j] == a && g.yg[i][j] == b
  }

  /**
   * The nodes are the full cartesian product of the observed x values and the
   * observed y values, whether or not the table holds a row for a given pair.
   */
  lemma {:induction false} NodesAreCartesianProduct(xcol: seq<Num>, ycol: seq<Num>, a: Num, b: Num)
    ensures IsNode(GridFromColumns(xcol, ycol), a, b) <==> a in xcol && b in ycol
  {
    var xs, ys := Axis(xcol), Axis(ycol);
    var g := GridFromColumns(xcol, ycol);
    if a in xcol && b in ycol {
      assert a in xs && b in ys;
      var j :| 0 <= j < |xs| && xs[j] == a;
      var i :| 0 <= i < |ys| && ys[i] == b;
      assert g.xg[i][j] == a && g.yg[i][j] == b;
    }
    if IsNode(g, a, b) {
      var i, j :| 0 <= i < |g.xg| && 0 <= j < |g.xg[i]| && 0 <= i < |g.yg| && 0 <= j < |g.yg[i]|
        && g.xg[i][j] == a && g.yg[i][j] == b;
      assert xs[j] == a && ys[i] == b;
      assert a in xs && b in ys;
    }
  }

  /** Every row of the table is a node of its grid. */
  lemma ObservedPointsAreNodes(xcol: seq<Num>, ycol: seq<Num>, k: nat)
    requires |xcol| == |ycol| && k < |xcol|
    ensures IsNode(GridFromColumns(xcol, ycol), xcol[k], ycol[k])
  {
    NodesAreCartesianProduct(xcol, ycol, xcol[k], ycol[k]);
  }

  /** No two nodes of the grid share a coordinate pair. */
  lemma {:induction false} NodesAreDistinct(xcol: seq<Num>, ycol: seq<Num>, i: nat, j: nat, i': nat, j': nat)
    requires var g := GridFromColumns(xcol, ycol);
      i < |g.xg| && j < |g.xg[i]| && i' < |g.xg| && j' < |g.xg[i']|
    requires (i, j) != (i', j')
    ensures var g := GridFromColumns(xcol, ycol);
      (g.xg[i][j], g.yg[i][j]) != (g.xg[i'][j'], g.yg[i'][j'])
  {
    var xs, ys := Axis(xcol), Axis(ycol);
    if i != i' {
      assert ys[i] != ys[i'];
    } else {
      assert xs[j] != xs[j'];
    }
  }

  /**
   * Points on x in {1, 2, 3} and y in {10, 20}, given in no particular order and
   * missing the node (2, 20), give a 2 x 3 grid: row 0 at y = 10, row 1 at
   * y = 20, columns at x = 1, 2, 3.
   */
  lemma ScenarioIncompleteLattice(xcol: seq<Num>, ycol: seq<Num>)
    requires xcol == [Fin(3.0), Fin(1.0), Fin(2.0), Fin(1.0), Fin(3.0)]
    requires ycol == [Fin(20.0), Fin(10.0), Fin(10.0), Fin(20.0), Fin(10.0)]
    ensures GridFromColumns(xcol, ycol)
         == Grid([[Fin(1.0), Fin(2.0), Fin(3.0)], [Fin(1.0), Fin(2.0), Fin(3.0)]],
                 [[Fin(10.0), Fin(10.0), Fin(10.0)], [Fin(20.0), Fin(20.0), Fin(20.0)]])
  {
    var xs, ys := [Fin(1.0), Fin(2.0), Fin(3.0)], [Fin(10.0), Fin(20.0)];
    ScenarioAxis(xcol, xs);
    ScenarioAxis(ycol, ys);
    MeshgridOfScenario(xs, ys);
  }

  lemma ScenarioAxis(col: seq<Num>, r: seq<Num>)
    requires StrictlyAscending(r)
    requires forall k :: 0 <= k < |col| ==> col[k] in r
    requires forall k :: 0 <= k < |r| ==> r[k] in col
    ensures Axis(col) == r
  {
    SameMembers(col, r);
    AxisIsCharacterised(col, r);
  }

  lemma MeshgridOfScenario(xs: seq<Num>, ys: seq<Num>)
    requires xs == [Fin(1.0), Fin(2.0), Fin(3.0)] && ys == [Fin(10.0), Fin(20.0)]
    ensures Meshgrid(xs, ys)
         == Grid([[Fin(1.0), Fin(2.0), Fin(3.0)], [Fin(1.0), Fin(2.0), Fin(3.0)]],
                 [[Fin(10.0), Fin(10.0), Fin(10.0)], [Fin(20.0), Fin(20.0), Fin(20.0)]])
  {
    var g := Meshgrid(xs, ys);
    assert g.xg == [xs, xs];
    assert g.yg[0] == [Fin(10.0), Fin(10.0), Fin(10.0)];
    assert g.yg[1] == [Fin(20.0), Fin(20.0), Fin(20.0)];
  }

  lemma SameMembers(col: seq<Num>, r: seq<Num>)
    requires forall k :: 0 <= k < |col| ==> col[k] in r
    requires forall k :: 0 <= k < |r| ==> r[k] in col
    ensures forall w :: w in r <==> w in col
  {
  }

  /** A NaN coordinate is not dropped: it becomes the last value of its axis. */
  lemma ScenarioNaNCoordinate()
    ensures Axis([NaN, Fin(2.0), Fin(1.0), NaN]) == [Fin(1.0), Fin(2.0), NaN]
  {
    SameMembers([NaN, Fin(2.0), Fin(1.0), NaN], [Fin(1.0), Fin(2.0), NaN]);
    AxisIsCharacterised([NaN, Fin(2.0), Fin(1.0), NaN], [Fin(1.0), Fin(2.0), NaN]);
  }
}
