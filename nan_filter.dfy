/**
 * The NaN masks of getInterpArray_griddata and getInterpArray_rbf: rows whose
 * x, y or value is NaN are dropped before any fitting, and the surviving rows
 * keep their order, so the three columns stay aligned.
 */
module NaNFilter {
  import opened Values

  /** The coordinate columns and the value column read from the table. */
  datatype Columns = Columns(x: seq<Num>, y: seq<Num>, z: seq<Num>) {
    /** A table's columns always have one entry per row. */
    predicate Aligned()
    {
      |x| == |y| && |y| == |z|
    }
  }

  /** Row i has no NaN in x, y or the value. */
  predicate Usable(t: Columns, i: nat)
    requires t.Aligned() && i < |t.x|
  {
    !t.x[i].NaN? && !t.y[i].NaN? && !t.z[i].NaN?
  }

  /** Row i, as one (x, y, value) triple. */
  function Row(t: Columns, i: nat): (Num, Num, Num)
    requires t.Aligned() && i < |t.x|
  {
    (t.x[i], t.y[i], t.z[i])
  }

  /** The positions of the true entries of a boolean mask, in ascending order. */
  function TrueIndices(m: seq<bool>): (r: seq<nat>)
    ensures forall k :: 0 <= k < |r| ==> r[k] < |m| && m[r[k]]
    ensures forall k, l :: 0 <= k < l < |r| ==> r[k] < r[l]
    ensures forall i :: 0 <= i < |m| && m[i] ==> i in r
  {
    if |m| == 0 then []
    else
      var n := |m| - 1;
      var front := TrueIndices(m[..n]);
      assert forall i :: 0 <= i < n ==> m[..n][i] == m[i];
      front + (if m[n] then [n] else [])
  }

  /** Boolean indexing s[m]: the entries of s where m holds, in their order. */
  function Select<T>(s: seq<T>, m: seq<bool>): (r: seq<T>)
    requires |s| == |m|
    ensures |r| <= |s|
  {
    if |s| == 0 then []
    else
      var n := |s| - 1;
      Select(s[..n], m[..n]) + (if m[n] then [s[n]] else [])
  }

  /** Entry k of s[m] is the entry of s at the k-th true position of m. */
  lemma {:induction false} SelectAt<T>(s: seq<T>, m: seq<bool>)
    requires |s| == |m|
    ensures |Select(s, m)| == |TrueIndices(m)|
    ensures forall k :: 0 <= k < |Select(s, m)| ==> Select(s, m)[k] == s[TrueIndices(m)[k]]
  {
    if |s| > 0 {
      var n := |s| - 1;
      SelectAt(s[..n], m[..n]);
      assert forall i :: 0 <= i < n ==> m[..n][i] == m[i];
      assert m == m[..n] + [m[n]];
    }
  }

  /** Both coordinates and the value of each row, filtered by the same mask. */
  function ApplyMask(t: Columns, m: seq<bool>): (f: Columns)
    requires t.Aligned() && |m| == |t.x|
    ensures f.Aligned() && |f.x| == |TrueIndices(m)|
  {
    SelectAt(t.x, m);
    SelectAt(t.y, m);
    SelectAt(t.z, m);
    Columns(Select(t.x, m), Select(t.y, m), Select(t.z, m))
  }

  /**
   * The griddata mask: the value is not NaN and no coordinate of the point
   * (x, y) is NaN.
   */
  function GriddataMask(t: Columns): (m: seq<bool>)
    requires t.Aligned()
    ensures |m| == |t.x|
    ensures forall i :: 0 <= i < |m| ==> (m[i] <==> Usable(t, i))
  {
    seq(|t.z|, i requires 0 <= i < |t.z| => !t.z[i].NaN? && !(t.x[i].NaN? || t.y[i].NaN?))
  }

  /** The rbf mask: x, y and the value are each not NaN. */
  function RbfMask(t: Columns): (m: seq<bool>)
    requires t.Aligned()
    ensures |m| == |t.x|
    ensures forall i :: 0 <= i < |m| ==> (m[i] <==> Usable(t, i))
  {
    seq(|t.x|, i requires 0 <= i < |t.x| => Usable(t, i))
  }

  /** The rows of the table that survive filtering, as positions in the table. */
  function Kept(t: Columns): (ks: seq<nat>)
    requires t.Aligned()
    ensures forall k, l :: 0 <= k < l < |ks| ==> ks[k] < ks[l]
    ensures forall i :: 0 <= i < |t.x| ==> (i in ks <==> Usable(t, i))
    ensures forall k :: 0 <= k < |ks| ==> ks[k] < |t.x| && Usable(t, ks[k])
  {
    TrueIndices(RbfMask(t))
  }

  /**
   * The points handed to the Rbf fit: exactly the usable rows of the table,
   * in table order, with x, y and value still aligned.
   */
  function RbfPoints(t: Columns): (f: Columns)
    requires t.Aligned()
    ensures f.Aligned() && |f.x| == |Kept(t)|
    ensures forall k :: 0 <= k < |f.x| ==> Row(f, k) == Row(t, Kept(t)[k])
    ensures forall k :: 0 <= k < |f.x| ==> Usable(f, k)
  {
    SelectAt(t.x, RbfMask(t));
    SelectAt(t.y, RbfMask(t));
    SelectAt(t.z, RbfMask(t));
    ApplyMask(t, RbfMask(t))
  }

  /** The points handed to griddata: the same rows the Rbf fit is given. */
  function GriddataPoints(t: Columns): (f: Columns)
    requires t.Aligned()
    ensures f.Aligned() && f == RbfPoints(t)
  {
    assert GriddataMask(t) == RbfMask(t);
    ApplyMask(t, GriddataMask(t))
  }

  /** Both interpolators select the same rows. */
  lemma MasksAgree(t: Columns)
    requires t.Aligned()
    ensures GriddataMask(t) == RbfMask(t)
    ensures GriddataPoints(t) == RbfPoints(t)
  {
  }

  /** Every usable row is kept, at the place its rank among usable rows gives it. */
  lemma UsableRowIsKept(t: Columns, i: nat)
    requires t.Aligned() && i < |t.x| && Usable(t, i)
    ensures exists k :: 0 <= k < |RbfPoints(t).x| && Kept(t)[k] == i && Row(RbfPoints(t), k) == Row(t, i)
  {
    var ks := Kept(t);
    var k :| 0 <= k < |ks| && ks[k] == i;
    assert Row(RbfPoints(t), k) == Row(t, i);
  }

  /** On an all-true mask, TrueIndices lists every position. */
  lemma {:induction false} TrueIndicesOfAllTrue(m: seq<bool>)
    requires forall i :: 0 <= i < |m| ==> m[i]
    ensures |TrueIndices(m)| == |m|
    ensures forall k :: 0 <= k < |m| ==> TrueIndices(m)[k] == k
  {
    if |m| > 0 {
      var n := |m| - 1;
      assert forall i :: 0 <= i < n ==> m[..n][i];
      TrueIndicesOfAllTrue(m[..n]);
      assert TrueIndices(m) == TrueIndices(m[..n]) + [n];
    }
  }

  /** Indexing by an all-true mask keeps everything. */
  lemma SelectAllTrue<T>(s: seq<T>, m: seq<bool>)
    requires |s| == |m|
    requires forall i :: 0 <= i < |m| ==> m[i]
    ensures Select(s, m) == s
  {
    TrueIndicesOfAllTrue(m);
    SelectAt(s, m);
  }

  /** Filtering a table that has already been filtered changes nothing. */
  lemma FilterIsIdempotent(t: Columns)
    requires t.Aligned()
    ensures RbfPoints(RbfPoints(t)) == RbfPoints(t)
  {
    var f := RbfPoints(t);
    var m := RbfMask(f);
    forall i | 0 <= i < |m| ensures m[i] {
      assert Usable(f, i);
    }
    SelectAllTrue(f.x, m);
    SelectAllTrue(f.y, m);
    SelectAllTrue(f.z, m);
  }

  /** Boolean indexing distributes over concatenation. */
  lemma {:induction false} SelectAppend<T>(a: seq<T>, b: seq<T>, ma: seq<bool>, mb: seq<bool>)
    requires |a| == |ma| && |b| == |mb|
    ensures Select(a + b, ma + mb) == Select(a, ma) + Select(b, mb)
  {
    if |b| == 0 {
      assert a + b == a && ma + mb == ma;
    } else {
      var n := |b| - 1;
      var last := if mb[n] then [b[n]] else [];
      DropLastOfAppend(a, b);
      DropLastOfAppend(ma, mb);
      SelectUnfold(a + b, ma + mb);
      SelectUnfold(b, mb);
      SelectAppend(a, b[..n], ma, mb[..n]);
      AppendIsAssociative(Select(a, ma), Select(b[..n], mb[..n]), last);
    }
  }

  /** One step of the definition of Select. */
  lemma SelectUnfold<T>(s: seq<T>, m: seq<bool>)
    requires |s| == |m| > 0
    ensures Select(s, m) == Select(s[..|s| - 1], m[..|m| - 1]) + (if m[|m| - 1] then [s[|s| - 1]] else [])
  {
  }

  lemma DropLastOfAppend<T>(a: seq<T>, b: seq<T>)
    requires |b| > 0
    ensures (a + b)[..|a + b| - 1] == a + b[..|b| - 1] && (a + b)[|a + b| - 1] == b[|b| - 1]
  {
  }

  lemma AppendIsAssociative<T>(a: seq<T>, b: seq<T>, c: seq<T>)
    ensures a + b + c == a + (b + c)
  {
  }

  /** A position whose mask entry is false contributes nothing. */
  lemma SelectSkip<T>(a: seq<T>, b: seq<T>, v: T, ma: seq<bool>, mb: seq<bool>)
    requires |a| == |ma| && |b| == |mb|
    ensures Select(a + [v] + b, ma + [false] + mb) == Select(a + b, ma + mb)
  {
    SelectAppend(a + [v], b, ma + [false], mb);
    SelectDropsFalseLast(a, v, ma);
    SelectAppend(a, b, ma, mb);
  }

  lemma SelectDropsFalseLast<T>(a: seq<T>, v: T, ma: seq<bool>)
    requires |a| == |ma|
    ensures Select(a + [v], ma + [false]) == Select(a, ma)
  {
    SelectUnfold(a + [v], ma + [false]);
    DropLastOfAppend(a, [v]);
    DropLastOfAppend(ma, [false]);
  }

  lemma SplitJoin<T>(s: seq<T>, p: nat)
    requires p <= |s|
    ensures s[..p] + s[p..] == s
  {
  }

  /** Removing a position whose mask entry is false does not change the selection. */
  lemma SelectInserted<T>(s: seq<T>, m: seq<bool>, p: nat, v: T)
    requires |s| == |m| && p <= |s|
    ensures Select(s[..p] + [v] + s[p..], m[..p] + [false] + m[p..]) == Select(s, m)
  {
    SelectSkip(s[..p], s[p..], v, m[..p], m[p..]);
    SplitJoin(s, p);
    SplitJoin(m, p);
  }

  /** The table with one extra row (x, y, z) placed before row p. */
  function InsertRow(t: Columns, p: nat, x: Num, y: Num, z: Num): (t': Columns)
    requires t.Aligned() && p <= |t.x|
    ensures t'.Aligned() && |t'.x| == |t.x| + 1
  {
    Columns(t.x[..p] + [x] + t.x[p..], t.y[..p] + [y] + t.y[p..], t.z[..p] + [z] + t.z[p..])
  }

  lemma MaskOfInsertedRow(t: Columns, p: nat, x: Num, y: Num, z: Num)
    requires t.Aligned() && p <= |t.x|
    requires x.NaN? || y.NaN? || z.NaN?
    ensures RbfMask(InsertRow(t, p, x, y, z)) == RbfMask(t)[..p] + [false] + RbfMask(t)[p..]
  {
  }

  /**
   * Inserting, anywhere, a row whose x, y or value is NaN leaves the filtered
   * points exactly as they were.
   */
  lemma InsertingUnusableRowChangesNothing(t: Columns, p: nat, x: Num, y: Num, z: Num)
    requires t.Aligned() && p <= |t.x|
    requires x.NaN? || y.NaN? || z.NaN?
    ensures RbfPoints(InsertRow(t, p, x, y, z)) == RbfPoints(t)
  {
    var t' := InsertRow(t, p, x, y, z);
    var m := RbfMask(t);
    MaskOfInsertedRow(t, p, x, y, z);
    SelectInserted(t.x, m, p, x);
    SelectInserted(t.y, m, p, y);
    SelectInserted(t.z, m, p, z);
    assert ApplyMask(t', RbfMask(t')) == ApplyMask(t, m);
  }
}
