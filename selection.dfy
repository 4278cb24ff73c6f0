/** The matrix plumbing of `AnomalyDetector_FI`: the processed matrix laid out
    as the one-hot block followed by the numeric block, the split of the rows
    by label, and the selection of the most important columns. */
module Selection {
  import opened Common
  import opened Ranking

  /** A row of a NumPy feature matrix. */
  type Row = seq<real>

  /** A NumPy feature matrix as its rows. */
  type Matrix = seq<Row>

  /** Every row has `width` entries. */
  predicate Rectangular(m: Matrix, width: nat)
  {
    forall i :: 0 <= i < |m| ==> |m[i]| == width
  }

  // ---------------------------------------------------------------------------
  // Feature layout

  /** `np.concatenate([X_ohe, X_num], axis=1)`: each row is its one-hot part
      followed by its numeric part. */
  function Processed(ohe: Matrix, num: Matrix): (x: Matrix)
    requires |ohe| == |num|
    ensures |x| == |ohe|
    ensures forall i :: 0 <= i < |x| ==> |x[i]| == |ohe[i]| + |num[i]|
  {
    seq(|ohe|, i requires 0 <= i < |ohe| => ohe[i] + num[i])
  }

  /** Columns 0 .. wOhe-1 of the processed matrix are the one-hot columns and
      the columns after them are the numeric columns, in order. */
  lemma ProcessedColumns(ohe: Matrix, num: Matrix, wOhe: nat, wNum: nat)
    requires |ohe| == |num| && Rectangular(ohe, wOhe) && Rectangular(num, wNum)
    ensures Rectangular(Processed(ohe, num), wOhe + wNum)
    ensures forall i, c :: 0 <= i < |ohe| && 0 <= c < wOhe ==> Processed(ohe, num)[i][c] == ohe[i][c]
    ensures forall i, c :: 0 <= i < |ohe| && wOhe <= c < wOhe + wNum ==> Processed(ohe, num)[i][c] == num[i][c - wOhe]
  {
    var x := Processed(ohe, num);
    forall i, c | 0 <= i < |ohe| && 0 <= c < wOhe + wNum
      ensures c < wOhe ==> x[i][c] == ohe[i][c]
      ensures wOhe <= c ==> x[i][c] == num[i][c - wOhe]
    {
      assert x[i] == ohe[i] + num[i];
    }
  }

  // ---------------------------------------------------------------------------
  // Class split

  /** `splitsubsystem`: `X[np.where(y == 1)[0]]` and `X[np.where(y == 0)[0]]`,
      the attack rows and the normal rows. */
  function SplitSubsystem(x: Matrix, y: seq<int>): (parts: (Matrix, Matrix))
    requires |x| == |y|
    ensures |parts.0| == Occurrences(y, 1) && |parts.1| == Occurrences(y, 0)
  {
    WhereOccurrences(y, 1);
    WhereOccurrences(y, 0);
    (Gather(x, Where(y, 1)), Gather(x, Where(y, 0)))
  }

  /** `np.where` finds as many positions as there are occurrences. */
  lemma {:induction false} WhereOccurrences<T>(xs: seq<T>, v: T)
    ensures |Where(xs, v)| == Occurrences(xs, v)
  {
    if |xs| > 0 {
      WhereOccurrences(xs[..|xs| - 1], v);
    }
  }

  lemma WhereSnoc<T>(xs: seq<T>, x: T, v: T)
    ensures Where(xs + [x], v) == Where(xs, v) + (if x == v then [|xs|] else [])
  {
    assert (xs + [x])[..|xs|] == xs;
  }

  /** Splitting with no rows gives two empty parts. */
  lemma SplitSubsystemEmpty()
    ensures SplitSubsystem([], []) == ([], [])
  {
  }

  /** One more row goes to the end of the attack part when labelled 1, to the
      end of the normal part when labelled 0, and nowhere otherwise; with the
      empty case this fixes both parts: the rows of each label, in their
      original order. */
  lemma SplitSubsystemSnoc(x: Matrix, y: seq<int>, row: Row, rowLabel: int)
    requires |x| == |y|
    ensures SplitSubsystem(x + [row], y + [rowLabel]) ==
      (SplitSubsystem(x, y).0 + (if rowLabel == 1 then [row] else []),
       SplitSubsystem(x, y).1 + (if rowLabel == 0 then [row] else []))
  {
    WhereSnoc(y, rowLabel, 1);
    WhereSnoc(y, rowLabel, 0);
    GatherSnoc(x, row, Where(y, 1), rowLabel == 1);
    GatherSnoc(x, row, Where(y, 0), rowLabel == 0);
  }

  /** Gathering from a longer matrix at the same positions, and possibly at
      the new last position. */
  lemma GatherSnoc(x: Matrix, row: Row, idx: seq<nat>, last: bool)
    requires IndicesBelow(idx, |x|)
    ensures IndicesBelow(idx + (if last then [|x|] else []), |x| + 1)
    ensures Gather(x + [row], idx + (if last then [|x|] else [])) ==
      Gather(x, idx) + (if last then [row] else [])
  {
    var ext := idx + (if last then [|x|] else []);
    var g := Gather(x + [row], ext);
    var h := Gather(x, idx) + (if last then [row] else []);
    assert |g| == |h|;
    forall j | 0 <= j < |g|
      ensures g[j] == h[j]
    {
      if j < |idx| {
        assert ext[j] == idx[j];
      }
    }
  }

  /** Together the two parts hold every row exactly when every label is 0 or 1;
      rows with any other label are dropped. */
  lemma {:induction false} SplitSubsystemCovers(x: Matrix, y: seq<int>)
    requires |x| == |y|
    ensures |SplitSubsystem(x, y).0| + |SplitSubsystem(x, y).1| <= |x|
    ensures |SplitSubsystem(x, y).0| + |SplitSubsystem(x, y).1| == |x| <==>
      forall i :: 0 <= i < |y| ==> y[i] == 0 || y[i] == 1
  {
    if |y| > 0 {
      var n := |y| - 1;
      SplitSubsystemCovers(x[..n], y[..n]);
      assert forall i :: 0 <= i < n ==> y[..n][i] == y[i];
    }
  }

  // ---------------------------------------------------------------------------
  // Feature selection

  /** `data[:, cols]`: the listed columns, in the listed order. */
  function SelectColumns(data: Matrix, cols: seq<nat>): (r: Matrix)
    requires forall i, j :: 0 <= i < |data| && 0 <= j < |cols| ==> cols[j] < |data[i]|
    ensures |r| == |data| && Rectangular(r, |cols|)
    ensures forall i, j :: 0 <= i < |data| && 0 <= j < |cols| ==> r[i][j] == data[i][cols[j]]
  {
    seq(|data|, i requires 0 <= i < |data| => Gather(data[i], cols))
  }

  /** `feature_selection` given the importances XGBoost reports, one per
      column: `np.argsort(importances)[::-1][:n_fi]` and the matrix reduced to
      those columns. */
  function FeatureSelection(data: Matrix, importances: seq<real>, nFi: nat): (r: (Matrix, seq<nat>))
    requires Rectangular(data, |importances|)
    ensures |r.1| == Min(nFi, |importances|)
    ensures InRange(importances, r.1) && Distinct(r.1) && NonIncreasing(importances, r.1)
    ensures |r.0| == |data| && Rectangular(r.0, |r.1|)
    ensures forall i, j :: 0 <= i < |data| && 0 <= j < |r.1| ==> r.0[i][j] == data[i][r.1[j]]
  {
    var features := RankDescending(importances)[..Min(nFi, |importances|)];
    (SelectColumns(data, features), features)
  }

  /** Entry j of a reduced row comes from the one-hot block when `cols[j]` is
      below the one-hot width and from the numeric block otherwise: with blocks
      of the same widths, `fit` and `predict` read the same feature through the
      same kept index. */
  lemma SelectedFeature(ohe: Matrix, num: Matrix, wOhe: nat, wNum: nat, cols: seq<nat>)
    requires |ohe| == |num| && Rectangular(ohe, wOhe) && Rectangular(num, wNum)
    requires forall j :: 0 <= j < |cols| ==> cols[j] < wOhe + wNum
    ensures forall i, j :: 0 <= i < |ohe| && 0 <= j < |cols| ==>
      SelectColumns(Processed(ohe, num), cols)[i][j] ==
        (if cols[j] < wOhe then ohe[i][cols[j]] else num[i][cols[j] - wOhe])
  {
    ProcessedColumns(ohe, num, wOhe, wNum);
  }

  /** No column left out of the selection is more important than a column
      kept. */
  lemma FeatureSelectionTop(data: Matrix, importances: seq<real>, nFi: nat, c: nat)
    requires Rectangular(data, |importances|)
    requires c < |importances| && c !in FeatureSelection(data, importances, nFi).1
    ensures forall j :: 0 <= j < |FeatureSelection(data, importances, nFi).1| ==>
      importances[c] <= importances[FeatureSelection(data, importances, nFi).1[j]]
  {
    TopOfRanking(importances, Min(nFi, |importances|), c);
  }

  /** With at least as many requested features as columns, every column is
      selected. */
  lemma FeatureSelectionAll(data: Matrix, importances: seq<real>, nFi: nat, c: nat)
    requires Rectangular(data, |importances|)
    requires nFi >= |importances| && c < |importances|
    ensures c in FeatureSelection(data, importances, nFi).1
  {
    var r := RankDescending(importances);
    assert r[..|importances|] == r;
  }
}
