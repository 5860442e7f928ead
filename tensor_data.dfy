/**
 * TensorData: the observed entries of an N-mode tensor, held as one SparseMode view per mode,
 * with the reductions and the per-hyperplane sufficient statistics the samplers use.
 */
module TensorDatas {
  import opened Linalg
  import opened Status
  import opened Enumeration
  import opened SparseModes
  import opened Models

  // ---------------------------------------------------------------------------------------
  // Coordinate tables (toMatrixNew): one row per observation, one column per mode.

  /** The rows of a coordinate table, each as a coordinate. */
  function Rows(idx: array2<nat>): (r: seq<seq<nat>>)
    reads idx
    ensures |r| == idx.Length0
    ensures forall c :: 0 <= c < idx.Length0 ==> |r[c]| == idx.Length1
    ensures forall c, d :: 0 <= c < idx.Length0 && 0 <= d < idx.Length1 ==> r[c][d] == idx[c, d]
  {
    seq(idx.Length0, c requires 0 <= c < idx.Length0 reads idx =>
      seq(idx.Length1, d requires 0 <= d < idx.Length1 reads idx => idx[c, d]))
  }

  /**
   * toMatrixNew(DenseTensor): walk the cells with the row-major odometer and write cell c
   * into row c. The table has a row for every cell, and row c is the c-th cell.
   */
  method DenseCoords(dims: seq<nat>) returns (idx: array2<nat>)
    ensures idx.Length0 == Product(dims) && idx.Length1 == |dims|
    ensures forall c, d :: 0 <= c < idx.Length0 && 0 <= d < idx.Length1 ==> idx[c, d] == Unrank(dims, c)[d]
  {
    var nnz := Product(dims);
    idx := new nat[nnz, |dims|];
    FirstIsUnrankZero(dims);
    var it := First(dims);
    var c := 0;
    while it.Some?
      invariant c <= nnz
      invariant it == if c < nnz then Some(Unrank(dims, c)) else None
      invariant forall c', d :: 0 <= c' < c && 0 <= d < |dims| ==> idx[c', d] == Unrank(dims, c')[d]
      decreases nnz - c
    {
      var cell := it.value;
      assert cell == Unrank(dims, c);
      WriteRow(idx, c, cell);
      assert forall d :: 0 <= d < |dims| ==> idx[c, d] == Unrank(dims, c)[d];
      NextIsSuccessor(dims, c);
      it := Next(dims, cell);
      c := c + 1;
    }
  }

  /** The inner loop of toMatrixNew(DenseTensor): copy a cell into row c, leaving the other rows alone. */
  method WriteRow(idx: array2<nat>, c: nat, cell: seq<nat>)
    requires c < idx.Length0 && |cell| == idx.Length1
    modifies idx
    ensures forall d :: 0 <= d < idx.Length1 ==> idx[c, d] == cell[d]
    ensures forall c', d :: 0 <= c' < idx.Length0 && c' != c && 0 <= d < idx.Length1 ==> idx[c', d] == old(idx[c', d])
  {
    for d := 0 to |cell|
      invariant forall d' :: 0 <= d' < d ==> idx[c, d'] == cell[d']
      invariant forall c', d' :: 0 <= c' < idx.Length0 && c' != c && 0 <= d' < idx.Length1 ==> idx[c', d'] == old(idx[c', d'])
    {
      idx[c, d] := cell[d];
    }
  }

  /** toMatrixNew(SparseTensor): copy column col of the tensor into column col of the table. */
  method SparseCoords(columns: seq<seq<nat>>, nnz: nat) returns (idx: array2<nat>)
    requires forall col :: 0 <= col < |columns| ==> |columns[col]| == nnz
    ensures idx.Length0 == nnz && idx.Length1 == |columns|
    ensures forall row, col :: 0 <= row < nnz && 0 <= col < |columns| ==> idx[row, col] == columns[col][row]
  {
    idx := new nat[nnz, |columns|];
    for col := 0 to |columns|
      invariant forall row, col' :: 0 <= row < nnz && 0 <= col' < col ==> idx[row, col'] == columns[col'][row]
    {
      for row := 0 to nnz
        invariant forall row', col' :: 0 <= row' < nnz && 0 <= col' < col ==> idx[row', col'] == columns[col'][row']
        invariant forall row' :: 0 <= row' < row ==> idx[row', col] == columns[col][row']
      {
        idx[row, col] := columns[col][row];
      }
    }
  }

  /** Observations that fit a tensor of shape dims: one coordinate per value, each a cell. */
  predicate Observations(dims: seq<nat>, coords: seq<seq<nat>>, vals: seq<real>)
  {
    |vals| == |coords| && Shaped(coords, |dims|) &&
    forall i, m :: 0 <= i < |coords| && 0 <= m < |dims| ==> coords[i][m] < dims[m]
  }

  /** The constructors' loop: one view per mode, in mode order, each built from the whole table. */
  method BuildViews(dims: seq<nat>, coords: seq<seq<nat>>, vals: seq<real>) returns (ys: seq<SparseMode>)
    requires Observations(dims, coords, vals)
    ensures |ys| == |dims|
    ensures forall m :: 0 <= m < |dims| ==> ys[m] == Rotate(coords, vals, m, |dims|, dims[m])
  {
    ObservationsRotate(dims, coords, vals);
    ys := [];
    for mode := 0 to |dims|
      invariant |ys| == mode
      invariant forall m :: 0 <= m < mode ==> ys[m] == Rotate(coords, vals, m, |dims|, dims[m])
    {
      ys := ys + [Rotate(coords, vals, mode, |dims|, dims[mode])];
    }
  }

  /** Observations of a tensor of shape dims can be rotated for any of its modes. */
  lemma ObservationsRotate(dims: seq<nat>, coords: seq<seq<nat>>, vals: seq<real>)
    requires Observations(dims, coords, vals)
    ensures forall mode :: 0 <= mode < |dims| ==> RotateArgs(coords, vals, mode, |dims|, dims[mode])
  {
  }

  /** uint64 arithmetic wraps modulo 2^64. */
  const U64: nat := 0x1_0000_0000_0000_0000

  // ---------------------------------------------------------------------------------------
  // Specifications of the reductions, over the observations in input order.

  /** Squared prediction error of every observation: (predict(c) - y)^2. */
  function SquaredErrors(s: SubModel, coords: seq<seq<nat>>, vals: seq<real>): (r: seq<real>)
    requires |vals| == |coords| && forall i :: 0 <= i < |coords| ==> s.CanPredict(coords[i])
    ensures |r| == |coords| && forall i :: 0 <= i < |coords| ==> r[i] == Sq(s.Predict(coords[i]) - vals[i])
  {
    seq(|coords|, i requires 0 <= i < |coords| => Sq(s.Predict(coords[i]) - vals[i]))
  }

  /** The squared error as a weight on one item of a view (0 where the view cannot predict). */
  function SquaredError(s: SubModel): (seq<nat>, real) -> real
  {
    (c: seq<nat>, y: real) => if s.CanPredict(c) then Sq(s.Predict(c) - y) else 0.0
  }

  lemma SquaredErrorAt(s: SubModel, c: seq<nat>, y: real)
    requires s.CanPredict(c)
    ensures SquaredError(s)(c, y) == Sq(s.Predict(c) - y)
  {
  }

  /** Weighting the observations by their squared error gives the squared errors. */
  lemma SquaredErrorWeights(s: SubModel, coords: seq<seq<nat>>, vals: seq<real>)
    requires |vals| == |coords| && forall i :: 0 <= i < |coords| ==> s.CanPredict(coords[i])
    ensures Weights(coords, vals, SquaredError(s)) == SquaredErrors(s, coords, vals)
  {
  }

  /** Squared deviation of every value from mean. */
  function Deviations(vals: seq<real>, mean: real): (r: seq<real>)
    ensures |r| == |vals| && forall i :: 0 <= i < |vals| ==> r[i] == Sq(vals[i] - mean)
  {
    seq(|vals|, i requires 0 <= i < |vals| => Sq(vals[i] - mean))
  }

  /** The squared deviation as a weight on one item of a view. */
  function Deviation(mean: real): (seq<nat>, real) -> real
  {
    (c: seq<nat>, y: real) => Sq(y - mean)
  }

  /** Weighting the observations by their squared deviation gives the deviations. */
  lemma DeviationWeights(coords: seq<seq<nat>>, vals: seq<real>, mean: real)
    requires |vals| == |coords|
    ensures Weights(coords, vals, Deviation(mean)) == Deviations(vals, mean)
  {
  }

  function Mean(vals: seq<real>): real
    requires |vals| > 0
  {
    Sum(vals) / (|vals| as real)
  }

  /** Population variance of the values. */
  function Variance(vals: seq<real>): real
    requires |vals| > 0
  {
    Sum(Deviations(vals, Mean(vals))) / (|vals| as real)
  }

  lemma {:induction false} SumNonNegative(s: seq<real>)
    requires forall i :: 0 <= i < |s| ==> s[i] >= 0.0
    ensures Sum(s) >= 0.0
  {
    if |s| > 0 {
      SumNonNegative(s[..|s| - 1]);
    }
  }

  /** The variance is never negative, so var_total falls back to 1.0 exactly when it is zero. */
  lemma VarianceNonNegative(vals: seq<real>)
    requires |vals| > 0
    ensures Variance(vals) >= 0.0
  {
    var dev := Deviations(vals, Mean(vals));
    forall i | 0 <= i < |dev| ensures dev[i] >= 0.0 {
      SqNonNegative(vals[i] - Mean(vals));
    }
    SumNonNegative(dev);
  }

  lemma {:induction false} SumConstant(s: seq<real>, x: real)
    requires forall i :: 0 <= i < |s| ==> s[i] == x
    ensures Sum(s) == (|s| as real) * x
  {
    if |s| > 0 {
      SumConstant(s[..|s| - 1], x);
    }
  }

  /** Observations that all carry the same value have variance zero. */
  lemma ConstantValuesHaveNoVariance(vals: seq<real>, x: real)
    requires |vals| > 0 && forall i :: 0 <= i < |vals| ==> vals[i] == x
    ensures Variance(vals) == 0.0
  {
    SumConstant(vals, x);
    assert Mean(vals) == x;
    var dev := Deviations(vals, x);
    SumConstant(dev, 0.0);
  }

  // ---------------------------------------------------------------------------------------
  // The reduction loops of sumsq and var_total, over the items of one view.

  /** One more item of plane h adds its squared error. */
  lemma SquaredErrorStep(sview: SparseMode, s: SubModel, h: nat, n: nat, c: seq<nat>, y: real)
    requires sview.Valid() && h < sview.NPlanes() && n < sview.NItemsOnPlane(h)
    requires sview.Item(h, n) == (c, y) && s.CanPredict(c)
    ensures sview.PlaneFold(SquaredError(s), h, n + 1) == sview.PlaneFold(SquaredError(s), h, n) + Sq(s.Predict(c) - y)
  {
    PlaneFoldStep(sview, SquaredError(s), h, n);
    SquaredErrorAt(s, c, y);
  }

  /** sumsq's loop: (predict(item) - value)^2 over every item, plane by plane. */
  method SquaredErrorsOver(sview: SparseMode, s: SubModel) returns (sumsq: real)
    requires sview.Valid()
    requires forall h, n :: 0 <= h < sview.NPlanes() && 0 <= n < sview.NItemsOnPlane(h) ==> s.CanPredict(sview.Item(h, n).0)
    ensures sumsq == sview.PlanesFold(SquaredError(s), sview.NPlanes())
  {
    sumsq := 0.0;
    for h := 0 to sview.NPlanes()
      invariant sumsq == sview.PlanesFold(SquaredError(s), h)
    {
      var e := PlaneSquaredErrors(sview, s, h);
      sumsq := sumsq + e;
      PlanesFoldStep(sview, SquaredError(s), h);
    }
  }

  /** The inner loop of sumsq: (predict(item) - value)^2 over the items of plane h. */
  method PlaneSquaredErrors(sview: SparseMode, s: SubModel, h: nat) returns (e: real)
    requires sview.Valid() && h < sview.NPlanes()
    requires forall n :: 0 <= n < sview.NItemsOnPlane(h) ==> s.CanPredict(sview.Item(h, n).0)
    ensures e == sview.PlaneFold(SquaredError(s), h, sview.NItemsOnPlane(h))
  {
    e := 0.0;
    for n := 0 to sview.NItemsOnPlane(h)
      invariant e == sview.PlaneFold(SquaredError(s), h, n)
    {
      var item := sview.Item(h, n);
      var pred := s.Predict(item.0);
      SquaredErrorStep(sview, s, h, n, item.0, item.1);
      e := e + Sq(pred - item.1);
    }
  }

  /** var_total's loop: (value - mean)^2 over every item, plane by plane. */
  method SquaredDeviationsOver(sview: SparseMode, mean: real) returns (se: real)
    requires sview.Valid()
    ensures se == sview.PlanesFold(Deviation(mean), sview.NPlanes())
  {
    se := 0.0;
    for h := 0 to sview.NPlanes()
      invariant se == sview.PlanesFold(Deviation(mean), h)
    {
      for n := 0 to sview.NItemsOnPlane(h)
        invariant se == sview.PlanesFold(Deviation(mean), h) + sview.PlaneFold(Deviation(mean), h, n)
      {
        var item := sview.Item(h, n);
        PlaneFoldStep(sview, Deviation(mean), h, n);
        se := se + Sq(item.1 - mean);
      }
      PlanesFoldStep(sview, Deviation(mean), h);
    }
  }

  // ---------------------------------------------------------------------------------------
  // getMuLambda: the sufficient statistics of one hyperplane.

  /**
   * c, the coordinates of an observation in every mode but `mode`, selects items the view's
   * model holds: entry m indexes mode Skip(mode, m), shifted by the view's offset.
   */
  predicate RowFits(s: SubModel, mode: nat, c: seq<nat>)
  {
    s.model.Valid() && |s.off| == |s.model.dims| && mode < |s.off| && |c| + 1 == |s.off| &&
    forall m :: 0 <= m < |c| ==> s.off[Skip(mode, m)] + c[m] < s.model.dims[Skip(mode, m)]
  }

  /**
   * getMuLambda's row: the elementwise product of the latent vectors that c selects in the
   * first k other modes, in ascending mode order (the order of the V matrices).
   */
  function OtherModesRow(s: SubModel, mode: nat, c: seq<nat>, k: nat): (r: Vec)
    requires RowFits(s, mode, c) && 1 <= k <= |c|
    ensures |r| == s.NLatent()
    decreases k
  {
    var v := s.V(Skip(mode, k - 1), c[k - 1]);
    if k == 1 then v else Hadamard(OtherModesRow(s, mode, c, k - 1), v)
  }

  /** The inner loop of getMuLambda: start from the first V matrix's row and multiply in the others. */
  method RowOf(s: SubModel, mode: nat, idx: seq<nat>) returns (row: Vec)
    requires RowFits(s, mode, idx) && 1 <= |idx|
    ensures row == OtherModesRow(s, mode, idx, |idx|)
  {
    row := s.V(Skip(mode, 0), idx[0]);
    for m := 1 to |idx|
      invariant row == OtherModesRow(s, mode, idx, m)
    {
      row := Hadamard(row, s.V(Skip(mode, m), idx[m]));
    }
  }

  /**
   * The row for the first k other modes of a cell is the model's product of the latent vectors
   * of those modes, at the model coordinate q that c selects.
   */
  lemma {:induction false} OtherModesRowIsProduct(s: SubModel, mode: nat, c: seq<nat>, q: seq<nat>, k: nat)
    requires RowFits(s, mode, c) && s.model.InRange(q) && 1 <= k <= |c|
    requires forall j :: 0 <= j < |c| ==> q[Skip(mode, j)] == s.off[Skip(mode, j)] + c[j]
    ensures OtherModesRow(s, mode, c, k) == OtherColumnProduct(s.model, q, Skip(mode, k - 1) + 1, mode)
    decreases k
  {
    assert q[Skip(mode, k - 1)] == s.off[Skip(mode, k - 1)] + c[k - 1];
    if k == 1 {
      OtherModesRowFirst(s, mode, c, q);
    } else {
      OtherModesRowIsProduct(s, mode, c, q, k - 1);
      OtherModesRowStep(s, mode, c, q, k);
    }
  }

  /** The row for the first other mode is that mode's latent vector, the product's first factor. */
  lemma OtherModesRowFirst(s: SubModel, mode: nat, c: seq<nat>, q: seq<nat>)
    requires RowFits(s, mode, c) && s.model.InRange(q) && 1 <= |c|
    requires q[Skip(mode, 0)] == s.off[Skip(mode, 0)] + c[0]
    ensures OtherModesRow(s, mode, c, 1) == OtherColumnProduct(s.model, q, Skip(mode, 0) + 1, mode)
  {
    var m, x := s.model, Skip(mode, 0);
    var col := Col(m.factors[x], q[x]);
    assert s.V(x, c[0]) == col;
    OtherColumnProductStep(m, q, x, mode);
    OtherColumnProductBeforeFirst(m, q, mode);
    HadamardOnes(OtherColumnProduct(m, q, x, mode), col);
  }

  /** Multiplying in the k-th other mode's latent vector extends the product by that mode. */
  lemma OtherModesRowStep(s: SubModel, mode: nat, c: seq<nat>, q: seq<nat>, k: nat)
    requires RowFits(s, mode, c) && s.model.InRange(q) && 2 <= k <= |c|
    requires q[Skip(mode, k - 1)] == s.off[Skip(mode, k - 1)] + c[k - 1]
    requires OtherModesRow(s, mode, c, k - 1) == OtherColumnProduct(s.model, q, Skip(mode, k - 2) + 1, mode)
    ensures OtherModesRow(s, mode, c, k) == OtherColumnProduct(s.model, q, Skip(mode, k - 1) + 1, mode)
  {
    var m, x := s.model, Skip(mode, k - 1);
    var v := s.V(x, c[k - 1]);
    assert v == Col(m.factors[x], q[x]);
    OtherColumnProductStep(m, q, x, mode);
    OtherColumnProductBetween(m, q, mode, k - 1);
    assert OtherModesRow(s, mode, c, k) == Hadamard(OtherModesRow(s, mode, c, k - 1), v);
  }

  /** A mode other than `skip` multiplies its latent vector into the product. */
  lemma OtherColumnProductStep(m: Model, q: seq<nat>, n: nat, skip: nat)
    requires m.Valid() && m.InRange(q) && n < |m.dims| && n != skip
    ensures OtherColumnProduct(m, q, n + 1, skip) == Hadamard(OtherColumnProduct(m, q, n, skip), Col(m.factors[n], q[n]))
  {
  }

  /** No other mode comes before the first one. */
  lemma OtherColumnProductBeforeFirst(m: Model, q: seq<nat>, mode: nat)
    requires m.Valid() && m.InRange(q) && Skip(mode, 0) < |m.dims|
    ensures forall l :: 0 <= l < m.numLatent ==> OtherColumnProduct(m, q, Skip(mode, 0), mode)[l] == 1.0
  {
    assert OtherColumnProduct(m, q, Skip(mode, 0), mode) == OtherColumnProduct(m, q, 0, mode);
  }

  /** Between two consecutive other modes there is at most `mode`, which the product leaves out. */
  lemma OtherColumnProductBetween(m: Model, q: seq<nat>, mode: nat, k: nat)
    requires m.Valid() && m.InRange(q) && 1 <= k && Skip(mode, k) < |m.dims|
    ensures OtherColumnProduct(m, q, Skip(mode, k), mode) == OtherColumnProduct(m, q, Skip(mode, k - 1) + 1, mode)
  {
  }

  /** With k + 1 modes, the first k modes other than `mode` are all the modes but `mode`. */
  lemma OtherColumnProductAll(m: Model, q: seq<nat>, mode: nat, k: nat)
    requires m.Valid() && m.InRange(q) && mode < |q| && 1 <= k && k + 1 == |q|
    ensures OtherColumnProduct(m, q, Skip(mode, k - 1) + 1, mode) == OtherColumnProduct(m, q, |m.dims|, mode)
  {
  }

  /**
   * The cell pos formed by putting h back as the `mode` coordinate of a row c: when the view can
   * predict it, c selects items the model holds, and so does h in `mode`.
   */
  lemma CellRowFits(s: SubModel, mode: nat, c: seq<nat>, h: nat, pos: seq<nat>)
    requires mode <= |c| && pos == Insert(c, mode, h) && s.CanPredict(pos)
    ensures RowFits(s, mode, c) && |AddPos(s.off, pos)| == |pos| == |s.model.dims| == |c| + 1
    ensures s.model.InRange(AddPos(s.off, pos))
    ensures forall j :: 0 <= j < |c| ==> AddPos(s.off, pos)[Skip(mode, j)] == s.off[Skip(mode, j)] + c[j]
    ensures AddPos(s.off, pos)[mode] == s.off[mode] + h < s.model.dims[mode]
    ensures s.V(mode, h) == Col(s.model.factors[mode], AddPos(s.off, pos)[mode])
  {
  }

  /** The row getMuLambda forms from c is the model's product over the other modes of the cell. */
  lemma RowIsOtherProduct(s: SubModel, mode: nat, c: seq<nat>, h: nat, pos: seq<nat>)
    requires 1 <= |c| && mode <= |c| && pos == Insert(c, mode, h) && s.CanPredict(pos)
    ensures RowFits(s, mode, c) && s.off[mode] + h < s.model.dims[mode]
    ensures s.model.InRange(AddPos(s.off, pos))
    ensures OtherModesRow(s, mode, c, |c|) == OtherColumnProduct(s.model, AddPos(s.off, pos), |s.model.dims|, mode)
    ensures s.V(mode, h) == Col(s.model.factors[mode], AddPos(s.off, pos)[mode])
  {
    CellRowFits(s, mode, c, h, pos);
    var q := AddPos(s.off, pos);
    OtherModesRowIsProduct(s, mode, c, q, |c|);
    OtherColumnProductAll(s.model, q, mode, |c|);
  }

  /**
   * Why getMuLambda's statistics suffice: the prediction at the cell formed from row c and
   * coordinate h is the dot product of the row getMuLambda forms from c with item h's latent vector.
   */
  lemma RowPredicts(s: SubModel, mode: nat, c: seq<nat>, h: nat, pos: seq<nat>)
    requires 1 <= |c| && mode <= |c| && pos == Insert(c, mode, h) && s.CanPredict(pos)
    ensures RowFits(s, mode, c) && s.off[mode] + h < s.model.dims[mode]
    ensures s.Predict(pos) == Dot(OtherModesRow(s, mode, c, |c|), s.V(mode, h))
  {
    RowIsOtherProduct(s, mode, c, h, pos);
    PredictSplit(s.model, AddPos(s.off, pos), mode);
  }

  /** Every row of plane d of the view selects items the model holds. */
  predicate PlaneFits(s: SubModel, v: SparseMode, d: nat)
    requires v.Valid() && d < v.NPlanes()
  {
    forall j :: v.BeginPlane(d) <= j < v.EndPlane(d) ==> RowFits(s, v.mode, v.indices[j])
  }

  /** The rows getMuLambda forms for the items of plane d, in row order. */
  function PlaneRows(s: SubModel, v: SparseMode, d: nat): (rows: seq<Vec>)
    requires v.Valid() && 2 <= v.nmodes && d < v.NPlanes() && PlaneFits(s, v, d)
    ensures |rows| == v.NItemsOnPlane(d)
    ensures forall t :: 0 <= t < |rows| ==>
      rows[t] == OtherModesRow(s, v.mode, v.indices[v.BeginPlane(d) + t], v.NCoords())
  {
    seq(v.NItemsOnPlane(d), t requires 0 <= t < v.NItemsOnPlane(d) =>
      OtherModesRow(s, v.mode, v.indices[v.BeginPlane(d) + t], v.NCoords()))
  }

  /** The noisy values the noise model gives the items of plane d, in row order. */
  function PlaneNoise(v: SparseMode, d: nat, noisy: (seq<nat>, real) -> real): (ws: seq<real>)
    requires v.Valid() && d < v.NPlanes()
    ensures |ws| == v.NItemsOnPlane(d)
    ensures forall t :: 0 <= t < |ws| ==>
      ws[t] == noisy(v.Pos(d, v.BeginPlane(d) + t), v.values[v.BeginPlane(d) + t])
  {
    seq(v.NItemsOnPlane(d), t requires 0 <= t < v.NItemsOnPlane(d) =>
      noisy(v.Pos(d, v.BeginPlane(d) + t), v.values[v.BeginPlane(d) + t]))
  }

  /** Every row has an entry l. */
  predicate HasEntry(rows: seq<Vec>, l: nat)
  {
    forall k :: 0 <= k < |rows| ==> l < |rows[k]|
  }

  /** Entry l of rows[0] * ws[0] + ... + rows[n-1] * ws[n-1]. */
  function WeightedSum(rows: seq<Vec>, ws: seq<real>, n: nat, l: nat): real
    requires n <= |rows| == |ws| && HasEntry(rows, l)
  {
    if n == 0 then 0.0 else WeightedSum(rows, ws, n - 1, l) + rows[n - 1][l] * ws[n - 1]
  }

  /** Entry (r, c) of alpha * rows[0] * rows[0]^T + ... + alpha * rows[n-1] * rows[n-1]^T. */
  function Gram(rows: seq<Vec>, alpha: real, n: nat, r: nat, c: nat): real
    requires n <= |rows| && HasEntry(rows, r) && HasEntry(rows, c)
  {
    if n == 0 then 0.0 else Gram(rows, alpha, n - 1, r, c) + alpha * rows[n - 1][r] * rows[n - 1][c]
  }

  lemma WeightedSumStep(rows: seq<Vec>, ws: seq<real>, n: nat, l: nat)
    requires n < |rows| == |ws| && HasEntry(rows, l)
    ensures WeightedSum(rows, ws, n + 1, l) == WeightedSum(rows, ws, n, l) + rows[n][l] * ws[n]
  {
  }

  lemma GramStep(rows: seq<Vec>, alpha: real, n: nat, r: nat, c: nat)
    requires n < |rows| && HasEntry(rows, r) && HasEntry(rows, c)
    ensures Gram(rows, alpha, n + 1, r, c) == Gram(rows, alpha, n, r, c) + alpha * rows[n][r] * rows[n][c]
  {
  }

  /** A sum of outer products of rows with themselves is symmetric. */
  lemma {:induction false} GramSymmetric(rows: seq<Vec>, alpha: real, n: nat, r: nat, c: nat)
    requires n <= |rows| && HasEntry(rows, r) && HasEntry(rows, c)
    ensures Gram(rows, alpha, n, r, c) == Gram(rows, alpha, n, c, r)
  {
    if n > 0 {
      GramSymmetric(rows, alpha, n - 1, r, c);
      assert alpha * rows[n - 1][r] * rows[n - 1][c] == alpha * rows[n - 1][c] * rows[n - 1][r];
    }
  }

  /** MM.triangularView<Lower>() += alpha * row * row^T: the entries on and below the diagonal. */
  method AddLowerOuter(MM: array2<real>, alpha: real, row: Vec)
    requires MM.Length0 == |row| && MM.Length1 == |row|
    modifies MM
    ensures forall r, c :: 0 <= r < |row| && 0 <= c < |row| ==>
      MM[r, c] == old(MM[r, c]) + (if c <= r then alpha * row[r] * row[c] else 0.0)
  {
    var n := |row|;
    for r := 0 to n
      invariant forall r', c :: 0 <= r' < n && 0 <= c < n ==>
        MM[r', c] == old(MM[r', c]) + (if c <= r' < r then alpha * row[r'] * row[c] else 0.0)
    {
      for c := 0 to r + 1
        invariant forall r', c' :: 0 <= r' < n && 0 <= c' < n ==>
          MM[r', c'] == old(MM[r', c']) +
            (if c' <= r' < r || (r' == r && c' < c) then alpha * row[r'] * row[c'] else 0.0)
      {
        MM[r, c] := MM[r, c] + alpha * row[r] * row[c];
      }
    }
  }

  /** rr += row * x. */
  method AddScaled(rr: array<real>, row: Vec, x: real)
    requires rr.Length == |row|
    modifies rr
    ensures forall l :: 0 <= l < |row| ==> rr[l] == old(rr[l]) + row[l] * x
  {
    for l := 0 to |row|
      invariant forall l' :: 0 <= l' < |row| ==> rr[l'] == old(rr[l']) + (if l' < l then row[l'] * x else 0.0)
    {
      rr[l] := rr[l] + row[l] * x;
    }
  }

  /** MM.triangularView<Upper>() = MM.transpose(): every entry on or above the diagonal copies its mirror. */
  method MirrorLower(MM: array2<real>)
    requires MM.Length0 == MM.Length1
    modifies MM
    ensures forall r, c :: 0 <= r < MM.Length0 && 0 <= c < MM.Length0 ==>
      MM[r, c] == if r <= c then old(MM[c, r]) else old(MM[r, c])
  {
    var n := MM.Length0;
    for r := 0 to n
      invariant forall r', c :: 0 <= r' < n && 0 <= c < n ==>
        MM[r', c] == if r' < r && r' <= c then old(MM[c, r']) else old(MM[r', c])
    {
      for c := r to n
        invariant forall r', c' :: 0 <= r' < n && 0 <= c' < n ==>
          MM[r', c'] == if (r' < r && r' <= c') || (r' == r && r <= c' < c) then old(MM[c', r']) else old(MM[r', c'])
      {
        MM[r, c] := MM[c, r];
      }
    }
  }

  /** The accumulators after the first n rows: rr0 plus the weighted rows, MM0's lower triangle plus their Gram sum. */
  ghost predicate Accumulated(rows: seq<Vec>, ws: seq<real>, alpha: real, n: nat, L: nat,
                              rr: seq<real>, MM: seq<seq<real>>, rr0: seq<real>, MM0: seq<seq<real>>)
  {
    n <= |rows| == |ws| && (forall k :: 0 <= k < |rows| ==> |rows[k]| == L) &&
    |rr| == L && |rr0| == L && IsMatrix(MM, L, L) && IsMatrix(MM0, L, L) &&
    (forall l :: 0 <= l < L ==> rr[l] == rr0[l] + WeightedSum(rows, ws, n, l)) &&
    (forall r, c :: 0 <= r < L && 0 <= c < L ==>
      MM[r][c] == MM0[r][c] + (if c <= r then Gram(rows, alpha, n, r, c) else 0.0))
  }

  /** The entries of a square array, row by row. */
  function Entries(MM: array2<real>): (r: seq<seq<real>>)
    reads MM
    ensures IsMatrix(r, MM.Length0, MM.Length1)
    ensures forall i, j :: 0 <= i < MM.Length0 && 0 <= j < MM.Length1 ==> r[i][j] == MM[i, j]
  {
    seq(MM.Length0, i requires 0 <= i < MM.Length0 reads MM =>
      seq(MM.Length1, j requires 0 <= j < MM.Length1 reads MM => MM[i, j]))
  }

  /** The body of getMuLambda's loop for one row: MM's lower triangle gains alpha * row * row^T, rr gains row * x. */
  method AddRow(ghost rows: seq<Vec>, ghost ws: seq<real>, n: nat, row: Vec, x: real, alpha: real,
                rr: array<real>, MM: array2<real>, ghost rr0: seq<real>, ghost MM0: seq<seq<real>>)
    requires n < |rows| == |ws| && row == rows[n] && x == ws[n]
    requires MM.Length0 == rr.Length && MM.Length1 == rr.Length
    requires Accumulated(rows, ws, alpha, n, rr.Length, rr[..], Entries(MM), rr0, MM0)
    modifies rr, MM
    ensures Accumulated(rows, ws, alpha, n + 1, rr.Length, rr[..], Entries(MM), rr0, MM0)
  {
    var L := rr.Length;
    AddLowerOuter(MM, alpha, row);
    AddScaled(rr, row, x);
    forall l | 0 <= l < L
      ensures rr[l] == rr0[l] + WeightedSum(rows, ws, n + 1, l)
    {
      WeightedSumStep(rows, ws, n, l);
    }
    forall r, c | 0 <= r < L && 0 <= c < L
      ensures MM[r, c] == MM0[r][c] + (if c <= r then Gram(rows, alpha, n + 1, r, c) else 0.0)
    {
      GramStep(rows, alpha, n, r, c);
    }
  }

  /** Row t of plane d: its coordinates fit the model, and its row and noisy value are those the loop forms. */
  lemma PlaneRowAt(s: SubModel, v: SparseMode, d: nat, noisy: (seq<nat>, real) -> real, t: nat)
    requires v.Valid() && 2 <= v.nmodes && d < v.NPlanes() && PlaneFits(s, v, d) && t < v.NItemsOnPlane(d)
    ensures var j := v.BeginPlane(d) + t;
      j < v.EndPlane(d) && j < |v.indices| && j < |v.values| &&
      RowFits(s, v.mode, v.indices[j]) && 1 <= |v.indices[j]| == v.NCoords() &&
      PlaneRows(s, v, d)[t] == OtherModesRow(s, v.mode, v.indices[j], |v.indices[j]|) &&
      PlaneNoise(v, d, noisy)[t] == noisy(v.Pos(d, j), v.values[j])
  {
  }

  /**
   * Row t of plane d, read at the full coordinate pos it stands for: its dot product with the
   * latent vector of item d is the prediction at pos, and its noisy value is the one for pos.
   */
  lemma PlaneRowPredictsAt(s: SubModel, v: SparseMode, d: nat, noisy: (seq<nat>, real) -> real, t: nat, pos: seq<nat>)
    requires v.Valid() && 2 <= v.nmodes && d < v.NPlanes() && PlaneFits(s, v, d) && t < v.NItemsOnPlane(d)
    requires pos == v.Pos(d, v.BeginPlane(d) + t) && s.CanPredict(pos)
    ensures s.off[v.mode] + d < s.model.dims[v.mode]
    ensures Dot(PlaneRows(s, v, d)[t], s.V(v.mode, d)) == s.Predict(pos)
    ensures PlaneNoise(v, d, noisy)[t] == noisy(pos, v.values[v.BeginPlane(d) + t])
  {
    var j := v.BeginPlane(d) + t;
    PlaneRowAt(s, v, d, noisy, t);
    RowPredicts(s, v.mode, v.indices[j], d, pos);
  }

  /** Every row of plane d has one entry per latent dimension. */
  lemma PlaneRowsLength(s: SubModel, v: SparseMode, d: nat)
    requires v.Valid() && 2 <= v.nmodes && d < v.NPlanes() && PlaneFits(s, v, d)
    ensures forall k :: 0 <= k < |PlaneRows(s, v, d)| ==> |PlaneRows(s, v, d)[k]| == s.NLatent()
  {
  }

  /** One pass of getMuLambda's loop: row t of plane d is added to the accumulators. */
  method AddPlaneRow(sview: SparseMode, s: SubModel, d: nat, alpha: real, noisy: (seq<nat>, real) -> real, t: nat,
                     rr: array<real>, MM: array2<real>, ghost rr0: seq<real>, ghost MM0: seq<seq<real>>)
    requires sview.Valid() && 2 <= sview.nmodes && d < sview.NPlanes() && PlaneFits(s, sview, d)
    requires t < sview.NItemsOnPlane(d)
    requires rr.Length == s.NLatent() && MM.Length0 == rr.Length && MM.Length1 == rr.Length
    requires Accumulated(PlaneRows(s, sview, d), PlaneNoise(sview, d, noisy), alpha, t, rr.Length,
                         rr[..], Entries(MM), rr0, MM0)
    modifies rr, MM
    ensures Accumulated(PlaneRows(s, sview, d), PlaneNoise(sview, d, noisy), alpha, t + 1, rr.Length,
                        rr[..], Entries(MM), rr0, MM0)
  {
    var j := sview.BeginPlane(d) + t;
    PlaneRowAt(s, sview, d, noisy, t);
    var row := RowOf(s, sview.mode, sview.indices[j]);
    var noisyVal := noisy(sview.Pos(d, j), sview.values[j]);
    AddRow(PlaneRows(s, sview, d), PlaneNoise(sview, d, noisy), t, row, noisyVal, alpha, rr, MM, rr0, MM0);
  }

  /** getMuLambda's loop over the rows of plane d: the accumulators gain every row of the plane. */
  method AccumulatePlane(sview: SparseMode, s: SubModel, d: nat, alpha: real, noisy: (seq<nat>, real) -> real,
                         rr: array<real>, MM: array2<real>)
    requires sview.Valid() && 2 <= sview.nmodes && d < sview.NPlanes() && PlaneFits(s, sview, d)
    requires rr.Length == s.NLatent() && MM.Length0 == rr.Length && MM.Length1 == rr.Length
    modifies rr, MM
    ensures Accumulated(PlaneRows(s, sview, d), PlaneNoise(sview, d, noisy), alpha, sview.NItemsOnPlane(d), rr.Length,
                        rr[..], Entries(MM), old(rr[..]), old(Entries(MM)))
  {
    ghost var rr0, MM0 := rr[..], Entries(MM);
    PlaneRowsLength(s, sview, d);
    for t := 0 to sview.NItemsOnPlane(d)
      invariant Accumulated(PlaneRows(s, sview, d), PlaneNoise(sview, d, noisy), alpha, t, rr.Length,
                            rr[..], Entries(MM), rr0, MM0)
    {
      AddPlaneRow(sview, s, d, alpha, noisy, t, rr, MM, rr0, MM0);
    }
  }

  /**
   * getMuLambda on plane d of a view: for every row j of the plane, form the row of the other
   * modes' latent vectors, add alpha * row * row^T to the lower triangle of MM and
   * row * noisy(pos(d, j), value j) to rr; finally mirror MM's lower triangle into its upper one.
   */
  method MuLambdaOnPlane(sview: SparseMode, s: SubModel, d: nat, alpha: real, noisy: (seq<nat>, real) -> real,
                         rr: array<real>, MM: array2<real>)
    requires sview.Valid() && 2 <= sview.nmodes && d < sview.NPlanes() && PlaneFits(s, sview, d)
    requires rr.Length == s.NLatent() && MM.Length0 == s.NLatent() && MM.Length1 == s.NLatent()
    modifies rr, MM
    ensures forall l :: 0 <= l < rr.Length ==>
      rr[l] == old(rr[l]) + WeightedSum(PlaneRows(s, sview, d), PlaneNoise(sview, d, noisy), sview.NItemsOnPlane(d), l)
    ensures forall r, c :: 0 <= r < MM.Length0 && 0 <= c < MM.Length0 ==>
      MM[r, c] == (if c <= r then old(MM[r, c]) else old(MM[c, r])) + Gram(PlaneRows(s, sview, d), alpha, sview.NItemsOnPlane(d), r, c)
    ensures forall r, c :: 0 <= r < MM.Length0 && 0 <= c < MM.Length0 ==> MM[r, c] == MM[c, r]
  {
    ghost var rows := PlaneRows(s, sview, d);
    ghost var n := sview.NItemsOnPlane(d);
    ghost var MM0 := Entries(MM);
    AccumulatePlane(sview, s, d, alpha, noisy, rr, MM);
    ghost var mid := Entries(MM);
    MirrorLower(MM);
    MirroredGram(rows, alpha, n, MM.Length0, MM0, mid, Entries(MM));
  }

  /**
   * Mirroring a lower triangle that holds MM0's lower triangle plus a Gram sum gives MM0's
   * lower triangle, mirrored, plus the whole Gram sum, which is symmetric.
   */
  lemma MirroredGram(rows: seq<Vec>, alpha: real, n: nat, L: nat, MM0: seq<seq<real>>, mid: seq<seq<real>>,
                     fin: seq<seq<real>>)
    requires n <= |rows| && (forall k :: 0 <= k < |rows| ==> |rows[k]| == L)
    requires IsMatrix(MM0, L, L) && IsMatrix(mid, L, L) && IsMatrix(fin, L, L)
    requires forall r, c :: 0 <= r < L && 0 <= c < L ==>
      mid[r][c] == MM0[r][c] + (if c <= r then Gram(rows, alpha, n, r, c) else 0.0)
    requires forall r, c :: 0 <= r < L && 0 <= c < L ==> fin[r][c] == if r <= c then mid[c][r] else mid[r][c]
    ensures forall r, c :: 0 <= r < L && 0 <= c < L ==>
      fin[r][c] == (if c <= r then MM0[r][c] else MM0[c][r]) + Gram(rows, alpha, n, r, c)
    ensures forall r, c :: 0 <= r < L && 0 <= c < L ==> fin[r][c] == fin[c][r]
  {
    forall r, c | 0 <= r < L && 0 <= c < L
      ensures Gram(rows, alpha, n, r, c) == Gram(rows, alpha, n, c, r)
      ensures fin[r][c] == (if c <= r then MM0[r][c] else MM0[c][r]) + Gram(rows, alpha, n, r, c)
    {
      GramSymmetric(rows, alpha, n, r, c);
    }
    forall r, c | 0 <= r < L && 0 <= c < L
      ensures fin[r][c] == fin[c][r]
    {
      GramSymmetric(rows, alpha, n, r, c);
      assert fin[c][r] == (if r <= c then MM0[c][r] else MM0[r][c]) + Gram(rows, alpha, n, c, r);
    }
  }

  // ---------------------------------------------------------------------------------------
  // The tensor data.

  class TensorData {
    /** m_dims: the size of every mode. */
    const dims: seq<nat>
    /** m_nnz: the number of observed entries. */
    const nnz: nat
    /** m_Y: view m is the tensor rotated for mode m. */
    const Y: seq<SparseMode>
    /** The observations the views were built from, in input order. */
    ghost const coords: seq<seq<nat>>
    ghost const vals: seq<real>

    /** Y holds one view per mode, and view m is the view of mode m of the observations. */
    ghost predicate Valid()
    {
      |coords| == nnz && Observations(dims, coords, vals) && |Y| == |dims| &&
      forall m :: 0 <= m < |dims| ==> Y[m].nmodes == |dims| && IsRotation(Y[m], coords, vals, m, dims[m])
    }

    /** TensorData(const DenseTensor&): every cell is observed; cell c of the enumeration has value values[c]. */
    constructor FromDense(dims: seq<nat>, values: seq<real>)
      requires |values| == Product(dims)
      ensures Valid()
      ensures this.dims == dims && nnz == Product(dims) && vals == values
      ensures forall c :: 0 <= c < nnz ==> coords[c] == Unrank(dims, c)
    {
      var idx := DenseCoords(dims);
      var table := Rows(idx);
      forall c | 0 <= c < |table| ensures table[c] == Unrank(dims, c) {
        assert |table[c]| == |Unrank(dims, c)|;
      }
      var ys := BuildViews(dims, table, values);
      this.dims := dims;
      nnz := Product(dims);
      Y := ys;
      coords := table;
      vals := values;
      new;
      ViewsAreRotations();
    }

    /** TensorData(const SparseTensor&): observation i has coordinate columns[m][i] in mode m and value values[i]. */
    constructor FromSparse(dims: seq<nat>, columns: seq<seq<nat>>, values: seq<real>)
      requires |columns| == |dims|
      requires forall m :: 0 <= m < |dims| ==> |columns[m]| == |values|
      requires forall m, i :: 0 <= m < |dims| && 0 <= i < |values| ==> columns[m][i] < dims[m]
      ensures Valid()
      ensures this.dims == dims && nnz == |values| && vals == values
      ensures forall i, m :: 0 <= i < nnz && 0 <= m < |dims| ==> coords[i][m] == columns[m][i]
    {
      var idx := SparseCoords(columns, |values|);
      var table := Rows(idx);
      var ys := BuildViews(dims, table, values);
      this.dims := dims;
      nnz := |values|;
      Y := ys;
      coords := table;
      vals := values;
      new;
      ViewsAreRotations();
    }

    lemma ViewsAreRotations()
      requires |coords| == nnz && Observations(dims, coords, vals)
      requires |Y| == |dims| && forall m :: 0 <= m < |dims| ==> Y[m] == Rotate(coords, vals, m, |dims|, dims[m])
      ensures Valid()
    {
      forall m | 0 <= m < |dims|
        ensures Y[m].nmodes == |dims| && IsRotation(Y[m], coords, vals, m, dims[m])
      {
        RotateIsRotation(coords, vals, m, |dims|, dims[m]);
      }
    }

    /** nmode(): the number of modes, which is the number of views. */
    function NMode(): (r: nat)
      requires Valid()
      ensures r == |Y|
    {
      |dims|
    }

    /** nnz(): the number of observations, which every view holds in full. */
    function Nnz(): (r: nat)
      requires Valid()
      ensures r == |vals| && forall m :: 0 <= m < |Y| ==> Y[m].NNZ() == r
    {
      forall m | 0 <= m < |Y| ensures Y[m].NNZ() == nnz {
        RotationCount(Y[m], coords, vals, m, dims[m]);
      }
      nnz
    }

    /** size(): the number of cells, as a uint64. */
    function Size(): nat
    {
      Product(dims) % U64
    }

    /** nna(): size() - nnz() in uint64 arithmetic, so it wraps when nnz exceeds size(). */
    function Nna(): (r: nat)
      requires nnz < U64
      ensures r < U64
      ensures nnz <= Size() ==> r == Size() - nnz
      ensures nnz > Size() ==> r == U64 + Size() - nnz
    {
      (Size() - nnz) % U64
    }

    /** item(mode, h, n): the n-th observation of hyperplane h of view `mode`, or "Invalid mode". */
    function Item(mode: nat, h: nat, n: nat): (r: Result<(seq<nat>, real)>)
      requires Valid()
      requires mode < |Y| ==> h < Y[mode].NPlanes() && n < Y[mode].NItemsOnPlane(h)
      ensures r.Err? <==> mode >= |Y|
      ensures r.Err? ==> r.error == InvalidMode
      ensures r.Ok? ==> |r.value.0| == |dims| && r.value.0[mode] == h
      ensures r.Ok? ==> exists o :: 0 <= o < nnz && r.value == (coords[o], vals[o])
    {
      if mode >= |Y| then Err(InvalidMode)
      else
        ItemIsObservation(mode, h, n);
        Ok(Y[mode].Item(h, n))
    }

    lemma ItemIsObservation(mode: nat, h: nat, n: nat)
      requires Valid() && mode < |Y| && h < Y[mode].NPlanes() && n < Y[mode].NItemsOnPlane(h)
      ensures exists o :: 0 <= o < nnz && Y[mode].Item(h, n) == (coords[o], vals[o])
    {
      PlaneItem(Y[mode], coords, vals, mode, dims[mode], h, n);
    }

    /** pos(mode, h, j): the full coordinate of row j of view `mode` seen from hyperplane h, or "Invalid mode". */
    function Pos(mode: nat, h: nat, j: nat): (r: Result<seq<nat>>)
      requires Valid()
      requires mode < |Y| ==> h < Y[mode].NPlanes() && j < Y[mode].NNZ()
      ensures r.Err? <==> mode >= |Y|
      ensures r.Err? ==> r.error == InvalidMode
      ensures r.Ok? ==> |r.value| == |dims| && r.value[mode] == h
      ensures r.Ok? && Y[mode].InPlane(h, j) ==> exists o :: 0 <= o < nnz && r.value == coords[o]
    {
      if mode >= |Y| then Err(InvalidMode)
      else
        RowIsObservation(mode, h, j);
        Ok(Y[mode].Pos(h, j))
    }

    lemma RowIsObservation(mode: nat, h: nat, j: nat)
      requires Valid() && mode < |Y| && h < Y[mode].NPlanes() && j < Y[mode].NNZ()
      ensures Y[mode].InPlane(h, j) ==> exists o :: 0 <= o < nnz && Y[mode].Pos(h, j) == coords[o]
    {
      var v := Y[mode];
      if v.InPlane(h, j) {
        var t := j - v.ptr[h];
        ItemIsRow(v, h, t, j);
        ItemIsObservation(mode, h, t);
      }
    }

    /** Row j of plane d of view `mode` holds, besides d, the other coordinates of an observation. */
    lemma PlaneRowIsObservation(mode: nat, d: nat, j: nat) returns (o: nat)
      requires Valid() && mode < |dims| && d < Y[mode].NPlanes() && Y[mode].InPlane(d, j)
      ensures o < nnz && coords[o][mode] == d && Y[mode].Pos(d, j) == coords[o]
      ensures |coords[o]| == |dims| && Drop(coords[o], mode) == Y[mode].indices[j]
      ensures Y[mode].values[j] == vals[o]
    {
      var v := Y[mode];
      var t := j - v.BeginPlane(d);
      PlaneItem(v, coords, vals, mode, dims[mode], d, t);
      o := Matching(Keys(coords, mode), d)[t];
      ItemIsRow(v, d, t, j);
      DropInsert(v.indices[j], mode, d);
    }

    /** A model that covers every observation covers the rows of every plane. */
    lemma PlaneFitsFromData(s: SubModel, mode: nat, d: nat)
      requires Valid() && mode < |dims| && d < dims[mode]
      requires forall i :: 0 <= i < nnz ==> s.CanPredict(coords[i])
      ensures d < Y[mode].NPlanes() && PlaneFits(s, Y[mode], d)
    {
      var v := Y[mode];
      forall j | v.BeginPlane(d) <= j < v.EndPlane(d) ensures RowFits(s, mode, v.indices[j]) {
        var o := PlaneRowIsObservation(mode, d, j);
        CellRowFits(s, mode, v.indices[j], d, coords[o]);
      }
    }

    /**
     * What getMuLambda accumulates, in the data's terms: row t of plane d is formed from an
     * observation with coordinate d in `mode`; its dot product with the latent vector of item d
     * is the model's prediction for that observation, and its noisy value is the noise model's
     * value for that observation.
     */
    lemma PlaneRowPredicts(s: SubModel, mode: nat, d: nat, noisy: (seq<nat>, real) -> real, t: nat)
      requires Valid() && 2 <= |dims| && mode < |dims| && d < dims[mode]
      requires forall i :: 0 <= i < nnz ==> s.CanPredict(coords[i])
      requires t < Y[mode].NItemsOnPlane(d)
      ensures PlaneFits(s, Y[mode], d)
      ensures exists o :: (0 <= o < nnz && coords[o][mode] == d && s.CanPredict(coords[o]) &&
        Dot(PlaneRows(s, Y[mode], d)[t], s.V(mode, d)) == s.Predict(coords[o]) &&
        PlaneNoise(Y[mode], d, noisy)[t] == noisy(coords[o], vals[o]))
    {
      var v := Y[mode];
      PlaneFitsFromData(s, mode, d);
      var j := v.BeginPlane(d) + t;
      var o := PlaneRowIsObservation(mode, d, j);
      PlaneRowPredictsAt(s, v, d, noisy, t, coords[o]);
    }

    /**
     * getMuLambda(model, mode, d, rr, MM): the sufficient statistics of item d of `mode`. rr gains
     * the rows of plane d of view `mode` weighted by their noisy values, MM the alpha-weighted sum of
     * their outer products, made symmetric from its lower triangle.
     */
    method GetMuLambda(s: SubModel, mode: nat, d: nat, alpha: real, noisy: (seq<nat>, real) -> real,
                       rr: array<real>, MM: array2<real>)
      requires Valid() && 2 <= |dims| && mode < |dims| && d < dims[mode] && PlaneFits(s, Y[mode], d)
      requires rr.Length == s.NLatent() && MM.Length0 == s.NLatent() && MM.Length1 == s.NLatent()
      modifies rr, MM
      ensures forall l :: 0 <= l < rr.Length ==>
        rr[l] == old(rr[l]) + WeightedSum(PlaneRows(s, Y[mode], d), PlaneNoise(Y[mode], d, noisy), Y[mode].NItemsOnPlane(d), l)
      ensures forall r, c :: 0 <= r < MM.Length0 && 0 <= c < MM.Length0 ==>
        MM[r, c] == (if c <= r then old(MM[r, c]) else old(MM[c, r])) + Gram(PlaneRows(s, Y[mode], d), alpha, Y[mode].NItemsOnPlane(d), r, c)
      ensures forall r, c :: 0 <= r < MM.Length0 && 0 <= c < MM.Length0 ==> MM[r, c] == MM[c, r]
    {
      MuLambdaOnPlane(Y[mode], s, d, alpha, noisy, rr, MM);
    }

    /** sum(): the values of view 0 added plane by plane, row by row; that is the sum of all values. */
    method Sum() returns (esum: real)
      requires Valid() && |dims| > 0
      ensures esum == Linalg.Sum(vals)
    {
      esum := 0.0;
      var sview := Y[0];
      for n := 0 to sview.NPlanes()
        invariant esum == RangeSum(sview.values, 0, sview.ptr[n])
      {
        for j := sview.BeginPlane(n) to sview.EndPlane(n)
          invariant esum == RangeSum(sview.values, 0, j)
        {
          esum := esum + sview.values[j];
        }
      }
      RotationSum(sview, coords, vals, 0, dims[0]);
    }

    /** sumsq(model): the squared prediction errors of the items of view 0, plane by plane. */
    method SumSq(s: SubModel) returns (sumsq: real)
      requires Valid() && |dims| > 0
      requires forall i :: 0 <= i < nnz ==> s.CanPredict(coords[i])
      ensures sumsq == Linalg.Sum(SquaredErrors(s, coords, vals))
    {
      var sview := Y[0];
      ghost var g := SquaredError(s);
      forall h, n | 0 <= h < sview.NPlanes() && 0 <= n < sview.NItemsOnPlane(h)
        ensures s.CanPredict(sview.Item(h, n).0)
      {
        ItemIsObservation(0, h, n);
      }
      sumsq := SquaredErrorsOver(sview, s);
      RotationFold(sview, coords, vals, 0, dims[0], g);
      SquaredErrorWeights(s, coords, vals);
    }

    /**
     * var_total(): the variance of the values, taken around sum()/nnz() over the items of view 0;
     * 1.0 when it is not positive. With no observations the source divides 0 by 0, and the NaN
     * it gets is replaced by 1.0 too.
     */
    method VarTotal() returns (var_: real)
      requires Valid() && |dims| > 0
      ensures var_ == if nnz > 0 && Variance(vals) > 0.0 then Variance(vals) else 1.0
      ensures var_ > 0.0
    {
      var total := Sum();
      if nnz == 0 {
        return 1.0;
      }
      var mean := total / (nnz as real);
      var sview := Y[0];
      ghost var g := Deviation(mean);
      var se := SquaredDeviationsOver(sview, mean);
      RotationFold(sview, coords, vals, 0, dims[0], g);
      DeviationWeights(coords, vals, mean);
      assert mean == Mean(vals);
      var_ := se / (nnz as real);
      if var_ <= 0.0 {
        var_ := 1.0;
      }
    }

    /** train_rmse(model): sqrt(sumsq / nnz); with no observations the source gets NaN, here None. */
    method TrainRmse(s: SubModel, sqrt: real -> real) returns (r: Option<real>)
      requires Valid() && |dims| > 0
      requires forall i :: 0 <= i < nnz ==> s.CanPredict(coords[i])
      ensures r.None? <==> nnz == 0
      ensures r.Some? ==> r.value == sqrt(Linalg.Sum(SquaredErrors(s, coords, vals)) / (nnz as real))
    {
      var sumsq := SumSq(s);
      if nnz == 0 {
        return None;
      }
      return Some(sqrt(sumsq / (nnz as real)));
    }
  }
}
