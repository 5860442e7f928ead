/**
 * The latent-factor model (one L x dim factor matrix per mode, optional link matrices for
 * side information) and SubModel, the non-owning view that shifts every coordinate by an offset.
 */
module Models {
  import opened Linalg
  import opened Status

  /** Coordinate addition, as PVec's operator+. */
  function AddPos(a: seq<nat>, b: seq<nat>): (r: seq<nat>)
    requires |a| == |b|
    ensures |r| == |a| && forall f :: 0 <= f < |a| ==> r[f] == a[f] + b[f]
  {
    seq(|a|, f requires 0 <= f < |a| => a[f] + b[f])
  }

  /** Shifting by o and then by s is shifting by s and then by o: offsets add up in any order. */
  lemma AddPosShift(o: seq<nat>, s: seq<nat>, p: seq<nat>)
    requires |o| == |s| == |p|
    ensures AddPos(AddPos(o, s), p) == AddPos(s, AddPos(o, p))
  {
    assert forall f :: 0 <= f < |p| ==> AddPos(AddPos(o, s), p)[f] == AddPos(s, AddPos(o, p))[f];
  }

  /** A coordinate of n zeros, as PVec<>(n). */
  function Zeros(n: nat): (r: seq<nat>)
    ensures |r| == n && forall f :: 0 <= f < n ==> r[f] == 0
  {
    seq(n, f => 0)
  }

  /**
   * factors[f] is U(f), numLatent rows by dims[f] columns: column i is the latent vector of
   * item i of mode f. links[f] is the link matrix of mode f, if one was set.
   */
  datatype Model = Model(factors: seq<Matrix>, links: seq<Option<Matrix>>, numLatent: nat, dims: seq<nat>)
  {
    predicate Valid()
    {
      |factors| == |dims| && |links| == |dims| &&
      (forall f :: 0 <= f < |dims| ==> IsMatrix(factors[f], numLatent, dims[f])) &&
      (forall f :: 0 <= f < |dims| && links[f].Some? ==> IsMatrix(links[f].value, numLatent, Cols(links[f].value)))
    }

    function NModes(): nat { |factors| }

    function NLatent(): nat { numLatent }

    /** pos names one cell: one in-range index per mode. */
    predicate InRange(pos: seq<nat>)
    {
      |pos| == |dims| && forall f :: 0 <= f < |dims| ==> pos[f] < dims[f]
    }

    /** U(0)[l][pos[0]] * ... * U(n-1)[l][pos[n-1]]. */
    function LatentProduct(pos: seq<nat>, l: nat, n: nat): real
      requires Valid() && InRange(pos) && l < numLatent && n <= |dims|
    {
      if n == 0 then 1.0 else LatentProduct(pos, l, n - 1) * factors[n - 1][l][pos[n - 1]]
    }

    /** Sum over latent rows l < k of LatentProduct(pos, l, nmodes). */
    function PredictUpTo(pos: seq<nat>, k: nat): real
      requires Valid() && InRange(pos) && k <= numLatent
    {
      if k == 0 then 0.0 else PredictUpTo(pos, k - 1) + LatentProduct(pos, k - 1, |dims|)
    }

    /**
     * Model::predict(pos): sum over latent rows of the product of the entries pos selects,
     * which is the "dot product" of the selected columns: the sum of their elementwise product.
     */
    function Predict(pos: seq<nat>): (r: real)
      requires Valid() && InRange(pos)
      ensures r == Sum(ColumnProduct(pos, |dims|))
    {
      var v := ColumnProduct(pos, |dims|);
      PredictUpToIsPrefixSum(this, pos, numLatent);
      assert v[..numLatent] == v;
      PredictUpTo(pos, numLatent)
    }

    /** The elementwise product of the latent vectors pos selects in modes 0..n-1. */
    function ColumnProduct(pos: seq<nat>, n: nat): (v: Vec)
      requires Valid() && InRange(pos) && n <= |dims|
      ensures |v| == numLatent
    {
      if n == 0 then seq(numLatent, l => 1.0)
      else Hadamard(ColumnProduct(pos, n - 1), Col(factors[n - 1], pos[n - 1]))
    }
  }

  lemma {:induction false} ColumnProductAt(m: Model, pos: seq<nat>, n: nat, l: nat)
    requires m.Valid() && m.InRange(pos) && n <= |m.dims| && l < m.numLatent
    ensures m.ColumnProduct(pos, n)[l] == m.LatentProduct(pos, l, n)
  {
    if n > 0 {
      ColumnProductAt(m, pos, n - 1, l);
    }
  }

  lemma {:induction false} PredictUpToIsPrefixSum(m: Model, pos: seq<nat>, k: nat)
    requires m.Valid() && m.InRange(pos) && k <= m.numLatent
    ensures m.PredictUpTo(pos, k) == Sum(m.ColumnProduct(pos, |m.dims|)[..k])
  {
    var v := m.ColumnProduct(pos, |m.dims|);
    if k > 0 {
      PredictUpToIsPrefixSum(m, pos, k - 1);
      assert v[..k][..k - 1] == v[..k - 1];
      ColumnProductAt(m, pos, |m.dims|, k - 1);
    }
  }

  lemma {:induction false} PredictUpToTwoModes(m: Model, i: nat, j: nat, k: nat)
    requires m.Valid() && |m.dims| == 2 && m.InRange([i, j]) && k <= m.numLatent
    ensures m.PredictUpTo([i, j], k) == Dot(Col(m.factors[0], i)[..k], Col(m.factors[1], j)[..k])
  {
    var a, b := Col(m.factors[0], i), Col(m.factors[1], j);
    if k > 0 {
      PredictUpToTwoModes(m, i, j, k - 1);
      assert a[..k][..k - 1] == a[..k - 1];
      assert b[..k][..k - 1] == b[..k - 1];
      assert m.LatentProduct([i, j], k - 1, 1) == a[k - 1];
      assert m.LatentProduct([i, j], k - 1, 2) == a[k - 1] * b[k - 1];
    }
  }

  /** For a matrix model, predict((i, j)) is the dot product of column i of U(0) and column j of U(1). */
  lemma PredictTwoModesIsDot(m: Model, i: nat, j: nat)
    requires m.Valid() && |m.dims| == 2 && m.InRange([i, j])
    ensures m.Predict([i, j]) == Dot(Col(m.factors[0], i), Col(m.factors[1], j))
  {
    var a, b := Col(m.factors[0], i), Col(m.factors[1], j);
    PredictUpToTwoModes(m, i, j, m.numLatent);
    assert a[..m.numLatent] == a;
    assert b[..m.numLatent] == b;
  }

  /** L = 1, U(0) = [[2, 3]], U(1) = [[4, 5]]: predict((0, 1)) = 10 and predict((1, 0)) = 12. */
  lemma PredictExample()
    ensures var m := Model([[[2.0, 3.0]], [[4.0, 5.0]]], [None, None], 1, [2, 2]);
      m.Valid() && m.Predict([0, 1]) == 10.0 && m.Predict([1, 0]) == 12.0
  {
    var m := Model([[[2.0, 3.0]], [[4.0, 5.0]]], [None, None], 1, [2, 2]);
    assert m.LatentProduct([0, 1], 0, 2) == 10.0;
    assert m.LatentProduct([1, 0], 0, 2) == 12.0;
  }

  /** ColumnProduct over modes 0..n-1 with mode `skip` left out. */
  function OtherColumnProduct(m: Model, pos: seq<nat>, n: nat, skip: nat): (v: Vec)
    requires m.Valid() && m.InRange(pos) && n <= |m.dims|
    ensures |v| == m.numLatent
  {
    if n == 0 then seq(m.numLatent, l => 1.0)
    else if n - 1 == skip then OtherColumnProduct(m, pos, n - 1, skip)
    else Hadamard(OtherColumnProduct(m, pos, n - 1, skip), Col(m.factors[n - 1], pos[n - 1]))
  }

  /**
   * The product of the latent vectors of modes 0..n-1 is that of the same modes but `skip`,
   * times that of mode `skip` when it is among them.
   */
  lemma {:induction false} ColumnProductSplitUpTo(m: Model, pos: seq<nat>, n: nat, skip: nat)
    requires m.Valid() && m.InRange(pos) && n <= |m.dims| && skip < |m.dims|
    ensures skip < n ==> m.ColumnProduct(pos, n) == Hadamard(OtherColumnProduct(m, pos, n, skip), Col(m.factors[skip], pos[skip]))
    ensures skip >= n ==> m.ColumnProduct(pos, n) == OtherColumnProduct(m, pos, n, skip)
  {
    if n == 0 {
      var ones := m.ColumnProduct(pos, 0);
      assert forall l :: 0 <= l < m.numLatent ==> ones[l] == OtherColumnProduct(m, pos, 0, skip)[l];
    } else {
      ColumnProductSplitUpTo(m, pos, n - 1, skip);
      var other, c := OtherColumnProduct(m, pos, n - 1, skip), Col(m.factors[n - 1], pos[n - 1]);
      if skip < n - 1 {
        HadamardSwap(other, Col(m.factors[skip], pos[skip]), c);
      }
    }
  }

  /** The product of the latent vectors of all modes is that of the other modes times that of mode `skip`. */
  lemma ColumnProductSplit(m: Model, pos: seq<nat>, skip: nat)
    requires m.Valid() && m.InRange(pos) && skip < |m.dims|
    ensures m.ColumnProduct(pos, |m.dims|) ==
      Hadamard(OtherColumnProduct(m, pos, |m.dims|, skip), Col(m.factors[skip], pos[skip]))
  {
    ColumnProductSplitUpTo(m, pos, |m.dims|, skip);
  }

  /** predict(pos) is linear in the latent vector of any one mode: its dot product with the other modes' product. */
  lemma PredictSplit(m: Model, pos: seq<nat>, skip: nat)
    requires m.Valid() && m.InRange(pos) && skip < |m.dims|
    ensures m.Predict(pos) == Dot(OtherColumnProduct(m, pos, |m.dims|, skip), Col(m.factors[skip], pos[skip]))
  {
    ColumnProductSplit(m, pos, skip);
    SumHadamardIsDot(OtherColumnProduct(m, pos, |m.dims|, skip), Col(m.factors[skip], pos[skip]));
  }

  /**
   * SubModel: the model seen through an offset. View coordinate pos stands for model
   * coordinate off + pos; dims is the shape the view exposes.
   */
  datatype SubModel = SubModel(model: Model, off: seq<nat>, dims: seq<nat>)
  {
    /** pos can be predicted: the shifted coordinate is a cell of the model. */
    predicate CanPredict(pos: seq<nat>)
    {
      model.Valid() && |off| == |model.dims| && |pos| == |off| && model.InRange(AddPos(off, pos))
    }

    /** SubModel::predict: Model::predict at the shifted coordinate, so it reads columns off + pos. */
    function Predict(pos: seq<nat>): (r: real)
      requires CanPredict(pos)
      ensures r == Sum(model.ColumnProduct(AddPos(off, pos), |off|))
    {
      model.Predict(AddPos(off, pos))
    }

    function NLatent(): nat { model.NLatent() }

    function NModes(): nat { model.NModes() }

    /** Latent vector of item i of mode f as the view sees it: column off[f] + i of U(f). */
    function V(f: nat, i: nat): (v: Vec)
      requires model.Valid() && |off| == |model.dims| && f < |off| && off[f] + i < model.dims[f]
      ensures |v| == model.numLatent
    {
      Col(model.factors[f], off[f] + i)
    }
  }

  /** SubModel(const SubModel &m, o, d): same underlying model, offset o + m.m_off. */
  function Nest(s: SubModel, o: seq<nat>, d: seq<nat>): (r: SubModel)
    requires |o| == |s.off|
    ensures r.model == s.model && r.dims == d
    ensures |r.off| == |o| && forall f :: 0 <= f < |o| ==> r.off[f] == o[f] + s.off[f]
  {
    SubModel(s.model, AddPos(o, s.off), d)
  }

  /** SubModel(const Model &m): offset of nmodes() zeros, dims those of the model. */
  function Full(m: Model): (r: SubModel)
    ensures r.model == m && r.dims == m.dims
    ensures |r.off| == m.NModes() && forall f :: 0 <= f < |r.off| ==> r.off[f] == 0
  {
    SubModel(m, Zeros(m.NModes()), m.dims)
  }

  /** Views report the latent size and mode count of the model they look at, however deep the nesting. */
  lemma ViewShape(m: Model, s: SubModel, o: seq<nat>, d: seq<nat>)
    requires |o| == |s.off|
    ensures Full(m).NLatent() == m.NLatent() && Full(m).NModes() == m.NModes()
    ensures Nest(s, o, d).NLatent() == s.NLatent() && Nest(s, o, d).NModes() == s.NModes()
  {
  }

  /** The full view predicts exactly what the model predicts. */
  lemma FullPredict(m: Model, pos: seq<nat>)
    requires m.Valid() && m.InRange(pos)
    ensures Full(m).CanPredict(pos) && Full(m).Predict(pos) == m.Predict(pos)
  {
    assert AddPos(Full(m).off, pos) == pos;
  }

  /** A view of a view predicts what the inner view predicts at the coordinate shifted by the outer offset. */
  lemma NestPredict(s: SubModel, o: seq<nat>, d: seq<nat>, pos: seq<nat>)
    requires |o| == |s.off| && |pos| == |o| && s.CanPredict(AddPos(o, pos))
    ensures Nest(s, o, d).CanPredict(pos)
    ensures Nest(s, o, d).Predict(pos) == s.Predict(AddPos(o, pos))
  {
    AddPosShift(o, s.off, pos);
  }

  /** Mean of the columns of U, one entry per latent row: the mean latent vector of the mode's items. */
  function MeanItem(U: Matrix, n: nat): (r: Vec)
    requires n > 0 && forall l :: 0 <= l < |U| ==> |U[l]| == n
    ensures |r| == |U|
  {
    seq(|U|, l requires 0 <= l < |U| => Sum(U[l]) / (n as real))
  }

  function MatVec(M: Matrix, x: Vec): (r: Vec)
    requires forall row :: 0 <= row < |M| ==> |M[row]| == |x|
    ensures |r| == |M| && forall row :: 0 <= row < |M| ==> r[row] == Dot(M[row], x)
  {
    seq(|M|, row requires 0 <= row < |M| => Dot(M[row], x))
  }

  function VecAdd(a: Vec, b: Vec): (r: Vec)
    requires |a| == |b|
    ensures |r| == |a| && forall i :: 0 <= i < |a| ==> r[i] == a[i] + b[i]
  {
    seq(|a|, i requires 0 <= i < |a| => a[i] + b[i])
  }

  /** What the source leaves to its callers: a feature vector that fits the link matrix, a mode with items. */
  predicate FeaturesFit(m: Model, mode: int, f: Vec)
    requires m.Valid()
  {
    0 <= mode < |m.links| && m.links[mode].Some? ==>
      |f| == Cols(m.links[mode].value) && m.dims[mode] > 0
  }

  /** Model::predict_latent: beta * f plus the mean latent vector of the mode, or the error it raises. */
  function PredictLatent(m: Model, mode: int, f: Vec): (r: Result<Vec>)
    requires m.Valid() && FeaturesFit(m, mode, f)
    ensures r.Err? <==> !(0 <= mode < |m.links|) || m.links[mode].None?
    ensures r.Err? ==> r.error == (if 0 <= mode < |m.links| then NoLinkMatrix else OutOfRange)
    ensures r.Ok? ==> |r.value| == m.NLatent()
    ensures r.Ok? ==> forall l :: 0 <= l < m.numLatent ==>
      r.value[l] == Dot(m.links[mode].value[l], f) + Sum(m.factors[mode][l]) / (m.dims[mode] as real)
  {
    if !(0 <= mode < |m.links|) then Err(OutOfRange)
    else if m.links[mode].None? then Err(NoLinkMatrix)
    else
      var beta := m.links[mode].value;
      Ok(VecAdd(MatVec(beta, f), MeanItem(m.factors[mode], m.dims[mode])))
  }

  lemma {:induction false} DotZero(a: Vec, z: Vec)
    requires |a| == |z| && forall i :: 0 <= i < |z| ==> z[i] == 0.0
    ensures Dot(a, z) == 0.0
  {
    if |a| > 0 {
      DotZero(a[..|a| - 1], z[..|z| - 1]);
    }
  }

  /** With an all-zero feature vector the predicted latent vector is the mean latent vector of the mode. */
  lemma LatentOfZeroFeatures(m: Model, mode: nat, f: Vec)
    requires m.Valid() && mode < |m.links| && m.links[mode].Some? && FeaturesFit(m, mode, f)
    requires forall i :: 0 <= i < |f| ==> f[i] == 0.0
    ensures PredictLatent(m, mode, f) == Ok(MeanItem(m.factors[mode], m.dims[mode]))
  {
    var beta := m.links[mode].value;
    forall l | 0 <= l < |beta| ensures Dot(beta[l], f) == 0.0 {
      DotZero(beta[l], f);
    }
    var mean := MeanItem(m.factors[mode], m.dims[mode]);
    assert VecAdd(MatVec(beta, f), mean) == mean;
  }

  /** The other mode of a matrix model: (mode + 1) % 2. */
  function OtherMode(mode: nat): (r: nat)
    requires mode < 2
    ensures r < 2 && r != mode && r == 1 - mode
  {
    (mode + 1) % 2
  }

  /** Scores of every item of the other mode against a latent vector: latent^T * U(other). */
  function ScoreColumn(m: Model, mode: nat, latent: Vec): (r: Vec)
    requires m.Valid() && |m.dims| == 2 && mode < 2 && |latent| == m.numLatent
    ensures |r| == m.dims[OtherMode(mode)]
  {
    var other := OtherMode(mode);
    seq(m.dims[other], i requires 0 <= i < m.dims[other] => Dot(latent, Col(m.factors[other], i)))
  }

  /** Model::predict(mode, f): a full predicted column for the other mode, from a feature vector. */
  function PredictFromFeatures(m: Model, mode: int, f: Vec): (r: Result<Vec>)
    requires m.Valid() && FeaturesFit(m, mode, f)
    ensures m.NModes() != 2 ==> r == Err(OnlyTwoModes)
    ensures m.NModes() == 2 ==> r.Err? == PredictLatent(m, mode, f).Err?
    ensures m.NModes() == 2 && r.Err? ==> r.error == PredictLatent(m, mode, f).error
    ensures r.Ok? ==> 0 <= mode < 2 && |r.value| == m.dims[OtherMode(mode)]
    ensures r.Ok? ==> forall i :: 0 <= i < |r.value| ==>
      r.value[i] == Dot(PredictLatent(m, mode, f).value, Col(m.factors[OtherMode(mode)], i))
  {
    if m.NModes() != 2 then Err(OnlyTwoModes)
    else
      var latent :- PredictLatent(m, mode, f);
      Ok(ScoreColumn(m, mode, latent))
  }

  lemma {:induction false} DotCommutes(a: Vec, b: Vec)
    requires |a| == |b|
    ensures Dot(a, b) == Dot(b, a)
  {
    if |a| > 0 {
      DotCommutes(a[..|a| - 1], b[..|b| - 1]);
    }
  }

  /**
   * Scoring an item's own latent vector against the other mode reproduces predict():
   * entry i of the column is predict at the cell (k, i) (mode 0) or (i, k) (mode 1).
   */
  lemma ScoreColumnOfItem(m: Model, mode: nat, k: nat, i: nat)
    requires m.Valid() && |m.dims| == 2 && mode < 2
    requires k < m.dims[mode] && i < m.dims[OtherMode(mode)]
    ensures var cell := if mode == 0 then [k, i] else [i, k];
      m.InRange(cell) &&
      ScoreColumn(m, mode, Col(m.factors[mode], k))[i] == m.Predict(cell)
  {
    var own, other := Col(m.factors[mode], k), Col(m.factors[OtherMode(mode)], i);
    if mode == 0 {
      PredictTwoModesIsDot(m, k, i);
    } else {
      PredictTwoModesIsDot(m, i, k);
      DotCommutes(other, own);
    }
  }
}
