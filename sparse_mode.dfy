/**
 * SparseMode: the observations of a tensor rotated so that one mode can be walked hyperplane
 * by hyperplane. Row j holds the coordinates of one observation in every OTHER mode (ascending
 * mode order) and its value; hyperplane p is the half-open row range ptr[p] .. ptr[p+1] and
 * holds exactly the observations whose coordinate in `mode` is p.
 *
 * Only the operations TensorData calls are modelled (getNPlanes, beginPlane, endPlane,
 * getIndices, getValues, getNCoords, nItemsOnPlane, item, pos); construction is Rotate, a
 * stable bucketing of the observations by their coordinate in `mode`.
 */
module SparseModes {
  import opened Linalg

  /** Which mode the m-th remaining coordinate belongs to once `mode` is left out. */
  function Skip(mode: nat, m: nat): nat
  {
    if m < mode then m else m + 1
  }

  /** A coordinate with its entry for `mode` removed. */
  function Drop(c: seq<nat>, mode: nat): (r: seq<nat>)
    requires mode < |c|
    ensures |r| == |c| - 1 && forall m :: 0 <= m < |r| ==> r[m] == c[Skip(mode, m)]
  {
    c[..mode] + c[mode + 1..]
  }

  /** A coordinate with h put back as its entry for `mode`. */
  function Insert(c: seq<nat>, mode: nat, h: nat): (r: seq<nat>)
    requires mode <= |c|
    ensures |r| == |c| + 1 && r[mode] == h
    ensures forall m :: 0 <= m < |c| ==> r[Skip(mode, m)] == c[m]
  {
    c[..mode] + [h] + c[mode..]
  }

  /** Putting the removed entry back gives the original coordinate. */
  lemma InsertDrop(c: seq<nat>, mode: nat)
    requires mode < |c|
    ensures Insert(Drop(c, mode), mode, c[mode]) == c
  {
    assert c[..mode] + [c[mode]] + c[mode + 1..] == c;
  }

  /** Removing the entry just put back gives the coordinate back. */
  lemma DropInsert(c: seq<nat>, mode: nat, h: nat)
    requires mode <= |c|
    ensures Drop(Insert(c, mode, h), mode) == c
  {
    assert Insert(c, mode, h)[..mode] == c[..mode];
    assert Insert(c, mode, h)[mode + 1..] == c[mode..];
  }

  datatype SparseMode = SparseMode(
    indices: seq<seq<nat>>,  // getIndices(): row j, the observation's coordinates in the other modes
    values: seq<real>,       // getValues(): row j, the observed value
    ptr: seq<nat>,           // plane p is rows ptr[p] .. ptr[p+1]
    mode: nat,               // the mode whose index selects the hyperplane
    nmodes: nat)             // number of modes of the tensor
  {
    /** Planes are in order, disjoint, and together cover rows 0 .. nnz exactly. */
    predicate Valid()
    {
      mode < nmodes &&
      |values| == |indices| &&
      |ptr| >= 1 && ptr[0] == 0 && ptr[|ptr| - 1] == |values| &&
      (forall p, q :: 0 <= p <= q < |ptr| ==> ptr[p] <= ptr[q]) &&
      (forall j :: 0 <= j < |indices| ==> |indices[j]| == nmodes - 1)
    }

    function NNZ(): nat { |values| }

    function NPlanes(): nat
      requires Valid()
    {
      |ptr| - 1
    }

    /** Coordinates kept per row (getNCoords): every mode but `mode`. */
    function NCoords(): nat
      requires Valid()
    {
      nmodes - 1
    }

    function BeginPlane(p: nat): (r: nat)
      requires Valid() && p < NPlanes()
      ensures r <= NNZ()
    {
      ptr[p]
    }

    function EndPlane(p: nat): (r: nat)
      requires Valid() && p < NPlanes()
      ensures BeginPlane(p) <= r <= NNZ()
    {
      ptr[p + 1]
    }

    function NItemsOnPlane(p: nat): nat
      requires Valid() && p < NPlanes()
    {
      EndPlane(p) - BeginPlane(p)
    }

    predicate InPlane(p: nat, j: nat)
      requires Valid()
    {
      p < NPlanes() && BeginPlane(p) <= j < EndPlane(p)
    }

    /** pos(h, j): the full coordinate of row j, with h as its index in `mode`. */
    function Pos(h: nat, j: nat): (r: seq<nat>)
      requires Valid() && h < NPlanes() && j < NNZ()
      ensures |r| == nmodes && r[mode] == h
      ensures forall m :: 0 <= m < NCoords() ==> r[Skip(mode, m)] == indices[j][m]
    {
      Insert(indices[j], mode, h)
    }

    /** item(h, n): the coordinate and value of the n-th observation of plane h. */
    function Item(h: nat, n: nat): (r: (seq<nat>, real))
      requires Valid() && h < NPlanes() && n < NItemsOnPlane(h)
      ensures |r.0| == nmodes && r.0[mode] == h
      ensures r == (Pos(h, BeginPlane(h) + n), values[BeginPlane(h) + n])
    {
      var j := BeginPlane(h) + n;
      (Pos(h, j), values[j])
    }

    /** The plane at or after `from` holding row j. */
    function PlaneFrom(j: nat, from: nat): (p: nat)
      requires Valid() && j < NNZ() && from < NPlanes() && BeginPlane(from) <= j
      ensures from <= p && InPlane(p, j)
      decreases NPlanes() - from
    {
      if j < EndPlane(from) then from else PlaneFrom(j, from + 1)
    }

    /** The one plane holding row j: every row lies in exactly one plane. */
    function PlaneOf(j: nat): (p: nat)
      requires Valid() && j < NNZ()
      ensures InPlane(p, j)
      ensures forall q :: InPlane(q, j) ==> q == p
    {
      PlaneFrom(j, 0)
    }

    /** Sum of the sizes of planes 0 .. h-1. */
    function SizesUpTo(h: nat): nat
      requires Valid() && h <= NPlanes()
    {
      if h == 0 then 0 else SizesUpTo(h - 1) + NItemsOnPlane(h - 1)
    }

    /** g summed over the first n observations of plane h, in row order. */
    function PlaneFold(g: (seq<nat>, real) -> real, h: nat, n: nat): real
      requires Valid() && h < NPlanes() && n <= NItemsOnPlane(h)
    {
      if n == 0 then 0.0
      else
        var it := Item(h, n - 1);
        PlaneFold(g, h, n - 1) + g(it.0, it.1)
    }

    /** g summed over every observation of planes 0 .. h-1. */
    function PlanesFold(g: (seq<nat>, real) -> real, h: nat): real
      requires Valid() && h <= NPlanes()
    {
      if h == 0 then 0.0 else PlanesFold(g, h - 1) + PlaneFold(g, h - 1, NItemsOnPlane(h - 1))
    }
  }

  /** One more item of plane h adds its weight. */
  lemma PlaneFoldStep(v: SparseMode, g: (seq<nat>, real) -> real, h: nat, n: nat)
    requires v.Valid() && h < v.NPlanes() && n < v.NItemsOnPlane(h)
    ensures v.PlaneFold(g, h, n + 1) == v.PlaneFold(g, h, n) + g(v.Item(h, n).0, v.Item(h, n).1)
  {
  }

  /** One more plane adds the fold of all its items. */
  lemma PlanesFoldStep(v: SparseMode, g: (seq<nat>, real) -> real, h: nat)
    requires v.Valid() && h < v.NPlanes()
    ensures v.PlanesFold(g, h + 1) == v.PlanesFold(g, h) + v.PlaneFold(g, h, v.NItemsOnPlane(h))
  {
  }

  lemma {:induction false} PlaneSizesSum(v: SparseMode, h: nat)
    requires v.Valid() && h <= v.NPlanes()
    ensures v.SizesUpTo(h) == v.ptr[h]
  {
    if h > 0 {
      PlaneSizesSum(v, h - 1);
    }
  }

  /** The plane sizes add up to the number of observations. */
  lemma PlaneSizesTotal(v: SparseMode)
    requires v.Valid()
    ensures v.SizesUpTo(v.NPlanes()) == v.NNZ()
  {
    PlaneSizesSum(v, v.NPlanes());
  }

  /** Only the value, for folds that sum the observations themselves. */
  function ObservedValue(c: seq<nat>, x: real): real { x }

  lemma {:induction false} PlaneFoldOfValues(v: SparseMode, h: nat, n: nat)
    requires v.Valid() && h < v.NPlanes() && n <= v.NItemsOnPlane(h)
    ensures RangeSum(v.values, 0, v.ptr[h]) + v.PlaneFold(ObservedValue, h, n) == RangeSum(v.values, 0, v.ptr[h] + n)
  {
    if n > 0 {
      PlaneFoldOfValues(v, h, n - 1);
    }
  }

  /** Folding the observed values plane by plane sums the value column row by row. */
  lemma {:induction false} PlanesFoldOfValues(v: SparseMode, h: nat)
    requires v.Valid() && h <= v.NPlanes()
    ensures v.PlanesFold(ObservedValue, h) == RangeSum(v.values, 0, v.ptr[h])
  {
    if h > 0 {
      PlanesFoldOfValues(v, h - 1);
      PlaneFoldOfValues(v, h - 1, v.NItemsOnPlane(h - 1));
    }
  }

  // ---------------------------------------------------------------------------------------
  // Construction: stable bucketing of the observations by their coordinate in `mode`.

  /** Every coordinate has one entry per mode. */
  predicate Shaped(coords: seq<seq<nat>>, nmodes: nat)
  {
    forall i :: 0 <= i < |coords| ==> |coords[i]| == nmodes
  }

  /** The coordinate of every observation in `mode`. */
  function Keys(coords: seq<seq<nat>>, mode: nat): (keys: seq<nat>)
    requires forall i :: 0 <= i < |coords| ==> mode < |coords[i]|
    ensures |keys| == |coords| && forall i :: 0 <= i < |coords| ==> keys[i] == coords[i][mode]
  {
    seq(|coords|, i requires 0 <= i < |coords| => coords[i][mode])
  }

  /** The observations with key p, in input order. */
  function Matching(keys: seq<nat>, p: nat): (r: seq<nat>)
    ensures forall t :: 0 <= t < |r| ==> r[t] < |keys|
    decreases |keys|
  {
    if |keys| == 0 then []
    else
      var k := |keys| - 1;
      Matching(keys[..k], p) + (if keys[k] == p then [k] else [])
  }

  /** The observations with key below p, bucket by bucket: the row order of planes 0 .. p-1. */
  function Order(keys: seq<nat>, p: nat): (r: seq<nat>)
    ensures forall t :: 0 <= t < |r| ==> r[t] < |keys|
  {
    if p == 0 then [] else Order(keys, p - 1) + Matching(keys, p - 1)
  }

  /** Number of keys below p. */
  function Below(keys: seq<nat>, p: nat): nat
  {
    if |keys| == 0 then 0
    else Below(keys[..|keys| - 1], p) + (if keys[|keys| - 1] < p then 1 else 0)
  }

  /** The matching observations do carry key p. */
  lemma {:induction false} MatchingKeys(keys: seq<nat>, p: nat, t: nat)
    requires t < |Matching(keys, p)|
    ensures keys[Matching(keys, p)[t]] == p
    decreases |keys|
  {
    var k := |keys| - 1;
    if t < |Matching(keys[..k], p)| {
      MatchingKeys(keys[..k], p, t);
    }
  }

  lemma {:induction false} MatchingCount(keys: seq<nat>, p: nat)
    ensures Below(keys, p) + |Matching(keys, p)| == Below(keys, p + 1)
    decreases |keys|
  {
    if |keys| > 0 {
      MatchingCount(keys[..|keys| - 1], p);
    }
  }

  lemma {:induction false} OrderCount(keys: seq<nat>, p: nat)
    ensures |Order(keys, p)| == Below(keys, p)
  {
    if p > 0 {
      OrderCount(keys, p - 1);
      MatchingCount(keys, p - 1);
    } else {
      BelowZero(keys);
    }
  }

  lemma {:induction false} BelowZero(keys: seq<nat>)
    ensures Below(keys, 0) == 0
    decreases |keys|
  {
    if |keys| > 0 {
      BelowZero(keys[..|keys| - 1]);
    }
  }

  lemma {:induction false} BelowAll(keys: seq<nat>, n: nat)
    requires forall i :: 0 <= i < |keys| ==> keys[i] < n
    ensures Below(keys, n) == |keys|
    decreases |keys|
  {
    if |keys| > 0 {
      BelowAll(keys[..|keys| - 1], n);
    }
  }

  lemma {:induction false} OrderGrows(keys: seq<nat>, p: nat, q: nat)
    requires p <= q
    ensures |Order(keys, p)| <= |Order(keys, q)|
    decreases q
  {
    if p < q {
      OrderGrows(keys, p, q - 1);
    }
  }

  /** The t-th observation of bucket h sits at row |Order(keys, h)| + t of the final order. */
  lemma {:induction false} OrderAt(keys: seq<nat>, n: nat, h: nat, t: nat, k: nat)
    requires h < n && t < |Matching(keys, h)| && k == |Order(keys, h)| + t
    ensures k < |Order(keys, n)| && Order(keys, n)[k] == Matching(keys, h)[t]
    decreases n
  {
    if h < n - 1 {
      OrderAt(keys, n - 1, h, t, k);
    }
  }

  /** Row k of the final order, when it falls in bucket h, is a matching observation with key h. */
  lemma {:induction false} MatchingComplete(keys: seq<nat>, i: nat)
    requires i < |keys|
    ensures i in Matching(keys, keys[i])
    decreases |keys|
  {
    var k := |keys| - 1;
    if i < k {
      MatchingComplete(keys[..k], i);
    }
  }

  predicate RotateArgs(coords: seq<seq<nat>>, vals: seq<real>, mode: nat, nmodes: nat, n: nat)
  {
    Shaped(coords, nmodes) && mode < nmodes && |vals| == |coords| &&
    forall i :: 0 <= i < |coords| ==> coords[i][mode] < n
  }

  /**
   * v is the view of `mode` of the observations: plane h holds, in input order, exactly the
   * observations whose coordinate in `mode` is h, and item t of plane h is the t-th of them.
   */
  ghost predicate IsRotation(v: SparseMode, coords: seq<seq<nat>>, vals: seq<real>, mode: nat, n: nat)
    requires RotateArgs(coords, vals, mode, v.nmodes, n)
  {
    var keys := Keys(coords, mode);
    v.Valid() && v.mode == mode && v.NPlanes() == n &&
    (forall h :: 0 <= h < n ==> v.NItemsOnPlane(h) == |Matching(keys, h)|) &&
    (forall h, t :: 0 <= h < n && 0 <= t < |Matching(keys, h)| ==>
      v.Item(h, t) == (coords[Matching(keys, h)[t]], vals[Matching(keys, h)[t]]))
  }

  /** The rows of the observations listed in `order`, each without its `mode` coordinate. */
  function Gather(coords: seq<seq<nat>>, order: seq<nat>, mode: nat): (r: seq<seq<nat>>)
    requires forall k :: 0 <= k < |order| ==> order[k] < |coords| && mode < |coords[order[k]]|
    ensures |r| == |order|
    ensures forall k :: 0 <= k < |order| ==> r[k] == Drop(coords[order[k]], mode)
  {
    seq(|order|, k requires 0 <= k < |order| => Drop(coords[order[k]], mode))
  }

  /** The values of the observations listed in `order`. */
  function Pick(vals: seq<real>, order: seq<nat>): (r: seq<real>)
    requires forall k :: 0 <= k < |order| ==> order[k] < |vals|
    ensures |r| == |order|
    ensures forall k :: 0 <= k < |order| ==> r[k] == vals[order[k]]
  {
    seq(|order|, k requires 0 <= k < |order| => vals[order[k]])
  }

  /** The plane offset table: plane p starts after every observation whose key is below p. */
  function Offsets(keys: seq<nat>, n: nat): (r: seq<nat>)
    ensures |r| == n + 1
    ensures forall p :: 0 <= p <= n ==> r[p] == |Order(keys, p)|
  {
    seq(n + 1, p requires 0 <= p <= n => |Order(keys, p)|)
  }

  /**
   * SparseMode(idx, values, mode, n): the view of `mode` of the observations (coords, vals),
   * every coordinate below n in `mode`. Rows are bucketed by that coordinate, stably.
   */
  function Rotate(coords: seq<seq<nat>>, vals: seq<real>, mode: nat, nmodes: nat, n: nat): (v: SparseMode)
    requires RotateArgs(coords, vals, mode, nmodes, n)
    ensures v.Valid() && v.NNZ() == |coords| && v.NPlanes() == n
    ensures v.mode == mode && v.nmodes == nmodes
  {
    var keys := Keys(coords, mode);
    var order := Order(keys, n);
    OrderCount(keys, n);
    BelowAll(keys, n);
    BelowZero(keys);
    forall p, q | 0 <= p <= q <= n
      ensures |Order(keys, p)| <= |Order(keys, q)|
    {
      OrderGrows(keys, p, q);
    }
    SparseMode(Gather(coords, order, mode), Pick(vals, order), Offsets(keys, n), mode, nmodes)
  }

  /** v is laid out as Rotate lays out the observations. */
  ghost predicate Bucketed(v: SparseMode, coords: seq<seq<nat>>, vals: seq<real>, mode: nat, n: nat)
    requires RotateArgs(coords, vals, mode, v.nmodes, n)
  {
    var keys := Keys(coords, mode);
    v.Valid() && v.mode == mode && v.NPlanes() == n &&
    v.indices == Gather(coords, Order(keys, n), mode) && v.values == Pick(vals, Order(keys, n)) &&
    v.ptr == Offsets(keys, n)
  }

  lemma {:induction false} RotateBucketed(coords: seq<seq<nat>>, vals: seq<real>, mode: nat, nmodes: nat, n: nat)
    requires RotateArgs(coords, vals, mode, nmodes, n)
    ensures Bucketed(Rotate(coords, vals, mode, nmodes, n), coords, vals, mode, n)
  {
  }

  lemma {:induction false} BucketedPlaneSize(v: SparseMode, coords: seq<seq<nat>>, vals: seq<real>, mode: nat, n: nat, h: nat)
    requires RotateArgs(coords, vals, mode, v.nmodes, n) && Bucketed(v, coords, vals, mode, n) && h < n
    ensures v.NItemsOnPlane(h) == |Matching(Keys(coords, mode), h)|
  {
    var keys := Keys(coords, mode);
    assert |Order(keys, h + 1)| == |Order(keys, h)| + |Matching(keys, h)|;
    assert v.ptr[h] == |Order(keys, h)| && v.ptr[h + 1] == |Order(keys, h + 1)|;
  }

  lemma ItemIsRow(v: SparseMode, h: nat, t: nat, k: nat)
    requires v.Valid() && h < v.NPlanes() && t < v.NItemsOnPlane(h) && k == v.ptr[h] + t
    ensures k < v.NNZ() && v.Item(h, t) == (v.Pos(h, k), v.values[k])
  {
  }

  lemma {:induction false} BucketedRow(v: SparseMode, coords: seq<seq<nat>>, vals: seq<real>, mode: nat, n: nat, h: nat, t: nat, k: nat)
    requires RotateArgs(coords, vals, mode, v.nmodes, n) && Bucketed(v, coords, vals, mode, n) && h < n
    requires t < |Matching(Keys(coords, mode), h)| && k == v.ptr[h] + t
    ensures var o := Matching(Keys(coords, mode), h)[t];
      o < |coords| && k < v.NNZ() && v.indices[k] == Drop(coords[o], mode) && v.values[k] == vals[o]
  {
    var keys := Keys(coords, mode);
    assert v.ptr[h] == |Order(keys, h)|;
    OrderAt(keys, n, h, t, k);
    var o := Matching(keys, h)[t];
    assert Order(keys, n)[k] == o;
    assert v.indices[k] == Drop(coords[o], mode);
    assert v.values[k] == vals[o];
  }

  lemma {:induction false} BucketedItem(v: SparseMode, coords: seq<seq<nat>>, vals: seq<real>, mode: nat, n: nat, h: nat, t: nat)
    requires RotateArgs(coords, vals, mode, v.nmodes, n) && Bucketed(v, coords, vals, mode, n) && h < n
    requires t < |Matching(Keys(coords, mode), h)|
    ensures t < v.NItemsOnPlane(h)
    ensures v.Item(h, t) == (coords[Matching(Keys(coords, mode), h)[t]], vals[Matching(Keys(coords, mode), h)[t]])
  {
    var keys := Keys(coords, mode);
    BucketedPlaneSize(v, coords, vals, mode, n, h);
    var k := v.ptr[h] + t;
    BucketedRow(v, coords, vals, mode, n, h, t, k);
    var o := Matching(keys, h)[t];
    MatchingKeys(keys, h, t);
    assert coords[o][mode] == h;
    InsertDrop(coords[o], mode);
    assert v.Pos(h, k) == coords[o];
    ItemIsRow(v, h, t, k);
  }

  lemma {:induction false} BucketedIsRotation(v: SparseMode, coords: seq<seq<nat>>, vals: seq<real>, mode: nat, n: nat)
    requires RotateArgs(coords, vals, mode, v.nmodes, n) && Bucketed(v, coords, vals, mode, n)
    ensures IsRotation(v, coords, vals, mode, n)
  {
    var keys := Keys(coords, mode);
    forall h | 0 <= h < n
      ensures v.NItemsOnPlane(h) == |Matching(keys, h)|
    {
      BucketedPlaneSize(v, coords, vals, mode, n, h);
    }
    forall h, t | 0 <= h < n && 0 <= t < |Matching(keys, h)|
      ensures t < v.NItemsOnPlane(h)
      ensures v.Item(h, t) == (coords[Matching(keys, h)[t]], vals[Matching(keys, h)[t]])
    {
      BucketedItem(v, coords, vals, mode, n, h, t);
    }
  }

  /** The view built by Rotate is the view of `mode` of the observations. */
  lemma {:induction false} RotateIsRotation(coords: seq<seq<nat>>, vals: seq<real>, mode: nat, nmodes: nat, n: nat)
    requires RotateArgs(coords, vals, mode, nmodes, n)
    ensures IsRotation(Rotate(coords, vals, mode, nmodes, n), coords, vals, mode, n)
  {
    RotateBucketed(coords, vals, mode, nmodes, n);
    BucketedIsRotation(Rotate(coords, vals, mode, nmodes, n), coords, vals, mode, n);
  }

  /**
   * Round trip: item t of plane h of a view is the t-th observation with coordinate h in
   * `mode`; its rebuilt coordinate and its value are that observation's.
   */
  lemma {:induction false} PlaneItem(v: SparseMode, coords: seq<seq<nat>>, vals: seq<real>, mode: nat, n: nat, h: nat, t: nat)
    requires RotateArgs(coords, vals, mode, v.nmodes, n) && IsRotation(v, coords, vals, mode, n) && h < n
    requires t < |Matching(Keys(coords, mode), h)|
    ensures t < v.NItemsOnPlane(h)
    ensures var o := Matching(Keys(coords, mode), h)[t];
      o < |coords| && coords[o][mode] == h && v.Item(h, t) == (coords[o], vals[o])
  {
    MatchingKeys(Keys(coords, mode), h, t);
  }

  /** Conversely, every observation is an item of the plane of its coordinate in `mode`. */
  lemma {:induction false} PlaneCovers(v: SparseMode, coords: seq<seq<nat>>, vals: seq<real>, mode: nat, n: nat, i: nat)
    requires RotateArgs(coords, vals, mode, v.nmodes, n) && IsRotation(v, coords, vals, mode, n) && i < |coords|
    ensures var h := coords[i][mode];
      h < v.NPlanes() && exists t: nat :: t < v.NItemsOnPlane(h) && v.Item(h, t) == (coords[i], vals[i])
  {
    var keys := Keys(coords, mode);
    var h := keys[i];
    MatchingComplete(keys, i);
    var t :| 0 <= t < |Matching(keys, h)| && Matching(keys, h)[t] == i;
    PlaneItem(v, coords, vals, mode, n, h, t);
  }

  /** The plane offset table of a view counts the observations below each plane. */
  lemma {:induction false} RotationPtr(v: SparseMode, coords: seq<seq<nat>>, vals: seq<real>, mode: nat, n: nat, h: nat)
    requires RotateArgs(coords, vals, mode, v.nmodes, n) && IsRotation(v, coords, vals, mode, n) && h <= n
    ensures v.ptr[h] == Below(Keys(coords, mode), h)
  {
    var keys := Keys(coords, mode);
    if h == 0 {
      BelowZero(keys);
    } else {
      RotationPtr(v, coords, vals, mode, n, h - 1);
      MatchingCount(keys, h - 1);
      assert v.NItemsOnPlane(h - 1) == |Matching(keys, h - 1)|;
    }
  }

  /** A view holds every observation: as many rows as there are observations. */
  lemma RotationCount(v: SparseMode, coords: seq<seq<nat>>, vals: seq<real>, mode: nat, n: nat)
    requires RotateArgs(coords, vals, mode, v.nmodes, n) && IsRotation(v, coords, vals, mode, n)
    ensures v.NNZ() == |coords|
  {
    RotationPtr(v, coords, vals, mode, n, n);
    BelowAll(Keys(coords, mode), n);
  }

  // ---------------------------------------------------------------------------------------
  // Folds over the view equal folds over the input observations.

  /** The weight g gives each input observation, in input order. */
  function Weights(coords: seq<seq<nat>>, vals: seq<real>, g: (seq<nat>, real) -> real): (w: seq<real>)
    requires |coords| == |vals|
    ensures |w| == |coords| && forall i :: 0 <= i < |coords| ==> w[i] == g(coords[i], vals[i])
  {
    seq(|coords|, i requires 0 <= i < |coords| => g(coords[i], vals[i]))
  }

  /** The weights of the observations listed in L, added in list order. */
  function FoldOver(w: seq<real>, L: seq<nat>): real
    requires forall t :: 0 <= t < |L| ==> L[t] < |w|
  {
    if |L| == 0 then 0.0 else FoldOver(w, L[..|L| - 1]) + w[L[|L| - 1]]
  }


  lemma {:induction false} MatchingStep(keys: seq<nat>, p: nat)
    requires 0 < |keys|
    ensures var K := |keys| - 1;
      Matching(keys, p) == Matching(keys[..K], p) + (if keys[K] == p then [K] else [])
  {
  }

  lemma {:induction false} FoldOverSnoc(w: seq<real>, L: seq<nat>, x: nat)
    requires x < |w| && forall t :: 0 <= t < |L| ==> L[t] < |w|
    ensures FoldOver(w, L + [x]) == FoldOver(w, L) + w[x]
  {
    assert (L + [x])[..|L|] == L;
  }

  lemma {:induction false} FoldOverPrefix(w: seq<real>, L: seq<nat>, t: nat)
    requires 0 < t <= |L| && forall i :: 0 <= i < |L| ==> L[i] < |w|
    ensures FoldOver(w, L[..t]) == FoldOver(w, L[..t - 1]) + w[L[t - 1]]
  {
    assert L[..t][..t - 1] == L[..t - 1];
  }

  /** The weights of the observations with key p, added in input order. */
  function KeySum(w: seq<real>, keys: seq<nat>, p: nat): real
    requires |keys| <= |w|
  {
    if |keys| == 0 then 0.0
    else KeySum(w, keys[..|keys| - 1], p) + (if keys[|keys| - 1] == p then w[|keys| - 1] else 0.0)
  }

  /** The weights added key by key over keys 0 .. h-1, each key's in input order. */
  function BucketFolds(w: seq<real>, keys: seq<nat>, h: nat): real
    requires |keys| <= |w|
  {
    if h == 0 then 0.0 else BucketFolds(w, keys, h - 1) + KeySum(w, keys, h - 1)
  }

  /** The weights of the observations with key below h, added in input order. */
  function BelowSum(w: seq<real>, keys: seq<nat>, h: nat): real
    requires |keys| <= |w|
  {
    if |keys| == 0 then 0.0
    else BelowSum(w, keys[..|keys| - 1], h) + (if keys[|keys| - 1] < h then w[|keys| - 1] else 0.0)
  }

  /** Folding a bucket adds the weights of its observations. */
  lemma {:induction false} MatchingFold(w: seq<real>, keys: seq<nat>, p: nat)
    requires |keys| <= |w|
    ensures FoldOver(w, Matching(keys, p)) == KeySum(w, keys, p)
    decreases |keys|
  {
    if |keys| > 0 {
      var K := |keys| - 1;
      MatchingFold(w, keys[..K], p);
      MatchingStep(keys, p);
      var M := Matching(keys[..K], p);
      if keys[K] == p {
        FoldOverSnoc(w, M, K);
        assert KeySum(w, keys, p) == KeySum(w, keys[..K], p) + w[K];
      } else {
        assert Matching(keys, p) == M;
        assert KeySum(w, keys, p) == KeySum(w, keys[..K], p);
      }
    }
  }

  lemma {:induction false} BelowSumStep(w: seq<real>, keys: seq<nat>, h: nat)
    requires |keys| <= |w| && 0 < h
    ensures BelowSum(w, keys, h) == BelowSum(w, keys, h - 1) + KeySum(w, keys, h - 1)
    decreases |keys|
  {
    if |keys| > 0 {
      BelowSumStep(w, keys[..|keys| - 1], h);
    }
  }

  lemma {:induction false} BelowSumZero(w: seq<real>, keys: seq<nat>)
    requires |keys| <= |w|
    ensures BelowSum(w, keys, 0) == 0.0
    decreases |keys|
  {
    if |keys| > 0 {
      BelowSumZero(w, keys[..|keys| - 1]);
    }
  }

  /** Folding buckets 0 .. h-1 adds the weights of the observations with key below h. */
  lemma {:induction false} BucketFoldsBelow(w: seq<real>, keys: seq<nat>, h: nat)
    requires |keys| <= |w|
    ensures BucketFolds(w, keys, h) == BelowSum(w, keys, h)
  {
    if h > 0 {
      BucketFoldsBelow(w, keys, h - 1);
      BelowSumStep(w, keys, h);
    } else {
      BelowSumZero(w, keys);
    }
  }

  /** When every key is below n, that is every weight, once. */
  lemma {:induction false} BelowSumAll(w: seq<real>, keys: seq<nat>, n: nat)
    requires |keys| <= |w| && forall i :: 0 <= i < |keys| ==> keys[i] < n
    ensures BelowSum(w, keys, n) == RangeSum(w, 0, |keys|)
    decreases |keys|
  {
    if |keys| > 0 {
      var K := |keys| - 1;
      assert |keys[..K]| == K && keys[K] < n;
      BelowSumAll(w, keys[..K], n);
    }
  }

  /** The first t items of plane h of a view fold to the first t observations of bucket h. */
  lemma {:induction false} PlaneFoldIsBucket(v: SparseMode, coords: seq<seq<nat>>, vals: seq<real>, mode: nat, n: nat,
                                             g: (seq<nat>, real) -> real, h: nat, t: nat)
    requires RotateArgs(coords, vals, mode, v.nmodes, n) && IsRotation(v, coords, vals, mode, n) && h < n
    requires t <= |Matching(Keys(coords, mode), h)|
    ensures t <= v.NItemsOnPlane(h)
    ensures v.PlaneFold(g, h, t) == FoldOver(Weights(coords, vals, g), Matching(Keys(coords, mode), h)[..t])
    decreases t
  {
    var M := Matching(Keys(coords, mode), h);
    if t > 0 {
      PlaneFoldIsBucket(v, coords, vals, mode, n, g, h, t - 1);
      PlaneItem(v, coords, vals, mode, n, h, t - 1);
      var o := M[t - 1];
      FoldOverPrefix(Weights(coords, vals, g), M, t);
      assert v.PlaneFold(g, h, t) == v.PlaneFold(g, h, t - 1) + g(coords[o], vals[o]);
    }
  }

  lemma {:induction false} WholePlaneIsBucket(v: SparseMode, coords: seq<seq<nat>>, vals: seq<real>, mode: nat, n: nat,
                                              g: (seq<nat>, real) -> real, h: nat)
    requires RotateArgs(coords, vals, mode, v.nmodes, n) && IsRotation(v, coords, vals, mode, n) && h < n
    ensures v.PlaneFold(g, h, v.NItemsOnPlane(h)) == FoldOver(Weights(coords, vals, g), Matching(Keys(coords, mode), h))
  {
    var M := Matching(Keys(coords, mode), h);
    PlaneFoldIsBucket(v, coords, vals, mode, n, g, h, |M|);
    assert M[..|M|] == M;
  }

  lemma {:induction false} PlanesFoldIsBuckets(v: SparseMode, coords: seq<seq<nat>>, vals: seq<real>, mode: nat, n: nat,
                                               g: (seq<nat>, real) -> real, h: nat)
    requires RotateArgs(coords, vals, mode, v.nmodes, n) && IsRotation(v, coords, vals, mode, n) && h <= n
    ensures v.PlanesFold(g, h) == BucketFolds(Weights(coords, vals, g), Keys(coords, mode), h)
    decreases h
  {
    if h > 0 {
      var w, keys := Weights(coords, vals, g), Keys(coords, mode);
      PlanesFoldIsBuckets(v, coords, vals, mode, n, g, h - 1);
      WholePlaneIsBucket(v, coords, vals, mode, n, g, h - 1);
      MatchingFold(w, keys, h - 1);
      assert v.PlanesFold(g, h) == v.PlanesFold(g, h - 1) + v.PlaneFold(g, h - 1, v.NItemsOnPlane(h - 1));
      assert BucketFolds(w, keys, h) == BucketFolds(w, keys, h - 1) + KeySum(w, keys, h - 1);
    }
  }

  /**
   * Any sum over a view, taken plane by plane and item by item, equals the same sum taken
   * over the input observations in input order: the view loses and duplicates nothing.
   */
  lemma {:induction false} RotationFold(v: SparseMode, coords: seq<seq<nat>>, vals: seq<real>, mode: nat, n: nat,
                                        g: (seq<nat>, real) -> real)
    requires RotateArgs(coords, vals, mode, v.nmodes, n) && IsRotation(v, coords, vals, mode, n)
    ensures v.PlanesFold(g, v.NPlanes()) == Sum(Weights(coords, vals, g))
  {
    var w := Weights(coords, vals, g);
    PlanesFoldIsBuckets(v, coords, vals, mode, n, g, n);
    BucketFoldsBelow(w, Keys(coords, mode), n);
    BelowSumAll(w, Keys(coords, mode), n);
    RangeSumIsSum(w, |w|);
    assert w[..|w|] == w;
  }

  /** The value column of a view sums to the sum of the input values. */
  lemma {:induction false} RotationSum(v: SparseMode, coords: seq<seq<nat>>, vals: seq<real>, mode: nat, n: nat)
    requires RotateArgs(coords, vals, mode, v.nmodes, n) && IsRotation(v, coords, vals, mode, n)
    ensures RangeSum(v.values, 0, v.NNZ()) == Sum(vals)
  {
    RotationFold(v, coords, vals, mode, n, ObservedValue);
    PlanesFoldOfValues(v, v.NPlanes());
    assert Weights(coords, vals, ObservedValue) == vals;
  }
}
