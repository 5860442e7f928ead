/** Dense vectors and matrices over the reals, as the factorisation engine uses them. */
module Linalg {

  type Vec = seq<real>

  /** A matrix as a sequence of rows: M[r][c]. */
  type Matrix = seq<Vec>

  predicate IsMatrix(M: Matrix, rows: nat, cols: nat)
  {
    |M| == rows && forall r :: 0 <= r < rows ==> |M[r]| == cols
  }

  /** Number of columns of a matrix (that of its first row; 0 for a matrix without rows). */
  function Cols(M: Matrix): nat
  {
    if |M| == 0 then 0 else |M[0]|
  }

  /** Column c of M. */
  function Col(M: Matrix, c: nat): (v: Vec)
    requires forall r :: 0 <= r < |M| ==> c < |M[r]|
    ensures |v| == |M| && forall r :: 0 <= r < |M| ==> v[r] == M[r][c]
  {
    seq(|M|, r requires 0 <= r < |M| => M[r][c])
  }

  /** Sum of a sequence, added left to right. */
  function Sum(s: seq<real>): real
  {
    if |s| == 0 then 0.0 else Sum(s[..|s| - 1]) + s[|s| - 1]
  }

  /** Sum of s[lo..hi], added left to right. */
  function RangeSum(s: seq<real>, lo: nat, hi: nat): real
    requires lo <= hi <= |s|
    decreases hi - lo
  {
    if lo == hi then 0.0 else RangeSum(s, lo, hi - 1) + s[hi - 1]
  }

  lemma {:induction false} RangeSumIsSum(s: seq<real>, hi: nat)
    requires hi <= |s|
    ensures RangeSum(s, 0, hi) == Sum(s[..hi])
  {
    if hi > 0 {
      RangeSumIsSum(s, hi - 1);
      assert s[..hi][..hi - 1] == s[..hi - 1];
    }
  }

  function Dot(a: Vec, b: Vec): real
    requires |a| == |b|
  {
    if |a| == 0 then 0.0 else Dot(a[..|a| - 1], b[..|b| - 1]) + a[|a| - 1] * b[|b| - 1]
  }

  /** Elementwise (Hadamard) product. */
  function Hadamard(a: Vec, b: Vec): (r: Vec)
    requires |a| == |b|
    ensures |r| == |a| && forall i :: 0 <= i < |a| ==> r[i] == a[i] * b[i]
  {
    seq(|a|, i requires 0 <= i < |a| => a[i] * b[i])
  }

  function Sq(x: real): real { x * x }

  lemma SqNonNegative(x: real)
    ensures Sq(x) >= 0.0
  {
    if x < 0.0 {
      assert Sq(x) == (-x) * (-x);
    }
  }

  /** The dot product is the sum of the elementwise product. */
  lemma {:induction false} SumHadamardIsDot(a: Vec, b: Vec)
    requires |a| == |b|
    ensures Sum(Hadamard(a, b)) == Dot(a, b)
  {
    if |a| > 0 {
      var n := |a| - 1;
      SumHadamardIsDot(a[..n], b[..n]);
      var h, h' := Hadamard(a, b), Hadamard(a[..n], b[..n]);
      assert forall i :: 0 <= i < n ==> h[..n][i] == a[i] * b[i] == h'[i];
      assert h[..n] == h';
    }
  }

  /** Multiplying elementwise by a vector of ones changes nothing. */
  lemma HadamardOnes(a: Vec, b: Vec)
    requires |a| == |b| && forall i :: 0 <= i < |a| ==> a[i] == 1.0
    ensures Hadamard(a, b) == b
  {
  }

  /** The order in which two vectors multiply into a third elementwise does not matter. */
  lemma HadamardSwap(a: Vec, b: Vec, c: Vec)
    requires |a| == |b| == |c|
    ensures Hadamard(Hadamard(a, b), c) == Hadamard(Hadamard(a, c), b)
  {
    forall i | 0 <= i < |a| ensures Hadamard(Hadamard(a, b), c)[i] == Hadamard(Hadamard(a, c), b)[i] {
      assert a[i] * b[i] * c[i] == a[i] * c[i] * b[i];
    }
  }
}
