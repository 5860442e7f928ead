/**
 * Row-major enumeration of the cells of a dense array, as the dense tensor's coordinate
 * iterator (PVecIterator) produces them: the last mode varies fastest.
 */
module Enumeration {
  import opened Status

  /** Number of cells of an array with these dimension sizes. */
  function Product(dims: seq<nat>): nat
  {
    if |dims| == 0 then 1 else Product(dims[..|dims| - 1]) * dims[|dims| - 1]
  }

  /** it is a cell of the array: one index per mode, each below that mode's size. */
  predicate InBounds(dims: seq<nat>, it: seq<nat>)
  {
    |it| == |dims| && forall d :: 0 <= d < |dims| ==> it[d] < dims[d]
  }

  lemma MulMonotone(a: nat, b: nat, n: nat)
    requires a <= b
    ensures a * n <= b * n
  {
  }

  /** The quotient and remainder of a by n are the only q, r with a == q * n + r and r < n. */
  lemma DivMod(a: nat, n: nat, q: nat, r: nat)
    requires n > 0 && a == q * n + r && r < n
    ensures a / n == q && a % n == r
  {
    var q', r' := a / n, a % n;
    assert a == q' * n + r';
    if q' < q {
      MulMonotone(q' + 1, q, n);
    } else if q' > q {
      MulMonotone(q + 1, q', n);
    }
  }

  lemma DivBelow(c: nat, p: nat, n: nat)
    requires c < p * n
    ensures n > 0 && c / n < p && c == (c / n) * n + c % n && c % n < n
  {
    if c / n >= p {
      MulMonotone(p, c / n, n);
    }
  }

  /** The c-th cell in row-major order. */
  function Unrank(dims: seq<nat>, c: nat): (it: seq<nat>)
    requires c < Product(dims)
    ensures InBounds(dims, it)
    decreases |dims|
  {
    if |dims| == 0 then []
    else
      var k := |dims| - 1;
      DivBelow(c, Product(dims[..k]), dims[k]);
      Unrank(dims[..k], c / dims[k]) + [c % dims[k]]
  }

  /** Position of a cell in row-major order. */
  function Rank(dims: seq<nat>, it: seq<nat>): nat
    requires InBounds(dims, it)
    decreases |dims|
  {
    if |dims| == 0 then 0
    else
      var k := |dims| - 1;
      Rank(dims[..k], it[..k]) * dims[k] + it[k]
  }

  lemma {:induction false} RankBelow(dims: seq<nat>, it: seq<nat>)
    requires InBounds(dims, it)
    ensures Rank(dims, it) < Product(dims)
    decreases |dims|
  {
    if |dims| > 0 {
      var k := |dims| - 1;
      var q, n := Rank(dims[..k], it[..k]), dims[k];
      RankBelow(dims[..k], it[..k]);
      assert q * n + it[k] < (q + 1) * n;
      MulMonotone(q + 1, Product(dims[..k]), n);
      assert Product(dims) == Product(dims[..k]) * n;
    }
  }

  lemma {:induction false} UnrankThenRank(dims: seq<nat>, c: nat)
    requires c < Product(dims)
    ensures Rank(dims, Unrank(dims, c)) == c
    decreases |dims|
  {
    if |dims| > 0 {
      var k := |dims| - 1;
      var n := dims[k];
      DivBelow(c, Product(dims[..k]), n);
      var q, r := c / n, c % n;
      var u := Unrank(dims, c);
      assert u[..k] == Unrank(dims[..k], q) && u[k] == r;
      UnrankThenRank(dims[..k], q);
    }
  }

  lemma {:induction false} RankThenUnrank(dims: seq<nat>, it: seq<nat>)
    requires InBounds(dims, it)
    ensures Rank(dims, it) < Product(dims) && Unrank(dims, Rank(dims, it)) == it
    decreases |dims|
  {
    RankBelow(dims, it);
    if |dims| > 0 {
      var k := |dims| - 1;
      var n := dims[k];
      var q := Rank(dims[..k], it[..k]);
      RankThenUnrank(dims[..k], it[..k]);
      var r := Rank(dims, it);
      assert r == q * n + it[k];
      DivMod(r, n, q, it[k]);
      assert Unrank(dims, r) == Unrank(dims[..k], q) + [it[k]];
      assert it == it[..k] + [it[k]];
    }
  }

  /** The enumeration visits every cell exactly once: Unrank and Rank are inverse bijections. */
  lemma RankUnrank(dims: seq<nat>, c: nat, it: seq<nat>)
    requires c < Product(dims) && InBounds(dims, it)
    ensures Rank(dims, Unrank(dims, c)) == c
    ensures Rank(dims, it) < Product(dims) && Unrank(dims, Rank(dims, it)) == it
  {
    UnrankThenRank(dims, c);
    RankThenUnrank(dims, it);
  }

  /** PVecIterator's starting state: the all-zero cell, or done at once when some mode is empty. */
  function First(dims: seq<nat>): (r: Option<seq<nat>>)
    ensures r.Some? <==> forall d :: 0 <= d < |dims| ==> dims[d] > 0
    ensures r.Some? ==> InBounds(dims, r.value) && Rank(dims, r.value) == 0
  {
    if forall d :: 0 <= d < |dims| ==> dims[d] > 0 then
      ProductPositive(dims);
      UnrankZero(dims);
      UnrankThenRank(dims, 0);
      Some(seq(|dims|, d => 0))
    else None
  }

  /** PVecIterator's ++: advance the last mode, carrying into earlier modes; None once past the last cell. */
  function Next(dims: seq<nat>, it: seq<nat>): (r: Option<seq<nat>>)
    requires InBounds(dims, it)
    ensures r.Some? ==> InBounds(dims, r.value)
    decreases |dims|
  {
    if |dims| == 0 then None
    else
      var k := |dims| - 1;
      if it[k] + 1 < dims[k] then Some(it[..k] + [it[k] + 1])
      else
        match Next(dims[..k], it[..k])
        case None => None
        case Some(p) => Some(p + [0])
  }

  lemma {:induction false} ProductPositive(dims: seq<nat>)
    ensures Product(dims) > 0 <==> forall d :: 0 <= d < |dims| ==> dims[d] > 0
    decreases |dims|
  {
    if |dims| > 0 {
      var k := |dims| - 1;
      ProductPositive(dims[..k]);
      assert Product(dims[..k]) * dims[k] > 0 <==> Product(dims[..k]) > 0 && dims[k] > 0;
    }
  }

  lemma {:induction false} UnrankZero(dims: seq<nat>)
    requires Product(dims) > 0
    ensures Unrank(dims, 0) == seq(|dims|, d => 0)
    decreases |dims|
  {
    if |dims| > 0 {
      var k := |dims| - 1;
      DivBelow(0, Product(dims[..k]), dims[k]);
      UnrankZero(dims[..k]);
    }
  }

  /** The iterator starts at cell 0, and is done at once exactly when there are no cells. */
  lemma FirstIsUnrankZero(dims: seq<nat>)
    ensures First(dims) == if Product(dims) > 0 then Some(Unrank(dims, 0)) else None
  {
    ProductPositive(dims);
    if Product(dims) > 0 {
      UnrankZero(dims);
    }
  }

  lemma StepWithoutCarry(c: nat, p: nat, n: nat)
    requires c < p * n && c % n + 1 < n
    ensures c + 1 < p * n && (c + 1) / n == c / n && (c + 1) % n == c % n + 1
  {
    DivBelow(c, p, n);
    DivMod(c + 1, n, c / n, c % n + 1);
    MulMonotone(c / n + 1, p, n);
  }

  lemma StepWithCarry(c: nat, p: nat, n: nat)
    requires c < p * n && c % n + 1 == n
    ensures (c + 1) / n == c / n + 1 && (c + 1) % n == 0
    ensures c + 1 < p * n <==> c / n + 1 < p
  {
    DivBelow(c, p, n);
    DivMod(c + 1, n, c / n + 1, 0);
    if c / n + 1 < p {
      MulMonotone(c / n + 2, p, n);
    }
  }

  /** Unrank splits into the cell of the earlier modes and the index of the last mode. */
  lemma UnrankSplit(dims: seq<nat>, c: nat)
    requires |dims| > 0 && c < Product(dims)
    ensures var k := |dims| - 1;
      Product(dims) == Product(dims[..k]) * dims[k] && dims[k] > 0 &&
      c / dims[k] < Product(dims[..k]) &&
      Unrank(dims, c) == Unrank(dims[..k], c / dims[k]) + [c % dims[k]]
  {
    var k := |dims| - 1;
    DivBelow(c, Product(dims[..k]), dims[k]);
  }

  lemma NextUnfold(dims: seq<nat>, it: seq<nat>)
    requires |dims| > 0 && InBounds(dims, it)
    ensures var k := |dims| - 1; var prev := Next(dims[..k], it[..k]);
      Next(dims, it) == if it[k] + 1 < dims[k] then Some(it[..k] + [it[k] + 1])
                        else if prev.None? then None else Some(prev.value + [0])
  {
  }

  /** Advancing from cell c reaches cell c + 1, or finishes after the last cell. */
  lemma {:induction false} NextIsSuccessor(dims: seq<nat>, c: nat)
    requires c < Product(dims)
    ensures Next(dims, Unrank(dims, c)) == if c + 1 < Product(dims) then Some(Unrank(dims, c + 1)) else None
    decreases |dims|
  {
    if |dims| > 0 {
      var k := |dims| - 1;
      var n, p := dims[k], Product(dims[..k]);
      UnrankSplit(dims, c);
      var q, r := c / n, c % n;
      var it := Unrank(dims, c);
      assert it[..k] == Unrank(dims[..k], q) && it[k] == r;
      NextUnfold(dims, it);
      if r + 1 < n {
        StepWithoutCarry(c, p, n);
        UnrankSplit(dims, c + 1);
      } else {
        StepWithCarry(c, p, n);
        NextIsSuccessor(dims[..k], q);
        if q + 1 < p {
          UnrankSplit(dims, c + 1);
        }
      }
    }
  }
}
