/**
 * numpy arrays of rank 2 to 4 as nested sequences together with their shape (the shape
 * matters when an axis is empty), and the reshape that groups consecutive positions into
 * pools of a fixed size.
 */
module Pooling {
  import opened Sequences

  /** An array of shape (n0, n1). */
  datatype Array2<T> = Array2(n0: nat, n1: nat, data: seq<seq<T>>)

  predicate Shaped2<T>(a: Array2<T>) {
    |a.data| == a.n0 && forall i | 0 <= i < a.n0 :: |a.data[i]| == a.n1
  }

  /** An array of shape (n0, n1, n2). */
  datatype Array3<T> = Array3(n0: nat, n1: nat, n2: nat, data: seq<seq<seq<T>>>)

  predicate Shaped3<T>(a: Array3<T>) {
    && |a.data| == a.n0
    && (forall i | 0 <= i < a.n0 :: |a.data[i]| == a.n1)
    && (forall i, t | 0 <= i < a.n0 && 0 <= t < a.n1 :: |a.data[i][t]| == a.n2)
  }

  /** An array of shape (n0, n1, n2, n3). */
  datatype Array4<T> = Array4(n0: nat, n1: nat, n2: nat, n3: nat, data: seq<seq<seq<seq<T>>>>)

  predicate Shaped4<T>(a: Array4<T>) {
    && |a.data| == a.n0
    && (forall i | 0 <= i < a.n0 :: |a.data[i]| == a.n1)
    && (forall i, t | 0 <= i < a.n0 && 0 <= t < a.n1 :: |a.data[i][t]| == a.n2)
    && (forall i, t, k | 0 <= i < a.n0 && 0 <= t < a.n1 && 0 <= k < a.n2 :: |a.data[i][t][k]| == a.n3)
  }

  /** The last position of pool `t` is still inside the row. */
  lemma PoolBound(n: nat, ps: nat, t: nat)
    requires ps > 0 && t < n / ps
    ensures t * ps + ps <= n
  {
    MulMonotone(t + 1, n / ps, ps);
    assert (t + 1) * ps == t * ps + ps;
    assert (n / ps) * ps <= n;
  }

  lemma PoolBounds(n: nat, ps: nat)
    requires ps > 0
    ensures forall t | 0 <= t < n / ps :: t * ps + ps <= n
  {
    forall t | 0 <= t < n / ps ensures t * ps + ps <= n {
      PoolBound(n, ps, t);
    }
  }

  /**
   * Consecutive positions grouped into pools of `ps`: position `k` of pool `t` is position
   * `t * ps + k`; a trailing incomplete pool is dropped.
   */
  function Pools<T>(rows: seq<T>, ps: nat): (r: seq<seq<T>>)
    requires ps > 0
    ensures |r| == |rows| / ps
    ensures forall t | 0 <= t < |r| :: |r[t]| == ps
  {
    PoolBounds(|rows|, ps);
    seq(|rows| / ps, t requires 0 <= t < |rows| / ps => rows[t * ps .. t * ps + ps])
  }

  /** Pool `t` is the slice of positions t * ps .. t * ps + ps. */
  lemma PoolSlice<T>(rows: seq<T>, ps: nat, t: nat)
    requires ps > 0 && t < |rows| / ps
    ensures t * ps + ps <= |rows| && Pools(rows, ps)[t] == rows[t * ps .. t * ps + ps]
  {
    PoolBound(|rows|, ps, t);
  }

  lemma PoolAt<T>(rows: seq<T>, ps: nat, t: nat, k: nat)
    requires ps > 0 && t < |rows| / ps && k < ps
    ensures t * ps + k < |rows| && Pools(rows, ps)[t][k] == rows[t * ps + k]
  {
    PoolBound(|rows|, ps, t);
  }

  /** Position `k` of pool `t` is position `t * ps + k` of the row. */
  lemma PoolsAt<T>(rows: seq<T>, ps: nat)
    requires ps > 0
    ensures forall t, k | 0 <= t < |rows| / ps && 0 <= k < ps ::
      t * ps + k < |rows| && Pools(rows, ps)[t][k] == rows[t * ps + k]
  {
    forall t, k | 0 <= t < |rows| / ps && 0 <= k < ps
      ensures t * ps + k < |rows| && Pools(rows, ps)[t][k] == rows[t * ps + k]
    {
      PoolAt(rows, ps, t, k);
    }
  }

  /** Pools of rows of width `w` hold rows of width `w`. */
  lemma PoolsUniform<T>(rows: seq<seq<T>>, ps: nat, w: nat)
    requires ps > 0 && forall p | 0 <= p < |rows| :: |rows[p]| == w
    ensures forall t, k | 0 <= t < |rows| / ps && 0 <= k < ps :: |Pools(rows, ps)[t][k]| == w
  {
    PoolsAt(rows, ps);
  }

  /** The first `k` pools hold exactly the first `k * ps` positions. */
  lemma {:induction false} PoolsPrefix<T>(rows: seq<T>, ps: nat, k: nat)
    requires ps > 0 && k <= |rows| / ps
    ensures k * ps <= |rows| && Concat(Pools(rows, ps)[..k]) == rows[..k * ps]
    decreases k
  {
    var pools := Pools(rows, ps);
    if k == 0 {
      assert pools[..0] == [];
    } else {
      PoolsPrefix(rows, ps, k - 1);
      PoolBound(|rows|, ps, k - 1);
      assert k * ps == (k - 1) * ps + ps;
      assert pools[..k][..k - 1] == pools[..k - 1];
      assert pools[k - 1] == rows[(k - 1) * ps .. k * ps];
      assert rows[..(k - 1) * ps] + rows[(k - 1) * ps .. k * ps] == rows[..k * ps];
    }
  }

  /** Flattening the pools again gives the positions they cover, in order. */
  lemma ConcatPools<T>(rows: seq<T>, ps: nat)
    requires ps > 0
    ensures Concat(Pools(rows, ps)) == rows[..(|rows| / ps) * ps]
    ensures |rows| % ps == 0 ==> Concat(Pools(rows, ps)) == rows
  {
    var pools := Pools(rows, ps);
    PoolsPrefix(rows, ps, |rows| / ps);
    assert pools[..|pools|] == pools;
    if |rows| % ps == 0 {
      assert (|rows| / ps) * ps == |rows|;
    }
  }

  /** Column `col` is 1 at some position of the pool (numpy's `any(pool[:, col] == 1)`). */
  predicate AnyOne(pool: seq<seq<int>>, col: nat)
    requires forall k | 0 <= k < |pool| :: |pool[k]| > col
  {
    exists k :: 0 <= k < |pool| && pool[k][col] == 1
  }

  /** Per column: its weight where the column is 1 somewhere in the pool, else 0. */
  function HitWeights(pool: seq<seq<int>>, w: seq<real>): (r: seq<real>)
    requires forall k | 0 <= k < |pool| :: |pool[k]| >= |w|
    ensures |r| == |w|
    ensures forall c | 0 <= c < |w| :: r[c] == (if AnyOne(pool, c) then w[c] else 0.0)
  {
    seq(|w|, c requires 0 <= c < |w| => if AnyOne(pool, c) then w[c] else 0.0)
  }

  /** The weights of the columns that are 1 somewhere in the pool, summed. */
  function HitWeight(pool: seq<seq<int>>, w: seq<real>): real
    requires forall k | 0 <= k < |pool| :: |pool[k]| >= |w|
  {
    RealSum(HitWeights(pool, w))
  }

  /** A pool where no column is ever 1 weighs 0. */
  lemma HitWeightNone(pool: seq<seq<int>>, w: seq<real>)
    requires forall k | 0 <= k < |pool| :: |pool[k]| >= |w|
    requires forall c | 0 <= c < |w| :: !AnyOne(pool, c)
    ensures HitWeight(pool, w) == 0.0
  {
    RealSumZeros(HitWeights(pool, w));
  }

  /** With non-negative weights a pool weighs at least the weight of every column it hits. */
  lemma HitWeightAtLeast(pool: seq<seq<int>>, w: seq<real>, c: nat)
    requires forall k | 0 <= k < |pool| :: |pool[k]| >= |w|
    requires forall d | 0 <= d < |w| :: w[d] >= 0.0
    requires c < |w| && AnyOne(pool, c)
    ensures HitWeight(pool, w) >= w[c]
  {
    RealSumAtLeast(HitWeights(pool, w), c);
  }

  /** A pool that hits exactly one column weighs exactly that column's weight. */
  lemma HitWeightSingle(pool: seq<seq<int>>, w: seq<real>, c: nat)
    requires forall k | 0 <= k < |pool| :: |pool[k]| >= |w|
    requires c < |w| && AnyOne(pool, c)
    requires forall d | 0 <= d < |w| && d != c :: !AnyOne(pool, d)
    ensures HitWeight(pool, w) == w[c]
  {
    RealSumSingle(HitWeights(pool, w), c);
  }
}
