/**
 * Helpers of the training-data sequence: merging UTR into intergenic labels in place,
 * the indices of a batch and the number of batches of an epoch (without overlapping
 * prediction), the pooling reshape that keeps classes last, and the per-timestep weights
 * derived from transitions.
 */
module HelixerSequences {
  import opened Wrappers
  import opened Sequences
  import opened Pooling

  // ---------------------------------------------------------------------------------
  // _zero_out_utrs
  // ---------------------------------------------------------------------------------

  /**
   * The label row of one base after merging: column 0 becomes (column 0 or column 1),
   * column 1 becomes 0, every other column is unchanged.
   */
  function MergeUtr(row: seq<int>): (r: seq<int>)
    requires |row| >= 2
    ensures |r| == |row|
    ensures r[0] == (if row[0] != 0 || row[1] != 0 then 1 else 0) && r[1] == 0
    ensures forall c | 2 <= c < |row| :: r[c] == row[c]
  {
    row[0 := if row[0] != 0 || row[1] != 0 then 1 else 0][1 := 0]
  }

  /** Merging twice is merging once. */
  lemma MergeUtrIdempotent(row: seq<int>)
    requires |row| >= 2
    ensures MergeUtr(MergeUtr(row)) == MergeUtr(row)
  {
  }

  /** Exactly one column is 1 and the rest are 0. */
  predicate OneHot(row: seq<int>) {
    && (forall c | 0 <= c < |row| :: row[c] == 0 || row[c] == 1)
    && (exists c :: 0 <= c < |row| && row[c] == 1)
    && (forall c, d | 0 <= c < d < |row| :: !(row[c] == 1 && row[d] == 1))
  }

  /**
   * Merging keeps one-hot labels one-hot: intergenic and UTR bases become intergenic,
   * exon and intron bases keep their label.
   */
  lemma MergeUtrKeepsOneHot(row: seq<int>)
    requires |row| >= 2 && OneHot(row)
    ensures OneHot(MergeUtr(row))
    ensures row[0] == 1 || row[1] == 1 ==> MergeUtr(row) == row[0 := 1][1 := 0]
    ensures row[0] == 0 && row[1] == 0 ==> MergeUtr(row) == row
  {
    var r := MergeUtr(row);
    if row[0] == 1 || row[1] == 1 {
      var h := if row[0] == 1 then 0 else 1;
      forall d | 2 <= d < |row| ensures row[d] == 0 {
        assert !(row[h] == 1 && row[d] == 1);
      }
      assert r[0] == 1;
    } else {
      assert r == row;
    }
  }

  /**
   * _zero_out_utrs on the label rows of a data slice (all leading axes taken as one),
   * in place: every row is merged.
   */
  method ZeroOutUtrs(y: array<seq<int>>)
    requires forall r | 0 <= r < y.Length :: |y[r]| >= 2
    modifies y
    ensures forall r | 0 <= r < y.Length :: y[r] == MergeUtr(old(y[r]))
  {
    for r := 0 to y.Length
      invariant forall q | 0 <= q < r :: y[q] == MergeUtr(old(y[q]))
      invariant forall q | r <= q < y.Length :: y[q] == old(y[q])
    {
      y[r] := MergeUtr(y[r]);
    }
  }

  // ---------------------------------------------------------------------------------
  // get_batch_of_one_dataset (no overlap) and __len__
  // ---------------------------------------------------------------------------------

  function Min(a: int, b: int): int {
    if a < b then a else b
  }

  /** The first index of batch `bi`: bs for each batch before it. */
  function BatchStart(bs: nat, bi: nat): nat
    decreases bi
  {
    if bi == 0 then 0 else BatchStart(bs, bi - 1) + bs
  }

  lemma {:induction false} BatchStartIsProduct(bs: nat, bi: nat)
    ensures BatchStart(bs, bi) == bi * bs
    decreases bi
  {
    if bi > 0 {
      BatchStartIsProduct(bs, bi - 1);
      assert bi * bs == (bi - 1) * bs + bs;
    }
  }

  /**
   * The dataset indices of batch `bi` of a dataset with `n` rows: the contiguous run from
   * bi * bs to (bi + 1) * bs, cut at `n`.
   */
  function BatchIndices(n: nat, bs: nat, bi: nat): (r: seq<int>)
  {
    var lo := BatchStart(bs, bi);
    Range(lo, Min(n, lo + bs))
  }

  /**
   * A batch is at most `bs` consecutive indices from bi * bs, all below `n`: exactly `bs`
   * of them while the dataset lasts, none after its end.
   */
  lemma BatchIndicesBounded(n: nat, bs: nat, bi: nat)
    ensures var r := BatchIndices(n, bs, bi);
      && |r| <= bs
      && (forall k | 0 <= k < |r| :: r[k] == bi * bs + k && 0 <= r[k] < n)
      && (bi * bs + bs <= n ==> |r| == bs)
      && (n <= bi * bs ==> r == [])
  {
    BatchStartIsProduct(bs, bi);
    RunBounded(n, bs, BatchStart(bs, bi));
  }

  lemma RunBounded(n: nat, bs: nat, lo: nat)
    ensures var r := Range(lo, Min(n, lo + bs));
      && |r| <= bs
      && (forall k | 0 <= k < |r| :: r[k] == lo + k && 0 <= r[k] < n)
      && (lo + bs <= n ==> |r| == bs)
      && (n <= lo ==> r == [])
  {
  }

  datatype LenError = ZeroBatchSize

  /**
   * __len__ without overlapping: 3 batches in debug mode, otherwise ceil(n_seqs / bs),
   * the least number of batches of `bs` that holds every sequence. Python's division by a
   * zero batch size fails.
   */
  function EpochLength(debug: bool, nSeqs: nat, bs: nat): (r: Result<nat, LenError>)
    ensures debug ==> r == Success(3)
    ensures !debug ==> (r.Failure? <==> bs == 0)
    ensures !debug && r.Success? ==> r.value * bs >= nSeqs && (r.value == 0 || (r.value - 1) * bs < nSeqs)
  {
    if debug then Success(3)
    else if bs == 0 then Failure(ZeroBatchSize)
    else
      var k := (nSeqs + bs - 1) / bs;
      CeilDivision(nSeqs, bs);
      Success(k)
  }

  lemma CeilDivision(n: nat, bs: nat)
    requires bs > 0
    ensures var k := (n + bs - 1) / bs; k * bs >= n && (k == 0 || (k - 1) * bs < n)
  {
    var k := (n + bs - 1) / bs;
    var m := (n + bs - 1) % bs;
    assert n + bs - 1 == k * bs + m && 0 <= m < bs;
    if k > 0 {
      assert (k - 1) * bs == k * bs - bs;
    }
  }

  /** The batches of the first `k` batch numbers, in order. */
  function Batches(n: nat, bs: nat, k: nat): (r: seq<seq<int>>)
    ensures |r| == k
    decreases k
  {
    if k == 0 then [] else Batches(n, bs, k - 1) + [BatchIndices(n, bs, k - 1)]
  }

  /** Entry `bi` of the epoch's list of batches is batch number `bi`. */
  lemma {:induction false} BatchesAt(n: nat, bs: nat, k: nat, bi: nat)
    requires bi < k
    ensures Batches(n, bs, k)[bi] == BatchIndices(n, bs, bi)
    decreases k
  {
    if bi < k - 1 {
      BatchesAt(n, bs, k - 1, bi);
    }
  }

  /** Batch numbers 0 .. k-1 together hold the indices 0 .. min(n, k bs) - 1, in order. */
  lemma BatchesPrefix(n: nat, bs: nat, k: nat)
    ensures Concat(Batches(n, bs, k)) == Range(0, Min(n, k * bs))
  {
    BatchesCover(n, bs, k);
    BatchStartIsProduct(bs, k);
  }

  lemma {:induction false} BatchesCover(n: nat, bs: nat, k: nat)
    ensures Concat(Batches(n, bs, k)) == Range(0, Min(n, BatchStart(bs, k)))
    decreases k
  {
    if k > 0 {
      BatchesCover(n, bs, k - 1);
      BatchesStep(Batches(n, bs, k - 1), BatchIndices(n, bs, k - 1), n, BatchStart(bs, k - 1), BatchStart(bs, k));
    }
  }

  /** One more batch, starting where the covered run of indices ends, extends it. */
  lemma BatchesStep(prev: seq<seq<int>>, last: seq<int>, n: nat, lo: nat, hi: nat)
    requires lo <= hi
    requires Concat(prev) == Range(0, Min(n, lo)) && last == Range(lo, Min(n, hi))
    ensures Concat(prev + [last]) == Range(0, Min(n, hi))
  {
    assert (prev + [last])[..|prev|] == prev;
    if lo < n {
      RangeAppend(0, lo, Min(n, hi));
    }
  }

  /**
   * The batches of an epoch (outside debug mode, over a dataset of `nSeqs` rows) hold
   * every index 0 .. nSeqs-1 exactly once, in order.
   */
  lemma EpochCoversDataset(nSeqs: nat, bs: nat)
    requires EpochLength(false, nSeqs, bs).Success?
    ensures Concat(Batches(nSeqs, bs, EpochLength(false, nSeqs, bs).value)) == Range(0, nSeqs)
  {
    BatchesPrefix(nSeqs, bs, EpochLength(false, nSeqs, bs).value);
  }

  // ---------------------------------------------------------------------------------
  // _mk_timestep_pools_class_last
  // ---------------------------------------------------------------------------------

  /** A pool size of zero divides by zero; otherwise the sizes of the shapes differ. */
  datatype PoolError = ZeroPoolSize | CannotReshape

  /**
   * _mk_timestep_pools_class_last: (b, L, c) becomes (b, L / ps, ps, c), each sample's
   * positions grouped into pools of `ps`. None stays None. The reshape fails when the sizes
   * differ, i.e. when L is not a multiple of ps and the array is not empty.
   */
  function MkTimestepPoolsClassLast<T>(m: Option<Array3<T>>, ps: nat): (r: Result<Option<Array4<T>>, PoolError>)
    requires m.Some? ==> Shaped3(m.value)
    ensures m.None? ==> r == Success(None)
    ensures m.Some? ==> (r.Failure? <==> ps == 0 || (m.value.n0 > 0 && m.value.n2 > 0 && m.value.n1 % ps != 0))
    ensures m.Some? && r.Success? ==> r.value.Some?
    ensures m.Some? && r.Success? ==>
      var a, x := r.value.value, m.value;
      && a.n0 == x.n0 && a.n1 == x.n1 / ps && a.n2 == ps && a.n3 == x.n2 && |a.data| == x.n0
      && forall i | 0 <= i < x.n0 :: a.data[i] == Pools(x.data[i], ps)
  {
    if m.None? then Success(None)
    else
      var x := m.value;
      if ps == 0 then Failure(ZeroPoolSize)
      else if x.n0 > 0 && x.n2 > 0 && x.n1 % ps != 0 then Failure(CannotReshape)
      else
        var data := seq(x.n0, i requires 0 <= i < x.n0 => Pools(x.data[i], ps));
        Success(Some(Array4(x.n0, x.n1 / ps, ps, x.n2, data)))
  }

  /**
   * The pooled array has the shape it reports, and position k of timestep t of sample i
   * is position t * ps + k of sample i.
   */
  lemma PoolsClassLastAt<T>(x: Array3<T>, ps: nat, i: nat, t: nat, k: nat)
    requires Shaped3(x) && MkTimestepPoolsClassLast(Some(x), ps).Success?
    requires i < x.n0 && t < x.n1 / ps && k < ps
    ensures var a := MkTimestepPoolsClassLast(Some(x), ps).value.value;
      && t * ps + k < x.n1 && |a.data[i][t]| == ps
      && a.data[i][t][k] == x.data[i][t * ps + k] && |a.data[i][t][k]| == x.n2
  {
    PoolAt(x.data[i], ps, t, k);
  }

  /**
   * The reshape is undone by flattening each sample's pools: a successful pooling of a
   * non-empty class axis returns every position, in order.
   */
  lemma PoolsClassLastRoundTrip<T>(x: Array3<T>, ps: nat, i: nat)
    requires Shaped3(x) && i < x.n0
    requires MkTimestepPoolsClassLast(Some(x), ps).Success?
    requires x.n2 > 0
    ensures Concat(MkTimestepPoolsClassLast(Some(x), ps).value.value.data[i]) == x.data[i]
  {
    ConcatPools(x.data[i], ps);
  }

  // ---------------------------------------------------------------------------------
  // _squish_tw_to_sw (without stretch)
  // ---------------------------------------------------------------------------------

  /** A timestep's weight: the summed weights of its pool's transitions, or 1 where that is 0. */
  function TimestepWeight(pool: seq<seq<int>>, tw: seq<real>): (w: real)
    requires |tw| == 6 && forall k | 0 <= k < |pool| :: |pool[k]| >= 6
    ensures w != 0.0
    ensures HitWeight(pool, tw) != 0.0 ==> w == HitWeight(pool, tw)
    ensures HitWeight(pool, tw) == 0.0 ==> w == 1.0
  {
    var w := HitWeight(pool, tw);
    if w == 0.0 then 1.0 else w
  }

  /**
   * _squish_tw_to_sw with stretch 0: transitions of shape (b, T, ps, >= 6) become weights
   * of shape (b, T), one per timestep.
   */
  function SquishTwToSw(transitions: Array4<int>, tw: seq<real>): (sw: Array2<real>)
    requires Shaped4(transitions) && transitions.n3 >= 6 && |tw| == 6
    ensures Shaped2(sw) && sw.n0 == transitions.n0 && sw.n1 == transitions.n1
    ensures forall i, t | 0 <= i < sw.n0 && 0 <= t < sw.n1 ::
      sw.data[i][t] == TimestepWeight(transitions.data[i][t], tw)
  {
    var a := transitions;
    Array2(a.n0, a.n1, seq(a.n0, i requires 0 <= i < a.n0 =>
      seq(a.n1, t requires 0 <= t < a.n1 => TimestepWeight(a.data[i][t], tw))))
  }

  /** A timestep without any transition gets weight 1. */
  lemma NoTransitionWeighsOne(pool: seq<seq<int>>, tw: seq<real>)
    requires |tw| == 6 && forall k | 0 <= k < |pool| :: |pool[k]| >= 6
    requires forall col | 0 <= col < 6 :: !AnyOne(pool, col)
    ensures TimestepWeight(pool, tw) == 1.0
  {
    HitWeightNone(pool, tw);
  }

  /**
   * With non-negative weights, a timestep whose pool holds a transition of positive weight
   * is weighted by the summed weights of its transitions, hence at least by that one.
   */
  lemma TransitionWeightsAdd(pool: seq<seq<int>>, tw: seq<real>, col: nat)
    requires |tw| == 6 && forall k | 0 <= k < |pool| :: |pool[k]| >= 6
    requires forall c | 0 <= c < 6 :: tw[c] >= 0.0
    requires col < 6 && AnyOne(pool, col) && tw[col] > 0.0
    ensures TimestepWeight(pool, tw) >= tw[col]
    ensures TimestepWeight(pool, tw) == HitWeight(pool, tw)
  {
    HitWeightAtLeast(pool, tw, col);
  }

  /** A timestep holding exactly one kind of transition is weighted by it (or 1 if it is 0). */
  lemma SingleTransitionWeight(pool: seq<seq<int>>, tw: seq<real>, col: nat)
    requires |tw| == 6 && forall k | 0 <= k < |pool| :: |pool[k]| >= 6
    requires col < 6 && AnyOne(pool, col)
    requires forall c | 0 <= c < 6 && c != col :: !AnyOne(pool, c)
    ensures TimestepWeight(pool, tw) == (if tw[col] == 0.0 then 1.0 else tw[col])
  {
    HitWeightSingle(pool, tw, col);
  }

  /** With non-negative weights every timestep's weight is positive. */
  lemma WeightsPositive(transitions: Array4<int>, tw: seq<real>)
    requires Shaped4(transitions) && transitions.n3 >= 6 && |tw| == 6
    requires forall c | 0 <= c < 6 :: tw[c] >= 0.0
    ensures var sw := SquishTwToSw(transitions, tw);
      forall i, t | 0 <= i < sw.n0 && 0 <= t < sw.n1 :: sw.data[i][t] > 0.0
  {
    var sw := SquishTwToSw(transitions, tw);
    forall i, t | 0 <= i < sw.n0 && 0 <= t < sw.n1 ensures sw.data[i][t] > 0.0 {
      var pool := transitions.data[i][t];
      assert |tw| > 0;
      RealSumNonneg(HitWeights(pool, tw));
    }
  }
}
