/**
 * The batch of the LSTM model's data sequence: the dataset rows of one batch are read
 * in ascending order; with pools of more than one base the trailing overhang is clipped,
 * inputs are merged per pool, labels are grouped per pool, and the sample weights become
 * one per pool — summed class weights of the classes in the pool, or 1 exactly when no
 * base of the pool is masked.
 */
module LstmSequences {
  import opened Wrappers
  import opened Sequences
  import opened Pooling

  // ---------------------------------------------------------------------------------
  // Which rows are read
  // ---------------------------------------------------------------------------------

  /**
   * The dataset indices of batch `idx`: the usable indices idx * bs .. (idx + 1) * bs - 1,
   * sorted ascending.
   */
  function BatchIds(usableIdx: seq<int>, idx: nat, bs: nat): (ids: seq<int>)
    ensures Sorted(ids)
    ensures multiset(ids) == multiset(PySlice(usableIdx, idx * bs, (idx + 1) * bs))
  {
    assert (idx + 1) * bs == idx * bs + bs;
    SortedWindow(usableIdx, idx * bs, bs)
  }

  /** The slice of `bs` usable indices from `lo`, clamped at the end, sorted ascending. */
  function SortedWindow(usableIdx: seq<int>, lo: nat, bs: nat): (ids: seq<int>)
    ensures Sorted(ids)
    ensures multiset(ids) == multiset(PySlice(usableIdx, lo, lo + bs))
  {
    SortInts(PySlice(usableIdx, lo, lo + bs))
  }

  /** The rows a dataset of `n` rows can be read at: strictly increasing and in range. */
  predicate Readable(ids: seq<int>, n: nat) {
    && (forall k | 0 <= k < |ids| :: 0 <= ids[k] < n)
    && (forall k, l | 0 <= k < l < |ids| :: ids[k] < ids[l])
  }

  predicate Distinct(s: seq<int>) {
    forall k, l | 0 <= k < l < |s| :: s[k] != s[l]
  }

  /** The rows at `ids`, in that order. */
  function Gather<T>(d: seq<T>, ids: seq<int>): (r: seq<T>)
    requires forall k | 0 <= k < |ids| :: 0 <= ids[k] < |d|
    ensures |r| == |ids| && forall k | 0 <= k < |ids| :: r[k] == d[ids[k]]
  {
    seq(|ids|, k requires 0 <= k < |ids| => d[ids[k]])
  }

  // ---------------------------------------------------------------------------------
  // Clipping and pooling of one sample
  // ---------------------------------------------------------------------------------

  /**
   * `row[:-overhang]` where the overhang L % ps is not zero: the longest prefix whose
   * length is a multiple of ps.
   */
  function Clip<T>(row: seq<T>, ps: nat): (r: seq<T>)
    requires ps > 1
    ensures |r| == (|row| / ps) * ps && |r| % ps == 0 && |r| / ps == |row| / ps
    ensures |row| - |r| == |row| % ps && r == row[..|r|]
  {
    var overhang := |row| % ps;
    MulDivMod(|row| / ps, ps);
    if overhang != 0 then row[..|row| - overhang] else row
  }

  /** A multiple of ps divides evenly by ps. */
  lemma MulDivMod(q: nat, ps: nat)
    requires ps > 0
    ensures (q * ps) / ps == q && (q * ps) % ps == 0
  {
    var a := q * ps;
    var d, m := a / ps, a % ps;
    assert a == d * ps + m && 0 <= m < ps;
    assert (q - d) * ps == m;
    if q > d {
      MulMonotone(1, q - d, ps);
    }
  }

  /** X of one sample reshaped to (L / ps, -1): the feature rows of each pool laid end to end. */
  function PoolFeatures(sample: seq<seq<real>>, ps: nat, f: nat): (r: seq<seq<real>>)
    requires ps > 0 && forall p | 0 <= p < |sample| :: |sample[p]| == f
    ensures |r| == |sample| / ps && forall t | 0 <= t < |r| :: |r[t]| == ps * f
  {
    var pools := Pools(sample, ps);
    PoolsAt(sample, ps);
    forall t | 0 <= t < |pools| ensures |Concat(pools[t])| == ps * f {
      ConcatUniformLength(pools[t], f);
    }
    seq(|pools|, t requires 0 <= t < |pools| => Concat(pools[t]))
  }

  /** Feature j of base k of pool t sits at k * f + j of the pool's merged row. */
  lemma PoolFeaturesAt(sample: seq<seq<real>>, ps: nat, f: nat, t: nat, k: nat, j: nat)
    requires ps > 0 && forall p | 0 <= p < |sample| :: |sample[p]| == f
    requires t < |sample| / ps && k < ps && j < f
    ensures t * ps + k < |sample| && k * f + j < ps * f
    ensures PoolFeatures(sample, ps, f)[t][k * f + j] == sample[t * ps + k][j]
  {
    var pools := Pools(sample, ps);
    PoolsAt(sample, ps);
    ConcatUniformAt(pools[t], f, k, j);
    assert k * f + j < ps * f by {
      MulMonotone(k + 1, ps, f);
      assert (k + 1) * f == k * f + f;
    }
  }

  /** Without class weights: 1 when no base of the pool has sample weight 0, else 0. */
  function Unmasked(pool: seq<int>): (w: real)
    ensures w == 1.0 || w == 0.0
    ensures w == 1.0 <==> forall k | 0 <= k < |pool| :: pool[k] != 0
  {
    if exists k :: 0 <= k < |pool| && pool[k] == 0 then 0.0 else 1.0
  }

  /** The per-pool sample weights of one sample without class weights. */
  function PoolMasks(sw: seq<int>, ps: nat): (r: seq<real>)
    requires ps > 0
    ensures |r| == |sw| / ps
  {
    var pools := Pools(sw, ps);
    seq(|pools|, t requires 0 <= t < |pools| => Unmasked(pools[t]))
  }

  /** The per-pool sample weights of one sample with class weights `cw`. */
  function PoolClassWeights(y: seq<seq<seq<int>>>, cw: seq<real>): (r: seq<real>)
    requires forall t, k | 0 <= t < |y| && 0 <= k < |y[t]| :: |y[t][k]| >= |cw|
    ensures |r| == |y|
  {
    seq(|y|, t requires 0 <= t < |y| => HitWeight(y[t], cw))
  }

  // ---------------------------------------------------------------------------------
  // __getitem__
  // ---------------------------------------------------------------------------------

  /**
   * A batch as returned: as read when pools are single bases; otherwise X of shape
   * (b, L / ps, ps * features), y of shape (b, L / ps, ps, classes) and one weight per pool.
   */
  datatype Batch =
    | Unpooled(x: Array3<real>, y: Array3<int>, sw: Array2<int>)
    | Pooled(px: Array3<real>, py: Array4<int>, psw: Array2<real>)

  /**
   * np.stack of no rows fails; h5py refuses indices that are out of range or not
   * strictly increasing; reshaping X of no complete pool to (b, 0, -1) fails.
   */
  datatype ItemError = EmptyBatch | UnreadableIndices | CannotReshape

  /** The three datasets hold the same rows of the same length. */
  predicate Datasets(xD: Array3<real>, yD: Array3<int>, swD: Array2<int>) {
    && Shaped3(xD) && Shaped3(yD) && Shaped2(swD)
    && xD.n0 == yD.n0 == swD.n0 && xD.n1 == yD.n1 == swD.n1
  }

  /**
   * `__getitem__(idx)`, with the batch size, the pool size and the class weights as inputs:
   * the batch of the window `usable_idx[idx * bs:(idx + 1) * bs]` read in ascending order.
   * It fails on an empty window, on a window with a repeated or out-of-range index, and on
   * pools longer than a row; otherwise it holds one sample per index of the window.
   */
  function GetItem(usableIdx: seq<int>, idx: nat, bs: nat, xD: Array3<real>, yD: Array3<int>,
                   swD: Array2<int>, ps: int, cw: Option<seq<real>>): (r: Result<Batch, ItemError>)
    requires Datasets(xD, yD, swD)
    requires cw.Some? ==> |cw.value| == 4 && yD.n2 >= 4
    ensures var w := PySlice(usableIdx, idx * bs, (idx + 1) * bs);
      && (r == Failure(EmptyBatch) <==> w == [])
      && (r == Failure(UnreadableIndices) <==> w != [] && !WindowInRange(w, xD.n0))
      && (r == Failure(CannotReshape) <==> w != [] && WindowInRange(w, xD.n0) && ps > 1 && xD.n1 < ps)
      && (r.Success? && ps <= 1 ==> r.value.Unpooled? && r.value.x.n0 == |w|)
      && (r.Success? && ps > 1 ==> r.value.Pooled? && PooledShape(r.value, |w|, xD.n1 / ps, ps, xD.n2, yD.n2))
    ensures exists ids ::
      && Sorted(ids) && multiset(ids) == multiset(PySlice(usableIdx, idx * bs, (idx + 1) * bs))
      && r == ReadItem(ids, xD, yD, swD, ps, cw)
  {
    var ids := BatchIds(usableIdx, idx, bs);
    var w := PySlice(usableIdx, idx * bs, (idx + 1) * bs);
    ReadableIff(ids, w, xD.n0);
    assert |ids| == |multiset(ids)| == |multiset(w)| == |w|;
    ReadItem(ids, xD, yD, swD, ps, cw)
  }

  /** The window's indices are distinct and all rows of a dataset of `n` rows. */
  predicate WindowInRange(w: seq<int>, n: nat) {
    Distinct(w) && forall v | v in w :: 0 <= v < n
  }

  /**
   * The batch made of the rows at `ids`: an error exactly when there are no rows, the rows
   * cannot be read, or pools are requested that are longer than a row; as read for pools of
   * one base; otherwise pooled, with the shapes the reshapes give.
   */
  function ReadItem(ids: seq<int>, xD: Array3<real>, yD: Array3<int>, swD: Array2<int>, ps: int,
                    cw: Option<seq<real>>): (r: Result<Batch, ItemError>)
    requires Datasets(xD, yD, swD)
    requires cw.Some? ==> |cw.value| == 4 && yD.n2 >= 4
    ensures r == Failure(EmptyBatch) <==> ids == []
    ensures r == Failure(UnreadableIndices) <==> ids != [] && !Readable(ids, xD.n0)
    ensures r == Failure(CannotReshape) <==> ids != [] && Readable(ids, xD.n0) && ps > 1 && xD.n1 < ps
    ensures r.Success? && ps <= 1 ==>
      && r.value.Unpooled?
      && r.value.x == Array3(|ids|, xD.n1, xD.n2, Gather(xD.data, ids))
      && r.value.y == Array3(|ids|, yD.n1, yD.n2, Gather(yD.data, ids))
      && r.value.sw == Array2(|ids|, swD.n1, Gather(swD.data, ids))
    ensures r.Success? && ps > 1 ==> r.value.Pooled? && PooledShape(r.value, |ids|, xD.n1 / ps, ps, xD.n2, yD.n2)
  {
    if ids == [] then Failure(EmptyBatch)
    else if !Readable(ids, xD.n0) then Failure(UnreadableIndices)
    else
      var b, len := |ids|, xD.n1;
      var x, y, sw := Gather(xD.data, ids), Gather(yD.data, ids), Gather(swD.data, ids);
      if ps <= 1 then
        Success(Unpooled(Array3(b, len, xD.n2, x), Array3(b, len, yD.n2, y), Array2(b, len, sw)))
      else if len < ps then Failure(CannotReshape)
      else
        var py := PoolY(y, ps, len, yD.n2);
        var psw := if cw.Some? then PoolWeighted(py, cw.value) else PoolSw(sw, ps, len);
        Success(Pooled(PoolX(x, ps, len, xD.n2), py, psw))
  }

  /** A pooled batch of `b` samples, `t` pools of `ps` bases, `f` features and `c` classes. */
  predicate PooledShape(batch: Batch, b: nat, t: nat, ps: nat, f: nat, c: nat)
    requires batch.Pooled?
  {
    && batch.px.n0 == b && batch.px.n1 == t && batch.px.n2 == ps * f
    && batch.py.n0 == b && batch.py.n1 == t && batch.py.n2 == ps && batch.py.n3 == c
    && batch.psw.n0 == b && batch.psw.n1 == t
    && Shaped3(batch.px) && Shaped4(batch.py) && Shaped2(batch.psw)
  }

  /** X of the batch clipped and reshaped to (b, L / ps, ps * features). */
  function PoolX(x: seq<seq<seq<real>>>, ps: nat, len: nat, f: nat): (a: Array3<real>)
    requires ps > 1 && Shaped3(Array3(|x|, len, f, x))
    ensures a.n0 == |x| && a.n1 == len / ps && a.n2 == ps * f && Shaped3(a)
  {
    Array3(|x|, len / ps, ps * f, seq(|x|, i requires 0 <= i < |x| => PoolFeatures(Clip(x[i], ps), ps, f)))
  }

  /** y of the batch clipped and reshaped to (b, L / ps, ps, classes). */
  function PoolY(y: seq<seq<seq<int>>>, ps: nat, len: nat, c: nat): (a: Array4<int>)
    requires ps > 1 && Shaped3(Array3(|y|, len, c, y))
    ensures a.n0 == |y| && a.n1 == len / ps && a.n2 == ps && a.n3 == c && Shaped4(a)
  {
    Array4(|y|, len / ps, ps, c, seq(|y|, i requires 0 <= i < |y| => PoolLabels(y[i], ps, c)))
  }

  /** The labels of one sample, clipped and grouped into pools. */
  function PoolLabels(sample: seq<seq<int>>, ps: nat, c: nat): (r: seq<seq<seq<int>>>)
    requires ps > 1 && forall p | 0 <= p < |sample| :: |sample[p]| == c
    ensures |r| == |sample| / ps
    ensures forall t | 0 <= t < |r| :: |r[t]| == ps && forall k | 0 <= k < ps :: |r[t][k]| == c
  {
    var clipped := Clip(sample, ps);
    PoolsUniform(clipped, ps, c);
    Pools(clipped, ps)
  }

  /** The batch's sample weights with class weights: one per pool of the pooled labels. */
  function PoolWeighted(py: Array4<int>, cw: seq<real>): (a: Array2<real>)
    requires Shaped4(py) && py.n3 >= |cw|
    ensures a.n0 == py.n0 && a.n1 == py.n1 && Shaped2(a)
  {
    Array2(py.n0, py.n1, seq(py.n0, i requires 0 <= i < py.n0 => PoolClassWeights(py.data[i], cw)))
  }

  /** The batch's sample weights without class weights: clipped, then one per pool. */
  function PoolSw(sw: seq<seq<int>>, ps: nat, len: nat): (a: Array2<real>)
    requires ps > 1 && Shaped2(Array2(|sw|, len, sw))
    ensures a.n0 == |sw| && a.n1 == len / ps && Shaped2(a)
  {
    Array2(|sw|, len / ps, seq(|sw|, i requires 0 <= i < |sw| => PoolMasks(Clip(sw[i], ps), ps)))
  }

  // ---------------------------------------------------------------------------------
  // Properties
  // ---------------------------------------------------------------------------------

  /**
   * Batch `idx` (whose window starts at lo = idx * bs) reads the usable indices
   * lo .. lo + bs - 1 in ascending order: all `bs` of them while they last, the rest of them
   * for the last batch, none past the end.
   */
  lemma WindowBounds(usableIdx: seq<int>, lo: nat, bs: nat)
    ensures var ids := SortedWindow(usableIdx, lo, bs);
      && Sorted(ids)
      && (lo + bs <= |usableIdx| ==> |ids| == bs && multiset(ids) == multiset(usableIdx[lo .. lo + bs]))
      && (lo < |usableIdx| < lo + bs ==> |ids| == |usableIdx| - lo && multiset(ids) == multiset(usableIdx[lo..]))
      && (|usableIdx| <= lo ==> ids == [])
  {
    var ids := SortedWindow(usableIdx, lo, bs);
    var w := PySlice(usableIdx, lo, lo + bs);
    assert |ids| == |w| by {
      assert |ids| == |multiset(ids)| == |multiset(w)| == |w|;
    }
    if lo + bs <= |usableIdx| {
      assert w == usableIdx[lo .. lo + bs];
    } else if lo < |usableIdx| {
      assert w == usableIdx[lo..];
    } else {
      assert w == [];
    }
  }

  lemma DistinctCount(s: seq<int>, v: int)
    requires Distinct(s)
    ensures multiset(s)[v] <= 1
    decreases |s|
  {
    if s != [] {
      assert s == [s[0]] + s[1..];
      DistinctCount(s[1..], v);
      if v == s[0] {
        assert v !in s[1..];
      }
    }
  }

  lemma RepeatCount(s: seq<int>, k: nat, l: nat)
    requires k < l < |s| && s[k] == s[l]
    ensures multiset(s)[s[k]] >= 2
  {
    assert s == s[..l] + s[l..];
    assert s[k] in s[..l] && s[l] in s[l..];
  }

  /** Python's slice of a list without repetitions has none either, and only its elements. */
  lemma PySliceDistinct(s: seq<int>, a: nat, b: nat)
    requires Distinct(s)
    ensures Distinct(PySlice(s, a, b)) && forall v | v in PySlice(s, a, b) :: v in s
  {
    var lo := if a < |s| then a else |s|;
    var hi := if b < |s| then b else |s|;
    if lo <= hi {
      assert PySlice(s, a, b) == s[lo..hi];
    }
  }

  /**
   * Usable indices that are distinct rows of the datasets are always readable: the sorted
   * batch is strictly increasing and in range.
   */
  lemma DistinctIndicesReadable(usableIdx: seq<int>, idx: nat, bs: nat, n: nat)
    requires Distinct(usableIdx) && forall k | 0 <= k < |usableIdx| :: 0 <= usableIdx[k] < n
    ensures Readable(BatchIds(usableIdx, idx, bs), n)
  {
    WindowReadable(usableIdx, idx * bs, bs, n);
  }

  lemma WindowReadable(usableIdx: seq<int>, lo: nat, bs: nat, n: nat)
    requires Distinct(usableIdx) && forall k | 0 <= k < |usableIdx| :: 0 <= usableIdx[k] < n
    ensures Readable(SortedWindow(usableIdx, lo, bs), n)
  {
    SliceInRange(usableIdx, lo, bs, n);
    ReadableIff(SortedWindow(usableIdx, lo, bs), PySlice(usableIdx, lo, lo + bs), n);
  }

  /** A window of distinct in-range usable indices is itself distinct and in range. */
  lemma SliceInRange(usableIdx: seq<int>, lo: nat, bs: nat, n: nat)
    requires Distinct(usableIdx) && forall k | 0 <= k < |usableIdx| :: 0 <= usableIdx[k] < n
    ensures WindowInRange(PySlice(usableIdx, lo, lo + bs), n)
  {
    var slice := PySlice(usableIdx, lo, lo + bs);
    PySliceDistinct(usableIdx, lo, lo + bs);
    forall v | v in slice ensures 0 <= v < n {
      var k :| 0 <= k < |usableIdx| && usableIdx[k] == v;
    }
  }

  /** A sorted arrangement of a window is readable exactly when the window's indices are distinct and in range. */
  lemma ReadableIff(ids: seq<int>, elems: seq<int>, n: nat)
    requires Sorted(ids) && multiset(ids) == multiset(elems)
    ensures Readable(ids, n) <==> WindowInRange(elems, n)
  {
    if WindowInRange(elems, n) {
      SameElementsInRange(ids, elems, n);
      SortedDistinctIncreasing(ids, elems);
    }
    if Readable(ids, n) {
      forall k, l | 0 <= k < l < |elems| ensures elems[k] != elems[l] {
        if elems[k] == elems[l] {
          RepeatCount(elems, k, l);
          DistinctCount(ids, elems[k]);
        }
      }
      forall v | v in elems ensures 0 <= v < n {
        assert v in multiset(elems);
        assert v in multiset(ids);
        assert v in ids;
      }
    }
  }

  lemma SameElementsInRange(ids: seq<int>, elems: seq<int>, n: nat)
    requires multiset(ids) == multiset(elems) && forall v | v in elems :: 0 <= v < n
    ensures forall k | 0 <= k < |ids| :: 0 <= ids[k] < n
  {
    forall k | 0 <= k < |ids| ensures 0 <= ids[k] < n {
      assert ids[k] in multiset(ids);
      assert ids[k] in multiset(elems);
      assert ids[k] in elems;
    }
  }

  /** A sorted arrangement of a list without repetitions is strictly increasing. */
  lemma SortedDistinctIncreasing(ids: seq<int>, elems: seq<int>)
    requires Sorted(ids) && multiset(ids) == multiset(elems) && Distinct(elems)
    ensures forall k, l | 0 <= k < l < |ids| :: ids[k] < ids[l]
  {
    forall k, l | 0 <= k < l < |ids| ensures ids[k] < ids[l] {
      if ids[k] == ids[l] {
        RepeatCount(ids, k, l);
        DistinctCount(elems, ids[k]);
      }
    }
  }

  /** For pools of one base the batch is the rows as read. */
  lemma UnpooledAsRead(ids: seq<int>, xD: Array3<real>, yD: Array3<int>, swD: Array2<int>, ps: int,
                       cw: Option<seq<real>>, i: nat)
    requires Datasets(xD, yD, swD) && (cw.Some? ==> |cw.value| == 4 && yD.n2 >= 4)
    requires ReadItem(ids, xD, yD, swD, ps, cw).Success? && ps <= 1 && i < |ids|
    ensures var r := ReadItem(ids, xD, yD, swD, ps, cw).value;
      && 0 <= ids[i] < xD.n0
      && r.x.data[i] == xD.data[ids[i]] && r.y.data[i] == yD.data[ids[i]] && r.sw.data[i] == swD.data[ids[i]]
  {
  }

  /**
   * A pooled batch is made of the rows at `ids`: X, y and, with or without class weights,
   * the sample weights pooled from them.
   */
  lemma PooledParts(ids: seq<int>, xD: Array3<real>, yD: Array3<int>, swD: Array2<int>, ps: int,
                    cw: Option<seq<real>>)
    requires Datasets(xD, yD, swD) && (cw.Some? ==> |cw.value| == 4 && yD.n2 >= 4)
    requires ReadItem(ids, xD, yD, swD, ps, cw).Success? && ps > 1
    ensures Readable(ids, xD.n0)
    ensures var r, y := ReadItem(ids, xD, yD, swD, ps, cw).value, Gather(yD.data, ids);
      && r.px == PoolX(Gather(xD.data, ids), ps, xD.n1, xD.n2)
      && r.py == PoolY(y, ps, yD.n1, yD.n2)
      && r.psw == (if cw.Some? then PoolWeighted(PoolY(y, ps, yD.n1, yD.n2), cw.value)
                   else PoolSw(Gather(swD.data, ids), ps, swD.n1))
  {
  }

  /** Feature j of base k of pool t of sample i is feature j of base t * ps + k of its row. */
  lemma PoolXAt(x: seq<seq<seq<real>>>, ps: nat, len: nat, f: nat, i: nat, t: nat, k: nat, j: nat)
    requires ps > 1 && Shaped3(Array3(|x|, len, f, x))
    requires i < |x| && t < len / ps && k < ps && j < f
    ensures t * ps + k < len && k * f + j < ps * f
    ensures PoolX(x, ps, len, f).data[i][t][k * f + j] == x[i][t * ps + k][j]
  {
    PoolFeaturesAt(Clip(x[i], ps), ps, f, t, k, j);
  }

  /** Base k of pool t of sample i is base t * ps + k of its label row. */
  lemma PoolYAt(y: seq<seq<seq<int>>>, ps: nat, len: nat, c: nat, i: nat, t: nat, k: nat)
    requires ps > 1 && Shaped3(Array3(|y|, len, c, y))
    requires i < |y| && t < len / ps && k < ps
    ensures t * ps + k < len && PoolY(y, ps, len, c).data[i][t][k] == y[i][t * ps + k]
  {
    PoolAt(Clip(y[i], ps), ps, t, k);
  }

  /**
   * Without class weights, pool t of sample i weighs 1 when no base t * ps .. t * ps + ps - 1
   * of its row has sample weight 0, and 0 otherwise.
   */
  lemma PoolSwAt(sw: seq<seq<int>>, ps: nat, len: nat, i: nat, t: nat)
    requires ps > 1 && Shaped2(Array2(|sw|, len, sw))
    requires i < |sw| && t < len / ps
    ensures t * ps + ps <= len
    ensures PoolSw(sw, ps, len).data[i][t] ==
      (if forall p | t * ps <= p < t * ps + ps :: sw[i][p] != 0 then 1.0 else 0.0)
  {
    var clipped := Clip(sw[i], ps);
    PoolSlice(clipped, ps, t);
    var pool := clipped[t * ps .. t * ps + ps];
    assert PoolSw(sw, ps, len).data[i][t] == Unmasked(pool);
    assert forall p | t * ps <= p < t * ps + ps :: sw[i][p] == pool[p - t * ps];
  }

  /**
   * With class weights, pool t of sample i weighs the summed weights of the classes that
   * are 1 at some base t * ps .. t * ps + ps - 1 of its label row.
   */
  lemma PoolWeightedAt(y: seq<seq<seq<int>>>, ps: nat, len: nat, c: nat, cw: seq<real>, i: nat, t: nat)
    requires ps > 1 && Shaped3(Array3(|y|, len, c, y)) && c >= |cw|
    requires i < |y| && t < len / ps
    ensures t * ps + ps <= len
    ensures PoolWeighted(PoolY(y, ps, len, c), cw).data[i][t] == HitWeight(y[i][t * ps .. t * ps + ps], cw)
  {
    var clipped := Clip(y[i], ps);
    PoolSlice(clipped, ps, t);
    assert clipped[t * ps .. t * ps + ps] == y[i][t * ps .. t * ps + ps];
  }

  /** A pool whose bases are all of class c (one-hot) weighs exactly the weight of c. */
  lemma SingleClassPoolWeight(pool: seq<seq<int>>, cw: seq<real>, c: nat)
    requires |cw| == 4 && c < 4 && |pool| > 0
    requires forall k | 0 <= k < |pool| :: |pool[k]| >= 4 && pool[k][c] == 1
    requires forall k, d | 0 <= k < |pool| && 0 <= d < 4 && d != c :: pool[k][d] == 0
    ensures HitWeight(pool, cw) == cw[c]
  {
    assert pool[0][c] == 1;
    HitWeightSingle(pool, cw, c);
  }

  /** With non-negative class weights a pool weighs at least the weight of each class in it. */
  lemma ClassWeightAtLeast(pool: seq<seq<int>>, cw: seq<real>, c: nat, k: nat)
    requires |cw| == 4 && (forall d | 0 <= d < 4 :: cw[d] >= 0.0)
    requires forall q | 0 <= q < |pool| :: |pool[q]| >= 4
    requires c < 4 && k < |pool| && pool[k][c] == 1
    ensures HitWeight(pool, cw) >= cw[c]
  {
    HitWeightAtLeast(pool, cw, c);
  }
}
