/**
 * The evaluation confusion matrix of the base-wise classifier: four classes
 * (0 intergenic, 1 UTR, 2 exon, 3 intron), rows indexed by the true class and columns by
 * the predicted class. A batch's bases are given as one sequence (the batch and position
 * axes flattened, which is what the argmax-and-ravel of the source produces), each base
 * with its four class scores.
 */
module ConfusionMatrices {
  import opened Wrappers
  import opened Sequences

  const Intergenic := 0
  const Utr := 1
  const Exon := 2
  const Intron := 3

  /** The scores (or one-hot labels) of one base. */
  type Scores = seq<real>

  /** numpy's argmax: the first position of the largest score. */
  function ArgMax(v: seq<real>): (i: nat)
    requires |v| > 0
    ensures i < |v|
    ensures forall j | 0 <= j < |v| :: v[j] <= v[i]
    ensures forall j | 0 <= j < i :: v[j] < v[i]
    decreases |v|
  {
    if |v| == 1 then 0
    else
      var m := ArgMax(v[..|v| - 1]);
      assert forall j | 0 <= j < |v| - 1 :: v[..|v| - 1][j] == v[j];
      if v[|v| - 1] > v[m] then |v| - 1 else m
  }

  /** sw.astype(bool): a base is kept iff its sample weight is nonzero. */
  function Unmasked(sw: seq<int>): (keep: seq<bool>)
    ensures |keep| == |sw| && forall i | 0 <= i < |sw| :: keep[i] == (sw[i] != 0)
  {
    seq(|sw|, i requires 0 <= i < |sw| => sw[i] != 0)
  }

  /** _remove_masked_bases: the same mask applied to predictions and labels; returns (y_pred, y_true). */
  function RemoveMaskedBases(yTrue: seq<Scores>, yPred: seq<Scores>, sw: seq<int>): (r: (seq<Scores>, seq<Scores>))
    requires |yTrue| == |yPred| == |sw|
  {
    (Select(yPred, Unmasked(sw)), Select(yTrue, Unmasked(sw)))
  }

  /**
   * Masking keeps labels and predictions paired: the kept (label, prediction) pairs are
   * exactly the pairs at the positions with nonzero sample weight, in order, and there are
   * as many as there are such positions.
   */
  lemma MaskingKeepsPairs(yTrue: seq<Scores>, yPred: seq<Scores>, sw: seq<int>)
    requires |yTrue| == |yPred| == |sw|
    ensures var (pred, tru) := RemoveMaskedBases(yTrue, yPred, sw);
      && |pred| == |tru| == Count(Unmasked(sw))
      && Zip(tru, pred) == Select(Zip(yTrue, yPred), Unmasked(sw))
  {
    SelectZip(yTrue, yPred, Unmasked(sw));
  }

  /** Every kept pair sits at an unmasked position of the input. */
  lemma MaskedPairsComeFromUnmaskedBases(yTrue: seq<Scores>, yPred: seq<Scores>, sw: seq<int>, k: nat)
    requires |yTrue| == |yPred| == |sw|
    requires k < Count(Unmasked(sw))
    ensures var (pred, tru) := RemoveMaskedBases(yTrue, yPred, sw);
      exists i :: 0 <= i < |sw| && sw[i] != 0 && tru[k] == yTrue[i] && pred[k] == yPred[i]
  {
    MaskingKeepsPairs(yTrue, yPred, sw);
    var pairs := Zip(yTrue, yPred);
    SelectPlaces(pairs, Unmasked(sw));
    var kept := Select(pairs, Unmasked(sw));
    assert kept[k] in kept;
    var i :| 0 <= i < |pairs| && Unmasked(sw)[i] && pairs[i] == kept[k];
  }

  /** _reshape_data: the argmax class of every base. */
  function ReshapeData(arr: seq<Scores>): (r: seq<nat>)
    requires forall i | 0 <= i < |arr| :: |arr[i]| > 0
    ensures |r| == |arr| && forall i | 0 <= i < |arr| :: r[i] == ArgMax(arr[i])
  {
    seq(|arr|, i requires 0 <= i < |arr| => ArgMax(arr[i]))
  }

  /** Every base carries four class scores. */
  predicate FourClasses(ys: seq<Scores>) {
    forall i | 0 <= i < |ys| :: |ys[i]| == 4
  }

  /** Masking keeps only whole bases, so every kept base still has four scores. */
  lemma {:induction false} MaskKeepsFourClasses(ys: seq<Scores>, sw: seq<int>)
    requires |ys| == |sw| && FourClasses(ys)
    ensures FourClasses(Select(ys, Unmasked(sw)))
    decreases |ys|
  {
    if ys != [] {
      var n := |ys| - 1;
      assert Unmasked(sw)[..n] == Unmasked(sw[..n]);
      MaskKeepsFourClasses(ys[..n], sw[..n]);
    }
  }

  /** The classes of the unmasked bases, in order: one of the four classes each. */
  function MaskedClasses(ys: seq<Scores>, sw: seq<int>): (r: seq<nat>)
    requires |ys| == |sw| && FourClasses(ys)
    ensures |r| == Count(Unmasked(sw))
    ensures forall i | 0 <= i < |r| :: r[i] < 4
  {
    MaskKeepsFourClasses(ys, sw);
    ReshapeData(Select(ys, Unmasked(sw)))
  }

  /** Number of bases with true class `t` and predicted class `p`. */
  function PairCount(ts: seq<nat>, ps: seq<nat>, t: nat, p: nat): nat
    requires |ts| == |ps|
    decreases |ts|
  {
    if ts == [] then 0
    else
      var n := |ts| - 1;
      PairCount(ts[..n], ps[..n], t, p) + (if ts[n] == t && ps[n] == p then 1 else 0)
  }

  /** The same count as the size of the set of positions it counts. */
  lemma {:induction false} PairCountIsCardinality(ts: seq<nat>, ps: seq<nat>, t: nat, p: nat)
    requires |ts| == |ps|
    ensures PairCount(ts, ps, t, p) == |set i | 0 <= i < |ts| && ts[i] == t && ps[i] == p|
    decreases |ts|
  {
    if ts != [] {
      var n := |ts| - 1;
      PairCountIsCardinality(ts[..n], ps[..n], t, p);
      var before := set i | 0 <= i < n && ts[..n][i] == t && ps[..n][i] == p;
      var now := set i | 0 <= i < |ts| && ts[i] == t && ps[i] == p;
      if ts[n] == t && ps[n] == p {
        assert now == before + {n};
      } else {
        assert now == before;
      }
    }
  }

  /** A 4 x 4 matrix of counts. */
  predicate IsMatrix(m: seq<seq<nat>>) {
    |m| == 4 && forall r | 0 <= r < 4 :: |m[r]| == 4
  }

  /** The batch matrix (coo_matrix(...).toarray()): duplicate (true, predicted) pairs add up. */
  function BatchCounts(ts: seq<nat>, ps: seq<nat>): (m: seq<seq<nat>>)
    requires |ts| == |ps|
    ensures IsMatrix(m)
    ensures forall t, p | 0 <= t < 4 && 0 <= p < 4 :: m[t][p] == PairCount(ts, ps, t, p)
  {
    seq(4, t requires 0 <= t < 4 => seq(4, p requires 0 <= p < 4 => PairCount(ts, ps, t, p)))
  }

  /** Element-wise sum of two 4 x 4 matrices (numpy's `+=`). */
  function AddMatrices(a: seq<seq<nat>>, b: seq<seq<nat>>): (m: seq<seq<nat>>)
    requires IsMatrix(a) && IsMatrix(b)
    ensures IsMatrix(m)
    ensures forall t, p | 0 <= t < 4 && 0 <= p < 4 :: m[t][p] == a[t][p] + b[t][p]
  {
    seq(4, t requires 0 <= t < 4 => seq(4, p requires 0 <= p < 4 => a[t][p] + b[t][p]))
  }

  /** Sum of a row of four. */
  lemma Sum4(s: seq<nat>)
    requires |s| == 4
    ensures Sum(s) == s[0] + s[1] + s[2] + s[3]
  {
    assert s[..3][..2] == s[..2] && s[..2][..1] == s[..1] && s[..1][..0] == [];
    calc {
      Sum(s);
      Sum(s[..3]) + s[3];
      Sum(s[..2]) + s[2] + s[3];
      Sum(s[..1]) + s[1] + s[2] + s[3];
      Sum([]) + s[0] + s[1] + s[2] + s[3];
    }
  }

  /** Sum of a row of three. */
  lemma Sum3(s: seq<nat>)
    requires |s| == 3
    ensures Sum(s) == s[0] + s[1] + s[2]
  {
    assert s[..2][..1] == s[..1] && s[..1][..0] == [];
    calc {
      Sum(s);
      Sum(s[..2]) + s[2];
      Sum(s[..1]) + s[1] + s[2];
      Sum([]) + s[0] + s[1] + s[2];
    }
  }

  /** The row sums of a matrix. */
  function RowSums(m: seq<seq<nat>>): (r: seq<nat>)
    ensures |r| == |m| && forall i | 0 <= i < |m| :: r[i] == Sum(m[i])
  {
    seq(|m|, i requires 0 <= i < |m| => Sum(m[i]))
  }

  /** np.sum(cm): the number of bases counted. */
  function Total(m: seq<seq<nat>>): nat {
    Sum(RowSums(m))
  }

  /** np.trace(cm): the number of bases classified correctly. */
  function Trace(m: seq<seq<nat>>): nat
    requires IsMatrix(m)
  {
    m[0][0] + m[1][1] + m[2][2] + m[3][3]
  }

  /** Total of a 4 x 4 matrix as its sixteen entries. */
  lemma TotalEntries(m: seq<seq<nat>>)
    requires IsMatrix(m)
    ensures Total(m) == m[0][0] + m[0][1] + m[0][2] + m[0][3]
                      + m[1][0] + m[1][1] + m[1][2] + m[1][3]
                      + m[2][0] + m[2][1] + m[2][2] + m[2][3]
                      + m[3][0] + m[3][1] + m[3][2] + m[3][3]
  {
    Sum4(RowSums(m));
    Sum4(m[0]);
    Sum4(m[1]);
    Sum4(m[2]);
    Sum4(m[3]);
  }

  /** Every unmasked base is counted once: the batch matrix adds up to the number of bases. */
  lemma {:induction false} BatchCountsTotal(ts: seq<nat>, ps: seq<nat>)
    requires |ts| == |ps|
    requires forall i | 0 <= i < |ts| :: ts[i] < 4 && ps[i] < 4
    ensures Total(BatchCounts(ts, ps)) == |ts|
    decreases |ts|
  {
    var m := BatchCounts(ts, ps);
    TotalEntries(m);
    if ts != [] {
      var n := |ts| - 1;
      BatchCountsTotal(ts[..n], ps[..n]);
      TotalEntries(BatchCounts(ts[..n], ps[..n]));
    }
  }

  /** State of ConfusionMatrix: the 4 x 4 count matrix `cm`. */
  class ConfusionMatrix {
    var cm: array2<nat>

    predicate Valid()
      reads this
    {
      cm.Length0 == 4 && cm.Length1 == 4
    }

    /** The counts as a value. */
    function Matrix(): (m: seq<seq<nat>>)
      requires Valid()
      reads this, cm
      ensures IsMatrix(m)
    {
      var a := cm;
      seq(4, t requires 0 <= t < 4 reads a => seq(4, p requires 0 <= p < 4 reads a => a[t, p]))
    }

    /** A new matrix counts nothing. */
    constructor ()
      ensures Valid() && fresh(cm)
      ensures forall t, p | 0 <= t < 4 && 0 <= p < 4 :: Matrix()[t][p] == 0
    {
      cm := new nat[4, 4]((t, p) => 0);
    }

    /** Adds `row` to row `t` of the counts; the other rows are unchanged. */
    method AddRow(t: nat, row: seq<nat>)
      requires Valid() && t < 4 && |row| == 4
      modifies cm
      ensures forall r, q | 0 <= r < 4 && 0 <= q < 4 ::
        cm[r, q] == old(cm[r, q]) + (if r == t then row[q] else 0)
    {
      for p := 0 to 4
        invariant forall r, q | 0 <= r < 4 && 0 <= q < 4 ::
          cm[r, q] == old(cm[r, q]) + (if r == t && q < p then row[q] else 0)
      {
        cm[t, p] := cm[t, p] + row[p];
      }
    }

    /**
     * _add_to_cm: drop the masked bases, take the argmax class of label and prediction,
     * and add one count per base at (true class, predicted class); nothing is added when
     * every base is masked.
     */
    method AddToCm(yTrue: seq<Scores>, yPred: seq<Scores>, sw: seq<int>)
      requires Valid()
      requires |yTrue| == |yPred| == |sw| && FourClasses(yTrue) && FourClasses(yPred)
      modifies cm
      ensures Valid()
      ensures Matrix() == AddMatrices(old(Matrix()), BatchCounts(MaskedClasses(yTrue, sw), MaskedClasses(yPred, sw)))
    {
      var (pred, tru) := RemoveMaskedBases(yTrue, yPred, sw);
      MaskKeepsFourClasses(yPred, sw);
      MaskKeepsFourClasses(yTrue, sw);
      ghost var before := Matrix();
      var batch := BatchCounts(ReshapeData(tru), ReshapeData(pred));
      if |pred| > 0 {
        for t := 0 to 4
          invariant forall r, p | 0 <= r < t && 0 <= p < 4 :: cm[r, p] == before[r][p] + batch[r][p]
          invariant forall r, p | t <= r < 4 && 0 <= p < 4 :: cm[r, p] == before[r][p]
        {
          AddRow(t, batch[t]);
        }
      }
      assert forall t | 0 <= t < 4 :: Matrix()[t] == AddMatrices(before, batch)[t];
    }
  }

  /**
   * What one call adds: the count at (t, p) grows by the number of unmasked bases whose
   * label has its first maximum at t and whose prediction has its first maximum at p, and
   * the total grows by the number of unmasked bases.
   */
  lemma AddToCmCounts(m: seq<seq<nat>>, yTrue: seq<Scores>, yPred: seq<Scores>, sw: seq<int>)
    requires IsMatrix(m) && |yTrue| == |yPred| == |sw| && FourClasses(yTrue) && FourClasses(yPred)
    ensures var ts, ps := MaskedClasses(yTrue, sw), MaskedClasses(yPred, sw);
      var next := AddMatrices(m, BatchCounts(ts, ps));
      && Total(next) == Total(m) + Count(Unmasked(sw))
      && forall t, p | 0 <= t < 4 && 0 <= p < 4 :: next[t][p] == m[t][p] + PairCount(ts, ps, t, p)
  {
    var ts, ps := MaskedClasses(yTrue, sw), MaskedClasses(yPred, sw);
    var b := BatchCounts(ts, ps);
    BatchCountsTotal(ts, ps);
    var next := AddMatrices(m, b);
    TotalEntries(next);
    TotalEntries(m);
    TotalEntries(b);
  }

  /** A batch whose bases are all masked leaves the matrix unchanged. */
  lemma FullyMaskedBatchAddsNothing(m: seq<seq<nat>>, yTrue: seq<Scores>, yPred: seq<Scores>, sw: seq<int>)
    requires IsMatrix(m) && |yTrue| == |yPred| == |sw| && FourClasses(yTrue) && FourClasses(yPred)
    requires forall i | 0 <= i < |sw| :: sw[i] == 0
    ensures AddMatrices(m, BatchCounts(MaskedClasses(yTrue, sw), MaskedClasses(yPred, sw))) == m
  {
    NoneUnmasked(sw);
    var next := AddMatrices(m, BatchCounts(MaskedClasses(yTrue, sw), MaskedClasses(yPred, sw)));
    assert forall t | 0 <= t < 4 :: next[t] == m[t];
  }

  lemma {:induction false} NoneUnmasked(sw: seq<int>)
    requires forall i | 0 <= i < |sw| :: sw[i] == 0
    ensures Count(Unmasked(sw)) == 0
    decreases |sw|
  {
    if sw != [] {
      var n := |sw| - 1;
      assert Unmasked(sw)[..n] == Unmasked(sw[..n]);
      NoneUnmasked(sw[..n]);
    }
  }

  // ---------------------------------------------------------------------------------
  // Scores
  // ---------------------------------------------------------------------------------

  datatype Counts = Counts(tp: nat, fp: nat, fn: nat)

  /** Column `c`: the bases predicted as class `c`, by true class. */
  function Column(m: seq<seq<nat>>, c: nat): (col: seq<nat>)
    requires IsMatrix(m) && c < 4
    ensures |col| == 4 && forall r | 0 <= r < 4 :: col[r] == m[r][c]
  {
    seq(4, r requires 0 <= r < 4 => m[r][c])
  }

  /**
   * The single-class counts of `_get_composite_scores`: TP is the diagonal entry, FP the
   * rest of the column, FN the rest of the row; so TP + FP is every base predicted as
   * `c` and TP + FN every base whose label is `c`.
   */
  function ClassCounts(m: seq<seq<nat>>, c: nat): (r: Counts)
    requires IsMatrix(m) && c < 4
    ensures r.tp == m[c][c]
    ensures r.tp + r.fp == Sum(Column(m, c))
    ensures r.tp + r.fn == Sum(m[c])
  {
    SumExceptAddsUp(Column(m, c), c);
    SumExceptAddsUp(m[c], c);
    Counts(m[c][c], SumExcept(Column(m, c), c), SumExcept(m[c], c))
  }

  function AddCounts(a: Counts, b: Counts): Counts {
    Counts(a.tp + b.tp, a.fp + b.fp, a.fn + b.fn)
  }

  /**
   * The three-class encoding in which exon and intron are one coding class: rows and
   * columns 2 and 3 are merged.
   */
  function MergeCoding(m: seq<seq<nat>>): (r: seq<seq<nat>>)
    requires IsMatrix(m)
    ensures |r| == 3 && forall i | 0 <= i < 3 :: |r[i]| == 3
  {
    [[m[0][0], m[0][1], m[0][2] + m[0][3]],
     [m[1][0], m[1][1], m[1][2] + m[1][3]],
     [m[2][0] + m[3][0], m[2][1] + m[3][1], m[2][2] + m[2][3] + m[3][2] + m[3][3]]]
  }

  /**
   * legacy_cds: confusions between exon and intron count as correct. These are exactly
   * the single-class counts of the merged coding class of the three-class encoding.
   */
  function LegacyCds(m: seq<seq<nat>>): (r: Counts)
    requires IsMatrix(m)
    ensures var mc := MergeCoding(m);
      && r.tp == mc[2][2]
      && r.fp == SumExcept([mc[0][2], mc[1][2], mc[2][2]], 2)
      && r.fn == SumExcept(mc[2], 2)
  {
    var mc := MergeCoding(m);
    var col := [mc[0][2], mc[1][2], mc[2][2]];
    SumExceptAddsUp(col, 2);
    SumExceptAddsUp(mc[2], 2);
    Sum3(col);
    Sum3(mc[2]);
    Counts(m[2][2] + m[3][3] + m[2][3] + m[3][2],
           m[0][2] + m[0][3] + m[1][2] + m[1][3],
           m[2][0] + m[3][0] + m[2][1] + m[3][1])
  }

  /** sub_genic: exon and intron counts summed. */
  function SubGenic(m: seq<seq<nat>>): (r: Counts)
    requires IsMatrix(m)
    ensures r.tp == m[2][2] + m[3][3]
    ensures r.tp + r.fn == Sum(m[2]) + Sum(m[3])
    ensures r.tp + r.fp == Sum(Column(m, 2)) + Sum(Column(m, 3))
  {
    AddCounts(ClassCounts(m, Exon), ClassCounts(m, Intron))
  }

  /**
   * genic: UTR, exon and intron counts summed. Correct intergenic bases are not counted,
   * TP + FN is every base labelled genic, TP + FP every base predicted genic.
   */
  function Genic(m: seq<seq<nat>>): (r: Counts)
    requires IsMatrix(m)
    ensures r.tp == m[1][1] + m[2][2] + m[3][3]
    ensures r.tp + r.fn == Sum(m[1]) + Sum(m[2]) + Sum(m[3])
    ensures r.tp + r.fp == Sum(Column(m, 1)) + Sum(Column(m, 2)) + Sum(Column(m, 3))
  {
    AddCounts(AddCounts(ClassCounts(m, Utr), ClassCounts(m, Exon)), ClassCounts(m, Intron))
  }

  datatype Metrics = Metrics(precision: real, recall: real, f1: real)

  /**
   * _precision_recall_f1 with its zero guards: precision and recall are 0 when their
   * denominator is 0, and F1 is 0 when both are. All three lie in [0, 1]; F1 is positive
   * exactly when TP is, and then equals 2 TP / (2 TP + FP + FN).
   */
  function PrecisionRecallF1(tp: nat, fp: nat, fn: nat): (r: Metrics)
    ensures tp + fp == 0 ==> r.precision == 0.0
    ensures tp + fp > 0 ==> r.precision == tp as real / (tp + fp) as real
    ensures tp + fn == 0 ==> r.recall == 0.0
    ensures tp + fn > 0 ==> r.recall == tp as real / (tp + fn) as real
    ensures 0.0 <= r.precision <= 1.0 && 0.0 <= r.recall <= 1.0 && 0.0 <= r.f1 <= 1.0
    ensures r.f1 > 0.0 <==> tp > 0
    ensures tp > 0 ==> r.f1 == (2 * tp) as real / (2 * tp + fp + fn) as real
  {
    var precision := if tp + fp > 0 then tp as real / (tp + fp) as real else 0.0;
    var recall := if tp + fn > 0 then tp as real / (tp + fn) as real else 0.0;
    var f1 := if precision + recall > 0.0 then 2.0 * precision * recall / (precision + recall) else 0.0;
    RatioBounds(tp, fp);
    RatioBounds(tp, fn);
    if tp > 0 then
      HarmonicMean(tp, fp, fn);
      Metrics(precision, recall, f1)
    else
      Metrics(precision, recall, f1)
  }

  lemma RatioBounds(a: nat, b: nat)
    ensures a + b > 0 ==> 0.0 <= a as real / (a + b) as real <= 1.0
    ensures a + b > 0 ==> (a as real / (a + b) as real > 0.0 <==> a > 0)
  {
    if a + b > 0 {
      var d := (a + b) as real;
      assert a as real / d * d == a as real;
    }
  }

  /** The harmonic mean of TP/(TP+FP) and TP/(TP+FN) is 2 TP / (2 TP + FP + FN). */
  lemma HarmonicMean(tp: nat, fp: nat, fn: nat)
    requires tp > 0
    ensures var p := tp as real / (tp + fp) as real;
      var r := tp as real / (tp + fn) as real;
      && p + r > 0.0
      && 2.0 * p * r / (p + r) == (2 * tp) as real / (2 * tp + fp + fn) as real
      && (2 * tp) as real / (2 * tp + fp + fn) as real <= 1.0
  {
    RatioBounds(tp, fp);
    RatioBounds(tp, fn);
    RatioBounds(2 * tp, fp + fn);
    HarmonicMeanOfRatios(tp as real, (tp + fp) as real, (tp + fn) as real);
    assert (2 * tp) as real == 2.0 * tp as real;
    assert (2 * tp + fp + fn) as real == (tp + fp) as real + (tp + fn) as real;
  }

  lemma HarmonicMeanOfRatios(t: real, a: real, b: real)
    requires t > 0.0 && a > 0.0 && b > 0.0 && t / a > 0.0 && t / b > 0.0
    ensures 2.0 * (t / a) * (t / b) / (t / a + t / b) == 2.0 * t / (a + b)
  {
    var p, r := t / a, t / b;
    var f := 2.0 * t / (a + b);
    Quotient(t, a);
    Quotient(t, b);
    Quotient(2.0 * t, a + b);
    HarmonicCross(t, a, b, p, r, f);
    Quotient(2.0 * p * r, p + r);
    CancelFactor(2.0 * p * r / (p + r), f, p + r);
  }

  lemma Quotient(x: real, y: real)
    requires y > 0.0
    ensures x / y * y == x
  {
  }

  lemma CancelFactor(x: real, y: real, z: real)
    requires z > 0.0 && x * z == y * z
    ensures x == y
  {
  }

  /** With p a = t, r b = t and f (a + b) = 2 t: f (p + r) = 2 p r. */
  lemma HarmonicCross(t: real, a: real, b: real, p: real, r: real, f: real)
    requires t > 0.0 && a > 0.0 && b > 0.0 && p > 0.0 && r > 0.0
    requires p * a == t && r * b == t && f * (a + b) == 2.0 * t
    ensures f * (p + r) == 2.0 * p * r
  {
    calc {
      f * (p + r) * (a * b);
      f * ((p * a) * b + (r * b) * a);
      f * (t * b + t * a);
      t * (f * (a + b));
      t * (2.0 * t);
      2.0 * (p * a) * (r * b);
      2.0 * p * r * (a * b);
    }
    CancelFactor(f * (p + r), 2.0 * p * r, a * b);
  }

  /**
   * _total_accuracy: correct bases over all bases; numpy yields NaN for an empty matrix,
   * modelled as None. The accuracy lies in [0, 1].
   */
  function TotalAccuracy(m: seq<seq<nat>>): (r: Option<real>)
    requires IsMatrix(m)
    ensures r.None? <==> Total(m) == 0
    ensures r.Some? ==> 0.0 <= r.value <= 1.0 && r.value == Trace(m) as real / Total(m) as real
  {
    TotalEntries(m);
    if Total(m) == 0 then None
    else
      RatioBounds(Trace(m), Total(m) - Trace(m));
      Some(Trace(m) as real / Total(m) as real)
  }

  datatype Score = Score(counts: Counts, metrics: Metrics)

  function Scored(c: Counts): (s: Score)
    ensures s.counts == c
  {
    Score(c, PrecisionRecallF1(c.tp, c.fp, c.fn))
  }

  /**
   * _get_composite_scores: the four single classes under their names, then legacy_cds,
   * sub_genic and genic, each with its metrics computed from its counts.
   */
  function CompositeScores(m: seq<seq<nat>>): (r: map<string, Score>)
    requires IsMatrix(m)
    ensures r.Keys == {"ig", "utr", "exon", "intron", "legacy_cds", "sub_genic", "genic"}
    ensures forall k | k in r :: r[k].metrics == PrecisionRecallF1(r[k].counts.tp, r[k].counts.fp, r[k].counts.fn)
    ensures r["genic"].counts.tp + r["ig"].counts.tp == Trace(m)
    ensures && r["ig"].counts == ClassCounts(m, Intergenic) && r["utr"].counts == ClassCounts(m, Utr)
            && r["exon"].counts == ClassCounts(m, Exon) && r["intron"].counts == ClassCounts(m, Intron)
    ensures && r["legacy_cds"].counts == LegacyCds(m) && r["sub_genic"].counts == SubGenic(m)
            && r["genic"].counts == Genic(m)
  {
    map["ig" := Scored(ClassCounts(m, Intergenic)),
        "utr" := Scored(ClassCounts(m, Utr)),
        "exon" := Scored(ClassCounts(m, Exon)),
        "intron" := Scored(ClassCounts(m, Intron)),
        "legacy_cds" := Scored(LegacyCds(m)),
        "sub_genic" := Scored(SubGenic(m)),
        "genic" := Scored(Genic(m))]
  }
}
