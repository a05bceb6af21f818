/**
 * The exporter's data handling: padding chunks to the chunk size and flagging them when
 * they are written to the output datasets, the random train/validation split of chunks,
 * the N90 index of a genome's coordinates, and the per-coordinate flattening of the
 * numerified strands. Randomness and the numerifier are inputs.
 */
module Export {
  import opened Wrappers
  import opened Sequences

  /** One row (position) of each of a chunk's feature arrays. */
  type InputRow = seq<real>
  type LabelRow = seq<int>

  /**
   * The per-chunk lists of a coordinate's export data, one entry per chunk in every list
   * (a dict of lists in the source).
   */
  datatype FlatData = FlatData(
    inputs: seq<seq<InputRow>>,
    labels: seq<seq<LabelRow>>,
    labelMasks: seq<seq<int>>,
    startEnds: seq<(int, int)>,
    gcContents: seq<nat>,
    coordLengths: seq<nat>,
    species: seq<string>,
    seqids: seq<string>)

  /** Every list holds one entry per chunk. */
  predicate Aligned(f: FlatData) {
    var n := |f.inputs|;
    |f.labels| == n && |f.labelMasks| == n && |f.startEnds| == n
    && |f.gcContents| == n && |f.coordLengths| == n && |f.species| == n && |f.seqids| == n
  }

  const NoChunks := FlatData([], [], [], [], [], [], [], [])

  /** The same positions selected from every list. */
  function SelectFlat(f: FlatData, keep: seq<bool>): (r: FlatData)
    requires Aligned(f) && |keep| == |f.inputs|
    ensures Aligned(r) && |r.inputs| == Count(keep)
  {
    FlatData(Select(f.inputs, keep), Select(f.labels, keep), Select(f.labelMasks, keep),
             Select(f.startEnds, keep), Select(f.gcContents, keep), Select(f.coordLengths, keep),
             Select(f.species, keep), Select(f.seqids, keep))
  }

  /** List-wise concatenation (`flat_data[key] += ...` for every key). */
  function AppendFlat(a: FlatData, b: FlatData): (r: FlatData)
    requires Aligned(a) && Aligned(b)
    ensures Aligned(r) && |r.inputs| == |a.inputs| + |b.inputs|
  {
    FlatData(a.inputs + b.inputs, a.labels + b.labels, a.labelMasks + b.labelMasks,
             a.startEnds + b.startEnds, a.gcContents + b.gcContents,
             a.coordLengths + b.coordLengths, a.species + b.species, a.seqids + b.seqids)
  }

  /** The first `i` chunks. */
  function PrefixFlat(f: FlatData, i: nat): (r: FlatData)
    requires Aligned(f) && i <= |f.inputs|
    ensures Aligned(r) && |r.inputs| == i
  {
    FlatData(f.inputs[..i], f.labels[..i], f.labelMasks[..i], f.startEnds[..i],
             f.gcContents[..i], f.coordLengths[..i], f.species[..i], f.seqids[..i])
  }

  /** Chunk `i` with its entry in every list. */
  datatype Row = Row(inputRows: seq<InputRow>, labelRows: seq<LabelRow>, mask: seq<int>,
                     startEnd: (int, int), gcContent: nat, coordLength: nat,
                     species: string, seqid: string)

  function RowAt(f: FlatData, i: nat): Row
    requires Aligned(f) && i < |f.inputs|
  {
    Row(f.inputs[i], f.labels[i], f.labelMasks[i], f.startEnds[i], f.gcContents[i],
        f.coordLengths[i], f.species[i], f.seqids[i])
  }

  /** The chunks as whole rows. */
  function Rows(f: FlatData): (r: seq<Row>)
    requires Aligned(f)
    ensures |r| == |f.inputs| && forall i | 0 <= i < |r| :: r[i] == RowAt(f, i)
  {
    seq(|f.inputs|, i requires 0 <= i < |f.inputs| => RowAt(f, i))
  }

  /** Selecting positions list by list keeps each chunk's entries together. */
  lemma {:induction false} SelectFlatRows(f: FlatData, keep: seq<bool>)
    requires Aligned(f) && |keep| == |f.inputs|
    ensures Rows(SelectFlat(f, keep)) == Select(Rows(f), keep)
    decreases |keep|
  {
    if keep != [] {
      var n := |keep| - 1;
      var p := PrefixFlat(f, n);
      assert Rows(f)[..n] == Rows(p);
      assert PrefixFlat(f, n + 1) == f;
      assert keep[..n + 1] == keep;
      SelectFlatRows(p, keep[..n]);
      SelectFlatSnoc(f, keep, n);
      if keep[n] {
        RowsAppendRow(SelectFlat(p, keep[..n]), f, n);
      }
    }
  }

  lemma RowsAppendRow(acc: FlatData, f: FlatData, i: nat)
    requires Aligned(acc) && Aligned(f) && i < |f.inputs|
    ensures Rows(AppendRow(acc, f, i)) == Rows(acc) + [RowAt(f, i)]
  {
  }

  // ---------------------------------------------------------------------------------
  // _split_sequences
  // ---------------------------------------------------------------------------------

  /** A chunk goes to the training set iff its random draw exceeds the validation share. */
  function ToTrain(draws: seq<real>, valSize: real): (keep: seq<bool>)
    ensures |keep| == |draws| && forall i | 0 <= i < |draws| :: keep[i] == (draws[i] > valSize)
  {
    seq(|draws|, i requires 0 <= i < |draws| => draws[i] > valSize)
  }

  /** Appends chunk `i` of `f` to every list of `acc`. */
  function AppendRow(acc: FlatData, f: FlatData, i: nat): (r: FlatData)
    requires Aligned(acc) && Aligned(f) && i < |f.inputs|
    ensures Aligned(r)
  {
    FlatData(acc.inputs + [f.inputs[i]], acc.labels + [f.labels[i]],
             acc.labelMasks + [f.labelMasks[i]], acc.startEnds + [f.startEnds[i]],
             acc.gcContents + [f.gcContents[i]], acc.coordLengths + [f.coordLengths[i]],
             acc.species + [f.species[i]], acc.seqids + [f.seqids[i]])
  }

  lemma SelectFlatSnoc(f: FlatData, keep: seq<bool>, i: nat)
    requires Aligned(f) && |keep| == |f.inputs| && i < |keep|
    ensures SelectFlat(PrefixFlat(f, i + 1), keep[..i + 1])
         == if keep[i] then AppendRow(SelectFlat(PrefixFlat(f, i), keep[..i]), f, i)
            else SelectFlat(PrefixFlat(f, i), keep[..i])
  {
    assert keep[..i + 1][..i] == keep[..i];
    assert PrefixFlat(PrefixFlat(f, i + 1), i) == PrefixFlat(f, i);
  }

  /**
   * _split_sequences, with the `random.random()` draw of every chunk given as `draws`:
   * the training set is the selection of the chunks whose draw exceeds `valSize`, the
   * validation set the selection of the others, the same choice for every list.
   */
  method SplitSequences(flat: FlatData, valSize: real, draws: seq<real>) returns (train: FlatData, val: FlatData)
    requires Aligned(flat) && |draws| == |flat.inputs|
    ensures train == SelectFlat(flat, ToTrain(draws, valSize))
    ensures val == SelectFlat(flat, Not(ToTrain(draws, valSize)))
  {
    var keep := ToTrain(draws, valSize);
    train, val := NoChunks, NoChunks;
    for i := 0 to |flat.inputs|
      invariant train == SelectFlat(PrefixFlat(flat, i), keep[..i])
      invariant val == SelectFlat(PrefixFlat(flat, i), Not(keep)[..i])
    {
      SelectFlatSnoc(flat, keep, i);
      SelectFlatSnoc(flat, Not(keep), i);
      if draws[i] > valSize {
        train := AppendRow(train, flat, i);
      } else {
        val := AppendRow(val, flat, i);
      }
    }
    assert PrefixFlat(flat, |flat.inputs|) == flat;
    assert keep[..|keep|] == keep && Not(keep)[..|keep|] == Not(keep);
  }

  /**
   * The split is a partition of whole chunks: every chunk goes to exactly one side with all
   * its entries, both sides keep the input order, and their sizes add up.
   */
  lemma SplitPartitionsChunks(flat: FlatData, valSize: real, draws: seq<real>)
    requires Aligned(flat) && |draws| == |flat.inputs|
    ensures var keep := ToTrain(draws, valSize);
      var train, val := SelectFlat(flat, keep), SelectFlat(flat, Not(keep));
      && |train.inputs| + |val.inputs| == |flat.inputs|
      && Rows(train) == Select(Rows(flat), keep)
      && Rows(val) == Select(Rows(flat), Not(keep))
      && multiset(Rows(train)) + multiset(Rows(val)) == multiset(Rows(flat))
  {
    var keep := ToTrain(draws, valSize);
    SelectFlatRows(flat, keep);
    SelectFlatRows(flat, Not(keep));
    SelectPartition(Rows(flat), keep);
  }

  /** The training set keeps its chunks in input order; chunk `i` lands after the earlier kept ones. */
  lemma SplitKeepsOrder(flat: FlatData, valSize: real, draws: seq<real>, i: nat)
    requires Aligned(flat) && |draws| == |flat.inputs| && i < |draws| && draws[i] > valSize
    ensures var keep := ToTrain(draws, valSize);
      var train := SelectFlat(flat, keep);
      Count(keep[..i]) < |train.inputs| && Rows(train)[Count(keep[..i])] == RowAt(flat, i)
  {
    var keep := ToTrain(draws, valSize);
    SelectFlatRows(flat, keep);
    SelectPlaces(Rows(flat), keep);
  }

  // ---------------------------------------------------------------------------------
  // _save_data
  // ---------------------------------------------------------------------------------

  /** `n` zeros of a row of width `w`. */
  function ZeroInputRow(w: nat): seq<real> {
    seq(w, _ => 0.0)
  }

  function ZeroLabelRow(w: nat): seq<int> {
    seq(w, _ => 0)
  }

  /** A row written into a zeroed array: the input up to its length, zero after it. */
  function Pad<T>(row: seq<T>, size: nat, zero: T): (r: seq<T>)
    requires |row| <= size
    ensures |r| == size
    ensures forall i | 0 <= i < size :: r[i] == (if i < |row| then row[i] else zero)
  {
    row + seq(size - |row|, _ => zero)
  }

  /** np.any(sample_weights == 0): some weight of the row is zero. */
  predicate HasZero(sw: seq<int>) {
    exists i :: 0 <= i < |sw| && sw[i] == 0
  }

  /**
   * One-hot labels (more than three columns): every row is intergenic in column 0.
   * Otherwise (the three-column encoding): column 0 is zero in every row.
   */
  predicate FullyIntergenic(y: seq<LabelRow>, nYCols: nat)
    requires forall i | 0 <= i < |y| :: |y[i]| > 0
  {
    if nYCols > 3 then forall i | 0 <= i < |y| :: y[i][0] == 1
    else forall i | 0 <= i < |y| :: y[i][0] == 0
  }

  /** n_y_cols: 7 with one-hot transitions, 4 otherwise; both use the one-hot test. */
  function NYCols(oneHotTransitions: bool): (n: nat)
    ensures n > 3
  {
    if oneHotTransitions then 7 else 4
  }

  /** Every chunk fits the chunk size, and its rows have the dataset's widths. */
  predicate Fits(f: FlatData, chunkSize: nat, nYCols: nat)
    requires Aligned(f)
  {
    forall j | 0 <= j < |f.inputs| ::
      && |f.inputs[j]| <= chunkSize && |f.labels[j]| == |f.inputs[j]| && |f.labelMasks[j]| == |f.inputs[j]|
      && (forall i | 0 <= i < |f.inputs[j]| :: |f.inputs[j][i]| == 4)
      && (forall i | 0 <= i < |f.labels[j]| :: |f.labels[j][i]| == nYCols)
  }

  /** Every chunk of a batch padded to `size` rows. */
  function PadAll<T>(rows: seq<seq<T>>, size: nat, zero: T): (r: seq<seq<T>>)
    requires forall j | 0 <= j < |rows| :: |rows[j]| <= size
    ensures |r| == |rows| && forall j | 0 <= j < |rows| :: r[j] == Pad(rows[j], size, zero)
  {
    seq(|rows|, j requires 0 <= j < |rows| => Pad(rows[j], size, zero))
  }

  function ErrSamples(sw: seq<seq<int>>): (r: seq<bool>)
    ensures |r| == |sw| && forall j | 0 <= j < |sw| :: r[j] == HasZero(sw[j])
  {
    seq(|sw|, j requires 0 <= j < |sw| => HasZero(sw[j]))
  }

  function FullyIntergenicSamples(y: seq<seq<LabelRow>>, nYCols: nat): (r: seq<bool>)
    requires forall j, i | 0 <= j < |y| && 0 <= i < |y[j]| :: |y[j][i]| > 0
    ensures |r| == |y| && forall j | 0 <= j < |y| :: r[j] == FullyIntergenic(y[j], nYCols)
  {
    seq(|y|, j requires 0 <= j < |y| => FullyIntergenic(y[j], nYCols))
  }

  /**
   * A chunk's error flag: it is set iff the chunk is shorter than the chunk size (its
   * padding has weight 0) or one of its own sample weights is 0.
   */
  lemma ErrSampleIff(mask: seq<int>, chunkSize: nat)
    requires |mask| <= chunkSize
    ensures HasZero(Pad(mask, chunkSize, 0)) <==> |mask| < chunkSize || HasZero(mask)
  {
    var p := Pad(mask, chunkSize, 0);
    if |mask| < chunkSize {
      assert p[|mask|] == 0;
    }
    if HasZero(p) {
      var i :| 0 <= i < |p| && p[i] == 0;
      if i < |mask| {
        assert mask[i] == 0;
      }
    }
    if HasZero(mask) {
      var i :| 0 <= i < |mask| && mask[i] == 0;
      assert p[i] == 0;
    }
  }

  /**
   * With one-hot labels a chunk is flagged fully intergenic iff it fills the chunk size and
   * every row is intergenic: padded (short) chunks never are. With the three-column
   * encoding the padding counts as intergenic.
   */
  lemma FullyIntergenicIff(labels: seq<LabelRow>, chunkSize: nat, nYCols: nat)
    requires |labels| <= chunkSize && nYCols > 0
    requires forall i | 0 <= i < |labels| :: |labels[i]| == nYCols
    ensures var p := Pad(labels, chunkSize, ZeroLabelRow(nYCols));
      && (forall i | 0 <= i < |p| :: |p[i]| > 0)
      && (nYCols > 3 ==>
            (FullyIntergenic(p, nYCols) <==> |labels| == chunkSize && FullyIntergenic(labels, nYCols)))
      && (nYCols <= 3 ==> (FullyIntergenic(p, nYCols) <==> FullyIntergenic(labels, nYCols)))
  {
    var p := Pad(labels, chunkSize, ZeroLabelRow(nYCols));
    if nYCols > 3 && |labels| < chunkSize {
      assert p[|labels|][0] == 0;
    }
    if FullyIntergenic(p, nYCols) {
      forall i | 0 <= i < |labels| ensures labels[i][0] == p[i][0] {
      }
    }
  }

  /** Error of `_save_data`: an empty batch has no first chunk to take the dtypes from. */
  datatype SaveError = EmptyBatch

  /**
   * The ten output datasets of one h5 file (the `/data/...` group): X, y, sample_weights,
   * gc_contents, coord_lengths, err_samples, fully_intergenic_samples, start_ends, species
   * and seqids.
   */
  datatype Datasets = Datasets(
    x: seq<seq<InputRow>>,
    y: seq<seq<LabelRow>>,
    sampleWeights: seq<seq<int>>,
    gcContents: seq<nat>,
    coordLengths: seq<nat>,
    errSamples: seq<bool>,
    fullyIntergenicSamples: seq<bool>,
    startEnds: seq<(int, int)>,
    species: seq<string>,
    seqids: seq<string>)

  const NoDatasets := Datasets([], [], [], [], [], [], [], [], [], [])

  /** Every dataset has the same number of rows. */
  predicate RowsAligned(d: Datasets) {
    var n := |d.x|;
    |d.y| == n && |d.sampleWeights| == n && |d.gcContents| == n && |d.coordLengths| == n
    && |d.errSamples| == n && |d.fullyIntergenicSamples| == n && |d.startEnds| == n
    && |d.species| == n && |d.seqids| == n
  }

  /**
   * The datasets after writing a batch: its padded chunks, flags and per-chunk values
   * follow the existing rows, which are unchanged, and the datasets stay row-aligned.
   */
  function Extend(d: Datasets, flat: FlatData, chunkSize: nat, nYCols: nat): (r: Datasets)
    requires Aligned(flat) && nYCols > 0 && Fits(flat, chunkSize, nYCols)
    ensures RowsAligned(d) ==> RowsAligned(r) && |r.x| == |d.x| + |flat.inputs|
    ensures d.x <= r.x && d.y <= r.y && d.sampleWeights <= r.sampleWeights
    ensures d.errSamples <= r.errSamples && d.fullyIntergenicSamples <= r.fullyIntergenicSamples
    ensures d.gcContents <= r.gcContents && d.coordLengths <= r.coordLengths && d.startEnds <= r.startEnds
    ensures d.species <= r.species && d.seqids <= r.seqids
  {
    var pY := PadAll(flat.labels, chunkSize, ZeroLabelRow(nYCols));
    var pSw := PadAll(flat.labelMasks, chunkSize, 0);
    Datasets(d.x + PadAll(flat.inputs, chunkSize, ZeroInputRow(4)), d.y + pY, d.sampleWeights + pSw,
             d.gcContents + flat.gcContents, d.coordLengths + flat.coordLengths,
             d.errSamples + ErrSamples(pSw), d.fullyIntergenicSamples + FullyIntergenicSamples(pY, nYCols),
             d.startEnds + flat.startEnds, d.species + flat.species, d.seqids + flat.seqids)
  }

  /** An h5 output file's data group. */
  class H5Data {
    var data: Datasets

    predicate Valid()
      reads this
    {
      RowsAligned(data)
    }

    /** A file without the datasets yet. */
    constructor ()
      ensures Valid() && data == NoDatasets
    {
      data := NoDatasets;
    }

    /**
     * _save_data: every chunk is zero-padded to `chunkSize` in X, y and sample_weights,
     * its error and fully-intergenic flags are taken from the padded arrays, and each
     * dataset grows by the batch's rows after the existing ones. An empty batch fails
     * before anything is written.
     */
    method SaveData(flat: FlatData, chunkSize: nat, nYCols: nat) returns (error: Option<SaveError>)
      requires Valid() && Aligned(flat) && nYCols > 0 && Fits(flat, chunkSize, nYCols)
      modifies this
      ensures Valid()
      ensures error.Some? <==> flat.inputs == []
      ensures error.Some? ==> data == old(data)
      ensures error.None? ==> data == Extend(old(data), flat, chunkSize, nYCols)
    {
      if |flat.inputs| == 0 {
        return Some(EmptyBatch);
      }
      var X := PadRows(flat.inputs, chunkSize, ZeroInputRow(4));
      var Y := PadRows(flat.labels, chunkSize, ZeroLabelRow(nYCols));
      var SW := PadRows(flat.labelMasks, chunkSize, 0);
      var err := ErrSamples(SW);
      var fully := FullyIntergenicSamples(Y, nYCols);
      data := Datasets(data.x + X, data.y + Y, data.sampleWeights + SW,
                       data.gcContents + flat.gcContents, data.coordLengths + flat.coordLengths,
                       data.errSamples + err, data.fullyIntergenicSamples + fully,
                       data.startEnds + flat.startEnds, data.species + flat.species, data.seqids + flat.seqids);
      return None;
    }
  }

  /**
   * The padding loop of `_save_data` for one array: a zeroed (n, size, ...) array with each
   * chunk written over the start of its row.
   */
  method PadRows<T>(rows: seq<seq<T>>, size: nat, zero: T) returns (padded: seq<seq<T>>)
    requires forall j | 0 <= j < |rows| :: |rows[j]| <= size
    ensures padded == PadAll(rows, size, zero)
  {
    var a := new seq<T>[|rows|](_ => seq(size, _ => zero));
    for j := 0 to |rows|
      invariant forall k | 0 <= k < j :: a[k] == Pad(rows[k], size, zero)
    {
      a[j] := Pad(rows[j], size, zero);
    }
    padded := a[..];
  }

  /**
   * What a written chunk's flags say: chunk j of a batch is flagged as an error iff it is
   * shorter than the chunk size or has a zero weight, and with one-hot labels it is flagged
   * fully intergenic only if it fills the chunk size.
   */
  lemma SavedFlags(flat: FlatData, chunkSize: nat, nYCols: nat, j: nat)
    requires Aligned(flat) && nYCols > 3 && Fits(flat, chunkSize, nYCols) && j < |flat.inputs|
    ensures var d := Extend(NoDatasets, flat, chunkSize, nYCols);
      && (d.errSamples[j] <==> |flat.inputs[j]| < chunkSize || HasZero(flat.labelMasks[j]))
      && (d.fullyIntergenicSamples[j] ==> |flat.inputs[j]| == chunkSize)
  {
    ErrSampleIff(flat.labelMasks[j], chunkSize);
    FullyIntergenicIff(flat.labels[j], chunkSize, nYCols);
  }

  // ---------------------------------------------------------------------------------
  // N90_index and the N90 split
  // ---------------------------------------------------------------------------------

  datatype Coord = Coord(id: nat, length: nat)

  function Lengths(cs: seq<Coord>): (r: seq<nat>)
    ensures |r| == |cs| && forall i | 0 <= i < |cs| :: r[i] == cs[i].length
  {
    seq(|cs|, i requires 0 <= i < |cs| => cs[i].length)
  }

  /** The total length of some coordinates. */
  function TotalLength(cs: seq<Coord>): nat {
    Sum(Lengths(cs))
  }

  /**
   * `int(total * 0.9)`: 90 percent of the total rounded down. The double product agrees
   * with this integer formula for every total below 2^49.
   */
  function N90Threshold(total: nat): (t: nat)
    ensures t <= total && 10 * t <= 9 * total < 10 * t + 10
  {
    (9 * total) / 10
  }

  /** The running length after coordinate `j`. */
  function RunningLength(cs: seq<Coord>, j: nat): nat
    requires j < |cs|
  {
    TotalLength(cs[..j + 1])
  }

  /** `i` is the first position at which the running length reaches the threshold. */
  predicate IsN90Index(cs: seq<Coord>, i: nat) {
    && i < |cs|
    && RunningLength(cs, i) >= N90Threshold(TotalLength(cs))
    && forall j | 0 <= j < i :: RunningLength(cs, j) < N90Threshold(TotalLength(cs))
  }

  lemma TotalLengthSnoc(cs: seq<Coord>, i: nat)
    requires i < |cs|
    ensures TotalLength(cs[..i + 1]) == TotalLength(cs[..i]) + cs[i].length
  {
    assert Lengths(cs[..i + 1])[..i] == Lengths(cs[..i]);
  }

  /**
   * N90_index: running sum of lengths until it reaches 90 percent of the total; `None`
   * (Python's fall-through) exactly when there are no coordinates.
   */
  method N90Index(cs: seq<Coord>) returns (r: Option<nat>)
    ensures r.None? <==> cs == []
    ensures r.Some? ==> IsN90Index(cs, r.value)
  {
    var len90 := N90Threshold(TotalLength(cs));
    var lenSum := 0;
    for i := 0 to |cs|
      invariant lenSum == TotalLength(cs[..i])
      invariant forall j | 0 <= j < i :: RunningLength(cs, j) < len90
      invariant 0 < i ==> lenSum < len90
    {
      TotalLengthSnoc(cs, i);
      lenSum := lenSum + cs[i].length;
      if lenSum >= len90 {
        return Some(i);
      }
    }
    assert cs[..|cs|] == cs;
    return None;
  }

  /** There is only one N90 index. */
  lemma N90IndexUnique(cs: seq<Coord>, i: nat, j: nat)
    requires IsN90Index(cs, i) && IsN90Index(cs, j)
    ensures i == j
  {
  }

  /** Lengths and sums distribute over concatenation. */
  lemma TotalLengthAppend(a: seq<Coord>, b: seq<Coord>)
    ensures TotalLength(a + b) == TotalLength(a) + TotalLength(b)
  {
    assert Lengths(a + b) == Lengths(a) + Lengths(b);
    SumAppend(Lengths(a), Lengths(b));
  }

  /**
   * The split of `_split_coords_by_N90`: `coords[:i+1]` and `coords[i+1:]` partition the
   * list, the first part is nonempty and holds at least 90 percent (rounded down) of the
   * length, the second at most the rest.
   */
  lemma N90PartsPartition(cs: seq<Coord>, i: nat)
    requires IsN90Index(cs, i)
    ensures cs[..i + 1] + cs[i + 1..] == cs && |cs[..i + 1]| >= 1
    ensures TotalLength(cs[..i + 1]) >= N90Threshold(TotalLength(cs))
    ensures TotalLength(cs[i + 1..]) <= TotalLength(cs) - N90Threshold(TotalLength(cs))
  {
    assert cs[..i + 1] + cs[i + 1..] == cs;
    TotalLengthAppend(cs[..i + 1], cs[i + 1..]);
  }

  // ---------------------------------------------------------------------------------
  // _numerify_coord: filter and flatten
  // ---------------------------------------------------------------------------------

  /**
   * What the numerifier yields for one strand of a coordinate: per-chunk lists and
   * per-coordinate values.
   */
  datatype CoordData = CoordData(
    inputs: seq<seq<InputRow>>,
    labels: seq<seq<LabelRow>>,
    labelMasks: seq<seq<int>>,
    startEnds: seq<(int, int)>,
    gcContent: nat,
    coordLength: nat,
    species: string,
    seqid: string)

  predicate ChunksAligned(cd: CoordData) {
    |cd.labels| == |cd.inputs| && |cd.labelMasks| == |cd.inputs| && |cd.startEnds| == |cd.inputs|
  }

  /** `s.any()` on a mask: some base is not masked. */
  predicate AnyUnmasked(mask: seq<int>) {
    exists i :: 0 <= i < |mask| && mask[i] != 0
  }

  /** The chunks kept: all of them with `keepErrors`, else those not completely masked. */
  function KeptChunks(cd: CoordData, keepErrors: bool): (keep: seq<bool>)
    ensures |keep| == |cd.labelMasks|
    ensures forall j | 0 <= j < |keep| :: keep[j] == (keepErrors || AnyUnmasked(cd.labelMasks[j]))
  {
    seq(|cd.labelMasks|, j requires 0 <= j < |cd.labelMasks| => keepErrors || AnyUnmasked(cd.labelMasks[j]))
  }

  /** `[x] * n` */
  function Replicate<T>(x: T, n: nat): (r: seq<T>)
    ensures |r| == n && forall i | 0 <= i < n :: r[i] == x
  {
    seq(n, _ => x)
  }

  /**
   * One strand's contribution to the flattened data: the same mask of kept chunks is
   * applied to every list-valued key, and each per-coordinate value is repeated once per
   * kept chunk. Without `keepErrors` no kept chunk is completely masked; with it nothing
   * is dropped.
   */
  function StrandRows(cd: CoordData, keepErrors: bool): (r: FlatData)
    requires ChunksAligned(cd)
    ensures Aligned(r)
    ensures var keep := KeptChunks(cd, keepErrors);
      && r.inputs == Select(cd.inputs, keep) && r.labels == Select(cd.labels, keep)
      && r.labelMasks == Select(cd.labelMasks, keep) && r.startEnds == Select(cd.startEnds, keep)
    ensures var n := Count(KeptChunks(cd, keepErrors));
      && r.gcContents == Replicate(cd.gcContent, n) && r.coordLengths == Replicate(cd.coordLength, n)
      && r.species == Replicate(cd.species, n) && r.seqids == Replicate(cd.seqid, n)
    ensures !keepErrors ==> forall j | 0 <= j < |r.labelMasks| :: AnyUnmasked(r.labelMasks[j])
    ensures keepErrors ==>
      (r.inputs == cd.inputs && r.labels == cd.labels && r.labelMasks == cd.labelMasks && r.startEnds == cd.startEnds)
  {
    var keep := KeptChunks(cd, keepErrors);
    if keepErrors then
      KeepAll(cd.inputs, keep);
      KeepAll(cd.labels, keep);
      KeepAll(cd.labelMasks, keep);
      KeepAll(cd.startEnds, keep);
      var n := |cd.inputs|;
      FlatData(cd.inputs, cd.labels, cd.labelMasks, cd.startEnds,
               Replicate(cd.gcContent, n), Replicate(cd.coordLength, n),
               Replicate(cd.species, n), Replicate(cd.seqid, n))
    else
      SelectedMasksUnmasked(cd.labelMasks, keep);
      var n := Count(keep);
      FlatData(Select(cd.inputs, keep), Select(cd.labels, keep), Select(cd.labelMasks, keep),
               Select(cd.startEnds, keep), Replicate(cd.gcContent, n), Replicate(cd.coordLength, n),
               Replicate(cd.species, n), Replicate(cd.seqid, n))
  }

  /**
   * Every chunk with an unmasked base (every chunk, with `keepErrors`) survives the filter
   * whole: its entries of all four list-valued keys sit at the same position of the
   * strand's contribution, after the kept chunks before it.
   */
  lemma StrandRowsKeepsChunk(cd: CoordData, keepErrors: bool, j: nat)
    requires ChunksAligned(cd) && j < |cd.inputs|
    requires keepErrors || AnyUnmasked(cd.labelMasks[j])
    ensures var r := StrandRows(cd, keepErrors);
      var k := Count(KeptChunks(cd, keepErrors)[..j]);
      && k < |r.inputs|
      && r.inputs[k] == cd.inputs[j] && r.labels[k] == cd.labels[j]
      && r.labelMasks[k] == cd.labelMasks[j] && r.startEnds[k] == cd.startEnds[j]
  {
    var keep := KeptChunks(cd, keepErrors);
    assert keep[j];
    SelectPlaces(cd.inputs, keep);
    SelectPlaces(cd.labels, keep);
    SelectPlaces(cd.labelMasks, keep);
    SelectPlaces(cd.startEnds, keep);
  }

  /** Selecting with an all-true mask keeps everything. */
  lemma {:induction false} KeepAll<T>(xs: seq<T>, keep: seq<bool>)
    requires |keep| == |xs| && forall j | 0 <= j < |keep| :: keep[j]
    ensures Select(xs, keep) == xs
    decreases |xs|
  {
    if xs != [] {
      var n := |xs| - 1;
      KeepAll(xs[..n], keep[..n]);
    }
  }

  /** Only unmasked chunks are kept, so every selected mask has an unmasked base. */
  lemma SelectedMasksUnmasked(masks: seq<seq<int>>, keep: seq<bool>)
    requires |keep| == |masks|
    requires forall j | 0 <= j < |keep| && keep[j] :: AnyUnmasked(masks[j])
    ensures forall j | 0 <= j < |Select(masks, keep)| :: AnyUnmasked(Select(masks, keep)[j])
  {
    SelectPlaces(masks, keep);
    var sel := Select(masks, keep);
    forall j | 0 <= j < |sel| ensures AnyUnmasked(sel[j]) {
      assert sel[j] in sel;
      var k :| 0 <= k < |masks| && keep[k] && masks[k] == sel[j];
    }
  }

  /**
   * The filter and flatten of _numerify_coord over the plus strand, then the minus strand:
   * `flatData` is the concatenation of the two strands' contributions.
   */
  method NumerifyCoord(plus: CoordData, minus: CoordData, keepErrors: bool) returns (flatData: FlatData)
    requires ChunksAligned(plus) && ChunksAligned(minus)
    ensures flatData == AppendFlat(AppendFlat(NoChunks, StrandRows(plus, keepErrors)), StrandRows(minus, keepErrors))
  {
    var strands := [plus, minus];
    flatData := NoChunks;
    for s := 0 to 2
      invariant Aligned(flatData)
      invariant s == 1 ==> flatData == AppendFlat(NoChunks, StrandRows(plus, keepErrors))
      invariant s == 2 ==> flatData == AppendFlat(AppendFlat(NoChunks, StrandRows(plus, keepErrors)), StrandRows(minus, keepErrors))
      invariant s == 0 ==> flatData == NoChunks
    {
      flatData := AppendFlat(flatData, StrandRows(strands[s], keepErrors));
    }
  }

  /**
   * The flattened data of a coordinate is aligned (one entry per chunk in every list):
   * every list-valued key holds the kept chunks of the plus strand, then those of the minus
   * strand, and every per-coordinate value is repeated once per kept chunk of each strand.
   * Without `keepErrors` no chunk in it is completely masked, and with it every chunk of
   * both strands is there.
   */
  lemma NumerifiedDataAligned(plus: CoordData, minus: CoordData, keepErrors: bool)
    requires ChunksAligned(plus) && ChunksAligned(minus)
    ensures var f := AppendFlat(AppendFlat(NoChunks, StrandRows(plus, keepErrors)), StrandRows(minus, keepErrors));
      var kp, km := KeptChunks(plus, keepErrors), KeptChunks(minus, keepErrors);
      && Aligned(f)
      && f.inputs == Select(plus.inputs, kp) + Select(minus.inputs, km)
      && f.labels == Select(plus.labels, kp) + Select(minus.labels, km)
      && f.labelMasks == Select(plus.labelMasks, kp) + Select(minus.labelMasks, km)
      && f.startEnds == Select(plus.startEnds, kp) + Select(minus.startEnds, km)
      && f.gcContents == Replicate(plus.gcContent, Count(kp)) + Replicate(minus.gcContent, Count(km))
      && f.coordLengths == Replicate(plus.coordLength, Count(kp)) + Replicate(minus.coordLength, Count(km))
      && f.species == Replicate(plus.species, Count(kp)) + Replicate(minus.species, Count(km))
      && f.seqids == Replicate(plus.seqid, Count(kp)) + Replicate(minus.seqid, Count(km))
      && (!keepErrors ==> forall j | 0 <= j < |f.labelMasks| :: AnyUnmasked(f.labelMasks[j]))
      && (keepErrors ==> |f.inputs| == |plus.inputs| + |minus.inputs|)
  {
    var a := StrandRows(plus, keepErrors);
    var b := StrandRows(minus, keepErrors);
    var f := AppendFlat(AppendFlat(NoChunks, a), b);
    assert AppendFlat(NoChunks, a) == a;
    if !keepErrors {
      forall j | 0 <= j < |f.labelMasks| ensures AnyUnmasked(f.labelMasks[j]) {
        if j < |a.labelMasks| {
          assert f.labelMasks[j] == a.labelMasks[j];
        } else {
          assert f.labelMasks[j] == b.labelMasks[j - |a.labelMasks|];
        }
      }
    }
  }
}
