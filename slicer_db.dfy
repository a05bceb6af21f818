/**
 * The annotation store as the slicer sees it, as plain values: the coordinate,
 * feature, piece and transcript tables, the piece-to-feature association table,
 * the per-sequence interval trees of feature positions, and the pure effect of every
 * store operation the slicer performs (queued swaps, new pieces, border splits).
 */
module AnnotationDb {
  import opened Wrappers
  import opened SliceGeometry

  type FeatureId = nat
  type PieceId = nat
  type CoordId = nat
  type TranscribedId = nat
  type SuperLocusId = nat

  /** A feature row; `start` is also the feature's position in the interval trees. */
  datatype Feature = Feature(
    start: int,
    end: int,
    isPlusStrand: bool,
    coordinate: CoordId,
    startIsBiologicalStart: bool,
    endIsBiologicalEnd: bool,
    givenId: Option<string>,
    superLocus: SuperLocusId)

  /**
   * The tables the slicer reads and writes. `pieceLinks[f]` is the set of pieces the
   * association table links feature `f` to; `pieces[p]` is the transcript owning piece
   * `p`; `transcribeds[t]` is the super-locus of transcript `t`. The `next*` counters
   * are the store's auto-increment ids.
   */
  datatype Db = Db(
    coordinates: map<CoordId, Coordinate>,
    features: map<FeatureId, Feature>,
    pieceLinks: map<FeatureId, set<PieceId>>,
    pieces: map<PieceId, TranscribedId>,
    transcribeds: map<TranscribedId, SuperLocusId>,
    nextCoordinate: nat,
    nextFeature: nat,
    nextPiece: nat)

  /** Referential integrity the slicer relies on, and freshness of the counters. */
  predicate Valid(db: Db) {
    && (forall c | c in db.coordinates :: c < db.nextCoordinate)
    && (forall f | f in db.features :: f < db.nextFeature && db.features[f].coordinate in db.coordinates)
    && (forall f | f in db.pieceLinks :: f in db.features)
    && (forall p | p in db.pieces :: p < db.nextPiece)
  }

  /** The classifier's view of feature `f` against `slice` on the current strand. */
  function Interp(db: Db, f: FeatureId, slice: Coordinate, isPlusStrand: bool): FeatureVsCoords
    requires Valid(db) && f in db.features
  {
    var ft := db.features[f];
    FeatureVsCoords(db.coordinates[ft.coordinate].seqid, ft.isPlusStrand, ft.start, ft.end,
                    slice, isPlusStrand)
  }

  // ---------------------------------------------------------------------------------
  // Queued updates (CoreQueue)
  // ---------------------------------------------------------------------------------

  /** Move feature `feature` from piece `oldPiece` to piece `newPiece`. */
  datatype PieceSwap = PieceSwap(feature: FeatureId, oldPiece: PieceId, newPiece: PieceId)

  /** Reassign feature `feature` to coordinate `newCoordinate`. */
  datatype CoordSwap = CoordSwap(feature: FeatureId, newCoordinate: CoordId)

  /**
   * One row of the association-table update "set piece := new where piece = old and
   * feature = f": only the link matching both the feature and the old piece is rewritten.
   */
  function ApplyPieceSwap(links: map<FeatureId, set<PieceId>>, s: PieceSwap): (r: map<FeatureId, set<PieceId>>)
    ensures r.Keys == links.Keys
  {
    if s.feature in links && s.oldPiece in links[s.feature]
    then links[s.feature := links[s.feature] - {s.oldPiece} + {s.newPiece}]
    else links
  }

  /** The batched update: every row of the list, in list order. */
  function ApplyPieceSwaps(links: map<FeatureId, set<PieceId>>, ss: seq<PieceSwap>): (r: map<FeatureId, set<PieceId>>)
    ensures r.Keys == links.Keys
    decreases |ss|
  {
    if ss == [] then links
    else ApplyPieceSwap(ApplyPieceSwaps(links, ss[..|ss| - 1]), ss[|ss| - 1])
  }

  /** One row of the feature-table update "set coordinate := new where id = f". */
  function ApplyCoordSwap(features: map<FeatureId, Feature>, s: CoordSwap): map<FeatureId, Feature> {
    if s.feature in features
    then features[s.feature := features[s.feature].(coordinate := s.newCoordinate)]
    else features
  }

  function ApplyCoordSwaps(features: map<FeatureId, Feature>, ss: seq<CoordSwap>): map<FeatureId, Feature>
    decreases |ss|
  {
    if ss == [] then features
    else ApplyCoordSwap(ApplyCoordSwaps(features, ss[..|ss| - 1]), ss[|ss| - 1])
  }

  /** CoreQueue.execute_so_far: the piece swaps first, then the coordinate swaps. */
  function ExecuteSoFar(db: Db, ps: seq<PieceSwap>, cs: seq<CoordSwap>): Db {
    var afterPieces := db.(pieceLinks := ApplyPieceSwaps(db.pieceLinks, ps));
    afterPieces.(features := ApplyCoordSwaps(afterPieces.features, cs))
  }

  /** The features a list of piece swaps names. */
  function PieceSwapFeatures(ss: seq<PieceSwap>): set<FeatureId> {
    set k | 0 <= k < |ss| :: ss[k].feature
  }

  /**
   * Piece swaps touch the association table only at the features they name: every
   * other feature keeps exactly its links, and no feature gains or loses its entry.
   */
  lemma {:induction false} PieceSwapsFrame(links: map<FeatureId, set<PieceId>>, ss: seq<PieceSwap>, f: FeatureId)
    requires f !in PieceSwapFeatures(ss)
    ensures f in links ==> ApplyPieceSwaps(links, ss)[f] == links[f]
    decreases |ss|
  {
    if ss != [] {
      var init := ss[..|ss| - 1];
      assert PieceSwapFeatures(init) <= PieceSwapFeatures(ss) by {
        forall g | g in PieceSwapFeatures(init) ensures g in PieceSwapFeatures(ss) {
          var k :| 0 <= k < |init| && init[k].feature == g;
          assert ss[k] == init[k];
        }
      }
      assert ss[|ss| - 1].feature in PieceSwapFeatures(ss);
      PieceSwapsFrame(links, init, f);
    }
  }

  /**
   * The coordinate a feature ends up with after a list of coordinate swaps: that of the
   * last swap naming it, or `current` when none does.
   */
  function LastCoordinateFor(ss: seq<CoordSwap>, f: FeatureId, current: CoordId): CoordId
    decreases |ss|
  {
    if ss == [] then current
    else if ss[|ss| - 1].feature == f then ss[|ss| - 1].newCoordinate
    else LastCoordinateFor(ss[..|ss| - 1], f, current)
  }

  /**
   * Coordinate swaps change nothing but the `coordinate` field of the features they name,
   * the last swap for a feature wins, and swaps for unknown features are ignored.
   */
  lemma {:induction false} CoordSwapsEffect(features: map<FeatureId, Feature>, ss: seq<CoordSwap>, f: FeatureId)
    ensures ApplyCoordSwaps(features, ss).Keys == features.Keys
    ensures f in features ==>
      ApplyCoordSwaps(features, ss)[f]
        == features[f].(coordinate := LastCoordinateFor(ss, f, features[f].coordinate))
    decreases |ss|
  {
    if ss != [] {
      CoordSwapsEffect(features, ss[..|ss| - 1], f);
    }
  }

  /** Coordinate swaps leave the association table alone and piece swaps the feature table. */
  lemma PhasesCommute(db: Db, ps: seq<PieceSwap>, cs: seq<CoordSwap>)
    ensures ExecuteSoFar(db, ps, cs)
         == db.(features := ApplyCoordSwaps(db.features, cs)).(pieceLinks := ApplyPieceSwaps(db.pieceLinks, ps))
  {
  }

  /** Every coordinate swap points at an existing coordinate. */
  predicate CoordSwapsValid(db: Db, cs: seq<CoordSwap>) {
    forall k | 0 <= k < |cs| :: cs[k].newCoordinate in db.coordinates
  }

  lemma {:induction false} CoordSwapsKeepValid(db: Db, cs: seq<CoordSwap>)
    requires Valid(db) && CoordSwapsValid(db, cs)
    ensures Valid(db.(features := ApplyCoordSwaps(db.features, cs)))
    decreases |cs|
  {
    if cs != [] {
      CoordSwapsKeepValid(db, cs[..|cs| - 1]);
    }
  }

  /** Flushing the queue keeps the store valid and touches only the two updated tables. */
  lemma ExecuteSoFarValid(db: Db, ps: seq<PieceSwap>, cs: seq<CoordSwap>)
    requires Valid(db) && CoordSwapsValid(db, cs)
    ensures Valid(ExecuteSoFar(db, ps, cs))
    ensures var r := ExecuteSoFar(db, ps, cs);
      && r.coordinates == db.coordinates && r.pieces == db.pieces && r.transcribeds == db.transcribeds
      && r.features.Keys == db.features.Keys
      && r.nextCoordinate == db.nextCoordinate && r.nextFeature == db.nextFeature && r.nextPiece == db.nextPiece
  {
    var afterPieces := db.(pieceLinks := ApplyPieceSwaps(db.pieceLinks, ps));
    CoordSwapsKeepValid(afterPieces, cs);
    if db.features != map[] {
      var f :| f in db.features;
      CoordSwapsEffect(db.features, cs, f);
    } else {
      CoordSwapsEffect(db.features, cs, 0);
    }
  }

  // ---------------------------------------------------------------------------------
  // New records
  // ---------------------------------------------------------------------------------

  /** The store with a new coordinate row, and the row's fresh id. */
  function AddCoordinate(db: Db, c: Coordinate): (r: (Db, CoordId))
    requires Valid(db)
    ensures Valid(r.0) && r.1 !in db.coordinates && r.0.coordinates == db.coordinates[r.1 := c]
    ensures r.0 == db.(coordinates := r.0.coordinates, nextCoordinate := r.0.nextCoordinate)
  {
    var id := db.nextCoordinate;
    (db.(coordinates := db.coordinates[id := c], nextCoordinate := id + 1), id)
  }

  /** TranscriptTrimmer.mk_new_piece: a fresh piece owned by transcript `t`. */
  function MkNewPiece(db: Db, t: TranscribedId): (r: (Db, PieceId))
    requires Valid(db)
    ensures Valid(r.0) && r.1 !in db.pieces && r.0.pieces == db.pieces[r.1 := t]
    ensures r.0 == db.(pieces := r.0.pieces, nextPiece := r.0.nextPiece)
  {
    var id := db.nextPiece;
    (db.(pieces := db.pieces[id := t], nextPiece := id + 1), id)
  }

  // ---------------------------------------------------------------------------------
  // Interval trees of feature positions
  // ---------------------------------------------------------------------------------

  /** One interval-tree entry [begin, end) carrying a feature. */
  datatype Entry = Entry(begin: int, end: int, feature: FeatureId)

  type Trees = map<string, seq<Entry>>

  /** load_to_intervaltree: add [position, position + 1) for `f`, creating the tree on demand. */
  function LoadToIntervalTree(trees: Trees, seqid: string, position: int, f: FeatureId): (r: Trees)
    ensures r.Keys == trees.Keys + {seqid}
    ensures forall s | s in trees && s != seqid :: r[s] == trees[s]
    ensures r[seqid] == (if seqid in trees then trees[seqid] else []) + [Entry(position, position + 1, f)]
  {
    if seqid in trees then trees[seqid := trees[seqid] + [Entry(position, position + 1, f)]]
    else trees[seqid := [Entry(position, position + 1, f)]]
  }

  /** Every entry is a single position and carries a feature of the store. */
  predicate TreesValid(trees: Trees, db: Db) {
    forall s, k | s in trees && 0 <= k < |trees[s]| ::
      trees[s][k].end == trees[s][k].begin + 1 && trees[s][k].feature in db.features
  }

  /** Feature `f` is linked to piece `p` in the association table. */
  predicate LinkedTo(db: Db, f: FeatureId, p: PieceId) {
    f in db.pieceLinks && p in db.pieceLinks[f]
  }

  /** The interval tree's overlap query `tree[start:end]`. */
  predicate Overlaps(e: Entry, start: int, end: int) {
    start < end && e.begin < end && e.end > start
  }

  datatype LookupError = NoIntervalTrees

  /**
   * SliceController.get_features_from_slice: the features of the requested strand whose
   * position p satisfies start <= p < end; an error when no tree was ever filled; nothing
   * for a sequence without annotations.
   */
  function GetFeaturesFromSlice(trees: Trees, db: Db, seqid: string, start: int, end: int, isPlusStrand: bool)
    : (r: Result<set<FeatureId>, LookupError>)
    requires TreesValid(trees, db)
    ensures r.Failure? <==> trees == map[]
    ensures r.Success? ==> r.value <= db.features.Keys
    ensures r.Success? && seqid !in trees ==> r.value == {}
    ensures r.Success? && seqid in trees ==>
      forall f :: f in r.value <==>
        exists k :: 0 <= k < |trees[seqid]| && trees[seqid][k].feature == f
          && start <= trees[seqid][k].begin < end && db.features[f].isPlusStrand == isPlusStrand
  {
    if trees == map[] then Failure(NoIntervalTrees)
    else if seqid !in trees then Success({})
    else
      var tree := trees[seqid];
      Success(set k | 0 <= k < |tree| && Overlaps(tree[k], start, end)
                        && db.features[tree[k].feature].isPlusStrand == isPlusStrand :: tree[k].feature)
  }

  /** The super-loci owning a set of features. */
  function SuperLociOf(db: Db, fs: set<FeatureId>): set<SuperLocusId>
    requires fs <= db.features.Keys
  {
    set f | f in fs :: db.features[f].superLocus
  }

  // ---------------------------------------------------------------------------------
  // Border split (TranscriptTrimmer.set_status_downstream_border)
  // ---------------------------------------------------------------------------------

  /**
   * Split `template` at the cut point of `slice`: a fresh copy of the template starting at
   * the cut, kept on `oldCoords`, moved from `oldPiece` to `newPiece` and registered in the
   * interval trees; the template itself ends at the cut. `None` is the source's assertion
   * that `oldPiece` is one of the template's pieces.
   */
  function SetStatusDownstreamBorder(db: Db, trees: Trees, slice: Coordinate, oldCoords: CoordId,
                                     isPlusStrand: bool, template: FeatureId, newPiece: PieceId,
                                     oldPiece: PieceId): (r: Option<(Db, Trees)>)
    requires Valid(db) && template in db.features && oldCoords in db.coordinates
    ensures r.None? <==> !LinkedTo(db, template, oldPiece)
    ensures r.Some? ==> Valid(r.value.0)
  {
    if template in db.pieceLinks && oldPiece in db.pieceLinks[template] then
      var cut := CutPoint(slice, isPlusStrand);
      var t := db.features[template];
      var d := db.nextFeature;
      var downstream := t.(start := cut, givenId := None, coordinate := oldCoords, startIsBiologicalStart := false);
      var trees' := LoadToIntervalTree(trees, db.coordinates[oldCoords].seqid, cut, d);
      var features' := db.features[template := t.(end := cut, endIsBiologicalEnd := false)][d := downstream];
      // the copy carries the template's links; swap_piece then moves it to the new piece
      var links' := db.pieceLinks[d := db.pieceLinks[template] - {oldPiece} + {newPiece}];
      Some((db.(features := features', pieceLinks := links', nextFeature := d + 1), trees'))
    else None
  }

  /**
   * The effect of a border split on the store: the new feature takes the next id; it is a
   * copy of the template from the cut on, without a given id, kept on `oldCoords`, with a
   * 5' end that is not a biological start, and linked to the template's pieces with
   * `oldPiece` replaced by `newPiece`; the template ends at the cut, with a 3' end that is
   * not a biological end; nothing else in the store changes, and the trees gain exactly
   * the entry of the new feature at the cut point.
   */
  lemma BorderSplitEffect(db: Db, trees: Trees, slice: Coordinate, oldCoords: CoordId, isPlusStrand: bool,
                          template: FeatureId, newPiece: PieceId, oldPiece: PieceId)
    requires Valid(db) && template in db.features && oldCoords in db.coordinates
    requires LinkedTo(db, template, oldPiece)
    ensures SetStatusDownstreamBorder(db, trees, slice, oldCoords, isPlusStrand, template, newPiece, oldPiece).Some?
    ensures
      var (db', trees') := SetStatusDownstreamBorder(db, trees, slice, oldCoords, isPlusStrand, template, newPiece, oldPiece).value;
      var cut := CutPoint(slice, isPlusStrand);
      var t := db.features[template];
      var d := db.nextFeature;
      && d !in db.features && d !in db.pieceLinks && db'.nextFeature == d + 1
      && db'.features == db.features[template := t.(end := cut, endIsBiologicalEnd := false)]
                                    [d := t.(start := cut, givenId := None, coordinate := oldCoords,
                                             startIsBiologicalStart := false)]
      && db'.pieceLinks == db.pieceLinks[d := db.pieceLinks[template] - {oldPiece} + {newPiece}]
      && db' == db.(features := db'.features, pieceLinks := db'.pieceLinks, nextFeature := d + 1)
      && trees' == LoadToIntervalTree(trees, db.coordinates[oldCoords].seqid, cut, d)
  {
  }

  /**
   * What a border split means geometrically: when the template straddled the downstream
   * border, afterwards the template (truncated, still on its own coordinate) lies inside
   * the window and the new feature, on the same coordinate, lies downstream of it.
   */
  lemma BorderSplitClassification(db: Db, trees: Trees, slice: Coordinate, isPlusStrand: bool,
                                  template: FeatureId, newPiece: PieceId, oldPiece: PieceId)
    requires Valid(db) && template in db.features
    requires Classify(Interp(db, template, slice, isPlusStrand)) == OverlapsDownstream
    requires LinkedTo(db, template, oldPiece)
    ensures var r := SetStatusDownstreamBorder(db, trees, slice, db.features[template].coordinate,
                                               isPlusStrand, template, newPiece, oldPiece);
      && r.Some?
      && Classify(Interp(r.value.0, template, slice, isPlusStrand)) == Contained
      && Classify(Interp(r.value.0, db.nextFeature, slice, isPlusStrand)) == Downstream
      && r.value.0.features[template].coordinate == db.features[template].coordinate
  {
    var v := Interp(db, template, slice, isPlusStrand);
    BorderSplitGeometry(v);
    BorderSplitEffect(db, trees, slice, db.features[template].coordinate, isPlusStrand, template, newPiece, oldPiece);
    var r := SetStatusDownstreamBorder(db, trees, slice, db.features[template].coordinate,
                                       isPlusStrand, template, newPiece, oldPiece);
    assert Interp(r.value.0, template, slice, isPlusStrand) == Truncated(v);
    assert Interp(r.value.0, db.nextFeature, slice, isPlusStrand) == Remainder(v);
  }

  /** A border split keeps the interval trees consistent with the store. */
  lemma BorderSplitKeepsTrees(db: Db, trees: Trees, slice: Coordinate, oldCoords: CoordId,
                              isPlusStrand: bool, template: FeatureId, newPiece: PieceId, oldPiece: PieceId)
    requires Valid(db) && template in db.features && oldCoords in db.coordinates && TreesValid(trees, db)
    requires SetStatusDownstreamBorder(db, trees, slice, oldCoords, isPlusStrand, template, newPiece, oldPiece).Some?
    ensures var r := SetStatusDownstreamBorder(db, trees, slice, oldCoords, isPlusStrand, template, newPiece, oldPiece).value;
      TreesValid(r.1, r.0)
  {
    BorderSplitEffect(db, trees, slice, oldCoords, isPlusStrand, template, newPiece, oldPiece);
  }

  // ---------------------------------------------------------------------------------
  // The no-overlap double check after NoFeaturesInSliceError
  // ---------------------------------------------------------------------------------

  /** The window SuperLocusHandler.modify4slice checks positions against, as written. */
  predicate InRecheckWindowAsWritten(slice: Coordinate, isPlusStrand: bool, position: int) {
    if isPlusStrand then slice.start <= position <= slice.end
    else slice.start - 1 <= position <= slice.end - 1
  }

  /** The half-open window the lookup used, on either strand. */
  predicate InRecheckWindow(slice: Coordinate, position: int) {
    slice.start <= position < slice.end
  }

  /** The double check as written: no same-strand feature of transcript `t` lies in its window. */
  predicate NoOverlapConfirmedAsWritten(db: Db, t: TranscribedId, slice: Coordinate, isPlusStrand: bool) {
    forall p, f | p in db.pieces && db.pieces[p] == t && f in db.features && f in db.pieceLinks
                  && p in db.pieceLinks[f] && db.features[f].isPlusStrand == isPlusStrand ::
      !InRecheckWindowAsWritten(slice, isPlusStrand, db.features[f].start)
  }

  /** The corrected double check, with the half-open window. */
  predicate NoOverlapConfirmed(db: Db, t: TranscribedId, slice: Coordinate, isPlusStrand: bool) {
    forall p, f | p in db.pieces && db.pieces[p] == t && f in db.features && f in db.pieceLinks
                  && p in db.pieceLinks[f] && db.features[f].isPlusStrand == isPlusStrand ::
      !InRecheckWindow(slice, db.features[f].start)
  }

  /**
   * The corrected window is exact: for a non-empty feature on the slice's sequence and
   * strand, its position lies in [start, end) exactly when the classifier reports it as
   * contained or as overlapping downstream, the two answers that count as an overlap.
   */
  lemma RecheckWindowExact(v: FeatureVsCoords)
    requires v.featureSeqid == v.slice.seqid && v.featureIsPlusStrand == v.isPlusStrand
    requires v.PyStart() < v.PyEnd()
    ensures InRecheckWindow(v.slice, v.featureStart)
        <==> Classify(v) in {Contained, OverlapsDownstream}
  {
  }

  /**
   * The window as written is not: a plus-strand feature starting exactly at the window's
   * end, [2000, 2500) against [1000, 2000), is downstream (no overlap), yet its position
   * is inside the written window, so the double check fails on it; the mirror case on the
   * minus strand is a feature whose 5' end is at start - 1.
   */
  lemma RecheckWindowAsWrittenTooWide()
    ensures var plus := FeatureVsCoords("chr1", true, 2000, 2500, Coordinate("chr1", 1000, 2000), true);
      && Classify(plus) == Downstream
      && InRecheckWindowAsWritten(plus.slice, true, plus.featureStart)
      && !InRecheckWindow(plus.slice, plus.featureStart)
    ensures var minus := FeatureVsCoords("chr1", false, 999, 500, Coordinate("chr1", 1000, 2000), false);
      && Classify(minus) == Downstream
      && InRecheckWindowAsWritten(minus.slice, false, minus.featureStart)
      && !InRecheckWindow(minus.slice, minus.featureStart)
  {
  }
}
