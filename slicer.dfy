/**
 * The slicer's objects as they change in place: the annotation store behind the database
 * session, the shared queue of pending swaps, the interval trees, one trimmer per
 * transcript, and the controller that runs the two strand passes over the slices.
 * Every method is tied to the value-level operation of AnnotationDb or TrimSpec that
 * it performs.
 */
module Slicer {
  import opened Wrappers
  import opened SliceGeometry
  import opened AnnotationDb
  import opened TrimSpec
  import opened SlicePass

  /** The annotation store as the session sees it: the store's tables as fields. */
  class Store {
    var coordinates: map<CoordId, Coordinate>
    var features: map<FeatureId, Feature>
    var pieceLinks: map<FeatureId, set<PieceId>>
    var pieces: map<PieceId, TranscribedId>
    var transcribeds: map<TranscribedId, SuperLocusId>
    var nextCoordinate: nat
    var nextFeature: nat
    var nextPiece: nat

    function Model(): Db
      reads this
    {
      Db(coordinates, features, pieceLinks, pieces, transcribeds, nextCoordinate, nextFeature, nextPiece)
    }

    constructor (db: Db)
      ensures Model() == db
    {
      coordinates, features, pieceLinks := db.coordinates, db.features, db.pieceLinks;
      pieces, transcribeds := db.pieces, db.transcribeds;
      nextCoordinate, nextFeature, nextPiece := db.nextCoordinate, db.nextFeature, db.nextPiece;
    }

    /** Insert a coordinate row (session.add + commit). */
    method AddCoordinate(c: Coordinate) returns (id: CoordId)
      requires Valid(Model())
      modifies this
      ensures (Model(), id) == AnnotationDb.AddCoordinate(old(Model()), c)
    {
      id := nextCoordinate;
      coordinates := coordinates[id := c];
      nextCoordinate := id + 1;
    }

    /** Insert a transcribed-piece row owned by transcript `t`. */
    method AddPiece(t: TranscribedId) returns (id: PieceId)
      requires Valid(Model())
      modifies this
      ensures (Model(), id) == AnnotationDb.MkNewPiece(old(Model()), t)
    {
      id := nextPiece;
      pieces := pieces[id := t];
      nextPiece := id + 1;
    }

    /** Insert a feature row with its piece links; it takes the next feature id. */
    method AddFeature(f: Feature, links: set<PieceId>) returns (id: FeatureId)
      modifies this
      ensures id == old(nextFeature)
      ensures Model() == old(Model()).(features := old(features)[id := f], pieceLinks := old(pieceLinks)[id := links],
                                       nextFeature := id + 1)
    {
      id := nextFeature;
      features := features[id := f];
      pieceLinks := pieceLinks[id := links];
      nextFeature := id + 1;
    }

    /** Overwrite the attributes of an existing feature row. */
    method SetFeature(id: FeatureId, f: Feature)
      modifies this
      ensures Model() == old(Model()).(features := old(features)[id := f])
    {
      features := features[id := f];
    }

    /**
     * One row of the association-table update: move feature `s.feature` from `s.oldPiece`
     * to `s.newPiece`; `matched` tells whether the feature was linked to the old piece
     * (when it is not, the update matches no row and de_link would raise ValueError).
     */
    method SwapPiece(s: PieceSwap) returns (matched: bool)
      modifies this
      ensures matched == LinkedTo(old(Model()), s.feature, s.oldPiece)
      ensures Model() == old(Model()).(pieceLinks := ApplyPieceSwap(old(pieceLinks), s))
    {
      matched := s.feature in pieceLinks && s.oldPiece in pieceLinks[s.feature];
      if matched {
        pieceLinks := pieceLinks[s.feature := pieceLinks[s.feature] - {s.oldPiece} + {s.newPiece}];
      }
    }

    /** One row of the feature-table update: move feature `s.feature` to coordinate `s.newCoordinate`. */
    method SwapCoordinate(s: CoordSwap)
      modifies this
      ensures Model() == old(Model()).(features := ApplyCoordSwap(old(features), s))
    {
      if s.feature in features {
        features := features[s.feature := features[s.feature].(coordinate := s.newCoordinate)];
      }
    }
  }

  /** CoreQueue: the pending piece swaps and coordinate swaps shared by all trimmers. */
  class CoreQueue {
    var pieceSwaps: seq<PieceSwap>
    var coordSwaps: seq<CoordSwap>

    constructor ()
      ensures pieceSwaps == [] && coordSwaps == []
    {
      pieceSwaps, coordSwaps := [], [];
    }

    /**
     * execute_so_far: run the piece-swap update over the whole piece-swap list, then the
     * coordinate-swap update over the coordinate-swap list, skipping an empty list, and
     * empty both lists.
     */
    method ExecuteSoFar(store: Store)
      modifies this, store
      ensures store.Model() == AnnotationDb.ExecuteSoFar(old(store.Model()), old(pieceSwaps), old(coordSwaps))
      ensures pieceSwaps == [] && coordSwaps == []
    {
      if pieceSwaps != [] {
        var i := 0;
        while i < |pieceSwaps|
          invariant 0 <= i <= |pieceSwaps| && pieceSwaps == old(pieceSwaps) && coordSwaps == old(coordSwaps)
          invariant store.Model() == old(store.Model()).(pieceLinks := ApplyPieceSwaps(old(store.pieceLinks), pieceSwaps[..i]))
        {
          assert pieceSwaps[..i + 1][..i] == pieceSwaps[..i];
          var _ := store.SwapPiece(pieceSwaps[i]);
          i := i + 1;
        }
        assert pieceSwaps[..i] == pieceSwaps;
        pieceSwaps := [];
      }
      assert store.Model() == old(store.Model()).(pieceLinks := ApplyPieceSwaps(old(store.pieceLinks), old(pieceSwaps)));
      ghost var afterPieces := store.Model();
      if coordSwaps != [] {
        var i := 0;
        while i < |coordSwaps|
          invariant 0 <= i <= |coordSwaps| && coordSwaps == old(coordSwaps) && pieceSwaps == []
          invariant store.Model() == afterPieces.(features := ApplyCoordSwaps(afterPieces.features, coordSwaps[..i]))
        {
          assert coordSwaps[..i + 1][..i] == coordSwaps[..i];
          store.SwapCoordinate(coordSwaps[i]);
          i := i + 1;
        }
        assert coordSwaps[..i] == coordSwaps;
        coordSwaps := [];
      }
    }
  }

  /** The controller's dictionary of interval trees, one per sequence id. */
  class IntervalTrees {
    var trees: Trees

    constructor ()
      ensures trees == map[]
    {
      trees := map[];
    }

    /** load_to_intervaltree for one feature at `position`. */
    method Load(seqid: string, position: int, f: FeatureId)
      modifies this
      ensures trees == LoadToIntervalTree(old(trees), seqid, position, f)
    {
      if seqid !in trees {
        trees := trees[seqid := []];
      }
      trees := trees[seqid := trees[seqid] + [Entry(position, position + 1, f)]];
    }
  }

  /**
   * TranscriptTrimmer: crops one transcript to a new slice. It shares the store, the queue
   * and the trees with the controller and owns the lazily created downstream piece.
   */
  class TranscriptTrimmer {
    const transcribed: TranscribedId
    const store: Store
    const queue: CoreQueue
    var downstreamPiece: Option<PieceId>

    constructor (transcribed: TranscribedId, store: Store, queue: CoreQueue)
      ensures this.transcribed == transcribed && this.store == store && this.queue == queue
      ensures downstreamPiece == None
    {
      this.transcribed, this.store, this.queue := transcribed, store, queue;
      downstreamPiece := None;
    }

    /** The walk state this trimmer, the shared objects and the walk's locals make up. */
    function StateOf(trees: IntervalTrees, seen: bool, border: Option<PieceId>, failed: bool): TrimState
      reads this, store, queue, trees
    {
      TrimState(store.Model(), trees.trees, queue.pieceSwaps, queue.coordSwaps, downstreamPiece, seen, border, failed)
    }

    /** mk_new_piece: a new piece of this trimmer's transcript. */
    method MkNewPiece() returns (p: PieceId)
      requires Valid(store.Model())
      modifies store
      ensures (store.Model(), p) == AnnotationDb.MkNewPiece(old(store.Model()), transcribed)
    {
      p := store.AddPiece(transcribed);
    }

    /** The downstream_piece property: made on first access, the same piece afterwards. */
    method DownstreamPiece() returns (p: PieceId)
      requires Valid(store.Model()) && (downstreamPiece.Some? ==> downstreamPiece.value in store.pieces)
      modifies this, store
      ensures (store.Model(), p) == TrimSpec.DownstreamPiece(old(store.Model()), old(downstreamPiece), transcribed)
      ensures downstreamPiece == Some(p)
    {
      if downstreamPiece.None? {
        var np := MkNewPiece();
        downstreamPiece := Some(np);
      }
      p := downstreamPiece.value;
    }

    /**
     * set_status_downstream_border: split `template` at the slice's cut point; `ok` is
     * false, and nothing is changed, when `oldPiece` is not among the template's pieces
     * (the source's assertion).
     */
    method SetStatusDownstreamBorder(trees: IntervalTrees, slice: Coordinate, oldCoords: CoordId, isPlusStrand: bool,
                                     template: FeatureId, newPiece: PieceId, oldPiece: PieceId) returns (ok: bool)
      requires Valid(store.Model()) && template in store.features && oldCoords in store.coordinates
      modifies store, trees
      ensures var r := AnnotationDb.SetStatusDownstreamBorder(old(store.Model()), old(trees.trees), slice, oldCoords,
                                                              isPlusStrand, template, newPiece, oldPiece);
        && ok == r.Some?
        && (ok ==> (store.Model(), trees.trees) == r.value)
        && (!ok ==> store.Model() == old(store.Model()) && trees.trees == old(trees.trees))
    {
      var downAt := if isPlusStrand then slice.end else slice.start - 1;
      if !(template in store.pieceLinks && oldPiece in store.pieceLinks[template]) {
        return false;
      }
      ghost var db0 := store.Model();
      BorderSplitEffect(db0, trees.trees, slice, oldCoords, isPlusStrand, template, newPiece, oldPiece);
      var t := store.features[template];
      var downstream := AddDownstreamCopy(trees, store.coordinates[oldCoords].seqid, oldCoords, downAt, template);
      TruncateTemplate(template, t.(end := downAt, endIsBiologicalEnd := false), downstream, newPiece, oldPiece);
      assert downstream != template;
      assert store.features == db0.features[template := t.(end := downAt, endIsBiologicalEnd := false)]
                                           [downstream := t.(start := downAt, givenId := None, coordinate := oldCoords,
                                                             startIsBiologicalStart := false)];
      assert store.pieceLinks == db0.pieceLinks[downstream := db0.pieceLinks[template] - {oldPiece} + {newPiece}];
      ok := true;
    }

    /** The copy of the template from the cut on, entered into the store and the trees. */
    method AddDownstreamCopy(trees: IntervalTrees, seqid: string, oldCoords: CoordId, downAt: int, template: FeatureId)
      returns (downstream: FeatureId)
      requires template in store.features && template in store.pieceLinks
      modifies store, trees
      ensures downstream == old(store.nextFeature)
      ensures store.Model() == old(store.Model()).(
        features := old(store.features)[downstream := old(store.features)[template].(
          start := downAt, givenId := None, coordinate := oldCoords, startIsBiologicalStart := false)],
        pieceLinks := old(store.pieceLinks)[downstream := old(store.pieceLinks)[template]],
        nextFeature := downstream + 1)
      ensures trees.trees == LoadToIntervalTree(old(trees.trees), seqid, downAt, downstream)
    {
      var t := store.features[template];
      downstream := store.AddFeature(
        t.(start := downAt, givenId := None, coordinate := oldCoords, startIsBiologicalStart := false),
        store.pieceLinks[template]);
      trees.Load(seqid, downAt, downstream);
    }

    /** The template ends at the cut, and its copy moves from `oldPiece` to `newPiece`. */
    method TruncateTemplate(template: FeatureId, truncated: Feature, downstream: FeatureId,
                            newPiece: PieceId, oldPiece: PieceId)
      requires LinkedTo(store.Model(), downstream, oldPiece)
      modifies store
      ensures store.Model() == old(store.Model()).(
        features := old(store.features)[template := truncated],
        pieceLinks := old(store.pieceLinks)[downstream := old(store.pieceLinks)[downstream] - {oldPiece} + {newPiece}])
    {
      store.SetFeature(template, truncated);
      SwapPieceForSplit(downstream, newPiece, oldPiece);
    }

    /** swap_piece: de_link the feature from `oldPiece` and link it to `newPiece`. */
    method SwapPieceForSplit(f: FeatureId, newPiece: PieceId, oldPiece: PieceId)
      requires LinkedTo(store.Model(), f, oldPiece)
      modifies store
      ensures store.Model() == old(store.Model()).(pieceLinks :=
                old(store.pieceLinks)[f := old(store.pieceLinks)[f] - {oldPiece} + {newPiece}])
    {
      var _ := store.SwapPiece(PieceSwap(f, oldPiece, newPiece));
    }
  
    /** The contained branch: one coordinate swap to the slice per feature of the group. */
    method QueueCoordSwaps(aligned: seq<FeatureId>, sliceId: CoordId)
      modifies queue
      ensures queue.coordSwaps == old(queue.coordSwaps) + CoordSwapsTo(aligned, sliceId)
      ensures queue.pieceSwaps == old(queue.pieceSwaps)
    {
      var j := 0;
      while j < |aligned|
        invariant 0 <= j <= |aligned|
        invariant queue.coordSwaps == old(queue.coordSwaps) + CoordSwapsTo(aligned[..j], sliceId)
        invariant queue.pieceSwaps == old(queue.pieceSwaps)
      {
        assert CoordSwapsTo(aligned[..j + 1], sliceId) == CoordSwapsTo(aligned[..j], sliceId) + [CoordSwap(aligned[j], sliceId)];
        queue.coordSwaps := queue.coordSwaps + [CoordSwap(aligned[j], sliceId)];
        j := j + 1;
      }
      assert aligned[..j] == aligned;
    }

    /** The downstream branch on the border piece: one swap per feature, to the downstream piece. */
    method QueuePieceSwaps(aligned: seq<FeatureId>, border: PieceId)
      requires Valid(store.Model()) && downstreamPiece.Some? && downstreamPiece.value in store.pieces
      modifies this, store, queue
      ensures store.Model() == old(store.Model()) && downstreamPiece == old(downstreamPiece)
      ensures queue.pieceSwaps == old(queue.pieceSwaps) + PieceSwapsTo(aligned, border, downstreamPiece.value)
      ensures queue.coordSwaps == old(queue.coordSwaps)
    {
      var j := 0;
      while j < |aligned|
        invariant 0 <= j <= |aligned|
        invariant store.Model() == old(store.Model()) && downstreamPiece == old(downstreamPiece)
        invariant queue.pieceSwaps == old(queue.pieceSwaps) + PieceSwapsTo(aligned[..j], border, downstreamPiece.value)
        invariant queue.coordSwaps == old(queue.coordSwaps)
      {
        var np := DownstreamPiece();
        assert PieceSwapsTo(aligned[..j + 1], border, np)
            == PieceSwapsTo(aligned[..j], border, np) + [PieceSwap(aligned[j], border, np)];
        queue.pieceSwaps := queue.pieceSwaps + [PieceSwap(aligned[j], border, np)];
        j := j + 1;
      }
      assert aligned[..j] == aligned;
    }

    /** Split every feature of the group at the border, in order, stopping at the first failed split. */
    method SplitGroup(trees: IntervalTrees, slice: Coordinate, oldCoords: CoordId, isPlusStrand: bool,
                      aligned: seq<FeatureId>, newPiece: PieceId, oldPiece: PieceId) returns (ok: bool)
      requires Valid(store.Model()) && TreesValid(trees.trees, store.Model()) && oldCoords in store.coordinates
      requires forall j | 0 <= j < |aligned| :: aligned[j] in store.features
      modifies store, trees
      ensures var r := SplitAll(old(store.Model()), old(trees.trees), slice, oldCoords, isPlusStrand, aligned,
                                newPiece, oldPiece);
        ok == r.Some? && (ok ==> (store.Model(), trees.trees) == r.value)
    {
      ghost var db := store.Model();
      ghost var trees0 := trees.trees;
      var j := 0;
      while j < |aligned|
        invariant 0 <= j <= |aligned|
        invariant SplitAll(db, trees0, slice, oldCoords, isPlusStrand, aligned[..j], newPiece, oldPiece)
                  == Some((store.Model(), trees.trees))
      {
        SplitAllSnoc(db, trees0, slice, oldCoords, isPlusStrand, aligned, j, newPiece, oldPiece);
        ok := SetStatusDownstreamBorder(trees, slice, oldCoords, isPlusStrand, aligned[j], newPiece, oldPiece);
        if !ok {
          return;
        }
        j := j + 1;
      }
      assert aligned[..j] == aligned;
      ok := true;
    }

    /** Take the downstream piece and flush the shared queue, as the border branch does first. */
    method PrepareSplit() returns (np: PieceId)
      requires Valid(store.Model()) && (downstreamPiece.Some? ==> downstreamPiece.value in store.pieces)
      modifies this, store, queue
      ensures var (db1, p) := TrimSpec.DownstreamPiece(old(store.Model()), old(downstreamPiece), transcribed);
        && np == p && downstreamPiece == Some(np)
        && store.Model() == AnnotationDb.ExecuteSoFar(db1, old(queue.pieceSwaps), old(queue.coordSwaps))
      ensures queue.pieceSwaps == [] && queue.coordSwaps == []
    {
      np := DownstreamPiece();
      queue.ExecuteSoFar(store);
    }

    /**
     * The overlaps-downstream branch: take the downstream piece, flush the queue, and split
     * every feature of the group at the border; `ok` is false when a split's assertion fails.
     */
    method SplitAtBorder(trees: IntervalTrees, sliceId: CoordId, isPlusStrand: bool, step: Step,
                         ghost seen: bool, ghost border: Option<PieceId>) returns (ok: bool)
      requires Inv(StateOf(trees, seen, border, false), transcribed, sliceId) && StepReady(store.Model(), step)
      modifies this, store, queue, trees
      ensures var r := TrimSpec.SplitAtBorder(old(StateOf(trees, seen, border, false)), transcribed, sliceId,
                                              isPlusStrand, step);
        && ok == !r.failed
        && (ok ==> StateOf(trees, true, Some(step.piece), false) == r)
    {
      ghost var st := StateOf(trees, seen, border, false);
      ghost var db1 := TrimSpec.DownstreamPiece(st.db, st.downstreamPiece, transcribed).0;
      ExecuteSoFarValid(db1, st.pieceSwaps, st.coordSwaps);
      var np := PrepareSplit();
      var oldCoords := store.features[step.aligned[0]].coordinate;
      var slice := store.coordinates[sliceId];
      ok := SplitGroup(trees, slice, oldCoords, isPlusStrand, step.aligned, np, step.piece);
    }

    /**
     * One iteration of modify4new_slice: classify the group by its first feature and act on
     * the answer; `ok` is false when the border split's assertion failed.
     */
    method TrimOneStep(trees: IntervalTrees, sliceId: CoordId, isPlusStrand: bool, step: Step,
                       seen: bool, border: Option<PieceId>) returns (seen': bool, border': Option<PieceId>, ok: bool)
      requires Inv(StateOf(trees, seen, border, false), transcribed, sliceId) && StepReady(store.Model(), step)
      modifies this, store, queue, trees
      ensures var r := TrimStep(old(StateOf(trees, seen, border, false)), transcribed, sliceId, isPlusStrand, step);
        && ok == !r.failed
        && (ok ==> StateOf(trees, seen', border', false) == r)
    {
      seen', border', ok := seen, border, true;
      var v := Interp(store.Model(), step.aligned[0], store.coordinates[sliceId], isPlusStrand);
      if v.IsDetached() {
      } else if v.IsUpstream() {
      } else if v.OverlapsUpstream() {
      } else if v.IsContained() {
        seen' := true;
        QueueCoordSwaps(step.aligned, sliceId);
      } else if v.OverlapsDownstream() {
        ok := SplitAtBorder(trees, sliceId, isPlusStrand, step, seen, border);
        seen', border' := true, Some(step.piece);
      } else if v.IsDownstream() {
        if border.Some? && border.value == step.piece {
          QueuePieceSwaps(step.aligned, border.value);
        }
      } else {
        assert false;
      }
    }

    /**
     * modify4new_slice: walk the transcript's groups 5' to 3', classify each group by its
     * first feature and act on the answer; the result is NoFeaturesInSlice when no group
     * was contained or straddled the border, and BorderAssertionFailed when a split's
     * assertion failed (the run aborts, so the state is then left unspecified).
     */
    method ModifyForNewSlice(trees: IntervalTrees, sliceId: CoordId, isPlusStrand: bool, steps: seq<Step>)
      returns (outcome: Outcome)
      requires Inv(StateOf(trees, false, None, false), transcribed, sliceId) && StepsReady(store.Model(), steps)
      modifies this, store, queue, trees
      ensures var r := Walk(old(StateOf(trees, false, None, false)), transcribed, sliceId, isPlusStrand, steps);
        && outcome == Finish(r)
        && (outcome != BorderAssertionFailed ==> StateOf(trees, r.seen, r.border, false) == r)
    {
      ghost var st0 := StateOf(trees, false, None, false);
      var seen := false;
      var pieceAtBorder: Option<PieceId> := None;
      var i := 0;
      while i < |steps|
        invariant 0 <= i <= |steps|
        invariant StateOf(trees, seen, pieceAtBorder, false) == Walk(st0, transcribed, sliceId, isPlusStrand, steps[..i])
      {
        WalkSnoc(st0, transcribed, sliceId, isPlusStrand, steps, i);
        var ok;
        seen, pieceAtBorder, ok := TrimOneStep(trees, sliceId, isPlusStrand, steps[i], seen, pieceAtBorder);
        if !ok {
          AbortedPrefixAbortsWalk(st0, transcribed, sliceId, isPlusStrand, steps, i + 1);
          return BorderAssertionFailed;
        }
        i := i + 1;
      }
      assert steps[..i] == steps;
      outcome := if seen then Trimmed else NoFeaturesInSlice;
    }
  }

  /**
   * SliceController: the store, the shared queue and the interval trees of one slicing
   * run, and the two strand passes over the slices.
   */
  class SliceController {
    const store: Store
    const queue: CoreQueue
    const intervalTrees: IntervalTrees

    constructor (db: Db)
      ensures store.Model() == db && queue.pieceSwaps == [] && queue.coordSwaps == [] && intervalTrees.trees == map[]
      ensures fresh(store) && fresh(queue) && fresh(intervalTrees)
    {
      store := new Store(db);
      queue := new CoreQueue();
      intervalTrees := new IntervalTrees();
    }

    /** The pass state the shared objects make up. */
    function PassOf(): PassState
      reads this, store, queue, intervalTrees
    {
      PassState(store.Model(), intervalTrees.trees, queue.pieceSwaps, queue.coordSwaps)
    }

    /** Between slices: a consistent store, trees over its features, and nothing queued. */
    predicate Settled()
      reads this, store, queue, intervalTrees
    {
      SlicePass.Settled(PassOf())
    }

    /**
     * fill_intervaltrees: load every feature of the loaded super-loci into the trees; `fs`
     * lists them super-locus by super-locus, in the order the session returns them.
     */
    method FillIntervalTrees(fs: seq<FeatureId>)
      requires Valid(store.Model()) && AllFeatures(store.Model(), fs)
      modifies intervalTrees
      ensures intervalTrees.trees == LoadAll(old(intervalTrees.trees), store.Model(), fs)
    {
      var i := 0;
      while i < |fs|
        invariant 0 <= i <= |fs|
        invariant intervalTrees.trees == LoadAll(old(intervalTrees.trees), store.Model(), fs[..i])
      {
        assert fs[..i + 1][..i] == fs[..i];
        var f := fs[i];
        intervalTrees.Load(store.coordinates[store.features[f].coordinate].seqid, store.features[f].start, f);
        i := i + 1;
      }
      assert fs[..i] == fs;
    }

    /** get_super_loci_frm_features: the super-loci the found features belong to. */
    method GetSuperLociFromFeatures(fs: set<FeatureId>) returns (sls: set<SuperLocusId>)
      requires fs <= store.features.Keys
      ensures sls == SuperLociOf(store.Model(), fs)
    {
      sls := {};
      var todo := fs;
      while todo != {}
        invariant todo <= fs
        invariant sls == SuperLociOf(store.Model(), fs - todo)
        decreases todo
      {
        var f :| f in todo;
        assert fs - (todo - {f}) == (fs - todo) + {f};
        sls := sls + {store.features[f].superLocus};
        todo := todo - {f};
      }
      assert fs - todo == fs;
    }

    /**
     * One transcript of modify4slice: a fresh trimmer walks it; a failed border split is
     * an error, and so is a NoFeaturesInSliceError whose double check, with the closed
     * windows the code writes, finds a same-strand feature of the transcript in them.
     */
    method TrimTranscript(t: TranscribedId, sliceId: CoordId, isPlusStrand: bool,
                          transitions: (Db, TranscribedId) -> seq<Step>) returns (error: Option<SliceError>)
      requires PassInv(PassOf(), sliceId) && TransitionsReady(transitions)
      modifies store, queue, intervalTrees
      ensures var r := SlicePass.TrimTranscript(old(PassOf()), t, sliceId, isPlusStrand, transitions);
        && (error.None? <==> r.Success?)
        && (r.Success? ==> PassOf() == r.value)
        && (r.Failure? ==> error == Some(r.error))
    {
      var trimmer := new TranscriptTrimmer(t, store, queue);
      var outcome := trimmer.ModifyForNewSlice(intervalTrees, sliceId, isPlusStrand, transitions(store.Model(), t));
      if outcome == BorderAssertionFailed {
        error := Some(BorderSplitFailed(t));
      } else if outcome == NoFeaturesInSlice && !NoOverlapConfirmedAsWritten(store.Model(), t, store.coordinates[sliceId], isPlusStrand) {
        error := Some(OverlapMissed(t));
      } else {
        error := None;
      }
    }

    /** modify4slice: the transcripts of one super-locus in the order `ts`, up to the first error. */
    method Modify4Slice(ts: seq<TranscribedId>, sliceId: CoordId, isPlusStrand: bool,
                        transitions: (Db, TranscribedId) -> seq<Step>) returns (error: Option<SliceError>)
      requires PassInv(PassOf(), sliceId) && TransitionsReady(transitions)
      modifies store, queue, intervalTrees
      ensures var r := SlicePass.Modify4Slice(old(PassOf()), ts, sliceId, isPlusStrand, transitions);
        && (error.None? <==> r.Success?)
        && (r.Success? ==> PassOf() == r.value)
        && (r.Failure? ==> error == Some(r.error))
    {
      ghost var s0 := PassOf();
      var i := 0;
      while i < |ts|
        invariant 0 <= i <= |ts|
        invariant SlicePass.Modify4Slice(s0, ts[..i], sliceId, isPlusStrand, transitions) == Success(PassOf())
      {
        Modify4SliceSnoc(s0, ts, i, sliceId, isPlusStrand, transitions);
        error := TrimTranscript(ts[i], sliceId, isPlusStrand, transitions);
        if error.Some? {
          Modify4SliceStopsAtError(s0, ts, i + 1, sliceId, isPlusStrand, transitions);
          return;
        }
        i := i + 1;
      }
      assert ts[..i] == ts;
      error := None;
    }

    /**
     * The loop over the super-loci overlapping a slice, in the order `sls` in which the set
     * is iterated: modify4slice on each one's transcripts, up to the first error.
     */
    method TrimSuperLoci(sls: seq<SuperLocusId>, sliceId: CoordId, isPlusStrand: bool,
                         transitions: (Db, TranscribedId) -> seq<Step>,
                         transcriptsOf: SuperLocusId -> seq<TranscribedId>) returns (error: Option<SliceError>)
      requires PassInv(PassOf(), sliceId) && TransitionsReady(transitions)
      modifies store, queue, intervalTrees
      ensures var r := SlicePass.TrimSuperLoci(old(PassOf()), sls, sliceId, isPlusStrand, transitions, transcriptsOf);
        && (error.None? <==> r.Success?)
        && (r.Success? ==> PassOf() == r.value)
        && (r.Failure? ==> error == Some(r.error))
    {
      ghost var s0 := PassOf();
      var i := 0;
      while i < |sls|
        invariant 0 <= i <= |sls|
        invariant SlicePass.TrimSuperLoci(s0, sls[..i], sliceId, isPlusStrand, transitions, transcriptsOf)
               == Success(PassOf())
      {
        assert sls[..i + 1][..i] == sls[..i];
        error := Modify4Slice(transcriptsOf(sls[i]), sliceId, isPlusStrand, transitions);
        if error.Some? {
          TrimSuperLociStopsAtError(s0, sls, i + 1, sliceId, isPlusStrand, transitions, transcriptsOf);
          return;
        }
        i := i + 1;
      }
      assert sls[..i] == sls;
      error := None;
    }

    /**
     * One slice of _slice_annotations_1way: add its coordinate row, find the overlapping
     * super-loci through the trees, trim them in the order `order` iterates that set, and
     * execute the queue.
     */
    method SliceOne(c: Coordinate, isPlusStrand: bool, transitions: (Db, TranscribedId) -> seq<Step>,
                    transcriptsOf: SuperLocusId -> seq<TranscribedId>,
                    order: set<SuperLocusId> -> seq<SuperLocusId>) returns (error: Option<SliceError>)
      requires Settled() && TransitionsReady(transitions)
      modifies store, queue, intervalTrees
      ensures var r := SlicePass.SliceOne(old(PassOf()), c, isPlusStrand, transitions, transcriptsOf, order);
        && (error.None? <==> r.Success?)
        && (r.Success? ==> PassOf() == r.value)
        && (r.Failure? ==> error == Some(r.error))
    {
      var sliceId := store.AddCoordinate(c);
      var found := GetFeaturesFromSlice(intervalTrees.trees, store.Model(), c.seqid, c.start, c.end, isPlusStrand);
      if found.Failure? {
        return Some(NoIntervalTreesFilled);
      }
      var sls := GetSuperLociFromFeatures(found.value);
      error := TrimSuperLoci(order(sls), sliceId, isPlusStrand, transitions, transcriptsOf);
      if error.Some? {
        return;
      }
      queue.ExecuteSoFar(store);
    }

    /** _slice_annotations_1way: the slices in the order given, each on the pass's strand, up to the first error. */
    method SliceOneWay(slices: seq<Coordinate>, isPlusStrand: bool, transitions: (Db, TranscribedId) -> seq<Step>,
                       transcriptsOf: SuperLocusId -> seq<TranscribedId>,
                       order: set<SuperLocusId> -> seq<SuperLocusId>) returns (error: Option<SliceError>)
      requires Settled() && TransitionsReady(transitions)
      modifies store, queue, intervalTrees
      ensures var r := SlicePass.SliceOneWay(old(PassOf()), slices, isPlusStrand, transitions, transcriptsOf, order);
        && (error.None? <==> r.Success?)
        && (r.Success? ==> PassOf() == r.value)
        && (r.Failure? ==> error == Some(r.error))
    {
      ghost var s0 := PassOf();
      var k := 0;
      while k < |slices|
        invariant 0 <= k <= |slices|
        invariant SlicePass.SliceOneWay(s0, slices[..k], isPlusStrand, transitions, transcriptsOf, order)
               == Success(PassOf())
      {
        assert slices[..k + 1][..k] == slices[..k];
        error := SliceOne(slices[k], isPlusStrand, transitions, transcriptsOf, order);
        if error.Some? {
          SliceOneWayStopsAtError(s0, slices, k + 1, isPlusStrand, transitions, transcriptsOf, order);
          return;
        }
        k := k + 1;
      }
      assert slices[..k] == slices;
      error := None;
    }

    /**
     * slice_annotations: the plus-strand pass over the slices in order, then the
     * minus-strand pass over them in reverse order.
     */
    method SliceAnnotations(slices: seq<Coordinate>, transitions: (Db, TranscribedId) -> seq<Step>,
                            transcriptsOf: SuperLocusId -> seq<TranscribedId>,
                            order: set<SuperLocusId> -> seq<SuperLocusId>) returns (error: Option<SliceError>)
      requires Settled() && TransitionsReady(transitions)
      modifies store, queue, intervalTrees
      ensures var r := SlicePass.SliceAnnotations(old(PassOf()), slices, transitions, transcriptsOf, order);
        && (error.None? <==> r.Success?)
        && (r.Success? ==> PassOf() == r.value)
        && (r.Failure? ==> error == Some(r.error))
    {
      error := SliceOneWay(slices, true, transitions, transcriptsOf, order);
      if error.Some? {
        return;
      }
      error := SliceOneWay(Reversed(slices), false, transitions, transcriptsOf, order);
    }
  }
}
