/**
 * TranscriptTrimmer.modify4new_slice as a pure walk: the transcript's features are
 * visited 5' to 3' in groups of aligned features, each group is classified against the
 * new slice by its first feature, and the walk queues coordinate swaps (contained groups),
 * splits features at the downstream border (the group straddling it) and queues piece
 * swaps (later groups on the piece at the border).
 */
module TrimSpec {
  import opened Wrappers
  import opened SliceGeometry
  import opened AnnotationDb

  /**
   * One element of the 5'-to-3' transition walk: features at the same position (the
   * first one stands for all of them) and the piece the first feature belongs to.
   */
  datatype Step = Step(aligned: seq<FeatureId>, piece: PieceId)

  /**
   * The state a trimmer walk threads: the store, the interval trees, the shared queue's
   * pending swaps, the trimmer's lazily created downstream piece, whether some group
   * overlapped the slice, the piece found at the border, and whether the border split's
   * assertion failed (which aborts the run).
   */
  datatype TrimState = TrimState(
    db: Db,
    trees: Trees,
    pieceSwaps: seq<PieceSwap>,
    coordSwaps: seq<CoordSwap>,
    downstreamPiece: Option<PieceId>,
    seen: bool,
    border: Option<PieceId>,
    failed: bool)

  /** How modify4new_slice ends: normally, with NoFeaturesInSliceError, or with an AssertionError. */
  datatype Outcome = Trimmed | NoFeaturesInSlice | BorderAssertionFailed

  predicate StepReady(db: Db, step: Step) {
    |step.aligned| > 0 && forall j | 0 <= j < |step.aligned| :: step.aligned[j] in db.features
  }

  predicate StepsReady(db: Db, steps: seq<Step>) {
    forall k | 0 <= k < |steps| :: StepReady(db, steps[k])
  }

  /** What every state of a walk for transcript `t` and slice coordinate `sliceId` satisfies. */
  predicate Inv(st: TrimState, t: TranscribedId, sliceId: CoordId) {
    && Valid(st.db)
    && TreesValid(st.trees, st.db)
    && sliceId in st.db.coordinates
    && CoordSwapsValid(st.db, st.coordSwaps)
    && (st.border.Some? ==> st.downstreamPiece.Some?)
    && (st.downstreamPiece.Some? ==>
          st.downstreamPiece.value in st.db.pieces && st.db.pieces[st.downstreamPiece.value] == t)
  }

  /** The state of a fresh trimmer over the store, the trees and the queue as they are. */
  function Start(db: Db, trees: Trees, ps: seq<PieceSwap>, cs: seq<CoordSwap>): TrimState {
    TrimState(db, trees, ps, cs, None, false, None, false)
  }

  /** The classifier's answer for a group: that of its first feature. */
  function StepPosition(db: Db, step: Step, slice: Coordinate, isPlusStrand: bool): Position
    requires Valid(db) && StepReady(db, step)
  {
    Classify(Interp(db, step.aligned[0], slice, isPlusStrand))
  }

  /** One coordinate swap to `sliceId` per feature of the group. */
  function CoordSwapsTo(aligned: seq<FeatureId>, sliceId: CoordId): (r: seq<CoordSwap>)
    ensures |r| == |aligned|
    ensures forall j | 0 <= j < |r| :: r[j] == CoordSwap(aligned[j], sliceId)
  {
    seq(|aligned|, j requires 0 <= j < |aligned| => CoordSwap(aligned[j], sliceId))
  }

  /** One piece swap from `oldPiece` to `newPiece` per feature of the group. */
  function PieceSwapsTo(aligned: seq<FeatureId>, oldPiece: PieceId, newPiece: PieceId): (r: seq<PieceSwap>)
    ensures |r| == |aligned|
    ensures forall j | 0 <= j < |r| :: r[j] == PieceSwap(aligned[j], oldPiece, newPiece)
  {
    seq(|aligned|, j requires 0 <= j < |aligned| => PieceSwap(aligned[j], oldPiece, newPiece))
  }

  /** The downstream_piece property: the trimmer's piece, created for `t` on first use. */
  function DownstreamPiece(db: Db, current: Option<PieceId>, t: TranscribedId): (r: (Db, PieceId))
    requires Valid(db) && (current.Some? ==> current.value in db.pieces)
    ensures Valid(r.0) && r.1 in r.0.pieces
    ensures current.Some? ==> r == (db, current.value)
    ensures current.None? ==> r == MkNewPiece(db, t)
  {
    if current.Some? then (db, current.value) else MkNewPiece(db, t)
  }

  /** What a sequence of border splits keeps: validity, old rows, old links. */
  predicate SplitKeeps(db: Db, db': Db, trees': Trees) {
    && Valid(db') && TreesValid(trees', db')
    && db.features.Keys <= db'.features.Keys
    && db'.coordinates == db.coordinates && db'.pieces == db.pieces && db'.transcribeds == db.transcribeds
    && db'.nextPiece == db.nextPiece && db'.nextCoordinate == db.nextCoordinate
    && (forall f | f in db.pieceLinks :: f in db'.pieceLinks && db'.pieceLinks[f] == db.pieceLinks[f])
    && (forall f | f in db.features && f in db'.pieceLinks :: f in db.pieceLinks)
  }

  /** One border split keeps what SplitKeeps names. */
  lemma BorderSplitKeeps(db: Db, trees: Trees, slice: Coordinate, oldCoords: CoordId, isPlusStrand: bool,
                         template: FeatureId, newPiece: PieceId, oldPiece: PieceId)
    requires Valid(db) && TreesValid(trees, db) && template in db.features && oldCoords in db.coordinates
    requires SetStatusDownstreamBorder(db, trees, slice, oldCoords, isPlusStrand, template, newPiece, oldPiece).Some?
    ensures var r := SetStatusDownstreamBorder(db, trees, slice, oldCoords, isPlusStrand, template, newPiece, oldPiece).value;
      SplitKeeps(db, r.0, r.1)
  {
    BorderSplitKeepsTrees(db, trees, slice, oldCoords, isPlusStrand, template, newPiece, oldPiece);
    BorderSplitEffect(db, trees, slice, oldCoords, isPlusStrand, template, newPiece, oldPiece);
  }

  lemma SplitKeepsTransitive(db: Db, db1: Db, trees1: Trees, db2: Db, trees2: Trees)
    requires SplitKeeps(db, db1, trees1) && SplitKeeps(db1, db2, trees2)
    ensures SplitKeeps(db, db2, trees2)
  {
  }

  /** Every feature of the group is linked to `p`. */
  predicate AllLinkedTo(db: Db, templates: seq<FeatureId>, p: PieceId) {
    forall j | 0 <= j < |templates| :: LinkedTo(db, templates[j], p)
  }

  lemma AllLinkedToSnoc(db: Db, templates: seq<FeatureId>, p: PieceId)
    requires templates != []
    ensures AllLinkedTo(db, templates, p)
        <==> AllLinkedTo(db, templates[..|templates| - 1], p) && LinkedTo(db, templates[|templates| - 1], p)
  {
    var init := templates[..|templates| - 1];
    if AllLinkedTo(db, init, p) && LinkedTo(db, templates[|templates| - 1], p) {
      forall j | 0 <= j < |templates| ensures LinkedTo(db, templates[j], p) {
        if j < |init| { assert templates[j] == init[j]; }
      }
    }
  }

  /**
   * set_status_downstream_border for every feature of the group, in order; it fails
   * exactly when some feature of the group is not linked to the piece at the border.
   */
  function SplitAll(db: Db, trees: Trees, slice: Coordinate, oldCoords: CoordId, isPlusStrand: bool,
                    templates: seq<FeatureId>, newPiece: PieceId, oldPiece: PieceId): (r: Option<(Db, Trees)>)
    requires Valid(db) && TreesValid(trees, db) && oldCoords in db.coordinates
    requires forall j | 0 <= j < |templates| :: templates[j] in db.features
    ensures r.None? <==> !AllLinkedTo(db, templates, oldPiece)
    ensures r.Some? ==> SplitKeeps(db, r.value.0, r.value.1)
    decreases |templates|
  {
    if templates == [] then Some((db, trees))
    else
      var init := templates[..|templates| - 1];
      var last := templates[|templates| - 1];
      var prev := SplitAll(db, trees, slice, oldCoords, isPlusStrand, init, newPiece, oldPiece);
      AllLinkedToSnoc(db, templates, oldPiece);
      if prev.None? then None
      else
        var (db1, trees1) := prev.value;
        assert LinkedTo(db1, last, oldPiece) == LinkedTo(db, last, oldPiece);
        var r := SetStatusDownstreamBorder(db1, trees1, slice, oldCoords, isPlusStrand, last, newPiece, oldPiece);
        if r.Some? then
          BorderSplitKeeps(db1, trees1, slice, oldCoords, isPlusStrand, last, newPiece, oldPiece);
          SplitKeepsTransitive(db, db1, trees1, r.value.0, r.value.1);
          r
        else r
  }

  /**
   * The group straddling the downstream border: the piece at the border is the group's,
   * the downstream piece is made on first use, the queue is flushed, and every feature of
   * the group is split at the border, the remainders keeping the first feature's coordinate.
   */
  function SplitAtBorder(st: TrimState, t: TranscribedId, sliceId: CoordId, isPlusStrand: bool, step: Step)
    : (r: TrimState)
    requires Inv(st, t, sliceId) && StepReady(st.db, step)
    ensures Inv(r, t, sliceId)
    ensures st.db.features.Keys <= r.db.features.Keys && r.db.coordinates == st.db.coordinates
      && r.db.nextCoordinate == st.db.nextCoordinate
    ensures var (db1, np) := DownstreamPiece(st.db, st.downstreamPiece, t);
      if r.failed then r == st.(failed := true)
      else && r.seen && r.border == Some(step.piece) && r.downstreamPiece == Some(np)
           && r.pieceSwaps == [] && r.coordSwaps == [] && r.db.pieces == db1.pieces
  {
    var (db1, np) := DownstreamPiece(st.db, st.downstreamPiece, t);
    ExecuteSoFarValid(db1, st.pieceSwaps, st.coordSwaps);
    var db2 := ExecuteSoFar(db1, st.pieceSwaps, st.coordSwaps);
    var oldCoords := db2.features[step.aligned[0]].coordinate;
    var split := SplitAll(db2, st.trees, st.db.coordinates[sliceId], oldCoords, isPlusStrand, step.aligned, np, step.piece);
    if split.None? then st.(failed := true)
    else TrimState(split.value.0, split.value.1, [], [], Some(np), true, Some(step.piece), false)
  }

  /**
   * How one step may change the pieces: not at all, or by the downstream piece made on
   * first use, which takes the next piece id and belongs to `t`.
   */
  predicate PiecesStep(st: TrimState, r: TrimState, t: TranscribedId) {
    || (r.db.pieces == st.db.pieces && r.downstreamPiece == st.downstreamPiece)
    || (&& st.downstreamPiece.None? && r.downstreamPiece == Some(st.db.nextPiece)
        && r.db.pieces == st.db.pieces[st.db.nextPiece := t])
  }

  /** One iteration of the walk's if-chain. */
  function TrimStep(st: TrimState, t: TranscribedId, sliceId: CoordId, isPlusStrand: bool, step: Step): (r: TrimState)
    requires Inv(st, t, sliceId) && StepReady(st.db, step)
    ensures Inv(r, t, sliceId)
    ensures st.db.features.Keys <= r.db.features.Keys && r.db.coordinates == st.db.coordinates
      && r.db.nextCoordinate == st.db.nextCoordinate
    ensures PiecesStep(st, r, t)
  {
    if st.failed then st
    else
      match StepPosition(st.db, step, st.db.coordinates[sliceId], isPlusStrand)
      case Detached => st
      case Upstream => st
      case OverlapsUpstream => st
      case Contained =>
        st.(seen := true, coordSwaps := st.coordSwaps + CoordSwapsTo(step.aligned, sliceId))
      case OverlapsDownstream => SplitAtBorder(st, t, sliceId, isPlusStrand, step)
      case Downstream =>
        if st.border == Some(step.piece) then
          var (db1, np) := DownstreamPiece(st.db, st.downstreamPiece, t);
          st.(db := db1, downstreamPiece := Some(np),
              pieceSwaps := st.pieceSwaps + PieceSwapsTo(step.aligned, step.piece, np))
        else st
  }

  /** The walk over the first |steps| groups. */
  function Walk(st: TrimState, t: TranscribedId, sliceId: CoordId, isPlusStrand: bool, steps: seq<Step>): (r: TrimState)
    requires Inv(st, t, sliceId) && StepsReady(st.db, steps)
    ensures Inv(r, t, sliceId)
    ensures st.db.features.Keys <= r.db.features.Keys && r.db.coordinates == st.db.coordinates
      && r.db.nextCoordinate == st.db.nextCoordinate
    decreases |steps|
  {
    if steps == [] then st
    else
      var prev := Walk(st, t, sliceId, isPlusStrand, steps[..|steps| - 1]);
      TrimStep(prev, t, sliceId, isPlusStrand, steps[|steps| - 1])
  }

  /** The end of modify4new_slice: the final state and how the call ends. */
  function Finish(st: TrimState): Outcome {
    if st.failed then BorderAssertionFailed
    else if !st.seen then NoFeaturesInSlice
    else Trimmed
  }

  /** modify4new_slice for transcript `t`, starting from the store, trees and queue as given. */
  function ModifyForNewSlice(db: Db, trees: Trees, ps: seq<PieceSwap>, cs: seq<CoordSwap>, t: TranscribedId,
                             sliceId: CoordId, isPlusStrand: bool, steps: seq<Step>): (r: (TrimState, Outcome))
    requires Inv(Start(db, trees, ps, cs), t, sliceId) && StepsReady(db, steps)
    ensures Inv(r.0, t, sliceId) && db.features.Keys <= r.0.db.features.Keys && r.0.db.coordinates == db.coordinates
      && r.0.db.nextCoordinate == db.nextCoordinate
    ensures r.1 == Finish(r.0)
  {
    var st := Walk(Start(db, trees, ps, cs), t, sliceId, isPlusStrand, steps);
    (st, Finish(st))
  }

  // ---------------------------------------------------------------------------------
  // Properties of the walk
  // ---------------------------------------------------------------------------------

  /** An aborted walk stays aborted and changes nothing more. */
  lemma {:induction false} FailureIsFinal(st: TrimState, t: TranscribedId, sliceId: CoordId, isPlusStrand: bool,
                                          steps: seq<Step>)
    requires Inv(st, t, sliceId) && StepsReady(st.db, steps) && st.failed
    ensures Walk(st, t, sliceId, isPlusStrand, steps) == st
    decreases |steps|
  {
    if steps != [] {
      FailureIsFinal(st, t, sliceId, isPlusStrand, steps[..|steps| - 1]);
    }
  }

  /** The walk over the first i + 1 groups is one step after the walk over the first i. */
  lemma WalkSnoc(st: TrimState, t: TranscribedId, sliceId: CoordId, isPlusStrand: bool, steps: seq<Step>, i: nat)
    requires Inv(st, t, sliceId) && StepsReady(st.db, steps) && i < |steps|
    ensures StepsReady(st.db, steps[..i]) && StepReady(Walk(st, t, sliceId, isPlusStrand, steps[..i]).db, steps[i])
    ensures Walk(st, t, sliceId, isPlusStrand, steps[..i + 1])
         == TrimStep(Walk(st, t, sliceId, isPlusStrand, steps[..i]), t, sliceId, isPlusStrand, steps[i])
  {
    assert steps[..i + 1][..i] == steps[..i];
  }

  /**
   * Splitting the first j + 1 features of a group is splitting the first j and then the
   * next one, and once a prefix of the group fails the whole group fails.
   */
  lemma SplitAllSnoc(db: Db, trees: Trees, slice: Coordinate, oldCoords: CoordId, isPlusStrand: bool,
                     templates: seq<FeatureId>, j: nat, newPiece: PieceId, oldPiece: PieceId)
    requires Valid(db) && TreesValid(trees, db) && oldCoords in db.coordinates
    requires forall k | 0 <= k < |templates| :: templates[k] in db.features
    requires j < |templates|
    ensures var prev := SplitAll(db, trees, slice, oldCoords, isPlusStrand, templates[..j], newPiece, oldPiece);
      prev.Some? ==>
        && Valid(prev.value.0) && TreesValid(prev.value.1, prev.value.0)
        && templates[j] in prev.value.0.features && oldCoords in prev.value.0.coordinates
        && SplitAll(db, trees, slice, oldCoords, isPlusStrand, templates[..j + 1], newPiece, oldPiece)
           == SetStatusDownstreamBorder(prev.value.0, prev.value.1, slice, oldCoords, isPlusStrand, templates[j],
                                        newPiece, oldPiece)
    ensures SplitAll(db, trees, slice, oldCoords, isPlusStrand, templates[..j + 1], newPiece, oldPiece).None? ==>
            SplitAll(db, trees, slice, oldCoords, isPlusStrand, templates, newPiece, oldPiece).None?
  {
    assert templates[..j + 1][..j] == templates[..j];
    if AllLinkedTo(db, templates, oldPiece) {
      AllLinkedToPrefix(db, templates, j + 1, oldPiece);
    }
  }

  /** A walk whose first `i` steps aborted has aborted as a whole. */
  lemma {:induction false} AbortedPrefixAbortsWalk(st: TrimState, t: TranscribedId, sliceId: CoordId,
                                                   isPlusStrand: bool, steps: seq<Step>, i: nat)
    requires Inv(st, t, sliceId) && StepsReady(st.db, steps) && i <= |steps|
    requires Walk(st, t, sliceId, isPlusStrand, steps[..i]).failed
    ensures Walk(st, t, sliceId, isPlusStrand, steps).failed
    decreases |steps|
  {
    if |steps| == i {
      assert steps[..i] == steps;
    } else {
      var init := steps[..|steps| - 1];
      assert init[..i] == steps[..i];
      AbortedPrefixAbortsWalk(st, t, sliceId, isPlusStrand, init, i);
      StepMonotone(Walk(st, t, sliceId, isPlusStrand, init), t, sliceId, isPlusStrand, steps[|steps| - 1]);
    }
  }

  /** A group with a feature off the border piece fails whatever comes after the failing feature. */
  lemma AllLinkedToPrefix(db: Db, templates: seq<FeatureId>, j: nat, p: PieceId)
    requires j <= |templates| && AllLinkedTo(db, templates, p)
    ensures AllLinkedTo(db, templates[..j], p)
  {
    assert forall k | 0 <= k < j :: templates[..j][k] == templates[k];
  }

  /** A step never clears the overlap flag or the abort flag. */
  lemma StepMonotone(st: TrimState, t: TranscribedId, sliceId: CoordId, isPlusStrand: bool, step: Step)
    requires Inv(st, t, sliceId) && StepReady(st.db, step)
    ensures st.seen ==> TrimStep(st, t, sliceId, isPlusStrand, step).seen
    ensures st.failed ==> TrimStep(st, t, sliceId, isPlusStrand, step).failed
  {
  }

  /**
   * From a state that has seen nothing, a step sees nothing and aborts nothing exactly
   * when its group is not contained in the slice and does not straddle its downstream
   * border, and then it leaves the state as it was.
   */
  lemma UnseenStep(st: TrimState, t: TranscribedId, sliceId: CoordId, isPlusStrand: bool, step: Step)
    requires Inv(st, t, sliceId) && StepReady(st.db, step)
    requires !st.seen && st.border.None? && !st.failed
    ensures var r := TrimStep(st, t, sliceId, isPlusStrand, step);
      (!r.seen && !r.failed) <==>
        StepPosition(st.db, step, st.db.coordinates[sliceId], isPlusStrand) !in {Contained, OverlapsDownstream}
    ensures var r := TrimStep(st, t, sliceId, isPlusStrand, step);
      !r.seen && !r.failed ==> r == st
  {
  }

  /**
   * A walk that sees no overlap at all changes nothing: store, trees and queue are as
   * before, and every group it visited was detached, upstream, overlapping upstream or
   * downstream of the slice (the NoFeaturesInSliceError case).
   */
  lemma {:induction false} UnseenWalkChangesNothing(st: TrimState, t: TranscribedId, sliceId: CoordId,
                                                    isPlusStrand: bool, steps: seq<Step>)
    requires Inv(st, t, sliceId) && StepsReady(st.db, steps)
    requires !st.seen && st.border.None? && !st.failed
    requires !Walk(st, t, sliceId, isPlusStrand, steps).seen && !Walk(st, t, sliceId, isPlusStrand, steps).failed
    ensures Walk(st, t, sliceId, isPlusStrand, steps) == st
    ensures forall k | 0 <= k < |steps| ::
      StepPosition(st.db, steps[k], st.db.coordinates[sliceId], isPlusStrand) !in {Contained, OverlapsDownstream}
    decreases |steps|
  {
    if steps != [] {
      var init := steps[..|steps| - 1];
      var prev := Walk(st, t, sliceId, isPlusStrand, init);
      StepMonotone(prev, t, sliceId, isPlusStrand, steps[|steps| - 1]);
      UnseenWalkChangesNothing(st, t, sliceId, isPlusStrand, init);
      UnseenStep(st, t, sliceId, isPlusStrand, steps[|steps| - 1]);
      forall k | 0 <= k < |steps| - 1
        ensures StepPosition(st.db, steps[k], st.db.coordinates[sliceId], isPlusStrand) !in {Contained, OverlapsDownstream}
      {
        assert steps[k] == init[k];
      }
    }
  }

  /**
   * A walk that started without a group seen reports one exactly when some group was
   * contained in the slice or straddled its downstream border (or it aborted).
   */
  lemma SeenMeansOverlap(st: TrimState, t: TranscribedId, sliceId: CoordId,
                         isPlusStrand: bool, steps: seq<Step>)
    requires Inv(st, t, sliceId) && StepsReady(st.db, steps)
    requires !st.seen && st.border.None? && !st.failed
    ensures var r := Walk(st, t, sliceId, isPlusStrand, steps);
      !r.seen && !r.failed <==>
        forall k | 0 <= k < |steps| ::
          StepPosition(st.db, steps[k], st.db.coordinates[sliceId], isPlusStrand) !in {Contained, OverlapsDownstream}
  {
    var r := Walk(st, t, sliceId, isPlusStrand, steps);
    if !r.seen && !r.failed {
      UnseenWalkChangesNothing(st, t, sliceId, isPlusStrand, steps);
    } else {
      SeenHasOverlap(st, t, sliceId, isPlusStrand, steps);
    }
  }

  /** Some group of `steps` lies inside the slice or across its downstream border. */
  predicate SomeOverlap(db: Db, steps: seq<Step>, slice: Coordinate, isPlusStrand: bool)
    requires Valid(db) && StepsReady(db, steps)
  {
    exists k :: 0 <= k < |steps| && StepPosition(db, steps[k], slice, isPlusStrand) in {Contained, OverlapsDownstream}
  }

  lemma SomeOverlapExtends(db: Db, steps: seq<Step>, slice: Coordinate, isPlusStrand: bool)
    requires Valid(db) && StepsReady(db, steps) && steps != []
    requires SomeOverlap(db, steps[..|steps| - 1], slice, isPlusStrand)
    ensures SomeOverlap(db, steps, slice, isPlusStrand)
  {
    var init := steps[..|steps| - 1];
    var k :| 0 <= k < |init| && StepPosition(db, init[k], slice, isPlusStrand) in {Contained, OverlapsDownstream};
    assert steps[k] == init[k];
  }

  /** A walk that sees the slice (or aborts) met a group inside it or across its downstream border. */
  lemma {:induction false} SeenHasOverlap(st: TrimState, t: TranscribedId, sliceId: CoordId,
                                          isPlusStrand: bool, steps: seq<Step>)
    requires Inv(st, t, sliceId) && StepsReady(st.db, steps)
    requires !st.seen && st.border.None? && !st.failed
    requires Walk(st, t, sliceId, isPlusStrand, steps).seen || Walk(st, t, sliceId, isPlusStrand, steps).failed
    ensures SomeOverlap(st.db, steps, st.db.coordinates[sliceId], isPlusStrand)
    decreases |steps|
  {
    var init := steps[..|steps| - 1];
    var prev := Walk(st, t, sliceId, isPlusStrand, init);
    if !prev.seen && !prev.failed {
      UnseenWalkChangesNothing(st, t, sliceId, isPlusStrand, init);
      UnseenStep(st, t, sliceId, isPlusStrand, steps[|steps| - 1]);
      assert StepPosition(st.db, steps[|steps| - 1], st.db.coordinates[sliceId], isPlusStrand)
             in {Contained, OverlapsDownstream};
    } else {
      SeenHasOverlap(st, t, sliceId, isPlusStrand, init);
      SomeOverlapExtends(st.db, steps, st.db.coordinates[sliceId], isPlusStrand);
    }
  }

  /** Every pending coordinate swap moves a feature onto the slice. */
  predicate CoordSwapsTarget(cs: seq<CoordSwap>, sliceId: CoordId) {
    forall k | 0 <= k < |cs| :: cs[k].newCoordinate == sliceId
  }

  lemma CoordSwapsTargetStep(st: TrimState, t: TranscribedId, sliceId: CoordId, isPlusStrand: bool, step: Step)
    requires Inv(st, t, sliceId) && StepReady(st.db, step) && CoordSwapsTarget(st.coordSwaps, sliceId)
    ensures CoordSwapsTarget(TrimStep(st, t, sliceId, isPlusStrand, step).coordSwaps, sliceId)
  {
  }

  /** The walk queues coordinate swaps only onto the slice's coordinate. */
  lemma {:induction false} QueuedCoordSwapsTargetSlice(st: TrimState, t: TranscribedId, sliceId: CoordId,
                                                       isPlusStrand: bool, steps: seq<Step>)
    requires Inv(st, t, sliceId) && StepsReady(st.db, steps) && CoordSwapsTarget(st.coordSwaps, sliceId)
    ensures CoordSwapsTarget(Walk(st, t, sliceId, isPlusStrand, steps).coordSwaps, sliceId)
    decreases |steps|
  {
    if steps != [] {
      QueuedCoordSwapsTargetSlice(st, t, sliceId, isPlusStrand, steps[..|steps| - 1]);
      CoordSwapsTargetStep(Walk(st, t, sliceId, isPlusStrand, steps[..|steps| - 1]), t, sliceId, isPlusStrand,
                           steps[|steps| - 1]);
    }
  }

  /**
   * The pending piece swaps: untouched until the walk reaches the border and, from then
   * on, only moves from the piece at the border to the trimmer's downstream piece.
   */
  predicate PieceSwapsFromBorder(st: TrimState, ps0: seq<PieceSwap>) {
    && (st.border.None? ==> st.pieceSwaps == ps0)
    && (st.border.Some? ==>
          st.downstreamPiece.Some?
          && forall k | 0 <= k < |st.pieceSwaps| ::
               st.pieceSwaps[k].oldPiece == st.border.value && st.pieceSwaps[k].newPiece == st.downstreamPiece.value)
  }

  lemma PieceSwapsFromBorderStep(st: TrimState, ps0: seq<PieceSwap>, t: TranscribedId, sliceId: CoordId,
                                 isPlusStrand: bool, step: Step)
    requires Inv(st, t, sliceId) && StepReady(st.db, step) && PieceSwapsFromBorder(st, ps0)
    ensures PieceSwapsFromBorder(TrimStep(st, t, sliceId, isPlusStrand, step), ps0)
  {
  }

  lemma {:induction false} QueuedPieceSwapsFromBorder(db: Db, trees: Trees, ps: seq<PieceSwap>, cs: seq<CoordSwap>,
                                                      t: TranscribedId, sliceId: CoordId, isPlusStrand: bool,
                                                      steps: seq<Step>)
    requires Inv(Start(db, trees, ps, cs), t, sliceId) && StepsReady(db, steps)
    ensures PieceSwapsFromBorder(Walk(Start(db, trees, ps, cs), t, sliceId, isPlusStrand, steps), ps)
    decreases |steps|
  {
    if steps != [] {
      QueuedPieceSwapsFromBorder(db, trees, ps, cs, t, sliceId, isPlusStrand, steps[..|steps| - 1]);
      PieceSwapsFromBorderStep(Walk(Start(db, trees, ps, cs), t, sliceId, isPlusStrand, steps[..|steps| - 1]),
                               ps, t, sliceId, isPlusStrand, steps[|steps| - 1]);
    }
  }

  /**
   * Relative to the state `st0` a walk started from, the pieces of `st`: the old ones
   * unchanged and at most one more, the trimmer's downstream piece, owned by `t`.
   */
  predicate AtMostOnePieceSince(st0: TrimState, st: TrimState, t: TranscribedId) {
    && (st0.downstreamPiece.Some? ==> st.db.pieces == st0.db.pieces && st.downstreamPiece == st0.downstreamPiece)
    && (st0.downstreamPiece.None? ==>
          if st.downstreamPiece.None? then st.db.pieces == st0.db.pieces
          else st.db.pieces == st0.db.pieces[st.downstreamPiece.value := t] && st.downstreamPiece.value !in st0.db.pieces)
  }

  lemma AtMostOnePieceStep(st0: TrimState, st: TrimState, t: TranscribedId, sliceId: CoordId, isPlusStrand: bool,
                           step: Step)
    requires Inv(st0, t, sliceId) && Inv(st, t, sliceId) && StepReady(st.db, step)
    requires AtMostOnePieceSince(st0, st, t)
    ensures AtMostOnePieceSince(st0, TrimStep(st, t, sliceId, isPlusStrand, step), t)
  {
  }

  /** The trimmer creates at most one piece, for its own transcript, and never changes another. */
  lemma {:induction false} AtMostOneNewPiece(st: TrimState, t: TranscribedId, sliceId: CoordId,
                                             isPlusStrand: bool, steps: seq<Step>)
    requires Inv(st, t, sliceId) && StepsReady(st.db, steps)
    ensures AtMostOnePieceSince(st, Walk(st, t, sliceId, isPlusStrand, steps), t)
    decreases |steps|
  {
    if steps != [] {
      AtMostOneNewPiece(st, t, sliceId, isPlusStrand, steps[..|steps| - 1]);
      AtMostOnePieceStep(st, Walk(st, t, sliceId, isPlusStrand, steps[..|steps| - 1]), t, sliceId, isPlusStrand,
                         steps[|steps| - 1]);
    }
  }

  // ---------------------------------------------------------------------------------
  // The double check after NoFeaturesInSliceError
  // ---------------------------------------------------------------------------------

  /** The features of every group share the first feature's position, strand and sequence. */
  predicate GroupsAligned(db: Db, steps: seq<Step>)
    requires Valid(db) && StepsReady(db, steps)
  {
    forall k, j | 0 <= k < |steps| && 0 <= j < |steps[k].aligned| ::
      var f0 := db.features[steps[k].aligned[0]];
      var f := db.features[steps[k].aligned[j]];
      f.start == f0.start && f.end == f0.end && f.isPlusStrand == f0.isPlusStrand
      && db.coordinates[f.coordinate].seqid == db.coordinates[f0.coordinate].seqid
  }

  /**
   * The groups cover transcript `t`: every feature on a piece of `t` and on the pass's
   * strand lies on the slice's sequence, is non-empty, and belongs to some group.
   */
  predicate CoversTranscript(db: Db, t: TranscribedId, slice: Coordinate, isPlusStrand: bool, steps: seq<Step>)
    requires Valid(db)
  {
    forall p, f | p in db.pieces && db.pieces[p] == t && f in db.features && f in db.pieceLinks
                  && p in db.pieceLinks[f] && db.features[f].isPlusStrand == isPlusStrand ::
      && db.coordinates[db.features[f].coordinate].seqid == slice.seqid
      && Interp(db, f, slice, isPlusStrand).PyStart() < Interp(db, f, slice, isPlusStrand).PyEnd()
      && exists k, j :: 0 <= k < |steps| && 0 <= j < |steps[k].aligned| && steps[k].aligned[j] == f
  }

  /** A feature of a group that does not overlap the slice has its position outside the window. */
  lemma AlignedFeatureOutsideWindow(db: Db, slice: Coordinate, isPlusStrand: bool, steps: seq<Step>, k: nat, j: nat)
    requires Valid(db) && StepsReady(db, steps) && GroupsAligned(db, steps)
    requires k < |steps| && j < |steps[k].aligned|
    requires StepPosition(db, steps[k], slice, isPlusStrand) !in {Contained, OverlapsDownstream}
    requires var f := db.features[steps[k].aligned[j]];
      && f.isPlusStrand == isPlusStrand && db.coordinates[f.coordinate].seqid == slice.seqid
      && Interp(db, steps[k].aligned[j], slice, isPlusStrand).PyStart()
         < Interp(db, steps[k].aligned[j], slice, isPlusStrand).PyEnd()
    ensures !InRecheckWindow(slice, db.features[steps[k].aligned[j]].start)
  {
    var v := Interp(db, steps[k].aligned[j], slice, isPlusStrand);
    var v0 := Interp(db, steps[k].aligned[0], slice, isPlusStrand);
    assert v0.PyStart() == v.PyStart() && v0.PyEnd() == v.PyEnd() && v0.IsDetached() == v.IsDetached();
    assert Classify(v0) == Classify(v);
    RecheckWindowExact(v);
  }

  /** When no group of a covering walk overlaps the slice, no feature of `t` is in the corrected window. */
  lemma NoOverlappingGroupConfirmed(db: Db, t: TranscribedId, slice: Coordinate, isPlusStrand: bool, steps: seq<Step>)
    requires Valid(db) && StepsReady(db, steps)
    requires GroupsAligned(db, steps) && CoversTranscript(db, t, slice, isPlusStrand, steps)
    requires forall k | 0 <= k < |steps| ::
      StepPosition(db, steps[k], slice, isPlusStrand) !in {Contained, OverlapsDownstream}
    ensures NoOverlapConfirmed(db, t, slice, isPlusStrand)
  {
    forall p, f | p in db.pieces && db.pieces[p] == t && f in db.features && f in db.pieceLinks
                  && p in db.pieceLinks[f] && db.features[f].isPlusStrand == isPlusStrand
      ensures !InRecheckWindow(slice, db.features[f].start)
    {
      var k, j :| 0 <= k < |steps| && 0 <= j < |steps[k].aligned| && steps[k].aligned[j] == f;
      AlignedFeatureOutsideWindow(db, slice, isPlusStrand, steps, k, j);
    }
  }

  /**
   * With the half-open window, the double check always passes when the walk reports
   * NoFeaturesInSliceError for a transcript its groups cover.
   */
  lemma NoFeaturesInSliceConfirmed(db: Db, trees: Trees, ps: seq<PieceSwap>, cs: seq<CoordSwap>, t: TranscribedId,
                                   sliceId: CoordId, isPlusStrand: bool, steps: seq<Step>)
    requires Inv(Start(db, trees, ps, cs), t, sliceId) && StepsReady(db, steps)
    requires GroupsAligned(db, steps) && CoversTranscript(db, t, db.coordinates[sliceId], isPlusStrand, steps)
    requires ModifyForNewSlice(db, trees, ps, cs, t, sliceId, isPlusStrand, steps).1 == NoFeaturesInSlice
    ensures NoOverlapConfirmed(db, t, db.coordinates[sliceId], isPlusStrand)
  {
    UnseenWalkChangesNothing(Start(db, trees, ps, cs), t, sliceId, isPlusStrand, steps);
    NoOverlappingGroupConfirmed(db, t, db.coordinates[sliceId], isPlusStrand, steps);
  }

  /** The store of the counterexample: one transcript, one piece, one feature [2000, 2500). */
  function CounterexampleDb(): Db {
    Db(map[0 := Coordinate("chr1", 0, 5000), 1 := Coordinate("chr1", 1000, 2000)],
       map[0 := Feature(2000, 2500, true, 0, true, true, None, 0)],
       map[0 := {0}], map[0 := 0], map[0 := 0], 2, 1, 1)
  }

  /** On the plus pass over the slice [1000, 2000) the counterexample's walk finds no overlap. */
  lemma CounterexampleWalk()
    ensures Inv(Start(CounterexampleDb(), map[], [], []), 0, 1) && StepsReady(CounterexampleDb(), [Step([0], 0)])
    ensures ModifyForNewSlice(CounterexampleDb(), map[], [], [], 0, 1, true, [Step([0], 0)]).1 == NoFeaturesInSlice
  {
    var db := CounterexampleDb();
    var steps := [Step([0], 0)];
    var st := Start(db, map[], [], []);
    assert steps[..0] == [];
    assert StepPosition(db, steps[0], db.coordinates[1], true) == Downstream;
    UnseenStep(st, 0, 1, true, steps[0]);
    assert Walk(st, 0, 1, true, steps) == st;
  }

  /**
   * The double check as written can fail although the walk correctly found no overlap:
   * one plus-strand feature [2000, 2500) on piece 0 of transcript 0 against the slice
   * [1000, 2000) is downstream, so the walk reports NoFeaturesInSliceError, and the
   * written check then rejects the feature (an AssertionError aborts the slicing run),
   * while the corrected check accepts it.
   */
  lemma DoubleCheckAsWrittenAborts()
    ensures var db := CounterexampleDb();
      && Inv(Start(db, map[], [], []), 0, 1) && StepsReady(db, [Step([0], 0)])
      && GroupsAligned(db, [Step([0], 0)]) && CoversTranscript(db, 0, db.coordinates[1], true, [Step([0], 0)])
      && ModifyForNewSlice(db, map[], [], [], 0, 1, true, [Step([0], 0)]).1 == NoFeaturesInSlice
      && !NoOverlapConfirmedAsWritten(db, 0, db.coordinates[1], true)
      && NoOverlapConfirmed(db, 0, db.coordinates[1], true)
  {
    CounterexampleWalk();
    CounterexampleCovered();
    var db := CounterexampleDb();
    assert InRecheckWindowAsWritten(db.coordinates[1], true, db.features[0].start);
    assert !InRecheckWindow(db.coordinates[1], 2000);
  }

  lemma CounterexampleCovered()
    ensures var db := CounterexampleDb();
      && Valid(db) && StepsReady(db, [Step([0], 0)])
      && GroupsAligned(db, [Step([0], 0)]) && CoversTranscript(db, 0, db.coordinates[1], true, [Step([0], 0)])
  {
    var steps := [Step([0], 0)];
    assert steps[0].aligned[0] == 0;
  }
}
