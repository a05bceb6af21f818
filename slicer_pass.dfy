/**
 * The slicer's passes on values: filling the interval trees from the features, trimming
 * the transcripts of one super-locus to a new slice (SuperLocusHandler.modify4slice with
 * its double check after NoFeaturesInSliceError), and the reversal of the slice list
 * between the plus-strand and the minus-strand pass.
 */
module SlicePass {
  import opened Wrappers
  import opened SliceGeometry
  import opened AnnotationDb
  import opened TrimSpec

  /** What a slicing pass threads from transcript to transcript: store, trees and shared queue. */
  datatype PassState = PassState(db: Db, trees: Trees, pieceSwaps: seq<PieceSwap>, coordSwaps: seq<CoordSwap>)

  /** Why a pass stops: the ValueError of an unfilled lookup, or one of the two AssertionErrors. */
  datatype SliceError =
    | NoIntervalTreesFilled
    | BorderSplitFailed(transcribed: TranscribedId)
    | OverlapMissed(transcribed: TranscribedId)

  /** What holds between transcripts while a slice with coordinate `sliceId` is processed. */
  predicate PassInv(s: PassState, sliceId: CoordId) {
    && Valid(s.db)
    && TreesValid(s.trees, s.db)
    && sliceId in s.db.coordinates
    && CoordSwapsValid(s.db, s.coordSwaps)
  }

  /**
   * geenuff's 5'-to-3' transition walk is outside this model; it is a parameter of the type
   * below, and what is assumed of it is that its groups are non-empty and name features of
   * the store it walks.
   */
  ghost predicate TransitionsReady(transitions: (Db, TranscribedId) -> seq<Step>) {
    forall db, t :: Valid(db) ==> StepsReady(db, transitions(db, t))
  }

  /** The trimmer's starting state over a pass state (a fresh trimmer has no downstream piece). */
  function TrimmerStart(s: PassState): (st: TrimState)
    ensures st.db == s.db && st.trees == s.trees && st.downstreamPiece.None? && !st.seen && !st.failed
  {
    Start(s.db, s.trees, s.pieceSwaps, s.coordSwaps)
  }

  /** A fresh trimmer's run over transcript `t`, as a pass state and how modify4new_slice ended. */
  function RunTrimmer(s: PassState, t: TranscribedId, sliceId: CoordId, isPlusStrand: bool,
                      transitions: (Db, TranscribedId) -> seq<Step>): (r: (PassState, Outcome))
    requires PassInv(s, sliceId) && TransitionsReady(transitions)
    ensures PassInv(r.0, sliceId) && s.db.features.Keys <= r.0.db.features.Keys
    ensures r.0.db.coordinates == s.db.coordinates && r.0.db.nextCoordinate == s.db.nextCoordinate
  {
    var (st, outcome) := ModifyForNewSlice(s.db, s.trees, s.pieceSwaps, s.coordSwaps, t, sliceId, isPlusStrand,
                                           transitions(s.db, t));
    (PassState(st.db, st.trees, st.pieceSwaps, st.coordSwaps), outcome)
  }

  /**
   * One transcript of modify4slice: run the trimmer; a failed border split stops the pass,
   * and NoFeaturesInSliceError is accepted only when the double check, with the closed
   * windows the code writes, finds no same-strand feature of the transcript in them.
   */
  function TrimTranscript(s: PassState, t: TranscribedId, sliceId: CoordId, isPlusStrand: bool,
                          transitions: (Db, TranscribedId) -> seq<Step>): (r: Result<PassState, SliceError>)
    requires PassInv(s, sliceId) && TransitionsReady(transitions)
    ensures r.Success? ==>
      && PassInv(r.value, sliceId)
      && s.db.features.Keys <= r.value.db.features.Keys
      && r.value.db.coordinates == s.db.coordinates && r.value.db.nextCoordinate == s.db.nextCoordinate
    ensures r.Failure? ==> r.error in {BorderSplitFailed(t), OverlapMissed(t)}
  {
    var (next, outcome) := RunTrimmer(s, t, sliceId, isPlusStrand, transitions);
    match outcome
    case Trimmed => Success(next)
    case BorderAssertionFailed => Failure(BorderSplitFailed(t))
    case NoFeaturesInSlice =>
      if NoOverlapConfirmedAsWritten(next.db, t, next.db.coordinates[sliceId], isPlusStrand) then Success(next)
      else Failure(OverlapMissed(t))
  }

  /** The same transcript step with the double check corrected to the lookup's half-open window. */
  function TrimTranscriptCorrected(s: PassState, t: TranscribedId, sliceId: CoordId, isPlusStrand: bool,
                                   transitions: (Db, TranscribedId) -> seq<Step>): (r: Result<PassState, SliceError>)
    requires PassInv(s, sliceId) && TransitionsReady(transitions)
    ensures r.Success? ==>
      && PassInv(r.value, sliceId)
      && s.db.features.Keys <= r.value.db.features.Keys
      && r.value.db.coordinates == s.db.coordinates && r.value.db.nextCoordinate == s.db.nextCoordinate
    ensures r.Failure? ==> r.error in {BorderSplitFailed(t), OverlapMissed(t)}
  {
    var (next, outcome) := RunTrimmer(s, t, sliceId, isPlusStrand, transitions);
    match outcome
    case Trimmed => Success(next)
    case BorderAssertionFailed => Failure(BorderSplitFailed(t))
    case NoFeaturesInSlice =>
      if NoOverlapConfirmed(next.db, t, next.db.coordinates[sliceId], isPlusStrand) then Success(next)
      else Failure(OverlapMissed(t))
  }

  /** Every position in the half-open window is in the closed window the code checks, on both strands. */
  lemma NoOverlapAsWrittenIsStricter(db: Db, t: TranscribedId, slice: Coordinate, isPlusStrand: bool)
    requires NoOverlapConfirmedAsWritten(db, t, slice, isPlusStrand)
    ensures NoOverlapConfirmed(db, t, slice, isPlusStrand)
  {
    forall p, f | p in db.pieces && db.pieces[p] == t && f in db.features && f in db.pieceLinks
                  && p in db.pieceLinks[f] && db.features[f].isPlusStrand == isPlusStrand
      ensures !InRecheckWindow(slice, db.features[f].start)
    {
      assert !InRecheckWindowAsWritten(slice, isPlusStrand, db.features[f].start);
    }
  }

  /**
   * The corrected step differs from the step as written only where the written check
   * aborts: whenever the code accepts a transcript the corrected check accepts it with the
   * same state, and the only extra failures of the code are OverlapMissed.
   */
  lemma CorrectedAcceptsAsWritten(s: PassState, t: TranscribedId, sliceId: CoordId, isPlusStrand: bool,
                                  transitions: (Db, TranscribedId) -> seq<Step>)
    requires PassInv(s, sliceId) && TransitionsReady(transitions)
    ensures var r := TrimTranscript(s, t, sliceId, isPlusStrand, transitions);
      var c := TrimTranscriptCorrected(s, t, sliceId, isPlusStrand, transitions);
      && (r.Success? ==> c == r)
      && (c.Failure? ==> r == c)
      && (r != c ==> r == Failure(OverlapMissed(t)) && c.Success?)
  {
    var (next, outcome) := RunTrimmer(s, t, sliceId, isPlusStrand, transitions);
    if outcome == NoFeaturesInSlice
       && NoOverlapConfirmedAsWritten(next.db, t, next.db.coordinates[sliceId], isPlusStrand) {
      NoOverlapAsWrittenIsStricter(next.db, t, next.db.coordinates[sliceId], isPlusStrand);
    }
  }

  /** modify4slice: the transcripts of one super-locus, in order, stopping at the first error. */
  function Modify4Slice(s: PassState, ts: seq<TranscribedId>, sliceId: CoordId, isPlusStrand: bool,
                        transitions: (Db, TranscribedId) -> seq<Step>): (r: Result<PassState, SliceError>)
    requires PassInv(s, sliceId) && TransitionsReady(transitions)
    ensures r.Success? ==>
      && PassInv(r.value, sliceId)
      && s.db.features.Keys <= r.value.db.features.Keys
      && r.value.db.coordinates == s.db.coordinates && r.value.db.nextCoordinate == s.db.nextCoordinate
    ensures r.Failure? ==> exists k :: 0 <= k < |ts| && r.error in {BorderSplitFailed(ts[k]), OverlapMissed(ts[k])}
    decreases |ts|
  {
    if ts == [] then Success(s)
    else
      var prev := Modify4Slice(s, ts[..|ts| - 1], sliceId, isPlusStrand, transitions);
      if prev.Failure? then
        var k :| 0 <= k < |ts| - 1 && prev.error in {BorderSplitFailed(ts[..|ts| - 1][k]), OverlapMissed(ts[..|ts| - 1][k])};
        assert ts[..|ts| - 1][k] == ts[k];
        prev
      else
        var r := TrimTranscript(prev.value, ts[|ts| - 1], sliceId, isPlusStrand, transitions);
        assert r.Failure? ==> r.error in {BorderSplitFailed(ts[|ts| - 1]), OverlapMissed(ts[|ts| - 1])};
        r
  }

  /** The super-locus fold over its first i + 1 transcripts is one transcript after the first i. */
  lemma Modify4SliceSnoc(s: PassState, ts: seq<TranscribedId>, i: nat, sliceId: CoordId, isPlusStrand: bool,
                         transitions: (Db, TranscribedId) -> seq<Step>)
    requires PassInv(s, sliceId) && TransitionsReady(transitions) && i < |ts|
    ensures var prev := Modify4Slice(s, ts[..i], sliceId, isPlusStrand, transitions);
      Modify4Slice(s, ts[..i + 1], sliceId, isPlusStrand, transitions)
      == if prev.Failure? then prev else TrimTranscript(prev.value, ts[i], sliceId, isPlusStrand, transitions)
  {
    assert ts[..i + 1][..i] == ts[..i];
  }

  /** The first error of a super-locus is its result: later transcripts are not trimmed. */
  lemma {:induction false} Modify4SliceStopsAtError(s: PassState, ts: seq<TranscribedId>, i: nat, sliceId: CoordId,
                                                    isPlusStrand: bool, transitions: (Db, TranscribedId) -> seq<Step>)
    requires PassInv(s, sliceId) && TransitionsReady(transitions) && i <= |ts|
    requires Modify4Slice(s, ts[..i], sliceId, isPlusStrand, transitions).Failure?
    ensures Modify4Slice(s, ts, sliceId, isPlusStrand, transitions) == Modify4Slice(s, ts[..i], sliceId, isPlusStrand, transitions)
    decreases |ts|
  {
    if i < |ts| {
      var init := ts[..|ts| - 1];
      assert init[..i] == ts[..i];
      Modify4SliceStopsAtError(s, init, i, sliceId, isPlusStrand, transitions);
    } else {
      assert ts[..i] == ts;
    }
  }

  /**
   * When the transition walk groups aligned features and covers the transcript, the
   * corrected double check after NoFeaturesInSliceError never fails: the trimmer then
   * reports no overlap only if there is none.
   */
  lemma CoveredTranscriptPassesRecheck(s: PassState, t: TranscribedId, sliceId: CoordId, isPlusStrand: bool,
                                       transitions: (Db, TranscribedId) -> seq<Step>)
    requires PassInv(s, sliceId) && TransitionsReady(transitions)
    requires GroupsAligned(s.db, transitions(s.db, t))
    requires CoversTranscript(s.db, t, s.db.coordinates[sliceId], isPlusStrand, transitions(s.db, t))
    ensures TrimTranscriptCorrected(s, t, sliceId, isPlusStrand, transitions) != Failure(OverlapMissed(t))
  {
    var steps := transitions(s.db, t);
    var (st, outcome) := ModifyForNewSlice(s.db, s.trees, s.pieceSwaps, s.coordSwaps, t, sliceId, isPlusStrand, steps);
    if outcome == NoFeaturesInSlice {
      NoFeaturesInSliceConfirmed(s.db, s.trees, s.pieceSwaps, s.coordSwaps, t, sliceId, isPlusStrand, steps);
      UnseenWalkChangesNothing(TrimmerStart(s), t, sliceId, isPlusStrand, steps);
    }
  }

  /** Every pending coordinate swap of one transcript's trimming moves a feature onto the slice. */
  lemma TrimTranscriptTargetsSlice(s: PassState, t: TranscribedId, sliceId: CoordId, isPlusStrand: bool,
                                  transitions: (Db, TranscribedId) -> seq<Step>)
    requires PassInv(s, sliceId) && TransitionsReady(transitions) && CoordSwapsTarget(s.coordSwaps, sliceId)
    ensures var r := TrimTranscript(s, t, sliceId, isPlusStrand, transitions);
      r.Success? ==> CoordSwapsTarget(r.value.coordSwaps, sliceId)
  {
    QueuedCoordSwapsTargetSlice(TrimmerStart(s), t, sliceId, isPlusStrand, transitions(s.db, t));
  }

  /**
   * Over a whole super-locus the queue only ever moves features onto the new slice: the
   * coordinate swaps queued for a slice all target that slice's coordinate.
   */
  lemma {:induction false} Modify4SliceTargetsSlice(s: PassState, ts: seq<TranscribedId>, sliceId: CoordId,
                                                    isPlusStrand: bool, transitions: (Db, TranscribedId) -> seq<Step>)
    requires PassInv(s, sliceId) && TransitionsReady(transitions) && CoordSwapsTarget(s.coordSwaps, sliceId)
    ensures var r := Modify4Slice(s, ts, sliceId, isPlusStrand, transitions);
      r.Success? ==> CoordSwapsTarget(r.value.coordSwaps, sliceId)
    decreases |ts|
  {
    if ts != [] {
      var init := ts[..|ts| - 1];
      Modify4SliceTargetsSlice(s, init, sliceId, isPlusStrand, transitions);
      var prev := Modify4Slice(s, init, sliceId, isPlusStrand, transitions);
      if prev.Success? {
        TrimTranscriptTargetsSlice(prev.value, ts[|ts| - 1], sliceId, isPlusStrand, transitions);
      }
    }
  }

  /** The pieces after `s'` relative to `s`: old pieces keep their owner, new ones belong to one of `ts`. */
  predicate PiecesOwnedBy(s: PassState, s': PassState, ts: seq<TranscribedId>) {
    && (forall p | p in s.db.pieces :: p in s'.db.pieces && s'.db.pieces[p] == s.db.pieces[p])
    && (forall p | p in s'.db.pieces && p !in s.db.pieces :: exists k :: 0 <= k < |ts| && s'.db.pieces[p] == ts[k])
  }

  lemma TrimTranscriptPieces(s: PassState, t: TranscribedId, sliceId: CoordId, isPlusStrand: bool,
                             transitions: (Db, TranscribedId) -> seq<Step>)
    requires PassInv(s, sliceId) && TransitionsReady(transitions)
    ensures var r := TrimTranscript(s, t, sliceId, isPlusStrand, transitions);
      r.Success? ==> PiecesOwnedBy(s, r.value, [t])
  {
    AtMostOneNewPiece(TrimmerStart(s), t, sliceId, isPlusStrand, transitions(s.db, t));
    var r := TrimTranscript(s, t, sliceId, isPlusStrand, transitions);
    if r.Success? {
      forall p | p in r.value.db.pieces && p !in s.db.pieces
        ensures exists k :: 0 <= k < |[t]| && r.value.db.pieces[p] == [t][k]
      {
        assert r.value.db.pieces[p] == [t][0];
      }
    }
  }

  /**
   * Trimming a super-locus never re-assigns an existing piece, and every piece it creates
   * (the downstream pieces of border splits) belongs to one of the super-locus's transcripts.
   */
  lemma {:induction false} Modify4SlicePieces(s: PassState, ts: seq<TranscribedId>, sliceId: CoordId,
                                              isPlusStrand: bool, transitions: (Db, TranscribedId) -> seq<Step>)
    requires PassInv(s, sliceId) && TransitionsReady(transitions)
    ensures var r := Modify4Slice(s, ts, sliceId, isPlusStrand, transitions);
      r.Success? ==> PiecesOwnedBy(s, r.value, ts)
    decreases |ts|
  {
    if ts != [] {
      var init := ts[..|ts| - 1];
      Modify4SlicePieces(s, init, sliceId, isPlusStrand, transitions);
      var prev := Modify4Slice(s, init, sliceId, isPlusStrand, transitions);
      if prev.Success? {
        var t := ts[|ts| - 1];
        TrimTranscriptPieces(prev.value, t, sliceId, isPlusStrand, transitions);
        var r := TrimTranscript(prev.value, t, sliceId, isPlusStrand, transitions);
        if r.Success? {
          forall p | p in r.value.db.pieces && p !in s.db.pieces
            ensures exists k :: 0 <= k < |ts| && r.value.db.pieces[p] == ts[k]
          {
            if p in prev.value.db.pieces {
              var k :| 0 <= k < |init| && prev.value.db.pieces[p] == init[k];
              assert ts[k] == init[k];
            } else {
              assert r.value.db.pieces[p] == ts[|ts| - 1];
            }
          }
        }
      }
    }
  }

  // ---------------------------------------------------------------------------------
  // Filling the interval trees (SliceController.fill_intervaltrees)
  // ---------------------------------------------------------------------------------

  /** The sequence id of the coordinate feature `f` lies on. */
  function SeqidOf(db: Db, f: FeatureId): string
    requires Valid(db) && f in db.features
  {
    db.coordinates[db.features[f].coordinate].seqid
  }

  predicate AllFeatures(db: Db, fs: seq<FeatureId>) {
    forall j | 0 <= j < |fs| :: fs[j] in db.features
  }

  /** The tree entry load_to_intervaltree makes for feature `f`. */
  function EntryOf(db: Db, f: FeatureId): Entry
    requires f in db.features
  {
    Entry(db.features[f].start, db.features[f].start + 1, f)
  }

  /** load_to_intervaltree for every feature of `fs`, in order. */
  function LoadAll(trees: Trees, db: Db, fs: seq<FeatureId>): Trees
    requires Valid(db) && AllFeatures(db, fs)
    decreases |fs|
  {
    if fs == [] then trees
    else
      var last := fs[|fs| - 1];
      LoadToIntervalTree(LoadAll(trees, db, fs[..|fs| - 1]), SeqidOf(db, last), db.features[last].start, last)
  }

  /** Some element of `fs` has sequence id `s`. */
  predicate SomeOn(db: Db, fs: seq<FeatureId>, s: string)
    requires Valid(db) && AllFeatures(db, fs)
  {
    exists j :: 0 <= j < |fs| && SeqidOf(db, fs[j]) == s
  }

  /** Entry `e` of the tree of `s` is the entry of an element of `fs` on `s`. */
  predicate EntryFromList(db: Db, fs: seq<FeatureId>, s: string, e: Entry)
    requires Valid(db) && AllFeatures(db, fs)
  {
    exists j :: 0 <= j < |fs| && SeqidOf(db, fs[j]) == s && e == EntryOf(db, fs[j])
  }

  /** Feature `f` has its entry in the tree of its sequence. */
  predicate Registered(r: Trees, db: Db, f: FeatureId)
    requires Valid(db) && f in db.features
  {
    SeqidOf(db, f) in r && exists k :: 0 <= k < |r[SeqidOf(db, f)]| && r[SeqidOf(db, f)][k] == EntryOf(db, f)
  }

  /** fill_intervaltrees makes one tree per sequence of the loaded features, besides the old trees. */
  lemma {:induction false} LoadAllKeys(trees: Trees, db: Db, fs: seq<FeatureId>)
    requires Valid(db) && AllFeatures(db, fs)
    ensures forall s :: s in LoadAll(trees, db, fs) <==> s in trees || SomeOn(db, fs, s)
    decreases |fs|
  {
    if fs != [] {
      var init := fs[..|fs| - 1];
      LoadAllKeys(trees, db, init);
      forall s ensures s in LoadAll(trees, db, fs) <==> s in trees || SomeOn(db, fs, s) {
        if SomeOn(db, init, s) {
          var j :| 0 <= j < |init| && SeqidOf(db, init[j]) == s;
          assert fs[j] == init[j];
        }
        if SomeOn(db, fs, s) && s != SeqidOf(db, fs[|fs| - 1]) {
          var j :| 0 <= j < |fs| && SeqidOf(db, fs[j]) == s;
          assert j < |init| && init[j] == fs[j];
        }
      }
    }
  }

  /** Every entry of `trees` is still in `r`, at the same place of the same tree. */
  predicate KeepsEntries(trees: Trees, r: Trees) {
    forall s, k | s in trees && 0 <= k < |trees[s]| :: s in r && k < |r[s]| && r[s][k] == trees[s][k]
  }

  /** Loading only appends: the old entries keep their places. */
  lemma {:induction false} LoadAllKeepsOld(trees: Trees, db: Db, fs: seq<FeatureId>)
    requires Valid(db) && AllFeatures(db, fs)
    ensures KeepsEntries(trees, LoadAll(trees, db, fs))
    decreases |fs|
  {
    if fs != [] {
      var init := fs[..|fs| - 1];
      var last := fs[|fs| - 1];
      LoadAllKeepsOld(trees, db, init);
      var prev := LoadAll(trees, db, init);
      var r := LoadToIntervalTree(prev, SeqidOf(db, last), db.features[last].start, last);
      assert KeepsEntries(prev, r);
    }
  }

  /** Every loaded feature has its entry in the tree of its sequence. */
  lemma {:induction false} LoadAllRegisters(trees: Trees, db: Db, fs: seq<FeatureId>)
    requires Valid(db) && AllFeatures(db, fs)
    ensures forall j | 0 <= j < |fs| :: Registered(LoadAll(trees, db, fs), db, fs[j])
    decreases |fs|
  {
    if fs != [] {
      var init := fs[..|fs| - 1];
      var last := fs[|fs| - 1];
      LoadAllRegisters(trees, db, init);
      var prev := LoadAll(trees, db, init);
      var r := LoadAll(trees, db, fs);
      var s0 := SeqidOf(db, last);
      assert r == LoadToIntervalTree(prev, s0, db.features[last].start, last);
      forall j | 0 <= j < |fs| ensures Registered(r, db, fs[j]) {
        if j < |init| {
          assert init[j] == fs[j];
          assert Registered(prev, db, init[j]);
          var k :| 0 <= k < |prev[SeqidOf(db, init[j])]| && prev[SeqidOf(db, init[j])][k] == EntryOf(db, init[j]);
          assert r[SeqidOf(db, fs[j])][k] == EntryOf(db, fs[j]);
        } else {
          assert r[s0][|r[s0]| - 1] == EntryOf(db, last);
        }
      }
    }
  }

  /** Every entry of `r` beyond those of `trees` is the entry of an element of `fs`, in the tree of its sequence. */
  predicate OnlyListed(r: Trees, trees: Trees, db: Db, fs: seq<FeatureId>)
    requires Valid(db) && AllFeatures(db, fs)
  {
    forall s, k | s in r && 0 <= k < |r[s]| :: (s in trees && k < |trees[s]|) || EntryFromList(db, fs, s, r[s][k])
  }

  /** Every entry beyond the old ones is the entry of a loaded feature, in the tree of its sequence. */
  lemma {:induction false} LoadAllOnlyListed(trees: Trees, db: Db, fs: seq<FeatureId>)
    requires Valid(db) && AllFeatures(db, fs)
    ensures OnlyListed(LoadAll(trees, db, fs), trees, db, fs)
    decreases |fs|
  {
    if fs != [] {
      var init := fs[..|fs| - 1];
      var last := fs[|fs| - 1];
      LoadAllOnlyListed(trees, db, init);
      var prev := LoadAll(trees, db, init);
      assert OnlyListed(prev, trees, db, init);
      var r := LoadAll(trees, db, fs);
      var s0 := SeqidOf(db, last);
      assert r == LoadToIntervalTree(prev, s0, db.features[last].start, last);
      forall s, k | s in r && 0 <= k < |r[s]|
        ensures (s in trees && k < |trees[s]|) || EntryFromList(db, fs, s, r[s][k])
      {
        if s == s0 && k == |r[s]| - 1 {
          assert fs[|fs| - 1] == last;
        } else if !(s in trees && k < |trees[s]|) {
          assert s in prev && k < |prev[s]| && r[s][k] == prev[s][k];
          assert EntryFromList(db, init, s, prev[s][k]);
          var j :| 0 <= j < |init| && SeqidOf(db, init[j]) == s && prev[s][k] == EntryOf(db, init[j]);
          assert fs[j] == init[j];
        }
      }
    }
  }

  /** Loading features of the store keeps the trees consistent with the store. */
  lemma LoadAllValid(trees: Trees, db: Db, fs: seq<FeatureId>)
    requires Valid(db) && AllFeatures(db, fs) && TreesValid(trees, db)
    ensures TreesValid(LoadAll(trees, db, fs), db)
  {
    LoadAllOnlyListed(trees, db, fs);
    LoadAllKeepsOld(trees, db, fs);
    var r: Trees := LoadAll(trees, db, fs);
    forall s, k | s in r && 0 <= k < |r[s]|
      ensures r[s][k].end == r[s][k].begin + 1 && r[s][k].feature in db.features
    {
      if s in trees && k < |trees[s]| {
        assert r[s][k] == trees[s][k];
      } else {
        assert EntryFromList(db, fs, s, r[s][k]);
        var j :| 0 <= j < |fs| && SeqidOf(db, fs[j]) == s && r[s][k] == EntryOf(db, fs[j]);
      }
    }
  }

  /** The features of `fs` on sequence `seqid` and strand `isPlusStrand` whose position is in [start, end). */
  function InWindow(db: Db, fs: seq<FeatureId>, seqid: string, start: int, end: int, isPlusStrand: bool)
    : set<FeatureId>
    requires Valid(db) && AllFeatures(db, fs)
  {
    set j | 0 <= j < |fs| && SeqidOf(db, fs[j]) == seqid && start <= db.features[fs[j]].start < end
                          && db.features[fs[j]].isPlusStrand == isPlusStrand :: fs[j]
  }

  /** What fill_intervaltrees from empty trees makes of `fs`: exactly the entries of its features. */
  ghost predicate IndexesExactly(r: Trees, db: Db, fs: seq<FeatureId>)
    requires Valid(db) && AllFeatures(db, fs)
  {
    && TreesValid(r, db)
    && (forall s :: s in r <==> SomeOn(db, fs, s))
    && (forall j | 0 <= j < |fs| :: Registered(r, db, fs[j]))
    && OnlyListed(r, map[], db, fs)
  }

  lemma LoadAllIndexesExactly(db: Db, fs: seq<FeatureId>)
    requires Valid(db) && AllFeatures(db, fs)
    ensures IndexesExactly(LoadAll(map[], db, fs), db, fs)
  {
    LoadAllValid(map[], db, fs);
    LoadAllKeys(map[], db, fs);
    LoadAllRegisters(map[], db, fs);
    LoadAllOnlyListed(map[], db, fs);
  }

  /** An entry the window query finds is that of a feature in the window. */
  lemma FoundIsInWindow(r: Trees, db: Db, fs: seq<FeatureId>, seqid: string, start: int, end: int,
                        isPlusStrand: bool, f: FeatureId, k: int)
    requires Valid(db) && AllFeatures(db, fs) && seqid in r && OnlyListed(r, map[], db, fs)
    requires 0 <= k < |r[seqid]| && r[seqid][k].feature == f && start <= r[seqid][k].begin < end
    requires f in db.features && db.features[f].isPlusStrand == isPlusStrand
    ensures f in InWindow(db, fs, seqid, start, end, isPlusStrand)
  {
    assert EntryFromList(db, fs, seqid, r[seqid][k]);
    var j :| 0 <= j < |fs| && SeqidOf(db, fs[j]) == seqid && r[seqid][k] == EntryOf(db, fs[j]);
    assert fs[j] == f;
  }

  /** A feature in the window has an entry the window query finds. */
  lemma InWindowIsFound(r: Trees, db: Db, fs: seq<FeatureId>, seqid: string, start: int, end: int,
                        isPlusStrand: bool, f: FeatureId)
    requires Valid(db) && AllFeatures(db, fs) && (forall j | 0 <= j < |fs| :: Registered(r, db, fs[j]))
    requires f in InWindow(db, fs, seqid, start, end, isPlusStrand)
    ensures seqid in r
    ensures exists k :: 0 <= k < |r[seqid]| && r[seqid][k].feature == f && start <= r[seqid][k].begin < end
  {
    var j :| 0 <= j < |fs| && fs[j] == f && SeqidOf(db, fs[j]) == seqid
             && start <= db.features[f].start < end && db.features[f].isPlusStrand == isPlusStrand;
    assert Registered(r, db, fs[j]);
    var k :| 0 <= k < |r[seqid]| && r[seqid][k] == EntryOf(db, f);
    assert r[seqid][k].feature == f && start <= r[seqid][k].begin < end;
  }

  /** The window query on such trees: exactly the features of `fs` in the window. */
  lemma LookupFindsWindow(r: Trees, db: Db, fs: seq<FeatureId>, seqid: string, start: int, end: int,
                          isPlusStrand: bool)
    requires Valid(db) && AllFeatures(db, fs) && IndexesExactly(r, db, fs)
    ensures var found := GetFeaturesFromSlice(r, db, seqid, start, end, isPlusStrand);
      && (found.Failure? <==> fs == [])
      && (found.Success? ==> found.value == InWindow(db, fs, seqid, start, end, isPlusStrand))
  {
    if fs != [] {
      assert SomeOn(db, fs, SeqidOf(db, fs[0]));
    }
    var found := GetFeaturesFromSlice(r, db, seqid, start, end, isPlusStrand);
    var want := InWindow(db, fs, seqid, start, end, isPlusStrand);
    if found.Success? && seqid in r {
      forall f ensures f in found.value <==> f in want {
        if f in found.value {
          var k :| 0 <= k < |r[seqid]| && r[seqid][k].feature == f && start <= r[seqid][k].begin < end
                   && db.features[f].isPlusStrand == isPlusStrand;
          FoundIsInWindow(r, db, fs, seqid, start, end, isPlusStrand, f, k);
        }
        if f in want {
          InWindowIsFound(r, db, fs, seqid, start, end, isPlusStrand, f);
        }
      }
    }
  }

  /**
   * The lookup after fill_intervaltrees from empty trees finds exactly the loaded features
   * of the requested sequence and strand whose position lies in [start, end), and raises the
   * unfilled-trees error exactly when no feature was loaded.
   */
  lemma FilledLookupFindsWindow(db: Db, fs: seq<FeatureId>, seqid: string, start: int, end: int, isPlusStrand: bool)
    requires Valid(db) && AllFeatures(db, fs)
    ensures TreesValid(LoadAll(map[], db, fs), db)
    ensures var r := GetFeaturesFromSlice(LoadAll(map[], db, fs), db, seqid, start, end, isPlusStrand);
      && (r.Failure? <==> fs == [])
      && (r.Success? ==> r.value == InWindow(db, fs, seqid, start, end, isPlusStrand))
  {
    LoadAllIndexesExactly(db, fs);
    LookupFindsWindow(LoadAll(map[], db, fs), db, fs, seqid, start, end, isPlusStrand);
  }

  // ---------------------------------------------------------------------------------
  // The two strand passes (SliceController.slice_annotations)
  // ---------------------------------------------------------------------------------

  /** The slice list in reverse order, as the minus-strand pass visits it. */
  function Reversed<T>(xs: seq<T>): (r: seq<T>)
    ensures |r| == |xs|
    ensures forall k | 0 <= k < |xs| :: r[k] == xs[|xs| - 1 - k]
  {
    if xs == [] then [] else [xs[|xs| - 1]] + Reversed(xs[..|xs| - 1])
  }

  /**
   * What a pass keeps of the store: it stays consistent, loses no feature, and never
   * re-assigns an existing piece to another transcript.
   */
  predicate Grows(db: Db, db': Db) {
    && Valid(db')
    && db.features.Keys <= db'.features.Keys
    && (forall p | p in db.pieces :: p in db'.pieces && db'.pieces[p] == db.pieces[p])
  }

  /** Executing the queue between slices keeps the store consistent and the trees valid. */
  lemma ExecuteKeeps(db: Db, trees: Trees, ps: seq<PieceSwap>, cs: seq<CoordSwap>)
    requires Valid(db) && TreesValid(trees, db) && CoordSwapsValid(db, cs)
    ensures var r := ExecuteSoFar(db, ps, cs);
      && Grows(db, r) && TreesValid(trees, r)
      && r.coordinates == db.coordinates && r.nextCoordinate == db.nextCoordinate
  {
    ExecuteSoFarValid(db, ps, cs);
  }

  /** Coordinate row `id` holds `c`. */
  predicate CoordinateRow(db: Db, id: CoordId, c: Coordinate) {
    id in db.coordinates && db.coordinates[id] == c
  }

  /** The coordinate rows a pass over `slices` adds: the next ids, one per slice, in order. */
  predicate AddsCoordinates(db: Db, db': Db, slices: seq<Coordinate>) {
    && db'.nextCoordinate == db.nextCoordinate + |slices|
    && (forall c | c in db.coordinates :: CoordinateRow(db', c, db.coordinates[c]))
    && (forall k | 0 <= k < |slices| :: CoordinateRow(db', db.nextCoordinate + k, slices[k]))
  }

  /** Two passes one after another add the coordinates of both lists, the first list's first. */
  lemma AddsCoordinatesConcat(db: Db, db1: Db, db2: Db, xs: seq<Coordinate>, ys: seq<Coordinate>)
    requires AddsCoordinates(db, db1, xs) && AddsCoordinates(db1, db2, ys)
    ensures AddsCoordinates(db, db2, xs + ys)
  {
    var zs := xs + ys;
    forall k | 0 <= k < |zs| ensures CoordinateRow(db2, db.nextCoordinate + k, zs[k]) {
      if k >= |xs| {
        assert db.nextCoordinate + k == db1.nextCoordinate + (k - |xs|);
        assert zs[k] == ys[k - |xs|];
      } else {
        assert zs[k] == xs[k];
      }
    }
  }

  // ---------------------------------------------------------------------------------
  // The slicing passes as values (SliceController._slice_annotations_1way)
  // ---------------------------------------------------------------------------------

  /** `xs` lists the elements of `s`, each once. */
  predicate Enumerates(xs: seq<nat>, s: set<nat>) {
    && (forall x | x in xs :: x in s)
    && (forall x | x in s :: x in xs)
    && (forall i, j | 0 <= i < j < |xs| :: xs[i] != xs[j])
  }

  /** Iterating a Python set of super-loci: some order in which each element comes once. */
  ghost predicate EnumeratesSets(order: set<SuperLocusId> -> seq<SuperLocusId>) {
    forall sls :: Enumerates(order(sls), sls)
  }

  /** `transcriptsOf(sl)` lists the transcripts the store's transcript table gives super-locus `sl`. */
  ghost predicate ListsTranscripts(db: Db, transcriptsOf: SuperLocusId -> seq<TranscribedId>) {
    forall sl :: Enumerates(transcriptsOf(sl), set t | t in db.transcribeds && db.transcribeds[t] == sl)
  }

  /** Between slices: a consistent store, trees over its features, and nothing queued. */
  predicate Settled(s: PassState) {
    Valid(s.db) && TreesValid(s.trees, s.db) && s.pieceSwaps == [] && s.coordSwaps == []
  }

  /** CoreQueue.execute_so_far at the end of a slice: the pending swaps applied, the queue emptied. */
  function Flush(s: PassState): (r: PassState)
    requires Valid(s.db) && TreesValid(s.trees, s.db) && CoordSwapsValid(s.db, s.coordSwaps)
    ensures Settled(r) && Grows(s.db, r.db) && r.trees == s.trees && r.db.pieces == s.db.pieces
    ensures r.db.coordinates == s.db.coordinates && r.db.nextCoordinate == s.db.nextCoordinate
  {
    ExecuteKeeps(s.db, s.trees, s.pieceSwaps, s.coordSwaps);
    ExecuteSoFarValid(s.db, s.pieceSwaps, s.coordSwaps);
    PassState(ExecuteSoFar(s.db, s.pieceSwaps, s.coordSwaps), s.trees, [], [])
  }

  /**
   * The loop over the super-loci overlapping a slice, in the order `sls`: modify4slice on
   * the transcripts `transcriptsOf` lists for each, up to the first error, which names a
   * transcript of one of them.
   */
  function TrimSuperLoci(s: PassState, sls: seq<SuperLocusId>, sliceId: CoordId, isPlusStrand: bool,
                         transitions: (Db, TranscribedId) -> seq<Step>,
                         transcriptsOf: SuperLocusId -> seq<TranscribedId>): (r: Result<PassState, SliceError>)
    requires PassInv(s, sliceId) && TransitionsReady(transitions)
    ensures r.Success? ==>
      && PassInv(r.value, sliceId)
      && s.db.features.Keys <= r.value.db.features.Keys
      && r.value.db.coordinates == s.db.coordinates && r.value.db.nextCoordinate == s.db.nextCoordinate
    ensures r.Failure? ==>
      exists k, j :: 0 <= k < |sls| && 0 <= j < |transcriptsOf(sls[k])|
        && r.error in {BorderSplitFailed(transcriptsOf(sls[k])[j]), OverlapMissed(transcriptsOf(sls[k])[j])}
    decreases |sls|
  {
    if sls == [] then Success(s)
    else
      var init := sls[..|sls| - 1];
      var last := sls[|sls| - 1];
      var prev := TrimSuperLoci(s, init, sliceId, isPlusStrand, transitions, transcriptsOf);
      if prev.Failure? then
        var k, j :| 0 <= k < |init| && 0 <= j < |transcriptsOf(init[k])|
          && prev.error in {BorderSplitFailed(transcriptsOf(init[k])[j]), OverlapMissed(transcriptsOf(init[k])[j])};
        assert init[k] == sls[k];
        prev
      else
        var r := Modify4Slice(prev.value, transcriptsOf(last), sliceId, isPlusStrand, transitions);
        if r.Failure? then
          var j :| 0 <= j < |transcriptsOf(last)|
            && r.error in {BorderSplitFailed(transcriptsOf(last)[j]), OverlapMissed(transcriptsOf(last)[j])};
          assert sls[|sls| - 1] == last;
          r
        else r
  }

  /**
   * One slice of _slice_annotations_1way: add its coordinate row, look up the super-loci
   * owning a same-strand feature in the slice, trim them in the order `order` gives that
   * set, and execute the queue. ValueError exactly when the trees were never filled.
   */
  function SliceOne(s: PassState, c: Coordinate, isPlusStrand: bool, transitions: (Db, TranscribedId) -> seq<Step>,
                    transcriptsOf: SuperLocusId -> seq<TranscribedId>,
                    order: set<SuperLocusId> -> seq<SuperLocusId>): (r: Result<PassState, SliceError>)
    requires Settled(s) && TransitionsReady(transitions)
    ensures r.Success? ==> Settled(r.value)
    ensures r == Failure(NoIntervalTreesFilled) <==> s.trees == map[]
  {
    var (db1, sliceId) := AddCoordinate(s.db, c);
    var found := GetFeaturesFromSlice(s.trees, db1, c.seqid, c.start, c.end, isPlusStrand);
    if found.Failure? then Failure(NoIntervalTreesFilled)
    else
      var r := TrimSuperLoci(PassState(db1, s.trees, [], []), order(SuperLociOf(db1, found.value)), sliceId,
                             isPlusStrand, transitions, transcriptsOf);
      if r.Failure? then r else Success(Flush(r.value))
  }

  /** _slice_annotations_1way: the slices in the order given, each on the pass's strand, up to the first error. */
  function SliceOneWay(s: PassState, slices: seq<Coordinate>, isPlusStrand: bool,
                       transitions: (Db, TranscribedId) -> seq<Step>,
                       transcriptsOf: SuperLocusId -> seq<TranscribedId>,
                       order: set<SuperLocusId> -> seq<SuperLocusId>): (r: Result<PassState, SliceError>)
    requires Settled(s) && TransitionsReady(transitions)
    ensures r.Success? ==> Settled(r.value)
    decreases |slices|
  {
    if slices == [] then Success(s)
    else
      var prev := SliceOneWay(s, slices[..|slices| - 1], isPlusStrand, transitions, transcriptsOf, order);
      if prev.Failure? then prev
      else SliceOne(prev.value, slices[|slices| - 1], isPlusStrand, transitions, transcriptsOf, order)
  }

  /** slice_annotations: the plus-strand pass over the slices, then the minus-strand pass over them reversed. */
  function SliceAnnotations(s: PassState, slices: seq<Coordinate>, transitions: (Db, TranscribedId) -> seq<Step>,
                            transcriptsOf: SuperLocusId -> seq<TranscribedId>,
                            order: set<SuperLocusId> -> seq<SuperLocusId>): (r: Result<PassState, SliceError>)
    requires Settled(s) && TransitionsReady(transitions)
    ensures r.Success? ==> Settled(r.value)
  {
    var plus := SliceOneWay(s, slices, true, transitions, transcriptsOf, order);
    if plus.Failure? then plus
    else SliceOneWay(plus.value, Reversed(slices), false, transitions, transcriptsOf, order)
  }

  /** Once an error stops the loop over a prefix of the super-loci, it is the loop's result. */
  lemma {:induction false} TrimSuperLociStopsAtError(s: PassState, sls: seq<SuperLocusId>, i: nat, sliceId: CoordId,
                                                     isPlusStrand: bool, transitions: (Db, TranscribedId) -> seq<Step>,
                                                     transcriptsOf: SuperLocusId -> seq<TranscribedId>)
    requires PassInv(s, sliceId) && TransitionsReady(transitions) && i <= |sls|
    requires TrimSuperLoci(s, sls[..i], sliceId, isPlusStrand, transitions, transcriptsOf).Failure?
    ensures TrimSuperLoci(s, sls, sliceId, isPlusStrand, transitions, transcriptsOf)
         == TrimSuperLoci(s, sls[..i], sliceId, isPlusStrand, transitions, transcriptsOf)
    decreases |sls|
  {
    if i < |sls| {
      var init := sls[..|sls| - 1];
      assert init[..i] == sls[..i];
      TrimSuperLociStopsAtError(s, init, i, sliceId, isPlusStrand, transitions, transcriptsOf);
    } else {
      assert sls[..i] == sls;
    }
  }

  /** Once a slice fails, the pass ends with that error: later slices are not processed. */
  lemma {:induction false} SliceOneWayStopsAtError(s: PassState, slices: seq<Coordinate>, i: nat, isPlusStrand: bool,
                                                   transitions: (Db, TranscribedId) -> seq<Step>,
                                                   transcriptsOf: SuperLocusId -> seq<TranscribedId>,
                                                   order: set<SuperLocusId> -> seq<SuperLocusId>)
    requires Settled(s) && TransitionsReady(transitions) && i <= |slices|
    requires SliceOneWay(s, slices[..i], isPlusStrand, transitions, transcriptsOf, order).Failure?
    ensures SliceOneWay(s, slices, isPlusStrand, transitions, transcriptsOf, order)
         == SliceOneWay(s, slices[..i], isPlusStrand, transitions, transcriptsOf, order)
    decreases |slices|
  {
    if i < |slices| {
      var init := slices[..|slices| - 1];
      assert init[..i] == slices[..i];
      SliceOneWayStopsAtError(s, init, i, isPlusStrand, transitions, transcriptsOf, order);
    } else {
      assert slices[..i] == slices;
    }
  }

  /**
   * The pieces after `s'` relative to `s`, for the super-loci `sls`: old pieces keep their
   * owner, and each new one belongs to a transcript listed for one of `sls`.
   */
  predicate PiecesOwnedWithin(s: PassState, s': PassState, sls: seq<SuperLocusId>,
                              transcriptsOf: SuperLocusId -> seq<TranscribedId>) {
    && (forall p | p in s.db.pieces :: p in s'.db.pieces && s'.db.pieces[p] == s.db.pieces[p])
    && (forall p | p in s'.db.pieces && p !in s.db.pieces ::
          exists k :: 0 <= k < |sls| && s'.db.pieces[p] in transcriptsOf(sls[k]))
  }

  /** Trimming the super-loci of a slice makes pieces only for their transcripts and keeps the old ones. */
  lemma {:induction false} TrimSuperLociPieces(s: PassState, sls: seq<SuperLocusId>, sliceId: CoordId,
                                               isPlusStrand: bool, transitions: (Db, TranscribedId) -> seq<Step>,
                                               transcriptsOf: SuperLocusId -> seq<TranscribedId>)
    requires PassInv(s, sliceId) && TransitionsReady(transitions)
    ensures var r := TrimSuperLoci(s, sls, sliceId, isPlusStrand, transitions, transcriptsOf);
      r.Success? ==> PiecesOwnedWithin(s, r.value, sls, transcriptsOf)
    decreases |sls|
  {
    if sls != [] {
      var init := sls[..|sls| - 1];
      var last := sls[|sls| - 1];
      TrimSuperLociPieces(s, init, sliceId, isPlusStrand, transitions, transcriptsOf);
      var prev := TrimSuperLoci(s, init, sliceId, isPlusStrand, transitions, transcriptsOf);
      if prev.Success? {
        Modify4SlicePieces(prev.value, transcriptsOf(last), sliceId, isPlusStrand, transitions);
        var r := Modify4Slice(prev.value, transcriptsOf(last), sliceId, isPlusStrand, transitions);
        if r.Success? {
          forall p | p in r.value.db.pieces && p !in s.db.pieces
            ensures exists k :: 0 <= k < |sls| && r.value.db.pieces[p] in transcriptsOf(sls[k])
          {
            if p in prev.value.db.pieces {
              var k :| 0 <= k < |init| && prev.value.db.pieces[p] in transcriptsOf(init[k]);
              assert init[k] == sls[k];
            } else {
              var j :| 0 <= j < |transcriptsOf(last)| && r.value.db.pieces[p] == transcriptsOf(last)[j];
              assert sls[|sls| - 1] == last;
            }
          }
        }
      }
    }
  }

  /**
   * One slice keeps the store consistent, loses no feature, keeps every piece's owner, and
   * adds exactly the slice's coordinate row under the next id.
   */
  lemma SliceOneGrows(s: PassState, c: Coordinate, isPlusStrand: bool, transitions: (Db, TranscribedId) -> seq<Step>,
                      transcriptsOf: SuperLocusId -> seq<TranscribedId>, order: set<SuperLocusId> -> seq<SuperLocusId>)
    requires Settled(s) && TransitionsReady(transitions)
    ensures var r := SliceOne(s, c, isPlusStrand, transitions, transcriptsOf, order);
      r.Success? ==> Grows(s.db, r.value.db) && AddsCoordinates(s.db, r.value.db, [c])
  {
    var (db1, sliceId) := AddCoordinate(s.db, c);
    var found := GetFeaturesFromSlice(s.trees, db1, c.seqid, c.start, c.end, isPlusStrand);
    if found.Success? {
      var s1 := PassState(db1, s.trees, [], []);
      var sls := order(SuperLociOf(db1, found.value));
      TrimSuperLociPieces(s1, sls, sliceId, isPlusStrand, transitions, transcriptsOf);
      var r := TrimSuperLoci(s1, sls, sliceId, isPlusStrand, transitions, transcriptsOf);
      if r.Success? {
        var f := Flush(r.value);
        assert CoordinateRow(f.db, s.db.nextCoordinate + 0, [c][0]);
      }
    }
  }

  /** Super-locus `sl` owns a feature of the pass's strand whose tree entry lies in the slice. */
  predicate FoundSuperLocus(s: PassState, c: Coordinate, isPlusStrand: bool, sl: SuperLocusId) {
    && c.seqid in s.trees
    && exists k :: 0 <= k < |s.trees[c.seqid]| && c.start <= s.trees[c.seqid][k].begin < c.end
         && s.trees[c.seqid][k].feature in s.db.features
         && s.db.features[s.trees[c.seqid][k].feature].isPlusStrand == isPlusStrand
         && s.db.features[s.trees[c.seqid][k].feature].superLocus == sl
  }

  /** A transcript listed for a super-locus the lookup returned belongs to a found super-locus. */
  lemma ListedTranscriptIsFound(s: PassState, c: Coordinate, isPlusStrand: bool, db1: Db, found: set<FeatureId>,
                                sls: seq<SuperLocusId>, transcriptsOf: SuperLocusId -> seq<TranscribedId>,
                                k: nat, t: TranscribedId)
    requires TreesValid(s.trees, s.db) && db1.features == s.db.features && found <= db1.features.Keys
    requires forall f | f in found ::
      && c.seqid in s.trees
      && exists e :: 0 <= e < |s.trees[c.seqid]| && s.trees[c.seqid][e].feature == f
           && c.start <= s.trees[c.seqid][e].begin < c.end && db1.features[f].isPlusStrand == isPlusStrand
    requires Enumerates(sls, SuperLociOf(db1, found)) && ListsTranscripts(s.db, transcriptsOf)
    requires k < |sls| && t in transcriptsOf(sls[k])
    ensures t in s.db.transcribeds && FoundSuperLocus(s, c, isPlusStrand, s.db.transcribeds[t])
  {
    assert Enumerates(transcriptsOf(sls[k]), set t | t in s.db.transcribeds && s.db.transcribeds[t] == sls[k]);
    assert sls[k] in SuperLociOf(db1, found);
    var f :| f in found && db1.features[f].superLocus == sls[k];
    var e :| 0 <= e < |s.trees[c.seqid]| && s.trees[c.seqid][e].feature == f
             && c.start <= s.trees[c.seqid][e].begin < c.end && db1.features[f].isPlusStrand == isPlusStrand;
  }

  /**
   * A slice trims only the super-loci the lookup found: every piece it creates belongs to a
   * transcript whose super-locus owns a same-strand feature with its position in the slice.
   */
  lemma SliceOneTrimsFoundSuperLoci(s: PassState, c: Coordinate, isPlusStrand: bool,
                                    transitions: (Db, TranscribedId) -> seq<Step>,
                                    transcriptsOf: SuperLocusId -> seq<TranscribedId>,
                                    order: set<SuperLocusId> -> seq<SuperLocusId>)
    requires Settled(s) && TransitionsReady(transitions)
    requires EnumeratesSets(order) && ListsTranscripts(s.db, transcriptsOf)
    ensures var r := SliceOne(s, c, isPlusStrand, transitions, transcriptsOf, order);
      r.Success? ==> forall p | p in r.value.db.pieces && p !in s.db.pieces ::
        && r.value.db.pieces[p] in s.db.transcribeds
        && FoundSuperLocus(s, c, isPlusStrand, s.db.transcribeds[r.value.db.pieces[p]])
  {
    var (db1, sliceId) := AddCoordinate(s.db, c);
    var found := GetFeaturesFromSlice(s.trees, db1, c.seqid, c.start, c.end, isPlusStrand);
    if found.Success? {
      var s1 := PassState(db1, s.trees, [], []);
      var sls := order(SuperLociOf(db1, found.value));
      TrimSuperLociPieces(s1, sls, sliceId, isPlusStrand, transitions, transcriptsOf);
      var r := TrimSuperLoci(s1, sls, sliceId, isPlusStrand, transitions, transcriptsOf);
      if r.Success? {
        var fl := Flush(r.value);
        assert SliceOne(s, c, isPlusStrand, transitions, transcriptsOf, order) == Success(fl);
        forall p | p in fl.db.pieces && p !in s.db.pieces
          ensures fl.db.pieces[p] in s.db.transcribeds
          ensures FoundSuperLocus(s, c, isPlusStrand, s.db.transcribeds[fl.db.pieces[p]])
        {
          var k :| 0 <= k < |sls| && fl.db.pieces[p] in transcriptsOf(sls[k]);
          ListedTranscriptIsFound(s, c, isPlusStrand, db1, found.value, sls, transcriptsOf, k, fl.db.pieces[p]);
        }
      }
    }
  }

  /**
   * A pass keeps the store consistent, loses no feature, keeps every piece's owner, and
   * gives the k-th slice the k-th new coordinate row.
   */
  lemma {:induction false} SliceOneWayGrows(s: PassState, slices: seq<Coordinate>, isPlusStrand: bool,
                                            transitions: (Db, TranscribedId) -> seq<Step>,
                                            transcriptsOf: SuperLocusId -> seq<TranscribedId>,
                                            order: set<SuperLocusId> -> seq<SuperLocusId>)
    requires Settled(s) && TransitionsReady(transitions)
    ensures var r := SliceOneWay(s, slices, isPlusStrand, transitions, transcriptsOf, order);
      r.Success? ==> Grows(s.db, r.value.db) && AddsCoordinates(s.db, r.value.db, slices)
    decreases |slices|
  {
    if slices != [] {
      var init := slices[..|slices| - 1];
      var last := slices[|slices| - 1];
      SliceOneWayGrows(s, init, isPlusStrand, transitions, transcriptsOf, order);
      var prev := SliceOneWay(s, init, isPlusStrand, transitions, transcriptsOf, order);
      if prev.Success? {
        SliceOneGrows(prev.value, last, isPlusStrand, transitions, transcriptsOf, order);
        var r := SliceOne(prev.value, last, isPlusStrand, transitions, transcriptsOf, order);
        GrowsStep(s.db, prev.value.db, r, slices);
      }
    }
  }

  /** The inductive step of SliceOneWayGrows, on the databases alone. */
  lemma GrowsStep(db: Db, db1: Db, r: Result<PassState, SliceError>, slices: seq<Coordinate>)
    requires slices != []
    requires Grows(db, db1) && AddsCoordinates(db, db1, slices[..|slices| - 1])
    requires r.Success? ==> Grows(db1, r.value.db) && AddsCoordinates(db1, r.value.db, [slices[|slices| - 1]])
    ensures r.Success? ==> Grows(db, r.value.db) && AddsCoordinates(db, r.value.db, slices)
  {
    if r.Success? {
      AddsCoordinatesConcat(db, db1, r.value.db, slices[..|slices| - 1], [slices[|slices| - 1]]);
      assert slices[..|slices| - 1] + [slices[|slices| - 1]] == slices;
    }
  }

  /** A pass over at least one slice fails with the lookup's ValueError when the trees were never filled. */
  lemma {:induction false} SliceOneWayNeedsTrees(s: PassState, slices: seq<Coordinate>, isPlusStrand: bool,
                                                 transitions: (Db, TranscribedId) -> seq<Step>,
                                                 transcriptsOf: SuperLocusId -> seq<TranscribedId>,
                                                 order: set<SuperLocusId> -> seq<SuperLocusId>)
    requires Settled(s) && TransitionsReady(transitions) && s.trees == map[] && slices != []
    ensures SliceOneWay(s, slices, isPlusStrand, transitions, transcriptsOf, order) == Failure(NoIntervalTreesFilled)
    decreases |slices|
  {
    var init := slices[..|slices| - 1];
    if init != [] {
      SliceOneWayNeedsTrees(s, init, isPlusStrand, transitions, transcriptsOf, order);
    }
  }

  /**
   * slice_annotations keeps the store consistent, loses no feature, keeps every piece's
   * owner, and adds one coordinate row per slice of the plus pass and then one per slice of
   * the minus pass, whose slices come in reverse order.
   */
  lemma SliceAnnotationsGrows(s: PassState, slices: seq<Coordinate>, transitions: (Db, TranscribedId) -> seq<Step>,
                              transcriptsOf: SuperLocusId -> seq<TranscribedId>,
                              order: set<SuperLocusId> -> seq<SuperLocusId>)
    requires Settled(s) && TransitionsReady(transitions)
    ensures var r := SliceAnnotations(s, slices, transitions, transcriptsOf, order);
      r.Success? ==> Grows(s.db, r.value.db) && AddsCoordinates(s.db, r.value.db, slices + Reversed(slices))
  {
    SliceOneWayGrows(s, slices, true, transitions, transcriptsOf, order);
    var plus := SliceOneWay(s, slices, true, transitions, transcriptsOf, order);
    if plus.Success? {
      SliceOneWayGrows(plus.value, Reversed(slices), false, transitions, transcriptsOf, order);
      var r := SliceOneWay(plus.value, Reversed(slices), false, transitions, transcriptsOf, order);
      if r.Success? {
        AddsCoordinatesConcat(s.db, plus.value.db, r.value.db, slices, Reversed(slices));
      }
    }
  }

  /** One unit of slicing work: a slice, and the strand of the pass that visits it. */
  datatype Job = Job(slice: Coordinate, isPlusStrand: bool)

  /** The slices of one pass, each tagged with the pass's strand. */
  function OnStrand(slices: seq<Coordinate>, isPlusStrand: bool): (r: seq<Job>)
    ensures |r| == |slices|
    ensures forall k | 0 <= k < |r| :: r[k] == Job(slices[k], isPlusStrand)
  {
    seq(|slices|, k requires 0 <= k < |slices| => Job(slices[k], isPlusStrand))
  }

  /**
   * The work of slice_annotations: with n slices, job k < n is slice k on the plus strand,
   * and job n + k is slice n - 1 - k on the minus strand.
   */
  function SliceJobs(slices: seq<Coordinate>): (r: seq<Job>)
    ensures |r| == 2 * |slices|
    ensures forall k | 0 <= k < |slices| :: r[k] == Job(slices[k], true)
    ensures forall k | |slices| <= k < |r| :: r[k] == Job(slices[|r| - 1 - k], false)
  {
    OnStrand(slices, true) + OnStrand(Reversed(slices), false)
  }

  /** A reference run: one slice step per job, in order, up to the first error. */
  function RunJobs(s: PassState, jobs: seq<Job>, transitions: (Db, TranscribedId) -> seq<Step>,
                   transcriptsOf: SuperLocusId -> seq<TranscribedId>,
                   order: set<SuperLocusId> -> seq<SuperLocusId>): (r: Result<PassState, SliceError>)
    requires Settled(s) && TransitionsReady(transitions)
    ensures r.Success? ==> Settled(r.value)
    decreases |jobs|
  {
    if jobs == [] then Success(s)
    else
      var prev := RunJobs(s, jobs[..|jobs| - 1], transitions, transcriptsOf, order);
      var job := jobs[|jobs| - 1];
      if prev.Failure? then prev
      else SliceOne(prev.value, job.slice, job.isPlusStrand, transitions, transcriptsOf, order)
  }

  /** Running two job lists one after the other is running their concatenation. */
  lemma {:induction false} RunJobsAppend(s: PassState, xs: seq<Job>, ys: seq<Job>,
                                         transitions: (Db, TranscribedId) -> seq<Step>,
                                         transcriptsOf: SuperLocusId -> seq<TranscribedId>,
                                         order: set<SuperLocusId> -> seq<SuperLocusId>)
    requires Settled(s) && TransitionsReady(transitions)
    ensures var first := RunJobs(s, xs, transitions, transcriptsOf, order);
      RunJobs(s, xs + ys, transitions, transcriptsOf, order)
      == if first.Failure? then first else RunJobs(first.value, ys, transitions, transcriptsOf, order)
    decreases |ys|
  {
    if ys == [] {
      assert xs + ys == xs;
    } else {
      var init := ys[..|ys| - 1];
      RunJobsAppend(s, xs, init, transitions, transcriptsOf, order);
      assert (xs + ys)[..|xs + ys| - 1] == xs + init;
      var first := RunJobs(s, xs, transitions, transcriptsOf, order);
      if first.Failure? {
        assert RunJobs(s, xs + init, transitions, transcriptsOf, order) == first;
      }
    }
  }

  /** A one-strand pass is the run of its slices tagged with that strand. */
  lemma {:induction false} SliceOneWayRunsJobs(s: PassState, slices: seq<Coordinate>, isPlusStrand: bool,
                                               transitions: (Db, TranscribedId) -> seq<Step>,
                                               transcriptsOf: SuperLocusId -> seq<TranscribedId>,
                                               order: set<SuperLocusId> -> seq<SuperLocusId>)
    requires Settled(s) && TransitionsReady(transitions)
    ensures SliceOneWay(s, slices, isPlusStrand, transitions, transcriptsOf, order)
         == RunJobs(s, OnStrand(slices, isPlusStrand), transitions, transcriptsOf, order)
    decreases |slices|
  {
    if slices != [] {
      var init := slices[..|slices| - 1];
      SliceOneWayRunsJobs(s, init, isPlusStrand, transitions, transcriptsOf, order);
      assert OnStrand(slices, isPlusStrand)[..|slices| - 1] == OnStrand(init, isPlusStrand);
    }
  }

  /**
   * slice_annotations does exactly the work of SliceJobs: every slice on the plus strand in
   * the order given, then every slice on the minus strand in reverse order, each slice step
   * starting from the state the previous one left, up to the first error.
   */
  lemma SliceAnnotationsRunsJobs(s: PassState, slices: seq<Coordinate>, transitions: (Db, TranscribedId) -> seq<Step>,
                                 transcriptsOf: SuperLocusId -> seq<TranscribedId>,
                                 order: set<SuperLocusId> -> seq<SuperLocusId>)
    requires Settled(s) && TransitionsReady(transitions)
    ensures SliceAnnotations(s, slices, transitions, transcriptsOf, order)
         == RunJobs(s, SliceJobs(slices), transitions, transcriptsOf, order)
  {
    SliceOneWayRunsJobs(s, slices, true, transitions, transcriptsOf, order);
    RunJobsAppend(s, OnStrand(slices, true), OnStrand(Reversed(slices), false), transitions, transcriptsOf, order);
    var plus := SliceOneWay(s, slices, true, transitions, transcriptsOf, order);
    if plus.Success? {
      SliceOneWayRunsJobs(plus.value, Reversed(slices), false, transitions, transcriptsOf, order);
    }
  }

  // ---------------------------------------------------------------------------------
  // The double check as written, on a whole super-locus
  // ---------------------------------------------------------------------------------

  /**
   * Super-locus 0 with two transcripts on chr1 [0, 5000): transcript t has piece t, which
   * holds the one plus-strand feature t; feature 0 is [1500, 1600), feature 1 is [2000, 2500).
   */
  function SiblingDb(): Db {
    Db(map[0 := Coordinate("chr1", 0, 5000)],
       map[0 := Feature(1500, 1600, true, 0, true, true, None, 0),
           1 := Feature(2000, 2500, true, 0, true, true, None, 0)],
       map[0 := {0}, 1 := {1}], map[0 := 0, 1 := 1], map[0 := 0, 1 := 0], 1, 2, 2)
  }

  /** The trees fill_intervaltrees makes from the two features. */
  function SiblingTrees(): Trees {
    map["chr1" := [Entry(1500, 1501, 0), Entry(2000, 2001, 1)]]
  }

  /** Each transcript's walk is its one feature, on its one piece. */
  function SiblingTransitions(): (Db, TranscribedId) -> seq<Step> {
    (db: Db, t: TranscribedId) => if t in db.features then [Step([t], t)] else []
  }

  /** The transcripts of super-locus 0, as the transcript table lists them. */
  function SiblingTranscripts(): SuperLocusId -> seq<TranscribedId> {
    (sl: SuperLocusId) => if sl == 0 then [0, 1] else []
  }

  /** The first two elements of a sequence that has them. */
  lemma FirstTwo(xs: seq<nat>)
    requires |xs| >= 2
    ensures xs[0] in xs && xs[1] in xs && xs == [xs[0], xs[1]] + xs[2..]
  {
  }

  /** The only iteration order of a one-element set. */
  lemma EnumeratesSingleton(xs: seq<nat>, x: nat)
    requires Enumerates(xs, {x})
    ensures xs == [x]
  {
    assert x in xs;
    assert xs[0] in xs;
    if |xs| >= 2 {
      FirstTwo(xs);
      assert false;
    }
  }

  /** The state after transcript 0 of the counterexample is trimmed: feature 0 queued onto the slice. */
  lemma SiblingFirstTranscript(s1: PassState)
    requires s1 == PassState(AddCoordinate(SiblingDb(), Coordinate("chr1", 1000, 2000)).0, SiblingTrees(), [], [])
    requires PassInv(s1, 1) && TransitionsReady(SiblingTransitions())
    ensures TrimTranscript(s1, 0, 1, true, SiblingTransitions()) == Success(s1.(coordSwaps := [CoordSwap(0, 1)]))
  {
    var steps := SiblingTransitions()(s1.db, 0);
    assert steps == [Step([0], 0)];
    assert steps[..0] == [];
    assert StepPosition(s1.db, steps[0], s1.db.coordinates[1], true) == Contained;
    var st := TrimmerStart(s1);
    assert Walk(st, 0, 1, true, steps) == TrimStep(st, 0, 1, true, steps[0]);
    assert CoordSwapsTo([0], 1) == [CoordSwap(0, 1)];
    assert Walk(st, 0, 1, true, steps) == st.(seen := true, coordSwaps := [CoordSwap(0, 1)]);
  }

  /**
   * Transcript 1 after transcript 0: its walk finds no overlap, the closed window holds its
   * feature's position 2000, so the code's double check fails, while the corrected one passes.
   */
  lemma SiblingSecondTranscript(s2: PassState)
    requires s2 == PassState(AddCoordinate(SiblingDb(), Coordinate("chr1", 1000, 2000)).0, SiblingTrees(), [],
                             [CoordSwap(0, 1)])
    requires PassInv(s2, 1) && TransitionsReady(SiblingTransitions())
    ensures TrimTranscript(s2, 1, 1, true, SiblingTransitions()) == Failure(OverlapMissed(1))
    ensures TrimTranscriptCorrected(s2, 1, 1, true, SiblingTransitions()) == Success(s2)
  {
    var steps := SiblingTransitions()(s2.db, 1);
    assert steps == [Step([1], 1)];
    assert steps[..0] == [];
    var slice := s2.db.coordinates[1];
    assert StepPosition(s2.db, steps[0], slice, true) == Downstream;
    UnseenStep(TrimmerStart(s2), 1, 1, true, steps[0]);
    assert Walk(TrimmerStart(s2), 1, 1, true, steps) == TrimmerStart(s2);
    assert InRecheckWindowAsWritten(slice, true, s2.db.features[1].start);
    assert 1 in s2.db.pieces && s2.db.pieces[1] == 1 && 1 in s2.db.features && 1 in s2.db.pieceLinks
        && 1 in s2.db.pieceLinks[1] && s2.db.features[1].isPlusStrand;
    assert !NoOverlapConfirmedAsWritten(s2.db, 1, slice, true);
    forall p, f | p in s2.db.pieces && s2.db.pieces[p] == 1 && f in s2.db.features && f in s2.db.pieceLinks
                  && p in s2.db.pieceLinks[f] && s2.db.features[f].isPlusStrand == true
      ensures !InRecheckWindow(slice, s2.db.features[f].start)
    {
      assert p == 1 && f == 1;
    }
  }

  /** The counterexample's walk meets what the pass assumes of transition walks. */
  lemma SiblingTransitionsReady()
    ensures TransitionsReady(SiblingTransitions())
  {
    forall db: Db, t: TranscribedId | Valid(db) ensures StepsReady(db, SiblingTransitions()(db, t)) {
      var steps := SiblingTransitions()(db, t);
      if t in db.features {
        assert steps == [Step([t], t)];
        assert StepReady(db, steps[0]);
      } else {
        assert steps == [];
      }
    }
  }

  /** The counterexample's transcript lists are the store's transcript table. */
  lemma SiblingListsTranscripts()
    ensures ListsTranscripts(SiblingDb(), SiblingTranscripts())
  {
    var db := SiblingDb();
    forall sl ensures Enumerates(SiblingTranscripts()(sl), set t | t in db.transcribeds && db.transcribeds[t] == sl) {
      var ts := set t | t in db.transcribeds && db.transcribeds[t] == sl;
      if sl == 0 {
        assert 0 in ts && 1 in ts;
      } else {
        assert ts == {};
      }
    }
  }

  /** The counterexample's trees are those fill_intervaltrees makes from features 0 and 1. */
  lemma SiblingTreesLoaded()
    ensures SiblingTrees() == LoadAll(map[], SiblingDb(), [0, 1])
  {
    var db := SiblingDb();
    assert [0, 1][..1] == [0] && [0][..0] == [];
    var t0 := LoadAll(map[], db, [0]);
    assert t0 == LoadToIntervalTree(map[], "chr1", 1500, 0);
    assert t0 == map["chr1" := [Entry(1500, 1501, 0)]];
    var t1 := LoadToIntervalTree(t0, "chr1", 2000, 1);
    assert LoadAll(map[], db, [0, 1]) == t1;
    assert t1.Keys == {"chr1"} && t1["chr1"] == [Entry(1500, 1501, 0), Entry(2000, 2001, 1)];
  }

  /** The counterexample's inputs meet what the pass assumes of them, and its trees are fill_intervaltrees'. */
  lemma SiblingInputs()
    ensures Settled(PassState(SiblingDb(), SiblingTrees(), [], []))
    ensures TransitionsReady(SiblingTransitions()) && ListsTranscripts(SiblingDb(), SiblingTranscripts())
    ensures SiblingTrees() == LoadAll(map[], SiblingDb(), [0, 1])
  {
    SiblingTransitionsReady();
    SiblingListsTranscripts();
    SiblingTreesLoaded();
  }

  /** The lookup over [1000, 2000) finds feature 0 only: the entry of feature 1 begins at the window's end. */
  lemma SiblingLookup(db: Db)
    requires db.features == SiblingDb().features
    ensures GetFeaturesFromSlice(SiblingTrees(), db, "chr1", 1000, 2000, true) == Success({0})
  {
    var trees := SiblingTrees();
    assert TreesValid(trees, db);
    var found := GetFeaturesFromSlice(trees, db, "chr1", 1000, 2000, true);
    assert "chr1" in trees;
    forall f ensures f in found.value <==> f == 0 {
      if f == 0 {
        assert trees["chr1"][0].feature == 0;
      }
    }
    assert found.value == {0};
  }

  /** The pass state after the slice's coordinate row is added holds the pass invariant for it. */
  lemma SiblingSliceState()
    ensures AddCoordinate(SiblingDb(), Coordinate("chr1", 1000, 2000)).1 == 1
    ensures PassInv(PassState(AddCoordinate(SiblingDb(), Coordinate("chr1", 1000, 2000)).0, SiblingTrees(), [], []), 1)
  {
    var db1 := AddCoordinate(SiblingDb(), Coordinate("chr1", 1000, 2000)).0;
    assert TreesValid(SiblingTrees(), db1);
  }

  /** modify4slice over two transcripts: the second is trimmed after the first, unless the first failed. */
  lemma Modify4SliceTwo(s: PassState, a: TranscribedId, b: TranscribedId, sliceId: CoordId, isPlusStrand: bool,
                        transitions: (Db, TranscribedId) -> seq<Step>)
    requires PassInv(s, sliceId) && TransitionsReady(transitions)
    ensures var first := TrimTranscript(s, a, sliceId, isPlusStrand, transitions);
      Modify4Slice(s, [a, b], sliceId, isPlusStrand, transitions)
      == if first.Failure? then first else TrimTranscript(first.value, b, sliceId, isPlusStrand, transitions)
  {
    var ts := [a, b];
    assert ts[..0] == [] && ts[..2] == ts;
    assert Modify4Slice(s, ts[..0], sliceId, isPlusStrand, transitions) == Success(s);
    Modify4SliceSnoc(s, ts, 0, sliceId, isPlusStrand, transitions);
    Modify4SliceSnoc(s, ts, 1, sliceId, isPlusStrand, transitions);
  }

  /** The transcripts of super-locus 0 on the slice: transcript 0 is trimmed, then transcript 1 fails the written check. */
  lemma SiblingModify(s1: PassState)
    requires s1 == PassState(AddCoordinate(SiblingDb(), Coordinate("chr1", 1000, 2000)).0, SiblingTrees(), [], [])
    requires PassInv(s1, 1) && TransitionsReady(SiblingTransitions())
    ensures Modify4Slice(s1, [0, 1], 1, true, SiblingTransitions()) == Failure(OverlapMissed(1))
  {
    SiblingFirstTranscript(s1);
    SiblingSecondTranscript(s1.(coordSwaps := [CoordSwap(0, 1)]));
    Modify4SliceTwo(s1, 0, 1, 1, true, SiblingTransitions());
  }

  /** Trimming the one super-locus the slice finds ends in transcript 1's failure. */
  lemma SiblingTrim(s1: PassState)
    requires s1 == PassState(AddCoordinate(SiblingDb(), Coordinate("chr1", 1000, 2000)).0, SiblingTrees(), [], [])
    requires PassInv(s1, 1) && TransitionsReady(SiblingTransitions())
    ensures TrimSuperLoci(s1, [0], 1, true, SiblingTransitions(), SiblingTranscripts()) == Failure(OverlapMissed(1))
  {
    SiblingModify(s1);
    assert SiblingTranscripts()(0) == [0, 1];
    assert [0][..0] == [];
    assert TrimSuperLoci(s1, [], 1, true, SiblingTransitions(), SiblingTranscripts()) == Success(s1);
  }

  /** Feature 0 belongs to super-locus 0. */
  lemma SiblingSuperLoci(db: Db)
    requires db.features == SiblingDb().features
    ensures SuperLociOf(db, {0}) == {0}
  {
    assert db.features[0].superLocus == 0;
  }

  /** The plus-strand slice [1000, 2000) of the counterexample ends in transcript 1's failure. */
  lemma SiblingSliceOne(order: set<SuperLocusId> -> seq<SuperLocusId>)
    requires order({0}) == [0]
    requires Settled(PassState(SiblingDb(), SiblingTrees(), [], [])) && TransitionsReady(SiblingTransitions())
    ensures SliceOne(PassState(SiblingDb(), SiblingTrees(), [], []), Coordinate("chr1", 1000, 2000), true,
                     SiblingTransitions(), SiblingTranscripts(), order)
         == Failure(OverlapMissed(1))
  {
    var db1 := AddCoordinate(SiblingDb(), Coordinate("chr1", 1000, 2000)).0;
    SiblingSliceState();
    SiblingLookup(db1);
    SiblingSuperLoci(db1);
    SiblingTrim(PassState(db1, SiblingTrees(), [], []));
  }

  /**
   * The double check as written aborts a slice a gene overlaps: on the plus pass over
   * [1000, 2000) the lookup finds feature 0 and with it super-locus 0; transcript 0 is
   * trimmed, transcript 1 (whose only feature starts at the slice's end) raises
   * NoFeaturesInSliceError, and the closed window then rejects it, so the slice ends in the
   * AssertionError, whatever order the set of super-loci is iterated in.
   */
  lemma SiblingTranscriptAborts(order: set<SuperLocusId> -> seq<SuperLocusId>)
    requires EnumeratesSets(order)
    ensures var s := PassState(SiblingDb(), SiblingTrees(), [], []);
      && Settled(s) && TransitionsReady(SiblingTransitions()) && ListsTranscripts(SiblingDb(), SiblingTranscripts())
      && SiblingTrees() == LoadAll(map[], SiblingDb(), [0, 1])
      && GetFeaturesFromSlice(s.trees, SiblingDb(), "chr1", 1000, 2000, true) == Success({0})
      && SliceOne(s, Coordinate("chr1", 1000, 2000), true, SiblingTransitions(), SiblingTranscripts(), order)
         == Failure(OverlapMissed(1))
  {
    SiblingInputs();
    SiblingLookup(SiblingDb());
    EnumeratesSingleton(order({0}), 0);
    SiblingSliceOne(order);
  }
}
