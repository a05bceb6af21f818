# Helixer core in Dafny

Helixer predicts gene structure base by base from genomic sequence. This project models
five parts of it and proves properties about them:

- **The annotation slicer** (`helixerprep/datas/annotations/slicer.py`). It crops the
  annotations of a genome to the slices its sequence is cut into. There is one pass per
  strand. For each slice the slicer:
  1. adds a coordinate row;
  2. finds the overlapping super-loci through per-sequence interval trees of feature
     positions;
  3. has one `TranscriptTrimmer` per transcript walk the transcript 5' to 3'. The walk
     classifies each group of aligned features against the slice with `FeatureVsCoords`.
     It queues coordinate swaps for contained features. It splits the features that
     straddle the downstream border. It queues piece swaps for the features after the
     border;
  4. executes the shared `CoreQueue`.

  The model comes in these parts:
  - `SliceGeometry`: the strand-aware classifier;
  - `AnnotationDb`: the store's tables as values, with the pure effect of every store
    operation;
  - `TrimSpec`: the trimmer's walk as a function;
  - `SlicePass`: a super-locus, the tree filling and the strand passes, on values;
  - `Slicer`: the classes `Store`, `CoreQueue`, `IntervalTrees`, `TranscriptTrimmer` and
    `SliceController`. They change state in place, and each method is proved equal to its
    value-level counterpart.
- **The exporter** (`helixerprep/export/exporter.py`), as the module `Export`. The model
  covers:
  - padding the numerified chunks to the chunk size, with their error and
    fully-intergenic flags, when they are written (`_save_data`, a class `H5Data` over
    the ten datasets);
  - the random train/validation split (`_split_sequences`);
  - the N90 index of a genome's coordinates;
  - the filter and flatten of `_numerify_coord`.
- **The training sequence helpers** (`helixer/prediction/HelixerModel_main.py`), as the
  module `HelixerSequences`. The model covers:
  - merging UTR into intergenic labels in place (`_zero_out_utrs`);
  - the indices of a batch;
  - the number of batches of an epoch;
  - the class-last pooling reshape;
  - the per-timestep weights made from transitions (`_squish_tw_to_sw`).
- **The LSTM batch** (`helixerprep/prediction/LSTMModel.py`, `LSTMSequence.__getitem__`),
  as the module `LstmSequences`. It covers the sorted index window, the reads, the clip to
  a multiple of the pool size, the pooling of inputs and labels, and the pooled sample
  weights with and without class weights. A batch that numpy would reject is modelled as
  an error.
- **The confusion matrix** (`helixer/prediction/ConfusionMatrix.py`), as the module
  `ConfusionMatrices`. It covers masking, argmax, the 4 x 4 counts, precision, recall and
  F1 with their zero guards, the total accuracy, and the composite scores.

`Pooling` holds the shaped arrays and the grouping of positions into pools. `Sequences`
holds sums, selection (numpy boolean indexing and `itertools.compress`), ranges and
sorting. `Wrappers` holds `Option` and `Result`.

The model follows the code in three places a reader might not expect:
- A feature spanning the whole slice is classified as overlapping upstream, not
  downstream, because that test comes first in the chain (`SliceGeometry.SpanningFeatureIsOverlapsUpstream`).
- The walk does not reject a second group that straddles the downstream border; each
  such group is split.
- The double check after NoFeaturesInSliceError uses the closed windows the code writes,
  which hold a position just past the slice's end; the half-open window the lookup uses is
  modelled beside it as `SlicePass.TrimTranscriptCorrected` (see the findings below).

## Model

| member | source | states |
|---|---|---|
| SliceGeometry.Classify | helixerprep/datas/annotations/slicer.py:394-435 | A group's answer is the first test of the chain that holds (detached, upstream, overlaps upstream, contained, overlaps downstream). The chain is exhaustive: when no earlier test holds the feature is downstream, so the final AssertionError branch is unreachable. |
| SliceGeometry.MirrorSymmetry | helixerprep/datas/annotations/slicer.py:272-340 | A minus-strand feature is classified exactly like its mirror image on the plus strand. The effective interval [end+1, start+1) reflects onto [-start, -end), so upstream and downstream mean 5' and 3'. |
| SliceGeometry.StrandSwapsDirection | helixerprep/datas/annotations/slicer.py:307-340 | For one effective interval, changing the pass's strand swaps upstream with downstream and the two overlap tests, and leaves containment unchanged. |
| SliceGeometry.BorderSplitGeometry | helixerprep/datas/annotations/slicer.py:469-483 | A border split at `end` (plus strand) or `start - 1` (minus strand) cuts the feature into two adjacent parts with no base lost. The truncated original is then contained and the remainder is downstream. |
| SliceGeometry.ResolvedFeatureStaysUpstream | helixerprep/datas/annotations/slicer.py:293-322 | A feature contained in one slice is upstream of every slice further downstream on its strand, and detached in the other strand's pass. |
| SliceGeometry.SpanningFeatureIsOverlapsUpstream | helixerprep/datas/annotations/slicer.py:401-411 | [500, 2500) against [1000, 2000) on the plus strand is reported as overlapping upstream. |
| SliceGeometry.StrandScenario | helixerprep/datas/annotations/slicer.py:307-317 | Bases [0, 500) against [1000, 2000) are upstream on the plus strand and, written start 499, end -1, downstream on the minus strand. |
| AnnotationDb.ApplyPieceSwap | helixerprep/datas/annotations/slicer.py:36-42 | One row of the association-table update rewrites only the link that matches both the feature and the old piece; no feature gains or loses its entry. |
| AnnotationDb.ApplyPieceSwaps | helixerprep/datas/annotations/slicer.py:55-60 | The batched update applies every row in list order and keeps the table's keys. |
| AnnotationDb.PieceSwapsFrame | helixerprep/datas/annotations/slicer.py:36-42 | Piece swaps leave the links of every feature they do not name exactly as they were. |
| AnnotationDb.CoordSwapsEffect | helixerprep/datas/annotations/slicer.py:44-48 | Coordinate swaps change only the `coordinate` of the features they name. The last swap for a feature wins, and swaps for unknown features are ignored. |
| AnnotationDb.PhasesCommute | helixerprep/datas/annotations/slicer.py:55-61 | The piece-swap phase touches only the association table and the coordinate-swap phase only the feature table, so their order does not matter. |
| AnnotationDb.CoordSwapsKeepValid | helixerprep/datas/annotations/slicer.py:44-48 | Coordinate swaps to existing coordinates keep the store consistent. |
| AnnotationDb.ExecuteSoFarValid | helixerprep/datas/annotations/slicer.py:55-61 | Flushing the queue keeps the store consistent. It changes only the feature and association tables. |
| AnnotationDb.AddCoordinate | helixerprep/datas/annotations/slicer.py:129-131 | A new coordinate row is added under a fresh id; every other table is unchanged. |
| AnnotationDb.MkNewPiece | helixerprep/datas/annotations/slicer.py:373-381 | `mk_new_piece` adds a fresh piece owned by the transcript; nothing else changes. |
| AnnotationDb.LoadToIntervalTree | helixerprep/datas/annotations/slicer.py:258-264 | The tree of the feature's sequence is created on demand and gains the entry [position, position+1); the other trees are unchanged. |
| AnnotationDb.GetFeaturesFromSlice | helixerprep/datas/annotations/slicer.py:147-157 | ValueError exactly when no tree was filled. The result is empty for a sequence with no tree. Otherwise it is exactly the features of the requested strand whose position lies in [start, end). |
| AnnotationDb.SetStatusDownstreamBorder | helixerprep/datas/annotations/slicer.py:467-489 | The split fails (the assertion) exactly when the old piece is not among the template's pieces. Otherwise it keeps the store consistent. |
| AnnotationDb.BorderSplitEffect | helixerprep/datas/annotations/slicer.py:467-489 | The new feature takes the next id. It is the template's copy from the cut on: no given id, the old coordinate, not a biological start. It is linked to the template's pieces with the old piece replaced by the new piece. The template then ends at the cut and is not a biological end. The trees gain exactly the new feature's entry, and nothing else changes. |
| AnnotationDb.BorderSplitClassification | helixerprep/datas/annotations/slicer.py:469-483 | After splitting a feature that straddled the downstream border, the template is contained in the slice and the new feature is downstream of it. |
| AnnotationDb.BorderSplitKeepsTrees | helixerprep/datas/annotations/slicer.py:477-480 | A border split keeps the interval trees consistent with the store. |
| AnnotationDb.RecheckWindowExact | helixerprep/datas/annotations/slicer.py:236-240 | With the half-open window, a non-empty same-strand feature's position is in the window iff the classifier reports it as contained or as overlapping downstream. |
| AnnotationDb.RecheckWindowAsWrittenTooWide | helixerprep/datas/annotations/slicer.py:236-240 | The window as written also holds positions of features that are downstream, on both strands. |
| TrimSpec.CoordSwapsTo | helixerprep/datas/annotations/slicer.py:404-408 | A contained group queues one coordinate swap to the slice per feature, in order. |
| TrimSpec.PieceSwapsTo | helixerprep/datas/annotations/slicer.py:424-432 | A downstream group on the border piece queues one swap per feature, from the border piece to the downstream piece. |
| TrimSpec.DownstreamPiece | helixerprep/datas/annotations/slicer.py:356-360 | The downstream piece is made on first use and is the same piece afterwards. |
| TrimSpec.BorderSplitKeeps | helixerprep/datas/annotations/slicer.py:467-489 | A border split keeps validity, every old row and every old link except the one it moves. |
| TrimSpec.SplitAll | helixerprep/datas/annotations/slicer.py:417-422 | Splitting a group fails exactly when some feature of the group is not linked to the border piece; on success it keeps what a border split keeps. |
| TrimSpec.SplitAllSnoc | helixerprep/datas/annotations/slicer.py:417-422 | The group is split feature by feature, and a failing prefix fails the group. |
| TrimSpec.SplitAtBorder | helixerprep/datas/annotations/slicer.py:411-422 | The overlaps-downstream branch: take the group's piece as the border piece, make the downstream piece on first use, flush the queue, and split every feature of the group. |
| TrimSpec.TrimStep | helixerprep/datas/annotations/slicer.py:394-435 | One iteration keeps the walk invariant, loses no feature, keeps the coordinates, and adds at most the trimmer's own downstream piece. |
| TrimSpec.Walk | helixerprep/datas/annotations/slicer.py:392-435 | The walk keeps the invariant. Features and coordinates are only added to. |
| TrimSpec.ModifyForNewSlice | helixerprep/datas/annotations/slicer.py:383-450 | `modify4new_slice` ends normally, with NoFeaturesInSliceError when no group overlapped, or with the border split's AssertionError. |
| TrimSpec.FailureIsFinal | helixerprep/datas/annotations/slicer.py:474-475 | After an assertion failure nothing more happens. |
| TrimSpec.WalkSnoc | helixerprep/datas/annotations/slicer.py:392-435 | The walk over i + 1 groups is one step after the walk over i groups. |
| TrimSpec.AbortedPrefixAbortsWalk | helixerprep/datas/annotations/slicer.py:474-475 | A walk whose first groups aborted has aborted as a whole. |
| TrimSpec.StepMonotone | helixerprep/datas/annotations/slicer.py:405-412 | A step never clears the overlap flag or the abort flag. |
| TrimSpec.UnseenStep | helixerprep/datas/annotations/slicer.py:397-412 | Before any overlap, a step sets the flag iff its group is contained or straddles the border. Otherwise it leaves the state unchanged. |
| TrimSpec.UnseenWalkChangesNothing | helixerprep/datas/annotations/slicer.py:447-450 | A walk that reports NoFeaturesInSliceError changed nothing. Every group it visited was detached, upstream, overlapping upstream or downstream. |
| TrimSpec.SeenMeansOverlap | helixerprep/datas/annotations/slicer.py:389-412 | The overlap flag is set iff some group was contained or straddled the downstream border (or the walk aborted). |
| TrimSpec.SomeOverlapExtends | helixerprep/datas/annotations/slicer.py:392-412 | An overlap among the first groups is an overlap of the walk. |
| TrimSpec.SeenHasOverlap | helixerprep/datas/annotations/slicer.py:389-412 | A walk that saw an overlap met a contained group or one across the downstream border. |
| TrimSpec.CoordSwapsTargetStep | helixerprep/datas/annotations/slicer.py:404-408 | A step keeps every queued coordinate swap pointing at the slice's coordinate. |
| TrimSpec.QueuedCoordSwapsTargetSlice | helixerprep/datas/annotations/slicer.py:404-408 | The walk queues coordinate swaps only onto the slice's coordinate. |
| TrimSpec.PieceSwapsFromBorderStep | helixerprep/datas/annotations/slicer.py:424-432 | A step keeps the piece-swap invariant: nothing is queued before the border, and afterwards only moves from the border piece to the downstream piece. |
| TrimSpec.QueuedPieceSwapsFromBorder | helixerprep/datas/annotations/slicer.py:424-432 | The walk queues piece swaps only from the border piece to the trimmer's downstream piece. |
| TrimSpec.AtMostOnePieceStep | helixerprep/datas/annotations/slicer.py:356-360 | A step keeps "old pieces unchanged, at most one new piece, owned by the transcript". |
| TrimSpec.AtMostOneNewPiece | helixerprep/datas/annotations/slicer.py:356-381 | A trimmer creates at most one piece, for its own transcript, and never changes another piece. |
| TrimSpec.AllLinkedToSnoc | helixerprep/datas/annotations/slicer.py:474-475 | The group's features are all linked to the border piece iff the first ones are and the next one is. |
| TrimSpec.AllLinkedToPrefix | helixerprep/datas/annotations/slicer.py:474-475 | If all features of a group are linked to the border piece, so are those of every prefix. |
| TrimSpec.SplitKeepsTransitive | helixerprep/datas/annotations/slicer.py:417-422 | What border splits keep, two runs of splits keep. |
| TrimSpec.AlignedFeatureOutsideWindow | helixerprep/datas/annotations/slicer.py:236-240 | A feature of a group that does not overlap the slice has its position outside the corrected window. |
| TrimSpec.NoOverlappingGroupConfirmed | helixerprep/datas/annotations/slicer.py:233-240 | When the groups cover the transcript and none overlaps, the corrected double check finds no feature in the window. |
| TrimSpec.NoFeaturesInSliceConfirmed | helixerprep/datas/annotations/slicer.py:228-240 | With the half-open window, a NoFeaturesInSliceError for a covered transcript always passes the double check. |
| TrimSpec.CounterexampleWalk | helixerprep/datas/annotations/slicer.py:383-450 | On the plus pass over slice [1000, 2000), the walk of the single feature [2000, 2500) reports NoFeaturesInSliceError. |
| TrimSpec.DoubleCheckAsWrittenAborts | helixerprep/datas/annotations/slicer.py:236-240 | For that feature the written double check fails (an AssertionError that aborts the run) while the corrected one passes. |
| TrimSpec.CounterexampleCovered | helixerprep/datas/annotations/slicer.py:233-236 | The counterexample's walk covers its transcript and groups aligned features. |
| SlicePass.TrimmerStart | helixerprep/datas/annotations/slicer.py:349-354 | A fresh trimmer starts with the pass's store and trees, no downstream piece and no overlap. |
| SlicePass.RunTrimmer | helixerprep/datas/annotations/slicer.py:226-229 | A fresh trimmer's run keeps the pass invariant and every feature, and adds no coordinate row. |
| SlicePass.TrimTranscript | helixerprep/datas/annotations/slicer.py:226-240 | One transcript of `modify4slice`, with the closed windows `start <= position <= end` (plus strand) and `start - 1 <= position <= end - 1` (minus strand) of the double check. It succeeds with the walk's state when the walk trims normally or when NoFeaturesInSliceError passes that check, and otherwise fails with that transcript's error; on success the pass invariant holds and no feature or coordinate is lost. |
| SlicePass.TrimTranscriptCorrected | helixerprep/datas/annotations/slicer.py:236-240 | The same step with the double check on the half-open window `start <= position < end` that the lookup uses, with the same guarantees. |
| SlicePass.NoOverlapAsWrittenIsStricter | helixerprep/datas/annotations/slicer.py:236-240 | On either strand, a transcript that passes the written double check passes the corrected one. |
| SlicePass.CorrectedAcceptsAsWritten | helixerprep/datas/annotations/slicer.py:228-240 | The written and the corrected step agree whenever the code accepts a transcript or the corrected check rejects it; where they differ the code fails with OverlapMissed and the corrected step succeeds. |
| SlicePass.Modify4Slice | helixerprep/datas/annotations/slicer.py:222-240 | The super-locus's transcripts are trimmed in order. Any error names one of them. |
| SlicePass.Modify4SliceSnoc | helixerprep/datas/annotations/slicer.py:225-229 | The fold over i + 1 transcripts is one transcript after the fold over i. |
| SlicePass.Modify4SliceStopsAtError | helixerprep/datas/annotations/slicer.py:225-240 | The first error is the super-locus's result; later transcripts are not trimmed. |
| SlicePass.CoveredTranscriptPassesRecheck | helixerprep/datas/annotations/slicer.py:228-240 | When the transition walk covers the transcript and groups aligned features, the corrected double check never fails. |
| SlicePass.TrimTranscriptTargetsSlice | helixerprep/datas/annotations/slicer.py:404-408 | One transcript's trimming queues coordinate swaps only onto the slice. |
| SlicePass.Modify4SliceTargetsSlice | helixerprep/datas/annotations/slicer.py:222-240 | A whole super-locus queues coordinate swaps only onto the slice. |
| SlicePass.TrimTranscriptPieces | helixerprep/datas/annotations/slicer.py:356-381 | One transcript's trimming keeps old pieces' owners; any new piece belongs to that transcript. |
| SlicePass.Modify4SlicePieces | helixerprep/datas/annotations/slicer.py:222-240 | Trimming a super-locus never re-assigns a piece; every new piece belongs to one of its transcripts. |
| SlicePass.LoadAllKeys | helixerprep/datas/annotations/slicer.py:111-113 | `fill_intervaltrees` makes a tree for every sequence of a loaded feature and keeps the old trees. |
| SlicePass.LoadAllKeepsOld | helixerprep/datas/annotations/slicer.py:215-220 | Loading only appends: the old entries keep their places. |
| SlicePass.LoadAllRegisters | helixerprep/datas/annotations/slicer.py:215-220 | Every loaded feature has its entry in the tree of its sequence. |
| SlicePass.LoadAllOnlyListed | helixerprep/datas/annotations/slicer.py:215-220 | Every new entry is that of a loaded feature, in the tree of its sequence. |
| SlicePass.LoadAllValid | helixerprep/datas/annotations/slicer.py:258-264 | Loaded trees hold single positions of features of the store. |
| SlicePass.LoadAllIndexesExactly | helixerprep/datas/annotations/slicer.py:111-113 | Trees filled from empty hold exactly the entries of the loaded features. |
| SlicePass.FoundIsInWindow | helixerprep/datas/annotations/slicer.py:155-156 | Every feature the lookup finds is in the window on the requested strand. |
| SlicePass.InWindowIsFound | helixerprep/datas/annotations/slicer.py:155-156 | Every feature in the window has an entry the lookup finds. |
| SlicePass.LookupFindsWindow | helixerprep/datas/annotations/slicer.py:147-157 | On such trees the lookup returns exactly the window's features. |
| SlicePass.FilledLookupFindsWindow | helixerprep/datas/annotations/slicer.py:142-157 | After filling the trees, the lookup finds exactly the loaded features of the requested sequence and strand whose position is in [start, end). The unfilled error happens exactly when nothing was loaded. |
| SlicePass.Reversed | helixerprep/datas/annotations/slicer.py:124 | The minus pass visits the slices in reverse order. |
| SlicePass.ExecuteKeeps | helixerprep/datas/annotations/slicer.py:137 | Executing the queue between slices keeps the store consistent, the trees valid and every piece's owner. |
| SlicePass.AddsCoordinatesConcat | helixerprep/datas/annotations/slicer.py:120-125 | Two passes add the coordinate rows of both slice lists, the first list's first. |
| SlicePass.Flush | helixerprep/datas/annotations/slicer.py:137 | `execute_so_far` at the end of a slice: the queue is applied and emptied, the store stays consistent, features are only added to, and the trees, pieces and coordinates are unchanged. |
| SlicePass.TrimSuperLoci | helixerprep/datas/annotations/slicer.py:133-136 | `modify4slice` for each looked-up super-locus in the given order, up to the first error; any error names a transcript of one of them, and without error the pass invariant holds and no coordinate row is added. |
| SlicePass.SliceOne | helixerprep/datas/annotations/slicer.py:128-137 | One slice: its coordinate row, the lookup, the trimming of the super-loci found, then the queue flush; the result is settled, and the error is the lookup's ValueError exactly when the trees were never filled. |
| SlicePass.SliceOneWay | helixerprep/datas/annotations/slicer.py:127-137 | `_slice_annotations_1way`: the slices in the order given on one strand, stopping at the first error; the result is settled. |
| SlicePass.SliceAnnotations | helixerprep/datas/annotations/slicer.py:120-125 | The plus pass over the slices, then the minus pass over the reversed slices; the result is settled. |
| SlicePass.TrimSuperLociStopsAtError | helixerprep/datas/annotations/slicer.py:133-136 | The first super-locus error is the loop's result; later super-loci are not trimmed. |
| SlicePass.SliceOneWayStopsAtError | helixerprep/datas/annotations/slicer.py:127-137 | The first failing slice ends the pass with its error; later slices are not visited. |
| SlicePass.TrimSuperLociPieces | helixerprep/datas/annotations/slicer.py:133-136 | Trimming super-loci never re-assigns a piece; every new piece belongs to a listed transcript of one of them. |
| SlicePass.SliceOneGrows | helixerprep/datas/annotations/slicer.py:128-137 | A slice only adds to the store, and its one new coordinate row is the slice. |
| SlicePass.SliceOneTrimsFoundSuperLoci | helixerprep/datas/annotations/slicer.py:132-163 | When the transcript lists are the store's and set iteration lists each element once, every new piece of a slice belongs to a transcript of the store whose super-locus owns a same-strand feature in the slice's window. |
| SlicePass.SliceOneWayGrows | helixerprep/datas/annotations/slicer.py:127-131 | A pass only adds to the store, and its new coordinate rows are its slices, k-th row the k-th slice. |
| SlicePass.SliceOneWayNeedsTrees | helixerprep/datas/annotations/slicer.py:128-149 | A pass over unfilled trees stops at its first slice with the ValueError. |
| SlicePass.SliceAnnotationsGrows | helixerprep/datas/annotations/slicer.py:120-131 | The two passes add the coordinate rows of the slices in order and then in reverse. |
| SlicePass.OnStrand | helixerprep/datas/annotations/slicer.py:127-131 | The slices of one pass, each on the pass's strand. |
| SlicePass.SliceJobs | helixerprep/datas/annotations/slicer.py:120-125 | The slicing visits each slice on the plus strand in order, then, from position `|slices|` on, each slice on the minus strand in reverse order. |
| SlicePass.RunJobs | helixerprep/datas/annotations/slicer.py:127-137 | Slice after slice, each on its own strand, up to the first error; the result is settled. |
| SlicePass.RunJobsAppend | helixerprep/datas/annotations/slicer.py:120-125 | Running two job lists one after the other is running their concatenation. |
| SlicePass.SliceOneWayRunsJobs | helixerprep/datas/annotations/slicer.py:127-137 | A pass is the run of its slices on its strand. |
| SlicePass.SliceAnnotationsRunsJobs | helixerprep/datas/annotations/slicer.py:120-125 | `slice_annotations` is the run of `SliceJobs`: the plus strand in order, then the minus strand in reverse. |
| SlicePass.EnumeratesSingleton | helixerprep/datas/annotations/slicer.py:133 | A set of one super-locus is iterated as that super-locus alone. |
| SlicePass.Modify4SliceTwo | helixerprep/datas/annotations/slicer.py:225-229 | `modify4slice` over two transcripts trims the second after the first unless the first failed. |
| SlicePass.SiblingFirstTranscript | helixerprep/datas/annotations/slicer.py:226-229 | In the two-transcript counterexample, transcript 0 (feature [1500, 1600)) is contained in slice [1000, 2000) and queues one coordinate swap onto it. |
| SlicePass.SiblingSecondTranscript | helixerprep/datas/annotations/slicer.py:229-240 | Transcript 1 (feature [2000, 2500)) raises NoFeaturesInSliceError; the written closed window holds position 2000 and fails, the corrected window does not. |
| SlicePass.SiblingTransitionsReady | helixerprep/datas/annotations/slicer.py:226-227 | The counterexample's walk yields non-empty groups of store features. |
| SlicePass.SiblingListsTranscripts | helixerprep/datas/annotations/slicer.py:225 | The counterexample's transcript lists are those of its transcript table. |
| SlicePass.SiblingTreesLoaded | helixerprep/datas/annotations/slicer.py:258-264 | The counterexample's trees are those `fill_intervaltrees` makes from its two features. |
| SlicePass.SiblingInputs | helixerprep/datas/annotations/slicer.py:111-113 | The counterexample's store is settled and meets every assumption of the pass. |
| SlicePass.SiblingLookup | helixerprep/datas/annotations/slicer.py:147-157 | The lookup over [1000, 2000) finds feature 0 only; feature 1's entry [2000, 2001) is outside the window. |
| SlicePass.SiblingSliceState | helixerprep/datas/annotations/slicer.py:129-131 | After the slice's coordinate row is added the pass invariant holds for it, under id 1. |
| SlicePass.SiblingSuperLoci | helixerprep/datas/annotations/slicer.py:159-163 | Feature 0 belongs to super-locus 0. |
| SlicePass.SiblingModify | helixerprep/datas/annotations/slicer.py:225-240 | `modify4slice` on super-locus 0 trims transcript 0 and then fails the written check on transcript 1. |
| SlicePass.SiblingTrim | helixerprep/datas/annotations/slicer.py:133-136 | The loop over the one super-locus found ends in that failure. |
| SlicePass.SiblingSliceOne | helixerprep/datas/annotations/slicer.py:128-137 | The plus-strand slice [1000, 2000) of the counterexample ends in the AssertionError for transcript 1. |
| SlicePass.SiblingTranscriptAborts | helixerprep/datas/annotations/slicer.py:232-240 | A settled store whose trees are filled from its features and whose gene overlaps the slice with one transcript makes the written double check abort the slice, for every iteration order of the set of super-loci. |
| Slicer.Store.constructor | helixerprep/datas/annotations/slicer.py:88-95 | The session's store holds the given tables. |
| Slicer.Store.AddCoordinate | helixerprep/datas/annotations/slicer.py:129-131 | In place, the store becomes `AnnotationDb.AddCoordinate` of the old store, and the fresh id is returned. |
| Slicer.Store.AddPiece | helixerprep/datas/annotations/slicer.py:373-379 | In place, the store becomes `AnnotationDb.MkNewPiece` of the old store. |
| Slicer.Store.AddFeature | helixerprep/datas/annotations/slicer.py:477-480 | Inserts the feature with its links under the next feature id; nothing else changes. |
| Slicer.Store.SetFeature | helixerprep/datas/annotations/slicer.py:482-483 | Overwrites one feature row; nothing else changes. |
| Slicer.Store.SwapPiece | helixerprep/datas/annotations/slicer.py:455-465 | Moves the link. `matched` is whether the feature was linked to the old piece (else `de_link` raises ValueError). |
| Slicer.Store.SwapCoordinate | helixerprep/datas/annotations/slicer.py:44-48 | Moves one feature to its new coordinate; nothing else changes. |
| Slicer.CoreQueue.constructor | helixerprep/datas/annotations/slicer.py:20-26 | A new queue has no pending swaps. |
| Slicer.CoreQueue.ExecuteSoFar | helixerprep/datas/annotations/slicer.py:55-61 | The store becomes `AnnotationDb.ExecuteSoFar` of the old store and the old lists; both lists are emptied. |
| Slicer.IntervalTrees.constructor | helixerprep/datas/annotations/slicer.py:74 | The controller starts with no trees. |
| Slicer.IntervalTrees.Load | helixerprep/datas/annotations/slicer.py:258-264 | The trees become `LoadToIntervalTree` of the old trees. |
| Slicer.TranscriptTrimmer.constructor | helixerprep/datas/annotations/slicer.py:349-354 | A trimmer shares the store and queue and has no downstream piece yet. |
| Slicer.TranscriptTrimmer.MkNewPiece | helixerprep/datas/annotations/slicer.py:373-381 | The store gains a new piece of this transcript, as `AnnotationDb.MkNewPiece`. |
| Slicer.TranscriptTrimmer.DownstreamPiece | helixerprep/datas/annotations/slicer.py:356-360 | The store and result follow `TrimSpec.DownstreamPiece`, and the piece is remembered. |
| Slicer.TranscriptTrimmer.SetStatusDownstreamBorder | helixerprep/datas/annotations/slicer.py:467-489 | The store and trees follow `AnnotationDb.SetStatusDownstreamBorder`. `ok` is false when the assertion fails, and then nothing has changed. |
| Slicer.TranscriptTrimmer.AddDownstreamCopy | helixerprep/datas/annotations/slicer.py:477-480 | Adds the copy of the template from the cut on under the next id and loads it into the trees. |
| Slicer.TranscriptTrimmer.TruncateTemplate | helixerprep/datas/annotations/slicer.py:482-486 | The template ends at the cut, and the copy moves from the old piece to the new one. |
| Slicer.TranscriptTrimmer.SwapPieceForSplit | helixerprep/datas/annotations/slicer.py:455-465 | `swap_piece`: `de_link` from the old piece, `link_to` the new one. |
| Slicer.TranscriptTrimmer.QueueCoordSwaps | helixerprep/datas/annotations/slicer.py:404-408 | The queue's coordinate swaps grow by `CoordSwapsTo` of the group; the piece swaps are unchanged. |
| Slicer.TranscriptTrimmer.QueuePieceSwaps | helixerprep/datas/annotations/slicer.py:424-432 | The queue's piece swaps grow by `PieceSwapsTo` from the border piece to the downstream piece; the rest is unchanged. |
| Slicer.TranscriptTrimmer.SplitGroup | helixerprep/datas/annotations/slicer.py:417-422 | The store and trees follow `TrimSpec.SplitAll`; the split stops at the first failed feature. |
| Slicer.TranscriptTrimmer.PrepareSplit | helixerprep/datas/annotations/slicer.py:414-416 | Takes the downstream piece and flushes the shared queue. |
| Slicer.TranscriptTrimmer.SplitAtBorder | helixerprep/datas/annotations/slicer.py:411-422 | The whole state follows `TrimSpec.SplitAtBorder`. |
| Slicer.TranscriptTrimmer.TrimOneStep | helixerprep/datas/annotations/slicer.py:394-435 | The whole state follows `TrimSpec.TrimStep`. |
| Slicer.TranscriptTrimmer.ModifyForNewSlice | helixerprep/datas/annotations/slicer.py:383-450 | The store, trees, queue and outcome follow `TrimSpec.Walk` from a fresh walk state. |
| Slicer.SliceController.constructor | helixerprep/datas/annotations/slicer.py:66-75 | Fresh store, empty queue, no trees. |
| Slicer.SliceController.FillIntervalTrees | helixerprep/datas/annotations/slicer.py:111-113 | The trees become `LoadAll` of the old trees over the features. |
| Slicer.SliceController.GetSuperLociFromFeatures | helixerprep/datas/annotations/slicer.py:159-163 | Returns the set of super-loci owning the features. |
| Slicer.SliceController.TrimTranscript | helixerprep/datas/annotations/slicer.py:226-240 | The store, trees and queue follow `SlicePass.TrimTranscript`, with the written closed windows; the error is reported as that step's. |
| Slicer.SliceController.Modify4Slice | helixerprep/datas/annotations/slicer.py:222-240 | The store, trees and queue follow `SlicePass.Modify4Slice`. |
| Slicer.SliceController.TrimSuperLoci | helixerprep/datas/annotations/slicer.py:133-136 | The store, trees and queue become `SlicePass.TrimSuperLoci` of the old state over the super-loci in the given order, each with the transcripts `transcriptsOf` lists; an error is reported exactly when that fold fails, and is its error. |
| Slicer.SliceController.SliceOne | helixerprep/datas/annotations/slicer.py:128-137 | The state becomes `SlicePass.SliceOne` of the old one: the coordinate row, the super-loci of the lookup in the order `order` gives that set, and the queue flushed; an error exactly when that fails, and the same error. |
| Slicer.SliceController.SliceOneWay | helixerprep/datas/annotations/slicer.py:127-137 | The state becomes `SlicePass.SliceOneWay` of the old one over the slices on the pass's strand; an error exactly when that fails, and the same error. |
| Slicer.SliceController.SliceAnnotations | helixerprep/datas/annotations/slicer.py:120-125 | The state becomes `SlicePass.SliceAnnotations` of the old one: the plus pass over the slices, then the minus pass over them reversed; an error exactly when that fails, and the same error. |
| ConfusionMatrices.ArgMax | helixer/prediction/ConfusionMatrix.py:22 | The result is the first position of the largest score. |
| ConfusionMatrices.Unmasked | helixer/prediction/ConfusionMatrix.py:29 | A base is kept iff its sample weight is nonzero. |
| ConfusionMatrices.MaskingKeepsPairs | helixer/prediction/ConfusionMatrix.py:26-32 | Masking keeps labels and predictions paired: exactly the pairs at unmasked positions, in order, as many as there are unmasked positions. |
| ConfusionMatrices.MaskedPairsComeFromUnmaskedBases | helixer/prediction/ConfusionMatrix.py:26-32 | Every kept pair sits at an unmasked position of the input. |
| ConfusionMatrices.ReshapeData | helixer/prediction/ConfusionMatrix.py:20-24 | Every base's class is its argmax class. |
| ConfusionMatrices.MaskKeepsFourClasses | helixer/prediction/ConfusionMatrix.py:26-32 | Masking keeps whole bases with their four scores. |
| ConfusionMatrices.MaskedClasses | helixer/prediction/ConfusionMatrix.py:36-40 | One class below 4 per unmasked base. |
| ConfusionMatrices.PairCountIsCardinality | helixer/prediction/ConfusionMatrix.py:43-45 | The count at (t, p) is the number of positions whose label class is t and whose predicted class is p. |
| ConfusionMatrices.BatchCounts | helixer/prediction/ConfusionMatrix.py:43-45 | The `coo_matrix` with duplicates summed: entry (t, p) counts the bases with label t and prediction p. |
| ConfusionMatrices.AddMatrices | helixer/prediction/ConfusionMatrix.py:46 | Element-wise sum of two 4 x 4 matrices. |
| ConfusionMatrices.BatchCountsTotal | helixer/prediction/ConfusionMatrix.py:43-45 | Every unmasked base is counted once: the batch matrix sums to the number of bases. |
| ConfusionMatrices.ConfusionMatrix.constructor | helixer/prediction/ConfusionMatrix.py:17 | A new matrix is all zeros. |
| ConfusionMatrices.ConfusionMatrix.AddRow | helixer/prediction/ConfusionMatrix.py:46 | Adds to one row; the other rows are unchanged. |
| ConfusionMatrices.ConfusionMatrix.AddToCm | helixer/prediction/ConfusionMatrix.py:34-46 | The matrix becomes the old matrix plus the batch counts of the unmasked bases' argmax classes. A fully masked batch adds nothing. |
| ConfusionMatrices.AddToCmCounts | helixer/prediction/ConfusionMatrix.py:34-46 | Entry (t, p) grows by the number of unmasked bases with label class t and predicted class p. The total grows by the number of unmasked bases. |
| ConfusionMatrices.FullyMaskedBatchAddsNothing | helixer/prediction/ConfusionMatrix.py:37-38 | A batch whose bases are all masked leaves the matrix unchanged. |
| ConfusionMatrices.NoneUnmasked | helixer/prediction/ConfusionMatrix.py:29-31 | When every sample weight is 0, no base is kept. |
| ConfusionMatrices.Column | helixer/prediction/ConfusionMatrix.py:97 | Column c of the matrix. |
| ConfusionMatrices.ClassCounts | helixer/prediction/ConfusionMatrix.py:93-100 | TP is the diagonal entry. TP + FP is every base predicted as c, and TP + FN is every base labelled c. |
| ConfusionMatrices.MergeCoding | helixer/prediction/ConfusionMatrix.py:105-106 | The 3-class matrix that merges exon and intron. |
| ConfusionMatrices.LegacyCds | helixer/prediction/ConfusionMatrix.py:105-111 | legacy_cds equals the single-class counts of the merged coding class of the 3-class matrix. |
| ConfusionMatrices.SubGenic | helixer/prediction/ConfusionMatrix.py:113-118 | sub_genic: the exon and intron counts summed. |
| ConfusionMatrices.Genic | helixer/prediction/ConfusionMatrix.py:120-125 | genic: TP is the correct genic bases, TP + FN every base labelled genic, TP + FP every base predicted genic. |
| ConfusionMatrices.PrecisionRecallF1 | helixer/prediction/ConfusionMatrix.py:67-81 | Precision and recall are 0 when their denominator is 0, and F1 is 0 when both are. All three lie in [0, 1]. F1 is positive iff TP is, and then equals 2TP / (2TP + FP + FN). |
| ConfusionMatrices.RatioBounds | helixer/prediction/ConfusionMatrix.py:68-75 | A guarded ratio lies in [0, 1] and is positive iff its numerator is. |
| ConfusionMatrices.HarmonicMean | helixer/prediction/ConfusionMatrix.py:76-77 | The harmonic mean of TP/(TP+FP) and TP/(TP+FN) is 2TP / (2TP + FP + FN). |
| ConfusionMatrices.TotalAccuracy | helixer/prediction/ConfusionMatrix.py:83-84 | None (numpy's NaN) exactly for an empty matrix. Otherwise trace over total, in [0, 1]. |
| ConfusionMatrices.CompositeScores | helixer/prediction/ConfusionMatrix.py:86-127 | The seven keys: ig, utr, exon and intron hold their class's counts, legacy_cds the merged coding counts, sub_genic exon plus intron, genic utr plus exon plus intron. Each score's metrics come from its own counts, and genic TP plus intergenic TP is the trace. |
| Export.SelectFlat | helixerprep/export/exporter.py:52-58 | The same chunks are selected from every list. |
| Export.AppendFlat | helixerprep/export/exporter.py:268-271 | List-wise concatenation keeps the lists aligned. |
| Export.Rows | helixerprep/export/exporter.py:52-58 | The chunks as whole rows, one entry per list. |
| Export.SelectFlatRows | helixerprep/export/exporter.py:52-58 | Selecting list by list keeps each chunk's entries together. |
| Export.ToTrain | helixerprep/export/exporter.py:53 | A chunk goes to training iff its draw exceeds the validation share. |
| Export.SplitSequences | helixerprep/export/exporter.py:41-59 | The training set selects the chunks whose draw exceeds `val_size` and the validation set selects the others, with the same choice in every list. |
| Export.SplitPartitionsChunks | helixerprep/export/exporter.py:41-59 | The split partitions whole chunks: both sides keep the input order, and their sizes add up. |
| Export.SplitKeepsOrder | helixerprep/export/exporter.py:52-58 | A kept chunk lands right after the earlier kept ones. |
| Export.Pad | helixerprep/export/exporter.py:71-78 | A chunk written into a zeroed row is the chunk up to its length and zero after it. |
| Export.PadAll | helixerprep/export/exporter.py:70-78 | Every chunk is padded to the chunk size. |
| Export.NYCols | helixerprep/export/exporter.py:285 | 7 label columns with one-hot transitions, 4 otherwise. |
| Export.ErrSamples | helixerprep/export/exporter.py:79 | A chunk's error flag is set iff some padded weight is 0. |
| Export.FullyIntergenicSamples | helixerprep/export/exporter.py:81-84 | The fully-intergenic flag per chunk, by the encoding. |
| Export.ErrSampleIff | helixerprep/export/exporter.py:70-79 | A chunk is flagged as an error iff it is shorter than the chunk size or has a zero weight. |
| Export.FullyIntergenicIff | helixerprep/export/exporter.py:70-84 | With one-hot labels, a chunk is fully intergenic iff it fills the chunk size and every row is intergenic. With three columns, padding counts as intergenic. |
| Export.Extend | helixerprep/export/exporter.py:93-99 | Writing a batch appends its rows after the existing rows, which are unchanged, and keeps all ten datasets row-aligned. |
| Export.H5Data.constructor | helixerprep/export/exporter.py:98-100 | A new file has no datasets. |
| Export.H5Data.SaveData | helixerprep/export/exporter.py:61-161 | An empty batch fails before writing anything. Otherwise the datasets become `Extend` of the old ones with the padded chunks and their flags. |
| Export.PadRows | helixerprep/export/exporter.py:70-78 | The padding loop yields `PadAll`. |
| Export.SavedFlags | helixerprep/export/exporter.py:79-84 | A written chunk's flags: an error iff short or zero-weighted. With one-hot labels it is fully intergenic only if it is full. |
| Export.Lengths | helixerprep/export/exporter.py:204 | The coordinates' lengths. |
| Export.N90Threshold | helixerprep/export/exporter.py:204 | `int(total * 0.9)` is 90 percent of the total, rounded down. |
| Export.TotalLengthSnoc | helixerprep/export/exporter.py:206-207 | The running sum grows by each coordinate's length. |
| Export.N90Index | helixerprep/export/exporter.py:203-209 | None exactly when there are no coordinates. Otherwise the first index whose running length reaches the threshold. |
| Export.N90IndexUnique | helixerprep/export/exporter.py:203-209 | There is only one such index. |
| Export.TotalLengthAppend | helixerprep/export/exporter.py:204 | Lengths add up over concatenation. |
| Export.N90PartsPartition | helixerprep/export/exporter.py:211-214 | `coords[:i+1]` and `coords[i+1:]` partition the list. The first part is nonempty and holds at least the threshold; the second holds at most the rest. |
| Export.KeptChunks | helixerprep/export/exporter.py:263-266 | With `keep_errors` every chunk is kept. Otherwise a chunk is kept iff it is not completely masked. |
| Export.Replicate | helixerprep/export/exporter.py:271 | `[x] * n`. |
| Export.StrandRows | helixerprep/export/exporter.py:262-271 | One strand contributes `Select(key, KeptChunks)` for each of the four list-valued keys (the same `compress` mask on all of them) and each per-coordinate value repeated `Count(KeptChunks)` times. Without `keep_errors` no kept chunk is completely masked; with it nothing is dropped. |
| Export.StrandRowsKeepsChunk | helixerprep/export/exporter.py:263-266 | Every chunk with an unmasked base (every chunk, with `keep_errors`) survives whole: its entries of all four list-valued keys sit at the same position, after the kept chunks before it. |
| Export.KeepAll | helixerprep/export/exporter.py:263 | Selecting with an all-true mask keeps everything. |
| Export.SelectedMasksUnmasked | helixerprep/export/exporter.py:264-266 | Every selected mask has an unmasked base. |
| Export.NumerifyCoord | helixerprep/export/exporter.py:242-274 | The flattened data is the plus strand's contribution followed by the minus strand's. |
| Export.NumerifiedDataAligned | helixerprep/export/exporter.py:242-274 | The flattened data is aligned; each list-valued key is the plus strand's kept chunks followed by the minus strand's, and each per-coordinate value is repeated once per kept chunk of each strand. Without `keep_errors` no chunk in it is completely masked; with it every chunk of both strands is there. |
| HelixerSequences.MergeUtr | helixer/prediction/HelixerModel_main.py:179-184 | Column 0 becomes (column 0 or column 1), column 1 becomes 0, the other columns are unchanged. |
| HelixerSequences.MergeUtrIdempotent | helixer/prediction/HelixerModel_main.py:179-184 | Merging twice is merging once. |
| HelixerSequences.MergeUtrKeepsOneHot | helixer/prediction/HelixerModel_main.py:181-184 | One-hot labels stay one-hot: intergenic and UTR bases become intergenic, exon and intron bases keep their label. |
| HelixerSequences.ZeroOutUtrs | helixer/prediction/HelixerModel_main.py:179-184 | In place, every label row is merged. |
| HelixerSequences.BatchStartIsProduct | helixer/prediction/HelixerModel_main.py:230 | Batch `bi` starts at `bi * batch_size`. |
| HelixerSequences.BatchIndicesBounded | helixer/prediction/HelixerModel_main.py:223-232 | A batch is at most `bs` consecutive indices from `bi * bs`, all below `n`. There are exactly `bs` while the dataset lasts and none after its end. |
| HelixerSequences.RunBounded | helixer/prediction/HelixerModel_main.py:229-230 | `arange(lo, min(n, lo + bs))` is consecutive and below n. |
| HelixerSequences.EpochLength | helixer/prediction/HelixerModel_main.py:338-346 | 3 in debug mode. Otherwise it is the least number of batches of `bs` that holds every sequence, and fails when `bs` is 0. |
| HelixerSequences.CeilDivision | helixer/prediction/HelixerModel_main.py:346 | `ceil(n / bs)` is the least k with k·bs ≥ n. |
| HelixerSequences.Batches | helixer/prediction/HelixerModel_main.py:223-232 | The first k batches. |
| HelixerSequences.BatchesAt | helixer/prediction/HelixerModel_main.py:223-232 | Entry bi of the list is batch number bi. |
| HelixerSequences.BatchesPrefix | helixer/prediction/HelixerModel_main.py:223-232 | Batches 0 .. k-1 together hold the indices 0 .. min(n, k·bs) - 1, in order. |
| HelixerSequences.BatchesCover | helixer/prediction/HelixerModel_main.py:223-232 | The same bound stated with the recursive batch start. |
| HelixerSequences.BatchesStep | helixer/prediction/HelixerModel_main.py:229-230 | A batch that starts where the covered run ends extends the run. |
| HelixerSequences.EpochCoversDataset | helixer/prediction/HelixerModel_main.py:338-346 | An epoch's batches hold every index 0 .. n_seqs-1 exactly once, in order. |
| HelixerSequences.MkTimestepPoolsClassLast | helixer/prediction/HelixerModel_main.py:279-295 | None stays None. (b, L, c) becomes (b, L/ps, ps, c), with the pools of each sample. It fails exactly when ps is 0 or when the sizes differ (L not a multiple of ps in a non-empty array). |
| HelixerSequences.PoolsClassLastAt | helixer/prediction/HelixerModel_main.py:289-294 | Position k of timestep t of sample i is position t·ps + k of sample i. |
| HelixerSequences.PoolsClassLastRoundTrip | helixer/prediction/HelixerModel_main.py:289-294 | Flattening each sample's pools gives back the sample. |
| HelixerSequences.TimestepWeight | helixer/prediction/HelixerModel_main.py:306-312 | A timestep's weight is never 0: it is the summed transition weights, or 1 where that sum is 0. |
| HelixerSequences.SquishTwToSw | helixer/prediction/HelixerModel_main.py:304-315 | (b, T, ps, ≥ 6) transitions become (b, T) weights, each the timestep weight of its pool. |
| HelixerSequences.NoTransitionWeighsOne | helixer/prediction/HelixerModel_main.py:311-312 | A timestep without transitions gets weight 1. |
| HelixerSequences.TransitionWeightsAdd | helixer/prediction/HelixerModel_main.py:306-310 | With non-negative weights, a timestep holding a transition of positive weight gets the summed weights of its transitions, hence at least that one. |
| HelixerSequences.SingleTransitionWeight | helixer/prediction/HelixerModel_main.py:306-312 | A timestep with exactly one kind of transition gets its weight, or 1 if that weight is 0. |
| HelixerSequences.WeightsPositive | helixer/prediction/HelixerModel_main.py:306-312 | With non-negative weights every timestep's weight is positive. |
| Pooling.Pools | helixerprep/prediction/LSTMModel.py:28-39 | `|rows| / ps` pools of `ps` positions each; a trailing incomplete pool is dropped. |
| Pooling.PoolSlice | helixerprep/prediction/LSTMModel.py:34-39 | Pool t is positions t·ps .. t·ps + ps. |
| Pooling.PoolsPrefix | helixerprep/prediction/LSTMModel.py:34-39 | The first k pools hold exactly the first k·ps positions. |
| Pooling.ConcatPools | helixerprep/prediction/LSTMModel.py:34-39 | Flattening the pools gives back the covered positions, and the whole row when its length is a multiple of ps. |
| Pooling.HitWeights | helixerprep/prediction/LSTMModel.py:46-49 | For each column, its weight where the column is 1 somewhere in the pool, and 0 otherwise. |
| Pooling.HitWeightNone | helixerprep/prediction/LSTMModel.py:46-50 | A pool that never hits a column weighs 0. |
| Pooling.HitWeightAtLeast | helixerprep/prediction/LSTMModel.py:46-50 | With non-negative weights, a pool weighs at least the weight of every column it hits. |
| Pooling.HitWeightSingle | helixerprep/prediction/LSTMModel.py:46-50 | A pool that hits exactly one column weighs that column's weight. |
| LstmSequences.BatchIds | helixerprep/prediction/LSTMModel.py:14-15 | The ids are sorted and a permutation of the Python slice `usable_idx[idx·bs : (idx+1)·bs]`. |
| LstmSequences.SortedWindow | helixerprep/prediction/LSTMModel.py:14-15 | The window is sorted and a permutation of the Python slice. |
| LstmSequences.WindowBounds | helixerprep/prediction/LSTMModel.py:14-15 | The window starting at lo = idx·bs is sorted. A full window holds exactly the `bs` elements of the slice with their multiplicities; the last batch holds the remaining elements; a window past the end is empty. |
| LstmSequences.Gather | helixerprep/prediction/LSTMModel.py:16-18 | The rows at the ids, in order. |
| LstmSequences.DistinctIndicesReadable | helixerprep/prediction/LSTMModel.py:14-18 | When `usable_idx` holds distinct indices of the datasets, every batch's ids are strictly increasing and readable. |
| LstmSequences.DistinctCount | helixerprep/prediction/LSTMModel.py:15-16 | Distinct elements occur once. |
| LstmSequences.RepeatCount | helixerprep/prediction/LSTMModel.py:15-16 | A repeated index occurs at least twice in the multiset of the slice. |
| LstmSequences.PySliceDistinct | helixerprep/prediction/LSTMModel.py:14 | A slice of distinct elements is distinct. |
| LstmSequences.WindowReadable | helixerprep/prediction/LSTMModel.py:15-18 | A sorted permutation of distinct in-range indices is readable. |
| LstmSequences.SliceInRange | helixerprep/prediction/LSTMModel.py:14-15 | A window of distinct in-range usable indices is distinct and in range. |
| LstmSequences.SameElementsInRange | helixerprep/prediction/LSTMModel.py:15-16 | A permutation keeps every id in range. |
| LstmSequences.SortedDistinctIncreasing | helixerprep/prediction/LSTMModel.py:15 | Sorted and distinct means strictly increasing. |
| LstmSequences.Clip | helixerprep/prediction/LSTMModel.py:21-26 | Dropping the overhang leaves the largest multiple of the pool size, as a prefix of the row. |
| LstmSequences.PoolFeatures | helixerprep/prediction/LSTMModel.py:28-32 | The X reshape: L/ps timesteps of ps·f features each. |
| LstmSequences.PoolFeaturesAt | helixerprep/prediction/LSTMModel.py:28-32 | Feature k·f + j of timestep t is feature j of position t·ps + k. |
| LstmSequences.Unmasked | helixerprep/prediction/LSTMModel.py:54-55 | A pool is 1 iff none of its weights is 0, and 0 otherwise. |
| LstmSequences.PoolMasks | helixerprep/prediction/LSTMModel.py:54-55 | One 0/1 flag per pool. |
| LstmSequences.PoolClassWeights | helixerprep/prediction/LSTMModel.py:46-50 | One summed class weight per pool. |
| LstmSequences.GetItem | helixerprep/prediction/LSTMModel.py:12-56 | For the window `w = usable_idx[idx·bs : (idx+1)·bs]`: an empty window fails; a window with a repeated or out-of-range index fails h5py's read; pools longer than a row fail the reshape; otherwise the batch has one sample per element of `w`, unpooled for pool size ≤ 1 and pooled with the reshaped shapes above it. The batch is `ReadItem` of a sorted arrangement of `w`. |
| LstmSequences.ReadableIff | helixerprep/prediction/LSTMModel.py:15-18 | A sorted arrangement of a window is readable iff the window's indices are distinct and in range. |
| LstmSequences.ReadItem | helixerprep/prediction/LSTMModel.py:16-56 | An empty window fails. Unreadable ids fail (h5py's index rules). A pool size above the row length fails the reshape. With pool size ≤ 1 the result is the stacked rows unchanged. Otherwise it is the pooled batch with its shapes. |
| LstmSequences.PoolX | helixerprep/prediction/LSTMModel.py:28-32 | The pooled inputs of every sample. |
| LstmSequences.PoolY | helixerprep/prediction/LSTMModel.py:34-39 | The pooled labels of every sample, classes last. |
| LstmSequences.PoolLabels | helixerprep/prediction/LSTMModel.py:34-39 | One sample's label pools. |
| LstmSequences.PoolWeighted | helixerprep/prediction/LSTMModel.py:41-50 | The class-weighted sample weights of every sample. |
| LstmSequences.PoolSw | helixerprep/prediction/LSTMModel.py:51-55 | The masked pooled sample weights of every sample. |
| LstmSequences.UnpooledAsRead | helixerprep/prediction/LSTMModel.py:16-20 | With pool size ≤ 1 the readable batch is the stacked rows of the three datasets. |
| LstmSequences.PooledParts | helixerprep/prediction/LSTMModel.py:20-55 | With pool size > 1 the batch is the pooled X and y of the clipped rows. Its weights are the class-weighted ones when class weights are given, and the masked ones otherwise. |
| LstmSequences.PoolXAt | helixerprep/prediction/LSTMModel.py:28-32 | Feature k·f + j of timestep t of sample i is feature j of position t·ps + k. |
| LstmSequences.PoolYAt | helixerprep/prediction/LSTMModel.py:34-39 | Label row k of timestep t of sample i is the label row of position t·ps + k. |
| LstmSequences.PoolSwAt | helixerprep/prediction/LSTMModel.py:52-55 | A timestep's weight is 1 iff no base of its pool has weight 0, and 0 otherwise. |
| LstmSequences.PoolWeightedAt | helixerprep/prediction/LSTMModel.py:46-50 | A timestep's weight is the sum of the class weights of the classes that occur in its pool. |
| LstmSequences.SingleClassPoolWeight | helixerprep/prediction/LSTMModel.py:46-50 | A pool whose bases are all of class c weighs exactly `class_weights[c]`. |
| LstmSequences.ClassWeightAtLeast | helixerprep/prediction/LSTMModel.py:46-50 | With non-negative class weights, a pool weighs at least the weight of every class it contains. |

## Left out

- Database I/O, sessions and commits. The store is modelled as tables in memory, and one
  commit as one atomic update.
- The `intervaltree` library. A tree is a sequence of single-position entries, and a
  query is a filter on them.
- geenuff. Its 5'-to-3' transition walk (`transition_5p_to_3p`) is a function passed to
  the slicer; the model assumes its groups are non-empty and name features of the store.
  The handler machinery is not modelled, and `position` is read as the feature's `start`.
  geenuff's `fax_all_attrs_to_another`, which `new_handled_data` calls on a border split's
  template, is assumed to copy every attribute of the template, its piece links included;
  the model's copy therefore starts with the template's links (`AnnotationDb.BorderSplitEffect`).
- `TrimSpec.Step`: one piece per group stands both for the piece the walk yields (compared
  with `piece_at_border`) and for `f0.data.transcribed_piece` of the group's first feature,
  which becomes the border piece. The model assumes the walk yields the first feature's
  piece; geenuff's walk is not part of this model.
- Python's iteration order of the set of super-loci a slice finds is the input `order`.
  The lemmas assume only that it lists each element of the set once (`EnumeratesSets`);
  `SliceAnnotations` and its controller hold for every order.
- The transcripts of a super-locus (`self.data.transcribeds`) are the input
  `transcriptsOf`, and their order is its order. The lemmas that relate them to the store
  assume `ListsTranscripts`: the list holds the store's transcripts of that super-locus,
  each once.
- After a failed slice the controller's state is not stated: the error aborts the run.
- A run that raises AssertionError aborts. After one, the model leaves the state
  unspecified.
- `TranscriptTrimmer.ModifyForNewSlice`'s contract is stated as the walk under
  `TrimSpec.Walk`. Producing the groups is geenuff's, as above.
- h5py files, dtypes, compression and float16. Floats are reals, unsigned 64-bit
  wrap-around is not modelled, and numpy integer widths are unbounded integers.
- `_apply_stretch`: `SquishTwToSw` models stretch 0.
- The overlapping-prediction branch of `get_batch_of_one_dataset` and `__len__`, and its
  adjusted epoch length.
- `_add_to_uncertainty`, `_get_normalized_cm` and all printing and table output of the
  confusion matrix.
- `sklearn`'s `train_test_split` in `_split_coords_by_N90`: only the N90 cut is modelled.
  `random.random()` draws are inputs.
- `CoordNumerifier`: its per-strand output is an input. The masked and intergenic
  percentage statistics of `_numerify_coord` are only printed and are not modelled.
- `Export.N90Threshold` is the integer formula `(9 * total) / 10`. It agrees with the
  double product `int(total * 0.9)` for totals below 2^49, which covers every genome.
- `Export.N90Index`: Python's fall-through returns None for an empty list. The caller's
  `None + 1` TypeError is not modelled.
- `Export.H5Data.SaveData` requires that every chunk fits the chunk size and has the
  dataset's widths, otherwise numpy raises on the assignment. That exception path is not
  modelled.
- `HelixerSequences.ZeroOutUtrs` takes the label rows with all leading axes flattened
  into one array of rows.
- `HelixerSequences.MkTimestepPoolsClassLast` requires a 3-d array by its type, where the
  source asserts it.
- `LstmSequences.ReadItem`: without class weights the pooled sample weights are reals
  (0.0/1.0) rather than int8.
- `LstmSequences.ReadItem` requires exactly four class weights and at least four label
  columns. numpy broadcasting of class weights of other lengths is not modelled.
- `LstmSequences.ReadItem`: h5py's rule that fancy indices be increasing and in range is
  modelled as the UnreadableIndices error.
- HelixerModel's `HelixerSequence` constructor, which builds `usable_idx`, is not part of
  this model; `usable_idx` is an input.
- The Keras models, training, and the callbacks are not modelled.

## Findings

| source | as written | input that shows it | evidently intended | confidence | as-written member | corrected member |
|---|---|---|---|---|---|---|
| helixerprep/datas/annotations/slicer.py:236-240 | After NoFeaturesInSliceError, the double check uses closed windows: `start <= position <= end` on the plus strand and `start - 1 <= position <= end - 1` on the minus strand. Each one holds a position just downstream of the half-open slice. | Plus-strand slice [1000, 2000) and one super-locus with two transcripts: transcript 0 has a feature at 1500, transcript 1 only a feature [2000, 2500). The lookup finds feature 0 (the entry [2000, 2001) is outside `tree[1000:2000]`), so the super-locus is trimmed. Transcript 0 is trimmed; transcript 1's walk finds its feature downstream and raises NoFeaturesInSliceError. The check then sees position 2000 inside [1000, 2000], and the AssertionError aborts the slicing run. | The window the lookup and the classifier use: `start <= position < end` on both strands. | not executed | SlicePass.SiblingTranscriptAborts | SlicePass.CoveredTranscriptPassesRecheck |
