/**
 * Strand-aware position of one annotation feature relative to one slice window
 * (class FeatureVsCoords of the slicer).
 *
 * Coordinates follow the annotation store's conventions: on the plus strand a feature
 * covers [start, end); on the minus strand `start` is the 5' (higher) end and the
 * feature covers the positions end+1 .. start, so that its "effective" half-open
 * interval on the sequence is [end + 1, start + 1).
 */
module SliceGeometry {

  /** A coordinate row: the window [start, end) on sequence `seqid`. */
  datatype Coordinate = Coordinate(seqid: string, start: int, end: int)

  /** The six answers of the classifier's if-chain, in the order it tests them. */
  datatype Position =
    | Detached
    | Upstream
    | OverlapsUpstream
    | Contained
    | OverlapsDownstream
    | Downstream

  /**
   * One feature (its sequence id, strand, raw start and end) against one slice window,
   * interpreted on the strand of the current slicing pass.
   */
  datatype FeatureVsCoords = FeatureVsCoords(
    featureSeqid: string,
    featureIsPlusStrand: bool,
    featureStart: int,
    featureEnd: int,
    slice: Coordinate,
    isPlusStrand: bool)
  {
    /** Effective (sequence-order) start of the feature. */
    function PyStart(): int {
      if isPlusStrand then featureStart else featureEnd + 1
    }

    /** Effective (sequence-order) exclusive end of the feature. */
    function PyEnd(): int {
      if isPlusStrand then featureEnd else featureStart + 1
    }

    predicate IsDetached() {
      slice.seqid != featureSeqid || isPlusStrand != featureIsPlusStrand
    }

    predicate IsLower() { slice.start - PyEnd() >= 0 }

    predicate IsHigher() { PyStart() - slice.end >= 0 }

    predicate IsUpstream() { if isPlusStrand then IsLower() else IsHigher() }

    predicate IsDownstream() { if isPlusStrand then IsHigher() else IsLower() }

    predicate IsContained() {
      && slice.start <= PyStart() < slice.end
      && slice.start < PyEnd() <= slice.end
    }

    predicate OverlapsLower() { PyStart() < slice.start < PyEnd() }

    predicate OverlapsHigher() { PyStart() < slice.end < PyEnd() }

    predicate OverlapsUpstream() { if isPlusStrand then OverlapsLower() else OverlapsHigher() }

    predicate OverlapsDownstream() { if isPlusStrand then OverlapsHigher() else OverlapsLower() }
  }

  /**
   * The answer of the trimmer's if-chain: the first test that holds. The last
   * postcondition is the exhaustiveness of the chain: when no earlier test holds,
   * the feature IS downstream, so the chain's final `AssertionError` branch can
   * never be taken, for any feature and any window.
   */
  function Classify(v: FeatureVsCoords): (p: Position)
    ensures p == Detached <==> v.IsDetached()
    ensures p == Upstream <==> !v.IsDetached() && v.IsUpstream()
    ensures p == OverlapsUpstream <==>
      !v.IsDetached() && !v.IsUpstream() && v.OverlapsUpstream()
    ensures p == Contained <==>
      !v.IsDetached() && !v.IsUpstream() && !v.OverlapsUpstream() && v.IsContained()
    ensures p == OverlapsDownstream <==>
      !v.IsDetached() && !v.IsUpstream() && !v.OverlapsUpstream() && !v.IsContained()
      && v.OverlapsDownstream()
    ensures p == Downstream ==> v.IsDownstream()
  {
    if v.IsDetached() then Detached
    else if v.IsUpstream() then Upstream
    else if v.OverlapsUpstream() then OverlapsUpstream
    else if v.IsContained() then Contained
    else if v.OverlapsDownstream() then OverlapsDownstream
    else Downstream
  }

  /** Where a feature straddling the downstream border is cut. */
  function CutPoint(slice: Coordinate, isPlusStrand: bool): int {
    if isPlusStrand then slice.end else slice.start - 1
  }

  /** The same feature and window reflected through position 1/2 onto the plus strand. */
  function Mirror(v: FeatureVsCoords): (m: FeatureVsCoords)
    requires !v.isPlusStrand
    ensures m.isPlusStrand
  {
    FeatureVsCoords(v.featureSeqid, !v.featureIsPlusStrand, -v.featureStart, -v.featureEnd,
                    Coordinate(v.slice.seqid, 1 - v.slice.end, 1 - v.slice.start), true)
  }

  /**
   * "Upstream" and "downstream" mean 5' and 3' in transcription order: a minus-strand
   * feature is classified exactly like its mirror image on the plus strand, where the
   * minus strand's effective interval [end + 1, start + 1) is reflected onto
   * [-start, -end) and the window [a, b) onto [1 - b, 1 - a).
   */
  lemma MirrorSymmetry(v: FeatureVsCoords)
    requires !v.isPlusStrand
    ensures Mirror(v).PyStart() == 1 - v.PyEnd() && Mirror(v).PyEnd() == 1 - v.PyStart()
    ensures Mirror(v).IsUpstream() <==> v.IsUpstream()
    ensures Mirror(v).IsDownstream() <==> v.IsDownstream()
    ensures Mirror(v).OverlapsUpstream() <==> v.OverlapsUpstream()
    ensures Mirror(v).OverlapsDownstream() <==> v.OverlapsDownstream()
    ensures Classify(Mirror(v)) == Classify(v)
  {
  }

  /**
   * For one and the same effective interval, switching the pass to the other strand swaps
   * the upstream test with the downstream test and the overlaps-upstream test with the
   * overlaps-downstream test, while containment is unaffected.
   */
  lemma StrandSwapsDirection(v: FeatureVsCoords, w: FeatureVsCoords)
    requires w.featureSeqid == v.featureSeqid && w.slice == v.slice
    requires w.isPlusStrand == !v.isPlusStrand && w.featureIsPlusStrand == !v.featureIsPlusStrand
    requires w.PyStart() == v.PyStart() && w.PyEnd() == v.PyEnd()
    ensures w.IsUpstream() <==> v.IsDownstream()
    ensures w.IsDownstream() <==> v.IsUpstream()
    ensures w.OverlapsUpstream() <==> v.OverlapsDownstream()
    ensures w.OverlapsDownstream() <==> v.OverlapsUpstream()
    ensures w.IsContained() <==> v.IsContained()
    ensures w.IsDetached() <==> v.IsDetached()
  {
  }

  /** The part of `v` up to the cut point (the truncated original of a border split). */
  function Truncated(v: FeatureVsCoords): FeatureVsCoords {
    v.(featureEnd := CutPoint(v.slice, v.isPlusStrand))
  }

  /** The part of `v` from the cut point on (the remainder feature of a border split). */
  function Remainder(v: FeatureVsCoords): FeatureVsCoords {
    v.(featureStart := CutPoint(v.slice, v.isPlusStrand))
  }

  /**
   * A border split loses and gains no base: the effective intervals of the truncated
   * original and of the remainder are adjacent at the window border that the feature
   * straddled and together make up the original interval; afterwards the truncated
   * original lies inside the window and the remainder downstream of it.
   */
  lemma BorderSplitGeometry(v: FeatureVsCoords)
    requires Classify(v) == OverlapsDownstream
    ensures v.isPlusStrand ==>
      && Truncated(v).PyStart() == v.PyStart()
      && Truncated(v).PyEnd() == Remainder(v).PyStart() == v.slice.end
      && Remainder(v).PyEnd() == v.PyEnd()
    ensures !v.isPlusStrand ==>
      && Remainder(v).PyStart() == v.PyStart()
      && Remainder(v).PyEnd() == Truncated(v).PyStart() == v.slice.start
      && Truncated(v).PyEnd() == v.PyEnd()
    ensures v.PyStart() < CutPoint(v.slice, v.isPlusStrand) + (if v.isPlusStrand then 0 else 1) < v.PyEnd()
    ensures Classify(Truncated(v)) == Contained
    ensures Classify(Remainder(v)) == Downstream
  {
  }

  /**
   * Re-classification after a window has been resolved: a feature contained in one window
   * is upstream of every window that lies further downstream on the same sequence in the
   * transcription direction of its strand, and detached from every window of a pass on
   * the other strand.
   */
  lemma ResolvedFeatureStaysUpstream(v: FeatureVsCoords, later: Coordinate)
    requires Classify(v) == Contained
    requires later.seqid == v.slice.seqid
    requires v.isPlusStrand ==> v.slice.end <= later.start
    requires !v.isPlusStrand ==> later.end <= v.slice.start
    ensures Classify(v.(slice := later)) == Upstream
    ensures Classify(v.(slice := later, isPlusStrand := !v.isPlusStrand)) == Detached
  {
  }

  /**
   * A feature spanning the whole window is reported as overlapping upstream, because
   * that test comes first in the chain: [500, 2500) against [1000, 2000) on the plus strand.
   */
  lemma SpanningFeatureIsOverlapsUpstream()
    ensures Classify(FeatureVsCoords("chr1", true, 500, 2500, Coordinate("chr1", 1000, 2000), true))
            == OverlapsUpstream
  {
  }

  /**
   * Bases [0, 500) against [1000, 2000): upstream on the plus strand, downstream on the minus
   * strand, where the same bases are written start 499, end -1.
   */
  lemma StrandScenario()
    ensures Classify(FeatureVsCoords("chr1", true, 0, 500, Coordinate("chr1", 1000, 2000), true))
            == Upstream
    ensures Classify(FeatureVsCoords("chr1", false, 499, -1, Coordinate("chr1", 1000, 2000), false))
            == Downstream
  {
  }
}
