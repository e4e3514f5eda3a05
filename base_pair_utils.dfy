/**
 * The read-geometry helpers of BasePairUtils.py.  Its column naming and
 * mask intersection are the same as PileupColumnUtils' and are modelled
 * there once.
 */
module BasePairUtils {
  import opened Wrappers
  import opened Alignments

  /**
   * Python 2 orders `None` below every integer: `x > y` with `x` None is
   * False, and `x < y` is True.  Soft-clipped bases have no reference
   * position, so a read that starts or ends in a soft clip compares that
   * way.
   */
  predicate Py2Greater(x: Option<int>, y: int) {
    x.Some? && x.value > y
  }

  predicate Py2Less(x: Option<int>, y: int) {
    x.None? || x.value < y
  }

  /** The read's first aligned pair lies after `position` (as Python 2 compares). */
  predicate StartsAfter(segment: AlignedSegment, position: int)
    requires |segment.alignedPairs| > 0
  {
    Py2Greater(segment.alignedPairs[0].refPos, position)
  }

  /** The read's last aligned pair lies before `position` (as Python 2 compares). */
  predicate EndsBefore(segment: AlignedSegment, position: int)
    requires |segment.alignedPairs| > 0
  {
    Py2Less(segment.alignedPairs[|segment.alignedPairs| - 1].refPos, position)
  }

  /** The first CIGAR operation is a soft clip. */
  predicate ClippedAtStart(segment: AlignedSegment)
    requires |segment.cigar| > 0
  {
    segment.cigar[0].op == BamCSoftClip
  }

  /** The last CIGAR operation is a soft clip. */
  predicate ClippedAtEnd(segment: AlignedSegment)
    requires |segment.cigar| > 0
  {
    segment.cigar[|segment.cigar| - 1].op == BamCSoftClip
  }

  /**
   * `determine_soft_clipped_region_length` as written: the trailing case
   * tests whether the FIRST CIGAR operation is a soft clip and then reports
   * the LAST operation's length.  Whatever the positions, it gives 0 for a
   * read that does not start with a soft clip.
   */
  function SoftClippedRegionLengthAsWritten(position: int, segment: AlignedSegment): (length: nat)
    requires |segment.alignedPairs| > 0 && |segment.cigar| > 0
    ensures StartsAfter(segment, position) && ClippedAtStart(segment) ==> length == segment.cigar[0].len
    ensures !StartsAfter(segment, position) && EndsBefore(segment, position) && ClippedAtStart(segment) ==>
      length == segment.cigar[|segment.cigar| - 1].len
    ensures ClippedAtStart(segment) && !StartsAfter(segment, position) && !EndsBefore(segment, position) ==> length == 0
    ensures !ClippedAtStart(segment) ==> length == 0
  {
    var cigar := segment.cigar;
    if StartsAfter(segment, position) && cigar[0].op == BamCSoftClip then cigar[0].len
    else if EndsBefore(segment, position) && cigar[0].op == BamCSoftClip then cigar[|cigar| - 1].len
    else 0
  }

  /**
   * The length of the soft clip on the side of the read where `position`
   * lies: the leading clip when the read's aligned part starts after
   * `position`, the trailing clip when it ends before it, and 0 otherwise.
   * Any non-zero answer is the length of a soft-clip operation at that end.
   */
  function SoftClippedRegionLength(position: int, segment: AlignedSegment): (length: nat)
    requires |segment.alignedPairs| > 0 && |segment.cigar| > 0
    ensures StartsAfter(segment, position) && ClippedAtStart(segment) ==> length == segment.cigar[0].len
    ensures !(StartsAfter(segment, position) && ClippedAtStart(segment)) &&
            EndsBefore(segment, position) && ClippedAtEnd(segment) ==>
      length == segment.cigar[|segment.cigar| - 1].len
    ensures !(StartsAfter(segment, position) && ClippedAtStart(segment)) &&
            !(EndsBefore(segment, position) && ClippedAtEnd(segment)) ==>
      length == 0
    ensures length != 0 ==>
      (ClippedAtStart(segment) && length == segment.cigar[0].len) ||
      (ClippedAtEnd(segment) && length == segment.cigar[|segment.cigar| - 1].len)
  {
    var cigar := segment.cigar;
    if StartsAfter(segment, position) && cigar[0].op == BamCSoftClip then cigar[0].len
    else if EndsBefore(segment, position) && cigar[|cigar| - 1].op == BamCSoftClip then cigar[|cigar| - 1].len
    else 0
  }

  /**
   * A read whose only soft clip is at its start, seen at a position after
   * its aligned part: the code as written reports the length of the final
   * match operation, which is no soft clip at all; the corrected function
   * reports 0.  The first pair, inside the clip, has no reference position.
   */
  lemma TrailingCaseChecksWrongOperation()
    ensures var segment := AlignedSegment("r", [CigarOp(BamCSoftClip, 3), CigarOp(BamCMatch, 2)], None,
                                          [AlignedPair(Some(0), None), AlignedPair(Some(1), None), AlignedPair(Some(2), None),
                                           AlignedPair(Some(3), Some(100)), AlignedPair(Some(4), Some(101))], "AC");
      && SoftClippedRegionLengthAsWritten(200, segment) == 2
      && SoftClippedRegionLength(200, segment) == 0
  {
  }

  /**
   * With the soft clips' pairs in the list, their missing reference
   * positions decide the comparisons: a read starting in a clip never takes
   * the leading case, and a read ending in a clip takes the trailing case at
   * every position.
   */
  lemma UnplacedEndsCompareAsNone(position: int, segment: AlignedSegment)
    requires |segment.alignedPairs| > 0 && |segment.cigar| > 0
    ensures segment.alignedPairs[0].refPos.None? ==> !StartsAfter(segment, position)
    ensures segment.alignedPairs[|segment.alignedPairs| - 1].refPos.None? && !StartsAfter(segment, position) ==>
      SoftClippedRegionLengthAsWritten(position, segment) ==
        (if ClippedAtStart(segment) then segment.cigar[|segment.cigar| - 1].len else 0) &&
      SoftClippedRegionLength(position, segment) ==
        (if ClippedAtEnd(segment) then segment.cigar[|segment.cigar| - 1].len else 0)
  {
  }

  /** The two versions differ only when the first and the last operation disagree about being a soft clip. */
  lemma {:induction false} AsWrittenAgreesWhenEndsMatch(position: int, segment: AlignedSegment)
    requires |segment.alignedPairs| > 0 && |segment.cigar| > 0
    requires ClippedAtStart(segment) == ClippedAtEnd(segment)
    ensures SoftClippedRegionLengthAsWritten(position, segment) == SoftClippedRegionLength(position, segment)
  {
  }

  /** `aligned_segment_has_del`: `position` is not among the read's aligned reference positions. */
  function AlignedSegmentHasDel(alignedSegmentPositions: seq<int>, position: int): (hasDel: bool)
    ensures hasDel <==> forall i :: 0 <= i < |alignedSegmentPositions| ==> alignedSegmentPositions[i] != position
  {
    position !in alignedSegmentPositions
  }
}
