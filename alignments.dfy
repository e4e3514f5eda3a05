/**
 * The parts of an aligned read that the core looks at, as plain values.
 * They stand for the alignment library's records: an aligned segment (one
 * read's alignment) and a pileup read (that segment seen at one reference
 * column).
 */
module Alignments {
  import opened Wrappers

  // CIGAR operation codes, as in section 4.2 of the SAM/BAM format
  // specification (SAMv1): M = 0, I = 1, D = 2, S = 4.
  const BamCMatch: int := 0
  const BamCIns: int := 1
  const BamCDel: int := 2
  const BamCSoftClip: int := 4

  /** One CIGAR operation: its code and its (unsigned) length. */
  datatype CigarOp = CigarOp(op: int, len: nat)

  /**
   * One aligned pair: the offset in the read (None inside a deletion) and the
   * reference position (None inside an insertion or a soft clip).
   */
  datatype AlignedPair = AlignedPair(queryPos: Option<int>, refPos: Option<int>)

  /** An aligned segment: the read's name, CIGAR, edit-distance tag NM (None when missing), aligned pairs and aligned bases. */
  datatype AlignedSegment = AlignedSegment(
    queryName: string,
    cigar: seq<CigarOp>,
    nm: Option<int>,
    alignedPairs: seq<AlignedPair>,
    queryAlignmentSequence: string)

  /**
   * A read at one pileup column: its alignment, whether the column falls in
   * a deletion of the read, the pending indel length after the column
   * (> 0 insertion, < 0 deletion, 0 none), and the read's base at the column
   * (`query_sequence[query_position]`).
   */
  datatype PileupRead = PileupRead(alignment: AlignedSegment, isDel: bool, indel: int, base: char)
}
