/**
 * A somatic mutation: its chromosome, 0-based start, end, reference allele
 * and alternate allele (SomaticMutation.py).  The record is immutable; its
 * accessors are the datatype's fields.
 */
module SomaticMutations {
  import opened Series

  datatype SomaticMutation = SomaticMutation(chrom: string, start: int, end: int, refAllele: string, altAllele: string)

  /** The columns of one MAF row that a mutation is made from, already converted by `str` and `int`. */
  datatype MafRow = MafRow(
    chromosome: string,
    startPosition: int,
    endPosition: int,
    referenceAllele: string,
    tumorSeqAllele2: string,
    variantType: string,
    variantClassification: string)

  /**
   * `__eq__`: two mutations are equal exactly when all five fields agree,
   * which is structural equality of the record.
   */
  function Equal(m: SomaticMutation, other: SomaticMutation): (eq: bool)
    ensures eq <==> m == other
  {
    m.chrom == other.chrom && m.start == other.start && m.end == other.end
    && m.refAllele == other.refAllele && m.altAllele == other.altAllele
  }

  /**
   * `create`: the MAF row's 1-based inclusive start becomes a 0-based start;
   * the end is kept as it is, so [start, end) is the same stretch of bases.
   */
  function Create(row: MafRow): (m: SomaticMutation)
    ensures m.start + 1 == row.startPosition && m.end == row.endPosition
    ensures m.end - m.start == row.endPosition - row.startPosition + 1
    ensures m.chrom == row.chromosome && m.refAllele == row.referenceAllele && m.altAllele == row.tumorSeqAllele2
  {
    SomaticMutation(row.chromosome, row.startPosition - 1, row.endPosition, row.referenceAllele, row.tumorSeqAllele2)
  }

  /** Two MAF rows give equal mutations exactly when their five used columns agree. */
  lemma CreateEqualIff(row: MafRow, row': MafRow)
    ensures Equal(Create(row), Create(row')) <==>
      (row.chromosome, row.startPosition, row.endPosition, row.referenceAllele, row.tumorSeqAllele2) ==
      (row'.chromosome, row'.startPosition, row'.endPosition, row'.referenceAllele, row'.tumorSeqAllele2)
  {
  }

  const SeriesLabels: seq<string> := ["Chromosome", "Start_position", "End_position", "Reference_Allele", "Tumor_Seq_Allele2"]

  /** `retrieve_as_series`: the five fields under their MAF column labels, in order. */
  function AsSeries(m: SomaticMutation): (s: Series)
    ensures s.WellFormed() && s.labels == SeriesLabels
    ensures s.data == [Text(m.chrom), Number(m.start), Number(m.end), Text(m.refAllele), Text(m.altAllele)]
  {
    Series(SeriesLabels, [Text(m.chrom), Number(m.start), Number(m.end), Text(m.refAllele), Text(m.altAllele)])
  }

  /**
   * The series of a mutation made from a MAF row gives back every column of
   * the row it used, except that `Start_position` is the 0-based start, one
   * less than the row's.
   */
  lemma SeriesOfCreate(row: MafRow)
    ensures AsSeries(Create(row)).At(0) == Text(row.chromosome)
    ensures AsSeries(Create(row)).At(1) == Number(row.startPosition - 1)
    ensures AsSeries(Create(row)).At(2) == Number(row.endPosition)
    ensures AsSeries(Create(row)).At(3) == Text(row.referenceAllele)
    ensures AsSeries(Create(row)).At(4) == Text(row.tumorSeqAllele2)
  {
  }

  /** The series determines the mutation: different mutations have different series. */
  lemma AsSeriesInjective(m: SomaticMutation, m': SomaticMutation)
    requires AsSeries(m) == AsSeries(m')
    ensures m == m'
  {
    assert AsSeries(m).data[0] == AsSeries(m').data[0];
    assert AsSeries(m).data[1] == AsSeries(m').data[1];
    assert AsSeries(m).data[2] == AsSeries(m').data[2];
    assert AsSeries(m).data[3] == AsSeries(m').data[3];
    assert AsSeries(m).data[4] == AsSeries(m').data[4];
  }
}
