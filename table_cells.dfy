/**
 * The integer cells of an artifact contingency table, as the constructors of
 * ArtifactAnalysisTable.py and ArtifactContingencyTableAnalysis.py store
 * them (the two constructors are identical), with their two 2x2 renderings
 * and their labelled series.
 */
module TableCells {
  import opened Wrappers
  import opened Series

  /**
   * The eight counts a table is made from, and the four soft-clip-augmented
   * cells derived from them.
   */
  datatype Table = Table(
    altNonRef: int,
    altRef: int,
    refNonRef: int,
    refRef: int,
    altSoftClipped: int,
    refSoftClipped: int,
    altOverlapping: int,
    refOverlapping: int,
    altNonRefSoftClipped: int,
    altRefSoftClipped: int,
    refNonRefSoftClipped: int,
    refRefSoftClipped: int)

  /** The relation the constructor sets up between the raw and the soft-clip-augmented cells. */
  predicate Augmented(t: Table) {
    && t.altNonRefSoftClipped == t.altNonRef + t.altSoftClipped
    && t.refNonRefSoftClipped == t.refNonRef + t.refSoftClipped
    && t.altRefSoftClipped == t.altRef
    && t.refRefSoftClipped == t.refRef
  }

  /**
   * `__init__` (integer cells only): the soft-clip table adds each side's soft
   * clips to its non-reference cell and copies the reference cells.
   */
  function NewTable(altNonRef: int, altRef: int, refNonRef: int, refRef: int,
                    altSoftClipped: int, refSoftClipped: int,
                    altOverlapping: int, refOverlapping: int): (t: Table)
    ensures Augmented(t)
    ensures t.altNonRef == altNonRef && t.altRef == altRef && t.refNonRef == refNonRef && t.refRef == refRef
    ensures t.altSoftClipped == altSoftClipped && t.refSoftClipped == refSoftClipped
    ensures t.altOverlapping == altOverlapping && t.refOverlapping == refOverlapping
  {
    Table(altNonRef, altRef, refNonRef, refRef, altSoftClipped, refSoftClipped, altOverlapping, refOverlapping,
          altNonRef + altSoftClipped, altRef, refNonRef + refSoftClipped, refRef)
  }

  /** A table is determined by the eight counts it was made from. */
  lemma NewTableFromFields(t: Table)
    requires Augmented(t)
    ensures NewTable(t.altNonRef, t.altRef, t.refNonRef, t.refRef, t.altSoftClipped, t.refSoftClipped,
                     t.altOverlapping, t.refOverlapping) == t
  {
  }

  /** The integer margins of the raw table. */
  function Total(t: Table): int {
    t.altNonRef + t.altRef + t.refNonRef + t.refRef
  }

  /** The integer margins of the soft-clip table. */
  function TotalSoftClipped(t: Table): int {
    t.altNonRefSoftClipped + t.altRefSoftClipped + t.refNonRefSoftClipped + t.refRefSoftClipped
  }

  /**
   * With non-negative soft-clip counts the augmented non-reference cells are
   * at least the raw ones, and the soft-clip table's total exceeds the raw
   * total by exactly the soft clips.
   */
  lemma AugmentedCells(t: Table)
    requires Augmented(t)
    requires t.altSoftClipped >= 0 && t.refSoftClipped >= 0
    ensures t.altNonRefSoftClipped >= t.altNonRef && t.refNonRefSoftClipped >= t.refNonRef
    ensures TotalSoftClipped(t) == Total(t) + t.altSoftClipped + t.refSoftClipped
  {
  }

  /** `render_contingency_table`: rows non-ref / ref, columns alt-supporting / ref-supporting. */
  function Render(t: Table): (rows: seq<seq<int>>)
    ensures |rows| == 2 && |rows[0]| == 2 && |rows[1]| == 2
  {
    [[t.altNonRef, t.refNonRef], [t.altRef, t.refRef]]
  }

  /** `render_soft_clipped_contingency_table`: the same layout over the augmented cells. */
  function RenderSoftClipped(t: Table): (rows: seq<seq<int>>)
    ensures |rows| == 2 && |rows[0]| == 2 && |rows[1]| == 2
  {
    [[t.altNonRefSoftClipped, t.refNonRefSoftClipped], [t.altRefSoftClipped, t.refRefSoftClipped]]
  }

  /**
   * The soft-clip rendering of a constructed table is the plain rendering
   * with each column's soft clips added to its non-reference row; the
   * reference row is unchanged.
   */
  lemma RenderSoftClippedShift(t: Table)
    requires Augmented(t)
    ensures RenderSoftClipped(t)[0][0] == Render(t)[0][0] + t.altSoftClipped
    ensures RenderSoftClipped(t)[0][1] == Render(t)[0][1] + t.refSoftClipped
    ensures RenderSoftClipped(t)[1] == Render(t)[1]
  {
  }

  /** The twenty field names of a table's series, in order. */
  const FieldNames: seq<string> := [
    "alt_non_ref_pileupread_bp_count",
    "alt_ref_pileupread_bp_count",
    "expected_alt_non_ref_pileupread_bp_count",
    "expected_alt_ref_pileupread_bp_count",
    "alt_non_ref_soft_clipped_pileupread_bp_count",
    "alt_ref_soft_clipped_pileupread_bp_count",
    "expected_alt_non_ref_soft_clipped_pileupread_bp_count",
    "expected_alt_ref_soft_clipped_pileupread_bp_count",
    "alt_soft_clipped_pileupread_bp_count",
    "alt_overlapping_aligned_segment_count",
    "ref_non_ref_pileupread_bp_count",
    "ref_ref_pileupread_bp_count",
    "expected_ref_non_ref_pileupread_bp_count",
    "expected_ref_ref_pileupread_bp_count",
    "ref_non_ref_soft_clipped_pileupread_bp_count",
    "ref_ref_soft_clipped_pileupread_bp_count",
    "expected_ref_non_ref_soft_clipped_pileupread_bp_count",
    "expected_ref_ref_soft_clipped_pileupread_bp_count",
    "ref_soft_clipped_pileupread_bp_count",
    "ref_overlapping_aligned_segment_count"]

  /** The values under `FieldNames`, in the same order; expected counts are not modelled. */
  function FieldValues(t: Table): (values: seq<Cell>)
    ensures |values| == |FieldNames|
  {
    [Number(t.altNonRef), Number(t.altRef), Expected, Expected,
     Number(t.altNonRefSoftClipped), Number(t.altRefSoftClipped), Expected, Expected,
     Number(t.altSoftClipped), Number(t.altOverlapping),
     Number(t.refNonRef), Number(t.refRef), Expected, Expected,
     Number(t.refNonRefSoftClipped), Number(t.refRefSoftClipped), Expected, Expected,
     Number(t.refSoftClipped), Number(t.refOverlapping)]
  }

  /** Every name with `prefix` in front and `suffix` behind. */
  function Decorate(names: seq<string>, prefix: string, suffix: string): (labels: seq<string>)
    ensures |labels| == |names|
    ensures forall i :: 0 <= i < |names| ==> labels[i] == prefix + names[i] + suffix
  {
    if |names| == 0 then [] else Decorate(names[..|names| - 1], prefix, suffix) + [prefix + names[|names| - 1] + suffix]
  }

  /**
   * `retrieve_table_as_series`: each field under `prefix + name + suffix`,
   * a missing prefix or suffix counting as the empty string.
   */
  function TableAsSeries(t: Table, prefix: Option<string>, suffix: Option<string>): (s: Series)
    ensures s.WellFormed() && |s.labels| == |FieldNames|
    ensures forall i :: 0 <= i < |FieldNames| ==>
      s.labels[i] == prefix.GetOr("") + FieldNames[i] + suffix.GetOr("") && s.data[i] == FieldValues(t)[i]
  {
    Series(Decorate(FieldNames, prefix.GetOr(""), suffix.GetOr("")), FieldValues(t))
  }

  /** A key of the series gives back its field name once the prefix and the suffix are cut off. */
  lemma LabelRoundTrip(t: Table, prefix: string, suffix: string, i: nat)
    requires i < |FieldNames|
    ensures var key := TableAsSeries(t, Some(prefix), Some(suffix)).labels[i];
      && |key| >= |prefix| + |suffix|
      && key[|prefix|..|key| - |suffix|] == FieldNames[i]
  {
    var key := TableAsSeries(t, Some(prefix), Some(suffix)).labels[i];
    assert key == prefix + FieldNames[i] + suffix;
    assert key[|prefix|..|key| - |suffix|] == FieldNames[i];
  }
}
