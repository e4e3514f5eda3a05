/**
 * The per-read tests and the windowed counters of
 * ArtifactAnalysisTableUtils.py.  A window is the set of columns around a
 * mutation; the counters sum a per-read quantity over the reads of the
 * unmasked columns whose query names belong to one side (ref- or
 * alt-supporting) of the partition.
 */
module ArtifactAnalysisTableUtils {
  import opened Wrappers
  import opened Seqs
  import opened OrderedMaps
  import opened Alignments
  import opened PileupColumnKnapsacks
  import BasePairUtils

  // ---------------------------------------------------------------------
  // Per-read tests (the same tests serve ArtifactContingencyTableAnalysisUtils.py)

  /** `pileupread_has_indel`: the column is inside a deletion of the read, or an insertion follows it. */
  predicate HasIndel(read: PileupRead) {
    read.isDel || read.indel > 0
  }

  /** `pileupread_has_alt_allele`: no indel and the read's base is the alternate allele. */
  predicate HasAltAllele(read: PileupRead, altAllele: string) {
    !HasIndel(read) && [read.base] == altAllele
  }

  /** `pileupread_has_ref_allele`: no indel and the read's base is the reference allele. */
  predicate HasRefAllele(read: PileupRead, refAllele: string) {
    !HasIndel(read) && [read.base] == refAllele
  }

  /**
   * A pending deletion alone is no indel; indel reads support neither
   * allele; a base supports at most one of two different alleles; and a
   * read without indel supports an allele exactly when its base is it.
   */
  lemma AlleleTests(read: PileupRead, refAllele: string, altAllele: string)
    ensures !read.isDel && read.indel < 0 ==> !HasIndel(read)
    ensures HasIndel(read) ==> !HasRefAllele(read, refAllele) && !HasAltAllele(read, altAllele)
    ensures refAllele != altAllele ==> !(HasRefAllele(read, refAllele) && HasAltAllele(read, altAllele))
    ensures !HasIndel(read) ==>
      (HasRefAllele(read, refAllele) <==> [read.base] == refAllele) &&
      (HasAltAllele(read, altAllele) <==> [read.base] == altAllele)
  {
  }

  /**
   * `_retrieve_non_ref_length`: non-reference evidence of one read at one
   * column.  A read inside a deletion gives nothing.  A pending insertion or
   * deletion gives 1 when binarized and its length otherwise, and a base
   * other than the reference adds 1 more.  The result is 0 exactly when the
   * read is inside a deletion or carries no pending indel and matches the
   * reference.
   */
  function NonRefLength(read: PileupRead, refAllele: string, binarize: bool): (length: nat)
    ensures read.isDel ==> length == 0
    ensures length == 0 <==> read.isDel || (read.indel == 0 && [read.base] == refAllele)
  {
    var mismatch := if [read.base] != refAllele then 1 else 0;
    if !read.isDel && read.indel > 0 then (if binarize then 1 else read.indel) + mismatch
    else if !read.isDel && read.indel < 0 then (if binarize then 1 else -read.indel) + mismatch
    else if !read.isDel then mismatch
    else 0
  }

  /** Binarizing never counts more than the full indel length, and gives at most 2 per read. */
  lemma BinarizedNonRefAtMost(read: PileupRead, refAllele: string)
    ensures NonRefLength(read, refAllele, true) <= NonRefLength(read, refAllele, false)
    ensures NonRefLength(read, refAllele, true) <= 2
  {
  }

  /** A read without pending indel and not in a deletion counts either as reference or as non-reference, never both. */
  lemma PlainReadRefOrNonRef(read: PileupRead, refAllele: string, binarize: bool)
    requires !read.isDel && read.indel == 0
    ensures NonRefLength(read, refAllele, binarize) + (if HasRefAllele(read, refAllele) then 1 else 0) == 1
  {
  }

  /**
   * A read whose base matches the reference but that has a deletion pending
   * after the column is reference-supporting and also carries non-reference
   * length.
   */
  lemma PendingDeletionCountsBoth(read: PileupRead, refAllele: string, binarize: bool)
    requires !read.isDel && read.indel < 0 && [read.base] == refAllele
    ensures HasRefAllele(read, refAllele)
    ensures NonRefLength(read, refAllele, binarize) == if binarize then 1 else -read.indel
  {
  }

  // ---------------------------------------------------------------------
  // Soft clips

  /** The soft-clip length of a CIGAR: per soft-clip operation, 1 when binarized, else its length. */
  function SoftClippedLength(cigar: seq<CigarOp>, binarize: bool): nat {
    if |cigar| == 0 then 0
    else
      var last := cigar[|cigar| - 1];
      SoftClippedLength(cigar[..|cigar| - 1], binarize) +
      (if last.op == BamCSoftClip then (if binarize then 1 else last.len) else 0)
  }

  /** `_retrieve_soft_clipped_length`: the loop over the read's CIGAR operations. */
  method RetrieveSoftClippedLength(read: PileupRead, binarize: bool) returns (length: nat)
    ensures length == SoftClippedLength(read.alignment.cigar, binarize)
  {
    var cigar := read.alignment.cigar;
    length := 0;
    var i := 0;
    while i < |cigar|
      invariant 0 <= i <= |cigar|
      invariant length == SoftClippedLength(cigar[..i], binarize)
    {
      assert cigar[..i + 1][..i] == cigar[..i];
      if cigar[i].op == BamCSoftClip {
        if !binarize {
          length := length + cigar[i].len;
        } else {
          length := length + 1;
        }
      }
      i := i + 1;
    }
    assert cigar[..i] == cigar;
  }

  /** Binarized, the soft-clip length is 0 exactly when the CIGAR has no soft-clip operation. */
  lemma {:induction false} BinarizedSoftClipZeroIff(cigar: seq<CigarOp>)
    ensures SoftClippedLength(cigar, true) == 0 <==> forall i :: 0 <= i < |cigar| ==> cigar[i].op != BamCSoftClip
  {
    if |cigar| > 0 {
      var init := cigar[..|cigar| - 1];
      BinarizedSoftClipZeroIff(init);
      assert forall i :: 0 <= i < |init| ==> init[i] == cigar[i];
    }
  }

  /** With non-empty operations, counting soft clips gives no more than summing their lengths. */
  lemma {:induction false} BinarizedSoftClipAtMost(cigar: seq<CigarOp>)
    requires forall i :: 0 <= i < |cigar| ==> cigar[i].len > 0
    ensures SoftClippedLength(cigar, true) <= SoftClippedLength(cigar, false)
  {
    if |cigar| > 0 {
      BinarizedSoftClipAtMost(cigar[..|cigar| - 1]);
    }
  }

  /** The soft-clip length of two CIGAR pieces put together is the sum of theirs. */
  lemma {:induction false} SoftClippedLengthAppend(a: seq<CigarOp>, b: seq<CigarOp>, binarize: bool)
    ensures SoftClippedLength(a + b, binarize) == SoftClippedLength(a, binarize) + SoftClippedLength(b, binarize)
    decreases |b|
  {
    if |b| > 0 {
      assert (a + b)[..|a + b| - 1] == a + b[..|b| - 1];
      SoftClippedLengthAppend(a, b[..|b| - 1], binarize);
    } else {
      assert a + b == a;
    }
  }

  /** Each soft-clip operation's length is part of the total soft-clip length. */
  lemma {:induction false} SoftClipOpWithinTotal(cigar: seq<CigarOp>, i: nat)
    requires i < |cigar| && cigar[i].op == BamCSoftClip
    ensures cigar[i].len <= SoftClippedLength(cigar, false)
  {
    if i < |cigar| - 1 {
      assert cigar[..|cigar| - 1][i] == cigar[i];
      SoftClipOpWithinTotal(cigar[..|cigar| - 1], i);
    }
  }

  /**
   * The soft-clipped region that BasePairUtils reports for a read is never
   * longer than the read's total soft-clip length.
   */
  lemma RegionWithinSoftClips(position: int, segment: AlignedSegment)
    requires |segment.alignedPairs| > 0 && |segment.cigar| > 0
    ensures BasePairUtils.SoftClippedRegionLength(position, segment) <= SoftClippedLength(segment.cigar, false)
  {
    var cigar := segment.cigar;
    if cigar[0].op == BamCSoftClip {
      SoftClipOpWithinTotal(cigar, 0);
    }
    if cigar[|cigar| - 1].op == BamCSoftClip {
      SoftClipOpWithinTotal(cigar, |cigar| - 1);
    }
  }

  // ---------------------------------------------------------------------
  // Restricting the window to unmasked columns

  /** The columns that `mask` knows and does not mask. */
  function Unmasked(mask: OMap<string, bool>): (cols: set<string>)
    ensures forall c :: c in cols <==> c in mask.values && !mask.values[c]
  {
    set c | c in mask.values && !mask.values[c]
  }

  /** The query names with a read at `column`. */
  function NamesAt(knapsack: PileupColumnKnapsack, column: string): set<string> {
    if column in knapsack.pileupreadKnapsacks.values then knapsack.pileupreadKnapsacks.values[column].pileupreads.Keys
    else {}
  }

  /** The read with query name `name` at `column`. */
  function ReadAt(knapsack: PileupColumnKnapsack, column: string, name: string): PileupRead
    requires name in NamesAt(knapsack, column)
  {
    knapsack.pileupreadKnapsacks.values[column].pileupreads[name]
  }

  /** The reads at `column` of the names in `names`, in name order, skipping names with no read there. */
  function FoundReads(knapsack: PileupColumnKnapsack, column: string, names: seq<string>): seq<PileupRead> {
    if |names| == 0 then []
    else
      var prev := FoundReads(knapsack, column, names[..|names| - 1]);
      match RetrievePileupread(knapsack, column, names[|names| - 1])
      case Some(read) => prev + [read]
      case None => prev
  }

  /**
   * The found reads are exactly the reads of the names, filtered to those
   * present at the column, in the order of the names.
   */
  lemma {:induction false} FoundReadsAreFilteredNames(knapsack: PileupColumnKnapsack, column: string, names: seq<string>)
    ensures |FoundReads(knapsack, column, names)| == |FilterIn(names, NamesAt(knapsack, column))|
    ensures forall i :: 0 <= i < |FilterIn(names, NamesAt(knapsack, column))| ==>
      FoundReads(knapsack, column, names)[i] == ReadAt(knapsack, column, FilterIn(names, NamesAt(knapsack, column))[i])
  {
    if |names| > 0 {
      var init := names[..|names| - 1];
      var last := names[|names| - 1];
      FoundReadsAreFilteredNames(knapsack, column, init);
      var present := FilterIn(names, NamesAt(knapsack, column));
      var presentBefore := FilterIn(init, NamesAt(knapsack, column));
      assert present == presentBefore + (if last in NamesAt(knapsack, column) then [last] else []);
      var found := FoundReads(knapsack, column, names);
      var foundBefore := FoundReads(knapsack, column, init);
      var r := RetrievePileupread(knapsack, column, last);
      assert r.Some? <==> last in NamesAt(knapsack, column);
      assert found == foundBefore + (if r.Some? then [r.value] else []);
      forall i | 0 <= i < |present|
        ensures found[i] == ReadAt(knapsack, column, present[i])
      {
        if i < |presentBefore| {
          assert present[i] == presentBefore[i];
          assert found[i] == foundBefore[i];
        } else {
          assert present[i] == last;
          assert found[i] == r.value;
        }
      }
    }
  }

  /** The index that `retrieve_indexed_pileupreads` has built after the columns `cols`. */
  function IndexedOver(cols: seq<string>, knapsack: PileupColumnKnapsack, names: seq<string>, mask: OMap<string, bool>)
    : OMap<string, seq<PileupRead>>
  {
    if |cols| == 0 then Empty()
    else
      var c := cols[|cols| - 1];
      var prev := IndexedOver(cols[..|cols| - 1], knapsack, names, mask);
      if c in mask.values && !mask.values[c] then prev.Put(c, FoundReads(knapsack, c, names)) else prev
  }

  /**
   * Over distinct columns, the index keeps the unmasked columns in their
   * order, each holding the reads found there.
   */
  lemma {:induction false} IndexedOverShape(cols: seq<string>, knapsack: PileupColumnKnapsack, names: seq<string>, mask: OMap<string, bool>)
    requires Distinct(cols)
    ensures IndexedOver(cols, knapsack, names, mask).Valid()
    ensures IndexedOver(cols, knapsack, names, mask).keys == FilterIn(cols, Unmasked(mask))
    ensures forall c :: c in IndexedOver(cols, knapsack, names, mask).values ==>
      IndexedOver(cols, knapsack, names, mask).values[c] == FoundReads(knapsack, c, names)
  {
    if |cols| > 0 {
      DistinctPrefix(cols, |cols| - 1);
      LastNotInPrefix(cols);
      IndexedOverShape(cols[..|cols| - 1], knapsack, names, mask);
    }
  }

  /**
   * `retrieve_indexed_pileupreads`: for every knapsack column that the mask
   * holds as unmasked, in knapsack order, the list of reads found there for
   * the given names, in name order.
   */
  method RetrieveIndexedPileupreads(knapsack: PileupColumnKnapsack, names: seq<string>, mask: OMap<string, bool>)
    returns (indexed: OMap<string, seq<PileupRead>>)
    requires knapsack.pileupreadKnapsacks.Valid()
    ensures indexed == IndexedOver(PileupcolumnNames(knapsack), knapsack, names, mask)
    ensures indexed.Valid()
    ensures indexed.keys == FilterIn(PileupcolumnNames(knapsack), Unmasked(mask))
    ensures forall c :: c in indexed.values ==> indexed.values[c] == FoundReads(knapsack, c, names)
  {
    var cols := PileupcolumnNames(knapsack);
    indexed := Empty();
    var i := 0;
    while i < |cols|
      invariant 0 <= i <= |cols|
      invariant indexed == IndexedOver(cols[..i], knapsack, names, mask)
    {
      var c := cols[i];
      assert cols[..i + 1][..i] == cols[..i];
      if c in mask.values && !mask.values[c] {
        var prev := indexed;
        indexed := indexed.Put(c, []);
        var j := 0;
        while j < |names|
          invariant 0 <= j <= |names|
          invariant indexed == prev.Put(c, FoundReads(knapsack, c, names[..j]))
        {
          assert names[..j + 1][..j] == names[..j];
          var read := RetrievePileupread(knapsack, c, names[j]);
          if read.Some? {
            PutPut(prev, c, FoundReads(knapsack, c, names[..j]), FoundReads(knapsack, c, names[..j]) + [read.value]);
            indexed := indexed.Put(c, indexed.values[c] + [read.value]);
          }
          j := j + 1;
        }
        assert names[..j] == names;
      }
      i := i + 1;
    }
    assert cols[..i] == cols;
    IndexedOverShape(cols, knapsack, names, mask);
  }

  // ---------------------------------------------------------------------
  // Reference alleles of the window

  /** The knapsack columns whose fetched reference is non-empty. */
  function WithRefAllele(knapsack: PileupColumnKnapsack): (cols: set<string>)
    ensures forall c :: c in cols <==>
      c in knapsack.pileupreadKnapsacks.values && knapsack.pileupreadKnapsacks.values[c].refAllele != ""
  {
    set c | c in knapsack.pileupreadKnapsacks.values && knapsack.pileupreadKnapsacks.values[c].refAllele != ""
  }

  /** The map `retrieve_ref_alleles` has built after the columns `cols`. */
  function RefAllelesOver(cols: seq<string>, knapsack: PileupColumnKnapsack): OMap<string, string>
    requires forall c :: c in cols ==> c in knapsack.pileupreadKnapsacks.values
  {
    if |cols| == 0 then Empty()
    else
      var c := cols[|cols| - 1];
      var prev := RefAllelesOver(cols[..|cols| - 1], knapsack);
      var refAllele := knapsack.pileupreadKnapsacks.values[c].refAllele;
      if refAllele != "" then prev.Put(c, refAllele) else prev
  }

  lemma {:induction false} RefAllelesOverShape(cols: seq<string>, knapsack: PileupColumnKnapsack)
    requires forall c :: c in cols ==> c in knapsack.pileupreadKnapsacks.values
    requires Distinct(cols)
    ensures RefAllelesOver(cols, knapsack).Valid()
    ensures RefAllelesOver(cols, knapsack).keys == FilterIn(cols, WithRefAllele(knapsack))
    ensures forall c :: c in RefAllelesOver(cols, knapsack).values ==>
      RefAllelesOver(cols, knapsack).values[c] == knapsack.pileupreadKnapsacks.values[c].refAllele
  {
    if |cols| > 0 {
      DistinctPrefix(cols, |cols| - 1);
      LastNotInPrefix(cols);
      RefAllelesOverShape(cols[..|cols| - 1], knapsack);
    }
  }

  /**
   * `retrieve_ref_alleles`: the fetched reference of every knapsack column,
   * in knapsack order, leaving out columns whose reference is empty.
   */
  method RetrieveRefAlleles(knapsack: PileupColumnKnapsack) returns (refAlleles: OMap<string, string>)
    requires knapsack.pileupreadKnapsacks.Valid()
    ensures refAlleles == RefAllelesOver(PileupcolumnNames(knapsack), knapsack)
    ensures refAlleles.Valid()
    ensures refAlleles.keys == FilterIn(PileupcolumnNames(knapsack), WithRefAllele(knapsack))
    ensures forall c :: c in refAlleles.values ==> refAlleles.values[c] == knapsack.pileupreadKnapsacks.values[c].refAllele
  {
    var cols := PileupcolumnNames(knapsack);
    refAlleles := Empty();
    var i := 0;
    while i < |cols|
      invariant 0 <= i <= |cols|
      invariant refAlleles == RefAllelesOver(cols[..i], knapsack)
    {
      var c := cols[i];
      assert cols[..i + 1][..i] == cols[..i];
      var refAllele := knapsack.pileupreadKnapsacks.values[c].refAllele;
      if refAllele != "" {
        refAlleles := refAlleles.Put(c, refAllele);
      }
      i := i + 1;
    }
    assert cols[..i] == cols;
    RefAllelesOverShape(cols, knapsack);
  }

  // ---------------------------------------------------------------------
  // Windowed counts

  /** What a counter adds up per selected read. */
  datatype Measure = RefBases | NonRefBases(binarize: bool) | SoftClippedBases(binarize: bool)

  /** The quantity one read contributes under a measure, against the column's reference. */
  function ReadValue(measure: Measure, read: PileupRead, refAllele: string): nat {
    match measure
    case RefBases => if HasRefAllele(read, refAllele) then 1 else 0
    case NonRefBases(binarize) => NonRefLength(read, refAllele, binarize)
    case SoftClippedBases(binarize) => SoftClippedLength(read.alignment.cigar, binarize)
  }

  /** A missing or empty name collection selects nobody. */
  function NamesOrEmpty(names: Option<set<string>>): set<string> {
    if names.None? then {} else names.value
  }

  function AlleleAt(refAlleles: OMap<string, string>, column: string): string {
    if column in refAlleles.values then refAlleles.values[column] else ""
  }

  function ReadsAt(indexed: OMap<string, seq<PileupRead>>, column: string): seq<PileupRead> {
    if column in indexed.values then indexed.values[column] else []
  }

  /** The sum of `measure` over the reads of one column whose query name is selected. */
  function ColumnSum(pileupreads: seq<PileupRead>, names: set<string>, measure: Measure, refAllele: string): nat {
    if |pileupreads| == 0 then 0
    else
      var read := pileupreads[|pileupreads| - 1];
      ColumnSum(pileupreads[..|pileupreads| - 1], names, measure, refAllele) +
      (if read.alignment.queryName in names then ReadValue(measure, read, refAllele) else 0)
  }

  /** The sum of `measure` over the selected reads of the columns `cols` of the index. */
  function WindowSum(cols: seq<string>, indexed: OMap<string, seq<PileupRead>>, refAlleles: OMap<string, string>,
                     names: set<string>, measure: Measure): nat
  {
    if |cols| == 0 then 0
    else
      var c := cols[|cols| - 1];
      WindowSum(cols[..|cols| - 1], indexed, refAlleles, names, measure) +
      ColumnSum(ReadsAt(indexed, c), names, measure, AlleleAt(refAlleles, c))
  }

  /** The inner loop of the counters: one column's selected reads. */
  method SumOverColumn(pileupreads: seq<PileupRead>, names: set<string>, measure: Measure, refAllele: string)
    returns (count: nat)
    ensures count == ColumnSum(pileupreads, names, measure, refAllele)
  {
    count := 0;
    var j := 0;
    while j < |pileupreads|
      invariant 0 <= j <= |pileupreads|
      invariant count == ColumnSum(pileupreads[..j], names, measure, refAllele)
    {
      var read := pileupreads[j];
      assert pileupreads[..j + 1][..j] == pileupreads[..j];
      if read.alignment.queryName in names {
        var value: nat;
        if measure.SoftClippedBases? {
          value := RetrieveSoftClippedLength(read, measure.binarize);
        } else {
          value := ReadValue(measure, read, refAllele);
        }
        count := count + value;
      }
      j := j + 1;
    }
    assert pileupreads[..j] == pileupreads;
  }

  /** The outer loop shared by the three counters: the index's columns in order. */
  method SumOverWindow(indexed: OMap<string, seq<PileupRead>>, refAlleles: OMap<string, string>,
                       names: set<string>, measure: Measure) returns (count: nat)
    requires indexed.Valid()
    requires !measure.SoftClippedBases? ==> forall c :: c in indexed.keys ==> c in refAlleles.values
    ensures count == WindowSum(indexed.keys, indexed, refAlleles, names, measure)
  {
    var cols := indexed.keys;
    count := 0;
    var i := 0;
    while i < |cols|
      invariant 0 <= i <= |cols|
      invariant count == WindowSum(cols[..i], indexed, refAlleles, names, measure)
    {
      var c := cols[i];
      assert cols[..i + 1][..i] == cols[..i];
      var refAllele := if measure.SoftClippedBases? then AlleleAt(refAlleles, c) else refAlleles.values[c];
      var columnCount := SumOverColumn(indexed.values[c], names, measure, refAllele);
      count := count + columnCount;
      i := i + 1;
    }
    assert cols[..i] == cols;
  }

  /**
   * `retrieve_ref_bp_count`: the number of (column, read) pairs of the index
   * whose read is selected and shows the column's reference allele.  Every
   * indexed column must have a reference allele.
   */
  method RetrieveRefBpCount(indexed: OMap<string, seq<PileupRead>>, refAlleles: OMap<string, string>,
                            names: Option<set<string>>) returns (count: nat)
    requires indexed.Valid()
    requires forall c :: c in indexed.keys ==> c in refAlleles.values
    ensures count == WindowSum(indexed.keys, indexed, refAlleles, NamesOrEmpty(names), RefBases)
  {
    count := SumOverWindow(indexed, refAlleles, NamesOrEmpty(names), RefBases);
  }

  /** `retrieve_non_ref_bp_count`: the selected reads' non-reference lengths, summed over the index. */
  method RetrieveNonRefBpCount(indexed: OMap<string, seq<PileupRead>>, refAlleles: OMap<string, string>,
                               names: Option<set<string>>, binarize: bool) returns (count: nat)
    requires indexed.Valid()
    requires forall c :: c in indexed.keys ==> c in refAlleles.values
    ensures count == WindowSum(indexed.keys, indexed, refAlleles, NamesOrEmpty(names), NonRefBases(binarize))
  {
    count := SumOverWindow(indexed, refAlleles, NamesOrEmpty(names), NonRefBases(binarize));
  }

  /** `retrieve_soft_clipped_bp_count`: the selected reads' soft-clip lengths, summed over the index. */
  method RetrieveSoftClippedBpCount(indexed: OMap<string, seq<PileupRead>>, names: Option<set<string>>, binarize: bool)
    returns (count: nat)
    requires indexed.Valid()
    ensures count == WindowSum(indexed.keys, indexed, Empty(), NamesOrEmpty(names), SoftClippedBases(binarize))
  {
    count := SumOverWindow(indexed, Empty(), NamesOrEmpty(names), SoftClippedBases(binarize));
  }

  lemma {:induction false} ColumnSumNoNames(pileupreads: seq<PileupRead>, measure: Measure, refAllele: string)
    ensures ColumnSum(pileupreads, {}, measure, refAllele) == 0
  {
    if |pileupreads| > 0 {
      ColumnSumNoNames(pileupreads[..|pileupreads| - 1], measure, refAllele);
    }
  }

  /** An empty or missing name collection gives a count of 0. */
  lemma {:induction false} NoNamesCountNothing(cols: seq<string>, indexed: OMap<string, seq<PileupRead>>,
                                                refAlleles: OMap<string, string>, measure: Measure)
    ensures WindowSum(cols, indexed, refAlleles, NamesOrEmpty(None), measure) == 0
    ensures WindowSum(cols, indexed, refAlleles, NamesOrEmpty(Some({})), measure) == 0
  {
    if |cols| > 0 {
      NoNamesCountNothing(cols[..|cols| - 1], indexed, refAlleles, measure);
      ColumnSumNoNames(ReadsAt(indexed, cols[|cols| - 1]), measure, AlleleAt(refAlleles, cols[|cols| - 1]));
    }
  }

  lemma {:induction false} ColumnSumSplit(pileupreads: seq<PileupRead>, a: set<string>, b: set<string>, measure: Measure, refAllele: string)
    requires a !! b
    ensures ColumnSum(pileupreads, a + b, measure, refAllele) == ColumnSum(pileupreads, a, measure, refAllele) + ColumnSum(pileupreads, b, measure, refAllele)
  {
    if |pileupreads| > 0 {
      ColumnSumSplit(pileupreads[..|pileupreads| - 1], a, b, measure, refAllele);
    }
  }

  /** Counting over two disjoint name sets at once gives the sum of the two counts. */
  lemma {:induction false} WindowSumSplit(cols: seq<string>, indexed: OMap<string, seq<PileupRead>>, refAlleles: OMap<string, string>,
                                          a: set<string>, b: set<string>, measure: Measure)
    requires a !! b
    ensures WindowSum(cols, indexed, refAlleles, a + b, measure) ==
      WindowSum(cols, indexed, refAlleles, a, measure) + WindowSum(cols, indexed, refAlleles, b, measure)
  {
    if |cols| > 0 {
      var c := cols[|cols| - 1];
      WindowSumSplit(cols[..|cols| - 1], indexed, refAlleles, a, b, measure);
      ColumnSumSplit(ReadsAt(indexed, c), a, b, measure, AlleleAt(refAlleles, c));
    }
  }

  lemma {:induction false} ColumnBinarizedAtMost(pileupreads: seq<PileupRead>, names: set<string>, refAllele: string)
    ensures ColumnSum(pileupreads, names, NonRefBases(true), refAllele) <= ColumnSum(pileupreads, names, NonRefBases(false), refAllele)
  {
    if |pileupreads| > 0 {
      ColumnBinarizedAtMost(pileupreads[..|pileupreads| - 1], names, refAllele);
      BinarizedNonRefAtMost(pileupreads[|pileupreads| - 1], refAllele);
    }
  }

  /** The binarized non-reference count never exceeds the full-length one. */
  lemma {:induction false} WindowBinarizedNonRefAtMost(cols: seq<string>, indexed: OMap<string, seq<PileupRead>>,
                                                       refAlleles: OMap<string, string>, names: set<string>)
    ensures WindowSum(cols, indexed, refAlleles, names, NonRefBases(true)) <=
      WindowSum(cols, indexed, refAlleles, names, NonRefBases(false))
  {
    if |cols| > 0 {
      var c := cols[|cols| - 1];
      WindowBinarizedNonRefAtMost(cols[..|cols| - 1], indexed, refAlleles, names);
      ColumnBinarizedAtMost(ReadsAt(indexed, c), names, AlleleAt(refAlleles, c));
    }
  }

  /** The number of selected reads of one column. */
  function ColumnSelected(pileupreads: seq<PileupRead>, names: set<string>): nat {
    if |pileupreads| == 0 then 0
    else ColumnSelected(pileupreads[..|pileupreads| - 1], names) + (if pileupreads[|pileupreads| - 1].alignment.queryName in names then 1 else 0)
  }

  /** The number of selected (column, read) pairs of the window. */
  function WindowSelected(cols: seq<string>, indexed: OMap<string, seq<PileupRead>>, names: set<string>): nat {
    if |cols| == 0 then 0
    else WindowSelected(cols[..|cols| - 1], indexed, names) + ColumnSelected(ReadsAt(indexed, cols[|cols| - 1]), names)
  }

  /** Neither in a deletion nor followed by an indel. */
  predicate Plain(read: PileupRead) {
    !read.isDel && read.indel == 0
  }

  lemma {:induction false} ColumnRefPlusNonRef(pileupreads: seq<PileupRead>, names: set<string>, refAllele: string, binarize: bool)
    requires forall r :: r in pileupreads ==> Plain(r)
    ensures ColumnSum(pileupreads, names, RefBases, refAllele) + ColumnSum(pileupreads, names, NonRefBases(binarize), refAllele) ==
      ColumnSelected(pileupreads, names)
  {
    if |pileupreads| > 0 {
      ColumnRefPlusNonRef(pileupreads[..|pileupreads| - 1], names, refAllele, binarize);
      assert pileupreads[|pileupreads| - 1] in pileupreads;
      PlainReadRefOrNonRef(pileupreads[|pileupreads| - 1], refAllele, binarize);
    }
  }

  /**
   * When no read of the window is in a deletion or followed by an indel,
   * the reference and the non-reference counts together are the number of
   * selected (column, read) pairs: every such read counts on exactly one side.
   */
  lemma {:induction false} WindowRefPlusNonRef(cols: seq<string>, indexed: OMap<string, seq<PileupRead>>,
                                               refAlleles: OMap<string, string>, names: set<string>, binarize: bool)
    requires forall c, r :: c in cols && r in ReadsAt(indexed, c) ==> Plain(r)
    ensures WindowSum(cols, indexed, refAlleles, names, RefBases) + WindowSum(cols, indexed, refAlleles, names, NonRefBases(binarize)) ==
      WindowSelected(cols, indexed, names)
  {
    if |cols| > 0 {
      var c := cols[|cols| - 1];
      WindowRefPlusNonRef(cols[..|cols| - 1], indexed, refAlleles, names, binarize);
      ColumnRefPlusNonRef(ReadsAt(indexed, c), names, AlleleAt(refAlleles, c), binarize);
    }
  }
}
