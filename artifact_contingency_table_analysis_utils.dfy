/**
 * The per-read counters of the older draft, ArtifactContingencyTableAnalysisUtils.py.
 * Its indel, ref and alt tests are the same as ArtifactAnalysisTableUtils'
 * and are used from there.  Unmasked, the counters read the edit distance
 * NM and the CIGAR; given a position mask and a reference map, they walk
 * the read's aligned pairs instead.
 */
module ArtifactContingencyTableAnalysisUtils {
  import opened Wrappers
  import opened Seqs
  import opened OrderedMaps
  import opened Alignments
  import opened PileupColumnUtils
  import opened PileupColumnKnapsacks
  import ArtifactAnalysisTableUtils

  /** Python truthiness of an optional ordered map: present and non-empty. */
  predicate Truthy<V>(m: Option<OMap<string, V>>) {
    m.Some? && |m.value.values| > 0
  }

  // ---------------------------------------------------------------------
  // Soft clips

  /**
   * `retrieve_soft_clipped_pileupread_bp_count`: the read's soft-clip length
   * (binarized or not) when no mask is given, and 0 whenever a non-empty
   * mask is.
   */
  method RetrieveSoftClippedPileupreadBpCount(read: PileupRead, mask: Option<OMap<string, bool>>, binarize: bool)
    returns (count: nat)
    ensures count == if Truthy(mask) then 0 else ArtifactAnalysisTableUtils.SoftClippedLength(read.alignment.cigar, binarize)
  {
    count := 0;
    if !Truthy(mask) {
      count := ArtifactAnalysisTableUtils.RetrieveSoftClippedLength(read, binarize);
    }
  }

  // ---------------------------------------------------------------------
  // CIGAR totals

  /** The number of operations with code `op`. */
  function OpCount(cigar: seq<CigarOp>, op: int): nat {
    if |cigar| == 0 then 0
    else OpCount(cigar[..|cigar| - 1], op) + (if cigar[|cigar| - 1].op == op then 1 else 0)
  }

  /** The total length of the operations with code `op`. */
  function OpLength(cigar: seq<CigarOp>, op: int): nat {
    if |cigar| == 0 then 0
    else OpLength(cigar[..|cigar| - 1], op) + (if cigar[|cigar| - 1].op == op then cigar[|cigar| - 1].len else 0)
  }

  /** The edit distance, 0 when the tag is missing. */
  function NmOrZero(nm: Option<int>): int {
    if nm.Some? then nm.value else 0
  }

  /** What binarizing removes from the edit distance: `len - 1` per insertion or deletion operation. */
  function IndelExcess(cigar: seq<CigarOp>): int {
    if |cigar| == 0 then 0
    else
      var last := cigar[|cigar| - 1];
      IndelExcess(cigar[..|cigar| - 1]) + (if last.op == BamCIns || last.op == BamCDel then last.len - 1 else 0)
  }

  /** The total length of the match, insertion and deletion operations. */
  function AlignedLength(cigar: seq<CigarOp>): nat {
    if |cigar| == 0 then 0
    else
      var last := cigar[|cigar| - 1];
      AlignedLength(cigar[..|cigar| - 1]) + (if last.op == BamCMatch || last.op == BamCIns || last.op == BamCDel then last.len else 0)
  }

  lemma {:induction false} IndelExcessByOps(cigar: seq<CigarOp>)
    ensures IndelExcess(cigar) ==
      OpLength(cigar, BamCIns) - OpCount(cigar, BamCIns) + OpLength(cigar, BamCDel) - OpCount(cigar, BamCDel)
  {
    if |cigar| > 0 {
      IndelExcessByOps(cigar[..|cigar| - 1]);
    }
  }

  lemma {:induction false} AlignedLengthByOps(cigar: seq<CigarOp>)
    ensures AlignedLength(cigar) == OpLength(cigar, BamCMatch) + OpLength(cigar, BamCIns) + OpLength(cigar, BamCDel)
  {
    if |cigar| > 0 {
      AlignedLengthByOps(cigar[..|cigar| - 1]);
    }
  }

  /** The unmasked non-reference count: NM, less the indel excess when binarized. */
  function UnmaskedNonRef(segment: AlignedSegment, binarize: bool): int {
    NmOrZero(segment.nm) - (if binarize then IndelExcess(segment.cigar) else 0)
  }

  /** The unmasked reference count: the aligned length less NM. */
  function UnmaskedRef(segment: AlignedSegment): int {
    -NmOrZero(segment.nm) + AlignedLength(segment.cigar)
  }

  /**
   * When NM is the SAM edit distance, mismatches plus inserted plus deleted
   * bases, the unmasked counts decompose: non-binarized non-reference is
   * mismatches + I + D; binarized it is mismatches plus one per insertion
   * or deletion operation; reference is the matched length less mismatches;
   * and reference plus non-binarized non-reference is the aligned length.
   */
  lemma EditDistanceDecomposition(segment: AlignedSegment, mismatches: int)
    requires segment.nm == Some(mismatches + OpLength(segment.cigar, BamCIns) + OpLength(segment.cigar, BamCDel))
    ensures UnmaskedNonRef(segment, false) == mismatches + OpLength(segment.cigar, BamCIns) + OpLength(segment.cigar, BamCDel)
    ensures UnmaskedNonRef(segment, true) == mismatches + OpCount(segment.cigar, BamCIns) + OpCount(segment.cigar, BamCDel)
    ensures UnmaskedRef(segment) == OpLength(segment.cigar, BamCMatch) - mismatches
    ensures UnmaskedRef(segment) + UnmaskedNonRef(segment, false) == AlignedLength(segment.cigar)
  {
    IndelExcessByOps(segment.cigar);
    AlignedLengthByOps(segment.cigar);
  }

  /** The unmasked non-reference loop: NM, then the binarizing corrections per CIGAR operation. */
  method UnmaskedNonRefCount(segment: AlignedSegment, binarize: bool) returns (count: int)
    ensures count == UnmaskedNonRef(segment, binarize)
  {
    count := 0;
    if segment.nm.Some? {
      count := segment.nm.value;
    }
    if binarize {
      var cigar := segment.cigar;
      var i := 0;
      while i < |cigar|
        invariant 0 <= i <= |cigar|
        invariant count == NmOrZero(segment.nm) - IndelExcess(cigar[..i])
      {
        assert cigar[..i + 1][..i] == cigar[..i];
        if cigar[i].op == BamCIns {
          count := count - (cigar[i].len - 1);
        } else if cigar[i].op == BamCDel {
          count := count - (cigar[i].len - 1);
        }
        i := i + 1;
      }
      assert cigar[..i] == cigar;
    }
  }

  /** The unmasked reference loop: minus NM, plus every match, insertion and deletion length. */
  method UnmaskedRefCount(segment: AlignedSegment) returns (count: int)
    ensures count == UnmaskedRef(segment)
  {
    count := 0;
    if segment.nm.Some? {
      count := -segment.nm.value;
    }
    var cigar := segment.cigar;
    var i := 0;
    while i < |cigar|
      invariant 0 <= i <= |cigar|
      invariant count == -NmOrZero(segment.nm) + AlignedLength(cigar[..i])
    {
      assert cigar[..i + 1][..i] == cigar[..i];
      if cigar[i].op == BamCMatch {
        count := count + cigar[i].len;
      } else if cigar[i].op == BamCIns {
        count := count + cigar[i].len;
      } else if cigar[i].op == BamCDel {
        count := count + cigar[i].len;
      }
      i := i + 1;
    }
    assert cigar[..i] == cigar;
  }

  // ---------------------------------------------------------------------
  // The aligned-pair walk under a mask

  /** How the mask and the reference map see a position. */
  datatype Status = Unknown | Unmasked | Masked

  /** Unknown when either map lacks the name; otherwise masked or not as the mask says. */
  function StatusOf(name: string, mask: OMap<string, bool>, refAlleles: OMap<string, char>): Status {
    if name in mask.values && name in refAlleles.values then (if mask.values[name] then Masked else Unmasked)
    else Unknown
  }

  /** The pair is aligned: a read base against a reference base. */
  predicate IsMatch(pair: AlignedPair) {
    pair.queryPos.Some? && pair.refPos.Some?
  }

  /** Every aligned pair whose position is known and unmasked has an index inside the aligned sequence. */
  predicate IndexableMatches(pairs: seq<AlignedPair>, firstIndex: nat, chrom: string, mask: OMap<string, bool>,
                             refAlleles: OMap<string, char>, querySequence: string)
  {
    forall i :: (0 <= i < |pairs| && IsMatch(pairs[i]) &&
                 StatusOf(PositionName(chrom, pairs[i].refPos.value), mask, refAlleles) == Unmasked) ==>
      firstIndex + i < |querySequence|
  }

  /** How a run of deletions is counted: as the source is written, or as intended. */
  datatype DeletionRule = AsWritten | Intended

  /** The walk's running count and its two flags. */
  datatype WalkState = WalkState(count: int, prevMasked: bool, prevDelMasked: bool)

  const WalkStart := WalkState(0, false, false)

  /**
   * One aligned pair of the non-reference walk, at index `index`.  An aligned
   * pair clears the deletion flag and, at a known position, sets the
   * previous-masked flag to the mask's verdict, counting 1 when unmasked and
   * the read base differs from the reference.  A pair without reference
   * position (an insertion) clears the deletion flag and counts 1 unless the
   * previous-masked flag is set; binarized, it then sets that flag so that
   * the rest of the run counts 0.  A pair without read base (a deletion) at
   * a known position counts 1 when unmasked and the deletion flag is clear,
   * and otherwise sets the deletion flag.  As written, a counted deleted base
   * sets the deletion flag when NOT binarized; as intended, when binarized,
   * like the insertion rule.
   */
  function NonRefStep(st: WalkState, pair: AlignedPair, index: nat, chrom: string, mask: OMap<string, bool>,
                      refAlleles: OMap<string, char>, querySequence: string, binarize: bool, rule: DeletionRule): WalkState
    requires IsMatch(pair) && StatusOf(PositionName(chrom, pair.refPos.value), mask, refAlleles) == Unmasked ==>
      index < |querySequence|
  {
    if IsMatch(pair) then
      var name := PositionName(chrom, pair.refPos.value);
      var cleared := st.(prevDelMasked := false);
      match StatusOf(name, mask, refAlleles)
      case Unmasked =>
        cleared.(prevMasked := false, count := st.count + (if refAlleles.values[name] != querySequence[index] then 1 else 0))
      case Masked => cleared.(prevMasked := true)
      case Unknown => cleared
    else if pair.refPos.None? then
      var cleared := st.(prevDelMasked := false);
      if st.prevMasked then cleared
      else if binarize then cleared.(prevMasked := true, count := st.count + 1)
      else cleared.(count := st.count + 1)
    else
      var status := StatusOf(PositionName(chrom, pair.refPos.value), mask, refAlleles);
      if status == Unknown then st
      else if status == Unmasked && !st.prevDelMasked then
        var setsFlag := match rule case AsWritten => !binarize case Intended => binarize;
        st.(count := st.count + 1, prevDelMasked := setsFlag)
      else st.(prevDelMasked := true)
  }

  /** The walk over `pairs` from state `st`, the first pair having index `firstIndex`. */
  function NonRefWalk(st: WalkState, pairs: seq<AlignedPair>, firstIndex: nat, chrom: string, mask: OMap<string, bool>,
                      refAlleles: OMap<string, char>, querySequence: string, binarize: bool, rule: DeletionRule): WalkState
    requires IndexableMatches(pairs, firstIndex, chrom, mask, refAlleles, querySequence)
  {
    if |pairs| == 0 then st
    else
      var init := pairs[..|pairs| - 1];
      assert forall i :: 0 <= i < |init| ==> init[i] == pairs[i];
      NonRefStep(NonRefWalk(st, init, firstIndex, chrom, mask, refAlleles, querySequence, binarize, rule),
                 pairs[|pairs| - 1], firstIndex + |pairs| - 1, chrom, mask, refAlleles, querySequence, binarize, rule)
  }

  /** A run of deleted bases whose positions are all known and unmasked. */
  predicate UnmaskedDeletionRun(run: seq<AlignedPair>, chrom: string, mask: OMap<string, bool>, refAlleles: OMap<string, char>) {
    forall i :: 0 <= i < |run| ==>
      run[i].queryPos.None? && run[i].refPos.Some? &&
      StatusOf(PositionName(chrom, run[i].refPos.value), mask, refAlleles) == Unmasked
  }

  /**
   * As intended: a run of k unmasked deleted bases after a clear deletion
   * flag counts 1 when binarized and k otherwise, the same rule as for
   * insertions.
   */
  lemma {:induction false} DeletionRunIntended(st: WalkState, run: seq<AlignedPair>, firstIndex: nat, chrom: string,
                                               mask: OMap<string, bool>, refAlleles: OMap<string, char>,
                                               querySequence: string, binarize: bool)
    requires !st.prevDelMasked && |run| > 0
    requires UnmaskedDeletionRun(run, chrom, mask, refAlleles)
    ensures IndexableMatches(run, firstIndex, chrom, mask, refAlleles, querySequence)
    ensures NonRefWalk(st, run, firstIndex, chrom, mask, refAlleles, querySequence, binarize, Intended).count ==
      st.count + (if binarize then 1 else |run|)
    ensures NonRefWalk(st, run, firstIndex, chrom, mask, refAlleles, querySequence, binarize, Intended).prevDelMasked == binarize
  {
    var init := run[..|run| - 1];
    assert forall i :: 0 <= i < |init| ==> init[i] == run[i];
    if |init| > 0 {
      DeletionRunIntended(st, init, firstIndex, chrom, mask, refAlleles, querySequence, binarize);
    }
  }

  /**
   * As written: the same run counts k when binarized and 1 otherwise, the
   * reverse of the insertion rule and of the binarizing in the unmasked
   * path.
   */
  lemma {:induction false} DeletionRunAsWritten(st: WalkState, run: seq<AlignedPair>, firstIndex: nat, chrom: string,
                                                mask: OMap<string, bool>, refAlleles: OMap<string, char>,
                                                querySequence: string, binarize: bool)
    requires !st.prevDelMasked && |run| > 0
    requires UnmaskedDeletionRun(run, chrom, mask, refAlleles)
    ensures IndexableMatches(run, firstIndex, chrom, mask, refAlleles, querySequence)
    ensures NonRefWalk(st, run, firstIndex, chrom, mask, refAlleles, querySequence, binarize, AsWritten).count ==
      st.count + (if binarize then |run| else 1)
    ensures NonRefWalk(st, run, firstIndex, chrom, mask, refAlleles, querySequence, binarize, AsWritten).prevDelMasked == !binarize
  {
    var init := run[..|run| - 1];
    assert forall i :: 0 <= i < |init| ==> init[i] == run[i];
    if |init| > 0 {
      DeletionRunAsWritten(st, init, firstIndex, chrom, mask, refAlleles, querySequence, binarize);
    }
  }

  /** A run of deleted bases whose positions the mask and the reference map both know. */
  predicate KnownDeletionRun(run: seq<AlignedPair>, chrom: string, mask: OMap<string, bool>, refAlleles: OMap<string, char>) {
    forall i :: 0 <= i < |run| ==>
      run[i].queryPos.None? && run[i].refPos.Some? &&
      StatusOf(PositionName(chrom, run[i].refPos.value), mask, refAlleles) != Unknown
  }

  /**
   * Once the deletion flag is set, or when the run's first deleted base is
   * masked, the rest of a deletion run counts nothing and leaves the flag
   * set, under either rule and whether or not binarizing.
   */
  lemma {:induction false} DeletionRunAfterFlag(st: WalkState, run: seq<AlignedPair>, firstIndex: nat, chrom: string,
                                                mask: OMap<string, bool>, refAlleles: OMap<string, char>,
                                                querySequence: string, binarize: bool, rule: DeletionRule)
    requires |run| > 0 && KnownDeletionRun(run, chrom, mask, refAlleles)
    requires st.prevDelMasked || StatusOf(PositionName(chrom, run[0].refPos.value), mask, refAlleles) == Masked
    ensures IndexableMatches(run, firstIndex, chrom, mask, refAlleles, querySequence)
    ensures NonRefWalk(st, run, firstIndex, chrom, mask, refAlleles, querySequence, binarize, rule).count == st.count
    ensures NonRefWalk(st, run, firstIndex, chrom, mask, refAlleles, querySequence, binarize, rule).prevDelMasked
  {
    var init := run[..|run| - 1];
    assert forall i :: 0 <= i < |init| ==> init[i] == run[i];
    if |init| > 0 {
      DeletionRunAfterFlag(st, init, firstIndex, chrom, mask, refAlleles, querySequence, binarize, rule);
    }
  }

  /** A run of inserted bases (no reference position). */
  predicate InsertionRun(run: seq<AlignedPair>) {
    forall i :: 0 <= i < |run| ==> run[i].refPos.None?
  }

  /**
   * A run of k inserted bases counts 0 after a masked aligned base, and
   * otherwise 1 when binarized and k when not.
   */
  lemma {:induction false} InsertionRunCount(st: WalkState, run: seq<AlignedPair>, firstIndex: nat, chrom: string,
                                             mask: OMap<string, bool>, refAlleles: OMap<string, char>,
                                             querySequence: string, binarize: bool, rule: DeletionRule)
    requires |run| > 0 && InsertionRun(run)
    ensures IndexableMatches(run, firstIndex, chrom, mask, refAlleles, querySequence)
    ensures NonRefWalk(st, run, firstIndex, chrom, mask, refAlleles, querySequence, binarize, rule).count ==
      st.count + (if st.prevMasked then 0 else if binarize then 1 else |run|)
    ensures NonRefWalk(st, run, firstIndex, chrom, mask, refAlleles, querySequence, binarize, rule).prevMasked ==
      (st.prevMasked || binarize)
  {
    var init := run[..|run| - 1];
    assert forall i :: 0 <= i < |init| ==> init[i] == run[i];
    if |init| > 0 {
      InsertionRunCount(st, init, firstIndex, chrom, mask, refAlleles, querySequence, binarize, rule);
    }
  }

  /** Pairs at positions that the mask or the reference map does not know leave the count as it is. */
  lemma UnknownPositionCountsNothing(st: WalkState, pair: AlignedPair, index: nat, chrom: string, mask: OMap<string, bool>,
                                     refAlleles: OMap<string, char>, querySequence: string, binarize: bool, rule: DeletionRule)
    requires pair.refPos.Some? && StatusOf(PositionName(chrom, pair.refPos.value), mask, refAlleles) == Unknown
    ensures NonRefStep(st, pair, index, chrom, mask, refAlleles, querySequence, binarize, rule).count == st.count
  {
  }

  /**
   * An unmasked aligned base counts 1 exactly when the read differs from the
   * reference there, and it clears both flags.
   */
  lemma UnmaskedMatchStep(st: WalkState, pair: AlignedPair, index: nat, chrom: string, mask: OMap<string, bool>,
                          refAlleles: OMap<string, char>, querySequence: string, binarize: bool, rule: DeletionRule)
    requires IsMatch(pair) && StatusOf(PositionName(chrom, pair.refPos.value), mask, refAlleles) == Unmasked
    requires index < |querySequence|
    ensures var next := NonRefStep(st, pair, index, chrom, mask, refAlleles, querySequence, binarize, rule);
      && next.count == st.count + (if refAlleles.values[PositionName(chrom, pair.refPos.value)] != querySequence[index] then 1 else 0)
      && !next.prevMasked && !next.prevDelMasked
  {
  }

  /**
   * The input that tells the two rules apart: an aligned base followed by a
   * deletion of two unmasked bases.  Binarized, the code as written counts 2
   * where 1 is intended; not binarized, it counts 1 where 2 is intended.
   */
  lemma DeletionRulesDiffer(chrom: string, mask: OMap<string, bool>, refAlleles: OMap<string, char>, querySequence: string)
    requires StatusOf(PositionName(chrom, 101), mask, refAlleles) == Unmasked
    requires StatusOf(PositionName(chrom, 102), mask, refAlleles) == Unmasked
    ensures var run := [AlignedPair(None, Some(101)), AlignedPair(None, Some(102))];
      && IndexableMatches(run, 0, chrom, mask, refAlleles, querySequence)
      && NonRefWalk(WalkStart, run, 0, chrom, mask, refAlleles, querySequence, true, AsWritten).count == 2
      && NonRefWalk(WalkStart, run, 0, chrom, mask, refAlleles, querySequence, true, Intended).count == 1
      && NonRefWalk(WalkStart, run, 0, chrom, mask, refAlleles, querySequence, false, AsWritten).count == 1
      && NonRefWalk(WalkStart, run, 0, chrom, mask, refAlleles, querySequence, false, Intended).count == 2
  {
    var run := [AlignedPair(None, Some(101)), AlignedPair(None, Some(102))];
    assert UnmaskedDeletionRun(run, chrom, mask, refAlleles);
    DeletionRunAsWritten(WalkStart, run, 0, chrom, mask, refAlleles, querySequence, true);
    DeletionRunAsWritten(WalkStart, run, 0, chrom, mask, refAlleles, querySequence, false);
    DeletionRunIntended(WalkStart, run, 0, chrom, mask, refAlleles, querySequence, true);
    DeletionRunIntended(WalkStart, run, 0, chrom, mask, refAlleles, querySequence, false);
  }

  /** The count `retrieve_non_ref_pileupread_bp_count` computes, under a deletion rule. */
  function NonRefCount(read: PileupRead, chrom: string, mask: Option<OMap<string, bool>>, refAlleles: Option<OMap<string, char>>,
                       binarize: bool, rule: DeletionRule): int
    requires Truthy(mask) && Truthy(refAlleles) ==>
      IndexableMatches(read.alignment.alignedPairs, 0, chrom, mask.value, refAlleles.value, read.alignment.queryAlignmentSequence)
  {
    if !Truthy(mask) || !Truthy(refAlleles) then UnmaskedNonRef(read.alignment, binarize)
    else NonRefWalk(WalkStart, read.alignment.alignedPairs, 0, chrom, mask.value, refAlleles.value,
                    read.alignment.queryAlignmentSequence, binarize, rule).count
  }

  /** The body of the masked walk for one aligned pair, as written. */
  method NonRefPairStep(count: int, prevMasked: bool, prevDelMasked: bool, pair: AlignedPair, index: nat, chrom: string,
                        positionMask: OMap<string, bool>, refs: OMap<string, char>, querySequence: string, binarize: bool)
    returns (count': int, prevMasked': bool, prevDelMasked': bool)
    requires IsMatch(pair) && StatusOf(PositionName(chrom, pair.refPos.value), positionMask, refs) == Unmasked ==>
      index < |querySequence|
    ensures WalkState(count', prevMasked', prevDelMasked') ==
      NonRefStep(WalkState(count, prevMasked, prevDelMasked), pair, index, chrom, positionMask, refs, querySequence, binarize, AsWritten)
  {
    count', prevMasked', prevDelMasked' := count, prevMasked, prevDelMasked;
    if pair.queryPos.Some? && pair.refPos.Some? {
      var name := PositionName(chrom, pair.refPos.value);
      prevDelMasked' := false;
      if name in positionMask.values && name in refs.values {
        if !positionMask.values[name] {
          prevMasked' := false;
          var refAllele := refs.values[name];
          if refAllele != querySequence[index] {
            count' := count' + 1;
          }
        } else {
          prevMasked' := true;
        }
      }
    } else if pair.refPos.None? {
      prevDelMasked' := false;
      if !binarize {
        if !prevMasked' {
          count' := count' + 1;
        }
      } else {
        if !prevMasked' {
          prevMasked' := true;
          count' := count' + 1;
        }
      }
    } else if pair.queryPos.None? {
      var name := PositionName(chrom, pair.refPos.value);
      if name in positionMask.values && name in refs.values {
        if !positionMask.values[name] && !prevDelMasked' {
          prevDelMasked' := false;
          if !binarize {
            count' := count' + 1;
            prevDelMasked' := true;
          } else {
            count' := count' + 1;
          }
        } else {
          prevDelMasked' := true;
        }
      }
    }
  }

  /**
   * `retrieve_non_ref_pileupread_bp_count`, as written: without a non-empty
   * mask and reference map, NM less the binarizing corrections; with them,
   * the walk over the aligned pairs, indexing the aligned sequence by the
   * pair's index.
   */
  method RetrieveNonRefPileupreadBpCount(read: PileupRead, chrom: string, mask: Option<OMap<string, bool>>,
                                         refAlleles: Option<OMap<string, char>>, binarize: bool) returns (count: int)
    requires Truthy(mask) && Truthy(refAlleles) ==>
      IndexableMatches(read.alignment.alignedPairs, 0, chrom, mask.value, refAlleles.value, read.alignment.queryAlignmentSequence)
    ensures count == NonRefCount(read, chrom, mask, refAlleles, binarize, AsWritten)
  {
    if !Truthy(mask) || !Truthy(refAlleles) {
      count := UnmaskedNonRefCount(read.alignment, binarize);
    } else {
      var positionMask := mask.value;
      var refs := refAlleles.value;
      var pairs := read.alignment.alignedPairs;
      var querySequence := read.alignment.queryAlignmentSequence;
      count := 0;
      var prevMasked := false;
      var prevDelMasked := false;
      var index := 0;
      while index < |pairs|
        invariant 0 <= index <= |pairs|
        invariant IndexableMatches(pairs[..index], 0, chrom, positionMask, refs, querySequence)
        invariant WalkState(count, prevMasked, prevDelMasked) ==
          NonRefWalk(WalkStart, pairs[..index], 0, chrom, positionMask, refs, querySequence, binarize, AsWritten)
      {
        assert pairs[..index + 1][..index] == pairs[..index];
        assert forall i :: 0 <= i < index + 1 ==> pairs[..index + 1][i] == pairs[i];
        count, prevMasked, prevDelMasked :=
          NonRefPairStep(count, prevMasked, prevDelMasked, pairs[index], index, chrom, positionMask, refs, querySequence, binarize);
        index := index + 1;
      }
      assert pairs[..index] == pairs;
    }
  }

  // ---------------------------------------------------------------------
  // The masked reference count

  /** The masked reference count over `pairs`: unmasked known aligned positions whose read base is the reference. */
  function RefWalk(pairs: seq<AlignedPair>, firstIndex: nat, chrom: string, mask: OMap<string, bool>,
                   refAlleles: OMap<string, char>, querySequence: string): nat
    requires IndexableMatches(pairs, firstIndex, chrom, mask, refAlleles, querySequence)
  {
    if |pairs| == 0 then 0
    else
      var init := pairs[..|pairs| - 1];
      var pair := pairs[|pairs| - 1];
      var index := firstIndex + |pairs| - 1;
      assert forall i :: 0 <= i < |init| ==> init[i] == pairs[i];
      RefWalk(init, firstIndex, chrom, mask, refAlleles, querySequence) +
      RefStep(pair, index, chrom, mask, refAlleles, querySequence)
  }

  /** One aligned pair of the reference walk: 1 when it is aligned, unmasked and agrees with the reference. */
  function RefStep(pair: AlignedPair, index: nat, chrom: string, mask: OMap<string, bool>,
                   refAlleles: OMap<string, char>, querySequence: string): nat
    requires IsMatch(pair) && StatusOf(PositionName(chrom, pair.refPos.value), mask, refAlleles) == Unmasked ==>
      index < |querySequence|
  {
    if IsMatch(pair) && StatusOf(PositionName(chrom, pair.refPos.value), mask, refAlleles) == Unmasked &&
       refAlleles.values[PositionName(chrom, pair.refPos.value)] == querySequence[index] then 1 else 0
  }

  /** The body of the reference loop, for the pair at `index`. */
  method RefPairStep(pair: AlignedPair, index: nat, chrom: string, positionMask: OMap<string, bool>,
                     refs: OMap<string, char>, querySequence: string) returns (counted: nat)
    requires IsMatch(pair) && StatusOf(PositionName(chrom, pair.refPos.value), positionMask, refs) == Unmasked ==>
      index < |querySequence|
    ensures counted == RefStep(pair, index, chrom, positionMask, refs, querySequence)
  {
    counted := 0;
    if pair.queryPos.Some? && pair.refPos.Some? {
      var name := PositionName(chrom, pair.refPos.value);
      if name in positionMask.values && name in refs.values {
        if !positionMask.values[name] {
          var refAllele := refs.values[name];
          if refAllele == querySequence[index] {
            counted := 1;
          }
        }
      }
    }
  }

  /** The masked reference count never exceeds the number of aligned pairs. */
  lemma {:induction false} RefWalkAtMostPairs(pairs: seq<AlignedPair>, firstIndex: nat, chrom: string, mask: OMap<string, bool>,
                                              refAlleles: OMap<string, char>, querySequence: string)
    requires IndexableMatches(pairs, firstIndex, chrom, mask, refAlleles, querySequence)
    ensures RefWalk(pairs, firstIndex, chrom, mask, refAlleles, querySequence) <= |pairs|
  {
    if |pairs| > 0 {
      var init := pairs[..|pairs| - 1];
      assert forall i :: 0 <= i < |init| ==> init[i] == pairs[i];
      RefWalkAtMostPairs(init, firstIndex, chrom, mask, refAlleles, querySequence);
    }
  }

  /**
   * Under a mask, every unmasked known aligned position is counted by
   * exactly one of the reference walk and the non-reference walk.
   */
  lemma {:induction false} RefAndNonRefSplitMatches(pairs: seq<AlignedPair>, firstIndex: nat, chrom: string, mask: OMap<string, bool>,
                                                    refAlleles: OMap<string, char>, querySequence: string, binarize: bool, rule: DeletionRule)
    requires forall i :: 0 <= i < |pairs| ==> IsMatch(pairs[i])
    requires IndexableMatches(pairs, firstIndex, chrom, mask, refAlleles, querySequence)
    ensures RefWalk(pairs, firstIndex, chrom, mask, refAlleles, querySequence) +
            NonRefWalk(WalkStart, pairs, firstIndex, chrom, mask, refAlleles, querySequence, binarize, rule).count ==
            UnmaskedMatchCount(pairs, chrom, mask, refAlleles)
  {
    if |pairs| > 0 {
      var init := pairs[..|pairs| - 1];
      assert forall i :: 0 <= i < |init| ==> init[i] == pairs[i];
      RefAndNonRefSplitMatches(init, firstIndex, chrom, mask, refAlleles, querySequence, binarize, rule);
    }
  }

  /** The number of aligned pairs at known, unmasked positions. */
  function UnmaskedMatchCount(pairs: seq<AlignedPair>, chrom: string, mask: OMap<string, bool>, refAlleles: OMap<string, char>): nat {
    if |pairs| == 0 then 0
    else
      var pair := pairs[|pairs| - 1];
      UnmaskedMatchCount(pairs[..|pairs| - 1], chrom, mask, refAlleles) +
      (if IsMatch(pair) && StatusOf(PositionName(chrom, pair.refPos.value), mask, refAlleles) == Unmasked then 1 else 0)
  }

  /** The count `retrieve_ref_pileupread_bp_count` computes. */
  function RefCount(read: PileupRead, chrom: string, mask: Option<OMap<string, bool>>, refAlleles: Option<OMap<string, char>>): int
    requires Truthy(mask) && Truthy(refAlleles) ==>
      IndexableMatches(read.alignment.alignedPairs, 0, chrom, mask.value, refAlleles.value, read.alignment.queryAlignmentSequence)
  {
    if !Truthy(mask) || !Truthy(refAlleles) then UnmaskedRef(read.alignment)
    else RefWalk(read.alignment.alignedPairs, 0, chrom, mask.value, refAlleles.value, read.alignment.queryAlignmentSequence)
  }

  /**
   * `retrieve_ref_pileupread_bp_count`: without a non-empty mask and
   * reference map, the aligned length less NM; with them, the number of
   * unmasked known aligned positions whose base (at the pair's index in the
   * aligned sequence) is the reference.
   */
  method RetrieveRefPileupreadBpCount(read: PileupRead, chrom: string, mask: Option<OMap<string, bool>>,
                                      refAlleles: Option<OMap<string, char>>) returns (count: int)
    requires Truthy(mask) && Truthy(refAlleles) ==>
      IndexableMatches(read.alignment.alignedPairs, 0, chrom, mask.value, refAlleles.value, read.alignment.queryAlignmentSequence)
    ensures count == RefCount(read, chrom, mask, refAlleles)
  {
    if !Truthy(mask) || !Truthy(refAlleles) {
      count := UnmaskedRefCount(read.alignment);
    } else {
      var positionMask := mask.value;
      var refs := refAlleles.value;
      var pairs := read.alignment.alignedPairs;
      var querySequence := read.alignment.queryAlignmentSequence;
      count := 0;
      var index := 0;
      while index < |pairs|
        invariant 0 <= index <= |pairs|
        invariant IndexableMatches(pairs[..index], 0, chrom, positionMask, refs, querySequence)
        invariant count == RefWalk(pairs[..index], 0, chrom, positionMask, refs, querySequence)
      {
        assert pairs[..index + 1][..index] == pairs[..index];
        assert forall i :: 0 <= i < index + 1 ==> pairs[..index + 1][i] == pairs[i];
        var counted := RefPairStep(pairs[index], index, chrom, positionMask, refs, querySequence);
        count := count + counted;
        index := index + 1;
      }
      assert pairs[..index] == pairs;
    }
  }

  // ---------------------------------------------------------------------
  // The reference window

  /** The names `chrom:p:p+1` of the `n` positions from `first` on, in increasing order. */
  function WindowNames(chrom: string, first: int, n: nat): (names: seq<string>)
    ensures |names| == n
  {
    if n == 0 then [] else WindowNames(chrom, first, n - 1) + [PositionName(chrom, first + n - 1)]
  }

  lemma {:induction false} WindowNamesAt(chrom: string, first: int, n: nat)
    ensures forall i :: 0 <= i < n ==> WindowNames(chrom, first, n)[i] == PositionName(chrom, first + i)
  {
    if n > 0 {
      WindowNamesAt(chrom, first, n - 1);
      var prev := WindowNames(chrom, first, n - 1);
      forall i | 0 <= i < n
        ensures WindowNames(chrom, first, n)[i] == PositionName(chrom, first + i)
      {
        if i < n - 1 {
          assert WindowNames(chrom, first, n)[i] == prev[i];
        }
      }
    }
  }

  /** Distinct positions have distinct names, so the window's names do not repeat. */
  lemma WindowNamesDistinct(chrom: string, first: int, n: nat)
    ensures Distinct(WindowNames(chrom, first, n))
  {
    var names := WindowNames(chrom, first, n);
    WindowNamesAt(chrom, first, n);
    forall i, j | 0 <= i < j < n
      ensures names[i] != names[j]
    {
      BaseNamesDistinct(chrom, first + i, first + j);
    }
  }

  /** The reference map built from the fetched sequence `refSeq` whose first base is at `first`. */
  function RefAllelesFrom(chrom: string, first: int, refSeq: string): OMap<string, char> {
    FromPairs(WindowNames(chrom, first, |refSeq|), refSeq)
  }

  /** A position outside the window has no name in it. */
  lemma {:induction false} WindowNamesOutside(chrom: string, first: int, n: nat, p: int)
    requires p < first || p >= first + n
    ensures PositionName(chrom, p) !in WindowNames(chrom, first, n)
  {
    if n > 0 {
      WindowNamesOutside(chrom, first, n - 1, p);
      BaseNamesDistinct(chrom, p, first + n - 1);
    }
  }

  /** A position outside the fetched window has no entry. */
  lemma RefAllelesOutside(chrom: string, first: int, refSeq: string, p: int)
    requires p < first || p >= first + |refSeq|
    ensures PositionName(chrom, p) !in RefAllelesFrom(chrom, first, refSeq).values
  {
    var names := WindowNames(chrom, first, |refSeq|);
    WindowNamesDistinct(chrom, first, |refSeq|);
    WindowNamesOutside(chrom, first, |refSeq|, p);
    FromPairsShape(names, refSeq);
  }

  /**
   * The reference map has one key per fetched base, `chrom:p:p+1` for the
   * base's position p, in increasing order, mapping to that base.
   */
  lemma RefAllelesShape(chrom: string, first: int, refSeq: string)
    ensures RefAllelesFrom(chrom, first, refSeq).Valid() && |RefAllelesFrom(chrom, first, refSeq).keys| == |refSeq|
    ensures forall i :: 0 <= i < |refSeq| ==> RefAllelesFrom(chrom, first, refSeq).keys[i] == PositionName(chrom, first + i)
    ensures forall p :: first <= p < first + |refSeq| ==>
      && PositionName(chrom, p) in RefAllelesFrom(chrom, first, refSeq).values
      && RefAllelesFrom(chrom, first, refSeq).values[PositionName(chrom, p)] == refSeq[p - first]
    ensures forall i :: 0 <= i < |refSeq| ==>
      && RefAllelesFrom(chrom, first, refSeq).keys[i] in RefAllelesFrom(chrom, first, refSeq).values
      && RefAllelesFrom(chrom, first, refSeq).values[RefAllelesFrom(chrom, first, refSeq).keys[i]] == refSeq[i]
  {
    var names := WindowNames(chrom, first, |refSeq|);
    var r := RefAllelesFrom(chrom, first, refSeq);
    WindowNamesDistinct(chrom, first, |refSeq|);
    WindowNamesAt(chrom, first, |refSeq|);
    FromPairsShape(names, refSeq);
    forall p | first <= p < first + |refSeq|
      ensures PositionName(chrom, p) in r.values && r.values[PositionName(chrom, p)] == refSeq[p - first]
    {
      assert names[p - first] == PositionName(chrom, p);
    }
  }

  /**
   * `retrieve_ref_alleles`: the window is widened by 100 bases before
   * `start` (and 101 after the end, which only affects the fetch); `refSeq`
   * is what the fetch returned, and base i is filed under the position
   * `start - 100 + i`.
   */
  method RetrieveRefAlleles(chrom: string, start: int, refSeq: string) returns (refAlleles: OMap<string, char>)
    ensures refAlleles == RefAllelesFrom(chrom, start - 100, refSeq)
  {
    refAlleles := Empty();
    var first := start - 100;
    var offset := 0;
    while offset < |refSeq|
      invariant 0 <= offset <= |refSeq|
      invariant refAlleles == RefAllelesFrom(chrom, first, refSeq[..offset])
    {
      assert refSeq[..offset + 1][..offset] == refSeq[..offset];
      assert WindowNames(chrom, first, offset + 1)[..offset] == WindowNames(chrom, first, offset);
      var positionName := PositionName(chrom, first + offset);
      refAlleles := refAlleles.Put(positionName, refSeq[offset]);
      offset := offset + 1;
    }
    assert refSeq[..offset] == refSeq;
  }
}
