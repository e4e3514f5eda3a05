/**
 * The older table draft, ArtifactContingencyTableAnalysis.py.  Its
 * constructor and its two renderings are TableCells'; its series is
 * TableCells' series with a prefix and no suffix.  Its `create` looks at
 * the first pileup column only and, of the eight counts, fills in the
 * reference-supporting reads' reference bases and the two overlap counts;
 * the other counters stay 0.
 */
module ArtifactContingencyTableAnalyses {
  import opened Wrappers
  import opened OrderedMaps
  import opened Alignments
  import opened Series
  import opened TableCells
  import opened ArtifactAnalysisTableUtils
  import opened ArtifactAnalysisTables
  import ArtifactContingencyTableAnalysisUtils

  /** `retrieve_fields_as_series`: the twenty fields under `prefix + name`. */
  function FieldsAsSeries(t: Table, prefix: string): (s: Series)
    ensures s.WellFormed() && |s.labels| == |FieldNames|
    ensures forall i :: 0 <= i < |FieldNames| ==> s.labels[i] == prefix + FieldNames[i] && s.data[i] == FieldValues(t)[i]
  {
    var s := TableAsSeries(t, Some(prefix), None);
    assert forall i :: 0 <= i < |FieldNames| ==> s.labels[i] == prefix + FieldNames[i] + "";
    assert forall n: string :: n + "" == n;
    s
  }

  /** One pileup column as the pileup yields it: its position and its reads in order. */
  datatype Column = Column(pos: int, pileups: seq<PileupRead>)

  /** The running state of the loop: the names seen so far and the three counters it updates. */
  datatype DraftState = DraftState(seen: set<string>, refRef: int, refOverlapping: nat, altOverlapping: nat)

  /**
   * The reads whose reference bases are counted can be counted: under a
   * non-empty mask and reference map, a reference-only read's aligned
   * pairs at unmasked positions index into its aligned sequence.
   */
  predicate Countable(read: PileupRead, refAllele: string, altAllele: string, chrom: string,
                      mask: Option<OMap<string, bool>>, refAlleles: OMap<string, char>)
  {
    RefOnly(read, refAllele, altAllele) && ArtifactContingencyTableAnalysisUtils.Truthy(mask) &&
    ArtifactContingencyTableAnalysisUtils.Truthy(Some(refAlleles)) ==>
      ArtifactContingencyTableAnalysisUtils.IndexableMatches(
        read.alignment.alignedPairs, 0, chrom, mask.value, refAlleles, read.alignment.queryAlignmentSequence)
  }

  /**
   * Every read whose reference bases the loop counts can be counted: the
   * first read of each name.  A later mate of a name only moves an overlap
   * counter, so nothing is asked of it.
   */
  predicate AllCountable(pileups: seq<PileupRead>, refAllele: string, altAllele: string, chrom: string,
                         mask: Option<OMap<string, bool>>, refAlleles: OMap<string, char>)
  {
    forall i :: 0 <= i < |pileups| && pileups[i].alignment.queryName !in ReadNames(pileups[..i]) ==>
      Countable(pileups[i], refAllele, altAllele, chrom, mask, refAlleles)
  }

  /** A prefix of countable reads is countable. */
  lemma AllCountablePrefix(pileups: seq<PileupRead>, n: nat, refAllele: string, altAllele: string, chrom: string,
                           mask: Option<OMap<string, bool>>, refAlleles: OMap<string, char>)
    requires n <= |pileups| && AllCountable(pileups, refAllele, altAllele, chrom, mask, refAlleles)
    ensures AllCountable(pileups[..n], refAllele, altAllele, chrom, mask, refAlleles)
  {
    assert forall i :: 0 <= i < n ==> pileups[..n][i] == pileups[i] && pileups[..n][..i] == pileups[..i];
  }

  /**
   * One read of the loop: a read whose name was seen counts as an overlap
   * on the side it supports (reference-only or alternate-only); a new name
   * is remembered and, for a reference-only read, its reference bases are
   * added.
   */
  function DraftStep(st: DraftState, read: PileupRead, refAllele: string, altAllele: string, chrom: string,
                     mask: Option<OMap<string, bool>>, refAlleles: OMap<string, char>): DraftState
    requires read.alignment.queryName !in st.seen ==> Countable(read, refAllele, altAllele, chrom, mask, refAlleles)
  {
    var name := read.alignment.queryName;
    if name in st.seen then
      if RefOnly(read, refAllele, altAllele) then st.(refOverlapping := st.refOverlapping + 1)
      else if AltOnly(read, refAllele, altAllele) then st.(altOverlapping := st.altOverlapping + 1)
      else st
    else
      var added := st.(seen := st.seen + {name});
      if RefOnly(read, refAllele, altAllele) then
        added.(refRef := st.refRef + ArtifactContingencyTableAnalysisUtils.RefCount(read, chrom, mask, Some(refAlleles)))
      else added
  }

  /** The loop over the reads of the column. */
  function DraftOver(pileups: seq<PileupRead>, refAllele: string, altAllele: string, chrom: string,
                     mask: Option<OMap<string, bool>>, refAlleles: OMap<string, char>): (st: DraftState)
    requires AllCountable(pileups, refAllele, altAllele, chrom, mask, refAlleles)
    ensures st.seen == ReadNames(pileups)
  {
    if |pileups| == 0 then DraftState({}, 0, 0, 0)
    else
      var init := pileups[..|pileups| - 1];
      assert forall i :: 0 <= i < |init| ==> init[i] == pileups[i] && init[..i] == pileups[..i];
      DraftStep(DraftOver(init, refAllele, altAllele, chrom, mask, refAlleles),
                pileups[|pileups| - 1], refAllele, altAllele, chrom, mask, refAlleles)
  }

  /** The names of the reads. */
  function ReadNames(pileups: seq<PileupRead>): set<string> {
    if |pileups| == 0 then {} else ReadNames(pileups[..|pileups| - 1]) + {pileups[|pileups| - 1].alignment.queryName}
  }

  /** No two reads share a name. */
  ghost predicate DistinctNames(pileups: seq<PileupRead>) {
    forall i, j :: 0 <= i < j < |pileups| ==> pileups[i].alignment.queryName != pileups[j].alignment.queryName
  }

  /**
   * Each read either brings a new name or counts at most one overlap: the
   * names plus the overlaps are at most the reads.
   */
  lemma {:induction false} DraftOverCounts(pileups: seq<PileupRead>, refAllele: string, altAllele: string, chrom: string,
                                           mask: Option<OMap<string, bool>>, refAlleles: OMap<string, char>)
    requires AllCountable(pileups, refAllele, altAllele, chrom, mask, refAlleles)
    ensures var st := DraftOver(pileups, refAllele, altAllele, chrom, mask, refAlleles);
      |st.seen| + st.refOverlapping + st.altOverlapping <= |pileups|
  {
    if |pileups| > 0 {
      var init := pileups[..|pileups| - 1];
      assert forall i :: 0 <= i < |init| ==> init[i] == pileups[i] && init[..i] == pileups[..i];
      DraftOverCounts(init, refAllele, altAllele, chrom, mask, refAlleles);
    }
  }

  /** The names of reads with pairwise different names number as many as the reads. */
  lemma {:induction false} DistinctReadNamesCount(pileups: seq<PileupRead>)
    requires DistinctNames(pileups)
    ensures |ReadNames(pileups)| == |pileups|
  {
    if |pileups| > 0 {
      var init := pileups[..|pileups| - 1];
      var last := pileups[|pileups| - 1].alignment.queryName;
      assert DistinctNames(init);
      DistinctReadNamesCount(init);
      ReadNamesMembers(init, last);
    }
  }

  /** A name is among the reads' names exactly when some read carries it. */
  lemma {:induction false} ReadNamesMembers(pileups: seq<PileupRead>, name: string)
    ensures name in ReadNames(pileups) <==> exists i :: 0 <= i < |pileups| && pileups[i].alignment.queryName == name
  {
    if |pileups| > 0 {
      var init := pileups[..|pileups| - 1];
      ReadNamesMembers(init, name);
      if name in ReadNames(init) {
        var i :| 0 <= i < |init| && init[i].alignment.queryName == name;
        assert pileups[i] == init[i];
      }
      if exists i :: 0 <= i < |pileups| && pileups[i].alignment.queryName == name {
        var i :| 0 <= i < |pileups| && pileups[i].alignment.queryName == name;
        if i < |init| {
          assert init[i] == pileups[i];
        }
      }
    }
  }

  /** When no two reads share a name nothing counts as overlapping. */
  lemma DistinctNamesNoOverlaps(pileups: seq<PileupRead>, refAllele: string, altAllele: string, chrom: string,
                                mask: Option<OMap<string, bool>>, refAlleles: OMap<string, char>)
    requires AllCountable(pileups, refAllele, altAllele, chrom, mask, refAlleles)
    requires DistinctNames(pileups)
    ensures DraftOver(pileups, refAllele, altAllele, chrom, mask, refAlleles).refOverlapping == 0
    ensures DraftOver(pileups, refAllele, altAllele, chrom, mask, refAlleles).altOverlapping == 0
  {
    DraftOverCounts(pileups, refAllele, altAllele, chrom, mask, refAlleles);
    DistinctReadNamesCount(pileups);
  }

  /** A read whose name was already seen adds no reference bases, whatever it supports. */
  lemma RepeatedNameAddsNoBases(st: DraftState, read: PileupRead, refAllele: string, altAllele: string, chrom: string,
                                mask: Option<OMap<string, bool>>, refAlleles: OMap<string, char>)
    requires read.alignment.queryName in st.seen
    ensures DraftStep(st, read, refAllele, altAllele, chrom, mask, refAlleles).refRef == st.refRef
    ensures DraftStep(st, read, refAllele, altAllele, chrom, mask, refAlleles).seen == st.seen
  {
  }

  /**
   * The two cases of one read: a repeated name raises the reference overlap
   * count if the read is reference-only, the alternate one if it is
   * alternate-only, and adds no reference bases; a new name leaves both
   * overlap counts alone and adds reference bases only for a
   * reference-only read.
   */
  lemma DraftStepCases(st: DraftState, read: PileupRead, refAllele: string, altAllele: string, chrom: string,
                       mask: Option<OMap<string, bool>>, refAlleles: OMap<string, char>)
    requires read.alignment.queryName !in st.seen ==> Countable(read, refAllele, altAllele, chrom, mask, refAlleles)
    ensures var next := DraftStep(st, read, refAllele, altAllele, chrom, mask, refAlleles);
      next.seen == st.seen + {read.alignment.queryName} &&
      (read.alignment.queryName in st.seen ==>
        next.refRef == st.refRef &&
        next.refOverlapping == st.refOverlapping + (if RefOnly(read, refAllele, altAllele) then 1 else 0) &&
        next.altOverlapping == st.altOverlapping + (if AltOnly(read, refAllele, altAllele) then 1 else 0)) &&
      (read.alignment.queryName !in st.seen ==>
        next.refOverlapping == st.refOverlapping && next.altOverlapping == st.altOverlapping &&
        next.refRef == st.refRef +
          (if RefOnly(read, refAllele, altAllele)
           then ArtifactContingencyTableAnalysisUtils.RefCount(read, chrom, mask, Some(refAlleles)) else 0))
  {
  }

  /** The read supports only the reference (`refSide`) or only the alternate allele. */
  predicate SupportsOnly(read: PileupRead, refAllele: string, altAllele: string, refSide: bool) {
    if refSide then RefOnly(read, refAllele, altAllele) else AltOnly(read, refAllele, altAllele)
  }

  /** The read carries one of the `earlier` names and supports only that side. */
  predicate IsRepeat(read: PileupRead, earlier: set<string>, refAllele: string, altAllele: string, refSide: bool) {
    read.alignment.queryName in earlier && SupportsOnly(read, refAllele, altAllele, refSide)
  }

  /** The reads whose name an earlier read already carried and that support only one side. */
  ghost function Repeats(pileups: seq<PileupRead>, refAllele: string, altAllele: string, refSide: bool): set<int> {
    set i | 0 <= i < |pileups| && IsRepeat(pileups[i], ReadNames(pileups[..i]), refAllele, altAllele, refSide)
  }

  /**
   * Over a whole column, each overlap count is the number of reads that
   * repeat an earlier name and support only that side.
   */
  lemma {:induction false} OverlapsCountRepeats(pileups: seq<PileupRead>, refAllele: string, altAllele: string, chrom: string,
                                                mask: Option<OMap<string, bool>>, refAlleles: OMap<string, char>)
    requires AllCountable(pileups, refAllele, altAllele, chrom, mask, refAlleles)
    ensures DraftOver(pileups, refAllele, altAllele, chrom, mask, refAlleles).refOverlapping ==
      |Repeats(pileups, refAllele, altAllele, true)|
    ensures DraftOver(pileups, refAllele, altAllele, chrom, mask, refAlleles).altOverlapping ==
      |Repeats(pileups, refAllele, altAllele, false)|
  {
    if |pileups| == 0 {
      assert Repeats(pileups, refAllele, altAllele, true) == {};
      assert Repeats(pileups, refAllele, altAllele, false) == {};
    } else {
      var n := |pileups| - 1;
      var init := pileups[..n];
      AllCountablePrefix(pileups, n, refAllele, altAllele, chrom, mask, refAlleles);
      OverlapsCountRepeats(init, refAllele, altAllele, chrom, mask, refAlleles);
      var prev := DraftOver(init, refAllele, altAllele, chrom, mask, refAlleles);
      assert DraftOver(pileups, refAllele, altAllele, chrom, mask, refAlleles) ==
        DraftStep(prev, pileups[n], refAllele, altAllele, chrom, mask, refAlleles);
      RepeatsSnoc(pileups, refAllele, altAllele, true);
      RepeatsSnoc(pileups, refAllele, altAllele, false);
      DraftStepCases(prev, pileups[n], refAllele, altAllele, chrom, mask, refAlleles);
    }
  }

  /** One more read adds its own index to the repeats exactly when it repeats an earlier name on that side. */
  lemma RepeatsSnoc(pileups: seq<PileupRead>, refAllele: string, altAllele: string, refSide: bool)
    requires |pileups| > 0
    ensures var n := |pileups| - 1;
      |Repeats(pileups, refAllele, altAllele, refSide)| ==
        |Repeats(pileups[..n], refAllele, altAllele, refSide)| +
        (if IsRepeat(pileups[n], ReadNames(pileups[..n]), refAllele, altAllele, refSide) then 1 else 0)
  {
    var n := |pileups| - 1;
    var init := pileups[..n];
    var earlier := Repeats(init, refAllele, altAllele, refSide);
    var last: set<int> := if IsRepeat(pileups[n], ReadNames(init), refAllele, altAllele, refSide) then {n} else {};
    RepeatsPrefix(pileups, refAllele, altAllele, refSide);
    assert Repeats(pileups, refAllele, altAllele, refSide) == earlier + last;
    assert n !in earlier;
  }

  /** Below the last read, the repeats of a column and of its prefix are the same indices. */
  lemma RepeatsPrefix(pileups: seq<PileupRead>, refAllele: string, altAllele: string, refSide: bool)
    requires |pileups| > 0
    ensures forall i :: 0 <= i < |pileups| - 1 ==>
      (i in Repeats(pileups, refAllele, altAllele, refSide) <==> i in Repeats(pileups[..|pileups| - 1], refAllele, altAllele, refSide))
  {
    var init := pileups[..|pileups| - 1];
    forall i | 0 <= i < |init|
      ensures i in Repeats(pileups, refAllele, altAllele, refSide) <==> i in Repeats(init, refAllele, altAllele, refSide)
    {
      assert pileups[i] == init[i] && pileups[..i] == init[..i];
    }
  }

  /** The pileup's first column is the one at `start`. */
  predicate StartsAtStart(columns: seq<Column>, start: int) {
    |columns| > 0 && columns[0].pos == start
  }

  /**
   * The table `create` returns: from the first column only, and only when
   * it is the column at `start`; the non-reference, alternate-reference and
   * soft-clip counters are 0.
   */
  function CreateSpec(chrom: string, start: int, refAllele: string, altAllele: string, columns: seq<Column>,
                      mask: Option<OMap<string, bool>>, refSeq: string): (t: Table)
    requires StartsAtStart(columns, start) ==>
      AllCountable(columns[0].pileups, refAllele, altAllele, chrom, mask,
                   ArtifactContingencyTableAnalysisUtils.RefAllelesFrom(chrom, start - 100, refSeq))
    ensures Augmented(t)
    ensures t.altNonRef == 0 && t.altRef == 0 && t.refNonRef == 0
    ensures t.altSoftClipped == 0 && t.refSoftClipped == 0
    ensures t.refOverlapping >= 0 && t.altOverlapping >= 0
    ensures !StartsAtStart(columns, start) ==> t.refRef == 0 && t.refOverlapping == 0 && t.altOverlapping == 0
  {
    if StartsAtStart(columns, start) then
      var st := DraftOver(columns[0].pileups, refAllele, altAllele, chrom, mask,
                          ArtifactContingencyTableAnalysisUtils.RefAllelesFrom(chrom, start - 100, refSeq));
      NewTable(0, 0, 0, st.refRef, 0, 0, st.altOverlapping, st.refOverlapping)
    else NewTable(0, 0, 0, 0, 0, 0, 0, 0)
  }

  /** Columns after the first never matter ("only one pass permitted"). */
  lemma OnlyFirstColumnCounts(chrom: string, start: int, refAllele: string, altAllele: string, columns: seq<Column>,
                              later: seq<Column>, mask: Option<OMap<string, bool>>, refSeq: string)
    requires StartsAtStart(columns, start) ==>
      AllCountable(columns[0].pileups, refAllele, altAllele, chrom, mask,
                   ArtifactContingencyTableAnalysisUtils.RefAllelesFrom(chrom, start - 100, refSeq))
    requires |columns| > 0
    ensures CreateSpec(chrom, start, refAllele, altAllele, columns[..1] + later, mask, refSeq) ==
      CreateSpec(chrom, start, refAllele, altAllele, columns, mask, refSeq)
  {
    assert (columns[..1] + later)[0] == columns[0];
  }

  /** The loop body of `create` for one read. */
  method ClassifyRead(seen: set<string>, refRef: int, refOverlapping: nat, altOverlapping: nat, read: PileupRead,
                      refAllele: string, altAllele: string, chrom: string,
                      mask: Option<OMap<string, bool>>, refAlleles: OMap<string, char>)
    returns (seen': set<string>, refRef': int, refOverlapping': nat, altOverlapping': nat)
    requires read.alignment.queryName !in seen ==> Countable(read, refAllele, altAllele, chrom, mask, refAlleles)
    ensures DraftState(seen', refRef', refOverlapping', altOverlapping') ==
      DraftStep(DraftState(seen, refRef, refOverlapping, altOverlapping), read, refAllele, altAllele, chrom, mask, refAlleles)
  {
    seen', refRef', refOverlapping', altOverlapping' := seen, refRef, refOverlapping, altOverlapping;
    var isIndel := HasIndel(read);
    var isRef := HasRefAllele(read, refAllele);
    var isAlt := HasAltAllele(read, altAllele);
    if read.alignment.queryName in seen {
      if !isIndel && isRef && !isAlt {
        refOverlapping' := refOverlapping' + 1;
      } else if !isIndel && !isRef && isAlt {
        altOverlapping' := altOverlapping' + 1;
      }
    } else {
      seen' := seen' + {read.alignment.queryName};
      if isRef && !isIndel && !isAlt {
        var count := ArtifactContingencyTableAnalysisUtils.RetrieveRefPileupreadBpCount(read, chrom, mask, Some(refAlleles));
        refRef' := refRef' + count;
      }
    }
  }

  /** The loop of `create` over the reads of the first column. */
  method ClassifyReads(pileups: seq<PileupRead>, refAllele: string, altAllele: string, chrom: string,
                       mask: Option<OMap<string, bool>>, refAlleles: OMap<string, char>)
    returns (refRef: int, refOverlapping: nat, altOverlapping: nat)
    requires AllCountable(pileups, refAllele, altAllele, chrom, mask, refAlleles)
    ensures var st := DraftOver(pileups, refAllele, altAllele, chrom, mask, refAlleles);
      refRef == st.refRef && refOverlapping == st.refOverlapping && altOverlapping == st.altOverlapping
  {
    refRef, refOverlapping, altOverlapping := 0, 0, 0;
    var seen: set<string> := {};
    var i := 0;
    while i < |pileups|
      invariant 0 <= i <= |pileups|
      invariant AllCountable(pileups[..i], refAllele, altAllele, chrom, mask, refAlleles)
      invariant DraftState(seen, refRef, refOverlapping, altOverlapping) ==
        DraftOver(pileups[..i], refAllele, altAllele, chrom, mask, refAlleles)
    {
      assert pileups[..i + 1][..i] == pileups[..i];
      AllCountablePrefix(pileups, i + 1, refAllele, altAllele, chrom, mask, refAlleles);
      seen, refRef, refOverlapping, altOverlapping :=
        ClassifyRead(seen, refRef, refOverlapping, altOverlapping, pileups[i], refAllele, altAllele, chrom, mask, refAlleles);
      i := i + 1;
    }
    assert pileups[..i] == pileups;
  }

  /**
   * `create`, given the pileup's columns over the interval and the fetched
   * reference window `refSeq`: the reference map is built from the window,
   * then the first column's reads are classified.
   */
  method Create(chrom: string, start: int, refAllele: string, altAllele: string, columns: seq<Column>,
                mask: Option<OMap<string, bool>>, refSeq: string) returns (table: Table)
    requires StartsAtStart(columns, start) ==>
      AllCountable(columns[0].pileups, refAllele, altAllele, chrom, mask,
                   ArtifactContingencyTableAnalysisUtils.RefAllelesFrom(chrom, start - 100, refSeq))
    ensures table == CreateSpec(chrom, start, refAllele, altAllele, columns, mask, refSeq)
    ensures StartsAtStart(columns, start) ==>
      table.refOverlapping == |Repeats(columns[0].pileups, refAllele, altAllele, true)| &&
      table.altOverlapping == |Repeats(columns[0].pileups, refAllele, altAllele, false)|
  {
    var refRef := 0;
    var refOverlapping: nat := 0;
    var altOverlapping: nat := 0;
    var refAlleles := ArtifactContingencyTableAnalysisUtils.RetrieveRefAlleles(chrom, start, refSeq);
    if StartsAtStart(columns, start) {
      refRef, refOverlapping, altOverlapping :=
        ClassifyReads(columns[0].pileups, refAllele, altAllele, chrom, mask, refAlleles);
      OverlapsCountRepeats(columns[0].pileups, refAllele, altAllele, chrom, mask, refAlleles);
    }
    table := NewTable(0, 0, 0, refRef, 0, 0, altOverlapping, refOverlapping);
  }
}
