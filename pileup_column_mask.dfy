/**
 * The column masks of PileupColumnMask.py.  A mask maps each column name of
 * the window to True when the column is to be ignored.
 */
module PileupColumnMasks {
  import opened Wrappers
  import opened Seqs
  import opened OrderedMaps
  import opened PileupColumnUtils
  import opened PileupColumnKnapsacks
  import opened SomaticMutations

  /** The kind of sample the window comes from. */
  datatype DataType = Germline | Somatic | Other

  datatype PileupColumnMask = PileupColumnMask(mask: OMap<string, bool>)

  /**
   * Germline masking of one column: masked when it has non-reference alleles
   * and `cdfAbove(nonRef, total)` holds, the stand-in for the binomial CDF
   * at p = 0.45 exceeding 0.05.
   */
  predicate GermlineMasked(readKnapsack: ReadKnapsack, cdfAbove: (int, int) -> bool) {
    readKnapsack.nonRefAlleleCount != 0 && cdfAbove(readKnapsack.nonRefAlleleCount, readKnapsack.totalAlleleCount)
  }

  /** The germline mask after the columns `cols`. */
  function GermlineOver(cols: seq<string>, knapsack: PileupColumnKnapsack, cdfAbove: (int, int) -> bool): OMap<string, bool>
    requires forall c :: c in cols ==> c in knapsack.pileupreadKnapsacks.values
  {
    if |cols| == 0 then Empty()
    else
      var c := cols[|cols| - 1];
      GermlineOver(cols[..|cols| - 1], knapsack, cdfAbove).Put(c, GermlineMasked(knapsack.pileupreadKnapsacks.values[c], cdfAbove))
  }

  /** Every column of `cols` unmasked, in order. */
  function AllFalse(cols: seq<string>): OMap<string, bool> {
    if |cols| == 0 then Empty() else AllFalse(cols[..|cols| - 1]).Put(cols[|cols| - 1], false)
  }

  /** `base` with the columns of the mutations `nearby` set to masked, in order. */
  function MaskNearby(base: OMap<string, bool>, nearby: seq<SomaticMutation>): OMap<string, bool> {
    if |nearby| == 0 then base
    else
      var m := nearby[|nearby| - 1];
      MaskNearby(base, nearby[..|nearby| - 1]).Put(MutationName(m), true)
  }

  /** The column name of a mutation. */
  function MutationName(m: SomaticMutation): string {
    ColumnName(m.chrom, m.start, m.end)
  }

  /** The column names of the mutations `nearby`. */
  function NearbyNames(nearby: seq<SomaticMutation>): set<string> {
    if |nearby| == 0 then {} else NearbyNames(nearby[..|nearby| - 1]) + {MutationName(nearby[|nearby| - 1])}
  }

  /** A name is a nearby name exactly when some nearby mutation has it. */
  lemma {:induction false} NearbyNamesMembers(nearby: seq<SomaticMutation>, n: string)
    ensures n in NearbyNames(nearby) <==> exists i :: 0 <= i < |nearby| && n == MutationName(nearby[i])
  {
    if |nearby| > 0 {
      var init := nearby[..|nearby| - 1];
      var last := nearby[|init|];
      NearbyNamesMembers(init, n);
      assert NearbyNames(nearby) == NearbyNames(init) + {MutationName(last)};
      if n in NearbyNames(nearby) {
        if n == MutationName(last) {
          assert n == MutationName(nearby[|init|]);
        } else {
          var i :| 0 <= i < |init| && n == MutationName(init[i]);
          assert nearby[i] == init[i];
        }
      }
      if exists i :: 0 <= i < |nearby| && n == MutationName(nearby[i]) {
        var i :| 0 <= i < |nearby| && n == MutationName(nearby[i]);
        if i < |init| {
          assert nearby[i] == init[i];
        }
      }
    }
  }

  /** The mask `create` builds. */
  function MaskSpec(knapsack: PileupColumnKnapsack, dataType: DataType, nearby: Option<seq<SomaticMutation>>,
                    cdfAbove: (int, int) -> bool): OMap<string, bool>
    requires forall c :: c in PileupcolumnNames(knapsack) ==> c in knapsack.pileupreadKnapsacks.values
  {
    match dataType
    case Germline => GermlineOver(PileupcolumnNames(knapsack), knapsack, cdfAbove)
    case Somatic => MaskNearby(AllFalse(PileupcolumnNames(knapsack)), nearby.GetOr([]))
    case Other => AllFalse(PileupcolumnNames(knapsack))
  }

  /**
   * `create`: in germline mode every column is first unmasked and then masked
   * when its allele counts pass the test; in somatic mode every column is
   * unmasked and then every nearby mutation's column is masked; otherwise
   * every column is unmasked.  A missing list of nearby mutations is an
   * empty one.
   */
  method Create(knapsack: PileupColumnKnapsack, dataType: DataType, nearby: Option<seq<SomaticMutation>>,
                cdfAbove: (int, int) -> bool) returns (columnMask: PileupColumnMask)
    requires knapsack.pileupreadKnapsacks.Valid()
    ensures columnMask.mask == MaskSpec(knapsack, dataType, nearby, cdfAbove)
  {
    var nearbyMutations := if nearby.None? then [] else nearby.value;
    var cols := PileupcolumnNames(knapsack);
    var mask;
    if dataType == Germline {
      mask := MaskGermline(cols, knapsack, cdfAbove);
    } else if dataType == Somatic {
      mask := MaskNearbyMutations(AllFalse(cols), nearbyMutations);
    } else {
      mask := AllFalse(cols);
    }
    columnMask := PileupColumnMask(mask);
  }

  /** The germline loop of `create`: each column unmasked, then masked when it passes the test. */
  method MaskGermline(cols: seq<string>, knapsack: PileupColumnKnapsack, cdfAbove: (int, int) -> bool)
    returns (mask: OMap<string, bool>)
    requires forall c :: c in cols ==> c in knapsack.pileupreadKnapsacks.values
    ensures mask == GermlineOver(cols, knapsack, cdfAbove)
  {
    mask := Empty();
    var i := 0;
    while i < |cols|
      invariant 0 <= i <= |cols|
      invariant mask == GermlineOver(cols[..i], knapsack, cdfAbove)
    {
      var c := cols[i];
      assert cols[..i + 1][..i] == cols[..i];
      mask := MaskGermlineColumn(mask, c, knapsack.pileupreadKnapsacks.values[c], cdfAbove);
      i := i + 1;
    }
    assert cols[..i] == cols;
  }

  /** One column of the germline loop: unmasked, then masked when its counts pass the test. */
  method MaskGermlineColumn(mask: OMap<string, bool>, c: string, readKnapsack: ReadKnapsack, cdfAbove: (int, int) -> bool)
    returns (mask': OMap<string, bool>)
    ensures mask' == mask.Put(c, GermlineMasked(readKnapsack, cdfAbove))
  {
    mask' := mask.Put(c, false);
    if readKnapsack.nonRefAlleleCount != 0 {
      if cdfAbove(readKnapsack.nonRefAlleleCount, readKnapsack.totalAlleleCount) {
        PutPut(mask, c, false, true);
        mask' := mask'.Put(c, true);
      }
    }
  }

  /** The somatic loop of `create`: each nearby mutation's column masked in turn. */
  method MaskNearbyMutations(base: OMap<string, bool>, nearby: seq<SomaticMutation>) returns (mask: OMap<string, bool>)
    ensures mask == MaskNearby(base, nearby)
  {
    mask := base;
    var i := 0;
    while i < |nearby|
      invariant 0 <= i <= |nearby|
      invariant mask == MaskNearby(base, nearby[..i])
    {
      var m := nearby[i];
      assert nearby[..i + 1][..i] == nearby[..i];
      mask := mask.Put(MutationName(m), true);
      i := i + 1;
    }
    assert nearby[..i] == nearby;
  }

  /** Over distinct columns the germline mask has exactly those columns, in order, each masked iff it passes the test. */
  lemma {:induction false} GermlineOverShape(cols: seq<string>, knapsack: PileupColumnKnapsack, cdfAbove: (int, int) -> bool)
    requires forall c :: c in cols ==> c in knapsack.pileupreadKnapsacks.values
    requires Distinct(cols)
    ensures GermlineOver(cols, knapsack, cdfAbove).Valid()
    ensures GermlineOver(cols, knapsack, cdfAbove).keys == cols
    ensures forall c :: c in GermlineOver(cols, knapsack, cdfAbove).values ==>
      GermlineOver(cols, knapsack, cdfAbove).values[c] == GermlineMasked(knapsack.pileupreadKnapsacks.values[c], cdfAbove)
  {
    if |cols| > 0 {
      DistinctPrefix(cols, |cols| - 1);
      LastNotInPrefix(cols);
      GermlineOverShape(cols[..|cols| - 1], knapsack, cdfAbove);
      assert cols[..|cols| - 1] + [cols[|cols| - 1]] == cols;
    }
  }

  /** Over distinct columns the all-unmasked mask has exactly those columns, in order, all False. */
  lemma {:induction false} AllFalseShape(cols: seq<string>)
    requires Distinct(cols)
    ensures AllFalse(cols).Valid()
    ensures AllFalse(cols).keys == cols
    ensures forall c :: c in AllFalse(cols).values ==> !AllFalse(cols).values[c]
  {
    if |cols| > 0 {
      DistinctPrefix(cols, |cols| - 1);
      LastNotInPrefix(cols);
      AllFalseShape(cols[..|cols| - 1]);
      assert cols[..|cols| - 1] + [cols[|cols| - 1]] == cols;
    }
  }

  /**
   * Masking nearby mutations keeps the earlier keys in place, adds each
   * mutation's name (known to the window or not), masks exactly those names
   * and leaves every other value as it was.
   */
  lemma {:induction false} MaskNearbyShape(base: OMap<string, bool>, nearby: seq<SomaticMutation>)
    requires base.Valid()
    ensures MaskNearby(base, nearby).Valid()
    ensures |MaskNearby(base, nearby).keys| >= |base.keys| && MaskNearby(base, nearby).keys[..|base.keys|] == base.keys
    ensures forall n :: n in MaskNearby(base, nearby).values <==> n in base.values || n in NearbyNames(nearby)
    ensures forall n :: n in MaskNearby(base, nearby).values ==>
      MaskNearby(base, nearby).values[n] == (n in NearbyNames(nearby) || base.values[n])
  {
    if |nearby| > 0 {
      var init := nearby[..|nearby| - 1];
      MaskNearbyShape(base, init);
      var prev := MaskNearby(base, init);
      assert MaskNearby(base, nearby).keys[..|base.keys|] == prev.keys[..|base.keys|];
    }
  }

  /**
   * Germline mode: the mask has exactly the window's columns, in order; a
   * column is masked iff its non-reference count is non-zero and the CDF
   * test passes, so a column without non-reference alleles stays unmasked.
   */
  lemma GermlineMask(knapsack: PileupColumnKnapsack, nearby: Option<seq<SomaticMutation>>, cdfAbove: (int, int) -> bool)
    requires knapsack.pileupreadKnapsacks.Valid()
    ensures var mask := MaskSpec(knapsack, Germline, nearby, cdfAbove);
      && mask.Valid() && mask.keys == PileupcolumnNames(knapsack)
      && forall c :: c in mask.values ==>
           (mask.values[c] <==> knapsack.pileupreadKnapsacks.values[c].nonRefAlleleCount != 0 &&
                                cdfAbove(knapsack.pileupreadKnapsacks.values[c].nonRefAlleleCount,
                                         knapsack.pileupreadKnapsacks.values[c].totalAlleleCount))
  {
    GermlineOverShape(PileupcolumnNames(knapsack), knapsack, cdfAbove);
  }

  /**
   * Somatic mode: the window's columns come first, in order; the keys are
   * the window's columns together with every nearby mutation's name, and a
   * key is masked iff it is a nearby mutation's name.  A missing list acts
   * as an empty one.
   */
  lemma SomaticMask(knapsack: PileupColumnKnapsack, nearby: Option<seq<SomaticMutation>>, cdfAbove: (int, int) -> bool)
    requires knapsack.pileupreadKnapsacks.Valid()
    ensures var mask := MaskSpec(knapsack, Somatic, nearby, cdfAbove);
      var cols := PileupcolumnNames(knapsack);
      && mask.Valid()
      && |mask.keys| >= |cols| && mask.keys[..|cols|] == cols
      && (forall n :: n in mask.values <==> n in cols || n in NearbyNames(nearby.GetOr([])))
      && (forall n :: n in mask.values ==> (mask.values[n] <==> n in NearbyNames(nearby.GetOr([]))))
    ensures MaskSpec(knapsack, Somatic, None, cdfAbove) == MaskSpec(knapsack, Somatic, Some([]), cdfAbove)
  {
    var cols := PileupcolumnNames(knapsack);
    AllFalseShape(cols);
    MaskNearbyShape(AllFalse(cols), nearby.GetOr([]));
  }

  /** Any other data type: exactly the window's columns, in order, none masked. */
  lemma OtherMask(knapsack: PileupColumnKnapsack, nearby: Option<seq<SomaticMutation>>, cdfAbove: (int, int) -> bool)
    requires knapsack.pileupreadKnapsacks.Valid()
    ensures var mask := MaskSpec(knapsack, Other, nearby, cdfAbove);
      && mask.Valid() && mask.keys == PileupcolumnNames(knapsack)
      && forall c :: c in mask.values ==> !mask.values[c]
  {
    AllFalseShape(PileupcolumnNames(knapsack));
  }
}
