/**
 * `ArtifactAnalysisTable.create`: split the reads at the mutation's column
 * into ref-supporting and alt-supporting query names, then count, over the
 * unmasked columns of the window, the bases those reads show.
 */
module ArtifactAnalysisTables {
  import opened Seqs
  import opened OrderedMaps
  import opened Wrappers
  import opened Alignments
  import opened PileupColumnKnapsacks
  import opened ArtifactAnalysisTableUtils
  import opened TableCells

  /**
   * The state of the partitioning loop: all classified names in order, the
   * ref-supporting and the alt-supporting names, and how many later mates
   * repeated a ref or an alt classification.
   */
  datatype ReadSupport = ReadSupport(
    names: seq<string>,
    refNames: seq<string>,
    altNames: seq<string>,
    refOverlapping: int,
    altOverlapping: int)

  const NoSupport := ReadSupport([], [], [], 0, 0)

  /** The read supports the reference allele only. */
  predicate RefOnly(read: PileupRead, refAllele: string, altAllele: string) {
    !HasIndel(read) && HasRefAllele(read, refAllele) && !HasAltAllele(read, altAllele)
  }

  /** The read supports the alternate allele only. */
  predicate AltOnly(read: PileupRead, refAllele: string, altAllele: string) {
    !HasIndel(read) && !HasRefAllele(read, refAllele) && HasAltAllele(read, altAllele)
  }

  /** One pass of the loop body over a read, with `passesQc` standing for the quality gate. */
  function Step(s: ReadSupport, read: PileupRead, refAllele: string, altAllele: string,
                passesQc: PileupRead -> bool): ReadSupport
  {
    var name := read.alignment.queryName;
    var refOnly := RefOnly(read, refAllele, altAllele);
    var altOnly := AltOnly(read, refAllele, altAllele);
    if !passesQc(read) then s
    else if refOnly && name in s.refNames then s.(refOverlapping := s.refOverlapping + 1)
    else if altOnly && name in s.altNames then s.(altOverlapping := s.altOverlapping + 1)
    else if (refOnly && name in s.altNames) || (altOnly && name in s.refNames) then s
    else if refOnly then s.(names := s.names + [name], refNames := s.refNames + [name])
    else if altOnly then s.(names := s.names + [name], altNames := s.altNames + [name])
    else s
  }

  /** The state after the reads `pileups`, in order. */
  function Partition(pileups: seq<PileupRead>, refAllele: string, altAllele: string,
                     passesQc: PileupRead -> bool): ReadSupport
  {
    if |pileups| == 0 then NoSupport
    else Step(Partition(pileups[..|pileups| - 1], refAllele, altAllele, passesQc),
              pileups[|pileups| - 1], refAllele, altAllele, passesQc)
  }

  /**
   * Two duplicate-free, disjoint name lists `mine` and `other`, and a
   * combined list holding exactly their names, each appearing in it in its
   * own order.
   */
  ghost predicate Interleaved(names: seq<string>, mine: seq<string>, other: seq<string>) {
    && Distinct(mine)
    && Distinct(other)
    && (forall n :: n in mine ==> n !in other)
    && |names| == |mine| + |other|
    && (forall n :: n in names <==> n in mine || n in other)
    && FilterIn(names, Elements(mine)) == mine
    && FilterIn(names, Elements(other)) == other
  }

  /**
   * The invariant of the loop: the ref and alt lists interleave into the
   * combined list, and the overlap counters are non-negative.
   */
  ghost predicate Consistent(s: ReadSupport) {
    Interleaved(s.names, s.refNames, s.altNames) && s.refOverlapping >= 0 && s.altOverlapping >= 0
  }

  /** Interleaving does not depend on which list is named first. */
  lemma InterleavedSwap(names: seq<string>, mine: seq<string>, other: seq<string>)
    requires Interleaved(names, mine, other)
    ensures Interleaved(names, other, mine)
  {
  }

  /** A new name appended to the combined list and to one list keeps that list its filter. */
  lemma FilterKeepsNewName(names: seq<string>, mine: seq<string>, name: string)
    requires FilterIn(names, Elements(mine)) == mine && name !in names
    ensures FilterIn(names + [name], Elements(mine + [name])) == mine + [name]
  {
    var keep := Elements(mine + [name]);
    ElementsSnoc(mine, name);
    FilterInIgnoresAbsent(names, Elements(mine), {name});
    assert FilterIn(names, keep) == mine;
    FilterInSnoc(names, name, keep);
    assert name in keep;
  }

  /** A new name appended to the combined list only leaves the other list's filter alone. */
  lemma FilterSkipsNewName(names: seq<string>, other: seq<string>, name: string)
    requires FilterIn(names, Elements(other)) == other && name !in other
    ensures FilterIn(names + [name], Elements(other)) == other
  {
    FilterInSnoc(names, name, Elements(other));
  }

  /** Appending a new name to one list and to the combined list keeps them interleaved. */
  lemma AddName(names: seq<string>, mine: seq<string>, other: seq<string>, name: string)
    requires Interleaved(names, mine, other) && name !in mine && name !in other
    ensures Interleaved(names + [name], mine + [name], other)
    ensures Interleaved(names + [name], other, mine + [name])
  {
    var names' := names + [name];
    var mine' := mine + [name];
    DistinctSnoc(mine, name);
    assert forall n :: n in mine' <==> n in mine || n == name;
    assert forall n :: n in names' <==> n in names || n == name;
    assert name !in names;
    FilterKeepsNewName(names, mine, name);
    FilterSkipsNewName(names, other, name);
    assert Interleaved(names', mine', other);
    InterleavedSwap(names', mine', other);
  }

  /** The loop body keeps the invariant. */
  lemma StepConsistent(s: ReadSupport, read: PileupRead, refAllele: string, altAllele: string,
                       passesQc: PileupRead -> bool)
    requires Consistent(s)
    ensures Consistent(Step(s, read, refAllele, altAllele, passesQc))
  {
    var name := read.alignment.queryName;
    var refOnly := RefOnly(read, refAllele, altAllele);
    var altOnly := AltOnly(read, refAllele, altAllele);
    var t := Step(s, read, refAllele, altAllele, passesQc);
    if !passesQc(read) || (refOnly && name in s.altNames) || (altOnly && name in s.refNames) || (!refOnly && !altOnly) {
      assert t == s;
    } else if refOnly && name in s.refNames {
      assert t == s.(refOverlapping := s.refOverlapping + 1);
    } else if altOnly && name in s.altNames {
      assert t == s.(altOverlapping := s.altOverlapping + 1);
    } else if refOnly {
      assert t == s.(names := s.names + [name], refNames := s.refNames + [name]);
      AddName(s.names, s.refNames, s.altNames, name);
    } else {
      assert t == s.(names := s.names + [name], altNames := s.altNames + [name]);
      AddName(s.names, s.altNames, s.refNames, name);
    }
  }

  /**
   * After every prefix of the reads, in particular after all of them, the
   * ref-supporting and alt-supporting lists are duplicate-free and disjoint,
   * and the combined list is their interleaving in read order, of length
   * |ref| + |alt|.
   */
  lemma {:induction false} PartitionConsistent(pileups: seq<PileupRead>, refAllele: string, altAllele: string,
                                               passesQc: PileupRead -> bool)
    ensures Consistent(Partition(pileups, refAllele, altAllele, passesQc))
  {
    if |pileups| > 0 {
      PartitionConsistent(pileups[..|pileups| - 1], refAllele, altAllele, passesQc);
      StepConsistent(Partition(pileups[..|pileups| - 1], refAllele, altAllele, passesQc),
                     pileups[|pileups| - 1], refAllele, altAllele, passesQc);
    }
  }

  /** A read failing the quality gate changes nothing. */
  lemma QualityFailureChangesNothing(s: ReadSupport, read: PileupRead, refAllele: string, altAllele: string,
                                     passesQc: PileupRead -> bool)
    requires !passesQc(read)
    ensures Step(s, read, refAllele, altAllele, passesQc) == s
  {
  }

  /**
   * A mate repeating its name's classification raises that side's overlap
   * count by one and adds no name; the other side's count is untouched.
   */
  lemma RepeatCountsOverlap(s: ReadSupport, read: PileupRead, refAllele: string, altAllele: string,
                            passesQc: PileupRead -> bool)
    requires Consistent(s) && passesQc(read)
    ensures RefOnly(read, refAllele, altAllele) && read.alignment.queryName in s.refNames ==>
      Step(s, read, refAllele, altAllele, passesQc) == s.(refOverlapping := s.refOverlapping + 1)
    ensures AltOnly(read, refAllele, altAllele) && read.alignment.queryName in s.altNames ==>
      Step(s, read, refAllele, altAllele, passesQc) == s.(altOverlapping := s.altOverlapping + 1)
  {
  }

  /**
   * A mate disagreeing with its name's earlier classification changes
   * nothing: the first classification wins.
   */
  lemma FirstClassificationWins(s: ReadSupport, read: PileupRead, refAllele: string, altAllele: string,
                                passesQc: PileupRead -> bool)
    requires Consistent(s)
    requires (RefOnly(read, refAllele, altAllele) && read.alignment.queryName in s.altNames) ||
             (AltOnly(read, refAllele, altAllele) && read.alignment.queryName in s.refNames)
    ensures Step(s, read, refAllele, altAllele, passesQc) == s
  {
  }

  /** Indel reads, and reads supporting neither or both alleles, change nothing. */
  lemma UnclassifiedChangesNothing(s: ReadSupport, read: PileupRead, refAllele: string, altAllele: string,
                                   passesQc: PileupRead -> bool)
    requires !RefOnly(read, refAllele, altAllele) && !AltOnly(read, refAllele, altAllele)
    ensures Step(s, read, refAllele, altAllele, passesQc) == s
  {
  }

  /** A read with a name not yet classified adds its name to its side and to the combined list. */
  lemma NewNameIsAdded(s: ReadSupport, read: PileupRead, refAllele: string, altAllele: string,
                       passesQc: PileupRead -> bool)
    requires passesQc(read) && read.alignment.queryName !in s.refNames && read.alignment.queryName !in s.altNames
    ensures RefOnly(read, refAllele, altAllele) ==>
      Step(s, read, refAllele, altAllele, passesQc) ==
      s.(names := s.names + [read.alignment.queryName], refNames := s.refNames + [read.alignment.queryName])
    ensures AltOnly(read, refAllele, altAllele) ==>
      Step(s, read, refAllele, altAllele, passesQc) ==
      s.(names := s.names + [read.alignment.queryName], altNames := s.altNames + [read.alignment.queryName])
  {
  }

  /** The index of the window's unmasked columns, restricted to the classified names. */
  function WindowIndex(support: ReadSupport, knapsack: PileupColumnKnapsack, mask: OMap<string, bool>)
    : OMap<string, seq<PileupRead>>
  {
    IndexedOver(PileupcolumnNames(knapsack), knapsack, support.names, mask)
  }

  /** The table `create` returns, stated over the partition and the window. */
  function CreateSpec(refAllele: string, altAllele: string, pileups: seq<PileupRead>, knapsack: PileupColumnKnapsack,
                      mask: OMap<string, bool>, passesQc: PileupRead -> bool): Table
    requires forall c :: c in PileupcolumnNames(knapsack) ==> c in knapsack.pileupreadKnapsacks.values
  {
    var support := Partition(pileups, refAllele, altAllele, passesQc);
    var indexed := WindowIndex(support, knapsack, mask);
    var refAlleles := RefAllelesOver(PileupcolumnNames(knapsack), knapsack);
    var refSet := Elements(support.refNames);
    var altSet := Elements(support.altNames);
    NewTable(
      WindowSum(indexed.keys, indexed, refAlleles, altSet, NonRefBases(true)),
      WindowSum(indexed.keys, indexed, refAlleles, altSet, RefBases),
      WindowSum(indexed.keys, indexed, refAlleles, refSet, NonRefBases(true)),
      WindowSum(indexed.keys, indexed, refAlleles, refSet, RefBases),
      WindowSum(indexed.keys, indexed, Empty(), altSet, SoftClippedBases(true)),
      WindowSum(indexed.keys, indexed, Empty(), refSet, SoftClippedBases(true)),
      support.altOverlapping,
      support.refOverlapping)
  }

  /** Every unmasked column of the window has a non-empty fetched reference. */
  predicate UnmaskedHaveRefAlleles(knapsack: PileupColumnKnapsack, mask: OMap<string, bool>) {
    forall c :: c in knapsack.pileupreadKnapsacks.values && c in mask.values && !mask.values[c] ==>
      knapsack.pileupreadKnapsacks.values[c].refAllele != ""
  }

  /**
   * `create`: the partitioning loop over the reads of the mutation's column,
   * then the six windowed counts (non-reference and soft-clip lengths
   * binarized, as by default) for each side, and the overlap counters.
   * Every unmasked column must have a reference allele, or the source's
   * lookup of it fails.
   */
  method Create(refAllele: string, altAllele: string, pileups: seq<PileupRead>, knapsack: PileupColumnKnapsack,
                mask: OMap<string, bool>, passesQc: PileupRead -> bool) returns (table: Table)
    requires knapsack.pileupreadKnapsacks.Valid()
    requires UnmaskedHaveRefAlleles(knapsack, mask)
    ensures table == CreateSpec(refAllele, altAllele, pileups, knapsack, mask, passesQc)
    ensures Augmented(table)
    ensures table.refOverlapping >= 0 && table.altOverlapping >= 0
  {
    var refOverlapping := 0;
    var altOverlapping := 0;
    var names: seq<string> := [];
    var refNames: seq<string> := [];
    var altNames: seq<string> := [];

    var refAlleles := RetrieveRefAlleles(knapsack);
    var i := 0;
    while i < |pileups|
      invariant 0 <= i <= |pileups|
      invariant ReadSupport(names, refNames, altNames, refOverlapping, altOverlapping) ==
        Partition(pileups[..i], refAllele, altAllele, passesQc)
    {
      var read := pileups[i];
      assert pileups[..i + 1][..i] == pileups[..i];
      i := i + 1;
      if !passesQc(read) {
        continue;
      }
      var name := read.alignment.queryName;
      var isIndel := HasIndel(read);
      var isRef := HasRefAllele(read, refAllele);
      var isAlt := HasAltAllele(read, altAllele);
      if !isIndel && isRef && !isAlt && name in refNames {
        refOverlapping := refOverlapping + 1;
      } else if !isIndel && !isRef && isAlt && name in altNames {
        altOverlapping := altOverlapping + 1;
      } else if (!isIndel && isRef && !isAlt && name in altNames) || (!isIndel && !isRef && isAlt && name in refNames) {
      } else if !isIndel && isRef && !isAlt {
        names := names + [name];
        refNames := refNames + [name];
      } else if !isIndel && !isRef && isAlt {
        names := names + [name];
        altNames := altNames + [name];
      }
    }
    assert pileups[..i] == pileups;
    PartitionConsistent(pileups, refAllele, altAllele, passesQc);

    var indexed := RetrieveIndexedPileupreads(knapsack, names, mask);

    var refSet := Elements(refNames);
    var refRef := RetrieveRefBpCount(indexed, refAlleles, Some(refSet));
    var refNonRef := RetrieveNonRefBpCount(indexed, refAlleles, Some(refSet), true);
    var refSoftClipped := RetrieveSoftClippedBpCount(indexed, Some(refSet), true);

    var altSet := Elements(altNames);
    var altRef := RetrieveRefBpCount(indexed, refAlleles, Some(altSet));
    var altNonRef := RetrieveNonRefBpCount(indexed, refAlleles, Some(altSet), true);
    var altSoftClipped := RetrieveSoftClippedBpCount(indexed, Some(altSet), true);

    table := NewTable(altNonRef, altRef, refNonRef, refRef, altSoftClipped, refSoftClipped,
                      altOverlapping, refOverlapping);
  }

  /**
   * Because the two sides are disjoint, the reference row of the table
   * (alt-supporting plus ref-supporting reference bases) is the reference
   * count over all classified names, and likewise for the non-reference row.
   */
  lemma RowsCountEveryClassifiedRead(refAllele: string, altAllele: string, pileups: seq<PileupRead>,
                                     knapsack: PileupColumnKnapsack, mask: OMap<string, bool>,
                                     passesQc: PileupRead -> bool)
    requires forall c :: c in PileupcolumnNames(knapsack) ==> c in knapsack.pileupreadKnapsacks.values
    ensures var support := Partition(pileups, refAllele, altAllele, passesQc);
      var indexed := WindowIndex(support, knapsack, mask);
      var refAlleles := RefAllelesOver(PileupcolumnNames(knapsack), knapsack);
      var table := CreateSpec(refAllele, altAllele, pileups, knapsack, mask, passesQc);
      && table.altRef + table.refRef == WindowSum(indexed.keys, indexed, refAlleles, Elements(support.names), RefBases)
      && table.altNonRef + table.refNonRef ==
         WindowSum(indexed.keys, indexed, refAlleles, Elements(support.names), NonRefBases(true))
  {
    var support := Partition(pileups, refAllele, altAllele, passesQc);
    var indexed := WindowIndex(support, knapsack, mask);
    var refAlleles := RefAllelesOver(PileupcolumnNames(knapsack), knapsack);
    PartitionConsistent(pileups, refAllele, altAllele, passesQc);
    var refSet := Elements(support.refNames);
    var altSet := Elements(support.altNames);
    assert Elements(support.names) == altSet + refSet;
    WindowSumSplit(indexed.keys, indexed, refAlleles, altSet, refSet, RefBases);
    WindowSumSplit(indexed.keys, indexed, refAlleles, altSet, refSet, NonRefBases(true));
  }
}
