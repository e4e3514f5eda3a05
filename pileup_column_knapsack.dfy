/**
 * The window index of PileupColumnKnapsack.py: an ordered map from column
 * name `chrom:pos:pos+1` to the reads at that column, for every column of
 * the window except the mutation's own.
 */
module PileupColumnKnapsacks {
  import opened Wrappers
  import opened Seqs
  import opened OrderedMaps
  import opened Alignments
  import opened PileupColumnUtils

  /**
   * What the per-column read knapsack holds: the reads at the column keyed
   * by query name, the reference base fetched for the column, and the
   * column's non-reference and total allele counts.
   */
  datatype ReadKnapsack = ReadKnapsack(
    pileupreads: map<string, PileupRead>,
    refAllele: string,
    nonRefAlleleCount: int,
    totalAlleleCount: int)

  /** One column as the pileup yields it: its 0-based position and the read knapsack made of it. */
  datatype PileupColumn = PileupColumn(pos: int, knapsack: ReadKnapsack)

  datatype PileupColumnKnapsack = PileupColumnKnapsack(pileupreadKnapsacks: OMap<string, ReadKnapsack>)

  /** The name of the single-base column at `pos`. */
  function PositionName(chrom: string, pos: int): string {
    ColumnName(chrom, pos, pos + 1)
  }

  /**
   * `pileupcolumn_names`: the stored column names in insertion order; in a
   * valid index each stored column is named exactly once.
   */
  function PileupcolumnNames(knapsack: PileupColumnKnapsack): (names: seq<string>)
    ensures |names| == knapsack.pileupreadKnapsacks.Size()
    ensures knapsack.pileupreadKnapsacks.Valid() ==>
      Distinct(names) && forall n {:trigger n in names} :: n in names <==> n in knapsack.pileupreadKnapsacks.values
  {
    knapsack.pileupreadKnapsacks.keys
  }

  /**
   * `retrieve_pileupread`: the read with `queryName` at the named column;
   * None when the column is not stored or has no such read.
   */
  function RetrievePileupread(knapsack: PileupColumnKnapsack, columnName: string, queryName: string): (r: Option<PileupRead>)
    ensures r.Some? <==>
      columnName in knapsack.pileupreadKnapsacks.values &&
      queryName in knapsack.pileupreadKnapsacks.values[columnName].pileupreads
  {
    var knapsacks := knapsack.pileupreadKnapsacks.values;
    if columnName in knapsacks && queryName in knapsacks[columnName].pileupreads then
      Some(knapsacks[columnName].pileupreads[queryName])
    else
      None
  }

  /** The index that `create` has built after the columns `columns`. */
  function KnapsacksOver(chrom: string, start: int, columns: seq<PileupColumn>): OMap<string, ReadKnapsack> {
    if |columns| == 0 then Empty()
    else
      var c := columns[|columns| - 1];
      var prev := KnapsacksOver(chrom, start, columns[..|columns| - 1]);
      if c.pos != start then prev.Put(PositionName(chrom, c.pos), c.knapsack) else prev
  }

  /** The names of the columns other than the one at `start`, in the order they arrive. */
  function StoredNames(chrom: string, start: int, columns: seq<PileupColumn>): (names: seq<string>)
    ensures |names| <= |columns|
  {
    if |columns| == 0 then []
    else
      var c := columns[|columns| - 1];
      var prev := StoredNames(chrom, start, columns[..|columns| - 1]);
      if c.pos != start then prev + [PositionName(chrom, c.pos)] else prev
  }

  /** The pileup yields each position once. */
  ghost predicate DistinctPositions(columns: seq<PileupColumn>) {
    forall i, j :: 0 <= i < j < |columns| ==> columns[i].pos != columns[j].pos
  }

  /**
   * `create`: every column but the one at the mutation's `start` is stored
   * under its name, later columns going to the end.
   */
  method Create(chrom: string, start: int, columns: seq<PileupColumn>) returns (knapsack: PileupColumnKnapsack)
    ensures knapsack.pileupreadKnapsacks == KnapsacksOver(chrom, start, columns)
    ensures knapsack.pileupreadKnapsacks.Valid()
  {
    var knapsacks := Empty();
    var i := 0;
    while i < |columns|
      invariant 0 <= i <= |columns|
      invariant knapsacks == KnapsacksOver(chrom, start, columns[..i])
      invariant knapsacks.Valid()
    {
      var column := columns[i];
      assert columns[..i + 1][..i] == columns[..i];
      var name := PositionName(chrom, column.pos);
      if column.pos != start {
        knapsacks := knapsacks.Put(name, column.knapsack);
      }
      i := i + 1;
    }
    assert columns[..i] == columns;
    knapsack := PileupColumnKnapsack(knapsacks);
  }

  /** The column at the mutation's own position is never stored. */
  lemma {:induction false} StartColumnNeverStored(chrom: string, start: int, columns: seq<PileupColumn>)
    ensures PositionName(chrom, start) !in KnapsacksOver(chrom, start, columns).values
  {
    if |columns| > 0 {
      var c := columns[|columns| - 1];
      StartColumnNeverStored(chrom, start, columns[..|columns| - 1]);
      if c.pos != start {
        BaseNamesDistinct(chrom, c.pos, start);
      }
    }
  }

  /** A position that no column has has a name that is neither stored nor listed. */
  lemma {:induction false} NewPositionAbsent(chrom: string, start: int, columns: seq<PileupColumn>, p: int)
    requires forall i :: 0 <= i < |columns| ==> columns[i].pos != p
    ensures PositionName(chrom, p) !in StoredNames(chrom, start, columns)
    ensures PositionName(chrom, p) !in KnapsacksOver(chrom, start, columns).values
  {
    if |columns| > 0 {
      var init := columns[..|columns| - 1];
      var c := columns[|columns| - 1];
      assert forall i :: 0 <= i < |init| ==> init[i] == columns[i];
      NewPositionAbsent(chrom, start, init, p);
      BaseNamesDistinct(chrom, c.pos, p);
    }
  }

  /** Names of distinct positions are distinct, so the stored names of distinct columns are too. */
  lemma {:induction false} StoredNamesDistinct(chrom: string, start: int, columns: seq<PileupColumn>)
    requires DistinctPositions(columns)
    ensures Distinct(StoredNames(chrom, start, columns))
  {
    if |columns| > 0 {
      var init := columns[..|columns| - 1];
      var c := columns[|columns| - 1];
      assert DistinctPositions(init);
      StoredNamesDistinct(chrom, start, init);
      NewPositionAbsent(chrom, start, init, c.pos);
    }
  }

  /**
   * Over a window whose columns have distinct positions, the stored keys are
   * the names of the columns other than the mutation's, in arrival order.
   */
  lemma {:induction false} KnapsacksOverKeys(chrom: string, start: int, columns: seq<PileupColumn>)
    requires DistinctPositions(columns)
    ensures KnapsacksOver(chrom, start, columns).Valid()
    ensures KnapsacksOver(chrom, start, columns).keys == StoredNames(chrom, start, columns)
  {
    if |columns| > 0 {
      var init := columns[..|columns| - 1];
      assert DistinctPositions(init);
      KnapsacksOverKeys(chrom, start, init);
      NewPositionAbsent(chrom, start, init, columns[|columns| - 1].pos);
    }
  }

  /** Over distinct positions, each column other than the mutation's is stored with its own knapsack. */
  lemma {:induction false} KnapsacksOverValue(chrom: string, start: int, columns: seq<PileupColumn>, i: nat)
    requires DistinctPositions(columns) && i < |columns| && columns[i].pos != start
    ensures PositionName(chrom, columns[i].pos) in KnapsacksOver(chrom, start, columns).values
    ensures KnapsacksOver(chrom, start, columns).values[PositionName(chrom, columns[i].pos)] == columns[i].knapsack
  {
    var init := columns[..|columns| - 1];
    var c := columns[|columns| - 1];
    if i < |columns| - 1 {
      assert DistinctPositions(init);
      assert init[i] == columns[i];
      KnapsacksOverValue(chrom, start, init, i);
      BaseNamesDistinct(chrom, columns[i].pos, c.pos);
    }
  }

  /**
   * Looking up a read in a freshly built index: at a stored column it gives
   * the column's read with that name, or None when there is none; at the
   * mutation's own column it always gives None.
   */
  lemma RetrieveFromCreate(chrom: string, start: int, columns: seq<PileupColumn>, i: nat, queryName: string)
    requires DistinctPositions(columns) && i < |columns|
    ensures var knapsack := PileupColumnKnapsack(KnapsacksOver(chrom, start, columns));
      && RetrievePileupread(knapsack, PositionName(chrom, start), queryName) == None
      && (columns[i].pos != start ==>
            RetrievePileupread(knapsack, PositionName(chrom, columns[i].pos), queryName) ==
            if queryName in columns[i].knapsack.pileupreads then Some(columns[i].knapsack.pileupreads[queryName]) else None)
  {
    if columns[i].pos != start {
      KnapsacksOverValue(chrom, start, columns, i);
    }
    StartColumnNeverStored(chrom, start, columns);
  }
}
