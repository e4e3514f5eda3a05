/**
 * The per-base mask of BasePairMask.py: a knapsack per column of the window
 * except the mutation's, and a mask entry, always unmasked, under the same
 * name.
 */
module BasePairMasks {
  import opened Seqs
  import opened OrderedMaps

  /**
   * What this model needs of a base-pair read knapsack (BasePairReadKnapsack
   * itself is not part of this model): the name it is filed under.
   */
  datatype BasePairReadKnapsack = BasePairReadKnapsack(name: string)

  /** One column as the pileup yields it, with the knapsack made of it. */
  datatype BasePairColumn = BasePairColumn(pos: int, knapsack: BasePairReadKnapsack)

  datatype BasePairMask = BasePairMask(mask: OMap<string, bool>, basePairReadKnapsacks: OMap<string, BasePairReadKnapsack>)

  /** The names of the knapsacks of the columns other than the one at `start`, in arrival order. */
  function KeptNames(start: int, columns: seq<BasePairColumn>): seq<string> {
    if |columns| == 0 then []
    else
      var c := columns[|columns| - 1];
      KeptNames(start, columns[..|columns| - 1]) + (if c.pos != start then [c.knapsack.name] else [])
  }

  /** The knapsack map after the columns `columns`. */
  function KnapsacksOver(start: int, columns: seq<BasePairColumn>): OMap<string, BasePairReadKnapsack> {
    if |columns| == 0 then Empty()
    else
      var c := columns[|columns| - 1];
      var prev := KnapsacksOver(start, columns[..|columns| - 1]);
      if c.pos != start then prev.Put(c.knapsack.name, c.knapsack) else prev
  }

  /** The mask after the columns `columns`. */
  function MaskOver(start: int, columns: seq<BasePairColumn>): OMap<string, bool> {
    if |columns| == 0 then Empty()
    else
      var c := columns[|columns| - 1];
      var prev := MaskOver(start, columns[..|columns| - 1]);
      if c.pos != start then prev.Put(c.knapsack.name, false) else prev
  }

  /**
   * The mask's keys are the knapsack map's keys, in the same order; every
   * value is False; the keys are the kept names, and in arrival order when
   * the names are distinct.
   */
  lemma {:induction false} MaskOverShape(start: int, columns: seq<BasePairColumn>)
    ensures MaskOver(start, columns).Valid() && KnapsacksOver(start, columns).Valid()
    ensures MaskOver(start, columns).keys == KnapsacksOver(start, columns).keys
    ensures forall n :: n in MaskOver(start, columns).values ==> !MaskOver(start, columns).values[n]
    ensures forall n :: n in MaskOver(start, columns).values <==> n in KeptNames(start, columns)
    ensures Distinct(KeptNames(start, columns)) ==> MaskOver(start, columns).keys == KeptNames(start, columns)
  {
    if |columns| > 0 {
      var init := columns[..|columns| - 1];
      var c := columns[|columns| - 1];
      MaskOverShape(start, init);
      var before := KeptNames(start, init);
      var after := KeptNames(start, columns);
      if c.pos != start && Distinct(after) {
        assert after == before + [c.knapsack.name];
        DistinctPrefix(after, |before|);
        assert after[..|before|] == before;
        LastNotInPrefix(after);
      } else if c.pos == start {
        assert after == before;
      }
    }
  }

  /**
   * `create`: skips the column at the mutation's `start`; every other
   * column's knapsack is filed under its name and that name is entered
   * unmasked.
   */
  method Create(start: int, columns: seq<BasePairColumn>) returns (basePairMask: BasePairMask)
    ensures basePairMask.mask == MaskOver(start, columns)
    ensures basePairMask.basePairReadKnapsacks == KnapsacksOver(start, columns)
  {
    var knapsacks := Empty();
    var mask := Empty();
    var i := 0;
    while i < |columns|
      invariant 0 <= i <= |columns|
      invariant knapsacks == KnapsacksOver(start, columns[..i])
      invariant mask == MaskOver(start, columns[..i])
    {
      var column := columns[i];
      assert columns[..i + 1][..i] == columns[..i];
      if column.pos != start {
        var knapsack := column.knapsack;
        knapsacks := knapsacks.Put(knapsack.name, knapsack);
        mask := mask.Put(knapsack.name, false);
      }
      i := i + 1;
    }
    assert columns[..i] == columns;
    basePairMask := BasePairMask(mask, knapsacks);
  }

  /** `is_position_masked`: the stored value; the name must be in the mask. */
  function IsPositionMasked(basePairMask: BasePairMask, positionName: string): bool
    requires positionName in basePairMask.mask.values
  {
    basePairMask.mask.values[positionName]
  }

  /** A created mask masks none of the positions it knows. */
  lemma CreatedMaskMasksNothing(start: int, columns: seq<BasePairColumn>, positionName: string)
    requires positionName in MaskOver(start, columns).values
    ensures !IsPositionMasked(BasePairMask(MaskOver(start, columns), KnapsacksOver(start, columns)), positionName)
  {
    MaskOverShape(start, columns);
  }

  /** The column at the mutation's own position contributes no name. */
  lemma {:induction false} StartColumnSkipped(start: int, columns: seq<BasePairColumn>, knapsack: BasePairReadKnapsack)
    ensures KeptNames(start, columns + [BasePairColumn(start, knapsack)]) == KeptNames(start, columns)
    ensures MaskOver(start, columns + [BasePairColumn(start, knapsack)]) == MaskOver(start, columns)
  {
    assert (columns + [BasePairColumn(start, knapsack)])[..|columns|] == columns;
  }
}
