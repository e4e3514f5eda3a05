/**
 * The driver's bookkeeping in FFPEAritfactFinder.py: which MAF rows are
 * analysed, which mutations count as nearby for the somatic mask, and when
 * a mutation contributes a row to the output columns.
 */
module FFPEArtifactFinder {
  import opened Wrappers
  import opened Seqs
  import opened OrderedMaps
  import opened Series
  import opened TableCells
  import opened SomaticMutations

  /** The variant classifications treated as coding. */
  const CodingVariantClassification: seq<string> := [
    "Frame_Shift_Del", "Frame_Shift_Ins", "Missense_Mutation", "Silent", "Splice_Site",
    "In_Frame_Ins", "In_Frame_Del", "Nonsense_Mutation", "Start_Codon_Del"]

  /** The autosomes and sex chromosomes, with and without the `chr` prefix. */
  const ValidChromosomes: seq<string> := [
    "1", "2", "3", "4", "5", "6", "7", "8", "9", "10", "11", "12", "13", "14", "15", "16", "17", "18",
    "19", "20", "21", "22", "X", "Y", "chr1", "chr2", "chr3", "chr4", "chr5", "chr6", "chr7", "chr8",
    "chr9", "chr10", "chr11", "chr12", "chr13", "chr14", "chr15", "chr16", "chr17", "chr18", "chr19",
    "chr20", "chr21", "chr22", "chrX", "chrY"]

  // ---------------------------------------------------------------------
  // The row filter

  /** The three criteria: a single-nucleotide variant, a coding classification, a valid chromosome. */
  predicate Selected(row: MafRow) {
    row.variantType == "SNP" && row.variantClassification in CodingVariantClassification &&
    row.chromosome in ValidChromosomes
  }

  /**
   * The rows the filter keeps: exactly the selected ones, in their original
   * order, every copy of a selected row included.
   */
  function SelectRows(rows: seq<MafRow>): (kept: seq<MafRow>)
    ensures forall r {:trigger r in kept} :: r in kept <==> r in rows && Selected(r)
    ensures forall r :: multiset(kept)[r] == if Selected(r) then multiset(rows)[r] else 0
    ensures Subsequence(kept, rows)
  {
    if |rows| == 0 then []
    else
      var init := rows[..|rows| - 1];
      var last := rows[|rows| - 1];
      assert rows == init + [last];
      var prev := SelectRows(init);
      SubsequenceSnoc(prev, init, last);
      assert multiset(rows) == multiset(init) + multiset{last};
      if Selected(last) then prev + [last] else prev
  }

  /** Filtering twice keeps what filtering once keeps. */
  lemma {:induction false} SelectRowsIdempotent(rows: seq<MafRow>)
    ensures SelectRows(SelectRows(rows)) == SelectRows(rows)
  {
    if |rows| > 0 {
      var init := rows[..|rows| - 1];
      var last := rows[|rows| - 1];
      SelectRowsIdempotent(init);
      var kept := SelectRows(init);
      if Selected(last) {
        assert (kept + [last])[..|kept + [last]| - 1] == kept;
      }
    }
  }

  // ---------------------------------------------------------------------
  // Nearby mutations

  /** The read length that bounds "nearby". */
  const PileupreadLength: int := 75

  /** `int(math.fabs(x))` for an integer x. */
  function Abs(x: int): nat {
    if x < 0 then -x else x
  }

  /** The two starts are less than a read length apart. */
  predicate Close(m: SomaticMutation, other: SomaticMutation) {
    Abs(other.start - m.start) < PileupreadLength
  }

  /**
   * The mutations near `m`, as intended: every mutation different from `m`
   * whose start is less than a read length away, in input order.
   */
  function Nearby(m: SomaticMutation, mutations: seq<SomaticMutation>): (nearby: seq<SomaticMutation>)
    ensures forall x {:trigger x in nearby} :: x in nearby <==> x in mutations && x != m && Close(m, x)
    ensures m !in nearby
  {
    if |mutations| == 0 then []
    else
      var init := mutations[..|mutations| - 1];
      var last := mutations[|mutations| - 1];
      assert mutations == init + [last];
      var prev := Nearby(m, init);
      if last != m && Close(m, last) then prev + [last] else prev
  }

  /** The nearby mutations keep their input order. */
  lemma {:induction false} NearbyIsSubsequence(m: SomaticMutation, mutations: seq<SomaticMutation>)
    ensures Subsequence(Nearby(m, mutations), mutations)
  {
    if |mutations| > 0 {
      var init := mutations[..|mutations| - 1];
      var last := mutations[|mutations| - 1];
      assert mutations == init + [last];
      NearbyIsSubsequence(m, init);
      SubsequenceSnoc(Nearby(m, init), init, last);
    }
  }

  /**
   * `_retrieve_nearby_somatic_mutations` as written, over the first `n`
   * entries: under Python 2 a class with `__eq__` but no `__ne__` compares
   * with `!=` by identity, so only the query's own entry (index `query`) is
   * excluded, not other entries equal to it.
   */
  function NearbyAsWritten(query: nat, mutations: seq<SomaticMutation>, n: nat): (nearby: seq<SomaticMutation>)
    requires query < |mutations| && n <= |mutations|
    ensures |nearby| <= n
    ensures forall x {:trigger x in nearby} :: x in nearby <==>
      exists j :: 0 <= j < n && j != query && mutations[j] == x && Close(mutations[query], x)
  {
    if n == 0 then []
    else
      var prev := NearbyAsWritten(query, mutations, n - 1);
      var last := mutations[n - 1];
      var nearby := prev + (if n - 1 != query && Close(mutations[query], last) then [last] else []);
      assert forall x {:trigger x in nearby} :: x in nearby <==>
        x in prev || (n - 1 != query && Close(mutations[query], last) && x == last);
      nearby
  }

  /** The as-written nearby mutations keep their input order too. */
  lemma {:induction false} NearbyAsWrittenIsSubsequence(query: nat, mutations: seq<SomaticMutation>, n: nat)
    requires query < |mutations| && n <= |mutations|
    ensures Subsequence(NearbyAsWritten(query, mutations, n), mutations[..n])
  {
    if n > 0 {
      NearbyAsWrittenIsSubsequence(query, mutations, n - 1);
      assert mutations[..n] == mutations[..n - 1] + [mutations[n - 1]];
      var prev := NearbyAsWritten(query, mutations, n - 1);
      SubsequenceSnoc(prev, mutations[..n - 1], mutations[n - 1]);
      if n - 1 != query && Close(mutations[query], mutations[n - 1]) {
        assert NearbyAsWritten(query, mutations, n) == prev + [mutations[n - 1]];
      } else {
        assert NearbyAsWritten(query, mutations, n) == prev;
        assert mutations[..n][..n - 1] == mutations[..n - 1];
      }
    }
  }

  /** The loop of `_retrieve_nearby_somatic_mutations`, the query given by its index. */
  method RetrieveNearbySomaticMutations(query: nat, mutations: seq<SomaticMutation>) returns (nearby: seq<SomaticMutation>)
    requires query < |mutations|
    ensures nearby == NearbyAsWritten(query, mutations, |mutations|)
  {
    nearby := [];
    var index := 0;
    while index < |mutations|
      invariant 0 <= index <= |mutations|
      invariant nearby == NearbyAsWritten(query, mutations, index)
    {
      if index != query && Abs(mutations[index].start - mutations[query].start) < PileupreadLength {
        nearby := nearby + [mutations[index]];
      }
      index := index + 1;
    }
  }

  /**
   * The two versions agree whenever no other entry equals the query's:
   * identity and equality then exclude the same entries.
   */
  lemma {:induction false} NearbyAsWrittenAgrees(query: nat, mutations: seq<SomaticMutation>, n: nat)
    requires query < |mutations| && n <= |mutations|
    requires forall j :: 0 <= j < |mutations| && j != query ==> mutations[j] != mutations[query]
    ensures NearbyAsWritten(query, mutations, n) == Nearby(mutations[query], mutations[..n])
  {
    if n > 0 {
      var m := mutations[query];
      var last := mutations[n - 1];
      var prefix := mutations[..n];
      NearbyAsWrittenAgrees(query, mutations, n - 1);
      assert prefix[..n - 1] == mutations[..n - 1];
      assert prefix[n - 1] == last;
      var prev := Nearby(m, mutations[..n - 1]);
      var written := NearbyAsWritten(query, mutations, n - 1);
      assert written == prev;
      if n - 1 != query && Close(m, last) {
        assert last != m;
        assert NearbyAsWritten(query, mutations, n) == written + [last];
        assert Nearby(m, prefix) == prev + [last];
      } else {
        assert n - 1 == query ==> last == m;
        assert NearbyAsWritten(query, mutations, n) == written + [];
        assert Nearby(m, prefix) == prev;
      }
    }
  }

  /**
   * A MAF that lists the same mutation twice: as written, each copy finds
   * the other as a nearby mutation, which then marks the mutation's own
   * column in the somatic mask; as intended, neither copy has a nearby
   * mutation.
   */
  lemma DuplicateRowIsNearbyItself(m: SomaticMutation)
    ensures NearbyAsWritten(0, [m, m], 2) == [m]
    ensures Nearby(m, [m, m]) == []
  {
    assert NearbyAsWritten(0, [m, m], 1) == [];
    assert Close(m, m);
    assert [m, m][..1] == [m] && [m][..0] == [];
    assert Nearby(m, [m]) == [];
  }

  // ---------------------------------------------------------------------
  // Emission of output rows

  /** The output row's labels: the mutation's five fields, then the control's and the case's table fields. */
  const RowLabels: seq<string> := SeriesLabels + Decorate(FieldNames, "control_", "") + Decorate(FieldNames, "case_", "")

  /** `pandas.concat` of the mutation's, the control's and the case's series. */
  function RowSeries(m: SomaticMutation, control: Table, caseSide: Table): (row: Series)
    ensures row.WellFormed() && row.labels == RowLabels
  {
    var ms := AsSeries(m);
    var cs := SampleSeries(control, "control_");
    var ks := SampleSeries(caseSide, "case_");
    Series(ms.labels + cs.labels + ks.labels, ms.data + cs.data + ks.data)
  }

  /**
   * What the driver has for one mutation: the intersected mask, and the
   * case and control tables of the first pileup column (None when the
   * pileup yields no column).
   */
  datatype MutationEvidence = MutationEvidence(
    mutation: SomaticMutation,
    mask: OMap<string, bool>,
    caseTable: Option<Table>,
    controlTable: Option<Table>)

  /** The output columns so far: one list of values per label. */
  type Features = OMap<string, seq<Cell>>

  /**
   * The labels' loop: on an empty record each label gets a new one-value
   * list, otherwise each label's list is extended by its value.
   */
  function RecordOver(features: Features, labels: seq<string>, data: seq<Cell>, firstRow: bool): (r: Features)
    requires |labels| == |data|
    requires !firstRow ==> forall l :: l in labels ==> l in features.values
    ensures forall k :: k in features.values ==> k in r.values
  {
    if |labels| == 0 then features
    else
      var n := |labels| - 1;
      PrefixMembers(labels, n);
      var prev := RecordOver(features, labels[..n], data[..n], firstRow);
      prev.Put(labels[n], if firstRow then [data[n]] else prev.values[labels[n]] + [data[n]])
  }

  /** Either the record is empty, or every label already has a list. */
  predicate Recordable(features: Features, labels: seq<string>) {
    |features.values| == 0 || forall l :: l in labels ==> l in features.values
  }

  /** One sample's table series, under `prefix` (`control_` or `case_`). */
  function SampleSeries(t: Table, prefix: string): (s: Series)
    ensures s.WellFormed() && |s.labels| == |FieldNames|
  {
    TableAsSeries(t, Some(prefix), None)
  }

  /**
   * The row a mutation contributes, if any: none when the intersected mask
   * is empty; otherwise one when both the case and the control series
   * exist and neither is empty.
   */
  function EmitSpec(features: Features, e: MutationEvidence): Features
    requires Recordable(features, RowLabels)
  {
    if |e.mask.values| == 0 then features
    else if e.caseTable.None? || e.controlTable.None? then features
    else if |SampleSeries(e.caseTable.value, "case_").labels| == 0 || |SampleSeries(e.controlTable.value, "control_").labels| == 0 then features
    else
      var row := RowSeries(e.mutation, e.controlTable.value, e.caseTable.value);
      RecordOver(features, row.labels, row.data, |features.values| == 0)
  }

  /** A mutation contributes a row exactly when its mask is non-empty and both tables exist. */
  predicate Emits(e: MutationEvidence) {
    |e.mask.values| != 0 && e.caseTable.Some? && e.controlTable.Some?
  }

  /** Every label list has `n` values; an empty record has seen no row. */
  ghost predicate Rectangular(features: Features, n: nat) {
    RectangularOver(features, n, RowLabels)
  }

  /** `n` rows recorded under `labels`: every column holds `n` cells, and the columns are `labels` once there are rows. */
  ghost predicate RectangularOver(features: Features, n: nat, labels: seq<string>) {
    && features.Valid()
    && (forall k :: k in features.values ==> |features.values[k]| == n)
    && (|features.values| == 0 <==> n == 0)
    && (n > 0 ==> features.keys == labels)
  }

  /** Prefixing distinct names keeps them distinct. */
  lemma DecorateDistinct(names: seq<string>, prefix: string)
    requires Distinct(names)
    ensures Distinct(Decorate(names, prefix, ""))
  {
    var d := Decorate(names, prefix, "");
    forall i, j | 0 <= i < j < |names|
      ensures d[i] != d[j]
    {
      if d[i] == d[j] {
        PrefixCancels(prefix, names[i], names[j]);
      }
    }
  }

  /** Every prefixed name starts with the prefix. */
  lemma DecorateStartsWith(names: seq<string>, prefix: string, i: nat)
    requires i < |names|
    ensures |Decorate(names, prefix, "")[i]| >= |prefix|
    ensures Decorate(names, prefix, "")[i][..|prefix|] == prefix
  {
    assert Decorate(names, prefix, "")[i] == prefix + names[i] + "";
  }

  /** No control label is a case label: they differ in their second character. */
  lemma ControlAndCaseLabelsDiffer(names: seq<string>)
    ensures forall i, j :: 0 <= i < |names| && 0 <= j < |names| ==>
      Decorate(names, "control_", "")[i] != Decorate(names, "case_", "")[j]
  {
    forall i, j | 0 <= i < |names| && 0 <= j < |names|
      ensures Decorate(names, "control_", "")[i] != Decorate(names, "case_", "")[j]
    {
      DecorateStartsWith(names, "control_", i);
      DecorateStartsWith(names, "case_", j);
      var x := Decorate(names, "control_", "")[i];
      var y := Decorate(names, "case_", "")[j];
      assert x[..8][1] == 'o' && y[..5][1] == 'a';
    }
  }

  /**
   * Mutation labels followed by control- and case-prefixed table labels are
   * pairwise different when each group is and no mutation label starts with
   * a lower-case `c`.
   */
  lemma PrefixedLabelsDistinct(mutationLabels: seq<string>, names: seq<string>)
    requires Distinct(mutationLabels) && Distinct(names)
    requires forall i :: 0 <= i < |mutationLabels| ==> |mutationLabels[i]| > 0 && mutationLabels[i][0] != 'c'
    ensures Distinct(mutationLabels + Decorate(names, "control_", "") + Decorate(names, "case_", ""))
  {
    var c := Decorate(names, "control_", "");
    var k := Decorate(names, "case_", "");
    DecorateDistinct(names, "control_");
    DecorateDistinct(names, "case_");
    ControlAndCaseLabelsDiffer(names);
    DistinctConcat(c, k);
    var ck := c + k;
    forall i, j | 0 <= i < |mutationLabels| && 0 <= j < |ck|
      ensures mutationLabels[i] != ck[j]
    {
      if j < |c| {
        DecorateStartsWith(names, "control_", j);
        assert ck[j] == c[j] && c[j][..8][0] == 'c';
      } else {
        DecorateStartsWith(names, "case_", j - |c|);
        assert ck[j] == k[j - |c|] && k[j - |c|][..5][0] == 'c';
      }
    }
    DistinctConcat(mutationLabels, ck);
    assert mutationLabels + c + k == mutationLabels + ck;
  }

  /** The output labels are pairwise different. */
  lemma RowLabelsDistinct()
    ensures Distinct(RowLabels)
  {
    assert Distinct(FieldNames);
    assert Distinct(SeriesLabels);
    assert forall i :: 0 <= i < |SeriesLabels| ==> |SeriesLabels[i]| > 0 && SeriesLabels[i][0] != 'c';
    PrefixedLabelsDistinct(SeriesLabels, FieldNames);
  }

  /** A common prefix can be cancelled. */
  lemma PrefixCancels(prefix: string, a: string, b: string)
    requires prefix + a + "" == prefix + b + ""
    ensures a == b
  {
    assert a == (prefix + a + "")[|prefix|..];
    assert b == (prefix + b + "")[|prefix|..];
  }

  /** The keys and sizes after recording distinct labels. */
  lemma RecordOverKeys(features: Features, labels: seq<string>, data: seq<Cell>, firstRow: bool)
    requires |labels| == |data| && Distinct(labels) && features.Valid()
    requires firstRow ==> features.values == map[]
    requires !firstRow ==> forall l :: l in labels ==> l in features.values
    ensures RecordOver(features, labels, data, firstRow).Valid()
    ensures RecordOver(features, labels, data, firstRow).keys == if firstRow then labels else features.keys
    ensures forall k :: k in RecordOver(features, labels, data, firstRow).values <==> k in features.values || k in labels
  {
    if firstRow {
      SizeIsCardinality(features);
      RecordOverFirstKeys(features, labels, data);
    } else {
      RecordOverAppendKeys(features, labels, data);
    }
  }

  /** On the first row, the labels become the keys, in order. */
  lemma {:induction false} RecordOverFirstKeys(features: Features, labels: seq<string>, data: seq<Cell>)
    requires |labels| == |data| && Distinct(labels) && features.keys == [] && features.values == map[]
    ensures RecordOver(features, labels, data, true).Valid()
    ensures RecordOver(features, labels, data, true).keys == labels
  {
    if |labels| > 0 {
      var n := |labels| - 1;
      DistinctPrefix(labels, n);
      LastNotInPrefix(labels);
      RecordOverFirstKeys(features, labels[..n], data[..n]);
      var prev := RecordOver(features, labels[..n], data[..n], true);
      assert labels[n] !in prev.values;
      assert labels[..n] + [labels[n]] == labels;
    }
  }

  /** On a later row, the keys stay as they are. */
  lemma {:induction false} RecordOverAppendKeys(features: Features, labels: seq<string>, data: seq<Cell>)
    requires |labels| == |data| && features.Valid()
    requires forall l :: l in labels ==> l in features.values
    ensures RecordOver(features, labels, data, false).Valid()
    ensures RecordOver(features, labels, data, false).keys == features.keys
    ensures RecordOver(features, labels, data, false).values.Keys == features.values.Keys
  {
    if |labels| > 0 {
      var n := |labels| - 1;
      PrefixMembers(labels, n);
      RecordOverAppendKeys(features, labels[..n], data[..n]);
      assert labels[n] in features.values;
    }
  }

  /** Keys outside the labels keep their lists. */
  lemma {:induction false} RecordOverUntouched(features: Features, labels: seq<string>, data: seq<Cell>, firstRow: bool, k: string)
    requires |labels| == |data| && k !in labels && k in features.values
    requires !firstRow ==> forall l :: l in labels ==> l in features.values
    ensures RecordOver(features, labels, data, firstRow).values[k] == features.values[k]
  {
    if |labels| > 0 {
      var n := |labels| - 1;
      PrefixMembers(labels, n);
      RecordOverUntouched(features, labels[..n], data[..n], firstRow, k);
      assert k != labels[n];
    }
  }

  /** After recording, label i's list is its old list (empty on the first row) extended by value i. */
  lemma {:induction false} RecordOverValue(features: Features, labels: seq<string>, data: seq<Cell>, firstRow: bool, i: nat)
    requires |labels| == |data| && Distinct(labels) && i < |labels|
    requires !firstRow ==> forall l :: l in labels ==> l in features.values
    ensures labels[i] in RecordOver(features, labels, data, firstRow).values
    ensures RecordOver(features, labels, data, firstRow).values[labels[i]] ==
      (if firstRow then [] else features.values[labels[i]]) + [data[i]]
  {
    var n := |labels| - 1;
    PrefixMembers(labels, n);
    var prev := RecordOver(features, labels[..n], data[..n], firstRow);
    if i < n {
      DistinctPrefix(labels, n);
      RecordOverValue(features, labels[..n], data[..n], firstRow, i);
      assert labels[..n][i] == labels[i] && data[..n][i] == data[i];
      assert labels[i] != labels[n];
    } else if !firstRow {
      LastNotInPrefix(labels);
      RecordOverUntouched(features, labels[..n], data[..n], firstRow, labels[n]);
    }
  }

  /** Recording one row keeps the columns equally long and one longer. */
  lemma RecordKeepsRectangular(features: Features, n: nat, row: Series)
    requires Rectangular(features, n)
    requires row.WellFormed() && row.labels == RowLabels
    ensures Recordable(features, RowLabels)
    ensures Rectangular(RecordOver(features, row.labels, row.data, |features.values| == 0), n + 1)
  {
    RowLabelsDistinct();
    RecordKeepsRectangularOver(features, n, row.labels, row.data);
  }

  /** `RecordKeepsRectangular` for any non-empty list of distinct labels. */
  lemma RecordKeepsRectangularOver(features: Features, n: nat, labels: seq<string>, data: seq<Cell>)
    requires RectangularOver(features, n, labels)
    requires |labels| == |data| && |labels| > 0 && Distinct(labels)
    ensures Recordable(features, labels)
    ensures RectangularOver(RecordOver(features, labels, data, |features.values| == 0), n + 1, labels)
  {
    var firstRow := |features.values| == 0;
    if firstRow {
      assert features.values == map[];
    } else {
      assert n > 0 && features.keys == labels;
      assert forall l :: l in labels ==> l in features.values;
    }
    RecordOverKeys(features, labels, data, firstRow);
    RecordLengths(features, n, labels, data, firstRow);
    var r := RecordOver(features, labels, data, firstRow);
    assert labels[0] in r.values;
  }

  /** Every recorded column is one cell longer than the `n` it held before. */
  lemma RecordLengths(features: Features, n: nat, labels: seq<string>, data: seq<Cell>, firstRow: bool)
    requires |labels| == |data| && Distinct(labels)
    requires firstRow ==> features.values == map[]
    requires !firstRow ==> forall l :: l in labels ==> l in features.values
    requires forall k :: k in features.values ==> |features.values[k]| == n
    requires forall k :: k in RecordOver(features, labels, data, firstRow).values ==> k in labels
    ensures forall k :: k in RecordOver(features, labels, data, firstRow).values ==>
      |RecordOver(features, labels, data, firstRow).values[k]| == (if firstRow then 1 else n + 1)
  {
    var r := RecordOver(features, labels, data, firstRow);
    forall k | k in r.values
      ensures |r.values[k]| == (if firstRow then 1 else n + 1)
    {
      var i :| 0 <= i < |labels| && labels[i] == k;
      RecordOverValue(features, labels, data, firstRow, i);
    }
  }

  /** The number of rows the mutations contribute. */
  function RowsOver(evidence: seq<MutationEvidence>): nat {
    if |evidence| == 0 then 0
    else RowsOver(evidence[..|evidence| - 1]) + (if Emits(evidence[|evidence| - 1]) then 1 else 0)
  }

  /** The output columns after the mutations `evidence`, starting from an empty record. */
  function FeaturesOver(evidence: seq<MutationEvidence>): (features: Features)
    ensures Rectangular(features, RowsOver(evidence))
  {
    if |evidence| == 0 then Empty()
    else
      var prev := FeaturesOver(evidence[..|evidence| - 1]);
      var e := evidence[|evidence| - 1];
      if Emits(e) then
        RecordKeepsRectangular(prev, RowsOver(evidence[..|evidence| - 1]),
                               RowSeries(e.mutation, e.controlTable.value, e.caseTable.value));
        EmitSpec(prev, e)
      else
        assert Rectangular(prev, RowsOver(evidence[..|evidence| - 1]));
        if |prev.values| == 0 then prev else
        assert prev.keys == RowLabels;
        prev
  }

  /** The labels' loop of the emission: one value appended under each label. */
  method RecordRow(features: Features, labels: seq<string>, data: seq<Cell>, firstRow: bool) returns (features': Features)
    requires |labels| == |data|
    requires !firstRow ==> forall l :: l in labels ==> l in features.values
    ensures features' == RecordOver(features, labels, data, firstRow)
  {
    features' := features;
    var i := 0;
    while i < |labels|
      invariant 0 <= i <= |labels|
      invariant features' == RecordOver(features, labels[..i], data[..i], firstRow)
    {
      assert labels[..i + 1][..i] == labels[..i];
      assert data[..i + 1][..i] == data[..i];
      assert forall l :: l in labels[..i + 1] ==> l in labels;
      var key := labels[i];
      if firstRow {
        features' := features'.Put(key, [data[i]]);
      } else {
        features' := features'.Put(key, features'.values[key] + [data[i]]);
      }
      i := i + 1;
    }
    assert labels[..i] == labels && data[..i] == data;
  }

  /** The emission gates of the per-mutation loop body (`len(mask) != 0`, both series present and non-empty). */
  method EmitMutation(features: Features, e: MutationEvidence) returns (features': Features)
    requires Recordable(features, RowLabels)
    ensures features' == EmitSpec(features, e)
  {
    features' := features;
    if |e.mask.values| != 0 {
      if e.caseTable.Some? && e.controlTable.Some? {
        var caseSeries := SampleSeries(e.caseTable.value, "case_");
        var controlSeries := SampleSeries(e.controlTable.value, "control_");
        if |caseSeries.labels| != 0 && |controlSeries.labels| != 0 {
          var row := RowSeries(e.mutation, e.controlTable.value, e.caseTable.value);
          features' := RecordRow(features, row.labels, row.data, |features.values| == 0);
        }
      }
    }
  }

  /**
   * The loop of `retrieve_mutations_features_as_dataframe` over the
   * mutations' evidence: the record ends with `RowsOver(evidence)` values
   * under every output label.
   */
  method RetrieveMutationsFeatures(evidence: seq<MutationEvidence>) returns (features: Features)
    ensures features == FeaturesOver(evidence)
    ensures Rectangular(features, RowsOver(evidence))
  {
    features := Empty();
    var index := 0;
    while index < |evidence|
      invariant 0 <= index <= |evidence|
      invariant features == FeaturesOver(evidence[..index])
    {
      assert evidence[..index + 1][..index] == evidence[..index];
      var prev := features;
      assert Rectangular(prev, RowsOver(evidence[..index]));
      features := EmitMutation(features, evidence[index]);
      index := index + 1;
    }
    assert evidence[..index] == evidence;
  }

  /** A mutation whose intersected mask is empty contributes nothing. */
  lemma EmptyMaskEmitsNothing(features: Features, e: MutationEvidence)
    requires Recordable(features, RowLabels)
    requires |e.mask.values| == 0
    ensures EmitSpec(features, e) == features
  {
  }

  /** A mutation whose case or control pileup yields no column contributes nothing. */
  lemma MissingTableEmitsNothing(features: Features, e: MutationEvidence)
    requires Recordable(features, RowLabels)
    requires e.caseTable.None? || e.controlTable.None?
    ensures EmitSpec(features, e) == features
  {
  }
}
