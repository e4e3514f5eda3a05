# FFPE artifact finder: read-evidence bookkeeping in Dafny

This project models the read-evidence bookkeeping of the FFPE artifact finder (rebc, Python 2). For each somatic mutation the finder decides which reads support the reference base and which support the alternate base. It then counts, over the unmasked columns of a window around the mutation, the reference, non-reference and soft-clipped bases those reads show. These counts become the integer cells of an artifact contingency table. The tables of the case and control samples are emitted as one output row per mutation.

The model works on plain values instead of alignment-library records:

- an aligned segment is its query name, CIGAR, optional NM tag, aligned pairs and aligned bases;
- a pileup read is its segment, its deletion flag, its pending indel length and its base;
- an `OrderedDict` is `OrderedMaps.OMap`, a key sequence plus a map, so insertion order can be stated.

Loops in the source are `while` loops with invariants. Each such method is proved equal to a prefix-recursive specification function. The properties the source promises are then proved about that function as lemmas.

Modules, one per core file plus three shared ones:

| module | source file |
|---|---|
| `ArtifactAnalysisTables` | ArtifactAnalysisTable.py (`create`) |
| `TableCells` | the integer cells, renderings and series of ArtifactAnalysisTable.py and ArtifactContingencyTableAnalysis.py; the two constructors are identical |
| `ArtifactAnalysisTableUtils` | ArtifactAnalysisTableUtils.py |
| `ArtifactContingencyTableAnalyses` | ArtifactContingencyTableAnalysis.py |
| `ArtifactContingencyTableAnalysisUtils` | ArtifactContingencyTableAnalysisUtils.py |
| `PileupColumnKnapsacks` | PileupColumnKnapsack.py |
| `PileupColumnMasks` | PileupColumnMask.py |
| `PileupColumnUtils` | PileupColumnUtils.py; BasePairUtils.py has identical copies of its two functions |
| `BasePairUtils` | BasePairUtils.py (soft-clip region, deletion test) |
| `BasePairMasks` | BasePairMask.py |
| `SomaticMutations` | SomaticMutation.py |
| `FFPEArtifactFinder` | FFPEAritfactFinder.py (row filter, nearby mutations, emission) |
| `Seqs`, `OrderedMaps`, `Alignments`, `Series`, `Wrappers` | shared sequence facts, ordered dicts, read records, labelled rows, Option |

Three behaviours of the code are easy to misread and are modelled as written:

- The output row's `Start_position` is the 0-based start that `SomaticMutation.create` stores, not the MAF row's 1-based value (`SomaticMutations.SeriesOfCreate`).
- A column whose reference base comes back empty is left out of the reference map (ArtifactAnalysisTableUtils.py:68). Its reads stay in the index, and the counters then look the column up and fail with a `KeyError` (ArtifactAnalysisTableUtils.py:78, 93). So such a column is not skipped. `ArtifactAnalysisTables.Create` requires every unmasked column to have a reference base.
- A mutation is skipped only when the intersected mask has no entries at all (FFPEAritfactFinder.py:139). A mask whose every entry is masked still produces a row.

## Model

| member | source | states |
|---|---|---|
| ArtifactAnalysisTables.AddName | ArtifactAnalysisTable.py:187-192 | Appending a name not yet classified to one side and to the combined list keeps the two sides duplicate-free and disjoint, with the combined list their interleaving. |
| ArtifactAnalysisTables.Step | ArtifactAnalysisTable.py:162-194 | One pass of the loop body; its behaviour is stated case by case by `QualityFailureChangesNothing`, `RepeatCountsOverlap`, `FirstClassificationWins`, `NewNameIsAdded` and `UnclassifiedChangesNothing`, and its invariant by `StepConsistent`. |
| ArtifactAnalysisTables.StepConsistent | ArtifactAnalysisTable.py:162-194 | One pass of the partitioning loop body preserves the invariant: both lists duplicate-free and disjoint, the combined list exactly their interleaving in read order, overlap counters non-negative. |
| ArtifactAnalysisTables.PartitionConsistent | ArtifactAnalysisTable.py:162-194 | After any sequence of reads the ref-supporting and alt-supporting lists are disjoint and duplicate-free, and the combined list has length \|ref\| + \|alt\| and holds each side in its order. |
| ArtifactAnalysisTables.QualityFailureChangesNothing | ArtifactAnalysisTable.py:165-166 | A read failing the quality gate leaves every list and counter unchanged. |
| ArtifactAnalysisTables.RepeatCountsOverlap | ArtifactAnalysisTable.py:174-181 | A mate repeating its name's ref (alt) classification raises exactly the ref (alt) overlap count by one and adds no name. |
| ArtifactAnalysisTables.FirstClassificationWins | ArtifactAnalysisTable.py:182-186 | A mate whose allele disagrees with its name's earlier classification changes nothing. |
| ArtifactAnalysisTables.UnclassifiedChangesNothing | ArtifactAnalysisTable.py:193-194 | Indel reads, and reads supporting neither or both alleles, change nothing. |
| ArtifactAnalysisTables.NewNameIsAdded | ArtifactAnalysisTable.py:187-192 | A passing read with a new name is appended to its side's list and to the combined list. |
| ArtifactAnalysisTables.CreateSpec | ArtifactAnalysisTable.py:153-232 | The table `create` returns, over the partition and the window; `Create` is proved equal to it, and `RowsCountEveryClassifiedRead` states what its cells add up to. |
| ArtifactAnalysisTables.Create | ArtifactAnalysisTable.py:153-232 | The table is the partition of the column's reads followed by the six windowed counts (binarized) for each side plus the two overlap counts; its soft-clip cells are augmented and the overlap counts non-negative. |
| ArtifactAnalysisTables.RowsCountEveryClassifiedRead | ArtifactAnalysisTable.py:201-223 | Because the sides are disjoint, alt-ref plus ref-ref is the reference count over all classified names, and likewise for the non-reference cells. |
| ArtifactAnalysisTableUtils.AlleleTests | ArtifactAnalysisTableUtils.py:13-25 | A pending deletion alone is no indel; indel reads support neither allele; without indel a read supports an allele iff its base is that allele; with ref ≠ alt no read supports both. |
| ArtifactAnalysisTableUtils.HasIndel | ArtifactAnalysisTableUtils.py:13-14 | `pileupread_has_indel`; stated by `AlleleTests`: a pending deletion alone is no indel, and an indel read supports neither allele. |
| ArtifactAnalysisTableUtils.HasAltAllele | ArtifactAnalysisTableUtils.py:17-19 | `~has_indel & (base == alt)` with `~` on a bool acting as logical not (`~True & True` is 0); stated by `AlleleTests`. |
| ArtifactAnalysisTableUtils.HasRefAllele | ArtifactAnalysisTableUtils.py:22-25 | The same test against the reference allele; stated by `AlleleTests` and `PendingDeletionCountsBoth`. |
| ArtifactAnalysisTableUtils.NonRefLength | ArtifactAnalysisTableUtils.py:28-47 | The non-reference length is 0 inside a deletion, and 0 exactly when the read is in a deletion or has no pending indel and matches the reference. |
| ArtifactAnalysisTableUtils.BinarizedNonRefAtMost | ArtifactAnalysisTableUtils.py:30-43 | Binarized length is at most the full length and at most 2. |
| ArtifactAnalysisTableUtils.PlainReadRefOrNonRef | ArtifactAnalysisTableUtils.py:44-46 | A read with no indel counts as exactly one of reference-supporting or non-reference. |
| ArtifactAnalysisTableUtils.PendingDeletionCountsBoth | ArtifactAnalysisTableUtils.py:37-43 | A reference-matching read with a pending deletion supports the reference and still has non-reference length 1 (binarized) or \|indel\|. |
| ArtifactAnalysisTableUtils.RetrieveSoftClippedLength | ArtifactAnalysisTableUtils.py:102-110 | The loop returns the soft-clip length of the read's CIGAR: one per op-code-4 operation when binarized, their total length otherwise. |
| ArtifactAnalysisTableUtils.BinarizedSoftClipZeroIff | ArtifactAnalysisTableUtils.py:102-110 | The binarized soft-clip length is 0 iff the CIGAR has no soft-clip operation. |
| ArtifactAnalysisTableUtils.BinarizedSoftClipAtMost | ArtifactAnalysisTableUtils.py:102-110 | With non-empty operations, counting soft clips gives no more than summing their lengths. |
| ArtifactAnalysisTableUtils.SoftClippedLengthAppend | ArtifactAnalysisTableUtils.py:104-109 | The soft-clip length is additive over concatenated CIGARs. |
| ArtifactAnalysisTableUtils.SoftClipOpWithinTotal | ArtifactAnalysisTableUtils.py:104-109 | Each soft-clip operation's length is at most the total soft-clip length. |
| ArtifactAnalysisTableUtils.RegionWithinSoftClips | BasePairUtils.py:26-33 | The soft-clipped region length reported for a read never exceeds its total soft-clip length. |
| ArtifactAnalysisTableUtils.Unmasked | ArtifactAnalysisTableUtils.py:53-54 | A column is selected iff the mask holds it with value False. |
| ArtifactAnalysisTableUtils.FoundReadsAreFilteredNames | ArtifactAnalysisTableUtils.py:56-60 | A column's list holds, in name order, exactly the reads of the names present at that column; absent names are skipped. |
| ArtifactAnalysisTableUtils.IndexedOverShape | ArtifactAnalysisTableUtils.py:50-61 | Over distinct columns, the index's keys are the unmasked columns in their order, each holding its found reads. |
| ArtifactAnalysisTableUtils.RetrieveIndexedPileupreads | ArtifactAnalysisTableUtils.py:50-61 | The keys are exactly the knapsack columns the mask holds as False, in knapsack order, each mapped to the reads found there in name order. |
| ArtifactAnalysisTableUtils.WithRefAllele | ArtifactAnalysisTableUtils.py:67-69 | A column is kept iff it is in the knapsack and its fetched reference is non-empty. |
| ArtifactAnalysisTableUtils.RefAllelesOverShape | ArtifactAnalysisTableUtils.py:64-70 | Over distinct columns, the reference map keeps the columns with a non-empty reference, in order, each mapped to that reference. |
| ArtifactAnalysisTableUtils.RetrieveRefAlleles | ArtifactAnalysisTableUtils.py:64-70 | The map has the knapsack columns with non-empty reference, in knapsack order, each mapped to its reference. |
| ArtifactAnalysisTableUtils.SumOverColumn | ArtifactAnalysisTableUtils.py:80-83 | The inner loop sums the measure over the column's reads whose name is selected. |
| ArtifactAnalysisTableUtils.SumOverWindow | ArtifactAnalysisTableUtils.py:77-83 | The outer loop sums the column sums over the index's columns in order. |
| ArtifactAnalysisTableUtils.RetrieveRefBpCount | ArtifactAnalysisTableUtils.py:73-84 | The count is the number of (column, read) pairs whose read is selected and shows the column's reference allele. |
| ArtifactAnalysisTableUtils.RetrieveNonRefBpCount | ArtifactAnalysisTableUtils.py:87-99 | The count is the sum of the selected reads' non-reference lengths over the index. |
| ArtifactAnalysisTableUtils.RetrieveSoftClippedBpCount | ArtifactAnalysisTableUtils.py:113-123 | The count is the sum of the selected reads' soft-clip lengths over the index. |
| ArtifactAnalysisTableUtils.NoNamesCountNothing | ArtifactAnalysisTableUtils.py:73-76 | A None or empty name collection gives 0 for every measure. |
| ArtifactAnalysisTableUtils.WindowSumSplit | ArtifactAnalysisTableUtils.py:77-83 | Counting over two disjoint name sets at once gives the sum of the two counts. |
| ArtifactAnalysisTableUtils.WindowBinarizedNonRefAtMost | ArtifactAnalysisTableUtils.py:87-99 | The binarized non-reference count never exceeds the full-length one. |
| ArtifactAnalysisTableUtils.WindowRefPlusNonRef | ArtifactAnalysisTableUtils.py:73-99 | With no indels in the window, reference plus non-reference count is the number of selected (column, read) pairs. |
| ArtifactContingencyTableAnalyses.FieldsAsSeries | ArtifactContingencyTableAnalysis.py:153-183 | The twenty fields, in order, each under `prefix + name`. |
| ArtifactContingencyTableAnalyses.DraftStepCases | ArtifactContingencyTableAnalysis.py:227-243 | One read: a repeated name raises the reference overlap count if reference-only, the alternate one if alternate-only, and adds no reference bases; a new name is remembered, leaves both overlap counts alone, and adds its reference bases only if reference-only. |
| ArtifactContingencyTableAnalyses.OverlapsCountRepeats | ArtifactContingencyTableAnalysis.py:215-243 | Over the column, each overlap count equals the number of reads that carry an earlier read's name and support only that side. |
| ArtifactContingencyTableAnalyses.DraftOver | ArtifactContingencyTableAnalysis.py:217-243 | The names the loop remembers are exactly the names of the reads it has passed. |
| ArtifactContingencyTableAnalyses.DraftOverCounts | ArtifactContingencyTableAnalysis.py:217-236 | Each read brings a new name or counts at most one overlap: the names plus the overlaps never exceed the number of reads. |
| ArtifactContingencyTableAnalyses.DistinctNamesNoOverlaps | ArtifactContingencyTableAnalysis.py:227-234 | With pairwise different read names neither overlap count rises. |
| ArtifactContingencyTableAnalyses.RepeatedNameAddsNoBases | ArtifactContingencyTableAnalysis.py:227-243 | A read whose name was already seen adds no reference bases and no name, whatever its pairs; no countability is asked of it. |
| ArtifactContingencyTableAnalyses.CreateSpec | ArtifactContingencyTableAnalysis.py:196-271 | Alt-non-ref, alt-ref, ref-non-ref and both soft-clip counts are 0, the cells are augmented, and if the first column is not at `start` everything is 0. |
| ArtifactContingencyTableAnalyses.OnlyFirstColumnCounts | ArtifactContingencyTableAnalysis.py:213-262 | Columns after the first never change the table. |
| ArtifactContingencyTableAnalyses.ClassifyRead | ArtifactContingencyTableAnalysis.py:217-243 | The loop body performs one step of the dedup pass. |
| ArtifactContingencyTableAnalyses.ClassifyReads | ArtifactContingencyTableAnalysis.py:217-243 | The loop over the first column's reads returns the dedup pass's reference count and overlap counts; only the first read of each name must be countable. |
| ArtifactContingencyTableAnalyses.Create | ArtifactContingencyTableAnalysis.py:196-271 | The returned table is the specification's: the first column's dedup pass with reference bases counted for first-seen reference-only reads; each overlap count is the number of reads repeating an earlier name on that side only (`DraftStepCases` states each read's increments). |
| ArtifactContingencyTableAnalysisUtils.RetrieveSoftClippedPileupreadBpCount | ArtifactContingencyTableAnalysisUtils.py:24-36 | Without a non-empty mask, the soft-clip length (binarized or not); with one, 0. |
| ArtifactContingencyTableAnalysisUtils.IndelExcessByOps | ArtifactContingencyTableAnalysisUtils.py:52-57 | The binarizing correction is total I and D length minus the number of I and D operations. |
| ArtifactContingencyTableAnalysisUtils.AlignedLengthByOps | ArtifactContingencyTableAnalysisUtils.py:118-124 | The aligned length is the sum of the M, I and D lengths. |
| ArtifactContingencyTableAnalysisUtils.EditDistanceDecomposition | ArtifactContingencyTableAnalysisUtils.py:45-57 | When NM = mismatches + I + D: non-binarized non-ref = that; binarized = mismatches + #I + #D; reference = M − mismatches; reference + non-ref = aligned length. |
| ArtifactContingencyTableAnalysisUtils.UnmaskedNonRefCount | ArtifactContingencyTableAnalysisUtils.py:45-57 | NM (0 when missing) less (len − 1) per insertion and deletion operation when binarized. |
| ArtifactContingencyTableAnalysisUtils.UnmaskedRefCount | ArtifactContingencyTableAnalysisUtils.py:111-124 | −NM (0 when missing) plus every M, I and D length. |
| ArtifactContingencyTableAnalysisUtils.DeletionRunIntended | ArtifactContingencyTableAnalysisUtils.py:90-104 | Corrected rule: a run of k unmasked deleted bases counts 1 when binarized and k otherwise. |
| ArtifactContingencyTableAnalysisUtils.DeletionRunAsWritten | ArtifactContingencyTableAnalysisUtils.py:90-104 | As written: the same run counts k when binarized and 1 otherwise. |
| ArtifactContingencyTableAnalysisUtils.DeletionRunAfterFlag | ArtifactContingencyTableAnalysisUtils.py:90-104 | Once the deletion flag is set, or when a run's first deleted base is masked, the rest of the run counts nothing and the flag stays set, under both rules and both binarize settings. |
| ArtifactContingencyTableAnalysisUtils.InsertionRunCount | ArtifactContingencyTableAnalysisUtils.py:81-89 | A run of k inserted bases counts 0 after a masked base, else 1 binarized and k not. |
| ArtifactContingencyTableAnalysisUtils.UnknownPositionCountsNothing | ArtifactContingencyTableAnalysisUtils.py:67-104 | A position missing from the mask or the reference map leaves the count unchanged. |
| ArtifactContingencyTableAnalysisUtils.UnmaskedMatchStep | ArtifactContingencyTableAnalysisUtils.py:67-80 | An unmasked aligned base adds 1 iff the read base differs from the reference, and clears both flags. |
| ArtifactContingencyTableAnalysisUtils.NonRefStep | ArtifactContingencyTableAnalysisUtils.py:65-105 | One pair of the masked walk, under either deletion rule; stated by `UnmaskedMatchStep`, `UnknownPositionCountsNothing`, `InsertionRunCount`, `DeletionRunAsWritten`, `DeletionRunIntended` and `DeletionRunAfterFlag`, and executed by `NonRefPairStep`. |
| ArtifactContingencyTableAnalysisUtils.DeletionRulesDiffer | ArtifactContingencyTableAnalysisUtils.py:90-104 | On a two-base unmasked deletion the code as written counts 2 binarized and 1 not; the corrected rule counts 1 and 2. |
| ArtifactContingencyTableAnalysisUtils.NonRefPairStep | ArtifactContingencyTableAnalysisUtils.py:65-105 | The loop body executes one as-written step of the masked non-reference walk. |
| ArtifactContingencyTableAnalysisUtils.RetrieveNonRefPileupreadBpCount | ArtifactContingencyTableAnalysisUtils.py:42-106 | Without a non-empty mask and reference map, the unmasked NM count; with them, the as-written walk over the aligned pairs. |
| ArtifactContingencyTableAnalysisUtils.NonRefCount | ArtifactContingencyTableAnalysisUtils.py:42-106 | What `retrieve_non_ref_pileupread_bp_count` returns; `RetrieveNonRefPileupreadBpCount` is proved equal to it with the as-written rule, `UnmaskedNonRefCount` and `EditDistanceDecomposition` state its unmasked path. |
| ArtifactContingencyTableAnalysisUtils.RefPairStep | ArtifactContingencyTableAnalysisUtils.py:128-140 | One pair counts 1 iff aligned, known, unmasked and matching the reference at the pair's index. |
| ArtifactContingencyTableAnalysisUtils.RefWalkAtMostPairs | ArtifactContingencyTableAnalysisUtils.py:125-140 | The masked reference count never exceeds the number of aligned pairs. |
| ArtifactContingencyTableAnalysisUtils.RefAndNonRefSplitMatches | ArtifactContingencyTableAnalysisUtils.py:67-80 | On aligned pairs only, every unmasked known position is counted by exactly one of the reference walk and the non-reference walk. |
| ArtifactContingencyTableAnalysisUtils.RetrieveRefPileupreadBpCount | ArtifactContingencyTableAnalysisUtils.py:109-149 | Without a non-empty mask and reference map, aligned length less NM; with them, the unmasked known aligned positions whose base is the reference. |
| ArtifactContingencyTableAnalysisUtils.RefCount | ArtifactContingencyTableAnalysisUtils.py:109-149 | What `retrieve_ref_pileupread_bp_count` returns; `RetrieveRefPileupreadBpCount` is proved equal to it, `UnmaskedRefCount` states its unmasked path, and `RefWalkAtMostPairs` and `RefAndNonRefSplitMatches` its masked walk. |
| ArtifactContingencyTableAnalysisUtils.RefAllelesOutside | ArtifactContingencyTableAnalysisUtils.py:176-183 | A position outside the fetched window has no entry. |
| ArtifactContingencyTableAnalysisUtils.RefAllelesShape | ArtifactContingencyTableAnalysisUtils.py:174-183 | The map has exactly \|s\| keys, `chrom:p:p+1` for p = start − 100 + i in increasing i, each mapped to s[i]. |
| ArtifactContingencyTableAnalysisUtils.RetrieveRefAlleles | ArtifactContingencyTableAnalysisUtils.py:174-183 | The loop builds the reference map of the window that starts 100 bases before `start`. |
| BasePairMasks.MaskOverShape | BasePairMask.py:24-40 | Mask keys equal knapsack keys in the same order, every value is False, and the keys are the kept names. |
| BasePairMasks.Create | BasePairMask.py:24-40 | The loop builds the mask and the knapsack map of the specification. |
| BasePairMasks.CreatedMaskMasksNothing | BasePairMask.py:20-21 | A created mask masks none of the positions it knows; a lookup requires the name to be present. |
| BasePairMasks.IsPositionMasked | BasePairMask.py:20-21 | The stored verdict for a known name (a missing one is a `KeyError`); `CreatedMaskMasksNothing` states that a created mask answers False. |
| BasePairMasks.StartColumnSkipped | BasePairMask.py:28 | The column at the mutation's start contributes nothing. |
| BasePairUtils.SoftClippedRegionLength | BasePairUtils.py:26-33 | Corrected: the leading clip's length when the first pair lies after `position`, else the trailing clip's when the last pair lies before it, else 0, comparing a missing reference position as Python 2 does; a non-zero answer is a soft clip's length at that end. |
| BasePairUtils.SoftClippedRegionLengthAsWritten | BasePairUtils.py:26-33 | As written: the leading case as intended; otherwise, past the aligned part, the last operation's length whenever the FIRST is a soft clip; 0 when the position is inside the aligned part, and 0 for every read that does not start with a soft clip. |
| BasePairUtils.UnplacedEndsCompareAsNone | BasePairUtils.py:27-30 | A read whose first pair is a soft-clipped base never takes the leading case; one whose last pair is a soft-clipped base takes the trailing case at every position. |
| BasePairUtils.TrailingCaseChecksWrongOperation | BasePairUtils.py:30-32 | For a 3S2M read (clip pairs without reference position, then 100-101) seen at 200, the code as written returns the final match's length 2 where 0 is intended. |
| BasePairUtils.AsWrittenAgreesWhenEndsMatch | BasePairUtils.py:26-33 | As written and corrected agree whenever the first and last operations agree about being soft clips. |
| BasePairUtils.AlignedSegmentHasDel | BasePairUtils.py:41-42 | True iff `position` is not among the positions. |
| FFPEArtifactFinder.SelectRows | FFPEAritfactFinder.py:64-67 | A row is kept iff it is a SNP, has a coding classification and a valid chromosome; every copy of a selected row is kept, and the kept rows keep their order. |
| FFPEArtifactFinder.SelectRowsIdempotent | FFPEAritfactFinder.py:64-67 | Filtering twice is filtering once. |
| FFPEArtifactFinder.Nearby | FFPEAritfactFinder.py:195-201 | Corrected: a mutation is nearby iff it is in the input, differs from the query and starts less than 75 bases away; the query is never nearby. |
| FFPEArtifactFinder.NearbyIsSubsequence | FFPEAritfactFinder.py:196-201 | The nearby mutations keep the input order. |
| FFPEArtifactFinder.NearbyAsWritten | FFPEAritfactFinder.py:195-201 | As written: a mutation is in the result iff some entry other than the query's own index holds it and starts less than 75 bases from the query; at most one result per entry. |
| FFPEArtifactFinder.NearbyAsWrittenIsSubsequence | FFPEAritfactFinder.py:196-201 | The as-written result keeps the input order. |
| FFPEArtifactFinder.RetrieveNearbySomaticMutations | FFPEAritfactFinder.py:195-201 | The loop computes the as-written result. |
| FFPEArtifactFinder.NearbyAsWrittenAgrees | FFPEAritfactFinder.py:198 | When no other entry equals the query, as written and corrected agree. |
| FFPEArtifactFinder.DuplicateRowIsNearbyItself | FFPEAritfactFinder.py:198 | For a mutation listed twice, as written the copy is nearby; as intended nothing is. |
| FFPEArtifactFinder.RowSeries | FFPEAritfactFinder.py:162-163 | The row has the mutation's, the control's and the case's labels, in that order. |
| FFPEArtifactFinder.RowLabelsDistinct | FFPEAritfactFinder.py:162-163 | The output labels are pairwise different. |
| FFPEArtifactFinder.RecordOver | FFPEAritfactFinder.py:164-169 | Recording never drops an existing column. |
| FFPEArtifactFinder.RecordOverKeys | FFPEAritfactFinder.py:164-169 | The first row's labels become the keys, in order; later rows keep the keys. |
| FFPEArtifactFinder.RecordOverFirstKeys | FFPEAritfactFinder.py:164-166 | On an empty record the labels become the keys, in order. |
| FFPEArtifactFinder.RecordOverAppendKeys | FFPEAritfactFinder.py:167-169 | On later rows the key order and key set are unchanged. |
| FFPEArtifactFinder.RecordOverValue | FFPEAritfactFinder.py:164-169 | Label i's list is its old list (empty on the first row) extended by value i. |
| FFPEArtifactFinder.RecordKeepsRectangular | FFPEAritfactFinder.py:164-169 | Recording a row keeps every column equally long, one longer than before. |
| FFPEArtifactFinder.FeaturesOver | FFPEAritfactFinder.py:119-169 | After any mutations every output column holds one value per emitting mutation. |
| FFPEArtifactFinder.RecordRow | FFPEAritfactFinder.py:164-169 | The labels' loop computes the recording specification. |
| FFPEArtifactFinder.EmitMutation | FFPEAritfactFinder.py:139-169 | The per-mutation gates: an empty mask, a missing series, or an empty case or control series records nothing; otherwise the row is recorded. |
| FFPEArtifactFinder.RetrieveMutationsFeatures | FFPEAritfactFinder.py:112-185 | The loop over mutations yields columns of equal length, one value per emitting mutation. |
| FFPEArtifactFinder.EmptyMaskEmitsNothing | FFPEAritfactFinder.py:139 | An empty intersected mask contributes no row. |
| FFPEArtifactFinder.MissingTableEmitsNothing | FFPEAritfactFinder.py:160-161 | A missing case or control series contributes no row. |
| PileupColumnKnapsacks.PileupcolumnNames | PileupColumnKnapsack.py:15-17 | The names of the stored columns in insertion order; in a valid index each stored column appears exactly once. `KnapsacksOverKeys` states which names a built index holds. |
| PileupColumnKnapsacks.RetrievePileupread | PileupColumnKnapsack.py:19-26 | A read is returned iff the column is stored and has the query name; otherwise None. |
| PileupColumnKnapsacks.Create | PileupColumnKnapsack.py:29-45 | The loop builds the index of the specification, a valid ordered map. |
| PileupColumnKnapsacks.StartColumnNeverStored | PileupColumnKnapsack.py:39 | The column at the mutation's start is never stored. |
| PileupColumnKnapsacks.StoredNamesDistinct | PileupColumnKnapsack.py:37-43 | Columns with distinct positions get distinct names. |
| PileupColumnKnapsacks.KnapsacksOverKeys | PileupColumnKnapsack.py:32-43 | The stored keys are `chrom:pos:pos+1` of the columns other than the mutation's, in arrival order. |
| PileupColumnKnapsacks.KnapsacksOverValue | PileupColumnKnapsack.py:39-43 | Each stored column holds its own read knapsack. |
| PileupColumnKnapsacks.RetrieveFromCreate | PileupColumnKnapsack.py:19-26 | In a built index, a stored column returns its read with that name or None; the mutation's column always gives None. |
| PileupColumnMasks.Create | PileupColumnMask.py:17-48 | The mask is the specification's for germline, somatic and other modes, a missing nearby list counting as empty. |
| PileupColumnMasks.MaskGermline | PileupColumnMask.py:21-28 | The germline loop computes the germline mask. |
| PileupColumnMasks.MaskGermlineColumn | PileupColumnMask.py:22-28 | Setting False and then perhaps True is one assignment of the test's verdict. |
| PileupColumnMasks.MaskNearbyMutations | PileupColumnMask.py:33-37 | The somatic loop sets each nearby mutation's column to True in turn. |
| PileupColumnMasks.GermlineOverShape | PileupColumnMask.py:21-28 | Over distinct columns the germline mask has those columns in order, each True iff it passes the test. |
| PileupColumnMasks.AllFalseShape | PileupColumnMask.py:31-32 | Over distinct columns all columns appear in order, all False. |
| PileupColumnMasks.MaskNearbyShape | PileupColumnMask.py:33-37 | Earlier keys keep their place; keys gain the nearby names; exactly those are True; other values unchanged. |
| PileupColumnMasks.GermlineMask | PileupColumnMask.py:21-28 | Germline: keys are the knapsack columns in order; a column is True iff non-ref ≠ 0 and the CDF test passes. |
| PileupColumnMasks.SomaticMask | PileupColumnMask.py:18-37 | Somatic: the knapsack columns come first; keys = columns ∪ nearby names; True iff a nearby name; None acts as an empty list. |
| PileupColumnMasks.OtherMask | PileupColumnMask.py:38-40 | Other modes: exactly the knapsack columns in order, all False. |
| PileupColumnUtils.IntToStringShape | PileupColumnUtils.py:11-12 | `str(n)` is non-empty and has no colon; it starts with '-' iff n < 0; non-negative renderings are all digits. |
| PileupColumnUtils.IntToStringInjective | PileupColumnUtils.py:11-12 | Different integers render differently. |
| PileupColumnUtils.ColumnName | PileupColumnUtils.py:11-12 | `chrom:start:end`; stated by `ColumnNameParts`, `ColumnNameInjective` and `BaseNamesDistinct`. |
| PileupColumnUtils.ColumnNameParts | PileupColumnUtils.py:11-12 | A name is the chromosome, a colon and the rendered interval. |
| PileupColumnUtils.ColumnNameInjective | PileupColumnUtils.py:11-12 | On one chromosome the name determines start and end. |
| PileupColumnUtils.BaseNamesDistinct | PileupColumnUtils.py:11-12 | Single-base names of different positions differ. |
| PileupColumnUtils.IntersectOverShape | PileupColumnUtils.py:15-21 | Over distinct columns the keys are the first mask's keys found in the second, with OR-ed values. |
| PileupColumnUtils.IntersectMasks | PileupColumnUtils.py:15-21 | Keys: the first mask's keys also in the second, in the first's order; a key is present iff in both; value = OR of the two. |
| SomaticMutations.Equal | SomaticMutation.py:12-14 | Equal iff all five fields agree. |
| SomaticMutations.Create | SomaticMutation.py:37-40 | start = Start_position − 1, end unchanged, so the length is kept; other fields copied. |
| SomaticMutations.CreateEqualIff | SomaticMutation.py:12-14 | Two rows give equal mutations iff their five used columns agree. |
| SomaticMutations.AsSeries | SomaticMutation.py:42-45 | The five fields under the five fixed labels, in order. |
| SomaticMutations.SeriesOfCreate | SomaticMutation.py:37-45 | The series of a created mutation gives back the row's values, with the 0-based start. |
| SomaticMutations.AsSeriesInjective | SomaticMutation.py:42-45 | The series determines the mutation. |
| TableCells.NewTable | ArtifactAnalysisTable.py:7-42 | The eight counts are stored; soft-clip non-ref cells = raw + soft clips; soft-clip ref cells = raw ref cells. |
| TableCells.NewTableFromFields | ArtifactContingencyTableAnalysis.py:8-43 | A constructed table is determined by its eight counts. |
| TableCells.AugmentedCells | ArtifactAnalysisTable.py:35-42 | With non-negative soft clips the augmented cells are at least the raw ones, and the soft-clip total exceeds the raw total by the soft clips. |
| TableCells.Render | ArtifactAnalysisTableUtils.py:126-128 | A 2×2 layout. |
| TableCells.RenderSoftClipped | ArtifactAnalysisTableUtils.py:131-135 | A 2×2 layout. |
| TableCells.RenderSoftClippedShift | ArtifactContingencyTableAnalysis.py:185-193 | The soft-clip rendering is the plain one with each column's soft clips added to its non-ref row; the ref row is unchanged. |
| TableCells.FieldValues | ArtifactAnalysisTableUtils.py:142-167 | One value per field name. |
| TableCells.Decorate | ArtifactAnalysisTableUtils.py:169-170 | Each name becomes prefix + name + suffix, in order. |
| TableCells.TableAsSeries | ArtifactAnalysisTableUtils.py:138-170 | Field i is under prefix + name i + suffix, a missing prefix or suffix being "". |
| TableCells.LabelRoundTrip | ArtifactAnalysisTableUtils.py:169-170 | Cutting the prefix and suffix off a key gives back its field name. |

## Left out

- Floating point: the log margins with EPS and the expected counts (ArtifactAnalysisTable.py:21-33, 43-101, and the same in ArtifactContingencyTableAnalysis.py). The series carries an `Expected` placeholder for each expected-count field.
- The binomial CDF at p = 0.45 compared with 0.05 (PileupColumnMask.py:26-27) is the function parameter `cdfAbove`.
- `pileupread_passes_quality_control` (ArtifactAnalysisTable.py:165) is defined in none of these files. It is the function parameter `passesQc`.
- `retrieve_ref_allele`, `non_ref_allele_count` and `total_allele_count` of the per-column read knapsack are fields of `ReadKnapsack`. PileupReadKnapsack.py and BasePairReadKnapsack are not part of this model.
- Alignment-file and reference I/O: `pileup`, `fetch` and `get_tag`. Pileup columns and reads, the fetched reference string and the optional NM value are inputs. The model takes a missing NM tag as `None` and counts it as 0, which is what the `except ValueError` at ArtifactContingencyTableAnalysisUtils.py:48 and 116 evidently intends. The alignment library signals a missing tag with `KeyError`, which those lines do not catch, so the source would raise there; the model does not capture that uncaught exception.
- `end` in `retrieve_ref_alleles` and in the `create` methods only bounds the fetch or the pileup. The fetched data is an input, so `end` does not appear.
- The per-mutation composition in the driver (FFPEAritfactFinder.py:125-158): knapsacks, masks, intersection and tables for case and control. It supplies each mutation's inputs as `MutationEvidence`. Each piece is modelled in its own module. The call at line 126 passes the mutation object where `PileupColumnKnapsack.create` (PileupColumnKnapsack.py:29) expects chrom, start and end. That mismatch is not modelled.
- `main()` (FFPEAritfactFinder.py:33-108) is not modelled: argument parsing, MAF reading, the barcode sort after the row filter, grouping by sample and writing the output. The timing and stdout writes (FFPEAritfactFinder.py:121, 171-179) are left out too.
- Debugging prints and the `76-l` check (ArtifactContingencyTableAnalysisUtils.py:141-148) print and change no result.
- The discarded `get_reference_positions` call (ArtifactContingencyTableAnalysisUtils.py:35) has no effect on the count.
- Three stubs are not modelled: `ArtifactContingencyTableAnalysisUtils.retrieve_ref_bp_count` (always −1), `squeeze_pileupread_knapsack` and `BasePairUtils.aligned_segment_has_ins`.
- Python 2 orders `None` below every integer. The soft-clip region (BasePairUtils.py:27-30) compares the end pairs' reference positions that way, since a soft-clipped base has none. An empty list of pairs or an empty CIGAR makes the source fail on its first index, and a precondition excludes it.
- The read's base `query_sequence[query_position]` is the field `base` of a pileup read. For a read inside a deletion the source evaluates `query_sequence[None]`, because `&` does not short-circuit (ArtifactAnalysisTableUtils.py:17-25). That raises `TypeError` for every such read at the candidate column and in the window. The model instead evaluates the allele tests to False for such a read, so it supports neither allele.
- The masked walk reads `pileupread.aligned_pairs` (ArtifactContingencyTableAnalysisUtils.py:65). The model walks the alignment's aligned pairs, as the reference walk does at line 128.
- Both masked walks index `query_alignment_sequence` by the aligned pair's index, as written. `IndexableMatches` requires those indices to be in range where the source would raise `IndexError`.
- ArtifactAnalysisTables.Create: requires every unmasked knapsack column to have a non-empty reference base. Otherwise the source's lookup raises `KeyError`.
- The commented-out calls in `ArtifactContingencyTableAnalysis.create` (lines 238-261) are not executed by the source and are not modelled.
- `int(math.fabs(d))` in the nearby test is taken as the exact absolute value of the integer difference.

## Findings

| source | as written | input that shows it | evidently intended | confidence | as-written member | corrected member |
|---|---|---|---|---|---|---|
| BasePairUtils.py:30-32 | The trailing case tests whether the FIRST CIGAR operation is a soft clip, then returns the LAST operation's length | CIGAR 3S2M, the clipped bases without reference position and the aligned ones at 100-101, position 200: returns 2, the match length | Test the last operation (`cigartuples[-1][0]`), returning 0 here | high, not executed | BasePairUtils.TrailingCaseChecksWrongOperation | BasePairUtils.SoftClippedRegionLength |
| ArtifactContingencyTableAnalysisUtils.py:98-102 | A counted unmasked deleted base sets the run flag only when NOT binarizing, so binarized mode counts every deleted base and non-binarized mode counts a run once | A two-base deletion at unmasked positions 101-102: binarized count 2, non-binarized count 1 | As for insertions (lines 83-89) and the unmasked path (lines 52-57): binarized 1 per run, non-binarized 1 per base | medium, not executed | ArtifactContingencyTableAnalysisUtils.DeletionRulesDiffer | ArtifactContingencyTableAnalysisUtils.DeletionRunIntended |
| FFPEAritfactFinder.py:198 | `!=` on a class with `__eq__` but no `__ne__` compares by identity under Python 2, so only the query's own object is excluded | A MAF listing the same mutation twice: each copy finds the other as nearby, which adds the mutation's own column to the somatic mask as masked. Neither knapsack stores that column and the mask intersection drops it, so the emitted features do not change | Exclude every mutation equal to the query | medium, not executed | FFPEArtifactFinder.DuplicateRowIsNearbyItself | FFPEArtifactFinder.Nearby |
