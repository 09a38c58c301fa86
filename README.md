# GeoWET feature selection and its surrounding scripts, modelled in Dafny

GeoWET builds species distribution models for aquatic indicator species.
StreamCat catchment attribute tables are narrowed to the HUC8 basins in
which a species was observed. They are joined with the species'
presence/absence records, and the result is cut down by a
**feature-selection pipeline** into a MaxEnt *samples-with-data* (SWD)
table. Batch files then launch MaxEnt on it. The pipeline has four steps:

- a **row pruner**: `removeAbsenceNullRows` drops background rows (label 0)
  that hold the no-data sentinel `-9999`;
- a **null-column pruner**: `removePresenceNullColumns` drops every column
  whose minimum is `-9999`;
- a **univariate filter**: `removeUncorrelated` drops the columns whose
  label-correlation p-value exceeds 0.05, records the coefficients, and
  recodes the label column in place (0 as "Background", 1 as the species
  name) through the column it cached;
- a **redundancy filter**: `removeXCorrelated` builds a drop list from the
  pairwise correlations between columns.

The pipeline exists in two diverging copies:

- `AQUATIC_CreateSpeciesSWDFile.py` handles one species;
- `AQUATIC_CreateAllSpeciesSWDFiles.py` handles every species.

Both copies are modelled, because they behave differently. A third builder,
`ExtractSpeciesData.py`, shares the HUC8 and selection steps and has its own
label column and column stacking.

Around the pipeline the model covers these scripts:

- the MaxEnt batch-file writer and the batch runner, which rewrites the
  command's autorun switch and projection value;
- the two species-list joiners;
- preparing an alternate SWD table;
- the uplift column naming;
- the land-cover dictionary merge of the alternate-SWD builder;
- the CSV-to-feature-class join;
- the StreamCat join;
- the attribute-list generator.

How the model is laid out:

- **Tables.** A data frame is a `Frames.Table`: a header of column labels and
  rows of cells. A cell is an integer, a text or missing (NaN). Operations
  that pandas performs in place (`drop(..., inplace=True)`, `insert`,
  column assignment, `.loc` updates, `rename(..., inplace=True)`) are
  methods of the class `Frames.DataFrame`. Each such method states its new
  state through a function on tables.
- **Correlations.** Pearson coefficients and p-values are uninterpreted
  inputs:
  - `pearson: string -> LabelCorr(coeff, p)` for the label correlation;
  - `r: (string, string) -> real` for the pairwise correlation.

  What is proved is the selection logic: which rows and columns survive,
  in what order, and with what guarantees.
- **Dictionary order.** Python dictionary iteration order is an explicit
  input wherever the result depends on it.
- **Layout.** Each script is one module in one file. Helpers shared by the
  scripts live in `Seqs`, `Strings`, `Frames`, `Wrappers` and `SwdCommon`.

Source paths below are relative to the repository root.

## Model

| member | source | states |
|---|---|---|
| SwdCommon.CheckSpeciesName | Scripts/DataPrep/ExtractSpeciesData.py:37-49 | the run continues exactly when the species name is a column of the occurrence table, and otherwise ends with exit status 1 |
| SwdCommon.Huc8Prefix | Scripts/DataPrep/ExtractSpeciesData.py:59 | `.str[:8]` keeps a text cell as text, cut to a prefix of at most 8 characters, and turns any other cell into NaN |
| SwdCommon.PresencePrefixesMember | Scripts/DataPrep/ExtractSpeciesData.py:57-59 | a prefix is collected iff some row labelled 1 has it as its REACHCODE prefix |
| SwdCommon.GetHuc8s | Scripts/DataPrep/ExtractSpeciesData.py:51-61 | reading the HUC8 list succeeds exactly when both REACHCODE and the species column exist |
| SwdCommon.GetHuc8sSpec | Scripts/DataPrep/ExtractSpeciesData.py:51-61 | the HUC8 list is duplicate-free, holds exactly the REACHCODE prefixes of rows labelled 1, and lists them in order of first appearance |
| SwdCommon.SpatialSelect | Scripts/DataPrep/ExtractSpeciesData.py:63-71 | the selection fails exactly when HUC_12 is missing, and otherwise keeps the header and stays rectangular |
| SwdCommon.SpatialSelectSpec | Scripts/DataPrep/ExtractSpeciesData.py:63-71 | the selection keeps, in their order, exactly the rows whose HUC_12 prefix is in the global HUC8 list, NaN matching NaN as in `isin`; the `huc8List` argument makes no difference |
| SwdCommon.SpatialSelectNaN | Scripts/DataPrep/ExtractSpeciesData.py:54-71 | a catchment whose HUC_12 is not text is selected exactly when the HUC8 list holds NaN, which a presence record with a blank REACHCODE puts there |
| SwdCommon.RightJoin | Scripts/AquaticScripts/AQUATIC_CreateSpeciesSWDFile.py:90-98 | the right join fails exactly when the catchment table has no FEATUREID, and otherwise yields one row per catchment row |
| SwdCommon.RightJoinHeader | Scripts/AquaticScripts/AQUATIC_CreateSpeciesSWDFile.py:97 | the joined header is FEATUREID, the species label, then the other catchment labels, with no label repeated |
| SwdCommon.RightJoinSpec | Scripts/AquaticScripts/AQUATIC_CreateSpeciesSWDFile.py:97 | every catchment row survives: row i keeps its key and gets the label of its occurrence record, or NaN when there is none |
| SwdCommon.RightJoinColumn | Scripts/AquaticScripts/AQUATIC_CreateSpeciesSWDFile.py:97 | each other catchment column keeps its label and its value in every row |
| SwdCommon.FreshSpec | Scripts/AquaticScripts/AQUATIC_CreateAllSpeciesSWDFiles.py:236-241 | a later frame keeps only columns not yet seen, without repeats and in frame order, and afterwards every column of the frame has been seen |
| SwdCommon.FreshExtends | Scripts/AquaticScripts/AQUATIC_CreateAllSpeciesSWDFiles.py:237-240 | appending the kept columns keeps `colNames` free of repetition |
| SwdCommon.StackFromSpec | Scripts/AquaticScripts/AQUATIC_CreateAllSpeciesSWDFiles.py:231-241 | `colNames` is always the side-by-side header of the frames selected so far, and it never repeats a label |
| SwdCommon.StackSpec | Scripts/AquaticScripts/AQUATIC_CreateAllSpeciesSWDFiles.py:221-241 | given frames with distinct labels, the header of the stacked frames is duplicate-free |
| SwdCommon.FreshColumns | Scripts/AquaticScripts/AQUATIC_CreateAllSpeciesSWDFiles.py:236-240 | the inner loop yields exactly the fresh columns of the frame, and `colNames` extended by them |
| SwdCommon.StackColumns | Scripts/AquaticScripts/AQUATIC_CreateAllSpeciesSWDFiles.py:221-241 | the stacking loop yields the column bookkeeping whose properties `StackSpec` proves; names not ending in `.csv` are skipped |
| SwdCommon.KeepRows | Scripts/AquaticScripts/AQUATIC_CreateSpeciesSWDFile.py:104 | a boolean row mask never adds rows |
| SwdCommon.KeepRowsSpec | Scripts/AquaticScripts/AQUATIC_CreateSpeciesSWDFile.py:104 | a row survives iff it was there and no pruning column makes it a background row holding the sentinel; survivors keep their order |
| SwdCommon.KeepRowsCompose | Scripts/AquaticScripts/AQUATIC_CreateSpeciesSWDFile.py:103-104 | filtering an already filtered frame prunes by the union of the columns |
| SwdCommon.KeepRowsIdempotent | Scripts/AquaticScripts/AQUATIC_CreateSpeciesSWDFile.py:103-104 | pruning twice by the same columns removes nothing more |
| SwdCommon.PruneInOrderSpec | Scripts/AquaticScripts/AQUATIC_CreateSpeciesSWDFile.py:103-104 | pruning column after column depends only on the set of columns visited, not on their order |
| SwdCommon.KeepRowsNonBackground | Scripts/AquaticScripts/AQUATIC_CreateSpeciesSWDFile.py:104 | rows whose label is not 0 (presence rows, or rows with a missing label) are never pruned |
| SwdCommon.MinNum | Scripts/AquaticScripts/AQUATIC_CreateAllSpeciesSWDFiles.py:120 | `Series.min()` is the least number in the column and belongs to it, and is absent iff the column holds no number |
| SwdCommon.NullColumnIff | Scripts/AquaticScripts/AQUATIC_CreateAllSpeciesSWDFiles.py:120 | a column is a null column iff it holds the sentinel and no smaller number |
| SwdCommon.RemovePresenceNullColumns | Scripts/AquaticScripts/AQUATIC_CreateAllSpeciesSWDFiles.py:116-125 | the frame loses, in place, exactly the null columns of the snapshot of its labels, and keeps all its rows |
| SwdCommon.NoNullColumnLeft | Scripts/AquaticScripts/AQUATIC_CreateAllSpeciesSWDFiles.py:116-125 | a column remains iff it was there and is not a null column, and no remaining column is a null column |
| SwdCommon.Abs | Scripts/AquaticScripts/AQUATIC_CreateAllSpeciesSWDFiles.py:140 | `abs(x)` is non-negative and is either `x` or `-x` |
| SwdCommon.InsignificantSnoc | Scripts/AquaticScripts/AQUATIC_CreateAllSpeciesSWDFiles.py:134-142 | each pass of the univariate loop adds its column to the dropped set iff its p-value fails the 0.05 cut-off |
| SwdCommon.FromSix | Scripts/AquaticScripts/AQUATIC_CreateAllSpeciesSWDFiles.py:134 | the first six columns followed by the examined columns make up the whole header |
| SwdCommon.FirstSixFromSix | Scripts/AquaticScripts/AQUATIC_CreateAllSpeciesSWDFiles.py:134 | given distinct labels, the examined columns are distinct, and the header splits into the first six and the examined ones without overlap |
| SwdCommon.FirstSixKept | Scripts/AquaticScripts/AQUATIC_CreateAllSpeciesSWDFiles.py:134-142 | dropping only examined columns leaves the first six columns where they were |
| SwdCommon.ReplacesRecode | Scripts/AquaticScripts/AQUATIC_CreateAllSpeciesSWDFiles.py:147-148 | the two in-place `replace` calls on the label column, 0 by "Background" and then 1 by the species name, recode that column cell by cell |
| SwdCommon.RecodedColumn | Scripts/AquaticScripts/AQUATIC_CreateAllSpeciesSWDFiles.py:147-148 | after the recode the label column holds each row's recoded label and every other column keeps its values |
| SwdCommon.RecodedIdempotent | Scripts/AquaticScripts/AQUATIC_CreateAllSpeciesSWDFiles.py:311-312 | recoding an already recoded table changes nothing, so the later `.loc` updates on `Species` find no 0 or 1 left |
| SwdCommon.UncorrelatedRecodesLabel | Scripts/AquaticScripts/AQUATIC_CreateSpeciesSWDFile.py:123-137 | when the label is among the first six columns, the univariate filter keeps it, and its value in every row is the recoded original label |
| SwdCommon.DropEach | Scripts/AquaticScripts/AQUATIC_CreateAllSpeciesSWDFiles.py:182-183 | the drop pass removes, in place, exactly the listed columns |
| Frames.DropNames | Scripts/AquaticScripts/AQUATIC_CreateAllSpeciesSWDFiles.py:124 | `drop(..., axis=1)` keeps every row and the remaining labels in their order |
| Frames.DropNamesHeader | Scripts/AquaticScripts/AQUATIC_CreateAllSpeciesSWDFiles.py:124 | a label remains iff it was there and was not dropped |
| Frames.DropNamesCompose | Scripts/AquaticScripts/AQUATIC_CreateAllSpeciesSWDFiles.py:182-183 | dropping one set of labels and then another is dropping both at once |
| Frames.DropNamesColumn | Scripts/AquaticScripts/AQUATIC_CreateAllSpeciesSWDFiles.py:124 | a column that is not dropped keeps all its values |
| Frames.DropNamesAbsent | Scripts/AquaticScripts/AQUATIC_PrepAlternateSWDForSpecies.py:25-28 | dropping labels the table lacks changes nothing |
| Frames.MapColumn | Scripts/AquaticScripts/AQUATIC_CreateAllSpeciesSWDFiles.py:105 | rewriting one column changes only that column's cells, each by the given cell function |
| Frames.AssignWhere | Scripts/DataPrep/ExtractSpeciesData.py:89 | a `.loc` assignment writes the target cell of exactly the rows whose test cell matches, and nothing else |
| Frames.RenameLabels | Scripts/AquaticScripts/AQUATIC_CreateAllSpeciesSWDFiles.py:310 | `rename(columns=m)` replaces each label found in `m` by its image and leaves the others |
| Frames.DataFrame.Drop | Scripts/AquaticScripts/AQUATIC_CreateAllSpeciesSWDFiles.py:124 | an in-place drop succeeds iff the label exists; it then removes that column, and otherwise changes nothing (pandas' KeyError) |
| Frames.DataFrame.InsertFirst | Scripts/DataPrep/ExtractSpeciesData.py:83 | `insert(0, ...)` succeeds iff the label is new and then adds a first column with the value in every row; otherwise nothing changes (pandas' ValueError) |
| Frames.DataFrame.FillNa | Scripts/DataPrep/ExtractSpeciesData.py:86 | the column assignment with `fillna(0)` succeeds iff the column exists and then replaces its NaN cells by 0 |
| Frames.DataFrame.SetWhere | Scripts/DataPrep/ExtractSpeciesData.py:89 | the `.loc` update succeeds iff the test column exists and then assigns the target cell of the matching rows |
| Frames.DataFrame.Rename | Scripts/AquaticScripts/AQUATIC_CreateAllSpeciesSWDFiles.py:310 | an in-place rename changes the labels only, never the rows |
| CreateSpeciesSwd.UnfilledLabelsSurvive | Scripts/AquaticScripts/AQUATIC_CreateSpeciesSWDFile.py:90-104 | a catchment without an occurrence record keeps a NaN label from the unfilled join, and it survives the row pruner, as does every row not labelled 0 |
| CreateSpeciesSwd.RemoveAbsenceNullRows | Scripts/AquaticScripts/AQUATIC_CreateSpeciesSWDFile.py:100-105 | the cumulative pruner fails exactly when the frame has columns but no species label; a frame without columns comes back unchanged; otherwise the header stays and exactly the rows pruned by no column remain |
| CreateSpeciesSwd.CumulativePrunerSpec | Scripts/AquaticScripts/AQUATIC_CreateSpeciesSWDFile.py:100-105 | a row survives iff it is not a background row holding the sentinel somewhere; survivors keep their order |
| CreateSpeciesSwd.CumulativePrunerStable | Scripts/AquaticScripts/AQUATIC_CreateSpeciesSWDFile.py:103-104 | the result does not depend on the column order, and a second run removes nothing more |
| CreateSpeciesSwd.RecordAndDrop | Scripts/AquaticScripts/AQUATIC_CreateSpeciesSWDFile.py:125-134 | the loop records the coefficient of every examined column, dropped or not, and drops exactly those whose p-value fails |
| CreateSpeciesSwd.RemoveUncorrelated | Scripts/AquaticScripts/AQUATIC_CreateSpeciesSWDFile.py:118-138 | a missing species label is a KeyError that changes nothing; otherwise the columns from index 6 on are recorded and filtered, and the surviving label column is then recoded in the frame itself through the cached `sppVector` (0 to "Background", 1 to the species name) |
| CreateSpeciesSwd.UncorrelatedSpec | Scripts/AquaticScripts/AQUATIC_CreateSpeciesSWDFile.py:125-134 | a column is kept iff it is among the first six or its p-value passes; the first six stay in place; `corDict` covers exactly the examined columns |
| CreateSpeciesSwd.PositionalDropList | Scripts/AquaticScripts/AQUATIC_CreateSpeciesSWDFile.py:147-160 | the drop list is duplicate-free and taken from the candidates; a candidate is listed iff some earlier candidate, kept or dropped, reaches the threshold with it |
| CreateSpeciesSwd.RemoveXCorrelated | Scripts/AquaticScripts/AQUATIC_CreateSpeciesSWDFile.py:140-165 | the frame loses, in place, exactly the positional drops among the columns from index 6 on |
| CreateSpeciesSwd.PositionalDropsSpec | Scripts/AquaticScripts/AQUATIC_CreateSpeciesSWDFile.py:144-160 | a candidate is dropped iff some earlier one reaches the threshold with it; it is kept iff it is below the threshold with every earlier one; the first candidate is never dropped |
| CreateSpeciesSwd.PositionalRetainedPairs | Scripts/AquaticScripts/AQUATIC_CreateSpeciesSWDFile.py:147-163 | two retained candidates are correlated below the threshold |
| CreateSpeciesSwd.FiltersKeepFirstSix | Scripts/AquaticScripts/AQUATIC_CreateSpeciesSWDFile.py:125-144 | neither correlation filter touches the first six columns |
| CreateAllSpeciesSwd.MergePresAbs | Scripts/AquaticScripts/AQUATIC_CreateAllSpeciesSWDFiles.py:95-107 | the join fails exactly without FEATUREID, and otherwise keeps one row per catchment row |
| CreateAllSpeciesSwd.MergePresAbsSpec | Scripts/AquaticScripts/AQUATIC_CreateAllSpeciesSWDFiles.py:102-105 | after the fill every row has a label: 0 without an occurrence record, and otherwise the record's value with NaN read as 0 |
| CreateAllSpeciesSwd.RemoveAbsenceNullRows | Scripts/AquaticScripts/AQUATIC_CreateAllSpeciesSWDFiles.py:109-114 | as written, the result keeps the header and prunes by the last column only; it fails on a missing label or a frame without columns |
| CreateAllSpeciesSwd.LastColumnPrunerSpec | Scripts/AquaticScripts/AQUATIC_CreateAllSpeciesSWDFiles.py:112-113 | a row survives unless it is background with the sentinel in the last column |
| CreateAllSpeciesSwd.LastColumnPrunerMissesRow | Scripts/AquaticScripts/AQUATIC_CreateAllSpeciesSWDFiles.py:112-113 | a background row with the sentinel only in a middle column survives, though pruning by every column removes it |
| CreateAllSpeciesSwd.DropOrRecord | Scripts/AquaticScripts/AQUATIC_CreateAllSpeciesSWDFiles.py:134-145 | the loop drops exactly the examined columns whose p-value fails and records the coefficient of every other one |
| CreateAllSpeciesSwd.RemoveUncorrelated | Scripts/AquaticScripts/AQUATIC_CreateAllSpeciesSWDFiles.py:127-149 | a missing species label is a KeyError that changes nothing; otherwise the columns from index 6 on go through the drop-or-record loop, and the surviving label column is then recoded in the frame itself through the cached `sppVector` (0 to "Background", 1 to the species name) |
| CreateAllSpeciesSwd.KeptCoefficientsSpec | Scripts/AquaticScripts/AQUATIC_CreateAllSpeciesSWDFiles.py:134-145 | the `corDict` keys are exactly the examined columns that survive the filter |
| CreateAllSpeciesSwd.SortByCoeff | Scripts/AquaticScripts/AQUATIC_CreateAllSpeciesSWDFiles.py:155 | `sorted(corrDict, key=corrDict.get)` lists each key, has the same length and only the keys |
| CreateAllSpeciesSwd.SortByCoeffSpec | Scripts/AquaticScripts/AQUATIC_CreateAllSpeciesSWDFiles.py:155 | the sorted candidates are a duplicate-free permutation of the keys, ascending by signed coefficient |
| CreateAllSpeciesSwd.MarkPartners | Scripts/AquaticScripts/AQUATIC_CreateAllSpeciesSWDFiles.py:164-180 | one inner pass adds exactly the later candidates that reach the threshold with the outer one, and keeps the list duplicate-free |
| CreateAllSpeciesSwd.GreedyDropList | Scripts/AquaticScripts/AQUATIC_CreateAllSpeciesSWDFiles.py:158-180 | the drop list is duplicate-free; a candidate is listed iff some earlier candidate that is itself not dropped reaches the threshold with it |
| CreateAllSpeciesSwd.RemoveXCorrelated | Scripts/AquaticScripts/AQUATIC_CreateAllSpeciesSWDFiles.py:151-185 | the frame loses, in place, exactly the greedy drops among the sorted `corrDict` keys |
| CreateAllSpeciesSwd.GreedyDropsSpec | Scripts/AquaticScripts/AQUATIC_CreateAllSpeciesSWDFiles.py:158-180 | a candidate is dropped iff an earlier retained candidate reaches the threshold with it; the first candidate is never dropped |
| CreateAllSpeciesSwd.GreedyRetainedPairs | Scripts/AquaticScripts/AQUATIC_CreateAllSpeciesSWDFiles.py:158-180 | two retained candidates are correlated below the threshold |
| CreateAllSpeciesSwd.DropsLargerCoefficient | Scripts/AquaticScripts/AQUATIC_CreateAllSpeciesSWDFiles.py:155-180 | with the ascending sort, each dropped column has a retained partner at the threshold whose coefficient is at most its own: the larger coefficient is dropped |
| CreateAllSpeciesSwd.StrongestFirstDropsWeaker | Scripts/AquaticScripts/AQUATIC_CreateAllSpeciesSWDFiles.py:179 | with the candidates sorted by decreasing absolute label coefficient, each dropped column's retained partner is correlated with the label at least as strongly, whatever the signs, so the weaker one goes as intended |
| CreateAllSpeciesSwd.XCorrelatedKeepsOthers | Scripts/AquaticScripts/AQUATIC_CreateAllSpeciesSWDFiles.py:155-183 | a column outside `corrDict`, such as the first six and the label, is never dropped by the redundancy filter |
| CreateAllSpeciesSwd.RecodeLabelRoundTrip | Scripts/AquaticScripts/AQUATIC_CreateAllSpeciesSWDFiles.py:311-312 | recoding 1 to the species name and 0 to "Background" loses nothing, and other values are left as they were |
| CreateAllSpeciesSwd.RecodeInTwoSteps | Scripts/AquaticScripts/AQUATIC_CreateAllSpeciesSWDFiles.py:311-312 | the two `.loc` updates together recode the label column cell by cell; the second never sees a cell the first rewrote |
| CreateAllSpeciesSwd.ForMaxent | Scripts/AquaticScripts/AQUATIC_CreateAllSpeciesSWDFiles.py:310-315 | the SWD table written for MaxEnt stays rectangular |
| CreateAllSpeciesSwd.AdjustForMaxent | Scripts/AquaticScripts/AQUATIC_CreateAllSpeciesSWDFiles.py:310-315 | the rename, recoding and drops succeed iff Species, FEATUREID and HUC_12 exist after the renaming, and then produce the SWD table |
| CreateAllSpeciesSwd.ForMaxentSpec | Scripts/AquaticScripts/AQUATIC_CreateAllSpeciesSWDFiles.py:310-315 | the Species column holds every row's recoded label, FEATUREID and HUC_12 are gone, and every other column keeps its values |
| ExtractSpeciesData.LabelStepsSpec | Scripts/DataPrep/ExtractSpeciesData.py:83-92 | after the four in-place steps the header is Species, FEATUREID, then the rest; each row has its Species value in front and loses its occurrence cell |
| ExtractSpeciesData.LabelInPlace | Scripts/DataPrep/ExtractSpeciesData.py:83-92 | the steps fail iff a Species column already exists (a ValueError from `insert`) |
| ExtractSpeciesData.MergePresAbs | Scripts/DataPrep/ExtractSpeciesData.py:73-94 | succeeds iff FEATUREID exists and Species does not; every catchment row survives with Species, key, then its other cells, and the occurrence column is gone |
| ExtractSpeciesData.SpeciesColumnSpec | Scripts/DataPrep/ExtractSpeciesData.py:83-89 | the Species value is the species name iff the catchment's occurrence record says 1, and "Background" otherwise |
| ExtractSpeciesData.NotSeen | Scripts/DataPrep/ExtractSpeciesData.py:124-127 | the kept columns are exactly the frame's columns absent from `colNames` |
| ExtractSpeciesData.NewColumns | Scripts/DataPrep/ExtractSpeciesData.py:124-127 | the inner loop keeps the frame's columns not in `colNames` and never extends `colNames` |
| ExtractSpeciesData.StackColumns | Scripts/DataPrep/ExtractSpeciesData.py:110-128 | the extractor's stacking loop compares every later frame with the first frame's columns only |
| ExtractSpeciesData.AgainstFirstSpec | Scripts/DataPrep/ExtractSpeciesData.py:119-128 | a later frame never brings back a first-frame column, and each contribution is the unseen columns of one `.csv` file |
| ExtractSpeciesData.StackRepeatsLaterColumn | Scripts/DataPrep/ExtractSpeciesData.py:119-128 | headers [A], [B], [B] give a stacked header with B twice, while the extending loop of the SWD builders keeps B once |
| MaxentBatchFile.Basename | Scripts/AquaticScripts/AQUATIC_CreateMaxentBatchFile.py:28 | `os.path.basename` is the separator-free end of the path, preceded by a separator unless it is the whole path |
| MaxentBatchFile.Dirname | Scripts/AquaticScripts/AQUATIC_CreateMaxentBatchFile.py:29 | `os.path.dirname` is a prefix of the path |
| MaxentBatchFile.PathJoin | Scripts/AquaticScripts/AQUATIC_CreateMaxentBatchFile.py:30 | `os.path.join(a, b)` for a relative `b` ends with `b` |
| MaxentBatchFile.SpeciesName | Scripts/AquaticScripts/AQUATIC_CreateMaxentBatchFile.py:28 | the derived species name holds no separator |
| MaxentBatchFile.BasenameOfJoin | Scripts/AquaticScripts/AQUATIC_CreateMaxentBatchFile.py:28 | the base name of `folder\name` is `name` |
| MaxentBatchFile.DirnameOfJoin | Scripts/AquaticScripts/AQUATIC_CreateMaxentBatchFile.py:29 | the folder of `folder\name` is `folder` |
| MaxentBatchFile.SwdSuffixRemoved | Scripts/AquaticScripts/AQUATIC_CreateMaxentBatchFile.py:28 | cutting the last 8 characters removes exactly the `_swd.csv` suffix |
| MaxentBatchFile.DerivedNames | Scripts/AquaticScripts/AQUATIC_CreateMaxentBatchFile.py:28-56 | for `<folder>\<species>_swd.csv` the species name is recovered exactly; the batch file is `<folder>\<species>.bat` and the output folder is `<folder>\<species>` |
| MaxentBatchFile.AppendOption | Scripts/AquaticScripts/AQUATIC_CreateMaxentBatchFile.py:75 | each `+=` extends the command by exactly the text of the next option |
| MaxentBatchFile.AppendFiles | Scripts/AquaticScripts/AQUATIC_CreateMaxentBatchFile.py:75-83 | the samples, layers and output options come first, in that order |
| MaxentBatchFile.AppendSwitches | Scripts/AquaticScripts/AQUATIC_CreateMaxentBatchFile.py:87-103 | the five display and overwrite switches follow, in order |
| MaxentBatchFile.AppendRunSettings | Scripts/AquaticScripts/AQUATIC_CreateMaxentBatchFile.py:114-131 | no-data, threads, autorun and the species toggle follow, in order |
| MaxentBatchFile.BuildRunString | Scripts/AquaticScripts/AQUATIC_CreateMaxentBatchFile.py:71-147 | the command grown step by step is the launcher and jar followed by the rendered option list |
| MaxentBatchFile.OptionKeys | Scripts/AquaticScripts/AQUATIC_CreateMaxentBatchFile.py:75-147 | each option appears once, in the fixed order, and `projectionlayers` comes last, present iff the projection file is not "#" |
| MaxentBatchFile.OptionValues | Scripts/AquaticScripts/AQUATIC_CreateMaxentBatchFile.py:33-127 | samples and layers are both the SWD table; threads is 16; autorun is on iff the setting is exactly "true", which the script never passes |
| MaxentBatchFile.RunStringStart | Scripts/AquaticScripts/AQUATIC_CreateMaxentBatchFile.py:71 | the command starts with `java -mx4096m -d64 -jar` and the jar file |
| MaxentBatchFile.RunStringEnd | Scripts/AquaticScripts/AQUATIC_CreateMaxentBatchFile.py:131-147 | the command ends with the projection option when a projection file is given, and otherwise with the Background toggle |
| MaxentBatchFile.RunStringAddProjection | Scripts/AquaticScripts/AQUATIC_CreateMaxentBatchFile.py:145-147 | a projection file adds exactly one option after those of the plain command |
| MaxentBatchFile.NoDataMissesSentinel | Scripts/AquaticScripts/AQUATIC_CreateMaxentBatchFile.py:114-115 | the no-data option denotes 9999, not the tables' sentinel -9999 |
| MaxentBatchFile.CorrectedNoData | Scripts/AquaticScripts/AQUATIC_CreateMaxentBatchFile.py:114-115 | with the correction the no-data option denotes -9999 and every other option is unchanged |
| MaxentBatchFile.LaunchesMaxent | Scripts/AquaticScripts/AQUATIC_CreateMaxentBatchFile.py:156-158 | comparing the string argument with the integer 1 is never true, so MaxEnt is never launched |
| RunMaxentBatches.SetAutorunOnRemovesOff | Scripts/AquaticScripts/AQUATIC_RunMaxentBatches.py:27-29 | switching autorun on leaves no `autorun=false` in the command |
| RunMaxentBatches.SetAutorunOffRemovesOn | Scripts/AquaticScripts/AQUATIC_RunMaxentBatches.py:30-31 | switching autorun off leaves no `autorun=true` in the command |
| RunMaxentBatches.SetAutorunUnchanged | Scripts/AquaticScripts/AQUATIC_RunMaxentBatches.py:27-32 | a command holding neither switch text is returned as it is |
| RunMaxentBatches.SetAutorunIdempotent | Scripts/AquaticScripts/AQUATIC_RunMaxentBatches.py:27-32 | setting autorun twice is setting it once |
| RunMaxentBatches.OrigFN | Scripts/AquaticScripts/AQUATIC_RunMaxentBatches.py:36 | the last value is the `=`-free end of the command, preceded by `=` unless it is the whole command |
| RunMaxentBatches.SetProjectFNEnds | Scripts/AquaticScripts/AQUATIC_RunMaxentBatches.py:34-38 | the rewritten command always ends with the new file name, even when the last value is empty |
| RunMaxentBatches.SetProjectFNNoEquals | Scripts/AquaticScripts/AQUATIC_RunMaxentBatches.py:36-37 | a command without `=` is replaced as a whole |
| RunMaxentBatches.SetProjectFNTrailingEquals | Scripts/AquaticScripts/AQUATIC_RunMaxentBatches.py:36-37 | with a trailing `=` the empty pattern puts the new name between every character |
| RunMaxentBatches.BatchFilesSpec | Scripts/AquaticScripts/AQUATIC_RunMaxentBatches.py:45-46 | exactly the listed names ending in `.bat` are read, in listing order |
| RunMaxentBatches.RunCommandSpec | Scripts/AquaticScripts/AQUATIC_RunMaxentBatches.py:48-53 | with a project name (not "#" or "") the launched command ends with it; without one only autorun changes, and it is on everywhere |
| RunMaxentBatches.OrigFNOfOption | Scripts/AquaticScripts/AQUATIC_RunMaxentBatches.py:36 | for a command ending with ` key=value`, the last value is `value` |
| RunMaxentBatches.OrigFNOfBuiltCommand | Scripts/AquaticScripts/AQUATIC_RunMaxentBatches.py:36 | on a command the batch-file writer built, the last value is the projection file if there is one, and otherwise `Background` |
| RunMaxentBatches.SetProjectFNLastOnly | Scripts/AquaticScripts/AQUATIC_RunMaxentBatches.py:34-38 | when nothing before the last value holds its first character, only the last value is replaced |
| RunMaxentBatches.SetProjectFNReplacesToggle | Scripts/AquaticScripts/AQUATIC_RunMaxentBatches.py:34-38 | on a command ending in ` togglespeciesselected=Background` with no `B` before it, the rewrite puts the project file into the species toggle instead of adding a projection option, and the rest of the command is unchanged |
| RunMaxentBatches.SetProjectFNOfBuiltCommand | Scripts/AquaticScripts/AQUATIC_RunMaxentBatches.py:34-38 | on a whole command the batch-file writer builds without a projection file, whose jar path, SWD file and output directory hold no `B`, the rewrite changes only the species toggle's value, to the project file |
| RunMaxentBatches.SetProjectionLayersEnds | Scripts/AquaticScripts/AQUATIC_RunMaxentBatches.py:34-38 | the corrected rewrite always ends with the projection option for the new file |
| RunMaxentBatches.SetProjectionLayersOfBuilt | Scripts/AquaticScripts/AQUATIC_RunMaxentBatches.py:34-38 | on any command the writer built (with a projection file free of `=`, or none), the corrected rewrite gives exactly the command the writer builds for the new projection file |
| RunMaxentBatches.ReplacedInBuilt | Scripts/AquaticScripts/AQUATIC_RunMaxentBatches.py:34-38 | on a command built with a projection file, the corrected rewrite replaces that file |
| RunMaxentBatches.AddedToBuilt | Scripts/AquaticScripts/AQUATIC_RunMaxentBatches.py:34-38 | on a command built without a projection file, the corrected rewrite adds the projection option |
| RunMaxentBatches.ProjectionReplaced | Scripts/AquaticScripts/AQUATIC_RunMaxentBatches.py:34-38 | a final projection option gets the new value and nothing else changes |
| RunMaxentBatches.ProjectionAdded | Scripts/AquaticScripts/AQUATIC_RunMaxentBatches.py:34-38 | after the species toggle, the projection option is appended and nothing else changes |
| AquaticUtils.FlaggedNamesSpec | Scripts/AquaticScripts/AQUATIC_utils.py:38 | a name is selected iff some row flagged 1 for the ecoregion carries it, and the selection keeps table order |
| AquaticUtils.RegionSelection | Scripts/AquaticScripts/AQUATIC_utils.py:37-38 | the region selection fails exactly when the name column or the ecoregion column is missing |
| AquaticUtils.Selection | Scripts/AquaticScripts/AQUATIC_utils.py:33-38 | the selection fails exactly when the name column is missing, or the ecoregion is not ALL and has no column |
| AquaticUtils.SelectionSpec | Scripts/AquaticScripts/AQUATIC_utils.py:33-38 | ALL selects every name in table order; otherwise exactly the names of rows flagged 1, in table order |
| AquaticUtils.TerminatedJoin | Scripts/AquaticScripts/AQUATIC_utils.py:42-45 | after the loop the text is the names joined by `;` plus one final `;` |
| AquaticUtils.MultiList | Scripts/AquaticScripts/AQUATIC_utils.py:42-47 | the loop and the final cut give the names joined with `;`, with no trailing separator, and "" for no names |
| AquaticUtils.MultiListRoundTrip | Scripts/AquaticScripts/AQUATIC_utils.py:42-47 | splitting the result on `;`, as the uplift script does, gives back names without `;`; an empty selection comes back as one empty name |
| AquaticUtils.GetSpeciesList | Scripts/AquaticScripts/AQUATIC_utils.py:23-49 | `getSpeciesList` fails exactly when the selection fails, and otherwise returns the `;`-joined selection |
| GenerateSpeciesList.PrefixedLength | Scripts/AquaticScripts/AQUATIC_GenerateSpeciesList.py:19-21 | the output length is the sum over the names of the name's length plus one |
| GenerateSpeciesList.PrefixedJoin | Scripts/AquaticScripts/AQUATIC_GenerateSpeciesList.py:19-22 | the output is "" for no names, and otherwise one leading `;` followed by the names joined with `;` |
| GenerateSpeciesList.MultiList | Scripts/AquaticScripts/AQUATIC_GenerateSpeciesList.py:19-21 | the loop puts `;` before every name |
| GenerateSpeciesList.GenerateList | Scripts/AquaticScripts/AQUATIC_GenerateSpeciesList.py:12-22 | the script fails exactly when the selection fails, and otherwise outputs the prefixed names of the region selection |
| GenerateSpeciesList.SameAsSpeciesList | Scripts/AquaticScripts/AQUATIC_GenerateSpeciesList.py:15-21 | for an ecoregion other than ALL, both scripts select the same names, and the generator's string is `getSpeciesList`'s with a leading `;` |
| PrepAlternateSwd.KeepSharedHeader | Scripts/AquaticScripts/AQUATIC_PrepAlternateSWDForSpecies.py:25-28 | the kept columns are exactly the project columns the species table also has, in project order; no species-only column is added |
| PrepAlternateSwd.KeepSharedValues | Scripts/AquaticScripts/AQUATIC_PrepAlternateSWDForSpecies.py:28 | the rows stay, and every kept column keeps all its values |
| PrepAlternateSwd.KeepSharedSubset | Scripts/AquaticScripts/AQUATIC_PrepAlternateSWDForSpecies.py:25-28 | a project table whose columns the species table all has is left as it is |
| PrepAlternateSwd.KeepSharedIdempotent | Scripts/AquaticScripts/AQUATIC_PrepAlternateSWDForSpecies.py:25-28 | preparing twice is preparing once |
| PrepAlternateSwd.PrepAlternate | Scripts/AquaticScripts/AQUATIC_PrepAlternateSWDForSpecies.py:23-28 | the loop over a snapshot of the project labels leaves exactly the shared columns |
| ComputeUplift.ShortNameOf | Scripts/AquaticScripts/AQUATIC_ComputeUplift.py:51-52 | the short name is the second letter of the genus, `_` and the epithet, and a one-letter genus is an IndexError |
| ComputeUplift.ShortNameNeedsOneUnderscore | Scripts/AquaticScripts/AQUATIC_ComputeUplift.py:51 | a name is shortened only when it holds exactly one `_`; without one the unpacking fails |
| ComputeUplift.FieldsSpec | Scripts/AquaticScripts/AQUATIC_ComputeUplift.py:53-55 | the three fields of a species differ, each is the short name plus a two-letter suffix, and different short names give different uplift fields |
| ComputeUplift.PreparedSpec | Scripts/AquaticScripts/AQUATIC_ComputeUplift.py:71-72 | a prepared table keeps its rows and other columns, and has GRIDCODE only when its species equals the first of the list |
| ComputeUplift.UpliftFieldsSnoc | Scripts/AquaticScripts/AQUATIC_ComputeUplift.py:56 | each pass appends its species' uplift field, whether its join turns out empty or not |
| ComputeUplift.KeptSpec | Scripts/AquaticScripts/AQUATIC_ComputeUplift.py:71-83 | every gathered table has rows, comes from one species of the list, and has GRIDCODE only for the first species |
| ComputeUplift.DropGridCode | Scripts/AquaticScripts/AQUATIC_ComputeUplift.py:71-72 | the drop fails exactly for a later species whose table lacks GRIDCODE |
| ComputeUplift.Gather | Scripts/AquaticScripts/AQUATIC_ComputeUplift.py:43-83 | the species loop succeeds iff every pass does, and then yields one uplift field per species and the non-empty prepared tables |
| ComputeUplift.Compute | Scripts/AquaticScripts/AQUATIC_ComputeUplift.py:43-86 | the run succeeds iff every species pass does and at least one non-empty table is left for `pd.concat`, and it then yields the uplift fields and those tables |
| CreateAlternateSwd.CountsSpec | Scripts/AquaticScripts/AQUATIC_CreateAlternateSWD.py:96-101 | the dictionary keys are exactly the codes that occur, each mapped to the area of its last record |
| CreateAlternateSwd.GetRasterCounts | Scripts/AquaticScripts/AQUATIC_CreateAlternateSWD.py:86-105 | an all-NoData raster gives `{}`, and any other raster gives the cursor loop's dictionary |
| CreateAlternateSwd.MergedSpec | Scripts/AquaticScripts/AQUATIC_CreateAlternateSWD.py:130-139 | the merged keys are exactly the project's codes; each value lists four areas (project, buffer, mid slope, high slope), with 0 where a dictionary lacks the code |
| CreateAlternateSwd.MergedNoData | Scripts/AquaticScripts/AQUATIC_CreateAlternateSWD.py:130-139 | an empty project dictionary gives an empty merge |
| CreateAlternateSwd.AppendAreas | Scripts/AquaticScripts/AQUATIC_CreateAlternateSWD.py:132-138 | the inner loop lists the project area, then each other dictionary's area or 0 |
| CreateAlternateSwd.MergeDicts | Scripts/AquaticScripts/AQUATIC_CreateAlternateSWD.py:130-139 | the merge loop yields the merged dictionary, whatever order the keys come in |
| CreateAlternateSwd.ChangedFileCellsMember | Scripts/AquaticScripts/AQUATIC_CreateAlternateSWD.py:154 | a file cell is collected iff some row not marked `Unchanged` holds it |
| CreateAlternateSwd.CsvFilesSpec | Scripts/AquaticScripts/AQUATIC_CreateAlternateSWD.py:154-155 | the file list is found iff both columns exist, and is then the distinct files of the changed rows, in first-appearance order |
| JoinCsvToFc.LinkValuesSpec | Scripts/AquaticScripts/AQUATIC_JoinCSVtoFC.py:23-29 | a missing link field prints ERROR and then fails with a KeyError; otherwise the link values are distinct, exact, and in first-appearance order |
| JoinCsvToFc.LinkFirst | Scripts/AquaticScripts/AQUATIC_JoinCSVtoFC.py:40-42 | the remove and insert put the link field in front of the list with its first occurrence removed |
| JoinCsvToFc.LinkFirstSpec | Scripts/AquaticScripts/AQUATIC_JoinCSVtoFC.py:40-42 | the reordered list starts with the link field, has the same length and labels, and keeps the other labels in order |
| JoinCsvToFc.LinkFirstMovesFirstOnly | Scripts/AquaticScripts/AQUATIC_JoinCSVtoFC.py:41 | only the first occurrence of the link field moves; a later one stays among the other labels |
| JoinCsvToFc.OtherColumns | Scripts/AquaticScripts/AQUATIC_JoinCSVtoFC.py:40-45 | given distinct labels, the other labels are exactly those other than the link field |
| JoinCsvToFc.AddFields | Scripts/AquaticScripts/AQUATIC_JoinCSVtoFC.py:45-56 | the loop adds one typed field per column after the first, in order |
| JoinCsvToFc.JoinCsv | Scripts/AquaticScripts/AQUATIC_JoinCSVtoFC.py:20-56 | the script fails exactly when the link field is missing, and otherwise yields the distinct link values and the field list |
| JoinCsvToFc.AddedFieldsSpec | Scripts/AquaticScripts/AQUATIC_JoinCSVtoFC.py:45-56 | the added fields are exactly the columns other than the link field, with FLOAT, LONG or TEXT chosen by dtype |
| JoinStreamCat.RegionFilesSpec | Scripts/Sandbox/JoinStreamCat.py:39-43 | exactly the files whose name contains `Region<region>.csv` are processed, in folder order |
| JoinStreamCat.RemoveJoined | Scripts/Sandbox/JoinStreamCat.py:53-54 | the remove-while-iterating loop steps an index exactly as Python's list iterator does |
| JoinStreamCat.SweepSpec | Scripts/Sandbox/JoinStreamCat.py:53-54 | what the loop leaves is a subsequence of the list, and only names already in the feature class are removed |
| JoinStreamCat.RemoveWhileIteratingSkips | Scripts/Sandbox/JoinStreamCat.py:53-54 | of two adjacent names already present, the second is skipped and stays to be joined again |
| JoinStreamCat.LengthTestMissesEmptyList | Scripts/Sandbox/JoinStreamCat.py:56-58 | the emptiness test looks at the last visited name, so a list the loop emptied still goes to the join |
| JoinStreamCat.NewAttributesSpec | Scripts/Sandbox/JoinStreamCat.py:53-54 | the intended filter keeps exactly the names absent from the feature class, in order |
| JoinStreamCat.PlanForSpec | Scripts/Sandbox/JoinStreamCat.py:51-58 | the corrected decision skips a file iff no attribute is new, and otherwise joins exactly the new attributes other than the first COMID |
| JoinStreamCat.PlansDiffer | Scripts/Sandbox/JoinStreamCat.py:51-58 | on header COMID, A, B with A and B present, the script joins B again, while the corrected decision joins nothing |
| GenerateAttributeList.HeaderItemsOf | Scripts/DataPrep/GenerateAttributeList.py:31-33 | a header line ending in a newline gives back its comma-separated fields |
| GenerateAttributeList.HeaderWithoutNewline | Scripts/DataPrep/GenerateAttributeList.py:31-33 | a first line without a newline loses its last real character |
| GenerateAttributeList.FileEntriesSpec | Scripts/DataPrep/GenerateAttributeList.py:35-37 | a file reports exactly its header items outside the filter |
| GenerateAttributeList.EntriesSpec | Scripts/DataPrep/GenerateAttributeList.py:26-37 | an entry is reported iff its file is a listed `.csv` file and its item is one of that file's header items outside the filter |
| GenerateAttributeList.NeverReported | Scripts/DataPrep/GenerateAttributeList.py:20-37 | OID, GRIDCODE, FEATUREID, REACHCODE and HUC_12 are never reported |
| GenerateAttributeList.WriteItems | Scripts/DataPrep/GenerateAttributeList.py:35-37 | the inner loop appends one `file, item` line per item outside the filter, in header order |
| GenerateAttributeList.Generate | Scripts/DataPrep/GenerateAttributeList.py:17-37 | the output is the heading line followed by the entries of every `.csv` file, in folder order |
| Strings.TakeN | Scripts/DataPrep/ExtractSpeciesData.py:59 | `s[:n]` is a prefix of length `min(len(s), n)` |
| Strings.LastN | Scripts/AquaticScripts/AQUATIC_RunMaxentBatches.py:46 | `s[-n:]` is a suffix of length `min(len(s), n)` |
| Strings.DropLastN | Scripts/AquaticScripts/AQUATIC_CreateMaxentBatchFile.py:28 | `s[:-n]` is a prefix that is `n` characters shorter, or empty |
| Strings.IsCsvNameIsSuffixTest | Scripts/AquaticScripts/AQUATIC_CreateAllSpeciesSWDFiles.py:222 | the character-wise `.csv` test is the slice comparison `f[-4:] == ".csv"` |
| Strings.LastNIsSuffixTest | Scripts/AquaticScripts/AQUATIC_RunMaxentBatches.py:46 | comparing the last characters with `t` is the test "ends with `t`" |
| Strings.JoinSplit | Scripts/AquaticScripts/AQUATIC_ComputeUplift.py:36 | joining the pieces of a split with the separator gives the string back |
| Strings.SplitJoin | Scripts/AquaticScripts/AQUATIC_ComputeUplift.py:36 | splitting a join of one or more separator-free pieces gives the pieces back |
| Strings.SplitLast | Scripts/AquaticScripts/AQUATIC_RunMaxentBatches.py:36 | `split(c)[-1]` is a `c`-free suffix, preceded by `c` unless it is the whole string |
| Strings.ReplaceAbsent | Scripts/AquaticScripts/AQUATIC_RunMaxentBatches.py:29 | `replace` leaves a string without the pattern unchanged |
| Strings.ReplaceWhole | Scripts/AquaticScripts/AQUATIC_RunMaxentBatches.py:37 | replacing a whole string gives the replacement |
| Strings.ReplaceAtEnd | Scripts/AquaticScripts/AQUATIC_RunMaxentBatches.py:37 | a pattern at the end after a separator is replaced there |
| Strings.ReplaceRemoves | Scripts/AquaticScripts/AQUATIC_RunMaxentBatches.py:29-31 | no pattern is left after `replace` when the replacement cannot rebuild one |
| Strings.NatToString | Scripts/AquaticScripts/AQUATIC_CreateMaxentBatchFile.py:119 | `str(n)` is a non-empty string of decimal digits |
| Strings.IntRoundTrip | Scripts/AquaticScripts/AQUATIC_CreateMaxentBatchFile.py:119 | reading back `str(n)` gives `n` |
| Seqs.RemoveFirst | Scripts/AquaticScripts/AQUATIC_JoinCSVtoFC.py:41 | `list.remove(x)` takes out the first occurrence of `x` and nothing else |
| Seqs.RemoveFirstAt | Scripts/Sandbox/JoinStreamCat.py:54 | after `list.remove`, the elements before the removed one stay and the later ones shift down by one place |
| Seqs.RemoveFirstMultiset | Scripts/AquaticScripts/AQUATIC_JoinCSVtoFC.py:41 | `list.remove(x)` takes one `x` out of the multiset of elements |
| Seqs.UniqueSpec | Scripts/AquaticScripts/AQUATIC_JoinCSVtoFC.py:28 | `pd.unique` lists each element once, only elements of its input, in first-appearance order |

## Left out

- Correlation arithmetic: `stats.pearsonr` is floating-point numerics. Coefficients, p-values and pairwise correlations are uninterpreted real inputs.
  A constant column makes `pearsonr` return NaN for both. The NaN p-value is covered, because
  `abs(nan) > 0.05` is false and `Significant` keeps the column. A NaN coefficient entering
  `corDict`, and `sorted(corrDict, key=corrDict.get)` over it (all-species builder 145 and 154),
  are not: `SortByCoeff` assumes the total order of the reals.
- File and pandas plumbing: `read_csv`, `read_excel`, `to_csv`, `concat` and the
  float32/int32 downcasts (CreateAllSpeciesSWDFiles 243-247) are left out. Tables are
  given as values. The OID drop after stacking (263, 228 and 148) is left out too.
- Duplicate labels: pandas `read_csv` mangles duplicate labels, so several members require a
  duplicate-free header (`Distinct`).
- SwdCommon.RightJoin: the model requires the species label to be absent from the catchment table.
  pandas would add suffixes to clashing labels, and that renaming is not modelled.
- SwdCommon.RightJoin, SwdCommon.RightJoinSpec, SwdCommon.RightJoinColumn,
  CreateAllSpeciesSwd.MergePresAbs and ExtractSpeciesData.MergePresAbs: the model gives the join's
  rows in catchment order, row i of the result coming from catchment row i. The pandas of the
  scripts' time computes `how='right'` as a left join with the frames swapped and may sort the
  result by key, giving the rows matching an occurrence record first. Which rows there are and
  the cells of each are as modelled; the row order of the written tables is not pinned down.
- SwdCommon.RightJoin, CreateAllSpeciesSwd.MergePresAbs and ExtractSpeciesData.MergePresAbs: the
  occurrence table is a map from FEATUREID to one label, so the model assumes one occurrence
  record per FEATUREID. With a repeated key `pd.merge` yields one row per matching pair, so a
  catchment row can appear more than once; the model does not capture that.
- CreateSpeciesSwd.RemoveUncorrelated and CreateAllSpeciesSwd.RemoveUncorrelated: the recode
  through `sppVector` is modelled only while the label column is still in the frame. If the
  label were examined and dropped, which needs its own p-value against itself to fail, pandas
  would still write through the cached column, and the model leaves the frame as dropped.
  The `sppName` parameter is the scripts' species name, which the call sites also pass as
  `speciesName`.
- Driver loop: the species loop of the all-species builder, its log and message calls and its
  `os.path.exists` skip (187-200) are left out. Each step is modelled on its own.
- Dictionary order: the order in which a dictionary yields its keys is an input (`keyOrder`,
  `keys`). The model does not pin it to Python's insertion order.
- Paths: they are modelled as in `ntpath`, with `\` as the only separator. Drive letters and
  absolute second arguments to `os.path.join` are not modelled.
- Batch-file writer I/O: the `maxent.jar` existence check, `mkdir`, `arcpy.SetParameter` and the
  batch-file write (48-67 and 150-153) are left out. So is the `os.system` launch, which
  `LaunchesMaxent` shows is never reached.
- Batch runner I/O: `getCommand` (22-25), `os.listdir` and `os.system` (55) are left out. The loop
  is modelled by `BatchFiles` and `RunCommand`.
- CreateAlternateSWD: the ArcGIS raster and cursor calls are left out; the all-NoData test and the
  records are inputs. Also left out:
  - the area conversion `count * 0.0009`: areas are taken as given;
  - `getHUC8`, `getGridcodes` and everything from `csvFiles[-2]` on (158-207). That code uses
    `dataDF`, which is undefined because its assignment is commented out at 168, and the NLCD
    updates at 189-205 are floating point.
- ComputeUplift: these are inputs rather than modelled steps:
  - the CSV reads, renames and FEATUREID drops, and the merge (59-68): the merged tables of the
    species are inputs;
  - the uplift subtraction (80).
- JoinCSVtoFC: the first failure on a missing link field is the KeyError of `df[linkFld]` at
  line 28, before `cols.remove` is reached. Also left out:
  - the where clause (30-33) and `Select_analysis` (37);
  - the update cursor (59-66): its inner loop runs over `range(1, len(catchVals))`, so it fails
    with a NameError on the misspelt `catcVals` only for a link value that matches at least two
    CSV rows; for every other feature `updateRow` writes the row back unchanged, so the added
    fields stay unfilled and nothing is written;
  - `AddField_management`: the added fields are modelled as a list of names and types
    (`TEXT` takes 30 as a positional precision, which the model keeps as a size).
- JoinStreamCat: `getHeaders` and `ListFields` (18-29) become inputs. `TableToTable` and
  `JoinField` (63-65) are left out. `fldNames` is never refreshed after a join, and `prev`
  carries `attrib` over from the previous file, as the script does.
- GenerateAttributeList: reading a file's first line is the input function `firstLine`. The
  output is a string rather than a file.
- The other scripts of the repository (map projections, prediction export, StreamCat download
  and merge, the projection batch file, the EPA web services and the incomplete
  species-data preparation script) are not part of this model.

## Findings

| source | as written | input that shows it | evidently intended | confidence | as-written member | corrected member |
|---|---|---|---|---|---|---|
| Scripts/AquaticScripts/AQUATIC_CreateAllSpeciesSWDFiles.py:112-113 | every pass filters the unchanged `theDF` into `theDF2`, so only the last column's filter survives | the row `[0, -9999, 5]` with label column 0: the sentinel sits in the middle column | a row is dropped when it is background and any column holds the sentinel, as in the single-species copy | not executed | CreateAllSpeciesSwd.LastColumnPrunerMissesRow | CreateSpeciesSwd.CumulativePrunerSpec |
| Scripts/AquaticScripts/AQUATIC_CreateAllSpeciesSWDFiles.py:155-180 | candidates are sorted ascending by signed coefficient, so of a correlated pair the one with the larger coefficient is dropped | two candidates correlated at the threshold, with coefficients 0.1 and 0.9: the 0.9 column goes (a descending signed sort would still drop -0.9 against 0.1) | drop the column with the weaker correlation to the label, as the comment at 179 says, by sorting on decreasing absolute coefficient | not executed | CreateAllSpeciesSwd.DropsLargerCoefficient | CreateAllSpeciesSwd.StrongestFirstDropsWeaker |
| Scripts/DataPrep/ExtractSpeciesData.py:119-128 | `colNames` is never extended, so a column found in two later files is kept twice | files with headers [A], [B] and [B] | append each new column to `colNames`, as the SWD builders do at 240 | not executed | ExtractSpeciesData.StackRepeatsLaterColumn | SwdCommon.StackSpec |
| Scripts/AquaticScripts/AQUATIC_CreateMaxentBatchFile.py:114-115 | the no-data option is `nodata=9999` | any SWD table: its sentinel is -9999 | `nodata=-9999`, as the message on line 114 announces | not executed | MaxentBatchFile.NoDataMissesSentinel | MaxentBatchFile.CorrectedNoData |
| Scripts/AquaticScripts/AQUATIC_RunMaxentBatches.py:34-38 | the last value is replaced wherever it occurs; on a command built without a projection file that value is `Background` | a command ending in ` togglespeciesselected=Background` and the project name `p` | set or add the `projectionlayers` option | not executed | RunMaxentBatches.SetProjectFNReplacesToggle | RunMaxentBatches.SetProjectionLayersOfBuilt |
| Scripts/Sandbox/JoinStreamCat.py:53-56 | the list is changed while it is iterated, so the name after a removed one is skipped, and the emptiness test reads `attrib` | header COMID, A, B with A and B already in the feature class | join exactly the new attributes, and skip the file when there are none | not executed | JoinStreamCat.PlansDiffer | JoinStreamCat.PlanForSpec |
