# ocirs core in Dafny

A Dafny model of the core of **ocirs**, a library that OCRs scanned IRS Form 990
and 990-PF returns, finds the pages of a requested form component (a schedule
or part, named the IRSx way) by fuzzy phrase search, extracts their tables and
optionally fuzzy-merges them into one table.

The model follows the package's structure, one Dafny module per part:

- `Common` (common.dfy): the shared values.
  - `Option`, `Result` and `Outcome`, where a raised Python exception is an `Err`/`Fail` carrying a `PyError`.
  - `PyObj`, for the dynamically typed arguments the code tells apart.
  - `Frame`, a pandas DataFrame as a value: its column labels and its rows of cells.
  - `OcrRow`, one row of Tesseract's OCR frame, read by the page text and by both extractors.
  - Small sequence facts.
- `PyStr` (pystr.dfy): the parts of Python's `str` the core relies on.
  - `isspace`, `strip`, `lower`, `int()` and `str()`.
- `Borderless` (borderless.dfy): borderless table extraction.
  - Token filtering and the derived geometry.
  - Cluster renumbering.
  - The vertical-line column split.
  - Aggregation of tokens per (column, row).
  - The rectangular grid whose first row is the header.
- `BorderedOI` (bordered_oi.dfy): the ruling-line row and column assignment of the bordered extractor derived from open-intelligence.
- `TableMerge` (table_merge.dfy): `clean_dataframe`, and `merge_dataframes` with its fuzzy canonical column names.
- `BorderedLegacy` (bordered_legacy.dfy): the legacy contour-based bordered extractor, from the contour sort to the reshaped grid of cell texts.
  - The image processing is a parameter.
- `Validation` (validation.dfy): the five argument validators.
- `Pages` (page.dfy): the `NineNinetyPage` class.
  - Its index setter and the constructor's index conversion.
  - The page text.
  - The `extract_tables` guard and store.
  - The parent-form getter.
- `Forms` (form.dfy): the `NineNinetyForm` class.
  - The form-type normalisation and setter, and the pdf-path check.
  - `phrase_match`, `search_form` and `extract_component_tables`.

Pages and forms are classes: their setters and methods change their fields in
place. Everything that computes a value is a function specified by lemmas.
The loops of the source are methods proved against those functions. Collaborators
the core only calls are parameters of the model:

- Tesseract's OCR output, the line detector's segments and scipy's `fclusterdata`.
- The fuzzywuzzy scorer, `fuzzysearch.find_near_matches` and the table extractor of `table_extraction.py`.
- The file system tests `is_file`/`is_dir`.

## Model

Paths are relative to the repository root.

| member | source | states |
|---|---|---|
| Borderless.Half | ocirs/table_extraction/borderless_table_extraction.py:46-48 | `int(h/2)` is the floor of half of h for non-negative h |
| Borderless.Derive | ocirs/table_extraction/borderless_table_extraction.py:36-49 | the box of an OCR row: its text is the row's text cell stripped (trimmed when not blank), its left, top, width and height are the row's, its far edges are left+width and top+height, its centres lie halfway |
| Borderless.GetTextBoxes | ocirs/table_extraction/borderless_table_extraction.py:34-42 | filtering never adds tokens |
| Borderless.GetTextBoxesClean | ocirs/table_extraction/borderless_table_extraction.py:34-49 | every surviving box has non-empty stripped text and consistent derived geometry |
| Borderless.GetTextBoxesAppend | ocirs/table_extraction/borderless_table_extraction.py:35-42 | the filter works token by token and keeps their order: the boxes of a + b are those of a followed by those of b |
| Borderless.SurvivorKept | ocirs/table_extraction/borderless_table_extraction.py:34-37 | every OCR row above the confidence threshold with non-blank text yields its box |
| Borderless.BoxFromSurvivor | ocirs/table_extraction/borderless_table_extraction.py:34-37 | every box comes from such a row |
| Borderless.ConfidenceCutoff | ocirs/table_extraction/borderless_table_extraction.py:19-35 | `int(conf) > 0.6` holds exactly for confidences of at least 1, so -1 rows are dropped |
| Borderless.Dedup | ocirs/table_extraction/borderless_table_extraction.py:74-78 | the dict's keys: the same values as the cluster ids, each once, no more of them than ids |
| Borderless.DedupPrefix | ocirs/table_extraction/borderless_table_extraction.py:74-81 | the keys seen in a prefix come first in the key order |
| Borderless.ClusterKeys | ocirs/table_extraction/borderless_table_extraction.py:74-78 | the first loop yields the cluster ids in order of first appearance |
| Borderless.NumberKeys | ocirs/table_extraction/borderless_table_extraction.py:79-81 | each key is numbered by its position |
| Borderless.ClusteringIndexes | ocirs/table_extraction/borderless_table_extraction.py:72-85 | one index per point; the index names the point's cluster; equal indexes exactly for equal ids; every number below the cluster count is used; a first occurrence gets the number of distinct ids before it |
| Borderless.RelabelInjective | ocirs/table_extraction/borderless_table_extraction.py:79-84 | the renumbering identifies exactly the points of one cluster |
| Borderless.RelabelOnto | ocirs/table_extraction/borderless_table_extraction.py:79-84 | the renumbering leaves no gap |
| Borderless.RelabelFirst | ocirs/table_extraction/borderless_table_extraction.py:79-84 | the numbers follow order of first appearance |
| Borderless.LastMove | ocirs/table_extraction/borderless_table_extraction.py:91-100 | the last line among the first n that moves a token, or none |
| Borderless.IntendedColumnRule | ocirs/table_extraction/borderless_table_extraction.py:91-100 | a token's column changes only for a line it reaches, becoming its column plus that line's number plus one, the last such line winning; a token left of every line keeps its column |
| Borderless.IntendedStep | ocirs/table_extraction/borderless_table_extraction.py:91-100 | each line either moves the token or leaves the column earlier lines gave it |
| Borderless.SplitGroup | ocirs/table_extraction/borderless_table_extraction.py:92-100 | one line against one column group updates exactly that group's tokens |
| Borderless.SplitLine | ocirs/table_extraction/borderless_table_extraction.py:91-100 | one line against every group advances every token's column by that line |
| Borderless.SplitColumnsOnVertLines | ocirs/table_extraction/borderless_table_extraction.py:87-101 | the frame comes back unchanged (the write misses its target) and every token's intended column is the one the rule gives |
| Borderless.InsertKey | ocirs/table_extraction/borderless_table_extraction.py:127 | inserting a key keeps the keys sorted and adds exactly that key |
| Borderless.GroupKeys | ocirs/table_extraction/borderless_table_extraction.py:127 | groupby keys: strictly sorted on (column, row), exactly the tokens' keys |
| Borderless.SortedKeysDistinct | ocirs/table_extraction/borderless_table_extraction.py:127 | sorted keys are distinct groups |
| Borderless.MembersSpec | ocirs/table_extraction/borderless_table_extraction.py:127 | a group holds exactly the tokens with its key |
| Borderless.MembersEmpty | ocirs/table_extraction/borderless_table_extraction.py:127 | a group is empty exactly when no token has its key |
| Borderless.AggregateGroup | ocirs/table_extraction/borderless_table_extraction.py:129-140 | a group's record: first left, least top, summed width, greatest height, space-prefixed joined text, the group's key |
| Borderless.AggregateTextBoxes | ocirs/table_extraction/borderless_table_extraction.py:126-146 | one record per group, in key order, each summarising exactly its group's tokens |
| Borderless.Lookup | ocirs/table_extraction/borderless_table_extraction.py:112-119 | the `.loc` selection with `.iloc[0]`: a record at that row and column, or none exists |
| Borderless.TokenInOneCell | ocirs/table_extraction/borderless_table_extraction.py:109-120 | each token lies in exactly one grid cell, which is therefore filled |
| Borderless.AggregatedMaxima | ocirs/table_extraction/borderless_table_extraction.py:105-106 | the row and column maxima of the records equal the tokens' |
| Borderless.LookupIsGridCell | ocirs/table_extraction/borderless_table_extraction.py:112-119 | looking up the records gives the stripped text of the tokens at that position |
| Borderless.AggRow | ocirs/table_extraction/borderless_table_extraction.py:110-120 | a grid row has one cell per column, each the lookup's result |
| Borderless.GridRow | ocirs/table_extraction/borderless_table_extraction.py:110-120 | the inner loop builds that row |
| Borderless.GridRows | ocirs/table_extraction/borderless_table_extraction.py:108-120 | the outer loop builds every row |
| Borderless.GridOfAggregates | ocirs/table_extraction/borderless_table_extraction.py:108-120 | rows built from the records are the token grid |
| Borderless.TextBoxesToTable | ocirs/table_extraction/borderless_table_extraction.py:103-124 | fails (ValueError) exactly without tokens; else the grid of the placed tokens: a rectangular frame with max column + 1 columns and max row data rows, header = grid row 0, cell (i, j) = grid cell (i + 1, j) |
| Borderless.Place | ocirs/table_extraction/borderless_table_extraction.py:59-68 | every token gets its row and its column |
| Borderless.FClusterData | ocirs/table_extraction/borderless_table_extraction.py:73 | `fclusterdata` fails with ValueError exactly for fewer than two points; otherwise one cluster id per point |
| Borderless.ClusterRows | ocirs/table_extraction/borderless_table_extraction.py:53-60 | KeyError without tokens, ValueError for one token; otherwise each token's row is the position of its y-centre cluster (distance 10) among the clusters in order of first appearance |
| Borderless.ClusterColumns | ocirs/table_extraction/borderless_table_extraction.py:62-69 | KeyError without tokens, ValueError for one token; otherwise each token's column is the position of its x-centre cluster (distance 60) among the clusters in order of first appearance |
| Borderless.GetBorderlessTable | ocirs/table_extraction/borderless_table_extraction.py:6-14 | AttributeError when a confident row has no text (NaN has no strip), then KeyError when no token survives, ValueError for a single token; otherwise every surviving token is placed at the row and column its clusterings number, and the frame is the grid of those placed tokens |
| BorderedOI.Ranges | ocirs/table_extraction/bordered_table_extraction_OI.py:19-22 | n line positions give n - 1 ranges, each from one line to the next |
| BorderedOI.FirstFit | ocirs/table_extraction/bordered_table_extraction_OI.py:26-29 | the first range whose upper bound reaches the value; all earlier ones fall short; none when every range falls short |
| BorderedOI.RangeOf | ocirs/table_extraction/bordered_table_extraction_OI.py:25-31 | the first fit, or the last range: always an existing range |
| BorderedOI.RangeOfMonotone | ocirs/table_extraction/bordered_table_extraction_OI.py:25-31 | a lower edge never lands in a later range |
| BorderedOI.RangeOfIgnoresLowerBounds | ocirs/table_extraction/bordered_table_extraction_OI.py:26-27 | only the upper bounds decide the range |
| BorderedOI.TokenInsideItsRange | ocirs/table_extraction/bordered_table_extraction_OI.py:18-33 | a token between the first and last line lands in a range that contains it, whatever the line order |
| BorderedOI.AssignRows | ocirs/table_extraction/bordered_table_extraction_OI.py:18-33 | fails with UnboundLocalError exactly when there are tokens and fewer than two lines; else one row per token, the range of its bottom edge |
| BorderedOI.AssignColumns | ocirs/table_extraction/bordered_table_extraction_OI.py:35-53 | one column per token: 0 with fewer than two lines, else the range of its right edge |
| BorderedOI.GetBorderedTableOI | ocirs/table_extraction/bordered_table_extraction_OI.py:5-16 | AttributeError when a confident row has no text, then KeyError without tokens, UnboundLocalError with tokens and under two horizontal lines; otherwise the grid of the tokens placed in the row of their bottom edge and the column of their right edge (column 0 under two vertical lines) |
| TableMerge.CleanCell | ocirs/table_extraction/table_merge.py:10 | a cell becomes missing exactly when it is " ", "" or already missing; other cells are kept |
| TableMerge.CleanRow | ocirs/table_extraction/table_merge.py:10 | cells are cleaned one by one |
| TableMerge.CleanDataframe | ocirs/table_extraction/table_merge.py:7-16 | columns untouched, rows only removed |
| TableMerge.CleanDataframeRows | ocirs/table_extraction/table_merge.py:10-14 | a row survives iff it is an input row cleaned and still holds data |
| TableMerge.CleanDataframeAppend | ocirs/table_extraction/table_merge.py:14 | rows keep their order |
| TableMerge.CleanDataframeSingle | ocirs/table_extraction/table_merge.py:14 | a row is dropped iff its cleaned form has no data |
| TableMerge.CleanDataframeRectangular | ocirs/table_extraction/table_merge.py:7-16 | cleaning keeps one cell per column |
| TableMerge.CleanRowIdempotent | ocirs/table_extraction/table_merge.py:10 | cleaning a row twice changes nothing |
| TableMerge.KeptRowsClean | ocirs/table_extraction/table_merge.py:10-14 | replace-then-dropna applied twice equals once |
| TableMerge.CleanDataframeIdempotent | ocirs/table_extraction/table_merge.py:7-16 | cleaning a cleaned frame changes nothing |
| TableMerge.BestIndex | ocirs/table_extraction/table_merge.py:41-47 | `process.extract(...)[0]`: a best-scoring name, the earliest on ties |
| TableMerge.Step | ocirs/table_extraction/table_merge.py:41-51 | for a query that does not raise: a name scoring above 96 against a known name is translated to the best one; otherwise it is appended and maps to itself; other translations stay |
| TableMerge.CanonicaliseSnoc | ocirs/table_extraction/table_merge.py:37-51 | the nested loops visit names one at a time |
| TableMerge.CanonicaliseExtend | ocirs/table_extraction/table_merge.py:39-51 | one more column of a frame is one more step |
| TableMerge.StepWellFormed | ocirs/table_extraction/table_merge.py:41-51 | a step keeps every seen name translated into a canonical name, every canonical name a seen one |
| TableMerge.CanonicaliseWellFormed | ocirs/table_extraction/table_merge.py:34-51 | the finished translator is total on all headers and lands in the canonical names |
| TableMerge.CanonicaliseGrows | ocirs/table_extraction/table_merge.py:34-51 | the canonical name list only grows |
| TableMerge.CanonicaliseEmpty | ocirs/table_extraction/table_merge.py:41-44 | some name is known exactly once some name was examined |
| TableMerge.QueryRaisesAt | ocirs/table_extraction/table_merge.py:41 | the query at a position raises exactly when a name came before it and it is missing |
| TableMerge.LabelsRaiseSnoc | ocirs/table_extraction/table_merge.py:37-41 | one more name raises the loop exactly when it is missing and not the first |
| TableMerge.LabelsRaisePrefix | ocirs/table_extraction/table_merge.py:37-41 | a prefix that raises makes the whole loop raise |
| TableMerge.CanonicaliseFirst | ocirs/table_extraction/table_merge.py:41-44 | the first name seen is the first canonical name |
| TableMerge.CanonicaliseDistinct | ocirs/table_extraction/table_merge.py:41-51 | with a scorer giving 100 to identical names, no canonical name repeats |
| TableMerge.LabelsContain | ocirs/table_extraction/table_merge.py:37-39 | every header name is visited |
| TableMerge.LabelsAppend | ocirs/table_extraction/table_merge.py:37-39 | the names of two runs of frames are visited in turn |
| TableMerge.LabelsPrefix | ocirs/table_extraction/table_merge.py:37-39 | frames are visited in order |
| TableMerge.LabelsOfCleaned | ocirs/table_extraction/table_merge.py:29-39 | cleaning keeps every header name |
| TableMerge.AddColumnName | ocirs/table_extraction/table_merge.py:41-51 | the inner loop body raises TypeError exactly for a missing name once some name is known; otherwise it is one step |
| TableMerge.ExtendRaises | ocirs/table_extraction/table_merge.py:39-51 | one more header name is one more step, and raises exactly when its query does |
| TableMerge.PrefixRaises | ocirs/table_extraction/table_merge.py:39-41 | a header prefix that raises makes the header raise |
| TableMerge.AddFrameColumns | ocirs/table_extraction/table_merge.py:39-51 | the inner loop adds one frame's header, or raises TypeError exactly when a name of it after the first name overall is missing |
| TableMerge.CanonicalColumns | ocirs/table_extraction/table_merge.py:34-51 | the two loops raise TypeError exactly when some header name after the first is missing; otherwise they compute the canonical names and translator of all headers |
| TableMerge.Translate | ocirs/table_extraction/table_merge.py:60-63 | every header name is replaced by its translation, position by position |
| TableMerge.TranslateColumns | ocirs/table_extraction/table_merge.py:60-63 | the loop builds that header |
| TableMerge.AlignRow | ocirs/table_extraction/table_merge.py:68 | a row under the merged header has one cell per name, missing under names its frame lacks |
| TableMerge.AlignRowKeepsCells | ocirs/table_extraction/table_merge.py:68 | with a header free of repeats every cell lands under its own name |
| TableMerge.AlignedRows | ocirs/table_extraction/table_merge.py:68 | each row of a frame is aligned |
| TableMerge.StackedPrefix | ocirs/table_extraction/table_merge.py:56-68 | each concat appends the next frame's aligned rows |
| TableMerge.StackedShape | ocirs/table_extraction/table_merge.py:54-68 | the stack has all frames' rows, each one cell per name |
| TableMerge.RenameAll | ocirs/table_extraction/table_merge.py:56-65 | every frame gets the translated header and keeps its rows |
| TableMerge.StackFrames | ocirs/table_extraction/table_merge.py:54-70 | fails with InvalidIndexError iff a header repeats a name; else the frames are renamed and the result is their rows stacked under the canonical names |
| TableMerge.TranslatorCovers | ocirs/table_extraction/table_merge.py:34-63 | the lookup `column_translator[column]` never fails |
| TableMerge.Renamed | ocirs/table_extraction/table_merge.py:29-65 | one renamed frame per input frame |
| TableMerge.RenamedRectangular | ocirs/table_extraction/table_merge.py:29-65 | cleaned and renamed frames stay rectangular |
| TableMerge.MergeDataframes | ocirs/table_extraction/table_merge.py:20-70 | a missing header name after the first raises TypeError, leaving the frames cleaned and not renamed; otherwise the caller's frames end up cleaned and renamed; the result has the canonical names as header and every cleaned row, in input order, aligned under it; otherwise a repeated name fails with InvalidIndexError |
| BorderedLegacy.Insert | ocirs/table_extraction/bordered_table_extraction.py:234 | insertion adds exactly one element |
| BorderedLegacy.InsertOrdered | ocirs/table_extraction/bordered_table_extraction.py:234 | insertion keeps the sequence ordered on the key |
| BorderedLegacy.InsertStable | ocirs/table_extraction/bordered_table_extraction.py:234 | insertion puts the element after every element with its key, leaving their order |
| BorderedLegacy.SortBy | ocirs/table_extraction/bordered_table_extraction.py:234 | `sorted` permutes its input |
| BorderedLegacy.SortByOrdered | ocirs/table_extraction/bordered_table_extraction.py:234 | `sorted` orders on the key, ascending or in reverse |
| BorderedLegacy.SortByStable | ocirs/table_extraction/bordered_table_extraction.py:234 | `sorted` is stable: the elements of each key keep their input order, with or without reverse |
| BorderedLegacy.SortIndex | ocirs/table_extraction/bordered_table_extraction.py:220-230 | y is the key exactly for the vertical orders |
| BorderedLegacy.Paired | ocirs/table_extraction/bordered_table_extraction.py:233-234 | each contour paired with its bounding box |
| BorderedLegacy.SortContours | ocirs/table_extraction/bordered_table_extraction.py:217-236 | fails (ValueError) exactly for no contour; else two lists as long as the input |
| BorderedLegacy.SortContoursSpec | ocirs/table_extraction/bordered_table_extraction.py:217-236 | the sorted pairs are a permutation of the input pairs, each box still its contour's, ordered on the chosen coordinate, descending exactly for right-to-left and bottom-to-top |
| BorderedLegacy.Heights | ocirs/table_extraction/bordered_table_extraction.py:114 | the heights of the boxes, in order |
| BorderedLegacy.Runs | ocirs/table_extraction/bordered_table_extraction.py:131-147 | the maximal runs of consecutive boxes: none exactly for no box |
| BorderedLegacy.RunsFlatten | ocirs/table_extraction/bordered_table_extraction.py:131-147 | the runs hold every box once, in order |
| BorderedLegacy.RunsSnoc | ocirs/table_extraction/bordered_table_extraction.py:136-147 | a new box extends the open run or starts a new one |
| BorderedLegacy.RunsNonEmpty | ocirs/table_extraction/bordered_table_extraction.py:131-147 | no run is empty |
| BorderedLegacy.RunsChained | ocirs/table_extraction/bordered_table_extraction.py:137-139 | in a run every box joins the box before it, not the row's first box |
| BorderedLegacy.RunsBroken | ocirs/table_extraction/bordered_table_extraction.py:143-147 | a run's first box does not join the previous run's last box |
| BorderedLegacy.LastRunSingle | ocirs/table_extraction/bordered_table_extraction.py:141-142 | the final run is a single box iff there is one box or the last box breaks the row |
| BorderedLegacy.EmittedRowsEmpty | ocirs/table_extraction/bordered_table_extraction.py:132-147 | no row is emitted exactly for at most one box |
| BorderedLegacy.LastRowNonEmpty | ocirs/table_extraction/bordered_table_extraction.py:132-147 | the last emitted row has a box |
| BorderedLegacy.RunsTo | ocirs/table_extraction/bordered_table_extraction.py:132-147 | the runs of the first n boxes, none exactly for n = 0 |
| BorderedLegacy.RunsToPrefixStep | ocirs/table_extraction/bordered_table_extraction.py:132-147 | one more box agrees with the runs of the longer prefix |
| BorderedLegacy.RunsToPrefix | ocirs/table_extraction/bordered_table_extraction.py:132-147 | building runs box by box gives the runs of the prefix |
| BorderedLegacy.GroupRowsDone | ocirs/table_extraction/bordered_table_extraction.py:132-147 | after the loop the emitted rows are all runs but a final single-box run |
| BorderedLegacy.GroupedFirst | ocirs/table_extraction/bordered_table_extraction.py:133-135 | the first box opens the row |
| BorderedLegacy.GroupedJoin | ocirs/table_extraction/bordered_table_extraction.py:137-142 | a joining box extends the row, emitted when it is the last box |
| BorderedLegacy.GroupedBreak | ocirs/table_extraction/bordered_table_extraction.py:143-147 | a breaking box closes the row and opens another |
| BorderedLegacy.GroupRows | ocirs/table_extraction/bordered_table_extraction.py:128-147 | the loop emits exactly the runs, except a final run of one box |
| BorderedLegacy.CountCol | ocirs/table_extraction/bordered_table_extraction.py:150-153 | countcol is the length of the last row, unbound without rows (the `countcol > countcol` test never holds) |
| BorderedLegacy.Centres | ocirs/table_extraction/bordered_table_extraction.py:156-159 | one centre per box of the last row |
| BorderedLegacy.CentresSpec | ocirs/table_extraction/bordered_table_extraction.py:156-159 | the centres are the truncated midpoints, with multiplicity, sorted ascending |
| BorderedLegacy.Distance | ocirs/table_extraction/bordered_table_extraction.py:168 | distances are non-negative |
| BorderedLegacy.Nearest | ocirs/table_extraction/bordered_table_extraction.py:168-170 | the first of the centres nearest to the box's quarter point |
| BorderedLegacy.Buckets | ocirs/table_extraction/bordered_table_extraction.py:163-172 | countcol buckets, bucket k holding in row order the boxes nearest centre k |
| BorderedLegacy.BucketsPlaceEveryBox | ocirs/table_extraction/bordered_table_extraction.py:167-171 | every box is in exactly the bucket of its nearest centre |
| BorderedLegacy.BucketRow | ocirs/table_extraction/bordered_table_extraction.py:164-171 | the loop builds one row's buckets |
| BorderedLegacy.FinalBoxes | ocirs/table_extraction/bordered_table_extraction.py:162-172 | one bucket list per row, against the last row's centres |
| BorderedLegacy.BucketRows | ocirs/table_extraction/bordered_table_extraction.py:162-172 | the loop builds every row's buckets |
| BorderedLegacy.CellText | ocirs/table_extraction/bordered_table_extraction.py:185-206 | an empty bucket reads " ", any other bucket a stripped text |
| BorderedLegacy.CellRow | ocirs/table_extraction/bordered_table_extraction.py:184-206 | one text per bucket |
| BorderedLegacy.CellGrid | ocirs/table_extraction/bordered_table_extraction.py:182-206 | one text row per bucket row |
| BorderedLegacy.ReadBucket | ocirs/table_extraction/bordered_table_extraction.py:190-205 | the readings of a bucket's boxes, each prefixed by one space, a second reading replacing an empty first one |
| BorderedLegacy.AppendRowCells | ocirs/table_extraction/bordered_table_extraction.py:184-206 | a row's texts are appended to outer |
| BorderedLegacy.OuterCells | ocirs/table_extraction/bordered_table_extraction.py:182-206 | outer is the grid of texts flattened row after row |
| BorderedLegacy.Reshape | ocirs/table_extraction/bordered_table_extraction.py:209-210 | rows lines of cols cells |
| BorderedLegacy.ReshapeFlatten | ocirs/table_extraction/bordered_table_extraction.py:209-210 | reshaping the flattened grid gives the grid back |
| BorderedLegacy.KeepCells | ocirs/table_extraction/bordered_table_extraction.py:118-124 | the boxes under 1000 wide and 500 high, in sorted order |
| BorderedLegacy.GridOfRows | ocirs/table_extraction/bordered_table_extraction.py:156-210 | the grid of every row's bucket texts, one line per row, countcol cells each |
| BorderedLegacy.GridOfFails | ocirs/table_extraction/bordered_table_extraction.py:114-210 | fails exactly when at most one box is a cell: UnboundLocalError for none, IndexError for one |
| BorderedLegacy.RowsGridShape | ocirs/table_extraction/bordered_table_extraction.py:156-210 | one line per row, one cell per box of the last row, each the text of that row's bucket |
| BorderedLegacy.GridOfRowsOf | ocirs/table_extraction/bordered_table_extraction.py:114-147 | the grid depends on the boxes only through the kept boxes and their rows |
| BorderedLegacy.GridFromRows | ocirs/table_extraction/bordered_table_extraction.py:150-210 | the code after the grouping computes the grid of the rows |
| BorderedLegacy.GridOfBoxes | ocirs/table_extraction/bordered_table_extraction.py:114-210 | the code after the sort computes the grid of the sorted boxes |
| BorderedLegacy.BorderedGrid | ocirs/table_extraction/bordered_table_extraction.py:108-213 | ValueError without contours; else the grid of the boxes sorted top to bottom |
| Validation.ValidateSavePath | ocirs/validation_utils.py:6-9 | passes iff the path is a directory, else Exception |
| Validation.ValidateSaveType | ocirs/validation_utils.py:11-14 | passes iff "csv" or "pickle", else ValueError |
| Validation.ValidateListLength | ocirs/validation_utils.py:19-21 | passes iff the lists have one length, else Exception |
| Validation.ValidateExtractTablesSettings | ocirs/validation_utils.py:26-38 | TypeError for a non-bool flag, then ValueError for an unknown table type, then Exception for "detect" without CascadeTabNet |
| Validation.SettingsAccepted | ocirs/validation_utils.py:26-38 | exactly a bool with "bordered"/"borderless", or True with "detect", pass |
| Validation.DetectNeedsCascadeTabNet | ocirs/validation_utils.py:36-38 | "detect" is refused iff the detector is off |
| Validation.ValidateFormComponent | ocirs/validation_utils.py:43-47 | passes iff the component is valid, else Exception |
| Validation.ValidatePageAttribute | ocirs/validation_utils.py:49-53 | passes iff the object has a pages attribute, else AttributeError |
| Pages.Values | ocirs/nineninetypage.py:181-188 | the values of the readable rows, never more than the rows |
| Pages.PageText | ocirs/nineninetypage.py:170-199 | the page text has no whitespace at its ends |
| Pages.PageTextIgnoresUnreadable | ocirs/nineninetypage.py:181 | a row with confidence -1 contributes nothing wherever it sits |
| Pages.JoinWordsTrimmed | ocirs/nineninetypage.py:186-197 | trimmed words join to a trimmed string |
| Pages.StitchedWords | ocirs/nineninetypage.py:186-194 | trimmed words stitch to their space-join plus one space |
| Pages.PageTextJoinsWords | ocirs/nineninetypage.py:170-199 | when every value is a trimmed word, the page text is the words separated by single spaces |
| Pages.StitchedBlank | ocirs/nineninetypage.py:190-192 | whitespace values stitch to whitespace |
| Pages.BlankPageHasNoText | ocirs/nineninetypage.py:186-199 | a page of whitespace values has empty text |
| Pages.IntOf | ocirs/nineninetypage.py:35 | `int()` keeps an int and refuses None |
| Pages.InitIndex | ocirs/nineninetypage.py:35 | the stored index is accepted by the setter; a truthy index becomes an int; a falsy one is kept and succeeds iff it is not a string |
| Pages.InitIndexOfInt | ocirs/nineninetypage.py:35 | an int index is stored as it is, 0 included |
| Pages.InitIndexOfDigits | ocirs/nineninetypage.py:35 | the index str(i) is stored as the int i |
| Pages.InitIndexOfEmptyString | ocirs/nineninetypage.py:35 | the empty string reaches the setter as it is and is refused |
| Pages.ExtractTablesCheck | ocirs/nineninetypage.py:243-249 | passing settings are a bool flag and a known table type |
| Pages.ExtractTablesCheckSpec | ocirs/nineninetypage.py:243-249 | any method but "custom" is refused with ValueError; extraction goes ahead iff "custom" with accepted settings |
| Pages.NineNinetyPage.constructor | ocirs/nineninetypage.py:29-37 | the page holds the given paths, parent, index and OCR frame, with no tables yet |
| Pages.NineNinetyPage.SetIndex | ocirs/nineninetypage.py:112-121 | the index is updated iff it is an int, bool or None; otherwise TypeError and no change |
| Pages.NineNinetyPage.OcrDataframeToText | ocirs/nineninetypage.py:170-199 | the loop computes the page text |
| Pages.NineNinetyPage.ExtractTables | ocirs/nineninetypage.py:201-259 | refused settings raise the check's error and store nothing; accepted ones return what the extraction gives, storing its tables only when it does not raise |
| Pages.NewPage | ocirs/nineninetypage.py:29-74 | FileNotFoundError for a missing image or a non-empty data path that is no file; then the index conversion's error; otherwise a fresh page with the given fields, whose parent getter gives back the given parent |
| Pages.ParentGetterCounterexample | ocirs/nineninetypage.py:76-80 | a page with a parent form and no data file whose getter as written answers None |
| Forms.ComponentsHavePhrases | ocirs/nineninetyform.py:30-113 | every valid form type lists components, and every valid component has search phrases |
| Forms.NormaliseFormType | ocirs/nineninetyform.py:119 | "990-PF" becomes "990PF", anything else is kept |
| Forms.FormTypeOf | ocirs/nineninetyform.py:166-177 | the setter succeeds iff str(value) is a valid form type, else ValueError |
| Forms.IntFormType | ocirs/nineninetyform.py:172-173 | an int form type is accepted exactly for 990 |
| Forms.FormTypeAccepted | ocirs/nineninetyform.py:166-177 | the accepted values are exactly "990", "990PF" and the int 990 |
| Forms.NormalisedFormTypeAccepted | ocirs/nineninetyform.py:119-177 | at construction "990-PF" is accepted too and stored as "990PF" |
| Forms.SetterRefusesHyphenated | ocirs/nineninetyform.py:166-177 | the setter alone refuses "990-PF" |
| Forms.FileName | ocirs/nineninetyform.py:149 | the path's last component: a suffix of the path without "/" |
| Forms.RFind | ocirs/nineninetyform.py:149 | the last position of the character, or -1 |
| Forms.PdfSuffix | ocirs/nineninetyform.py:149 | the suffix is ".pdf" iff the name ends in ".pdf" after something else |
| Forms.PdfPathCheck | ocirs/nineninetyform.py:141-158 | ValueError for another suffix, then FileNotFoundError for a missing file; passes iff ".pdf" and a file |
| Forms.FormHasPagesAttribute | ocirs/nineninetyform.py:115-123 | the page-attribute check always passes on a form |
| Forms.PhraseDetectedAppend | ocirs/nineninetyform.py:468-474 | a phrase of a + b is detected iff one of a or one of b is |
| Forms.PhraseDetectedIgnoresCase | ocirs/nineninetyform.py:470 | matching does not depend on the text's case |
| Forms.MatchingPages | ocirs/nineninetyform.py:372-376 | the matching pages, never more than the pages |
| Forms.MatchingPagesMembers | ocirs/nineninetyform.py:372-376 | a page is found iff it is a page whose text mentions a phrase |
| Forms.MatchingPagesStep | ocirs/nineninetyform.py:372-376 | each page is added iff it mentions a phrase |
| Forms.MatchingPagesAppend | ocirs/nineninetyform.py:372-376 | the search of a + b is that of a followed by that of b |
| Forms.SearchResult | ocirs/nineninetyform.py:340-380 | found pages are pages of the form |
| Forms.FirstFailure | ocirs/nineninetyform.py:431-436 | the position of the first page whose extraction raises: every earlier page's extraction succeeds, that one raises, or every page succeeds |
| Forms.FirstFailureIs | ocirs/nineninetyform.py:431-436 | those facts determine the position |
| Forms.PageFramesFirstFailure | ocirs/nineninetyform.py:431-436 | the loop fails exactly when some page's extraction raises, with the first such page's error |
| Forms.PageFramesAppend | ocirs/nineninetyform.py:431-436 | the tables of two runs of pages concatenate, unless a run raises, the first run first |
| Forms.PageFramesRectangular | ocirs/nineninetyform.py:431-436 | all collected tables are rectangular when the extractor's are |
| Forms.StoppedAt | ocirs/nineninetyform.py:429-436 | a loop stopped at page k stores the pages before k and fails with the error that stopped it |
| Forms.WorkedAll | ocirs/nineninetyform.py:429-436 | a loop that ran over every page stores them all |
| Forms.TablesOf | ocirs/nineninetyform.py:429-436 | no pages give no tables; otherwise refused settings raise at the first page, and accepted ones give the pages' tables up to the first raising extraction; collected tables are rectangular |
| Forms.MergedOnlyWhenAsked | ocirs/nineninetyform.py:439-442 | a result is merged exactly when merge was asked |
| Forms.NoPagesNoTables | ocirs/nineninetyform.py:422-442 | no pages give the empty list, or the empty merged table, whatever the settings |
| Forms.RefusedSettingsFail | ocirs/nineninetyform.py:431-436 | with a page, refused settings raise the check's error |
| Forms.FailingPageFails | ocirs/nineninetyform.py:431-436 | with accepted settings, the first page whose extraction raises makes the whole call fail with its error |
| Forms.NineNinetyForm.constructor | ocirs/nineninetyform.py:115-123 | a form with the given fields, no components and no pages |
| Forms.NineNinetyForm.SetFormType | ocirs/nineninetyform.py:166-177 | the form type is updated iff accepted, else ValueError and no change; validity kept |
| Forms.NineNinetyForm.SetPdfFilePath | ocirs/nineninetyform.py:141-158 | the path is updated iff the check passes |
| Forms.NineNinetyForm.StorePages | ocirs/nineninetyform.py:265-268 | the pages are stored; nothing else changes |
| Forms.NineNinetyForm.PhraseMatch | ocirs/nineninetyform.py:444-476 | true iff some lowercased phrase nearly matches the lowercased text |
| Forms.NineNinetyForm.MatchPages | ocirs/nineninetyform.py:372-376 | the loop finds exactly the matching pages, in order |
| Forms.NineNinetyForm.SearchForm | ocirs/nineninetyform.py:340-380 | Exception for an unknown component, TypeError without pages, else the matching pages, stored under the component |
| Forms.NineNinetyForm.ExtractPageTables | ocirs/nineninetyform.py:431-433 | one page's extract_tables: refused settings raise and store nothing; otherwise the page's extraction result is returned, and the page is stored exactly when it does not raise |
| Forms.NineNinetyForm.CollectTables | ocirs/nineninetyform.py:429-436 | the loop's result is TablesOf; no page index changes, the pages before the first raising one hold their extracted tables, and every other page keeps its tables (all of them when the settings are refused) |
| Forms.NineNinetyForm.ComponentPages | ocirs/nineninetyform.py:417-420 | stored pages are reused, else the search runs and stores its result |
| Forms.NineNinetyForm.TablesFromPages | ocirs/nineninetyform.py:421-442 | the search's error, or the tables of the pages, merged when asked; the pages stored are those before the first raising extraction, and no other page changes (the merge's in-place edits of those tables are not modelled) |
| Forms.NineNinetyForm.ExtractComponentTables | ocirs/nineninetyform.py:382-442 | the tables of the stored or searched pages, merged when asked; only a first search changes the components, and the pages' stored tables change as CollectTables says, up to the first raising extraction (the merge's in-place edits of those tables are not modelled) |
| Forms.NewForm | ocirs/nineninetyform.py:115-123 | the path check first, then the normalised form type; a fresh valid form with the given fields, no components and no pages |

## Left out

- OCR, image handling and the file system.
  - Tesseract, cv2, pdf2image and the line detector become parameters or results given to the model.
  - So do scipy's clustering, fuzzywuzzy's scorer and fuzzysearch's `find_near_matches`.
  - `is_file`/`is_dir` are parameters too.
- `extract_pages` and `load_pages` (ocirs/nineninetyform.py:189-337) are I/O from start to finish.
  - Converting the pdf, temporary files, OCR, writing csv/pickle files and progress bars are left out.
  - Only their last step, storing the pages, is modelled (`StorePages`).
- Pages.NewPage: the OCR frame is given.
  - Running Tesseract, or reading a csv/pickle data file (chosen by its suffix), is not modelled.
- The image and data-path setters are modelled through NewPage only.
  - `pathlib.Path`'s normalisation (trailing slashes, `..`) is not modelled; a path is its string.
- Forms.FileName and Forms.PdfPathCheck treat the pdf path as its string, without `pathlib` normalisation.
  - So "forms/x.pdf/" has the empty name and is refused, where `Path("forms/x.pdf/").suffix` is ".pdf".
- TableMerge.MergeDataframes: frames are values, so aliasing is not modelled.
  - The in-place cleaning and renaming are returned as the frames the caller holds afterwards.
  - A frame listed twice, or the page's `tables` attribute sharing that frame, is not updated.
- Forms.NineNinetyForm.TablesFromPages and Forms.NineNinetyForm.ExtractComponentTables: with `merge` set, the pages' stored tables are the frames `merge_dataframes` cleans and renames in place.
  - The model's pages keep the frames as extracted, unchanged by the merge.
- TableMerge.QueryRaises: the TypeError rests on fuzzywuzzy's `process.extract`, which is not part of this model.
  - With no choices, it returns before processing anything.
  - Otherwise it runs the default processor's regular expression over the query, which refuses None.
  - A None among the choices is turned into the string "None" first, and the scorer parameter scores it.
- TableMerge.StackFrames: pandas' refusal to concatenate is approximated.
  - A repeated column name in a header or in the canonical names is modelled as InvalidIndexError.
  - pandas' dtype handling and its treatment of NaN labels are not modelled.
- Borderless.SplitColumnsOnVertLines: the returned frame is the input.
  - The misaddressed `.loc['column', row.name]` write adds a row labelled "column" and a column labelled by row.name; neither is modelled.
  - The intended columns are stated instead.
- The borderless and bordered frames keep the text as strings.
  - pandas' numeric parsing of the OCR columns is not modelled.
- Pages.IntOf: a string index is converted as an optional sign and ASCII decimal digits, with surrounding whitespace stripped.
  - `int()`'s acceptance of underscores between digits (`int("1_0") == 10`) and of non-ASCII decimal digits is not modelled.
- PyStr.Lower: only ASCII case folding is modelled.
- `float`-valued geometry is exact.
  - Mean heights and quarter points are Dafny reals, not IEEE doubles.
- Forms.ValidFormComponents: the class dictionaries are constants.
  - Editing them at run time is not modelled, nor are the components' descriptions.
- Forms.PhraseMatch: the fuzzy matcher is abstract.
  - Levenshtein matching and `max_l_dist` are passed through to it uninterpreted.
- `print` warnings and progress output are not modelled.
- `get_bordered_table` (legacy) builds its grid only from the sorted contours.
  - The morphology before `findContours` and the cell cropping before OCR are an OCR parameter.
  - The DataFrame with default integer labels is the grid of strings.
- The theorem that stitching appended readable values concatenates their stitched texts is not stated.
  - PageTextIgnoresUnreadable covers removing unreadable rows.
- `table_extraction.extract_tables`, the CascadeTabNet detector and `image_utils`: these modules are not part of this model.
  - The extractor is a parameter of `ExtractTables` that returns tables or raises.
  - Among its errors are the missing-CascadeTabNet Exception and the errors of `get_bordered_table_OI` and `get_borderless_table`, which the model of those functions proves.
  - Which error it raises for which page is not tied to those models.

## Behaviour of the code worth knowing

- `merge_dataframes` reassigns a name's translation on every occurrence of the name (ocirs/table_extraction/table_merge.py:41-51); the last occurrence decides.
- The open-intelligence `assign_rows` never reads the lower bound of a range (ocirs/table_extraction/bordered_table_extraction_OI.py:26-27).
- That `assign_rows` reads its loop variable `index` unbound when there are tokens and fewer than two lines, raising UnboundLocalError (ocirs/table_extraction/bordered_table_extraction_OI.py:25-31).

## Findings

| source | as written | input that shows it | evidently intended | confidence | as-written member | corrected member |
|---|---|---|---|---|---|---|
| ocirs/nineninetypage.py:76-80 | the `parent_nineninetyform` getter returns `self._data_path` | a page built with a parent form and no data path: the getter answers None | return the parent form stored by the setter | high (not executed) | Pages.ParentGetterCounterexample | Pages.NineNinetyPage.ParentNineNinetyForm |

`Pages.NineNinetyPage.ParentAsWritten` is the getter as written. `ParentGetterCounterexample` builds the page that exposes it.

`Pages.NineNinetyPage.ParentNineNinetyForm` returns the stored parent, and `Pages.NewPage` proves that it gives back the parent the page was built with. The rest of the model uses this corrected getter.
