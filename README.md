# IB exam results: from report text to one consolidated table

This project models the core of a small application that reads International
Baccalaureate result reports (PDFs) and consolidates them into one table per
candidate. There are four kinds of report:

- the student-level "Results summary";
- the standard "Subject Results" report;
- the Extended Essay report;
- the Theory of Knowledge report.

The application first tells the kinds apart by a header on the first page.
Then each handler parses its pages into records and reformats them into
columns. Next, every subject-level frame is left-joined into the student-level
frame, and its columns fill the student-level ones. Finally, two reports
built from the merged frame are joined on the candidate key:

- a subject pivot;
- an overall table with a diploma result code.

A PDF is given to the model as the text of its pages, with `""` for a page
that has no text. A table is a set of column names plus a list of rows (the
order of a frame's columns is not modelled; see "Left out"). Each
row is a `map<string, Option<string>>`, and `None` stands for pandas' null.
Every Python exception that ends a run is a `Failure` value, and
`consolidate_data` turns any failure into `(None, None)`, here `None`. Each
fixed regular expression is written out as the match Python's `re` finds:
leftmost start, greedy runs that give characters back, lazy prefixes as short
as possible.

Modules, one per part of the program:

- `Classifier`: `detect_file_type`.
- `SummaryHandler`: parsing and `reformat_results` of the summary handler.
- `SubjectHandler`: the subject-level handler.
- `Patterns`: the fixed regular expressions.
- `Merge`: `merge_ib_results`, the merge steps and the consolidator's loop.
- `Pivot`: `reformat_results_sub`.
- `Overall`: `reformat_results_overall`.
- `Reshape`: keys, group-by first and the report type.
- `Consolidate`: `IBResultProcessor` and `consolidate_data`.
- `Tables`: frames, `json_normalize` and the failures.
- `Text`: the Python string operations used.
- `Wrappers` and `Sorting`: generic folds, sorting and orders.

Where the code runs a loop, the model is a method with that loop, proved
equal to a specification function, and the lemmas state what the source
promises about that function. There is one exception. The loop of the summary
handler's `reformat_results` over the two keywords "ee" and "tk"
(`ib_result_handler_summary.py:140-151`) runs exactly twice. It is unrolled
into two calls of `SummaryHandler.WordColumns` inside the function
`Reformatted`.

The summary handler parses `session_number` and `personal_code` from the
part of `candidate` after `" - "` (`ib_result_handler_summary.py:116-124`).
The subject handler parses them from the part before it
(`ib_result_handler_subject.py:149-151`). The model follows both.

## Model

| member | source | states |
|---|---|---|
| Classifier.FirstMarker | app.py:77-81 | the answer is the first marker, in search order, that occurs in the text; it is None exactly when no marker occurs |
| Classifier.DetectFileType | app.py:69-84 | None without pages; otherwise a marker that occurs on the first page, namely the first one in search order (`Classify`) |
| Classifier.FirstMarkerAt | app.py:77-79 | a marker that occurs, with no earlier marker occurring, is the answer |
| Classifier.ClassifyPriority | app.py:26-31 | a marker on the first page wins over every later marker: the answer is that marker or one tried before it |
| Classifier.ExtendedEssayBeforeSubjectResults | app.py:26-31 | an Extended Essay page that also says "Subject Results" is classified as Extended Essay |
| Classifier.TheoryOfKnowledgeBeforeSubjectResults | app.py:26-31 | a Theory of Knowledge page that also says "Subject Results" is classified as Theory of Knowledge |
| Classifier.UnclassifiedWithoutMarker | app.py:73-81 | no pages, or no marker on the first page, gives None |
| Consolidate.Processor.constructor | app.py:54-56 | every file type has an entry and no file is recorded |
| Consolidate.Processor.ProcessUploadedFile | app.py:86-105 | returns the detected type; a detected file replaces the entry of its type and nothing else; an undetected file changes nothing; every type keeps an entry |
| Consolidate.Processor.ConsolidateData | app.py:107-186 | with an entry for every file type, as the constructor sets up and every upload keeps, the result is `Consolidation` of the recorded files, whose properties the lemmas below state |
| Consolidate.TurnFailures | app.py:138-161 | with an entry for every file type, a turn of the loop never fails on a missing entry, only in reading or merging the recorded file |
| Consolidate.MergedFailures | app.py:136-165 | with an entry for every file type, the merge loop fails only in reading or merging a recorded file |
| Consolidate.MergeSubjectFiles | app.py:135-165 | the loop over the three subject-level types ends with the frames of `Merged`, or with the first failure |
| Consolidate.MergeFile | app.py:139-163 | one turn: an absent file changes nothing; a recorded file is extracted, reformatted and merged by the step of its type, and the merge becomes both df_main and df_merged |
| Consolidate.BuildReport | app.py:172-176 | None unless df_merged is bound; otherwise df_merged with the outer join of its two reports, and None if any of them fails |
| Consolidate.OuterJoin | app.py:174 | fails exactly when the two reports share a column, naming one such column |
| Consolidate.OuterJoinRows | app.py:174 | the join is well formed; its columns are the subject report's, then the overall report's; it has a row for exactly the candidates of either report |
| Consolidate.OuterJoinCell | app.py:174 | each cell is the same candidate's cell in the report that owns the column, and null where that report has no row for the candidate |
| Consolidate.SubjectKeysInOverall | app.py:172-174 | every candidate of the subject report has a row in the overall report of the same frame |
| Consolidate.ConsolidationFromSummary | app.py:117-131 | once the student-level frame is read, the result is decided by the merge loop and the reports |
| Consolidate.MergedFailureSticks | app.py:184-186 | a failed turn ends the merge loop with that failure |
| Consolidate.MergedFrames | app.py:136-163 | after n good turns, df_merged is bound exactly when a file is recorded for one of the first n types; df_main then equals df_merged, and otherwise it is still the student-level frame |
| Consolidate.AbsentFileSkipped | app.py:139-140 | a turn for a type without a recorded file leaves the frames unchanged |
| Consolidate.MergeTurnMerges | app.py:148-163 | a turn whose file merges cleanly sets both df_main and df_merged to the merge |
| Consolidate.MergeOrder | app.py:136-163 | with all three files recorded, they are merged in the order Subject Results, Extended Essay, Theory of Knowledge, each into the previous output |
| Consolidate.SubjectFileOrder | app.py:19-24 | the loop visits Subject Results, Extended Essay, Theory of Knowledge, in that order |
| Consolidate.MergedStart | app.py:130-135 | before any turn the loop holds the student-level frame and no df_merged |
| Consolidate.MergedTurn | app.py:155-163 | a recorded file whose frame merges cleanly into the frame so far makes the merge the new df_main and df_merged |
| Consolidate.NoSummaryNoResult | app.py:117-120 | without a recorded summary the result is None |
| Consolidate.NoSubjectFileNoResult | app.py:155-186 | without any subject-level file df_merged is never bound, and the result is None |
| Consolidate.NoSubjectFileNoMerge | app.py:136-165 | without any subject-level file the merge loop binds no df_merged |
| Consolidate.ConsolidationResult | app.py:107-186 | a successful consolidation had a summary and a subject-level file; its frame is the merge loop's; its report is well formed, has the subject columns then the overall columns, and has the overall report's candidates in the same order |
| Consolidate.FromSummaryResult | app.py:135-176 | the same from the student-level frame on |
| Consolidate.ReportedResult | app.py:172-176 | the report of a bound df_merged is the join of its two reports, with the overall report's rows |
| Merge.SubjectPath | ib_result_consolidator.py:74-75 | the path is the stem "exam_results_subject_", then the substring, then ".csv" |
| Merge.SubjectPathNames | ib_result_consolidator.py:17 | the empty substring names the base path, and different substrings name different files |
| Merge.Select | ib_result_consolidator.py:80-81 | fails exactly when a listed column is missing, naming it; otherwise each row is cut down to exactly the listed columns |
| Merge.RenameRecord | ib_result_consolidator.py:82-83 | the renamed column's cell moves to the new name and every other cell is kept; with no map, or the column absent, the row is unchanged |
| Merge.Rename | ib_result_consolidator.py:82-83 | every row is renamed and the frame stays well formed |
| Merge.FirstClash | ib_result_consolidator.py:84 | None exactly when no two right columns share a joined name and no joined name is already a left column (the second is stricter than pandas; see "Left out") |
| Merge.MatchIndices | ib_result_consolidator.py:84 | the positions of the right rows that agree with the left row on every key (null matching null): each such position once, in increasing order, and no other |
| Merge.Matches | ib_result_consolidator.py:84 | every row returned is a right row that matches, and every matching right row is returned |
| Merge.MatchesInOrder | ib_result_consolidator.py:84 | the matches are exactly the right rows at the matching positions, in order, so a repeated right row appears once per position it holds |
| Merge.JoinRow | ib_result_consolidator.py:84 | a joined row has the left row's columns and the right columns under their joined names |
| Merge.JoinRowKeepsLeft | ib_result_consolidator.py:84 | without a name clash, the joined row keeps every left cell |
| Merge.JoinRowHoldsRight | ib_result_consolidator.py:84 | without a name clash, each right cell sits under its joined name, null when there is no match |
| Merge.JoinBlock | ib_result_consolidator.py:84 | a left row yields one row per match, or a single row with nulls when nothing matches |
| Merge.LeftJoin | ib_result_consolidator.py:84 | fails exactly on a missing key column or a clash of joined names, as `FirstClash` defines it; its columns are the left columns plus the joined names; its rows are the blocks of the left rows, in order |
| Merge.CombineFirst | ib_result_consolidator.py:89 | the first value unless it is null, then the second; null only when both are |
| Merge.CombineRecord | ib_result_consolidator.py:89-90 | the target becomes target_new, or the old target where target_new is null; target_new is dropped; every other cell is kept |
| Merge.CombineColumn | ib_result_consolidator.py:89-90 | the same on every row of the frame |
| Merge.CombineTargets | ib_result_consolidator.py:86-90 | the fill loop keeps the row count and well-formedness, and fills each row with `CombineRow` |
| Merge.CombineRowFill | ib_result_consolidator.py:84-90 | joining a primary row and then filling the targets gives `FillRow`: each target is the secondary value where non-null, else the primary value |
| Merge.FillBlock | ib_result_consolidator.py:84-90 | a primary row yields one filled row per match, or one filled from nothing |
| Merge.JoinRowsFill | ib_result_consolidator.py:84-90 | the joined rows, each filled, are the filled rows of the primary |
| Merge.Picked | ib_result_consolidator.py:79-83 | fails exactly when a key or merge column is missing; otherwise it keeps the secondary's row count |
| Merge.MergeFrames | ib_result_consolidator.py:80-91 | fails only on a missing column or a clash of joined names, and fails on a clash only when the picking succeeded |
| Merge.MergeFramesFill | ib_result_consolidator.py:84-91 | the merge of a well-formed primary is well formed, has the primary's columns plus the targets, and its rows are the primary's rows filled from their matches |
| Merge.ConfiguredStepsWellShaped | ib_result_consolidator.py:33-52 | each configured step picks distinct columns after the rename and leaves the key columns alone |
| Merge.AppStepsWellShaped | app.py:33-52 | the same for the application's steps |
| Merge.PickedColumns | ib_result_consolidator.py:80-83 | a well-shaped step picks exactly the key columns and the targets |
| Merge.PickedTarget | ib_result_consolidator.py:80-83 | each target of the picked frame holds the cell of its merge column |
| Merge.RenamedTarget | ib_result_consolidator.py:82-83 | renaming a row of the step's columns moves each merge column to its target |
| Merge.PickedKey | ib_result_consolidator.py:80-83 | the key cells of the picked frame are the secondary's |
| Merge.MergeOneMatch | ib_result_consolidator.py:86-90 | when each primary row has one match, a target is the secondary value where non-null, else the primary value; every other primary cell is unchanged |
| Merge.MergeNoMatch | ib_result_consolidator.py:84-90 | when nothing matches, every row keeps its cells and the targets it lacked are null |
| Merge.FillRowsBlock | ib_result_consolidator.py:84-90 | the filled rows number `JoinedCount`, and each primary row's fill block sits right after the blocks of the rows before it |
| Merge.MergeRowCount | ib_result_consolidator.py:84-90 | the merge has exactly one row per match of each primary row, and one for a primary row without a match; primary row k yields a run of consecutive rows, right after the runs of the rows before it, and that run is its fill block: one row per match, in the secondary's order, each target filled from the match |
| Merge.MergeFromFiles | ib_result_consolidator.py:74-91 | fails with the missing path exactly when the step's file is absent; otherwise it merges that file's frame |
| Merge.MergeIbResults | ib_result_consolidator.py:57-91 | reads the step's file, then selects, renames, joins and fills: `MergeFromFiles` |
| Merge.MergeInto | app.py:148-161 | the selection, rename, join and fill loop compute `MergeFrames` |
| Merge.RunStepsFailureSticks | ib_result_consolidator.py:102-109 | a failed step ends the run with its error |
| Merge.RunMergeSteps | ib_result_consolidator.py:101-109 | the loop runs the configured steps in order, each on the previous output |
| Merge.RunStepsColumns | ib_result_consolidator.py:102-109 | a successful run is well formed and adds exactly the steps' targets to the columns |
| Merge.ConsolidatorColumns | ib_result_consolidator.py:33-52 | the consolidator adds pg, scaled_total, ee_pg and tk_pg; step 1 has no rename, so pg lands beside PG |
| Merge.ConsolidatorTargets | ib_result_consolidator.py:33-52 | the targets of the configured steps are pg, scaled_total, ee_pg and tk_pg |
| Merge.ConsolidatorNeedsSubjectFile | ib_result_consolidator.py:74-79 | without the standard subject file the run stops at step 1 with a missing-file error |
| SummaryHandler.TopFieldsAt | ib_result_handler_summary.py:60-61 | a key that no later entry repeats holds the value looked up for its label |
| SummaryHandler.TopFieldsKeys | ib_result_handler_summary.py:60-61 | the page-level record has exactly the keys of the field list |
| SummaryHandler.TopRecord | ib_result_handler_summary.py:56-61 | the page-level record has exactly the keys of the field map |
| SummaryHandler.TopRecordValues | ib_result_handler_summary.py:60-61 | each page-level field holds the value found after its own label |
| SummaryHandler.BlockEntriesFromLines | ib_result_handler_summary.py:75-79 | every entry is the grade and subject of one line of the block |
| SummaryHandler.BlockRecordsAreEntries | ib_result_handler_summary.py:76-80 | the block's records are the page-level record with each entry filled in, in line order |
| SummaryHandler.SubjectRecordShape | ib_result_handler_summary.py:77-79 | a subject record keeps every page-level key and value except grade and subject, which hold the line's two parts |
| SummaryHandler.PageBlock | ib_result_handler_summary.py:65-74 | every line scanned is a line of the page |
| SummaryHandler.CollectTopFields | ib_result_handler_summary.py:59-61 | the field loop builds the page-level record |
| SummaryHandler.ScanBlock | ib_result_handler_summary.py:71-80 | one record per line with a grade and a subject, from the start line up to the first "EE/TOK points:" line |
| SummaryHandler.CleanLineStripped | ib_result_handler_summary.py:54 | every scanned line is non-blank and its own strip, so the blank-line stop never fires |
| SummaryHandler.FindGradeLine | ib_result_handler_summary.py:68-69 | finds the first line that starts with "Grade", or the end |
| SummaryHandler.ParsePage | ib_result_handler_summary.py:49-89 | the page's records are `PageRecords`, whose properties the lemmas below state |
| SummaryHandler.BlockRecordShape | ib_result_handler_summary.py:75-80 | each record keeps the page-level cells, and its grade and subject come from one line of the block |
| SummaryHandler.PageRecordKeys | ib_result_handler_summary.py:60-80 | every record of a page has exactly the keys of the field map |
| SummaryHandler.PageRecordTopValues | ib_result_handler_summary.py:60-79 | every record holds, in each of the eight page-level fields, the value found after that label on the page, so the records of a page agree there |
| SummaryHandler.PageRecordFromLine | ib_result_handler_summary.py:75-79 | each record's grade and subject are the two parts of one of the page's lines |
| SummaryHandler.NoGradeLineNoRecords | ib_result_handler_summary.py:65-69 | with no line starting "Grade" a page yields no record |
| SummaryHandler.BlockEntriesEveryLine | ib_result_handler_summary.py:72-80 | when every line has a grade and a subject, there is one entry per line, in order |
| SummaryHandler.SingleTokenLineSkipped | ib_result_handler_summary.py:75-76 | a line made of one token adds no entry |
| SummaryHandler.ExtractResults | ib_result_handler_summary.py:92-110 | the frame is the normalisation of every page's records in order, pages without text skipped, and it is well formed |
| SummaryHandler.SubjectAfterDash | ib_result_handler_summary.py:115 | the text after the first " - ", null without one |
| SummaryHandler.LevelColumns | ib_result_handler_summary.py:121-128 | subject_ and sub are both set, sub stripped and starting with SL/HL/EE/TK, or both null when no whole-word level token occurs |
| SummaryHandler.WordColumns | ib_result_handler_summary.py:140-150 | ee_sub/tk_sub is the text before `\s<a>+<b>\b`; ee_fg/tk_fg is the grade where the subject contains the word in any case, and always so where the sub matched |
| SummaryHandler.ReformatRecordKeys | ib_result_handler_summary.py:112-154 | every other column is kept and the seventeen written ones are added |
| SummaryHandler.ReformatRecordSubject | ib_result_handler_summary.py:115 | the new subject is the text after the first " - ", null exactly when there is none |
| SummaryHandler.ReformatRecordCandidate | ib_result_handler_summary.py:116-124 | session and candidate are the two sides of the first " - " of the old candidate; session_number and personal_code are both null or the parse of the new candidate |
| SummaryHandler.ReformatRecordLevel | ib_result_handler_summary.py:121-128 | subject_ and sub are set together, sub starting with a level token; when they are null, the subject has no whole-word level token |
| SummaryHandler.ReformatRecordGrades | ib_result_handler_summary.py:131-151 | FG is the grade; uni_pg, PG, scaled_total, ee_pg and tk_pg are ""; ee_fg/tk_fg are the grade where the subject contains "ee"/"tk" in any case |
| SummaryHandler.ReformatResults | ib_result_handler_summary.py:112-154 | succeeds exactly when subject, candidate and grade exist and some subject and some candidate contain " - "; otherwise it fails in source order; each row is `ReformatRecord` |
| SummaryHandler.EmptyReportFails | ib_result_handler_summary.py:108-115 | a summary without any subject line gives an empty frame, whose reformat fails on the missing subject column |
| SubjectHandler.SkipOf | ib_result_handler_subject.py:53-57 | a type has a skip count exactly when it has fields |
| SubjectHandler.StandardSubjectPos | ib_result_handler_subject.py:94-101 | a standard subject has four words before its name, as many as its fields |
| SubjectHandler.EssaySubjectPos | ib_result_handler_subject.py:94-101 | an Extended Essay or Theory of Knowledge report has three, as many as its fields |
| SubjectHandler.SubjectNameAfterSpaces | ib_result_handler_subject.py:102 | the subject name is what follows the k-th space of the header line, and "" when there are fewer spaces |
| SubjectHandler.DataParts | ib_result_handler_subject.py:110 | the parts joined by single spaces give back the line |
| SubjectHandler.DataRecordFails | ib_result_handler_subject.py:110-123 | a data line fails exactly when it has fewer spaces than the fields minus one |
| SubjectHandler.StandardDataRecord | ib_result_handler_subject.py:110-124 | a standard line is cut at its first three spaces into pg, fg, scaled_total and candidate, plus the subject name |
| SubjectHandler.EssayDataRecord | ib_result_handler_subject.py:110-124 | an essay line is cut at its first two spaces into pg, fg and candidate, plus the subject name |
| SubjectHandler.ScanData | ib_result_handler_subject.py:106-125 | the data loop gives one record per line up to the first "Page" line, or the first line's failure |
| SubjectHandler.DataLineFails | ib_result_handler_subject.py:110-123 | a failing data line ends the loop with its failure |
| SubjectHandler.HeaderData | ib_result_handler_subject.py:94-125 | the body on a "Predicted" line computes `HeaderRecords`; an unknown type fails |
| SubjectHandler.NextLine | ib_result_handler_subject.py:86-92 | one more line: a "Subject Results" line sets the type, a header line adds its block's records or its failure, and any other line changes nothing |
| SubjectHandler.HeaderFails | ib_result_handler_subject.py:105-123 | a header block that fails ends the page with its failure |
| SubjectHandler.ParsePage | ib_result_handler_subject.py:71-127 | the loop over a page's lines computes `PageResult`: the type in force and the records |
| SubjectHandler.TypeAfterDefault | ib_result_handler_subject.py:78 | without a "Subject Results" line the type is "" |
| SubjectHandler.TypeAfterLast | ib_result_handler_subject.py:86-92 | otherwise it is the text after the keyword on the last such line |
| SubjectHandler.NoHeaderNoRecords | ib_result_handler_subject.py:94 | lines without a "Predicted" header never fail and add no record |
| SubjectHandler.UnknownTypeFails | ib_result_handler_subject.py:105 | a header under a type without a skip count ends the page with UnknownSubjectType |
| SubjectHandler.HeaderRecordsPerLine | ib_result_handler_subject.py:105-125 | a header block succeeds exactly when every data line has enough spaces; then it gives one record per data line; otherwise it fails on a short data line |
| SubjectHandler.DataRecordsPerLine | ib_result_handler_subject.py:106-125 | the same for a list of data lines and a subject name |
| SubjectHandler.HeaderRecordsSubject | ib_result_handler_subject.py:124 | every record of a header block names that block's subject |
| SubjectHandler.ScanRecordsFailures | ib_result_handler_subject.py:71-127 | a page fails only on an unknown type or a short data line |
| SubjectHandler.NextPage | ib_result_handler_subject.py:136-142 | a page without text is skipped; any other appends its records and sets the type, or ends the scan with its failure |
| SubjectHandler.ExtractResults | ib_result_handler_subject.py:129-146 | the loop over the pages computes `ExtractOutcome` |
| SubjectHandler.DocumentScanSet | ib_result_handler_subject.py:140 | once a page with text has been read, the type is set |
| SubjectHandler.DocumentScanLast | ib_result_handler_subject.py:136-146 | the returned type is that of the last page with text |
| SubjectHandler.DocumentScanFailures | ib_result_handler_subject.py:129-146 | a document fails only on an unknown type or a short data line |
| SubjectHandler.NoTextPagesExactly | ib_result_handler_subject.py:129-146 | the type is left unbound exactly when no page has text |
| SubjectHandler.AllBlankScan | ib_result_handler_subject.py:138-139 | pages without text leave the scan where it started |
| SubjectHandler.ReformatRecordKeys | ib_result_handler_subject.py:148-152 | every other column is kept and the six written ones are added |
| SubjectHandler.ReformatRecordKeepsSubject | ib_result_handler_subject.py:148-152 | the subject column is kept as it was |
| SubjectHandler.ReformatRecordCandidate | ib_result_handler_subject.py:149-151 | session and candidate are the two sides of the first " - "; session_number and personal_code are both null or the parse of the session |
| SubjectHandler.ReformatRecordLevel | ib_result_handler_subject.py:150 | subject_ and sub are the subject cut at its first whole-word level token, or both null when it has none |
| SubjectHandler.ReformatResults | ib_result_handler_subject.py:148-152 | succeeds exactly when candidate and subject exist and some candidate contains " - "; otherwise it fails in source order; each row is `ReformatRecord` |
| SubjectHandler.EmptyReportFails | ib_result_handler_subject.py:145-149 | a report with no data line gives an empty frame, whose reformat fails on the missing candidate column |
| Patterns.FieldValue | ib_result_handler_summary.py:42-47 | None exactly when the pattern matches nowhere, in particular when the label is absent; otherwise a stripped single-line value |
| Patterns.GroupStart | ib_result_handler_summary.py:43 | `\s*` takes the whole whitespace run, and gives back to the last non-'\n' character when the run reaches the end of the text |
| Patterns.FirstFieldMatch | ib_result_handler_summary.py:44 | the search matches at the leftmost position where the pattern can match |
| Patterns.GroupValue | ib_result_handler_summary.py:46 | the captured group runs to the end of its line and is stripped |
| Patterns.FieldValueAfterFirstOccurrence | ib_result_handler_summary.py:42-47 | the value is what follows the first label occurrence, after any whitespace including line breaks, up to the end of that line, and it is not empty |
| Patterns.FirstFieldMatchIs | ib_result_handler_summary.py:44 | the first occurrence of the label is the match whenever the rest of the pattern can match there |
| Patterns.FieldValueBlankTail | ib_result_handler_summary.py:43-46 | when only whitespace follows the label, some of it not '\n', the value is "" rather than None |
| Patterns.GradeAndSubject | ib_result_handler_summary.py:75 | None exactly when the stripped line holds no whitespace |
| Patterns.GradeAndSubjectParts | ib_result_handler_summary.py:75-79 | the grade is a non-empty token; the subject starts with non-whitespace; on one line they are its start and end, with only whitespace between |
| Patterns.LevelSplit | ib_result_handler_summary.py:121 | the cut is at the first whole-word SL/HL/EE/TK; None exactly when there is none |
| Patterns.SessionAndCode | ib_result_handler_summary.py:124 | the session is the shortest non-empty prefix, then optional whitespace, then a trailing `(...)` group without an inner `)`; None exactly when no cut fits |
| Patterns.DoubledPrefix | ib_result_handler_summary.py:143-144 | the text before the leftmost match of `\s<a>+<b>\b`; None exactly when there is no match |
| Patterns.DoubledImpliesContains | ib_result_handler_summary.py:143-146 | where ee_sub/tk_sub matches, the subject also contains "ee"/"tk" in any case |
| Patterns.ExcludedWordIndex | ib_result_handler_summary.py:163-171 | a whole-word "ee" or "tk" in any case, the leftmost one; None exactly when there is none |
| Patterns.ExcludedWordIsSubstring | ib_result_handler_summary.py:145-171 | a subject that the pivot drops as EE/TOK contains "ee" or "tk" in any case |
| Patterns.SplitDash | ib_result_handler_summary.py:115-116 | a null cell stays null; otherwise the two sides of the first " - ", with the second null exactly when there is none |
| Patterns.ExtractLevel | ib_result_handler_summary.py:121 | both parts are set together, and they rebuild the cell cut at a level token |
| Patterns.ExtractCode | ib_result_handler_summary.py:124 | both parts are set together and are the session parse of the cell |
| Patterns.ExtractDoubled | ib_result_handler_summary.py:144 | the prefix before the doubled-letter pattern, null where it does not match |
| Patterns.StripCell | ib_result_handler_summary.py:127-128 | null stays null; otherwise the value is stripped and no longer |
| Pivot.Kept | ib_result_handler_summary.py:171 | keeps exactly the rows whose subject has no whole-word "ee"/"tk" |
| Pivot.KeptConcat | ib_result_handler_summary.py:171 | the filter keeps order: the kept rows of a concatenation are each part's kept rows, and one row is kept exactly when it is not an EE/TOK row |
| Pivot.Subjects | ib_result_handler_summary.py:183-191 | the subjects of the grouped rows, sorted, each once |
| Pivot.OrderColumns | ib_result_handler_summary.py:193-197 | the loop builds new_columns: `ColumnOrder` |
| Pivot.ColumnOrderMembers | ib_result_handler_summary.py:193-197 | a column is in new_columns exactly when pivot_table kept it and its subject is listed |
| Pivot.ColumnOrderSorted | ib_result_handler_summary.py:193-197 | new_columns is ordered by subject, then by field |
| Pivot.SubjectReport | ib_result_handler_summary.py:156-205 | fails exactly when a column the report reads is missing |
| Pivot.ReformatResultsSub | ib_result_handler_summary.py:156-205 | the filter, pivot and column loop compute `SubjectReport` |
| Pivot.SubjectReportColumns | ib_result_handler_summary.py:174-200 | a column (s, f) exists exactly when a kept row of subject s with a full key holds f; columns are ordered by subject then field, with no repeat |
| Pivot.SubjectReportRows | ib_result_handler_summary.py:174-180 | the report is well formed, with a row for exactly the candidates of the grouped kept rows |
| Pivot.SubjectReportCell | ib_result_handler_summary.py:174-180 | a cell is null exactly when every grouped row is null there; otherwise it is the first non-null value |
| Pivot.SubjectColumnNotAllNull | ib_result_handler_summary.py:174-180 | no column is null for every candidate |
| Pivot.SubjectRowNotAllNull | ib_result_handler_summary.py:174-180 | no row is null in every column |
| Pivot.EeTkRowIgnored | ib_result_handler_summary.py:163-171 | adding an EE/TOK row anywhere leaves the subject report unchanged |
| Overall.ResultCode | ib_result_handler_summary.py:231-239 | a code is one of 0, 1, 2, and only for a non-null result |
| Overall.OverallReport | ib_result_handler_summary.py:208-260 | fails exactly when a selected column is missing |
| Overall.OverallReportRows | ib_result_handler_summary.py:221 | one row per candidate with a full key, in key order |
| Overall.ResultCodePriority | ib_result_handler_summary.py:231-239 | 1 if "bilingual", else 2 if "Diploma awarded", else 0 if "Diploma not awarded", else null, all matched without regard to case |
| Overall.OverallCopiedCell | ib_result_handler_summary.py:221-257 | a copied cell is null exactly when the candidate's rows are all null there; otherwise it is the first non-null value |
| Overall.OverallFixedCells | ib_result_handler_summary.py:242-257 | the PG sub-columns are always null, and the code column is the code of the first non-null result |
| Overall.OverallIgnoresPg | ib_result_handler_summary.py:216-257 | frames that differ only in ee_pg and tk_pg give the same overall report |
| Overall.NotAwardedCode | ib_result_handler_summary.py:234-235 | "Diploma not awarded" gets 0, not 2 |
| Overall.AwardedCode | ib_result_handler_summary.py:234 | "Diploma awarded" gets 2 |
| Overall.BilingualCode | ib_result_handler_summary.py:233 | a bilingual diploma gets 1 |
| Reshape.KeyOf | ib_result_handler_summary.py:221 | a row has a key exactly when every common key is non-null; the key lists those values |
| Reshape.KeyOrder | ib_result_handler_summary.py:221 | the group-by key order is a strict total order |
| Reshape.GroupFirst | ib_result_handler_summary.py:221 | group-by first: null exactly when the group is null in the column; otherwise the value of some group row |
| Reshape.GroupFirstIsFirst | ib_result_handler_summary.py:221 | the value is that of the first group row that is not null |
| Reshape.SortedKeys | ib_result_handler_summary.py:221 | the keys of the rows, sorted, each once |
| Tables.Normalize | ib_result_handler_summary.py:108 | json_normalize: the columns are every key that occurs; a record's cells are kept, and cells it lacks are null |
| Text.IndexOf | app.py:78 | the first occurrence of the pattern, None when there is none |
| Text.SplitFirst | ib_result_handler_summary.py:115 | `split(sep, 1)`: the two sides of the first occurrence, which rebuild the text |
| Text.FirstLineStarting | ib_result_handler_subject.py:106-108 | the first line at or after the start that begins with the prefix, or the end |
| Text.Strip | ib_result_handler_summary.py:54 | the result has no whitespace at either end and is no longer |
| Text.StripShape | ib_result_handler_summary.py:54 | strip removes only whitespace, and only at the two ends |
| Text.Lines | ib_result_handler_summary.py:54 | every line is non-blank, stripped and free of line breaks |
| Text.SplitSpace | ib_result_handler_subject.py:110 | `split(' ', n)`: at most n cuts, only the last part may hold a space, and the parts rebuild the text |
| Text.SplitAllSpaces | ib_result_handler_subject.py:102 | `split(' ')`: one part more than spaces, none holding a space, and the parts rebuild the text |
| Text.WordsFromJoin | ib_result_handler_subject.py:100-101 | splitting on whitespace words that were joined by single spaces gives them back |
| Text.BelowOrder | ib_result_handler_summary.py:184 | Python's string comparison is a strict total order |

## Left out

- PDF decoding by pdfplumber, temporary files, `pd.read_csv`, `to_csv`, `to_excel` and the `main()` drivers of the handlers (including the CSV naming in the subject handler's `main`) are file I/O. A PDF is the text of its pages, and a CSV file is a table found by its path.
- The Streamlit interface, the `consolidated_df` and `formatted_df` session entries, `print` diagnostics and `st.error` messages are interface code. Session state is modelled as the `processedFiles` field.
- Consolidate.Processor.ProcessUploadedFile: does not model `uploaded_file` being None. That is a call with no file, and the model always receives a document.
- Classifier.DetectFileType: does not model an exception raised while reading the PDF. A page without text is `""`, which contains no marker and gives the same None.
- Overall.ResultCode: gives the code as the strings "0", "1" and "2", where numpy gives floats with NaN for no code.
- Merge.RenameRecord: a rename map holds at most one pair, because every configured map has exactly one entry.
- Consolidate.OuterJoin: reports that share a column fail with `SharedReportColumn`. pandas would instead suffix the shared names. The subject report's columns never meet the overall report's fixed ones unless a subject is literally named like them.
- Pivot.SubjectReport: when no row takes part in the pivot, the model gives an empty report. pandas' handling of an empty pivot is not modelled.
- Pivot.SubjectReport: MultiIndex level names and the `GradeType` label are not modelled. Each column is a plain pair.
- Column dtypes are not modelled, nor the conversion of `""` and NaN when a frame goes through CSV in the consolidator. Every cell is a string or null.
- Text.IsWordChar: `\b` and `\w` cover only ASCII letters, digits and `_`, and case-insensitive matching folds only ASCII letters. Python's Unicode word characters and case folding are wider.
- Text.Lines: treats `\r\n` as two line breaks. This gives the same lines, because blank lines are dropped.
- Tables.Normalize: gives the set of columns, not json_normalize's first-seen column order.
- Merge.MergeFrames: gives the set of columns, not pandas' order with the secondary's columns after the primary's.
- SummaryHandler.ReformatResults: gives the set of columns, not the order in which each assignment appends a new column at the end.
- SubjectHandler.ReformatResults: gives the set of columns, not the order in which each assignment appends a new column at the end. Column order is therefore also absent from the frame that consolidate_data returns. The reports keep theirs: a report's columns are a sequence.
- Merge.LeftJoin: fails with `DuplicateColumn` when a right column's joined name (its name plus "_new") is already a left column, because a table here cannot hold two columns of one name. pandas would return a frame with both columns. consolidate_data does not reach this case: the student-level frame has no "_new" column, and the fill drops every "_new" column the join adds.
