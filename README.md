# Job file extractor — a Dafny model

`ar3.java` is a Python script, despite its name. It reads a workbook of mainframe job
descriptions and writes a one-sheet report. For each sheet it finds the job
identifier, collects the dataset names listed under a "FILES IN" and a "FILES OUT"
section header, and falls back to sweeping the whole sheet when neither section
yields a file. The report gives one block of rows per job: the job id in column 1,
the inputs down column 2 and the outputs down column 3.

This project models that core:

- `text.dfy` (module `Text`) covers `str.strip`, `upper`, `lower` and substring search, over ASCII.
- `seqs.dfy` (module `Seqs`) covers the first-seen de-duplication the script performs by hand and the "remove what is also an output" filter.
- `classifier.dfy` (module `Classifier`) covers:
  - the strict filename classifier `is_valid_filename`;
  - the looser `is_likely_filename`;
  - the two job-identifier shapes.
- `sheets.dfy` (module `Sheets`) defines a sheet as rows of optional text cells.
- `sweep.dfy` (module `SheetSweep`) covers `extract_all_files_from_sheet`.
- `scanner.dfy` (module `SectionScanner`) covers `find_files_in_section`.
- `jobs.dfy` (module `JobRecords`) covers:
  - `extract_job_data_from_sheet`;
  - the mapping-style fallback of the fragment at ar3.java:5-57;
  - the IN-minus-OUT post-pass;
  - the sheet loop that keeps the sheets with files.
- `report.dfy` (module `Report`) covers the cell placement of `create_clean_output_excel` and the "no jobs, no report" rule of `parse_and_transform_excel`.

Each loop that walks a sheet, a row, a list of sheets or the report is a method with loop invariants, and its `ensures` ties the result to a specification function. The `dict.fromkeys` passes, the IN-minus-OUT list comprehension and the pattern loop of `is_likely_filename` are pure functions. The properties the script relies on are lemmas about those functions.

Four behaviours of the code are easy to misread:

- Only `mapped_to` and `convert required` are refused as substrings. Every other label is refused only on an exact, case-insensitive match.
- The blank-run test looks at the current row and the next two. The section ends when at least two of those three rows are blank. A marker cell such as `Y` counts as content in that test, although it is skipped when files are collected.
- In the mapping layout, a column-0 identifier overwrites the job id even on a row that yields no file.
- `is_likely_filename` accepts any text of 3 to 80 dots. Its last-resort check skips the empty parts that `split('.')` gives, and `all()` over no parts is true (ar3.java:826-829). LooseAcceptsDotsOnly proves this.

## Model

| member | source | states |
|---|---|---|
| Text.StripIdempotent | ar3.java:137 | Stripping an already stripped text changes nothing, so classifying a stripped cell strips to the same text. |
| Text.ContainsLowered | ar3.java:151 | A substring stays a substring after both texts are lower-cased. |
| Seqs.Dedup | ar3.java:110-112 | The result has no repeats, holds exactly the members of the input, and is no longer than the input. |
| Seqs.DedupFirstSeenOrder | ar3.java:110-112 | Two texts appear in the de-duplicated list in the order of their first occurrences in the input. |
| Seqs.AppendUnseen | ar3.java:110-112 | Appending each text not yet collected to a first-seen list gives the first-seen list of the longer input. |
| Seqs.Without | ar3.java:733 | The result holds exactly the members of the first list that are not in the second, and it has no repeats when the first list has none. |
| Seqs.DedupOfNoDup | ar3.java:729-730 | De-duplicating a list without repeats returns it unchanged. |
| Seqs.WithoutDisjoint | ar3.java:733 | Removing the members of a disjoint list removes nothing. |
| Classifier.IsValidFilename | ar3.java:133-166 | An accepted text is 3 to 80 characters long once stripped and is not a report label. |
| Classifier.IsDenied | ar3.java:151 | The label test: the lower-cased text is one of the twenty labels, or it contains `mapped_to` or `convert required`. |
| Classifier.PassesDotGate | ar3.java:155 | The gate before the patterns: the text holds a dot or starts with `&&` or `R1-`. |
| Classifier.MatchesDatasetName | ar3.java:160 | `^[A-Z0-9&]+\.[A-Z0-9.()+-]+$`, as a split at a dot between a non-empty head and a non-empty tail. |
| Classifier.MatchesTempName | ar3.java:161 | `^&&[A-Z0-9]+$`. |
| Classifier.MatchesBackupName | ar3.java:162 | `^R1-\.[A-Z0-9.]+$`. |
| Classifier.MatchesPrefixedName | ar3.java:163 | `^[A-Z]+\.[A-Z0-9.()+-]+$`. PrefixedNameIsDatasetName shows that the first pattern already covers it. |
| Classifier.ClassifierIgnoresSurroundingSpace | ar3.java:137 | The classifier gives a text and its stripped form the same answer. |
| Classifier.AcceptedTextShape | ar3.java:154-166 | An accepted text, stripped and upper-cased, uses only `A-Z 0-9 & . ( ) + -`, and it contains a dot or is `&&` followed by letters and digits. |
| Classifier.PrefixedNameIsDatasetName | ar3.java:160-163 | Every text the fourth pattern matches is also matched by the first. |
| Classifier.AcceptsPlainName | ar3.java:137-166 | Every dataset name of at most 80 characters (an `[A-Z0-9&]+` head, a dot, an `[A-Z0-9.()+-]+` tail) is accepted. |
| Classifier.AcceptsTempName | ar3.java:155-161 | A temporary name `&&` followed by letters and digits, of at most 80 characters, is accepted. |
| Classifier.NoLabelHasDot | ar3.java:144-152 | No label of the denylist contains a dot. |
| Classifier.DottedTextNotDenied | ar3.java:144-152 | A text with a dot and without `_` or space is not denied. |
| Classifier.AmpersandTextNotDenied | ar3.java:144-152 | A text starting with `&` and without `_` or space is not denied. |
| Classifier.ExampleAcceptedNames | ar3.java:159-166 | `CAS.PROD.ACCTSTAT.DISK`, `ISC.PROD.CAS.SYS.TOTALS(+1)`, `SYS1.PROCLIB` and `&&GOSET` are accepted. |
| Classifier.ExampleRefusedTexts | ar3.java:140-156 | `Total`, `ab` and `Y/N/?` are refused. `Y/N/?` is refused by the denylist even though it would also fail the dot gate. |
| Classifier.IsLikelyFilename | ar3.java:793-832 | An accepted text is 3 to 80 characters long once stripped and is not one of the looser variant's labels. |
| Classifier.IsLooseDenied | ar3.java:804-808 | The looser label test: one of the sixteen labels, or the text contains `mapped_to`. |
| Classifier.MatchesThreePart | ar3.java:813 | `^[A-Z0-9]+\.[A-Z0-9]+\.[A-Z0-9.]+$`. |
| Classifier.MatchesSimpleName | ar3.java:814 | `^[A-Z0-9&]+\.[A-Z0-9.]*$`. |
| Classifier.MatchesGeneration | ar3.java:816 | `^[A-Z0-9]+\.[A-Z0-9]+\.[A-Z0-9]+\([+\-0-9]+\)$`. |
| Classifier.MatchesLetterDigitsDash | ar3.java:817 | `^[A-Z][0-9]+-\.[A-Z0-9.]+$`. |
| Classifier.MatchesLetterPrefix | ar3.java:818 | `^[A-Z]{2,}\.[A-Z0-9.]+$`. |
| Classifier.SplitDots | ar3.java:827-829 | Python's `split('.')`: always at least one part, and at least two when the text has a dot (SplitDotsAtDot). |
| Classifier.SplitDotsHaveNoDot | ar3.java:827-829 | No part of `split('.')` holds a dot. |
| Classifier.SplitDotsJoin | ar3.java:827-829 | Joining the parts of `split('.')` with `.` gives the text back. |
| Classifier.DotPartsLookAlnum | ar3.java:826-829 | The last-resort test: the text has a dot, and every non-empty part is alphanumeric once `()+-01` are removed. |
| Classifier.RemoveChars | ar3.java:828 | Chained `replace(c, '')` keeps exactly the characters not removed. |
| Classifier.SplitDotsAtDot | ar3.java:826-827 | A text with a dot splits into at least two parts. |
| Classifier.LastResortSuffices | ar3.java:825-830 | A text that passes the length and label checks and the last-resort part check is accepted. |
| Classifier.LooseAcceptsDotsOnly | ar3.java:826-830 | Any text of 3 to 80 dots is accepted, because all of its dot parts are empty and skipped. |
| Classifier.JobIdShapesAreLong | ar3.java:188 | A job id has at least six characters, so it is never empty. The same holds for the mapping shape at ar3.java:42. |
| Classifier.IsJobIdShape | ar3.java:188 | `^[A-Z]{4,}[0-9]{3,4}$` or `^[A-Z]{6,}[A-Z]*$`, case-sensitive. |
| Classifier.IsMappingJobIdShape | ar3.java:42 | `^[A-Z]{3,}[0-9]{3,4}$`. |
| Sheets.ClassifiedTexts | ar3.java:105-107 | Every collected text is accepted by the classifier. |
| Sheets.ClassifiedTextsMembers | ar3.java:92-107 | A text is collected exactly when some present cell, once stripped, equals it and is accepted. |
| SheetSweep.ExtractAllFiles | ar3.java:216-227 | The sweep returns the distinct classified texts of the sheet in row-major, first-seen order. |
| SheetSweep.SweepMembers | ar3.java:221-226 | A text is swept exactly when some classified cell holds it, and the result has no repeats. |
| SheetSweep.SweepAccepted | ar3.java:224-225 | Every swept text is stripped and accepted by the classifier. |
| SectionScanner.RowHasSection | ar3.java:78-86 | A row names the section exactly when one of its present cells, stripped and upper-cased, contains the upper-cased name. |
| SectionScanner.HeaderFromIsFirst | ar3.java:76-86 | The header row is the first row naming the section, and no row names it when there is none. |
| SectionScanner.FirstStopIsFirst | ar3.java:95-99 | Collection in a row stops at its first sibling header, one that names another section and not this one. |
| SectionScanner.IsSiblingHeader | ar3.java:96-97 | A present cell whose stripped, upper-cased text contains one of the five keywords but not the upper-cased section name. |
| SectionScanner.IsMarker | ar3.java:102 | The upper-cased text contains `MAPPED_TO` or `CONVERT REQUIRED`, or is `Y/N/?`, `Y` or `N`. |
| SectionScanner.MarkersAreDenied | ar3.java:102 | A marker text is shorter than three characters or denied by the classifier's label list. |
| SectionScanner.MarkersAreNeverFiles | ar3.java:101-106 | A marker cell is never a filename, so skipping it before classification changes no row's files. |
| SectionScanner.CollectRow | ar3.java:90-107 | A row yields the classified texts left of its first sibling header, and the row stops the section exactly when it holds such a header. |
| SectionScanner.RowHasContent | ar3.java:120-124 | A row has content exactly when some present cell is non-blank once stripped. |
| SectionScanner.CountBlankRows | ar3.java:117-126 | The count is the number of blank rows in the range. |
| SectionScanner.ScanSectionRow | ar3.java:89-129 | One section row adds its files in first-seen order, and the section ends at that row exactly when the end condition holds. |
| SectionScanner.EndRowIsFirst | ar3.java:95-129 | The section ends at the first row holding a sibling header, or at the first row that yields no file after some file was collected and starts a blank run. |
| SectionScanner.ContributionsMembers | ar3.java:109-112 | A text is contributed by a range of rows exactly when a classified cell left of its row's first sibling header holds it. |
| SectionScanner.FindFilesInSection | ar3.java:68-131 | The two-flag scan returns `Scan`. |
| SectionScanner.Scan | ar3.java:68-131 | The scan as a function: nothing without a header row, else the de-duplicated row files of the rows after the header through the ending row. ScanMembers and EndRowIsFirst state what it holds. |
| SectionScanner.ScanWithoutHeader | ar3.java:76-86 | Without a header row the scan returns nothing. |
| SectionScanner.ScanMembers | ar3.java:88-131 | With a header row, the scan returns, once each, exactly the texts of the classified cells in the rows after the header up to and including the ending row, each left of its row's first sibling header. |
| SectionScanner.ScanWithinSweep | ar3.java:106-107 | Every file a section scan finds, the whole-sheet sweep finds too. |
| JobRecords.IdInRowIsFirst | ar3.java:184-191 | The id found in a row is the first id-shaped cell at or after the column. |
| JobRecords.IdInRowsIsFirst | ar3.java:183-193 | The id found is the first id-shaped cell in row-major order, and none exists when nothing is found. |
| JobRecords.FindJobId | ar3.java:182-197 | The search returns `JobId`: the first id cell of the first twenty rows, or the default. |
| JobRecords.JobIdIsFirstMatch | ar3.java:183-197 | The job id is the first id-shaped cell of the first twenty rows, or the default from the sheet name when there is none. |
| JobRecords.JobIdNeverEmpty | ar3.java:195-197 | The job id is never empty. |
| JobRecords.DefaultJobId | ar3.java:196-197 | The default id: the upper-cased sheet name, or `UNKNOWN_JOB` for an empty name. |
| JobRecords.DefaultJobIdExample | ar3.java:183-197 | A sheet named `Tab7` without an id cell gets the job id `TAB7`. |
| JobRecords.MappingIdIsLast | ar3.java:40-43 | The mapping id is the last column-0 cell with the mapping shape, and none exists when there is no mapping id. |
| JobRecords.MappingColumnMembers | ar3.java:45-51 | The mapping lists hold exactly the classified cells of columns 1 and 2. |
| JobRecords.ExtractMappingRows | ar3.java:40-51 | The row loop returns the last mapping id and the classified cells of columns 1 and 2, top to bottom. |
| JobRecords.CrossDedup | ar3.java:728-733 | The post-pass keeps the job id and leaves both lists without repeats. IN keeps exactly its texts that are not outputs, and OUT keeps exactly its own texts. |
| JobRecords.CrossDedupKeepsFiles | ar3.java:728-733 | The post-pass never turns a record with files into one without. |
| JobRecords.CrossDedupKeepsSplit | ar3.java:728-733 | On the split fallback the post-pass changes nothing, because the two halves of a duplicate-free list are disjoint. |
| JobRecords.ExtractJobData | ar3.java:199-214 | The extraction returns `BuildJob` for the configuration. |
| JobRecords.WithFallback | ar3.java:203-211 | When neither section yields a file, the split fallback gives the sweep's first half as IN and the rest as OUT (FallbackSplitsSweep). The mapping option (ar3.java:37-57) takes columns 1 and 2 and lets the last mapping id replace the job id. |
| JobRecords.BuildJob | ar3.java:199-214 | The record as a function: job id, the two scans, the fallback, then the post-pass when configured. ExtractJobData computes it. |
| JobRecords.FallbackSplitsSweep | ar3.java:204-211 | Without section files, IN followed by OUT is the sweep's list, and IN holds its first half, rounded down. |
| JobRecords.BuiltJobIdNeverEmpty | ar3.java:195-197 | Under every configuration, the record's job id is never empty. |
| JobRecords.KeptIffSomeClassifiedCell | ar3.java:302-304 | With the split fallback, a sheet is kept exactly when some cell of it is classified as a filename. |
| JobRecords.KeptJobsHaveFiles | ar3.java:302-304 | Every kept record lists some file, and there is at most one per sheet. |
| JobRecords.ParseSheets | ar3.java:296-307 | The sheet loop returns the records with files, in sheet order. |
| JobRecords.KeptJobs | ar3.java:299-304 | The records with files, in sheet order. KeptJobsMembers, KeptJobsHaveFiles and KeptIffSomeClassifiedCell state what it keeps. |
| JobRecords.KeptJobsMembers | ar3.java:299-304 | A record is kept exactly when some sheet builds it and it lists some file. |
| Report.Height | ar3.java:271 | A block is at least one row high and at least as high as each of its lists. |
| Report.PlaceColumnCell | ar3.java:262-268 | A column write fills exactly the rows from its start, one per file, and leaves every other cell unchanged. |
| Report.BlockStart | ar3.java:249-272 | The row where job `k` starts: row 2, then each earlier block's height plus two. BlocksAreSeparated states the gap. |
| Report.ReportGrid | ar3.java:242-272 | The sheet after the headers and the first `n` jobs. ReportKeepsBlock, ReportShows* and ReportHasNoStrayCells state what it holds. |
| Report.PlaceJobCell | ar3.java:256-268 | A job's writes fill exactly its block and leave every other cell unchanged. |
| Report.BlocksAreSeparated | ar3.java:270-272 | Every later block starts at least two rows after the end of an earlier one. |
| Report.LaterJobsKeepCell | ar3.java:251-272 | A cell in a job's block keeps its value while the later jobs are placed. |
| Report.ReportKeepsBlock | ar3.java:251-272 | In the finished sheet, every cell of a job's block holds what that job wrote. |
| Report.ReportShowsJobId | ar3.java:257 | Each job's id sits in column 1 of the first row of its block. |
| Report.ReportShowsFileIn | ar3.java:261-263 | Input `i` of a job sits in column 2, `i` rows below the job's first row. |
| Report.ReportShowsFileOut | ar3.java:266-268 | Output `i` of a job sits in column 3, `i` rows below the job's first row. |
| Report.ReportHasNoStrayCells | ar3.java:242-272 | Every written cell is a header or lies in some job's block. |
| Report.HeadersKept | ar3.java:242-249 | The three headers in row 1 survive every job, because job rows start at row 2. |
| Report.WriteColumn | ar3.java:262-268 | The loop's writes equal `PlaceColumn`. |
| Report.CreateReport | ar3.java:229-272 | The sheet is the headers plus every job's block, and the next row is the start after the last block. |
| Report.ParseAndTransform | ar3.java:296-314 | There is no report exactly when no sheet is kept, and otherwise the report lays out the kept records. |

## Left out

- Reading the workbook and writing the report are not modelled: pandas `read_excel`, openpyxl, fonts, column widths and saving. The sheets arrive as a parameter, and the report is a map from 1-based (row, column) to the text written there.
- The `print` calls and the `try`/`except` around the whole run are not modelled.
- Cell values are taken as the text `str(value)` would give. pandas' conversion of numbers and dates to text is not modelled.
- `strip`, `upper`, `lower`, `isalnum` and the regular-expression classes are modelled over ASCII only. Unicode whitespace and case mapping are not modelled.
- The script holds several copies and variants of the same functions. Only the copy at lines 68-314 is modelled. The mapping-layout rows (lines 37-57) and the IN-minus-OUT post-pass (lines 728-733) are modelled as configuration options of the record builder. `main` and the command-line handling are not modelled.
- JobRecords.WithFallback: the mapping variant's own job-id rules are not modelled. These are the `[A-Z]{3,}[0-9]{3,4}` search of its first case (lines 24-32) and its default `sheet_name.upper()` without `UNKNOWN_JOB` (lines 53-55). The model keeps the canonical job id and lets a mapping id overwrite it.
- The variant extraction path built on `extract_file_list` and `extract_file_patterns` (lines 667-791 and the later copies) is not part of this model. `is_likely_filename` is modelled on its own, with no caller.
- `create_single_output_excel`, `create_output_excel` and `transform_excel_files` are not part of this model.
- SectionScanner.RowFiles states a row's files as the classified cells left of the first sibling header, without the marker skip. MarkersAreNeverFiles proves that the skip makes no difference, and CollectRow performs it as the source does.
