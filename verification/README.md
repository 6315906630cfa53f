# Production tracking: a Dafny model

This project models the logic of a small production-tracking web application.
Production records are kept in browser storage. Each record holds a date, a
product, a process, the actual quantity, the defect count, the minutes worked,
the worker and free-text notes. The application has two code generations:

- the first (`src/`) has a data-entry page, a sortable table, a detail dialog,
  a settings page and CSV/PDF export;
- the second (`project/`) has a dashboard with summary cards and charts, an
  entry form, and its own store and export helpers.

Both generations are modelled side by side. The model follows the code where
the two differ.

The model treats the record store as a value. Every page handler is a pure
function from one page state to the next. Browser storage, dialogs, file
readers, downloads and random ids become parameters of those functions.

- `Types` is the record: the union of the fields both generations read. The
  planned quantity may be absent.
- `Metrics` holds the per-record efficiency, defect rate, productivity and
  output per worker, the chart series and the averages.
- `Store` and `ProjectStore` are the two storage helpers: add, update,
  delete, the date filter and the name search.
- `Dashboard`, `DashboardCard`, `DataEntry`, `EntryForm`, `DataTable`,
  `DetailModal` and `Settings` model the pages and components.
- `Csv` and `Export` cover export. `Csv` is a CSV writer and reader following
  section 2 of RFC 4180, against which the exported text is read back.
- `Text`, `Seqs`, `Ordering` and `Wrappers` are supporting definitions:
  - ECMAScript `trim` and `toLowerCase`;
  - `includes`, `split` and `join`;
  - integer rendering and parsing;
  - filtering;
  - a stable sort;
  - option and result types.

Dates are whole day numbers. Every number the exports render goes through a
`Formatter` parameter, except integers, which are rendered by the model
itself.

## Model

| member | source | states |
|---|---|---|
| Metrics.Productivity | src/utils/calculationHelpers.ts:4-7 | Zero hours give 0. Otherwise productivity times hours is the actual quantity. It is non-negative for a valid record. |
| Metrics.Efficiency | src/utils/calculationHelpers.ts:10-13 | A zero or absent plan gives 0. Otherwise efficiency times the plan is 100 times the actual quantity. It is non-negative, and at most 100 when the plan is met or undershot. |
| Metrics.DefectRate | src/utils/calculationHelpers.ts:16-19 | Zero output gives 0. Otherwise the rate times the output is 100 times the defects. It lies in [0, 100] when 0 <= defects <= output. |
| Metrics.OutputPerWorker | src/utils/calculationHelpers.ts:22-25 | Zero workers give 0. Otherwise output per worker times workers is the actual quantity. It is non-negative for a valid record. |
| Metrics.Series | src/utils/calculationHelpers.ts:28-49 | A chart series has one point per record, in input order, pairing the record's date with its metric. |
| Metrics.GenerateWorkerEfficiencyData | src/utils/calculationHelpers.ts:28-33 | Point i carries record i's date and its output per worker. |
| Metrics.GenerateQualityMetricsData | src/utils/calculationHelpers.ts:36-41 | Point i carries record i's date and its defect rate. |
| Metrics.GenerateEfficiencyData | src/utils/calculationHelpers.ts:44-49 | Point i carries record i's date and its efficiency. |
| Metrics.Average | src/utils/calculationHelpers.ts:52-63 | The empty collection averages 0. One record averages to its own metric. Otherwise the average times the count is the sum of the metric. |
| Metrics.AverageEfficiency | src/utils/calculationHelpers.ts:52-56 | 0 for no records; the single record's efficiency for one; otherwise the mean efficiency. |
| Metrics.AverageDefectRate | src/utils/calculationHelpers.ts:59-63 | 0 for no records; the single record's defect rate for one; otherwise the mean defect rate. |
| Metrics.AverageDefectRateBounded | src/utils/calculationHelpers.ts:59-63 | If every defect rate is a percentage, so is their average. |
| Metrics.ValidAverageDefectRateBounded | src/utils/calculationHelpers.ts:59-63 | Valid records always have an average defect rate in [0, 100]. |
| Metrics.AveragePermutationInvariant | src/utils/calculationHelpers.ts:52-63 | Reordering the records does not change an average. |
| Metrics.SeriesSum | src/utils/calculationHelpers.ts:28-49 | The values a series plots sum to the metric summed over the records. |
| Metrics.AverageIsMeanOfSeries | src/utils/calculationHelpers.ts:44-56 | The average of a metric equals the mean of the values its chart series plots. |
| Metrics.WorkedExample | src/utils/calculationHelpers.ts:4-25 | A record planned at 100, with 80 made, 4 defective, 8 hours and 2 workers, has efficiency 80, defect rate 5, productivity 10 and 40 per worker. |
| Store.Add | src/utils/localStorageManager.ts:15-18 | The new record is appended after the unchanged existing ones. |
| Store.Update | src/utils/localStorageManager.ts:21-27 | The length is kept. Every record with the new record's id is replaced by it; the others stay. |
| Store.UpdateWithoutMatchIsIdentity | src/utils/localStorageManager.ts:21-27 | Updating with an id the store does not hold changes nothing. |
| Store.UpdateIdempotent | src/utils/localStorageManager.ts:21-27 | Updating twice with the same record is updating once. |
| Store.Delete | src/utils/localStorageManager.ts:30-34 | No record with the id remains. Every remaining record was stored, and every stored record with another id remains. |
| Store.DeleteIsOrderedSelection | src/utils/localStorageManager.ts:30-34 | Deletion keeps exactly the positions with another id, in their stored order. |
| Store.DeleteUndoesAdd | src/utils/localStorageManager.ts:15-34 | Adding a record under a fresh id and deleting that id restores the store. |
| Store.FilterByDateRange | src/utils/localStorageManager.ts:37-45 | A missing bound yields nothing, because an invalid date compares false. With both bounds, a record is kept exactly when its date lies within them, inclusive. |
| Store.FilterByProductName | src/utils/localStorageManager.ts:48-53 | A record is kept exactly when its product name contains the term, ignoring case. The empty term keeps everything. |
| Store.DateFilterIsOrderedSelection | src/utils/localStorageManager.ts:37-45 | The date filter keeps the matching records in stored order. |
| Store.NameFilterIsOrderedSelection | src/utils/localStorageManager.ts:48-53 | The name search keeps the matching records in stored order. |
| Store.DateRangeExample | src/utils/localStorageManager.ts:37-45 | A day-1 record falls outside days 2 to 8; a day-8 record falls inside. |
| ProjectStore.Add | project/src/utils/localStorageManager.ts:16-20 | The new record is pushed after the unchanged existing ones. |
| ProjectStore.FindIndex | project/src/utils/localStorageManager.ts:24 | A found index is the first record carrying the id. Nothing found means no record carries it. |
| ProjectStore.Update | project/src/utils/localStorageManager.ts:22-29 | Only the first record with the id is replaced. Without one, the store is unchanged. |
| ProjectStore.Delete | project/src/utils/localStorageManager.ts:31-35 | No record with the id remains. Every remaining record was stored, and every stored record with another id remains. |
| ProjectStore.AddAndDeleteAgreeWithFirstStore | project/src/utils/localStorageManager.ts:16-35 | Add and delete behave exactly as in the first generation's store. |
| ProjectStore.UpdateAgreesOnUniqueIds | project/src/utils/localStorageManager.ts:22-29 | With unique ids, first-match update and every-match update coincide. |
| ProjectStore.UpdateDiffersOnDuplicateIds | project/src/utils/localStorageManager.ts:22-29 | With a duplicated id, only the first copy is replaced here, while the first generation replaces both. |
| ProjectStore.FilterByDateRange | project/src/utils/localStorageManager.ts:37-55 | A record is kept exactly when it satisfies each bound that is present. No bounds keeps the whole store. |
| ProjectStore.DateFiltersAgreeOnClosedRanges | project/src/utils/localStorageManager.ts:37-55 | With both bounds, the two generations' date filters select the same records. |
| ProjectStore.DateFilterIsOrderedSelection | project/src/utils/localStorageManager.ts:37-55 | The one-sided date filter keeps matching records in stored order. |
| ProjectStore.FilterByProductName | project/src/utils/localStorageManager.ts:57-63 | A record is kept exactly when its product code contains the term, ignoring case. |
| ProjectStore.NameFilterIsOrderedSelection | project/src/utils/localStorageManager.ts:57-63 | The search keeps matching records in stored order. |
| Dashboard.RecentTies | project/src/pages/Dashboard.tsx:51-53 | Cutting the newest-first copy keeps ties in input order: per date, the kept records are a prefix of that date's records in the input. |
| Dashboard.RecentData | project/src/pages/Dashboard.tsx:49-54 | No records give none. Otherwise the result is the newest ten (or all), newest first, drawn from the filtered records. Every record left out is no newer than any kept. For every date, the kept records of that date are the first of that date's records in the input order. |
| Dashboard.NewestPrefix | project/src/pages/Dashboard.tsx:51-53 | A prefix of a newest-first list is newest first, and nothing left behind is newer. |
| Dashboard.HandleSearch | project/src/pages/Dashboard.tsx:56-65 | A blank term restores all records. Otherwise a record is kept exactly when its product code contains the term, ignoring case. |
| Dashboard.SearchIsStoreSearch | project/src/pages/Dashboard.tsx:61-63 | A non-blank search is the store's product search. |
| Dashboard.HandleDateRange | project/src/pages/Dashboard.tsx:67-94 | No bounds restores all records. Otherwise a record is kept exactly when it satisfies each bound present, inclusive. |
| Dashboard.DateRangeIsStoreFilter | project/src/pages/Dashboard.tsx:67-94 | The page's date handler selects what the store's date filter selects. |
| Dashboard.ComputeTotals | project/src/pages/Dashboard.tsx:116-119 | On valid records all four totals are non-negative and total defects do not exceed total output. |
| Dashboard.TotalsOfEmpty | project/src/pages/Dashboard.tsx:116-119 | No records total zero. |
| Dashboard.TotalsOfOne | project/src/pages/Dashboard.tsx:116-119 | One record contributes its plan or 0, its output, its defects and its minutes over 60. |
| Dashboard.TotalsConcat | project/src/pages/Dashboard.tsx:116-119 | Totals add up over any split of the records. |
| Dashboard.AchievementRate | project/src/pages/Dashboard.tsx:251 | No positive plan gives 0. Otherwise the rate times the plan is 100 times the output. |
| Dashboard.SummaryProductivity | project/src/pages/Dashboard.tsx:258 | No positive hours give 0. Otherwise productivity times hours is the output. |
| Dashboard.SummaryDefectRate | project/src/pages/Dashboard.tsx:265 | No output gives 0. Otherwise the rate times output is 100 times the defects. It is a percentage when defects lie within output. |
| Dashboard.SummaryDefectRateBounded | project/src/pages/Dashboard.tsx:116-118 | On valid records the summary defect rate is a percentage. |
| Dashboard.SummaryOfOneRecord | project/src/pages/Dashboard.tsx:251-265 | For one valid record, the summary achievement rate is its efficiency and the summary defect rate is its defect rate. |
| Dashboard.Trend | project/src/pages/Dashboard.tsx:121-125 | A non-positive overall average gives 0. Otherwise, moving the overall average by the trend percent gives the recent average. The trend is positive or negative exactly when the recent average is above or below the overall one. |
| Dashboard.FewRecordsHaveNoTrend | project/src/pages/Dashboard.tsx:108-125 | With at most ten records, the recent records are all of them, so both trends are 0. |
| DashboardCard.SelectedClasses | project/src/components/DashboardCard.tsx:18-28 | The classes are always one of the five entries. A known key gives its entry. An absent or unknown key gives the blue entry. |
| DashboardCard.SelectedClassesIdentifyKey | project/src/components/DashboardCard.tsx:20-28 | Two known keys give the same classes only when they are the same key. |
| DashboardCard.TendencyOf | project/src/components/DashboardCard.tsx:30-40 | A trend points up exactly when present and positive, down when present and negative, and is flat when absent or zero. |
| DashboardCard.TrendColor | project/src/components/DashboardCard.tsx:30-34 | Green exactly for a positive trend, red exactly for a negative one, gray exactly for an absent or zero trend. |
| DashboardCard.TrendIcon | project/src/components/DashboardCard.tsx:36-40 | Up arrow exactly for a positive trend, down arrow exactly for a negative one, right arrow exactly for an absent or zero trend. |
| DashboardCard.IconMatchesColor | project/src/components/DashboardCard.tsx:30-40 | The arrow and the colour always agree. |
| DashboardCard.TrendBadge | project/src/components/DashboardCard.tsx:49-55 | The trend row appears exactly when a trend is given, and shows its magnitude. |
| DashboardCard.BadgeRecoversTrend | project/src/components/DashboardCard.tsx:36-52 | The arrow's sign times the shown figure gives back the trend. |
| DetailModal.EfficiencyColor | src/components/DetailModal.tsx:29-33 | Green exactly at 90 or above, yellow exactly from 70 below 90, red exactly below 70. |
| DetailModal.DefectRateColor | src/components/DetailModal.tsx:35-39 | Green exactly at 3 or below, yellow exactly above 3 up to 8, red exactly above 8. |
| DetailModal.ToneClassInjective | src/components/DetailModal.tsx:29-39 | Distinct severities show distinct text classes. |
| DetailModal.EfficiencyColorMonotone | src/components/DetailModal.tsx:29-33 | A higher efficiency never gets a worse colour. |
| DetailModal.DefectRateColorMonotone | src/components/DetailModal.tsx:35-39 | A higher defect rate never gets a better colour. |
| DetailModal.MeetingPlanIsGreen | src/components/DetailModal.tsx:29-33 | A record that meets a positive plan shows green efficiency. |
| DetailModal.NoDefectsIsGreen | src/components/DetailModal.tsx:35-39 | A record without defects shows a green defect rate. |
| DetailModal.DefectRateColorOfRecord | src/components/DetailModal.tsx:35-39 | With positive output, the defect rate is green exactly when at most 3 in 100 units are defective, and red exactly when more than 8 in 100 are. |
| DataEntry.LoadData | src/pages/DataEntry.tsx:33-37 | The page's copy and the shown list both become the store; nothing else changes. |
| DataEntry.Opened | src/pages/DataEntry.tsx:28-37 | The opened page is consistent, shows the whole store, and edits and views nothing. |
| DataEntry.HandleDataSubmit | src/pages/DataEntry.tsx:57-65 | While editing, each record with the id is replaced and editing ends. Otherwise the record is appended. Either way the page reloads the store. |
| DataEntry.HandleEdit | src/pages/DataEntry.tsx:67-70 | The record becomes the one being edited; nothing else changes. |
| DataEntry.HandleDelete | src/pages/DataEntry.tsx:72-77 | A declined confirmation changes nothing. An accepted one removes the id, keeps the other records and reloads. |
| DataEntry.HandleViewDetails | src/pages/DataEntry.tsx:79-82 | The dialog opens on the record; nothing else changes. |
| DataEntry.HandleCloseModal | src/pages/DataEntry.tsx:84-87 | The dialog closes and forgets its record; nothing else changes. |
| DataEntry.HandleSearch | src/pages/DataEntry.tsx:89-97 | A blank term shows the page's copy. Otherwise a stored record is shown exactly when its product name contains the term, ignoring case. |
| DataEntry.HandleDateRange | src/pages/DataEntry.tsx:99-107 | No bounds shows the page's copy. One bound shows nothing. Both bounds show exactly the stored records within them. |
| DataEntry.HandlersKeepConsistent | src/pages/DataEntry.tsx:33-107 | Every handler keeps the page's copy equal to the store and the dialog open exactly when it has a record. |
| DataEntry.ViewThenCloseRestores | src/pages/DataEntry.tsx:79-87 | Opening and then closing the dialog restores the page. |
| DataEntry.DeleteUndoesNewSubmit | src/pages/DataEntry.tsx:57-77 | Submitting a new record under a fresh id and deleting it restores the store. |
| DataEntry.EditWithUnknownIdKeepsStore | src/pages/DataEntry.tsx:57-65 | Saving an edit under an id the store does not hold changes no record. |
| DataEntry.ResetShowsStore | src/pages/DataEntry.tsx:89-103 | On a consistent page, a blank search or an empty date range shows the whole store. |
| EntryForm.Validate | project/src/components/DataEntryForm.tsx:52-89 | Each field carries a message exactly when its rule is broken. A defect count above the output is reported as exceeding it, overriding "negative". |
| EntryForm.ValidateIffAcceptable | project/src/components/DataEntryForm.tsx:52-89 | The form has no messages exactly when every required field is filled and every count is in bounds. |
| EntryForm.ExceedsOverridesNegative | project/src/components/DataEntryForm.tsx:71-77 | A negative defect count above a negative output is reported as exceeding it. |
| EntryForm.FindEntry | project/src/components/DataEntryForm.tsx:95 | A found position is the first entry with the id; nothing found means no entry has it. |
| EntryForm.SelectProcess | project/src/components/DataEntryForm.tsx:94-100 | Choosing a process sets its id and the name of the first matching process, or "" if none matches; nothing else changes. |
| EntryForm.LoadForm | project/src/components/DataEntryForm.tsx:36-50 | The form shows the edited record's date, product, process id and name, actual quantity, defect count, work minutes, worker and notes, each equal to the record's. |
| EntryForm.Submit | project/src/components/DataEntryForm.tsx:109-122 | A record is handed on exactly when the form is acceptable. It is then valid and carries the initial id or the fresh one. A new entry resets the form; an edit keeps it. |
| EntryForm.EditRoundTrip | project/src/components/DataEntryForm.tsx:36-122 | A record the form wrote, loaded and saved unchanged, comes back as it was. |
| EntryForm.NewEntryUsesFreshId | project/src/components/DataEntryForm.tsx:109-122 | A new entry is saved under the fresh id and the form resets. |
| DataTable.HandleSort | src/components/DataTable.tsx:29-36 | The clicked column becomes active. Re-clicking the active column flips the direction; another column starts ascending. |
| DataTable.HandleSortTwiceOnActive | src/components/DataTable.tsx:29-36 | Clicking the active column twice restores the sort state. |
| DataTable.HandleSortThenSame | src/components/DataTable.tsx:29-36 | A second click on the same header keeps it active and flips its direction. |
| DataTable.Indicator | src/components/DataTable.tsx:59 | Only the active column shows an arrow; it points up exactly when ascending. |
| DataTable.CompareMeaning | src/components/DataTable.tsx:38-42 | The comparator is antisymmetric and returns -1, 0 or 1. It is 0 exactly on equal column values and orders by the chosen direction. |
| DataTable.SortedData | src/components/DataTable.tsx:38-42 | The rows are a permutation of the data, ordered by the comparator, and rows with equal column values keep their input order. |
| DataTable.SortedDataIdempotent | src/components/DataTable.tsx:38-42 | Sorting sorted rows again in the same state changes nothing. |
| Ordering.KeyLessStrictTotalOrder | src/components/DataTable.tsx:39-40 | The `<` used on column values is irreflexive, transitive and total. |
| Ordering.SortSorted | src/components/DataTable.tsx:38-42 | The sort's result is ordered in the chosen direction. |
| Ordering.SortStable | src/components/DataTable.tsx:38-42 | For every key, the elements with that key keep their input order. |
| Ordering.SortOfSortedIsIdentity | project/src/pages/Dashboard.tsx:51-52 | An already ordered sequence is returned unchanged. |
| Settings.CodesConcat | src/pages/Settings.tsx:83-85 | The codes of concatenated lines are the concatenated codes. |
| Settings.CodesAreTrimmed | src/pages/Settings.tsx:84-85 | Every code is non-empty and has no whitespace at either end. |
| Settings.FirstClashConcat | src/pages/Settings.tsx:83-97 | The first clash of a concatenation is the first part's clash, else the second part's clash against everything seen. |
| Settings.AllNewCons | src/pages/Settings.tsx:81-96 | A list of codes is all new exactly when its head is new and its tail is new once the head is seen. |
| Settings.FirstClashNoneIff | src/pages/Settings.tsx:83-97 | No clash is reported exactly when the codes are distinct and none already exists. |
| Settings.FirstClashIsDuplicate | src/pages/Settings.tsx:87-90 | A reported code already exists or occurs earlier in the file. |
| Settings.NewEntries | src/pages/Settings.tsx:92-95 | One entry per code, in order; the k-th gets the k-th fresh id. |
| Settings.ImportStep | src/pages/Settings.tsx:84-96 | Describes what one line contributes to the scan, given no clash before it. |
| Settings.ScanLine | src/pages/Settings.tsx:84-96 | One pass keeps the loop's invariant, or reports the clash of the whole file. |
| Settings.ScanLines | src/pages/Settings.tsx:83-97 | The loop yields the first clash, or one entry per code in file order. |
| Settings.ImportProducts | src/pages/Settings.tsx:67-115 | A clash is reported with its code. A file without codes is reported as such. Otherwise the new entries are appended after the existing products in file order. |
| Settings.Names | src/pages/Settings.tsx:81 | The code names of the products, in order. |
| Settings.ImportKeepsCodesDistinct | src/pages/Settings.tsx:81-104 | A successful import keeps product codes distinct. |
| Settings.MergeById | src/pages/Settings.tsx:197-201 | The imported records come last and unchanged. Before them are the stored records whose id is not imported. The ids are the union of both. |
| Settings.ImportData | src/pages/Settings.tsx:173-216 | A result exists exactly when the file holds an array. Replace mode stores the array; merge mode stores the union of ids. |
| Settings.MergeKeepsOrder | src/pages/Settings.tsx:200 | The kept stored records are an ordered selection of the stored ones. |
| Settings.MergeIdempotent | src/pages/Settings.tsx:197-201 | Merging the same backup twice is merging it once. |
| Settings.MergeNothing | src/pages/Settings.tsx:197-201 | Merging an empty backup leaves the store as it was. |
| Settings.MergeExample | src/pages/Settings.tsx:197-201 | A backup holding a new version of record 1 and record 2 replaces record 1. |
| Settings.AddEntry | src/pages/Settings.tsx:53-61 | A non-empty draft is appended under the fresh id and the field clears; an empty draft changes nothing. |
| Settings.RemoveEntry | src/pages/Settings.tsx:63-65 | No entry with the id remains; every other entry remains. |
| Settings.RemoveKeepsOrder | src/pages/Settings.tsx:127-129 | Removal keeps the other entries in their order. |
| Settings.RemoveUndoesAdd | src/pages/Settings.tsx:131-143 | Removing an entry just added under a fresh id restores the list. |
| Settings.HandleClear | src/pages/Settings.tsx:218-226 | Each press toggles the armed flag. The records are either kept or emptied, and only an armed press empties them. |
| Settings.ClearNeedsTwoPresses | src/pages/Settings.tsx:218-226 | From the unarmed state, one press keeps every record and two presses delete them all. |
| Text.SplitLines | src/pages/Settings.tsx:79 | Splitting at `\r?\n` gives one line per line feed plus one, and no line holds a line feed. |
| Text.SplitLinesJoin | src/pages/Settings.tsx:79 | Without carriage returns, the lines rejoined at line feeds give back the file's text. |
| Text.JoinSplitLines | src/pages/Settings.tsx:79 | Lines free of line breaks, written one per line, split back into the same lines. |
| Text.TrimStartRemovesWhitespace | src/pages/Settings.tsx:84 | `trim` drops only whitespace from the front, and what it keeps starts with a non-whitespace character. |
| Text.TrimEndRemovesWhitespace | src/pages/Settings.tsx:84 | `trim` drops only whitespace from the end, and what it keeps ends with a non-whitespace character. |
| Text.BlankIffAllWhitespace | src/pages/DataEntry.tsx:90 | `term.trim()` is empty exactly when every character is whitespace. |
| Text.ContainsIffOccurs | src/utils/localStorageManager.ts:50-51 | `includes` holds exactly when the term occurs at some position. |
| Text.ToLowerIdempotent | src/utils/localStorageManager.ts:51 | Lower-casing twice is lower-casing once. |
| Text.IntToStringRoundTrip | project/src/utils/exportHelpers.ts:69-71 | An integer's decimal text parses back to the integer. |
| Csv.DecodeEncodeRow | project/src/utils/exportHelpers.ts:24-33 | A row of cells, raw ones free of commas, quotes and line feeds, reads back as the same cells. |
| Csv.QuoteFieldRoundTrip | project/src/utils/exportHelpers.ts:32 | A field enclosed in quotes with its quotes doubled reads back as the field. |
| Csv.CommaInLastRawCell | src/utils/exportHelpers.ts:50 | A raw cell holding a comma writes the same text as two cells. |
| Csv.DocumentReadsBack | src/utils/exportHelpers.ts:48-51 | A document of rows without line feeds splits into one line per row, each reading back as its row. |
| Export.CsvTextReadsBack | project/src/utils/exportHelpers.ts:22-34 | The text has one line per record plus the header. The header reads back as its titles, and line i+1 as record i's cells. |
| Export.ProjectCsv | project/src/utils/exportHelpers.ts:5-34 | There is no file exactly when there are no records. |
| Export.ProjectCsvReadsBack | project/src/utils/exportHelpers.ts:5-34 | The CSV has a line per record after the header, and each line reads back as that record's eight fields. |
| Export.ProjectCsvCellsMeaning | project/src/utils/exportHelpers.ts:24-32 | Eight fields, notes enclosed and the others raw. Actual quantity, defects and minutes parse back to the record's numbers. |
| Export.ProjectPdfRows | project/src/utils/exportHelpers.ts:49-73 | There are no rows exactly when there are no records. Otherwise there is one seven-column row per record whose counts parse back. |
| Export.ProjectPdfMatchesCsv | project/src/utils/exportHelpers.ts:24-31 | The PDF row has the CSV record's texts without the notes. |
| Export.OptionalIntText | src/utils/exportHelpers.ts:35 | An absent plan renders empty, and a present one renders as text that parses back. |
| Export.SrcCsvAsWritten | src/utils/exportHelpers.ts:12-51 | There is no file exactly when there are no records. |
| Export.SrcCsvCommaInNotes | src/utils/exportHelpers.ts:44 | Notes with a comma read back as 13 fields under a 12-column header. |
| Export.SrcCsv | src/utils/exportHelpers.ts:12-51 | There is no file exactly when there are no records. |
| Export.SrcCsvAsWrittenReadsBack | src/utils/exportHelpers.ts:16-51 | As written, when no text of any record holds a comma, quote or line feed, the file has one line per record after the header, and each line reads back as that record's twelve unenclosed fields. |
| Export.SrcCsvReadsBack | src/utils/exportHelpers.ts:12-51 | With the notes enclosed, each line reads back as its record's twelve fields. |
| Export.SrcCsvCellsMeaning | src/utils/exportHelpers.ts:32-45 | Twelve fields. The plan and output parse back, and an absent plan is an empty field. The metrics are the record's four metrics at two decimals, and the notes are enclosed. |
| Export.EarliestDate | src/utils/exportHelpers.ts:80 | The earliest date is no later than any record's date and is some record's date. |
| Export.LatestDate | src/utils/exportHelpers.ts:81 | The latest date is no earlier than any record's date and is some record's date. |
| Export.SrcPdfRows | src/utils/exportHelpers.ts:85-98 | One twelve-column row per record. The plan and output parse back, and the notes are the last column. |
| Export.SrcPdf | src/utils/exportHelpers.ts:68-98 | No records give no report. An absent plan fails, as `toString` on undefined throws. Otherwise the period spans exactly the earliest to the latest record date, and the rows are the records' rows. |

## Left out

- Browser storage and `JSON.parse`/`JSON.stringify` are left out. The store is a sequence, and a parsed import file is a parameter that is an exception, a non-array or an array of records.
- `FileReader`, `Blob`, object URLs, download links, `jsPDF` drawing, `alert`, `console.error` and `window.scrollTo` are left out: they are I/O.
- `window.confirm` is a boolean parameter, and `crypto.randomUUID` is a fresh-id parameter (a generator for the product import).
- Dates are whole day numbers. Date parsing, time zones, `toISOString`, `toLocaleDateString` and the `setHours(23, 59, 59)` end-of-day stretch are left out; on whole days that stretch is `<=`.
- `toFixed`, `toLocaleString` and `String` of real numbers are the fields of a `Formatter` parameter. Floating point is exact real arithmetic.
- `toLowerCase` is modelled for ASCII letters only.
- Metrics.Efficiency: with an absent planned quantity the source divides by `undefined` and gets NaN; the model gives 0.
- DataTable.SortedData requires a planned quantity in every row when sorting by the planned column, because comparisons against undefined are inconsistent. Whatever the sort column, rendering a row without a plan throws in the source (`item.plannedQuantity.toLocaleString()` at src/components/DataTable.tsx:105); the table cells are not modelled, so neither is that failure.
- EntryForm.Submit fills the fields the form does not have (product name, planned quantity, hours, workers) with empty values, where the source leaves them undefined.
- DashboardCard.SelectedClasses: a colour key that names an inherited object member (such as `constructor`) is not modelled.
- `handleChange` of the entry form for fields other than the process (`parseFloat(value) || 0`) is left out.
- `handleExportData` of the settings page (a JSON download) and `loadMasterData` of the data-entry page are left out: they are storage and I/O.
- `FilterBar`, `ChartComponent`, `Navbar` and `App` are not part of this model; chart drawing is presentation.
- Export.SrcCsvReadsBack and Export.ProjectCsvReadsBack require the raw fields (product, process, worker, rendered numbers) to hold no comma, quote or line feed, and the notes no line feed. The source writes those fields unenclosed.
- Ordering.LexLess compares strings by Unicode scalar value, while JavaScript's `<` compares UTF-16 code units. The two orders differ for characters outside the Basic Multilingual Plane: `𠮷` (U+20BB7, code units D842 DFB7) sorts before `Ａ` (U+FF21) in JavaScript but after it here.
- Csv.EscapeQuotes: its contract only bounds the length; its meaning is stated by the round trip Csv.QuoteFieldRoundTrip.
- DashboardCard.TrendBadge: the optional `trendLabel` text is not modelled.
- NaN, `undefined` arithmetic and JavaScript's dynamic number and string conversions are not modelled.

## Findings

| source | as written | input that shows it | evidently intended | confidence | as-written member | corrected member |
|---|---|---|---|---|---|---|
| src/utils/exportHelpers.ts:44 | the notes field is joined into the CSV record unenclosed | a record whose notes are `a,b` is written as a line that reads back as 13 fields under the 12-column header | enclose the notes in quotes and double any quote, as project/src/utils/exportHelpers.ts:32 does | medium, not executed | Export.SrcCsvCommaInNotes | Export.SrcCsvReadsBack |
