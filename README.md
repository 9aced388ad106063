# excel-data-hub core, modelled in Dafny

excel-data-hub imports folders of spreadsheets into a database, searches the
imported rows, exports search results as a workbook and serves all of this over
HTTP in several languages. This project models the sequential logic of that
system and proves properties of the model:

- **spreadsheet processing** (`src/excel_processor_sea.rs`):
  - row cleaning and the detection of suspicious escapes;
  - cell type coercion and the union of header names across sheets;
  - the search text and numbering of stored rows;
  - the change check and the counters of a batch import;
  - relevance scoring, ranking and paging of a search;
  - grouping by file and the column set of an export;
  - sheet-name sanitising;
- **the translation manager** (`src/i18n_manager.rs`):
  - JSON flattening;
  - the fallback chain of `translate` and parameter substitution;
  - the expiring translation cache;
  - `Accept-Language` detection;
  - the supported and effective languages;
- **the HTTP layer** (`src/web_server.rs`):
  - the five-minute statistics cache and the statistics endpoint's use of it;
  - `limit`/`offset` normalisation;
  - the empty-query rejection of the search and export endpoints.

Modules, one per file:

| file | module | what it holds |
|---|---|---|
| `wrappers.dfy` | `Wrappers` | `Option`, `Result` |
| `text.dfy` | `Text` | the Rust string operations used (`trim`, `split_whitespace`, `split`, `replace`, `contains`, UTF-8 byte length, `String` ordering) |
| `entities.dfy` | `Entities` | cell values, rows, the `files` and `excel_data` records, response shapes |
| `row_cleaning.dfy` | `RowCleaning` | `clean_row_data`, `find_suspicious_escapes` |
| `sheet_reading.dfy` | `SheetReading` | `read_excel_file`: headers, coercion, rows, field order |
| `importing.dfy` | `Importing` | change check, metadata, `insert_excel_data`, `process_single_file`, the batch loop; the database is the class `Store` |
| `searching.dfy` | `Searching` | `search_data`: keywords, score, in-place ranking sort, paging |
| `exporting.dfy` | `Exporting` | `export_search_results`, `sanitize_sheet_name` |
| `i18n.dfy` | `I18n` | `flatten_json`, `translate`, `replace_params`, the cache, language detection; the manager is the class `I18nManager` |
| `web_server.dfy` | `WebServer` | `StatsCache`, `stats_handler`, `search_handler`, `export_handler` |

The model takes these as parameters:

- **Environment values**:
  - the current time, as an integer;
  - a file's bytes and its workbook, as sequences of string cells;
  - the database statements that fail, as a set of faulty steps.
- **Numbers**: the float parse-and-print round trip of a cell and the printing of a stored number.
- **Hashing**: the MD5 digest.
- **Formatting**: the formatting of an import time.

A `HashMap`'s iteration order is not fixed, so the methods that iterate one pick an order nondeterministically. Their contracts hold for every order.

## Model

| member | source | states |
|---|---|---|
| Text.Trim | src/excel_processor_sea.rs:52 | the result has no leading or trailing whitespace and only characters of the input; it is empty exactly when the input is all whitespace; trimmed input comes back unchanged |
| Text.TrimExact | src/excel_processor_sea.rs:52 | the input is the trimmed text with only whitespace before and after it, so nothing between the first and last non-whitespace character is dropped |
| Text.TrimContained | src/excel_processor_sea.rs:52 | the trimmed text is a substring of the input |
| Text.SplitWhitespaceWords | src/excel_processor_sea.rs:627 | every word of `split_whitespace` is non-empty, has no whitespace and occurs in the text |
| Text.SplitWhitespaceRuns | src/excel_processor_sea.rs:627 | the words are all of the maximal non-whitespace runs of the text, in order: the text is the words interleaved with whitespace gaps, non-empty between words |
| Text.ReplaceAllAbsent | src/i18n_manager.rs:243 | `replace` returns text in which the pattern does not occur unchanged |
| Text.ReplaceAllFirst | src/i18n_manager.rs:243 | `replace` rewrites the first occurrence and continues after the inserted text, so the replacement is never itself rescanned |
| Text.JoinSplit | src/i18n_manager.rs:291 | the pieces of `split(',')` rejoined with ',' give the header back, so no character of it is lost or invented |
| Text.ToLowerAscii | src/i18n_manager.rs:293 | the result has the input's length and no upper-case ASCII letter; every other character is kept, and each of 'A' to 'Z' becomes its lower-case letter |
| Text.ByteLenConcat | src/excel_processor_sea.rs:910 | the UTF-8 byte length of a concatenation is the sum of the parts' byte lengths |
| Text.LexLessTrans | src/excel_processor_sea.rs:840-852 | the `String` order that sorts the export columns is transitive |
| Text.LexLessTotal | src/excel_processor_sea.rs:840-852 | any two distinct strings are ordered one way or the other |
| RowCleaning.PipelineKeepsVisible | src/excel_processor_sea.rs:43-51 | the chain of five `replace` calls and the control-character filter removes exactly the invisible characters (NUL, BOM, U+200B to U+200D, non-whitespace controls) and keeps every other character in order |
| RowCleaning.StripInvisibleIsKeepVisible | src/excel_processor_sea.rs:43-51 | the same holds with `replace` modelled as substring replacement |
| RowCleaning.CleanText | src/excel_processor_sea.rs:43-53 | cleaned text is trimmed and has no invisible character; text that is already clean is unchanged |
| RowCleaning.CleanTextIsPipeline | src/excel_processor_sea.rs:43-53 | cleaning equals the five `replace` calls of `clean_row_data` and its control-character filter, followed by `trim` |
| RowCleaning.CleanTextEmpty | src/excel_processor_sea.rs:43-76 | a key cleans to empty, and its entry is dropped, exactly when every character is invisible or whitespace |
| RowCleaning.CleanTextChars | src/excel_processor_sea.rs:43-53 | cleaning only removes characters; it never introduces one |
| RowCleaning.CleanValue | src/excel_processor_sea.rs:56-72 | strings are cleaned by the same rule as keys; null, boolean and number values pass through unchanged |
| RowCleaning.CleanRowData | src/excel_processor_sea.rs:37-82 | the rebuilt row's keys are exactly the non-empty cleaned keys; each holds the cleaned value of a key that cleans to it; every key and string value of the result is clean |
| RowCleaning.CleaningGivesCleanRow | src/excel_processor_sea.rs:37-82 | any cleaning of a row is a clean row, and its non-string values are original values |
| RowCleaning.CleanRowIsFixed | src/excel_processor_sea.rs:37-82 | a clean row is a cleaning of itself |
| RowCleaning.CleaningOfCleanRow | src/excel_processor_sea.rs:37-82 | a clean row has no other cleaning: cleaning leaves it unchanged |
| RowCleaning.CleaningIsIdempotent | src/excel_processor_sea.rs:37-82 | cleaning an already cleaned row changes nothing |
| RowCleaning.FindSuspiciousEscapes | src/excel_processor_sea.rs:24-34 | the result lists exactly the string entries whose text contains a backslash-u or a NUL, each key once, with its text |
| RowCleaning.CleanTextSuspicion | src/excel_processor_sea.rs:28-44 | after cleaning, no NUL remains, so only the backslash-u test can flag a stored value |
| SheetReading.CoerceCell | src/excel_processor_sea.rs:274-298 | an empty cell is null; a cell becomes a number exactly when it is number-like, at most 15 characters, not a leading-zero identifier and survives the round trip; a string or number keeps the cell's text |
| SheetReading.LeadingZeroStaysText | src/excel_processor_sea.rs:281-282 | "0012345" stays a string whatever the round trip says |
| SheetReading.LongDigitsStayText | src/excel_processor_sea.rs:281-282 | a 16-digit cell stays a string whatever the round trip says |
| SheetReading.HeaderName | src/excel_processor_sea.rs:259-263 | a header name is never empty; a non-empty cell is its own name |
| SheetReading.HeaderRow | src/excel_processor_sea.rs:254-265 | one name per header cell, in column order; no name is empty, a blank cell is named "EMPTY" and any other cell names itself |
| SheetReading.BuildRow | src/excel_processor_sea.rs:268-301 | every column with a header gets an entry, and each entry holds the coerced cell of the last column with that header; cells beyond the headers are ignored |
| SheetReading.DataRows | src/excel_processor_sea.rs:268-305 | at most one row per data line, and no row is empty |
| SheetReading.DataRowsInOrder | src/excel_processor_sea.rs:268-305 | the rows are exactly the non-empty rows built from the data lines, one per such line, in line order |
| SheetReading.ReadSheet | src/excel_processor_sea.rs:237-320 | a sheet contributes only when it is readable and has at least one non-empty data row; it keeps its name |
| SheetReading.SheetsData | src/excel_processor_sea.rs:237-321 | at most one entry per sheet of the workbook |
| SheetReading.SheetsDataInOrder | src/excel_processor_sea.rs:237-321 | the entries are exactly the data of the sheets that contribute, one per such sheet, in workbook order |
| SheetReading.AddNew | src/excel_processor_sea.rs:313-317 | new header names are appended after the existing ones, which are kept; no duplicates are introduced, and the result holds exactly the names of both |
| SheetReading.AddNewFirstSeen | src/excel_processor_sea.rs:313-317 | every appended name is new, and the appended names come in the order of their first occurrence in the header row |
| SheetReading.AddNewAppend | src/excel_processor_sea.rs:308-317 | merging two header rows one after the other is merging their concatenation |
| SheetReading.FieldOrderIsHeaderUnion | src/excel_processor_sea.rs:308-317 | the field order has no duplicates and holds exactly the header names of the sheets that produced data |
| SheetReading.FieldOrderFirstSeen | src/excel_processor_sea.rs:308-317 | the field order is the header names of the contributing sheets, taken in sheet and column order, each at its first occurrence |
| SheetReading.ReadWorkbook | src/excel_processor_sea.rs:222-324 | the loop over sheets yields the sheets that produced data and the field order |
| SheetReading.ReadRows | src/excel_processor_sea.rs:268-305 | the loop over data lines yields the non-empty rows |
| SheetReading.ReadRow | src/excel_processor_sea.rs:271-301 | the loop over a line's cells yields that line's row |
| SheetReading.MergeHeaders | src/excel_processor_sea.rs:313-317 | the loop over a sheet's headers appends the unseen ones |
| Importing.FileName | src/excel_processor_sea.rs:138-142 | the stored file name is the path's last component |
| Importing.Extension | src/excel_processor_sea.rs:104-106 | the extension is the text after the file name's last dot; there is none exactly when the name has no dot or only a leading one |
| Importing.ChangeCheck | src/excel_processor_sea.rs:189-209 | the check fails exactly when the file cannot be hashed or the lookup fails; it answers "unchanged" exactly when a record exists whose hash is the current digest |
| Importing.SkipOnlyWhenHashMatches | src/excel_processor_sea.rs:456-466 | a scanned file is skipped exactly when it is not forced, the check succeeds and the stored hash equals the current one; a failed check queues the file |
| Importing.Queue | src/excel_processor_sea.rs:444-477 | the queue holds exactly the scanned files that need an update, and every file when forced |
| Importing.PlanImport | src/excel_processor_sea.rs:444-477 | the scan loop builds the queue; `total` is its length and `total + skipped` is the number of scanned files |
| Importing.ChunkSize | src/excel_processor_sea.rs:488 | the batch size is at least 1 and equals the concurrency limit when that is positive |
| Importing.Chunks | src/excel_processor_sea.rs:491 | batches are non-empty, no larger than the batch size, full except possibly the last, and together are the queue in order |
| Importing.BuildSearchText | src/excel_processor_sea.rs:340-363 | the search text is the row's rendered values joined by a space, in some order listing every key once |
| Importing.SearchTextHasValues | src/excel_processor_sea.rs:340-363 | the search text contains the rendering of every value of the row, so a search finds a row by any of its cell texts |
| Importing.FirstSheetFault | src/excel_processor_sea.rs:583-593 | the index of the first sheet that has rows and whose insert fails, or the number of sheets; an empty sheet never fails |
| Importing.Without | src/excel_processor_sea.rs:212-219 | deleting a file's data keeps exactly the rows of other files |
| Importing.UpdatedRecord | src/excel_processor_sea.rs:147-185 | the written record has the current hash, size and time; an existing record keeps its name, field order and creation time; a new one takes the file name, no field order and the current time |
| Importing.Store.GetOrCreateFileMetadata | src/excel_processor_sea.rs:125-186 | fails, changing nothing, when the file cannot be read or the write fails; otherwise writes the updated record for the path |
| Importing.Store.DeleteFileData | src/excel_processor_sea.rs:212-219 | on success the file's rows are gone and the others kept; on failure nothing changes |
| Importing.Store.UpdateFileFieldOrder | src/excel_processor_sea.rs:600-620 | a stored file gets the field order and the current time; a missing file or a failed write changes nothing |
| Importing.Store.InsertExcelData | src/excel_processor_sea.rs:327-409 | an empty sheet succeeds without writing; otherwise the sheet's records are appended when the transaction succeeds and nothing is appended when it fails |
| Importing.BuildSheetRecords | src/excel_processor_sea.rs:335-376 | one record per row in order, numbered from 1, each with the cleaned data, its search text, the file, the sheet and the import time |
| Importing.SheetRecordsBelongTo | src/excel_processor_sea.rs:335-376 | every record built for a sheet belongs to the imported file |
| Importing.Store.ImportSheets | src/excel_processor_sea.rs:583-593 | the records of the sheets before the first failing one are appended in sheet order, and the import stops at that sheet |
| Importing.Store.ProcessSingleFile | src/excel_processor_sea.rs:527-597 | the store changes as `ImportsFile` says: an unchanged file is skipped untouched; a metadata failure changes nothing; otherwise the record with the new hash is written first, then the old rows are deleted, the workbook read, the field order updated and the sheets inserted up to the first failing one, and each failure leaves what came before it in place |
| Importing.Store.BatchImport | src/excel_processor_sea.rs:417-524 | the queue is decided against the store before any file is processed; `total` is its length and `total + skipped` the number of scanned files; the store goes through one `process_single_file` per queued file, in queue order; `success` is the number of calls that returned `Ok` and `failed` the rest |
| Importing.Store.ProcessQueue | src/excel_processor_sea.rs:487-521 | the batches, one after another, are a run of `process_single_file` over the whole queue in order, from the old store to the new one; `success` counts the `Ok` results and `success + failed` is the queue length |
| Importing.Store.ProcessChunk | src/excel_processor_sea.rs:492-520 | a run of `process_single_file` over the batch, in batch order, from the old store to the new one; `success` counts the `Ok` results and `failed` the others |
| Importing.CountOkAppend | src/excel_processor_sea.rs:491-520 | the successes of consecutive batches add up |
| Importing.RunAppend | src/excel_processor_sea.rs:491-520 | a run over one batch followed by a run over the next, starting from the store the first left, is a run over both |
| Importing.FailedImportIsSkippedNextTime | src/excel_processor_sea.rs:531-545 | once a file's new hash is stored, a later batch that is not forced skips it, even when its rows did not import |
| Searching.Keywords | src/excel_processor_sea.rs:627 | there are no keywords exactly when the query is all whitespace; each keyword is a whitespace-free word of the query |
| Searching.KeywordsAreRuns | src/excel_processor_sea.rs:627 | the keywords are all of the maximal non-whitespace runs of the query, in order |
| Searching.CountContained | src/excel_processor_sea.rs:665-669 | the count is at most the number of keywords and positive exactly when the text matches one of them |
| Searching.ScoreRange | src/excel_processor_sea.rs:658-676 | for a non-blank query a row scores above zero exactly when it matches, and a match scores between 1 and twice the number of keywords |
| Searching.InsertOrdered | src/excel_processor_sea.rs:681-686 | inserting into a ranked list keeps it ranked |
| Searching.InsertPermutes | src/excel_processor_sea.rs:681-686 | insertion adds exactly the new element |
| Searching.RankSortOrdered | src/excel_processor_sea.rs:681-686 | the ranking is ordered by score descending, then import time descending |
| Searching.RankSortPermutes | src/excel_processor_sea.rs:681-686 | the ranking is a permutation of the scored hits |
| Searching.RankSortKeepsOrdered | src/excel_processor_sea.rs:681-686 | an already ranked list is left as it is |
| Searching.SortByRelevance | src/excel_processor_sea.rs:681-686 | the in-place sort leaves the array holding the ranking of its old contents |
| Searching.RankScored | src/excel_processor_sea.rs:681-686 | sorting the scored hits in a buffer yields their ranking |
| Searching.InsertInPlace | src/excel_processor_sea.rs:681-686 | one insertion step of the in-place sort: the prefix becomes the insertion of the next element, and the rest is untouched |
| Searching.RankSortSnoc | src/excel_processor_sea.rs:681-686 | ranking one more element is inserting it into the ranking of the prefix |
| Searching.InsertKeepsTies | src/excel_processor_sea.rs:681-686 | inserting places the new element after every element it ties with |
| Searching.RankSortStable | src/excel_processor_sea.rs:681-686 | the ranking is stable: elements with equal score and import time keep their input order |
| Searching.Page | src/excel_processor_sea.rs:689-694 | the page is the slice of the ranking from `offset`, of at most `limit` elements, full when enough remain, empty past the end |
| Searching.PagesJoin | src/excel_processor_sea.rs:689-694 | two consecutive pages together are the page of their combined length |
| Searching.MatchingHits | src/excel_processor_sea.rs:638-655 | the hits are exactly the rows matching some keyword, each joined with its file record when there is one |
| Searching.MatchingHitsInOrder | src/excel_processor_sea.rs:638-655 | the hits are the matching rows, each exactly once, so `total` counts the matching rows; they come in store order, which stands in for the query's unspecified order |
| Searching.SearchData | src/excel_processor_sea.rs:623-718 | a blank query gives no results and a total of 0; otherwise the total counts every matching row and the results are the requested page of the ranking; `limit` and `offset` are echoed |
| Searching.ResultsMatch | src/excel_processor_sea.rs:638-694 | every returned row is a stored row that matches the query, and its score is that row's score, between 1 and twice the number of keywords |
| Exporting.DropForbidden | src/excel_processor_sea.rs:905-908 | exactly the characters `\ / ? * [ ] :` are removed, the others kept |
| Exporting.BoundaryIndex | src/excel_processor_sea.rs:910-911 | a found index cuts the name after exactly the given number of bytes |
| Exporting.BoundaryIndexNone | src/excel_processor_sea.rs:910-911 | no index is found exactly when no prefix has that byte length, which is when `truncate` panics |
| Exporting.SanitizeSheetNameAsWritten | src/excel_processor_sea.rs:901-920 | the code as written panics exactly when the filtered name is over 31 bytes and byte 28 is inside a character; otherwise an empty filtered name becomes "Sheet1", one of at most 31 bytes is kept, and a longer one is cut after 28 bytes and gets "..." |
| Exporting.AsWrittenPanicsOnWideNames | src/excel_processor_sea.rs:910-913 | any ten 3-byte characters followed by ".xlsx" make it panic |
| Exporting.AsWrittenPanicsOnSalesReport | src/excel_processor_sea.rs:910-913 | "销售数据统计报表汇总.xlsx" makes it panic |
| Exporting.SanitizeSheetName | src/excel_processor_sea.rs:901-920 | the forbidden characters are removed; an empty result becomes "Sheet1", one of at most 31 characters is kept, and a longer one becomes its first 28 characters followed by "..." |
| Exporting.SanitizeIdempotent | src/excel_processor_sea.rs:901-920 | sanitising a sanitised name changes nothing |
| Exporting.AsWrittenAgreesOnAscii | src/excel_processor_sea.rs:901-920 | on ASCII names the corrected version gives exactly what the code as written gives |
| Exporting.ColumnSet | src/excel_processor_sea.rs:840-850 | the two synthetic columns are always present |
| Exporting.ColumnSetSnoc | src/excel_processor_sea.rs:844-849 | each row adds exactly its data keys to the column set |
| Exporting.InsertSorted | src/excel_processor_sea.rs:840-847 | a `BTreeSet` insert: the result holds the old elements and the new one |
| Exporting.InsertSortedSorted | src/excel_processor_sea.rs:840-852 | insertion keeps the set strictly sorted |
| Exporting.SortedUnique | src/excel_processor_sea.rs:852 | two strictly sorted lists with the same elements are equal, so the column order depends only on the column set |
| Exporting.Columns | src/excel_processor_sea.rs:840-852 | the columns are strictly sorted and are exactly the column set |
| Exporting.GroupRows | src/excel_processor_sea.rs:807-814 | a group holds only ranked rows whose file has that name |
| Exporting.GroupRowsComplete | src/excel_processor_sea.rs:809-813 | every ranked row with a file lands in its file's group |
| Exporting.GroupRowsEmpty | src/excel_processor_sea.rs:809-813 | a group is empty exactly when no ranked row has a file of that name |
| Exporting.Groups | src/excel_processor_sea.rs:807-814 | there is one group per file name among the hits, and none is empty |
| Exporting.GroupsSnoc | src/excel_processor_sea.rs:809-813 | each hit with a file is appended to its group; a hit without a file is dropped |
| Exporting.GroupByFile | src/excel_processor_sea.rs:807-814 | the grouping loop builds exactly the groups |
| Exporting.BuildSheet | src/excel_processor_sea.rs:832-887 | a sheet named by the sanitised file name, with the columns as header and one row of cells per grouped row, in ranking order |
| Exporting.WriteSheets | src/excel_processor_sea.rs:830-893 | one sheet per group, in some order of the groups |
| Exporting.ExportSearchResults | src/excel_processor_sea.rs:748-898 | a blank query is an error; no match is an error; otherwise the sheets are those of the grouped ranking |
| Exporting.RankedFromMatching | src/excel_processor_sea.rs:758-767 | every ranked hit is a stored row that matches the query's keywords |
| Exporting.ExportedRowsMatch | src/excel_processor_sea.rs:752-814 | every exported row is a stored row that matches the query |
| I18n.FlattenJson | src/i18n_manager.rs:168-193 | no object is stored as a value; a non-object is stored alone under the prefix |
| I18n.FlattenMembers | src/i18n_manager.rs:172-186 | the members of an object flatten to non-object values only |
| I18n.FlattenSound | src/i18n_manager.rs:168-193 | every flattened entry is a leaf of the document, stored under its path's keys joined with '.' |
| I18n.MembersSound | src/i18n_manager.rs:172-186 | the same holds for the first `n` members of an object |
| I18n.FlattenComplete | src/i18n_manager.rs:168-193 | every non-object leaf of the document has its dotted path among the keys |
| I18n.MembersComplete | src/i18n_manager.rs:172-186 | the same holds for a leaf under one of the first `n` members |
| I18n.ParamsWithoutPlaceholders | src/i18n_manager.rs:239-249 | text with none of the placeholders comes back unchanged |
| I18n.ReplaceParams | src/i18n_manager.rs:239-249 | without params the text is unchanged; with params each `{k}` is replaced by its value in turn, in some order of the keys |
| I18n.Resolve | src/i18n_manager.rs:205-227 | the requested language's string wins; else, for another language than the default, the default language's string; else the key itself |
| I18n.MissingKeyTranslatesToItself | src/i18n_manager.rs:224-227 | a key that no pack has as a string translates to itself |
| I18n.FreshWithoutWrap | src/i18n_manager.rs:256 | when the clock has not gone back and the limit fits in 64 bits, an entry is fresh exactly while its age is below the limit |
| I18n.ClockSetBackExpires | src/i18n_manager.rs:256 | an entry stamped after the current time wraps around to a huge age and counts as expired |
| I18n.TranslateAsWritten | src/i18n_manager.rs:196-236 | the code as written: a fresh entry under "lang:key" is returned, otherwise the chain is resolved and stored under that key |
| I18n.CacheKeysCollide | src/i18n_manager.rs:199-231 | two different (language, key) pairs share the entry "zh:a:b", so the second answer is the first one's text instead of its own |
| I18n.InitLanguageInfo | src/i18n_manager.rs:98-130 | information for zh, en, ar and ug, each under its own code; ar and ug are right-to-left |
| I18n.KnownLanguages | src/i18n_manager.rs:307-311 | the listed entries are exactly the language information of the configured codes that have some |
| I18n.KnownLanguagesInOrder | src/i18n_manager.rs:307-311 | the list holds the information of each configured code that has some, once per code, in configured order |
| I18n.LoadedPacks | src/i18n_manager.rs:133-151 | a pack is loaded exactly for the supported languages that have one |
| I18n.FirstSupported | src/i18n_manager.rs:291-298 | the index of the first supported tag at or after `i`, or the number of tags when none is |
| I18n.I18nManager.constructor | src/i18n_manager.rs:77-91 | the given settings, the built-in language information, the loaded packs and an empty cache |
| I18n.I18nManager.LoadAllTranslations | src/i18n_manager.rs:133-151 | the packs are replaced by those of the supported languages |
| I18n.I18nManager.GetFromCache | src/i18n_manager.rs:252-261 | a value comes back exactly when an entry exists and is fresh |
| I18n.I18nManager.SetCache | src/i18n_manager.rs:264-271 | the entry is stored with the current time |
| I18n.I18nManager.CleanupCache | src/i18n_manager.rs:274-281 | exactly the fresh entries are kept, so no lookup at that time changes |
| I18n.I18nManager.Translate | src/i18n_manager.rs:196-236 | the answer is the fallback chain's text with params applied; a miss with caching on stores that text under the (language, key) pair; the cache stays coherent with the packs |
| I18n.I18nManager.DetectLanguage | src/i18n_manager.rs:284-304 | the default when detection is off or the header is absent or unreadable; otherwise the first range whose primary subtag is supported, else the default |
| I18n.I18nManager.GetSupportedLanguages | src/i18n_manager.rs:307-311 | the listed entries are exactly the information of the supported codes that have some, in configured order (the list is `FilterMap` of the codes, which `KnownLanguagesInOrder` characterises) |
| I18n.I18nManager.GetEffectiveLanguage | src/i18n_manager.rs:355-365 | always the default or a supported language; the default when multilingual is off; a supported request otherwise |
| I18n.I18nManager.GetEffectiveSupportedLanguages | src/i18n_manager.rs:368-377 | with multilingual off, at most the default language's entry; with it on, the supported list |
| I18n.I18nManager.ReloadTranslations | src/i18n_manager.rs:319-331 | the packs are reloaded and the cache is empty afterwards |
| WebServer.Elapsed | src/web_server.rs:39 | the elapsed time is never negative and is the difference when the clock moved forward |
| WebServer.StatsCache.constructor | src/web_server.rs:29-35 | no data, no update time, a 300-second duration |
| WebServer.StatsCache.Update | src/web_server.rs:44-47 | data and update time are set; the duration is unchanged |
| WebServer.StatsCache.Get | src/web_server.rs:37-55 | the data comes back exactly when it was updated and at most 300 seconds have passed |
| WebServer.StatsCache.GetAfterUpdate | src/web_server.rs:44-55 | after an update the new data comes back for 300 seconds, and nothing after |
| WebServer.FreshCacheIsEmpty | src/web_server.rs:29-55 | a new cache counts as expired and answers nothing |
| WebServer.StatsHandler | src/web_server.rs:1057-1088 | a hit answers from the cache; a miss stores fresh statistics; a failed fetch is a 500 and leaves the cache as it was |
| WebServer.ClampLimit | src/web_server.rs:1096 | the limit defaults to 20 and is clamped into [1, 100] |
| WebServer.ClampOffset | src/web_server.rs:1097 | the offset defaults to 0 and is never negative |
| WebServer.SearchHandler | src/web_server.rs:1090-1110 | an absent or empty query is a 400 before any search; a query of spaces has no results and total 0 whatever the database does; a database error on a query with keywords is a 500; otherwise the number of matching rows is the total and the requested page of the ranking the results, with the normalised limit and offset |
| WebServer.ExportHandler | src/web_server.rs:1112-1145 | an absent or empty query is a 400 before any export; a blank query, a database error and an export without matches become 500s with their message; otherwise the sheets of the grouped ranking |

## Left out

- Filesystem and hashing are parameters:
  - the recursive directory scan is not modelled; scanned files are given as a sequence of paths;
  - the batch import's checks that the folder exists and is a directory are not modelled;
  - MD5 is an uninterpreted digest function.
- Database access is the `Store` class's two fields. Queries, joins and ids are not modelled; a file's rows refer to it by path. A failing statement is a member of the file's set of faulty steps.
- Concurrency is not modelled:
  - the `JoinSet` tasks of a batch run one after another in queue order, at a single time `now`;
  - the locks around the caches are left out.
- Floating point is replaced by parameters:
  - `parse::<f64>` and the printed-form comparison become the predicate `roundTrips`;
  - the integer formatting of numbers at or above 1e15 is part of the parameter `render`.
- Wall-clock time is a parameter:
  - `chrono::Utc::now`, `SystemTime` and `Instant::now` are integers;
  - `Instant::elapsed` saturates at zero;
  - the one to four clock readings of an import are a single `now`.
- `i64` casts of counts and sizes and the `i32` row number are unbounded integers.
- The database `LIKE` filter is modelled as substring search of the keyword. `contains` puts the keyword into `LIKE '%kw%'` without escaping it (src/excel_processor_sea.rs:641 and :761), so a `%`, `_` or `\` in a keyword acts as a wildcard or an escape in the database. Such a query can then return rows that do not contain the keyword literally, which the program scores without that keyword's point. The model returns only rows that contain a keyword.
- The order of the matching rows is not modelled. The search and export queries have no `ORDER BY`, so the database returns the matching rows in an unspecified order; the model uses the store's insertion order in its place. Because the ranking sort is stable and every row of one sheet shares one import time, that order decides the order of tied rows, which rows land on a page, and the row order inside an exported sheet.
- Writing the workbook is not modelled:
  - the export produces named sheets of string cells;
  - cell formats, column widths and the byte buffer are left out;
  - so are `rust_xlsxwriter`'s own sheet-name checks, which would reject two groups that sanitise to the same name.
- The attachment file name and headers of the export response are not modelled. Neither are the statistics query (`get_statistics`) and the rest of the HTTP routing and page; the statistics are an input of the statistics endpoint.
- Environment-variable parsing in `I18nManager::new` and the reading of language-pack files are left out; the settings and the parsed packs are constructor parameters.
- `get_language_info`, `get_default_language`, `is_language_supported`, `is_multilingual_enabled` and `get_total_translations` are field reads or counts and have no members of their own.
- `q`-weights of `Accept-Language` (section 12.5.4 of RFC 9110) are ignored, as in the code: the first supported range in list order wins.
- Text.Trim: its own contract does not state where the result sits in the input; `TrimExact` states that.
- Searching.Keywords: its own contract does not state that every word is a keyword, in order; `KeywordsAreRuns` states that.
- Searching.MatchingHits: its own contract does not state multiplicity or order; `MatchingHitsInOrder` states that. The store's insertion order stands in for the unspecified order of the database query, so the order it states is the model's, not a promise of the program.
- SheetReading.DataRows: its own contract bounds the rows only; `DataRowsInOrder` states which rows, in which order.
- SheetReading.SheetsData: its own contract bounds the entries only; `SheetsDataInOrder` states which sheets, in which order.
- SheetReading.AddNew: its own contract does not state the order of the appended names; `AddNewFirstSeen` states that.
- SheetReading.FieldOrderIsHeaderUnion: states the names, not their order; `FieldOrderFirstSeen` states the order.
- Importing.Store.ProcessChunk: the files of a batch are processed one after another in batch order, not as concurrent tasks, so interleavings of their statements are not modelled.
- I18n.I18nManager.Translate: models the cache keyed by the (language, key) pair, not by the colon-joined string; see Findings.
- Exporting.ExportSearchResults: uses the corrected sheet-name sanitiser, so it does not model the panic; see Findings.
- Exporting.CellText: a number cell is rendered through the `display` parameter, not by serde_json's printing.
- When every matching row lacks a file record, the export has no groups and the model returns no sheets; what `rust_xlsxwriter` saves for a workbook without sheets is not modelled.

## Findings

| source | as written | input that shows it | evidently intended | confidence | as-written member | corrected member |
|---|---|---|---|---|---|---|
| src/excel_processor_sea.rs:910-913 | the name's UTF-8 byte length is compared with 31 and the name is cut with `truncate(28)`, which panics when byte 28 falls inside a character | the file name "销售数据统计报表汇总.xlsx" is 35 bytes, and byte 28 falls inside its tenth character | names longer than 31 characters are cut to 28 characters and get "..." appended, as the function's own comment says | high; not executed | Exporting.SanitizeSheetNameAsWritten, Exporting.AsWrittenPanicsOnSalesReport | Exporting.SanitizeSheetName |
| src/i18n_manager.rs:199-231 | the cache key is the string `lang:key`, so two different (language, key) pairs that differ only in where the colon falls share one entry | with pack `zh = {"a:b": "X"}`, `translate("b", "zh:a")` caches "b" under "zh:a:b"; `translate("a:b", "zh")` then returns "b" instead of "X"; the language comes from a batch request's body | one cache entry per (language, key) pair | medium; not executed | I18n.TranslateAsWritten, I18n.CacheKeysCollide | I18n.I18nManager.Translate |
