# sheet_cleaner, modelled in Dafny

This project models the line-list cleaning layer of the `sheet_cleaner`
package. That layer does five things:

- It turns raw Google Sheets values into a table.
- It finds misspelled `N/A` values and cells that fail the field patterns, and
  splits those violations into fixable and unfixable ones.
- It writes fixes back to the sheet. Before each write it checks the row's ID.
- It allocates missing record IDs.
- It keeps an exact-match gazetteer with a miss counter, plus the script that
  appends rows to it.

It also models the numbering step that provisions a new sheet.

The files:

| file | module | models |
|---|---|---|
| `wrappers.dfy` | `Wrappers` | `Option` and `Result` |
| `text.dfy` | `Text` | the Python string operations the code relies on: ASCII `lower`/`upper`, `strip`, `int()`/`str()` of integers, `split`/`join` on one character, `zfill` |
| `functions.dfy` | `Functions` | `sheet_cleaner/functions.py` |
| `spreadsheet.dfy` | `Spreadsheet` | the `GoogleSheet` class of `sheet_cleaner/spreadsheet.py` and of its older copy `sheet_cleaner/objects.py` |
| `ids.dfy` | `Ids` | the specification of `insert_ids`' ID allocation, and its properties |
| `csv_geocoder.dfy` | `CsvGeocoder` | `sheet_cleaner/geocoding/csv_geocoder.py` |
| `add_geocode.dfy` | `AddGeocode` | `sheet_cleaner/geocoding/add_geocode.py` |
| `create_sheet.dfy` | `CreateSheet` | `sheet_cleaner/create_sheet.py` |

How the source's objects appear in the model:

- A pandas data frame of strings is a `Frame`: header names plus rectangular rows.
- An error table is a sequence of `Violation` records (row, ID, column, value, optional fix).
- The remote sheet is an in-memory table `cells: seq<seq<string>>`. It may be
  ragged, and a cell past the end reads as `""`.
  - Reading a range returns what the Sheets API returns: trailing empty cells are
    dropped, and an empty range is the "Sheet data not found" error.
  - Writing one cell changes that cell and no other.
- `GoogleSheet` is a class holding the cells, the cleaned header and the
  column-letter dictionary.
  - `fix_cells` (both versions) and `insert_ids` are methods that update `cells`.
  - Each is proved against a specification function: `FixPrefix` for the
    write-back loop, and `IdValues`/`Ids.Allocate` for ID allocation.
- `CSVGeocoder` is a class with three fields:
  - its table, a `map`;
  - its miss counter, a `multiset` of triples;
  - the order in which triples were first missed. That order is what a
    `Counter` iterates in.
- The configuration of `create_sheet.py` is a `Config` class whose section list
  and key-value map are updated by `add_section` and item assignment.

Where the two `GoogleSheet` versions differ, both are modelled:

- `fix_cells` in `objects.py` returns the number of writes (`FixCellsCounted`);
  the one in `spreadsheet.py` returns nothing (`FixCells`).
- `insert_ids` exists only in `objects.py`.

Behaviours of the code that a reader might not expect, and that the model follows:

- In `values2dataframe` the header before position 0 is the last one (Python's
  `columns[-1]`).
- In `get_columns`/`_get_columns` the rename to `country` is overwritten in the
  same iteration, so it has no effect.
- `generate_error_tables` treats an empty candidate fix as no fix.
- `insert_ids` reads the number from the piece between an ID's first and
  second dash (`split('-')[1]`). As a result:
  - the bare number `-5` is read as 5;
  - on a sheet with no IDs, the first ID written is `{base}--9998`, whose piece
    is empty, so the next run cannot read it.
- The new section name in `create_sheet.py` is one past the largest candidate
  suffix. That name can equal the excluded `SHEET1`.
- Each item assignment into the new section passes `configparser`'s
  interpolation check. A sheet name with a stray `%`, such as `50% sample`,
  raises after `add_section` has run, so the new section is left holding only
  the keys assigned before it.

## Model

| member | source | states |
|---|---|---|
| Functions.FirstIndexIsFirst | sheet_cleaner/objects.py:150-152 | `list.index` returns the first position holding the name |
| Functions.RepairHeaders | sheet_cleaner/functions.py:62-66 | the in-place rename loop leaves header `k` as `RepairHeader(h, k)`: `country` when it is blank after stripping and the header before it (the last one for `k = 0`) is exactly `province`, otherwise unchanged |
| Functions.RepairHeaderProvince | sheet_cleaner/functions.py:62-66 | the rename never creates or removes a `province` header, so renaming in place reads the same "previous header" as the original list |
| Functions.Pad | sheet_cleaner/functions.py:70-73 | a short row is extended to the header length with `""` after its own cells; a row that is not short is unchanged |
| Functions.PadRows | sheet_cleaner/functions.py:68-73 | the padding loop pads every data row as `Pad` describes |
| Functions.Values2DataFrame | sheet_cleaner/functions.py:50-83 | the loader computes `ToFrame`: no values is an error, a row wider than the header is an error, otherwise the repaired and stripped header plus `row`, with padded rows |
| Functions.ToFrameOk | sheet_cleaner/functions.py:68-74 | the load succeeds iff there is a header row and no data row is longer than it |
| Functions.ToFrameContents | sheet_cleaner/functions.py:68-83 | the frame is rectangular, its header names are stripped and end in `row`, each row keeps its cells and is padded with `""`, and row `k` has the row number `str(k + 2)` |
| Functions.ToFrameCountryRename | sheet_cleaner/functions.py:62-66 | header `i` of the frame is `country` when the raw header is blank and follows `province`, else the raw header stripped (the strip of line 83) |
| Functions.ToFrameRowNumber | sheet_cleaner/functions.py:79-80 | data row `k` of a loaded frame ends with the sheet row number `k + 2` as text, one cell past the header's width |
| Functions.ToFrameRowsNumbered | sheet_cleaner/functions.py:79-80 | every loaded frame is rectangular and numbered `2, 3, ...` in its last column, `row`, which follows the header's columns |
| Functions.RowNumbersDistinct | sheet_cleaner/functions.py:79-80 | distinct rows of a numbered frame carry distinct `row` values, so `row` identifies a data row |
| Functions.ScanRowsComplete | sheet_cleaner/functions.py:98-101 | a column scan reports a violation iff some row's cell is flagged, with that row's `row` and `ID` cells, the column name, the value and its fix |
| Functions.ScanColumn | sheet_cleaner/functions.py:114-117 | the scan loop over one column builds exactly the scan `ScanRows` specifies |
| Functions.GetNAErrors | sheet_cleaner/functions.py:85-104 | the N/A table of a frame: empty when every column is `row`, a KeyError when `row` or `ID` is missing, else the scans of every non-`row` column in column order |
| Functions.NAUpToSound | sheet_cleaner/functions.py:94-102 | every N/A violation is in a column other than `row`, its value starts with `N/A`, and its fix is `NA` exactly when the value is `N/A` (otherwise the value itself) |
| Functions.NAUpToComplete | sheet_cleaner/functions.py:94-102 | every cell outside `row` that starts with `N/A` is reported |
| Functions.RegexErrorsStaysErr | sheet_cleaner/functions.py:113-114 | once a column lookup raises, the whole test's result is that error |
| Functions.RegexErrorsMissing | sheet_cleaner/functions.py:113-115 | a missing tested column, `row` or `ID` column is the error of the whole test, naming the missing column |
| Functions.ErrorTest | sheet_cleaner/functions.py:106-119 | `ErrorTest` succeeds iff every lookup succeeds; it then appends the violations of each named column in order, and otherwise returns the KeyError |
| Functions.RegexErrorsUnfixed | sheet_cleaner/functions.py:113-118 | every violation a pattern test reports fails the pattern, is in a tested column, and carries no fix |
| Functions.AllViolationsUpToUnfixed | sheet_cleaner/functions.py:126-130 | no entry of the violation table built by the four tests carries a fix yet |
| Functions.AllViolationsStaysErr | sheet_cleaner/functions.py:127-130 | a test that raises makes the four-test sequence raise with its error |
| Functions.GenerateErrorTables | sheet_cleaner/functions.py:121-157 | the result is an error iff one of the four tests (age, sex, dates, lives_in_Wuhan) raises; otherwise it is the table split by `FixOf` into fixable entries (with fix) and unfixable entries, in table order, and the two parts with fixes erased are the violation table as a multiset |
| Functions.FixableOfSound | sheet_cleaner/functions.py:148-150 | each fixable entry is a table entry with the fix found for it |
| Functions.FixableOnlyLivesInWuhan | sheet_cleaner/functions.py:137-150 | only `lives_in_Wuhan` violations are fixable, and their fix is non-empty |
| Functions.FixableSizes | sheet_cleaner/functions.py:148-155 | the two tables together are exactly as long as the violation table |
| Functions.FixablePartition | sheet_cleaner/functions.py:148-155 | for a table whose entries carry no fix (as the four tests build it), the fixable entries with fixes erased and the unfixable entries together are the table as a multiset: nothing is lost or duplicated |
| Functions.UnfixableHaveNoFix | sheet_cleaner/functions.py:151-155 | an unfixable entry is a table entry for which no fix exists |
| Functions.FixesPassOrTranslate | sheet_cleaner/functions.py:136-149 | every entry of the fixable table is a `lives_in_Wuhan` violation whose fix either passes the `lives_in_Wuhan` pattern and is the value lower-cased and stripped, or is `yes` for the value `1` or `no` for the value `0` |
| Functions.DuplicateRowsPerColumn | sheet_cleaner/functions.py:161-171 | an error iff some row's count is missing or text, naming the first such row; otherwise every original row (its `aggr` cleared if it was expanded), followed by each positive-count row's copies with the count cleared, in row order; once a row is expanded the frame has an `aggr` column, NaN in every row that had none |
| Functions.AppendedLength | sheet_cleaner/functions.py:164-170 | the frame grows by exactly the sum of the positive counts |
| Functions.AppendedAreCopies | sheet_cleaner/functions.py:167-170 | every appended row is an original row with a positive count, with that count cleared (and NaN in `aggr` if the row had no such cell) |
| Functions.DuplicatedAggrColumn | sheet_cleaner/functions.py:169-170 | once a row is expanded every result row has an `aggr` cell, and on a frame without an `aggr` column that column is NaN in every row, copies included |
| Functions.DuplicateRowsNoAggrCase | sheet_cleaner/functions.py:162-170 | a frame `n` = 2 without `aggr` becomes (2, NaN), (NaN, NaN), (NaN, NaN) in columns `n`, `aggr` |
| Functions.DuplicateRowsTestCase | sheet_cleaner/test_functions.py:12-20 | FR/NaN, CH/3, US/NaN expand to FR, CH, US, CH, CH, CH, all with NaN counts |
| Functions.TrimDf | sheet_cleaner/functions.py:173-177 | after the column-by-column loop every cell of the frame is stripped and nothing else changes |
| Functions.TrimmedIdempotent | sheet_cleaner/functions.py:173-177 | trimming twice is trimming once, and no trimmed cell starts or ends with whitespace |
| Functions.FixSexSpec | sheet_cleaner/functions.py:179-187 | `_fix_sex` gives `male` iff the value is m/male in any case, `female` iff f/female in any case, and leaves every other value unchanged |
| Functions.FixSexIdempotent | sheet_cleaner/functions.py:179-187 | `_fix_sex` applied twice equals once |
| Functions.FixSexColumn | sheet_cleaner/functions.py:189-191 | `fix_sex` maps every value of the column through `_fix_sex`, keeping positions |
| Functions.FixNaSpec | sheet_cleaner/functions.py:193-199 | `_fix_na` gives `NA` iff the value is N/A or NA in any case, and leaves every other value unchanged |
| Functions.FixNaIdempotent | sheet_cleaner/functions.py:193-199 | `_fix_na` applied twice equals once |
| Functions.FixNaColumn | sheet_cleaner/functions.py:201-202 | `fix_na` maps every value of the column through `_fix_na`, keeping positions |
| Functions.FixColumnsIdempotent | sheet_cleaner/functions.py:189-202 | running either column normaliser twice changes nothing more |
| Spreadsheet.Index2A1 | sheet_cleaner/spreadsheet.py:133-152 | `index2A1` succeeds iff the index is in 0..77, and raises with the index otherwise; the copy at sheet_cleaner/objects.py:212-230 has the same three bands and the same error |
| Spreadsheet.A1RoundTrip | sheet_cleaner/spreadsheet.py:144-150 | the letters produced name the column they were made from: `A`..`Z`, then `AA`..`AZ`, `BA`..`BZ` |
| Spreadsheet.Index2A1Injective | sheet_cleaner/objects.py:222-230 | no two indices in 0..77 share letters |
| Spreadsheet.HeaderRangeEnds | sheet_cleaner/objects.py:105 | the header range `A1:AG1` ends at index 32, so at most 33 headers are read |
| Spreadsheet.SetCell | sheet_cleaner/spreadsheet.py:126-131 | a `[[fix]]` write sets exactly the one target cell |
| Spreadsheet.WriteColumn | sheet_cleaner/objects.py:201-209 | a column write from row `from` sets rows `from..from+n-1` of that column and no other cell |
| Spreadsheet.ReadCell | sheet_cleaner/spreadsheet.py:78-81 | a one-cell read returns the cell, or "Sheet data not found" iff it is empty |
| Spreadsheet.ReadHeader | sheet_cleaner/spreadsheet.py:98-99 | the header read returns the first 1..33 cells of row 1 up to the last non-empty one, and fails iff those 33 are all empty |
| Spreadsheet.ReadColumn | sheet_cleaner/objects.py:157-161 | a column read returns the column from row 1 to its last non-empty cell, with every cell below it empty, and fails iff the column is empty |
| Spreadsheet.ColumnDict | sheet_cleaner/spreadsheet.py:31 | the dictionary is built iff there are at most 78 headers; otherwise `index2A1` raises at index 78 |
| Spreadsheet.ColumnDictKeys | sheet_cleaner/spreadsheet.py:31 | the dictionary's keys are exactly the header names |
| Spreadsheet.ColumnDictLastWins | sheet_cleaner/spreadsheet.py:31 | a repeated header maps to the letters of its last position |
| Spreadsheet.ColumnDictNamesItsColumn | sheet_cleaner/spreadsheet.py:31 | the letters stored for a name lead back to a column headed by that name |
| Spreadsheet.ColumnDictLetters | sheet_cleaner/objects.py:29 | every dictionary value is a valid column reference |
| Spreadsheet.RowNumber | sheet_cleaner/spreadsheet.py:120-122 | an error's row is used only when it is a decimal number of at least 1 |
| Spreadsheet.FixStepWrites | sheet_cleaner/spreadsheet.py:119-131 | one error is written only if its column is known, its row is valid, column A of that row equals its ID, and it has a fix; the write changes exactly cell (row, `column_dict[column]`) to the fix |
| Spreadsheet.FixStepEmptyId | sheet_cleaner/spreadsheet.py:124-125 | an empty column-A cell in the error's row fails with "Sheet data not found" (the read of lines 78-79) and writes nothing |
| Spreadsheet.FixStepMismatch | sheet_cleaner/spreadsheet.py:124-125 | a different ID in column A fails the check with the row, the expected ID and the ID found |
| Spreadsheet.FixPrefix | sheet_cleaner/objects.py:126-142 | after `k` errors at most `k` were written, and exactly `k` when none failed |
| Spreadsheet.FixPrefixStops | sheet_cleaner/spreadsheet.py:119-131 | after the first failure no later error is attempted |
| Spreadsheet.FixPrefixAbort | sheet_cleaner/objects.py:127-133 | on a failure, every error before the failing one was written, those writes stay, and the failing error is the one whose step fails |
| Spreadsheet.FixPrefixFrame | sheet_cleaner/spreadsheet.py:119-131 | a cell that no written error targets keeps its value |
| Spreadsheet.InsertIdsCoverage | sheet_cleaner/objects.py:158-207 | the write covers one row less than the longer of the ID column below its header and the country column with its header; each written value is the formatted allocated number for its row |
| Spreadsheet.GoogleSheet.Connect | sheet_cleaner/spreadsheet.py:23-31 | construction fails iff the header row is empty; otherwise the columns are the stripped headers and the dictionary is built from them |
| Spreadsheet.GoogleSheet.GetColumns | sheet_cleaner/spreadsheet.py:97-107 | `_get_columns` returns every header stripped; the `country` rename is overwritten; `get_columns` at sheet_cleaner/objects.py:104-114 has the same net effect |
| Spreadsheet.GoogleSheet.ApplyFixes | sheet_cleaner/objects.py:126-140 | the loop of `fix_cells` checks and writes each error in turn, counting the writes, and stops at the first failed check: its result is `FixPrefix` over all the errors |
| Spreadsheet.GoogleSheet.FixCells | sheet_cleaner/spreadsheet.py:109-131 | without `fix` and `value` columns the call fails and writes nothing; otherwise the sheet and the failure are those of `FixPrefix` over all errors |
| Spreadsheet.GoogleSheet.FixCellsCounted | sheet_cleaner/objects.py:116-142 | as `FixCells`, and a successful call returns the number of errors written |
| Spreadsheet.GoogleSheet.InsertIds | sheet_cleaner/objects.py:144-209 | the values written are `IdValues` of the sheet before the call, written from row 2 of the ID column; any error leaves the sheet unchanged |
| Spreadsheet.GoogleSheet.Number | sheet_cleaner/objects.py:163-199 | the three numbering loops and the formatting compute `NumberedIds`: parse, fill the holes, append `diff` new numbers, format, and drop the last |
| Spreadsheet.GoogleSheet.ParseIdCells | sheet_cleaner/objects.py:165-179 | the parse loop yields `Ids.ParseCells`, and the running maximum is `Ids.MaxFrom` of the parsed cells |
| Spreadsheet.GoogleSheet.FillHolesInPlace | sheet_cleaner/objects.py:181-185 | the in-place fill yields `Ids.FillHoles`, and the counter ends one step higher per hole |
| Spreadsheet.GoogleSheet.ExtraIds | sheet_cleaner/objects.py:188-191 | the while loop appends `diff` further numbers from the counter (none if `diff <= 0`) |
| Ids.ParseCells | sheet_cleaner/objects.py:167-179 | a successful read has one entry per cell below the header |
| Ids.ParseCellsMeaning | sheet_cleaner/objects.py:167-179 | each blank cell is a hole at its position; every other cell is its parsed number; a failed read names a non-blank cell that does not parse |
| Ids.ParseCellsStaysErr | sheet_cleaner/objects.py:174 | an unparseable cell anywhere makes the whole read fail |
| Ids.MaxFrom | sheet_cleaner/objects.py:166-177 | the maximum is at least the sentinel -9999, no parsed number exceeds it, and it is the sentinel or one of the numbers |
| Ids.AllocateKeeps | sheet_cleaner/objects.py:181-193 | existing numbers keep their positions, and the list grows by the positive part of `diff` |
| Ids.AllocateNewAbove | sheet_cleaner/objects.py:181-191 | every newly assigned number is greater than every existing number |
| Ids.AllocateNewIncreasing | sheet_cleaner/objects.py:181-191 | newly assigned numbers strictly increase left to right, so they are pairwise distinct |
| Ids.FirstFromSentinel | sheet_cleaner/objects.py:166 | with no existing number the first number assigned is -9998 |
| Ids.AllocateExample | sheet_cleaner/objects.py:182-185 | holes are filled left to right from the maximum: [_, 5, _, 3] becomes [6, 5, 7, 3] |
| Ids.NewValues | sheet_cleaner/objects.py:196-207 | every number except the last is formatted: bare on `Hubei`/`outside_Hubei`, `{ID}-{n}` elsewhere |
| Ids.ParseIdFormat | sheet_cleaner/objects.py:170-174 | a non-negative number written as an ID reads back as itself when the base ID has no dash |
| Ids.SentinelIdUnreadable | sheet_cleaner/objects.py:166-207 | on a sheet (not `Hubei`/`outside_Hubei`) with no IDs and any base ID without a dash, the first value written to row 2 is `{base}--9998`, which the ID parser cannot read |
| Ids.SentinelIdBlocksNextRun | sheet_cleaner/objects.py:167-174 | once `{base}--9998` is in the ID column, every later ID read of that column fails |
| Ids.NegativeLegacyIdLosesSign | sheet_cleaner/objects.py:170-171 | only the text after the dash is parsed, so `-5` reads as 5 |
| CsvGeocoder.TableUpTo | sheet_cleaner/geocoding/csv_geocoder.py:53-70 | the table builds iff every row has ten fields; otherwise the error names the first short row |
| CsvGeocoder.TableKeys | sheet_cleaner/geocoding/csv_geocoder.py:70 | the table's keys are exactly the lower-cased input fields |
| CsvGeocoder.TableLastWins | sheet_cleaner/geocoding/csv_geocoder.py:70 | a key maps to the geocode of the last row that has it |
| CsvGeocoder.KeyIgnoresCase | sheet_cleaner/geocoding/csv_geocoder.py:83 | the lookup key is the same whatever the case of the three names |
| CsvGeocoder.MissLineReadsBack | sheet_cleaner/geocoding/csv_geocoder.py:94-96 | a misses line for names without commas, quotes or line breaks splits back into the three names and the count, ending in `\r\n` |
| CsvGeocoder.ReportOfOneMiss | sheet_cleaner/geocoding/test_csv_geocoder.py:33-37 | one miss of foo/bar/baz is reported as `foo,bar,baz,1\r\n` |
| CsvGeocoder.CSVGeocoder.Load | sheet_cleaner/geocoding/csv_geocoder.py:42-72 | the constructor fails on the first row with fewer than ten fields; otherwise its table is `Table(rows)` and no misses are recorded |
| CsvGeocoder.CSVGeocoder.Geocode | sheet_cleaner/geocoding/csv_geocoder.py:75-88 | a hit returns the stored geocode and changes nothing; a miss returns none and counts the triple, as spelled, once more; the table never changes |
| CsvGeocoder.CSVGeocoder.WriteMissesToCsv | sheet_cleaner/geocoding/csv_geocoder.py:90-96 | the report is one line per distinct missed triple, in first-miss order, with its count |
| CsvGeocoder.MissesScenario | sheet_cleaner/geocoding/test_csv_geocoder.py:26-31 | two identical misses give a count of 2 |
| AddGeocode.GeoResolution | sheet_cleaner/geocoding/add_geocode.py:26-32 | the resolution is `admin3` if given, else `admin2`, else `admin1`, else `""` |
| AddGeocode.NonEmpty | sheet_cleaner/geocoding/add_geocode.py:35 | every kept name is non-empty and one of the inputs, and every non-empty input is kept |
| AddGeocode.NonEmptyPositions | sheet_cleaner/geocoding/add_geocode.py:35 | the kept names are the non-empty inputs at strictly increasing positions, each non-empty position once: order and repeats are kept |
| AddGeocode.QueryAllGiven | sheet_cleaner/geocoding/add_geocode.py:35 | with all three names given the query is `city, province, country` |
| AddGeocode.QueryCountryOnly | sheet_cleaner/geocoding/add_geocode.py:35 | with no city and no province the query is the country alone |
| AddGeocode.NewRow | sheet_cleaner/geocoding/add_geocode.py:20-58 | no row iff coordinates are missing or zero and the lookup fails; otherwise ten fields in the geocoder's order, with the looked-up point and resolution `point` when coordinates were missing, `""` for absent names, and the line count plus one as `admin_id` |
| AddGeocode.AppendedRowIsFound | sheet_cleaner/geocoding/add_geocode.py:47-57 | a row appended this way is what the geocoder finds for the same three names in any case, with `admin_id` the line count plus one |
| CreateSheet.Candidates | sheet_cleaner/create_sheet.py:35-38 | the candidates are exactly the sections matching `^SHEET\d*$` other than `SHEET0` and `SHEET1` |
| CreateSheet.SheetSections | sheet_cleaner/create_sheet.py:35-38 | the collecting loop yields the candidates in configuration order |
| CreateSheet.Suffix | sheet_cleaner/create_sheet.py:40 | a candidate has a numeric suffix unless it is the bare `SHEET` |
| CreateSheet.Suffixes | sheet_cleaner/create_sheet.py:40 | all suffixes, or the bare-`SHEET` error iff some candidate is bare |
| CreateSheet.IdOf | sheet_cleaner/create_sheet.py:41 | a section's ID is read only when the section has an `ID` key; otherwise the error names the section |
| CreateSheet.IdNumbers | sheet_cleaner/create_sheet.py:41 | all candidates' IDs, or an error naming a candidate |
| CreateSheet.MaxOf | sheet_cleaner/create_sheet.py:40-41 | `max` of a non-empty list bounds every element |
| CreateSheet.MaxOfAttained | sheet_cleaner/create_sheet.py:40-41 | `max` is one of the elements |
| CreateSheet.NextFromFails | sheet_cleaner/create_sheet.py:40-41 | no candidates is `max([])`, a bare `SHEET` is `int('')`, and any other failure is a missing or non-numeric ID of a candidate |
| CreateSheet.NextSectionIsNew | sheet_cleaner/create_sheet.py:40-42 | the new name is a numbered section whose suffix exceeds every candidate's, so it is no candidate |
| CreateSheet.SheetName | sheet_cleaner/create_sheet.py:42 | `'SHEET' + str(n)` matches the section pattern with suffix `n` |
| CreateSheet.NextSectionClash | sheet_cleaner/create_sheet.py:37-45 | the only existing section the new name can equal is `SHEET1` |
| CreateSheet.ZeroSuffixesGiveSheet1 | sheet_cleaner/create_sheet.py:37-42 | when every candidate's suffix is 0 the new name is `SHEET1` |
| CreateSheet.NextIdValue | sheet_cleaner/create_sheet.py:41-43 | the new ID is at least 3 characters, exceeds every candidate ID, and is exactly one past the largest |
| Text.ZFillKeepsValue | sheet_cleaner/create_sheet.py:43 | zero-padding an integer's text keeps its value when read back |
| CreateSheet.Config.AddSection | sheet_cleaner/create_sheet.py:45 | `add_section` appends a new empty section; an existing name is an error that changes nothing |
| CreateSheet.PlainAccepted | sheet_cleaner/create_sheet.py:46-48 | a value without `%` passes the interpolation check of an item assignment |
| CreateSheet.LonePercentRefused | sheet_cleaner/create_sheet.py:46-48 | a `%` that starts neither `%%` nor a `%(` reference makes the assignment raise |
| CreateSheet.PercentNameRefused | sheet_cleaner/create_sheet.py:46 | a sheet name such as `50% sample` cannot be assigned to `NAME` |
| CreateSheet.EscapedAccepted | sheet_cleaner/create_sheet.py:46-48 | any value with every `%` doubled passes the check |
| CreateSheet.IdTextAccepted | sheet_cleaner/create_sheet.py:43-48 | the new ID, a zero-filled integer, always passes the check |
| CreateSheet.FillOfNewId | sheet_cleaner/create_sheet.py:43-48 | only the name and the spreadsheet ID can stop the assignments; when both pass, the section holds exactly `NAME`, `SID` and `ID` |
| CreateSheet.Config.Set | sheet_cleaner/create_sheet.py:46-48 | an item assignment changes one key of one section; a value the interpolation check refuses raises and changes nothing |
| CreateSheet.FillSection | sheet_cleaner/create_sheet.py:46-48 | the three assignments into the new empty section stop at the first refused value, which is the error; the section then holds exactly the keys assigned before it (all three when none is refused) |
| CreateSheet.AddNumberedSection | sheet_cleaner/create_sheet.py:45-48 | add the section, then its three keys; a duplicate name changes nothing; a refused value leaves the new section in place holding the keys assigned before it |
| CreateSheet.UpdateConfig | sheet_cleaner/create_sheet.py:35-48 | a planning error or a duplicate name leaves the configuration unchanged; otherwise one section is appended, named and numbered by the plan, holding `NAME`, `SID` and `ID` on success, and only the keys before the first refused value when an assignment raises |
| CreateSheet.ReferenceValues | sheet_cleaner/create_sheet.py:60-66 | five values, the ID prefixed with `'` |
| CreateSheet.ReferenceRow | sheet_cleaner/create_sheet.py:58 | the target row is just below the last non-empty cell of column A; an empty column A is an error |
| CreateSheet.WriteRow | sheet_cleaner/create_sheet.py:68-73 | the values land in columns A onwards of the row, and no other cell changes |
| CreateSheet.AppendReference | sheet_cleaner/create_sheet.py:56-73 | opening the reference sheet fails with "Sheet data not found" when its row 1 is empty, as does an empty column A; otherwise the five values go into A..E of the first row after column A's data, and nothing else changes |

## Left out

- `fix_cells` writes each cell to the sheet as it goes. The model applies the
  writes to a copy of the cells and stores the copy back when the loop ends;
  the cells seen after a failure are the same either way.
- Google authentication, the Sheets and Drive API calls and `get_GoogleSheets`
  (sheet_cleaner/functions.py:21-46) are not modelled. The sheet is an in-memory
  table, and the only behaviour kept from `read_values` is that an empty range
  raises "Sheet data not found".
- `Template.copy`, `rename_sheet`/`_rename_sheet`, the configuration file write
  and the spreadsheet ID returned by the Drive copy: the ID is a parameter.
- `constants.py` is not part of this model. The field patterns are parameters
  (`string -> bool`), and so is the list of date columns.
- The pandas dtype casts of `values2dataframe` (sheet_cleaner/functions.py:75-77).
- `values2dataframe`: a raw header that is already `row` is not modelled
  specially. The model appends its own `row` column at the end.
- Duplicate column names in a frame: the model looks a column up by its first
  position.
- `generate_error_tables`: a NaN value in a tested cell is not modelled; all
  cells are text.
- `duplicate_rows_per_column`: a frame is a sequence of per-row maps, so the
  `aggr` column the first expansion adds is added row by row, to the rows that
  lack it; in a pandas frame those are all rows or none.
- `duplicate_rows_per_column`: floats and NaN are simplified. A count is
  `Option<int>`, with NaN as `None`, so a fractional count is not modelled.
- Frames are values: pandas aliasing (the frame changed in place and also
  returned) is not modelled.
- Python's Unicode `lower`, `upper` and `strip` are replaced by ASCII versions.
  `int()` is modelled for optional surrounding whitespace, an optional sign and
  ASCII digits; underscores and non-ASCII digits are not.
- `\d` in the section pattern is ASCII digits.
- `csv_geocoder.py` and `add_geocode.py` do not parse or format floats.
  - Latitude and longitude are kept as the text of their fields.
  - The float formatting of the row writer is a parameter.
- CsvGeocoder.CSVGeocoder.Load: does not fail on a row whose coordinates are not numbers, where `float()` raises, because coordinates are kept as text.
- Functions.TrimDf: strips every column, because every cell of a modelled frame is text; the selection of string-typed columns is not modelled.
- The ArcGIS lookup is a parameter of `AddGeocode.NewRow`, and so is the dump's
  line count. Its `print` calls are left out.
- `csv.writer` quoting of the tab-separated row in `add_geocode.py` is not modelled.
- Reading the dump file and the tab-separated parsing in the geocoder are not
  modelled: the dump is its rows.
- The value-input option of a write (`USER_ENTERED` or `RAW`) is not modelled.
  A written text is stored as given, so the leading `'` of the reference ID
  stays in the cell.
- Sheets range strings are not built or parsed. A write names its row and
  column directly.
- The `configparser` `DEFAULT` section and its fallback lookups are not modelled.
- `configparser` reads with interpolation (`%(name)s` expanded on `get`) are not
  modelled; only the check made when a value is stored is.
- `sheet_cleaner/main.py`, `sheet_cleaner/geocoding/merge.py` and the
  `map_pipeline` scripts are outside the modelled core.
