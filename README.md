# Sensor file pipeline: resolution, normalisation and naming

This is a Dafny model of the logic inside three storage-triggered cloud functions for
water-network sensor files:

- The transformer (`tansform_raw_data.py`) takes a raw `;`-separated file. It resolves the
  object key to a row of the lookup table (`File Name`, `City`, `District`, `Variable`, `Tank`,
  `Sensor ID`) and reshapes the content into a `Sensor ID, Timestamp, Value` table. It then
  writes that table as CSV under the canonical destination
  `city/district/variable/City_District_[tank_in_|tank_out_]Variable_start_end.csv`.
- The event handler (`main.py`) splits an object name into its city, district, sensor type,
  unique id, location and dates.
- The warehouse loader (`move_to_bq.py`) takes the table id from the key's variable folder. It
  requires exactly three columns, renames them and requests the load.

Modules:

- `Strings` holds the Python string operations with Python's semantics.
- `Tables` holds the CSV reading and writing of pandas and the in-place DataFrame updates (the
  `Frame` class).
- `Lookup` resolves the sensor.
- `Normalize` holds `process_csv`.
- `Naming` computes the destination.
- `Transform` is one run of the transformer.
- `EventPath` is the event handler.
- `WarehouseLoad` is the loader.
- `Consistency` relates the three functions: a destination written by the transformer is decoded
  by the handler and loaded by the loader.

`process_and_copy_file` and `process_and_upload_to_bq` catch the exceptions they raise; the model
returns those as `Failure` values, and after one nothing is written or loaded. `hello_gcs`
(main.py:18-37) catches nothing: its `IndexError` on a short name escapes to the caller, and the
model returns it as a `PathError` value instead. Downloads are parameters. The storage write is an `Upload` value and the BigQuery load is
a `LoadRequest` value.

## Model

| member | source | states |
|---|---|---|
| Strings.Split | tansform_raw_data.py:28 | `split` on one character yields at least one piece, and no piece holds the separator |
| Strings.Join | tansform_raw_data.py:28 | `sep.join(parts)`; its meaning is stated by `Strings.JoinSplit` and `Strings.SplitJoin`, which make it the inverse of `split` |
| Strings.JoinSplit | tansform_raw_data.py:28 | joining the pieces of a split with the same separator gives back the string |
| Strings.SplitJoin | main.py:35 | splitting a join of separator-free pieces (at least one) gives back the pieces |
| Strings.SlicesPartition | tansform_raw_data.py:28 | `[:-2]` and `[-2:]` split a list in two, the tail holding `min(2, len)` elements |
| Strings.RStrip | tansform_raw_data.py:39 | `rstrip(c)` gives a prefix that does not end with `c`, and everything it removed is `c` |
| Strings.RStripIdempotent | tansform_raw_data.py:39 | stripping trailing `c` twice is stripping once |
| Strings.TrimStart | tansform_raw_data.py:28 | the left half of `strip()`: a suffix not starting with white space, having removed only white space |
| Strings.TrimEnd | tansform_raw_data.py:28 | the right half of `strip()`: a prefix not ending with white space, having removed only white space |
| Strings.Strip | tansform_raw_data.py:28 | `strip()`; its meaning is stated by `Strings.StripTrimmed` (no white space at either end, a contiguous slice) and `Strings.StripUnchanged` |
| Strings.StripTrimmed | tansform_raw_data.py:28 | the result of `strip()` neither starts nor ends with white space |
| Strings.StripUnchanged | tansform_raw_data.py:28 | a string without white space at either end is its own `strip()` |
| Strings.Lower | tansform_raw_data.py:106 | `lower()` keeps the length and maps each character on its own |
| Strings.LowerChar | tansform_raw_data.py:106 | a capital `A`-`Z` or `À`-`Þ` (not `×`) becomes the small letter at the same place of its alphabet; every other character is unchanged |
| Strings.LowerIdempotent | move_to_bq.py:33 | lower-casing twice is lower-casing once |
| Strings.LowerKeeps | tansform_raw_data.py:106 | a non-letter such as `/` is in the lower-cased string exactly when it is in the string |
| Strings.Contains | tansform_raw_data.py:98-99 | the `in` test on strings; its meaning is stated by `Strings.ContainsOccurs` (true exactly when the pattern occurs at some position) |
| Strings.ContainsOccurs | tansform_raw_data.py:98-99 | the `in` test holds exactly when the pattern occurs at some position |
| Strings.RemoveAll | tansform_raw_data.py:86 | `replace(pat, '')` never lengthens a string and leaves one without `pat` unchanged |
| Strings.RemoveAllFirst | tansform_raw_data.py:86 | the first occurrence of the pattern, wherever it is, is removed, the text before it kept and removal continued after it |
| Strings.RemoveAllBothCopies | tansform_raw_data.py:86 | a string holding the pattern in the middle and at the end loses both copies, not only the final one |
| Strings.RemoveAllSuffix | tansform_raw_data.py:86 | a key that holds `.csv` only at its end loses exactly that suffix |
| Strings.SplitLines | tansform_raw_data.py:39 | `splitlines()` yields lines without line breaks |
| Strings.SplitLinesRejoin | tansform_raw_data.py:39 | the lines of a text joined with line breaks give back the text, minus one final line break |
| Strings.SplitLinesTerminated | tansform_raw_data.py:57 | lines written each followed by a line break read back as the same lines |
| Tables.NonBlank | tansform_raw_data.py:42 | the lines `read_csv` keeps come from the input, and none is empty or made only of spaces and tabs; with `NonBlankOne` and `NonBlankAppend` every other line is kept, in order |
| Tables.WhitespaceLineSkipped | tansform_raw_data.py:42 | a line of spaces and tabs between the header and a data line is skipped, so only the data line becomes a row |
| Tables.NonBlankOne | tansform_raw_data.py:42 | one line is read exactly when it is not blank |
| Tables.NonBlankAppend | tansform_raw_data.py:42 | the lines read from a concatenation are those read from each part, in order |
| Tables.ReadRecords | tansform_raw_data.py:42 | the rows `read_csv` parses from a text; its meaning is stated by `Tables.ReadRecordsRows` and `Tables.NonBlank` |
| Tables.ParseRows | tansform_raw_data.py:42 | data rows parse exactly when no line has more fields than the header; each row is its line's fields padded with empty cells; otherwise the error names both widths |
| Tables.ReadCsv | move_to_bq.py:42 | `read_csv` into a header and rectangular rows (also at tansform_raw_data.py:42); its meaning is stated by `Tables.ReadCsvShape` and `Tables.ReadCsvToCsv` |
| Tables.ReadCsvShape | tansform_raw_data.py:42 | `read_csv` fails with no data exactly when there is no non-blank line; on success the table is rectangular, the header is the first non-blank line and there is one row per later non-blank line |
| Tables.ReadRecordsRows | tansform_raw_data.py:42 | `read_csv` succeeds exactly when there is a non-blank line and no later one has more fields; the header is that line's fields and each row the next non-blank line's fields padded to the header's width |
| Tables.RereadJoinedLines | tansform_raw_data.py:39-42 | re-joining break-free lines and reading them again keeps the same non-blank lines |
| Tables.ReadRecordsFree | tansform_raw_data.py:42 | a character absent from every line is absent from every cell read |
| Tables.CsvLines | tansform_raw_data.py:57 | the lines `to_csv` writes for a table, header first; its meaning is stated by `Tables.ReadCsvToCsv` |
| Tables.ToCsv | tansform_raw_data.py:57 | the text `to_csv(index=False)` writes; its meaning is stated by `Tables.ReadCsvToCsv` and `Strings.SplitLinesTerminated` |
| Tables.ReadCsvToCsv | tansform_raw_data.py:57 | reading what `to_csv` writes with a comma separator gives back the table, for tables of two or more columns whose cells hold no comma or line break |
| Tables.Frame.constructor | tansform_raw_data.py:42 | a frame holds the table `read_csv` produced |
| Tables.Frame.SetColumns | tansform_raw_data.py:49 | assigning column names succeeds exactly when the count matches, replacing only the names |
| Tables.Frame.Insert | tansform_raw_data.py:50 | inserting a constant column at a position puts the name into the header there and the value into every row there; an out-of-range position or a present name is refused and nothing changes |
| Lookup.Matching | tansform_raw_data.py:29 | the filtered rows are rows of the table whose `File Name` equals the name, every such row is among them, and there are none exactly when no row matches |
| Lookup.MatchingOne | tansform_raw_data.py:29 | a single row is kept exactly when its `File Name` equals the name |
| Lookup.MatchingAppend | tansform_raw_data.py:29 | filtering keeps table order: the rows kept from a concatenation are those of each part, in turn |
| Lookup.FindSensorId | tansform_raw_data.py:26-34 | the result is a table row whose `File Name` equals the key's base name; failure, carrying the key, exactly when no row matches |
| Lookup.MatchingStartsWithFirst | tansform_raw_data.py:29-32 | the first filtered row is the first matching row in table order |
| Lookup.FirstMatchChosen | tansform_raw_data.py:29-32 | when several rows match, the first in table order is returned |
| Lookup.BaseFileName | tansform_raw_data.py:28 | the key's tokens without the last two, re-joined and stripped; its meaning is stated by `Lookup.BaseOfStampedKey` and `Lookup.BaseOfPlainKey` |
| Lookup.BaseOfStampedKey | tansform_raw_data.py:28 | the base name of `prefix_start_end` is the stripped prefix, whatever the prefix holds |
| Lookup.BaseOfPlainKey | tansform_raw_data.py:28 | the base name of `stem_start_end` is the stem when the stem has no white space at its ends |
| Lookup.FolderKeyNotResolvedByStem | tansform_raw_data.py:28-34 | a key with a folder prefix does not resolve to the row named by its bare stem: matching is on the full key |
| Lookup.TopLevelKeyResolvedByStem | tansform_raw_data.py:28-32 | a key without folders resolves to the row named by its stem |
| Normalize.CleanedLines | tansform_raw_data.py:39 | each raw line with its trailing `;`s removed; its meaning is stated by `Normalize.CleaningProperties` and `Normalize.CleanLines` |
| Normalize.CleanLines | tansform_raw_data.py:39 | the line-by-line rebuild gives each line without its trailing `;` and keeps the line count |
| Normalize.CleaningProperties | tansform_raw_data.py:39 | after cleaning the line count is unchanged, no line ends with `;`, each line is a prefix of the raw one, and cleaning twice is cleaning once |
| Normalize.CleanedText | tansform_raw_data.py:39 | the cleaned lines joined by `\n`; its meaning is stated by `Normalize.ReadCleanedText` |
| Normalize.ReadCleanedText | tansform_raw_data.py:39-42 | reading the cleaned text is reading the cleaned lines |
| Normalize.Normalized | tansform_raw_data.py:36-52 | the frame `process_csv` builds or the error it raises; its meaning is stated by `Normalize.NormalizedRows` and `Normalize.NormalizedRejectsWidth` |
| Normalize.NormalizedRows | tansform_raw_data.py:36-52 | `process_csv` succeeds exactly when there is a two-field header and no data line with more than two fields; the output then has the columns `Sensor ID, Timestamp, Value`, one row per data line, each being the sensor id followed by the line's two fields |
| Normalize.NormalizedRejectsWidth | tansform_raw_data.py:45-46 | a parsed width other than two is refused with that width, and no table is produced |
| Normalize.CleanedLinesFree | tansform_raw_data.py:39 | cleaning introduces no character that was absent from the content |
| Normalize.NormalizedCellsFree | tansform_raw_data.py:50 | a comma or line break absent from the sensor id (and the content) is absent from the output |
| Normalize.ProcessCsv | tansform_raw_data.py:36-52 | the in-place rebuild, read, width check, rename and insert give exactly the normalised table, or its error |
| Naming.WithoutCsv | tansform_raw_data.py:86 | the key with every `.csv` removed; its meaning is stated by `Strings.RemoveAllFirst`, `Strings.RemoveAllBothCopies` and `Naming.InnerCsvTimestamps` |
| Naming.Timestamps | tansform_raw_data.py:86-95 | start and end hold no `_` |
| Naming.TimestampsAreLastTokens | tansform_raw_data.py:86-95 | start and end are the last two `_`-tokens of the key after every `.csv` is removed, and a key with a single token gives it as both start and end |
| Naming.StampedKeyTimestamps | tansform_raw_data.py:86-92 | `prefix_start_end.csv` gives `start` and `end` |
| Naming.InnerCsvTimestamps | tansform_raw_data.py:86-92 | `stem.csv_start_end.csv` loses both `.csv` and gives `start` and `end` |
| Naming.TwoTokenKeyTimestamps | tansform_raw_data.py:88-92 | `first_second.csv` gives start `first` and end `second` |
| Naming.OneTokenKeyTimestamps | tansform_raw_data.py:93-95 | `stamp.csv` gives `stamp` as both start and end |
| Naming.TankType | tansform_raw_data.py:98-99 | `tank_in` or `tank_out` when the `Tank` cell mentions `Yes` (by whether it mentions `in`), otherwise no qualifier; its meaning is stated by `Naming.QualifierSplit` |
| Naming.NewFileName | tansform_raw_data.py:100-102 | `City_District_[tank_type_]Variable_start_end.csv` in the table's casing; its meaning is stated by `Naming.NewFileNameFields` and `Naming.FileNameTail` |
| Naming.NewFileNameFields | tansform_raw_data.py:98-102 | the new file name splits back into city, district, then `tank in` if `Tank` holds both `Yes` and `in`, `tank out` if it holds `Yes` only, and nothing otherwise, then variable, start, and end with `.csv` |
| Naming.QualifierSplit | tansform_raw_data.py:98-100 | the tank qualifier placed after a prefix contributes the two tokens `tank` and `in` or `out` |
| Naming.FileNameTail | tansform_raw_data.py:100-102 | the variable and timestamps after any prefix add exactly three `_`-tokens |
| Naming.FolderStructure | tansform_raw_data.py:106 | the lower-cased city, district and variable, each followed by `/`; its meaning is stated by `Naming.DestinationSegments` |
| Naming.DestinationPath | tansform_raw_data.py:106-109 | the folder structure followed by the new file name; its meaning is stated by `Naming.DestinationSegments` and `Consistency.CanonicalPathDecodes` |
| Naming.DestinationSegments | tansform_raw_data.py:106-109 | the destination splits on `/` into the lower-cased city, district and variable and the new file name |
| Transform.CopyPlan | tansform_raw_data.py:67-116 | what `process_and_copy_file` writes, or why it writes nothing; its meaning is stated by `Transform.CopyPlanMeaning` |
| Transform.CopyPlanMeaning | tansform_raw_data.py:67-116 | an unmatched key is refused whatever the content, with the key in the error; for a matched key, the first matching row decides: a content `process_csv` normalises is written to that row's destination as `to_csv` writes it, and a content it refuses is reported with its error |
| Transform.ProcessAndCopyFile | tansform_raw_data.py:67-111 | one run does lookup, then `process_csv`, then naming, and writes exactly what the plan says |
| EventPath.ParseFileName | main.py:32-37 | a file name with fewer than two `_`-tokens is refused with a missing date; otherwise the dates hold no `_` and the end date no `.` |
| EventPath.ParseEventName | main.py:18-37 | the folders and file name hold no `/`, and the location and dates are what the file name reads as |
| EventPath.ParseEventNameErrors | main.py:18-36 | the name is refused for its folders exactly when it has fewer than three `/`-segments, and for its date exactly when its last segment has no `_` |
| EventPath.EventFolders | main.py:18-26 | city, district and sensor type are the first three segments, and the unique id is a prefix of the name ending at a `/` or at the name's end |
| EventPath.EventFileName | main.py:29 | the name ends with `/` and the file name |
| EventPath.FileNameParts | main.py:32-37 | the start date is the second-to-last `_`-token, the location splits back into the tokens before it (empty when there are none), and the end date is the last token up to its first `.` |
| EventPath.FileNameRebuilds | main.py:32-36 | the file name is the location followed by `_` (both absent with only two tokens), the start date, `_` and the last token |
| EventPath.ParseBuiltName | main.py:18-37 | `city/district/type/location_start_end.ext` is read back field by field |
| WarehouseLoad.VariableOf | move_to_bq.py:33 | the only failure is a missing variable folder |
| WarehouseLoad.VariableOfMeaning | move_to_bq.py:33 | there is a variable exactly when the key holds `/`; it holds no `/` and is lower case |
| WarehouseLoad.VariableOfFolder | move_to_bq.py:33 | a key `variable/file`, or `folders/variable/file` with any number of folders, gives the lower-cased `variable` |
| WarehouseLoad.TableId | move_to_bq.py:34 | the table id is exactly the dataset `smart-digital-water.sensor_measurement.` followed by the variable |
| WarehouseLoad.UploadToBigquery | move_to_bq.py:9-25 | a three-column frame is renamed to `Sensor ID, Timestamp, Value` and loaded with its rows unchanged; any other frame is left as it was and nothing is loaded |
| WarehouseLoad.LoadPlan | move_to_bq.py:27-52 | the BigQuery load `process_and_upload_to_bq` issues, or why it issues none; its meaning is stated by `WarehouseLoad.LoadPlanMeaning` |
| WarehouseLoad.LoadPlanMeaning | move_to_bq.py:27-52 | a load happens exactly when the key has `/` and the content reads as three columns; it loads every data row in order under the load columns into the variable's table; a key without `/` is refused before the content is read |
| WarehouseLoad.ProcessAndUploadToBq | move_to_bq.py:27-52 | the variable, the read, the shape check and the upload give exactly the planned load or error |
| Consistency.CanonicalPathDecodes | tansform_raw_data.py:86-109 | the handler decodes a canonical destination into the lower-cased folders, the new file name, the timestamps and the location before them |
| Consistency.DestinationVariable | move_to_bq.py:33 | the loader's variable extraction on a canonical destination recovers the row's lower-cased variable |
| Consistency.NormalizedReadsBack | tansform_raw_data.py:57 | the written normalised table reads back as itself with the three load columns |
| Consistency.CanonicalFileLoads | move_to_bq.py:33-46 | a file the transformer writes is loaded into the table of its row's lower-cased variable with every normalised row |

## Behaviour of the code worth knowing

- Lookup is by exact equality of `File Name` with the key's base name
  (`Lookup.FindSensorId`); no partial or substring match is attempted.
- A key stored under folders, such as `marene/marconi/flow/SENS1_20230101_20230201.csv`,
  does not resolve to the row whose `File Name` is its bare stem `SENS1`: the base name
  keeps the folders, so such a key is refused (`Lookup.FolderKeyNotResolvedByStem`). A key
  without folders does resolve (`Lookup.TopLevelKeyResolvedByStem`).
- A key of two `_`-tokens, such as `STATION_20230101.csv`, gives start `STATION` and end
  `20230101` (`Naming.TwoTokenKeyTimestamps`). Only a key without any `_` uses its one
  token as both (`Naming.OneTokenKeyTimestamps`).
- `Tank` is a free-text cell: the qualifier comes from the `Yes` and `in` substring tests
  (`Naming.TankType`), so `Tank` is a string in the model, not an enumeration.

## Left out

- Storage access is not modelled: `get_lookup_table`, the downloads and `upload_to_bucket`'s
  write. The content and the lookup table are parameters, and the write is the returned
  `Upload` value.
- The Excel decoding of the lookup table is not modelled; the table is a sequence of records.
- pandas CSV details outside the shapes the pipeline uses are left out:
  - quoting, and dtype inference (cells stay strings);
  - renaming of duplicate header names, and of an empty header name to `Unnamed: n`;
  - the implicit index: when the first data row has k > 0 fields more than the header, pandas
    makes its first k fields the index and raises only for a later row that is longer still;
    the model refuses every row longer than the header;
  - `\r` and the other line breaks of `splitlines` (only `\n` is a break).
- Tables.ReadCsvToCsv: pandas gives this round trip only when the column names are non-empty
  and distinct, which the model does not require; the pipeline writes only the fixed columns
  `Sensor ID`, `Timestamp` and `Value`.
- A missing cell is pandas NaN, which `to_csv` writes as an empty field; the model uses the
  empty string directly.
- `pd.to_datetime` on the `Timestamp` column (move_to_bq.py:16) is left out: timestamps stay
  strings.
- The BigQuery load job and its wait (move_to_bq.py:19-22) are left out; a load is the returned
  `LoadRequest`.
- The error messages, `print` logging and the cloud-event fields other than the object name
  (main.py:6-15, main.py:40-50) are left out.
- The `process_sensor_data` entry points are left out; they only pass the object name through.
- A `Tank` cell that is not a string (pandas NaN) is left out. That raises a `TypeError`, which
  the code catches.
- `to_csv` quoting of cells that hold a comma, quote or line break is left out; the round-trip
  lemmas require cells without them.
- Strings.Lower: only ASCII and Latin-1 upper-case letters are mapped. Other Unicode case
  mappings of `lower()` are not modelled.
- Text decoding of downloaded bytes is left out; text is a sequence of characters.
