# easy_GSOD in Dafny

A model of the core of easy_GSOD, a set of Python scripts that keep a copy of
NOAA's Global Surface Summary of the Day (GSOD) archive in an S3 bucket. The
project models two parts of the core.

- **The record transformer.** A `.op` file is one station-year of daily
  records. The transformer loads it into a frame and unpacks it into a
  canonical table. It builds the station ID as `USAF-WBAN`. It splits the
  six-character FRSHTT weather code into six columns and slices `yrmoda` into
  Year, Month, Day and a hyphenated Date. It splits the `*` quality flags off
  the maximum and minimum temperatures and the flag character off the
  precipitation. It nulls NOAA's missing-value codes (`9[.9]{3,4}9`) in every
  column except the three ID columns. It joins five fields of the station
  registry (isd-history) and reorders the columns into the published order.
  The frame tracks its column order as well as its column set, and every
  step's effect on the order is proved, down to the published order. The same
  module cleans the registry itself: it bounds elevation, latitude and
  longitude and nulls sentinel and BOGUS/UNKNOWN names. Finally it computes
  the station-year inventory summary: twelve monthly counts of non-null
  cells.
- **The incremental sync.**
  - It reads NOAA's year listing and selects the years whose upstream
    timestamp is strictly newer than the update log, seeding a missing log
    with the epoch.
  - For each selected year it deletes the bucket objects of stations no
    longer listed and prunes their inventory rows.
  - It chooses the files newer than their inventory row, then cleans and
    uploads each one and upserts its summary into the inventory.
  - It writes the inventory before it advances and writes the year's log
    entry.
  - At the end it reconciles the station registry with the inventory.
  - The earlier downloader's `unpack` step, which gunzips the files of a
    year's directory, is modelled too.

Modules, one per file:

| module | models |
|---|---|
| `Common` | cells and rows of a frame, `Option`/`Result`, Python slicing, `find`/`rfind`, `rstrip`, substring `in` |
| `Records` | the per-cell lambdas of the transformer and the missing-value regular expression |
| `Stations` | the station registry, `clean_bogus_name`, `clean_history_metadata`, `get_metadata` / `add_metadata` |
| `Frames` | the frame as a class whose methods add, rewrite and delete columns in place, the whole `raw_op_to_clean_dataframe`, and the per-row function `CleanRow` it is proved against |
| `Canonical` | what `CleanRow` holds column by column |
| `Inventory` | `inventory_stations_year`, the upsert, year pruning, the left merge and staleness filter, and the two `load_isd_inventory` variants |
| `Staleness` | the year listing, year selection and log seeding, file and object-key station IDs, and the update log |
| `Metadata` | `update_metadata` |
| `Sync` | the object store as a class, `get_stations_to_update_for_year`, the `update_year` loop, and the `update_GSOD` loop with its write ordering |
| `Archive` | `unpack` and the unpack loop of `download_gsod_yr`, over a directory held as a class |

The model uses these representations.

- Time is an `int`; the epoch is 0.
- A frame cell is `Null` (NaN/None/NaT), text, an integer, a real or a time.
- The object store is a map from keys to what each object holds, read back
  as values.
- NOAA's web pages and `.op` files are function parameters:
  - from a URL to the parsed rows of a directory page;
  - from a URL to the whitespace-split lines of a file.
- The gzip decoder is a function parameter.
- The wall clock is a function from the position of a year in the run to
  the time read there.
- A raise in the source is an `Err` carrying one `Error` value, and the
  whole run then reports failure. The exceptions are the missing-column
  errors of update_GSOD.py's inventory loader, listed under "## Left out".

Where the code and its own docstrings disagree, the model follows the code.

- A file whose station has no inventory row for the year meets NaT in the
  left merge, and `>` against NaT is false. So a first-time station is never
  downloaded (update_GSOD.py:131-134, `Inventory.FirstTimeNeverStale`). The
  docstring of `update_year` (update_GSOD.py:139-141) says the function
  updates every station that NOAA updated.
- A downloaded station-year is never downloaded again. The upsert removes
  the row keyed by the station's ID and year and appends the summary, whose
  ID, YEAR and Last_Updated are NaN (update_GSOD.py:151-153). No row of the
  year then carries the station's ID, so the merge finds no match and the
  file is never chosen again, however often NOAA updates it, again against
  the docstring at update_GSOD.py:139-141. `Inventory.UpsertForgetsStation`
  proves that the upsert leaves no row of the year with the station's ID,
  and `Sync.NeverFetchedAgain` that no later run brings one back, so the
  file is never among the chosen ones.
- The summary rows are never pruned, because their NaN ID is never matched
  against the listing (`Inventory.SummaryRowUnmatched`). A station all of
  whose rows were replaced by summaries has no ID left in the inventory, so
  `update_metadata` drops it from the registry (`Metadata.UpdateMetadataIds`).
- The update log records the wall-clock time of the run, not NOAA's
  timestamp (update_GSOD.py:185). `Staleness.RerunSkipsUpdated` shows that a
  year is then not selected again while the clock is ahead of NOAA's
  timestamp.
- A failing file aborts the run, as the uncaught exception does; no handler
  in `update_year` or `update_GSOD` catches it.

The older draft op_to_dataframe.py performs the same transformer steps with
the same lambdas, bounds and name rules, so one set of members models both
files. Its FRSHTT loop is op_to_dataframe.py:49-55, its date slicing 58-71,
its flags 74-80, its nulling 83-92, its metadata lookup 95-99, its pipeline
102-119 and its registry cleaning 123-155. Some rows below cite the draft's
lines. The downloader download_gsod.py has its own copy of the year-listing
filter (36-38), which behaves as in update_GSOD.py and is modelled by the
same members. Its own `get_years_to_check` (136-150) is not modelled: it
raises on every input. With no log stored, `pd.datetime(0)` (144) raises.
With a log stored, the object's raw bytes are never parsed (140-141), so
`annual_logs['Modified']` (150) raises. It also reads a different key,
'year_update_log.csv'.

## Model

Several operations are defined by a function whose meaning is stated by the
lemmas in the rows below rather than by its own contract:

- `Inventory.Upsert` is the upsert at update_GSOD.py:152-153.
- `Inventory.MergeLeft` is the left merge at update_GSOD.py:131-132.
- `Inventory.StaleFiles` is the merge followed by the staleness filter at update_GSOD.py:131-134.
- `Metadata.UpdateMetadata` is `update_metadata` (update_GSOD.py:162-172).
- `Staleness.FileStationId` is the file-name slice at update_GSOD.py:113.
- `Staleness.ObjectKeyId` is the object-key slice at update_GSOD.py:124.
- `Staleness.AdvancedLog` is the log as the year loop leaves it (update_GSOD.py:182-185).
- `Sync.YearStep` is the inventory `update_year` returns (update_GSOD.py:138-159).
- `Sync.RunYears` is the inventory after the year loop (update_GSOD.py:182-183).
- `Sync.YearObjects` is the store after one year's deletions and uploads (update_GSOD.py:121-155).
- `Sync.RunObjects` is the store after the year loop, with the inventory and log written (update_GSOD.py:182-187).
- `Sync.FinalObjects` is the store after a whole successful `update_GSOD` (update_GSOD.py:175-190).

| member | source | states |
|---|---|---|
| Common.Find | update_GSOD.py:124 | `find` gives -1 exactly when the character is absent, and otherwise the index of its first occurrence |
| Common.RFind | update_GSOD.py:113 | `rfind` gives -1 exactly when the character is absent, and otherwise the index of its last occurrence |
| Common.RStrip | download_gsod.py:99 | `rstrip(chars)` keeps a prefix of the string that does not end in a stripped character, and every character removed is one of `chars` |
| Common.Contains | download_gsod.py:94 | `sub in s` holds exactly when `sub` occurs at some index of `s` |
| Records.DateParts | clean_and_export_op_file.py:72-74 | Year, Month and Day concatenated give back `yrmoda`; for eight characters they are characters 0-3, 4-5 and 6-7 |
| Records.DateRoundTrip | clean_and_export_op_file.py:75-76 | the Date of a hyphen-free eight-character `yrmoda` has ten characters with hyphens at 4 and 7, and removing its hyphens gives `yrmoda` back |
| Records.DateExample | op_to_dataframe.py:62-64 | the docstring example: '20020103' gives '2002-01-03', '2002', '01', '03' |
| Records.EventPositions | clean_and_export_op_file.py:58-59 | the lambda `x[i]` gives character i of a FRSHTT code for i in 0..5, and is defined at 6 only for a longer code |
| Records.StarFlagAndStrip | clean_and_export_op_file.py:85-88 | the flag is 1 exactly when the value ends in '*' and 0 otherwise; the value is its stripped form followed by a run of '*'; the stripped form does not end in '*'; a value without a trailing '*' is unchanged |
| Records.StarFlagExample | op_to_dataframe.py:76-77 | '712*' gives flag 1 and '712'; '712' gives flag 0 and '712' |
| Records.PrecipitationSplit | clean_and_export_op_file.py:89-90 | for a non-empty token, Precipitation followed by Precip_Flag is the token, and the flag is one character |
| Records.ShortNeverMissing | clean_and_export_op_file.py:101-102 | a string shorter than five characters never matches the missing-value pattern |
| Records.NoNineNeverMissing | clean_and_export_op_file.py:101-102 | a string without a '9' never matches the pattern |
| Records.HyphenatedDateNeverMissing | clean_and_export_op_file.py:101-102 | a hyphenated ten-character date never matches the pattern |
| Records.MissingCodeExamples | clean_and_export_op_file.py:96-102 | '99.99', '9999.9', '999.9', '99999' and '999999' match the pattern; '712', '0.00' and '1013.2' do not |
| Records.NullIfMissingSpec | clean_and_export_op_file.py:99-102 | a cell becomes NaN exactly when it is NaN or a string in which the pattern occurs (the whole cell, not the match); any other cell is unchanged; the replacement is idempotent |
| Stations.CleanHistoryMetadataSpec | clean_and_export_op_file.py:191-214 | the cleaning keeps every station and its codes; elevation is kept iff ≥ -418; latitude iff strictly between -90 and 90; longitude iff strictly between -180 and 180; a name iff it is not in the invalid list and contains neither 'BOGUS' nor 'UNKNOWN'; kept values are unchanged |
| Stations.CleanHistoryMetadataIdempotent | clean_and_export_op_file.py:191-214 | cleaning an already cleaned registry changes nothing |
| Stations.BoundsExamples | op_to_dataframe.py:139-149 | -500 m is dropped and -418 m kept; latitude 91 and 90 are dropped and -89.9 kept; longitude -180 is dropped |
| Stations.BogusNameExamples | op_to_dataframe.py:123-129 | 'BOGUS CHINA' and 'APPROXIMATE LOCALE' are nulled; 'SITKA' is kept |
| Stations.FirstIndex | clean_and_export_op_file.py:110-113 | the index is -1 exactly when no registry station has the ID, and otherwise the first station with it |
| Stations.GetMetadataSpec | clean_and_export_op_file.py:106-113 | the lookup gives NaN for every field when no station has the ID, and otherwise the field of the first station with the ID |
| Frames.LoadRowCell | clean_and_export_op_file.py:42-48 | the loaded cell of each of the 22 named columns is the token at that column's position |
| Frames.LoadRowKeys | clean_and_export_op_file.py:42-48 | a loaded row has exactly the 22 columns of a `.op` line |
| Frames.MaxWidth | clean_and_export_op_file.py:41 | the frame is as wide as the longest data line |
| Frames.LoadOpOutcome | clean_and_export_op_file.py:36-48 | a cleanable file loads; a loaded file has a data line, and none of its lines has more than 22 tokens |
| Frames.EventsLoopStep | clean_and_export_op_file.py:58-59 | pass i of the FRSHTT loop succeeds exactly when every code is longer than i, and it yields the rows after i + 1 passes |
| Frames.EventsDrop | clean_and_export_op_file.py:60 | deleting FRSHTT after the six passes gives the rows of the events step |
| Frames.EventsLoopRow | op_to_dataframe.py:52-54 | on one row, the six assignments and the deletion equal the events step |
| Frames.TempFlagsLoopStep | clean_and_export_op_file.py:85-88 | each pass of the temperature loop succeeds exactly when every value of that column is non-empty, and it yields the rows after the next pass |
| Frames.TempFlagsBoth | clean_and_export_op_file.py:85-88 | on one row, the two passes flag and strip Max_Temp, then Min_Temp |
| Frames.PrecipAssignments | clean_and_export_op_file.py:89-90 | the two precipitation assignments succeed exactly when every precipitation value is non-empty, and give the precipitation rows |
| Frames.PrecipStep | clean_and_export_op_file.py:85-90 | the temperature loop does not change which precipitation values are empty, and the loop followed by the precipitation split is the flags step |
| Frames.FlagsLoopRow | op_to_dataframe.py:75-79 | on one row, the temperature loop followed by the precipitation split is the flags step |
| Frames.StepsOutcome | clean_and_export_op_file.py:122-125 | each step succeeds on the rows of the step before it exactly when it succeeds on the loaded rows |
| Frames.EventsKeep | clean_and_export_op_file.py:58-60 | the events step leaves every column other than the six events and FRSHTT unchanged |
| Frames.DatesKeep | clean_and_export_op_file.py:72-77 | the dates step leaves every column other than Year, Month, Day, Date and `yrmoda` unchanged |
| Frames.FlagsKeep | clean_and_export_op_file.py:85-90 | the flags step leaves every column other than the temperatures, the precipitation and their flags unchanged |
| Frames.MetaKeep | clean_and_export_op_file.py:127-131 | the metadata join leaves every column other than the five registry columns unchanged |
| Frames.IdKept | clean_and_export_op_file.py:122-125 | ID_Code, once set to `USAF-WBAN`, survives the events, dates and flags steps |
| Frames.HeaderGroups | clean_and_export_op_file.py:18-28 | each published column is an ID column, or is written by exactly one step and not deleted, or is a measurement carried over from the `.op` line |
| Frames.StepColumns | clean_and_export_op_file.py:18-28 | every published column exists once the steps and the join have run, so the reordering succeeds |
| Frames.FieldCompose | clean_and_export_op_file.py:121-133 | in the row the steps produce, each published column holds that column's field of the canonical row |
| Frames.RowCompose | clean_and_export_op_file.py:121-133 | the row the steps produce is the canonical clean row |
| Frames.StepsCompose | clean_and_export_op_file.py:121-133 | the rows the step-by-step pipeline produces are the canonical clean rows, with every row taking its registry fields from one station |
| Frames.CleanLoadedRow | clean_and_export_op_file.py:14-29 | a clean row has exactly the published columns |
| Frames.CleanRows | clean_and_export_op_file.py:116-134 | there is one clean row per data line, each the canonical row of that line for the station of the first line |
| Frames.LoadedOutcome | clean_and_export_op_file.py:121-125 | the loaded frame is non-empty and every step can apply to it exactly when the file is cleanable |
| Frames.LoadedRows | clean_and_export_op_file.py:121-134 | the station of the loaded frame's first row is the file's station, and cleaning the loaded rows gives the canonical rows of the file |
| Frames.LoadedTransformable | clean_and_export_op_file.py:58-90 | a loaded line of at most 22 tokens passes every lambda of the steps exactly when it has 22 tokens, a FRSHTT code of six or more characters, and non-empty temperatures and precipitation |
| Frames.HeaderOrderColumns | clean_and_export_op_file.py:18-28 | the published order lists exactly the published columns |
| Frames.OpColumnsLabels | clean_and_export_op_file.py:42-48 | the loader's 22 labels, in order, are exactly the columns of a loaded row |
| Frames.WithColumnSpec | clean_and_export_op_file.py:59 | assigning a column keeps the existing order as a prefix, adds the column at the end when it is new, and adds no other column |
| Frames.WithColumnsSpec | clean_and_export_op_file.py:127-131 | a series of assignments orders exactly the existing columns and the assigned ones |
| Frames.WithoutColumnSpec | clean_and_export_op_file.py:60 | deleting a column removes exactly that column from the order, and changes nothing when it is absent |
| Frames.DatesAssignments | clean_and_export_op_file.py:72-77 | the first date assignment applies exactly when every `yrmoda` is text, the other three then apply, and dropping `yrmoda` afterwards gives the rows of the dates step |
| Frames.Frame.constructor | clean_and_export_op_file.py:41 | the new frame holds the given columns, in the given order, and rows |
| Frames.Frame.AssignColumn | clean_and_export_op_file.py:59 | `df[dst] = df[src].apply(op)` succeeds exactly when `src` exists and `op` applies to every cell; it then adds `dst`, at the end of the column order when it is new and in its place otherwise, and sets it row by row; on failure the frame is unchanged |
| Frames.Frame.AssignDateParts | clean_and_export_op_file.py:72-76 | the four date assignments succeed exactly when `yrmoda` exists and every value is text; Year, Month, Day and Date are then added in that order and each row is the row with the four parts set |
| Frames.Frame.DropColumn | clean_and_export_op_file.py:60 | `del df[c]` removes the column from the frame, from the column order and from every row |
| Frames.Frame.AddIdCode | clean_and_export_op_file.py:122 | ID_Code is set to `USAF-WBAN` in every row, appended to the column order, when both code columns exist; otherwise the frame is unchanged |
| Frames.Frame.UnpackFrshtt | clean_and_export_op_file.py:52-61 | succeeds exactly when FRSHTT exists and every code has six characters or more; then the six event columns are appended in order, FRSHTT is removed, and the rows are those of the events step |
| Frames.Frame.UnpackDateInfo | clean_and_export_op_file.py:64-78 | succeeds exactly when `yrmoda` exists and every value is text; then Year, Month, Day and Date are appended in that order, `yrmoda` is removed, and the rows are those of the dates step |
| Frames.Frame.UnpackQualityFlags | clean_and_export_op_file.py:81-91 | succeeds exactly when the two temperatures and the precipitation exist and no value of theirs is empty; then the three flag columns are appended and the rows are those of the flags step |
| Frames.Frame.FlagTemperatures | clean_and_export_op_file.py:85-88 | the temperature loop succeeds exactly when both temperatures exist and have no empty value, appends each flag column after the columns before it, and leaves the rows after both passes |
| Frames.Frame.SplitPrecipitation | clean_and_export_op_file.py:89-90 | the precipitation split succeeds exactly when the column exists with no empty value, appends Precip_Flag, keeps Precipitation in its place, and leaves the precipitation rows |
| Frames.Frame.AddMetadata | clean_and_export_op_file.py:126-131 | the five registry columns are appended in the order of the assignments, each row taking the fields of the one station ID |
| Frames.Frame.MissingCodesToNan | clean_and_export_op_file.py:94-103 | the columns and their order are unchanged and every row becomes its nulled form |
| Frames.Frame.ReorganizeColumns | clean_and_export_op_file.py:14-29 | succeeds exactly when every published column exists; then the frame holds exactly those columns, in the published order; on failure the frame is unchanged |
| Frames.Frame.UnpackLoaded | clean_and_export_op_file.py:122-125 | on a freshly loaded frame, the ID and the three unpacking steps succeed exactly when every row is readable by them, compose, and leave the column order the steps' appends and deletions give |
| Frames.Frame.JoinAndTidy | clean_and_export_op_file.py:126-133 | the join, the nulling and the reordering leave exactly the published columns, in the published order |
| Frames.Frame.CleanLoaded | clean_and_export_op_file.py:122-133 | on a freshly loaded frame, the pipeline succeeds exactly when the frame has a row and every step applies, and leaves the canonical rows for the first row's station under the published column order |
| Frames.RawOpToCleanFrame | clean_and_export_op_file.py:116-134 | `raw_op_to_clean_dataframe` succeeds exactly when the file is cleanable, and returns a new frame whose columns are exactly the published ones, in the published order, and whose rows are the file's canonical rows |
| Canonical.CleanRowCell | clean_and_export_op_file.py:29 | a column outside the published list is absent from a clean row; a published column holds its field |
| Canonical.CleanRowIds | clean_and_export_op_file.py:122 | USAF_ID_Code and WBAN_ID_Code are tokens 0 and 1, and ID_Code is the two joined by '-', never nulled even when they are '99999' |
| Canonical.CleanRowMeasurement | clean_and_export_op_file.py:42-48 | each measurement column holds its token, nulled when it contains a missing-value code |
| Canonical.MissingMeasurementExample | op_to_dataframe.py:84-91 | a USAF code of 999999 is kept while a mean temperature of 9999.9 becomes NaN |
| Canonical.CleanRowEvents | clean_and_export_op_file.py:56-60 | event column j is character j of FRSHTT for j in 0..5, and FRSHTT is not in the row |
| Canonical.CleanRowDate | clean_and_export_op_file.py:72-77 | for an eight-character `yrmoda`, Year, Month and Day are its characters 0-3, 4-5 and 6-7, Date is the three joined by '-', and `yrmoda` is not in the row |
| Canonical.CleanRowDateRoundTrip | clean_and_export_op_file.py:75-76 | removing the hyphens from a clean row's Date gives back a hyphen-free eight-character `yrmoda` |
| Canonical.CleanRowTemperatures | clean_and_export_op_file.py:85-88 | each temperature flag is 1 when the token ends in '*' and 0 otherwise; the temperature is the token without its trailing '*'s, NaN when that holds a missing-value code |
| Canonical.CleanRowPrecipitation | clean_and_export_op_file.py:89-90 | Precip_Flag is the token's last character; Precipitation is the rest, nulled when it holds a missing-value code; unless nulled, the two concatenated give the token |
| Canonical.CleanRowMetadata | clean_and_export_op_file.py:126-131 | elevation, latitude and longitude are the registry fields of the station ID (NaN for an unknown station); the country code is nulled if it holds a missing-value code; Station_Name is not in the row |
| Canonical.CleanRowsStation | clean_and_export_op_file.py:126 | every row of a file takes its registry fields from the station of the file's first line |
| Inventory.SummaryRow | clean_and_export_op_file.py:147-151 | the summary has the twelve month columns and the three copied columns; each month column counts the non-null cells of that month's rows; USAF, WBAN and Year come from the first row |
| Inventory.InventoryStationsYear | clean_and_export_op_file.py:137-152 | the summary exists exactly when there is a row, the first row's ID_Code and Year are text, and the month groups are exactly 01..12; its key is ID_Code-Year and its row the summary row |
| Inventory.MonthOrderCodes | clean_and_export_op_file.py:145-148 | JAN..DEC name the month groups 01..12 in order |
| Inventory.SummaryTotal | clean_and_export_op_file.py:147 | the twelve counts add up to the number of non-null cells of the year |
| Inventory.CountsIdColumns | clean_and_export_op_file.py:147 | the counts include the ID columns: a row with its three IDs contributes at least 3 |
| Inventory.Without | update_GSOD.py:152 | the rows left are exactly those whose key differs |
| Inventory.UpsertCounts | update_GSOD.py:152-153 | after the upsert exactly one row has the summary's key, every other key keeps its count, and the summary is the last row |
| Inventory.UpsertIdempotent | update_GSOD.py:152-153 | upserting the same summary twice gives the same inventory as once |
| Inventory.UpsertKeepsUnique | update_GSOD.py:152-153 | an inventory with at most one row per key keeps that property |
| Inventory.PruneYear | update_GSOD.py:129-130 | a row is kept exactly when it is of another year or its ID is listed |
| Inventory.PruneEmptyListing | update_GSOD.py:129-130 | an empty listing removes every row of the year and keeps the others |
| Inventory.Matches | update_GSOD.py:131-132 | the right side of the merge is exactly the rows of the year with the file's ID |
| Inventory.MergedOf | update_GSOD.py:131-132 | a file without a matching row gets one merged row with a NaT Last_Updated; a file with matches gets one row per matching row |
| Inventory.MergeLeftMember | update_GSOD.py:131-132 | a merged row is a listed file paired with the Last_Updated of a matching row, or with NaT when there is none |
| Inventory.StaleRows | update_GSOD.py:133-134 | a merged row is kept exactly when its Modified is strictly later than its Last_Updated |
| Inventory.StaleFilesSpec | update_GSOD.py:131-134 | a file is chosen exactly when it is listed and some inventory row of the year with its ID has a Last_Updated strictly older than the file |
| Inventory.FirstTimeNeverStale | update_GSOD.py:131-134 | a file with no inventory row of the year is never chosen |
| Inventory.EqualNotStale | update_GSOD.py:133-134 | a file whose rows were all updated at exactly its Modified is not chosen |
| Inventory.SummaryRowUnmatched | update_GSOD.py:129-134 | an appended summary row has NaN ID, YEAR and Last_Updated, so pruning always keeps it |
| Inventory.UpsertForgetsStation | update_GSOD.py:150-153 | when every row of a year with the station's ID has the summary's key, the upsert leaves no row of the year with that ID |
| Inventory.UpsertKeepsNoRow | update_GSOD.py:150-153 | once no row of a year has the station's ID, an upsert brings none back |
| Inventory.Project | update_GSOD.py:70-73 | a loaded row has exactly the seventeen inventory columns |
| Inventory.SeedRow | update_GSOD.py:63-65 | a row seeded from NOAA's inventory gets ID `USAF-WBAN`, key ID-YEAR and Last_Updated at the epoch, and keeps the other columns |
| Inventory.LoadIsdInventory | update_GSOD.py:41-73 | a stored inventory is kept row for row, keys included; a missing one is seeded from NOAA's, one row per NOAA row |
| Inventory.SeededAllStale | update_GSOD.py:58-65 | in a freshly seeded inventory, a listed file of a station NOAA's inventory has for that year, modified after the epoch, is chosen |
| Inventory.InitRowSpec | download_gsod.py:85-89 | ID is added as `USAF-WBAN` only when absent and Last_Updated is set to the epoch only when absent; existing cells are kept; a second run changes nothing |
| Inventory.InitInventoryColumns | download_gsod.py:83-90 | fails, leaving the frame unchanged, exactly when the frame lacks ID and USAF or WBAN (the KeyError); otherwise the frame gains ID, inserted as its first column when absent, and Last_Updated, appended when absent, and every row is initialised as above |
| Staleness.YearListing | update_GSOD.py:33-35 | the listing never has more entries than the page |
| Staleness.YearListingSpec | update_GSOD.py:33-35 | a year is listed exactly when a page entry has a five-character name; it is that name without its last character, with the entry's Modified |
| Staleness.TrimmedLength | update_GSOD.py:33-35 | a trimmed name has four characters exactly when the name had five |
| Staleness.YearListingOrder | update_GSOD.py:33-35 | a page of five-character names is listed in order, one year per entry |
| Staleness.YearListingExample | download_gsod.py:35-38 | '2002/' is listed as 2002, while 'readme.txt' and '/' are dropped |
| Staleness.SeedLog | update_GSOD.py:99-100 | the seeded log lists the same years as the listing, each at the epoch |
| Staleness.StaleYears | update_GSOD.py:102-103 | the comparison is defined exactly when the log and the listing label the same years in the same order (pandas refuses unaligned series) |
| Staleness.NewerSpec | update_GSOD.py:102-103 | an entry is selected exactly when its Modified is strictly later than the logged one at the same position |
| Staleness.StaleYearsSpec | update_GSOD.py:102-103 | on aligned inputs, a year is selected exactly when its upstream Modified is strictly later than its logged Modified |
| Staleness.YearsToCheck | update_GSOD.py:84-104 | a missing log is replaced by the seeded one; a stored log is returned as it is and must list the same years |
| Staleness.YearsToCheckSpec | update_GSOD.py:98-103 | a year is to check exactly when the listing is strictly newer than the log for it; with no log, exactly when NOAA's timestamp is after the epoch |
| Staleness.SetLog | update_GSOD.py:185 | the year's entry gets the new time and every other entry is unchanged; a year not yet logged is appended |
| Staleness.AdvancedLogStep | update_GSOD.py:182-185 | the log after one more year is the previous log with that year set to the clock reading |
| Staleness.AdvancedLogSpec | update_GSOD.py:182-187 | the run keeps the log's years; entries of years not run are unchanged; each year run holds the clock reading taken at one of its runs |
| Staleness.RerunSkipsUpdated | update_GSOD.py:185 | a year run while the clock reads no earlier than NOAA's timestamp is not selected by the next comparison |
| Staleness.FileStationIdRoundTrip | update_GSOD.py:113 | the ID of a file named `<id>-<rest>`, with no '-' in rest, is `<id>` |
| Staleness.FileStationIdNoHyphen | update_GSOD.py:113 | a name without '-' loses its last character (`rfind` gives -1) |
| Staleness.NoaaFiles | update_GSOD.py:107-115 | the year's files are exactly the page entries other than `gsod_<year>.tar`, each with its Modified and the ID from its name |
| Staleness.ObjectKeyIdRoundTrip | update_GSOD.py:124 | the ID of the key `<year>/<id>.csv` is `<id>` |
| Staleness.ObsoleteStationKey | update_GSOD.py:123-127 | the key `<year>/<id>.csv` is deleted exactly when `<id>` is not listed |
| Metadata.Kept | update_GSOD.py:167 | the kept registry is no longer than the registry |
| Metadata.KeptSpec | update_GSOD.py:167 | a station is kept exactly when it is in the registry and its ID is in the inventory |
| Metadata.MinimalStation | update_GSOD.py:168-171 | an added station has no name, country, latitude, longitude or elevation |
| Metadata.Extras | update_GSOD.py:168-170 | there are never more added stations than inventory rows |
| Metadata.ExtrasIds | update_GSOD.py:168-170 | the added stations carry exactly the inventory IDs not already kept, once each |
| Metadata.ExtrasMinimal | update_GSOD.py:168-171 | each added station is built from an inventory row whose ID is not kept |
| Metadata.UpdateMetadataIds | update_GSOD.py:162-172 | the reconciled registry carries exactly the IDs of the inventory |
| Metadata.UpdateMetadataParts | update_GSOD.py:167-172 | a station is in the reconciled registry exactly when it is a registry station the inventory lists or an added one; added stations carry only their codes, have distinct IDs and are not kept ones |
| Metadata.SeededWellFormed | update_GSOD.py:63 | every seeded inventory row has the ID `USAF-WBAN` |
| Metadata.SummaryWellFormed | update_GSOD.py:151-153 | an appended summary row also meets that rule (all three cells NaN) |
| Metadata.UpsertWellFormed | update_GSOD.py:152-153 | the upsert keeps that rule |
| Sync.ObjectStore.constructor | update_GSOD.py:46 | the store starts with the given objects and no writes |
| Sync.ObjectStore.Put | update_GSOD.py:76-81 | the object at the key is replaced and the write is recorded |
| Sync.ObjectStore.Delete | update_GSOD.py:127 | the object is removed and the removal is recorded |
| Sync.GetYearsToCheck | update_GSOD.py:84-104 | returns the year selection; writes the seeded log only when no log is stored, and otherwise leaves the store as it was |
| Sync.DeleteObsolete | update_GSOD.py:121-127 | the store loses exactly the year's keys whose station is not listed, and the update log is not written |
| Sync.GetStationsToUpdate | update_GSOD.py:118-135 | the store loses the year's obsolete objects; the inventory is pruned; the files chosen are the stale ones of the pruned inventory |
| Sync.ProcessFile | update_GSOD.py:149-154 | a processed file's summary is the inventory summary of its clean rows, and its dataset key lies in the year's folder |
| Sync.DatasetKeyInYear | update_GSOD.py:154 | the key `<year>/<ID>.csv` lies in the year's folder |
| Sync.ProcessAllInYear | update_GSOD.py:148-154 | every dataset the file loop uploads lies in the year's folder |
| Sync.ProcessAll | update_GSOD.py:148-154 | when every file is processed there is one output per file, each carrying its own summary |
| Sync.ProcessAllFails | update_GSOD.py:148-158 | once a prefix of the files fails, the whole loop fails |
| Sync.UpsertAllCounts | update_GSOD.py:148-153 | after the loop each summarised key has exactly one row, and every other key keeps its count |
| Sync.UpsertAllUnique | update_GSOD.py:148-153 | the loop keeps at most one row per key |
| Sync.PutAllElsewhere | update_GSOD.py:154-155 | the loop's uploads leave every other key as it was |
| Sync.DatasetKey | update_GSOD.py:154 | a dataset key `<year>/<ID>.csv` is never the inventory, log or registry key |
| Sync.FileNames | update_GSOD.py:148 | the files taken are the chosen rows' file names, in order |
| Sync.ProcessOne | update_GSOD.py:149-156 | one file: on success the inventory is upserted with the file's summary and the clean rows are written at `<year>/<ID>.csv`; on failure nothing is written |
| Sync.FileStep | update_GSOD.py:148-158 | one pass of the file loop extends the processed prefix, the upserted inventory and the uploads by one file |
| Sync.UpsertFiles | update_GSOD.py:147-159 | the file loop succeeds exactly when every file is processed; it then returns the inventory with every summary upserted in order, has uploaded every dataset, and counts one download per file |
| Sync.UpdateYear | update_GSOD.py:138-159 | `update_year` succeeds exactly when the year's step does; the store is then the obsolete-pruned store plus the year's datasets; the update log is never written |
| Sync.YearObjectsElsewhere | update_GSOD.py:121-155 | a year's deletions and uploads leave every key outside the year's folder as it was |
| Sync.RunYearsStep | update_GSOD.py:182-183 | running one more year applies the year's step to the inventory the previous years left |
| Sync.RunYearsFails | update_GSOD.py:182-188 | once a year fails, the run fails |
| Sync.RunObjectsStep | update_GSOD.py:182-187 | the store after one more year is the store the earlier years left, with that year's deletions and uploads and the new inventory and log |
| Sync.RunObjectsOk | update_GSOD.py:182-188 | the store contents are defined exactly when the run of the years succeeds |
| Sync.RunObjectsElsewhere | update_GSOD.py:182-188 | the run leaves every key other than the inventory and the log, outside every run year's folder, as it was |
| Sync.YearRound | update_GSOD.py:183-187 | one pass of the year loop: the inventory is the year's step and the log is advanced to the clock reading; the store is the old one with the year's obsolete datasets deleted, the year's datasets uploaded, and the inventory and log written; every log write follows an inventory write |
| Sync.RunLoop | update_GSOD.py:182-188 | the year loop succeeds exactly when every year does; the store is then exactly what running the years in turn on the old store gives, with the final inventory and the advanced log written; every log write follows an inventory write |
| Sync.UpdateGsod | update_GSOD.py:175-190 | the run succeeds exactly when the planned years all succeed; the store is then exactly the store the seeded log, the years' deletions and uploads, the final inventory, the advanced log and the reconciled registry give; every log write after seeding follows an inventory write |
| Sync.StoredWellFormed | update_GSOD.py:56-73 | a stored inventory whose IDs are `USAF-WBAN` keeps that property when loaded |
| Sync.YearStepWellFormed | update_GSOD.py:144-153 | a year's step keeps every inventory ID `USAF-WBAN` |
| Sync.UpsertAllWellFormed | update_GSOD.py:148-153 | the upsert loop keeps that property |
| Sync.RunYearsWellFormed | update_GSOD.py:182-183 | the whole run keeps that property |
| Sync.HistoryMatchesInventory | update_GSOD.py:189-190 | the registry written at the end carries exactly the IDs of the final inventory |
| Sync.UpsertAllKeepsNoRow | update_GSOD.py:148-153 | once no row of a year carries a station's ID, the file loop of any year brings none back |
| Sync.RunYearsKeepsNoRow | update_GSOD.py:182-183 | nor does any later run of years |
| Sync.StoredKeepsNoRow | update_GSOD.py:56-73 | nor does writing the inventory and loading it again |
| Sync.NeverFetchedAgain | update_GSOD.py:129-153 | once the upsert has left no row of a year with a station's ID, that station's file of that year is not chosen after any later run, whatever its Modified |
| Archive.Target | download_gsod.py:94-99 | there is no target exactly when the path lacks 'op.gz'; otherwise the target is the path without its trailing run of '.', 'g' and 'z' characters |
| Archive.TargetOfOpFile | download_gsod.py:99 | a path ending in 'op.gz' unpacks to the path without its '.gz' |
| Archive.TargetStripsRun | download_gsod.py:99 | 'a.op.gz.gz' unpacks to 'a.op': `rstrip` removes characters, not a suffix |
| Archive.UnpackedSpec | download_gsod.py:93-101 | a path without 'op.gz' leaves the directory unchanged; otherwise the step fails exactly when the file is missing or not gzip; on success the gzip file is gone, the target holds its contents, and every other file is unchanged |
| Archive.UnpackLosesOwnTarget | download_gsod.py:99-101 | a file such as 'x.op.gz.bak' is its own target, so it is unpacked onto itself and then removed, leaving nothing |
| Archive.UnpackEachStep | download_gsod.py:121-123 | unpacking one more path applies `unpack` to the directory the earlier paths left |
| Archive.UnpackEachFails | download_gsod.py:121-127 | once a path fails, the whole loop fails |
| Archive.Directory.constructor | download_gsod.py:118 | the directory starts with the given files |
| Archive.Directory.Unpack | download_gsod.py:93-101 | the directory becomes the unpacked one on success and is unchanged on failure |
| Archive.Directory.UnpackAll | download_gsod.py:118-127 | the loop succeeds exactly when every path unpacks, leaving the unpacked directory; on failure the directory is what the paths before the failing one left |

## Left out

- I/O is left out:
  - HTML scraping with `pd.read_html`;
  - S3 get, put and delete, which are modelled as the store map;
  - FTP and `requests` downloads;
  - tar extraction;
  - local file open and remove, which are modelled as the directory map;
  - CSV reading and writing, whose objects hold values rather than text;
  - `print`.
- Gzip decompression is a function parameter, because its format is outside the core.
- Dates and times are integers. `pd.to_datetime`, `pd.datetime.today()` and parsing are left out.
- The conversion of the selected years to `int` (update_GSOD.py:104) is left out. The model keeps every year a string, as the listing's index, the store keys and the inventory's YEAR hold it.
- Staleness.RerunSkipsUpdated: holds for the log as the model reads it back, unchanged (Sync.StoredLog). pandas reads the stored log with `index_col='Year'` (update_GSOD.py:96-97) and so labels it with integers, while the listing's labels are strings; the comparison at update_GSOD.py:102-103 then raises on the unaligned series on every run after the first. The model compares the log as it was written. The stored inventory has the same kind of gap. `inventory.append(df_inventory)` (update_GSOD.py:153) joins an index without a name to the `Station-Year` index, and pandas drops the name when the names differ. After any download the stored CSV's index column is then unnamed, and `set_index('Station-Year')` (update_GSOD.py:68) would raise on the next run. So Sync.StoredKeepsNoRow and Sync.StoredWellFormed hold only because the store keeps values rather than CSV text.
- Staleness.SetLog: `annual_logs.Modified.loc[year]` (update_GSOD.py:185) uses the integer year. On the seeded log, whose labels are strings, pandas then appends a new entry under the integer label instead of setting the string one. The model sets the entry of the year's string label, appending only a year not yet logged.
- Inventory.LoadIsdInventory: an inventory Table holds rows as maps and carries no column set of its own, so the loader's missing-column errors are not modelled. Those are the KeyError of `inventory['Last_Updated']` on a stored inventory without that column (update_GSOD.py:67), and the KeyError of `inventory[cols]` when any of the seventeen columns is absent (update_GSOD.py:73). A missing cell is read as NaN instead.
- Inventory.SeedRow: for the same reason, the KeyError of `inventory['USAF']` or `inventory['WBAN']` on a NOAA inventory lacking that column, and the ValueError of `insert` when NOAA's inventory already has an `ID` column (update_GSOD.py:63), are not modelled. The seeded row then gets a NaN ID when a code column is missing, and an existing `ID` is replaced by `USAF-WBAN`.
- Inventory.Project: an inventory row is a map from column to cell, so the column order that `inventory[cols]` (update_GSOD.py:70-73) imposes is not modelled; only the set of columns is. Nor is its KeyError on an absent column: `Project` reads a missing cell as NaN (see the Inventory.LoadIsdInventory line). Frames.Frame models the column order of the transformer's frame.
- The registry fields are kept as `real`. Floating-point rounding and NaN comparisons inside the bounds checks are not modelled.
- The registry's BEGIN/END date unpacking in `load_isd_history` (clean_and_export_op_file.py:228-229) is left out. Its columns are never read by the core.
- `set_index(['ID'])` in `load_isd_history` discards its result (clean_and_export_op_file.py:226), so the registry keeps a numeric index. `get_metadata` would then look IDs up in that index, and `update_metadata` (update_GSOD.py:167,169) would compare the inventory's IDs with row numbers and keep no station. The model uses the evidently intended index by station ID: Stations.FirstIndex, Metadata.IdCell and Metadata.Kept read a station's ID.
- Stations.GetMetadataSpec: with a duplicate ID in the registry, pandas returns a series; the model takes the first station with the ID.
- Sync.ProcessFile: `update_year` passes `year_url + station`, the HTTP URL of a `.op.gz` file (update_GSOD.py:146-150), to a loader that opens a local text file (clean_and_export_op_file.py:36-39). As written, every chosen file then raises, and the run aborts at the first stale file. The parameter `fetch` stands for the missing download and gunzip: it gives the whitespace-split lines of the decompressed file.
- `df.ID` at update_GSOD.py:154 does not exist on a clean frame. The model reads ID_Code, the station ID the frame has.
- Inventory.InventoryStationsYear: pandas renames any twelve month groups positionally. The model accepts only the groups "01".."12" exactly, and otherwise returns the `MonthGroups` error.
- `inventory_stations_year` is imported under the name `get_station_year_inventory`, and `robust_get_from_NOAA_ftp` is imported from a module that lacks it (update_GSOD.py:16-17). The model uses `inventory_stations_year` and treats NOAA's inventory as a parameter.
- The call `update_metadata(metadata, inventory, bucket_name)` passes three arguments and discards the result (update_GSOD.py:189-190). The model runs the function's body and writes its result as the registry.
- Sync.UpdateGsod: a run that fails part way leaves the writes it made. The postcondition states the write ordering for every run, but the stored contents, in full, only for a run that succeeds.
- The `% 500` progress message in `update_year` is left out, because it is output only.
- Archive.Directory.UnpackAll: the `sleep(5)` before the retry in `download_gsod_yr` (download_gsod.py:125) is left out; the single retry is modelled. The modelled gunzip is a function and a failed `unpack` leaves the directory unchanged, so the retry fails whenever the first attempt did. Transient I/O failures, which the retry is there for, are not modelled.
- The tar download and extraction in `download_gsod_yr` are left out.
- `run_GSOD_update_daily` (update_GSOD.py:193-201) is left out, because it is an infinite scheduling loop.
- Stubs and broken call sites are left out:
  - `process_stations` and `load_isd_inventory` in clean_and_export_op_file.py:166-173 and 240-244;
  - `update_year` and `update_GSOD` in download_gsod.py:153-164, which call functions with missing arguments;
  - the call `load_isd_history()` at update_GSOD.py:181, which omits the required `isd_path`; the model takes the registry as a parameter;
  - the identity `clean_inventory_metadata`.
- `raw_op_to_clean_csv` and the earlier draft's `to_csv` (op_to_dataframe.py:120) are CSV output of the modelled frame.
- The earlier draft's `load_isd_history` and `load_isd_inventory` (op_to_dataframe.py:158-186) are left out. They repeat the newer loader's ID column and discarded `set_index`.
