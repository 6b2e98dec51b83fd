# Raw trajectory CSV importer

A Dafny model of the MOAP raw trajectory CSV importer, the class
`RawTrajectoryCSVImporter`. The importer turns CSV files of GPS fixes into
trajectories in a trajectory model. It works in three steps, and the model keeps
them apart.

- **Header schema resolution** (modules `Schema` and `Importer`).
  - Each header column is classified, ignoring case, as userid, time, lat, lon or
    annotation.
  - The column goes into the mandatory or the annotation index map under its own
    spelling. The last column with a given spelling wins.
  - Each column gets a cell processor.
  - The header is rejected with `MissingHeaderAttribute` unless the exact
    lower-case keys `lat`, `lon` and `time` are present. The message lists the
    missing names in the order lat, lon, time.
  - An empty header cell reaches the importer as null, and the first
    `equalsIgnoreCase` on it throws. The model reports this as `NullHeaderCell`
    at the first empty cell, before any call on the trajectory model.
- **Row reading and trajectory grouping** (modules `Cells`, `Records`,
  `Grouping` and `DataModel`).
  - Rows are decoded with the processors. The first failing row ends the file.
  - Without a userid column, every row goes into one trajectory `{count}_0`. The
    count is what the trajectory model reports when the file is read. The
    trajectory is committed after the last row.
  - With a userid column, a row whose id equals the previous row's id (ignoring
    case) extends the open trajectory. Any other row starts a new trajectory
    `{userid}_0` and commits it at once.
  - The trajectory model is a class that records the calls the importer makes on
    it. `Replay` reads such a log back as the trajectories it builds.
  - The moving-object count the model reports is an arbitrary function of the
    calls it has received. So in a directory import each file sees the count as
    the calls of the files before it left it.
- **File discovery** (module `Discovery`).
  - A path is a file, a directory or nothing.
  - A directory is walked with a first-in first-out queue. The `.csv` name filter
    applies to subdirectories as well as files.
  - The first file that fails ends the whole import.

`Importer.RawTrajectoryCsvImporter` is the class itself. Its fields are the time
format, the two index maps and the trajectory model. Its methods are written as
the Java methods are, with loops. Each method is proved against a function of its
inputs and of the model's log before the call:

- `ImportFile` for one file;
- `ImportAll` for a batch;
- `ImportTarget` for a path.

The lemmas then state what those functions promise.

The class comment (`RawTrajectoryCSVImporter.java:39-51`) and the code part ways
in a few places. The model follows the code:

- The comment gives the format with a user id as `userid,time,lat,long, ...`.
  The longitude column must be spelled `lon` (line 62), so a `long` column is an
  annotation and such a header is rejected as missing lon
  (`Schema.LongColumnRejected`).
- The comment says a directory loads a list of csv files. The code descends into
  a subdirectory only when its own name ends in `.csv`, because
  `listFiles(filter)` tests names (lines 100-113). A `.csv` file inside a
  subdirectory named otherwise is not read.
- In a directory import, the first failing file ends the import. One `catch`
  surrounds the whole loop (lines 91-124), so the files after it are not read.
- Mandatory columns are found in any case, but accepted only in lower case.
  - The map key keeps the header's spelling (lines 320-331), while the check
    looks for `lat`, `lon` and `time` exactly (lines 290-297). So a header
    `LAT,lon,time` is rejected as missing lat.
  - A column `UserId` selects userid mode, but the lookup of the key `userid`
    then finds nothing. The first row fails with `NoUserIdIndex`, which stands
    for the exception Java raises on that null.

## Model

| member | source | states |
|---|---|---|
| Text.EqualsIgnoreCaseSpec | MOAPImporter/src/arida/ufc/br/moap/importer/csv/imp/RawTrajectoryCSVImporter.java:320-329 | `equalsIgnoreCase` holds exactly when the lengths agree and every position agrees after case folding |
| Text.DifferIgnoringCaseAt | MOAPImporter/src/arida/ufc/br/moap/importer/csv/imp/RawTrajectoryCSVImporter.java:320-329 | two names that differ after folding at some position are not equal ignoring case |
| Text.NatToString | MOAPImporter/src/arida/ufc/br/moap/importer/csv/imp/RawTrajectoryCSVImporter.java:173-175 | the moving-object id of a file without userid is the canonical decimal rendering of the count: digits only, with a leading zero only for zero itself |
| Text.ParseNatToString | MOAPImporter/src/arida/ufc/br/moap/importer/csv/imp/RawTrajectoryCSVImporter.java:173-175 | reading the id back gives the count, so different counts give different moving-object ids |
| Cells.Process | MOAPImporter/src/arida/ufc/br/moap/importer/csv/imp/RawTrajectoryCSVImporter.java:320-335 | a processed cell has its processor's shape; an empty cell is a null-cell failure for NotNull and the parsers and null for Optional; a text cell is the raw cell unchanged; a non-empty date or double cell succeeds exactly when the parser returns a value, and then holds that value; any failure is a null cell or an unparseable cell of that column |
| Cells.DecodeColumnsSpec | MOAPImporter/src/arida/ufc/br/moap/importer/csv/imp/RawTrajectoryCSVImporter.java:177 | the columns decode exactly when each one does; each cell is its column's processed value; a failure is the failure of the first failing column, every earlier column having been processed |
| Cells.DecodeSpec | MOAPImporter/src/arida/ufc/br/moap/importer/csv/imp/RawTrajectoryCSVImporter.java:223 | A row reads exactly when its cell count matches the processors and every column reads, in which case its cells conform to the processors and are the processed values, and otherwise it fails with the column-count mismatch or with the error of the first failing column. |
| Schema.ClassifyNames | MOAPImporter/src/arida/ufc/br/moap/importer/csv/imp/RawTrajectoryCSVImporter.java:320-331 | the names userid, time, lat and lon are classified as their own columns even though the tests run in order and ignore case |
| Schema.IndexMapSpec | MOAPImporter/src/arida/ufc/br/moap/importer/csv/imp/RawTrajectoryCSVImporter.java:316-335 | a name is a key of the mandatory (annotation) map exactly when some column is spelled that way and is (is not) userid, time, lat or lon; its index is the last column spelled that way |
| Schema.IndexMapsPartitionColumns | MOAPImporter/src/arida/ufc/br/moap/importer/csv/imp/RawTrajectoryCSVImporter.java:320-335 | no column name lands in both maps, and every column lands in one |
| Schema.MissingNames | MOAPImporter/src/arida/ufc/br/moap/importer/csv/imp/RawTrajectoryCSVImporter.java:290-298 | the missing names are exactly those of lat, lon, time absent from the keys, in that order; none is missing exactly when all three are keys |
| Schema.CheckHeader | MOAPImporter/src/arida/ufc/br/moap/importer/csv/imp/RawTrajectoryCSVImporter.java:287-308 | the header check passes exactly when lat, lon and time are keys; otherwise it fails with `MissingHeaderAttribute` |
| Schema.HeaderErrorIsCommaTerminated | MOAPImporter/src/arida/ufc/br/moap/importer/csv/imp/RawTrajectoryCSVImporter.java:288-298 | the accumulated error text is every missing name followed by a comma |
| Schema.HeaderMessageListsMissingNames | MOAPImporter/src/arida/ufc/br/moap/importer/csv/imp/RawTrajectoryCSVImporter.java:301-304 | the message is "Missing header attributes: " then the missing names joined by commas with no trailing comma; splitting after the prefix gives the missing names back |
| Schema.MandatoryProcessor | MOAPImporter/src/arida/ufc/br/moap/importer/csv/imp/RawTrajectoryCSVImporter.java:320-331 | a mandatory key's index is a column, and that column's processor is the one its kind selects |
| Schema.AnnotationProcessors | MOAPImporter/src/arida/ufc/br/moap/importer/csv/imp/RawTrajectoryCSVImporter.java:332-335 | every annotation key's index is a column whose processor is Optional |
| Schema.ResolvedSchemaWellFormed | MOAPImporter/src/arida/ufc/br/moap/importer/csv/imp/RawTrajectoryCSVImporter.java:313-343 | with lat, lon and time among the keys, time parses a date, lat and lon parse doubles, userid is NotNull, and annotation columns are Optional |
| Schema.SchemaOf | MOAPImporter/src/arida/ufc/br/moap/importer/csv/imp/RawTrajectoryCSVImporter.java:313-343 | an accepted header yields a well-formed schema |
| Schema.SchemaOfSpec | MOAPImporter/src/arida/ufc/br/moap/importer/csv/imp/RawTrajectoryCSVImporter.java:313-343 | a header is accepted exactly when no cell is empty and it spells lat, lon and time in lower case; a header with an empty cell fails with `NullHeaderCell` at the first one; an accepted header has one processor per column, the one its kind selects |
| Schema.UpperCaseLatitudeRejected | MOAPImporter/src/arida/ufc/br/moap/importer/csv/imp/RawTrajectoryCSVImporter.java:320-341 | `LAT` is classified as latitude, yet the header `LAT,lon,time` is rejected as missing lat |
| Schema.LongColumnRejected | MOAPImporter/src/arida/ufc/br/moap/importer/csv/imp/RawTrajectoryCSVImporter.java:287-304 | a column spelled `long` is an annotation column, and the header `userid,time,lat,long` is rejected as missing lon |
| Records.RowToFixSpec | MOAPImporter/src/arida/ufc/br/moap/importer/csv/imp/RawTrajectoryCSVImporter.java:223-244 | a row reads exactly when it decodes and, in userid mode, the exact key userid has an index; otherwise the error is the decoding error or `NoUserIdIndex`; a userid read is never empty; the annotations are named by the annotation keys |
| Records.RowToFixFields | MOAPImporter/src/arida/ufc/br/moap/importer/csv/imp/RawTrajectoryCSVImporter.java:225-244 | a row that reads takes its userid from the cell of the exact column userid (never empty) in userid mode and is empty otherwise; its instant is what the date parser gives for the time cell under the time column's pattern; its longitude and latitude are what the double parser gives for the lon and lat cells; and it has one annotation per annotation key |
| Records.RowTimeUsesTimeFormat | MOAPImporter/src/arida/ufc/br/moap/importer/csv/imp/RawTrajectoryCSVImporter.java:228 | in a file whose header resolves, the time cell, at the last column spelled `time`, is parsed with the importer's time format |
| Records.AnnotationOfKey | MOAPImporter/src/arida/ufc/br/moap/importer/csv/imp/RawTrajectoryCSVImporter.java:195-197 | the annotation under a key is typed STRING and holds the raw cell of that key's column, null for an empty cell |
| Records.AnnotationNamesAreAnnotationColumns | MOAPImporter/src/arida/ufc/br/moap/importer/csv/imp/RawTrajectoryCSVImporter.java:242-244 | a point's annotation names are exactly the header names that are not userid, time, lat or lon |
| Records.AnnotationsCarryRawCells | MOAPImporter/src/arida/ufc/br/moap/importer/csv/imp/RawTrajectoryCSVImporter.java:195-197 | the last column with an annotation name gives the point that annotation, typed STRING, holding the raw cell unchanged |
| DataModel.TrajectoryModel.constructor | MOAPImporter/src/arida/ufc/br/moap/importer/csv/imp/RawTrajectoryCSVImporter.java:69 | a model starts with its count function and an empty call log |
| DataModel.TrajectoryModel.GetMovingObjectCount | MOAPImporter/src/arida/ufc/br/moap/importer/csv/imp/RawTrajectoryCSVImporter.java:172 | the count reported is the model's count after the calls it has received so far |
| DataModel.TrajectoryModel.NewMovingObject | MOAPImporter/src/arida/ufc/br/moap/importer/csv/imp/RawTrajectoryCSVImporter.java:174 | the call is appended to the log, and nothing else changes |
| DataModel.TrajectoryModel.NewTrajectory | MOAPImporter/src/arida/ufc/br/moap/importer/csv/imp/RawTrajectoryCSVImporter.java:175 | the call is appended to the log, and nothing else changes |
| DataModel.TrajectoryModel.AddPoint | MOAPImporter/src/arida/ufc/br/moap/importer/csv/imp/RawTrajectoryCSVImporter.java:202 | the call is appended to the log, and nothing else changes |
| DataModel.TrajectoryModel.GetTrajectory | MOAPImporter/src/arida/ufc/br/moap/importer/csv/imp/RawTrajectoryCSVImporter.java:251 | the call is appended to the log, and nothing else changes |
| DataModel.TrajectoryModel.AddTrajectory | MOAPImporter/src/arida/ufc/br/moap/importer/csv/imp/RawTrajectoryCSVImporter.java:212 | the call is appended to the log, and nothing else changes |
| DataModel.ReplayAppend | MOAPImporter/src/arida/ufc/br/moap/importer/csv/imp/RawTrajectoryCSVImporter.java:249-261 | replaying two logs one after the other is replaying their concatenation |
| Grouping.ReadRowsSpec | MOAPImporter/src/arida/ufc/br/moap/importer/csv/imp/RawTrajectoryCSVImporter.java:177-208 | the rows read are exactly the rows before the first failing row, each read as its own fix; the error is that row's, and there is none when every row reads |
| Grouping.ReadRowsUserIds | MOAPImporter/src/arida/ufc/br/moap/importer/csv/imp/RawTrajectoryCSVImporter.java:225 | in userid mode every row read has a non-empty id |
| Grouping.ReadRowsStopsAtFailure | MOAPImporter/src/arida/ufc/br/moap/importer/csv/imp/RawTrajectoryCSVImporter.java:223-268 | once a row fails, no later row is read |
| Grouping.RunsArePartition | MOAPImporter/src/arida/ufc/br/moap/importer/csv/imp/RawTrajectoryCSVImporter.java:249-262 | the runs cut the rows into consecutive non-empty pieces; inside a piece each id equals the previous one ignoring case, and across a cut it does not |
| Grouping.NoUserIdOneTrajectory | MOAPImporter/src/arida/ufc/br/moap/importer/csv/imp/RawTrajectoryCSVImporter.java:172-213 | without a userid column the calls build exactly one trajectory `{count}_0` of moving object `{count}`, holding every row read in order; it is committed even for a file with no rows, and not when a row failed |
| Grouping.NoUserIdCommitsOnce | MOAPImporter/src/arida/ufc/br/moap/importer/csv/imp/RawTrajectoryCSVImporter.java:209-212 | addTrajectory is called once when every row reads and never when a row fails |
| Grouping.ReplayPointCalls | MOAPImporter/src/arida/ufc/br/moap/importer/csv/imp/RawTrajectoryCSVImporter.java:177-202 | the addPoint calls of the rows fill the open trajectory with their points in row order |
| Grouping.ReplaySameUser | MOAPImporter/src/arida/ufc/br/moap/importer/csv/imp/RawTrajectoryCSVImporter.java:249-251 | a row with the previous row's id adds its point to the last run's trajectory |
| Grouping.ReplayNewUser | MOAPImporter/src/arida/ufc/br/moap/importer/csv/imp/RawTrajectoryCSVImporter.java:254-261 | a row with another id creates, fills and commits a new trajectory `{userid}_0` |
| Grouping.UserIdTrajectoriesAreRuns | MOAPImporter/src/arida/ufc/br/moap/importer/csv/imp/RawTrajectoryCSVImporter.java:218-270 | with a userid column the calls build one committed trajectory per maximal run of ids equal ignoring case, in order, named `{first id of the run}_0` and holding the run's rows; the final loop state is the last id and the last run's trajectory |
| Grouping.RowCallsCommits | MOAPImporter/src/arida/ufc/br/moap/importer/csv/imp/RawTrajectoryCSVImporter.java:249-261 | a row with the previous id commits nothing, and any other row commits once |
| Grouping.UserIdCommitsOncePerRun | MOAPImporter/src/arida/ufc/br/moap/importer/csv/imp/RawTrajectoryCSVImporter.java:249-262 | the number of addTrajectory calls equals the number of maximal runs |
| Grouping.TwoUsersExample | MOAPImporter/src/arida/ufc/br/moap/importer/csv/imp/RawTrajectoryCSVImporter.java:249-262 | rows A, A, B give A_0 with two points, then B_0 with one |
| Grouping.NonContiguousRepeatDuplicatesTrajectory | MOAPImporter/src/arida/ufc/br/moap/importer/csv/imp/RawTrajectoryCSVImporter.java:254-260 | rows A, A, B, A commit A_0 twice, the second holding only the last row: there is no id-to-trajectory index |
| Discovery.Listed | MOAPImporter/src/arida/ufc/br/moap/importer/csv/imp/RawTrajectoryCSVImporter.java:131-138 | exactly the entries whose name ends in `.csv` are enqueued, files and directories alike |
| Discovery.ListedAppend | MOAPImporter/src/arida/ufc/br/moap/importer/csv/imp/RawTrajectoryCSVImporter.java:131-138 | filtering keeps the listing order: the entries kept from two listings one after the other are those kept from the first, then those kept from the second |
| Discovery.ListedOne | MOAPImporter/src/arida/ufc/br/moap/importer/csv/imp/RawTrajectoryCSVImporter.java:133-136 | a single entry is kept exactly when its name ends in `.csv` |
| Discovery.TotalSizeListed | MOAPImporter/src/arida/ufc/br/moap/importer/csv/imp/RawTrajectoryCSVImporter.java:133 | filtering a listing never makes it larger |
| Discovery.ExpandShrinks | MOAPImporter/src/arida/ufc/br/moap/importer/csv/imp/RawTrajectoryCSVImporter.java:110-113 | expanding a dequeued directory shrinks the queue's total size, so the loop ends on a finite tree |
| Discovery.FilesUnderAllAppend | MOAPImporter/src/arida/ufc/br/moap/importer/csv/imp/RawTrajectoryCSVImporter.java:110-116 | the files under two queues are those under the first, then those under the second |
| Discovery.WalkReadsEachFileOnce | MOAPImporter/src/arida/ufc/br/moap/importer/csv/imp/RawTrajectoryCSVImporter.java:109-117 | as a multiset, the queue reads every file reachable through accepted entries exactly once |
| Discovery.WalkReadsAcceptedFiles | MOAPImporter/src/arida/ufc/br/moap/importer/csv/imp/RawTrajectoryCSVImporter.java:100-117 | everything read is a file whose name ends in `.csv` |
| Discovery.FilesToRead | MOAPImporter/src/arida/ufc/br/moap/importer/csv/imp/RawTrajectoryCSVImporter.java:92-117 | a file path reads that one file; a directory reads only files |
| Discovery.WalkOfFilesKeepsOrder | MOAPImporter/src/arida/ufc/br/moap/importer/csv/imp/RawTrajectoryCSVImporter.java:110-116 | a queue of files is read in queue order, first in first out |
| Discovery.NestedDirectoryNeedsCsvName | MOAPImporter/src/arida/ufc/br/moap/importer/csv/imp/RawTrajectoryCSVImporter.java:100-113 | with a.csv, notes.txt, subdirectory sub holding b.csv and subdirectory more.csv holding c.csv, only a.csv and c.csv are read |
| Importer.ImportFileRejectsHeader | MOAPImporter/src/arida/ufc/br/moap/importer/csv/imp/RawTrajectoryCSVImporter.java:150-153 | a file without a header, with an empty header cell, or whose header lacks lat, lon or time, ends before any call on the model, with `NoHeader`, `NullHeaderCell` at the first empty cell, or `MissingHeaderAttribute` |
| Importer.ImportFileTrajectories | MOAPImporter/src/arida/ufc/br/moap/importer/csv/imp/RawTrajectoryCSVImporter.java:143-167 | a file whose header has no empty cell and has lat, lon and time builds one trajectory `{count}_0` without a userid column and one per run with it, from the rows before the first failing row, and ends with that row's error |
| Importer.HeaderResolved | MOAPImporter/src/arida/ufc/br/moap/importer/csv/imp/RawTrajectoryCSVImporter.java:146-153 | for a header without empty cells, maps filled from empty by the header and its processors give the schema, well formed, when the header check passes, and that check's failure otherwise |
| Importer.ImportAllAppend | MOAPImporter/src/arida/ufc/br/moap/importer/csv/imp/RawTrajectoryCSVImporter.java:110-124 | importing two batches in a row: when the first goes through, the calls follow each other and the second batch sees the counts the first one's calls left; when a file of the first fails, no file of the second is read |
| Importer.ImportAllOne | MOAPImporter/src/arida/ufc/br/moap/importer/csv/imp/RawTrajectoryCSVImporter.java:92-95 | importing a batch of one file is importing that file with the count the model reports at the start |
| Importer.PutColumn | MOAPImporter/src/arida/ufc/br/moap/importer/csv/imp/RawTrajectoryCSVImporter.java:320-334 | a `put` of column i into the map of its kind, on maps with earlier content, continues the index maps; the other map is unchanged |
| Importer.RawTrajectoryCsvImporter.constructor | MOAPImporter/src/arida/ufc/br/moap/importer/csv/imp/RawTrajectoryCSVImporter.java:65-76 | the time format starts as `yyyy-MM-dd'T'HH:mm:ss'Z'` |
| Importer.RawTrajectoryCsvImporter.SetTimeFormat | MOAPImporter/src/arida/ufc/br/moap/importer/csv/imp/RawTrajectoryCSVImporter.java:78-80 | the time format becomes the argument |
| Importer.RawTrajectoryCsvImporter.IsThereUserId | MOAPImporter/src/arida/ufc/br/moap/importer/csv/imp/RawTrajectoryCSVImporter.java:275-282 | it answers true exactly when some header equals userid ignoring case; it fails with `NullHeaderCell` at the first empty cell exactly when that cell comes before any userid column |
| Importer.RawTrajectoryCsvImporter.IsHeaderValid | MOAPImporter/src/arida/ufc/br/moap/importer/csv/imp/RawTrajectoryCSVImporter.java:287-308 | the accumulated check is `CheckHeader`: it passes exactly when lat, lon and time are keys, with the message of `HeaderMessageListsMissingNames` otherwise |
| Importer.RawTrajectoryCsvImporter.PutHeaderColumn | MOAPImporter/src/arida/ufc/br/moap/importer/csv/imp/RawTrajectoryCSVImporter.java:320-335 | a column whose name is userid, time, lat or lon in any case goes into the mandatory map under its own spelling, any other into the annotation map, the other map is unchanged, and the processor is the one the column's kind selects |
| Importer.RawTrajectoryCsvImporter.GetProcessors | MOAPImporter/src/arida/ufc/br/moap/importer/csv/imp/RawTrajectoryCSVImporter.java:313-344 | the maps gain exactly the index maps of the columns before the first empty cell; an empty cell fails with `NullHeaderCell` there; otherwise the result succeeds exactly when the header check passes, fails with that check's error, and its fresh array holds the processor of each column's kind |
| Importer.RawTrajectoryCsvImporter.PointOf | MOAPImporter/src/arida/ufc/br/moap/importer/csv/imp/RawTrajectoryCSVImporter.java:190-197 | the point built key by key is `FixOf`'s point: (longitude, latitude) from the lon and lat cells, which `RowToFixFields` ties to the double parser, with one STRING annotation per annotation key |
| Importer.RawTrajectoryCsvImporter.ExtractFix | MOAPImporter/src/arida/ufc/br/moap/importer/csv/imp/RawTrajectoryCSVImporter.java:223-244 | reading one row gives what `RowToFix` gives, whose properties `RowToFixSpec` states |
| Importer.RawTrajectoryCsvImporter.ReadWithNoUserId | MOAPImporter/src/arida/ufc/br/moap/importer/csv/imp/RawTrajectoryCSVImporter.java:172-213 | the log gains exactly `NoUserIdCalls` of the rows read, under the count the model reports before the file, and the result is the first failing row's error |
| Importer.RawTrajectoryCsvImporter.AddRowWithUserId | MOAPImporter/src/arida/ufc/br/moap/importer/csv/imp/RawTrajectoryCSVImporter.java:249-262 | one row adds `RowCalls` to the log and moves the loop state as the branch on the previous id does |
| Importer.RawTrajectoryCsvImporter.ReadWithUserId | MOAPImporter/src/arida/ufc/br/moap/importer/csv/imp/RawTrajectoryCSVImporter.java:218-270 | the log gains exactly `UserIdCalls` of the rows read, and the result is the first failing row's error |
| Importer.RawTrajectoryCsvImporter.ReadWithCsvListReader | MOAPImporter/src/arida/ufc/br/moap/importer/csv/imp/RawTrajectoryCSVImporter.java:143-167 | reading one file adds exactly `ImportFile`'s calls, under the count the model reports before the file, and returns its error |
| Importer.RawTrajectoryCsvImporter.ImportDirectory | MOAPImporter/src/arida/ufc/br/moap/importer/csv/imp/RawTrajectoryCSVImporter.java:96-117 | the queue loop adds exactly `ImportAll`'s calls for the files the walk reads, each file seeing the count the calls before it left, and stops at the first failing file with its error |
| Importer.RawTrajectoryCsvImporter.BuildImport | MOAPImporter/src/arida/ufc/br/moap/importer/csv/imp/RawTrajectoryCSVImporter.java:82-126 | importing a path adds exactly `ImportTarget`'s calls; a missing path reports "File {path} has not been found"; the exception is caught and reported, not thrown |

## Left out

- CSV tokenising (`CsvListReader`): a file is its optional header line and its
  rows of raw cells, with "" for an empty cell (which the reader hands over as
  null). Quoting, escapes and line numbers are not modelled.
- Date and double parsing (`ParseDate`, `ParseDouble`) are library code. They
  enter as function parameters; instants and doubles are opaque values.
- Case folding in `equalsIgnoreCase` covers the ASCII letters only.
- `ITrajectoryModel`, `MovingObject` and `Trajectory` are not part of this
  model. The model records the importer's calls on them; `Replay` gives those
  calls a meaning.
- How the trajectory model keeps its moving-object count is not part of this
  model. The count is any function of the calls the model has received, so the
  ids of files read later in a directory import are left open.
- `Parameters` and `Parameters.validate` are not part of this model. The path
  and what it names (file, directory or nothing) are parameters of
  `BuildImport`.
- File-system failures (an unreadable file, `listFiles` returning null) are not
  modelled; neither are closing the reader and `System.out` output.
- A header line that is null stands for an empty file. `isThereUserId` then
  dereferences null, and that exception is modelled as the error `NoHeader`.
- The iteration order of `annotationIdx.keySet()` is not modelled. The
  annotations form a map, so the order in which they are added leaves no trace.
- The order of `listFiles` is the order of a directory's entries in the tree
  value.
- DataModel.Step: a point, a lookup or a commit is replayed only against the
  most recently created trajectory; any other call gives None. The real
  `getTrajectory` looks a trajectory up by id, and the trajectory model's own
  indexing is not part of this model, so with two trajectories of the same id
  the real lookup may find the earlier one.
- Grouping.UserIdTrajectoriesAreRuns: holds under that replay. For rows A, B,
  A, A the replay puts row 4 into the second `A_0`, the one made for row 3; a
  real model that finds `A_0` by id may hand back the first.
- Grouping.NonContiguousRepeatDuplicatesTrajectory: states the calls (`A_0`
  created and committed twice) under the same replay; which `A_0` the real
  model keeps is not modelled.
- Importer.RawTrajectoryCsvImporter.BuildImport: returns the caught exception
  instead of printing its stack trace.
