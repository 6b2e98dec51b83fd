/** The importer itself: the per-file reading (reset the index maps, read the
    header, resolve the schema, read the rows in one of two modes) and the import
    of a path (one file, or every file the directory walk reaches, stopping at the
    first file that fails). Each method is proved against a function of its inputs
    and of the model's log before the call. */
module Importer {
  import opened Wrappers
  import opened ImportErrors
  import opened Text
  import opened Cells
  import opened Schema
  import opened Records
  import opened DataModel
  import opened Grouping
  import opened Discovery

  const DefaultTimeFormat := "yyyy-MM-dd'T'HH:mm:ss'Z'"

  /** Whether some header names the userid column, ignoring case. */
  predicate HasUserId(header: seq<string>)
  {
    exists i :: 0 <= i < |header| && EqualsIgnoreCase(header[i], UserId)
  }

  /** What importing does: the calls made on the trajectory model, in order, and
      the exception that ended it, if any. */
  datatype Outcome = Outcome(calls: seq<Call>, error: Option<ImportError>)

  /** Importing one file: no header line ends it before any call; so does a header
      without lat, lon and time; otherwise the rows are read in the mode the header
      selects, `count` being the model's moving-object count. */
  function ImportFile(file: CsvFile, count: nat, timeFormat: string, parsers: Parsers): Outcome
  {
    match file.header
    case None => Outcome([], Some(NoHeader))
    case Some(header) =>
      match SchemaOf(header, timeFormat)
      case Failure(e) => Outcome([], Some(e))
      case Success(s) =>
        var withUserId := HasUserId(header);
        var reading := ReadRows(s, file.rows, parsers, withUserId);
        if withUserId then Outcome(UserIdCalls(reading.fixes), reading.error)
        else Outcome(NoUserIdCalls(count, reading), reading.error)
  }

  /** A file without a header line, with an empty header cell, or whose header
      lacks one of lat, lon and time, ends before any call on the model: the header
      is checked before any row is read. */
  lemma ImportFileRejectsHeader(file: CsvFile, count: nat, timeFormat: string, parsers: Parsers)
    requires file.header.Some? ==>
      "" in file.header.value || !(Latitude in file.header.value && Longitude in file.header.value && Time in file.header.value)
    ensures ImportFile(file, count, timeFormat, parsers).calls == []
    ensures file.header.None? ==> ImportFile(file, count, timeFormat, parsers).error == Some(NoHeader)
    ensures file.header.Some? && "" in file.header.value ==>
      ImportFile(file, count, timeFormat, parsers).error == Some(NullHeaderCell(FirstEmpty(file.header.value)))
    ensures file.header.Some? && "" !in file.header.value ==>
      && ImportFile(file, count, timeFormat, parsers).error.Some?
      && ImportFile(file, count, timeFormat, parsers).error.value.MissingHeaderAttribute?
  {
    if file.header.Some? {
      var header := file.header.value;
      SchemaOfSpec(header, timeFormat);
      if "" !in header {
        var s := Schema(IndexMap(header, true), IndexMap(header, false), ProcessorsOf(header, timeFormat));
        assert CheckHeader(s.mandatoryIdx.Keys).Some?;
      }
    }
  }

  /** A file whose header has lat, lon and time and no empty cell builds the trajectories of the rows
      it reads before the first failing row: one `{count}_0` without a userid
      column, committed unless a row failed, or one per maximal run of ids with one. */
  lemma ImportFileTrajectories(file: CsvFile, count: nat, timeFormat: string, parsers: Parsers)
    requires file.header.Some? && "" !in file.header.value
    requires Latitude in file.header.value && Longitude in file.header.value && Time in file.header.value
    ensures SchemaOf(file.header.value, timeFormat).Success?
    ensures var header := file.header.value;
      var reading := ReadRows(SchemaOf(header, timeFormat).value, file.rows, parsers, HasUserId(header));
      && ImportFile(file, count, timeFormat, parsers).error == reading.error
      && Replay(Some([]), ImportFile(file, count, timeFormat, parsers).calls)
         == if HasUserId(header) then Some(RunTraces(Runs(reading.fixes)))
            else Some([Trace(FileTrajectoryId(count), NatToString(count), Samples(reading.fixes), reading.error.None?)])
  {
    var header := file.header.value;
    SchemaOfSpec(header, timeFormat);
    var s := SchemaOf(header, timeFormat).value;
    var reading := ReadRows(s, file.rows, parsers, HasUserId(header));
    if HasUserId(header) {
      ReadRowsUserIds(s, file.rows, parsers);
      assert reading == ReadRows(s, file.rows, parsers, true);
      UserIdTrajectoriesAreRuns(reading.fixes);
    } else {
      NoUserIdOneTrajectory(count, reading);
    }
  }

  /** A header without an empty cell whose columns were put in the maps `m` and
      `a`, with processors `p`: the failed header check is the schema's failure,
      and otherwise the three make up the schema, well formed. */
  lemma HeaderResolved(header: seq<string>, timeFormat: string, m: map<string, int>, a: map<string, int>, p: seq<Processor>)
    requires "" !in header
    requires m == map[] + IndexMap(header, true) && a == map[] + IndexMap(header, false)
    requires p == ProcessorsOf(header, timeFormat)
    ensures CheckHeader(m.Keys).Some? ==> SchemaOf(header, timeFormat) == Failure(CheckHeader(m.Keys).value)
    ensures CheckHeader(m.Keys).None? ==>
      SchemaOf(header, timeFormat) == Success(Schema(m, a, p)) && WellFormed(Schema(m, a, p))
  {
    assert FirstEmpty(header) == |header|;
    assert m == IndexMap(header, true) && a == IndexMap(header, false);
  }

  /** Importing files one after another; the first file that fails ends the batch,
      since one handler around the whole loop catches its exception. Each file sees
      the moving-object count the model reports after the calls made before it,
      `before` being the model's log when the batch starts. */
  function ImportAll(files: seq<Entry>, countAfter: seq<Call> -> nat, before: seq<Call>, timeFormat: string, parsers: Parsers): Outcome
    requires forall i :: 0 <= i < |files| ==> files[i].File?
    decreases |files|
  {
    if |files| == 0 then Outcome([], None)
    else
      var first := ImportFile(files[0].content, countAfter(before), timeFormat, parsers);
      if first.error.Some? then first
      else
        var rest := ImportAll(files[1..], countAfter, before + first.calls, timeFormat, parsers);
        Outcome(first.calls + rest.calls, rest.error)
  }

  /** A batch of files is a batch of files however it is cut. */
  lemma FilesAppend(a: seq<Entry>, b: seq<Entry>)
    requires forall i :: 0 <= i < |a| ==> a[i].File?
    requires forall i :: 0 <= i < |b| ==> b[i].File?
    ensures forall i :: 0 <= i < |a + b| ==> (a + b)[i].File?
  {
    assert forall i :: 0 <= i < |a + b| ==> (a + b)[i] == if i < |a| then a[i] else b[i - |a|];
  }

  /** Importing `a` then `b`: when `a` goes through, the calls follow each other and
      `b` is imported on the log `a` left, with `b`'s error; when a file of `a`
      fails, no file of `b` is read. */
  lemma ImportAllAppend(a: seq<Entry>, b: seq<Entry>, countAfter: seq<Call> -> nat, before: seq<Call>, timeFormat: string, parsers: Parsers)
    requires forall i :: 0 <= i < |a| ==> a[i].File?
    requires forall i :: 0 <= i < |b| ==> b[i].File?
    ensures forall i :: 0 <= i < |a + b| ==> (a + b)[i].File?
    ensures var first := ImportAll(a, countAfter, before, timeFormat, parsers);
      first.error.None? ==>
        var rest := ImportAll(b, countAfter, before + first.calls, timeFormat, parsers);
        ImportAll(a + b, countAfter, before, timeFormat, parsers) == Outcome(first.calls + rest.calls, rest.error)
    ensures ImportAll(a, countAfter, before, timeFormat, parsers).error.Some? ==>
      ImportAll(a + b, countAfter, before, timeFormat, parsers) == ImportAll(a, countAfter, before, timeFormat, parsers)
  {
    FilesAppend(a, b);
    if ImportAll(a, countAfter, before, timeFormat, parsers).error.None? {
      ImportAllThrough(a, b, countAfter, before, timeFormat, parsers);
    } else {
      ImportAllStops(a, b, countAfter, before, timeFormat, parsers);
    }
  }

  /** The first half of `ImportAllAppend`: `a` goes through. */
  lemma {:induction false} ImportAllThrough(a: seq<Entry>, b: seq<Entry>, countAfter: seq<Call> -> nat, before: seq<Call>, timeFormat: string, parsers: Parsers)
    requires forall i :: 0 <= i < |a + b| ==> (a + b)[i].File?
    requires |a| <= |a + b| && forall i :: 0 <= i < |a| ==> a[i].File?
    requires forall i :: 0 <= i < |b| ==> b[i].File?
    requires ImportAll(a, countAfter, before, timeFormat, parsers).error.None?
    ensures var first := ImportAll(a, countAfter, before, timeFormat, parsers);
      var rest := ImportAll(b, countAfter, before + first.calls, timeFormat, parsers);
      ImportAll(a + b, countAfter, before, timeFormat, parsers) == Outcome(first.calls + rest.calls, rest.error)
    decreases |a|
  {
    if |a| == 0 {
      assert a + b == b && before + [] == before;
    } else {
      assert (a + b)[0] == a[0] && (a + b)[1..] == a[1..] + b;
      var head := ImportFile(a[0].content, countAfter(before), timeFormat, parsers);
      var after := before + head.calls;
      ImportAllThrough(a[1..], b, countAfter, after, timeFormat, parsers);
      var tail := ImportAll(a[1..], countAfter, after, timeFormat, parsers);
      var rest := ImportAll(b, countAfter, after + tail.calls, timeFormat, parsers);
      assert head.error.None? && ImportAll(a, countAfter, before, timeFormat, parsers) == Outcome(head.calls + tail.calls, tail.error);
      var whole := ImportAll(a[1..] + b, countAfter, after, timeFormat, parsers);
      assert ImportAll(a + b, countAfter, before, timeFormat, parsers) == Outcome(head.calls + whole.calls, whole.error);
      AppendAssociates(before, head.calls, tail.calls);
      AppendAssociates(head.calls, tail.calls, rest.calls);
    }
  }

  /** The second half of `ImportAllAppend`: a file of `a` fails. */
  lemma {:induction false} ImportAllStops(a: seq<Entry>, b: seq<Entry>, countAfter: seq<Call> -> nat, before: seq<Call>, timeFormat: string, parsers: Parsers)
    requires forall i :: 0 <= i < |a + b| ==> (a + b)[i].File?
    requires |a| <= |a + b| && forall i :: 0 <= i < |a| ==> a[i].File?
    requires ImportAll(a, countAfter, before, timeFormat, parsers).error.Some?
    ensures ImportAll(a + b, countAfter, before, timeFormat, parsers) == ImportAll(a, countAfter, before, timeFormat, parsers)
    decreases |a|
  {
    assert (a + b)[0] == a[0] && (a + b)[1..] == a[1..] + b;
    var head := ImportFile(a[0].content, countAfter(before), timeFormat, parsers);
    if head.error.None? {
      ImportAllStops(a[1..], b, countAfter, before + head.calls, timeFormat, parsers);
    }
  }

  /** Importing one file as a batch is importing that file with the count the model
      reports at the start. */
  lemma ImportAllOne(f: Entry, countAfter: seq<Call> -> nat, before: seq<Call>, timeFormat: string, parsers: Parsers)
    requires f.File?
    ensures ImportAll([f], countAfter, before, timeFormat, parsers) == ImportFile(f.content, countAfter(before), timeFormat, parsers)
  {
    var o := ImportFile(f.content, countAfter(before), timeFormat, parsers);
    assert [f][1..] == [];
    assert o.calls + [] == o.calls;
  }

  /** Importing a path: a path that is neither a file nor a directory ends with the
      file-not-found exception and no call. */
  function ImportTarget(path: string, target: Option<Entry>, countAfter: seq<Call> -> nat, before: seq<Call>, timeFormat: string, parsers: Parsers): Outcome
  {
    match target
    case None => Outcome([], Some(FileNotFound("File " + path + " has not been found")))
    case Some(e) => ImportAll(FilesToRead(e), countAfter, before, timeFormat, parsers)
  }

  /** Putting column `i` into the map its kind selects, with both maps started from
      any earlier content: that map gains the column, the other one is unchanged. */
  lemma PutColumn(mandatoryBefore: map<string, int>, annotationBefore: map<string, int>, header: seq<string>, i: nat)
    requires i < |header|
    ensures IsMandatory(header[i]) ==>
      && (mandatoryBefore + IndexMap(header[..i], true))[header[i] := i] == mandatoryBefore + IndexMap(header[..i + 1], true)
      && annotationBefore + IndexMap(header[..i], false) == annotationBefore + IndexMap(header[..i + 1], false)
    ensures !IsMandatory(header[i]) ==>
      && mandatoryBefore + IndexMap(header[..i], true) == mandatoryBefore + IndexMap(header[..i + 1], true)
      && (annotationBefore + IndexMap(header[..i], false))[header[i] := i] == annotationBefore + IndexMap(header[..i + 1], false)
  {
    IndexMapNext(header, i, true);
    IndexMapNext(header, i, false);
    if IsMandatory(header[i]) {
      UnionUpdate(mandatoryBefore, IndexMap(header[..i], true), header[i], i);
    } else {
      UnionUpdate(annotationBefore, IndexMap(header[..i], false), header[i], i);
    }
  }

  lemma UnionUpdate<K, V>(a: map<K, V>, b: map<K, V>, k: K, v: V)
    ensures (a + b)[k := v] == a + b[k := v]
  {
  }

  lemma AppendAssociates<T>(a: seq<T>, b: seq<T>, c: seq<T>)
    ensures (a + b) + c == a + (b + c)
  {
  }

  class RawTrajectoryCsvImporter {
    var timeFormat: string
    /** The date and double parsers the cell processors use. */
    const parsers: Parsers
    var mandatoryIdx: map<string, int>
    var annotationIdx: map<string, int>
    var trajectoryDataModel: TrajectoryModel?

    constructor (parsers: Parsers)
      ensures timeFormat == DefaultTimeFormat && this.parsers == parsers
      ensures mandatoryIdx == map[] && annotationIdx == map[] && trajectoryDataModel == null
    {
      timeFormat := DefaultTimeFormat;
      this.parsers := parsers;
      mandatoryIdx := map[];
      annotationIdx := map[];
      trajectoryDataModel := null;
    }

    method SetTimeFormat(format: string)
      modifies this`timeFormat
      ensures timeFormat == format
    {
      timeFormat := format;
    }

    /** Scans the header for a column named userid in any case; an empty (null)
      cell reached before such a column fails the scan. */
    method IsThereUserId(headers: seq<string>) returns (r: Result<bool, ImportError>)
      ensures r.Success? ==> (r.value <==> HasUserId(headers))
      ensures r.Failure? <==> "" in headers && forall i :: 0 <= i < FirstEmpty(headers) ==> !EqualsIgnoreCase(headers[i], UserId)
      ensures r.Failure? ==> r.error == NullHeaderCell(FirstEmpty(headers))
    {
      var i := 0;
      while i < |headers|
        invariant 0 <= i <= |headers|
        invariant forall j :: 0 <= j < i ==> headers[j] != "" && !EqualsIgnoreCase(headers[j], UserId)
      {
        if headers[i] == "" {
          return Failure(NullHeaderCell(i));
        }
        if EqualsIgnoreCase(headers[i], UserId) {
          return Success(true);
        }
        i := i + 1;
      }
      return Success(false);
    }

    /** Accumulates "lat,", "lon," and "time," for the missing exact keys, then
      drops the trailing comma into the exception message. */
    method IsHeaderValid(header: set<string>) returns (r: Option<ImportError>)
      ensures r == CheckHeader(header)
    {
      var error := "";
      if Latitude !in header {
        error := error + "lat,";
      }
      if Longitude !in header {
        error := error + "lon,";
      }
      if Time !in header {
        error := error + "time,";
      }
      assert error == HeaderError(header);
      if error != "" {
        var size := |error| - 1;
        var msg := error[..size];
        return Some(MissingHeaderAttribute(HeaderErrorPrefix + msg));
      }
      return None;
    }

    /** The body of the column loop: a column of one of the four mandatory kinds is
      put into the mandatory map, any other into the annotation map, both under its
      own spelling; the processor is the one its kind selects. */
    method PutHeaderColumn(head: string, i: nat) returns (p: Processor)
      modifies this`mandatoryIdx, this`annotationIdx
      ensures p == ProcessorFor(Classify(head), timeFormat)
      ensures IsMandatory(head) ==> mandatoryIdx == old(mandatoryIdx)[head := i] && annotationIdx == old(annotationIdx)
      ensures !IsMandatory(head) ==> mandatoryIdx == old(mandatoryIdx) && annotationIdx == old(annotationIdx)[head := i]
    {
      if EqualsIgnoreCase(head, UserId) {
        mandatoryIdx := mandatoryIdx[head := i];
        p := NotNull;
      } else if EqualsIgnoreCase(head, Time) {
        mandatoryIdx := mandatoryIdx[head := i];
        p := NotNullParseDate(timeFormat);
      } else if EqualsIgnoreCase(head, Latitude) {
        mandatoryIdx := mandatoryIdx[head := i];
        p := NotNullParseDouble;
      } else if EqualsIgnoreCase(head, Longitude) {
        mandatoryIdx := mandatoryIdx[head := i];
        p := NotNullParseDouble;
      } else {
        annotationIdx := annotationIdx[head := i];
        p := Optional;
      }
    }

    /** One processor per column, chosen by the column's kind; every column is put
      into one of the two index maps under its own spelling; then the header check.
      An empty (null) cell stops the scan there with the columns before it put. */
    method GetProcessors(header: seq<string>) returns (r: Result<array<Processor>, ImportError>)
      modifies this`mandatoryIdx, this`annotationIdx
      ensures mandatoryIdx == old(mandatoryIdx) + IndexMap(header[..FirstEmpty(header)], true)
      ensures annotationIdx == old(annotationIdx) + IndexMap(header[..FirstEmpty(header)], false)
      ensures "" in header ==> r == Failure(NullHeaderCell(FirstEmpty(header)))
      ensures "" !in header ==> (r.Success? <==> CheckHeader(mandatoryIdx.Keys).None?)
      ensures "" !in header && r.Failure? ==> CheckHeader(mandatoryIdx.Keys) == Some(r.error)
      ensures r.Success? ==> fresh(r.value) && r.value[..] == ProcessorsOf(header, timeFormat)
    {
      var processors := new Processor[|header|](_ => Optional);
      for i := 0 to |header|
        invariant mandatoryIdx == old(mandatoryIdx) + IndexMap(header[..i], true)
        invariant annotationIdx == old(annotationIdx) + IndexMap(header[..i], false)
        invariant processors[..i] == ProcessorsOf(header[..i], timeFormat)
        invariant forall j :: 0 <= j < i ==> header[j] != ""
      {
        var head := header[i];
        if head == "" {
          assert i == FirstEmpty(header) && "" in header;
          return Failure(NullHeaderCell(i));
        }
        PutColumn(old(mandatoryIdx), old(annotationIdx), header, i);
        var p := PutHeaderColumn(head, i);
        processors[i] := p;
        ProcessorsOfNext(header, i, timeFormat);
        assert processors[..i + 1] == processors[..i] + [p];
      }
      assert FirstEmpty(header) == |header| && "" !in header;
      assert header[..|header|] == header;
      var check := IsHeaderValid(mandatoryIdx.Keys);
      if check.Some? {
        return Failure(check.value);
      }
      return Success(processors);
    }

    /** The point of a decoded row: (longitude, latitude), and one STRING annotation
      per annotation key, holding that key's cell, added key by key. */
    method PointOf(cells: seq<Cell>, ghost processors: seq<Processor>) returns (point: Point)
      requires WellFormed(Schema(mandatoryIdx, annotationIdx, processors)) && Conformant(cells, processors)
      ensures point == FixOf(Schema(mandatoryIdx, annotationIdx, processors), cells, false).point
    {
      var annotations: map<string, Annotation> := map[];
      var remaining := annotationIdx.Keys;
      while remaining != {}
        invariant remaining <= annotationIdx.Keys
        invariant annotations == map k | k in annotationIdx && k !in remaining :: Annotation(StringType, cells[annotationIdx[k]])
        decreases |remaining|
      {
        var annotation :| annotation in remaining;
        annotations := annotations[annotation := Annotation(StringType, cells[annotationIdx[annotation]])];
        remaining := remaining - {annotation};
      }
      point := Point(cells[mandatoryIdx[Longitude]].number, cells[mandatoryIdx[Latitude]].number, annotations);
    }

    /** One row as the reading loops take it: read the cells with the processors,
      then the userid (in userid mode, by the exact key, which may be missing),
      the time and the point. */
    method ExtractFix(raw: seq<string>, processors: array<Processor>, withUserId: bool) returns (r: Result<Fix, ImportError>)
      requires WellFormed(Schema(mandatoryIdx, annotationIdx, processors[..]))
      ensures r == RowToFix(Schema(mandatoryIdx, annotationIdx, processors[..]), raw, parsers, withUserId)
    {
      var decoded := Decode(processors[..], raw, parsers);
      if decoded.Failure? {
        return Failure(decoded.error);
      }
      var cells := decoded.value;
      DecodeSpec(processors[..], raw, parsers);
      var userid := "";
      if withUserId {
        if UserId !in mandatoryIdx {
          return Failure(NoUserIdIndex);
        }
        ClassifyNames();
        userid := cells[mandatoryIdx[UserId]].text;
      }
      var point := PointOf(cells, processors[..]);
      var time := cells[mandatoryIdx[Time]].instant;
      return Success(Fix(userid, time, point));
    }

    /** Reading without a userid column: one moving object named by the model's
      count and its trajectory `{count}_0` first, one point per row, the commit
      after the last row; a failing row ends the reading before the commit. */
    method ReadWithNoUserId(rows: seq<seq<string>>, processors: array<Processor>) returns (err: Option<ImportError>)
      requires trajectoryDataModel != null
      requires WellFormed(Schema(mandatoryIdx, annotationIdx, processors[..]))
      modifies trajectoryDataModel
      ensures var reading := ReadRows(Schema(mandatoryIdx, annotationIdx, processors[..]), rows, parsers, false);
        && trajectoryDataModel.log == old(trajectoryDataModel.log) + NoUserIdCalls(trajectoryDataModel.countAfter(old(trajectoryDataModel.log)), reading)
        && err == reading.error
    {
      var model := trajectoryDataModel;
      ghost var s := Schema(mandatoryIdx, annotationIdx, processors[..]);
      var count := model.GetMovingObjectCount();
      var moId := NatToString(count);
      model.NewMovingObject(moId);
      var tid := moId + "_0";
      model.NewTrajectory(tid, moId);
      ghost var head := [Call.NewMovingObject(moId), Call.NewTrajectory(tid, moId)];
      ghost var fixes: seq<Fix> := [];
      var i := 0;
      while i < |rows|
        invariant 0 <= i <= |rows|
        invariant ReadRows(s, rows[..i], parsers, false) == Reading(fixes, None)
        invariant model.log == old(model.log) + (head + PointCalls(tid, fixes))
      {
        var row := ExtractFix(rows[i], processors, false);
        ReadRowsStep(s, rows, i, parsers, false, fixes);
        if row.Failure? {
          assert NoUserIdCalls(count, Reading(fixes, Some(row.error))) == head + PointCalls(tid, fixes) + [];
          return Some(row.error);
        }
        ghost var before := model.log;
        model.AddPoint(tid, row.value.point, row.value.time);
        ghost var point := Call.AddPoint(tid, SampleOf(row.value));
        assert model.log == before + [point];
        PointCallsSnoc(tid, fixes, row.value);
        AppendAssociates(head, PointCalls(tid, fixes), [point]);
        AppendAssociates(old(model.log), head + PointCalls(tid, fixes), [point]);
        fixes := fixes + [row.value];
        i := i + 1;
      }
      assert rows[..i] == rows;
      model.AddTrajectory(tid);
      AppendAssociates(old(model.log), head + PointCalls(tid, fixes), [Call.AddTrajectory(tid)]);
      assert NoUserIdCalls(count, Reading(fixes, None)) == head + PointCalls(tid, fixes) + [Call.AddTrajectory(tid)];
      return None;
    }

    /** One row in userid mode, from the loop state `st`: a row whose id equals the
      previous row's, ignoring case, gets the current trajectory back and adds its
      point to it; any other row creates its moving object and trajectory
      `{userid}_0`, adds its point and commits it at once. */
    method AddRowWithUserId(st: GroupingState, f: Fix) returns (next: GroupingState)
      requires trajectoryDataModel != null
      modifies trajectoryDataModel
      ensures trajectoryDataModel.log == old(trajectoryDataModel.log) + RowCalls(st, f)
      ensures next == GroupingState(f.userid, if EqualsIgnoreCase(st.previousUserId, f.userid) then st.currentTrajectory else f.userid + "_0")
    {
      var model := trajectoryDataModel;
      var currentTrajectory := st.currentTrajectory;
      if EqualsIgnoreCase(st.previousUserId, f.userid) {
        model.GetTrajectory(currentTrajectory);
        model.AddPoint(currentTrajectory, f.point, f.time);
      } else {
        model.NewMovingObject(f.userid);
        var tid := f.userid + "_0";
        model.NewTrajectory(tid, f.userid);
        currentTrajectory := tid;
        model.AddPoint(tid, f.point, f.time);
        model.AddTrajectory(tid);
      }
      next := GroupingState(f.userid, currentTrajectory);
    }

    /** Reading with a userid column: the rows in order, each from the state the
      previous one left (previous id and current trajectory, both empty at the
      start). A column spelled other than "userid" leaves the key missing, and the
      first row fails. */
    method ReadWithUserId(rows: seq<seq<string>>, processors: array<Processor>) returns (err: Option<ImportError>)
      requires trajectoryDataModel != null
      requires WellFormed(Schema(mandatoryIdx, annotationIdx, processors[..]))
      modifies trajectoryDataModel
      ensures var reading := ReadRows(Schema(mandatoryIdx, annotationIdx, processors[..]), rows, parsers, true);
        && trajectoryDataModel.log == old(trajectoryDataModel.log) + UserIdCalls(reading.fixes)
        && err == reading.error
    {
      var model := trajectoryDataModel;
      ghost var s := Schema(mandatoryIdx, annotationIdx, processors[..]);
      var state := GroupingState("", "");
      ghost var fixes: seq<Fix> := [];
      var i := 0;
      while i < |rows|
        invariant 0 <= i <= |rows|
        invariant trajectoryDataModel == model
        invariant ReadRows(s, rows[..i], parsers, true) == Reading(fixes, None)
        invariant model.log == old(model.log) + UserIdCalls(fixes)
        invariant state == UserIdState(fixes)
      {
        var row := ExtractFix(rows[i], processors, true);
        ReadRowsStep(s, rows, i, parsers, true, fixes);
        if row.Failure? {
          return Some(row.error);
        }
        UserIdStep(fixes, row.value);
        ghost var before := model.log;
        ghost var calls := RowCalls(state, row.value);
        state := AddRowWithUserId(state, row.value);
        assert model.log == old(model.log) + (UserIdCalls(fixes) + calls) by {
          assert model.log == before + calls;
          AppendAssociates(old(model.log), UserIdCalls(fixes), calls);
        }
        fixes := fixes + [row.value];
        i := i + 1;
      }
      assert rows[..i] == rows;
      return None;
    }

    /** Reads one file: fresh index maps, the header, the mode, the schema, then the
      rows in that mode. */
    method ReadWithCsvListReader(file: CsvFile) returns (err: Option<ImportError>)
      requires trajectoryDataModel != null
      modifies this`mandatoryIdx, this`annotationIdx, trajectoryDataModel
      ensures var outcome := ImportFile(file, trajectoryDataModel.countAfter(old(trajectoryDataModel.log)), timeFormat, parsers);
        && trajectoryDataModel.log == old(trajectoryDataModel.log) + outcome.calls
        && err == outcome.error
    {
      mandatoryIdx := map[];
      annotationIdx := map[];
      if file.header.None? {
        assert trajectoryDataModel.log == old(trajectoryDataModel.log) + [];
        return Some(NoHeader);
      }
      var headers := file.header.value;
      var hasUserId := IsThereUserId(headers);
      if hasUserId.Failure? {
        assert trajectoryDataModel.log == old(trajectoryDataModel.log) + [];
        return Some(hasUserId.error);
      }
      var processors := GetProcessors(headers);
      if "" !in headers {
        assert headers[..FirstEmpty(headers)] == headers;
        HeaderResolved(headers, timeFormat, mandatoryIdx, annotationIdx, ProcessorsOf(headers, timeFormat));
      }
      if processors.Failure? {
        assert trajectoryDataModel.log == old(trajectoryDataModel.log) + [];
        return Some(processors.error);
      }
      if !hasUserId.value {
        err := ReadWithNoUserId(file.rows, processors.value);
      } else {
        err := ReadWithUserId(file.rows, processors.value);
      }
    }

    /** The directory branch: a first-in first-out queue seeded with the entries
      that pass the name filter; a dequeued directory adds its own passing entries
      at the back, a dequeued file is read, and the first file that fails ends the
      loop. */
    method ImportDirectory(children: seq<Entry>) returns (err: Option<ImportError>)
      requires trajectoryDataModel != null
      modifies this`mandatoryIdx, this`annotationIdx, trajectoryDataModel
      ensures var outcome := ImportAll(FilesToRead(Directory("", children)), trajectoryDataModel.countAfter, old(trajectoryDataModel.log), timeFormat, parsers);
        && trajectoryDataModel.log == old(trajectoryDataModel.log) + outcome.calls
        && err == outcome.error
    {
      var model := trajectoryDataModel;
      ghost var countAfter := model.countAfter;
      ghost var all := Walk(Listed(children));
      assert all == FilesToRead(Directory("", children));
      var files := Listed(children);
      ghost var read: seq<Entry> := [];
      while |files| > 0
        invariant trajectoryDataModel == model
        invariant all == read + Walk(files)
        invariant forall i :: 0 <= i < |read| ==> read[i].File?
        invariant ImportAll(read, countAfter, old(model.log), timeFormat, parsers).error.None?
        invariant model.log == old(model.log) + ImportAll(read, countAfter, old(model.log), timeFormat, parsers).calls
        decreases TotalSize(files)
      {
        var selectedFile := files[0];
        ghost var queue := files;
        files := files[1..];
        if selectedFile.Directory? {
          ExpandShrinks(queue);
          files := files + Listed(selectedFile.children);
        } else {
          assert Walk(queue) == [selectedFile] + Walk(files);
          AppendAssociates(read, [selectedFile], Walk(files));
          ghost var before := ImportAll(read, countAfter, old(model.log), timeFormat, parsers).calls;
          err := ReadWithCsvListReader(selectedFile.content);
          ImportAllOne(selectedFile, countAfter, old(model.log) + before, timeFormat, parsers);
          ImportAllAppend(read, [selectedFile], countAfter, old(model.log), timeFormat, parsers);
          AppendAssociates(old(model.log), before, ImportFile(selectedFile.content, countAfter(old(model.log) + before), timeFormat, parsers).calls);
          read := read + [selectedFile];
          if err.Some? {
            WalkReadsAcceptedFiles(Listed(children));
            ImportAllAppend(read, Walk(files), countAfter, old(model.log), timeFormat, parsers);
            return;
          }
        }
      }
      assert read + [] == read;
      return None;
    }

    /** Imports a path: a file is read, a directory is walked, and any other path
      fails with file-not-found. The exception that ends the import is caught and
      reported, not thrown. */
    method BuildImport(model: TrajectoryModel, path: string, target: Option<Entry>) returns (reported: Option<ImportError>)
      modifies this, model
      ensures trajectoryDataModel == model && timeFormat == old(timeFormat)
      ensures var outcome := ImportTarget(path, target, model.countAfter, old(model.log), timeFormat, parsers);
        && model.log == old(model.log) + outcome.calls
        && reported == outcome.error
    {
      trajectoryDataModel := model;
      match target
      case None =>
        assert model.log == old(model.log) + [];
        reported := Some(FileNotFound("File " + path + " has not been found"));
      case Some(File(_, content)) =>
        reported := ReadWithCsvListReader(content);
        ImportAllOne(target.value, model.countAfter, old(model.log), timeFormat, parsers);
      case Some(Directory(_, children)) =>
        reported := ImportDirectory(children);
        assert FilesToRead(target.value) == FilesToRead(Directory("", children));
    }
  }
}
