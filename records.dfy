/** What one decoded row becomes: a point (longitude, latitude and its annotations)
    at an instant, and, in a file with a userid column, the id of its moving object. */
module Records {
  import opened Wrappers
  import opened ImportErrors
  import opened Cells
  import opened Schema

  /** Every annotation is typed as a string, whatever its cell looks like. */
  datatype ValueType = StringType

  datatype Annotation = Annotation(kind: ValueType, value: Cell)

  /** A LatLonPoint: built from (longitude, latitude), with its annotations by name. */
  datatype Point = Point(longitude: Float64, latitude: Float64, annotations: map<string, Annotation>)

  /** One row: the moving object id (empty in a file without a userid column), the
      instant and the point. */
  datatype Fix = Fix(userid: string, time: Instant, point: Point)

  /** One annotation per annotation column, typed STRING and holding the cell as read. */
  function AnnotationsOf(annotationIdx: map<string, int>, cells: seq<Cell>): map<string, Annotation>
    requires forall k :: k in annotationIdx ==> 0 <= annotationIdx[k] < |cells|
  {
    map k | k in annotationIdx :: Annotation(StringType, cells[annotationIdx[k]])
  }

  /** The fields the row readers take from a decoded row, by the mandatory indices. */
  function FixOf(s: Schema, cells: seq<Cell>, withUserId: bool): Fix
    requires WellFormed(s) && Conformant(cells, s.processors)
    requires withUserId ==> UserId in s.mandatoryIdx
  {
    ClassifyNames();
    Fix(if withUserId then cells[s.mandatoryIdx[UserId]].text else "",
        cells[s.mandatoryIdx[Time]].instant,
        Point(cells[s.mandatoryIdx[Longitude]].number,
              cells[s.mandatoryIdx[Latitude]].number,
              AnnotationsOf(s.annotationIdx, cells)))
  }

  /** Reads one row: decode it with the processors, then, in userid mode, look up the
      exact key "userid", which a column spelled another way leaves missing. */
  function RowToFix(s: Schema, raw: seq<string>, parsers: Parsers, withUserId: bool): Result<Fix, ImportError>
    requires WellFormed(s)
  {
    match Decode(s.processors, raw, parsers)
    case Failure(e) => Failure(e)
    case Success(cells) =>
      if withUserId && UserId !in s.mandatoryIdx then Failure(NoUserIdIndex)
      else
        DecodeSpec(s.processors, raw, parsers);
        Success(FixOf(s, cells, withUserId))
  }

  /** A row reads when it decodes and, in userid mode, the exact key userid has an
      index; the id read is then never empty, and the point's annotations are named
      by the annotation keys. */
  lemma RowToFixSpec(s: Schema, raw: seq<string>, parsers: Parsers, withUserId: bool)
    requires WellFormed(s)
    ensures var r := RowToFix(s, raw, parsers, withUserId);
      && (r.Success? <==> Decode(s.processors, raw, parsers).Success? && (withUserId ==> UserId in s.mandatoryIdx))
      && (r.Failure? && Decode(s.processors, raw, parsers).Success? ==> r.error == NoUserIdIndex)
      && (r.Failure? && Decode(s.processors, raw, parsers).Failure? ==> r.error == Decode(s.processors, raw, parsers).error)
      && (r.Success? && withUserId ==> r.value.userid != "")
      && (r.Success? ==> r.value.point.annotations.Keys == s.annotationIdx.Keys)
  {
    if RowToFix(s, raw, parsers, withUserId).Success? {
      RowToFixFields(s, raw, parsers, withUserId);
    }
  }

  /** The fields of a row that reads: the id is the cell of the exact column userid
      (never empty) in userid mode and empty otherwise; the instant is what the date
      parser gives for the time cell under the time column's pattern; longitude and
      latitude are what the double parser gives for their cells; and there is one
      annotation per annotation key. */
  lemma RowToFixFields(s: Schema, raw: seq<string>, parsers: Parsers, withUserId: bool)
    requires WellFormed(s)
    requires RowToFix(s, raw, parsers, withUserId).Success?
    ensures |raw| == |s.processors|
    ensures var f := RowToFix(s, raw, parsers, withUserId).value;
      && (withUserId ==> UserId in s.mandatoryIdx && f.userid == raw[s.mandatoryIdx[UserId]] && f.userid != "")
      && (!withUserId ==> f.userid == "")
      && parsers.parseDate(s.processors[s.mandatoryIdx[Time]].format, raw[s.mandatoryIdx[Time]]) == Some(f.time)
      && parsers.parseDouble(raw[s.mandatoryIdx[Longitude]]) == Some(f.point.longitude)
      && parsers.parseDouble(raw[s.mandatoryIdx[Latitude]]) == Some(f.point.latitude)
      && f.point.annotations.Keys == s.annotationIdx.Keys
  {
    DecodeSpec(s.processors, raw, parsers);
    var cells := Decode(s.processors, raw, parsers).value;
    var t, lon, lat := s.mandatoryIdx[Time], s.mandatoryIdx[Longitude], s.mandatoryIdx[Latitude];
    assert cells[t] == Process(s.processors[t], raw[t], t, parsers).value;
    assert cells[lon] == Process(NotNullParseDouble, raw[lon], lon, parsers).value;
    assert cells[lat] == Process(NotNullParseDouble, raw[lat], lat, parsers).value;
    if withUserId {
      var i := s.mandatoryIdx[UserId];
      assert cells[i] == Process(NotNull, raw[i], i, parsers).value;
    }
  }

  /** In a file whose header resolves, the time cell is parsed with the importer's
      time format, at the last column spelled `time`. */
  lemma RowTimeUsesTimeFormat(header: seq<string>, timeFormat: string, raw: seq<string>, parsers: Parsers, withUserId: bool)
    requires SchemaOf(header, timeFormat).Success?
    requires RowToFix(SchemaOf(header, timeFormat).value, raw, parsers, withUserId).Success?
    ensures Time in IndexMap(header, true) && 0 <= IndexMap(header, true)[Time] < |raw|
    ensures parsers.parseDate(timeFormat, raw[IndexMap(header, true)[Time]])
      == Some(RowToFix(SchemaOf(header, timeFormat).value, raw, parsers, withUserId).value.time)
  {
    var s := SchemaOf(header, timeFormat).value;
    SchemaOfSpec(header, timeFormat);
    RowToFixFields(s, raw, parsers, withUserId);
    assert s.mandatoryIdx == IndexMap(header, true);
    MandatoryProcessor(header, timeFormat, Time);
    ClassifyNames();
  }

  /** The annotation under key `k` holds the raw cell of the column `k` indexes. */
  lemma AnnotationOfKey(s: Schema, raw: seq<string>, parsers: Parsers, withUserId: bool, k: string)
    requires WellFormed(s)
    requires RowToFix(s, raw, parsers, withUserId).Success?
    requires k in s.annotationIdx
    ensures var i := s.annotationIdx[k];
      && 0 <= i < |raw|
      && k in RowToFix(s, raw, parsers, withUserId).value.point.annotations
      && RowToFix(s, raw, parsers, withUserId).value.point.annotations[k] == Annotation(StringType, if raw[i] == "" then Null else Text(raw[i]))
  {
    var i := s.annotationIdx[k];
    RowToFixSpec(s, raw, parsers, withUserId);
    DecodeSpec(s.processors, raw, parsers);
    var cells := Decode(s.processors, raw, parsers).value;
    assert RowToFix(s, raw, parsers, withUserId).value.point.annotations == AnnotationsOf(s.annotationIdx, cells);
    assert cells[i] == Process(Optional, raw[i], i, parsers).value;
  }

  /** The annotations of a row are named exactly by the annotation columns of the
      header: every column that is not userid, time, lat or lon, and nothing else. */
  lemma AnnotationNamesAreAnnotationColumns(header: seq<string>, timeFormat: string, raw: seq<string>, parsers: Parsers, withUserId: bool)
    requires SchemaOf(header, timeFormat).Success?
    requires RowToFix(SchemaOf(header, timeFormat).value, raw, parsers, withUserId).Success?
    ensures var annotations := RowToFix(SchemaOf(header, timeFormat).value, raw, parsers, withUserId).value.point.annotations;
      forall name :: name in annotations <==> name in header && !IsMandatory(name)
  {
    var s := SchemaOf(header, timeFormat).value;
    assert s.annotationIdx == IndexMap(header, false);
    IndexMapSpec(header, false);
    RowToFixSpec(s, raw, parsers, withUserId);
  }

  /** Annotation round trip: the last column spelled with an annotation name gives the
      point the annotation under that name, typed STRING and carrying the raw cell
      unchanged (null for an empty cell). */
  lemma AnnotationsCarryRawCells(header: seq<string>, timeFormat: string, raw: seq<string>, parsers: Parsers, withUserId: bool)
    requires SchemaOf(header, timeFormat).Success?
    requires RowToFix(SchemaOf(header, timeFormat).value, raw, parsers, withUserId).Success?
    ensures var annotations := RowToFix(SchemaOf(header, timeFormat).value, raw, parsers, withUserId).value.point.annotations;
      forall i :: 0 <= i < |header| && !IsMandatory(header[i]) && (forall j :: i < j < |header| ==> header[j] != header[i]) ==>
        header[i] in annotations && annotations[header[i]] == Annotation(StringType, if raw[i] == "" then Null else Text(raw[i]))
  {
    var s := SchemaOf(header, timeFormat).value;
    assert s.annotationIdx == IndexMap(header, false);
    IndexMapSpec(header, false);
    forall i | 0 <= i < |header| && !IsMandatory(header[i]) && (forall j :: i < j < |header| ==> header[j] != header[i])
      ensures var annotations := RowToFix(s, raw, parsers, withUserId).value.point.annotations;
        header[i] in annotations && annotations[header[i]] == Annotation(StringType, if raw[i] == "" then Null else Text(raw[i]))
    {
      assert s.annotationIdx[header[i]] == i;
      AnnotationOfKey(s, raw, parsers, withUserId, header[i]);
    }
  }
}
