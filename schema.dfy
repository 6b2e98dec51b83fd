/** Header schema resolution: how the importer classifies each header column, the
    two index maps it fills (mandatory columns and annotation columns), the cell
    processor it picks per column, and the check that lat, lon and time are present. */
module Schema {
  import opened Wrappers
  import opened ImportErrors
  import opened Text
  import opened Cells

  const UserId := "userid"
  const Time := "time"
  const Latitude := "lat"
  const Longitude := "lon"
  const HeaderErrorPrefix := "Missing header attributes: "

  datatype Column = UserIdColumn | TimeColumn | LatColumn | LonColumn | AnnotationColumn

  /** The column kind, tested ignoring case in the order userid, time, lat, lon. */
  function Classify(head: string): Column
  {
    if EqualsIgnoreCase(head, UserId) then UserIdColumn
    else if EqualsIgnoreCase(head, Time) then TimeColumn
    else if EqualsIgnoreCase(head, Latitude) then LatColumn
    else if EqualsIgnoreCase(head, Longitude) then LonColumn
    else AnnotationColumn
  }

  /** The four lower-case names classify as their own columns. */
  lemma ClassifyNames()
    ensures Classify(UserId) == UserIdColumn && Classify(Time) == TimeColumn
    ensures Classify(Latitude) == LatColumn && Classify(Longitude) == LonColumn
  {
    DifferIgnoringCaseAt(Longitude, Latitude, 1);
    DifferIgnoringCaseAt(Time, UserId, 0);
    DifferIgnoringCaseAt(Latitude, UserId, 0);
    DifferIgnoringCaseAt(Latitude, Time, 0);
    DifferIgnoringCaseAt(Longitude, UserId, 0);
    DifferIgnoringCaseAt(Longitude, Time, 0);
  }

  predicate IsMandatory(head: string)
  {
    Classify(head) != AnnotationColumn
  }

  function ProcessorFor(c: Column, timeFormat: string): Processor
  {
    match c
    case UserIdColumn => NotNull
    case TimeColumn => NotNullParseDate(timeFormat)
    case LatColumn => NotNullParseDouble
    case LonColumn => NotNullParseDouble
    case AnnotationColumn => Optional
  }

  function ProcessorsOf(header: seq<string>, timeFormat: string): seq<Processor>
  {
    seq(|header|, i requires 0 <= i < |header| => ProcessorFor(Classify(header[i]), timeFormat))
  }

  /** The map that `put(header[i], i)`, for i ascending over the columns whose
      mandatory-ness is `mandatory`, leaves behind: keys under their own spelling,
      a repeated name keeping its last index. */
  function IndexMap(header: seq<string>, mandatory: bool): map<string, int>
  {
    if |header| == 0 then map[]
    else
      var n := |header| - 1;
      var m := IndexMap(header[..n], mandatory);
      if IsMandatory(header[n]) == mandatory then m[header[n] := n] else m
  }

  /** A name is a key exactly when some column is spelled that way and has the
      requested kind; its index is the last column spelled that way. */
  lemma {:induction false} IndexMapSpec(header: seq<string>, mandatory: bool)
    ensures forall k :: k in IndexMap(header, mandatory) <==> IsMandatory(k) == mandatory && k in header
    ensures forall k :: k in IndexMap(header, mandatory) ==>
      var i := IndexMap(header, mandatory)[k];
      0 <= i < |header| && header[i] == k && forall j :: i < j < |header| ==> header[j] != k
  {
    if |header| > 0 {
      var n := |header| - 1;
      IndexMapSpec(header[..n], mandatory);
      assert header == header[..n] + [header[n]];
      forall k
        ensures k in header <==> k in header[..n] || k == header[n]
      {
        if k in header {
          var j :| 0 <= j < |header| && header[j] == k;
          if j < n { assert header[..n][j] == k; }
        }
      }
    }
  }

  /** Putting the next column into the map it belongs to. */
  lemma IndexMapNext(header: seq<string>, i: nat, mandatory: bool)
    requires i < |header|
    ensures IndexMap(header[..i + 1], mandatory)
      == if IsMandatory(header[i]) == mandatory then IndexMap(header[..i], mandatory)[header[i] := i] else IndexMap(header[..i], mandatory)
  {
    assert header[..i + 1][..i] == header[..i];
  }

  lemma ProcessorsOfNext(header: seq<string>, i: nat, timeFormat: string)
    requires i < |header|
    ensures ProcessorsOf(header[..i + 1], timeFormat) == ProcessorsOf(header[..i], timeFormat) + [ProcessorFor(Classify(header[i]), timeFormat)]
  {
  }

  /** No header name lands in both maps, and every column lands in one of them. */
  lemma IndexMapsPartitionColumns(header: seq<string>)
    ensures IndexMap(header, true).Keys !! IndexMap(header, false).Keys
    ensures forall i :: 0 <= i < |header| ==> header[i] in IndexMap(header, true) || header[i] in IndexMap(header, false)
  {
    IndexMapSpec(header, true);
    IndexMapSpec(header, false);
  }

  /** Lists the missing names among lat, lon, time, in that order. */
  function MissingNames(keys: set<string>): (missing: seq<string>)
    ensures forall name :: name in missing <==> name in [Latitude, Longitude, Time] && name !in keys
    ensures forall i, j :: 0 <= i < j < |missing| ==> Rank(missing[i]) < Rank(missing[j])
    ensures |missing| == 0 <==> {Latitude, Longitude, Time} <= keys
  {
    (if Latitude !in keys then [Latitude] else [])
    + (if Longitude !in keys then [Longitude] else [])
    + (if Time !in keys then [Time] else [])
  }

  /** Position of a mandatory name in the fixed order lat, lon, time. */
  function Rank(name: string): nat
  {
    if name == Latitude then 0 else if name == Longitude then 1 else 2
  }

  /** The text the header check accumulates: "lat,", "lon," and "time," for each
      exact key missing from the mandatory keys, in that order. */
  function HeaderError(keys: set<string>): string
  {
    (if Latitude !in keys then "lat," else "")
    + (if Longitude !in keys then "lon," else "")
    + (if Time !in keys then "time," else "")
  }

  /** The outcome of the header check on the mandatory key set: nothing when the
      accumulated text is empty, otherwise the prefix and that text without its
      last comma. */
  function CheckHeader(keys: set<string>): (r: Option<ImportError>)
    ensures r.None? <==> Latitude in keys && Longitude in keys && Time in keys
    ensures r.Some? ==> r.value.MissingHeaderAttribute?
  {
    var error := HeaderError(keys);
    if error == "" then None
    else Some(MissingHeaderAttribute(HeaderErrorPrefix + error[..|error| - 1]))
  }

  /** The accumulated text is every missing name followed by a comma. */
  lemma HeaderErrorIsCommaTerminated(keys: set<string>)
    ensures HeaderError(keys) == CommaTerminated(MissingNames(keys))
  {
    var a := if Latitude !in keys then [Latitude] else [];
    var b := if Longitude !in keys then [Longitude] else [];
    var c := if Time !in keys then [Time] else [];
    CommaTerminatedAppend(a + b, c);
    CommaTerminatedAppend(a, b);
    assert CommaTerminated(a) == (if Latitude !in keys then "lat," else "") by {
      CommaTerminatedOne(Latitude);
    }
    assert CommaTerminated(b) == (if Longitude !in keys then "lon," else "") by {
      CommaTerminatedOne(Longitude);
    }
    assert CommaTerminated(c) == (if Time !in keys then "time," else "") by {
      CommaTerminatedOne(Time);
    }
  }

  lemma MissingNamesCommaFree(keys: set<string>)
    ensures forall i :: 0 <= i < |MissingNames(keys)| ==> ',' !in MissingNames(keys)[i]
  {
    assert ',' !in Latitude && ',' !in Longitude && ',' !in Time by {
      assert Latitude == ['l', 'a', 't'] && Longitude == ['l', 'o', 'n'] && Time == ['t', 'i', 'm', 'e'];
    }
    var missing := MissingNames(keys);
    forall i | 0 <= i < |missing|
      ensures ',' !in missing[i]
    {
      assert missing[i] in [Latitude, Longitude, Time];
    }
  }

  /** The message of a failed header check is the prefix followed by exactly the
      missing names, in the order lat, lon, time, separated by commas. */
  lemma HeaderMessageListsMissingNames(keys: set<string>)
    requires CheckHeader(keys).Some?
    ensures var message := CheckHeader(keys).value.message;
      && message == HeaderErrorPrefix + JoinComma(MissingNames(keys))
      && message[..|HeaderErrorPrefix|] == HeaderErrorPrefix
      && SplitComma(message[|HeaderErrorPrefix|..]) == MissingNames(keys)
  {
    var missing := MissingNames(keys);
    HeaderErrorIsCommaTerminated(keys);
    CommaTerminatedIsJoinedPlusComma(missing);
    var error := HeaderError(keys);
    assert error[..|error| - 1] == JoinComma(missing);
    var message := HeaderErrorPrefix + JoinComma(missing);
    assert message[|HeaderErrorPrefix|..] == JoinComma(missing);
    MissingNamesCommaFree(keys);
    SplitJoinComma(missing);
  }

  /** The outcome of schema resolution: both index maps and one processor per column. */
  datatype Schema = Schema(mandatoryIdx: map<string, int>, annotationIdx: map<string, int>, processors: seq<Processor>)

  /** What the row readers rely on: lat, lon and time have indices, every index is a
      column, the processors under the mandatory keys parse what the readers take
      from them, and every annotation column is optional. */
  predicate WellFormed(s: Schema)
  {
    && Latitude in s.mandatoryIdx && Longitude in s.mandatoryIdx && Time in s.mandatoryIdx
    && (forall k :: k in s.mandatoryIdx ==> 0 <= s.mandatoryIdx[k] < |s.processors|)
    && s.processors[s.mandatoryIdx[Time]].NotNullParseDate?
    && s.processors[s.mandatoryIdx[Latitude]] == NotNullParseDouble
    && s.processors[s.mandatoryIdx[Longitude]] == NotNullParseDouble
    && (UserId in s.mandatoryIdx ==> s.processors[s.mandatoryIdx[UserId]] == NotNull)
    && (forall k :: k in s.annotationIdx ==>
          0 <= s.annotationIdx[k] < |s.processors| && s.processors[s.annotationIdx[k]] == Optional)
  }

  /** The processor at a mandatory key's column is the one its kind selects. */
  lemma MandatoryProcessor(header: seq<string>, timeFormat: string, k: string)
    requires k in IndexMap(header, true)
    ensures 0 <= IndexMap(header, true)[k] < |header|
    ensures ProcessorsOf(header, timeFormat)[IndexMap(header, true)[k]] == ProcessorFor(Classify(k), timeFormat)
  {
    IndexMapSpec(header, true);
  }

  /** Every annotation key's column is within the header and optional. */
  lemma AnnotationProcessors(header: seq<string>, timeFormat: string)
    ensures forall k :: k in IndexMap(header, false) ==>
      0 <= IndexMap(header, false)[k] < |header| && ProcessorsOf(header, timeFormat)[IndexMap(header, false)[k]] == Optional
  {
    IndexMapSpec(header, false);
  }

  /** A header whose mandatory keys include lat, lon and time resolves to a
      well-formed schema. */
  lemma ResolvedSchemaWellFormed(header: seq<string>, timeFormat: string)
    requires Latitude in IndexMap(header, true) && Longitude in IndexMap(header, true) && Time in IndexMap(header, true)
    ensures WellFormed(Schema(IndexMap(header, true), IndexMap(header, false), ProcessorsOf(header, timeFormat)))
  {
    IndexMapSpec(header, true);
    AnnotationProcessors(header, timeFormat);
    ClassifyNames();
    MandatoryProcessor(header, timeFormat, Time);
    MandatoryProcessor(header, timeFormat, Latitude);
    MandatoryProcessor(header, timeFormat, Longitude);
    if UserId in IndexMap(header, true) {
      MandatoryProcessor(header, timeFormat, UserId);
    }
  }

  /** The first empty header cell, or the header's length when there is none. */
  function FirstEmpty(header: seq<string>): (j: nat)
    ensures j <= |header|
    ensures j < |header| ==> header[j] == ""
    ensures forall i :: 0 <= i < j ==> header[i] != ""
  {
    if |header| == 0 || header[0] == "" then 0
    else
      var j := 1 + FirstEmpty(header[1..]);
      assert forall i :: 0 < i < j ==> header[i] == header[1..][i - 1];
      j
  }

  /** Schema resolution for one header, as the importer does it: an empty header
      cell (null once read) ends it at the first case-insensitive test on that cell;
      otherwise classify, fill the maps, then reject the header unless the exact
      keys lat, lon, time are present. */
  function SchemaOf(header: seq<string>, timeFormat: string): (r: Result<Schema, ImportError>)
    ensures r.Success? ==> WellFormed(r.value)
  {
    var j := FirstEmpty(header);
    if j < |header| then Failure(NullHeaderCell(j))
    else
      var s := Schema(IndexMap(header, true), IndexMap(header, false), ProcessorsOf(header, timeFormat));
      match CheckHeader(s.mandatoryIdx.Keys)
      case Some(e) => Failure(e)
      case None =>
        ResolvedSchemaWellFormed(header, timeFormat);
        Success(s)
  }

  /** A header is accepted exactly when no cell is empty and it spells lat, lon and
      time in lower case; an accepted header yields a well-formed schema with one
      processor per column; a header with an empty cell fails at its first one. */
  lemma SchemaOfSpec(header: seq<string>, timeFormat: string)
    ensures SchemaOf(header, timeFormat).Success? <==>
      "" !in header && Latitude in header && Longitude in header && Time in header
    ensures "" in header ==> SchemaOf(header, timeFormat) == Failure(NullHeaderCell(FirstEmpty(header)))
    ensures SchemaOf(header, timeFormat).Success? ==>
      var s := SchemaOf(header, timeFormat).value;
      && WellFormed(s)
      && |s.processors| == |header|
      && forall i :: 0 <= i < |header| ==> s.processors[i] == ProcessorFor(Classify(header[i]), timeFormat)
  {
    IndexMapSpec(header, true);
    ClassifyNames();
  }

  /** The mandatory keys of the header LAT, lon, time: lon and time, but not lat. */
  lemma UpperCaseLatitudeKeys()
    ensures Classify("LAT") == LatColumn
    ensures var keys := IndexMap(["LAT", Longitude, Time], true).Keys;
      Latitude !in keys && Longitude in keys && Time in keys
  {
    var header := ["LAT", Longitude, Time];
    assert EqualsIgnoreCase("LAT", Latitude);
    assert !EqualsIgnoreCase("LAT", UserId) && !EqualsIgnoreCase("LAT", Time);
    IndexMapSpec(header, true);
    assert Latitude !in header;
    assert header[1] == Longitude && header[2] == Time;
    ClassifyNames();
  }

  /** Classification ignores case, but the key keeps the header's spelling while the
      check looks for lower-case keys: a header spelling LAT is classified as the
      latitude column and still rejected as missing lat. */
  lemma UpperCaseLatitudeRejected(timeFormat: string)
    ensures Classify("LAT") == LatColumn
    ensures SchemaOf(["LAT", Longitude, Time], timeFormat) == Failure(MissingHeaderAttribute(HeaderErrorPrefix + Latitude))
  {
    var header := ["LAT", Longitude, Time];
    assert FirstEmpty(header) == |header| by {
      assert header[0] != "" && header[1] != "" && header[2] != "";
    }
    UpperCaseLatitudeKeys();
    var keys := IndexMap(header, true).Keys;
    assert HeaderError(keys) == "lat,";
    assert "lat,"[..3] == Latitude;
  }

  /** The mandatory keys of the header userid, time, lat, long: all but lon, since
      `long` is an annotation column. */
  lemma LongColumnKeys()
    ensures Classify("long") == AnnotationColumn
    ensures var keys := IndexMap([UserId, Time, Latitude, "long"], true).Keys;
      Latitude in keys && Longitude !in keys && Time in keys
  {
    var header := [UserId, Time, Latitude, "long"];
    assert header[1] == Time && header[2] == Latitude;
    assert Longitude !in header by {
      assert header[2][2] != Longitude[2];
      assert forall i :: 0 <= i < |header| && i != 2 ==> |header[i]| != |Longitude|;
    }
    DifferIgnoringCaseAt("long", Time, 0);
    ClassifyNames();
    IndexMapSpec(header, true);
  }

  /** A header spelling the longitude column `long`, as in the format
      `userid,time,lat,long` of the class comment, is rejected as missing lon: only
      `lon` names the longitude column. */
  lemma LongColumnRejected(timeFormat: string)
    ensures Classify("long") == AnnotationColumn
    ensures SchemaOf([UserId, Time, Latitude, "long"], timeFormat) == Failure(MissingHeaderAttribute(HeaderErrorPrefix + Longitude))
  {
    var header := [UserId, Time, Latitude, "long"];
    assert FirstEmpty(header) == |header| by {
      assert header[0] != "" && header[1] != "" && header[2] != "" && header[3] != "";
    }
    LongColumnKeys();
    var keys := IndexMap(header, true).Keys;
    assert HeaderError(keys) == "lon,";
    assert "lon,"[..3] == Longitude;
  }
}
