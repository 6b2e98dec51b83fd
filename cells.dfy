/** Row decoding: what the CSV list reader finds in a file, the cell processors
    the importer hands to it, and what reading one row with them yields. The date
    and double parsers are library code and enter as function parameters; dates
    and coordinates stay opaque values. */
module Cells {
  import opened Wrappers
  import opened ImportErrors

  /** What the CSV reader finds in a file: the header line (None for an empty
      file) and the data rows, each a list of raw cells ("" for an empty cell). */
  datatype CsvFile = CsvFile(header: Option<seq<string>>, rows: seq<seq<string>>)

  /** A parsed date, as an opaque instant. */
  datatype Instant = Instant(millis: int)

  /** A parsed double, as its opaque IEEE-754 bit pattern. */
  datatype Float64 = Float64(bits: bv64)

  /** The library parsers: a date pattern and a cell to an instant, a cell to a double. */
  datatype Parsers = Parsers(parseDate: (string, string) -> Option<Instant>, parseDouble: string -> Option<Float64>)

  /** One cell processor per column: NotNull, NotNull(ParseDate(format)),
      NotNull(ParseDouble) or Optional. */
  datatype Processor = NotNull | NotNullParseDate(format: string) | NotNullParseDouble | Optional

  /** A processed cell: null, the raw string, a date or a double. */
  datatype Cell = Null | Text(text: string) | Date(instant: Instant) | Number(number: Float64)

  /** The shape of value a processor can produce. */
  predicate Conforms(c: Cell, p: Processor)
  {
    match p
    case NotNull => c.Text? && c.text != ""
    case NotNullParseDate(_) => c.Date?
    case NotNullParseDouble => c.Number?
    case Optional => c.Null? || (c.Text? && c.text != "")
  }

  predicate Conformant(cells: seq<Cell>, processors: seq<Processor>)
  {
    |cells| == |processors| && forall i :: 0 <= i < |cells| ==> Conforms(cells[i], processors[i])
  }

  /** Runs one processor on the raw cell of column `column`; the reader hands an
      empty column over as null. */
  function Process(p: Processor, raw: string, column: nat, parsers: Parsers): (r: Result<Cell, ImportError>)
    ensures r.Success? ==> Conforms(r.value, p)
    ensures r.Success? && r.value.Text? ==> r.value.text == raw
    ensures r.Success? ==> (r.value.Null? <==> raw == "")
    ensures raw == "" && !p.Optional? ==> r == Failure(NullCell(column))
    ensures p.Optional? || p.NotNull? ==> (r.Success? <==> raw != "" || p.Optional?)
    ensures r.Failure? ==> r.error == NullCell(column) || r.error == Unparseable(column)
    ensures p.NotNullParseDate? && raw != "" ==> (r.Success? <==> parsers.parseDate(p.format, raw).Some?)
    ensures p.NotNullParseDate? && r.Success? ==> parsers.parseDate(p.format, raw) == Some(r.value.instant)
    ensures p.NotNullParseDouble? && raw != "" ==> (r.Success? <==> parsers.parseDouble(raw).Some?)
    ensures p.NotNullParseDouble? && r.Success? ==> parsers.parseDouble(raw) == Some(r.value.number)
  {
    match p
    case Optional => if raw == "" then Success(Null) else Success(Text(raw))
    case NotNull => if raw == "" then Failure(NullCell(column)) else Success(Text(raw))
    case NotNullParseDate(format) =>
      if raw == "" then Failure(NullCell(column))
      else (match parsers.parseDate(format, raw)
        case None => Failure(Unparseable(column))
        case Some(t) => Success(Date(t)))
    case NotNullParseDouble =>
      if raw == "" then Failure(NullCell(column))
      else (match parsers.parseDouble(raw)
        case None => Failure(Unparseable(column))
        case Some(d) => Success(Number(d)))
  }

  /** Processes the columns left to right, stopping at the first failing one. */
  function DecodeColumns(processors: seq<Processor>, raw: seq<string>, parsers: Parsers): Result<seq<Cell>, ImportError>
    requires |raw| == |processors|
  {
    if |raw| == 0 then Success([])
    else
      var n := |raw| - 1;
      match DecodeColumns(processors[..n], raw[..n], parsers)
      case Failure(e) => Failure(e)
      case Success(cells) =>
        (match Process(processors[n], raw[n], n, parsers)
         case Failure(e) => Failure(e)
         case Success(c) => Success(cells + [c]))
  }

  /** Column by column: the row decodes exactly when every column does, each cell
      is its column's processed value, and a failure is the failure of the first
      column that fails. */
  lemma DecodeColumnsSpec(processors: seq<Processor>, raw: seq<string>, parsers: Parsers)
    requires |raw| == |processors|
    ensures var r := DecodeColumns(processors, raw, parsers);
      && (r.Success? <==> forall i :: 0 <= i < |raw| ==> Process(processors[i], raw[i], i, parsers).Success?)
      && (r.Success? ==> |r.value| == |raw| && forall i :: 0 <= i < |raw| ==> r.value[i] == Process(processors[i], raw[i], i, parsers).value)
      && (r.Failure? ==> FailsFirstAt(processors, raw, parsers, r.error))
  {
    DecodeColumnsCells(processors, raw, parsers);
    DecodeColumnsFailsFirst(processors, raw, parsers);
  }

  /** The success half of `DecodeColumnsSpec`. */
  lemma {:induction false} DecodeColumnsCells(processors: seq<Processor>, raw: seq<string>, parsers: Parsers)
    requires |raw| == |processors|
    ensures var r := DecodeColumns(processors, raw, parsers);
      && (r.Success? <==> forall i :: 0 <= i < |raw| ==> Process(processors[i], raw[i], i, parsers).Success?)
      && (r.Success? ==> |r.value| == |raw| && forall i :: 0 <= i < |raw| ==> r.value[i] == Process(processors[i], raw[i], i, parsers).value)
  {
    if |raw| > 0 {
      var n := |raw| - 1;
      var ps, rs := processors[..n], raw[..n];
      DecodeColumnsCells(ps, rs, parsers);
      assert forall j :: 0 <= j < n ==> ps[j] == processors[j] && rs[j] == raw[j];
    }
  }

  /** The failure half of `DecodeColumnsSpec`. */
  lemma {:induction false} DecodeColumnsFailsFirst(processors: seq<Processor>, raw: seq<string>, parsers: Parsers)
    requires |raw| == |processors|
    ensures var r := DecodeColumns(processors, raw, parsers);
      r.Failure? ==> FailsFirstAt(processors, raw, parsers, r.error)
  {
    if |raw| > 0 {
      var n := |raw| - 1;
      var ps, rs := processors[..n], raw[..n];
      assert forall j :: 0 <= j < n ==> ps[j] == processors[j] && rs[j] == raw[j];
      var prefix := DecodeColumns(ps, rs, parsers);
      if prefix.Failure? {
        DecodeColumnsFailsFirst(ps, rs, parsers);
        var i :| 0 <= i < n && Process(ps[i], rs[i], i, parsers) == Failure(prefix.error)
          && forall j :: 0 <= j < i ==> Process(ps[j], rs[j], j, parsers).Success?;
        assert Process(processors[i], raw[i], i, parsers) == Failure(prefix.error);
      } else {
        DecodeColumnsCells(ps, rs, parsers);
      }
    }
  }

  /** Column `i` fails with `e`, and every column before it is processed. */
  predicate FailsFirstAt(processors: seq<Processor>, raw: seq<string>, parsers: Parsers, e: ImportError)
    requires |raw| == |processors|
  {
    exists i :: 0 <= i < |raw| && Process(processors[i], raw[i], i, parsers) == Failure(e)
      && forall j :: 0 <= j < i ==> Process(processors[j], raw[j], j, parsers).Success?
  }

  /** Reading one row with the processors: the column count must match, then every
      column is processed. */
  function Decode(processors: seq<Processor>, raw: seq<string>, parsers: Parsers): (r: Result<seq<Cell>, ImportError>)
    ensures |raw| != |processors| ==> r == Failure(ColumnCountMismatch(|raw|, |processors|))
  {
    if |raw| != |processors| then Failure(ColumnCountMismatch(|raw|, |processors|))
    else DecodeColumns(processors, raw, parsers)
  }

  /** A row decodes exactly when it has one cell per processor and every column
      decodes; its cells then have the processors' shapes and are the columns'
      processed values; otherwise the error is the column-count mismatch or the
      failure of the first column that fails. */
  lemma DecodeSpec(processors: seq<Processor>, raw: seq<string>, parsers: Parsers)
    ensures var r := Decode(processors, raw, parsers);
      && (r.Success? <==> |raw| == |processors| && forall i :: 0 <= i < |raw| ==> Process(processors[i], raw[i], i, parsers).Success?)
      && (|raw| != |processors| ==> r == Failure(ColumnCountMismatch(|raw|, |processors|)))
      && (|raw| == |processors| && r.Failure? ==> FailsFirstAt(processors, raw, parsers, r.error))
      && (r.Success? ==> Conformant(r.value, processors))
      && (r.Success? ==> forall i :: 0 <= i < |raw| ==> r.value[i] == Process(processors[i], raw[i], i, parsers).value)
  {
    if |raw| == |processors| {
      DecodeColumnsSpec(processors, raw, parsers);
    }
  }
}
