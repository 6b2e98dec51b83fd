/** Every way importing a path can fail. In the importer these are Java exceptions;
    here they are values. */
module ImportErrors {

  datatype ImportError =
      /** The header lacks one of lat, lon, time (exact spelling); the message lists them. */
    | MissingHeaderAttribute(message: string)
      /** A row's column count differs from the number of cell processors. */
    | ColumnCountMismatch(columns: nat, processors: nat)
      /** An empty cell in a column whose processor is NotNull. */
    | NullCell(column: nat)
      /** A time or coordinate cell the date or double parser rejects. */
    | Unparseable(column: nat)
      /** The file has no header line; the header array is null and the user id search dereferences it. */
    | NoHeader
      /** A header cell is empty, so the reader hands it over as null and the first
          equalsIgnoreCase on it dereferences null; `column` is the first such cell. */
    | NullHeaderCell(column: nat)
      /** A userid column exists under another spelling, so the lookup of the exact key "userid" yields null. */
    | NoUserIdIndex
      /** The input path is neither a file nor a directory. */
    | FileNotFound(message: string)
}
