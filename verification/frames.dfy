/** The tabular data of the SEO pipeline: a pandas DataFrame as a header
    row and a sequence of records, and the exceptions the pipeline raises. */
module Frames {
  /** A cell: an integer, a string, or a missing value (NaN/None). */
  datatype Value = Num(n: int) | Text(s: string) | Null

  /** One record, keyed by column name. */
  type Row = map<string, Value>

  /** A DataFrame: its column labels in order and its rows in order. */
  datatype Frame = Frame(columns: seq<string>, rows: seq<Row>)

  /** The exceptions of the SEO pipeline that the model keeps apart. */
  datatype Failure = KeyError(key: string) | TypeError

  /** `df[col]` at one row; a record without the column reads as missing. */
  function Cell(row: Row, col: string): Value {
    if col in row then row[col] else Null
  }
}
