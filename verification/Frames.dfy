/** Records as they travel from a feed to the destination. */
module Frames {

  /** A cell is missing (null or NaN) or holds a value, kept as its text. */
  datatype Cell = Null | Text(text: string)

  type Fields = map<string, Cell>

  /** One row: the value under each column name. */
  type Row = Fields

  datatype Frame = Frame(columns: seq<string>, rows: seq<Row>)

  function KeyOf(row: Row, key: string): Cell {
    if key in row then row[key] else Null
  }
}
