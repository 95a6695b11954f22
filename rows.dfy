/**
 * The cells of a range-test log as the tabular reader hands them over, and
 * the exceptions the pipeline can raise.
 */
module Rows {

  /**
   * One parsed cell: a number, a piece of text, or an empty cell (NaN/None).
   * Which of the three a cell is stands in for the reader's type inference.
   */
  datatype Value = Num(n: real) | Str(s: string) | Missing

  /** One row of a log: the payload text and the seven columns the map uses. */
  datatype Row = Row(
    payload: Value,
    rxLat: Value,
    rxLong: Value,
    rxSnr: Value,
    senderName: Value,
    rxElevation: Value,
    senderLat: Value,
    senderLong: Value)

  /** A row projected onto the seven columns `rx lat` … `sender long`. */
  datatype Point = Point(
    rxLat: Value,
    rxLong: Value,
    rxSnr: Value,
    senderName: Value,
    rxElevation: Value,
    senderLat: Value,
    senderLong: Value)

  /**
   * The exceptions the pipeline raises: a Python `TypeError` from comparing or
   * doing arithmetic on a text cell of the named column, and the `TypeError`
   * from unpacking `None` into `layer, start`.
   */
  datatype Failure = TypeError(column: string) | UnpackNone

  /** Column selection: the row without its payload; every cell is kept as it is. */
  function Project(r: Row): Point
  {
    Point(r.rxLat, r.rxLong, r.rxSnr, r.senderName, r.rxElevation, r.senderLat, r.senderLong)
  }
}
