/** A worksheet as the core receives it: rows of cells, every cell already text
    (an empty cell is the empty string).  The user-interface side overwrites header
    cells in place, so the rows are a field. */
module Workbook {

  type Row = seq<string>

  class Worksheet {
    var rows: seq<Row>

    constructor (rows: seq<Row>)
      ensures this.rows == rows
    {
      this.rows := rows;
    }
  }
}
