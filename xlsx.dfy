/**
 * The part of a workbook (github.com/tealeg/xlsx) that the roster lookup reads:
 * named sheets in order, each a grid of cells whose formatted value either reads
 * as text or fails to read.
 */
module Xlsx {

  /** What reading a cell's formatted value yields. */
  datatype Cell = Text(value: string) | Unreadable

  /**
   * A worksheet: its name and its rows, top to bottom, each holding its cells
   * left to right. The row count is the sheet's MaxRow.
   */
  datatype Sheet = Sheet(name: string, rows: seq<seq<Cell>>)

  /** A workbook's sheets, in the order of File.Sheets. */
  datatype File = File(sheets: seq<Sheet>)

  function MaxRow(sheet: Sheet): nat {
    |sheet.rows|
  }

  /**
   * Reading the cell at (row, col) with Sheet.Cell and then its formatted value.
   * A cell that the row does not store reads as empty text.
   */
  function CellAt(sheet: Sheet, row: nat, col: nat): (c: Cell)
    ensures row < |sheet.rows| && col < |sheet.rows[row]| ==> c == sheet.rows[row][col]
    ensures c.Unreadable? ==> row < MaxRow(sheet) && col < |sheet.rows[row]|
    ensures !(row < |sheet.rows| && col < |sheet.rows[row]|) ==> c == Text("")
  {
    if row < |sheet.rows| && col < |sheet.rows[row]| then sheet.rows[row][col] else Text("")
  }
}
