/** Cell addresses and cell-level error values shared by the range and function-plugin models. */
module Cell {

  /** An absolute, resolved address: sheet id, column and row, all plain integers. */
  datatype SimpleCellAddress = SimpleCellAddress(sheet: int, col: int, row: int)

  /** The kinds of error a cell can evaluate to. */
  datatype ErrorType = DIV_BY_ZERO | NA | NAME | NUM | REF | VALUE

  /** The detail message an error may carry; only the one this model produces is named. */
  datatype ErrorMessage = NoMessage | BadCriterion

  /** An error value stored in a cell; an error is a value, not an abort. */
  datatype CellError = CellError(kind: ErrorType, message: ErrorMessage)
}
