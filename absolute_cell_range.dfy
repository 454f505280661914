/**
 * Rectangular ranges of cells on one sheet, given by their top-left and
 * bottom-right absolute addresses.  The geometry is a datatype with member
 * functions; the two operations that move a range in place live in the class
 * ShiftableRange at the end of the module.
 */
module AbsoluteCellRanges {
  import opened Results
  import opened Cell

  const DIFFERENT_SHEETS_ERROR: string := "AbsoluteCellRange: Start and end are in different sheets"
  const INDEX_OUT_OF_BOUND: string := "Index out of bound"

  /** Row-major order on addresses: an earlier row first, then an earlier column. */
  predicate RowMajorBefore(a: SimpleCellAddress, b: SimpleCellAddress) {
    a.row < b.row || (a.row == b.row && a.col < b.col)
  }

  function Max(x: int, y: int): int { if x < y then y else x }

  datatype AbsoluteCellRange = AbsoluteCellRange(start: SimpleCellAddress, end: SimpleCellAddress) {

    /** What the constructor guarantees of every range it builds. */
    predicate SameSheet() { start.sheet == end.sheet }

    /** start is the top-left corner and end the bottom-right one. */
    predicate WellFormed() { start.col <= end.col && start.row <= end.row }

    /** The sheet of a range is the sheet of its start corner. */
    function Sheet(): int { start.sheet }

    function Width(): (w: int)
      ensures w >= 1 <==> start.col <= end.col
    {
      end.col - start.col + 1
    }

    function Height(): (h: int)
      ensures h >= 1 <==> start.row <= end.row
    {
      end.row - start.row + 1
    }

    function Size(): (s: int)
      ensures WellFormed() ==> s >= 1 && s >= Width() && s >= Height()
    {
      Height() * Width()
    }

    /** Both ranges are on one sheet and their row and column intervals intersect. */
    predicate DoesOverlap(other: AbsoluteCellRange) {
      if start.sheet != other.start.sheet then false
      else if end.row < other.start.row || start.row > other.end.row then false
      else if end.col < other.start.col || start.col > other.end.col then false
      else true
    }

    predicate AddressInRange(address: SimpleCellAddress) {
      && Sheet() == address.sheet
      && start.row <= address.row && end.row >= address.row
      && start.col <= address.col && end.col >= address.col
    }

    /** The range with a new start corner; fails as the constructor does. */
    function WithStart(newStart: SimpleCellAddress): (r: Result<AbsoluteCellRange, string>)
      ensures r.Failure? <==> newStart.sheet != end.sheet
      ensures r.Failure? ==> r.error == DIFFERENT_SHEETS_ERROR
      ensures r.Success? ==> r.value.start == newStart && r.value.end == end
    {
      NewAbsoluteCellRange(newStart, end)
    }

    /** The range with a new end corner; fails as the constructor does. */
    function WithEnd(newEnd: SimpleCellAddress): (r: Result<AbsoluteCellRange, string>)
      ensures r.Failure? <==> start.sheet != newEnd.sheet
      ensures r.Failure? ==> r.error == DIFFERENT_SHEETS_ERROR
      ensures r.Success? ==> r.value.start == start && r.value.end == newEnd
    {
      NewAbsoluteCellRange(start, newEnd)
    }

    predicate SameDimensionsAs(other: AbsoluteCellRange)
      ensures SameDimensionsAs(other) ==> SameSizeAs(other)
    {
      Width() == other.Width() && Height() == other.Height()
    }

    predicate SameSizeAs(other: AbsoluteCellRange) {
      Width() * Height() == other.Width() * other.Height()
    }

    /** The address at column offset col and row offset row inside the range. */
    function GetAddress(col: int, row: int): (r: Result<SimpleCellAddress, string>)
      ensures r.Failure? <==> !(0 <= col < Width() && 0 <= row < Height())
      ensures r.Failure? ==> r.error == INDEX_OUT_OF_BOUND
      ensures r.Success? ==> AddressInRange(r.value)
      ensures r.Success? ==> r.value.col - start.col == col && r.value.row - start.row == row
    {
      if col < 0 || row < 0 || row > Height() - 1 || col > Width() - 1 then
        Failure(INDEX_OUT_OF_BOUND)
      else
        Success(SimpleCellAddress(start.sheet, start.col + col, start.row + row))
    }

    /** The range after shiftByRows(n): both corners move down by n rows. */
    function ShiftedByRows(n: int): (r: AbsoluteCellRange)
      ensures r.Sheet() == Sheet() && r.SameSheet() == SameSheet()
      ensures r.Width() == Width() && r.Height() == Height()
      ensures r.start.col == start.col && r.end.col == end.col
      ensures r.start.row == start.row + n && r.end.row == end.row + n
    {
      AbsoluteCellRange(start.(row := start.row + n), end.(row := end.row + n))
    }

    /** The range after expandByRows(n): only the end row moves, by n rows. */
    function ExpandedByRows(n: int): (r: AbsoluteCellRange)
      ensures r.start == start && r.Sheet() == Sheet() && r.SameSheet() == SameSheet()
      ensures r.Width() == Width() && r.Height() == Height() + n
    {
      AbsoluteCellRange(start, end.(row := end.row + n))
    }
  }

  /** The constructor: it refuses corners on different sheets. */
  function NewAbsoluteCellRange(start: SimpleCellAddress, end: SimpleCellAddress): (r: Result<AbsoluteCellRange, string>)
    ensures r.Failure? <==> start.sheet != end.sheet
    ensures r.Failure? ==> r.error == DIFFERENT_SHEETS_ERROR
    ensures r.Success? ==> r.value.start == start && r.value.end == end
    ensures r.Success? ==> r.value.Sheet() == start.sheet == end.sheet
  {
    if start.sheet != end.sheet then Failure(DIFFERENT_SHEETS_ERROR)
    else Success(AbsoluteCellRange(start, end))
  }

  /** The range of the given width and height whose top-left corner is topLeftCorner. */
  function SpanFrom(topLeftCorner: SimpleCellAddress, width: int, height: int): (r: AbsoluteCellRange)
    ensures r.SameSheet() && r.Sheet() == topLeftCorner.sheet
    ensures r.start == topLeftCorner && r.Width() == width && r.Height() == height
  {
    AbsoluteCellRange(
      topLeftCorner,
      SimpleCellAddress(topLeftCorner.sheet, topLeftCorner.col + width - 1, topLeftCorner.row + height - 1))
  }

  /** The range on sheet with columns x1..x2 and rows y1..y2. */
  function FromCoordinates(sheet: int, x1: int, y1: int, x2: int, y2: int): (r: AbsoluteCellRange)
    ensures r.SameSheet() && r.Sheet() == sheet
    ensures forall a :: r.AddressInRange(a) <==> a.sheet == sheet && x1 <= a.col <= x2 && y1 <= a.row <= y2
  {
    AbsoluteCellRange(SimpleCellAddress(sheet, x1, y1), SimpleCellAddress(sheet, x2, y2))
  }

  /** Two well-formed ranges overlap exactly when some address lies in both; overlap is symmetric. */
  lemma {:induction false} OverlapMeansCommonCell(a: AbsoluteCellRange, b: AbsoluteCellRange)
    ensures a.DoesOverlap(b) == b.DoesOverlap(a)
    ensures a.WellFormed() && b.WellFormed() ==>
      (a.DoesOverlap(b) <==> exists x :: a.AddressInRange(x) && b.AddressInRange(x))
    ensures a.Sheet() != b.Sheet() ==> !a.DoesOverlap(b)
  {
    if a.WellFormed() && b.WellFormed() && a.DoesOverlap(b) {
      var x := SimpleCellAddress(a.start.sheet, Max(a.start.col, b.start.col), Max(a.start.row, b.start.row));
      assert a.AddressInRange(x) && b.AddressInRange(x);
    }
  }

  /** A well-formed range holds both of its corners. */
  lemma CornersInRange(r: AbsoluteCellRange)
    requires r.WellFormed()
    ensures r.AddressInRange(r.start)
    ensures r.SameSheet() ==> r.AddressInRange(r.end)
  {
  }

  // ---------------------------------------------------------------------------
  // The cells of a range, in the order the generator yields them.

  /** The cells of one row, from column col to lastCol. */
  function RowCells(sheet: int, row: int, col: int, lastCol: int): seq<SimpleCellAddress>
    decreases lastCol - col
  {
    if col > lastCol then [] else [SimpleCellAddress(sheet, col, row)] + RowCells(sheet, row, col + 1, lastCol)
  }

  /** The cells of r on rows row, row + 1, ..., r.end.row, row after row. */
  function CellsFrom(r: AbsoluteCellRange, row: int): seq<SimpleCellAddress>
    decreases r.end.row - row
  {
    if row > r.end.row then []
    else RowCells(r.start.sheet, row, r.start.col, r.end.col) + CellsFrom(r, row + 1)
  }

  /** Every cell of r, in row-major order. */
  function Cells(r: AbsoluteCellRange): seq<SimpleCellAddress> {
    CellsFrom(r, r.start.row)
  }

  /**
   * The generator: the nested loops over rows and columns of
   * generateCellsFromRangeGenerator, collecting what it yields.
   */
  method GenerateCells(r: AbsoluteCellRange) returns (cells: seq<SimpleCellAddress>)
    ensures cells == Cells(r)
  {
    cells := [];
    var currentRow := r.start.row;
    while currentRow <= r.end.row
      invariant cells + CellsFrom(r, currentRow) == Cells(r)
      decreases r.end.row - currentRow
    {
      var currentColumn := r.start.col;
      NextRow(r, currentRow, cells);
      while currentColumn <= r.end.col
        invariant cells + RowCells(r.start.sheet, currentRow, currentColumn, r.end.col)
                        + CellsFrom(r, currentRow + 1) == Cells(r)
        decreases r.end.col - currentColumn
      {
        NextColumn(r, currentRow, currentColumn, cells);
        cells := cells + [SimpleCellAddress(r.start.sheet, currentColumn, currentRow)];
        currentColumn := currentColumn + 1;
      }
      RowDone(r, currentRow, currentColumn, cells);
      currentRow := currentRow + 1;
    }
    AllRowsDone(r, currentRow, cells);
  }

  /** Entering a row: its cells come next, then the rows below it. */
  lemma NextRow(r: AbsoluteCellRange, row: int, cells: seq<SimpleCellAddress>)
    requires row <= r.end.row
    requires cells + CellsFrom(r, row) == Cells(r)
    ensures cells + RowCells(r.start.sheet, row, r.start.col, r.end.col) + CellsFrom(r, row + 1) == Cells(r)
  {
  }

  /** Yielding the cell at column col moves it from what is left to what was yielded. */
  lemma NextColumn(r: AbsoluteCellRange, row: int, col: int, cells: seq<SimpleCellAddress>)
    requires col <= r.end.col
    requires cells + RowCells(r.start.sheet, row, col, r.end.col) + CellsFrom(r, row + 1) == Cells(r)
    ensures (cells + [SimpleCellAddress(r.start.sheet, col, row)])
      + RowCells(r.start.sheet, row, col + 1, r.end.col) + CellsFrom(r, row + 1) == Cells(r)
  {
    var cell := SimpleCellAddress(r.start.sheet, col, row);
    var line := RowCells(r.start.sheet, row, col + 1, r.end.col);
    assert RowCells(r.start.sheet, row, col, r.end.col) == [cell] + line;
    assert cells + ([cell] + line) == (cells + [cell]) + line;
  }

  /** Past the last column nothing of the row is left. */
  lemma RowDone(r: AbsoluteCellRange, row: int, col: int, cells: seq<SimpleCellAddress>)
    requires col > r.end.col
    requires cells + RowCells(r.start.sheet, row, col, r.end.col) + CellsFrom(r, row + 1) == Cells(r)
    ensures cells + CellsFrom(r, row + 1) == Cells(r)
  {
    assert cells + RowCells(r.start.sheet, row, col, r.end.col) == cells;
  }

  /** Past the last row nothing is left. */
  lemma AllRowsDone(r: AbsoluteCellRange, row: int, cells: seq<SimpleCellAddress>)
    requires row > r.end.row
    requires cells + CellsFrom(r, row) == Cells(r)
    ensures cells == Cells(r)
  {
    assert cells + CellsFrom(r, row) == cells;
  }

  lemma {:induction false} RowCellsAt(sheet: int, row: int, col: int, lastCol: int)
    ensures |RowCells(sheet, row, col, lastCol)| == if col > lastCol then 0 else lastCol - col + 1
    ensures forall k :: 0 <= k < |RowCells(sheet, row, col, lastCol)| ==>
      RowCells(sheet, row, col, lastCol)[k] == SimpleCellAddress(sheet, col + k, row)
    decreases lastCol - col
  {
    if col <= lastCol {
      RowCellsAt(sheet, row, col + 1, lastCol);
    }
  }

  lemma {:induction false} CellsFromLength(r: AbsoluteCellRange, row: int)
    ensures |CellsFrom(r, row)| ==
      if row > r.end.row || r.start.col > r.end.col then 0 else (r.end.row - row + 1) * r.Width()
    decreases r.end.row - row
  {
    if row <= r.end.row {
      CellsFromLength(r, row + 1);
      RowCellsAt(r.start.sheet, row, r.start.col, r.end.col);
      if r.start.col <= r.end.col {
        calc {
          (r.end.row - row + 1) * r.Width();
          (r.end.row - (row + 1) + 1) * r.Width() + r.Width();
        }
      }
    }
  }

  /** The generator yields size() cells when the range is well formed, and none otherwise. */
  lemma CellsCount(r: AbsoluteCellRange)
    ensures |Cells(r)| == if r.WellFormed() then r.Size() else 0
    ensures r.start.row > r.end.row ==> Cells(r) == []
  {
    CellsFromLength(r, r.start.row);
  }

  lemma {:induction false} CellsFromMembership(r: AbsoluteCellRange, row: int, a: SimpleCellAddress)
    requires row >= r.start.row
    ensures a in CellsFrom(r, row) <==> r.AddressInRange(a) && a.row >= row
    decreases r.end.row - row
  {
    if row <= r.end.row {
      CellsFromMembership(r, row + 1, a);
      RowCellsAt(r.start.sheet, row, r.start.col, r.end.col);
      var line := RowCells(r.start.sheet, row, r.start.col, r.end.col);
      assert CellsFrom(r, row) == line + CellsFrom(r, row + 1);
      if a.sheet == r.start.sheet && a.row == row && r.start.col <= a.col <= r.end.col {
        assert line[a.col - r.start.col] == a;
        assert a in line;
      }
      if a in line {
        var k :| 0 <= k < |line| && line[k] == a;
      }
    }
  }

  /** The generator yields exactly the addresses in the range. */
  lemma CellsMembership(r: AbsoluteCellRange, a: SimpleCellAddress)
    ensures a in Cells(r) <==> r.AddressInRange(a)
  {
    CellsFromMembership(r, r.start.row, a);
  }

  lemma {:induction false} CellsFromRowsBelow(r: AbsoluteCellRange, row: int, a: SimpleCellAddress)
    requires a in CellsFrom(r, row)
    ensures a.row >= row
    decreases r.end.row - row
  {
    var line := RowCells(r.start.sheet, row, r.start.col, r.end.col);
    RowCellsAt(r.start.sheet, row, r.start.col, r.end.col);
    assert CellsFrom(r, row) == line + CellsFrom(r, row + 1);
    if a !in line {
      CellsFromRowsBelow(r, row + 1, a);
    }
  }

  lemma {:induction false} CellsFromRowMajor(r: AbsoluteCellRange, row: int)
    ensures forall p, q :: 0 <= p < q < |CellsFrom(r, row)| ==>
      RowMajorBefore(CellsFrom(r, row)[p], CellsFrom(r, row)[q])
    decreases r.end.row - row
  {
    if row <= r.end.row {
      CellsFromRowMajor(r, row + 1);
      RowCellsAt(r.start.sheet, row, r.start.col, r.end.col);
      var line := RowCells(r.start.sheet, row, r.start.col, r.end.col);
      var rest := CellsFrom(r, row + 1);
      var s := CellsFrom(r, row);
      assert s == line + rest;
      forall p, q | 0 <= p < q < |s|
        ensures RowMajorBefore(s[p], s[q])
      {
        if q >= |line| && p < |line| {
          assert rest[q - |line|] in rest;
          CellsFromRowsBelow(r, row + 1, rest[q - |line|]);
        } else if p >= |line| {
          assert s[p] == rest[p - |line|] && s[q] == rest[q - |line|];
        }
      }
    }
  }

  /** The generator yields cells in strictly increasing row-major order, hence no cell twice. */
  lemma CellsRowMajor(r: AbsoluteCellRange)
    ensures forall p, q :: 0 <= p < q < |Cells(r)| ==> RowMajorBefore(Cells(r)[p], Cells(r)[q])
    ensures forall p, q :: 0 <= p < q < |Cells(r)| ==> Cells(r)[p] != Cells(r)[q]
  {
    CellsFromRowMajor(r, r.start.row);
  }

  lemma {:induction false} CellsFromAt(r: AbsoluteCellRange, row: int, i: int, j: int)
    requires 0 <= i && row + i <= r.end.row && 0 <= j < r.Width()
    ensures 0 <= i * r.Width() + j < |CellsFrom(r, row)|
    ensures CellsFrom(r, row)[i * r.Width() + j] == SimpleCellAddress(r.start.sheet, r.start.col + j, row + i)
    decreases i
  {
    var line := RowCells(r.start.sheet, row, r.start.col, r.end.col);
    RowCellsAt(r.start.sheet, row, r.start.col, r.end.col);
    if i > 0 {
      CellsFromAt(r, row + 1, i - 1, j);
      assert i * r.Width() + j == |line| + ((i - 1) * r.Width() + j);
    }
  }

  /** The cell getAddress(col, row) returns is the one the generator yields at position row * width + col. */
  lemma CellsAtGetAddress(r: AbsoluteCellRange, col: int, row: int)
    requires 0 <= col < r.Width() && 0 <= row < r.Height()
    ensures 0 <= row * r.Width() + col < |Cells(r)|
    ensures r.GetAddress(col, row).Success?
    ensures Cells(r)[row * r.Width() + col] == r.GetAddress(col, row).value
  {
    CellsFromAt(r, r.start.row, row, col);
  }

  /** The addresses of s, each moved down by n rows. */
  function ShiftAll(s: seq<SimpleCellAddress>, n: int): (t: seq<SimpleCellAddress>)
    ensures |t| == |s|
  {
    if s == [] then [] else [s[0].(row := s[0].row + n)] + ShiftAll(s[1..], n)
  }

  lemma {:induction false} ShiftAllAppend(s: seq<SimpleCellAddress>, t: seq<SimpleCellAddress>, n: int)
    ensures ShiftAll(s + t, n) == ShiftAll(s, n) + ShiftAll(t, n)
  {
    if s == [] {
      assert s + t == t;
    } else {
      ShiftAllAppend(s[1..], t, n);
      assert (s + t)[1..] == s[1..] + t;
    }
  }

  lemma {:induction false} RowCellsShifted(sheet: int, row: int, col: int, lastCol: int, n: int)
    ensures RowCells(sheet, row + n, col, lastCol) == ShiftAll(RowCells(sheet, row, col, lastCol), n)
    decreases lastCol - col
  {
    if col <= lastCol {
      RowCellsShifted(sheet, row, col + 1, lastCol, n);
    }
  }

  lemma {:induction false} CellsFromShifted(r: AbsoluteCellRange, row: int, n: int)
    ensures CellsFrom(r.ShiftedByRows(n), row + n) == ShiftAll(CellsFrom(r, row), n)
    decreases r.end.row - row
  {
    var shifted := r.ShiftedByRows(n);
    if row <= r.end.row {
      var line := RowCells(r.start.sheet, row, r.start.col, r.end.col);
      calc {
        CellsFrom(shifted, row + n);
        RowCells(r.start.sheet, row + n, r.start.col, r.end.col) + CellsFrom(shifted, row + 1 + n);
        { RowCellsShifted(r.start.sheet, row, r.start.col, r.end.col, n);
          CellsFromShifted(r, row + 1, n); }
        ShiftAll(line, n) + ShiftAll(CellsFrom(r, row + 1), n);
        { ShiftAllAppend(line, CellsFrom(r, row + 1), n); }
        ShiftAll(line + CellsFrom(r, row + 1), n);
        ShiftAll(CellsFrom(r, row), n);
      }
    } else {
      assert CellsFrom(shifted, row + n) == [];
    }
  }

  /** After shiftByRows(n) the range yields the same cells, each n rows lower, in the same order. */
  lemma CellsShifted(r: AbsoluteCellRange, n: int)
    ensures Cells(r.ShiftedByRows(n)) == ShiftAll(Cells(r), n)
  {
    CellsFromShifted(r, r.start.row, n);
  }

  /** The rows from row downwards depend only on the sheet, the columns and the last row. */
  lemma {:induction false} CellsFromSameShape(r1: AbsoluteCellRange, r2: AbsoluteCellRange, row: int)
    requires r1.start.sheet == r2.start.sheet && r1.start.col == r2.start.col
    requires r1.end.col == r2.end.col && r1.end.row == r2.end.row
    ensures CellsFrom(r1, row) == CellsFrom(r2, row)
    decreases r1.end.row - row
  {
    if row <= r1.end.row {
      CellsFromSameShape(r1, r2, row + 1);
    }
  }

  /**
   * Cutting r above row mid: its rows from row downwards are those of the
   * upper part followed by those of the lower part.
   */
  lemma {:induction false} CellsSplitByRows(r: AbsoluteCellRange, mid: int, row: int)
    requires row <= mid <= r.end.row + 1
    ensures CellsFrom(r, row) ==
      CellsFrom(r.(end := r.end.(row := mid - 1)), row) + CellsFrom(r.(start := r.start.(row := mid)), mid)
    decreases mid - row
  {
    var top := r.(end := r.end.(row := mid - 1));
    var bottom := r.(start := r.start.(row := mid));
    if row == mid {
      CellsFromSameShape(r, bottom, mid);
      assert CellsFrom(top, row) == [];
    } else {
      CellsSplitByRows(r, mid, row + 1);
    }
  }


  /**
   * A range whose corners are updated in place, as shiftByRows and
   * expandByRows do to the start and end addresses of a range object.
   */
  class ShiftableRange {
    var start: SimpleCellAddress
    var end: SimpleCellAddress

    function Value(): AbsoluteCellRange
      reads this
    {
      AbsoluteCellRange(start, end)
    }

    constructor (range: AbsoluteCellRange)
      requires range.SameSheet()
      ensures Value() == range
    {
      start := range.start;
      end := range.end;
    }

    method ShiftByRows(numberOfRows: int)
      modifies this
      ensures Value() == old(Value()).ShiftedByRows(numberOfRows)
    {
      start := start.(row := start.row + numberOfRows);
      end := end.(row := end.row + numberOfRows);
    }

    method ExpandByRows(numberOfRows: int)
      modifies this
      ensures Value() == old(Value()).ExpandedByRows(numberOfRows)
    {
      end := end.(row := end.row + numberOfRows);
    }
  }
}
