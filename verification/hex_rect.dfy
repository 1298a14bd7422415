/** The rectangular revision of the hexagon field (static/ts/hexGrid.ts):
    the `q + 100 r` cell number, the row-major enumeration of the drawn grid,
    the checkerboard fill and the odd-column shift. */
module HexRect {
  import opened Common

  const Cyan: string := "#61dafb"
  const Dark: string := "#333"

  /** The width and height the constructor, resize and drag redraws pass. */
  const DrawnWidth: nat := 8
  const DrawnHeight: nat := 8

  /** The number shown in cell (q, r). */
  function HexNumber(q: int, r: int): int
  {
    q + r * 100
  }

  /** The number is injective as long as the columns compared lie within a
      window of fewer than 100 consecutive values. */
  lemma HexNumberInjective(lo: int, q1: int, r1: int, q2: int, r2: int)
    requires lo <= q1 < lo + 100 && lo <= q2 < lo + 100
    ensures HexNumber(q1, r1) == HexNumber(q2, r2) <==> q1 == q2 && r1 == r2
  {
  }

  /** In particular every drawn cell (|q|, |r| <= 8) gets its own number. */
  lemma DrawnCellsNumberedUniquely(q1: int, r1: int, q2: int, r2: int)
    requires Abs(q1) <= DrawnWidth && Abs(q2) <= DrawnWidth
    ensures HexNumber(q1, r1) == HexNumber(q2, r2) <==> q1 == q2 && r1 == r2
  {
    HexNumberInjective(-(DrawnWidth as int), q1, r1, q2, r2);
  }

  /** Outside such a window two cells can share a number. */
  lemma HexNumberWideCollision()
    ensures HexNumber(100, 0) == HexNumber(0, 1)
  {
  }

  /** The grid, the hover and the redraw all shift a column half a row down
      when `col % 2` is non-zero; for a negative odd column that value is `-1`,
      which is truthy, so all three treat exactly the odd columns alike. */
  predicate OddColumn(col: int)
  {
    JsRem(col, 2) != 0
  }

  lemma OddColumnIsOdd(col: int)
    ensures OddColumn(col) <==> col % 2 == 1
  {
    JsRemTwo(col);
  }

  /** The grid fill: cyan when `(row + col) % 2 === 0`, dark otherwise. */
  function GridFill(row: int, col: int): (fill: string)
    ensures fill == Cyan <==> (row + col) % 2 == 0
    ensures fill == Dark <==> (row + col) % 2 == 1
  {
    JsRemTwo(row + col);
    var fillStyle := Dark;
    if JsRem(row + col, 2) == 0 then Cyan else fillStyle
  }

  /** The fill the redraw of a previously hovered cell uses. */
  function RestoreFill(row: int, col: int): (fill: string)
    ensures fill == Dark <==> (row + col) % 2 == 0
  {
    JsRemTwo(row + col);
    if JsRem(row + col, 2) == 0 then Dark else Cyan
  }

  /** The restore colour is always the opposite of the grid colour, so a cell
      the cursor leaves does not get its grid colour back. */
  lemma RestoreFillInvertsGrid(row: int, col: int)
    ensures RestoreFill(row, col) != GridFill(row, col)
    ensures RestoreFill(row, col) == Cyan || RestoreFill(row, col) == Dark
  {
  }

  /** The restore colour the grid drawing implies. */
  function CorrectedRestoreFill(row: int, col: int): (fill: string)
    ensures fill == GridFill(row, col)
    ensures fill == Cyan <==> (row + col) % 2 == 0
  {
    JsRemTwo(row + col);
    if JsRem(row + col, 2) == 0 then Cyan else Dark
  }

  /** One hexagon emitted by the grid drawing. */
  datatype GridCell = GridCell(row: int, col: int, fill: string, shifted: bool)

  /** How cell (row, col) is drawn by the grid. */
  function DrawnCell(row: int, col: int): GridCell
  {
    GridCell(row, col, GridFill(row, col), OddColumn(col))
  }

  /** Position of (row, col) in the row-major order over
      [-height, height] x [-width, width]. */
  function GridIndex(width: nat, height: nat, row: int, col: int): int
  {
    (row + height) * (2 * width + 1) + (col + width)
  }

  /** Every cell of the rectangle has its own position in [0, count). */
  lemma {:induction false} GridIndexBijective(width: nat, height: nat, row1: int, col1: int, row2: int, col2: int)
    requires -(height as int) <= row1 <= height && -(width as int) <= col1 <= width
    requires -(height as int) <= row2 <= height && -(width as int) <= col2 <= width
    ensures 0 <= GridIndex(width, height, row1, col1) < (2 * width + 1) * (2 * height + 1)
    ensures (GridIndex(width, height, row1, col1) == GridIndex(width, height, row2, col2))
              <==> row1 == row2 && col1 == col2
  {
    var w := 2 * width + 1;
    RowBlockBound(w, row1 + height, 2 * height + 1, col1 + width);
    if row1 < row2 {
      RowBlockBound(w, row1 + height, row2 + height, col1 + width);
    } else if row2 < row1 {
      RowBlockBound(w, row2 + height, row1 + height, col2 + width);
    }
  }

  /** A position inside row block `a` lies before the start of any later block `b`. */
  lemma {:induction false} RowBlockBound(w: nat, a: nat, b: nat, c: nat)
    requires c < w && a < b
    ensures 0 <= a * w + c < b * w
  {
    assert (b - a) * w >= w by {
      assert b - a >= 1;
    }
    assert b * w - a * w == (b - a) * w;
  }

  /** The rectangular grid drawing: visits every (row, col) in
      [-height, height] x [-width, width] once, rows outer and columns inner,
      and draws it with its checkerboard fill and odd-column shift. */
  method DrawHexagonGrid(gridWidth: nat, gridHeight: nat) returns (cells: seq<GridCell>)
    ensures |cells| == (2 * gridWidth + 1) * (2 * gridHeight + 1)
    ensures forall row, col :: -(gridHeight as int) <= row <= gridHeight && -(gridWidth as int) <= col <= gridWidth ==>
              0 <= GridIndex(gridWidth, gridHeight, row, col) < |cells| &&
              cells[GridIndex(gridWidth, gridHeight, row, col)] == DrawnCell(row, col)
  {
    var w := 2 * gridWidth + 1;
    cells := [];
    var row := -(gridHeight as int);
    while row <= gridHeight
      invariant -(gridHeight as int) <= row <= gridHeight + 1
      invariant |cells| == (row + gridHeight) * w
      invariant forall rr, cc :: -(gridHeight as int) <= rr < row && -(gridWidth as int) <= cc <= gridWidth ==>
                  0 <= GridIndex(gridWidth, gridHeight, rr, cc) < |cells| &&
                  cells[GridIndex(gridWidth, gridHeight, rr, cc)] == DrawnCell(rr, cc)
    {
      var before := cells;
      cells := DrawRow(cells, gridWidth, row);
      assert |cells| == (row + 1 + gridHeight) * w;
      forall rr, cc | -(gridHeight as int) <= rr <= row && -(gridWidth as int) <= cc <= gridWidth
        ensures 0 <= GridIndex(gridWidth, gridHeight, rr, cc) < |cells|
        ensures cells[GridIndex(gridWidth, gridHeight, rr, cc)] == DrawnCell(rr, cc)
      {
        if rr < row {
          RowBlockBound(w, rr + gridHeight, row + gridHeight, cc + gridWidth);
        } else {
          assert GridIndex(gridWidth, gridHeight, rr, cc) == |before| + (cc + gridWidth);
        }
      }
      row := row + 1;
    }
  }

  /** One row of the grid: columns -width .. width, left to right. */
  method DrawRow(cells: seq<GridCell>, gridWidth: nat, row: int) returns (out: seq<GridCell>)
    ensures |out| == |cells| + 2 * gridWidth + 1
    ensures out[..|cells|] == cells
    ensures forall cc | -(gridWidth as int) <= cc <= gridWidth :: out[|cells| + (cc + gridWidth)] == DrawnCell(row, cc)
  {
    out := cells;
    var col := -(gridWidth as int);
    while col <= gridWidth
      invariant -(gridWidth as int) <= col <= gridWidth + 1
      invariant |out| == |cells| + (col + gridWidth)
      invariant out[..|cells|] == cells
      invariant forall cc | -(gridWidth as int) <= cc < col :: out[|cells| + (cc + gridWidth)] == DrawnCell(row, cc)
    {
      out := out + [DrawnCell(row, col)];
      col := col + 1;
    }
  }

  /** The constructor's 8 x 8 setting draws 17 * 17 = 289 hexagons. */
  method DrawnGrid() returns (cells: seq<GridCell>)
    ensures |cells| == 289
  {
    cells := DrawHexagonGrid(DrawnWidth, DrawnHeight);
  }
}
