/** The grid the board is divided into before items are placed
    (src/FourLeafCloverGame.jsx, lines 189–192): a near-square
    arrangement of cells with room for at least one item per cell. */
module Grid {

  /** A grid coordinate, `{ r, c }` in the program. */
  datatype Cell = Cell(row: nat, col: nat)

  /** Rows and columns of the grid and the size of one cell. */
  datatype Shape = Shape(rows: nat, cols: nat, cellW: real, cellH: real)

  /** `Math.ceil(Math.sqrt(x))` in exact arithmetic: the least c with c*c >= x. */
  function CeilSqrt(x: real): (c: nat)
    requires x >= 0.0
    ensures x <= (c * c) as real
    ensures c > 0 ==> ((c - 1) * (c - 1)) as real < x
  {
    SqrtFrom(x, 0)
  }

  /** Searches upward from c, every smaller candidate having been too small. */
  function SqrtFrom(x: real, c: nat): (r: nat)
    requires x >= 0.0
    requires c > 0 ==> ((c - 1) * (c - 1)) as real < x
    ensures x <= (r * r) as real
    ensures r > 0 ==> ((r - 1) * (r - 1)) as real < x
    decreases x.Floor + 1 - c
  {
    if x <= (c * c) as real then c
    else
      assert c <= c * c;
      SqrtFrom(x, c + 1)
  }

  /** `Math.ceil(a / b)` on a positive divisor: the least q with q*b >= a. */
  function CeilDiv(a: nat, b: nat): (q: nat)
    requires b >= 1
    ensures q * b >= a
    ensures q * b < a + b
  {
    var q := (a + b - 1) / b;
    var r := (a + b - 1) % b;
    assert a + b - 1 == q * b + r && 0 <= r < b;
    q
  }

  /** Line 190–191: the grid for an inner area of w by h holding count items.
      The column count follows the area's aspect ratio, the row count is just
      enough for count items, and the cells tile the inner area exactly. */
  function Partition(w: real, h: real, count: nat): (g: Shape)
    requires w > 0.0 && h > 0.0
    requires count >= 1
    ensures g.cols >= 1 && g.rows >= 1
    ensures g.rows * g.cols >= count
    ensures (g.rows - 1) * g.cols < count
    ensures (count as real) * (w / h) <= (g.cols * g.cols) as real
    ensures ((g.cols - 1) * (g.cols - 1)) as real < (count as real) * (w / h)
    ensures g.cellW > 0.0 && g.cellW * (g.cols as real) == w
    ensures g.cellH > 0.0 && g.cellH * (g.rows as real) == h
  {
    var x := (count as real) * (w / h);
    assert x > 0.0;
    var cols := CeilSqrt(x);
    assert cols >= 1;
    var rows := CeilDiv(count, cols);
    assert rows >= 1;
    assert (rows - 1) * cols == rows * cols - cols;
    var cellW := w / (cols as real);
    var cellH := h / (rows as real);
    assert cellW * (cols as real) == w;
    assert cellH * (rows as real) == h;
    Shape(rows, cols, cellW, cellH)
  }

  /** The cell lies inside a rows-by-cols grid. */
  predicate InGrid(c: Cell, rows: nat, cols: nat) {
    c.row < rows && c.col < cols
  }

  /** Row-major order: a comes strictly before b. */
  predicate Before(a: Cell, b: Cell) {
    a.row < b.row || (a.row == b.row && a.col < b.col)
  }

  /** Line 192: lists every cell of the grid, row by row. */
  method EnumerateCells(rows: nat, cols: nat) returns (cells: seq<Cell>)
    ensures |cells| == rows * cols
    ensures forall c :: c in cells <==> InGrid(c, rows, cols)
    ensures forall i, j :: 0 <= i < j < |cells| ==> Before(cells[i], cells[j])
  {
    cells := [];
    var r := 0;
    while r < rows
      invariant 0 <= r <= rows
      invariant |cells| == r * cols
      invariant forall x :: x in cells <==> x.row < r && x.col < cols
      invariant forall i, j :: 0 <= i < j < |cells| ==> Before(cells[i], cells[j])
    {
      var c := 0;
      while c < cols
        invariant 0 <= c <= cols
        invariant |cells| == r * cols + c
        invariant forall x :: x in cells <==> (x.row < r && x.col < cols) || (x.row == r && x.col < c)
        invariant forall i, j :: 0 <= i < j < |cells| ==> Before(cells[i], cells[j])
      {
        cells := cells + [Cell(r, c)];
        c := c + 1;
      }
      assert (r + 1) * cols == r * cols + cols;
      r := r + 1;
    }
  }

  /** Squaring is monotone on naturals. */
  lemma SquareMono(a: nat, b: nat)
    requires a <= b
    ensures a * a <= b * b
  {
    assert a * a <= a * b <= b * b;
  }

  /** The two bounds in CeilSqrt's contract pin its result down: any c meeting
      them is the ceiling of the square root. */
  lemma CeilSqrtUnique(x: real, c: nat)
    requires x >= 0.0
    requires x <= (c * c) as real
    requires c > 0 ==> ((c - 1) * (c - 1)) as real < x
    ensures CeilSqrt(x) == c
  {
    var r := CeilSqrt(x);
    if r < c {
      SquareMono(r, c - 1);
    } else if r > c {
      SquareMono(c, r - 1);
    }
  }

  /** A 268 by 168 inner area holding 10 items: 4 columns of 67 and 3 rows
      of 56, so 12 cells for 10 items. */
  lemma TenItemsExample()
    ensures Partition(268.0, 168.0, 10) == Shape(3, 4, 67.0, 56.0)
  {
    var x := (10 as real) * (268.0 / 168.0);
    assert 9.0 < x <= 16.0;
    CeilSqrtUnique(x, 4);
    assert CeilDiv(10, 4) == 3;
  }
}
