/** Cartesian grid shared by square and circle tiles: cell <-> pixel transforms,
    the 8-cell (Moore) neighbourhood and Manhattan distance. */
module SquareMath {
  import opened Common

  /** Cell pitch in pixels. */
  const SIZE: int := 120

  datatype Cell = Cell(x: int, y: int)

  /** `squareToPixel`: the centre of cell `(x, y)` relative to `(centerX, centerY)`. */
  function SquareToPixel(x: int, y: int, centerX: real, centerY: real): (p: Point)
    ensures p.x - centerX == (x * SIZE) as real && p.y - centerY == (y * SIZE) as real
  {
    Point(centerX + (x * SIZE) as real, centerY + (y * SIZE) as real)
  }

  /** `pixelToSquare`: scale the offset down by the cell size and round half up. */
  function PixelToSquare(pixelX: real, pixelY: real, centerX: real, centerY: real): Cell {
    Cell(Round((pixelX - centerX) / SIZE as real), Round((pixelY - centerY) / SIZE as real))
  }

  /** Every cell centre maps back to its own cell. */
  lemma SquareRoundTrip(x: int, y: int, centerX: real, centerY: real)
    ensures var p := SquareToPixel(x, y, centerX, centerY);
            PixelToSquare(p.x, p.y, centerX, centerY) == Cell(x, y)
  {
    RoundOfInteger(x);
    RoundOfInteger(y);
  }

  /** One axis of the catchment: an offset `d` from a centre rounds to that centre
      exactly when `-SIZE/2 <= d < SIZE/2` (halves go up). */
  lemma AxisCatchment(n: int, d: real)
    ensures Round((n * SIZE) as real / SIZE as real + d / SIZE as real) == n <==> -60.0 <= d < 60.0
  {
    assert (n * SIZE) as real / SIZE as real == n as real;
  }

  /** The pixels that snap to cell `(x, y)` are exactly the half-open square
      `[-60, 60) x [-60, 60)` around its centre. */
  lemma SquareCatchment(x: int, y: int, centerX: real, centerY: real, dx: real, dy: real)
    ensures var p := SquareToPixel(x, y, centerX, centerY);
            (PixelToSquare(p.x + dx, p.y + dy, centerX, centerY) == Cell(x, y)
             <==> -60.0 <= dx < 60.0 && -60.0 <= dy < 60.0)
  {
    var p := SquareToPixel(x, y, centerX, centerY);
    assert (p.x + dx - centerX) / SIZE as real == (x * SIZE) as real / SIZE as real + dx / SIZE as real;
    assert (p.y + dy - centerY) / SIZE as real == (y * SIZE) as real / SIZE as real + dy / SIZE as real;
    AxisCatchment(x, dx);
    AxisCatchment(y, dy);
  }

  /** `getSquareNeighbors`: four orthogonal then four diagonal cells, in program order. */
  function SquareNeighbors(x: int, y: int): (ns: seq<Cell>)
    ensures |ns| == 8
  {
    [ Cell(x, y - 1), Cell(x, y + 1), Cell(x - 1, y), Cell(x + 1, y),
      Cell(x - 1, y - 1), Cell(x + 1, y - 1), Cell(x - 1, y + 1), Cell(x + 1, y + 1) ]
  }

  /** The same relation, stated independently: another cell at most one step away on each axis. */
  predicate MooreAdjacent(a: Cell, b: Cell) {
    a != b && -1 <= a.x - b.x <= 1 && -1 <= a.y - b.y <= 1
  }

  lemma SquareNeighborsAreMoore(x: int, y: int, n: Cell)
    ensures n in SquareNeighbors(x, y) <==> MooreAdjacent(Cell(x, y), n)
  {
  }

  lemma SquareNeighborsDistinct(x: int, y: int)
    ensures NoDup(SquareNeighbors(x, y))
    ensures Cell(x, y) !in SquareNeighbors(x, y)
  {
  }

  /** The 8-neighbour relation is symmetric. */
  lemma SquareNeighborSymmetry(c: Cell, n: Cell)
    requires n in SquareNeighbors(c.x, c.y)
    ensures c in SquareNeighbors(n.x, n.y)
  {
    SquareNeighborsAreMoore(c.x, c.y, n);
    SquareNeighborsAreMoore(n.x, n.y, c);
  }

  /** `squareDistance`: Manhattan distance. */
  function SquareDistance(x1: int, y1: int, x2: int, y2: int): (d: nat)
    ensures d == 0 <==> x1 == x2 && y1 == y2
  {
    AbsInt(x1 - x2) + AbsInt(y1 - y2)
  }

  lemma SquareDistanceSymmetric(x1: int, y1: int, x2: int, y2: int)
    ensures SquareDistance(x1, y1, x2, y2) == SquareDistance(x2, y2, x1, y1)
  {
  }
}
