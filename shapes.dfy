/** Tiles as the canvas layer sees them: each carries its shape tag and the grid
    coordinates of its family (`q, r` for `'hex'`, `x, y` for every other shape). */
module Shapes {
  import opened Common
  import opened HexMath
  import opened SquareMath

  /** The `data` of a tile object on the canvas. Only the coordinate pair of its own
      family is read. */
  datatype ShapedTile = ShapedTile(id: TileId, shape: string, q: int, r: int, x: int, y: int)

  /** A cell of either grid. */
  datatype GridCoord = HexCoord(q: int, r: int) | SquareCoord(x: int, y: int)

  /** A shape string selects the hex grid only when it is exactly `'hex'`. */
  predicate IsHexShape(shape: string) {
    shape == "hex"
  }

  /** `t` lives on the hex grid exactly when `hex` holds. */
  predicate SameFamily(t: ShapedTile, hex: bool) {
    IsHexShape(t.shape) == hex
  }

  /** The cell of `t` read through the coordinates of the given family. */
  function CoordOf(t: ShapedTile, hex: bool): (c: GridCoord)
    ensures hex <==> c.HexCoord?
  {
    if hex then HexCoord(t.q, t.r) else SquareCoord(t.x, t.y)
  }

  /** Neighbours on the cell's own grid: 6 for hex, 8 for square. */
  function NeighborCoords(c: GridCoord): (ns: seq<GridCoord>)
    ensures |ns| == (if c.HexCoord? then 6 else 8)
    ensures forall n :: n in ns ==> n.HexCoord? == c.HexCoord?
  {
    match c
    case HexCoord(q, r) =>
      var hs := Neighbors(Axial(q, r));
      seq(6, i requires 0 <= i < 6 => HexCoord(hs[i].q, hs[i].r))
    case SquareCoord(x, y) =>
      var ss := SquareNeighbors(x, y);
      seq(8, i requires 0 <= i < 8 => SquareCoord(ss[i].x, ss[i].y))
  }

  /** The neighbour lists of both grids are symmetric, duplicate-free and never hold the cell itself. */
  lemma NeighborCoordsSymmetric(c: GridCoord, n: GridCoord)
    ensures NoDup(NeighborCoords(c)) && c !in NeighborCoords(c)
    ensures n in NeighborCoords(c) ==> c in NeighborCoords(n)
  {
    var ns := NeighborCoords(c);
    match c
    case HexCoord(q, r) => {
      var a := Axial(q, r);
      NeighborsDistinct(a);
      if n in ns {
        var i :| 0 <= i < 6 && ns[i] == n;
        assert Axial(n.q, n.r) == Neighbors(a)[i];
        NeighborSymmetry(a, Axial(n.q, n.r));
        var j :| 0 <= j < 6 && Neighbors(Axial(n.q, n.r))[j] == a;
        assert NeighborCoords(n)[j] == c;
      }
    }
    case SquareCoord(x, y) => {
      SquareNeighborsDistinct(x, y);
      if n in ns {
        var i :| 0 <= i < 8 && ns[i] == n;
        assert Cell(n.x, n.y) == SquareNeighbors(x, y)[i];
        SquareNeighborSymmetry(Cell(x, y), Cell(n.x, n.y));
        var j :| 0 <= j < 8 && SquareNeighbors(n.x, n.y)[j] == Cell(x, y);
        assert NeighborCoords(n)[j] == c;
      }
    }
  }

  /** On the hex grid the neighbours are exactly the hex cells one step away. */
  lemma HexNeighborCoordsAtDistanceOne(c: GridCoord, n: GridCoord)
    requires c.HexCoord?
    ensures n in NeighborCoords(c) <==> n.HexCoord? && HexDistance(Axial(c.q, c.r), Axial(n.q, n.r)) == 1
  {
    var hs := Neighbors(Axial(c.q, c.r));
    var ns := NeighborCoords(c);
    if n.HexCoord? {
      NeighborsAtDistanceOne(Axial(c.q, c.r), Axial(n.q, n.r));
      if n in ns {
        var i :| 0 <= i < 6 && ns[i] == n;
        assert hs[i] == Axial(n.q, n.r);
      }
      if Axial(n.q, n.r) in hs {
        var i :| 0 <= i < 6 && hs[i] == Axial(n.q, n.r);
        assert ns[i] == n;
      }
    }
  }

  /** Centre of a cell relative to the canvas origin `(0, 0)`. */
  function CoordToPixel(c: GridCoord, s: real): Point
    requires IsSqrt3(s)
  {
    match c
    case HexCoord(q, r) => HexToPixel(q, r, 0.0, 0.0, s)
    case SquareCoord(x, y) => SquareToPixel(x, y, 0.0, 0.0)
  }

  /** The cell of the given family under a pixel, relative to the canvas origin. */
  function PixelToCoord(p: Point, hex: bool, s: real): (c: GridCoord)
    requires IsSqrt3(s)
    ensures hex <==> c.HexCoord?
  {
    if hex then var a := PixelToHex(p, 0.0, 0.0, s); HexCoord(a.q, a.r)
    else var sq := PixelToSquare(p.x, p.y, 0.0, 0.0); SquareCoord(sq.x, sq.y)
  }

  /** Snapping a cell centre gives the cell back, on either grid. */
  lemma CoordRoundTrip(c: GridCoord, s: real)
    requires IsSqrt3(s)
    ensures PixelToCoord(CoordToPixel(c, s), c.HexCoord?, s) == c
  {
    match c
    case HexCoord(q, r) => HexRoundTrip(q, r, 0.0, 0.0, s);
    case SquareCoord(x, y) => SquareRoundTrip(x, y, 0.0, 0.0);
  }
}
