/** Pointy-top hexagonal grid in axial coordinates `(q, r)`: the six direction vectors,
    neighbour enumeration, the hex <-> pixel transforms and cube rounding.
    `Math.sqrt(3)` is the parameter `s`, constrained by `IsSqrt3`; arithmetic is exact. */
module HexMath {
  import opened Common

  const RADIUS: int := 75
  /** Visual spacing between neighbouring hexagons, in pixels. */
  const GAP: int := 3

  datatype Axial = Axial(q: int, r: int)

  /** Cube coordinates; a valid hex has `x + y + z == 0`. */
  datatype Cube = Cube(x: int, y: int, z: int)

  /** The six axial neighbour offsets, in the order the program lists them. */
  const DIRECTIONS: seq<Axial> :=
    [Axial(1, 0), Axial(1, -1), Axial(0, -1), Axial(-1, 0), Axial(-1, 1), Axial(0, 1)]

  predicate IsSqrt3(s: real) {
    s > 0.0 && s * s == 3.0
  }

  /** Hex radius plus half the gap: the spacing actually used by the transforms. */
  function EffectiveRadius(): (size: real)
    ensures size == 76.5
  {
    RADIUS as real + GAP as real / 2.0
  }

  function Add(c: Axial, d: Axial): Axial {
    Axial(c.q + d.q, c.r + d.r)
  }

  /** `getNeighbors`: the input plus each direction vector, in direction order. */
  function Neighbors(c: Axial): (ns: seq<Axial>)
    ensures |ns| == 6
    ensures forall i :: 0 <= i < 6 ==> ns[i] == Add(c, DIRECTIONS[i])
  {
    seq(6, i requires 0 <= i < 6 => Add(c, DIRECTIONS[i]))
  }

  /** Hex distance between two cells: `(|dq| + |dr| + |dq + dr|) / 2`. */
  function HexDistance(a: Axial, b: Axial): int {
    (AbsInt(a.q - b.q) + AbsInt(a.r - b.r) + AbsInt((a.q - b.q) + (a.r - b.r))) / 2
  }

  lemma NeighborsDistinct(c: Axial)
    ensures forall i, j :: 0 <= i < j < 6 ==> Neighbors(c)[i] != Neighbors(c)[j]
    ensures c !in Neighbors(c)
  {
  }

  lemma DirectionsClosedUnderNegation()
    ensures forall i :: 0 <= i < 6 ==> Axial(-DIRECTIONS[i].q, -DIRECTIONS[i].r) in DIRECTIONS
  {
  }

  /** The neighbour relation is symmetric. */
  lemma NeighborSymmetry(c: Axial, n: Axial)
    requires n in Neighbors(c)
    ensures c in Neighbors(n)
  {
    var i :| 0 <= i < 6 && Neighbors(c)[i] == n;
    var j := (i + 3) % 6;
    assert Neighbors(n)[j] == c;
  }

  /** Independent characterisation: the neighbours are exactly the cells at hex distance 1. */
  lemma NeighborsAtDistanceOne(c: Axial, n: Axial)
    ensures n in Neighbors(c) <==> HexDistance(c, n) == 1
  {
    var dq, dr := n.q - c.q, n.r - c.r;
    if HexDistance(c, n) == 1 {
      assert -1 <= dq <= 1 && -1 <= dr <= 1;
      var i := if dq == 1 && dr == 0 then 0 else if dq == 1 then 1 else if dq == 0 && dr == -1 then 2
        else if dq == -1 && dr == 0 then 3 else if dq == -1 then 4 else 5;
      assert Neighbors(c)[i] == n;
    }
  }

  /** `hexToPixel`: centre of cell `(q, r)` relative to the grid origin `(centerX, centerY)`. */
  function HexToPixel(q: int, r: int, centerX: real, centerY: real, s: real): Point
    requires IsSqrt3(s)
  {
    var size := EffectiveRadius();
    var x := size * (s * q as real + (s / 2.0) * r as real);
    var y := size * (1.5 * r as real);
    Point(x + centerX, y + centerY)
  }

  /** Cube rounding: round each component, then recompute the one that moved furthest
      as minus the sum of the other two. */
  function CubeRound(x: real, y: real, z: real): (c: Cube)
    ensures c.x + c.y + c.z == 0
    ensures (c.x == Round(x) && c.y == Round(y)) || (c.x == Round(x) && c.z == Round(z))
         || (c.y == Round(y) && c.z == Round(z))
    ensures x + y + z == 0.0 ==>
              Abs(c.x as real - x) <= 1.0 && Abs(c.y as real - y) <= 1.0 && Abs(c.z as real - z) <= 1.0
  {
    var rx, ry, rz := Round(x), Round(y), Round(z);
    var xDiff, yDiff, zDiff := Abs(rx as real - x), Abs(ry as real - y), Abs(rz as real - z);
    if xDiff > yDiff && xDiff > zDiff then Cube(-ry - rz, ry, rz)
    else if yDiff > zDiff then Cube(rx, -rx - rz, rz)
    else Cube(rx, ry, -rx - ry)
  }

  /** `axialRound`: cube-round `(q, -q - r, r)` and keep the `x` and `z` components. */
  function AxialRound(q: real, r: real): (a: Axial)
    ensures AbsInt(a.q - Round(q)) <= 1 && AbsInt(a.r - Round(r)) <= 1
  {
    var c := CubeRound(q, -q - r, r);
    Axial(c.x, c.z)
  }

  /** Rounding a point that is already a cell centre gives that cell back. */
  lemma AxialRoundOfIntegers(q: int, r: int)
    ensures AxialRound(q as real, r as real) == Axial(q, r)
  {
    RoundOfInteger(q);
    RoundOfInteger(r);
    RoundOfInteger(-q - r);
    assert (-(q as real) - r as real) == (-q - r) as real;
  }

  /** `pixelToHex`: invert the linear map relative to the origin, then cube-round. */
  function PixelToHex(p: Point, centerX: real, centerY: real, s: real): Axial
    requires IsSqrt3(s)
  {
    var size := EffectiveRadius();
    var relX := p.x - centerX;
    var relY := p.y - centerY;
    var q := ((s / 3.0) * relX - (1.0 / 3.0) * relY) / size;
    var r := ((2.0 / 3.0) * relY) / size;
    AxialRound(q, r)
  }

  /** Every cell centre maps back to its own cell. */
  lemma HexRoundTrip(q: int, r: int, centerX: real, centerY: real, s: real)
    requires IsSqrt3(s)
    ensures PixelToHex(HexToPixel(q, r, centerX, centerY, s), centerX, centerY, s) == Axial(q, r)
  {
    var size := EffectiveRadius();
    var p := HexToPixel(q, r, centerX, centerY, s);
    var qr, rr := q as real, r as real;
    assert p.x - centerX == size * (s * qr + (s / 2.0) * rr);
    assert p.y - centerY == size * (1.5 * rr);
    UnmapCentre(size, s, qr, rr);
    AxialRoundOfIntegers(q, r);
  }

  /** The inverse linear map of `pixelToHex` undoes the map of `hexToPixel`. */
  lemma UnmapCentre(size: real, s: real, qr: real, rr: real)
    requires IsSqrt3(s) && size > 0.0
    ensures var relX, relY := size * (s * qr + (s / 2.0) * rr), size * (1.5 * rr);
            ((s / 3.0) * relX - (1.0 / 3.0) * relY) / size == qr
            && ((2.0 / 3.0) * relY) / size == rr
  {
    var relX, relY := size * (s * qr + (s / 2.0) * rr), size * (1.5 * rr);
    calc {
      (s / 3.0) * relX - (1.0 / 3.0) * relY;
      size * ((s * s) / 3.0 * qr + (s * s) / 6.0 * rr) - size * (0.5 * rr);
      size * (qr + 0.5 * rr) - size * (0.5 * rr);
      size * qr;
    }
  }

  /** All six neighbour centres lie at the same distance, `sqrt(3) * size`, from a cell centre. */
  lemma NeighborCentresEquidistant(c: Axial, i: nat, centerX: real, centerY: real, s: real)
    requires IsSqrt3(s) && i < 6
    ensures var p, n := HexToPixel(c.q, c.r, centerX, centerY, s),
                        HexToPixel(Neighbors(c)[i].q, Neighbors(c)[i].r, centerX, centerY, s);
            (n.x - p.x) * (n.x - p.x) + (n.y - p.y) * (n.y - p.y)
              == 3.0 * EffectiveRadius() * EffectiveRadius()
  {
    var size := EffectiveRadius();
    var d := DIRECTIONS[i];
    var p := HexToPixel(c.q, c.r, centerX, centerY, s);
    var n := HexToPixel(Neighbors(c)[i].q, Neighbors(c)[i].r, centerX, centerY, s);
    var dq, dr := d.q as real, d.r as real;
    assert n.x - p.x == size * s * (dq + dr / 2.0);
    assert n.y - p.y == size * 1.5 * dr;
    assert (dq + dr / 2.0) * (dq + dr / 2.0) + 0.75 * dr * dr == 1.0;
    calc {
      (n.x - p.x) * (n.x - p.x) + (n.y - p.y) * (n.y - p.y);
      size * size * (s * s) * ((dq + dr / 2.0) * (dq + dr / 2.0)) + size * size * 2.25 * dr * dr;
      size * size * 3.0 * ((dq + dr / 2.0) * (dq + dr / 2.0) + 0.75 * dr * dr);
      3.0 * size * size;
    }
  }
}
