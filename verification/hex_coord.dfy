/**
 * Axial hex-grid coordinates: the six-neighbour list and the projection
 * to and from the doubled-offset ("square") grid used for display.
 */
module HexCoords {
  import opened Util

  /** A cell in axial form. `HexCoord::new(x, y)` is the datatype constructor. */
  datatype HexCoord = HexCoord(x: int, y: int)

  const Origin := HexCoord(0, 0)

  /** `a / 2` rounded toward zero, as the machine `/` does on signed integers. */
  function HalfTowardZero(a: int): (q: int)
    ensures 2 * q == a || (a > 0 && 2 * q == a - 1) || (a < 0 && 2 * q == a + 1)
  {
    if a >= 0 then a / 2 else -((-a) / 2)
  }

  /** `a % 2` with the sign of the dividend, as the machine `%` does on signed integers. */
  function RemTowardZero(a: int): (r: int)
    ensures -1 <= r <= 1 && (r > 0 ==> a > 0) && (r < 0 ==> a < 0)
    ensures r == 0 <==> a % 2 == 0
  {
    a - 2 * HalfTowardZero(a)
  }

  /** Projection to the doubled-offset grid: column `2x + y`, row `y`. */
  function ToSquare(c: HexCoord): (sq: (int, int))
    ensures sq.1 == c.y
    ensures (sq.0 - sq.1) % 2 == 0
  {
    ((c.x * 2) + c.y, c.y)
  }

  /** Inverse projection; on odd columns the division rounds toward zero. */
  function FromSquare(x: int, y: int): (c: HexCoord)
    ensures c.y == y
    ensures (x - y) % 2 == 0 ==> ToSquare(c) == (x, y)
  {
    HexCoord(HalfTowardZero(x - y), y)
  }

  /** Inverse projection that refuses squares that are not cell centres. */
  function TryFromSquare(x: int, y: int): (r: Option<HexCoord>)
    ensures r.None? <==> (x - y) % 2 != 0
    ensures r.Some? ==> ToSquare(r.value) == (x, y)
  {
    if RemTowardZero(x - y) != 0 then None
    else Some(HexCoord(HalfTowardZero(x - y), y))
  }

  lemma FromSquareRoundTrip(c: HexCoord)
    ensures FromSquare(ToSquare(c).0, ToSquare(c).1) == c
  {
  }

  lemma TryFromSquareRoundTrip(c: HexCoord)
    ensures TryFromSquare(ToSquare(c).0, ToSquare(c).1) == Some(c)
  {
  }

  /** The six neighbours, in the fixed order every consumer indexes by. */
  function Surrounding(c: HexCoord): (s: seq<HexCoord>)
    ensures |s| == 6
  {
    var x, y := c.x, c.y;
    [
      HexCoord(x, y + 1),
      HexCoord(x - 1, y + 1),
      HexCoord(x + 1, y),
      HexCoord(x + 1, y - 1),
      HexCoord(x, y - 1),
      HexCoord(x - 1, y)
    ]
  }

  predicate Adjacent(a: HexCoord, b: HexCoord) {
    b in Surrounding(a)
  }

  /** The direction that leads back: `Surrounding(Surrounding(c)[i])[Opposite(i)] == c`. */
  function Opposite(i: int): (j: int)
    requires 0 <= i < 6
    ensures 0 <= j < 6
  {
    [4, 3, 5, 1, 0, 2][i]
  }

  /** The neighbours are pairwise distinct, and none of them is the centre. */
  lemma SurroundingDistinct(c: HexCoord)
    ensures NoDuplicates(Surrounding(c))
    ensures c !in Surrounding(c)
  {
  }

  lemma OppositeLeadsBack(c: HexCoord, i: int)
    requires 0 <= i < 6
    ensures Surrounding(Surrounding(c)[i])[Opposite(i)] == c
  {
  }

  /** Adjacency is symmetric. */
  lemma AdjacentSymmetric(a: HexCoord, b: HexCoord)
    ensures Adjacent(a, b) <==> Adjacent(b, a)
  {
    if Adjacent(a, b) {
      var i :| 0 <= i < 6 && Surrounding(a)[i] == b;
      OppositeLeadsBack(a, i);
    }
    if Adjacent(b, a) {
      var i :| 0 <= i < 6 && Surrounding(b)[i] == a;
      OppositeLeadsBack(b, i);
    }
  }

}
