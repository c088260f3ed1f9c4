/** Grid geometry shared by the world and its actors: the terrain extent, the
    anchor range of 4x4 objects, facing directions and Euclidean distance tests.

    Every distance test of the game compares sqrt(dx*dx + dy*dy) of integer
    coordinates with a non-negative integer radius (3.0, 4.0, 6.0, 12.0 or M).
    For such values sqrt(d) <= r holds exactly when d <= r*r, so the model
    compares squared integers and never uses floating point. */
module Geometry {

  /** The terrain array covers columns 0..63 and rows 0..59. */
  const TerrainWidth: int := 64
  const TerrainHeight: int := 60

  /** Objects are 4x4 sprites anchored at their lower-left cell; anchors range
      over 0..60 in both axes (the screen is 64x64). */
  const MaxAnchor: int := 60
  const Footprint: int := 4

  /** The fixed cell where protesters enter and leave the field. */
  const ExitX: int := 60
  const ExitY: int := 60

  datatype Dir = Up | Down | Left | Right

  predicate InTerrain(x: int, y: int) {
    0 <= x < TerrainWidth && 0 <= y < TerrainHeight
  }

  predicate InAnchorRange(x: int, y: int) {
    0 <= x <= MaxAnchor && 0 <= y <= MaxAnchor
  }

  /** Column change of one step in direction d (right is +x). */
  function DeltaX(d: Dir): int {
    match d
    case Left => -1
    case Right => 1
    case _ => 0
  }

  /** Row change of one step in direction d (up is +y). */
  function DeltaY(d: Dir): int {
    match d
    case Up => 1
    case Down => -1
    case _ => 0
  }

  /** Squared Euclidean distance between two cells. */
  function Dist2(x1: int, y1: int, x2: int, y2: int): (r: int)
    ensures r >= 0
    ensures r == 0 <==> x1 == x2 && y1 == y2
  {
    var dx, dy := x1 - x2, y1 - y2;
    Square(dx) + Square(dy)
  }

  function Square(a: int): (r: int)
    ensures r >= 0 && (r == 0 <==> a == 0) && r >= a && r >= -a
  {
    if a >= 0 then SquareNonNeg(a); a * a else SquareNonNeg(-a); (-a) * (-a)
  }

  lemma SquareNonNeg(a: int)
    requires a >= 0
    ensures a * a >= a && (a * a == 0 <==> a == 0)
  {
    if a > 0 {
      assert a * a == a * (a - 1) + a;
      assert a * (a - 1) >= 0;
    }
  }

  /** Moving a non-zero offset one step toward zero shrinks its square. */
  lemma SquareTowardZero(a: int)
    requires a != 0
    ensures Square(a - (if a > 0 then 1 else -1)) < Square(a)
  {
    if a > 0 {
      assert (a - 1) * (a - 1) == a * a - 2 * a + 1;
      if a - 1 == 0 {
      } else {
        assert Square(a - 1) == (a - 1) * (a - 1);
      }
    } else {
      assert (-(a + 1)) * (-(a + 1)) == (-a) * (-a) + 2 * a + 1;
    }
  }

  /** sqrt((x1-x2)^2 + (y1-y2)^2) <= radius, for an integer radius >= 0. */
  predicate WithinRadius(x1: int, y1: int, x2: int, y2: int, radius: nat) {
    Dist2(x1, y1, x2, y2) <= radius * radius
  }

  /** Within a radius r, each axis offset is at most r: the squared test never
      reaches beyond the square of side 2r+1 around the centre. */
  lemma {:induction false} WithinRadiusBoxed(x1: int, y1: int, x2: int, y2: int, radius: nat)
    requires WithinRadius(x1, y1, x2, y2, radius)
    ensures -(radius as int) <= x1 - x2 <= radius && -(radius as int) <= y1 - y2 <= radius
  {
    var dx, dy := x1 - x2, y1 - y2;
    AbsBelowSquareRoot(dx, radius, Square(dy));
    AbsBelowSquareRoot(dy, radius, Square(dx));
  }

  lemma AbsBelowSquareRoot(a: int, r: nat, other: int)
    requires other >= 0 && Square(a) + other <= r * r
    ensures -(r as int) <= a <= r
  {
    var m := if a >= 0 then a else -a;
    assert Square(a) == m * m;
    if m > r {
      MulMono(r, m);
    }
  }

  lemma MulMono(r: nat, m: int)
    requires m > r
    ensures m * m > r * r
  {
    assert m * m - r * r == (m - r) * (m + r);
    assert (m - r) * (m + r) > 0;
  }
}
