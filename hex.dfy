/**
 * Hex-grid geometry shared by every generator stage: cube coordinates,
 * the six neighbour directions, shifting a point one step, and the
 * cube distance.
 *
 * The coordinate classes (TilePoint in one package generation, HexPoint
 * in the other) and the Direction enum are not part of this model's
 * source files; they are defined here by what their call sites need.
 */
module Hex {

  /** A cube coordinate (x, y, z) with x + y + z == 0; z is derived, so the invariant holds by construction. */
  datatype HexPoint = HexPoint(x: int, y: int) {
    function z(): int { -x - y }
  }

  /** The six neighbour directions, in clockwise order starting at north. */
  datatype Direction = North | NorthEast | SouthEast | South | SouthWest | NorthWest

  /** Every direction, in enum order (the iteration order of an EnumMap). */
  const Directions: seq<Direction> := [North, NorthEast, SouthEast, South, SouthWest, NorthWest]

  function Index(d: Direction): (i: nat)
    ensures i < |Directions| && Directions[i] == d
  {
    match d
    case North => 0
    case NorthEast => 1
    case SouthEast => 2
    case South => 3
    case SouthWest => 4
    case NorthWest => 5
  }

  function DeltaX(d: Direction): int {
    match d
    case North => 0
    case NorthEast => 1
    case SouthEast => 1
    case South => 0
    case SouthWest => -1
    case NorthWest => -1
  }

  function DeltaY(d: Direction): int {
    match d
    case North => 1
    case NorthEast => 0
    case SouthEast => -1
    case South => -1
    case SouthWest => 0
    case NorthWest => 1
  }

  /** Direction.shift: the point one step away from p in direction d. */
  function Shift(p: HexPoint, d: Direction): HexPoint {
    HexPoint(p.x + DeltaX(d), p.y + DeltaY(d))
  }

  function Opposite(d: Direction): Direction {
    match d
    case North => South
    case NorthEast => SouthWest
    case SouthEast => NorthWest
    case South => North
    case SouthWest => NorthEast
    case NorthWest => SouthEast
  }

  /** Direction.isAdjacentTo: two directions are next to each other on the compass. */
  predicate DirsAdjacent(a: Direction, b: Direction) {
    (Index(a) - Index(b)) % 6 == 1 || (Index(b) - Index(a)) % 6 == 1
  }

  /** Two points are adjacent when their difference is one of the six unit steps. */
  predicate Adjacent(p: HexPoint, q: HexPoint) {
    (q.x - p.x, q.y - p.y) in {(0, 1), (1, 0), (1, -1), (0, -1), (-1, 0), (-1, 1)}
  }

  function Abs(n: int): nat { if n < 0 then -n else n }

  /** Cube distance between two points. */
  function Distance(a: HexPoint, b: HexPoint): nat {
    (Abs(a.x - b.x) + Abs(a.y - b.y) + Abs(a.z() - b.z())) / 2
  }

  /** The points among s that are one step from p. */
  function NeighboursIn(s: set<HexPoint>, p: HexPoint): (r: set<HexPoint>)
    ensures r <= s
    ensures forall d :: Shift(p, d) in s ==> Shift(p, d) in r
    ensures forall q :: q in r ==> Adjacent(p, q)
  {
    set d | d in Directions && Shift(p, d) in s :: Shift(p, d)
  }

  lemma ShiftInjective(p: HexPoint, d1: Direction, d2: Direction)
    requires Shift(p, d1) == Shift(p, d2)
    ensures d1 == d2
  {
  }

  lemma ShiftOpposite(p: HexPoint, d: Direction)
    ensures Shift(Shift(p, d), Opposite(d)) == p
  {
  }

  lemma ShiftIsUnitStep(p: HexPoint, d: Direction)
    ensures Distance(p, Shift(p, d)) == 1
    ensures Shift(p, d) != p
    ensures Shift(Shift(p, d), d) != p
  {
  }

  /** Two steps in the same direction never end next to the start. */
  lemma DoubleShiftNotAdjacent(p: HexPoint, d: Direction, e: Direction)
    ensures Shift(Shift(p, d), d) != Shift(p, e)
  {
  }

  /** Adjacency is exactly "one shift away". */
  lemma AdjacentIsShift(p: HexPoint, q: HexPoint)
    ensures Adjacent(p, q) <==> exists d :: Shift(p, d) == q
  {
    if Adjacent(p, q) {
      var d := if q.x - p.x == 0 then (if q.y - p.y == 1 then North else South)
               else if q.x - p.x == 1 then (if q.y - p.y == 0 then NorthEast else SouthEast)
               else (if q.y - p.y == 0 then SouthWest else NorthWest);
      assert Shift(p, d) == q;
    }
  }

  lemma AdjacentShift(p: HexPoint, d: Direction)
    ensures Adjacent(p, Shift(p, d)) && Adjacent(Shift(p, d), p)
  {
  }

  /** There are six directions, so a set of directions has at most six members. */
  lemma DirectionSetBounded(s: set<Direction>)
    ensures |s| <= |Directions|
  {
    var all: set<Direction> := {North, NorthEast, SouthEast, South, SouthWest, NorthWest};
    assert s <= all by {
      forall d | d in s
        ensures d in all
      {
        assert d == Directions[Index(d)];
      }
    }
    assert all == s + (all - s);
    assert |all| == 6;
  }

  lemma AdjacentSymmetric(p: HexPoint, q: HexPoint)
    ensures Adjacent(p, q) <==> Adjacent(q, p)
  {
  }
}
