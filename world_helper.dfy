/**
 * Grid queries over a set of tile points (terraingen's WorldHelper):
 * neighbour lookup restricted to the world, range search by repeated
 * frontier expansion, the integer correction step of pixel-to-tile
 * rounding, and the (unfinished) clustering entry points.
 */
module WorldHelper {
  import opened Hex
  import opened Errors

  // ---------------------------------------------------------------------
  // Neighbour lookup

  /** The map getAdjacentTiles promises: exactly the directions whose shifted point is in world, each mapped to that point. */
  ghost predicate IsAdjacentMap(world: set<HexPoint>, origin: HexPoint, m: map<Direction, HexPoint>) {
    && (forall d :: d in m <==> Shift(origin, d) in world)
    && (forall d :: d in m ==> m[d] == Shift(origin, d))
  }

  /**
   * getAdjacentTiles: fails with IllegalArgument when origin is not in
   * world; otherwise maps each direction to the shifted point exactly
   * when that point is in world.
   */
  method GetAdjacentTiles(world: set<HexPoint>, origin: HexPoint) returns (r: Result<map<Direction, HexPoint>>)
    ensures r.Err? <==> origin !in world
    ensures r.Err? ==> r.error == IllegalArgument
    ensures r.Ok? ==> IsAdjacentMap(world, origin, r.value)
    ensures r.Ok? ==> r.value.Values == NeighboursIn(world, origin)
  {
    if origin !in world {
      return Err(IllegalArgument);
    }
    var result: map<Direction, HexPoint> := map[];
    for i := 0 to |Directions|
      invariant forall d :: d in result <==> Index(d) < i && Shift(origin, d) in world
      invariant forall d :: d in result ==> result[d] == Shift(origin, d)
    {
      var dir := Directions[i];
      var point := Shift(origin, dir);
      if point in world {
        result := result[dir := point];
      }
    }
    AdjacentMapFacts(world, origin, result);
    return Ok(result);
  }

  /** A neighbour map has at most six entries, all of them world points, and its values are the in-world neighbours. */
  lemma AdjacentMapFacts(world: set<HexPoint>, origin: HexPoint, m: map<Direction, HexPoint>)
    requires IsAdjacentMap(world, origin, m)
    ensures |m| <= 6
    ensures m.Values <= world
    ensures m.Values == NeighboursIn(world, origin)
  {
    DirectionSetBounded(m.Keys);
    forall q | q in NeighboursIn(world, origin)
      ensures q in m.Values
    {
      var d :| d in Directions && Shift(origin, d) in world && Shift(origin, d) == q;
      assert m[d] == q;
    }
  }

  // ---------------------------------------------------------------------
  // Range search

  /** Every world point one step from a point of s. */
  function Expand(world: set<HexPoint>, s: set<HexPoint>): set<HexPoint> {
    set p, d | p in s && d in Directions && Shift(p, d) in world :: Shift(p, d)
  }

  /** The points reached from origin by at most k expansions (the specification of getTilesInRange). */
  function Ball(world: set<HexPoint>, origin: HexPoint, k: nat): set<HexPoint>
    decreases k
  {
    if k == 0 then {origin}
    else
      var inner := Ball(world, origin, k - 1);
      inner + Expand(world, inner)
  }

  /** Ball one expansion earlier, or nothing at k == 0. */
  function Previous(world: set<HexPoint>, origin: HexPoint, k: nat): set<HexPoint> {
    if k == 0 then {} else Ball(world, origin, k - 1)
  }

  /**
   * A path of at most k neighbour steps from p to q through world points:
   * the reachability relation the range search is meant to compute.
   */
  ghost predicate Reach(world: set<HexPoint>, p: HexPoint, q: HexPoint, k: nat)
    decreases k
  {
    p == q || (k > 0 && exists d :: Shift(p, d) in world && Reach(world, Shift(p, d), q, k - 1))
  }

  /**
   * getTilesInRange: fails with IllegalArgument when origin is not in
   * world or range is negative; otherwise returns exactly the points
   * reachable from origin in at most range steps through world points.
   */
  method GetTilesInRange(world: set<HexPoint>, origin: HexPoint, range: int) returns (r: Result<set<HexPoint>>)
    ensures r.Err? <==> origin !in world || range < 0
    ensures r.Err? ==> r.error == IllegalArgument
    ensures r.Ok? ==> r.value == Ball(world, origin, range)
  {
    if origin !in world {
      return Err(IllegalArgument);
    }
    if range < 0 {
      return Err(IllegalArgument);
    }
    var result := {origin};
    var lastAdjacents := {origin};
    for i := 1 to range + 1
      invariant result == Ball(world, origin, i - 1)
      invariant lastAdjacents <= world && lastAdjacents <= result
      invariant forall p :: p in result ==> p in lastAdjacents || p == origin || p in Previous(world, origin, i - 1)
    {
      var adjacents := AdjacentsOfLayer(world, origin, lastAdjacents);
      RangeStep(world, origin, i - 1, lastAdjacents);
      result := result + adjacents;
      lastAdjacents := adjacents;
    }
    return Ok(result);
  }

  /** The body of the range loop: the neighbours of origin together with the neighbours of every point of the last layer. */
  method AdjacentsOfLayer(world: set<HexPoint>, origin: HexPoint, last: set<HexPoint>) returns (adjacents: set<HexPoint>)
    requires origin in world && last <= world
    ensures adjacents == Expand(world, {origin}) + Expand(world, last)
  {
    var fromOrigin := GetAdjacentTiles(world, origin);
    ExpandSingleton(world, origin);
    adjacents := fromOrigin.value.Values;
    var rest := last;
    ghost var done := {};
    while rest != {}
      invariant rest <= last && done == last - rest
      invariant adjacents == Expand(world, {origin}) + Expand(world, done)
    {
      var adjacent :| adjacent in rest;
      var next := GetAdjacentTiles(world, adjacent);
      ExpandAddOne(world, done, adjacent);
      adjacents := adjacents + next.value.Values;
      rest := rest - {adjacent};
      done := done + {adjacent};
    }
  }

  lemma ExpandAddOne(world: set<HexPoint>, s: set<HexPoint>, p: HexPoint)
    ensures Expand(world, s + {p}) == Expand(world, s) + NeighboursIn(world, p)
  {
  }

  lemma ExpandSingleton(world: set<HexPoint>, p: HexPoint)
    ensures Expand(world, {p}) == NeighboursIn(world, p)
  {
  }

  lemma ExpandMonotone(world: set<HexPoint>, a: set<HexPoint>, b: set<HexPoint>)
    requires a <= b
    ensures Expand(world, a) <= Expand(world, b)
  {
  }

  /** One iteration of the range loop turns Ball(k) into Ball(k + 1). */
  lemma RangeStep(world: set<HexPoint>, origin: HexPoint, k: nat, last: set<HexPoint>)
    requires last <= Ball(world, origin, k)
    requires forall p :: p in Ball(world, origin, k) ==> p in last || p == origin || p in Previous(world, origin, k)
    ensures Ball(world, origin, k) + Expand(world, {origin}) + Expand(world, last) == Ball(world, origin, k + 1)
    ensures forall p :: p in Ball(world, origin, k + 1) ==>
              p in Expand(world, {origin}) + Expand(world, last) || p == origin || p in Ball(world, origin, k)
  {
    var b := Ball(world, origin, k);
    OriginInBall(world, origin, k);
    ExpandMonotone(world, {origin}, b);
    ExpandMonotone(world, last, b);
    if k > 0 {
      assert Expand(world, Previous(world, origin, k)) <= b;
    }
    forall q | q in Expand(world, b)
      ensures q in b + Expand(world, {origin}) + Expand(world, last)
    {
      var p, d :| p in b && d in Directions && Shift(p, d) in world && Shift(p, d) == q;
      if p in last {
        assert q in Expand(world, last);
      } else if p == origin {
        assert q in Expand(world, {origin});
      } else {
        assert q in Expand(world, Previous(world, origin, k));
      }
    }
  }

  /** The origin is always in range, and range 0 is just the origin. */
  lemma {:induction false} OriginInBall(world: set<HexPoint>, origin: HexPoint, k: nat)
    ensures origin in Ball(world, origin, k)
    ensures Ball(world, origin, 0) == {origin}
  {
    if k > 0 {
      OriginInBall(world, origin, k - 1);
    }
  }

  /** A larger range never loses points. */
  lemma {:induction false} BallMonotone(world: set<HexPoint>, origin: HexPoint, j: nat, k: nat)
    requires j <= k
    ensures Ball(world, origin, j) <= Ball(world, origin, k)
    decreases k
  {
    if j < k {
      BallMonotone(world, origin, j, k - 1);
    }
  }

  /** Every point in range of an origin in the world is itself in the world. */
  lemma {:induction false} BallInWorld(world: set<HexPoint>, origin: HexPoint, k: nat)
    requires origin in world
    ensures Ball(world, origin, k) <= world
  {
    if k > 0 {
      BallInWorld(world, origin, k - 1);
    }
  }

  lemma {:induction false} ReachMonotone(world: set<HexPoint>, p: HexPoint, q: HexPoint, k: nat)
    requires Reach(world, p, q, k)
    ensures Reach(world, p, q, k + 1)
    decreases k
  {
    if p != q {
      var d :| Shift(p, d) in world && Reach(world, Shift(p, d), q, k - 1);
      ReachMonotone(world, Shift(p, d), q, k - 1);
    }
  }

  /** A path can be extended by a last step into the world. */
  lemma {:induction false} ReachExtend(world: set<HexPoint>, p: HexPoint, q: HexPoint, d: Direction, k: nat)
    requires Reach(world, p, q, k) && Shift(q, d) in world
    ensures Reach(world, p, Shift(q, d), k + 1)
    decreases k
  {
    if p == q {
      assert Reach(world, Shift(p, d), Shift(q, d), 0);
    } else {
      var e :| Shift(p, e) in world && Reach(world, Shift(p, e), q, k - 1);
      ReachExtend(world, Shift(p, e), q, d, k - 1);
    }
  }

  /** Starting one step further in costs one step of range. */
  lemma {:induction false} BallFromNeighbour(world: set<HexPoint>, origin: HexPoint, d: Direction, j: nat)
    requires Shift(origin, d) in world
    ensures Ball(world, Shift(origin, d), j) <= Ball(world, origin, j + 1)
    decreases j
  {
    if j == 0 {
      assert Shift(origin, d) in Expand(world, {origin});
    } else {
      BallFromNeighbour(world, origin, d, j - 1);
      ExpandMonotone(world, Ball(world, Shift(origin, d), j - 1), Ball(world, origin, j));
    }
  }

  /** The range search result is exactly the set of points reachable in at most k steps. */
  lemma {:induction false} BallIsReach(world: set<HexPoint>, origin: HexPoint, k: nat, q: HexPoint)
    ensures q in Ball(world, origin, k) <==> Reach(world, origin, q, k)
    decreases k
  {
    if q in Ball(world, origin, k) {
      if k > 0 {
        var inner := Ball(world, origin, k - 1);
        if q in inner {
          BallIsReach(world, origin, k - 1, q);
          ReachMonotone(world, origin, q, k - 1);
        } else {
          var p, d :| p in inner && d in Directions && Shift(p, d) in world && Shift(p, d) == q;
          BallIsReach(world, origin, k - 1, p);
          ReachExtend(world, origin, p, d, k - 1);
        }
      }
    }
    if Reach(world, origin, q, k) {
      if origin == q {
        OriginInBall(world, origin, k);
      } else {
        var d :| Shift(origin, d) in world && Reach(world, Shift(origin, d), q, k - 1);
        BallIsReach(world, Shift(origin, d), k - 1, q);
        BallFromNeighbour(world, origin, d, k - 1);
      }
    }
  }

  /** Reachability between world points is symmetric. */
  lemma {:induction false} ReachSymmetric(world: set<HexPoint>, p: HexPoint, q: HexPoint, k: nat)
    requires p in world && q in world
    requires Reach(world, p, q, k)
    ensures Reach(world, q, p, k)
    decreases k
  {
    if p != q {
      var d :| Shift(p, d) in world && Reach(world, Shift(p, d), q, k - 1);
      ReachSymmetric(world, Shift(p, d), q, k - 1);
      ShiftOpposite(p, d);
      ReachExtend(world, q, Shift(p, d), Opposite(d), k - 1);
    }
  }

  /** Being in range is symmetric between world points. */
  lemma BallSymmetric(world: set<HexPoint>, p: HexPoint, q: HexPoint, k: nat)
    requires p in world && q in world
    requires q in Ball(world, p, k)
    ensures p in Ball(world, q, k)
  {
    BallIsReach(world, p, k, q);
    ReachSymmetric(world, p, q, k);
    BallIsReach(world, q, k, p);
  }

  // ---------------------------------------------------------------------
  // Pixel to tile: the integer correction step

  function RealAbs(r: real): real { if r < 0.0 then -r else r }

  /**
   * The correction step of pixelToTile. The rounding of the three
   * fractional cube coordinates is an input (Math.round is not modelled);
   * the coordinate that moved most under rounding is recomputed from the
   * other two, with ties going to z, then y.
   */
  method CorrectRounding(fracX: real, fracY: real, fracZ: real, roundX: int, roundY: int, roundZ: int)
    returns (x: int, y: int, z: int)
    ensures x + y + z == 0
    ensures (x == roundX && y == roundY) || (x == roundX && z == roundZ) || (y == roundY && z == roundZ)
    ensures x != roundX ==>
              RealAbs(fracX - roundX as real) > RealAbs(fracY - roundY as real) &&
              RealAbs(fracX - roundX as real) > RealAbs(fracZ - roundZ as real)
    ensures y != roundY ==>
              RealAbs(fracY - roundY as real) >= RealAbs(fracX - roundX as real) &&
              RealAbs(fracY - roundY as real) > RealAbs(fracZ - roundZ as real)
    ensures z != roundZ ==>
              RealAbs(fracZ - roundZ as real) >= RealAbs(fracX - roundX as real) &&
              RealAbs(fracZ - roundZ as real) >= RealAbs(fracY - roundY as real)
    ensures roundX + roundY + roundZ == 0 ==> x == roundX && y == roundY && z == roundZ
  {
    x, y, z := roundX, roundY, roundZ;
    var xDiff := RealAbs(fracX - roundX as real);
    var yDiff := RealAbs(fracY - roundY as real);
    var zDiff := RealAbs(fracZ - roundZ as real);
    if xDiff > yDiff && xDiff > zDiff {
      x := -y - z;
    } else if yDiff > zDiff {
      y := -x - z;
    } else {
      z := -x - y;
    }
  }

  // ---------------------------------------------------------------------
  // Clustering entry points (the algorithm is an unwritten TODO in the source)

  /** clusterTiles with a similarity function and threshold: returns an empty list. */
  function ClusterTilesBySimilarity<T>(tiles: map<HexPoint, T>, similarity: (T, T) -> real, threshold: real)
    : (clusters: seq<map<HexPoint, T>>)
  {
    []
  }

  /** The score the predicate overload passes down: 1.0 when both tiles pass, else 0.0. */
  function PredicateSimilarity<T>(test: T -> bool): (T, T) -> real {
    (a: T, b: T) => if test(a) && test(b) then 1.0 else 0.0
  }

  /** The predicate overload delegates with threshold 0.5. */
  function ClusterTiles<T>(tiles: map<HexPoint, T>, test: T -> bool): (clusters: seq<map<HexPoint, T>>) {
    ClusterTilesBySimilarity(tiles, PredicateSimilarity(test), 0.5)
  }

  /** Under the delegated score and threshold, two tiles are similar exactly when both pass the predicate. */
  lemma PredicateSimilarityMeetsThreshold<T>(test: T -> bool, a: T, b: T)
    ensures PredicateSimilarity(test)(a, b) >= 0.5 <==> test(a) && test(b)
    ensures PredicateSimilarity(test)(a, b) == PredicateSimilarity(test)(b, a)
  {
  }

  /** Both overloads, as written, produce no clusters at all. */
  lemma ClusterTilesEmpty<T>(tiles: map<HexPoint, T>, test: T -> bool, similarity: (T, T) -> real, threshold: real)
    ensures ClusterTiles(tiles, test) == []
    ensures ClusterTilesBySimilarity(tiles, similarity, threshold) == []
  {
  }
}
