/**
 * FreshWaterGenerator: drop rain on every land tile of a continent, let
 * each tile's water run off to its lower neighbours from the highest tile
 * down, and turn every processed tile still holding enough water into a
 * lake. River formation is an unwritten TODO in the source and is not
 * modelled.
 *
 * The generator works on Tile objects; what it does to them is specified
 * by pure functions over value maps (Rain, SpreadOne, Sweep, LakePass),
 * linked to the heap by HasWater and HasElevations. Water amounts are
 * `real`, an idealisation of Java's double.
 */
module FreshWaterGenerator {
  import opened Hex
  import opened Biomes
  import opened TerraingenTile

  /** RAINFALL: the water dropped once on each land tile. */
  const Rainfall: real := 0.5
  /** LAKE_THRESHOLD: a processed tile holding at least this much water becomes a lake. */
  const LakeThreshold: real := 1.0

  /** The water a tile holds now and all the water that has passed over it. */
  datatype Water = Water(level: real, traversed: real)

  /** Tile.addWater on the value: both amounts grow by w. */
  function Added(v: Water, w: real): Water {
    Water(v.level + w, v.traversed + w)
  }

  /** The water amounts of the tiles agree with the map water. */
  ghost predicate HasWater(tiles: map<HexPoint, Tile>, water: map<HexPoint, Water>)
    reads tiles.Values
  {
    && water.Keys == tiles.Keys
    && forall q :: q in tiles ==> tiles[q].waterLevel == water[q].level && tiles[q].totalWaterTraversed == water[q].traversed
  }

  predicate Distinct(s: seq<HexPoint>) {
    forall i, j :: 0 <= i < j < |s| ==> s[i] != s[j]
  }

  // ---------------------------------------------------------------------
  // The processing order: the non-water tiles, highest first

  /** order lists every non-water tile exactly once, in non-increasing elevation. */
  ghost predicate LandOrder(biomes: map<HexPoint, Biome>, elev: map<HexPoint, int>, order: seq<HexPoint>) {
    && biomes.Keys == elev.Keys
    && Distinct(order)
    && (forall q :: q in order <==> q in biomes && !IsWater(biomes[q]))
    && Descending(elev, order)
  }

  /** No tile of order is lower than a tile after it. */
  ghost predicate Descending(elev: map<HexPoint, int>, order: seq<HexPoint>) {
    forall i, j :: 0 <= i < j < |order| && order[i] in elev && order[j] in elev ==> elev[order[i]] >= elev[order[j]]
  }

  /** A non-empty set of tiles has a highest one. */
  lemma {:induction false} HighestExists(elev: map<HexPoint, int>, s: set<HexPoint>)
    requires s != {} && s <= elev.Keys
    ensures exists m :: m in s && forall r :: r in s ==> elev[r] <= elev[m]
    decreases |s|
  {
    var x :| x in s;
    if s == {x} {
      assert forall r :: r in s ==> elev[r] <= elev[x];
    } else {
      HighestExists(elev, s - {x});
      var m :| m in s - {x} && forall r :: r in s - {x} ==> elev[r] <= elev[m];
      if elev[x] > elev[m] {
        assert forall r :: r in s ==> elev[r] <= elev[x];
      } else {
        assert forall r :: r in s ==> elev[r] <= elev[m];
      }
    }
  }

  /**
   * The filtered, sorted list of generateForContinent: the non-water tiles
   * in descending elevation. The library sort is modelled by repeatedly
   * taking a highest remaining tile (ties in any order).
   */
  method SortByElevation(tiles: map<HexPoint, Tile>) returns (order: seq<HexPoint>)
    ensures LandOrder(BiomeMap(tiles), ElevationMap(tiles), order)
  {
    ghost var elev := ElevationMap(tiles);
    ghost var land := set q | q in tiles && !IsWater(tiles[q].biome);
    var rest := set q | q in tiles && !IsWater(tiles[q].biome);
    order := [];
    while rest != {}
      invariant rest <= land && land <= tiles.Keys
      invariant forall q :: q in order <==> q in land - rest
      invariant forall i :: 0 <= i < |order| ==> order[i] in tiles
      invariant Distinct(order)
      invariant forall i, j :: 0 <= i < j < |order| ==> tiles[order[i]].elevation >= tiles[order[j]].elevation
      invariant forall i, r :: 0 <= i < |order| && r in rest ==> tiles[order[i]].elevation >= tiles[r].elevation
      decreases |rest|
    {
      HighestExists(elev, rest);
      var top :| top in rest && forall r :: r in rest ==> tiles[r].elevation <= tiles[top].elevation;
      assert top !in order;
      order := order + [top];
      rest := rest - {top};
    }
  }

  // ---------------------------------------------------------------------
  // Adding water to a list of tiles

  /** A run of Tile.addWater calls on the value: targets[k] gets amounts[k], in order. */
  function AddEach(water: map<HexPoint, Water>, targets: seq<HexPoint>, amounts: seq<real>): (r: map<HexPoint, Water>)
    requires |targets| == |amounts|
    ensures r.Keys == water.Keys
    decreases |targets|
  {
    if targets == [] then water
    else
      var n := |targets| - 1;
      var w := AddEach(water, targets[..n], amounts[..n]);
      if targets[n] in w then w[targets[n] := Added(w[targets[n]], amounts[n])] else w
  }

  /** One more addition, at the end of the run. */
  lemma AddEachStep(water: map<HexPoint, Water>, targets: seq<HexPoint>, amounts: seq<real>, i: nat)
    requires |targets| == |amounts| && i < |targets| && targets[i] in water
    ensures var w := AddEach(water, targets[..i], amounts[..i]);
            AddEach(water, targets[..i + 1], amounts[..i + 1]) == w[targets[i] := Added(w[targets[i]], amounts[i])]
  {
    assert targets[..i + 1][..i] == targets[..i] && amounts[..i + 1][..i] == amounts[..i];
  }

  /** With distinct targets, each target gets exactly its own amount and every other tile keeps its water. */
  lemma {:induction false} AddEachFacts(water: map<HexPoint, Water>, targets: seq<HexPoint>, amounts: seq<real>)
    requires |targets| == |amounts| && Distinct(targets)
    ensures forall k :: 0 <= k < |targets| && targets[k] in water ==>
              AddEach(water, targets, amounts)[targets[k]] == Added(water[targets[k]], amounts[k])
    ensures forall q :: q in water && q !in targets ==> AddEach(water, targets, amounts)[q] == water[q]
    decreases |targets|
  {
    if targets != [] {
      var n := |targets| - 1;
      var w := AddEach(water, targets[..n], amounts[..n]);
      AddEachFacts(water, targets[..n], amounts[..n]);
      assert targets[n] !in targets[..n];
      forall k | 0 <= k < |targets| && targets[k] in water
        ensures AddEach(water, targets, amounts)[targets[k]] == Added(water[targets[k]], amounts[k])
      {
        if k < n {
          assert targets[..n][k] == targets[k] && amounts[..n][k] == amounts[k];
          assert targets[k] != targets[n];
        }
      }
      forall q | q in water && q !in targets
        ensures AddEach(water, targets, amounts)[q] == water[q]
      {
        assert q !in targets[..n];
      }
    }
  }

  /** RAINFALL for each tile of order. */
  function RainAmounts(order: seq<HexPoint>): (r: seq<real>)
    ensures |r| == |order|
  {
    seq(|order|, _ => Rainfall)
  }

  /** The rain loop on the value: each tile of order, in turn, gets RAINFALL. */
  function Rain(water: map<HexPoint, Water>, order: seq<HexPoint>): (r: map<HexPoint, Water>)
    ensures r.Keys == water.Keys
  {
    AddEach(water, order, RainAmounts(order))
  }

  /** Every listed tile gets RAINFALL exactly once, and no other tile gets any. */
  lemma RainFacts(water: map<HexPoint, Water>, order: seq<HexPoint>)
    requires Distinct(order)
    ensures forall q :: q in water ==> Rain(water, order)[q] == if q in order then Added(water[q], Rainfall) else water[q]
  {
    AddEachFacts(water, order, RainAmounts(order));
    forall q | q in water && q in order
      ensures Rain(water, order)[q] == Added(water[q], Rainfall)
    {
      var k :| 0 <= k < |order| && order[k] == q;
    }
  }

  // ---------------------------------------------------------------------
  // Runoff from one tile

  /** The neighbours of p strictly lower than p, among the first i directions, in direction order. */
  function LowerUpTo(elev: map<HexPoint, int>, p: HexPoint, i: nat): (r: seq<HexPoint>)
    requires p in elev && i <= |Directions|
    ensures forall k :: 0 <= k < |r| ==> r[k] in elev
  {
    if i == 0 then []
    else
      var q := Shift(p, Directions[i - 1]);
      LowerUpTo(elev, p, i - 1) + (if q in elev && elev[q] < elev[p] then [q] else [])
  }

  /** The lower tiles of spreadWaterDownhill: the adjacent tiles of the continent strictly lower than p. */
  function Lower(elev: map<HexPoint, int>, p: HexPoint): (r: seq<HexPoint>)
    requires p in elev
    ensures forall k :: 0 <= k < |r| ==> r[k] in elev
  {
    LowerUpTo(elev, p, |Directions|)
  }

  lemma {:induction false} LowerUpToFacts(elev: map<HexPoint, int>, p: HexPoint, i: nat)
    requires p in elev && i <= |Directions|
    ensures Distinct(LowerUpTo(elev, p, i))
    ensures forall q :: q in LowerUpTo(elev, p, i) <==>
              q in elev && elev[q] < elev[p] && exists k :: 0 <= k < i && Shift(p, Directions[k]) == q
  {
    if i > 0 {
      LowerUpToFacts(elev, p, i - 1);
      var q := Shift(p, Directions[i - 1]);
      forall k | 0 <= k < i - 1
        ensures Shift(p, Directions[k]) != q
      {
        if Shift(p, Directions[k]) == q {
          ShiftInjective(p, Directions[k], Directions[i - 1]);
        }
      }
    }
  }

  /** The lower tiles are exactly the adjacent tiles strictly lower than p, each listed once. */
  lemma LowerFacts(elev: map<HexPoint, int>, p: HexPoint)
    requires p in elev
    ensures Distinct(Lower(elev, p))
    ensures forall q :: q in Lower(elev, p) <==> q in elev && Adjacent(p, q) && elev[q] < elev[p]
    ensures p !in Lower(elev, p)
  {
    LowerUpToFacts(elev, p, |Directions|);
    forall q | q in elev && Adjacent(p, q) && elev[q] < elev[p]
      ensures q in Lower(elev, p)
    {
      AdjacentIsShift(p, q);
      var d :| Shift(p, d) == q;
      assert Shift(p, Directions[Index(d)]) == q;
    }
    forall q | q in Lower(elev, p)
      ensures Adjacent(p, q)
    {
      var k :| 0 <= k < |Directions| && Shift(p, Directions[k]) == q;
      AdjacentShift(p, Directions[k]);
    }
  }

  /** The sum of the elevations of the listed tiles (Java's int sum). */
  function SumElevations(elev: map<HexPoint, int>, s: seq<HexPoint>): int
    requires forall k :: 0 <= k < |s| ==> s[k] in elev
  {
    if s == [] then 0 else SumElevations(elev, s[..|s| - 1]) + elev[s[|s| - 1]]
  }

  /** totalElevDiff as written: the sum of the lower tiles' elevations (not of the differences). */
  function Denominator(elev: map<HexPoint, int>, p: HexPoint): int
    requires p in elev
  {
    SumElevations(elev, Lower(elev, p))
  }

  /** The runoff from p is defined: p has no lower tile, or the denominator is not zero. */
  predicate RunoffDefined(elev: map<HexPoint, int>, p: HexPoint) {
    p in elev && (Lower(elev, p) != [] ==> Denominator(elev, p) != 0)
  }

  /** The fraction diff / total of w, in real arithmetic (Java doubles). */
  function Portion(w: real, diff: int, total: int): real
    requires total != 0
  {
    w * (diff as real / total as real)
  }

  /** The water passed from p, holding w, to its lower neighbour q. */
  function Runoff(elev: map<HexPoint, int>, p: HexPoint, q: HexPoint, w: real): real
    requires p in elev && q in elev && Denominator(elev, p) != 0
  {
    Portion(w, elev[p] - elev[q], Denominator(elev, p))
  }


  /** The share of w passed to each tile of lower: its drop below p over total. */
  function Shares(elev: map<HexPoint, int>, p: HexPoint, lower: seq<HexPoint>, w: real, total: int): (r: seq<real>)
    requires p in elev && total != 0 && forall k :: 0 <= k < |lower| ==> lower[k] in elev
    ensures |r| == |lower|
    ensures forall k :: 0 <= k < |r| ==> r[k] == Portion(w, elev[p] - elev[lower[k]], total)
  {
    seq(|lower|, k requires 0 <= k < |lower| => Portion(w, elev[p] - elev[lower[k]], total))
  }

  /** The share of the i-th lower neighbour, from its elevation difference. */
  lemma ShareIs(elev: map<HexPoint, int>, p: HexPoint, lower: seq<HexPoint>, w: real, total: int, i: nat, diff: int)
    requires p in elev && total != 0 && forall k :: 0 <= k < |lower| ==> lower[k] in elev
    requires i < |lower| && diff == elev[p] - elev[lower[i]]
    ensures Shares(elev, p, lower, w, total)[i] == Portion(w, diff, total)
  {
  }

  /**
   * spreadWaterDownhill on the value: when p has lower neighbours, each of
   * them receives its runoff share of p's water, then p's water level is
   * cleared; otherwise nothing changes.
   */
  function SpreadOne(elev: map<HexPoint, int>, water: map<HexPoint, Water>, p: HexPoint): (r: map<HexPoint, Water>)
    requires RunoffDefined(elev, p) && p in water
    ensures r.Keys == water.Keys
  {
    var lower := Lower(elev, p);
    if lower == [] then water
    else
      var spread := AddEach(water, lower, Shares(elev, p, lower, water[p].level, Denominator(elev, p)));
      spread[p := Water(0.0, spread[p].traversed)]
  }

  /** SpreadOne in terms of AddEach: the lower tiles get their shares, then p's level is cleared. */
  lemma SpreadOneUnfold(elev: map<HexPoint, int>, water: map<HexPoint, Water>, p: HexPoint, q: HexPoint)
    requires RunoffDefined(elev, p) && p in water && q in water && Lower(elev, p) != []
    ensures var shares := Shares(elev, p, Lower(elev, p), water[p].level, Denominator(elev, p));
            && SpreadOne(elev, water, p)[p] == Water(0.0, AddEach(water, Lower(elev, p), shares)[p].traversed)
            && (q != p ==> SpreadOne(elev, water, p)[q] == AddEach(water, Lower(elev, p), shares)[q])
  {
  }

  /**
   * What one runoff step promises: a tile with a lower neighbour ends with
   * no water, one without keeps everything; only its lower tiles (by
   * LowerFacts, the adjacent, strictly lower ones) receive water, each its
   * share; the water that has passed over p is unchanged.
   */
  lemma SpreadOneFacts(elev: map<HexPoint, int>, water: map<HexPoint, Water>, p: HexPoint, q: HexPoint)
    requires RunoffDefined(elev, p) && p in water && q in water
    ensures Lower(elev, p) == [] ==> SpreadOne(elev, water, p) == water
    ensures Lower(elev, p) != [] ==> SpreadOne(elev, water, p)[p] == Water(0.0, water[p].traversed)
    ensures q in Lower(elev, p) ==> SpreadOne(elev, water, p)[q] == Added(water[q], Runoff(elev, p, q, water[p].level))
    ensures q != p && q !in Lower(elev, p) ==> SpreadOne(elev, water, p)[q] == water[q]
  {
    LowerFacts(elev, p);
    var lower := Lower(elev, p);
    if lower != [] {
      var shares := Shares(elev, p, lower, water[p].level, Denominator(elev, p));
      AddEachFacts(water, lower, shares);
      SpreadOneUnfold(elev, water, p, q);
      if q in lower {
        var k :| 0 <= k < |lower| && lower[k] == q;
        assert shares[k] == Runoff(elev, p, q, water[p].level);
      }
    }
  }

  /**
   * The runoff shares need not add up to the water spread, because the
   * denominator is a sum of elevations: wherever a tile at elevation 10
   * holding 0.5 has a single lower neighbour, at elevation 2, that
   * neighbour receives 2.0, four times the water spread.
   */
  lemma RunoffNotConserved(p: HexPoint)
    ensures var q := Shift(p, North);
            var elev := map[p := 10, q := 2];
            var water := map[p := Water(0.5, 0.5), q := Water(0.0, 0.0)];
            && RunoffDefined(elev, p)
            && SpreadOne(elev, water, p)[p].level == 0.0
            && SpreadOne(elev, water, p)[q].level == 2.0
  {
    var q := Shift(p, North);
    var elev := map[p := 10, q := 2];
    var water := map[p := Water(0.5, 0.5), q := Water(0.0, 0.0)];
    OnlyNorthLower(elev, p);
    assert Denominator(elev, p) == 2 by {
      assert [q][..0] == [];
      assert SumElevations(elev, [q]) == SumElevations(elev, []) + elev[q];
    }
    SpreadOneFacts(elev, water, p, q);
  }

  /** When the only other tile is p's northern neighbour and it is lower, it is the one lower tile. */
  lemma OnlyNorthLower(elev: map<HexPoint, int>, p: HexPoint)
    requires elev.Keys == {p, Shift(p, North)} && elev[Shift(p, North)] < elev[p]
    ensures Lower(elev, p) == [Shift(p, North)]
  {
    var q := Shift(p, North);
    assert LowerUpTo(elev, p, 1) == [q];
    assert LowerUpTo(elev, p, 2) == [q];
    assert LowerUpTo(elev, p, 3) == [q];
    assert LowerUpTo(elev, p, 4) == [q];
    assert LowerUpTo(elev, p, 5) == [q];
  }

  /** Every tile of order, and its runoff, is defined. */
  predicate SweepDefined(elev: map<HexPoint, int>, order: seq<HexPoint>) {
    forall q :: q in order ==> RunoffDefined(elev, q)
  }

  /** The runoff loop on the value: spread from each tile of order in turn. */
  function Sweep(elev: map<HexPoint, int>, water: map<HexPoint, Water>, order: seq<HexPoint>): (r: map<HexPoint, Water>)
    requires water.Keys == elev.Keys && SweepDefined(elev, order)
    ensures r.Keys == water.Keys
    decreases |order|
  {
    if order == [] then water
    else SpreadOne(elev, Sweep(elev, water, order[..|order| - 1]), order[|order| - 1])
  }

  /**
   * A whole sweep in descending order leaves no water on a swept tile that
   * has a lower neighbour: the tile is emptied when its turn comes, and
   * every later tile is no higher, so none of them passes water back up.
   */
  lemma {:induction false} SweepDrains(elev: map<HexPoint, int>, water: map<HexPoint, Water>, order: seq<HexPoint>, q: HexPoint)
    requires water.Keys == elev.Keys && SweepDefined(elev, order) && Distinct(order) && Descending(elev, order)
    requires q in order && Lower(elev, q) != []
    ensures Sweep(elev, water, order)[q].level == 0.0
    decreases |order|
  {
    var n := |order| - 1;
    var p := order[n];
    var prefix := order[..n];
    assert SweepDefined(elev, prefix) by {
      forall r | r in prefix
        ensures RunoffDefined(elev, r)
      {
        assert r in order;
      }
    }
    var before := Sweep(elev, water, prefix);
    assert RunoffDefined(elev, p) by {
      assert p in order;
    }
    assert Sweep(elev, water, order) == SpreadOne(elev, before, p);
    if p != q {
      var k :| 0 <= k < |order| && order[k] == q;
      assert k < n && prefix[k] == q;
      assert elev[q] >= elev[p] by {
        assert RunoffDefined(elev, q) && RunoffDefined(elev, p);
      }
      SweepPrefix(elev, order, n);
      SweepDrains(elev, water, prefix, q);
      LowerFacts(elev, p);
      SpreadOneFacts(elev, before, p, q);
    } else {
      SpreadOneFacts(elev, before, p, q);
    }
  }

  /** A prefix of a distinct, descending order is distinct and descending. */
  lemma SweepPrefix(elev: map<HexPoint, int>, order: seq<HexPoint>, n: nat)
    requires n <= |order| && Distinct(order) && Descending(elev, order)
    ensures Distinct(order[..n]) && Descending(elev, order[..n])
  {
  }

  /**
   * For the land order generateForContinent builds, every land tile with a
   * lower neighbour ends the sweep dry: water stays only where it has
   * nowhere to go.
   */
  lemma LandSweepDrains(biomes: map<HexPoint, Biome>, elev: map<HexPoint, int>, water: map<HexPoint, Water>, order: seq<HexPoint>, q: HexPoint)
    requires LandOrder(biomes, elev, order) && water.Keys == elev.Keys && SweepDefined(elev, order)
    requires q in biomes && !IsWater(biomes[q]) && Lower(elev, q) != []
    ensures Sweep(elev, water, order)[q].level == 0.0
  {
    SweepDrains(elev, water, order, q);
  }

  // ---------------------------------------------------------------------
  // Lakes

  /** The lake pass on the value: each processed tile holding at least LAKE_THRESHOLD becomes LAKE. */
  function LakePass(biomes: map<HexPoint, Biome>, water: map<HexPoint, Water>, processed: seq<HexPoint>): (r: map<HexPoint, Biome>)
    ensures r.Keys == biomes.Keys
  {
    map q | q in biomes :: if q in processed && q in water && water[q].level >= LakeThreshold then LAKE else biomes[q]
  }

  /**
   * Lakes only appear on processed tiles that hold enough water, every such
   * tile is a lake afterwards, and running the pass again changes nothing.
   */
  lemma LakePassFacts(biomes: map<HexPoint, Biome>, water: map<HexPoint, Water>, processed: seq<HexPoint>, q: HexPoint)
    requires q in biomes
    ensures LakePass(biomes, water, processed)[q] != biomes[q] ==>
              q in processed && q in water && water[q].level >= LakeThreshold && LakePass(biomes, water, processed)[q] == LAKE
    ensures q in processed && q in water && water[q].level >= LakeThreshold ==> LakePass(biomes, water, processed)[q] == LAKE
    ensures LakePass(LakePass(biomes, water, processed), water, processed) == LakePass(biomes, water, processed)
  {
    var once := LakePass(biomes, water, processed);
    assert LakePass(once, water, processed) == once by {
      forall r | r in once
        ensures LakePass(once, water, processed)[r] == once[r]
      {
      }
    }
  }

  /**
   * After rain and a sweep in the land order, the lake pass only turns
   * tiles into lakes that have no lower neighbour: a lake is where the
   * water had nowhere to go.
   */
  lemma LakesAreSinks(biomes: map<HexPoint, Biome>, elev: map<HexPoint, int>, water: map<HexPoint, Water>, order: seq<HexPoint>, q: HexPoint)
    requires LandOrder(biomes, elev, order) && water.Keys == elev.Keys && SweepDefined(elev, order)
    requires q in biomes && LakePass(biomes, Sweep(elev, water, order), order)[q] != biomes[q]
    ensures Lower(elev, q) == []
  {
    if Lower(elev, q) != [] {
      SweepDrains(elev, water, order, q);
    }
  }

  /** Processing one more tile adds at most that tile's lake. */
  lemma LakePassStep(biomes: map<HexPoint, Biome>, water: map<HexPoint, Water>, processed: seq<HexPoint>, q: HexPoint)
    requires q in biomes && q in water
    ensures LakePass(biomes, water, processed + [q]) ==
            if water[q].level >= LakeThreshold then LakePass(biomes, water, processed)[q := LAKE] else LakePass(biomes, water, processed)
  {
  }

  // ---------------------------------------------------------------------
  // The generator on Tile objects

  /** Tile.addWater on the tile at q, seen on the whole map: only q's water amounts change. */
  method AddWaterAt(tiles: map<HexPoint, Tile>, q: HexPoint, w: real, ghost water: map<HexPoint, Water>)
    returns (ghost water': map<HexPoint, Water>)
    requires Positioned(tiles) && q in tiles && HasWater(tiles, water)
    modifies tiles[q]
    ensures HasWater(tiles, water') && water' == water[q := Added(water[q], w)]
    ensures forall r :: r in tiles ==> tiles[r].AllButWater() == old(tiles[r].AllButWater())
    ensures forall r :: r in tiles ==> tiles[r].elevation == old(tiles[r].elevation)
  {
    tiles[q].AddWater(w);
    water' := water[q := Added(water[q], w)];
  }

  /** Tile.clearWater on the tile at q, seen on the whole map: only q's water level changes, to zero. */
  method ClearWaterAt(tiles: map<HexPoint, Tile>, q: HexPoint, ghost water: map<HexPoint, Water>)
    returns (ghost water': map<HexPoint, Water>)
    requires Positioned(tiles) && q in tiles && HasWater(tiles, water)
    modifies tiles[q]
    ensures HasWater(tiles, water') && water' == water[q := Water(0.0, water[q].traversed)]
    ensures forall r :: r in tiles ==> tiles[r].AllButWater() == old(tiles[r].AllButWater())
  {
    tiles[q].ClearWater();
    water' := water[q := Water(0.0, water[q].traversed)];
  }

  /** The lower tiles of p, collected by looking in each direction in turn. */
  method CollectLower(tiles: map<HexPoint, Tile>, p: HexPoint, ghost elev: map<HexPoint, int>) returns (lower: seq<HexPoint>)
    requires p in tiles && HasElevations(tiles, elev)
    ensures lower == Lower(elev, p)
  {
    lower := [];
    for i := 0 to |Directions|
      invariant lower == LowerUpTo(elev, p, i)
    {
      var q := Shift(p, Directions[i]);
      if q in tiles && tiles[q].elevation < tiles[p].elevation {
        lower := lower + [q];
      } else {
        assert lower + [] == lower;
      }
    }
  }

  /** totalElevDiff: the sum of the elevations of the lower tiles. */
  method SumLower(tiles: map<HexPoint, Tile>, p: HexPoint, lower: seq<HexPoint>, ghost elev: map<HexPoint, int>) returns (total: int)
    requires p in tiles && HasElevations(tiles, elev) && lower == Lower(elev, p)
    ensures total == Denominator(elev, p)
  {
    total := 0;
    for i := 0 to |lower|
      invariant total == SumElevations(elev, lower[..i])
    {
      assert lower[..i + 1][..i] == lower[..i];
      total := total + tiles[lower[i]].elevation;
    }
    assert lower[..|lower|] == lower;
  }

  /** Each lower tile receives its runoff share of waterToSpread. */
  method PassRunoff(tiles: map<HexPoint, Tile>, p: HexPoint, lower: seq<HexPoint>, total: int, waterToSpread: real,
                    ghost elev: map<HexPoint, int>, ghost water: map<HexPoint, Water>)
    returns (ghost water': map<HexPoint, Water>)
    requires Positioned(tiles) && p in tiles && HasElevations(tiles, elev) && HasWater(tiles, water)
    requires lower == Lower(elev, p) && total == Denominator(elev, p) && total != 0
    modifies tiles.Values
    ensures HasWater(tiles, water') && water' == AddEach(water, lower, Shares(elev, p, lower, waterToSpread, total))
    ensures forall q :: q in tiles ==> tiles[q].AllButWater() == old(tiles[q].AllButWater())
  {
    ghost var shares := Shares(elev, p, lower, waterToSpread, total);
    water' := water;
    for i := 0 to |lower|
      invariant HasElevations(tiles, elev)
      invariant HasWater(tiles, water') && water' == AddEach(water, lower[..i], shares[..i])
      invariant forall q :: q in tiles ==> tiles[q].AllButWater() == old(tiles[q].AllButWater())
    {
      AddEachStep(water, lower, shares, i);
      var adjTile := tiles[lower[i]];
      var diff := tiles[p].elevation - adjTile.elevation;
      ShareIs(elev, p, lower, waterToSpread, total, i, diff);
      var share := Portion(waterToSpread, diff, total);
      water' := AddWaterAt(tiles, lower[i], share, water');
    }
    assert lower[..|lower|] == lower && shares[..|shares|] == shares;
  }

  /** spreadWaterDownhill: move all of p's water to its lower neighbours, in proportion as written. */
  method SpreadWaterDownhill(tiles: map<HexPoint, Tile>, p: HexPoint, ghost elev: map<HexPoint, int>, ghost water: map<HexPoint, Water>)
    returns (ghost water': map<HexPoint, Water>)
    requires Positioned(tiles) && p in tiles
    requires HasElevations(tiles, elev) && HasWater(tiles, water) && RunoffDefined(elev, p)
    modifies tiles.Values
    ensures HasWater(tiles, water') && water' == SpreadOne(elev, water, p)
    ensures forall q :: q in tiles ==> tiles[q].AllButWater() == old(tiles[q].AllButWater())
  {
    var lower := CollectLower(tiles, p, elev);
    water' := water;
    if |lower| > 0 {
      var total := SumLower(tiles, p, lower, elev);
      var tile := tiles[p];
      var waterToSpread := tile.waterLevel;
      water' := PassRunoff(tiles, p, lower, total, waterToSpread, elev, water);
      water' := ClearWaterAt(tiles, p, water');
    }
  }

  /** The rain loop: every tile of order gets RAINFALL. */
  method RainOn(tiles: map<HexPoint, Tile>, order: seq<HexPoint>, ghost water: map<HexPoint, Water>)
    requires Positioned(tiles) && HasWater(tiles, water) && forall i :: 0 <= i < |order| ==> order[i] in tiles
    modifies tiles.Values
    ensures HasWater(tiles, Rain(water, order))
    ensures forall q :: q in tiles ==> tiles[q].AllButWater() == old(tiles[q].AllButWater())
  {
    ghost var amounts := RainAmounts(order);
    ghost var cur := water;
    for i := 0 to |order|
      invariant HasWater(tiles, cur) && cur == AddEach(water, order[..i], amounts[..i])
      invariant forall q :: q in tiles ==> tiles[q].AllButWater() == old(tiles[q].AllButWater())
    {
      AddEachStep(water, order, amounts, i);
      cur := AddWaterAt(tiles, order[i], Rainfall, cur);
    }
    assert order[..|order|] == order && amounts[..|amounts|] == amounts;
  }

  /** The runoff loop: spread from every tile of order in turn. */
  method SpreadAll(tiles: map<HexPoint, Tile>, order: seq<HexPoint>, ghost elev: map<HexPoint, int>, ghost water: map<HexPoint, Water>)
    requires Positioned(tiles) && HasElevations(tiles, elev) && HasWater(tiles, water)
    requires forall i :: 0 <= i < |order| ==> order[i] in tiles
    requires SweepDefined(elev, order)
    modifies tiles.Values
    ensures HasWater(tiles, Sweep(elev, water, order))
    ensures forall q :: q in tiles ==> tiles[q].AllButWater() == old(tiles[q].AllButWater())
  {
    ghost var cur := water;
    for i := 0 to |order|
      invariant HasElevations(tiles, elev)
      invariant HasWater(tiles, cur) && cur == Sweep(elev, water, order[..i])
      invariant forall q :: q in tiles ==> tiles[q].AllButWater() == old(tiles[q].AllButWater())
    {
      assert order[..i + 1][..i] == order[..i];
      cur := SpreadWaterDownhill(tiles, order[i], elev, cur);
    }
    assert order[..|order|] == order;
  }

  /** Tile.setBiome(LAKE) on the tile at q when it holds at least LAKE_THRESHOLD. */
  method LakeIfWet(tiles: map<HexPoint, Tile>, q: HexPoint, ghost water: map<HexPoint, Water>, ghost biomes: map<HexPoint, Biome>)
    returns (ghost biomes': map<HexPoint, Biome>)
    requires Positioned(tiles) && q in tiles && HasWater(tiles, water) && HasBiomes(tiles, biomes)
    modifies tiles[q]
    ensures HasBiomes(tiles, biomes') && HasWater(tiles, water)
    ensures biomes' == if water[q].level >= LakeThreshold then biomes[q := LAKE] else biomes
    ensures forall r :: r in tiles ==> tiles[r].AllButBiome() == old(tiles[r].AllButBiome())
  {
    var tile := tiles[q];
    biomes' := biomes;
    if tile.waterLevel >= LakeThreshold {
      tile.SetBiome(LAKE);
      biomes' := biomes[q := LAKE];
    }
  }

  /** The rain loop and then the runoff loop. */
  method RainAndRunoff(tiles: map<HexPoint, Tile>, order: seq<HexPoint>, ghost elev: map<HexPoint, int>, ghost water: map<HexPoint, Water>)
    requires Positioned(tiles) && HasElevations(tiles, elev) && HasWater(tiles, water)
    requires forall i :: 0 <= i < |order| ==> order[i] in tiles
    requires SweepDefined(elev, order)
    modifies tiles.Values
    ensures HasWater(tiles, Sweep(elev, Rain(water, order), order))
    ensures forall q :: q in tiles ==> tiles[q].AllButWater() == old(tiles[q].AllButWater())
  {
    RainOn(tiles, order, water);
    assert HasElevations(tiles, elev);
    SpreadAll(tiles, order, elev, Rain(water, order));
  }

  /** The lake loop: every tile of order holding at least LAKE_THRESHOLD becomes LAKE. */
  method PaintLakes(tiles: map<HexPoint, Tile>, order: seq<HexPoint>, ghost water: map<HexPoint, Water>, ghost biomes: map<HexPoint, Biome>)
    requires Positioned(tiles) && HasWater(tiles, water) && HasBiomes(tiles, biomes)
    requires forall i :: 0 <= i < |order| ==> order[i] in tiles
    modifies tiles.Values
    ensures HasBiomes(tiles, LakePass(biomes, water, order)) && HasWater(tiles, water)
    ensures forall q :: q in tiles ==> tiles[q].AllButBiome() == old(tiles[q].AllButBiome())
  {
    ghost var cur := biomes;
    for i := 0 to |order|
      invariant HasWater(tiles, water)
      invariant HasBiomes(tiles, cur) && cur == LakePass(biomes, water, order[..i])
      invariant forall q :: q in tiles ==> tiles[q].AllButBiome() == old(tiles[q].AllButBiome())
    {
      assert order[..i + 1] == order[..i] + [order[i]];
      LakePassStep(biomes, water, order[..i], order[i]);
      cur := LakeIfWet(tiles, order[i], water, cur);
    }
    assert order[..|order|] == order;
  }

  /** Sort the land tiles, then rain on each and spread each tile's water downhill. */
  method SortAndDrain(tiles: map<HexPoint, Tile>)
    returns (order: seq<HexPoint>, ghost elev: map<HexPoint, int>, ghost before: map<HexPoint, Water>)
    requires Positioned(tiles)
    requires forall q :: q in tiles && !IsWater(tiles[q].biome) ==> RunoffDefined(ElevationMap(tiles), q)
    modifies tiles.Values
    ensures HasElevations(tiles, elev) && LandOrder(old(BiomeMap(tiles)), elev, order)
    ensures forall i :: 0 <= i < |order| ==> order[i] in tiles
    ensures old(HasWater(tiles, before)) && SweepDefined(elev, order) && before.Keys == elev.Keys
    ensures HasWater(tiles, Sweep(elev, Rain(before, order), order))
    ensures forall q :: q in tiles ==> tiles[q].AllButWater() == old(tiles[q].AllButWater())
  {
    elev := ElevationMap(tiles);
    before := map q | q in tiles :: Water(tiles[q].waterLevel, tiles[q].totalWaterTraversed);
    order := SortByElevation(tiles);
    forall i | 0 <= i < |order|
      ensures order[i] in tiles
    {
      assert order[i] in order;
    }
    assert SweepDefined(elev, order) by {
      forall q | q in order
        ensures RunoffDefined(elev, q)
      {
        assert q in BiomeMap(tiles) && !IsWater(BiomeMap(tiles)[q]);
      }
    }
    RainAndRunoff(tiles, order, elev, before);
  }

  /**
   * generateForContinent on the tiles of one continent: sort the land
   * tiles, rain on each, spread each tile's water downhill highest first,
   * then turn processed tiles holding at least LAKE_THRESHOLD into lakes.
   * Elevations, humidity, chunks and river connections are untouched.
   */
  method GenerateForContinent(tiles: map<HexPoint, Tile>)
    returns (ghost order: seq<HexPoint>, ghost elev: map<HexPoint, int>, ghost biomes: map<HexPoint, Biome>,
             ghost before: map<HexPoint, Water>, ghost after: map<HexPoint, Water>)
    requires Positioned(tiles)
    requires forall q :: q in tiles && !IsWater(tiles[q].biome) ==> RunoffDefined(ElevationMap(tiles), q)
    modifies tiles.Values
    ensures old(HasElevations(tiles, elev)) && HasElevations(tiles, elev)
    ensures old(HasBiomes(tiles, biomes)) && LandOrder(biomes, elev, order)
    ensures old(HasWater(tiles, before)) && HasWater(tiles, after)
    ensures SweepDefined(elev, order) && before.Keys == elev.Keys
    ensures after == Sweep(elev, Rain(before, order), order)
    ensures HasBiomes(tiles, LakePass(biomes, after, order))
    ensures forall q :: q in tiles ==> tiles[q].Settled() == old(tiles[q].Settled())
  {
    biomes := BiomeMap(tiles);
    var sorted;
    sorted, elev, before := SortAndDrain(tiles);
    order := sorted;
    after := Sweep(elev, Rain(before, sorted), sorted);
    label Drained:
    PaintLakes(tiles, sorted, after, biomes);
    forall q | q in tiles
      ensures tiles[q].Settled() == old(tiles[q].Settled())
      ensures tiles[q].elevation == elev[q]
    {
      assert tiles[q].AllButBiome() == old@Drained(tiles[q].AllButBiome());
      assert old@Drained(tiles[q].AllButWater()) == old(tiles[q].AllButWater());
    }
  }
}
