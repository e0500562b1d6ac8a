/**
 * BeachGenerator: one pass over the world that turns every low-lying land
 * (or still unset) tile next to an ocean tile into beach.
 */
module BeachGenerator {
  import opened Hex
  import opened Biomes
  import opened TerraingenTile

  /** MAX_BEACH_ELEV: tiles at or below this elevation can become beach. */
  const MaxBeachElev: int := 5

  /** No biome set yet (a null biome), or a land biome. */
  predicate Eligible(b: Biome) {
    b == NONE || IsLand(b)
  }

  /** Some neighbour of p inside the world is ocean. */
  predicate OceanNear(biomes: map<HexPoint, Biome>, p: HexPoint) {
    exists d :: d in Directions && Shift(p, d) in biomes && biomes[Shift(p, d)] == OCEAN
  }

  /** The rule for one tile. */
  predicate BecomesBeach(biomes: map<HexPoint, Biome>, elevations: map<HexPoint, int>, p: HexPoint)
    requires p in biomes && p in elevations
  {
    Eligible(biomes[p]) && elevations[p] <= MaxBeachElev && OceanNear(biomes, p)
  }

  /** The biomes after the pass: each tile judged against the biomes before it. */
  function BeachPass(biomes: map<HexPoint, Biome>, elevations: map<HexPoint, int>): map<HexPoint, Biome>
    requires biomes.Keys == elevations.Keys
  {
    map p | p in biomes :: if BecomesBeach(biomes, elevations, p) then BEACH else biomes[p]
  }

  /**
   * The pass sets a tile to BEACH exactly when the rule holds for it, keeps
   * every other biome, and never creates or removes ocean.
   */
  lemma BeachPassFacts(biomes: map<HexPoint, Biome>, elevations: map<HexPoint, int>, p: HexPoint)
    requires biomes.Keys == elevations.Keys && p in biomes
    ensures BeachPass(biomes, elevations).Keys == biomes.Keys
    ensures BeachPass(biomes, elevations)[p] != biomes[p] <==> BecomesBeach(biomes, elevations, p) && biomes[p] != BEACH
    ensures BeachPass(biomes, elevations)[p] == BEACH <==> BecomesBeach(biomes, elevations, p) || biomes[p] == BEACH
    ensures BeachPass(biomes, elevations)[p] == OCEAN <==> biomes[p] == OCEAN
  {
  }

  /** Running the pass a second time changes nothing. */
  lemma {:induction false} BeachPassIdempotent(biomes: map<HexPoint, Biome>, elevations: map<HexPoint, int>)
    requires biomes.Keys == elevations.Keys
    ensures BeachPass(BeachPass(biomes, elevations), elevations) == BeachPass(biomes, elevations)
  {
    var once := BeachPass(biomes, elevations);
    forall p | p in once
      ensures BeachPass(once, elevations)[p] == once[p]
    {
      OceanPreserved(biomes, elevations, once);
      if BecomesBeach(once, elevations, p) && once[p] != biomes[p] {
        assert once[p] == BEACH;
      } else if BecomesBeach(once, elevations, p) {
        assert OceanNear(biomes, p);
      }
    }
  }

  /** Ocean tiles are the same in any map whose entries are either the original or the passed biome. */
  lemma OceanPreserved(biomes: map<HexPoint, Biome>, elevations: map<HexPoint, int>, current: map<HexPoint, Biome>)
    requires biomes.Keys == elevations.Keys == current.Keys
    requires forall q :: q in current ==> current[q] == biomes[q] || current[q] == BeachPass(biomes, elevations)[q]
    ensures forall q :: q in current ==> (current[q] == OCEAN <==> biomes[q] == OCEAN)
    ensures forall p :: OceanNear(current, p) <==> OceanNear(biomes, p)
  {
  }

  /** Updating one tile in place, judged against the biomes as they are at that moment. */
  function Step(biomes: map<HexPoint, Biome>, elevations: map<HexPoint, int>, p: HexPoint): map<HexPoint, Biome>
    requires biomes.Keys == elevations.Keys
  {
    if p in biomes && BecomesBeach(biomes, elevations, p) then biomes[p := BEACH] else biomes
  }

  /** Updating the tiles in place one after another, in the given order. */
  function Sweep(biomes: map<HexPoint, Biome>, elevations: map<HexPoint, int>, order: seq<HexPoint>): map<HexPoint, Biome>
    requires biomes.Keys == elevations.Keys
    decreases |order|
  {
    if order == [] then biomes
    else
      var next := Step(biomes, elevations, order[0]);
      assert next.Keys == biomes.Keys;
      Sweep(next, elevations, order[1..])
  }

  /**
   * Whatever order the tiles are visited in, the in-place sweep ends with
   * BeachPass: the outcome does not depend on the iteration order.
   */
  lemma {:induction false} SweepIsOrderIndependent(biomes: map<HexPoint, Biome>, elevations: map<HexPoint, int>, order: seq<HexPoint>)
    requires biomes.Keys == elevations.Keys
    requires (set q | q in order) == biomes.Keys
    requires forall i, j :: 0 <= i < j < |order| ==> order[i] != order[j]
    ensures Sweep(biomes, elevations, order) == BeachPass(biomes, elevations)
  {
    SweepFrom(biomes, elevations, biomes, order);
  }

  lemma {:induction false} SweepFrom(biomes: map<HexPoint, Biome>, elevations: map<HexPoint, int>,
                                     current: map<HexPoint, Biome>, order: seq<HexPoint>)
    requires biomes.Keys == elevations.Keys == current.Keys
    requires forall q :: q in order ==> q in current
    requires forall i, j :: 0 <= i < j < |order| ==> order[i] != order[j]
    requires forall q :: q in current && q in order ==> current[q] == biomes[q]
    requires forall q :: q in current && q !in order ==> current[q] == BeachPass(biomes, elevations)[q]
    ensures Sweep(current, elevations, order) == BeachPass(biomes, elevations)
    decreases |order|
  {
    var pass := BeachPass(biomes, elevations);
    if order == [] {
      assert current == pass;
    } else {
      var p := order[0];
      OceanPreserved(biomes, elevations, current);
      var next := Step(current, elevations, p);
      assert next[p] == pass[p];
      forall q | q in next && q in order[1..]
        ensures next[q] == biomes[q]
      {
        assert q != p;
      }
      forall q | q in next && q !in order[1..]
        ensures next[q] == pass[q]
      {
      }
      SweepFrom(biomes, elevations, next, order[1..]);
    }
  }

  /** Whether a neighbour of p in the world is an ocean tile, checking the directions in order. */
  method OceanAdjacent(tiles: map<HexPoint, Tile>, p: HexPoint) returns (found: bool)
    ensures found <==> exists d :: d in Directions && Shift(p, d) in tiles && tiles[Shift(p, d)].biome == OCEAN
  {
    found := false;
    var i := 0;
    while i < |Directions| && !found
      invariant 0 <= i <= |Directions|
      invariant found <==> exists k :: 0 <= k < i && Shift(p, Directions[k]) in tiles && tiles[Shift(p, Directions[k])].biome == OCEAN
    {
      var q := Shift(p, Directions[i]);
      if q in tiles && tiles[q].biome == OCEAN {
        found := true;
      }
      i := i + 1;
    }
    if !found {
      forall d | d in Directions && Shift(p, d) in tiles
        ensures tiles[Shift(p, d)].biome != OCEAN
      {
        assert Directions[Index(d)] == d;
      }
    }
  }

  /** The loop body: the tile at p gets the biome BeachPass gives it; nothing else changes. */
  method VisitTile(tiles: map<HexPoint, Tile>, p: HexPoint, ghost biomes: map<HexPoint, Biome>, ghost elevations: map<HexPoint, int>)
    requires p in tiles && biomes.Keys == elevations.Keys == tiles.Keys
    requires tiles[p].biome == biomes[p] && tiles[p].elevation == elevations[p]
    requires forall q :: q in tiles ==> (tiles[q].biome == OCEAN <==> biomes[q] == OCEAN)
    modifies tiles[p]
    ensures tiles[p].biome == BeachPass(biomes, elevations)[p]
    ensures tiles[p].AllButBiome() == old(tiles[p].AllButBiome())
  {
    var tile := tiles[p];
    if Eligible(tile.biome) && tile.elevation <= MaxBeachElev {
      var ocean := OceanAdjacent(tiles, p);
      assert ocean <==> OceanNear(biomes, p);
      if ocean {
        tile.SetBiome(BEACH);
      }
    }
  }

  /**
   * BeachGenerator.generate: visits the tiles in an unspecified order and
   * sets each one that meets the rule to BEACH. Only biomes change, and
   * they change exactly as BeachPass says.
   */
  method Generate(tiles: map<HexPoint, Tile>)
    requires Positioned(tiles)
    modifies tiles.Values
    ensures BiomeMap(tiles) == BeachPass(old(BiomeMap(tiles)), old(ElevationMap(tiles)))
    ensures forall p :: p in tiles ==> tiles[p].elevation == old(tiles[p].elevation)
    ensures forall p :: p in tiles ==> tiles[p].AllButBiome() == old(tiles[p].AllButBiome())
  {
    ghost var biomes := BiomeMap(tiles);
    ghost var elevations := ElevationMap(tiles);
    VisitAll(tiles, biomes, elevations);
    BiomeMapIs(tiles, BeachPass(biomes, elevations));
  }

  /** The loop of generate, stated against the biomes and elevations it starts from. */
  method VisitAll(tiles: map<HexPoint, Tile>, ghost biomes: map<HexPoint, Biome>, ghost elevations: map<HexPoint, int>)
    requires Positioned(tiles) && HasBiomes(tiles, biomes) && HasElevations(tiles, elevations)
    modifies tiles.Values
    ensures HasBiomes(tiles, BeachPass(biomes, elevations))
    ensures forall p :: p in tiles ==> tiles[p].AllButBiome() == old(tiles[p].AllButBiome())
  {
    ghost var pass := BeachPass(biomes, elevations);
    var todo := tiles.Keys;
    while todo != {}
      invariant todo <= tiles.Keys
      invariant forall p :: p in tiles ==> tiles[p].AllButBiome() == old(tiles[p].AllButBiome())
      invariant forall p :: p in todo ==> tiles[p].biome == biomes[p]
      invariant forall p :: p in tiles && p !in todo ==> tiles[p].biome == pass[p]
      decreases todo
    {
      var p :| p in todo;
      forall q | q in tiles
        ensures tiles[q].biome == OCEAN <==> biomes[q] == OCEAN
      {
        BeachPassFacts(biomes, elevations, q);
      }
      VisitTile(tiles, p, biomes, elevations);
      todo := todo - {p};
    }
  }
}
