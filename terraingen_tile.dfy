/**
 * The terraingen Tile: one hex cell of the world, identified by its
 * position, whose biome, elevation, humidity, water and river markers the
 * generator stages update in place. Setters coerce values into the world's
 * ranges instead of rejecting them.
 */
module TerraingenTile {
  import opened Hex
  import opened Errors
  import opened Biomes

  /** World.ELEVATION_RANGE, inclusive. */
  const MinElevation: int := -50
  const MaxElevation: int := 75

  /** World.HUMIDITY_RANGE, inclusive. */
  const MinHumidity: real := 0.0
  const MaxHumidity: real := 1.0

  /** Range.coerce on the elevation range. */
  function ClampElevation(e: int): int {
    if e < MinElevation then MinElevation else if e > MaxElevation then MaxElevation else e
  }

  /** Range.coerce on the humidity range. */
  function ClampHumidity(h: real): real {
    if h < MinHumidity then MinHumidity else if h > MaxHumidity then MaxHumidity else h
  }

  /**
   * Coercion lands in the range, leaves in-range values alone, and picks the
   * in-range value nearest to its argument; applying it twice is applying it once.
   */
  lemma ClampElevationIsNearest(e: int, v: int)
    requires MinElevation <= v <= MaxElevation
    ensures MinElevation <= ClampElevation(e) <= MaxElevation
    ensures Abs(e - ClampElevation(e)) <= Abs(e - v)
    ensures ClampElevation(v) == v
    ensures ClampElevation(ClampElevation(e)) == ClampElevation(e)
  {
  }

  lemma ClampHumidityIsNearest(h: real, v: real)
    requires MinHumidity <= v <= MaxHumidity
    ensures MinHumidity <= ClampHumidity(h) <= MaxHumidity
    ensures (if h >= ClampHumidity(h) then h - ClampHumidity(h) else ClampHumidity(h) - h)
            <= (if h >= v then h - v else v - h)
    ensures ClampHumidity(v) == v
    ensures ClampHumidity(ClampHumidity(h)) == ClampHumidity(h)
  {
  }

  /** Which way a river crosses one edge of a tile. */
  datatype RiverConnection = ENTRY | EXIT

  /** HexPoint.hashCode, which is not part of this model: any function of the point serves. */
  function PointHash(p: HexPoint): int {
    p.x * 31 + p.y
  }

  class Tile {
    const pos: HexPoint
    /** The owning chunk, identified by its chunk position (chunk equality is by position). */
    var chunk: HexPoint
    var biome: Biome
    var elevation: int
    var humidity: real
    var waterLevel: real
    var totalWaterTraversed: real
    var riverConnections: map<Direction, RiverConnection>

    /** Elevation and humidity lie in the world's ranges. */
    ghost predicate Valid()
      reads this
    {
      MinElevation <= elevation <= MaxElevation && MinHumidity <= humidity <= MaxHumidity
    }

    /** Every field except the biome, for stating that only the biome changed. */
    ghost function AllButBiome(): (HexPoint, int, real, real, real, map<Direction, RiverConnection>)
      reads this
    {
      (chunk, elevation, humidity, waterLevel, totalWaterTraversed, riverConnections)
    }

    /** Every field except the elevation, for stating that only the elevation changed. */
    ghost function AllButElevation(): (HexPoint, Biome, real, real, real, map<Direction, RiverConnection>)
      reads this
    {
      (chunk, biome, humidity, waterLevel, totalWaterTraversed, riverConnections)
    }

    /** Every field except the biome and the elevation, for stating that only those two changed. */
    ghost function AllButBiomeAndElevation(): (HexPoint, real, real, real, map<Direction, RiverConnection>)
      reads this
    {
      (chunk, humidity, waterLevel, totalWaterTraversed, riverConnections)
    }

    /** Every field except the water amounts, for stating that only the water changed. */
    ghost function AllButWater(): (HexPoint, Biome, int, real, map<Direction, RiverConnection>)
      reads this
    {
      (chunk, biome, elevation, humidity, riverConnections)
    }

    /** The fields no generator stage after elevation changes: chunk, elevation, humidity and river connections. */
    ghost function Settled(): (HexPoint, int, real, map<Direction, RiverConnection>)
      reads this
    {
      (chunk, elevation, humidity, riverConnections)
    }

    constructor(pos: HexPoint, chunk: HexPoint)
      ensures this.pos == pos && this.chunk == chunk
      ensures biome == NONE && elevation == 0 && humidity == 0.0
      ensures waterLevel == 0.0 && totalWaterTraversed == 0.0 && riverConnections == map[]
      ensures Valid()
    {
      this.pos := pos;
      this.chunk := chunk;
      biome := NONE;
      elevation := 0;
      humidity := 0.0;
      waterLevel := 0.0;
      totalWaterTraversed := 0.0;
      riverConnections := map[];
    }

    method SetChunk(c: HexPoint)
      modifies this
      ensures chunk == c
      ensures biome == old(biome) && elevation == old(elevation) && humidity == old(humidity)
      ensures waterLevel == old(waterLevel) && totalWaterTraversed == old(totalWaterTraversed)
      ensures riverConnections == old(riverConnections)
    {
      chunk := c;
    }

    method SetBiome(b: Biome)
      modifies this
      ensures biome == b
      ensures chunk == old(chunk) && elevation == old(elevation) && humidity == old(humidity)
      ensures waterLevel == old(waterLevel) && totalWaterTraversed == old(totalWaterTraversed)
      ensures riverConnections == old(riverConnections)
      ensures old(Valid()) ==> Valid()
    {
      biome := b;
    }

    /** Stores the elevation coerced into the elevation range. */
    method SetElevation(e: int)
      modifies this
      ensures elevation == ClampElevation(e)
      ensures MinElevation <= elevation <= MaxElevation
      ensures chunk == old(chunk) && biome == old(biome) && humidity == old(humidity)
      ensures waterLevel == old(waterLevel) && totalWaterTraversed == old(totalWaterTraversed)
      ensures riverConnections == old(riverConnections)
      ensures old(Valid()) ==> Valid()
    {
      elevation := ClampElevation(e);
    }

    /** Stores the humidity coerced into the humidity range. */
    method SetHumidity(h: real)
      modifies this
      ensures humidity == ClampHumidity(h)
      ensures MinHumidity <= humidity <= MaxHumidity
      ensures chunk == old(chunk) && biome == old(biome) && elevation == old(elevation)
      ensures waterLevel == old(waterLevel) && totalWaterTraversed == old(totalWaterTraversed)
      ensures riverConnections == old(riverConnections)
      ensures old(Valid()) ==> Valid()
    {
      humidity := ClampHumidity(h);
    }

    /** Adds w to the level and to the running total; neither the sign nor the biome is checked. */
    method AddWater(w: real)
      modifies this
      ensures waterLevel == old(waterLevel) + w
      ensures totalWaterTraversed == old(totalWaterTraversed) + w
      ensures chunk == old(chunk) && biome == old(biome) && elevation == old(elevation) && humidity == old(humidity)
      ensures riverConnections == old(riverConnections)
    {
      waterLevel := waterLevel + w;
      totalWaterTraversed := totalWaterTraversed + w;
    }

    /** Removes exactly w, or fails with IllegalArgument when more is asked for than the tile holds. */
    method RemoveWater(w: real) returns (r: Result<()>)
      modifies this
      ensures r.Err? <==> w > old(waterLevel)
      ensures r.Err? ==> r.error == IllegalArgument && waterLevel == old(waterLevel)
      ensures r.Ok? ==> waterLevel == old(waterLevel) - w
      ensures r.Ok? && w >= 0.0 ==> 0.0 <= waterLevel <= old(waterLevel)
      ensures totalWaterTraversed == old(totalWaterTraversed)
      ensures chunk == old(chunk) && biome == old(biome) && elevation == old(elevation) && humidity == old(humidity)
      ensures riverConnections == old(riverConnections)
    {
      if w > waterLevel {
        return Err(IllegalArgument);
      }
      waterLevel := waterLevel - w;
      r := Ok(());
    }

    /** Drains the tile; the running total keeps what has flowed through. */
    method ClearWater()
      modifies this
      ensures waterLevel == 0.0
      ensures totalWaterTraversed == old(totalWaterTraversed)
      ensures chunk == old(chunk) && biome == old(biome) && elevation == old(elevation) && humidity == old(humidity)
      ensures riverConnections == old(riverConnections)
    {
      waterLevel := 0.0;
    }

    /** The river connection on edge d, or None (null) when there is none. */
    function GetRiverConnection(d: Direction): (r: Option<RiverConnection>)
      reads this
      ensures r.Some? <==> d in riverConnections
      ensures r.Some? ==> r.value == riverConnections[d]
    {
      if d in riverConnections then Some(riverConnections[d]) else None
    }

    method AddRiverConnection(d: Direction, c: RiverConnection)
      modifies this
      ensures GetRiverConnection(d) == Some(c)
      ensures forall e :: e != d ==> GetRiverConnection(e) == old(GetRiverConnection(e))
      ensures |riverConnections| <= |Directions|
      ensures chunk == old(chunk) && biome == old(biome) && elevation == old(elevation) && humidity == old(humidity)
      ensures waterLevel == old(waterLevel) && totalWaterTraversed == old(totalWaterTraversed)
    {
      riverConnections := riverConnections[d := c];
      DirectionSetBounded(riverConnections.Keys);
    }

    method RemoveRiverConnection(d: Direction)
      modifies this
      ensures GetRiverConnection(d) == None
      ensures forall e :: e != d ==> GetRiverConnection(e) == old(GetRiverConnection(e))
      ensures chunk == old(chunk) && biome == old(biome) && elevation == old(elevation) && humidity == old(humidity)
      ensures waterLevel == old(waterLevel) && totalWaterTraversed == old(totalWaterTraversed)
    {
      riverConnections := riverConnections - {d};
    }

    /** Tile.equals: the same object, or the same position, biome and elevation; consistent with HashCode. */
    predicate Equals(other: Tile)
      reads this, other
      ensures this == other ==> Equals(other)
      ensures Equals(other) ==> HashCode() == other.HashCode()
    {
      this == other || (pos == other.pos && biome == other.biome && elevation == other.elevation)
    }

    /** Tile.hashCode: the hash of the position only. */
    function HashCode(): int
      reads this
    {
      PointHash(pos)
    }
  }

  /** A world's tile map (WorldBuilder.getTiles): each key holds the tile at that position, so distinct keys hold distinct tiles. */
  predicate Positioned(tiles: map<HexPoint, Tile>) {
    forall p :: p in tiles ==> tiles[p].pos == p
  }

  /** The biome of every tile of the map. */
  function BiomeMap(tiles: map<HexPoint, Tile>): map<HexPoint, Biome>
    reads tiles.Values
  {
    map p | p in tiles :: tiles[p].biome
  }

  /** The elevation of every tile of the map. */
  function ElevationMap(tiles: map<HexPoint, Tile>): map<HexPoint, int>
    reads tiles.Values
  {
    map p | p in tiles :: tiles[p].elevation
  }

  /** The elevations of the tiles agree with the map elev: ElevationMap without building the map. */
  ghost predicate HasElevations(tiles: map<HexPoint, Tile>, elev: map<HexPoint, int>)
    reads tiles.Values
  {
    elev.Keys == tiles.Keys && forall q :: q in tiles ==> tiles[q].elevation == elev[q]
  }

  /** The biomes of the tiles agree with the map biomes: BiomeMap without building the map. */
  ghost predicate HasBiomes(tiles: map<HexPoint, Tile>, biomes: map<HexPoint, Biome>)
    reads tiles.Values
  {
    biomes.Keys == tiles.Keys && forall q :: q in tiles ==> tiles[q].biome == biomes[q]
  }

  lemma BiomeMapIs(tiles: map<HexPoint, Tile>, biomes: map<HexPoint, Biome>)
    requires HasBiomes(tiles, biomes)
    ensures BiomeMap(tiles) == biomes
  {
  }

  /** setBiome(b) on every tile of s, in an unspecified order. */
  method SetBiomeAll(tiles: map<HexPoint, Tile>, s: set<HexPoint>, b: Biome)
    requires Positioned(tiles) && s <= tiles.Keys
    modifies tiles.Values
    ensures forall p :: p in tiles ==> tiles[p].biome == if p in s then b else old(tiles[p].biome)
    ensures forall p :: p in tiles ==> tiles[p].AllButBiome() == old(tiles[p].AllButBiome())
  {
    var rest := s;
    while rest != {}
      invariant rest <= s
      invariant forall p :: p in tiles ==> tiles[p].biome == if p in s - rest then b else old(tiles[p].biome)
      invariant forall p :: p in tiles ==> tiles[p].AllButBiome() == old(tiles[p].AllButBiome())
      decreases rest
    {
      var p :| p in rest;
      tiles[p].SetBiome(b);
      rest := rest - {p};
    }
  }

  /** setElevation(e) on every tile of s, in an unspecified order. */
  method SetElevationAll(tiles: map<HexPoint, Tile>, s: set<HexPoint>, e: int)
    requires Positioned(tiles) && s <= tiles.Keys
    modifies tiles.Values
    ensures forall p :: p in tiles ==> tiles[p].elevation == if p in s then ClampElevation(e) else old(tiles[p].elevation)
    ensures forall p :: p in tiles ==> tiles[p].AllButElevation() == old(tiles[p].AllButElevation())
  {
    var rest := s;
    while rest != {}
      invariant rest <= s
      invariant forall p :: p in tiles ==> tiles[p].elevation == if p in s - rest then ClampElevation(e) else old(tiles[p].elevation)
      invariant forall p :: p in tiles ==> tiles[p].AllButElevation() == old(tiles[p].AllButElevation())
      decreases rest
    {
      var p :| p in rest;
      tiles[p].SetElevation(e);
      rest := rest - {p};
    }
  }

  /** Tile.equals is an equivalence on tiles. */
  lemma EqualsSymmetricTransitive(a: Tile, b: Tile, c: Tile)
    ensures a.Equals(b) <==> b.Equals(a)
    ensures a.Equals(b) && b.Equals(c) ==> a.Equals(c)
  {
  }
}
