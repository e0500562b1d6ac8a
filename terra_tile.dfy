/**
 * The terra Tile: the later package generation of the tile record. Its API
 * matches the terraingen Tile except for water: adding water checks the
 * sign and is dropped on water biomes, removing water checks the sign and
 * removes at most what is there, and the water surface elevation can be
 * queried.
 */
module TerraTile {
  import opened Hex
  import opened Errors
  import opened Biomes

  /** World.ELEVATION_RANGE, inclusive (the terra World is not part of this model; the range is the terraingen one). */
  const MinElevation: int := -50
  const MaxElevation: int := 75

  /** World.HUMIDITY_RANGE, inclusive. */
  const MinHumidity: real := 0.0
  const MaxHumidity: real := 1.0

  /** Range.coerce on the elevation range. */
  function ClampElevation(e: int): int {
    if e < MinElevation then MinElevation else if e > MaxElevation then MaxElevation else e
  }

  /** Range.coerce on the humidity range. */
  function ClampHumidity(h: real): real {
    if h < MinHumidity then MinHumidity else if h > MaxHumidity then MaxHumidity else h
  }

  /** Coercion lands in the range, leaves in-range values alone and is idempotent. */
  lemma ClampFacts(e: int, h: real)
    ensures MinElevation <= ClampElevation(e) <= MaxElevation
    ensures MinElevation <= e <= MaxElevation <==> ClampElevation(e) == e
    ensures ClampElevation(ClampElevation(e)) == ClampElevation(e)
    ensures MinHumidity <= ClampHumidity(h) <= MaxHumidity
    ensures MinHumidity <= h <= MaxHumidity <==> ClampHumidity(h) == h
    ensures ClampHumidity(ClampHumidity(h)) == ClampHumidity(h)
  {
  }

  function Min(a: real, b: real): real {
    if a <= b then a else b
  }

  /** Which way a river crosses one edge of a tile. */
  datatype RiverConnection = ENTRY | EXIT

  /** HexPoint.hashCode, which is not part of this model: any function of the point serves. */
  function PointHash(p: HexPoint): int {
    p.x * 31 + p.y
  }

  class Tile {
    const pos: HexPoint
    /** The owning chunk, identified by its chunk position (chunk equality is by position). */
    var chunk: HexPoint
    var biome: Biome
    var elevation: int
    var humidity: real
    var waterLevel: real
    var totalWaterTraversed: real
    var riverConnections: map<Direction, RiverConnection>

    /** Elevation and humidity lie in the world's ranges, and the water amounts are not negative. */
    ghost predicate Valid()
      reads this
    {
      && MinElevation <= elevation <= MaxElevation
      && MinHumidity <= humidity <= MaxHumidity
      && 0.0 <= waterLevel && 0.0 <= totalWaterTraversed
    }

    constructor(pos: HexPoint, chunk: HexPoint)
      ensures this.pos == pos && this.chunk == chunk
      ensures biome == NONE && elevation == 0 && humidity == 0.0
      ensures waterLevel == 0.0 && totalWaterTraversed == 0.0 && riverConnections == map[]
      ensures Valid()
    {
      this.pos := pos;
      this.chunk := chunk;
      biome := NONE;
      elevation := 0;
      humidity := 0.0;
      waterLevel := 0.0;
      totalWaterTraversed := 0.0;
      riverConnections := map[];
    }

    method SetChunk(c: HexPoint)
      modifies this
      ensures chunk == c
      ensures biome == old(biome) && elevation == old(elevation) && humidity == old(humidity)
      ensures waterLevel == old(waterLevel) && totalWaterTraversed == old(totalWaterTraversed)
      ensures riverConnections == old(riverConnections)
    {
      chunk := c;
    }

    method SetBiome(b: Biome)
      modifies this
      ensures biome == b
      ensures chunk == old(chunk) && elevation == old(elevation) && humidity == old(humidity)
      ensures waterLevel == old(waterLevel) && totalWaterTraversed == old(totalWaterTraversed)
      ensures riverConnections == old(riverConnections)
      ensures old(Valid()) ==> Valid()
    {
      biome := b;
    }

    /** Stores the elevation coerced into the elevation range. */
    method SetElevation(e: int)
      modifies this
      ensures elevation == ClampElevation(e)
      ensures MinElevation <= elevation <= MaxElevation
      ensures chunk == old(chunk) && biome == old(biome) && humidity == old(humidity)
      ensures waterLevel == old(waterLevel) && totalWaterTraversed == old(totalWaterTraversed)
      ensures riverConnections == old(riverConnections)
      ensures old(Valid()) ==> Valid()
    {
      elevation := ClampElevation(e);
    }

    /** Stores the humidity coerced into the humidity range. */
    method SetHumidity(h: real)
      modifies this
      ensures humidity == ClampHumidity(h)
      ensures MinHumidity <= humidity <= MaxHumidity
      ensures chunk == old(chunk) && biome == old(biome) && elevation == old(elevation)
      ensures waterLevel == old(waterLevel) && totalWaterTraversed == old(totalWaterTraversed)
      ensures riverConnections == old(riverConnections)
      ensures old(Valid()) ==> Valid()
    {
      humidity := ClampHumidity(h);
    }

    /** The elevation of the water surface: the ground plus the water standing on it. */
    function GetWaterElevation(): real
      reads this
    {
      elevation as real + waterLevel
    }

    /**
     * Rejects a negative amount; on a land (or unset) biome adds w to the
     * level and to the running total and returns w; on a water biome the
     * water is dropped and 0 is returned.
     */
    method AddWater(w: real) returns (r: Result<real>)
      modifies this
      ensures r.Err? <==> w < 0.0
      ensures r.Err? ==> r.error == IllegalArgument
      ensures r.Ok? && !IsWater(biome) ==> r.value == w
      ensures r.Ok? && IsWater(biome) ==> r.value == 0.0
      ensures r.Ok? ==> waterLevel == old(waterLevel) + r.value
      ensures r.Ok? ==> totalWaterTraversed == old(totalWaterTraversed) + r.value
      ensures r.Ok? ==> GetWaterElevation() == old(GetWaterElevation()) + r.value
      ensures r.Err? ==> waterLevel == old(waterLevel) && totalWaterTraversed == old(totalWaterTraversed)
      ensures chunk == old(chunk) && biome == old(biome) && elevation == old(elevation) && humidity == old(humidity)
      ensures riverConnections == old(riverConnections)
      ensures old(Valid()) ==> Valid()
    {
      if w < 0.0 {
        return Err(IllegalArgument);
      }
      if !IsWater(biome) {
        waterLevel := waterLevel + w;
        totalWaterTraversed := totalWaterTraversed + w;
        return Ok(w);
      }
      r := Ok(0.0);
    }

    /**
     * Rejects a negative amount; otherwise removes and returns as much of w
     * as the tile holds, so a non-negative level stays non-negative.
     */
    method RemoveWater(w: real) returns (r: Result<real>)
      modifies this
      ensures r.Err? <==> w < 0.0
      ensures r.Err? ==> r.error == IllegalArgument && waterLevel == old(waterLevel)
      ensures r.Ok? ==> r.value == Min(old(waterLevel), w)
      ensures r.Ok? ==> waterLevel == old(waterLevel) - r.value
      ensures r.Ok? && old(waterLevel) >= 0.0 ==> 0.0 <= waterLevel <= old(waterLevel)
      ensures r.Ok? ==> GetWaterElevation() == old(GetWaterElevation()) - r.value
      ensures totalWaterTraversed == old(totalWaterTraversed)
      ensures chunk == old(chunk) && biome == old(biome) && elevation == old(elevation) && humidity == old(humidity)
      ensures riverConnections == old(riverConnections)
      ensures old(Valid()) ==> Valid()
    {
      if w < 0.0 {
        return Err(IllegalArgument);
      }
      var toRemove := Min(waterLevel, w);
      waterLevel := waterLevel - toRemove;
      r := Ok(toRemove);
    }

    /** Drains the tile; the running total keeps what has flowed through. */
    method ClearWater()
      modifies this
      ensures waterLevel == 0.0
      ensures GetWaterElevation() == elevation as real
      ensures totalWaterTraversed == old(totalWaterTraversed)
      ensures chunk == old(chunk) && biome == old(biome) && elevation == old(elevation) && humidity == old(humidity)
      ensures riverConnections == old(riverConnections)
      ensures old(Valid()) ==> Valid()
    {
      waterLevel := 0.0;
    }

    /** The river connection on edge d, or None (null) when there is none. */
    function GetRiverConnection(d: Direction): (r: Option<RiverConnection>)
      reads this
      ensures r.Some? <==> d in riverConnections
      ensures r.Some? ==> r.value == riverConnections[d]
    {
      if d in riverConnections then Some(riverConnections[d]) else None
    }

    method AddRiverConnection(d: Direction, c: RiverConnection)
      modifies this
      ensures GetRiverConnection(d) == Some(c)
      ensures forall e :: e != d ==> GetRiverConnection(e) == old(GetRiverConnection(e))
      ensures |riverConnections| <= |Directions|
      ensures chunk == old(chunk) && biome == old(biome) && elevation == old(elevation) && humidity == old(humidity)
      ensures waterLevel == old(waterLevel) && totalWaterTraversed == old(totalWaterTraversed)
    {
      riverConnections := riverConnections[d := c];
      DirectionSetBounded(riverConnections.Keys);
    }

    method RemoveRiverConnection(d: Direction)
      modifies this
      ensures GetRiverConnection(d) == None
      ensures forall e :: e != d ==> GetRiverConnection(e) == old(GetRiverConnection(e))
      ensures chunk == old(chunk) && biome == old(biome) && elevation == old(elevation) && humidity == old(humidity)
      ensures waterLevel == old(waterLevel) && totalWaterTraversed == old(totalWaterTraversed)
    {
      riverConnections := riverConnections - {d};
    }

    /** Tile.equals: the same object, or the same position, biome and elevation; consistent with HashCode. */
    predicate Equals(other: Tile)
      reads this, other
      ensures this == other ==> Equals(other)
      ensures Equals(other) ==> HashCode() == other.HashCode()
    {
      this == other || (pos == other.pos && biome == other.biome && elevation == other.elevation)
    }

    /** Tile.hashCode: the hash of the position only. */
    function HashCode(): int
      reads this
    {
      PointHash(pos)
    }
  }

  /** Tile.equals is an equivalence on tiles. */
  lemma EqualsSymmetricTransitive(a: Tile, b: Tile, c: Tile)
    ensures a.Equals(b) <==> b.Equals(a)
    ensures a.Equals(b) && b.Equals(c) ==> a.Equals(c)
  {
  }
}
