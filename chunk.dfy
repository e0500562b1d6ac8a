/**
 * The terra Chunk: a SIDE_LENGTH by SIDE_LENGTH parallelogram of tiles,
 * addressed by a chunk position. Building a chunk creates every one of its
 * tiles, each owned by the chunk; a tile position maps back to its chunk
 * by floor division; the overlay colour is derived from the position; and
 * chunks compare and hash by position alone.
 *
 * TileSet is not part of this model's source files; a chunk's tiles are a
 * map from position to tile, which is what TileSet's position-keyed
 * lookups amount to.
 */
module TerraChunk {
  import opened Hex
  import opened Biomes
  import opened TerraTile

  /** SIDE_LENGTH: the number of tiles along each side of a chunk. */
  const SideLength: int := 100

  /** TOTAL_TILES: the number of tiles in every chunk. */
  const TotalTiles: int := SideLength * SideLength

  const OverlayRgbFactor: int := 50
  const OverlayAlpha: int := 100

  /** An RGBA colour with integer components. */
  datatype Color = Color(r: int, g: int, b: int, a: int)

  // ---------------------------------------------------------------------
  // Tile position to chunk position

  /** Math.floorDiv for a positive divisor: the quotient rounded towards minus infinity. */
  function FloorDiv(a: int, b: int): (q: int)
    requires b > 0
    ensures b * q <= a < b * q + b
  {
    a / b
  }

  /** For the chunk side, the floor quotient is the only integer with that property. */
  lemma FloorDivUnique(a: int, q: int)
    requires SideLength * q <= a < SideLength * q + SideLength
    ensures FloorDiv(a, SideLength) == q
  {
  }

  /** getChunkPosForTile: the chunk whose parallelogram holds the tile position. */
  function ChunkPosForTile(tilePos: HexPoint): HexPoint {
    HexPoint(FloorDiv(tilePos.x, SideLength), FloorDiv(tilePos.y, SideLength))
  }

  /** The tile positions of the chunk at pos: both coordinates within SIDE_LENGTH of the chunk's start. */
  predicate InChunk(pos: HexPoint, p: HexPoint) {
    && pos.x * SideLength <= p.x < pos.x * SideLength + SideLength
    && pos.y * SideLength <= p.y < pos.y * SideLength + SideLength
  }

  /** A tile position lies in the chunk at pos exactly when getChunkPosForTile maps it to pos. */
  lemma ChunkPosRoundTrip(pos: HexPoint, p: HexPoint)
    ensures InChunk(pos, p) <==> ChunkPosForTile(p) == pos
  {
    if InChunk(pos, p) {
      FloorDivUnique(p.x, pos.x);
      FloorDivUnique(p.y, pos.y);
    }
  }

  /** Every tile position is in exactly one chunk: the chunks tile the plane. */
  lemma ChunksPartition(p: HexPoint, c1: HexPoint, c2: HexPoint)
    ensures InChunk(ChunkPosForTile(p), p)
    ensures InChunk(c1, p) && InChunk(c2, p) ==> c1 == c2
  {
    ChunkPosRoundTrip(ChunkPosForTile(p), p);
    ChunkPosRoundTrip(c1, p);
    ChunkPosRoundTrip(c2, p);
  }

  // ---------------------------------------------------------------------
  // Overlay colour

  /** The int value Java keeps of a product: the low 32 bits, read as two's complement. */
  function Wrap32(n: int): (r: int)
    ensures -0x8000_0000 <= r < 0x8000_0000
  {
    (n + 0x8000_0000) % 0x1_0000_0000 - 0x8000_0000
  }

  /** One overlay component, (c * OVERLAY_RGB_FACTOR) & 0xff: the low byte of the product. */
  function OverlayComponent(c: int): int {
    Wrap32(c * OverlayRgbFactor) % 0x100
  }

  /** The overlay colour of the chunk at pos: one component per cube coordinate, alpha OVERLAY_ALPHA. */
  function OverlayColorFor(pos: HexPoint): Color {
    Color(OverlayComponent(pos.x), OverlayComponent(pos.y), OverlayComponent(pos.z()), OverlayAlpha)
  }

  /**
   * Each component is a valid colour byte, the 32-bit overflow of the
   * product does not change it, and chunk positions 256 / gcd(50, 256) =
   * 128 apart share it.
   */
  lemma OverlayComponentFacts(c: int)
    ensures 0 <= OverlayComponent(c) <= 255
    ensures OverlayComponent(c) == (c * OverlayRgbFactor) % 0x100
    ensures OverlayComponent(c + 128) == OverlayComponent(c)
  {
    var n := c * OverlayRgbFactor;
    var k := (n + 0x8000_0000) / 0x1_0000_0000;
    assert Wrap32(n) == n - 0x1_0000_0000 * k;
    assert n - 0x1_0000_0000 * k == n + 0x100 * (-0x100_0000 * k);
    ModShift(n, -0x100_0000 * k);
    assert (c + 128) * OverlayRgbFactor == n + 0x100 * 25;
    var m := (c + 128) * OverlayRgbFactor;
    var k' := (m + 0x8000_0000) / 0x1_0000_0000;
    assert Wrap32(m) == m - 0x1_0000_0000 * k';
    assert m - 0x1_0000_0000 * k' == n + 0x100 * (25 - 0x100_0000 * k');
    ModShift(n, 25 - 0x100_0000 * k');
  }

  /** Adding a multiple of 256 leaves the low byte alone. */
  lemma ModShift(n: int, j: int)
    ensures (n + 0x100 * j) % 0x100 == n % 0x100
  {
    var q := n / 0x100;
    var r := n % 0x100;
    assert n + 0x100 * j == 0x100 * (q + j) + r;
  }

  /** Every overlay colour has byte components and alpha OVERLAY_ALPHA. */
  lemma OverlayColorInRange(pos: HexPoint)
    ensures var col := OverlayColorFor(pos);
            && 0 <= col.r <= 255 && 0 <= col.g <= 255 && 0 <= col.b <= 255
            && col.a == OverlayAlpha
  {
    OverlayComponentFacts(pos.x);
    OverlayComponentFacts(pos.y);
    OverlayComponentFacts(pos.z());
  }

  // ---------------------------------------------------------------------
  // The chunk

  class Chunk {
    /** Position of this chunk relative to other chunks. */
    const pos: HexPoint
    const tiles: map<HexPoint, Tile>
    const overlayColor: Color

    /** The copy constructor: a chunk with exactly the given parts. */
    constructor(pos: HexPoint, tiles: map<HexPoint, Tile>, overlayColor: Color)
      ensures this.pos == pos && this.tiles == tiles && this.overlayColor == overlayColor
    {
      this.pos := pos;
      this.tiles := tiles;
      this.overlayColor := overlayColor;
    }

    /** immutableCopy: a new chunk with the same position, the same tiles and the same colour. */
    method ImmutableCopy() returns (c: Chunk)
      ensures fresh(c) && c != this
      ensures c.pos == pos && c.tiles == tiles && c.overlayColor == overlayColor
      ensures c.Equals(this) && c.HashCode() == HashCode()
    {
      c := new Chunk(pos, tiles, overlayColor);
    }

    /** Chunk.equals: two chunks are equal when they sit at the same position. */
    predicate Equals(other: Chunk?)
      ensures Equals(other) <==> other != null && pos == other.pos
      ensures other == this ==> Equals(other)
    {
      other == this || (other != null && pos == other.pos)
    }

    /** Chunk.hashCode: the hash of the position. */
    function HashCode(): int {
      PointHash(pos)
    }
  }

  /** Chunk equality is an equivalence, and equal chunks have equal hashes. */
  lemma ChunkEqualsFacts(a: Chunk, b: Chunk, c: Chunk)
    ensures a.Equals(a)
    ensures a.Equals(b) <==> b.Equals(a)
    ensures a.Equals(b) && b.Equals(c) ==> a.Equals(c)
    ensures a.Equals(b) ==> a.HashCode() == b.HashCode()
  {
  }

  /** A freshly made tile of the chunk at pos. */
  ghost predicate NewTileOf(pos: HexPoint, p: HexPoint, t: Tile)
    reads t
  {
    && t.pos == p && t.chunk == pos
    && t.biome == NONE && t.elevation == 0 && t.humidity == 0.0
    && t.waterLevel == 0.0 && t.totalWaterTraversed == 0.0 && t.riverConnections == map[]
  }

  /**
   * createChunkWithTiles: builds every tile of the chunk at pos, row by
   * row, each one a new tile owned by the chunk, and returns an immutable
   * copy. The chunk holds exactly TOTAL_TILES tiles, keyed by their own
   * positions, which are exactly the positions getChunkPosForTile maps to
   * pos.
   */
  method CreateChunkWithTiles(pos: HexPoint) returns (chunk: Chunk)
    ensures fresh(chunk) && chunk.pos == pos && chunk.overlayColor == OverlayColorFor(pos)
    ensures |chunk.tiles| == TotalTiles
    ensures forall p :: p in chunk.tiles <==> InChunk(pos, p)
    ensures forall p :: p in chunk.tiles <==> ChunkPosForTile(p) == pos
    ensures forall p :: p in chunk.tiles ==> fresh(chunk.tiles[p]) && NewTileOf(pos, p, chunk.tiles[p])
  {
    var tiles: map<HexPoint, Tile> := map[];
    var startX := pos.x * SideLength;
    var startY := pos.y * SideLength;
    for x := startX to startX + SideLength
      invariant |tiles| == (x - startX) * SideLength
      invariant forall p :: p in tiles <==> startX <= p.x < x && startY <= p.y < startY + SideLength
      invariant forall p :: p in tiles ==> fresh(tiles[p]) && NewTileOf(pos, p, tiles[p])
    {
      tiles := AddRow(pos, x, startY, tiles);
    }
    var building := new Chunk(pos, tiles, OverlayColorFor(pos));
    chunk := building.ImmutableCopy();
    forall p
      ensures p in chunk.tiles <==> ChunkPosForTile(p) == pos
    {
      ChunkPosRoundTrip(pos, p);
    }
  }

  /** The inner loop of createChunkWithTiles: one new tile at (x, y) for each y of the row, added to tiles. */
  method AddRow(pos: HexPoint, x: int, startY: int, tiles: map<HexPoint, Tile>) returns (tiles': map<HexPoint, Tile>)
    requires forall p :: p in tiles ==> p.x < x
    ensures |tiles'| == |tiles| + SideLength
    ensures forall p :: p in tiles' <==> p in tiles || (p.x == x && startY <= p.y < startY + SideLength)
    ensures forall p :: p in tiles ==> tiles'[p] == tiles[p]
    ensures forall p :: p in tiles' && p !in tiles ==> fresh(tiles'[p]) && NewTileOf(pos, p, tiles'[p])
  {
    tiles' := tiles;
    for y := startY to startY + SideLength
      invariant |tiles'| == |tiles| + (y - startY)
      invariant forall p :: p in tiles' <==> p in tiles || (p.x == x && startY <= p.y < y)
      invariant forall p :: p in tiles ==> tiles'[p] == tiles[p]
      invariant forall p :: p in tiles' && p !in tiles ==> fresh(tiles'[p]) && NewTileOf(pos, p, tiles'[p])
    {
      var tilePos := HexPoint(x, y);
      assert tilePos !in tiles';
      var tile := NewTile(pos, tilePos);
      tiles' := tiles'[tilePos := tile];
    }
  }

  /** The body of the inner loop: a new tile at tilePos, constructed with the chunk and then set to it. */
  method NewTile(pos: HexPoint, tilePos: HexPoint) returns (tile: Tile)
    ensures fresh(tile) && NewTileOf(pos, tilePos, tile)
  {
    tile := new Tile(tilePos, pos);
    tile.SetChunk(pos);
  }
}
