/**
 * The biome of a tile. The terraingen Biome enum is not part of this
 * model's source files: the values here are the unset default and the
 * biomes the generator stages assign or test for.
 */
module Biomes {

  datatype Biome = NONE | OCEAN | LAKE | BEACH | PLAINS | FOREST | DESERT

  /** Biome.isWater: open or standing water. */
  predicate IsWater(b: Biome) {
    b == OCEAN || b == LAKE
  }

  /** Biome.isLand: a biome that has been set and is not water. */
  predicate IsLand(b: Biome) {
    b != NONE && !IsWater(b)
  }
}
