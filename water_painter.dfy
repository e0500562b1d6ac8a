/**
 * WaterPainter: the tiles below sea level are gathered into connected
 * groups, and every group of at least MinOceanSize tiles becomes ocean.
 * Smaller groups are left for the lake stage.
 *
 * The grouping loop as written never advances (AsWrittenLoop); Generate
 * groups the candidates with the clustering it evidently intends.
 */
module WaterPainter {
  import opened Hex
  import opened Errors
  import opened Biomes
  import opened TileSets
  import opened TerraingenTile

  /** MIN_OCEAN_SIZE: the smallest group that becomes ocean. */
  const MinOceanSize: nat := 10

  /** The candidates for water: the tiles with negative elevation. */
  function Candidates(tiles: map<HexPoint, Tile>): (c: set<HexPoint>)
    reads tiles.Values
    ensures forall p :: p in c <==> p in tiles && tiles[p].elevation < 0
  {
    set p | p in tiles && tiles[p].elevation < 0
  }

  /** The state of the grouping loop: the candidates, the groups made so far, and the group being built (None for null). */
  datatype LoopState = LoopState(candidates: set<HexPoint>, clusters: seq<set<HexPoint>>, current: Option<set<HexPoint>>)

  /** One iteration of the grouping loop as written: start an empty group if none is open, then always close it. */
  function AsWrittenStep(st: LoopState): (next: LoopState)
    ensures next.candidates == st.candidates
    ensures |next.clusters| == |st.clusters| + 1
  {
    var current := if st.current.None? then {} else st.current.value;
    LoopState(st.candidates, st.clusters + [current], None)
  }

  /** The loop state after n iterations as written. */
  function AsWrittenLoop(st: LoopState, n: nat): LoopState
    decreases n
  {
    if n == 0 then st else AsWrittenLoop(AsWrittenStep(st), n - 1)
  }

  /**
   * Started from the initial state with at least one candidate, the loop
   * never removes a candidate and appends only empty groups: after any
   * number of iterations its condition still holds, so it never exits.
   */
  lemma {:induction false} AsWrittenLoopNeverExits(candidates: set<HexPoint>, n: nat)
    requires candidates != {}
    ensures AsWrittenLoop(LoopState(candidates, [], None), n).candidates == candidates != {}
    ensures AsWrittenLoop(LoopState(candidates, [], None), n).clusters == seq(n, _ => {})
  {
    AsWrittenLoopAppendsEmpty(candidates, [], n);
  }

  lemma {:induction false} AsWrittenLoopAppendsEmpty(candidates: set<HexPoint>, clusters: seq<set<HexPoint>>, n: nat)
    ensures AsWrittenLoop(LoopState(candidates, clusters, None), n) == LoopState(candidates, clusters + seq(n, _ => {}), None)
    decreases n
  {
    if n > 0 {
      AsWrittenLoopAppendsEmpty(candidates, clusters + [{}], n - 1);
      assert clusters + [{}] + seq(n - 1, _ => {}) == clusters + seq(n, _ => {});
    }
  }

  /** p lies in a group of at least MinOceanSize tiles. */
  predicate InLargeCluster(clusters: seq<set<HexPoint>>, p: HexPoint) {
    exists i :: 0 <= i < |clusters| && p in clusters[i] && |clusters[i]| >= MinOceanSize
  }

  /** The tiles of the groups of at least MinOceanSize tiles. */
  function LargeUnion(clusters: seq<set<HexPoint>>): set<HexPoint> {
    if clusters == [] then {}
    else
      var last := clusters[|clusters| - 1];
      LargeUnion(clusters[..|clusters| - 1]) + (if |last| >= MinOceanSize then last else {})
  }

  /** A tile is in the union of the large groups exactly when some large group holds it. */
  lemma {:induction false} InLargeUnion(clusters: seq<set<HexPoint>>, p: HexPoint)
    ensures p in LargeUnion(clusters) <==> InLargeCluster(clusters, p)
    decreases |clusters|
  {
    if clusters != [] {
      var n := |clusters| - 1;
      InLargeUnion(clusters[..n], p);
      InLargeClusterStep(clusters, n, p);
      assert clusters[..n + 1] == clusters;
    }
  }

  /** One more group in the prefix: p is in a large group of it when it was before or the new group is large and holds p. */
  lemma InLargeClusterStep(clusters: seq<set<HexPoint>>, i: nat, p: HexPoint)
    requires i < |clusters|
    ensures InLargeCluster(clusters[..i + 1], p) <==> InLargeCluster(clusters[..i], p) || (p in clusters[i] && |clusters[i]| >= MinOceanSize)
  {
    assert clusters[..i + 1][i] == clusters[i];
    if InLargeCluster(clusters[..i + 1], p) && !(p in clusters[i] && |clusters[i]| >= MinOceanSize) {
      var k :| 0 <= k < i + 1 && p in clusters[..i + 1][k] && |clusters[..i + 1][k]| >= MinOceanSize;
      assert clusters[..i][k] == clusters[k];
    }
    if InLargeCluster(clusters[..i], p) {
      var k :| 0 <= k < i && p in clusters[..i][k] && |clusters[..i][k]| >= MinOceanSize;
      assert clusters[..i + 1][k] == clusters[k];
    }
  }

  /**
   * Which tiles become ocean depends only on the candidates, not on the
   * order in which the clustering lists the groups: any two clusterings
   * agree on every point.
   */
  lemma OceanChoiceUnique(s: set<HexPoint>, a: seq<set<HexPoint>>, b: seq<set<HexPoint>>, p: HexPoint)
    requires IsClustering(s, a) && IsClustering(s, b)
    ensures InLargeCluster(a, p) <==> InLargeCluster(b, p)
  {
    if InLargeCluster(a, p) {
      var i :| 0 <= i < |a| && p in a[i] && |a[i]| >= MinOceanSize;
      ClusterInside(s, a, i);
      InUnionAll(b, p);
      var j :| 0 <= j < |b| && p in b[j];
      ClusteringUnique(s, a, b, i, j, p);
    }
    if InLargeCluster(b, p) {
      var j :| 0 <= j < |b| && p in b[j] && |b[j]| >= MinOceanSize;
      ClusterInside(s, b, j);
      InUnionAll(a, p);
      var i :| 0 <= i < |a| && p in a[i];
      ClusteringUnique(s, a, b, i, j, p);
    }
  }

  /** The painting loop: every tile of a group of at least MinOceanSize tiles becomes OCEAN; nothing else changes. */
  method PaintOceans(tiles: map<HexPoint, Tile>, clusters: seq<set<HexPoint>>)
    requires Positioned(tiles)
    requires forall i :: 0 <= i < |clusters| ==> clusters[i] <= tiles.Keys
    modifies tiles.Values
    ensures forall p :: p in tiles ==> tiles[p].biome == if InLargeCluster(clusters, p) then OCEAN else old(tiles[p].biome)
    ensures forall p :: p in tiles ==> tiles[p].AllButBiome() == old(tiles[p].AllButBiome())
  {
    for i := 0 to |clusters|
      invariant forall p :: p in tiles ==> tiles[p].biome == if p in LargeUnion(clusters[..i]) then OCEAN else old(tiles[p].biome)
      invariant forall p :: p in tiles ==> tiles[p].AllButBiome() == old(tiles[p].AllButBiome())
    {
      assert clusters[..i + 1][..i] == clusters[..i];
      if |clusters[i]| >= MinOceanSize {
        SetBiomeAll(tiles, clusters[i], OCEAN);
      }
    }
    assert clusters[..|clusters|] == clusters;
    forall p | p in tiles
      ensures p in LargeUnion(clusters) <==> InLargeCluster(clusters, p)
    {
      InLargeUnion(clusters, p);
    }
  }

  /**
   * WaterPainter.generate with the grouping done by connected clustering:
   * exactly the tiles that lie in a connected group of at least
   * MinOceanSize negative-elevation tiles become OCEAN (which group that
   * is does not depend on the clustering, by OceanChoiceUnique); every
   * other biome and every elevation is kept.
   */
  method Generate(tiles: map<HexPoint, Tile>)
    requires Positioned(tiles)
    modifies tiles.Values
    ensures exists cs :: (IsClustering(old(Candidates(tiles)), cs) &&
              forall p :: p in tiles ==> tiles[p].biome == if InLargeCluster(cs, p) then OCEAN else old(tiles[p].biome))
    ensures forall p :: p in tiles ==> tiles[p].elevation == old(tiles[p].elevation)
    ensures forall p :: p in tiles ==> tiles[p].AllButBiome() == old(tiles[p].AllButBiome())
  {
    var candidates := Candidates(tiles);
    var clusters := ClusterSet(candidates);
    forall i | 0 <= i < |clusters|
      ensures clusters[i] <= tiles.Keys
    {
      ClusterInside(candidates, clusters, i);
    }
    PaintOceans(tiles, clusters);
  }
}
