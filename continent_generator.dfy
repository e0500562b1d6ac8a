/**
 * ContinentGenerator: grows continents from random seeds over the pool of
 * available tiles, merges the ones that touched, fills small enclosed
 * holes, trims thin coast, lowers everything else to ocean floor with a
 * shallow coast ring, and paints biome blotches onto each continent.
 *
 * The generator keeps the tile-to-continent map as a field. Continents are
 * Cluster objects compared by identity in the source; here they are the
 * entries of a list and a continent's identity is its index. Random
 * choices are nondeterministic choices from the collection or range.
 */
module ContinentGenerator {
  import opened Hex
  import opened Errors
  import opened Biomes
  import opened TileSets
  import opened TerraingenTile
  import WaterPainter

  /** CONTINENT_COUNT_RANGE, inclusive. */
  const MinContinentCount: nat := 10
  const MaxContinentCount: nat := 20

  /** CONTINENT_SIZE_RANGE, inclusive: the target sizes, and the pool size below which no continent is started. */
  const MinContinentSize: nat := 100
  const MaxContinentSize: nat := 1000

  /** AVERAGE_BIOME_SIZE: one blotch seed per this many continent tiles. */
  const AverageBiomeSize: nat := 10

  /** The elevation of open ocean floor and of the coast ring around each continent. */
  const OceanFloorElevation: int := -20
  const CoastElevation: int := -6

  /** BIOME_WEIGHTS: the biomes a blotch can be painted, with their relative chances. */
  const BiomeWeights: map<Biome, nat> := map[PLAINS := 10, FOREST := 10, DESERT := 2]

  // ---------------------------------------------------------------------
  // The bookkeeping invariant

  /**
   * The world splits into the available pool and pairwise-disjoint
   * continents, and the tile map sends exactly the continent tiles to the
   * continent holding them.
   */
  ghost predicate Partition(world: set<HexPoint>, available: set<HexPoint>, continents: seq<set<HexPoint>>, owner: map<HexPoint, nat>) {
    && available <= world
    && (forall i :: 0 <= i < |continents| ==> continents[i] <= world && continents[i] !! available)
    && PairwiseDisjoint(continents)
    && (forall t :: t in owner ==> owner[t] < |continents| && t in continents[owner[t]])
    && (forall i, t :: 0 <= i < |continents| && t in continents[i] ==> t in owner)
    && (forall t :: t in world && t !in available ==> t in owner)
  }

  /** The map names the one continent that holds a continent tile. */
  lemma OwnerIs(world: set<HexPoint>, available: set<HexPoint>, continents: seq<set<HexPoint>>, owner: map<HexPoint, nat>,
                i: nat, t: HexPoint)
    requires Partition(world, available, continents, owner) && i < |continents| && t in continents[i]
    ensures t in owner && owner[t] == i
  {
  }

  /** Every world tile is either available or in exactly one continent, never both. */
  lemma ExactlyOnePlace(world: set<HexPoint>, available: set<HexPoint>, continents: seq<set<HexPoint>>, owner: map<HexPoint, nat>,
                        t: HexPoint)
    requires Partition(world, available, continents, owner) && t in world
    ensures t in available <==> !exists i :: 0 <= i < |continents| && t in continents[i]
    ensures forall i, j :: 0 <= i < |continents| && 0 <= j < |continents| && t in continents[i] && t in continents[j] ==> i == j
  {
    if t !in available {
      assert t in continents[owner[t]];
    }
    forall i, j | 0 <= i < |continents| && 0 <= j < |continents| && t in continents[i] && t in continents[j]
      ensures i == j
    {
      OwnerIs(world, available, continents, owner, i, t);
      OwnerIs(world, available, continents, owner, j, t);
    }
  }

  /** The tiles with an entry in the map are exactly the continent tiles. */
  lemma OwnerKeys(world: set<HexPoint>, available: set<HexPoint>, continents: seq<set<HexPoint>>, owner: map<HexPoint, nat>)
    requires Partition(world, available, continents, owner)
    ensures owner.Keys == UnionAll(continents)
  {
    forall t | t in UnionAll(continents)
      ensures t in owner
    {
      InUnionAll(continents, t);
    }
    forall t | t in owner
      ensures t in UnionAll(continents)
    {
      InUnionAll(continents, t);
    }
  }

  /** Replacing the continent just appended is appending the replacement. */
  lemma ReplaceLast(cs: seq<set<HexPoint>>, c: set<HexPoint>, c': set<HexPoint>)
    ensures (cs + [c])[|cs| := c'] == cs + [c']
  {
  }

  /** Taking one more tile out of the pool: the pool is the original pool minus the grown continent. */
  lemma PoolShrinks(pool0: set<HexPoint>, c: set<HexPoint>, t: HexPoint)
    ensures (pool0 - c) - {t} == pool0 - (c + {t})
  {
  }

  /** A new, empty continent keeps the split. */
  lemma AppendEmptyKeepsPartition(world: set<HexPoint>, available: set<HexPoint>, continents: seq<set<HexPoint>>, owner: map<HexPoint, nat>)
    requires Partition(world, available, continents, owner)
    ensures Partition(world, available, continents + [{}], owner)
  {
    var cs := continents + [{}];
    assert forall i :: 0 <= i < |continents| ==> cs[i] == continents[i];
  }

  /** Moving an available tile into a continent keeps the split. */
  lemma AddKeepsPartition(world: set<HexPoint>, available: set<HexPoint>, continents: seq<set<HexPoint>>, owner: map<HexPoint, nat>,
                          t: HexPoint, i: nat)
    requires Partition(world, available, continents, owner) && i < |continents| && t in available
    ensures Partition(world, available - {t}, continents[i := continents[i] + {t}], owner[t := i])
  {
    var cs := continents[i := continents[i] + {t}];
    forall j | 0 <= j < |continents| && j != i
      ensures t !in continents[j]
    {
    }
    assert PairwiseDisjoint(cs) by {
      forall j, k | 0 <= j < k < |cs|
        ensures cs[j] !! cs[k]
      {
        assert continents[j] !! continents[k];
      }
    }
  }

  /** Moving a continent tile back into the pool keeps the split. */
  lemma RemoveKeepsPartition(world: set<HexPoint>, available: set<HexPoint>, continents: seq<set<HexPoint>>, owner: map<HexPoint, nat>,
                             t: HexPoint, i: nat)
    requires Partition(world, available, continents, owner) && i < |continents| && t in continents[i]
    ensures Partition(world, available + {t}, continents[i := continents[i] - {t}], owner - {t})
  {
    var cs := continents[i := continents[i] - {t}];
    assert PairwiseDisjoint(cs) by {
      forall j, k | 0 <= j < k < |cs|
        ensures cs[j] !! cs[k]
      {
        assert continents[j] !! continents[k];
      }
    }
    forall j | 0 <= j < |cs| && j != i
      ensures t !in cs[j]
    {
      ExactlyOnePlace(world, available, continents, owner, t);
    }
    forall s | s in owner - {t}
      ensures (owner - {t})[s] < |cs| && s in cs[(owner - {t})[s]]
    {
    }
  }

  /** Replacing the continents by a clustering of their union, with a map that names each tile's new cluster, keeps the split. */
  lemma ReclusterKeepsPartition(world: set<HexPoint>, available: set<HexPoint>, continents: seq<set<HexPoint>>, owner: map<HexPoint, nat>,
                                clusters: seq<set<HexPoint>>, owner': map<HexPoint, nat>)
    requires Partition(world, available, continents, owner)
    requires IsClustering(UnionAll(continents), clusters)
    requires owner'.Keys == UnionAll(continents)
    requires forall k, t :: 0 <= k < |clusters| && t in clusters[k] ==> t in owner' && owner'[t] == k
    ensures Partition(world, available, clusters, owner')
  {
    var all := UnionAll(continents);
    OwnerKeys(world, available, continents, owner);
    forall k | 0 <= k < |clusters|
      ensures clusters[k] <= world && clusters[k] !! available
    {
      ClusterInside(all, clusters, k);
      forall t | t in clusters[k]
        ensures t in world && t !in available
      {
        assert t in owner;
      }
    }
    forall t | t in owner'
      ensures owner'[t] < |clusters| && t in clusters[owner'[t]]
    {
      InUnionAll(clusters, t);
    }
  }

  // ---------------------------------------------------------------------
  // Coast smoothing test

  /**
   * smoothCoast's removal test: t borders at most one other tile of c, or
   * exactly two that are not next to each other on the compass (a bridge).
   */
  predicate Removable(c: set<HexPoint>, t: HexPoint) {
    var dirs := DirsIn(c, t);
    |dirs| <= 1 || (|dirs| == 2 && forall a, b :: a in dirs && b in dirs ==> !DirsAdjacent(a, b))
  }

  /** No tile of c passes the removal test: the fixed point smoothCoast stops at. */
  predicate Smooth(c: set<HexPoint>) {
    forall t {:trigger Removable(c, t)} :: t in c ==> !Removable(c, t)
  }

  /**
   * c is the greatest smooth part of c0: smooth, inside c0, and holding
   * every smooth part of c0, so smoothing removes no tile it need not.
   */
  ghost predicate GreatestSmooth(c0: set<HexPoint>, c: set<HexPoint>) {
    c <= c0 && Smooth(c) && forall s :: s <= c0 && Smooth(s) ==> s <= c
  }

  /** A tile that passes the removal test in c still passes it in any part of c that keeps it. */
  lemma RemovableShrinks(c: set<HexPoint>, c': set<HexPoint>, t: HexPoint)
    requires Removable(c, t) && c' <= c
    ensures Removable(c', t)
  {
    var dirs, dirs' := DirsIn(c, t), DirsIn(c', t);
    assert dirs' <= dirs;
    assert dirs == dirs' + (dirs - dirs');
    assert |dirs'| <= |dirs|;
  }

  /** A tile that passes the removal test in c lies in no smooth part of c. */
  lemma RemovableInNoSmooth(c: set<HexPoint>, t: HexPoint, s: set<HexPoint>)
    requires Removable(c, t) && s <= c && Smooth(s)
    ensures t !in s
  {
    if t in s {
      RemovableShrinks(c, s, t);
      assert false;
    }
  }

  /** The union of two smooth sets is smooth: a tile keeps every neighbour it had in its own part. */
  lemma SmoothUnion(a: set<HexPoint>, b: set<HexPoint>)
    requires Smooth(a) && Smooth(b)
    ensures Smooth(a + b)
  {
    forall t | t in a + b
      ensures !Removable(a + b, t)
    {
      if Removable(a + b, t) {
        if t in a {
          RemovableShrinks(a + b, a, t);
        } else {
          RemovableShrinks(a + b, b, t);
        }
        assert false;
      }
    }
  }

  /** The greatest smooth part of a set is unique. */
  lemma GreatestSmoothUnique(c0: set<HexPoint>, c: set<HexPoint>, d: set<HexPoint>)
    requires GreatestSmooth(c0, c) && GreatestSmooth(c0, d)
    ensures c == d
  {
    assert c <= d && d <= c;
  }

  /** A set of two directions is made of any two distinct members. */
  lemma PairIsAll(dirs: set<Direction>, a: Direction, b: Direction)
    requires |dirs| == 2 && a in dirs && b in dirs && a != b
    ensures dirs == {a, b}
  {
    var rest := dirs - {a, b};
    assert dirs == {a, b} + rest;
    assert |dirs| == |{a, b}| + |rest|;
  }

  /** The test on two members of a two-direction set, as the loop makes it. */
  lemma RemovableTwo(c: set<HexPoint>, t: HexPoint, a: Direction, b: Direction)
    requires |DirsIn(c, t)| == 2 && a in DirsIn(c, t) && b in DirsIn(c, t) && a != b
    ensures Removable(c, t) <==> !DirsAdjacent(a, b)
  {
    PairIsAll(DirsIn(c, t), a, b);
  }

  // ---------------------------------------------------------------------
  // The generator

  /** The coast ring: tiles of the world next to some continent and outside it. */
  ghost predicate OnCoast(world: set<HexPoint>, continents: seq<set<HexPoint>>, t: HexPoint) {
    exists i :: 0 <= i < |continents| && t in Frontier(world, continents[i])
  }

  /** The coast-ring tiles are world tiles. */
  lemma FrontierInWorld(world: set<HexPoint>, c: set<HexPoint>)
    ensures Frontier(world, c) <= world
  {
  }

  /**
   * Cluster.selectTiles with no minimum spacing: n distinct tiles of c,
   * picked one at a time.
   */
  method SelectTiles(c: set<HexPoint>, n: nat) returns (s: set<HexPoint>)
    requires n <= |c|
    ensures s <= c && |s| == n
  {
    s := {};
    while |s| < n
      invariant s <= c && |s| <= n
      decreases n - |s|
    {
      assert c == s + (c - s);
      var x :| x in c - s;
      s := s + {x};
    }
  }

  /** Every continent from index n0 on is non-empty, connected and at most the largest target size. */
  ghost predicate NewContinentsGrown(continents: seq<set<HexPoint>>, n0: nat) {
    forall i :: n0 <= i < |continents| ==>
      continents[i] != {} && |continents[i]| <= MaxContinentSize && Connected(continents[i])
  }

  lemma GrownExtend(continents: seq<set<HexPoint>>, n0: nat, c: set<HexPoint>)
    requires NewContinentsGrown(continents, n0) && n0 <= |continents|
    requires c != {} && |c| <= MaxContinentSize && Connected(c)
    ensures NewContinentsGrown(continents + [c], n0)
  {
    var cs := continents + [c];
    assert forall i :: 0 <= i < |continents| ==> cs[i] == continents[i];
  }

  /**
   * generateContinent's stop condition: the target size lies in
   * CONTINENT_SIZE_RANGE, the continent did not pass it, and it either
   * reached it or has no neighbour left in the pool.
   */
  ghost predicate GrewToTarget(world: set<HexPoint>, c: set<HexPoint>, target: nat, pool: set<HexPoint>) {
    && MinContinentSize <= target <= MaxContinentSize
    && |c| <= target
    && (|c| == target || Frontier(world, c) * pool == {})
  }

  /** Every continent from index n0 on met the stop condition for its own target, against the pool. */
  ghost predicate ReachedTargets(world: set<HexPoint>, continents: seq<set<HexPoint>>, n0: nat,
                                 targets: seq<nat>, pool: set<HexPoint>) {
    && n0 + |targets| == |continents|
    && forall k :: 0 <= k < |targets| ==> GrewToTarget(world, continents[n0 + k], targets[k], pool)
  }

  /** The stop condition survives a pool that only shrinks, so a later continent keeps the earlier ones' conditions. */
  lemma ReachedExtend(world: set<HexPoint>, continents: seq<set<HexPoint>>, n0: nat,
                     targets: seq<nat>, pool: set<HexPoint>,
                     c: set<HexPoint>, target: nat, pool': set<HexPoint>)
    requires ReachedTargets(world, continents, n0, targets, pool) && pool' <= pool
    requires GrewToTarget(world, c, target, pool')
    ensures ReachedTargets(world, continents + [c], n0, targets + [target], pool')
  {
    var cs, ts := continents + [c], targets + [target];
    forall k | 0 <= k < |ts|
      ensures GrewToTarget(world, cs[n0 + k], ts[k], pool')
    {
      if k < |targets| {
        assert cs[n0 + k] == continents[n0 + k] && ts[k] == targets[k];
        assert Frontier(world, cs[n0 + k]) * pool' <= Frontier(world, cs[n0 + k]) * pool;
      }
    }
  }

  /** A single tile is connected. */
  lemma SingletonConnected(p: HexPoint)
    ensures Connected({p})
  {
    assert GrowthOrder([p], [0]) && (set x | x in [p]) == {p};
  }

  /** A connected set plus one tile of its frontier is connected. */
  lemma ConnectedGrow(world: set<HexPoint>, c: set<HexPoint>, next: HexPoint)
    requires Connected(c) && next in Frontier(world, c)
    ensures Connected(c + {next})
  {
    var order, parent :| GrowthOrder(order, parent) && (set x | x in order) == c;
    var order', parent' := GrowFrontier(world, c, order, parent, next);
  }

  /** The set of a list's members after one more is appended. */
  lemma OrderSetExtend(order: seq<HexPoint>, x: HexPoint)
    ensures (set y | y in order + [x]) == (set y | y in order) + {x}
  {
  }

  /** A growth order of c extends to one of c plus any tile of its frontier. */
  lemma GrowFrontier(world: set<HexPoint>, c: set<HexPoint>, order: seq<HexPoint>, parent: seq<nat>, next: HexPoint)
    returns (order': seq<HexPoint>, parent': seq<nat>)
    requires GrowthOrder(order, parent) && (set x | x in order) == c && next in Frontier(world, c)
    ensures GrowthOrder(order', parent') && (set x | x in order') == c + {next}
  {
    var p, d :| p in c && d in Directions && Shift(p, d) == next;
    var j :| 0 <= j < |order| && order[j] == p;
    GrowthOrderExtend(order, parent, j, d);
    OrderSetExtend(order, next);
    order', parent' := order + [next], parent + [j];
  }

  /** The first loop of reclusterContinents: the union of all the continents. */
  method UnionOf(cs: seq<set<HexPoint>>) returns (all: set<HexPoint>)
    ensures all == UnionAll(cs)
  {
    all := {};
    for k := 0 to |cs|
      invariant all == UnionAll(cs[..k])
    {
      assert cs[..k + 1][..k] == cs[..k];
      all := all + cs[k];
    }
    assert cs[..|cs|] == cs;
  }

  /** The inner loop of reclusterContinents: every tile of clusters[k] is mapped to k, and no other entry changes. */
  method PutCluster(clusters: seq<set<HexPoint>>, k: nat, owner: map<HexPoint, nat>) returns (owner': map<HexPoint, nat>)
    requires k < |clusters| && clusters[k] <= owner.Keys
    ensures owner'.Keys == owner.Keys
    ensures forall t :: t in owner' ==> owner'[t] == if t in clusters[k] then k else owner[t]
  {
    owner' := owner;
    var rest := clusters[k];
    while rest != {}
      invariant rest <= clusters[k]
      invariant owner'.Keys == owner.Keys
      invariant forall t :: t in owner' ==> owner'[t] == if t in clusters[k] - rest then k else owner[t]
      decreases rest
    {
      var t :| t in rest;
      owner' := owner'[t := k];
      rest := rest - {t};
    }
  }

  /**
   * The nested loops of reclusterContinents: every tile of every cluster
   * is mapped to its cluster's index; the key set stays the same.
   */
  method MapToClusters(clusters: seq<set<HexPoint>>, owner: map<HexPoint, nat>) returns (owner': map<HexPoint, nat>)
    requires PairwiseDisjoint(clusters) && UnionAll(clusters) <= owner.Keys
    ensures owner'.Keys == owner.Keys
    ensures forall k, t :: 0 <= k < |clusters| && t in clusters[k] ==> t in owner' && owner'[t] == k
  {
    owner' := owner;
    for k := 0 to |clusters|
      invariant owner'.Keys == owner.Keys
      invariant forall j, t :: 0 <= j < k && t in clusters[j] ==> t in owner' && owner'[t] == j
    {
      forall t | t in clusters[k]
        ensures t in owner
      {
        InUnionAll(clusters, t);
      }
      var next := PutCluster(clusters, k, owner');
      forall j, t | 0 <= j < k + 1 && t in clusters[j]
        ensures t in next && next[t] == j
      {
        if j < k {
          assert clusters[j] !! clusters[k];
        }
      }
      owner' := next;
    }
  }

  /** A world tile next to a cluster that is closed in the pool is outside the pool. */
  lemma FrontierOutsidePool(world: set<HexPoint>, pool: set<HexPoint>, c: set<HexPoint>)
    requires Closed(pool, c)
    ensures forall t :: t in Frontier(world, c) ==> t in world && t !in pool
  {
  }

  /** The coast ring of the first k + 1 continents adds the frontier of continent k to that of the first k. */
  lemma OnCoastExtend(world: set<HexPoint>, continents: seq<set<HexPoint>>, k: nat)
    requires k < |continents|
    ensures forall t :: OnCoast(world, continents[..k + 1], t) <==> OnCoast(world, continents[..k], t) || t in Frontier(world, continents[k])
  {
    forall t
      ensures OnCoast(world, continents[..k + 1], t) <==> OnCoast(world, continents[..k], t) || t in Frontier(world, continents[k])
    {
      if OnCoast(world, continents[..k + 1], t) {
        var j :| 0 <= j < k + 1 && t in Frontier(world, continents[..k + 1][j]);
        if j < k {
          assert continents[..k][j] == continents[j];
        }
      }
      if OnCoast(world, continents[..k], t) {
        var j :| 0 <= j < k && t in Frontier(world, continents[..k][j]);
        assert continents[..k + 1][j] == continents[j];
      }
      if t in Frontier(world, continents[k]) {
        assert continents[..k + 1][k] == continents[k];
      }
    }
  }

  /** No tile of a is next to a tile of b. */
  ghost predicate Apart(a: set<HexPoint>, b: set<HexPoint>) {
    forall p, d :: p in a ==> Shift(p, d) !in b
  }

  /** Two different pieces of a clustering never touch, so reclustered continents are pairwise apart. */
  lemma ClustersApart(s: set<HexPoint>, cs: seq<set<HexPoint>>, i: nat, j: nat)
    requires IsClustering(s, cs) && i < |cs| && j < |cs| && i != j
    ensures Apart(cs[i], cs[j])
  {
    ClusterInside(s, cs, j);
    assert cs[i] !! cs[j] by {
      if i < j { assert cs[i] !! cs[j]; } else { assert cs[j] !! cs[i]; }
    }
  }

  /**
   * cleanupContinents' test on a cluster h of the pool: it is smaller than
   * MIN_OCEAN_SIZE and its whole world frontier, which is not empty, lies
   * in continent i.
   */
  ghost predicate Enclosed(world: set<HexPoint>, continents: seq<set<HexPoint>>, h: set<HexPoint>, i: nat) {
    && i < |continents|
    && |h| < WaterPainter.MinOceanSize
    && Frontier(world, h) != {}
    && Frontier(world, h) <= continents[i]
  }

  /** The holes of continent i: the union of the listed clusters that it encloses. */
  ghost function HolesOf(world: set<HexPoint>, continents: seq<set<HexPoint>>, holes: seq<set<HexPoint>>, i: nat): set<HexPoint>
    decreases |holes|
  {
    if holes == [] then {}
    else
      var last := holes[|holes| - 1];
      HolesOf(world, continents, holes[..|holes| - 1], i) + (if Enclosed(world, continents, last, i) then last else {})
  }

  /** The holes come out of the listed clusters. */
  lemma {:induction false} HolesInside(world: set<HexPoint>, continents: seq<set<HexPoint>>, holes: seq<set<HexPoint>>, i: nat, pool: set<HexPoint>)
    requires forall k :: 0 <= k < |holes| ==> holes[k] <= pool
    ensures HolesOf(world, continents, holes, i) <= pool
    decreases |holes|
  {
    if holes != [] {
      HolesInside(world, continents, holes[..|holes| - 1], i, pool);
    }
  }

  /** Under the bookkeeping invariant the pool is exactly the world minus the continents. */
  lemma PoolIsRest(world: set<HexPoint>, available: set<HexPoint>, continents: seq<set<HexPoint>>, owner: map<HexPoint, nat>)
    requires Partition(world, available, continents, owner)
    ensures available == world - UnionAll(continents)
  {
    OwnerKeys(world, available, continents, owner);
    forall t | t in available
      ensures t !in UnionAll(continents)
    {
      InUnionAll(continents, t);
    }
  }

  /** The union of sets each inside s is inside s. */
  lemma {:induction false} UnionWithin(cs: seq<set<HexPoint>>, s: set<HexPoint>)
    requires forall i :: 0 <= i < |cs| ==> cs[i] <= s
    ensures UnionAll(cs) <= s
    decreases |cs|
  {
    if cs != [] {
      UnionWithin(cs[..|cs| - 1], s);
    }
  }

  /** Growing each set of a list grows their union. */
  lemma {:induction false} UnionGrows(a: seq<set<HexPoint>>, b: seq<set<HexPoint>>)
    requires |a| == |b| && forall i :: 0 <= i < |a| ==> a[i] <= b[i]
    ensures UnionAll(a) <= UnionAll(b)
    decreases |a|
  {
    if a != [] {
      UnionGrows(a[..|a| - 1], b[..|b| - 1]);
    }
  }

  /**
   * The pool after cleanup: the old pool tiles that no hole took, and the
   * tiles of the filled continents that smoothing removed.
   */
  lemma CleanupPool(world: set<HexPoint>, pool: set<HexPoint>, before: seq<set<HexPoint>>, owner: map<HexPoint, nat>,
                    filled: seq<set<HexPoint>>, available: set<HexPoint>, after: seq<set<HexPoint>>, owner': map<HexPoint, nat>)
    requires Partition(world, pool, before, owner) && Partition(world, available, after, owner')
    requires |before| == |filled| == |after|
    requires forall i :: 0 <= i < |filled| ==> before[i] <= filled[i] <= world && after[i] <= filled[i]
    ensures available == (pool - UnionAll(filled)) + (UnionAll(filled) - UnionAll(after))
  {
    PoolIsRest(world, pool, before, owner);
    PoolIsRest(world, available, after, owner');
    UnionGrows(before, filled);
    UnionGrows(after, filled);
    UnionWithin(filled, world);
  }

  /**
   * The scan of smoothCoast over one continent: the first tile found that
   * has at most one neighbour in the continent, or exactly two that are
   * not next to each other; None when there is no such tile.
   */
  method FindRemovable(c: set<HexPoint>) returns (r: Option<HexPoint>)
    ensures r.None? ==> Smooth(c)
    ensures r.Some? ==> r.value in c && Removable(c, r.value)
  {
    var rest := c;
    while rest != {}
      invariant rest <= c
      invariant forall t :: t in c - rest ==> !Removable(c, t)
      decreases rest
    {
      var t :| t in rest;
      var dirs := DirsIn(c, t);
      var remove := |dirs| <= 1;
      if !remove && |dirs| == 2 {
        var a :| a in dirs;
        assert |dirs - {a}| == 1;
        var b :| b in dirs - {a};
        RemovableTwo(c, t, a, b);
        if !DirsAdjacent(a, b) {
          remove := true;
        }
      }
      if remove {
        return Some(t);
      }
      rest := rest - {t};
    }
    return None;
  }

  /** The pool after removing t and then the tiles of a later pass holds exactly the tiles removed from c. */
  lemma RemovedTiles(pool: set<HexPoint>, c: set<HexPoint>, t: HexPoint, c': set<HexPoint>, pool': set<HexPoint>)
    requires t in c && c' <= c - {t} && pool' == pool + {t} + ((c - {t}) - c')
    ensures pool' == pool + (c - c')
  {
  }

  /** The set bookkeeping of one step of absorbing a cluster. */
  lemma AbsorbSets(pool: set<HexPoint>, c: set<HexPoint>, cluster: set<HexPoint>, rest: set<HexPoint>, done: set<HexPoint>, t: HexPoint)
    requires t in rest && rest <= cluster && done == cluster - rest
    ensures cluster - (rest - {t}) == done + {t}
    ensures (pool - done) - {t} == pool - (done + {t})
    ensures c + done + {t} == c + (done + {t})
  {
  }

  /** Updating an entry with its own value changes nothing. */
  lemma SameUpdate<T>(s: seq<T>, i: nat)
    requires i < |s|
    ensures s[i := s[i]] == s
  {
  }

  /** A second update at the same index overrides the first. */
  lemma UpdateTwice<T>(s: seq<T>, i: nat, x: T, y: T)
    requires i < |s|
    ensures s[i := x][i := y] == s[i := y]
  {
  }

  // ---------------------------------------------------------------------
  // Biome blotches

  /** A biome a blotch can receive: one with a positive weight. */
  predicate Paintable(b: Biome) {
    b in BiomeWeights && BiomeWeights[b] > 0
  }

  /** p lies in one of the blotches. */
  ghost predicate InBlotch(blotches: map<HexPoint, set<HexPoint>>, p: HexPoint) {
    exists s :: s in blotches && p in blotches[s]
  }

  /** The blotches are pairwise disjoint. */
  ghost predicate BlotchesDisjoint(blotches: map<HexPoint, set<HexPoint>>) {
    forall s, s', p :: s in blotches && s' in blotches && p in blotches[s] && p in blotches[s'] ==> s == s'
  }

  /**
   * The state of the blotch-growing loop: one blotch per seed, holding its
   * seed, connected, inside the continent and clear of the unassigned
   * tiles; blotches pairwise disjoint; every assigned continent tile in a
   * blotch; and every retired blotch with no unassigned neighbour.
   */
  ghost predicate Growing(continent: set<HexPoint>, seeds: set<HexPoint>, blotches: map<HexPoint, set<HexPoint>>,
                          unselected: set<HexPoint>, incomplete: set<HexPoint>) {
    && blotches.Keys == seeds && incomplete <= seeds && unselected <= continent
    && BlotchesInside(continent, blotches, unselected)
    && BlotchesDisjoint(blotches)
    && Assigned(continent, blotches, unselected)
    && Retired(continent, blotches, unselected, seeds - incomplete)
  }

  /** Each blotch holds its seed, is connected, lies in the continent and is clear of the unassigned tiles. */
  ghost predicate BlotchesInside(continent: set<HexPoint>, blotches: map<HexPoint, set<HexPoint>>, unselected: set<HexPoint>) {
    && (forall s :: s in blotches ==> s in blotches[s] && Connected(blotches[s]))
    && (forall s, p :: s in blotches && p in blotches[s] ==> p in continent && p !in unselected)
  }

  /** Every continent tile that is not unassigned lies in a blotch. */
  ghost predicate Assigned(continent: set<HexPoint>, blotches: map<HexPoint, set<HexPoint>>, unselected: set<HexPoint>) {
    forall p :: p in continent && p !in unselected ==> InBlotch(blotches, p)
  }

  /** The blotches of the retired seeds have no unassigned neighbour. */
  ghost predicate Retired(continent: set<HexPoint>, blotches: map<HexPoint, set<HexPoint>>, unselected: set<HexPoint>, retired: set<HexPoint>) {
    forall s, p :: s in retired && s in blotches && p in Frontier(continent, blotches[s]) ==> p !in unselected
  }

  /** Each seed starts as a blotch of its own, and the other continent tiles are unassigned. */
  lemma GrowingStart(continent: set<HexPoint>, seeds: set<HexPoint>)
    requires seeds <= continent
    ensures Growing(continent, seeds, map s | s in seeds :: {s}, continent - seeds, seeds)
  {
    var blotches := map s | s in seeds :: {s};
    assert Assigned(continent, blotches, continent - seeds) by {
      forall p | p in continent && p !in continent - seeds
        ensures InBlotch(blotches, p)
      {
        assert p in blotches[p];
      }
    }
    assert BlotchesInside(continent, blotches, continent - seeds) by {
      forall s | s in blotches
        ensures s in blotches[s] && Connected(blotches[s])
      {
        SingletonConnected(s);
      }
    }
  }

  /** A blotch with no unassigned neighbour is retired. */
  lemma GrowingRetire(continent: set<HexPoint>, seeds: set<HexPoint>, blotches: map<HexPoint, set<HexPoint>>,
                      unselected: set<HexPoint>, incomplete: set<HexPoint>, seed: HexPoint)
    requires Growing(continent, seeds, blotches, unselected, incomplete)
    requires seed in incomplete && Frontier(continent, blotches[seed]) * unselected == {}
    ensures Growing(continent, seeds, blotches, unselected, incomplete - {seed})
  {
    forall s, p | s in seeds - (incomplete - {seed}) && s in blotches && p in Frontier(continent, blotches[s])
      ensures p !in unselected
    {
      if s == seed {
        assert p !in Frontier(continent, blotches[seed]) * unselected;
      }
    }
  }

  /** An unassigned neighbour of a blotch joins it. */
  lemma GrowingAdd(continent: set<HexPoint>, seeds: set<HexPoint>, blotches: map<HexPoint, set<HexPoint>>,
                   unselected: set<HexPoint>, incomplete: set<HexPoint>, seed: HexPoint, t: HexPoint)
    requires Growing(continent, seeds, blotches, unselected, incomplete)
    requires seed in incomplete && t in Frontier(continent, blotches[seed]) && t in unselected
    ensures Growing(continent, seeds, blotches[seed := blotches[seed] + {t}], unselected - {t}, incomplete)
  {
    var blotches' := blotches[seed := blotches[seed] + {t}];
    assert BlotchesInside(continent, blotches', unselected - {t}) by {
      ConnectedGrow(continent, blotches[seed], t);
      FrontierInWorld(continent, blotches[seed]);
      forall s | s in blotches'
        ensures s in blotches'[s] && Connected(blotches'[s])
      {
        if s != seed {
          assert blotches'[s] == blotches[s];
        }
      }
      forall s, p | s in blotches' && p in blotches'[s]
        ensures p in continent && p !in unselected - {t}
      {
        if p != t {
          assert p in blotches[s];
        }
      }
    }
    assert BlotchesDisjoint(blotches') by {
      forall s, s', p | s in blotches' && s' in blotches' && p in blotches'[s] && p in blotches'[s']
        ensures s == s'
      {
        if p == t {
          assert s == seed && s' == seed;
        } else {
          assert p in blotches[s] && p in blotches[s'];
        }
      }
    }
    assert Assigned(continent, blotches', unselected - {t}) by {
      AddKeepsAssigned(continent, blotches, unselected, seed, t);
    }
    assert Retired(continent, blotches', unselected - {t}, seeds - incomplete) by {
      forall s, p | s in seeds - incomplete && s in blotches' && p in Frontier(continent, blotches'[s])
        ensures p !in unselected - {t}
      {
        assert blotches'[s] == blotches[s];
      }
    }
  }

  /** Adding a tile to one blotch keeps every assigned tile in some blotch. */
  lemma AddKeepsAssigned(continent: set<HexPoint>, blotches: map<HexPoint, set<HexPoint>>, unselected: set<HexPoint>, seed: HexPoint, t: HexPoint)
    requires seed in blotches
    requires Assigned(continent, blotches, unselected)
    ensures Assigned(continent, blotches[seed := blotches[seed] + {t}], unselected - {t})
  {
    var blotches' := blotches[seed := blotches[seed] + {t}];
    forall p | p in continent && p !in unselected - {t}
      ensures InBlotch(blotches', p)
    {
      if p == t {
        assert p in blotches'[seed];
      } else {
        var s :| s in blotches && p in blotches[s];
        assert p in blotches'[s];
      }
    }
  }

  /**
   * When the loop stops, every blotch holds its seed, lies in the
   * continent and is connected, and a continent tile in no blotch borders
   * none.
   */
  lemma GrowingEnd(continent: set<HexPoint>, seeds: set<HexPoint>, blotches: map<HexPoint, set<HexPoint>>,
                   unselected: set<HexPoint>, incomplete: set<HexPoint>)
    requires Growing(continent, seeds, blotches, unselected, incomplete)
    requires unselected == {} || incomplete == {}
    ensures forall s :: s in blotches ==> s in blotches[s] && blotches[s] <= continent && Connected(blotches[s])
    ensures forall p :: p in continent && !InBlotch(blotches, p) ==>
              forall s :: s in blotches ==> p !in Frontier(continent, blotches[s])
  {
  }

  /**
   * Step 3 of paintContinent: grow each seed's blotch inside the continent
   * one random unassigned neighbour at a time, retiring a blotch when it
   * has none, until no tile is unassigned or every blotch is retired. Each
   * blotch is connected and holds its seed, the blotches are disjoint, and
   * a continent tile left in no blotch borders none.
   */
  method GrowBlotches(continent: set<HexPoint>, seeds: set<HexPoint>) returns (blotches: map<HexPoint, set<HexPoint>>)
    requires seeds <= continent
    ensures blotches.Keys == seeds && BlotchesDisjoint(blotches)
    ensures forall s :: s in blotches ==> s in blotches[s] && blotches[s] <= continent && Connected(blotches[s])
    ensures forall p :: p in continent && !InBlotch(blotches, p) ==>
              forall s :: s in blotches ==> p !in Frontier(continent, blotches[s])
  {
    var unselected := continent - seeds;
    blotches := map s | s in seeds :: {s};
    var incomplete := seeds;
    GrowingStart(continent, seeds);
    while unselected != {} && incomplete != {}
      invariant Growing(continent, seeds, blotches, unselected, incomplete)
      decreases unselected, incomplete
    {
      var seed :| seed in incomplete;
      var adj := Frontier(continent, blotches[seed]) * unselected;
      if adj == {} {
        GrowingRetire(continent, seeds, blotches, unselected, incomplete, seed);
        incomplete := incomplete - {seed};
        continue;
      }
      var t :| t in adj;
      GrowingAdd(continent, seeds, blotches, unselected, incomplete, seed, t);
      blotches := blotches[seed := blotches[seed] + {t}];
      unselected := unselected - {t};
    }
    GrowingEnd(continent, seeds, blotches, unselected, incomplete);
  }

  /**
   * Step 4 of paintContinent: each blotch receives one random biome of
   * positive weight, and every tile of the blotch is set to it. Tiles in
   * no blotch, and every field but the biome, are untouched.
   */
  method PaintBlotches(tiles: map<HexPoint, Tile>, blotches: map<HexPoint, set<HexPoint>>) returns (painted: map<HexPoint, Biome>)
    requires Positioned(tiles) && BlotchesDisjoint(blotches)
    requires forall s :: s in blotches ==> blotches[s] <= tiles.Keys
    modifies tiles.Values
    ensures painted.Keys == blotches.Keys
    ensures forall s :: s in painted ==> Paintable(painted[s])
    ensures forall s, p :: s in blotches && p in blotches[s] ==> tiles[p].biome == painted[s]
    ensures forall p :: p in tiles && !InBlotch(blotches, p) ==> tiles[p].biome == old(tiles[p].biome)
    ensures forall p :: p in tiles ==> tiles[p].AllButBiome() == old(tiles[p].AllButBiome())
  {
    painted := map[];
    var rest := blotches.Keys;
    while rest != {}
      invariant rest <= blotches.Keys && painted.Keys == blotches.Keys - rest
      invariant forall s :: s in painted ==> Paintable(painted[s])
      invariant forall s, p :: s in painted && p in blotches[s] ==> tiles[p].biome == painted[s]
      invariant forall p :: p in tiles && (forall s :: s in painted ==> p !in blotches[s]) ==> tiles[p].biome == old(tiles[p].biome)
      invariant forall p :: p in tiles ==> tiles[p].AllButBiome() == old(tiles[p].AllButBiome())
      decreases rest
    {
      var s :| s in rest;
      var b :| Paintable(b);
      SetBiomeAll(tiles, blotches[s], b);
      painted := painted[s := b];
      rest := rest - {s};
    }
  }

  /**
   * paintContinent: one seed per AVERAGE_BIOME_SIZE continent tiles, grown
   * into blotches, each painted one biome.
   */
  method PaintContinent(tiles: map<HexPoint, Tile>, continent: set<HexPoint>)
    returns (blotches: map<HexPoint, set<HexPoint>>, painted: map<HexPoint, Biome>)
    requires Positioned(tiles) && continent <= tiles.Keys
    modifies tiles.Values
    ensures |blotches| == |continent| / AverageBiomeSize && painted.Keys == blotches.Keys
    ensures BlotchesDisjoint(blotches)
    ensures forall s :: s in blotches ==> s in blotches[s] && blotches[s] <= continent && Connected(blotches[s])
    ensures forall p :: p in continent && !InBlotch(blotches, p) ==>
              forall s :: s in blotches ==> p !in Frontier(continent, blotches[s])
    ensures forall s :: s in painted ==> Paintable(painted[s])
    ensures forall s, p :: s in blotches && p in blotches[s] ==> tiles[p].biome == painted[s]
    ensures forall p :: p in tiles && !InBlotch(blotches, p) ==> tiles[p].biome == old(tiles[p].biome)
    ensures forall p :: p in tiles ==> tiles[p].AllButBiome() == old(tiles[p].AllButBiome())
  {
    var numSeeds := |continent| / AverageBiomeSize;
    var seeds := SelectTiles(continent, numSeeds);
    blotches := GrowBlotches(continent, seeds);
    painted := PaintBlotches(tiles, blotches);
  }

  /** The continents after cluster h joins each continent of c0 that encloses it. */
  ghost function AddHole(world: set<HexPoint>, c0: seq<set<HexPoint>>, cs: seq<set<HexPoint>>, h: set<HexPoint>): (r: seq<set<HexPoint>>)
    ensures |r| == |cs|
    ensures forall j :: 0 <= j < |cs| ==> r[j] == cs[j] + (if Enclosed(world, c0, h, j) then h else {})
  {
    seq(|cs|, j requires 0 <= j < |cs| => cs[j] + (if Enclosed(world, c0, h, j) then h else {}))
  }

  /** The continents of c0 after the listed clusters, in turn, joined the continents that enclose them. */
  ghost function Filled(world: set<HexPoint>, c0: seq<set<HexPoint>>, holes: seq<set<HexPoint>>): (r: seq<set<HexPoint>>)
    ensures |r| == |c0|
    decreases |holes|
  {
    if holes == [] then c0
    else AddHole(world, c0, Filled(world, c0, holes[..|holes| - 1]), holes[|holes| - 1])
  }

  /** Filling adds to each continent exactly its holes, which come out of the listed clusters. */
  lemma {:induction false} FilledIsHoles(world: set<HexPoint>, c0: seq<set<HexPoint>>, holes: seq<set<HexPoint>>, pool: set<HexPoint>)
    requires forall k :: 0 <= k < |holes| ==> holes[k] <= pool
    ensures forall i :: 0 <= i < |c0| ==> Filled(world, c0, holes)[i] == c0[i] + HolesOf(world, c0, holes, i)
    ensures forall i :: 0 <= i < |c0| ==> c0[i] <= Filled(world, c0, holes)[i] <= c0[i] + pool
    decreases |holes|
  {
    if holes != [] {
      FilledIsHoles(world, c0, holes[..|holes| - 1], pool);
      assert holes[|holes| - 1] <= pool;
    }
  }

  /**
   * When getSurroundingContinent names continent i for a small pool
   * cluster h, continent i encloses h in the split before any hole was
   * filled, and no other continent does: the frontier lies outside the
   * pool, where the continents have not grown.
   */
  lemma SurroundingIsEnclosing(world: set<HexPoint>, available: set<HexPoint>, continents: seq<set<HexPoint>>, owner: map<HexPoint, nat>,
                               c0: seq<set<HexPoint>>, pool: set<HexPoint>, h: set<HexPoint>, i: nat)
    requires Partition(world, available, continents, owner) && |continents| == |c0| && PairwiseDisjoint(c0)
    requires forall j :: 0 <= j < |c0| ==> continents[j] <= c0[j] + pool
    requires forall t :: t in Frontier(world, h) ==> t !in pool
    requires |h| < WaterPainter.MinOceanSize && Frontier(world, h) != {}
    requires forall t :: t in Frontier(world, h) ==> t in owner && owner[t] == i
    requires i < |continents|
    ensures Enclosed(world, c0, h, i)
    ensures AddHole(world, c0, continents, h) == continents[i := continents[i] + h]
  {
    forall j | 0 <= j < |c0| && j != i
      ensures !Enclosed(world, c0, h, j)
    {
      var t :| t in Frontier(world, h);
      assert t in c0[i];
      assert c0[i] !! c0[j] by {
        if i < j { assert c0[i] !! c0[j]; } else { assert c0[j] !! c0[i]; }
      }
    }
    var after := AddHole(world, c0, continents, h);
    assert forall j :: 0 <= j < |after| ==> after[j] == continents[i := continents[i] + h][j];
  }

  /**
   * When getSurroundingContinent finds no continent for h (an empty
   * frontier, or one that meets two continents), no continent encloses h
   * in the split before any hole was filled.
   */
  lemma NoSurroundingNoEnclosing(world: set<HexPoint>, available: set<HexPoint>, continents: seq<set<HexPoint>>, owner: map<HexPoint, nat>,
                                 c0: seq<set<HexPoint>>, h: set<HexPoint>)
    requires Partition(world, available, continents, owner) && |continents| == |c0|
    requires forall j :: 0 <= j < |c0| ==> c0[j] <= continents[j]
    requires || Frontier(world, h) == {}
             || exists a, b :: && a in Frontier(world, h) && b in Frontier(world, h)
                               && a in owner && b in owner && owner[a] != owner[b]
    ensures forall j :: 0 <= j < |c0| ==> !Enclosed(world, c0, h, j)
    ensures AddHole(world, c0, continents, h) == continents
  {
    forall j | 0 <= j < |c0|
      ensures !Enclosed(world, c0, h, j)
    {
      if Frontier(world, h) != {} {
        var a, b :| && a in Frontier(world, h) && b in Frontier(world, h)
                    && a in owner && b in owner && owner[a] != owner[b];
        if a in c0[j] && b in c0[j] {
          OwnerIs(world, available, continents, owner, j, a);
          OwnerIs(world, available, continents, owner, j, b);
        }
      }
    }
    NothingEnclosedKeeps(world, c0, continents, h);
  }

  /** A cluster that no continent encloses changes no continent. */
  lemma NothingEnclosedKeeps(world: set<HexPoint>, c0: seq<set<HexPoint>>, cs: seq<set<HexPoint>>, h: set<HexPoint>)
    requires forall j :: 0 <= j < |cs| ==> !Enclosed(world, c0, h, j)
    ensures AddHole(world, c0, cs, h) == cs
  {
    var after := AddHole(world, c0, cs, h);
    assert forall j :: 0 <= j < |after| ==> after[j] == cs[j];
  }

  /**
   * The stages of generateContinents: `count` is the target drawn from
   * CONTINENT_COUNT_RANGE, `grown` the continents of the growth loop,
   * `merged` their reclustering, `holes` the clusters of the pool left
   * after growth, and `filled` the merged continents with the holes they
   * enclose.
   */
  datatype Stages = Stages(count: nat, targets: seq<nat>, grown: seq<set<HexPoint>>, merged: seq<set<HexPoint>>,
                           holes: seq<set<HexPoint>>, filled: seq<set<HexPoint>>)

  /** What generateContinents builds, stage by stage, over a world whose tiles all start in the pool. */
  ghost predicate ContinentsBuilt(world: set<HexPoint>, stages: Stages,
                                  continents: seq<set<HexPoint>>, available: set<HexPoint>) {
    match stages
    case Stages(count, targets, grown, merged, holes, filled) =>
      && GrowthStopped(world, count, targets, grown)
      && MergedApart(grown, merged)
      && HolesFilled(world, world - UnionAll(grown), merged, holes, filled)
      && SmoothedWithin(world - UnionAll(grown), filled, continents, available)
  }

  /**
   * The growth loop: at most count continents, each non-empty, connected
   * and within the largest target size, all of world tiles, each grown to
   * its own target or until no pool tile borders it; the loop stops at the
   * count or when the pool is below MinContinentSize.
   */
  ghost predicate GrowthStopped(world: set<HexPoint>, count: nat, targets: seq<nat>, grown: seq<set<HexPoint>>) {
    && MinContinentCount <= count <= MaxContinentCount
    && |grown| <= count && NewContinentsGrown(grown, 0) && UnionAll(grown) <= world
    && ReachedTargets(world, grown, 0, targets, world - UnionAll(grown))
    && (|grown| == count || |world - UnionAll(grown)| < MinContinentSize)
  }

  /** Reclustering: the connected pieces of the grown land, pairwise apart. */
  ghost predicate MergedApart(grown: seq<set<HexPoint>>, merged: seq<set<HexPoint>>) {
    && IsClustering(UnionAll(grown), merged)
    && (forall i, j :: 0 <= i < |merged| && 0 <= j < |merged| && i != j ==> Apart(merged[i], merged[j]))
  }

  /** Hole filling: `holes` are the clusters of the pool, and each continent takes exactly the ones it encloses. */
  ghost predicate HolesFilled(world: set<HexPoint>, pool: set<HexPoint>, merged: seq<set<HexPoint>>,
                              holes: seq<set<HexPoint>>, filled: seq<set<HexPoint>>) {
    && IsClustering(pool, holes)
    && |filled| == |merged|
    && (forall i :: 0 <= i < |merged| ==> filled[i] == merged[i] + HolesOf(world, merged, holes, i))
  }

  /**
   * Smoothing: each continent is the greatest smooth part of its filled
   * continent, and the pool is what hole filling left of it plus the tiles smoothing
   * removed.
   */
  ghost predicate SmoothedWithin(pool: set<HexPoint>, filled: seq<set<HexPoint>>,
                                 continents: seq<set<HexPoint>>, available: set<HexPoint>) {
    && |continents| == |filled|
    && (forall i :: 0 <= i < |continents| ==> GreatestSmooth(filled[i], continents[i]))
    && available == (pool - UnionAll(filled)) + (UnionAll(filled) - UnionAll(continents))
  }

  /** A world with at least MinContinentSize tiles gets at least one continent from the growth loop. */
  lemma BuiltHasContinent(world: set<HexPoint>, stages: Stages, continents: seq<set<HexPoint>>, available: set<HexPoint>)
    requires ContinentsBuilt(world, stages, continents, available)
    requires |world| >= MinContinentSize
    ensures |stages.grown| >= 1 && |stages.merged| >= 1
  {
    var grown, merged := stages.grown, stages.merged;
    assert grown[0] != {};
    var t :| t in grown[0];
    InUnionAll(grown, t);
    InUnionAll(merged, t);
  }

  class ContinentGenerator {
    /** The world's tiles, fixed for one run. */
    var world: set<HexPoint>
    /** availableTiles: the world tiles in no continent. */
    var available: set<HexPoint>
    /** The list of continents being built. */
    var continents: seq<set<HexPoint>>
    /** tileToContinentMap: each continent tile's continent, by its index in the list. */
    var tileToContinent: map<HexPoint, nat>

    ghost predicate Valid()
      reads this
    {
      Partition(world, available, continents, tileToContinent)
    }

    constructor()
      ensures world == {} && available == {} && continents == [] && tileToContinent == map[]
    {
      world := {};
      available := {};
      continents := [];
      tileToContinent := map[];
    }

    /**
     * addToContinent: a tile new to the continent is recorded in the map and
     * taken from the pool, and the call fails (after those updates) when it
     * was not in the pool; a tile already in the continent changes nothing.
     */
    method AddToContinent(t: HexPoint, i: nat) returns (r: Result<()>)
      requires i < |continents|
      modifies this
      ensures world == old(world)
      ensures t in old(continents[i]) ==>
                && r == Ok(()) && available == old(available)
                && continents == old(continents) && tileToContinent == old(tileToContinent)
      ensures t !in old(continents[i]) ==>
                && continents == old(continents)[i := old(continents[i]) + {t}]
                && tileToContinent == old(tileToContinent)[t := i]
                && available == old(available) - {t}
                && r == (if t in old(available) then Ok(()) else Err(IllegalState))
      ensures old(Valid()) && t in old(available) ==> Valid()
    {
      ghost var available0, continents0, owner0 := available, continents, tileToContinent;
      r := Ok(());
      if t !in continents[i] {
        continents := continents[i := continents[i] + {t}];
        tileToContinent := tileToContinent[t := i];
        if t !in available {
          r := Err(IllegalState);
        } else {
          available := available - {t};
          if Partition(world, available0, continents0, owner0) {
            AddKeepsPartition(world, available0, continents0, owner0, t, i);
          }
        }
      }
    }

    /**
     * generateContinent: a new continent grown from a random available seed
     * by adding random available neighbours until it reaches a random target
     * size in CONTINENT_SIZE_RANGE or has no available neighbour left. It is
     * non-empty, connected, made of tiles taken from the pool, and stops as
     * the loop does: at the drawn target, or short of it with no neighbour
     * in the pool.
     */
    method GenerateContinent() returns (ghost target: nat)
      requires Valid() && available != {}
      modifies this
      ensures Valid() && world == old(world)
      ensures |continents| == |old(continents)| + 1 && continents == old(continents) + [continents[|old(continents)|]]
      ensures var c := continents[|old(continents)|];
              && c != {} && c <= old(available) && available == old(available) - c
              && |c| <= MaxContinentSize && Connected(c)
      ensures GrewToTarget(world, continents[|old(continents)|], target, available)
    {
      var seed :| seed in available;
      AppendEmptyKeepsPartition(world, available, continents, tileToContinent);
      continents := continents + [{}];
      var i := |continents| - 1;
      var targetSize :| MinContinentSize <= targetSize <= MaxContinentSize;
      ReplaceLast(old(continents), {}, {seed});
      var added := AddToContinent(seed, i);
      ghost var order: seq<HexPoint>, parent: seq<nat> := [seed], [0];
      while |continents[i]| < targetSize
        invariant Valid() && world == old(world)
        invariant |continents| == i + 1 && continents == old(continents) + [continents[i]]
        invariant continents[i] <= old(available) && available == old(available) - continents[i]
        invariant 0 < |continents[i]| <= targetSize
        invariant GrowthOrder(order, parent) && (set x | x in order) == continents[i]
        decreases targetSize - |continents[i]|
      {
        var candidates := Frontier(world, continents[i]) * available;
        if candidates == {} {
          break;
        }
        var next :| next in candidates;
        ghost var c, pool := continents[i], available;
        order, parent := GrowFrontier(world, c, order, parent, next);
        ReplaceLast(old(continents), c, c + {next});
        PoolShrinks(old(available), c, next);
        added := AddToContinent(next, i);
      }
      target := targetSize;
    }

    /**
     * The loop of generateContinents: start continents while fewer than the
     * random target count exist and at least MinContinentSize tiles are
     * available. Every pass takes at least its seed from the pool, so the
     * loop ends, at the target count or with a small pool. Each new
     * continent meets its own stop condition against the final pool.
     */
    method GrowContinents(numToGenerate: nat) returns (ghost targets: seq<nat>)
      requires Valid()
      modifies this
      ensures Valid() && world == old(world) && available <= old(available)
      ensures |old(continents)| <= numToGenerate ==> |continents| <= numToGenerate
      ensures |continents| >= numToGenerate || |available| < MinContinentSize
      ensures NewContinentsGrown(continents, |old(continents)|)
      ensures ReachedTargets(world, continents, |old(continents)|, targets, available)
      ensures |continents| == |old(continents)| ==> available == old(available)
    {
      ghost var n0 := |continents|;
      targets := [];
      while |continents| < numToGenerate && |available| >= MinContinentSize
        invariant Valid() && world == old(world) && available <= old(available)
        invariant n0 <= |continents|
        invariant |continents| == n0 ==> available == old(available)
        invariant n0 <= numToGenerate ==> |continents| <= numToGenerate
        invariant NewContinentsGrown(continents, n0)
        invariant ReachedTargets(world, continents, n0, targets, available)
        decreases available
      {
        ghost var before, pool := continents, available;
        ghost var target := GenerateContinent();
        GrownExtend(before, n0, continents[|before|]);
        ReachedExtend(world, before, n0, targets, pool, continents[|before|], target, available);
        targets := targets + [target];
      }
    }

    /**
     * reclusterContinents: the continents are replaced by the connected
     * pieces of their union, so continents that grew into each other become
     * one, and the map is updated to name each tile's new continent.
     */
    method ReclusterContinents()
      requires Valid()
      modifies this
      ensures Valid() && world == old(world) && available == old(available)
      ensures IsClustering(UnionAll(old(continents)), continents) && MergedApart(old(continents), continents)
      ensures forall k, t :: 0 <= k < |continents| && t in continents[k] ==> t in tileToContinent && tileToContinent[t] == k
    {
      var all := UnionOf(continents);
      var newContinents := ClusterSet(all);
      OwnerKeys(world, available, continents, tileToContinent);
      var owner := MapToClusters(newContinents, tileToContinent);
      ReclusterKeepsPartition(world, available, continents, tileToContinent, newContinents, owner);
      forall i, j | 0 <= i < |newContinents| && 0 <= j < |newContinents| && i != j
        ensures Apart(newContinents[i], newContinents[j])
      {
        ClustersApart(all, newContinents, i, j);
      }
      tileToContinent := owner;
      continents := newContinents;
    }
  
    /**
     * getSurroundingContinent: the one continent that every tile on the
     * cluster's frontier belongs to; None when the frontier is empty or
     * touches two continents; an IllegalState failure when it meets a
     * frontier tile in no continent. The frontier is walked in an
     * unspecified order, so when both a mismatch and an unmapped tile
     * exist either outcome may come first.
     */
    method GetSurroundingContinent(cluster: set<HexPoint>) returns (r: Result<Option<nat>>)
      ensures r.Err? ==> r.error == IllegalState && exists t :: t in Frontier(world, cluster) && t !in tileToContinent
      ensures (forall t :: t in Frontier(world, cluster) ==> t in tileToContinent) ==> r.Ok?
      ensures r == Ok(None) ==>
                || Frontier(world, cluster) == {}
                || exists a, b :: && a in Frontier(world, cluster) && b in Frontier(world, cluster)
                                  && a in tileToContinent && b in tileToContinent
                                  && tileToContinent[a] != tileToContinent[b]
      ensures r.Ok? && r.value.Some? ==>
                && Frontier(world, cluster) != {}
                && forall t :: t in Frontier(world, cluster) ==> t in tileToContinent && tileToContinent[t] == r.value.value
      ensures Valid() && r.Ok? && r.value.Some? ==> r.value.value < |continents|
    {
      var adj := Frontier(world, cluster);
      var todo := adj;
      var prev: Option<nat> := None;
      while todo != {}
        invariant todo <= adj
        invariant forall t :: t in adj - todo ==> t in tileToContinent && prev.Some? && tileToContinent[t] == prev.value
        invariant prev.Some? ==> adj - todo != {}
        invariant Valid() && prev.Some? ==> prev.value < |continents|
        decreases todo
      {
        var t :| t in todo;
        if t !in tileToContinent {
          return Err(IllegalState);
        }
        var c := tileToContinent[t];
        if prev.None? {
          prev := Some(c);
        } else if prev.value != c {
          ghost var a :| a in adj - todo;
          assert tileToContinent[a] != tileToContinent[t];
          return Ok(None);
        }
        todo := todo - {t};
      }
      assert adj - todo == adj;
      return Ok(prev);
    }

    /** The loop of cleanupContinents that adds a surrounded cluster of available tiles to continent i. */
    method AbsorbCluster(cluster: set<HexPoint>, i: nat)
      requires Valid() && i < |continents| && cluster <= available
      modifies this
      ensures Valid() && world == old(world)
      ensures continents == old(continents)[i := old(continents[i]) + cluster]
      ensures available == old(available) - cluster
    {
      var rest := cluster;
      ghost var done: set<HexPoint> := {};
      assert old(continents[i]) + done == continents[i];
      SameUpdate(continents, i);
      while rest != {}
        invariant rest <= cluster && done == cluster - rest
        invariant Valid() && world == old(world)
        invariant continents == old(continents)[i := old(continents[i]) + done]
        invariant available == old(available) - done
        decreases rest
      {
        var t :| t in rest;
        assert t !in continents[i] by {
          assert continents[i] !! available;
        }
        ghost var before := continents;
        var r := AddToContinent(t, i);
        assert r.Ok?;
        UpdateTwice(old(continents), i, old(continents[i]) + done, old(continents[i]) + (done + {t}));
        AbsorbSets(old(available), old(continents[i]), cluster, rest, done, t);
        rest := rest - {t};
        done := done + {t};
      }
      assert done == cluster;
    }

    /**
     * smoothCoast: remove the first removable tile found, returning it to
     * the pool, and start again on the smaller continent; stop when a full
     * pass finds none. The result is the greatest smooth part of the old
     * continent, and only continent i and the pool change, by the removed
     * tiles.
     */
    method SmoothCoast(i: nat)
      requires Valid() && i < |continents|
      modifies this
      ensures Valid() && world == old(world) && |continents| == |old(continents)|
      ensures GreatestSmooth(old(continents[i]), continents[i])
      ensures forall j :: 0 <= j < |continents| && j != i ==> continents[j] == old(continents[j])
      ensures available == old(available) + (old(continents[i]) - continents[i])
      decreases |continents[i]|
    {
      var found := FindRemovable(continents[i]);
      if found.Some? {
        var t := found.value;
        RemoveFromContinent(t, i);
        SmoothCoast(i);
        RemovedTiles(old(available), old(continents[i]), t, continents[i], available);
        forall s | s <= old(continents[i]) && Smooth(s)
          ensures s <= continents[i]
        {
          RemovableInNoSmooth(old(continents[i]), t, s);
        }
      }
    }

    /** The removal step of smoothCoast: t leaves continent i and its map entry, and returns to the pool. */
    method RemoveFromContinent(t: HexPoint, i: nat)
      requires Valid() && i < |continents| && t in continents[i]
      modifies this
      ensures Valid() && world == old(world)
      ensures continents == old(continents)[i := old(continents[i]) - {t}]
      ensures available == old(available) + {t}
      ensures tileToContinent == old(tileToContinent) - {t}
    {
      RemoveKeepsPartition(world, available, continents, tileToContinent, t, i);
      available := available + {t};
      continents := continents[i := continents[i] - {t}];
      tileToContinent := tileToContinent - {t};
    }

    /**
     * cleanupContinents: every cluster of the pool smaller than the ocean
     * size whose whole frontier lies in one continent joins that
     * continent; then every continent is smoothed. Such a cluster's
     * frontier is never outside all continents, so the IllegalState
     * failure of getSurroundingContinent cannot occur here. `holes` is the
     * clustering of the old pool and `filled` the continents after the
     * holes joined them, before smoothing.
     */
    method CleanupContinents() returns (ghost holes: seq<set<HexPoint>>, ghost filled: seq<set<HexPoint>>)
      requires Valid()
      modifies this
      ensures Valid() && world == old(world) && |continents| == |old(continents)|
      ensures HolesFilled(world, old(available), old(continents), holes, filled)
      ensures SmoothedWithin(old(available), filled, continents, available)
    {
      var clusters := ClusterSet(available);
      holes := clusters;
      ghost var pool, c0, owner0 := available, continents, tileToContinent;
      FillHoles(clusters);
      forall j | 0 <= j < |clusters|
        ensures clusters[j] <= pool
      {
        ClusterInside(pool, clusters, j);
      }
      FilledIsHoles(world, c0, clusters, pool);
      filled := continents;
      SmoothAll();
      CleanupPool(world, pool, c0, owner0, filled, available, continents, tileToContinent);
    }

    /**
     * The first loop of cleanupContinents: each cluster of the pool that
     * is smaller than MIN_OCEAN_SIZE and enclosed by a continent joins it.
     */
    method FillHoles(clusters: seq<set<HexPoint>>)
      requires Valid() && IsClustering(available, clusters)
      modifies this
      ensures Valid() && world == old(world)
      ensures continents == Filled(world, old(continents), clusters)
    {
      ghost var pool, c0 := available, continents;
      forall j | 0 <= j < |clusters|
        ensures clusters[j] <= available
      {
        ClusterInside(pool, clusters, j);
      }
      for k := 0 to |clusters|
        invariant Valid() && world == old(world)
        invariant available <= pool
        invariant forall j :: k <= j < |clusters| ==> clusters[j] <= available
        invariant continents == Filled(world, c0, clusters[..k])
      {
        FilledIsHoles(world, c0, clusters[..k], pool);
        FillHole(clusters[k], c0, pool);
        assert clusters[..k + 1][..k] == clusters[..k];
        forall j | k < j < |clusters|
          ensures clusters[j] <= available
        {
          assert clusters[j] !! clusters[k];
        }
      }
      assert clusters[..|clusters|] == clusters;
    }

    /**
     * One pass of that loop, on the pool cluster h: when it is small and
     * getSurroundingContinent names a continent, h joins it. By the
     * lemmas above, that happens exactly when a continent of the split c0
     * (before any hole was filled) encloses h.
     */
    method FillHole(h: set<HexPoint>, ghost c0: seq<set<HexPoint>>, ghost pool: set<HexPoint>)
      requires Valid() && h <= available && available <= pool && Closed(pool, h)
      requires |continents| == |c0| && PairwiseDisjoint(c0)
      requires forall j :: 0 <= j < |c0| ==> c0[j] <= continents[j] <= c0[j] + pool
      modifies this
      ensures Valid() && world == old(world)
      ensures continents == AddHole(world, c0, old(continents), h)
      ensures available == old(available) || available == old(available) - h
    {
      if |h| < WaterPainter.MinOceanSize {
        FrontierOutsidePool(world, pool, h);
        var surrounding := GetSurroundingContinent(h);
        assert surrounding.Ok?;
        if surrounding.value.Some? {
          var i := surrounding.value.value;
          SurroundingIsEnclosing(world, available, continents, tileToContinent, c0, pool, h, i);
          AbsorbCluster(h, i);
        } else {
          NoSurroundingNoEnclosing(world, available, continents, tileToContinent, c0, h);
        }
      } else {
        NothingEnclosedKeeps(world, c0, continents, h);
      }
    }

    /** The second loop of cleanupContinents: smooth every continent in turn. */
    method SmoothAll()
      requires Valid()
      modifies this
      ensures Valid() && world == old(world) && |continents| == |old(continents)|
      ensures forall i :: 0 <= i < |continents| ==> GreatestSmooth(old(continents[i]), continents[i])
    {
      for i := 0 to |continents|
        invariant Valid() && world == old(world) && |continents| == |old(continents)|
        invariant forall j :: 0 <= j < i ==> GreatestSmooth(old(continents[j]), continents[j])
        invariant forall j :: i <= j < |continents| ==> continents[j] == old(continents[j])
      {
        SmoothCoast(i);
      }
    }

    /**
     * generateContinents on a fresh split, with every world tile in the
     * pool: start a random number (in CONTINENT_COUNT_RANGE) of
     * continents, merge the ones that touch, and clean them up. The ghost
     * results name the stages, and ContinentsBuilt says what each stage
     * yields.
     */
    method GenerateContinents()
      returns (ghost stages: Stages)
      requires Valid() && continents == []
      modifies this
      ensures Valid() && world == old(world) && old(available) == world
      ensures ContinentsBuilt(world, stages, continents, available)
    {
      ghost var count, targets := GrowFresh();
      ghost var grown := continents;
      ReclusterContinents();
      ghost var merged := continents;
      ghost var holes, filled := CleanupContinents();
      stages := Stages(count, targets, grown, merged, holes, filled);
    }

    /** The growth loop of generateContinents, on a fresh split and a target count drawn from CONTINENT_COUNT_RANGE. */
    method GrowFresh() returns (ghost count: nat, ghost targets: seq<nat>)
      requires Valid() && continents == []
      modifies this
      ensures Valid() && world == old(world) && old(available) == world
      ensures GrowthStopped(world, count, targets, continents) && available == world - UnionAll(continents)
    {
      assert available == world by {
        PoolIsRest(world, available, continents, tileToContinent);
        assert UnionAll(continents) == {};
      }
      var numToGenerate :| MinContinentCount <= numToGenerate <= MaxContinentCount;
      count := numToGenerate;
      targets := GrowContinents(numToGenerate);
      PoolIsRest(world, available, continents, tileToContinent);
      UnionWithin(continents, world);
    }

    /**
     * generateOceanFloor: every pool tile drops to the ocean floor, then
     * every tile next to a continent becomes shallow coast; continent
     * tiles keep their elevation. Nothing but elevations changes.
     */
    method GenerateOceanFloor(tiles: map<HexPoint, Tile>)
      requires Valid() && Positioned(tiles) && tiles.Keys == world
      modifies tiles.Values
      ensures forall p :: p in tiles ==>
                tiles[p].elevation == if OnCoast(world, continents, p) then CoastElevation
                                      else if p in available then OceanFloorElevation
                                      else old(tiles[p].elevation)
      ensures forall p :: p in tiles ==> tiles[p].AllButElevation() == old(tiles[p].AllButElevation())
    {
      SetElevationAll(tiles, available, OceanFloorElevation);
      for k := 0 to |continents|
        invariant forall p :: p in tiles ==>
                    tiles[p].elevation == if OnCoast(world, continents[..k], p) then CoastElevation
                                          else if p in available then OceanFloorElevation
                                          else old(tiles[p].elevation)
        invariant forall p :: p in tiles ==> tiles[p].AllButElevation() == old(tiles[p].AllButElevation())
      {
        FrontierInWorld(world, continents[k]);
        OnCoastExtend(world, continents, k);
        SetElevationAll(tiles, Frontier(world, continents[k]), CoastElevation);
      }
      assert continents[..|continents|] == continents;
    }

    /** The last step of generate: paint every continent in turn. Only biomes change, and only on continent tiles. */
    method PaintContinents(tiles: map<HexPoint, Tile>)
      requires Positioned(tiles) && forall i :: 0 <= i < |continents| ==> continents[i] <= tiles.Keys
      modifies tiles.Values
      ensures forall p :: p in tiles ==> tiles[p].biome == old(tiles[p].biome) || Paintable(tiles[p].biome)
      ensures forall p :: p in tiles && (forall i :: 0 <= i < |continents| ==> p !in continents[i]) ==>
                tiles[p].biome == old(tiles[p].biome)
      ensures forall p :: p in tiles ==> tiles[p].AllButBiome() == old(tiles[p].AllButBiome())
    {
      for k := 0 to |continents|
        invariant forall p :: p in tiles ==> tiles[p].biome == old(tiles[p].biome) || Paintable(tiles[p].biome)
        invariant forall p :: p in tiles && (forall i :: 0 <= i < k ==> p !in continents[i]) ==>
                    tiles[p].biome == old(tiles[p].biome)
        invariant forall p :: p in tiles ==> tiles[p].AllButBiome() == old(tiles[p].AllButBiome())
      {
        label Before:
        var blotches, painted := PaintContinent(tiles, continents[k]);
        forall p | p in tiles
          ensures tiles[p].biome == old@Before(tiles[p].biome) || Paintable(tiles[p].biome)
          ensures p !in continents[k] ==> tiles[p].biome == old@Before(tiles[p].biome)
        {
          if InBlotch(blotches, p) {
            var s :| s in blotches && p in blotches[s];
          }
        }
      }
    }

    /**
     * The last two steps of generate on a finished split of the world:
     * sink the pool and the coasts, then paint the continents.
     */
    method FloorAndPaint(tiles: map<HexPoint, Tile>)
      requires Valid() && Positioned(tiles) && tiles.Keys == world
      modifies tiles.Values
      ensures forall p {:trigger tiles[p].elevation} :: p in tiles ==>
                tiles[p].elevation == if OnCoast(world, continents, p) then CoastElevation
                                      else if p in available then OceanFloorElevation
                                      else old(tiles[p].elevation)
      ensures forall p {:trigger tiles[p].biome} :: p in tiles ==> tiles[p].biome == old(tiles[p].biome) || Paintable(tiles[p].biome)
      ensures forall p {:trigger tiles[p].biome} :: p in available ==> p in tiles && tiles[p].biome == old(tiles[p].biome)
      ensures forall p {:trigger tiles[p].AllButBiomeAndElevation()} :: p in tiles ==> tiles[p].AllButBiomeAndElevation() == old(tiles[p].AllButBiomeAndElevation())
    {
      GenerateOceanFloor(tiles);
      label Floored:
      forall i | 0 <= i < |continents|
        ensures continents[i] <= tiles.Keys
      {
      }
      PaintContinents(tiles);
      forall p | p in tiles
        ensures tiles[p].elevation == old@Floored(tiles[p].elevation)
        ensures tiles[p].AllButBiomeAndElevation() == old(tiles[p].AllButBiomeAndElevation())
        ensures tiles[p].biome == old@Floored(tiles[p].biome) || Paintable(tiles[p].biome)
      {
        assert tiles[p].AllButBiome() == old@Floored(tiles[p].AllButBiome());
        assert old@Floored(tiles[p].AllButElevation()) == old(tiles[p].AllButElevation());
      }
      forall p | p in available
        ensures p in tiles && tiles[p].biome == old@Floored(tiles[p].biome)
      {
        forall i | 0 <= i < |continents|
          ensures p !in continents[i]
        {
        }
      }
    }

    /** The first half of generate: the whole world as the pool, then the continents. */
    method BuildContinents(tiles: map<HexPoint, Tile>)
      returns (ghost stages: Stages)
      requires continents == [] && tileToContinent == map[]
      modifies this
      ensures Valid() && world == tiles.Keys
      ensures ContinentsBuilt(world, stages, continents, available)
    {
      world := tiles.Keys;
      available := world;
      stages := GenerateContinents();
    }

    /** The second half of generate: the ocean floor and the biome blotches leave the continents as they are. */
    method FinishTiles(tiles: map<HexPoint, Tile>, ghost stages: Stages)
      requires Valid() && Positioned(tiles) && tiles.Keys == world
      requires ContinentsBuilt(world, stages, continents, available)
      modifies tiles.Values
      ensures Valid() && world == tiles.Keys && ContinentsBuilt(world, stages, continents, available)
      ensures forall p {:trigger tiles[p].elevation} :: p in tiles ==>
                tiles[p].elevation == if OnCoast(world, continents, p) then CoastElevation
                                      else if p in available then OceanFloorElevation
                                      else old(tiles[p].elevation)
      ensures forall p {:trigger tiles[p].biome} :: p in tiles ==> tiles[p].biome == old(tiles[p].biome) || Paintable(tiles[p].biome)
      ensures forall p {:trigger tiles[p].biome} :: p in available ==> p in tiles && tiles[p].biome == old(tiles[p].biome)
      ensures forall p {:trigger tiles[p].AllButBiomeAndElevation()} :: p in tiles ==> tiles[p].AllButBiomeAndElevation() == old(tiles[p].AllButBiomeAndElevation())
    {
      FloorAndPaint(tiles);
    }

    /**
     * generate: continents over the whole world, then the ocean floor,
     * then the biome blotches. The split of the world holds, every
     * continent is smooth, pool tiles sink to the ocean floor and coast
     * tiles to coast depth, only continent tiles are repainted, and only
     * elevation and biome change.
     */
    method Generate(tiles: map<HexPoint, Tile>)
      returns (ghost stages: Stages)
      requires Positioned(tiles) && continents == [] && tileToContinent == map[]
      modifies this, tiles.Values
      ensures Valid() && world == tiles.Keys
      ensures ContinentsBuilt(world, stages, continents, available)
      ensures forall p :: p in tiles ==>
                tiles[p].elevation == if OnCoast(world, continents, p) then CoastElevation
                                      else if p in available then OceanFloorElevation
                                      else old(tiles[p].elevation)
      ensures forall p :: p in tiles ==> tiles[p].biome == old(tiles[p].biome) || Paintable(tiles[p].biome)
      ensures forall p :: p in available ==> p in tiles && tiles[p].biome == old(tiles[p].biome)
      ensures forall p :: p in tiles ==> tiles[p].AllButBiomeAndElevation() == old(tiles[p].AllButBiomeAndElevation())
    {
      stages := BuildContinents(tiles);
      FinishTiles(tiles, stages);
    }
}
}
