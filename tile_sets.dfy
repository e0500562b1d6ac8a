/**
 * Set operations on groups of tile points that the generator stages call
 * on their Cluster and TileSet collaborators: the frontier of a cluster
 * (Cluster.allAdjacents), the in-cluster neighbour directions of a member
 * (the key set of Cluster.getAdjacentTiles), and splitting a set into its
 * connected pieces (TileSet.cluster). Those classes are not part of this
 * model's source files; the contracts here are the ones their names and
 * call sites imply.
 */
module TileSets {
  import opened Hex

  /** Points of world next to a member of c but not in c. */
  function Frontier(world: set<HexPoint>, c: set<HexPoint>): set<HexPoint> {
    set p, d | p in c && d in Directions && Shift(p, d) in world && Shift(p, d) !in c :: Shift(p, d)
  }

  /** The directions in which p has a neighbour inside c. */
  function DirsIn(c: set<HexPoint>, p: HexPoint): set<Direction> {
    set d | d in Directions && Shift(p, d) in c
  }

  /** The union of a list of sets. */
  function UnionAll(cs: seq<set<HexPoint>>): set<HexPoint> {
    if cs == [] then {} else UnionAll(cs[..|cs| - 1]) + cs[|cs| - 1]
  }

  lemma {:induction false} InUnionAll(cs: seq<set<HexPoint>>, p: HexPoint)
    ensures p in UnionAll(cs) <==> exists i :: 0 <= i < |cs| && p in cs[i]
  {
    if cs != [] {
      InUnionAll(cs[..|cs| - 1], p);
      if p in UnionAll(cs[..|cs| - 1]) {
        var i :| 0 <= i < |cs| - 1 && p in cs[..|cs| - 1][i];
        assert p in cs[i];
      }
    }
  }

  /** No member of c has a neighbour in s outside c. */
  ghost predicate Closed(s: set<HexPoint>, c: set<HexPoint>) {
    forall p, d :: p in c && Shift(p, d) in s ==> Shift(p, d) in c
  }

  /**
   * Every point after the first is adjacent to an earlier one, its
   * parent: the order in which a connected region can be grown.
   */
  ghost predicate GrowthOrder(order: seq<HexPoint>, parent: seq<nat>) {
    && |parent| == |order|
    && forall i :: 0 < i < |order| ==> parent[i] < i && Adjacent(order[parent[i]], order[i])
  }

  /** c can be grown one neighbour at a time from one of its points. */
  ghost predicate Connected(c: set<HexPoint>) {
    exists order: seq<HexPoint>, parent: seq<nat> :: GrowthOrder(order, parent) && (set x | x in order) == c
  }

  ghost predicate PairwiseDisjoint(cs: seq<set<HexPoint>>) {
    forall i, j :: 0 <= i < j < |cs| ==> cs[i] !! cs[j]
  }

  /** cs splits s into non-empty, disjoint, connected pieces, none of which touches another part of s. */
  ghost predicate IsClustering(s: set<HexPoint>, cs: seq<set<HexPoint>>) {
    && UnionAll(cs) == s
    && PairwiseDisjoint(cs)
    && (forall i :: 0 <= i < |cs| ==> cs[i] != {} && Closed(s, cs[i]) && Connected(cs[i]))
  }

  /** A growth order extended by a neighbour of one of its points is still a growth order. */
  lemma GrowthOrderExtend(order: seq<HexPoint>, parent: seq<nat>, j: nat, d: Direction)
    requires GrowthOrder(order, parent) && j < |order|
    ensures GrowthOrder(order + [Shift(order[j], d)], parent + [j])
  {
  }

  /**
   * One step of the flood fill: add to c (and to the work list) every
   * neighbour of p that lies in rest and is not yet in c.
   */
  method VisitNeighbours(rest: set<HexPoint>, p: HexPoint, c: set<HexPoint>,
                         ghost order: seq<HexPoint>, ghost parent: seq<nat>)
    returns (c': set<HexPoint>, ghost order': seq<HexPoint>, ghost parent': seq<nat>)
    requires p in c && c <= rest
    requires GrowthOrder(order, parent) && (set x | x in order) == c
    ensures c <= c' <= rest
    ensures forall d :: Shift(p, d) in rest ==> Shift(p, d) in c'
    ensures GrowthOrder(order', parent') && (set x | x in order') == c'
  {
    c', order', parent' := c, order, parent;
    assert p in order;
    ghost var j :| 0 <= j < |order| && order[j] == p;
    for i := 0 to |Directions|
      invariant c <= c' <= rest
      invariant j < |order'| && order'[j] == p
      invariant forall k :: 0 <= k < i && Shift(p, Directions[k]) in rest ==> Shift(p, Directions[k]) in c'
      invariant GrowthOrder(order', parent') && (set x | x in order') == c'
    {
      var q := Shift(p, Directions[i]);
      if q in rest && q !in c' {
        GrowthOrderExtend(order', parent', j, Directions[i]);
        order', parent' := order' + [q], parent' + [j];
        c' := c' + {q};
      }
    }
    forall d | Shift(p, d) in rest
      ensures Shift(p, d) in c'
    {
      assert Directions[Index(d)] == d;
    }
  }

  /**
   * Flood fill from seed inside rest: the connected piece of rest that
   * contains seed. When rest has no neighbours in s outside itself, the
   * piece has none either.
   */
  method FloodFill(s: set<HexPoint>, rest: set<HexPoint>, seed: HexPoint) returns (c: set<HexPoint>)
    requires seed in rest && rest <= s
    requires forall p, d :: p in rest && Shift(p, d) in s ==> Shift(p, d) in rest
    ensures seed in c && c <= rest
    ensures Closed(s, c) && Connected(c)
  {
    c := {seed};
    var todo := {seed};
    ghost var order, parent := [seed], [0];
    while todo != {}
      invariant seed in c && c <= rest && todo <= c
      invariant forall p, d :: p in c - todo && Shift(p, d) in rest ==> Shift(p, d) in c
      invariant GrowthOrder(order, parent) && (set x | x in order) == c
      decreases |rest - c|, |todo|
    {
      var p :| p in todo;
      var c' ;
      c', order, parent := VisitNeighbours(rest, p, c, order, parent);
      if c' == c {
        todo := todo - {p};
      } else {
        assert rest - c' < rest - c;
        todo := todo - {p} + (c' - c);
      }
      c := c';
    }
    assert GrowthOrder(order, parent) && (set x | x in order) == c;
  }

  /** TileSet.cluster: split s into its connected pieces. */
  method ClusterSet(s: set<HexPoint>) returns (cs: seq<set<HexPoint>>)
    ensures IsClustering(s, cs)
  {
    cs := [];
    var rest := s;
    while rest != {}
      invariant rest <= s && UnionAll(cs) == s - rest
      invariant forall p, d :: p in rest && Shift(p, d) in s ==> Shift(p, d) in rest
      invariant PairwiseDisjoint(cs)
      invariant forall i :: 0 <= i < |cs| ==> cs[i] != {} && Closed(s, cs[i]) && Connected(cs[i])
      decreases |rest|
    {
      var seed :| seed in rest;
      var c := FloodFill(s, rest, seed);
      forall i | 0 <= i < |cs|
        ensures cs[i] !! c
      {
        InUnionAll(cs, seed);
        forall p | p in cs[i]
          ensures p !in c
        {
          InUnionAll(cs, p);
        }
      }
      forall p, d | p in rest - c && Shift(p, d) in s
        ensures Shift(p, d) in rest - c
      {
        if Shift(p, d) in c {
          ShiftOpposite(p, d);
        }
      }
      assert cs + [c] == cs + [c];
      assert (cs + [c])[..|cs|] == cs;
      cs := cs + [c];
      rest := rest - c;
    }
  }

  /** Walking back along parents from a point of a closed set stays in it, so the first point of the order is in it. */
  lemma {:induction false} RootInClosed(s: set<HexPoint>, c: set<HexPoint>, order: seq<HexPoint>, parent: seq<nat>, k: nat)
    requires GrowthOrder(order, parent) && (forall x :: x in order ==> x in s) && Closed(s, c)
    requires k < |order| && order[k] in c
    ensures order[0] in c
    decreases k
  {
    if k > 0 {
      var q := order[parent[k]];
      AdjacentSymmetric(q, order[k]);
      AdjacentIsShift(order[k], q);
      var d :| Shift(order[k], d) == q;
      RootInClosed(s, c, order, parent, parent[k]);
    }
  }

  /** Walking forward from the first point of the order stays in a closed set that holds it. */
  lemma {:induction false} OrderInClosed(s: set<HexPoint>, c: set<HexPoint>, order: seq<HexPoint>, parent: seq<nat>, k: nat)
    requires GrowthOrder(order, parent) && (forall x :: x in order ==> x in s) && Closed(s, c)
    requires k < |order| && order[0] in c
    ensures order[k] in c
    decreases k
  {
    if k > 0 {
      OrderInClosed(s, c, order, parent, parent[k]);
      AdjacentIsShift(order[parent[k]], order[k]);
    }
  }

  /** A connected part of s that meets a closed part of s lies inside it. */
  lemma ConnectedInsideClosed(s: set<HexPoint>, a: set<HexPoint>, c: set<HexPoint>, p: HexPoint)
    requires Connected(a) && a <= s && Closed(s, c) && p in a && p in c
    ensures a <= c
  {
    var order, parent :| GrowthOrder(order, parent) && (set x | x in order) == a;
    var k :| 0 <= k < |order| && order[k] == p;
    RootInClosed(s, c, order, parent, k);
    forall x | x in a
      ensures x in c
    {
      var m :| 0 <= m < |order| && order[m] == x;
      OrderInClosed(s, c, order, parent, m);
    }
  }

  /**
   * The pieces are determined by s alone: in any two clusterings of s, the
   * pieces that contain a given point are the same set.
   */
  lemma ClusteringUnique(s: set<HexPoint>, a: seq<set<HexPoint>>, b: seq<set<HexPoint>>, i: nat, j: nat, p: HexPoint)
    requires IsClustering(s, a) && IsClustering(s, b)
    requires i < |a| && j < |b| && p in a[i] && p in b[j]
    ensures a[i] == b[j]
  {
    ClusterInside(s, a, i);
    ClusterInside(s, b, j);
    ConnectedInsideClosed(s, a[i], b[j], p);
    ConnectedInsideClosed(s, b[j], a[i], p);
  }

  lemma ClusterInside(s: set<HexPoint>, cs: seq<set<HexPoint>>, i: nat)
    requires IsClustering(s, cs) && i < |cs|
    ensures cs[i] <= s
  {
    forall x | x in cs[i]
      ensures x in s
    {
      InUnionAll(cs, x);
    }
  }
}
