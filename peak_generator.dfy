/**
 * PeakGenerator: picks a handful of mountain peaks that are well apart,
 * raises each one, and pulls each neighbour of a peak up towards the mean
 * of the peak and the tile beyond that neighbour.
 */
module PeakGenerator {
  import opened Hex
  import opened Errors
  import opened TerraingenTile
  import opened WorldHelper

  /** PEAK_COUNT_RANGE, inclusive. */
  const MinPeakCount: nat := 7
  const MaxPeakCount: nat := 10
  /** PEAK_ELEVATION_RANGE, inclusive: how far a peak is raised. */
  const MinPeakGain: int := 45
  const MaxPeakGain: int := 60
  /** MIN_PEAK_SEPARATION: peaks are further apart than this many steps. */
  const MinPeakSeparation: nat := 2
  /** SMOOTHING_SLOP: the random variation applied to a smoothed neighbour, either way. */
  const SmoothingSlop: int := 4

  /** Java integer division by 2, which truncates toward zero. */
  function TruncatedHalf(n: int): int {
    if n >= 0 then n / 2 else -((-n) / 2)
  }

  /**
   * Truncated halving rounds toward zero: it agrees with floor division on
   * non-negative and even numbers and is one more on negative odd numbers.
   */
  lemma TruncatedHalfFacts(n: int)
    ensures n >= 0 ==> 0 <= n - 2 * TruncatedHalf(n) <= 1
    ensures n < 0 ==> 0 <= 2 * TruncatedHalf(n) - n <= 1
    ensures TruncatedHalf(-n) == -TruncatedHalf(n)
    ensures TruncatedHalf(n) == n / 2 <==> n >= 0 || n % 2 == 0
  {
  }

  /** The elevation a peak's neighbour is given: the truncated mean of the (unclamped) peak elevation and the opposite elevation, plus slop, coerced into range. */
  function SmoothedElevation(peakElev: int, oppElev: int, slop: int): int {
    ClampElevation(TruncatedHalf(peakElev + oppElev) + slop)
  }

  /** No peak is within MinPeakSeparation in-world steps of another. */
  ghost predicate Separated(world: set<HexPoint>, peaks: set<HexPoint>) {
    forall p, q :: p in peaks && q in peaks && p != q ==> q !in Ball(world, p, MinPeakSeparation)
  }

  /** Every world point is within MinPeakSeparation steps of some peak: no candidate is left. */
  ghost predicate Exhausted(world: set<HexPoint>, peaks: set<HexPoint>) {
    forall q :: q in world ==> exists p :: p in peaks && q in Ball(world, p, MinPeakSeparation)
  }

  /**
   * What the selection loop keeps: the chosen peaks are separated, every
   * remaining candidate is out of range of every peak, and every dropped
   * candidate is in range of some peak.
   */
  ghost predicate SelectionInvariant(world: set<HexPoint>, peaks: set<HexPoint>, potential: set<HexPoint>) {
    && potential <= world && peaks <= world
    && Separated(world, peaks)
    && (forall p, q :: p in peaks && q in potential ==> q !in Ball(world, p, MinPeakSeparation))
    && (forall q :: q in world - potential ==> exists p :: p in peaks && q in Ball(world, p, MinPeakSeparation))
  }

  /** Taking a remaining candidate as a peak and dropping its range keeps the invariant, and drops at least the new peak. */
  lemma AddPeak(world: set<HexPoint>, peaks: set<HexPoint>, potential: set<HexPoint>, peak: HexPoint)
    requires SelectionInvariant(world, peaks, potential) && peak in potential
    ensures peak !in peaks && peak in Ball(world, peak, MinPeakSeparation)
    ensures SelectionInvariant(world, peaks + {peak}, potential - Ball(world, peak, MinPeakSeparation))
  {
    var range := Ball(world, peak, MinPeakSeparation);
    OriginInBall(world, peak, MinPeakSeparation);
    forall p | p in peaks
      ensures p !in range && peak !in Ball(world, p, MinPeakSeparation)
    {
      if p in range {
        BallSymmetric(world, peak, p, MinPeakSeparation);
      }
    }
    var peaks', potential' := peaks + {peak}, potential - range;
    forall q | q in world - potential'
      ensures exists p :: p in peaks' && q in Ball(world, p, MinPeakSeparation)
    {
      if q in range {
        assert peak in peaks';
      } else {
        assert q in world - potential;
        var p :| p in peaks && q in Ball(world, p, MinPeakSeparation);
        assert p in peaks';
      }
    }
  }

  /**
   * The selection loop: repeatedly take a random remaining candidate as a
   * peak and drop every candidate in its range. It stops at the randomly
   * drawn target count or when no candidate is left; the peaks are world
   * points more than MinPeakSeparation steps apart.
   */
  method SelectPeaks(world: set<HexPoint>) returns (peaks: set<HexPoint>, target: nat)
    ensures MinPeakCount <= target <= MaxPeakCount
    ensures peaks <= world && |peaks| <= target
    ensures Separated(world, peaks)
    ensures |peaks| < target ==> Exhausted(world, peaks)
  {
    target :| MinPeakCount <= target <= MaxPeakCount;
    var potential := world;
    peaks := {};
    while |peaks| < target && potential != {}
      invariant SelectionInvariant(world, peaks, potential) && |peaks| <= target
      decreases potential
    {
      var peak :| peak in potential;
      var tooClose := GetTilesInRange(world, peak, MinPeakSeparation);
      AddPeak(world, peaks, potential, peak);
      peaks := peaks + {peak};
      potential := potential - tooClose.value;
    }
    if |peaks| < target {
      assert world - potential == world;
    }
  }

  /** A neighbour of p and the tile beyond it in the same direction are both within two steps of p. */
  lemma WithinTwoSteps(world: set<HexPoint>, p: HexPoint, d: Direction)
    requires p in world && Shift(p, d) in world
    ensures Shift(p, d) in Ball(world, p, 2)
    ensures Shift(Shift(p, d), d) in world ==> Shift(Shift(p, d), d) in Ball(world, p, 2)
  {
    var b1 := Ball(world, p, 1);
    assert Ball(world, p, 0) == {p};
    assert Shift(p, d) in Expand(world, {p});
    assert Shift(p, d) in b1;
    if Shift(Shift(p, d), d) in world {
      assert Shift(Shift(p, d), d) in Expand(world, b1);
    }
  }

  /**
   * What separation buys the smoothing step: a peak is not next to another
   * peak, no tile is next to two peaks, and the tile beyond a peak's
   * neighbour is neither a peak nor next to that peak.
   */
  lemma SeparationFacts(world: set<HexPoint>, peaks: set<HexPoint>, p: HexPoint, d: Direction)
    requires peaks <= world && Separated(world, peaks) && p in peaks && Shift(p, d) in world
    ensures Shift(p, d) !in peaks
    ensures forall e :: Shift(Shift(p, d), e) in peaks ==> Shift(Shift(p, d), e) == p
    ensures Shift(Shift(p, d), d) in world ==> Shift(Shift(p, d), d) !in peaks
    ensures forall e :: Shift(Shift(Shift(p, d), d), e) != p
  {
    WithinTwoSteps(world, p, d);
    BallMonotone(world, p, 1, 2);
    ShiftIsUnitStep(p, d);
    forall e | Shift(Shift(p, d), e) in peaks
      ensures Shift(Shift(p, d), e) == p
    {
      var q := Shift(Shift(p, d), e);
      if q != p {
        assert false;
      }
    }
    forall e
      ensures Shift(Shift(Shift(p, d), d), e) != p
    {
      if Shift(Shift(Shift(p, d), d), e) == p {
        ShiftOpposite(Shift(Shift(p, d), d), e);
        DoubleShiftNotAdjacent(p, d, Opposite(e));
      }
    }
  }

  /** The tile beyond the neighbour of p in direction d, on the same line. */
  function Beyond(p: HexPoint, d: Direction): HexPoint {
    Shift(Shift(p, d), d)
  }

  /** Some neighbour of q is one of the peaks. */
  ghost predicate NextToPeak(peaks: set<HexPoint>, q: HexPoint) {
    exists e :: Shift(q, e) in peaks
  }

  /**
   * The neighbour of p in direction d has the smoothed elevation in after,
   * for the recorded slop and opposite elevation.
   */
  predicate SmoothedWith(after: map<HexPoint, int>, p: HexPoint, d: Direction, peakElev: int,
                         slop: map<(HexPoint, Direction), int>, opp: map<(HexPoint, Direction), int>)
  {
    && Shift(p, d) in after
    && (p, d) in slop && -SmoothingSlop <= slop[(p, d)] <= SmoothingSlop
    && (p, d) in opp
    && after[Shift(p, d)] == SmoothedElevation(peakElev, opp[(p, d)], slop[(p, d)])
  }

  /** The opposite elevation recorded for (p, d) is what before holds beyond the neighbour, or 0 outside the world. */
  predicate OppositeFrom(before: map<HexPoint, int>, p: HexPoint, d: Direction, opp: map<(HexPoint, Direction), int>)
    requires (p, d) in opp
  {
    opp[(p, d)] == if Beyond(p, d) in before then before[Beyond(p, d)] else 0
  }

  /** The tile beyond a neighbour of p is neither p nor another neighbour of p. */
  lemma BeyondIsFar(p: HexPoint, d: Direction)
    ensures Beyond(p, d) != p && !Adjacent(Beyond(p, d), p)
  {
    ShiftIsUnitStep(p, d);
    if Adjacent(Beyond(p, d), p) {
      AdjacentIsShift(Beyond(p, d), p);
      var e :| Shift(Beyond(p, d), e) == p;
      ShiftOpposite(Beyond(p, d), e);
      DoubleShiftNotAdjacent(p, d, Opposite(e));
    }
  }

  /**
   * Smooth the neighbour of p in direction d towards the truncated mean of
   * peakElev and the elevation beyond it (0 when that is outside the
   * world), plus a random slop; returns the slop drawn and the elevation read.
   */
  method SmoothNeighbour(tiles: map<HexPoint, Tile>, p: HexPoint, d: Direction, peakElev: int)
    returns (slop: int, oppElev: int)
    requires Positioned(tiles) && Shift(p, d) in tiles
    modifies tiles[Shift(p, d)]
    ensures -SmoothingSlop <= slop <= SmoothingSlop
    ensures oppElev == if Beyond(p, d) in tiles then old(tiles[Beyond(p, d)].elevation) else 0
    ensures tiles[Shift(p, d)].elevation == SmoothedElevation(peakElev, oppElev, slop)
    ensures tiles[Shift(p, d)].AllButElevation() == old(tiles[Shift(p, d)].AllButElevation())
  {
    var adjPos := Shift(p, d);
    var oppPos := Shift(adjPos, d);
    oppElev := if oppPos in tiles then tiles[oppPos].elevation else 0;
    slop :| -SmoothingSlop <= slop <= SmoothingSlop;
    tiles[adjPos].SetElevation(TruncatedHalf(peakElev + oppElev) + slop);
  }

  /** What the neighbour loop of one peak keeps after handling the first i directions. */
  ghost predicate SmoothInvariant(p: HexPoint, peakElev: int, before: map<HexPoint, int>, after: map<HexPoint, int>,
                                  slop0: map<(HexPoint, Direction), int>, opp0: map<(HexPoint, Direction), int>,
                                  slop: map<(HexPoint, Direction), int>, opp: map<(HexPoint, Direction), int>,
                                  touched: set<HexPoint>, i: nat)
  {
    && i <= |Directions|
    && after.Keys == before.Keys
    && (forall k :: 0 <= k < i && Shift(p, Directions[k]) in after ==>
          SmoothedWith(after, p, Directions[k], peakElev, slop, opp) && OppositeFrom(before, p, Directions[k], opp))
    && (forall k :: k in slop0 && k.0 != p ==> k in slop && slop[k] == slop0[k])
    && (forall k :: k in opp0 && k.0 != p ==> k in opp && opp[k] == opp0[k])
    && (forall q :: q in touched ==> Adjacent(q, p))
    && (forall k :: i <= k < |Directions| ==> Shift(p, Directions[k]) !in touched)
    && (forall q :: q in after && q !in touched ==> after[q] == before[q])
  }

  /** One iteration of the neighbour loop. */
  method SmoothStep(tiles: map<HexPoint, Tile>, p: HexPoint, peakElev: int, i: nat, ghost before: map<HexPoint, int>,
                    ghost after: map<HexPoint, int>, ghost slop0: map<(HexPoint, Direction), int>, ghost opp0: map<(HexPoint, Direction), int>,
                    ghost slop: map<(HexPoint, Direction), int>, ghost opp: map<(HexPoint, Direction), int>, ghost touched: set<HexPoint>)
    returns (ghost after': map<HexPoint, int>, ghost slop': map<(HexPoint, Direction), int>, ghost opp': map<(HexPoint, Direction), int>,
             ghost touched': set<HexPoint>)
    requires i < |Directions|
    requires Positioned(tiles) && HasElevations(tiles, after) && SmoothInvariant(p, peakElev, before, after, slop0, opp0, slop, opp, touched, i)
    modifies tiles.Values
    ensures HasElevations(tiles, after') && SmoothInvariant(p, peakElev, before, after', slop0, opp0, slop', opp', touched', i + 1)
    ensures forall q :: q in tiles ==> tiles[q].AllButElevation() == old(tiles[q].AllButElevation())
  {
    after', slop', opp', touched' := after, slop, opp, touched;
    var dir := Directions[i];
    if Shift(p, dir) in tiles {
      ghost var adj := Shift(p, dir);
      var s, oppElev := SmoothNeighbour(tiles, p, dir, peakElev);
      after' := after[adj := tiles[adj].elevation];
      SmoothStepState(p, peakElev, i, before, after, slop0, opp0, slop, opp, touched, s, oppElev, tiles[adj].elevation);
      slop', opp' := slop[(p, dir) := s], opp[(p, dir) := oppElev];
      touched' := touched + {adj};
    } else {
      SkipStepState(p, peakElev, i, before, after, slop0, opp0, slop, opp, touched);
    }
  }

  /** The ghost bookkeeping of one smoothed neighbour. */
  lemma SmoothStepState(p: HexPoint, peakElev: int, i: nat, before: map<HexPoint, int>, after: map<HexPoint, int>,
                        slop0: map<(HexPoint, Direction), int>, opp0: map<(HexPoint, Direction), int>,
                        slop: map<(HexPoint, Direction), int>, opp: map<(HexPoint, Direction), int>, touched: set<HexPoint>,
                        s: int, oppElev: int, e: int)
    requires i < |Directions| && SmoothInvariant(p, peakElev, before, after, slop0, opp0, slop, opp, touched, i)
    requires Shift(p, Directions[i]) in after && -SmoothingSlop <= s <= SmoothingSlop
    requires oppElev == if Beyond(p, Directions[i]) in after then after[Beyond(p, Directions[i])] else 0
    requires e == SmoothedElevation(peakElev, oppElev, s)
    ensures SmoothInvariant(p, peakElev, before, after[Shift(p, Directions[i]) := e], slop0, opp0,
                            slop[(p, Directions[i]) := s], opp[(p, Directions[i]) := oppElev], touched + {Shift(p, Directions[i])}, i + 1)
  {
    var dir := Directions[i];
    var adj := Shift(p, dir);
    var after', slop', opp', touched' := after[adj := e], slop[(p, dir) := s], opp[(p, dir) := oppElev], touched + {adj};
    BeyondIsFar(p, dir);
    AdjacentShift(p, dir);
    AdjacentSymmetric(p, adj);
    assert Beyond(p, dir) !in touched;
    assert OppositeFrom(before, p, dir, opp');
    forall k | 0 <= k < i + 1 && Shift(p, Directions[k]) in after'
      ensures SmoothedWith(after', p, Directions[k], peakElev, slop', opp') && OppositeFrom(before, p, Directions[k], opp')
    {
      if k < i {
        assert Directions[k] != dir;
        assert Shift(p, Directions[k]) != adj by {
          if Shift(p, Directions[k]) == adj {
            ShiftInjective(p, Directions[k], dir);
          }
        }
      }
    }
    forall k | i + 1 <= k < |Directions|
      ensures Shift(p, Directions[k]) !in touched'
    {
      if Shift(p, Directions[k]) == adj {
        ShiftInjective(p, Directions[k], dir);
      }
    }
    forall q | q in touched'
      ensures Adjacent(q, p)
    {
    }
  }

  /** The ghost bookkeeping when the neighbour lies outside the world. */
  lemma SkipStepState(p: HexPoint, peakElev: int, i: nat, before: map<HexPoint, int>, after: map<HexPoint, int>,
                      slop0: map<(HexPoint, Direction), int>, opp0: map<(HexPoint, Direction), int>,
                      slop: map<(HexPoint, Direction), int>, opp: map<(HexPoint, Direction), int>, touched: set<HexPoint>)
    requires i < |Directions| && SmoothInvariant(p, peakElev, before, after, slop0, opp0, slop, opp, touched, i)
    requires Shift(p, Directions[i]) !in after
    ensures SmoothInvariant(p, peakElev, before, after, slop0, opp0, slop, opp, touched, i + 1)
  {
  }


  /**
   * The neighbour loop of one peak: smooth each world neighbour of p in
   * direction order. Only neighbours of p change, and each gets the
   * smoothed elevation for the elevation beyond it before the loop.
   */
  method SmoothNeighbours(tiles: map<HexPoint, Tile>, p: HexPoint, peakElev: int, ghost before: map<HexPoint, int>,
                          ghost slop: map<(HexPoint, Direction), int>, ghost opp: map<(HexPoint, Direction), int>)
    returns (ghost after: map<HexPoint, int>, ghost slop': map<(HexPoint, Direction), int>, ghost opp': map<(HexPoint, Direction), int>)
    requires Positioned(tiles) && HasElevations(tiles, before)
    modifies tiles.Values
    ensures HasElevations(tiles, after)
    ensures forall d :: Shift(p, d) in after ==> SmoothedWith(after, p, d, peakElev, slop', opp') && OppositeFrom(before, p, d, opp')
    ensures forall k :: k in slop && k.0 != p ==> k in slop' && slop'[k] == slop[k]
    ensures forall k :: k in opp && k.0 != p ==> k in opp' && opp'[k] == opp[k]
    ensures forall q :: q in after && !Adjacent(q, p) ==> after[q] == before[q]
    ensures forall q :: q in tiles ==> tiles[q].AllButElevation() == old(tiles[q].AllButElevation())
  {
    after, slop', opp' := before, slop, opp;
    ghost var touched: set<HexPoint> := {};
    for i := 0 to |Directions|
      invariant HasElevations(tiles, after)
      invariant SmoothInvariant(p, peakElev, before, after, slop, opp, slop', opp', touched, i)
      invariant forall q :: q in tiles ==> tiles[q].AllButElevation() == old(tiles[q].AllButElevation())
    {
      after, slop', opp', touched := SmoothStep(tiles, p, peakElev, i, before, after, slop, opp, slop', opp', touched);
    }
    forall d | Shift(p, d) in after
      ensures SmoothedWith(after, p, d, peakElev, slop', opp') && OppositeFrom(before, p, d, opp')
    {
      assert Directions[Index(d)] == d;
    }
  }

  /**
   * One peak raised: starting from the elevations cur, the peak p got a
   * gain in PEAK_ELEVATION_RANGE (coerced into range), each world
   * neighbour got the smoothed elevation for the elevation beyond it in
   * cur, and every other tile kept its elevation.
   */
  predicate OnePeakRaised(p: HexPoint, cur: map<HexPoint, int>, cur': map<HexPoint, int>, gain: map<HexPoint, int>,
                          slop: map<(HexPoint, Direction), int>, opp: map<(HexPoint, Direction), int>)
  {
    && cur'.Keys == cur.Keys && p in cur
    && p in gain && MinPeakGain <= gain[p] <= MaxPeakGain
    && cur'[p] == ClampElevation(cur[p] + gain[p])
    && (forall d :: Shift(p, d) in cur' ==> SmoothedWith(cur', p, d, cur[p] + gain[p], slop, opp) && OppositeFrom(cur, p, d, opp))
    && (forall q :: q in cur' && q != p && !Adjacent(q, p) ==> cur'[q] == cur[q])
  }

  /**
   * One iteration of the peak loop: raise the peak at p by a random gain
   * and smooth its neighbours. The ghost maps record the random draws and
   * the elevations read.
   */
  method RaisePeak(tiles: map<HexPoint, Tile>, p: HexPoint, ghost cur: map<HexPoint, int>,
                   ghost gain: map<HexPoint, int>, ghost slop: map<(HexPoint, Direction), int>, ghost opp: map<(HexPoint, Direction), int>)
    returns (ghost cur': map<HexPoint, int>, ghost gain': map<HexPoint, int>,
             ghost slop': map<(HexPoint, Direction), int>, ghost opp': map<(HexPoint, Direction), int>)
    requires Positioned(tiles) && HasElevations(tiles, cur) && p in tiles
    modifies tiles.Values
    ensures HasElevations(tiles, cur')
    ensures OnePeakRaised(p, cur, cur', gain', slop', opp')
    ensures gain' == gain[p := gain'[p]]
    ensures forall k :: k in slop && k.0 != p ==> k in slop' && slop'[k] == slop[k]
    ensures forall k :: k in opp && k.0 != p ==> k in opp' && opp'[k] == opp[k]
    ensures forall q :: q in tiles ==> tiles[q].AllButElevation() == old(tiles[q].AllButElevation())
  {
    var peak := tiles[p];
    var g :| MinPeakGain <= g <= MaxPeakGain;
    var peakElev := peak.elevation + g;
    peak.SetElevation(peakElev);
    gain' := gain[p := g];
    ghost var mid := cur[p := tiles[p].elevation];
    cur', slop', opp' := SmoothNeighbours(tiles, p, peakElev, mid, slop, opp);
    RaisedState(p, peakElev, cur, mid, cur', gain', slop', opp');
  }

  /** The elevations after the peak and its neighbours are set make up one raised peak. */
  lemma RaisedState(p: HexPoint, peakElev: int, cur: map<HexPoint, int>, mid: map<HexPoint, int>, cur': map<HexPoint, int>,
                    gain: map<HexPoint, int>, slop: map<(HexPoint, Direction), int>, opp: map<(HexPoint, Direction), int>)
    requires p in cur && p in gain && MinPeakGain <= gain[p] <= MaxPeakGain && peakElev == cur[p] + gain[p]
    requires mid == cur[p := ClampElevation(peakElev)] && cur'.Keys == mid.Keys
    requires forall d :: Shift(p, d) in cur' ==> SmoothedWith(cur', p, d, peakElev, slop, opp) && OppositeFrom(mid, p, d, opp)
    requires forall q :: q in cur' && !Adjacent(q, p) ==> cur'[q] == mid[q]
    ensures OnePeakRaised(p, cur, cur', gain, slop, opp)
  {
    forall d | Shift(p, d) in cur'
      ensures OppositeFrom(cur, p, d, opp)
    {
      BeyondIsFar(p, d);
    }
  }

  /**
   * What the peak loop keeps after handling the peaks in done: each of them
   * is raised, each of their world neighbours is smoothed (reading beyond it
   * either the original elevation or, when that tile was itself smoothed
   * earlier, its final one), and every other tile is untouched.
   */
  ghost predicate PeaksRaised(done: set<HexPoint>, before: map<HexPoint, int>, after: map<HexPoint, int>, gain: map<HexPoint, int>,
                              slop: map<(HexPoint, Direction), int>, opp: map<(HexPoint, Direction), int>)
  {
    && after.Keys == before.Keys && done <= before.Keys
    && (forall p :: p in done ==> p in gain && MinPeakGain <= gain[p] <= MaxPeakGain && after[p] == ClampElevation(before[p] + gain[p]))
    && (forall p, d :: p in done && Shift(p, d) in after ==>
          && SmoothedWith(after, p, d, before[p] + gain[p], slop, opp)
          && (OppositeFrom(before, p, d, opp) || (NextToPeak(done, Beyond(p, d)) && Beyond(p, d) in after && opp[(p, d)] == after[Beyond(p, d)])))
    && (forall q :: q in after && q !in done && !NextToPeak(done, q) ==> after[q] == before[q])
  }

  /** A world tile next to a peak is not a peak and is next to no other peak. */
  lemma NeighbourOfOnePeak(world: set<HexPoint>, peaks: set<HexPoint>, q: HexPoint, p: HexPoint)
    requires peaks <= world && Separated(world, peaks) && p in peaks && q in world && Adjacent(q, p)
    ensures q !in peaks
    ensures forall e :: Shift(q, e) in peaks ==> Shift(q, e) == p
  {
    AdjacentSymmetric(q, p);
    AdjacentIsShift(p, q);
    var d :| Shift(p, d) == q;
    SeparationFacts(world, peaks, p, d);
  }

  /** A peak is not next to any other peak. */
  lemma PeakNotNextToPeak(world: set<HexPoint>, peaks: set<HexPoint>, done: set<HexPoint>, p: HexPoint)
    requires peaks <= world && Separated(world, peaks) && done <= peaks && p in peaks - done
    ensures !NextToPeak(done, p)
  {
    if NextToPeak(done, p) {
      var e :| Shift(p, e) in done;
      AdjacentShift(p, e);
      NeighbourOfOnePeak(world, peaks, p, Shift(p, e));
    }
  }

  /** The peaks handled so far, and p, are at their raised elevations after p is raised. */
  lemma RaiseStepPeaks(peaks: set<HexPoint>, done: set<HexPoint>, p: HexPoint, before: map<HexPoint, int>,
                       cur: map<HexPoint, int>, cur': map<HexPoint, int>,
                       gain: map<HexPoint, int>, slop: map<(HexPoint, Direction), int>, opp: map<(HexPoint, Direction), int>,
                       gain': map<HexPoint, int>, slop': map<(HexPoint, Direction), int>, opp': map<(HexPoint, Direction), int>)
    requires peaks <= before.Keys && Separated(before.Keys, peaks) && done <= peaks && p in peaks - done
    requires PeaksRaised(done, before, cur, gain, slop, opp)
    requires OnePeakRaised(p, cur, cur', gain', slop', opp')
    requires gain' == gain[p := gain'[p]]
    ensures cur[p] == before[p]
    ensures forall p1 :: p1 in done + {p} ==>
              p1 in gain' && MinPeakGain <= gain'[p1] <= MaxPeakGain && cur'[p1] == ClampElevation(before[p1] + gain'[p1])
  {
    PeakNotNextToPeak(before.Keys, peaks, done, p);
    forall p1 | p1 in done
      ensures cur'[p1] == cur[p1]
    {
      if Adjacent(p1, p) {
        NeighbourOfOnePeak(before.Keys, peaks, p1, p);
      }
    }
  }

  /** A tile next to a member of s is next to a peak of s, and stays so when s grows. */
  lemma NextToPeakFacts(s: set<HexPoint>, t: set<HexPoint>, q: HexPoint, x: HexPoint)
    requires s <= t
    ensures Adjacent(q, x) && x in s ==> NextToPeak(s, q)
    ensures NextToPeak(s, q) ==> NextToPeak(t, q)
  {
    AdjacentIsShift(q, x);
  }

  /** The neighbours of the peak just raised are smoothed, reading beyond them either the original elevation or a final one. */
  lemma RaiseStepOwnNeighbour(peaks: set<HexPoint>, done: set<HexPoint>, p: HexPoint, before: map<HexPoint, int>,
                              cur: map<HexPoint, int>, cur': map<HexPoint, int>,
                              gain: map<HexPoint, int>, slop: map<(HexPoint, Direction), int>, opp: map<(HexPoint, Direction), int>,
                              gain': map<HexPoint, int>, slop': map<(HexPoint, Direction), int>, opp': map<(HexPoint, Direction), int>,
                              d: Direction)
    requires peaks <= before.Keys && Separated(before.Keys, peaks) && done <= peaks && p in peaks - done
    requires PeaksRaised(done, before, cur, gain, slop, opp)
    requires OnePeakRaised(p, cur, cur', gain', slop', opp')
    requires cur[p] == before[p]
    requires Shift(p, d) in cur'
    ensures SmoothedWith(cur', p, d, before[p] + gain'[p], slop', opp')
    ensures OppositeFrom(before, p, d, opp') ||
            (NextToPeak(done + {p}, Beyond(p, d)) && Beyond(p, d) in cur' && opp'[(p, d)] == cur'[Beyond(p, d)])
  {
    var o := Beyond(p, d);
    SeparationFacts(before.Keys, peaks, p, d);
    BeyondIsFar(p, d);
    NextToPeakFacts(done, done + {p}, o, p);
  }

  /** The neighbours of an earlier peak, and what was read beyond them, are left alone by raising p. */
  lemma RaiseStepOtherNeighbour(world: set<HexPoint>, peaks: set<HexPoint>, done: set<HexPoint>, p: HexPoint,
                                cur: map<HexPoint, int>, cur': map<HexPoint, int>, p1: HexPoint, d: Direction)
    requires peaks <= world && Separated(world, peaks) && done <= peaks && p in peaks - done && p1 in done
    requires Shift(p1, d) in world && cur.Keys == world && cur'.Keys == world
    requires forall q :: q in cur' && q != p && !Adjacent(q, p) ==> cur'[q] == cur[q]
    ensures Shift(p1, d) in cur' ==> cur'[Shift(p1, d)] == cur[Shift(p1, d)]
    ensures NextToPeak(done, Beyond(p1, d)) && Beyond(p1, d) in cur' ==> cur'[Beyond(p1, d)] == cur[Beyond(p1, d)]
    ensures NextToPeak(done, Beyond(p1, d)) ==> NextToPeak(done + {p}, Beyond(p1, d))
  {
    var n := Shift(p1, d);
    var o := Beyond(p1, d);
    SeparationFacts(world, peaks, p1, d);
    AdjacentIsShift(n, p);
    NextToPeakFacts(done, done + {p}, o, p);
    if NextToPeak(done, o) && o in cur' {
      var e :| Shift(o, e) in done;
      AdjacentShift(o, e);
      AdjacentIsShift(o, p);
      NeighbourOfOnePeak(world, peaks, o, Shift(o, e));
      assert !Adjacent(o, p);
    }
  }

  /** Raising one more peak leaves alone every tile that is neither a handled peak nor next to one. */
  lemma RaiseStepRest(done: set<HexPoint>, p: HexPoint, before: map<HexPoint, int>,
                      cur: map<HexPoint, int>, cur': map<HexPoint, int>,
                      gain: map<HexPoint, int>, slop: map<(HexPoint, Direction), int>, opp: map<(HexPoint, Direction), int>,
                      gain': map<HexPoint, int>, slop': map<(HexPoint, Direction), int>, opp': map<(HexPoint, Direction), int>)
    requires PeaksRaised(done, before, cur, gain, slop, opp)
    requires OnePeakRaised(p, cur, cur', gain', slop', opp')
    ensures forall q :: q in cur' && q !in done + {p} && !NextToPeak(done + {p}, q) ==> cur'[q] == before[q]
  {
    forall q | q in cur' && q !in done + {p} && !NextToPeak(done + {p}, q)
      ensures cur'[q] == before[q]
    {
      NextToPeakFacts(done, done + {p}, q, p);
      NextToPeakFacts(done + {p}, done + {p}, q, p);
    }
  }

  /** Raising one more well-separated peak keeps PeaksRaised. */
  lemma RaiseStep(peaks: set<HexPoint>, done: set<HexPoint>, p: HexPoint, before: map<HexPoint, int>,
                  cur: map<HexPoint, int>, cur': map<HexPoint, int>,
                  gain: map<HexPoint, int>, slop: map<(HexPoint, Direction), int>, opp: map<(HexPoint, Direction), int>,
                  gain': map<HexPoint, int>, slop': map<(HexPoint, Direction), int>, opp': map<(HexPoint, Direction), int>)
    requires peaks <= before.Keys && Separated(before.Keys, peaks) && done <= peaks && p in peaks - done
    requires PeaksRaised(done, before, cur, gain, slop, opp)
    requires OnePeakRaised(p, cur, cur', gain', slop', opp')
    requires gain' == gain[p := gain'[p]]
    requires forall k :: k in slop && k.0 != p ==> k in slop' && slop'[k] == slop[k]
    requires forall k :: k in opp && k.0 != p ==> k in opp' && opp'[k] == opp[k]
    ensures PeaksRaised(done + {p}, before, cur', gain', slop', opp')
  {
    RaiseStepPeaks(peaks, done, p, before, cur, cur', gain, slop, opp, gain', slop', opp');
    RaiseStepNeighbours(peaks, done, p, before, cur, cur', gain, slop, opp, gain', slop', opp');
    RaiseStepRest(done, p, before, cur, cur', gain, slop, opp, gain', slop', opp');
  }

  /** After raising one more peak, the neighbours of every handled peak are smoothed. */
  lemma RaiseStepNeighbours(peaks: set<HexPoint>, done: set<HexPoint>, p: HexPoint, before: map<HexPoint, int>,
                            cur: map<HexPoint, int>, cur': map<HexPoint, int>,
                            gain: map<HexPoint, int>, slop: map<(HexPoint, Direction), int>, opp: map<(HexPoint, Direction), int>,
                            gain': map<HexPoint, int>, slop': map<(HexPoint, Direction), int>, opp': map<(HexPoint, Direction), int>)
    requires peaks <= before.Keys && Separated(before.Keys, peaks) && done <= peaks && p in peaks - done
    requires PeaksRaised(done, before, cur, gain, slop, opp)
    requires OnePeakRaised(p, cur, cur', gain', slop', opp')
    requires gain' == gain[p := gain'[p]]
    requires forall k :: k in slop && k.0 != p ==> k in slop' && slop'[k] == slop[k]
    requires forall k :: k in opp && k.0 != p ==> k in opp' && opp'[k] == opp[k]
    ensures forall p1, d :: p1 in done + {p} && Shift(p1, d) in cur' ==>
              && SmoothedWith(cur', p1, d, before[p1] + gain'[p1], slop', opp')
              && (OppositeFrom(before, p1, d, opp') ||
                  (NextToPeak(done + {p}, Beyond(p1, d)) && Beyond(p1, d) in cur' && opp'[(p1, d)] == cur'[Beyond(p1, d)]))
  {
    RaiseStepPeaks(peaks, done, p, before, cur, cur', gain, slop, opp, gain', slop', opp');
    forall p1, d | p1 in done + {p} && Shift(p1, d) in cur'
      ensures && SmoothedWith(cur', p1, d, before[p1] + gain'[p1], slop', opp')
              && (OppositeFrom(before, p1, d, opp') ||
                  (NextToPeak(done + {p}, Beyond(p1, d)) && Beyond(p1, d) in cur' && opp'[(p1, d)] == cur'[Beyond(p1, d)]))
    {
      if p1 == p {
        RaiseStepOwnNeighbour(peaks, done, p, before, cur, cur', gain, slop, opp, gain', slop', opp', d);
      } else {
        RaiseStepEarlierPeak(peaks, done, p, before, cur, cur', gain, slop, opp, gain', slop', opp', p1, d);
      }
    }
  }

  /** The neighbours of a peak raised earlier stay smoothed as they were when p is raised. */
  lemma RaiseStepEarlierPeak(peaks: set<HexPoint>, done: set<HexPoint>, p: HexPoint, before: map<HexPoint, int>,
                             cur: map<HexPoint, int>, cur': map<HexPoint, int>,
                             gain: map<HexPoint, int>, slop: map<(HexPoint, Direction), int>, opp: map<(HexPoint, Direction), int>,
                             gain': map<HexPoint, int>, slop': map<(HexPoint, Direction), int>, opp': map<(HexPoint, Direction), int>,
                             p1: HexPoint, d: Direction)
    requires peaks <= before.Keys && Separated(before.Keys, peaks) && done <= peaks && p in peaks - done && p1 in done
    requires cur.Keys == before.Keys && cur'.Keys == before.Keys && Shift(p1, d) in cur'
    requires forall q :: q in cur' && q != p && !Adjacent(q, p) ==> cur'[q] == cur[q]
    requires p1 in gain && p in gain' && gain' == gain[p := gain'[p]]
    requires forall k :: k in slop && k.0 != p ==> k in slop' && slop'[k] == slop[k]
    requires forall k :: k in opp && k.0 != p ==> k in opp' && opp'[k] == opp[k]
    requires SmoothedWith(cur, p1, d, before[p1] + gain[p1], slop, opp)
    requires OppositeFrom(before, p1, d, opp) ||
             (NextToPeak(done, Beyond(p1, d)) && Beyond(p1, d) in cur && opp[(p1, d)] == cur[Beyond(p1, d)])
    ensures SmoothedWith(cur', p1, d, before[p1] + gain'[p1], slop', opp')
    ensures OppositeFrom(before, p1, d, opp') ||
            (NextToPeak(done + {p}, Beyond(p1, d)) && Beyond(p1, d) in cur' && opp'[(p1, d)] == cur'[Beyond(p1, d)])
  {
    RaiseStepOtherNeighbour(before.Keys, peaks, done, p, cur, cur', p1, d);
    assert p1 != p;
  }

  /**
   * The peak loop: raise every peak in turn (in the set's iteration order)
   * and smooth its neighbours. before and after are the elevation maps on
   * entry and exit; gain, slop and opp record the random draws and the
   * opposite elevations read.
   */
  method RaisePeaks(tiles: map<HexPoint, Tile>, peaks: set<HexPoint>)
    returns (ghost before: map<HexPoint, int>, ghost after: map<HexPoint, int>, ghost gain: map<HexPoint, int>,
             ghost slop: map<(HexPoint, Direction), int>, ghost opp: map<(HexPoint, Direction), int>)
    requires Positioned(tiles) && peaks <= tiles.Keys && Separated(tiles.Keys, peaks)
    modifies tiles.Values
    ensures old(HasElevations(tiles, before)) && HasElevations(tiles, after)
    ensures PeaksRaised(peaks, before, after, gain, slop, opp)
    ensures forall q :: q in tiles ==> tiles[q].AllButElevation() == old(tiles[q].AllButElevation())
  {
    before := map q | q in tiles :: tiles[q].elevation;
    after, gain, slop, opp := before, map[], map[], map[];
    var todo := peaks;
    ghost var done: set<HexPoint> := {};
    assert todo == peaks - done;
    while todo != {}
      invariant todo == peaks - done && done <= peaks
      invariant HasElevations(tiles, after)
      invariant PeaksRaised(done, before, after, gain, slop, opp)
      invariant forall q :: q in tiles ==> tiles[q].AllButElevation() == old(tiles[q].AllButElevation())
      decreases todo
    {
      var p :| p in todo;
      assert todo - {p} == peaks - (done + {p});
      ghost var after', gain', slop', opp' := RaisePeak(tiles, p, after, gain, slop, opp);
      RaiseStep(peaks, done, p, before, after, after', gain, slop, opp, gain', slop', opp');
      after, gain, slop, opp := after', gain', slop', opp';
      done := done + {p};
      todo := todo - {p};
    }
    assert done == peaks;
  }

  /**
   * PeakGenerator.generate: select separated peaks, then raise them and
   * smooth their neighbours. Only elevations change.
   */
  method Generate(tiles: map<HexPoint, Tile>)
    returns (ghost peaks: set<HexPoint>, ghost target: nat, ghost before: map<HexPoint, int>, ghost after: map<HexPoint, int>,
             ghost gain: map<HexPoint, int>, ghost slop: map<(HexPoint, Direction), int>, ghost opp: map<(HexPoint, Direction), int>)
    requires Positioned(tiles)
    modifies tiles.Values
    ensures MinPeakCount <= target <= MaxPeakCount && |peaks| <= target
    ensures peaks <= tiles.Keys && Separated(tiles.Keys, peaks)
    ensures |peaks| < target ==> Exhausted(tiles.Keys, peaks)
    ensures old(HasElevations(tiles, before)) && HasElevations(tiles, after)
    ensures PeaksRaised(peaks, before, after, gain, slop, opp)
    ensures forall q :: q in tiles ==> tiles[q].AllButElevation() == old(tiles[q].AllButElevation())
  {
    var chosen, count := SelectPeaks(tiles.Keys);
    peaks, target := chosen, count;
    before, after, gain, slop, opp := RaisePeaks(tiles, chosen);
  }
}
