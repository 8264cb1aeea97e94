/**
 * Movement rules of the piece kinds: the one-cell slide with its gap test,
 * the queen's moves, the (unused) two-step ant moves, and the per-kind dispatch.
 */
module Movement {
  import opened Util
  import opened HexCoords
  import opened TileTypes
  import opened HiveTiles

  /**
   * Neighbour `i` of `location` is a slide destination: it is empty, and the
   * neighbours at positions (i + 5) % 6 and (i + 1) % 6 are not both occupied.
   * The positions are list positions, not geometric flanks (see README).
   */
  predicate CanStep(location: HexCoord, tiles: TileStore, i: int)
    requires 0 <= i < 6
  {
    var s := Surrounding(location);
    s[i] !in tiles && !(s[(i + 5) % 6] in tiles && s[(i + 1) % 6] in tiles)
  }

  /** The directions (neighbour positions) below `n` that `CanStep` permits, increasing. */
  function StepDirections(location: HexCoord, tiles: TileStore, n: int): (d: seq<int>)
    requires 0 <= n <= 6
    ensures forall k :: 0 <= k < |d| ==> 0 <= d[k] < n && CanStep(location, tiles, d[k])
    ensures forall p, q :: 0 <= p < q < |d| ==> d[p] < d[q]
    ensures forall i :: 0 <= i < n && CanStep(location, tiles, i) ==> i in d
  {
    if n == 0 then []
    else StepDirections(location, tiles, n - 1) + (if CanStep(location, tiles, n - 1) then [n - 1] else [])
  }

  /** The slide destinations among the first `n` neighbours, in neighbour order. */
  function StepsUpTo(location: HexCoord, tiles: TileStore, n: int): (r: seq<HexCoord>)
    requires 0 <= n <= 6
    ensures |r| <= n
  {
    if n == 0 then []
    else StepsUpTo(location, tiles, n - 1)
         + (if CanStep(location, tiles, n - 1) then [Surrounding(location)[n - 1]] else [])
  }

  /** All slide destinations from `location`. */
  function Steps(location: HexCoord, tiles: TileStore): seq<HexCoord> {
    StepsUpTo(location, tiles, 6)
  }

  /** `StepsUpTo(n)` is the neighbour list picked out at `StepDirections(n)`. */
  lemma {:induction false} StepsUpToPicks(location: HexCoord, tiles: TileStore, n: int)
    requires 0 <= n <= 6
    ensures var r, d := StepsUpTo(location, tiles, n), StepDirections(location, tiles, n);
      |r| == |d| && forall k :: 0 <= k < |r| ==> r[k] == Surrounding(location)[d[k]]
  {
    if n > 0 {
      var s := Surrounding(location);
      var r', d' := StepsUpTo(location, tiles, n - 1), StepDirections(location, tiles, n - 1);
      var r, d := StepsUpTo(location, tiles, n), StepDirections(location, tiles, n);
      StepsUpToPicks(location, tiles, n - 1);
      if CanStep(location, tiles, n - 1) {
        assert r == r' + [s[n - 1]] && d == d' + [n - 1];
        forall k | 0 <= k < |r| ensures r[k] == s[d[k]] {
          if k < |r'| { assert r[k] == r'[k] && d[k] == d'[k]; }
        }
      } else {
        assert r == r' && d == d';
      }
    }
  }

  /**
   * `Steps` is the in-order subsequence of the neighbour list at the increasing
   * directions `StepDirections(location, tiles, 6)`; it has no duplicates, and
   * holds neighbour `i` exactly when `CanStep` permits it.
   */
  lemma StepsSpec(location: HexCoord, tiles: TileStore)
    ensures var r, d := Steps(location, tiles), StepDirections(location, tiles, 6);
      && |r| == |d| <= 6
      && (forall k :: 0 <= k < |r| ==> r[k] == Surrounding(location)[d[k]])
      && NoDuplicates(r)
      && (forall i :: 0 <= i < 6 ==> (Surrounding(location)[i] in r <==> CanStep(location, tiles, i)))
  {
    StepsUpToPicks(location, tiles, 6);
    StepsNoDuplicates(location, tiles);
    StepsMembership(location, tiles);
  }

  lemma StepsNoDuplicates(location: HexCoord, tiles: TileStore)
    ensures NoDuplicates(Steps(location, tiles))
  {
    var s, r, d := Surrounding(location), Steps(location, tiles), StepDirections(location, tiles, 6);
    StepsUpToPicks(location, tiles, 6);
    SurroundingDistinct(location);
    forall p, q | 0 <= p < q < |r| ensures r[p] != r[q] {
      assert d[p] < d[q];
      assert r[p] == s[d[p]] && r[q] == s[d[q]];
    }
  }

  lemma StepsMembership(location: HexCoord, tiles: TileStore)
    ensures forall i :: 0 <= i < 6 ==>
      (Surrounding(location)[i] in Steps(location, tiles) <==> CanStep(location, tiles, i))
  {
    var s, r, d := Surrounding(location), Steps(location, tiles), StepDirections(location, tiles, 6);
    StepsUpToPicks(location, tiles, 6);
    SurroundingDistinct(location);
    forall i | 0 <= i < 6
      ensures s[i] in r <==> CanStep(location, tiles, i)
    {
      if s[i] in r {
        var k :| 0 <= k < |r| && r[k] == s[i];
        assert s[d[k]] == s[i];
      }
      if CanStep(location, tiles, i) {
        var k :| 0 <= k < |d| && d[k] == i;
        assert r[k] == s[i];
      }
    }
  }

  /** When every neighbour among the first `n` is a slide, all of them are returned. */
  lemma {:induction false} StepsUpToAll(location: HexCoord, tiles: TileStore, n: int)
    requires 0 <= n <= 6
    requires forall i :: 0 <= i < n ==> CanStep(location, tiles, i)
    ensures StepsUpTo(location, tiles, n) == Surrounding(location)[..n]
  {
    if n > 0 {
      StepsUpToAll(location, tiles, n - 1);
      assert Surrounding(location)[..n] == Surrounding(location)[..n - 1] + [Surrounding(location)[n - 1]];
    }
  }

  /** When no neighbour among the first `n` is a slide, none is returned. */
  lemma {:induction false} StepsUpToNone(location: HexCoord, tiles: TileStore, n: int)
    requires 0 <= n <= 6
    requires forall i :: 0 <= i < n ==> !CanStep(location, tiles, i)
    ensures StepsUpTo(location, tiles, n) == []
  {
    if n > 0 {
      StepsUpToNone(location, tiles, n - 1);
    }
  }

  /** With all six neighbours occupied there is no slide. */
  lemma StepsWhenSurrounded(location: HexCoord, tiles: TileStore)
    requires forall i :: 0 <= i < 6 ==> Surrounding(location)[i] in tiles
    ensures Steps(location, tiles) == []
  {
    StepsUpToNone(location, tiles, 6);
  }

  /** With no neighbour occupied every neighbour is a slide, in order. */
  lemma StepsWhenIsolated(location: HexCoord, tiles: TileStore)
    requires forall i :: 0 <= i < 6 ==> Surrounding(location)[i] !in tiles
    ensures Steps(location, tiles) == Surrounding(location)
  {
    StepsUpToAll(location, tiles, 6);
  }

  /** The one-cell slides from `location`, in neighbour order. */
  method PossibleSteps(location: HexCoord, tiles: TileStore) returns (steps: seq<HexCoord>)
    ensures steps == Steps(location, tiles)
    ensures NoDuplicates(steps) && |steps| <= 6
    ensures forall i :: 0 <= i < 6 ==> (Surrounding(location)[i] in steps <==> CanStep(location, tiles, i))
  {
    steps := [];
    var surrounding := Surrounding(location);
    var occupied := seq(6, j requires 0 <= j < 6 => surrounding[j] in tiles);
    for i := 0 to 6
      invariant steps == StepsUpTo(location, tiles, i)
    {
      if occupied[i] { continue; }
      if occupied[(i + 5) % 6] && occupied[(i + 1) % 6] { continue; }
      steps := steps + [surrounding[i]];
    }
    StepsSpec(location, tiles);
  }

  /** The queen slides one cell. */
  method QueenMoves(location: HexCoord, tiles: TileStore) returns (moves: seq<HexCoord>)
    ensures moves == Steps(location, tiles)
  {
    moves := PossibleSteps(location, tiles);
  }

  /** Both kinds are dispatched to the queen's rule. */
  method GetMoves(t: TileType, location: HexCoord, tiles: TileStore) returns (moves: seq<HexCoord>)
    ensures moves == Steps(location, tiles)
  {
    match t
    case Queen =>
      moves := QueenMoves(location, tiles);
    case Ant =>
      moves := QueenMoves(location, tiles);
  }

  /** Cells reached by a slide from some `firsts[k]`, together with the `firsts` themselves. */
  function ReachFrom(firsts: seq<HexCoord>, tiles: TileStore): set<HexCoord> {
    if firsts == [] then {}
    else
      var m := firsts[|firsts| - 1];
      ReachFrom(firsts[..|firsts| - 1], tiles) + (set c | c in Steps(m, tiles)) + {m}
  }

  /** The ant's destinations: one slide, or two slides in a row on the unchanged board. */
  function AntReach(location: HexCoord, tiles: TileStore): set<HexCoord> {
    ReachFrom(Steps(location, tiles), tiles)
  }

  lemma {:induction false} ReachFromMembership(firsts: seq<HexCoord>, tiles: TileStore, c: HexCoord)
    ensures c in ReachFrom(firsts, tiles) <==>
            c in firsts || exists m :: m in firsts && c in Steps(m, tiles)
  {
    if firsts != [] {
      var init := firsts[..|firsts| - 1];
      var m := firsts[|firsts| - 1];
      ReachFromMembership(init, tiles, c);
      assert firsts == init + [m];
      if c in ReachFrom(firsts, tiles) && c !in firsts && c !in ReachFrom(init, tiles) {
        assert c in Steps(m, tiles);
      }
      if exists m' :: m' in firsts && c in Steps(m', tiles) {
        var m' :| m' in firsts && c in Steps(m', tiles);
        if m' != m { assert m' in init; }
      }
    }
  }

  /** A cell is an ant destination iff it is one slide away, or one slide from such a cell. */
  lemma AntReachMembership(location: HexCoord, tiles: TileStore, c: HexCoord)
    ensures c in AntReach(location, tiles) <==>
            c in Steps(location, tiles) || exists m :: m in Steps(location, tiles) && c in Steps(m, tiles)
  {
    ReachFromMembership(Steps(location, tiles), tiles, c);
  }

  /** Lists a set in some order, each element once (a hash set's `collect`). */
  method SetToSequence(s: set<HexCoord>) returns (r: seq<HexCoord>)
    ensures NoDuplicates(r)
    ensures forall c :: c in r <==> c in s
  {
    r := [];
    var rest := s;
    while rest != {}
      invariant rest <= s
      invariant NoDuplicates(r)
      invariant forall c :: c in r <==> c in s - rest
      decreases rest
    {
      var c :| c in rest;
      assert c !in r;
      r := r + [c];
      rest := rest - {c};
    }
  }

  /** The ant's two-step moves, without duplicates (see `AntReachMembership`). */
  method AntMoves(location: HexCoord, tiles: TileStore) returns (moves: seq<HexCoord>)
    ensures NoDuplicates(moves)
    ensures forall c :: c in moves <==> c in AntReach(location, tiles)
  {
    var first := PossibleSteps(location, tiles);
    var full: set<HexCoord> := {};
    for k := 0 to |first|
      invariant full == ReachFrom(first[..k], tiles)
    {
      var m := first[k];
      var second := PossibleSteps(m, tiles);
      ghost var before := full;
      for j := 0 to |second|
        invariant forall c :: c in full <==> c in before || c in second[..j]
      {
        assert second[..j + 1] == second[..j] + [second[j]];
        full := full + {second[j]};
      }
      assert second[..|second|] == second;
      full := full + {m};
      assert first[..k + 1][..k] == first[..k];
      assert full == ReachFrom(first[..k + 1], tiles);
    }
    assert first[..|first|] == first;
    moves := SetToSequence(full);
  }

  /** Every one-step destination is also an ant destination. */
  lemma StepsAreAntMoves(location: HexCoord, tiles: TileStore, c: HexCoord)
    requires c in Steps(location, tiles)
    ensures c in AntReach(location, tiles)
  {
    AntReachMembership(location, tiles, c);
  }
}
