/**
 * The one-hive vocabulary: walks through occupied cells, reachability and
 * connectedness of the occupied region, with the facts the game state needs.
 */
module Connectivity {
  import opened HexCoords
  import opened HiveTiles

  /** `p` visits only occupied cells, each adjacent to the next. */
  ghost predicate IsPath(tiles: TileStore, p: seq<HexCoord>) {
    && |p| > 0
    && (forall i :: 0 <= i < |p| ==> p[i] in tiles)
    && (forall i :: 0 <= i < |p| - 1 ==> Adjacent(p[i], p[i + 1]))
  }

  /** `b` can be reached from `a` by walking through occupied neighbours. */
  ghost predicate Reachable(tiles: TileStore, a: HexCoord, b: HexCoord) {
    exists p :: IsPath(tiles, p) && p[0] == a && p[|p| - 1] == b
  }

  /** The occupied cells form one connected cluster. */
  ghost predicate Connected(tiles: TileStore) {
    forall a, b :: a in tiles && b in tiles ==> Reachable(tiles, a, b)
  }

  /** Every occupied neighbour of `u` is in `visited`. */
  ghost predicate NeighboursIn(tiles: TileStore, u: HexCoord, visited: set<HexCoord>) {
    forall j :: 0 <= j < 6 && Surrounding(u)[j] in tiles ==> Surrounding(u)[j] in visited
  }

  lemma ReachableStart(tiles: TileStore, a: HexCoord)
    requires a in tiles
    ensures Reachable(tiles, a, a)
  {
    assert IsPath(tiles, [a]);
  }

  lemma ReachableStep(tiles: TileStore, a: HexCoord, b: HexCoord)
    requires a in tiles && b in tiles && Adjacent(a, b)
    ensures Reachable(tiles, a, b)
  {
    assert IsPath(tiles, [a, b]);
  }

  lemma ReachableTransitive(tiles: TileStore, a: HexCoord, b: HexCoord, c: HexCoord)
    requires Reachable(tiles, a, b) && Reachable(tiles, b, c)
    ensures Reachable(tiles, a, c)
  {
    var p :| IsPath(tiles, p) && p[0] == a && p[|p| - 1] == b;
    var q :| IsPath(tiles, q) && q[0] == b && q[|q| - 1] == c;
    var pq := p + q[1..];
    forall i | 0 <= i < |pq| - 1
      ensures Adjacent(pq[i], pq[i + 1])
    {
      if i < |p| - 1 {
        assert pq[i] == p[i] && pq[i + 1] == p[i + 1];
      } else {
        assert pq[i] == q[i - |p| + 1] && pq[i + 1] == q[i - |p| + 2];
      }
    }
    assert IsPath(tiles, pq);
    assert pq[|pq| - 1] == c;
  }

  lemma ReachableSymmetric(tiles: TileStore, a: HexCoord, b: HexCoord)
    requires Reachable(tiles, a, b)
    ensures Reachable(tiles, b, a)
  {
    var p :| IsPath(tiles, p) && p[0] == a && p[|p| - 1] == b;
    var r := seq(|p|, i requires 0 <= i < |p| => p[|p| - 1 - i]);
    forall i | 0 <= i < |r| - 1
      ensures Adjacent(r[i], r[i + 1])
    {
      AdjacentSymmetric(p[|p| - 2 - i], p[|p| - 1 - i]);
    }
    assert IsPath(tiles, r);
  }

  /** A walk stays a walk when more cells become occupied. */
  lemma ReachableGrows(tiles: TileStore, more: TileStore, a: HexCoord, b: HexCoord)
    requires tiles.Keys <= more.Keys && Reachable(tiles, a, b)
    ensures Reachable(more, a, b)
  {
    var p :| IsPath(tiles, p) && p[0] == a && p[|p| - 1] == b;
    assert IsPath(more, p);
  }

  /** A walk from a cell of a neighbour-closed set never leaves the set. */
  lemma {:induction false} PathStaysInside(tiles: TileStore, visited: set<HexCoord>, p: seq<HexCoord>, i: int)
    requires IsPath(tiles, p) && p[0] in visited
    requires forall u :: u in visited ==> NeighboursIn(tiles, u, visited)
    requires 0 <= i < |p|
    ensures p[i] in visited
    decreases i
  {
    if i > 0 {
      PathStaysInside(tiles, visited, p, i - 1);
      assert Adjacent(p[i - 1], p[i]);
      var j :| 0 <= j < 6 && Surrounding(p[i - 1])[j] == p[i];
      assert NeighboursIn(tiles, p[i - 1], visited);
    }
  }

  /** A neighbour-closed set holds everything reachable from its members. */
  lemma ClosedHoldsReachable(tiles: TileStore, visited: set<HexCoord>, a: HexCoord, b: HexCoord)
    requires a in visited && Reachable(tiles, a, b)
    requires forall u :: u in visited ==> NeighboursIn(tiles, u, visited)
    ensures b in visited
  {
    var p :| IsPath(tiles, p) && p[0] == a && p[|p| - 1] == b;
    PathStaysInside(tiles, visited, p, |p| - 1);
  }

  /** If every occupied cell is reachable from one of them, the region is connected. */
  lemma ConnectedFromHub(tiles: TileStore, hub: HexCoord)
    requires forall k :: k in tiles ==> Reachable(tiles, hub, k)
    ensures Connected(tiles)
  {
    forall a, b | a in tiles && b in tiles
      ensures Reachable(tiles, a, b)
    {
      ReachableSymmetric(tiles, hub, a);
      ReachableTransitive(tiles, a, hub, b);
    }
  }

  /** A single occupied cell is connected. */
  lemma ConnectedSingle(tiles: TileStore, a: HexCoord)
    requires tiles.Keys == {a}
    ensures Connected(tiles)
  {
    ReachableStart(tiles, a);
    ConnectedFromHub(tiles, a);
  }

  /** Occupying a cell next to a connected region keeps it connected. */
  lemma ConnectedExtend(tiles: TileStore, k: HexCoord, l: HexCoord, t: HiveTile)
    requires Connected(tiles) && k in tiles && Adjacent(k, l)
    ensures Connected(tiles[l := t])
  {
    var more := tiles[l := t];
    AdjacentSymmetric(k, l);
    ReachableStep(more, l, k);
    forall c | c in more
      ensures Reachable(more, l, c)
    {
      if c == l {
        ReachableStart(more, l);
      } else {
        ReachableGrows(tiles, more, k, c);
        ReachableTransitive(more, l, k, c);
      }
    }
    ConnectedFromHub(more, l);
  }
}
