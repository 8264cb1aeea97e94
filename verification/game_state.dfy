/**
 * The board state machine: the tile map, both players' bags, both queen
 * locations and the ply counter, with placement generation, move application,
 * the connectivity walk and queen-surround scoring.
 */
module GameStates {
  import opened Util
  import opened HexCoords
  import opened TileTypes
  import opened HiveTiles
  import opened PieceBags
  import opened Connectivity

  /** A placement from the bag, or a relocation of the stack at `from`. */
  datatype Move = Place(tileType: TileType, location: HexCoord) | Move(from: HexCoord, to: HexCoord)

  /** The cell the second player must use on ply 1. */
  const SecondCell := HexCoord(1, 0)

  // ---------------------------------------------------------------------------
  // Placement rule

  /** `c` is empty and every occupied neighbour is topped by a piece of `turn`. */
  predicate Open(tiles: TileStore, turn: bool, c: HexCoord) {
    && c !in tiles
    && forall j :: 0 <= j < 6 && Surrounding(c)[j] in tiles ==> Top(tiles[Surrounding(c)[j]]).team == turn
  }

  /**
   * `turn` may place at `c`: it is open, and some neighbour holds a stack whose
   * bottom piece belongs to `turn`.
   */
  predicate Placeable(tiles: TileStore, turn: bool, c: HexCoord) {
    && Open(tiles, turn, c)
    && exists j :: 0 <= j < 6 && Surrounding(c)[j] in tiles && tiles[Surrounding(c)[j]].team == turn
  }

  /** The open cells among the first `n` neighbours of `k`, when `k` is `turn`'s. */
  function Around(tiles: TileStore, turn: bool, k: HexCoord, n: int): set<HexCoord>
    requires 0 <= n <= 6
  {
    set j | 0 <= j < n && k in tiles && tiles[k].team == turn && Open(tiles, turn, Surrounding(k)[j])
      :: Surrounding(k)[j]
  }

  /** What scanning the stacks at `keys` collects. */
  function Collected(tiles: TileStore, turn: bool, keys: set<HexCoord>): set<HexCoord> {
    set k, j | k in keys && 0 <= j < 6 && k in tiles && tiles[k].team == turn && Open(tiles, turn, Surrounding(k)[j])
      :: Surrounding(k)[j]
  }

  /** The placeable cells as the source scans for them: open neighbours of `turn`'s stacks. */
  function PlaceableLocations(tiles: TileStore, turn: bool): set<HexCoord> {
    Collected(tiles, turn, tiles.Keys)
  }

  lemma AroundStep(tiles: TileStore, turn: bool, k: HexCoord, n: int)
    requires 0 <= n < 6
    ensures Around(tiles, turn, k, n + 1) ==
            Around(tiles, turn, k, n)
            + (if k in tiles && tiles[k].team == turn && Open(tiles, turn, Surrounding(k)[n])
               then {Surrounding(k)[n]} else {})
  {
  }

  lemma CollectedAdd(tiles: TileStore, turn: bool, keys: set<HexCoord>, k: HexCoord)
    ensures Collected(tiles, turn, keys + {k}) == Collected(tiles, turn, keys) + Around(tiles, turn, k, 6)
  {
    forall c | c in Collected(tiles, turn, keys + {k})
      ensures c in Collected(tiles, turn, keys) + Around(tiles, turn, k, 6)
    {
      var k', j :| k' in keys + {k} && 0 <= j < 6 && k' in tiles && tiles[k'].team == turn
                   && Open(tiles, turn, Surrounding(k')[j]) && c == Surrounding(k')[j];
      if k' != k { assert k' in keys; }
    }
  }

  /** The scan finds exactly the cells the placement rule allows. */
  lemma PlaceableLocationsSpec(tiles: TileStore, turn: bool, c: HexCoord)
    ensures c in PlaceableLocations(tiles, turn) <==> Placeable(tiles, turn, c)
  {
    if c in PlaceableLocations(tiles, turn) {
      var k, j :| k in tiles && 0 <= j < 6 && tiles[k].team == turn
                  && Open(tiles, turn, Surrounding(k)[j]) && c == Surrounding(k)[j];
      OppositeLeadsBack(k, j);
      assert Surrounding(c)[Opposite(j)] == k;
    }
    if Placeable(tiles, turn, c) {
      var j :| 0 <= j < 6 && Surrounding(c)[j] in tiles && tiles[Surrounding(c)[j]].team == turn;
      var k := Surrounding(c)[j];
      OppositeLeadsBack(c, j);
      assert Surrounding(k)[Opposite(j)] == c;
    }
  }

  // ---------------------------------------------------------------------------
  // Scoring

  /** How many of the cells in `s` are occupied. */
  function CountOccupied(s: seq<HexCoord>, tiles: TileStore): nat {
    if s == [] then 0
    else CountOccupied(s[..|s| - 1], tiles) + (if s[|s| - 1] in tiles then 1 else 0)
  }

  /** All six neighbours of `c` are occupied. */
  predicate Surrounded(tiles: TileStore, c: HexCoord) {
    forall j :: 0 <= j < 6 ==> Surrounding(c)[j] in tiles
  }

  /** A queen's count: its occupied neighbours, or 1 while it is still in hand. */
  function QueenPressure(tiles: TileStore, queen: Option<HexCoord>): nat {
    match queen
    case None => 1
    case Some(c) => CountOccupied(Surrounding(c), tiles)
  }

  /** The count is at most the length, and equals it exactly when every cell is occupied. */
  lemma {:induction false} CountOccupiedFull(s: seq<HexCoord>, tiles: TileStore)
    ensures CountOccupied(s, tiles) <= |s|
    ensures CountOccupied(s, tiles) == |s| <==> forall k :: 0 <= k < |s| ==> s[k] in tiles
  {
    if s != [] {
      var init := s[..|s| - 1];
      CountOccupiedFull(init, tiles);
      if CountOccupied(s, tiles) == |s| {
        forall k | 0 <= k < |s| ensures s[k] in tiles {
          if k < |s| - 1 { assert s[k] == init[k]; }
        }
      }
      if forall k :: 0 <= k < |s| ==> s[k] in tiles {
        forall k | 0 <= k < |init| ensures init[k] in tiles {
          assert init[k] == s[k];
        }
      }
    }
  }

  /** A placed queen scores 0..6 and reaches 6 exactly when surrounded; an unplaced one scores 1. */
  lemma QueenPressureRange(tiles: TileStore, queen: Option<HexCoord>)
    ensures QueenPressure(tiles, queen) <= 6
    ensures queen.None? ==> QueenPressure(tiles, queen) == 1
    ensures queen.Some? ==> (QueenPressure(tiles, queen) == 6 <==> Surrounded(tiles, queen.value))
  {
    if queen.Some? {
      CountOccupiedFull(Surrounding(queen.value), tiles);
    }
  }

  // ---------------------------------------------------------------------------
  // Piece conservation

  /** Number of stacks whose bottom piece belongs to `team`. */
  function TeamSize(tiles: TileStore, team: bool): nat {
    |set k | k in tiles && tiles[k].team == team|
  }

  lemma TeamSizeEmpty(tiles: TileStore, team: bool)
    requires tiles == map[]
    ensures TeamSize(tiles, team) == 0
  {
    var cells := set k | k in tiles && tiles[k].team == team;
    assert cells <= tiles.Keys;
  }

  /** Adding a piece on an empty cell adds one to its owner's count and nothing to the other's. */
  lemma TeamSizeAfterPlace(tiles: TileStore, l: HexCoord, t: HiveTile, team: bool)
    requires l !in tiles
    ensures TeamSize(tiles[l := t], team) == TeamSize(tiles, team) + (if t.team == team then 1 else 0)
  {
    var before := set k | k in tiles && tiles[k].team == team;
    var more := tiles[l := t];
    var after := set k | k in more && more[k].team == team;
    if t.team == team {
      assert after == before + {l};
    } else {
      assert after == before;
    }
  }

  /**
   * `queen` is recorded exactly when the queen is out of the bag, and then it
   * names a cell holding `team`'s queen.
   */
  ghost predicate QueenRecorded(tiles: TileStore, queen: Option<HexCoord>, inHand: bool, team: bool) {
    && (queen.None? <==> inHand)
    && (queen.Some? ==> queen.value in tiles && tiles[queen.value].team == team
                        && tiles[queen.value].tileType == Queen)
  }

  // ---------------------------------------------------------------------------
  // The state

  class GameState {
    var turnCount: nat
    var tiles: TileStore
    const pieces0: PieceBag
    const pieces1: PieceBag
    var queenLocation0: Option<HexCoord>
    var queenLocation1: Option<HexCoord>

    /** The two bags are separate objects, as the two halves of a pair are. */
    ghost predicate Valid()
      reads this
    {
      pieces0 != pieces1
    }

    /**
     * The rules' invariant for states reached through generated placements:
     * the opening cells, one connected hive, pieces conserved per player,
     * and queen locations recorded exactly for placed queens.
     */
    ghost predicate Inv()
      reads this, pieces0, pieces1
    {
      && Valid()
      && (turnCount == 0 ==> tiles == map[])
      && (turnCount == 1 ==> tiles.Keys == {Origin})
      && (tiles != map[] ==> Connected(tiles))
      && TeamSize(tiles, true) + pieces0.Remaining() == STARTING_TOTAL
      && TeamSize(tiles, false) + pieces1.Remaining() == STARTING_TOTAL
      && QueenRecorded(tiles, queenLocation0, pieces0.queen, true)
      && QueenRecorded(tiles, queenLocation1, pieces1.queen, false)
    }

    /** The empty starting position. */
    constructor ()
      ensures Valid() && Inv() && fresh(pieces0) && fresh(pieces1)
      ensures turnCount == 0 && tiles == map[]
      ensures pieces0.queen && pieces0.ants == STARTING_ANTS
      ensures pieces1.queen && pieces1.ants == STARTING_ANTS
      ensures queenLocation0 == None && queenLocation1 == None
    {
      var empty: TileStore := map[];
      TeamSizeEmpty(empty, true);
      TeamSizeEmpty(empty, false);
      turnCount := 0;
      tiles := empty;
      pieces0 := new PieceBag();
      pieces1 := new PieceBag();
      queenLocation0, queenLocation1 := None, None;
    }

    /** True on even plies: the player with `pieces0` and `queenLocation0` moves. */
    function Turn(): (r: bool)
      reads this
      ensures r <==> turnCount % 2 == 0
    {
      turnCount % 2 == 0
    }

    /** The bag of `team`. */
    function Bag(team: bool): PieceBag {
      if team then pieces0 else pieces1
    }

    /** The recorded queen of `team`. */
    function QueenLocation(team: bool): Option<HexCoord>
      reads this
    {
      if team then queenLocation0 else queenLocation1
    }

    /** The mover's bag (both the shared and the mutable accessor). */
    function TurnPieceBag(): (b: PieceBag)
      reads this
      ensures b == Bag(Turn())
      ensures Valid() ==> (b == pieces0 <==> turnCount % 2 == 0)
    {
      if Turn() then pieces0 else pieces1
    }

    /** On plies 6 and 7 a player whose queen is still in hand must place it. */
    function ForceQueen(): (r: bool)
      reads this
      ensures r <==> turnCount / 2 == 3
    {
      turnCount == 6 || turnCount == 7
    }

    /** What the mover may place now. */
    function PlaceOptions(): seq<TileType>
      reads this, pieces0, pieces1
    {
      TurnPieceBag().GetPlaceOptions(ForceQueen())
    }

    /** A placement the generator can produce at this ply. */
    ghost predicate LegalPlacement(m: Move)
      reads this, pieces0, pieces1
    {
      && m.Place?
      && m.tileType in PlaceOptions()
      && (turnCount == 0 ==> m.location == Origin)
      && (turnCount == 1 ==> m.location == SecondCell)
      && (turnCount >= 2 ==> Placeable(tiles, Turn(), m.location))
    }

    /** The mover's placeable cells: the open neighbours of the mover's stacks. */
    method GetPlaceableLocations() returns (locations: set<HexCoord>)
      ensures locations == PlaceableLocations(tiles, Turn())
      ensures forall c :: c in locations <==> Placeable(tiles, Turn(), c)
    {
      var turn := Turn();
      locations := {};
      var remaining := tiles.Keys;
      while remaining != {}
        invariant remaining <= tiles.Keys
        invariant locations == Collected(tiles, turn, tiles.Keys - remaining)
        decreases remaining
      {
        var location :| location in remaining;
        ghost var done := tiles.Keys - remaining;
        remaining := remaining - {location};
        assert tiles.Keys - remaining == done + {location};
        CollectedAdd(tiles, turn, done, location);
        var tile := tiles[location];
        if tile.team != turn {
          assert Around(tiles, turn, location, 6) == {};
          continue;
        }
        var surroundings := Surrounding(location);
        label sLoop:
        for i := 0 to 6
          invariant locations == Collected(tiles, turn, done) + Around(tiles, turn, location, i)
        {
          var surrounding := surroundings[i];
          AroundStep(tiles, turn, location, i);
          if surrounding in locations { continue; }
          if surrounding in tiles { continue; }
          var sSurroundings := Surrounding(surrounding);
          for j := 0 to 6
            invariant forall j' :: 0 <= j' < j && sSurroundings[j'] in tiles ==> Top(tiles[sSurroundings[j']]).team == turn
          {
            var sSurr := sSurroundings[j];
            if sSurr in tiles {
              if Top(tiles[sSurr]).team != turn {
                continue sLoop;
              }
            }
          }
          locations := locations + {surrounding};
        }
      }
      assert tiles.Keys - remaining == tiles.Keys;
      forall c ensures c in locations <==> Placeable(tiles, turn, c) {
        PlaceableLocationsSpec(tiles, turn, c);
      }
    }

    /**
     * The mover's placements: at the origin on ply 0, at (1, 0) on ply 1, and
     * afterwards every option at every placeable cell. No relocation is generated.
     */
    method GetPossibleMoves() returns (moves: seq<Move>)
      ensures forall m :: m in moves ==> LegalPlacement(m)
      ensures forall m :: m in moves ==> m.Place? && TurnPieceBag().Available(m.tileType)
      ensures ForceQueen() && TurnPieceBag().queen ==> forall m :: m in moves ==> m.Place? && m.tileType == Queen
      ensures turnCount <= 1 ==>
        && |moves| == |PlaceOptions()|
        && forall k :: 0 <= k < |moves| ==>
             moves[k] == Place(PlaceOptions()[k], if turnCount == 0 then Origin else SecondCell)
      ensures turnCount >= 2 ==>
        && NoDuplicates(moves)
        && |moves| == |PlaceOptions()| * |PlaceableLocations(tiles, Turn())|
        && forall m :: m in moves <==>
             m.Place? && m.tileType in PlaceOptions() && Placeable(tiles, Turn(), m.location)
    {
      var placeable := TurnPieceBag().GetPlaceOptions(ForceQueen());

      if turnCount == 0 {
        moves := seq(|placeable|, k requires 0 <= k < |placeable| => Place(placeable[k], HexCoord(0, 0)));
        return;
      }

      if turnCount == 1 {
        moves := seq(|placeable|, k requires 0 <= k < |placeable| => Place(placeable[k], HexCoord(1, 0)));
        return;
      }

      var placeableLocations := GetPlaceableLocations();
      moves := PlacementsAt(placeable, placeableLocations);
    }

    /** Records `location` as the mover's queen. */
    method SetQueenLocation(location: HexCoord)
      modifies this
      ensures QueenLocation(Turn()) == Some(location)
      ensures QueenLocation(!Turn()) == old(QueenLocation(!Turn()))
      ensures turnCount == old(turnCount) && tiles == old(tiles)
    {
      if Turn() {
        queenLocation0 := Some(location);
      } else {
        queenLocation1 := Some(location);
      }
    }

    /**
     * Applies `m` without any legality check and passes the turn. A placement
     * overwrites whatever stands at its cell; a relocation requires a stack at
     * `from`. The rules' invariant is kept by every generated placement.
     */
    method ApplyMove(m: Move)
      requires Valid()
      requires m.Place? ==> TurnPieceBag().Available(m.tileType)
      requires m.Move? ==> m.from in tiles
      modifies this, pieces0, pieces1
      ensures turnCount == old(turnCount) + 1
      ensures Turn() == !old(Turn())
      ensures m.Place? ==>
        var mover := old(Turn());
        && tiles == old(tiles)[m.location := New(mover, m.tileType)]
        && Bag(mover).queen == (old(Bag(mover).queen) && m.tileType != Queen)
        && Bag(mover).ants == old(Bag(mover).ants) - (if m.tileType == Ant then 1 else 0)
        && unchanged(Bag(!mover))
        && QueenLocation(mover) == (if m.tileType == Queen then Some(m.location) else old(QueenLocation(mover)))
        && QueenLocation(!mover) == old(QueenLocation(!mover))
      ensures m.Move? ==>
        var mover := old(Turn());
        && tiles == (old(tiles) - {m.from})[m.to := old(tiles)[m.from]]
        && unchanged(pieces0, pieces1)
        && QueenLocation(mover) == (if old(tiles)[m.from].tileType == Queen then Some(m.to) else old(QueenLocation(mover)))
        && QueenLocation(!mover) == old(QueenLocation(!mover))
      ensures old(Inv()) && old(LegalPlacement(m)) ==> Inv()
    {
      ghost var wasInv := Inv() && LegalPlacement(m);
      ghost var oldTiles := tiles;
      match m {
      case Place(tileType, location) =>
        if tileType == Queen {
          SetQueenLocation(location);
        }
        TurnPieceBag().UsePiece(tileType);
        tiles := tiles[location := New(Turn(), tileType)];
        if wasInv {
          PlaceKeepsHive(oldTiles, location, New(Turn(), tileType), turnCount);
          TeamSizeAfterPlace(oldTiles, location, New(Turn(), tileType), true);
          TeamSizeAfterPlace(oldTiles, location, New(Turn(), tileType), false);
        }
      case Move(from, to) =>
        var removed := tiles[from];
        tiles := tiles - {from};
        if removed.tileType == Queen {
          SetQueenLocation(to);
        }
        tiles := tiles[to := removed];
      }
      turnCount := turnCount + 1;
    }

    /**
     * True exactly when the hive is one connected cluster (the name is the
     * source's: it answers "whole", not "broken"). The board must not be empty.
     */
    method IsBroken() returns (r: bool)
      requires tiles != map[]
      ensures r <==> Connected(tiles)
    {
      var start :| start in tiles;
      var visited := {start};
      ReachableStart(tiles, start);
      visited := AntWalk(start, visited);
      assert forall u :: u in visited ==> NeighboursIn(tiles, u, visited);
      assert visited <= tiles.Keys;
      if Connected(tiles) {
        forall k | k in tiles ensures k in visited {
          ClosedHoldsReachable(tiles, visited, start, k);
        }
        assert visited == tiles.Keys;
      }
      r := |visited| == |tiles|;
      assert |tiles.Keys| == |tiles|;
      if r {
        SubsetOfSameSize(visited, tiles.Keys);
        forall k | k in tiles ensures Reachable(tiles, start, k) {
          if k != start {
            assert k in visited - {start};
          }
        }
        ConnectedFromHub(tiles, start);
      }
    }

    /**
     * The depth-first walk (the source's `ant`): adds to `visited` every occupied
     * cell reachable from `location` through cells not yet visited.
     */
    method AntWalk(location: HexCoord, visited: set<HexCoord>) returns (visited': set<HexCoord>)
      requires location in visited && location in tiles
      ensures visited <= visited'
      ensures visited' - visited <= tiles.Keys
      ensures NeighboursIn(tiles, location, visited')
      ensures forall u :: u in visited' - visited ==> NeighboursIn(tiles, u, visited')
      ensures forall u :: u in visited' - visited ==> Reachable(tiles, location, u)
      decreases tiles.Keys - visited
    {
      visited' := visited;
      var surroundings := Surrounding(location);
      for i := 0 to 6
        invariant visited <= visited'
        invariant visited' - visited <= tiles.Keys
        invariant forall j :: 0 <= j < i && surroundings[j] in tiles ==> surroundings[j] in visited'
        invariant forall u :: u in visited' - visited ==> NeighboursIn(tiles, u, visited')
        invariant forall u :: u in visited' - visited ==> Reachable(tiles, location, u)
      {
        var surround := surroundings[i];
        if surround in tiles && surround !in visited' {
          ghost var prev := visited';
          visited' := visited' + {surround};
          ghost var before := visited';
          ReachableStep(tiles, location, surround);
          visited' := AntWalk(surround, visited');
          forall u | u in visited' - before
            ensures Reachable(tiles, location, u)
          {
            ReachableTransitive(tiles, location, surround, u);
          }
          forall u | u in visited' - visited
            ensures NeighboursIn(tiles, u, visited')
          {
            if u in prev - visited {
              assert NeighboursIn(tiles, u, prev);
            } else if u != surround {
              assert u in visited' - before;
            }
          }
        }
      }
    }

    /**
     * The score triple: the queen-pressure differential seen from the mover's
     * opponent, then the white and black win flags.
     */
    method Score() returns (differential: int, whiteWin: bool, blackWin: bool)
      ensures differential ==
        if Turn() then QueenPressure(tiles, queenLocation1) - QueenPressure(tiles, queenLocation0)
        else QueenPressure(tiles, queenLocation0) - QueenPressure(tiles, queenLocation1)
      ensures blackWin <==> queenLocation0.Some? && Surrounded(tiles, queenLocation0.value)
      ensures whiteWin <==> queenLocation1.Some? && Surrounded(tiles, queenLocation1.value)
    {
      var whiteSurroundings := 0;
      blackWin := false;
      match queenLocation0 {
      case Some(queenLocation) =>
        var surroundings := Surrounding(queenLocation);
        for i := 0 to 6
          invariant whiteSurroundings == CountOccupied(surroundings[..i], tiles)
        {
          assert surroundings[..i + 1][..i] == surroundings[..i];
          if surroundings[i] in tiles {
            whiteSurroundings := whiteSurroundings + 1;
          }
        }
        assert surroundings[..6] == surroundings;
        QueenPressureRange(tiles, queenLocation0);
        if whiteSurroundings == 6 {
          blackWin := true;
        }
      case None =>
        whiteSurroundings := 1;
      }

      var blackSurroundings := 0;
      whiteWin := false;
      match queenLocation1 {
      case Some(queenLocation) =>
        var surroundings := Surrounding(queenLocation);
        for i := 0 to 6
          invariant blackSurroundings == CountOccupied(surroundings[..i], tiles)
        {
          assert surroundings[..i + 1][..i] == surroundings[..i];
          if surroundings[i] in tiles {
            blackSurroundings := blackSurroundings + 1;
          }
        }
        assert surroundings[..6] == surroundings;
        QueenPressureRange(tiles, queenLocation1);
        if blackSurroundings == 6 {
          whiteWin := true;
        }
      case None =>
        blackSurroundings := 1;
      }

      if Turn() {
        differential := blackSurroundings - whiteSurroundings;
      } else {
        differential := whiteSurroundings - blackSurroundings;
      }
    }
  }

  /** Every option at every location, each pair once (the nested loops of move generation). */
  method PlacementsAt(placeable: seq<TileType>, placeableLocations: set<HexCoord>) returns (moves: seq<Move>)
    requires NoDuplicates(placeable)
    ensures NoDuplicates(moves)
    ensures |moves| == |placeable| * |placeableLocations|
    ensures forall m :: m in moves <==> m.Place? && m.tileType in placeable && m.location in placeableLocations
  {
    moves := [];
    var rest := placeableLocations;
    while rest != {}
      invariant rest <= placeableLocations
      invariant NoDuplicates(moves)
      invariant |moves| == |placeable| * |placeableLocations - rest|
      invariant forall m :: m in moves <==>
                  m.Place? && m.tileType in placeable && m.location in placeableLocations - rest
      decreases rest
    {
      var loc :| loc in rest;
      ghost var done := placeableLocations - rest;
      rest := rest - {loc};
      assert placeableLocations - rest == done + {loc};
      assert |done + {loc}| == |done| + 1;
      for k := 0 to |placeable|
        invariant NoDuplicates(moves)
        invariant |moves| == |placeable| * |done| + k
        invariant forall m :: m in moves <==>
                    m.Place? && ((m.tileType in placeable && m.location in done)
                                 || (m.tileType in placeable[..k] && m.location == loc))
      {
        assert placeable[..k + 1] == placeable[..k] + [placeable[k]];
        assert placeable[k] !in placeable[..k];
        moves := moves + [Place(placeable[k], loc)];
      }
      assert placeable[..|placeable|] == placeable;
      assert |placeable| * (|done| + 1) == |placeable| * |done| + |placeable|;
    }
  }

  /**
   * A generated placement lands on an empty cell next to the hive (or on the
   * empty board at ply 0), so the hive stays one cluster.
   */
  lemma PlaceKeepsHive(tiles: TileStore, l: HexCoord, t: HiveTile, turnCount: nat)
    requires turnCount == 0 ==> tiles == map[] && l == Origin
    requires turnCount == 1 ==> tiles.Keys == {Origin} && l == SecondCell
    requires turnCount >= 2 ==> Placeable(tiles, turnCount % 2 == 0, l)
    requires tiles != map[] ==> Connected(tiles)
    ensures l !in tiles
    ensures Connected(tiles[l := t])
  {
    if turnCount == 0 {
      assert tiles[l := t].Keys == {l};
      ConnectedSingle(tiles[l := t], l);
    } else if turnCount == 1 {
      assert Adjacent(Origin, SecondCell);
      ConnectedSingle(tiles, Origin);
      ConnectedExtend(tiles, Origin, SecondCell, t);
    } else {
      var j :| 0 <= j < 6 && Surrounding(l)[j] in tiles && tiles[Surrounding(l)[j]].team == (turnCount % 2 == 0);
      var k := Surrounding(l)[j];
      AdjacentSymmetric(l, k);
      ConnectedExtend(tiles, k, l, t);
    }
  }
}
