/** A piece on the board, possibly covered by a chain of further pieces. */
module HiveTiles {
  import opened Util
  import opened HexCoords
  import opened TileTypes

  /** `team` is the owner (true for the player who moves on even plies); `above` covers it. */
  datatype HiveTile = HiveTile(team: bool, tileType: TileType, above: Option<HiveTile>)

  /** The board: each occupied cell maps to the bottom piece of its stack. */
  type TileStore = map<HexCoord, HiveTile>

  /** A fresh, uncovered piece. */
  function New(team: bool, tileType: TileType): (t: HiveTile)
    ensures t.team == team && t.tileType == tileType
    ensures t.above.None? && Top(t) == t
  {
    HiveTile(team, tileType, None)
  }

  /** The piece at the top of the chain that starts at `t`. */
  function Top(t: HiveTile): (r: HiveTile)
    ensures r.above.None?
    ensures t.above.None? ==> r == t
    decreases t
  {
    match t.above
    case Some(a) => Top(a)
    case None => t
  }

  /** The whole chain, bottom first: an independent description of the stack. */
  function Stack(t: HiveTile): (s: seq<HiveTile>)
    ensures |s| >= 1 && s[0] == t
    decreases t
  {
    match t.above
    case Some(a) => [t] + Stack(a)
    case None => [t]
  }

  /** `Top` returns the last piece of the chain. */
  lemma {:induction false} TopIsLastOfStack(t: HiveTile)
    ensures Top(t) == Stack(t)[|Stack(t)| - 1]
    decreases t
  {
    match t.above
    case Some(a) => TopIsLastOfStack(a);
    case None =>
  }

  /** Every piece but the last in the chain is covered by the next one. */
  lemma {:induction false} StackLinks(t: HiveTile, k: nat)
    requires k + 1 < |Stack(t)|
    ensures Stack(t)[k].above == Some(Stack(t)[k + 1])
    decreases t
  {
    match t.above
    case Some(a) =>
      if k > 0 { StackLinks(a, k - 1); }
    case None =>
  }

  lemma TopIdempotent(t: HiveTile)
    ensures Top(Top(t)) == Top(t)
  {
  }
}
