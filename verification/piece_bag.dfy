/** One player's pieces still in hand: the queen flag and the number of ants. */
module PieceBags {
  import opened Util
  import opened TileTypes

  const STARTING_ANTS: nat := 6
  const STARTING_TOTAL: nat := 1 + STARTING_ANTS

  class PieceBag {
    var queen: bool
    var ants: nat

    /** A full bag: the queen and STARTING_ANTS ants. */
    constructor ()
      ensures queen && ants == STARTING_ANTS
      ensures Remaining() == STARTING_TOTAL
    {
      queen := true;
      ants := STARTING_ANTS;
    }

    /** Number of pieces still in hand. */
    function Remaining(): nat
      reads this
    {
      (if queen then 1 else 0) + ants
    }

    /** A piece of kind `t` is still in hand. */
    predicate Available(t: TileType)
      reads this
    {
      match t
      case Queen => queen
      case Ant => ants > 0
    }

    /** The kinds that may be placed now; only the queen while it is forced and still in hand. */
    function GetPlaceOptions(isQueenForced: bool): (options: seq<TileType>)
      reads this
      ensures isQueenForced && queen ==> options == [Queen]
      ensures !(isQueenForced && queen) ==> (Queen in options <==> queen) && (Ant in options <==> ants > 0)
      ensures forall k :: 0 <= k < |options| ==> Available(options[k])
      ensures NoDuplicates(options) && |options| <= 2
      ensures Queen in options && Ant in options ==> options == [Queen, Ant]
    {
      if isQueenForced && queen then [Queen]
      else (if queen then [Queen] else []) + (if ants > 0 then [Ant] else [])
    }

    /** Takes one piece of kind `t` out of the bag. */
    method UsePiece(t: TileType)
      requires Available(t)
      modifies this
      ensures t == Queen ==> !queen && ants == old(ants)
      ensures t == Ant ==> queen == old(queen) && ants == old(ants) - 1
      ensures Remaining() == old(Remaining()) - 1
    {
      match t
      case Queen =>
        queen := false;
      case Ant =>
        ants := ants - 1;
    }

    /** Puts one piece of kind `t` back; the queen only when it is out of the bag. */
    method UnusePiece(t: TileType)
      requires t == Queen ==> !queen
      modifies this
      ensures t == Queen ==> queen && ants == old(ants)
      ensures t == Ant ==> queen == old(queen) && ants == old(ants) + 1
      ensures Remaining() == old(Remaining()) + 1
    {
      match t
      case Queen =>
        queen := true;
      case Ant =>
        ants := ants + 1;
    }
  }

  /** With the queen already placed, forcing the queen changes nothing. */
  lemma ForcedFlagIrrelevantWithoutQueen(b: PieceBag)
    requires !b.queen
    ensures b.GetPlaceOptions(true) == b.GetPlaceOptions(false)
  {
  }

  /** `UnusePiece` undoes `UsePiece`: the bag is restored exactly. */
  method UseThenUnuse(b: PieceBag, t: TileType)
    requires b.Available(t)
    modifies b
    ensures b.queen == old(b.queen) && b.ants == old(b.ants)
  {
    b.UsePiece(t);
    b.UnusePiece(t);
  }
}
