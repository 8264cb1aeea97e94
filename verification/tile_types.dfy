/** The two piece kinds and their one-letter codes. */
module TileTypes {
  import opened Util

  datatype TileType = Queen | Ant

  function Character(t: TileType): (c: char)
    ensures c == 'Q' || c == 'A'
  {
    match t
    case Queen => 'Q'
    case Ant => 'A'
  }

  /** Decodes a one-letter code; every other character is refused. */
  function FromCharacter(c: char): (r: Option<TileType>)
    ensures r.None? <==> c != 'Q' && c != 'A'
    ensures r.Some? ==> Character(r.value) == c
  {
    match c
    case 'Q' => Some(Queen)
    case 'A' => Some(Ant)
    case _ => None
  }

  lemma CharacterRoundTrip(t: TileType)
    ensures FromCharacter(Character(t)) == Some(t)
  {
  }
}
