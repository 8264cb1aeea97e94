# Hive rules layer in Dafny

This project models the rules layer of a two-player Hive engine. The game is played on an
unbounded hexagonal grid in axial coordinates. Each player has a queen and six ants. The
model covers:

- **HexCoords**: the six-neighbour list in its fixed order, and the projection to and from
  the doubled-offset ("square") display grid. The projection uses truncating signed division
  and remainder, as in `src/hex_coord.rs`.
- **TileTypes**: the two piece kinds and their one-letter codes.
- **HiveTiles**: a piece with the chain of pieces covering it, and `Top`. `TileStore` is the
  board, a map from coordinate to the stack standing there.
- **Movement**: the one-cell slide with its gap test (`possible_steps`), the queen's moves,
  the ant's two-step moves, and the per-kind dispatch `get_moves`. All of these come from
  `src/tile_types.rs`.
- **PieceBags**: one player's bag, as a class with `queen` and `ants` fields that
  `UsePiece` and `UnusePiece` update in place.
- **Connectivity**: walks, reachability and connectedness of the occupied cells. These are
  the meaning of the depth-first walk in `is_broken` and `ant`.
- **GameStates**: the game state as a class. It holds the ply counter, the board, the two
  bags and the two queen locations. It provides:
  - turn and forced-queen rules;
  - placement-location scan;
  - move generation;
  - `apply_move`;
  - the connectivity walk;
  - scoring.

  A ghost invariant `Inv` says that:
  - the opening cells are fixed;
  - the hive is one connected cluster;
  - every piece is either on the board or in its owner's bag;
  - a queen location is recorded exactly when that queen has been placed.

  `ApplyMove` is proved to keep `Inv` for every placement that the generator can produce.

The model follows the code as written, including where it departs from the usual Hive rules:

- `get_possible_moves` generates placements only. It never produces a `Move::Move`
  relocation, even after the queen is placed.
- `get_moves` sends the ant to the queen's one-cell rule. `ant_moves` exists but is
  never called. It computes one or two slides on the unchanged board, not the closure of
  repeated slides around the hive.
- `is_broken` returns true when the walk visits every occupied cell. That means it answers
  "connected", not "broken". It also does not vacate any cell before walking.
- A placement inserts a fresh uncovered piece and replaces whatever stood at the cell.
  Nothing is ever stacked, and a relocation moves the whole chain.
- On ply 1 every placement goes to the fixed cell (1, 0), and on ply 0 to the origin.
- The gap test of `possible_steps` looks at list positions `(i + 5) % 6` and `(i + 1) % 6`.
  The neighbour order is not cyclic around the cell, so these positions are not always the
  two cells that flank the edge. The model keeps the positions as written.
- There is no undo of a move, no pass/unpass, no position hash and no search. `main.rs`
  calls `pass`, `get_square_bounds` and `turn_count`, but `src/game_state.rs` does not define them.

## Model

| member | source | states |
|---|---|---|
| HexCoords.HalfTowardZero | src/hex_coord.rs:23 | the quotient by 2 rounds toward zero: exact when even, otherwise one half closer to zero |
| HexCoords.RemTowardZero | src/hex_coord.rs:29 | the remainder by 2 lies in -1..1, is never of the opposite sign to the dividend, and is zero exactly when the dividend is even |
| HexCoords.ToSquare | src/hex_coord.rs:17-19 | the row is `y` and the column has the same parity as the row |
| HexCoords.FromSquare | src/hex_coord.rs:21-26 | keeps the row, and inverts `ToSquare` on every square whose column and row have the same parity |
| HexCoords.TryFromSquare | src/hex_coord.rs:28-37 | refuses exactly the squares of odd column-minus-row parity, and otherwise returns the cell that projects back onto the square |
| HexCoords.FromSquareRoundTrip | src/hex_coord.rs:17-26 | projecting a cell and projecting back gives the cell |
| HexCoords.TryFromSquareRoundTrip | src/hex_coord.rs:17-37 | the checked inverse accepts every projected cell and returns it |
| HexCoords.Surrounding | src/hex_coord.rs:39-50 | exactly six neighbours |
| HexCoords.SurroundingDistinct | src/hex_coord.rs:39-50 | the six neighbours are pairwise distinct and none is the cell itself |
| HexCoords.OppositeLeadsBack | src/hex_coord.rs:42-49 | for each direction there is a fixed direction leading back from the neighbour to the cell |
| HexCoords.AdjacentSymmetric | src/hex_coord.rs:42-49 | `b` is a neighbour of `a` iff `a` is a neighbour of `b` |
| TileTypes.Character | src/tile_types.rs:14-19 | every kind is coded as 'Q' or 'A' |
| TileTypes.FromCharacter | src/tile_types.rs:21-27 | refuses exactly the characters other than 'Q' and 'A', and otherwise decodes to the kind with that code |
| TileTypes.CharacterRoundTrip | src/tile_types.rs:14-27 | decoding the code of a kind gives that kind |
| HiveTiles.New | src/hive_tile.rs:11-17 | the new piece has the given owner and kind, nothing above it, and is its own top |
| HiveTiles.Top | src/hive_tile.rs:19-26 | the result has nothing above it, and an uncovered piece is its own top |
| HiveTiles.Stack | src/hive_tile.rs:4-8 | the chain is non-empty and starts at the piece itself |
| HiveTiles.TopIsLastOfStack | src/hive_tile.rs:19-26 | `Top` returns the last piece of the covering chain |
| HiveTiles.StackLinks | src/hive_tile.rs:4-8 | each piece of the chain except the last is covered by the next one |
| HiveTiles.TopIdempotent | src/hive_tile.rs:19-26 | the top of the top is the top |
| Movement.StepDirections | src/tile_types.rs:64-68 | the directions kept by the gap test, strictly increasing, each passing the test, and including every direction that passes |
| Movement.StepsUpTo | src/tile_types.rs:64-68 | at most as many steps as neighbours examined |
| Movement.StepsUpToPicks | src/tile_types.rs:64-68 | the steps are the neighbours at the kept directions, in order |
| Movement.StepsSpec | src/tile_types.rs:58-70 | the slides are the in-order subsequence of neighbours that pass the gap test: none twice, at most six, and neighbour `i` is present iff it passes |
| Movement.StepsNoDuplicates | src/tile_types.rs:58-70 | no destination is listed twice |
| Movement.StepsMembership | src/tile_types.rs:62-67 | neighbour `i` is a destination iff it is empty and positions `(i+5)%6` and `(i+1)%6` are not both occupied |
| Movement.StepsUpToAll | src/tile_types.rs:64-68 | when every examined neighbour passes, all of them are returned in order |
| Movement.StepsUpToNone | src/tile_types.rs:64-68 | when no examined neighbour passes, nothing is returned |
| Movement.StepsWhenSurrounded | src/tile_types.rs:62-67 | a fully surrounded piece has no slide |
| Movement.StepsWhenIsolated | src/tile_types.rs:62-67 | a piece with no neighbours may slide to all six, in neighbour order |
| Movement.PossibleSteps | src/tile_types.rs:58-70 | the loop returns exactly the specified slides: in neighbour order, none twice, at most six, neighbour `i` present iff it passes the gap test |
| Movement.QueenMoves | src/tile_types.rs:41-43 | the queen's moves are exactly the one-cell slides |
| Movement.GetMoves | src/tile_types.rs:29-38 | both kinds, the ant included, get exactly the one-cell slides |
| Movement.ReachFromMembership | src/tile_types.rs:49-54 | the collected set holds exactly the first cells and the slides from them |
| Movement.AntReachMembership | src/tile_types.rs:45-56 | a cell is an ant destination iff it is one slide away or one slide from such a cell |
| Movement.SetToSequence | src/tile_types.rs:55 | lists the set, each element exactly once |
| Movement.AntMoves | src/tile_types.rs:45-56 | the result has no duplicates and holds exactly the ant destinations |
| Movement.StepsAreAntMoves | src/tile_types.rs:45-56 | every one-step destination is also an ant destination |
| PieceBags.PieceBag.constructor | src/piece_bag.rs:14-19 | a new bag holds the queen and six ants, seven pieces in all |
| PieceBags.PieceBag.GetPlaceOptions | src/piece_bag.rs:40-55 | when the queen is forced and in hand, the only option is the queen. Otherwise the queen is offered iff in hand and the ant iff any remain. Every option is available, none is repeated, and the queen comes before the ant |
| PieceBags.PieceBag.UsePiece | src/piece_bag.rs:57-68 | takes out exactly one piece of the given kind and leaves the other kind alone |
| PieceBags.PieceBag.UnusePiece | src/piece_bag.rs:70-80 | puts back exactly one piece of the given kind and leaves the other kind alone |
| PieceBags.ForcedFlagIrrelevantWithoutQueen | src/piece_bag.rs:40-43 | once the queen is placed, the forced flag does not change the options |
| PieceBags.UseThenUnuse | src/piece_bag.rs:57-80 | using a piece and putting it back restores the bag exactly |
| Connectivity.ReachableStart | src/game_state.rs:185-187 | every occupied cell reaches itself |
| Connectivity.ReachableStep | src/game_state.rs:194-196 | an occupied neighbour of an occupied cell is reachable from it |
| Connectivity.ReachableTransitive | src/game_state.rs:193-199 | reachability composes |
| Connectivity.ReachableSymmetric | src/game_state.rs:193-199 | reachability is symmetric |
| Connectivity.ReachableGrows | src/game_state.rs:171 | occupying more cells keeps every walk |
| Connectivity.PathStaysInside | src/game_state.rs:193-199 | a walk from a neighbour-closed set never leaves it |
| Connectivity.ClosedHoldsReachable | src/game_state.rs:184-191 | a neighbour-closed visited set holds every cell reachable from its members |
| Connectivity.ConnectedFromHub | src/game_state.rs:184-191 | if every occupied cell is reachable from one cell, the board is connected |
| Connectivity.ConnectedSingle | src/game_state.rs:133-135 | a board with a single occupied cell is connected |
| Connectivity.ConnectedExtend | src/game_state.rs:171 | occupying a cell next to a connected board keeps it connected |
| GameStates.PlaceableLocationsSpec | src/game_state.rs:103-128 | the scan's cells are exactly the cells that are empty, have no neighbour topped by the opponent, and touch a stack of the mover |
| GameStates.CountOccupiedFull | src/game_state.rs:205-209 | the count is at most the number of cells, and equals it iff every cell is occupied |
| GameStates.QueenPressureRange | src/game_state.rs:202-216 | an unplaced queen counts 1. A placed queen counts at most 6, and exactly 6 iff it is surrounded |
| GameStates.TeamSizeAfterPlace | src/game_state.rs:171 | a piece on an empty cell adds one to its owner's count and nothing to the other player's |
| GameStates.PlacementsAt | src/game_state.rs:143-152 | every option at every location, each pair once: the count is the product of the sizes, and a move is listed iff it pairs an option with a location |
| GameStates.PlaceKeepsHive | src/game_state.rs:130-153 | the target of a generated placement is empty, and the board stays connected after it is placed |
| GameStates.GameState.constructor | src/game_state.rs:20-27 | the start: ply 0, an empty board, two full and separate bags, no queens recorded, and the invariant holds |
| GameStates.GameState.Turn | src/game_state.rs:77-79 | the first player moves exactly on even plies |
| GameStates.GameState.TurnPieceBag | src/game_state.rs:81-97 | the mover's bag is the first player's bag exactly on even plies |
| GameStates.GameState.ForceQueen | src/game_state.rs:99-101 | the queen is forced exactly on plies 6 and 7 |
| GameStates.GameState.GetPlaceableLocations | src/game_state.rs:103-128 | the scan returns exactly the cells where the mover may place |
| GameStates.GameState.GetPossibleMoves | src/game_state.rs:130-153 | only placements of available kinds, and only the queen while forced and in hand. Plies 0 and 1: one placement per option, at the origin or at (1, 0) in option order. Later: each option at each placeable cell, each pair exactly once |
| GameStates.GameState.SetQueenLocation | src/game_state.rs:155-162 | records the mover's queen location and changes nothing else |
| GameStates.GameState.ApplyMove | src/game_state.rs:164-182 | the ply advances and the turn passes. A placement puts a fresh piece on the cell, takes it from the mover's bag and records a placed queen. A relocation moves the stack and records a moved queen. A generated placement keeps the invariant |
| GameStates.GameState.IsBroken | src/game_state.rs:184-191 | the walk from any one cell visits every cell iff the board is connected |
| GameStates.GameState.AntWalk | src/game_state.rs:193-199 | grows the visited set only by cells reachable from the start. Every cell it adds, and the start, has all its occupied neighbours visited |
| GameStates.GameState.Score | src/game_state.rs:201-240 | the differential is the opponent's queen pressure minus the mover's. Black wins iff the first player's queen is placed and surrounded. White wins iff the second player's queen is placed and surrounded |

## Left out

- `main.rs` is not part of this model: the console loop, input parsing, computer and minimax selection.
- The `print` functions of the game state and the bag are not modelled. They are terminal output.
- Machine integer widths (`isize`, `usize`) are not modelled. Integers are unbounded, so overflow is not considered.
- `HashMap` and `HashSet` iteration order is not modelled. Each loop over a hash container picks its next element by a nondeterministic choice, so the order of `get_possible_moves` after ply 1, and of `ant_moves`, is left unspecified, as it is in the code.
- `HexCoord::new` and the getters `team()` and `tile_type()` are not separate members. They are the datatype constructor and its fields.
- `TileStore` is imported by `src/tile_types.rs` from `crate::game_state` (`src/tile_types.rs:4`), which does not define it. The model takes it to be the type of `GameState::tiles` (`src/game_state.rs:14`), a map from coordinate to stack.
- The debug assertions of `use_piece` and `is_broken` become preconditions (`UsePiece`, `ApplyMove`) or proved facts (`IsBroken`). The `unwrap` on an empty board in `is_broken` becomes the precondition that the board is non-empty. The `unwrap` of `remove` in `apply_move` becomes the precondition that a relocation starts on an occupied cell.
- GameStates.GameState.ApplyMove: keeping the invariant is proved only for generated placements. Relocations are never generated, so they are left without that guarantee. A relocated opposing queen is recorded under the mover's queen location, as the code does.
- GameStates.GameState.Valid: requiring the two bags to be different objects is a side effect of representing the pair of bags as two references.
