# Gamma Hanto rules engine, modelled in Dafny

Gamma Hanto is a two-player game played on a hex grid where pieces are only placed, never moved. Blue and Red take turns placing a butterfly or a sparrow. The first piece of the game goes to the origin. Every later piece goes to a free cell next to a piece already on the board. Each player places at most one butterfly, and a player still without one must place it by its fourth move (round 4). A player whose butterfly has all six neighbouring cells occupied loses. If both butterflies are surrounded at once, or round 6 ends with neither surrounded, the game is a draw.

The engine is the class `GammaHantoGame`. Its state is:

- the starting player and the current player;
- a round counter;
- where each butterfly stands, if it has been placed;
- a game-over flag;
- a map from coordinates to pieces.

`makeMove` is the only operation that changes this state.

The model has six modules:

- `HantoCommon` (common.dfy) holds the closed vocabularies: colours, piece kinds, pieces, move results, and the reasons a move is refused. The engine reports a refusal by throwing an exception with a message. Here each reason is a `HantoError` tag, returned in the `Failure` case of a `Result`.
- `Hex` (hex.dfy) holds axial coordinates, six-direction adjacency, and counting the board keys adjacent to a cell.
- `GammaRules` (rules.dfy) holds the rules as functions on a `GameState` value. `Step` is one whole `makeMove` call: the checks in the engine's order, then the placement, the round counter and the end-of-game classification. `Run` is a sequence of calls. `Invariant` is what holds in every state a game can reach, and the lemmas prove what the rules guarantee.
- `GammaCounts` (counts.dfy) proves that in every reachable state each player's pieces on the board number the moves that player has made, as read off the round counter.
- `Gamma` (game.dfy) holds the class `GammaHantoGame`. It has the engine's fields and its methods `MakeMove`, `CheckValidPiece`, `CheckValidLocation`, `PlacePiece`, `IsSurrounded`, `CheckEndgameConditions` and `GetPieceAt`. Each method is proved against the rule function it implements. The two board walks (counting a butterfly's neighbours, and searching for an occupied neighbour with an early exit) are `while` loops with invariants. `MakeMove` is proved to act as `Step` and to keep `Invariant`.
- `GammaScenarios` (scenarios.dfy) holds concrete openings and decisive moves, and one whole game run from a new game. In that game Blue places its butterfly at the origin, the six cells around it are filled in turn, and Blue's own last sparrow rings it, so Red wins without ever placing a butterfly.

The round counter follows the engine's code exactly. At `GammaHantoGame.java:77-82` the comparison `currentPlayer == startingPlayer` is made after `placePiece` has already passed the turn on. So the counter grows when the non-starting player has just moved, which is once per full round. Both `Advanced` and `MakeMove` do exactly this. `AcceptedMoveEffect` states it in both forms: the counter grows exactly when the new current player is the starting player, and exactly when the mover was not the starting player.

## Model

| member | source | states |
|---|---|---|
| `Gamma.GammaHantoGame.constructor` | src/hanto/studentbjsharron/gamma/GammaHantoGame.java:45-53 | a new game is in round 1 with an empty board, the first mover to play, no butterflies and not over, and it satisfies the reachable-state invariant |
| `GammaRules.InitInvariant` | src/hanto/studentbjsharron/gamma/GammaHantoGame.java:45-53 | the initial state satisfies the reachable-state invariant: empty board, round 1, the first mover to play, not over |
| `Gamma.GammaHantoGame.MakeMove` | src/hanto/studentbjsharron/gamma/GammaHantoGame.java:59-85 | the result and the new state are those of `Step` (whose effects the lemmas below state); a refused move changes nothing; after game over every move fails with `GameFinished`; the reachable-state invariant is kept |
| `Gamma.GammaHantoGame.CheckEndgameConditions` | src/hanto/studentbjsharron/gamma/GammaHantoGame.java:91-114 | returns the classification `Outcome` of the current position and sets the game-over flag exactly when the result is not `Ok` (otherwise the flag is left as it was) |
| `Gamma.GammaHantoGame.PlacePiece` | src/hanto/studentbjsharron/gamma/GammaHantoGame.java:121-137 | the board gains the mover's piece at `place`; a butterfly's location is recorded for the mover; the turn passes to the other colour |
| `Gamma.GammaHantoGame.IsSurrounded` | src/hanto/studentbjsharron/gamma/GammaHantoGame.java:143-157 | the walk over the board's keys counts exactly the keys adjacent to `loc`; the answer is true iff a butterfly is there and all six cells around it are occupied; an absent butterfly is never surrounded |
| `Gamma.GammaHantoGame.CheckValidPiece` | src/hanto/studentbjsharron/gamma/GammaHantoGame.java:163-191 | no error iff the kind is butterfly or sparrow, a butterfly is placed only while the mover has none, and from round 4 on a mover without a butterfly places only a butterfly; the error tags follow the engine's order |
| `Gamma.GammaHantoGame.CheckValidLocation` | src/hanto/studentbjsharron/gamma/GammaHantoGame.java:197-215 | no error iff: on the starting player's round-1 move the target is (0,0); otherwise the target is free and some board key is adjacent to it (the walk with early return finds one iff one exists) |
| `Gamma.GammaHantoGame.GetPieceAt` | src/hanto/studentbjsharron/gamma/GammaHantoGame.java:221-226 | returns a piece iff the coordinate is occupied, and then the piece stored there |
| `Hex.NeighbourCount` | src/hanto/studentbjsharron/gamma/GammaHantoGame.java:156 | every cell has exactly six distinct neighbours, which makes six the right target for the count |
| `Hex.AdjacentCount` | src/hanto/studentbjsharron/gamma/GammaHantoGame.java:148-156 | the number of board keys adjacent to a cell is at most six, and is six exactly when all six neighbouring cells are occupied |
| `GammaRules.SurroundedIsEncircled` | src/hanto/studentbjsharron/gamma/GammaHantoGame.java:143-157 | "six adjacent keys" is equivalent to "every neighbour occupied", and a missing butterfly is not surrounded |
| `GammaRules.OutcomeClassified` | src/hanto/studentbjsharron/gamma/GammaHantoGame.java:91-114 | Draw iff both butterflies are encircled, or neither is and the round exceeds 6; BlueWins iff only Red's is encircled; RedWins iff only Blue's is; Ok iff neither is encircled and the round is at most 6 |
| `GammaRules.RefusedMoveChangesNothing` | src/hanto/studentbjsharron/gamma/GammaHantoGame.java:62-77 | a move fails iff some check fails, and then the state is unchanged; a move after game over fails with `GameFinished`; a `from` fails next, then a kind other than butterfly or sparrow |
| `GammaRules.LocationAccepted` | src/hanto/studentbjsharron/gamma/GammaHantoGame.java:197-215 | the location check passes iff the first move goes to the origin, or a later move goes to a free cell with an occupied neighbouring cell |
| `GammaRules.AcceptedMoves` | src/hanto/studentbjsharron/gamma/GammaHantoGame.java:59-85 | a move is accepted iff the game is not over, no `from` is given, the kind is butterfly or sparrow, the butterfly rules hold (at most one butterfly per player, and from round 4 on a player still without one may place only its butterfly), and the location rule holds |
| `GammaRules.TargetFree` | src/hanto/studentbjsharron/gamma/GammaHantoGame.java:197-215 | in a reachable state a move that passes every check targets a free cell, including the opening move, whose check does not look at occupancy, so no piece is ever overwritten |
| `GammaRules.AcceptedMoveEffect` | src/hanto/studentbjsharron/gamma/GammaHantoGame.java:77-137 | an accepted move targets a free cell; it adds exactly that one entry, the mover's piece, so the board grows by one; the turn passes to the opponent; the round counter grows by one exactly when the new current player is the starting player, which is exactly when the mover was not the starting player; game over iff the result is not `Ok` |
| `GammaRules.PlacedTurn` | src/hanto/studentbjsharron/gamma/GammaHantoGame.java:77-82 | after a placement the starting player is unchanged, the turn is the opponent's, and the round counter has grown exactly when the turn is back with the starting player |
| `GammaRules.PlacedRecords` | src/hanto/studentbjsharron/gamma/GammaHantoGame.java:121-137 | a placement changes the board by the mover's piece at the target only; only the mover's butterfly record can change, and only to the target when the piece is a butterfly |
| `GammaRules.ButterflyNeverMoves` | src/hanto/studentbjsharron/gamma/GammaHantoGame.java:124-133 | a recorded butterfly location is never reassigned; a location changes only when its player's butterfly is placed there by an accepted move |
| `GammaRules.AcceptedMoveCounts` | src/hanto/studentbjsharron/gamma/GammaHantoGame.java:174-189 | after an accepted move the board size still equals the moves made by both players, as read off the round counter; a player who has made four or more moves has placed its butterfly (the deadline rule); the round stays within 1..7. That these move counts are also the pieces of each colour on the board is `GammaCounts.GameColourCounts` |
| `GammaRules.AcceptedMoveButterflies` | src/hanto/studentbjsharron/gamma/GammaHantoGame.java:121-137 | after an accepted move each recorded butterfly location holds that player's butterfly, and every butterfly on the board is the recorded one, so each player has at most one |
| `GammaRules.StepInvariant` | src/hanto/studentbjsharron/gamma/GammaHantoGame.java:59-85 | every `makeMove` call, accepted or refused, keeps the reachable-state invariant |
| `GammaRules.BoardBounded` | src/hanto/studentbjsharron/gamma/GammaHantoGame.java:108-111 | in a reachable state the board holds at most two pieces per round, twelve in all |
| `GammaRules.RunInvariant` | src/hanto/studentbjsharron/gamma/GammaHantoGame.java:59-85 | over any sequence of calls the invariant is kept; no occupied cell is vacated or overwritten; the board grows by exactly the number of accepted moves; recorded butterflies stay put |
| `GammaRules.GameInvariant` | src/hanto/studentbjsharron/gamma/GammaHantoGame.java:45-85 | in a game started by either colour, after any sequence of calls the invariant holds and the board size equals the number of accepted moves |
| `GammaRules.FinishedGameFrozen` | src/hanto/studentbjsharron/gamma/GammaHantoGame.java:62-64 | once the game is over, any sequence of further calls is refused and leaves the state unchanged |
| `GammaCounts.PlacedPieces` | src/hanto/studentbjsharron/gamma/GammaHantoGame.java:121-122 | placing a piece on a free cell adds exactly that cell to the mover's pieces and leaves the other colour's pieces as they were |
| `GammaCounts.StepColourCounts` | src/hanto/studentbjsharron/gamma/GammaHantoGame.java:59-85 | every `makeMove` call from a reachable state keeps each player's piece count equal to the moves it has made |
| `GammaCounts.RunColourCounts` | src/hanto/studentbjsharron/gamma/GammaHantoGame.java:59-85 | over any sequence of calls from a reachable state, each player's piece count stays equal to the moves it has made |
| `GammaCounts.GameColourCounts` | src/hanto/studentbjsharron/gamma/GammaHantoGame.java:45-85 | in a game started by either colour, after any sequence of calls, each player's pieces on the board number its moves, and a player with four or more pieces has placed its butterfly |
| `GammaScenarios.ButterflyOpening` | src/hanto/studentbjsharron/gamma/GammaHantoGame.java:59-85 | Blue's butterfly at (0,0) and then Red's at (1,0) are both accepted with `Ok`; the board is exactly those two pieces, and it is round 2 with Blue to move |
| `GammaScenarios.OpeningOffOrigin` | src/hanto/studentbjsharron/gamma/GammaHantoGame.java:198-201 | an opening butterfly or sparrow anywhere but the origin is refused with `FirstMoveOffOrigin` and changes nothing |
| `GammaScenarios.SparrowAfterDeadline` | src/hanto/studentbjsharron/gamma/GammaHantoGame.java:174-189 | from round 4 on, a sparrow from a mover without a butterfly is refused with `ButterflyDeadline` |
| `GammaScenarios.IsolatedTarget` | src/hanto/studentbjsharron/gamma/GammaHantoGame.java:203-213 | after the opening, a target with no occupied neighbour is refused whatever the kind; if the kind is acceptable and the target is free, the reason is `NoAdjacentPiece` |
| `GammaScenarios.DecidingMove` | src/hanto/studentbjsharron/gamma/GammaHantoGame.java:91-114 | at the end of an accepted move, a position where only Red's butterfly is ringed returns BlueWins and ends the game, and symmetrically for RedWins; a position past round 6 with no ring returns Draw and ends the game |
| `GammaScenarios.RingStep` | src/hanto/studentbjsharron/gamma/GammaHantoGame.java:59-114 | in the game that rings Blue's butterfly, each of the first six moves is accepted with `Ok` from the state the earlier moves reach, and the seventh returns `RedWins` and ends the game |
| `GammaScenarios.RingGame` | src/hanto/studentbjsharron/gamma/GammaHantoGame.java:45-114 | that game, run from a new game with Blue to move, accepts all seven moves and ends over, with Red's butterfly never placed |

## Left out

- `getPrintableBoard` (text rendering of the board) is not modelled. It is a view of the board, not game state, and it depends on piece display symbols that are not part of this model.
- Exception message texts are not modelled. Each refusal is a `HantoError` tag.
- `HantoCoordinateImpl` is not part of this model beyond its adjacency test. Coordinate copying, hashing and `equals` are replaced by the value type `Hex.Coord`, with structural equality.
- `HashMap` internals and key iteration order are not modelled. The board walks pick keys in an unspecified order, and their results do not depend on it.
- A null `to` is not modelled. The engine would fail with a null-pointer error in the coordinate copy. Here `to` is always a coordinate, and a `from` is an `Option`.
- A null `movesFirst` is not modelled, because `Color` has no null. The constructor (`GammaHantoGame.java:45-47`) accepts one, and the game then goes astray. Neither colour branch of `checkValidPiece` (lines 168 and 180) applies. `placePiece` takes its red branch (lines 130-135), so an opening butterfly is recorded as Red's and the turn passes to Blue. `currentPlayer == startingPlayer` at line 79 is then never true again, so the round counter stays at 1, and neither the deadline rule nor the draw after round 6 can fire. This assumes `HantoPieceImpl`, which is not part of this model, accepts a null colour; if it rejects one, the first move fails instead.
- A null `where` in `getPieceAt` is not modelled. It fails in the coordinate copy at line 223, just as a null `to` does.
- A null `pieceType` is not modelled. The engine refuses it at line 164 with the same refusal as the kinds other than butterfly and sparrow (`UnsupportedPiece` here).
- The `HantoGame` interface and the other `hanto.common` types are not modelled beyond the enumerations the engine uses. `HantoPieceType` is given the kinds Butterfly, Crab, Crane, Dove, Horse and Sparrow, so that the refusal of kinds other than butterfly and sparrow can be stated.
- `numTurns` is a final field that is always 6. It is modelled as the constant `GammaRules.NumTurns`. The literal 4 of the deadline rule is `GammaRules.DeadlineTurn`.
- Concurrent use of one game object is not modelled. The engine is single-threaded.

## Order of checks

Where the engine's order of checks decides the outcome, the model follows the code:

- The round counter grows after the non-starting player moves (see above).
- A `from` coordinate is refused right after the game-over check, before the piece kind is checked.
- A target with no occupied neighbour is reported as `NoAdjacentPiece` only when every earlier check passes. An unsupported kind, a butterfly-rule violation or an occupied target is reported first.
