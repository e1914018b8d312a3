/**
 The rules of Gamma Hanto as functions on a game-state value. `Step` is
 what one `makeMove` call does to the whole state of a GammaHantoGame:
 the checks in the order the engine makes them, then the placement, the
 round counter and the end-of-game classification. The class in module
 Gamma is proved to behave as `Step`; the lemmas here state what the
 rules guarantee about `Step`, and about runs of many moves.
 */
module GammaRules {
  import opened HantoCommon
  import opened Hex

  /** The fixed number of rounds after which the game is a draw. */
  const NumTurns := 6

  /** The round from which a player without a butterfly must place it. */
  const DeadlineTurn := 4

  datatype GameState = GameState(
    startingPlayer: Color,
    currentPlayer: Color,
    turnNumber: int,
    blueButterflyLoc: Option<Coord>,
    redButterflyLoc: Option<Coord>,
    gameOver: bool,
    board: map<Coord, Piece>)

  datatype Move = Move(pieceType: PieceType, from: Option<Coord>, to: Coord)

  /** The state a new game starts in. */
  function Init(movesFirst: Color): GameState {
    GameState(movesFirst, movesFirst, 1, None, None, false, map[])
  }

  /** Where player p's butterfly stands, if it has been placed. */
  function ButterflyOf(s: GameState, p: Color): Option<Coord> {
    if p == Blue then s.blueButterflyLoc else s.redButterflyLoc
  }

  predicate IsFirstMove(s: GameState) {
    s.currentPlayer == s.startingPlayer && s.turnNumber == 1
  }

  /** checkValidPiece: the kind must be playable in this variant, the mover
      may place at most one butterfly, and from round 4 on a mover without
      one may place nothing else. The specification that
      `GammaHantoGame.CheckValidPiece` implements. */
  function PieceError(s: GameState, pieceType: PieceType): Option<HantoError> {
    var loc := ButterflyOf(s, s.currentPlayer);
    if pieceType != Butterfly && pieceType != Sparrow then Some(UnsupportedPiece)
    else if pieceType == Butterfly && loc.Some? then Some(SecondButterfly)
    else if s.turnNumber >= DeadlineTurn && pieceType != Butterfly && loc.None? then Some(ButterflyDeadline)
    else None
  }

  /** checkValidLocation: the first move of the game goes to the origin;
      every other move goes to a free cell next to a placed piece. The
      specification that `GammaHantoGame.CheckValidLocation` implements. */
  function LocationError(s: GameState, place: Coord): Option<HantoError> {
    if IsFirstMove(s) then
      (if place.x != 0 || place.y != 0 then Some(FirstMoveOffOrigin) else None)
    else if place in s.board then Some(OccupiedTarget)
    else if AdjacentKeys(s.board.Keys, place) == {} then Some(NoAdjacentPiece)
    else None
  }

  /** The first reason, in the engine's order, to refuse a move. */
  function MoveError(s: GameState, m: Move): Option<HantoError> {
    if s.gameOver then Some(GameFinished)
    else if m.from.Some? then Some(PieceMovement)
    else if PieceError(s, m.pieceType).Some? then PieceError(s, m.pieceType)
    else LocationError(s, m.to)
  }

  /** placePiece: put the mover's piece on the board, record a butterfly,
      hand the turn to the other player. The specification that
      `GammaHantoGame.PlacePiece` implements. */
  function Placed(s: GameState, pieceType: PieceType, place: Coord): GameState {
    var b := s.(board := s.board[place := Piece(s.currentPlayer, pieceType)]);
    if s.currentPlayer == Blue then
      (if pieceType == Butterfly then b.(blueButterflyLoc := Some(place)) else b).(currentPlayer := Red)
    else
      (if pieceType == Butterfly then b.(redButterflyLoc := Some(place)) else b).(currentPlayer := Blue)
  }

  /** The round counter moves on when, after the toggle, the turn is back
      with the starting player. */
  function Advanced(s: GameState): GameState {
    if s.currentPlayer == s.startingPlayer then s.(turnNumber := s.turnNumber + 1) else s
  }

  /** isSurrounded: a placed butterfly with six board keys adjacent to it.
      The specification that `GammaHantoGame.IsSurrounded` implements. */
  predicate Surrounded(board: map<Coord, Piece>, loc: Option<Coord>) {
    loc.Some? && |AdjacentKeys(board.Keys, loc.value)| == 6
  }

  /** checkEndgameConditions, without the update of the gameOver flag. The
      specification that `GammaHantoGame.CheckEndgameConditions` implements. */
  function Outcome(s: GameState): MoveResult {
    var blueSurr := Surrounded(s.board, s.blueButterflyLoc);
    if Surrounded(s.board, s.redButterflyLoc) then
      (if blueSurr then Draw else BlueWins)
    else if blueSurr then RedWins
    else if s.turnNumber > NumTurns then Draw
    else Ok
  }

  /** One call of makeMove: its result and the game's state afterwards. */
  function Step(s: GameState, m: Move): (Result<MoveResult>, GameState) {
    match MoveError(s, m)
    case Some(e) => (Failure(e), s)
    case None => Concluded(Advanced(Placed(s, m.pieceType, m.to)))
  }

  /** The end of an accepted move: classify the position, and end the game
      on a win or a draw. */
  function Concluded(p: GameState): (Result<MoveResult>, GameState) {
    var r := Outcome(p);
    (Success(r), if r != Ok then p.(gameOver := true) else p)
  }

  /** The state after a sequence of makeMove calls, failed ones included. */
  function Run(s: GameState, moves: seq<Move>): GameState
    decreases |moves|
  {
    if moves == [] then s else Run(Step(s, moves[0]).1, moves[1..])
  }

  /** How many of those calls succeeded. */
  function Successes(s: GameState, moves: seq<Move>): nat
    decreases |moves|
  {
    if moves == [] then 0
    else (if Step(s, moves[0]).0.Success? then 1 else 0) + Successes(Step(s, moves[0]).1, moves[1..])
  }

  // ---------------------------------------------------------------------
  // Reachable states

  /** The number of moves player p has made, read off the round counter
      and whose turn it is. `GammaCounts.GameColourCounts` proves it is the
      number of p's pieces on the board. */
  function MovesBy(s: GameState, p: Color): int {
    s.turnNumber - 1 + (if p == s.startingPlayer && s.currentPlayer != s.startingPlayer then 1 else 0)
  }

  /** A butterfly location is recorded exactly where that player's
      butterfly stands, and no other butterfly is on the board. */
  ghost predicate ButterfliesRecorded(s: GameState) {
    && (s.blueButterflyLoc.Some? ==>
          s.blueButterflyLoc.value in s.board && s.board[s.blueButterflyLoc.value] == Piece(Blue, Butterfly))
    && (s.redButterflyLoc.Some? ==>
          s.redButterflyLoc.value in s.board && s.board[s.redButterflyLoc.value] == Piece(Red, Butterfly))
    && (forall c :: c in s.board && s.board[c].pieceType == Butterfly ==>
          ButterflyOf(s, s.board[c].color) == Some(c))
  }

  /** What holds of every state a game reaches from Init. */
  ghost predicate Invariant(s: GameState) {
    && 1 <= s.turnNumber <= NumTurns + 1
    && (s.turnNumber == NumTurns + 1 ==> s.currentPlayer == s.startingPlayer)
    && |s.board| == MovesBy(s, Blue) + MovesBy(s, Red)
    && (MovesBy(s, Blue) >= DeadlineTurn ==> s.blueButterflyLoc.Some?)
    && (MovesBy(s, Red) >= DeadlineTurn ==> s.redButterflyLoc.Some?)
    && ButterfliesRecorded(s)
    && (forall c :: c in s.board ==> s.board[c].pieceType == Butterfly || s.board[c].pieceType == Sparrow)
    && (s.board != map[] ==> Origin in s.board)
    && s.gameOver == (Outcome(s) != Ok)
  }

  /** `before` is kept, key by key, in `after`: nothing is vacated or overwritten. */
  ghost predicate Extends(before: map<Coord, Piece>, after: map<Coord, Piece>) {
    forall c :: c in before ==> c in after && after[c] == before[c]
  }

  /** A butterfly is encircled when all six cells around it are occupied. */
  ghost predicate Encircled(board: map<Coord, Piece>, loc: Option<Coord>) {
    loc.Some? && Neighbours(loc.value) <= board.Keys
  }

  // ---------------------------------------------------------------------
  // Lemmas

  /** Counting six adjacent keys is the same as encirclement, and an absent
      butterfly is never surrounded. */
  lemma SurroundedIsEncircled(board: map<Coord, Piece>, loc: Option<Coord>)
    ensures Surrounded(board, loc) <==> Encircled(board, loc)
    ensures loc.None? ==> !Surrounded(board, loc)
  {
    if loc.Some? {
      AdjacentCount(board.Keys, loc.value);
    }
  }

  /** The end-of-game classification stated with encirclement. */
  lemma OutcomeClassified(s: GameState)
    ensures Outcome(s) == Draw <==>
      (Encircled(s.board, s.redButterflyLoc) && Encircled(s.board, s.blueButterflyLoc))
      || (!Encircled(s.board, s.redButterflyLoc) && !Encircled(s.board, s.blueButterflyLoc) && s.turnNumber > NumTurns)
    ensures Outcome(s) == BlueWins <==>
      Encircled(s.board, s.redButterflyLoc) && !Encircled(s.board, s.blueButterflyLoc)
    ensures Outcome(s) == RedWins <==>
      !Encircled(s.board, s.redButterflyLoc) && Encircled(s.board, s.blueButterflyLoc)
    ensures Outcome(s) == Ok <==>
      !Encircled(s.board, s.redButterflyLoc) && !Encircled(s.board, s.blueButterflyLoc) && s.turnNumber <= NumTurns
  {
    SurroundedIsEncircled(s.board, s.redButterflyLoc);
    SurroundedIsEncircled(s.board, s.blueButterflyLoc);
  }

  lemma InitInvariant(movesFirst: Color)
    ensures Invariant(Init(movesFirst))
    ensures Init(movesFirst).board == map[] && Init(movesFirst).turnNumber == 1
    ensures Init(movesFirst).currentPlayer == movesFirst && !Init(movesFirst).gameOver
  {
  }

  /** Refusals come in the engine's order, and a refused move changes
      nothing; once the game is over every move is refused. */
  lemma RefusedMoveChangesNothing(s: GameState, m: Move)
    ensures Step(s, m).0.Failure? <==> MoveError(s, m).Some?
    ensures Step(s, m).0.Failure? ==> Step(s, m).1 == s
    ensures s.gameOver ==> Step(s, m) == (Failure(GameFinished), s)
    ensures !s.gameOver && m.from.Some? ==> Step(s, m).0 == Failure(PieceMovement)
    ensures !s.gameOver && m.from.None? && m.pieceType != Butterfly && m.pieceType != Sparrow ==>
      Step(s, m).0 == Failure(UnsupportedPiece)
  {
  }

  /** The location rule stated with neighbour cells. */
  lemma LocationAccepted(s: GameState, place: Coord)
    ensures LocationError(s, place).None? <==>
      if IsFirstMove(s) then place == Origin
      else place !in s.board && Neighbours(place) * s.board.Keys != {}
  {
    var n := Neighbours(place) * s.board.Keys;
    assert n == AdjacentKeys(s.board.Keys, place);
  }

  /** When a move is accepted, stated without the engine's check functions:
      a placement (no `from`) of a butterfly or sparrow; a butterfly only
      if the mover has none yet; from round 4 on, only a butterfly while
      the mover has none; the first piece at the origin, later pieces on a
      free cell next to some occupied cell. */
  lemma AcceptedMoves(s: GameState, m: Move)
    ensures Step(s, m).0.Success? <==>
      && !s.gameOver
      && m.from.None?
      && (m.pieceType == Butterfly || m.pieceType == Sparrow)
      && (m.pieceType == Butterfly ==> ButterflyOf(s, s.currentPlayer).None?)
      && (s.turnNumber >= DeadlineTurn && m.pieceType != Butterfly ==> ButterflyOf(s, s.currentPlayer).Some?)
      && (if IsFirstMove(s) then m.to == Origin
          else m.to !in s.board && Neighbours(m.to) * s.board.Keys != {})
  {
    LocationAccepted(s, m.to);
    assert Step(s, m).0.Success? <==> MoveError(s, m).None?;
  }

  /** An accepted move is a placement followed by the classification. */
  lemma AcceptedStep(s: GameState, m: Move)
    requires Step(s, m).0.Success?
    ensures MoveError(s, m) == None && !s.gameOver
    ensures Step(s, m) == Concluded(Advanced(Placed(s, m.pieceType, m.to)))
    ensures Step(s, m).1 == Advanced(Placed(s, m.pieceType, m.to)).(gameOver := Step(s, m).1.gameOver)
    ensures Step(s, m).0 == Success(Outcome(Advanced(Placed(s, m.pieceType, m.to))))
    ensures Step(s, m).1.gameOver <==> Step(s, m).0.value != Ok
  {
  }

  /** In a reachable state, a move that passes every check targets a free
      cell: the opening move is made on the empty board. */
  lemma TargetFree(s: GameState, m: Move)
    requires Invariant(s)
    requires MoveError(s, m) == None
    ensures m.to !in s.board
  {
    if IsFirstMove(s) {
      assert |s.board| == 0;
    }
  }

  /** What an accepted move does: exactly one new entry, the mover's piece
      at `to`; the turn passes to the opponent; the round counter grows by
      one exactly when the turn is back with the starting player, that is,
      when the non-starting player has just moved. */
  lemma AcceptedMoveEffect(s: GameState, m: Move)
    requires Invariant(s)
    requires Step(s, m).0.Success?
    ensures m.to !in s.board
    ensures Step(s, m).1.board == s.board[m.to := Piece(s.currentPlayer, m.pieceType)]
    ensures |Step(s, m).1.board| == |s.board| + 1
    ensures Step(s, m).1.currentPlayer == Opponent(s.currentPlayer)
    ensures Step(s, m).1.startingPlayer == s.startingPlayer
    ensures Step(s, m).1.turnNumber ==
      if Step(s, m).1.currentPlayer == s.startingPlayer then s.turnNumber + 1 else s.turnNumber
    ensures Step(s, m).1.turnNumber == s.turnNumber + 1 <==> s.currentPlayer != s.startingPlayer
    ensures Step(s, m).1.gameOver <==> Step(s, m).0.value != Ok
  {
    AcceptedStep(s, m);
    TargetFree(s, m);
    PlacedTurn(s, m.pieceType, m.to);
    PlacedRecords(s, m.pieceType, m.to);
  }

  /** A recorded butterfly location is never reassigned, and a location
      is recorded only by placing that player's butterfly there. */
  lemma ButterflyNeverMoves(s: GameState, m: Move, p: Color)
    requires Invariant(s)
    ensures ButterflyOf(s, p).Some? ==> ButterflyOf(Step(s, m).1, p) == ButterflyOf(s, p)
    ensures ButterflyOf(Step(s, m).1, p) != ButterflyOf(s, p) ==>
      && Step(s, m).0.Success?
      && p == s.currentPlayer && m.pieceType == Butterfly
      && ButterflyOf(Step(s, m).1, p) == Some(m.to)
  {
  }

  /** An accepted move adds one piece for the mover: the counts, the
      butterfly deadline and the round bound carry over. */
  lemma AcceptedMoveCounts(s: GameState, m: Move)
    requires Invariant(s)
    requires Step(s, m).0.Success?
    ensures var t := Step(s, m).1;
      && 1 <= t.turnNumber <= NumTurns + 1
      && (t.turnNumber == NumTurns + 1 ==> t.currentPlayer == t.startingPlayer)
      && |t.board| == MovesBy(t, Blue) + MovesBy(t, Red)
      && (MovesBy(t, Blue) >= DeadlineTurn ==> t.blueButterflyLoc.Some?)
      && (MovesBy(t, Red) >= DeadlineTurn ==> t.redButterflyLoc.Some?)
  {
    AcceptedStep(s, m);
    TargetFree(s, m);
    assert PieceError(s, m.pieceType) == None;
    assert s.turnNumber <= NumTurns;
    PlacedCounts(s, m.pieceType, m.to);
  }

  /** The counting part of AcceptedMoveCounts, on the state right after
      the placement and the round update. */
  lemma PlacedCounts(s: GameState, pieceType: PieceType, place: Coord)
    requires 1 <= s.turnNumber <= NumTurns
    requires |s.board| == MovesBy(s, Blue) + MovesBy(s, Red)
    requires MovesBy(s, Blue) >= DeadlineTurn ==> s.blueButterflyLoc.Some?
    requires MovesBy(s, Red) >= DeadlineTurn ==> s.redButterflyLoc.Some?
    requires place !in s.board
    requires PieceError(s, pieceType) == None
    ensures var p := Advanced(Placed(s, pieceType, place));
      && 1 <= p.turnNumber <= NumTurns + 1
      && (p.turnNumber == NumTurns + 1 ==> p.currentPlayer == p.startingPlayer)
      && |p.board| == MovesBy(p, Blue) + MovesBy(p, Red)
      && (MovesBy(p, Blue) >= DeadlineTurn ==> p.blueButterflyLoc.Some?)
      && (MovesBy(p, Red) >= DeadlineTurn ==> p.redButterflyLoc.Some?)
      && MovesBy(p, s.currentPlayer) == MovesBy(s, s.currentPlayer) + 1
      && MovesBy(p, Opponent(s.currentPlayer)) == MovesBy(s, Opponent(s.currentPlayer))
  {
    var p := Advanced(Placed(s, pieceType, place));
    PlacedTurn(s, pieceType, place);
    PlacedRecords(s, pieceType, place);
    assert |p.board| == |s.board| + 1;
    CountsKept(s, p);
  }

  /** A placement keeps the starting player, hands the turn over, and
      moves the round on when the turn is back with the starting player. */
  lemma PlacedTurn(s: GameState, pieceType: PieceType, place: Coord)
    ensures var p := Advanced(Placed(s, pieceType, place));
      && p.startingPlayer == s.startingPlayer
      && p.currentPlayer == Opponent(s.currentPlayer)
      && p.turnNumber == if p.currentPlayer == s.startingPlayer then s.turnNumber + 1 else s.turnNumber
  {
  }

  /** The counting part of PlacedCounts, stated on any state p that
      follows s as a placement does: one more piece, the turn handed over,
      the round moved on when it is back with the starting player, no
      butterfly record lost, and the mover's butterfly down by round 4. */
  lemma CountsKept(s: GameState, p: GameState)
    requires 1 <= s.turnNumber <= NumTurns
    requires |s.board| == MovesBy(s, Blue) + MovesBy(s, Red)
    requires MovesBy(s, Blue) >= DeadlineTurn ==> s.blueButterflyLoc.Some?
    requires MovesBy(s, Red) >= DeadlineTurn ==> s.redButterflyLoc.Some?
    requires p.startingPlayer == s.startingPlayer && p.currentPlayer == Opponent(s.currentPlayer)
    requires p.turnNumber == if p.currentPlayer == s.startingPlayer then s.turnNumber + 1 else s.turnNumber
    requires |p.board| == |s.board| + 1
    requires ButterflyOf(s, s.currentPlayer).Some? ==> ButterflyOf(p, s.currentPlayer).Some?
    requires ButterflyOf(p, Opponent(s.currentPlayer)) == ButterflyOf(s, Opponent(s.currentPlayer))
    requires s.turnNumber >= DeadlineTurn ==> ButterflyOf(p, s.currentPlayer).Some?
    ensures 1 <= p.turnNumber <= NumTurns + 1
    ensures p.turnNumber == NumTurns + 1 ==> p.currentPlayer == p.startingPlayer
    ensures |p.board| == MovesBy(p, Blue) + MovesBy(p, Red)
    ensures MovesBy(p, Blue) >= DeadlineTurn ==> p.blueButterflyLoc.Some?
    ensures MovesBy(p, Red) >= DeadlineTurn ==> p.redButterflyLoc.Some?
    ensures MovesBy(p, s.currentPlayer) == MovesBy(s, s.currentPlayer) + 1
    ensures MovesBy(p, Opponent(s.currentPlayer)) == MovesBy(s, Opponent(s.currentPlayer))
  {
    // the mover's count grows by one, the opponent's stays
    assert MovesBy(s, s.currentPlayer) == s.turnNumber - 1;
  }

  /** An accepted move keeps the butterfly records exact. */
  lemma AcceptedMoveButterflies(s: GameState, m: Move)
    requires Invariant(s)
    requires Step(s, m).0.Success?
    ensures ButterfliesRecorded(Step(s, m).1)
  {
    AcceptedStep(s, m);
    TargetFree(s, m);
    assert PieceError(s, m.pieceType) == None;
    PlacedButterflies(s, m.pieceType, m.to);
    var p := Advanced(Placed(s, m.pieceType, m.to));
    assert Step(s, m).1.board == p.board;
  }

  lemma PlacedButterflies(s: GameState, pieceType: PieceType, place: Coord)
    requires ButterfliesRecorded(s)
    requires place !in s.board
    requires PieceError(s, pieceType) == None
    ensures ButterfliesRecorded(Advanced(Placed(s, pieceType, place)))
  {
    PlacedRecords(s, pieceType, place);
    RecordsKept(s, Advanced(Placed(s, pieceType, place)), place);
  }

  /** A placement changes the board by the mover's piece at `place`, and
      changes only the mover's butterfly record, and only to `place`. */
  lemma PlacedRecords(s: GameState, pieceType: PieceType, place: Coord)
    ensures var p := Advanced(Placed(s, pieceType, place));
      && p.board == s.board[place := Piece(s.currentPlayer, pieceType)]
      && ButterflyOf(p, s.currentPlayer) ==
           (if pieceType == Butterfly then Some(place) else ButterflyOf(s, s.currentPlayer))
      && ButterflyOf(p, Opponent(s.currentPlayer)) == ButterflyOf(s, Opponent(s.currentPlayer))
  {
  }

  /** ButterfliesRecorded after a placement at a free cell, stated on any
      state whose board and records change as a placement changes them. */
  lemma RecordsKept(s: GameState, p: GameState, place: Coord)
    requires ButterfliesRecorded(s)
    requires place !in s.board && place in p.board
    requires p.board == s.board[place := Piece(s.currentPlayer, p.board[place].pieceType)]
    requires ButterflyOf(p, s.currentPlayer) ==
      if p.board[place].pieceType == Butterfly then Some(place) else ButterflyOf(s, s.currentPlayer)
    requires ButterflyOf(p, Opponent(s.currentPlayer)) == ButterflyOf(s, Opponent(s.currentPlayer))
    requires p.board[place].pieceType == Butterfly ==> ButterflyOf(s, s.currentPlayer).None?
    ensures ButterfliesRecorded(p)
  {
    forall c | c in p.board && p.board[c].pieceType == Butterfly
      ensures ButterflyOf(p, p.board[c].color) == Some(c)
    {
      if c != place {
        assert s.board[c] == p.board[c];
      }
    }
  }

  /** Every move keeps the invariant of reachable states. */
  lemma StepInvariant(s: GameState, m: Move)
    requires Invariant(s)
    ensures Invariant(Step(s, m).1)
  {
    var t := Step(s, m).1;
    if Step(s, m).0.Success? {
      AcceptedMoveEffect(s, m);
      AcceptedMoveCounts(s, m);
      AcceptedMoveButterflies(s, m);
      assert Origin in t.board by {
        if !IsFirstMove(s) {
          assert s.board != map[];
        }
      }
      assert t.gameOver == (Outcome(t) != Ok);
    }
  }

  /** The board never holds more than two pieces per round. */
  lemma BoardBounded(s: GameState)
    requires Invariant(s)
    ensures |s.board| <= 2 * NumTurns
  {
  }

  /** Over any run from a reachable state: the invariant holds at the end,
      no cell is vacated or overwritten, the board grows by exactly the
      number of accepted moves, and recorded butterflies stay put. */
  lemma {:induction false} RunInvariant(s: GameState, moves: seq<Move>)
    requires Invariant(s)
    ensures Invariant(Run(s, moves))
    ensures Extends(s.board, Run(s, moves).board)
    ensures |Run(s, moves).board| == |s.board| + Successes(s, moves)
    ensures s.blueButterflyLoc.Some? ==> Run(s, moves).blueButterflyLoc == s.blueButterflyLoc
    ensures s.redButterflyLoc.Some? ==> Run(s, moves).redButterflyLoc == s.redButterflyLoc
    decreases |moves|
  {
    if moves != [] {
      var t := Step(s, moves[0]).1;
      StepInvariant(s, moves[0]);
      ButterflyNeverMoves(s, moves[0], Blue);
      ButterflyNeverMoves(s, moves[0], Red);
      if Step(s, moves[0]).0.Success? {
        AcceptedMoveEffect(s, moves[0]);
      } else {
        RefusedMoveChangesNothing(s, moves[0]);
      }
      RunInvariant(t, moves[1..]);
    }
  }

  /** A game started by either player: after any sequence of moves the
      board holds one piece per accepted move. */
  lemma GameInvariant(movesFirst: Color, moves: seq<Move>)
    ensures Invariant(Run(Init(movesFirst), moves))
    ensures |Run(Init(movesFirst), moves).board| == Successes(Init(movesFirst), moves)
  {
    InitInvariant(movesFirst);
    RunInvariant(Init(movesFirst), moves);
  }

  /** A finished game is frozen: every later move is refused and nothing changes. */
  lemma {:induction false} FinishedGameFrozen(s: GameState, moves: seq<Move>)
    requires s.gameOver
    ensures Run(s, moves) == s
    ensures Successes(s, moves) == 0
    decreases |moves|
  {
    if moves != [] {
      FinishedGameFrozen(s, moves[1..]);
    }
  }
}
