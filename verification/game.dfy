/**
 GammaHantoGame: the rules engine as an object whose fields change in
 place. `MakeMove` is the only operation that changes the game; it is
 proved to do what `GammaRules.Step` says, and to keep the invariant of
 reachable states. The private helpers of the engine are methods of
 their own, each proved against the rule function it implements.
 */
module Gamma {
  import opened HantoCommon
  import opened Hex
  import opened GammaRules

  class GammaHantoGame {
    const startingPlayer: Color
    var currentPlayer: Color
    var turnNumber: int
    var blueButterflyLoc: Option<Coord>
    var redButterflyLoc: Option<Coord>
    var gameOver: bool
    var board: map<Coord, Piece>

    /** The whole game as a value. */
    function State(): GameState
      reads this
    {
      GameState(startingPlayer, currentPlayer, turnNumber, blueButterflyLoc,
                redButterflyLoc, gameOver, board)
    }

    ghost predicate Valid()
      reads this
    {
      Invariant(State())
    }

    /** A new game: round 1, an empty board, the first mover to play, no
        butterflies placed, not over. */
    constructor (movesFirst: Color)
      ensures Valid()
      ensures State() == Init(movesFirst)
      ensures startingPlayer == movesFirst && currentPlayer == movesFirst
      ensures turnNumber == 1 && board == map[] && !gameOver
      ensures blueButterflyLoc == None && redButterflyLoc == None
    {
      startingPlayer := movesFirst;
      currentPlayer := movesFirst;
      turnNumber := 1;
      blueButterflyLoc, redButterflyLoc := None, None;
      gameOver := false;
      board := map[];
      new;
      InitInvariant(movesFirst);
    }

    /** Place a piece of kind `pieceType` at `to` for the player whose turn
        it is. A `from` coordinate is always refused. Every check comes
        before any change, so a refused move leaves the game as it was. */
    method MakeMove(pieceType: PieceType, from: Option<Coord>, to: Coord) returns (r: Result<MoveResult>)
      requires Valid()
      modifies this
      ensures Valid()
      ensures (r, State()) == Step(old(State()), Move(pieceType, from, to))
      ensures r.Failure? ==> State() == old(State())
      ensures old(gameOver) ==> r == Failure(GameFinished)
    {
      ghost var s, m := State(), Move(pieceType, from, to);
      if gameOver {
        return Failure(GameFinished);
      }
      if from.Some? {
        return Failure(PieceMovement);
      }
      var pieceError := CheckValidPiece(pieceType);
      if pieceError.Some? {
        return Failure(pieceError.value);
      }
      var placeError := CheckValidLocation(to);
      if placeError.Some? {
        assert MoveError(s, m) == placeError;
        return Failure(placeError.value);
      }
      assert MoveError(s, m) == None;
      PlacePiece(pieceType, to);
      if currentPlayer == startingPlayer {
        // next round
        turnNumber := turnNumber + 1;
      }
      ghost var p := State();
      assert p == Advanced(Placed(s, pieceType, to));
      var result := CheckEndgameConditions();
      r := Success(result);
      assert (r, State()) == Concluded(p);
      StepInvariant(s, m);
    }

    /** Classify the position after a move; a win or a draw ends the game. */
    method CheckEndgameConditions() returns (r: MoveResult)
      modifies this`gameOver
      ensures r == Outcome(State())
      ensures gameOver == (old(gameOver) || r != Ok)
    {
      var blueSurr := IsSurrounded(blueButterflyLoc);
      var redSurr := IsSurrounded(redButterflyLoc);
      if redSurr {
        gameOver := true;
        if blueSurr {
          return Draw;
        } else {
          return BlueWins;
        }
      } else if blueSurr {
        gameOver := true;
        return RedWins;
      }
      if turnNumber > NumTurns {
        gameOver := true;
        return Draw;
      }
      return Ok;
    }

    /** Put the mover's piece on the board, record a butterfly, and pass
        the turn to the other player. */
    method PlacePiece(pieceType: PieceType, place: Coord)
      modifies this`board, this`blueButterflyLoc, this`redButterflyLoc, this`currentPlayer
      ensures State() == Placed(old(State()), pieceType, place)
    {
      board := board[place := Piece(currentPlayer, pieceType)];
      if currentPlayer == Blue {
        if pieceType == Butterfly {
          blueButterflyLoc := Some(place);
        }
        currentPlayer := Red;
      } else {
        if pieceType == Butterfly {
          redButterflyLoc := Some(place);
        }
        currentPlayer := Blue;
      }
    }

    /** Walk the board's keys, counting those adjacent to `loc`: a butterfly
        is surrounded when the count is six, that is, when all six cells
        around it are occupied. An absent butterfly is not surrounded. */
    method IsSurrounded(loc: Option<Coord>) returns (surrounded: bool)
      ensures surrounded == Surrounded(board, loc)
      ensures surrounded <==> loc.Some? && Neighbours(loc.value) <= board.Keys
    {
      SurroundedIsEncircled(board, loc);
      if loc.None? {
        return false;
      }
      var c := loc.value;
      var numberOfAdjacencies := 0;
      var rest := board.Keys;
      ghost var seen: set<Coord> := {};
      while rest != {}
        invariant rest + seen == board.Keys && rest !! seen
        invariant numberOfAdjacencies == |AdjacentKeys(seen, c)|
        decreases |rest|
      {
        var hex :| hex in rest;
        if IsAdjacentTo(c, hex) {
          numberOfAdjacencies := numberOfAdjacencies + 1;
        }
        AdjacentKeysAdd(seen, hex, c);
        rest := rest - {hex};
        seen := seen + {hex};
      }
      surrounded := numberOfAdjacencies == 6;
    }

    /** The piece kind must be a butterfly or a sparrow; the mover may
        place one butterfly only, and from round 4 on a mover without a
        butterfly may place nothing else. */
    method CheckValidPiece(pieceType: PieceType) returns (err: Option<HantoError>)
      ensures err == PieceError(State(), pieceType)
      ensures err.None? <==>
        && (pieceType == Butterfly || pieceType == Sparrow)
        && (pieceType == Butterfly ==> ButterflyOf(State(), currentPlayer).None?)
        && (turnNumber >= DeadlineTurn && pieceType != Butterfly ==> ButterflyOf(State(), currentPlayer).Some?)
    {
      if pieceType != Butterfly && pieceType != Sparrow {
        return Some(UnsupportedPiece);
      }
      var loc := if currentPlayer == Blue then blueButterflyLoc else redButterflyLoc;
      if pieceType == Butterfly && loc.Some? {
        return Some(SecondButterfly);
      }
      if turnNumber >= DeadlineTurn && pieceType != Butterfly && loc.None? {
        return Some(ButterflyDeadline);
      }
      return None;
    }

    /** The game's first piece must go to the origin; any later piece to a
        free cell next to an occupied one, found by walking the board. */
    method CheckValidLocation(place: Coord) returns (err: Option<HantoError>)
      ensures err == LocationError(State(), place)
      ensures err.None? <==>
        if currentPlayer == startingPlayer && turnNumber == 1 then place == Origin
        else place !in board && exists pos :: pos in board && IsAdjacentTo(place, pos)
    {
      LocationAccepted(State(), place);
      if currentPlayer == startingPlayer && turnNumber == 1 {
        if place.x != 0 || place.y != 0 {
          return Some(FirstMoveOffOrigin);
        }
        return None;
      }
      if place in board {
        return Some(OccupiedTarget);
      }
      var rest := board.Keys;
      while rest != {}
        invariant rest <= board.Keys
        invariant AdjacentKeys(board.Keys - rest, place) == {}
        decreases |rest|
      {
        var pos :| pos in rest;
        if IsAdjacentTo(place, pos) {
          assert pos in AdjacentKeys(board.Keys, place);
          return None;
        }
        rest := rest - {pos};
      }
      assert board.Keys - rest == board.Keys;
      return Some(NoAdjacentPiece);
    }

    /** The piece at `where`, if any. */
    function GetPieceAt(where: Coord): (p: Option<Piece>)
      reads this
      ensures p.Some? <==> where in board
      ensures p.Some? ==> board[where] == p.value
    {
      if where in board then Some(board[where]) else None
    }
  }
}
