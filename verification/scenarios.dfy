/**
 Concrete openings and single-move situations of Gamma Hanto, stated
 about `GammaRules.Step`.
 */
module GammaScenarios {
  import opened HantoCommon
  import opened Hex
  import opened GammaRules

  /** Blue opens with its butterfly at the origin, Red answers with its
      butterfly at (1, 0): both moves are accepted, the game goes on, and
      the board holds the two butterflies. */
  lemma ButterflyOpening()
    ensures var (r1, s1) := Step(Init(Blue), Move(Butterfly, None, Origin));
      var (r2, s2) := Step(s1, Move(Butterfly, None, Coord(1, 0)));
      && r1 == Success(Ok) && r2 == Success(Ok)
      && s2.board == map[Origin := Piece(Blue, Butterfly), Coord(1, 0) := Piece(Red, Butterfly)]
      && |s2.board| == 2
      && s2.turnNumber == 2 && s2.currentPlayer == Blue && !s2.gameOver
  {
    var (r1, s1) := Step(Init(Blue), Move(Butterfly, None, Origin));
    assert MoveError(Init(Blue), Move(Butterfly, None, Origin)) == None;
    var p1 := Advanced(Placed(Init(Blue), Butterfly, Origin));
    assert Coord(0, 1) !in p1.board;
    OutcomeClassified(p1);
    assert r1 == Success(Ok);
    assert s1 == p1;
    assert Coord(1, 0) in Neighbours(Origin);
    LocationAccepted(s1, Coord(1, 0));
    assert MoveError(s1, Move(Butterfly, None, Coord(1, 0))) == None;
    var p2 := Advanced(Placed(s1, Butterfly, Coord(1, 0)));
    assert Coord(0, 1) !in p2.board && Coord(1, 1) !in p2.board;
    OutcomeClassified(p2);
    assert p2.board == map[Origin := Piece(Blue, Butterfly), Coord(1, 0) := Piece(Red, Butterfly)];
  }

  /** The opening piece anywhere but the origin is refused, whatever its kind. */
  lemma OpeningOffOrigin(movesFirst: Color, pieceType: PieceType, to: Coord)
    requires to != Origin
    requires pieceType == Butterfly || pieceType == Sparrow
    ensures Step(Init(movesFirst), Move(pieceType, None, to)) == (Failure(FirstMoveOffOrigin), Init(movesFirst))
  {
  }

  /** From round 4 on, a mover whose butterfly is not placed cannot place a sparrow. */
  lemma SparrowAfterDeadline(s: GameState, to: Coord)
    requires !s.gameOver && s.turnNumber >= DeadlineTurn
    requires ButterflyOf(s, s.currentPlayer).None?
    ensures Step(s, Move(Sparrow, None, to)) == (Failure(ButterflyDeadline), s)
  {
  }

  /** Once the opening piece is down, a target with no occupied neighbour
      is refused for any kind; the reason is the missing neighbour when the
      kind is acceptable and the target itself is free. */
  lemma IsolatedTarget(s: GameState, m: Move)
    requires !IsFirstMove(s)
    requires Neighbours(m.to) * s.board.Keys == {}
    ensures Step(s, m).0.Failure?
    ensures !s.gameOver && m.from.None? && PieceError(s, m.pieceType).None? && m.to !in s.board ==>
      Step(s, m).0 == Failure(NoAdjacentPiece)
  {
    AcceptedMoves(s, m);
    if m.to !in s.board {
      assert AdjacentKeys(s.board.Keys, m.to) == {} by {
        assert AdjacentKeys(s.board.Keys, m.to) <= Neighbours(m.to) * s.board.Keys;
      }
    }
  }

  /** The end of every accepted move (see `AcceptedStep`): a position in
      which only Red's butterfly is ringed is a win for Blue and ends the
      game, and symmetrically for Red; a position past round 6 with no
      ring is a draw and ends the game. */
  lemma DecidingMove(p: GameState)
    ensures var (r, t) := Concluded(p);
      && (Encircled(p.board, p.redButterflyLoc) && !Encircled(p.board, p.blueButterflyLoc) ==>
            r == Success(BlueWins) && t.gameOver)
      && (Encircled(p.board, p.blueButterflyLoc) && !Encircled(p.board, p.redButterflyLoc) ==>
            r == Success(RedWins) && t.gameOver)
      && ((!Encircled(p.board, p.redButterflyLoc) && !Encircled(p.board, p.blueButterflyLoc)
           && p.turnNumber > NumTurns) ==> r == Success(Draw) && t.gameOver)
  {
    OutcomeClassified(p);
  }

  // ---------------------------------------------------------------------
  // A whole game: Blue's butterfly at the origin, then the six cells
  // around it filled in turn, Blue placing the last one.

  /** The cell of the i-th move: the origin, then its six neighbours. */
  function RingCell(i: nat): Coord {
    match i
    case 0 => Origin
    case 1 => Coord(1, 0)
    case 2 => Coord(-1, 0)
    case 3 => Coord(0, 1)
    case 4 => Coord(0, -1)
    case 5 => Coord(1, -1)
    case _ => Coord(-1, 1)
  }

  /** The i-th move: Blue's butterfly first, sparrows after it. */
  function RingMove(i: nat): Move {
    Move(if i == 0 then Butterfly else Sparrow, None, RingCell(i))
  }

  /** The board after the first k moves; Blue makes the even-numbered ones. */
  function RingBoard(k: nat): map<Coord, Piece> {
    match k
    case 0 => map[]
    case 1 => map[Origin := Piece(Blue, Butterfly)]
    case 2 => map[Origin := Piece(Blue, Butterfly), Coord(1, 0) := Piece(Red, Sparrow)]
    case 3 => map[Origin := Piece(Blue, Butterfly), Coord(1, 0) := Piece(Red, Sparrow), Coord(-1, 0) := Piece(Blue, Sparrow)]
    case 4 => map[Origin := Piece(Blue, Butterfly), Coord(1, 0) := Piece(Red, Sparrow), Coord(-1, 0) := Piece(Blue, Sparrow), Coord(0, 1) := Piece(Red, Sparrow)]
    case 5 => map[Origin := Piece(Blue, Butterfly), Coord(1, 0) := Piece(Red, Sparrow), Coord(-1, 0) := Piece(Blue, Sparrow), Coord(0, 1) := Piece(Red, Sparrow), Coord(0, -1) := Piece(Blue, Sparrow)]
    case 6 => map[Origin := Piece(Blue, Butterfly), Coord(1, 0) := Piece(Red, Sparrow), Coord(-1, 0) := Piece(Blue, Sparrow), Coord(0, 1) := Piece(Red, Sparrow), Coord(0, -1) := Piece(Blue, Sparrow), Coord(1, -1) := Piece(Red, Sparrow)]
    case _ => map[Origin := Piece(Blue, Butterfly), Coord(1, 0) := Piece(Red, Sparrow), Coord(-1, 0) := Piece(Blue, Sparrow), Coord(0, 1) := Piece(Red, Sparrow), Coord(0, -1) := Piece(Blue, Sparrow), Coord(1, -1) := Piece(Red, Sparrow), Coord(-1, 1) := Piece(Blue, Sparrow)]
  }

  /** The game after the first k moves: the game is over after the seventh. */
  function RingState(k: nat): GameState {
    GameState(Blue, if k % 2 == 0 then Blue else Red, 1 + k / 2,
              if k == 0 then None else Some(Origin), None, k == 7, RingBoard(k))
  }

  /** The moves from the k-th on. */
  function RingMoves(k: nat): seq<Move>
    decreases 7 - k
  {
    if k >= 7 then [] else [RingMove(k)] + RingMoves(k + 1)
  }

  /** An acceptable move that leaves `gap` beside Blue's butterfly free,
      Red's butterfly unplaced and the round within 6: accepted with `Ok`. */
  lemma QuietMove(s: GameState, m: Move, gap: Coord)
    requires MoveError(s, m) == None
    requires var p := Advanced(Placed(s, m.pieceType, m.to));
      && p.turnNumber <= NumTurns && p.redButterflyLoc == None
      && p.blueButterflyLoc.Some? && IsAdjacentTo(p.blueButterflyLoc.value, gap) && gap !in p.board
    ensures Step(s, m) == (Success(Ok), Advanced(Placed(s, m.pieceType, m.to)))
  {
    var p := Advanced(Placed(s, m.pieceType, m.to));
    assert gap in Neighbours(p.blueButterflyLoc.value);
    OutcomeClassified(p);
  }

  /** An acceptable move that fills the last free cell around Blue's
      butterfly while Red's is unplaced: a win for Red, and the game ends. */
  lemma RingingMove(s: GameState, m: Move)
    requires MoveError(s, m) == None
    requires var p := Advanced(Placed(s, m.pieceType, m.to));
      && p.redButterflyLoc == None
      && p.blueButterflyLoc.Some? && Neighbours(p.blueButterflyLoc.value) <= p.board.Keys
    ensures Step(s, m) ==
      (Success(RedWins), Advanced(Placed(s, m.pieceType, m.to)).(gameOver := true))
  {
    OutcomeClassified(Advanced(Placed(s, m.pieceType, m.to)));
  }

  /** A placement passes every check when the game is on, the kind is
      allowed, and the target is the origin on the opening move or, later,
      a free cell next to the occupied cell `neighbour`. */
  lemma Acceptable(s: GameState, m: Move, neighbour: Coord)
    requires !s.gameOver && m.from.None? && PieceError(s, m.pieceType) == None
    requires if IsFirstMove(s) then m.to == Origin
             else m.to !in s.board && neighbour in s.board && IsAdjacentTo(m.to, neighbour)
    ensures MoveError(s, m) == None
  {
    if !IsFirstMove(s) {
      assert neighbour in AdjacentKeys(s.board.Keys, m.to);
    }
  }

  /** The k-th move of the game, for k below 6, passes every check in the
      form `Acceptable` asks, and the placement it makes yields the next
      state of the game, leaving (-1, 1) beside Blue's butterfly free. */
  lemma RingFacts(k: nat)
    requires k < 6
    ensures var s := RingState(k);
      && !s.gameOver && PieceError(s, RingMove(k).pieceType) == None
      && (if IsFirstMove(s) then RingCell(k) == Origin
          else RingCell(k) !in s.board && Origin in s.board && IsAdjacentTo(RingCell(k), Origin))
    ensures var p := Advanced(Placed(RingState(k), RingMove(k).pieceType, RingCell(k)));
      && p == RingState(k + 1) && p.turnNumber <= NumTurns
      && p.redButterflyLoc == None && p.blueButterflyLoc == Some(Origin)
      && IsAdjacentTo(Origin, Coord(-1, 1)) && Coord(-1, 1) !in p.board
  {
    if k == 0 {
    } else if k == 1 {
    } else if k == 2 {
    } else if k == 3 {
    } else if k == 4 {
    } else {
    }
  }

  /** The seventh move passes every check and rings Blue's butterfly. */
  lemma RingLastFacts(k: nat)
    requires k == 6
    ensures var s := RingState(k);
      && !s.gameOver && PieceError(s, RingMove(k).pieceType) == None && !IsFirstMove(s)
      && RingCell(k) !in s.board && Origin in s.board && IsAdjacentTo(RingCell(k), Origin)
    ensures var p := Advanced(Placed(RingState(k), RingMove(k).pieceType, RingCell(k)));
      && p.(gameOver := true) == RingState(k + 1)
      && p.redButterflyLoc == None && p.blueButterflyLoc == Some(Origin)
      && Neighbours(Origin) <= p.board.Keys
  {
  }

  /** Each move of the game, from the state the earlier ones reach: the
      first six are accepted with `Ok`; the seventh fills the last cell
      around Blue's butterfly and wins for Red. */
  lemma RingStep(k: nat)
    requires k < 7
    ensures Step(RingState(k), RingMove(k)) ==
      (Success(if k < 6 then Ok else RedWins), RingState(k + 1))
  {
    if k < 6 {
      RingFacts(k);
      Acceptable(RingState(k), RingMove(k), Origin);
      QuietMove(RingState(k), RingMove(k), Coord(-1, 1));
    } else {
      RingLastFacts(k);
      Acceptable(RingState(k), RingMove(k), Origin);
      RingingMove(RingState(k), RingMove(k));
    }
  }

  /** The whole game, run from a new game (the state after no moves is
      `Init(Blue)`): every move is accepted and the run ends in the state
      after the seventh, where the game is over, won by Red (see
      `RingStep`) although Red never placed a butterfly. */
  lemma {:induction false} RingGame(k: nat)
    requires k <= 7
    ensures Run(RingState(k), RingMoves(k)) == RingState(7)
    ensures Successes(RingState(k), RingMoves(k)) == 7 - k
    ensures RingState(0) == Init(Blue)
    ensures RingState(7).gameOver && RingState(7).redButterflyLoc == None
    decreases 7 - k
  {
    if k < 7 {
      var moves := RingMoves(k);
      assert moves[0] == RingMove(k) && moves[1..] == RingMoves(k + 1);
      RingStep(k);
      RingGame(k + 1);
    }
  }
}
