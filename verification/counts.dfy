/**
 Per-colour piece counts. The round counter and whose turn it is tell how
 many moves each player has made (`GammaRules.MovesBy`); this module
 proves that, in every reachable state, that number is exactly the count
 of the player's pieces on the board. With the butterfly deadline of
 `GammaRules.Invariant`, a player with four pieces on the board has
 placed its butterfly.
 */
module GammaCounts {
  import opened HantoCommon
  import opened Hex
  import opened GammaRules

  /** The cells holding player p's pieces. */
  function PiecesOf(board: map<Coord, Piece>, p: Color): set<Coord> {
    set c | c in board && board[c].color == p
  }

  /** Each player's pieces on the board number its moves so far. */
  ghost predicate ColourCounts(s: GameState) {
    && |PiecesOf(s.board, Blue)| == MovesBy(s, Blue)
    && |PiecesOf(s.board, Red)| == MovesBy(s, Red)
  }

  /** Placing a piece of colour `mover` on a free cell adds that cell to
      the mover's pieces and leaves the other colour's pieces alone. */
  lemma PlacedPieces(board: map<Coord, Piece>, mover: Color, pieceType: PieceType, place: Coord)
    requires place !in board
    ensures var b := board[place := Piece(mover, pieceType)];
      && PiecesOf(b, mover) == PiecesOf(board, mover) + {place}
      && |PiecesOf(b, mover)| == |PiecesOf(board, mover)| + 1
      && PiecesOf(b, Opponent(mover)) == PiecesOf(board, Opponent(mover))
  {
    var b := board[place := Piece(mover, pieceType)];
    var mine, theirs := PiecesOf(b, mover), PiecesOf(b, Opponent(mover));
    forall c ensures c in mine <==> c in PiecesOf(board, mover) + {place} {
      if c != place {
        assert c in b <==> c in board;
      }
    }
    assert mine == PiecesOf(board, mover) + {place};
    forall c ensures c in theirs <==> c in PiecesOf(board, Opponent(mover)) {
      if c != place {
        assert c in b <==> c in board;
      }
    }
  }


  /** Every move keeps each player's piece count equal to its moves. */
  lemma StepColourCounts(s: GameState, m: Move)
    requires Invariant(s) && ColourCounts(s)
    ensures ColourCounts(Step(s, m).1)
  {
    if Step(s, m).0.Success? {
      AcceptedMoveEffect(s, m);
      PlacedPieces(s.board, s.currentPlayer, m.pieceType, m.to);
    }
  }

  lemma {:induction false} RunColourCounts(s: GameState, moves: seq<Move>)
    requires Invariant(s) && ColourCounts(s)
    ensures ColourCounts(Run(s, moves))
    decreases |moves|
  {
    if moves != [] {
      StepInvariant(s, moves[0]);
      StepColourCounts(s, moves[0]);
      RunColourCounts(Step(s, moves[0]).1, moves[1..]);
    }
  }

  /** In a game started by either colour, after any sequence of calls each
      player's pieces on the board number its moves, and a player with
      four or more pieces there has placed its butterfly. */
  lemma GameColourCounts(movesFirst: Color, moves: seq<Move>, p: Color)
    ensures var t := Run(Init(movesFirst), moves);
      && |PiecesOf(t.board, p)| == MovesBy(t, p)
      && (|PiecesOf(t.board, p)| >= DeadlineTurn ==> ButterflyOf(t, p).Some?)
  {
    InitInvariant(movesFirst);
    assert PiecesOf(Init(movesFirst).board, Blue) == {};
    assert PiecesOf(Init(movesFirst).board, Red) == {};
    RunColourCounts(Init(movesFirst), moves);
    GameInvariant(movesFirst, moves);
  }
}
