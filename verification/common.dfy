/**
 The small closed vocabularies the Gamma Hanto rules engine works with:
 player colours, piece kinds, placed pieces, move results and the reasons
 a move is refused. The engine reports a refusal by throwing an exception
 with a message; here every refusal is a tag of HantoError, returned in
 the Failure case of Result.
 */
module HantoCommon {

  datatype Option<+T> = None | Some(value: T)

  datatype Color = Blue | Red

  /** Hanto knows more kinds of piece than this variant accepts;
      only Butterfly and Sparrow may be placed in Gamma Hanto. */
  datatype PieceType = Butterfly | Crab | Crane | Dove | Horse | Sparrow

  /** A placed piece: its owner and its kind. */
  datatype Piece = Piece(color: Color, pieceType: PieceType)

  datatype MoveResult = Ok | BlueWins | RedWins | Draw

  datatype HantoError =
    | GameFinished         // a move after the game ended
    | PieceMovement        // a `from` coordinate was given: pieces are only placed
    | UnsupportedPiece     // neither a butterfly nor a sparrow
    | SecondButterfly      // the mover has already placed its butterfly
    | ButterflyDeadline    // from round 4 on, a mover without a butterfly must place it
    | FirstMoveOffOrigin   // the game's first piece must go to (0, 0)
    | OccupiedTarget       // the target already holds a piece
    | NoAdjacentPiece      // the target touches no placed piece

  datatype Result<+T> = Success(value: T) | Failure(error: HantoError)

  function Opponent(c: Color): (o: Color)
    ensures o != c
  {
    if c == Blue then Red else Blue
  }
}
