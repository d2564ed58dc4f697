/** The ways the move generator aborts.  A Rust `panic!`, a failed `unwrap`, an
    out-of-range index or an overflowing shift becomes one of these errors wherever a
    caller cannot rule it out; the model then makes no change and returns it. */
module Panics {

  datatype Panic =
    | IndexOutOfRange       // a table or square index of 64 or more
    | ShiftOverflow         // `1 << n` with `n` of 64 or more
    | EmptySquare           // a piece was expected on a square that is empty
    | SameColorCapture      // `move_piece` onto a piece of the mover's own colour
    | SquareOccupied        // en passant or promotion onto an occupied square, or `add` onto one
    | NotPromotable         // promotion to a pawn or a king
    | DeadAttacker          // check detection found a captured piece still on a square
    | NoKing                // check detection found no king of the colour
    | OffBoard              // a pawn whose step forward would leave the board
    | BadPlacement          // an unknown character in the placement field of a FEN record
    | BadColor              // active colour other than `w` or `b`
    | BadCastling           // a character other than `KQkq-` in the castling field
    | BadEnPassant          // an en passant field that is not `-` or a square name
    | BadClock              // a move clock that is not an unsigned number
}
