/** The board vocabulary the engine needs from the chess rules: pieces, an
    8x8 board indexed as square = 8 * rank + file, and the rule functions a
    position offers to the search. */
module Chess {
  datatype Option<+T> = None | Some(value: T)

  datatype Color = White | Black

  datatype Kind = Pawn | Knight | Bishop | Rook | Queen | King

  datatype Piece = Piece(color: Color, kind: Kind)

  /** A board: square 8 * rank + file holds at most one piece. */
  type Board = b: seq<Option<Piece>> | |b| == 64 witness seq(64, _ => None)

  function Other(c: Color): Color
  {
    if c == White then Black else White
  }

  function Square(file: nat, rank: nat): (sq: nat)
    requires file < 8 && rank < 8
    ensures sq < 64 && sq % 8 == file && sq / 8 == rank
  {
    8 * rank + file
  }

  predicate IsPawnOf(x: Option<Piece>, c: Color)
  {
    x.Some? && x.value.kind == Pawn && x.value.color == c
  }

  /** No pawn stands on the first or the last rank, as in every legal position. */
  ghost predicate PawnsInside(b: Board)
  {
    forall sq :: 0 <= sq < 64 && (sq < 8 || 56 <= sq) ==> b[sq].None? || b[sq].value.kind != Pawn
  }

  /** The square on the same file seen from the other side of the board. */
  function MirrorSquare(sq: nat): (m: nat)
    requires sq < 64
    ensures m < 64
  {
    8 * (7 - sq / 8) + sq % 8
  }

  function FlipColor(x: Option<Piece>): Option<Piece>
  {
    if x.Some? then Some(Piece(Other(x.value.color), x.value.kind)) else None
  }

  /** The board flipped top to bottom with the colours of all pieces swapped. */
  function Mirror(b: Board): (m: Board)
    ensures forall sq :: 0 <= sq < 64 ==> m[sq] == FlipColor(b[MirrorSquare(sq)])
  {
    seq(64, sq requires 0 <= sq < 64 => FlipColor(b[MirrorSquare(sq)]))
  }

  /** Rank r, file f is mirrored to rank 7 - r, file f. */
  lemma MirrorSquareAt(file: nat, rank: nat)
    requires file < 8 && rank < 8
    ensures MirrorSquare(8 * rank + file) == 8 * (7 - rank) + file
  {
  }

  lemma MirrorAt(b: Board, file: nat, rank: nat)
    requires file < 8 && rank < 8
    ensures Mirror(b)[8 * rank + file] == FlipColor(b[8 * (7 - rank) + file])
  {
    MirrorSquareAt(file, rank);
  }

  /** The rules of chess as seen by the search: legal-move enumeration, move
      application on a private copy, the game-over and checkmate tests, the
      position's serialisation used as a cache key, its pieces, the side to
      move and the number of moves played so far. */
  datatype Rules<!P, !M> = Rules(
    moves: P -> seq<M>,
    apply: (P, M) -> P,
    gameOver: P -> bool,
    key: P -> string,
    board: P -> Board,
    checkmate: P -> bool,
    whiteToMove: P -> bool,
    plies: P -> nat)

  /** A checkmated position is a finished game: checkmate is one of the ways
      the game-over test holds. */
  ghost predicate MateEndsGame<P(!new), M>(r: Rules<P, M>)
  {
    forall p :: r.checkmate(p) ==> r.gameOver(p)
  }

  /** Every position has its pawns on ranks 2 to 7. */
  ghost predicate WellFormed<P(!new), M>(r: Rules<P, M>)
  {
    forall p :: PawnsInside(r.board(p))
  }
}
