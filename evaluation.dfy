/** The static evaluator: material, pawn structure and (dead) piece-square
    terms of a board, positive when White stands better. */
module Evaluation {
  import opened Chess
  import opened Scores
  import opened SquareTests

  // ---------------------------------------------------------------------------
  // Reference definitions

  /** Number of pieces of colour c and kind k on the board. */
  function PieceCount(b: Board, c: Color, k: Kind): nat
  {
    CountAll(b, Holds(Piece(c, k)))
  }

  /** Number of pawns of colour c on file f. */
  function PawnsOnFile(b: Board, c: Color, f: nat): nat
    requires f < 8
  {
    PawnsOnFileBelow(b, c, f, 8)
  }

  /** Number of pawns of colour c on file f below rank n. */
  function PawnsOnFileBelow(b: Board, c: Color, f: nat, n: nat): nat
    requires f < 8 && n <= 8
  {
    if n == 0 then 0 else PawnsOnFileBelow(b, c, f, n - 1) + PawnAt(b, c, f, n - 1)
  }

  function PawnAt(b: Board, c: Color, f: nat, r: nat): nat
    requires f < 8 && r < 8
  {
    if IsPawnOf(b[Square(f, r)], c) then 1 else 0
  }

  /** Pawns on one file beyond the first. */
  function Excess(k: nat): nat
  {
    if k > 1 then k - 1 else 0
  }

  /** Doubled pawns of colour c on the files below n. */
  function DoubledBelow(b: Board, c: Color, n: nat): nat
    requires n <= 8
  {
    if n == 0 then 0 else DoubledBelow(b, c, n - 1) + Excess(PawnsOnFile(b, c, n - 1))
  }

  function Doubled(b: Board, c: Color): nat
  {
    DoubledBelow(b, c, 8)
  }

  function Blocked(b: Board, c: Color): nat
  {
    CountAll(b, BlockedPawn(c))
  }

  function Isolated(b: Board, c: Color): nat
  {
    CountAll(b, IsolatedPawn(c))
  }

  /** The phase label: 'o' is the label chosen under the endgame conditions
      (more than 40 moves played, or little material left), 'e' otherwise. */
  datatype Phase = PhaseO | PhaseE

  /** Material on the 9/5/3/3/1 scale used for the phase. */
  function PhaseMaterial(b: Board, c: Color): nat
  {
    9 * PieceCount(b, c, Queen) + 5 * PieceCount(b, c, Rook) + 3 * PieceCount(b, c, Knight) +
    3 * PieceCount(b, c, Bishop) + PieceCount(b, c, Pawn)
  }

  function PhaseOf(b: Board, plies: nat): Phase
  {
    if plies > 40 || PhaseMaterial(b, White) + PhaseMaterial(b, Black) < 28 then PhaseO else PhaseE
  }

  /** Material on the 900/500/330/320/100 scale, White minus Black. */
  function MaterialBalance(b: Board): int
  {
    900 * (PieceCount(b, White, Queen) - PieceCount(b, Black, Queen)) +
    500 * (PieceCount(b, White, Rook) - PieceCount(b, Black, Rook)) +
    330 * (PieceCount(b, White, Bishop) - PieceCount(b, Black, Bishop)) +
    320 * (PieceCount(b, White, Knight) - PieceCount(b, Black, Knight)) +
    100 * (PieceCount(b, White, Pawn) - PieceCount(b, Black, Pawn))
  }

  /** Pawn-structure weaknesses, White minus Black. */
  function StructureBalance(b: Board): int
  {
    Doubled(b, White) - Doubled(b, Black) + Blocked(b, White) - Blocked(b, Black) +
    Isolated(b, White) - Isolated(b, Black)
  }

  /** The evaluation of a position: the side to move loses when checkmated;
      otherwise material less 30 per unit of pawn-structure weakness. */
  function PositionValue(b: Board, checkmate: bool, whiteToMove: bool): Score
  {
    if checkmate && whiteToMove then NegInf
    else if checkmate then PosInf
    else Fin(MaterialBalance(b) - 30 * StructureBalance(b))
  }

  // ---------------------------------------------------------------------------
  // The evaluator's loops

  /** Colour of the piece on sq, if any. */
  function ColorAt(b: Board, sq: nat): Option<Color>
    requires sq < 64
  {
    if b[sq].Some? then Some(b[sq].value.color) else None
  }

  /** Pawns of each colour on the eight squares of one file. */
  method PawnsOnFileLoop(b: Board, fileIndex: nat) returns (whiteOnFile: int, blackOnFile: int)
    requires fileIndex < 8
    ensures whiteOnFile == PawnsOnFile(b, White, fileIndex) && blackOnFile == PawnsOnFile(b, Black, fileIndex)
  {
    whiteOnFile, blackOnFile := 0, 0;
    for rank := 0 to 8
      invariant whiteOnFile == PawnsOnFileBelow(b, White, fileIndex, rank)
      invariant blackOnFile == PawnsOnFileBelow(b, Black, fileIndex, rank)
    {
      var piece := b[Square(fileIndex, rank)];
      if piece.Some? && piece.value.kind == Pawn {
        if piece.value.color == White {
          whiteOnFile := whiteOnFile + 1;
        } else {
          blackOnFile := blackOnFile + 1;
        }
      }
    }
  }

  /** Doubled pawns per colour: on each file, the pawns beyond the first. */
  method FindDoubledPawns(b: Board) returns (white: int, black: int)
    ensures white == Doubled(b, White) && black == Doubled(b, Black)
  {
    white, black := 0, 0;
    for fileIndex := 0 to 8
      invariant white == DoubledBelow(b, White, fileIndex)
      invariant black == DoubledBelow(b, Black, fileIndex)
    {
      var whiteOnFile, blackOnFile := PawnsOnFileLoop(b, fileIndex);
      if whiteOnFile > 1 {
        white := white + whiteOnFile - 1;
      }
      if blackOnFile > 1 {
        black := black + blackOnFile - 1;
      }
      assert white == DoubledBelow(b, White, fileIndex) + Excess(PawnsOnFile(b, White, fileIndex));
    }
  }

  /** Blocked pawns per colour: the square in front holds a piece of the other
      colour. The square in front is not bounds-checked, so no pawn may stand
      on the first or last rank. */
  method FindBlockedPawns(b: Board) returns (white: int, black: int)
    requires PawnsInside(b)
    ensures white == Blocked(b, White) && black == Blocked(b, Black)
  {
    white, black := 0, 0;
    for sq := 0 to 64
      invariant white == CountIn(b, BlockedPawn(White), 0, sq)
      invariant black == CountIn(b, BlockedPawn(Black), 0, sq)
    {
      var piece := b[sq];
      if piece.Some? && piece.value.kind == Pawn {
        var color := piece.value.color;
        var forward := if color == White then sq + 8 else sq - 8;
        if ColorAt(b, forward) != Some(color) && b[forward].Some? {
          if color == White {
            white := white + 1;
          } else {
            black := black + 1;
          }
        }
      }
    }
  }

  /** Whether the square on file af (if any) of the given rank holds a pawn of colour c. */
  function FriendlyPawnOn(b: Board, af: Option<nat>, rank: nat, c: Color): bool
    requires rank < 8
  {
    af.Some? && af.value < 8 && b[Square(af.value, rank)].Some? &&
    b[Square(af.value, rank)].value.kind == Pawn && ColorAt(b, Square(af.value, rank)) == Some(c)
  }

  /** Isolated pawns per colour: no pawn of the same colour on a neighbouring
      file of the same rank. */
  method FindIsolatedPawns(b: Board) returns (white: int, black: int)
    ensures white == Isolated(b, White) && black == Isolated(b, Black)
  {
    white, black := 0, 0;
    for sq := 0 to 64
      invariant white == CountIn(b, IsolatedPawn(White), 0, sq)
      invariant black == CountIn(b, IsolatedPawn(Black), 0, sq)
    {
      var piece := b[sq];
      if piece.Some? && piece.value.kind == Pawn {
        var color := piece.value.color;
        var fileIdx, rank := sq % 8, sq / 8;
        assert sq == 8 * rank + fileIdx;
        var left: Option<nat>, right: Option<nat>;
        if fileIdx == 0 {
          left, right := None, Some(fileIdx + 1);
        } else if fileIdx == 7 {
          left, right := Some(fileIdx - 1), None;
        } else {
          left, right := Some(fileIdx - 1), Some(fileIdx + 1);
        }
        var adjacentFiles := [left, right];
        var adjacentPawns := 0;
        for j := 0 to 2
          invariant adjacentPawns == (if j > 0 && FriendlyPawnOn(b, left, rank, color) then 1 else 0) +
                                     (if j > 1 && FriendlyPawnOn(b, right, rank, color) then 1 else 0)
        {
          var adjacentFile := adjacentFiles[j];
          if adjacentFile.Some? {
            var adjacentSquare := Square(adjacentFile.value, rank);
            var adjacentPiece := b[adjacentSquare];
            if adjacentPiece.Some? && adjacentPiece.value.kind == Pawn && ColorAt(b, adjacentSquare) == Some(color) {
              adjacentPawns := adjacentPawns + 1;
            }
          }
        }
        if adjacentPawns == 0 {
          if color == White {
            white := white + 1;
          } else {
            black := black + 1;
          }
        }
      }
    }
  }

  /** Python's `piece == chess.PAWN` compares a Piece object with an integer
      piece-type constant; the two are never equal. */
  predicate EqualsTypeConstant(x: Piece, k: Kind)
  {
    false
  }

  /** The piece-square term. Every guard compares a piece with a type
      constant, a comparison that never holds, so no table is consulted.
      The result 0 follows from that definition of `EqualsTypeConstant`
      (always false); the loop only keeps the shape of the source's scan. */
  method GetPieceEvals(b: Board, phase: Phase) returns (score: int)
    ensures score == 0
  {
    score := 0;
    var rank := 8;
    while rank > 0
      invariant 0 <= rank <= 8
    {
      rank := rank - 1;
      for file := 0 to 8 {
        var piece := b[Square(file, rank)];
        if piece.Some? {
          var p := piece.value;
          if EqualsTypeConstant(p, Pawn) || EqualsTypeConstant(p, Knight) || EqualsTypeConstant(p, Bishop) ||
             EqualsTypeConstant(p, Rook) || EqualsTypeConstant(p, Queen) || EqualsTypeConstant(p, King) {
            // the table lookups are unreachable
            assert false;
          }
        }
      }
    }
  }

  /** The material loop of the evaluator: pieces of each colour and kind
      (kings are not counted). */
  method CountMaterial(b: Board) returns (qw: int, qb: int, rw: int, rb: int, bw: int, bb: int, nw: int, nb: int, pw: int, pb: int)
    ensures qw == PieceCount(b, White, Queen) && qb == PieceCount(b, Black, Queen)
    ensures rw == PieceCount(b, White, Rook) && rb == PieceCount(b, Black, Rook)
    ensures bw == PieceCount(b, White, Bishop) && bb == PieceCount(b, Black, Bishop)
    ensures nw == PieceCount(b, White, Knight) && nb == PieceCount(b, Black, Knight)
    ensures pw == PieceCount(b, White, Pawn) && pb == PieceCount(b, Black, Pawn)
  {
    qw, qb, rw, rb, bw, bb, nw, nb, pw, pb := 0, 0, 0, 0, 0, 0, 0, 0, 0, 0;
    for sq := 0 to 64
      invariant qw == CountIn(b, Holds(Piece(White, Queen)), 0, sq) && qb == CountIn(b, Holds(Piece(Black, Queen)), 0, sq)
      invariant rw == CountIn(b, Holds(Piece(White, Rook)), 0, sq) && rb == CountIn(b, Holds(Piece(Black, Rook)), 0, sq)
      invariant bw == CountIn(b, Holds(Piece(White, Bishop)), 0, sq) && bb == CountIn(b, Holds(Piece(Black, Bishop)), 0, sq)
      invariant nw == CountIn(b, Holds(Piece(White, Knight)), 0, sq) && nb == CountIn(b, Holds(Piece(Black, Knight)), 0, sq)
      invariant pw == CountIn(b, Holds(Piece(White, Pawn)), 0, sq) && pb == CountIn(b, Holds(Piece(Black, Pawn)), 0, sq)
    {
      if b[sq].Some? {
        var piece := b[sq].value;
        if piece.color == White {
          if piece.kind == Queen {
            qw := qw + 1;
          } else if piece.kind == Rook {
            rw := rw + 1;
          } else if piece.kind == Bishop {
            bw := bw + 1;
          } else if piece.kind == Knight {
            nw := nw + 1;
          } else if piece.kind == Pawn {
            pw := pw + 1;
          }
        } else {
          if piece.kind == Queen {
            qb := qb + 1;
          } else if piece.kind == Rook {
            rb := rb + 1;
          } else if piece.kind == Bishop {
            bb := bb + 1;
          } else if piece.kind == Knight {
            nb := nb + 1;
          } else if piece.kind == Pawn {
            pb := pb + 1;
          }
        }
      }
    }
  }

  /** Evaluate a position given its board, whether it is checkmate, the side to
      move and the number of moves played. */
  method Evaluate(b: Board, checkmate: bool, whiteToMove: bool, plies: nat) returns (e: Score)
    requires PawnsInside(b)
    ensures e == PositionValue(b, checkmate, whiteToMove)
    ensures checkmate ==> e == (if whiteToMove then NegInf else PosInf)
    ensures !checkmate ==> e.Fin?
  {
    if checkmate && whiteToMove {
      return NegInf;
    } else if checkmate && !whiteToMove {
      return PosInf;
    }
    var qw, qb, rw, rb, bw, bb, nw, nb, pw, pb := CountMaterial(b);
    var whiteMaterial: int := 9 * qw + 5 * rw + 3 * nw + 3 * bw + 1 * pw;
    var blackMaterial: int := 9 * qb + 5 * rb + 3 * nb + 3 * bb + 1 * pb;
    var phase := if plies > 40 || whiteMaterial + blackMaterial < 28 then PhaseO else PhaseE;
    assert phase == PhaseOf(b, plies);
    var dw, db := FindDoubledPawns(b);
    var sw, sb := FindBlockedPawns(b);
    var iw, ib := FindIsolatedPawns(b);
    var eval: int := 900 * (qw - qb) + 500 * (rw - rb) + 330 * (bw - bb) + 320 * (nw - nb) + 100 * (pw - pb) -
                30 * (dw - db + sw - sb + iw - ib);
    var pieceEvals := GetPieceEvals(b, phase);
    eval := eval + pieceEvals;
    e := Fin(eval);
  }

  // ---------------------------------------------------------------------------
  // Colour symmetry: the evaluation of the mirrored position with the other
  // side to move is the negated evaluation.

  lemma PawnsOnFile8(b: Board, c: Color, f: nat)
    requires f < 8
    ensures PawnsOnFile(b, c, f) == PawnAt(b, c, f, 0) + PawnAt(b, c, f, 1) + PawnAt(b, c, f, 2) + PawnAt(b, c, f, 3) +
                                    PawnAt(b, c, f, 4) + PawnAt(b, c, f, 5) + PawnAt(b, c, f, 6) + PawnAt(b, c, f, 7)
  {
    assert PawnsOnFileBelow(b, c, f, 1) == PawnAt(b, c, f, 0);
    assert PawnsOnFileBelow(b, c, f, 2) == PawnsOnFileBelow(b, c, f, 1) + PawnAt(b, c, f, 1);
    assert PawnsOnFileBelow(b, c, f, 3) == PawnsOnFileBelow(b, c, f, 2) + PawnAt(b, c, f, 2);
    assert PawnsOnFileBelow(b, c, f, 4) == PawnsOnFileBelow(b, c, f, 3) + PawnAt(b, c, f, 3);
    assert PawnsOnFileBelow(b, c, f, 5) == PawnsOnFileBelow(b, c, f, 4) + PawnAt(b, c, f, 4);
    assert PawnsOnFileBelow(b, c, f, 6) == PawnsOnFileBelow(b, c, f, 5) + PawnAt(b, c, f, 5);
    assert PawnsOnFileBelow(b, c, f, 7) == PawnsOnFileBelow(b, c, f, 6) + PawnAt(b, c, f, 6);
  }

  /** A file of the mirrored board holds as many pawns of the other colour. */
  lemma PawnsOnFileMirror(b: Board, c: Color, f: nat)
    requires f < 8
    ensures PawnsOnFile(Mirror(b), Other(c), f) == PawnsOnFile(b, c, f)
  {
    forall r | 0 <= r < 8
      ensures PawnAt(Mirror(b), Other(c), f, r) == PawnAt(b, c, f, 7 - r)
    {
      PawnMirrorAt(b, c, f, r);
    }
    PawnsOnFile8(b, c, f);
    PawnsOnFile8(Mirror(b), Other(c), f);
  }

  lemma {:induction false} DoubledMirror(b: Board, c: Color, n: nat)
    requires n <= 8
    ensures DoubledBelow(Mirror(b), Other(c), n) == DoubledBelow(b, c, n)
  {
    if n > 0 {
      DoubledMirror(b, c, n - 1);
      PawnsOnFileMirror(b, c, n - 1);
    }
  }

  lemma PieceCountMirror(b: Board, c: Color, k: Kind)
    ensures PieceCount(Mirror(b), c, k) == PieceCount(b, Other(c), k)
  {
    CountAllMirror(b, Holds(Piece(Other(c), k)));
    assert Other(Other(c)) == c;
  }

  lemma MaterialMirror(b: Board)
    ensures MaterialBalance(Mirror(b)) == -MaterialBalance(b)
  {
    forall c, k
      ensures PieceCount(Mirror(b), c, k) == PieceCount(b, Other(c), k)
    {
      PieceCountMirror(b, c, k);
    }
  }

  lemma StructureMirror(b: Board)
    ensures StructureBalance(Mirror(b)) == -StructureBalance(b)
  {
    DoubledMirror(b, White, 8);
    DoubledMirror(b, Black, 8);
    CountAllMirror(b, BlockedPawn(White));
    CountAllMirror(b, BlockedPawn(Black));
    CountAllMirror(b, IsolatedPawn(White));
    CountAllMirror(b, IsolatedPawn(Black));
  }

  /** Swapping the colours of a position (mirroring the board and handing the
      move to the other side) negates its evaluation. */
  lemma EvaluationMirror(b: Board, checkmate: bool, whiteToMove: bool)
    ensures PositionValue(Mirror(b), checkmate, !whiteToMove) == Neg(PositionValue(b, checkmate, whiteToMove))
  {
    MaterialMirror(b);
    StructureMirror(b);
  }

  // ---------------------------------------------------------------------------
  // Doubled pawns are the pawns beyond the first on each occupied file.

  /** Files below n holding at least one pawn of colour c. */
  function OccupiedBelow(b: Board, c: Color, n: nat): nat
    requires n <= 8
  {
    if n == 0 then 0 else OccupiedBelow(b, c, n - 1) + (if PawnsOnFile(b, c, n - 1) > 0 then 1 else 0)
  }

  /** Pawns of colour c on the files below m and ranks below n. */
  function FilesBelow(b: Board, c: Color, m: nat, n: nat): nat
    requires m <= 8 && n <= 8
  {
    if m == 0 then 0 else FilesBelow(b, c, m - 1, n) + PawnsOnFileBelow(b, c, m - 1, n)
  }

  lemma {:induction false} DoubledOccupied(b: Board, c: Color, n: nat)
    requires n <= 8
    ensures DoubledBelow(b, c, n) + OccupiedBelow(b, c, n) == FilesBelow(b, c, n, 8)
  {
    if n > 0 {
      DoubledOccupied(b, c, n - 1);
    }
  }

  /** Adding rank n to the files below m adds that rank's first m squares. */
  lemma {:induction false} RankStep(b: Board, c: Color, m: nat, n: nat)
    requires m <= 8 && n < 8
    ensures FilesBelow(b, c, m, n + 1) == FilesBelow(b, c, m, n) + CountIn(b, PawnOf(c), 8 * n, m)
  {
    if m > 0 {
      RankStep(b, c, m - 1, n);
      assert Square(m - 1, n) == 8 * n + (m - 1);
    }
  }

  lemma {:induction false} FilesRanks(b: Board, c: Color, n: nat)
    requires n <= 8
    ensures FilesBelow(b, c, 8, n) == CountIn(b, PawnOf(c), 0, 8 * n)
  {
    if n > 0 {
      FilesRanks(b, c, n - 1);
      RankStep(b, c, 8, n - 1);
      CountInSplit(b, PawnOf(c), 0, 8 * (n - 1), 8);
    } else {
      assert FilesBelow(b, c, 8, 0) == 0 by {
        FilesNone(b, c, 8);
      }
    }
  }

  lemma {:induction false} FilesNone(b: Board, c: Color, m: nat)
    requires m <= 8
    ensures FilesBelow(b, c, m, 0) == 0
  {
    if m > 0 {
      FilesNone(b, c, m - 1);
    }
  }

  lemma PawnOfCount(b: Board, c: Color)
    ensures CountAll(b, PawnOf(c)) == PieceCount(b, c, Pawn)
  {
    CountInExt(b, PawnOf(c), 0, b, Holds(Piece(c, Pawn)), 0, 64);
  }

  /** The doubled-pawn count of a colour is its number of pawns less the
      number of files they stand on; in particular it is at most the number of
      pawns. */
  lemma DoubledPawns(b: Board, c: Color)
    ensures Doubled(b, c) == PieceCount(b, c, Pawn) - OccupiedBelow(b, c, 8)
    ensures Doubled(b, c) <= PieceCount(b, c, Pawn)
  {
    DoubledOccupied(b, c, 8);
    FilesRanks(b, c, 8);
    PawnOfCount(b, c);
  }

  /** No doubled pawns exactly when no file holds two pawns of that colour. */
  lemma {:induction false} NoDoubled(b: Board, c: Color, n: nat)
    requires n <= 8
    ensures DoubledBelow(b, c, n) == 0 <==> forall f :: 0 <= f < n ==> PawnsOnFile(b, c, f) <= 1
  {
    if n > 0 {
      NoDoubled(b, c, n - 1);
    }
  }

  /** Blocked and isolated pawns are pawns. */
  lemma WeakPawnsBound(b: Board, c: Color)
    ensures Blocked(b, c) <= PieceCount(b, c, Pawn)
    ensures Isolated(b, c) <= PieceCount(b, c, Pawn)
  {
    CountInMono(b, BlockedPawn(c), Holds(Piece(c, Pawn)), 0, 64);
    CountInMono(b, IsolatedPawn(c), Holds(Piece(c, Pawn)), 0, 64);
  }
}
