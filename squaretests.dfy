/** Per-square tests used by the evaluator and the counting of the squares
    that pass them. */
module SquareTests {
  import opened Chess

  /** The square directly in front of a pawn of colour c on sq. */
  function Forward(sq: nat, c: Color): int
  {
    if c == White then sq + 8 else sq - 8
  }

  /** A pawn of colour c on sq with a piece of the other colour directly in front. */
  predicate BlockedAt(b: Board, sq: nat, c: Color)
    requires sq < 64
  {
    IsPawnOf(b[sq], c) &&
    var fw := Forward(sq, c);
    0 <= fw < 64 && b[fw].Some? && b[fw].value.color != c
  }

  /** A pawn of colour c on sq with no pawn of colour c beside it on the same
      rank; a pawn on file a or h has only one such neighbour square. */
  predicate IsolatedAt(b: Board, sq: nat, c: Color)
    requires sq < 64
  {
    IsPawnOf(b[sq], c) &&
    var f := sq % 8;
    !(f > 0 && IsPawnOf(b[sq - 1], c)) &&
    !(f < 7 && IsPawnOf(b[sq + 1], c))
  }

  datatype Test = Holds(piece: Piece) | PawnOf(color: Color) | BlockedPawn(color: Color) | IsolatedPawn(color: Color)

  predicate Passes(b: Board, t: Test, sq: nat)
    requires sq < 64
  {
    match t
    case Holds(pc) => b[sq] == Some(pc)
    case PawnOf(c) => IsPawnOf(b[sq], c)
    case BlockedPawn(c) => BlockedAt(b, sq, c)
    case IsolatedPawn(c) => IsolatedAt(b, sq, c)
  }

  function Ind(b: Board, t: Test, sq: nat): nat
    requires sq < 64
  {
    if Passes(b, t, sq) then 1 else 0
  }

  /** Number of squares lo <= sq < lo + n that pass t. */
  function CountIn(b: Board, t: Test, lo: nat, n: nat): nat
    requires lo + n <= 64
  {
    if n == 0 then 0 else CountIn(b, t, lo, n - 1) + Ind(b, t, lo + n - 1)
  }

  /** Number of squares of the board that pass t. */
  function CountAll(b: Board, t: Test): nat
  {
    CountIn(b, t, 0, 64)
  }

  /** Ranges that pass square by square alike count the same. */
  lemma {:induction false} CountInExt(b1: Board, t1: Test, lo1: nat, b2: Board, t2: Test, lo2: nat, n: nat)
    requires lo1 + n <= 64 && lo2 + n <= 64
    requires forall sq :: lo1 <= sq < lo1 + n ==> Passes(b1, t1, sq) == Passes(b2, t2, sq - lo1 + lo2)
    ensures CountIn(b1, t1, lo1, n) == CountIn(b2, t2, lo2, n)
  {
    if n > 0 {
      CountInExt(b1, t1, lo1, b2, t2, lo2, n - 1);
    }
  }

  /** A test implied by another counts at least as many squares. */
  lemma {:induction false} CountInMono(b: Board, t1: Test, t2: Test, lo: nat, n: nat)
    requires lo + n <= 64
    requires forall sq :: lo <= sq < lo + n ==> Passes(b, t1, sq) ==> Passes(b, t2, sq)
    ensures CountIn(b, t1, lo, n) <= CountIn(b, t2, lo, n)
  {
    if n > 0 {
      CountInMono(b, t1, t2, lo, n - 1);
    }
  }

  lemma {:induction false} CountInSplit(b: Board, t: Test, lo: nat, a: nat, k: nat)
    requires lo + a + k <= 64
    ensures CountIn(b, t, lo, a + k) == CountIn(b, t, lo, a) + CountIn(b, t, lo + a, k)
  {
    if k > 0 {
      CountInSplit(b, t, lo, a, k - 1);
    }
  }

  /** The board as eight ranks of eight squares. */
  lemma CountRows(b: Board, t: Test)
    ensures CountAll(b, t) == CountIn(b, t, 0, 8) + CountIn(b, t, 8, 8) + CountIn(b, t, 16, 8) + CountIn(b, t, 24, 8) +
                              CountIn(b, t, 32, 8) + CountIn(b, t, 40, 8) + CountIn(b, t, 48, 8) + CountIn(b, t, 56, 8)
  {
    CountInSplit(b, t, 0, 8, 8);
    CountInSplit(b, t, 0, 16, 8);
    CountInSplit(b, t, 0, 24, 8);
    CountInSplit(b, t, 0, 32, 8);
    CountInSplit(b, t, 0, 40, 8);
    CountInSplit(b, t, 0, 48, 8);
    CountInSplit(b, t, 0, 56, 8);
  }

  /** t2 on b2 reads t1 on b1 through MirrorSquare. */
  ghost predicate MirroredTests(b1: Board, t1: Test, b2: Board, t2: Test)
  {
    forall sq :: 0 <= sq < 64 ==> Passes(b2, t2, sq) == Passes(b1, t1, MirrorSquare(sq))
  }

  lemma SquareMirror(b1: Board, t1: Test, b2: Board, t2: Test, r: nat, sq: nat)
    requires r < 8 && 8 * r <= sq < 8 * r + 8
    requires MirroredTests(b1, t1, b2, t2)
    ensures Passes(b2, t2, sq) == Passes(b1, t1, sq - 8 * r + 8 * (7 - r))
  {
    MirrorSquareAt(sq - 8 * r, r);
  }

  lemma RowMirror(b1: Board, t1: Test, b2: Board, t2: Test, r: nat)
    requires r < 8
    requires MirroredTests(b1, t1, b2, t2)
    ensures CountIn(b2, t2, 8 * r, 8) == CountIn(b1, t1, 8 * (7 - r), 8)
  {
    forall sq | 8 * r <= sq < 8 * r + 8
      ensures Passes(b2, t2, sq) == Passes(b1, t1, sq - 8 * r + 8 * (7 - r))
    {
      SquareMirror(b1, t1, b2, t2, r, sq);
    }
    CountInExt(b2, t2, 8 * r, b1, t1, 8 * (7 - r), 8);
  }

  lemma RowPairMirror(b1: Board, t1: Test, b2: Board, t2: Test, r: nat)
    requires r < 4
    requires MirroredTests(b1, t1, b2, t2)
    ensures CountIn(b2, t2, 8 * r, 8) == CountIn(b1, t1, 8 * (7 - r), 8)
    ensures CountIn(b2, t2, 8 * (7 - r), 8) == CountIn(b1, t1, 8 * r, 8)
  {
    RowMirror(b1, t1, b2, t2, r);
    RowMirror(b1, t1, b2, t2, 7 - r);
  }

  /** Counting over the whole board is unchanged by reading it through MirrorSquare. */
  lemma CountMirror(b1: Board, t1: Test, b2: Board, t2: Test)
    requires MirroredTests(b1, t1, b2, t2)
    ensures CountAll(b2, t2) == CountAll(b1, t1)
  {
    CountRows(b1, t1);
    CountRows(b2, t2);
    RowPairMirror(b1, t1, b2, t2, 0);
    RowPairMirror(b1, t1, b2, t2, 1);
    RowPairMirror(b1, t1, b2, t2, 2);
    RowPairMirror(b1, t1, b2, t2, 3);
  }

  /** The same test for the other side. */
  function FlipTest(t: Test): Test
  {
    match t
    case Holds(pc) => Holds(Piece(Other(pc.color), pc.kind))
    case PawnOf(c) => PawnOf(Other(c))
    case BlockedPawn(c) => BlockedPawn(Other(c))
    case IsolatedPawn(c) => IsolatedPawn(Other(c))
  }

  lemma PawnMirrorAt(b: Board, c: Color, file: nat, rank: nat)
    requires file < 8 && rank < 8
    ensures IsPawnOf(Mirror(b)[8 * rank + file], Other(c)) == IsPawnOf(b[8 * (7 - rank) + file], c)
  {
    MirrorAt(b, file, rank);
  }

  lemma BlockedMirrorAt(b: Board, c: Color, file: nat, rank: nat)
    requires file < 8 && rank < 8
    ensures BlockedAt(Mirror(b), 8 * rank + file, Other(c)) == BlockedAt(b, 8 * (7 - rank) + file, c)
  {
    PawnMirrorAt(b, c, file, rank);
    if c == White && rank > 0 {
      MirrorAt(b, file, rank - 1);
    } else if c == Black && rank < 7 {
      MirrorAt(b, file, rank + 1);
    }
  }

  lemma IsolatedMirrorAt(b: Board, c: Color, file: nat, rank: nat)
    requires file < 8 && rank < 8
    ensures IsolatedAt(Mirror(b), 8 * rank + file, Other(c)) == IsolatedAt(b, 8 * (7 - rank) + file, c)
  {
    assert Square(file, rank) % 8 == file && Square(file, 7 - rank) % 8 == file;
    PawnMirrorAt(b, c, file, rank);
    if file > 0 {
      PawnMirrorAt(b, c, file - 1, rank);
    }
    if file < 7 {
      PawnMirrorAt(b, c, file + 1, rank);
    }
  }

  lemma PassesMirrorAt(b: Board, t: Test, file: nat, rank: nat)
    requires file < 8 && rank < 8
    ensures Passes(Mirror(b), FlipTest(t), 8 * rank + file) == Passes(b, t, 8 * (7 - rank) + file)
  {
    match t
    case Holds(pc) => MirrorAt(b, file, rank);
    case PawnOf(c) => PawnMirrorAt(b, c, file, rank);
    case BlockedPawn(c) => BlockedMirrorAt(b, c, file, rank);
    case IsolatedPawn(c) => IsolatedMirrorAt(b, c, file, rank);
  }

  /** Every test on the mirrored board reads the flipped test on the board. */
  lemma MirrorTests(b: Board, t: Test)
    ensures MirroredTests(b, t, Mirror(b), FlipTest(t))
  {
    forall sq | 0 <= sq < 64
      ensures Passes(Mirror(b), FlipTest(t), sq) == Passes(b, t, MirrorSquare(sq))
    {
      var file, rank := sq % 8, sq / 8;
      MirrorSquareAt(file, rank);
      PassesMirrorAt(b, t, file, rank);
    }
  }

  /** Counting a test on the mirrored board counts the flipped test on the board. */
  lemma CountAllMirror(b: Board, t: Test)
    ensures CountAll(Mirror(b), FlipTest(t)) == CountAll(b, t)
  {
    MirrorTests(b, t);
    CountMirror(b, t, Mirror(b), FlipTest(t));
  }
}
