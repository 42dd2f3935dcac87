/** Search scores: a whole number of centipawns, or one of the two infinities
    that stand for checkmate. */
module Scores {

  datatype Score = NegInf | Fin(n: int) | PosInf

  /** The best score of a search before any move is scored: the worst score
      for the side choosing. */
  function Start(maxP: bool): Score
  {
    if maxP then NegInf else PosInf
  }

  /** The order of the extended integers. */
  predicate Le(a: Score, b: Score)
  {
    a.NegInf? || b.PosInf? || (a.Fin? && b.Fin? && a.n <= b.n)
  }

  predicate Lt(a: Score, b: Score)
  {
    !Le(b, a)
  }

  /** max(a, b): the first argument unless the second is strictly larger. */
  function Max(a: Score, b: Score): (m: Score)
    ensures Le(a, m) && Le(b, m) && (m == a || m == b)
  {
    if Lt(a, b) then b else a
  }

  /** min(a, b): the first argument unless the second is strictly smaller. */
  function Min(a: Score, b: Score): (m: Score)
    ensures Le(m, a) && Le(m, b) && (m == a || m == b)
  {
    if Lt(b, a) then b else a
  }

  function Neg(a: Score): Score
  {
    match a
    case NegInf => PosInf
    case Fin(x) => Fin(-x)
    case PosInf => NegInf
  }

  /** Raising to x and then to a y at least x is raising to y. */
  lemma MaxAbsorb(a: Score, x: Score, y: Score)
    requires Le(x, y)
    ensures Max(Max(a, x), y) == Max(a, y)
  {
  }

  lemma MinAbsorb(a: Score, x: Score, y: Score)
    requires Le(y, x)
    ensures Min(Min(a, x), y) == Min(a, y)
  {
  }
}
