/**
 * Scores extended with the two infinities the search starts from
 * (-Infinity and Infinity in the running program).
 */
module Extended {

  datatype XReal = NegInf | Fin(value: real) | PosInf

  /** The total order of the extended reals. */
  predicate Le(a: XReal, b: XReal)
  {
    a.NegInf? || b.PosInf? || (a.Fin? && b.Fin? && a.value <= b.value)
  }

  predicate Lt(a: XReal, b: XReal)
  {
    !Le(b, a)
  }

  /** Math.max: the larger of the two, which is one of them. */
  function Max(a: XReal, b: XReal): (r: XReal)
    ensures Le(a, r) && Le(b, r)
    ensures r == a || r == b
  {
    if Le(a, b) then b else a
  }

  /** Math.min: the smaller of the two, which is one of them. */
  function Min(a: XReal, b: XReal): (r: XReal)
    ensures Le(r, a) && Le(r, b)
    ensures r == a || r == b
  {
    if Le(a, b) then a else b
  }
}
