/**
 * Loss values as the training loop compares them.
 *
 * A loss is a Python float produced by a cross-entropy criterion: a finite
 * number, +inf, or NaN. The type has no -inf: with non-negative targets,
 * cross-entropy is never negative. Finite values are exact reals (rounding
 * is not modelled).
 */
module Losses {

  datatype Loss = Finite(value: real) | PosInf | NaN

  /** Python's `a <= b` on floats: false whenever either side is NaN. */
  predicate Le(a: Loss, b: Loss) {
    match (a, b)
    case (NaN, _) => false
    case (_, NaN) => false
    case (_, PosInf) => true
    case (PosInf, Finite(_)) => false
    case (Finite(x), Finite(y)) => x <= y
  }

  /** Python's `a + b` on two losses (no -inf, so inf + inf stays inf). */
  function Add(a: Loss, b: Loss): (r: Loss)
    ensures r.NaN? <==> a.NaN? || b.NaN?
    ensures r.PosInf? <==> !r.NaN? && (a.PosInf? || b.PosInf?)
  {
    match (a, b)
    case (NaN, _) => NaN
    case (_, NaN) => NaN
    case (PosInf, _) => PosInf
    case (_, PosInf) => PosInf
    case (Finite(x), Finite(y)) => Finite(x + y)
  }

  /** Python's `loss * n` for a batch size `n`; `inf * 0` is NaN. */
  function Scale(a: Loss, n: nat): (r: Loss)
    ensures r.NaN? <==> a.NaN? || (a.PosInf? && n == 0)
    ensures r.PosInf? <==> a.PosInf? && n > 0
  {
    match a
    case Finite(x) => Finite(x * n as real)
    case PosInf => if n == 0 then NaN else PosInf
    case NaN => NaN
  }

  /** Python's `total / n` for a positive sample count `n`. */
  function Div(a: Loss, n: nat): (r: Loss)
    requires n > 0
    ensures r.NaN? <==> a.NaN?
    ensures r.PosInf? <==> a.PosInf?
  {
    match a
    case Finite(x) => Finite(x / n as real)
    case PosInf => PosInf
    case NaN => NaN
  }

  /** On numbers (everything but NaN) `Le` is a total order. */
  lemma LeOrdersNumbers(a: Loss, b: Loss, c: Loss)
    ensures !a.NaN? ==> Le(a, a)
    ensures Le(a, b) && Le(b, c) ==> Le(a, c)
    ensures Le(a, b) && Le(b, a) ==> a == b
    ensures !a.NaN? && !b.NaN? ==> Le(a, b) || Le(b, a)
    ensures Le(a, b) ==> !a.NaN? && !b.NaN?
    ensures !a.NaN? <==> Le(a, PosInf)
  {
  }

  /** Addition of losses is commutative and associative with identity 0, so
      the order in which batches are summed does not change the total. */
  lemma AddLaws(a: Loss, b: Loss, c: Loss)
    ensures Add(a, b) == Add(b, a)
    ensures Add(Add(a, b), c) == Add(a, Add(b, c))
    ensures Add(a, Finite(0.0)) == a
  {
  }

  /** Dividing a batch's `loss * n` by its size `n` gives back its loss, and
      scaling an average by the sample count gives back the total. */
  lemma ScaleDivRoundTrip(a: Loss, n: nat)
    requires n > 0
    ensures Div(Scale(a, n), n) == a
    ensures Scale(Div(a, n), n) == a
  {
  }

  /** Averaging over the same count keeps the order of two totals. */
  lemma DivKeepsOrder(a: Loss, b: Loss, n: nat)
    requires n > 0
    ensures Le(Div(a, n), Div(b, n)) <==> Le(a, b)
  {
  }
}
