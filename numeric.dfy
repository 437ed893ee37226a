/**
 * The cells of a flow record, as pandas/NumPy hold them: a float64 that may
 * be NaN or an infinity. Values are exact reals (no rounding); every
 * comparison with NaN is false, as in IEEE 754.
 */
module Numeric {

  datatype Num = NaN | PosInf | NegInf | Fin(r: real)

  /** `pd.isna(x)` */
  predicate IsNa(x: Num) { x.NaN? }

  /** `np.isinf(x)`: true of both infinities, false of NaN */
  predicate IsInf(x: Num) { x.PosInf? || x.NegInf? }

  /** `a < b` */
  predicate Lt(a: Num, b: Num)
  {
    match (a, b)
    case (NaN, _) => false
    case (_, NaN) => false
    case (NegInf, NegInf) => false
    case (NegInf, _) => true
    case (PosInf, _) => false
    case (Fin(_), PosInf) => true
    case (Fin(_), NegInf) => false
    case (Fin(x), Fin(y)) => x < y
  }

  /** `a > b` */
  predicate Gt(a: Num, b: Num) { Lt(b, a) }

  /** `a == b`: NaN equals nothing, not even itself */
  predicate Eq(a: Num, b: Num) { !a.NaN? && a == b }

  /** `a >= b` */
  predicate Ge(a: Num, b: Num) { Gt(a, b) || Eq(a, b) }

  /** `a + b` */
  function Add(a: Num, b: Num): (r: Num)
    ensures IsNa(a) || IsNa(b) ==> IsNa(r)
    ensures a.Fin? && b.Fin? ==> r == Fin(a.r + b.r)
  {
    match (a, b)
    case (NaN, _) => NaN
    case (_, NaN) => NaN
    case (PosInf, NegInf) => NaN
    case (NegInf, PosInf) => NaN
    case (PosInf, _) => PosInf
    case (NegInf, _) => NegInf
    case (_, PosInf) => PosInf
    case (_, NegInf) => NegInf
    case (Fin(x), Fin(y)) => Fin(x + y)
  }

  /** `a / b` on float64 (the sign of zero is not modelled) */
  function Div(a: Num, b: Num): (r: Num)
    ensures IsNa(a) || IsNa(b) ==> IsNa(r)
    ensures a.Fin? && b.Fin? && b.r != 0.0 ==> r == Fin(a.r / b.r)
  {
    match (a, b)
    case (NaN, _) => NaN
    case (_, NaN) => NaN
    case (Fin(x), Fin(y)) =>
      if y != 0.0 then Fin(x / y)
      else if x > 0.0 then PosInf
      else if x < 0.0 then NegInf
      else NaN
    case (Fin(_), _) => Fin(0.0)
    case (_, Fin(y)) =>
      if y == 0.0 then a
      else if (y > 0.0) == a.PosInf? then PosInf
      else NegInf
    case _ => NaN
  }

  /** `x or 0` in Python: `x` when it is truthy (NaN included), else `0` */
  function OrZero(x: Num): (r: Num)
  {
    if x == Fin(0.0) then Fin(0.0) else x
  }

  /** `x or 0` is the identity on numbers: NaN is truthy, and `0.0 or 0` is zero again. */
  lemma OrZeroIsIdentity(x: Num)
    ensures OrZero(x) == x
  {
  }

  /** The order is irreflexive and asymmetric, and NaN stands outside it. */
  lemma LtStrict(a: Num, b: Num)
    ensures !(Lt(a, b) && Lt(b, a))
    ensures !Lt(a, a)
    ensures IsNa(a) || IsNa(b) ==> !Lt(a, b) && !Ge(a, b) && !Eq(a, b)
  {
  }
}
