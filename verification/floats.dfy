/** Floating-point values without rounding: the reals, the two infinities and not-a-number, with the
    arithmetic and the comparisons of IEEE 754 on them. */
module Floats {
  datatype Float = NaN | NegInf | PosInf | Fin(r: real)

  predicate IsFinite(x: Float) {
    x.Fin?
  }

  function Neg(x: Float): Float {
    match x
    case NaN => NaN
    case NegInf => PosInf
    case PosInf => NegInf
    case Fin(r) => Fin(-r)
  }

  function Add(x: Float, y: Float): Float {
    if x.NaN? || y.NaN? then NaN
    else if x.Fin? && y.Fin? then Fin(x.r + y.r)
    else if x.Fin? then y
    else if y.Fin? then x
    else if x == y then x
    else NaN
  }

  function Sub(x: Float, y: Float): Float {
    Add(x, Neg(y))
  }

  /** Multiplication by a positive finite number. */
  function Scale(a: real, x: Float): Float
    requires a > 0.0
  {
    match x
    case Fin(r) => Fin(a * r)
    case _ => x
  }

  function Square(x: Float): Float {
    match x
    case NaN => NaN
    case Fin(r) => Fin(r * r)
    case _ => PosInf
  }

  /** Every comparison with not-a-number is false. */
  predicate Less(x: Float, y: Float) {
    if x.NaN? || y.NaN? then false
    else if x.Fin? && y.Fin? then x.r < y.r
    else x != y && (x.NegInf? || y.PosInf?)
  }

  /** Python's `max(a, b)` and `min(a, b)`: the first unless the second compares better. */
  function PyMax(a: Float, b: Float): Float {
    if Less(a, b) then b else a
  }

  function PyMin(a: Float, b: Float): Float {
    if Less(b, a) then b else a
  }

  // ------------------------------------------------------------------ what the operations are

  /** The order of the numbers with the infinities at its ends; not-a-number is in no order. */
  lemma OrderIs(x: Float, y: Float)
    ensures x.Fin? && y.Fin? ==> (Less(x, y) <==> x.r < y.r)
    ensures x.Fin? ==> Less(NegInf, x) && Less(x, PosInf)
    ensures Less(NegInf, PosInf) && !Less(x, x)
    ensures x.NaN? || y.NaN? ==> !Less(x, y)
    ensures !x.NaN? && !y.NaN? && x != y ==> (Less(x, y) <==> !Less(y, x))
  {
  }

  /** Sums of numbers are numbers; an infinity absorbs numbers and itself, and cancels against its opposite
      to not-a-number, which nothing cures. */
  lemma SumsAre(x: Float, y: Float)
    ensures x.Fin? && y.Fin? ==> Add(x, y) == Fin(x.r + y.r) && Sub(x, y) == Fin(x.r - y.r)
    ensures Add(x, y) == Add(y, x)
    ensures x.Fin? ==> Add(x, PosInf) == PosInf && Add(x, NegInf) == NegInf
    ensures Add(PosInf, PosInf) == PosInf && Add(NegInf, NegInf) == NegInf && Add(PosInf, NegInf) == NaN
    ensures Add(x, NaN) == NaN && Neg(Neg(x)) == x
  {
  }
}
