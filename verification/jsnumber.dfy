/** JavaScript numbers as far as the card's arithmetic on parsed strings
    needs them: finite values are exact reals (no rounding), plus the two
    infinities and NaN. Signed zero is not distinguished. */
module JsNumber {

  datatype JsNum = Finite(value: real) | PosInf | NegInf | NaN

  /** The `/` operator. */
  function Div(a: JsNum, b: JsNum): JsNum {
    match (a, b)
    case (NaN, _) => NaN
    case (_, NaN) => NaN
    case (Finite(x), Finite(y)) =>
      if y != 0.0 then Finite(x / y)
      else if x > 0.0 then PosInf
      else if x < 0.0 then NegInf
      else NaN
    case (Finite(_), _) => Finite(0.0)
    case (PosInf, Finite(y)) => if y < 0.0 then NegInf else PosInf
    case (NegInf, Finite(y)) => if y < 0.0 then PosInf else NegInf
    case (_, _) => NaN
  }

  /** Multiplication by a positive constant. */
  function Scale(a: JsNum, k: real): JsNum
    requires k > 0.0
  {
    match a
    case Finite(x) => Finite(x * k)
    case _ => a
  }

  /** `Math.min` of two numbers: NaN when either is NaN. */
  function Min(a: JsNum, b: JsNum): JsNum {
    match (a, b)
    case (NaN, _) => NaN
    case (_, NaN) => NaN
    case (NegInf, _) => NegInf
    case (_, NegInf) => NegInf
    case (PosInf, _) => b
    case (_, PosInf) => a
    case (Finite(x), Finite(y)) => if x <= y then a else b
  }

  /** The `<` operator: false whenever NaN is involved. */
  predicate Lt(a: JsNum, b: JsNum) {
    match (a, b)
    case (NaN, _) => false
    case (_, NaN) => false
    case (Finite(x), Finite(y)) => x < y
    case (NegInf, _) => !b.NegInf?
    case (_, PosInf) => !a.PosInf?
    case (_, _) => false
  }

  /** The `===` operator on numbers: NaN equals nothing, not even itself. */
  predicate StrictEq(a: JsNum, b: JsNum) {
    !a.NaN? && a == b
  }

  /** The yearly progress percentage `Math.min((current / target) * 100, 100)`. */
  function ProgressPercent(current: JsNum, target: JsNum): (r: JsNum)
    ensures !Lt(Finite(100.0), r)
    ensures (current.NaN? || target.NaN?) ==> r.NaN?
    ensures current.Finite? && target.Finite? && target.value > 0.0 ==>
      r.Finite? && r.value <= 100.0 &&
      (current.value >= target.value ==> r.value == 100.0) &&
      (current.value < target.value ==> r.value == current.value / target.value * 100.0)
  {
    if current.Finite? && target.Finite? && target.value > 0.0 then
      RatioAtLeastOne(current.value, target.value);
      Min(Scale(Div(current, target), 100.0), Finite(100.0))
    else
      Min(Scale(Div(current, target), 100.0), Finite(100.0))
  }

  lemma RatioAtLeastOne(x: real, y: real)
    requires y > 0.0
    ensures x / y * 100.0 >= 100.0 <==> x >= y
  {
    var q := x / y;
    assert x == q * y;
    if q >= 1.0 {
      assert q * y >= 1.0 * y;
    } else {
      assert q * y < 1.0 * y;
    }
  }

  /** A yearly volume of 250 against a target of 200 is
      shown as exactly 100 per cent, not 125. */
  lemma ProgressClampsAtTarget()
    ensures ProgressPercent(Finite(250.0), Finite(200.0)) == Finite(100.0)
  {
  }
}
