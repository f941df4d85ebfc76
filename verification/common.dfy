/** Small value types shared by the whole model: optional values, results,
    the special values of IEEE floating point that the source relies on, and
    two Python built-ins (int() on a float, list indexing). */
module Common {

  datatype Option<+T> = None | Some(value: T)

  datatype Result<+T, +E> = Ok(value: T) | Err(error: E)

  /** A non-negative error as numpy produces it: a finite value or +inf. */
  datatype ExtReal = Fin(r: real) | Inf

  /** `a < b` on extended reals (`inf < inf` is false, as in IEEE). */
  predicate Lt(a: ExtReal, b: ExtReal)
  {
    a.Fin? && (b.Inf? || a.r < b.r)
  }

  /** `a <= b` on extended reals. */
  predicate Le(a: ExtReal, b: ExtReal)
  {
    b.Inf? || (a.Fin? && a.r <= b.r)
  }

  /** `a < t` for a finite threshold `t`. */
  predicate Below(a: ExtReal, t: real)
  {
    a.Fin? && a.r < t
  }

  /** `a > t` for a finite threshold `t`. */
  predicate Above(a: ExtReal, t: real)
  {
    a.Inf? || a.r > t
  }

  lemma LeNotLt(a: ExtReal, b: ExtReal)
    ensures Le(a, b) <==> !Lt(b, a)
  {
  }

  /** A float value with the special values numpy produces on division by zero. */
  datatype Num = Real(v: real) | NaN | PosInf | NegInf

  /** numpy's `a / b` on float64, without rounding: `x/0` is an infinity, `0/0` is NaN. */
  function Div(a: real, b: real): (r: Num)
    ensures b != 0.0 ==> r == Real(a / b)
    ensures b == 0.0 ==> (r.NaN? <==> a == 0.0)
    ensures b == 0.0 && a > 0.0 ==> r == PosInf
    ensures b == 0.0 && a < 0.0 ==> r == NegInf
  {
    if b != 0.0 then Real(a / b)
    else if a == 0.0 then NaN
    else if a > 0.0 then PosInf
    else NegInf
  }

  /** numpy's `a - b`. */
  function Sub(a: Num, b: Num): Num
  {
    match (a, b)
    case (NaN, _) => NaN
    case (_, NaN) => NaN
    case (PosInf, PosInf) => NaN
    case (NegInf, NegInf) => NaN
    case (PosInf, _) => PosInf
    case (NegInf, _) => NegInf
    case (Real(_), PosInf) => NegInf
    case (Real(_), NegInf) => PosInf
    case (Real(x), Real(y)) => Real(x - y)
  }

  /** Python's int() on a float: truncation toward zero. */
  function Trunc(r: real): (i: int)
    ensures r >= 0.0 ==> i as real <= r < i as real + 1.0
    ensures r < 0.0 ==> i as real - 1.0 < r <= i as real
  {
    if r >= 0.0 then r.Floor else -((-r).Floor)
  }

  /** The position Python's `xs[i]` reads, negative indices counting from the end;
      None where Python raises IndexError. */
  function PyIndex(len: nat, i: int): (r: Option<nat>)
    ensures r.Some? <==> -(len as int) <= i < len
    ensures r.Some? ==> r.value < len && (r.value as int == i || r.value as int == i + len)
  {
    if 0 <= i < len then Some(i)
    else if -(len as int) <= i < 0 then Some(i + len)
    else None
  }
}
