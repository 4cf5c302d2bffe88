/** The JavaScript values that flow through parameter records.
    Numbers are exact reals; the IEEE special values the program can produce
    by dividing or parsing are kept as their own cases. */
module Values {

  /** `Infinity` or `-Infinity` when `negative`. */
  datatype Number = Finite(v: real) | NaN | Infinite(negative: bool)

  /** The least real that rounds to `Infinity` in IEEE double precision:
      `Number.MAX_VALUE` plus half a unit in its last place, 2^1024 - 2^970. */
  const Overflow: real := 179769313486231580793728971405303415079934132710037826936173778980444968292764750946649017977587207096330286416692887910946555547851940402630657488671505820681908902000708383676273854845817711531764475730270069855571366959622842914819860834936475292719074168444365510704342711559699508093042880177904174497792.0

  /** The double an exact value denotes, ignoring rounding of finite values:
      magnitudes from `Overflow` on become an infinity of the same sign. */
  function FromExact(x: real): (r: Number)
    ensures r.Infinite? <==> x >= Overflow || x <= -Overflow
    ensures r.Infinite? ==> (r.negative <==> x < 0.0)
    ensures r.Finite? ==> r.v == x && -Overflow < x < Overflow
    ensures !r.NaN?
  {
    if x >= Overflow then Infinite(false)
    else if x <= -Overflow then Infinite(true)
    else Finite(x)
  }

  /** One entry of a parameter record (`R`, `T`, `m`, `s`, `b`, `kn`, `gn`, ...). */
  datatype ParamValue = Num(n: Number) | Text(s: string) | Numbers(ns: seq<Number>)

  /** A parameter record: a JavaScript object with string keys. */
  type Params = map<string, ParamValue>

  /** `{ ...prev, ...update }`: keys of `update` overwrite, the rest keep their values. */
  function Merge(prev: Params, update: Params): (r: Params)
    ensures r.Keys == prev.Keys + update.Keys
    ensures forall k :: k in update ==> r[k] == update[k]
    ensures forall k :: k in prev && k !in update ==> r[k] == prev[k]
  {
    prev + update
  }

  /** JavaScript `a / b` on numbers; a zero divisor is taken as `+0`. */
  function Divide(a: Number, b: Number): (r: Number)
    ensures a.Finite? && b.Finite? && b.v != 0.0 ==> r == Finite(a.v / b.v)
    ensures a.Finite? && b.Finite? && b.v == 0.0 ==>
      if a.v == 0.0 then r.NaN? else r == Infinite(a.v < 0.0)
    ensures a.NaN? || b.NaN? || (a.Infinite? && b.Infinite?) ==> r.NaN?
    ensures a.Finite? && b.Infinite? ==> r == Finite(0.0)
    ensures a.Infinite? && b.Finite? ==> r == Infinite(a.negative != (b.v < 0.0))
  {
    match (a, b)
    case (Finite(x), Finite(y)) =>
      if y != 0.0 then Finite(x / y) else if x == 0.0 then NaN else Infinite(x < 0.0)
    case (Infinite(neg), Finite(y)) => Infinite(neg != (y < 0.0))
    case (Finite(_), Infinite(_)) => Finite(0.0)
    case _ => NaN
  }
}
