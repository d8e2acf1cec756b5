/** Value types shared by the moving-average crossover engine: optional
    column entries, the Python floats its profit bookkeeping can hold, and
    rolling-window lengths. */
module Values {

  /** A column entry. `None` plays the part of pandas' NaN: an undefined
      moving average, or "no signal" in a Buy/Sell column. */
  datatype Option<T> = None | Some(value: T)

  /** The Python floats the engine can produce: a finite value, the `-inf`
      that a best-so-far starts from, and NaN (a profit that touched a
      missing Buy price). */
  datatype Float = NegInf | Num(val: real) | NaN

  /** A rolling-window length. */
  type Window = w: nat | w >= 1 witness 1

  /** Python's `a > b` on floats: every comparison involving NaN is false,
      and `-inf` is below every finite value. */
  predicate Greater(a: Float, b: Float)
  {
    match (a, b)
    case (Num(x), Num(y)) => x > y
    case (Num(_), NegInf) => true
    case _ => false
  }

  /** Python's `a + b` on floats: NaN absorbs everything, `-inf` absorbs
      finite values. */
  function Add(a: Float, b: Float): (r: Float)
    ensures r == NaN <==> a == NaN || b == NaN
    ensures a.Num? && b.Num? ==> r == Num(a.val + b.val)
    ensures r == NegInf ==> a == NegInf || b == NegInf
  {
    match (a, b)
    case (NaN, _) => NaN
    case (_, NaN) => NaN
    case (Num(x), Num(y)) => Num(x + y)
    case _ => NegInf
  }

  lemma GreaterTransitive(a: Float, b: Float, c: Float)
    requires Greater(a, b) && Greater(b, c)
    ensures Greater(a, c)
  {
  }

  lemma GreaterIrreflexive(a: Float)
    ensures !Greater(a, a)
  {
  }

  /** Beating `b` beats everything `b` is at least as large as. */
  lemma GreaterThanAtMost(a: Float, b: Float, c: Float)
    requires b != NaN && c != NaN
    requires Greater(a, b) && !Greater(c, b)
    ensures Greater(a, c)
  {
  }
}
