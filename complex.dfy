/** Exact complex arithmetic over `real`, standing in for numpy's complex dtype. */
module ComplexNumbers {

  /** A complex number as a pair of exact reals. */
  datatype Complex = C(re: real, im: real)

  const Zero: Complex := C(0.0, 0.0)

  function Conj(z: Complex): Complex { C(z.re, -z.im) }

  function Neg(z: Complex): Complex { C(-z.re, -z.im) }

  function Add(a: Complex, b: Complex): Complex { C(a.re + b.re, a.im + b.im) }

  function Sub(a: Complex, b: Complex): Complex { C(a.re - b.re, a.im - b.im) }

  function Mul(a: Complex, b: Complex): Complex {
    C(a.re * b.re - a.im * b.im, a.re * b.im + a.im * b.re)
  }

  /** Division of a complex number by a nonzero real. */
  function Div(z: Complex, d: real): Complex
    requires d != 0.0
  {
    C(z.re / d, z.im / d)
  }

  /**
   * The inner product <a|b> = sum over k of conj(a[k]) * b[k]. Summation order
   * is immaterial for exact reals, so the sum is taken over the last element.
   */
  function Dot(a: seq<Complex>, b: seq<Complex>): Complex
    requires |a| == |b|
    decreases |a|
  {
    if |a| == 0 then Zero
    else Add(Dot(a[..|a| - 1], b[..|b| - 1]), Mul(Conj(a[|a| - 1]), b[|b| - 1]))
  }

  /** The inner product is conjugate symmetric: <b|a> is the conjugate of <a|b>. */
  lemma {:induction false} DotConjSymmetric(a: seq<Complex>, b: seq<Complex>)
    requires |a| == |b|
    ensures Dot(b, a) == Conj(Dot(a, b))
  {
    if |a| > 0 {
      var a', b' := a[..|a| - 1], b[..|b| - 1];
      var x, y := a[|a| - 1], b[|b| - 1];
      DotConjSymmetric(a', b');
      MulConjSwap(x, y);
      ConjAdd(Dot(a', b'), Mul(Conj(x), y));
    }
  }

  /** One term of the inner product, conjugated, is the term with its factors swapped. */
  lemma MulConjSwap(x: Complex, y: Complex)
    ensures Mul(Conj(y), x) == Conj(Mul(Conj(x), y))
  {
  }

  lemma ConjAdd(u: Complex, v: Complex)
    ensures Conj(Add(u, v)) == Add(Conj(u), Conj(v))
  {
  }

  /** Dividing a negation is negating the quotient. */
  lemma DivNeg(z: Complex, d: real)
    requires d != 0.0
    ensures Div(Neg(z), d) == Neg(Div(z, d))
  {
  }

  /** Dividing by twice a divisor halves the quotient. */
  lemma DivTwice(z: Complex, d: real)
    requires d != 0.0
    ensures Div(z, 2.0 * d) == Div(Div(z, d), 2.0)
  {
  }
}
