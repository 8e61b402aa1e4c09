/** Complex numbers as pairs of exact reals, and the Mandelbrot map z ↦ z² + c. */
module ComplexNumbers {

  /** The complex number re + im·i. */
  datatype Complex = Complex(re: real, im: real)

  const Zero: Complex := Complex(0.0, 0.0)

  function Add(z: Complex, w: Complex): Complex
  {
    Complex(z.re + w.re, z.im + w.im)
  }

  function Mul(z: Complex, w: Complex): Complex
  {
    Complex(z.re * w.re - z.im * w.im, z.re * w.im + z.im * w.re)
  }

  /** One Mandelbrot step z * z + c. */
  function Step(z: Complex, c: Complex): Complex
  {
    Add(Mul(z, z), c)
  }

  /** The "square of a complex number" identity the compiled kernels use:
      (a + bi)² + c = (a² − b² + c.re) + (2ab + c.im)·i, both parts computed from the
      same (old) pair a, b. */
  lemma StepComponents(a: real, b: real, c: Complex)
    ensures Step(Complex(a, b), c) == Complex(a * a - b * b + c.re, 2.0 * a * b + c.im)
  {
  }

  /** 0² + c = c. */
  lemma StepFromZero(c: Complex)
    ensures Step(Zero, c) == c
  {
    StepComponents(0.0, 0.0, c);
  }

  /** |z|², so that |z| > 2 iff NormSq(z) > 4 and |z| < 2 iff NormSq(z) < 4. */
  function NormSq(z: Complex): real
  {
    z.re * z.re + z.im * z.im
  }

  /** The radius test. The strict form (|z|² > 4, i.e. |z| > 2) is the escape test of
      the scalar kernels; the inclusive form (|z|² >= 4) is the complement of the
      "not finished" mask |z|² < 4 of the masked array kernels. */
  predicate Outside(z: Complex, inclusive: bool)
  {
    if inclusive then NormSq(z) >= 4.0 else NormSq(z) > 4.0
  }

  /** The radius tests on a number given by its parts a + b·i, in the form the compiled
      kernels evaluate them. */
  lemma OutsideComponents(z: Complex, a: real, b: real)
    requires z == Complex(a, b)
    ensures Outside(z, false) <==> a * a + b * b > 4.0
    ensures Outside(z, true) <==> a * a + b * b >= 4.0
  {
  }

  /** 0 lies inside both radius tests. */
  lemma ZeroInside(inclusive: bool)
    ensures !Outside(Zero, inclusive)
  {
    OutsideComponents(Zero, 0.0, 0.0);
  }
}
