/** The orbit z_0 = 0, z_{n+1} = z_n² + c of a sample point c, and the first index at
    which it leaves the disc of radius 2. */
module MandelbrotOrbit {
  import opened ComplexNumbers

  /** z_n for the sample point c: z_0 = 0 and z_{n+1} = z_n² + c. */
  function Orbit(c: Complex, n: nat): Complex
  {
    if n == 0 then Zero else Step(Orbit(c, n - 1), c)
  }

  /** The least k in [lo, hi) with z_k outside the radius, or hi when there is none. */
  function FirstOutside(c: Complex, lo: nat, hi: nat, inclusive: bool): (r: nat)
    requires lo <= hi
    ensures lo <= r <= hi
    ensures r < hi ==> Outside(Orbit(c, r), inclusive)
    ensures forall k :: lo <= k < r ==> !Outside(Orbit(c, k), inclusive)
    decreases hi - lo
  {
    if lo == hi then hi
    else if Outside(Orbit(c, lo), inclusive) then lo
    else FirstOutside(c, lo + 1, hi, inclusive)
  }

  /** One orbit step in components: from z_n = re + im·i, z_{n+1} is
      (re² − im² + c.re) + (2·re·im + c.im)·i. */
  lemma NextIterate(c: Complex, n: nat, re: real, im: real)
    requires Orbit(c, n) == Complex(re, im)
    ensures Orbit(c, n + 1) == Complex(re * re - im * im + c.re, 2.0 * re * im + c.im)
  {
    assert Orbit(c, n + 1) == Step(Orbit(c, n), c);
    StepComponents(re, im, c);
  }

  /** z_0 = 0 passes neither radius test. */
  lemma StartsInside(c: Complex, inclusive: bool)
    ensures Orbit(c, 0) == Zero
    ensures !Outside(Orbit(c, 0), inclusive)
  {
  }

  /** z_1 = 0² + c = c. */
  lemma OrbitOne(c: Complex)
    ensures Orbit(c, 1) == c
  {
    var z0 := Orbit(c, 0);
    StepFromZero(c);
    assert z0 == Zero;
    assert Orbit(c, 1) == Step(z0, c);
  }

  /** The orbit of c = 0 stays at 0 for ever, since 0² + 0 = 0. */
  lemma {:induction false} OrbitOfZero(n: nat)
    ensures Orbit(Zero, n) == Zero
  {
    if n > 0 {
      OrbitOfZero(n - 1);
    }
  }

  /** FirstOutside is the only index with its characterising properties. */
  lemma FirstOutsideUnique(c: Complex, lo: nat, hi: nat, inclusive: bool, r: nat)
    requires lo <= r <= hi
    requires r < hi ==> Outside(Orbit(c, r), inclusive)
    requires forall k :: lo <= k < r ==> !Outside(Orbit(c, k), inclusive)
    ensures FirstOutside(c, lo, hi, inclusive) == r
  {
  }

  /** Looking one index further: the answer changes only when nothing was found below hi. */
  lemma FirstOutsideExtend(c: Complex, lo: nat, hi: nat, inclusive: bool)
    requires lo <= hi
    ensures var f := FirstOutside(c, lo, hi, inclusive);
            FirstOutside(c, lo, hi + 1, inclusive)
            == if f < hi then f else if Outside(Orbit(c, hi), inclusive) then hi else hi + 1
  {
    var f := FirstOutside(c, lo, hi, inclusive);
    if f < hi {
      FirstOutsideUnique(c, lo, hi + 1, inclusive, f);
    } else if Outside(Orbit(c, hi), inclusive) {
      FirstOutsideUnique(c, lo, hi + 1, inclusive, hi);
    } else {
      FirstOutsideUnique(c, lo, hi + 1, inclusive, hi + 1);
    }
  }

  /** Raising the bound does not change an index already found below the old bound. */
  lemma FirstOutsideRaiseBound(c: Complex, lo: nat, hi: nat, hi': nat, inclusive: bool)
    requires lo <= hi <= hi'
    requires FirstOutside(c, lo, hi, inclusive) < hi
    ensures FirstOutside(c, lo, hi', inclusive) == FirstOutside(c, lo, hi, inclusive)
  {
    FirstOutsideUnique(c, lo, hi', inclusive, FirstOutside(c, lo, hi, inclusive));
  }

  /** Because z_0 never passes the test, searching from 0 and from 1 agree. */
  lemma FirstOutsideSkipsZero(c: Complex, hi: nat, inclusive: bool)
    requires 1 <= hi
    ensures FirstOutside(c, 0, hi, inclusive) == FirstOutside(c, 1, hi, inclusive)
    ensures FirstOutside(c, 0, hi, inclusive) >= 1
  {
    StartsInside(c, inclusive);
  }
}
