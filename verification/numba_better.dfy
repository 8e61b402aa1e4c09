/** mandelbrot3a_numba_better.py: the component-wise kernel that starts its orbit at
    z_1 = c, so that step n examines z_{n+1}, and the width × height fill. */
module NumbaBetter {
  import opened ComplexNumbers
  import opened MandelbrotOrbit
  import opened Grid

  /** The count the shifted kernels promise: k − 1 for the first k in [1, maxIterations]
      with |z_k| > 2, and 0 when there is none. */
  function ShiftedCount(c: Complex, maxIterations: nat): (r: nat)
    ensures maxIterations >= 1 ==> r < maxIterations
  {
    var k := FirstOutside(c, 1, maxIterations + 1, false);
    if k <= maxIterations then k - 1 else 0
  }

  /** A positive count r means z_{r+1} is the first iterate from z_1 on with |z| > 2. */
  lemma ShiftedCountEscapes(c: Complex, maxIterations: nat)
    ensures var r := ShiftedCount(c, maxIterations);
            r > 0 ==> Outside(Orbit(c, r + 1), false) && forall k :: 1 <= k <= r ==> !Outside(Orbit(c, k), false)
  {
  }

  /** 0 is ambiguous: it is returned both when |c| > 2 (z_1 = c escapes at once) and
      when no z_k with 1 <= k <= maxIterations escapes, and only then. */
  lemma ShiftedCountZero(c: Complex, maxIterations: nat)
    ensures ShiftedCount(c, maxIterations) == 0 ==>
      Outside(c, false) || forall k :: 1 <= k <= maxIterations ==> !Outside(Orbit(c, k), false)
    ensures Outside(c, false) ==> ShiftedCount(c, maxIterations) == 0
    ensures (forall k :: 1 <= k <= maxIterations ==> !Outside(Orbit(c, k), false)) ==> ShiftedCount(c, maxIterations) == 0
  {
    OrbitOne(c);
    var k := FirstOutside(c, 1, maxIterations + 1, false);
    if k <= maxIterations {
      assert Outside(Orbit(c, k), false);
      if Outside(c, false) {
        FirstOutsideUnique(c, 1, maxIterations + 1, false, 1);
      }
    }
  }

  /** mandelbrot_numba_better(cReal, cImag, maxIterations). The pair (re, im) holds
      z_{n+1}; the new imaginary part is computed from the old real part and the new
      real part from the squares taken before the update. */
  method MandelbrotNumbaBetter(cReal: real, cImag: real, maxIterations: nat) returns (r: nat)
    ensures r == ShiftedCount(Complex(cReal, cImag), maxIterations)
  {
    ghost var c := Complex(cReal, cImag);
    var re, im := cReal, cImag;
    OrbitOne(c);
    for n := 0 to maxIterations
      invariant Complex(re, im) == Orbit(c, n + 1)
      invariant forall k :: 1 <= k <= n ==> !Outside(Orbit(c, k), false)
    {
      NextIterate(c, n + 1, re, im);
      OutsideComponents(Orbit(c, n + 1), re, im);
      var realNew := re * re;
      var imagNew := im * im;
      if realNew + imagNew > 4.0 {
        FirstOutsideUnique(c, 1, maxIterations + 1, false, n + 1);
        return n;
      }
      im := 2.0 * re * im + cImag;
      re := realNew - imagNew + cReal;
    }
    FirstOutsideUnique(c, 1, maxIterations + 1, false, maxIterations + 1);
    return 0;
  }

  /** mandelbrot_set_numba_better on given axis samples: every cell [i][j] of the
      arbitrary initial grid `empty` is overwritten with the count of
      realNums[i] + imagNums[j]·i. */
  method MandelbrotSetNumbaBetter(realNums: seq<real>, imagNums: seq<real>, maxIterations: nat, empty: seq<seq<int>>)
    returns (realOut: seq<real>, imagOut: seq<real>, escapeCounts: seq<seq<int>>)
    requires IsMatrix(empty, |realNums|, |imagNums|)
    ensures realOut == realNums && imagOut == imagNums
    ensures IsMatrix(escapeCounts, |realNums|, |imagNums|)
    ensures forall i, j :: 0 <= i < |realNums| && 0 <= j < |imagNums| ==>
      escapeCounts[i][j] == ShiftedCount(Complex(realNums[i], imagNums[j]), maxIterations)
  {
    ghost var expected := seq(|realNums|, i requires 0 <= i < |realNums| =>
      seq(|imagNums|, j requires 0 <= j < |imagNums| => ShiftedCount(Complex(realNums[i], imagNums[j]), maxIterations) as int));
    escapeCounts := empty;
    for i := 0 to |realNums|
      invariant IsMatrix(escapeCounts, |realNums|, |imagNums|)
      invariant escapeCounts[..i] == expected[..i]
    {
      for j := 0 to |imagNums|
        invariant IsMatrix(escapeCounts, |realNums|, |imagNums|)
        invariant escapeCounts[..i] == expected[..i]
        invariant escapeCounts[i][..j] == expected[i][..j]
      {
        var count := MandelbrotNumbaBetter(realNums[i], imagNums[j], maxIterations);
        escapeCounts := escapeCounts[i := escapeCounts[i][j := count]];
      }
      assert escapeCounts[i] == expected[i];
    }
    assert escapeCounts == expected;
    realOut, imagOut := realNums, imagNums;
  }
}
