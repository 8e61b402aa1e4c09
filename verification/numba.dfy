/** mandelbrot3_numba.py: the scalar kernel compiled with Numba (same loop as the
    pure-Python one, but 0 on non-escape) and the width × height nested-loop fill. */
module Numba {
  import opened ComplexNumbers
  import opened MandelbrotOrbit
  import opened Grid
  import opened PurePython

  /** The count mandelbrot_numba promises: the pure-Python count with the
      non-escape sentinel maxIterations replaced by 0. */
  function NumbaCount(c: Complex, maxIterations: nat): (r: nat)
    ensures maxIterations >= 1 ==> r < maxIterations
    ensures r != 0 ==> Outside(Orbit(c, r), false) && forall k :: 0 <= k < r ==> !Outside(Orbit(c, k), false)
    ensures r == 0 <==> forall k :: 0 <= k < maxIterations ==> !Outside(Orbit(c, k), false)
  {
    StartsInside(c, false);
    var n := EscapeTime(c, maxIterations);
    if n == maxIterations then 0 else n
  }

  /** mandelbrot_numba(c, maxIterations): test |z|² > 4, then step; 0 when the loop ends. */
  method MandelbrotNumba(c: Complex, maxIterations: nat) returns (r: nat)
    ensures r == NumbaCount(c, maxIterations)
  {
    var z := Zero;
    for n := 0 to maxIterations
      invariant z == Orbit(c, n)
      invariant forall k :: 0 <= k < n ==> !Outside(Orbit(c, k), false)
    {
      if z.re * z.re + z.im * z.im > 4.0 {
        FirstOutsideUnique(c, 0, maxIterations, false, n);
        return n;
      }
      z := Step(z, c);
    }
    FirstOutsideUnique(c, 0, maxIterations, false, maxIterations);
    return 0;
  }

  /** mandelbrot_set_numba on given axis samples. `np.empty((width, height))` is the
      arbitrary initial grid `empty`; every cell [i][j] is overwritten with the count of
      realNums[i] + imagNums[j]·i, so the result does not depend on `empty`. */
  method MandelbrotSetNumba(realNums: seq<real>, imagNums: seq<real>, maxIterations: nat, empty: seq<seq<int>>)
    returns (realOut: seq<real>, imagOut: seq<real>, escapeCounts: seq<seq<int>>)
    requires IsMatrix(empty, |realNums|, |imagNums|)
    ensures realOut == realNums && imagOut == imagNums
    ensures IsMatrix(escapeCounts, |realNums|, |imagNums|)
    ensures forall i, j :: 0 <= i < |realNums| && 0 <= j < |imagNums| ==>
      escapeCounts[i][j] == NumbaCount(Complex(realNums[i], imagNums[j]), maxIterations)
  {
    ghost var expected := seq(|realNums|, i requires 0 <= i < |realNums| =>
      seq(|imagNums|, j requires 0 <= j < |imagNums| => NumbaCount(Complex(realNums[i], imagNums[j]), maxIterations) as int));
    escapeCounts := empty;
    for i := 0 to |realNums|
      invariant IsMatrix(escapeCounts, |realNums|, |imagNums|)
      invariant escapeCounts[..i] == expected[..i]
    {
      for j := 0 to |imagNums|
        invariant IsMatrix(escapeCounts, |realNums|, |imagNums|)
        invariant escapeCounts[..i] == expected[..i]
        invariant escapeCounts[i][..j] == expected[i][..j]
      {
        var count := MandelbrotNumba(Complex(realNums[i], imagNums[j]), maxIterations);
        escapeCounts := escapeCounts[i := escapeCounts[i][j := count]];
      }
      assert escapeCounts[i] == expected[i];
    }
    assert escapeCounts == expected;
    realOut, imagOut := realNums, imagNums;
  }
}
