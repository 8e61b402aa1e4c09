/** mandelbrot1_purepython.py: the scalar reference kernel (test |z| > 2, then step)
    and the flat, real-major list of escape counts. */
module PurePython {
  import opened ComplexNumbers
  import opened MandelbrotOrbit
  import opened Grid

  /** The count mandelbrot_purepython promises: the first n < maxIterations with
      |z_n| > 2, or maxIterations when there is none. */
  function EscapeTime(c: Complex, maxIterations: nat): (r: nat)
    ensures r <= maxIterations
    ensures r < maxIterations ==> Outside(Orbit(c, r), false)
    ensures forall k :: 0 <= k < r ==> !Outside(Orbit(c, k), false)
  {
    FirstOutside(c, 0, maxIterations, false)
  }

  /** mandelbrot_purepython(c, maxIterations). `abs(z) > 2` is written as |z|² > 4. */
  method MandelbrotPurePython(c: Complex, maxIterations: nat) returns (r: nat)
    ensures r <= maxIterations
    ensures r < maxIterations ==>
      Outside(Orbit(c, r), false) && forall k :: 0 <= k < r ==> !Outside(Orbit(c, k), false)
    ensures r == maxIterations <==> forall k :: 0 <= k < maxIterations ==> !Outside(Orbit(c, k), false)
    ensures maxIterations >= 1 ==> r >= 1
    ensures r == EscapeTime(c, maxIterations)
  {
    var z := Zero;
    for n := 0 to maxIterations
      invariant z == Orbit(c, n)
      invariant forall k :: 0 <= k < n ==> !Outside(Orbit(c, k), false)
    {
      if NormSq(z) > 4.0 {
        StartsInside(c, false);
        FirstOutsideUnique(c, 0, maxIterations, false, n);
        return n;
      }
      z := Step(z, c);
    }
    FirstOutsideUnique(c, 0, maxIterations, false, maxIterations);
    return maxIterations;
  }

  /** mandelbrot_set_purepython on given axis samples: the list holds, at position
      r * height + i, the count of realNums[r] + imagNums[i]·i; the axis samples are
      handed back unchanged. */
  method MandelbrotSetPurePython(realNums: seq<real>, imagNums: seq<real>, maxIterations: nat)
    returns (realOut: seq<real>, imagOut: seq<real>, escapeCounts: seq<nat>)
    ensures realOut == realNums && imagOut == imagNums
    ensures |escapeCounts| == |realNums| * |imagNums|
    ensures forall r, i :: 0 <= r < |realNums| && 0 <= i < |imagNums| ==>
      At(escapeCounts, |realNums|, |imagNums|, r, i) == EscapeTime(Complex(realNums[r], imagNums[i]), maxIterations)
  {
    ghost var expected := seq(|realNums|, r requires 0 <= r < |realNums| =>
      seq(|imagNums|, i requires 0 <= i < |imagNums| => EscapeTime(Complex(realNums[r], imagNums[i]), maxIterations)));
    escapeCounts := [];
    for r := 0 to |realNums|
      invariant escapeCounts == Ravel(expected[..r])
    {
      for i := 0 to |imagNums|
        invariant escapeCounts == Ravel(expected[..r]) + expected[r][..i]
      {
        var count := MandelbrotPurePython(Complex(realNums[r], imagNums[i]), maxIterations);
        escapeCounts := escapeCounts + [count];
      }
      assert expected[..r + 1][..r] == expected[..r];
    }
    assert expected[..|realNums|] == expected;
    RavelIndex(expected, |realNums|, |imagNums|);
    forall r, i | 0 <= r < |realNums| && 0 <= i < |imagNums|
      ensures At(escapeCounts, |realNums|, |imagNums|, r, i) == EscapeTime(Complex(realNums[r], imagNums[i]), maxIterations)
    {
      assert At(escapeCounts, |realNums|, |imagNums|, r, i) == expected[r][i];
    }
    realOut, imagOut := realNums, imagNums;
  }
}
