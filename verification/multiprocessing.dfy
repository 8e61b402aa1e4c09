/** mandelbrot6_multiprocessing.py: the scalar kernel with a module-level bound, the
    imaginary-major point list, the order-preserving process-pool map and the final
    reshape to width × height. */
module Multiprocessing {
  import opened ComplexNumbers
  import opened MandelbrotOrbit
  import opened Grid
  import opened SampleGrid
  import opened PurePython

  /** mandelbrot(c), with the module-level maxIterations passed in: the same loop as
      mandelbrot_purepython, so maxIterations on non-escape. */
  method Mandelbrot(c: Complex, maxIterations: nat) returns (r: nat)
    ensures r <= maxIterations
    ensures r == maxIterations <==> forall k :: 0 <= k < maxIterations ==> !Outside(Orbit(c, k), false)
    ensures r == EscapeTime(c, maxIterations)
  {
    r := MandelbrotPurePython(c, maxIterations);
  }

  /** Pool.map(mandelbrot, points). The workers may evaluate the points in any order:
      `schedule` lists positions in the order their results come back (repeats allowed)
      and covers every position. Each result is stored at its own point's position,
      so the list is the same for every schedule. */
  method PoolMap(points: seq<Complex>, maxIterations: nat, schedule: seq<nat>) returns (results: seq<nat>)
    requires forall s :: 0 <= s < |schedule| ==> schedule[s] < |points|
    requires forall k :: 0 <= k < |points| ==> k in schedule
    ensures |results| == |points|
    ensures forall k :: 0 <= k < |points| ==> results[k] == EscapeTime(points[k], maxIterations)
  {
    results := seq(|points|, k requires 0 <= k < |points| => 0);
    for s := 0 to |schedule|
      invariant |results| == |points|
      invariant forall k :: 0 <= k < |points| && k in schedule[..s] ==> results[k] == EscapeTime(points[k], maxIterations)
    {
      var k := schedule[s];
      var count := Mandelbrot(points[k], maxIterations);
      results := results[k := count];
    }
    assert schedule[..|schedule|] == schedule;
  }

  /** The `__main__` computation for one load: the list
      `[complex(real, imag) for imag in imagNums for real in realNums]` (entry
      j * width + i is realNums[i] + imagNums[j]·i), mapped by the pool and reshaped to
      width × height, so cell [a][b] holds the count of list entry a * height + b.
      When width == height, cell [j][i] holds the count of realNums[i] + imagNums[j]·i:
      transposed with respect to the other set functions. */
  method MandelbrotSetMultiprocessing(realNums: seq<real>, imagNums: seq<real>, maxIterations: nat, schedule: seq<nat>)
    returns (escapeCounts: seq<seq<nat>>)
    requires forall s :: 0 <= s < |schedule| ==> schedule[s] < |realNums| * |imagNums|
    requires forall k :: 0 <= k < |realNums| * |imagNums| ==> k in schedule
    ensures IsMatrix(escapeCounts, |realNums|, |imagNums|)
    ensures |Ravel(PointRows(realNums, imagNums))| == |realNums| * |imagNums|
    ensures forall a, b :: 0 <= a < |realNums| && 0 <= b < |imagNums| ==>
      escapeCounts[a][b]
      == EscapeTime(At(Ravel(PointRows(realNums, imagNums)), |realNums|, |imagNums|, a, b), maxIterations)
    ensures |realNums| == |imagNums| ==>
      forall j, i :: 0 <= j < |imagNums| && 0 <= i < |realNums| ==>
        escapeCounts[j][i] == EscapeTime(Complex(realNums[i], imagNums[j]), maxIterations)
  {
    var complexNums := Ravel(PointRows(realNums, imagNums));
    RaveledPoints(realNums, imagNums);
    var counts := PoolMap(complexNums, maxIterations, schedule);
    escapeCounts := Reshape(counts, |realNums|, |imagNums|);
    forall a, b | 0 <= a < |realNums| && 0 <= b < |imagNums|
      ensures escapeCounts[a][b] == EscapeTime(At(complexNums, |realNums|, |imagNums|, a, b), maxIterations)
    {
      var m := a * |imagNums| + b;
      CellInRange(a, b, |realNums|, |imagNums|);
      assert escapeCounts[a][b] == At(counts, |realNums|, |imagNums|, a, b) == counts[m];
      assert At(complexNums, |realNums|, |imagNums|, a, b) == complexNums[m];
    }
  }
}
