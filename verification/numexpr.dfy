/** mandelbrot4_numexpr.py: the masked kernel written with `where`, and the same
    ravel / reshape / .T layout as mandelbrot2_numpy.py. */
module Numexpr {
  import opened ComplexNumbers
  import opened Grid
  import opened SampleGrid
  import opened NumpyBetter

  /** mandelbrot_numexpr(c, maxIterations) on a flat array: `z ** 2 + c` is evaluated
      for every position and `where(notFinished, …, z)` keeps it only where |z|² < 4.
      Every position ends with the count mandelbrot_numpy_better gives it. */
  method MandelbrotNumexpr(c: seq<Complex>, maxIterations: nat) returns (escapeCount: seq<nat>)
    ensures |escapeCount| == |c|
    ensures forall k :: 0 <= k < |c| ==> escapeCount[k] == MaskedCount(c[k], maxIterations)
  {
    escapeCount := seq(|c|, k requires 0 <= k < |c| => 0);
    var z := seq(|c|, k requires 0 <= k < |c| => Zero);
    for iteration := 0 to maxIterations
      invariant |z| == |escapeCount| == |c|
      invariant forall k :: 0 <= k < |c| ==> MaskedState(z[k], escapeCount[k]) == MaskedAfter(c[k], iteration)
    {
      ghost var z0, e0 := z, escapeCount;
      var notFinished := seq(|c|, k requires 0 <= k < |c| => NormSq(z[k]) < 4.0);
      escapeCount := seq(|c|, k requires 0 <= k < |c| => if notFinished[k] then iteration else escapeCount[k]);
      var stepped := seq(|c|, k requires 0 <= k < |c| => Step(z[k], c[k]));
      z := seq(|c|, k requires 0 <= k < |c| => if notFinished[k] then stepped[k] else z[k]);
      MaskedPassPreserves(c, z0, e0, z, escapeCount, iteration);
    }
    escapeCount := seq(|c|, k requires 0 <= k < |c| => if escapeCount[k] == maxIterations - 1 then 0 else escapeCount[k]);
  }

  /** mandelbrot_set_numexpr on given axis samples: as for mandelbrot_set_numpy, cell
      [p][q] holds the count of raveled entry q * height + p, which is
      realNums[p] + imagNums[q]·i only when width == height. */
  method MandelbrotSetNumexpr(realNums: seq<real>, imagNums: seq<real>, maxIterations: nat)
    returns (realOut: seq<real>, imagOut: seq<real>, escapeCounts: seq<seq<nat>>)
    ensures realOut == realNums && imagOut == imagNums
    ensures IsMatrix(escapeCounts, |imagNums|, |realNums|)
    ensures |Ravel(PointRows(realNums, imagNums))| == |realNums| * |imagNums|
    ensures forall p, q :: 0 <= p < |imagNums| && 0 <= q < |realNums| ==>
      escapeCounts[p][q]
      == MaskedCount(At(Ravel(PointRows(realNums, imagNums)), |realNums|, |imagNums|, q, p), maxIterations)
    ensures |realNums| == |imagNums| ==>
      forall i, j :: 0 <= i < |realNums| && 0 <= j < |imagNums| ==>
        escapeCounts[i][j] == MaskedCount(Complex(realNums[i], imagNums[j]), maxIterations)
  {
    var complexNums := Ravel(PointRows(realNums, imagNums));
    RaveledPoints(realNums, imagNums);
    var flat := MandelbrotNumexpr(complexNums, maxIterations);
    var grid := Reshape(flat, |realNums|, |imagNums|);
    escapeCounts := Transpose(grid, |realNums|, |imagNums|);
    forall p, q | 0 <= p < |imagNums| && 0 <= q < |realNums|
      ensures escapeCounts[p][q]
              == MaskedCount(At(complexNums, |realNums|, |imagNums|, q, p), maxIterations)
    {
      var m := q * |imagNums| + p;
      CellInRange(q, p, |realNums|, |imagNums|);
      assert escapeCounts[p][q] == grid[q][p] == At(flat, |realNums|, |imagNums|, q, p) == flat[m];
      assert At(complexNums, |realNums|, |imagNums|, q, p) == complexNums[m];
    }
    realOut, imagOut := realNums, imagNums;
  }
}
