/** mandelbrot2_numpy.py: the whole-array kernel that steps every point, then resets
    the points that are done to c = z = 0, and the ravel / reshape / .T layout. */
module Numpy {
  import opened ComplexNumbers
  import opened MandelbrotOrbit
  import opened Grid
  import opened SampleGrid
  import opened NumbaBetter

  /** What mandelbrot_numpy keeps for one array position: its (possibly reset) c,
      its z, and its escape count. */
  datatype PointState = PointState(c: Complex, z: Complex, count: nat)

  /** The state of a position whose sample is c0 after t passes of the loop: once some
      z_k with 1 <= k <= t has escaped, the position was reset at pass k − 1 and holds
      count k − 1; otherwise it still carries c0 and z_t, with count 0. */
  function ResetAfter(c0: Complex, t: nat): PointState
  {
    var k := FirstOutside(c0, 1, t + 1, false);
    if k <= t then PointState(Zero, Zero, k - 1) else PointState(c0, Orbit(c0, t), 0)
  }

  /** One pass of the loop body, seen from one position: z := z² + c, and when
      |z| > 2 the position's c and z become 0 and its count becomes the pass number. */
  lemma {:induction false} ResetAdvance(c0: Complex, t: nat)
    ensures var s := ResetAfter(c0, t);
            var z := Step(s.z, s.c);
            ResetAfter(c0, t + 1)
            == if Outside(z, false) then PointState(Zero, Zero, t) else PointState(s.c, z, s.count)
  {
    var k := FirstOutside(c0, 1, t + 1, false);
    if k <= t {
      FirstOutsideRaiseBound(c0, 1, t + 1, t + 2, false);
      assert ResetAfter(c0, t) == PointState(Zero, Zero, k - 1);
      assert ResetAfter(c0, t + 1) == PointState(Zero, Zero, k - 1);
      StepFromZero(Zero);
      ZeroInside(false);
    } else {
      FirstOutsideExtend(c0, 1, t + 1, false);
      assert ResetAfter(c0, t) == PointState(c0, Orbit(c0, t), 0);
      assert Step(Orbit(c0, t), c0) == Orbit(c0, t + 1);
    }
  }

  /** A position that is done stays done: 0² + 0 = 0 never passes |z| > 2, so its c, z
      and count are never written again. */
  lemma DoneStaysDone(c0: Complex, t: nat, t': nat)
    requires t <= t'
    requires FirstOutside(c0, 1, t + 1, false) <= t
    ensures ResetAfter(c0, t') == ResetAfter(c0, t)
  {
    FirstOutsideRaiseBound(c0, 1, t + 1, t' + 1, false);
  }

  /** mandelbrot_numpy(c, maxIterations) on a flat array. Every position ends with the
      count of its own sample alone, the one mandelbrot_numba_better computes. */
  method MandelbrotNumpy(c: seq<Complex>, maxIterations: nat) returns (escapeCount: seq<nat>)
    ensures |escapeCount| == |c|
    ensures forall k :: 0 <= k < |c| ==> escapeCount[k] == ShiftedCount(c[k], maxIterations)
  {
    var cs := c;
    escapeCount := seq(|c|, k requires 0 <= k < |c| => 0);
    var z := seq(|c|, k requires 0 <= k < |c| => Zero);
    for iteration := 0 to maxIterations
      invariant |cs| == |z| == |escapeCount| == |c|
      invariant forall k :: 0 <= k < |c| ==> PointState(cs[k], z[k], escapeCount[k]) == ResetAfter(c[k], iteration)
    {
      ghost var before := seq(|c|, k requires 0 <= k < |c| => PointState(cs[k], z[k], escapeCount[k]));
      z := seq(|c|, k requires 0 <= k < |c| => Step(z[k], cs[k]));
      var done := seq(|c|, k requires 0 <= k < |c| => NormSq(z[k]) > 4.0);
      cs := seq(|c|, k requires 0 <= k < |c| => if done[k] then Zero else cs[k]);
      z := seq(|c|, k requires 0 <= k < |c| => if done[k] then Zero else z[k]);
      escapeCount := seq(|c|, k requires 0 <= k < |c| => if done[k] then iteration else escapeCount[k]);
      forall k | 0 <= k < |c|
        ensures PointState(cs[k], z[k], escapeCount[k]) == ResetAfter(c[k], iteration + 1)
      {
        ResetAdvance(c[k], iteration);
        assert before[k] == ResetAfter(c[k], iteration);
      }
    }
  }

  /** mandelbrot_set_numpy on given axis samples. The height × width points are raveled
      (entry j * width + i), the counts are reshaped to width × height and transposed,
      so cell [p][q] holds the count of raveled entry q * height + p. Only when
      width == height is that realNums[p] + imagNums[q]·i. */
  method MandelbrotSetNumpy(realNums: seq<real>, imagNums: seq<real>, maxIterations: nat)
    returns (realOut: seq<real>, imagOut: seq<real>, escapeCounts: seq<seq<nat>>)
    ensures realOut == realNums && imagOut == imagNums
    ensures IsMatrix(escapeCounts, |imagNums|, |realNums|)
    ensures |Ravel(PointRows(realNums, imagNums))| == |realNums| * |imagNums|
    ensures forall p, q :: 0 <= p < |imagNums| && 0 <= q < |realNums| ==>
      escapeCounts[p][q]
      == ShiftedCount(At(Ravel(PointRows(realNums, imagNums)), |realNums|, |imagNums|, q, p), maxIterations)
    ensures |realNums| == |imagNums| ==>
      forall i, j :: 0 <= i < |realNums| && 0 <= j < |imagNums| ==>
        escapeCounts[i][j] == ShiftedCount(Complex(realNums[i], imagNums[j]), maxIterations)
  {
    var complexNums := Ravel(PointRows(realNums, imagNums));
    RaveledPoints(realNums, imagNums);
    var flat := MandelbrotNumpy(complexNums, maxIterations);
    var grid := Reshape(flat, |realNums|, |imagNums|);
    escapeCounts := Transpose(grid, |realNums|, |imagNums|);
    forall p, q | 0 <= p < |imagNums| && 0 <= q < |realNums|
      ensures escapeCounts[p][q]
              == ShiftedCount(At(complexNums, |realNums|, |imagNums|, q, p), maxIterations)
    {
      var m := q * |imagNums| + p;
      CellInRange(q, p, |realNums|, |imagNums|);
      assert escapeCounts[p][q] == grid[q][p] == At(flat, |realNums|, |imagNums|, q, p) == flat[m];
      assert At(complexNums, |realNums|, |imagNums|, q, p) == complexNums[m];
    }
    realOut, imagOut := realNums, imagNums;
  }
}
