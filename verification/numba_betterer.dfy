/** mandelbrot3a_numba_betterer.py: the kernel that starts at 0, steps and then tests,
    the per-row generalised ufunc, and the transposed layout of the set function. */
module NumbaBetterer {
  import opened ComplexNumbers
  import opened MandelbrotOrbit
  import opened Grid
  import opened SampleGrid
  import opened NumbaBetter

  /** mandelbrot_numba_betterer3(c, maxIterations): both new parts are computed from the
      old pair, then z_{n+1} is tested. It returns what mandelbrot_numba_better returns. */
  method MandelbrotNumbaBetterer3(c: Complex, maxIterations: nat) returns (r: nat)
    ensures r == ShiftedCount(c, maxIterations)
  {
    var re, im := 0.0, 0.0;
    StartsInside(c, false);
    for n := 0 to maxIterations
      invariant Complex(re, im) == Orbit(c, n)
      invariant forall k :: 1 <= k <= n ==> !Outside(Orbit(c, k), false)
    {
      NextIterate(c, n, re, im);
      var realNew := re * re - im * im + c.re;
      im := 2.0 * re * im + c.im;
      re := realNew;
      OutsideComponents(Orbit(c, n + 1), re, im);
      if re * re + im * im > 4.0 {
        FirstOutsideUnique(c, 1, maxIterations + 1, false, n + 1);
        return n;
      }
    }
    FirstOutsideUnique(c, 1, maxIterations + 1, false, maxIterations + 1);
    return 0;
  }

  /** The '(n),()->(n)' body of mandelbrot_numba_betterer2 for one row: output[i] is the
      count of c[i], and the output has exactly the row's length. */
  method MandelbrotNumbaBetterer2(c: seq<Complex>, maxIterations: nat) returns (output: seq<nat>)
    ensures |output| == |c|
    ensures forall i :: 0 <= i < |c| ==> output[i] == ShiftedCount(c[i], maxIterations)
  {
    output := [];
    for i := 0 to |c|
      invariant |output| == i
      invariant forall k :: 0 <= k < i ==> output[k] == ShiftedCount(c[k], maxIterations)
    {
      var count := MandelbrotNumbaBetterer3(c[i], maxIterations);
      output := output + [count];
    }
  }

  /** mandelbrot_set_numba_betterer on given axis samples. The ufunc runs over the rows
      of the height × width point array; the transpose puts the count of
      realNums[i] + imagNums[j]·i at [i][j] for any width and height. */
  method MandelbrotSetNumbaBetterer(realNums: seq<real>, imagNums: seq<real>, maxIterations: nat)
    returns (realOut: seq<real>, imagOut: seq<real>, escapeCounts: seq<seq<nat>>)
    ensures realOut == realNums && imagOut == imagNums
    ensures IsMatrix(escapeCounts, |realNums|, |imagNums|)
    ensures forall i, j :: 0 <= i < |realNums| && 0 <= j < |imagNums| ==>
      escapeCounts[i][j] == ShiftedCount(Complex(realNums[i], imagNums[j]), maxIterations)
  {
    var complexNums := PointRows(realNums, imagNums);
    var rows: seq<seq<nat>> := [];
    for j := 0 to |imagNums|
      invariant |rows| == j
      invariant forall a :: 0 <= a < j ==> |rows[a]| == |realNums|
      invariant forall a, i :: 0 <= a < j && 0 <= i < |realNums| ==>
        rows[a][i] == ShiftedCount(Complex(realNums[i], imagNums[a]), maxIterations)
    {
      var row := MandelbrotNumbaBetterer2(complexNums[j], maxIterations);
      rows := rows + [row];
    }
    escapeCounts := Transpose(rows, |imagNums|, |realNums|);
    realOut, imagOut := realNums, imagNums;
  }
}
