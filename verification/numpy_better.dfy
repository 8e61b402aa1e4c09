/** mandelbrot2a_numpy_better.py: the masked kernel that advances only the points that
    are not finished (|z|² < 4), records the last active pass, and finally maps the
    count maxIterations − 1 to 0; and the transposed layout of its set function. */
module NumpyBetter {
  import opened ComplexNumbers
  import opened MandelbrotOrbit
  import opened Grid
  import opened SampleGrid

  /** What the masked kernels keep for one array position: its z and its count. */
  datatype MaskedState = MaskedState(z: Complex, count: nat)

  /** The state of a position with sample c after t passes, before the final remap.
      With f the first k < t at which |z_k|² >= 4 (t when there is none), the position
      advanced through passes 0 .. f − 1, so z is frozen at z_f and the count is the
      last active pass f − 1 (0 when it never was active). */
  function MaskedAfter(c: Complex, t: nat): MaskedState
  {
    var f := FirstOutside(c, 0, t, true);
    MaskedState(Orbit(c, f), if f == 0 then 0 else f - 1)
  }

  /** One pass of the masked loop, seen from one position: when |z|² < 4 the count
      becomes the pass number and z becomes z² + c; otherwise nothing changes. */
  lemma MaskedAdvance(c: Complex, t: nat)
    ensures var s := MaskedAfter(c, t);
            MaskedAfter(c, t + 1) == if NormSq(s.z) < 4.0 then MaskedState(Step(s.z, c), t) else s
  {
    var f := FirstOutside(c, 0, t, true);
    FirstOutsideExtend(c, 0, t, true);
    if f < t {
      assert Outside(Orbit(c, f), true);
    } else {
      assert MaskedAfter(c, t) == MaskedState(Orbit(c, t), if t == 0 then 0 else t - 1);
      assert Step(Orbit(c, t), c) == Orbit(c, t + 1);
    }
  }

  /** A finished position is frozen: once |z|² >= 4 after t passes, every later pass
      leaves its z and its count as they are. */
  lemma FinishedFrozen(c: Complex, t: nat, t': nat)
    requires t <= t'
    requires NormSq(MaskedAfter(c, t).z) >= 4.0
    ensures MaskedAfter(c, t') == MaskedAfter(c, t)
  {
    FirstOutsideUnique(c, 0, t', true, FirstOutside(c, 0, t, true));
  }

  /** Before the remap (maxIterations >= 1): the count is k − 1 for the first k below
      maxIterations with |z_k|² >= 4, and maxIterations − 1 when there is none. */
  lemma CountBeforeRemap(c: Complex, maxIterations: nat)
    requires maxIterations >= 1
    ensures var f := FirstOutside(c, 0, maxIterations, true);
            f >= 1 && MaskedAfter(c, maxIterations).count == f - 1
  {
    FirstOutsideSkipsZero(c, maxIterations, true);
  }

  /** The count the masked kernels return: the pre-remap count, with maxIterations − 1
      replaced by 0. */
  function MaskedCount(c: Complex, maxIterations: nat): (r: nat)
    ensures maxIterations >= 2 ==> r != maxIterations - 1
    ensures maxIterations >= 1 ==> r < maxIterations
  {
    var e := MaskedAfter(c, maxIterations).count;
    if e == maxIterations - 1 then 0 else e
  }

  /** A position that never finished reads 0 after the remap. */
  lemma NeverFinishedReadsZero(c: Complex, maxIterations: nat)
    requires forall k :: 0 <= k < maxIterations ==> NormSq(Orbit(c, k)) < 4.0
    ensures MaskedCount(c, maxIterations) == 0
  {
    if maxIterations >= 1 {
      FirstOutsideUnique(c, 0, maxIterations, true, maxIterations);
      CountBeforeRemap(c, maxIterations);
    }
  }

  /** Both directions of the meaning of a count: a positive count r says z_{r+1} is the
      first iterate with |z|² >= 4; and when the first such iterate z_k has
      1 <= k < maxIterations, the count is k − 1. */
  lemma MaskedCountMeaning(c: Complex, maxIterations: nat, k: nat)
    ensures var r := MaskedCount(c, maxIterations);
            r > 0 ==> Outside(Orbit(c, r + 1), true) && forall j :: 0 <= j <= r ==> !Outside(Orbit(c, j), true)
    ensures 1 <= k < maxIterations && Outside(Orbit(c, k), true) && (forall j :: 0 <= j < k ==> !Outside(Orbit(c, j), true))
            ==> MaskedCount(c, maxIterations) == k - 1
  {
    if maxIterations >= 1 {
      CountBeforeRemap(c, maxIterations);
      if 1 <= k < maxIterations && Outside(Orbit(c, k), true) && (forall j :: 0 <= j < k ==> !Outside(Orbit(c, j), true)) {
        FirstOutsideUnique(c, 0, maxIterations, true, k);
      }
    }
  }

  /** One pass of a masked kernel over a whole array: if every position held its state
      after t passes, and the new arrays take the pass number and the step exactly at
      the positions with |z|² < 4, every position holds its state after t + 1 passes. */
  lemma MaskedPassPreserves(c: seq<Complex>, z: seq<Complex>, e: seq<nat>, z': seq<Complex>, e': seq<nat>, t: nat)
    requires |z| == |e| == |z'| == |e'| == |c|
    requires forall k :: 0 <= k < |c| ==> MaskedState(z[k], e[k]) == MaskedAfter(c[k], t)
    requires forall k :: 0 <= k < |c| ==> e'[k] == if NormSq(z[k]) < 4.0 then t else e[k]
    requires forall k :: 0 <= k < |c| ==> z'[k] == if NormSq(z[k]) < 4.0 then Step(z[k], c[k]) else z[k]
    ensures forall k :: 0 <= k < |c| ==> MaskedState(z'[k], e'[k]) == MaskedAfter(c[k], t + 1)
  {
    forall k | 0 <= k < |c|
      ensures MaskedState(z'[k], e'[k]) == MaskedAfter(c[k], t + 1)
    {
      MaskedAdvance(c[k], t);
      assert MaskedState(z[k], e[k]) == MaskedAfter(c[k], t);
    }
  }

  /** mandelbrot_numpy_better(c, maxIterations) on a flat array: the not-finished mask
      |z|² < 4 is taken before the update, only masked positions get the pass number
      and the step, and the final pass maps maxIterations − 1 to 0. */
  method MandelbrotNumpyBetter(c: seq<Complex>, maxIterations: nat) returns (escapeCount: seq<nat>)
    ensures |escapeCount| == |c|
    ensures forall k :: 0 <= k < |c| ==> escapeCount[k] == MaskedCount(c[k], maxIterations)
  {
    escapeCount := seq(|c|, k requires 0 <= k < |c| => 0);
    var z := seq(|c|, k requires 0 <= k < |c| => Zero);
    for iteration := 0 to maxIterations
      invariant |z| == |escapeCount| == |c|
      invariant forall k :: 0 <= k < |c| ==> MaskedState(z[k], escapeCount[k]) == MaskedAfter(c[k], iteration)
    {
      ghost var z0, e0 := z, escapeCount;
      var notFinished := seq(|c|, k requires 0 <= k < |c| => NormSq(z[k]) < 4.0);
      escapeCount := seq(|c|, k requires 0 <= k < |c| => if notFinished[k] then iteration else escapeCount[k]);
      z := seq(|c|, k requires 0 <= k < |c| => if notFinished[k] then Step(z[k], c[k]) else z[k]);
      MaskedPassPreserves(c, z0, e0, z, escapeCount, iteration);
    }
    escapeCount := seq(|c|, k requires 0 <= k < |c| => if escapeCount[k] == maxIterations - 1 then 0 else escapeCount[k]);
  }

  /** mandelbrot_set_numpy_better on given axis samples. The kernel is element-wise, so
      applying it to the height × width point array is applying it to each row; the
      transpose puts the count of realNums[i] + imagNums[j]·i at [i][j] for any width
      and height. */
  method MandelbrotSetNumpyBetter(realNums: seq<real>, imagNums: seq<real>, maxIterations: nat)
    returns (realOut: seq<real>, imagOut: seq<real>, escapeCounts: seq<seq<nat>>)
    ensures realOut == realNums && imagOut == imagNums
    ensures IsMatrix(escapeCounts, |realNums|, |imagNums|)
    ensures forall i, j :: 0 <= i < |realNums| && 0 <= j < |imagNums| ==>
      escapeCounts[i][j] == MaskedCount(Complex(realNums[i], imagNums[j]), maxIterations)
  {
    var complexNums := PointRows(realNums, imagNums);
    var rows: seq<seq<nat>> := [];
    for j := 0 to |imagNums|
      invariant |rows| == j
      invariant forall a :: 0 <= a < j ==> |rows[a]| == |realNums|
      invariant forall a, i :: 0 <= a < j && 0 <= i < |realNums| ==>
        rows[a][i] == MaskedCount(Complex(realNums[i], imagNums[a]), maxIterations)
    {
      var row := MandelbrotNumpyBetter(complexNums[j], maxIterations);
      rows := rows + [row];
    }
    escapeCounts := Transpose(rows, |imagNums|, |realNums|);
    realOut, imagOut := realNums, imagNums;
  }
}
