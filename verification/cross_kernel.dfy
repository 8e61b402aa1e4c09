/** How the counts of the three loop shapes relate to each other: the test-then-step
    count (pure Python, multiprocessing, and Numba with sentinel 0), the shifted count
    (numba_better, numba_betterer3, numpy) and the masked count (numpy_better,
    numexpr). */
module CrossKernel {
  import opened ComplexNumbers
  import opened MandelbrotOrbit
  import opened PurePython
  import opened Numba
  import opened NumbaBetter
  import opened NumpyBetter

  /** Raising maxIterations does not change the count of a point that escaped below
      the old bound. */
  lemma EscapeTimeRaiseBound(c: Complex, maxIterations: nat, larger: nat)
    requires maxIterations <= larger
    requires EscapeTime(c, maxIterations) < maxIterations
    ensures EscapeTime(c, larger) == EscapeTime(c, maxIterations)
  {
    FirstOutsideRaiseBound(c, 0, maxIterations, larger, false);
  }

  /** c = 0 never escapes: the pure-Python count is maxIterations, and the Numba,
      shifted and masked counts are 0. */
  lemma ZeroPointNeverEscapes(maxIterations: nat)
    ensures EscapeTime(Zero, maxIterations) == maxIterations
    ensures NumbaCount(Zero, maxIterations) == 0
    ensures ShiftedCount(Zero, maxIterations) == 0
    ensures MaskedCount(Zero, maxIterations) == 0
  {
    forall k: nat
      ensures !Outside(Orbit(Zero, k), false) && !Outside(Orbit(Zero, k), true)
    {
      OrbitOfZero(k);
      ZeroInside(false);
      ZeroInside(true);
    }
    assert EscapeTime(Zero, maxIterations) == maxIterations by {
      FirstOutsideUnique(Zero, 0, maxIterations, false, maxIterations);
    }
    assert ShiftedCount(Zero, maxIterations) == 0 by {
      FirstOutsideUnique(Zero, 1, maxIterations + 1, false, maxIterations + 1);
    }
    assert MaskedCount(Zero, maxIterations) == 0 by {
      NeverFinishedReadsZero(Zero, maxIterations);
    }
  }

  /** The shifted count is the pure-Python count for the bound maxIterations + 1, less
      one, and 0 when that count reports no escape. */
  lemma ShiftedFromEscapeTime(c: Complex, maxIterations: nat)
    ensures var e := EscapeTime(c, maxIterations + 1);
            ShiftedCount(c, maxIterations) == if e <= maxIterations then e - 1 else 0
  {
    FirstOutsideSkipsZero(c, maxIterations + 1, false);
  }

  /** When no iterate below the bound lies exactly on the circle |z| = 2, the inclusive
      and the strict radius tests find the same first index. */
  lemma FirstOutsideOffCircle(c: Complex, lo: nat, hi: nat)
    requires lo <= hi
    requires forall k :: lo <= k < hi ==> NormSq(Orbit(c, k)) != 4.0
    ensures FirstOutside(c, lo, hi, true) == FirstOutside(c, lo, hi, false)
  {
    FirstOutsideUnique(c, lo, hi, true, FirstOutside(c, lo, hi, false));
  }

  /** Off the circle |z| = 2, the masked count is the pure-Python count less one when
      the point escaped below the bound and 0 otherwise; equivalently it is the shifted
      count with maxIterations − 1 mapped to 0. */
  lemma MaskedFromEscapeTime(c: Complex, maxIterations: nat)
    requires forall k :: 0 <= k < maxIterations ==> NormSq(Orbit(c, k)) != 4.0
    ensures var e := EscapeTime(c, maxIterations);
            MaskedCount(c, maxIterations) == if e < maxIterations then e - 1 else 0
    ensures var s := ShiftedCount(c, maxIterations);
            MaskedCount(c, maxIterations) == if s == maxIterations - 1 then 0 else s
  {
    FirstOutsideOffCircle(c, 0, maxIterations);
    if maxIterations >= 1 {
      CountBeforeRemap(c, maxIterations);
      FirstOutsideSkipsZero(c, maxIterations + 1, false);
      FirstOutsideExtend(c, 0, maxIterations, false);
    }
  }

  /** The orbit of c = 2 starts 0, 2, 6. */
  lemma BoundaryOrbit(c: Complex)
    requires c == Complex(2.0, 0.0)
    ensures Orbit(c, 1) == Complex(2.0, 0.0)
    ensures Orbit(c, 2) == Complex(6.0, 0.0)
  {
    OrbitOne(c);
    assert Orbit(c, 2) == Step(Orbit(c, 1), c);
    StepComponents(2.0, 0.0, c);
    assert Step(Complex(2.0, 0.0), c) == Complex(6.0, 0.0);
  }

  /** An orbit through 0, 2, 6 is on the circle at z_1 and outside it at z_2. */
  lemma BoundaryTests(c: Complex)
    requires Orbit(c, 1) == Complex(2.0, 0.0) && Orbit(c, 2) == Complex(6.0, 0.0)
    ensures NormSq(Orbit(c, 1)) == 4.0
    ensures !Outside(Orbit(c, 1), false) && Outside(Orbit(c, 1), true)
    ensures Outside(Orbit(c, 2), false)
  {
    OutsideComponents(Orbit(c, 1), 2.0, 0.0);
    OutsideComponents(Orbit(c, 2), 6.0, 0.0);
  }

  /** An orbit whose z_1 lies on the circle |z| = 2 and whose z_2 lies outside it
      escapes at index 2 for the strict test. */
  lemma EscapeAtTwo(c: Complex)
    requires !Outside(Orbit(c, 1), false) && Outside(Orbit(c, 2), false)
    ensures EscapeTime(c, 3) == 2
    ensures ShiftedCount(c, 3) == 1
  {
    StartsInside(c, false);
    FirstOutsideExtend(c, 0, 0, false);
    assert FirstOutside(c, 0, 1, false) == 1;
    FirstOutsideExtend(c, 0, 1, false);
    assert FirstOutside(c, 0, 2, false) == 2;
    FirstOutsideExtend(c, 0, 2, false);
    FirstOutsideSkipsZero(c, 4, false);
    FirstOutsideRaiseBound(c, 0, 3, 4, false);
  }

  /** An orbit whose z_1 passes the inclusive test finishes at index 1 in the masked
      kernels, so its count before the remap is 0. */
  lemma FinishedAtOne(c: Complex)
    requires Outside(Orbit(c, 1), true)
    ensures MaskedCount(c, 3) == 0
  {
    StartsInside(c, true);
    FirstOutsideExtend(c, 0, 0, true);
    assert FirstOutside(c, 0, 1, true) == 1;
    FirstOutsideExtend(c, 0, 1, true);
    FirstOutsideRaiseBound(c, 0, 2, 3, true);
    CountBeforeRemap(c, 3);
  }

  /** On the circle the kernels disagree. For c = 2 and maxIterations = 3 the orbit is
      0, 2, 6: z_1 has |z_1|² = 4 exactly, which finishes the point in the masked
      kernels but is no escape for the strict test, so the pure-Python count is 2, the
      shifted count 1, and the masked count 0. */
  lemma BoundaryPoint()
    ensures NormSq(Orbit(Complex(2.0, 0.0), 1)) == 4.0
    ensures EscapeTime(Complex(2.0, 0.0), 3) == 2
    ensures ShiftedCount(Complex(2.0, 0.0), 3) == 1
    ensures MaskedCount(Complex(2.0, 0.0), 3) == 0
  {
    var c := Complex(2.0, 0.0);
    BoundaryOrbit(c);
    BoundaryTests(c);
    EscapeAtTwo(c);
    FinishedAtOne(c);
  }
}
