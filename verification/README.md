# Mandelbrot escape-time kernels in Dafny

This project models the core of a Python benchmark. The benchmark computes the escape-time picture of the Mandelbrot set in eight ways:
- pure Python;
- Numba with a complex `z`, with split real/imaginary parts, and with a generalised ufunc;
- NumPy with reset-on-escape;
- NumPy with a boolean mask;
- Numexpr;
- a multiprocessing pool.

Each variant has a per-point **kernel** and a **set function**. The kernel maps a sample `c` and an iteration bound `maxIterations` to a count. The set function lays the counts of a `width × height` grid of samples out in a 2-D array.

The model follows the code as written, including where the variants disagree. They use different sentinels for "never escaped": `maxIterations` or 0. They use different offsets: the count of `z_n` or of `z_{n+1}`. They use different radius tests: the strict `|z| > 2` or the inclusive `|z|² >= 4`, the latter through `|z|² < 4` for "not finished". They also use different array layouts.

One recurrence and one search underlie every contract. The orbit is `z_0 = 0`, `z_{n+1} = z_n² + c` (`MandelbrotOrbit.Orbit`). `MandelbrotOrbit.FirstOutside` gives the first index in `[lo, hi)` whose iterate is outside the radius-2 disc. Each kernel is proved equal to a closed form over these:
- `PurePython.EscapeTime`: the first `n < maxIterations` with `|z_n| > 2`, or `maxIterations` when there is none.
- `Numba.NumbaCount`: the same, with "none" reported as 0.
- `NumbaBetter.ShiftedCount`: the loop starts at `z = c`, so it returns the first escaping `z_{n+1}` less one. Both "none" and "|c| > 2" read 0.
- `NumpyBetter.MaskedCount`: the masked kernels. The test is inclusive, the count is the last pass at which the point was unfinished, and `maxIterations − 1` is remapped to 0.

The layouts live in `Grid` and `SampleGrid`: `np.ravel`, `reshape`, `.T`, and the `realNums + imagNums[:, None] * 1j` grid of samples. Each set function is proved to put the count of sample `(realNums[i], imagNums[j])` at a stated index. In `mandelbrot_set_numpy` and `mandelbrot_set_numexpr`, the ravel of the `height × width` sample grid puts sample `(i, j)` at flat position `j·width + i`. The reshape to `(width, height)` reads that position back as cell `[j][i]` only when `width == height`. The final `.T` then moves it to `[i][j]`, the layout of the other set functions. For other shapes the cell is stated in terms of the raveled position. The driver in `code/main.py:43` requires `width == height`. The multiprocessing script builds the same imag-major list and reshapes it the same way, but has no `.T`. Its result therefore ends at the pre-transpose placement: sample `(i, j)` at `[j][i]`, transposed relative to the other set functions.

## Model

| member | source | states |
|---|---|---|
| ComplexNumbers.Step | code/mandelbrot1_purepython.py:15 | The Mandelbrot map z ↦ z·z + c, built from complex addition and multiplication. |
| ComplexNumbers.Outside | code/mandelbrot2a_numpy_better.py:15 | The radius test on the squared magnitude: strict \|z\|² > 4, the divergence test of the scalar kernels, or inclusive \|z\|² ≥ 4, the negation of the masked kernels' "not finished" test. |
| ComplexNumbers.StepComponents | code/mandelbrot3a_numba_better.py:16-21 | The split update (a² − b² + Re c, 2ab + Im c) is exactly the complex step z² + c. |
| ComplexNumbers.OutsideComponents | code/mandelbrot3_numba.py:15 | The component test a² + b² > 4 is the radius test \|z\| > 2, and a² + b² >= 4 is its inclusive form. |
| MandelbrotOrbit.Orbit | code/mandelbrot1_purepython.py:11-15 | The iterates every kernel walks through: z_0 = 0, and z_{n+1} is z_n² + c. |
| MandelbrotOrbit.FirstOutside | code/mandelbrot1_purepython.py:12-14 | The search result lies in [lo, hi]. When it is below hi, that iterate is outside and no earlier iterate in range is. |
| MandelbrotOrbit.NextIterate | code/mandelbrot3a_numba_betterer.py:17-19 | Updating (real, imag) componentwise from z_n gives z_{n+1}. |
| MandelbrotOrbit.StartsInside | code/mandelbrot1_purepython.py:11-13 | The orbit starts at 0, which never passes either radius test. |
| MandelbrotOrbit.OrbitOne | code/mandelbrot3a_numba_better.py:13-14 | Starting the loop at z = c is starting at the first iterate z_1. |
| MandelbrotOrbit.OrbitOfZero | code/mandelbrot2_numpy.py:17-18 | A position reset to c = 0, z = 0 stays at 0 under every further step. |
| Grid.Ravel | code/mandelbrot2_numpy.py:25 | C-order flattening: the rows are concatenated in order. Its index law is Grid.RavelIndex. |
| Grid.RavelIndex | code/mandelbrot2_numpy.py:25 | Raveling a rows × cols matrix puts cell [a][b] at flat index a·cols + b. |
| Grid.Reshape | code/mandelbrot2_numpy.py:27 | Reshaping a flat array of rows·cols entries gives a rows × cols matrix whose [a][b] is flat entry a·cols + b. |
| Grid.ReshapeRavel | code/mandelbrot2_numpy.py:25-27 | Reshaping a raveled matrix with its own shape gives the matrix back. |
| Grid.Transpose | code/mandelbrot2_numpy.py:28 | The transpose of a rows × cols matrix is cols × rows, with [b][a] equal to the original [a][b]. |
| SampleGrid.PointRows | code/mandelbrot2a_numpy_better.py:25 | The broadcast sample grid is height × width, and its row j, column i is realNums[i] + imagNums[j]·i. |
| SampleGrid.RaveledPoints | code/mandelbrot2_numpy.py:25 | The raveled sample grid has width·height entries, and entry j·width + i is sample (i, j). |
| PurePython.EscapeTime | code/mandelbrot1_purepython.py:10-16 | The pure-Python count: at most maxIterations. A value below the bound is an iterate outside \|z\| > 2, and no earlier iterate is outside. |
| PurePython.MandelbrotPurePython | code/mandelbrot1_purepython.py:10-16 | Returns a count ≤ maxIterations. A count below the bound is the first n with \|z_n\| > 2. The bound itself is returned iff no iterate below it escapes, and the result is never 0 when maxIterations ≥ 1. |
| PurePython.MandelbrotSetPurePython | code/mandelbrot1_purepython.py:18-26 | Returns the axes unchanged and a flat list of width·height counts, real-major. Entry r·height + i is the count of (realNums[r], imagNums[i]). |
| Numba.NumbaCount | code/mandelbrot3_numba.py:12-18 | For maxIterations ≥ 1, a count below maxIterations (0 when maxIterations = 0). A nonzero count r means z_r is the first iterate with \|z\| > 2. The count is 0 iff no iterate below the bound escapes. |
| Numba.MandelbrotNumba | code/mandelbrot3_numba.py:12-18 | The component-test loop returns the count characterised by NumbaCount. |
| Numba.MandelbrotSetNumba | code/mandelbrot3_numba.py:21-29 | Whatever the np.empty contents, the result is a width × height array with [i][j] the count of (realNums[i], imagNums[j]). |
| NumbaBetter.ShiftedCount | code/mandelbrot3a_numba_better.py:12-22 | The count of the loop that starts from z = c is below maxIterations whenever maxIterations ≥ 1. |
| NumbaBetter.ShiftedCountEscapes | code/mandelbrot3a_numba_better.py:15-19 | A positive count r means z_{r+1} escapes and z_1 … z_r do not. |
| NumbaBetter.ShiftedCountZero | code/mandelbrot3a_numba_better.py:18-22 | A count of 0 means \|c\| > 2 or no z_k with 1 ≤ k ≤ maxIterations escapes. Each of those conditions gives 0. |
| NumbaBetter.MandelbrotNumbaBetter | code/mandelbrot3a_numba_better.py:12-22 | The split-component loop starting at z = c returns ShiftedCount of the sample. |
| NumbaBetter.MandelbrotSetNumbaBetter | code/mandelbrot3a_numba_better.py:25-34 | Whatever the np.empty contents, the result is width × height with [i][j] the shifted count of (realNums[i], imagNums[j]). |
| NumbaBetterer.MandelbrotNumbaBetterer3 | code/mandelbrot3a_numba_betterer.py:12-22 | Steps before testing from z = 0, so it tests z_{n+1} at pass n. It returns the same shifted count as mandelbrot_numba_better. |
| NumbaBetterer.MandelbrotNumbaBetterer2 | code/mandelbrot3a_numba_betterer.py:27-30 | The per-row ufunc writes, at every position, the shifted count of that position's sample. |
| NumbaBetterer.MandelbrotSetNumbaBetterer | code/mandelbrot3a_numba_betterer.py:32-37 | Applying the row ufunc to the height × width grid and transposing gives width × height with [i][j] the count of (realNums[i], imagNums[j]). |
| Numpy.ResetAfter | code/mandelbrot2_numpy.py:14-19 | The (c, z, count) of one position after t passes. If some z_k with 1 ≤ k ≤ t escaped, the state is (0, 0, k − 1) for the first such k. Otherwise it is (c, z_t, 0). ResetAdvance proves that the loop produces it; DoneStaysDone states the write-once property. |
| Numpy.ResetAdvance | code/mandelbrot2_numpy.py:14-19 | One pass at one position steps z. On escape, c and z become 0 and the count becomes the pass number. Otherwise the state moves along the orbit. |
| Numpy.DoneStaysDone | code/mandelbrot2_numpy.py:16-19 | Once a position has escaped, no later pass changes its c, z or count. |
| Numpy.MandelbrotNumpy | code/mandelbrot2_numpy.py:10-20 | Every position ends with the shifted count of its own sample, independently of all other positions. |
| Numpy.MandelbrotSetNumpy | code/mandelbrot2_numpy.py:22-28 | Returns a height × width array whose [p][q] is the count of raveled sample q·height + p. When width == height, [i][j] is the count of (realNums[i], imagNums[j]). |
| NumpyBetter.MaskedAfter | code/mandelbrot2a_numpy_better.py:14-17 | The (z, count) of one position after t masked passes. Let f be the first iterate below t with \|z\|² ≥ 4, or t when there is none. Then z is z_f, and the count is the last pass at which the position was unfinished (f − 1, or 0 when f = 0). MaskedAdvance proves, through MaskedPassPreserves, that the loop produces it; FinishedFrozen states that a finished position is never written again. |
| NumpyBetter.MaskedAdvance | code/mandelbrot2a_numpy_better.py:14-17 | One masked pass at one position: while \|z\|² < 4, the count becomes the pass number and z steps. Otherwise nothing changes. |
| NumpyBetter.FinishedFrozen | code/mandelbrot2a_numpy_better.py:15-17 | Once a position has \|z\|² ≥ 4, every later pass leaves its z and count alone. |
| NumpyBetter.CountBeforeRemap | code/mandelbrot2a_numpy_better.py:14-17 | For maxIterations ≥ 1, the pre-remap count is k − 1 for the first iterate z_k with \|z_k\|² ≥ 4 below the bound, and that k is ≥ 1. When no iterate below the bound finishes, the count is maxIterations − 1, the value the remap turns into 0. |
| NumpyBetter.MaskedCount | code/mandelbrot2a_numpy_better.py:19 | After the remap, the count is below maxIterations and never equals maxIterations − 1 (for maxIterations ≥ 2). |
| NumpyBetter.NeverFinishedReadsZero | code/mandelbrot2a_numpy_better.py:19 | A position that never reaches \|z\|² ≥ 4 reads 0 after the remap. |
| NumpyBetter.MaskedCountMeaning | code/mandelbrot2a_numpy_better.py:14-20 | Both directions: a positive count r means z_{r+1} is the first iterate with \|z\|² ≥ 4. When that first iterate z_k has 1 ≤ k < maxIterations, the count is k − 1. |
| NumpyBetter.MaskedPassPreserves | code/mandelbrot4_numexpr.py:15-17 | A whole-array masked pass maps every position's state after t passes to its state after t + 1. |
| NumpyBetter.MandelbrotNumpyBetter | code/mandelbrot2a_numpy_better.py:10-20 | Every position ends with the masked count of its own sample. |
| NumpyBetter.MandelbrotSetNumpyBetter | code/mandelbrot2a_numpy_better.py:22-27 | Kernel on the height × width grid, then transpose: width × height with [i][j] the masked count of (realNums[i], imagNums[j]). |
| Numexpr.MandelbrotNumexpr | code/mandelbrot4_numexpr.py:10-20 | The where-based update produces, at every position, the same masked count as mandelbrot_numpy_better. |
| Numexpr.MandelbrotSetNumexpr | code/mandelbrot4_numexpr.py:22-28 | Returns a height × width array whose [p][q] is the masked count of raveled sample q·height + p. When width == height, [i][j] is the count of (realNums[i], imagNums[j]). |
| Multiprocessing.Mandelbrot | code/mandelbrot6_multiprocessing.py:25-31 | The one-argument worker returns maxIterations iff no iterate below the bound escapes. Otherwise it returns the pure-Python count. |
| Multiprocessing.PoolMap | code/mandelbrot6_multiprocessing.py:42 | Whatever order the workers take the points in, results[k] is the count of points[k]. |
| Multiprocessing.MandelbrotSetMultiprocessing | code/mandelbrot6_multiprocessing.py:37-43 | Imag-major list, pool map, reshape to (width, height). Cell [a][b] is the count of list entry a·height + b. When width == height, [j][i] is the count of (realNums[i], imagNums[j]). |
| CrossKernel.EscapeTimeRaiseBound | code/mandelbrot1_purepython.py:12-14 | A point that escapes below a bound has the same count under every larger bound. |
| CrossKernel.ZeroPointNeverEscapes | code/mandelbrot1_purepython.py:11-16 | c = 0 never escapes. The pure-Python count is maxIterations, and the Numba, shifted and masked counts are 0. |
| CrossKernel.ShiftedFromEscapeTime | code/mandelbrot3a_numba_better.py:13-22 | The shifted count is the pure-Python count under bound maxIterations + 1, less one, or 0 when the point does not escape. |
| CrossKernel.FirstOutsideOffCircle | code/mandelbrot2a_numpy_better.py:15 | Off the circle \|z\| = 2, the inclusive and strict radius tests find the same first iterate. |
| CrossKernel.MaskedFromEscapeTime | code/mandelbrot2a_numpy_better.py:14-19 | Off the circle, the masked count is the pure-Python count less one, or 0 when there is no escape. Equivalently, it is the shifted count with maxIterations − 1 mapped to 0. |
| CrossKernel.BoundaryPoint | code/mandelbrot2a_numpy_better.py:15 | At c = 2 with maxIterations = 3, z_1 lies on the circle. The counts differ: pure Python gives 2, the shifted kernels give 1, and the masked kernels give 0. |

## Left out

- Axis sampling: `np.linspace(xMin, xMax, width)` and its `float32` variants are not modelled. The axis samples `realNums` and `imagNums` are inputs, and every set function is stated for arbitrary sample sequences.
- Floating-point arithmetic: `complex64`, `float32` and `float64` rounding is not modelled; all arithmetic is exact real arithmetic. The cross-kernel equalities therefore hold for exact orbits only. With rounding, a `complex64` kernel and a `float64` kernel can disagree near the boundary.
- `abs(z) > 2` is modelled as `|z|² > 4`, which is the same test over the reals. `z ** 2` in the Numexpr kernel is modelled as `z * z`.
- Integer widths: `maxIterations` is a `nat`. The source's behaviour for a negative bound (an empty loop) and the `int32` signatures of the `guvectorize` kernel are not modelled; every count is at most `maxIterations`. The float64 count arrays are modelled as natural numbers: `escapeCount` in `mandelbrot_numpy_better` and `mandelbrot_numexpr`, and the `np.empty((width, height))` arrays in `mandelbrot_set_numba` and `mandelbrot_set_numba_better`. The latter are modelled as an arbitrary `seq<seq<int>>` initial grid.
- Input checks: the set functions check nothing about their bounds, sizes or iteration count, and neither does the model. The `width == height` assertion in `code/main.py:43` is a precondition of the driver, not of the set functions. The model states each set function's layout for all shapes.
- Parallelism: the `target='parallel'` execution of the ufunc, Numba's JIT compilation and the Numexpr evaluation engine are not modelled. Each is modelled as the sequential computation it performs.
- Process pool: worker processes, pickling and failures are not modelled. The pool is a schedule, a sequence of indices that covers every point, processed in any order.
- `mandelbrot_numpy_better` on a 2-D array is modelled row by row. Each position's count depends only on its own sample, which `NumpyBetter.MandelbrotNumpyBetter` proves for a flat array.
- Multiprocessing module global: the worker reads the module-level `maxIterations`, which the model makes a parameter. The model covers one round under fork semantics, where the workers see the parent's current value. Under a spawn start method, the workers re-import the module and see 80 in every round, and that is not modelled. The `__main__` loop that grows `width`, `height` and `maxIterations` by 20% per round, the timing and the printing are left out.
- Not part of this model:
  - `code/main.py` (the benchmark driver and timing);
  - `code/utils.py`;
  - `code/mandelbrot_visualizer.py` (plotting);
  - `code/mandelbrot5_cython.py` and `code/setup.py`. They only wrap and build a Cython kernel in `c_mandelbrot.pyx`, and that kernel's source is not part of this model.
