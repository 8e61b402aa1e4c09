/** The complex sample points built from the two axis sample sequences. The axis
    samples themselves (numpy.linspace) are inputs of the model. */
module SampleGrid {
  import opened ComplexNumbers
  import opened Grid

  /** `realNums + imagNums[:, None] * 1j`: a height × width array whose row j holds
      realNums[i] + imagNums[j]·i in column i. */
  function PointRows(realNums: seq<real>, imagNums: seq<real>): (g: seq<seq<Complex>>)
    ensures IsMatrix(g, |imagNums|, |realNums|)
    ensures forall j, i :: 0 <= j < |imagNums| && 0 <= i < |realNums| ==>
      g[j][i] == Complex(realNums[i], imagNums[j])
  {
    seq(|imagNums|, j requires 0 <= j < |imagNums| =>
      seq(|realNums|, i requires 0 <= i < |realNums| => Complex(realNums[i], imagNums[j])))
  }

  /** The raveled point array: entry j * width + i is realNums[i] + imagNums[j]·i
      (imaginary part major, real part minor). */
  lemma RaveledPoints(realNums: seq<real>, imagNums: seq<real>)
    ensures |Ravel(PointRows(realNums, imagNums))| == |imagNums| * |realNums|
    ensures forall j, i :: 0 <= j < |imagNums| && 0 <= i < |realNums| ==>
      At(Ravel(PointRows(realNums, imagNums)), |imagNums|, |realNums|, j, i) == Complex(realNums[i], imagNums[j])
  {
    RavelIndex(PointRows(realNums, imagNums), |imagNums|, |realNums|);
  }
}
