/** Row-major two-dimensional arrays as sequences of rows, and the NumPy layout
    operations the set functions use: ravel, reshape and transpose (.T). */
module Grid {

  /** g has `rows` rows of `cols` entries each. */
  predicate IsMatrix<T>(g: seq<seq<T>>, rows: nat, cols: nat)
  {
    |g| == rows && forall a :: 0 <= a < rows ==> |g[a]| == cols
  }

  /** Cell (a, b) of a rows × cols array lies inside its flattened form. */
  lemma CellInRange(a: nat, b: nat, rows: nat, cols: nat)
    requires a < rows && b < cols
    ensures a * cols + b < rows * cols
  {
    RowInRange(a, rows, cols);
  }

  /** Row a of a rows × cols array ends no later than the flattened array does. */
  lemma RowInRange(a: nat, rows: nat, cols: nat)
    requires a < rows
    ensures a * cols + cols <= rows * cols
  {
    assert a * cols + cols == (a + 1) * cols;
    assert (a + 1) * cols <= rows * cols;
  }

  /** Entry (a, b) of flat read as a rows × cols array in C order, i.e. flat[a * cols + b]. */
  function At<T>(flat: seq<T>, rows: nat, cols: nat, a: nat, b: nat): T
    requires |flat| == rows * cols && a < rows && b < cols
  {
    CellInRange(a, b, rows, cols);
    flat[a * cols + b]
  }

  /** numpy.ravel in C order: the rows concatenated, first row first. */
  function Ravel<T>(g: seq<seq<T>>): seq<T>
  {
    if |g| == 0 then [] else Ravel(g[..|g| - 1]) + g[|g| - 1]
  }

  /** Entry (a, b) of a rows × cols array sits at a * cols + b once raveled. */
  lemma {:induction false} RavelIndex<T>(g: seq<seq<T>>, rows: nat, cols: nat)
    requires IsMatrix(g, rows, cols)
    ensures |Ravel(g)| == rows * cols
    ensures forall a, b :: 0 <= a < rows && 0 <= b < cols ==> At(Ravel(g), rows, cols, a, b) == g[a][b]
  {
    if rows > 0 {
      var init := g[..rows - 1];
      RavelIndex(init, rows - 1, cols);
      assert (rows - 1) * cols + cols == rows * cols;
      forall a, b | 0 <= a < rows && 0 <= b < cols
        ensures At(Ravel(g), rows, cols, a, b) == g[a][b]
      {
        if a < rows - 1 {
          CellInRange(a, b, rows - 1, cols);
          assert init[a] == g[a];
          assert At(Ravel(init), rows - 1, cols, a, b) == g[a][b];
        } else {
          assert a * cols + b == (rows - 1) * cols + b;
        }
      }
    }
  }

  /** numpy reshape((rows, cols)) in C order. */
  function Reshape<T>(flat: seq<T>, rows: nat, cols: nat): (g: seq<seq<T>>)
    requires |flat| == rows * cols
    ensures IsMatrix(g, rows, cols)
    ensures forall a, b :: 0 <= a < rows && 0 <= b < cols ==> g[a][b] == At(flat, rows, cols, a, b)
  {
    seq(rows, a requires 0 <= a < rows => RowOf(flat, rows, cols, a))
  }

  /** Row a of flat viewed as a rows × cols array. */
  function RowOf<T>(flat: seq<T>, rows: nat, cols: nat, a: nat): (row: seq<T>)
    requires |flat| == rows * cols && a < rows
    ensures |row| == cols
    ensures forall b :: 0 <= b < cols ==> row[b] == At(flat, rows, cols, a, b)
  {
    RowInRange(a, rows, cols);
    flat[a * cols .. a * cols + cols]
  }

  /** Reshaping a raveled array gives it back: the two are inverse. */
  lemma ReshapeRavel<T>(g: seq<seq<T>>, rows: nat, cols: nat)
    requires IsMatrix(g, rows, cols)
    ensures |Ravel(g)| == rows * cols
    ensures Reshape(Ravel(g), rows, cols) == g
  {
    RavelIndex(g, rows, cols);
    var h := Reshape(Ravel(g), rows, cols);
    forall a | 0 <= a < rows
      ensures h[a] == g[a]
    {
      assert forall b :: 0 <= b < cols ==> h[a][b] == g[a][b];
    }
  }

  /** The transpose (.T) of a rows × cols array: entry (a, b) moves to (b, a). */
  function Transpose<T>(g: seq<seq<T>>, rows: nat, cols: nat): (t: seq<seq<T>>)
    requires IsMatrix(g, rows, cols)
    ensures IsMatrix(t, cols, rows)
    ensures forall a, b :: 0 <= a < rows && 0 <= b < cols ==> t[b][a] == g[a][b]
  {
    seq(cols, b requires 0 <= b < cols => seq(rows, a requires 0 <= a < rows => g[a][b]))
  }

  /** Transposing twice gives the array back. */
  lemma TransposeTwice<T>(g: seq<seq<T>>, rows: nat, cols: nat)
    requires IsMatrix(g, rows, cols)
    ensures Transpose(Transpose(g, rows, cols), cols, rows) == g
  {
    var t := Transpose(Transpose(g, rows, cols), cols, rows);
    forall a | 0 <= a < rows
      ensures t[a] == g[a]
    {
      assert forall b :: 0 <= b < cols ==> t[a][b] == g[a][b];
    }
  }
}
