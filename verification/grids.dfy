/**
 * Two-dimensional arrays as sequences of rows, with numpy's notion of
 * shape carried explicitly (an array of shape (0, n) still has `n` columns,
 * which a bare `seq<seq<T>>` cannot remember).
 */
module Grids {

  type Grid<T> = seq<seq<T>>

  /** `g` has numpy shape `(rows, cols)`. */
  predicate HasShape<T>(g: Grid<T>, rows: nat, cols: nat) {
    |g| == rows && forall i :: 0 <= i < rows ==> |g[i]| == cols
  }

  /** `np.transpose` of a two-dimensional array of shape `(rows, cols)`. */
  function Transpose<T>(g: Grid<T>, rows: nat, cols: nat): (t: Grid<T>)
    requires HasShape(g, rows, cols)
    ensures HasShape(t, cols, rows)
    ensures forall j, i :: 0 <= j < cols && 0 <= i < rows ==> t[j][i] == g[i][j]
  {
    seq(cols, j requires 0 <= j < cols => seq(rows, i requires 0 <= i < rows => g[i][j]))
  }

  /** Transposing twice gives back the original array. */
  lemma TransposeTwice<T>(g: Grid<T>, rows: nat, cols: nat)
    requires HasShape(g, rows, cols)
    ensures Transpose(Transpose(g, rows, cols), cols, rows) == g
  {
    var t := Transpose(Transpose(g, rows, cols), cols, rows);
    forall i | 0 <= i < rows
      ensures t[i] == g[i]
    {
      assert |t[i]| == |g[i]|;
    }
  }

  /** `np.zeros((rows, cols))`. */
  function Zeros(rows: nat, cols: nat): (z: Grid<int>)
    ensures HasShape(z, rows, cols)
    ensures forall i, j :: 0 <= i < rows && 0 <= j < cols ==> z[i][j] == 0
  {
    seq(rows, i => seq(cols, j => 0))
  }

  /** Every true cell of `a` is true in `b`. */
  predicate Subset(a: Grid<bool>, b: Grid<bool>, rows: nat, cols: nat)
    requires HasShape(a, rows, cols) && HasShape(b, rows, cols)
  {
    forall i, j :: 0 <= i < rows && 0 <= j < cols && a[i][j] ==> b[i][j]
  }

  /** No cell is true in both `a` and `b`. */
  predicate Disjoint(a: Grid<bool>, b: Grid<bool>, rows: nat, cols: nat)
    requires HasShape(a, rows, cols) && HasShape(b, rows, cols)
  {
    forall i, j :: 0 <= i < rows && 0 <= j < cols ==> !(a[i][j] && b[i][j])
  }

  /** No cell of `a` is true. */
  predicate AllFalse(a: Grid<bool>, rows: nat, cols: nat)
    requires HasShape(a, rows, cols)
  {
    forall i, j :: 0 <= i < rows && 0 <= j < cols ==> !a[i][j]
  }
}
