/**
 * The integer grids the kernel works on, as values: Go's `[][]int` becomes a
 * sequence of rows, and a row that `make([][]int, n)` left unallocated is the
 * empty row. This module holds the algebra the imperative code is proved
 * against: the mirror image a transpose produces, the dot product a job
 * computes, and the row-by-column matrix product a multiplication stage
 * promises.
 */
module Grid {

  type Rows = seq<seq<int>>

  /** Both grids have the same number of rows and each row the same length. */
  predicate SameShape(a: Rows, b: Rows) {
    |a| == |b| && forall i :: 0 <= i < |a| ==> |a[i]| == |b[i]|
  }

  /** Every cell `d[i][j]` with `i, j < n` exists. */
  predicate CoversSquare(d: Rows, n: nat) {
    n <= |d| && forall i :: 0 <= i < n ==> n <= |d[i]|
  }

  /**
   * What `Transpose` needs in order not to go out of range: its inner loop
   * never runs when `n <= 1`, otherwise it reads and writes every off-diagonal
   * cell of the leading n×n square.
   */
  predicate Transposable(d: Rows, n: nat) {
    n <= 1 || CoversSquare(d, n)
  }

  /** `rows` rows of `cols` zeros, as Go's `make` leaves them. */
  function ZeroGrid(rows: nat, cols: nat): (r: Rows)
    ensures |r| == rows
    ensures forall i :: 0 <= i < rows ==> |r[i]| == cols
  {
    seq(rows, _ => seq(cols, _ => 0))
  }

  /**
   * The grid mirrored across its main diagonal inside the leading n×n square;
   * every cell outside that square, and the shape, as in `d`.
   */
  function Mirrored(d: Rows, n: nat): (r: Rows)
    requires Transposable(d, n)
    ensures SameShape(r, d)
  {
    seq(|d|, i requires 0 <= i < |d| =>
      seq(|d[i]|, j requires 0 <= j < |d[i]| =>
        if i < n && j < n then d[j][i] else d[i][j]))
  }

  /** The inner product of the first n entries of two vectors. */
  function Dot(a: seq<int>, b: seq<int>, n: nat): (r: int)
    requires n <= |a| && n <= |b|
    ensures (forall k :: 0 <= k < n ==> a[k] == 0) ==> r == 0
    ensures (forall k :: 0 <= k < n ==> a[k] >= 0 && b[k] >= 0) ==> r >= 0
  {
    if n == 0 then 0 else Dot(a, b, n - 1) + a[n - 1] * b[n - 1]
  }

  /** Row i of `a` times column j of `b`, summed over the first k positions. */
  function ProductEntry(a: Rows, b: Rows, i: nat, j: nat, k: nat): int
    requires i < |a| && k <= |a[i]| && k <= |b|
    requires forall t :: 0 <= t < k ==> j < |b[t]|
  {
    if k == 0 then 0 else ProductEntry(a, b, i, j, k - 1) + a[i][k - 1] * b[k - 1][j]
  }

  /** The n×n matrix product of the leading squares of `a` and `b`. */
  function ProductGrid(a: Rows, b: Rows, n: nat): (r: Rows)
    requires CoversSquare(a, n) && CoversSquare(b, n)
    ensures CoversSquare(r, n) && |r| == n
    ensures forall i :: 0 <= i < n ==> |r[i]| == n
  {
    seq(n, i requires 0 <= i < n => seq(n, j requires 0 <= j < n => ProductEntry(a, b, i, j, n)))
  }

  /** Mirroring twice gives back the original grid, cell for cell. */
  lemma MirroredTwice(d: Rows, n: nat)
    requires Transposable(d, n)
    ensures Transposable(Mirrored(d, n), n)
    ensures Mirrored(Mirrored(d, n), n) == d
  {
    var m := Mirrored(d, n);
    var mm := Mirrored(m, n);
    forall i | 0 <= i < |d|
      ensures mm[i] == d[i]
    {
      assert |mm[i]| == |d[i]|;
      forall j | 0 <= j < |d[i]|
        ensures mm[i][j] == d[i][j]
      {
        if i < n && j < n {
          assert mm[i][j] == m[j][i] == d[i][j];
        }
      }
    }
  }

  /**
   * Multiplying row i of `a` with row j of the mirrored `b` is multiplying
   * row i of `a` with column j of `b`: the reason the right operand is
   * transposed before its jobs are queued.
   */
  lemma {:induction false} DotMirrored(a: Rows, b: Rows, n: nat, i: nat, j: nat, k: nat)
    requires CoversSquare(a, n) && CoversSquare(b, n)
    requires i < n && j < n && k <= n
    ensures k <= |Mirrored(b, n)[j]|
    ensures Dot(a[i], Mirrored(b, n)[j], k) == ProductEntry(a, b, i, j, k)
  {
    if k > 0 {
      DotMirrored(a, b, n, i, j, k - 1);
    }
  }

  /** The worked example: [[1,2],[3,4]] times [[5,6],[7,8]] is [[19,22],[43,50]]. */
  lemma ProductExample()
    ensures ProductGrid([[1, 2], [3, 4]], [[5, 6], [7, 8]], 2) == [[19, 22], [43, 50]]
  {
    var p := ProductGrid([[1, 2], [3, 4]], [[5, 6], [7, 8]], 2);
    assert p[0] == [19, 22];
    assert p[1] == [43, 50];
  }
}
