/**
 * The multiplication kernel of main.go: the `Job` record, the buffered job
 * channel, the `Matrix` whose grid is transposed in place and filled cell by
 * cell, the producer `QueueJobs` and the consumer `Multiply`. Each method is
 * proved against a function of the old state: `Mirrored` for `Transpose`,
 * `QueuedJobs` and `ZeroGrid` for `QueueJobs`, `Drain` for `Multiply`.
 */
module Kernel {
  import opened Grid

  datatype Option<T> = None | Some(value: T)

  /**
   * The work for one destination cell: its coordinates, the two vectors whose
   * inner product goes there, and the matrix it is written into.
   */
  datatype Job = Job(rowIndex: int, colIndex: int, row1: seq<int>, row2: seq<int>, productMatrix: Matrix)

  /**
   * A buffered channel of jobs: `buffer` holds what was sent and not yet
   * received, in FIFO order; once `closed`, nothing more can be sent.
   */
  class JobQueue {
    const capacity: nat
    var buffer: seq<Job>
    var closed: bool

    /** `make(chan Job, capacity)`: empty and open. */
    constructor (capacity: nat)
      ensures this.capacity == capacity && buffer == [] && !closed
    {
      this.capacity := capacity;
      buffer := [];
      closed := false;
    }

    /**
     * `queue <- job`. Sending on a closed channel panics; sending on a full one
     * with no receiver blocks forever; neither is in the model's scope.
     */
    method Send(job: Job)
      requires !closed && |buffer| < capacity
      modifies this
      ensures buffer == old(buffer) + [job] && !closed
    {
      buffer := buffer + [job];
    }

    /** `close(queue)`: the only signal that no more work will arrive. */
    method Close()
      requires !closed
      modifies this
      ensures closed && buffer == old(buffer)
    {
      closed := true;
    }

    /**
     * One receive as `range` performs it: the oldest job, or `None` once the
     * channel is closed and drained. Receiving from an open, empty channel
     * blocks, so the caller must not do it.
     */
    method Receive() returns (r: Option<Job>)
      requires closed || buffer != []
      modifies this
      ensures closed == old(closed)
      ensures r.None? <==> old(buffer) == []
      ensures r.Some? ==> r.value == old(buffer)[0] && buffer == old(buffer)[1..]
      ensures r.None? ==> buffer == old(buffer)
    {
      if buffer == [] {
        r := None;
      } else {
        r := Some(buffer[0]);
        buffer := buffer[1..];
      }
    }
  }

  /** A job can be carried out on grid `g` with dot-product bound `n` without going out of range. */
  predicate Fits(job: Job, g: Rows, n: nat) {
    0 <= job.rowIndex < |g| && 0 <= job.colIndex < |g[job.rowIndex]| &&
    n <= |job.row1| && n <= |job.row2|
  }

  predicate AllFit(jobs: seq<Job>, g: Rows, n: nat) {
    forall k :: 0 <= k < |jobs| ==> Fits(jobs[k], g, n)
  }

  /** The destination cell a job writes. */
  function Cell(job: Job): (int, int) {
    (job.rowIndex, job.colIndex)
  }

  /** No two jobs write the same cell: what lets workers share the destination without a lock. */
  predicate DistinctCells(jobs: seq<Job>) {
    forall k1, k2 :: 0 <= k1 < k2 < |jobs| ==> Cell(jobs[k1]) != Cell(jobs[k2])
  }

  /** The grid after one job has stored its dot product into its cell. */
  function Store(g: Rows, job: Job, n: nat): (r: Rows)
    requires Fits(job, g, n)
    ensures SameShape(r, g)
  {
    g[job.rowIndex := g[job.rowIndex][job.colIndex := Dot(job.row1, job.row2, n)]]
  }

  /** The grid after the jobs have been carried out one after another, first to last. */
  function Drain(g: Rows, jobs: seq<Job>, n: nat): (r: Rows)
    requires AllFit(jobs, g, n)
    ensures SameShape(r, g)
    decreases |jobs|
  {
    if jobs == [] then g
    else Store(Drain(g, jobs[..|jobs| - 1], n), jobs[|jobs| - 1], n)
  }

  /** What `QueueJobs` reads: row i of the left operand for i < n1 and row j of the right one for j < n2. */
  predicate Enumerable(d1: Rows, n1: nat, d2: Rows, n2: nat) {
    (n2 > 0 ==> n1 <= |d1|) && (n1 > 0 ==> n2 <= |d2|)
  }

  /** The jobs for row i of the destination, left to right. */
  function RowJobs(d1: Rows, d2: Rows, i: nat, n2: nat, dest: Matrix): (r: seq<Job>)
    requires (n2 > 0 ==> i < |d1|) && n2 <= |d2|
    ensures |r| == n2
    ensures forall j :: 0 <= j < n2 ==> r[j].rowIndex == i && r[j].colIndex == j && r[j].productMatrix == dest
  {
    seq(n2, j requires 0 <= j < n2 => Job(i, j, d1[i], d2[j], dest))
  }

  /** The jobs for the first `rows` rows of the destination, row after row. */
  function QueuedJobs(d1: Rows, d2: Rows, rows: nat, n2: nat, dest: Matrix): (r: seq<Job>)
    requires Enumerable(d1, rows, d2, n2)
    ensures |r| == rows * n2
  {
    if rows == 0 then []
    else QueuedJobs(d1, d2, rows - 1, n2, dest) + RowJobs(d1, d2, rows - 1, n2, dest)
  }

  lemma RowMajorBound(i: nat, j: nat, n1: nat, n2: nat)
    requires i < n1 && j < n2
    ensures i * n2 + j < n1 * n2
  {
    assert (i + 1) * n2 <= n1 * n2;
  }

  /**
   * Progress of `Transpose` before it swaps cell (row, col): the cells of the
   * leading n×n square in an earlier row or column, and those of row and column
   * `row` before `col`, hold their mirror image; every other cell is as in `d0`.
   */
  ghost predicate MirroredUpTo(g: Rows, d0: Rows, n: nat, row: nat, col: nat)
    requires Transposable(d0, n)
  {
    SameShape(g, d0) &&
    forall i: nat, j: nat :: i < |d0| && j < |d0[i]| ==> CellMirroredUpTo(g, d0, n, row, col, i, j)
  }

  ghost predicate CellMirroredUpTo(g: Rows, d0: Rows, n: nat, row: nat, col: nat, i: nat, j: nat)
    requires Transposable(d0, n) && SameShape(g, d0) && i < |d0| && j < |d0[i]|
  {
    g[i][j] == if Done(i, j, n, row, col) then d0[j][i] else d0[i][j]
  }

  predicate Done(i: nat, j: nat, n: nat, row: nat, col: nat) {
    i < n && j < n && (i < row || j < row || (i == row && j < col) || (j == row && i < col))
  }

  lemma SwapStep(g: Rows, d0: Rows, n: nat, row: nat, col: nat)
    requires Transposable(d0, n) && row < col < n
    requires MirroredUpTo(g, d0, n, row, col)
    ensures MirroredUpTo(g[row := g[row][col := g[col][row]]][col := g[col][row := g[row][col]]], d0, n, row, col + 1)
  {
    var g' := g[row := g[row][col := g[col][row]]][col := g[col][row := g[row][col]]];
    var col' := col + 1;
    assert SameShape(g', d0);
    forall i: nat, j: nat | i < |d0| && j < |d0[i]|
      ensures CellMirroredUpTo(g', d0, n, row, col', i, j)
    {
      assert CellMirroredUpTo(g, d0, n, row, col, i, j);
      if i == row && j == col {
        assert CellMirroredUpTo(g, d0, n, row, col, col, row);
      } else if i == col && j == row {
        assert CellMirroredUpTo(g, d0, n, row, col, row, col);
      }
    }
  }

  lemma NextRow(g: Rows, d0: Rows, n: nat, row: nat)
    requires Transposable(d0, n) && row < n
    requires MirroredUpTo(g, d0, n, row, n)
    ensures MirroredUpTo(g, d0, n, row + 1, row + 2)
  {
    var row', col' := row + 1, row + 2;
    forall i: nat, j: nat | i < |d0| && j < |d0[i]|
      ensures CellMirroredUpTo(g, d0, n, row', col', i, j)
    {
      assert CellMirroredUpTo(g, d0, n, row, n, i, j);
    }
  }

  lemma FullyMirrored(g: Rows, d0: Rows, n: nat)
    requires Transposable(d0, n)
    requires MirroredUpTo(g, d0, n, n, n + 1)
    ensures g == Mirrored(d0, n)
  {
    var m := Mirrored(d0, n);
    forall i | 0 <= i < |d0|
      ensures g[i] == m[i]
    {
      forall j | 0 <= j < |d0[i]|
        ensures g[i][j] == m[i][j]
      {
        assert CellMirroredUpTo(g, d0, n, n, n + 1, i, j);
      }
    }
  }

  class Matrix {
    var data: Rows
    var size: nat
    var jobQueue: JobQueue?

    constructor (data: Rows, size: nat, jobQueue: JobQueue?)
      ensures this.data == data && this.size == size && this.jobQueue == jobQueue
    {
      this.data := data;
      this.size := size;
      this.jobQueue := jobQueue;
    }

    /**
     * Swaps `data[row][col]` with `data[col][row]` for every `row < col < size`:
     * the leading square is mirrored across its diagonal, nothing else moves.
     */
    method Transpose()
      requires Transposable(data, size)
      modifies this`data
      ensures data == Mirrored(old(data), size)
      ensures SameShape(data, old(data))
      ensures forall i, j :: 0 <= i < |data| && 0 <= j < |data[i]| && i < size && j < size ==>
        data[i][j] == old(data)[j][i]
      ensures forall i, j :: 0 <= i < |data| && 0 <= j < |data[i]| && !(i < size && j < size) ==>
        data[i][j] == old(data)[i][j]
    {
      ghost var d0 := data;
      for row := 0 to size
        invariant MirroredUpTo(data, d0, size, row, row + 1)
      {
        for col := row + 1 to size
          invariant MirroredUpTo(data, d0, size, row, col)
        {
          SwapStep(data, d0, size, row, col);
          var temp := data[row][col];
          data := data[row := data[row][col := data[col][row]]];
          data := data[col := data[col][row := temp]];
        }
        NextRow(data, d0, size, row);
      }
      FullyMirrored(data, d0, size);
    }

    /**
     * Drains the job channel: each received job's dot product, bounded by this
     * matrix's own `size`, is stored into its cell of the destination.
     */
    method Multiply()
      requires jobQueue != null && jobQueue.closed
      requires forall k :: 0 <= k < |jobQueue.buffer| ==> jobQueue.buffer[k].productMatrix == this
      requires AllFit(jobQueue.buffer, data, size)
      modifies this`data, jobQueue
      ensures jobQueue.closed && jobQueue.buffer == []
      ensures data == Drain(old(data), old(jobQueue.buffer), size)
    {
      var queue := jobQueue;
      ghost var jobs, start := queue.buffer, data;
      ghost var taken := 0;
      while true
        invariant queue.closed && 0 <= taken <= |jobs| && queue.buffer == jobs[taken..]
        invariant forall k :: 0 <= k < |jobs| ==> jobs[k].productMatrix == this
        invariant AllFit(jobs, start, size)
        invariant data == Drain(start, jobs[..taken], size)
        decreases |queue.buffer|
      {
        var next := queue.Receive();
        if next.None? {
          break;
        }
        var job := next.value;
        var rowIndex, colIndex := job.rowIndex, job.colIndex;
        var row1, row2 := job.row1, job.row2;
        var product := 0;
        for i := 0 to size
          invariant product == Dot(row1, row2, i)
        {
          product := product + row1[i] * row2[i];
        }
        var dest := job.productMatrix;
        dest.data := dest.data[rowIndex := dest.data[rowIndex][colIndex := product]];
        assert jobs[..taken + 1][..taken] == jobs[..taken];
        taken := taken + 1;
      }
      assert jobs[..taken] == jobs;
    }
  }

  /**
   * Allocates the m1.size-row destination and a channel of capacity
   * m1.size * m2.size, queues one job per destination cell in row-major order
   * and closes the channel. The operands are only read.
   */
  method QueueJobs(m1: Matrix, m2: Matrix) returns (product: Matrix)
    requires Enumerable(m1.data, m1.size, m2.data, m2.size)
    ensures fresh(product) && product.jobQueue != null && fresh(product.jobQueue)
    ensures product.size == m1.size && product.data == ZeroGrid(m1.size, m2.size)
    ensures product.jobQueue.capacity == m1.size * m2.size && product.jobQueue.closed
    ensures product.jobQueue.buffer == QueuedJobs(m1.data, m2.data, m1.size, m2.size, product)
  {
    var numJobs := m1.size * m2.size;
    var queue := new JobQueue(numJobs);
    product := new Matrix(seq(m1.size, _ => []), m1.size, queue);
    for i := 0 to m1.size
      invariant product.jobQueue == queue && product.size == m1.size && !queue.closed
      invariant |product.data| == m1.size
      invariant forall r :: 0 <= r < i ==> product.data[r] == seq(m2.size, _ => 0)
      invariant queue.buffer == QueuedJobs(m1.data, m2.data, i, m2.size, product)
    {
      product.data := product.data[i := seq(m2.size, _ => 0)];
      for j := 0 to m2.size
        invariant product.jobQueue == queue && product.size == m1.size && !queue.closed
        invariant |product.data| == m1.size
        invariant forall r :: 0 <= r <= i ==> product.data[r] == seq(m2.size, _ => 0)
        invariant queue.buffer ==
          QueuedJobs(m1.data, m2.data, i, m2.size, product) + RowJobs(m1.data, m2.data, i, m2.size, product)[..j]
      {
        RowMajorBound(i, j, m1.size, m2.size);
        queue.Send(Job(i, j, m1.data[i], m2.data[j], product));
        assert RowJobs(m1.data, m2.data, i, m2.size, product)[..j + 1] ==
          RowJobs(m1.data, m2.data, i, m2.size, product)[..j] + [Job(i, j, m1.data[i], m2.data[j], product)];
      }
      assert RowJobs(m1.data, m2.data, i, m2.size, product)[..m2.size] == RowJobs(m1.data, m2.data, i, m2.size, product);
    }
    queue.Close();
  }
}
