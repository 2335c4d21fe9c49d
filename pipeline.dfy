/**
 * The calling convention of main.go: the right operand is transposed, the
 * product's jobs are queued, a pool of workers drains the queue, and only then
 * is the product read. Workers run here one after another; by
 * `Consumer.DrainAnyOrder` any other order of their writes leaves the same
 * grid. Generating the operands, timing and printing are not modelled, so the
 * operands are parameters.
 */
module Pipeline {
  import opened Grid
  import opened Kernel
  import opened Producer
  import opened Consumer

  /**
   * Draining the jobs `QueueJobs` builds from a zero destination writes every
   * cell (i, j) once, with the dot product of left row i and right row j.
   */
  lemma DrainedQueueDots(d1: Rows, d2: Rows, n1: nat, n2: nat, dest: Matrix, n: nat)
    requires n1 <= |d1| && n2 <= |d2|
    requires forall i :: 0 <= i < n1 ==> n <= |d1[i]|
    requires forall j :: 0 <= j < n2 ==> n <= |d2[j]|
    ensures AllFit(QueuedJobs(d1, d2, n1, n2, dest), ZeroGrid(n1, n2), n)
    ensures forall i, j :: 0 <= i < n1 && 0 <= j < n2 ==>
      Drain(ZeroGrid(n1, n2), QueuedJobs(d1, d2, n1, n2, dest), n)[i][j] == Dot(d1[i], d2[j], n)
  {
    var q := QueuedJobs(d1, d2, n1, n2, dest);
    QueuedJobsFit(d1, d2, n1, n2, dest, n);
    QueuedJobsDistinct(d1, d2, n1, n2, dest);
    forall i, j | 0 <= i < n1 && 0 <= j < n2
      ensures Drain(ZeroGrid(n1, n2), q, n)[i][j] == Dot(d1[i], d2[j], n)
    {
      QueuedJobsCover(d1, d2, n1, n2, dest, i, j);
      DrainAt(ZeroGrid(n1, n2), q, n, i * n2 + j);
    }
  }

  /**
   * With the right operand mirrored first, as main does, draining the queue
   * leaves exactly the matrix product of the two operands.
   */
  lemma DrainedQueueIsProduct(a: Rows, b: Rows, n: nat, dest: Matrix)
    requires CoversSquare(a, n) && CoversSquare(b, n)
    ensures Enumerable(a, n, Mirrored(b, n), n)
    ensures AllFit(QueuedJobs(a, Mirrored(b, n), n, n, dest), ZeroGrid(n, n), n)
    ensures Drain(ZeroGrid(n, n), QueuedJobs(a, Mirrored(b, n), n, n, dest), n) == ProductGrid(a, b, n)
  {
    var bt := Mirrored(b, n);
    DrainedQueueDots(a, bt, n, n, dest, n);
    var r := Drain(ZeroGrid(n, n), QueuedJobs(a, bt, n, n, dest), n);
    var p := ProductGrid(a, b, n);
    forall i | 0 <= i < n
      ensures r[i] == p[i]
    {
      forall j | 0 <= j < n
        ensures r[i][j] == p[i][j]
      {
        DotMirrored(a, b, n, i, j, n);
      }
    }
  }

  /** The worked example run through the kernel: [[1,2],[3,4]] times [[5,6],[7,8]]. */
  lemma WorkedExample(dest: Matrix)
    ensures Enumerable([[1, 2], [3, 4]], 2, Mirrored([[5, 6], [7, 8]], 2), 2)
    ensures AllFit(QueuedJobs([[1, 2], [3, 4]], Mirrored([[5, 6], [7, 8]], 2), 2, 2, dest), ZeroGrid(2, 2), 2)
    ensures Drain(ZeroGrid(2, 2), QueuedJobs([[1, 2], [3, 4]], Mirrored([[5, 6], [7, 8]], 2), 2, 2, dest), 2)
      == [[19, 22], [43, 50]]
  {
    DrainedQueueIsProduct([[1, 2], [3, 4]], [[5, 6], [7, 8]], 2, dest);
    ProductExample();
  }

  /**
   * The worker loop of one stage followed by the wait: each of `workers`
   * workers runs `Multiply` on the product; the first drains the closed
   * queue, the rest find it empty.
   */
  method RunWorkers(x: Matrix, workers: nat)
    requires x.jobQueue != null && x.jobQueue.closed
    requires forall k :: 0 <= k < |x.jobQueue.buffer| ==> x.jobQueue.buffer[k].productMatrix == x
    requires AllFit(x.jobQueue.buffer, x.data, x.size)
    modifies x`data, x.jobQueue
    ensures x.jobQueue.closed
    ensures workers > 0 ==> x.jobQueue.buffer == [] && x.data == Drain(old(x.data), old(x.jobQueue.buffer), x.size)
    ensures workers == 0 ==> x.jobQueue.buffer == old(x.jobQueue.buffer) && x.data == old(x.data)
  {
    for w := 0 to workers
      invariant x.jobQueue.closed
      invariant w > 0 ==> x.jobQueue.buffer == [] && x.data == Drain(old(x.data), old(x.jobQueue.buffer), x.size)
      invariant w == 0 ==> x.jobQueue.buffer == old(x.jobQueue.buffer) && x.data == old(x.data)
    {
      x.Multiply();
    }
  }

  /** Everything a stage needs to know about the jobs it queues, with `bt` the transposed right operand. */
  lemma StageJobs(a: Rows, bt: Rows, n: nat, dest: Matrix)
    requires CoversSquare(a, n) && CoversSquare(bt, n)
    ensures Enumerable(a, n, bt, n)
    ensures forall k :: 0 <= k < |QueuedJobs(a, bt, n, n, dest)| ==> QueuedJobs(a, bt, n, n, dest)[k].productMatrix == dest
    ensures AllFit(QueuedJobs(a, bt, n, n, dest), ZeroGrid(n, n), n)
    ensures Drain(ZeroGrid(n, n), QueuedJobs(a, bt, n, n, dest), n) == ProductGrid(a, Mirrored(bt, n), n)
  {
    var b := Mirrored(bt, n);
    MirroredTwice(bt, n);
    DrainedQueueIsProduct(a, b, n, dest);
    QueuedJobsTarget(a, bt, n, n, dest);
  }

  /**
   * One stage of main: queue the jobs for `a` times the already transposed
   * `b`, let the pool drain them, wait. The product is `a` times the matrix
   * whose transpose `b` holds.
   */
  method Stage(a: Matrix, b: Matrix, workers: nat) returns (x: Matrix)
    requires workers > 0 && b.size == a.size
    requires CoversSquare(a.data, a.size) && CoversSquare(b.data, a.size)
    ensures fresh(x) && x.jobQueue != null && fresh(x.jobQueue) && x.size == a.size
    ensures x.jobQueue.closed && x.jobQueue.buffer == []
    ensures x.data == ProductGrid(a.data, Mirrored(b.data, a.size), a.size)
  {
    x := QueueJobs(a, b);
    StageJobs(a.data, b.data, a.size, x);
    RunWorkers(x, workers);
  }

  /**
   * The three stages of main: X = A × B and Y = C × D, then Y is transposed
   * and Z = X × Y. `workers` stands for the pool size `runtime.NumCPU()`.
   */
  method Run(a: Matrix, b: Matrix, c: Matrix, d: Matrix, workers: nat) returns (z: Matrix)
    requires workers > 0
    requires b.size == a.size && c.size == a.size && d.size == a.size
    requires CoversSquare(a.data, a.size) && CoversSquare(b.data, a.size)
    requires CoversSquare(c.data, a.size) && CoversSquare(d.data, a.size)
    requires b != a && b != c && b != d && d != a && d != c
    modifies b`data, d`data
    ensures fresh(z) && z.size == a.size
    ensures z.data == ProductGrid(ProductGrid(a.data, old(b.data), a.size), ProductGrid(c.data, old(d.data), a.size), a.size)
    ensures b.data == Mirrored(old(b.data), a.size) && d.data == Mirrored(old(d.data), a.size)
  {
    var n := a.size;
    ghost var bOld, dOld := b.data, d.data;
    b.Transpose();
    d.Transpose();
    MirroredTwice(bOld, n);
    MirroredTwice(dOld, n);
    var x := Stage(a, b, workers);
    var y := Stage(c, d, workers);
    ghost var yData := y.data;
    y.Transpose();
    MirroredTwice(yData, n);
    z := Stage(x, y, workers);
  }
}
