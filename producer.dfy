/**
 * What the producer `QueueJobs` promises about the jobs it queues: there are
 * n1 * n2 of them in row-major order, each carries the right pair of operand
 * rows and fits the zero destination, and every destination cell is the
 * target of exactly one of them.
 */
module Producer {
  import opened Grid
  import opened Kernel

  lemma DivModUnique(k: int, n: int, q: int, r: int)
    requires n > 0 && k == q * n + r && 0 <= r < n
    ensures k / n == q && k % n == r
  {
    var q', r' := k / n, k % n;
    assert k == q' * n + r';
    assert (q - q') * n == r' - r;
    if q > q' {
      MulAtLeast(q - q', n);
    } else if q < q' {
      MulAtLeast(q' - q, n);
    }
  }

  lemma MulAtLeast(a: int, n: int)
    requires a >= 1 && n > 0
    ensures a * n >= n
  {
  }

  /** Job number k is the one for cell (k / n2, k % n2). */
  lemma {:induction false} QueuedJobsRowMajor(d1: Rows, d2: Rows, n1: nat, n2: nat, dest: Matrix, k: int)
    requires Enumerable(d1, n1, d2, n2) && 0 <= k < n1 * n2
    ensures n2 > 0 && k / n2 < n1 && k / n2 < |d1| && k % n2 < |d2|
    ensures QueuedJobs(d1, d2, n1, n2, dest)[k] == Job(k / n2, k % n2, d1[k / n2], d2[k % n2], dest)
    decreases n1
  {
    assert n1 > 0 && n2 > 0;
    var prev := QueuedJobs(d1, d2, n1 - 1, n2, dest);
    var last := RowJobs(d1, d2, n1 - 1, n2, dest);
    assert QueuedJobs(d1, d2, n1, n2, dest) == prev + last;
    if k < (n1 - 1) * n2 {
      QueuedJobsRowMajor(d1, d2, n1 - 1, n2, dest, k);
    } else {
      var j := k - (n1 - 1) * n2;
      assert n1 * n2 == (n1 - 1) * n2 + n2;
      DivModUnique(k, n2, n1 - 1, j);
      assert QueuedJobs(d1, d2, n1, n2, dest)[k] == last[j];
    }
  }

  /** Every cell (i, j) of the n1×n2 destination is the target of job i * n2 + j and of no other. */
  lemma QueuedJobsCover(d1: Rows, d2: Rows, n1: nat, n2: nat, dest: Matrix, i: nat, j: nat)
    requires Enumerable(d1, n1, d2, n2) && i < n1 && j < n2
    ensures i * n2 + j < |QueuedJobs(d1, d2, n1, n2, dest)|
    ensures QueuedJobs(d1, d2, n1, n2, dest)[i * n2 + j] == Job(i, j, d1[i], d2[j], dest)
    ensures forall k :: 0 <= k < |QueuedJobs(d1, d2, n1, n2, dest)| && Cell(QueuedJobs(d1, d2, n1, n2, dest)[k]) == (i, j) ==> k == i * n2 + j
  {
    var q := QueuedJobs(d1, d2, n1, n2, dest);
    RowMajorBound(i, j, n1, n2);
    DivModUnique(i * n2 + j, n2, i, j);
    QueuedJobsRowMajor(d1, d2, n1, n2, dest, i * n2 + j);
    forall k | 0 <= k < |q| && Cell(q[k]) == (i, j)
      ensures k == i * n2 + j
    {
      QueuedJobsRowMajor(d1, d2, n1, n2, dest, k);
    }
  }

  /** No two queued jobs share a destination cell. */
  lemma QueuedJobsDistinct(d1: Rows, d2: Rows, n1: nat, n2: nat, dest: Matrix)
    requires Enumerable(d1, n1, d2, n2)
    ensures DistinctCells(QueuedJobs(d1, d2, n1, n2, dest))
  {
    var q := QueuedJobs(d1, d2, n1, n2, dest);
    forall k1, k2 | 0 <= k1 < k2 < |q|
      ensures Cell(q[k1]) != Cell(q[k2])
    {
      QueuedJobsRowMajor(d1, d2, n1, n2, dest, k1);
      QueuedJobsRowMajor(d1, d2, n1, n2, dest, k2);
    }
  }

  /**
   * When every left row and every right row holds at least n entries, each
   * queued job can run on the zero destination with dot-product bound n.
   */
  lemma QueuedJobsFit(d1: Rows, d2: Rows, n1: nat, n2: nat, dest: Matrix, n: nat)
    requires n1 <= |d1| && n2 <= |d2|
    requires forall i :: 0 <= i < n1 ==> n <= |d1[i]|
    requires forall j :: 0 <= j < n2 ==> n <= |d2[j]|
    ensures AllFit(QueuedJobs(d1, d2, n1, n2, dest), ZeroGrid(n1, n2), n)
  {
    var q := QueuedJobs(d1, d2, n1, n2, dest);
    forall k | 0 <= k < |q|
      ensures Fits(q[k], ZeroGrid(n1, n2), n)
    {
      QueuedJobsRowMajor(d1, d2, n1, n2, dest, k);
    }
  }

  /** Every queued job writes into the destination `QueueJobs` allocated. */
  lemma QueuedJobsTarget(d1: Rows, d2: Rows, n1: nat, n2: nat, dest: Matrix)
    requires Enumerable(d1, n1, d2, n2)
    ensures forall k :: 0 <= k < |QueuedJobs(d1, d2, n1, n2, dest)| ==> QueuedJobs(d1, d2, n1, n2, dest)[k].productMatrix == dest
  {
    var q := QueuedJobs(d1, d2, n1, n2, dest);
    forall k | 0 <= k < |q|
      ensures q[k].productMatrix == dest
    {
      QueuedJobsRowMajor(d1, d2, n1, n2, dest, k);
    }
  }
}
