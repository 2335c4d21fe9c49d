/**
 * What draining a job queue does to the destination grid, and why the worker
 * pool may drain it in any order: because no two jobs share a cell, each cell
 * ends up holding its own job's dot product whatever order the jobs are
 * carried out in, and however they are shared among workers.
 */
module Consumer {
  import opened Grid
  import opened Kernel

  /** Draining s and then t is draining s + t. */
  lemma {:induction false} DrainConcat(g: Rows, s: seq<Job>, t: seq<Job>, n: nat)
    requires AllFit(s + t, g, n)
    ensures AllFit(s, g, n) && AllFit(t, Drain(g, s, n), n)
    ensures Drain(g, s + t, n) == Drain(Drain(g, s, n), t, n)
    decreases |t|
  {
    assert forall k :: 0 <= k < |s| ==> s[k] == (s + t)[k];
    assert forall k :: 0 <= k < |t| ==> t[k] == (s + t)[|s| + k];
    if t != [] {
      var t' := t[..|t| - 1];
      assert (s + t)[..|s + t| - 1] == s + t';
      assert forall k :: 0 <= k < |s + t'| ==> (s + t')[k] == (s + t)[k];
      DrainConcat(g, s, t', n);
    } else {
      assert s + t == s;
    }
  }

  /** Two jobs for different cells can be carried out in either order. */
  lemma StoreCommutes(g: Rows, a: Job, b: Job, n: nat)
    requires Fits(a, g, n) && Fits(b, g, n) && Cell(a) != Cell(b)
    ensures Store(Store(g, a, n), b, n) == Store(Store(g, b, n), a, n)
  {
    var ab, ba := Store(Store(g, a, n), b, n), Store(Store(g, b, n), a, n);
    forall i | 0 <= i < |g|
      ensures ab[i] == ba[i]
    {
      forall j | 0 <= j < |g[i]|
        ensures ab[i][j] == ba[i][j]
      {
      }
    }
  }

  /** A job whose cell no job of s writes can be carried out before s or after it. */
  lemma {:induction false} StorePastAll(g: Rows, a: Job, s: seq<Job>, n: nat)
    requires Fits(a, g, n) && AllFit(s, g, n)
    requires forall k :: 0 <= k < |s| ==> Cell(s[k]) != Cell(a)
    ensures AllFit(s, Store(g, a, n), n) && Fits(a, Drain(g, s, n), n)
    ensures Drain(Store(g, a, n), s, n) == Store(Drain(g, s, n), a, n)
    decreases |s|
  {
    if s != [] {
      var s', last := s[..|s| - 1], s[|s| - 1];
      StorePastAll(g, a, s', n);
      StoreCommutes(Drain(g, s', n), a, last, n);
    }
  }

  /** Taking the same job out of two equal multisets of jobs leaves equal multisets. */
  lemma RemoveSame(j: Job, rest: seq<Job>, before: seq<Job>, after: seq<Job>)
    requires multiset([j] + rest) == multiset(before + [j] + after)
    ensures multiset(rest) == multiset(before + after)
  {
    assert multiset([j] + rest) == multiset([j]) + multiset(rest);
    assert multiset(before + [j] + after) == multiset(before + [j]) + multiset(after);
    assert multiset(before + [j]) == multiset(before) + multiset([j]);
    assert multiset(before + after) == multiset(before) + multiset(after);
    forall x
      ensures multiset(rest)[x] == multiset(before + after)[x]
    {
      assert multiset([j] + rest)[x] == multiset(before + [j] + after)[x];
    }
  }

  /** A rearrangement of jobs that fit a grid fits it too. */
  lemma PermutationFits(g: Rows, jobs: seq<Job>, perm: seq<Job>, n: nat)
    requires AllFit(jobs, g, n) && multiset(perm) == multiset(jobs)
    ensures AllFit(perm, g, n)
  {
    forall k | 0 <= k < |perm|
      ensures Fits(perm[k], g, n)
    {
      assert perm[k] in multiset(jobs);
      var m :| 0 <= m < |jobs| && jobs[m] == perm[k];
    }
  }

  /** Jobs that fit a grid fit every grid of the same shape. */
  lemma FitsAcross(jobs: seq<Job>, g: Rows, h: Rows, n: nat)
    requires AllFit(jobs, g, n) && SameShape(g, h)
    ensures AllFit(jobs, h, n)
  {
  }

  lemma AllFitConcat(s: seq<Job>, t: seq<Job>, g: Rows, n: nat)
    ensures AllFit(s + t, g, n) <==> AllFit(s, g, n) && AllFit(t, g, n)
  {
    assert forall k :: 0 <= k < |s| ==> (s + t)[k] == s[k];
    assert forall k :: 0 <= k < |t| ==> (s + t)[|s| + k] == t[k];
    if AllFit(s, g, n) && AllFit(t, g, n) {
      forall k | 0 <= k < |s + t|
        ensures Fits((s + t)[k], g, n)
      {
        if k >= |s| {
          assert (s + t)[k] == t[k - |s|];
        }
      }
    }
  }

  /** A job whose cell none of `before` writes can be carried out ahead of them. */
  lemma MoveToFront(g: Rows, j: Job, before: seq<Job>, after: seq<Job>, n: nat)
    requires AllFit(before + [j] + after, g, n)
    requires forall k :: 0 <= k < |before| ==> Cell(before[k]) != Cell(j)
    ensures Fits(j, g, n) && AllFit(before + after, Store(g, j, n), n)
    ensures Drain(g, before + [j] + after, n) == Drain(Store(g, j, n), before + after, n)
  {
    AllFitConcat(before + [j], after, g, n);
    AllFitConcat(before, [j], g, n);
    assert [j][0] == j;
    var g1 := Store(g, j, n);
    FitsAcross(before, g, g1, n);
    FitsAcross(after, g, g1, n);
    AllFitConcat(before, after, g1, n);
    DrainConcat(g, before + [j], after, n);
    DrainConcat(g, before, [j], n);
    StorePastAll(g, j, before, n);
    DrainConcat(g1, before, after, n);
  }

  /**
   * With distinct cells, the jobs after the first still have distinct cells,
   * and none of them (however rearranged) writes the first job's cell.
   */
  lemma FirstIsApart(jobs: seq<Job>, before: seq<Job>, after: seq<Job>)
    requires DistinctCells(jobs) && jobs != []
    requires multiset(jobs[1..]) == multiset(before + after)
    ensures DistinctCells(jobs[1..])
    ensures forall k :: 0 <= k < |before| ==> Cell(before[k]) != Cell(jobs[0])
  {
    var rest := jobs[1..];
    forall k1, k2 | 0 <= k1 < k2 < |rest|
      ensures Cell(rest[k1]) != Cell(rest[k2])
    {
      assert rest[k1] == jobs[k1 + 1] && rest[k2] == jobs[k2 + 1];
    }
    forall k | 0 <= k < |before|
      ensures Cell(before[k]) != Cell(jobs[0])
    {
      assert before[k] in multiset(before + after);
      var m :| 0 <= m < |rest| && rest[m] == before[k];
      assert jobs[m + 1] == before[k];
    }
  }

  /**
   * Order independence: when the jobs' cells are pairwise distinct, carrying
   * them out in any other order (any permutation) leaves the same grid.
   */
  lemma {:induction false} DrainAnyOrder(g: Rows, jobs: seq<Job>, perm: seq<Job>, n: nat)
    requires AllFit(jobs, g, n) && DistinctCells(jobs)
    requires multiset(perm) == multiset(jobs)
    ensures AllFit(perm, g, n)
    ensures Drain(g, perm, n) == Drain(g, jobs, n)
    decreases |jobs|
  {
    PermutationFits(g, jobs, perm, n);
    if jobs == [] {
      assert |perm| == |multiset(perm)| == 0;
    } else {
      var j, rest := jobs[0], jobs[1..];
      assert jobs == [j] + rest;
      assert j in multiset(perm);
      var p :| 0 <= p < |perm| && perm[p] == j;
      var before, after := perm[..p], perm[p + 1..];
      assert perm == before + [j] + after;
      RemoveSame(j, rest, before, after);
      FirstIsApart(jobs, before, after);
      MoveToFront(g, j, before, after, n);
      DrainConcat(g, [j], rest, n);
      assert Drain(g, [j], n) == Store(g, j, n);
      DrainAnyOrder(Store(g, j, n), rest, before + after, n);
    }
  }

  /** After draining, the cell of each job holds that job's dot product. */
  lemma {:induction false} DrainAt(g: Rows, jobs: seq<Job>, n: nat, k: nat)
    requires AllFit(jobs, g, n) && DistinctCells(jobs) && k < |jobs|
    ensures Drain(g, jobs, n)[jobs[k].rowIndex][jobs[k].colIndex] == Dot(jobs[k].row1, jobs[k].row2, n)
    decreases |jobs|
  {
    var init := jobs[..|jobs| - 1];
    if k < |init| {
      assert init[k] == jobs[k];
      DrainAt(g, init, n, k);
      assert Cell(jobs[k]) != Cell(jobs[|jobs| - 1]);
    }
  }

  /** After draining, a cell that no job targets holds what it held before. */
  lemma {:induction false} DrainElsewhere(g: Rows, jobs: seq<Job>, n: nat, r: int, c: int)
    requires AllFit(jobs, g, n) && 0 <= r < |g| && 0 <= c < |g[r]|
    requires forall k :: 0 <= k < |jobs| ==> Cell(jobs[k]) != (r, c)
    ensures Drain(g, jobs, n)[r][c] == g[r][c]
    decreases |jobs|
  {
    if jobs != [] {
      var init := jobs[..|jobs| - 1];
      assert forall k :: 0 <= k < |init| ==> init[k] == jobs[k];
      DrainElsewhere(g, init, n, r, c);
      assert Cell(jobs[|jobs| - 1]) != (r, c);
    }
  }
}
