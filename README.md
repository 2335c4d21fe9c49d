# Parallel integer matrix multiplication, modelled in Dafny

This project models the kernel of `go-matrix-multiplication` (`main.go`). The
program splits a matrix multiplication into one job per output cell. Each job
carries a row of the left operand, a row of the already transposed right
operand, and the destination matrix. The producer `QueueJobs` fills a
buffered channel with every job and then closes it. Each worker in a pool runs
`Matrix.Multiply`: it drains the channel, computes each job's dot product, and
stores it in the job's cell. `main` calls `Transpose` on the right operand
before queueing, so each cell ends up holding a row of the left operand times
a column of the right one.

Layout:

- `grid.dfy`, module `Grid`: grids as values (`seq<seq<int>>`). It defines
  the mirror image (`Mirrored`), the dot product (`Dot`) and the
  row-by-column product (`ProductEntry`, `ProductGrid`) that the code is
  proved against.
- `kernel.dfy`, module `Kernel`: the `Job` datatype, the channel as class
  `JobQueue` (`Send`, `Close`, `Receive`), class `Matrix` with the in-place
  `Transpose` and the consumer `Multiply`, and the producer `QueueJobs`. Each
  method's `ensures` ties its new state to a function of its inputs or old
  state. `Transpose` is tied to `Mirrored`, `QueueJobs` to `QueuedJobs` and
  `ZeroGrid`, and `Multiply` to `Drain`, the grid after the jobs are carried
  out one by one.
- `producer.dfy`, module `Producer`: what the queued jobs are. There are
  `n1 * n2` of them in row-major order. Job `k` is for cell
  `(k / n2, k % n2)`. Every cell is the target of exactly one job.
- `consumer.dfy`, module `Consumer`: what draining does. Each job's cell
  receives its dot product, and every other cell is left alone. Because the
  cells are distinct, any permutation of the jobs leaves the same grid.
- `pipeline.dfy`, module `Pipeline`: `main`'s calling convention. A stage is
  queue, run the workers, wait. During a stage, draining the queue produces
  the true matrix product. `Run` models the three stages X = A×B, Y = C×D,
  Z = X×Y.

The concurrent worker pool appears in two places. `RunWorkers` runs the
workers one after another: the first drains the closed queue, and the others
find it empty. `Consumer.DrainAnyOrder` states the property that makes real
concurrency harmless. The channel gives each job to exactly one worker, and
the workers' writes reach the grid in some interleaving. Any such
interleaving is a permutation of the queue, and every permutation gives the
same grid as the sequential drain.

## Model

| member | source | states |
|---|---|---|
| `Kernel.Matrix.Transpose` | main.go:41-49 | The new grid is the old one mirrored inside the leading `size`×`size` square: cell (i, j) there holds old (j, i), so the diagonal is unchanged. The shape is kept and every cell outside the square is unchanged. The only requirement is that the square be addressable when `size >= 2`, because for `size <= 1` the loop touches nothing. |
| `Grid.MirroredTwice` | main.go:41-49 | Transposing twice restores the original grid exactly. The mirrored grid can itself be transposed. |
| `Grid.Mirrored` | main.go:41-49 | The mirror image has the same shape as the grid it mirrors. |
| `Kernel.JobQueue.constructor` | main.go:58 | A new buffered channel is empty and open with the given capacity. |
| `Kernel.JobQueue.Send` | main.go:73 | Sending appends the job at the back. It is allowed only while the channel is open and has room. |
| `Kernel.JobQueue.Close` | main.go:77 | Closing keeps the buffered jobs. After it, nothing can be sent. |
| `Kernel.JobQueue.Receive` | main.go:82 | A receive yields the oldest job and removes it. It yields nothing exactly when the channel is closed and empty. It is not allowed on an open, empty channel, where it would block. |
| `Kernel.Matrix.constructor` | main.go:54-59 | A matrix literal holds the given grid, size and channel. |
| `Kernel.QueueJobs` | main.go:51-79 | The result is a fresh matrix with `Size == m1.Size` and an `m1.Size`×`m2.Size` grid of zeros. Its fresh channel has capacity `m1.Size * m2.Size`, is closed, and holds exactly `QueuedJobs(m1, m2)`. Every job targets the new matrix. The operands are only read. (In Go the jobs point at `QueueJobs`' local `productMatrix` and the caller gets a copy of it; the model makes the two one object, see "## Left out".) |
| `Kernel.QueuedJobs` | main.go:61-75 | The producer enqueues exactly `rows * m2.Size` jobs. |
| `Producer.QueuedJobsRowMajor` | main.go:61-75 | Job number k has `RowIndex == k / m2.Size`, `ColIndex == k % m2.Size`, `Row1 == m1.Data[RowIndex]`, `Row2 == m2.Data[ColIndex]`, and the destination as `ProductMatrix`. |
| `Producer.QueuedJobsCover` | main.go:61-71 | Every destination cell (i, j) is the target of job `i * m2.Size + j` and of no other job, so each cell is written exactly once. |
| `Producer.QueuedJobsDistinct` | main.go:64-71 | No two queued jobs share a `(RowIndex, ColIndex)` pair. |
| `Producer.QueuedJobsFit` | main.go:64-71 | When all operand rows have at least n entries, every job addresses a cell of the zero destination and has vectors long enough for a dot product bounded by n. |
| `Producer.QueuedJobsTarget` | main.go:65-70 | Every queued job points at the matrix `QueueJobs` allocated. |
| `Kernel.Store` | main.go:88-93 | Storing one job's result keeps the grid's shape. |
| `Kernel.Drain` | main.go:82-94 | Draining any sequence of jobs keeps the grid's shape. |
| `Kernel.Matrix.Multiply` | main.go:81-95 | The closed queue ends empty. The grid becomes `Drain(old grid, old queue, Size)`: in queue order, each job's cell is set to `sum_{i < Size} Row1[i] * Row2[i]`. The bound is the receiver's own `Size`. It needs each job's cell in range and both vectors at least `Size` long. |
| `Consumer.DrainAt` | main.go:82-93 | If the jobs have distinct cells, each job's cell ends holding that job's dot product after the drain. |
| `Consumer.DrainElsewhere` | main.go:82-93 | A cell that no job targets keeps its old value: a drain changes no other cell. |
| `Consumer.DrainConcat` | main.go:82-94 | Draining s and then t is the same as draining s + t. This is how one worker's drain splits across receives. |
| `Consumer.StorePastAll` | main.go:88-93 | A job whose cell none of the jobs in s writes gives the same grid whether it runs before s or after it. |
| `Consumer.MoveToFront` | main.go:82-93 | A job can be moved ahead of earlier jobs that write other cells without changing the drained grid. |
| `Consumer.DrainAnyOrder` | main.go:161-171 | If the jobs have distinct cells, every permutation of them (any worker schedule or split among consumers) fits the grid and leaves the same grid as the sequential drain. |
| `Grid.Dot` | main.go:88-91 | The reference definition of one job's accumulation: the sum of `a[k] * b[k]` over `k < n`, built from the back. It is 0 when the first n entries of `a` are zero, and non-negative when they and those of `b` are non-negative. `Consumer.DrainAt` and `Pipeline.DrainedQueueDots` state the drained cells in terms of it. |
| `Kernel.RowJobs` | main.go:64-74 | The jobs queued for row i number exactly `m2.Size`. Job j among them is for cell (i, j) and targets the destination. They are the reference for the inner loop of `QueueJobs`, whose invariant says the channel holds a prefix of them. |
| `Grid.DotMirrored` | main.go:88-91 | Row i of A dotted with row j of the mirrored B equals row i of A times column j of B. This is why `main` transposes the right operand first. |
| `Pipeline.DrainedQueueDots` | main.go:61-93 | Draining `QueueJobs`' jobs over the zero grid sets every cell (i, j) to `Dot(m1.Data[i], m2.Data[j], n)`. |
| `Pipeline.DrainedQueueIsProduct` | main.go:61-93 | If the right operand was transposed before queueing, the drained destination equals the standard matrix product `a × b`. |
| `Pipeline.WorkedExample` | main.go:61-93 | [[1,2],[3,4]] times [[5,6],[7,8]], computed through queue and drain, gives [[19,22],[43,50]]. |
| `Pipeline.RunWorkers` | main.go:161-171 | After `workers > 0` workers have each run `Multiply` and the wait returns, the queue is empty, the channel is closed, and the grid is the drained grid. With no workers, nothing changes. |
| `Pipeline.Stage` | main.go:158-171 | Queueing `a` against an already transposed `b` and running the pool gives a fresh matrix of size n, whose fresh channel ends closed and empty. That matrix is `a` times the matrix whose transpose `b` holds. |
| `Pipeline.Run` | main.go:135-211 | The whole pipeline leaves Z = (A×B)×(C×D) with B and D transposed in place. A and C are unchanged. |

## Left out

- `GenerateMatrix` (main.go:28-39) fills cells from `math/rand`, so it is nondeterministic. The operands are parameters of `Pipeline.Run` instead.
- `Matrix.String` (main.go:97-106) is diagnostic formatting and is not modelled. Neither is the `Name` field.
- Command-line parsing, `runtime.NumCPU`, the `time` measurements and all printing in `main` (main.go:108-214) are not modelled. The pool size is the `workers` parameter.
- Goroutines, `sync.WaitGroup` and concurrent receives (main.go:161-206) are not modelled. Workers run one after another, and `Consumer.DrainAnyOrder` covers every other schedule.
- Go's 64-bit `int` wrap-around is not modelled. Sums and products are mathematical integers.
- Go slices are values here. A `Job`'s `Row1`/`Row2` are copies of the operand rows rather than aliases of them. This makes no difference in the program, because no operand changes while its jobs are pending.
- `Size` is a `nat`. A negative size, which makes Go's `make` panic, is not modelled.
- Go panics (index out of range, send on a closed channel) and blocking (send on a full channel, receive on a nil or open, empty channel) become preconditions. They are not modelled as error paths.
- `Kernel.QueueJobs` returns one `Matrix` object that its jobs point at. In Go, the jobs hold `&productMatrix`, a pointer to the function's local (main.go:70), and `QueueJobs` returns that struct by value (main.go:78). So the receiver of `x.Multiply()` (main.go:158, 166) is a copy, not the struct the jobs point at. The copy shares the `Data` row slices, the channel and `Size` with the local, so a write through `job.ProductMatrix.Data[r][c]` (main.go:93) shows up in `x.Data`. The model merges the local and the returned copy into one object. It does not model two structs that alias through shared slices.
- `Kernel.Matrix.Multiply` requires every queued job to target the receiving matrix. This stands for the Go's sharing of `Data` between the local and the returned copy. A queue whose jobs write into an unrelated matrix is not modelled.
- `Pipeline.Run` queues Y's jobs after X's workers have finished. `main` queues both before running either pool. The two stages share no matrix, so the order does not matter.
- Size 0 is accepted like any other size and yields an empty product; nothing rejects it, as in the code.
- The dot-product bound is the destination's `Size`, as the code has it, not the vectors' length; for the equal-sized square operands `main` uses the two coincide.
