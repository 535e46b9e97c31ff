/** The chunks of a job: non-empty, disjoint, covering, and few. */
module FabricChunks {
  import opened Common
  import opened FabricModel

  ghost predicate JobOk(j: Job) {
    j.func != 0 && j.count >= 2 && j.chunk > 0 && j.n == DivCeil(j.count, j.chunk)
  }

  lemma DivCeilBounds(a: nat, b: nat)
    requires a > 0 && b > 0
    ensures DivCeil(a, b) > 0
    ensures (DivCeil(a, b) - 1) * b < a <= DivCeil(a, b) * b
  {
    var q, r := a / b, a % b;
    assert a == q * b + r;
    if r == 0 {
      assert a == q * b;
      assert (q - 1) * b == q * b - b;
    } else {
      assert (q + 1) * b == q * b + b;
    }
  }

  lemma MulMono(x: nat, y: nat, b: nat)
    requires x <= y
    ensures x * b <= y * b
  {
  }

  /** Every chunk of a job is a non-empty range inside it. */
  lemma ChunkNonEmpty(j: Job, i: nat)
    requires JobOk(j) && i < j.n
    ensures Lo(j, i) < Hi(j, i) <= j.count
  {
    DivCeilBounds(j.count, j.chunk);
    MulMono(i, j.n - 1, j.chunk);
    assert (i + 1) * j.chunk == i * j.chunk + j.chunk;
  }

  /** Two chunks share no row. */
  lemma ChunksDisjoint(j: Job, i: nat, k: nat)
    requires JobOk(j) && i < k
    ensures Hi(j, i) <= Lo(j, k)
  {
    MulMono(i + 1, k, j.chunk);
  }

  /** The chunk a row belongs to. */
  function ChunkOf(j: Job, row: nat): nat
    requires j.chunk > 0
  {
    row / j.chunk
  }

  /** Every row is in a chunk of the job. */
  lemma ChunksCover(j: Job, row: nat)
    requires JobOk(j) && row < j.count
    ensures ChunkOf(j, row) < j.n
    ensures Lo(j, ChunkOf(j, row)) <= row < Hi(j, ChunkOf(j, row))
  {
    var i := row / j.chunk;
    assert row == i * j.chunk + row % j.chunk;
    assert (i + 1) * j.chunk == i * j.chunk + j.chunk;
    DivCeilBounds(j.count, j.chunk);
    if i >= j.n { MulMono(j.n, i, j.chunk); }
  }

  /** What `parallel_split` publishes is a proper job of at most four chunks a
      core: the bootstrap processor and its helpers. */
  lemma MadeJob(func: nat, ctx: nat, count: nat, helpers: nat)
    requires func != 0 && count >= 2
    ensures var j := MakeJob(func, ctx, count, helpers);
            JobOk(j) && 1 <= j.n <= 4 * (helpers + 1)
  {
    var want := (helpers + 1) * 4;
    var least := DivCeil(count, want);
    var j := MakeJob(func, ctx, count, helpers);
    DivCeilBounds(count, want);
    DivCeilBounds(count, j.chunk);
    if j.n > want {
      MulMono(want, j.n - 1, j.chunk);
      MulMono(least, j.chunk, want);
    }
  }

  /** How big the chunks are, and how many: four a core if that makes them of eight rows
      or more, else of eight; no bigger than that takes, and no more than cover the rows. */
  lemma ChunkSize(func: nat, ctx: nat, count: nat, helpers: nat)
    requires func != 0 && count >= 2
    ensures var j := MakeJob(func, ctx, count, helpers); var cores := helpers + 1;
            && j.func == func && j.ctx == ctx && j.count == count
            && j.chunk >= 8 && count <= j.chunk * (4 * cores)
            && (j.chunk > 8 ==> (j.chunk - 1) * (4 * cores) < count)
            && (j.n - 1) * j.chunk < count <= j.n * j.chunk
  {
    var want := (helpers + 1) * 4;
    var least := DivCeil(count, want);
    var j := MakeJob(func, ctx, count, helpers);
    DivCeilBounds(count, want);
    DivCeilBounds(count, j.chunk);
    MulMono(least, j.chunk, want);
  }

  /** Row `row` is in one of the chunks a worker can claim. */
  ghost predicate Covered(j: Job, row: nat) {
    exists i: nat :: i < j.n && Lo(j, i) <= row < Hi(j, i)
  }

  /** The whole of the splitting arithmetic in one place. */
  lemma SplitIsAPartition(func: nat, ctx: nat, count: nat, helpers: nat)
    requires func != 0 && count >= 2
    ensures var j := MakeJob(func, ctx, count, helpers);
            && 1 <= j.n <= 4 * (helpers + 1)
            && (forall i: nat | i < j.n :: Lo(j, i) < Hi(j, i) <= count)
            && (forall i: nat, k: nat | i < k < j.n :: Hi(j, i) <= Lo(j, k))
            && (forall row: nat | row < count :: Covered(j, row))
  {
    MadeJob(func, ctx, count, helpers);
    var j := MakeJob(func, ctx, count, helpers);
    forall i: nat | i < j.n ensures Lo(j, i) < Hi(j, i) <= count { ChunkNonEmpty(j, i); }
    forall i: nat, k: nat | i < k < j.n ensures Hi(j, i) <= Lo(j, k) { ChunksDisjoint(j, i, k); }
    forall row: nat | row < count ensures Covered(j, row) { ChunksCover(j, row); }
  }
}
