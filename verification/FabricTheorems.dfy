/** What a finished job comes to, and when the order the stores are written in does. */
module FabricTheorems {
  import opened Common
  import opened FabricModel
  import opened FabricChunks
  import opened FabricSafety

  // ----- a finished job -----

  lemma {:induction false} SerialRows(j: Job, rows: nat)
    ensures forall row: nat :: row in Serial(j, rows) <==> row < rows
    ensures forall row: nat | row < rows :: Serial(j, rows)[row] == Value(j.func, j.ctx, row)
  {
    if rows > 0 { SerialRows(j, rows - 1); }
  }

  /** No two calls of a job cover the same rows. */
  lemma CallsAreDistinct(j: Job, i: nat, k: nat)
    requires JobOk(j) && i < k < j.n
    ensures CallsOf(j, j.n)[i].hi <= CallsOf(j, j.n)[k].lo
    ensures CallsOf(j, j.n)[i] != CallsOf(j, j.n)[k]
  {
    ChunkNonEmpty(j, i);
    ChunksDisjoint(j, i, k);
  }

  /** A caller that has seen DONE reach its target: every chunk of its job ran
      exactly once, in claim order, with its own function and context, and the
      output is the serial loop's. */
  ghost predicate Exact(s: Fabric, j: Job) {
    s.calls == CallsOf(j, j.n) && s.out == Serial(j, j.count)
  }

  lemma CompleteIsExact(order: Order, s: Fabric, a: nat)
    requires Inv(order, s) && a < |s.agents|
    requires s.agents[a].duty.Complete? || s.agents[a].duty.Closing? || s.agents[a].duty.Closed?
    ensures Exact(s, s.agents[a].duty.job)
  {
    assert AgentOk(s, a);
    var j := Owner(s).job;
    assert Count(s.agents, Working) == 0 && Claimed(s) == j.n;
    SerialRows(j, j.count);
    forall row: nat | row < j.count ensures row in s.out {
      ChunksCover(j, row);
      var i := ChunkOf(j, row);
      assert RowOk(s, i, row);
      if row !in s.out {
        var b: nat :| b < |s.agents| && s.agents[b].pc.InChunk? && s.agents[b].pc.i == i && s.agents[b].pc.row <= row;
        CountZero(s.agents, Working, b);
      }
    }
    assert s.out == Serial(j, j.count);
  }

  /** Once a caller has seen ACTIVE at zero, nobody can still act on its job. */
  lemma ClosedIsQuiet(order: Order, s: Fabric, a: nat, b: nat)
    requires Inv(order, s) && a < |s.agents| && b < |s.agents| && s.agents[a].duty.Closed?
    ensures !Holds(s.agents[b].pc) && s.slots.func == 0
  {
    assert AgentOk(s, a) && AgentOk(s, b);
  }

  /** The fabric's correctness, for either order of the stores: however many agents
      there are and however they interleave, latecomers included, when a
      `parallel_split` is about to answer true its job has been done exactly once
      and nobody is still at it, provided no read of FUNC fell inside a
      publication. */
  lemma ParallelSplitIsExact(order: Order, workers: seq<bool>, xs: seq<Action>, a: nat)
    requires IsRun(order, Start(workers), xs) && NoEarlyRead(order, Start(workers), xs)
    requires var s := Final(order, Start(workers), xs); a < |s.agents| && s.agents[a].duty.Closed?
    ensures var s := Final(order, Start(workers), xs);
            && Exact(s, s.agents[a].duty.job)
            && s.slots.func == 0
            && forall b: nat | b < |s.agents| :: !Holds(s.agents[b].pc)
  {
    StartInv(order, workers);
    RunKeeps(order, Start(workers), xs);
    var s := Final(order, Start(workers), xs);
    CompleteIsExact(order, s, a);
    assert s.slots.func == 0 by { ClosedIsQuiet(order, s, a, a); }
    forall b: nat | b < |s.agents| ensures !Holds(s.agents[b].pc) { ClosedIsQuiet(order, s, a, b); }
  }

  /** With FUNC stored last there is no condition. */
  lemma FuncLastIsExact(workers: seq<bool>, xs: seq<Action>, a: nat)
    requires IsRun(FuncLast, Start(workers), xs)
    requires var s := Final(FuncLast, Start(workers), xs); a < |s.agents| && s.agents[a].duty.Closed?
    ensures var s := Final(FuncLast, Start(workers), xs); Exact(s, s.agents[a].duty.job)
  {
    FuncLastIsNeverEarly(Start(workers), xs);
    ParallelSplitIsExact(FuncLast, workers, xs, a);
  }

  // ----- while a job runs -----

  /** Chunks claimed are chunks counted plus chunks in flight, and what a worker
      has read is the current job. */
  lemma ClaimedIsDonePlusInFlight(order: Order, s: Fabric, b: nat)
    requires Inv(order, s) && b < |s.agents| && Holds(s.agents[b].pc)
    ensures OwnerOk(s)
    ensures Min(s.slots.cursor, Owner(s).job.n) == s.slots.done + Count(s.agents, Working)
    ensures s.calls == CallsOf(Owner(s).job, Min(s.slots.cursor, Owner(s).job.n))
    ensures Seen(s.agents[b].pc, Owner(s).job)
  {
    assert AgentOk(s, b);
  }

  /** While any worker holds a FUNC other than zero, no step rewrites a slot:
      the cursor and the tally only count up, FUNC is at most closed. */
  lemma SlotsAreFrozen(order: Order, s: Fabric, x: Action, b: nat)
    requires Inv(order, s) && Enabled(s, x) && !Early(order, s, x) && b < |s.agents| && Holds(s.agents[b].pc)
    ensures var t, t' := s.slots, Step(order, s, x).slots;
            && t'.ctx == t.ctx && t'.rows == t.rows && t'.chunk == t.chunk && t'.nchunks == t.nchunks
            && t.cursor <= t'.cursor <= t.cursor + 1 && t.done <= t'.done <= t.done + 1
            && (t'.func == t.func || t'.func == 0)
  {
    assert AgentOk(s, b) && AgentOk(s, x.a);
    hide Progress, OwnChunks, Count, Lo, Hi, MakeJob, Seen;
  }

  // ----- the order as written -----

  /** A worker that may yet come for a job published before the next one: it has
      not seen the present generation, or has seen it and not looked at FUNC. */
  predicate Late(s: Fabric, b: nat)
    requires b < |s.agents|
  {
    var g := s.agents[b];
    g.worker && (g.ran != s.gen || g.pc.Woken? || g.pc.Entered?)
  }

  predicate NoneLate(s: Fabric) { forall b: nat | b < |s.agents| :: !Late(s, b) }

  /** While a job is being published in the order written, no worker is late. */
  ghost predicate Calm(s: Fabric) {
    Inv(AsWritten, s) && (s.busy.Some? && Owner(s).Publishing? ==> NoneLate(s))
  }

  /** Nobody becomes late during a publication, so nobody reads FUNC in one: GEN
      does not move before the last store. */
  lemma CalmStep(s: Fabric, x: Action)
    requires Calm(s) && Enabled(s, x)
    requires x.TakeBusy? && s.busy.None? ==> NoneLate(s)
    ensures !Early(AsWritten, s, x) && Calm(Step(AsWritten, s, x))
  {
    hide Count, MakeJob, SlotsOk, OwnChunks;
    assert AgentOk(s, x.a);
    if s.busy.Some? && Owner(s).Publishing? {
      assert !Late(s, x.a);
      assert !Early(AsWritten, s, x);
    }
    StepKeeps(AsWritten, s, x);
    var s' := Step(AsWritten, s, x);
    if s'.busy.Some? && Owner(s').Publishing? {
      assert NoneLate(s);
      forall b: nat | b < |s'.agents| ensures !Late(s', b) { assert !Late(s, b) && AgentOk(s, b); }
    }
  }

  /** No worker is late whenever BUSY is taken. */
  predicate Timely(s: Fabric, xs: seq<Action>)
    requires IsRun(AsWritten, s, xs)
    decreases |xs|
  {
    xs == [] || ((xs[0].TakeBusy? && s.busy.None? ==> NoneLate(s)) && Timely(Step(AsWritten, s, xs[0]), xs[1..]))
  }

  lemma {:induction false} TimelyIsNeverEarly(s: Fabric, xs: seq<Action>)
    requires Calm(s) && IsRun(AsWritten, s, xs) && Timely(s, xs)
    ensures NoEarlyRead(AsWritten, s, xs) && Calm(Final(AsWritten, s, xs))
    decreases |xs|
  {
    hide Calm;
    if xs != [] {
      CalmStep(s, xs[0]);
      TimelyIsNeverEarly(Step(AsWritten, s, xs[0]), xs[1..]);
    }
  }

  /** The order as written is right in every run that takes BUSY only when every
      worker has come and gone for the jobs before. */
  lemma TimelyIsExact(workers: seq<bool>, xs: seq<Action>, a: nat)
    requires IsRun(AsWritten, Start(workers), xs) && Timely(Start(workers), xs)
    requires var s := Final(AsWritten, Start(workers), xs); a < |s.agents| && s.agents[a].duty.Closed?
    ensures var s := Final(AsWritten, Start(workers), xs);
            && Exact(s, s.agents[a].duty.job) && forall b: nat | b < |s.agents| :: !Holds(s.agents[b].pc)
  {
    StartInv(AsWritten, workers);
    TimelyIsNeverEarly(Start(workers), xs);
    ParallelSplitIsExact(AsWritten, workers, xs, a);
  }

  /** A run inside one call of agent `a`: it has not let go of BUSY. */
  predicate Within(s: Fabric, xs: seq<Action>, a: nat) {
    IsRun(AsWritten, s, xs) && DropBusy(a) !in xs
  }

  lemma CallStep(s: Fabric, x: Action, a: nat)
    requires Calm(s) && Enabled(s, x) && x != DropBusy(a)
    requires a < |s.agents| && !s.agents[a].duty.Free?
    ensures Calm(Step(AsWritten, s, x))
    ensures var d' := Step(AsWritten, s, x).agents[a].duty; !d'.Free? && d'.job == s.agents[a].duty.job
  {
    assert AgentOk(s, a) && AgentOk(s, x.a);
    CalmStep(s, x);
    hide Inv, Calm, MakeJob, Stored, StoreAt, Lo, Hi, Seen;
  }

  lemma {:induction false} CallKeeps(s: Fabric, xs: seq<Action>, a: nat)
    requires Calm(s) && Within(s, xs, a)
    requires a < |s.agents| && !s.agents[a].duty.Free?
    ensures var t := Final(AsWritten, s, xs);
            Calm(t) && |t.agents| == |s.agents| && !t.agents[a].duty.Free? && t.agents[a].duty.job == s.agents[a].duty.job
    decreases |xs|
  {
    hide Calm;
    if xs != [] {
      CallStep(s, xs[0], a);
      CallKeeps(Step(AsWritten, s, xs[0]), xs[1..], a);
    }
  }
}
