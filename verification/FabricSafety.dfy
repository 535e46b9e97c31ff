/**
 What every interleaving of the fabric keeps, for either order of the stores.

 In the order written FUNC opens a job before the other slots hold it, and what
 follows is kept as long as nobody reads FUNC in between.
 */
module FabricSafety {
  import opened Common
  import opened FabricModel
  import opened FabricChunks

  // ----- counting agents -----

  /** Counted in ACTIVE. */
  predicate Inside(pc: Pc) { !pc.Away? && !pc.Woken? }
  predicate Working(pc: Pc) { pc.InChunk? }

  function Count(xs: seq<Agent>, p: Pc -> bool): nat {
    if xs == [] then 0 else (if p(xs[0].pc) then 1 else 0) + Count(xs[1..], p)
  }

  lemma {:induction false} CountUpdate(xs: seq<Agent>, p: Pc -> bool, a: nat, x: Agent)
    requires a < |xs|
    ensures Count(xs[a := x], p) + (if p(xs[a].pc) then 1 else 0) == Count(xs, p) + (if p(x.pc) then 1 else 0)
  {
    if a == 0 {
      assert xs[a := x][1..] == xs[1..];
    } else {
      assert xs[a := x][1..] == xs[1..][a - 1 := x];
      CountUpdate(xs[1..], p, a - 1, x);
    }
  }

  lemma {:induction false} CountZero(xs: seq<Agent>, p: Pc -> bool, a: nat)
    requires Count(xs, p) == 0 && a < |xs|
    ensures !p(xs[a].pc)
  {
    if a > 0 { CountZero(xs[1..], p, a - 1); }
  }

  lemma {:induction false} CountNone(xs: seq<Agent>, p: Pc -> bool)
    requires forall a: nat | a < |xs| :: !p(xs[a].pc)
    ensures Count(xs, p) == 0
  {
    if xs != [] { CountNone(xs[1..], p); }
  }

  // ----- the invariant -----

  /** An agent that has read a FUNC other than zero and may still act on it. */
  predicate Holds(pc: Pc) {
    pc.ReadingCtx? || pc.ReadingN? || pc.ReadingChunk? || pc.ReadingRows? || pc.Looping? || pc.InChunk?
  }

  /** The job is published and not yet closed: FUNC names it. */
  predicate Open(d: Duty) {
    (d.Publishing? && d.k == STORES) || d.Published? || d.Helping? || d.Waiting? || d.Complete?
  }

  /** The job is published and workers may still be inside it. */
  predicate Live(d: Duty) {
    Open(d) || d.Closing?
  }

  ghost predicate Seen(pc: Pc, j: Job) {
    match pc
    case ReadingCtx(w) => w.func == j.func
    case ReadingN(w) => w.func == j.func && w.ctx == j.ctx
    case ReadingChunk(w) => w.func == j.func && w.ctx == j.ctx && w.n == j.n
    case ReadingRows(w) => w.func == j.func && w.ctx == j.ctx && w.n == j.n && w.chunk == j.chunk
    case Looping(w) => w == j
    case InChunk(w, i, row) => w == j && i < j.n && Lo(j, i) <= row <= Hi(j, i)
    case _ => true
  }

  ghost predicate DutyOk(g: Agent) {
    (g.worker ==> g.duty.Free?) &&
    (!g.worker ==> !g.pc.Woken? && (g.duty.Helping? <==> g.pc != Away))
  }

  ghost predicate AgentOk(s: Fabric, a: nat)
    requires a < |s.agents|
  {
    var g := s.agents[a];
    DutyOk(g) && (!g.duty.Free? ==> s.busy == Some(a)) &&
    (Holds(g.pc) ==> OwnerOk(s) && Live(Owner(s)) && Seen(g.pc, Owner(s).job)) &&
    (g.pc.InChunk? ==> g.pc.i < s.slots.cursor)
  }

  ghost predicate OwnerOk(s: Fabric) {
    s.busy.Some? && s.busy.value < |s.agents| && !s.agents[s.busy.value].duty.Free?
  }

  function Owner(s: Fabric): Duty
    requires OwnerOk(s)
  {
    s.agents[s.busy.value].duty
  }

  function Claimed(s: Fabric): nat
    requires OwnerOk(s)
  {
    Min(s.slots.cursor, Owner(s).job.n)
  }

  /** No two agents are inside one chunk. */
  ghost predicate OwnChunks(s: Fabric) {
    forall a: nat, b: nat | a < b < |s.agents| && s.agents[a].pc.InChunk? && s.agents[b].pc.InChunk? ::
      s.agents[a].pc.i != s.agents[b].pc.i
  }

  /** Row `row` of a claimed chunk is written, or its claimant has not reached it. */
  ghost predicate RowOk(s: Fabric, i: nat, row: nat) {
    row in s.out || exists a: nat :: a < |s.agents| && s.agents[a].pc.InChunk? && s.agents[a].pc.i == i && s.agents[a].pc.row <= row
  }

  ghost predicate Written(s: Fabric)
    requires OwnerOk(s)
  {
    var j := Owner(s).job;
    (forall row | row in s.out :: row < j.count && s.out[row] == Value(j.func, j.ctx, row)) &&
    (forall i: nat, row: nat | i < Claimed(s) && Lo(j, i) <= row < Hi(j, i) :: RowOk(s, i, row))
  }

  ghost predicate Progress(s: Fabric)
    requires OwnerOk(s)
  {
    Claimed(s) == s.slots.done + Count(s.agents, Working) &&
    s.calls == CallsOf(Owner(s).job, Claimed(s)) &&
    Written(s)
  }

  /** Slot `slot` holds what the publication of `j` stores there. */
  predicate Has(x: Slots, slot: Slot, j: Job) { Stored(x, slot, j) == x }

  /** How many of the stores of the current publication are done. */
  function StoresDone(d: Duty): nat { if d.Publishing? then d.k else STORES }

  /** FUNC names the job that is being or has been published, and is not closed. */
  predicate Named(order: Order, d: Duty) {
    Open(d) || (order.AsWritten? && d.Publishing? && d.k >= 1)
  }

  ghost predicate SlotsOk(order: Order, s: Fabric)
    requires OwnerOk(s)
  {
    var d, x := Owner(s), s.slots;
    var j, k := d.job, StoresDone(d);
    k <= STORES &&
    (x.func == if Named(order, d) then j.func else 0) &&
    (k < STORES ==> (forall i: nat | i < k :: Has(x, StoreAt(order, i), j)) && s.calls == [] && s.out == map[]) &&
    (k == STORES ==>
       x.ctx == j.ctx && x.rows == j.count && x.chunk == j.chunk && x.nchunks == j.n && Progress(s)) &&
    (d.Complete? || d.Closing? || d.Closed? ==> x.done == j.n)
  }

  ghost predicate Inv(order: Order, s: Fabric) {
    (if s.busy.Some? then OwnerOk(s) && JobOk(Owner(s).job) && SlotsOk(order, s) else s.slots.func == 0) &&
    s.active == Count(s.agents, Inside) &&
    OwnChunks(s) &&
    forall a: nat | a < |s.agents| :: AgentOk(s, a)
  }

  // ----- it holds at the start and every step keeps it -----

  lemma StartInv(order: Order, workers: seq<bool>)
    ensures Inv(order, Start(workers))
  {
    CountNone(Start(workers).agents, Inside);
  }

  /** A step of agent `a` that touches neither the cursor, the tally, the calls
      nor the rows, with `a` outside a chunk before and after. */
  lemma QuietKeeps(s: Fabric, s': Fabric, a: nat, x: Agent)
    requires OwnerOk(s) && OwnerOk(s') && Owner(s').job == Owner(s).job
    requires a < |s.agents| && s'.agents == s.agents[a := x] && !s.agents[a].pc.InChunk? && !x.pc.InChunk?
    requires s'.slots.cursor == s.slots.cursor && s'.slots.done == s.slots.done
    requires s'.calls == s.calls && s'.out == s.out
    requires Progress(s)
    ensures Progress(s')
  {
    CountUpdate(s.agents, Working, a, x);
    forall i: nat, row: nat | i < Claimed(s') && Lo(Owner(s').job, i) <= row < Hi(Owner(s').job, i)
      ensures RowOk(s', i, row)
    {
      RowMoves(s, s', a, x, i, row);
    }
  }

  lemma RowMoves(s: Fabric, s': Fabric, a: nat, x: Agent, i: nat, row: nat)
    requires a < |s.agents| && s'.agents == s.agents[a := x] && RowOk(s, i, row)
    requires row in s.out ==> row in s'.out
    requires !(s.agents[a].pc.InChunk? && s.agents[a].pc.i == i && s.agents[a].pc.row <= row)
    ensures RowOk(s', i, row)
  {
    if row !in s.out {
      var b: nat :| b < |s.agents| && s.agents[b].pc.InChunk? && s.agents[b].pc.i == i && s.agents[b].pc.row <= row;
      assert b != a && s'.agents[b] == s.agents[b];
    }
  }

  /** The agents a step of `a` does not move are as they should be after it. */
  lemma OthersKeep(s: Fabric, s': Fabric, a: nat, b: nat)
    requires b < |s.agents| == |s'.agents| && b != a && s'.agents[b] == s.agents[b]
    requires AgentOk(s, b) && s'.busy == s.busy && s.slots.cursor <= s'.slots.cursor
    requires OwnerOk(s) ==> OwnerOk(s') && Owner(s').job == Owner(s).job && (Live(Owner(s)) ==> Live(Owner(s')))
    ensures AgentOk(s', b)
  {
  }

  lemma DoorKeeps(order: Order, s: Fabric, x: Action)
    requires Inv(order, s) && Enabled(s, x) && (x.Wake? || x.Enter? || x.Leave?)
    ensures Inv(order, Step(order, s, x))
  {
    hide Count, MakeJob, Lo, Hi, Written;
    var s' := Step(order, s, x);
    var a := x.a;
    assert AgentOk(s, a);
    CountUpdate(s.agents, Inside, a, s'.agents[a]);
    if s.busy.Some? {
      assert OwnerOk(s') && Owner(s').job == Owner(s).job;
      if Progress(s) { QuietKeeps(s, s', a, s'.agents[a]); }
    }
    forall b: nat | b < |s'.agents| ensures AgentOk(s', b) {
      assert AgentOk(s, b);
      if b != a { OthersKeep(s, s', a, b); }
    }
  }

  /** A read of FUNC that finds a job some of whose slots are not stored yet. */
  ghost predicate Early(order: Order, s: Fabric, x: Action) {
    order.AsWritten? && x.ReadFunc? && OwnerOk(s) && Owner(s).Publishing? && 0 < Owner(s).k < STORES
  }

  lemma ReadFuncKeeps(order: Order, s: Fabric, x: Action)
    requires Inv(order, s) && Enabled(s, x) && x.ReadFunc? && !Early(order, s, x)
    ensures Inv(order, Step(order, s, x))
  {
    hide Count, MakeJob, Lo, Hi, Written;
    var s' := Step(order, s, x);
    var a := x.a;
    assert AgentOk(s, a);
    CountUpdate(s.agents, Inside, a, s'.agents[a]);
    if s.busy.Some? {
      assert OwnerOk(s') && Owner(s').job == Owner(s).job;
      if Progress(s) { QuietKeeps(s, s', a, s'.agents[a]); }
    }
    forall b: nat | b < |s'.agents| ensures AgentOk(s', b) {
      assert AgentOk(s, b);
      if b != a { OthersKeep(s, s', a, b); }
    }
  }

  /** Reading the slots of a job that FUNC named: they are that job's. */
  lemma ReadKeeps(order: Order, s: Fabric, x: Action)
    requires Inv(order, s) && Enabled(s, x) && (x.ReadCtx? || x.ReadN? || x.ReadChunk? || x.ReadRows?)
    ensures Inv(order, Step(order, s, x))
  {
    hide Count, MakeJob, Lo, Hi, Written;
    var s' := Step(order, s, x);
    var a := x.a;
    assert AgentOk(s, a);
    CountUpdate(s.agents, Inside, a, s'.agents[a]);
    QuietKeeps(s, s', a, s'.agents[a]);
    forall b: nat | b < |s'.agents| ensures AgentOk(s', b) {
      assert AgentOk(s, b);
      if b != a { OthersKeep(s, s', a, b); }
    }
  }

  lemma ClaimKeepsProgress(order: Order, s: Fabric, x: Action)
    requires Inv(order, s) && Enabled(s, x) && x.Claim?
    ensures var s' := Step(order, s, x); OwnerOk(s') && Progress(s')
  {
    hide Count, MakeJob;
    var s' := Step(order, s, x);
    var a, i := x.a, s.slots.cursor;
    assert AgentOk(s, a);
    var j := Owner(s).job;
    CountUpdate(s.agents, Working, a, s'.agents[a]);
    if i < j.n {
      ChunkNonEmpty(j, i);
      assert s'.calls == CallsOf(j, i + 1);
    }
    forall k: nat, row: nat | k < Claimed(s') && Lo(j, k) <= row < Hi(j, k) ensures RowOk(s', k, row) {
      if k < Claimed(s) {
        RowMoves(s, s', a, s'.agents[a], k, row);
      } else {
        assert s'.agents[a].pc.InChunk? && s'.agents[a].pc.i == k;
      }
    }
  }

  /** A chunk just claimed is nobody else's: those are below the cursor. */
  lemma ClaimIsOwn(order: Order, s: Fabric, x: Action)
    requires Inv(order, s) && Enabled(s, x) && x.Claim?
    ensures OwnChunks(Step(order, s, x))
  {
    var s' := Step(order, s, x);
    forall b: nat, c: nat | b < c < |s'.agents| && s'.agents[b].pc.InChunk? && s'.agents[c].pc.InChunk?
      ensures s'.agents[b].pc.i != s'.agents[c].pc.i
    {
      assert AgentOk(s, b) && AgentOk(s, c);
    }
  }

  lemma ClaimKeeps(order: Order, s: Fabric, x: Action)
    requires Inv(order, s) && Enabled(s, x) && x.Claim?
    ensures Inv(order, Step(order, s, x))
  {
    hide Count, MakeJob, Lo, Hi, Written;
    var s' := Step(order, s, x);
    var a := x.a;
    assert AgentOk(s, a);
    CountUpdate(s.agents, Inside, a, s'.agents[a]);
    ClaimKeepsProgress(order, s, x);
    ClaimIsOwn(order, s, x);
    if s.slots.cursor < Owner(s).job.n { ChunkNonEmpty(Owner(s).job, s.slots.cursor); }
    forall b: nat | b < |s'.agents| ensures AgentOk(s', b) {
      assert AgentOk(s, b);
      if b != a { OthersKeep(s, s', a, b); }
    }
  }

  lemma RunRowKeepsProgress(order: Order, s: Fabric, x: Action)
    requires Inv(order, s) && Enabled(s, x) && x.RunRow?
    ensures var s' := Step(order, s, x); OwnerOk(s') && Progress(s')
  {
    hide Count, MakeJob;
    var s' := Step(order, s, x);
    var a := x.a;
    assert AgentOk(s, a);
    var j := Owner(s).job;
    var pc := s.agents[a].pc;
    ChunkNonEmpty(j, pc.i);
    CountUpdate(s.agents, Working, a, s'.agents[a]);
    forall k: nat, row: nat | k < Claimed(s') && Lo(j, k) <= row < Hi(j, k) ensures RowOk(s', k, row) {
      if pc.i == k && pc.row <= row {
        assert row == pc.row || s'.agents[a].pc.row <= row;
      } else {
        RowMoves(s, s', a, s'.agents[a], k, row);
      }
    }
  }

  lemma CountDoneKeepsProgress(order: Order, s: Fabric, x: Action)
    requires Inv(order, s) && Enabled(s, x) && x.CountDone?
    ensures var s' := Step(order, s, x); OwnerOk(s') && Progress(s')
  {
    hide Count, MakeJob;
    var s' := Step(order, s, x);
    var a := x.a;
    assert AgentOk(s, a);
    var j := Owner(s).job;
    CountUpdate(s.agents, Working, a, s'.agents[a]);
    forall k: nat, row: nat | k < Claimed(s') && Lo(j, k) <= row < Hi(j, k) ensures RowOk(s', k, row) {
      RowMoves(s, s', a, s'.agents[a], k, row);
    }
  }

  /** Running a row of a chunk, or counting the chunk once its rows are done. */
  lemma ChunkKeeps(order: Order, s: Fabric, x: Action)
    requires Inv(order, s) && Enabled(s, x) && (x.RunRow? || x.CountDone?)
    ensures Inv(order, Step(order, s, x))
  {
    hide Count, MakeJob, Lo, Hi, Written;
    var s' := Step(order, s, x);
    var a := x.a;
    assert AgentOk(s, a);
    CountUpdate(s.agents, Inside, a, s'.agents[a]);
    if x.RunRow? { RunRowKeepsProgress(order, s, x); } else { CountDoneKeepsProgress(order, s, x); }
    forall b: nat | b < |s'.agents| ensures AgentOk(s', b) {
      assert AgentOk(s, b);
      if b != a { OthersKeep(s, s', a, b); }
    }
  }

  lemma TakeBusyKeeps(order: Order, s: Fabric, x: Action)
    requires Inv(order, s) && Enabled(s, x) && x.TakeBusy?
    ensures Inv(order, Step(order, s, x))
  {
    var s' := Step(order, s, x);
    if s' != s {
      MadeJob(x.func, x.ctx, x.count, x.helpers);
      CountUpdate(s.agents, Inside, x.a, s'.agents[x.a]);
      forall b: nat | b < |s'.agents| ensures AgentOk(s', b) { assert AgentOk(s, b); }
    }
  }

  /** The stores of a publication one by one, in either order. */
  lemma StoreAdds(order: Order, x: Slots, j: Job, k: nat)
    requires k < STORES && forall i: nat | i < k :: Has(x, StoreAt(order, i), j)
    ensures forall i: nat | i <= k :: Has(Stored(x, StoreAt(order, k), j), StoreAt(order, i), j)
  {
  }

  lemma AllStored(order: Order, x: Slots, j: Job)
    requires forall i: nat | i < STORES :: Has(x, StoreAt(order, i), j)
    ensures x == Slots(j.func, j.ctx, j.count, j.chunk, j.n, 0, 0)
  {
    assert Has(x, StoreAt(order, 0), j) && Has(x, StoreAt(order, 1), j) && Has(x, StoreAt(order, 2), j);
    assert Has(x, StoreAt(order, 3), j) && Has(x, StoreAt(order, 4), j) && Has(x, StoreAt(order, 5), j);
    assert Has(x, StoreAt(order, 6), j);
  }

  lemma StoreKeeps(order: Order, s: Fabric, x: Action)
    requires Inv(order, s) && Enabled(s, x) && x.Store?
    ensures Inv(order, Step(order, s, x))
  {
    hide Has;
    var s' := Step(order, s, x);
    var a := x.a;
    assert AgentOk(s, a);
    CountUpdate(s.agents, Inside, a, s'.agents[a]);
    StoreAdds(order, s.slots, s.agents[a].duty.job, s.agents[a].duty.k);
    // Nobody holds a FUNC other than zero while the slots are being written.
    forall b: nat | b < |s'.agents| ensures AgentOk(s', b) && !Holds(s'.agents[b].pc) { assert AgentOk(s, b); }
    if s'.agents[a].duty.k == STORES {
      AllStored(order, s'.slots, s.agents[a].duty.job);
      CountNone(s'.agents, Working);
      assert s'.calls == CallsOf(Owner(s').job, 0);
    }
  }

  /** The publisher's steps after the stores. */
  lemma PublisherKeeps(order: Order, s: Fabric, x: Action)
    requires Inv(order, s) && Enabled(s, x) && (x.Bump? || x.SeeDone? || x.Close?)
    ensures Inv(order, Step(order, s, x))
  {
    hide Count, MakeJob, Lo, Hi, Written;
    var s' := Step(order, s, x);
    var a := x.a;
    assert AgentOk(s, a);
    CountUpdate(s.agents, Inside, a, s'.agents[a]);
    QuietKeeps(s, s', a, s'.agents[a]);
    forall b: nat | b < |s'.agents| ensures AgentOk(s', b) {
      assert AgentOk(s, b);
      if b != a { OthersKeep(s, s', a, b); }
    }
  }

  lemma SeeIdleKeeps(order: Order, s: Fabric, x: Action)
    requires Inv(order, s) && Enabled(s, x) && x.SeeIdle?
    ensures Inv(order, Step(order, s, x))
  {
    hide Count, MakeJob, Lo, Hi, Written;
    var s' := Step(order, s, x);
    var a := x.a;
    assert AgentOk(s, a);
    CountUpdate(s.agents, Inside, a, s'.agents[a]);
    QuietKeeps(s, s', a, s'.agents[a]);
    forall b: nat | b < |s'.agents| ensures AgentOk(s', b) {
      assert AgentOk(s, b);
      CountZero(s.agents, Inside, b);
    }
  }

  lemma DropBusyKeeps(order: Order, s: Fabric, x: Action)
    requires Inv(order, s) && Enabled(s, x) && x.DropBusy?
    ensures Inv(order, Step(order, s, x))
  {
    var s' := Step(order, s, x);
    var a := x.a;
    assert AgentOk(s, a);
    CountUpdate(s.agents, Inside, a, s'.agents[a]);
    forall b: nat | b < |s'.agents| ensures AgentOk(s', b) { assert AgentOk(s, b); }
  }

  lemma StepKeeps(order: Order, s: Fabric, x: Action)
    requires Inv(order, s) && Enabled(s, x) && !Early(order, s, x)
    ensures Inv(order, Step(order, s, x))
  {
    match x
    case TakeBusy(_, _, _, _, _, _) => TakeBusyKeeps(order, s, x);
    case Store(_) => StoreKeeps(order, s, x);
    case Bump(_) => PublisherKeeps(order, s, x);
    case Wake(_) => DoorKeeps(order, s, x);
    case Enter(_) => DoorKeeps(order, s, x);
    case ReadFunc(_) => ReadFuncKeeps(order, s, x);
    case ReadCtx(_) => ReadKeeps(order, s, x);
    case ReadN(_) => ReadKeeps(order, s, x);
    case ReadChunk(_) => ReadKeeps(order, s, x);
    case ReadRows(_) => ReadKeeps(order, s, x);
    case Claim(_) => ClaimKeeps(order, s, x);
    case RunRow(_) => ChunkKeeps(order, s, x);
    case CountDone(_) => ChunkKeeps(order, s, x);
    case Leave(_) => DoorKeeps(order, s, x);
    case SeeDone(_) => PublisherKeeps(order, s, x);
    case Close(_) => PublisherKeeps(order, s, x);
    case SeeIdle(_) => SeeIdleKeeps(order, s, x);
    case DropBusy(_) => DropBusyKeeps(order, s, x);
  }

  /** No read of FUNC in a run falls inside a publication. With FUNC last that says
      nothing. */
  ghost predicate NoEarlyRead(order: Order, s: Fabric, xs: seq<Action>)
    requires IsRun(order, s, xs)
    decreases |xs|
  {
    xs == [] || (!Early(order, s, xs[0]) && NoEarlyRead(order, Step(order, s, xs[0]), xs[1..]))
  }

  lemma {:induction false} FuncLastIsNeverEarly(s: Fabric, xs: seq<Action>)
    requires IsRun(FuncLast, s, xs)
    ensures NoEarlyRead(FuncLast, s, xs)
    decreases |xs|
  {
    if xs != [] { FuncLastIsNeverEarly(Step(FuncLast, s, xs[0]), xs[1..]); }
  }

  lemma {:induction false} RunKeeps(order: Order, s: Fabric, xs: seq<Action>)
    requires Inv(order, s) && IsRun(order, s, xs) && NoEarlyRead(order, s, xs)
    ensures Inv(order, Final(order, s, xs))
    decreases |xs|
  {
    if xs != [] {
      StepKeeps(order, s, xs[0]);
      RunKeeps(order, Step(order, s, xs[0]), xs[1..]);
    }
  }
}
