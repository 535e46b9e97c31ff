/**
 The work fabric as a transition system over single atomic operations.

 Any number of agents share the slots: cores in their worker loop, and callers of
 `parallel_split`. A worker goes to work when GEN is not what it last saw, and
 between seeing that and entering `claim_and_run` anything may happen, so one that
 comes for a job long over is part of the model.
 */
module FabricModel {
  import opened Common

  // ----- the arithmetic of a job -----

  /** Rounded-up division, as `usize::div_ceil`. */
  function DivCeil(a: nat, b: nat): nat
    requires b > 0
  {
    if a % b == 0 then a / b else a / b + 1
  }

  function Max(a: nat, b: nat): nat { if a < b then b else a }

  datatype Job = Job(func: nat, ctx: nat, count: nat, chunk: nat, n: nat)

  /** When `parallel_split` tries to publish at all. */
  predicate WorthSplitting(helpers: nat, count: nat, width: nat) {
    helpers != 0 && count >= 2 && count * width >= 0x80000
  }

  /** The job `parallel_split` publishes for these arguments. */
  function MakeJob(func: nat, ctx: nat, count: nat, helpers: nat): Job {
    var want := (helpers + 1) * 4;
    var chunk := Max(DivCeil(count, want), 8);
    Job(func, ctx, count, chunk, DivCeil(count, chunk))
  }

  /** Chunk `i` is the half-open row range [Lo, Hi). */
  function Lo(j: Job, i: nat): nat { i * j.chunk }
  function Hi(j: Job, i: nat): nat { Min((i + 1) * j.chunk, j.count) }

  // ----- the shared state -----

  datatype Slots = Slots(func: nat, ctx: nat, rows: nat, chunk: nat, nchunks: nat, cursor: nat, done: nat)

  /** One word of a job, as a store of the publication writes it. */
  datatype Slot = FuncSlot | CtxSlot | RowsSlot | ChunkSlot | NchunksSlot | CursorSlot | DoneSlot

  /** The order the publication stores the slots in. `AsWritten` is the source's;
      `FuncLast` is the same stores with the one that opens the job moved to the end. */
  datatype Order = AsWritten | FuncLast

  const STORES: nat := 7

  function StoreAt(order: Order, k: nat): Slot
    requires k < STORES
  {
    match order
    case AsWritten => [FuncSlot, CtxSlot, RowsSlot, ChunkSlot, NchunksSlot, CursorSlot, DoneSlot][k]
    case FuncLast => [CtxSlot, RowsSlot, ChunkSlot, NchunksSlot, CursorSlot, DoneSlot, FuncSlot][k]
  }

  function Stored(s: Slots, slot: Slot, j: Job): Slots {
    match slot
    case FuncSlot => s.(func := j.func)
    case CtxSlot => s.(ctx := j.ctx)
    case RowsSlot => s.(rows := j.count)
    case ChunkSlot => s.(chunk := j.chunk)
    case NchunksSlot => s.(nchunks := j.n)
    case CursorSlot => s.(cursor := 0)
    case DoneSlot => s.(done := 0)
  }

  /** Where an agent is inside `claim_and_run`, with what it has read so far in
      a job record of its own. */
  datatype Pc =
    | Away
    | Woken
    | Entered
    | ReadingCtx(seen: Job)
    | ReadingN(seen: Job)
    | ReadingChunk(seen: Job)
    | ReadingRows(seen: Job)
    | Looping(seen: Job)
    | InChunk(seen: Job, i: nat, row: nat)
    | Leaving

  /** Where an agent is inside `parallel_split`. */
  datatype Duty =
    | Free
    | Publishing(job: Job, k: nat)
    | Published(job: Job)
    | Helping(job: Job)
    | Waiting(job: Job)
    | Complete(job: Job)
    | Closing(job: Job)
    | Closed(job: Job)

  /** `ran` is a worker's `seen`: the generation it last went to work for. */
  datatype Agent = Agent(worker: bool, ran: nat, duty: Duty, pc: Pc)

  datatype Call = Call(func: nat, ctx: nat, lo: nat, hi: nat)

  /** What a per-row function leaves in an output row: the function, the context
      it was handed and the row, whatever those compute to. */
  datatype Value = Value(func: nat, ctx: nat, row: nat)

  /** `busy` is the BUSY flag together with who holds it. `calls` and `out` are
      history since BUSY was last taken: the calls made into chunk functions, in
      order, and the output rows written. */
  datatype Fabric = Fabric(slots: Slots, gen: nat, busy: Option<nat>, active: nat,
                           agents: seq<Agent>, calls: seq<Call>, out: map<nat, Value>)

  datatype Action =
    | TakeBusy(a: nat, func: nat, ctx: nat, count: nat, width: nat, helpers: nat)
    | Store(a: nat)
    | Bump(a: nat)
    | Wake(a: nat)
    | Enter(a: nat)
    | ReadFunc(a: nat)
    | ReadCtx(a: nat)
    | ReadN(a: nat)
    | ReadChunk(a: nat)
    | ReadRows(a: nat)
    | Claim(a: nat)
    | RunRow(a: nat)
    | CountDone(a: nat)
    | Leave(a: nat)
    | SeeDone(a: nat)
    | Close(a: nat)
    | SeeIdle(a: nat)
    | DropBusy(a: nat)

  predicate Enabled(s: Fabric, x: Action) {
    x.a < |s.agents| &&
    var g := s.agents[x.a];
    match x
    case TakeBusy(_, func, _, count, width, helpers) =>
      !g.worker && g.duty.Free? && func != 0 && WorthSplitting(helpers, count, width)
    case Store(_) => g.duty.Publishing? && g.duty.k < STORES
    case Bump(_) => g.duty.Publishing? && g.duty.k == STORES
    case Wake(_) => g.worker && g.pc.Away? && s.gen != g.ran
    case Enter(_) => g.pc.Woken? || g.duty.Published?
    case ReadFunc(_) => g.pc.Entered?
    case ReadCtx(_) => g.pc.ReadingCtx?
    case ReadN(_) => g.pc.ReadingN?
    case ReadChunk(_) => g.pc.ReadingChunk?
    case ReadRows(_) => g.pc.ReadingRows?
    case Claim(_) => g.pc.Looping?
    case RunRow(_) => g.pc.InChunk? && g.pc.row < Hi(g.pc.seen, g.pc.i)
    case CountDone(_) => g.pc.InChunk? && g.pc.row >= Hi(g.pc.seen, g.pc.i)
    case Leave(_) => g.pc.Leaving?
    case SeeDone(_) => g.duty.Waiting? && s.slots.done >= g.duty.job.n
    case Close(_) => g.duty.Complete?
    case SeeIdle(_) => g.duty.Closing? && s.active == 0
    case DropBusy(_) => g.duty.Closed?
  }

  function At(s: Fabric, a: nat, pc: Pc): Fabric
    requires a < |s.agents|
  {
    s.(agents := s.agents[a := s.agents[a].(pc := pc)])
  }

  function On(s: Fabric, a: nat, duty: Duty): Fabric
    requires a < |s.agents|
  {
    s.(agents := s.agents[a := s.agents[a].(duty := duty)])
  }

  function ClaimStep(s: Fabric, a: nat): Fabric
    requires a < |s.agents| && s.agents[a].pc.Looping?
  {
    var w := s.agents[a].pc.seen;
    var i := s.slots.cursor;
    var claimed := s.(slots := s.slots.(cursor := i + 1));
    if i >= w.n then At(claimed, a, Leaving)
    else
      var calls := if Lo(w, i) < Hi(w, i) then s.calls + [Call(w.func, w.ctx, Lo(w, i), Hi(w, i))] else s.calls;
      At(claimed.(calls := calls), a, InChunk(w, i, Lo(w, i)))
  }

  function Step(order: Order, s: Fabric, x: Action): Fabric
    requires Enabled(s, x)
  {
    var a := x.a;
    var g := s.agents[a];
    match x
    case TakeBusy(_, func, ctx, count, _, helpers) =>
      if s.busy.Some? then s
      else On(s.(busy := Some(a), calls := [], out := map[]), a, Publishing(MakeJob(func, ctx, count, helpers), 0))
    case Store(_) =>
      On(s.(slots := Stored(s.slots, StoreAt(order, g.duty.k), g.duty.job)), a, Publishing(g.duty.job, g.duty.k + 1))
    case Bump(_) => On(s.(gen := s.gen + 1), a, Published(g.duty.job))
    case Wake(_) => s.(agents := s.agents[a := g.(ran := s.gen, pc := Woken)])
    case Enter(_) =>
      var duty := if g.duty.Published? then Helping(g.duty.job) else g.duty;
      s.(active := s.active + 1, agents := s.agents[a := g.(duty := duty, pc := Entered)])
    case ReadFunc(_) =>
      if s.slots.func == 0 then At(s, a, Leaving) else At(s, a, ReadingCtx(Job(s.slots.func, 0, 0, 0, 0)))
    case ReadCtx(_) => At(s, a, ReadingN(g.pc.seen.(ctx := s.slots.ctx)))
    case ReadN(_) => At(s, a, ReadingChunk(g.pc.seen.(n := s.slots.nchunks)))
    case ReadChunk(_) => At(s, a, ReadingRows(g.pc.seen.(chunk := s.slots.chunk)))
    case ReadRows(_) => At(s, a, Looping(g.pc.seen.(count := s.slots.rows)))
    case Claim(_) => ClaimStep(s, a)
    case RunRow(_) =>
      var row := g.pc.row;
      At(s.(out := s.out[row := Value(g.pc.seen.func, g.pc.seen.ctx, row)]), a, g.pc.(row := row + 1))
    case CountDone(_) => At(s.(slots := s.slots.(done := s.slots.done + 1)), a, Looping(g.pc.seen))
    case Leave(_) =>
      var duty := if g.duty.Helping? then Waiting(g.duty.job) else g.duty;
      s.(active := if s.active > 0 then s.active - 1 else 0, agents := s.agents[a := g.(duty := duty, pc := Away)])
    case SeeDone(_) => On(s, a, Complete(g.duty.job))
    case Close(_) => On(s.(slots := s.slots.(func := 0)), a, Closing(g.duty.job))
    case SeeIdle(_) => On(s, a, Closed(g.duty.job))
    case DropBusy(_) => On(s.(busy := None), a, Free)
  }

  // ----- runs -----

  /** Nothing published yet. `workers` says which of the agents are worker cores. */
  function Start(workers: seq<bool>): Fabric {
    Fabric(Slots(0, 0, 0, 0, 0, 0, 0), 0, None, 0,
           seq(|workers|, i requires 0 <= i < |workers| => Agent(workers[i], 0, Free, Away)), [], map[])
  }

  predicate IsRun(order: Order, s: Fabric, xs: seq<Action>)
    decreases |xs|
  {
    xs == [] || (Enabled(s, xs[0]) && IsRun(order, Step(order, s, xs[0]), xs[1..]))
  }

  function Final(order: Order, s: Fabric, xs: seq<Action>): Fabric
    requires IsRun(order, s, xs)
    decreases |xs|
  {
    if xs == [] then s else Final(order, Step(order, s, xs[0]), xs[1..])
  }

  // ----- what a job should come to -----

  /** The first `k` chunk calls of a job. */
  function CallsOf(j: Job, k: nat): (r: seq<Call>)
    ensures |r| == k
  {
    seq(k, (i: nat) => Call(j.func, j.ctx, Lo(j, i), Hi(j, i)))
  }

  /** What one core leaves behind running the first `rows` rows in order. */
  function Serial(j: Job, rows: nat): map<nat, Value> {
    if rows == 0 then map[] else Serial(j, rows - 1)[rows - 1 := Value(j.func, j.ctx, rows - 1)]
  }
}
