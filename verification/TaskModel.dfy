/**
 The multi-core scheduler as a transition system.

 Every step of a context switch that another core can interleave with is a step
 of its own: the pick under the table lock, the CR3 write, the store of the
 outgoing rsp, the load of the incoming one, the swap that empties PENDING and
 the locked release of the task left in handoff.

 A stack pointer is a pair of "which stack" and "how far down it", so the stack
 a core physically stands on is read off its rsp register and nowhere else: a
 core that loads a stale or foreign pointer really does end up on that stack.
 */
module TaskModel {
  import opened Common

  const MAX_TASKS: nat := 24
  const MAX_CPUS: nat := 16

  datatype TaskState = Unused | Ready | Running(core: nat) | Handoff(core: nat)

  /** The stack a core booted on, or the one `spawn` allocated for a slot. */
  datatype StackId = BootStack(cpu: nat) | HeapStack(slot: nat)

  datatype Sp = Null | At(stack: StackId, depth: nat)

  /** `stack` names the memory the slot was given; it is never read by a step of
      the scheduler other than to describe where a first frame was fabricated. */
  datatype Task = Task(rsp: Sp, state: TaskState, switches: nat, pin: int, idle: bool, root: nat, stack: StackId)

  const EMPTY: Task := Task(Null, Unused, 0, -1, false, 0, BootStack(0))

  /** Where a core is inside `schedule`. Interrupts are off in every phase but
      `Outside`, so a core leaves a switch only by finishing it. */
  datatype Phase =
    | Outside
    | Picked(save: nat, load: Sp, outRoot: nat, inRoot: nat)
    | Mapped(save: nat, load: Sp)
    | Saved(save: nat, load: Sp)
    | Landed
    | Releasing(prev: nat)

  datatype Core = Core(current: Option<nat>, pending: Option<nat>, joined: bool, phase: Phase, rsp: Sp, cr3: nat)

  /** `latest` is history, not kernel state: for every stack, the pointer its
      last switch away left on it, or the frame fabricated for it. */
  datatype Sched = Sched(tasks: seq<Task>, count: nat, cores: seq<Core>, kernelRoot: nat, latest: map<StackId, Sp>)

  function Latest(s: Sched, id: StackId): Sp {
    if id in s.latest then s.latest[id] else Null
  }

  /** The page-table root a recorded root stands for: 0 is the kernel's. */
  function Want(kernelRoot: nat, root: nat): nat {
    if root == 0 then kernelRoot else root
  }

  predicate MayRun(t: Task, me: nat) {
    t.pin < 0 || t.pin == me
  }

  predicate Claimable(t: Task, me: nat) {
    t.state == Ready && MayRun(t, me)
  }

  // ----- picking -----

  /** What one pass of the scan accepts at slot `i`. */
  predicate Accepts(tasks: seq<Task>, cur: nat, me: nat, idle: bool, i: nat)
    requires i < |tasks|
  {
    i != cur && Claimable(tasks[i], me) && tasks[i].idle == idle
  }

  /** How many slots the scan of a core running `cur` looks at before slot `i`. */
  function Distance(n: nat, cur: nat, i: nat): (d: nat)
    requires cur < n && i < n
  {
    if cur < i then i - cur - 1 else n + i - cur - 1
  }

  /** The slot the scan looks at in its k-th turn. */
  function SlotAt(n: nat, cur: nat, k: nat): (i: nat)
    requires cur < n && k < n
    ensures i < n && Distance(n, cur, i) == k
  {
    if cur + 1 + k < n then cur + 1 + k else cur + 1 + k - n
  }

  /** One pass of the scan from turn `k` on. The result is the accepted slot
      nearest in cyclic order, and no accepted slot is overlooked. */
  function Scan(tasks: seq<Task>, n: nat, cur: nat, me: nat, idle: bool, k: nat): (r: Option<nat>)
    requires cur < n <= |tasks| && k <= n
    ensures r.Some? ==> r.value < n && Accepts(tasks, cur, me, idle, r.value) && k <= Distance(n, cur, r.value)
    ensures forall j: nat | j < n && k <= Distance(n, cur, j) && Accepts(tasks, cur, me, idle, j) ::
              r.Some? && Distance(n, cur, r.value) <= Distance(n, cur, j)
    decreases n - k
  {
    if k == n then None
    else
      var i := SlotAt(n, cur, k);
      if Accepts(tasks, cur, me, idle, i) then Some(i)
      else Scan(tasks, n, cur, me, idle, k + 1)
  }

  /** Real work first, then somewhere to stand. */
  function Select(tasks: seq<Task>, n: nat, cur: nat, me: nat): (r: Option<nat>)
    requires cur < n <= |tasks|
    ensures r.Some? ==> r.value < n && r.value != cur && Claimable(tasks[r.value], me)
  {
    var work := Scan(tasks, n, cur, me, false, 0);
    if work.Some? then work else Scan(tasks, n, cur, me, true, 0)
  }

  // ----- steps -----

  datatype Action =
    | Execute(c: nat, depth: nat)        // code on core c moves its own stack pointer
    | Spawn(c: nat, depth: nat)
    | AdoptIdle(c: nat)
    | Join(c: nat)
    | Unpin(c: nat, idx: nat)
    | SetRoot(c: nat, idx: nat, root: nat)
    | Pick(c: nat)
    | WriteCr3(c: nat)
    | SaveRsp(c: nat)
    | LoadRsp(c: nat)
    | TakePending(c: nat)
    | Release(c: nat)

  predicate WellShaped(s: Sched) {
    |s.tasks| == MAX_TASKS && |s.cores| == MAX_CPUS && s.count <= MAX_TASKS
  }

  /** Code that runs as a task runs outside a switch, on a core that has one. */
  predicate RunsCode(s: Sched, c: nat)
    requires WellShaped(s) && c < MAX_CPUS
  {
    s.cores[c].current.Some? && s.cores[c].phase.Outside?
  }

  /** When a step may be taken. The only clause that asks more than the source's
      control flow gives is the one on `SetRoot`: a root may be changed on the
      caller's own task or on one that is running nowhere. */
  predicate Enabled(s: Sched, a: Action) {
    WellShaped(s) && a.c < MAX_CPUS &&
    var k := s.cores[a.c];
    match a
    case Execute(c, depth) => k.rsp.At? && !k.phase.Saved?
    case Spawn(c, depth) => RunsCode(s, c)
    case AdoptIdle(c) => k.current.None?
    case Join(c) => k.current.Some? && k.phase.Outside?
    case Unpin(c, idx) => RunsCode(s, c)
    case SetRoot(c, idx, root) =>
      RunsCode(s, c) && (k.current == Some(idx) || idx >= MAX_TASKS || !s.tasks[idx].state.Running?)
    case Pick(c) => k.phase.Outside? && (k.current.Some? ==> k.current.value < s.count)
    case WriteCr3(c) => k.phase.Picked?
    case SaveRsp(c) => k.phase.Mapped? && k.phase.save < MAX_TASKS
    case LoadRsp(c) => k.phase.Saved?
    case TakePending(c) => k.phase.Landed?
    case Release(c) => k.phase.Releasing? && k.phase.prev < MAX_TASKS
  }

  function WithCore(s: Sched, c: nat, k: Core): Sched
    requires c < |s.cores|
  {
    s.(cores := s.cores[c := k])
  }

  /** What a slot holds after `spawn` filled it. Pinned to core 0. */
  function SpawnedTask(slot: nat, depth: nat): Task {
    Task(At(HeapStack(slot), depth), Ready, 0, 0, false, 0, HeapStack(slot))
  }

  /** What a slot holds after core `c` adopted the stack it stands on. */
  function AdoptedTask(c: nat): Task {
    Task(Null, Running(c), 0, c, true, 0, BootStack(c))
  }

  function SpawnStep(s: Sched, depth: nat): Sched
    requires WellShaped(s)
  {
    if s.count >= MAX_TASKS then s
    else
      var t := SpawnedTask(s.count, depth);
      s.(tasks := s.tasks[s.count := t], count := s.count + 1, latest := s.latest[t.stack := t.rsp])
  }

  function AdoptStep(s: Sched, c: nat): Sched
    requires WellShaped(s) && c < MAX_CPUS
  {
    if c == 0 || s.count >= MAX_TASKS then s
    else
      WithCore(s.(tasks := s.tasks[s.count := AdoptedTask(c)], count := s.count + 1),
               c, s.cores[c].(current := Some(s.count)))
  }

  function UnpinStep(s: Sched, idx: nat): Sched
    requires WellShaped(s)
  {
    if idx >= MAX_TASKS || s.tasks[idx].state.Unused? || s.tasks[idx].idle then s
    else s.(tasks := s.tasks[idx := s.tasks[idx].(pin := -1)])
  }

  /** `current()`, which calls a core without a task task 0. */
  function CurrentOf(k: Core): nat { k.current.GetOr(0) }

  function SetRootStep(s: Sched, c: nat, idx: nat, root: nat): Sched
    requires WellShaped(s) && c < MAX_CPUS
  {
    if idx >= MAX_TASKS || s.tasks[idx].state.Unused? then s
    else
      var recorded := s.(tasks := s.tasks[idx := s.tasks[idx].(root := root)]);
      if idx == CurrentOf(s.cores[c])
      then WithCore(recorded, c, s.cores[c].(cr3 := Want(s.kernelRoot, root)))
      else recorded
  }

  function PickStep(s: Sched, c: nat): Sched
    requires WellShaped(s) && c < MAX_CPUS
    requires s.cores[c].current.Some? ==> s.cores[c].current.value < s.count
  {
    var k := s.cores[c];
    if !k.joined || k.current.None? then s
    else
      var cur := k.current.value;
      match Select(s.tasks, s.count, cur, c)
      case None => s
      case Some(next) =>
        var into := s.tasks[next].(state := Running(c), switches := s.tasks[next].switches + 1);
        var left := s.tasks[cur].(state := Handoff(c));
        WithCore(s.(tasks := s.tasks[next := into][cur := left]), c,
                 k.(current := Some(next), pending := Some(cur),
                 phase := Picked(cur, s.tasks[next].rsp, s.tasks[cur].root, s.tasks[next].root)))
  }

  /** CR3 after the guarded write: untouched when both roots are the kernel's. */
  function NextCr3(kernelRoot: nat, cr3: nat, outRoot: nat, inRoot: nat): nat {
    if (outRoot != 0 || inRoot != 0) && Want(kernelRoot, inRoot) != cr3
    then Want(kernelRoot, inRoot)
    else cr3
  }

  function WriteCr3Step(s: Sched, c: nat): Sched
    requires WellShaped(s) && c < MAX_CPUS && s.cores[c].phase.Picked?
  {
    var k := s.cores[c];
    WithCore(s, c, k.(phase := Mapped(k.phase.save, k.phase.load),
             cr3 := NextCr3(s.kernelRoot, k.cr3, k.phase.outRoot, k.phase.inRoot)))
  }

  function SaveStep(s: Sched, c: nat): Sched
    requires WellShaped(s) && c < MAX_CPUS && s.cores[c].phase.Mapped? && s.cores[c].phase.save < MAX_TASKS
  {
    var k := s.cores[c];
    var t := s.tasks[k.phase.save];
    var stored := s.(tasks := s.tasks[k.phase.save := t.(rsp := k.rsp)],
                     latest := if k.rsp.At? then s.latest[k.rsp.stack := k.rsp] else s.latest);
    WithCore(stored, c, k.(phase := Saved(k.phase.save, k.phase.load)))
  }

  function LoadStep(s: Sched, c: nat): Sched
    requires WellShaped(s) && c < MAX_CPUS && s.cores[c].phase.Saved?
  {
    WithCore(s, c, s.cores[c].(rsp := s.cores[c].phase.load, phase := Landed))
  }

  function TakePendingStep(s: Sched, c: nat): Sched
    requires WellShaped(s) && c < MAX_CPUS
  {
    var k := s.cores[c];
    WithCore(s, c, k.(pending := None, phase := if k.pending.None? then Outside else Releasing(k.pending.value)))
  }

  function ReleaseStep(s: Sched, c: nat): Sched
    requires WellShaped(s) && c < MAX_CPUS && s.cores[c].phase.Releasing? && s.cores[c].phase.prev < MAX_TASKS
  {
    var p := s.cores[c].phase.prev;
    var t := s.tasks[p];
    WithCore(s.(tasks := s.tasks[p := if t.state.Handoff? then t.(state := Ready) else t]),
             c, s.cores[c].(phase := Outside))
  }

  function Step(s: Sched, a: Action): Sched
    requires Enabled(s, a)
  {
    match a
    case Execute(c, depth) => WithCore(s, c, s.cores[c].(rsp := s.cores[c].rsp.(depth := depth)))
    case Spawn(c, depth) => SpawnStep(s, depth)
    case AdoptIdle(c) => AdoptStep(s, c)
    case Join(c) => WithCore(s, c, s.cores[c].(joined := true))
    case Unpin(c, idx) => UnpinStep(s, idx)
    case SetRoot(c, idx, root) => SetRootStep(s, c, idx, root)
    case Pick(c) => PickStep(s, c)
    case WriteCr3(c) => WriteCr3Step(s, c)
    case SaveRsp(c) => SaveStep(s, c)
    case LoadRsp(c) => LoadStep(s, c)
    case TakePending(c) => TakePendingStep(s, c)
    case Release(c) => ReleaseStep(s, c)
  }

  // ----- runs -----

  /** The machine with its cores on their boot stacks and an empty table. Core 0
      counts as joined from the start. */
  function PowerOn(kernelRoot: nat, depth: nat): Sched {
    Sched(seq(MAX_TASKS, _ => EMPTY), 0,
          seq(MAX_CPUS, (c: nat) => Core(None, None, c == 0, Outside, At(BootStack(c), depth), kernelRoot)),
          kernelRoot, map[])
  }

  /** `task::init`: core 0's thread of execution becomes task 0. */
  function InitStep(s: Sched): Sched
    requires WellShaped(s)
  {
    WithCore(s.(tasks := s.tasks[0 := Task(Null, Running(0), 0, 0, false, 0, BootStack(0))], count := 1),
             0, s.cores[0].(current := Some(0)))
  }

  function Booted(kernelRoot: nat, depth: nat): Sched {
    InitStep(PowerOn(kernelRoot, depth))
  }

  predicate IsRun(s: Sched, acts: seq<Action>)
    decreases |acts|
  {
    acts == [] || (Enabled(s, acts[0]) && IsRun(Step(s, acts[0]), acts[1..]))
  }

  function Final(s: Sched, acts: seq<Action>): Sched
    requires IsRun(s, acts)
    decreases |acts|
  {
    if acts == [] then s else Final(Step(s, acts[0]), acts[1..])
  }
}
