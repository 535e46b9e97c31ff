/** What every interleaving of the scheduler keeps. */
module TaskSafety {
  import opened Common
  import opened TaskModel

  // ----- the invariant -----

  ghost predicate PhaseOk(s: Sched, c: nat)
    requires WellShaped(s) && c < MAX_CPUS
    requires s.cores[c].current.Some? && s.cores[c].current.value < MAX_TASKS && s.cores[c].rsp.At?
  {
    var k := s.cores[c];
    var cur := s.tasks[k.current.value];
    match k.phase
    case Outside =>
      k.pending.None? && k.rsp.stack == cur.stack && k.cr3 == Want(s.kernelRoot, cur.root)
    case Picked(save, load, outRoot, inRoot) =>
      OwesHandoff(s, c, save) && k.pending == Some(save) && k.rsp.stack == s.tasks[save].stack &&
      load == Latest(s, cur.stack) && load.At? && load.stack == cur.stack &&
      inRoot == cur.root && k.cr3 == Want(s.kernelRoot, outRoot)
    case Mapped(save, load) =>
      OwesHandoff(s, c, save) && k.pending == Some(save) && k.rsp.stack == s.tasks[save].stack &&
      load == Latest(s, cur.stack) && load.At? && load.stack == cur.stack && k.cr3 == Want(s.kernelRoot, cur.root)
    case Saved(save, load) =>
      OwesHandoff(s, c, save) && k.pending == Some(save) && k.rsp.stack == s.tasks[save].stack &&
      load == Latest(s, cur.stack) && load.At? && load.stack == cur.stack && k.cr3 == Want(s.kernelRoot, cur.root) &&
      WrittenDown(s, save)
    case Landed =>
      k.pending.Some? && OwesHandoff(s, c, k.pending.value) && WrittenDown(s, k.pending.value) &&
      k.rsp.stack == cur.stack && k.cr3 == Want(s.kernelRoot, cur.root)
    case Releasing(prev) =>
      k.pending.None? && OwesHandoff(s, c, prev) && WrittenDown(s, prev) &&
      k.rsp.stack == cur.stack && k.cr3 == Want(s.kernelRoot, cur.root)
  }

  ghost predicate OwesHandoff(s: Sched, c: nat, prev: nat)
    requires WellShaped(s)
  {
    prev < s.count && s.tasks[prev].state == Handoff(c)
  }

  /** The recorded stack pointer of `t` is the one its stack was left with. */
  ghost predicate WrittenDown(s: Sched, t: nat)
    requires WellShaped(s) && t < MAX_TASKS
  {
    s.tasks[t].rsp.At? && s.tasks[t].rsp.stack == s.tasks[t].stack &&
    s.tasks[t].rsp == Latest(s, s.tasks[t].stack)
  }

  ghost predicate CoreOk(s: Sched, c: nat)
    requires WellShaped(s) && c < MAX_CPUS
  {
    var k := s.cores[c];
    k.rsp.At? &&
    match k.current
    case None => k.pending.None? && k.phase.Outside? && k.rsp.stack == BootStack(c) && k.cr3 == s.kernelRoot
    case Some(t) => t < s.count && s.tasks[t].state == Running(c) && PhaseOk(s, c)
  }

  ghost predicate TaskOk(s: Sched, t: nat)
    requires WellShaped(s) && t < MAX_TASKS
  {
    var x := s.tasks[t];
    (t < s.count <==> !x.state.Unused?) &&
    (x.state.Running? ==> x.state.core < MAX_CPUS && s.cores[x.state.core].current == Some(t) && MayRun(x, x.state.core)) &&
    (x.state.Handoff? ==>
       && x.state.core < MAX_CPUS && MayRun(x, x.state.core)
       && (s.cores[x.state.core].pending == Some(t) || s.cores[x.state.core].phase == Releasing(t))) &&
    (x.state.Ready? ==> WrittenDown(s, t)) &&
    (t < s.count ==>
      match x.stack
      case HeapStack(slot) => slot == t
      case BootStack(cpu) => cpu < MAX_CPUS && s.cores[cpu].current.Some?)
  }

  ghost predicate StacksDistinct(s: Sched)
    requires WellShaped(s)
  {
    forall t: nat, u: nat | t < u < s.count :: s.tasks[t].stack != s.tasks[u].stack
  }

  ghost predicate Inv(s: Sched) {
    WellShaped(s) && 0 < s.count && StacksDistinct(s) &&
    (forall c: nat | c < MAX_CPUS :: CoreOk(s, c)) &&
    (forall t: nat | t < MAX_TASKS :: TaskOk(s, t))
  }

  /** What the invariant says of one core and of the task it runs. */
  lemma CoreFacts(s: Sched, c: nat)
    requires Inv(s) && c < MAX_CPUS
    ensures CoreOk(s, c)
    ensures s.cores[c].current.Some? ==> TaskOk(s, s.cores[c].current.value)
  {
    assert CoreOk(s, c);
  }

  // ----- it holds at the start and every step keeps it -----

  lemma BootedInv(kernelRoot: nat, depth: nat)
    ensures Inv(Booted(kernelRoot, depth))
  {
    var s := Booted(kernelRoot, depth);
    assert forall c: nat | c < MAX_CPUS :: CoreOk(s, c);
  }

  lemma ExecuteKeeps(s: Sched, a: Action)
    requires Inv(s) && a.Execute? && Enabled(s, a)
    ensures Inv(Step(s, a))
  {
    var s' := Step(s, a);
    forall c: nat | c < MAX_CPUS ensures CoreOk(s', c) { CoreFacts(s, c); }
    forall t: nat | t < MAX_TASKS ensures TaskOk(s', t) { assert TaskOk(s, t); }
  }

  lemma SpawnKeeps(s: Sched, a: Action)
    requires Inv(s) && a.Spawn? && Enabled(s, a)
    ensures Inv(Step(s, a))
  {
    var s' := Step(s, a);
    forall t: nat | t < s.count ensures s.tasks[t].stack != HeapStack(s.count) { assert TaskOk(s, t); }
    forall c: nat | c < MAX_CPUS ensures CoreOk(s', c) { CoreFacts(s, c); }
    forall t: nat | t < MAX_TASKS ensures TaskOk(s', t) { assert TaskOk(s, t); }
  }

  lemma AdoptKeeps(s: Sched, a: Action)
    requires Inv(s) && a.AdoptIdle? && Enabled(s, a)
    ensures Inv(Step(s, a))
  {
    var s' := Step(s, a);
    CoreFacts(s, a.c);
    // The adopting core had no task, so no task can be standing on its stack.
    forall t: nat | t < s.count ensures s.tasks[t].stack != BootStack(a.c) { assert TaskOk(s, t); }
    forall c: nat | c < MAX_CPUS ensures CoreOk(s', c) { CoreFacts(s, c); }
    forall t: nat | t < MAX_TASKS ensures TaskOk(s', t) { assert TaskOk(s, t); }
  }

  lemma JoinKeeps(s: Sched, a: Action)
    requires Inv(s) && a.Join? && Enabled(s, a)
    ensures Inv(Step(s, a))
  {
    var s' := Step(s, a);
    forall c: nat | c < MAX_CPUS ensures CoreOk(s', c) { CoreFacts(s, c); }
    forall t: nat | t < MAX_TASKS ensures TaskOk(s', t) { assert TaskOk(s, t); }
  }

  lemma UnpinKeeps(s: Sched, a: Action)
    requires Inv(s) && a.Unpin? && Enabled(s, a)
    ensures Inv(Step(s, a))
  {
    var s' := Step(s, a);
    forall c: nat | c < MAX_CPUS ensures CoreOk(s', c) { CoreFacts(s, c); }
    forall t: nat | t < MAX_TASKS ensures TaskOk(s', t) { assert TaskOk(s, t); }
  }

  lemma SetRootKeepsCores(s: Sched, a: Action, c: nat)
    requires Inv(s) && a.SetRoot? && Enabled(s, a) && c < MAX_CPUS
    ensures CoreOk(Step(s, a), c)
  {
    CoreFacts(s, a.c);
    CoreFacts(s, c);
  }

  lemma SetRootKeeps(s: Sched, a: Action)
    requires Inv(s) && a.SetRoot? && Enabled(s, a)
    ensures Inv(Step(s, a))
  {
    var s' := Step(s, a);
    forall c: nat | c < MAX_CPUS ensures CoreOk(s', c) { SetRootKeepsCores(s, a, c); }
    forall t: nat | t < MAX_TASKS ensures TaskOk(s', t) { assert TaskOk(s, t); }
  }

  /** What a pick that found something does to the table and to its core. */
  lemma PickFacts(s: Sched, c: nat)
    requires Inv(s) && Enabled(s, Pick(c)) && PickStep(s, c) != s
    ensures var k := s.cores[c]; var k' := PickStep(s, c).cores[c];
            && k.current.Some? && k'.current.Some? && k'.current != k.current
            && k'.current.value < s.count && Claimable(s.tasks[k'.current.value], c)
  {
    CoreFacts(s, c);
  }

  lemma PickKeepsCores(s: Sched, c: nat, s': Sched, d: nat)
    requires d < MAX_CPUS && Enabled(s, Pick(c)) && s' == PickStep(s, c) != s
    requires Inv(s)
    ensures CoreOk(s', d)
  {
    hide Select, Scan;
    PickFacts(s, c);
    CoreFacts(s, d);
    if d == c {
      assert TaskOk(s, s'.cores[c].current.value);
    } else {
      CoreFacts(s, c);
    }
  }

  lemma PickKeepsTasks(s: Sched, c: nat, s': Sched, t: nat)
    requires t < MAX_TASKS && Enabled(s, Pick(c)) && s' == PickStep(s, c) != s
    requires Inv(s)
    ensures TaskOk(s', t)
  {
    hide Select, Scan;
    PickFacts(s, c);
    CoreFacts(s, c);
    assert TaskOk(s, t);
  }

  lemma PickKeeps(s: Sched, a: Action)
    requires Inv(s) && a.Pick? && Enabled(s, a)
    ensures Inv(Step(s, a))
  {
    var s' := Step(s, a);
    if s' != s {
      forall c: nat | c < MAX_CPUS ensures CoreOk(s', c) { PickKeepsCores(s, a.c, s', c); }
      forall t: nat | t < MAX_TASKS ensures TaskOk(s', t) { PickKeepsTasks(s, a.c, s', t); }
      PickFacts(s, a.c);
    }
  }

  lemma WriteCr3Keeps(s: Sched, a: Action)
    requires Inv(s) && a.WriteCr3? && Enabled(s, a)
    ensures Inv(Step(s, a))
  {
    var s' := Step(s, a);
    forall c: nat | c < MAX_CPUS ensures CoreOk(s', c) { CoreFacts(s, c); }
    forall t: nat | t < MAX_TASKS ensures TaskOk(s', t) { assert TaskOk(s, t); }
  }

  lemma SaveKeepsCores(s: Sched, a: Action, c: nat)
    requires Inv(s) && a.SaveRsp? && Enabled(s, a) && c < MAX_CPUS
    ensures CoreOk(Step(s, a), c)
  {
    CoreFacts(s, a.c);
    CoreFacts(s, c);
  }

  lemma SaveKeeps(s: Sched, a: Action)
    requires Inv(s) && a.SaveRsp? && Enabled(s, a)
    ensures Inv(Step(s, a))
  {
    var s' := Step(s, a);
    CoreFacts(s, a.c);
    forall c: nat | c < MAX_CPUS ensures CoreOk(s', c) { SaveKeepsCores(s, a, c); }
    forall t: nat | t < MAX_TASKS ensures TaskOk(s', t) { assert TaskOk(s, t); }
  }

  lemma LoadKeeps(s: Sched, a: Action)
    requires Inv(s) && a.LoadRsp? && Enabled(s, a)
    ensures Inv(Step(s, a))
  {
    var s' := Step(s, a);
    CoreFacts(s, a.c);
    forall c: nat | c < MAX_CPUS ensures CoreOk(s', c) { CoreFacts(s, c); }
    forall t: nat | t < MAX_TASKS ensures TaskOk(s', t) { assert TaskOk(s, t); }
  }

  lemma TakePendingKeeps(s: Sched, a: Action)
    requires Inv(s) && a.TakePending? && Enabled(s, a)
    ensures Inv(Step(s, a))
  {
    var s' := Step(s, a);
    CoreFacts(s, a.c);
    forall c: nat | c < MAX_CPUS ensures CoreOk(s', c) { CoreFacts(s, c); }
    forall t: nat | t < MAX_TASKS ensures TaskOk(s', t) { assert TaskOk(s, t); }
  }

  lemma ReleaseKeeps(s: Sched, a: Action)
    requires Inv(s) && a.Release? && Enabled(s, a)
    ensures Inv(Step(s, a))
  {
    var s' := Step(s, a);
    CoreFacts(s, a.c);
    forall c: nat | c < MAX_CPUS ensures CoreOk(s', c) { CoreFacts(s, c); }
    forall t: nat | t < MAX_TASKS ensures TaskOk(s', t) { assert TaskOk(s, t); }
  }

  lemma StepKeeps(s: Sched, a: Action)
    requires Inv(s) && Enabled(s, a)
    ensures Inv(Step(s, a))
  {
    match a
    case Execute(_, _) => ExecuteKeeps(s, a);
    case Spawn(_, _) => SpawnKeeps(s, a);
    case AdoptIdle(_) => AdoptKeeps(s, a);
    case Join(_) => JoinKeeps(s, a);
    case Unpin(_, _) => UnpinKeeps(s, a);
    case SetRoot(_, _, _) => SetRootKeeps(s, a);
    case Pick(_) => PickKeeps(s, a);
    case WriteCr3(_) => WriteCr3Keeps(s, a);
    case SaveRsp(_) => SaveKeeps(s, a);
    case LoadRsp(_) => LoadKeeps(s, a);
    case TakePending(_) => TakePendingKeeps(s, a);
    case Release(_) => ReleaseKeeps(s, a);
  }

  lemma {:induction false} RunKeeps(s: Sched, acts: seq<Action>)
    requires Inv(s) && IsRun(s, acts)
    ensures Inv(Final(s, acts))
    decreases |acts|
  {
    if acts != [] {
      StepKeeps(s, acts[0]);
      RunKeeps(Step(s, acts[0]), acts[1..]);
    }
  }

  // ----- what the invariant means -----

  /** The task whose stack core `c` must be standing on. */
  function StandsFor(k: Core): Option<nat> {
    match k.phase
    case Picked(save, _, _, _) => Some(save)
    case Mapped(save, _) => Some(save)
    case Saved(save, _) => Some(save)
    case Outside => k.current
    case Landed => k.current
    case Releasing(_) => k.current
  }

  /** A core stands on the stack of the task it is leaving or of the one it
      runs, and that task is marked as its own. */
  lemma StandsOnOwn(s: Sched, c: nat)
    requires Inv(s) && c < MAX_CPUS
    ensures s.cores[c].rsp.At?
    ensures match StandsFor(s.cores[c])
            case None => s.cores[c].rsp.stack == BootStack(c)
            case Some(t) =>
              && t < s.count && s.cores[c].rsp.stack == s.tasks[t].stack
              && (s.tasks[t].state == Running(c) || s.tasks[t].state == Handoff(c))
  {
    CoreFacts(s, c);
  }

  /** Two cores are never on one stack. */
  lemma NoSharedStack(s: Sched, c: nat, d: nat)
    requires Inv(s) && c < MAX_CPUS && d < MAX_CPUS && c != d
    ensures s.cores[c].rsp.At? && s.cores[d].rsp.At? && s.cores[c].rsp.stack != s.cores[d].rsp.stack
  {
    StandsOnOwn(s, c);
    StandsOnOwn(s, d);
    CoreFacts(s, c);
    CoreFacts(s, d);
    var x, y := StandsFor(s.cores[c]), StandsFor(s.cores[d]);
    if x.Some? { assert TaskOk(s, x.value); }
    if y.Some? { assert TaskOk(s, y.value); }
  }

  /** What core `c` is about to load is what the incoming task's stack was left
      with: its last switch away, or the frame `spawn` fabricated. */
  ghost predicate LoadsLatest(s: Sched, c: nat)
    requires WellShaped(s) && c < MAX_CPUS && s.cores[c].phase.Saved?
  {
    var k := s.cores[c];
    && k.current.Some? && k.current.value < MAX_TASKS
    && k.phase.load.At? && k.phase.load.stack == s.tasks[k.current.value].stack
    && k.phase.load == Latest(s, s.tasks[k.current.value].stack)
  }

  /** One core, as a reader of the machine would check it: CURRENT names a task
      marked as running here and allowed here, PENDING one marked as handed off
      here, a load is of the right pointer, and outside a switch CR3 is the
      current task's root. */
  ghost predicate CoreSafe(s: Sched, c: nat)
    requires WellShaped(s) && c < MAX_CPUS
  {
    var k := s.cores[c];
    && (k.current.Some? ==>
          && k.current.value < MAX_TASKS && s.tasks[k.current.value].state == Running(c)
          && MayRun(s.tasks[k.current.value], c)
          && (k.phase.Outside? ==> k.cr3 == Want(s.kernelRoot, s.tasks[k.current.value].root)))
    && (k.pending.Some? ==> k.pending.value < MAX_TASKS && s.tasks[k.pending.value].state == Handoff(c))
    && (k.phase.Saved? ==> LoadsLatest(s, c))
  }

  /** No two cores on one stack. */
  ghost predicate StacksApart(s: Sched)
    requires WellShaped(s)
  {
    forall c: nat, d: nat | c < MAX_CPUS && d < MAX_CPUS && c != d ::
      s.cores[c].rsp.At? && s.cores[d].rsp.At? && s.cores[c].rsp.stack != s.cores[d].rsp.stack
  }

  ghost predicate Safe(s: Sched) {
    WellShaped(s) && StacksApart(s) && forall c: nat | c < MAX_CPUS :: CoreSafe(s, c)
  }

  lemma InvIsSafe(s: Sched)
    requires Inv(s)
    ensures Safe(s)
  {
    forall c: nat | c < MAX_CPUS ensures CoreSafe(s, c) { CoreFacts(s, c); }
    forall c: nat, d: nat | c < MAX_CPUS && d < MAX_CPUS && c != d
      ensures s.cores[c].rsp.At? && s.cores[d].rsp.At? && s.cores[c].rsp.stack != s.cores[d].rsp.stack
    {
      NoSharedStack(s, c, d);
    }
  }

  /** The scheduler's safety: after `init`, every interleaving of any number of
      cores keeps all of it. */
  lemma EveryRunIsSafe(kernelRoot: nat, depth: nat, acts: seq<Action>)
    requires IsRun(Booted(kernelRoot, depth), acts)
    ensures Safe(Final(Booted(kernelRoot, depth), acts))
  {
    BootedInv(kernelRoot, depth);
    RunKeeps(Booted(kernelRoot, depth), acts);
    InvIsSafe(Final(Booted(kernelRoot, depth), acts));
  }

  // ----- the address-space fast path -----

  /** Skipping the write when both roots are the kernel's is sound: CR3 already
      holds the kernel's root. Taken or skipped, it ends on the root of the task
      being switched to. */
  lemma FastPathIsSound(s: Sched, c: nat)
    requires Inv(s) && Enabled(s, WriteCr3(c))
    ensures s.cores[c].phase.outRoot == 0 && s.cores[c].phase.inRoot == 0 ==> s.cores[c].cr3 == s.kernelRoot
    ensures s.cores[c].current.Some? && s.cores[c].current.value < MAX_TASKS
    ensures Step(s, WriteCr3(c)).cores[c].cr3 == Want(s.kernelRoot, s.tasks[s.cores[c].current.value].root)
  {
    CoreFacts(s, c);
  }

  /** A core's CR3 once the write it may owe is done. */
  function SettledCr3(s: Sched, d: nat): nat
    requires WellShaped(s) && d < MAX_CPUS
  {
    if s.cores[d].phase.Picked? then WriteCr3Step(s, d).cores[d].cr3 else s.cores[d].cr3
  }

  /** Changing the root of a task another core is running, wherever in a switch that
      core may be, breaks the core's record exactly when the new root means another
      address space. */
  lemma ForeignSetRoot(s: Sched, c: nat, d: nat, root: nat)
    requires Inv(s) && c < MAX_CPUS && d < MAX_CPUS && c != d
    requires RunsCode(s, c) && s.cores[d].current.Some?
    ensures s.cores[d].current.value < MAX_TASKS
    ensures var s' := SetRootStep(s, c, s.cores[d].current.value, root);
            var t := s.cores[d].current.value;
            SettledCr3(s', d) == Want(s'.kernelRoot, s'.tasks[t].root)
            <==> Want(s.kernelRoot, root) == Want(s.kernelRoot, s.tasks[t].root)
  {
    CoreFacts(s, c);
    CoreFacts(s, d);
  }
}
