/**
 Why `init` has to run before any core adopts its stack.

 `main` starts the other cores before it calls `task::init`, and each of them
 calls `adopt_idle` as it comes up. In that order the first core to arrive takes
 slot 0, `init` then overwrites slot 0 and sets COUNT back to 1, and two cores
 believe they run task 0. From there a run leads to two cores on one stack,
 whichever core was first and however many came behind it.
 */
module TaskBootOrder {
  import opened Common
  import opened TaskModel
  import opened TaskSafety

  lemma {:induction false} Extend(s: Sched, acts: seq<Action>, a: Action)
    requires IsRun(s, acts) && Enabled(Final(s, acts), a)
    ensures IsRun(s, acts + [a])
    ensures Final(s, acts + [a]) == Step(Final(s, acts), a)
    decreases |acts|
  {
    if acts == [] {
      assert (acts + [a])[1..] == [];
    } else {
      assert (acts + [a])[1..] == acts[1..] + [a];
      Extend(Step(s, acts[0]), acts[1..], a);
    }
  }

  /** Cores other than the first, each once. */
  predicate Adopters(early: seq<nat>) {
    (forall i | 0 <= i < |early| :: 1 <= early[i] < MAX_CPUS) &&
    (forall i, j | 0 <= i < j < |early| :: early[i] != early[j])
  }

  /** The cores of `early` adopt their stacks in turn. */
  function Adopted(kernelRoot: nat, depth: nat, early: seq<nat>): (s: Sched)
    requires Adopters(early)
    ensures WellShaped(s)
  {
    if early == [] then PowerOn(kernelRoot, depth)
    else
      var n := |early| - 1;
      AdoptStep(Adopted(kernelRoot, depth, early[..n]), early[n])
  }

  /** And only then is `init` called. */
  function LateInit(kernelRoot: nat, depth: nat, early: seq<nat>): Sched
    requires Adopters(early)
  {
    InitStep(Adopted(kernelRoot, depth, early))
  }

  /** The first of them has slot 0, and nobody else has touched core 0 or it. */
  lemma {:induction false} FirstHasSlot0(kernelRoot: nat, depth: nat, early: seq<nat>)
    requires Adopters(early) && early != []
    ensures var s := Adopted(kernelRoot, depth, early);
            && s.count > 0 && s.kernelRoot == kernelRoot
            && s.cores[0] == Core(None, None, true, Outside, At(BootStack(0), depth), kernelRoot)
            && s.cores[early[0]] == Core(Some(0), None, false, Outside, At(BootStack(early[0]), depth), kernelRoot)
  {
    var n := |early| - 1;
    if n > 0 {
      FirstHasSlot0(kernelRoot, depth, early[..n]);
      assert early[..n][0] == early[0] && early[n] != early[0];
    }
  }

  /** The three slots and two cores the run is about, the second of them `c`. */
  ghost predicate Shows(s: Sched, c: nat, t0: Task, t1: Task, t2: Task, k0: Core, kc: Core) {
    && WellShaped(s) && s.count == 3 && 0 < c < MAX_CPUS
    && s.tasks[0] == t0 && s.tasks[1] == t1 && s.tasks[2] == t2
    && s.cores[0] == k0 && s.cores[c] == kc
  }

  /** What core `c` picks, when slot `i` is the only thing it may take. */
  lemma OnlyChoice(s: Sched, c: nat, i: nat)
    requires Enabled(s, Pick(c)) && s.count == 3 && s.cores[c].current.Some?
    requires i < 3 && Accepts(s.tasks, s.cores[c].current.value, c, false, i)
    requires forall j: nat | j < 3 && j != i :: !Accepts(s.tasks, s.cores[c].current.value, c, false, j)
    ensures Select(s.tasks, 3, s.cores[c].current.value, c) == Some(i)
  {
  }

  /** Both cores are given a task to leave task 0 for. */
  lemma SetUp(kernelRoot: nat, depth: nat, early: seq<nat>) returns (acts: seq<Action>)
    requires Adopters(early) && early != []
    ensures IsRun(LateInit(kernelRoot, depth, early), acts)
    ensures Shows(Final(LateInit(kernelRoot, depth, early), acts), early[0],
                  Task(Null, Running(0), 0, 0, false, 0, BootStack(0)),
                  SpawnedTask(1, depth), SpawnedTask(2, depth).(pin := -1),
                  Core(Some(0), None, true, Outside, At(BootStack(0), depth), kernelRoot),
                  Core(Some(0), None, true, Outside, At(BootStack(early[0]), depth), kernelRoot))
    ensures Final(LateInit(kernelRoot, depth, early), acts).kernelRoot == kernelRoot
  {
    var s, c := LateInit(kernelRoot, depth, early), early[0];
    FirstHasSlot0(kernelRoot, depth, early);
    acts := [];
    Extend(s, acts, Spawn(0, depth)); acts := acts + [Spawn(0, depth)];
    Extend(s, acts, Spawn(0, depth)); acts := acts + [Spawn(0, depth)];
    Extend(s, acts, Unpin(0, 2)); acts := acts + [Unpin(0, 2)];
    Extend(s, acts, Join(c)); acts := acts + [Join(c)];
  }

  /** Core 0 leaves task 0 for task 1 and has yet to release it. */
  lemma Core0Leaves(kernelRoot: nat, depth: nat, early: seq<nat>) returns (acts: seq<Action>)
    requires Adopters(early) && early != []
    ensures IsRun(LateInit(kernelRoot, depth, early), acts)
    ensures Shows(Final(LateInit(kernelRoot, depth, early), acts), early[0],
                  Task(At(BootStack(0), depth), Handoff(0), 0, 0, false, 0, BootStack(0)),
                  SpawnedTask(1, depth).(state := Running(0), switches := 1),
                  SpawnedTask(2, depth).(pin := -1),
                  Core(Some(1), Some(0), true, Landed, At(HeapStack(1), depth), kernelRoot),
                  Core(Some(0), None, true, Outside, At(BootStack(early[0]), depth), kernelRoot))
    ensures Final(LateInit(kernelRoot, depth, early), acts).kernelRoot == kernelRoot
  {
    hide IsRun, Final, Scan;
    var s, c := LateInit(kernelRoot, depth, early), early[0];
    acts := SetUp(kernelRoot, depth, early);
    var f := Final(s, acts);
    assert Accepts(f.tasks, 0, 0, false, 1) && Distance(3, 0, 1) == 0;
    assert Select(f.tasks, 3, 0, 0) == Some(1);
    Extend(s, acts, Pick(0)); acts := acts + [Pick(0)];
    Extend(s, acts, WriteCr3(0)); acts := acts + [WriteCr3(0)];
    Extend(s, acts, SaveRsp(0)); acts := acts + [SaveRsp(0)];
    Extend(s, acts, LoadRsp(0)); acts := acts + [LoadRsp(0)];
  }

  /** The early core, which also runs task 0, leaves it for task 2 and stores its own
      stack pointer over the one core 0 stored. */
  lemma CoreCOverwrites(kernelRoot: nat, depth: nat, early: seq<nat>) returns (acts: seq<Action>)
    requires Adopters(early) && early != []
    ensures IsRun(LateInit(kernelRoot, depth, early), acts)
    ensures Shows(Final(LateInit(kernelRoot, depth, early), acts), early[0],
                  Task(At(BootStack(early[0]), depth), Handoff(early[0]), 0, 0, false, 0, BootStack(0)),
                  SpawnedTask(1, depth).(state := Running(0), switches := 1),
                  SpawnedTask(2, depth).(state := Running(early[0]), switches := 1, pin := -1),
                  Core(Some(1), Some(0), true, Landed, At(HeapStack(1), depth), kernelRoot),
                  Core(Some(2), Some(0), true, Saved(0, At(HeapStack(2), depth)), At(BootStack(early[0]), depth), kernelRoot))
    ensures Final(LateInit(kernelRoot, depth, early), acts).kernelRoot == kernelRoot
  {
    hide IsRun, Final, Scan;
    var s, c := LateInit(kernelRoot, depth, early), early[0];
    acts := Core0Leaves(kernelRoot, depth, early);
    OnlyChoice(Final(s, acts), c, 2);
    Extend(s, acts, Pick(c)); acts := acts + [Pick(c)];
    Extend(s, acts, WriteCr3(c)); acts := acts + [WriteCr3(c)];
    Extend(s, acts, SaveRsp(c)); acts := acts + [SaveRsp(c)];
  }

  /** Core 0 releases task 0, takes it back, and lands on the stack the early core
      is still standing on. */
  lemma AdoptBeforeInitSharesAStack(kernelRoot: nat, depth: nat, early: seq<nat>) returns (acts: seq<Action>)
    requires Adopters(early) && early != []
    ensures IsRun(LateInit(kernelRoot, depth, early), acts)
    ensures var s := Final(LateInit(kernelRoot, depth, early), acts);
            && WellShaped(s)
            && s.cores[0].rsp.At? && s.cores[early[0]].rsp.At?
            && s.cores[0].rsp.stack == s.cores[early[0]].rsp.stack == BootStack(early[0])
  {
    hide IsRun, Final, Scan;
    var s, c := LateInit(kernelRoot, depth, early), early[0];
    acts := CoreCOverwrites(kernelRoot, depth, early);
    Extend(s, acts, TakePending(0)); acts := acts + [TakePending(0)];
    Extend(s, acts, Release(0)); acts := acts + [Release(0)];
    OnlyChoice(Final(s, acts), 0, 0);
    Extend(s, acts, Pick(0)); acts := acts + [Pick(0)];
    Extend(s, acts, WriteCr3(0)); acts := acts + [WriteCr3(0)];
    Extend(s, acts, SaveRsp(0)); acts := acts + [SaveRsp(0)];
    Extend(s, acts, LoadRsp(0)); acts := acts + [LoadRsp(0)];
  }

  /** When the boot order is right: every run is safe, or even only keeps the cores'
      stacks apart, if and only if no core adopts its stack before `init`. */
  lemma SafeIffInitFirst(kernelRoot: nat, depth: nat, early: seq<nat>)
    requires Adopters(early)
    ensures (forall acts | IsRun(LateInit(kernelRoot, depth, early), acts) ::
               Safe(Final(LateInit(kernelRoot, depth, early), acts)))
            <==> early == []
    ensures (forall acts | IsRun(LateInit(kernelRoot, depth, early), acts) ::
               var t := Final(LateInit(kernelRoot, depth, early), acts); WellShaped(t) && StacksApart(t))
            <==> early == []
  {
    hide StacksApart, CoreSafe, IsRun, Final;
    var s := LateInit(kernelRoot, depth, early);
    if early == [] {
      forall acts | IsRun(s, acts)
        ensures Safe(Final(s, acts))
      {
        EveryRunIsSafe(kernelRoot, depth, acts);
      }
    } else {
      var acts := AdoptBeforeInitSharesAStack(kernelRoot, depth, early);
      SharedIsNotApart(Final(s, acts), early[0]);
    }
  }

  lemma SharedIsNotApart(s: Sched, c: nat)
    requires WellShaped(s) && 0 < c < MAX_CPUS && s.cores[0].rsp.At? && s.cores[c].rsp.At?
    requires s.cores[0].rsp.stack == s.cores[c].rsp.stack
    ensures !StacksApart(s)
  {
  }
}
