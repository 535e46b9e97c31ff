/**
 What each step of the scheduler does to the table and to the cores, said in
 numbers: 24 slots, 16 cores, work born on core 0, 0 for the kernel's root.
 */
module TaskEffects {
  import opened Common
  import opened TaskModel
  import opened TaskSafety

  /** Everything but task `t` is as it was. */
  predicate OnlyTask(s: Sched, s': Sched, t: nat) {
    |s'.tasks| == |s.tasks| && (forall u: nat | u < |s.tasks| && u != t :: s'.tasks[u] == s.tasks[u]) &&
    s'.cores == s.cores && s'.count == s.count && s'.kernelRoot == s.kernelRoot
  }

  /** Everything but core `c` is as it was. */
  predicate OnlyCore(s: Sched, s': Sched, c: nat) {
    |s'.cores| == |s.cores| && (forall d: nat | d < |s.cores| && d != c :: s'.cores[d] == s.cores[d]) &&
    s'.tasks == s.tasks && s'.count == s.count && s'.kernelRoot == s.kernelRoot
  }

  // ----- the calls -----

  /** `set_root` records the root, and on the caller's own task it takes effect at
      once: CR3 holds the new root, the kernel's for 0. On any other task no CR3
      moves, and an index that is not a task changes nothing. */
  lemma SetRootTakesEffect(s: Sched, c: nat, t: nat, root: nat)
    requires Enabled(s, SetRoot(c, t, root)) && Inv(s)
    ensures var s' := Step(s, SetRoot(c, t, root));
            && |s.tasks| == 24 && |s.cores| == 16 && c < 16 && |s'.tasks| == 24 && |s'.cores| == 16
            && (t >= 24 || s.tasks[t].state == Unused ==> s' == s)
            && (t < 24 && s.tasks[t].state != Unused ==>
                  && s'.tasks[t].root == root
                  && s'.tasks[t] == s.tasks[t].(root := s'.tasks[t].root)
                  && (forall u: nat | u < 24 && u != t :: s'.tasks[u] == s.tasks[u])
                  && s'.count == s.count && s'.kernelRoot == s.kernelRoot
                  && (if s.cores[c].current == Some(t)
                      then s'.cores[c].cr3 == (if root == 0 then s.kernelRoot else root)
                           && s'.cores == s.cores[c := s.cores[c].(cr3 := s'.cores[c].cr3)]
                      else s'.cores == s.cores))
  {
    CoreFacts(s, c);
  }

  /** A core that has no task yet counts as task 0's: re-rooting that one from it loads
      the root, re-rooting another does not. */
  lemma SetRootWithoutATask(s: Sched, c: nat, t: nat, root: nat)
    requires WellShaped(s) && c < MAX_CPUS && t < MAX_TASKS
    requires s.cores[c].current == None && s.tasks[t].state != Unused
    ensures var s' := SetRootStep(s, c, t, root);
            && s'.tasks == s.tasks[t := s.tasks[t].(root := root)]
            && s'.cores == if t == 0 then s.cores[c := s.cores[c].(cr3 := if root == 0 then s.kernelRoot else root)]
                           else s.cores
  {
  }

  /** `spawn` fills the next slot with work that is ready, belongs on core 0, is in
      the kernel's address space and starts on a stack of its own. A full table
      refuses. */
  lemma SpawnTakesEffect(s: Sched, c: nat, depth: nat)
    requires Enabled(s, Spawn(c, depth)) && Inv(s)
    ensures var s' := Step(s, Spawn(c, depth)); var n := s.count;
            && |s.tasks| == 24 && |s'.tasks| == 24
            && (n == 24 ==> s' == s)
            && (n < 24 ==>
                  && s'.count == n + 1 && s'.cores == s.cores && s'.kernelRoot == s.kernelRoot
                  && (forall u: nat | u < 24 && u != n :: s'.tasks[u] == s.tasks[u])
                  && var x := s'.tasks[n];
                     && x.state == Ready && x.pin == 0 && !x.idle && x.root == 0 && x.switches == 0
                     && x.rsp == At(x.stack, depth)
                     && forall u: nat | u < n :: s.tasks[u].stack != x.stack)
  {
    forall u: nat | u < s.count ensures s.tasks[u].stack != HeapStack(s.count) { assert TaskOk(s, u); }
  }

  /** `adopt_idle` makes the stack a core booted on the next task: idle, running,
      and never to leave that core. Core 0 and a full table are refused. */
  lemma AdoptTakesEffect(s: Sched, c: nat)
    requires Enabled(s, AdoptIdle(c)) && Inv(s)
    ensures var s' := Step(s, AdoptIdle(c)); var n := s.count;
            && |s.tasks| == 24 && |s'.tasks| == 24 && |s.cores| == 16 && c < 16
            && (c == 0 || n == 24 ==> s' == s)
            && (0 < c && n < 24 ==>
                  && s'.count == n + 1 && s'.kernelRoot == s.kernelRoot
                  && (forall u: nat | u < 24 && u != n :: s'.tasks[u] == s.tasks[u])
                  && s'.cores == s.cores[c := s.cores[c].(current := Some(n))]
                  && var x := s'.tasks[n];
                     x.state == Running(c) && x.pin == c && x.idle && x.root == 0 && x.switches == 0 &&
                     s.cores[c].rsp.At? && x.stack == s.cores[c].rsp.stack)
  {
    CoreFacts(s, c);
  }

  /** `unpin` lets any core run a task that is work; an idle task stays where it is. */
  lemma UnpinTakesEffect(s: Sched, c: nat, t: nat)
    requires Enabled(s, Unpin(c, t)) && Inv(s)
    ensures var s' := Step(s, Unpin(c, t));
            && |s.tasks| == 24
            && (t >= 24 || s.tasks[t].state == Unused || s.tasks[t].idle ==> s' == s)
            && (t < 24 && s.tasks[t].state != Unused && !s.tasks[t].idle ==>
                  && OnlyTask(s, s', t) && s'.tasks[t].pin < 0
                  && s'.tasks[t] == s.tasks[t].(pin := s'.tasks[t].pin))
  {
  }

  /** A core that joined schedules from then on, and nothing else changes. */
  lemma JoinTakesEffect(s: Sched, c: nat)
    requires Enabled(s, Join(c)) && Inv(s)
    ensures var s' := Step(s, Join(c));
            && |s.cores| == 16 && c < 16 && OnlyCore(s, s', c)
            && s'.cores[c].joined && s'.cores[c] == s.cores[c].(joined := s'.cores[c].joined)
  {
  }

  /** Code running as a task may make any of the calls: spawn, unpin whatever it names,
      join, schedule, and re-root itself or a task that runs nowhere. */
  lemma CallsAreOpen(s: Sched, c: nat, t: nat, root: nat, depth: nat)
    requires Inv(s) && c < 16 && s.cores[c].current.Some? && s.cores[c].phase == Outside
    ensures Enabled(s, Spawn(c, depth)) && Enabled(s, Unpin(c, t)) && Enabled(s, Join(c)) && Enabled(s, Pick(c))
    ensures s.cores[c].current == Some(t) || t >= 24 || !s.tasks[t].state.Running? ==> Enabled(s, SetRoot(c, t, root))
  {
    CoreFacts(s, c);
  }

  // ----- the pick -----

  /** The scan goes upwards from the slot behind the current one and around: what
      it takes has nothing of its own kind free in front of it in that order. */
  lemma PickGoesUpwards(s: Sched, c: nat)
    requires Enabled(s, Pick(c)) && Inv(s) && s.cores[c].joined && s.cores[c].current.Some?
    requires PickStep(s, c).cores[c].current != s.cores[c].current
    ensures var cur := s.cores[c].current.value; var r := PickStep(s, c).cores[c].current;
            && r.Some? && r.value < s.count && |s.tasks| == 24
            && forall j: nat | j < s.count && j < 24 && j != cur && j != r.value && s.tasks[j].state == Ready
                               && (s.tasks[j].pin < 0 || s.tasks[j].pin == c) && s.tasks[j].idle == s.tasks[r.value].idle ::
                 if cur < r.value then j < cur || r.value < j else r.value < j < cur
  {
    CoreFacts(s, c);
    var cur := s.cores[c].current.value;
    var work := Scan(s.tasks, s.count, cur, c, false, 0);
    var rest := Scan(s.tasks, s.count, cur, c, true, 0);
    forall j: nat | j < s.count && j != cur && Claimable(s.tasks[j], c)
      ensures s.tasks[j].idle || (work.Some? && Distance(s.count, cur, work.value) <= Distance(s.count, cur, j))
      ensures s.tasks[j].idle ==> rest.Some? && Distance(s.count, cur, rest.value) <= Distance(s.count, cur, j)
    {
      assert Accepts(s.tasks, cur, c, s.tasks[j].idle, j);
    }
  }

  /** A pick that found something takes a free task of those `c` may run, hands off
      the one it leaves, and touches nothing else. */
  lemma PickTakesEffect(s: Sched, c: nat)
    requires Enabled(s, Pick(c)) && Inv(s) && s.cores[c].joined && s.cores[c].current.Some?
    requires PickStep(s, c).cores[c].current != s.cores[c].current
    ensures var s' := PickStep(s, c); var cur, r := s.cores[c].current.value, s'.cores[c].current;
            && |s.tasks| == 24 && |s.cores| == 16 && c < 16 && cur < 24 && r.Some? && r.value < 24 && r.value != cur
            && s.tasks[r.value].state == Ready && (s.tasks[r.value].pin < 0 || s.tasks[r.value].pin == c)
            && var x, y := s.tasks[r.value], s.tasks[cur];
               && s'.tasks == s.tasks[cur := y.(state := Handoff(c))]
                                     [r.value := x.(state := Running(c), switches := x.switches + 1)]
               && s'.cores == s.cores[c := s.cores[c].(current := r, pending := Some(cur),
                                                       phase := Picked(cur, x.rsp, y.root, x.root))]
               && s'.count == s.count && s'.kernelRoot == s.kernelRoot
  {
    PickFacts(s, c);
    CoreFacts(s, c);
    hide Inv, Scan, Select;
  }

  /** A core that has not joined, or has no task, picks nothing. */
  lemma IdleCorePicksNothing(s: Sched, c: nat)
    requires Enabled(s, Pick(c)) && (!s.cores[c].joined || s.cores[c].current.None?)
    ensures Step(s, Pick(c)) == s
  {
  }

  // ----- a whole switch -----

  /** The six steps of a switch in a row, with no other core in between: the task
      left is ready again with the stack pointer its core had, the task taken runs
      where it had stopped and in its own address space, and nothing else changed. */
  lemma SwitchTakesEffect(s: Sched, c: nat)
    requires Enabled(s, Pick(c)) && Inv(s) && s.cores[c].joined && s.cores[c].current.Some?
    requires PickStep(s, c).cores[c].current != s.cores[c].current
    ensures var acts := [Pick(c), WriteCr3(c), SaveRsp(c), LoadRsp(c), TakePending(c), Release(c)];
            var cur, r := s.cores[c].current.value, PickStep(s, c).cores[c].current;
            && IsRun(s, acts) && |s.tasks| == 24 && |s.cores| == 16 && c < 16 && cur < 24
            && r.Some? && r.value < 24 && r.value != cur
            && s.tasks[r.value].state == Ready && (s.tasks[r.value].pin < 0 || s.tasks[r.value].pin == c)
            && var f := Final(s, acts); var x := s.tasks[r.value];
               && f.tasks == s.tasks[cur := s.tasks[cur].(state := Ready, rsp := s.cores[c].rsp)]
                                    [r.value := x.(state := Running(c), switches := x.switches + 1)]
               && f.cores == s.cores[c := Core(r, None, true, Outside, x.rsp,
                                               if x.root == 0 then s.kernelRoot else x.root)]
               && f.count == s.count && f.kernelRoot == s.kernelRoot
  {
    hide Inv, IsRun, Final, PickStep;
    PickTakesEffect(s, c);
    PickFound(s, c);
    SwitchRuns(PickStep(s, c), c);
    ThenSwitch(s, c);
    hide Enabled;
  }

  /** A pick that found something leaves its core at the start of a switch. */
  lemma PickFound(s: Sched, c: nat)
    requires Enabled(s, Pick(c)) && Inv(s)
    requires PickStep(s, c).cores[c].current != s.cores[c].current
    ensures var s' := PickStep(s, c); Inv(s') && s'.cores[c].phase.Picked? && s'.cores[c].current.Some?
  {
    PickFacts(s, c);
    PickKeeps(s, Pick(c));
    hide Inv, Select, Scan;
  }

  lemma ThenSwitch(s: Sched, c: nat)
    requires Enabled(s, Pick(c))
    requires IsRun(PickStep(s, c), [WriteCr3(c), SaveRsp(c), LoadRsp(c), TakePending(c), Release(c)])
    ensures var rest := [WriteCr3(c), SaveRsp(c), LoadRsp(c), TakePending(c), Release(c)];
            var acts := [Pick(c), WriteCr3(c), SaveRsp(c), LoadRsp(c), TakePending(c), Release(c)];
            IsRun(s, acts) && Final(s, acts) == Final(PickStep(s, c), rest)
  {
    hide IsRun, Final, PickStep, Enabled;
    var rest := [WriteCr3(c), SaveRsp(c), LoadRsp(c), TakePending(c), Release(c)];
    RunCons(s, Pick(c), rest);
    assert [Pick(c)] + rest == [Pick(c), WriteCr3(c), SaveRsp(c), LoadRsp(c), TakePending(c), Release(c)];
  }

  lemma RunCons(s: Sched, a: Action, acts: seq<Action>)
    requires Enabled(s, a) && IsRun(Step(s, a), acts)
    ensures IsRun(s, [a] + acts) && Final(s, [a] + acts) == Final(Step(s, a), acts)
  {
    assert ([a] + acts)[1..] == acts;
  }

  /** The five steps that follow a pick. */
  lemma SwitchRuns(s: Sched, c: nat)
    requires Inv(s) && c < MAX_CPUS && s.cores[c].phase.Picked? && s.cores[c].current.Some?
    ensures var acts := [WriteCr3(c), SaveRsp(c), LoadRsp(c), TakePending(c), Release(c)];
            var k := s.cores[c]; var cur := k.phase.save;
            && IsRun(s, acts) && cur < MAX_TASKS && k.current.value < MAX_TASKS
            && var f := Final(s, acts); var root := s.tasks[k.current.value].root;
               && f.tasks == s.tasks[cur := s.tasks[cur].(state := Ready, rsp := k.rsp)]
               && f.cores == s.cores[c := k.(pending := None, phase := Outside, rsp := k.phase.load,
                                             cr3 := if root == 0 then s.kernelRoot else root)]
               && f.count == s.count && f.kernelRoot == s.kernelRoot
  {
    CoreFacts(s, c);
    hide Inv, IsRun, Final, StacksDistinct, TaskOk, OwesHandoff, WrittenDown, Latest;
    var s1 := Step(s, WriteCr3(c));
    var s2 := Step(s1, SaveRsp(c));
    var s3 := Step(s2, LoadRsp(c));
    HandoffEnds(s3, c);
    RunCons(s2, LoadRsp(c), [TakePending(c), Release(c)]);
    assert [LoadRsp(c)] + [TakePending(c), Release(c)] == [LoadRsp(c), TakePending(c), Release(c)];
    RunCons(s1, SaveRsp(c), [LoadRsp(c), TakePending(c), Release(c)]);
    assert [SaveRsp(c)] + [LoadRsp(c), TakePending(c), Release(c)] == [SaveRsp(c), LoadRsp(c), TakePending(c), Release(c)];
    RunCons(s, WriteCr3(c), [SaveRsp(c), LoadRsp(c), TakePending(c), Release(c)]);
    assert [WriteCr3(c)] + [SaveRsp(c), LoadRsp(c), TakePending(c), Release(c)]
        == [WriteCr3(c), SaveRsp(c), LoadRsp(c), TakePending(c), Release(c)];
  }

  /** The last two steps: PENDING is emptied and the task in it made ready. */
  lemma HandoffEnds(s: Sched, c: nat)
    requires WellShaped(s) && c < MAX_CPUS && s.cores[c].phase.Landed? && s.cores[c].pending.Some?
    requires s.cores[c].pending.value < MAX_TASKS && s.tasks[s.cores[c].pending.value].state.Handoff?
    ensures var acts := [TakePending(c), Release(c)]; var p := s.cores[c].pending.value;
            && IsRun(s, acts)
            && var f := Final(s, acts);
               && f.tasks == s.tasks[p := s.tasks[p].(state := Ready)]
               && f.cores == s.cores[c := s.cores[c].(pending := None, phase := Outside)]
               && f.count == s.count && f.kernelRoot == s.kernelRoot
  {
    hide IsRun, Final;
    var s1 := Step(s, TakePending(c));
    NoSteps(Step(s1, Release(c)));
    RunCons(s1, Release(c), []);
    assert [Release(c)] + [] == [Release(c)];
    RunCons(s, TakePending(c), [Release(c)]);
    assert [TakePending(c)] + [Release(c)] == [TakePending(c), Release(c)];
  }

  lemma NoSteps(s: Sched)
    ensures IsRun(s, []) && Final(s, []) == s
  {
  }

  // ----- where a task may run -----

  /** An idle task belongs to the core that booted on its stack, and work that was
      `kept` to core 0. */
  predicate AtHome(s: Sched, t: nat, kept: bool)
    requires WellShaped(s)
  {
    t < s.count ==>
      var x := s.tasks[t];
      if x.idle then x.pin >= 0 && x.stack == BootStack(x.pin) else kept ==> x.pin == 0
  }

  predicate Unpins(acts: seq<Action>, t: nat) {
    exists a | a in acts :: a.Unpin? && a.idx == t
  }

  lemma StepStaysHome(s: Sched, a: Action, t: nat, kept: bool)
    requires Enabled(s, a) && AtHome(s, t, kept) && t < MAX_TASKS
    requires Inv(s) && (a.Unpin? && a.idx == t ==> !kept)
    ensures var s' := Step(s, a); WellShaped(s') && AtHome(s', t, kept)
  {
    hide Select, Scan, Latest, NextCr3, StacksDistinct;
    if a.Pick? && PickStep(s, a.c) != s {
      PickFacts(s, a.c);
      CoreFacts(s, a.c);
    }
    assert TaskOk(s, t);
  }

  lemma {:induction false} RunStaysHome(s: Sched, acts: seq<Action>, t: nat, kept: bool)
    requires Inv(s) && IsRun(s, acts) && t < MAX_TASKS && AtHome(s, t, kept)
    requires Unpins(acts, t) ==> !kept
    ensures Inv(Final(s, acts)) && AtHome(Final(s, acts), t, kept)
    decreases |acts|
  {
    hide Inv, Step, Enabled, AtHome;
    if acts != [] {
      StepStaysHome(s, acts[0], t, kept);
      StepKeeps(s, acts[0]);
      RunStaysHome(Step(s, acts[0]), acts[1..], t, kept);
    }
  }

  /** Over every run from boot, whatever the cores do: an idle task runs on the core
      whose boot stack it is and nowhere else, and a task that nobody unpinned runs
      on core 0 and nowhere else. */
  lemma WorkRunsAtHome(kernelRoot: nat, depth: nat, acts: seq<Action>, t: nat, d: nat)
    requires IsRun(Booted(kernelRoot, depth), acts) && t < 24
    ensures var f := Final(Booted(kernelRoot, depth), acts);
            && |f.tasks| == 24
            && (f.tasks[t].state == Running(d) ==>
                  if f.tasks[t].idle then f.tasks[t].stack == BootStack(d)
                  else (forall a | a in acts :: !(a.Unpin? && a.idx == t)) ==> d == 0)
  {
    var s := Booted(kernelRoot, depth);
    BootedInv(kernelRoot, depth);
    RunStaysHome(s, acts, t, !Unpins(acts, t));
    hide Booted, Final, IsRun;
    assert TaskOk(Final(s, acts), t);
  }
}
