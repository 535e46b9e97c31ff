/** How long a runnable task can wait for a core that may run it. */
module TaskFairness {
  import opened Common
  import opened TaskModel
  import opened TaskSafety

  /** Whether a step can make COUNT grow. */
  predicate Grows(a: Action) {
    a.Spawn? || a.AdoptIdle?
  }

  /** The picks core `c` makes along a run. */
  function Picks(acts: seq<Action>, c: nat): nat {
    if acts == [] then 0 else (if acts[0] == Pick(c) then 1 else 0) + Picks(acts[1..], c)
  }

  predicate FixedCount(acts: seq<Action>) {
    forall a | a in acts :: !Grows(a)
  }

  /** Task `t` is `Ready` in every state of the run: no core has taken it. */
  predicate StaysReady(s: Sched, acts: seq<Action>, t: nat)
    requires IsRun(s, acts) && WellShaped(s) && t < MAX_TASKS
    decreases |acts|
  {
    s.tasks[t].state == Ready &&
    (acts == [] || (WellShaped(Step(s, acts[0])) && StaysReady(Step(s, acts[0]), acts[1..], t)))
  }

  /** Core `c` is scheduling, and `t` is work it may run. */
  predicate Wants(s: Sched, c: nat, t: nat) {
    WellShaped(s) && c < MAX_CPUS && t < s.count &&
    s.cores[c].joined && s.cores[c].current.Some? && s.cores[c].current.value < s.count &&
    MayRun(s.tasks[t], c) && !s.tasks[t].idle
  }

  function Wait(s: Sched, c: nat, t: nat): nat
    requires Wants(s, c, t)
  {
    Distance(s.count, s.cores[c].current.value, t)
  }

  /** A pick goes to the nearest claimable work in cyclic order, to an idle task
      only when there is no claimable work, and never to another core's task. */
  lemma PickGoesToNearest(s: Sched, c: nat)
    requires Inv(s) && Enabled(s, Pick(c)) && s.cores[c].joined && s.cores[c].current.Some?
    ensures var cur := s.cores[c].current.value;
            var r := PickStep(s, c).cores[c].current;
            if r == Some(cur) then
              PickStep(s, c) == s && forall j: nat | j < s.count && j != cur :: !Claimable(s.tasks[j], c)
            else
              && r.Some? && r.value < s.count && Claimable(s.tasks[r.value], c)
              && (s.tasks[r.value].idle ==>
                    forall j: nat | j < s.count && j != cur && Claimable(s.tasks[j], c) :: s.tasks[j].idle)
              && (forall j: nat | j < s.count && j != cur && Claimable(s.tasks[j], c)
                                  && s.tasks[j].idle == s.tasks[r.value].idle ::
                    Distance(s.count, cur, r.value) <= Distance(s.count, cur, j))
  {
    CoreFacts(s, c);
    var cur := s.cores[c].current.value;
    var work := Scan(s.tasks, s.count, cur, c, false, 0);
    var rest := Scan(s.tasks, s.count, cur, c, true, 0);
    forall j: nat | j < s.count && j != cur && Claimable(s.tasks[j], c)
      ensures s.tasks[j].idle || (work.Some? && Distance(s.count, cur, work.value) <= Distance(s.count, cur, j))
      ensures s.tasks[j].idle ==> rest.Some? && Distance(s.count, cur, rest.value) <= Distance(s.count, cur, j)
    {
      assert Accepts(s.tasks, cur, c, s.tasks[j].idle, j);
    }
  }

  /** What `c` runs changes only by its own picks. */
  lemma CurrentStays(s: Sched, a: Action, c: nat)
    requires Enabled(s, a) && !Grows(a) && a != Pick(c) && c < MAX_CPUS
    ensures var s' := Step(s, a);
            && |s'.cores| == MAX_CPUS && s'.count == s.count && s'.cores[c].current == s.cores[c].current
            && (s.cores[c].joined ==> s'.cores[c].joined)
  {
    hide NextCr3, Latest, Select;
  }

  /** Whether a core may run a task is never taken back, nor whether it is work. */
  lemma WorkStays(s: Sched, a: Action, c: nat, t: nat)
    requires Enabled(s, a) && !Grows(a) && t < s.count && MayRun(s.tasks[t], c) && !s.tasks[t].idle
    ensures var s' := Step(s, a);
            WellShaped(s') && MayRun(s'.tasks[t], c) && !s'.tasks[t].idle
  {
    hide NextCr3, Latest, Select;
  }

  /** A step that is not a pick by `c` changes neither what `c` runs nor
      anything that would stop it from taking `t`. */
  lemma Undisturbed(s: Sched, a: Action, c: nat, t: nat)
    requires Enabled(s, a) && !Grows(a) && Wants(s, c, t) && a != Pick(c)
    ensures Wants(Step(s, a), c, t) && Wait(Step(s, a), c, t) == Wait(s, c, t)
  {
    hide Step, Enabled;
    CurrentStays(s, a, c);
    WorkStays(s, a, c, t);
  }

  /** A pick that leaves `t` waiting went to something nearer. */
  lemma PickComesNearer(s: Sched, c: nat, t: nat)
    requires Enabled(s, Pick(c)) && Wants(s, c, t) && Claimable(s.tasks[t], c)
    requires var s' := PickStep(s, c); WellShaped(s') && s'.tasks[t].state == Ready
    requires Inv(s)
    ensures Wants(PickStep(s, c), c, t) && Wait(PickStep(s, c), c, t) < Wait(s, c, t)
  {
    CoreFacts(s, c);
    PickGoesToNearest(s, c);
    hide Inv, Select, Scan;
  }

  /** One step while `t` waits: the cyclic distance from what `c` runs to `t`
      strictly falls at each pick `c` makes and otherwise stays. */
  lemma WaitFalls(s: Sched, a: Action, c: nat, t: nat)
    requires Enabled(s, a) && !Grows(a) && Wants(s, c, t)
    requires var s' := Step(s, a); s.tasks[t].state == Ready && WellShaped(s') && s'.tasks[t].state == Ready
    requires Inv(s)
    ensures Wants(Step(s, a), c, t)
    ensures Wait(Step(s, a), c, t) + (if a == Pick(c) then 1 else 0) <= Wait(s, c, t)
  {
    hide Inv, Select, Scan;
    if a == Pick(c) {
      PickComesNearer(s, c, t);
    } else {
      Undisturbed(s, a, c, t);
    }
  }

  lemma {:induction false} PicksSpendTheWait(s: Sched, acts: seq<Action>, c: nat, t: nat)
    requires Inv(s) && IsRun(s, acts) && FixedCount(acts) && Wants(s, c, t)
    requires StaysReady(s, acts, t)
    ensures Picks(acts, c) <= Wait(s, c, t)
    decreases |acts|
  {
    if acts != [] {
      WaitFalls(s, acts[0], c, t);
      StepKeeps(s, acts[0]);
      PicksSpendTheWait(Step(s, acts[0]), acts[1..], c, t);
    }
  }

  /** Bounded waiting. With COUNT fixed, a ready task that is real work and that
      core `c` may run does not stay ready through COUNT-1 picks by `c`: by then
      `c` or another core has taken it. */
  lemma BoundedWaiting(s: Sched, acts: seq<Action>, c: nat, t: nat)
    requires Inv(s) && IsRun(s, acts) && FixedCount(acts) && Wants(s, c, t)
    requires Picks(acts, c) >= s.count - 1
    ensures !StaysReady(s, acts, t)
  {
    if StaysReady(s, acts, t) {
      CoreFacts(s, c);
      PicksSpendTheWait(s, acts, c, t);
    }
  }

  /** A ready task stops being ready in one way only: some core that may run it
      picks it. */
  lemma OnlyAPickTakes(s: Sched, a: Action, t: nat)
    requires Inv(s) && Enabled(s, a) && t < s.count
    requires s.tasks[t].state == Ready && Step(s, a).tasks[t].state != Ready
    ensures a.Pick? && MayRun(s.tasks[t], a.c) && Step(s, a).cores[a.c].current == Some(t)
  {
    CoreFacts(s, a.c);
    hide Inv, Select, Scan, NextCr3, Latest;
  }
}
