/** A switch, once begun, is only ever finished by its own core, in five steps. */
module TaskProgress {
  import opened Common
  import opened TaskModel
  import opened TaskSafety

  function StepsLeft(p: Phase): nat {
    match p
    case Outside => 0
    case Picked(_, _, _, _) => 5
    case Mapped(_, _) => 4
    case Saved(_, _) => 3
    case Landed => 2
    case Releasing(_) => 1
  }

  /** The step a core takes next inside `schedule`. */
  function SwitchStep(c: nat, p: Phase): Action
    requires !p.Outside?
  {
    match p
    case Picked(_, _, _, _) => WriteCr3(c)
    case Mapped(_, _) => SaveRsp(c)
    case Saved(_, _) => LoadRsp(c)
    case Landed => TakePending(c)
    case Releasing(_) => Release(c)
  }

  /** The task a core inside a switch is coming from. */
  function Leaving(k: Core): Option<nat> {
    if k.phase.Releasing? then Some(k.phase.prev) else k.pending
  }

  /** The task a core is leaving is out of every other core's reach for the whole
      of the switch: no step of another core changes the core or that task. */
  lemma OthersLeaveASwitchAlone(s: Sched, a: Action, c: nat)
    requires Enabled(s, a) && c < MAX_CPUS && a.c != c && !s.cores[c].phase.Outside?
    requires Inv(s)
    ensures var s' := Step(s, a); var t := Leaving(s.cores[c]);
            && WellShaped(s') && s'.cores[c] == s.cores[c]
            && t.Some? && t.value < MAX_TASKS
            && s.tasks[t.value].state == Handoff(c) && s'.tasks[t.value].state == Handoff(c)
  {
    hide Select, Scan, TaskOk, StacksDistinct, WrittenDown, Latest;
    CoreFacts(s, c);
    CoreFacts(s, a.c);
    if a.Pick? && PickStep(s, a.c) != s {
      PickFacts(s, a.c);
    }
  }

  /** The core itself is never stuck in one: its next step can be taken, brings it
      one nearer to the end, and leaves it running what it picked; the last one
      makes the task it left ready again. */
  lemma SwitchGoesOn(s: Sched, c: nat)
    requires Inv(s) && c < MAX_CPUS && !s.cores[c].phase.Outside?
    ensures var a := SwitchStep(c, s.cores[c].phase);
            && Enabled(s, a)
            && var s' := Step(s, a);
               && StepsLeft(s'.cores[c].phase) == StepsLeft(s.cores[c].phase) - 1
               && s'.cores[c].current == s.cores[c].current
               && Leaving(s.cores[c]).Some? && Leaving(s.cores[c]).value < MAX_TASKS
               && (if s'.cores[c].phase.Outside?
                   then s'.tasks[Leaving(s.cores[c]).value].state == Ready
                   else Leaving(s'.cores[c]) == Leaving(s.cores[c]))
  {
    CoreFacts(s, c);
  }

  /** The rest of a switch, step by step. */
  function RestOfSwitch(c: nat, p: Phase): seq<Action> {
    if p.Outside? then []
    else [SwitchStep(c, p)] + (match p
                               case Picked(save, load, _, _) => [SaveRsp(c), LoadRsp(c), TakePending(c), Release(c)]
                               case Mapped(_, _) => [LoadRsp(c), TakePending(c), Release(c)]
                               case Saved(_, _) => [TakePending(c), Release(c)]
                               case Landed => [Release(c)]
                               case Releasing(_) => [])
  }

  /** From anywhere inside a switch the core's own steps carry it out of it: it
      ends outside, standing on the stack of the task it picked. */
  lemma {:induction false} SwitchEnds(s: Sched, c: nat)
    requires Inv(s) && c < MAX_CPUS && s.cores[c].current.Some?
    ensures var acts := RestOfSwitch(c, s.cores[c].phase);
            && |acts| == StepsLeft(s.cores[c].phase) && IsRun(s, acts)
            && var t := Final(s, acts); var k := s.cores[c];
               && WellShaped(t) && t.cores[c].phase.Outside? && t.cores[c].current == k.current
               && k.current.value < MAX_TASKS && t.cores[c].rsp.At?
               && t.cores[c].rsp.stack == t.tasks[k.current.value].stack
    decreases StepsLeft(s.cores[c].phase)
  {
    var p := s.cores[c].phase;
    if p.Outside? {
      CoreFacts(s, c);
    } else {
      var a := SwitchStep(c, p);
      SwitchGoesOn(s, c);
      StepKeeps(s, a);
      hide Inv;
      var s' := Step(s, a);
      var acts := RestOfSwitch(c, p);
      RestIs(s, c);
      hide Step;
      SwitchEnds(s', c);
      assert acts[0] == a && acts[1..] == RestOfSwitch(c, s'.cores[c].phase);
    }
  }

  lemma RestIs(s: Sched, c: nat)
    requires Inv(s) && c < MAX_CPUS && !s.cores[c].phase.Outside?
    requires Enabled(s, SwitchStep(c, s.cores[c].phase))
    ensures var p := s.cores[c].phase; var s' := Step(s, SwitchStep(c, p));
            RestOfSwitch(c, p) == [SwitchStep(c, p)] + RestOfSwitch(c, s'.cores[c].phase)
  {
    hide TaskOk, StacksDistinct;
    CoreFacts(s, c);
  }
}
