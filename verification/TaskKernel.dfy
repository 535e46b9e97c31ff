/**
 The scheduler as the kernel holds it: a table of tasks and per-core slots,
 updated in place. Every method is one atomic section of the source, proved to
 be the corresponding step of `TaskModel`.
 */
module TaskKernel {
  import opened Common
  import opened TaskModel

  /** A core's registers, and how far it is through `schedule`. */
  datatype Cpu = Cpu(phase: Phase, rsp: Sp, cr3: nat)

  lemma Products(q: nat, n: nat)
    ensures q >= 2 ==> q * n >= 2 * n
    ensures q == 1 ==> q * n == n
    ensures q == 0 ==> q * n == 0
  {
    if q >= 2 { assert q * n == 2 * n + (q - 2) * n; }
  }

  lemma Divided(x: nat, n: nat) returns (q: nat, product: nat)
    requires n > 0
    ensures product == q * n && x == product + x % n && x % n < n
  {
    q := x / n;
    product := q * n;
  }

  lemma Wraps(x: nat, n: nat)
    requires n <= x < 2 * n
    ensures x % n == x - n
  {
    var q, product := Divided(x, n);
    Products(q, n);
  }

  lemma WrapIsSlot(n: nat, cur: nat, k: nat)
    requires cur < n && k < n
    ensures (cur + 1 + k) % n == SlotAt(n, cur, k)
  {
    var x := cur + 1 + k;
    if x >= n { Wraps(x, n); }
  }

  class Kernel {
    const tasks: array<Task>
    const current: array<Option<nat>>
    const pending: array<Option<nat>>
    const cpus: array<Cpu>
    const kernelRoot: nat
    var count: nat
    var joined: set<nat>
    ghost var latest: map<StackId, Sp>

    ghost predicate Valid()
      reads this
    {
      && tasks.Length == MAX_TASKS && cpus.Length == MAX_CPUS
      && current.Length == MAX_CPUS && pending.Length == MAX_CPUS && current != pending
      && count <= MAX_TASKS
    }

    ghost function CoreAt(c: nat): Core
      requires Valid() && c < MAX_CPUS
      reads this, current, pending, cpus
    {
      Core(current[c], pending[c], c in joined, cpus[c].phase, cpus[c].rsp, cpus[c].cr3)
    }

    ghost function View(): (s: Sched)
      requires Valid()
      reads this, tasks, current, pending, cpus
      ensures WellShaped(s) && s.tasks == tasks[..] && s.count == count
      ensures forall c: nat | c < MAX_CPUS :: s.cores[c] == CoreAt(c)
    {
      Sched(tasks[..], count,
            seq(MAX_CPUS, (c: nat) requires Valid() && c < MAX_CPUS reads this, current, pending, cpus => CoreAt(c)),
            kernelRoot, latest)
    }

    /** The machine after `task::init`. */
    constructor (kernelRoot: nat, depth: nat)
      ensures Valid() && View() == Booted(kernelRoot, depth)
      ensures fresh(tasks) && fresh(current) && fresh(pending) && fresh(cpus)
    {
      tasks := new Task[MAX_TASKS](_ => EMPTY);
      current := new Option<nat>[MAX_CPUS](_ => None);
      pending := new Option<nat>[MAX_CPUS](_ => None);
      cpus := new Cpu[MAX_CPUS]((c: nat) => Cpu(Outside, At(BootStack(c), depth), kernelRoot));
      this.kernelRoot := kernelRoot;
      count := 0;
      joined := {0};
      latest := map[];
      new;
      tasks[0] := Task(Null, Running(0), 0, 0, false, 0, BootStack(0));
      count := 1;
      current[0] := Some(0);
      assert tasks[..] == Booted(kernelRoot, depth).tasks;
      assert View().cores == Booted(kernelRoot, depth).cores;
    }

    method Spawn(depth: nat) returns (slot: Option<nat>)
      requires Valid()
      modifies this`count, this`latest, tasks
      ensures Valid() && View() == SpawnStep(old(View()), depth)
      ensures slot == if old(count) < MAX_TASKS then Some(old(count)) else None
    {
      if count >= MAX_TASKS {
        return None;
      }
      slot := Some(count);
      var first := At(HeapStack(count), depth);
      tasks[count] := Task(first, Ready, 0, 0, false, 0, HeapStack(count));
      latest := latest[HeapStack(count) := first];
      count := count + 1;
      assert View().cores == old(View()).cores;
    }

    method AdoptIdle(cpu: nat) returns (adopted: bool)
      requires Valid()
      modifies this`count, tasks, current
      ensures Valid() && View() == if cpu < MAX_CPUS then AdoptStep(old(View()), cpu) else old(View())
      ensures adopted == (0 < cpu < MAX_CPUS && old(count) < MAX_TASKS)
    {
      if cpu == 0 || cpu >= MAX_CPUS {
        return false;
      }
      var slot := count;
      if slot >= MAX_TASKS {
        return false;
      }
      count := count + 1;
      tasks[slot] := Task(Null, Running(cpu), 0, cpu, true, 0, BootStack(cpu));
      current[cpu] := Some(slot);
      adopted := true;
      assert View().cores == AdoptStep(old(View()), cpu).cores;
    }

    method Join(cpu: nat)
      requires Valid()
      modifies this`joined
      ensures Valid()
      ensures View() == if cpu < MAX_CPUS
                        then WithCore(old(View()), cpu, old(View()).cores[cpu].(joined := true))
                        else old(View())
    {
      if cpu >= MAX_CPUS {
        return;
      }
      joined := joined + {cpu};
      assert View().cores == WithCore(old(View()), cpu, old(View()).cores[cpu].(joined := true)).cores;
    }

    method Unpin(index: nat) returns (ok: bool)
      requires Valid()
      modifies tasks
      ensures View() == UnpinStep(old(View()), index)
      ensures ok == (index < MAX_TASKS && !old(tasks[index].state).Unused? && !old(tasks[index].idle))
    {
      if index >= MAX_TASKS || tasks[index].state == Unused || tasks[index].idle {
        return false;
      }
      tasks[index] := tasks[index].(pin := -1);
      ok := true;
      assert View().cores == old(View()).cores;
    }

    method SetRoot(me: nat, idx: nat, root: nat) returns (ok: bool)
      requires Valid() && me < MAX_CPUS
      modifies tasks, cpus
      ensures View() == SetRootStep(old(View()), me, idx, root)
      ensures ok == (idx < MAX_TASKS && !old(tasks[idx].state).Unused?)
    {
      if idx >= MAX_TASKS || tasks[idx].state == Unused {
        return false;
      }
      tasks[idx] := tasks[idx].(root := root);
      var mine := if current[me].None? then 0 else current[me].value;
      if idx == mine {
        var want := if root == 0 then kernelRoot else root;
        cpus[me] := cpus[me].(cr3 := want);
      }
      ok := true;
      assert View().cores == SetRootStep(old(View()), me, idx, root).cores;
    }

    /** One pass over the table, from the slot after `cur` around to it. */
    method FindInPass(me: nat, cur: nat, pass: nat) returns (next: Option<nat>)
      requires Valid() && cur < count
      ensures next == Scan(tasks[..], count, cur, me, pass != 0, 0)
    {
      var n := count;
      var k := 0;
      while k < n
        invariant k <= n
        invariant Scan(tasks[..], n, cur, me, pass != 0, 0) == Scan(tasks[..], n, cur, me, pass != 0, k)
      {
        WrapIsSlot(n, cur, k);
        var i := (cur + 1 + k) % n;
        assert i == SlotAt(n, cur, k);
        k := k + 1;
        if i == cur || tasks[i].state != Ready {
          continue;
        }
        if tasks[i].pin >= 0 && tasks[i].pin != me {
          continue;
        }
        if (pass == 0) == tasks[i].idle {
          continue;
        }
        return Some(i);
      }
      return None;
    }

    /** The two passes: work first, then an idle task. */
    method FindNext(me: nat, cur: nat) returns (next: Option<nat>)
      requires Valid() && cur < count
      ensures next == Select(tasks[..], count, cur, me)
    {
      hide Scan;
      next := None;
      var pass := 0;
      while pass < 2
        invariant pass <= 2 && next.None?
        invariant pass >= 1 ==> Scan(tasks[..], count, cur, me, false, 0).None?
        invariant pass >= 2 ==> Scan(tasks[..], count, cur, me, true, 0).None?
      {
        next := FindInPass(me, cur, pass);
        if next.Some? {
          break;
        }
        pass := pass + 1;
      }
    }

    /** The locked half of `schedule`: the pick, then the hand-over of CURRENT
        and PENDING. */
    method Pick(me: nat)
      requires Valid() && me < MAX_CPUS && Enabled(View(), Action.Pick(me))
      modifies tasks, current, pending, cpus
      ensures View() == PickStep(old(View()), me)
    {
      if me !in joined {
        return;
      }
      if current[me].None? {
        return;
      }
      var cur := current[me].value;
      var next := FindNext(me, cur);
      if next.None? {
        assert old(View()) == View();
        return;
      }

      var t := next.value;
      var load, inRoot, outRoot := tasks[t].rsp, tasks[t].root, tasks[cur].root;
      tasks[t] := tasks[t].(state := Running(me), switches := tasks[t].switches + 1);
      tasks[cur] := tasks[cur].(state := Handoff(me));
      current[me] := Some(t);
      pending[me] := Some(cur);
      cpus[me] := cpus[me].(phase := Picked(cur, load, outRoot, inRoot));
      assert View().tasks == PickStep(old(View()), me).tasks;
      assert View().cores == PickStep(old(View()), me).cores;
    }

    method WriteCr3(me: nat)
      requires Valid() && me < MAX_CPUS && cpus[me].phase.Picked?
      modifies cpus
      ensures View() == WriteCr3Step(old(View()), me)
    {
      var cpu := cpus[me];
      var phase := Mapped(cpu.phase.save, cpu.phase.load);
      if cpu.phase.outRoot != 0 || cpu.phase.inRoot != 0 {
        var want := if cpu.phase.inRoot == 0 then kernelRoot else cpu.phase.inRoot;
        if want != cpu.cr3 {
          cpu := cpu.(cr3 := want);
        }
      }
      cpus[me] := cpu.(phase := phase);
      assert View().cores == WriteCr3Step(old(View()), me).cores;
    }

    /** The first half of `autark_switch_context`: the outgoing rsp is stored. */
    method SaveRsp(me: nat)
      requires Valid() && me < MAX_CPUS && cpus[me].phase.Mapped? && cpus[me].phase.save < MAX_TASKS
      modifies tasks, cpus, this`latest
      ensures View() == SaveStep(old(View()), me)
    {
      var cpu := cpus[me];
      tasks[cpu.phase.save] := tasks[cpu.phase.save].(rsp := cpu.rsp);
      latest := if cpu.rsp.At? then latest[cpu.rsp.stack := cpu.rsp] else latest;
      cpus[me] := cpu.(phase := Saved(cpu.phase.save, cpu.phase.load));
      assert View().cores == SaveStep(old(View()), me).cores;
    }

    /** The second half: the incoming rsp is loaded. */
    method LoadRsp(me: nat)
      requires Valid() && me < MAX_CPUS && cpus[me].phase.Saved?
      modifies cpus
      ensures View() == LoadStep(old(View()), me)
    {
      cpus[me] := cpus[me].(rsp := cpus[me].phase.load, phase := Landed);
      assert View().cores == LoadStep(old(View()), me).cores;
    }

    /** `finish_handoff`, its two atomic sections in a row: the swap that empties
        PENDING, then the locked release. */
    method FinishHandoff(me: nat)
      requires Valid() && me < MAX_CPUS && cpus[me].phase.Landed?
      requires pending[me].Some? ==> pending[me].value < MAX_TASKS
      modifies tasks, pending, cpus
      ensures View() == var s := TakePendingStep(old(View()), me);
                        if s.cores[me].phase.Outside? then s else ReleaseStep(s, me)
    {
      var prev := pending[me];
      pending[me] := None;
      if prev.None? {
        cpus[me] := cpus[me].(phase := Outside);
        assert View().cores == TakePendingStep(old(View()), me).cores;
        return;
      }
      if tasks[prev.value].state.Handoff? {
        tasks[prev.value] := tasks[prev.value].(state := Ready);
      }
      cpus[me] := cpus[me].(phase := Outside);
      assert View().tasks == ReleaseStep(TakePendingStep(old(View()), me), me).tasks;
      assert View().cores == ReleaseStep(TakePendingStep(old(View()), me), me).cores;
    }
  }
}
