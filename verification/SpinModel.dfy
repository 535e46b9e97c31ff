/**
 The interrupt-masking spinlock as a machine of cores, one step at a time.

 An interrupt may arrive between any two steps of a core whose interrupts are
 on, so a core is the code it is running and, below that, the code that was
 interrupted. Reading the flags, masking, taking the lock, releasing it and
 unmasking are separate steps.
 */
module SpinModel {
  import opened Common

  /** `irq` says the guard came from `lock_irq`; `restore` is the guard's own
      field, set when interrupts were on to begin with. */
  datatype Guard = Guard(lock: nat, irq: bool, restore: bool)

  /** Where code stands in the lock: masking comes between reading the flags and
      `cli`, restoring between the releasing store and `sti`. */
  datatype Pc =
    | Running
    | Masking(lock: nat, was: bool)
    | Spinning(lock: nat, irq: bool, was: bool)
    | Restoring(guard: Guard)

  datatype Context = Context(pc: Pc, held: seq<Guard>)

  /** `below` is what has been interrupted, outermost first. */
  datatype Core = Core(interrupts: bool, below: seq<Context>, now: Context)

  datatype Machine = Machine(locked: set<nat>, cores: seq<Core>)

  datatype Act =
    | Lock(lock: nat)
    | LockIrq(lock: nat)
    | Mask
    | Acquire
    | Unlock(which: nat)
    | Restore
    | SetFlag(on: bool)
    | Interrupt
    | Return

  /** How code uses the locks. `shared` are those interrupt handlers take;
      `irqOnly` says they are never taken with plain `lock`, `inOrder` that
      guards are dropped newest first. */
  datatype Rules = Rules(shared: set<nat>, irqOnly: bool, inOrder: bool)

  predicate Holds(x: Context, l: nat) { exists g | g in x.held :: g.lock == l }

  predicate HoldsIrq(x: Context) { exists g | g in x.held :: g.irq }

  predicate MayTake(rules: Rules, k: Core, l: nat) {
    k.now.pc.Running? && !Holds(k.now, l) && (k.below != [] ==> l in rules.shared)
  }

  predicate Can(rules: Rules, locked: set<nat>, k: Core, a: Act) {
    match a
    case Lock(l) => MayTake(rules, k, l) && (rules.irqOnly ==> l !in rules.shared)
    case LockIrq(l) => MayTake(rules, k, l)
    case Mask => k.now.pc.Masking?
    case Acquire => k.now.pc.Spinning? && k.now.pc.lock !in locked
    case Unlock(i) => k.now.pc.Running? && i < |k.now.held| && (rules.inOrder ==> i == |k.now.held| - 1)
    case Restore => k.now.pc.Restoring?
    case SetFlag(_) => k.now.pc.Running? && !HoldsIrq(k.now)
    case Interrupt => k.interrupts
    case Return => k.below != [] && k.now.pc.Running? && k.now.held == []
  }

  function Do(rules: Rules, locked: set<nat>, k: Core, a: Act): (set<nat>, Core)
    requires Can(rules, locked, k, a)
  {
    match a
    case Lock(l) => (locked, k.(now := k.now.(pc := Spinning(l, false, false))))
    case LockIrq(l) => (locked, k.(now := k.now.(pc := Masking(l, k.interrupts))))
    case Mask =>
      (locked, k.(interrupts := false, now := k.now.(pc := Spinning(k.now.pc.lock, true, k.now.pc.was))))
    case Acquire =>
      var g := Guard(k.now.pc.lock, k.now.pc.irq, k.now.pc.was);
      (locked + {g.lock}, k.(now := Context(Running, k.now.held + [g])))
    case Unlock(i) =>
      var g := k.now.held[i];
      (locked - {g.lock}, k.(now := Context(Restoring(g), RemoveAt(k.now.held, i))))
    case Restore =>
      (locked, k.(interrupts := k.interrupts || k.now.pc.guard.restore, now := k.now.(pc := Running)))
    case SetFlag(on) => (locked, k.(interrupts := on))
    case Interrupt => (locked, Core(false, k.below + [k.now], Context(Running, [])))
    case Return => (locked, Core(true, k.below[..|k.below| - 1], k.below[|k.below| - 1]))
  }

  datatype Step = Step(core: nat, act: Act)

  predicate Enabled(rules: Rules, m: Machine, s: Step) {
    s.core < |m.cores| && Can(rules, m.locked, m.cores[s.core], s.act)
  }

  function Next(rules: Rules, m: Machine, s: Step): Machine
    requires Enabled(rules, m, s)
  {
    var (locked, k) := Do(rules, m.locked, m.cores[s.core], s.act);
    Machine(locked, m.cores[s.core := k])
  }

  predicate RunOk(rules: Rules, m: Machine, run: seq<Step>)
    decreases |run|
  {
    run == [] || (Enabled(rules, m, run[0]) && RunOk(rules, Next(rules, m, run[0]), run[1..]))
  }

  function After(rules: Rules, m: Machine, run: seq<Step>): Machine
    requires RunOk(rules, m, run)
    decreases |run|
  {
    if run == [] then m else After(rules, Next(rules, m, run[0]), run[1..])
  }

  /** Every core in its own code, every lock free, interrupts as they may be. */
  predicate Fresh(m: Machine) {
    m.locked == {} && forall c | 0 <= c < |m.cores| :: m.cores[c].below == [] && m.cores[c].now == Context(Running, [])
  }
}
