/** What every run of the locks keeps, when handlers' locks are taken with
    `lock_irq` and guards dropped newest first; and what goes wrong otherwise. */
module SpinSafety {
  import opened Common
  import opened SpinModel

  // ----- who holds what -----

  function Locks(held: seq<Guard>): (r: seq<nat>)
    ensures |r| == |held|
  {
    seq(|held|, i requires 0 <= i < |held| => held[i].lock)
  }

  function HeldIn(held: seq<Guard>): multiset<nat> { multiset(Locks(held)) }

  function HeldBelow(below: seq<Context>): multiset<nat> {
    if below == [] then multiset{} else HeldBelow(below[..|below| - 1]) + HeldIn(below[|below| - 1].held)
  }

  /** The locks of every guard that lives on a core, with multiplicity. */
  function HeldBy(k: Core): multiset<nat> { HeldBelow(k.below) + HeldIn(k.now.held) }

  function AllHeld(cores: seq<Core>): multiset<nat> {
    if cores == [] then multiset{} else AllHeld(cores[..|cores| - 1]) + HeldBy(cores[|cores| - 1])
  }

  lemma Cancel(a: multiset<nat>, b: multiset<nat>, x: multiset<nat>)
    requires a + x == b + x
    ensures a == b
  {
    forall l: nat
      ensures a[l] == b[l]
    {
      assert (a + x)[l] == (b + x)[l];
    }
  }

  lemma Gained(before: multiset<nat>, after: multiset<nat>, x: multiset<nat>, y: multiset<nat>, l: nat)
    requires after + x == before + y && y == x + multiset{l}
    ensures after == before + multiset{l}
  {
    assert after + x == (before + multiset{l}) + x;
    Cancel(after, before + multiset{l}, x);
  }

  lemma {:induction false} AllHeldUpdate(cores: seq<Core>, c: nat, k: Core)
    requires c < |cores|
    ensures AllHeld(cores[c := k]) + HeldBy(cores[c]) == AllHeld(cores) + HeldBy(k)
  {
    hide HeldBy;
    var n := |cores| - 1;
    if c == n {
      assert cores[c := k][..n] == cores[..n];
    } else {
      AllHeldUpdate(cores[..n], c, k);
      var after := cores[c := k];
      assert after[..n] == cores[..n][c := k] && after[n] == cores[n];
      var rest := HeldBy(cores[n]);
      assert AllHeld(after) + HeldBy(cores[c]) == (AllHeld(after[..n]) + HeldBy(cores[c])) + rest;
      assert AllHeld(cores) + HeldBy(k) == (AllHeld(cores[..n]) + HeldBy(k)) + rest;
    }
  }

  lemma {:induction false} HeldByIsPart(cores: seq<Core>, c: nat)
    requires c < |cores|
    ensures HeldBy(cores[c]) <= AllHeld(cores)
  {
    hide HeldBy;
    var n := |cores| - 1;
    if c < n {
      HeldByIsPart(cores[..n], c);
    }
  }

  lemma {:induction false} HolderExists(cores: seq<Core>, l: nat) returns (c: nat)
    requires l in AllHeld(cores)
    ensures c < |cores| && l in HeldBy(cores[c])
  {
    hide HeldBy;
    var n := |cores| - 1;
    if l in HeldBy(cores[n]) {
      c := n;
    } else {
      c := HolderExists(cores[..n], l);
    }
  }

  lemma InHeld(held: seq<Guard>, l: nat)
    ensures l in HeldIn(held) <==> exists g | g in held :: g.lock == l
  {
    assert l in HeldIn(held) <==> l in Locks(held);
    assert forall i | 0 <= i < |held| :: held[i] in held && Locks(held)[i] == held[i].lock;
  }

  lemma HoldsIs(x: Context, l: nat)
    ensures Holds(x, l) <==> l in HeldIn(x.held)
  {
    InHeld(x.held, l);
  }

  lemma {:induction false} InBelow(below: seq<Context>, l: nat)
    ensures l in HeldBelow(below) <==> exists x | x in below :: Holds(x, l)
  {
    hide HeldIn, Holds;
    if below != [] {
      var n := |below| - 1;
      InBelow(below[..n], l);
      HoldsIs(below[n], l);
      assert below == below[..n] + [below[n]];
    }
  }

  lemma HeldWithout(held: seq<Guard>, i: nat)
    requires i < |held|
    ensures HeldIn(held) == HeldIn(RemoveAt(held, i)) + multiset{held[i].lock}
  {
    var s := Locks(held);
    assert Locks(RemoveAt(held, i)) == s[..i] + s[i + 1..];
    assert s == s[..i] + [s[i]] + s[i + 1..];
  }

  lemma NothingIn()
    ensures HeldIn([]) == multiset{}
  {
    assert Locks([]) == [];
  }

  lemma HeldWith(held: seq<Guard>, g: Guard)
    ensures HeldIn(held + [g]) == HeldIn(held) + multiset{g.lock}
  {
    assert Locks(held + [g]) == Locks(held) + [g.lock];
  }

  // ----- the invariant -----

  /** Only a guard of `lock_irq` restores, and only the outermost of a context. */
  predicate GuardsOk(rules: Rules, held: seq<Guard>) {
    && (forall g | g in held :: !g.irq ==> !g.restore && g.lock !in rules.shared)
    && (forall i, j | 0 <= i < j < |held| :: held[i].irq ==> !held[j].restore)
  }

  /** Interrupted code has interrupts on when it resumes: it is not between
      masking and unmasking, and holds no guard of `lock_irq`. */
  predicate Interruptible(x: Context) {
    && !HoldsIrq(x)
    && (x.pc.Masking? ==> x.pc.was)
    && (x.pc.Spinning? ==> !x.pc.irq)
    && (x.pc.Restoring? ==> !x.pc.guard.irq)
  }

  predicate PcOk(rules: Rules, x: Context, outermost: bool) {
    && (x.pc.Masking? || x.pc.Spinning? ==> !Holds(x, x.pc.lock) && (outermost || x.pc.lock in rules.shared))
    && (x.pc.Spinning? && !x.pc.irq ==> x.pc.lock !in rules.shared && !x.pc.was)
    && (x.pc.Spinning? && HoldsIrq(x) ==> !x.pc.was)
    && (x.pc.Restoring? && !x.pc.guard.irq ==> !x.pc.guard.restore)
    && (x.pc.Restoring? && HoldsIrq(x) ==> !x.pc.guard.restore)
  }

  predicate CoreOk(rules: Rules, k: Core) {
    && GuardsOk(rules, k.now.held) && PcOk(rules, k.now, k.below == [])
    && (k.interrupts ==> Interruptible(k.now))
    && (k.now.pc.Masking? ==> k.now.pc.was == k.interrupts)
    && (forall i | 0 <= i < |k.below| ::
          GuardsOk(rules, k.below[i].held) && PcOk(rules, k.below[i], i == 0) && Interruptible(k.below[i]))
  }

  predicate Inv(rules: Rules, m: Machine) {
    && multiset(m.locked) == AllHeld(m.cores)
    && forall c | 0 <= c < |m.cores| :: CoreOk(rules, m.cores[c])
  }

  predicate Strict(rules: Rules) { rules.irqOnly && rules.inOrder }

  lemma {:induction false} NothingHeld(cores: seq<Core>)
    requires forall c | 0 <= c < |cores| :: cores[c].below == [] && cores[c].now == Context(Running, [])
    ensures AllHeld(cores) == multiset{}
  {
    NothingIn();
    if cores != [] { NothingHeld(cores[..|cores| - 1]); }
  }

  lemma FreshInv(rules: Rules, m: Machine)
    requires Fresh(m)
    ensures Inv(rules, m)
  {
    NothingHeld(m.cores);
  }

  /** A step keeps its own core in order. */
  lemma CoreKeeps(rules: Rules, locked: set<nat>, k: Core, a: Act)
    requires Strict(rules) && CoreOk(rules, k) && Can(rules, locked, k, a)
    ensures CoreOk(rules, Do(rules, locked, k, a).1)
  {
    if a.Unlock? {
      var n := |k.now.held| - 1;
      assert RemoveAt(k.now.held, n) == k.now.held[..n];
    }
  }

  /** Only taking and releasing change what a core holds; an interrupt and its
      return move it about. */
  lemma HeldStays(rules: Rules, locked: set<nat>, k: Core, a: Act)
    requires Can(rules, locked, k, a) && !a.Acquire? && !a.Unlock?
    ensures Do(rules, locked, k, a).0 == locked && HeldBy(Do(rules, locked, k, a).1) == HeldBy(k)
  {
    hide HeldIn;
    NothingIn();
    if a.Interrupt? {
      assert (k.below + [k.now])[..|k.below|] == k.below;
    }
  }

  /** A step takes a lock's flag up or down exactly as it gains or drops a guard. */
  lemma HeldKeeps(rules: Rules, locked: set<nat>, k: Core, a: Act)
    requires Can(rules, locked, k, a)
    ensures var (locked', k') := Do(rules, locked, k, a);
            && (a.Acquire? ==> var l := k.now.pc.lock;
                               l !in locked && locked' == locked + {l} && HeldBy(k') == HeldBy(k) + multiset{l})
            && (a.Unlock? ==> var l := k.now.held[a.which].lock;
                              locked' == locked - {l} && HeldBy(k) == HeldBy(k') + multiset{l})
            && (!a.Acquire? && !a.Unlock? ==> HeldBy(k') == HeldBy(k) && locked' == locked)
  {
    hide HeldIn, HeldBelow, RemoveAt;
    if a.Acquire? {
      HeldWith(k.now.held, Guard(k.now.pc.lock, k.now.pc.irq, k.now.pc.was));
    } else if a.Unlock? {
      HeldWithout(k.now.held, a.which);
    } else {
      HeldStays(rules, locked, k, a);
    }
  }

  lemma SetGains(s: set<nat>, l: nat)
    ensures l !in s ==> multiset(s + {l}) == multiset(s) + multiset{l}
    ensures l in s ==> multiset(s) == multiset(s - {l}) + multiset{l}
  {
  }

  /** The flags of the locks and the guards there are stay in step. */
  lemma FlagsMatchGuards(rules: Rules, m: Machine, s: Step)
    requires multiset(m.locked) == AllHeld(m.cores) && Enabled(rules, m, s)
    ensures multiset(Next(rules, m, s).locked) == AllHeld(Next(rules, m, s).cores)
  {
    var k := m.cores[s.core];
    var (locked', k') := Do(rules, m.locked, k, s.act);
    HeldKeeps(rules, m.locked, k, s.act);
    hide HeldBy, AllHeld, Can;
    AllHeldUpdate(m.cores, s.core, k');
    var before, after := AllHeld(m.cores), AllHeld(m.cores[s.core := k']);
    if s.act.Acquire? {
      FlagGoesUp(m.locked, before, after, HeldBy(k), HeldBy(k'), k.now.pc.lock);
    } else if s.act.Unlock? {
      var l := k.now.held[s.act.which].lock;
      FlagGoesDown(m.locked, before, after, HeldBy(k), HeldBy(k'), l);
    } else {
      Cancel(before, after, HeldBy(k));
    }
  }

  lemma FlagGoesUp(locked: set<nat>, before: multiset<nat>, after: multiset<nat>,
                   x: multiset<nat>, y: multiset<nat>, l: nat)
    requires multiset(locked) == before && l !in locked && after + x == before + y && y == x + multiset{l}
    ensures multiset(locked + {l}) == after
  {
    Gained(before, after, x, y, l);
    SetGains(locked, l);
  }

  lemma FlagGoesDown(locked: set<nat>, before: multiset<nat>, after: multiset<nat>,
                     x: multiset<nat>, y: multiset<nat>, l: nat)
    requires multiset(locked) == before && after + x == before + y && x == y + multiset{l}
    ensures multiset(locked - {l}) == after
  {
    Gained(after, before, y, x, l);
    assert l in before;
    SetGains(locked, l);
    Cancel(after, multiset(locked - {l}), multiset{l});
  }

  lemma StepKeeps(rules: Rules, m: Machine, s: Step)
    requires Strict(rules) && Inv(rules, m) && Enabled(rules, m, s)
    ensures Inv(rules, Next(rules, m, s))
  {
    hide CoreOk, HeldBy, AllHeld, Can, Do;
    FlagsMatchGuards(rules, m, s);
    CoreKeeps(rules, m.locked, m.cores[s.core], s.act);
  }

  lemma {:induction false} RunKeeps(rules: Rules, m: Machine, run: seq<Step>)
    requires Strict(rules) && Inv(rules, m) && RunOk(rules, m, run)
    ensures Inv(rules, After(rules, m, run))
    decreases |run|
  {
    if run != [] {
      StepKeeps(rules, m, run[0]);
      RunKeeps(rules, Next(rules, m, run[0]), run[1..]);
    }
  }

  // ----- the theorems -----

  /** In every run, a lock's flag is up exactly when one guard for it exists
      anywhere, and no two ever do. */
  lemma OneHolder(rules: Rules, m: Machine, run: seq<Step>, l: nat)
    requires Strict(rules) && Fresh(m) && RunOk(rules, m, run)
    ensures var t := After(rules, m, run);
            AllHeld(t.cores)[l] == if l in t.locked then 1 else 0
  {
    FreshInv(rules, m);
    RunKeeps(rules, m, run);
  }

  /** In every run, a lock handlers take is never held by interrupted code. */
  lemma InterruptedCodeHoldsNone(rules: Rules, m: Machine, run: seq<Step>, c: nat, l: nat)
    requires Strict(rules) && Fresh(m) && RunOk(rules, m, run)
    requires c < |m.cores| && l in rules.shared
    ensures |After(rules, m, run).cores| == |m.cores|
    ensures l !in HeldBelow(After(rules, m, run).cores[c].below)
  {
    FreshInv(rules, m);
    RunKeeps(rules, m, run);
    CoresStay(rules, m, run);
    InBelow(After(rules, m, run).cores[c].below, l);
  }

  lemma {:induction false} CoresStay(rules: Rules, m: Machine, run: seq<Step>)
    requires RunOk(rules, m, run)
    ensures |After(rules, m, run).cores| == |m.cores|
    decreases |run|
  {
    if run != [] { CoresStay(rules, Next(rules, m, run[0]), run[1..]); }
  }

  /** In every run, whoever spins spins on another core: the lock is free to
      take, or some other core holds it. No handler waits for the code it
      interrupted, and no code for itself. */
  lemma NobodyWaitsForItself(rules: Rules, m: Machine, run: seq<Step>, c: nat)
    requires Strict(rules) && Fresh(m) && RunOk(rules, m, run)
    requires c < |After(rules, m, run).cores| && After(rules, m, run).cores[c].now.pc.Spinning?
    ensures var t := After(rules, m, run);
            var l := t.cores[c].now.pc.lock;
            && l !in HeldBy(t.cores[c])
            && (Can(rules, t.locked, t.cores[c], Acquire)
                || exists d | 0 <= d < |t.cores| && d != c :: l in HeldBy(t.cores[d]))
  {
    FreshInv(rules, m);
    RunKeeps(rules, m, run);
    var t := After(rules, m, run);
    var k := t.cores[c];
    var l := k.now.pc.lock;
    InHeld(k.now.held, l);
    InBelow(k.below, l);
    if l in t.locked {
      assert l in multiset(t.locked);
      var d := HolderExists(t.cores, l);
    }
  }

  // ----- the flag -----

  /** Some guard or half-done call will yet turn interrupts back on. */
  predicate Owed(x: Context) {
    || (exists g | g in x.held :: g.restore)
    || (x.pc.Spinning? && x.pc.was)
    || (x.pc.Restoring? && x.pc.guard.restore)
  }

  /** The interrupt flag the code of a core not in a handler will find once it is
      outside every lock: on if it has been interrupted, else on if the flag is on
      or due to be turned on. */
  predicate BaseFlag(k: Core) { k.below != [] || k.interrupts || Owed(k.now) }

  lemma StepKeepsFlag(rules: Rules, locked: set<nat>, k: Core, a: Act)
    requires CoreOk(rules, k) && Can(rules, locked, k, a)
    requires a.SetFlag? ==> k.below != []
    ensures BaseFlag(Do(rules, locked, k, a).1) == BaseFlag(k)
  {
    var x := k.now;
    match a
    case Acquire =>
      var g := Guard(x.pc.lock, x.pc.irq, x.pc.was);
      assert g in x.held + [g];
      assert forall h | h in x.held :: h in x.held + [g];
    case Unlock(i) =>
      var g := x.held[i];
      assert forall h | h in x.held :: h == g || h in RemoveAt(x.held, i);
    case _ =>
  }

  /** No step of core `c`'s own code sets the flag by hand. Its handlers may. */
  predicate FlagLeftAlone(rules: Rules, m: Machine, run: seq<Step>, c: nat)
    requires RunOk(rules, m, run)
    decreases |run|
  {
    run == [] ||
    ((run[0].core == c && run[0].act.SetFlag? ==> m.cores[c].below != []) &&
     FlagLeftAlone(rules, Next(rules, m, run[0]), run[1..], c))
  }

  lemma {:induction false} FlagKept(rules: Rules, m: Machine, run: seq<Step>, c: nat)
    requires Strict(rules) && Inv(rules, m) && RunOk(rules, m, run)
    requires c < |m.cores| && FlagLeftAlone(rules, m, run, c)
    ensures |After(rules, m, run).cores| == |m.cores|
    ensures BaseFlag(After(rules, m, run).cores[c]) == BaseFlag(m.cores[c])
    decreases |run|
  {
    hide BaseFlag, CoreOk;
    if run != [] {
      StepKeeps(rules, m, run[0]);
      if run[0].core == c {
        StepKeepsFlag(rules, m.locked, m.cores[c], run[0].act);
      }
      FlagKept(rules, Next(rules, m, run[0]), run[1..], c);
    }
  }

  /** Nested how it may be, with interrupts taken wherever they may come and the
      other cores doing anything: whenever the code is back outside every lock,
      its interrupt flag is the one it started with. */
  lemma LastDropRestores(rules: Rules, m: Machine, run: seq<Step>, c: nat)
    requires Strict(rules) && Fresh(m) && RunOk(rules, m, run)
    requires c < |m.cores| && FlagLeftAlone(rules, m, run, c)
    ensures var t := After(rules, m, run);
            && |t.cores| == |m.cores|
            && (t.cores[c].below == [] && t.cores[c].now == Context(Running, []) ==>
                  t.cores[c].interrupts == m.cores[c].interrupts)
  {
    FreshInv(rules, m);
    FlagKept(rules, m, run, c);
  }

  // ----- why the two rules -----

  /** The code running spins with interrupts off on a lock that the code it
      interrupted holds. */
  predicate Deadlocked(k: Core) {
    k.now.pc.Spinning? && !k.interrupts && exists x | x in k.below :: Holds(x, k.now.pc.lock)
  }

  /** A core so placed has no step left while the lock's flag is up. */
  lemma DeadlockedIsStuck(rules: Rules, locked: set<nat>, k: Core, a: Act)
    requires Deadlocked(k) && k.now.pc.lock in locked
    ensures !Can(rules, locked, k, a)
  {
  }

  /** The flag of the lock it spins on is up: the guard is below it. */
  lemma DeadlockedFlagIsUp(m: Machine, c: nat)
    requires multiset(m.locked) == AllHeld(m.cores) && c < |m.cores| && Deadlocked(m.cores[c])
    ensures m.cores[c].now.pc.lock in m.locked
  {
    var k := m.cores[c];
    InBelow(k.below, k.now.pc.lock);
    HeldByIsPart(m.cores, c);
    assert k.now.pc.lock in HeldBy(k);
    assert k.now.pc.lock in multiset(m.locked);
  }

  /** And nobody else will take it down: under any rules, whatever the other cores
      do, the core stays as it is for ever. */
  lemma {:induction false} DeadlockIsForever(rules: Rules, m: Machine, run: seq<Step>, c: nat)
    requires multiset(m.locked) == AllHeld(m.cores) && RunOk(rules, m, run)
    requires c < |m.cores| && Deadlocked(m.cores[c])
    ensures var t := After(rules, m, run);
            |t.cores| == |m.cores| && t.cores[c] == m.cores[c] && m.cores[c].now.pc.lock in t.locked
    decreases |run|
  {
    hide Deadlocked, AllHeld, Can, Do;
    DeadlockedFlagIsUp(m, c);
    if run != [] {
      var s := run[0];
      if s.core == c { DeadlockedIsStuck(rules, m.locked, m.cores[c], s.act); }
      FlagsMatchGuards(rules, m, s);
      DeadlockIsForever(rules, Next(rules, m, s), run[1..], c);
    }
  }

  lemma {:induction false} Extend(rules: Rules, m: Machine, run: seq<Step>, s: Step)
    requires RunOk(rules, m, run) && Enabled(rules, After(rules, m, run), s)
    ensures RunOk(rules, m, run + [s])
    ensures After(rules, m, run + [s]) == Next(rules, After(rules, m, run), s)
    decreases |run|
  {
    var all := run + [s];
    if run == [] {
      assert all[1..] == [];
    } else {
      assert all[1..] == run[1..] + [s];
      Extend(rules, Next(rules, m, run[0]), run[1..], s);
    }
  }

  /** A free lock taken with `lock_irq` by any code of any core: the flag is up,
      interrupts are off and the newest guard remembers how they were. */
  lemma TakeIrq(rules: Rules, m: Machine, c: nat, l: nat)
    requires c < |m.cores| && MayTake(rules, m.cores[c], l) && l !in m.locked
    ensures var k := m.cores[c]; var take := [Step(c, LockIrq(l)), Step(c, Mask), Step(c, Acquire)];
            && RunOk(rules, m, take)
            && var t := After(rules, m, take);
               && t.locked == m.locked + {l}
               && t.cores == m.cores[c := Core(false, k.below, Context(Running, k.now.held + [Guard(l, true, k.interrupts)]))]
  {
    var s0, s1, s2 := Step(c, LockIrq(l)), Step(c, Mask), Step(c, Acquire);
    NoSteps(rules, m);
    hide RunOk, After;
    assert [] + [s0] == [s0] && [s0] + [s1] == [s0, s1] && [s0, s1] + [s2] == [s0, s1, s2];
    Extend(rules, m, [], s0);
    Extend(rules, m, [s0], s1);
    Extend(rules, m, [s0, s1], s2);
  }

  /** Dropping the newest guard: the flag is down, and interrupts are on again if they
      were when it was taken. */
  lemma DropNewest(rules: Rules, t: Machine, c: nat, held: seq<Guard>, g: Guard)
    requires c < |t.cores| && t.cores[c].now == Context(Running, held + [g])
    ensures var k := t.cores[c]; var drop := [Step(c, Unlock(|held|)), Step(c, Restore)];
            && RunOk(rules, t, drop)
            && var m := After(rules, t, drop);
               && m.locked == t.locked - {g.lock}
               && m.cores == t.cores[c := Core(k.interrupts || g.restore, k.below, Context(Running, held))]
  {
    var s0, s1 := Step(c, Unlock(|held|)), Step(c, Restore);
    assert RemoveAt(held + [g], |held|) == held;
    NoSteps(rules, t);
    hide RunOk, After;
    assert [] + [s0] == [s0] && [s0] + [s1] == [s0, s1];
    Extend(rules, t, [], s0);
    Extend(rules, t, [s0], s1);
  }

  /** Taken and dropped again, the whole machine is as it was. */
  lemma LockAndDrop(rules: Rules, m: Machine, c: nat, l: nat)
    requires c < |m.cores| && MayTake(rules, m.cores[c], l) && l !in m.locked
    ensures var take := [Step(c, LockIrq(l)), Step(c, Mask), Step(c, Acquire)];
            var drop := [Step(c, Unlock(|m.cores[c].now.held|)), Step(c, Restore)];
            RunOk(rules, m, take) && RunOk(rules, After(rules, m, take), drop) && After(rules, After(rules, m, take), drop) == m
  {
    hide RunOk, After;
    var k := m.cores[c];
    TakeIrq(rules, m, c, l);
    var t := After(rules, m, [Step(c, LockIrq(l)), Step(c, Mask), Step(c, Acquire)]);
    DropNewest(rules, t, c, k.now.held, Guard(l, true, k.interrupts));
    assert m.locked + {l} - {l} == m.locked;
  }

  lemma NoSteps(rules: Rules, m: Machine)
    ensures RunOk(rules, m, []) && After(rules, m, []) == m
  {
  }

  /** One core in its own code, interrupts on, nothing locked. */
  const ONE_CORE: Machine := Machine({}, [Core(true, [], Context(Running, []))])

  /** `lock_irq` up to the point where it spins. */
  lemma ReachSpin(rules: Rules, m: Machine, run: seq<Step>, l: nat) returns (more: seq<Step>)
    requires RunOk(rules, m, run)
    requires var t := After(rules, m, run); |t.cores| == 1 && MayTake(rules, t.cores[0], l)
    ensures RunOk(rules, m, more)
    ensures var t := After(rules, m, run); var k := t.cores[0];
            After(rules, m, more)
            == Machine(t.locked, [Core(false, k.below, Context(Spinning(l, true, k.interrupts), k.now.held))])
  {
    hide RunOk, After;
    more := run;
    Extend(rules, m, more, Step(0, LockIrq(l))); more := more + [Step(0, LockIrq(l))];
    Extend(rules, m, more, Step(0, Mask)); more := more + [Step(0, Mask)];
  }

  /** Plain `lock` on a handler's lock: the handler can come while it is held. */
  lemma PlainLockDeadlocks(rules: Rules, l: nat) returns (run: seq<Step>)
    requires !rules.irqOnly && l in rules.shared
    ensures Fresh(ONE_CORE) && RunOk(rules, ONE_CORE, run)
    ensures var t := After(rules, ONE_CORE, run);
            |t.cores| == 1 && Deadlocked(t.cores[0]) && t.cores[0].now.pc.lock in t.locked
  {
    run := [];
    assert RunOk(rules, ONE_CORE, []) && After(rules, ONE_CORE, []) == ONE_CORE;
    hide RunOk, After;
    Extend(rules, ONE_CORE, run, Step(0, Lock(l))); run := run + [Step(0, Lock(l))];
    var g := Guard(l, false, false);
    assert [] + [g] == [g];
    Extend(rules, ONE_CORE, run, Step(0, Acquire)); run := run + [Step(0, Acquire)];
    assert After(rules, ONE_CORE, run).cores == [Core(true, [], Context(Running, [g]))];
    Extend(rules, ONE_CORE, run, Step(0, Interrupt)); run := run + [Step(0, Interrupt)];
    run := ReachSpin(rules, ONE_CORE, run, l);
    assert Holds(Context(Running, [g]), l);
  }

  /** Two locks taken one inside the other. */
  lemma ReachNested(rules: Rules, a: nat, b: nat) returns (run: seq<Step>)
    requires a != b
    ensures RunOk(rules, ONE_CORE, run)
    ensures After(rules, ONE_CORE, run)
         == Machine({a, b}, [Core(false, [], Context(Running, [Guard(a, true, true), Guard(b, true, false)]))])
  {
    run := [];
    assert RunOk(rules, ONE_CORE, []) && After(rules, ONE_CORE, []) == ONE_CORE;
    hide RunOk, After;
    run := ReachSpin(rules, ONE_CORE, run, a);
    var outer, inner := Guard(a, true, true), Guard(b, true, false);
    assert [] + [outer] == [outer] && [outer] + [inner] == [outer, inner];
    Extend(rules, ONE_CORE, run, Step(0, Acquire)); run := run + [Step(0, Acquire)];
    assert After(rules, ONE_CORE, run).cores == [Core(false, [], Context(Running, [outer]))];
    run := ReachSpin(rules, ONE_CORE, run, b);
    Extend(rules, ONE_CORE, run, Step(0, Acquire)); run := run + [Step(0, Acquire)];
    assert {} + {a} + {b} == {a, b};
  }

  /** Guards dropped oldest first: the outer one turns interrupts on while the
      inner lock is still held. */
  lemma DropOutOfOrderDeadlocks(rules: Rules, a: nat, b: nat) returns (run: seq<Step>)
    requires !rules.inOrder && a != b && a in rules.shared && b in rules.shared
    ensures Fresh(ONE_CORE) && RunOk(rules, ONE_CORE, run)
    ensures var t := After(rules, ONE_CORE, run);
            |t.cores| == 1 && Deadlocked(t.cores[0]) && t.cores[0].now.pc.lock in t.locked
  {
    hide RunOk, After;
    run := ReachNested(rules, a, b);
    var outer, inner := Guard(a, true, true), Guard(b, true, false);
    assert RemoveAt([outer, inner], 0) == [inner];
    Extend(rules, ONE_CORE, run, Step(0, Unlock(0))); run := run + [Step(0, Unlock(0))];
    Extend(rules, ONE_CORE, run, Step(0, Restore)); run := run + [Step(0, Restore)];
    assert After(rules, ONE_CORE, run).cores == [Core(true, [], Context(Running, [inner]))];
    Extend(rules, ONE_CORE, run, Step(0, Interrupt)); run := run + [Step(0, Interrupt)];
    run := ReachSpin(rules, ONE_CORE, run, b);
    assert Holds(Context(Running, [inner]), b);
  }
}
