/** The lock as one core runs it. What the other cores do shows only in what each
    attempt to take the flag finds. */
module SpinLock {
  import opened Common

  /** Attempts before a wait is called a deadlock. */
  const PATIENCE: nat := 200_000_000

  class Cpu {
    var interrupts: bool

    constructor (on: bool)
      ensures interrupts == on
    {
      interrupts := on;
    }
  }

  datatype Guard = Guard(restore: bool)

  class Spin {
    var locked: bool

    constructor ()
      ensures !locked
    {
      locked := false;
    }

    /** `busy(k)` is whether attempt `k` finds the flag up. Taken at the first
        attempt that finds it down; given up, the flag untouched, exactly when
        the first PATIENCE all find it up. */
    method Acquire(busy: nat -> bool) returns (spun: nat, ok: bool)
      modifies this
      ensures ok <==> exists k: nat | k < 200_000_000 :: !busy(k)
      ensures ok ==> locked && spun < 200_000_000 && !busy(spun) && forall k: nat | k < spun :: busy(k)
      ensures !ok ==> locked == old(locked)
    {
      spun := 0;
      while busy(spun)
        invariant spun < PATIENCE && locked == old(locked)
        invariant forall k: nat | k < spun :: busy(k)
        decreases PATIENCE - spun
      {
        spun := spun + 1;
        if spun == PATIENCE {
          return spun, false;
        }
      }
      locked := true;
      ok := true;
    }

    /** Take the lock, leaving interrupts as they are. */
    method Lock(busy: nat -> bool) returns (g: Option<Guard>)
      modifies this
      ensures g == if exists k: nat | k < 200_000_000 :: !busy(k) then Some(Guard(false)) else None
      ensures locked == (g.Some? || old(locked))
    {
      var _, ok := Acquire(busy);
      g := if ok then Some(Guard(false)) else None;
    }

    /** Take the lock with interrupts masked; the guard remembers how they were. */
    method LockIrq(cpu: Cpu, busy: nat -> bool) returns (g: Option<Guard>)
      modifies this, cpu
      ensures !cpu.interrupts
      ensures g == if exists k: nat | k < 200_000_000 :: !busy(k) then Some(Guard(old(cpu.interrupts))) else None
      ensures locked == (g.Some? || old(locked))
    {
      var was := cpu.interrupts;
      cpu.interrupts := false;
      var _, ok := Acquire(busy);
      g := if ok then Some(Guard(was)) else None;
    }

    /** Take it if it is free, without waiting. */
    method TryLock() returns (g: Option<Guard>)
      modifies this
      ensures g.Some? <==> !old(locked)
      ensures g.Some? ==> !g.value.restore
      ensures locked
    {
      if !locked {
        locked := true;
        return Some(Guard(false));
      }
      return None;
    }

    /** Dropping a guard: the flag goes down before interrupts come back. */
    method Drop(cpu: Cpu, g: Guard)
      modifies this, cpu
      ensures !locked
      ensures cpu.interrupts == (old(cpu.interrupts) || g.restore)
    {
      locked := false;
      if g.restore {
        cpu.interrupts := true;
      }
    }
  }

  /** Whether a wait ends in the lock. */
  ghost predicate Comes(busy: nat -> bool) { exists k: nat | k < 200_000_000 :: !busy(k) }

  /** Two locks nested and dropped in reverse, however long each is waited for:
      interrupts are masked throughout and end as they began, and both flags end
      down; unless a wait is given up, and then interrupts stay masked. */
  method Nested(cpu: Cpu, a: Spin, b: Spin, busyA: nat -> bool, busyB: nat -> bool) returns (ok: bool)
    requires a != b
    modifies cpu, a, b
    ensures ok <==> Comes(busyA) && Comes(busyB)
    ensures if ok then cpu.interrupts == old(cpu.interrupts) && !a.locked && !b.locked else !cpu.interrupts
  {
    var outer := a.LockIrq(cpu, busyA);
    if outer.None? {
      return false;
    }
    var inner := b.LockIrq(cpu, busyB);
    if inner.None? {
      return false;
    }
    assert !cpu.interrupts && a.locked && b.locked;
    b.Drop(cpu, inner.value);
    assert !cpu.interrupts;
    a.Drop(cpu, outer.value);
    ok := true;
  }
}
