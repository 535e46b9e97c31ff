/** The repair loop as written: lists built and taken from, knobs turned in place,
    and what is remembered of it. */
module RepairLoop {
  import opened Common
  import opened Utf8
  import opened RepairModel
  import opened RepairProofs

  /** The order to try repairs in: three lists in one pass, then joined. */
  method RankRows<K>(table: Table<K>, f: Failure) returns (order: seq<nat>)
    ensures order == Rank(table, f)
  {
    hide IsOffered, Matches;
    var matched, fallback, rest := [], [], [];
    var n := 0;
    while n < |table|
      invariant 0 <= n <= |table|
      invariant matched == InGroup(table, f, 0, n)
      invariant fallback == InGroup(table, f, 1, n)
      invariant rest == InGroup(table, f, 2, n)
    {
      if IsOffered(table[n], f.name) {
        if Matches(f, table[n]) {
          matched := matched + [n];
        } else if table[n].clues == [] {
          fallback := fallback + [n];
        } else {
          rest := rest + [n];
        }
      }
      n := n + 1;
    }
    order := matched + fallback + rest;
  }

  class Machine<!K> {
    var knobs: K
    var trials: seq<Trial>

    constructor (knobs: K)
      ensures this.knobs == knobs && trials == []
    {
      this.knobs := knobs;
      trials := [];
    }

    /** `attempt`: apply, judge, and put back what did not help. */
    method TryRepairs(table: Table<K>, f: Failure, choose: Chooser, judge: Judge<K>) returns (outcome: Outcome)
      modifies this
      ensures Ending(outcome, knobs, trials) == Attempt(table, f, choose, judge, old(knobs))
    {
      hide Rank, Pick;
      trials := [];
      var left := RankRows(table, f);
      RankInTable(table, f);
      ghost var all := Attempt(table, f, choose, judge, knobs);
      for round := 0 to MAX_ATTEMPTS
        invariant InTable(table, left)
        invariant Rounds(table, choose, judge, round, left, knobs, trials) == all
      {
        if left == [] {
          break;
        }
        var i := Pick(choose, round, left, trials);
        var row := left[i];
        left := RemoveAt(left, i);
        var (after, applied) := table[row].apply(knobs);
        knobs := after;
        if !applied {
          trials := trials + [Trial(row, Declined)];
          continue;
        }
        if judge(round, knobs) {
          trials := trials + [Trial(row, Passes)];
          return Repaired(row);
        }
        knobs := table[row].revert(knobs);
        trials := trials + [Trial(row, StillFails)];
      }
      outcome := Unrepaired;
    }
  }

  // ----- what is in force -----

  /** The entries of a slot list: those before its first empty slot. */
  function Entries<E>(slots: seq<Option<E>>): (r: seq<E>)
    ensures |r| <= |slots| && forall i | 0 <= i < |r| :: slots[i] == Some(r[i])
    ensures |r| < |slots| ==> slots[|r|].None?
  {
    if slots == [] || slots[0].None? then [] else [slots[0].value] + Entries(slots[1..])
  }

  lemma {:induction false} EntriesUpTo<E>(slots: seq<Option<E>>, n: nat)
    requires n <= |slots| && forall i | 0 <= i < n :: slots[i].Some?
    requires n < |slots| ==> slots[n].None?
    ensures |Entries(slots)| == n
  {
    if n > 0 { EntriesUpTo(slots[1..], n - 1); }
  }

  /** No entry lies behind an empty slot. */
  predicate Packed<E>(slots: seq<Option<E>>) {
    forall i, j | 0 <= i < j < |slots| :: slots[j].Some? ==> slots[i].Some?
  }

  /** Remember a repair: once each, oldest first, while there is room. */
  method Note<E(==)>(slots: array<Option<E>>, e: E)
    requires slots.Length == 8 && Packed(slots[..])
    modifies slots
    ensures Packed(slots[..])
    ensures var was := Entries(old(slots[..]));
            Entries(slots[..]) == if e in was || |was| == 8 then was else was + [e]
  {
    ghost var before := slots[..];
    var i := 0;
    while i < slots.Length
      invariant 0 <= i <= slots.Length && slots[..] == before
      invariant forall j | 0 <= j < i :: before[j].Some? && before[j] != Some(e)
    {
      if slots[i] == Some(e) {
        ghost var held := |Entries(before)|;
        assert held < |before| ==> before[held].None?;
        assert held > i;
        assert Entries(before)[i] == e;
        return;
      }
      if slots[i].None? {
        slots[i] := Some(e);
        EntriesUpTo(before, i);
        assert slots[..] == before[i := Some(e)];
        EntriesGrow(before, i, e);
        return;
      }
      i := i + 1;
    }
    EntriesUpTo(before, i);
  }

  /** Filling the first empty slot adds one entry. */
  lemma EntriesGrow<E>(slots: seq<Option<E>>, n: nat, e: E)
    requires n < |slots| && |Entries(slots)| == n
    requires forall i | 0 <= i < n :: slots[i] != Some(e)
    requires n + 1 < |slots| ==> slots[n + 1].None?
    ensures Entries(slots[n := Some(e)]) == Entries(slots) + [e] && e !in Entries(slots)
  {
    var after := slots[n := Some(e)];
    EntriesUpTo(after, n + 1);
    assert Entries(after) == Entries(slots) + [e];
  }

  // ----- the log -----

  const LOG_BYTES: nat := 8192
  const NL: Byte := 10

  function LineEnd(b: Bytes): (i: nat)
    ensures i <= |b| && NL !in b[..i] && (i < |b| ==> b[i] == NL)
  {
    if b == [] || b[0] == NL then 0 else 1 + LineEnd(b[1..])
  }

  /** Where a log may be cut: in front of it, behind it, or behind a newline. */
  predicate LineStart(b: Bytes, p: nat) { p <= |b| && (p == 0 || p == |b| || b[p - 1] == 10) }

  /** Drop whole lines, oldest first, until the new one fits, and append it. The
      line must itself fit: a longer one keeps the loop of `note_attempt` going
      for ever. What is kept is the longest tail of whole lines there is room for. */
  method NoteAttempt(log: Bytes, line: Bytes) returns (out: Bytes, ghost cut: nat)
    requires |line| <= 8192
    ensures LineStart(log, cut) && out == log[cut..] + line && |out| <= 8192
    ensures forall p: nat | p < cut && LineStart(log, p) :: |log[p..]| + |line| > 8192
  {
    var all := log;
    cut := 0;
    while |all| + |line| > LOG_BYTES
      invariant LineStart(log, cut) && all == log[cut..]
      invariant forall p: nat | p < cut && LineStart(log, p) :: |log[p..]| + |line| > LOG_BYTES
      decreases |all|
    {
      var i := LineEnd(all);
      ghost var next := if i < |all| then cut + i + 1 else |log|;
      forall p: nat | cut < p < next
        ensures !LineStart(log, p)
      {
        assert log[p - 1] == all[..i][p - 1 - cut];
      }
      all := if i < |all| then all[i + 1..] else [];
      cut := next;
    }
    out := all + line;
  }
}
