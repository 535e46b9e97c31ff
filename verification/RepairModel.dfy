/**
 The repair table, the order it is tried in, and the loop that tries it.

 An action is named by its row in the table. What it does to the knobs of the
 machine is a function of them; which row the chooser names, and what the judge
 says of the knobs it is shown, may be anything, and may change from one round to
 the next.
 */
module RepairModel {
  import opened Common

  datatype Clue = Fault(name: string) | SiteContains(part: string)

  datatype Failure = Failure(name: string, why: string, site: Option<string>)

  /** `apply` gives the knobs afterwards and whether it applied at all. */
  datatype Action<!K> = Action(name: string, offeredFor: seq<string>, clues: seq<Clue>,
                               apply: K -> (K, bool), revert: K -> K)

  type Table<!K> = seq<Action<K>>

  const MAX_ATTEMPTS: nat := 3

  // ----- the order -----

  predicate Contains(s: string, part: string) {
    exists i | 0 <= i <= |s| :: part <= s[i..]
  }

  predicate ClueHolds(f: Failure, c: Clue) {
    match c
    case Fault(name) => f.why == name
    case SiteContains(part) => f.site.Some? && Contains(f.site.value, part)
  }

  predicate Matches<K>(f: Failure, a: Action<K>) {
    a.clues != [] && forall i | 0 <= i < |a.clues| :: ClueHolds(f, a.clues[i])
  }

  predicate IsOffered<K>(a: Action<K>, subsystem: string) {
    a.offeredFor == [] || subsystem in a.offeredFor
  }

  /** The three groups: those whose clues all hold, those that ask for nothing,
      and those that asked for something and did not get it. */
  function Group<K>(f: Failure, a: Action<K>): nat {
    if Matches(f, a) then 0 else if a.clues == [] then 1 else 2
  }

  /** The rows below `n` offered for a failure and in one group, in table order. */
  function InGroup<K>(table: Table<K>, f: Failure, g: nat, n: nat): seq<nat>
    requires n <= |table|
  {
    if n == 0 then []
    else
      InGroup(table, f, g, n - 1)
      + (if IsOffered(table[n - 1], f.name) && Group(f, table[n - 1]) == g then [n - 1] else [])
  }

  function Rank<K>(table: Table<K>, f: Failure): seq<nat> {
    InGroup(table, f, 0, |table|) + InGroup(table, f, 1, |table|) + InGroup(table, f, 2, |table|)
  }

  // ----- the loop -----

  datatype Verdict = Declined | StillFails | Passes

  datatype Trial = Trial(row: nat, verdict: Verdict)

  datatype Outcome = Repaired(row: nat) | Unrepaired

  /** A chooser sees the round, what is left and what was tried, and answers any
      number; a judge sees the round and the knobs. */
  type Chooser = (nat, seq<nat>, seq<Trial>) -> nat
  type Judge<!K> = (nat, K) -> bool

  datatype Ending<K> = Ending(outcome: Outcome, knobs: K, trials: seq<Trial>)

  /** The chooser's answer, clamped to the list it chose from. */
  function Pick(choose: Chooser, round: nat, left: seq<nat>, trials: seq<Trial>): (i: nat)
    requires left != []
    ensures i < |left|
  {
    var i := choose(round, left, trials);
    if i < |left| then i else |left| - 1
  }

  predicate InTable<K>(table: Table<K>, rows: seq<nat>) { forall i | 0 <= i < |rows| :: rows[i] < |table| }

  /** The rounds from `round` on. */
  function Rounds<K>(table: Table<K>, choose: Chooser, judge: Judge<K>,
                     round: nat, left: seq<nat>, knobs: K, trials: seq<Trial>): Ending<K>
    requires InTable(table, left)
    decreases MAX_ATTEMPTS - round
  {
    if round >= MAX_ATTEMPTS || left == [] then Ending(Unrepaired, knobs, trials)
    else
      var i := Pick(choose, round, left, trials);
      var row := left[i];
      var a := table[row];
      var (after, applied) := a.apply(knobs);
      if !applied then
        Rounds(table, choose, judge, round + 1, RemoveAt(left, i), after, trials + [Trial(row, Declined)])
      else if judge(round, after) then Ending(Repaired(row), after, trials + [Trial(row, Passes)])
      else
        Rounds(table, choose, judge, round + 1, RemoveAt(left, i), a.revert(after), trials + [Trial(row, StillFails)])
  }

  lemma {:induction false} GroupInTable<K>(table: Table<K>, f: Failure, g: nat, n: nat)
    requires n <= |table|
    ensures forall i | 0 <= i < |InGroup(table, f, g, n)| :: InGroup(table, f, g, n)[i] < n
  {
    if n > 0 { GroupInTable(table, f, g, n - 1); }
  }

  lemma RankInTable<K>(table: Table<K>, f: Failure)
    ensures InTable(table, Rank(table, f))
  {
    GroupInTable(table, f, 0, |table|);
    GroupInTable(table, f, 1, |table|);
    GroupInTable(table, f, 2, |table|);
  }

  function Attempt<K>(table: Table<K>, f: Failure, choose: Chooser, judge: Judge<K>, knobs: K): Ending<K> {
    RankInTable(table, f);
    Rounds(table, choose, judge, 0, Rank(table, f), knobs, [])
  }

  // ----- a repair named by two words -----

  /** The first row of a name. */
  function Find<K>(table: Table<K>, name: string): (r: Option<nat>)
    ensures r.Some? ==> r.value < |table| && table[r.value].name == name
    ensures r.None? ==> forall i | 0 <= i < |table| :: table[i].name != name
  {
    if table == [] then None
    else if table[0].name == name then Some(0)
    else
      match Find(table[1..], name)
      case None => None
      case Some(i) => Some(i + 1)
  }

  predicate WouldApply<K>(table: Table<K>, subsystem: string, name: string) {
    var r := Find(table, name);
    r.Some? && IsOffered(table[r.value], subsystem)
  }

  // ----- the table there is -----

  /** The one knob the two rows touch. */
  datatype Knobs = Knobs(skipHwp: bool)

  const ACTIONS: Table<Knobs> :=
    [Action("retry", [], [], k => (k, true), k => k),
     Action("skip-hwp", ["power"], [Fault("general protection fault"), SiteContains("dev::power")],
            (k: Knobs) => (k.(skipHwp := true), true), (k: Knobs) => k.(skipHwp := false))]
}
