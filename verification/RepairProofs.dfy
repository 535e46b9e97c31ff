/** What the repair loop guarantees, whatever the chooser and the judge do. */
module RepairProofs {
  import opened Common
  import opened RepairModel

  // ----- the order -----

  /** Exactly the rows offered in a group. */
  lemma {:induction false} GroupHolds<K>(table: Table<K>, f: Failure, g: nat, n: nat)
    requires n <= |table|
    ensures forall x: nat ::
              x in InGroup(table, f, g, n) <==> x < n && IsOffered(table[x], f.name) && Group(f, table[x]) == g
  {
    hide IsOffered, Group;
    if n > 0 {
      GroupHolds(table, f, g, n - 1);
    }
  }

  predicate Increasing(s: seq<nat>) { forall i, j | 0 <= i < j < |s| :: s[i] < s[j] }

  lemma {:induction false} GroupSorted<K>(table: Table<K>, f: Failure, g: nat, n: nat)
    requires n <= |table|
    ensures Increasing(InGroup(table, f, g, n))
  {
    hide IsOffered, Group;
    if n > 0 {
      GroupSorted(table, f, g, n - 1);
      GroupInTable(table, f, g, n - 1);
      var most := InGroup(table, f, g, n - 1);
      assert InGroup(table, f, g, n) == most || InGroup(table, f, g, n) == most + [n - 1];
    }
  }

  /** Which of two rows is tried first: the better group, then the earlier row. */
  predicate Before<K>(table: Table<K>, f: Failure, x: nat, y: nat)
    requires x < |table| && y < |table|
  {
    var gx, gy := Group(f, table[x]), Group(f, table[y]);
    gx < gy || (gx == gy && x < y)
  }

  /** Nothing twice, and each row before those behind it. */
  predicate Ordered<K>(table: Table<K>, f: Failure, r: seq<nat>)
    requires InTable(table, r)
  {
    forall i, j | 0 <= i < j < |r| :: r[i] != r[j] && Before(table, f, r[i], r[j])
  }

  lemma OrderedJoin<K>(table: Table<K>, f: Failure, x: seq<nat>, y: seq<nat>)
    requires InTable(table, x) && InTable(table, y) && Ordered(table, f, x) && Ordered(table, f, y)
    requires forall i, j | 0 <= i < |x| && 0 <= j < |y| :: Group(f, table[x[i]]) < Group(f, table[y[j]])
    ensures InTable(table, x + y) && Ordered(table, f, x + y)
  {
    hide Group;
  }

  lemma GroupOrdered<K>(table: Table<K>, f: Failure, g: nat)
    ensures var r := InGroup(table, f, g, |table|);
            InTable(table, r) && Ordered(table, f, r) && forall i | 0 <= i < |r| :: Group(f, table[r[i]]) == g
  {
    hide Group, InGroup;
    GroupHolds(table, f, g, |table|);
    GroupSorted(table, f, g, |table|);
    var r := InGroup(table, f, g, |table|);
    assert forall i | 0 <= i < |r| :: r[i] in r;
  }

  /** The ranking is a stable permutation of what is offered: nothing dropped,
      nothing added, nothing twice, groups in order and table order inside each. */
  lemma RankIsStable<K>(table: Table<K>, f: Failure)
    ensures var r := Rank(table, f);
            && InTable(table, r) && Ordered(table, f, r)
            && forall x: nat :: x in r <==> x < |table| && IsOffered(table[x], f.name)
  {
    hide IsOffered, Matches, InGroup, Ordered;
    var a, b, c := InGroup(table, f, 0, |table|), InGroup(table, f, 1, |table|), InGroup(table, f, 2, |table|);
    GroupOrdered(table, f, 0);
    GroupOrdered(table, f, 1);
    GroupOrdered(table, f, 2);
    OrderedJoin(table, f, a, b);
    OrderedJoin(table, f, a + b, c);
    RankHolds(table, f);
  }

  lemma RankHolds<K>(table: Table<K>, f: Failure)
    ensures forall x: nat :: x in Rank(table, f) <==> x < |table| && IsOffered(table[x], f.name)
  {
    hide IsOffered, Matches, InGroup;
    GroupHolds(table, f, 0, |table|);
    GroupHolds(table, f, 1, |table|);
    GroupHolds(table, f, 2, |table|);
  }

  // ----- the loop -----

  /** What an action must be for the loop to leave no trace from knobs `k`:
      declining changes nothing, and reverting undoes applying. */
  ghost predicate UndoneFrom<K>(a: Action<K>, k: K) {
    var (after, applied) := a.apply(k);
    if applied then a.revert(after) == k else after == k
  }

  ghost predicate AllUndone<K>(table: Table<K>, rows: seq<nat>, k: K)
    requires InTable(table, rows)
  {
    forall i | 0 <= i < |rows| :: UndoneFrom(table[rows[i]], k)
  }

  predicate Distinct(s: seq<nat>) { forall i, j | 0 <= i < j < |s| :: s[i] != s[j] }

  function RowsOf(trials: seq<Trial>): (r: seq<nat>)
    ensures |r| == |trials|
  {
    seq(|trials|, i requires 0 <= i < |trials| => trials[i].row)
  }

  /** A trial that did not end the loop, judged as knobs `k` make it. */
  predicate Refused<K>(table: Table<K>, judge: Judge<K>, k: K, t: Trial, round: nat)
    requires t.row < |table|
  {
    var (after, applied) := table[t.row].apply(k);
    match t.verdict
    case Declined => !applied
    case StillFails => applied && !judge(round, after)
    case Passes => false
  }

  predicate AllRefused<K>(table: Table<K>, judge: Judge<K>, k: K, trials: seq<Trial>, n: nat)
    requires n <= |trials| && forall i | 0 <= i < |trials| :: trials[i].row < |table|
  {
    forall i | 0 <= i < n :: Refused(table, judge, k, trials[i], i)
  }

  /** How the loop may end, started from knobs `k` on `total` rows. */
  ghost predicate EndsWell<K>(table: Table<K>, judge: Judge<K>, k: K, rows: seq<nat>, e: Ending<K>) {
    && |e.trials| <= MAX_ATTEMPTS && (forall i | 0 <= i < |e.trials| :: e.trials[i].row < |table|)
    && Distinct(RowsOf(e.trials)) && (forall i | 0 <= i < |e.trials| :: e.trials[i].row in rows)
    && match e.outcome {
         case Unrepaired =>
           && e.knobs == k && AllRefused(table, judge, k, e.trials, |e.trials|)
           && |e.trials| == if |rows| < MAX_ATTEMPTS then |rows| else MAX_ATTEMPTS
         case Repaired(row) =>
           && row < |table| && e.trials != [] && AllRefused(table, judge, k, e.trials, |e.trials| - 1)
           && var n := |e.trials| - 1;
              && e.trials[n] == Trial(row, Passes) && e.knobs == table[row].apply(k).0
              && table[row].apply(k).1 && judge(n, e.knobs)
       }
  }

  /** The state between rounds: back at the starting knobs, what is left and what
      was tried apart and together the whole list. */
  ghost predicate Between<K>(table: Table<K>, judge: Judge<K>, k: K, rows: seq<nat>,
                           round: nat, left: seq<nat>, trials: seq<Trial>) {
    && InTable(table, left) && AllUndone(table, left, k)
    && |trials| == round <= MAX_ATTEMPTS && (forall i | 0 <= i < |trials| :: trials[i].row < |table|) && Distinct(RowsOf(trials))
    && AllRefused(table, judge, k, trials, round)
    && |left| + round == |rows|
    && Distinct(left)
    && (forall i | 0 <= i < |left| :: left[i] in rows && left[i] !in RowsOf(trials))
    && (forall i | 0 <= i < |trials| :: trials[i].row in rows)
  }

  lemma WithoutIs(s: seq<nat>, i: nat)
    requires i < |s| && Distinct(s)
    ensures Distinct(RemoveAt(s, i)) && s[i] !in RemoveAt(s, i)
    ensures forall j | 0 <= j < |s| - 1 :: RemoveAt(s, i)[j] in s
  {
  }

  lemma RowsAppend(trials: seq<Trial>, t: Trial)
    ensures RowsOf(trials + [t]) == RowsOf(trials) + [t.row]
  {
  }

  lemma BetweenNext<K>(table: Table<K>, judge: Judge<K>, k: K, rows: seq<nat>,
                           round: nat, left: seq<nat>, trials: seq<Trial>, i: nat, v: Verdict)
    requires Between(table, judge, k, rows, round, left, trials)
    requires i < |left| && round < MAX_ATTEMPTS
    requires Refused(table, judge, k, Trial(left[i], v), round)
    ensures Between(table, judge, k, rows, round + 1, RemoveAt(left, i), trials + [Trial(left[i], v)])
  {
    hide UndoneFrom, Refused;
    WithoutIs(left, i);
    RowsAppend(trials, Trial(left[i], v));
    var left' := RemoveAt(left, i);
    forall j | 0 <= j < |left'|
      ensures left'[j] < |table| && UndoneFrom(table[left'[j]], k) && left'[j] in rows
              && left'[j] !in RowsOf(trials) + [left[i]]
    {
      assert left'[j] in left;
    }
  }

  lemma Stops<K>(table: Table<K>, judge: Judge<K>, k: K, rows: seq<nat>, round: nat, left: seq<nat>, trials: seq<Trial>)
    requires Between(table, judge, k, rows, round, left, trials)
    requires round >= MAX_ATTEMPTS || left == []
    ensures EndsWell(table, judge, k, rows, Ending(Unrepaired, k, trials))
  {
  }

  lemma Works<K>(table: Table<K>, judge: Judge<K>, k: K, rows: seq<nat>, round: nat, left: seq<nat>, trials: seq<Trial>, i: nat)
    requires Between(table, judge, k, rows, round, left, trials)
    requires i < |left| && round < MAX_ATTEMPTS
    requires table[left[i]].apply(k).1 && judge(round, table[left[i]].apply(k).0)
    ensures EndsWell(table, judge, k, rows,
                     Ending(Repaired(left[i]), table[left[i]].apply(k).0, trials + [Trial(left[i], Passes)]))
  {
    hide UndoneFrom, Refused;
    RowsAppend(trials, Trial(left[i], Passes));
  }

  lemma {:induction false} RoundsEndWell<K>(table: Table<K>, choose: Chooser, judge: Judge<K>, k: K, rows: seq<nat>,
                                            round: nat, left: seq<nat>, trials: seq<Trial>)
    requires InTable(table, left) && Between(table, judge, k, rows, round, left, trials)
    ensures EndsWell(table, judge, k, rows, Rounds(table, choose, judge, round, left, k, trials))
    decreases MAX_ATTEMPTS - round
  {
    if round >= MAX_ATTEMPTS || left == [] {
      Stops(table, judge, k, rows, round, left, trials);
    } else {
      var i := Pick(choose, round, left, trials);
      var row := left[i];
      var (after, applied) := table[row].apply(k);
      assert UndoneFrom(table[row], k);
      hide Between, EndsWell, Pick, RemoveAt, Distinct, AllRefused, AllUndone;
      if applied && judge(round, after) {
        Works(table, judge, k, rows, round, left, trials, i);
      } else {
        var v := if applied then StillFails else Declined;
        BetweenNext(table, judge, k, rows, round, left, trials, i, v);
        assert InTable(table, RemoveAt(left, i));
        RoundsEndWell(table, choose, judge, k, rows, round + 1, RemoveAt(left, i), trials + [Trial(row, v)]);
      }
    }
  }

  /** For any table, chooser and judge: at most three rows are tried, each offered
      and none twice; if none worked the knobs are as they were and as many were
      tried as there were, up to three; and if one did, exactly that one is applied
      and the judge passed it as it stands. */
  lemma AttemptLeavesOneOrNone<K>(table: Table<K>, f: Failure, choose: Chooser, judge: Judge<K>, k: K)
    requires forall x | 0 <= x < |table| && IsOffered(table[x], f.name) :: UndoneFrom(table[x], k)
    ensures var e := Attempt(table, f, choose, judge, k);
            && EndsWell(table, judge, k, Rank(table, f), e)
            && (forall i | 0 <= i < |e.trials| ::
                  e.trials[i].row < |table| && IsOffered(table[e.trials[i].row], f.name))
  {
    hide IsOffered, UndoneFrom, Rank, Rounds;
    RankIsStable(table, f);
    RankInTable(table, f);
    var r := Rank(table, f);
    assert forall i | 0 <= i < |r| :: r[i] in r;
    RoundsEndWell(table, choose, judge, k, r, 0, r, []);
  }

  // ----- adopting by name -----

  predicate NamesDistinct<K>(table: Table<K>) {
    forall i, j | 0 <= i < j < |table| :: table[i].name != table[j].name
  }

  /** What the loop adopts for a failure is what the next boot, asked by name for
      the same subsystem, will agree to apply. */
  lemma AdoptedWouldApply<K>(table: Table<K>, f: Failure, choose: Chooser, judge: Judge<K>, k: K)
    requires NamesDistinct(table)
    requires forall x | 0 <= x < |table| && IsOffered(table[x], f.name) :: UndoneFrom(table[x], k)
    ensures var o := Attempt(table, f, choose, judge, k).outcome;
            o.Repaired? ==> o.row < |table| && WouldApply(table, f.name, table[o.row].name)
  {
    hide Attempt, UndoneFrom, IsOffered, Rank;
    AttemptLeavesOneOrNone(table, f, choose, judge, k);
    var e := Attempt(table, f, choose, judge, k);
    if e.outcome.Repaired? {
      var row := e.outcome.row;
      assert e.trials[|e.trials| - 1].row == row;
      var found := Find(table, table[row].name);
      assert found.value == row;
    }
  }

  // ----- the table there is -----

  lemma TableIs()
    ensures |ACTIONS| == 2 && NamesDistinct(ACTIONS)
    ensures ACTIONS[0].name == "retry" && ACTIONS[1].name == "skip-hwp"
    ensures forall k :: UndoneFrom(ACTIONS[0], k) && (UndoneFrom(ACTIONS[1], k) <==> !k.skipHwp)
    ensures forall s :: IsOffered(ACTIONS[0], s) && (IsOffered(ACTIONS[1], s) <==> s == "power")
  {
    assert ACTIONS[0].name[0] == 'r' && ACTIONS[1].name[0] == 's';
  }

  /** Always saying no, as the judge of a fault no repair touches. */
  const NEVER: Judge<Knobs> := (round: nat, k: Knobs) => false

  /** With the two rows there are, an attempt that fails leaves the knob as it was
      for every judge exactly when the knob was off or its row is not offered:
      reverting turns the knob off, not back. */
  lemma FailedAttemptLeavesNoTraceIff(f: Failure, choose: Chooser, k: Knobs)
    ensures (forall judge: Judge<Knobs> ::
               var e := Attempt(ACTIONS, f, choose, judge, k); e.outcome.Unrepaired? ==> e.knobs == k)
            <==> !(k.skipHwp && f.name == "power")
  {
    TableIs();
    if k.skipHwp && f.name == "power" {
      FailsAndTurnsOff(f, choose, k);
    } else {
      forall judge: Judge<Knobs>
        ensures var e := Attempt(ACTIONS, f, choose, judge, k); e.outcome.Unrepaired? ==> e.knobs == k
      {
        AttemptLeavesOneOrNone(ACTIONS, f, choose, judge, k);
      }
    }
  }

  /** Both rows always apply, and reverting either leaves the knob as it was or off. */
  ghost predicate LikeActions(table: Table<Knobs>) {
    forall row, k | 0 <= row < |table| ::
      table[row].apply(k).1 && table[row].revert(table[row].apply(k).0) == if row == 1 then Knobs(false) else k
  }

  lemma {:induction false} TurnsOff(table: Table<Knobs>, choose: Chooser, round: nat, left: seq<nat>, k: Knobs,
                                    trials: seq<Trial>)
    requires LikeActions(table) && InTable(table, left) && |left| + round <= MAX_ATTEMPTS
    ensures var e := Rounds(table, choose, NEVER, round, left, k, trials);
            e.outcome.Unrepaired? && e.knobs == if 1 in left then Knobs(false) else k
    decreases |left|
  {
    hide Pick;
    if left != [] {
      var i := Pick(choose, round, left, trials);
      var row := left[i];
      var after := table[row].apply(k).0;
      TurnsOff(table, choose, round + 1, RemoveAt(left, i), table[row].revert(after), trials + [Trial(row, StillFails)]);
      assert forall x | x in left :: x == row || x in RemoveAt(left, i);
    }
  }

  lemma FailsAndTurnsOff(f: Failure, choose: Chooser, k: Knobs)
    requires f.name == "power"
    ensures var e := Attempt(ACTIONS, f, choose, NEVER, k);
            e.outcome.Unrepaired? && e.knobs == Knobs(false)
  {
    hide Rounds, Rank;
    TableIs();
    RankOfTable(f);
    assert LikeActions(ACTIONS);
    TurnsOff(ACTIONS, choose, 0, Rank(ACTIONS, f), k, []);
  }

  /** `skip-hwp` goes first only for a general protection fault in `dev::power`,
      and is not on the list at all outside `power`. */
  lemma RankOfTable(f: Failure)
    ensures Rank(ACTIONS, f)
         == if f.name != "power" then [0]
            else if f.why == "general protection fault" && f.site.Some? && Contains(f.site.value, "dev::power")
            then [1, 0]
            else [0, 1]
  {
    hide Contains;
    TableIs();
    var signature := f.why == "general protection fault" && f.site.Some? && Contains(f.site.value, "dev::power");
    var clues := ACTIONS[1].clues;
    assert Matches(f, ACTIONS[1]) <==> ClueHolds(f, clues[0]) && ClueHolds(f, clues[1]);
    hide Matches, ClueHolds, IsOffered;
    forall g: nat
      ensures InGroup(ACTIONS, f, g, 2)
           == (if Group(f, ACTIONS[0]) == g then [0] else [])
              + (if f.name == "power" && Group(f, ACTIONS[1]) == g then [1] else [])
    {
      assert InGroup(ACTIONS, f, g, 0) == [];
      assert InGroup(ACTIONS, f, g, 1) == if Group(f, ACTIONS[0]) == g then [0] else [];
    }
  }
}
