/** Which row a round tries: the one the chooser named, out of the ranking less the
    rows already tried. */
module RepairChoice {
  import opened Common
  import opened RepairModel
  import opened RepairProofs

  /** A ranking less some rows, the rest in its order. */
  function Less(rank: seq<nat>, tried: seq<nat>): seq<nat> {
    if rank == [] then []
    else if rank[0] in tried then Less(rank[1..], tried)
    else [rank[0]] + Less(rank[1..], tried)
  }

  lemma {:induction false} LessHolds(rank: seq<nat>, tried: seq<nat>, x: nat)
    ensures x in Less(rank, tried) <==> x in rank && x !in tried
  {
    if rank != [] { LessHolds(rank[1..], tried, x); }
  }

  /** Trial `n` was of the row the chooser named among those left, or of the last of
      them when it named none. */
  predicate Took(rank: seq<nat>, choose: Chooser, trials: seq<Trial>, n: nat)
    requires n < |trials|
  {
    var left := Less(rank, RowsOf(trials[..n]));
    left != [] &&
    var i := choose(n, left, trials[..n]);
    trials[n].row == left[if i < |left| then i else |left| - 1]
  }

  predicate Followed(rank: seq<nat>, choose: Chooser, trials: seq<Trial>) {
    forall n | 0 <= n < |trials| :: Took(rank, choose, trials, n)
  }

  lemma {:induction false} LessNothing(rank: seq<nat>)
    ensures Less(rank, []) == rank
  {
    if rank != [] {
      LessNothing(rank[1..]);
      assert rank == [rank[0]] + rank[1..];
    }
  }

  lemma {:induction false} LessSame(rank: seq<nat>, tried: seq<nat>, row: nat)
    requires row !in rank
    ensures Less(rank, tried + [row]) == Less(rank, tried)
  {
    if rank != [] { LessSame(rank[1..], tried, row); }
  }

  /** Taking the row at `i` out of what is left leaves the ranking less that row too. */
  lemma {:induction false} LessOneMore(rank: seq<nat>, tried: seq<nat>, i: nat)
    requires Distinct(rank) && i < |Less(rank, tried)|
    ensures RemoveAt(Less(rank, tried), i) == Less(rank, tried + [Less(rank, tried)[i]])
    decreases |rank|
  {
    hide RemoveAt;
    var rest := Less(rank[1..], tried);
    if rank[0] in tried {
      LessOneMore(rank[1..], tried, i);
    } else if i == 0 {
      assert rank[0] !in rank[1..];
      LessSame(rank[1..], tried, rank[0]);
      RemoveFromCons(rank[0], rest, 0);
    } else {
      LessOneMore(rank[1..], tried, i - 1);
      LessHolds(rank[1..], tried, rest[i - 1]);
      RemoveFromCons(rank[0], rest, i);
    }
  }

  lemma RemoveFromCons(x: nat, rest: seq<nat>, i: nat)
    requires i <= |rest|
    ensures RemoveAt([x] + rest, i) == if i == 0 then rest else [x] + RemoveAt(rest, i - 1)
    ensures i > 0 ==> ([x] + rest)[i] == rest[i - 1]
  {
  }

  lemma TookOneMore(rank: seq<nat>, choose: Chooser, trials: seq<Trial>, i: nat, v: Verdict)
    requires Followed(rank, choose, trials) && Distinct(rank)
    requires var left := Less(rank, RowsOf(trials));
             && left != []
             && var chosen := choose(|trials|, left, trials);
                i == if chosen < |left| then chosen else |left| - 1
    ensures var left := Less(rank, RowsOf(trials)); var more := trials + [Trial(left[i], v)];
            Followed(rank, choose, more) && Less(rank, RowsOf(more)) == RemoveAt(left, i)
  {
    hide Less, RemoveAt, Distinct;
    var left := Less(rank, RowsOf(trials));
    var more := trials + [Trial(left[i], v)];
    RowsAppend(trials, Trial(left[i], v));
    LessOneMore(rank, RowsOf(trials), i);
    forall n | 0 <= n < |more|
      ensures Took(rank, choose, more, n)
    {
      if n < |trials| {
        assert Took(rank, choose, trials, n);
        assert more[..n] == trials[..n];
      } else {
        assert more[..n] == trials;
      }
    }
  }

  lemma {:induction false} RoundsFollow<K>(table: Table<K>, choose: Chooser, judge: Judge<K>, rank: seq<nat>,
                                           left: seq<nat>, k: K, trials: seq<Trial>)
    requires Distinct(rank) && InTable(table, left) && left == Less(rank, RowsOf(trials)) && |trials| <= 3
    requires Followed(rank, choose, trials)
    ensures var e := Rounds(table, choose, judge, |trials|, left, k, trials);
            Followed(rank, choose, e.trials) && |e.trials| <= 3
    decreases 3 - |trials|
  {
    hide Less, Distinct, Followed;
    if |trials| < 3 && left != [] {
      var i := Pick(choose, |trials|, left, trials);
      var row := left[i];
      var (after, applied) := table[row].apply(k);
      var v := if !applied then Declined else if judge(|trials|, after) then Passes else StillFails;
      TookOneMore(rank, choose, trials, i, v);
      if v != Passes {
        var next := if applied then table[row].revert(after) else after;
        RoundsFollow(table, choose, judge, rank, RemoveAt(left, i), next, trials + [Trial(row, v)]);
      }
    }
  }

  /** For any table, chooser and judge: what an attempt tries, round by round, is what
      the chooser named among the rows it was offered, at most three times. */
  lemma AttemptTriesTheChosen<K>(table: Table<K>, f: Failure, choose: Chooser, judge: Judge<K>, k: K)
    ensures var trials := Attempt(table, f, choose, judge, k).trials; var rank := Rank(table, f);
            |trials| <= 3 &&
            forall n | 0 <= n < |trials| ::
              var left := Less(rank, RowsOf(trials[..n]));
              && left != []
              && var i := choose(n, left, trials[..n]);
                 trials[n].row == left[if i < |left| then i else |left| - 1]
  {
    hide Rank, Rounds, Less, Ordered, RowsOf;
    var rank := Rank(table, f);
    RankIsStable(table, f);
    RankInTable(table, f);
    LessNothing(rank);
    assert RowsOf([]) == [];
    assert Distinct(rank) by { OrderedIsDistinct(table, f, rank); }
    RoundsFollow(table, choose, judge, rank, rank, k, []);
    var trials := Attempt(table, f, choose, judge, k).trials;
    forall n | 0 <= n < |trials|
      ensures var left := Less(rank, RowsOf(trials[..n]));
              && left != []
              && var i := choose(n, left, trials[..n]);
                 trials[n].row == left[if i < |left| then i else |left| - 1]
    {
      assert Took(rank, choose, trials, n);
    }
  }

  lemma OrderedIsDistinct<K>(table: Table<K>, f: Failure, r: seq<nat>)
    requires InTable(table, r) && Ordered(table, f, r)
    ensures Distinct(r)
  {
  }

  // ----- a chooser that takes the first -----

  lemma {:induction false} LessPrefix(rank: seq<nat>, n: nat)
    requires Distinct(rank) && n <= |rank|
    ensures Less(rank, rank[..n]) == rank[n..]
    decreases n
  {
    if n == 0 {
      LessNothing(rank);
    } else {
      LessPrefix(rank, n - 1);
      assert rank[n - 1..][0] == rank[n - 1];
      LessOneMore(rank, rank[..n - 1], 0);
      assert rank[..n] == rank[..n - 1] + [rank[n - 1]];
      assert RemoveAt(rank[n - 1..], 0) == rank[n..];
    }
  }

  lemma {:induction false} FirstsAreAPrefix(rank: seq<nat>, choose: Chooser, trials: seq<Trial>)
    requires Distinct(rank) && Followed(rank, choose, trials)
    requires forall n, left, tried :: choose(n, left, tried) == 0
    ensures RowsOf(trials) <= rank
    decreases |trials|
  {
    hide Less, Distinct;
    if trials != [] {
      var n := |trials| - 1;
      var before := trials[..n];
      forall m | 0 <= m < |before| ensures Took(rank, choose, before, m) {
        assert Took(rank, choose, trials, m);
        assert before[..m] == trials[..m];
      }
      FirstsAreAPrefix(rank, choose, before);
      assert Took(rank, choose, trials, n);
      LessPrefix(rank, n);
      assert RowsOf(before) == rank[..n];
      assert trials == before + [trials[n]];
      RowsAppend(before, trials[n]);
    }
  }

  /** A chooser that always answers 0, which is what every rule but the model comes to,
      tries the ranking in its order. */
  lemma RuleTriesInOrder<K>(table: Table<K>, f: Failure, choose: Chooser, judge: Judge<K>, k: K)
    requires forall n, left, tried :: choose(n, left, tried) == 0
    ensures RowsOf(Attempt(table, f, choose, judge, k).trials) <= Rank(table, f)
  {
    hide Rank, Attempt, Less, Ordered, RowsOf;
    AttemptTriesTheChosen(table, f, choose, judge, k);
    RankIsStable(table, f);
    OrderedIsDistinct(table, f, Rank(table, f));
    assert Followed(Rank(table, f), choose, Attempt(table, f, choose, judge, k).trials);
    FirstsAreAPrefix(Rank(table, f), choose, Attempt(table, f, choose, judge, k).trials);
  }

  /** With the two rows there are, a general protection fault in `dev::power` is met
      with `skip-hwp` first, and any other failure with `retry`. */
  lemma FirstRepair(f: Failure, choose: Chooser, judge: Judge<Knobs>, k: Knobs)
    requires forall n, left, tried :: choose(n, left, tried) == 0
    ensures var trials := Attempt(ACTIONS, f, choose, judge, k).trials;
            && trials != [] && trials[0].row < |ACTIONS|
            && ACTIONS[trials[0].row].name
               == if f.name == "power" && f.why == "general protection fault" && f.site.Some?
                     && exists x, y :: f.site.value == x + ("dev::power" + y)
                  then "skip-hwp" else "retry"
  {
    hide Rank, Rounds;
    TableIs();
    RankOfTable(f);
    var trials := Attempt(ACTIONS, f, choose, judge, k).trials;
    if f.site.Some? { ContainsIff(f.site.value, "dev::power"); }
    hide Contains;
    SomethingIsTried(ACTIONS, f, choose, judge, k);
    RuleTriesInOrder(ACTIONS, f, choose, judge, k);
    assert RowsOf(trials)[0] == Rank(ACTIONS, f)[0];
  }

  lemma {:induction false} TrialsOnlyGrow<K>(table: Table<K>, choose: Chooser, judge: Judge<K>, round: nat,
                                             left: seq<nat>, k: K, trials: seq<Trial>)
    requires InTable(table, left)
    ensures |trials| <= |Rounds(table, choose, judge, round, left, k, trials).trials|
    decreases MAX_ATTEMPTS - round
  {
    if round < MAX_ATTEMPTS && left != [] {
      var i := Pick(choose, round, left, trials);
      var row := left[i];
      var (after, applied) := table[row].apply(k);
      var v := if applied then StillFails else Declined;
      var next := if applied then table[row].revert(after) else after;
      TrialsOnlyGrow(table, choose, judge, round + 1, RemoveAt(left, i), next, trials + [Trial(row, v)]);
    }
  }

  lemma SomethingIsTried<K>(table: Table<K>, f: Failure, choose: Chooser, judge: Judge<K>, k: K)
    requires Rank(table, f) != []
    ensures Attempt(table, f, choose, judge, k).trials != []
  {
    hide Rank;
    RankInTable(table, f);
    var left := Rank(table, f);
    var i := Pick(choose, 0, left, []);
    var row := left[i];
    var (after, applied) := table[row].apply(k);
    var v := if applied then StillFails else Declined;
    var next := if applied then table[row].revert(after) else after;
    TrialsOnlyGrow(table, choose, judge, 1, RemoveAt(left, i), next, [] + [Trial(row, v)]);
  }

  /** A site contains a part when the part stands anywhere in it. */
  lemma ContainsIff(s: string, part: string)
    ensures Contains(s, part) <==> exists x, y :: s == x + (part + y)
  {
    if Contains(s, part) {
      var i :| 0 <= i <= |s| && part <= s[i..];
      assert s == s[..i] + (part + s[i + |part|..]);
    }
    if exists x, y :: s == x + (part + y) {
      var x, y :| s == x + (part + y);
      assert s[|x|..] == part + y;
    }
  }

  /** A repair named at the next boot is applied exactly when the table has a row of that
      name, offered for the subsystem or for all of them. */
  lemma WouldApplyIff<K>(table: Table<K>, subsystem: string, name: string)
    requires NamesDistinct(table)
    ensures WouldApply(table, subsystem, name) <==>
            exists i | 0 <= i < |table| ::
              table[i].name == name && (table[i].offeredFor == [] || subsystem in table[i].offeredFor)
  {
    forall i | 0 <= i < |table| && table[i].name == name
      ensures Find(table, name) == Some(i)
    {
      var r := Find(table, name);
    }
  }
}
