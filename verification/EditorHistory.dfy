/** Undo takes back what was done, and redo takes back the undo. */
module EditorHistory {
  import opened Common
  import opened Utf8
  import opened EditorModel
  import opened EditorInvariant

  const U: Event := Event(0x75, false)
  const R: Event := Event(0x12, false)
  const LEAVE: Event := Event(27, false)

  /** Running keys one after another is running the rest from where the first
      ones led, unless they quit. */
  lemma {:induction false} RunConcat(e: Ed, xs: seq<Event>, ys: seq<Event>)
    requires Inv(e) && !Run(e, xs).quit
    ensures Run(e, xs + ys) == Run(Run(e, xs), ys)
    decreases |xs|
  {
    hide Key, Clamp, Inv;
    if xs == [] {
      assert xs + ys == ys;
      ClampTwice(e);
    } else {
      assert (xs + ys)[1..] == xs[1..] + ys;
      NotQuitYet(e, xs);
      RunConcat(AfterKey(e, xs[0]), xs[1..], ys);
    }
  }

  lemma ClampTwice(e: Ed)
    requires Inv(e)
    ensures Inv(Clamp(e)) && Clamp(Clamp(e)) == Clamp(e)
  {
    ClampMakesClamped(e);
    ClampedIsFixed(Clamp(e));
  }

  function AfterKey(e: Ed, v: Event): (r: Ed)
    requires Inv(e)
    ensures Inv(r)
  {
    ClampMakesClamped(e);
    KeyKeeps(Clamp(e), v);
    Key(Clamp(e), v)
  }

  lemma NotQuitYet(e: Ed, xs: seq<Event>)
    requires Inv(e) && xs != [] && !Run(e, xs).quit
    ensures !Clamp(e).quit && Run(e, xs) == Run(AfterKey(e, xs[0]), xs[1..])
  {
  }

  // ----- undo and redo -----

  /** The same text, cursor, flags and history: all but the window may differ. */
  predicate SameEdit(e: Ed, f: Ed) {
    f == e.(top := f.top)
  }

  /** In front of the user, in normal mode, with nothing half-typed. */
  predicate AtRest(e: Ed) {
    Inv(e) && Clamped(e) && e.mode.Normal? && e.pending.None? && !e.quit
  }

  lemma RunNothing(e: Ed)
    requires Inv(e)
    ensures Run(e, []) == Clamp(e)
  {
  }

  /** Running one key from a clamped state. */
  lemma RunOne(e: Ed, v: Event)
    requires Inv(e) && Clamped(e) && !e.quit
    ensures e.cx <= |e.lines[e.cy]| && Run(e, [v]) == Clamp(Key(e, v))
  {
    hide Key, Clamp, Inv;
    ClampedIsFixed(e);
    KeyKeeps(e, v);
    assert [v][1..] == [];
    RunNothing(Key(e, v));
  }

  /** Putting back a snapshot leaves the editor at rest with its cursor kept. */
  lemma RestoreRests(e: Ed, s: Snapshot)
    requires Inv(e) && e.mode.Normal? && e.pending.None? && !e.quit && SnapshotOk(s)
    ensures AtRest(Clamp(Restore(e, s))) && SameEdit(Restore(e, s), Clamp(Restore(e, s)))
  {
  }

  lemma HistoryKeys(e: Ed)
    requires AtRest(e)
    ensures Key(e, U) == UndoOne(e) && Key(e, R) == RedoOne(e)
  {
    hide UndoOne, RedoOne, Forward, BackOverSpace, BackOverWord;
  }

  lemma UndoIs(e: Ed)
    requires AtRest(e) && e.undo != []
    ensures AtRest(Run(e, [U])) && SameEdit(UndoOne(e), Run(e, [U]))
  {
    hide Clamp, Restore, Key, Run, Clamped;
    RunOne(e, U);
    HistoryKeys(e);
    SnapFits(e);
    var last := |e.undo| - 1;
    var f := e.(undo := e.undo[..last], redo := e.redo + [Snap(e)]);
    RestoreRests(f, e.undo[last]);
  }

  lemma RedoIs(e: Ed)
    requires AtRest(e) && e.redo != []
    ensures AtRest(Run(e, [R])) && SameEdit(RedoOne(e), Run(e, [R]))
  {
    hide Clamp, Restore, Key, Run, Clamped;
    RunOne(e, R);
    HistoryKeys(e);
    SnapFits(e);
    var last := |e.redo| - 1;
    var f := e.(redo := e.redo[..last], undo := e.undo + [Snap(e)]);
    RestoreRests(f, e.redo[last]);
  }

  lemma SnapFits(e: Ed)
    requires AtRest(e)
    ensures SnapshotOk(Snap(e))
  {
  }

  /** Redoing right after an undo, from any state that differs only in the
      window, is back at the start. */
  lemma RedoTakesBackUndo(e: Ed, f: Ed)
    requires AtRest(e) && e.undo != [] && AtRest(f) && SameEdit(Run(e, [U]), f)
    ensures AtRest(Run(f, [R])) && SameEdit(e, Run(f, [R]))
  {
    hide Run, Clamp, Key;
    UndoIs(e);
    assert f.redo == e.redo + [Snap(e)];
    RedoIs(f);
    assert f.redo[..|f.redo| - 1] == e.redo;
    assert f.undo + [Snap(f)] == e.undo;
  }

  function Times(v: Event, k: nat): (r: seq<Event>)
    ensures |r| == k
  {
    if k == 0 then [] else [v] + Times(v, k - 1)
  }

  lemma {:induction false} TimesLast(v: Event, k: nat)
    ensures Times(v, k + 1) == Times(v, k) + [v]
  {
    if k > 0 { TimesLast(v, k - 1); }
  }

  /** `k` undos followed by `k` redos put everything back: the buffer, the
      cursor, the dirty flag and both histories. */
  lemma {:induction false} UndosThenRedos(e: Ed, k: nat)
    requires AtRest(e) && k <= |e.undo|
    ensures AtRest(Run(e, Times(U, k) + Times(R, k)))
    ensures SameEdit(e, Run(e, Times(U, k) + Times(R, k)))
    decreases k
  {
    hide Clamp, Key;
    if k == 0 {
      ClampedIsFixed(e);
      assert Times(U, 0) + Times(R, 0) == [];
    } else {
      UndoIs(e);
      var e1 := Run(e, [U]);
      UndosThenRedos(e1, k - 1);
      var inner := Times(U, k - 1) + Times(R, k - 1);
      var e2 := Run(e1, inner);
      RedoTakesBackUndo(e, e2);
      TimesLast(R, k - 1);
      RunConcat(e, [U], inner + [R]);
      RunConcat(e1, inner, [R]);
      assert Times(U, k) + Times(R, k) == [U] + (inner + [R]);
    }
  }

  // ----- an insert session -----

  /** An insert-mode key other than ESC stays in insert mode and leaves the
      history alone. */
  lemma InsertKeyStays(e: Ed, k: Byte)
    requires Inv(e) && Clamped(e) && e.mode.Insert? && k != ESC
    ensures var f := InsertKey(e, k);
            f.mode.Insert? && f.undo == e.undo && f.quit == e.quit && f.pending == e.pending
  {
  }

  lemma {:induction false} SessionStays(e: Ed, keys: seq<Event>)
    requires Inv(e) && e.mode.Insert? && !e.quit && forall v | v in keys :: v.k != ESC
    ensures var f := Run(e, keys);
            f.mode.Insert? && f.undo == e.undo && !f.quit && f.pending == e.pending
    decreases |keys|
  {
    hide InsertKey;
    ClampMakesClamped(e);
    if keys != [] {
      InsertKeyStays(Clamp(e), keys[0].k);
      KeyKeeps(Clamp(e), keys[0]);
      SessionStays(Key(Clamp(e), keys[0]), keys[1..]);
    }
  }

  lemma InsertKeysDoNotMove(e: Ed, k: Byte)
    requires Clamped(e) && StartsInsert(k)
    ensures MoveKey(e, k).None?
  {
  }

  lemma StartInsertIs(e: Ed, k: Byte)
    requires AtRest(e) && StartsInsert(k)
    ensures var f := Run(e, [Event(k, false)]);
            && Inv(f) && f.mode.Insert? && !f.quit && f.pending.None?
            && f.undo != [] && f.undo[|f.undo| - 1] == Snap(e)
  {
    hide MoveKey;
    InsertKeysDoNotMove(e, k);
    RunOne(e, Event(k, false));
    KeyKeeps(e, Event(k, false));
    assert NormalKey(e, k) == StartInsert(e, k);
  }

  lemma LeaveIs(e: Ed)
    requires Inv(e) && Clamped(e) && e.mode.Insert? && !e.quit && e.pending.None?
    ensures AtRest(Run(e, [LEAVE])) && Run(e, [LEAVE]).undo == e.undo
  {
    hide Run;
    RunOne(e, LEAVE);
    KeyKeeps(e, LEAVE);
    ClampMakesClamped(Key(e, LEAVE));
  }

  /** After a whole session the editor is at rest, with the state it started
      from on top of its history. */
  lemma SessionIs(e: Ed, k: Byte, keys: seq<Event>)
    requires AtRest(e) && StartsInsert(k) && forall v | v in keys :: v.k != ESC
    ensures var f := Run(e, [Event(k, false)] + (keys + [LEAVE]));
            AtRest(f) && f.undo != [] && f.undo[|f.undo| - 1] == Snap(e)
  {
    hide Clamp, Key;
    var start := [Event(k, false)];
    StartInsertIs(e, k);
    var e1 := Run(e, start);
    SessionStays(e1, keys);
    LeaveIs(Run(e1, keys));
    RunConcat(e, start, keys + [LEAVE]);
    RunConcat(e1, keys, [LEAVE]);
  }

  /** Undoing an insert session: from rest, any key that starts one, any keys
      typed in it, ESC and `u` leave the buffer, the cursor and the dirty flag
      exactly as they were. */
  lemma UndoTakesBackASession(e: Ed, k: Byte, keys: seq<Event>)
    requires AtRest(e) && StartsInsert(k) && forall v | v in keys :: v.k != ESC
    ensures var f := Run(e, [Event(k, false)] + (keys + [LEAVE]) + [U]);
            AtRest(f) && Snap(f) == Snap(e)
  {
    hide Clamp, Key, Run;
    SessionIs(e, k, keys);
    var session := [Event(k, false)] + (keys + [LEAVE]);
    UndoIs(Run(e, session));
    RunConcat(e, session, [U]);
  }
}
