/** The deletions of normal mode, and undoing them. */
module EditorDelete {
  import opened Common
  import opened Utf8
  import opened EditorModel
  import opened EditorInvariant
  import opened EditorHistory

  const D: Event := Event(0x64, false)
  const X_KEY: Event := Event(0x78, false)

  /** An edit made behind a checkpoint, from rest to rest, is taken back by one
      undo: buffer, cursor and dirty flag. */
  lemma UndoTakesBackEdit(e: Ed, edit: seq<Event>)
    requires AtRest(e) && AtRest(Run(e, edit))
    requires Run(e, edit).undo == Checkpoint(e).undo
    ensures var f := Run(e, edit + [U]); AtRest(f) && Snap(f) == Snap(e)
  {
    hide Clamp, Key, Run, Clamped;
    var h := e.undo + [Snap(e)];
    assert Trimmed(h)[|Trimmed(h)| - 1] == Snap(e);
    UndoIs(Run(e, edit));
    RunConcat(e, edit, [U]);
  }

  lemma CheckpointedRests(e: Ed, f: Ed)
    requires Inv(f) && f.mode.Normal? && f.pending.None? && !f.quit
    ensures AtRest(Clamp(f)) && Clamp(f).undo == f.undo && Clamp(f).lines == f.lines && Clamp(f).dirty == f.dirty
  {
    ClampKeeps(f);
  }

  lemma NotMoves(e: Ed)
    requires Clamped(e)
    ensures MoveKey(e, 0x78).None? && MoveKey(e, 0x64).None?
  {
  }

  /** `x`: on a character it takes that one, on an empty line it does nothing. */
  lemma XIs(e: Ed)
    requires AtRest(e)
    ensures var f := Run(e, [X_KEY]); var line := e.lines[e.cy];
            && AtRest(f)
            && (if line == [] then f == e
                else f.lines == e.lines[e.cy := RemoveAt(line, e.cx)] && f.dirty && f.undo == Checkpoint(e).undo)
  {
    hide Run, MoveKey, Checkpoint, Clamp;
    RunOne(e, X_KEY);
    KeyKeeps(e, X_KEY);
    NotMoves(e);
    CheckpointIs(e);
    ClampedIsFixed(e);
    CheckpointedRests(e, Key(e, X_KEY));
  }

  lemma FirstD(e: Ed)
    requires AtRest(e)
    ensures Run(e, [D]) == e.(pending := Some(0x64))
  {
    hide Run, MoveKey, Clamp;
    RunOne(e, D);
    NotMoves(e);
    ClampedIsFixed(e.(pending := Some(0x64)));
  }

  /** `dd`: the line goes, the others stay in order; the last one left is emptied
      instead. */
  lemma DdIs(e: Ed)
    requires AtRest(e)
    ensures var f := Run(e, [D, D]);
            && AtRest(f) && f.dirty && f.undo == Checkpoint(e).undo
            && f.lines == if |e.lines| == 1 then [[]] else RemoveAt(e.lines, e.cy)
  {
    hide Run, Clamp, Checkpoint, MoveKey;
    FirstD(e);
    var p := e.(pending := Some(0x64));
    RunOne(p, D);
    KeyKeeps(p, D);
    CheckpointIs(e);
    CheckpointedRests(e, Key(p, D));
    RunConcat(e, [D], [D]);
    assert [D] + [D] == [D, D];
  }

  /** A deletion and one undo: everything as it was. */
  lemma UndoTakesBackDeletion(e: Ed)
    requires AtRest(e)
    ensures var f := Run(e, [D, D, U]); AtRest(f) && Snap(f) == Snap(e)
    ensures e.lines[e.cy] != [] ==> var g := Run(e, [X_KEY, U]); AtRest(g) && Snap(g) == Snap(e)
  {
    hide Run, Clamp, Checkpoint, RemoveAt;
    DdIs(e);
    UndoTakesBackEdit(e, [D, D]);
    assert [D, D] + [U] == [D, D, U];
    if e.lines[e.cy] != [] {
      XIs(e);
      UndoTakesBackEdit(e, [X_KEY]);
      assert [X_KEY] + [U] == [X_KEY, U];
    }
  }
}
