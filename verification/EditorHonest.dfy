/**
 When the dirty flag can be trusted.

 Undo and redo put back an old flag with an old buffer. Whether that flag still
 tells the truth depends on what the file holds by then, so the histories are part
 of the question: every clean snapshot in them is a promise that the file holds it.
 */
module EditorHonest {
  import opened Common
  import opened Utf8
  import opened EditorModel
  import opened EditorInvariant
  import opened EditorHistory
  import opened EditorFiles

  /** Every clean snapshot is what the file opens to. */
  predicate CleanOnesHold(h: seq<Snapshot>, lines: seq<Text>) {
    forall i | 0 <= i < |h| && !h[i].dirty :: h[i].lines == lines
  }

  /** The flag tells the truth now, and will after any undo or redo. */
  predicate Honest(e: Ed) {
    var saved := LinesAt(e.files, e.path);
    CleanMeansSaved(e) && CleanOnesHold(e.undo, saved) && CleanOnesHold(e.redo, saved)
  }

  /** What a user could look for before saving: a clean snapshot of another text,
      to be gone back or forward to. */
  predicate HistoryAgrees(e: Ed) { CleanOnesHold(e.undo, e.lines) && CleanOnesHold(e.redo, e.lines) }

  lemma OpenIsHonest(path: Text, files: map<Text, Bytes>, rows: nat)
    ensures Honest(Open(path, files, rows))
  {
  }

  /** The flag, the text, the file and the histories are all that matter. */
  predicate SameStory(e: Ed, f: Ed) {
    f.lines == e.lines && f.dirty == e.dirty && f.files == e.files && f.path == e.path &&
    f.undo == e.undo && f.redo == e.redo
  }

  lemma StoryIsHonest(e: Ed, f: Ed)
    requires SameStory(e, f)
    ensures Honest(f) == Honest(e)
  {
  }

  // ----- one key -----

  lemma HoldsMore(h: seq<Snapshot>, s: Snapshot, lines: seq<Text>)
    requires CleanOnesHold(h, lines) && (!s.dirty ==> s.lines == lines)
    ensures CleanOnesHold(h + [s], lines) && CleanOnesHold(Trimmed(h + [s]), lines)
  {
  }

  /** A checkpoint, and anything done to the buffer behind it that leaves the flag
      dirty. */
  lemma CheckpointHonest(e: Ed)
    requires Honest(e)
    ensures Honest(Checkpoint(e))
  {
    hide LinesAt, Trimmed;
    HoldsMore(e.undo, Snap(e), LinesAt(e.files, e.path));
  }

  lemma HistoryHonest(e: Ed)
    requires Honest(e)
    ensures Honest(UndoOne(e)) && Honest(RedoOne(e))
  {
    hide LinesAt, Trimmed;
    HoldsMore(e.undo, Snap(e), LinesAt(e.files, e.path));
    HoldsMore(e.redo, Snap(e), LinesAt(e.files, e.path));
  }

  /** The same histories and file, and a buffer that is dirty or as it was. */
  lemma EditHonest(e: Ed, f: Ed)
    requires Honest(e) && f.files == e.files && f.path == e.path && f.undo == e.undo && f.redo == e.redo
    requires f.dirty || (!e.dirty && f.lines == e.lines)
    ensures Honest(f)
  {
  }

  lemma SecondHonest(e: Ed, p: Byte, k: Byte)
    requires Honest(e) && Clamped(e)
    ensures Honest(SecondKey(e, p, k))
  {
    hide Honest, Checkpoint, RemoveAt;
    CheckpointHonest(e);
    CheckpointIs(e);
    if p == 0x64 && k == 0x64 {
      EditHonest(Checkpoint(e), SecondKey(e, p, k));
    } else {
      StoryIsHonest(e, SecondKey(e, p, k));
    }
  }

  lemma StartHonest(e: Ed, k: Byte)
    requires Honest(e) && Clamped(e) && StartsInsert(k)
    ensures Honest(StartInsert(e, k))
  {
    hide Honest, Checkpoint, InsertAt;
    CheckpointHonest(e);
    CheckpointIs(e);
    if k == 0x6F || k == 0x4F {
      EditHonest(Checkpoint(e), StartInsert(e, k));
    } else {
      StoryIsHonest(Checkpoint(e), StartInsert(e, k));
    }
  }

  lemma XHonest(e: Ed)
    requires Honest(e) && Clamped(e) && e.cx < |e.lines[e.cy]|
    ensures Honest(Checkpoint(e).(lines := e.lines[e.cy := RemoveAt(e.lines[e.cy], e.cx)], dirty := true))
  {
    hide Honest, Checkpoint, RemoveAt;
    CheckpointHonest(e);
    CheckpointIs(e);
    EditHonest(Checkpoint(e), Checkpoint(e).(lines := e.lines[e.cy := RemoveAt(e.lines[e.cy], e.cx)], dirty := true));
  }

  lemma NormalHonest(e: Ed, k: Byte)
    requires Honest(e) && Clamped(e) && e.mode.Normal?
    ensures Honest(NormalKey(e, k))
  {
    hide Honest, MoveKey, SecondKey, StartInsert, Checkpoint, UndoOne, RedoOne, RemoveAt;
    MoveOnlyMoves(e, k);
    HistoryHonest(e);
    if e.cx < |e.lines[e.cy]| { XHonest(e); }
    if StartsInsert(k) { StartHonest(e, k); }
    if e.pending.Some? {
      StoryIsHonest(e, e.(pending := None));
      SecondHonest(e.(pending := None), e.pending.value, k);
    } else if MoveKey(e, k).Some? || k == 0x64 || k == 0x67 || k == 0x3A {
      StoryIsHonest(e, NormalKey(e, k));
    }
  }

  lemma InsertKeepsHistory(e: Ed, k: Byte)
    requires Clamped(e)
    ensures InsertKey(e, k).undo == e.undo && InsertKey(e, k).redo == e.redo
  {
  }

  lemma InsertHonest(e: Ed, k: Byte)
    requires Honest(e) && Clamped(e)
    ensures Honest(InsertKey(e, k))
  {
    hide Honest, InsertKey;
    InsertDirties(e, k);
    InsertKeepsHistory(e, k);
    var f := InsertKey(e, k);
    if f.dirty {
      EditHonest(e, f);
    } else {
      StoryIsHonest(e, f);
    }
  }

  /** Whether a key is the Enter of a `:w`, `:wq` or `:x` that the store takes. */
  predicate Saves(e: Ed, v: Event) {
    var verb := UpToSpace(Trim(e.cmd));
    e.mode.Command? && v.k == ENTER && v.ok && (verb == [W] || verb == [W, Q] || verb == [X])
  }

  lemma CommandTellsSameStory(e: Ed, v: Event)
    requires e.mode.Command? && !Saves(e, v)
    ensures SameStory(e, CommandKey(e, v.k, v.ok))
  {
    hide Trim, UpToSpace, Argument, Encode, SaveText;
  }

  /** No key but a save can make the flag untrustworthy: not undo, not redo. */
  lemma KeyKeepsHonest(e: Ed, v: Event)
    requires Honest(e) && Clamped(e) && !Saves(e, v)
    ensures Honest(Key(e, v))
  {
    hide Honest, NormalKey, InsertKey, CommandKey, Saves;
    match e.mode
    case Normal => NormalHonest(e, v.k);
    case Insert => InsertHonest(e, v.k);
    case Command =>
      CommandTellsSameStory(e, v);
      StoryIsHonest(e, CommandKey(e, v.k, v.ok));
  }

  /** And a save leaves it trustworthy exactly when no clean snapshot is of another
      text than the one saved. */
  lemma SaveHonestIff(e: Ed, to: Text)
    requires Inv(e)
    ensures Honest(Save(e, to, true)) <==> HistoryAgrees(e)
  {
    hide Encode, SaveText, OpenLines;
    OpenTakesBackSave(e.lines);
  }

  lemma SavesIs(e: Ed, v: Event)
    requires Saves(e, v)
    ensures var to := Argument(Trim(e.cmd)); SameStory(Save(e, to, true), CommandKey(e, v.k, v.ok))
  {
    hide Trim, UpToSpace, Argument, Encode, SaveText;
  }

  /** Every key, then. */
  lemma KeyHonestIff(e: Ed, v: Event)
    requires Honest(e) && Inv(e) && Clamped(e)
    ensures Honest(Key(e, v)) <==> (Saves(e, v) ==> HistoryAgrees(e))
  {
    if Saves(e, v) {
      SavesIs(e, v);
      hide Honest, CommandKey, Save, Saves;
      SaveHonestIff(e, Argument(Trim(e.cmd)));
      StoryIsHonest(Save(e, Argument(Trim(e.cmd)), true), CommandKey(e, v.k, v.ok));
    } else {
      KeyKeepsHonest(e, v);
    }
  }

  // ----- every session -----

  /** The flag can be trusted at every point of a session. */
  predicate AlwaysHonest(e: Ed, events: seq<Event>)
    requires Inv(e)
    decreases |events|
  {
    Honest(Clamp(e)) &&
    (Clamp(e).quit || events == [] || AlwaysHonest(AfterKey(e, events[0]), events[1..]))
  }

  /** Every save of a session is made when no clean snapshot is of another text. */
  predicate SavesAgree(e: Ed, events: seq<Event>)
    requires Inv(e)
    decreases |events|
  {
    Clamp(e).quit || events == [] ||
    ((Saves(Clamp(e), events[0]) ==> HistoryAgrees(Clamp(e))) && SavesAgree(AfterKey(e, events[0]), events[1..]))
  }

  /** Over any key sequence: the flag can be trusted throughout if and only if every
      save is made when the histories hold no clean snapshot of another text. */
  lemma {:induction false} AlwaysHonestIff(e: Ed, events: seq<Event>)
    requires Inv(e) && Honest(e)
    ensures AlwaysHonest(e, events) <==> SavesAgree(e, events)
    decreases |events|
  {
    hide Honest, Clamp, Key, Saves, HistoryAgrees, Inv;
    var c := Clamp(e);
    ClampKeeps(e);
    ClampTellsSameStory(e);
    StoryIsHonest(e, c);
    if !c.quit && events != [] {
      KeyHonestIff(c, events[0]);
      var f := AfterKey(e, events[0]);
      if Honest(f) {
        AlwaysHonestIff(f, events[1..]);
      } else {
        ClampTellsSameStory(f);
        StoryIsHonest(f, Clamp(f));
      }
    }
  }

  lemma ClampTellsSameStory(e: Ed)
    ensures SameStory(e, Clamp(e))
  {
  }

  /** In particular from opening any file, and for every session that never saves. */
  lemma SessionIsHonestIff(path: Text, files: map<Text, Bytes>, rows: nat, events: seq<Event>)
    ensures Inv(Open(path, files, rows))
    ensures AlwaysHonest(Open(path, files, rows), events) <==> SavesAgree(Open(path, files, rows), events)
  {
    OpenedInv(path, files, rows);
    OpenIsHonest(path, files, rows);
    AlwaysHonestIff(Open(path, files, rows), events);
  }

  // ----- why the histories -----

  /** After `k` undos the buffer and the flag are the k-th newest snapshot's. */
  lemma {:induction false} UndosGoBack(e: Ed, k: nat)
    requires AtRest(e) && 0 < k <= |e.undo|
    ensures var f := Run(e, Times(U, k)); var s := e.undo[|e.undo| - k];
            && AtRest(f) && f.lines == s.lines && f.dirty == s.dirty && f.files == e.files && f.path == e.path
            && f.undo == e.undo[..|e.undo| - k]
    decreases k
  {
    hide Clamp, Key, Run, Clamped, Inv;
    UndoIs(e);
    var f := Run(e, [U]);
    assert f.undo == e.undo[..|e.undo| - 1];
    if k == 1 {
      assert Times(U, 1) == [U] + Times(U, 0) == [U];
    } else {
      UndosGoBack(f, k - 1);
      RunConcat(e, [U], Times(U, k - 1));
    }
  }

  lemma {:induction false} RedosGoForward(e: Ed, k: nat)
    requires AtRest(e) && 0 < k <= |e.redo|
    ensures var f := Run(e, Times(R, k)); var s := e.redo[|e.redo| - k];
            && AtRest(f) && f.lines == s.lines && f.dirty == s.dirty && f.files == e.files && f.path == e.path
            && f.redo == e.redo[..|e.redo| - k]
    decreases k
  {
    hide Clamp, Key, Run, Clamped, Inv;
    RedoIs(e);
    var f := Run(e, [R]);
    assert f.redo == e.redo[..|e.redo| - 1];
    if k == 1 {
      assert Times(R, 1) == [R] + Times(R, 0) == [R];
    } else {
      RedosGoForward(f, k - 1);
      RunConcat(e, [R], Times(R, k - 1));
    }
  }

  /** However far one goes back or forward from here, a clean flag means saved. */
  predicate TrueBothWays(e: Ed)
    requires Inv(e)
  {
    CleanMeansSaved(e) &&
    (forall k: nat | 0 < k <= |e.undo| :: CleanMeansSaved(Run(e, Times(U, k)))) &&
    (forall k: nat | 0 < k <= |e.redo| :: CleanMeansSaved(Run(e, Times(R, k))))
  }

  /** That is what honesty comes to: with a clean snapshot the file does not hold,
      undoing or redoing to it shows a clean flag over a text that is not saved. */
  lemma HonestIffTrueBothWays(e: Ed)
    requires AtRest(e)
    ensures Honest(e) <==> TrueBothWays(e)
  {
    hide Run, Clamped, Inv, LinesAt, Times;
    var saved := LinesAt(e.files, e.path);
    forall k: nat | 0 < k <= |e.undo|
      ensures CleanMeansSaved(Run(e, Times(U, k))) <==> (!e.undo[|e.undo| - k].dirty ==> e.undo[|e.undo| - k].lines == saved)
    {
      UndosGoBack(e, k);
    }
    forall k: nat | 0 < k <= |e.redo|
      ensures CleanMeansSaved(Run(e, Times(R, k))) <==> (!e.redo[|e.redo| - k].dirty ==> e.redo[|e.redo| - k].lines == saved)
    {
      RedosGoForward(e, k);
    }
    if TrueBothWays(e) {
      forall i | 0 <= i < |e.undo| && !e.undo[i].dirty ensures e.undo[i].lines == saved {
        assert CleanMeansSaved(Run(e, Times(U, |e.undo| - i)));
      }
      forall i | 0 <= i < |e.redo| && !e.redo[i].dirty ensures e.redo[i].lines == saved {
        assert CleanMeansSaved(Run(e, Times(R, |e.redo| - i)));
      }
    }
  }

  /** `:w` as typed: afterwards every undo and redo tells the truth if and only if,
      when it was typed, no clean snapshot was of another text. */
  lemma WriteTrueIff(e: Ed)
    requires AtRest(e)
    ensures AtRest(Run(e, WRITE))
    ensures TrueBothWays(Run(e, WRITE)) <==> HistoryAgrees(e)
  {
    hide Run, Encode, SaveText, Clamped, OpenLines, Times;
    WriteIs(e);
    OpenTakesBackSave(e.lines);
    HonestIffTrueBothWays(Run(e, WRITE));
  }
}
