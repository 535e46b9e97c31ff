/** What every keystroke keeps, over every key sequence. */
module EditorInvariant {
  import opened Common
  import opened Utf8
  import opened EditorModel

  predicate NoNewlines(lines: seq<Text>) {
    forall i | 0 <= i < |lines| :: NEWLINE !in lines[i]
  }

  /** A snapshot is a buffer with the cursor where normal mode allows it. */
  predicate SnapshotOk(s: Snapshot) {
    NoNewlines(s.lines) && s.cy < |s.lines| && s.cx <= Dec(|s.lines[s.cy]|)
  }

  predicate HistoryOk(h: seq<Snapshot>) {
    forall i | 0 <= i < |h| :: SnapshotOk(h[i])
  }

  predicate Inv(e: Ed) {
    |e.lines| > 0 && NoNewlines(e.lines) &&
    HistoryOk(e.undo) && HistoryOk(e.redo) && |e.undo| + |e.redo| <= UNDO_MAX
  }

  lemma ClampMakesClamped(e: Ed)
    requires |e.lines| > 0
    ensures Clamped(Clamp(e))
  {
  }

  lemma ClampKeeps(e: Ed)
    requires Inv(e)
    ensures Inv(Clamp(e)) && Clamped(Clamp(e))
  {
    ClampMakesClamped(e);
  }

  lemma ClampedIsFixed(e: Ed)
    requires Clamped(e)
    ensures Clamp(e) == e
  {
  }

  lemma CheckpointKeeps(e: Ed)
    requires Inv(e) && Clamped(e) && !e.mode.Insert?
    ensures Inv(Checkpoint(e))
  {
    var h := e.undo + [Snap(e)];
    assert HistoryOk(h);
  }

  lemma HistoryKeeps(e: Ed)
    requires Inv(e) && Clamped(e) && !e.mode.Insert?
    ensures Inv(UndoOne(e)) && Inv(RedoOne(e))
  {
    assert SnapshotOk(Snap(e));
  }

  lemma LinesKept(lines: seq<Text>, y: nat, line: Text)
    requires NoNewlines(lines) && y < |lines| && NEWLINE !in line
    ensures NoNewlines(lines[y := line])
    ensures NoNewlines(InsertAt(lines, y, line)) && NoNewlines(InsertAt(lines, y + 1, line))
    ensures NoNewlines(RemoveAt(lines, y))
  {
  }

  lemma LineKept(line: Text, x: nat, ch: Scalar)
    requires NEWLINE !in line && x <= |line| && ch != NEWLINE
    ensures NEWLINE !in InsertAt(line, x, ch) && NEWLINE !in line[..x] && NEWLINE !in line[x..]
    ensures x < |line| ==> NEWLINE !in RemoveAt(line, x)
  {
  }

  lemma StartInsertKeeps(e: Ed, k: Byte)
    requires Inv(e) && Clamped(e) && e.mode.Normal? && StartsInsert(k)
    ensures Inv(StartInsert(e, k))
  {
    CheckpointKeeps(e);
    LinesKept(e.lines, e.cy, []);
  }

  /** Moving changes the cursor and nothing else. */
  lemma MoveOnlyMoves(e: Ed, k: Byte)
    requires Clamped(e)
    ensures var m := MoveKey(e, k); m.Some? ==> m.value == e.(cx := m.value.cx, cy := m.value.cy)
  {
    hide Forward, BackOverSpace, BackOverWord, LineLen, Dec;
  }

  lemma SecondKeyKeeps(e: Ed, p: Byte, k: Byte)
    requires Inv(e) && Clamped(e) && !e.mode.Insert?
    ensures Inv(SecondKey(e, p, k))
  {
    CheckpointKeeps(e);
    LinesKept(e.lines, e.cy, []);
  }

  lemma DeleteCharKeeps(e: Ed)
    requires Inv(e) && Clamped(e) && e.cx < |e.lines[e.cy]|
    ensures NoNewlines(e.lines[e.cy := RemoveAt(e.lines[e.cy], e.cx)])
  {
    LineKept(e.lines[e.cy], e.cx, SPACE);
    LinesKept(e.lines, e.cy, RemoveAt(e.lines[e.cy], e.cx));
  }

  lemma NormalKeyKeeps(e: Ed, k: Byte)
    requires Inv(e) && Clamped(e) && e.mode.Normal?
    ensures Inv(NormalKey(e, k))
  {
    hide MoveKey, SecondKey, StartInsert, UndoOne, RedoOne, Checkpoint;
    MoveOnlyMoves(e, k);
    CheckpointKeeps(e);
    CheckpointIs(e);
    HistoryKeeps(e);
    if e.pending.Some? { SecondKeyKeeps(e.(pending := None), e.pending.value, k); }
    if e.cx < |e.lines[e.cy]| { DeleteCharKeeps(e); }
    if StartsInsert(k) { StartInsertKeeps(e, k); }
  }

  /** A checkpoint changes the history and nothing else. */
  lemma CheckpointIs(e: Ed)
    ensures Checkpoint(e) == e.(undo := Checkpoint(e).undo, redo := [])
  {
  }

  lemma SplitKeeps(e: Ed)
    requires Inv(e) && Clamped(e)
    ensures Inv(SplitLine(e))
  {
    var line := e.lines[e.cy];
    LineKept(line, e.cx, SPACE);
    LinesKept(e.lines, e.cy, line[..e.cx]);
    LinesKept(e.lines[e.cy := line[..e.cx]], e.cy, line[e.cx..]);
  }

  lemma BackspaceKeeps(e: Ed)
    requires Inv(e) && Clamped(e)
    ensures Inv(Backspace(e))
  {
    var line := e.lines[e.cy];
    if e.cx > 0 {
      LineKept(line, e.cx - 1, SPACE);
      LinesKept(e.lines, e.cy, RemoveAt(line, e.cx - 1));
    } else if e.cy > 0 {
      LinesKept(e.lines, e.cy, []);
      LinesKept(RemoveAt(e.lines, e.cy), e.cy - 1, e.lines[e.cy - 1] + line);
    }
  }

  lemma InsertKeyKeeps(e: Ed, k: Byte)
    requires Inv(e) && Clamped(e) && e.mode.Insert?
    ensures Inv(InsertKey(e, k))
  {
    var line := e.lines[e.cy];
    SplitKeeps(e);
    BackspaceKeeps(e);
    LineKept(line, e.cx, SPACE);
    if e.cx < |line| { LinesKept(e.lines, e.cy, RemoveAt(line, e.cx)); }
    if Printable(k) {
      LineKept(line, e.cx, k);
      LinesKept(e.lines, e.cy, InsertAt<Scalar>(line, e.cx, k));
    }
  }

  predicate SameBuffer(e: Ed, f: Ed) {
    f.lines == e.lines && f.cx == e.cx && f.cy == e.cy && f.undo == e.undo && f.redo == e.redo
  }

  lemma SaveLeavesBuffer(e: Ed, to: Text, ok: bool)
    ensures SameBuffer(e, Save(e, to, ok))
  {
    hide Encode, SaveText;
  }

  /** A command leaves the buffer, the cursor and the history alone. */
  lemma CommandLeavesBuffer(e: Ed, k: Byte, ok: bool)
    ensures SameBuffer(e, CommandKey(e, k, ok))
  {
    hide Trim, UpToSpace, Argument, Save;
    SaveLeavesBuffer(e.(cmd := [], mode := Normal), Argument(Trim(e.cmd)), ok);
  }

  /** One keystroke, from a clamped state. */
  lemma KeyKeeps(e: Ed, v: Event)
    requires Inv(e) && Clamped(e)
    ensures Inv(Key(e, v))
  {
    hide NormalKey, InsertKey, CommandKey;
    match e.mode
    case Normal => NormalKeyKeeps(e, v.k);
    case Insert => InsertKeyKeeps(e, v.k);
    case Command => CommandLeavesBuffer(e, v.k, v.ok);
  }

  /** The loop of `run`: clamp, draw, stop if asked to, else take a key. What it
      returns is the state in front of the user when the keys run out. */
  function Run(e: Ed, events: seq<Event>): (r: Ed)
    requires Inv(e)
    ensures Inv(r) && Clamped(r)
    decreases |events|
  {
    ClampMakesClamped(e);
    var c := Clamp(e);
    if c.quit || events == [] then c
    else
      KeyKeeps(c, events[0]);
      Run(Key(c, events[0]), events[1..])
  }

  lemma {:induction false} SplitHasNoNewlines(t: Text)
    ensures NoNewlines(SplitLines(t))
    decreases |t|
  {
    var i := FirstNewline(t);
    assert t[..|t|] == t;
    if i < |t| { SplitHasNoNewlines(t[i + 1..]); }
  }

  lemma OpenedInv(path: Text, files: map<Text, Bytes>, rows: nat)
    ensures Inv(Open(path, files, rows))
  {
    if path in files { SplitHasNoNewlines(Lossy(files[path])); }
  }

  /** From opening any file, over every key sequence: the buffer is never empty,
      no line holds a newline, every snapshot is well formed, the history is
      bounded, and the cursor is in range for the mode and in a visible row. */
  lemma EverySessionIsSafe(path: Text, files: map<Text, Bytes>, rows: nat, events: seq<Event>)
    ensures Inv(Open(path, files, rows))
    ensures var e := Run(Open(path, files, rows), events);
            && |e.lines| > 0 && NoNewlines(e.lines) && Clamped(e)
            && HistoryOk(e.undo) && HistoryOk(e.redo) && |e.undo| + |e.redo| <= 200
  {
    OpenedInv(path, files, rows);
  }
}
