/**
 The modal editor as a state and what each keystroke does to it.

 Lines are sequences of characters, so the cursor is an index. The message line
 is left out: nothing the editor does depends on it.
 */
module EditorModel {
  import opened Common
  import opened Utf8

  datatype Mode = Normal | Insert | Command

  datatype Snapshot = Snapshot(lines: seq<Text>, cx: nat, cy: nat, dirty: bool)

  /** `files` is the store the editor opens from and saves to. */
  datatype Ed = Ed(lines: seq<Text>, cx: nat, cy: nat, top: nat, mode: Mode, path: Text, dirty: bool,
                   cmd: Text, quit: bool, pending: Option<Byte>,
                   undo: seq<Snapshot>, redo: seq<Snapshot>, rows: nat, files: map<Text, Bytes>)

  const UNDO_MAX: nat := 200

  const NEWLINE: Scalar := 10
  const SPACE: Scalar := 0x20

  const ESC: Byte := 27
  const ENTER: Byte := 10
  const BACKSPACE_KEY: Byte := 8
  const RUBOUT: Byte := 0x7F
  const CTRL_R: Byte := 0x12
  const KEY_UP: Byte := 0x80
  const KEY_DOWN: Byte := 0x81
  const KEY_LEFT: Byte := 0x82
  const KEY_RIGHT: Byte := 0x83
  const KEY_HOME: Byte := 0x84
  const KEY_END: Byte := 0x85
  const KEY_DELETE: Byte := 0x86

  predicate Printable(k: Byte) { 0x20 <= k < 0x7F }

  function Dec(n: nat): nat { if n == 0 then 0 else n - 1 }

  function InsertAt<T>(s: seq<T>, i: nat, x: T): (r: seq<T>)
    requires i <= |s|
    ensures |r| == |s| + 1
  {
    s[..i] + [x] + s[i..]
  }

  // ----- cursor and window -----

  function TextRows(e: Ed): nat { if e.rows < 2 then 0 else e.rows - 2 }

  function LineLen(e: Ed, y: nat): nat { if y < |e.lines| then |e.lines[y]| else 0 }

  /** Insert mode may sit after the last character, the others only on one. */
  function MaxColumn(mode: Mode, len: nat): nat { if mode.Insert? then len else Dec(len) }

  function Clamp(e: Ed): Ed {
    var cy := if e.cy >= |e.lines| then Dec(|e.lines|) else e.cy;
    var most := MaxColumn(e.mode, LineLen(e, cy));
    var cx := if e.cx > most then most else e.cx;
    var vis := TextRows(e);
    var top := if cy < e.top then cy else if vis > 0 && cy >= e.top + vis then cy + 1 - vis else e.top;
    e.(cy := cy, cx := cx, top := top)
  }

  /** The cursor is on a line of the buffer, at a column the mode allows, in a
      row of the window. */
  predicate Clamped(e: Ed) {
    e.cy < |e.lines| && e.cx <= MaxColumn(e.mode, |e.lines[e.cy]|) &&
    e.top <= e.cy && (TextRows(e) > 0 ==> e.cy < e.top + TextRows(e))
  }

  // ----- history -----

  function Snap(e: Ed): Snapshot { Snapshot(e.lines, e.cx, e.cy, e.dirty) }

  /** The newest UNDO_MAX of a history. */
  function Trimmed(h: seq<Snapshot>): (r: seq<Snapshot>)
    ensures |h| <= UNDO_MAX + 1 ==> |r| <= UNDO_MAX
  {
    if |h| > UNDO_MAX then h[1..] else h
  }

  function Checkpoint(e: Ed): Ed {
    e.(undo := Trimmed(e.undo + [Snap(e)]), redo := [])
  }

  function Restore(e: Ed, s: Snapshot): Ed {
    e.(lines := s.lines, cx := s.cx, cy := s.cy, dirty := s.dirty)
  }

  function UndoOne(e: Ed): Ed {
    if e.undo == [] then e
    else
      var last := |e.undo| - 1;
      Restore(e.(undo := e.undo[..last], redo := e.redo + [Snap(e)]), e.undo[last])
  }

  function RedoOne(e: Ed): Ed {
    if e.redo == [] then e
    else
      var last := |e.redo| - 1;
      Restore(e.(redo := e.redo[..last], undo := e.undo + [Snap(e)]), e.redo[last])
  }

  // ----- editing -----

  function InsertChar(e: Ed, ch: Scalar): Ed {
    if e.cy >= |e.lines| then e
    else
      var line := e.lines[e.cy];
      var at := if e.cx < |line| then e.cx else |line|;
      e.(lines := e.lines[e.cy := InsertAt(line, at, ch)], cx := at + 1, dirty := true)
  }

  function SplitLine(e: Ed): Ed
    requires e.cy < |e.lines|
  {
    var line := e.lines[e.cy];
    var at := if e.cx < |line| then e.cx else |line|;
    e.(lines := InsertAt(e.lines[e.cy := line[..at]], e.cy + 1, line[at..]),
    cy := e.cy + 1, cx := 0, dirty := true)
  }

  function Backspace(e: Ed): Ed
    requires e.cy < |e.lines| && e.cx <= |e.lines[e.cy]|
  {
    if e.cx > 0 then
      e.(lines := e.lines[e.cy := RemoveAt(e.lines[e.cy], e.cx - 1)], cx := e.cx - 1, dirty := true)
    else if e.cy > 0 then
      var joined := e.lines[e.cy - 1] + e.lines[e.cy];
      e.(lines := RemoveAt(e.lines, e.cy)[e.cy - 1 := joined], cy := e.cy - 1,
      cx := |e.lines[e.cy - 1]|, dirty := true)
    else e
  }

  function DeleteLine(e: Ed): Ed
    requires e.cy < |e.lines|
  {
    if |e.lines| == 1 then e.(lines := [[]], cx := 0, dirty := true)
    else
      var lines := RemoveAt(e.lines, e.cy);
      e.(lines := lines, cy := if e.cy >= |lines| then |lines| - 1 else e.cy, cx := 0, dirty := true)
  }

  /** The first position from `i` on whose character is, or is not, whitespace. */
  function Forward(line: Text, i: nat, white: bool): (j: nat)
    ensures i <= j && (i <= |line| ==> j <= |line|)
    decreases |line| - i
  {
    if i < |line| && IsWhitespace(line[i]) == white then Forward(line, i + 1, white) else i
  }

  function WordForward(e: Ed): Ed
    requires e.cy < |e.lines|
  {
    var line := e.lines[e.cy];
    var i := Forward(line, Forward(line, e.cx, false), true);
    if i >= |line| && e.cy + 1 < |e.lines| then e.(cy := e.cy + 1, cx := 0) else e.(cx := i)
  }

  function BackOverSpace(line: Text, i: nat): (j: nat)
    requires i < |line|
    ensures j <= i
  {
    if i > 0 && IsWhitespace(line[i]) then BackOverSpace(line, i - 1) else i
  }

  function BackOverWord(line: Text, i: nat): (j: nat)
    requires i <= |line|
    ensures j <= i
  {
    if i > 0 && !IsWhitespace(line[i - 1]) then BackOverWord(line, i - 1) else i
  }

  function WordBack(e: Ed): Ed
    requires e.cy < |e.lines| && e.cx <= |e.lines[e.cy]|
  {
    if e.cx == 0 then
      if e.cy > 0 then e.(cy := e.cy - 1, cx := LineLen(e, e.cy - 1)) else e
    else e.(cx := BackOverWord(e.lines[e.cy], BackOverSpace(e.lines[e.cy], e.cx - 1)))
  }

  // ----- files -----

  /** What `save` writes: every line and a newline after each. */
  function SaveText(lines: seq<Text>): Text {
    if lines == [] then []
    else if |lines| == 1 then lines[0] + [NEWLINE]
    else lines[0] + [NEWLINE] + SaveText(lines[1..])
  }

  function FirstNewline(t: Text): (i: nat)
    ensures i <= |t|
    ensures NEWLINE !in t[..i] && (i < |t| ==> t[i] == NEWLINE)
  {
    if t == [] || t[0] == NEWLINE then 0 else 1 + FirstNewline(t[1..])
  }

  /** `text.split('\n')`: one piece more than there are newlines. */
  function SplitLines(t: Text): (r: seq<Text>)
    ensures |r| > 0
    decreases |t|
  {
    var i := FirstNewline(t);
    if i == |t| then [t] else [t[..i]] + SplitLines(t[i + 1..])
  }

  /** Bytes as text: UTF-8 if they are, else ASCII with question marks. */
  function Lossy(b: Bytes): Text {
    match Decode(b)
    case Some(s) => s
    case None => seq(|b|, i requires 0 <= i < |b| => if Printable(b[i]) || b[i] == 10 then b[i] else 0x3F)
  }

  function OpenLines(b: Bytes): (r: seq<Text>)
    ensures |r| > 0
  {
    var v := SplitLines(Lossy(b));
    if |v| > 1 && v[|v| - 1] == [] then v[..|v| - 1] else v
  }

  /** The lines a path opens to: a file's, or one empty line. */
  function LinesAt(files: map<Text, Bytes>, path: Text): (r: seq<Text>)
    ensures |r| > 0
  {
    if path in files then OpenLines(files[path]) else [[]]
  }

  function Open(path: Text, files: map<Text, Bytes>, rows: nat): Ed {
    Ed(LinesAt(files, path), 0, 0, 0, Normal, path, false, [], false, None, [], [], rows, files)
  }

  /** `ok` is whether the store took the write. */
  function Save(e: Ed, to: Text, ok: bool): Ed {
    var path := if to == [] then e.path else to;
    if ok then e.(dirty := false, path := path, files := e.files[path := Encode(SaveText(e.lines))]) else e
  }

  // ----- commands -----

  function UpToSpace(t: Text): (r: Text)
    ensures r <= t
  {
    if t == [] || t[0] == SPACE then [] else [t[0]] + UpToSpace(t[1..])
  }

  function Argument(t: Text): Text {
    var verb := UpToSpace(t);
    if |verb| == |t| then [] else Trim(t[|verb| + 1..])
  }

  const W: Scalar := 0x77
  const Q: Scalar := 0x71
  const X: Scalar := 0x78
  const BANG: Scalar := 0x21

  function RunCommand(e: Ed, ok: bool): Ed {
    var cmd := Trim(e.cmd);
    var ready := e.(cmd := [], mode := Normal);
    var verb := UpToSpace(cmd);
    if verb == [W] then Save(ready, Argument(cmd), ok)
    else if verb == [W, Q] || verb == [X] then
      var saved := Save(ready, Argument(cmd), ok);
      if !saved.dirty then saved.(quit := true) else saved
    else if verb == [Q] then
      if ready.dirty then ready else ready.(quit := true)
    else if verb == [Q, BANG] then ready.(quit := true)
    else ready
  }

  // ----- keys -----

  /** The second key of `dd` or `gg`; any other pair does nothing. */
  function SecondKey(e: Ed, p: Byte, k: Byte): Ed
    requires e.cy < |e.lines|
  {
    if p == 0x64 && k == 0x64 then DeleteLine(Checkpoint(e))
    else if p == 0x67 && k == 0x67 then e.(cy := 0, cx := 0)
    else e
  }

  /** The keys that only move: arrows and their letters, words, line ends. */
  function MoveKey(e: Ed, k: Byte): Option<Ed>
    requires e.cy < |e.lines| && e.cx <= |e.lines[e.cy]|
  {
    if k == 0x68 || k == KEY_LEFT then Some(e.(cx := Dec(e.cx)))
    else if k == 0x6C || k == KEY_RIGHT then Some(e.(cx := e.cx + 1))
    else if k == 0x6B || k == KEY_UP then Some(e.(cy := Dec(e.cy)))
    else if k == 0x6A || k == KEY_DOWN then Some(e.(cy := e.cy + 1))
    else if k == 0x30 || k == KEY_HOME then Some(e.(cx := 0))
    else if k == 0x24 || k == KEY_END then Some(e.(cx := Dec(LineLen(e, e.cy))))
    else if k == 0x47 then Some(e.(cy := |e.lines| - 1))
    else if k == 0x77 then Some(WordForward(e))
    else if k == 0x62 then Some(WordBack(e))
    else None
  }

  /** The keys that start an insert session. */
  predicate StartsInsert(k: Byte) {
    k == 0x69 || k == 0x61 || k == 0x41 || k == 0x49 || k == 0x6F || k == 0x4F
  }

  function StartInsert(e: Ed, k: Byte): Ed
    requires e.cy < |e.lines| && StartsInsert(k)
  {
    var c := Checkpoint(e).(mode := Insert);
    if k == 0x69 then c
    else if k == 0x61 then c.(cx := e.cx + 1)
    else if k == 0x41 then c.(cx := LineLen(e, e.cy))
    else if k == 0x49 then c.(cx := 0)
    else if k == 0x6F then c.(lines := InsertAt(e.lines, e.cy + 1, []), cy := e.cy + 1, cx := 0, dirty := true)
    else c.(lines := InsertAt(e.lines, e.cy, []), cx := 0, dirty := true)
  }

  function NormalKey(e: Ed, k: Byte): Ed
    requires e.cy < |e.lines| && e.cx <= |e.lines[e.cy]|
  {
    if e.pending.Some? then SecondKey(e.(pending := None), e.pending.value, k)
    else
      var moved := MoveKey(e, k);
      if moved.Some? then moved.value
      else if k == 0x64 || k == 0x67 then e.(pending := Some(k))
      else if k == 0x78 then
        if e.cx < LineLen(e, e.cy)
        then Checkpoint(e).(lines := e.lines[e.cy := RemoveAt(e.lines[e.cy], e.cx)], dirty := true)
        else e
      else if k == 0x75 then UndoOne(e)
      else if k == CTRL_R then RedoOne(e)
      else if StartsInsert(k) then StartInsert(e, k)
      else if k == 0x3A then e.(mode := Command, cmd := [])
      else e
  }

  function InsertKey(e: Ed, k: Byte): Ed
    requires e.cy < |e.lines| && e.cx <= |e.lines[e.cy]|
  {
    if k == ESC then e.(mode := Normal, cx := Dec(e.cx))
    else if k == ENTER then SplitLine(e)
    else if k == BACKSPACE_KEY || k == RUBOUT then Backspace(e)
    else if k == KEY_LEFT then e.(cx := Dec(e.cx))
    else if k == KEY_RIGHT then e.(cx := e.cx + 1)
    else if k == KEY_UP then e.(cy := Dec(e.cy))
    else if k == KEY_DOWN then e.(cy := e.cy + 1)
    else if k == KEY_HOME then e.(cx := 0)
    else if k == KEY_END then e.(cx := LineLen(e, e.cy))
    else if k == KEY_DELETE then
      if e.cx < LineLen(e, e.cy)
      then e.(lines := e.lines[e.cy := RemoveAt(e.lines[e.cy], e.cx)], dirty := true)
      else e
    else if Printable(k) then InsertChar(e, k)
    else e
  }

  function CommandKey(e: Ed, k: Byte, ok: bool): Ed {
    if k == ESC then e.(mode := Normal, cmd := [])
    else if k == ENTER then RunCommand(e, ok)
    else if k == BACKSPACE_KEY || k == RUBOUT then e.(cmd := e.cmd[..Dec(|e.cmd|)])
    else if Printable(k) then e.(cmd := e.cmd + [k])
    else e
  }

  /** A keystroke, and whether the store would take a write it leads to. */
  datatype Event = Event(k: Byte, ok: bool)

  function Key(e: Ed, v: Event): Ed
    requires e.cy < |e.lines| && e.cx <= |e.lines[e.cy]|
  {
    match e.mode
    case Normal => NormalKey(e, v.k)
    case Insert => InsertKey(e, v.k)
    case Command => CommandKey(e, v.k, v.ok)
  }
}
