/** The editor as written: fields changed in place, each method proved to be the
    step of `EditorModel` it stands for. */
module Editor {
  import opened Common
  import opened Utf8
  import opened EditorModel
  import opened EditorInvariant
  import opened EditorFiles

  class Editor {
    var lines: seq<Text>
    var cx: nat
    var cy: nat
    var top: nat
    var mode: Mode
    var path: Text
    var dirty: bool
    var cmd: Text
    var quit: bool
    var pending: Option<Byte>
    var undo: seq<Snapshot>
    var redo: seq<Snapshot>
    const rows: nat
    var files: map<Text, Bytes>

    ghost function View(): Ed
      reads this
    {
      Ed(lines, cx, cy, top, mode, path, dirty, cmd, quit, pending, undo, redo, rows, files)
    }

    /** The cursor is where a key may find it: on a line, at most after its last
        character. */
    ghost predicate OnLine()
      reads this
    {
      cy < |lines| && cx <= |lines[cy]|
    }

    constructor (path: Text, files: map<Text, Bytes>, rows: nat)
      ensures View() == Open(path, files, rows)
    {
      var first: seq<Text> := [[]];
      if path in files {
        first := SplitLines(Lossy(files[path]));
        if |first| > 1 && first[|first| - 1] == [] {
          first := first[..|first| - 1];
        }
      }
      lines := first;
      cx, cy, top, mode := 0, 0, 0, Normal;
      this.path, dirty, cmd, quit, pending := path, false, [], false, None;
      undo, redo := [], [];
      this.rows := rows;
      this.files := files;
    }

    method ClampCursor()
      modifies this
      ensures View() == Clamp(old(View()))
    {
      if cy >= |lines| {
        cy := Dec(|lines|);
      }
      var len := if cy < |lines| then |lines[cy]| else 0;
      var most := if mode == Insert then len else Dec(len);
      if cx > most {
        cx := most;
      }
      var vis := if rows < 2 then 0 else rows - 2;
      if cy < top {
        top := cy;
      } else if vis > 0 && cy >= top + vis {
        top := cy + 1 - vis;
      }
    }

    method TakeCheckpoint()
      modifies this`undo, this`redo
      ensures View() == Checkpoint(old(View()))
    {
      undo := undo + [Snapshot(lines, cx, cy, dirty)];
      if |undo| > UNDO_MAX {
        undo := undo[1..];
      }
      redo := [];
    }

    method PutBack(s: Snapshot)
      modifies this
      ensures View() == Restore(old(View()), s)
    {
      lines := s.lines;
      cx := s.cx;
      cy := s.cy;
      dirty := s.dirty;
    }

    method UndoLast()
      modifies this
      ensures View() == UndoOne(old(View()))
    {
      if undo == [] {
        return;
      }
      var s := undo[|undo| - 1];
      undo := undo[..|undo| - 1];
      redo := redo + [Snapshot(lines, cx, cy, dirty)];
      PutBack(s);
    }

    method RedoLast()
      modifies this
      ensures View() == RedoOne(old(View()))
    {
      if redo == [] {
        return;
      }
      var s := redo[|redo| - 1];
      redo := redo[..|redo| - 1];
      undo := undo + [Snapshot(lines, cx, cy, dirty)];
      PutBack(s);
    }

    method TypeChar(ch: Scalar)
      modifies this
      ensures View() == InsertChar(old(View()), ch)
    {
      if cy < |lines| {
        var line := lines[cy];
        var at := if cx < |line| then cx else |line|;
        lines := lines[cy := InsertAt(line, at, ch)];
        cx := at + 1;
        dirty := true;
      }
    }

    method BreakLine()
      requires cy < |lines|
      modifies this
      ensures View() == SplitLine(old(View()))
    {
      var line := lines[cy];
      var at := if cx < |line| then cx else |line|;
      var rest := line[at..];
      lines := lines[cy := line[..at]];
      lines := InsertAt(lines, cy + 1, rest);
      cy := cy + 1;
      cx := 0;
      dirty := true;
    }

    method RubOut()
      requires OnLine()
      modifies this
      ensures View() == Backspace(old(View()))
    {
      if cx > 0 {
        lines := lines[cy := RemoveAt(lines[cy], cx - 1)];
        cx := cx - 1;
        dirty := true;
      } else if cy > 0 {
        var cur := lines[cy];
        lines := RemoveAt(lines, cy);
        cy := cy - 1;
        cx := |lines[cy]|;
        lines := lines[cy := lines[cy] + cur];
        dirty := true;
      }
    }

    method RemoveLine()
      requires cy < |lines|
      modifies this
      ensures View() == DeleteLine(old(View()))
    {
      if |lines| == 1 {
        lines := [[]];
      } else {
        lines := RemoveAt(lines, cy);
        if cy >= |lines| {
          cy := |lines| - 1;
        }
      }
      cx := 0;
      dirty := true;
    }

    method MoveWordForward()
      requires OnLine()
      modifies this
      ensures View() == WordForward(old(View()))
    {
      var line := lines[cy];
      var i := cx;
      while i < |line| && !IsWhitespace(line[i])
        invariant cx <= i <= |line| && Forward(line, cx, false) == Forward(line, i, false)
      {
        i := i + 1;
      }
      ghost var word := i;
      while i < |line| && IsWhitespace(line[i])
        invariant word <= i <= |line| && Forward(line, word, true) == Forward(line, i, true)
      {
        i := i + 1;
      }
      if i >= |line| && cy + 1 < |lines| {
        cy := cy + 1;
        cx := 0;
      } else {
        cx := i;
      }
    }

    method MoveWordBack()
      requires OnLine()
      modifies this
      ensures View() == WordBack(old(View()))
    {
      if cx == 0 {
        if cy > 0 {
          cy := cy - 1;
          cx := |lines[cy]|;
        }
        return;
      }
      var line := lines[cy];
      var i := cx - 1;
      while i > 0 && IsWhitespace(line[i])
        invariant 0 <= i < cx && BackOverSpace(line, cx - 1) == BackOverSpace(line, i)
      {
        i := i - 1;
      }
      ghost var end := i;
      while i > 0 && !IsWhitespace(line[i - 1])
        invariant 0 <= i <= end && BackOverWord(line, end) == BackOverWord(line, i)
      {
        i := i - 1;
      }
      cx := i;
    }

    /** The text of the buffer: newlines between lines, and one at the end. */
    method BufferText() returns (out: Text)
      requires |lines| > 0
      ensures out == SaveText(lines)
    {
      out := [];
      var i := 0;
      while i < |lines|
        invariant 0 <= i <= |lines|
        invariant i == 0 ==> out == []
        invariant i > 0 ==> out + [NEWLINE] == SaveText(lines[..i])
      {
        ghost var before := out;
        if i > 0 {
          out := out + [NEWLINE];
        }
        var k := 0;
        ghost var start := out;
        while k < |lines[i]|
          invariant 0 <= k <= |lines[i]| && out == start + lines[i][..k]
        {
          out := out + [lines[i][k]];
          assert lines[i][..k + 1] == lines[i][..k] + [lines[i][k]];
          k := k + 1;
        }
        assert lines[i][..k] == lines[i];
        assert lines[..i + 1] == lines[..i] + [lines[i]];
        if i > 0 {
          SaveAppends(lines[..i], lines[i]);
        }
        i := i + 1;
      }
      assert lines[..i] == lines;
      out := out + [NEWLINE];
    }

    method WriteTo(to: Text, ok: bool)
      requires |lines| > 0
      modifies this
      ensures View() == Save(old(View()), to, ok)
    {
      var target := if to != [] then to else path;
      var out := BufferText();
      if ok {
        files := files[target := Encode(out)];
        dirty := false;
        path := target;
      }
    }

    method RunCommandLine(ok: bool)
      requires |lines| > 0
      modifies this
      ensures View() == RunCommand(old(View()), ok)
    {
      hide Trim, UpToSpace, Argument, Save;
      var line := Trim(cmd);
      cmd := [];
      mode := Normal;
      var verb := UpToSpace(line);
      var arg := Argument(line);
      if verb == [W] {
        WriteTo(arg, ok);
      } else if verb == [W, Q] || verb == [X] {
        WriteTo(arg, ok);
        if !dirty {
          quit := true;
        }
      } else if verb == [Q] {
        if !dirty {
          quit := true;
        }
      } else if verb == [Q, BANG] {
        quit := true;
      }
    }

    /** The movement keys; `moved` says whether this was one. */
    method OnMoveKey(k: Byte) returns (moved: bool)
      requires OnLine()
      modifies this
      ensures var m := MoveKey(old(View()), k);
              moved == m.Some? && View() == m.GetOr(old(View()))
    {
      moved := true;
      if k == 0x68 || k == KEY_LEFT {
        cx := Dec(cx);
      } else if k == 0x6C || k == KEY_RIGHT {
        cx := cx + 1;
      } else if k == 0x6B || k == KEY_UP {
        cy := Dec(cy);
      } else if k == 0x6A || k == KEY_DOWN {
        cy := cy + 1;
      } else if k == 0x30 || k == KEY_HOME {
        cx := 0;
      } else if k == 0x24 || k == KEY_END {
        cx := Dec(|lines[cy]|);
      } else if k == 0x47 {
        cy := |lines| - 1;
      } else if k == 0x77 {
        MoveWordForward();
      } else if k == 0x62 {
        MoveWordBack();
      } else {
        moved := false;
      }
    }

    method OnSecondKey(p: Byte, k: Byte)
      requires cy < |lines|
      modifies this
      ensures View() == SecondKey(old(View()), p, k)
    {
      if p == 0x64 && k == 0x64 {
        TakeCheckpoint();
        RemoveLine();
      } else if p == 0x67 && k == 0x67 {
        cy := 0;
        cx := 0;
      }
    }

    method OnStartInsert(k: Byte)
      requires cy < |lines| && StartsInsert(k)
      modifies this
      ensures View() == StartInsert(old(View()), k)
    {
      TakeCheckpoint();
      mode := Insert;
      if k == 0x61 {
        cx := cx + 1;
      } else if k == 0x41 {
        cx := |lines[cy]|;
      } else if k == 0x49 {
        cx := 0;
      } else if k == 0x6F {
        lines := InsertAt(lines, cy + 1, []);
        cy := cy + 1;
        cx := 0;
        dirty := true;
      } else if k == 0x4F {
        lines := InsertAt(lines, cy, []);
        cx := 0;
        dirty := true;
      }
    }

    method OnNormalKey(k: Byte)
      requires OnLine()
      modifies this
      ensures View() == NormalKey(old(View()), k)
    {
      hide MoveKey, SecondKey, StartInsert, Checkpoint, UndoOne, RedoOne;
      if pending.Some? {
        var p := pending.value;
        pending := None;
        OnSecondKey(p, k);
        return;
      }
      var moved := OnMoveKey(k);
      if moved {
        return;
      }
      if k == 0x64 || k == 0x67 {
        pending := Some(k);
      } else if k == 0x78 {
        if cx < |lines[cy]| {
          TakeCheckpoint();
          CheckpointIs(old(View()));
          lines := lines[cy := RemoveAt(lines[cy], cx)];
          dirty := true;
        }
      } else if k == 0x75 {
        UndoLast();
      } else if k == CTRL_R {
        RedoLast();
      } else if StartsInsert(k) {
        OnStartInsert(k);
      } else if k == 0x3A {
        mode := Command;
        cmd := [];
      }
    }

    method OnInsertKey(k: Byte)
      requires OnLine()
      modifies this
      ensures View() == InsertKey(old(View()), k)
    {
      hide SplitLine, Backspace, InsertChar;
      if k == ESC {
        mode := Normal;
        cx := Dec(cx);
      } else if k == ENTER {
        BreakLine();
      } else if k == BACKSPACE_KEY || k == RUBOUT {
        RubOut();
      } else if k == KEY_LEFT {
        cx := Dec(cx);
      } else if k == KEY_RIGHT {
        cx := cx + 1;
      } else if k == KEY_UP {
        cy := Dec(cy);
      } else if k == KEY_DOWN {
        cy := cy + 1;
      } else if k == KEY_HOME {
        cx := 0;
      } else if k == KEY_END {
        cx := |lines[cy]|;
      } else if k == KEY_DELETE {
        if cx < |lines[cy]| {
          lines := lines[cy := RemoveAt(lines[cy], cx)];
          dirty := true;
        }
      } else if Printable(k) {
        TypeChar(k);
      }
    }

    method OnCommandKey(k: Byte, ok: bool)
      requires |lines| > 0
      modifies this
      ensures View() == CommandKey(old(View()), k, ok)
    {
      hide RunCommand;
      if k == ESC {
        mode := Normal;
        cmd := [];
      } else if k == ENTER {
        RunCommandLine(ok);
      } else if k == BACKSPACE_KEY || k == RUBOUT {
        cmd := cmd[..Dec(|cmd|)];
      } else if Printable(k) {
        cmd := cmd + [k];
      }
    }

    /** The loop of `run` over the keys that arrive. */
    method RunKeys(events: seq<Event>)
      requires Inv(View())
      modifies this
      ensures View() == Run(old(View()), events)
    {
      hide NormalKey, InsertKey, CommandKey, Clamp;
      ghost var start := View();
      var n := 0;
      while true
        invariant 0 <= n <= |events| && Inv(View())
        invariant Run(start, events) == Run(View(), events[n..])
        decreases |events| - n
      {
        ClampKeeps(View());
        ClampCursor();
        if quit || n == |events| {
          break;
        }
        ghost var clamped := View();
        KeyKeeps(clamped, events[n]);
        match mode {
          case Normal => OnNormalKey(events[n].k);
          case Insert => OnInsertKey(events[n].k);
          case Command => OnCommandKey(events[n].k, events[n].ok);
        }
        assert View() == Key(clamped, events[n]);
        assert events[n..][1..] == events[n + 1..];
        n := n + 1;
      }
    }
  }
}
