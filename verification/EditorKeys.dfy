/** What each key does, by its code: the cursor it leaves, the line it opens, the
    character it types or takes. */
module EditorKeys {
  import opened Common
  import opened Utf8
  import opened EditorModel
  import opened EditorInvariant
  import opened EditorHistory
  import opened EditorFiles
  import opened EditorText

  function Least(a: nat, b: nat): nat { if a < b then a else b }
  function Gap(a: nat, b: nat): nat { if a < b then b - a else a - b }

  // ----- the cursor -----

  /** The last column a cursor may be at: on the last character in normal mode, behind
      it in insert mode, and at 0 on an empty line. */
  function LastColumn(e: Ed, y: nat): nat
    requires y < |e.lines|
  {
    if e.mode.Insert? || e.lines[y] == [] then |e.lines[y]| else |e.lines[y]| - 1
  }

  /** Clamping puts the cursor at the nearest place there is and moves the window, two
      rows of the screen smaller, by as little as shows it. Nothing else changes. */
  lemma ClampIsNearest(e: Ed)
    requires |e.lines| > 0
    ensures var c := Clamp(e);
            && c == e.(cx := c.cx, cy := c.cy, top := c.top)
            && c.cy == Least(e.cy, |e.lines| - 1) && c.cx == Least(e.cx, LastColumn(e, c.cy))
            && c.top <= c.cy && (e.rows > 2 ==> c.cy < c.top + (e.rows - 2))
            && forall top: nat | top <= c.cy && (e.rows > 2 ==> c.cy < top + (e.rows - 2)) ::
                 Gap(e.top, c.top) <= Gap(e.top, top)
  {
  }

  /** Where a key alone would put the cursor, in normal mode and in insert mode. */
  function Target(e: Ed, k: Byte): (nat, nat)
    requires e.cy < |e.lines|
  {
    var len := |e.lines[e.cy]|;
    if k == 0x82 || (k == 0x68 && e.mode.Normal?) then (if e.cx == 0 then 0 else e.cx - 1, e.cy)
    else if k == 0x83 || (k == 0x6C && e.mode.Normal?) then (e.cx + 1, e.cy)
    else if k == 0x80 || (k == 0x6B && e.mode.Normal?) then (e.cx, if e.cy == 0 then 0 else e.cy - 1)
    else if k == 0x81 || (k == 0x6A && e.mode.Normal?) then (e.cx, e.cy + 1)
    else if k == 0x84 || (k == 0x30 && e.mode.Normal?) then (0, e.cy)
    else if k == 0x85 || (k == 0x24 && e.mode.Normal?) then (len, e.cy)
    else (e.cx, |e.lines| - 1)
  }

  /** The arrows, Home and End, and in normal mode `h l k j 0 $ G`: the cursor goes where
      the key says, or as near to it as there is a place, and nothing else changes. */
  lemma KeysMove(e: Ed, k: Byte)
    requires Inv(e) && Clamped(e) && !e.quit
    requires (e.mode.Normal? && e.pending.None? && k in [0x68, 0x6C, 0x6B, 0x6A, 0x30, 0x24, 0x47])
             || ((e.mode.Insert? || (e.mode.Normal? && e.pending.None?)) && 0x80 <= k <= 0x85)
    ensures var f := Run(e, [Event(k, false)]); var (x, y) := Target(e, k);
            && f == e.(cx := f.cx, cy := f.cy, top := f.top)
            && f.cy == Least(y, |e.lines| - 1) && f.cx == Least(x, LastColumn(e, f.cy))
  {
    hide Run, Clamp, Key, Inv, Target;
    RunOne(e, Event(k, false));
    if e.mode.Normal? { NormalGoes(e, k); } else { InsertGoes(e, k); }
    ClampIsNearest(Key(e, Event(k, false)));
  }

  lemma NormalGoes(e: Ed, k: Byte)
    requires Clamped(e) && e.mode.Normal? && e.pending.None?
    requires k in [0x68, 0x6C, 0x6B, 0x6A, 0x30, 0x24, 0x47] || 0x80 <= k <= 0x85
    ensures var g := Key(e, Event(k, false)); var (x, y) := Target(e, k); var len := |e.lines[e.cy]|;
            && g == e.(cx := g.cx, cy := y)
            && (g.cx == x || (y == e.cy && x == len && g.cx == if len == 0 then 0 else len - 1))
  {
    hide WordForward, WordBack, RemoveAt, StartInsert, Checkpoint, UndoOne, RedoOne, SecondKey;
  }

  lemma InsertGoes(e: Ed, k: Byte)
    requires Clamped(e) && e.mode.Insert? && 0x80 <= k <= 0x85
    ensures var (x, y) := Target(e, k); Key(e, Event(k, false)) == e.(cx := x, cy := y)
  {
  }

  /** `w` and `b` move by words, and are then held to the line. */
  lemma WordKeys(e: Ed)
    requires AtRest(e)
    ensures var f := Run(e, [Event(0x77, false)]); var g := WordForward(e);
            && f == e.(cx := f.cx, cy := f.cy, top := f.top)
            && f.cy == g.cy && f.cy < |e.lines| && f.cx == Least(g.cx, LastColumn(e, f.cy))
    ensures var f := Run(e, [Event(0x62, false)]); var g := WordBack(e);
            && f == e.(cx := f.cx, cy := f.cy, top := f.top)
            && f.cy == g.cy && f.cy < |e.lines| && f.cx == Least(g.cx, LastColumn(e, f.cy))
  {
    hide Run, Clamp, Key, Inv;
    RunOne(e, Event(0x77, false));
    RunOne(e, Event(0x62, false));
    WordsGo(e);
    ClampIsNearest(Key(e, Event(0x77, false)));
    ClampIsNearest(Key(e, Event(0x62, false)));
  }

  lemma WordsGo(e: Ed)
    requires Clamped(e) && e.mode.Normal? && e.pending.None?
    ensures Key(e, Event(0x77, false)) == WordForward(e) == e.(cx := WordForward(e).cx, cy := WordForward(e).cy)
    ensures Key(e, Event(0x62, false)) == WordBack(e) == e.(cx := WordBack(e).cx, cy := WordBack(e).cy)
    ensures WordForward(e).cy < |e.lines| && WordBack(e).cy < |e.lines|
  {
    hide Forward, BackOverSpace, BackOverWord, StartInsert, Checkpoint, UndoOne, RedoOne, SecondKey;
  }

  /** Behind a `d` only another `d` does something, and behind a `g` only another `g`,
      which goes to the very start. */
  lemma SecondKeys(e: Ed, p: Byte, k: Byte)
    requires AtRest(e) && (p == 0x64 || p == 0x67) && !(p == 0x64 && k == 0x64)
    ensures var f := Run(e, [Event(p, false), Event(k, false)]);
            if p == 0x67 && k == 0x67 then f == e.(cx := 0, cy := 0, top := f.top) else f == e
  {
    hide Run, Clamp, Inv;
    First(e, p);
    var w := e.(pending := Some(p));
    RunOne(w, Event(k, false));
    ClampIsNearest(Key(w, Event(k, false)));
    ClampedIsFixed(e);
    RunConcat(e, [Event(p, false)], [Event(k, false)]);
    assert [Event(p, false)] + [Event(k, false)] == [Event(p, false), Event(k, false)];
  }

  lemma First(e: Ed, p: Byte)
    requires AtRest(e) && (p == 0x64 || p == 0x67)
    ensures Run(e, [Event(p, false)]) == e.(pending := Some(p))
  {
    hide Run, Clamp, Forward, BackOverSpace, BackOverWord, Inv;
    RunOne(e, Event(p, false));
    ClampedIsFixed(e.(pending := Some(p)));
  }

  /** Keys with no meaning in normal mode do nothing. */
  lemma OtherKeys(e: Ed, k: Byte)
    requires AtRest(e)
    requires k !in [0x68, 0x6C, 0x6B, 0x6A, 0x30, 0x24, 0x47, 0x77, 0x62, 0x64, 0x67, 0x78, 0x75, 0x12, 0x69, 0x61,
                    0x41, 0x49, 0x6F, 0x4F, 0x3A] && !(0x80 <= k <= 0x85)
    ensures Run(e, [Event(k, false)]) == e
  {
    hide Run, Clamp, Forward, BackOverSpace, BackOverWord, Inv;
    RunOne(e, Event(k, false));
    ClampedIsFixed(e);
  }

  // ----- deletions -----

  /** `dd` leaves the cursor at the start of the line that took the place, or of the
      last one; `x` leaves it in its column while there is one. */
  lemma DeletionsLeaveCursor(e: Ed)
    requires AtRest(e)
    ensures var f := Run(e, [Event(0x64, false), Event(0x64, false)]);
            && f.cx == 0 && (|e.lines| > 1 ==> f.cy == Least(e.cy, |e.lines| - 2)) && (|e.lines| == 1 ==> f.cy == 0)
    ensures var f := Run(e, [Event(0x78, false)]); var n := |e.lines[e.cy]|;
            f.cy == e.cy && f.cx == if n > 1 then Least(e.cx, n - 2) else 0
    ensures Run(e, [Event(0x64, false), Event(0x64, false)]).redo == []
    ensures e.lines[e.cy] != [] ==> Run(e, [Event(0x78, false)]).redo == []
  {
    hide Run, Clamp, Inv, Key;
    First(e, 0x64);
    var w := e.(pending := Some(0x64));
    RunOne(w, Event(0x64, false));
    DdLeaves(w);
    ClampIsNearest(Key(w, Event(0x64, false)));
    RunConcat(e, [Event(0x64, false)], [Event(0x64, false)]);
    assert [Event(0x64, false)] + [Event(0x64, false)] == [Event(0x64, false), Event(0x64, false)];
    RunOne(e, Event(0x78, false));
    XLeaves(e);
    ClampIsNearest(Key(e, Event(0x78, false)));
  }

  lemma DdLeaves(w: Ed)
    requires Clamped(w) && w.mode.Normal? && w.pending == Some(0x64)
    ensures var g := Key(w, Event(0x64, false));
            && g.cx == 0 && |g.lines| == (if |w.lines| == 1 then 1 else |w.lines| - 1)
            && g.cy == Least(w.cy, |g.lines| - 1) && g.mode.Normal? && g.redo == []
  {
    hide Checkpoint;
    CheckpointIs(w.(pending := None));
  }

  lemma XLeaves(e: Ed)
    requires Clamped(e) && e.mode.Normal? && e.pending.None?
    ensures var g := Key(e, Event(0x78, false)); var n := |e.lines[e.cy]|;
            && g.cx == e.cx && g.cy == e.cy && |g.lines| == |e.lines| && g.mode.Normal?
            && |g.lines[e.cy]| == (if n == 0 then 0 else n - 1) && (n > 0 ==> g.redo == [])
  {
    hide Checkpoint, Forward, BackOverSpace, BackOverWord;
    CheckpointIs(e);
  }

  // ----- starting to insert -----

  /** `i a A I` start where they say on the line as it is; `o` and `O` open an empty line
      below or above and start in it. All of them from a fresh checkpoint. */
  lemma InsertStarts(e: Ed, k: Byte)
    requires AtRest(e) && k in [0x69, 0x61, 0x41, 0x49, 0x6F, 0x4F]
    ensures var f := Run(e, [Event(k, false)]); var len := |e.lines[e.cy]|;
            && f.mode.Insert? && f.undo != [] && f.undo[|f.undo| - 1] == Snapshot(e.lines, e.cx, e.cy, e.dirty)
            && f.redo == []
            && (k == 0x6F ==> f.lines == e.lines[..e.cy + 1] + [[]] + e.lines[e.cy + 1..] && f.dirty
                              && (f.cx, f.cy) == (0, e.cy + 1))
            && (k == 0x4F ==> f.lines == e.lines[..e.cy] + [[]] + e.lines[e.cy..] && f.dirty && (f.cx, f.cy) == (0, e.cy))
            && (k != 0x6F && k != 0x4F ==>
                  && f.lines == e.lines && f.dirty == e.dirty && f.cy == e.cy
                  && f.cx == (if k == 0x69 then e.cx else if k == 0x61 then Least(e.cx + 1, len)
                              else if k == 0x41 then len else 0))
  {
    assert |e.undo| <= 200;
    hide Run, Clamp, Inv, Checkpoint, Key;
    RunOne(e, Event(k, false));
    StartIs(e, k);
    CheckpointKeepsNewest(e);
    hide StartInsert;
    ClampIsNearest(StartInsert(e, k));
    StartsAt(e, k);
  }

  lemma StartIs(e: Ed, k: Byte)
    requires AtRest(e) && k in [0x69, 0x61, 0x41, 0x49, 0x6F, 0x4F]
    ensures StartsInsert(k) && Key(e, Event(k, false)) == StartInsert(e, k)
  {
    hide MoveKey, StartInsert, Inv;
    InsertKeysDoNotMove(e, k);
  }

  lemma StartsAt(e: Ed, k: Byte)
    requires Clamped(e) && StartsInsert(k)
    ensures var g := StartInsert(e, k); var c := Checkpoint(e); var len := |e.lines[e.cy]|;
            && g.mode.Insert? && g.undo == c.undo && g.redo == c.redo && |g.lines| > 0
            && (k == 0x6F ==> g.lines == e.lines[..e.cy + 1] + [[]] + e.lines[e.cy + 1..] && g.dirty
                              && (g.cx, g.cy) == (0, e.cy + 1) && |g.lines| > e.cy + 1)
            && (k == 0x4F ==> g.lines == e.lines[..e.cy] + [[]] + e.lines[e.cy..] && g.dirty && (g.cx, g.cy) == (0, e.cy))
            && (k != 0x6F && k != 0x4F ==>
                  && g.lines == e.lines && g.dirty == e.dirty && g.cy == e.cy
                  && g.cx == (if k == 0x69 then e.cx else if k == 0x61 then e.cx + 1
                              else if k == 0x41 then len else 0))
  {
    hide Checkpoint;
    CheckpointIs(e);
  }

  /** A checkpoint keeps the newest two hundred states and the one it is made of, in
      order, and forgets what could be redone. */
  lemma CheckpointKeepsNewest(e: Ed)
    requires |e.undo| <= 200
    ensures var h := e.undo + [Snapshot(e.lines, e.cx, e.cy, e.dirty)]; var c := Checkpoint(e);
            && c.undo == (if |h| <= 200 then h else h[|h| - 200..])
            && c.undo[|c.undo| - 1] == Snapshot(e.lines, e.cx, e.cy, e.dirty)
            && c.redo == [] && c == e.(undo := c.undo, redo := [])
  {
  }

  // ----- inserting -----

  /** In insert mode: a printable key types itself, code 10 a newline; 8 and 0x7F take
      the character in front of the caret, be it a newline; 0x86 takes the one behind it
      on its line; and 27 leaves, one place to the left. */
  lemma InsertKeys(e: Ed, k: Byte)
    requires Typing(e)
    ensures var f := Run(e, [Event(k, false)]);
            && (0x20 <= k < 0x7F || k == 10 ==> Typing(f) && Reads(f, Before(e) + [k], After(e)) && f.dirty)
            && (k == 8 || k == 0x7F ==>
                  Typing(f) && Reads(f, if Before(e) == [] then [] else Before(e)[..|Before(e)| - 1], After(e)))
            && (k == 0x86 ==>
                  Typing(f) && Reads(f, Before(e), if e.cx < |e.lines[e.cy]| then After(e)[1..] else After(e)))
            && (k == 27 ==> f == e.(mode := Normal, cx := if e.cx == 0 then 0 else e.cx - 1, top := f.top))
  {
    hide Run, Clamp, Before, After, InsertChar, SplitLine, Backspace, Inv, Reads;
    if 0x20 <= k < 0x7F || k == 10 {
      TypeKey(e, Event(k, false));
      TypingDirties(e, k);
    } else if k == 8 || k == 0x7F {
      RubOut(e, k);
    } else if k == 0x86 {
      DeleteKey(e);
    } else if k == 27 {
      RunOne(e, Event(k, false));
      ClampIsNearest(Key(e, Event(k, false)));
    }
  }

  lemma TypingDirties(e: Ed, k: Byte)
    requires Typing(e) && (0x20 <= k < 0x7F || k == 10)
    ensures Run(e, [Event(k, false)]).dirty
  {
    hide Run, Clamp, Inv;
    RunOne(e, Event(k, false));
    ClampIsNearest(Key(e, Event(k, false)));
  }

  lemma RubOut(e: Ed, k: Byte)
    requires Typing(e) && (k == 8 || k == 0x7F)
    ensures var f := Run(e, [Event(k, false)]);
            Typing(f) && Reads(f, if Before(e) == [] then [] else Before(e)[..|Before(e)| - 1], After(e))
  {
    hide Run, Before, After, Backspace, Clamp;
    RunOne(e, Event(k, false));
    RunOne(e, ERASE);
    EraseKey(e);
  }

  lemma DeleteKey(e: Ed)
    requires Typing(e)
    ensures var f := Run(e, [Event(0x86, false)]);
            Typing(f) && Reads(f, Before(e), if e.cx < |e.lines[e.cy]| then After(e)[1..] else After(e))
  {
    hide Run, Before, After, Clamp;
    RunOne(e, Event(0x86, false));
    KeyKeeps(e, Event(0x86, false));
    var f := InsertKey(e, 0x86);
    InsertKeyStays(e, 0x86);
    if e.cx < |e.lines[e.cy]| {
      DeleteIs(e);
      var g := e.(lines := e.lines[e.cy := RemoveAt(e.lines[e.cy], e.cx)]);
      assert f == g.(dirty := true);
      OnlyTextMatters(g, f);
    }
    ClampLeavesCaret(f);
    ClampMakesClamped(f);
    OnlyTextMatters(f, Clamp(f));
  }

  lemma OnlyTextMatters(e: Ed, f: Ed)
    requires OnText(e) && f.lines == e.lines && f.cx == e.cx && f.cy == e.cy
    ensures Reads(f, Before(e), After(e))
  {
  }

  // ----- the file -----

  /** Every line of the buffer stands in the saved text with a newline, code 10, behind
      it, between what its lines above and below are saved as. */
  lemma SavedLine(lines: seq<Text>, y: nat)
    requires y < |lines|
    ensures SaveText(lines) == SaveText(lines[..y]) + lines[y] + [10] + SaveText(lines[y + 1..])
  {
    SavedOne(lines[y]);
    hide SaveText;
    var x, rest := [lines[y]], lines[y + 1..];
    Around(lines, y);
    SaveConcat(lines[..y], x + rest);
    SaveConcat(x, rest);
    Reassociate(SaveText(lines[..y]), lines[y], [10], SaveText(rest));
    var all := SaveText(lines[..y]) + ((lines[y] + [10]) + SaveText(rest));
    assert SaveText(lines) == all;
  }

  lemma Around(lines: seq<Text>, y: nat)
    requires y < |lines|
    ensures lines == lines[..y] + ([lines[y]] + lines[y + 1..])
  {
  }

  lemma Reassociate(a: Text, b: Text, c: Text, d: Text)
    ensures a + ((b + c) + d) == a + b + c + d
  {
  }

  lemma SavedOne(line: Text)
    ensures SaveText([line]) == line + [10] && SaveText([]) == []
  {
  }

  /** A file that is not UTF-8 opens all the same: printable bytes and newlines as they
      are, a question mark for each of the others. */
  lemma OpensAnything(b: Bytes)
    ensures (exists t :: Encode(t) == b && Lossy(b) == t)
            || ((forall t :: Encode(t) != b)
                && |Lossy(b)| == |b|
                && forall k | 0 <= k < |b| :: Lossy(b)[k] == if 0x20 <= b[k] <= 0x7E || b[k] == 10 then b[k] else 0x3F)
  {
    hide Decode, Encode;
    if Valid(b) {
      EncodeDecoded(b);
    } else {
      forall t ensures Encode(t) != b { DecodeEncoded(t); }
    }
  }

  /** What opening leaves on the screen: the cursor at the very start, normal mode, no
      history and a clean flag; the lines of the file, or one empty line if there is
      none. Joined by newlines the lines are the text, less a newline at its end. */
  lemma OpensAtStart(path: Text, files: map<Text, Bytes>, rows: nat)
    ensures Inv(Open(path, files, rows))
    ensures var e := Run(Open(path, files, rows), []);
            && (e.cx, e.cy, e.top) == (0, 0, 0) && e.mode.Normal? && !e.dirty && !e.quit && e.undo == [] && e.redo == []
            && e.path == path && e.files == files
            && (path !in files ==> e.lines == [[]])
            && (path in files ==>
                  var t := Lossy(files[path]);
                  SaveText(e.lines) == if t != [] && t[|t| - 1] == 10 then t else t + [10])
  {
    hide Lossy, SaveText, Encode, SplitLines, Run;
    OpenedInv(path, files, rows);
    var e := Open(path, files, rows);
    RunNothing(e);
    ClampIsNearest(e);
    if path in files {
      var t := Lossy(files[path]);
      SaveTakesBackOpenIff(t);
      LossyEncoded(t);
      OpenLinesOf(files[path], Encode(t));
    }
  }

  lemma LossyEncoded(t: Text)
    ensures Lossy(Encode(t)) == t
  {
    hide Decode, Encode;
    DecodeEncoded(t);
  }

  lemma OpenLinesOf(a: Bytes, b: Bytes)
    requires Lossy(a) == Lossy(b)
    ensures OpenLines(a) == OpenLines(b)
  {
  }

  /** Undo and redo with nothing to go to do nothing, and no key does anything once the
      editor has quit. */
  lemma NothingToDo(e: Ed)
    requires AtRest(e)
    ensures e.undo == [] ==> Run(e, [Event(0x75, false)]) == e
    ensures e.redo == [] ==> Run(e, [Event(0x12, false)]) == e
    ensures forall events :: var q := e.(quit := true); Inv(q) && Run(q, events) == q
  {
    hide Run, Clamp, Key;
    RunOne(e, U);
    RunOne(e, R);
    HistoryKeys(e);
    ClampedIsFixed(e);
    var q := e.(quit := true);
    forall events ensures Inv(q) && Run(q, events) == q {
      StaysQuit(q, events);
    }
  }

  lemma StaysQuit(q: Ed, events: seq<Event>)
    requires Inv(q) && Clamped(q) && q.quit
    ensures Run(q, events) == q
  {
    ClampedIsFixed(q);
  }
}
