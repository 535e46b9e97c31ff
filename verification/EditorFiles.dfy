/** What saving and opening keep, and what the dirty flag means. */
module EditorFiles {
  import opened Common
  import opened Utf8
  import opened EditorModel
  import opened EditorInvariant
  import opened EditorHistory

  // ----- open after save, save after open -----

  lemma FirstNewlineIs(x: Text, rest: Text)
    requires NEWLINE !in x
    ensures FirstNewline(x + ([NEWLINE] + rest)) == |x|
  {
    var t := x + ([NEWLINE] + rest);
    var i := FirstNewline(t);
    forall k | 0 <= k < |x| ensures t[k] != NEWLINE { assert t[k] == x[k]; }
    forall k | 0 <= k < i ensures t[k] != NEWLINE { assert t[k] == t[..i][k]; }
    assert t[|x|] == NEWLINE;
  }

  lemma SplitOne(x: Text, rest: Text)
    requires NEWLINE !in x
    ensures SplitLines(x + ([NEWLINE] + rest)) == [x] + SplitLines(rest)
  {
    hide FirstNewline;
    var t := x + ([NEWLINE] + rest);
    FirstNewlineIs(x, rest);
    assert t[..|x|] == x && t[|x| + 1..] == rest;
  }

  lemma {:induction false} SplitSaved(lines: seq<Text>)
    requires lines != [] && NoNewlines(lines)
    ensures SplitLines(SaveText(lines)) == lines + [[]]
    decreases |lines|
  {
    hide SplitLines, FirstNewline;
    if |lines| == 1 {
      assert lines[0] + [NEWLINE] == lines[0] + ([NEWLINE] + []);
      SplitOne(lines[0], []);
      SplitNothing();
      assert lines == [lines[0]];
    } else {
      var rest := SaveText(lines[1..]);
      assert lines[0] + [NEWLINE] + rest == lines[0] + ([NEWLINE] + rest);
      SplitOne(lines[0], rest);
      SplitSaved(lines[1..]);
      assert lines + [[]] == [lines[0]] + (lines[1..] + [[]]);
    }
  }

  lemma SplitNothing()
    ensures SplitLines([]) == [[]]
  {
  }

  /** Opening what `save` writes gives the lines back. */
  lemma OpenTakesBackSave(lines: seq<Text>)
    requires lines != [] && NoNewlines(lines)
    ensures OpenLines(Encode(SaveText(lines))) == lines
  {
    DecodeEncoded(SaveText(lines));
    SplitSaved(lines);
    assert (lines + [[]])[..|lines|] == lines;
  }

  lemma {:induction false} SaveAppends(v: seq<Text>, x: Text)
    requires v != []
    ensures SaveText(v + [x]) == SaveText(v) + x + [NEWLINE]
    decreases |v|
  {
    assert (v + [x])[1..] == v[1..] + [x];
    if |v| == 1 {
      assert v[1..] + [x] == [x];
    } else {
      SaveAppends(v[1..], x);
    }
  }

  lemma {:induction false} SaveSplit(t: Text)
    ensures SaveText(SplitLines(t)) == t + [NEWLINE]
    decreases |t|
  {
    var i := FirstNewline(t);
    if i < |t| {
      SaveSplit(t[i + 1..]);
      var v := SplitLines(t[i + 1..]);
      assert ([t[..i]] + v)[1..] == v;
      assert t == t[..i] + [NEWLINE] + t[i + 1..];
    }
  }

  predicate EndsLine(t: Text) { t != [] && t[|t| - 1] == NEWLINE }

  /** The last piece of a text is what stands after its last newline. */
  lemma LastPiece(t: Text, w: seq<Text>, x: Text)
    requires SplitLines(t) == w + [x] && w != []
    ensures t == SaveText(w) + x && EndsLine(SaveText(w)) && NEWLINE !in x
    ensures x == [] <==> EndsLine(t)
  {
    hide SaveText, SplitLines;
    SaveSplit(t);
    SaveAppends(w, x);
    var s := SaveText(w) + x;
    assert t == (t + [NEWLINE])[..|t|] == (s + [NEWLINE])[..|t|] == s;
    SaveEndsLine(w);
    SplitHasNoNewlines(t);
    assert (w + [x])[|w|] == x;
    if x != [] { assert t[|t| - 1] == x[|x| - 1]; }
  }

  /** Saving an opened text gives it back exactly when it ends with a newline,
      and otherwise adds the one it lacked. */
  lemma SaveTakesBackOpenIff(t: Text)
    ensures SaveText(OpenLines(Encode(t))) == if EndsLine(t) then t else t + [NEWLINE]
  {
    hide SplitLines, Encode, OpenLines, SaveText;
    OpenIs(t);
    var v := SplitLines(t);
    SaveSplit(t);
    if |v| == 1 {
      OnePiece(t);
    } else {
      var w, x := v[..|v| - 1], v[|v| - 1];
      assert v == w + [x];
      LastPiece(t, w, x);
    }
  }

  lemma OpenIs(t: Text)
    ensures var v := SplitLines(t);
            OpenLines(Encode(t)) == if |v| > 1 && v[|v| - 1] == [] then v[..|v| - 1] else v
  {
    hide SplitLines, Encode, Decode;
    DecodeEncoded(t);
  }

  lemma OnePiece(t: Text)
    requires |SplitLines(t)| == 1
    ensures SplitLines(t) == [t] && NEWLINE !in t
  {
    var i := FirstNewline(t);
    assert t[..|t|] == t;
  }

  lemma {:induction false} SaveEndsLine(v: seq<Text>)
    requires v != []
    ensures EndsLine(SaveText(v))
    decreases |v|
  {
    if |v| > 1 { SaveEndsLine(v[1..]); }
  }

  // ----- the dirty flag -----

  /** A clean buffer is what its path opens to. */
  predicate CleanMeansSaved(e: Ed) {
    !e.dirty ==> e.lines == LinesAt(e.files, e.path)
  }

  /** Whether a key takes the editor through its history. */
  predicate WalksHistory(e: Ed, k: Byte) {
    e.mode.Normal? && e.pending.None? && (k == 0x75 || k == CTRL_R)
  }

  /** What `save` leaves behind. */
  lemma SaveCleans(e: Ed, to: Text, ok: bool)
    requires Inv(e) && CleanMeansSaved(e)
    ensures CleanMeansSaved(Save(e, to, ok))
  {
    OpenTakesBackSave(e.lines);
  }

  lemma CommandKeepsClean(e: Ed, k: Byte, ok: bool)
    requires Inv(e) && CleanMeansSaved(e)
    ensures CleanMeansSaved(CommandKey(e, k, ok))
  {
    hide Trim, UpToSpace, Argument, Save, LinesAt, Inv;
    SaveCleans(e.(cmd := [], mode := Normal), Argument(Trim(e.cmd)), ok) by {
      assert Inv(e.(cmd := [], mode := Normal)) by { InvIgnoresCommand(e); }
    }
  }

  lemma InvIgnoresCommand(e: Ed)
    requires Inv(e)
    ensures Inv(e.(cmd := [], mode := Normal))
  {
  }

  /** An insert-mode key that leaves the flag clean changed nothing. */
  lemma InsertDirties(e: Ed, k: Byte)
    requires Clamped(e)
    ensures var f := InsertKey(e, k);
            (f.dirty || f.lines == e.lines) && (e.dirty ==> f.dirty) && f.files == e.files && f.path == e.path
  {
  }

  lemma NormalDirties(e: Ed, k: Byte)
    requires Clamped(e) && e.mode.Normal? && !WalksHistory(e, k)
    ensures var f := NormalKey(e, k);
            (f.dirty || f.lines == e.lines) && (e.dirty ==> f.dirty) && f.files == e.files && f.path == e.path
  {
    hide MoveKey, RemoveAt, InsertAt, Checkpoint, Clamped;
    MoveOnlyMoves(e, k);
    CheckpointIs(e);
    CheckpointIs(e.(pending := None));
  }

  /** Every key but undo and redo keeps the meaning of a clean flag. */
  lemma KeyKeepsClean(e: Ed, v: Event)
    requires Inv(e) && Clamped(e) && CleanMeansSaved(e) && !WalksHistory(e, v.k)
    ensures CleanMeansSaved(Key(e, v))
  {
    hide NormalKey, InsertKey, CommandKey, LinesAt;
    match e.mode
    case Normal => NormalDirties(e, v.k);
    case Insert => InsertDirties(e, v.k);
    case Command => CommandKeepsClean(e, v.k, v.ok);
  }

  const WRITE: seq<Event> := [Event(0x3A, true), Event(0x77, true), Event(10, true)]

  /** What a write leaves: the flag clean and the file at the path. */
  function Written(e: Ed): Ed {
    e.(dirty := false, cmd := [], files := e.files[e.path := Encode(SaveText(e.lines))])
  }

  lemma ColonIs(e: Ed)
    requires AtRest(e)
    ensures Run(e, [WRITE[0]]) == e.(mode := Command, cmd := [])
  {
    hide Run, Forward, BackOverSpace, BackOverWord;
    RunOne(e, WRITE[0]);
    ClampedIsFixed(e.(mode := Command, cmd := []));
  }

  lemma LetterIs(e: Ed)
    requires Inv(e) && Clamped(e) && !e.quit && e.mode.Command? && e.cmd == []
    ensures Run(e, [WRITE[1]]) == e.(cmd := [W])
  {
    hide Run, RunCommand;
    RunOne(e, WRITE[1]);
    assert e.cmd + [0x77] == [W];
    ClampedIsFixed(e.(cmd := [W]));
  }

  lemma TrimOne(c: Scalar)
    requires !IsWhitespace(c)
    ensures Trim([c]) == [c]
  {
    hide IsWhitespace;
    assert TrimStart([c]) == [c];
    assert TrimEnd([c]) == [c];
  }

  lemma OneWord(c: Scalar)
    requires c != SPACE
    ensures UpToSpace([c]) == [c]
  {
    assert [c][1..] == [];
  }

  lemma NoArgument(c: Scalar)
    requires c != SPACE
    ensures Argument([c]) == []
  {
    OneWord(c);
    hide UpToSpace, Trim;
  }

  lemma WriteCommandIs(e: Ed)
    requires e.cmd == [W]
    ensures RunCommand(e, true) == Written(e).(mode := Normal)
  {
    hide Encode, SaveText, Trim, UpToSpace, Argument, IsWhitespace;
    assert !IsWhitespace(W) by { WIsNoSpace(); }
    TrimOne(W);
    OneWord(W);
    NoArgument(W);
  }

  lemma WIsNoSpace()
    ensures !IsWhitespace(W)
  {
  }

  lemma EnterIs(e: Ed)
    requires Inv(e) && Clamped(e) && !e.quit && e.mode.Command? && e.cmd == [W]
    ensures Run(e, [WRITE[2]]) == Written(e).(mode := Normal)
  {
    hide Run, RunCommand, Clamp;
    WriteCommandIs(e);
    RunOne(e, WRITE[2]);
    ClampedIsFixed(Written(e).(mode := Normal));
  }

  /** `:w` and Enter, with the store taking the write. */
  lemma WriteIs(e: Ed)
    requires AtRest(e)
    ensures Run(e, WRITE) == Written(e) && AtRest(Written(e))
  {
    hide Run, Encode, SaveText, Key, Clamp;
    ColonIs(e);
    var c := e.(mode := Command, cmd := []);
    LetterIs(c);
    EnterIs(c.(cmd := [W]));
    RunConcat(e, [WRITE[0]], [WRITE[1]]);
    RunConcat(e, [WRITE[0]] + [WRITE[1]], [WRITE[2]]);
    assert WRITE == [WRITE[0]] + [WRITE[1]] + [WRITE[2]];
  }

  /** Undo after a save puts an old flag over a buffer that is not what was
      written. From rest with a clean flag: type a session, write, and undo. The
      flag is clean again, and it is right exactly when the session had left the
      text as it was. */
  lemma UndoAfterSaveLiesIff(e: Ed, k: Byte, keys: seq<Event>)
    requires AtRest(e) && !e.dirty && StartsInsert(k) && forall v | v in keys :: v.k != ESC
    ensures var typed := Run(e, [Event(k, false)] + (keys + [LEAVE]));
            var f := Run(typed, WRITE + [U]);
            && !f.dirty && f.lines == e.lines
            && (CleanMeansSaved(f) <==> typed.lines == e.lines)
  {
    hide Run, Key, Clamp, LinesAt, Encode, Decode, SaveText;
    SessionIs(e, k, keys);
    var typed := Run(e, [Event(k, false)] + (keys + [LEAVE]));
    WriteIs(typed);
    var written := Run(typed, WRITE);
    UndoIs(written);
    RunConcat(typed, WRITE, [U]);
    SavedReads(typed);
  }

  lemma SavedReads(e: Ed)
    requires Inv(e)
    ensures LinesAt(e.files[e.path := Encode(SaveText(e.lines))], e.path) == e.lines
  {
    OpenTakesBackSave(e.lines);
  }
}
