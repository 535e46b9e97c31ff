/** What each command does as it is typed, and what a session that quits has lost. */
module EditorCommands {
  import opened Common
  import opened Utf8
  import opened EditorModel
  import opened EditorInvariant
  import opened EditorHistory
  import opened EditorFiles
  import opened EditorHonest

  // ----- a command line and how it is read -----

  /** A command as typed: blanks, a verb, and perhaps blanks and an argument, and
      blanks behind. Verbs hold no blank, arguments neither start nor end with one. */
  datatype Line = Line(front: nat, verb: Text, middle: nat, arg: Text, behind: nat)

  function Blanks(n: nat): Text { seq(n, _ => 0x20) }

  predicate Graphic(t: Text) { forall k | 0 <= k < |t| :: 0x20 <= t[k] < 0x7F }

  predicate LineOk(c: Line) {
    c.verb != [] && Graphic(c.verb) && 0x20 !in c.verb && Graphic(c.arg) &&
    (if c.arg == [] then c.middle == 0 else c.middle > 0 && c.arg[0] != 0x20 && c.arg[|c.arg| - 1] != 0x20)
  }

  function Core(c: Line): Text { c.verb + (Blanks(c.middle) + c.arg) }

  function Typed(c: Line): Text { Blanks(c.front) + (Core(c) + Blanks(c.behind)) }

  lemma {:induction false} TrimStartBlanks(n: nat, t: Text)
    requires t == [] || !IsWhitespace(t[0])
    ensures TrimStart(Blanks(n) + t) == t
  {
    if n == 0 {
      assert Blanks(n) + t == t;
    } else {
      assert (Blanks(n) + t)[1..] == Blanks(n - 1) + t;
      TrimStartBlanks(n - 1, t);
    }
  }

  lemma {:induction false} TrimEndBlanks(t: Text, n: nat)
    requires t == [] || !IsWhitespace(t[|t| - 1])
    ensures TrimEnd(t + Blanks(n)) == t
  {
    if n == 0 {
      assert t + Blanks(n) == t;
    } else {
      assert (t + Blanks(n))[..|t| + n - 1] == t + Blanks(n - 1);
      TrimEndBlanks(t, n - 1);
    }
  }

  lemma TrimBlanks(front: nat, t: Text, behind: nat)
    requires t != [] && !IsWhitespace(t[0]) && !IsWhitespace(t[|t| - 1])
    ensures Trim(Blanks(front) + (t + Blanks(behind))) == t
  {
    hide IsWhitespace;
    assert (t + Blanks(behind))[0] == t[0];
    TrimStartBlanks(front, t + Blanks(behind));
    TrimEndBlanks(t, behind);
  }

  lemma {:induction false} VerbIs(verb: Text, rest: Text)
    requires 0x20 !in verb && (rest == [] || rest[0] == 0x20)
    ensures UpToSpace(verb + rest) == verb
  {
    if verb == [] {
      assert verb + rest == rest;
    } else {
      assert (verb + rest)[1..] == verb[1..] + rest;
      VerbIs(verb[1..], rest);
    }
  }

  /** The blanks around a command do not matter, the first word is its verb, and
      the rest, trimmed, its argument. */
  lemma LineReads(c: Line)
    requires LineOk(c)
    ensures UpToSpace(Trim(Typed(c))) == c.verb && Argument(Trim(Typed(c))) == c.arg
  {
    hide Trim, UpToSpace, IsWhitespace;
    var t := Core(c);
    var rest := Blanks(c.middle) + c.arg;
    GraphicIsNoSpace(c);
    TrimBlanks(c.front, t, c.behind);
    VerbIs(c.verb, rest);
    if c.arg != [] {
      assert t[|c.verb| + 1..] == Blanks(c.middle - 1) + (c.arg + Blanks(0));
      TrimBlanks(c.middle - 1, c.arg, 0);
    }
  }

  lemma GraphicIsNoSpace(c: Line)
    requires LineOk(c)
    ensures !IsWhitespace(Core(c)[0]) && !IsWhitespace(Core(c)[|Core(c)| - 1])
    ensures c.arg != [] ==> !IsWhitespace(c.arg[0]) && !IsWhitespace(c.arg[|c.arg| - 1])
  {
    var t := Core(c);
    assert t[0] == c.verb[0];
    assert t[|t| - 1] == if c.arg == [] then c.verb[|c.verb| - 1] else c.arg[|c.arg| - 1];
  }

  // ----- typing it -----

  function Keys(t: Text): seq<Event>
    requires Graphic(t)
  {
    seq(|t|, i requires 0 <= i < |t| => Event(t[i], false))
  }

  /** The colon opens an empty command line, each printable key adds itself. */
  lemma ColonOpens(e: Ed)
    requires AtRest(e)
    ensures Run(e, [Event(0x3A, false)]) == e.(mode := Command, cmd := [])
  {
    hide Run, Forward, BackOverSpace, BackOverWord;
    RunOne(e, Event(0x3A, false));
    ClampedIsFixed(e.(mode := Command, cmd := []));
  }

  predicate Commanding(e: Ed) { Inv(e) && Clamped(e) && !e.quit && e.mode.Command? }

  lemma OneKey(e: Ed, k: Byte, ok: bool)
    requires Commanding(e)
    ensures 0x20 <= k < 0x7F ==> Run(e, [Event(k, ok)]) == e.(cmd := e.cmd + [k])
    ensures k == 8 || k == 0x7F ==> Run(e, [Event(k, ok)]) == if e.cmd == [] then e else e.(cmd := e.cmd[..|e.cmd| - 1])
    ensures k == 27 ==> Run(e, [Event(k, ok)]) == e.(cmd := [], mode := Normal)
    ensures k == 10 ==> Run(e, [Event(k, ok)]) == Clamp(RunCommand(e, ok))
  {
    hide Run, RunCommand;
    RunOne(e, Event(k, ok));
    if k != 10 {
      var f := CommandKey(e, k, ok);
      ClampedIsFixed(f);
    }
  }

  lemma {:induction false} KeysAddUp(e: Ed, t: Text)
    requires Commanding(e) && Graphic(t)
    ensures Run(e, Keys(t)) == e.(cmd := e.cmd + t) && Commanding(Run(e, Keys(t)))
    decreases |t|
  {
    hide Run, Clamped, Inv, Clamp;
    if t == [] {
      assert Keys(t) == [] && e.cmd + t == e.cmd;
      RunNothing(e);
      ClampedIsFixed(e);
    } else {
      assert Keys(t) == [Event(t[0], false)] + Keys(t[1..]);
      OneKey(e, t[0], false);
      var f := e.(cmd := e.cmd + [t[0]]);
      assert Run(e, [Event(t[0], false)]) == f;
      KeysAddUp(f, t[1..]);
      RunConcat(e, [Event(t[0], false)], Keys(t[1..]));
      assert e.cmd + [t[0]] + t[1..] == e.cmd + t;
    }
  }

  /** Colon and text, ready for the key that ends it. */
  lemma LineStands(e: Ed, t: Text)
    requires AtRest(e) && Graphic(t)
    ensures Run(e, [Event(0x3A, false)] + Keys(t)) == e.(mode := Command, cmd := t)
    ensures Commanding(e.(mode := Command, cmd := t))
  {
    hide Run, Clamp;
    ColonOpens(e);
    var c := e.(mode := Command, cmd := []);
    KeysAddUp(c, t);
    RunConcat(e, [Event(0x3A, false)], Keys(t));
    assert [] + t == t;
  }

  /** Escape throws a command away, whatever was typed of it. */
  lemma EscapeCancels(e: Ed, t: Text)
    requires AtRest(e) && Graphic(t)
    ensures Run(e, [Event(0x3A, false)] + Keys(t) + [Event(27, false)]) == e.(cmd := [])
  {
    hide Run, Clamp;
    LineStands(e, t);
    OneKey(e.(mode := Command, cmd := t), 27, false);
    RunConcat(e, [Event(0x3A, false)] + Keys(t), [Event(27, false)]);
  }

  // ----- what it does -----

  /** The buffer written to `path`, its own if none is named. */
  function WrittenTo(e: Ed, path: Text): Ed {
    var to := if path == [] then e.path else path;
    e.(cmd := [], dirty := false, path := to, files := e.files[to := Encode(SaveText(e.lines))])
  }

  /** What a command leaves behind, by its verb: `w`, `wq` and `x` write to exactly
      the path they name, or to the buffer's own, and only if the store takes it;
      `q` quits over a clean buffer and does nothing over a dirty one; `q!` quits
      and writes nothing; `wq` and `x` quit unless the buffer is still dirty; any
      other verb does nothing. */
  function After(e: Ed, verb: Text, arg: Text, ok: bool): Ed {
    var idle := e.(cmd := []);
    var saved := if ok then WrittenTo(e, arg) else idle;
    if verb == [0x77] then saved
    else if verb == [0x77, 0x71] || verb == [0x78] then if saved.dirty then saved else saved.(quit := true)
    else if verb == [0x71] then if e.dirty then idle else idle.(quit := true)
    else if verb == [0x71, 0x21] then idle.(quit := true)
    else idle
  }

  lemma CommandIs(e: Ed, c: Line, ok: bool)
    requires LineOk(c) && e.mode.Command? && e.cmd == Typed(c)
    ensures RunCommand(e, ok) == After(e, c.verb, c.arg, ok).(mode := Normal)
  {
    hide Trim, UpToSpace, Argument, Encode, SaveText, LineOk, Typed;
    LineReads(c);
  }

  /** A command from the colon to Enter, for every verb and argument. */
  lemma CommandDoes(e: Ed, c: Line, ok: bool)
    requires AtRest(e) && LineOk(c)
    ensures Graphic(Typed(c))
    ensures Run(e, [Event(0x3A, false)] + Keys(Typed(c)) + [Event(10, ok)]) == After(e, c.verb, c.arg, ok)
  {
    hide Run, After, RunCommand, LineOk;
    assert Graphic(Typed(c)) by { TypedIsGraphic(c); }
    var f := e.(mode := Command, cmd := Typed(c));
    LineStands(e, Typed(c));
    OneKey(f, 10, ok);
    CommandIs(f, c, ok);
    AfterStaysPut(e, f, c.verb, c.arg, ok);
    RunConcat(e, [Event(0x3A, false)] + Keys(Typed(c)), [Event(10, ok)]);
  }

  lemma TypedIsGraphic(c: Line)
    requires LineOk(c)
    ensures Graphic(Typed(c))
  {
  }

  lemma AfterStaysPut(e: Ed, f: Ed, verb: Text, arg: Text, ok: bool)
    requires AtRest(e) && f == e.(mode := Command, cmd := f.cmd)
    ensures Clamp(After(f, verb, arg, ok).(mode := Normal)) == After(e, verb, arg, ok)
  {
    hide Encode, SaveText, Inv;
    var g := After(e, verb, arg, ok);
    assert After(f, verb, arg, ok).(mode := Normal) == g;
    assert Clamped(g);
    ClampedIsFixed(g);
  }

  /** Exactly when a command quits, and what it has then written. */
  lemma QuitsIff(e: Ed, verb: Text, arg: Text, ok: bool)
    requires !e.quit
    ensures After(e, verb, arg, ok).quit <==>
            || verb == [0x71, 0x21]
            || (verb == [0x71] && !e.dirty)
            || ((verb == [0x77, 0x71] || verb == [0x78]) && (ok || !e.dirty))
    ensures verb == [0x71] || verb == [0x71, 0x21] ==> After(e, verb, arg, ok).files == e.files
    ensures After(e, verb, arg, ok).lines == e.lines
  {
    hide Encode, SaveText;
  }

  // ----- every session -----

  /** Whether a key is the Enter of a `:q!`. */
  predicate Forces(e: Ed, v: Event) {
    e.mode.Command? && v.k == 10 &&
    var cmd := Trim(e.cmd);
    |cmd| >= 2 && cmd[0] == 0x71 && cmd[1] == 0x21 && (|cmd| == 2 || cmd[2] == 0x20)
  }

  /** No `:q!` is entered in a session. */
  predicate NeverForces(e: Ed, events: seq<Event>)
    requires Inv(e)
    decreases |events|
  {
    Clamp(e).quit || events == [] ||
    (!Forces(Clamp(e), events[0]) && NeverForces(AfterKey(e, events[0]), events[1..]))
  }

  lemma BangIs(t: Text)
    requires UpToSpace(t) == [0x71, 0x21]
    ensures |t| >= 2 && t[0] == 0x71 && t[1] == 0x21 && (|t| == 2 || t[2] == 0x20)
  {
    assert UpToSpace(t[1..]) == [0x21];
    assert t[1..][1..] == t[2..];
    assert UpToSpace(t[2..]) == [];
  }

  lemma KeyQuitsClean(e: Ed, v: Event)
    requires Clamped(e) && !e.quit && !Forces(e, v)
    ensures Key(e, v).quit ==> !Key(e, v).dirty
  {
    hide Trim, Argument, Encode, SaveText, UpToSpace;
    match e.mode
    case Normal => NormalNeverQuits(e, v.k);
    case Insert =>
    case Command =>
      if v.k == 10 && UpToSpace(Trim(e.cmd)) == [0x71, 0x21] { BangIs(Trim(e.cmd)); }
  }

  lemma NormalNeverQuits(e: Ed, k: Byte)
    requires Clamped(e)
    ensures NormalKey(e, k).quit == e.quit
  {
    hide MoveKey, RemoveAt, InsertAt, Checkpoint, Clamped;
    MoveOnlyMoves(e, k);
    CheckpointIs(e);
    CheckpointIs(e.(pending := None));
  }

  lemma {:induction false} QuitsClean(e: Ed, events: seq<Event>)
    requires Inv(e) && (e.quit ==> !e.dirty) && NeverForces(e, events)
    ensures Run(e, events).quit ==> !Run(e, events).dirty
    decreases |events|
  {
    hide Key, Forces, Inv, Clamped;
    ClampKeeps(e);
    if !Clamp(e).quit && events != [] {
      KeyQuitsClean(Clamp(e), events[0]);
      hide Clamp;
      QuitsClean(AfterKey(e, events[0]), events[1..]);
    }
  }

  lemma {:induction false} EndsHonest(e: Ed, events: seq<Event>)
    requires Inv(e) && AlwaysHonest(e, events)
    ensures Honest(Run(e, events))
    decreases |events|
  {
    hide Key, Honest, Clamp;
    ClampKeeps(e);
    if !Clamp(e).quit && events != [] { EndsHonest(AfterKey(e, events[0]), events[1..]); }
  }

  /** From opening any file, over every key sequence: an editor that has quit with no
      `:q!` entered has a clean flag. And nothing is lost: when every save was made
      with histories that agree, the file opens to the very lines on the screen. */
  lemma QuittingLosesNothing(path: Text, files: map<Text, Bytes>, rows: nat, events: seq<Event>)
    ensures Inv(Open(path, files, rows))
    ensures var e := Open(path, files, rows); var f := Run(e, events);
            NeverForces(e, events) && f.quit ==>
              !f.dirty && (SavesAgree(e, events) ==> f.lines == LinesAt(f.files, f.path))
  {
    hide NeverForces, SavesAgree, LinesAt, Run;
    OpenedInv(path, files, rows);
    var e := Open(path, files, rows);
    if NeverForces(e, events) {
      QuitsClean(e, events);
      SessionIsHonestIff(path, files, rows, events);
      if SavesAgree(e, events) { EndsHonest(e, events); }
    }
  }
}
