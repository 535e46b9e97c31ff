/**
 The buffer as one text with a caret in it.

 Lines, columns and joins are how the editor holds a buffer; what a person types
 into is a text. Before and after the caret there is a plain sequence of
 characters, and every editing key is one insertion or deletion there.
 */
module EditorText {
  import opened Common
  import opened Utf8
  import opened EditorModel
  import opened EditorInvariant
  import opened EditorHistory
  import opened EditorFiles

  /** Lines that follow another one. */
  function Following(lines: seq<Text>): Text {
    if lines == [] then [] else [NEWLINE] + lines[0] + Following(lines[1..])
  }

  predicate OnText(e: Ed) { e.cy < |e.lines| && e.cx <= |e.lines[e.cy]| }

  /** The text in front of the caret. */
  function Before(e: Ed): Text
    requires OnText(e)
  {
    SaveText(e.lines[..e.cy]) + e.lines[e.cy][..e.cx]
  }

  /** The text behind it. */
  function After(e: Ed): Text
    requires OnText(e)
  {
    e.lines[e.cy][e.cx..] + Following(e.lines[e.cy + 1..])
  }

  lemma {:induction false} SaveIs(x: Text, rest: seq<Text>)
    ensures SaveText([x] + rest) == x + Following(rest) + [NEWLINE]
    decreases |rest|
  {
    var all := [x] + rest;
    assert all[1..] == rest;
    if rest == [] {
      assert all == [x];
    } else {
      SaveIs(rest[0], rest[1..]);
      assert rest == [rest[0]] + rest[1..];
      assert SaveText(all) == x + [NEWLINE] + SaveText(rest);
    }
  }

  lemma {:induction false} SaveConcat(v: seq<Text>, w: seq<Text>)
    ensures SaveText(v + w) == SaveText(v) + SaveText(w)
    decreases |v|
  {
    if v == [] {
      assert v + w == w;
    } else if w == [] {
      assert v + w == v;
    } else {
      SaveConcat(v[1..], w);
      assert (v + w)[1..] == v[1..] + w;
      assert |v| == 1 ==> v[1..] + w == w;
    }
  }

  lemma SaveAppendsOne(v: seq<Text>, x: Text)
    ensures SaveText(v + [x]) == SaveText(v) + x + [NEWLINE]
  {
    SaveConcat(v, [x]);
  }

  /** What `save` writes is the text in front of the caret, the text behind it,
      and a final newline. */
  lemma SavedIsText(e: Ed)
    requires OnText(e)
    ensures SaveText(e.lines) == Before(e) + After(e) + [NEWLINE]
  {
    hide SaveText, Following;
    var v, x, w := e.lines[..e.cy], e.lines[e.cy], e.lines[e.cy + 1..];
    assert e.lines == v + ([x] + w);
    SaveConcat(v, [x] + w);
    SaveIs(x, w);
    assert x == x[..e.cx] + x[e.cx..];
  }

  /** `f` is `e` with other text around the caret. */
  predicate Reads(f: Ed, before: Text, after: Text) {
    OnText(f) && Before(f) == before && After(f) == after
  }

  lemma InsertCharIs(e: Ed, ch: Scalar)
    requires OnText(e)
    ensures Reads(InsertChar(e, ch), Before(e) + [ch], After(e))
  {
    hide SaveText, Following;
    var f := InsertChar(e, ch);
    var x, y := e.lines[e.cy], f.lines[e.cy];
    assert f.lines[..e.cy] == e.lines[..e.cy] && f.lines[e.cy + 1..] == e.lines[e.cy + 1..];
    assert y[..f.cx] == x[..e.cx] + [ch] && y[f.cx..] == x[e.cx..];
  }

  /** Enter types a newline. */
  lemma SplitLineIs(e: Ed)
    requires OnText(e)
    ensures Reads(SplitLine(e), Before(e) + [NEWLINE], After(e))
  {
    hide SaveText, Following;
    var f := SplitLine(e);
    var x := e.lines[e.cy];
    assert f.lines[..f.cy] == e.lines[..e.cy] + [x[..e.cx]];
    assert f.lines[f.cy] == x[e.cx..] && f.lines[f.cy + 1..] == e.lines[e.cy + 1..];
    SaveAppendsOne(e.lines[..e.cy], x[..e.cx]);
    assert x[e.cx..][..0] == [] && x[e.cx..][0..] == x[e.cx..];
  }

  /** Backspace takes the character in front of the caret, be it a newline, and
      nothing only where there is none. */
  lemma BackspaceIs(e: Ed)
    requires OnText(e)
    ensures Reads(Backspace(e), Before(e)[..Dec(|Before(e)|)], After(e))
  {
    if e.cx > 0 {
      BackspaceInLine(e);
    } else if e.cy > 0 {
      BackspaceJoins(e);
    }
  }

  lemma BackspaceInLine(e: Ed)
    requires OnText(e) && e.cx > 0
    ensures Reads(Backspace(e), Before(e)[..|Before(e)| - 1], After(e)) && |Before(e)| > 0
  {
    hide SaveText, Following;
    var f := Backspace(e);
    var x, y := e.lines[e.cy], f.lines[e.cy];
    assert f.lines[..e.cy] == e.lines[..e.cy] && f.lines[e.cy + 1..] == e.lines[e.cy + 1..];
    assert y[..f.cx] == x[..e.cx - 1] && y[f.cx..] == x[e.cx..];
  }

  lemma BackspaceJoins(e: Ed)
    requires OnText(e) && e.cx == 0 && e.cy > 0
    ensures Reads(Backspace(e), Before(e)[..|Before(e)| - 1], After(e)) && |Before(e)| > 0
  {
    hide SaveText, Following;
    var f := Backspace(e);
    var p, x := e.lines[e.cy - 1], e.lines[e.cy];
    assert f.lines[..f.cy] == e.lines[..e.cy - 1] && f.lines[f.cy] == p + x;
    assert f.lines[f.cy + 1..] == e.lines[e.cy + 1..];
    assert e.lines[..e.cy] == e.lines[..e.cy - 1] + [p];
    SaveAppendsOne(e.lines[..e.cy - 1], p);
    assert Before(e) == Before(f) + [NEWLINE];
  }

  /** Delete, like `x`, takes the character under the caret, but no newline. */
  lemma DeleteIs(e: Ed)
    requires OnText(e) && e.cx < |e.lines[e.cy]|
    ensures var f := e.(lines := e.lines[e.cy := RemoveAt(e.lines[e.cy], e.cx)]);
            After(e) != [] && Reads(f, Before(e), After(e)[1..])
  {
    hide SaveText, Following;
    var f := e.(lines := e.lines[e.cy := RemoveAt(e.lines[e.cy], e.cx)]);
    var x, y := e.lines[e.cy], f.lines[e.cy];
    assert f.lines[..e.cy] == e.lines[..e.cy] && f.lines[e.cy + 1..] == e.lines[e.cy + 1..];
    assert y[..e.cx] == x[..e.cx] && y[e.cx..] == x[e.cx + 1..];
  }

  // ----- a typed passage -----

  /** The keys that type: printable ones and Enter. */
  predicate Types(k: Byte) { k == ENTER || Printable(k) }

  /** The character a key types. */
  function Typed(k: Byte): Scalar
    requires Types(k)
  {
    if k == ENTER then NEWLINE else k
  }

  predicate Passage(keys: seq<Event>) { forall i | 0 <= i < |keys| :: Types(keys[i].k) }

  function PassageText(keys: seq<Event>): (t: Text)
    requires Passage(keys)
    ensures |t| == |keys|
  {
    seq(|keys|, i requires 0 <= i < |keys| => Typed(keys[i].k))
  }

  /** Clamping in insert mode leaves the caret where it is. */
  lemma ClampLeavesCaret(e: Ed)
    requires OnText(e) && e.mode.Insert?
    ensures Clamp(e) == e.(top := Clamp(e).top)
  {
  }

  /** In insert mode, ready for a key. */
  predicate Typing(e: Ed) { OnText(e) && Inv(e) && Clamped(e) && e.mode.Insert? && !e.quit }

  lemma TypeKey(e: Ed, v: Event)
    requires Typing(e) && Types(v.k)
    ensures var f := Run(e, [v]); Typing(f) && Reads(f, Before(e) + [Typed(v.k)], After(e))
  {
    hide Run, Before, After, SplitLine, InsertChar;
    RunOne(e, v);
    InsertKeyStays(e, v.k);
    KeyKeeps(e, v);
    SplitLineIs(e);
    if v.k != ENTER { InsertCharIs(e, v.k); }
    var f := InsertKey(e, v.k);
    assert f == if v.k == ENTER then SplitLine(e) else InsertChar(e, v.k);
    ClampLeavesCaret(f);
    WindowDoesNotMatter(f, Clamp(f).top);
  }

  lemma WindowDoesNotMatter(e: Ed, top: nat)
    requires OnText(e)
    ensures Reads(e.(top := top), Before(e), After(e))
  {
  }

  /** Typing a passage puts exactly that passage at the caret, newlines and all,
      with the caret behind it and everything else where it was. */
  lemma {:induction false} TypingInserts(e: Ed, keys: seq<Event>)
    requires Typing(e) && Passage(keys)
    ensures var f := Run(e, keys); Typing(f) && Reads(f, Before(e) + PassageText(keys), After(e))
    decreases |keys|
  {
    hide Clamp, Key, Before, After, Clamped, Inv;
    if keys == [] {
      RunNothing(e);
      ClampedIsFixed(e);
      assert Before(e) + PassageText(keys) == Before(e);
    } else {
      TypeKey(e, keys[0]);
      var f := Run(e, [keys[0]]);
      TypingInserts(f, keys[1..]);
      RunConcat(e, [keys[0]], keys[1..]);
      assert keys == [keys[0]] + keys[1..];
      assert Before(e) + PassageText(keys) == Before(e) + [Typed(keys[0].k)] + PassageText(keys[1..]);
    }
  }

  const ERASE: Event := Event(8, false)

  lemma EraseKey(e: Ed)
    requires Typing(e)
    ensures var f := Run(e, [ERASE]); Typing(f) && Reads(f, Before(e)[..Dec(|Before(e)|)], After(e))
  {
    hide Run, Before, After, Backspace;
    RunOne(e, ERASE);
    InsertKeyStays(e, ERASE.k);
    KeyKeeps(e, ERASE);
    BackspaceIs(e);
    var f := InsertKey(e, ERASE.k);
    assert f == Backspace(e);
    ClampLeavesCaret(f);
    WindowDoesNotMatter(f, Clamp(f).top);
  }

  /** As many backspaces take back as many characters, or all there are. */
  lemma {:induction false} ErasingRemoves(e: Ed, k: nat)
    requires Typing(e)
    ensures var f := Run(e, Times(ERASE, k)); var n := |Before(e)|;
            Typing(f) && Reads(f, Before(e)[..if k < n then n - k else 0], After(e))
    decreases k
  {
    hide Clamp, Key, Before, After, Clamped, Inv;
    if k == 0 {
      RunNothing(e);
      ClampedIsFixed(e);
      assert Before(e)[..|Before(e)|] == Before(e);
    } else {
      EraseKey(e);
      var f := Run(e, [ERASE]);
      ErasingRemoves(f, k - 1);
      RunConcat(e, [ERASE], Times(ERASE, k - 1));
    }
  }

  /** A passage typed and erased again leaves the file that would be saved, and
      the caret in it, as they were: by the keys alone, without undo. */
  lemma TypedThenErased(e: Ed, keys: seq<Event>)
    requires Typing(e) && Passage(keys)
    ensures var f := Run(e, keys + Times(ERASE, |keys|));
            Typing(f) && Reads(f, Before(e), After(e)) && SaveText(f.lines) == SaveText(e.lines)
  {
    hide Run, Before, After, Clamped, Inv, SaveText;
    TypingInserts(e, keys);
    var g := Run(e, keys);
    ErasingRemoves(g, |keys|);
    RunConcat(e, keys, Times(ERASE, |keys|));
    var f := Run(e, keys + Times(ERASE, |keys|));
    assert (Before(e) + PassageText(keys))[..|Before(e)|] == Before(e);
    SavedIsText(e);
    SavedIsText(f);
  }

  // ----- words -----

  lemma {:induction false} ForwardStops(line: Text, i: nat, white: bool)
    requires i <= |line|
    ensures var j := Forward(line, i, white);
            && (forall k | i <= k < j :: IsWhitespace(line[k]) == white)
            && (j < |line| ==> IsWhitespace(line[j]) != white)
    decreases |line| - i
  {
    hide IsWhitespace;
    if i < |line| && IsWhitespace(line[i]) == white { ForwardStops(line, i + 1, white); }
  }

  lemma {:induction false} SpaceStops(line: Text, i: nat)
    requires i < |line|
    ensures var j := BackOverSpace(line, i);
            (forall k | j < k <= i :: IsWhitespace(line[k])) && (j > 0 ==> !IsWhitespace(line[j]))
  {
    hide IsWhitespace;
    if i > 0 && IsWhitespace(line[i]) { SpaceStops(line, i - 1); }
  }

  lemma {:induction false} WordStops(line: Text, i: nat)
    requires i <= |line|
    ensures var j := BackOverWord(line, i);
            (forall k | j <= k < i :: !IsWhitespace(line[k])) && (j > 0 ==> IsWhitespace(line[j - 1]))
  {
    hide IsWhitespace;
    if i > 0 && !IsWhitespace(line[i - 1]) { WordStops(line, i - 1); }
  }

  /** Where `w` lands: behind the rest of the word it is on and the blanks after
      it, on the next character that is not blank; at the end of a line, on the
      next one. */
  lemma WordForwardLands(e: Ed)
    requires OnText(e)
    ensures var f := WordForward(e); var line := e.lines[e.cy];
            if f.cy == e.cy then
              && e.cx <= f.cx <= |line|
              && (f.cx < |line| ==> e.cx < f.cx && IsWhitespace(line[f.cx - 1]) && !IsWhitespace(line[f.cx]))
              && (forall i, j | e.cx <= i <= j < f.cx :: IsWhitespace(line[i]) ==> IsWhitespace(line[j]))
              && (f.cx == |line| ==> e.cy + 1 == |e.lines|)
            else
              && f.cy == e.cy + 1 && f.cx == 0
              && (forall i, j | e.cx <= i <= j < |line| :: IsWhitespace(line[i]) ==> IsWhitespace(line[j]))
  {
    hide IsWhitespace, Forward;
    var line := e.lines[e.cy];
    ForwardStops(line, e.cx, false);
    ForwardStops(line, Forward(line, e.cx, false), true);
  }

  /** Where `b` lands inside a line: on a character that starts a word, no word
      starting between it and the cursor; or at the front of the line. */
  lemma WordBackLands(e: Ed)
    requires OnText(e) && e.cx > 0
    ensures var f := WordBack(e); var line := e.lines[e.cy];
            && f.cy == e.cy && f.cx < e.cx
            && (f.cx > 0 ==> !IsWhitespace(line[f.cx]) && IsWhitespace(line[f.cx - 1]))
            && (forall i | f.cx < i < e.cx :: IsWhitespace(line[i]) || !IsWhitespace(line[i - 1]))
  {
    hide IsWhitespace, BackOverSpace, BackOverWord;
    var line := e.lines[e.cy];
    SpaceStops(line, e.cx - 1);
    WordStops(line, BackOverSpace(line, e.cx - 1));
  }

  /** At the front of a line `b` goes behind the end of the line above, if there is one. */
  lemma WordBackGoesUp(e: Ed)
    requires OnText(e) && e.cx == 0
    ensures WordBack(e) == if e.cy == 0 then e else e.(cy := e.cy - 1, cx := |e.lines[e.cy - 1]|)
  {
  }
}
