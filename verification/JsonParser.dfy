/** The parser as written: a cursor and a depth, moved by its methods. */
module JsonParser {
  import opened Common
  import opened Utf8
  import opened JsonGrammar

  /** Two answers agree: nothing, or the same thing with the cursor at its end. */
  ghost predicate Agrees<T>(spec: Option<(T, nat)>, r: Option<T>, i: nat) {
    match spec
    case None => r.None?
    case Some((v, j)) => r == Some(v) && i == j
  }

  /** A run of answers collected so far, and what is still to come, make up the
      answer of the whole run. */
  ghost predicate Continuing<T>(whole: Option<(seq<T>, nat)>, out: seq<T>, rest: Option<(seq<T>, nat)>) {
    match rest
    case None => whole.None?
    case Some((xs, j)) => whole == Some((out + xs, j))
  }

  class Parser {
    const b: Bytes
    var i: nat
    var depth: nat

    ghost predicate Valid()
      reads this
    {
      i <= |b|
    }

    constructor (b: Bytes)
      ensures this.b == b && i == 0 && depth == 0
    {
      this.b := b;
      i := 0;
      depth := 0;
    }

    method Ws()
      requires Valid()
      modifies this`i
      ensures Valid() && i == SkipSpace(b, old(i))
    {
      while i < |b| && IsSpace(b[i])
        invariant i <= |b| && SkipSpace(b, old(i)) == SkipSpace(b, i)
      {
        i := i + 1;
      }
    }

    method Eat(lit: Bytes) returns (ate: bool)
      requires Valid()
      modifies this`i
      ensures Valid() && ate == HasAt(b, old(i), lit)
      ensures i == if ate then old(i) + |lit| else old(i)
    {
      if i + |lit| <= |b| && b[i..i + |lit|] == lit {
        i := i + |lit|;
        return true;
      }
      return false;
    }

    method ReadNumber() returns (r: Option<Json>)
      requires Valid() && i < |b|
      modifies this`i
      ensures Valid() && Agrees(Number(b, old(i)), r, i)
    {
      var start := i;
      if i < |b| && b[i] == MINUS {
        i := i + 1;
      }
      var digits := i;
      while i < |b| && IsNumByte(b[i])
        invariant digits <= i <= |b| && NumEnd(b, digits) == NumEnd(b, i)
      {
        i := i + 1;
      }
      if i == digits {
        return None;
      }
      return Some(Num(Latin1(b[start..i])));
    }

    method ReadHex4() returns (r: Option<nat>)
      requires Valid()
      modifies this`i
      ensures Valid() && Agrees(Hex4(b, old(i)), r, i)
    {
      if i + 4 > |b| {
        return None;
      }
      var start := i;
      var v := 0;
      var k := 0;
      while k < 4
        invariant 0 <= k <= 4 && i == start + k <= |b| && HexRun(b, start, k) == Some(v)
        invariant HexRun(b, start, 4).Some? ==> HexRun(b, start, k).Some?
      {
        var d := HexDigit(b[i]);
        if d.None? {
          NoHexNoRun(b, start, k);
          return None;
        }
        v := v * 16 + d.value;
        i := i + 1;
        k := k + 1;
      }
      return Some(v);
    }

    /** What follows a backslash. */
    method ReadEscape() returns (r: Option<Scalar>)
      requires Valid()
      modifies this`i
      ensures Valid() && Agrees(Escaped(b, old(i)), r, i)
    {
      if i >= |b| {
        return None;
      }
      var c := b[i];
      i := i + 1;
      if c != 0x75 {
        r := ShortEscape(c);
        return;
      }
      var hi := ReadHex4();
      if hi.None? {
        return None;
      }
      if IsHigh(hi.value) {
        var pair := Eat(BACKSLASH_U);
        if !pair {
          return None;
        }
        var lo := ReadHex4();
        if lo.None? || !IsLow(lo.value) {
          return None;
        }
        return Some(0x10000 + (hi.value - 0xD800) * 0x400 + (lo.value - 0xDC00));
      }
      return if IsLow(hi.value) then None else Some(hi.value);
    }

    /** The body of the loop of `string` for one character: an escape, or a UTF-8
        sequence copied whole. */
    method ReadChar() returns (r: Option<Scalar>)
      requires Valid() && i < |b|
      modifies this`i
      ensures Valid() && Agrees(StrChar(b, old(i)), r, i)
    {
      hide DecodeChar;
      if b[i] == BACKSLASH {
        i := i + 1;
        r := ReadEscape();
        return;
      }
      var rest := Decode(b[i..]);
      if rest.None? {
        return None;
      }
      var ch := rest.value[0];
      EncodeDecodedChar(b[i..]);
      i := i + |EncodeChar(ch)|;
      return Some(ch);
    }

    method ReadString() returns (r: Option<Text>)
      requires Valid() && i < |b|
      modifies this`i
      ensures Valid() && Agrees(StrBody(b, old(i) + 1), r, i)
    {
      hide StrChar;
      i := i + 1;
      ghost var start := i;
      var out: Text := [];
      Begin(StrBody(b, start));
      while true
        invariant Valid() && i >= start
        invariant Continuing(StrBody(b, start), out, StrBody(b, i))
        decreases |b| - i
      {
        ghost var at := i;
        if i >= |b| {
          return None;
        }
        if b[i] == QUOTE {
          i := i + 1;
          assert out + [] == out;
          return Some(out);
        }
        var ch := ReadChar();
        if ch.None? {
          return None;
        }
        StepStr(b, start, at, i, out, ch.value);
        out := out + [ch.value];
      }
    }

    method ReadValue() returns (r: Option<Json>)
      requires Valid()
      modifies this
      ensures Valid() && Agrees(Value(b, old(i), old(depth)), r, i)
      ensures r.Some? ==> depth == old(depth)
      decreases |b| - i, 1
    {
      if i >= |b| {
        return None;
      }
      var c := b[i];
      if c == 0x6E {
        var ok := Eat(NULL);
        return if ok then Some(Null) else None;
      } else if c == 0x74 {
        var ok := Eat(TRUE);
        return if ok then Some(Bool(true)) else None;
      } else if c == 0x66 {
        var ok := Eat(FALSE);
        return if ok then Some(Bool(false)) else None;
      } else if c == QUOTE {
        var s := ReadString();
        return if s.Some? then Some(Str(s.value)) else None;
      } else if c == LBRACKET {
        r := ReadArray();
      } else if c == LBRACE {
        r := ReadObject();
      } else {
        r := ReadNumber();
      }
    }

    method ReadArray() returns (r: Option<Json>)
      requires Valid() && i < |b|
      modifies this
      ensures Valid() && Agrees(Array(b, old(i), old(depth)), r, i)
      ensures r.Some? ==> depth == old(depth)
      decreases |b| - i, 0
    {
      depth := depth + 1;
      if depth > MAX_DEPTH {
        return None;
      }
      i := i + 1;
      Ws();
      if i < |b| && b[i] == RBRACKET {
        i := i + 1;
        depth := depth - 1;
        return Some(Arr([]));
      }
      var out := ReadItems();
      if out.None? {
        return None;
      }
      depth := depth - 1;
      return Some(Arr(out.value));
    }

    /** The loop of `array`: items and the closing bracket. */
    method ReadItems() returns (r: Option<seq<Json>>)
      requires Valid()
      modifies this
      ensures Valid() && Agrees(Items(b, old(i), old(depth)), r, i)
      ensures r.Some? ==> depth == old(depth)
      decreases |b| - i, 3
    {
      hide Value, SkipSpace;
      var out: seq<Json> := [];
      Begin(Items(b, i, depth));
      while true
        invariant Valid() && old(i) <= i && depth == old(depth)
        invariant Continuing(Items(b, old(i), depth), out, Items(b, i, depth))
        decreases |b| - i
      {
        Ws();
        var v := ReadValue();
        if v.None? {
          return None;
        }
        ghost var before := out;
        out := out + [v.value];
        Ws();
        if i >= |b| {
          return None;
        }
        if b[i] == COMMA {
          i := i + 1;
          Shift(Items(b, old(i), depth), before, v.value, Items(b, i, depth));
        } else if b[i] == RBRACKET {
          i := i + 1;
          return Some(out);
        } else {
          return None;
        }
      }
    }

    /** A key, a colon and a value. */
    method ReadMember() returns (r: Option<Entry>)
      requires Valid()
      modifies this
      ensures Valid() && Agrees(Member(b, old(i), old(depth)), r, i)
      ensures r.Some? ==> depth == old(depth)
      decreases |b| - i, 2
    {
      if i >= |b| || b[i] != QUOTE {
        return None;
      }
      var k := ReadString();
      if k.None? {
        return None;
      }
      Ws();
      if i >= |b| || b[i] != COLON {
        return None;
      }
      i := i + 1;
      Ws();
      var v := ReadValue();
      return if v.None? then None else Some(Entry(k.value, v.value));
    }

    method ReadObject() returns (r: Option<Json>)
      requires Valid() && i < |b|
      modifies this
      ensures Valid() && Agrees(Object(b, old(i), old(depth)), r, i)
      ensures r.Some? ==> depth == old(depth)
      decreases |b| - i, 0
    {
      depth := depth + 1;
      if depth > MAX_DEPTH {
        return None;
      }
      i := i + 1;
      Ws();
      if i < |b| && b[i] == RBRACE {
        i := i + 1;
        depth := depth - 1;
        return Some(Obj([]));
      }
      var out := ReadEntries();
      if out.None? {
        return None;
      }
      depth := depth - 1;
      return Some(Obj(out.value));
    }

    /** The loop of `object`: members and the closing brace. */
    method ReadEntries() returns (r: Option<seq<Entry>>)
      requires Valid()
      modifies this
      ensures Valid() && Agrees(Entries(b, old(i), old(depth)), r, i)
      ensures r.Some? ==> depth == old(depth)
      decreases |b| - i, 3
    {
      hide Member, SkipSpace;
      var out: seq<Entry> := [];
      Begin(Entries(b, i, depth));
      while true
        invariant Valid() && old(i) <= i && depth == old(depth)
        invariant Continuing(Entries(b, old(i), depth), out, Entries(b, i, depth))
        decreases |b| - i
      {
        Ws();
        var v := ReadMember();
        if v.None? {
          return None;
        }
        ghost var before := out;
        out := out + [v.value];
        Ws();
        if i >= |b| {
          return None;
        }
        if b[i] == COMMA {
          i := i + 1;
          Shift(Entries(b, old(i), depth), before, v.value, Entries(b, i, depth));
        } else if b[i] == RBRACE {
          i := i + 1;
          return Some(out);
        } else {
          return None;
        }
      }
    }
  }

  lemma Begin<T>(whole: Option<(seq<T>, nat)>)
    ensures Continuing(whole, [], whole)
  {
    if whole.Some? { assert [] + whole.value.0 == whole.value.0; }
  }

  lemma {:induction false} NoHexNoRun(b: Bytes, i: nat, k: nat)
    requires i + 4 <= |b| && k < 4 && HexDigit(b[i + k]).None?
    ensures HexRun(b, i, 4).None?
  {
    assert HexRun(b, i, k + 1).None?;
    if k + 1 < 4 { assert HexRun(b, i, k + 2).None?; }
    if k + 2 < 4 { assert HexRun(b, i, k + 3).None?; }
  }

  lemma Shift<T>(whole: Option<(seq<T>, nat)>, out: seq<T>, v: T, rest: Option<(seq<T>, nat)>)
    requires match rest
             case None => whole.None?
             case Some((xs, j)) => whole == Some((out + ([v] + xs), j))
    ensures Continuing(whole, out + [v], rest)
  {
    if rest.Some? { assert out + ([v] + rest.value.0) == out + [v] + rest.value.0; }
  }

  lemma StepStr(b: Bytes, start: nat, at: nat, next: nat, out: Text, c: Scalar)
    requires start <= at < |b| && b[at] != QUOTE && StrChar(b, at) == Some((c, next))
    requires Continuing(StrBody(b, start), out, StrBody(b, at))
    ensures Continuing(StrBody(b, start), out + [c], StrBody(b, next))
  {
    hide StrChar;
    var rest := StrBody(b, next);
    if rest.Some? { assert out + ([c] + rest.value.0) == out + [c] + rest.value.0; }
  }

  /** `Json::parse`. */
  method Parse(src: Text) returns (r: Option<Json>)
    ensures r == Document(Encode(src))
  {
    var b := Encode(src);
    var p := new Parser(b);
    p.Ws();
    var v := p.ReadValue();
    if v.None? {
      return None;
    }
    p.Ws();
    if p.i != |b| {
      return None;
    }
    return v;
  }
}
