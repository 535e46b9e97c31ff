/**
 The string writer, and a canonical printer of whole values on top of it. The
 source writes strings only; the printer is what its strings and the grammar
 of the parser make of a value with nothing optional in it.
 */
module JsonPrinter {
  import opened Common
  import opened Utf8
  import opened JsonGrammar

  function HexChar(d: nat): Scalar
    requires d < 16
  {
    if d < 10 then 0x30 + d else 0x61 + d - 10
  }

  /** How one character is written inside a string. */
  function EscapeChar(c: Scalar): Text {
    if c == QUOTE then [BACKSLASH, QUOTE]
    else if c == BACKSLASH then [BACKSLASH, BACKSLASH]
    else if c == 10 then [BACKSLASH, 0x6E]
    else if c == 13 then [BACKSLASH, 0x72]
    else if c == 9 then [BACKSLASH, 0x74]
    else if c < 0x20 then
      [BACKSLASH, 0x75, HexChar(c / 0x1000 % 16), HexChar(c / 0x100 % 16), HexChar(c / 0x10 % 16), HexChar(c % 16)]
    else [c]
  }

  /** A quote and a backslash get a backslash; newline, return and tab their letter;
      the other characters below 32 two hexadecimal digits behind `\u00`; the rest
      stand for themselves. */
  lemma EscapeIs(c: Scalar)
    ensures c == 0x22 || c == 0x5C ==> EscapeChar(c) == [0x5C, c]
    ensures c in [10, 13, 9] ==> EscapeChar(c) == [0x5C, if c == 10 then 0x6E else if c == 13 then 0x72 else 0x74]
    ensures c < 32 && c !in [10, 13, 9] ==>
              EscapeChar(c) == [0x5C, 0x75, 0x30, 0x30, 0x30 + c / 16, if c % 16 < 10 then 0x30 + c % 16 else 0x57 + c % 16]
    ensures c >= 32 && c != 0x22 && c != 0x5C ==> EscapeChar(c) == [c]
  {
    if c < 32 {
      assert c / 0x1000 == 0 && c / 0x100 == 0;
      assert c / 0x10 % 16 == c / 16 < 2;
    }
  }

  function EscapeAll(s: Text): Text {
    if s == [] then [] else EscapeChar(s[0]) + EscapeAll(s[1..])
  }

  function Quoted(s: Text): Text {
    [QUOTE] + (EscapeAll(s) + [QUOTE])
  }

  lemma {:induction false} EscapeAllConcat(s: Text, t: Text)
    ensures EscapeAll(s + t) == EscapeAll(s) + EscapeAll(t)
  {
    if s == [] {
      assert s + t == t;
    } else {
      assert (s + t)[1..] == s[1..] + t;
      EscapeAllConcat(s[1..], t);
    }
  }

  /** One character, escaped, appended to `out`. */
  method PushEscaped(out: Text, c: Scalar) returns (r: Text)
    ensures r == out + EscapeChar(c)
  {
    if c == QUOTE {
      r := out + [BACKSLASH, QUOTE];
    } else if c == BACKSLASH {
      r := out + [BACKSLASH, BACKSLASH];
    } else if c == 10 {
      r := out + [BACKSLASH, 0x6E];
    } else if c == 13 {
      r := out + [BACKSLASH, 0x72];
    } else if c == 9 {
      r := out + [BACKSLASH, 0x74];
    } else if c < 0x20 {
      r := out + [BACKSLASH, 0x75];
      var shifts := [0x1000, 0x100, 0x10, 1];
      var k := 0;
      while k < 4
        invariant 0 <= k <= 4 && r == out + EscapeChar(c)[..2 + k]
      {
        r := r + [HexChar(c / shifts[k] % 16)];
        assert EscapeChar(c)[..2 + k] + [EscapeChar(c)[2 + k]] == EscapeChar(c)[..2 + k + 1];
        k := k + 1;
      }
      assert EscapeChar(c)[..6] == EscapeChar(c);
    } else {
      r := out + [c];
    }
  }

  /** `write_str`: `s` quoted and escaped, appended to `out`. */
  method WriteStr(out: Text, s: Text) returns (r: Text)
    ensures r == out + Quoted(s)
  {
    r := out + [QUOTE];
    var k := 0;
    while k < |s|
      invariant 0 <= k <= |s| && r == out + ([QUOTE] + EscapeAll(s[..k]))
    {
      r := PushEscaped(r, s[k]);
      EscapeAllNext(s, k);
      k := k + 1;
    }
    assert s[..k] == s;
    r := r + [QUOTE];
  }

  lemma EscapeAllNext(s: Text, k: nat)
    requires k < |s|
    ensures EscapeAll(s[..k + 1]) == EscapeAll(s[..k]) + EscapeChar(s[k])
  {
    assert s[..k + 1] == s[..k] + [s[k]];
    EscapeAllConcat(s[..k], [s[k]]);
    assert EscapeAll([s[k]]) == EscapeChar(s[k]);
  }

  /** No character below 32 is ever written, the rule a receiver enforces. */
  lemma {:induction false} NothingBelow32(s: Text)
    ensures forall k | 0 <= k < |Quoted(s)| :: Quoted(s)[k] >= 32
    ensures forall k | 0 <= k < |EscapeAll(s)| :: EscapeAll(s)[k] >= 32
    decreases |s|
  {
    hide EscapeChar;
    if s != [] {
      EscapeIs(s[0]);
      NothingBelow32(s[1..]);
    }
  }

  // ----- whole values -----

  function Print(v: Json): Text
    decreases v, 1
  {
    match v
    case Null => Latin1(NULL)
    case Bool(b) => if b then Latin1(TRUE) else Latin1(FALSE)
    case Num(t) => t
    case Str(s) => Quoted(s)
    case Arr(xs) => if xs == [] then [LBRACKET, RBRACKET] else [LBRACKET] + PrintItems(xs)
    case Obj(es) => if es == [] then [LBRACE, RBRACE] else [LBRACE] + PrintEntries(es)
  }

  /** Items with commas between them, and the closing bracket. */
  function PrintItems(xs: seq<Json>): Text
    requires xs != []
    decreases xs, 0
  {
    if |xs| == 1 then Print(xs[0]) + [RBRACKET]
    else Print(xs[0]) + ([COMMA] + PrintItems(xs[1..]))
  }

  /** A key, a colon and a value. */
  function PrintMember(e: Entry): Text
    decreases e, 2
  {
    Quoted(e.key) + ([COLON] + Print(e.value))
  }

  /** Members with commas between them, and the closing brace. */
  function PrintEntries(es: seq<Entry>): Text
    requires es != []
    decreases es, 0
  {
    if |es| == 1 then PrintMember(es[0]) + [RBRACE]
    else PrintMember(es[0]) + ([COMMA] + PrintEntries(es[1..]))
  }

  // ----- which values can come back -----

  /** How deep the containers of a value nest. */
  function Depth(v: Json): nat
    decreases v, 1
  {
    match v
    case Arr(xs) => 1 + ItemsDepth(xs)
    case Obj(es) => 1 + EntriesDepth(es)
    case _ => 0
  }

  function Deeper(a: nat, b: nat): nat { if a < b then b else a }

  function ItemsDepth(xs: seq<Json>): nat
    decreases xs, 0
  {
    if xs == [] then 0 else Deeper(Depth(xs[0]), ItemsDepth(xs[1..]))
  }

  function EntriesDepth(es: seq<Entry>): nat
    decreases es, 0
  {
    if es == [] then 0 else Deeper(Depth(es[0].value), EntriesDepth(es[1..]))
  }

  /** A token `number` accepts: an optional minus, then at least one byte of the
      digits, points, exponents and signs. */
  predicate NumberToken(t: Text) {
    |t| > 0 && (forall k | 0 <= k < |t| :: IsNumByte(t[k])) && (t[0] == MINUS ==> |t| > 1)
  }

  predicate NumbersOk(v: Json)
    decreases v, 1
  {
    match v
    case Num(t) => NumberToken(t)
    case Arr(xs) => ItemNumbersOk(xs)
    case Obj(es) => EntryNumbersOk(es)
    case _ => true
  }

  predicate ItemNumbersOk(xs: seq<Json>)
    decreases xs, 0
  {
    xs == [] || (NumbersOk(xs[0]) && ItemNumbersOk(xs[1..]))
  }

  predicate EntryNumbersOk(es: seq<Entry>)
    decreases es, 0
  {
    es == [] || (NumbersOk(es[0].value) && EntryNumbersOk(es[1..]))
  }
}
