/** Printing and parsing are inverse, exactly where the depth bound lets them be. */
module JsonProofs {
  import opened Common
  import opened Utf8
  import opened JsonGrammar
  import opened JsonPrinter
  import opened JsonSyntax
  import opened JsonReads

  // ----- what is printed is a tree without gaps -----

  lemma AsciiIsItself(t: Text)
    requires forall k | 0 <= k < |t| :: t[k] < 0x80
    ensures |Encode(t)| == |t| && forall k | 0 <= k < |t| :: Encode(t)[k] == t[k]
  {
    var b: Bytes := seq(|t|, k requires 0 <= k < |t| => t[k]);
    EncodeAscii(b);
    assert Latin1(b) == t;
  }

  lemma OneIsItself(c: Byte, t: Text)
    requires c < 0x80
    ensures Encode([c] + t) == [c] + Encode(t)
  {
    EncodeConcat([c], t);
    AsciiIsItself([c]);
    assert Encode([c]) == [c];
  }

  /** The piece the writer makes of a character. */
  function Written(c: Scalar): Piece {
    if c == QUOTE || c == BACKSLASH then Letter(c)
    else if c == 10 then Letter(0x6E)
    else if c == 13 then Letter(0x72)
    else if c == 9 then Letter(0x74)
    else if c < 0x20 then Unit(Hex(0x30, 0x30, HexChar(c / 16), HexChar(c % 16)))
    else Plain(c)
  }

  function WrittenBody(s: Text): Body {
    if s == [] then [] else [Written(s[0])] + WrittenBody(s[1..])
  }

  function WrittenTree(v: Json): Tree
    decreases v, 1
  {
    match v
    case Null => TNull
    case Bool(b) => if b then TTrue else TFalse
    case Num(t) => TNumber(Encode(t))
    case Str(s) => TString(WrittenBody(s))
    case Arr(xs) => if xs == [] then TEmptyArray([]) else TArray(WrittenItems(xs))
    case Obj(es) => if es == [] then TEmptyObject([]) else TObject(WrittenMembers(es))
  }

  function WrittenItems(xs: seq<Json>): ItemList
    requires xs != []
    decreases xs, 0
  {
    ItemList([], WrittenTree(xs[0]), [], if |xs| == 1 then None else Some(WrittenItems(xs[1..])))
  }

  function WrittenMembers(es: seq<Entry>): MemberList
    requires es != []
    decreases es, 0
  {
    MemberList([], WrittenBody(es[0].key), [], [], WrittenTree(es[0].value), [],
               if |es| == 1 then None else Some(WrittenMembers(es[1..])))
  }

  lemma HexBack(d: nat)
    requires d < 16
    ensures 0 <= HexChar(d) < 0x80 && Nibble(HexChar(d)) == d
  {
  }

  lemma PieceIsWritten(c: Scalar)
    ensures PieceOk(Written(c)) && PieceMeaning(Written(c)) == c
    ensures Encode(EscapeChar(c)) == SpellPiece(Written(c))
  {
    hide Encode, EncodeChar;
    var e := EscapeChar(c);
    if c == QUOTE || c == BACKSLASH || c == 10 || c == 13 || c == 9 {
      AsciiIsItself(e);
      assert Encode(e) == SpellPiece(Written(c));
    } else if c < 0x20 {
      ControlIsWritten(c);
    } else {
      EncodeOne(c);
    }
  }

  lemma ControlIsWritten(c: Scalar)
    requires c < 0x20 && c !in [10, 13, 9]
    ensures PieceOk(Written(c)) && PieceMeaning(Written(c)) == c
    ensures Encode(EscapeChar(c)) == SpellPiece(Written(c))
  {
    hide Encode, Nibble, HexChar;
    HexBack(0);
    HexBack(c / 16);
    HexBack(c % 16);
    ZeroIs();
    assert c / 0x1000 % 16 == 0 && c / 0x100 % 16 == 0 && c / 0x10 % 16 == c / 16;
    AsciiIsItself(EscapeChar(c));
    assert Encode(EscapeChar(c)) == SpellPiece(Written(c));
  }

  lemma ZeroIs()
    ensures HexChar(0) == 0x30
  {
  }

  lemma EncodeOne(c: Scalar)
    ensures Encode([c]) == EncodeChar(c)
  {
    assert [c][1..] == [] && Encode([c]) == EncodeChar(c) + [];
  }

  lemma {:induction false} BodyIsWritten(s: Text)
    ensures BodyOk(WrittenBody(s)) && BodyMeaning(WrittenBody(s)) == s
    ensures Encode(EscapeAll(s) + [QUOTE]) == SpellBody(WrittenBody(s))
    decreases |s|
  {
    hide Written, EscapeChar, PieceOk, PieceMeaning, SpellPiece, Encode;
    if s == [] {
      EncodeNothing();
      OneIsItself(QUOTE, []);
      assert EscapeAll(s) + [QUOTE] == [QUOTE] + [];
    } else {
      BodyBytes(s);
      PieceIsWritten(s[0]);
      BodyIsWritten(s[1..]);
      assert WrittenBody(s)[1..] == WrittenBody(s[1..]);
      assert s == [s[0]] + s[1..];
    }
  }

  lemma BodyBytes(s: Text)
    requires s != []
    ensures Encode(EscapeAll(s) + [QUOTE]) == Encode(EscapeChar(s[0])) + Encode(EscapeAll(s[1..]) + [QUOTE])
  {
    hide Encode, EscapeChar;
    var rest := EscapeAll(s[1..]) + [QUOTE];
    assert EscapeAll(s) + [QUOTE] == EscapeChar(s[0]) + rest;
    EncodeConcat(EscapeChar(s[0]), rest);
  }

  lemma StringIsWritten(s: Text)
    ensures BodyOk(WrittenBody(s)) && BodyMeaning(WrittenBody(s)) == s
    ensures Encode(Quoted(s)) == SpellString(WrittenBody(s))
  {
    OneIsItself(QUOTE, EscapeAll(s) + [QUOTE]);
    BodyIsWritten(s);
  }

  lemma TokenIsWritten(t: Text)
    requires NumberToken(t)
    ensures TokenOk(Encode(t)) && Latin1(Encode(t)) == t
  {
    hide Encode;
    AsciiIsItself(t);
    assert forall k | 0 <= k < |t| :: IsNumByte(t[k]);
    assert Encode(t)[0] == t[0];
  }

  /** A printed value is a tree of that value, as deep as it. */
  lemma {:induction false} ValueIsWritten(v: Json)
    requires NumbersOk(v)
    ensures var x := WrittenTree(v); TreeOk(x) && Meaning(x) == v && Levels(x) == Depth(v) && Encode(Print(v)) == Spell(x)
    decreases v, 1
  {
    hide Encode, WrittenBody, SpellString, BodyOk, BodyMeaning, NumberToken, TokenOk, Quoted, WrittenItems, WrittenMembers,
         SpellItems, SpellMembers, ItemsOk, MembersOk, ItemsMeaning, MembersMeaning, ItemLevels, MemberLevels,
         PrintItems, PrintEntries, ItemsDepth, EntriesDepth, ItemNumbersOk, EntryNumbersOk;
    match v
    case Null => EncodeAscii(NULL);
    case Bool(b) => EncodeAscii(TRUE); EncodeAscii(FALSE);
    case Num(t) => TokenIsWritten(t);
    case Str(s) => StringIsWritten(s);
    case Arr(xs) =>
      if xs == [] {
        PairIsWritten(LBRACKET, RBRACKET);
      } else {
        ItemsAreWritten(xs);
        OneIsItself(LBRACKET, PrintItems(xs));
      }
    case Obj(es) =>
      if es == [] {
        PairIsWritten(LBRACE, RBRACE);
      } else {
        EntriesAreWritten(es);
        OneIsItself(LBRACE, PrintEntries(es));
      }
  }

  lemma PairIsWritten(open: Byte, close: Byte)
    requires open < 0x80 && close < 0x80
    ensures Encode([open, close]) == [open] + ([] + [close])
    ensures ItemsDepth([]) == 0 && EntriesDepth([]) == 0
  {
    AsciiIsItself([open, close]);
  }

  /** Items without gaps. */
  lemma NoItemGaps(x: Tree, more: Option<ItemList>)
    ensures SpellItems(ItemList([], x, [], more))
         == Spell(x) + (match more case None => [0x5D] case Some(rest) => [0x2C] + SpellItems(rest))
  {
    hide Spell;
  }

  lemma {:induction false} ItemsAreWritten(xs: seq<Json>)
    requires xs != [] && ItemNumbersOk(xs)
    ensures var x := WrittenItems(xs);
            ItemsOk(x) && ItemsMeaning(x) == xs && ItemLevels(x) == ItemsDepth(xs) && Encode(PrintItems(xs)) == SpellItems(x)
    decreases xs, 0
  {
    hide Encode, WrittenTree, TreeOk, Meaning, Levels, Depth, Print, Spell, NumbersOk;
    ValueIsWritten(xs[0]);
    var rest := if |xs| == 1 then [RBRACKET] else [COMMA] + PrintItems(xs[1..]);
    EncodeConcat(Print(xs[0]), rest);
    NoItemGaps(WrittenItems(xs).item, WrittenItems(xs).more);
    hide SpellItems;
    if |xs| == 1 {
      OneIsItself(RBRACKET, []);
      assert Encode(rest) == [RBRACKET] by { assert [RBRACKET] + [] == rest; EncodeNothing(); }
      assert xs == [xs[0]] && ItemsDepth(xs[1..]) == 0;
    } else {
      OneIsItself(COMMA, PrintItems(xs[1..]));
      ItemsAreWritten(xs[1..]);
      assert xs == [xs[0]] + xs[1..];
    }
  }

  lemma EncodeNothing()
    ensures Encode([]) == []
  {
  }

  lemma {:induction false} MemberIsWritten(e: Entry)
    requires NumbersOk(e.value)
    ensures var x := WrittenTree(e.value);
            TreeOk(x) && Meaning(x) == e.value && Levels(x) == Depth(e.value)
            && Encode(PrintMember(e)) == SpellString(WrittenBody(e.key)) + ([0x3A] + Spell(x))
    decreases e, 2
  {
    hide Encode, WrittenTree, TreeOk, Meaning, Levels, Depth, Print, Spell, NumbersOk, SpellString, WrittenBody, Quoted;
    EncodeConcat(Quoted(e.key), [COLON] + Print(e.value));
    StringIsWritten(e.key);
    OneIsItself(COLON, Print(e.value));
    ValueIsWritten(e.value);
  }

  /** A member without gaps. */
  lemma NoGaps(key: Body, x: Tree, more: Option<MemberList>)
    ensures SpellMembers(MemberList([], key, [], [], x, [], more))
         == SpellString(key) + ([0x3A] + Spell(x))
            + (match more case None => [0x7D] case Some(rest) => [0x2C] + SpellMembers(rest))
  {
    hide SpellString, Spell;
    var ms := MemberList([], key, [], [], x, [], more);
    assert SpellMember(ms) == SpellString(key) + ([0x3A] + Spell(x));
  }

  lemma {:induction false} EntriesAreWritten(es: seq<Entry>)
    requires es != [] && EntryNumbersOk(es)
    ensures var x := WrittenMembers(es);
            MembersOk(x) && MembersMeaning(x) == es && MemberLevels(x) == EntriesDepth(es)
            && Encode(PrintEntries(es)) == SpellMembers(x)
    decreases es, 0
  {
    hide Encode, WrittenTree, TreeOk, Meaning, Levels, Depth, PrintMember, Spell, NumbersOk, SpellString, WrittenBody, BodyOk, BodyMeaning;
    MemberIsWritten(es[0]);
    StringIsWritten(es[0].key);
    var rest := if |es| == 1 then [RBRACE] else [COMMA] + PrintEntries(es[1..]);
    var x := WrittenMembers(es);
    EncodeConcat(PrintMember(es[0]), rest);
    NoGaps(x.key, x.value, x.more);
    hide SpellMembers;
    if |es| == 1 {
      OneIsItself(RBRACE, []);
      assert Encode(rest) == [RBRACE] by { assert [RBRACE] + [] == rest; EncodeNothing(); }
      assert es == [es[0]] && EntriesDepth(es[1..]) == 0;
    } else {
      OneIsItself(COMMA, PrintEntries(es[1..]));
      EntriesAreWritten(es[1..]);
      assert es == [es[0]] + es[1..];
    }
  }

  // ----- what the parser returns -----

  lemma NumberIsProper(b: Bytes, i: nat)
    requires i < |b| && Number(b, i).Some?
    ensures Number(b, i).value.0.Num? && NumberToken(Number(b, i).value.0.token)
  {
    var end := Number(b, i).value.1;
    var t := Latin1(b[i..end]);
    forall k | 0 <= k < |t| ensures IsNumByte(t[k]) { assert IsNumByte(b[i + k]); }
  }

  /** Whatever parses keeps the depth bound and holds only accepted tokens. */
  lemma {:induction false} ValueIsProper(b: Bytes, i: nat, d: nat)
    requires i <= |b| && d <= MAX_DEPTH && Value(b, i, d).Some?
    ensures var v := Value(b, i, d).value.0; NumbersOk(v) && Depth(v) + d <= MAX_DEPTH
    decreases |b| - i, 1
  {
    hide Number, NumberToken, SkipSpace, StrBody, Items, Entries;
    if b[i] == LBRACKET {
      var j := SkipSpace(b, i + 1);
      if !(j < |b| && b[j] == RBRACKET) { ItemsAreProper(b, j, d + 1); }
    } else if b[i] == LBRACE {
      var j := SkipSpace(b, i + 1);
      if !(j < |b| && b[j] == RBRACE) { EntriesAreProper(b, j, d + 1); }
    } else if Value(b, i, d) == Number(b, i) {
      NumberIsProper(b, i);
    }
  }

  lemma {:induction false} ItemsAreProper(b: Bytes, i: nat, d: nat)
    requires i <= |b| && d <= MAX_DEPTH && Items(b, i, d).Some?
    ensures var xs := Items(b, i, d).value.0; ItemNumbersOk(xs) && ItemsDepth(xs) + d <= MAX_DEPTH
    decreases |b| - i, 2
  {
    hide SkipSpace, Value, NumbersOk, Depth;
    var at := SkipSpace(b, i);
    ValueIsProper(b, at, d);
    var (v, end) := Value(b, at, d).value;
    var j := SkipSpace(b, end);
    if b[j] == COMMA { ItemsAreProper(b, j + 1, d); }
  }

  lemma {:induction false} EntriesAreProper(b: Bytes, i: nat, d: nat)
    requires i <= |b| && d <= MAX_DEPTH && Entries(b, i, d).Some?
    ensures var es := Entries(b, i, d).value.0; EntryNumbersOk(es) && EntriesDepth(es) + d <= MAX_DEPTH
    decreases |b| - i, 2
  {
    hide StrBody, SkipSpace, Value, NumbersOk, Depth;
    var at := SkipSpace(b, i);
    var (key, end) := StrBody(b, at + 1).value;
    ValueIsProper(b, SkipSpace(b, SkipSpace(b, end) + 1), d);
    var (e, after) := Member(b, at, d).value;
    var j := SkipSpace(b, after);
    if b[j] == COMMA { EntriesAreProper(b, j + 1, d); }
  }

  // ----- the theorems -----

  /** Printing a value and parsing it gives the value back when its containers
      nest no deeper than the bound, and nothing when they do. */
  lemma PrintThenParse(v: Json)
    requires NumbersOk(v)
    ensures Document(Encode(Print(v))) == if Depth(v) <= MAX_DEPTH then Some(v) else None
  {
    hide Decode, Encode, Print, Document, TreeOk, Meaning, Levels, Depth, Spell, NumbersOk, WrittenTree;
    DecodeEncoded(Print(v));
    ValueIsWritten(v);
    var t := Doc([], WrittenTree(v), []);
    assert SpellDoc(t) == Encode(Print(v));
    DocReads(t);
  }

  /** Exactly which values survive the round trip. */
  lemma RoundTripIff(v: Json)
    ensures Document(Encode(Print(v))) == Some(v) <==> NumbersOk(v) && Depth(v) <= MAX_DEPTH
  {
    var b := Encode(Print(v));
    if Document(b) == Some(v) {
      ValueIsProper(b, SkipSpace(b, 0), 0);
    }
    if NumbersOk(v) {
      PrintThenParse(v);
    }
  }

  /** Printing tells apart every two values that survive. */
  lemma PrintIsInjective(v: Json, w: Json)
    requires NumbersOk(v) && NumbersOk(w) && Depth(v) <= MAX_DEPTH && Depth(w) <= MAX_DEPTH
    requires Print(v) == Print(w)
    ensures v == w
  {
    PrintThenParse(v);
    PrintThenParse(w);
  }

  /** What `write_str` produces parses back to exactly the string. */
  lemma WrittenStringParses(s: Text)
    ensures Document(Encode(Quoted(s))) == Some(Str(s))
  {
    PrintThenParse(Str(s));
  }

  // ----- character boundaries -----

  lemma {:induction false} SpaceKeepsBoundary(b: Bytes, i: nat)
    requires Valid(b) && i <= |b| && Boundary(b, i)
    ensures Boundary(b, SkipSpace(b, i))
    decreases |b| - i
  {
    if i < |b| && IsSpace(b[i]) {
      BoundaryPastAscii(b, i);
      SpaceKeepsBoundary(b, i + 1);
    }
  }

  lemma BoundaryPastAscii(b: Bytes, i: nat)
    requires Valid(b) && i < |b| && b[i] < 0x80
    ensures Boundary(b, i + 1)
  {
    BoundaryAfter(b, i);
    assert b[i..][0] == b[i];
  }

  lemma HexKeepsBoundary(b: Bytes, i: nat)
    requires Valid(b) && Hex4(b, i).Some?
    ensures Boundary(b, i + 4)
  {
    assert HexDigit(b[i + 3]).Some?;
    BoundaryPastAscii(b, i + 3);
  }

  lemma StrCharKeepsBoundary(b: Bytes, i: nat)
    requires Valid(b) && i < |b| && Boundary(b, i) && StrChar(b, i).Some?
    ensures Boundary(b, StrChar(b, i).value.1)
  {
    if b[i] != BACKSLASH {
      BoundaryAfter(b, i);
    } else if b[i + 1] != 0x75 {
      BoundaryPastAscii(b, i + 1);
    } else {
      HexKeepsBoundary(b, i + 2);
      if IsHigh(Hex4(b, i + 2).value.0) { HexKeepsBoundary(b, i + 8); }
    }
  }

  lemma {:induction false} BodyKeepsBoundary(b: Bytes, i: nat)
    requires Valid(b) && i <= |b| && Boundary(b, i) && StrBody(b, i).Some?
    ensures Boundary(b, StrBody(b, i).value.1)
    decreases |b| - i
  {
    if b[i] == QUOTE {
      BoundaryPastAscii(b, i);
    } else {
      StrCharKeepsBoundary(b, i);
      BodyKeepsBoundary(b, StrChar(b, i).value.1);
    }
  }

  /** On a valid document the cursor stands on a character boundary after every
      value, so the check that the rest of the input is valid never fails. */
  lemma {:induction false} ValueKeepsBoundary(b: Bytes, i: nat, d: nat)
    requires Valid(b) && i <= |b| && Boundary(b, i) && Value(b, i, d).Some?
    ensures Boundary(b, Value(b, i, d).value.1)
    decreases |b| - i, 1
  {
    hide SkipSpace, StrBody, Items, Entries, Decode;
    if b[i] == 0x6E {
      LiteralKeepsBoundary(b, i, NULL, Null);
    } else if b[i] == 0x74 {
      LiteralKeepsBoundary(b, i, TRUE, Bool(true));
    } else if b[i] == 0x66 {
      LiteralKeepsBoundary(b, i, FALSE, Bool(false));
    } else if b[i] == QUOTE {
      BoundaryPastAscii(b, i);
      BodyKeepsBoundary(b, i + 1);
    } else if b[i] == LBRACKET {
      ContainerKeepsBoundary(b, i);
      var j := SkipSpace(b, i + 1);
      if b[j] == RBRACKET { BoundaryPastAscii(b, j); } else { ItemsKeepBoundary(b, j, d + 1); }
    } else if b[i] == LBRACE {
      ContainerKeepsBoundary(b, i);
      var j := SkipSpace(b, i + 1);
      if b[j] == RBRACE { BoundaryPastAscii(b, j); } else { EntriesKeepBoundary(b, j, d + 1); }
    } else {
      BoundaryPastAscii(b, Number(b, i).value.1 - 1);
    }
  }

  lemma LiteralKeepsBoundary(b: Bytes, i: nat, lit: Bytes, v: Json)
    requires Valid(b) && |lit| > 0 && (forall k | 0 <= k < |lit| :: lit[k] < 0x80) && Literal(b, i, lit, v).Some?
    ensures Boundary(b, i + |lit|)
  {
    assert b[i..i + |lit|][|lit| - 1] == b[i + |lit| - 1];
    BoundaryPastAscii(b, i + |lit| - 1);
  }

  lemma ContainerKeepsBoundary(b: Bytes, i: nat)
    requires Valid(b) && i < |b| && b[i] < 0x80
    ensures Boundary(b, SkipSpace(b, i + 1))
  {
    BoundaryPastAscii(b, i);
    SpaceKeepsBoundary(b, i + 1);
  }

  lemma {:induction false} ItemsKeepBoundary(b: Bytes, i: nat, d: nat)
    requires Valid(b) && i <= |b| && Boundary(b, i) && Items(b, i, d).Some?
    ensures Boundary(b, Items(b, i, d).value.1)
    decreases |b| - i, 2
  {
    hide SkipSpace, Value, Decode;
    var at := SkipSpace(b, i);
    SpaceKeepsBoundary(b, i);
    ValueKeepsBoundary(b, at, d);
    var end := Value(b, at, d).value.1;
    SpaceKeepsBoundary(b, end);
    var j := SkipSpace(b, end);
    BoundaryPastAscii(b, j);
    if b[j] == COMMA { ItemsKeepBoundary(b, j + 1, d); }
  }

  lemma {:induction false} EntriesKeepBoundary(b: Bytes, i: nat, d: nat)
    requires Valid(b) && i <= |b| && Boundary(b, i) && Entries(b, i, d).Some?
    ensures Boundary(b, Entries(b, i, d).value.1)
    decreases |b| - i, 2
  {
    hide SkipSpace, Value, Decode, StrBody;
    var at := SkipSpace(b, i);
    SpaceKeepsBoundary(b, i);
    BoundaryPastAscii(b, at);
    BodyKeepsBoundary(b, at + 1);
    var end := StrBody(b, at + 1).value.1;
    SpaceKeepsBoundary(b, end);
    var colon := SkipSpace(b, end);
    ContainerKeepsBoundary(b, colon);
    ValueKeepsBoundary(b, SkipSpace(b, colon + 1), d);
    var after := Member(b, at, d).value.1;
    SpaceKeepsBoundary(b, after);
    var j := SkipSpace(b, after);
    BoundaryPastAscii(b, j);
    if b[j] == COMMA { EntriesKeepBoundary(b, j + 1, d); }
  }

  /** Copying a character never fails on a valid document: the rest of the input
      is valid at every boundary. */
  lemma CopyNeverFails(b: Bytes, i: nat)
    requires Valid(b) && i < |b| && Boundary(b, i)
    ensures Copied(b, i).Some?
  {
    ValidFrom(b, i);
    BoundaryAfter(b, i);
  }
}
