/** Every tree is read as what it means, whatever stands in its gaps. */
module JsonReads {
  import opened Common
  import opened Utf8
  import opened JsonGrammar
  import opened JsonSyntax

  // ----- bytes in place -----

  /** Bytes found at `i` are their parts found one after the other. */
  lemma Split(b: Bytes, i: nat, x: Bytes, y: Bytes)
    requires HasAt(b, i, x + y)
    ensures HasAt(b, i, x) && HasAt(b, i + |x|, y)
  {
    var w := b[i..i + |x + y|];
    assert w[..|x|] == x && w[|x|..] == y;
    assert b[i..i + |x|] == w[..|x|];
    assert b[i + |x|..i + |x| + |y|] == w[|x|..];
  }

  lemma FirstByte(b: Bytes, i: nat, c: Byte, rest: Bytes)
    requires HasAt(b, i, [c] + rest)
    ensures i < |b| && b[i] == c && HasAt(b, i + 1, rest)
  {
    Split(b, i, [c], rest);
    assert b[i..i + 1][0] == b[i];
  }

  lemma ByteAt(b: Bytes, i: nat, x: Bytes, k: nat)
    requires HasAt(b, i, x) && k < |x|
    ensures i + k < |b| && b[i + k] == x[k]
  {
    assert b[i..i + |x|][k] == b[i + k];
  }

  /** Whether skipping gaps at `i` stops there. */
  predicate GapStops(b: Bytes, i: nat) { i >= |b| || !IsSpace(b[i]) }

  /** The parser's blanks are the four a gap may hold. */
  lemma GapBytes(c: Byte)
    ensures IsSpace(c) <==> c == 0x20 || c == 0x09 || c == 0x0A || c == 0x0D
  {
  }

  lemma {:induction false} GapIsSkipped(b: Bytes, i: nat, g: Bytes)
    requires HasAt(b, i, g) && IsGap(g) && GapStops(b, i + |g|)
    ensures SkipSpace(b, i) == i + |g|
    decreases |g|
  {
    if g != [] {
      assert g == [g[0]] + g[1..];
      FirstByte(b, i, g[0], g[1..]);
      GapIsSkipped(b, i + 1, g[1..]);
    }
  }

  // ----- strings -----

  lemma NibbleIs(c: Byte)
    ensures HexDigit(c) == if Nibble(c) < 16 then Some(Nibble(c)) else None
  {
  }

  /** Four digits are the number they spell, in either case of letter. */
  lemma Hex4Is(b: Bytes, i: nat)
    ensures Hex4(b, i) == if i + 4 <= |b| && HexOk(Hex(b[i], b[i + 1], b[i + 2], b[i + 3]))
                          then Some((HexNumber(Hex(b[i], b[i + 1], b[i + 2], b[i + 3])), i + 4))
                          else None
  {
    if i + 4 <= |b| {
      hide HexDigit, Nibble;
      NibbleIs(b[i]);
      NibbleIs(b[i + 1]);
      NibbleIs(b[i + 2]);
      NibbleIs(b[i + 3]);
      assert HexRun(b, i, 0) == Some(0);
      var one, two, three := HexRun(b, i, 1), HexRun(b, i, 2), HexRun(b, i, 3);
    }
  }

  lemma HexReads(b: Bytes, i: nat, h: Hex)
    requires HasAt(b, i, SpellHex(h)) && HexOk(h)
    ensures i + 6 <= |b| && b[i] == 0x5C && b[i + 1] == 0x75 && HasAt(b, i, BACKSLASH_U)
    ensures Hex4(b, i + 2) == Some((HexNumber(h), i + 6))
  {
    hide HexOk, HexNumber, Hex4;
    ByteAt(b, i, SpellHex(h), 0);
    ByteAt(b, i, SpellHex(h), 1);
    ByteAt(b, i, SpellHex(h), 2);
    ByteAt(b, i, SpellHex(h), 3);
    ByteAt(b, i, SpellHex(h), 4);
    ByteAt(b, i, SpellHex(h), 5);
    Hex4Is(b, i + 2);
    assert Hex(b[i + 2], b[i + 3], b[i + 4], b[i + 5]) == h;
    assert b[i..i + 2] == BACKSLASH_U;
  }

  lemma UnitReads(b: Bytes, i: nat, h: Hex)
    requires PieceOk(Unit(h)) && HasAt(b, i, SpellHex(h))
    ensures i < |b| && StrChar(b, i) == Some((HexNumber(h), i + 6))
  {
    hide Hex4, HexNumber, HexOk;
    HexReads(b, i, h);
  }

  lemma PairReads(b: Bytes, i: nat, hi: Hex, lo: Hex)
    requires PieceOk(Pair(hi, lo)) && HasAt(b, i, SpellHex(hi) + SpellHex(lo))
    ensures i < |b| && StrChar(b, i) == Some((PieceMeaning(Pair(hi, lo)), i + 12))
  {
    hide Hex4, HexNumber, HexOk;
    Split(b, i, SpellHex(hi), SpellHex(lo));
    HexReads(b, i, hi);
    HexReads(b, i + 6, lo);
  }

  lemma LetterReads(b: Bytes, i: nat, m: Byte)
    requires PieceOk(Letter(m)) && HasAt(b, i, [0x5C, m])
    ensures i < |b| && StrChar(b, i) == Some((PieceMeaning(Letter(m)), i + 2))
  {
    ByteAt(b, i, [0x5C, m], 0);
    ByteAt(b, i, [0x5C, m], 1);
  }

  lemma PlainReads(b: Bytes, i: nat, c: Scalar)
    requires Valid(b) && c != 0x22 && c != 0x5C && HasAt(b, i, EncodeChar(c))
    ensures i < |b| && b[i] != 0x22 && b[i] != 0x5C && StrChar(b, i) == Some((c, i + |EncodeChar(c)|))
  {
    hide DecodeChar, Decode;
    var e := EncodeChar(c);
    EncodedShape(c);
    ByteAt(b, i, e, 0);
    ValidFrom(b, i);
    assert b[i..] == b[i..i + |e|] + b[i + |e|..];
    DecodeEncodedChar(c, b[i + |e|..]);
  }

  lemma PieceReads(b: Bytes, i: nat, p: Piece)
    requires Valid(b) && PieceOk(p) && HasAt(b, i, SpellPiece(p))
    ensures i < |b| && b[i] != 0x22
    ensures StrChar(b, i) == Some((PieceMeaning(p), i + |SpellPiece(p)|))
  {
    hide StrChar, EncodeChar, Decode, HasAt;
    match p
    case Plain(c) => PlainReads(b, i, c);
    case Letter(m) => LetterReads(b, i, m); ByteAt(b, i, [0x5C, m], 0);
    case Unit(h) => UnitReads(b, i, h); ByteAt(b, i, SpellHex(h), 0);
    case Pair(hi, lo) => PairReads(b, i, hi, lo); ByteAt(b, i, SpellHex(hi) + SpellHex(lo), 0);
  }

  lemma {:induction false} BodyReads(b: Bytes, i: nat, s: Body)
    requires Valid(b) && BodyOk(s) && HasAt(b, i, SpellBody(s))
    ensures StrBody(b, i) == Some((BodyMeaning(s), i + |SpellBody(s)|))
    decreases |s|
  {
    hide Decode, StrChar, SpellPiece, PieceOk, PieceMeaning;
    if s == [] {
      ByteAt(b, i, SpellBody(s), 0);
    } else {
      Split(b, i, SpellPiece(s[0]), SpellBody(s[1..]));
      PieceReads(b, i, s[0]);
      BodyReads(b, i + |SpellPiece(s[0])|, s[1..]);
    }
  }

  /** A string in quotes, wherever it stands. */
  lemma StringReads(b: Bytes, i: nat, s: Body)
    requires Valid(b) && BodyOk(s) && HasAt(b, i, SpellString(s))
    ensures i < |b| && b[i] == 0x22
    ensures StrBody(b, i + 1) == Some((BodyMeaning(s), i + |SpellString(s)|))
  {
    hide Decode, StrBody, SpellBody, BodyMeaning, BodyOk, HasAt;
    FirstByte(b, i, 0x22, SpellBody(s));
    BodyReads(b, i + 1, s);
  }

  // ----- numbers -----

  /** Whether a number that reaches `i` ends there. */
  predicate NumberStops(b: Bytes, i: nat) { i >= |b| || !IsNumByte(b[i]) }

  lemma {:induction false} NumEndIs(b: Bytes, i: nat, end: nat)
    requires i <= end <= |b| && NumberStops(b, end)
    requires forall k | i <= k < end :: IsNumByte(b[k])
    ensures NumEnd(b, i) == end
    decreases end - i
  {
    if i < end { NumEndIs(b, i + 1, end); }
  }

  lemma NumberReads(b: Bytes, i: nat, t: Bytes)
    requires TokenOk(t) && HasAt(b, i, t) && NumberStops(b, i + |t|)
    ensures i < |b| && IsNumByte(b[i]) && Number(b, i) == Some((Num(Latin1(t)), i + |t|))
  {
    var end := i + |t|;
    forall k | i <= k < end ensures b[k] == t[k - i] { ByteAt(b, i, t, k - i); }
    NumEndIs(b, if b[i] == 0x2D then i + 1 else i, end);
    assert b[i..end] == t;
    assert t[0] == 0x2D && |t| == 1 ==> t == [0x2D];
  }

  // ----- values -----

  /** What reading a tree gives: its meaning, or nothing past the bound. */
  function Back<T>(v: T, levels: nat, end: nat): Option<(T, nat)> {
    if levels <= 32 then Some((v, end)) else None
  }

  /** A value starts with something that is neither a gap nor a closing mark. */
  lemma TreeStarts(b: Bytes, i: nat, x: Tree)
    requires TreeOk(x) && HasAt(b, i, Spell(x))
    ensures i < |b| && GapStops(b, i) && b[i] != 0x5D && b[i] != 0x7D
    ensures |Spell(x)| > 0
  {
    hide SpellItems, SpellMembers, SpellBody, ItemsOk, MembersOk;
    ByteAt(b, i, Spell(x), 0);
  }

  /** Behind a value comes a gap and then a mark: a number stops, the gap is skipped. */
  lemma AfterValue(b: Bytes, end: nat, gap: Bytes, mark: Byte, rest: Bytes)
    requires HasAt(b, end, gap + ([mark] + rest)) && IsGap(gap)
    requires mark == 0x2C || mark == 0x5D || mark == 0x7D || mark == 0x3A
    ensures NumberStops(b, end) && SkipSpace(b, end) == end + |gap| < |b|
    ensures b[end + |gap|] == mark && HasAt(b, end + |gap| + 1, rest)
  {
    Split(b, end, gap, [mark] + rest);
    FirstByte(b, end + |gap|, mark, rest);
    GapIsSkipped(b, end, gap);
    if gap != [] { ByteAt(b, end, gap, 0); }
  }

  /** In front of a value comes a gap. */
  lemma BeforeValue(b: Bytes, i: nat, gap: Bytes, x: Tree, rest: Bytes)
    requires HasAt(b, i, gap + (Spell(x) + rest)) && IsGap(gap) && TreeOk(x)
    ensures SkipSpace(b, i) == i + |gap| < |b| && HasAt(b, i + |gap|, Spell(x))
    ensures HasAt(b, i + |gap| + |Spell(x)|, rest)
    ensures b[i + |gap|] != 0x5D && b[i + |gap|] != 0x7D
  {
    hide Spell, TreeOk;
    Split(b, i, gap, Spell(x) + rest);
    Split(b, i + |gap|, Spell(x), rest);
    TreeStarts(b, i + |gap|, x);
    GapIsSkipped(b, i, gap);
  }

  // How the grammar puts an answer together.

  lemma {:induction false} SkipTwice(b: Bytes, i: nat)
    requires i <= |b|
    ensures GapStops(b, SkipSpace(b, i)) && SkipSpace(b, SkipSpace(b, i)) == SkipSpace(b, i)
    decreases |b| - i
  {
    if i < |b| && IsSpace(b[i]) { SkipTwice(b, i + 1); }
  }

  lemma ItemsFromGap(b: Bytes, i: nat, d: nat)
    requires i <= |b|
    ensures Items(b, SkipSpace(b, i), d) == Items(b, i, d)
    ensures Entries(b, SkipSpace(b, i), d) == Entries(b, i, d)
  {
    hide SkipSpace, Value, Member;
    SkipTwice(b, i);
  }

  lemma ItemsLast(b: Bytes, i: nat, d: nat, at: nat, v: Json, levels: nat, end: nat, j: nat)
    requires i <= |b| && SkipSpace(b, i) == at && Value(b, at, d) == Back(v, levels, end) && end <= |b|
    requires SkipSpace(b, end) == j < |b| && b[j] == 0x5D
    ensures Items(b, i, d) == Back([v], levels, j + 1)
  {
    hide SkipSpace, Value;
  }

  lemma ItemsNext(b: Bytes, i: nat, d: nat, at: nat, v: Json, levels: nat, end: nat, j: nat,
                  vs: seq<Json>, most: nat, k: nat)
    requires i <= |b| && SkipSpace(b, i) == at && Value(b, at, d) == Back(v, levels, end) && end <= |b|
    requires SkipSpace(b, end) == j < |b| && b[j] == 0x2C && Items(b, j + 1, d) == Back(vs, most, k)
    ensures Items(b, i, d) == Back([v] + vs, Most(levels, most), k)
  {
    hide SkipSpace, Value;
  }

  lemma EntriesLast(b: Bytes, i: nat, d: nat, at: nat, e: Entry, levels: nat, end: nat, j: nat)
    requires i <= |b| && SkipSpace(b, i) == at && Member(b, at, d) == Back(e, levels, end) && end <= |b|
    requires SkipSpace(b, end) == j < |b| && b[j] == 0x7D
    ensures Entries(b, i, d) == Back([e], levels, j + 1)
  {
    hide SkipSpace, Member;
  }

  lemma EntriesNext(b: Bytes, i: nat, d: nat, at: nat, e: Entry, levels: nat, end: nat, j: nat,
                    es: seq<Entry>, most: nat, k: nat)
    requires i <= |b| && SkipSpace(b, i) == at && Member(b, at, d) == Back(e, levels, end) && end <= |b|
    requires SkipSpace(b, end) == j < |b| && b[j] == 0x2C && Entries(b, j + 1, d) == Back(es, most, k)
    ensures Entries(b, i, d) == Back([e] + es, Most(levels, most), k)
  {
    hide SkipSpace, Member;
  }

  lemma MemberIs(b: Bytes, i: nat, d: nat, key: Text, end: nat, colon: nat, at: nat)
    requires i < |b| && b[i] == 0x22 && StrBody(b, i + 1) == Some((key, end))
    requires SkipSpace(b, end) == colon < |b| && b[colon] == 0x3A && SkipSpace(b, colon + 1) == at
    ensures Member(b, i, d) == match Value(b, at, d)
                               case None => None
                               case Some((v, k)) => Some((Entry(key, v), k))
  {
    hide Value, StrBody, SkipSpace, Decode;
  }

  lemma ContainerIs(b: Bytes, i: nat, d: nat, j: nat)
    requires i < |b| && SkipSpace(b, i + 1) == j < |b|
    ensures b[i] == 0x5B ==>
              Value(b, i, d) == if d + 1 > 32 then None
                                else if b[j] == 0x5D then Some((Arr([]), j + 1))
                                else match Items(b, i + 1, d + 1) case None => None case Some((xs, k)) => Some((Arr(xs), k))
    ensures b[i] == 0x7B ==>
              Value(b, i, d) == if d + 1 > 32 then None
                                else if b[j] == 0x7D then Some((Obj([]), j + 1))
                                else match Entries(b, i + 1, d + 1) case None => None case Some((es, k)) => Some((Obj(es), k))
  {
    hide Items, Entries, SkipSpace, StrBody, Number, Literal;
    ItemsFromGap(b, i + 1, d + 1);
  }

  lemma LeafReads(b: Bytes, i: nat, d: nat, x: Tree)
    requires x.TNull? || x.TTrue? || x.TFalse? || x.TNumber? || x.TString?
    requires Valid(b) && TreeOk(x) && HasAt(b, i, Spell(x)) && (x.TNumber? ==> NumberStops(b, i + |Spell(x)|))
    ensures Value(b, i, d) == Some((Meaning(x), i + |Spell(x)|))
  {
    hide Decode, StrBody, Number, Array, Object, SpellString, BodyMeaning, TokenOk;
    if x.TNumber? {
      NumberReads(b, i, x.token);
    } else if x.TString? {
      StringReads(b, i, x.body);
    } else {
      ByteAt(b, i, Spell(x), 0);
    }
  }

  lemma EmptyReads(b: Bytes, i: nat, d: nat, x: Tree)
    requires (x.TEmptyArray? || x.TEmptyObject?) && TreeOk(x) && HasAt(b, i, Spell(x))
    ensures Value(b, i, d) == Back(Meaning(x), Levels(x) + d, i + |Spell(x)|)
  {
    hide Value, SkipSpace;
    var open, close := if x.TEmptyArray? then 0x5B else 0x7B, if x.TEmptyArray? then 0x5D else 0x7D;
    FirstByte(b, i, open, x.gap + [close]);
    assert x.gap + ([close] + []) == x.gap + [close];
    AfterValue(b, i + 1, x.gap, close, []);
    ContainerIs(b, i, d, i + 1 + |x.gap|);
  }

  lemma {:induction false} TreeReads(b: Bytes, i: nat, d: nat, x: Tree)
    requires Valid(b) && TreeOk(x) && d <= 32
    requires HasAt(b, i, Spell(x)) && (x.TNumber? ==> NumberStops(b, i + |Spell(x)|))
    ensures Value(b, i, d) == Back(Meaning(x), Levels(x) + d, i + |Spell(x)|)
    decreases x
  {
    hide Decode, Value, SkipSpace, Items, Entries, SpellString, SpellItems, SpellMembers, BodyMeaning, NumberStops,
         TokenOk, BodyOk, IsGap, HasAt, Latin1, ItemsMeaning, MembersMeaning, ItemLevels, MemberLevels;
    match x
    case TEmptyArray(_) => EmptyReads(b, i, d, x);
    case TEmptyObject(_) => EmptyReads(b, i, d, x);
    case TArray(xs) =>
      FirstByte(b, i, 0x5B, SpellItems(xs));
      ItemsStart(b, i + 1, xs);
      ContainerIs(b, i, d, i + 1 + |xs.before|);
      if d + 1 <= 32 { ItemsRead(b, i + 1, d + 1, xs); }
    case TObject(ms) =>
      FirstByte(b, i, 0x7B, SpellMembers(ms));
      MembersStart(b, i + 1, ms);
      ContainerIs(b, i, d, i + 1 + |ms.before|);
      if d + 1 <= 32 { MembersRead(b, i + 1, d + 1, ms); }
    case _ => LeafReads(b, i, d, x);
  }

  lemma ItemsStart(b: Bytes, i: nat, xs: ItemList)
    requires ItemsOk(xs) && HasAt(b, i, SpellItems(xs))
    ensures SkipSpace(b, i) == i + |xs.before| < |b| && b[i + |xs.before|] != 0x5D
  {
    hide Spell, TreeOk, HasAt, SkipSpace;
    var rest := match xs.more case None => [0x5D] case Some(more) => [0x2C] + SpellItems(more);
    BeforeValue(b, i, xs.before, xs.item, xs.after + rest);
  }

  /** A list of items is the first, a gap, a mark, and what the mark leads to. */
  lemma ItemsAreBytes(xs: ItemList, mark: Byte, rest: Bytes)
    requires mark == (if xs.more.None? then 0x5D else 0x2C) && rest == (if xs.more.None? then [] else SpellItems(xs.more.value))
    ensures SpellItems(xs) == xs.before + (Spell(xs.item) + (xs.after + ([mark] + rest)))
    ensures |SpellItems(xs)| == |xs.before| + |Spell(xs.item)| + |xs.after| + 1 + |rest|
  {
    hide Spell;
    if xs.more.None? { assert [mark] + rest == [0x5D]; }
  }

  lemma ItemsApart(b: Bytes, i: nat, xs: ItemList, mark: Byte, rest: Bytes)
    requires mark == (if xs.more.None? then 0x5D else 0x2C) && rest == (if xs.more.None? then [] else SpellItems(xs.more.value))
    requires HasAt(b, i, SpellItems(xs))
    ensures HasAt(b, i, xs.before + (Spell(xs.item) + (xs.after + ([mark] + rest))))
  {
    hide HasAt, Spell, SpellItems;
    ItemsAreBytes(xs, mark, rest);
  }

  /** Where the first item stands, where it ends, and the mark behind it. */
  lemma ItemsPlaces(b: Bytes, i: nat, xs: ItemList, at: nat, end: nat, j: nat)
    requires ItemsOk(xs) && HasAt(b, i, SpellItems(xs))
    requires at == i + |xs.before| && end == at + |Spell(xs.item)| && j == end + |xs.after|
    ensures SkipSpace(b, i) == at < |b| && HasAt(b, at, Spell(xs.item)) && NumberStops(b, end) && end <= |b|
    ensures SkipSpace(b, end) == j < |b| && b[j] == if xs.more.None? then 0x5D else 0x2C
    ensures i + |SpellItems(xs)| == j + 1 + if xs.more.None? then 0 else |SpellItems(xs.more.value)|
    ensures xs.more.Some? ==> HasAt(b, j + 1, SpellItems(xs.more.value))
  {
    hide Spell, SpellItems, TreeOk, SkipSpace, HasAt, IsGap, NumberStops;
    var mark := if xs.more.None? then 0x5D else 0x2C;
    var rest := if xs.more.None? then [] else SpellItems(xs.more.value);
    ItemsAreBytes(xs, mark, rest);
    ItemsApart(b, i, xs, mark, rest);
    BeforeValue(b, i, xs.before, xs.item, xs.after + ([mark] + rest));
    AfterValue(b, end, xs.after, mark, rest);
  }

  lemma {:induction false} ItemsRead(b: Bytes, i: nat, d: nat, xs: ItemList)
    requires Valid(b) && ItemsOk(xs) && d <= 32 && HasAt(b, i, SpellItems(xs))
    ensures Items(b, i, d) == Back(ItemsMeaning(xs), ItemLevels(xs) + d, i + |SpellItems(xs)|)
    decreases xs
  {
    hide Decode, Value, Items, SkipSpace, Spell, SpellItems, TreeOk, Meaning, Levels, HasAt, IsGap, Back, NumberStops;
    var at := i + |xs.before|;
    var end := at + |Spell(xs.item)|;
    var j := end + |xs.after|;
    var v, levels := Meaning(xs.item), Levels(xs.item) + d;
    ItemsPlaces(b, i, xs, at, end, j);
    TreeReads(b, at, d, xs.item);
    if xs.more.None? {
      ItemsLast(b, i, d, at, v, levels, end, j);
      assert ItemsMeaning(xs) == [v];
    } else {
      var more := xs.more.value;
      ItemsRead(b, j + 1, d, more);
      ItemsNext(b, i, d, at, v, levels, end, j, ItemsMeaning(more), ItemLevels(more) + d, j + 1 + |SpellItems(more)|);
    }
  }

  lemma MembersStart(b: Bytes, i: nat, ms: MemberList)
    requires MembersOk(ms) && HasAt(b, i, SpellMembers(ms))
    ensures SkipSpace(b, i) == i + |ms.before| < |b| && b[i + |ms.before|] == 0x22
  {
    hide Spell, TreeOk, HasAt, SkipSpace, SpellBody;
    var rest := match ms.more case None => [0x7D] case Some(more) => [0x2C] + SpellMembers(more);
    Split(b, i, SpellMember(ms), ms.after + rest);
    KeyStarts(b, i, ms);
  }

  lemma KeyStarts(b: Bytes, i: nat, ms: MemberList)
    requires MembersOk(ms) && HasAt(b, i, SpellMember(ms))
    ensures SkipSpace(b, i) == i + |ms.before| < |b| && b[i + |ms.before|] == 0x22
    ensures HasAt(b, i + |ms.before|, SpellString(ms.key))
    ensures HasAt(b, i + |ms.before| + |SpellString(ms.key)|,
                  ms.beforeColon + ([0x3A] + (ms.afterColon + Spell(ms.value))))
  {
    hide Spell, TreeOk, SkipSpace, SpellBody;
    var tail := ms.beforeColon + ([0x3A] + (ms.afterColon + Spell(ms.value)));
    Split(b, i, ms.before, SpellString(ms.key) + tail);
    Split(b, i + |ms.before|, SpellString(ms.key), tail);
    ByteAt(b, i + |ms.before|, SpellString(ms.key), 0);
    GapIsSkipped(b, i, ms.before);
  }

  lemma {:induction false} MemberReads(b: Bytes, i: nat, d: nat, ms: MemberList)
    requires Valid(b) && MembersOk(ms) && d <= 32
    requires HasAt(b, i, SpellMember(ms)) && (ms.value.TNumber? ==> NumberStops(b, i + |SpellMember(ms)|))
    ensures SkipSpace(b, i) == i + |ms.before| < |b|
    ensures Member(b, i + |ms.before|, d)
         == Back(Entry(BodyMeaning(ms.key), Meaning(ms.value)), Levels(ms.value) + d, i + |SpellMember(ms)|)
    decreases ms, 0
  {
    hide Decode, Value, Member, SkipSpace, Spell, TreeOk, Meaning, Levels, HasAt, IsGap, StrBody, SpellString, BodyMeaning;
    KeyStarts(b, i, ms);
    var key := i + |ms.before|;
    var end := key + |SpellString(ms.key)|;
    var colon := end + |ms.beforeColon|;
    StringReads(b, key, ms.key);
    AfterValue(b, end, ms.beforeColon, 0x3A, ms.afterColon + Spell(ms.value));
    assert Spell(ms.value) + [] == Spell(ms.value);
    BeforeValue(b, colon + 1, ms.afterColon, ms.value, []);
    var at := colon + 1 + |ms.afterColon|;
    TreeReads(b, at, d, ms.value);
    MemberIs(b, key, d, BodyMeaning(ms.key), end, colon, at);
  }

  lemma MembersAreBytes(ms: MemberList, mark: Byte, rest: Bytes)
    requires mark == (if ms.more.None? then 0x7D else 0x2C) && rest == (if ms.more.None? then [] else SpellMembers(ms.more.value))
    ensures SpellMembers(ms) == SpellMember(ms) + (ms.after + ([mark] + rest))
    ensures |SpellMembers(ms)| == |SpellMember(ms)| + |ms.after| + 1 + |rest|
  {
    hide SpellMember;
    if ms.more.None? { assert [mark] + rest == [0x7D]; }
  }

  lemma MembersApart(b: Bytes, i: nat, ms: MemberList, mark: Byte, rest: Bytes)
    requires mark == (if ms.more.None? then 0x7D else 0x2C) && rest == (if ms.more.None? then [] else SpellMembers(ms.more.value))
    requires HasAt(b, i, SpellMembers(ms))
    ensures HasAt(b, i, SpellMember(ms)) && HasAt(b, i + |SpellMember(ms)|, ms.after + ([mark] + rest))
  {
    hide HasAt, SpellMember, SpellMembers;
    MembersAreBytes(ms, mark, rest);
    Split(b, i, SpellMember(ms), ms.after + ([mark] + rest));
  }

  lemma MembersPlaces(b: Bytes, i: nat, ms: MemberList, end: nat, j: nat)
    requires MembersOk(ms) && HasAt(b, i, SpellMembers(ms)) && end == i + |SpellMember(ms)| && j == end + |ms.after|
    ensures HasAt(b, i, SpellMember(ms)) && NumberStops(b, end) && end <= |b|
    ensures SkipSpace(b, end) == j < |b| && b[j] == if ms.more.None? then 0x7D else 0x2C
    ensures i + |SpellMembers(ms)| == j + 1 + if ms.more.None? then 0 else |SpellMembers(ms.more.value)|
    ensures ms.more.Some? ==> HasAt(b, j + 1, SpellMembers(ms.more.value))
  {
    hide SpellMember, SpellMembers, TreeOk, BodyOk, SkipSpace, HasAt, IsGap, NumberStops;
    var mark := if ms.more.None? then 0x7D else 0x2C;
    var rest := if ms.more.None? then [] else SpellMembers(ms.more.value);
    MembersAreBytes(ms, mark, rest);
    MembersApart(b, i, ms, mark, rest);
    AfterValue(b, end, ms.after, mark, rest);
  }

  lemma {:induction false} MembersRead(b: Bytes, i: nat, d: nat, ms: MemberList)
    requires Valid(b) && MembersOk(ms) && d <= 32 && HasAt(b, i, SpellMembers(ms))
    ensures Entries(b, i, d) == Back(MembersMeaning(ms), MemberLevels(ms) + d, i + |SpellMembers(ms)|)
    decreases ms, 1
  {
    hide Decode, Member, Entries, SkipSpace, SpellMember, SpellMembers, TreeOk, Meaning, Levels, HasAt, IsGap, BodyOk,
         BodyMeaning, Back, NumberStops;
    var at := i + |ms.before|;
    var end := i + |SpellMember(ms)|;
    var j := end + |ms.after|;
    var e, levels := Entry(BodyMeaning(ms.key), Meaning(ms.value)), Levels(ms.value) + d;
    MembersPlaces(b, i, ms, end, j);
    MemberReads(b, i, d, ms);
    if ms.more.None? {
      EntriesLast(b, i, d, at, e, levels, end, j);
      assert MembersMeaning(ms) == [e];
    } else {
      var more := ms.more.value;
      MembersRead(b, j + 1, d, more);
      EntriesNext(b, i, d, at, e, levels, end, j, MembersMeaning(more), MemberLevels(more) + d, j + 1 + |SpellMembers(more)|);
    }
  }

  // ----- documents -----

  /** A document is read as its meaning, however it is laid out, when its containers
      nest at most 32 deep, and refused when they nest deeper. */
  lemma DocReads(t: Doc)
    requires DocOk(t) && Valid(SpellDoc(t))
    ensures Document(SpellDoc(t)) == if Levels(t.tree) <= 32 then Some(Meaning(t.tree)) else None
  {
    hide Decode, Value, SkipSpace, Spell, TreeOk, Meaning, Levels, IsGap, Valid;
    var b := SpellDoc(t);
    var at, end := |t.front|, |t.front| + |Spell(t.tree)|;
    assert b[0..0 + |b|] == b;
    BeforeValue(b, 0, t.front, t.tree, t.behind);
    assert NumberStops(b, end) by {
      if t.behind != [] { ByteAt(b, end, t.behind, 0); GapIsNoNumber(t.behind); }
    }
    TreeReads(b, at, 0, t.tree);
    GapIsSkipped(b, end, t.behind);
  }

  lemma GapIsNoNumber(g: Bytes)
    requires IsGap(g) && g != []
    ensures !IsNumByte(g[0])
  {
  }

  /** Behind a value only a gap is allowed: any other byte there, and the document is
      refused. A number would first take more number bytes into itself. */
  lemma OnlyAGapBehind(x: Tree, rest: Bytes)
    requires TreeOk(x) && Levels(x) <= 32 && Valid(Spell(x) + rest)
    requires x.TNumber? && rest != [] ==> !(0x30 <= rest[0] <= 0x39) && rest[0] !in [0x2E, 0x65, 0x45, 0x2B, 0x2D]
    ensures Document(Spell(x) + rest) == if IsGap(rest) then Some(Meaning(x)) else None
  {
    hide Decode, Value, Spell, TreeOk, Meaning, Levels, Valid, SkipSpace, IsGap, HasAt, NumberStops;
    var b, end := Spell(x) + rest, |Spell(x)|;
    StandsFirst(x, rest);
    TreeReads(b, 0, 0, x);
    if IsGap(rest) { GapIsSkipped(b, end, rest); } else { NotAllSkipped(b, end); }
  }

  lemma StandsFirst(x: Tree, rest: Bytes)
    requires TreeOk(x)
    requires x.TNumber? && rest != [] ==> !(0x30 <= rest[0] <= 0x39) && rest[0] !in [0x2E, 0x65, 0x45, 0x2B, 0x2D]
    ensures var b, end := Spell(x) + rest, |Spell(x)|;
            && SkipSpace(b, 0) == 0 && HasAt(b, 0, Spell(x)) && HasAt(b, end, rest) && b[end..] == rest
            && (x.TNumber? ==> NumberStops(b, end)) && GapStops(b, |b|)
  {
    hide Spell, TreeOk, SkipSpace, HasAt;
    var b, end := Spell(x) + rest, |Spell(x)|;
    assert b[end..] == rest;
    assert HasAt(b, 0, [] + (Spell(x) + rest)) by { Whole(b); assert [] + (Spell(x) + rest) == b; }
    BeforeValue(b, 0, [], x, rest);
    if rest != [] { assert b[end] == rest[0]; }
  }

  lemma Whole(b: Bytes)
    ensures HasAt(b, 0, b)
  {
  }

  lemma {:induction false} NotAllSkipped(b: Bytes, i: nat)
    requires i <= |b| && !IsGap(b[i..])
    ensures SkipSpace(b, i) < |b|
    decreases |b| - i
  {
    if IsSpace(b[i]) {
      assert b[i..] == [b[i]] + b[i + 1..];
      NotAllSkipped(b, i + 1);
    }
  }

  // ----- how deep -----

  function Nest(n: nat): Tree
    requires n > 0
  {
    if n == 1 then TEmptyArray([]) else TArray(ItemList([], Nest(n - 1), [], None))
  }

  function Times(c: Byte, n: nat): Bytes { seq(n, _ => c) }

  lemma {:induction false} NestIs(n: nat)
    requires n > 0
    ensures TreeOk(Nest(n)) && Levels(Nest(n)) == n && Spell(Nest(n)) == Times(0x5B, n) + Times(0x5D, n)
    decreases n
  {
    if n == 1 {
      assert [] + [0x5D] == [0x5D];
    } else {
      NestIs(n - 1);
      assert Spell(Nest(n)) == [0x5B] + ([] + (Spell(Nest(n - 1)) + ([] + [0x5D])));
      assert Times(0x5B, n) == [0x5B] + Times(0x5B, n - 1) && Times(0x5D, n) == Times(0x5D, n - 1) + [0x5D];
    }
  }

  /** So many brackets opened and closed again are a document from one to thirty-two
      of them, and nothing otherwise. */
  lemma BracketsNestTo32(n: nat)
    ensures Document(Times(0x5B, n) + Times(0x5D, n)).Some? <==> 1 <= n <= 32
  {
    hide Document, Decode;
    if n > 0 {
      hide Nest, TreeOk, Spell, Levels, Meaning;
      NestIs(n);
      var b := Times(0x5B, n) + Times(0x5D, n);
      AsciiIsValid(b);
      var t := Doc([], Nest(n), []);
      assert SpellDoc(t) == b;
      DocReads(t);
    } else {
      assert Times(0x5B, n) + Times(0x5D, n) == [];
      NothingIsRefused();
    }
  }

  lemma NothingIsRefused()
    ensures Document([]) == None
  {
  }

  lemma AsciiIsValid(b: Bytes)
    requires forall k | 0 <= k < |b| :: b[k] < 0x80
    ensures Valid(b)
  {
    hide Decode;
    EncodeAscii(b);
    DecodeEncoded(Latin1(b));
  }
}
