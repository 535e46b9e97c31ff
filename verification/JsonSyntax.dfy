/**
 The documents there are, as trees of what stands in them, byte for byte.

 This is a second account of the language, independent of the parser's: every gap
 between tokens is a field of its own, the marks are written out as numbers, and
 `Spell` and `Meaning` say what bytes a tree is and what value it stands for.
 */
module JsonSyntax {
  import opened Common
  import opened Utf8
  import opened JsonGrammar

  /** Four digits behind `\u`. */
  datatype Hex = Hex(a: Byte, b: Byte, c: Byte, d: Byte)

  /** One character of a string as written: itself, a one-letter escape, a code
      unit, or a pair of them. */
  datatype Piece = Plain(c: Scalar) | Letter(mark: Byte) | Unit(h: Hex) | Pair(hi: Hex, lo: Hex)

  type Body = seq<Piece>

  datatype Tree =
    | TNull | TTrue | TFalse
    | TNumber(token: Bytes)
    | TString(body: Body)
    | TEmptyArray(gap: Bytes)
    | TArray(items: ItemList)
    | TEmptyObject(gap: Bytes)
    | TObject(members: MemberList)

  datatype ItemList = ItemList(before: Bytes, item: Tree, after: Bytes, more: Option<ItemList>)

  datatype MemberList = MemberList(before: Bytes, key: Body, beforeColon: Bytes, afterColon: Bytes,
                                   value: Tree, after: Bytes, more: Option<MemberList>)

  /** A document: a value with gaps in front and behind. */
  datatype Doc = Doc(front: Bytes, tree: Tree, behind: Bytes)

  // ----- what may stand where -----

  /** Blanks, tabs, newlines and carriage returns, any number of each. */
  predicate IsGap(g: Bytes) {
    forall k | 0 <= k < |g| :: g[k] == 0x20 || g[k] == 0x09 || g[k] == 0x0A || g[k] == 0x0D
  }

  /** What a hexadecimal digit of either case is worth; 16 for anything else. */
  function Nibble(c: Byte): nat {
    if 0x30 <= c <= 0x39 then c - 0x30
    else if 0x41 <= c <= 0x46 then c - 0x37
    else if 0x61 <= c <= 0x66 then c - 0x57
    else 16
  }

  predicate HexOk(h: Hex) { Nibble(h.a) < 16 && Nibble(h.b) < 16 && Nibble(h.c) < 16 && Nibble(h.d) < 16 }

  function HexNumber(h: Hex): nat {
    Nibble(h.a) * 4096 + Nibble(h.b) * 256 + Nibble(h.c) * 16 + Nibble(h.d)
  }

  predicate PieceOk(p: Piece) {
    match p
    case Plain(c) => c != 0x22 && c != 0x5C
    case Letter(m) => m in [0x22, 0x5C, 0x2F, 0x62, 0x66, 0x6E, 0x72, 0x74]
    case Unit(h) => HexOk(h) && !(0xD800 <= HexNumber(h) <= 0xDFFF)
    case Pair(hi, lo) => HexOk(hi) && HexOk(lo) && 0xD800 <= HexNumber(hi) <= 0xDBFF && 0xDC00 <= HexNumber(lo) <= 0xDFFF
  }

  predicate BodyOk(s: Body) { forall k | 0 <= k < |s| :: PieceOk(s[k]) }

  /** Digits, points, exponents and signs in any order, but not a minus alone. */
  predicate TokenOk(t: Bytes) {
    t != [] && t != [0x2D] &&
    forall k | 0 <= k < |t| ::
      0x30 <= t[k] <= 0x39 || t[k] == 0x2E || t[k] == 0x65 || t[k] == 0x45 || t[k] == 0x2B || t[k] == 0x2D
  }

  predicate TreeOk(x: Tree) {
    match x
    case TNumber(t) => TokenOk(t)
    case TString(s) => BodyOk(s)
    case TEmptyArray(g) => IsGap(g)
    case TArray(xs) => ItemsOk(xs)
    case TEmptyObject(g) => IsGap(g)
    case TObject(ms) => MembersOk(ms)
    case _ => true
  }

  predicate ItemsOk(xs: ItemList) {
    IsGap(xs.before) && TreeOk(xs.item) && IsGap(xs.after) && (xs.more.Some? ==> ItemsOk(xs.more.value))
  }

  predicate MembersOk(ms: MemberList) {
    IsGap(ms.before) && BodyOk(ms.key) && IsGap(ms.beforeColon) && IsGap(ms.afterColon) &&
    TreeOk(ms.value) && IsGap(ms.after) && (ms.more.Some? ==> MembersOk(ms.more.value))
  }

  predicate DocOk(t: Doc) { IsGap(t.front) && TreeOk(t.tree) && IsGap(t.behind) }

  // ----- the bytes -----

  function SpellHex(h: Hex): Bytes { [0x5C, 0x75, h.a, h.b, h.c, h.d] }

  function SpellPiece(p: Piece): (r: Bytes)
    ensures |r| > 0
  {
    match p
    case Plain(c) => EncodeChar(c)
    case Letter(m) => [0x5C, m]
    case Unit(h) => SpellHex(h)
    case Pair(hi, lo) => SpellHex(hi) + SpellHex(lo)
  }

  /** The pieces of a string and its closing quote. */
  function SpellBody(s: Body): (r: Bytes)
    ensures |r| > 0
  {
    if s == [] then [0x22] else SpellPiece(s[0]) + SpellBody(s[1..])
  }

  function SpellString(s: Body): Bytes { [0x22] + SpellBody(s) }

  function Spell(x: Tree): (r: Bytes) {
    match x
    case TNull => [0x6E, 0x75, 0x6C, 0x6C]
    case TTrue => [0x74, 0x72, 0x75, 0x65]
    case TFalse => [0x66, 0x61, 0x6C, 0x73, 0x65]
    case TNumber(t) => t
    case TString(s) => SpellString(s)
    case TEmptyArray(g) => [0x5B] + (g + [0x5D])
    case TArray(xs) => [0x5B] + SpellItems(xs)
    case TEmptyObject(g) => [0x7B] + (g + [0x7D])
    case TObject(ms) => [0x7B] + SpellMembers(ms)
  }

  /** Items with commas between them, and the closing bracket. */
  function SpellItems(xs: ItemList): Bytes {
    xs.before + (Spell(xs.item) + (xs.after + (match xs.more
                                               case None => [0x5D]
                                               case Some(rest) => [0x2C] + SpellItems(rest))))
  }

  /** A key, a colon and a value, with the gaps inside and in front of them. */
  function SpellMember(ms: MemberList): Bytes
    decreases ms, 0
  {
    ms.before + (SpellString(ms.key) + (ms.beforeColon + ([0x3A] + (ms.afterColon + Spell(ms.value)))))
  }

  /** Members with commas between them, and the closing brace. */
  function SpellMembers(ms: MemberList): Bytes
    decreases ms, 1
  {
    SpellMember(ms) + (ms.after + (match ms.more
                                   case None => [0x7D]
                                   case Some(rest) => [0x2C] + SpellMembers(rest)))
  }

  function SpellDoc(t: Doc): Bytes { t.front + (Spell(t.tree) + t.behind) }

  // ----- the value -----

  function PieceMeaning(p: Piece): Scalar
    requires PieceOk(p)
  {
    match p
    case Plain(c) => c
    case Letter(m) =>
      if m == 0x62 then 8
      else if m == 0x66 then 12
      else if m == 0x6E then 10
      else if m == 0x72 then 13
      else if m == 0x74 then 9
      else m
    case Unit(h) => HexNumber(h)
    case Pair(hi, lo) => 0x10000 + (HexNumber(hi) - 0xD800) * 0x400 + (HexNumber(lo) - 0xDC00)
  }

  function BodyMeaning(s: Body): (t: Text)
    requires BodyOk(s)
    ensures |t| == |s| && forall k | 0 <= k < |s| :: t[k] == PieceMeaning(s[k])
  {
    if s == [] then [] else [PieceMeaning(s[0])] + BodyMeaning(s[1..])
  }

  function Meaning(x: Tree): Json
    requires TreeOk(x)
  {
    match x
    case TNull => Null
    case TTrue => Bool(true)
    case TFalse => Bool(false)
    case TNumber(t) => Num(Latin1(t))
    case TString(s) => Str(BodyMeaning(s))
    case TEmptyArray(_) => Arr([])
    case TArray(xs) => Arr(ItemsMeaning(xs))
    case TEmptyObject(_) => Obj([])
    case TObject(ms) => Obj(MembersMeaning(ms))
  }

  function ItemsMeaning(xs: ItemList): seq<Json>
    requires ItemsOk(xs)
  {
    [Meaning(xs.item)] + (match xs.more case None => [] case Some(rest) => ItemsMeaning(rest))
  }

  function MembersMeaning(ms: MemberList): seq<Entry>
    requires MembersOk(ms)
  {
    [Entry(BodyMeaning(ms.key), Meaning(ms.value))]
    + (match ms.more case None => [] case Some(rest) => MembersMeaning(rest))
  }

  // ----- how deep it nests -----

  function Most(a: nat, b: nat): nat { if a < b then b else a }

  function Levels(x: Tree): nat {
    match x
    case TEmptyArray(_) => 1
    case TArray(xs) => 1 + ItemLevels(xs)
    case TEmptyObject(_) => 1
    case TObject(ms) => 1 + MemberLevels(ms)
    case _ => 0
  }

  function ItemLevels(xs: ItemList): nat {
    Most(Levels(xs.item), match xs.more case None => 0 case Some(rest) => ItemLevels(rest))
  }

  function MemberLevels(ms: MemberList): nat {
    Most(Levels(ms.value), match ms.more case None => 0 case Some(rest) => MemberLevels(rest))
  }
}
