/** JSON values, and what the parser accepts as a function of position and depth. */
module JsonGrammar {
  import opened Common
  import opened Utf8

  /** Numbers are kept as the token that produced them. */
  datatype Json =
    | Null
    | Bool(b: bool)
    | Num(token: Text)
    | Str(s: Text)
    | Arr(items: seq<Json>)
    | Obj(entries: seq<Entry>)
  datatype Entry = Entry(key: Text, value: Json)

  const MAX_DEPTH: nat := 32

  const QUOTE: Byte := 0x22
  const BACKSLASH: Byte := 0x5C
  const COMMA: Byte := 0x2C
  const COLON: Byte := 0x3A
  const LBRACKET: Byte := 0x5B
  const RBRACKET: Byte := 0x5D
  const LBRACE: Byte := 0x7B
  const RBRACE: Byte := 0x7D
  const MINUS: Byte := 0x2D

  const NULL: Bytes := [0x6E, 0x75, 0x6C, 0x6C]
  const TRUE: Bytes := [0x74, 0x72, 0x75, 0x65]
  const FALSE: Bytes := [0x66, 0x61, 0x6C, 0x73, 0x65]
  const BACKSLASH_U: Bytes := [0x5C, 0x75]

  // ----- pieces -----

  predicate IsSpace(c: Byte) { c == 0x20 || c == 9 || c == 10 || c == 13 }

  function SkipSpace(b: Bytes, i: nat): (j: nat)
    requires i <= |b|
    ensures i <= j <= |b|
    decreases |b| - i
  {
    if i < |b| && IsSpace(b[i]) then SkipSpace(b, i + 1) else i
  }

  predicate HasAt(b: Bytes, i: nat, lit: Bytes) {
    i + |lit| <= |b| && b[i..i + |lit|] == lit
  }

  /** Digits, point, exponent and signs, in any order: the parser checks no more. */
  predicate IsNumByte(c: int) {
    0x30 <= c <= 0x39 || c == 0x2E || c == 0x65 || c == 0x45 || c == 0x2B || c == 0x2D
  }

  function NumEnd(b: Bytes, i: nat): (j: nat)
    requires i <= |b|
    ensures i <= j <= |b|
    ensures forall k | i <= k < j :: IsNumByte(b[k])
    decreases |b| - i
  {
    if i < |b| && IsNumByte(b[i]) then NumEnd(b, i + 1) else i
  }

  function HexDigit(c: Byte): Option<nat> {
    if 0x30 <= c <= 0x39 then Some(c - 0x30)
    else if 0x61 <= c <= 0x66 then Some(c - 0x61 + 10)
    else if 0x41 <= c <= 0x46 then Some(c - 0x41 + 10)
    else None
  }

  /** The value of `k` hexadecimal digits. */
  function HexRun(b: Bytes, i: nat, k: nat): (r: Option<nat>)
    requires i + k <= |b|
    ensures r.Some? && k <= 4 ==> r.value < 0x10000
    ensures r.Some? ==> (k == 0 ==> r.value < 1) && (k == 1 ==> r.value < 0x10)
    ensures r.Some? ==> (k == 2 ==> r.value < 0x100) && (k == 3 ==> r.value < 0x1000)
  {
    if k == 0 then Some(0)
    else
      match HexRun(b, i, k - 1)
      case None => None
      case Some(v) =>
        match HexDigit(b[i + k - 1])
        case None => None
        case Some(d) => Some(v * 16 + d)
  }

  function Hex4(b: Bytes, i: nat): (r: Option<(nat, nat)>)
    ensures r.Some? ==> r.value.0 < 0x10000 && r.value.1 == i + 4 <= |b|
  {
    if i + 4 > |b| then None
    else
      match HexRun(b, i, 4)
      case None => None
      case Some(v) => Some((v, i + 4))
  }

  predicate IsHigh(v: nat) { 0xD800 <= v < 0xDC00 }
  predicate IsLow(v: nat) { 0xDC00 <= v < 0xE000 }

  /** What follows `\u`: one code unit, or a surrogate pair. A lone surrogate
      of either kind is refused. */
  function Unicode(b: Bytes, i: nat): (r: Option<(Scalar, nat)>)
    ensures r.Some? ==> i < r.value.1 <= |b|
  {
    match Hex4(b, i)
    case None => None
    case Some((hi, j)) =>
      if IsHigh(hi) then
        if !HasAt(b, j, BACKSLASH_U) then None
        else
          match Hex4(b, j + 2)
          case None => None
          case Some((lo, k)) =>
            if !IsLow(lo) then None
            else Some((0x10000 + (hi - 0xD800) * 0x400 + (lo - 0xDC00), k))
      else if IsLow(hi) then None
      else Some((hi, j))
  }

  /** What the one-letter escapes stand for. */
  function ShortEscape(c: Byte): Option<Scalar> {
    if c == QUOTE then Some(QUOTE)
    else if c == BACKSLASH then Some(BACKSLASH)
    else if c == 0x2F then Some(0x2F)
    else if c == 0x62 then Some(8)
    else if c == 0x66 then Some(12)
    else if c == 0x6E then Some(10)
    else if c == 0x72 then Some(13)
    else if c == 0x74 then Some(9)
    else None
  }

  /** What follows a backslash. */
  function Escaped(b: Bytes, i: nat): (r: Option<(Scalar, nat)>)
    ensures r.Some? ==> i < r.value.1 <= |b|
  {
    if i >= |b| then None
    else if b[i] == 0x75 then Unicode(b, i + 1)
    else
      match ShortEscape(b[i])
      case None => None
      case Some(c) => Some((c, i + 1))
  }

  /** A character copied whole. The source decodes the rest of the input to get
      at its first character, so the rest has to be valid. */
  function Copied(b: Bytes, i: nat): (r: Option<(Scalar, nat)>)
    requires i < |b|
    ensures r.Some? ==> i < r.value.1 <= |b|
  {
    if !Valid(b[i..]) then None
    else
      match DecodeChar(b[i..])
      case None => None
      case Some((c, n)) => Some((c, i + n))
  }

  /** The next character of a string body and where it ends. */
  function StrChar(b: Bytes, i: nat): (r: Option<(Scalar, nat)>)
    requires i < |b|
    ensures r.Some? ==> i < r.value.1 <= |b|
  {
    if b[i] == BACKSLASH then Escaped(b, i + 1) else Copied(b, i)
  }

  /** The body of a string, from after its opening quote to after its closing one. */
  function StrBody(b: Bytes, i: nat): (r: Option<(Text, nat)>)
    ensures r.Some? ==> i < r.value.1 <= |b|
    decreases |b| - i
  {
    if i >= |b| then None
    else if b[i] == QUOTE then Some(([], i + 1))
    else
      match StrChar(b, i)
      case None => None
      case Some((c, j)) =>
        match StrBody(b, j)
        case None => None
        case Some((s, k)) => Some(([c] + s, k))
  }

  function Number(b: Bytes, i: nat): (r: Option<(Json, nat)>)
    requires i < |b|
    ensures r.Some? ==> i < r.value.1 <= |b|
  {
    var digits := if b[i] == MINUS then i + 1 else i;
    var end := NumEnd(b, digits);
    if end == digits then None else Some((Num(Latin1(b[i..end])), end))
  }

  // ----- values -----

  function Literal(b: Bytes, i: nat, lit: Bytes, v: Json): (r: Option<(Json, nat)>)
    requires |lit| > 0
    ensures r.Some? ==> i < r.value.1 <= |b|
  {
    if HasAt(b, i, lit) then Some((v, i + |lit|)) else None
  }

  /** The value at `i`, inside `d` open containers, and where it ends. A value
      that parses always moves the cursor on. */
  function Value(b: Bytes, i: nat, d: nat): (r: Option<(Json, nat)>)
    requires i <= |b|
    ensures r.Some? ==> i < r.value.1 <= |b|
    decreases |b| - i, 1
  {
    if i >= |b| then None
    else if b[i] == 0x6E then Literal(b, i, NULL, Null)
    else if b[i] == 0x74 then Literal(b, i, TRUE, Bool(true))
    else if b[i] == 0x66 then Literal(b, i, FALSE, Bool(false))
    else if b[i] == QUOTE then
      match StrBody(b, i + 1)
      case None => None
      case Some((s, j)) => Some((Str(s), j))
    else if b[i] == LBRACKET then Array(b, i, d)
    else if b[i] == LBRACE then Object(b, i, d)
    else Number(b, i)
  }

  function Array(b: Bytes, i: nat, d: nat): (r: Option<(Json, nat)>)
    requires i < |b|
    ensures r.Some? ==> i < r.value.1 <= |b|
    decreases |b| - i, 0
  {
    if d + 1 > MAX_DEPTH then None
    else
      var j := SkipSpace(b, i + 1);
      if j < |b| && b[j] == RBRACKET then Some((Arr([]), j + 1))
      else
        match Items(b, j, d + 1)
        case None => None
        case Some((xs, k)) => Some((Arr(xs), k))
  }

  /** One or more items and the closing bracket. */
  function Items(b: Bytes, i: nat, d: nat): (r: Option<(seq<Json>, nat)>)
    requires i <= |b|
    ensures r.Some? ==> i < r.value.1 <= |b|
    decreases |b| - i, 2
  {
    var at := SkipSpace(b, i);
    match Value(b, at, d)
    case None => None
    case Some((v, end)) =>
      var j := SkipSpace(b, end);
      if j >= |b| then None
      else if b[j] == RBRACKET then Some(([v], j + 1))
      else if b[j] != COMMA then None
      else
        match Items(b, j + 1, d)
        case None => None
        case Some((rest, k)) => Some(([v] + rest, k))
  }

  function Object(b: Bytes, i: nat, d: nat): (r: Option<(Json, nat)>)
    requires i < |b|
    ensures r.Some? ==> i < r.value.1 <= |b|
    decreases |b| - i, 0
  {
    if d + 1 > MAX_DEPTH then None
    else
      var j := SkipSpace(b, i + 1);
      if j < |b| && b[j] == RBRACE then Some((Obj([]), j + 1))
      else
        match Entries(b, j, d + 1)
        case None => None
        case Some((es, k)) => Some((Obj(es), k))
  }

  /** A key, a colon and a value. */
  function Member(b: Bytes, i: nat, d: nat): (r: Option<(Entry, nat)>)
    requires i <= |b|
    ensures r.Some? ==> i < r.value.1 <= |b|
    decreases |b| - i, 2
  {
    if i >= |b| || b[i] != QUOTE then None
    else
      match StrBody(b, i + 1)
      case None => None
      case Some((key, end)) =>
        var j := SkipSpace(b, end);
        if j >= |b| || b[j] != COLON then None
        else
          match Value(b, SkipSpace(b, j + 1), d)
          case None => None
          case Some((v, k)) => Some((Entry(key, v), k))
  }

  /** One or more members and the closing brace. */
  function Entries(b: Bytes, i: nat, d: nat): (r: Option<(seq<Entry>, nat)>)
    requires i <= |b|
    ensures r.Some? ==> i < r.value.1 <= |b|
    decreases |b| - i, 3
  {
    match Member(b, SkipSpace(b, i), d)
    case None => None
    case Some((e, end)) =>
      var j := SkipSpace(b, end);
      if j >= |b| then None
      else if b[j] == RBRACE then Some(([e], j + 1))
      else if b[j] != COMMA then None
      else
        match Entries(b, j + 1, d)
        case None => None
        case Some((rest, k)) => Some(([e] + rest, k))
  }

  /** A whole document: nothing may follow the value. */
  function Document(b: Bytes): Option<Json> {
    match Value(b, SkipSpace(b, 0), 0)
    case None => None
    case Some((v, end)) => if SkipSpace(b, end) == |b| then Some(v) else None
  }
}
