/** UTF-8, as section 4 of RFC 3629 lays it out byte by byte. */
module Utf8 {
  import opened Common

  /** A Unicode scalar value: what a Rust `char` can hold. */
  type Scalar = c: int | 0 <= c < 0xD800 || 0xE000 <= c < 0x110000
  type Byte = b: int | 0 <= b < 0x100
  type Text = seq<Scalar>
  type Bytes = seq<Byte>

  function EncodeChar(c: Scalar): (r: Bytes)
    ensures 1 <= |r| <= 4
  {
    if c < 0x80 then [c]
    else if c < 0x800 then [0xC0 + c / 0x40, 0x80 + c % 0x40]
    else if c < 0x10000 then [0xE0 + c / 0x1000, 0x80 + c / 0x40 % 0x40, 0x80 + c % 0x40]
    else [0xF0 + c / 0x40000, 0x80 + c / 0x1000 % 0x40, 0x80 + c / 0x40 % 0x40, 0x80 + c % 0x40]
  }

  function Encode(s: Text): Bytes {
    if s == [] then [] else EncodeChar(s[0]) + Encode(s[1..])
  }

  predicate Continues(b: Byte) { 0x80 <= b < 0xC0 }

  /** Whether a three-byte sequence may start with these two bytes. */
  predicate Lead3(x: Byte, y: Byte) {
    Continues(y) && (x == 0xE0 ==> y >= 0xA0) && (x == 0xED ==> y < 0xA0)
  }

  /** Whether a four-byte sequence may start with these two bytes. */
  predicate Lead4(x: Byte, y: Byte) {
    Continues(y) && (x == 0xF0 ==> y >= 0x90) && (x == 0xF4 ==> y < 0x90)
  }

  /** The payload of a byte above its marker bits. */
  function Bits(b: Byte, marker: int): int { b - marker }

  /** The first character and its length, if the bytes start with a legal one. */
  function DecodeChar(b: Bytes): (r: Option<(Scalar, nat)>)
    ensures r.Some? ==> 1 <= r.value.1 <= |b|
  {
    if |b| == 0 then None
    else if b[0] < 0x80 then Some((b[0], 1))
    else if 0xC2 <= b[0] < 0xE0 then
      if |b| >= 2 && Continues(b[1])
      then Some((Bits(b[0], 0xC0) * 0x40 + Bits(b[1], 0x80), 2)) else None
    else if 0xE0 <= b[0] < 0xF0 then
      if |b| >= 3 && Lead3(b[0], b[1]) && Continues(b[2])
      then Some((Bits(b[0], 0xE0) * 0x1000 + Bits(b[1], 0x80) * 0x40 + Bits(b[2], 0x80), 3)) else None
    else if 0xF0 <= b[0] < 0xF5 then
      if |b| >= 4 && Lead4(b[0], b[1]) && Continues(b[2]) && Continues(b[3])
      then Some((Bits(b[0], 0xF0) * 0x40000 + Bits(b[1], 0x80) * 0x1000 + Bits(b[2], 0x80) * 0x40 + Bits(b[3], 0x80), 4))
      else None
    else None
  }

  /** `str::from_utf8`. */
  function Decode(b: Bytes): Option<Text> {
    if b == [] then Some([])
    else
      match DecodeChar(b)
      case None => None
      case Some((c, n)) =>
        match Decode(b[n..])
        case None => None
        case Some(s) => Some([c] + s)
  }

  predicate Valid(b: Bytes) {
    Decode(b).Some?
  }

  /** `str::is_char_boundary`. */
  predicate Boundary(b: Bytes, i: nat) {
    i == |b| || (i < |b| && !Continues(b[i]))
  }

  /** Bytes below 0x80 read as the characters they are. */
  function Latin1(b: Bytes): (s: Text)
    ensures |s| == |b|
    ensures forall i | 0 <= i < |b| :: s[i] == b[i]
  {
    seq(|b|, i requires 0 <= i < |b| => b[i])
  }

  /** `char::is_whitespace`: the Unicode White_Space characters. */
  predicate IsWhitespace(c: Scalar) {
    9 <= c <= 13 || c == 0x20 || c == 0x85 || c == 0xA0 || c == 0x1680 || 0x2000 <= c <= 0x200A ||
    c == 0x2028 || c == 0x2029 || c == 0x202F || c == 0x205F || c == 0x3000
  }

  function TrimStart(s: Text): (r: Text)
    ensures |r| <= |s| && r == s[|s| - |r|..]
    ensures r != [] ==> !IsWhitespace(r[0])
    ensures forall k | 0 <= k < |s| - |r| :: IsWhitespace(s[k])
  {
    if s != [] && IsWhitespace(s[0]) then TrimStart(s[1..]) else s
  }

  function TrimEnd(s: Text): (r: Text)
    ensures r <= s
    ensures r != [] ==> !IsWhitespace(r[|r| - 1])
    ensures forall k | |r| <= k < |s| :: IsWhitespace(s[k])
  {
    if s != [] && IsWhitespace(s[|s| - 1]) then TrimEnd(s[..|s| - 1]) else s
  }

  /** `str::trim`. */
  function Trim(s: Text): (r: Text)
    ensures |r| <= |s|
    ensures r != [] ==> !IsWhitespace(r[0]) && !IsWhitespace(r[|r| - 1])
  {
    TrimEnd(TrimStart(s))
  }

  // ----- one character -----

  /** A number below 2^24 is its base-64 digits. */
  lemma Digits(c: nat)
    ensures c / 0x1000 == c / 0x40 / 0x40 && c / 0x40000 == c / 0x1000 / 0x40
    ensures c == c / 0x40 * 0x40 + c % 0x40
    ensures c / 0x40 == c / 0x1000 * 0x40 + c / 0x40 % 0x40
    ensures c / 0x1000 == c / 0x40000 * 0x40 + c / 0x1000 % 0x40
  {
  }

  lemma DecodeEncodedChar(c: Scalar, rest: Bytes)
    ensures DecodeChar(EncodeChar(c) + rest) == Some((c, |EncodeChar(c)|))
  {
    Digits(c);
    var e := EncodeChar(c);
    var b := e + rest;
    assert b[0] == e[0];
    if |e| == 2 {
      assert b[1] == e[1];
    } else if |e| == 3 {
      assert b[1] == e[1] && b[2] == e[2];
    } else if |e| == 4 {
      assert b[1] == e[1] && b[2] == e[2] && b[3] == e[3];
    }
  }

  lemma EncodeDecodedChar(b: Bytes)
    requires DecodeChar(b).Some?
    ensures var (c, n) := DecodeChar(b).value; b[..n] == EncodeChar(c)
  {
    var (c, n) := DecodeChar(b).value;
    Digits(c);
    if n == 2 {
      assert c / 0x40 == Bits(b[0], 0xC0) && c % 0x40 == Bits(b[1], 0x80);
    } else if n == 3 {
      assert c / 0x40 == Bits(b[0], 0xE0) * 0x40 + Bits(b[1], 0x80);
    } else if n == 4 {
      assert c / 0x40 == Bits(b[0], 0xF0) * 0x1000 + Bits(b[1], 0x80) * 0x40 + Bits(b[2], 0x80);
      assert c / 0x1000 == Bits(b[0], 0xF0) * 0x40 + Bits(b[1], 0x80);
    }
  }

  /** Only the first byte of an encoded character is not a continuation. */
  lemma EncodedShape(c: Scalar)
    ensures !Continues(EncodeChar(c)[0])
    ensures forall i | 1 <= i < |EncodeChar(c)| :: Continues(EncodeChar(c)[i])
    ensures c >= 0x80 ==> EncodeChar(c)[0] >= 0x80
  {
  }

  /** The table of section 3 of RFC 3629: which bytes a character takes, and how its
      number stands in them. */
  lemma EncodedBytes(c: Scalar)
    ensures var e: seq<int> := EncodeChar(c);
            if c <= 0x7F then e == [c]
            else if c <= 0x7FF then
              |e| == 2 && 0xC2 <= e[0] <= 0xDF && 0x80 <= e[1] <= 0xBF && c == (e[0] - 0xC0) * 64 + (e[1] - 0x80)
            else if c <= 0xFFFF then
              |e| == 3 && 0xE0 <= e[0] <= 0xEF && 0x80 <= e[1] <= 0xBF && 0x80 <= e[2] <= 0xBF &&
              c == (e[0] - 0xE0) * 4096 + (e[1] - 0x80) * 64 + (e[2] - 0x80)
            else
              |e| == 4 && 0xF0 <= e[0] <= 0xF4 && 0x80 <= e[1] <= 0xBF && 0x80 <= e[2] <= 0xBF && 0x80 <= e[3] <= 0xBF &&
              c == (e[0] - 0xF0) * 262144 + (e[1] - 0x80) * 4096 + (e[2] - 0x80) * 64 + (e[3] - 0x80)
  {
    Digits(c);
  }

  /** The twenty-five characters Unicode calls White_Space. */
  predicate White(c: Scalar) {
    c in {0x09, 0x0A, 0x0B, 0x0C, 0x0D, 0x20, 0x85, 0xA0, 0x1680, 0x2000, 0x2001, 0x2002, 0x2003, 0x2004, 0x2005,
          0x2006, 0x2007, 0x2008, 0x2009, 0x200A, 0x2028, 0x2029, 0x202F, 0x205F, 0x3000}
  }

  lemma WhiteIs(c: Scalar)
    ensures IsWhitespace(c) <==> White(c)
  {
  }

  predicate AllWhite(s: Text) { forall k | 0 <= k < |s| :: White(s[k]) }

  lemma TrimmedFront(s: Text) returns (front: Text)
    ensures AllWhite(front) && s == front + TrimStart(s)
  {
    hide TrimStart, White, IsWhitespace;
    var n := |s| - |TrimStart(s)|;
    front := s[..n];
    forall k | 0 <= k < n ensures White(front[k]) { WhiteIs(s[k]); }
  }

  lemma TrimmedBehind(s: Text) returns (behind: Text)
    ensures AllWhite(behind) && s == TrimEnd(s) + behind
  {
    hide TrimEnd, White, IsWhitespace;
    var n := |TrimEnd(s)|;
    behind := s[n..];
    forall k | 0 <= k < |behind| ensures White(behind[k]) { WhiteIs(s[n + k]); }
  }

  /** Trimming takes white space off both ends, all of it and nothing else. */
  lemma TrimTakesSpace(s: Text)
    ensures var r := Trim(s);
            && (exists front, behind :: AllWhite(front) && AllWhite(behind) && s == front + (r + behind))
            && (r != [] ==> !White(r[0]) && !White(r[|r| - 1]))
  {
    hide White, IsWhitespace, AllWhite, TrimStart, TrimEnd;
    var front := TrimmedFront(s);
    var behind := TrimmedBehind(TrimStart(s));
    var r := Trim(s);
    if r != [] {
      WhiteIs(r[0]);
      WhiteIs(r[|r| - 1]);
    }
  }

  // ----- whole texts -----

  lemma {:induction false} EncodeConcat(s: Text, t: Text)
    ensures Encode(s + t) == Encode(s) + Encode(t)
  {
    if s == [] {
      assert s + t == t;
    } else {
      assert (s + t)[1..] == s[1..] + t;
      EncodeConcat(s[1..], t);
    }
  }

  lemma {:induction false} DecodeEncoded(s: Text)
    ensures Decode(Encode(s)) == Some(s)
  {
    hide DecodeChar, EncodeChar;
    if s != [] {
      var e := EncodeChar(s[0]);
      DecodeEncodedChar(s[0], Encode(s[1..]));
      assert Encode(s) == e + Encode(s[1..]);
      assert Encode(s)[|e|..] == Encode(s[1..]);
      DecodeEncoded(s[1..]);
      assert s == [s[0]] + s[1..];
    }
  }

  lemma {:induction false} EncodeDecoded(b: Bytes)
    requires Valid(b)
    ensures Encode(Decode(b).value) == b
  {
    hide DecodeChar, EncodeChar;
    if b != [] {
      var (c, n) := DecodeChar(b).value;
      EncodeDecodedChar(b);
      EncodeDecoded(b[n..]);
      assert b == b[..n] + b[n..];
      assert Decode(b).value[1..] == Decode(b[n..]).value;
    }
  }

  /** A valid text cut at a character boundary leaves a valid text. */
  lemma {:induction false} ValidFrom(b: Bytes, i: nat)
    requires Valid(b) && Boundary(b, i)
    ensures Valid(b[i..])
  {
    hide DecodeChar, EncodeChar;
    if i == 0 {
      assert b[0..] == b;
    } else if i == |b| {
      assert b[i..] == [];
    } else {
      var (c, n) := DecodeChar(b).value;
      EncodeDecodedChar(b);
      EncodedShape(c);
      assert forall k | 0 <= k < n :: b[k] == EncodeChar(c)[k];
      assert b[n..][i - n] == b[i];
      ValidFrom(b[n..], i - n);
      assert b[n..][i - n..] == b[i..];
    }
  }

  /** The position after the character at a boundary is a boundary. */
  lemma {:induction false} BoundaryAfter(b: Bytes, i: nat)
    requires Valid(b) && i < |b| && Boundary(b, i)
    ensures DecodeChar(b[i..]).Some? && i + DecodeChar(b[i..]).value.1 <= |b|
    ensures Boundary(b, i + DecodeChar(b[i..]).value.1)
  {
    hide DecodeChar, EncodeChar;
    ValidFrom(b, i);
    var rest := b[i..];
    var n := DecodeChar(rest).value.1;
    var tail := rest[n..];
    assert Valid(tail);
    if tail != [] {
      EncodeDecodedChar(tail);
      EncodedShape(DecodeChar(tail).value.0);
      assert tail[0] == tail[..DecodeChar(tail).value.1][0];
      assert tail[0] == b[i + n];
    }
  }

  lemma {:induction false} EncodeAscii(b: Bytes)
    requires forall i | 0 <= i < |b| :: b[i] < 0x80
    ensures Encode(Latin1(b)) == b
  {
    if b != [] {
      assert Latin1(b)[1..] == Latin1(b[1..]);
      EncodeAscii(b[1..]);
      assert b == [b[0]] + b[1..];
    }
  }
}
