/** What the escapes of a string mean, and the one form every document has. */
module JsonEscapes {
  import opened Common
  import opened Utf8
  import opened JsonGrammar
  import opened JsonPrinter
  import opened JsonProofs

  /** A scalar value as UTF-16 code units. */
  function Utf16(c: Scalar): seq<nat> {
    if c < 0x10000 then [c]
    else [0xD800 + (c - 0x10000) / 0x400, 0xDC00 + (c - 0x10000) % 0x400]
  }

  /** Code units as four hexadecimal digits each, from behind the first `\u` on. */
  predicate Spells(b: Bytes, i: nat, j: nat, units: seq<nat>) {
    if |units| == 1 then Hex4(b, i) == Some((units[0], j))
    else
      |units| == 2 && Hex4(b, i) == Some((units[0], i + 4)) && HasAt(b, i + 4, BACKSLASH_U) &&
      Hex4(b, i + 6) == Some((units[1], j))
  }

  /** A `\u` escape is read as a character exactly when it spells that character
      in UTF-16; surrogates out of place spell none and are refused. */
  lemma UnicodeIsUtf16(b: Bytes, i: nat, c: Scalar, j: nat)
    ensures Unicode(b, i) == Some((c, j)) <==> Spells(b, i, j, Utf16(c))
  {
    hide HexRun;
    if c >= 0x10000 {
      var d := c - 0x10000;
      assert d == d / 0x400 * 0x400 + d % 0x400 && d / 0x400 < 0x400;
      if Unicode(b, i) == Some((c, j)) {
        var hi, lo := Hex4(b, i).value.0, Hex4(b, i + 6).value.0;
        assert d == (hi - 0xD800) * 0x400 + (lo - 0xDC00);
        assert d / 0x400 == hi - 0xD800 && d % 0x400 == lo - 0xDC00;
      }
    }
  }

  /** Every document that is accepted has a canonical form: its value printed.
      That form is accepted, means the same, and is its own canonical form. */
  lemma CanonicalForm(b: Bytes)
    requires Document(b).Some?
    ensures Document(Encode(Print(Document(b).value))) == Document(b)
  {
    hide Value, Print, Encode, NumbersOk, Depth;
    ValueIsProper(b, SkipSpace(b, 0), 0);
    PrintThenParse(Document(b).value);
  }

  /** Two documents mean the same exactly when they have one canonical form. */
  lemma SameMeaningIff(a: Bytes, b: Bytes)
    requires Document(a).Some? && Document(b).Some?
    ensures Document(a) == Document(b) <==> Print(Document(a).value) == Print(Document(b).value)
  {
    hide Document, Print;
    CanonicalForm(a);
    CanonicalForm(b);
  }
}
