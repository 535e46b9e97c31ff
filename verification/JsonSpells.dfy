/** Whatever is accepted is the spelling of a tree: the language is exactly the
    spelled documents that nest at most 32 deep. */
module JsonSpells {
  import opened Common
  import opened Utf8
  import opened JsonGrammar
  import opened JsonSyntax
  import opened JsonReads

  lemma Joins(b: Bytes, i: nat, j: nat, k: nat)
    requires i <= j <= k <= |b|
    ensures b[i..k] == b[i..j] + b[j..k]
  {
  }

  lemma Marked(b: Bytes, i: nat, k: nat)
    requires i < k <= |b|
    ensures b[i..k] == [b[i]] + b[i + 1..k]
  {
  }

  /** What is skipped is a gap. */
  lemma {:induction false} SkippedIsGap(b: Bytes, i: nat)
    requires i <= |b|
    ensures IsGap(b[i..SkipSpace(b, i)])
    decreases |b| - i
  {
    if i < |b| && IsSpace(b[i]) {
      SkippedIsGap(b, i + 1);
      Marked(b, i, SkipSpace(b, i));
    }
  }

  // ----- strings -----

  lemma HexSpelled(b: Bytes, i: nat) returns (h: Hex)
    requires HasAt(b, i, BACKSLASH_U) && Hex4(b, i + 2).Some?
    ensures HexOk(h) && Hex4(b, i + 2) == Some((HexNumber(h), i + 6)) && b[i..i + 6] == SpellHex(h)
  {
    hide Hex4, HexNumber, HexOk;
    Hex4Is(b, i + 2);
    h := Hex(b[i + 2], b[i + 3], b[i + 4], b[i + 5]);
    assert b[i] == b[i..i + 2][0] && b[i + 1] == b[i..i + 2][1];
  }

  lemma PlainSpelled(b: Bytes, i: nat) returns (p: Piece)
    requires i < |b| && b[i] != 0x22 && b[i] != 0x5C && StrChar(b, i).Some?
    ensures PieceOk(p) && StrChar(b, i).value.0 == PieceMeaning(p)
    ensures b[i..StrChar(b, i).value.1] == SpellPiece(p)
  {
    hide Decode;
    var (c, n) := DecodeChar(b[i..]).value;
    p := Plain(c);
    EncodeDecodedChar(b[i..]);
    assert b[i..][..n] == b[i..i + n];
    assert EncodeChar(c)[0] == b[i];
  }

  lemma EscapeSpelled(b: Bytes, i: nat) returns (p: Piece)
    requires i < |b| && b[i] == 0x5C && StrChar(b, i).Some?
    ensures PieceOk(p) && StrChar(b, i).value.0 == PieceMeaning(p)
    ensures b[i..StrChar(b, i).value.1] == SpellPiece(p)
  {
    hide Hex4, HexNumber, HexOk;
    if b[i + 1] == 0x75 {
      assert b[i..i + 2] == BACKSLASH_U;
      var hi := HexSpelled(b, i);
      if IsHigh(HexNumber(hi)) {
        var lo := HexSpelled(b, i + 6);
        p := Pair(hi, lo);
        Joins(b, i, i + 6, i + 12);
      } else {
        p := Unit(hi);
      }
    } else {
      p := Letter(b[i + 1]);
    }
  }

  lemma PieceSpelled(b: Bytes, i: nat) returns (p: Piece)
    requires i < |b| && b[i] != 0x22 && StrChar(b, i).Some?
    ensures PieceOk(p) && StrChar(b, i).value.0 == PieceMeaning(p)
    ensures b[i..StrChar(b, i).value.1] == SpellPiece(p)
  {
    if b[i] == 0x5C { p := EscapeSpelled(b, i); } else { p := PlainSpelled(b, i); }
  }

  lemma {:induction false} BodySpelled(b: Bytes, i: nat) returns (s: Body)
    requires i <= |b| && StrBody(b, i).Some?
    ensures BodyOk(s) && StrBody(b, i).value.0 == BodyMeaning(s)
    ensures b[i..StrBody(b, i).value.1] == SpellBody(s)
    decreases |b| - i
  {
    hide StrChar, SpellPiece, PieceMeaning, PieceOk;
    var k := StrBody(b, i).value.1;
    if b[i] == QUOTE {
      s := [];
    } else {
      var p := PieceSpelled(b, i);
      var j := StrChar(b, i).value.1;
      var rest := BodySpelled(b, j);
      s := [p] + rest;
      assert s[1..] == rest;
      Joins(b, i, j, k);
    }
  }

  lemma StringSpelled(b: Bytes, i: nat) returns (s: Body)
    requires i < |b| && b[i] == QUOTE && StrBody(b, i + 1).Some?
    ensures BodyOk(s) && StrBody(b, i + 1).value.0 == BodyMeaning(s)
    ensures b[i..StrBody(b, i + 1).value.1] == SpellString(s)
  {
    hide StrBody, SpellBody;
    s := BodySpelled(b, i + 1);
    Marked(b, i, StrBody(b, i + 1).value.1);
  }

  // ----- values -----

  lemma NumberSpelled(b: Bytes, i: nat)
    requires i < |b| && Number(b, i).Some?
    ensures var (v, end) := Number(b, i).value; TokenOk(b[i..end]) && v == Num(Latin1(b[i..end]))
  {
    var end := Number(b, i).value.1;
    var t := b[i..end];
    forall k | 0 <= k < |t| ensures IsNumByte(t[k]) { assert t[k] == b[i + k]; }
  }

  lemma LiteralSpelled(b: Bytes, i: nat, lit: Bytes, v: Json)
    requires |lit| > 0 && Literal(b, i, lit, v).Some?
    ensures var (w, end) := Literal(b, i, lit, v).value; w == v && b[i..end] == lit
  {
  }

  lemma {:induction false} TreeSpelled(b: Bytes, i: nat, d: nat) returns (x: Tree)
    requires i <= |b| && d <= 32 && Value(b, i, d).Some?
    ensures var (v, end) := Value(b, i, d).value;
            TreeOk(x) && Meaning(x) == v && b[i..end] == Spell(x) && Levels(x) + d <= 32
    decreases |b| - i, 1
  {
    hide Number, SkipSpace, StrBody, Items, Entries, Literal, Latin1, SpellString, BodyMeaning, TokenOk;
    var end := Value(b, i, d).value.1;
    if b[i] == 0x6E {
      LiteralSpelled(b, i, NULL, Null);
      x := TNull;
    } else if b[i] == 0x74 {
      LiteralSpelled(b, i, TRUE, Bool(true));
      x := TTrue;
    } else if b[i] == 0x66 {
      LiteralSpelled(b, i, FALSE, Bool(false));
      x := TFalse;
    } else if b[i] == QUOTE {
      var s := StringSpelled(b, i);
      x := TString(s);
    } else if b[i] == LBRACKET || b[i] == LBRACE {
      x := ContainerSpelled(b, i, d);
    } else {
      NumberSpelled(b, i);
      x := TNumber(b[i..end]);
    }
  }

  lemma {:induction false} ContainerSpelled(b: Bytes, i: nat, d: nat) returns (x: Tree)
    requires i < |b| && d <= 32 && Value(b, i, d).Some? && (b[i] == LBRACKET || b[i] == LBRACE)
    ensures var (v, end) := Value(b, i, d).value;
            TreeOk(x) && Meaning(x) == v && b[i..end] == Spell(x) && Levels(x) + d <= 32
    decreases |b| - i, 0
  {
    hide Value, Items, Entries, SkipSpace, IsGap, SpellItems, SpellMembers, ItemsMeaning, MembersMeaning;
    var end := Value(b, i, d).value.1;
    var j := SkipSpace(b, i + 1);
    InContainer(b, i, d);
    ContainerIs(b, i, d, j);
    Marked(b, i, end);
    if b[j] == (if b[i] == LBRACKET then RBRACKET else RBRACE) {
      SkippedIsGap(b, i + 1);
      Joins(b, i + 1, j, end);
      assert b[j..end] == [b[j]];
      x := if b[i] == LBRACKET then TEmptyArray(b[i + 1..j]) else TEmptyObject(b[i + 1..j]);
    } else if b[i] == LBRACKET {
      var xs := ItemsSpelled(b, i + 1, d + 1);
      x := TArray(xs);
    } else {
      var ms := MembersSpelled(b, i + 1, d + 1);
      x := TObject(ms);
    }
  }

  /** Something stands behind the opening mark of a container that is accepted. */
  lemma InContainer(b: Bytes, i: nat, d: nat)
    requires i < |b| && Value(b, i, d).Some? && (b[i] == LBRACKET || b[i] == LBRACE)
    ensures SkipSpace(b, i + 1) < |b| && d + 1 <= 32
  {
    hide SkipSpace, StrBody;
    SkipTwice(b, i + 1);
  }

  /** What an accepted run of items is made of. */
  lemma ItemsParts(b: Bytes, i: nat, d: nat)
    requires i <= |b| && Items(b, i, d).Some?
    ensures var at := SkipSpace(b, i);
            && Value(b, at, d).Some?
            && var (v, end) := Value(b, at, d).value; var j := SkipSpace(b, end);
               && i <= at < end <= j < |b| && (b[j] == RBRACKET || b[j] == COMMA)
               && (b[j] == COMMA ==> Items(b, j + 1, d).Some?)
               && Items(b, i, d) == Some(if b[j] == RBRACKET then ([v], j + 1)
                                         else ([v] + Items(b, j + 1, d).value.0, Items(b, j + 1, d).value.1))
  {
    hide SkipSpace, Value;
  }

  lemma EntriesParts(b: Bytes, i: nat, d: nat)
    requires i <= |b| && Entries(b, i, d).Some?
    ensures var at := SkipSpace(b, i);
            && Member(b, at, d).Some?
            && var (e, end) := Member(b, at, d).value; var j := SkipSpace(b, end);
               && i <= at < end <= j < |b| && (b[j] == RBRACE || b[j] == COMMA)
               && (b[j] == COMMA ==> Entries(b, j + 1, d).Some?)
               && Entries(b, i, d) == Some(if b[j] == RBRACE then ([e], j + 1)
                                           else ([e] + Entries(b, j + 1, d).value.0, Entries(b, j + 1, d).value.1))
  {
    hide SkipSpace, Member;
  }

  lemma MemberParts(b: Bytes, at: nat, d: nat) returns (key: Text, keyEnd: nat, colon: nat, start: nat, v: Json, end: nat)
    requires at <= |b| && Member(b, at, d).Some?
    ensures at < keyEnd <= colon < start < end <= |b| && b[at] == QUOTE && b[colon] == COLON
    ensures StrBody(b, at + 1) == Some((key, keyEnd)) && SkipSpace(b, keyEnd) == colon
    ensures SkipSpace(b, colon + 1) == start && Value(b, start, d) == Some((v, end))
    ensures Member(b, at, d) == Some((Entry(key, v), end))
  {
    hide SkipSpace, Value, StrBody;
    key, keyEnd := StrBody(b, at + 1).value.0, StrBody(b, at + 1).value.1;
    colon := SkipSpace(b, keyEnd);
    start := SkipSpace(b, colon + 1);
    v, end := Value(b, start, d).value.0, Value(b, start, d).value.1;
  }

  lemma {:induction false} ItemsSpelled(b: Bytes, i: nat, d: nat) returns (xs: ItemList)
    requires i <= |b| && d <= 32 && Items(b, i, d).Some?
    ensures var (vs, end) := Items(b, i, d).value;
            ItemsOk(xs) && ItemsMeaning(xs) == vs && b[i..end] == SpellItems(xs) && ItemLevels(xs) + d <= 32
    decreases |b| - i, 2
  {
    hide SkipSpace, Value, Items, TreeOk, Meaning, Spell, Levels, IsGap;
    ItemsParts(b, i, d);
    var k := Items(b, i, d).value.1;
    var at := SkipSpace(b, i);
    var end := Value(b, at, d).value.1;
    var j := SkipSpace(b, end);
    var x := TreeSpelled(b, at, d);
    SkippedIsGap(b, i);
    SkippedIsGap(b, end);
    var more: Option<ItemList> := None;
    if b[j] == COMMA {
      var rest := ItemsSpelled(b, j + 1, d);
      more := Some(rest);
    }
    xs := ItemList(b[i..at], x, b[end..j], more);
    ItemJoins(b, i, at, end, j, k);
  }

  lemma ItemJoins(b: Bytes, i: nat, at: nat, end: nat, j: nat, k: nat)
    requires i <= at <= end <= j < k <= |b|
    ensures b[i..k] == b[i..at] + (b[at..end] + (b[end..j] + ([b[j]] + b[j + 1..k])))
    ensures b[j..j + 1] == [b[j]] && b[j + 1..j + 1] == []
  {
    Joins(b, i, at, k);
    Joins(b, at, end, k);
    Joins(b, end, j, k);
    Marked(b, j, k);
  }

  lemma {:induction false} MembersSpelled(b: Bytes, i: nat, d: nat) returns (ms: MemberList)
    requires i <= |b| && d <= 32 && Entries(b, i, d).Some?
    ensures var (es, end) := Entries(b, i, d).value;
            MembersOk(ms) && MembersMeaning(ms) == es && b[i..end] == SpellMembers(ms) && MemberLevels(ms) + d <= 32
    decreases |b| - i, 2
  {
    hide SkipSpace, Value, StrBody, Entries, Member, TreeOk, Meaning, Spell, Levels, IsGap, SpellString, BodyMeaning, BodyOk;
    EntriesParts(b, i, d);
    var k := Entries(b, i, d).value.1;
    var at := SkipSpace(b, i);
    var name, keyEnd, colon, start, v, end := MemberParts(b, at, d);
    var j := SkipSpace(b, end);
    var key := StringSpelled(b, at);
    var x := TreeSpelled(b, start, d);
    SkippedIsGap(b, i);
    SkippedIsGap(b, keyEnd);
    SkippedIsGap(b, colon + 1);
    SkippedIsGap(b, end);
    var more: Option<MemberList> := None;
    if b[j] == COMMA {
      var rest := MembersSpelled(b, j + 1, d);
      more := Some(rest);
    }
    ms := MemberList(b[i..at], key, b[keyEnd..colon], b[colon + 1..start], x, b[end..j], more);
    MemberSpelled(b, i, at, keyEnd, colon, start, end, ms);
    hide SpellMember;
    MemberJoins(b, i, end, j, k);
  }

  lemma MemberJoins(b: Bytes, i: nat, end: nat, j: nat, k: nat)
    requires i <= end <= j < k <= |b|
    ensures b[i..k] == b[i..end] + (b[end..j] + ([b[j]] + b[j + 1..k]))
    ensures b[j..j + 1] == [b[j]] && b[j + 1..j + 1] == []
  {
    Joins(b, i, end, k);
    Joins(b, end, j, k);
    Marked(b, j, k);
  }

  lemma MemberSpelled(b: Bytes, i: nat, at: nat, keyEnd: nat, colon: nat, start: nat, end: nat, ms: MemberList)
    requires i <= at <= keyEnd <= colon < start <= end <= |b| && b[colon] == 0x3A
    requires ms.before == b[i..at] && SpellString(ms.key) == b[at..keyEnd] && ms.beforeColon == b[keyEnd..colon]
    requires ms.afterColon == b[colon + 1..start] && Spell(ms.value) == b[start..end]
    ensures b[i..end] == SpellMember(ms)
  {
    hide SpellString, Spell;
    Joins(b, i, at, end);
    Joins(b, at, keyEnd, end);
    Joins(b, keyEnd, colon, end);
    Marked(b, colon, end);
    Joins(b, colon + 1, start, end);
  }

  // ----- the language -----

  /** The bytes are those of a document of value `v` nesting at most 32 deep. */
  ghost predicate IsDocument(b: Bytes, v: Json) {
    exists t: Doc :: DocOk(t) && SpellDoc(t) == b && Meaning(t.tree) == v && Levels(t.tree) <= 32
  }

  /** The parser against the written-out language, both ways and for every text: a
      value is returned exactly when the text is a document of that value. */
  lemma AcceptedIff(b: Bytes, v: Json)
    requires Valid(b)
    ensures Document(b) == Some(v) <==> IsDocument(b, v)
  {
    hide Decode, Valid, Value, SkipSpace, Spell, Meaning, Levels, TreeOk, IsGap;
    if IsDocument(b, v) {
      var t: Doc :| DocOk(t) && SpellDoc(t) == b && Meaning(t.tree) == v && Levels(t.tree) <= 32;
      DocReads(t);
    }
    if Document(b) == Some(v) {
      var at := SkipSpace(b, 0);
      var end := Value(b, at, 0).value.1;
      var x := TreeSpelled(b, at, 0);
      SkippedIsGap(b, 0);
      SkippedIsGap(b, end);
      var t := Doc(b[0..at], x, b[end..|b|]);
      Joins(b, 0, at, |b|);
      Joins(b, at, end, |b|);
      assert b[0..|b|] == b;
      assert SpellDoc(t) == b;
    }
  }
}
