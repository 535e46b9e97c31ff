/**
 Command lines as trees of what stands in them, and where each may be cut.

 A line is plain characters, single and double bars, strings and bracketed groups.
 It may end in something that never closes, or in a bracket closed once too often
 with none opened behind it; from there on nothing is cut. The marks are written
 out as numbers.
 */
module PipelineGrammar {
  import opened Common
  import opened Utf8
  import opened Pipeline
  import opened PipelineProofs

  /** A character of a string: itself, or anything behind a backslash. */
  datatype Piece = Raw(c: Scalar) | Escaped(c: Scalar)

  /** What may stand inside brackets: bars and arrows are characters like others. */
  datatype Inner = Other(c: Scalar) | Quoted(body: seq<Piece>) | Group(open: Scalar, inside: seq<Inner>, close: Scalar)

  datatype Part = Plain(c: Scalar) | Bar | Bars | Nested(inner: Inner)

  datatype Tail =
    | Done
    | OpenString(body: seq<Piece>)
    | OpenGroup(open: Scalar, inside: seq<Inner>)
    | StrayClose(close: Scalar, behind: seq<Inner>)

  datatype Line = Line(parts: seq<Part>, tail: Tail)

  // ----- what may stand where -----

  predicate IsOpen(c: Scalar) { c == 0x28 || c == 0x5B || c == 0x7B }
  predicate IsClose(c: Scalar) { c == 0x29 || c == 0x5D || c == 0x7D }
  predicate IsOrdinary(c: Scalar) { c != 0x22 && !IsOpen(c) && !IsClose(c) }

  predicate BodyOk(s: seq<Piece>) { forall k | 0 <= k < |s| :: s[k].Raw? ==> s[k].c != 0x22 && s[k].c != 0x5C }

  predicate InnerOk(x: Inner) {
    match x
    case Other(c) => IsOrdinary(c)
    case Quoted(s) => BodyOk(s)
    case Group(open, inside, close) => IsOpen(open) && InsideOk(inside) && IsClose(close)
  }

  predicate InsideOk(xs: seq<Inner>) { forall k | 0 <= k < |xs| :: InnerOk(xs[k]) }

  predicate Flat(xs: seq<Inner>) { forall k | 0 <= k < |xs| :: !xs[k].Group? }

  predicate PartOk(x: Part) {
    match x
    case Plain(c) => IsOrdinary(c) && c != 0x7C
    case Nested(y) => !y.Other? && InnerOk(y)
    case _ => true
  }

  predicate TailOk(x: Tail) {
    match x
    case Done => true
    case OpenString(s) => BodyOk(s)
    case OpenGroup(open, inside) => IsOpen(open) && InsideOk(inside)
    case StrayClose(close, behind) => IsClose(close) && InsideOk(behind) && Flat(behind)
  }

  /** A single bar is not followed by another bar. */
  predicate PartsOk(xs: seq<Part>) {
    (forall k | 0 <= k < |xs| :: PartOk(xs[k])) &&
    (forall k | 0 <= k < |xs| - 1 :: xs[k].Bar? ==> !xs[k + 1].Bar? && !xs[k + 1].Bars?)
  }

  predicate LineOk(x: Line) { PartsOk(x.parts) && TailOk(x.tail) }

  // ----- the characters -----

  function SpellPiece(p: Piece): Text {
    match p
    case Raw(c) => [c]
    case Escaped(c) => [0x5C] + [c]
  }

  function SpellPieces(s: seq<Piece>): Text {
    if s == [] then [] else SpellPiece(s[0]) + SpellPieces(s[1..])
  }

  function SpellInner(x: Inner): Text {
    match x
    case Other(c) => [c]
    case Quoted(s) => [0x22] + (SpellPieces(s) + [0x22])
    case Group(open, inside, close) => [open] + (SpellInside(inside) + [close])
  }

  function SpellInside(xs: seq<Inner>): Text {
    if xs == [] then [] else SpellInner(xs[0]) + SpellInside(xs[1..])
  }

  function SpellPart(x: Part): Text {
    match x
    case Plain(c) => [c]
    case Bar => [0x7C]
    case Bars => [0x7C, 0x7C]
    case Nested(y) => SpellInner(y)
  }

  function SpellParts(xs: seq<Part>): Text {
    if xs == [] then [] else SpellPart(xs[0]) + SpellParts(xs[1..])
  }

  function SpellTail(x: Tail): Text {
    match x
    case Done => []
    case OpenString(s) => [0x22] + SpellPieces(s)
    case OpenGroup(open, inside) => [open] + SpellInside(inside)
    case StrayClose(close, behind) => [close] + SpellInside(behind)
  }

  function Spell(x: Line): Text { SpellParts(x.parts) + SpellTail(x.tail) }

  // ----- where a line may be cut -----

  /** An arrow at `i` is no part of `>=`, `>>`, `->` or `<>`, and what stands behind it,
      trimmed, starts with a slash. */
  predicate ArrowAt(t: Text, i: nat) {
    i < |t| && t[i] == 0x3E &&
    (i + 1 < |t| ==> t[i + 1] != 0x3D && t[i + 1] != 0x3E) &&
    (i > 0 ==> t[i - 1] != 0x2D && t[i - 1] != 0x3E && t[i - 1] != 0x3C) &&
    var behind := Trim(t[i + 1..]);
    behind != [] && behind[0] == 0x2F
  }

  /** Where part `k` starts. */
  function Start(x: Line, k: nat): nat
    requires k <= |x.parts|
  {
    |SpellParts(x.parts[..k])|
  }

  /** Whether part `k` is a place to cut: a single bar, or such an arrow. */
  predicate IsCut(x: Line, k: nat)
    requires k < |x.parts|
  {
    x.parts[k].Bar? || (x.parts[k] == Plain(0x3E) && ArrowAt(Spell(x), Start(x, k)))
  }

  // ----- reading -----

  predicate Has(t: Text, i: nat, x: Text) { i + |x| <= |t| && t[i..i + |x|] == x }

  lemma Parts(t: Text, i: nat, x: Text, y: Text)
    requires Has(t, i, x + y)
    ensures Has(t, i, x) && Has(t, i + |x|, y)
  {
    var w := t[i..i + |x + y|];
    assert w[..|x|] == x && w[|x|..] == y;
    assert t[i..i + |x|] == w[..|x|];
    assert t[i + |x|..i + |x| + |y|] == w[|x|..];
  }

  lemma CharAt(t: Text, i: nat, c: Scalar)
    requires Has(t, i, [c])
    ensures i < |t| && t[i] == c
  {
    assert t[i..i + 1][0] == t[i];
  }

  /** Nothing from `i` up to `j` is a place to cut. */
  predicate Uncut(t: Text, i: nat, j: nat) { forall k: nat | i <= k < j && k < |t| :: !Cuts(t, k) }

  function Outside(depth: int): Scan { Scan(depth, false, false, false) }
  function Within(depth: int): Scan { Scan(depth, true, false, false) }

  lemma PieceReads(t: Text, i: nat, d: int, p: Piece)
    requires p.Raw? ==> p.c != 0x22 && p.c != 0x5C
    requires Has(t, i, SpellPiece(p)) && At(t, i) == Within(d)
    ensures var j := i + |SpellPiece(p)|; At(t, j) == Within(d) && Uncut(t, i, j)
  {
    hide IsAbsolute, InOperator, At;
    if p.Raw? {
      CharAt(t, i, p.c);
      OneFurther(t, i);
    } else {
      Parts(t, i, [0x5C], [p.c]);
      CharAt(t, i, 0x5C);
      CharAt(t, i + 1, p.c);
      OneFurther(t, i);
      OneFurther(t, i + 1);
    }
  }

  lemma {:induction false} PiecesRead(t: Text, i: nat, d: int, s: seq<Piece>)
    requires BodyOk(s) && Has(t, i, SpellPieces(s)) && At(t, i) == Within(d)
    ensures var j := i + |SpellPieces(s)|; At(t, j) == Within(d) && Uncut(t, i, j)
    decreases |s|
  {
    if s == [] {
      assert Uncut(t, i, i);
    } else {
      hide At, Cuts, SpellPiece, Uncut, Has;
      var n := |SpellPiece(s[0])|;
      Parts(t, i, SpellPiece(s[0]), SpellPieces(s[1..]));
      PieceReads(t, i, d, s[0]);
      PiecesRead(t, i + n, d, s[1..]);
      UncutJoins(t, i, i + n, i + |SpellPieces(s)|);
    }
  }

  lemma UncutJoins(t: Text, i: nat, j: nat, k: nat)
    requires Uncut(t, i, j) && Uncut(t, j, k)
    ensures Uncut(t, i, k)
  {
  }

  /** A quote, a body and a quote: read over whole, whatever stands in it. */
  lemma QuotedReads(t: Text, i: nat, d: int, s: seq<Piece>)
    requires BodyOk(s) && Has(t, i, [0x22] + (SpellPieces(s) + [0x22])) && At(t, i) == Outside(d)
    ensures var j := i + |SpellPieces(s)| + 2; At(t, j) == Outside(d) && Uncut(t, i, j)
  {
    hide IsAbsolute, InOperator, SpellPieces, BodyOk, At;
    var n := |SpellPieces(s)|;
    Parts(t, i, [0x22], SpellPieces(s) + [0x22]);
    Parts(t, i + 1, SpellPieces(s), [0x22]);
    CharAt(t, i, 0x22);
    CharAt(t, i + 1 + n, 0x22);
    OneFurther(t, i);
    PiecesRead(t, i + 1, d, s);
    OneFurther(t, i + 1 + n);
  }

  /** One character of any kind outside strings, in brackets. */
  lemma OtherReads(t: Text, i: nat, d: int, c: Scalar)
    requires IsOrdinary(c) && Has(t, i, [c]) && At(t, i) == Outside(d) && d != 0
    ensures At(t, i + 1) == Outside(d) && Uncut(t, i, i + 1)
  {
    hide IsAbsolute, InOperator, At;
    CharAt(t, i, c);
    OneFurther(t, i);
  }

  lemma BracketReads(t: Text, i: nat, d: int, c: Scalar)
    requires (IsOpen(c) || IsClose(c)) && Has(t, i, [c]) && At(t, i) == Outside(d)
    ensures At(t, i + 1) == Outside(if IsOpen(c) then d + 1 else d - 1) && Uncut(t, i, i + 1)
  {
    hide IsAbsolute, InOperator, At;
    CharAt(t, i, c);
    OneFurther(t, i);
  }

  lemma {:induction false} InnerReads(t: Text, i: nat, d: int, x: Inner)
    requires InnerOk(x) && Has(t, i, SpellInner(x)) && At(t, i) == Outside(d)
    requires (x.Other? ==> d != 0) && (x.Group? ==> d >= 0)
    ensures var j := i + |SpellInner(x)|; At(t, j) == Outside(d) && Uncut(t, i, j)
    decreases x
  {
    hide At, Cuts, SpellInside, SpellPieces;
    match x
    case Other(c) => OtherReads(t, i, d, c);
    case Quoted(s) => QuotedReads(t, i, d, s);
    case Group(open, inside, close) =>
      var n := |SpellInside(inside)|;
      Parts(t, i, [open], SpellInside(inside) + [close]);
      Parts(t, i + 1, SpellInside(inside), [close]);
      BracketReads(t, i, d, open);
      InsideReads(t, i + 1, d + 1, inside);
      BracketReads(t, i + 1 + n, d + 1, close);
  }

  lemma {:induction false} InsideReads(t: Text, i: nat, d: int, xs: seq<Inner>)
    requires InsideOk(xs) && Has(t, i, SpellInside(xs)) && At(t, i) == Outside(d)
    requires d > 0 || (d < 0 && Flat(xs))
    ensures var j := i + |SpellInside(xs)|; At(t, j) == Outside(d) && Uncut(t, i, j)
    decreases xs
  {
    hide At, Cuts, SpellInner;
    if xs != [] {
      var n := |SpellInner(xs[0])|;
      Parts(t, i, SpellInner(xs[0]), SpellInside(xs[1..]));
      InnerReads(t, i, d, xs[0]);
      InsideReads(t, i + n, d, xs[1..]);
    }
  }

  // ----- a whole line -----

  /** What the reader makes of an ordinary character outside brackets. */
  lemma PlainReads(t: Text, i: nat, c: Scalar)
    requires IsOrdinary(c) && c != 0x7C && Has(t, i, [c]) && At(t, i) == START
    ensures At(t, i + 1) == START && t[i] == c && (Cuts(t, i) <==> ArrowAt(t, i))
  {
    hide At;
    CharAt(t, i, c);
    OneFurther(t, i);
  }

  lemma BarReads(t: Text, i: nat)
    requires Has(t, i, [0x7C]) && !BarAt(t, i + 1) && At(t, i) == START
    ensures At(t, i + 1) == START && t[i] == 0x7C && Cuts(t, i)
  {
    hide IsAbsolute, InOperator, At;
    CharAt(t, i, 0x7C);
    OneFurther(t, i);
  }

  lemma BarsRead(t: Text, i: nat)
    requires Has(t, i, [0x7C, 0x7C]) && At(t, i) == START
    ensures At(t, i + 2) == START && Uncut(t, i, i + 2)
  {
    hide IsAbsolute, InOperator, At;
    assert [0x7C, 0x7C] == [0x7C] + [0x7C];
    Parts(t, i, [0x7C], [0x7C]);
    CharAt(t, i, 0x7C);
    CharAt(t, i + 1, 0x7C);
    OneFurther(t, i);
    OneFurther(t, i + 1);
  }

  /** One part, from the start state to the start state: cut at its first character
      if it is a single bar or a cutting arrow, and nowhere else. */
  lemma PartReads(t: Text, i: nat, x: Part)
    requires PartOk(x) && Has(t, i, SpellPart(x)) && At(t, i) == START && (x.Bar? ==> !BarAt(t, i + 1))
    ensures var j := i + |SpellPart(x)|;
            && i < j && At(t, j) == START && Uncut(t, i + 1, j) && i < |t|
            && (Cuts(t, i) <==> x.Bar? || (x == Plain(0x3E) && ArrowAt(t, i)))
  {
    hide At, Cuts, ArrowAt, SpellInner, BarAt;
    match x
    case Plain(c) =>
      PlainReads(t, i, c);
      assert c != 0x3E ==> !ArrowAt(t, i) by { ArrowIsArrow(t, i); }
    case Bar => BarReads(t, i);
    case Bars => BarsRead(t, i);
    case Nested(y) => InnerIsLong(y); InnerReads(t, i, 0, y);
  }

  lemma ArrowIsArrow(t: Text, i: nat)
    ensures ArrowAt(t, i) ==> i < |t| && t[i] == 0x3E
  {
  }

  lemma InnerIsLong(y: Inner)
    ensures |SpellInner(y)| > 0
  {
  }

  /** A bar among the parts has no bar behind it in the line. */
  lemma NoBarNext(t: Text, i: nat, xs: seq<Part>, tail: Tail)
    requires PartsOk(xs) && TailOk(tail) && xs != [] && xs[0].Bar?
    requires Has(t, i, SpellParts(xs) + SpellTail(tail)) && i + |SpellParts(xs) + SpellTail(tail)| == |t|
    ensures !BarAt(t, i + 1)
  {
    hide SpellInside, SpellPieces;
    var rest := SpellParts(xs[1..]) + SpellTail(tail);
    assert SpellParts(xs) + SpellTail(tail) == [0x7C] + rest;
    Parts(t, i, [0x7C], rest);
    if rest != [] {
      assert t[i + 1] == t[i + 1..i + 1 + |rest|][0] == rest[0];
      if |xs| > 1 {
        assert xs[0 + 1] == xs[1];
        assert rest[0] == SpellPart(xs[1])[0];
      }
    }
  }

  lemma TailReads(t: Text, i: nat, x: Tail)
    requires TailOk(x) && Has(t, i, SpellTail(x)) && i + |SpellTail(x)| == |t| && At(t, i) == START
    ensures Uncut(t, i, |t|)
  {
    hide At, Cuts, SpellInside, SpellPieces, IsAbsolute, InOperator;
    match x
    case Done =>
    case OpenString(s) =>
      Parts(t, i, [0x22], SpellPieces(s));
      QuoteOpens(t, i);
      PiecesRead(t, i + 1, 0, s);
    case OpenGroup(open, inside) =>
      Parts(t, i, [open], SpellInside(inside));
      BracketReads(t, i, 0, open);
      InsideReads(t, i + 1, 1, inside);
    case StrayClose(close, behind) =>
      Parts(t, i, [close], SpellInside(behind));
      BracketReads(t, i, 0, close);
      InsideReads(t, i + 1, -1, behind);
  }

  lemma QuoteOpens(t: Text, i: nat)
    requires Has(t, i, [0x22]) && At(t, i) == START
    ensures At(t, i + 1) == Within(0) && Uncut(t, i, i + 1)
  {
    hide IsAbsolute, InOperator, At;
    CharAt(t, i, 0x22);
    OneFurther(t, i);
  }

  lemma {:induction false} PartsConcat(xs: seq<Part>, ys: seq<Part>)
    ensures SpellParts(xs + ys) == SpellParts(xs) + SpellParts(ys)
  {
    if xs == [] {
      assert xs + ys == ys;
    } else {
      assert (xs + ys)[1..] == xs[1..] + ys;
      PartsConcat(xs[1..], ys);
    }
  }

  /** The line from part `k` on. */
  function From(x: Line, k: nat): Text
    requires k <= |x.parts|
  {
    SpellParts(x.parts[k..]) + SpellTail(x.tail)
  }

  lemma Stands(x: Line, k: nat)
    requires k <= |x.parts|
    ensures Has(Spell(x), Start(x, k), From(x, k)) && Start(x, k) + |From(x, k)| == |Spell(x)|
    ensures Spell(x)[..Start(x, k)] == SpellParts(x.parts[..k]) && Spell(x)[Start(x, k)..] == From(x, k)
  {
    hide SpellParts;
    assert x.parts == x.parts[..k] + x.parts[k..];
    PartsConcat(x.parts[..k], x.parts[k..]);
  }

  lemma StandsNext(x: Line, k: nat)
    requires k < |x.parts|
    ensures Start(x, k + 1) == Start(x, k) + |SpellPart(x.parts[k])| && From(x, k) == SpellPart(x.parts[k]) + From(x, k + 1)
    ensures Has(Spell(x), Start(x, k), SpellPart(x.parts[k]))
  {
    hide SpellPart;
    Stands(x, k);
    assert x.parts[k..][1..] == x.parts[k + 1..];
    assert x.parts[..k + 1] == x.parts[..k] + [x.parts[k]];
    PartsConcat(x.parts[..k], [x.parts[k]]);
    assert SpellParts([x.parts[k]]) == SpellPart(x.parts[k]) + SpellParts([]);
    assert From(x, k) == SpellPart(x.parts[k]) + From(x, k + 1);
    Parts(Spell(x), Start(x, k), SpellPart(x.parts[k]), From(x, k + 1));
  }

  lemma PartsOkFrom(xs: seq<Part>, k: nat)
    requires PartsOk(xs) && k <= |xs|
    ensures PartsOk(xs[k..])
  {
    forall j | 0 <= j < |xs| - k - 1 && xs[k..][j].Bar?
      ensures !xs[k..][j + 1].Bar? && !xs[k..][j + 1].Bars?
    {
      assert xs[k + j].Bar?;
    }
  }

  /** One part in its place in the line. */
  lemma PartInLine(x: Line, k: nat)
    requires LineOk(x) && k < |x.parts| && Start(x, k) <= |Spell(x)| && At(Spell(x), Start(x, k)) == START
    ensures var t := Spell(x); var i, j := Start(x, k), Start(x, k + 1);
            && i < j <= |t| && At(t, j) == START && Uncut(t, i + 1, j) && (Cuts(t, i) <==> IsCut(x, k))
            && (IsCut(x, k) ==> t[i] == (if x.parts[k].Bar? then 0x7C else 0x3E) && j == i + 1)
  {
    hide At, Cuts, ArrowAt, SpellPart, SpellTail, SpellParts, PartOk;
    var t, i := Spell(x), Start(x, k);
    Stands(x, k);
    Stands(x, k + 1);
    StandsNext(x, k);
    PartsOkFrom(x.parts, k);
    if x.parts[k].Bar? { NoBarNext(t, i, x.parts[k..], x.tail); }
    hide Spell, Start;
    PartReads(t, i, x.parts[k]);
    if IsCut(x, k) { OneLong(t, i, x.parts[k]); }
  }

  lemma OneLong(t: Text, i: nat, p: Part)
    requires (p.Bar? || p == Plain(0x3E)) && Has(t, i, SpellPart(p))
    ensures |SpellPart(p)| == 1 && i < |t| && t[i] == if p.Bar? then 0x7C else 0x3E
  {
    assert SpellPart(p) == [if p.Bar? then 0x7C else 0x3E];
    CharAt(t, i, if p.Bar? then 0x7C else 0x3E);
  }

  lemma {:induction false} StartsFresh(x: Line, k: nat)
    requires LineOk(x) && k <= |x.parts|
    ensures Start(x, k) <= |Spell(x)| && At(Spell(x), Start(x, k)) == START
    decreases k
  {
    hide Cuts, Spell, LineOk, IsCut;
    if k == 0 {
      assert x.parts[..0] == [];
    } else {
      StartsFresh(x, k - 1);
      hide At, Start;
      PartInLine(x, k - 1);
    }
  }

  /** No place to cut from part `k` on, and the rest of the line holds none. */
  lemma {:induction false} RestIsWhole(x: Line, k: nat)
    requires LineOk(x) && k <= |x.parts| && forall m | k <= m < |x.parts| :: !IsCut(x, m)
    ensures Uncut(Spell(x), Start(x, k), |Spell(x)|)
    decreases |x.parts| - k
  {
    hide Cuts, At, IsCut, Spell, Start, SpellTail, TailOk, PartsOk;
    StartsFresh(x, k);
    if k == |x.parts| {
      AtTail(x);
      TailReads(Spell(x), Start(x, k), x.tail);
    } else {
      PartInLine(x, k);
      RestIsWhole(x, k + 1);
      assert !IsCut(x, k);
    }
  }

  lemma AtTail(x: Line)
    ensures var i := Start(x, |x.parts|); Has(Spell(x), i, SpellTail(x.tail)) && i + |SpellTail(x.tail)| == |Spell(x)|
  {
    hide SpellTail;
    Stands(x, |x.parts|);
    assert x.parts[|x.parts|..] == [];
    assert From(x, |x.parts|) == SpellTail(x.tail);
  }

  /** A line comes apart at its last bar or arrow that stands outside strings and
      brackets, into what is in front of it and what is behind, both trimmed: for
      every line, whatever its strings and groups hold. */
  lemma CutsAtTheLast(x: Line, k: nat)
    requires LineOk(x) && k < |x.parts| && IsCut(x, k) && forall m | k < m < |x.parts| :: !IsCut(x, m)
    ensures Split(Spell(x)) == Some((Trim(SpellParts(x.parts[..k])),
                                     if x.parts[k].Bar? then 0x7C else 0x3E,
                                     Trim(SpellParts(x.parts[k + 1..]) + SpellTail(x.tail))))
  {
    hide Cuts, At, IsCut, Spell, Start, SpellTail, SpellParts, LineOk, Trim;
    StartsFresh(x, k);
    PartInLine(x, k);
    RestIsWhole(x, k + 1);
    var t, i := Spell(x), Start(x, k);
    Stands(x, k);
    Stands(x, k + 1);
    assert Cuts(t, i) && forall j: nat | i < j < |t| :: !Cuts(t, j);
    assert LastCut(t, |t|) == Some(i);
  }

  /** And a line without such a place is not taken apart. */
  lemma NothingToCut(x: Line)
    requires LineOk(x) && forall m | 0 <= m < |x.parts| :: !IsCut(x, m)
    ensures Split(Spell(x)) == None
  {
    hide Cuts, At, IsCut, Spell, SpellTail, LineOk, Trim;
    RestIsWhole(x, 0);
    assert x.parts[..0] == [];
    assert LastCut(Spell(x), |Spell(x)|) == None;
  }

  // ----- a string or a group anywhere -----

  function Raws(s: Text): seq<Piece> { seq(|s|, i requires 0 <= i < |s| => Raw(s[i])) }

  lemma {:induction false} RawsSpell(s: Text)
    ensures SpellPieces(Raws(s)) == s
  {
    if s != [] {
      assert Raws(s)[1..] == Raws(s[1..]);
      RawsSpell(s[1..]);
      assert s == [s[0]] + s[1..];
    }
  }

  /** Behind any head that ends outside strings and brackets, no cut falls between two
      double quotes, whatever bars, arrows and brackets stand between them, and
      whatever follows. */
  lemma NoCutInString(head: Text, s: Text, rest: Text, n: nat)
    requires Settled(head) && 0x22 !in s && 0x5C !in s
    requires n <= |head + ([0x22] + (s + [0x22]) + rest)|
    ensures var cut := LastCut(head + ([0x22] + (s + [0x22]) + rest), n);
            cut.Some? ==> cut.value < |head| || |head| + |s| + 2 <= cut.value
  {
    hide At, Cuts, Settled;
    RawsSpell(s);
    NoCutInNested(head, Quoted(Raws(s)), rest, n);
  }

  /** The same for a string with escapes in it, and for a bracketed group. */
  lemma NoCutInNested(head: Text, x: Inner, rest: Text, n: nat)
    requires Settled(head) && InnerOk(x) && !x.Other? && n <= |head + (SpellInner(x) + rest)|
    ensures var cut := LastCut(head + (SpellInner(x) + rest), n);
            cut.Some? ==> cut.value < |head| || |head| + |SpellInner(x)| <= cut.value
  {
    hide Cuts, SpellInner, InnerOk;
    var t, i := head + (SpellInner(x) + rest), |head|;
    FirstMark(x);
    assert (SpellInner(x) + rest)[0] == SpellInner(x)[0];
    HeadReads(head, SpellInner(x) + rest, i);
    assert head[..i] == head;
    EscapeIsInString(head, i);
    assert t[i..i + |SpellInner(x)|] == SpellInner(x);
    InnerReads(t, i, 0, x);
  }

  lemma FirstMark(x: Inner)
    requires InnerOk(x) && !x.Other?
    ensures SpellInner(x) != [] && SpellInner(x)[0] != 0x7C
  {
  }
}
