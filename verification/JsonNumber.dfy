/** Reading a number token, or a string of digits, as a signed 64-bit integer. */
module JsonNumber {
  import opened Common
  import opened Utf8
  import opened JsonGrammar

  const I64_MAX: int := 0x7FFF_FFFF_FFFF_FFFF

  predicate IsDigit(c: Scalar) { 0x30 <= c <= 0x39 }

  predicate AllDigits(t: Text) { forall k | 0 <= k < |t| :: IsDigit(t[k]) }

  /** The value of a run of decimal digits. */
  function Digits(t: Text): nat
    requires AllDigits(t)
  {
    if t == [] then 0 else Digits(t[..|t| - 1]) * 10 + (t[|t| - 1] - 0x30)
  }

  /** Where the fraction or exponent starts. */
  predicate EndsInteger(c: Scalar) { c == 0x2E || c == 0x65 || c == 0x45 }

  function IntegerPart(t: Text): (r: Text)
    ensures r <= t
  {
    if t == [] || EndsInteger(t[0]) then [] else [t[0]] + IntegerPart(t[1..])
  }

  function TokenOf(v: Json): Option<Text> {
    match v
    case Num(t) => Some(t)
    case Str(s) => Some(s)
    case _ => None
  }

  /** The integer a token stands for: its digits up to a point or exponent, if
      there are any, are all digits, and their value fits. */
  function IntegerOf(v: Json): Option<int> {
    match TokenOf(v)
    case None => None
    case Some(t) =>
      var neg := |t| > 0 && t[0] == MINUS;
      var digits := IntegerPart(if neg then t[1..] else t);
      if digits == [] || !AllDigits(digits) then None
      else
        var n: int := Digits(digits);
        if n > I64_MAX then None else Some(if neg then -n else n)
  }

  /** A prefix of digits is never worth more than the whole. */
  lemma {:induction false} PrefixIsLess(t: Text, k: nat)
    requires AllDigits(t) && k <= |t|
    ensures Digits(t[..k]) <= Digits(t)
    decreases |t| - k
  {
    if k < |t| {
      assert t[..k + 1][..k] == t[..k];
      PrefixIsLess(t, k + 1);
    } else {
      assert t[..k] == t;
    }
  }

  /** The loop of `as_i64`: the sum built digit by digit with checked arithmetic
      gives up early exactly when the whole value does not fit. */
  method SumDigits(digits: Text) returns (r: Option<int>)
    requires AllDigits(digits)
    ensures r == if Digits(digits) > I64_MAX then None else Some(Digits(digits))
  {
    var n := 0;
    var k := 0;
    while k < |digits|
      invariant 0 <= k <= |digits| && n == Digits(digits[..k]) && 0 <= n <= I64_MAX
    {
      assert digits[..k + 1][..k] == digits[..k];
      PrefixIsLess(digits, k + 1);
      if n * 10 > I64_MAX {
        return None;
      }
      n := n * 10;
      var d := digits[k] - 0x30;
      if n + d > I64_MAX {
        return None;
      }
      n := n + d;
      k := k + 1;
    }
    assert digits[..k] == digits;
    return Some(n);
  }

  /** `Json::as_i64`. */
  method AsI64(v: Json) returns (r: Option<int>)
    ensures r == IntegerOf(v)
  {
    hide Digits;
    var token := TokenOf(v);
    if token.None? {
      return None;
    }
    var t := token.value;
    var neg := |t| > 0 && t[0] == MINUS;
    var digits := IntegerPart(if neg then t[1..] else t);
    if digits == [] || !AllDigits(digits) {
      return None;
    }
    var n := SumDigits(digits);
    if n.None? {
      return None;
    }
    return Some(if neg then -n.value else n.value);
  }

  // ----- decimal text -----

  function Decimal(n: nat): (t: Text)
    ensures |t| > 0 && AllDigits(t)
  {
    if n < 10 then [0x30 + n] else Decimal(n / 10) + [0x30 + n % 10]
  }

  lemma {:induction false} DecimalBack(n: nat)
    ensures Digits(Decimal(n)) == n
  {
    if n < 10 {
      assert Decimal(n)[..0] == [];
    } else {
      DecimalBack(n / 10);
      assert Decimal(n)[..|Decimal(n)| - 1] == Decimal(n / 10);
    }
  }

  lemma {:induction false} DigitsHaveNoEnd(t: Text)
    requires AllDigits(t)
    ensures IntegerPart(t) == t
  {
    if t != [] {
      assert IsDigit(t[0]);
      DigitsHaveNoEnd(t[1..]);
      assert t == [t[0]] + t[1..];
    }
  }

  /** A run of digits, signed or not, stands for its value if that fits. */
  lemma DigitsRead(d: Text, neg: bool)
    requires d != [] && AllDigits(d)
    ensures var t := if neg then [MINUS] + d else d; var n: int := Digits(d);
            IntegerOf(Num(t)) == (if n > I64_MAX then None else Some(if neg then -n else n))
  {
    hide Digits;
    DigitsHaveNoEnd(d);
    assert IsDigit(d[0]);
    if neg { assert ([MINUS] + d)[1..] == d; }
  }

  /** The decimal text of an integer reads back as it, exactly when its magnitude
      is at most i64::MAX: the most negative value is refused. */
  lemma DecimalReadsBackIff(n: int)
    ensures var t := if n < 0 then [MINUS] + Decimal(-n) else Decimal(n);
            IntegerOf(Num(t)) == (if -I64_MAX <= n <= I64_MAX then Some(n) else None)
            && IntegerOf(Str(t)) == IntegerOf(Num(t))
  {
    hide Decimal, IntegerPart, Digits, AllDigits;
    var m := if n < 0 then -n else n;
    DecimalBack(m);
    DigitsRead(Decimal(m), n < 0);
  }

  // ----- which tokens are integers -----

  /** A minus or nothing, one or more digits, and then nothing or a point or an
      exponent with anything behind it. */
  predicate HasParts(t: Text, neg: bool, d: Text, tail: Text) {
    t == (if neg then [0x2D] else []) + (d + tail) &&
    d != [] && (forall k | 0 <= k < |d| :: 0x30 <= d[k] <= 0x39) &&
    (tail == [] || tail[0] == 0x2E || tail[0] == 0x65 || tail[0] == 0x45)
  }

  lemma {:induction false} PartStops(d: Text, tail: Text)
    requires AllDigits(d) && (tail == [] || EndsInteger(tail[0]))
    ensures IntegerPart(d + tail) == d
    decreases |d|
  {
    if d == [] {
      assert d + tail == tail;
    } else {
      assert IsDigit(d[0]);
      assert (d + tail)[1..] == d[1..] + tail;
      PartStops(d[1..], tail);
      assert d == [d[0]] + d[1..];
    }
  }

  lemma {:induction false} PartEnds(t: Text)
    ensures |IntegerPart(t)| < |t| ==> EndsInteger(t[|IntegerPart(t)|])
  {
    if t != [] && !EndsInteger(t[0]) { PartEnds(t[1..]); }
  }

  /** `41250.0` is 41250: what stands behind the digits is dropped, not refused. */
  lemma PartsRead(t: Text, neg: bool, d: Text, tail: Text)
    requires HasParts(t, neg, d, tail)
    ensures AllDigits(d)
    ensures var n: int := Digits(d);
            IntegerOf(Num(t)) == if n > 9223372036854775807 then None else Some(if neg then -n else n)
  {
    hide Digits;
    PartStops(d, tail);
    assert t[0] == if neg then 0x2D else d[0];
    if neg { assert t[1..] == d + tail; } else { assert t == d + tail; }
  }

  /** The parts stand for `v`, and its magnitude is at most 2^63 - 1. */
  predicate StandFor(t: Text, neg: bool, d: Text, tail: Text, v: int) {
    HasParts(t, neg, d, tail) && AllDigits(d) &&
    var n: int := Digits(d);
    n <= 9223372036854775807 && v == if neg then -n else n
  }

  /** A text is its integer part and what ends it. */
  lemma IntegerPartIs(rest: Text)
    ensures var d := IntegerPart(rest); var tail := rest[|d|..];
            rest == d + tail && (tail == [] || tail[0] == 0x2E || tail[0] == 0x65 || tail[0] == 0x45)
  {
    PartEnds(rest);
  }

  lemma PartsFound(t: Text, v: int) returns (neg: bool, d: Text, tail: Text)
    requires IntegerOf(Num(t)) == Some(v)
    ensures StandFor(t, neg, d, tail, v)
  {
    hide Digits, IntegerPart, AllDigits;
    neg := |t| > 0 && t[0] == 0x2D;
    var rest := if neg then t[1..] else t;
    d := IntegerPart(rest);
    tail := rest[|d|..];
    IntegerPartIs(rest);
    DigitRange(d);
    assert t == (if neg then [0x2D] else []) + (d + tail);
  }

  lemma DigitRange(d: Text)
    requires AllDigits(d)
    ensures forall k | 0 <= k < |d| :: 0x30 <= d[k] <= 0x39
  {
    forall k | 0 <= k < |d| ensures 0x30 <= d[k] <= 0x39 { assert IsDigit(d[k]); }
  }

  /** A token is an integer exactly when its parts stand for it. */
  lemma IntegerIff(t: Text, v: int)
    ensures IntegerOf(Num(t)) == Some(v) <==> exists neg, d, tail :: StandFor(t, neg, d, tail, v)
  {
    hide Digits, IntegerOf, AllDigits;
    forall neg, d, tail | StandFor(t, neg, d, tail, v)
      ensures IntegerOf(Num(t)) == Some(v)
    {
      PartsRead(t, neg, d, tail);
    }
    if IntegerOf(Num(t)) == Some(v) {
      var neg, d, tail := PartsFound(t, v);
    }
  }

  /** A string of digits is read as a number token would be, and nothing else is one. */
  lemma OnlyTokensAreIntegers(v: Json)
    ensures IntegerOf(v) == match v
                            case Num(t) => IntegerOf(Num(t))
                            case Str(t) => IntegerOf(Num(t))
                            case _ => None
  {
  }

  /** Digits are read in base ten. */
  lemma OneMoreDigit(d: Text, c: Scalar)
    requires AllDigits(d) && 0x30 <= c <= 0x39
    ensures AllDigits(d + [c]) && Digits(d + [c]) == 10 * Digits(d) + (c - 0x30)
  {
    assert (d + [c])[..|d|] == d;
  }
}
