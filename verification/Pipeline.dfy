/**
 Finding the pipe or redirection in a command line.

 A line is its characters. The shell reads bytes, and every byte it looks for is
 ASCII, so it finds the same places.
 */
module Pipeline {
  import opened Common
  import opened Utf8

  const QUOTE: Scalar := 0x22
  const BACKSLASH: Scalar := 0x5C
  const BAR: Scalar := 0x7C
  const GREATER: Scalar := 0x3E
  const LESS: Scalar := 0x3C
  const EQUALS: Scalar := 0x3D
  const MINUS: Scalar := 0x2D
  const SLASH: Scalar := 0x2F
  const BLANK: Scalar := 0x20

  predicate Opens(c: Scalar) { c == 0x28 || c == 0x5B || c == 0x7B }
  predicate Closes(c: Scalar) { c == 0x29 || c == 0x5D || c == 0x7D }

  /** What reading a line so far has come to: the bracket depth, whether inside a
      string and just behind a backslash there, and whether the next character is
      the second bar of a `||`. */
  datatype Scan = Scan(depth: int, inStr: bool, esc: bool, second: bool)

  const START: Scan := Scan(0, false, false, false)

  /** The state behind a character, given whether a bar follows it. */
  function Read(s: Scan, c: Scalar, barNext: bool): Scan {
    if s.second then s.(second := false)
    else if s.inStr then
      if s.esc then s.(esc := false)
      else if c == BACKSLASH then s.(esc := true)
      else if c == QUOTE then s.(inStr := false)
      else s
    else if c == QUOTE then s.(inStr := true)
    else if Opens(c) then s.(depth := s.depth + 1)
    else if Closes(c) then s.(depth := s.depth - 1)
    else if c == BAR && s.depth == 0 && barNext then s.(second := true)
    else s
  }

  predicate BarAt(t: Text, i: nat) { i < |t| && t[i] == BAR }

  /** The state in front of position `i`. */
  function At(t: Text, i: nat): Scan
    requires i <= |t|
  {
    if i == 0 then START else Read(At(t, i - 1), t[i - 1], BarAt(t, i))
  }

  predicate IsAbsolute(t: Text) { var p := Trim(t); p != [] && p[0] == SLASH }

  /** `>=`, `>>`, `->` and `<>`. */
  predicate InOperator(t: Text, i: nat)
    requires i < |t|
  {
    (i + 1 < |t| && (t[i + 1] == EQUALS || t[i + 1] == GREATER)) ||
    (i > 0 && (t[i - 1] == MINUS || t[i - 1] == GREATER || t[i - 1] == LESS))
  }

  /** Whether the line may be cut at `i`: a bar or an arrow outside strings and
      brackets, not part of a longer operator, the arrow in front of an absolute
      path. */
  predicate Cuts(t: Text, i: nat)
    requires i < |t|
  {
    var s := At(t, i);
    !s.second && !s.inStr && s.depth == 0 &&
    ((t[i] == BAR && !BarAt(t, i + 1)) || (t[i] == GREATER && !InOperator(t, i) && IsAbsolute(t[i + 1..])))
  }

  /** The last place below `n` to cut. */
  function LastCut(t: Text, n: nat): (r: Option<nat>)
    requires n <= |t|
    ensures r.Some? ==> r.value < n && Cuts(t, r.value) && forall j: nat | r.value < j < n :: !Cuts(t, j)
    ensures r.None? ==> forall j: nat | j < n :: !Cuts(t, j)
  {
    hide At, IsAbsolute, InOperator;
    if n == 0 then None else if Cuts(t, n - 1) then Some(n - 1) else LastCut(t, n - 1)
  }

  /** The command, the operator, and what it is piped to or written into. */
  function Split(t: Text): Option<(Text, Scalar, Text)> {
    match LastCut(t, |t|)
    case None => None
    case Some(i) => Some((Trim(t[..i]), t[i], Trim(t[i + 1..])))
  }

  lemma StartsNowhere(t: Text)
    ensures At(t, 0) == START && LastCut(t, 0) == None
  {
  }

  /** What one more character does to the state and to the last place to cut. */
  lemma OneFurther(t: Text, i: nat)
    requires i < |t|
    ensures At(t, i + 1) == Read(At(t, i), t[i], BarAt(t, i + 1))
    ensures LastCut(t, i + 1) == if Cuts(t, i) then Some(i) else LastCut(t, i)
  {
    hide Read, Cuts;
  }

  /** When a character outside strings may be cut at. */
  lemma CutsOutside(t: Text, i: nat)
    requires i < |t| && !At(t, i).second
    ensures Cuts(t, i) <==> !At(t, i).inStr && At(t, i).depth == 0
                            && (if t[i] == BAR then !BarAt(t, i + 1)
                                else t[i] == GREATER && !InOperator(t, i) && IsAbsolute(t[i + 1..]))
  {
    hide At, Read, InOperator, IsAbsolute;
  }

  /** The second bar of two is passed over. */
  lemma SecondIsPassed(t: Text, i: nat)
    requires i + 1 < |t| && At(t, i + 1).second
    ensures At(t, i + 2) == At(t, i + 1).(second := false) && !Cuts(t, i + 1)
    ensures LastCut(t, i + 2) == LastCut(t, i + 1)
  {
    hide InOperator, IsAbsolute;
  }

  /** `split_pipeline`: one pass with a depth, three flags and the last place found. */
  method SplitPipeline(b: Text) returns (r: Option<(Text, Scalar, Text)>)
    ensures r == Split(b)
  {
    hide Trim, InOperator, IsAbsolute, At, Cuts, LastCut;
    StartsNowhere(b);
    var found: Option<(nat, Scalar)> := None;
    var depth, inStr, esc := 0, false, false;
    var i := 0;
    while i < |b|
      invariant 0 <= i <= |b| && At(b, i) == Scan(depth, inStr, esc, false)
      invariant match LastCut(b, i)
                case None => found == None
                case Some(j) => found == Some((j, b[j]))
    {
      var c := b[i];
      OneFurther(b, i);
      CutsOutside(b, i);
      if inStr {
        if esc {
          esc := false;
        } else if c == BACKSLASH {
          esc := true;
        } else if c == QUOTE {
          inStr := false;
        }
        i := i + 1;
        continue;
      }
      if c == QUOTE {
        inStr := true;
      } else if Opens(c) {
        depth := depth + 1;
      } else if Closes(c) {
        depth := depth - 1;
      } else if c == BAR && depth == 0 {
        if BarAt(b, i + 1) {
          SecondIsPassed(b, i);
          i := i + 2;
          continue;
        }
        found := Some((i, BAR));
      } else if c == GREATER && depth == 0 {
        var partOfOperator := InOperator(b, i);
        if !partOfOperator && IsAbsolute(b[i + 1..]) {
          found := Some((i, GREATER));
        }
      }
      i := i + 1;
    }
    if found.None? {
      return None;
    }
    var (at, c) := found.value;
    r := Some((Trim(b[..at]), c, Trim(b[at + 1..])));
  }
}
