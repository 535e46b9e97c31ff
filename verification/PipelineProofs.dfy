/** Joining two commands and splitting them again. */
module PipelineProofs {
  import opened Common
  import opened Utf8
  import opened Pipeline

  /** The whole of a head is outside strings and brackets at its end. */
  predicate Settled(t: Text) {
    var s := At(t, |t|);
    s.depth == 0 && !s.inStr && !s.second
  }

  /** A head and a tail with an operator between blanks. */
  function Joined(head: Text, op: Scalar, tail: Text): Text { head + [BLANK, op, BLANK] + tail }

  /** Inside the head the joined line reads as the head does. */
  lemma {:induction false} HeadReads(head: Text, rest: Text, i: nat)
    requires i <= |head| && (rest == [] || rest[0] != BAR)
    ensures At(head + rest, i) == At(head, i)
  {
    hide Read;
    if i > 0 {
      HeadReads(head, rest, i - 1);
      assert (head + rest)[i - 1] == head[i - 1];
      assert BarAt(head + rest, i) == BarAt(head, i);
    }
  }

  /** Nothing but a string can be in the middle of an escape. */
  lemma {:induction false} EscapeIsInString(t: Text, i: nat)
    requires i <= |t|
    ensures At(t, i).esc ==> At(t, i).inStr
  {
    if i > 0 { EscapeIsInString(t, i - 1); }
  }

  /** Behind a settled prefix that ends in a blank the rest reads as if alone. */
  lemma {:induction false} TailReads(front: Text, tail: Text, j: nat)
    requires At(front + tail, |front|) == START && j <= |tail|
    ensures At(front + tail, |front| + j) == At(tail, j)
  {
    hide Read;
    if j > 0 {
      TailReads(front, tail, j - 1);
      assert (front + tail)[|front| + j - 1] == tail[j - 1];
      assert BarAt(front + tail, |front| + j) == BarAt(tail, j);
    }
  }

  lemma MiddleReads(head: Text, op: Scalar, tail: Text)
    requires Settled(head) && (op == BAR || op == GREATER)
    ensures var t := Joined(head, op, tail); var n := |head|;
            At(t, n) == START && At(t, n + 1) == START && At(t, n + 2) == START && At(t, n + 3) == START
  {
    var t, n := Joined(head, op, tail), |head|;
    assert t == head + ([BLANK, op, BLANK] + tail);
    HeadReads(head, [BLANK, op, BLANK] + tail, n);
    EscapeIsInString(head, n);
    assert t[n] == BLANK && t[n + 1] == op && t[n + 2] == BLANK;
  }

  /** In the tail the joined line is cut where the tail alone would be. */
  lemma TailCuts(head: Text, op: Scalar, tail: Text, j: nat)
    requires Settled(head) && (op == BAR || op == GREATER) && j < |tail|
    ensures Cuts(Joined(head, op, tail), |head| + 3 + j) == Cuts(tail, j)
  {
    hide At, Trim;
    var t := Joined(head, op, tail);
    var front := head + [BLANK, op, BLANK];
    MiddleReads(head, op, tail);
    TailReads(front, tail, j);
    assert t[|head| + 3 + j + 1..] == tail[j + 1..];
    assert j == 0 ==> t[|head| + 2] == BLANK;
    assert BarAt(t, |head| + 3 + j + 1) == BarAt(tail, j + 1);
  }

  lemma AroundOperator(head: Text, op: Scalar, tail: Text)
    requires Settled(head) && (op == BAR || op == GREATER)
    ensures var t := Joined(head, op, tail); var n := |head|;
            && !Cuts(t, n) && !Cuts(t, n + 2)
            && (Cuts(t, n + 1) <==> op == BAR || IsAbsolute(tail))
  {
    hide At, Trim;
    var t, n := Joined(head, op, tail), |head|;
    MiddleReads(head, op, tail);
    assert t[n] == BLANK && t[n + 1] == op && t[n + 2] == BLANK;
    assert t[n + 2..] == [BLANK] + tail;
    TrimBlankFront(tail);
  }

  lemma TrimBlankFront(t: Text)
    ensures Trim([BLANK] + t) == Trim(t)
  {
    assert ([BLANK] + t)[1..] == t;
  }

  lemma TrimBlankBack(t: Text)
    ensures Trim(t + [BLANK]) == Trim(t)
  {
    assert IsWhitespace(BLANK);
    hide IsWhitespace;
    var r := t + [BLANK];
    StartOfLonger(t);
    if TrimStart(t) == [] {
      assert TrimStart(r) == [] || TrimStart(r) == [BLANK];
      assert [BLANK][..0] == [];
      assert TrimEnd([BLANK]) == TrimEnd([]);
    } else {
      var s := TrimStart(t);
      assert TrimStart(r) == s + [BLANK];
      assert (s + [BLANK])[..|s|] == s;
    }
  }

  lemma {:induction false} StartOfLonger(t: Text)
    ensures TrimStart(t) != [] ==> TrimStart(t + [BLANK]) == TrimStart(t) + [BLANK]
    ensures TrimStart(t) == [] ==> TrimStart(t + [BLANK]) == []
  {
    assert IsWhitespace(BLANK);
    hide IsWhitespace;
    var r := t + [BLANK];
    if t == [] {
      assert r == [BLANK] && r[1..] == [];
    } else if IsWhitespace(t[0]) {
      assert r[1..] == t[1..] + [BLANK];
      StartOfLonger(t[1..]);
    }
  }

  /** Where a joined line is cut: in the tail if the tail has a place of its own,
      else at the operator that joined it, an arrow only in front of a path. */
  lemma JoinedCut(head: Text, op: Scalar, tail: Text)
    requires Settled(head) && (op == BAR || op == GREATER)
    requires op == BAR || IsAbsolute(tail) || LastCut(tail, |tail|).Some?
    ensures var t := Joined(head, op, tail);
            LastCut(t, |t|) == Some(match LastCut(tail, |tail|)
                                    case Some(j) => |head| + 3 + j
                                    case None => |head| + 1)
  {
    hide Cuts, IsAbsolute;
    var t, n := Joined(head, op, tail), |head|;
    AroundOperator(head, op, tail);
    forall j: nat | j < |tail|
      ensures Cuts(t, n + 3 + j) == Cuts(tail, j)
    {
      TailCuts(head, op, tail, j);
    }
    var at := match LastCut(tail, |tail|) case Some(j) => n + 3 + j case None => n + 1;
    assert Cuts(t, at);
    forall k: nat | at < k < |t|
      ensures !Cuts(t, k)
    {
      if k >= n + 3 { assert Cuts(t, n + 3 + (k - n - 3)) == Cuts(tail, k - n - 3); }
    }
  }

  /** A command piped to another, or written to a path, comes apart into the two,
      trimmed: for every head that ends outside strings and brackets, and every
      tail with no pipe or redirection of its own. */
  lemma JoinedSplits(head: Text, op: Scalar, tail: Text)
    requires Settled(head) && LastCut(tail, |tail|) == None
    requires op == BAR || (op == GREATER && IsAbsolute(tail))
    ensures Split(Joined(head, op, tail)) == Some((Trim(head), op, Trim(tail)))
  {
    hide Trim, IsAbsolute, Cuts, Joined, At;
    JoinedCut(head, op, tail);
    Pieces(head, op, tail);
    TrimBlankBack(head);
    TrimBlankFront(tail);
  }

  lemma Pieces(head: Text, op: Scalar, tail: Text)
    ensures var t, n := Joined(head, op, tail), |head|;
            |t| == n + 3 + |tail| && t[..n + 1] == head + [BLANK] && t[n + 1] == op && t[n + 2..] == [BLANK] + tail
  {
  }

  /** A comparison is never taken for a redirection: an arrow in front of anything
      but an absolute path leaves the line to be cut in its head, if anywhere. */
  lemma ComparisonIsNotCut(head: Text, tail: Text)
    requires Settled(head) && LastCut(tail, |tail|) == None && !IsAbsolute(tail)
    ensures var t := Joined(head, GREATER, tail);
            LastCut(t, |t|) == None || LastCut(t, |t|).value < |head|
  {
    hide Cuts, IsAbsolute;
    var t, n := Joined(head, GREATER, tail), |head|;
    AroundOperator(head, GREATER, tail);
    forall j: nat | n <= j < |t|
      ensures !Cuts(t, j)
    {
      if j >= n + 3 { TailCuts(head, GREATER, tail, j - n - 3); }
    }
  }
}
