/** The boot log: a ring of bytes that keeps the newest and counts the rest. */
module LogRing {
  import opened Common
  import opened Utf8

  const CAP: nat := 0x1_0000

  /** The last `n` bytes of what was printed. */
  function Last(history: Bytes, n: nat): (r: Bytes)
    requires n <= |history|
    ensures |r| == n
  {
    history[|history| - n..]
  }

  class Ring {
    const buf: array<Byte>
    var head: nat
    var total: nat
    /** Every byte ever put. */
    ghost var history: Bytes

    /** The byte printed `k` ago sits `k` places behind the head. */
    ghost predicate Valid()
      reads this, buf
    {
      && buf.Length == CAP && total == |history| && head == total % CAP
      && forall k: nat | total - Min(total, CAP) <= k < total :: buf[k % CAP] == history[k]
    }

    constructor ()
      ensures Valid() && history == [] && fresh(buf)
    {
      buf := new Byte[CAP](_ => 0);
      head, total, history := 0, 0, [];
    }

    method Put(b: Byte)
      requires Valid()
      modifies this, buf
      ensures Valid() && history == old(history) + [b]
    {
      ghost var was := history;
      buf[head] := b;
      history := history + [b];
      head := (head + 1) % CAP;
      total := total + 1;
      HeadMoves(total - 1);
      forall k: nat | total - Min(total, CAP) <= k < total
        ensures buf[k % CAP] == history[k]
      {
        if k < total - 1 {
          Apart(k, total - 1);
        }
      }
    }

    method WriteStr(s: Bytes)
      requires Valid()
      modifies this, buf
      ensures Valid() && history == old(history) + s
    {
      var i := 0;
      while i < |s|
        invariant 0 <= i <= |s| && Valid() && history == old(history) + s[..i]
      {
        Put(s[i]);
        assert s[..i + 1] == s[..i] + [s[i]];
        i := i + 1;
      }
      assert s[..i] == s;
    }

    /** Bytes held, bytes ever printed, bytes lost: nothing is uncounted. */
    method Stats() returns (held: nat, all: nat, lost: nat)
      requires Valid()
      ensures all == |history| && held == Min(|history|, 65536) && held + lost == all
    {
      held := if total < CAP then total else CAP;
      all := total;
      lost := if total < CAP then 0 else total - CAP;
    }

    /** Everything held, oldest first; but nothing at all at the one moment when
        exactly CAP bytes have been printed, the head being back at the start. */
    method Contents() returns (out: Bytes)
      requires Valid()
      ensures out == if |history| == 65536 then [] else Last(history, Min(|history|, 65536))
    {
      if total <= CAP {
        out := buf[..head];
        if total < CAP {
          forall k | 0 <= k < total
            ensures buf[k] == history[k]
          {
            assert k % CAP == k;
          }
        }
      } else {
        out := buf[head..] + buf[..head];
        forall k | 0 <= k < CAP
          ensures out[k] == Last(history, CAP)[k]
        {
          Around(total, k);
        }
      }
    }
  }

  lemma HeadMoves(n: nat)
    ensures (n % CAP + 1) % CAP == (n + 1) % CAP
  {
  }

  lemma Apart(k: nat, n: nat)
    requires k < n < k + CAP
    ensures k % CAP != n % CAP
  {
  }

  /** Place `k` of the unrolled ring holds byte number total - CAP + k. */
  lemma Around(total: nat, k: nat)
    requires total > CAP && k < CAP
    ensures var head := total % CAP;
            (total - CAP + k) % CAP == if k < CAP - head then head + k else k - (CAP - head)
  {
  }

  /** What is held is everything as long as nothing was lost, except that exactly
      CAP bytes are held and not given. */
  method Recall(s: Bytes) returns (out: Bytes)
    ensures out == s <==> |s| < 65536
    ensures |s| > 65536 ==> out == Last(s, 65536)
  {
    var ring := new Ring();
    ring.WriteStr(s);
    assert ring.history == s;
    out := ring.Contents();
    assert |s| < CAP ==> Last(s, |s|) == s;
  }
}
