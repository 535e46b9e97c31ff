/**
 The fabric's loops as written, run by the publisher with no other core taking
 part: the job completes even when every helper is wedged, and comes to what the
 concurrent model says it comes to.
 */
module FabricAlone {
  import opened Common
  import opened FabricModel
  import opened FabricChunks
  import opened FabricTheorems

  class WorkFabric {
    var func: nat
    var ctx: nat
    var rows: nat
    var chunk: nat
    var nchunks: nat
    var cursor: nat
    var done: nat
    var gen: nat
    var busy: bool
    var active: nat
    var out: map<nat, Value>
    ghost var calls: seq<Call>

    constructor ()
      ensures func == 0 && active == 0 && !busy
    {
      func, ctx, rows, chunk, nchunks, cursor, done, gen := 0, 0, 0, 0, 0, 0, 0, 0;
      busy, active, out, calls := false, 0, map[], [];
    }

    /** A per-row chunk function, called on the rows [lo, hi). */
    method RunChunk(f: nat, c: nat, lo: nat, hi: nat)
      requires lo < hi
      modifies this`out, this`calls
      ensures calls == old(calls) + [Call(f, c, lo, hi)]
      ensures forall row: nat :: row in out <==> row in old(out) || lo <= row < hi
      ensures forall row | row in out :: out[row] == if lo <= row < hi then Value(f, c, row) else old(out)[row]
    {
      calls := calls + [Call(f, c, lo, hi)];
      var row := lo;
      while row < hi
        invariant lo <= row <= hi
        invariant calls == old(calls) + [Call(f, c, lo, hi)]
        invariant forall r: nat :: r in out <==> r in old(out) || lo <= r < row
        invariant forall r | r in out :: out[r] == if lo <= r < row then Value(f, c, r) else old(out)[r]
      {
        out := out[row := Value(f, c, row)];
        row := row + 1;
      }
    }

    /** What the first `k` chunks of `j` leave behind. */
    ghost predicate Ran(j: Job, k: nat)
      reads this
    {
      && calls == CallsOf(j, k)
      && (forall row: nat :: row in out <==> row < Min(k * j.chunk, j.count))
      && (forall row: nat | row in out :: out[row] == Value(j.func, j.ctx, row))
    }

    method ClaimInner(ghost j: Job)
      requires func != 0 ==> JobOk(j) && Job(func, ctx, rows, chunk, nchunks) == j && cursor == done == 0 && Ran(j, 0)
      modifies this`cursor, this`done, this`out, this`calls
      ensures func != 0 ==> done == j.n && Ran(j, j.n)
      ensures func == 0 ==> cursor == old(cursor) && done == old(done) && out == old(out) && calls == old(calls)
    {
      var f := func;
      if f == 0 {
        return;
      }
      var c, n, chunk, rows := ctx, nchunks, chunk, rows;
      while true
        invariant cursor == done <= n && Ran(j, done)
        decreases n - cursor
      {
        var i := cursor;
        cursor := cursor + 1;
        if i >= n {
          break;
        }
        var lo := i * chunk;
        var hi := Min((i + 1) * chunk, rows);
        ChunkNonEmpty(j, i);
        assert lo == Lo(j, i) && hi == Hi(j, i) && lo <= Min(i * j.chunk, j.count);
        if lo < hi {
          RunChunk(f, c, lo, hi);
        }
        done := done + 1;
        assert calls == CallsOf(j, done);
      }
    }

    method ClaimAndRun(ghost j: Job)
      requires func != 0 ==> JobOk(j) && Job(func, ctx, rows, chunk, nchunks) == j && cursor == done == 0 && Ran(j, 0)
      modifies this`cursor, this`done, this`out, this`calls, this`active
      ensures func != 0 ==> done == j.n && Ran(j, j.n)
      ensures func == 0 ==> cursor == old(cursor) && done == old(done) && out == old(out) && calls == old(calls)
      ensures active == old(active)
    {
      active := active + 1;
      ClaimInner(j);
      active := active - 1;
    }

    static lemma RanIsSerial(j: Job, out: map<nat, Value>)
      requires JobOk(j)
      requires forall row: nat :: row in out <==> row < Min(j.n * j.chunk, j.count)
      requires forall row: nat | row in out :: out[row] == Value(j.func, j.ctx, row)
      ensures out == Serial(j, j.count)
    {
      DivCeilBounds(j.count, j.chunk);
      SerialRows(j, j.count);
    }

    /** `parallel_split` up to the waits, which a publisher with nobody inside never
        spins in: DONE is already at its target and ACTIVE at zero. */
    method ParallelSplit(helpers: nat, c: nat, f: nat, count: nat, width: nat) returns (split: bool)
      requires f != 0
      requires WorthSplitting(helpers, count, width) && !busy ==> active == 0
      modifies this
      ensures split == (helpers > 0 && count >= 2 && count * width >= 524288 && !old(busy))
      ensures split ==> var j := MakeJob(f, c, count, helpers);
                        calls == CallsOf(j, j.n) && out == Serial(j, count) && done == j.n
      ensures split ==> func == 0 && active == 0 && !busy
      ensures !split ==> func == old(func) && out == old(out) && calls == old(calls) && busy == old(busy)
    {
      hide Serial, JobOk, DivCeil;
      if helpers == 0 || count < 2 {
        return false;
      }
      if count * width < 0x80000 {
        return false;
      }
      if busy {
        return false;
      }
      busy := true;
      var want := (helpers + 1) * 4;
      var size := Max(DivCeil(count, want), 8);
      var n := DivCeil(count, size);
      ghost var j := MakeJob(f, c, count, helpers);
      MadeJob(f, c, count, helpers);

      out, calls := map[], [];
      func := f;
      ctx := c;
      rows := count;
      chunk := size;
      nchunks := n;
      cursor := 0;
      done := 0;
      gen := gen + 1;
      assert calls == CallsOf(j, 0);
      ClaimAndRun(j);

      func := 0;
      busy := false;
      RanIsSerial(j, out);
      split := true;
    }
  }
}
