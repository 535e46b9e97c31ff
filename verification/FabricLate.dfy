/**
 What one late worker does to the order as written, and so exactly when a call is
 safe in it.

 The runs are put together from pieces that each say where they lead: a worker
 coming in, the stores, the reads, a chunk, the rest of the chunks, the way out.
 */
module FabricLate {
  import opened Common
  import opened FabricModel
  import opened FabricChunks
  import opened FabricSafety
  import opened FabricTheorems

  // ----- runs of the order as written -----

  /** Some run inside a call of agent `a` leads from `s` to `t`. */
  ghost predicate Leads(a: nat, s: Fabric, t: Fabric) {
    exists xs :: Within(s, xs, a) && Final(AsWritten, s, xs) == t
  }

  lemma Stay(a: nat, s: Fabric)
    ensures Leads(a, s, s)
  {
    assert Within(s, [], a) && Final(AsWritten, s, []) == s;
  }

  lemma {:induction false} RunsJoin(s: Fabric, xs: seq<Action>, ys: seq<Action>)
    requires IsRun(AsWritten, s, xs) && IsRun(AsWritten, Final(AsWritten, s, xs), ys)
    ensures IsRun(AsWritten, s, xs + ys)
    ensures Final(AsWritten, s, xs + ys) == Final(AsWritten, Final(AsWritten, s, xs), ys)
    decreases |xs|
  {
    if xs == [] {
      assert xs + ys == ys;
    } else {
      assert (xs + ys)[1..] == xs[1..] + ys;
      RunsJoin(Step(AsWritten, s, xs[0]), xs[1..], ys);
    }
  }

  lemma Onward(a: nat, s: Fabric, t: Fabric, u: Fabric)
    requires Leads(a, s, t) && Leads(a, t, u)
    ensures Leads(a, s, u)
  {
    var xs :| Within(s, xs, a) && Final(AsWritten, s, xs) == t;
    var ys :| Within(t, ys, a) && Final(AsWritten, t, ys) == u;
    RunsJoin(s, xs, ys);
    assert Within(s, xs + ys, a);
  }

  /** One step further along. */
  lemma Go(a: nat, s: Fabric, t: Fabric, x: Action)
    requires Leads(a, s, t) && Enabled(t, x) && x != DropBusy(a)
    ensures Leads(a, s, Step(AsWritten, t, x))
  {
    var u := Step(AsWritten, t, x);
    assert IsRun(AsWritten, u, []) && Final(AsWritten, u, []) == u;
    assert [x][1..] == [];
    assert Within(t, [x], a) && Final(AsWritten, t, [x]) == u;
    Onward(a, s, t, u);
  }

  // ----- ACTIVE -----

  /** ACTIVE counts the agents inside, whatever they have read. */
  ghost predicate Tally(s: Fabric) {
    s.active == Count(s.agents, Inside) && forall b: nat | b < |s.agents| :: DutyOk(s.agents[b])
  }

  /** A step moves its own agent, and ACTIVE with it. */
  lemma OwnStep(s: Fabric, x: Action)
    requires Enabled(s, x) && DutyOk(s.agents[x.a])
    ensures var s' := Step(AsWritten, s, x);
            && |s'.agents| == |s.agents| && s'.agents == s.agents[x.a := s'.agents[x.a]] && DutyOk(s'.agents[x.a])
            && (s.active > 0 || !Inside(s.agents[x.a].pc) ==>
                  s'.active + (if Inside(s.agents[x.a].pc) then 1 else 0)
                  == s.active + (if Inside(s'.agents[x.a].pc) then 1 else 0))
  {
    hide MakeJob, Lo, Hi, Stored, StoreAt;
    assert s.agents[x.a := s.agents[x.a]] == s.agents;
  }

  lemma TallyStep(s: Fabric, x: Action)
    requires Tally(s) && Enabled(s, x)
    ensures Tally(Step(AsWritten, s, x))
  {
    assert DutyOk(s.agents[x.a]);
    OwnStep(s, x);
    hide Step, Enabled, DutyOk, Inside;
    CountUpdate(s.agents, Inside, x.a, Step(AsWritten, s, x).agents[x.a]);
    if s.active == 0 { CountZero(s.agents, Inside, x.a); }
  }

  lemma {:induction false} TallyRun(s: Fabric, xs: seq<Action>)
    requires Tally(s) && IsRun(AsWritten, s, xs)
    ensures Tally(Final(AsWritten, s, xs))
    decreases |xs|
  {
    hide Tally;
    if xs != [] {
      TallyStep(s, xs[0]);
      TallyRun(Step(AsWritten, s, xs[0]), xs[1..]);
    }
  }

  lemma TallyLeads(a: nat, s: Fabric, t: Fabric)
    requires Tally(s) && Leads(a, s, t)
    ensures Tally(t)
  {
    var xs :| Within(s, xs, a) && Final(AsWritten, s, xs) == t;
    TallyRun(s, xs);
  }

  lemma {:induction false} SomeoneInside(xs: seq<Agent>) returns (b: nat)
    requires Count(xs, Inside) > 0
    ensures b < |xs| && Inside(xs[b].pc)
  {
    if Inside(xs[0].pc) {
      b := 0;
    } else {
      b := SomeoneInside(xs[1..]);
      b := b + 1;
    }
  }

  // ----- the pieces -----

  /** `t` with agent `b` at another point of `claim_and_run`. */
  function Moved(t: Fabric, b: nat, pc: Pc): Fabric
    requires b < |t.agents|
  {
    t.(agents := t.agents[b := t.agents[b].(pc := pc)])
  }

  /** A late worker comes in. */
  lemma ComesIn(a: nat, t: Fabric, w: nat) returns (u: Fabric)
    requires w < |t.agents| && Late(t, w) && t.agents[w].duty.Free?
    requires t.agents[w].pc.Away? || t.agents[w].pc.Woken? || t.agents[w].pc.Entered? || t.agents[w].pc.Leaving?
    ensures Leads(a, t, u)
    ensures |u.agents| == |t.agents| && u == t.(active := u.active, agents := t.agents[w := u.agents[w]])
    ensures u.agents[w].worker && u.agents[w].duty.Free? && u.agents[w].pc.Entered?
  {
    u := t;
    Stay(a, t);
    if u.agents[w].pc.Leaving? {
      Go(a, t, u, Leave(w));
      u := Step(AsWritten, u, Leave(w));
    }
    if u.agents[w].pc.Away? {
      Go(a, t, u, Wake(w));
      u := Step(AsWritten, u, Wake(w));
    }
    if u.agents[w].pc.Woken? {
      Go(a, t, u, Enter(w));
      u := Step(AsWritten, u, Enter(w));
    }
    assert t.agents[w := u.agents[w]] == u.agents;
  }

  /** The slots after the first `k` stores of a publication. */
  function AfterStores(x: Slots, j: Job, k: nat): Slots
    requires k <= STORES
  {
    if k == 0 then x else Stored(AfterStores(x, j, k - 1), StoreAt(AsWritten, k - 1), j)
  }

  /** The publisher goes on storing up to `k`. */
  lemma {:induction false} Publishes(a: nat, t: Fabric, x: Slots, from: nat, k: nat) returns (u: Fabric)
    requires a < |t.agents| && from <= k <= STORES
    requires t.agents[a].duty.Publishing? && t.agents[a].duty.k == from
    requires t.slots == AfterStores(x, t.agents[a].duty.job, from)
    ensures var g := t.agents[a];
            u == t.(slots := AfterStores(x, g.duty.job, k), agents := t.agents[a := g.(duty := Publishing(g.duty.job, k))])
    ensures Leads(a, t, u)
    decreases k - from
  {
    u := t;
    Stay(a, t);
    if from < k {
      Go(a, t, t, Store(a));
      var v := Step(AsWritten, t, Store(a));
      u := Publishes(a, v, x, from + 1, k);
      Onward(a, t, v, u);
    } else {
      assert t.agents[a := t.agents[a]] == t.agents;
    }
  }

  /** An agent that has read FUNC and CTX reads the rest. */
  lemma ReadsOn(a: nat, t: Fabric, b: nat) returns (u: Fabric)
    requires b < |t.agents| && t.agents[b].pc.ReadingN?
    ensures Leads(a, t, u)
    ensures u == Moved(t, b, Looping(Job(t.agents[b].pc.seen.func, t.agents[b].pc.seen.ctx,
                                         t.slots.rows, t.slots.chunk, t.slots.nchunks)))
  {
    u := t;
    Stay(a, t);
    Go(a, t, u, ReadN(b)); u := Step(AsWritten, u, ReadN(b));
    Go(a, t, u, ReadChunk(b)); u := Step(AsWritten, u, ReadChunk(b));
    Go(a, t, u, ReadRows(b)); u := Step(AsWritten, u, ReadRows(b));
  }

  lemma ReadsFirst(a: nat, t: Fabric, b: nat) returns (u: Fabric)
    requires b < |t.agents| && t.agents[b].pc.Entered? && t.slots.func != 0
    ensures Leads(a, t, u)
    ensures u == Moved(t, b, ReadingN(Job(t.slots.func, t.slots.ctx, 0, 0, 0)))
  {
    u := t;
    Stay(a, t);
    Go(a, t, u, ReadFunc(b)); u := Step(AsWritten, u, ReadFunc(b));
    Go(a, t, u, ReadCtx(b)); u := Step(AsWritten, u, ReadCtx(b));
  }

  /** The rows of a claimed chunk, from `row` on. */
  lemma {:induction false} RunsRows(a: nat, t: Fabric, b: nat) returns (u: Fabric)
    requires b < |t.agents| && t.agents[b].pc.InChunk? && t.agents[b].pc.row <= Hi(t.agents[b].pc.seen, t.agents[b].pc.i)
    ensures Leads(a, t, u)
    ensures var pc := t.agents[b].pc;
            u == Moved(t, b, InChunk(pc.seen, pc.i, Hi(pc.seen, pc.i))).(out := u.out)
    decreases Hi(t.agents[b].pc.seen, t.agents[b].pc.i) - t.agents[b].pc.row
  {
    hide Hi;
    u := t;
    Stay(a, t);
    var pc := t.agents[b].pc;
    if pc.row < Hi(pc.seen, pc.i) {
      Go(a, t, t, RunRow(b));
      var v := Step(AsWritten, t, RunRow(b));
      u := RunsRows(a, v, b);
      Onward(a, t, v, u);
    }
  }

  /** One chunk claimed, run and counted. */
  lemma RunsChunk(a: nat, t: Fabric, b: nat) returns (u: Fabric)
    requires b < |t.agents| && t.agents[b].pc.Looping?
    requires var v := t.agents[b].pc.seen; var i := t.slots.cursor; i < v.n && Lo(v, i) < Hi(v, i)
    ensures Leads(a, t, u)
    ensures var v := t.agents[b].pc.seen; var i := t.slots.cursor;
            u == t.(slots := t.slots.(cursor := i + 1, done := t.slots.done + 1),
                    calls := t.calls + [Call(v.func, v.ctx, Lo(v, i), Hi(v, i))], out := u.out)
  {
    hide Lo, Hi;
    Stay(a, t);
    Go(a, t, t, Claim(b));
    var c := Step(AsWritten, t, Claim(b));
    var r := RunsRows(a, c, b);
    Onward(a, t, c, r);
    Go(a, t, r, CountDone(b));
    u := Step(AsWritten, r, CountDone(b));
    assert u.agents == t.agents;
  }

  /** Every chunk that is left. */
  lemma {:induction false} RunsChunks(a: nat, t: Fabric, b: nat) returns (u: Fabric)
    requires b < |t.agents| && t.agents[b].pc.Looping?
    requires var v := t.agents[b].pc.seen; JobOk(v) && t.slots.cursor <= v.n
    ensures Leads(a, t, u)
    ensures var v := t.agents[b].pc.seen;
            && u == t.(slots := t.slots.(cursor := v.n, done := t.slots.done + (v.n - t.slots.cursor)),
                       calls := u.calls, out := u.out)
            && t.calls <= u.calls
    decreases t.agents[b].pc.seen.n - t.slots.cursor
  {
    hide Lo, Hi;
    u := t;
    Stay(a, t);
    var v := t.agents[b].pc.seen;
    if t.slots.cursor < v.n {
      ChunkNonEmpty(v, t.slots.cursor);
      var c := RunsChunk(a, t, b);
      u := RunsChunks(a, c, b);
      Onward(a, t, c, u);
    }
  }

  /** A claim that finds no chunk, and the way out. */
  lemma GoesOut(a: nat, t: Fabric, b: nat) returns (u: Fabric)
    requires b < |t.agents| && t.agents[b].pc.Looping? && t.slots.cursor >= t.agents[b].pc.seen.n && t.active > 0
    ensures Leads(a, t, u)
    ensures var g := t.agents[b];
            u == t.(slots := t.slots.(cursor := t.slots.cursor + 1), active := t.active - 1,
                    agents := t.agents[b := g.(pc := Away, duty := if g.duty.Helping? then Waiting(g.duty.job) else g.duty)])
  {
    Stay(a, t);
    Go(a, t, t, Claim(b));
    var c := Step(AsWritten, t, Claim(b));
    Go(a, t, c, Leave(b));
    u := Step(AsWritten, c, Leave(b));
  }

  /** The publisher bumps GEN, goes in and reads its own job. */
  lemma GoesIn(a: nat, t: Fabric, j: Job) returns (u: Fabric)
    requires a < |t.agents| && t.agents[a].duty == Publishing(j, STORES) && t.agents[a].pc.Away?
    requires j.func != 0 && t.slots == Slots(j.func, j.ctx, j.count, j.chunk, j.n, t.slots.cursor, t.slots.done)
    ensures Leads(a, t, u)
    ensures u == t.(gen := t.gen + 1, active := t.active + 1,
                    agents := t.agents[a := t.agents[a].(duty := Helping(j), pc := Looping(j))])
  {
    hide Leads;
    Stay(a, t);
    Go(a, t, t, Bump(a));
    u := Step(AsWritten, t, Bump(a));
    Go(a, t, u, Enter(a)); u := Step(AsWritten, u, Enter(a));
    var v := ReadsFirst(a, u, a);
    Onward(a, t, u, v);
    u := ReadsOn(a, v, a);
    Onward(a, t, v, u);
  }

  /** DONE is at its target, and the job is closed. */
  lemma Closes(a: nat, t: Fabric, j: Job) returns (u: Fabric)
    requires a < |t.agents| && t.agents[a].duty == Waiting(j) && t.slots.done >= j.n
    ensures Leads(a, t, u)
    ensures u == t.(slots := t.slots.(func := 0), agents := t.agents[a := t.agents[a].(duty := Closing(j))])
  {
    hide Leads;
    Stay(a, t);
    Go(a, t, t, SeeDone(a));
    u := Step(AsWritten, t, SeeDone(a));
    Go(a, t, u, Close(a)); u := Step(AsWritten, u, Close(a));
  }

  /** The publisher's own share: GEN, the reads, the chunks left, and out. */
  lemma Helps(a: nat, t: Fabric, j: Job) returns (u: Fabric)
    requires a < |t.agents| && t.agents[a].duty == Publishing(j, STORES) && t.agents[a].pc.Away?
    requires JobOk(j) && t.slots == Slots(j.func, j.ctx, j.count, j.chunk, j.n, t.slots.cursor, t.slots.done)
    requires t.slots.cursor <= j.n && t.slots.done + (j.n - t.slots.cursor) >= j.n
    ensures Leads(a, t, u)
    ensures u == t.(slots := u.slots, gen := t.gen + 1, agents := t.agents[a := t.agents[a].(duty := Closing(j))],
                    calls := u.calls, out := u.out)
    ensures u.slots.func == 0 && u.slots.cursor == j.n + 1 && t.calls <= u.calls && u.slots.ctx == j.ctx
  {
    assert j.func != 0;
    hide Leads, JobOk;
    u := GoesIn(a, t, j);
    var v := RunsChunks(a, u, a);
    Onward(a, t, u, v);
    u := GoesOut(a, v, a);
    Onward(a, t, v, u);
    v := Closes(a, u, j);
    Onward(a, t, u, v);
    u := v;
  }

  /** Once the job is closed, whoever is inside goes out. */
  lemma {:induction false} Drains(a: nat, t: Fabric) returns (u: Fabric)
    requires Tally(t) && t.slots.func == 0
    requires forall b: nat | b < |t.agents| && Inside(t.agents[b].pc) ::
               t.agents[b].worker && (t.agents[b].pc.Entered? || t.agents[b].pc.Leaving?)
    ensures Leads(a, t, u)
    ensures u == t.(active := 0, agents := u.agents) && |u.agents| == |t.agents|
    ensures forall b: nat | b < |t.agents| && !Inside(t.agents[b].pc) :: u.agents[b] == t.agents[b]
    decreases t.active
  {
    u := t;
    Stay(a, t);
    if t.active > 0 {
      var b := SomeoneInside(t.agents);
      assert DutyOk(t.agents[b]);
      var v := t;
      if v.agents[b].pc.Entered? {
        Go(a, t, v, ReadFunc(b));
        v := Step(AsWritten, v, ReadFunc(b));
      }
      Go(a, t, v, Leave(b));
      v := Step(AsWritten, v, Leave(b));
      TallyLeads(a, t, v);
      u := Drains(a, v);
      Onward(a, t, v, u);
    }
  }

  // ----- a late worker and a call -----

  /** A caller about to take BUSY, with no call in flight. */
  ghost predicate Asks(s: Fabric, x: Action) {
    Inv(AsWritten, s) && x.TakeBusy? && Enabled(s, x) && s.busy.None?
  }

  function JobOf(x: Action): Job
    requires x.TakeBusy?
  {
    MakeJob(x.func, x.ctx, x.count, x.helpers)
  }

  /** Nobody has read a FUNC other than zero between calls. */
  lemma IdleAgent(s: Fabric, x: Action, b: nat)
    requires Asks(s, x) && b < |s.agents|
    ensures s.agents[b].duty.Free? && !Holds(s.agents[b].pc) && (!s.agents[b].worker ==> s.agents[b].pc.Away?)
  {
    assert AgentOk(s, b);
  }

  /** What the call starts from. */
  lemma Taken(s: Fabric, x: Action)
    requires Asks(s, x)
    ensures var s1 := Step(AsWritten, s, x);
            && s1 == s.(busy := Some(x.a), calls := [], out := map[],
                        agents := s.agents[x.a := s.agents[x.a].(duty := Publishing(JobOf(x), 0))])
            && Tally(s) && Tally(s1) && JobOk(JobOf(x)) && JobOf(x).func == x.func && JobOf(x).ctx == x.ctx
  {
    MadeJob(x.func, x.ctx, x.count, x.helpers);
    forall b: nat | b < |s.agents| ensures DutyOk(s.agents[b]) { assert AgentOk(s, b); }
    TallyStep(s, x);
  }

  /** The late worker reads FUNC new and CTX old, and waits for the rest: it holds
      the new job with the old context. */
  lemma HoldsStale(s: Fabric, x: Action, w: nat) returns (u: Fabric)
    requires Asks(s, x) && w < |s.agents| && Late(s, w)
    ensures var s1 := Step(AsWritten, s, x); var j := JobOf(x);
            && w != x.a && Leads(x.a, s1, u) && |u.agents| == |s.agents|
            && u == s1.(slots := Slots(j.func, j.ctx, j.count, j.chunk, j.n, 0, 0), active := u.active,
                        agents := s.agents[x.a := s.agents[x.a].(duty := Publishing(j, STORES))][w := u.agents[w]])
            && u.agents[w].worker && u.agents[w].duty.Free? && u.agents[w].pc == Looping(j.(ctx := s.slots.ctx))
  {
    hide Leads, Inv, MakeJob;
    var a, j, s1 := x.a, JobOf(x), Step(AsWritten, s, x);
    IdleAgent(s, x, w);
    IdleAgent(s, x, a);
    Taken(s, x);
    var t := ComesIn(a, s1, w);
    u := Publishes(a, t, s.slots, 0, 1);
    Onward(a, s1, t, u);
    t := ReadsFirst(a, u, w);
    Onward(a, s1, u, t);
    u := Publishes(a, t, s.slots, 1, STORES);
    Onward(a, s1, t, u);
    AllPublished(s.slots, j);
    t := ReadsOn(a, u, w);
    Onward(a, s1, u, t);
    u := t;
    assert u.agents == s.agents[a := s.agents[a].(duty := Publishing(j, STORES))][w := u.agents[w]];
  }

  lemma AllPublished(x: Slots, j: Job)
    ensures AfterStores(x, j, STORES) == Slots(j.func, j.ctx, j.count, j.chunk, j.n, 0, 0)
  {
    assert AfterStores(x, j, 1) == x.(func := j.func);
    assert AfterStores(x, j, 3) == x.(func := j.func, ctx := j.ctx, rows := j.count);
    assert AfterStores(x, j, 5) == Slots(j.func, j.ctx, j.count, j.chunk, j.n, x.cursor, x.done);
  }

  /** It runs the first chunk, the publisher the others, and everybody leaves: the
      call is about to answer true, and its first chunk ran with the old context. */
  lemma StaleCallCloses(s: Fabric, x: Action, w: nat) returns (u: Fabric)
    requires Asks(s, x) && w < |s.agents| && Late(s, w)
    ensures Leads(x.a, Step(AsWritten, s, x), u)
    ensures |u.agents| == |s.agents| && u.agents[x.a].duty == Closed(JobOf(x))
    ensures var j := JobOf(x); u.calls != [] && u.calls[0] == Call(j.func, s.slots.ctx, Lo(j, 0), Hi(j, 0))
  {
    hide Leads, Inv, MakeJob, Lo, Hi, Tally, Late;
    var a, j, s1 := x.a, JobOf(x), Step(AsWritten, s, x);
    Taken(s, x);
    IdleAgent(s, x, a);
    var t := HoldsStale(s, x, w);
    ChunkNonEmpty(j, 0);
    SameRanges(j, s.slots.ctx);
    u := RunsChunk(a, t, w);
    Onward(a, s1, t, u);
    var first := u.calls;
    t := Helps(a, u, j);
    Onward(a, s1, u, t);
    TallyLeads(a, s1, t);
    WorkerInside(t, w);
    u := GoesOut(a, t, w);
    Onward(a, s1, t, u);
    TallyLeads(a, s1, u);
    forall b: nat | b < |u.agents| && Inside(u.agents[b].pc)
      ensures u.agents[b].worker && (u.agents[b].pc.Entered? || u.agents[b].pc.Leaving?)
    {
      IdleAgent(s, x, b);
    }
    t := Drains(a, u);
    Onward(a, s1, u, t);
    Go(a, s1, t, SeeIdle(a));
    u := Step(AsWritten, t, SeeIdle(a));
    assert first[0] == u.calls[0];
  }

  lemma SameRanges(j: Job, ctx: nat)
    ensures Lo(j.(ctx := ctx), 0) == Lo(j, 0) && Hi(j.(ctx := ctx), 0) == Hi(j, 0)
  {
  }

  lemma WorkerInside(t: Fabric, w: nat)
    requires Tally(t) && w < |t.agents| && t.agents[w].pc.Looping?
    ensures t.active > 0
  {
    if t.active == 0 { CountZero(t.agents, Inside, w); }
  }

  /** Every way a call can go on: if it comes to the point of answering true, its
      job has been done exactly. */
  ghost predicate AlwaysExact(s: Fabric, x: Action)
    requires Asks(s, x)
  {
    forall t | Leads(x.a, Step(AsWritten, s, x), t) && x.a < |t.agents| && t.agents[x.a].duty.Closed? ::
      Exact(t, JobOf(x))
  }

  lemma CalmWhenTaken(s: Fabric, x: Action)
    requires Asks(s, x) && NoneLate(s)
    ensures Calm(Step(AsWritten, s, x))
  {
    CalmStep(s, x);
  }

  /** When the order as written is right. From a state with BUSY free, a call with
      any other context than the one lying in CTX is exact in every continuation
      if and only if no worker is late as it takes BUSY. */
  lemma ExactIffNoneLate(s: Fabric, x: Action)
    requires Asks(s, x) && x.ctx != s.slots.ctx
    ensures AlwaysExact(s, x) <==> NoneLate(s)
  {
    hide Leads, Inv, Late, MakeJob, Exact, Step, Lo, Hi;
    if NoneLate(s) {
      NoneLateIsExact(s, x);
    } else {
      var w: nat :| w < |s.agents| && Late(s, w);
      var t := StaleCallCloses(s, x, w);
      Taken(s, x);
      StaleIsNotExact(t, JobOf(x), s.slots.ctx);
    }
  }

  lemma StaleIsNotExact(t: Fabric, j: Job, ctx: nat)
    requires t.calls != [] && t.calls[0] == Call(j.func, ctx, Lo(j, 0), Hi(j, 0)) && ctx != j.ctx
    ensures !Exact(t, j)
  {
    assert CallsOf(j, j.n) != [] ==> CallsOf(j, j.n)[0].ctx == j.ctx;
  }

  /** The half that needs nothing of the slots. */
  lemma NoneLateIsExact(s: Fabric, x: Action)
    requires Asks(s, x) && NoneLate(s)
    ensures AlwaysExact(s, x)
  {
    var s1, a := Step(AsWritten, s, x), x.a;
    Taken(s, x);
    CalmWhenTaken(s, x);
    forall t | Leads(a, s1, t) && a < |t.agents| && t.agents[a].duty.Closed?
      ensures Exact(t, JobOf(x))
    {
      var xs :| Within(s1, xs, a) && Final(AsWritten, s1, xs) == t;
      CallKeeps(s1, xs, a);
      CompleteIsExact(AsWritten, t, a);
    }
  }

  // ----- what DONE is worth -----

  /** While the job of agent `a` is open, DONE and the chunks in flight are the
      chunks claimed: nothing is counted twice or lost. */
  ghost predicate Accounted(t: Fabric, a: nat) {
    a < |t.agents| && Open(t.agents[a].duty) ==>
      t.slots.done + Count(t.agents, Working) == Min(t.slots.cursor, t.agents[a].duty.job.n)
  }

  /** A late worker that comes between the stores of CURSOR and DONE has its chunk
      forgotten. */
  lemma CountIsLost(s: Fabric, x: Action, w: nat) returns (u: Fabric)
    requires Asks(s, x) && w < |s.agents| && Late(s, w)
    ensures Leads(x.a, Step(AsWritten, s, x), u) && !Accounted(u, x.a)
  {
    hide Leads, Inv, MakeJob, Lo, Hi, Tally;
    var a, j, s1 := x.a, JobOf(x), Step(AsWritten, s, x);
    IdleAgent(s, x, w);
    IdleAgent(s, x, a);
    Taken(s, x);
    var t := ComesIn(a, s1, w);
    u := Publishes(a, t, s.slots, 0, 6);
    Onward(a, s1, t, u);
    SixPublished(s.slots, j);
    t := ReadsFirst(a, u, w);
    Onward(a, s1, u, t);
    u := ReadsOn(a, t, w);
    Onward(a, s1, t, u);
    ChunkNonEmpty(j, 0);
    t := RunsChunk(a, u, w);
    Onward(a, s1, u, t);
    Go(a, s1, t, Store(a));
    u := Step(AsWritten, t, Store(a));
    forall b: nat | b < |u.agents| ensures !Working(u.agents[b].pc) { IdleAgent(s, x, b); }
    CountNone(u.agents, Working);
  }

  lemma SixPublished(x: Slots, j: Job)
    ensures AfterStores(x, j, 6) == Slots(j.func, j.ctx, j.count, j.chunk, j.n, 0, x.done)
  {
    assert AfterStores(x, j, 1) == x.(func := j.func);
    assert AfterStores(x, j, 2) == x.(func := j.func, ctx := j.ctx);
    assert AfterStores(x, j, 3) == x.(func := j.func, ctx := j.ctx, rows := j.count);
    assert AfterStores(x, j, 4) == x.(func := j.func, ctx := j.ctx, rows := j.count, chunk := j.chunk);
  }

  ghost predicate AlwaysAccounted(s: Fabric, x: Action)
    requires Asks(s, x)
  {
    forall t | Leads(x.a, Step(AsWritten, s, x), t) :: Accounted(t, x.a)
  }

  /** And whatever lies in the slots: the tally a call waits for can be trusted in
      every continuation if and only if no worker is late as it takes BUSY. */
  lemma AccountedIffNoneLate(s: Fabric, x: Action)
    requires Asks(s, x)
    ensures AlwaysAccounted(s, x) <==> NoneLate(s)
  {
    hide Leads, Asks, Inv, Late, Accounted;
    if NoneLate(s) {
      NoneLateIsAccounted(s, x);
    } else {
      var w: nat :| w < |s.agents| && Late(s, w);
      var t := CountIsLost(s, x, w);
    }
  }

  lemma NoneLateIsAccounted(s: Fabric, x: Action)
    requires Asks(s, x) && NoneLate(s)
    ensures AlwaysAccounted(s, x)
  {
    var s1, a := Step(AsWritten, s, x), x.a;
    Taken(s, x);
    CalmWhenTaken(s, x);
    forall t | Leads(a, s1, t)
      ensures Accounted(t, a)
    {
      var xs :| Within(s1, xs, a) && Final(AsWritten, s1, xs) == t;
      CallKeeps(s1, xs, a);
      assert AgentOk(t, a);
    }
  }

  // ----- from power on -----

  /** Some run at all leads from `s` to `t`. */
  ghost predicate Reaches(s: Fabric, t: Fabric) {
    exists xs :: IsRun(AsWritten, s, xs) && Final(AsWritten, s, xs) == t
  }

  lemma ReachesOn(s: Fabric, t: Fabric, x: Action, a: nat, u: Fabric)
    requires Reaches(s, t) && Enabled(t, x) && Leads(a, Step(AsWritten, t, x), u)
    ensures Reaches(s, u)
  {
    var xs :| IsRun(AsWritten, s, xs) && Final(AsWritten, s, xs) == t;
    var ys :| Within(Step(AsWritten, t, x), ys, a) && Final(AsWritten, Step(AsWritten, t, x), ys) == u;
    assert ([x] + ys)[1..] == ys;
    RunsJoin(s, xs, [x] + ys);
  }

  /** A call that the other agents sleep through. */
  lemma CallAlone(s: Fabric, x: Action) returns (u: Fabric)
    requires Asks(s, x) && s.active == 0
    ensures Leads(x.a, Step(AsWritten, s, x), u)
    ensures var j := JobOf(x);
            && u == s.(slots := u.slots, gen := s.gen + 1, busy := Some(x.a), calls := u.calls, out := u.out,
                       agents := s.agents[x.a := s.agents[x.a].(duty := Closed(j))])
            && u.slots.func == 0 && u.slots.ctx == x.ctx
  {
    hide Leads, Inv, MakeJob;
    var a, j, s1 := x.a, JobOf(x), Step(AsWritten, s, x);
    IdleAgent(s, x, a);
    Taken(s, x);
    var t := Publishes(a, s1, s.slots, 0, STORES);
    AllPublished(s.slots, j);
    u := Helps(a, t, j);
    Onward(a, s1, t, u);
    Go(a, s1, u, SeeIdle(a));
    u := Step(AsWritten, u, SeeIdle(a));
  }

  /** A caller and a worker. */
  const PAIR: seq<bool> := [false, true]

  /** The state after one call that the worker has slept through: BUSY is free, and
      the worker is late. */
  lemma FirstCall(func: nat, ctx: nat, count: nat, width: nat) returns (s: Fabric)
    requires func != 0 && WorthSplitting(1, count, width)
    ensures Reaches(Start(PAIR), s) && Inv(AsWritten, s) && s.busy.None? && s.slots.ctx == ctx && s.active == 0
    ensures s.agents == [Agent(false, 0, Free, Away), Agent(true, 0, Free, Away)] && s.gen == 1
  {
    hide Leads, Inv, MakeJob, IsRun, Final;
    var s0 := Start(PAIR);
    StartsHere(s0);
    StartInv(AsWritten, PAIR);
    var x := TakeBusy(0, func, ctx, count, width, 1);
    var t := CallAlone(s0, x);
    ReachesOn(s0, s0, x, 0, t);
    hide Reaches;
    assert t.agents == [Agent(false, 0, Closed(JobOf(x)), Away), Agent(true, 0, Free, Away)];
    s := LetsGo(t, s0);
  }

  lemma StartsHere(s: Fabric)
    ensures Reaches(s, s)
  {
    assert IsRun(AsWritten, s, []) && Final(AsWritten, s, []) == s;
  }

  lemma LetsGo(t: Fabric, s0: Fabric) returns (s: Fabric)
    requires Reaches(s0, t) && |t.agents| == 2 && t.agents[0].duty.Closed? && !t.agents[0].worker && t.agents[0].pc.Away?
    requires t.agents[1].worker && t.agents[1].duty.Free? && t.agents[1].pc.Away?
    requires t.active == 0 && t.slots.func == 0
    ensures Reaches(s0, s) && Inv(AsWritten, s)
    ensures s == t.(busy := None, agents := [t.agents[0].(duty := Free), t.agents[1]])
  {
    var y := DropBusy(0);
    s := Step(AsWritten, t, y);
    Stay(1, s);
    ReachesOn(s0, t, y, 1, s);
    CountNone(s.agents, Inside);
  }

  /** With FUNC stored first, as written, two calls from power on, the second of
      another context: the worker wakes for the first, comes in during the second's
      stores, and runs its first chunk with the first's context; and the second
      call comes to answer true. */
  lemma FuncFirstRunsAStaleContext(func: nat, old_ctx: nat, new_ctx: nat, count: nat, width: nat) returns (t: Fabric)
    requires func != 0 && old_ctx != new_ctx && WorthSplitting(1, count, width)
    ensures Reaches(Start(PAIR), t) && |t.agents| == 2
    ensures var j := MakeJob(func, new_ctx, count, 1);
            && t.agents[0].duty == Closed(j) && !Exact(t, j)
            && t.calls != [] && t.calls[0] == Call(func, old_ctx, Lo(j, 0), Hi(j, 0))
  {
    hide Leads, Inv, Reaches, Lo, Hi;
    var s := FirstCall(func, old_ctx, count, width);
    var x := TakeBusy(0, func, new_ctx, count, width, 1);
    t := StaleCallCloses(s, x, 1);
    ReachesOn(Start(PAIR), s, x, 0, t);
    StaleIsNotExact(t, JobOf(x), old_ctx);
  }
}
