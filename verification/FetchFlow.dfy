/**
 The byte count of the instruction queue over whole runs of a program that moves on sequentially except
 behind a jump, a branch or a register jump.

 The count and the address of the queue head keep in step: together they fill whole blocks, or the count
 alone does, because a jump or a flush has just started a new block.  Behind a taken branch they are out
 of step until the head is first looked at, which happens before the branch is resolved.
 */
module FetchFlow {
  import opened Powers
  import opened Prelude
  import opened Isa
  import opened Predictors
  import opened FetchQueue
  import opened FunctionalUnits
  import opened Scheduler
  import opened Timeline
  import opened Invariants
  import opened Runs
  import opened Liveness

  // ---- Programs ----

  /** `i` runs on into the next address, so far as its kind says. */
  predicate RunsOn(i: Instr) { !i.IsJump() && !Redirects(i) }

  /** Instructions lie at even addresses, and only jumps and branches leave the sequence. */
  predicate EvenSequential(trace: seq<Instr>) {
    && (forall k :: 0 <= k < |trace| ==> trace[k].address % 2 == 0)
    && (forall k :: 0 < k < |trace| && RunsOn(trace[k - 1]) ==> trace[k].address == trace[k - 1].NextAddr())
  }

  // ---- In step ----

  /** At most one block is owed, and nothing while a fetch can still be lost. */
  predicate WithinBlock(q: Iq) {
    && q.len + q.fetchSize >= 0
    && (q.newFetch ==> q.len >= 0)
  }

  predicate EvenBlocks(q: Iq) { q.fetchSize >= 4 && q.fetchSize % 2 == 0 }

  /** The bytes in the queue end at the end of a block if they begin at the address. */
  predicate Aligned(q: Iq, address: nat)
    requires q.fetchSize > 0
  {
    (q.len + address) % q.fetchSize == 0
  }

  /** The queue holds whole blocks. */
  predicate WholeBlocks(q: Iq)
    requires q.fetchSize > 0
  {
    q.len % q.fetchSize == 0
  }

  predicate Follows(last: Instr, x: Instr) {
    x.address == last.NextAddr() && !last.IsJump()
  }

  /** Sequential code is aligned unless a misprediction has flushed the queue in front of it. */
  predicate InStep(q: Iq, last: Option<LastIssue>, x: Instruction)
    requires q.fetchSize > 0
  {
    match last
    case None => WholeBlocks(q)
    case Some(l) =>
      if Follows(l.instr, x.instr)
      then Aligned(q, x.instr.address) || (WholeBlocks(q) && Redirects(l.instr) && x.Has(Bmiss))
      else WholeBlocks(q)
  }

  /** The head comes behind a taken branch that it has not been compared with. */
  predicate Pending(last: Option<LastIssue>, x: Instruction) {
    last.Some? && Redirects(last.value.instr) && x.instr.address != last.value.instr.NextAddr() && !x.Has(Bhit)
  }

  // ---- One instruction ----

  lemma JumpWithin(q: Iq)
    requires EvenBlocks(q) && WithinBlock(q)
    ensures var r := q.Jump();
            WithinBlock(r) && WholeBlocks(r) && !r.newFetch && r.fetchSize == q.fetchSize
  {
    var m := q.fetchSize;
    var lost := if q.newFetch then q.(len := q.len - m, newFetch := false) else q;
    TruncateAligns(lost, 0);
    BlockFloor(lost.len, m, -1);
  }

  lemma EvenRemainder(a: nat, m: nat)
    requires m >= 2 && m % 2 == 0 && a % 2 == 0
    ensures a % m <= m - 2 && (a % m != m - 2 ==> a % m <= m - 4)
  {
    var q, r, h := a / m, a % m, m / 2;
    assert a == m * q + r && m == 2 * h;
    assert m * q == 2 * (h * q);
    assert r == a - 2 * (h * q);
    assert r % 2 == 0;
  }

  /** What an instruction takes from a queue that has it: its size if it is aligned, and behind the start
      of a new block also the bytes of the block in front of it. */
  lemma RemoveWithin(q: Iq, i: Instr)
    requires EvenBlocks(q) && WithinBlock(q) && i.address % 2 == 0 && q.Has(i)
    requires Aligned(q, i.address) || WholeBlocks(q)
    ensures var cost := i.Size() + if Aligned(q, i.address) then 0 else i.address % q.fetchSize;
            var cut := q.(len := q.len - cost);
            && cut.len >= 0
            && q.Remove(i) == (if i.IsJump() then cut.Jump() else cut)
    ensures WithinBlock(q.Remove(i)) && q.Remove(i).fetchSize == q.fetchSize
    ensures i.IsJump() ==> WholeBlocks(q.Remove(i))
    ensures !i.IsJump() ==> Aligned(q.Remove(i), i.NextAddr())
  {
    hide Iq.Jump;
    var m := q.fetchSize;
    var cut := q.(len := q.len - i.Size()).Truncate(i.NextAddr() % m);
    CutCost(q, i);
    var index := i.address % m;
    EvenRemainder(i.address, m);
    if !Aligned(q, i.address) {
      ModAdd(q.len, i.address, m);
      ModSmall(index, m);
      assert (q.len + i.address) % m == index;
      assert q.len >= m by { WholePositive(q.len, m); }
      if q.IsCrossword(i) { assert q.len >= 2 * m by { WholePositive(q.len - m, m); } }
    }
    if i.IsJump() { JumpWithin(cut); }
  }

  /** A queue in step has an instruction if and only if its bytes are there: those of the queue, less the ones
      in front of it in a new block. */
  lemma HasIff(q: Iq, i: Instr)
    requires EvenBlocks(q) && i.address % 2 == 0 && (Aligned(q, i.address) || WholeBlocks(q))
    ensures q.Has(i) <==> q.len - (if Aligned(q, i.address) then 0 else i.address % q.fetchSize) >= i.Size()
  {
    var m := q.fetchSize;
    var index := i.address % m;
    EvenRemainder(i.address, m);
    if Aligned(q, i.address) {
      if q.IsCrossword(i) && q.len > 0 {
        CrossLength(q.len, i.address, m);
      }
    } else {
      if q.len > 0 { WholePositive(q.len, m); }
    }
  }

  /** Two bytes of a block in front of whole blocks. */
  lemma CrossLength(len: int, address: nat, m: nat)
    requires m >= 4 && len > 0 && (len + address) % m == 0 && address % m == m - 2
    ensures len == 2 || len >= m + 2
  {
    ModAdd(len, address, m);
    assert (len % m + (m - 2)) % m == 0;
    assert len % m == 2 by { if len % m < 2 { ModSmall(len % m + m - 2, m); } else { ModBlocks(len % m - 2, 1, m); ModSmall(len % m - 2, m); } }
    var k := len / m;
    assert len == m * k + 2;
    if k >= 1 { MulApart(m, k); }
  }

  lemma WholePositive(len: int, m: nat)
    requires m > 0 && len > 0 && (len % m == 0 || (len + m) % m == 0)
    ensures len >= m
  {
    if (len + m) % m == 0 { ModBlocks(len, 1, m); }
    var k := len / m;
    assert len == m * k;
    if k <= 0 { MulApart(m, k); }
  }

  lemma FetchInStep(q: Iq, last: Option<LastIssue>, x: Instruction)
    requires EvenBlocks(q) && WithinBlock(q)
    ensures WithinBlock(q.Fetch()) && q.Fetch().newFetch
    ensures InStep(q, last, x) ==> InStep(q.Fetch(), last, x)
  {
    ModBlocks(q.len, 1, q.fetchSize);
    ModBlocks(q.len + x.instr.address, 1, q.fetchSize);
  }

  /** Looking at the head puts it in step, if the branch before it is not yet resolved. */
  lemma LookInStep(last: Option<LastIssue>, ras: Ras, bht: Bht, q: Iq, x: Instruction, t: nat)
    requires |bht| > 0 && EvenBlocks(q) && WithinBlock(q)
    requires InStep(q, last, x) || (Pending(last, x) && t < last.value.issueCycle + 6)
    ensures var (y, r) := IssueManageLastBranch(last, ras, bht, q, x, t);
            WithinBlock(r) && r.fetchSize == q.fetchSize && InStep(r, last, y)
  {
    hide PredictPc, Iq.Jump;
    PredictedKinds(last, ras, bht);
    if x.Has(Bmiss) { HasGrows(x, [Event(Bhit, t)], Bmiss); }
    assert x.Log(Bmiss, t).events[|x.events|].kind == Bmiss;
    JumpWithin(q);
    FlushWhole(q);
  }

  lemma PredictedKinds(last: Option<LastIssue>, ras: Ras, bht: Bht)
    requires |bht| > 0
    ensures last.Some? ==> (PredictPc(ras, bht, last.value.instr).Some? <==> Redirects(last.value.instr))
  {
  }

  lemma FlushWhole(q: Iq)
    requires EvenBlocks(q)
    ensures WholeBlocks(q.Flush()) && WithinBlock(q.Flush())
  {
  }

  // ---- One issue attempt ----

  /** The queue is the rest of the trace, of which only the head has been looked at. */
  ghost predicate Where(trace: seq<Instr>, s: State) {
    && Total(s) == |trace|
    && (forall k :: 0 <= k < |s.queue| ==> s.queue[k].instr == trace[Issued(s) + k])
    && (forall k :: 1 <= k < |s.queue| ==> s.queue[k].events == [])
    && (if Issued(s) == 0 then s.lastIssued.None?
        else s.lastIssued.Some? && s.lastIssued.value.instr == trace[Issued(s) - 1])
  }

  predicate Sound(s: State) {
    EvenBlocks(s.iq) && WithinBlock(s.iq)
  }

  /** In cycle `t`: the head is in step, or waits behind a branch of the last three cycles or a full
      scoreboard. */
  ghost predicate Flowing(s: State, t: int)
    requires s.iq.fetchSize > 0
  {
    |s.queue| > 0 ==>
      InStep(s.iq, s.lastIssued, s.queue[0])
      || (Pending(s.lastIssued, s.queue[0]) && (t <= s.lastIssued.value.issueCycle + 3 || Full(s)))
  }

  /** The same after an attempt in cycle `t`, which has looked at the head or issued the branch itself. */
  ghost predicate Looked(s: State, t: int)
    requires s.iq.fetchSize > 0
  {
    |s.queue| > 0 ==>
      InStep(s.iq, s.lastIssued, s.queue[0])
      || (Pending(s.lastIssued, s.queue[0]) && (t == s.lastIssued.value.issueCycle || Full(s)))
  }

  /** The hazards that the attempt logs first put nothing out of step. */
  lemma HazardsInStep(q: Iq, last: Option<LastIssue>, x: Instruction, hazards: seq<Event>)
    requires q.fetchSize > 0 && Quiet(hazards)
    ensures var y := x.(events := x.events + hazards);
            && (InStep(q, last, x) ==> InStep(q, last, y))
            && (Pending(last, x) ==> Pending(last, y))
  {
    if x.Has(Bmiss) { HasGrows(x, hazards, Bmiss); }
  }

  /** What is behind an instruction that was removed from a queue in step with it. */
  lemma NextInStep(q: Iq, i: Instr, next: Instruction, t: nat)
    requires EvenBlocks(q) && next.events == [] && (RunsOn(i) ==> next.instr.address == i.NextAddr())
    requires i.IsJump() ==> WholeBlocks(q)
    requires !i.IsJump() ==> Aligned(q, i.NextAddr())
    ensures var last := Some(LastIssue(i, t)); InStep(q, last, next) || Pending(last, next)
  {
  }

  lemma InStepEither(q: Iq, last: Option<LastIssue>, x: Instruction)
    requires q.fetchSize > 0 && InStep(q, last, x)
    ensures Aligned(q, x.instr.address) || WholeBlocks(q)
  {
  }

  /** The two outcomes of an attempt that looks at the head. */
  lemma AttemptIs(s: State, t: nat)
    requires WellFormed(s) && |s.queue| > 0 && !Full(s)
    ensures var x := s.queue[0];
            var hazards := HazardEvents(s.cfg, x.instr, s.scoreboard, t) + StructEvents(s.fus, x.instr, t);
            var (y, q) := IssueManageLastBranch(s.lastIssued, s.ras, s.bht, s.iq, x.(events := x.events + hazards), t);
            && y.instr == x.instr
            && (DidIssue(s, t) ==> q.Has(y.instr) && TryIssue(s, t) == IssueEntry(s, y, q, t))
            && (!DidIssue(s, t) ==> TryIssue(s, t) == s.(queue := [y] + s.queue[1..], iq := q))
  {
    hide HazardEvents, IssueManageLastBranch, StructEvents, Iq.Has, Iq.Remove;
  }

  lemma AttemptFlows(trace: seq<Instr>, s: State, t: nat)
    requires WellFormed(s) && EvenSequential(trace) && Where(trace, s) && Sound(s) && Flowing(s, t)
    ensures Where(trace, TryIssue(s, t)) && Sound(TryIssue(s, t)) && Looked(TryIssue(s, t), t)
  {
    hide HazardEvents, StructEvents, IssueManageLastBranch, InStep, Pending, Iq.Has, Iq.Remove, WithinBlock, Quiet;
    if |s.queue| > 0 && !Full(s) {
      var x := s.queue[0];
      var hazards := HazardEvents(s.cfg, x.instr, s.scoreboard, t) + StructEvents(s.fus, x.instr, t);
      QuietTogether(s.cfg, x.instr, s.scoreboard, s.fus, t);
      HazardsInStep(s.iq, s.lastIssued, x, hazards);
      LookInStep(s.lastIssued, s.ras, s.bht, s.iq, x.(events := x.events + hazards), t);
      AttemptIs(s, t);
      var (y, q) := IssueManageLastBranch(s.lastIssued, s.ras, s.bht, s.iq, x.(events := x.events + hazards), t);
      if DidIssue(s, t) {
        InStepEither(q, s.lastIssued, y);
        RemoveWithin(q, y.instr);
        if |s.queue| > 1 { NextInStep(q.Remove(y.instr), y.instr, s.queue[1], t); }
      }
    }
  }

  // ---- One cycle ----

  lemma {:induction false} PortsFlow(trace: seq<Instr>, s: State, t: nat, ports: nat)
    requires WellFormed(s) && EvenSequential(trace) && Where(trace, s) && Sound(s) && Flowing(s, t)
    ensures var u := IssuePorts(s, t, ports);
            Where(trace, u) && Sound(u) && Flowing(u, t) && (ports > 0 ==> Looked(u, t))
    decreases ports
  {
    hide TryIssue, Where, Sound, Flowing, Looked, EvenSequential;
    if ports > 0 {
      PortsFlow(trace, s, t, ports - 1);
      AttemptFlows(trace, IssuePorts(s, t, ports - 1), t);
      LookedFlows(IssuePorts(s, t, ports), t);
    }
  }

  lemma LookedFlows(s: State, t: int)
    requires s.iq.fetchSize > 0 && Looked(s, t)
    ensures Flowing(s, t)
  {
    hide InStep, Pending;
  }

  /** Before cycle `t`: a head that still waits comes behind an issue of the last cycle or has met a full
      scoreboard since; and unless nothing commits, three cycles free an entry. */
  ghost predicate Between(s: State, t: nat)
    requires s.iq.fetchSize > 0
  {
    && (s.lastIssued.Some? ==> s.cfg.sbLen > 0 && s.cfg.issueWidth > 0)
    && (|s.queue| > 0 ==>
          InStep(s.iq, s.lastIssued, s.queue[0])
          || (Pending(s.lastIssued, s.queue[0])
              && (t <= s.lastIssued.value.issueCycle + 1 || Full(s))
              && (t <= s.lastIssued.value.issueCycle + 3 || s.cfg.commitWidth == 0)))
  }

  lemma BeforeFlows(trace: seq<Instr>, s: State, t: nat)
    requires WellFormed(s) && Where(trace, s) && Sound(s) && Between(s, t)
    ensures var b := BeforeIssue(s, t); Where(trace, b) && Sound(b) && Flowing(b, t)
  {
    hide InStep, Pending, WithinBlock, EvenBlocks;
    BeforeIssueKeeps(s, t);
    NoCommits(s, t);
    hide BeforeIssue;
  }

  lemma NoCommits(s: State, t: nat)
    requires WellFormed(s)
    ensures s.cfg.commitWidth == 0 ==> |BeforeIssue(s, t).scoreboard| == |s.scoreboard|
  {
  }

  /** A head that no attempt of the cycle has looked at: the scoreboard is full, so nothing was committed
      from it, and its first entry is younger than three cycles or there is no commit port. */
  lemma NotLookedAt(trace: seq<Instr>, s: State, u: State, t: nat)
    requires Alive(trace, s, t) && u == IssuePorts(BeforeIssue(s, t), t, s.cfg.issueWidth)
    requires u.lastIssued.Some? && u.lastIssued.value.issueCycle != t && Full(u) && u.cfg == s.cfg && s.cfg.sbLen > 0
    ensures u.lastIssued == s.lastIssued
    ensures t + 1 <= u.lastIssued.value.issueCycle + 3 || s.cfg.commitWidth == 0
  {
    var b := BeforeIssue(s, t);
    BeforeIssueKeeps(s, t);
    PortsKept(b, t, s.cfg.issueWidth);
    IssuedPorts(b, t, s.cfg.issueWidth);
    ScoreboardFits(trace, s, t);
    if |s.scoreboard| > 0 { EntriesOld(trace, s, t); }
    hide IssuePorts, BeforeIssue, Alive;
  }

  lemma ScoreboardFits(trace: seq<Instr>, s: State, t: nat)
    requires Alive(trace, s, t)
    ensures |s.scoreboard| <= s.cfg.sbLen && Bounded(s.iq) && WellFormed(s)
  {
  }

  lemma CycleFlows(trace: seq<Instr>, s: State, t: nat)
    requires WellFormed(s) && EvenSequential(trace) && Alive(trace, s, t) && Where(trace, s) && Sound(s) && Between(s, t)
    ensures var u := RunCycle(s, t); Alive(trace, u, t + 1) && Where(trace, u) && Sound(u) && Between(u, t + 1)
  {
    hide Alive, Where, Sound, Flowing, Looked, EvenSequential, Between, IssuePorts;
    var b, w := BeforeIssue(s, t), s.cfg.issueWidth;
    var u := IssuePorts(b, t, w);
    AliveCycle(trace, s, t);
    BeforeFlows(trace, s, t);
    PortsFlow(trace, b, t, w);
    CycleIs(s, t);
    CycleEndsFlowing(trace, s, u, t);
  }

  lemma CycleEndsFlowing(trace: seq<Instr>, s: State, u: State, t: nat)
    requires WellFormed(s) && Alive(trace, s, t) && Sound(s) && Between(s, t)
    requires u == IssuePorts(BeforeIssue(s, t), t, s.cfg.issueWidth) && Alive(trace, u.(iq := u.iq.Fetch()), t + 1)
    requires Where(trace, u) && Sound(u) && Flowing(u, t) && (s.cfg.issueWidth > 0 ==> Looked(u, t))
    ensures var v := u.(iq := u.iq.Fetch()); Where(trace, v) && Sound(v) && Between(v, t + 1)
  {
    hide InStep, Pending, Alive, IssuePorts, BeforeIssue, WithinBlock, EvenBlocks;
    var b := BeforeIssue(s, t);
    var v := u.(iq := u.iq.Fetch());
    ScoreboardFits(trace, s, t);
    ScoreboardFits(trace, v, t + 1);
    IssuedThen(s, u, t);
    FetchWithin(u.iq);
    if |u.queue| > 0 { FetchInStep(u.iq, u.lastIssued, u.queue[0]); }
    if u.lastIssued.Some? && u.lastIssued.value.issueCycle != t && Full(u) {
      NotLookedAt(trace, s, u, t);
    }
    if |u.queue| > 0 {
      NothingPending(u.lastIssued, u.queue[0]);
      if !InStep(u.iq, u.lastIssued, u.queue[0]) {
        assert Pending(u.lastIssued, u.queue[0]) && (u.lastIssued.value.issueCycle == t || Full(v));
        assert t + 1 <= u.lastIssued.value.issueCycle + 3 || v.cfg.commitWidth == 0;
      }
    }
  }

  lemma FetchWithin(q: Iq)
    requires EvenBlocks(q) && WithinBlock(q)
    ensures WithinBlock(q.Fetch()) && EvenBlocks(q.Fetch())
  {
  }

  lemma NothingPending(last: Option<LastIssue>, x: Instruction)
    ensures Pending(last, x) ==> last.Some?
  {
  }

  /** Where something has issued, there is a port and an entry. */
  lemma IssuedThen(s: State, u: State, t: nat)
    requires WellFormed(s) && Bounded(s.iq) && u == IssuePorts(BeforeIssue(s, t), t, s.cfg.issueWidth)
    requires s.lastIssued.Some? ==> s.cfg.sbLen > 0 && s.cfg.issueWidth > 0
    requires |u.scoreboard| <= u.cfg.sbLen
    ensures u.cfg == s.cfg
    ensures u.lastIssued.Some? ==> s.cfg.sbLen > 0 && s.cfg.issueWidth > 0
  {
    var b := BeforeIssue(s, t);
    BeforeIssueKeeps(s, t);
    PortsKept(b, t, s.cfg.issueWidth);
    IssuedPorts(b, t, s.cfg.issueWidth);
    IssuePortsConfig(b, t, s.cfg.issueWidth);
    hide IssuePorts, BeforeIssue, Bounded;
  }

  // ---- Whole runs ----

  lemma InitFlows(cfg: Config, fetch: nat, trace: seq<Instr>)
    ensures var s := Init(cfg, fetch, trace); Where(trace, s) && Sound(s) && Between(s, 0)
  {
    var s := Init(cfg, fetch, trace);
    var requested := if fetch != 0 then fetch else 4 * cfg.issueWidth;
    assert Pow2(2) == 4;
    var m := FetchSizeLeast(2, requested);
    assert s.iq.fetchSize == Pow2(m) == 2 * Pow2(m - 1);
    ModBlocks(0, 1, s.iq.fetchSize);
  }

  lemma {:induction false} FlowFrom(trace: seq<Instr>, s: State, n: nat)
    requires WellFormed(s) && EvenSequential(trace) && Alive(trace, s, 0) && Where(trace, s) && Sound(s) && Between(s, 0)
    ensures var u := Cycles(s, n); Alive(trace, u, n) && Where(trace, u) && Sound(u) && Between(u, n)
    decreases n
  {
    hide Alive, Where, Sound, Between, EvenSequential, RunCycle;
    if n > 0 {
      FlowFrom(trace, s, n - 1);
      CycleFlows(trace, Cycles(s, n - 1), n - 1);
    }
  }

  lemma RunFlows(cfg: Config, fetch: nat, trace: seq<Instr>, n: nat)
    requires EvenSequential(trace)
    ensures var s := Cycles(Init(cfg, fetch, trace), n);
            Alive(trace, s, n) && Where(trace, s) && Sound(s) && Between(s, n)
  {
    hide Alive, Where, Sound, Between, EvenSequential;
    InitAlive(cfg, fetch, trace);
    InitFlows(cfg, fetch, trace);
    FlowFrom(trace, Init(cfg, fetch, trace), n);
  }

  /** The state of cycle `n` after `ports` of its issue attempts. */
  function Within(cfg: Config, fetch: nat, trace: seq<Instr>, n: nat, ports: nat): (r: State)
    ensures WellFormed(r)
  {
    IssuePorts(BeforeIssue(Cycles(Init(cfg, fetch, trace), n), n), n, ports)
  }

  lemma WithinFlows(cfg: Config, fetch: nat, trace: seq<Instr>, n: nat, ports: nat)
    requires EvenSequential(trace)
    ensures var v := Within(cfg, fetch, trace, n, ports); Where(trace, v) && Sound(v) && Flowing(v, n)
  {
    hide Alive, Where, Sound, Between, EvenSequential, Flowing, Looked, Init, Cycles, BeforeIssue, IssuePorts;
    var s := Cycles(Init(cfg, fetch, trace), n);
    RunFlows(cfg, fetch, trace, n);
    BeforeFlows(trace, s, n);
    PortsFlow(trace, BeforeIssue(s, n), n, ports);
  }

  /** The byte count of an even, sequential program is at no step more than one block below zero, and not
      below it where a fetch can still be lost: not between cycles, nor after any commit, execution or issue. */
  lemma CountWithinBlock(cfg: Config, fetch: nat, trace: seq<Instr>, n: nat, ports: nat)
    requires EvenSequential(trace)
    ensures var s := Cycles(Init(cfg, fetch, trace), n);
            && s.iq.newFetch && s.iq.len >= 0
            && CommitPorts(s.(fus := s.fus.Cycle()), n, ports).iq == s.iq
            && BeforeIssue(s, n).iq == s.iq
    ensures var q := Within(cfg, fetch, trace, n, ports).iq;
            q.len + q.fetchSize >= 0 && (q.newFetch ==> q.len >= 0)
  {
    var s := Cycles(Init(cfg, fetch, trace), n);
    RunFlows(cfg, fetch, trace, n);
    WithinFlows(cfg, fetch, trace, n, ports);
    hide Where, Between, Flowing, Cycles, BeforeIssue, IssuePorts, Safe, LastIssueOk;
    CommitPortsConfig(s.(fus := s.fus.Cycle()), n, ports);
    BeforeIssueKeeps(s, n);
  }

  /** The attempt leaves the queue alone when it looks at sequential code that no misprediction has flushed. */
  lemma LookAtSequential(last: Option<LastIssue>, ras: Ras, bht: Bht, q: Iq, x: Instruction, t: nat)
    requires |bht| > 0 && q.fetchSize > 0
    requires last.Some? && Follows(last.value.instr, x.instr)
    requires RunsOn(last.value.instr) || !IssueManageLastBranch(last, ras, bht, q, x, t).0.Has(Bmiss)
    ensures IssueManageLastBranch(last, ras, bht, q, x, t).1 == q
  {
    assert x.Log(Bmiss, t).events[|x.events|].kind == Bmiss;
    if x.Has(Bmiss) { HasGrows(x, [Event(Bhit, t)], Bmiss); }
    hide Iq.Jump;
  }

  lemma IssueCost(trace: seq<Instr>, s: State, t: nat)
    requires WellFormed(s) && EvenSequential(trace) && Where(trace, s) && Sound(s) && Flowing(s, t) && DidIssue(s, t)
    requires |s.queue| > 0 && s.lastIssued.Some? && Follows(s.lastIssued.value.instr, s.queue[0].instr)
    requires RunsOn(s.lastIssued.value.instr) || !At(TryIssue(s, t), Issued(s)).Has(Bmiss)
    ensures var x := s.queue[0].instr;
            var cut := s.iq.(len := s.iq.len - x.Size());
            TryIssue(s, t).iq == if x.IsJump() then cut.Jump() else cut
  {
    hide HazardEvents, StructEvents, IssueManageLastBranch, Pending, Iq.Has, Iq.Remove, WithinBlock, Quiet;
    var x := s.queue[0];
    var hazards := HazardEvents(s.cfg, x.instr, s.scoreboard, t) + StructEvents(s.fus, x.instr, t);
    var z := x.(events := x.events + hazards);
    var filled := IssueLine(s, t);
    QuietTogether(s.cfg, x.instr, s.scoreboard, s.fus, t);
    HazardsInStep(s.iq, s.lastIssued, x, hazards);
    AttemptIs(s, t);
    LookInStep(s.lastIssued, s.ras, s.bht, s.iq, z, t);
    var (y, q) := IssueManageLastBranch(s.lastIssued, s.ras, s.bht, s.iq, z, t);
    MissKept(y, s.fus.TakesAlu2(y.instr), t);
    LookAtSequential(s.lastIssued, s.ras, s.bht, s.iq, z, t);
    RemoveWithin(q, y.instr);
  }

  lemma MissKept(y: Instruction, onAlu2: bool, t: nat)
    ensures y.(onAlu2 := onAlu2).Log(Issue, t).Has(Bmiss) == y.Has(Bmiss)
  {
    if y.Has(Bmiss) { HasGrows(y.(onAlu2 := onAlu2), [Event(Issue, t)], Bmiss); }
  }

  /** Sequential code loses no bytes: an instruction that follows the one before it in memory takes exactly
      its size from the queue, and a fetch more only if it is a jump itself; unless it comes behind a
      branch that was not taken and mispredicted, which flushes the queue. */
  lemma SequentialCostsItsSize(cfg: Config, fetch: nat, trace: seq<Instr>, n: nat, ports: nat, h: nat)
    requires EvenSequential(trace)
    requires h == Issued(Within(cfg, fetch, trace, n, ports)) && DidIssue(Within(cfg, fetch, trace, n, ports), n)
    requires 0 < h < |trace| && Follows(trace[h - 1], trace[h])
    requires var u := TryIssue(Within(cfg, fetch, trace, n, ports), n);
             RunsOn(trace[h - 1]) || (h < Total(u) && !At(u, h).Has(Bmiss))
    ensures var q := Within(cfg, fetch, trace, n, ports).iq;
            var cut := q.(len := q.len - trace[h].Size());
            && q.fetchSize > 0
            && TryIssue(Within(cfg, fetch, trace, n, ports), n).iq == if trace[h].IsJump() then cut.Jump() else cut
  {
    hide EvenSequential, Sound, Flowing, Within, TryIssue, Iq.Jump, Follows;
    var v := Within(cfg, fetch, trace, n, ports);
    WithinFlows(cfg, fetch, trace, n, ports);
    assert |v.queue| > 0 && v.queue[0].instr == trace[h];
    var y := IssueLine(v, n);
    hide At;
    IssueCost(trace, v, n);
  }

  // ---- What the condition is for ----

  function Plain(base: Base, address: nat): Instr {
    Instr(base, address, None, None, None, 0, 0)
  }

  /** Out of step, a jump takes a queue of two bytes two blocks below zero. */
  lemma OutOfStep()
    ensures var q, i := Iq(4, 2, true), Plain(CJ, 0);
            && !Aligned(q, i.address) && !WholeBlocks(q) && q.Has(i)
            && q.Remove(i) == Iq(4, -8, false) && -8 == -2 * q.fetchSize
  {
    var q, i := Iq(4, 2, true), Plain(CJ, 0);
    assert q.(len := 0).Truncate(2) == Iq(4, -2, true);
    assert Iq(4, -2, true).Jump() == Iq(4, -6, false).Truncate(0) == Iq(4, -8, false);
  }

  /** An instruction that waits for nothing issues. */
  lemma Issues(s: State, t: nat)
    requires WellFormed(s) && |s.queue| > 0 && |s.scoreboard| < s.cfg.sbLen
    requires s.cfg.hasRenaming && s.queue[0].instr.rs1.None? && s.queue[0].instr.rs2.None?
    requires s.fus.IsReadyFor(s.queue[0].instr) && s.iq.Has(s.queue[0].instr)
    requires s.lastIssued.Some? ==> RunsOn(s.lastIssued.value.instr)
    ensures TryIssue(s, t) == IssueEntry(s, s.queue[0], s.iq, t)
  {
    hide Iq.Has, IssueEntry;
    var x := s.queue[0];
    HazardKinds(s.cfg, x.instr, s.scoreboard, t);
    assert x.events + [] == x.events && x.(events := x.events) == x;
    hide HazardEvents;
  }

  const FALLBACK: seq<Instr> := [Plain(CAddi, 0), Plain(CJ, 0)]
  const TWO_WIDE := Config(2, 1, 2, true, true)

  lemma FallbackBegins()
    ensures var b := BeforeIssue(Init(TWO_WIDE, 4, FALLBACK), 0);
            && b.queue == [Untouched(Plain(CAddi, 0)), Untouched(Plain(CJ, 0))] && b.scoreboard == []
            && b.iq == Iq(4, 4, true) && b.fus == NewFus(true).Cycle() && b.lastIssued.None? && b.cfg == TWO_WIDE
  {
    var s := Init(TWO_WIDE, 4, FALLBACK);
    assert FetchSizeFrom(4, 4) == 4;
    BeforeIssueKeeps(s, 0);
    hide BeforeIssue;
  }

  lemma FallbackFirst(b: State)
    requires WellFormed(b) && b == BeforeIssue(Init(TWO_WIDE, 4, FALLBACK), 0)
    ensures var u := TryIssue(b, 0);
            && u.queue == [Untouched(Plain(CJ, 0))] && |u.scoreboard| == 1 && u.cfg == TWO_WIDE
            && u.iq == Iq(4, 2, true) && !u.fus.alu && u.lastIssued == Some(LastIssue(Plain(CAddi, 0), 0))
  {
    hide TryIssue, BeforeIssue, Init, Iq.Remove;
    FallbackBegins();
    FirstTwoBytes();
    Issues(b, 0);
  }

  /** A trace that falls back to address 0 behind an addition gets there in its first cycle. */
  lemma SequenceIsNeeded()
    ensures !EvenSequential(FALLBACK)
    ensures Within(TWO_WIDE, 4, FALLBACK, 0, 2).iq == Iq(4, -8, false)
  {
    hide TryIssue, BeforeIssue, Init, Iq.Remove, Cycles, IssuePorts;
    assert FALLBACK[1].address != FALLBACK[0].NextAddr();
    var b := BeforeIssue(Init(TWO_WIDE, 4, FALLBACK), 0);
    FallbackFirst(b);
    var u := TryIssue(b, 0);
    OutOfStep();
    Issues(u, 0);
    TwoPorts(b);
    NoCycles(Init(TWO_WIDE, 4, FALLBACK));
  }

  lemma TwoPorts(b: State)
    requires WellFormed(b)
    ensures IssuePorts(b, 0, 2) == TryIssue(TryIssue(b, 0), 0)
  {
    hide TryIssue;
    assert IssuePorts(b, 0, 1) == TryIssue(b, 0);
  }

  lemma FirstTwoBytes()
    ensures Iq(4, 4, true).Remove(Plain(CAddi, 0)) == Iq(4, 2, true)
  {
  }
}
