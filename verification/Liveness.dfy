/**
 Every run ends, within a number of cycles linear in the length of the trace.

 The proof is a rank that every cycle lowers.  For the head of the queue it counts what the head may
 still have to wait for: the six cycles in which a mispredicted predecessor flushes the queue, one
 cycle for each entry in the scoreboard, the fetches that bring enough bytes, and the one jump that a
 first branch hit may still cost.
 */
module Liveness {
  import opened Prelude
  import opened Isa
  import opened Predictors
  import opened FetchQueue
  import opened FunctionalUnits
  import opened Scheduler
  import opened Timeline
  import opened Invariants
  import opened Runs

  // ---- The rank ----

  /** Cycles since the last issue, counted up to six. */
  function Age(s: State, t: nat): nat {
    if s.lastIssued.None? || t >= s.lastIssued.value.issueCycle + 6 then 6
    else if t < s.lastIssued.value.issueCycle then 0
    else t - s.lastIssued.value.issueCycle
  }

  /** Fetches still needed before the queue holds two blocks, which is enough for any instruction. */
  function Need(q: Iq): nat {
    if q.len >= 2 * q.fetchSize then 0
    else if q.len >= q.fetchSize then 1
    else if q.len >= 0 then 2
    else 3
  }

  function JumpsLeft(x: Instruction): nat {
    if x.Has(Bhit) then 0 else 1
  }

  function HeadWait(s: State, t: nat): nat
    requires |s.queue| > 0
  {
    if Age(s, t) < 6 then (6 - Age(s, t)) + s.cfg.sbLen + 4
    else |s.scoreboard| + Need(s.iq) + JumpsLeft(s.queue[0])
  }

  function DrainWait(s: State, t: nat): nat {
    if Age(s, t) < 3 then (3 - Age(s, t)) + s.cfg.sbLen else |s.scoreboard|
  }

  function Rank(s: State, t: nat): nat {
    if |s.queue| == 0 then DrainWait(s, t)
    else (s.cfg.sbLen + 10) * |s.queue| + HeadWait(s, t)
  }

  // ---- What liveness needs of a state between cycles ----

  ghost predicate Alive(trace: seq<Instr>, s: State, t: nat) {
    && Safe(trace, s, t)
    && Bounded(s.iq) && s.iq.newFetch
    && LastIssueOk(s)
    && (s.fus.issuedMul ==> s.lastIssued.Some? && s.lastIssued.value.issueCycle == t - 1)
  }

  ghost predicate LastIssueOk(s: State) {
    if Issued(s) == 0 then s.lastIssued.None?
    else s.lastIssued.Some? && s.lastIssued.value.issueCycle == IssueAt(At(s, Issued(s) - 1))
  }

  predicate CanRun(cfg: Config) {
    cfg.issueWidth > 0 && cfg.commitWidth > 0 && cfg.sbLen > 0
  }

  // ---- Fetch arithmetic ----

  lemma FetchHelps(q: Iq)
    requires Bounded(q)
    ensures Need(q.Fetch()) <= Need(q)
    ensures q.newFetch && Need(q) > 0 ==> Need(q.Fetch()) < Need(q)
  {
  }

  /** A jump loses no more than the fetch that follows it brings, in whole blocks. */
  lemma JumpThenFetch(q: Iq)
    requires Bounded(q) && q.newFetch
    ensures Need(q.Jump().Fetch()) <= Need(q)
  {
    var m := q.fetchSize;
    var lost := q.(len := q.len - m, newFetch := false);
    TruncateAligns(lost, 0);
    var floor := lost.len - lost.len % m;
    if q.len >= 2 * m {
      BlockFloor(lost.len, m, 1);
      assert floor >= m;
    } else if q.len >= m {
      BlockFloor(lost.len, m, 0);
      assert floor >= 0;
    } else if q.len >= 0 {
      BlockFloor(lost.len, m, -1);
      assert floor + m >= 0;
    }
    assert q.Jump().len == floor;
    assert q.Jump().Fetch() == Iq(m, floor + m, true);
  }

  lemma TwoBlocksSuffice(q: Iq, i: Instr)
    requires Bounded(q) && Need(q) == 0
    ensures q.Has(i)
  {
    assert i.Size() <= 4 <= q.fetchSize;
  }

  // ---- Issue attempts that do not issue ----

  /** The head stays; the byte count stays, unless this is the head's first branch hit. */
  ghost predicate Waited(s: State, u: State) {
    && |s.queue| > 0 && |u.queue| == |s.queue| && s.iq.fetchSize > 0
    && u == s.(queue := u.queue, iq := u.iq)
    && u.queue[0].instr == s.queue[0].instr
    && (s.queue[0].Has(Bhit) ==> u.queue[0].Has(Bhit))
    && (u.iq == s.iq || (!s.queue[0].Has(Bhit) && u.queue[0].Has(Bhit) && u.iq == s.iq.Jump()))
  }

  predicate Resolved(s: State, t: nat) {
    s.lastIssued.None? || t >= s.lastIssued.value.issueCycle + 6
  }

  lemma HasGrows(x: Instruction, more: seq<Event>, kind: EventKind)
    requires x.Has(kind)
    ensures x.(events := x.events + more).Has(kind)
  {
    var k :| 0 <= k < |x.events| && x.events[k].kind == kind;
    assert x.(events := x.events + more).events[k].kind == kind;
  }

  lemma BranchEffect(s: State, x: Instruction, t: nat)
    requires WellFormed(s) && Resolved(s, t)
    ensures var r := IssueManageLastBranch(s.lastIssued, s.ras, s.bht, s.iq, x, t);
            && r.0.instr == x.instr
            && (x.Has(Bhit) ==> r.0.Has(Bhit))
            && (r.1 == s.iq || (!x.Has(Bhit) && r.0.Has(Bhit) && r.1 == s.iq.Jump()))
  {
    if x.Has(Bhit) { HasGrows(x, [Event(Bmiss, t)], Bhit); }
    var hit := x.Log(Bhit, t);
    assert hit.events[|x.events|].kind == Bhit;
  }

  lemma TryWaited(s: State, t: nat)
    requires WellFormed(s) && |s.queue| > 0 && Resolved(s, t) && !DidIssue(s, t)
    ensures Waited(s, TryIssue(s, t))
  {
    if |s.scoreboard| < s.cfg.sbLen {
      var x := s.queue[0];
      var hazards := HazardEvents(s.cfg, x.instr, s.scoreboard, t) + StructEvents(s.fus, x.instr, t);
      var x1 := x.(events := x.events + hazards);
      if x.Has(Bhit) { HasGrows(x, hazards, Bhit); }
      BranchEffect(s, x1, t);
      hide IssueManageLastBranch, HazardEvents;
    }
  }

  /** If an attempt changed nothing that a jump would change, the head was short of bytes. */
  ghost predicate HeldBack(s: State, u: State)
    requires |s.queue| > 0 && s.iq.fetchSize > 0 && |u.queue| > 0
  {
    u.iq == s.iq && (u.queue[0].Has(Bhit) ==> s.queue[0].Has(Bhit)) ==> !s.iq.Has(s.queue[0].instr)
  }

  lemma WaitedTwice(s: State, v: State, u: State)
    requires Waited(s, v) && Waited(v, u)
    ensures Waited(s, u)
    ensures HeldBack(s, v) ==> HeldBack(s, u)
  {
    hide Instruction.Has, Iq.Has, Iq.Jump;
  }

  predicate NothingInTheWay(s: State) {
    |s.queue| > 0 && |s.scoreboard| == 0 < s.cfg.sbLen && s.fus.IsReadyFor(s.queue[0].instr)
  }

  /** With nothing in flight and all units free, only missing bytes or a first hit hold the head back. */
  lemma TryBack(s: State, t: nat)
    requires WellFormed(s) && NothingInTheWay(s) && !DidIssue(s, t)
    ensures |TryIssue(s, t).queue| > 0 && HeldBack(s, TryIssue(s, t))
  {
    var x := s.queue[0];
    assert x.(events := x.events + []) == x by { assert x.events + [] == x.events; }
  }

  lemma IssuedOnlyGrows(s: State, t: nat, ports: nat)
    requires WellFormed(s)
    ensures Issued(s) <= Issued(IssuePorts(s, t, ports))
  {
    IssuedPorts(s, t, ports);
    hide IssuePorts, At, IssueAt;
  }

  lemma IssuedOnceOnlyGrows(s: State, t: nat)
    requires WellFormed(s)
    ensures Issued(s) <= Issued(TryIssue(s, t))
  {
    IssuedOnce(s, t);
    hide TryIssue, At, IssueAt;
  }

  lemma NoIssueBefore(s: State, t: nat, ports: nat)
    requires WellFormed(s) && ports > 0 && Issued(IssuePorts(s, t, ports)) == Issued(s)
    ensures Issued(IssuePorts(s, t, ports - 1)) == Issued(s)
    ensures !DidIssue(IssuePorts(s, t, ports - 1), t)
  {
    hide TryIssue, Issued;
    IssuedOnlyGrows(s, t, ports - 1);
    IssuedOnceOnlyGrows(IssuePorts(s, t, ports - 1), t);
  }

  /** Attempts of a whole cycle that issue nothing. */
  lemma {:induction false} PortsWaited(s: State, t: nat, ports: nat)
    requires WellFormed(s) && |s.queue| > 0 && Resolved(s, t)
    requires ports > 0 && Issued(IssuePorts(s, t, ports)) == Issued(s)
    ensures Waited(s, IssuePorts(s, t, ports))
    ensures NothingInTheWay(s) ==> HeldBack(s, IssuePorts(s, t, ports))
    decreases ports
  {
    hide TryIssue, HeldBack, NothingInTheWay, DidIssue, Issued;
    var v := IssuePorts(s, t, ports - 1);
    NoIssueBefore(s, t, ports);
    if ports == 1 {
      TryWaited(s, t);
      if NothingInTheWay(s) { TryBack(s, t); }
    } else {
      PortsWaited(s, t, ports - 1);
      TryWaited(v, t);
      hide Waited;
      WaitedTwice(s, v, TryIssue(v, t));
    }
  }

  // ---- What a cycle does ----

  lemma EntriesOld(trace: seq<Instr>, s: State, t: nat)
    requires Alive(trace, s, t) && |s.scoreboard| > 0
    ensures s.lastIssued.Some? && s.lastIssued.value.issueCycle < t
    ensures Age(s, t) >= 3 ==> s.scoreboard[0].done
  {
    var r := |s.retired|;
    assert InFlightOk(s.scoreboard[0], t - 1);
    assert At(s, r).instr == s.scoreboard[0].instr.instr;
    assert InFlightOk(s.scoreboard[|s.scoreboard| - 1], t - 1);
    assert At(s, Issued(s) - 1) == s.scoreboard[|s.scoreboard| - 1].instr;
    assert IssueAt(At(s, r)) <= IssueAt(At(s, Issued(s) - 1));
  }

  /** A commit port that finds a completed head shortens the scoreboard. */
  lemma {:induction false} CommitsShorten(s: State, t: nat, ports: nat)
    requires WellFormed(s)
    ensures |CommitPorts(s, t, ports).scoreboard| <= |s.scoreboard|
    ensures ports > 0 && |s.scoreboard| > 0 && s.scoreboard[0].done ==>
              |CommitPorts(s, t, ports).scoreboard| < |s.scoreboard|
    decreases ports
  {
    if ports > 0 { CommitsShorten(s, t, ports - 1); }
  }

  /** The state in which the issue attempts of cycle `t` begin. */
  function BeforeIssue(s: State, t: nat): (r: State)
    requires WellFormed(s)
    ensures WellFormed(r)
  {
    TryExecute(CommitPorts(s.(fus := s.fus.Cycle()), t, s.cfg.commitWidth), t)
  }

  lemma CycleIs(s: State, t: nat)
    requires WellFormed(s)
    ensures RunCycle(s, t) == (var u := IssuePorts(BeforeIssue(s, t), t, s.cfg.issueWidth); u.(iq := u.iq.Fetch()))
  {
    var s1 := s.(fus := s.fus.Cycle());
    CommitPortsConfig(s1, t, s.cfg.commitWidth);
    hide CommitPorts, IssuePorts;
  }

  lemma BeforeIssueKeeps(s: State, t: nat)
    requires WellFormed(s)
    ensures var b := BeforeIssue(s, t);
            && b.cfg == s.cfg && b.fus == s.fus.Cycle() && b.queue == s.queue && b.iq == s.iq
            && b.lastIssued == s.lastIssued
            && |b.scoreboard| <= |s.scoreboard|
            && (s.cfg.commitWidth > 0 && |s.scoreboard| > 0 && s.scoreboard[0].done ==> |b.scoreboard| < |s.scoreboard|)
            && Issued(b) == Issued(s) && Total(b) == Total(s)
  {
    var s1 := s.(fus := s.fus.Cycle());
    CommitPortsConfig(s1, t, s.cfg.commitWidth);
    CommitsShorten(s1, t, s.cfg.commitWidth);
    CommittedPorts(s1, t, s.cfg.commitWidth);
  }

  /** The issue attempts keep the byte count in bounds and record the last issue. */
  ghost predicate IssueKept(s: State, u: State, t: nat) {
    && Bounded(u.iq)
    && (if Issued(u) == Issued(s) then u.lastIssued == s.lastIssued && u.fus == s.fus
        else u.lastIssued.Some? && u.lastIssued.value.issueCycle == t)
    && (u.fus.issuedMul && !s.fus.issuedMul ==> u.lastIssued.Some? && u.lastIssued.value.issueCycle == t)
    && (LastIssueOk(s) ==> LastIssueOk(u))
  }

  lemma BranchBounded(s: State, x: Instruction, t: nat)
    requires WellFormed(s) && Bounded(s.iq)
    ensures Bounded(IssueManageLastBranch(s.lastIssued, s.ras, s.bht, s.iq, x, t).1)
  {
    JumpBounded(s.iq);
    OtherStepsBounded(s.iq);
    JumpBounded(s.iq.Flush());
  }

  lemma TryBounded(s: State, t: nat)
    requires WellFormed(s) && Bounded(s.iq)
    ensures Bounded(TryIssue(s, t).iq)
  {
    if |s.queue| > 0 && |s.scoreboard| < s.cfg.sbLen {
      var x := s.queue[0];
      var hazards := HazardEvents(s.cfg, x.instr, s.scoreboard, t) + StructEvents(s.fus, x.instr, t);
      var x1 := x.(events := x.events + hazards);
      BranchBounded(s, x1, t);
      var (y, iq) := IssueManageLastBranch(s.lastIssued, s.ras, s.bht, s.iq, x1, t);
      hide IssueManageLastBranch, Bounded;
      if iq.Has(y.instr) { RemoveBounded(iq, y.instr); }
    }
  }

  lemma TryKept(s: State, t: nat)
    requires WellFormed(s) && Bounded(s.iq)
    ensures IssueKept(s, TryIssue(s, t), t)
  {
    TryBounded(s, t);
    if |s.queue| > 0 {
      var y := IssueLine(s, t);
      hide TryIssue;
      if DidIssue(s, t) { LogCycle(y.(onAlu2 := s.fus.TakesAlu2(y.instr)), Issue, t, Issue); }
    }
  }

  lemma KeptTwice(s: State, v: State, u: State, t: nat)
    requires IssueKept(s, v, t) && IssueKept(v, u, t) && Issued(s) <= Issued(v) <= Issued(u)
    ensures IssueKept(s, u, t)
  {
    hide Bounded, LastIssueOk;
  }

  lemma {:induction false} PortsKept(s: State, t: nat, ports: nat)
    requires WellFormed(s) && Bounded(s.iq)
    ensures IssueKept(s, IssuePorts(s, t, ports), t)
    decreases ports
  {
    hide TryIssue, LastIssueOk, Issued, Bounded;
    if ports > 0 {
      PortsKept(s, t, ports - 1);
      var v := IssuePorts(s, t, ports - 1);
      TryKept(v, t);
      IssuedOnlyGrows(s, t, ports - 1);
      IssuedOnceOnlyGrows(v, t);
      KeptTwice(s, v, TryIssue(v, t), t);
    }
  }

  lemma BeforeIssueMid(trace: seq<Instr>, s: State, t: nat)
    requires Safe(trace, s, t)
    ensures Mid(trace, BeforeIssue(s, t), t, t)
    ensures LastIssueOk(s) ==> LastIssueOk(BeforeIssue(s, t))
  {
    hide CommitPorts, TryExecute, Ports, Flags, FlagsBetween, Dependences, Staged, Conserved, Ordered, Widths, LastIssueOk;
    var s1 := s.(fus := s.fus.Cycle());
    CycleBegins(trace, s, s1, t);
    CommitPortsMid(trace, s1, t, s.cfg.commitWidth);
    var s2 := CommitPorts(s1, t, s.cfg.commitWidth);
    ExecuteMid(trace, s2, t);
    BeforeIssueLast(s, s1, s2, t);
  }

  lemma BeforeIssueLast(s: State, s1: State, s2: State, t: nat)
    requires WellFormed(s) && s1 == s.(fus := s.fus.Cycle()) && s2 == CommitPorts(s1, t, s.cfg.commitWidth)
    requires Staged(s2, t - 1)
    ensures LastIssueOk(s) ==> LastIssueOk(TryExecute(s2, t))
  {
    hide CommitPorts, TryExecute, Staged, LastIssueOk, SameIssues;
    UnitsSameIssues(s);
    CommitsSameIssues(s1, t, s.cfg.commitWidth);
    ExecuteSameIssues(s2, t);
    SameIssuesLast(s, s1);
    SameIssuesLast(s1, s2);
    SameIssuesLast(s2, TryExecute(s2, t));
  }

  ghost predicate SameIssues(s: State, u: State) {
    && Issued(u) == Issued(s) && u.lastIssued == s.lastIssued
    && forall i :: 0 <= i < Issued(s) ==> IssueAt(At(u, i)) == IssueAt(At(s, i))
  }

  lemma SameIssuesLast(s: State, u: State)
    requires SameIssues(s, u)
    ensures LastIssueOk(s) ==> LastIssueOk(u)
  {
    hide At, IssueAt;
  }

  lemma UnitsSameIssues(s: State)
    ensures SameIssues(s, s.(fus := s.fus.Cycle()))
  {
    hide IssueAt;
  }

  lemma CommitsSameIssues(s: State, t: nat, ports: nat)
    requires WellFormed(s)
    ensures SameIssues(s, CommitPorts(s, t, ports))
  {
    hide CommitPorts, IssueAt, At;
    CommittedPorts(s, t, ports);
    CommitPortsConfig(s, t, ports);
  }

  lemma ExecuteSameIssues(s: State, t: nat)
    requires Staged(s, t - 1)
    ensures SameIssues(s, TryExecute(s, t))
  {
    ExecuteKeeps(s, t);
    assert TryExecute(s, t).lastIssued == s.lastIssued;
    hide TryExecute, IssueAt, At, Staged;
  }

  lemma LastIssueFetch(s: State)
    requires LastIssueOk(s)
    ensures LastIssueOk(s.(iq := s.iq.Fetch()))
  {
  }

  lemma AliveCycle(trace: seq<Instr>, s: State, t: nat)
    requires Alive(trace, s, t)
    ensures Alive(trace, RunCycle(s, t), t + 1)
  {
    CycleSafe(trace, s, t);
    var b := BeforeIssue(s, t);
    BeforeIssueKeeps(s, t);
    BeforeIssueMid(trace, s, t);
    PortsKept(b, t, s.cfg.issueWidth);
    var u := IssuePorts(b, t, s.cfg.issueWidth);
    hide Safe, Mid, IssuePorts, BeforeIssue;
    OtherStepsBounded(u.iq);
    hide Bounded;
    LastIssueFetch(u);
    hide LastIssueOk;
  }

  // ---- The rank falls ----

  lemma RankFallsOnIssue(s: State, u: State, t: nat)
    requires |u.queue| < |s.queue| && u.cfg == s.cfg
    requires u.lastIssued.Some? && u.lastIssued.value.issueCycle == t
    ensures Rank(u, t + 1) < Rank(s, t)
  {
    var k := s.cfg.sbLen + 10;
    assert k * |s.queue| == k * |u.queue| + k * (|s.queue| - |u.queue|);
    assert k * (|s.queue| - |u.queue|) >= k by { MulApart(k, |s.queue| - |u.queue|); }
    assert u.queue == [] ==> k * |u.queue| == 0;
  }

  lemma RankFallsDraining(trace: seq<Instr>, s: State, u: State, t: nat)
    requires Alive(trace, s, t) && |s.queue| == 0 && |s.scoreboard| > 0
    requires u.cfg == s.cfg && u.lastIssued == s.lastIssued && |u.queue| == 0
    requires |u.scoreboard| <= |s.scoreboard|
    requires s.scoreboard[0].done ==> |u.scoreboard| < |s.scoreboard|
    ensures Rank(u, t + 1) < Rank(s, t)
  {
    EntriesOld(trace, s, t);
  }

  /** No issue and a head that may still be flushed: the six-cycle window shrinks. */
  lemma RankFallsInWindow(s: State, u: State, t: nat)
    requires |s.queue| > 0 && |u.queue| == |s.queue| && u.cfg == s.cfg && u.lastIssued == s.lastIssued
    requires Age(s, t) < 6 && s.lastIssued.value.issueCycle < t
    requires |u.scoreboard| <= u.cfg.sbLen
    ensures Rank(u, t + 1) < Rank(s, t)
  {
  }

  /** No issue after the window: an entry committed, bytes arrived, or the one jump was taken. */
  lemma RankFallsWaiting(s: State, b: State, u: State, t: nat)
    requires Age(s, t) == 6 && Bounded(s.iq) && s.iq.newFetch
    requires b.iq == s.iq && b.queue == s.queue && b.cfg == s.cfg && b.lastIssued == s.lastIssued
    requires |b.scoreboard| <= |s.scoreboard| && Waited(b, u)
    requires |b.scoreboard| < |s.scoreboard| || HeldBack(b, u)
    ensures Rank(u.(iq := u.iq.Fetch()), t + 1) < Rank(s, t)
  {
    var w := u.(iq := u.iq.Fetch());
    FetchHelps(s.iq);
    JumpThenFetch(s.iq);
    if Need(s.iq) == 0 { TwoBlocksSuffice(s.iq, s.queue[0].instr); }
    assert Age(w, t + 1) == 6;
    assert HeadWait(w, t + 1) == |u.scoreboard| + Need(w.iq) + JumpsLeft(w.queue[0]);
    hide Need, JumpsLeft;
    assert JumpsLeft(w.queue[0]) <= JumpsLeft(s.queue[0]) by { JumpsOnlyFall(s.queue[0], w.queue[0]); }
    if u.iq != s.iq || (u.queue[0].Has(Bhit) && !s.queue[0].Has(Bhit)) {
      assert JumpsLeft(w.queue[0]) < JumpsLeft(s.queue[0]) by { JumpsOnlyFall(s.queue[0], w.queue[0]); }
    }
  }

  lemma JumpsOnlyFall(x: Instruction, y: Instruction)
    requires x.Has(Bhit) ==> y.Has(Bhit)
    ensures JumpsLeft(y) <= JumpsLeft(x)
    ensures y.Has(Bhit) && !x.Has(Bhit) ==> JumpsLeft(y) < JumpsLeft(x)
  {
  }

  /** Every cycle of an unfinished run lowers the rank. */
  lemma RankFalls(trace: seq<Instr>, s: State, t: nat)
    requires WellFormed(s) && Alive(trace, s, t) && CanRun(s.cfg) && !Finished(s)
    ensures Rank(RunCycle(s, t), t + 1) < Rank(s, t)
  {
    var b := BeforeIssue(s, t);
    var w := s.cfg.issueWidth;
    var u := IssuePorts(b, t, w);
    BeforeIssueKeeps(s, t);
    IssuedPorts(b, t, w);
    IssuePortsConfig(b, t, w);
    if Issued(u) > Issued(b) {
      PortsKept(b, t, w);
      RankFallsOnIssue(s, u.(iq := u.iq.Fetch()), t);
    } else {
      RankFallsNoIssue(trace, s, b, u, t);
    }
  }

  lemma RankFallsNoIssue(trace: seq<Instr>, s: State, b: State, u: State, t: nat)
    requires WellFormed(s) && Alive(trace, s, t) && CanRun(s.cfg) && !Finished(s)
    requires b == BeforeIssue(s, t) && u == IssuePorts(b, t, s.cfg.issueWidth)
    requires Issued(u) == Issued(b) && |u.queue| == |s.queue|
    ensures Rank(u.(iq := u.iq.Fetch()), t + 1) < Rank(s, t)
  {
    BeforeIssueKeeps(s, t);
    IssuedPorts(b, t, s.cfg.issueWidth);
    IssuePortsConfig(b, t, s.cfg.issueWidth);
    PortsKept(b, t, s.cfg.issueWidth);
    var v := u.(iq := u.iq.Fetch());
    if |s.queue| == 0 {
      RankFallsDraining(trace, s, v, t);
    } else if Age(s, t) < 6 {
      LastIssuePast(trace, s, t);
      RankFallsInWindow(s, v, t);
    } else {
      PortsWaited(b, t, s.cfg.issueWidth);
      if |s.scoreboard| > 0 { EntriesOld(trace, s, t); }
      else { UnitsFree(s, b, t); }
      RankFallsWaiting(s, b, u, t);
    }
  }

  lemma LastIssuePast(trace: seq<Instr>, s: State, t: nat)
    requires Alive(trace, s, t) && s.lastIssued.Some?
    ensures s.lastIssued.value.issueCycle < t
  {
    IssueBounded(s, t - 1, t - 1);
  }

  lemma UnitsFree(s: State, b: State, t: nat)
    requires b.fus == s.fus.Cycle() && Age(s, t) == 6 && |b.queue| > 0
    requires s.fus.issuedMul ==> s.lastIssued.Some? && s.lastIssued.value.issueCycle == t - 1
    ensures b.fus.IsReadyFor(b.queue[0].instr)
  {
  }

  // ---- Termination ----

  lemma NoCycles(s: State)
    requires WellFormed(s)
    ensures Cycles(s, 0) == s
  {
  }

  lemma InitAlive(cfg: Config, fetch: nat, trace: seq<Instr>)
    ensures Alive(trace, Init(cfg, fetch, trace), 0)
    ensures Rank(Init(cfg, fetch, trace), 0) <= (cfg.sbLen + 10) * |trace| + 2
    ensures trace == [] ==> Rank(Init(cfg, fetch, trace), 0) == 0
  {
    InitSafe(cfg, fetch, trace);
  }

  lemma {:induction false} AliveFrom(trace: seq<Instr>, s: State, n: nat)
    requires WellFormed(s) && Alive(trace, s, 0)
    ensures Alive(trace, Cycles(s, n), n)
    decreases n
  {
    hide Alive, RunCycle;
    if n > 0 {
      AliveFrom(trace, s, n - 1);
      AliveCycle(trace, Cycles(s, n - 1), n - 1);
    }
  }

  lemma {:induction false} FinishesFrom(trace: seq<Instr>, s: State, k: nat) returns (n: nat)
    requires WellFormed(s) && Alive(trace, s, 0) && CanRun(s.cfg)
    ensures k <= n <= k + Rank(Cycles(s, k), k) && Finished(Cycles(s, n))
    decreases Rank(Cycles(s, k), k)
  {
    n := k;
    var u := Cycles(s, k);
    if !Finished(u) {
      AliveFrom(trace, s, k);
      ConfigKept(trace, s, k);
      RankFalls(trace, u, k);
      assert Cycles(s, k + 1) == RunCycle(u, k);
      hide Alive, RunCycle, Rank, Finished;
      n := FinishesFrom(trace, s, k + 1);
    }
  }

  lemma ConfigKept(trace: seq<Instr>, s: State, n: nat)
    requires WellFormed(s) && Alive(trace, s, 0)
    ensures Cycles(s, n).cfg == s.cfg
  {
    SafeFrom(trace, s, n);
  }

  /** Every trace is finished within `(sbLen + 10) * |trace| + 2` cycles. */
  lemma RunFinishes(cfg: Config, fetch: nat, trace: seq<Instr>) returns (n: nat)
    requires CanRun(cfg)
    ensures n <= (cfg.sbLen + 10) * |trace| + 2
    ensures Finished(Cycles(Init(cfg, fetch, trace), n))
  {
    InitAlive(cfg, fetch, trace);
    var s := Init(cfg, fetch, trace);
    assert Cycles(s, 0) == s;
    hide Alive, Rank;
    n := FinishesFrom(trace, s, 0);
  }

  // ---- And only then ----

  ghost predicate Stuck(s: State) {
    && s.retired == []
    && |s.queue| + |s.scoreboard| > 0
    && (s.cfg.commitWidth == 0 || (s.scoreboard == [] && (s.cfg.issueWidth == 0 || s.cfg.sbLen == 0)))
  }

  lemma {:induction false} StuckPorts(s: State, t: nat, ports: nat)
    requires WellFormed(s) && Stuck(s) && ports <= s.cfg.issueWidth
    ensures Stuck(IssuePorts(s, t, ports)) && IssuePorts(s, t, ports).cfg == s.cfg
    decreases ports
  {
    if ports > 0 {
      StuckPorts(s, t, ports - 1);
      var v := IssuePorts(s, t, ports - 1);
      if s.cfg.commitWidth == 0 {
        IssuedOnce(v, t);
        IssuePortsConfig(s, t, ports);
        hide TryIssue;
      }
    }
  }

  lemma {:induction false} StuckCommits(s: State, t: nat, ports: nat)
    requires WellFormed(s) && Stuck(s) && ports <= s.cfg.commitWidth
    ensures CommitPorts(s, t, ports) == s
    decreases ports
  {
    if ports > 0 { StuckCommits(s, t, ports - 1); }
  }

  lemma StuckCycle(s: State, t: nat)
    requires WellFormed(s) && Stuck(s)
    ensures Stuck(RunCycle(s, t))
  {
    var s1 := s.(fus := s.fus.Cycle());
    StuckCommits(s1, t, s.cfg.commitWidth);
    StuckPorts(TryExecute(s1, t), t, s.cfg.issueWidth);
  }

  lemma {:induction false} StuckFrom(s: State, n: nat)
    requires WellFormed(s) && Stuck(s)
    ensures Stuck(Cycles(s, n))
    decreases n
  {
    hide RunCycle, Stuck;
    if n > 0 {
      StuckFrom(s, n - 1);
      StuckCycle(Cycles(s, n - 1), n - 1);
    }
  }

  lemma FinishedAt(s: State, n: nat)
    requires WellFormed(s) && Finished(Cycles(s, n))
    ensures exists m: nat :: Finished(Cycles(s, m))
  {
  }

  /** A run of a trace finishes if and only if the trace is empty or there is an issue port, a commit
      port and a scoreboard entry. */
  lemma RunFinishesIff(cfg: Config, fetch: nat, trace: seq<Instr>)
    ensures (exists n: nat :: Finished(Cycles(Init(cfg, fetch, trace), n))) <==> (trace == [] || CanRun(cfg))
  {
    var s := Init(cfg, fetch, trace);
    if trace == [] {
      FinishedAt(s, 0);
    } else if CanRun(cfg) {
      var n := RunFinishes(cfg, fetch, trace);
    } else {
      forall n: nat ensures !Finished(Cycles(s, n)) {
        StuckFrom(s, n);
      }
    }
  }
}
