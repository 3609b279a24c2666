/**
 Whole runs: the invariants of `Invariants` carried through every cycle, and what they say of the
 finished schedule.
 */
module Runs {
  import opened Prelude
  import opened Isa
  import opened Predictors
  import opened FunctionalUnits
  import opened Scheduler
  import opened Timeline
  import opened Invariants

  // ---- Widths: at most so many issues and commits in a cycle, and one store, first ----

  ghost predicate Widths(s: State) {
    && (forall i, j :: 0 <= i < j < Issued(s) && j - i >= s.cfg.issueWidth ==>
          IssueAt(At(s, i)) < IssueAt(At(s, j)))
    && (forall i, j :: 0 <= i < j < |s.retired| && j - i >= s.cfg.commitWidth ==>
          CommitAt(At(s, i)) < CommitAt(At(s, j)))
    && (forall i, j :: 0 <= i < j < |s.retired| && At(s, j).instr.IsStore() ==>
          CommitAt(At(s, i)) < CommitAt(At(s, j)))
  }

  /** The invariants inside cycle `t`; `clk` is `t - 1` before the execute step and `t` after it. */
  ghost predicate Mid(trace: seq<Instr>, s: State, clk: int, t: nat) {
    && WellFormed(s)
    && Conserved(trace, s)
    && Staged(s, clk)
    && Ordered(s, t)
    && Dependences(s)
    && Ports(s)
    && Flags(s, t)
  }

  /** The invariants between cycles: `t` cycles have been run. */
  ghost predicate Safe(trace: seq<Instr>, s: State, t: nat) {
    && WellFormed(s)
    && Conserved(trace, s)
    && Staged(s, t - 1)
    && Ordered(s, t - 1)
    && Dependences(s)
    && Ports(s)
    && FlagsBetween(s, t)
    && Widths(s)
  }

  // ---- The steps ----

  lemma InitSafe(cfg: Config, fetch: nat, trace: seq<Instr>)
    ensures Safe(trace, Init(cfg, fetch, trace), 0)
  {
    var s := Init(cfg, fetch, trace);
    forall i | 0 <= i < |trace| ensures At(s, i) == Untouched(trace[i]) && WaitingOk(At(s, i)) {}
  }

  lemma CommitMid(trace: seq<Instr>, s: State, t: nat, port: nat)
    requires Mid(trace, s, t - 1, t) && CanCommit(s, port)
    ensures Mid(trace, TryCommit(s, t, port), t - 1, t)
  {
    assert Conserved(trace, TryCommit(s, t, port)) by { CommitLine(s, t, port); }
    hide TryCommit;
    CommitStaged(s, t, port);
    CommitOrdered(s, t, port);
    CommitDependences(s, t, port);
    CommitPortsApart(s, t, port);
  }

  lemma {:induction false} CommitPortsMid(trace: seq<Instr>, s: State, t: nat, ports: nat)
    requires WellFormed(s) && Mid(trace, s, t - 1, t)
    ensures Mid(trace, CommitPorts(s, t, ports), t - 1, t)
    decreases ports
  {
    hide Mid;
    if ports > 0 {
      CommitPortsMid(trace, s, t, ports - 1);
      var u := CommitPorts(s, t, ports - 1);
      if CanCommit(u, ports - 1) {
        CommitMid(trace, u, t, ports - 1);
      }
    }
  }

  lemma ExecuteMid(trace: seq<Instr>, s: State, t: nat)
    requires Mid(trace, s, t - 1, t)
    ensures Mid(trace, TryExecute(s, t), t, t)
  {
    ExecuteKeeps(s, t);
    ExecuteStaged(s, t);
    ExecuteOrdered(s, t);
    ExecuteDependences(s, t);
    ExecutePortsApart(s, t);
  }

  lemma IssueMid(trace: seq<Instr>, s: State, t: nat)
    requires Mid(trace, s, t, t) && |s.queue| > 0
    ensures Mid(trace, TryIssue(s, t), t, t)
  {
    assert Conserved(trace, TryIssue(s, t)) by { var y := IssueLine(s, t); }
    hide TryIssue;
    IssueStaged(s, t);
    IssueOrdered(s, t);
    IssueDependences(s, t);
    IssuePortsApart(s, t);
  }

  lemma {:induction false} IssuePortsMid(trace: seq<Instr>, s: State, t: nat, ports: nat)
    requires WellFormed(s) && Mid(trace, s, t, t)
    ensures Mid(trace, IssuePorts(s, t, ports), t, t)
    decreases ports
  {
    hide Mid;
    if ports > 0 {
      IssuePortsMid(trace, s, t, ports - 1);
      var u := IssuePorts(s, t, ports - 1);
      if |u.queue| > 0 {
        IssueMid(trace, u, t);
      }
    }
  }

  // ---- Widths ----

  /** What a cycle has committed so far, relative to the state `s` it began with. */
  ghost predicate CommittedSince(s: State, u: State, t: nat, ports: nat) {
    && Issued(u) == Issued(s) && Total(u) == Total(s)
    && |s.retired| <= |u.retired| <= |s.retired| + ports
    && (forall i :: 0 <= i < Total(s) && !(|s.retired| <= i < |u.retired|) ==> At(u, i) == At(s, i))
    && (forall i :: |s.retired| <= i < |u.retired| ==>
          && CommitAt(At(u, i)) == t && IssueAt(At(u, i)) == IssueAt(At(s, i))
          && (At(u, i).instr.IsStore() ==> i == |s.retired|))
  }

  lemma CommittedOnce(s: State, u: State, t: nat, port: nat)
    requires WellFormed(u) && CanCommit(u, port) && CommittedSince(s, u, t, port)
    ensures CommittedSince(s, TryCommit(u, t, port), t, port + 1)
  {
    CommitLine(u, t, port);
    hide TryCommit;
    forall k { LogCycle(At(u, |u.retired|), Commit, t, k); }
  }

  lemma {:induction false} CommittedPorts(s: State, t: nat, ports: nat)
    requires WellFormed(s)
    ensures CommittedSince(s, CommitPorts(s, t, ports), t, ports)
    decreases ports
  {
    if ports > 0 {
      CommittedPorts(s, t, ports - 1);
      var u := CommitPorts(s, t, ports - 1);
      if CanCommit(u, ports - 1) {
        hide CommittedSince;
        CommittedOnce(s, u, t, ports - 1);
      }
    }
  }

  ghost predicate IssuedSince(s: State, u: State, t: nat, ports: nat) {
    && u.retired == s.retired && Total(u) == Total(s)
    && Issued(s) <= Issued(u) <= Issued(s) + ports
    && (forall i :: 0 <= i < Issued(s) ==> At(u, i) == At(s, i))
    && (forall i :: Issued(s) <= i < Issued(u) ==> IssueAt(At(u, i)) == t)
  }

  lemma IssuedOnce(s: State, t: nat)
    requires WellFormed(s)
    ensures IssuedSince(s, TryIssue(s, t), t, 1)
  {
    if |s.queue| > 0 {
      var y := IssueLine(s, t);
      if DidIssue(s, t) {
        LogCycle(y.(onAlu2 := s.fus.TakesAlu2(y.instr)), Issue, t, Issue);
      }
    }
  }

  lemma {:induction false} IssuedPorts(s: State, t: nat, ports: nat)
    requires WellFormed(s)
    ensures IssuedSince(s, IssuePorts(s, t, ports), t, ports)
    decreases ports
  {
    hide TryIssue;
    if ports > 0 {
      IssuedPorts(s, t, ports - 1);
      IssuedOnce(IssuePorts(s, t, ports - 1), t);
    }
  }

  lemma CommittedWidths(s: State, t: nat, ports: nat)
    requires WellFormed(s) && Widths(s) && Ordered(s, t - 1) && ports == s.cfg.commitWidth
    ensures Widths(CommitPorts(s, t, ports)) && CommitPorts(s, t, ports).cfg == s.cfg
  {
    CommittedPorts(s, t, ports);
    CommitPortsConfig(s, t, ports);
    WidthsSince(s, CommitPorts(s, t, ports), t);
  }

  lemma WidthsSince(s: State, u: State, t: nat)
    requires Widths(s) && Ordered(s, t - 1) && u.cfg == s.cfg && CommittedSince(s, u, t, s.cfg.commitWidth)
    ensures Widths(u)
  {
    assert forall i :: 0 <= i < |s.retired| ==> At(u, i) == At(s, i);
    assert forall i :: 0 <= i < Issued(s) ==> IssueAt(At(u, i)) == IssueAt(At(s, i));
    hide IssueAt, CommitAt, At;
  }

  lemma {:induction false} CommitPortsConfig(s: State, t: nat, ports: nat)
    requires WellFormed(s)
    ensures CommitPorts(s, t, ports).cfg == s.cfg
    ensures CommitPorts(s, t, ports).fus == s.fus
    ensures CommitPorts(s, t, ports).queue == s.queue
    ensures CommitPorts(s, t, ports).iq == s.iq
    ensures CommitPorts(s, t, ports).lastIssued == s.lastIssued
    ensures CommitPorts(s, t, ports).ras == s.ras
    decreases ports
  {
    if ports > 0 { CommitPortsConfig(s, t, ports - 1); }
  }

  lemma {:induction false} IssuePortsConfig(s: State, t: nat, ports: nat)
    requires WellFormed(s)
    ensures IssuePorts(s, t, ports).cfg == s.cfg
    ensures IssuePorts(s, t, ports).bht == s.bht
    ensures IssuePorts(s, t, ports).retired == s.retired
    ensures IssuePorts(s, t, ports).lastCommitted == s.lastCommitted
    ensures IssuePorts(s, t, ports).iq.fetchSize == s.iq.fetchSize
    decreases ports
  {
    if ports > 0 { IssuePortsConfig(s, t, ports - 1); }
  }

  lemma ExecutedWidths(s: State, t: nat)
    requires Staged(s, t - 1) && Widths(s)
    ensures Widths(TryExecute(s, t))
  {
    ExecuteKeeps(s, t);
  }

  lemma IssuedWidths(s: State, t: nat, ports: nat)
    requires WellFormed(s) && Widths(s) && ports == s.cfg.issueWidth
    requires forall i :: 0 <= i < Issued(s) ==> IssueAt(At(s, i)) < t
    ensures Widths(IssuePorts(s, t, ports))
  {
    IssuedPorts(s, t, ports);
    IssuePortsConfig(s, t, ports);
  }

  // ---- One cycle, and all of them ----

  /** Two states with the same instructions in the same places, and the same settings. */
  ghost predicate SameLine(s: State, u: State) {
    u.cfg == s.cfg && u.retired == s.retired && u.scoreboard == s.scoreboard && u.queue == s.queue
  }

  lemma SameAt(s: State, u: State)
    requires SameLine(s, u)
    ensures Total(u) == Total(s) && Issued(u) == Issued(s)
    ensures forall i :: 0 <= i < Total(s) ==> At(u, i) == At(s, i)
  {
  }

  lemma SameStages(trace: seq<Instr>, s: State, u: State, clk: int)
    requires SameLine(s, u) && Conserved(trace, s) && Staged(s, clk)
    ensures Conserved(trace, u) && Staged(u, clk)
  {
    SameAt(s, u);
    hide At;
    forall i | 0 <= i < |u.retired| ensures RetiredOk(At(u, i)) { assert RetiredOk(At(s, i)); }
    forall i | Issued(u) <= i < Total(u) ensures WaitingOk(At(u, i)) { assert WaitingOk(At(s, i)); }
  }

  lemma SamePairs(s: State, u: State)
    requires SameLine(s, u) && Dependences(s) && Ports(s)
    ensures Dependences(u) && Ports(u)
  {
    SameAt(s, u);
    hide At, PortsApart, DependenceOk;
    forall i, j | 0 <= i < j < Issued(u)
      ensures DependenceOk(u.cfg, At(u, i), At(u, j)) && PortsApart(At(u, i), At(u, j))
    {
      assert DependenceOk(s.cfg, At(s, i), At(s, j)) && PortsApart(At(s, i), At(s, j));
    }
  }

  lemma SameOrder(s: State, u: State, now: int)
    requires SameLine(s, u) && Ordered(s, now) && Widths(s)
    ensures Ordered(u, now) && Widths(u)
  {
    SameAt(s, u);
    hide At, IssueAt, CommitAt;
  }

  lemma CycleBegins(trace: seq<Instr>, s: State, u: State, t: nat)
    requires Safe(trace, s, t) && u == s.(fus := s.fus.Cycle())
    ensures Mid(trace, u, t - 1, t) && Widths(u) && Ordered(u, t - 1)
  {
    assert Flags(u, t) by { CycleFlags(s, t); }
    SameStages(trace, s, u, t - 1);
    SamePairs(s, u);
    SameOrder(s, u, t - 1);
    hide Staged, Ordered, Widths, Dependences, Ports, Conserved, Flags;
    assert Ordered(u, t) by { OrderedLater(u, t - 1, t); }
  }

  lemma OrderedLater(s: State, now: int, later: int)
    requires Ordered(s, now) && now <= later
    ensures Ordered(s, later)
  {
  }

  lemma CycleEnds(trace: seq<Instr>, s: State, t: nat)
    requires Mid(trace, s, t, t) && Widths(s)
    ensures Safe(trace, s.(iq := s.iq.Fetch()), t + 1)
  {
    var u := s.(iq := s.iq.Fetch());
    SameStages(trace, s, u, t);
    SamePairs(s, u);
    SameOrder(s, u, t);
    forall i | 0 <= i < Issued(u) && ToFu(At(u, i).instr).Mul? && IssueAt(At(u, i)) == t
      ensures u.fus.issuedMul
    {
      assert FlagsCover(s.fus, At(s, i), t);
    }
  }

  lemma CycleSafe(trace: seq<Instr>, s: State, t: nat)
    requires Safe(trace, s, t)
    ensures Safe(trace, RunCycle(s, t), t + 1)
  {
    var s1 := s.(fus := s.fus.Cycle());
    CycleBegins(trace, s, s1, t);
    var s2 := CommitPorts(s1, t, s.cfg.commitWidth);
    CommitPortsMid(trace, s1, t, s.cfg.commitWidth);
    CommittedWidths(s1, t, s.cfg.commitWidth);
    CycleSafeFrom(trace, s2, t);
  }

  lemma CycleSafeFrom(trace: seq<Instr>, s2: State, t: nat)
    requires Mid(trace, s2, t - 1, t) && Widths(s2)
    ensures var s4 := IssuePorts(TryExecute(s2, t), t, s2.cfg.issueWidth);
            Safe(trace, s4.(iq := s4.iq.Fetch()), t + 1)
  {
    var s3 := TryExecute(s2, t);
    ExecuteMid(trace, s2, t);
    ExecutedWidths(s2, t);
    ExecutedBefore(s2, t);
    IssuePortsMid(trace, s3, t, s2.cfg.issueWidth);
    IssuedWidths(s3, t, s2.cfg.issueWidth);
    CycleEnds(trace, IssuePorts(s3, t, s2.cfg.issueWidth), t);
  }

  lemma ExecutedBefore(s: State, t: nat)
    requires Staged(s, t - 1) && Ordered(s, t)
    ensures forall i :: 0 <= i < Issued(TryExecute(s, t)) ==> IssueAt(At(TryExecute(s, t), i)) < t
  {
    IssueBounded(s, t - 1, t);
    ExecuteKeeps(s, t);
  }

  lemma {:induction false} SafeFrom(trace: seq<Instr>, s: State, n: nat)
    requires WellFormed(s) && Safe(trace, s, 0)
    ensures Safe(trace, Cycles(s, n), n)
    ensures Cycles(s, n).cfg == s.cfg
    decreases n
  {
    hide Safe, RunCycle;
    if n > 0 {
      SafeFrom(trace, s, n - 1);
      CycleSafe(trace, Cycles(s, n - 1), n - 1);
      RunCycleConfig(Cycles(s, n - 1), n - 1);
    }
  }

  /** Every reachable state, for every trace and every setting. */
  lemma RunSafe(cfg: Config, fetch: nat, trace: seq<Instr>, n: nat)
    ensures Safe(trace, Cycles(Init(cfg, fetch, trace), n), n)
    ensures Cycles(Init(cfg, fetch, trace), n).cfg == cfg
  {
    InitSafe(cfg, fetch, trace);
    SafeFrom(trace, Init(cfg, fetch, trace), n);
  }

  lemma RunCycleConfig(s: State, t: nat)
    requires WellFormed(s)
    ensures RunCycle(s, t).cfg == s.cfg
  {
    var s1 := s.(fus := s.fus.Cycle());
    CommitPortsConfig(s1, t, s.cfg.commitWidth);
    IssuePortsConfig(TryExecute(CommitPorts(s1, t, s.cfg.commitWidth), t), t, s.cfg.issueWidth);
  }
}
