/**
 What every step of a cycle keeps, over every trace and every setting of the model.

 Two clocks bound a state inside cycle `t`: `clk`, the last cycle in which entries were executed
 (`t - 1` before the execute step, `t` after it), and `now`, an upper bound on the commit cycles.
 */
module Invariants {
  import opened Prelude
  import opened Isa
  import opened FunctionalUnits
  import opened Scheduler
  import opened Timeline

  // ---- The stage of one instruction ----

  predicate WaitingOk(x: Instruction) {
    Count(x.events, Issue) == 0 && Count(x.events, Done) == 0 && Count(x.events, Commit) == 0
    && IssueAt(x) == -1 && DoneAt(x) == -1 && CommitAt(x) == -1
  }

  predicate InFlightOk(e: Entry, clk: int) {
    var x := e.instr;
    && Count(x.events, Issue) == 1 && Count(x.events, Commit) == 0
    && 0 <= IssueAt(x) && IssueAt(x) + e.cyclesSinceIssue == clk
    && CommitAt(x) == -1
    && (e.done <==> e.cyclesSinceIssue >= x.instr.Duration())
    && Count(x.events, Done) == (if e.done then 1 else 0)
    && DoneAt(x) == (if e.done then IssueAt(x) + x.instr.Duration() else -1)
  }

  /** One issue, one completion after exactly its duration, one later commit, which is the last event. */
  predicate RetiredOk(x: Instruction) {
    && Count(x.events, Issue) == 1 && Count(x.events, Done) == 1 && Count(x.events, Commit) == 1
    && 0 <= IssueAt(x)
    && DoneAt(x) == IssueAt(x) + x.instr.Duration()
    && DoneAt(x) < CommitAt(x)
    && |x.events| > 0 && x.events[|x.events| - 1].kind == Commit
  }

  ghost predicate Conserved(trace: seq<Instr>, s: State) {
    Total(s) == |trace| && forall i :: 0 <= i < Total(s) ==> At(s, i).instr == trace[i]
  }

  ghost predicate Staged(s: State, clk: int) {
    && (forall i :: 0 <= i < |s.retired| ==> RetiredOk(At(s, i)))
    && (forall k :: 0 <= k < |s.scoreboard| ==> InFlightOk(s.scoreboard[k], clk))
    && (forall i :: Issued(s) <= i < Total(s) ==> WaitingOk(At(s, i)))
    && |s.scoreboard| <= s.cfg.sbLen
  }

  ghost predicate Ordered(s: State, now: int) {
    && (forall i, j :: 0 <= i < j < Issued(s) ==> IssueAt(At(s, i)) <= IssueAt(At(s, j)))
    && (forall i, j :: 0 <= i < j < |s.retired| ==> CommitAt(At(s, i)) <= CommitAt(At(s, j)))
    && (forall i :: 0 <= i < |s.retired| ==> CommitAt(At(s, i)) <= now)
  }

  /** A reader issues no earlier than its older writers complete, or commit where nothing is forwarded;
      without renaming, a writer issues no earlier than older writers of the same register commit. */
  predicate DependenceOk(cfg: Config, older: Instruction, younger: Instruction) {
    && (younger.instr.HasRawFrom(older.instr) ==>
          if cfg.hasForwarding then 0 <= DoneAt(older) <= IssueAt(younger)
          else 0 <= CommitAt(older) <= IssueAt(younger))
    && (younger.instr.HasWawFrom(older.instr) && !cfg.hasRenaming ==>
          0 <= CommitAt(older) <= IssueAt(younger))
  }

  ghost predicate Dependences(s: State) {
    forall i, j :: 0 <= i < j < Issued(s) ==> DependenceOk(s.cfg, At(s, i), At(s, j))
  }

  // ---- Stages ----

  lemma CommitStaged(s: State, t: nat, port: nat)
    requires WellFormed(s) && CanCommit(s, port) && Staged(s, t - 1)
    ensures Staged(TryCommit(s, t, port), t - 1)
  {
    var u := TryCommit(s, t, port);
    CommitLine(s, t, port);
    hide TryCommit;
    var e := s.scoreboard[0];
    assert At(s, |s.retired|) == e.instr && InFlightOk(e, t - 1);
    forall k { LogCycle(e.instr, Commit, t, k); }
    assert RetiredOk(At(u, |s.retired|));
    forall i | 0 <= i < |u.retired| ensures RetiredOk(At(u, i)) {
      if i < |s.retired| { assert RetiredOk(At(s, i)); }
    }
    forall i | Issued(u) <= i < Total(u) ensures WaitingOk(At(u, i)) {
      assert WaitingOk(At(s, i));
    }
  }

  lemma ExecuteEntryOk(e: Entry, t: nat)
    requires InFlightOk(e, t - 1)
    ensures InFlightOk(ExecuteEntry(e, t), t)
    ensures IssueAt(ExecuteEntry(e, t).instr) == IssueAt(e.instr)
    ensures ExecuteEntry(e, t).instr.instr == e.instr.instr && ExecuteEntry(e, t).instr.onAlu2 == e.instr.onAlu2
    ensures CommitAt(ExecuteEntry(e, t).instr) == CommitAt(e.instr)
    ensures DoneAt(e.instr) >= 0 ==> DoneAt(ExecuteEntry(e, t).instr) == DoneAt(e.instr)
  {
    forall k { LogCycle(e.instr, Done, t, k); }
  }

  /** Executing changes neither what an instruction is nor when it issued, and keeps recorded cycles. */
  lemma ExecuteKeeps(s: State, t: nat)
    requires Staged(s, t - 1)
    ensures var u := TryExecute(s, t);
            && Issued(u) == Issued(s) && Total(u) == Total(s)
            && (forall i :: 0 <= i < Total(s) ==>
                  && At(u, i).instr == At(s, i).instr && At(u, i).onAlu2 == At(s, i).onAlu2
                  && IssueAt(At(u, i)) == IssueAt(At(s, i))
                  && CommitAt(At(u, i)) == CommitAt(At(s, i))
                  && (DoneAt(At(s, i)) >= 0 ==> DoneAt(At(u, i)) == DoneAt(At(s, i))))
  {
    var u := TryExecute(s, t);
    ExecuteLine(s, t);
    forall i | |s.retired| <= i < Issued(s)
      ensures At(u, i).instr == At(s, i).instr && At(u, i).onAlu2 == At(s, i).onAlu2
      ensures IssueAt(At(u, i)) == IssueAt(At(s, i)) && CommitAt(At(u, i)) == CommitAt(At(s, i))
      ensures DoneAt(At(s, i)) >= 0 ==> DoneAt(At(u, i)) == DoneAt(At(s, i))
    {
      var e := s.scoreboard[i - |s.retired|];
      assert InFlightOk(e, t - 1);
      ExecuteEntryOk(e, t);
    }
  }

  lemma ExecuteStaged(s: State, t: nat)
    requires Staged(s, t - 1)
    ensures Staged(TryExecute(s, t), t)
  {
    var u := TryExecute(s, t);
    ExecuteLine(s, t);
    forall k | 0 <= k < |u.scoreboard| ensures InFlightOk(u.scoreboard[k], t) {
      ExecuteEntryOk(s.scoreboard[k], t);
    }
    forall i | 0 <= i < |u.retired| ensures RetiredOk(At(u, i)) {
      assert RetiredOk(At(s, i));
    }
    forall i | Issued(u) <= i < Total(u) ensures WaitingOk(At(u, i)) {
      assert WaitingOk(At(s, i));
    }
  }

  lemma IssueStaged(s: State, t: nat)
    requires WellFormed(s) && |s.queue| > 0 && Staged(s, t)
    ensures Staged(TryIssue(s, t), t)
  {
    hide TryIssue, WaitingOk, InFlightOk, RetiredOk, OnlyWaits;
    var u := TryIssue(s, t);
    var y := IssueLine(s, t);
    AttemptConfig(s, t);
    var h := Issued(s);
    assert WaitingOk(At(s, h));
    WaitedOk(s.queue[0], y);
    IssuedEntryOk(y.(onAlu2 := s.fus.TakesAlu2(y.instr)), t);
    forall i | 0 <= i < |u.retired| ensures RetiredOk(At(u, i)) {
      assert RetiredOk(At(s, i));
    }
    forall i | Issued(u) <= i < Total(u) ensures WaitingOk(At(u, i)) {
      if i != h { assert WaitingOk(At(s, i)); }
    }
  }

  lemma WaitedOk(x: Instruction, y: Instruction)
    requires WaitingOk(x) && OnlyWaits(x, y)
    ensures WaitingOk(y) && forall onAlu2: bool :: WaitingOk(y.(onAlu2 := onAlu2))
  {
    OnlyWaitsKeeps(x, y);
  }

  lemma IssuedEntryOk(y: Instruction, t: nat)
    requires WaitingOk(y)
    ensures InFlightOk(Entry(y.Log(Issue, t), 0, false), t)
  {
    forall k { LogCycle(y, Issue, t, k); }
  }

  // ---- Order ----

  /** A commit changes no issue cycle, and only the committed instruction's commit cycle. */
  lemma CommitKeeps(s: State, t: nat, port: nat)
    requires WellFormed(s) && CanCommit(s, port)
    ensures var u := TryCommit(s, t, port);
            && |u.retired| == |s.retired| + 1 && Issued(u) == Issued(s)
            && CommitAt(At(u, |s.retired|)) == t
            && (forall i :: 0 <= i < Issued(s) ==>
                  && IssueAt(At(u, i)) == IssueAt(At(s, i))
                  && At(u, i).instr == At(s, i).instr && At(u, i).onAlu2 == At(s, i).onAlu2)
            && (forall i :: 0 <= i < |s.retired| ==> CommitAt(At(u, i)) == CommitAt(At(s, i)))
  {
    CommitLine(s, t, port);
    LogCycle(At(s, |s.retired|), Commit, t, Commit);
    LogCycle(At(s, |s.retired|), Commit, t, Issue);
  }

  lemma CommitOrdered(s: State, t: nat, port: nat)
    requires WellFormed(s) && CanCommit(s, port) && Ordered(s, t)
    ensures Ordered(TryCommit(s, t, port), t)
  {
    CommitKeeps(s, t, port);
    hide TryCommit, At, IssueAt, CommitAt;
  }

  lemma ExecuteOrdered(s: State, t: nat)
    requires Staged(s, t - 1) && Ordered(s, t)
    ensures Ordered(TryExecute(s, t), t)
  {
    ExecuteKeeps(s, t);
  }

  lemma IssueBounded(s: State, clk: int, now: int)
    requires Staged(s, clk) && Ordered(s, now) && now <= clk + 1
    ensures forall i :: 0 <= i < Issued(s) ==> 0 <= IssueAt(At(s, i)) <= clk
  {
    forall i | 0 <= i < Issued(s) ensures 0 <= IssueAt(At(s, i)) <= clk {
      if i < |s.retired| {
        assert RetiredOk(At(s, i));
      } else {
        assert InFlightOk(s.scoreboard[i - |s.retired|], clk);
      }
    }
  }

  lemma IssueOrdered(s: State, t: nat)
    requires WellFormed(s) && |s.queue| > 0 && Staged(s, t) && Ordered(s, t)
    ensures Ordered(TryIssue(s, t), t)
  {
    var u := TryIssue(s, t);
    var y := IssueLine(s, t);
    hide TryIssue;
    IssueBounded(s, t, t);
    if DidIssue(s, t) {
      LogCycle(y.(onAlu2 := s.fus.TakesAlu2(y.instr)), Issue, t, Issue);
    }
  }

  // ---- Dependences ----

  lemma CommitDependences(s: State, t: nat, port: nat)
    requires WellFormed(s) && CanCommit(s, port) && Staged(s, t - 1) && Dependences(s)
    ensures Dependences(TryCommit(s, t, port))
  {
    var u := TryCommit(s, t, port);
    CommitLine(s, t, port);
    hide TryCommit;
    var x := At(s, |s.retired|);
    forall k { LogCycle(x, Commit, t, k); }
    assert InFlightOk(s.scoreboard[0], t - 1);
    forall i, j | 0 <= i < j < Issued(u) ensures DependenceOk(u.cfg, At(u, i), At(u, j)) {
      assert DependenceOk(s.cfg, At(s, i), At(s, j));
    }
  }

  lemma ExecuteDependences(s: State, t: nat)
    requires Staged(s, t - 1) && Dependences(s)
    ensures Dependences(TryExecute(s, t))
  {
    var u := TryExecute(s, t);
    ExecuteKeeps(s, t);
    forall i, j | 0 <= i < j < Issued(u) ensures DependenceOk(u.cfg, At(u, i), At(u, j)) {
      assert DependenceOk(s.cfg, At(s, i), At(s, j));
    }
  }

  /** The scan for hazards is what makes a new issue respect every older instruction. */
  lemma RetiredFirst(cfg: Config, x: Instruction, z: Instruction, t: nat)
    requires RetiredOk(x) && CommitAt(x) <= t == IssueAt(z)
    ensures DependenceOk(cfg, x, z)
  {
    hide CycleOf;
  }

  lemma EntryFirst(cfg: Config, e: Entry, z: Instruction, t: nat)
    requires InFlightOk(e, t) && !WawHazard(cfg, z.instr, e) && !RawHazard(cfg, z.instr, e) && IssueAt(z) == t
    ensures DependenceOk(cfg, e.instr, z)
  {
    hide CycleOf;
  }

  lemma IssueDependences(s: State, t: nat)
    requires WellFormed(s) && |s.queue| > 0 && Staged(s, t) && Ordered(s, t) && Dependences(s)
    ensures Dependences(TryIssue(s, t))
  {
    hide TryIssue, OnlyWaits, RetiredOk, InFlightOk, WaitingOk, WawHazard, RawHazard, DependenceOk;
    var u := TryIssue(s, t);
    var y := IssueLine(s, t);
    AttemptConfig(s, t);
    if DidIssue(s, t) {
      var h := Issued(s);
      LogCycle(y.(onAlu2 := s.fus.TakesAlu2(y.instr)), Issue, t, Issue);
      forall i | 0 <= i < h ensures DependenceOk(s.cfg, At(s, i), At(u, h)) {
        if i < |s.retired| {
          RetiredFirst(s.cfg, At(s, i), At(u, h), t);
        } else {
          EntryFirst(s.cfg, s.scoreboard[i - |s.retired|], At(u, h), t);
        }
      }
      forall i, j | 0 <= i < j < Issued(u) ensures DependenceOk(u.cfg, At(u, i), At(u, j)) {
        if j < h { assert DependenceOk(s.cfg, At(s, i), At(s, j)); }
      }
    } else {
      forall i, j | 0 <= i < j < Issued(u) ensures DependenceOk(u.cfg, At(u, i), At(u, j)) {
        assert DependenceOk(s.cfg, At(s, i), At(s, j));
      }
    }
  }

  // ---- Write-back ports ----

  datatype Port = Flu | Lsu | SecondAlu

  function PortOf(x: Instruction): Port {
    match ToFu(x.instr)
    case Ldu => Lsu
    case Stu => Lsu
    case Alu => if x.onAlu2 then SecondAlu else Flu
    case Mul => Flu
    case BranchUnit => Flu
  }

  /** The cycle in which an issued instruction completes. */
  function Slot(x: Instruction): int {
    IssueAt(x) + x.instr.Duration()
  }

  predicate PortsApart(x: Instruction, y: Instruction) {
    PortOf(x) == PortOf(y) ==> Slot(x) != Slot(y)
  }

  ghost predicate Ports(s: State) {
    forall i, j :: 0 <= i < j < Issued(s) ==> PortsApart(At(s, i), At(s, j))
  }

  /** What the flags must say about one issued instruction during cycle `t`. */
  predicate FlagsCover(f: Fus, x: Instruction, t: int) {
    && (ToFu(x.instr).Mul? && IssueAt(x) == t ==> f.mul && f.issuedMul)
    && (ToFu(x.instr).Mul? && IssueAt(x) == t - 1 ==> f.alu)
    && (PortOf(x) == Flu && !ToFu(x.instr).Mul? && IssueAt(x) == t ==> f.alu)
    && (PortOf(x) == Lsu && IssueAt(x) == t ==> f.ldu && f.stu)
    && (PortOf(x) == SecondAlu && IssueAt(x) == t ==> f.alu2)
  }

  ghost predicate Flags(s: State, t: int) {
    && s.fus.alu == s.fus.branch
    && forall i :: 0 <= i < Issued(s) ==> FlagsCover(s.fus, At(s, i), t)
  }

  /** Between two cycles, only a multiply issued in the last one still matters. */
  ghost predicate FlagsBetween(s: State, t: int) {
    && s.fus.alu == s.fus.branch
    && forall i :: 0 <= i < Issued(s) && ToFu(At(s, i).instr).Mul? && IssueAt(At(s, i)) == t - 1 ==> s.fus.issuedMul
  }

  lemma CycleFlags(s: State, t: nat)
    requires Staged(s, t - 1) && Ordered(s, t - 1) && FlagsBetween(s, t)
    ensures Flags(s.(fus := s.fus.Cycle()), t)
  {
    var u := s.(fus := s.fus.Cycle());
    IssueBounded(s, t - 1, t - 1);
    assert forall i :: 0 <= i < Issued(s) ==> At(u, i) == At(s, i);
  }

  lemma CommitPortsApart(s: State, t: nat, port: nat)
    requires WellFormed(s) && CanCommit(s, port) && Ports(s) && Flags(s, t)
    ensures Ports(TryCommit(s, t, port)) && Flags(TryCommit(s, t, port), t)
  {
    var u := TryCommit(s, t, port);
    CommitKeeps(s, t, port);
    assert u.fus == s.fus;
    hide TryCommit, At, IssueAt, CommitAt;
    forall i | 0 <= i < Issued(u) ensures FlagsCover(u.fus, At(u, i), t) {
      assert FlagsCover(s.fus, At(s, i), t);
    }
    forall i, j | 0 <= i < j < Issued(u) ensures PortsApart(At(u, i), At(u, j)) {
      assert PortsApart(At(s, i), At(s, j));
    }
  }

  lemma ExecutePortsApart(s: State, t: nat)
    requires Staged(s, t - 1) && Ports(s) && Flags(s, t)
    ensures Ports(TryExecute(s, t)) && Flags(TryExecute(s, t), t)
  {
    var u := TryExecute(s, t);
    ExecuteKeeps(s, t);
    forall i | 0 <= i < Issued(u) ensures FlagsCover(u.fus, At(u, i), t) {
      assert FlagsCover(s.fus, At(s, i), t);
    }
    forall i, j | 0 <= i < j < Issued(u) ensures PortsApart(At(u, i), At(u, j)) {
      assert PortsApart(At(s, i), At(s, j));
    }
  }

  /** A unit that is ready has no older instruction completing in the same cycle. */
  lemma NewIssueApart(f: Fus, x: Instruction, z: Instruction, t: nat)
    requires f.alu == f.branch && f.IsReadyFor(z.instr) && z.onAlu2 == f.TakesAlu2(z.instr)
    requires FlagsCover(f, x, t) && IssueAt(x) <= t == IssueAt(z)
    ensures PortsApart(x, z)
    ensures FlagsCover(f.Issue(z.instr), x, t)
  {
  }

  lemma NewIssueCovered(f: Fus, z: Instruction, t: nat)
    requires f.alu == f.branch && z.onAlu2 == f.TakesAlu2(z.instr) && IssueAt(z) == t
    ensures FlagsCover(f.Issue(z.instr), z, t) && f.Issue(z.instr).alu == f.Issue(z.instr).branch
  {
  }

  lemma IssuePortsApart(s: State, t: nat)
    requires WellFormed(s) && |s.queue| > 0 && Staged(s, t) && Ordered(s, t) && Ports(s) && Flags(s, t)
    ensures Ports(TryIssue(s, t)) && Flags(TryIssue(s, t), t)
  {
    var u := TryIssue(s, t);
    var y := IssueLine(s, t);
    hide TryIssue;
    IssueBounded(s, t, t);
    var h := Issued(s);
    if DidIssue(s, t) {
      var z := At(u, h);
      LogCycle(y.(onAlu2 := s.fus.TakesAlu2(y.instr)), Issue, t, Issue);
      NewIssueCovered(s.fus, z, t);
      forall i | 0 <= i < h ensures PortsApart(At(s, i), z) && FlagsCover(u.fus, At(s, i), t) {
        NewIssueApart(s.fus, At(s, i), z, t);
      }
    }
    forall i, j | 0 <= i < j < Issued(u) ensures PortsApart(At(u, i), At(u, j)) {
      assert At(u, i) == At(s, i);
      if j < h { assert PortsApart(At(s, i), At(s, j)); }
    }
  }
}
