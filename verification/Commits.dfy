/**
 No instruction commits later than program order, the commit ports and the rule for stores make it, in any run.
 */
module Commits {
  import opened Prelude
  import opened Isa
  import opened Scheduler
  import opened Timeline
  import opened Invariants
  import opened Runs
  import opened Liveness

  /** Instruction `x` is complete before cycle `t`, up to which commits have been made, and not committed by then. */
  predicate Lingers(x: Instruction, t: int, now: int) {
    0 <= DoneAt(x) < t <= now && (CommitAt(x) == -1 || t < CommitAt(x))
  }

  /** What keeps instruction `j` from committing in cycle `t`: the one before it has not committed by then, or
      as many as there are ports have committed in that cycle, or it is a store behind another commit. */
  ghost predicate Kept(s: State, j: nat, t: int)
    requires j < Issued(s)
  {
    || s.cfg.commitWidth == 0
    || (j > 0 && (CommitAt(At(s, j - 1)) == -1 || CommitAt(At(s, j - 1)) > t))
    || (j >= s.cfg.commitWidth && CommitAt(At(s, j - s.cfg.commitWidth)) == t)
    || (j > 0 && At(s, j).instr.IsStore() && CommitAt(At(s, j - 1)) == t)
  }

  ghost predicate Prompt(s: State, now: int) {
    forall j, t :: 0 <= j < Issued(s) && Lingers(At(s, j), t, now) ==> Kept(s, j, t)
  }

  // ---- The commit ports of a cycle ----

  /** Ports that are left over find a head that is not complete, or a store that is not the first. */
  lemma {:induction false} PortsUsed(s: State, t: nat, ports: nat)
    requires WellFormed(s)
    ensures var u := CommitPorts(s, t, ports);
            && |s.retired| <= |u.retired| <= |s.retired| + ports
            && (|u.retired| < |s.retired| + ports && |u.scoreboard| > 0 && u.scoreboard[0].done ==>
                  u.scoreboard[0].instr.instr.IsStore() && |u.retired| > |s.retired|)
    decreases ports
  {
    if ports > 0 {
      PortsUsed(s, t, ports - 1);
      var v := CommitPorts(s, t, ports - 1);
      if CanCommit(v, ports - 1) { CommitLine(v, t, ports - 1); }
      hide CommitPorts;
    }
  }

  /** What a commit leaves of an instruction. */
  predicate SameBut(x: Instruction, y: Instruction) {
    y.instr == x.instr && DoneAt(y) == DoneAt(x) && IssueAt(y) == IssueAt(x)
  }

  lemma {:induction false} PortsSame(s: State, t: nat, ports: nat)
    requires WellFormed(s)
    ensures var u := CommitPorts(s, t, ports);
            Issued(u) == Issued(s) && forall i :: 0 <= i < Issued(s) ==> SameBut(At(s, i), At(u, i))
    decreases ports
  {
    hide SameBut;
    if ports == 0 {
      forall i | 0 <= i < Issued(s) ensures SameBut(At(s, i), At(s, i)) { SameSelf(At(s, i)); }
    } else {
      PortsSame(s, t, ports - 1);
      var v := CommitPorts(s, t, ports - 1);
      if CanCommit(v, ports - 1) {
        CommitLine(v, t, ports - 1);
        hide CommitPorts, TryCommit;
        var r := |v.retired|;
        SameLogged(At(s, r), At(v, r), t);
      }
    }
  }

  lemma SameSelf(x: Instruction)
    ensures SameBut(x, x)
  {
  }

  lemma SameLogged(x: Instruction, y: Instruction, t: nat)
    requires SameBut(x, y)
    ensures SameBut(x, y.Log(Commit, t))
  {
    LogCycle(y, Commit, t, Done);
    LogCycle(y, Commit, t, Issue);
  }

  lemma PortsPrompt(s: State, t: nat)
    requires WellFormed(s) && Staged(s, t - 1) && Prompt(s, t - 1) && Ordered(s, t - 1)
    requires Staged(CommitPorts(s, t, s.cfg.commitWidth), t - 1)
    ensures Prompt(CommitPorts(s, t, s.cfg.commitWidth), t)
  {
    var w := s.cfg.commitWidth;
    var u := CommitPorts(s, t, w);
    PortsUsed(s, t, w);
    PortsSame(s, t, w);
    CommittedPorts(s, t, w);
    CommitPortsConfig(s, t, w);
    StagedCommits(s, t - 1);
    StagedCommits(u, t - 1);
    hide CommitPorts, Staged, At, DoneAt, CommitAt, IssueAt;
    forall j, c | 0 <= j < Issued(u) && Lingers(At(u, j), c, t) ensures Kept(u, j, c) {
      if c < t {
        StillKept(s, u, t, j, c);
      } else if w > 0 {
        CommittedByNow(s, u, t);
        KeptNow(s, u, t, j);
      }
    }
  }

  lemma CommittedByNow(s: State, u: State, t: nat)
    requires CommittedSince(s, u, t, s.cfg.commitWidth) && Ordered(s, t - 1)
    ensures forall i :: 0 <= i < |u.retired| ==> CommitAt(At(u, i)) <= t
  {
    hide CommitAt, IssueAt;
  }

  /** What kept an instruction from committing in an earlier cycle still did. */
  lemma StillKept(s: State, u: State, t: nat, j: nat, c: int)
    requires CommittedSince(s, u, t, s.cfg.commitWidth) && u.cfg == s.cfg
    requires j < Issued(s) && SameBut(At(s, j), At(u, j)) && Prompt(s, t - 1) && CommitsIn(s)
    requires Lingers(At(u, j), c, t) && c < t
    ensures Kept(u, j, c)
  {
    hide At, CommitAt, DoneAt, IssueAt;
    assert Lingers(At(s, j), c, t - 1);
    assert Kept(s, j, c);
  }

  /** An instruction that is complete and still not committed after the ports of this cycle. */
  lemma KeptNow(s: State, u: State, t: nat, j: nat)
    requires CommittedSince(s, u, t, s.cfg.commitWidth) && u.cfg == s.cfg && s.cfg.commitWidth > 0
    requires CommitsIn(u) && j < Issued(u) && Lingers(At(u, j), t, t)
    requires forall i :: 0 <= i < |u.retired| ==> CommitAt(At(u, i)) <= t
    requires |u.retired| < |s.retired| + s.cfg.commitWidth && |u.scoreboard| > 0 && u.scoreboard[0].done ==>
               u.scoreboard[0].instr.instr.IsStore() && |u.retired| > |s.retired|
    ensures Kept(u, j, t)
  {
    hide CommitAt, DoneAt, IssueAt;
    var r := |u.retired|;
    assert j >= r;
    if j == r {
      assert At(u, j) == u.scoreboard[0].instr;
    } else {
      assert CommitAt(At(u, j - 1)) == -1;
    }
  }

  /** Retired instructions have committed, the others have not; what has completed is done. */
  ghost predicate CommitsIn(s: State) {
    && (forall i :: 0 <= i < |s.retired| ==> CommitAt(At(s, i)) >= 0)
    && (forall i :: |s.retired| <= i < Issued(s) ==> CommitAt(At(s, i)) == -1)
    && (forall k :: 0 <= k < |s.scoreboard| ==> (DoneAt(s.scoreboard[k].instr) >= 0 <==> s.scoreboard[k].done))
  }

  lemma StagedCommits(s: State, clk: int)
    requires Staged(s, clk)
    ensures CommitsIn(s)
  {
    forall i | 0 <= i < |s.retired| ensures CommitAt(At(s, i)) >= 0 { assert RetiredOk(At(s, i)); }
    forall i | |s.retired| <= i < Issued(s) ensures CommitAt(At(s, i)) == -1 {
      assert InFlightOk(s.scoreboard[i - |s.retired|], clk);
    }
  }

  // ---- The other steps ----

  /** Commit cycles are as they were, and a completion is new only in the current cycle. */
  ghost predicate NotSooner(s: State, u: State, now: int) {
    && u.cfg == s.cfg && Issued(u) >= Issued(s)
    && (forall i :: 0 <= i < Issued(s) ==>
          && At(u, i).instr == At(s, i).instr && CommitAt(At(u, i)) == CommitAt(At(s, i))
          && (DoneAt(At(u, i)) == DoneAt(At(s, i)) || DoneAt(At(u, i)) >= now))
    && (forall i :: Issued(s) <= i < Issued(u) ==> DoneAt(At(u, i)) == -1)
  }

  lemma StaysPrompt(s: State, u: State, now: int)
    requires Prompt(s, now) && NotSooner(s, u, now)
    ensures Prompt(u, now)
  {
    hide At, DoneAt, CommitAt;
    forall j, c | 0 <= j < Issued(u) && Lingers(At(u, j), c, now) ensures Kept(u, j, c) {
      assert Lingers(At(s, j), c, now);
      assert Kept(s, j, c);
    }
  }

  lemma ExecuteNotSooner(s: State, t: nat)
    requires Staged(s, t - 1)
    ensures NotSooner(s, TryExecute(s, t), t)
  {
    ExecuteKeeps(s, t);
    ExecuteLine(s, t);
    var u := TryExecute(s, t);
    forall i | |s.retired| <= i < Issued(s)
      ensures DoneAt(At(u, i)) == DoneAt(At(s, i)) || DoneAt(At(u, i)) >= t
    {
      LogCycle(s.scoreboard[i - |s.retired|].instr, Done, t, Done);
    }
    hide TryExecute, DoneAt, CommitAt, IssueAt, Staged;
  }

  lemma AttemptNotSooner(s: State, t: nat, now: int)
    requires WellFormed(s) && Staged(s, t)
    ensures NotSooner(s, TryIssue(s, t), now)
  {
    hide TryIssue, CommitAt, DoneAt, Staged, At, WaitingOk;
    AttemptConfig(s, t);
    if |s.queue| == 0 {
      NothingTried(s, t);
    } else {
      HeadWaits(s, t);
      IssuedKept(s, t);
      if DidIssue(s, t) { IssuedNotDone(s, t); }
    }
  }

  lemma HeadWaits(s: State, clk: int)
    requires Staged(s, clk) && |s.queue| > 0
    ensures WaitingOk(s.queue[0])
  {
    assert WaitingOk(At(s, Issued(s)));
    hide WaitingOk, RetiredOk, InFlightOk;
  }

  lemma IssuedNotDone(s: State, t: nat)
    requires WellFormed(s) && |s.queue| > 0 && WaitingOk(s.queue[0]) && DidIssue(s, t)
    ensures DoneAt(At(TryIssue(s, t), Issued(s))) == -1
  {
    var y := IssueLine(s, t);
    hide TryIssue, At;
    OnlyWaitsKeeps(s.queue[0], y);
    LogCycle(y.(onAlu2 := s.fus.TakesAlu2(y.instr)), Issue, t, Done);
  }

  lemma {:induction false} PortsStayPrompt(trace: seq<Instr>, s: State, t: nat, ports: nat)
    requires WellFormed(s) && Mid(trace, s, t, t) && Prompt(s, t)
    ensures Prompt(IssuePorts(s, t, ports), t)
    decreases ports
  {
    hide Prompt, NotSooner, TryIssue, Staged, Conserved, Ordered, Dependences, Ports, Flags;
    if ports > 0 {
      var v := IssuePorts(s, t, ports - 1);
      PortsStayPrompt(trace, s, t, ports - 1);
      IssuePortsMid(trace, s, t, ports - 1);
      AttemptNotSooner(v, t, t);
      StaysPrompt(v, TryIssue(v, t), t);
    }
  }

  lemma SameLinePrompt(s: State, u: State, now: int)
    requires SameLine(s, u) && Prompt(s, now)
    ensures Prompt(u, now)
  {
    SameAt(s, u);
    hide At, DoneAt, CommitAt;
    forall j, c | 0 <= j < Issued(u) && Lingers(At(u, j), c, now) ensures Kept(u, j, c) {
      assert Kept(s, j, c);
    }
  }

  // ---- Runs ----

  lemma CyclePrompt(trace: seq<Instr>, s: State, t: nat)
    requires WellFormed(s) && Safe(trace, s, t) && Prompt(s, t - 1)
    ensures Prompt(RunCycle(s, t), t)
  {
    hide Safe, Prompt, NotSooner, CommitPorts, IssuePorts, Conserved, Ordered, Dependences, Ports, Flags, Widths, Staged;
    var s1 := s.(fus := s.fus.Cycle());
    CycleBegins(trace, s, s1, t);
    SameLinePrompt(s, s1, t - 1);
    var s2 := CommitPorts(s1, t, s.cfg.commitWidth);
    CommitPortsMid(trace, s1, t, s.cfg.commitWidth);
    CommitPortsConfig(s1, t, s.cfg.commitWidth);
    PortsPrompt(s1, t);
    var s3 := TryExecute(s2, t);
    ExecuteNotSooner(s2, t);
    StaysPrompt(s2, s3, t);
    ExecuteMid(trace, s2, t);
    PortsStayPrompt(trace, s3, t, s.cfg.issueWidth);
    var s4 := IssuePorts(s3, t, s.cfg.issueWidth);
    SameLinePrompt(s4, s4.(iq := s4.iq.Fetch()), t);
  }

  lemma {:induction false} RunPrompt(cfg: Config, fetch: nat, trace: seq<Instr>, n: nat)
    ensures Prompt(Cycles(Init(cfg, fetch, trace), n), n - 1)
    decreases n
  {
    hide Prompt, RunCycle, Init, Safe;
    if n == 0 {
      InitPrompt(cfg, fetch, trace);
    } else {
      RunPrompt(cfg, fetch, trace, n - 1);
      RunSafe(cfg, fetch, trace, n - 1);
      CyclePrompt(trace, Cycles(Init(cfg, fetch, trace), n - 1), n - 1);
    }
  }

  lemma InitPrompt(cfg: Config, fetch: nat, trace: seq<Instr>)
    ensures Prompt(Init(cfg, fetch, trace), -1)
  {
  }

  /** A retired instruction commits in the first cycle after its completion in which nothing keeps it: the one
      before it has committed, a port is left over, and it is no store behind another commit of that cycle. */
  lemma CommitsAtOnce(cfg: Config, fetch: nat, trace: seq<Instr>, n: nat, j: nat, t: int)
    requires cfg.commitWidth > 0 && j < |Cycles(Init(cfg, fetch, trace), n).retired|
    requires var x := Cycles(Init(cfg, fetch, trace), n).retired[j]; DoneAt(x) < t < CommitAt(x)
    ensures var r := Cycles(Init(cfg, fetch, trace), n).retired;
            || (j > 0 && CommitAt(r[j - 1]) > t)
            || (j >= cfg.commitWidth && CommitAt(r[j - cfg.commitWidth]) == t)
            || (j > 0 && r[j].instr.IsStore() && CommitAt(r[j - 1]) == t)
  {
    hide Cycles, Init, DoneAt, CommitAt;
    RunSafe(cfg, fetch, trace, n);
    RunPrompt(cfg, fetch, trace, n);
    var s := Cycles(Init(cfg, fetch, trace), n);
    assert RetiredOk(At(s, j));
    assert At(s, j) == s.retired[j];
    assert Lingers(At(s, j), t, n - 1);
    assert Kept(s, j, t);
  }
}
