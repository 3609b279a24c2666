/**
 The state of the predictors depends on the trace alone: no width, buffer length, fetch size,
 forwarding or renaming setting changes what a finished run has learnt.
 */
module PredictorRuns {
  import opened Prelude
  import opened Isa
  import opened Predictors
  import opened Scheduler
  import opened Timeline
  import opened Invariants
  import opened Runs

  ghost predicate Learnt(trace: seq<Instr>, s: State) {
    && Total(s) == |trace|
    && s.bht == BhtAfter(NewBht(), trace[..|s.retired|])
    && s.ras == RasAfter(NewRas(2), trace[..Issued(s)])
    && s.lastCommitted == (if |s.retired| == 0 then None else Some(trace[|s.retired| - 1]))
  }

  lemma LearnCommit(trace: seq<Instr>, s: State, t: nat, port: nat)
    requires WellFormed(s) && CanCommit(s, port) && Conserved(trace, s) && Learnt(trace, s)
    ensures Learnt(trace, TryCommit(s, t, port))
  {
    var u := TryCommit(s, t, port);
    CommitLine(s, t, port);
    var r := |s.retired|;
    assert At(s, r).instr == trace[r];
    var upTo := trace[..r + 1];
    assert upTo[..r] == trace[..r];
    if r > 0 { assert upTo[|upTo| - 2] == trace[r - 1]; }
  }

  lemma LearnIssue(trace: seq<Instr>, s: State, t: nat)
    requires WellFormed(s) && |s.queue| > 0 && Conserved(trace, s) && Learnt(trace, s)
    ensures Learnt(trace, TryIssue(s, t))
  {
    hide TryIssue, At, OnlyWaits, Conserved, RasAfter, BhtAfter, Resolve, DidIssue;
    HeadInstr(trace, s);
    var y := IssueLine(s, t);
    WaitsInstr(s.queue[0], y);
    TryIssueKeeps(s, t);
    RasStep(trace, Issued(s));
  }

  lemma HeadInstr(trace: seq<Instr>, s: State)
    requires |s.queue| > 0 && Conserved(trace, s)
    ensures Issued(s) < |trace| && s.queue[0].instr == trace[Issued(s)]
  {
    assert At(s, Issued(s)).instr == trace[Issued(s)];
  }

  lemma WaitsInstr(x: Instruction, y: Instruction)
    requires OnlyWaits(x, y)
    ensures y.instr == x.instr
  {
  }

  lemma TryIssueKeeps(s: State, t: nat)
    requires WellFormed(s)
    ensures TryIssue(s, t).bht == s.bht && TryIssue(s, t).lastCommitted == s.lastCommitted
  {
  }

  lemma RasStep(trace: seq<Instr>, h: nat)
    requires h < |trace|
    ensures RasAfter(NewRas(2), trace[..h + 1]) == RasAfter(NewRas(2), trace[..h]).Resolve(trace[h])
  {
    assert trace[..h + 1][..h] == trace[..h];
  }

  lemma LearnCommitPort(trace: seq<Instr>, s: State, t: nat, port: nat)
    requires WellFormed(s) && Mid(trace, s, t - 1, t) && Learnt(trace, s)
    ensures Learnt(trace, TryCommit(s, t, port))
  {
    if CanCommit(s, port) {
      hide Learnt, TryCommit;
      LearnCommit(trace, s, t, port);
    }
  }

  lemma LearnIssuePort(trace: seq<Instr>, s: State, t: nat)
    requires WellFormed(s) && Mid(trace, s, t, t) && Learnt(trace, s)
    ensures Learnt(trace, TryIssue(s, t))
  {
    if |s.queue| > 0 {
      hide Learnt, TryIssue;
      LearnIssue(trace, s, t);
    }
  }

  lemma {:induction false} LearnCommits(trace: seq<Instr>, s: State, t: nat, ports: nat)
    requires WellFormed(s) && Mid(trace, s, t - 1, t) && Learnt(trace, s)
    ensures Learnt(trace, CommitPorts(s, t, ports))
    decreases ports
  {
    hide Mid, Learnt, TryCommit;
    if ports > 0 {
      LearnCommits(trace, s, t, ports - 1);
      CommitPortsMid(trace, s, t, ports - 1);
      LearnCommitPort(trace, CommitPorts(s, t, ports - 1), t, ports - 1);
    }
  }

  lemma {:induction false} LearnIssues(trace: seq<Instr>, s: State, t: nat, ports: nat)
    requires WellFormed(s) && Mid(trace, s, t, t) && Learnt(trace, s)
    ensures Learnt(trace, IssuePorts(s, t, ports))
    decreases ports
  {
    hide Mid, Learnt, TryIssue;
    if ports > 0 {
      LearnIssues(trace, s, t, ports - 1);
      IssuePortsMid(trace, s, t, ports - 1);
      LearnIssuePort(trace, IssuePorts(s, t, ports - 1), t);
    }
  }

  /** `Learnt` reads the line and the predictors only. */
  lemma LearntSame(trace: seq<Instr>, s: State, u: State)
    requires Learnt(trace, s)
    requires |u.retired| == |s.retired| && |u.scoreboard| == |s.scoreboard| && |u.queue| == |s.queue|
    requires u.bht == s.bht && u.ras == s.ras && u.lastCommitted == s.lastCommitted
    ensures Learnt(trace, u)
  {
  }

  lemma LearnCycle(trace: seq<Instr>, s: State, t: nat)
    requires WellFormed(s) && Safe(trace, s, t) && Learnt(trace, s)
    ensures Learnt(trace, RunCycle(s, t))
  {
    hide Safe, Learnt, Mid, Widths, Ordered, CommitPorts, IssuePorts;
    var s1 := s.(fus := s.fus.Cycle());
    CycleBegins(trace, s, s1, t);
    LearntSame(trace, s, s1);
    var s2 := CommitPorts(s1, t, s.cfg.commitWidth);
    CommitPortsMid(trace, s1, t, s.cfg.commitWidth);
    CommitPortsConfig(s1, t, s.cfg.commitWidth);
    LearnCommits(trace, s1, t, s.cfg.commitWidth);
    var s3 := TryExecute(s2, t);
    ExecuteMid(trace, s2, t);
    LearntSame(trace, s2, s3);
    var s4 := IssuePorts(s3, t, s.cfg.issueWidth);
    LearnIssues(trace, s3, t, s.cfg.issueWidth);
    LearntSame(trace, s4, s4.(iq := s4.iq.Fetch()));
  }

  lemma {:induction false} LearnFrom(trace: seq<Instr>, s: State, n: nat)
    requires WellFormed(s) && Safe(trace, s, 0) && Learnt(trace, s)
    ensures Learnt(trace, Cycles(s, n))
    decreases n
  {
    hide Safe, Learnt, RunCycle;
    if n > 0 {
      LearnFrom(trace, s, n - 1);
      SafeFrom(trace, s, n - 1);
      LearnCycle(trace, Cycles(s, n - 1), n - 1);
    }
  }

  /** At every moment of every run the predictors are a fold over what has committed and issued. */
  lemma PredictorsFollowTrace(cfg: Config, fetch: nat, trace: seq<Instr>, n: nat)
    ensures var s := Cycles(Init(cfg, fetch, trace), n);
            && Total(s) == |trace|
            && s.bht == BhtAfter(NewBht(), trace[..|s.retired|])
            && s.ras == RasAfter(NewRas(2), trace[..Issued(s)])
  {
    var s := Init(cfg, fetch, trace);
    InitSafe(cfg, fetch, trace);
    assert Learnt(trace, s);
    LearnFrom(trace, s, n);
  }

  /** Where a branch is expected to go after its last two resolutions agreed: to its target if they were
      taken, to the next address if not.  Any branch at that address is expected to do the same. */
  lemma BranchesPredicted(cfg: Config, fetch: nat, trace: seq<Instr>, n: nat, i: nat, j: nat, taken: bool, b: Instr)
    requires var m := |Cycles(Init(cfg, fetch, trace), n).retired|;
             && i < j && m <= |trace| && ResolvedAs(trace, m, i, taken) && ResolvedAs(trace, m, j, taken)
             && trace[i].address == trace[j].address == b.address && b.IsBranch()
             && NoAlias(trace, b.address, i + 1, j + 1) && NoAlias(trace, b.address, j + 1, m)
    ensures var s := Cycles(Init(cfg, fetch, trace), n);
            PredictPc(s.ras, s.bht, b) == Some(if taken then b.address + ToSigned(b.offset) else b.NextAddr())
  {
    hide Cycles, Init, Predict, NoAlias;
    PredictorsFollowTrace(cfg, fetch, trace, n);
    AgreeingIsPredicted(trace, |Cycles(Init(cfg, fetch, trace), n).retired|, i, j, taken);
  }

  /** Where a branch is expected to go before it, or another with its entry, has been resolved: backward it is
      taken, forward it is not. */
  lemma NewBranchesPredicted(cfg: Config, fetch: nat, trace: seq<Instr>, n: nat, b: Instr)
    requires b.IsBranch() && b.offset < 0x1_0000_0000
    requires var m := |Cycles(Init(cfg, fetch, trace), n).retired|;
             m <= |trace| && NoAlias(trace[..m], b.address, 0, m)
    ensures var s := Cycles(Init(cfg, fetch, trace), n);
            PredictPc(s.ras, s.bht, b)
            == Some(if ToSigned(b.offset) < 0 then b.address + ToSigned(b.offset) else b.NextAddr())
  {
    hide Cycles, Init, Predict, NoAlias;
    PredictorsFollowTrace(cfg, fetch, trace, n);
    NewIsUnknown(trace[..|Cycles(Init(cfg, fetch, trace), n).retired|], b.address);
  }

  /** Where the return that issued last is expected to go: to the address behind the call that is pending in
      program order, or nowhere (address 0); surely to it as long as there was never more than one pending. */
  lemma ReturnsPredicted(cfg: Config, fetch: nat, trace: seq<Instr>, n: nat)
    requires var h := Issued(Cycles(Init(cfg, fetch, trace), n));
             0 < h <= |trace| && trace[h - 1].IsRet()
    ensures var s := Cycles(Init(cfg, fetch, trace), n);
            var h := Issued(s);
            var pending := CallsAfter(trace[..h - 1]).stack;
            var pc := PredictPc(s.ras, s.bht, trace[h - 1]);
            && (pc == Some(0) || (pending != [] && pc == Some(pending[|pending| - 1])))
            && ((forall k :: 0 <= k <= h ==> |CallsAfter(trace[..k]).stack| <= 1) && pending != [] ==>
                  pc == Some(pending[|pending| - 1]))
  {
    hide Cycles, Init, RasAfter, CallsAfter;
    PredictorsFollowTrace(cfg, fetch, trace, n);
    var h := Issued(Cycles(Init(cfg, fetch, trace), n));
    DroppedIsPending(1, trace[..h]);
    assert trace[..h][..h - 1] == trace[..h - 1];
    assert forall k :: 0 <= k <= h ==> trace[..h][..k] == trace[..k];
  }

  /** Two finished runs of the same trace, under any two settings, end with the same predictors. */
  lemma PredictorsTimingIndependent(
    trace: seq<Instr>,
    cfg1: Config, fetch1: nat, n1: nat,
    cfg2: Config, fetch2: nat, n2: nat)
    requires Finished(Cycles(Init(cfg1, fetch1, trace), n1))
    requires Finished(Cycles(Init(cfg2, fetch2, trace), n2))
    ensures Cycles(Init(cfg1, fetch1, trace), n1).bht == Cycles(Init(cfg2, fetch2, trace), n2).bht
    ensures Cycles(Init(cfg1, fetch1, trace), n1).ras == Cycles(Init(cfg2, fetch2, trace), n2).ras
  {
    PredictorsFollowTrace(cfg1, fetch1, trace, n1);
    PredictorsFollowTrace(cfg2, fetch2, trace, n2);
    hide Cycles, Init;
  }
}
