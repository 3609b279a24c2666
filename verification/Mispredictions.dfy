/**
 What a misprediction costs, over whole runs: an instruction behind a branch or a register jump has the
 outcome of the prediction on its record, and without a hit it issues no earlier than six cycles after it.
 */
module Mispredictions {
  import opened Prelude
  import opened Isa
  import opened Predictors
  import opened FetchQueue
  import opened FunctionalUnits
  import opened Scheduler
  import opened Timeline
  import opened Invariants
  import opened Runs
  import opened Liveness

  predicate PenaltyPaid(older: Instruction, younger: Instruction) {
    if Redirects(older.instr) then
      && (younger.Has(Bhit) || younger.Has(Bmiss))
      && (younger.Has(Bhit) || IssueAt(younger) >= IssueAt(older) + 6)
    else !younger.Has(Bhit) && !younger.Has(Bmiss)
  }

  predicate NoOutcome(x: Instruction) { !x.Has(Bhit) && !x.Has(Bmiss) }

  /** The last issue is that of the last instruction issued, and no instruction of the queue has an outcome
      on its record but the head, behind a branch or a register jump. */
  ghost predicate HeadCompared(s: State) {
    && (if Issued(s) == 0 then s.lastIssued.None?
        else
          var last := At(s, Issued(s) - 1);
          s.lastIssued.Some? && s.lastIssued.value.instr == last.instr && s.lastIssued.value.issueCycle == IssueAt(last))
    && (|s.queue| > 0 && (s.lastIssued.None? || !Redirects(s.lastIssued.value.instr)) ==> NoOutcome(s.queue[0]))
    && (forall k :: 0 < k < |s.queue| ==> NoOutcome(s.queue[k]))
  }

  ghost predicate Paid(s: State) {
    forall i :: 0 < i < Issued(s) ==> PenaltyPaid(At(s, i - 1), At(s, i))
  }

  // ---- Steps that only log ----

  /** The same instructions with the same issue cycles and outcomes. */
  ghost predicate Alike(s: State, u: State) {
    && Issued(u) == Issued(s) && u.queue == s.queue && u.lastIssued == s.lastIssued
    && forall i :: 0 <= i < Issued(s) ==>
         && At(u, i).instr == At(s, i).instr && IssueAt(At(u, i)) == IssueAt(At(s, i))
         && At(u, i).Has(Bhit) == At(s, i).Has(Bhit) && At(u, i).Has(Bmiss) == At(s, i).Has(Bmiss)
  }

  lemma AlikePaid(s: State, u: State)
    requires Alike(s, u) && Paid(s) && HeadCompared(s)
    ensures Paid(u) && HeadCompared(u)
  {
    hide At, IssueAt, Instruction.Has;
    forall i | 0 < i < Issued(u) ensures PenaltyPaid(At(u, i - 1), At(u, i)) {
      assert PenaltyPaid(At(s, i - 1), At(s, i));
    }
  }

  lemma AlikeTwice(s: State, v: State, u: State)
    requires Alike(s, v) && Alike(v, u)
    ensures Alike(s, u)
  {
    hide At, IssueAt, Instruction.Has;
  }

  lemma LogHas(x: Instruction, kind: EventKind, cycle: nat, k: EventKind)
    requires kind != k
    ensures x.Log(kind, cycle).Has(k) == x.Has(k)
  {
    if x.Has(k) { HasGrows(x, [Event(kind, cycle)], k); }
  }

  lemma CommitAlike(s: State, t: nat, port: nat)
    requires WellFormed(s) && CanCommit(s, port)
    ensures Alike(s, TryCommit(s, t, port))
  {
    CommitLine(s, t, port);
    var u := TryCommit(s, t, port);
    assert u.queue == s.queue && u.lastIssued == s.lastIssued;
    hide TryCommit, Instruction.Has;
    var x := At(s, |s.retired|);
    LogCycle(x, Commit, t, Issue);
    LogHas(x, Commit, t, Bhit);
    LogHas(x, Commit, t, Bmiss);
  }

  lemma {:induction false} CommitPortsAlike(s: State, t: nat, ports: nat)
    requires WellFormed(s)
    ensures Alike(s, CommitPorts(s, t, ports))
    decreases ports
  {
    hide At, IssueAt, Instruction.Has, Alike;
    if ports == 0 {
      SelfAlike(s);
    } else {
      var v := CommitPorts(s, t, ports - 1);
      CommitPortsAlike(s, t, ports - 1);
      if CanCommit(v, ports - 1) {
        CommitAlike(v, t, ports - 1);
        AlikeTwice(s, v, TryCommit(v, t, ports - 1));
      }
    }
  }

  lemma SelfAlike(s: State)
    ensures Alike(s, s)
  {
  }

  lemma ExecuteAlike(s: State, t: nat)
    ensures Alike(s, TryExecute(s, t))
  {
    ExecuteLine(s, t);
    forall i | |s.retired| <= i < Issued(s)
      ensures At(TryExecute(s, t), i).instr == At(s, i).instr
      ensures IssueAt(At(TryExecute(s, t), i)) == IssueAt(At(s, i))
      ensures At(TryExecute(s, t), i).Has(Bhit) == At(s, i).Has(Bhit)
      ensures At(TryExecute(s, t), i).Has(Bmiss) == At(s, i).Has(Bmiss)
    {
      var x := s.scoreboard[i - |s.retired|].instr;
      LogCycle(x, Done, t, Issue);
      LogHas(x, Done, t, Bhit);
      LogHas(x, Done, t, Bmiss);
    }
    hide TryExecute, Instruction.Has, IssueAt;
  }

  lemma UnitsAlike(s: State)
    ensures Alike(s, s.(fus := s.fus.Cycle()))
    ensures Alike(s, s.(iq := s.iq.Fetch()))
  {
    hide Instruction.Has, IssueAt;
  }

  // ---- An issue attempt ----

  lemma EmptyQueue(q: Iq, i: Instr)
    requires q.fetchSize > 0
    ensures !q.Flush().Has(i)
  {
  }

  /** Comparing the head with the prediction puts the outcome on its record.  While a miss is not resolved the
      queue is empty. */
  lemma Compared(last: Option<LastIssue>, ras: Ras, bht: Bht, q: Iq, x: Instruction, t: nat)
    requires |bht| > 0 && q.fetchSize > 0
    ensures var (y, r) := IssueManageLastBranch(last, ras, bht, q, x, t);
            if last.None? || !Redirects(last.value.instr) then y == x && r == q
            else
              && (y.Has(Bhit) || y.Has(Bmiss))
              && (r.Has(y.instr) && t < last.value.issueCycle + 6 ==>
                    y.Has(Bhit) && PredictPc(ras, bht, last.value.instr) == Some(x.instr.address))
  {
    hide Iq.Has, Iq.Jump;
    EmptyQueue(q, x.instr);
    assert x.Log(Bhit, t).events[|x.events|].kind == Bhit;
    assert x.Log(Bmiss, t).events[|x.events|].kind == Bmiss;
  }

  lemma QuietHas(x: Instruction, more: seq<Event>, k: EventKind)
    requires Quiet(more) && (k == Bhit || k == Bmiss)
    ensures x.(events := x.events + more).Has(k) == x.Has(k)
  {
    if x.Has(k) { HasGrows(x, more, k); }
  }

  /** The record of the head after an attempt in cycle `t`, issued or not. */
  lemma AttemptRecord(s: State, t: nat) returns (y: Instruction)
    requires WellFormed(s) && |s.queue| > 0 && HeadCompared(s)
    ensures y.instr == s.queue[0].instr
    ensures var u := TryIssue(s, t);
            if DidIssue(s, t)
            then At(u, Issued(s)) == y.(onAlu2 := s.fus.TakesAlu2(y.instr)).Log(Issue, t)
                 && u.queue == s.queue[1..] && u.lastIssued == Some(LastIssue(y.instr, t))
            else u.queue == [y] + s.queue[1..] && u.lastIssued == s.lastIssued
    ensures s.lastIssued.None? || !Redirects(s.lastIssued.value.instr) ==> NoOutcome(y)
    ensures DidIssue(s, t) && s.lastIssued.Some? && Redirects(s.lastIssued.value.instr) ==>
              (y.Has(Bhit) || y.Has(Bmiss)) && (y.Has(Bhit) || t >= s.lastIssued.value.issueCycle + 6)
  {
    hide HazardEvents, StructEvents, IssueManageLastBranch, Iq.Has, Iq.Remove, Quiet, Instruction.Has;
    var x := s.queue[0];
    if Full(s) {
      y := x;
    } else {
      var hazards := HazardEvents(s.cfg, x.instr, s.scoreboard, t) + StructEvents(s.fus, x.instr, t);
      var z := x.(events := x.events + hazards);
      QuietTogether(s.cfg, x.instr, s.scoreboard, s.fus, t);
      QuietHas(x, hazards, Bhit);
      QuietHas(x, hazards, Bmiss);
      Compared(s.lastIssued, s.ras, s.bht, s.iq, z, t);
      y := IssueManageLastBranch(s.lastIssued, s.ras, s.bht, s.iq, z, t).0;
    }
  }

  lemma AttemptPaid(s: State, t: nat)
    requires WellFormed(s) && Paid(s) && HeadCompared(s)
    ensures Paid(TryIssue(s, t)) && HeadCompared(TryIssue(s, t))
  {
    if |s.queue| > 0 {
      IssuedKept(s, t);
      var y := AttemptRecord(s, t);
      var u := TryIssue(s, t);
      var z := y.(onAlu2 := s.fus.TakesAlu2(y.instr));
      hide TryIssue, Instruction.Has, IssueAt, At, DidIssue;
      LogCycleIssue(z, t);
      LogHas(z, Issue, t, Bhit);
      LogHas(z, Issue, t, Bmiss);
      SameRecord(y, z);
      forall i | 0 < i < Issued(u) ensures PenaltyPaid(At(u, i - 1), At(u, i)) {
        if i < Issued(s) { assert PenaltyPaid(At(s, i - 1), At(s, i)); }
      }
    }
  }

  lemma LogCycleIssue(z: Instruction, t: nat)
    ensures IssueAt(z.Log(Issue, t)) == t
  {
    LogCycle(z, Issue, t, Issue);
  }

  lemma SameRecord(y: Instruction, z: Instruction)
    requires y.events == z.events
    ensures forall k :: y.Has(k) == z.Has(k)
  {
  }

  // ---- Runs ----

  lemma {:induction false} PortsPaid(s: State, t: nat, ports: nat)
    requires WellFormed(s) && Paid(s) && HeadCompared(s)
    ensures Paid(IssuePorts(s, t, ports)) && HeadCompared(IssuePorts(s, t, ports))
    decreases ports
  {
    hide Paid, HeadCompared, TryIssue;
    if ports > 0 {
      PortsPaid(s, t, ports - 1);
      AttemptPaid(IssuePorts(s, t, ports - 1), t);
    }
  }

  lemma CyclePaid(s: State, t: nat)
    requires WellFormed(s) && Paid(s) && HeadCompared(s)
    ensures Paid(RunCycle(s, t)) && HeadCompared(RunCycle(s, t))
  {
    hide Paid, HeadCompared, Alike, CommitPorts, IssuePorts;
    var s1 := s.(fus := s.fus.Cycle());
    var s2 := CommitPorts(s1, t, s.cfg.commitWidth);
    var s4 := IssuePorts(TryExecute(s2, t), t, s.cfg.issueWidth);
    UnitsAlike(s);
    AlikePaid(s, s1);
    CommitPortsAlike(s1, t, s.cfg.commitWidth);
    AlikePaid(s1, s2);
    ExecuteAlike(s2, t);
    AlikePaid(s2, TryExecute(s2, t));
    PortsPaid(TryExecute(s2, t), t, s.cfg.issueWidth);
    UnitsAlike(s4);
    AlikePaid(s4, s4.(iq := s4.iq.Fetch()));
  }

  lemma InitPaid(cfg: Config, fetch: nat, trace: seq<Instr>)
    ensures Paid(Init(cfg, fetch, trace)) && HeadCompared(Init(cfg, fetch, trace))
  {
  }

  lemma {:induction false} RunPaid(cfg: Config, fetch: nat, trace: seq<Instr>, n: nat)
    ensures Paid(Cycles(Init(cfg, fetch, trace), n)) && HeadCompared(Cycles(Init(cfg, fetch, trace), n))
    decreases n
  {
    hide Paid, HeadCompared, RunCycle, Init;
    InitPaid(cfg, fetch, trace);
    if n > 0 {
      RunPaid(cfg, fetch, trace, n - 1);
      CyclePaid(Cycles(Init(cfg, fetch, trace), n - 1), n - 1);
    }
  }

  /** Every issued instruction behind a branch or a register jump has a hit or a miss on its record, and no
      other has one; without a hit it issued six cycles after the branch at the earliest. */
  lemma MissesCostSixCycles(cfg: Config, fetch: nat, trace: seq<Instr>, n: nat, i: nat)
    requires 0 < i < Issued(Cycles(Init(cfg, fetch, trace), n))
    ensures var s := Cycles(Init(cfg, fetch, trace), n);
            var x, y := At(s, i - 1), At(s, i);
            && i < |trace| && x.instr == trace[i - 1] && y.instr == trace[i]
            && (y.Has(Bhit) || y.Has(Bmiss) <==> trace[i - 1].IsBranch() || trace[i - 1].IsRegJump())
            && ((trace[i - 1].IsBranch() || trace[i - 1].IsRegJump()) && !y.Has(Bhit) ==>
                  IssueAt(y) >= IssueAt(x) + 6)
  {
    hide Init, Cycles, Instruction.Has, IssueAt;
    RunSafe(cfg, fetch, trace, n);
    RunPaid(cfg, fetch, trace, n);
    var s := Cycles(Init(cfg, fetch, trace), n);
    assert PenaltyPaid(At(s, i - 1), At(s, i));
  }
}
