/**
 When a unit refuses an instruction, in any run: exactly when an instruction of this cycle, or a multiply of
 the last one, is in its way.
 */
module Units {
  import opened Prelude
  import opened Isa
  import opened FunctionalUnits
  import opened FetchQueue
  import opened Scheduler
  import opened Timeline
  import opened Invariants
  import opened Runs
  import opened Liveness

  // ---- What is in the way of what ----

  /** Neither memory, multiplication nor a redirection. */
  predicate Computes(i: Instr) {
    !i.IsBranch() && !i.IsRegJump() && !i.IsMulDiv() && !i.IsLoad() && !i.IsStore()
  }

  datatype Way = FirstAlu | OtherAlu | Multiplier | Memory | Stores

  /** Instruction `x` is in the way in cycle `t`.  On the first ALU, so is a multiply of the cycle before, which
      completes where an instruction of this cycle would; and a branch lets no store issue beside it. */
  predicate Takes(x: Instruction, t: int, way: Way) {
    match way
    case FirstAlu =>
      || (IssueAt(x) == t && (Redirects(x.instr) || (Computes(x.instr) && !x.onAlu2)))
      || (IssueAt(x) == t - 1 && x.instr.IsMulDiv())
    case OtherAlu => IssueAt(x) == t && Computes(x.instr) && x.onAlu2
    case Multiplier => IssueAt(x) == t && x.instr.IsMulDiv()
    case Memory => IssueAt(x) == t && (x.instr.IsLoad() || x.instr.IsStore())
    case Stores => IssueAt(x) == t && (x.instr.IsLoad() || x.instr.IsStore() || Redirects(x.instr))
  }

  ghost predicate Taken(s: State, t: int, way: Way) {
    exists i :: 0 <= i < Issued(s) && Takes(At(s, i), t, way)
  }

  ghost predicate Exact(s: State, t: int) {
    && s.fus.alu == s.fus.branch == Taken(s, t, FirstAlu)
    && s.fus.alu2 == Taken(s, t, OtherAlu)
    && s.fus.mul == s.fus.issuedMul == Taken(s, t, Multiplier)
    && s.fus.ldu == Taken(s, t, Memory)
    && s.fus.stu == Taken(s, t, Stores)
    && s.fus.hasAlu2 == (s.cfg.issueWidth > 1)
  }

  /** Between cycles only the multiplies of the last one count. */
  ghost predicate ExactBetween(s: State, t: int) {
    && s.fus.issuedMul == Taken(s, t - 1, Multiplier)
    && s.fus.hasAlu2 == (s.cfg.issueWidth > 1)
  }

  // ---- Steps ----

  lemma CycleExact(s: State, t: nat)
    requires Staged(s, t - 1) && Ordered(s, t - 1) && ExactBetween(s, t)
    ensures Exact(s.(fus := s.fus.Cycle()), t)
  {
    hide Taken;
    var u := s.(fus := s.fus.Cycle());
    forall way { NewCycle(s, u, t, way); }
  }

  /** In a new cycle nothing is in the way but a multiply of the last one. */
  lemma NewCycle(s: State, u: State, t: nat, way: Way)
    requires Staged(s, t - 1) && Ordered(s, t - 1) && SameLine(s, u)
    ensures Taken(u, t, way) <==> way == FirstAlu && Taken(s, t - 1, Multiplier)
  {
    hide At, Staged, Ordered, Takes;
    IssueBounded(s, t - 1, t - 1);
    SameAt(s, u);
    forall i | 0 <= i < Issued(s)
      ensures Takes(At(u, i), t, way) <==> way == FirstAlu && Takes(At(s, i), t - 1, Multiplier)
    {
      PastTakes(At(s, i), t, way);
    }
    hide IssueAt;
  }

  lemma PastTakes(x: Instruction, t: int, way: Way)
    requires IssueAt(x) <= t - 1
    ensures Takes(x, t, way) <==> way == FirstAlu && Takes(x, t - 1, Multiplier)
  {
    hide IssueAt, Computes, Redirects;
  }

  /** The same instructions in the same cycles, on the same units. */
  ghost predicate SameUse(s: State, u: State) {
    && u.fus == s.fus && u.cfg == s.cfg && Issued(u) == Issued(s)
    && forall i :: 0 <= i < Issued(s) ==> SameIssue(At(s, i), At(u, i))
  }

  predicate SameIssue(x: Instruction, y: Instruction) {
    y.instr == x.instr && IssueAt(y) == IssueAt(x) && y.onAlu2 == x.onAlu2
  }

  lemma SameTakes(x: Instruction, y: Instruction, t: int, way: Way)
    requires SameIssue(x, y)
    ensures Takes(y, t, way) == Takes(x, t, way)
  {
  }

  lemma SameTaken(s: State, u: State, t: int, way: Way)
    requires SameUse(s, u)
    ensures Taken(u, t, way) == Taken(s, t, way)
  {
    hide At, Takes, SameIssue;
    forall i | 0 <= i < Issued(s) ensures Takes(At(u, i), t, way) == Takes(At(s, i), t, way) {
      SameTakes(At(s, i), At(u, i), t, way);
    }
  }

  lemma SameExact(s: State, u: State, t: int)
    requires SameUse(s, u) && Exact(s, t)
    ensures Exact(u, t)
  {
    forall way { SameTaken(s, u, t, way); }
    hide At, Taken, SameIssue;
  }

  lemma CommitSameUse(s: State, t: nat, port: nat)
    requires WellFormed(s) && CanCommit(s, port)
    ensures SameUse(s, TryCommit(s, t, port))
  {
    CommitLine(s, t, port);
    LogCycle(At(s, |s.retired|), Commit, t, Issue);
    assert TryCommit(s, t, port).fus == s.fus && TryCommit(s, t, port).cfg == s.cfg;
    hide TryCommit, IssueAt;
  }

  lemma SameUseTwice(s: State, v: State, u: State)
    requires SameUse(s, v) && SameUse(v, u)
    ensures SameUse(s, u)
  {
    hide At, IssueAt;
  }

  lemma {:induction false} CommitsSameUse(s: State, t: nat, ports: nat)
    requires WellFormed(s)
    ensures SameUse(s, CommitPorts(s, t, ports))
    decreases ports
  {
    hide SameUse;
    if ports == 0 {
      SelfSameUse(s);
    } else {
      CommitsSameUse(s, t, ports - 1);
      var v := CommitPorts(s, t, ports - 1);
      if CanCommit(v, ports - 1) {
        CommitSameUse(v, t, ports - 1);
        SameUseTwice(s, v, TryCommit(v, t, ports - 1));
      }
    }
  }

  lemma SelfSameUse(s: State)
    ensures SameUse(s, s)
  {
  }

  lemma ExecuteSameUse(s: State, t: nat)
    requires Staged(s, t - 1)
    ensures SameUse(s, TryExecute(s, t))
  {
    ExecuteKeeps(s, t);
    assert TryExecute(s, t).fus == s.fus && TryExecute(s, t).cfg == s.cfg;
    hide TryExecute, At, IssueAt, Staged;
  }

  /** What the issue of `z` adds to the flags. */
  lemma IssueTakes(f: Fus, z: Instruction, t: nat)
    requires IssueAt(z) == t && z.onAlu2 == f.TakesAlu2(z.instr)
    ensures var g := f.Issue(z.instr);
            && g.alu == (f.alu || Takes(z, t, FirstAlu)) && g.branch == (f.branch || Takes(z, t, FirstAlu))
            && g.alu2 == (f.alu2 || Takes(z, t, OtherAlu))
            && g.mul == (f.mul || Takes(z, t, Multiplier)) && g.issuedMul == (f.issuedMul || Takes(z, t, Multiplier))
            && g.ldu == (f.ldu || Takes(z, t, Memory)) && g.stu == (f.stu || Takes(z, t, Stores))
            && g.hasAlu2 == f.hasAlu2
  {
    hide ToFu, Takes, IssueAt;
    TakesByUnit(z, t);
  }

  lemma TakesByUnit(z: Instruction, t: int)
    requires IssueAt(z) == t
    ensures var fu := ToFu(z.instr);
            && Takes(z, t, FirstAlu) == (fu.BranchUnit? || (fu.Alu? && !z.onAlu2))
            && Takes(z, t, OtherAlu) == (fu.Alu? && z.onAlu2)
            && Takes(z, t, Multiplier) == fu.Mul?
            && Takes(z, t, Memory) == (fu.Ldu? || fu.Stu?)
            && Takes(z, t, Stores) == (fu.Ldu? || fu.Stu? || fu.BranchUnit?)
  {
    hide ToFu, Computes, Redirects, Instr.IsBranch, Instr.IsRegJump, Instr.IsLoad, Instr.IsStore, Instr.IsMulDiv, IssueAt;
    UnitsByKind(z.instr);
  }

  /** Every instruction has one unit. */
  lemma UnitsByKind(i: Instr)
    ensures ToFu(i).Mul? <==> i.IsMulDiv()
    ensures ToFu(i).Ldu? <==> i.IsLoad()
    ensures ToFu(i).Stu? <==> i.IsStore()
    ensures ToFu(i).BranchUnit? <==> Redirects(i)
    ensures ToFu(i).Alu? <==> Computes(i)
  {
  }

  lemma AttemptExact(s: State, t: nat)
    requires WellFormed(s) && Exact(s, t)
    ensures Exact(TryIssue(s, t), t)
  {
    hide Taken, Takes, At, TryIssue, DidIssue;
    if |s.queue| > 0 {
      IssuedKept(s, t);
      AttemptFus(s, t);
      var u := TryIssue(s, t);
      forall way { OneMore(s, u, t, way); }
      if DidIssue(s, t) { IssueTakes(s.fus, At(u, Issued(s)), t); }
    } else {
      NothingTried(s, t);
    }
  }

  lemma OneMore(s: State, u: State, t: int, way: Way)
    requires Issued(s) <= Issued(u) <= Issued(s) + 1 && forall i :: 0 <= i < Issued(s) ==> At(u, i) == At(s, i)
    ensures Taken(u, t, way) <==> Taken(s, t, way) || (Issued(u) > Issued(s) && Takes(At(u, Issued(s)), t, way))
  {
    hide At, Takes;
  }

  lemma AttemptFus(s: State, t: nat)
    requires WellFormed(s) && |s.queue| > 0
    ensures var u := TryIssue(s, t);
            && u.cfg == s.cfg
            && (!DidIssue(s, t) ==> u.fus == s.fus)
            && (DidIssue(s, t) ==>
                  var z := At(u, Issued(s));
                  u.fus == s.fus.Issue(z.instr) && IssueAt(z) == t && z.onAlu2 == s.fus.TakesAlu2(z.instr))
  {
    assert TryIssue(s, t).cfg == s.cfg;
    hide TryIssue, At;
    var y := IssueLine(s, t);
    LogCycle(y.(onAlu2 := s.fus.TakesAlu2(y.instr)), Issue, t, Issue);
  }

  lemma {:induction false} PortsExact(s: State, t: nat, ports: nat)
    requires WellFormed(s) && Exact(s, t)
    ensures Exact(IssuePorts(s, t, ports), t)
    decreases ports
  {
    hide Exact, TryIssue;
    if ports > 0 {
      PortsExact(s, t, ports - 1);
      AttemptExact(IssuePorts(s, t, ports - 1), t);
    }
  }

  // ---- Runs ----

  lemma BeforeIssueExact(trace: seq<Instr>, s: State, t: nat)
    requires WellFormed(s) && Safe(trace, s, t) && ExactBetween(s, t)
    ensures Exact(BeforeIssue(s, t), t)
  {
    hide Exact, SameUse, CommitPorts, Conserved, Dependences, Ports, Flags, Widths, FlagsBetween, Ordered, Staged;
    var s1 := s.(fus := s.fus.Cycle());
    CycleExact(s, t);
    CycleBegins(trace, s, s1, t);
    CommitsSameUse(s1, t, s.cfg.commitWidth);
    CommitPortsMid(trace, s1, t, s.cfg.commitWidth);
    var s2 := CommitPorts(s1, t, s.cfg.commitWidth);
    SameExact(s1, s2, t);
    ExecuteSameUse(s2, t);
    SameExact(s2, TryExecute(s2, t), t);
  }

  lemma CycleBetween(trace: seq<Instr>, s: State, t: nat)
    requires WellFormed(s) && Safe(trace, s, t) && ExactBetween(s, t)
    ensures ExactBetween(RunCycle(s, t), t + 1)
  {
    BeforeIssueExact(trace, s, t);
    var u := IssuePorts(BeforeIssue(s, t), t, s.cfg.issueWidth);
    PortsExact(BeforeIssue(s, t), t, s.cfg.issueWidth);
    BeforeIssueKeeps(s, t);
    CycleIs(s, t);
    IssuePortsConfig(BeforeIssue(s, t), t, s.cfg.issueWidth);
    SameTakings(u, u.(iq := u.iq.Fetch()), t);
    hide Safe, BeforeIssue, IssuePorts, RunCycle, Taken;
  }

  lemma SameTakings(s: State, u: State, t: int)
    requires SameLine(s, u)
    ensures Taken(u, t, Multiplier) == Taken(s, t, Multiplier)
  {
    SameAt(s, u);
    hide At, Takes;
  }

  lemma {:induction false} RunExact(cfg: Config, fetch: nat, trace: seq<Instr>, n: nat)
    ensures ExactBetween(Cycles(Init(cfg, fetch, trace), n), n)
    decreases n
  {
    hide ExactBetween, RunCycle, Init, Safe;
    if n == 0 {
      InitExact(cfg, fetch, trace);
    } else {
      RunExact(cfg, fetch, trace, n - 1);
      RunSafe(cfg, fetch, trace, n - 1);
      CycleBetween(trace, Cycles(Init(cfg, fetch, trace), n - 1), n - 1);
    }
  }

  lemma InitExact(cfg: Config, fetch: nat, trace: seq<Instr>)
    ensures ExactBetween(Init(cfg, fetch, trace), 0)
  {
  }

  lemma ReadyIff(s: State, t: int, i: Instr)
    requires Exact(s, t)
    ensures i.IsLoad() ==> (s.fus.IsReadyFor(i) <==> !Taken(s, t, Memory))
    ensures i.IsStore() ==> (s.fus.IsReadyFor(i) <==> !Taken(s, t, Stores))
    ensures i.IsMulDiv() ==> (s.fus.IsReadyFor(i) <==> !Taken(s, t, Multiplier))
    ensures i.IsBranch() || i.IsRegJump() ==> (s.fus.IsReadyFor(i) <==> !Taken(s, t, FirstAlu))
    ensures Computes(i) ==>
              (s.fus.IsReadyFor(i)
               <==> !Taken(s, t, FirstAlu) || (s.cfg.issueWidth > 1 && !Taken(s, t, OtherAlu)))
  {
    UnitsByKind(i);
    hide Taken, ToFu, Computes, Instr.IsBranch, Instr.IsRegJump, Instr.IsLoad, Instr.IsStore, Instr.IsMulDiv;
  }

  /** At any issue attempt of any run: a load is refused beside a load or a store, a store beside a branch too,
      a multiply beside a multiply; a branch beside an instruction on the first ALU and behind a multiply; and
      any other instruction where that holds and there is no second ALU that is free. */
  lemma RefusedIff(cfg: Config, fetch: nat, trace: seq<Instr>, n: nat, ports: nat, i: Instr)
    ensures var s := IssuePorts(BeforeIssue(Cycles(Init(cfg, fetch, trace), n), n), n, ports);
            && (i.IsLoad() ==> (s.fus.IsReadyFor(i) <==> !Taken(s, n, Memory)))
            && (i.IsStore() ==> (s.fus.IsReadyFor(i) <==> !Taken(s, n, Stores)))
            && (i.IsMulDiv() ==> (s.fus.IsReadyFor(i) <==> !Taken(s, n, Multiplier)))
            && (i.IsBranch() || i.IsRegJump() ==> (s.fus.IsReadyFor(i) <==> !Taken(s, n, FirstAlu)))
            && (Computes(i) ==>
                  (s.fus.IsReadyFor(i) <==> !Taken(s, n, FirstAlu) || (cfg.issueWidth > 1 && !Taken(s, n, OtherAlu))))
  {
    hide Safe, BeforeIssue, IssuePorts, Cycles, Init, Taken, ExactBetween, Fus.IsReadyFor, Exact, Computes;
    var c := Cycles(Init(cfg, fetch, trace), n);
    RunSafe(cfg, fetch, trace, n);
    RunExact(cfg, fetch, trace, n);
    BeforeIssueExact(trace, c, n);
    BeforeIssueKeeps(c, n);
    PortsExact(BeforeIssue(c, n), n, ports);
    IssuePortsConfig(BeforeIssue(c, n), n, ports);
    ReadyIff(IssuePorts(BeforeIssue(c, n), n, ports), n, i);
  }
}
