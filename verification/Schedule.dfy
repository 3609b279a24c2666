/**
 What a run of the cycle model guarantees, for every trace and every setting of issue width, commit
 width, scoreboard length, fetch size, forwarding and renaming.
 */
module Schedule {
  import opened Prelude
  import opened Isa
  import opened FunctionalUnits
  import opened Scheduler
  import opened Timeline
  import opened Invariants
  import opened Runs
  import opened Liveness
  import opened FetchQueue

  function Codes(xs: seq<Instruction>): (r: seq<Instr>)
    ensures |r| == |xs| && forall i :: 0 <= i < |xs| ==> r[i] == xs[i].instr
  {
    seq(|xs|, i requires 0 <= i < |xs| => xs[i].instr)
  }

  function InFlight(sb: seq<Entry>): (r: seq<Instr>)
    ensures |r| == |sb| && forall i :: 0 <= i < |sb| ==> r[i] == sb[i].instr.instr
  {
    seq(|sb|, i requires 0 <= i < |sb| => sb[i].instr.instr)
  }

  /** At every moment the retired, in-flight and queued instructions are the trace, in order, and the
      scoreboard is within its length. */
  lemma NothingIsLost(cfg: Config, fetch: nat, trace: seq<Instr>, n: nat)
    ensures var s := Cycles(Init(cfg, fetch, trace), n);
            && Codes(s.retired) + InFlight(s.scoreboard) + Codes(s.queue) == trace
            && |s.scoreboard| <= cfg.sbLen
  {
    RunSafe(cfg, fetch, trace, n);
    var s := Cycles(Init(cfg, fetch, trace), n);
    var line := Codes(s.retired) + InFlight(s.scoreboard) + Codes(s.queue);
    forall i | 0 <= i < |trace| ensures line[i] == trace[i] {
      assert At(s, i).instr == trace[i];
    }
  }

  /** Every retired instruction issued once, completed exactly its duration later, and then committed
      once, which is the last event logged on it. */
  lemma RetiredTiming(cfg: Config, fetch: nat, trace: seq<Instr>, n: nat, i: nat)
    requires i < |Cycles(Init(cfg, fetch, trace), n).retired|
    ensures var x := Cycles(Init(cfg, fetch, trace), n).retired[i];
            && Count(x.events, Issue) == Count(x.events, Done) == Count(x.events, Commit) == 1
            && 0 <= IssueAt(x)
            && DoneAt(x) == IssueAt(x) + (if x.instr.IsLoad() || x.instr.IsStore() || x.instr.IsMulDiv() then 2 else 1)
            && DoneAt(x) < CommitAt(x) < n
            && x.events[|x.events| - 1] == Event(Commit, CommitAt(x))
  {
    RunSafe(cfg, fetch, trace, n);
    var s := Cycles(Init(cfg, fetch, trace), n);
    assert RetiredOk(At(s, i));
  }

  /** Program order: issue and commit cycles never decrease, a cycle holds at most as many issues and
      commits as there are ports, and a store is the first commit of its cycle. */
  lemma RetiredOrder(cfg: Config, fetch: nat, trace: seq<Instr>, n: nat, i: nat, j: nat)
    requires i < j < |Cycles(Init(cfg, fetch, trace), n).retired|
    ensures var s := Cycles(Init(cfg, fetch, trace), n);
            var x, y := s.retired[i], s.retired[j];
            && IssueAt(x) <= IssueAt(y) && CommitAt(x) <= CommitAt(y)
            && (j - i >= cfg.issueWidth ==> IssueAt(x) < IssueAt(y))
            && (j - i >= cfg.commitWidth ==> CommitAt(x) < CommitAt(y))
            && (y.instr.IsStore() ==> CommitAt(x) < CommitAt(y))
  {
    RunSafe(cfg, fetch, trace, n);
    var s := Cycles(Init(cfg, fetch, trace), n);
    assert At(s, i) == s.retired[i] && At(s, j) == s.retired[j];
  }

  /** Dependences through a register other than x0: with forwarding an instruction that has it as an operand
      issues no earlier than its older writers complete, without forwarding no earlier than they commit; without
      renaming, neither does a second writer. */
  lemma RetiredDependences(cfg: Config, fetch: nat, trace: seq<Instr>, n: nat, i: nat, j: nat, r: nat)
    requires i < j < |Cycles(Init(cfg, fetch, trace), n).retired| && r != 0
    ensures var s := Cycles(Init(cfg, fetch, trace), n);
            var x, y := s.retired[i], s.retired[j];
            x.instr.rd == Some(r) ==>
              && (y.instr.rs1 == Some(r) || y.instr.rs2 == Some(r) ==>
                    (if cfg.hasForwarding then DoneAt(x) else CommitAt(x)) <= IssueAt(y))
              && (y.instr.rd == Some(r) && !cfg.hasRenaming ==> CommitAt(x) <= IssueAt(y))
  {
    RunSafe(cfg, fetch, trace, n);
    var s := Cycles(Init(cfg, fetch, trace), n);
    assert DependenceOk(s.cfg, At(s, i), At(s, j));
  }

  lemma OneWriter(s: State, clk: int, i: nat, j: nat)
    requires Staged(s, clk) && Dependences(s) && !s.cfg.hasRenaming && i < j < |s.scoreboard|
    ensures var x, y := s.scoreboard[i].instr.instr, s.scoreboard[j].instr.instr;
            x.rd.Some? && x.rd.value != 0 ==> y.rd != x.rd
  {
    var r := |s.retired|;
    assert DependenceOk(s.cfg, At(s, r + i), At(s, r + j));
    assert InFlightOk(s.scoreboard[i], clk);
  }

  /** Without renaming the scoreboard never holds two writers of one register other than x0. */
  lemma OneWriterInFlight(cfg: Config, fetch: nat, trace: seq<Instr>, n: nat, i: nat, j: nat)
    requires !cfg.hasRenaming
    requires i < j < |Cycles(Init(cfg, fetch, trace), n).scoreboard|
    ensures var sb := Cycles(Init(cfg, fetch, trace), n).scoreboard;
            var x, y := sb[i].instr.instr, sb[j].instr.instr;
            x.rd.Some? && x.rd.value != 0 ==> y.rd != x.rd
  {
    RunSafe(cfg, fetch, trace, n);
    hide Staged, Dependences;
    OneWriter(Cycles(Init(cfg, fetch, trace), n), n - 1, i, j);
  }

  /** Write-back: no two instructions complete in the same cycle on the same port, where multiplies,
      branches and the first ALU share one port, loads and stores another, and the second ALU has its own.
      This holds of all that have completed, retired or not. */
  lemma WriteBackPortsNeverCollide(cfg: Config, fetch: nat, trace: seq<Instr>, n: nat, i: nat, j: nat)
    requires i < j < Issued(Cycles(Init(cfg, fetch, trace), n))
    ensures var s := Cycles(Init(cfg, fetch, trace), n);
            DoneAt(At(s, i)) >= 0 && DoneAt(At(s, j)) >= 0 && PortOf(At(s, i)) == PortOf(At(s, j)) ==>
              DoneAt(At(s, i)) != DoneAt(At(s, j))
  {
    hide Init, Cycles;
    RunSafe(cfg, fetch, trace, n);
    var s := Cycles(Init(cfg, fetch, trace), n);
    assert PortsApart(At(s, i), At(s, j));
    DoneInSlot(s, n - 1, i);
    DoneInSlot(s, n - 1, j);
  }

  /** What has completed did so in the slot that its issue reserved. */
  lemma DoneInSlot(s: State, clk: int, i: nat)
    requires Staged(s, clk) && i < Issued(s)
    ensures DoneAt(At(s, i)) >= 0 ==> DoneAt(At(s, i)) == Slot(At(s, i))
  {
    if i < |s.retired| {
      assert RetiredOk(At(s, i));
    } else {
      assert InFlightOk(s.scoreboard[i - |s.retired|], clk);
    }
  }

  /** For every trace: between cycles the byte count of the queue is at most one block below zero, and at no
      step of a cycle more than two. */
  lemma QueueBounded(cfg: Config, fetch: nat, trace: seq<Instr>, n: nat, ports: nat)
    ensures var q := Cycles(Init(cfg, fetch, trace), n).iq;
            q.newFetch && q.len + q.fetchSize >= 0
    ensures var q := IssuePorts(BeforeIssue(Cycles(Init(cfg, fetch, trace), n), n), n, ports).iq;
            q.len + 2 * q.fetchSize >= 0 && (q.newFetch ==> q.len + q.fetchSize >= 0)
  {
    hide Init, Cycles, IssuePorts, Safe, LastIssueOk;
    InitAlive(cfg, fetch, trace);
    AliveFrom(trace, Init(cfg, fetch, trace), n);
    var s := Cycles(Init(cfg, fetch, trace), n);
    BeforeIssueKeeps(s, n);
    PortsKept(BeforeIssue(s, n), n, ports);
  }

  /** A finished run has retired the whole trace. */
  lemma FinishedRetiresAll(cfg: Config, fetch: nat, trace: seq<Instr>, n: nat)
    requires Finished(Cycles(Init(cfg, fetch, trace), n))
    ensures Codes(Cycles(Init(cfg, fetch, trace), n).retired) == trace
  {
    NothingIsLost(cfg, fetch, trace, n);
    var s := Cycles(Init(cfg, fetch, trace), n);
    assert Codes(s.retired) + InFlight(s.scoreboard) + Codes(s.queue) == Codes(s.retired);
  }
}
