/**
 When an issue attempt succeeds, in terms of registers, units and bytes.
 */
module Attempts {
  import opened Prelude
  import opened Isa
  import opened Predictors
  import opened FetchQueue
  import opened FunctionalUnits
  import opened Scheduler
  import opened Timeline

  /** The instruction queue after the head has been compared with the prediction. */
  function LookedQueue(s: State, t: nat): Iq
    requires WellFormed(s) && |s.queue| > 0
  {
    IssueManageLastBranch(s.lastIssued, s.ras, s.bht, s.iq, s.queue[0], t).1
  }

  lemma HazardsIff(cfg: Config, i: Instr, sb: seq<Entry>, t: nat)
    ensures HazardEvents(cfg, i, sb, t) == []
            <==> forall k :: 0 <= k < |sb| ==> !OperandPending(cfg, i, sb[k]) && !WritePending(cfg, i, sb[k])
  {
    hide HazardEvents, RawHazard, WawHazard, OperandPending, WritePending;
    HazardKinds(cfg, i, sb, t);
    forall k | 0 <= k < |sb|
      ensures RawHazard(cfg, i, sb[k]) <==> OperandPending(cfg, i, sb[k])
      ensures WawHazard(cfg, i, sb[k]) <==> WritePending(cfg, i, sb[k])
    {
      HazardsArePending(cfg, i, sb[k]);
    }
  }

  /** The head issues if and only if there is an entry free, no operand or write is pending in the scoreboard,
      its unit is ready, and the queue holds its bytes. */
  lemma IssuesIff(s: State, t: nat)
    requires WellFormed(s) && |s.queue| > 0
    ensures var i := s.queue[0].instr;
            DidIssue(s, t)
            <==> (&& |s.scoreboard| < s.cfg.sbLen
                  && (forall k :: 0 <= k < |s.scoreboard| ==>
                        !OperandPending(s.cfg, i, s.scoreboard[k]) && !WritePending(s.cfg, i, s.scoreboard[k]))
                  && s.fus.IsReadyFor(i)
                  && LookedQueue(s, t).Has(i))
  {
    hide HazardEvents, IssueManageLastBranch, OperandPending, WritePending, Iq.Has, Iq.Remove, Fus.IsReadyFor;
    var x := s.queue[0];
    HazardsIff(s.cfg, x.instr, s.scoreboard, t);
    assert x.events + [] == x.events && x.(events := x.events) == x;
  }

  /** The queue is as it was where the instruction before runs on. */
  lemma NothingPredicted(s: State, t: nat)
    requires WellFormed(s) && |s.queue| > 0
    requires s.lastIssued.None? || !Redirects(s.lastIssued.value.instr)
    ensures LookedQueue(s, t) == s.iq
  {
  }

  /** Forwarding: a head whose older writers are all done, and which needs no second writer of a register,
      issues in this attempt, whether or not they have committed. */
  lemma ForwardedIssues(s: State, t: nat)
    requires WellFormed(s) && |s.queue| > 0 && |s.scoreboard| < s.cfg.sbLen
    requires s.cfg.hasForwarding && s.fus.IsReadyFor(s.queue[0].instr) && LookedQueue(s, t).Has(s.queue[0].instr)
    requires var i := s.queue[0].instr;
             forall k, r: nat :: 0 <= k < |s.scoreboard| && r != 0 && s.scoreboard[k].instr.instr.rd == Some(r) ==>
               && (i.rs1 == Some(r) || i.rs2 == Some(r) ==> s.scoreboard[k].done)
               && (i.rd == Some(r) ==> s.cfg.hasRenaming)
    ensures DidIssue(s, t)
  {
    hide DidIssue, LookedQueue, Iq.Has, Fus.IsReadyFor;
    IssuesIff(s, t);
    var i := s.queue[0].instr;
    forall k | 0 <= k < |s.scoreboard|
      ensures !OperandPending(s.cfg, i, s.scoreboard[k]) && !WritePending(s.cfg, i, s.scoreboard[k])
    {
      var rd := s.scoreboard[k].instr.instr.rd;
      if rd.Some? { assert rd == Some(rd.value); }
    }
  }
}
