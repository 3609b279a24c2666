/**
 The CVA6 scheduler of perf-model/model.py as a function on states: one cycle commits through the
 commit ports in order, executes, then makes one issue attempt per issue port and fetches.
 `CycleModel.dfy` holds the imperative form, which is proved to compute these functions.
 */
module Scheduler {
  import opened Prelude
  import opened Isa
  import opened Predictors
  import opened FetchQueue
  import opened FunctionalUnits

  // ---- Data model ----

  datatype EventKind = Waw | War | Raw | Bmiss | Bhit | Struct | Issue | Done | Commit

  datatype Event = Event(kind: EventKind, cycle: nat)

  /** A traced instruction with its annotations.  `onAlu2` records which ALU the issue step chose; the
      scheduler never reads it. */
  datatype Instruction = Instruction(instr: Instr, events: seq<Event>, onAlu2: bool) {

    function Log(kind: EventKind, cycle: nat): Instruction {
      this.(events := events + [Event(kind, cycle)])
    }

    predicate Has(kind: EventKind) {
      exists k | 0 <= k < |events| :: events[k].kind == kind
    }
  }

  datatype Entry = Entry(instr: Instruction, cyclesSinceIssue: nat, done: bool)

  datatype LastIssue = LastIssue(instr: Instr, issueCycle: nat)

  datatype Config = Config(
    issueWidth: nat,
    commitWidth: nat,
    sbLen: nat,
    hasForwarding: bool,
    hasRenaming: bool)

  datatype State = State(
    cfg: Config,
    ras: Ras,
    bht: Bht,
    queue: seq<Instruction>,
    scoreboard: seq<Entry>,
    fus: Fus,
    lastIssued: Option<LastIssue>,
    lastCommitted: Option<Instr>,
    retired: seq<Instruction>,
    iq: Iq)

  /** What the code needs so that no index or modulus is undefined. */
  predicate WellFormed(s: State) {
    |s.bht| == BHT_ENTRIES && s.iq.fetchSize > 0
  }

  function Untouched(i: Instr): Instruction {
    Instruction(i, [], false)
  }

  /** A model just constructed and loaded with a trace; a requested fetch size of 0 means the default. */
  function Init(cfg: Config, requestedFetch: nat, trace: seq<Instr>): (s: State)
    ensures WellFormed(s) && s.cfg == cfg && s.iq.fetchSize >= 4
  {
    var fetchSize := FetchSizeFrom(4, if requestedFetch != 0 then requestedFetch else 4 * cfg.issueWidth);
    assert fetchSize >= 4 by { FetchSizeOk(if requestedFetch != 0 then requestedFetch else 4 * cfg.issueWidth); }
    State(cfg, NewRas(2), NewBht(), seq(|trace|, k requires 0 <= k < |trace| => Untouched(trace[k])), [],
          NewFus(cfg.issueWidth > 1), None, None, [], Iq(fetchSize, fetchSize, true))
  }

  // ---- Branch prediction ----

  function PredictBranch(bht: Bht, i: Instr): bool
    requires |bht| > 0
  {
    match Predict(bht, i.address)
    case Some(pred) => pred
    case None => i.offset / 0x8000_0000 != 0
  }

  function PredictRegJump(ras: Ras, i: Instr): nat {
    if i.IsRet() && ras.lastDropped.Some? then ras.lastDropped.value else 0
  }

  function PredictPc(ras: Ras, bht: Bht, last: Instr): Option<int>
    requires |bht| > 0
  {
    if last.IsBranch() then
      Some(last.address + if PredictBranch(bht, last) then ToSigned(last.offset) else last.Size())
    else if last.IsRegJump() then Some(PredictRegJump(ras, last))
    else None
  }

  /** `issue_manage_last_branch`: flush the queue on an unresolved miss; the first time a kind of
      outcome is seen, log it, and on a hit of a taken branch lose the fetch behind it. */
  function IssueManageLastBranch(
      lastIssued: Option<LastIssue>, ras: Ras, bht: Bht, iq: Iq, x: Instruction, cycle: nat): (r: (Instruction, Iq))
    requires |bht| > 0 && iq.fetchSize > 0
    ensures r.0.instr == x.instr && r.1.fetchSize == iq.fetchSize
  {
    if lastIssued.None? then (x, iq)
    else
      var last := lastIssued.value.instr;
      var pred := PredictPc(ras, bht, last);
      if pred.None? then (x, iq)
      else
        var bmiss := pred.value != x.instr.address;
        var resolved := cycle >= lastIssued.value.issueCycle + 6;
        var flushed := if bmiss && !resolved then iq.Flush() else iq;
        var kind := if bmiss then Bmiss else Bhit;
        if x.Has(kind) then (x, flushed)
        else
          var taken := x.instr.address != last.NextAddr();
          (x.Log(kind, cycle), if taken && !bmiss then flushed.Jump() else flushed)
  }

  function CommitManageLastBranch(s: State, i: Instr): (r: State)
    requires WellFormed(s)
    ensures WellFormed(r)
    ensures r == s.(bht := r.bht, lastCommitted := r.lastCommitted)
  {
    var bht :=
      if s.lastCommitted.Some? && s.lastCommitted.value.IsBranch() then
        var last := s.lastCommitted.value;
        Resolve(s.bht, last.address, i.address != last.NextAddr())
      else s.bht;
    s.(bht := bht, lastCommitted := Some(i))
  }

  // ---- Hazards ----

  predicate WawHazard(cfg: Config, i: Instr, e: Entry) {
    i.HasWawFrom(e.instr.instr) && !cfg.hasRenaming
  }

  predicate RawHazard(cfg: Config, i: Instr, e: Entry) {
    i.HasRawFrom(e.instr.instr) && !(cfg.hasForwarding && e.done)
  }

  /** What the scan logs for one entry. */
  function EntryHazards(cfg: Config, i: Instr, e: Entry, cycle: nat): seq<Event> {
    (if WawHazard(cfg, i, e) then [Event(Waw, cycle)] else [])
    + (if RawHazard(cfg, i, e) then [Event(Raw, cycle)] else [])
  }

  /** The events that `find_data_hazards` logs, scanning the scoreboard from its head. */
  function HazardEvents(cfg: Config, i: Instr, sb: seq<Entry>, cycle: nat): seq<Event>
    decreases |sb|
  {
    if sb == [] then []
    else HazardEvents(cfg, i, sb[..|sb| - 1], cycle) + EntryHazards(cfg, i, sb[|sb| - 1], cycle)
  }

  function StructEvents(fus: Fus, i: Instr, cycle: nat): seq<Event> {
    if fus.IsReadyFor(i) then [] else [Event(Struct, cycle)]
  }

  // ---- The steps of a cycle ----

  function IssueEntry(s: State, x: Instruction, iq: Iq, cycle: nat): (r: State)
    requires WellFormed(s) && iq.fetchSize == s.iq.fetchSize && |s.queue| > 0
    ensures WellFormed(r)
  {
    var issued := x.(onAlu2 := s.fus.TakesAlu2(x.instr)).Log(Issue, cycle);
    s.(iq := iq.Remove(x.instr),
       queue := s.queue[1..],
       scoreboard := s.scoreboard + [Entry(issued, 0, false)],
       fus := s.fus.Issue(x.instr),
       lastIssued := Some(LastIssue(x.instr, cycle)),
       ras := s.ras.Resolve(x.instr))
  }

  function TryIssue(s: State, cycle: nat): (r: State)
    requires WellFormed(s)
    ensures WellFormed(r)
  {
    if |s.queue| == 0 || |s.scoreboard| >= s.cfg.sbLen then s
    else
      var x := s.queue[0];
      var hazards := HazardEvents(s.cfg, x.instr, s.scoreboard, cycle) + StructEvents(s.fus, x.instr, cycle);
      var (y, iq) := IssueManageLastBranch(s.lastIssued, s.ras, s.bht, s.iq, x.(events := x.events + hazards), cycle);
      if hazards == [] && iq.Has(y.instr)
      then IssueEntry(s, y, iq, cycle)
      else s.(queue := [y] + s.queue[1..], iq := iq)
  }

  function ExecuteEntry(e: Entry, cycle: nat): Entry {
    if e.cyclesSinceIssue + 1 == e.instr.instr.Duration()
    then Entry(e.instr.Log(Done, cycle), e.cyclesSinceIssue + 1, true)
    else e.(cyclesSinceIssue := e.cyclesSinceIssue + 1)
  }

  function TryExecute(s: State, cycle: nat): State {
    s.(scoreboard := seq(|s.scoreboard|, k requires 0 <= k < |s.scoreboard| => ExecuteEntry(s.scoreboard[k], cycle)))
  }

  predicate CanCommit(s: State, port: nat) {
    && |s.scoreboard| > 0
    && !(port > 0 && s.scoreboard[0].instr.instr.IsStore())
    && s.scoreboard[0].done
  }

  function TryCommit(s: State, cycle: nat, port: nat): (r: State)
    requires WellFormed(s)
    ensures WellFormed(r)
  {
    if !CanCommit(s, port) then s
    else
      var x := s.scoreboard[0].instr.Log(Commit, cycle);
      CommitManageLastBranch(s.(scoreboard := s.scoreboard[1..], retired := s.retired + [x]), x.instr)
  }

  /** The first `ports` commit attempts of a cycle. */
  function CommitPorts(s: State, cycle: nat, ports: nat): (r: State)
    requires WellFormed(s)
    ensures WellFormed(r)
    decreases ports
  {
    if ports == 0 then s else TryCommit(CommitPorts(s, cycle, ports - 1), cycle, ports - 1)
  }

  /** The first `ports` issue attempts of a cycle. */
  function IssuePorts(s: State, cycle: nat, ports: nat): (r: State)
    requires WellFormed(s)
    ensures WellFormed(r)
    decreases ports
  {
    if ports == 0 then s else TryIssue(IssuePorts(s, cycle, ports - 1), cycle)
  }

  function RunCycle(s: State, cycle: nat): (r: State)
    requires WellFormed(s)
    ensures WellFormed(r)
  {
    var s1 := s.(fus := s.fus.Cycle());
    var s2 := CommitPorts(s1, cycle, s.cfg.commitWidth);
    var s3 := TryExecute(s2, cycle);
    var s4 := IssuePorts(s3, cycle, s.cfg.issueWidth);
    s4.(iq := s4.iq.Fetch())
  }

  /** The state after `n` cycles, numbered from 0. */
  function Cycles(s: State, n: nat): (r: State)
    requires WellFormed(s)
    ensures WellFormed(r)
    decreases n
  {
    if n == 0 then s else RunCycle(Cycles(s, n - 1), n - 1)
  }

  predicate Finished(s: State) {
    |s.queue| == 0 && |s.scoreboard| == 0
  }
}
