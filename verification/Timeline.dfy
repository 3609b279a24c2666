/**
 The trace as a state holds it: retired instructions, then those in the scoreboard, then the queue.
 Every step appends events to the instruction at one place of this line and moves its borders, so the
 invariants of the scheduler are stated over positions of the line.
 */
module Timeline {
  import opened Prelude
  import opened Isa
  import opened FunctionalUnits
  import opened FetchQueue
  import opened Scheduler

  // ---- Events of one instruction ----

  /** The cycle of the last event of a kind, -1 if there is none. */
  function CycleOf(events: seq<Event>, kind: EventKind): (r: int)
    ensures r >= -1
    decreases |events|
  {
    if events == [] then -1
    else if events[|events| - 1].kind == kind then events[|events| - 1].cycle
    else CycleOf(events[..|events| - 1], kind)
  }

  function Count(events: seq<Event>, kind: EventKind): nat
    decreases |events|
  {
    if events == [] then 0
    else Count(events[..|events| - 1], kind) + (if events[|events| - 1].kind == kind then 1 else 0)
  }

  function IssueAt(x: Instruction): int { CycleOf(x.events, Issue) }

  function DoneAt(x: Instruction): int { CycleOf(x.events, Done) }

  function CommitAt(x: Instruction): int { CycleOf(x.events, Commit) }

  /** Kinds logged while an instruction waits to issue. */
  predicate IsWaitKind(kind: EventKind) {
    kind.Waw? || kind.Raw? || kind.Bmiss? || kind.Bhit? || kind.Struct?
  }

  lemma LogCycle(x: Instruction, kind: EventKind, cycle: nat, k: EventKind)
    ensures CycleOf(x.Log(kind, cycle).events, k) == if k == kind then cycle else CycleOf(x.events, k)
    ensures Count(x.Log(kind, cycle).events, k) == Count(x.events, k) + (if k == kind then 1 else 0)
  {
    assert x.Log(kind, cycle).events[..|x.events|] == x.events;
  }

  /** Waiting leaves the record of issue, completion and commit as it was. */
  lemma {:induction false} WaitCycle(before: seq<Event>, more: seq<Event>, k: EventKind)
    requires forall j :: 0 <= j < |more| ==> IsWaitKind(more[j].kind)
    requires !IsWaitKind(k)
    ensures CycleOf(before + more, k) == CycleOf(before, k)
    ensures Count(before + more, k) == Count(before, k)
    decreases |more|
  {
    if more == [] {
      assert before + more == before;
    } else {
      assert (before + more)[..|before + more| - 1] == before + more[..|more| - 1];
      WaitCycle(before, more[..|more| - 1], k);
    }
  }

  // ---- Positions ----

  /** How many instructions have issued. */
  function Issued(s: State): nat { |s.retired| + |s.scoreboard| }

  function Total(s: State): nat { Issued(s) + |s.queue| }

  function At(s: State, i: nat): Instruction
    requires i < Total(s)
  {
    if i < |s.retired| then s.retired[i]
    else if i < Issued(s) then s.scoreboard[i - |s.retired|].instr
    else s.queue[i - Issued(s)]
  }

  /** Where the instruction goes is predicted. */
  predicate Redirects(i: Instr) { i.IsBranch() || i.IsRegJump() }

  predicate Full(s: State) { |s.scoreboard| >= s.cfg.sbLen }

  // ---- What one step does to the line ----

  /** Only wait events are appended at position `i`. */
  predicate OnlyWaits(x: Instruction, y: Instruction) {
    && y.instr == x.instr
    && |x.events| <= |y.events|
    && y.events[..|x.events|] == x.events
    && forall j :: |x.events| <= j < |y.events| ==> IsWaitKind(y.events[j].kind)
  }

  lemma OnlyWaitsKeeps(x: Instruction, y: Instruction)
    requires OnlyWaits(x, y)
    ensures forall k :: !IsWaitKind(k) ==> CycleOf(y.events, k) == CycleOf(x.events, k) && Count(y.events, k) == Count(x.events, k)
  {
    var more := y.events[|x.events|..];
    assert y.events == x.events + more;
    forall k | !IsWaitKind(k)
      ensures CycleOf(y.events, k) == CycleOf(x.events, k) && Count(y.events, k) == Count(x.events, k)
    {
      WaitCycle(x.events, more, k);
    }
  }

  /** The line after a commit. */
  lemma CommitLine(s: State, cycle: nat, port: nat)
    requires WellFormed(s) && CanCommit(s, port)
    ensures var t := TryCommit(s, cycle, port);
            && |t.retired| == |s.retired| + 1 && Issued(t) == Issued(s) && Total(t) == Total(s)
            && At(t, |s.retired|) == At(s, |s.retired|).Log(Commit, cycle)
            && (forall i :: 0 <= i < Total(s) && i != |s.retired| ==> At(t, i) == At(s, i))
            && t.scoreboard == s.scoreboard[1..]
  {
  }

  lemma ExecuteLine(s: State, cycle: nat)
    ensures var t := TryExecute(s, cycle);
            && t.retired == s.retired && |t.scoreboard| == |s.scoreboard| && t.queue == s.queue
            && (forall i :: 0 <= i < Total(s) && !(|s.retired| <= i < Issued(s)) ==> At(t, i) == At(s, i))
            && (forall k :: 0 <= k < |s.scoreboard| ==> t.scoreboard[k] == ExecuteEntry(s.scoreboard[k], cycle))
            && (forall i :: |s.retired| <= i < Issued(s) ==>
                  At(t, i) == ExecuteEntry(s.scoreboard[i - |s.retired|], cycle).instr)
  {
  }

  ghost predicate DidIssue(s: State, cycle: nat)
    requires WellFormed(s)
  {
    Issued(TryIssue(s, cycle)) == Issued(s) + 1
  }

  lemma {:induction false} HazardKinds(cfg: Config, i: Instr, sb: seq<Entry>, cycle: nat)
    ensures var h := HazardEvents(cfg, i, sb, cycle);
            && (forall j :: 0 <= j < |h| ==> IsWaitKind(h[j].kind) && h[j].cycle == cycle)
            && (h == [] <==> forall k :: 0 <= k < |sb| ==> !WawHazard(cfg, i, sb[k]) && !RawHazard(cfg, i, sb[k]))
    decreases |sb|
  {
    if sb != [] {
      HazardKinds(cfg, i, sb[..|sb| - 1], cycle);
      var e := sb[|sb| - 1];
      assert sb == sb[..|sb| - 1] + [e];
    }
  }

  /** The scan logs one RAW for each entry that writes an operand whose value is not to be had yet, and without
      renaming one WAW for each entry that writes the same register; x0 never counts. */
  lemma {:induction false} HazardLog(cfg: Config, i: Instr, sb: seq<Entry>, cycle: nat)
    ensures var h := HazardEvents(cfg, i, sb, cycle);
            && |h| == Count(h, Raw) + Count(h, Waw)
            && Count(h, Raw) == |RawEntries(cfg, i, sb)| && Count(h, Waw) == |WawEntries(cfg, i, sb)|
    decreases |sb|
  {
    hide EntryHazards, RawEntries, WawEntries, RawHazard, WawHazard, OperandPending, WritePending;
    NoEntries(cfg, i);
    if sb != [] {
      var n := |sb| - 1;
      HazardLog(cfg, i, sb[..n], cycle);
      HazardStep(HazardEvents(cfg, i, sb[..n], cycle), cfg, i, sb[n], cycle);
      HazardsArePending(cfg, i, sb[n]);
      RawEntriesNext(cfg, i, sb);
      WawEntriesNext(cfg, i, sb);
    }
  }

  lemma NoEntries(cfg: Config, i: Instr)
    ensures RawEntries(cfg, i, []) == {} && WawEntries(cfg, i, []) == {}
  {
  }

  lemma RawEntriesNext(cfg: Config, i: Instr, sb: seq<Entry>)
    requires sb != []
    ensures var n := |sb| - 1;
            |RawEntries(cfg, i, sb)| == |RawEntries(cfg, i, sb[..n])| + (if OperandPending(cfg, i, sb[n]) then 1 else 0)
  {
    hide OperandPending;
    var n := |sb| - 1;
    var before := RawEntries(cfg, i, sb[..n]);
    assert RawEntries(cfg, i, sb) == if OperandPending(cfg, i, sb[n]) then before + {n} else before;
  }

  lemma WawEntriesNext(cfg: Config, i: Instr, sb: seq<Entry>)
    requires sb != []
    ensures var n := |sb| - 1;
            |WawEntries(cfg, i, sb)| == |WawEntries(cfg, i, sb[..n])| + (if WritePending(cfg, i, sb[n]) then 1 else 0)
  {
    hide WritePending;
    var n := |sb| - 1;
    var before := WawEntries(cfg, i, sb[..n]);
    assert WawEntries(cfg, i, sb) == if WritePending(cfg, i, sb[n]) then before + {n} else before;
  }

  /** Entry `e` writes an operand of `i` other than x0, and its value cannot be had yet. */
  predicate OperandPending(cfg: Config, i: Instr, e: Entry) {
    var rd := e.instr.instr.rd;
    rd.Some? && rd.value != 0 && (i.rs1 == rd || i.rs2 == rd) && (!cfg.hasForwarding || !e.done)
  }

  /** Entry `e` writes the register that `i` writes, and it is neither x0 nor renamed. */
  predicate WritePending(cfg: Config, i: Instr, e: Entry) {
    var rd := e.instr.instr.rd;
    rd.Some? && rd.value != 0 && i.rd == rd && !cfg.hasRenaming
  }

  ghost function RawEntries(cfg: Config, i: Instr, sb: seq<Entry>): set<nat> {
    set k: nat | k < |sb| && OperandPending(cfg, i, sb[k])
  }

  ghost function WawEntries(cfg: Config, i: Instr, sb: seq<Entry>): set<nat> {
    set k: nat | k < |sb| && WritePending(cfg, i, sb[k])
  }

  lemma HazardsArePending(cfg: Config, i: Instr, e: Entry)
    ensures RawHazard(cfg, i, e) <==> OperandPending(cfg, i, e)
    ensures WawHazard(cfg, i, e) <==> WritePending(cfg, i, e)
  {
  }

  lemma HazardStep(before: seq<Event>, cfg: Config, i: Instr, e: Entry, cycle: nat)
    ensures var h := before + EntryHazards(cfg, i, e, cycle);
            && |h| == |before| + (if RawHazard(cfg, i, e) then 1 else 0) + (if WawHazard(cfg, i, e) then 1 else 0)
            && Count(h, Raw) == Count(before, Raw) + (if RawHazard(cfg, i, e) then 1 else 0)
            && Count(h, Waw) == Count(before, Waw) + (if WawHazard(cfg, i, e) then 1 else 0)
  {
    CountMore(before, Event(Waw, cycle));
    CountMore(before, Event(Raw, cycle));
    CountMore(before + [Event(Waw, cycle)], Event(Raw, cycle));
    assert before + [] == before;
    assert before + [Event(Waw, cycle)] + [Event(Raw, cycle)] == before + ([Event(Waw, cycle)] + [Event(Raw, cycle)]);
  }

  lemma CountMore(events: seq<Event>, e: Event)
    ensures forall k :: Count(events + [e], k) == Count(events, k) + (if e.kind == k then 1 else 0)
  {
    assert (events + [e])[..|events|] == events;
  }

  /** No outcome of a branch is logged. */
  predicate Quiet(events: seq<Event>) {
    forall j :: 0 <= j < |events| ==> events[j].kind != Bhit && events[j].kind != Bmiss
  }

  lemma {:induction false} QuietHazards(cfg: Config, i: Instr, sb: seq<Entry>, t: nat)
    ensures Quiet(HazardEvents(cfg, i, sb, t))
    decreases |sb|
  {
    if sb != [] { QuietHazards(cfg, i, sb[..|sb| - 1], t); }
  }

  lemma QuietTogether(cfg: Config, i: Instr, sb: seq<Entry>, fus: Fus, t: nat)
    ensures Quiet(HazardEvents(cfg, i, sb, t) + StructEvents(fus, i, t))
  {
    hide HazardEvents;
    QuietHazards(cfg, i, sb, t);
  }

  lemma BranchWaits(s: State, x: Instruction, cycle: nat)
    requires WellFormed(s)
    ensures OnlyWaits(x, IssueManageLastBranch(s.lastIssued, s.ras, s.bht, s.iq, x, cycle).0)
  {
  }

  lemma IssueOrWait(s: State, cycle: nat) returns (y: Instruction)
    requires WellFormed(s) && |s.queue| > 0
    ensures OnlyWaits(s.queue[0], y) && y.onAlu2 == s.queue[0].onAlu2
    ensures var t := TryIssue(s, cycle);
            || (t == s.(queue := [y] + s.queue[1..], iq := t.iq))
            || (exists iq: Iq :: iq.fetchSize == s.iq.fetchSize
                  && |s.scoreboard| < s.cfg.sbLen
                  && HazardEvents(s.cfg, y.instr, s.scoreboard, cycle) == []
                  && s.fus.IsReadyFor(y.instr)
                  && t == IssueEntry(s, y, iq, cycle))
  {
    if |s.scoreboard| >= s.cfg.sbLen {
      y := s.queue[0];
    } else {
      var x := s.queue[0];
      var hazards := HazardEvents(s.cfg, x.instr, s.scoreboard, cycle);
      var structs := StructEvents(s.fus, x.instr, cycle);
      HazardKinds(s.cfg, x.instr, s.scoreboard, cycle);
      var x1 := x.(events := x.events + (hazards + structs));
      BranchWaits(s, x1, cycle);
      var (z, iq) := IssueManageLastBranch(s.lastIssued, s.ras, s.bht, s.iq, x1, cycle);
      hide IssueManageLastBranch;
      y := z;
      assert OnlyWaits(x, y);
    }
  }

  lemma WaitedAt(s: State, y: Instruction, iq: Iq)
    requires |s.queue| > 0
    ensures var u := s.(queue := [y] + s.queue[1..], iq := iq);
            && Total(u) == Total(s) && At(u, Issued(s)) == y
            && (forall i :: 0 <= i < Total(s) && i != Issued(s) ==> At(u, i) == At(s, i))
  {
  }

  lemma IssuedAt(s: State, y: Instruction, iq: Iq, cycle: nat)
    requires WellFormed(s) && |s.queue| > 0 && iq.fetchSize == s.iq.fetchSize
    ensures var u := IssueEntry(s, y, iq, cycle);
            && Total(u) == Total(s) && Issued(u) == Issued(s) + 1
            && At(u, Issued(s)) == y.(onAlu2 := s.fus.TakesAlu2(y.instr)).Log(Issue, cycle)
            && (forall i :: 0 <= i < Total(s) && i != Issued(s) ==> At(u, i) == At(s, i))
  {
  }

  /** The line after an issue attempt: only its head changed, which waited and possibly issued. */
  lemma IssueLine(s: State, cycle: nat) returns (y: Instruction)
    requires WellFormed(s) && |s.queue| > 0
    ensures OnlyWaits(s.queue[0], y) && y.onAlu2 == s.queue[0].onAlu2
    ensures var t := TryIssue(s, cycle);
            && t.retired == s.retired && Total(t) == Total(s)
            && (forall i :: 0 <= i < Total(s) && i != Issued(s) ==> At(t, i) == At(s, i))
            && (if DidIssue(s, cycle) then
                  && |s.scoreboard| < s.cfg.sbLen
                  && s.fus.IsReadyFor(y.instr)
                  && (forall k :: 0 <= k < |s.scoreboard| ==>
                        !WawHazard(s.cfg, y.instr, s.scoreboard[k]) && !RawHazard(s.cfg, y.instr, s.scoreboard[k]))
                  && At(t, Issued(s)) == y.(onAlu2 := s.fus.TakesAlu2(y.instr)).Log(Issue, cycle)
                  && t.scoreboard == s.scoreboard + [Entry(At(t, Issued(s)), 0, false)]
                  && t.fus == s.fus.Issue(y.instr)
                  && t.lastIssued == Some(LastIssue(y.instr, cycle))
                  && t.ras == s.ras.Resolve(y.instr)
                else
                  && t.scoreboard == s.scoreboard && t.fus == s.fus && t.lastIssued == s.lastIssued && t.ras == s.ras
                  && At(t, Issued(s)) == y)
  {
    HazardKinds(s.cfg, s.queue[0].instr, s.scoreboard, cycle);
    y := IssueOrWait(s, cycle);
    var u := TryIssue(s, cycle);
    hide TryIssue;
    if u == s.(queue := [y] + s.queue[1..], iq := u.iq) {
      WaitedAt(s, y, u.iq);
    } else {
      var iq: Iq :| iq.fetchSize == s.iq.fetchSize && u == IssueEntry(s, y, iq, cycle);
      IssuedAt(s, y, iq, cycle);
    }
    hide At;
  }

  lemma AttemptConfig(s: State, t: nat)
    requires WellFormed(s)
    ensures TryIssue(s, t).cfg == s.cfg
  {
  }

  lemma NothingTried(s: State, t: nat)
    requires WellFormed(s) && |s.queue| == 0
    ensures TryIssue(s, t) == s
  {
  }

  lemma IssuedKept(s: State, t: nat)
    requires WellFormed(s) && |s.queue| > 0
    ensures Issued(TryIssue(s, t)) == Issued(s) + if DidIssue(s, t) then 1 else 0
    ensures forall i :: 0 <= i < Issued(s) ==> At(TryIssue(s, t), i) == At(s, i)
  {
    var y := IssueLine(s, t);
    hide TryIssue, At;
  }
}
