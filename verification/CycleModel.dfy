/**
 The classes of perf-model/model.py, whose methods update their fields in place.  Each method is proved
 to compute the function of the same name in `Predictors`, `FetchQueue`, `FunctionalUnits` or
 `Scheduler` on the value that `View` gives of the object, so everything proved there holds of it.
 */
module CycleModel {
  import opened Finite
  import opened Prelude
  import opened Isa
  import P = Predictors
  import Q = FetchQueue
  import F = FunctionalUnits
  import S = Scheduler
  import T = Timeline
  import A = Attempts
  import L = Liveness

  // ---- The instruction queue ----

  class IqLen {
    const fetchSize: nat
    var len: int
    var newFetch: bool

    function View(): Q.Iq
      reads this
    {
      Q.Iq(fetchSize, len, newFetch)
    }

    constructor (requested: nat)
      ensures fetchSize == Q.FetchSizeFrom(4, requested) && fetchSize >= 4
      ensures len == fetchSize && newFetch
    {
      var size := 4;
      while size < requested
        invariant size >= 4
        invariant Q.FetchSizeFrom(size, requested) == Q.FetchSizeFrom(4, requested)
      {
        size := size * 2;
      }
      fetchSize := size;
      len := size;
      newFetch := true;
    }

    method Fetch()
      modifies this
      ensures View() == old(View()).Fetch()
    {
      len := len + fetchSize;
      newFetch := true;
    }

    method Flush()
      modifies this
      ensures View() == old(View()).Flush()
    {
      len := 0;
      newFetch := false;
    }

    method Truncate(index: nat)
      requires fetchSize > 0
      modifies this
      ensures View() == old(View()).Truncate(index)
    {
      var occupancy := fetchSize - len % fetchSize;
      var toRemove := index - occupancy;
      if toRemove < 0 {
        toRemove := toRemove + fetchSize;
      }
      len := len - toRemove;
    }

    method Jump()
      requires fetchSize > 0
      modifies this
      ensures View() == old(View()).Jump()
    {
      if newFetch {
        len := len - fetchSize;
        newFetch := false;
      }
      Truncate(0);
    }

    method Has(i: Instr) returns (b: bool)
      requires fetchSize > 0
      ensures b == View().Has(i)
    {
      var length := len;
      if i.address % fetchSize == fetchSize - 2 && !i.IsCompressed() {
        length := length - (fetchSize - 2);
      }
      b := length >= i.Size();
    }

    method Remove(i: Instr)
      requires fetchSize > 0
      modifies this
      ensures View() == old(View()).Remove(i)
    {
      len := len - i.Size();
      Truncate(i.NextAddr() % fetchSize);
      if i.IsJump() {
        Jump();
      }
    }
  }

  // ---- The return-address stack ----

  class Ras {
    const depth: nat
    var stack: seq<nat>
    var lastDropped: Option<nat>

    function View(): P.Ras
      reads this
    {
      P.Ras(depth, stack, lastDropped)
    }

    constructor (depth: nat)
      requires depth > 0
      ensures View() == P.NewRas(depth)
    {
      this.depth := depth - 1;
      stack := [];
      lastDropped := None;
    }

    method Push(addr: nat)
      modifies this
      ensures View() == old(View()).Push(addr)
    {
      stack := stack + [addr];
      if |stack| > depth {
        stack := stack[1..];
      }
    }

    method Drop()
      modifies this
      ensures View() == old(View()).Drop()
    {
      if |stack| > 0 {
        lastDropped := Some(stack[|stack| - 1]);
        stack := stack[..|stack| - 1];
      } else {
        lastDropped := None;
      }
    }

    method Read() returns (addr: Option<nat>)
      ensures addr == View().lastDropped
    {
      addr := lastDropped;
    }

    method Resolve(i: Instr)
      modifies this
      ensures View() == old(View()).Resolve(i)
    {
      if i.IsRet() {
        Drop();
      }
      if i.IsCall() {
        Push(i.NextAddr());
      }
    }
  }

  // ---- The branch history table ----

  class Bht {
    const contents: array<P.BhtEntry>

    function View(): P.Bht
      reads this, contents
    {
      contents[..]
    }

    constructor ()
      ensures View() == P.NewBht() && fresh(contents)
    {
      contents := new P.BhtEntry[P.BHT_ENTRIES](_ => P.BhtEntry(false, 0));
    }

    method Predict(addr: nat) returns (taken: Option<bool>)
      requires contents.Length > 0
      ensures taken == P.Predict(View(), addr)
    {
      var entry := contents[(addr / 2) % contents.Length];
      if entry.valid {
        return Some(entry.satCounter >= 2);
      }
      return None;
    }

    method Resolve(addr: nat, taken: bool)
      requires contents.Length > 0
      modifies contents
      ensures View() == P.Resolve(old(View()), addr, taken)
    {
      var index := (addr / 2) % contents.Length;
      var counter := contents[index].satCounter;
      if taken {
        if counter < 3 {
          counter := counter + 1;
        }
      } else {
        if counter > 0 {
          counter := counter - 1;
        }
      }
      contents[index] := P.BhtEntry(true, counter);
    }
  }

  // ---- The functional units ----

  class FusBusy {
    const hasAlu2: bool
    var alu: bool
    var mul: bool
    var branch: bool
    var ldu: bool
    var stu: bool
    var alu2: bool
    var issuedMul: bool

    function View(): F.Fus
      reads this
    {
      F.Fus(hasAlu2, alu, mul, branch, ldu, stu, alu2, issuedMul)
    }

    constructor (hasAlu2: bool)
      ensures View() == F.NewFus(hasAlu2)
    {
      this.hasAlu2 := hasAlu2;
      alu, mul, branch, ldu, stu, alu2, issuedMul := false, false, false, false, false, false, false;
    }

    predicate Alu2Ready()
      reads this
    {
      hasAlu2 && !alu2
    }

    predicate IsReadyFor(i: Instr)
      reads this
      ensures IsReadyFor(i) == View().IsReadyFor(i)
    {
      match F.ToFu(i)
      case Alu => Alu2Ready() || !alu
      case Mul => !mul
      case BranchUnit => !branch
      case Ldu => !ldu
      case Stu => !stu
    }

    /** The source asserts here that a busy first ALU is never issued to. */
    method IssueAlu()
      requires Alu2Ready() || !alu
      modifies this
      ensures View() == (if old(Alu2Ready()) then old(View()).(alu2 := true) else old(View()).(alu := true, branch := true))
    {
      if !Alu2Ready() {
        assert !alu;
        alu := true;
        branch := true;
      } else {
        alu2 := true;
      }
    }

    method IssueMul()
      modifies this
      ensures View() == old(View()).(mul := true, issuedMul := true)
    {
      mul := true;
      issuedMul := true;
    }

    method IssueBranch()
      modifies this
      ensures View() == old(View()).(alu := true, branch := true, stu := true)
    {
      alu := true;
      branch := true;
      stu := true;
    }

    method IssueLdu()
      modifies this
      ensures View() == old(View()).(ldu := true, stu := true)
    {
      ldu := true;
      stu := true;
    }

    method IssueStu()
      modifies this
      ensures View() == old(View()).(stu := true, ldu := true)
    {
      stu := true;
      ldu := true;
    }

    method Issue(i: Instr)
      requires IsReadyFor(i)
      modifies this
      ensures View() == old(View()).Issue(i)
    {
      match F.ToFu(i)
      case Alu => IssueAlu();
      case Mul => IssueMul();
      case BranchUnit => IssueBranch();
      case Ldu => IssueLdu();
      case Stu => IssueStu();
    }

    method Cycle()
      modifies this
      ensures View() == old(View()).Cycle()
    {
      alu := issuedMul;
      mul := false;
      branch := issuedMul;
      ldu := false;
      stu := false;
      alu2 := false;
      issuedMul := false;
    }
  }

  // ---- Instructions and scoreboard entries ----

  class Instruction {
    const instr: Instr
    var events: seq<S.Event>
    ghost var onAlu2: bool

    ghost function View(): S.Instruction
      reads this
    {
      S.Instruction(instr, events, onAlu2)
    }

    constructor (instr: Instr)
      ensures View() == S.Untouched(instr)
    {
      this.instr := instr;
      events := [];
      onAlu2 := false;
    }

    method Log(kind: S.EventKind, cycle: nat)
      modifies this`events
      ensures View() == old(View()).Log(kind, cycle)
    {
      events := events + [S.Event(kind, cycle)];
    }

    method Has(kind: S.EventKind) returns (b: bool)
      ensures b == View().Has(kind)
    {
      b := exists k | 0 <= k < |events| :: events[k].kind == kind;
    }
  }

  class Entry {
    const instr: Instruction
    var cyclesSinceIssue: nat
    var done: bool

    ghost function View(): S.Entry
      reads this, instr
    {
      S.Entry(instr.View(), cyclesSinceIssue, done)
    }

    constructor (instr: Instruction)
      ensures this.instr == instr && cyclesSinceIssue == 0 && !done
    {
      this.instr := instr;
      cyclesSinceIssue := 0;
      done := false;
    }
  }

  ghost function InstrsOf(sb: seq<Entry>): (r: seq<Instruction>)
    ensures |r| == |sb| && forall k :: 0 <= k < |sb| ==> r[k] == sb[k].instr
  {
    seq(|sb|, k requires 0 <= k < |sb| => sb[k].instr)
  }

  ghost function InstrViews(xs: seq<Instruction>): (r: seq<S.Instruction>)
    reads xs
    ensures |r| == |xs| && forall k :: 0 <= k < |xs| ==> r[k] == xs[k].View()
  {
    seq(|xs|, k requires 0 <= k < |xs| reads xs => xs[k].View())
  }

  ghost function EntryViews(sb: seq<Entry>): (r: seq<S.Entry>)
    reads sb, InstrsOf(sb)
    ensures |r| == |sb| && forall k :: 0 <= k < |sb| ==> r[k] == sb[k].View()
  {
    assert forall k :: 0 <= k < |sb| ==> InstrsOf(sb)[k] in InstrsOf(sb);
    seq(|sb|, k requires 0 <= k < |sb| && sb[k].instr in InstrsOf(sb) reads sb, InstrsOf(sb) => sb[k].View())
  }

  /** In a sequence without repetitions the three parts are without repetitions and disjoint. */
  lemma DistinctParts<T>(a: seq<T>, b: seq<T>, c: seq<T>)
    requires Distinct(a + b + c)
    ensures Distinct(b)
    ensures forall x | x in b :: x !in a && x !in c
    ensures forall x | x in c :: x !in a
    ensures |c| > 0 ==> c[0] !in c[1..]
  {
    var all := a + b + c;
    assert forall i | 0 <= i < |a| :: all[i] == a[i];
    assert forall i | 0 <= i < |b| :: all[|a| + i] == b[i];
    assert forall i | 0 <= i < |c| :: all[|a| + |b| + i] == c[i];
  }

  // ---- The model ----

  class Model {
    const cfg: S.Config
    const ras: Ras
    const bht: Bht
    const fus: FusBusy
    const iqlen: IqLen
    var queue: seq<Instruction>
    var scoreboard: seq<Entry>
    var lastIssued: Option<(Instruction, nat)>
    var lastCommitted: Option<Instruction>
    var retired: seq<Instruction>
    /** The instruction objects of the trace, in program order. */
    ghost const line: seq<Instruction>

    ghost predicate Valid()
      reads this, bht
    {
      && bht.contents.Length == P.BHT_ENTRIES
      && iqlen.fetchSize >= 4
      && retired + InstrsOf(scoreboard) + queue == line
      && Distinct(line)
      && Distinct(scoreboard)
    }

    function LastIssuedView(): Option<S.LastIssue>
      reads this
    {
      if lastIssued.None? then None else Some(S.LastIssue(lastIssued.value.0.instr, lastIssued.value.1))
    }

    ghost function View(): (r: S.State)
      requires Valid()
      reads this, ras, bht, bht.contents, fus, iqlen, queue, retired, scoreboard, InstrsOf(scoreboard)
      ensures S.WellFormed(r)
    {
      S.State(cfg, ras.View(), bht.View(), InstrViews(queue), EntryViews(scoreboard), fus.View(),
              LastIssuedView(),
              if lastCommitted.None? then None else Some(lastCommitted.value.instr),
              InstrViews(retired), iqlen.View())
    }

    static method LoadTrace(trace: seq<Instr>) returns (loaded: seq<Instruction>)
      ensures |loaded| == |trace| && Distinct(loaded) && fresh(loaded)
      ensures forall j :: 0 <= j < |trace| ==> loaded[j].View() == S.Untouched(trace[j])
    {
      loaded := [];
      for k := 0 to |trace|
        invariant |loaded| == k && Distinct(loaded) && fresh(loaded)
        invariant forall j :: 0 <= j < k ==> loaded[j].View() == S.Untouched(trace[j])
      {
        var x := new Instruction(trace[k]);
        loaded := loaded + [x];
      }
    }

    /** A new model, loaded with a parsed trace. */
    constructor (cfg: S.Config, requestedFetch: nat, trace: seq<Instr>)
      ensures Valid() && View() == S.Init(cfg, requestedFetch, trace)
      ensures fresh(ras) && fresh(bht) && fresh(bht.contents) && fresh(fus) && fresh(iqlen) && fresh(line)
    {
      var loaded := LoadTrace(trace);
      this.cfg := cfg;
      ras := new Ras(2);
      bht := new Bht();
      fus := new FusBusy(cfg.issueWidth > 1);
      iqlen := new IqLen(if requestedFetch != 0 then requestedFetch else 4 * cfg.issueWidth);
      queue, line := loaded, loaded;
      scoreboard, retired := [], [];
      lastIssued, lastCommitted := None, None;
      new;
      InitialView(requestedFetch, trace);
    }

    lemma InitialView(requestedFetch: nat, trace: seq<Instr>)
      requires queue == line && Distinct(line) && scoreboard == [] && retired == []
      requires lastIssued.None? && lastCommitted.None?
      requires |queue| == |trace| && forall j :: 0 <= j < |trace| ==> queue[j].View() == S.Untouched(trace[j])
      requires ras.View() == P.NewRas(2) && bht.View() == P.NewBht() && fus.View() == F.NewFus(cfg.issueWidth > 1)
      requires var size := if requestedFetch != 0 then requestedFetch else 4 * cfg.issueWidth;
               var fetchSize := Q.FetchSizeFrom(4, size);
               fetchSize >= 4 && iqlen.View() == Q.Iq(fetchSize, fetchSize, true)
      ensures Valid() && View() == S.Init(cfg, requestedFetch, trace)
    {
      assert InstrsOf(scoreboard) == [];
      assert View().queue == S.Init(cfg, requestedFetch, trace).queue;
    }

    // ---- Issue ----

    method PredictBranch(i: Instr) returns (taken: bool)
      requires Valid()
      ensures taken == S.PredictBranch(bht.View(), i)
    {
      var pred := bht.Predict(i.address);
      if pred.Some? {
        return pred.value;
      }
      return i.offset / 0x8000_0000 != 0;
    }

    method PredictRegJump(i: Instr) returns (addr: nat)
      requires Valid()
      ensures addr == S.PredictRegJump(ras.View(), i)
    {
      if i.IsRet() {
        var top := ras.Read();
        return if top.Some? then top.value else 0;
      }
      return 0;
    }

    method PredictPc(last: Instr) returns (pc: Option<int>)
      requires Valid()
      ensures pc == S.PredictPc(ras.View(), bht.View(), last)
    {
      if last.IsBranch() {
        var taken := PredictBranch(last);
        var offset := if taken then ToSigned(last.offset) else last.Size();
        return Some(last.address + offset);
      }
      if last.IsRegJump() {
        var addr := PredictRegJump(last);
        return Some(addr);
      }
      return None;
    }

    method IssueManageLastBranch(x: Instruction, cycle: nat)
      requires Valid()
      modifies x`events, iqlen
      ensures (x.View(), iqlen.View())
           == S.IssueManageLastBranch(LastIssuedView(), ras.View(), bht.View(), old(iqlen.View()), old(x.View()), cycle)
    {
      if lastIssued.Some? {
        var last := lastIssued.value.0.instr;
        var pred := PredictPc(last);
        if pred.Some? {
          var bmiss := pred.value != x.instr.address;
          var resolved := cycle >= lastIssued.value.1 + 6;
          if bmiss && !resolved {
            iqlen.Flush();
          }
          var kind := if bmiss then S.Bmiss else S.Bhit;
          var seen := x.Has(kind);
          if !seen {
            x.Log(kind, cycle);
            var taken := x.instr.address != last.NextAddr();
            if taken && !bmiss {
              iqlen.Jump();
            }
          }
        }
      }
    }

    /** One turn of the scan. */
    method FindEntryHazards(x: Instruction, entry: Entry, cycle: nat) returns (found: bool)
      requires x != entry.instr
      modifies x`events
      ensures x.events == old(x.events) + S.EntryHazards(cfg, x.instr, entry.View(), cycle)
      ensures found == (S.EntryHazards(cfg, x.instr, entry.View(), cycle) != [])
    {
      found := false;
      if x.instr.HasWawFrom(entry.instr.instr) && !cfg.hasRenaming {
        x.Log(S.Waw, cycle);
        found := true;
      }
      var canForward := cfg.hasForwarding && entry.done;
      if x.instr.HasRawFrom(entry.instr.instr) && !canForward {
        x.Log(S.Raw, cycle);
        found := true;
      }
    }

    method FindDataHazards(x: Instruction, cycle: nat) returns (found: bool)
      requires x !in InstrsOf(scoreboard)
      modifies x`events
      ensures x.events == old(x.events) + S.HazardEvents(cfg, x.instr, EntryViews(scoreboard), cycle)
      ensures found == (S.HazardEvents(cfg, x.instr, EntryViews(scoreboard), cycle) != [])
      ensures !found <==> forall k :: 0 <= k < |scoreboard| ==>
                var e := scoreboard[k].View();
                !T.OperandPending(cfg, x.instr, e) && !T.WritePending(cfg, x.instr, e)
    {
      hide S.EntryHazards, Distinct, S.WellFormed, T.OperandPending, T.WritePending;
      found := false;
      ghost var views := EntryViews(scoreboard);
      assert forall k :: 0 <= k < |scoreboard| ==> scoreboard[k].instr == InstrsOf(scoreboard)[k];
      for k := 0 to |scoreboard|
        invariant x.events == old(x.events) + S.HazardEvents(cfg, x.instr, views[..k], cycle)
        invariant found == (S.HazardEvents(cfg, x.instr, views[..k], cycle) != [])
        invariant forall j :: 0 <= j < |scoreboard| ==> views[j] == scoreboard[j].View()
      {
        assert views[..k + 1][..k] == views[..k];
        var hazard := FindEntryHazards(x, scoreboard[k], cycle);
        found := found || hazard;
      }
      assert views[..|scoreboard|] == views;
      assert EntryViews(scoreboard) == views;
      A.HazardsIff(cfg, x.instr, views, cycle);
    }

    method FindStructuralHazard(x: Instruction, cycle: nat) returns (found: bool)
      modifies x`events
      ensures x.View() == old(x.View()).(events := old(x.events) + S.StructEvents(fus.View(), x.instr, cycle))
      ensures found == (S.StructEvents(fus.View(), x.instr, cycle) != [])
    {
      if !fus.IsReadyFor(x.instr) {
        x.Log(S.Struct, cycle);
        return true;
      }
      return false;
    }

    /** The queue head is one of the trace's objects and of no entry. */
    lemma HeadAlone()
      requires Valid() && |queue| > 0
      ensures queue[0] in line && queue[0] !in retired && queue[0] !in InstrsOf(scoreboard) && queue[0] !in queue[1..]
    {
      DistinctParts(retired, InstrsOf(scoreboard), queue);
      assert queue[0] in queue;
    }

    /** The parts of the new state make up the whole. */
    lemma IssuedView(s: S.State, y: S.Instruction, cycle: nat)
      requires Valid() && S.WellFormed(s) && |s.queue| > 0 && cfg == s.cfg && s.iq.fetchSize == iqlen.fetchSize
      requires InstrViews(queue) == s.queue[1..] && InstrViews(retired) == s.retired
      requires EntryViews(scoreboard)
            == s.scoreboard + [S.Entry(y.(onAlu2 := s.fus.TakesAlu2(y.instr)).Log(S.Issue, cycle), 0, false)]
      requires iqlen.View() == s.iq.Remove(y.instr)
      requires ras.View() == s.ras.Resolve(y.instr) && fus.View() == s.fus.Issue(y.instr) && bht.View() == s.bht
      requires LastIssuedView() == Some(S.LastIssue(y.instr, cycle))
      requires s.lastCommitted == (if lastCommitted.None? then None else Some(lastCommitted.value.instr))
      ensures View() == S.IssueEntry(s, y, s.iq, cycle)
    {
    }

    lemma HeadMoves(entry: Entry)
      requires Valid() && |queue| > 0 && entry.instr == queue[0] && entry !in scoreboard
      ensures retired + InstrsOf(scoreboard + [entry]) + queue[1..] == line
      ensures Distinct(scoreboard + [entry])
    {
      assert InstrsOf(scoreboard + [entry]) == InstrsOf(scoreboard) + [queue[0]];
    }

    method MoveToScoreboard(cycle: nat) returns (entry: Entry)
      requires Valid() && |queue| > 0
      modifies `queue, `scoreboard, queue[0]
      ensures Valid() && queue == old(queue)[1..] && scoreboard == old(scoreboard) + [entry] && fresh(entry)
      ensures entry.View()
           == S.Entry(old(queue[0].View()).(onAlu2 := fus.View().TakesAlu2(old(queue)[0].instr)).Log(S.Issue, cycle), 0, false)
    {
      var x := queue[0];
      x.onAlu2 := fus.View().TakesAlu2(x.instr);
      x.Log(S.Issue, cycle);
      entry := new Entry(x);
      HeadMoves(entry);
      queue := queue[1..];
      scoreboard := scoreboard + [entry];
    }

    /** The issue of the queue head, field by field. */
    method UpdateForIssue(cycle: nat) returns (ghost entry: Entry)
      requires Valid() && |queue| > 0 && fus.IsReadyFor(queue[0].instr)
      modifies `queue, `scoreboard, `lastIssued, ras, fus, iqlen, queue[0]
      ensures Valid() && queue == old(queue)[1..] && scoreboard == old(scoreboard) + [entry] && fresh(entry)
      ensures entry.View() == S.Entry(old(queue[0].View())
                                        .(onAlu2 := old(fus.View()).TakesAlu2(old(queue)[0].instr))
                                        .Log(S.Issue, cycle), 0, false)
      ensures lastIssued == Some((old(queue)[0], cycle))
      ensures iqlen.View() == old(iqlen.View()).Remove(old(queue)[0].instr)
      ensures fus.View() == old(fus.View()).Issue(old(queue)[0].instr)
      ensures ras.View() == old(ras.View()).Resolve(old(queue)[0].instr)
    {
      hide Distinct, F.ToFu, F.Fus.Issue, F.Fus.IsReadyFor, F.Fus.TakesAlu2, Q.Iq.Remove, P.Ras.Resolve;
      var x := queue[0];
      iqlen.Remove(x.instr);
      entry := MoveToScoreboard(cycle);
      fus.Issue(x.instr);
      lastIssued := Some((x, cycle));
      ras.Resolve(x.instr);
    }

    method IssueHead(cycle: nat) returns (ghost entry: Entry)
      requires Valid() && |queue| > 0 && fus.IsReadyFor(queue[0].instr)
      modifies this, ras, fus, iqlen, queue[0]
      ensures Valid() && scoreboard == old(scoreboard) + [entry] && fresh(entry)
      ensures View() == S.IssueEntry(old(View()), old(View()).queue[0], old(View()).iq, cycle)
    {
      hide Distinct, F.Fus.Issue, F.Fus.IsReadyFor, F.Fus.TakesAlu2, Q.Iq.Remove, P.Ras.Resolve, S.IssueEntry;
      HeadAlone();
      ghost var s := View();
      entry := UpdateForIssue(cycle);
      assert InstrViews(queue) == s.queue[1..];
      assert InstrViews(retired) == s.retired;
      assert EntryViews(scoreboard) == s.scoreboard + [entry.View()];
      IssuedView(s, s.queue[0], cycle);
    }

    lemma LineMembers()
      requires Valid()
      ensures forall x | x in queue :: x in line
      ensures forall x | x in retired :: x in line
      ensures forall e | e in scoreboard :: e.instr in line && e.instr in InstrsOf(scoreboard)
    {
      forall e | e in scoreboard ensures e.instr in line && e.instr in InstrsOf(scoreboard) {
        var k :| 0 <= k < |scoreboard| && scoreboard[k] == e;
        assert InstrsOf(scoreboard)[k] == e.instr;
      }
    }

    /** The checks on the queue head; `clear` when no hazard was found. */
    method CheckHead(cycle: nat) returns (clear: bool)
      requires Valid() && |queue| > 0
      modifies (queue[0] as Instruction)`events, iqlen
      ensures var s := old(View());
              var hazards := S.HazardEvents(cfg, queue[0].instr, s.scoreboard, cycle)
                             + S.StructEvents(s.fus, queue[0].instr, cycle);
              && clear == (hazards == [])
              && (queue[0].View(), iqlen.View())
                 == S.IssueManageLastBranch(s.lastIssued, s.ras, s.bht, s.iq,
                                           s.queue[0].(events := s.queue[0].events + hazards), cycle)
    {
      hide S.IssueManageLastBranch, S.HazardEvents, S.StructEvents, Distinct;
      HeadAlone();
      clear := true;
      var x := queue[0];
      var hazard := FindDataHazards(x, cycle);
      if hazard {
        clear := false;
      }
      hazard := FindStructuralHazard(x, cycle);
      if hazard {
        clear := false;
      }
      assert x.View() == old(x.View()).(events := old(x.events)
        + (S.HazardEvents(cfg, x.instr, old(View()).scoreboard, cycle) + S.StructEvents(fus.View(), x.instr, cycle)));
      IssueManageLastBranch(x, cycle);
    }

    method WaitOnHead(cycle: nat) returns (canIssue: bool)
      requires Valid() && |queue| > 0
      modifies (queue[0] as Instruction)`events, iqlen
      ensures var s := old(View());
              var hazards := S.HazardEvents(cfg, queue[0].instr, s.scoreboard, cycle)
                             + S.StructEvents(s.fus, queue[0].instr, cycle);
              var (y, iq) := S.IssueManageLastBranch(s.lastIssued, s.ras, s.bht, s.iq,
                                           s.queue[0].(events := s.queue[0].events + hazards), cycle);
              && canIssue == (hazards == [] && iq.Has(queue[0].instr))
              && Valid() && View() == s.(queue := [y] + s.queue[1..], iq := iq)
    {
      hide S.IssueManageLastBranch, S.HazardEvents, S.StructEvents, Distinct;
      HeadAlone();
      LineMembers();
      ghost var s := View();
      canIssue := CheckHead(cycle);
      var enough := iqlen.Has(queue[0].instr);
      if !enough {
        canIssue := false;
      }
      assert InstrViews(queue) == [queue[0].View()] + s.queue[1..];
      assert InstrViews(retired) == s.retired;
      assert EntryViews(scoreboard) == s.scoreboard;
    }

    /** The attempt in two stages: the head's log and the byte count first, then the issue. */
    lemma TryIssueIs(s: S.State, cycle: nat)
      requires S.WellFormed(s)
      ensures |s.queue| == 0 || |s.scoreboard| >= s.cfg.sbLen ==> S.TryIssue(s, cycle) == s
      ensures |s.queue| > 0 && |s.scoreboard| < s.cfg.sbLen ==>
                var x := s.queue[0];
                var hazards := S.HazardEvents(s.cfg, x.instr, s.scoreboard, cycle) + S.StructEvents(s.fus, x.instr, cycle);
                var (y, iq) := S.IssueManageLastBranch(s.lastIssued, s.ras, s.bht, s.iq,
                                                       x.(events := x.events + hazards), cycle);
                var w := s.(queue := [y] + s.queue[1..], iq := iq);
                && (hazards == [] ==> s.fus.IsReadyFor(x.instr))
                && S.TryIssue(s, cycle)
                   == if hazards == [] && iq.Has(y.instr) then S.IssueEntry(w, w.queue[0], w.iq, cycle) else w
    {
      hide S.IssueManageLastBranch, S.HazardEvents;
    }

    /** What the value of the model says of its fields. */
    lemma ViewFacts()
      requires Valid()
      ensures View().cfg == cfg && View().iq == iqlen.View() && View().fus == fus.View()
      ensures |View().queue| == |queue| && |View().scoreboard| == |scoreboard|
      ensures |queue| > 0 ==> View().queue[0] == queue[0].View() && View().queue[0].instr == queue[0].instr
      ensures iqlen.fetchSize > 0
    {
    }

    method AttemptHead(cycle: nat)
      requires Valid() && |queue| > 0 && |scoreboard| < cfg.sbLen
      modifies this, ras, fus, iqlen, queue[0]
      ensures Valid() && View() == S.TryIssue(old(View()), cycle)
      ensures forall e | e in scoreboard :: e in old(scoreboard) || fresh(e)
    {
      hide *;
      ghost var s := View();
      ViewFacts();
      TryIssueIs(s, cycle);
      var canIssue := WaitOnHead(cycle);
      ViewFacts();
      if canIssue {
        ghost var entry := IssueHead(cycle);
      }
    }

    method TryIssue(cycle: nat)
      requires Valid()
      modifies this, ras, fus, iqlen, line
      ensures Valid() && View() == S.TryIssue(old(View()), cycle)
      ensures forall e | e in scoreboard :: e in old(scoreboard) || fresh(e)
    {
      hide *;
      ViewFacts();
      TryIssueIs(View(), cycle);
      if |queue| == 0 || |scoreboard| >= cfg.sbLen {
        return;
      }
      HeadAlone();
      AttemptHead(cycle);
    }

    // ---- Execute ----

    method ExecuteEntry(entry: Entry, cycle: nat)
      modifies entry, entry.instr`events
      ensures entry.View() == S.ExecuteEntry(old(entry.View()), cycle)
    {
      entry.cyclesSinceIssue := entry.cyclesSinceIssue + 1;
      var instr := entry.instr.instr;
      var duration := 1;
      if instr.IsLoad() || instr.IsStore() {
        duration := 2;
      }
      if instr.IsMulDiv() {
        duration := 2;
      }
      if entry.cyclesSinceIssue == duration {
        entry.instr.Log(S.Done, cycle);
        entry.done := true;
      }
    }

    /** No two entries share an instruction, and none is queued or retired. */
    lemma EntriesApart()
      requires Valid()
      ensures Distinct(InstrsOf(scoreboard))
      ensures forall x | x in InstrsOf(scoreboard) :: x !in queue && x !in retired
      ensures forall k | 0 <= k < |scoreboard| :: scoreboard[k].instr in InstrsOf(scoreboard)
    {
      DistinctParts(retired, InstrsOf(scoreboard), queue);
      assert forall k | 0 <= k < |scoreboard| :: scoreboard[k].instr == InstrsOf(scoreboard)[k];
    }

    method TryExecute(cycle: nat)
      requires Valid()
      modifies scoreboard, line
      ensures Valid() && View() == S.TryExecute(old(View()), cycle)
    {
      EntriesApart();
      LineMembers();
      ghost var s := View();
      ExecuteAll(cycle);
      assert InstrViews(queue) == s.queue;
      assert InstrViews(retired) == s.retired;
      assert EntryViews(scoreboard) == S.TryExecute(s, cycle).scoreboard;
    }

    method ExecuteAll(cycle: nat)
      requires Distinct(scoreboard) && Distinct(InstrsOf(scoreboard))
      modifies scoreboard, InstrsOf(scoreboard)
      ensures forall j :: 0 <= j < |scoreboard| ==>
                scoreboard[j].View() == S.ExecuteEntry(old(EntryViews(scoreboard))[j], cycle)
    {
      ghost var views := EntryViews(scoreboard);
      assert forall k | 0 <= k < |scoreboard| :: scoreboard[k].instr == InstrsOf(scoreboard)[k];
      for k := 0 to |scoreboard|
        invariant forall j :: 0 <= j < k ==> scoreboard[j].View() == S.ExecuteEntry(views[j], cycle)
        invariant forall j :: k <= j < |scoreboard| ==> scoreboard[j].View() == views[j]
      {
        ExecuteEntry(scoreboard[k], cycle);
      }
    }

    // ---- Commit ----

    method CommitManageLastBranch(x: Instruction)
      requires Valid()
      modifies bht.contents, `lastCommitted
      ensures bht.View() == (if old(lastCommitted).Some? && old(lastCommitted).value.instr.IsBranch()
                             then P.Resolve(old(bht.View()), old(lastCommitted).value.instr.address,
                                            x.instr.address != old(lastCommitted).value.instr.NextAddr())
                             else old(bht.View()))
      ensures lastCommitted == Some(x)
    {
      if lastCommitted.Some? {
        var last := lastCommitted.value.instr;
        if last.IsBranch() {
          var taken := x.instr.address != last.NextAddr();
          bht.Resolve(last.address, taken);
        }
      }
      lastCommitted := Some(x);
    }

    lemma HeadRetires()
      requires Valid() && |scoreboard| > 0
      ensures retired + [scoreboard[0].instr] + InstrsOf(scoreboard[1..]) + queue == line
      ensures Distinct(scoreboard[1..])
      ensures scoreboard[0].instr !in queue && scoreboard[0].instr !in retired && scoreboard[0].instr in line
      ensures forall e | e in scoreboard[1..] :: e.instr != scoreboard[0].instr
    {
      EntriesApart();
      assert InstrsOf(scoreboard) == [scoreboard[0].instr] + InstrsOf(scoreboard[1..]);
      forall e | e in scoreboard[1..] ensures e.instr != scoreboard[0].instr {
        var k :| 0 <= k < |scoreboard| - 1 && scoreboard[1..][k] == e;
        assert InstrsOf(scoreboard)[k + 1] == e.instr;
      }
      assert line[|retired|] == scoreboard[0].instr;
    }

    method RetireHead(cycle: nat)
      requires Valid() && |scoreboard| > 0
      modifies `scoreboard, `retired, `lastCommitted, bht.contents, scoreboard[0].instr
      ensures Valid() && scoreboard == old(scoreboard)[1..]
      ensures var x := old(scoreboard)[0].instr;
              && retired == old(retired) + [x] && x.View() == old(x.View()).Log(S.Commit, cycle)
              && lastCommitted == Some(x)
              && bht.View() == (if old(lastCommitted).Some? && old(lastCommitted).value.instr.IsBranch()
                                then P.Resolve(old(bht.View()), old(lastCommitted).value.instr.address,
                                               x.instr.address != old(lastCommitted).value.instr.NextAddr())
                                else old(bht.View()))
    {
      HeadRetires();
      var x := scoreboard[0].instr;
      scoreboard := scoreboard[1..];
      x.Log(S.Commit, cycle);
      retired := retired + [x];
      assert Valid();
      CommitManageLastBranch(x);
    }

    method CommitHead(cycle: nat)
      requires Valid() && |scoreboard| > 0
      modifies `scoreboard, `retired, `lastCommitted, bht.contents, scoreboard[0].instr
      ensures Valid() && scoreboard == old(scoreboard)[1..]
      ensures var s := old(View());
              var x := s.scoreboard[0].instr.Log(S.Commit, cycle);
              View() == S.CommitManageLastBranch(s.(scoreboard := s.scoreboard[1..], retired := s.retired + [x]), x.instr)
    {
      hide P.Resolve, Distinct;
      HeadRetires();
      ghost var s := View();
      var x := scoreboard[0].instr;
      RetireHead(cycle);
      assert InstrViews(queue) == s.queue;
      assert InstrViews(retired) == s.retired + [x.View()];
      assert EntryViews(scoreboard) == s.scoreboard[1..];
    }

    /** What the value of the model says of the entry that may commit. */
    lemma EntryFacts()
      requires Valid()
      ensures |View().scoreboard| == |scoreboard|
      ensures |scoreboard| > 0 ==> View().scoreboard[0].done == scoreboard[0].done
                                   && View().scoreboard[0].instr.instr == scoreboard[0].instr.instr
    {
    }

    lemma TryCommitIs(s: S.State, cycle: nat, port: nat)
      requires S.WellFormed(s)
      ensures |s.scoreboard| > 0 && s.scoreboard[0].done && !(port > 0 && s.scoreboard[0].instr.instr.IsStore()) ==>
                var x := s.scoreboard[0].instr.Log(S.Commit, cycle);
                S.TryCommit(s, cycle, port)
                == S.CommitManageLastBranch(s.(scoreboard := s.scoreboard[1..], retired := s.retired + [x]), x.instr)
      ensures !(|s.scoreboard| > 0 && s.scoreboard[0].done && !(port > 0 && s.scoreboard[0].instr.instr.IsStore())) ==>
                S.TryCommit(s, cycle, port) == s
    {
      hide S.CommitManageLastBranch;
    }

    method TryCommit(cycle: nat, port: nat)
      requires Valid()
      modifies this, bht.contents, line
      ensures Valid() && View() == S.TryCommit(old(View()), cycle, port)
      ensures forall e | e in scoreboard :: e in old(scoreboard)
    {
      hide *;
      EntryFacts();
      TryCommitIs(View(), cycle, port);
      if |scoreboard| == 0 {
        return;
      }
      var entry := scoreboard[0];
      var canCommit := true;
      if port > 0 {
        if entry.instr.instr.IsStore() {
          canCommit := false;
        }
      }
      if !entry.done {
        canCommit := false;
      }
      if canCommit {
        HeadRetires();
        CommitHead(cycle);
      }
    }

    // ---- Cycles and runs ----

    method CommitPorts(cycle: nat)
      requires Valid()
      modifies this, bht.contents, line
      ensures Valid() && View() == S.CommitPorts(old(View()), cycle, cfg.commitWidth)
      ensures forall e | e in scoreboard :: e in old(scoreboard)
    {
      for port := 0 to cfg.commitWidth
        invariant Valid() && View() == S.CommitPorts(old(View()), cycle, port)
        invariant forall e | e in scoreboard :: e in old(scoreboard)
      {
        TryCommit(cycle, port);
      }
    }

    method IssuePorts(cycle: nat)
      requires Valid()
      modifies this, ras, fus, iqlen, line
      ensures Valid() && View() == S.IssuePorts(old(View()), cycle, cfg.issueWidth)
      ensures forall e | e in scoreboard :: e in old(scoreboard) || fresh(e)
    {
      for port := 0 to cfg.issueWidth
        invariant Valid() && View() == S.IssuePorts(old(View()), cycle, port)
        invariant forall e | e in scoreboard :: e in old(scoreboard) || fresh(e)
      {
        TryIssue(cycle);
      }
    }

    method CycleUnits()
      requires Valid()
      modifies fus
      ensures Valid() && View() == old(View()).(fus := old(View()).fus.Cycle())
    {
      ghost var s := View();
      fus.Cycle();
      assert InstrViews(queue) == s.queue && InstrViews(retired) == s.retired && EntryViews(scoreboard) == s.scoreboard;
    }

    method FetchBytes()
      requires Valid()
      modifies iqlen
      ensures Valid() && View() == old(View()).(iq := old(View()).iq.Fetch())
    {
      ghost var s := View();
      iqlen.Fetch();
      assert InstrViews(queue) == s.queue && InstrViews(retired) == s.retired && EntryViews(scoreboard) == s.scoreboard;
    }

    method RunCycle(cycle: nat)
      requires Valid()
      modifies this, ras, bht.contents, fus, iqlen, line, scoreboard
      ensures Valid() && View() == S.RunCycle(old(View()), cycle)
      ensures forall e | e in scoreboard :: e in old(scoreboard) || fresh(e)
    {
      hide Distinct, S.CommitPorts, S.TryExecute, S.IssuePorts;
      CycleUnits();
      CommitPorts(cycle);
      assert forall k | 0 <= k < |scoreboard| :: scoreboard[k] in old(scoreboard);
      TryExecute(cycle);
      IssuePorts(cycle);
      FetchBytes();
    }

    method NextCycle(ghost trace: seq<Instr>, ghost s: S.State, cycle: nat)
      requires Valid() && S.WellFormed(s) && L.Alive(trace, s, 0) && View() == S.Cycles(s, cycle)
      requires |queue| > 0 || |scoreboard| > 0
      modifies this, ras, bht.contents, fus, iqlen, line, scoreboard
      ensures Valid() && View() == S.Cycles(s, cycle + 1)
      ensures L.CanRun(cfg) ==> L.Rank(View(), cycle + 1) < L.Rank(old(View()), cycle)
      ensures forall e | e in scoreboard :: e in old(scoreboard) || fresh(e)
    {
      ghost var u := View();
      assert !S.Finished(u);
      if L.CanRun(cfg) {
        L.AliveFrom(trace, s, cycle);
        L.RankFalls(trace, u, cycle);
      }
      hide L.Alive, L.Rank, S.RunCycle;
      RunCycle(cycle);
    }

    /** Runs until completion, or until more than `limit` cycles have passed.  With no limit the source
        loops for ever on a model that cannot run, so the caller must have one that can. */
    method Run(limit: Option<nat>, ghost trace: seq<Instr>) returns (cycle: nat)
      requires Valid() && L.Alive(trace, View(), 0)
      requires limit.Some? || L.CanRun(cfg) || (queue == [] && scoreboard == [])
      modifies this, ras, bht.contents, fus, iqlen, line, scoreboard
      ensures Valid() && View() == S.Cycles(old(View()), cycle)
      ensures limit.None? ==> S.Finished(View()) && retired == line
      ensures limit.Some? ==> cycle <= limit.value + 1 && (S.Finished(View()) || cycle == limit.value + 1)
      ensures L.CanRun(cfg) ==> cycle <= L.Rank(old(View()), 0)
    {
      hide *;
      ghost var s := View();
      cycle := 0;
      L.NoCycles(s);
      AllRetired();
      while |queue| > 0 || |scoreboard| > 0
        invariant Valid() && View() == S.Cycles(s, cycle)
        invariant forall e | e in scoreboard :: e in old(scoreboard) || fresh(e)
        invariant L.CanRun(cfg) ==> cycle + L.Rank(View(), cycle) <= L.Rank(s, 0)
        invariant limit.Some? ==> cycle <= limit.value
        invariant limit.Some? || L.CanRun(cfg) || (queue == [] && scoreboard == [])
        decreases if limit.Some? then limit.value - cycle else L.Rank(View(), cycle)
      {
        assert forall k | 0 <= k < |scoreboard| :: scoreboard[k] in old(scoreboard) || fresh(scoreboard[k]);
        NextCycle(trace, s, cycle);
        cycle := cycle + 1;
        if limit.Some? && cycle > limit.value {
          break;
        }
      }
      AllRetired();
    }

    lemma AllRetired()
      requires Valid()
      ensures S.Finished(View()) <==> queue == [] && scoreboard == []
      ensures S.Finished(View()) ==> retired == line
    {
      if S.Finished(View()) {
        assert InstrsOf(scoreboard) == [] && queue == [];
        assert retired + [] + [] == retired;
      }
    }
  }

  /** A model that is constructed, loaded and run to completion. */
  method Simulate(cfg: S.Config, requestedFetch: nat, trace: seq<Instr>) returns (m: Model, cycles: nat)
    requires L.CanRun(cfg) || trace == []
    ensures m.Valid() && m.View() == S.Cycles(S.Init(cfg, requestedFetch, trace), cycles)
    ensures S.Finished(m.View()) && m.retired == m.line
    ensures L.CanRun(cfg) ==> cycles <= (cfg.sbLen + 10) * |trace| + 2
  {
    m := new Model(cfg, requestedFetch, trace);
    L.InitAlive(cfg, requestedFetch, trace);
    assert m.queue == [] || L.CanRun(m.cfg);
    hide L.Alive, S.Cycles, L.Rank;
    cycles := m.Run(None, trace);
  }
}
