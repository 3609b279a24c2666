/**
 The return-address stack and the branch history table of perf-model/model.py, as values.
 */
module Predictors {
  import opened Prelude
  import opened Isa

  // ---- Return-address stack ----

  datatype Ras = Ras(depth: nat, stack: seq<nat>, lastDropped: Option<nat>) {

    function Push(addr: nat): Ras {
      var grown := stack + [addr];
      this.(stack := if |grown| > depth then grown[1..] else grown)
    }

    function Drop(): Ras {
      if |stack| > 0
      then this.(stack := stack[..|stack| - 1], lastDropped := Some(stack[|stack| - 1]))
      else this.(lastDropped := None)
    }

    /** A return pops, then a call pushes its return address. */
    function Resolve(i: Instr): Ras {
      var popped := if i.IsRet() then Drop() else this;
      if i.IsCall() then popped.Push(i.NextAddr()) else popped
    }
  }

  /** The stack that `Ras(depth)` of the source starts with keeps `depth - 1` addresses. */
  function NewRas(depth: nat): Ras
    requires depth > 0
  {
    Ras(depth - 1, [], None)
  }

  /** The stack after a sequence of instructions, in program order. */
  function RasAfter(r: Ras, trace: seq<Instr>): Ras
    decreases |trace|
  {
    if trace == [] then r else RasAfter(r, trace[..|trace| - 1]).Resolve(trace[|trace| - 1])
  }

  // ---- Branch history table ----

  datatype BhtEntry = BhtEntry(valid: bool, satCounter: nat)

  type Bht = seq<BhtEntry>

  const BHT_ENTRIES := 128

  function NewBht(): Bht {
    seq(BHT_ENTRIES, _ => BhtEntry(false, 0))
  }

  function BhtIndex(t: Bht, addr: nat): nat
    requires |t| > 0
    ensures BhtIndex(t, addr) < |t|
  {
    (addr / 2) % |t|
  }

  function Predict(t: Bht, addr: nat): Option<bool>
    requires |t| > 0
  {
    var entry := t[BhtIndex(t, addr)];
    if entry.valid then Some(entry.satCounter >= 2) else None
  }

  function Resolve(t: Bht, addr: nat, taken: bool): (r: Bht)
    requires |t| > 0
    ensures |r| == |t|
  {
    var k := BhtIndex(t, addr);
    var c := t[k].satCounter;
    t[k := BhtEntry(true,
                    if taken then (if c < 3 then c + 1 else c)
                    else (if c > 0 then c - 1 else c))]
  }

  /** The table after a committed sequence: each branch is resolved against its successor's address. */
  function BhtAfter(t: Bht, trace: seq<Instr>): (r: Bht)
    requires |t| > 0
    ensures |r| == |t|
    decreases |trace|
  {
    if |trace| <= 1 then t
    else
      var last, prev := trace[|trace| - 1], trace[|trace| - 2];
      var before := BhtAfter(t, trace[..|trace| - 1]);
      if prev.IsBranch() then Resolve(before, prev.address, last.address != prev.NextAddr()) else before
  }

  // ---- What the table learns ----

  ghost predicate Saturating(t: Bht) {
    |t| > 0 && forall k :: 0 <= k < |t| ==> t[k].satCounter <= 3
  }

  /** One resolution changes the entry of its address only, whose counter moves by at most one, towards the
      outcome, and rests at 0 and 3. */
  lemma ResolveOne(t: Bht, addr: nat, taken: bool)
    requires Saturating(t)
    ensures var r, a := Resolve(t, addr, taken), (addr / 2) % |t|;
            && Saturating(r) && |r| == |t|
            && (forall k :: 0 <= k < |t| && k != a ==> r[k] == t[k])
            && r[a].valid && (t[a].satCounter == r[a].satCounter <==> t[a].satCounter == if taken then 3 else 0)
            && -1 <= r[a].satCounter - t[a].satCounter <= 1
            && (if taken then t[a].satCounter <= r[a].satCounter else r[a].satCounter <= t[a].satCounter)
  {
  }

  /** Two outcomes alike are learnt, whatever the entry held. */
  lemma TwiceIsLearnt(t: Bht, addr: nat, taken: bool)
    requires Saturating(t)
    ensures Predict(Resolve(Resolve(t, addr, taken), addr, taken), addr) == Some(taken)
  {
    ResolveOne(t, addr, taken);
    var u := Resolve(t, addr, taken);
    ResolveOne(u, addr, taken);
    hide Resolve;
  }

  /** After three outcomes alike a single other one does not change the prediction, and a second one does. */
  lemma OnceIsForgiven(t: Bht, addr: nat, taken: bool)
    requires Saturating(t)
    ensures var u := Resolve(Resolve(Resolve(t, addr, taken), addr, taken), addr, taken);
            && Predict(Resolve(u, addr, !taken), addr) == Some(taken)
            && Predict(Resolve(Resolve(u, addr, !taken), addr, !taken), addr) == Some(!taken)
  {
    var t1 := Resolve(t, addr, taken);
    var t2 := Resolve(t1, addr, taken);
    var t3 := Resolve(t2, addr, taken);
    ResolveOne(t, addr, taken);
    ResolveOne(t1, addr, taken);
    ResolveOne(t2, addr, taken);
    ResolveOne(t3, addr, !taken);
    TwiceIsLearnt(t3, addr, !taken);
    hide Resolve;
  }

  lemma NewSaturating()
    ensures Saturating(NewBht()) && |NewBht()| == BHT_ENTRIES
  {
  }

  lemma {:induction false} TableSaturating(trace: seq<Instr>)
    ensures Saturating(BhtAfter(NewBht(), trace)) && |BhtAfter(NewBht(), trace)| == BHT_ENTRIES
    decreases |trace|
  {
    hide Saturating, Resolve;
    NewSaturating();
    if |trace| > 1 {
      var n := |trace| - 1;
      TableSaturating(trace[..n]);
      ResolveOne(BhtAfter(NewBht(), trace[..n]), trace[n - 1].address, trace[n].address != trace[n - 1].NextAddr());
    }
  }

  /** Branches with the same entry of the table. */
  predicate Alias(a: nat, b: nat) {
    (a / 2) % BHT_ENTRIES == (b / 2) % BHT_ENTRIES
  }

  /** The branch at place `k` of the trace was resolved in the first `n` instructions, as `taken`. */
  predicate ResolvedAs(trace: seq<Instr>, n: nat, k: nat, taken: bool) {
    k + 1 < n <= |trace| && trace[k].IsBranch() && (trace[k + 1].address != trace[k].NextAddr() <==> taken)
  }

  /** No branch that shares the entry of `addr` is resolved from place `k` up to place `n`. */
  predicate NoAlias(trace: seq<Instr>, addr: nat, k: nat, n: nat) {
    forall j :: k <= j && j + 1 < n && j < |trace| && trace[j].IsBranch() ==> !Alias(trace[j].address, addr)
  }

  lemma {:induction false} EntryKept(trace: seq<Instr>, addr: nat, k: nat, n: nat)
    requires k < n <= |trace| && NoAlias(trace, addr, k, n)
    ensures var a := (addr / 2) % BHT_ENTRIES;
            BhtAfter(NewBht(), trace[..n])[a] == BhtAfter(NewBht(), trace[..k + 1])[a]
    decreases n
  {
    hide Resolve, Saturating;
    TableSaturating(trace[..k + 1]);
    TableSaturating(trace[..n]);
    if n > k + 1 {
      assert trace[..n][..n - 1] == trace[..n - 1];
      TableSaturating(trace[..n - 1]);
      EntryKept(trace, addr, k, n - 1);
      var last, prev := trace[n - 1], trace[n - 2];
      ResolveOne(BhtAfter(NewBht(), trace[..n - 1]), prev.address, last.address != prev.NextAddr());
    }
  }

  /** Nothing is predicted where no branch that shares the entry was resolved. */
  lemma {:induction false} NewIsUnknown(trace: seq<Instr>, addr: nat)
    requires NoAlias(trace, addr, 0, |trace|)
    ensures |BhtAfter(NewBht(), trace)| > 0 && Predict(BhtAfter(NewBht(), trace), addr) == None
  {
    hide Resolve, Saturating, NoAlias;
    TableSaturating(trace);
    if trace != [] {
      EntryKept(trace, addr, 0, |trace|);
      assert trace[..|trace|] == trace && |trace[..1]| == 1;
    }
  }

  /** A branch whose last two resolutions agree is predicted that way, as long as no branch that shares its
      entry was resolved in between or since. */
  lemma AgreeingIsPredicted(trace: seq<Instr>, n: nat, i: nat, j: nat, taken: bool)
    requires i < j && ResolvedAs(trace, n, i, taken) && ResolvedAs(trace, n, j, taken)
    requires trace[i].address == trace[j].address
    requires NoAlias(trace, trace[i].address, i + 1, j + 1) && NoAlias(trace, trace[i].address, j + 1, n)
    ensures |BhtAfter(NewBht(), trace[..n])| > 0
    ensures Predict(BhtAfter(NewBht(), trace[..n]), trace[i].address) == Some(taken)
  {
    hide Resolve, NoAlias, BhtAfter;
    var addr := trace[i].address;
    Resolution(trace, i);
    EntryKept(trace, addr, i + 1, j + 1);
    Resolution(trace, j);
    EntryKept(trace, addr, j + 1, n);
    TableSaturating(trace[..i + 1]);
    TableSaturating(trace[..i + 2]);
    TableSaturating(trace[..j + 1]);
    TableSaturating(trace[..n]);
    ResolveOne(BhtAfter(NewBht(), trace[..i + 1]), addr, taken);
    ResolveOne(BhtAfter(NewBht(), trace[..j + 1]), addr, taken);
  }

  lemma Resolution(trace: seq<Instr>, k: nat)
    requires k + 1 < |trace| && trace[k].IsBranch()
    ensures BhtAfter(NewBht(), trace[..k + 2])
            == Resolve(BhtAfter(NewBht(), trace[..k + 1]), trace[k].address, trace[k + 1].address != trace[k].NextAddr())
  {
    assert trace[..k + 2][..k + 1] == trace[..k + 1];
  }

  // ---- The bounded stack against an unbounded one ----

  datatype CallStack = CallStack(stack: seq<nat>, lastDropped: Option<nat>) {

    function Drop(): CallStack {
      if |stack| > 0 then CallStack(stack[..|stack| - 1], Some(stack[|stack| - 1])) else CallStack([], None)
    }

    function Push(addr: nat): CallStack {
      this.(stack := stack + [addr])
    }

    function Resolve(i: Instr): CallStack {
      var popped := if i.IsRet() then Drop() else this;
      if i.IsCall() then popped.Push(i.NextAddr()) else popped
    }
  }

  /** The calls and returns of a trace on a stack that never overflows. */
  function CallsAfter(trace: seq<Instr>): CallStack
    decreases |trace|
  {
    if trace == [] then CallStack([], None)
    else CallsAfter(trace[..|trace| - 1]).Resolve(trace[|trace| - 1])
  }

  /** What is pending are the addresses behind calls of the trace. */
  lemma {:induction false} PendingAreCalls(trace: seq<Instr>, a: nat)
    requires a in CallsAfter(trace).stack
    ensures exists k :: 0 <= k < |trace| && trace[k].IsCall() && a == trace[k].NextAddr()
    decreases |trace|
  {
    var n := |trace| - 1;
    var before := trace[..n];
    if a in CallsAfter(before).stack {
      PendingAreCalls(before, a);
      var k :| 0 <= k < n && before[k].IsCall() && a == before[k].NextAddr();
      assert trace[k].IsCall();
    } else {
      assert trace[n].IsCall();
    }
  }

  ghost predicate Suffix<T(!new)>(a: seq<T>, b: seq<T>) {
    |a| <= |b| && a == b[|b| - |a|..]
  }

  /** The bounded stack is the top of the real call stack, and what a return reads is nothing or the
      real return address. */
  ghost predicate Tracks(r: Ras, c: CallStack) {
    && |r.stack| <= r.depth
    && Suffix(r.stack, c.stack)
    && (r.lastDropped.Some? ==> r.lastDropped == c.lastDropped)
  }

  lemma DropTracks(r: Ras, c: CallStack)
    requires Tracks(r, c)
    ensures Tracks(r.Drop(), c.Drop())
  {
    if |r.stack| > 0 {
      assert r.stack[|r.stack| - 1] == c.stack[|c.stack| - 1];
    }
  }

  lemma PushTracks(r: Ras, c: CallStack, addr: nat)
    requires Tracks(r, c)
    ensures Tracks(r.Push(addr), c.Push(addr))
  {
  }

  lemma {:induction false} RasIsSuffix(depth: nat, trace: seq<Instr>)
    ensures Tracks(RasAfter(Ras(depth, [], None), trace), CallsAfter(trace))
    ensures RasAfter(Ras(depth, [], None), trace).depth == depth
    decreases |trace|
  {
    if trace != [] {
      var before := trace[..|trace| - 1];
      RasIsSuffix(depth, before);
      hide Tracks;
      var r, c, i := RasAfter(Ras(depth, [], None), before), CallsAfter(before), trace[|trace| - 1];
      DropTracks(r, c);
      PushTracks(r, c, i.NextAddr());
      PushTracks(r.Drop(), c.Drop(), i.NextAddr());
    }
  }

  /** While the call depth stays within the capacity, nothing is forgotten. */
  lemma {:induction false} RasIsExact(depth: nat, trace: seq<Instr>)
    requires forall k :: 0 <= k <= |trace| ==> |CallsAfter(trace[..k]).stack| <= depth
    ensures var r, c := RasAfter(Ras(depth, [], None), trace), CallsAfter(trace);
            r.stack == c.stack && r.lastDropped == c.lastDropped && r.depth == depth
    decreases |trace|
  {
    if trace != [] {
      var before := trace[..|trace| - 1];
      forall k | 0 <= k <= |before| ensures |CallsAfter(before[..k]).stack| <= depth {
        assert before[..k] == trace[..k];
      }
      assert trace[..|trace|] == trace;
      RasIsExact(depth, before);
      var c, i := CallsAfter(before), trace[|trace| - 1];
      assert |c.Resolve(i).stack| <= depth;
    }
  }

  /** What a return drops is nothing or the address behind the pending call; with room for all pending calls
      it is that address. */
  lemma DroppedIsPending(depth: nat, trace: seq<Instr>)
    requires trace != [] && trace[|trace| - 1].IsRet()
    ensures var r, pending := RasAfter(Ras(depth, [], None), trace), CallsAfter(trace[..|trace| - 1]).stack;
            && (r.lastDropped.Some? ==> pending != [] && r.lastDropped == Some(pending[|pending| - 1]))
            && ((forall k :: 0 <= k <= |trace| ==> |CallsAfter(trace[..k]).stack| <= depth) && pending != [] ==>
                  r.lastDropped == Some(pending[|pending| - 1]))
  {
    hide RasAfter, Suffix;
    RasIsSuffix(depth, trace);
    if forall k :: 0 <= k <= |trace| ==> |CallsAfter(trace[..k]).stack| <= depth {
      RasIsExact(depth, trace);
    }
  }

  // ---- The hints of the instruction set ----

  /** What the decoder yields for the jumps: which of `rd` and `rs1` each format has. */
  predicate DecodedJump(i: Instr) {
    match i.base
    case Jalr => i.rd.Some? && i.rs1.Some?
    case Jal => i.rd.Some? && i.rs1.None?
    case CJr => i.rd.None? && i.rs1.Some?
    case CJalr => i.rd.None? && i.rs1.Some?
    case CJal => i.rd.None? && i.rs1.None?
    case CJ => i.rd.None? && i.rs1.None?
    case _ => false
  }

  /** The register a jump links to, x0 where it links to none. */
  function LinkReg(i: Instr): Option<nat> {
    if i.base.CJalr? || i.base.CJal? then Some(1) else if i.rd.Some? then i.rd else Some(0)
  }

  datatype Hint = Neither | Pop | Push | PopThenPush

  /** Section 2.5 of the RISC-V Unprivileged ISA, version 20191213. */
  function IsaHint(rd: Option<nat>, rs1: Option<nat>): Hint {
    if IsRetReg(rd) then
      if IsRetReg(rs1) && rs1 != rd then PopThenPush else Push
    else if IsRetReg(rs1) then Pop
    else Neither
  }

  function ModelHint(i: Instr): Hint {
    if i.IsRet() then (if i.IsCall() then PopThenPush else Pop)
    else if i.IsCall() then Push else Neither
  }

  /** The model follows the table except for the one jump `c.jalr ra`, which it also takes for a return. */
  lemma HintsAreIsaHints(i: Instr)
    requires DecodedJump(i)
    ensures ModelHint(i) == IsaHint(LinkReg(i), i.rs1) <==> !(i.base.CJalr? && i.rs1 == Some(1))
    ensures i.base.CJalr? && i.rs1 == Some(1) ==> ModelHint(i) == PopThenPush
  {
  }
}
