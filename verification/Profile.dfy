/**
 The flame-graph profiler of perf-model/profile.py: the call stack that it follows along a trace, the
 events that it cuts the trace into, and the statistics that it builds from the events.
 */
module Profile {
  import opened Prelude

  datatype Fn = Fn(name: string, vma: nat, size: nat) {
    predicate Contains(addr: nat) { vma <= addr < vma + size }
  }

  datatype Rvfi = Rvfi(address: nat, cycle: int, name: string)

  /** For each instruction name, how many were executed and how long they took. */
  type Executed = map<string, (int, int)>

  datatype Event = Event(stack: seq<string>, instr: Rvfi, duration: int, icount: int, executed: Executed)

  type Functions = map<nat, Fn>

  // ---- The call stack ----

  /** Functions by their start; of two with the same start the later one counts. */
  function Table(functions: seq<Fn>): Functions {
    if functions == [] then map[]
    else
      var last := functions[|functions| - 1];
      Table(functions[..|functions| - 1])[last.vma := last]
  }

  predicate InSome(fns: Functions, addr: nat) {
    exists a | a in fns :: fns[a].Contains(addr)
  }

  /** A call: the start of a function. */
  predicate Calls(fns: Functions, addr: nat) { addr in fns }

  /** A return: out of the current function into the middle of another. */
  predicate Returns(fns: Functions, stack: seq<Fn>, addr: nat) {
    addr !in fns && |stack| > 0 && !stack[|stack| - 1].Contains(addr) && InSome(fns, addr)
  }

  function Moved(fns: Functions, stack: seq<Fn>, addr: nat): seq<Fn> {
    if Calls(fns, addr) then stack + [fns[addr]]
    else if Returns(fns, stack, addr) then stack[..|stack| - 1]
    else stack
  }

  predicate IsEvent(fns: Functions, stack: seq<Fn>, addr: nat) {
    Calls(fns, addr) || Returns(fns, stack, addr)
  }

  function Names(stack: seq<Fn>): (r: seq<string>)
    ensures |r| == |stack| && forall k :: 0 <= k < |r| ==> r[k] == stack[k].name
  {
    seq(|stack|, k requires 0 <= k < |stack| => stack[k].name)
  }

  class CallStack {
    var stack: seq<Fn>
    const fns: Functions

    constructor (functions: seq<Fn>)
      ensures stack == [] && fns == Table(functions)
    {
      stack := [];
      var t: Functions := map[];
      for i := 0 to |functions|
        invariant t == Table(functions[..i])
      {
        assert functions[..i + 1][..i] == functions[..i];
        t := t[functions[i].vma := functions[i]];
      }
      assert functions[..|functions|] == functions;
      fns := t;
    }

    /** The event, with the stack and the cycle it was raised with. */
    method Run(instr: Rvfi) returns (e: Option<(seq<string>, int)>)
      modifies this`stack
      ensures stack == Moved(fns, old(stack), instr.address)
      ensures e == if IsEvent(fns, old(stack), instr.address) then Some((Names(old(stack)), instr.cycle)) else None
    {
      if instr.address in fns {
        e := Some((Names(stack), instr.cycle));
        stack := stack + [fns[instr.address]];
        return;
      }
      if |stack| > 0 {
        var curr := stack[|stack| - 1];
        if !curr.Contains(instr.address) && InSome(fns, instr.address) {
          e := Some((Names(stack), instr.cycle));
          stack := stack[..|stack| - 1];
          return;
        }
      }
      e := None;
    }
  }

  // ---- Cutting the trace ----

  /** The stack before instruction `i`. */
  function StackAt(fns: Functions, instrs: seq<Rvfi>, i: nat): seq<Fn>
    requires i <= |instrs|
  {
    if i == 0 then [] else Moved(fns, StackAt(fns, instrs, i - 1), instrs[i - 1].address)
  }

  predicate Raises(fns: Functions, instrs: seq<Rvfi>, i: nat)
    requires i < |instrs|
  {
    IsEvent(fns, StackAt(fns, instrs, i), instrs[i].address)
  }

  /** The first instruction before `i` that no event before `i` accounts for. */
  function Since(fns: Functions, instrs: seq<Rvfi>, i: nat): (r: nat)
    requires i <= |instrs|
    ensures r <= i
  {
    if i == 0 then 0 else if Raises(fns, instrs, i - 1) then i else Since(fns, instrs, i - 1)
  }

  function CycleBefore(instrs: seq<Rvfi>, i: nat): int
    requires i <= |instrs|
  {
    if i == 0 then 0 else instrs[i - 1].cycle
  }

  /** What the instructions `lo..hi` executed: each takes the cycles since the one before it. */
  function Tally(instrs: seq<Rvfi>, lo: nat, hi: nat): Executed
    requires lo <= hi <= |instrs|
  {
    if lo == hi then map[]
    else
      Tallied(Tally(instrs, lo, hi - 1), instrs[hi - 1].name, instrs[hi - 1].cycle - CycleBefore(instrs, hi - 1))
  }

  function Tallied(m: Executed, name: string, cycles: int): Executed {
    var was := if name in m then m[name] else (0, 0);
    m[name := (was.0 + 1, was.1 + cycles)]
  }

  /** The event that instruction `i` raises.  It counts from the instruction of the last event, or from 0. */
  function EventAt(fns: Functions, instrs: seq<Rvfi>, i: nat): Event
    requires i < |instrs|
  {
    var since := Since(fns, instrs, i);
    Event(Names(StackAt(fns, instrs, i)), instrs[i], instrs[i].cycle - CycleBefore(instrs, since),
          i - (if since == 0 then 0 else since - 1), Tally(instrs, since, i + 1))
  }

  /** The events of the first `i` instructions. */
  function EventsOf(fns: Functions, instrs: seq<Rvfi>, i: nat): seq<Event>
    requires i <= |instrs|
  {
    if i == 0 then []
    else EventsOf(fns, instrs, i - 1) + if Raises(fns, instrs, i - 1) then [EventAt(fns, instrs, i - 1)] else []
  }

  method RunAll(functions: seq<Fn>, instrs: seq<Rvfi>) returns (events: seq<Event>)
    ensures events == EventsOf(Table(functions), instrs, |instrs|)
  {
    hide IsEvent, Moved, Table, Tally;
    events := [];
    var cs := new CallStack(functions);
    var lastEventCycle, lastEventI, lastInstrCycle := 0, 0, 0;
    var executed: Executed := map[];
    ghost var fns := cs.fns;
    TallyNone(instrs, 0);
    for i := 0 to |instrs|
      invariant events == EventsOf(fns, instrs, i)
      invariant cs.fns == fns && cs.stack == StackAt(fns, instrs, i) && lastInstrCycle == CycleBefore(instrs, i)
      invariant var since := Since(fns, instrs, i);
                && lastEventCycle == CycleBefore(instrs, since) && lastEventI == (if since == 0 then 0 else since - 1)
                && executed == Tally(instrs, since, i)
    {
      var instr := instrs[i];
      var was := if instr.name in executed then executed[instr.name] else (0, 0);
      TallyNext(instrs, Since(fns, instrs, i), i);
      executed := executed[instr.name := (was.0 + 1, was.1 + (instr.cycle - lastInstrCycle))];
      lastInstrCycle := instr.cycle;
      var event := cs.Run(instr);
      if event.Some? {
        events := events + [Event(event.value.0, instr, event.value.1 - lastEventCycle, i - lastEventI, executed)];
        lastEventCycle := event.value.1;
        lastEventI := i;
        executed := map[];
        TallyNone(instrs, i + 1);
      }
    }
  }

  lemma TallyNone(instrs: seq<Rvfi>, i: nat)
    requires i <= |instrs|
    ensures Tally(instrs, i, i) == map[]
  {
  }

  lemma TallyNext(instrs: seq<Rvfi>, lo: nat, i: nat)
    requires lo <= i < |instrs|
    ensures var m, name := Tally(instrs, lo, i), instrs[i].name;
            var was := if name in m then m[name] else (0, 0);
            Tally(instrs, lo, i + 1) == m[name := (was.0 + 1, was.1 + (instrs[i].cycle - CycleBefore(instrs, i)))]
  {
  }

  // ---- What a tally counts ----

  /** The instructions of a name among `lo..hi`. */
  ghost function Named(instrs: seq<Rvfi>, lo: nat, hi: nat, name: string): set<nat>
    requires hi <= |instrs|
  {
    set k: nat | lo <= k < hi && instrs[k].name == name
  }

  /** The cycles that they took. */
  function CyclesNamed(instrs: seq<Rvfi>, lo: nat, hi: nat, name: string): int
    requires lo <= hi <= |instrs|
  {
    if lo == hi then 0
    else
      CyclesNamed(instrs, lo, hi - 1, name)
      + if instrs[hi - 1].name == name then instrs[hi - 1].cycle - CycleBefore(instrs, hi - 1) else 0
  }

  /** A tally holds the names that occur, each with its number of instructions and their cycles. */
  lemma {:induction false} TallyByName(instrs: seq<Rvfi>, lo: nat, hi: nat, name: string)
    requires lo <= hi <= |instrs|
    ensures var m := Tally(instrs, lo, hi);
            && (name in m <==> Named(instrs, lo, hi, name) != {})
            && (name in m ==> m[name] == (|Named(instrs, lo, hi, name)|, CyclesNamed(instrs, lo, hi, name)))
            && (name !in m ==> CyclesNamed(instrs, lo, hi, name) == 0)
    decreases hi
  {
    hide Named;
    if lo == hi {
      NoneNamed(instrs, lo, name);
    } else {
      TallyByName(instrs, lo, hi - 1, name);
      NamedNext(instrs, lo, hi, name);
    }
  }

  lemma NoneNamed(instrs: seq<Rvfi>, lo: nat, name: string)
    requires lo <= |instrs|
    ensures Named(instrs, lo, lo, name) == {}
  {
  }

  lemma NamedNext(instrs: seq<Rvfi>, lo: nat, hi: nat, name: string)
    requires lo < hi <= |instrs|
    ensures var before, now := Named(instrs, lo, hi - 1, name), Named(instrs, lo, hi, name);
            if instrs[hi - 1].name == name then now != {} && |now| == |before| + 1 else now == before
  {
    var before := Named(instrs, lo, hi - 1, name);
    assert Named(instrs, lo, hi, name) == if instrs[hi - 1].name == name then before + {hi - 1} else before;
  }

  // ---- Nothing is lost in the cut ----

  ghost function Cycles(m: Executed): int {
    if m == map[] then 0 else var k :| k in m; m[k].1 + Cycles(m - {k})
  }

  ghost function Executions(m: Executed): int {
    if m == map[] then 0 else var k :| k in m; m[k].0 + Executions(m - {k})
  }

  /** The sums do not depend on the order of the names. */
  lemma {:induction false} SumsWithout(m: Executed, k: string)
    requires k in m
    ensures Cycles(m) == m[k].1 + Cycles(m - {k})
    ensures Executions(m) == m[k].0 + Executions(m - {k})
    decreases |m|
  {
    CyclesWithout(m, k);
    ExecutionsWithout(m, k);
  }

  lemma {:induction false} CyclesWithout(m: Executed, k: string)
    requires k in m
    ensures Cycles(m) == m[k].1 + Cycles(m - {k})
    decreases |m|
  {
    var j :| j in m && Cycles(m) == m[j].1 + Cycles(m - {j});
    if j != k {
      CyclesWithout(m - {j}, k);
      assert m - {j} - {k} == m - {k} - {j};
      CyclesWithout(m - {k}, j);
    }
  }

  lemma {:induction false} ExecutionsWithout(m: Executed, k: string)
    requires k in m
    ensures Executions(m) == m[k].0 + Executions(m - {k})
    decreases |m|
  {
    var j :| j in m && Executions(m) == m[j].0 + Executions(m - {j});
    if j != k {
      ExecutionsWithout(m - {j}, k);
      assert m - {j} - {k} == m - {k} - {j};
      ExecutionsWithout(m - {k}, j);
    }
  }

  lemma TalliedSums(m: Executed, name: string, cycles: int)
    ensures Cycles(Tallied(m, name, cycles)) == Cycles(m) + cycles
    ensures Executions(Tallied(m, name, cycles)) == Executions(m) + 1
  {
    var t := Tallied(m, name, cycles);
    SumsWithout(t, name);
    assert t - {name} == m - {name};
    if name in m {
      SumsWithout(m, name);
    } else {
      assert m - {name} == m;
    }
  }

  lemma {:induction false} TallySums(instrs: seq<Rvfi>, lo: nat, hi: nat)
    requires lo <= hi <= |instrs|
    ensures Cycles(Tally(instrs, lo, hi)) == CycleBefore(instrs, hi) - CycleBefore(instrs, lo)
    ensures Executions(Tally(instrs, lo, hi)) == hi - lo
    decreases hi
  {
    hide Tallied;
    if lo < hi {
      TallySums(instrs, lo, hi - 1);
      TalliedSums(Tally(instrs, lo, hi - 1), instrs[hi - 1].name, instrs[hi - 1].cycle - CycleBefore(instrs, hi - 1));
    } else {
      assert Tally(instrs, lo, hi) == map[];
    }
  }

  /** In each event the cycles of the executed instructions add up to its duration, and their number to its
      instruction count; the first event has executed one more than it counts. */
  lemma {:induction false} EventsConserve(fns: Functions, instrs: seq<Rvfi>, i: nat, k: nat)
    requires i <= |instrs| && k < |EventsOf(fns, instrs, i)|
    ensures var e := EventsOf(fns, instrs, i)[k];
            Cycles(e.executed) == e.duration && Executions(e.executed) == e.icount + if k == 0 then 1 else 0
    decreases i
  {
    hide Cycles, Executions, Tally, Raises, StackAt, Since;
    if k < |EventsOf(fns, instrs, i - 1)| {
      EventsConserve(fns, instrs, i - 1, k);
    } else {
      TallySums(instrs, Since(fns, instrs, i - 1), i);
      FirstSince(fns, instrs, i - 1);
    }
  }

  lemma {:induction false} FirstSince(fns: Functions, instrs: seq<Rvfi>, i: nat)
    requires i <= |instrs|
    ensures EventsOf(fns, instrs, i) == [] <==> Since(fns, instrs, i) == 0
    decreases i
  {
    hide Raises, EventAt;
    if i > 0 { FirstSince(fns, instrs, i - 1); }
  }

  function Durations(events: seq<Event>): int {
    if events == [] then 0 else Durations(events[..|events| - 1]) + events[|events| - 1].duration
  }

  function Icounts(events: seq<Event>): int {
    if events == [] then 0 else Icounts(events[..|events| - 1]) + events[|events| - 1].icount
  }

  lemma AddEvent(events: seq<Event>, e: Event)
    ensures Durations(events + [e]) == Durations(events) + e.duration
    ensures Icounts(events + [e]) == Icounts(events) + e.icount
  {
    assert (events + [e])[..|events|] == events;
  }

  lemma {:induction false} SumsSince(fns: Functions, instrs: seq<Rvfi>, i: nat)
    requires i <= |instrs|
    ensures var since := Since(fns, instrs, i);
            && Durations(EventsOf(fns, instrs, i)) == CycleBefore(instrs, since)
            && Icounts(EventsOf(fns, instrs, i)) == (if since == 0 then 0 else since - 1)
    decreases i
  {
    hide Raises, Tally, StackAt, Durations, Icounts;
    if i > 0 {
      SumsSince(fns, instrs, i - 1);
      AddEvent(EventsOf(fns, instrs, i - 1), EventAt(fns, instrs, i - 1));
      assert EventsOf(fns, instrs, i - 1) + [] == EventsOf(fns, instrs, i - 1);
    } else {
      NoSums();
    }
  }

  lemma NoSums()
    ensures Durations([]) == 0 && Icounts([]) == 0
  {
  }

  /** The durations up to an event add up to its cycle, and the counts to its place in the trace. */
  lemma EventsTelescope(fns: Functions, instrs: seq<Rvfi>, i: nat)
    requires i < |instrs| && Raises(fns, instrs, i)
    ensures Durations(EventsOf(fns, instrs, i + 1)) == instrs[i].cycle
    ensures Icounts(EventsOf(fns, instrs, i + 1)) == i
  {
    hide Raises, EventsOf, Durations, Icounts;
    SumsSince(fns, instrs, i + 1);
  }
}
