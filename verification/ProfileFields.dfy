/**
 Every figure of the statistics of perf-model/profile.py, in both modes, as a sum over the events.
 */
module ProfileFields {
  import opened Prelude
  import opened Profile
  import opened ProfileStats

  /** The figures of a function, and of the calls that one caller makes of it. */
  datatype Line = Line(cc: int, nc: int, tt: int, ct: int, icount: int, callerCc: int, callerNc: int, callerTt: int, callerCt: int)

  const NOTHING := Line(0, 0, 0, 0, 0, 0, 0, 0, 0)

  function LineOf(v: Stats, f: string, g: string): Line {
    var s := if f in v then v[f] else ZERO;
    var h := if g in s.callers then s.callers[g] else (0, 0, 0, 0);
    Line(s.cc, s.nc, s.tt, s.ct, s.icount, h.0, h.1, h.2, h.3)
  }

  function Plus(a: Line, b: Line): Line {
    Line(a.cc + b.cc, a.nc + b.nc, a.tt + b.tt, a.ct + b.ct, a.icount + b.icount,
         a.callerCc + b.callerCc, a.callerNc + b.callerNc, a.callerTt + b.callerTt, a.callerCt + b.callerCt)
  }

  // ---- What an event contributes ----

  /** How often `g` stands right below `f` in a stack. */
  function Pairs(stack: seq<string>, f: string, g: string): nat {
    if |stack| < 2 then 0
    else
      var n := |stack|;
      Pairs(stack[..n - 1], f, g) + if stack[n - 1] == f && stack[n - 2] == g then 1 else 0
  }

  function One(b: bool): int { if b then 1 else 0 }

  function If(b: bool, n: int): int { if b then n else 0 }

  /** An event returns from `f` if its stack is shorter than the last one, which had `f` on top. */
  predicate ReturnsFrom(e: Event, last: seq<string>, f: string) {
    |e.stack| < |last| && Top(last) == f
  }

  function CallsOf(e: Event, name: string): int { if name in e.executed then e.executed[name].0 else 0 }

  function CyclesOf(e: Event, name: string): int { if name in e.executed then e.executed[name].1 else 0 }

  /** What an event with a stack contributes to the figures of `f`, and to those of `f` called by `g`. */
  function Adds(e: Event, last: seq<string>, inst: bool, f: string, g: string): Line
    requires e.stack != []
  {
    var top, n := Top(e.stack), |e.stack|;
    Line(cc := One(ReturnsFrom(e, last, f) && f !in e.stack),
         nc := One(ReturnsFrom(e, last, f)),
         tt := if inst then CyclesOf(e, f) else If(top == f, e.duration),
         ct := Occurrences(e.stack, f) * e.duration + If(inst, CyclesOf(e, f)),
         icount := If(top == f, e.icount),
         callerCc := One(ReturnsFrom(e, last, f) && f !in e.stack && top == g),
         callerNc := One(ReturnsFrom(e, last, f) && top == g) + If(inst && top == g, CallsOf(e, f)),
         callerTt := if inst then If(top == g, CyclesOf(e, f)) else If(n > 1 && top == f && e.stack[n - 2] == g, e.duration),
         callerCt := Pairs(e.stack, f, g) * e.duration + If(inst && top == g, CyclesOf(e, f)))
  }

  function SumOf(events: seq<Event>, inst: bool, f: string, g: string): Line {
    if events == [] then NOTHING
    else
      var before, e := events[..|events| - 1], events[|events| - 1];
      var sum := SumOf(before, inst, f, g);
      if e.stack == [] then sum else Plus(sum, Adds(e, LastStack(before), inst, f, g))
  }

  // ---- What each step of the program contributes ----

  lemma PutLine(v: Stats, name: string, f: string, g: string)
    ensures LineOf(Put(v, name), f, g) == LineOf(v, f, g)
  {
  }

  lemma TimeLine(v: Stats, name: string, tt: int, ct: int, icount: int, f: string, g: string)
    requires name in v
    ensures LineOf(AddTime(v, name, tt, ct, icount), f, g)
            == Plus(LineOf(v, f, g), if name == f then NOTHING.(tt := tt, ct := ct, icount := icount) else NOTHING)
  {
  }

  lemma ShareLine(v: Stats, callee: string, caller: string, s: Shares, f: string, g: string)
    requires callee in v
    ensures LineOf(AddShare(v, callee, caller, s), f, g)
            == Plus(LineOf(v, f, g),
                    if callee == f && caller == g
                    then NOTHING.(callerCc := s.0, callerNc := s.1, callerTt := s.2, callerCt := s.3) else NOTHING)
  {
  }

  lemma ChargeLine(v: Stats, e: Event, func: string, f: string, g: string)
    ensures LineOf(ChargeAll(v, e.executed, func), f, g)
            == Plus(LineOf(v, f, g),
                    NOTHING.(tt := CyclesOf(e, f), ct := CyclesOf(e, f),
                             callerNc := If(func == g, CallsOf(e, f)),
                             callerTt := If(func == g, CyclesOf(e, f)),
                             callerCt := If(func == g, CyclesOf(e, f))))
  {
  }

  lemma {:induction false} CtsLine(v: Stats, stack: seq<string>, n: nat, duration: int, f: string, g: string)
    requires n <= |stack| && forall h :: h in stack ==> h in v
    ensures LineOf(AddCts(v, stack, n, duration), f, g)
            == Plus(LineOf(v, f, g), NOTHING.(ct := Occurrences(stack[..n], f) * duration))
    decreases n
  {
    hide LineOf;
    if n > 0 {
      CtsLine(v, stack, n - 1, duration, f, g);
      TimeLine(AddCts(v, stack, n - 1, duration), stack[n - 1], 0, duration, 0, f, g);
      OccurrencesNext(stack, n, f, duration);
      hide Occurrences, AddTime;
    }
  }

  lemma PairsNext(stack: seq<string>, n: nat, f: string, g: string, duration: int)
    requires 1 < n <= |stack|
    ensures Pairs(stack[..n], f, g) * duration
            == Pairs(stack[..n - 1], f, g) * duration + if stack[n - 1] == f && stack[n - 2] == g then duration else 0
  {
    assert stack[..n][..n - 1] == stack[..n - 1];
    var p := Pairs(stack[..n - 1], f, g);
    assert (p + 1) * duration == p * duration + duration;
  }

  lemma {:induction false} ChainLine(v: Stats, stack: seq<string>, n: nat, duration: int, f: string, g: string)
    requires n <= |stack| && forall h :: h in stack ==> h in v
    ensures LineOf(AddChain(v, stack, n, duration), f, g)
            == Plus(LineOf(v, f, g), NOTHING.(callerCt := Pairs(stack[..n], f, g) * duration))
    decreases n
  {
    hide LineOf;
    if n > 1 {
      ChainLine(v, stack, n - 1, duration, f, g);
      ShareLine(AddChain(v, stack, n - 1, duration), stack[n - 1], stack[n - 2], (0, 0, 0, duration), f, g);
      PairsNext(stack, n, f, g, duration);
      hide Pairs, AddShare;
    }
  }

  lemma ReturnLine(v: Stats, stack: seq<string>, callee: string, f: string, g: string)
    requires stack != [] && callee in v
    ensures var c := One(callee == f && f !in stack);
            LineOf(AddReturn(v, stack, callee), f, g)
            == Plus(LineOf(v, f, g),
                    NOTHING.(cc := c, nc := One(callee == f),
                             callerCc := If(Top(stack) == g, c), callerNc := One(callee == f && Top(stack) == g)))
  {
    hide Top;
  }

  // ---- One turn ----

  lemma OwnLine(v: Stats, e: Event, inst: bool, f: string, g: string)
    requires e.stack != []
    ensures var top := Top(e.stack);
            LineOf(AddOwn(v, e, inst), f, g)
            == Plus(LineOf(v, f, g),
                    NOTHING.(tt := if inst then CyclesOf(e, f) else If(top == f, e.duration),
                             ct := If(inst, CyclesOf(e, f)), icount := If(top == f, e.icount),
                             callerNc := If(inst && top == g, CallsOf(e, f)),
                             callerTt := If(inst && top == g, CyclesOf(e, f)),
                             callerCt := If(inst && top == g, CyclesOf(e, f))))
  {
    hide LineOf, ChargeAll, AddTime, CyclesOf, CallsOf, Top;
    var func := Top(e.stack);
    PutLine(v, func, f, g);
    ChargeLine(Put(v, func), e, func, f, g);
    ChargeKeys(Put(v, func), e.executed, func);
    var w := if inst then ChargeAll(Put(v, func), e.executed, func) else Put(v, func);
    TimeLine(w, func, if inst then 0 else e.duration, 0, e.icount, f, g);
  }

  lemma StackLine(v: Stats, e: Event, inst: bool, f: string, g: string)
    requires e.stack != [] && forall h :: h in e.stack ==> h in v
    ensures var top, n := Top(e.stack), |e.stack|;
            LineOf(AddStack(v, e, inst), f, g)
            == Plus(LineOf(v, f, g),
                    NOTHING.(ct := Occurrences(e.stack, f) * e.duration,
                             callerTt := If(!inst && n > 1 && top == f && e.stack[n - 2] == g, e.duration),
                             callerCt := Pairs(e.stack, f, g) * e.duration))
  {
    hide LineOf, AddCts, AddChain, AddShare, Occurrences, Pairs;
    var stack := e.stack;
    assert stack[..|stack|] == stack;
    var duration := if inst then 0 else e.duration;
    CtsLine(v, stack, |stack|, e.duration, f, g);
    var w := AddCts(v, stack, |stack|, e.duration);
    var x := if |stack| > 1 then AddShare(w, Top(stack), stack[|stack| - 2], (0, 0, duration, 0)) else w;
    if |stack| > 1 {
      ShareLine(w, Top(stack), stack[|stack| - 2], (0, 0, duration, 0), f, g);
      AddShareKeys(w, Top(stack), stack[|stack| - 2], (0, 0, duration, 0));
    }
    ChainLine(x, stack, |stack|, e.duration, f, g);
  }

  lemma TurnLine(b: Built, e: Event, inst: bool, f: string, g: string)
    requires e.stack != [] && BuildEvent(b, e, inst).Ok?
    ensures LineOf(BuildEvent(b, e, inst).value.stats, f, g) == Plus(LineOf(b.stats, f, g), Adds(e, b.last, inst, f, g))
  {
    hide LineOf, AddOwn, AddStack, AddReturn, CyclesOf, CallsOf, Occurrences, Pairs, Put;
    OwnLine(b.stats, e, inst, f, g);
    StackLine(AddOwn(b.stats, e, inst), e, inst, f, g);
    var v := AddStack(AddOwn(b.stats, e, inst), e, inst);
    if |e.stack| != |b.last| + 1 {
      PutLine(v, Top(e.stack), f, g);
      PutKeys(v, Top(e.stack));
      ReturnLine(Put(v, Top(e.stack)), e.stack, Top(b.last), f, g);
    }
  }

  lemma {:induction false} LastBuilt(events: seq<Event>, inst: bool)
    requires Build(events, inst).Ok?
    ensures Build(events, inst).value.last == LastStack(events)
    decreases |events|
  {
    hide ProfileStats.AddEvent, AddReturn, Put;
    if events != [] { LastBuilt(events[..|events| - 1], inst); }
  }

  /** In both modes every figure of every function, and of every pair of callee and caller, is the sum of what
      the events with a stack contribute to it. */
  lemma {:induction false} FiguresAre(events: seq<Event>, inst: bool, f: string, g: string)
    requires Build(events, inst).Ok?
    ensures LineOf(Build(events, inst).value.stats, f, g) == SumOf(events, inst, f, g)
    decreases |events|
  {
    hide LineOf, BuildEvent, Adds, LastStack;
    if events == [] {
      NoLine(f, g);
    } else {
      var before, e := events[..|events| - 1], events[|events| - 1];
      FiguresAre(before, inst, f, g);
      LastBuilt(before, inst);
      var b := Build(before, inst).value;
      if e.stack == [] { NoTurn(b, e, inst); } else { TurnLine(b, e, inst, f, g); }
    }
  }

  lemma NoLine(f: string, g: string)
    ensures LineOf(map[], f, g) == NOTHING
  {
  }

  lemma NoTurn(b: Built, e: Event, inst: bool)
    requires e.stack == []
    ensures BuildEvent(b, e, inst) == Ok(b)
  {
  }

  // ---- Calls ----

  /** The events that return from `f`; only those that leave no `f` in the stack, if `primary`; only those that
      return into `into`, if given. */
  ghost function ReturnsOf(events: seq<Event>, f: string, primary: bool, into: Option<string>): set<nat> {
    set k: nat | k < |events| && IsReturn(events, k, f, primary, into)
  }

  predicate IsReturn(events: seq<Event>, k: nat, f: string, primary: bool, into: Option<string>)
    requires k < |events|
  {
    var stack, last := events[k].stack, LastStack(events[..k]);
    && stack != [] && |stack| < |last| && Top(last) == f
    && (primary ==> f !in stack) && (into.Some? ==> Top(stack) == into.value)
  }

  lemma ReturnBefore(events: seq<Event>, n: nat, k: nat, f: string, primary: bool, into: Option<string>)
    requires k < n <= |events|
    ensures IsReturn(events, k, f, primary, into) == IsReturn(events[..n], k, f, primary, into)
  {
    assert events[..n][..k] == events[..k];
    hide LastStack;
  }

  lemma ReturnsNext(events: seq<Event>, f: string, primary: bool, into: Option<string>)
    requires events != []
    ensures var n := |events| - 1;
            |ReturnsOf(events, f, primary, into)|
            == |ReturnsOf(events[..n], f, primary, into)| + (if IsReturn(events, n, f, primary, into) then 1 else 0)
  {
    hide IsReturn;
    var n := |events| - 1;
    var before := ReturnsOf(events[..n], f, primary, into);
    forall k: nat | k < n ensures k in before <==> IsReturn(events, k, f, primary, into) {
      ReturnBefore(events, n, k, f, primary, into);
    }
    assert ReturnsOf(events, f, primary, into) == if IsReturn(events, n, f, primary, into) then before + {n} else before;
  }

  /** Calls are counted when they return. */
  lemma {:induction false} CallsCounted(events: seq<Event>, inst: bool, f: string, g: string)
    requires Build(events, inst).Ok?
    ensures var x := LineOf(Build(events, inst).value.stats, f, g);
            && x.nc == |ReturnsOf(events, f, false, None)|
            && x.cc == |ReturnsOf(events, f, true, None)|
            && x.callerCc == |ReturnsOf(events, f, true, Some(g))|
            && (!inst ==> x.callerNc == |ReturnsOf(events, f, false, Some(g))|)
    decreases |events|
  {
    FiguresAre(events, inst, f, g);
    CallsSummed(events, inst, f, g);
    hide *;
  }

  lemma {:induction false} CallsSummed(events: seq<Event>, inst: bool, f: string, g: string)
    ensures var x := SumOf(events, inst, f, g);
            && x.nc == |ReturnsOf(events, f, false, None)|
            && x.cc == |ReturnsOf(events, f, true, None)|
            && x.callerCc == |ReturnsOf(events, f, true, Some(g))|
            && (!inst ==> x.callerNc == |ReturnsOf(events, f, false, Some(g))|)
    decreases |events|
  {
    hide ReturnsOf, LastStack, Occurrences, Pairs, CyclesOf, CallsOf, Top;
    if events == [] {
      NoReturns(f, false, None);
      NoReturns(f, true, None);
      NoReturns(f, true, Some(g));
      NoReturns(f, false, Some(g));
    } else {
      CallsSummed(events[..|events| - 1], inst, f, g);
      ReturnsNext(events, f, false, None);
      ReturnsNext(events, f, true, None);
      ReturnsNext(events, f, true, Some(g));
      ReturnsNext(events, f, false, Some(g));
    }
  }

  lemma NoReturns(f: string, primary: bool, into: Option<string>)
    ensures ReturnsOf([], f, primary, into) == {}
  {
  }
}
