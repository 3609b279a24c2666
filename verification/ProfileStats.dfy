/**
 The statistics of perf-model/profile.py, built from the events of a trace.
 */
module ProfileStats {
  import opened Prelude
  import opened Profile

  /** Calls that are not recursive, calls, time spent, time spent including callees. */
  type Shares = (int, int, int, int)

  datatype StatView = StatView(cc: int, nc: int, tt: int, ct: int, icount: int, callers: map<string, Shares>)

  type Stats = map<string, StatView>

  const ZERO := StatView(0, 0, 0, 0, 0, map[])

  class Stat {
    var cc: int
    var nc: int
    var tt: int
    var ct: int
    var icount: int
    var callers: map<string, Shares>

    constructor ()
      ensures View() == ZERO
    {
      cc, nc, tt, ct, icount, callers := 0, 0, 0, 0, 0, map[];
    }

    function View(): StatView
      reads this
    {
      StatView(cc, nc, tt, ct, icount, callers)
    }

    method AddCaller(caller: string, s: Shares)
      modifies this
      ensures View() == old(View()).(callers := Shared(old(callers), caller, s))
    {
      var was := if caller in callers then callers[caller] else (0, 0, 0, 0);
      callers := callers[caller := (was.0 + s.0, was.1 + s.1, was.2 + s.2, was.3 + s.3)];
    }
  }

  function Shared(callers: map<string, Shares>, caller: string, s: Shares): map<string, Shares> {
    var was := if caller in callers then callers[caller] else (0, 0, 0, 0);
    callers[caller := (was.0 + s.0, was.1 + s.1, was.2 + s.2, was.3 + s.3)]
  }

  // ---- What one event adds ----

  /** A function on the stack that has no statistics, or a stack that changed by more than one function. */
  datatype Error = UnknownName | DepthChange

  datatype Result<+T> = Ok(value: T) | Err(error: Error)

  function ErrorOf<T>(r: Result<T>): Option<Error> {
    if r.Ok? then None else Some(r.error)
  }

  function Put(v: Stats, name: string): Stats {
    if name in v then v else v[name := ZERO]
  }

  function Timed(s: StatView, tt: int, ct: int, icount: int): StatView {
    s.(tt := s.tt + tt, ct := s.ct + ct, icount := s.icount + icount)
  }

  function AddTime(v: Stats, name: string, tt: int, ct: int, icount: int): Stats
    requires name in v
  {
    v[name := Timed(v[name], tt, ct, icount)]
  }

  function AddShare(v: Stats, callee: string, caller: string, s: Shares): Stats
    requires callee in v
  {
    v[callee := v[callee].(callers := Shared(v[callee].callers, caller, s))]
  }

  /** Each executed instruction is charged to the function like a callee of its own. */
  function ChargeAll(v: Stats, executed: Executed, func: string): Stats {
    map k | k in v.Keys + executed.Keys ::
      if k in executed then Charged(if k in v then v[k] else ZERO, executed[k], func) else v[k]
  }

  function Charged(s: StatView, x: (int, int), func: string): StatView {
    s.(tt := s.tt + x.1, ct := s.ct + x.1, callers := Shared(s.callers, func, (0, x.0, x.1, x.1)))
  }

  ghost predicate Knows(v: Stats, stack: seq<string>) {
    forall f :: f in stack ==> f in v
  }

  /** The first `n` functions of the stack, and so all that are called from there, spent the duration. */
  function AddCts(v: Stats, stack: seq<string>, n: nat, duration: int): (r: Stats)
    requires n <= |stack| && forall f :: f in stack ==> f in v
    ensures r.Keys == v.Keys
  {
    if n == 0 then v else AddTime(AddCts(v, stack, n - 1, duration), stack[n - 1], 0, duration, 0)
  }

  function AddChain(v: Stats, stack: seq<string>, n: nat, duration: int): (r: Stats)
    requires n <= |stack| && forall f :: f in stack ==> f in v
    ensures r.Keys == v.Keys
  {
    if n <= 1 then v else AddShare(AddChain(v, stack, n - 1, duration), stack[n - 1], stack[n - 2], (0, 0, 0, duration))
  }

  function Top(stack: seq<string>): string
    requires stack != []
  {
    stack[|stack| - 1]
  }

  /** The time of an event goes to the function on top, or else to the executed instructions. */
  function AddOwn(v: Stats, e: Event, inst: bool): Stats
    requires e.stack != []
  {
    var func := Top(e.stack);
    var w := if inst then ChargeAll(Put(v, func), e.executed, func) else Put(v, func);
    AddTime(w, func, if inst then 0 else e.duration, 0, e.icount)
  }

  /** It also goes to all functions on the stack, and is attributed to their callers. */
  function AddStack(v: Stats, e: Event, inst: bool): Stats
    requires e.stack != [] && forall f :: f in e.stack ==> f in v
  {
    var stack := e.stack;
    var duration := if inst then 0 else e.duration;
    var w := AddCts(v, stack, |stack|, e.duration);
    AddChain(if |stack| > 1 then AddShare(w, Top(stack), stack[|stack| - 2], (0, 0, duration, 0)) else w,
             stack, |stack|, e.duration)
  }

  /** What an event adds before the calls are counted; nothing if a function is not known. */
  function AddEvent(v: Stats, e: Event, inst: bool): (r: Result<Stats>)
    requires e.stack != []
  {
    var w := AddOwn(v, e, inst);
    if exists f | f in e.stack :: f !in w then Err(UnknownName) else Ok(AddStack(w, e, inst))
  }

  /** A return from `callee` to the top of the stack; it is not a primary call if `callee` is still there. */
  function AddReturn(v: Stats, stack: seq<string>, callee: string): Stats
    requires stack != [] && callee in v
  {
    var cc := if callee in stack then 0 else 1;
    var w := AddShare(v, callee, Top(stack), (cc, 1, 0, 0));
    w[callee := w[callee].(cc := w[callee].cc + cc, nc := w[callee].nc + 1)]
  }

  datatype Built = Built(stats: Stats, last: seq<string>)

  /** One turn of the loop over the events. */
  function BuildEvent(b: Built, e: Event, inst: bool): Result<Built> {
    if e.stack == [] then Ok(b)
    else
      var v := AddEvent(b.stats, e, inst);
      if v.Err? then Err(v.error)
      else if |e.stack| == |b.last| + 1 then Ok(Built(v.value, e.stack))
      else if |e.stack| != |b.last| - 1 then Err(DepthChange)
      else if Top(b.last) !in v.value then Err(UnknownName)
      else Ok(Built(AddReturn(Put(v.value, Top(e.stack)), e.stack, Top(b.last)), e.stack))
  }

  function Build(events: seq<Event>, inst: bool): Result<Built> {
    if events == [] then Ok(Built(map[], []))
    else
      var b := Build(events[..|events| - 1], inst);
      if b.Err? then b else BuildEvent(b.value, events[|events| - 1], inst)
  }

  // ---- The dictionary of statistics ----

  ghost predicate Shows(d: map<string, Stat>, v: Stats)
    reads d.Values
  {
    && d.Keys == v.Keys
    && (forall a, b :: a in d && b in d && a != b ==> d[a] != d[b])
    && forall k :: k in d ==> d[k].View() == v[k]
  }

  method PutStat(d0: map<string, Stat>, name: string, ghost v: Stats) returns (d: map<string, Stat>)
    requires Shows(d0, v)
    ensures Shows(d, Put(v, name))
    ensures forall x :: x in d.Values ==> x in d0.Values || fresh(x)
  {
    d := d0;
    if name !in d {
      var s := new Stat();
      d := d[name := s];
    }
  }

  method Charge(d: map<string, Stat>, name: string, tt: int, ct: int, icount: int, ghost v: Stats)
    requires Shows(d, v) && name in d
    modifies d.Values
    ensures Shows(d, AddTime(v, name, tt, ct, icount))
  {
    d[name].tt := d[name].tt + tt;
    d[name].ct := d[name].ct + ct;
    d[name].icount := d[name].icount + icount;
  }

  method Share(d: map<string, Stat>, callee: string, caller: string, s: Shares, ghost v: Stats)
    requires Shows(d, v) && callee in d
    modifies d.Values
    ensures Shows(d, AddShare(v, callee, caller, s))
  {
    d[callee].AddCaller(caller, s);
  }

  method ChargeInstruction(d0: map<string, Stat>, name: string, x: (int, int), func: string,
                           ghost v: Stats, ghost executed: Executed, ghost done: Executed)
    returns (d: map<string, Stat>)
    requires name in executed && executed[name] == x && name !in done && Shows(d0, ChargeAll(v, done, func))
    modifies d0.Values
    ensures Shows(d, ChargeAll(v, done[name := x], func))
    ensures forall s :: s in d.Values ==> s in d0.Values || fresh(s)
  {
    hide *;
    ghost var w := ChargeAll(v, done, func);
    d := PutStat(d0, name, w);
    PutKeys(w, name);
    ShowsKeys(d, Put(w, name));
    Charge(d, name, x.1, x.1, 0, Put(w, name));
    AddTimeKeys(Put(w, name), name, x.1, x.1, 0);
    Share(d, name, func, (0, x.0, x.1, x.1), AddTime(Put(w, name), name, x.1, x.1, 0));
    ChargeOne(v, executed, done, name, func);
  }

  lemma PutKeys(v: Stats, name: string)
    ensures Put(v, name).Keys == v.Keys + {name}
  {
  }

  lemma AddTimeKeys(v: Stats, name: string, tt: int, ct: int, icount: int)
    requires name in v
    ensures AddTime(v, name, tt, ct, icount).Keys == v.Keys
  {
  }

  /** Charges the executed instructions one after the other, in any order. */
  method ChargeInstructions(d0: map<string, Stat>, executed: Executed, func: string, ghost v: Stats)
    returns (d: map<string, Stat>)
    requires Shows(d0, v)
    modifies d0.Values
    ensures Shows(d, ChargeAll(v, executed, func))
    ensures forall x :: x in d.Values ==> x in d0.Values || fresh(x)
  {
    hide *;
    d := d0;
    var left := executed.Keys;
    ghost var done: Executed := map[];
    ChargeNone(v, func);
    while left != {}
      invariant left <= executed.Keys && done == executed - left
      invariant Shows(d, ChargeAll(v, done, func))
      invariant forall x :: x in d.Values ==> x in d0.Values || fresh(x)
      decreases |left|
    {
      var name :| name in left;
      d := ChargeInstruction(d, name, executed[name], func, v, executed, done);
      left := left - {name};
      done := done[name := executed[name]];
    }
    assert done == executed;
  }

  lemma ChargeNone(v: Stats, func: string)
    ensures ChargeAll(v, map[], func) == v
  {
  }

  lemma ShowsKeys(d: map<string, Stat>, v: Stats)
    requires Shows(d, v)
    ensures d.Keys == v.Keys
  {
  }

  lemma ChargeOne(v: Stats, executed: Executed, done: Executed, name: string, func: string)
    requires name in executed && name !in done
    ensures var w, x := Put(ChargeAll(v, done, func), name), executed[name];
            AddShare(AddTime(w, name, x.1, x.1, 0), name, func, (0, x.0, x.1, x.1))
            == ChargeAll(v, done[name := x], func)
  {
  }

  // ---- The loop over the events ----

  method ChargeStack(d: map<string, Stat>, stack: seq<string>, duration: int, ghost v: Stats)
    requires Shows(d, v) && forall f :: f in stack ==> f in d
    modifies d.Values
    ensures Shows(d, AddCts(v, stack, |stack|, duration))
  {
    hide Shows, AddTime;
    ShowsKeys(d, v);
    for i := 0 to |stack|
      invariant Shows(d, AddCts(v, stack, i, duration))
    {
      Charge(d, stack[i], 0, duration, 0, AddCts(v, stack, i, duration));
    }
  }

  method ShareChain(d: map<string, Stat>, stack: seq<string>, duration: int, ghost v: Stats)
    requires Shows(d, v) && forall f :: f in stack ==> f in d
    modifies d.Values
    ensures Shows(d, AddChain(v, stack, |stack|, duration))
  {
    hide Shows, AddShare;
    ShowsKeys(d, v);
    for i := 0 to |stack|
      invariant Shows(d, AddChain(v, stack, i, duration))
    {
      if i > 0 {
        var caller := stack[i - 1];
        Share(d, stack[i], caller, (0, 0, 0, duration), AddChain(v, stack, i, duration));
      }
    }
  }

  method SpendOwn(d0: map<string, Stat>, event: Event, inst: bool, ghost v: Stats)
    returns (d: map<string, Stat>)
    requires Shows(d0, v) && event.stack != []
    modifies d0.Values
    ensures Shows(d, AddOwn(v, event, inst))
    ensures forall x :: x in d.Values ==> x in d0.Values || fresh(x)
  {
    hide Shows, ChargeAll, AddTime, Put;
    var func := event.stack[|event.stack| - 1];
    d := PutStat(d0, func, v);
    PutKeys(v, func);
    ghost var w := Put(v, func);
    var duration := if inst then 0 else event.duration;
    if inst {
      d := ChargeInstructions(d, event.executed, func, w);
      ChargeKeys(w, event.executed, func);
      w := ChargeAll(w, event.executed, func);
    }
    ShowsKeys(d, w);
    Charge(d, func, duration, 0, event.icount, w);
  }

  method SpendStack(d: map<string, Stat>, event: Event, inst: bool, ghost v: Stats)
    requires Shows(d, v) && event.stack != [] && forall f :: f in event.stack ==> f in d
    requires forall f :: f in event.stack ==> f in v
    modifies d.Values
    ensures Shows(d, AddStack(v, event, inst))
  {
    hide Shows, AddCts, AddChain, AddShare;
    var stack := event.stack;
    var func := stack[|stack| - 1];
    var duration := if inst then 0 else event.duration;
    ChargeStack(d, stack, event.duration, v);
    ghost var w := AddCts(v, stack, |stack|, event.duration);
    if |stack| > 1 {
      Share(d, func, stack[|stack| - 2], (0, 0, duration, 0), w);
      AddShareKeys(w, func, stack[|stack| - 2], (0, 0, duration, 0));
      w := AddShare(w, func, stack[|stack| - 2], (0, 0, duration, 0));
    }
    ShareChain(d, stack, event.duration, w);
  }

  /** The part of the loop body before the calls are counted. */
  method SpendTime(d0: map<string, Stat>, event: Event, inst: bool, ghost v: Stats)
    returns (e: Option<Error>, d: map<string, Stat>)
    requires Shows(d0, v) && event.stack != []
    modifies d0.Values
    ensures e == ErrorOf(AddEvent(v, event, inst))
    ensures e.None? ==> Shows(d, AddEvent(v, event, inst).value)
    ensures forall x :: x in d.Values ==> x in d0.Values || fresh(x)
  {
    hide Shows, AddOwn, AddStack;
    d := SpendOwn(d0, event, inst, v);
    ShowsKeys(d, AddOwn(v, event, inst));
    if exists f | f in event.stack :: f !in d {
      return Some(UnknownName), d;
    }
    SpendStack(d, event, inst, AddOwn(v, event, inst));
    e := None;
  }

  lemma ChargeKeys(v: Stats, executed: Executed, func: string)
    ensures ChargeAll(v, executed, func).Keys == v.Keys + executed.Keys
  {
  }

  lemma AddShareKeys(v: Stats, callee: string, caller: string, s: Shares)
    requires callee in v
    ensures AddShare(v, callee, caller, s).Keys == v.Keys
  {
  }

  method CountReturn(d: map<string, Stat>, stack: seq<string>, callee: string, ghost v: Stats)
    requires Shows(d, v) && stack != [] && callee in d
    modifies d.Values
    ensures Shows(d, AddReturn(v, stack, callee))
  {
    hide Shows, AddShare;
    ShowsKeys(d, v);
    var cc := if callee !in stack then 1 else 0;
    Share(d, callee, stack[|stack| - 1], (cc, 1, 0, 0), v);
    AddShareKeys(v, callee, stack[|stack| - 1], (cc, 1, 0, 0));
    CountCall(d, callee, cc, AddShare(v, callee, stack[|stack| - 1], (cc, 1, 0, 0)));
  }

  method CountCall(d: map<string, Stat>, callee: string, cc: int, ghost v: Stats)
    requires Shows(d, v) && callee in d && callee in v
    modifies d.Values
    ensures Shows(d, v[callee := v[callee].(cc := v[callee].cc + cc, nc := v[callee].nc + 1)])
  {
    d[callee].cc := d[callee].cc + cc;
    d[callee].nc := d[callee].nc + 1;
  }

  method BuildStats(events: seq<Event>, inst: bool) returns (e: Option<Error>, d: map<string, Stat>)
    ensures e == ErrorOf(Build(events, inst))
    ensures e.None? ==> Shows(d, Build(events, inst).value.stats)
    ensures fresh(d.Values)
  {
    hide Shows, AddEvent, AddReturn, Put, Top;
    d := map[];
    var last: seq<string> := [];
    assert Shows(d, map[]) by { ShowsNothing(); }
    assert events[..0] == [];
    for i := 0 to |events|
      invariant Build(events[..i], inst).Ok?
      invariant last == Build(events[..i], inst).value.last && Shows(d, Build(events[..i], inst).value.stats)
      invariant fresh(d.Values)
    {
      assert events[..i + 1][..i] == events[..i];
      var next;
      e, d, next := BuildTurn(d, last, events[i], inst, Build(events[..i], inst).value.stats);
      if e.Some? {
        NothingLater(events, i + 1, inst);
        return;
      }
      last := next;
    }
    assert events[..|events|] == events;
    e := None;
  }

  lemma ShowsNothing()
    ensures Shows(map[], map[])
  {
  }

  /** One event; `next` is the stack to compare the next one with. */
  method BuildTurn(d0: map<string, Stat>, last: seq<string>, event: Event, inst: bool, ghost v: Stats)
    returns (e: Option<Error>, d: map<string, Stat>, next: seq<string>)
    requires Shows(d0, v)
    modifies d0.Values
    ensures e == ErrorOf(BuildEvent(Built(v, last), event, inst))
    ensures e.None? ==> next == BuildEvent(Built(v, last), event, inst).value.last
    ensures e.None? ==> Shows(d, BuildEvent(Built(v, last), event, inst).value.stats)
    ensures forall x :: x in d.Values ==> x in d0.Values || fresh(x)
  {
    hide Shows, AddEvent, AddReturn, Put;
    if event.stack == [] {
      return None, d0, last;
    }
    next := event.stack;
    e, d := SpendTime(d0, event, inst, v);
    if e.Some? {
      return;
    }
    ghost var w := AddEvent(v, event, inst).value;
    ShowsKeys(d, w);
    if |event.stack| >= |last| {
      e := if |event.stack| == |last| + 1 then None else Some(DepthChange);
      return;
    }
    if |event.stack| != |last| - 1 {
      return Some(DepthChange), d, next;
    }
    if last[|last| - 1] !in d {
      return Some(UnknownName), d, next;
    }
    var callee := last[|last| - 1];
    d := PutStat(d, event.stack[|event.stack| - 1], w);
    PutKeys(w, Top(event.stack));
    ShowsKeys(d, Put(w, Top(event.stack)));
    CountReturn(d, event.stack, callee, Put(w, Top(event.stack)));
  }

  lemma {:induction false} NothingLater(events: seq<Event>, i: nat, inst: bool)
    requires i <= |events| && Build(events[..i], inst).Err?
    ensures Build(events, inst) == Build(events[..i], inst)
    decreases |events|
  {
    if i == |events| {
      assert events[..i] == events;
    } else {
      assert events[..|events| - 1][..i] == events[..i];
      NothingLater(events[..|events| - 1], i, inst);
    }
  }

  // ---- All time is accounted for ----

  ghost function Total(v: Stats): int {
    if v == map[] then 0 else var k :| k in v; v[k].tt + Total(v - {k})
  }

  lemma {:induction false} TotalWithout(v: Stats, k: string)
    requires k in v
    ensures Total(v) == v[k].tt + Total(v - {k})
    decreases |v|
  {
    var j :| j in v && Total(v) == v[j].tt + Total(v - {j});
    if j != k {
      TotalWithout(v - {j}, k);
      assert v - {j} - {k} == v - {k} - {j};
      TotalWithout(v - {k}, j);
    }
  }

  lemma TotalUpdate(v: Stats, k: string, s: StatView)
    ensures Total(v[k := s]) == Total(v) + s.tt - (if k in v then v[k].tt else 0)
  {
    TotalWithout(v[k := s], k);
    assert v[k := s] - {k} == v - {k};
    if k in v { TotalWithout(v, k); } else { assert v - {k} == v; }
  }

  lemma {:induction false} TotalChain(v: Stats, stack: seq<string>, n: nat, duration: int)
    requires n <= |stack| && forall f :: f in stack ==> f in v
    ensures Total(AddChain(v, stack, n, duration)) == Total(v)
    ensures Total(AddCts(v, stack, n, duration)) == Total(v)
    decreases n
  {
    hide Total, Shared;
    if n > 0 {
      TotalChain(v, stack, n - 1, duration);
      var c, t := AddChain(v, stack, n - 1, duration), AddCts(v, stack, n - 1, duration);
      if n > 1 { TotalUpdate(c, stack[n - 1], AddChain(v, stack, n, duration)[stack[n - 1]]); }
      TotalUpdate(t, stack[n - 1], AddCts(v, stack, n, duration)[stack[n - 1]]);
    }
  }

  lemma {:induction false} TotalCharge(v: Stats, executed: Executed, func: string)
    ensures Total(ChargeAll(v, executed, func)) == Total(v) + Cycles(executed)
    decreases |executed|
  {
    hide Total, Shared, Cycles;
    if executed == map[] {
      ChargeNone(v, func);
      NoCycles();
    } else {
      var name :| name in executed;
      var fewer := executed - {name};
      TotalCharge(v, fewer, func);
      CyclesWithout(executed, name);
      var w := ChargeAll(v, fewer, func);
      var s := Charged(if name in v then v[name] else ZERO, executed[name], func);
      assert ChargeAll(v, executed, func) == w[name := s];
      TotalUpdate(w, name, s);
    }
  }

  lemma NoCycles()
    ensures Cycles(map[]) == 0
  {
  }

  lemma TotalOwn(v: Stats, e: Event, inst: bool)
    requires e.stack != [] && (inst ==> Cycles(e.executed) == e.duration)
    ensures Total(AddOwn(v, e, inst)) == Total(v) + e.duration
  {
    hide Total, ChargeAll, Cycles;
    var func := Top(e.stack);
    TotalUpdate(v, func, ZERO);
    var w := if inst then ChargeAll(Put(v, func), e.executed, func) else Put(v, func);
    if inst {
      TotalCharge(Put(v, func), e.executed, func);
      ChargeKeys(Put(v, func), e.executed, func);
    }
    TotalUpdate(w, func, AddOwn(v, e, inst)[func]);
  }

  lemma TotalStack(v: Stats, e: Event, inst: bool)
    requires e.stack != [] && forall f :: f in e.stack ==> f in v
    ensures Total(AddStack(v, e, inst)) == Total(v)
  {
    hide Total, AddCts, AddChain, Shared;
    var stack := e.stack;
    var w := AddCts(v, stack, |stack|, e.duration);
    TotalChain(v, stack, |stack|, e.duration);
    var duration := if inst then 0 else e.duration;
    var x := if |stack| > 1 then AddShare(w, Top(stack), stack[|stack| - 2], (0, 0, duration, 0)) else w;
    TotalUpdate(w, Top(stack), x[Top(stack)]);
    TotalChain(x, stack, |stack|, e.duration);
  }

  lemma TotalReturn(v: Stats, stack: seq<string>, callee: string)
    requires stack != [] && callee in v
    ensures Total(AddReturn(Put(v, Top(stack)), stack, callee)) == Total(v)
  {
    hide Total, Shared, Top;
    var p := Put(v, Top(stack));
    TotalUpdate(v, Top(stack), ZERO);
    var cc := if callee in stack then 0 else 1;
    var w := AddShare(p, callee, Top(stack), (cc, 1, 0, 0));
    TotalUpdate(p, callee, w[callee]);
    TotalUpdate(w, callee, AddReturn(p, stack, callee)[callee]);
  }

  /** The time of the events with a stack. */
  function Spent(events: seq<Event>): int {
    if events == [] then 0
    else
      var e := events[|events| - 1];
      Spent(events[..|events| - 1]) + if e.stack == [] then 0 else e.duration
  }

  /** In both modes the times of the statistics add up to the durations of the events with a stack. */
  lemma {:induction false} TimeConserved(events: seq<Event>, inst: bool)
    requires Build(events, inst).Ok?
    requires inst ==> forall k :: 0 <= k < |events| ==> Cycles(events[k].executed) == events[k].duration
    ensures Total(Build(events, inst).value.stats) == Spent(events)
    decreases |events|
  {
    hide AddOwn, AddStack, AddReturn, Put, Cycles;
    if events != [] {
      var before, e := events[..|events| - 1], events[|events| - 1];
      TimeConserved(before, inst);
      var v := Build(before, inst).value.stats;
      hide Total;
      if e.stack != [] {
        TotalOwn(v, e, inst);
        TotalStack(AddOwn(v, e, inst), e, inst);
        var last := Build(before, inst).value.last;
        if |e.stack| != |last| + 1 {
          TotalReturn(AddEvent(v, e, inst).value, e.stack, Top(last));
        }
      }
    }
  }

  /** So do the statistics of any trace. */
  lemma TraceTimeConserved(fns: Functions, instrs: seq<Rvfi>, inst: bool)
    requires Build(EventsOf(fns, instrs, |instrs|), inst).Ok?
    ensures Total(Build(EventsOf(fns, instrs, |instrs|), inst).value.stats) == Spent(EventsOf(fns, instrs, |instrs|))
  {
    hide Cycles, Build, Spent, Total, EventsOf;
    var events := EventsOf(fns, instrs, |instrs|);
    forall k | 0 <= k < |events| ensures Cycles(events[k].executed) == events[k].duration {
      EventsConserve(fns, instrs, |instrs|, k);
    }
    TimeConserved(events, inst);
  }

  // ---- The time of each function ----

  function TtOf(v: Stats, f: string): int { if f in v then v[f].tt else 0 }

  function CtOf(v: Stats, f: string): int { if f in v then v[f].ct else 0 }

  function Occurrences(stack: seq<string>, f: string): nat {
    if stack == [] then 0 else Occurrences(stack[..|stack| - 1], f) + if stack[|stack| - 1] == f then 1 else 0
  }

  function TopTime(events: seq<Event>, f: string): int {
    if events == [] then 0
    else
      var e := events[|events| - 1];
      TopTime(events[..|events| - 1], f) + if e.stack != [] && Top(e.stack) == f then e.duration else 0
  }

  function StackTime(events: seq<Event>, f: string): int {
    if events == [] then 0
    else
      var e := events[|events| - 1];
      StackTime(events[..|events| - 1], f) + Occurrences(e.stack, f) * e.duration
  }

  lemma {:induction false} CtsOf(v: Stats, stack: seq<string>, n: nat, duration: int, f: string)
    requires n <= |stack| && forall g :: g in stack ==> g in v
    ensures CtOf(AddCts(v, stack, n, duration), f) == CtOf(v, f) + Occurrences(stack[..n], f) * duration
    ensures TtOf(AddCts(v, stack, n, duration), f) == TtOf(v, f)
    decreases n
  {
    if n > 0 {
      CtsOf(v, stack, n - 1, duration, f);
      OccurrencesNext(stack, n, f, duration);
      hide Occurrences;
    }
  }

  lemma OccurrencesNext(stack: seq<string>, n: nat, f: string, duration: int)
    requires 0 < n <= |stack|
    ensures Occurrences(stack[..n], f) * duration
            == Occurrences(stack[..n - 1], f) * duration + if stack[n - 1] == f then duration else 0
  {
    assert stack[..n][..n - 1] == stack[..n - 1];
    var o := Occurrences(stack[..n - 1], f);
    assert (o + 1) * duration == o * duration + duration;
  }

  lemma {:induction false} ChainOf(v: Stats, stack: seq<string>, n: nat, duration: int, f: string)
    requires n <= |stack| && forall g :: g in stack ==> g in v
    ensures CtOf(AddChain(v, stack, n, duration), f) == CtOf(v, f)
    ensures TtOf(AddChain(v, stack, n, duration), f) == TtOf(v, f)
    decreases n
  {
    hide Shared;
    if n > 0 { ChainOf(v, stack, n - 1, duration, f); }
  }

  lemma EventOf(v: Stats, e: Event, f: string)
    requires e.stack != [] && AddEvent(v, e, false).Ok?
    ensures var w := AddEvent(v, e, false).value;
            && TtOf(w, f) == TtOf(v, f) + (if Top(e.stack) == f then e.duration else 0)
            && CtOf(w, f) == CtOf(v, f) + Occurrences(e.stack, f) * e.duration
  {
    hide AddCts, AddChain, Shared, Occurrences;
    var stack := e.stack;
    assert stack[..|stack|] == stack;
    var v3 := AddOwn(v, e, false);
    CtsOf(v3, stack, |stack|, e.duration, f);
    var v4 := AddCts(v3, stack, |stack|, e.duration);
    var v5 := if |stack| > 1 then AddShare(v4, Top(stack), stack[|stack| - 2], (0, 0, e.duration, 0)) else v4;
    ChainOf(v5, stack, |stack|, e.duration, f);
  }

  lemma ReturnOf(v: Stats, stack: seq<string>, callee: string, f: string)
    requires stack != [] && callee in v
    ensures TtOf(AddReturn(Put(v, Top(stack)), stack, callee), f) == TtOf(v, f)
    ensures CtOf(AddReturn(Put(v, Top(stack)), stack, callee), f) == CtOf(v, f)
  {
    hide Shared, Top;
  }

  /** Without instruction analysis a function's own time is that of the events in which it is on top, and
      its cumulative time that of the events in whose stack it is, as often as it is there. */
  lemma {:induction false} FunctionTimes(events: seq<Event>, f: string)
    requires Build(events, false).Ok?
    ensures TtOf(Build(events, false).value.stats, f) == TopTime(events, f)
    ensures CtOf(Build(events, false).value.stats, f) == StackTime(events, f)
    decreases |events|
  {
    hide AddEvent, AddReturn, Put, Occurrences;
    if events != [] {
      var before, e := events[..|events| - 1], events[|events| - 1];
      FunctionTimes(before, f);
      var b := Build(before, false).value;
      if e.stack != [] {
        EventOf(b.stats, e, f);
        if |e.stack| != |b.last| + 1 {
          ReturnOf(AddEvent(b.stats, e, false).value, e.stack, Top(b.last), f);
        }
      } else {
        NoOccurrences(f);
      }
    }
  }

  lemma NoOccurrences(f: string)
    ensures Occurrences([], f) == 0
  {
  }

  // ---- When the assertions hold ----

  /** One stack is the other with one more function on top. */
  ghost predicate OneStep(a: seq<string>, b: seq<string>) {
    (|b| == |a| + 1 && a <= b) || (|a| == |b| + 1 && b <= a)
  }

  ghost predicate Stepwise(events: seq<Event>) {
    && (events != [] ==> events[0].stack == [])
    && forall k :: 0 < k < |events| ==> OneStep(events[k - 1].stack, events[k].stack)
  }

  /** The stacks of the events of a trace change by one function at a time, from the empty one. */
  lemma {:induction false} TraceStepwise(fns: Functions, instrs: seq<Rvfi>, i: nat)
    requires i <= |instrs|
    ensures var events := EventsOf(fns, instrs, i);
            && Stepwise(events)
            && (if events == [] then StackAt(fns, instrs, i) == []
                else OneStep(events[|events| - 1].stack, Names(StackAt(fns, instrs, i))))
    decreases i
  {
    hide EventsOf, StackAt, Moved, IsEvent, Stepwise, OneStep, Names;
    EventsStart(fns, instrs);
    if i > 0 {
      TraceStepwise(fns, instrs, i - 1);
      EventsNext(fns, instrs, i - 1);
      var before := EventsOf(fns, instrs, i - 1);
      MovedSteps(fns, StackAt(fns, instrs, i - 1), instrs[i - 1].address);
      if IsEvent(fns, StackAt(fns, instrs, i - 1), instrs[i - 1].address) {
        var e := EventsOf(fns, instrs, i)[|before|];
        StepwiseMore(before, e);
      }
    } else {
      StepwiseNone();
    }
  }

  lemma EventsStart(fns: Functions, instrs: seq<Rvfi>)
    ensures EventsOf(fns, instrs, 0) == [] && StackAt(fns, instrs, 0) == []
  {
  }

  lemma EventsNext(fns: Functions, instrs: seq<Rvfi>, i: nat)
    requires i < |instrs|
    ensures StackAt(fns, instrs, i + 1) == Moved(fns, StackAt(fns, instrs, i), instrs[i].address)
    ensures var before, after := EventsOf(fns, instrs, i), EventsOf(fns, instrs, i + 1);
            if IsEvent(fns, StackAt(fns, instrs, i), instrs[i].address)
            then |after| == |before| + 1 && after == before + [after[|before|]]
                 && after[|before|].stack == Names(StackAt(fns, instrs, i))
            else after == before
  {
    hide Tally, Moved, IsEvent, Since, CycleBefore, Names;
  }

  lemma StepwiseNone()
    ensures Stepwise([]) && Names([]) == []
  {
  }

  lemma MovedSteps(fns: Functions, stack: seq<Fn>, addr: nat)
    ensures IsEvent(fns, stack, addr) ==> OneStep(Names(stack), Names(Moved(fns, stack, addr)))
    ensures !IsEvent(fns, stack, addr) ==> Moved(fns, stack, addr) == stack
    ensures stack == [] ==> Names(stack) == []
  {
    hide InSome;
  }

  lemma StepwiseMore(events: seq<Event>, e: Event)
    requires Stepwise(events)
    requires if events == [] then e.stack == [] else OneStep(events[|events| - 1].stack, e.stack)
    ensures Stepwise(events + [e])
  {
    hide OneStep;
  }

  /** No event but the first and the last has an empty stack. */
  ghost predicate NeverRefilled(events: seq<Event>) {
    forall j :: 0 < j < |events| - 1 ==> events[j].stack != []
  }

  lemma EventKnown(v: Stats, e: Event, inst: bool)
    requires e.stack != [] && Knows(v, e.stack[..|e.stack| - 1])
    ensures AddEvent(v, e, inst).Ok? && Knows(AddEvent(v, e, inst).value, e.stack)
    ensures v.Keys <= AddEvent(v, e, inst).value.Keys
  {
    hide AddCts, AddChain, Shared, AddStack;
    var w := AddOwn(v, e, inst);
    forall f | f in e.stack ensures f in w {
      var k :| 0 <= k < |e.stack| && e.stack[k] == f;
      if k < |e.stack| - 1 { assert e.stack[..|e.stack| - 1][k] == f; }
    }
    StackKeys(w, e, inst);
  }

  lemma StackKeys(v: Stats, e: Event, inst: bool)
    requires e.stack != [] && forall f :: f in e.stack ==> f in v
    ensures AddStack(v, e, inst).Keys == v.Keys
  {
    hide AddCts, AddChain, Shared;
  }

  /** What the loop compares the next event with: the last stack that was not empty. */
  function LastStack(events: seq<Event>): seq<string> {
    if events == [] then []
    else if events[|events| - 1].stack != [] then events[|events| - 1].stack
    else LastStack(events[..|events| - 1])
  }

  /** For stacks that change one function at a time, the assertions on the depth hold if and only if the
      stack is never left empty for a further call, and no name is ever missing. */
  lemma {:induction false} BuildsIff(events: seq<Event>, inst: bool)
    requires Stepwise(events)
    ensures Build(events, inst).Ok? <==> NeverRefilled(events)
    ensures Build(events, inst).Err? ==> Build(events, inst).error == DepthChange
    ensures Build(events, inst).Ok? ==>
              var b := Build(events, inst).value;
              b.last == LastStack(events) && Knows(b.stats, b.last)
    decreases |events|
  {
    if events != [] {
      var before, e := events[..|events| - 1], events[|events| - 1];
      assert Stepwise(before);
      BuildsIff(before, inst);
      NeverRefilledNext(events);
      if Build(before, inst).Ok? {
        BuildsNext(events, inst);
      }
    }
  }

  lemma NeverRefilledNext(events: seq<Event>)
    requires events != []
    ensures var n := |events|;
            NeverRefilled(events)
            <==> NeverRefilled(events[..n - 1]) && (n >= 3 ==> events[n - 2].stack != [])
  {
    var before := events[..|events| - 1];
    assert forall j :: 0 <= j < |before| ==> before[j] == events[j];
  }

  lemma BuildsNext(events: seq<Event>, inst: bool)
    requires Stepwise(events) && events != []
    requires var before := events[..|events| - 1];
             Build(before, inst).Ok?
             && Build(before, inst).value.last == LastStack(before)
             && Knows(Build(before, inst).value.stats, LastStack(before))
    ensures Build(events, inst).Ok? <==> (|events| >= 3 ==> events[|events| - 2].stack != [])
    ensures Build(events, inst).Err? ==> Build(events, inst).error == DepthChange
    ensures Build(events, inst).Ok? ==>
              var b := Build(events, inst).value;
              b.last == LastStack(events) && Knows(b.stats, b.last)
  {
    hide AddEvent, AddReturn, Put;
    var n := |events|;
    var before, e := events[..n - 1], events[n - 1];
    var b := Build(before, inst).value;
    if n >= 2 { assert OneStep(events[n - 2].stack, e.stack) && before[|before| - 1] == events[n - 2]; }
    if e.stack != [] {
      LastStackNear(events);
      EventKnown(b.stats, e, inst);
      if b.last != [] && |e.stack| == |b.last| - 1 {
        ReturnKeys(AddEvent(b.stats, e, inst).value, e.stack, Top(b.last));
      }
    }
  }

  lemma ReturnKeys(v: Stats, stack: seq<string>, callee: string)
    requires stack != [] && callee in v
    ensures v.Keys <= AddReturn(Put(v, Top(stack)), stack, callee).Keys
  {
    hide Shared;
  }

  /** Before an event with a stack, the last stack is that of the event before, or else one function. */
  lemma LastStackNear(events: seq<Event>)
    requires Stepwise(events) && events != [] && events[|events| - 1].stack != []
    ensures var n, last := |events|, LastStack(events[..|events| - 1]);
            && n >= 2
            && (events[n - 2].stack != [] ==> last == events[n - 2].stack)
            && (events[n - 2].stack == [] ==> |events[n - 1].stack| == 1 && |last| == if n >= 3 then 1 else 0)
  {
    var n := |events|;
    var before := events[..n - 1];
    assert n >= 2 && OneStep(events[n - 2].stack, events[n - 1].stack) && before[n - 2] == events[n - 2];
    if events[n - 2].stack == [] && n >= 3 {
      assert OneStep(events[n - 3].stack, events[n - 2].stack) && before[..n - 2][n - 3] == events[n - 3];
    }
  }

  /** The statistics of a trace can be built if and only if it never calls a function again after it has
      left the stack empty, with a further event behind that call; otherwise the assertion on the depth fails. */
  lemma TraceBuildsIff(fns: Functions, instrs: seq<Rvfi>, inst: bool)
    ensures var events := EventsOf(fns, instrs, |instrs|);
            && (Build(events, inst).Ok? <==> NeverRefilled(events))
            && (Build(events, inst).Err? ==> Build(events, inst).error == DepthChange)
  {
    hide EventsOf, Build, Stepwise, NeverRefilled, OneStep, StackAt, Names, LastStack;
    TraceStepwise(fns, instrs, |instrs|);
    BuildsIff(EventsOf(fns, instrs, |instrs|), inst);
  }

  const MAIN := Fn("main", 0, 8)
  const HELPER := Fn("f", 16, 8)
  const TWO_FUNCTIONS: Functions := map[0 := MAIN, 16 := HELPER]
  const REFILLING: seq<Rvfi> := [Rvfi(0, 1, "add"), Rvfi(20, 2, "add"), Rvfi(16, 3, "add"), Rvfi(4, 4, "add")]

  /** Such a trace: it enters `main`, leaves it, enters `f` and leaves it. */
  lemma RefillingTrace(inst: bool)
    ensures TWO_FUNCTIONS == Table([MAIN, HELPER])
    ensures var events := EventsOf(TWO_FUNCTIONS, REFILLING, 4);
            && |events| == 4 && events[2].stack == [] && events[3].stack == ["f"]
            && Build(events, inst) == Err(DepthChange)
  {
    hide Build, EventsOf, StackAt, NeverRefilled, IsEvent;
    RefillingTable();
    RefillingStacks();
    EventsStart(TWO_FUNCTIONS, REFILLING);
    for i: nat := 0 to 4
      invariant var e := EventsOf(TWO_FUNCTIONS, REFILLING, i);
                |e| == i && forall k: nat :: k < i ==> e[k].stack == Names(StackAt(TWO_FUNCTIONS, REFILLING, k))
    {
      assert Raises(TWO_FUNCTIONS, REFILLING, i);
      EventsNext(TWO_FUNCTIONS, REFILLING, i);
    }
    assert Names([]) == [] && Names([HELPER]) == ["f"];
    TraceBuildsIff(TWO_FUNCTIONS, REFILLING, inst);
    RefilledOnce(EventsOf(TWO_FUNCTIONS, REFILLING, 4));
  }

  lemma RefillingTable()
    ensures TWO_FUNCTIONS == Table([MAIN, HELPER])
  {
    assert [MAIN, HELPER][..1] == [MAIN] && [MAIN][..0] == [];
    assert Table([MAIN]) == map[0 := MAIN];
  }

  lemma RefilledOnce(events: seq<Event>)
    requires |events| == 4 && events[2].stack == []
    ensures !NeverRefilled(events)
  {
  }

  lemma RefillingStacks()
    ensures StackAt(TWO_FUNCTIONS, REFILLING, 0) == [] && StackAt(TWO_FUNCTIONS, REFILLING, 1) == [MAIN]
    ensures StackAt(TWO_FUNCTIONS, REFILLING, 2) == [] && StackAt(TWO_FUNCTIONS, REFILLING, 3) == [HELPER]
    ensures forall i :: 0 <= i < 4 ==> Raises(TWO_FUNCTIONS, REFILLING, i)
  {
    assert TWO_FUNCTIONS[16].Contains(20) && TWO_FUNCTIONS[0].Contains(4);
    assert StackAt(TWO_FUNCTIONS, REFILLING, 1) == [MAIN];
    assert StackAt(TWO_FUNCTIONS, REFILLING, 2) == [];
    assert StackAt(TWO_FUNCTIONS, REFILLING, 3) == [HELPER];
  }
}
