/**
 The sense-reversing barrier of verif/tests/custom/common/util.h as a state machine.

 A state holds the two shared variables and, for each thread, where it stands in `barrier` and its
 thread-local sense.  One step is one atomic action of one thread; a run is any schedule of thread
 numbers.  Each thread calls `barrier` `calls` times.  Memory is sequentially consistent and the
 fetch-and-add is atomic.

 `entered`, `arrived` and `left` count the calls a thread has begun, the increments it has made and the
 calls it has returned from, and `rounds` counts the stores to `sense`; no step reads them except to
 stop a thread after its last call.
 */
module Barrier {
  import opened Finite

  datatype Pc =
    | Idle     // outside the barrier
    | Flipped  // has reversed its own sense, about to fetch and add
    | Reset    // was the last to arrive, about to store 0 to count
    | Publish  // about to store its sense to the shared sense
    | Spin     // waits for the shared sense to equal its own

  datatype Thread = Thread(pc: Pc, threadsense: bool, entered: nat, arrived: nat, left: nat)

  datatype State = State(ncores: nat, calls: nat, sense: bool, count: int, threads: seq<Thread>, rounds: nat)

  function Init(ncores: nat, calls: nat): State {
    State(ncores, calls, false, 0, seq(ncores, _ => Thread(Idle, false, 0, 0, 0)), 0)
  }

  /** The next action of thread `i`.  A thread that spins in vain, or has made all its calls, changes
      nothing. */
  function Step(s: State, i: nat): (r: State)
    requires i < |s.threads|
    ensures |r.threads| == |s.threads| && r.ncores == s.ncores && r.calls == s.calls
  {
    var t := s.threads[i];
    match t.pc
    case Idle =>
      if t.entered >= s.calls then s
      else s.(threads := s.threads[i := Thread(Flipped, !t.threadsense, t.entered + 1, t.arrived, t.left)])
    case Flipped =>
      var next := if s.count == s.ncores - 1 then Reset else Spin;
      s.(count := s.count + 1, threads := s.threads[i := t.(pc := next, arrived := t.arrived + 1)])
    case Reset =>
      s.(count := 0, threads := s.threads[i := t.(pc := Publish)])
    case Publish =>
      s.(sense := t.threadsense, rounds := s.rounds + 1, threads := s.threads[i := t.(pc := Idle, left := t.left + 1)])
    case Spin =>
      if s.sense != t.threadsense then s
      else s.(threads := s.threads[i := t.(pc := Idle, left := t.left + 1)])
  }

  predicate Schedule(ncores: nat, sched: seq<nat>) {
    forall k :: 0 <= k < |sched| ==> sched[k] < ncores
  }

  function Run(s: State, sched: seq<nat>): (r: State)
    requires |s.threads| == s.ncores && Schedule(s.ncores, sched)
    ensures |r.threads| == r.ncores == s.ncores && r.calls == s.calls
    decreases |sched|
  {
    if sched == [] then s else Step(Run(s, sched[..|sched| - 1]), sched[|sched| - 1])
  }

  // ---- The invariant ----

  predicate IsOdd(k: nat) { k % 2 == 1 }

  /** A thread relative to the number of finished rounds. */
  predicate ThreadOk(t: Thread, rounds: nat) {
    && t.threadsense == IsOdd(t.entered)
    && match t.pc
       case Idle => t.entered == t.arrived == t.left == rounds
       case Flipped => t.entered == rounds + 1 && t.arrived == t.left == rounds
       case Reset => t.entered == t.arrived == rounds + 1 && t.left == rounds
       case Publish => t.entered == t.arrived == rounds + 1 && t.left == rounds
       case Spin => t.entered == t.arrived == t.left + 1 && (t.entered == rounds || t.entered == rounds + 1)
  }

  predicate Leads(t: Thread) { t.pc.Reset? || t.pc.Publish? }

  /** The threads that have arrived in the round now running. */
  function Arrived(s: State): (w: set<nat>) {
    set i | 0 <= i < |s.threads| && s.threads[i].arrived == s.rounds + 1
  }

  ghost predicate Inv(s: State) {
    && s.ncores >= 1 && |s.threads| == s.ncores
    && s.sense == IsOdd(s.rounds)
    && (forall i :: 0 <= i < s.ncores ==> ThreadOk(s.threads[i], s.rounds))
    && (forall i :: 0 <= i < s.ncores ==> s.threads[i].entered <= s.calls)
    && (forall i, j :: 0 <= i < s.ncores && 0 <= j < s.ncores && i != j && Leads(s.threads[i]) ==>
          s.threads[j].pc.Spin? && s.threads[j].arrived == s.rounds + 1)
    && (forall i :: 0 <= i < s.ncores && s.threads[i].pc.Publish? ==> s.count == 0)
    && ((forall i :: 0 <= i < s.ncores ==> !s.threads[i].pc.Publish?) ==> s.count == |Arrived(s)|)
    && ((forall i :: 0 <= i < s.ncores ==> !Leads(s.threads[i])) ==> |Arrived(s)| < s.ncores)
  }

  lemma ArrivedBounded(s: State)
    requires |s.threads| == s.ncores
    ensures |Arrived(s)| <= s.ncores
    ensures |Arrived(s)| == s.ncores ==> forall i :: 0 <= i < s.ncores ==> s.threads[i].arrived == s.rounds + 1
    ensures (forall i :: 0 <= i < s.ncores ==> s.threads[i].arrived == s.rounds + 1) ==> |Arrived(s)| == s.ncores
  {
    var all := Below(s.ncores);
    SubsetSize(Arrived(s), all);
    if |Arrived(s)| == s.ncores {
      forall i | 0 <= i < s.ncores ensures s.threads[i].arrived == s.rounds + 1 { assert i in all; }
    }
    if forall i :: 0 <= i < s.ncores ==> s.threads[i].arrived == s.rounds + 1 {
      assert Arrived(s) == all;
    }
  }

  lemma InitInv(ncores: nat, calls: nat)
    requires ncores >= 1
    ensures Inv(Init(ncores, calls))
  {
    assert Arrived(Init(ncores, calls)) == {};
  }

  // ---- Each action keeps it ----

  /** Steps that change neither `rounds` nor the thread's arrival leave the set of arrived threads. */
  lemma ArrivedSame(s: State, u: State, i: nat)
    requires |u.threads| == |s.threads| && i < |s.threads| && u.rounds == s.rounds
    requires u.threads == s.threads[i := u.threads[i]] && u.threads[i].arrived == s.threads[i].arrived
    ensures Arrived(u) == Arrived(s)
  {
  }

  lemma EnterInv(s: State, i: nat)
    requires Inv(s) && i < s.ncores && s.threads[i].pc.Idle? && s.threads[i].entered < s.calls
    ensures Inv(Step(s, i))
  {
    hide Arrived;
    var u := Step(s, i);
    ArrivedSame(s, u, i);
    assert forall j :: 0 <= j < s.ncores && j != i ==> u.threads[j] == s.threads[j];
    assert ThreadOk(s.threads[i], s.rounds);
    assert forall j :: 0 <= j < s.ncores ==> !Leads(s.threads[j]);
    assert forall j :: 0 <= j < s.ncores ==> !Leads(u.threads[j]);
  }

  lemma NoLeader(s: State, i: nat)
    requires Inv(s) && i < s.ncores && s.threads[i].pc.Flipped?
    ensures forall j :: 0 <= j < s.ncores ==> !Leads(s.threads[j])
    ensures s.count == |Arrived(s)| < s.ncores && i !in Arrived(s)
  {
    assert ThreadOk(s.threads[i], s.rounds);
    hide Arrived, ThreadOk;
    assert forall j :: 0 <= j < s.ncores ==> !Leads(s.threads[j]);
  }

  lemma ArriveCounts(s: State, i: nat)
    requires Inv(s) && i < s.ncores && s.threads[i].pc.Flipped?
    ensures s.count == |Arrived(s)| < s.ncores
    ensures Arrived(Step(s, i)) == Arrived(s) + {i} && Step(s, i).count == |Arrived(Step(s, i))|
    ensures forall j :: 0 <= j < s.ncores ==> !Leads(s.threads[j])
  {
    NoLeader(s, i);
    assert ThreadOk(s.threads[i], s.rounds) && |s.threads| == s.ncores;
    hide Inv;
    var u := Step(s, i);
    assert u.threads[i].arrived == u.rounds + 1;
    assert forall j :: 0 <= j < s.ncores && j != i ==> u.threads[j] == s.threads[j];
    assert Arrived(u) == Arrived(s) + {i};
  }

  /** When everyone has arrived, the last one leads and the others spin. */
  lemma ArriveLastInv(s: State, i: nat)
    requires Inv(s) && i < s.ncores && s.threads[i].pc.Flipped? && s.count == s.ncores - 1
    ensures Inv(Step(s, i))
  {
    var u := Step(s, i);
    ArriveCounts(s, i);
    ArrivedBounded(u);
    assert ThreadOk(s.threads[i], s.rounds) && s.threads[i].entered <= s.calls && s.sense == IsOdd(s.rounds);
    hide Arrived;
    forall j | 0 <= j < s.ncores && j != i
      ensures u.threads[j] == s.threads[j] && ThreadOk(u.threads[j], u.rounds) && u.threads[j].pc.Spin?
      ensures u.threads[j].arrived == u.rounds + 1 && u.threads[j].entered <= u.calls
    {
      assert ThreadOk(s.threads[j], s.rounds) && !Leads(s.threads[j]) && u.threads[j].arrived == u.rounds + 1;
    }
    assert u.threads[i].pc.Reset? && ThreadOk(u.threads[i], u.rounds);
    LeaderInv(u, i);
  }

  lemma LeaderInv(u: State, i: nat)
    requires u.ncores >= 1 && |u.threads| == u.ncores && u.sense == IsOdd(u.rounds) && u.count == |Arrived(u)|
    requires i < u.ncores && u.threads[i].pc.Reset?
    requires forall j :: 0 <= j < u.ncores ==> ThreadOk(u.threads[j], u.rounds) && u.threads[j].entered <= u.calls
    requires forall j :: 0 <= j < u.ncores && j != i ==>
               u.threads[j].pc.Spin? && u.threads[j].arrived == u.rounds + 1
    ensures Inv(u)
  {
    hide ThreadOk, Arrived;
    assert Leads(u.threads[i]);
  }

  lemma ArriveEarlyInv(s: State, i: nat)
    requires Inv(s) && i < s.ncores && s.threads[i].pc.Flipped? && s.count != s.ncores - 1
    ensures Inv(Step(s, i))
  {
    var u := Step(s, i);
    ArriveCounts(s, i);
    assert ThreadOk(s.threads[i], s.rounds);
    hide Arrived;
    assert forall j :: 0 <= j < s.ncores && j != i ==> u.threads[j] == s.threads[j];
    assert forall j :: 0 <= j < s.ncores ==> !Leads(u.threads[j]);
  }

  lemma ResetInv(s: State, i: nat)
    requires Inv(s) && i < s.ncores && s.threads[i].pc.Reset?
    ensures Inv(Step(s, i))
  {
    var u := Step(s, i);
    ArrivedSame(s, u, i);
    assert ThreadOk(s.threads[i], s.rounds);
    assert forall j :: 0 <= j < s.ncores && j != i ==> u.threads[j] == s.threads[j];
    assert u.threads[i].pc.Publish?;
  }

  lemma PublishInv(s: State, i: nat)
    requires Inv(s) && i < s.ncores && s.threads[i].pc.Publish?
    ensures Inv(Step(s, i))
  {
    var u := Step(s, i);
    assert ThreadOk(s.threads[i], s.rounds);
    forall j | 0 <= j < s.ncores && j != i
      ensures u.threads[j] == s.threads[j] && ThreadOk(u.threads[j], u.rounds) && u.threads[j].pc.Spin?
    {
      assert Leads(s.threads[i]) && ThreadOk(s.threads[j], s.rounds);
    }
    assert Arrived(u) == {};
  }

  lemma SpinInv(s: State, i: nat)
    requires Inv(s) && i < s.ncores && s.threads[i].pc.Spin?
    ensures Inv(Step(s, i))
  {
    var u := Step(s, i);
    var t := s.threads[i];
    assert ThreadOk(t, s.rounds);
    if s.sense == t.threadsense {
      assert t.entered == s.rounds;
      assert forall j :: 0 <= j < s.ncores ==> !Leads(s.threads[j]);
      ArrivedSame(s, u, i);
      assert forall j :: 0 <= j < s.ncores && j != i ==> u.threads[j] == s.threads[j];
    }
  }

  lemma StepInv(s: State, i: nat)
    requires Inv(s) && i < s.ncores == |s.threads|
    ensures Inv(Step(s, i))
  {
    hide Inv;
    match s.threads[i].pc
    case Idle => if s.threads[i].entered < s.calls { EnterInv(s, i); }
    case Flipped => if s.count == s.ncores - 1 { ArriveLastInv(s, i); } else { ArriveEarlyInv(s, i); }
    case Reset => ResetInv(s, i);
    case Publish => PublishInv(s, i);
    case Spin => SpinInv(s, i);
  }

  lemma {:induction false} RunInv(s: State, sched: seq<nat>)
    requires Inv(s) && |s.threads| == s.ncores && Schedule(s.ncores, sched)
    ensures Inv(Run(s, sched))
    decreases |sched|
  {
    hide Inv, Step;
    if sched != [] {
      RunInv(s, sched[..|sched| - 1]);
      StepInv(Run(s, sched[..|sched| - 1]), sched[|sched| - 1]);
    }
  }

  // ---- Safety ----

  /** No thread leaves its k-th barrier before every thread has arrived at its k-th, and the calls that
      any two threads have begun differ by at most one. */
  lemma NoOvertaking(ncores: nat, calls: nat, sched: seq<nat>, i: nat, j: nat)
    requires ncores >= 1 && Schedule(ncores, sched) && i < ncores && j < ncores
    ensures var s := Run(Init(ncores, calls), sched);
            && s.threads[i].left <= s.threads[j].arrived <= s.threads[j].entered
            && s.threads[i].entered <= s.threads[j].entered + 1
  {
    InitInv(ncores, calls);
    RunInv(Init(ncores, calls), sched);
    var s := Run(Init(ncores, calls), sched);
    assert ThreadOk(s.threads[i], s.rounds) && ThreadOk(s.threads[j], s.rounds);
  }

  /** When a thread is about to store 0 to `count`, every increment there is belongs to the round it
      closes and every other thread spins in that round, so the store destroys no later increment. */
  lemma ResetLosesNothing(ncores: nat, calls: nat, sched: seq<nat>, i: nat, j: nat)
    requires ncores >= 1 && Schedule(ncores, sched) && i < ncores && j < ncores && i != j
    requires Run(Init(ncores, calls), sched).threads[i].pc.Reset?
    ensures var s := Run(Init(ncores, calls), sched);
            && s.count == ncores
            && s.threads[j].pc.Spin? && s.threads[j].arrived == s.threads[i].arrived
            && s.sense != s.threads[j].threadsense
  {
    hide Run, Inv;
    InitInv(ncores, calls);
    RunInv(Init(ncores, calls), sched);
    ResetState(Run(Init(ncores, calls), sched), i, j);
  }

  lemma ResetState(s: State, i: nat, j: nat)
    requires Inv(s) && |s.threads| == s.ncores && i < s.ncores && j < s.ncores && i != j && s.threads[i].pc.Reset?
    ensures s.threads[j].pc.Spin? && s.threads[j].arrived == s.threads[i].arrived
    ensures s.count == s.ncores && s.sense != s.threads[j].threadsense
  {
    hide Arrived;
    assert ThreadOk(s.threads[i], s.rounds) && ThreadOk(s.threads[j], s.rounds) && Leads(s.threads[i]);
    AllArrived(s, i);
  }

  lemma AllArrived(s: State, i: nat)
    requires Inv(s) && i < s.ncores && s.threads[i].pc.Reset?
    ensures s.count == s.ncores
  {
    hide Arrived;
    assert ThreadOk(s.threads[i], s.rounds) && Leads(s.threads[i]);
    ArrivedBounded(s);
  }

  /** At most one thread is between its two stores. */
  lemma OneLeader(ncores: nat, calls: nat, sched: seq<nat>, i: nat, j: nat)
    requires ncores >= 1 && Schedule(ncores, sched) && i < ncores && j < ncores
    requires Leads(Run(Init(ncores, calls), sched).threads[i]) && Leads(Run(Init(ncores, calls), sched).threads[j])
    ensures i == j
  {
    InitInv(ncores, calls);
    RunInv(Init(ncores, calls), sched);
  }

  // ---- Liveness ----

  predicate Moves(s: State, i: nat)
    requires i < |s.threads|
  {
    Step(s, i) != s
  }

  /** The thread has returned from its last call. */
  predicate Through(s: State, t: Thread) {
    t.pc.Idle? && t.left >= s.calls
  }

  ghost predicate Complete(s: State) {
    forall i :: 0 <= i < |s.threads| ==> Through(s, s.threads[i])
  }

  /** No deadlock: until every thread is through, some thread can change the state. */
  lemma SomeThreadMoves(s: State) returns (i: nat)
    requires Inv(s) && !Complete(s)
    ensures i < |s.threads| && Moves(s, i)
  {
    if k :| 0 <= k < s.ncores && (s.threads[k].pc.Flipped? || Leads(s.threads[k])) {
      i := k;
      assert Step(s, k).threads[k].pc != s.threads[k].pc;
    } else if k :| 0 <= k < s.ncores && s.threads[k].pc.Spin? && s.threads[k].entered == s.rounds {
      i := k;
      assert ThreadOk(s.threads[k], s.rounds);
      assert Step(s, k).threads[k].pc.Idle?;
    } else {
      i := SomeThreadEnters(s);
    }
  }

  lemma AllThrough(s: State)
    requires Inv(s)
    requires forall k :: 0 <= k < s.ncores ==> !s.threads[k].pc.Flipped? && !Leads(s.threads[k])
    requires forall k :: 0 <= k < s.ncores && s.threads[k].pc.Spin? ==> s.threads[k].entered != s.rounds
    ensures s.rounds >= s.calls ==> Complete(s)
  {
    if s.rounds >= s.calls {
      forall k | 0 <= k < s.ncores ensures Through(s, s.threads[k]) {
        assert ThreadOk(s.threads[k], s.rounds);
      }
    }
  }

  /** With every thread idle or waiting for the round, one that is idle may still enter. */
  lemma SomeThreadEnters(s: State) returns (i: nat)
    requires Inv(s) && !Complete(s)
    requires forall k :: 0 <= k < s.ncores ==> !s.threads[k].pc.Flipped? && !Leads(s.threads[k])
    requires forall k :: 0 <= k < s.ncores && s.threads[k].pc.Spin? ==> s.threads[k].entered != s.rounds
    ensures i < |s.threads| && Moves(s, i)
  {
    ArrivedBounded(s);
    forall k | 0 <= k < s.ncores ensures ThreadOk(s.threads[k], s.rounds) {}
    var w :| 0 <= w < s.ncores && s.threads[w].arrived != s.rounds + 1;
    assert s.threads[w].pc.Idle? && s.threads[w].entered == s.rounds;
    i := w;
    AllThrough(s);
    assert Step(s, w).threads[w].pc.Flipped?;
  }

  /** The state-changing actions a thread has made: three for each finished call. */
  function Effort(t: Thread): nat {
    3 * t.left + match t.pc
                 case Idle => 0
                 case Flipped => 1
                 case Reset => 2
                 case Publish => 2
                 case Spin => 2
  }

  function Efforts(threads: seq<Thread>): nat {
    if threads == [] then 0 else Effort(threads[0]) + Efforts(threads[1..])
  }

  lemma {:induction false} EffortsUpdate(threads: seq<Thread>, i: nat, t: Thread)
    requires i < |threads|
    ensures Efforts(threads[i := t]) == Efforts(threads) - Effort(threads[i]) + Effort(t)
    decreases |threads|
  {
    if i > 0 {
      assert threads[i := t][1..] == threads[1..][i - 1 := t];
      EffortsUpdate(threads[1..], i - 1, t);
    } else {
      assert threads[i := t][1..] == threads[1..];
    }
  }

  lemma {:induction false} EffortsBounded(threads: seq<Thread>, most: nat)
    requires forall i :: 0 <= i < |threads| ==> Effort(threads[i]) <= most
    ensures Efforts(threads) <= |threads| * most
    ensures Efforts(threads) == |threads| * most ==> forall i :: 0 <= i < |threads| ==> Effort(threads[i]) == most
    decreases |threads|
  {
    if threads != [] {
      EffortsBounded(threads[1..], most);
      assert |threads| * most == |threads[1..]| * most + most;
      assert forall i :: 0 < i < |threads| ==> threads[i] == threads[1..][i - 1];
    }
  }

  ghost predicate Publishing(s: State) {
    exists i :: 0 <= i < |s.threads| && s.threads[i].pc.Publish?
  }

  /** All the state-changing actions made so far; the last arriver of a round makes one more. */
  ghost function Done(s: State): nat {
    Efforts(s.threads) + s.rounds + (if Publishing(s) then 1 else 0)
  }

  /** While some thread publishes, every other one spins in the same round and cannot move. */
  lemma OnlyPublisherMoves(s: State, i: nat, k: nat)
    requires Inv(s) && i < s.ncores && k < s.ncores && k != i && s.threads[k].pc.Publish?
    ensures !Moves(s, i)
  {
    assert Leads(s.threads[k]);
    assert ThreadOk(s.threads[i], s.rounds);
  }

  lemma PublishingAfter(s: State, i: nat)
    requires Inv(s) && i < s.ncores && Moves(s, i)
    ensures Publishing(s) == s.threads[i].pc.Publish?
    ensures Publishing(Step(s, i)) == s.threads[i].pc.Reset?
  {
    var u := Step(s, i);
    forall k | 0 <= k < s.ncores && k != i ensures s.threads[k].pc.Publish? ==> !Moves(s, i) {
      if s.threads[k].pc.Publish? { OnlyPublisherMoves(s, i, k); }
    }
    assert |s.threads| == s.ncores;
    hide Inv;
    assert forall k :: 0 <= k < s.ncores && k != i ==> u.threads[k] == s.threads[k];
    assert u.threads[i].pc.Publish? == s.threads[i].pc.Reset?;
  }

  lemma StepDone(s: State, i: nat)
    requires Inv(s) && i < s.ncores == |s.threads|
    ensures Done(Step(s, i)) == Done(s) + (if Moves(s, i) then 1 else 0)
  {
    hide Inv, Publishing, Efforts;
    if Moves(s, i) {
      var u := Step(s, i);
      PublishingAfter(s, i);
      EffortsUpdate(s.threads, i, u.threads[i]);
      assert u.threads == s.threads[i := u.threads[i]];
    }
  }

  function Effective(s: State, sched: seq<nat>): nat
    requires |s.threads| == s.ncores && Schedule(s.ncores, sched)
    decreases |sched|
  {
    if sched == [] then 0
    else
      var before := sched[..|sched| - 1];
      Effective(s, before) + (if Moves(Run(s, before), sched[|sched| - 1]) then 1 else 0)
  }

  lemma {:induction false} RunDone(s: State, sched: seq<nat>)
    requires Inv(s) && |s.threads| == s.ncores && Schedule(s.ncores, sched)
    ensures Done(Run(s, sched)) == Done(s) + Effective(s, sched)
    decreases |sched|
  {
    hide Inv, Done, Step;
    if sched != [] {
      var before := sched[..|sched| - 1];
      RunDone(s, before);
      RunInv(s, before);
      StepDone(Run(s, before), sched[|sched| - 1]);
    }
  }

  lemma ThreadEffort(s: State, i: nat)
    requires Inv(s) && i < s.ncores
    ensures Effort(s.threads[i]) <= 3 * s.calls
    ensures Effort(s.threads[i]) == 3 * s.calls <==> Through(s, s.threads[i])
    ensures s.rounds + (if s.threads[i].pc.Publish? then 1 else 0) <= s.calls
    ensures Through(s, s.threads[i]) ==> s.rounds == s.calls
  {
    assert ThreadOk(s.threads[i], s.rounds);
  }

  /** Three actions for each call of each thread, and one more for each round. */
  function Work(ncores: nat, calls: nat): nat {
    calls * (3 * ncores + 1)
  }

  lemma WorkSum(e: int, r: int, n: nat, c: nat)
    requires e <= n * (3 * c) && r <= c
    ensures e + r <= c * (3 * n + 1)
    ensures e + r == c * (3 * n + 1) <==> e == n * (3 * c) && r == c
  {
    assert n * (3 * c) + c == c * (3 * n + 1);
  }

  lemma RoundsBounded(s: State)
    requires Inv(s)
    ensures s.rounds + (if Publishing(s) then 1 else 0) <= s.calls
    ensures Complete(s) ==> s.rounds == s.calls && !Publishing(s)
  {
    ThreadEffort(s, 0);
    if Publishing(s) {
      var i :| 0 <= i < |s.threads| && s.threads[i].pc.Publish?;
      ThreadEffort(s, i);
    }
    assert Complete(s) ==> Through(s, s.threads[0]);
  }

  lemma EffortsComplete(s: State)
    requires Inv(s)
    ensures Efforts(s.threads) <= s.ncores * (3 * s.calls)
    ensures Efforts(s.threads) == s.ncores * (3 * s.calls) <==> Complete(s)
  {
    var most := 3 * s.calls;
    forall i | 0 <= i < s.ncores
      ensures Effort(s.threads[i]) <= most
      ensures Effort(s.threads[i]) == most <==> Through(s, s.threads[i])
    {
      ThreadEffort(s, i);
    }
    EffortsBounded(s.threads, most);
    if Complete(s) { CompleteEfforts(s.threads, most); }
  }

  lemma DoneBounded(s: State)
    requires Inv(s)
    ensures Done(s) <= Work(s.ncores, s.calls)
    ensures Done(s) == Work(s.ncores, s.calls) <==> Complete(s)
  {
    hide Inv, Efforts, Complete, Publishing;
    RoundsBounded(s);
    EffortsComplete(s);
    WorkSum(Efforts(s.threads), s.rounds + (if Publishing(s) then 1 else 0), s.ncores, s.calls);
  }

  lemma {:induction false} CompleteEfforts(threads: seq<Thread>, most: nat)
    requires forall i :: 0 <= i < |threads| ==> Effort(threads[i]) == most
    ensures Efforts(threads) == |threads| * most
    decreases |threads|
  {
    if threads != [] {
      CompleteEfforts(threads[1..], most);
      assert |threads| * most == |threads[1..]| * most + most;
    }
  }

  /** Every run makes at most `calls * (3 * ncores + 1)` actions that change the state, and exactly that
      many if and only if every thread is through. */
  lemma ExactWork(ncores: nat, calls: nat, sched: seq<nat>)
    requires ncores >= 1 && Schedule(ncores, sched)
    ensures Effective(Init(ncores, calls), sched) <= calls * (3 * ncores + 1)
    ensures Effective(Init(ncores, calls), sched) == calls * (3 * ncores + 1)
            <==> Complete(Run(Init(ncores, calls), sched))
  {
    var s := Init(ncores, calls);
    InitInv(ncores, calls);
    InitDone(s.threads);
    assert Done(s) == 0;
    ghost var work := Work(ncores, calls);
    assert work == calls * (3 * ncores + 1);
    hide *;
    RunInv(s, sched);
    RunDone(s, sched);
    DoneBounded(Run(s, sched));
  }

  lemma {:induction false} InitDone(threads: seq<Thread>)
    requires forall i :: 0 <= i < |threads| ==> threads[i].pc.Idle? && threads[i].left == 0
    ensures Efforts(threads) == 0
    decreases |threads|
  {
    if threads != [] { InitDone(threads[1..]); }
  }

  /** A stretch of the schedule that gives every thread a turn. */
  ghost predicate Fair(ncores: nat, sched: seq<nat>) {
    Schedule(ncores, sched) && forall i :: 0 <= i < ncores ==> i in sched
  }

  /** Until all are through, a fair stretch changes the state: steps in vain change nothing, so the
      thread that could move still can when its turn comes. */
  lemma FairStretchMoves(s: State, sched: seq<nat>)
    requires Inv(s) && |s.threads| == s.ncores && Fair(s.ncores, sched) && !Complete(s)
    ensures Done(Run(s, sched)) > Done(s)
  {
    var i := SomeThreadMoves(s);
    assert i in sched;
    var k :| 0 <= k < |sched| && sched[k] == i;
    TurnMoves(s, sched[..k + 1]);
    DoneGrows(s, sched[..k + 1], sched);
  }

  lemma TurnMoves(s: State, sched: seq<nat>)
    requires Inv(s) && |s.threads| == s.ncores && Schedule(s.ncores, sched) && |sched| > 0
    requires Moves(s, sched[|sched| - 1])
    ensures Done(Run(s, sched)) > Done(s)
  {
    hide Inv, Done, Step;
    var before, i := sched[..|sched| - 1], sched[|sched| - 1];
    RunDone(s, before);
    RunInv(s, before);
    IdleRun(s, before);
    StepDone(Run(s, before), i);
  }

  lemma {:induction false} IdleRun(s: State, sched: seq<nat>)
    requires |s.threads| == s.ncores && Schedule(s.ncores, sched)
    ensures Effective(s, sched) == 0 ==> Run(s, sched) == s
    decreases |sched|
  {
    if sched != [] { IdleRun(s, sched[..|sched| - 1]); }
  }

  lemma {:induction false} DoneGrows(s: State, some: seq<nat>, more: seq<nat>)
    requires Inv(s) && |s.threads| == s.ncores && Schedule(s.ncores, more) && some <= more
    ensures Schedule(s.ncores, some) && Done(Run(s, some)) <= Done(Run(s, more))
    decreases |more|
  {
    hide Inv, Done, Step;
    if |some| == |more| {
      assert some == more;
    } else {
      var before := more[..|more| - 1];
      assert some <= before;
      DoneGrows(s, some, before);
      RunInv(s, before);
      StepDone(Run(s, before), more[|more| - 1]);
    }
  }

  ghost function RunAll(s: State, stretches: seq<seq<nat>>): (r: State)
    requires |s.threads| == s.ncores && forall k :: 0 <= k < |stretches| ==> Fair(s.ncores, stretches[k])
    ensures |r.threads| == r.ncores == s.ncores && r.calls == s.calls
    decreases |stretches|
  {
    if stretches == [] then s
    else
      var last := stretches[|stretches| - 1];
      assert Fair(s.ncores, last);
      Run(RunAll(s, stretches[..|stretches| - 1]), last)
  }

  lemma {:induction false} FairRun(s: State, stretches: seq<seq<nat>>)
    requires Inv(s) && |s.threads| == s.ncores
    requires forall k :: 0 <= k < |stretches| ==> Fair(s.ncores, stretches[k])
    ensures Inv(RunAll(s, stretches))
    ensures Complete(RunAll(s, stretches)) || Done(RunAll(s, stretches)) >= |stretches|
    decreases |stretches|
  {
    if stretches != [] {
      var before, last := stretches[..|stretches| - 1], stretches[|stretches| - 1];
      FairRun(s, before);
      assert Fair(s.ncores, last);
      StretchKeeps(RunAll(s, before), last);
    }
  }

  lemma StretchKeeps(s: State, sched: seq<nat>)
    requires Inv(s) && |s.threads| == s.ncores && Fair(s.ncores, sched)
    ensures Inv(Run(s, sched))
    ensures Complete(s) ==> Complete(Run(s, sched))
    ensures !Complete(s) ==> Done(Run(s, sched)) > Done(s)
  {
    assert Schedule(s.ncores, sched);
    hide Inv, Done, Complete, Effective, Step, Fair, Schedule, Work;
    RunInv(s, sched);
    RunDone(s, sched);
    DoneBounded(s);
    DoneBounded(Run(s, sched));
    if !Complete(s) { FairStretchMoves(s, sched); }
  }

  /** Under any schedule that keeps giving every thread turns, every thread returns from every call. */
  lemma FairRunCompletes(ncores: nat, calls: nat, stretches: seq<seq<nat>>)
    requires ncores >= 1 && |stretches| >= calls * (3 * ncores + 1)
    requires forall k :: 0 <= k < |stretches| ==> Fair(ncores, stretches[k])
    ensures Complete(RunAll(Init(ncores, calls), stretches))
  {
    hide Inv, Complete, Done, Fair, RunAll;
    InitInv(ncores, calls);
    FairRun(Init(ncores, calls), stretches);
    DoneBounded(RunAll(Init(ncores, calls), stretches));
  }
}
