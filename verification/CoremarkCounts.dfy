/**
 What the counts of the number scanner of verif/tests/custom/coremark/core_state.c mean: how many tokens ended
 as each kind of number, and how many had a beginning of that kind that they did not keep.
 */
module CoremarkCounts {
  import opened CoremarkState

  // ---- States in order ----

  function Order(st: State): nat {
    match st
    case Start => 0
    case S1 => 1
    case Int => 2
    case Float => 3
    case S2 => 4
    case Exponent => 5
    case Scientific => 6
    case Invalid => 7
  }

  /** The machine never goes back. */
  lemma NextIsLater(st: State, c: byte)
    ensures Next(st, c) == st || Order(Next(st, c)) > Order(st)
    ensures Next(Start, c) != Start
    ensures st == Scientific && Next(st, c) != st ==> Next(st, c) == Invalid
  {
  }

  lemma {:induction false} RunOnLater(t: seq<byte>, k: nat)
    requires k <= |t|
    ensures RunOn(t[..k]) == RunOn(t) || Order(RunOn(t[..k])) < Order(RunOn(t))
    decreases |t|
  {
    hide Next;
    if k == |t| {
      assert t[..k] == t;
    } else {
      var n := |t| - 1;
      assert t[..n][..k] == t[..k];
      RunOnLater(t[..n], k);
      NextIsLater(RunOn(t[..n]), t[n]);
    }
  }

  lemma ViableIff(t: seq<byte>)
    ensures Viable(t) <==> RunOn(t) != Invalid
  {
    hide Means;
    StateMeans(t);
    if st :| st != Invalid && Means(st, t) { StateIffMeans(st, t); }
  }

  // ---- The counts of one token ----

  /** What a token adds to the count of a state: it had a beginning that the state stands for, and did not keep
      it.  Two are special: `Scientific` is never counted; and `Invalid` counts tokens whose first character is
      already wrong, or that would be scientific but for their last one. */
  ghost predicate Leaves(t: seq<byte>, st: State) {
    match st
    case Scientific => false
    case Invalid => !Viable(t) && (|t| == 1 || (|t| > 1 && IsScientific(t[..|t| - 1])))
    case _ => exists k :: 0 <= k < |t| && LeavesAt(t, st, k)
  }

  /** The first `k` characters are what the state stands for, and with the next one they are not. */
  ghost predicate LeavesAt(t: seq<byte>, st: State, k: nat)
    requires k < |t|
  {
    Means(st, t[..k]) && !Means(st, t[..k + 1])
  }

  function Plus(n: bv32, more: bool): bv32 { if more then n + 1 else n }

  /** The counts after the characters of a token. */
  function CountsAfter(t: seq<byte>, counts: Counts): Counts {
    if t == [] then counts
    else
      var n := |t| - 1;
      Counted(CountsAfter(t[..n], counts), RunOn(t[..n]), t[n])
  }

  lemma LeavesAtRuns(t: seq<byte>, st: State, k: nat)
    requires k < |t| && st != Invalid
    ensures LeavesAt(t, st, k) <==> RunOn(t[..k]) == st && RunOn(t[..k + 1]) != st
  {
    StateIffMeans(st, t[..k]);
    StateIffMeans(st, t[..k + 1]);
  }

  /** A state is left once, and not entered again. */
  lemma LeavesOnce(t: seq<byte>, st: State, k: nat)
    requires k < |t| && st != Invalid && LeavesAt(t, st, k)
    ensures Order(RunOn(t)) > Order(st)
    ensures forall j :: 0 <= j < |t| && LeavesAt(t, st, j) ==> j == k
  {
    hide LeavesAt, RunOn, Next;
    LeavesAtRuns(t, st, k);
    After(t, k);
    RunOnLater(t, k + 1);
    forall j | 0 <= j < |t| && LeavesAt(t, st, j) ensures j == k {
      LeavesAtRuns(t, st, j);
      After(t, j);
      if j > k { Between(t, k + 1, j); }
      if j < k { Between(t, j + 1, k); }
    }
  }

  lemma After(t: seq<byte>, k: nat)
    requires k < |t|
    ensures RunOn(t[..k + 1]) == RunOn(t[..k]) || Order(RunOn(t[..k + 1])) > Order(RunOn(t[..k]))
  {
    assert t[..k + 1][..k] == t[..k];
    RunOnLater(t[..k + 1], k);
  }

  lemma Between(t: seq<byte>, i: nat, j: nat)
    requires i <= j <= |t|
    ensures Order(RunOn(t[..i])) <= Order(RunOn(t[..j]))
  {
    assert t[..j][..i] == t[..i];
    RunOnLater(t[..j], i);
  }

  /** One character more. */
  lemma LeavesNext(t: seq<byte>, st: State)
    requires t != [] && RunOn(t[..|t| - 1]) != Invalid
    ensures var b := t[..|t| - 1];
            && (st == Scientific ==> !Leaves(t, st) && !Leaves(b, st))
            && (st == Invalid ==> !Leaves(b, st)
                                  && (Leaves(t, st) <==> RunOn(t) == Invalid && (RunOn(b) == Start || RunOn(b) == Scientific)))
            && (st != Scientific && st != Invalid ==>
                  && (Leaves(t, st) <==> Leaves(b, st) || (RunOn(b) == st && RunOn(t) != st))
                  && (RunOn(b) == st ==> !Leaves(b, st)))
  {
    hide Means, RunOn, IsScientific, LeavesAt, Viable;
    var n := |t| - 1;
    var b := t[..n];
    ViableIff(t);
    ViableIff(b);
    StartOnly(b);
    StateIffMeans(Scientific, b);
    assert Means(Scientific, b) <==> IsScientific(b) by { MeansScientific(b); }
    if st != Scientific && st != Invalid {
      LeavesAtRuns(t, st, n);
      assert t[..n + 1] == t;
      forall k: nat | k < n ensures LeavesAt(t, st, k) <==> LeavesAt(b, st, k) { SameLeave(t, n, st, k); }
      if k: nat :| k < n && LeavesAt(b, st, k) { LeavesOnce(b, st, k); }
    }
  }

  lemma SameLeave(t: seq<byte>, n: nat, st: State, k: nat)
    requires k < n <= |t|
    ensures LeavesAt(t, st, k) <==> LeavesAt(t[..n], st, k)
  {
    assert t[..n][..k] == t[..k] && t[..n][..k + 1] == t[..k + 1];
    hide Means;
  }

  lemma StartOnly(t: seq<byte>)
    ensures RunOn(t) == Start <==> t == []
  {
    StateIffMeans(Start, t);
    hide RunOn;
  }

  lemma MeansScientific(t: seq<byte>)
    ensures Means(Scientific, t) <==> IsScientific(t)
  {
  }

  lemma CodesApart(a: State, b: State)
    ensures Code(a) == Code(b) <==> a == b
  {
  }

  lemma BumpIs(counts: Counts, at: State, st: State)
    ensures Bump(counts, at)[Code(st)] == Plus(counts[Code(st)], at == st)
  {
    CodesApart(at, st);
  }

  /** What one character adds to the counts. */
  lemma CountedIs(counts: Counts, from: State, c: byte, st: State)
    requires from != Invalid
    ensures Counted(counts, from, c)[Code(st)]
            == Plus(counts[Code(st)],
                    match st
                    case Scientific => false
                    case Invalid => Next(from, c) == Invalid && (from == Start || from == Scientific)
                    case _ => from == st && Next(from, c) != st)
  {
    hide Next, Code, Bump, Plus;
    NextIsLater(from, c);
    BumpIs(counts, from, st);
    BumpIs(counts, Invalid, st);
    BumpIs(Bump(counts, Invalid), Start, st);
    PlusNothing(counts[Code(st)]);
    PlusNothing(Plus(counts[Code(st)], true));
  }

  lemma PlusNothing(n: bv32)
    ensures Plus(n, false) == n
  {
  }

  /** The counts of a token that the scanner reads. */
  lemma {:induction false} TokenCounts(t: seq<byte>, counts: Counts, st: State)
    requires t != [] ==> RunOn(t[..|t| - 1]) != Invalid
    ensures CountsAfter(t, counts)[Code(st)] == Plus(counts[Code(st)], Leaves(t, st))
    decreases |t|
  {
    hide Leaves, Counted, Next, Plus, Code;
    PlusNothing(counts[Code(st)]);
    if t == [] {
      NothingLeft(st);
    } else {
      var n := |t| - 1;
      var b := t[..n];
      if b != [] { BeforeInvalid(b); }
      PlusNothing(Plus(counts[Code(st)], Leaves(b, st)));
      TokenCounts(b, counts, st);
      LeavesNext(t, st);
      CountedIs(CountsAfter(b, counts), RunOn(b), t[n], st);
    }
  }

  lemma BeforeInvalid(t: seq<byte>)
    requires t != [] && RunOn(t) != Invalid
    ensures RunOn(t[..|t| - 1]) != Invalid
  {
  }

  lemma NothingLeft(st: State)
    ensures !Leaves([], st)
  {
    ViableIff([]);
  }

  // ---- The scanner ----

  lemma {:induction false} WalkCounts(s: seq<byte>, p: nat, q: nat, st: State, counts: Counts, from: Counts) returns (e: nat)
    requires p <= q && HasNul(s, q) && (forall k :: p <= k < q ==> s[k] != 0 && s[k] != COMMA)
    requires st == RunOn(s[p..q]) && (st == Invalid ==> p < q && RunOn(s[p..q - 1]) != Invalid)
    requires counts == CountsAfter(s[p..q], from)
    ensures TokenAt(s, p, e, Walk(s, q, st, counts))
    ensures Walk(s, q, st, counts).counts == CountsAfter(s[p..e], from)
    decreases |s| - q
  {
    hide RunOn, Counted, Next;
    if s[q] == 0 || st == Invalid || s[q] == COMMA {
      e := q;
    } else {
      assert s[p..q + 1] == s[p..q] + [s[q]] && s[p..(q + 1) - 1] == s[p..q];
      RunOnAppend(s[p..q], s[q]);
      CountsNext(s[p..q], s[q], from);
      e := WalkCounts(s, p, q + 1, Next(st, s[q]), Counted(counts, st, s[q]), from);
    }
  }

  lemma CountsNext(t: seq<byte>, c: byte, counts: Counts)
    ensures CountsAfter(t + [c], counts) == Counted(CountsAfter(t, counts), RunOn(t), c)
  {
    assert (t + [c])[..|t|] == t;
    hide Counted, RunOn;
  }

  /** Where the token that begins at `p` ends: at a comma, the end, or behind the first character after which no
      number can follow. */
  ghost function TokenEnd(s: seq<byte>, p: nat, q: nat): (e: nat)
    requires p <= q <= |s|
    ensures q <= e <= |s|
    decreases |s| - q
  {
    if q == |s| || s[q] == 0 || s[q] == COMMA || !Viable(s[p..q]) then q else TokenEnd(s, p, q + 1)
  }

  lemma {:induction false} TokenEndIs(s: seq<byte>, p: nat, q: nat, e: nat)
    requires p <= q <= e < |s| && (forall k :: p <= k < e ==> s[k] != 0 && s[k] != COMMA)
    requires s[e] == 0 || s[e] == COMMA || RunOn(s[p..e]) == Invalid
    requires e > p ==> RunOn(s[p..e - 1]) != Invalid
    ensures TokenEnd(s, p, q) == e
    decreases e - q
  {
    hide Viable, RunOn;
    ViableIff(s[p..q]);
    if q < e {
      PrefixRuns(s, p, q, e - 1);
      TokenEndIs(s, p, q + 1, e);
    }
  }

  lemma PrefixRuns(s: seq<byte>, p: nat, q: nat, e: nat)
    requires p <= q <= e <= |s| && RunOn(s[p..e]) != Invalid
    ensures RunOn(s[p..q]) != Invalid
  {
    assert s[p..e][..q - p] == s[p..q];
    RunOnLater(s[p..e], q - p);
    hide RunOn;
  }

  /** The tokens of a buffer: one ends behind its comma, or where the scanner gives it up. */
  ghost function Tokens(s: seq<byte>, p: nat): seq<seq<byte>>
    decreases |s| - p
  {
    if p >= |s| || s[p] == 0 then []
    else
      var e := TokenEnd(s, p, p);
      assert Viable(s[p..p]) by { ViableIff(s[p..p]); }
      [s[p..e]] + Tokens(s, if e < |s| && s[e] == COMMA && Viable(s[p..e]) then e + 1 else e)
  }

  ghost predicate EndsAs(t: seq<byte>, st: State) {
    if st == Invalid then !Viable(t) else Means(st, t)
  }

  /** `start`, and one for each token that ends as what the state stands for. */
  ghost function Ended(start: bv32, tokens: seq<seq<byte>>, st: State): bv32
    decreases |tokens|
  {
    if tokens == [] then start else Ended(Plus(start, EndsAs(tokens[0], st)), tokens[1..], st)
  }

  /** `start`, and one for each token that leaves the state. */
  ghost function Left(start: bv32, tokens: seq<seq<byte>>, st: State): bv32
    decreases |tokens|
  {
    if tokens == [] then start else Left(Plus(start, Leaves(tokens[0], st)), tokens[1..], st)
  }

  /** The first token of a scan. */
  lemma ScanStep(s: seq<byte>, p: nat, tracks: Counts) returns (e: nat)
    requires HasNul(s, p) && p < |s| && s[p] != 0
    ensures var w := Walk(s, p, Start, tracks);
            && e == TokenEnd(s, p, p) && e < |s| && w.end < |s| && HasNul(s, w.end)
            && w.end == (if s[e] == COMMA && Viable(s[p..e]) then e + 1 else e)
            && (forall st :: EndsAs(s[p..e], st) <==> w.state == st)
            && (forall st :: w.counts[Code(st)] == Plus(tracks[Code(st)], Leaves(s[p..e], st)))
  {
    hide RunOn, Means, Leaves, Viable, Walk, Code;
    assert s[p..p] == [];
    StartOnly(s[p..p]);
    NoCounts(tracks);
    e := WalkCounts(s, p, p, Start, tracks, tracks);
    var t := s[p..e];
    if e > p { assert t[..|t| - 1] == s[p..e - 1]; }
    var w := Walk(s, p, Start, tracks);
    if w.state != Invalid && e > p { RunOnLater(t, |t| - 1); }
    TokenEndIs(s, p, p, e);
    ViableIff(t);
    forall st ensures EndsAs(t, st) <==> w.state == st { StateIffRuns(t, st); }
    forall st ensures w.counts[Code(st)] == Plus(tracks[Code(st)], Leaves(t, st)) { TokenCounts(t, tracks, st); }
    NulLater(s, p, w);
  }

  lemma NulLater(s: seq<byte>, p: nat, w: Walked)
    requires HasNul(s, p) && p <= w.end && forall k :: p <= k < w.end && k < |s| ==> s[k] != 0
    ensures HasNul(s, w.end) && w.end < |s|
  {
  }

  lemma StateIffRuns(t: seq<byte>, st: State)
    ensures EndsAs(t, st) <==> RunOn(t) == st
  {
    hide Means, RunOn;
    ViableIff(t);
    if st != Invalid { StateIffMeans(st, t); }
  }

  lemma NoCounts(counts: Counts)
    ensures CountsAfter([], counts) == counts
  {
  }

  /** The two counts of a scan: for each state the tokens that ended as what it stands for, and those that left it. */
  lemma {:induction false} ScanCounts(s: seq<byte>, p: nat, finals: Counts, tracks: Counts, st: State)
    requires HasNul(s, p)
    ensures Scan(s, p, finals, tracks).0[Code(st)] == Ended(finals[Code(st)], Tokens(s, p), st)
    ensures Scan(s, p, finals, tracks).1[Code(st)] == Left(tracks[Code(st)], Tokens(s, p), st)
    decreases |s| - p
  {
    hide Walk, Bump, Code, Leaves, EndsAs, Viable, HasNul, Plus;
    if p < |s| && s[p] != 0 {
      var e := ScanStep(s, p, tracks);
      var w := Walk(s, p, Start, tracks);
      BumpIs(finals, w.state, st);
      ScanCounts(s, w.end, Bump(finals, w.state), w.counts, st);
    }
  }
}
