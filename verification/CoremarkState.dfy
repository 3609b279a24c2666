/**
 The number scanner of verif/tests/custom/coremark/core_state.c, and the benchmark that scans a block,
 corrupts it, scans it again and undoes the corruption.
 */
module CoremarkState {
  import Crc = CoremarkCrc

  type byte = bv8

  const COMMA: byte := 0x2c
  const DOT: byte := 0x2e

  predicate Digit(c: byte) { 0x30 <= c <= 0x39 }

  predicate Sign(c: byte) { c == 0x2b || c == 0x2d }

  predicate Exp(c: byte) { c == 0x45 || c == 0x65 }

  datatype State = Start | Invalid | S1 | S2 | Int | Float | Exponent | Scientific

  const STATES := 8

  function Code(st: State): (r: nat)
    ensures r < STATES
  {
    match st
    case Start => 0
    case Invalid => 1
    case S1 => 2
    case S2 => 3
    case Int => 4
    case Float => 5
    case Exponent => 6
    case Scientific => 7
  }

  // ---- The machine ----

  function Next(st: State, c: byte): State {
    match st
    case Start => if Digit(c) then Int else if Sign(c) then S1 else if c == DOT then Float else Invalid
    case S1 => if Digit(c) then Int else if c == DOT then Float else Invalid
    case Int => if c == DOT then Float else if Digit(c) then Int else Invalid
    case Float => if Exp(c) then S2 else if Digit(c) then Float else Invalid
    case S2 => if Sign(c) then Exponent else Invalid
    case Exponent => if Digit(c) then Scientific else Invalid
    case Scientific => if Digit(c) then Scientific else Invalid
    case Invalid => Invalid
  }

  /** The state after a token. */
  function RunOn(t: seq<byte>): State {
    if t == [] then Start else Next(RunOn(t[..|t| - 1]), t[|t| - 1])
  }

  lemma RunOnAppend(t: seq<byte>, c: byte)
    ensures RunOn(t + [c]) == Next(RunOn(t), c)
  {
    assert (t + [c])[..|t|] == t;
  }

  // ---- What the states mean ----

  predicate Digits(t: seq<byte>, i: nat, j: nat) {
    i <= j <= |t| && forall k :: i <= k < j ==> Digit(t[k])
  }

  /** The number begins at place `i`, after an optional sign. */
  predicate Signed(t: seq<byte>, i: nat) {
    i == 0 || (i == 1 && |t| > 0 && Sign(t[0]))
  }

  /** An optional sign and at least one digit. */
  ghost predicate IsInt(t: seq<byte>) {
    exists i: nat :: Signed(t, i) && i < |t| && Digits(t, i, |t|)
  }

  /** An optional sign, digits, a dot, digits. */
  ghost predicate IsFloat(t: seq<byte>) {
    exists i: nat, j: nat :: Signed(t, i) && Digits(t, i, j) && j < |t| && t[j] == DOT && Digits(t, j + 1, |t|)
  }

  ghost predicate IsS2(t: seq<byte>) {
    |t| > 0 && IsFloat(t[..|t| - 1]) && Exp(t[|t| - 1])
  }

  ghost predicate IsExponent(t: seq<byte>) {
    |t| > 0 && IsS2(t[..|t| - 1]) && Sign(t[|t| - 1])
  }

  /** A float, an `e`, a sign and at least one digit. */
  ghost predicate IsScientific(t: seq<byte>) {
    exists k: nat :: k < |t| && IsExponent(t[..k]) && Digits(t, k, |t|)
  }

  ghost predicate Means(st: State, t: seq<byte>) {
    match st
    case Start => t == []
    case Invalid => true
    case S1 => |t| == 1 && Sign(t[0])
    case S2 => IsS2(t)
    case Int => IsInt(t)
    case Float => IsFloat(t)
    case Exponent => IsExponent(t)
    case Scientific => IsScientific(t)
  }

  lemma IntGrows(t: seq<byte>, c: byte, i: nat)
    requires Signed(t, i) && Digits(t, i, |t|)
    ensures Digit(c) ==> IsInt(t + [c])
    ensures c == DOT ==> IsFloat(t + [c])
  {
    var u := t + [c];
    assert Signed(u, i) && Digits(u, i, |t|);
    if Digit(c) { assert Digits(u, i, |u|); }
    if c == DOT { assert Digits(u, |t| + 1, |u|); }
  }

  lemma FloatGrows(t: seq<byte>, c: byte)
    requires IsFloat(t) && Digit(c)
    ensures IsFloat(t + [c])
  {
    var i: nat, j: nat :| Signed(t, i) && Digits(t, i, j) && j < |t| && t[j] == DOT && Digits(t, j + 1, |t|);
    var u := t + [c];
    assert Signed(u, i) && Digits(u, i, j) && Digits(u, j + 1, |u|);
  }

  lemma ScientificGrows(t: seq<byte>, c: byte, k: nat)
    requires k <= |t| && IsExponent(t[..k]) && Digits(t, k, |t|) && Digit(c)
    ensures IsScientific(t + [c])
  {
    var u := t + [c];
    assert u[..k] == t[..k] && Digits(u, k, |u|);
  }

  /** Each state means what it says. */
  lemma {:induction false} StateMeans(t: seq<byte>)
    ensures Means(RunOn(t), t)
    decreases |t|
  {
    if t != [] {
      var b, c := t[..|t| - 1], t[|t| - 1];
      assert t == b + [c];
      StateMeans(b);
      StepMeans(RunOn(b), b, c);
    }
  }

  lemma StepMeans(st: State, b: seq<byte>, c: byte)
    requires Means(st, b)
    ensures Means(Next(st, c), b + [c])
  {
    hide Sign, Digit, Exp, IsFloat, IsS2, IsExponent, Digits, IsInt, IsScientific;
    var t := b + [c];
    match st
    case Start => IntFrom(b, c, 0);
    case S1 => IntFrom(b, c, 1);
    case Int => IntStep(b, c);
    case Float =>
      if Exp(c) { S2Step(b, c); } else if Digit(c) { FloatGrows(b, c); }
    case S2 => if Sign(c) { ExponentStep(b, c); }
    case Exponent => if Digit(c) { ScientificStart(b, c); }
    case Scientific => if Digit(c) { ScientificStep(b, c); }
    case Invalid =>
  }

  lemma IntFrom(b: seq<byte>, c: byte, i: nat)
    requires Signed(b, i) && i == |b|
    ensures Digit(c) ==> IsInt(b + [c])
    ensures c == DOT ==> IsFloat(b + [c])
  {
    assert Digits(b, i, |b|);
    IntGrows(b, c, i);
  }

  lemma IntStep(b: seq<byte>, c: byte)
    requires IsInt(b)
    ensures Digit(c) ==> IsInt(b + [c])
    ensures c == DOT ==> IsFloat(b + [c])
  {
    var i: nat :| Signed(b, i) && i < |b| && Digits(b, i, |b|);
    IntGrows(b, c, i);
  }

  lemma S2Step(b: seq<byte>, c: byte)
    requires IsFloat(b) && Exp(c)
    ensures IsS2(b + [c])
  {
    assert (b + [c])[..|b|] == b;
  }

  lemma ExponentStep(b: seq<byte>, c: byte)
    requires IsS2(b) && Sign(c)
    ensures IsExponent(b + [c])
  {
    assert (b + [c])[..|b|] == b;
  }

  lemma ScientificStart(b: seq<byte>, c: byte)
    requires IsExponent(b) && Digit(c)
    ensures IsScientific(b + [c])
  {
    assert b[..|b|] == b && Digits(b, |b|, |b|);
    ScientificGrows(b, c, |b|);
  }

  lemma ScientificStep(b: seq<byte>, c: byte)
    requires IsScientific(b) && Digit(c)
    ensures IsScientific(b + [c])
  {
    var k: nat :| k < |b| && IsExponent(b[..k]) && Digits(b, k, |b|);
    ScientificGrows(b, c, k);
  }

  // ---- And only that ----

  lemma CharsApart(c: byte)
    ensures !(Digit(c) && Sign(c)) && !(Digit(c) && c == DOT) && !(Digit(c) && Exp(c))
    ensures !(Sign(c) && c == DOT) && !(Exp(c) && c == DOT) && !(Exp(c) && Sign(c))
  {
  }

  lemma IntRuns(t: seq<byte>)
    requires IsInt(t)
    ensures RunOn(t) == Int
  {
    var i: nat :| Signed(t, i) && i < |t| && Digits(t, i, |t|);
    DigitsRun(t, i, |t|);
    assert t[..|t|] == t;
  }

  lemma SignedStart(t: seq<byte>, i: nat)
    requires Signed(t, i) && i <= |t|
    ensures RunOn(t[..i]) == if i == 0 then Start else S1
  {
    if i == 1 {
      assert t[..1][..0] == [];
      CharsApart(t[0]);
      hide Digit, Sign;
      assert RunOn(t[..1]) == Next(Start, t[0]);
    }
  }

  /** After the sign, digits lead to `Int`, if there are any. */
  lemma {:induction false} DigitsRun(t: seq<byte>, i: nat, j: nat)
    requires Signed(t, i) && i <= |t| && Digits(t, i, j)
    ensures RunOn(t[..j]) == if j > i then Int else if i == 0 then Start else S1
    decreases j
  {
    hide Digit, Sign;
    if j == i {
      SignedStart(t, i);
    } else {
      DigitsRun(t, i, j - 1);
      assert t[..j][..j - 1] == t[..j - 1];
      CharsApart(t[j - 1]);
    }
  }

  lemma FloatRuns(t: seq<byte>)
    requires IsFloat(t)
    ensures RunOn(t) == Float
  {
    var i: nat, j: nat :| Signed(t, i) && Digits(t, i, j) && j < |t| && t[j] == DOT && Digits(t, j + 1, |t|);
    FractionRun(t, i, j, |t|);
    assert t[..|t|] == t;
  }

  /** After the dot, digits stay in `Float`. */
  lemma {:induction false} FractionRun(t: seq<byte>, i: nat, j: nat, n: nat)
    requires Signed(t, i) && Digits(t, i, j) && j < n <= |t| && t[j] == DOT && Digits(t, j + 1, n)
    ensures RunOn(t[..n]) == Float
    decreases n
  {
    hide Digit, Sign, Exp;
    assert t[..n][..n - 1] == t[..n - 1];
    CharsApart(t[n - 1]);
    if n == j + 1 {
      DigitsRun(t, i, j);
    } else {
      FractionRun(t, i, j, n - 1);
    }
  }

  lemma S2Runs(t: seq<byte>)
    requires IsS2(t)
    ensures RunOn(t) == S2
  {
    hide IsFloat;
    FloatRuns(t[..|t| - 1]);
  }

  lemma ExponentRuns(t: seq<byte>)
    requires IsExponent(t)
    ensures RunOn(t) == Exponent
  {
    hide IsS2;
    S2Runs(t[..|t| - 1]);
  }

  lemma {:induction false} PowerRun(t: seq<byte>, k: nat, n: nat)
    requires k <= n <= |t| && IsExponent(t[..k]) && Digits(t, k, n)
    ensures RunOn(t[..n]) == if n > k then Scientific else Exponent
    decreases n
  {
    hide Digit, IsExponent;
    if n == k {
      ExponentRuns(t[..k]);
    } else {
      PowerRun(t, k, n - 1);
      assert t[..n][..n - 1] == t[..n - 1];
    }
  }

  lemma ScientificRuns(t: seq<byte>)
    requires IsScientific(t)
    ensures RunOn(t) == Scientific
  {
    hide IsExponent;
    var k: nat :| k < |t| && IsExponent(t[..k]) && Digits(t, k, |t|);
    PowerRun(t, k, |t|);
    assert t[..|t|] == t;
  }

  /** The machine ends in a state other than `Invalid` exactly on the tokens that the state stands for. */
  lemma StateIffMeans(st: State, t: seq<byte>)
    requires st != Invalid
    ensures RunOn(t) == st <==> Means(st, t)
  {
    StateMeans(t);
    if Means(st, t) {
      MeansRuns(st, t);
    }
  }

  lemma MeansRuns(st: State, t: seq<byte>)
    requires st != Invalid && Means(st, t)
    ensures RunOn(t) == st
  {
    hide IsInt, IsFloat, IsS2, IsExponent, IsScientific;
    match st
    case Start =>
    case S1 => SignedStart(t, 1); assert t[..1] == t;
    case S2 => S2Runs(t);
    case Int => IntRuns(t);
    case Float => FloatRuns(t);
    case Exponent => ExponentRuns(t);
    case Scientific => ScientificRuns(t);
  }

  // ---- The scanner ----

  type Counts = c: seq<bv32> | |c| == STATES witness [0, 0, 0, 0, 0, 0, 0, 0]

  function Bump(counts: Counts, st: State): Counts {
    counts[Code(st) := counts[Code(st)] + 1]
  }

  /** The counts after a character: a state that is left is counted, except that leaving `Scientific`
      counts as `Invalid`, and leaving `Start` for `Invalid` counts as both. */
  function Counted(counts: Counts, st: State, c: byte): Counts {
    if st == Next(st, c) then counts
    else if st == Scientific then Bump(counts, Invalid)
    else if st == Start && Next(st, c) == Invalid then Bump(Bump(counts, Invalid), Start)
    else Bump(counts, st)
  }

  datatype Walked = Walked(state: State, end: nat, counts: Counts)

  predicate HasNul(s: seq<byte>, p: nat) {
    exists k :: p <= k < |s| && s[k] == 0
  }

  /** What the scanner does from place `q` on, in state `st`. */
  function Walk(s: seq<byte>, q: nat, st: State, counts: Counts): (w: Walked)
    ensures w.end >= q && (forall k :: q <= k < w.end && k < |s| ==> s[k] != 0)
    ensures q < |s| && s[q] != 0 && st != Invalid ==> w.end > q
    decreases |s| - q
  {
    if q >= |s| || s[q] == 0 || st == Invalid then Walked(st, q, counts)
    else if s[q] == COMMA then Walked(st, q + 1, counts)
    else Walk(s, q + 1, Next(st, s[q]), Counted(counts, st, s[q]))
  }

  method Count(counts: array<bv32>, st: State)
    requires counts.Length == STATES
    modifies counts
    ensures counts[..] == Bump(old(counts[..]), st)
  {
    counts[Code(st)] := counts[Code(st)] + 1;
  }

  /** One turn of the switch. */
  method Switch(st: State, c: byte, counts: array<bv32>) returns (next: State)
    requires counts.Length == STATES && st != Invalid
    modifies counts
    ensures next == Next(st, c) && counts[..] == Counted(old(counts[..]), st, c)
  {
    hide Digit, Sign, Exp, Bump, Code;
    CharsApart(c);
    next := st;
    match st {
      case Start =>
        if Digit(c) { next := Int; }
        else if Sign(c) { next := S1; }
        else if c == DOT { next := Float; }
        else { next := Invalid; Count(counts, Invalid); }
        Count(counts, Start);
      case S1 =>
        if Digit(c) { next := Int; Count(counts, S1); }
        else if c == DOT { next := Float; Count(counts, S1); }
        else { next := Invalid; Count(counts, S1); }
      case Int =>
        if c == DOT { next := Float; Count(counts, Int); }
        else if !Digit(c) { next := Invalid; Count(counts, Int); }
      case Float =>
        if Exp(c) { next := S2; Count(counts, Float); }
        else if !Digit(c) { next := Invalid; Count(counts, Float); }
      case S2 =>
        if Sign(c) { next := Exponent; Count(counts, S2); }
        else { next := Invalid; Count(counts, S2); }
      case Exponent =>
        if Digit(c) { next := Scientific; Count(counts, Exponent); }
        else { next := Invalid; Count(counts, Exponent); }
      case Scientific =>
        if !Digit(c) { next := Invalid; Count(counts, Invalid); }
      case Invalid =>
    }
  }

  /** `core_state_transition`, for a buffer that holds a zero byte from `p` on. */
  method Transition(buf: array<byte>, p: nat, counts: array<bv32>) returns (st: State, q: nat)
    requires counts.Length == STATES && HasNul(buf[..], p)
    modifies counts
    ensures Walked(st, q, counts[..]) == Walk(buf[..], p, Start, old(counts[..]))
    ensures HasNul(buf[..], q)
  {
    hide Next, Counted;
    st, q := Start, p;
    ghost var z :| p <= z < buf.Length && buf[z] == 0;
    while buf[q] != 0 && st != Invalid
      invariant p <= q <= z
      invariant Walk(buf[..], q, st, counts[..]) == Walk(buf[..], p, Start, old(counts[..]))
      decreases z - q
    {
      var c := buf[q];
      if c == COMMA {
        q := q + 1;
        break;
      }
      st := Switch(st, c, counts);
      q := q + 1;
    }
    assert HasNul(buf[..], q) by { assert buf[..][z] == 0; }
  }

  /** A token runs from `p` up to `e`; the scanner stops behind it, past its comma if it has one. */
  ghost predicate TokenAt(s: seq<byte>, p: nat, e: nat, w: Walked) {
    && p <= e < |s| && (forall k :: p <= k < e ==> s[k] != 0 && s[k] != COMMA)
    && RunOn(s[p..e]) == w.state
    && (if w.state == Invalid then w.end == e && p < e && RunOn(s[p..e - 1]) != Invalid
        else (s[e] == 0 && w.end == e) || (s[e] == COMMA && w.end == e + 1))
  }

  lemma {:induction false} WalkFrom(s: seq<byte>, p: nat, q: nat, st: State, counts: Counts) returns (e: nat)
    requires p <= q && HasNul(s, q) && (forall k :: p <= k < q ==> s[k] != 0 && s[k] != COMMA)
    requires st == RunOn(s[p..q]) && (st == Invalid ==> p < q && RunOn(s[p..q - 1]) != Invalid)
    ensures TokenAt(s, p, e, Walk(s, q, st, counts))
    decreases |s| - q
  {
    hide RunOn;
    if s[q] == 0 || st == Invalid || s[q] == COMMA {
      e := q;
    } else {
      assert s[p..q + 1] == s[p..q] + [s[q]] && s[p..(q + 1) - 1] == s[p..q];
      RunOnAppend(s[p..q], s[q]);
      e := WalkFrom(s, p, q + 1, Next(st, s[q]), Counted(counts, st, s[q]));
    }
  }

  /** A number, or the beginning of one. */
  ghost predicate Viable(t: seq<byte>) {
    exists st :: st != Invalid && Means(st, t)
  }

  /** The scanner classifies the token it meets: in a state other than `Invalid` it has read all of it, up
      to a comma or the end, and it is what the state means; in `Invalid` it stopped behind the first
      character after which no number can follow. */
  lemma ScannerClassifies(s: seq<byte>, p: nat, counts: Counts) returns (e: nat)
    requires HasNul(s, p)
    ensures var w := Walk(s, p, Start, counts);
            && p <= e < |s| && (forall k :: p <= k < e ==> s[k] != 0 && s[k] != COMMA)
            && (w.state != Invalid ==>
                  Means(w.state, s[p..e]) && ((s[e] == 0 && w.end == e) || (s[e] == COMMA && w.end == e + 1)))
            && (w.state == Invalid ==> w.end == e > p && !Viable(s[p..e]) && Viable(s[p..e - 1]))
  {
    hide Means, RunOn, Walk;
    assert s[p..p] == [];
    StartRuns();
    e := WalkFrom(s, p, p, Start, counts);
    var w := Walk(s, p, Start, counts);
    StateMeans(s[p..e]);
    if w.state == Invalid {
      if st :| st != Invalid && Means(st, s[p..e]) { StateIffMeans(st, s[p..e]); }
      StateMeans(s[p..e - 1]);
    }
  }

  lemma StartRuns()
    ensures RunOn([]) == Start
  {
  }

  // ---- The benchmark ----

  /** The counts after scanning every token. */
  function Scan(s: seq<byte>, p: nat, finals: Counts, tracks: Counts): (r: (Counts, Counts))
    decreases |s| - p
  {
    if p >= |s| || s[p] == 0 then (finals, tracks)
    else
      var w := Walk(s, p, Start, tracks);
      if w.end >= |s| then (Bump(finals, w.state), w.counts)
      else Scan(s, w.end, Bump(finals, w.state), w.counts)
  }

  /** Both scanning loops: they end, because each token takes at least one byte. */
  method ScanAll(mem: array<byte>, finals: array<bv32>, tracks: array<bv32>)
    requires finals.Length == STATES && tracks.Length == STATES && finals != tracks && HasNul(mem[..], 0)
    modifies finals, tracks
    ensures (finals[..], tracks[..]) == Scan(mem[..], 0, old(finals[..]), old(tracks[..]))
  {
    hide Walk, Bump;
    var p := 0;
    while mem[p] != 0
      invariant HasNul(mem[..], p)
      invariant Scan(mem[..], p, finals[..], tracks[..]) == Scan(mem[..], 0, old(finals[..]), old(tracks[..]))
      decreases mem.Length - p
    {
      var fstate, q := Transition(mem, p, tracks);
      Count(finals, fstate);
      p := q;
    }
  }

  function Xor(a: byte, b: byte): byte { a ^ b }

  predicate Visited(k: nat, blksize: nat, step: nat)
    requires step > 0
  {
    k < blksize && Multiple(k, step)
  }

  predicate Multiple(k: nat, step: nat)
    requires step > 0
  {
    if k < step then k == 0 else Multiple(k - step, step)
  }

  /** Every `step`-th byte, unless it is a comma, changed by `x`. */
  function Corrupted(s: seq<byte>, blksize: nat, step: nat, x: byte): (r: seq<byte>)
    requires step > 0
    ensures |r| == |s|
    ensures forall k :: 0 <= k < |s| ==> r[k] == if Visited(k, blksize, step) && s[k] != COMMA then Xor(s[k], x) else s[k]
  {
    seq(|s|, k requires 0 <= k < |s| => if Visited(k, blksize, step) && s[k] != COMMA then Xor(s[k], x) else s[k])
  }

  lemma XorAssoc(a: byte, b: byte, c: byte)
    ensures Xor(Xor(a, b), c) == Xor(a, Xor(b, c))
  {
  }

  lemma XorSelf(a: byte)
    ensures Xor(a, a) == 0 && Xor(a, 0) == a && Xor(0, a) == a
  {
  }

  lemma XorTwice(b: byte, x: byte, y: byte)
    ensures Xor(Xor(b, x), y) == b <==> x == y
  {
    hide *;
    XorSelf(b);
    XorSelf(x);
    XorSelf(y);
    XorSelf(Xor(x, y));
    XorAssoc(b, x, y);
    XorAssoc(b, b, Xor(x, y));
    XorAssoc(x, x, y);
  }

  /** The second pass undoes the first if and only if every byte that the passes visit is a comma, or is
      not turned into one and meets the same change twice. */
  lemma UndoneIff(s: seq<byte>, blksize: nat, step: nat, x: byte, y: byte)
    requires step > 0
    ensures Corrupted(Corrupted(s, blksize, step, x), blksize, step, y) == s
            <==> forall k :: 0 <= k < |s| && Visited(k, blksize, step) && s[k] != COMMA ==>
                   Xor(s[k], x) != COMMA && x == y
  {
    hide Xor, Visited;
    var t := Corrupted(s, blksize, step, x);
    var u := Corrupted(t, blksize, step, y);
    forall k | 0 <= k < |s|
      ensures u[k] == s[k] <==> (Visited(k, blksize, step) && s[k] != COMMA ==> Xor(s[k], x) != COMMA && x == y)
    {
      XorTwice(s[k], x, y);
    }
    if u == s {
      assert forall k :: 0 <= k < |s| ==> u[k] == s[k];
    }
  }

  lemma {:induction false} BetweenVisits(p: nat, k: nat, step: nat)
    requires step > 0 && Multiple(p, step) && p < k < p + step
    ensures !Multiple(k, step)
    decreases p
  {
    if p >= step { BetweenVisits(p - step, k - step, step); }
  }

  method Corrupt(mem: array<byte>, blksize: nat, step: nat, x: byte)
    requires step > 0 && blksize <= mem.Length
    modifies mem
    ensures mem[..] == Corrupted(old(mem[..]), blksize, step, x)
  {
    hide Xor;
    var p := 0;
    while p < blksize
      invariant Multiple(p, step)
      invariant forall k :: 0 <= k < p && k < mem.Length ==> mem[k] == Corrupted(old(mem[..]), blksize, step, x)[k]
      invariant forall k :: p <= k < mem.Length ==> mem[k] == old(mem[k])
      decreases blksize - p
    {
      if mem[p] != COMMA {
        mem[p] := XorOf(mem[p], x);
      }
      forall k: nat | p < k < p + step ensures !Multiple(k, step) { BetweenVisits(p, k, step); }
      p := p + step;
    }
  }

  function XorOf(a: byte, b: byte): (r: byte)
    ensures r == Xor(a, b)
  {
    a ^ b
  }

  // ---- The whole run ----

  function Low(v: bv32): bv16 { (v & 0xffff) as bv16 }

  function High(v: bv32): bv16 { (v >> 16) as bv16 }

  method Crcu32(newval: bv32, crc: bv16) returns (r: bv16)
    ensures r == Crc.Step16(High(newval), Crc.Step16(Low(newval), crc))
  {
    hide Crc.Step16;
    r := Crc.Crcu16(Low(newval), crc);
    r := Crc.Crcu16(High(newval), r);
  }

  /** The values that go into the result: for each state the tokens that ended in it, then the times it
      was left. */
  function Values(finals: Counts, tracks: Counts, n: nat): seq<bv16>
    requires n <= STATES
  {
    if n == 0 then []
    else Values(finals, tracks, n - 1)
         + [Low(finals[n - 1]), High(finals[n - 1]), Low(tracks[n - 1]), High(tracks[n - 1])]
  }

  lemma FoldOne(crc: bv16, values: seq<bv16>, a: bv16)
    ensures Crc.Fold16(crc, values + [a]) == Crc.Step16(a, Crc.Fold16(crc, values))
  {
    hide Crc.Step16;
    assert (values + [a])[..|values|] == values;
  }

  lemma FoldFour(crc: bv16, values: seq<bv16>, a: bv16, b: bv16, c: bv16, d: bv16)
    ensures Crc.Fold16(crc, values + [a, b, c, d])
            == Crc.Step16(d, Crc.Step16(c, Crc.Step16(b, Crc.Step16(a, Crc.Fold16(crc, values)))))
  {
    hide *;
    FoldOne(crc, values, a);
    FoldOne(crc, values + [a], b);
    FoldOne(crc, values + [a] + [b], c);
    FoldOne(crc, values + [a] + [b] + [c], d);
    assert values + [a] + [b] + [c] + [d] == values + [a, b, c, d];
  }

  const NONE: Counts := [0, 0, 0, 0, 0, 0, 0, 0]

  /** `core_bench_state`: only the lower bytes of the seeds matter.  Both scans need a zero byte to stop
      at, the second one after the corruption. */
  method BenchState(blksize: nat, mem: array<byte>, seed1: byte, seed2: byte, step: nat, crc0: bv16)
    returns (crc: bv16)
    requires step > 0 && blksize <= mem.Length
    requires HasNul(mem[..], 0) && HasNul(Corrupted(mem[..], blksize, step, seed1), 0)
    modifies mem
    ensures mem[..] == Corrupted(Corrupted(old(mem[..]), blksize, step, seed1), blksize, step, seed2)
    ensures var first := Scan(old(mem[..]), 0, NONE, NONE);
            var second := Scan(Corrupted(old(mem[..]), blksize, step, seed1), 0, first.0, first.1);
            crc == Crc.Fold16(crc0, Values(second.0, second.1, STATES))
  {
    hide Scan, HasNul, Crc.Fold16, Crc.Step16;
    var finals := new bv32[STATES](_ => 0);
    var tracks := new bv32[STATES](_ => 0);
    assert finals[..] == NONE && tracks[..] == NONE;
    ScanAll(mem, finals, tracks);
    Corrupt(mem, blksize, step, seed1);
    ScanAll(mem, finals, tracks);
    Corrupt(mem, blksize, step, seed2);
    crc := CrcCounts(finals, tracks, crc0);
  }

  method CrcCounts(finals: array<bv32>, tracks: array<bv32>, crc0: bv16) returns (crc: bv16)
    requires finals.Length == STATES && tracks.Length == STATES
    ensures crc == Crc.Fold16(crc0, Values(finals[..], tracks[..], STATES))
  {
    hide Crc.Step16, Low, High;
    crc := crc0;
    for i := 0 to STATES
      invariant crc == Crc.Fold16(crc0, Values(finals[..], tracks[..], i))
    {
      crc := Crcu32(finals[i], crc);
      crc := Crcu32(tracks[i], crc);
      FoldFour(crc0, Values(finals[..], tracks[..], i), Low(finals[i]), High(finals[i]), Low(tracks[i]), High(tracks[i]));
    }
  }
}
