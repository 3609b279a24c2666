/**
 Printing and reading numbers in verif/tests/custom/common/syscalls.c: `printnum`, the `%d` and `%u`
 conversions, and `atol`.  Characters are their codes, and a string is what stands before its zero byte.
 */
module Syscalls {
  import opened Powers
  import opened Prelude

  type Text = seq<int>

  const SPACE := 32
  const PLUS := 43
  const MINUS := 45
  const ZERO := 48
  const LETTER_A := 97

  const WORD := 0x1_0000_0000_0000_0000

  // ---- Numerals ----

  /** The digits of a number, most significant first. */
  function Numeral(n: nat, base: nat): (r: seq<nat>)
    requires base >= 2
    ensures |r| >= 1
  {
    if n < base then [n] else
      DivSmaller(n, base);
      Numeral(n / base, base) + [n % base]
  }

  function NumberOf(digits: seq<nat>, base: nat): nat {
    if digits == [] then 0 else NumberOf(digits[..|digits| - 1], base) * base + digits[|digits| - 1]
  }

  /** Digits below the base, without a leading zero unless it is the only one. */
  predicate Proper(digits: seq<nat>, base: nat) {
    && |digits| >= 1 && (forall k :: 0 <= k < |digits| ==> digits[k] < base)
    && (|digits| > 1 ==> digits[0] != 0)
  }

  lemma DivMod(n: nat, base: nat)
    requires base > 0
    ensures (n / base) * base + n % base == n && n % base < base
  {
  }

  lemma Small(n: nat, base: nat)
    requires n < base
    ensures n % base == n
  {
  }

  lemma DivSmaller(n: nat, base: nat)
    requires base >= 2 && n >= base
    ensures 1 <= n / base < n
  {
  }

  lemma {:induction false} NumeralIsProper(n: nat, base: nat)
    requires base >= 2
    ensures Proper(Numeral(n, base), base) && NumberOf(Numeral(n, base), base) == n
    ensures n > 0 ==> Numeral(n, base)[0] != 0
    decreases n
  {
    if n < base {
      OneDigit(n, base);
    } else {
      DivMod(n, base);
      DivSmaller(n, base);
      NumeralIsProper(n / base, base);
      var front := Numeral(n / base, base);
      assert Numeral(n, base) == front + [n % base];
      NumberNext(front, n % base, base);
    }
  }

  lemma OneDigit(n: nat, base: nat)
    ensures NumberOf([n], base) == n
  {
    assert NumberOf([], base) == 0;
    assert [n][..0] == [];
  }

  lemma NumberNext(front: seq<nat>, d: nat, base: nat)
    ensures NumberOf(front + [d], base) == NumberOf(front, base) * base + d
  {
    assert (front + [d])[..|front|] == front;
  }

  lemma QuotientsApart(a: nat, c: nat, base: nat)
    requires a < c
    ensures a * base + base <= c * base
  {
    assert (a + 1) * base <= c * base by { Monotone(a + 1, c, base); }
    assert (a + 1) * base == a * base + base;
  }

  lemma Monotone(a: nat, c: nat, base: nat)
    requires a <= c
    ensures a * base <= c * base
  {
  }

  lemma SameQuotient(a: nat, b: nat, c: nat, d: nat, base: nat)
    requires a * base + b == c * base + d && b < base && d < base
    ensures a == c && b == d
  {
    if a < c { QuotientsApart(a, c, base); } else if c < a { QuotientsApart(c, a, base); }
  }

  lemma {:induction false} ProperPositive(digits: seq<nat>, base: nat)
    requires Proper(digits, base) && digits[0] != 0 && base >= 2
    ensures NumberOf(digits, base) > 0
    ensures |digits| > 1 ==> NumberOf(digits, base) >= base
    decreases |digits|
  {
    if |digits| == 1 {
      assert digits == [digits[0]];
      OneDigit(digits[0], base);
    } else {
      var front := digits[..|digits| - 1];
      ProperPositive(front, base);
      AtLeastBase(NumberOf(front, base), digits[|digits| - 1], base);
    }
  }

  lemma AtLeastBase(q: nat, d: nat, base: nat)
    requires q > 0
    ensures q * base + d >= base
  {
  }

  /** The numeral of a number is the only one. */
  lemma {:induction false} NumeralUnique(digits: seq<nat>, base: nat)
    requires base >= 2 && Proper(digits, base)
    ensures digits == Numeral(NumberOf(digits, base), base)
    decreases |digits|
  {
    if |digits| == 1 {
      assert digits == [digits[0]];
      OneDigit(digits[0], base);
    } else {
      var front, d := digits[..|digits| - 1], digits[|digits| - 1];
      var n := NumberOf(digits, base);
      ProperPositive(digits, base);
      DivMod(n, base);
      SameQuotient(NumberOf(front, base), d, n / base, n % base, base);
      NumeralUnique(front, base);
    }
  }

  /** A number below 2^k has at most k digits in any base. */
  lemma {:induction false} NumeralLength(n: nat, base: nat, k: nat)
    requires base >= 2 && n < Pow2(k) && k >= 1
    ensures |Numeral(n, base)| <= k
    decreases k
  {
    if n >= base {
      HalfAtMost(n, base);
      DivSmaller(n, base);
      NumeralLength(n / base, base, k - 1);
    }
  }

  lemma HalfAtMost(n: nat, base: nat)
    requires base >= 2
    ensures 2 * (n / base) <= n
  {
    DivMod(n, base);
    Twice(n / base, base);
  }

  lemma Twice(q: nat, base: nat)
    requires base >= 2
    ensures 2 * q <= q * base
  {
  }

  // ---- Printing ----

  function CharOf(d: nat): int { d + if d >= 10 then LETTER_A - 10 else ZERO }

  function Chars(digits: seq<nat>): (r: Text)
    ensures |r| == |digits| && forall k :: 0 <= k < |r| ==> r[k] == CharOf(digits[k])
  {
    seq(|digits|, k requires 0 <= k < |digits| => CharOf(digits[k]))
  }

  function Repeat(c: int, n: int): (r: Text)
    ensures |r| == (if n > 0 then n else 0) && forall k :: 0 <= k < |r| ==> r[k] == c
  {
    if n <= 0 then [] else Repeat(c, n - 1) + [c]
  }

  /** What `printnum` writes: the numeral, with padding in front up to the width. */
  function Printed(num: nat, base: nat, width: int, padc: int): Text
    requires base >= 2
  {
    var digits := Numeral(num, base);
    Repeat(padc, width - |digits|) + Chars(digits)
  }

  class Sink {
    var text: Text

    constructor ()
      ensures text == []
    {
      text := [];
    }

    method Putch(c: int)
      modifies this
      ensures text == old(text) + [c]
    {
      text := text + [c];
    }
  }

  lemma NumeralParts(n: nat, base: nat)
    requires base >= 2
    ensures var d := Numeral(n, base);
            && d[|d| - 1] == n % base
            && (if n < base then d == [n] else d == Numeral(n / base, base) + [n % base])
  {
    if n < base { Small(n, base); }
  }

  /** The digits still to come stand in front of those that are stored, the last one first. */
  method StoreDigits(digs: array<nat>, num0: nat, base: nat) returns (pos: nat)
    requires digs.Length == 64 && num0 < WORD && base >= 2
    modifies digs
    ensures pos == |Numeral(num0, base)| <= 64
    ensures forall k :: 0 <= k < pos ==> digs[k] == Numeral(num0, base)[pos - 1 - k]
  {
    hide Numeral, Pow2;
    Words();
    NumeralLength(num0, base, 64);
    var num: nat := num0;
    pos := 0;
    while true
      invariant pos + |Numeral(num, base)| == |Numeral(num0, base)| && pos < 64
      invariant Numeral(num, base) == Numeral(num0, base)[..|Numeral(num, base)|]
      invariant forall k :: 0 <= k < pos ==> digs[k] == Numeral(num0, base)[|Numeral(num0, base)| - 1 - k]
      decreases num
    {
      NumeralParts(num, base);
      digs[pos] := num % base;
      pos := pos + 1;
      if num < base {
        return;
      }
      DivSmaller(num, base);
      ghost var whole, part := Numeral(num0, base), Numeral(num, base);
      assert part == Numeral(num / base, base) + [num % base];
      assert part[|part| - 1] == whole[..|part|][|part| - 1];
      assert Numeral(num / base, base) == part[..|part| - 1] == whole[..|part| - 1];
      num := num / base;
    }
  }

  method Pad(sink: Sink, width: int, pos: nat, padc: int)
    modifies sink
    ensures sink.text == old(sink.text) + Repeat(padc, width - pos)
  {
    var w := width;
    while w > pos
      invariant sink.text == old(sink.text) + Repeat(padc, width - w)
      invariant w <= width && (w < width ==> w >= pos)
      decreases w - pos
    {
      sink.Putch(padc);
      w := w - 1;
    }
    assert Repeat(padc, width - w) == Repeat(padc, width - pos);
  }

  method Emit(sink: Sink, digs: array<nat>, pos: nat, ghost digits: seq<nat>)
    requires pos == |digits| <= digs.Length && forall k :: 0 <= k < pos ==> digs[k] == digits[pos - 1 - k]
    modifies sink
    ensures sink.text == old(sink.text) + Chars(digits)
  {
    var n := pos;
    while n > 0
      invariant 0 <= n <= pos
      invariant sink.text == old(sink.text) + Chars(digits)[..pos - n]
      decreases n
    {
      n := n - 1;
      ghost var j := pos - n - 1;
      assert digs[n] == digits[pos - 1 - n] == digits[j];
      assert Chars(digits)[..j + 1] == Chars(digits)[..j] + [CharOf(digits[j])];
      sink.Putch(digs[n] + (if digs[n] >= 10 then LETTER_A - 10 else ZERO));
    }
    assert Chars(digits)[..pos] == Chars(digits);
  }

  /** `printnum`: its 64 places are enough for every number and base. */
  method Printnum(sink: Sink, num: nat, base: nat, width: int, padc: int)
    requires num < WORD && base >= 2
    modifies sink
    ensures sink.text == old(sink.text) + Printed(num, base, width, padc)
  {
    hide Numeral, Repeat, Chars;
    var digs := new nat[64](_ => 0);
    var pos := StoreDigits(digs, num, base);
    Pad(sink, width, pos, padc);
    Emit(sink, digs, pos, Numeral(num, base));
  }

  function Abs(n: int): nat { if n < 0 then -n else n }

  /** The text of a signed number: the sign comes before any padding. */
  function Signed(n: int, width: int, padc: int): Text {
    (if n < 0 then [MINUS] else []) + Printed(Abs(n), 10, width, padc)
  }

  /** The `%d` conversion, for a number whose negation is representable. */
  method FormatSigned(sink: Sink, n: int, width: int, padc: int)
    requires -WORD < 2 * n < WORD
    modifies sink
    ensures sink.text == old(sink.text) + Signed(n, width, padc)
  {
    hide Printed;
    var num := n;
    if n < 0 {
      sink.Putch(MINUS);
      num := -n;
    }
    Printnum(sink, num, 10, width, padc);
  }

  /** The digit that a character stands for, in a base up to 36. */
  function DigitOf(c: int): int {
    if ZERO <= c <= ZERO + 9 then c - ZERO else if LETTER_A <= c < LETTER_A + 26 then 10 + c - LETTER_A else -1
  }

  /** In every base up to 36 the characters of a printed number stand for its digits, and the digits for it. */
  lemma PrintedStandsFor(n: nat, base: nat)
    requires 2 <= base <= 36
    ensures var digits, t := Numeral(n, base), Printed(n, base, 0, ZERO);
            && |t| == |digits| && (forall k :: 0 <= k < |t| ==> DigitOf(t[k]) == digits[k])
            && NumberOf(digits, base) == n
  {
    hide Numeral, NumberOf, Repeat;
    NumeralIsProper(n, base);
  }

  // ---- Reading ----

  function SkipSpaces(s: Text): Text {
    if s != [] && s[0] == SPACE then SkipSpaces(s[1..]) else s
  }

  function Digits(s: Text): int {
    if s == [] then 0 else 10 * Digits(s[..|s| - 1]) + s[|s| - 1] - ZERO
  }

  predicate Negative(s: Text) {
    var t := SkipSpaces(s);
    t != [] && t[0] == MINUS
  }

  /** What stands behind spaces and sign. */
  function Magnitude(s: Text): Text {
    var t := SkipSpaces(s);
    if t != [] && (t[0] == MINUS || t[0] == PLUS) then t[1..] else t
  }

  function ReadNumber(s: Text): int {
    if Negative(s) then -Digits(Magnitude(s)) else Digits(Magnitude(s))
  }

  predicate IsLong(x: int) { -WORD <= 2 * x < WORD }

  /** Every value that is held while the characters are added up is a long. */
  predicate Holds(t: Text) {
    forall i :: 0 <= i < |t| ==> TurnHolds(t, i)
  }

  predicate TurnHolds(t: Text, i: nat)
    requires i < |t|
  {
    IsLong(10 * Digits(t[..i])) && IsLong(Digits(t[..i + 1]))
  }

  /** The number read, or none when the arithmetic leaves the range of a long on the way. */
  function ReadLong(s: Text): Option<int> {
    if Holds(Magnitude(s)) && IsLong(ReadNumber(s)) then Some(ReadNumber(s)) else None
  }

  lemma HoldsNext(t: Text, c: int)
    ensures Holds(t + [c]) <==> Holds(t) && IsLong(10 * Digits(t)) && IsLong(Digits(t + [c]))
  {
    hide Digits, IsLong;
    var u := t + [c];
    assert forall i :: 0 <= i <= |t| ==> u[..i] == t[..i];
    assert u[..|t|] == t && u[..|t| + 1] == u;
    assert forall i :: 0 <= i < |t| ==> (TurnHolds(u, i) <==> TurnHolds(t, i));
    assert TurnHolds(u, |t|) <==> IsLong(10 * Digits(t)) && IsLong(Digits(u));
  }

  lemma {:induction false} HoldsPrefix(t: Text, k: nat)
    requires k <= |t| && !Holds(t[..k])
    ensures !Holds(t)
    decreases |t| - k
  {
    hide Holds;
    if k < |t| {
      HoldsNext(t[..k], t[k]);
      assert t[..k + 1] == t[..k] + [t[k]];
      HoldsPrefix(t, k + 1);
    } else {
      assert t[..k] == t;
    }
  }

  lemma DigitsNext(s: Text, c: int)
    ensures Digits(s + [c]) == 10 * Digits(s) + c - ZERO
  {
    assert (s + [c])[..|s|] == s;
  }

  lemma SkipNext(s: Text)
    requires s != []
    ensures SkipSpaces(s) == if s[0] == SPACE then SkipSpaces(s[1..]) else s
    ensures SkipSpaces([]) == [] && Digits([]) == 0
  {
  }

  method SkipBlanks(str: Text) returns (i: nat)
    ensures i <= |str| && SkipSpaces(str) == str[i..]
  {
    i := 0;
    assert str[0..] == str;
    while i < |str| && str[i] == SPACE
      invariant i <= |str| && SkipSpaces(str[i..]) == SkipSpaces(str)
    {
      assert str[i..][1..] == str[i + 1..];
      i := i + 1;
    }
  }

  method AddDigits(str: Text, from: nat) returns (sum: Option<int>)
    requires from <= |str|
    ensures sum == if Holds(str[from..]) then Some(Digits(str[from..])) else None
  {
    hide Digits, Holds, IsLong;
    var i, res := from, 0;
    NoDigits();
    assert str[from..from] == [];
    while i < |str|
      invariant from <= i <= |str| && res == Digits(str[from..i]) && Holds(str[from..i])
    {
      ghost var before, now := str[from..i], str[from..i + 1];
      assert now == before + [str[i]] && now == str[from..][..i + 1 - from];
      DigitsNext(before, str[i]);
      HoldsNext(before, str[i]);
      res := res * 10;
      if IsLong(res) {
        res := res + (str[i] - ZERO);
      }
      if !IsLong(res) {
        HoldsPrefix(str[from..], i + 1 - from);
        return None;
      }
      i := i + 1;
    }
    assert str[from..i] == str[from..];
    return Some(res);
  }

  lemma NoDigits()
    ensures Digits([]) == 0 && Holds([])
  {
  }

  /** `atol` on 64-bit longs, whose overflow the C language leaves undefined. */
  method Atol(str: Text) returns (r: Option<int>)
    ensures r == ReadLong(str)
  {
    hide Digits, SkipSpaces, Holds;
    var sign := false;
    var i := SkipBlanks(str);
    ghost var t := str[i..];
    if i < |str| && (str[i] == MINUS || str[i] == PLUS) {
      sign := str[i] == MINUS;
      i := i + 1;
      assert str[i..] == t[1..];
    }
    var res := AddDigits(str, i);
    if res.None? {
      return None;
    }
    var value := if sign then -res.value else res.value;
    return if IsLong(value) then Some(value) else None;
  }

  // ---- There and back ----

  function Pow10(k: nat): (r: nat)
    ensures r >= 1
  {
    if k == 0 then 1 else 10 * Pow10(k - 1)
  }

  lemma Pow10Next(k: nat)
    ensures Pow10(0) == 1 && Pow10(k + 1) == 10 * Pow10(k)
  {
  }

  lemma TenTimes(a: int, b: int)
    ensures 10 * (a * b) == a * (10 * b)
  {
  }

  lemma {:induction false} DigitsConcat(a: Text, b: Text)
    ensures Digits(a + b) == Digits(a) * Pow10(|b|) + Digits(b)
    decreases |b|
  {
    hide *;
    Pow10Next(0);
    NoDigits();
    if b == [] {
      assert a + b == a;
    } else {
      var c, last := b[..|b| - 1], b[|b| - 1];
      assert a + b == (a + c) + [last] && b == c + [last];
      DigitsConcat(a, c);
      DigitsNext(a + c, last);
      DigitsNext(c, last);
      Pow10Next(|c|);
      TenTimes(Digits(a), Pow10(|c|));
    }
  }

  /** The text of a numeral reads back as the number, which is below ten to its length. */
  lemma {:induction false} DigitsOfNumeral(n: nat)
    ensures Digits(Chars(Numeral(n, 10))) == n
    ensures n < Pow10(|Numeral(n, 10)|)
    ensures Chars(Numeral(n, 10))[0] == CharOf(Numeral(n, 10)[0]) && Numeral(n, 10)[0] < 10
    decreases n
  {
    hide Digits, Pow10;
    var d := Numeral(n, 10);
    NoDigits();
    if n < 10 {
      DigitsNext([], CharOf(n));
      assert Chars(d) == [] + [CharOf(n)];
      Pow10Next(0);
    } else {
      DivSmaller(n, 10);
      DivMod(n, 10);
      DigitsOfNumeral(n / 10);
      var front := Numeral(n / 10, 10);
      assert Chars(d) == Chars(front) + [CharOf(n % 10)];
      DigitsNext(Chars(front), CharOf(n % 10));
      Pow10Next(|front|);
    }
  }

  /** 11...1 with `k` ones. */
  function Ones(k: int): (r: nat)
    ensures r == 0 <==> k <= 0
  {
    if k <= 0 then 0 else 10 * Ones(k - 1) + 1
  }

  lemma {:induction false} DigitsOfRepeat(c: int, k: int)
    ensures Digits(Repeat(c, k)) == (c - ZERO) * Ones(k)
    decreases k
  {
    hide Digits;
    if k <= 0 {
      NoDigits();
    } else {
      DigitsOfRepeat(c, k - 1);
      DigitsNext(Repeat(c, k - 1), c);
      Spread(c - ZERO, Ones(k - 1));
    }
  }

  lemma Spread(x: int, y: int)
    ensures 10 * (x * y) + x == x * (10 * y + 1)
  {
  }

  /** Where the padding is spoiled by what `atol` makes of it, and where it is not. */
  predicate Readable(n: int, width: int, padc: int) {
    var k := width - |Numeral(Abs(n), 10)|;
    k <= 0 || padc == ZERO || (padc == SPACE && n >= 0) || (padc == MINUS && k == 1 && n == 0)
  }

  lemma PaddedValue(num: nat, width: int, padc: int)
    ensures var d := Numeral(num, 10);
            Digits(Printed(num, 10, width, padc)) == (padc - ZERO) * Ones(width - |d|) * Pow10(|d|) + num
  {
    hide Digits, Ones, Pow10, Numeral;
    var d := Numeral(num, 10);
    DigitsConcat(Repeat(padc, width - |d|), Chars(d));
    DigitsOfRepeat(padc, width - |d|);
    DigitsOfNumeral(num);
  }

  lemma FirstChar(num: nat, width: int, padc: int)
    ensures var d, t := Numeral(num, 10), Printed(num, 10, width, padc);
            t != [] && if width <= |d| then ZERO <= t[0] <= ZERO + 9 else t[0] == padc
  {
    hide Digits, Pow10, Numeral;
    DigitsOfNumeral(num);
  }

  lemma Vanishes(x: int, y: nat, p: nat)
    requires p > 0
    ensures x * y * p == 0 <==> x == 0 || y == 0
  {
    if x != 0 && y > 0 {
      assert x * y != 0;
    }
  }

  lemma NegativeTrip(n: int, width: int, padc: int)
    requires n < 0 && padc in {SPACE, ZERO, MINUS}
    ensures ReadNumber(Signed(n, width, padc)) == n <==> Readable(n, width, padc)
  {
    hide Digits, Ones, Pow10, Numeral, Printed, SkipSpaces;
    var d, t := Numeral(Abs(n), 10), Printed(Abs(n), 10, width, padc);
    var s := Signed(n, width, padc);
    assert s == [MINUS] + t && s[1..] == t;
    SkipNext(s);
    PaddedValue(Abs(n), width, padc);
    Vanishes(padc - ZERO, Ones(width - |d|), Pow10(|d|));
  }

  lemma {:induction false} SkipPadding(k: int, t: Text)
    requires t != [] && t[0] != SPACE
    ensures SkipSpaces(Repeat(SPACE, k) + t) == t
    decreases k
  {
    var s := Repeat(SPACE, k) + t;
    if k > 0 {
      assert s[1..] == Repeat(SPACE, k - 1) + t;
      SkipPadding(k - 1, t);
    } else {
      assert s == t;
    }
  }

  lemma RepeatFront(c: int, k: int)
    requires k > 0
    ensures Repeat(c, k) == [c] + Repeat(c, k - 1)
  {
  }

  /** A minus sign of padding is read as the sign, and every other as the digit -3. */
  lemma MinusTrip(n: nat, k: int)
    requires k > 0
    ensures var s := Repeat(MINUS, k) + Chars(Numeral(n, 10)); ReadNumber(s) == n <==> k == 1 && n == 0
  {
    hide Digits, Ones, Pow10, Numeral, SkipSpaces, Repeat;
    var d := Chars(Numeral(n, 10));
    var s := Repeat(MINUS, k) + d;
    RepeatFront(MINUS, k);
    assert s[1..] == Repeat(MINUS, k - 1) + d;
    SkipNext(s);
    DigitsConcat(Repeat(MINUS, k - 1), d);
    DigitsOfRepeat(MINUS, k - 1);
    DigitsOfNumeral(n);
    Dominates(Ones(k - 1), Pow10(|d|));
  }

  lemma Dominates(y: nat, p: nat)
    ensures y > 0 ==> (MINUS - ZERO) * y * p <= -3 * p
    ensures y == 0 ==> (MINUS - ZERO) * y * p == 0
  {
    if y > 0 {
      Monotone(1, y, p);
      assert (MINUS - ZERO) * y * p == -3 * (y * p);
    }
  }

  lemma PositiveTrip(n: nat, width: int, padc: int)
    requires padc in {SPACE, ZERO, MINUS}
    ensures ReadNumber(Signed(n, width, padc)) == n <==> Readable(n, width, padc)
  {
    hide Digits, Ones, Pow10, Numeral, SkipSpaces, Repeat;
    var d := Numeral(n, 10);
    var k := width - |d|;
    var s := Signed(n, width, padc);
    assert s == Printed(n, 10, width, padc);
    FirstChar(n, width, padc);
    FirstChar(n, 0, padc);
    if k <= 0 || padc == ZERO {
      PaddedValue(n, width, padc);
      Vanishes(padc - ZERO, Ones(k), Pow10(|d|));
      NoOnes(k);
      SkipNext(s);
    } else if padc == SPACE {
      DigitsOfNumeral(n);
      SkipPadding(k, Chars(d));
    } else {
      MinusTrip(n, k);
    }
  }

  lemma NoOnes(k: int)
    ensures k <= 0 ==> Ones(k) == 0
  {
  }

  /** While it reads digits, `atol` never holds more than the final value. */
  lemma {:induction false} RunningValue(s: Text, i: nat)
    requires i <= |s| && forall k :: 0 <= k < |s| ==> ZERO <= s[k] <= ZERO + 9
    ensures 0 <= Digits(s[..i]) <= Digits(s)
    decreases |s|
  {
    if i == |s| {
      assert s[..i] == s;
      if s != [] { RunningValue(s[..|s| - 1], |s| - 1); assert s[..|s| - 1][..|s| - 1] == s[..|s| - 1]; }
    } else {
      RunningValue(s[..|s| - 1], i);
      assert s[..|s| - 1][..i] == s[..i];
    }
  }

  predicate AllDigits(t: Text) { forall k :: 0 <= k < |t| ==> ZERO <= t[k] <= ZERO + 9 }

  /** So digits that stand for a long are read without overflow. */
  lemma DigitsHold(t: Text)
    requires AllDigits(t) && IsLong(Digits(t))
    ensures Holds(t)
  {
    hide Digits;
    forall i | 0 <= i < |t| ensures TurnHolds(t, i) {
      RunningValue(t, i);
      RunningValue(t, i + 1);
      assert t[..i + 1] == t[..i] + [t[i]];
      DigitsNext(t[..i], t[i]);
    }
  }

  lemma PrintedDigits(num: nat, width: int, padc: int)
    requires width <= |Numeral(num, 10)| || padc == ZERO
    ensures AllDigits(Printed(num, 10, width, padc)) && AllDigits(Chars(Numeral(num, 10)))
  {
    hide Numeral, NumberOf, Repeat, Chars;
    NumeralIsProper(num, 10);
    var d := Numeral(num, 10);
    assert forall k :: 0 <= k < |d| ==> Chars(d)[k] == CharOf(d[k]);
  }

  lemma MagnitudeOf(s: Text)
    requires s != [] && s[0] != SPACE
    ensures Magnitude(s) == if s[0] == MINUS || s[0] == PLUS then s[1..] else s
  {
  }

  /** Behind spaces and sign, a readable text is nothing but digits. */
  lemma ReadableDigits(n: int, width: int, padc: int)
    requires Readable(n, width, padc)
    ensures AllDigits(Magnitude(Signed(n, width, padc)))
  {
    hide SkipSpaces, Numeral, Repeat, Magnitude, Chars, CharOf;
    var d, s := Numeral(Abs(n), 10), Signed(n, width, padc);
    var k := width - |d|;
    PrintedDigits(Abs(n), 0, ZERO);
    FirstChar(Abs(n), width, padc);
    if n < 0 {
      assert s[1..] == Printed(Abs(n), 10, width, padc);
      PrintedDigits(Abs(n), width, padc);
      MagnitudeOf(s);
    } else if k > 0 && padc == SPACE {
      assert s == Repeat(SPACE, k) + Chars(d);
      SpacesSkipped(k, Chars(d));
    } else if k > 0 && padc == MINUS {
      assert s[1..] == Chars(d);
      MagnitudeOf(s);
    } else {
      PrintedDigits(n, width, padc);
      MagnitudeOf(s);
    }
  }

  lemma SpacesSkipped(k: int, t: Text)
    requires t != [] && AllDigits(t)
    ensures Magnitude(Repeat(SPACE, k) + t) == t
  {
    SkipPadding(k, t);
  }

  /** `atol` reads back the text of `%d` if and only if there is no padding, or it is zeros, or it is spaces
      and the number is not negative; or, by chance, a single minus sign before 0.  No such text overflows. */
  lemma RoundTripIff(n: int, width: int, padc: int)
    requires padc in {SPACE, ZERO, MINUS} && IsLong(n) && IsLong(-n)
    ensures ReadLong(Signed(n, width, padc)) == Some(n) <==> Readable(n, width, padc)
  {
    hide Digits, Numeral, SkipSpaces, Printed;
    if n < 0 { NegativeTrip(n, width, padc); } else { PositiveTrip(n, width, padc); }
    if Readable(n, width, padc) {
      ReadableDigits(n, width, padc);
      DigitsHold(Magnitude(Signed(n, width, padc)));
    }
  }
}
