/**
 What the searches of the list benchmark of verif/tests/custom/coremark/core_list_join.c add up to.
 */
module CoremarkTally {
  import opened CoremarkBench
  import Crc = CoremarkCrc

  predicate Short(n: int) { -0x8000 <= n < 0x8000 }

  /** The index that search `k` asks for: it counts up from the first one, until it leaves the range of a 16-bit
      number, and a negative one stays. */
  function IdxAt(idx: int, k: nat): int {
    if idx < 0 then idx else if idx + k < 0x8000 then idx + k else -0x8000
  }

  /** The place that search `k` finds in a list, the length of the list if it finds none. */
  function FoundAt(items: seq<Item>, idx: int, k: nat): (r: nat)
    ensures r <= |items|
  {
    FirstAt(items, IdxAt(idx, k), (k % 0x100) as bv16)
  }

  /** The list in front of search `k`. */
  function ListAt(items: seq<Item>, idx: int, k: nat): (r: seq<Item>)
    ensures |r| == |items|
  {
    if k == 0 then items
    else
      var before := ListAt(items, idx, k - 1);
      AfterSearch(before, FoundAt(before, idx, k - 1))
  }

  predicate Hit(items: seq<Item>, idx: int, k: nat) {
    FoundAt(ListAt(items, idx, k), idx, k) < |items|
  }

  /** Those of the first `n` searches that find something. */
  ghost function Hits(items: seq<Item>, idx: int, n: nat): set<nat> {
    set k: nat | k < n && Hit(items, idx, k)
  }

  /** Search `k` adds a bit to the result. */
  predicate Scores(items: seq<Item>, idx: int, k: nat)
    requires |items| > 1
  {
    var before := ListAt(items, idx, k);
    FoundBit(before, FoundAt(before, idx, k)) != 0
  }

  /** Those of the first `n` searches that add a bit. */
  ghost function Bits(items: seq<Item>, idx: int, n: nat): set<nat>
    requires |items| > 1
  {
    set k: nat | k < n && Scores(items, idx, k)
  }

  lemma BitsNext(items: seq<Item>, idx: int, n: nat)
    requires |items| > 1
    ensures |Bits(items, idx, n + 1)| == |Bits(items, idx, n)| + (if Scores(items, idx, n) then 1 else 0)
    ensures Bits(items, idx, 0) == {}
  {
    hide Scores;
    assert Bits(items, idx, n + 1) == Bits(items, idx, n) + if Scores(items, idx, n) then {n} else {};
  }

  lemma HitsNext(items: seq<Item>, idx: int, n: nat)
    ensures |Hits(items, idx, n + 1)| == |Hits(items, idx, n)| + (if Hit(items, idx, n) then 1 else 0)
    ensures Hits(items, idx, 0) == {}
  {
    hide Hit;
    assert Hits(items, idx, n + 1) == Hits(items, idx, n) + if Hit(items, idx, n) then {n} else {};
  }

  // ---- 16-bit numbers ----

  /** A number as the program's unsigned 16-bit type counts it. */
  function Word(n: nat): bv16 {
    if n == 0 then 0 else Inc(Word(n - 1))
  }

  lemma SumInc(a: bv16, b: bv16)
    ensures Sum(a, Inc(b)) == Inc(Sum(a, b)) && Sum(a, 0) == a && Sum(Inc(a), b) == Inc(Sum(a, b))
    ensures Sum(a, 1) == Inc(a)
  {
  }

  lemma {:induction false} WordSum(m: nat, n: nat)
    ensures Word(m + n) == Sum(Word(m), Word(n))
    decreases n
  {
    hide Sum, Inc;
    if n == 0 {
      SumInc(Word(m), 0);
    } else {
      WordSum(m, n - 1);
      SumInc(Word(m), Word(n - 1));
    }
  }

  lemma Double(n: nat, a: bv16, b: bv16)
    requires Word(n) == a && b == a + a
    ensures Word(2 * n) == b
  {
    hide Word, Inc;
    WordSum(n, n);
  }

  /** It wraps round at 2^16. */
  lemma WordWraps(n: nat)
    ensures Word(n + 0x1_0000) == Word(n)
  {
    assert Word(1) == 1 by { assert Word(0) == 0; }
    hide Word, Inc;
    Double(1, 1, 2);
    Double(2, 2, 4);
    Double(4, 4, 8);
    Double(8, 8, 0x10);
    Double(0x10, 0x10, 0x20);
    Double(0x20, 0x20, 0x40);
    Double(0x40, 0x40, 0x80);
    Double(0x80, 0x80, 0x100);
    Double(0x100, 0x100, 0x200);
    Double(0x200, 0x200, 0x400);
    Double(0x400, 0x400, 0x800);
    Double(0x800, 0x800, 0x1000);
    Double(0x1000, 0x1000, 0x2000);
    Double(0x2000, 0x2000, 0x4000);
    Double(0x4000, 0x4000, 0x8000);
    Double(0x8000, 0x8000, 0);
    WordSum(n, 0x1_0000);
    SumInc(Word(n), 0);
  }

  lemma FourIs(a: bv16)
    ensures FourTimes(a) == Sum(Sum(a, a), Sum(a, a))
  {
  }

  /** Two numbers are earned and the third is lost. */
  function Balance(bits: bv16, four: bv16, missed: bv16): bv16 { bits + (four - missed) }

  lemma ScoreIs(bits: bv16, found: bv16, missed: bv16, four: bv16)
    requires FourTimes(found) == four
    ensures Score(bits, found, missed) == Balance(bits, four, missed)
  {
    hide FourTimes;
  }

  lemma ScoreSum(bits: nat, hits: nat, misses: nat)
    ensures Score(Word(bits), Word(hits), Word(misses)) == Balance(Word(bits), Word(4 * hits), Word(misses))
  {
    hide *;
    WordSum(hits, hits);
    WordSum(2 * hits, 2 * hits);
    FourIs(Word(hits));
    ScoreIs(Word(bits), Word(hits), Word(misses), Word(4 * hits));
  }

  lemma BitIs(items: seq<Item>, at: nat)
    requires |items| > 1 && at <= |items|
    ensures FoundBit(items, at) == 0 || FoundBit(items, at) == 1
  {
  }

  /** Feeding one value again and again is the CRC of a stream of it. */
  lemma {:induction false} CrcTimesIsStream(data16: bv16, n: nat, crc: bv16)
    ensures CrcTimes(data16, n, crc) == Crc.Fold16(crc, seq(n, _ => data16))
    decreases n
  {
    hide Crc.Step16;
    var values := seq(n, _ => data16);
    if n > 0 {
      CrcTimesIsStream(data16, n - 1, crc);
      CrcTimesLast(data16, n, crc);
      assert values[..n - 1] == seq(n - 1, _ => data16);
    }
  }

  lemma {:induction false} CrcTimesLast(data16: bv16, n: nat, crc: bv16)
    requires n > 0
    ensures CrcTimes(data16, n, crc) == Crc.Step16(data16, CrcTimes(data16, n - 1, crc))
    decreases n
  {
    hide Crc.Step16;
    if n > 1 { CrcTimesLast(data16, n - 1, Crc.Step16(data16, crc)); }
  }

  // ---- The searches ----

  lemma NextIs(idx: int, k: nat)
    requires Short(idx)
    ensures NextIdx(IdxAt(idx, k)) == IdxAt(idx, k + 1)
  {
  }

  /** The bit of search `k` counts one or nothing. */
  lemma BitAdded(items: seq<Item>, idx: int, k: nat)
    requires |items| > 1
    ensures var before := ListAt(items, idx, k);
            var word := Word(|Bits(items, idx, k)|);
            Sum(word, FoundBit(before, FoundAt(before, idx, k))) == if Scores(items, idx, k) then Inc(word) else word
  {
    hide FoundBit, FoundAt, ListAt, Inc, Sum, Word;
    var before := ListAt(items, idx, k);
    BitIs(before, FoundAt(before, idx, k));
    SumInc(Word(|Bits(items, idx, k)|), 0);
  }

  /** The variables of the searching loop after `n` searches. */
  ghost predicate Tallied(s: Searching, items: seq<Item>, idx: int, junk: bv16, n: nat)
    requires |items| > 1
  {
    && s.items == ListAt(items, idx, n) && s.idx == IdxAt(idx, n)
    && s.data16 == (if n == 0 then junk else ((n - 1) % 0x100) as bv16)
    && |Hits(items, idx, n)| <= n
    && s.found == Word(|Hits(items, idx, n)|) && s.missed == Word(n - |Hits(items, idx, n)|)
    && s.retval == Word(|Bits(items, idx, n)|)
  }

  lemma NoneTallied(items: seq<Item>, idx: int, junk: bv16)
    requires |items| > 1 && Short(idx)
    ensures Tallied(Searching(items, idx, junk, 0, 0, 0), items, idx, junk, 0)
  {
    HitsNext(items, idx, 0);
    BitsNext(items, idx, 0);
    hide Hits, Bits;
  }

  /** One search more: `v` is what the turn of the loop makes of `u`. */
  lemma OneTallied(u: Searching, v: Searching, items: seq<Item>, idx: int, junk: bv16, k: nat)
    requires |items| > 1 && Short(idx) && Tallied(u, items, idx, junk, k)
    requires var at := FoundAt(u.items, idx, k);
             && |u.items| == |items|
             && v == Searching(AfterSearch(u.items, at), NextIdx(u.idx), (k % 0x100) as bv16,
                               if at < |u.items| then Inc(u.found) else u.found,
                               if at < |u.items| then u.missed else Inc(u.missed),
                               Sum(u.retval, FoundBit(u.items, at)))
    ensures Tallied(v, items, idx, junk, k + 1)
  {
    hide FoundAt, AfterSearch, FoundBit, NextIdx, Inc, Sum, Hits, Bits, IdxAt, Scores;
    HitsNext(items, idx, k);
    BitsNext(items, idx, k);
    NextIs(idx, k);
    BitAdded(items, idx, k);
  }

  lemma {:induction false} SearchesAre(items: seq<Item>, idx: int, junk: bv16, n: nat)
    requires |items| > 1 && Short(idx)
    ensures Tallied(Searches(Searching(items, idx, junk, 0, 0, 0), n), items, idx, junk, n)
    decreases n
  {
    hide FirstAt, AfterSearch, FoundBit, NextIdx, Inc, Sum, Searches, SearchOnce, Tallied, IdxAt, FoundAt, NumberByte;
    var start := Searching(items, idx, junk, 0, 0, 0);
    if n == 0 {
      SearchesNext(start, 0);
      NoneTallied(items, idx, junk);
    } else {
      SearchesAre(items, idx, junk, n - 1);
      SearchesNext(start, n - 1);
      SamePlace(Searches(start, n - 1), items, idx, junk, n - 1);
      OneTallied(Searches(start, n - 1), Searches(start, n), items, idx, junk, n - 1);
    }
  }

  lemma SamePlace(s: Searching, items: seq<Item>, idx: int, junk: bv16, n: nat)
    requires |items| > 1 && Tallied(s, items, idx, junk, n)
    ensures |s.items| == |items| && NumberByte(n) == (n % 0x100) as bv16
    ensures FirstAt(s.items, s.idx, NumberByte(n)) == FoundAt(s.items, idx, n)
  {
    hide FirstAt;
  }

  /** The result of the searches: one for each that adds a bit and four for each that finds something, less one
      for each that finds nothing, as 16-bit numbers; and the list, the index and the byte that they leave. */
  lemma SearchesTally(items: seq<Item>, findNum: int, idx: int, junk: bv16)
    requires |items| > 1 && Short(idx)
    ensures var n := if findNum < 0 then 0 else findNum;
            var s := Searched(items, findNum, idx, junk);
            var hits, bits := |Hits(items, idx, n)|, |Bits(items, idx, n)|;
            && hits <= n && s.found == Word(hits) && s.missed == Word(n - hits)
            && s.retval == Balance(Word(bits), Word(4 * hits), Word(n - hits))
            && s.items == ListAt(items, idx, n) && s.idx == IdxAt(idx, n)
            && s.data16 == (if n == 0 then junk else ((n - 1) % 0x100) as bv16)
  {
    hide Searches, Score, Sum, Inc, Word, Hits, Bits, IdxAt, ListAt, Balance, Searched;
    var n := if findNum < 0 then 0 else findNum;
    var hits, bits := |Hits(items, idx, n)|, |Bits(items, idx, n)|;
    SearchesAre(items, idx, junk, n);
    SearchedIs(items, findNum, idx, junk, n);
    ScoreSum(bits, hits, n - hits);
  }
}
