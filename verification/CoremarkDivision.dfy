/**
 The CRC of verif/tests/custom/coremark/core_util.c is a remainder: of the bits of the values, least
 significant first, followed by sixteen zeros, modulo x^16 + x^15 + x^2 + 1 (0x18005, whose lower half
 read backward is the feedback mask 0xA001).
 */
module CoremarkDivision {
  import opened CoremarkCrc
  import opened LongDivision

  // ---- Bits of a word, least significant first ----

  predicate LowSet(c: bv16) { c & 1 != 0 }

  function Down(c: bv16): bv16 { c >> 1 }

  function BitsN(n: nat, c: bv16): (r: seq<bool>)
    ensures |r| == n
  {
    if n == 0 then [] else [LowSet(c)] + BitsN(n - 1, Down(c))
  }

  /** No bit is set from place `n` on. */
  predicate Small(c: bv16, n: nat) {
    if n == 0 then c == 0 else Small(Down(c), n - 1)
  }

  lemma LowXor(a: bv16, b: bv16)
    ensures LowSet(Xor(a, b)) == (LowSet(a) != LowSet(b)) && Down(Xor(a, b)) == Xor(Down(a), Down(b))
  {
  }

  lemma {:induction false} BitsXor(n: nat, a: bv16, b: bv16)
    ensures BitsN(n, Xor(a, b)) == XorBits(BitsN(n, a), BitsN(n, b))
    decreases n
  {
    hide LowSet, Down, Xor;
    if n > 0 {
      LowXor(a, b);
      BitsXor(n - 1, Down(a), Down(b));
    }
  }

  lemma ZeroDown()
    ensures !LowSet(0) && Down(0) == 0
  {
  }

  lemma {:induction false} BitsGrow(n: nat, c: bv16)
    requires Small(c, n)
    ensures BitsN(n + 1, c) == BitsN(n, c) + [false]
    decreases n
  {
    hide LowSet, Down;
    if n == 0 {
      ZeroDown();
      assert BitsN(1, c) == [LowSet(c)] + BitsN(0, Down(c));
    } else {
      BitsGrow(n - 1, Down(c));
    }
  }

  /** The lower `n` bits. */
  function Mask(n: nat): bv16 {
    if n == 0 then 0 else (Mask(n - 1) << 1) | 1
  }

  lemma MaskDown(c: bv16, m: bv16, d: bv16)
    requires c & ((m << 1) | 1) == c && d == c >> 1
    ensures d & m == d
  {
  }

  lemma MaskZero(c: bv16)
    requires c & 0 == c
    ensures c == 0
  {
  }

  lemma DownIs(c: bv16, d: bv16)
    requires d == c >> 1
    ensures Down(c) == d
  {
  }

  lemma {:induction false} MaskedSmall(c: bv16, m: bv16, n: nat)
    requires m == Mask(n) && c & m == c
    ensures Small(c, n)
    decreases n
  {
    hide Down;
    if n == 0 {
      MaskZero(c);
    } else {
      var rest, d := Mask(n - 1), c >> 1;
      MaskDown(c, rest, d);
      DownIs(c, d);
      MaskedSmall(d, rest, n - 1);
    }
  }

  lemma MaskNext(n: nat, m: bv16, one: bv16)
    requires Mask(n) == m && one == (m << 1) | 1
    ensures Mask(n + 1) == one
  {
  }

  lemma NoMask()
    ensures Mask(0) == 0
  {
  }

  lemma FullMask()
    ensures Mask(16) == 0xFFFF
  {
    hide Mask;
    NoMask();
    MaskNext(0, 0x0, 0x1);
    MaskNext(1, 0x1, 0x3);
    MaskNext(2, 0x3, 0x7);
    MaskNext(3, 0x7, 0xf);
    MaskNext(4, 0xf, 0x1f);
    MaskNext(5, 0x1f, 0x3f);
    MaskNext(6, 0x3f, 0x7f);
    MaskNext(7, 0x7f, 0xff);
    MaskNext(8, 0xff, 0x1ff);
    MaskNext(9, 0x1ff, 0x3ff);
    MaskNext(10, 0x3ff, 0x7ff);
    MaskNext(11, 0x7ff, 0xfff);
    MaskNext(12, 0xfff, 0x1fff);
    MaskNext(13, 0x1fff, 0x3fff);
    MaskNext(14, 0x3fff, 0x7fff);
    MaskNext(15, 0x7fff, 0xffff);
  }

  lemma FullAll(c: bv16)
    ensures c & 0xFFFF == c
  {
  }

  lemma AllSmall(c: bv16)
    ensures Small(Down(c), 15) && Small(c, 16)
  {
    hide Mask, Down;
    FullMask();
    FullAll(c);
    MaskedSmall(c, 0xFFFF, 16);
  }

  lemma SameWord(a: bv16, b: bv16)
    requires LowSet(a) == LowSet(b) && Down(a) == Down(b)
    ensures a == b
  {
    assert a == (a >> 1 << 1) | (a & 1) && b == (b >> 1 << 1) | (b & 1);
    assert LowSet(a) ==> a & 1 == 1;
    assert LowSet(b) ==> b & 1 == 1;
  }

  /** The bits determine the word. */
  lemma {:induction false} BitsInjective(n: nat, a: bv16, b: bv16)
    requires Small(a, n) && Small(b, n) && BitsN(n, a) == BitsN(n, b)
    ensures a == b
    decreases n
  {
    hide LowSet, Down;
    if n > 0 {
      assert BitsN(n, a)[0] == BitsN(n, b)[0] && BitsN(n, a)[1..] == BitsN(n, b)[1..];
      BitsInjective(n - 1, Down(a), Down(b));
      SameWord(a, b);
    }
  }

  // ---- The generator ----

  const TAIL: seq<bool> :=
    [true, false, false, false, false, false, false, false, false, false, false, false, false, true, false, true]

  /** x^16 + x^15 + x^2 + 1, from the highest power down. */
  const GENERATOR: seq<bool> := [true] + TAIL

  lemma MaskBits()
    ensures BitsN(16, 0xA001) == TAIL
  {
    assert BitsN(3, 0x5) == [true, false, true] by { FiveBits(); }
    hide LowSet, Down;
    Bit(0xA, 0x5, false);
    Bit(0x14, 0xA, false);
    Bit(0x28, 0x14, false);
    Bit(0x50, 0x28, false);
    Bit(0xA0, 0x50, false);
    Bit(0x140, 0xA0, false);
    Bit(0x280, 0x140, false);
    Bit(0x500, 0x280, false);
    Bit(0xA00, 0x500, false);
    Bit(0x1400, 0xA00, false);
    Bit(0x2800, 0x1400, false);
    Bit(0x5000, 0x2800, false);
    Bit(0xA001, 0x5000, true);
    assert BitsN(4, 0xA) == [false] + BitsN(3, 0x5);
    assert BitsN(5, 0x14) == [false] + BitsN(4, 0xA);
    assert BitsN(6, 0x28) == [false] + BitsN(5, 0x14);
    assert BitsN(7, 0x50) == [false] + BitsN(6, 0x28);
    assert BitsN(8, 0xA0) == [false] + BitsN(7, 0x50);
    assert BitsN(9, 0x140) == [false] + BitsN(8, 0xA0);
    assert BitsN(10, 0x280) == [false] + BitsN(9, 0x140);
    assert BitsN(11, 0x500) == [false] + BitsN(10, 0x280);
    assert BitsN(12, 0xA00) == [false] + BitsN(11, 0x500);
    assert BitsN(13, 0x1400) == [false] + BitsN(12, 0xA00);
    assert BitsN(14, 0x2800) == [false] + BitsN(13, 0x1400);
    assert BitsN(15, 0x5000) == [false] + BitsN(14, 0x2800);
    assert BitsN(16, 0xA001) == [true] + BitsN(15, 0x5000);
  }

  lemma FiveBits()
    ensures BitsN(3, 0x5) == [true, false, true]
  {
    Bit(5, 2, true);
    Bit(2, 1, false);
    Bit(1, 0, true);
    hide LowSet, Down;
    assert BitsN(1, 1) == [true] + BitsN(0, 0);
    assert BitsN(2, 2) == [false] + BitsN(1, 1);
  }

  lemma Bit(c: bv16, d: bv16, low: bool)
    requires d == c >> 1 && low == (c & 1 != 0)
    ensures LowSet(c) == low && Down(c) == d
  {
  }

  // ---- The register divides ----

  lemma BackParts(c: bv16)
    ensures Back(c) == if LowSet(c) then Xor(Down(c), 0xA001) else Down(c)
  {
  }

  lemma BackBits(c: bv16)
    ensures var b := BitsN(16, c);
            BitsN(16, Back(c)) == if b[0] then XorBits(b[1..] + [false], TAIL) else b[1..] + [false]
  {
    hide LowSet, Down, Back, Xor, Small;
    BackParts(c);
    AllSmall(c);
    BitsGrow(15, Down(c));
    assert BitsN(16, c)[1..] == BitsN(15, Down(c));
    BitsXor(16, Down(c), 0xA001);
    MaskBits();
  }

  lemma StepDivides(b: seq<bool>, n: nat)
    requires |b| == 16 && n > 0
    ensures Reduced(b + Zeros(n), GENERATOR)
            == (if b[0] then XorBits(b[1..] + [false], TAIL) else b[1..] + [false]) + Zeros(n - 1)
  {
    var x := b + Zeros(n);
    assert x[..17] == b + [false] && x[17..] == Zeros(n - 1) && x[1..] == (b[1..] + [false]) + Zeros(n - 1);
    assert XorBits(b + [false], GENERATOR)[1..] == XorBits(b[1..] + [false], TAIL);
  }

  /** `n` steps of the register are `n` places of long division. */
  lemma {:induction false} BackNDivides(n: nat, c: bv16)
    ensures Remainder(BitsN(16, c) + Zeros(n), GENERATOR) == BitsN(16, BackN(n, c))
    decreases n
  {
    hide Back, BackN, BitsN, Remainder, Reduced, XorBits;
    BackNStep(0, c);
    if n == 0 {
      assert BitsN(16, c) + Zeros(0) == BitsN(16, c);
      RemainderShort(BitsN(16, c), GENERATOR);
    } else {
      RemainderReduced(BitsN(16, c) + Zeros(n), GENERATOR);
      StepDivides(BitsN(16, c), n);
      BackBits(c);
      BackNDivides(n - 1, Back(c));
      BackNSum(n - 1, 1, c);
      assert BackN(1, c) == Back(c);
    }
  }

  // ---- Streams of values ----

  /** The bits of the values, in order, each least significant first. */
  function StreamBits(values: seq<bv16>): seq<bool> {
    if values == [] then [] else StreamBits(values[..|values| - 1]) + BitsN(16, values[|values| - 1])
  }

  lemma {:induction false} ZeroBits(n: nat)
    ensures BitsN(n, 0) == Zeros(n)
    decreases n
  {
    ZeroDown();
    hide LowSet, Down;
    if n > 0 { ZeroBits(n - 1); }
  }

  /** The CRC of a stream of values, from 0, is the remainder of its bits followed by sixteen zeros. */
  lemma {:induction false} StreamIsRemainder(values: seq<bv16>)
    ensures BitsN(16, Fold16(0, values)) == Remainder(StreamBits(values) + Zeros(16), GENERATOR)
    decreases |values|
  {
    hide Remainder, BitsN, Xor, BackN, XorBits;
    if values == [] {
      ZeroBits(16);
      assert StreamBits(values) + Zeros(16) == Zeros(16);
      RemainderShort(Zeros(16), GENERATOR);
    } else {
      var before, last := values[..|values| - 1], values[|values| - 1];
      var c := Fold16(0, before);
      StreamIsRemainder(before);
      RemainderExtends(StreamBits(before), BitsN(16, last), GENERATOR);
      BitsXor(16, c, last);
      BackNDivides(16, Xor(c, last));
    }
  }

  /** A register that does not start from 0 is the same as one that does, on a first value that has its start
      added. */
  lemma {:induction false} StartIsFirst(crc: bv16, values: seq<bv16>)
    requires values != []
    ensures Fold16(crc, values) == Fold16(0, [Xor(crc, values[0])] + values[1..])
    decreases |values|
  {
    hide Xor, BackN;
    var other := [Xor(crc, values[0])] + values[1..];
    if |values| == 1 {
      assert values[..0] == [] && other[..0] == [];
      XorSelf(Xor(crc, values[0]));
    } else {
      var n := |values| - 1;
      StartIsFirst(crc, values[..n]);
      assert other[..n] == [Xor(crc, values[0])] + values[..n][1..];
    }
  }
}
