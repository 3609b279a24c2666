/**
 The CRC of verif/tests/custom/coremark/core_util.c: least significant bit first, with the feedback mask
 0xA001 that the program builds from 0x4002 before and 0x8000 after its shift.
 */
module CoremarkCrc {

  // ---- Words ----

  function Xor(a: bv16, b: bv16): bv16 { a ^ b }

  /** Division by x modulo the reflected generator. */
  function Back(c: bv16): bv16 {
    if c & 1 != 0 then (c >> 1) ^ 0xA001 else c >> 1
  }

  function Wide(d: bv8): bv16 { d as bv16 }

  lemma BackIs(c: bv16, r: bv16)
    requires r == (c >> 1) ^ ((c & 1) << 15) ^ ((c & 1) << 13) ^ (c & 1)
    ensures Back(c) == r
  {
    if c & 1 != 0 {
      assert c & 1 == 1;
    } else {
      assert c & 1 == 0;
    }
  }

  lemma BackXorExpr(a: bv16, b: bv16, r: bv16, s: bv16, t: bv16)
    requires r == (a >> 1) ^ ((a & 1) << 15) ^ ((a & 1) << 13) ^ (a & 1)
    requires s == (b >> 1) ^ ((b & 1) << 15) ^ ((b & 1) << 13) ^ (b & 1)
    requires t == r ^ s
    ensures t == ((a ^ b) >> 1) ^ (((a ^ b) & 1) << 15) ^ (((a ^ b) & 1) << 13) ^ ((a ^ b) & 1)
  {
  }

  lemma XorIs(a: bv16, b: bv16, r: bv16)
    requires r == a ^ b
    ensures Xor(a, b) == r
  {
  }

  lemma BackXorIs(a: bv16, b: bv16, r: bv16, s: bv16, ab: bv16, t: bv16)
    requires r == (a >> 1) ^ ((a & 1) << 15) ^ ((a & 1) << 13) ^ (a & 1)
    requires s == (b >> 1) ^ ((b & 1) << 15) ^ ((b & 1) << 13) ^ (b & 1)
    requires ab == a ^ b && t == r ^ s
    ensures Back(Xor(a, b)) == Xor(Back(a), Back(b))
  {
    hide *;
    BackIs(a, r);
    BackIs(b, s);
    BackXorExpr(a, b, r, s, t);
    BackIs(ab, t);
    XorIs(a, b, ab);
    XorIs(r, s, t);
  }

  /** The step is linear. */
  lemma BackXor(a: bv16, b: bv16)
    ensures Back(Xor(a, b)) == Xor(Back(a), Back(b))
  {
    hide *;
    var r := (a >> 1) ^ ((a & 1) << 15) ^ ((a & 1) << 13) ^ (a & 1);
    var s := (b >> 1) ^ ((b & 1) << 15) ^ ((b & 1) << 13) ^ (b & 1);
    BackXorIs(a, b, r, s, a ^ b, r ^ s);
  }

  lemma XorAssoc(a: bv16, b: bv16, c: bv16)
    ensures Xor(Xor(a, b), c) == Xor(a, Xor(b, c))
  {
  }

  lemma XorSelf(a: bv16)
    ensures Xor(a, a) == 0 && Xor(a, 0) == a && Xor(0, a) == a
  {
  }

  lemma XorZero(a: bv16, b: bv16)
    ensures Xor(a, b) == 0 <==> a == b
  {
    XorSelf(a);
    XorSelf(b);
    XorAssoc(a, b, b);
    hide Xor;
  }

  lemma XorComm(a: bv16, b: bv16)
    ensures Xor(a, b) == Xor(b, a)
  {
  }

  lemma XorCancel(a: bv16, b: bv16, c: bv16)
    ensures Xor(c, a) == Xor(c, b) <==> a == b
  {
    hide Xor;
    XorZero(Xor(c, a), Xor(c, b));
    XorZero(a, b);
    XorComm(c, a);
    XorAssoc(a, c, Xor(c, b));
    XorAssoc(c, c, b);
    XorSelf(c);
    XorSelf(b);
  }

  lemma BackZero(c: bv16)
    ensures Back(c) == 0 <==> c == 0
  {
    if c & 1 != 0 {
      assert ((c >> 1) ^ 0xA001) & 0x8000 == 0x8000;
    } else if c >> 1 == 0 {
      assert c == (c >> 1) << 1;
    }
  }

  lemma BackInjective(a: bv16, b: bv16)
    ensures Back(a) == Back(b) <==> a == b
  {
    hide *;
    BackXor(a, b);
    XorZero(Back(a), Back(b));
    XorZero(a, b);
    BackZero(Xor(a, b));
  }

  // ---- One turn of the loop ----

  function Feed(h: bv16): bv16 { h ^ 0xA001 }

  lemma FeedIs(crc: bv16, h: bv16, x: bv16)
    requires h == crc >> 1 && x == ((crc ^ 0x4002) >> 1) | 0x8000
    ensures x == Feed(h)
  {
  }

  lemma EnterBit(crc: bv16, b: bv16, c: bv16, h: bv16, l: bv16)
    requires b & 0xfffe == 0 && c == crc ^ b && h == crc >> 1 && l == (crc & 1) ^ b
    ensures c >> 1 == h && c & 1 == l
  {
  }

  lemma BackOne(c: bv16, h: bv16)
    requires c & 1 == 1 && h == c >> 1
    ensures Back(c) == Feed(h)
  {
  }

  lemma BackNone(c: bv16, h: bv16)
    requires c & 1 == 0 && h == c >> 1
    ensures Back(c) == h
  {
  }

  lemma NoTopBit(crc: bv16, h: bv16, x: bv16)
    requires h == crc >> 1 && x == (crc >> 1) & 0x7fff
    ensures x == h
  {
  }

  lemma TurnOne(crc: bv16, b: bv16, c: bv16, h: bv16, x: bv16)
    requires b & 0xfffe == 0 && c == crc ^ b && (crc & 1) ^ b == 1 && h == crc >> 1
    requires x == ((crc ^ 0x4002) >> 1) | 0x8000
    ensures Back(c) == x
  {
    hide *;
    assert c >> 1 == h && c & 1 == 1 by { EnterBit(crc, b, c, h, 1); }
    assert x == Feed(h) by { FeedIs(crc, h, x); }
    assert Back(c) == Feed(h) by { BackOne(c, h); }
  }

  lemma TurnNone(crc: bv16, b: bv16, c: bv16, h: bv16, x: bv16)
    requires b & 0xfffe == 0 && c == crc ^ b && (crc & 1) ^ b == 0 && h == crc >> 1
    requires x == (crc >> 1) & 0x7fff
    ensures Back(c) == x
  {
    hide *;
    assert c >> 1 == h && c & 1 == 0 by { EnterBit(crc, b, c, h, 0); }
    assert x == h by { NoTopBit(crc, h, x); }
    assert Back(c) == h by { BackNone(c, h); }
  }

  function LowBit(d: bv8): bv16 { (d & 1) as bv16 }

  lemma LowBitIs(d: bv8, b: bv16)
    requires b == LowBit(d)
    ensures b & 0xfffe == 0 && (b == 0 || b == 1) && (b == 1 <==> d & 1 == 1)
  {
  }

  /** The feedback bit, computed on bytes as the program does, and on words. */
  lemma FeedbackBit(d: bv8, crc: bv16, b: bv16, x16: bv8)
    requires b == LowBit(d) && x16 == (d & 1) ^ (if crc & 1 == 1 then 1 else 0)
    ensures x16 == 1 <==> (crc & 1) ^ b == 1
    ensures x16 != 1 <==> (crc & 1) ^ b == 0
  {
    if d & 1 == 1 {
      assert b == 1;
      if crc & 1 == 1 { assert (1 as bv16) ^ 1 == 0; } else { assert crc & 1 == 0; }
    } else {
      assert d & 1 == 0 && b == 0;
      if crc & 1 == 1 { assert (1 as bv16) ^ 0 == 1; } else { assert crc & 1 == 0; }
    }
  }

  /** The body of the loop of `crcu8`, after the feedback bit is known. */
  method ShiftIn(crc: bv16, x16: bv8) returns (r: bv16)
    ensures x16 == 1 ==> r == ((crc ^ 0x4002) >> 1) | 0x8000
    ensures x16 != 1 ==> r == (crc >> 1) & 0x7fff
  {
    r := crc;
    var carry: bool;
    if x16 == 1 {
      r := r ^ 0x4002;
      carry := true;
    } else {
      carry := false;
    }
    r := r >> 1;
    if carry {
      r := r | 0x8000;
    } else {
      r := r & 0x7fff;
    }
  }

  /** The body of the loop of `crcu8`. */
  method Turn(crc: bv16, data: bv8) returns (crc': bv16, data': bv8)
    ensures crc' == Back(Xor(crc, LowBit(data))) && data' == data >> 1
  {
    hide *;
    var x16: bv8 := (data & 1) ^ (if crc & 1 == 1 then 1 else 0);
    data' := data >> 1;
    crc' := ShiftIn(crc, x16);
    assert crc' == Back(Xor(crc, LowBit(data))) by { TurnEnds(crc, data, x16, crc'); }
  }

  lemma TurnEnds(crc: bv16, d: bv8, x16: bv8, x: bv16)
    requires x16 == (d & 1) ^ (if crc & 1 == 1 then 1 else 0)
    requires x16 == 1 ==> x == ((crc ^ 0x4002) >> 1) | 0x8000
    requires x16 != 1 ==> x == (crc >> 1) & 0x7fff
    ensures Back(Xor(crc, LowBit(d))) == x
  {
    hide *;
    TurnEndsOn(crc, d, x16, x, LowBit(d), crc ^ LowBit(d));
  }

  lemma TurnEndsOn(crc: bv16, d: bv8, x16: bv8, x: bv16, b: bv16, c: bv16)
    requires x16 == (d & 1) ^ (if crc & 1 == 1 then 1 else 0) && b == LowBit(d) && c == crc ^ b
    requires x16 == 1 ==> x == ((crc ^ 0x4002) >> 1) | 0x8000
    requires x16 != 1 ==> x == (crc >> 1) & 0x7fff
    ensures Back(Xor(crc, LowBit(d))) == x
  {
    hide *;
    LowBitIs(d, b);
    FeedbackBit(d, crc, b, x16);
    XorIs(crc, b, c);
    if x16 == 1 {
      TurnOne(crc, b, c, crc >> 1, x);
    } else {
      TurnNone(crc, b, c, crc >> 1, x);
    }
  }

  // ---- Eight turns ----

  function BackN(n: nat, c: bv16): bv16 {
    if n == 0 then c else Back(BackN(n - 1, c))
  }

  /** The bits of the byte not yet entered sit at the bottom. */
  lemma TurnAdvances(crc: bv16, d: bv8)
    ensures Back(Xor(crc, Wide(d))) == Xor(Back(Xor(crc, LowBit(d))), Wide(d >> 1))
  {
    hide *;
    WideParts(d);
    XorAssoc(crc, LowBit(d), Double(d >> 1));
    BackXor(Xor(crc, LowBit(d)), Double(d >> 1));
    BackDouble(d >> 1);
  }

  function Double(d: bv8): bv16 { (d as bv16) << 1 }

  lemma WideParts(d: bv8)
    ensures Wide(d) == Xor(LowBit(d), Double(d >> 1))
  {
  }

  lemma BackDouble(d: bv8)
    ensures Back(Double(d)) == Wide(d)
  {
    assert ((d as bv16) << 1) & 1 == 0;
  }

  /** The top `i` bits of a byte. */
  function HighMask(i: nat): bv8 {
    if i == 0 then 0 else (HighMask(i - 1) >> 1) | 0x80
  }

  lemma HighMaskStep(d: bv8, m: bv8)
    requires d & m == 0
    ensures (d >> 1) & ((m >> 1) | 0x80) == 0
  {
    calc {
      (d >> 1) & ((m >> 1) | 0x80);
      (d & m) >> 1;
    }
  }

  lemma HighMaskFull()
    ensures HighMask(8) == 0xff
  {
    assert HighMask(1) == 0x80;
    assert HighMask(2) == 0xc0;
    assert HighMask(3) == 0xe0;
    assert HighMask(4) == 0xf0;
    assert HighMask(5) == 0xf8;
    assert HighMask(6) == 0xfc;
    assert HighMask(7) == 0xfe;
  }

  method Crcu8(data: bv8, crc: bv16) returns (r: bv16)
    ensures r == BackN(8, Xor(crc, Wide(data)))
  {
    hide Xor, Wide, LowBit, Back, BackN, HighMask;
    r := crc;
    var d := data;
    BackNStep(0, Xor(crc, Wide(data)));
    MaskNone(d);
    for i := 0 to 8
      invariant BackN(i, Xor(crc, Wide(data))) == Xor(r, Wide(d))
      invariant d & HighMask(i) == 0
    {
      TurnAdvances(r, d);
      HighMaskStep(d, HighMask(i));
      MaskStep(i);
      BackNStep(i, Xor(crc, Wide(data)));
      r, d := Turn(r, d);
    }
    HighMaskFull();
    AllMasked(d);
    WideZero();
    XorSelf(r);
  }

  lemma BackNStep(n: nat, c: bv16)
    ensures BackN(n + 1, c) == Back(BackN(n, c)) && BackN(0, c) == c
  {
    hide Back;
  }

  lemma MaskStep(i: nat)
    ensures HighMask(i + 1) == (HighMask(i) >> 1) | 0x80
  {
  }

  lemma MaskNone(d: bv8)
    ensures d & HighMask(0) == 0
  {
  }

  lemma AllMasked(d: bv8)
    requires d & 0xff == 0
    ensures d == 0
  {
  }

  lemma WideZero()
    ensures Wide(0) == 0
  {
  }

  // ---- Sixteen bits ----

  function HighPart(d: bv8): bv16 { (d as bv16) << 8 }

  function LowByte(v: bv16): bv8 { (v & 0xff) as bv8 }

  function HighByte(v: bv16): bv8 { (v >> 8) as bv8 }

  lemma ValueParts(v: bv16)
    ensures v == Xor(Wide(LowByte(v)), HighPart(HighByte(v)))
  {
  }

  lemma BackEven(c: bv16, h: bv16)
    requires c & 1 == 0 && h == c >> 1
    ensures Back(c) == h
  {
  }

  lemma HighComesDown(d: bv8)
    ensures BackN(8, HighPart(d)) == Wide(d)
  {
    hide Back, BackN;
    var w := HighPart(d);
    BackNStep(0, w);
    BackEven(w, (d as bv16) << 7);
    BackNStep(1, w);
    BackEven((d as bv16) << 7, (d as bv16) << 6);
    BackNStep(2, w);
    BackEven((d as bv16) << 6, (d as bv16) << 5);
    BackNStep(3, w);
    BackEven((d as bv16) << 5, (d as bv16) << 4);
    BackNStep(4, w);
    BackEven((d as bv16) << 4, (d as bv16) << 3);
    BackNStep(5, w);
    BackEven((d as bv16) << 3, (d as bv16) << 2);
    BackNStep(6, w);
    BackEven((d as bv16) << 2, (d as bv16) << 1);
    BackNStep(7, w);
    BackEven((d as bv16) << 1, d as bv16);
  }

  lemma {:induction false} BackNXor(n: nat, a: bv16, b: bv16)
    ensures BackN(n, Xor(a, b)) == Xor(BackN(n, a), BackN(n, b))
    decreases n
  {
    hide Back, Xor;
    if n > 0 {
      BackNXor(n - 1, a, b);
      BackXor(BackN(n - 1, a), BackN(n - 1, b));
    }
  }

  lemma {:induction false} BackNSum(m: nat, n: nat, c: bv16)
    ensures BackN(m + n, c) == BackN(m, BackN(n, c))
    decreases m
  {
    hide Back;
    if m > 0 { BackNSum(m - 1, n, c); }
  }

  lemma {:induction false} BackNInjective(n: nat, a: bv16, b: bv16)
    ensures BackN(n, a) == BackN(n, b) <==> a == b
    decreases n
  {
    hide Back;
    if n > 0 {
      BackNInjective(n - 1, a, b);
      BackInjective(BackN(n - 1, a), BackN(n - 1, b));
    }
  }

  /** The CRC after one more 16-bit value. */
  function Step16(newval: bv16, crc: bv16): bv16 {
    BackN(16, Xor(crc, newval))
  }

  lemma TwoBytesAreStep16(v: bv16, crc: bv16)
    ensures BackN(8, Xor(BackN(8, Xor(crc, Wide(LowByte(v)))), Wide(HighByte(v)))) == Step16(v, crc)
  {
    hide Back, BackN, Xor, Wide, HighPart, LowByte, HighByte;
    var lo, hi := Wide(LowByte(v)), HighPart(HighByte(v));
    ValueParts(v);
    XorAssoc(crc, lo, hi);
    BackNSum(8, 8, Xor(crc, v));
    BackNXor(8, Xor(crc, lo), hi);
    HighComesDown(HighByte(v));
  }

  /** `crcu16`, and `crc16` on the value as unsigned. */
  method Crcu16(newval: bv16, crc: bv16) returns (r: bv16)
    ensures r == Step16(newval, crc)
  {
    hide *;
    r := Crcu8(LowByte(newval), crc);
    r := Crcu8(HighByte(newval), r);
    TwoBytesAreStep16(newval, crc);
  }

  /** For a fixed value the step is a bijection of the CRC, and for a fixed CRC of the value. */
  lemma Step16Injective(v: bv16, w: bv16, c: bv16, d: bv16)
    ensures Step16(v, c) == Step16(v, d) <==> c == d
    ensures Step16(v, c) == Step16(w, c) <==> v == w
  {
    hide BackN, Xor;
    BackNInjective(16, Xor(c, v), Xor(d, v));
    BackNInjective(16, Xor(c, v), Xor(c, w));
    XorComm(c, v);
    XorComm(d, v);
    XorCancel(c, d, v);
    XorCancel(v, w, c);
  }

  function Fold16(crc: bv16, values: seq<bv16>): bv16
    decreases |values|
  {
    if values == [] then crc else Step16(values[|values| - 1], Fold16(crc, values[..|values| - 1]))
  }

  lemma {:induction false} Fold16Injective(c: bv16, d: bv16, values: seq<bv16>)
    ensures Fold16(c, values) == Fold16(d, values) <==> c == d
    decreases |values|
  {
    hide Step16;
    if values != [] {
      var v, before := values[|values| - 1], values[..|values| - 1];
      Fold16Injective(c, d, before);
      Step16Injective(v, v, Fold16(c, before), Fold16(d, before));
    }
  }

  /** Two streams that differ in exactly one value always end in different CRCs. */
  lemma {:induction false} OneChangeIsSeen(crc: bv16, a: seq<bv16>, b: seq<bv16>, at: nat)
    requires |a| == |b| && at < |a| && a[at] != b[at]
    requires forall k :: 0 <= k < |a| && k != at ==> a[k] == b[k]
    ensures Fold16(crc, a) != Fold16(crc, b)
    decreases |a|
  {
    hide Step16;
    var last := |a| - 1;
    if at == last {
      assert a[..last] == b[..last];
      Step16Injective(a[last], b[last], Fold16(crc, a[..last]), Fold16(crc, b[..last]));
    } else {
      OneChangeIsSeen(crc, a[..last], b[..last], at);
      Step16Injective(a[last], b[last], Fold16(crc, a[..last]), Fold16(crc, b[..last]));
    }
  }
}
