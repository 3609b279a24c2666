/**
 Arithmetic of 16-bit remainders modulo x^16 + x^12 + x^5 + 1 (0x11021), on machine words.
 Facts about fixed expressions are stated with their parts named by parameters, and only then read as
 facts about `Shift`.
 */
module Crc16Word {

  /** Multiplication by x modulo the generator. */
  function Shift(c: bv16): bv16 {
    if c & 0x8000 != 0 then (c << 1) ^ 0x1021 else c << 1
  }

  function Top(b: bool): bv16 {
    if b then 0x8000 else 0
  }

  // ---- Shift as one expression ----

  lemma ShiftIs(c: bv16, r: bv16)
    requires r == (c << 1) ^ (c >> 15) ^ ((c >> 15) << 5) ^ ((c >> 15) << 12)
    ensures Shift(c) == r
  {
    if c & 0x8000 != 0 {
      assert c >> 15 == 1;
    } else {
      assert c >> 15 == 0;
    }
  }

  // ---- Exclusive or ----

  function Xor(a: bv16, b: bv16): bv16 { a ^ b }

  /** Division by x, dropping the constant term. */
  function Half(a: bv16): bv16 { a >> 1 }

  predicate LowClear(a: bv16) { a & 1 == 0 }

  lemma XorAssoc(a: bv16, b: bv16, c: bv16)
    ensures Xor(Xor(a, b), c) == Xor(a, Xor(b, c))
  {
  }

  lemma XorComm(a: bv16, b: bv16)
    ensures Xor(a, b) == Xor(b, a)
  {
  }

  lemma XorPairs(a: bv16, b: bv16, c: bv16, d: bv16)
    ensures Xor(Xor(a, b), Xor(c, d)) == Xor(Xor(a, c), Xor(b, d))
  {
    hide *;
    calc {
      Xor(Xor(a, b), Xor(c, d));
      { XorAssoc(a, b, Xor(c, d)); XorAssoc(b, c, d); }
      Xor(a, Xor(Xor(b, c), d));
      { XorComm(b, c); XorAssoc(c, b, d); }
      Xor(a, Xor(c, Xor(b, d)));
      { XorAssoc(a, c, Xor(b, d)); }
      Xor(Xor(a, c), Xor(b, d));
    }
  }

  lemma XorSelf(a: bv16)
    ensures Xor(a, a) == 0 && Xor(a, 0) == a && Xor(0, a) == a
  {
  }

  /** Words that differ have a nonzero difference. */
  lemma XorZero(a: bv16, b: bv16)
    ensures Xor(a, b) == 0 <==> a == b
  {
    XorSelf(a);
    XorSelf(b);
    XorAssoc(a, b, b);
    hide Xor;
  }

  lemma XorExpr(a: bv16, b: bv16, r: bv16, s: bv16, t: bv16)
    requires r == (a << 1) ^ (a >> 15) ^ ((a >> 15) << 5) ^ ((a >> 15) << 12)
    requires s == (b << 1) ^ (b >> 15) ^ ((b >> 15) << 5) ^ ((b >> 15) << 12)
    requires t == r ^ s
    ensures t == ((a ^ b) << 1) ^ ((a ^ b) >> 15) ^ (((a ^ b) >> 15) << 5) ^ (((a ^ b) >> 15) << 12)
  {
  }

  lemma XorIs(a: bv16, b: bv16, r: bv16)
    requires r == a ^ b
    ensures Xor(a, b) == r
  {
  }

  /** Shifting is linear. */
  lemma ShiftXor(a: bv16, b: bv16)
    ensures Shift(Xor(a, b)) == Xor(Shift(a), Shift(b))
  {
    hide *;
    var r := (a << 1) ^ (a >> 15) ^ ((a >> 15) << 5) ^ ((a >> 15) << 12);
    var s := (b << 1) ^ (b >> 15) ^ ((b >> 15) << 5) ^ ((b >> 15) << 12);
    ShiftXorIs(a, b, r, s, a ^ b, r ^ s);
  }

  lemma ShiftXorIs(a: bv16, b: bv16, r: bv16, s: bv16, ab: bv16, t: bv16)
    requires r == (a << 1) ^ (a >> 15) ^ ((a >> 15) << 5) ^ ((a >> 15) << 12)
    requires s == (b << 1) ^ (b >> 15) ^ ((b >> 15) << 5) ^ ((b >> 15) << 12)
    requires ab == a ^ b && t == r ^ s
    ensures Shift(Xor(a, b)) == Xor(Shift(a), Shift(b))
  {
    hide *;
    ShiftIs(a, r);
    ShiftIs(b, s);
    XorExpr(a, b, r, s, t);
    ShiftIs(ab, t);
    XorIs(a, b, ab);
    XorIs(r, s, t);
  }

  /** The generator has a constant term, so shifting loses nothing. */
  lemma ShiftZero(c: bv16)
    ensures Shift(c) == 0 <==> c == 0
  {
    if c & 0x8000 != 0 {
      assert ((c << 1) ^ 0x1021) & 1 == 1;
    } else if c << 1 == 0 {
      assert c == (c << 1) >> 1;
    }
  }

  lemma ShiftInjective(a: bv16, b: bv16)
    ensures Shift(a) == Shift(b) <==> a == b
  {
    hide *;
    ShiftXor(a, b);
    XorZero(Shift(a), Shift(b));
    XorZero(a, b);
    ShiftZero(Xor(a, b));
  }

  lemma HalfBits(y: bv16, h: bv16)
    requires y & 1 == 0 && h == y >> 1
    ensures h & 0x8000 == 0 && h << 1 == y
  {
  }

  lemma ShiftHalfIs(y: bv16, h: bv16)
    requires y & 1 == 0 && h == y >> 1
    ensures Shift(h) == y
  {
    HalfBits(y, h);
  }

  /** Bits below the top only move up. */
  lemma ShiftHalf(y: bv16)
    requires LowClear(y)
    ensures Shift(Half(y)) == y
  {
    hide Shift;
    ShiftHalfIs(y, Half(y));
  }

  lemma HalfXor(a: bv16, b: bv16)
    ensures Half(Xor(a, b)) == Xor(Half(a), Half(b))
  {
  }

  lemma TopXor(a: bool, b: bool)
    ensures Top(a != b) == Xor(Top(a), Top(b))
  {
    match (a, b) {
      case (true, true) =>
      case (true, false) =>
      case (false, true) =>
      case (false, false) =>
    }
  }

  /** The top bit and the halved rest do not meet. */
  lemma TopAndHalf(b: bool, y: bv16)
    requires LowClear(y)
    ensures Xor(Top(b), Half(y)) == 0 <==> !b && y == 0
  {
    if b {
      assert (0x8000 ^ (y >> 1)) & 0x8000 == 0x8000;
    } else if y >> 1 == 0 {
      assert y == (y >> 1) << 1;
    }
  }

  // ---- Eight shifts ----

  lemma TwoExpr(c: bv16, s: bv16, r: bv16)
    requires s == (c << 1) ^ (c >> 15) ^ ((c >> 15) << 5) ^ ((c >> 15) << 12)
    requires r == (c << 2) ^ (c >> 14) ^ ((c >> 14) << 5) ^ ((c >> 14) << 12)
    ensures r == (s << 1) ^ (s >> 15) ^ ((s >> 15) << 5) ^ ((s >> 15) << 12)
  {
  }

  lemma FourExpr(c: bv16, s: bv16, r: bv16)
    requires s == (c << 2) ^ (c >> 14) ^ ((c >> 14) << 5) ^ ((c >> 14) << 12)
    requires r == (c << 4) ^ (c >> 12) ^ ((c >> 12) << 5) ^ ((c >> 12) << 12)
    ensures r == (s << 2) ^ (s >> 14) ^ ((s >> 14) << 5) ^ ((s >> 14) << 12)
  {
  }

  lemma TwoIs(c: bv16, s: bv16, r: bv16)
    requires s == (c << 1) ^ (c >> 15) ^ ((c >> 15) << 5) ^ ((c >> 15) << 12)
    requires r == (c << 2) ^ (c >> 14) ^ ((c >> 14) << 5) ^ ((c >> 14) << 12)
    ensures Shift(Shift(c)) == r
  {
    hide *;
    TwoExpr(c, s, r);
    ShiftIs(c, s);
    ShiftIs(s, r);
  }

  lemma TwoShifts(c: bv16, r: bv16)
    requires r == (c << 2) ^ (c >> 14) ^ ((c >> 14) << 5) ^ ((c >> 14) << 12)
    ensures Shift(Shift(c)) == r
  {
    hide *;
    TwoIs(c, (c << 1) ^ (c >> 15) ^ ((c >> 15) << 5) ^ ((c >> 15) << 12), r);
  }

  lemma FourIs(c: bv16, s: bv16, r: bv16)
    requires s == (c << 2) ^ (c >> 14) ^ ((c >> 14) << 5) ^ ((c >> 14) << 12)
    requires r == (c << 4) ^ (c >> 12) ^ ((c >> 12) << 5) ^ ((c >> 12) << 12)
    ensures Shift(Shift(Shift(Shift(c)))) == r
  {
    hide *;
    FourExpr(c, s, r);
    TwoShifts(c, s);
    TwoShifts(s, r);
  }

  /** Within four shifts nothing that came back is fed back again. */
  lemma FourShifts(c: bv16, r: bv16)
    requires r == (c << 4) ^ (c >> 12) ^ ((c >> 12) << 5) ^ ((c >> 12) << 12)
    ensures Shift(Shift(Shift(Shift(c)))) == r
  {
    hide *;
    FourIs(c, (c << 2) ^ (c >> 14) ^ ((c >> 14) << 5) ^ ((c >> 14) << 12), r);
  }

  lemma EightExpr(c: bv16, s: bv16, u: bv16, r: bv16)
    requires s == (c << 4) ^ (c >> 12) ^ ((c >> 12) << 5) ^ ((c >> 12) << 12)
    requires u == (c >> 8) ^ (c >> 12) && r == (c << 8) ^ u ^ (u << 5) ^ (u << 12)
    ensures r == (s << 4) ^ (s >> 12) ^ ((s >> 12) << 5) ^ ((s >> 12) << 12)
  {
  }

  function EightShifts(c: bv16): bv16 {
    Shift(Shift(Shift(Shift(Shift(Shift(Shift(Shift(c))))))))
  }

  lemma EightIs(c: bv16, s: bv16, u: bv16, r: bv16)
    requires s == (c << 4) ^ (c >> 12) ^ ((c >> 12) << 5) ^ ((c >> 12) << 12)
    requires u == (c >> 8) ^ (c >> 12) && r == (c << 8) ^ u ^ (u << 5) ^ (u << 12)
    ensures EightShifts(c) == r
  {
    hide Shift;
    EightExpr(c, s, u, r);
    FourShifts(c, s);
    FourShifts(s, r);
  }

  function High(c: bv16): bv16 { c << 8 }

  function Spread(l: bv16, u: bv16): bv16 { l ^ u ^ (u << 5) ^ (u << 12) }

  lemma EightShiftsAre(c: bv16, u: bv16, r: bv16)
    requires u == (c >> 8) ^ (c >> 12) && r == (c << 8) ^ u ^ (u << 5) ^ (u << 12)
    ensures EightShifts(c) == r
  {
    hide *;
    EightIs(c, (c << 4) ^ (c >> 12) ^ ((c >> 12) << 5) ^ ((c >> 12) << 12), u, r);
  }

  lemma SpreadIs(l: bv16, u: bv16, r: bv16)
    requires r == l ^ u ^ (u << 5) ^ (u << 12)
    ensures Spread(l, u) == r
  {
  }

  lemma HighIs(c: bv16, l: bv16)
    requires l == c << 8
    ensures High(c) == l
  {
  }

  /** Eight shifts at once: the low byte moves up, the high byte is folded and spread. */
  lemma EightAtOnce(c: bv16, u: bv16)
    requires u == (c >> 8) ^ (c >> 12)
    ensures EightShifts(c) == Spread(High(c), u)
  {
    hide *;
    EightShiftsAre(c, u, (c << 8) ^ u ^ (u << 5) ^ (u << 12));
    HighIs(c, c << 8);
    SpreadIs(c << 8, u, (c << 8) ^ u ^ (u << 5) ^ (u << 12));
  }

  // ---- The byte step of the program, statement by statement ----

  function Swap(c: bv16): bv16 { (c >> 8) | (c << 8) }

  function Wide(d: bv8): bv16 { d as bv16 }

  function MixLow(c: bv16): bv16 { c ^ ((c >> 4) & 0xf) }

  function MixTop(c: bv16): bv16 { c ^ (c << 12) }

  function MixMiddle(c: bv16): bv16 { c ^ ((c & 0xff) << 5) }

  function ByteStep(prev: bv16, data: bv8): bv16 {
    MixMiddle(MixTop(MixLow(Xor(Swap(prev), Wide(data)))))
  }

  lemma SwapIs(c: bv16, r: bv16)
    requires r == (c >> 8) | (c << 8)
    ensures r == Swap(c)
  {
  }

  lemma WideIs(d: bv8, w: bv16)
    requires w == d as bv16
    ensures w == Wide(d) && w & 0xff00 == 0
  {
  }

  lemma MixLowIs(c: bv16, r: bv16)
    requires r == c ^ ((c >> 4) & 0xf)
    ensures r == MixLow(c)
  {
  }

  lemma MixTopIs(c: bv16, r: bv16)
    requires r == c ^ (c << 12)
    ensures r == MixTop(c)
  {
  }

  lemma MixMiddleIs(c: bv16, r: bv16)
    requires r == c ^ ((c & 0xff) << 5)
    ensures r == MixMiddle(c)
  {
  }

  method Crc16(prev: bv16, data: bv8) returns (crc: bv16)
    ensures crc == ByteStep(prev, data)
  {
    hide *;
    crc := prev;
    crc := (crc >> 8) | (crc << 8);
    assert crc == Swap(prev) by { SwapIs(prev, crc); }
    ghost var c := crc;
    crc := crc ^ (data as bv16);
    assert crc == Xor(c, Wide(data)) by { WideIs(data, data as bv16); XorIs(c, data as bv16, crc); }
    c := crc;
    crc := crc ^ ((crc >> 4) & 0xf);
    assert crc == MixLow(c) by { MixLowIs(c, crc); }
    c := crc;
    crc := crc ^ (crc << 12);
    assert crc == MixTop(c) by { MixTopIs(c, crc); }
    c := crc;
    crc := crc ^ ((crc & 0xff) << 5);
    assert crc == MixMiddle(c) by { MixMiddleIs(c, crc); }
    ByteStepIs(prev, data);
  }

  lemma ByteStepIs(c: bv16, d: bv8)
    ensures ByteStep(c, d) == MixMiddle(MixTop(MixLow(Xor(Swap(c), Wide(d)))))
  {
    hide MixMiddle, MixTop, MixLow, Swap, Wide, Xor;
  }

  // The old low byte moves up; the old high byte meets the new byte and is folded.

  function Meet(c: bv16, w: bv16): bv16 { (c >> 8) ^ w }

  function Fold(t: bv16): bv16 { t ^ (t >> 4) }

  predicate LowByte(t: bv16) { t & 0xff00 == 0 }

  predicate HighByte(l: bv16) { l & 0xff == 0 }

  lemma EnterBytes(c: bv16, w: bv16)
    requires LowByte(w)
    ensures LowByte(Meet(c, w)) && HighByte(High(c))
  {
  }

  lemma SwapParts(c: bv16)
    ensures Swap(c) == Xor(High(c), c >> 8)
  {
  }

  lemma MeetIs(c: bv16, w: bv16)
    ensures Meet(c, w) == Xor(c >> 8, w)
  {
  }

  lemma EnterParts(c: bv16, w: bv16)
    ensures Xor(Swap(c), w) == Xor(High(c), Meet(c, w))
  {
    hide *;
    SwapParts(c);
    XorAssoc(High(c), c >> 8, w);
    MeetIs(c, w);
  }

  lemma MixLowParts(l: bv16, t: bv16)
    requires HighByte(l) && LowByte(t)
    ensures MixLow(Xor(l, t)) == Xor(l, Fold(t)) && LowByte(Fold(t))
  {
  }

  lemma MixTopParts(l: bv16, u: bv16)
    requires HighByte(l) && LowByte(u)
    ensures MixMiddle(MixTop(Xor(l, u))) == Spread(l, u)
  {
  }

  lemma FoldIs(c: bv16, w: bv16, x: bv16)
    requires LowByte(w) && x == Xor(c, High(w))
    ensures High(x) == High(c) && Fold(Meet(c, w)) == (x >> 8) ^ (x >> 12)
  {
  }

  lemma ByteStepIsEightOf(c: bv16, d: bv8)
    ensures ByteStep(c, d) == EightShifts(Xor(c, High(Wide(d))))
  {
    hide *;
    var w := Wide(d);
    var x := Xor(c, High(w));
    var u := Fold(Meet(c, w));
    ByteStepIs(c, d);
    LowByteIs(d);
    EnterParts(c, w);
    EnterBytes(c, w);
    MixLowParts(High(c), Meet(c, w));
    MixTopParts(High(c), u);
    FoldIs(c, w, x);
    EightAtOnce(x, u);
  }

  lemma LowByteIs(d: bv8)
    ensures LowByte(Wide(d))
  {
  }

  function AtTop(d: bv8): bv16 { (d as bv16) << 8 }

  lemma AtTopIs(d: bv8)
    ensures AtTop(d) == High(Wide(d))
  {
  }

  /** The byte step adds the byte at the top and multiplies by x^8. */
  lemma ByteStepIsEightShifts(c: bv16, d: bv8)
    ensures ByteStep(c, d) == EightShifts(Xor(c, AtTop(d)))
  {
    hide *;
    ByteStepIsEightOf(c, d);
    AtTopIs(d);
  }

  // ---- Words whose low bits are clear ----

  /** The bits below the top `n`. */
  function Below(n: nat): bv16 {
    match n
    case 0 => 0xffff
    case 1 => 0x7fff
    case 2 => 0x3fff
    case 3 => 0x1fff
    case 4 => 0x0fff
    case 5 => 0x07ff
    case 6 => 0x03ff
    case 7 => 0x01ff
    case 8 => 0x00ff
    case 9 => 0x007f
    case 10 => 0x003f
    case 11 => 0x001f
    case 12 => 0x000f
    case 13 => 0x0007
    case 14 => 0x0003
    case 15 => 0x0001
    case _ => 0
  }

  function And(a: bv16, b: bv16): bv16 { a & b }

  predicate Clear(x: bv16, n: nat) { And(x, Below(n)) == 0 }

  lemma ZeroClear(n: nat)
    ensures Clear(0, n)
  {
    hide Below;
  }

  lemma HalfMask(n: nat)
    requires n < 16
    ensures Below(n + 1) == Half(Below(n))
  {
  }

  lemma HalfClearExpr(y: bv16, m: bv16, t: bv16)
    requires t & (m >> 1) == 0 && y & m == 0
    ensures (t ^ (y >> 1)) & (m >> 1) == 0
  {
    calc {
      (t ^ (y >> 1)) & (m >> 1);
      (t & (m >> 1)) ^ ((y & m) >> 1);
    }
  }

  lemma TopHalfClearIs(y: bv16, m: bv16, t: bv16, r: bv16)
    requires t == 0x8000 || t == 0
    requires y & m == 0 && r == (t ^ (y >> 1)) & (m >> 1)
    ensures r == 0
  {
    if t == 0 {
      assert (0 ^ (y >> 1)) & (m >> 1) == (y & m) >> 1;
    } else {
      assert 0x8000 & (m >> 1) == 0;
      HalfClearExpr(y, m, 0x8000);
    }
  }

  lemma AndHalfIs(t: bv16, y: bv16, m: bv16, r: bv16)
    requires r == (t ^ (y >> 1)) & (m >> 1)
    ensures And(Xor(t, Half(y)), Half(m)) == r
  {
  }

  lemma TopIs(b: bool)
    ensures Top(b) == 0x8000 || Top(b) == 0
  {
  }

  lemma AndIs(y: bv16, m: bv16)
    requires And(y, m) == 0
    ensures y & m == 0
  {
  }

  lemma AndTopHalf(b: bool, y: bv16, m: bv16)
    requires And(y, m) == 0
    ensures And(Xor(Top(b), Half(y)), Half(m)) == 0
  {
    hide *;
    TopIs(b);
    AndIs(y, m);
    TopHalfClearIs(y, m, Top(b), (Top(b) ^ (y >> 1)) & (m >> 1));
    AndHalfIs(Top(b), y, m, (Top(b) ^ (y >> 1)) & (m >> 1));
  }

  lemma TopHalfClear(b: bool, y: bv16, n: nat)
    requires n < 16 && Clear(y, n)
    ensures Clear(Xor(Top(b), Half(y)), n + 1)
  {
    HalfMask(n);
    hide And, Below, Xor, Top, Half;
    AndTopHalf(b, y, Below(n));
  }

  lemma ClearLow(x: bv16, n: nat)
    requires n < 16 && Clear(x, n)
    ensures LowClear(x)
  {
    assert Below(n) & 1 == 1;
    hide Below;
    AndIs(x, Below(n));
    LowOf(x, Below(n));
  }

  lemma LowOf(x: bv16, m: bv16)
    requires x & m == 0 && m & 1 == 1
    ensures x & 1 == 0
  {
    calc {
      x & 1;
      x & (m & 1);
      (x & m) & 1;
      0;
    }
  }

  // ---- The bits of a byte ----

  function Eight(b7: bool, b6: bool, b5: bool, b4: bool, b3: bool, b2: bool, b1: bool, b0: bool): bv16 {
    Xor(Top(b7), Half(Xor(Top(b6), Half(Xor(Top(b5), Half(Xor(Top(b4), Half(
    Xor(Top(b3), Half(Xor(Top(b2), Half(Xor(Top(b1), Half(Xor(Top(b0), Half(0))))))))))))))))
  }

  lemma ByteBits(d: bv8)
    ensures Eight(d & 0x80 != 0, d & 0x40 != 0, d & 0x20 != 0, d & 0x10 != 0, d & 0x08 != 0, d & 0x04 != 0, d & 0x02 != 0, d & 0x01 != 0) == AtTop(d)
  {
  }

  function EightHalves(c: bv16): bv16 {
    Half(Half(Half(Half(Half(Half(Half(Half(c))))))))
  }

  lemma HalvesOfTop(d: bv8)
    ensures EightHalves(AtTop(d)) == Wide(d)
  {
    hide Half;
    HalfIs(AtTop(d), (d as bv16) << 7);
    HalfIs((d as bv16) << 7, (d as bv16) << 6);
    HalfIs((d as bv16) << 6, (d as bv16) << 5);
    HalfIs((d as bv16) << 5, (d as bv16) << 4);
    HalfIs((d as bv16) << 4, (d as bv16) << 3);
    HalfIs((d as bv16) << 3, (d as bv16) << 2);
    HalfIs((d as bv16) << 2, (d as bv16) << 1);
    HalfIs((d as bv16) << 1, d as bv16);
  }

  lemma HalfIs(c: bv16, r: bv16)
    requires r == c >> 1
    ensures Half(c) == r
  {
  }

  lemma AtTopInjective(a: bv8, b: bv8)
    ensures AtTop(a) == AtTop(b) <==> a == b
  {
    HalvesOfTop(a);
    HalvesOfTop(b);
    hide AtTop, EightHalves;
  }

  /** The word of a high and a low byte. */
  function Word(hi: bv8, lo: bv8): bv16 { ((hi as bv16) << 8) | (lo as bv16) }

  lemma WordIs(hi: bv8, lo: bv8)
    ensures Word(hi, lo) == Xor(AtTop(hi), Wide(lo))
  {
  }
}
