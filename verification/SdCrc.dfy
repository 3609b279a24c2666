/**
 The block check of corev_apu/fpga/src/bootrom/src/sd.c: the CRC-16 of section 4.5 of the SD Physical
 Layer Simplified Specification, generator x^16 + x^12 + x^5 + 1 (0x11021), most significant bit first,
 starting from 0, and the copy loop that relies on it.
 */
module SdCrc {
  import opened Crc16Word
  import opened LongDivision

  type byte = bv8

  // ---- Bytes, as the program checks them ----

  function FoldBytes(c: bv16, data: seq<byte>): bv16
    decreases |data|
  {
    if data == [] then c else FoldBytes(ByteStep(c, data[0]), data[1..])
  }

  lemma {:induction false} FoldBytesAppend(c: bv16, a: seq<byte>, d: byte)
    ensures FoldBytes(c, a + [d]) == ByteStep(FoldBytes(c, a), d)
    decreases |a|
  {
    hide ByteStep;
    if a == [] {
      assert (a + [d])[1..] == [];
    } else {
      assert (a + [d])[1..] == a[1..] + [d];
      FoldBytesAppend(ByteStep(c, a[0]), a[1..], d);
    }
  }

  // ---- Bit-serial form ----

  /** One message bit enters at the top, and the word is multiplied by x. */
  function BitStep(c: bv16, b: bool): bv16 {
    Shift(Xor(c, Top(b)))
  }

  function FoldBits(c: bv16, bits: seq<bool>): bv16
    decreases |bits|
  {
    if bits == [] then c else FoldBits(BitStep(c, bits[0]), bits[1..])
  }

  /** The bits of a byte, most significant first. */
  function Bits(d: byte): (r: seq<bool>)
    ensures |r| == 8
  {
    Octet(d & 0x80 != 0, d & 0x40 != 0, d & 0x20 != 0, d & 0x10 != 0, d & 0x08 != 0, d & 0x04 != 0, d & 0x02 != 0, d & 0x01 != 0)
  }

  function Octet(b7: bool, b6: bool, b5: bool, b4: bool, b3: bool, b2: bool, b1: bool, b0: bool): (r: seq<bool>)
    ensures |r| == 8
  {
    [b7] + ([b6] + ([b5] + ([b4] + ([b3] + ([b2] + ([b1] + ([b0] + [])))))))
  }

  function AllBits(data: seq<byte>): (r: seq<bool>)
    ensures |r| == 8 * |data|
  {
    if data == [] then [] else Bits(data[0]) + AllBits(data[1..])
  }

  lemma {:induction false} FoldBitsAppend(c: bv16, a: seq<bool>, b: seq<bool>)
    ensures FoldBits(c, a + b) == FoldBits(FoldBits(c, a), b)
    decreases |a|
  {
    hide BitStep;
    if a == [] {
      assert a + b == b;
    } else {
      assert (a + b)[1..] == a[1..] + b;
      FoldBitsAppend(BitStep(c, a[0]), a[1..], b);
    }
  }

  // ---- Up to sixteen bits at once ----

  function ShiftN(n: nat, c: bv16): bv16 {
    if n == 0 then c else ShiftN(n - 1, Shift(c))
  }

  /** Bits as the top of a word. */
  function Pack(bits: seq<bool>): bv16
    decreases |bits|
  {
    if bits == [] then 0 else Xor(Top(bits[0]), Half(Pack(bits[1..])))
  }

  lemma {:induction false} PackClear(bits: seq<bool>)
    requires |bits| <= 16
    ensures Clear(Pack(bits), |bits|)
    decreases |bits|
  {
    hide Clear, Xor, Top, Half;
    if bits == [] {
      ZeroClear(0);
    } else {
      PackClear(bits[1..]);
      TopHalfClear(bits[0], Pack(bits[1..]), |bits| - 1);
    }
  }

  lemma PackLowClear(bits: seq<bool>)
    requires |bits| < 16
    ensures LowClear(Pack(bits))
  {
    hide Clear, Pack, LowClear;
    PackClear(bits);
    ClearLow(Pack(bits), |bits|);
  }

  /** Entering up to sixteen bits one by one, or adding them all at the top and then shifting. */
  lemma {:induction false} FoldIsShift(c: bv16, bits: seq<bool>)
    requires |bits| <= 16
    ensures FoldBits(c, bits) == ShiftN(|bits|, Xor(c, Pack(bits)))
    decreases |bits|
  {
    hide Xor, Top, Half, Shift, LowClear;
    if bits == [] {
      XorSelf(c);
    } else {
      var t, p := Top(bits[0]), Pack(bits[1..]);
      FoldIsShift(BitStep(c, bits[0]), bits[1..]);
      PackLowClear(bits[1..]);
      ShiftHalf(p);
      ShiftXor(Xor(c, t), Half(p));
      XorAssoc(c, t, Half(p));
    }
  }

  lemma {:induction false} PackZero(bits: seq<bool>)
    requires |bits| <= 16
    ensures Pack(bits) == 0 <==> forall k :: 0 <= k < |bits| ==> !bits[k]
    decreases |bits|
  {
    hide Xor, Top, Half, LowClear;
    if bits != [] {
      PackZero(bits[1..]);
      PackLowClear(bits[1..]);
      TopAndHalf(bits[0], Pack(bits[1..]));
      assert bits == [bits[0]] + bits[1..];
    }
  }

  lemma {:induction false} ShiftNInjective(n: nat, a: bv16, b: bv16)
    ensures ShiftN(n, a) == ShiftN(n, b) <==> a == b
    decreases n
  {
    hide Shift;
    if n > 0 {
      ShiftNInjective(n - 1, Shift(a), Shift(b));
      ShiftInjective(a, b);
    }
  }

  lemma {:induction false} ShiftNXor(n: nat, a: bv16, b: bv16)
    ensures ShiftN(n, Xor(a, b)) == Xor(ShiftN(n, a), ShiftN(n, b))
    decreases n
  {
    hide Shift, Xor;
    if n > 0 {
      ShiftXor(a, b);
      ShiftNXor(n - 1, Shift(a), Shift(b));
    }
  }

  lemma {:induction false} ShiftNCommutes(n: nat, a: bv16)
    ensures ShiftN(n, Shift(a)) == Shift(ShiftN(n, a))
    decreases n
  {
    hide Shift;
    if n > 0 { ShiftNCommutes(n - 1, Shift(a)); }
  }

  lemma ShiftNZero(n: nat)
    ensures ShiftN(n, 0) == 0
  {
    ShiftZero(0);
    hide Shift;
    if n > 0 { ShiftNZero(n - 1); }
  }

  // ---- Bytes ----

  /** A bit of a byte, halved into its place. */
  lemma PackByteIs(d: byte)
    ensures Pack(Bits(d)) == AtTop(d)
  {
    PackOctet(d & 0x80 != 0, d & 0x40 != 0, d & 0x20 != 0, d & 0x10 != 0, d & 0x08 != 0, d & 0x04 != 0, d & 0x02 != 0, d & 0x01 != 0);
    ByteBits(d);
    hide Pack, AtTop, Eight, Octet;
  }

  lemma PackCons(b: bool, rest: seq<bool>)
    ensures Pack([b] + rest) == Xor(Top(b), Half(Pack(rest)))
  {
    assert ([b] + rest)[1..] == rest;
  }

  lemma PackOctet(b7: bool, b6: bool, b5: bool, b4: bool, b3: bool, b2: bool, b1: bool, b0: bool)
    ensures Pack(Octet(b7, b6, b5, b4, b3, b2, b1, b0)) == Eight(b7, b6, b5, b4, b3, b2, b1, b0)
  {
    hide Xor, Top, Half, Pack;
    PackNil();
    PackCons(b0, []);
    PackCons(b1, [b0] + []);
    PackCons(b2, [b1] + ([b0] + []));
    PackCons(b3, [b2] + ([b1] + ([b0] + [])));
    PackCons(b4, [b3] + ([b2] + ([b1] + ([b0] + []))));
    PackCons(b5, [b4] + ([b3] + ([b2] + ([b1] + ([b0] + [])))));
    PackCons(b6, [b5] + ([b4] + ([b3] + ([b2] + ([b1] + ([b0] + []))))));
    PackCons(b7, [b6] + ([b5] + ([b4] + ([b3] + ([b2] + ([b1] + ([b0] + [])))))));
  }

  lemma PackNil()
    ensures Pack([]) == 0
  {
  }

  /** The byte step is eight steps of bit-serial division. */
  lemma ByteStepIsBitSerial(c: bv16, d: byte)
    ensures ByteStep(c, d) == FoldBits(c, Bits(d))
  {
    hide Shift, Xor, AtTop, ByteStep, Pack, FoldBits;
    ByteStepIsEightShifts(c, d);
    FoldIsShift(c, Bits(d));
    PackByteIs(d);
    EightIsShiftN(Xor(c, AtTop(d)));
  }

  lemma ShiftNUnfold(n: nat, c: bv16)
    ensures ShiftN(n + 1, c) == ShiftN(n, Shift(c)) && ShiftN(0, c) == c
  {
    hide Shift;
  }

  lemma EightIsShiftN(c: bv16)
    ensures EightShifts(c) == ShiftN(8, c)
  {
    hide Shift, ShiftN;
    var c1 := Shift(c);
    var c2 := Shift(c1);
    var c3 := Shift(c2);
    var c4 := Shift(c3);
    var c5 := Shift(c4);
    var c6 := Shift(c5);
    var c7 := Shift(c6);
    ShiftNUnfold(7, c);
    ShiftNUnfold(6, c1);
    ShiftNUnfold(5, c2);
    ShiftNUnfold(4, c3);
    ShiftNUnfold(3, c4);
    ShiftNUnfold(2, c5);
    ShiftNUnfold(1, c6);
    ShiftNUnfold(0, c7);
    ShiftNUnfold(0, Shift(c7));
  }

  lemma {:induction false} BytesAreBitSerial(c: bv16, data: seq<byte>)
    ensures FoldBytes(c, data) == FoldBits(c, AllBits(data))
    decreases |data|
  {
    hide ByteStep, BitStep, Bits;
    if data != [] {
      ByteStepIsBitSerial(c, data[0]);
      FoldBitsAppend(c, Bits(data[0]), AllBits(data[1..]));
      BytesAreBitSerial(ByteStep(c, data[0]), data[1..]);
    }
  }

  // ---- Sixteen bits: the check word ----

  function HalfN(n: nat, c: bv16): bv16 {
    if n == 0 then c else Half(HalfN(n - 1, c))
  }

  lemma {:induction false} HalfNXor(n: nat, a: bv16, b: bv16)
    ensures HalfN(n, Xor(a, b)) == Xor(HalfN(n, a), HalfN(n, b))
    decreases n
  {
    hide Half, Xor;
    if n > 0 {
      HalfNXor(n - 1, a, b);
      HalfXor(HalfN(n - 1, a), HalfN(n - 1, b));
    }
  }

  lemma {:induction false} PackAppend(a: seq<bool>, b: seq<bool>)
    ensures Pack(a + b) == Xor(Pack(a), HalfN(|a|, Pack(b)))
    decreases |a|
  {
    hide Half, Xor, Top;
    if a == [] {
      assert a + b == b;
      XorSelf(Pack(b));
    } else {
      assert (a + b)[1..] == a[1..] + b;
      PackAppend(a[1..], b);
      var p, q := Pack(a[1..]), HalfN(|a| - 1, Pack(b));
      HalfXor(p, q);
      XorAssoc(Top(a[0]), Half(p), Half(q));
    }
  }

  lemma HalfNUnfold(n: nat, c: bv16)
    ensures HalfN(n + 1, c) == Half(HalfN(n, c)) && HalfN(0, c) == c
  {
    hide Half;
  }

  lemma EightIsHalfN(c: bv16)
    ensures EightHalves(c) == HalfN(8, c)
  {
    hide Half, HalfN;
    HalfNUnfold(0, c);
    HalfNUnfold(1, c);
    HalfNUnfold(2, c);
    HalfNUnfold(3, c);
    HalfNUnfold(4, c);
    HalfNUnfold(5, c);
    HalfNUnfold(6, c);
    HalfNUnfold(7, c);
  }

  lemma PackWord(hi: byte, lo: byte)
    ensures Pack(Bits(hi) + Bits(lo)) == Word(hi, lo)
  {
    hide Pack, Bits, HalfN, Word, Xor, AtTop, Wide, EightHalves;
    PackAppend(Bits(hi), Bits(lo));
    PackByteIs(hi);
    PackByteIs(lo);
    EightIsHalfN(AtTop(lo));
    HalvesOfTop(lo);
    WordIs(hi, lo);
  }

  // ---- Linearity ----

  lemma BitStepXor(a: bv16, b: bv16, x: bool, y: bool)
    ensures BitStep(Xor(a, b), x != y) == Xor(BitStep(a, x), BitStep(b, y))
  {
    hide Shift, Xor, Top;
    TopXor(x, y);
    XorPairs(a, b, Top(x), Top(y));
    ShiftXor(Xor(a, Top(x)), Xor(b, Top(y)));
  }

  /** The check of a sum is the sum of the checks. */
  lemma {:induction false} FoldBitsXor(a: bv16, b: bv16, x: seq<bool>, y: seq<bool>)
    requires |x| == |y|
    ensures FoldBits(Xor(a, b), XorBits(x, y)) == Xor(FoldBits(a, x), FoldBits(b, y))
    decreases |x|
  {
    hide Xor, BitStep;
    if x == [] {
    } else {
      BitStepXor(a, b, x[0], y[0]);
      assert XorBits(x, y)[1..] == XorBits(x[1..], y[1..]);
      FoldBitsXor(BitStep(a, x[0]), BitStep(b, y[0]), x[1..], y[1..]);
    }
  }

  lemma ZeroStep(c: bv16)
    ensures BitStep(c, false) == Shift(c)
  {
    hide Shift, Xor;
    XorSelf(c);
  }

  lemma {:induction false} FoldZeros(c: bv16, bits: seq<bool>)
    requires forall k :: 0 <= k < |bits| ==> !bits[k]
    ensures FoldBits(c, bits) == ShiftN(|bits|, c)
    decreases |bits|
  {
    hide Shift, BitStep;
    if bits != [] {
      ZeroStep(c);
      FoldZeros(Shift(c), bits[1..]);
    }
  }

  // ---- Long division ----

  /** The generator, from x^16 down. */
  const GENERATOR: seq<bool> := [true] + (Bits(0x10) + Bits(0x21))

  lemma GeneratorVanishes()
    ensures FoldBits(0, GENERATOR) == 0
  {
    hide Shift, Xor, Top, Bits, Pack, ShiftN, Word;
    var tail := Bits(0x10) + Bits(0x21);
    assert GENERATOR[1..] == tail;
    XorSelf(Top(true));
    TopShifted();
    assert FoldBits(0, GENERATOR) == FoldBits(0x1021, tail);
    hide FoldBits;
    FoldIsShift(0x1021, tail);
    PackWord(0x10, 0x21);
    WordValue();
    XorSelf(0x1021);
    ShiftNZero(16);
  }

  lemma TopShifted()
    ensures Shift(Top(true)) == 0x1021
  {
    assert (0x8000 as bv16) << 1 == 0;
  }

  lemma WordValue()
    ensures Word(0x10, 0x21) == 0x1021
  {
  }

  /** Subtracting the generator does not change the check. */
  lemma SubtractKeeps(bits: seq<bool>)
    requires |bits| >= 17
    ensures FoldBits(0, Subtract(bits, GENERATOR)) == FoldBits(0, bits)
  {
    hide Shift, Xor, FoldBits, BitStep;
    var rest := Zeros(|bits| - 17);
    var multiple := GENERATOR + rest;
    assert Subtract(bits, GENERATOR) == XorBits(bits, multiple);
    FoldBitsXor(0, 0, bits, multiple);
    FoldBitsAppend(0, GENERATOR, rest);
    GeneratorVanishes();
    FoldZeros(0, rest);
    ShiftNZero(|rest|);
    XorSelf(0);
    XorSelf(FoldBits(0, bits));
  }

  lemma {:induction false} FoldIsRemainder(bits: seq<bool>)
    requires |bits| >= 16
    ensures FoldBits(0, bits) == ShiftN(16, Pack(Remainder(bits, GENERATOR)))
    decreases |bits|
  {
    hide Shift, Xor, BitStep, Subtract, Pack, ShiftN;
    if |bits| == 16 {
      FoldIsShift(0, bits);
      XorSelf(Pack(bits));
    } else if bits[0] {
      SubtractKeeps(bits);
      var next := Subtract(bits, GENERATOR);
      assert !next[0] by { LeadCancels(bits); }
      LeadingZero(next);
      FoldIsRemainder(next[1..]);
    } else {
      LeadingZero(bits);
      FoldIsRemainder(bits[1..]);
    }
  }

  lemma LeadCancels(bits: seq<bool>)
    requires |bits| >= 17 && bits[0]
    ensures !Subtract(bits, GENERATOR)[0]
  {
  }

  lemma LeadingZero(bits: seq<bool>)
    requires |bits| > 0 && !bits[0]
    ensures FoldBits(0, bits) == FoldBits(0, bits[1..])
  {
    hide Shift;
    ZeroStep(0);
    ShiftZero(0);
    hide BitStep;
  }

  /** The check of a block is the remainder of its bits, followed by sixteen zeros, modulo 0x11021. */
  lemma CheckIsRemainder(data: seq<byte>)
    ensures FoldBytes(0, data) == Pack(Remainder(AllBits(data) + Zeros(16), GENERATOR))
  {
    hide Shift, BitStep, FoldBits, Remainder, Pack, ShiftN, FoldBytes;
    var bits := AllBits(data);
    BytesAreBitSerial(0, data);
    FoldIsRemainder(bits + Zeros(16));
    FoldBitsAppend(0, bits, Zeros(16));
    FoldZeros(FoldBits(0, bits), Zeros(16));
    ShiftNInjective(16, FoldBits(0, bits), Pack(Remainder(bits + Zeros(16), GENERATOR)));
  }

  // ---- What the check detects ----

  /** The comparison of `sd_copy`: the check of the data against the two bytes that follow it. */
  predicate Accepts(data: seq<byte>, hi: byte, lo: byte) {
    FoldBytes(0, data) == Word(hi, lo)
  }

  /** A block is accepted if and only if the check of the whole block, its check word included, is 0. */
  lemma AcceptsIffNoResidue(data: seq<byte>, hi: byte, lo: byte)
    ensures Accepts(data, hi, lo) <==> FoldBits(0, AllBits(data + [hi, lo])) == 0
  {
    hide Shift, BitStep, FoldBits, Pack, ShiftN, FoldBytes, Xor, Bits, Word;
    var c := FoldBytes(0, data);
    BytesAreBitSerial(0, data);
    AllBitsAppend(data, [hi, lo]);
    TwoBytes(hi, lo);
    hide AllBits;
    FoldBitsAppend(0, AllBits(data), Bits(hi) + Bits(lo));
    FoldIsShift(c, Bits(hi) + Bits(lo));
    PackWord(hi, lo);
    ShiftNZero(16);
    ShiftNInjective(16, Xor(c, Word(hi, lo)), 0);
    XorZero(c, Word(hi, lo));
  }

  lemma TwoBytes(hi: byte, lo: byte)
    ensures AllBits([hi, lo]) == Bits(hi) + Bits(lo)
  {
    hide Bits;
    assert [hi, lo][1..] == [lo] && [lo][1..] == [];
    assert AllBits([lo]) == Bits(lo) + AllBits([]);
  }

  lemma {:induction false} AllBitsAppend(a: seq<byte>, b: seq<byte>)
    ensures AllBits(a + b) == AllBits(a) + AllBits(b)
    decreases |a|
  {
    hide Bits;
    if a == [] {
      assert a + b == b;
    } else {
      assert (a + b)[1..] == a[1..] + b;
      AllBitsAppend(a[1..], b);
    }
  }

  lemma {:induction false} AllBitsInjective(a: seq<byte>, b: seq<byte>)
    requires |a| == |b| && AllBits(a) == AllBits(b)
    ensures a == b
    decreases |a|
  {
    if a != [] {
      hide Bits, Pack, AtTop;
      assert AllBits(a)[..8] == Bits(a[0]) && AllBits(b)[..8] == Bits(b[0]);
      assert AllBits(a)[8..] == AllBits(a[1..]) && AllBits(b)[8..] == AllBits(b[1..]);
      AllBitsInjective(a[1..], b[1..]);
      PackByteIs(a[0]);
      PackByteIs(b[0]);
      AtTopInjective(a[0], b[0]);
      assert a == [a[0]] + a[1..] && b == [b[0]] + b[1..];
    }
  }

  /** A nonzero pattern of at most sixteen bits in a row never has check 0. */
  lemma BurstHasResidue(error: seq<bool>, at: nat)
    requires at + 16 <= |error|
    requires forall k :: 0 <= k < |error| && !(at <= k < at + 16) ==> !error[k]
    requires exists k :: 0 <= k < |error| && error[k]
    ensures FoldBits(0, error) != 0
  {
    hide Shift, BitStep, FoldBits, Pack, ShiftN, Xor;
    var before, burst, after := error[..at], error[at..at + 16], error[at + 16..];
    assert error == before + (burst + after);
    FoldBitsAppend(0, before, burst + after);
    FoldZeros(0, before);
    ShiftNZero(at);
    FoldBitsAppend(0, burst, after);
    var c := FoldBits(0, burst);
    FoldZeros(c, after);
    FoldIsShift(0, burst);
    XorSelf(Pack(burst));
    PackZero(burst);
    var k :| 0 <= k < |error| && error[k];
    assert burst[k - at];
    ShiftNZero(16);
    ShiftNInjective(16, Pack(burst), 0);
    ShiftNZero(|after|);
    ShiftNInjective(|after|, c, 0);
  }

  /** Two accepted blocks of the same length never differ within sixteen consecutive bits only: if the
      sent block is accepted, any such corruption of data or check word is not. */
  lemma BurstsAreDetected(sent: seq<byte>, hi: byte, lo: byte, got: seq<byte>, hi': byte, lo': byte, at: nat)
    requires |got| == |sent| && at + 16 <= 8 * (|sent| + 2)
    requires var x, y := AllBits(sent + [hi, lo]), AllBits(got + [hi', lo']);
             forall k :: 0 <= k < |x| && !(at <= k < at + 16) ==> x[k] == y[k]
    requires sent + [hi, lo] != got + [hi', lo']
    requires Accepts(sent, hi, lo)
    ensures !Accepts(got, hi', lo')
  {
    hide Shift, BitStep, FoldBits, Xor, AllBits, Accepts;
    var x, y := AllBits(sent + [hi, lo]), AllBits(got + [hi', lo']);
    AcceptsIffNoResidue(sent, hi, lo);
    AcceptsIffNoResidue(got, hi', lo');
    if x == y {
      AllBitsInjective(sent + [hi, lo], got + [hi', lo']);
      assert false;
    }
    var k :| 0 <= k < |x| && x[k] != y[k];
    assert XorBits(x, y)[k];
    BurstHasResidue(XorBits(x, y), at);
    FoldBitsXor(0, 0, x, y);
    XorSelf(0);
    XorSelf(FoldBits(0, y));
  }

  // ---- The copy loop ----

  const BLOCK := 512
  const TRANSFER := 64

  const SD_COPY_ERROR_CMD18 := -1
  const SD_COPY_ERROR_CMD18_CRC := -2

  /** What the card sends after the data token: the data and the check word, high byte first. */
  datatype Frame = Frame(data: seq<byte>, hi: byte, lo: byte)

  predicate FrameOk(f: Frame) { Accepts(f.data, f.hi, f.lo) }

  /** At least one block is read, even if none is asked for. */
  function Wanted(size: nat): nat { if size == 0 then 1 else size }

  /** How many blocks are copied: up to the first that fails, which is copied too. */
  function Copied(frames: seq<Frame>, wanted: nat): (r: nat)
    requires 1 <= wanted <= |frames|
    ensures 1 <= r <= wanted
    ensures forall k :: 0 <= k < r - 1 ==> FrameOk(frames[k])
    ensures r < wanted ==> !FrameOk(frames[r - 1])
    decreases wanted
  {
    if wanted == 1 || !FrameOk(frames[0]) then 1 else 1 + Copied(frames[1..], wanted - 1)
  }

  lemma {:induction false} CopiedAt(frames: seq<Frame>, wanted: nat, m: nat)
    requires 1 <= m <= wanted <= |frames|
    requires forall k :: 0 <= k < m - 1 ==> FrameOk(frames[k])
    requires m == wanted || !FrameOk(frames[m - 1])
    ensures Copied(frames, wanted) == m
    decreases wanted
  {
    hide FrameOk;
    if m > 1 {
      assert FrameOk(frames[0]);
      CopiedAt(frames[1..], wanted - 1, m - 1);
    }
  }

  function DataOf(frames: seq<Frame>): seq<byte> {
    if frames == [] then [] else DataOf(frames[..|frames| - 1]) + frames[|frames| - 1].data
  }

  lemma {:induction false} DataLength(frames: seq<Frame>)
    requires forall k :: 0 <= k < |frames| ==> |frames[k].data| == BLOCK
    ensures |DataOf(frames)| == BLOCK * |frames|
    decreases |frames|
  {
    if frames != [] { DataLength(frames[..|frames| - 1]); }
  }

  /** Feeds the transfer that was just stored at `p` to the check word. */
  method CheckTransfer(crc0: bv16, dst: array<byte>, p: nat, ghost data: seq<byte>, ghost done: nat) returns (crc: bv16)
    requires p + TRANSFER <= dst.Length && done + TRANSFER <= |data|
    requires dst[p..p + TRANSFER] == data[done..done + TRANSFER]
    requires crc0 == FoldBytes(0, data[..done])
    ensures crc == FoldBytes(0, data[..done + TRANSFER])
  {
    hide ByteStep, FoldBytes;
    crc := crc0;
    for i := 0 to TRANSFER
      invariant crc == FoldBytes(0, data[..done + i])
    {
      FoldBytesAppend(0, data[..done + i], data[done + i]);
      assert data[..done + i] + [data[done + i]] == data[..done + i + 1];
      assert dst[p + i] == dst[p..p + TRANSFER][i] == data[done..done + TRANSFER][i];
      crc := Crc16(crc, dst[p + i]);
    }
  }

  /** One transfer of 64 bytes from the card. */
  method StoreTransfer(dst: array<byte>, p: nat, data: seq<byte>, done: nat)
    requires p + TRANSFER <= dst.Length && done + TRANSFER <= |data|
    modifies dst
    ensures dst[p..p + TRANSFER] == data[done..done + TRANSFER]
    ensures dst[..p] == old(dst[..p]) && dst[p + TRANSFER..] == old(dst[p + TRANSFER..])
  {
    forall i | p <= i < p + TRANSFER {
      dst[i] := data[done + (i - p)];
    }
  }

  /** Reads one block in transfers of 64 bytes, checking as it goes. */
  method CopyBlock(dst: array<byte>, at: nat, f: Frame) returns (crc: bv16)
    requires |f.data| == BLOCK && at + BLOCK <= dst.Length
    modifies dst
    ensures crc == FoldBytes(0, f.data)
    ensures dst[..at] == old(dst[..at]) && dst[at..at + BLOCK] == f.data && dst[at + BLOCK..] == old(dst[at + BLOCK..])
  {
    hide ByteStep, FoldBytes;
    crc := 0;
    FoldNothing();
    var n := BLOCK;
    var p := at;
    ghost var end := at + BLOCK;
    while n > 0
      invariant 0 <= n <= BLOCK && n % TRANSFER == 0 && p == at + BLOCK - n
      invariant crc == FoldBytes(0, f.data[..BLOCK - n])
      invariant dst[..at] == old(dst[..at]) && dst[end..] == old(dst[end..])
      invariant dst[at..p] == f.data[..BLOCK - n]
    {
      ghost var done := BLOCK - n;
      ghost var before := dst[..];
      StoreTransfer(dst, p, f.data, BLOCK - n);
      Stored(before, dst[..], at, p, end, f.data, done);
      crc := CheckTransfer(crc, dst, p, f.data, done);
      p := p + TRANSFER;
      n := n - TRANSFER;
    }
    assert f.data[..BLOCK] == f.data;
  }

  lemma Stored(before: seq<byte>, after: seq<byte>, at: nat, p: nat, end: nat, data: seq<byte>, done: nat)
    requires at <= p && p + TRANSFER <= end <= |before| == |after| && done + TRANSFER <= |data|
    requires before[at..p] == data[..done] && after[p..p + TRANSFER] == data[done..done + TRANSFER]
    requires after[..p] == before[..p] && after[p + TRANSFER..] == before[p + TRANSFER..]
    ensures after[at..p + TRANSFER] == data[..done + TRANSFER]
    ensures after[..at] == before[..at] && after[end..] == before[end..]
  {
    assert after[..at] == after[..p][..at] && before[..at] == before[..p][..at];
    assert after[at..p] == after[..p][at..] && before[at..p] == before[..p][at..];
    assert after[at..p + TRANSFER] == after[at..p] + after[p..p + TRANSFER];
    assert data[..done + TRANSFER] == data[..done] + data[done..done + TRANSFER];
    assert after[end..] == after[p + TRANSFER..][end - p - TRANSFER..];
    assert before[end..] == before[p + TRANSFER..][end - p - TRANSFER..];
  }

  lemma FoldNothing()
    ensures FoldBytes(0, []) == 0
  {
  }

  /** One turn of the block loop, after which `m + 1` blocks have been copied over `original`. */
  method CopyFrame(dst: array<byte>, frames: seq<Frame>, m: nat, ghost original: seq<byte>) returns (ok: bool)
    requires forall k :: 0 <= k < |frames| ==> |frames[k].data| == BLOCK
    requires m < |frames| && BLOCK * (m + 1) <= dst.Length == |original|
    requires |DataOf(frames[..m])| == BLOCK * m && dst[..] == DataOf(frames[..m]) + original[BLOCK * m..]
    modifies dst
    ensures ok == FrameOk(frames[m])
    ensures |DataOf(frames[..m + 1])| == BLOCK * (m + 1)
    ensures dst[..] == DataOf(frames[..m + 1]) + original[BLOCK * (m + 1)..]
  {
    hide FoldBytes, Word;
    var f := frames[m];
    assert frames[..m + 1][..m] == frames[..m];
    ghost var before := dst[..];
    var crc := CopyBlock(dst, BLOCK * m, f);
    ok := crc == Word(f.hi, f.lo);
    assert dst[..BLOCK * m] == before[..BLOCK * m] == DataOf(frames[..m]);
    assert dst[BLOCK * m + BLOCK..] == before[BLOCK * m + BLOCK..] == original[BLOCK * (m + 1)..];
    assert dst[..] == dst[..BLOCK * m] + dst[BLOCK * m..BLOCK * m + BLOCK] + dst[BLOCK * m + BLOCK..];
  }

  /** The block loop of `sd_copy`; `accepted` is the card's answer to the read command. */
  method SdCopy(dst: array<byte>, frames: seq<Frame>, size: nat, accepted: bool) returns (rc: int)
    requires forall k :: 0 <= k < |frames| ==> |frames[k].data| == BLOCK
    requires Wanted(size) <= |frames| && BLOCK * Wanted(size) <= dst.Length
    modifies dst
    ensures !accepted ==> rc == SD_COPY_ERROR_CMD18 && dst[..] == old(dst[..])
    ensures accepted ==> (rc == 0 <==> forall k :: 0 <= k < Wanted(size) ==> FrameOk(frames[k]))
    ensures accepted ==> rc == 0 || rc == SD_COPY_ERROR_CMD18_CRC
    ensures accepted ==>
              var copied := DataOf(frames[..Copied(frames, Wanted(size))]);
              |copied| <= dst.Length && dst[..] == copied + old(dst[..])[|copied|..]
  {
    hide FrameOk, DataOf, Copied;
    if !accepted {
      return SD_COPY_ERROR_CMD18;
    }
    ghost var original := dst[..];
    rc := 0;
    var i: int := size;
    var m := 0;
    DataLength(frames[..0]);
    while true
      invariant rc == 0 && i == size - m && (m == 0 || i > 0)
      invariant forall k :: 0 <= k < m ==> FrameOk(frames[k])
      invariant |DataOf(frames[..m])| == BLOCK * m && dst[..] == DataOf(frames[..m]) + original[BLOCK * m..]
      decreases Wanted(size) - m
    {
      var ok := CopyFrame(dst, frames, m, original);
      m := m + 1;
      if !ok {
        rc := SD_COPY_ERROR_CMD18_CRC;
        break;
      }
      i := i - 1;
      if !(i > 0) {
        break;
      }
    }
    CopiedAt(frames, Wanted(size), m);
  }
}
