/**
 The packet decoder of corev_apu/instr_tracing/Decapsuler/Decapsuler.cpp, which reads the header of a
 40-byte packet forward and its payload backward.
 */
module Decapsulator {
  import opened Powers
  import opened Prelude

  type byte = bv8

  const PACKET_SIZE := 40
  const SIZE_T := 0x1_0000_0000_0000_0000
  const DEAD := 0xdead

  // ---- Bits and their values ----

  function BitAt(packet: seq<byte>, g: nat): bool
    requires g < 8 * |packet|
  {
    (packet[g / 8] >> (7 - g % 8)) & 1 == 1
  }

  function Bits(packet: seq<byte>): (r: seq<bool>)
    ensures |r| == 8 * |packet|
  {
    seq(8 * |packet|, g requires 0 <= g < 8 * |packet| => BitAt(packet, g))
  }

  /** The number that bits stand for, most significant first. */
  function Value(b: seq<bool>): (r: nat)
    ensures r < Pow2(|b|)
  {
    if b == [] then 0 else 2 * Value(b[..|b| - 1]) + if b[|b| - 1] then 1 else 0
  }

  /** The lower `n` bits of a number. */
  function ToBits(v: nat, n: nat): (r: seq<bool>)
    ensures |r| == n
  {
    if n == 0 then [] else ToBits(v / 2, n - 1) + [v % 2 == 1]
  }

  lemma {:induction false} BitsOfValue(b: seq<bool>)
    ensures ToBits(Value(b), |b|) == b
    decreases |b|
  {
    if b != [] {
      BitsOfValue(b[..|b| - 1]);
    }
  }

  lemma {:induction false} ValueOfBits(v: nat, n: nat)
    requires v < Pow2(n)
    ensures Value(ToBits(v, n)) == v
    decreases n
  {
    if n > 0 {
      ValueOfBits(v / 2, n - 1);
      assert ToBits(v, n)[..n - 1] == ToBits(v / 2, n - 1);
    }
  }

  lemma LastBit(a: seq<bool>, bit: bool)
    ensures Value(a + [bit]) == 2 * Value(a) + if bit then 1 else 0
  {
    assert (a + [bit])[..|a|] == a;
  }

  /** Reading in two parts is reading at once. */
  lemma {:induction false} ValueConcat(a: seq<bool>, b: seq<bool>)
    ensures Value(a + b) == Value(a) * Pow2(|b|) + Value(b)
    decreases |b|
  {
    hide *;
    if b == [] {
      assert a + b == a;
      Pow2Next(0);
      NoValue();
    } else {
      var c, last := b[..|b| - 1], b[|b| - 1];
      assert a + b == (a + c) + [last] && b == c + [last];
      ValueConcat(a, c);
      LastBit(a + c, last);
      LastBit(c, last);
      Pow2Next(|c|);
      Doubled(Value(a), Pow2(|c|));
    }
  }

  lemma NoValue()
    ensures Value([]) == 0
  {
  }

  // ---- Reading bits ----

  /** At most 64 bits at once; more give a marker.  A shorter read must lie within the packet. */
  method ExtractBits(packet: seq<byte>, offset: nat, length: nat) returns (result: nat)
    requires length <= 64 ==> offset + length <= 8 * |packet|
    ensures length <= 64 ==> result == Value(Bits(packet)[offset..offset + length])
    ensures length > 64 ==> result == DEAD
  {
    hide BitAt, Value;
    result := DEAD;
    if length <= 64 {
      result := 0;
      ghost var bits := Bits(packet);
      NoValue();
      assert bits[offset..offset] == [];
      for i := 0 to length
        invariant result == Value(bits[offset..offset + i])
      {
        var g := offset + i;
        assert bits[offset..g + 1] == bits[offset..g] + [bits[g]];
        LastBit(bits[offset..g], bits[g]);
        result := 2 * result + if BitAt(packet, g) then 1 else 0;
      }
    }
  }

  class BitExtractor {
    const packet: seq<byte>
    const backward: bool
    var i: nat

    constructor (packet: seq<byte>, backward: bool)
      requires |packet| == PACKET_SIZE
      ensures this.packet == packet && this.backward == backward && i == if backward then 8 * PACKET_SIZE else 0
    {
      this.packet, this.backward := packet, backward;
      i := if backward then PACKET_SIZE * 8 else 0;
    }

    /** The cursor is a `size_t` and wraps round. */
    method Extract(bits: nat) returns (result: nat)
      requires |packet| == PACKET_SIZE && i <= 8 * PACKET_SIZE && bits < SIZE_T
      requires bits <= 64 ==> if backward then bits <= i else i + bits <= 8 * PACKET_SIZE
      modifies this
      ensures i == (if backward then old(i) - bits else old(i) + bits) % SIZE_T
      ensures bits <= 64 ==>
                result == Value(if backward then Bits(packet)[old(i) - bits..old(i)] else Bits(packet)[old(i)..old(i) + bits])
      ensures bits > 64 ==> result == DEAD
    {
      hide Value, Bits;
      if backward {
        i := (i - bits) % SIZE_T;
      }
      result := ExtractBits(packet, i, bits);
      if !backward {
        i := (i + bits) % SIZE_T;
      }
    }

    /** Reads backward down to a bit; below it, the length wraps round to a large one. */
    method ExtractTo(bit: nat) returns (result: nat)
      requires |packet| == PACKET_SIZE && i <= 8 * PACKET_SIZE && backward && bit <= 8 * PACKET_SIZE
      modifies this
      ensures i == bit
      ensures bit <= old(i) <= bit + 64 ==> result == Value(Bits(packet)[bit..old(i)])
      ensures !(bit <= old(i) <= bit + 64) ==> result == DEAD
    {
      hide Value, Bits;
      result := Extract((i - bit) % SIZE_T);
    }
  }

  // ---- The layouts ----

  datatype Field =
    | Format | Subformat | Branch | Privilege | Time | Ecause | Interrupt | Thaddr | Tval | Ienable | EncoderMode
    | QualStatus | Ioptions | Notify | Updiscon | Irreport | Irdepth | Branches | BranchMap

  type Layout = seq<(Field, nat)>

  function Width(l: Layout): nat {
    if l == [] then 0 else Width(l[..|l| - 1]) + l[|l| - 1].1
  }

  const MAP_SIZES := {1, 3, 7, 15, 31}

  /** The branch map is the smallest of five that has room for `branches` branches; 0 means a full map. */
  function MapSize(branches: nat): (r: nat)
    ensures r in MAP_SIZES
    ensures 0 < branches <= 31 ==> r >= branches && forall m :: m in MAP_SIZES && m >= branches ==> r <= m
    ensures branches == 0 ==> r == 31
  {
    if branches == 0 then 31
    else if branches == 1 then 1
    else if branches <= 3 then 3
    else if branches <= 7 then 7
    else if branches <= 15 then 15
    else 31
  }

  function IfTime(timeFlag: bool): Layout { if timeFlag then [(Time, 64)] else [] }

  function IfCall(callFlag: bool): Layout { if callFlag then [(Irdepth, 1)] else [] }

  const NOTICES: Layout := [(Notify, 1), (Updiscon, 1), (Irreport, 1)]

  const TRAP: Layout := [(Ecause, 32), (Interrupt, 1), (Thaddr, 1), (Tval, 32)]

  /** After the subformat. */
  function Format3(subformat: nat, timeFlag: bool): Layout {
    if subformat == 0 then [(Branch, 1), (Privilege, 2)] + IfTime(timeFlag)
    else if subformat == 1 then
      [(Branch, 1), (Privilege, 2)] + IfTime(timeFlag) + TRAP
    else if subformat == 2 then [(Privilege, 2)] + IfTime(timeFlag)
    else [(Ienable, 1), (EncoderMode, 1), (QualStatus, 2), (Ioptions, 7)]
  }

  function Updates(callFlag: bool): Layout { NOTICES + IfCall(callFlag) }

  /** The fields of a payload in the order in which they are read, from its end. */
  function LayoutOf(format: nat, subformat: nat, branches: nat, timeFlag: bool, callFlag: bool): Layout {
    [(Format, 2)]
    + if format == 3 then [(Subformat, 2)] + Format3(subformat, timeFlag)
      else if format == 2 then Updates(callFlag)
      else if format == 1 then
        [(Branches, 5), (BranchMap, MapSize(branches))] + if branches != 0 then Updates(callFlag) else []
      else []
  }

  /** The rest of the payload is an address. */
  predicate HasAddress(format: nat, subformat: nat, branches: nat) {
    (format == 3 && subformat <= 1) || format == 2 || (format == 1 && branches != 0)
  }

  /** Reading a layout backward from the end of the bits. */
  function Read(bits: seq<bool>, l: Layout): (r: map<Field, nat>)
    requires Width(l) <= |bits|
  {
    if l == [] then map[]
    else
      var before, last := l[..|l| - 1], l[|l| - 1];
      var end := |bits| - Width(before);
      Read(bits, before)[last.0 := Value(bits[end - last.1..end])]
  }

  const END := 8 * PACKET_SIZE

  /** The layout that the end of the payload announces. */
  function LayoutIn(bits: seq<bool>, timeFlag: bool, callFlag: bool): Layout
    requires |bits| == END
  {
    LayoutOf(Value(bits[END - 2..]), Value(bits[END - 4..END - 2]), Value(bits[END - 7..END - 2]), timeFlag, callFlag)
  }

  predicate AddressIn(bits: seq<bool>)
    requires |bits| == END
  {
    HasAddress(Value(bits[END - 2..]), Value(bits[END - 4..END - 2]), Value(bits[END - 7..END - 2]))
  }

  /** Where the payload begins, for a declared size in bytes. */
  function PayloadStart(size: nat): nat
    requires size <= PACKET_SIZE
  {
    8 * (PACKET_SIZE - size)
  }

  const ADDRESSES := 0x1_0000_0000

  /** What is kept of the bits between the start of the payload and the other fields. */
  function AddressOf(bits: seq<bool>, start: nat, end: int): nat
    requires start <= |bits| && end <= |bits|
  {
    if start <= end <= start + 64 then Value(bits[start..end]) % ADDRESSES else DEAD
  }

  // ---- The decoder ----

  class Trace {
    const pTime: nat
    const pId: nat
    const pSize: nat
    const pTimestamp: nat
    /** The optional members that have a value, but for the address. */
    var fields: map<Field, nat>
    var address: Option<nat>
    ghost var layout: Layout

    ghost predicate ReadSoFar(x: BitExtractor)
      reads this, x
    {
      && |x.packet| == PACKET_SIZE && x.backward && Width(layout) <= 8 * PACKET_SIZE
      && x.i == 8 * PACKET_SIZE - Width(layout)
      && fields == Read(Bits(x.packet), layout)
    }

    method Take(x: BitExtractor, f: Field, width: nat) returns (value: nat)
      requires ReadSoFar(x) && width <= 64 && Width(layout) + width <= 8 * PACKET_SIZE
      modifies this, x
      ensures ReadSoFar(x) && layout == old(layout) + [(f, width)] && Width(layout) == old(Width(layout)) + width
      ensures value == Value(Bits(x.packet)[x.i..x.i + width])
      ensures address == old(address)
    {
      hide Value, Bits;
      assert (layout + [(f, width)])[..|layout|] == layout;
      value := x.Extract(width);
      fields := fields[f := value];
      layout := layout + [(f, width)];
    }

    method TakeTrap(x: BitExtractor)
      requires ReadSoFar(x) && Width(layout) <= 71
      modifies this, x
      ensures ReadSoFar(x) && layout == old(layout) + TRAP && Width(layout) == old(Width(layout)) + 66
      ensures address == old(address)
    {
      hide Width, Value, Bits, ReadSoFar;
      var v := Take(x, Ecause, 32);
      v := Take(x, Interrupt, 1);
      v := Take(x, Thaddr, 1);
      v := Take(x, Tval, 32);
      assert layout == old(layout) + TRAP;
    }

    method TakeFormat3(x: BitExtractor, subformat: nat, timeFlag: bool)
      requires ReadSoFar(x) && subformat <= 3 && Width(layout) == 4
      modifies this, x
      ensures ReadSoFar(x) && layout == old(layout) + Format3(subformat, timeFlag) && Width(layout) <= 137
      ensures address == old(address)
    {
      hide Width, Value, Bits, ReadSoFar;
      var v;
      match subformat {
        case 0 =>
          v := Take(x, Branch, 1);
          v := Take(x, Privilege, 2);
          if timeFlag { v := Take(x, Time, 64); }
        case 1 =>
          v := Take(x, Branch, 1);
          v := Take(x, Privilege, 2);
          if timeFlag { v := Take(x, Time, 64); }
          TakeTrap(x);
        case 2 =>
          v := Take(x, Privilege, 2);
          if timeFlag { v := Take(x, Time, 64); }
        case 3 =>
          v := Take(x, Ienable, 1);
          v := Take(x, EncoderMode, 1);
          v := Take(x, QualStatus, 2);
          v := Take(x, Ioptions, 7);
      }
      assert layout == old(layout) + Format3(subformat, timeFlag);
    }

    method TakeUpdates(x: BitExtractor, callFlag: bool)
      requires ReadSoFar(x) && Width(layout) <= 38
      modifies this, x
      ensures ReadSoFar(x) && layout == old(layout) + Updates(callFlag) && Width(layout) <= 42
      ensures address == old(address)
    {
      hide Width, Value, Bits, ReadSoFar;
      var v := Take(x, Notify, 1);
      v := Take(x, Updiscon, 1);
      v := Take(x, Irreport, 1);
      if callFlag { v := Take(x, Irdepth, 1); }
      assert layout == old(layout) + Updates(callFlag);
    }

    /** The fields are read, and the address if there is one. */
    ghost predicate Done(bits: seq<bool>, start: nat, hasAddress: bool)
      requires start <= |bits|
      reads this
    {
      && Width(layout) <= |bits| && fields == Read(bits, layout)
      && address == if hasAddress then Some(AddressOf(bits, start, |bits| - Width(layout))) else None
    }

    method TakeAddress(x: BitExtractor, start: nat)
      requires ReadSoFar(x) && start <= END
      modifies this, x
      ensures layout == old(layout) && Done(Bits(x.packet), start, true)
    {
      hide Value, Bits;
      var r := x.ExtractTo(start);
      address := Some(r % ADDRESSES);
    }

    lemma NoAddress(x: BitExtractor, start: nat)
      requires ReadSoFar(x) && address == None && start <= END
      ensures Done(Bits(x.packet), start, false)
    {
      hide Value, Bits;
    }

    lemma Cursor(x: BitExtractor)
      requires ReadSoFar(x)
      ensures x.i == END - Width(layout) && |Bits(x.packet)| == END
    {
    }

    method Decode3(x: BitExtractor, timeFlag: bool, start: nat)
      requires ReadSoFar(x) && layout == [(Format, 2)] && address == None && start <= END
      modifies this, x
      ensures var sub := Value(Bits(x.packet)[END - 4..END - 2]);
              layout == [(Format, 2)] + ([(Subformat, 2)] + Format3(sub, timeFlag))
              && Done(Bits(x.packet), start, sub <= 1)
    {
      hide Value, Bits, Read, Format3, Done, ReadSoFar, Width;
      FormatWidth();
      var subformat := Take(x, Subformat, 2);
      Cursor(x);
      SubformatBound(Bits(x.packet)[END - 4..END - 2]);
      TakeFormat3(x, subformat, timeFlag);
      if subformat <= 1 {
        TakeAddress(x, start);
      } else {
        NoAddress(x, start);
      }
    }

    method Decode2(x: BitExtractor, callFlag: bool, start: nat)
      requires ReadSoFar(x) && layout == [(Format, 2)] && address == None && start <= END
      modifies this, x
      ensures layout == [(Format, 2)] + Updates(callFlag) && Done(Bits(x.packet), start, true)
    {
      hide Value, Bits, Updates, Done, ReadSoFar, Width;
      FormatWidth();
      TakeUpdates(x, callFlag);
      TakeAddress(x, start);
    }

    method Decode1(x: BitExtractor, callFlag: bool, start: nat)
      requires ReadSoFar(x) && layout == [(Format, 2)] && address == None && start <= END
      modifies this, x
      ensures var branches := Value(Bits(x.packet)[END - 7..END - 2]);
              layout == [(Format, 2)] + ([(Branches, 5), (BranchMap, MapSize(branches))]
                                         + if branches != 0 then Updates(callFlag) else [])
              && Done(Bits(x.packet), start, branches != 0)
    {
      hide Value, Bits, Read, Updates, MapSize, Done, ReadSoFar, Width;
      FormatWidth();
      var branches := Take(x, Branches, 5);
      Cursor(x);
      SizeBound(Bits(x.packet)[END - 7..END - 2]);
      MapBound(branches);
      var m := Take(x, BranchMap, MapSize(branches));
      if branches != 0 {
        TakeUpdates(x, callFlag);
        TakeAddress(x, start);
      } else {
        NoAddress(x, start);
      }
    }

    method DecodePayload(x: BitExtractor, timeFlag: bool, callFlag: bool, start: nat)
      requires ReadSoFar(x) && layout == [] && address == None && start <= END
      modifies this, x
      ensures var bits := Bits(x.packet);
              layout == LayoutIn(bits, timeFlag, callFlag) && Done(bits, start, AddressIn(bits))
    {
      hide Value, Bits, Read, Format3, Updates, MapSize, Done, ReadSoFar, Width;
      FormatWidth();
      var format := Take(x, Format, 2);
      Cursor(x);
      ghost var bits := Bits(x.packet);
      assert bits[END - 2..] == bits[END - 2..END];
      assert layout == [(Format, 2)];
      if format == 3 {
        Decode3(x, timeFlag, start);
      } else if format == 2 {
        Decode2(x, callFlag, start);
      } else if format == 1 {
        Decode1(x, callFlag, start);
      } else {
        NoAddress(x, start);
      }
    }

    /** The members are what the packet says: the header in front, the layout that the end of the payload
        announces, and an address if the layout has one. */
    ghost predicate Decodes(packet: seq<byte>, timeFlag: bool, callFlag: bool)
      reads this
    {
      |packet| == PACKET_SIZE &&
      var bits := Bits(packet);
      && pTime == Value(bits[0..1]) && pId == Value(bits[1..3]) && pSize == Value(bits[3..8])
      && pTimestamp == Value(bits[8..72]) && pSize <= 31
      && layout == LayoutIn(bits, timeFlag, callFlag)
      && Done(bits, PayloadStart(pSize), AddressIn(bits))
    }

    /** Where the address begins, and where the fixed fields do. */
    function Start(): nat
      requires pSize <= 31
    {
      PayloadStart(pSize)
    }

    ghost function FieldsStart(): int
      reads this
    {
      END - Width(layout)
    }

    /** Decodes one packet. */
    constructor (packet: seq<byte>, timeFlag: bool, callFlag: bool)
      requires |packet| == PACKET_SIZE
      ensures Decodes(packet, timeFlag, callFlag)
    {
      hide Value, Bits, Read, Done, AddressIn, LayoutIn;
      var h := ReadHeader(packet);
      pTime, pId, pSize, pTimestamp := h.0, h.1, h.2, h.3;
      var start := (PACKET_SIZE - h.2) * 8;
      fields, address, layout := map[], None, [];
      new;
      var x := new BitExtractor(packet, true);
      NothingRead(Bits(packet));
      DecodePayload(x, timeFlag, callFlag, start);
    }
  }

  lemma FormatWidth()
    ensures Width([]) == 0 && Width([(Format, 2)]) == 2
  {
    assert [(Format, 2)][..0] == [];
  }

  /** The four header fields, read forward. */
  method ReadHeader(packet: seq<byte>) returns (h: (nat, nat, nat, nat))
    requires |packet| == PACKET_SIZE
    ensures var bits := Bits(packet);
            && h.0 == Value(bits[0..1]) && h.1 == Value(bits[1..3]) && h.2 == Value(bits[3..8])
            && h.3 == Value(bits[8..72]) && h.2 <= 31
  {
    hide Value, Bits;
    var x := new BitExtractor(packet, false);
    var time := x.Extract(1);
    var id := x.Extract(2);
    var size := x.Extract(5);
    assert x.i == 8;
    var timestamp := x.Extract(64);
    SizeBound(Bits(packet)[3..8]);
    h := (time, id, size, timestamp);
  }

  lemma SizeBound(b: seq<bool>)
    requires |b| == 5
    ensures Value(b) <= 31
  {
    assert Pow2(5) == 2 * Pow2(4) && Pow2(4) == 2 * Pow2(3);
  }

  lemma SubformatBound(b: seq<bool>)
    requires |b| == 2
    ensures Value(b) <= 3
  {
  }

  lemma MapBound(branches: nat)
    requires branches <= 31
    ensures 1 <= MapSize(branches) <= 31
  {
  }

  lemma NothingRead(bits: seq<bool>)
    ensures Width([]) == 0 && Read(bits, []) == map[]
  {
  }

  // ---- Nothing is lost ----

  /** Whatever size a packet declares, its payload begins behind the 72 bits of the header. */
  lemma HeaderApart(bits: seq<bool>)
    requires |bits| == END
    ensures Value(bits[3..8]) <= 31 && PayloadStart(Value(bits[3..8])) >= 72
  {
    SizeBound(bits[3..8]);
  }

  /** The fields written back, the last one read in front. */
  function Pack(m: map<Field, nat>, l: Layout): (r: seq<bool>)
    requires forall k :: 0 <= k < |l| ==> l[k].0 in m
    ensures |r| == Width(l)
  {
    if l == [] then []
    else
      var last := l[|l| - 1];
      ToBits(m[last.0], last.1) + Pack(m, l[..|l| - 1])
  }

  ghost predicate NoRepeat(l: Layout) {
    forall i, j :: 0 <= i < j < |l| ==> l[i].0 != l[j].0
  }

  lemma {:induction false} PackSame(m: map<Field, nat>, u: map<Field, nat>, l: Layout)
    requires forall k :: 0 <= k < |l| ==> l[k].0 in m && l[k].0 in u && m[l[k].0] == u[l[k].0]
    ensures Pack(m, l) == Pack(u, l)
    decreases |l|
  {
    hide ToBits;
    if l != [] { PackSame(m, u, l[..|l| - 1]); }
  }

  lemma ReadNext(bits: seq<bool>, l: Layout)
    requires Width(l) <= |bits| && l != []
    ensures var before, last := l[..|l| - 1], l[|l| - 1];
            var end := |bits| - Width(before);
            Width(l) == Width(before) + last.1
            && Read(bits, l) == Read(bits, before)[last.0 := Value(bits[end - last.1..end])]
  {
  }

  lemma PackNext(m: map<Field, nat>, l: Layout)
    requires l != [] && forall k :: 0 <= k < |l| ==> l[k].0 in m
    ensures var before, last := l[..|l| - 1], l[|l| - 1];
            (forall k :: 0 <= k < |before| ==> before[k].0 in m)
            && Pack(m, l) == ToBits(m[last.0], last.1) + Pack(m, before)
  {
  }

  /** Reading fields and writing them back gives the bits that were read. */
  lemma {:induction false} PackRead(bits: seq<bool>, l: Layout)
    requires Width(l) <= |bits| && NoRepeat(l)
    ensures forall k :: 0 <= k < |l| ==> l[k].0 in Read(bits, l)
    ensures Pack(Read(bits, l), l) == bits[|bits| - Width(l)..]
    decreases |l|
  {
    hide ToBits, Value, Read, Pack, Width;
    if l == [] {
      PackNothing(bits);
    } else {
      var before, last := l[..|l| - 1], l[|l| - 1];
      var end := |bits| - Width(before);
      ReadNext(bits, l);
      PackRead(bits, before);
      var m, u := Read(bits, before), Read(bits, l);
      forall k | 0 <= k < |before| ensures before[k].0 in u && u[before[k].0] == m[before[k].0] {
        assert before[k] == l[k] && l[k].0 != last.0;
      }
      forall k | 0 <= k < |l| ensures l[k].0 in u {
        if k < |before| { assert before[k] == l[k]; }
      }
      PackSame(m, u, before);
      PackNext(u, l);
      BitsOfValue(bits[end - last.1..end]);
      assert bits[end - last.1..end] + bits[end..] == bits[|bits| - Width(l)..];
    }
  }

  lemma PackNothing(bits: seq<bool>)
    ensures Width([]) == 0 && Pack(Read(bits, []), []) == [] && bits[|bits|..] == []
  {
  }

  /** No layout reads a field after one of a higher rank. */
  function Rank(f: Field): nat {
    match f
    case Format => 0
    case Subformat => 1
    case Branch => 2
    case Privilege => 3
    case Time => 4
    case Ecause => 5
    case Interrupt => 6
    case Thaddr => 7
    case Tval => 8
    case Ienable => 9
    case EncoderMode => 10
    case QualStatus => 11
    case Ioptions => 12
    case Branches => 13
    case BranchMap => 14
    case Notify => 15
    case Updiscon => 16
    case Irreport => 17
    case Irdepth => 18
  }

  ghost predicate Ranked(l: Layout, lo: nat, hi: nat) {
    && (forall k :: 0 <= k < |l| ==> lo <= Rank(l[k].0) < hi)
    && (forall i, j :: 0 <= i < j < |l| ==> Rank(l[i].0) < Rank(l[j].0))
  }

  lemma RankedConcat(a: Layout, b: Layout, lo: nat, mid: nat, hi: nat)
    requires Ranked(a, lo, mid) && Ranked(b, mid, hi) && lo <= mid <= hi
    ensures Ranked(a + b, lo, hi)
  {
    hide Rank;
  }

  lemma Ranked3(subformat: nat, timeFlag: bool)
    ensures Ranked(Format3(subformat, timeFlag), 2, 13)
  {
    hide IfTime, Rank, Ranked;
    var t := IfTime(timeFlag);
    RankedTime(timeFlag);
    RankedHeads();
    RankedTrap();
    RankedConcat([(Branch, 1), (Privilege, 2)], t, 2, 4, 5);
    RankedConcat([(Branch, 1), (Privilege, 2)], t, 2, 4, 13);
    RankedConcat([(Branch, 1), (Privilege, 2)] + t, TRAP, 2, 5, 13);
    RankedConcat([(Privilege, 2)], t, 2, 4, 13);
  }

  lemma RankedHeads()
    ensures Ranked([(Branch, 1), (Privilege, 2)], 2, 4) && Ranked([(Privilege, 2)], 2, 4)
    ensures Ranked([(Ienable, 1), (EncoderMode, 1), (QualStatus, 2), (Ioptions, 7)], 2, 13)
  {
  }

  lemma RankedTime(timeFlag: bool)
    ensures Ranked(IfTime(timeFlag), 4, 5) && Ranked(IfTime(timeFlag), 4, 13)
  {
  }

  lemma RankedTrap()
    ensures Ranked(TRAP, 5, 13)
  {
  }

  lemma RankedUpdates(callFlag: bool)
    ensures Ranked(Updates(callFlag), 15, 19)
  {
    RankedConcat(NOTICES, IfCall(callFlag), 15, 18, 19);
  }

  lemma LayoutNoRepeat(format: nat, subformat: nat, branches: nat, timeFlag: bool, callFlag: bool)
    ensures NoRepeat(LayoutOf(format, subformat, branches, timeFlag, callFlag))
  {
    hide MapSize, Format3, Updates, Rank;
    LayoutRanked(format, subformat, branches, timeFlag, callFlag);
    RankedNoRepeat(LayoutOf(format, subformat, branches, timeFlag, callFlag));
  }

  lemma RankedNoRepeat(l: Layout)
    requires Ranked(l, 0, 19)
    ensures NoRepeat(l)
  {
    hide Rank;
  }

  lemma LayoutRanked(format: nat, subformat: nat, branches: nat, timeFlag: bool, callFlag: bool)
    ensures Ranked(LayoutOf(format, subformat, branches, timeFlag, callFlag), 0, 19)
  {
    hide MapSize, Format3, Updates;
    var head: Layout := [(Format, 2)];
    if format == 3 {
      Ranked3(subformat, timeFlag);
      RankedConcat([(Subformat, 2)], Format3(subformat, timeFlag), 1, 2, 19);
      RankedConcat(head, [(Subformat, 2)] + Format3(subformat, timeFlag), 0, 1, 19);
    } else if format == 2 {
      RankedUpdates(callFlag);
      RankedConcat(head, Updates(callFlag), 0, 1, 19);
    } else if format == 1 {
      var counted: Layout := [(Branches, 5), (BranchMap, MapSize(branches))];
      RankedUpdates(callFlag);
      RankedConcat(counted, Updates(callFlag), 1, 15, 19);
      RankedConcat(counted, [], 1, 15, 19);
      RankedConcat(head, counted + Updates(callFlag), 0, 1, 19);
      RankedConcat(head, counted + [], 0, 1, 19);
    }
  }

  lemma NumberFits(v: nat, b: seq<bool>)
    requires v < Pow2(|b|)
    ensures ToBits(v, |b|) == b <==> v == Value(b)
  {
    hide Pow2, ToBits, Value;
    ValueOfBits(v, |b|);
    BitsOfValue(b);
  }

  lemma FieldsRebuilt(bits: seq<bool>, l: Layout, timeFlag: bool, callFlag: bool)
    requires |bits| == END && l == LayoutIn(bits, timeFlag, callFlag) && Width(l) <= END
    ensures forall k :: 0 <= k < |l| ==> l[k].0 in Read(bits, l)
    ensures Pack(Read(bits, l), l) == bits[END - Width(l)..]
  {
    hide Value, Read, Pack, Width, LayoutOf;
    LayoutNoRepeat(Value(bits[END - 2..]), Value(bits[END - 4..END - 2]), Value(bits[END - 7..END - 2]), timeFlag, callFlag);
    PackRead(bits, l);
  }

  /** A number in front of the fields is the rest of the payload if it is the number that stands there. */
  lemma FrontRebuiltIff(bits: seq<bool>, start: nat, end: nat)
    requires start <= end <= |bits|
    ensures var v := Value(bits[start..end]);
            ToBits(AddressOf(bits, start, end), end - start) + bits[end..] == bits[start..]
            <==> (end - start <= 64 && v < ADDRESSES) || (end - start > 64 && v == DEAD)
  {
    hide Value, ToBits, Pow2, AddressOf;
    var a, front, rest := AddressOf(bits, start, end), bits[start..end], bits[end..];
    AddressFits(bits, start, end);
    NumberFits(a, front);
    SameFront(ToBits(a, end - start), front, rest);
    assert bits[start..] == front + rest;
    AddressIsValue(bits, start, end);
  }

  lemma SameFront(a: seq<bool>, b: seq<bool>, rest: seq<bool>)
    requires |a| == |b|
    ensures a + rest == b + rest <==> a == b
  {
    if a + rest == b + rest {
      assert a == (a + rest)[..|a|] == (b + rest)[..|b|] == b;
    }
  }

  /** The address that is kept is the number in the packet. */
  lemma AddressIsValue(bits: seq<bool>, start: nat, end: nat)
    requires start <= end <= |bits|
    ensures var v := Value(bits[start..end]);
            AddressOf(bits, start, end) == v
            <==> (end - start <= 64 && v < ADDRESSES) || (end - start > 64 && v == DEAD)
  {
    hide Value;
  }

  /** Packets with an address whose declared size holds the fixed fields: the decoded address and fields,
      written back, are the payload if and only if the address has at most 64 bits and a value below 2^32,
      or has more and happens to be the marker. */
  lemma PayloadRebuiltIff(t: Trace, packet: seq<byte>, timeFlag: bool, callFlag: bool)
    requires t.Decodes(packet, timeFlag, callFlag) && AddressIn(Bits(packet))
    requires t.Start() <= t.FieldsStart()
    ensures t.address.Some? && forall k :: 0 <= k < |t.layout| ==> t.layout[k].0 in t.fields
    ensures var bits, start, end := Bits(packet), t.Start(), t.FieldsStart();
            var v := Value(bits[start..end]);
            ToBits(t.address.value, end - start) + Pack(t.fields, t.layout) == bits[start..]
            <==> (end - start <= 64 && v < ADDRESSES) || (end - start > 64 && v == DEAD)
  {
    hide Value, ToBits, Read, Pack, Width, LayoutIn, Pow2, AddressOf, AddressIn, Bits;
    FieldsRebuilt(Bits(packet), t.layout, timeFlag, callFlag);
    FrontRebuiltIff(Bits(packet), t.Start(), t.FieldsStart());
  }

  /** In particular, address and fields are the payload for every address of at most 32 bits. */
  lemma PayloadRebuilt(t: Trace, packet: seq<byte>, timeFlag: bool, callFlag: bool)
    requires t.Decodes(packet, timeFlag, callFlag) && AddressIn(Bits(packet))
    requires t.Start() <= t.FieldsStart() <= t.Start() + 32
    ensures t.address.Some? && forall k :: 0 <= k < |t.layout| ==> t.layout[k].0 in t.fields
    ensures ToBits(t.address.value, t.FieldsStart() - t.Start()) + Pack(t.fields, t.layout) == Bits(packet)[t.Start()..]
  {
    hide ToBits, Read, Pack, Width, LayoutIn, Pow2, Value, AddressOf, AddressIn, Bits;
    PayloadRebuiltIff(t, packet, timeFlag, callFlag);
    Words();
    Pow2Grows(t.FieldsStart() - t.Start(), 32);
  }

  /** Packets without an address: the fields are the end of the payload, and all of it if and only if the
      declared size is exactly theirs; what stands in front is dropped. */
  lemma FieldsAreEnd(t: Trace, packet: seq<byte>, timeFlag: bool, callFlag: bool)
    requires t.Decodes(packet, timeFlag, callFlag) && !AddressIn(Bits(packet))
    ensures t.address.None? && forall k :: 0 <= k < |t.layout| ==> t.layout[k].0 in t.fields
    ensures 0 <= t.FieldsStart() <= END && Pack(t.fields, t.layout) == Bits(packet)[t.FieldsStart()..]
    ensures Pack(t.fields, t.layout) == Bits(packet)[t.Start()..] <==> t.Start() == t.FieldsStart()
  {
    hide Value, ToBits, Read, Pack, Width, LayoutIn, AddressIn, Bits;
    FieldsRebuilt(Bits(packet), t.layout, timeFlag, callFlag);
  }

  /** Where the declared size does not hold the fixed fields, the address is the marker. */
  lemma TooSmallIsMarked(t: Trace, packet: seq<byte>, timeFlag: bool, callFlag: bool)
    requires t.Decodes(packet, timeFlag, callFlag) && AddressIn(Bits(packet)) && t.FieldsStart() < t.Start()
    ensures t.address == Some(DEAD)
  {
    hide Value, Read, Width, LayoutIn, AddressIn, Bits;
  }

  lemma AddressFits(bits: seq<bool>, start: nat, end: nat)
    requires start <= end <= |bits|
    ensures AddressOf(bits, start, end) < Pow2(end - start)
  {
    hide Value;
    if end - start > 64 {
      Words();
      Pow2Grows(32, end - start);
    }
  }
}
