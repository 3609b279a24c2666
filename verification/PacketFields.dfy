/**
 Where the members of a decoded trace packet stand in it: bit positions counted from 1 at the end of the packet.
 */
module PacketFields {
  import opened Decapsulator

  /** The `w` bits from position `k` on, counted from the end. */
  function From(bits: seq<bool>, k: nat, w: nat): nat
    requires 0 < k && k + w <= |bits| + 1
  {
    var end := |bits| - (k - 1);
    Value(bits[end - w..end])
  }

  type Fields = map<Field, nat>

  function TimeAt(m: Fields, bits: seq<bool>, k: nat, timeFlag: bool): Fields
    requires 0 < k && k + 64 <= |bits| + 1
  {
    if timeFlag then m[Time := From(bits, k, 64)] else m
  }

  function NoticesAt(m: Fields, bits: seq<bool>, k: nat, callFlag: bool): Fields
    requires 0 < k && k + 4 <= |bits| + 1
  {
    var n := m[Notify := From(bits, k, 1)][Updiscon := From(bits, k + 1, 1)][Irreport := From(bits, k + 2, 1)];
    if callFlag then n[Irdepth := From(bits, k + 3, 1)] else n
  }

  function TrapAt(m: Fields, bits: seq<bool>, k: nat): Fields
    requires 0 < k && k + 66 <= |bits| + 1
  {
    m[Ecause := From(bits, k, 32)][Interrupt := From(bits, k + 32, 1)][Thaddr := From(bits, k + 33, 1)]
     [Tval := From(bits, k + 34, 32)]
  }

  function SupportAt(m: Fields, bits: seq<bool>, subformat: nat, timeFlag: bool): Fields
    requires |bits| == END
  {
    if subformat == 0 then TimeAt(m[Branch := From(bits, 5, 1)][Privilege := From(bits, 6, 2)], bits, 8, timeFlag)
    else if subformat == 1 then
      TrapAt(TimeAt(m[Branch := From(bits, 5, 1)][Privilege := From(bits, 6, 2)], bits, 8, timeFlag),
             bits, if timeFlag then 72 else 8)
    else if subformat == 2 then TimeAt(m[Privilege := From(bits, 5, 2)], bits, 7, timeFlag)
    else
      m[Ienable := From(bits, 5, 1)][EncoderMode := From(bits, 6, 1)][QualStatus := From(bits, 7, 2)]
       [Ioptions := From(bits, 9, 7)]
  }

  /** All members that have a value, by the format at positions 1 and 2. */
  function FieldsAt(bits: seq<bool>, timeFlag: bool, callFlag: bool): Fields
    requires |bits| == END
  {
    var format := From(bits, 1, 2);
    var m: Fields := map[][Format := format];
    if format == 3 then SupportAt(m[Subformat := From(bits, 3, 2)], bits, From(bits, 3, 2), timeFlag)
    else if format == 2 then NoticesAt(m, bits, 3, callFlag)
    else if format == 1 then BranchesAt(m, bits, callFlag)
    else m
  }

  function BranchesAt(m: Fields, bits: seq<bool>, callFlag: bool): Fields
    requires |bits| == END
  {
    var branches := From(bits, 3, 5);
    BoundedMap(bits);
    var n := m[Branches := branches][BranchMap := From(bits, 8, MapSize(branches))];
    if branches != 0 then NoticesAt(n, bits, 8 + MapSize(branches), callFlag) else n
  }

  lemma BoundedMap(bits: seq<bool>)
    requires |bits| == END
    ensures From(bits, 3, 5) <= 31 && MapSize(From(bits, 3, 5)) <= 31
  {
    SizeBound(bits[END - 7..END - 2]);
  }

  // ---- Reading a layout ----

  lemma ReadMore(bits: seq<bool>, l: Layout, f: Field, w: nat)
    requires Width(l) + w <= |bits|
    ensures Width(l + [(f, w)]) == Width(l) + w
    ensures Read(bits, l + [(f, w)]) == Read(bits, l)[f := From(bits, Width(l) + 1, w)]
  {
    assert (l + [(f, w)])[..|l|] == l;
    hide Value;
  }

  lemma ReadTime(bits: seq<bool>, l: Layout, timeFlag: bool)
    requires Width(l) + 64 <= |bits|
    ensures Width(l + IfTime(timeFlag)) == Width(l) + if timeFlag then 64 else 0
    ensures Read(bits, l + IfTime(timeFlag)) == TimeAt(Read(bits, l), bits, Width(l) + 1, timeFlag)
  {
    hide Read, Width, From;
    ReadMore(bits, l, Time, 64);
    assert l + [] == l;
  }

  lemma ReadThree(bits: seq<bool>, l: Layout)
    requires Width(l) + 4 <= |bits|
    ensures Width(l + NOTICES) == Width(l) + 3
    ensures var k := Width(l) + 1;
            Read(bits, l + NOTICES)
            == Read(bits, l)[Notify := From(bits, k, 1)][Updiscon := From(bits, k + 1, 1)][Irreport := From(bits, k + 2, 1)]
  {
    hide Read, Width, From;
    var l1 := l + [(Notify, 1)];
    var l2 := l1 + [(Updiscon, 1)];
    var l3 := l2 + [(Irreport, 1)];
    ReadMore(bits, l, Notify, 1);
    ReadMore(bits, l1, Updiscon, 1);
    ReadMore(bits, l2, Irreport, 1);
    assert l + NOTICES == l3;
  }

  lemma ReadNotices(bits: seq<bool>, l: Layout, callFlag: bool)
    requires Width(l) + 4 <= |bits|
    ensures Width(l + Updates(callFlag)) <= Width(l) + 4
    ensures Read(bits, l + Updates(callFlag)) == NoticesAt(Read(bits, l), bits, Width(l) + 1, callFlag)
  {
    hide Read, Width, From, NOTICES;
    var l3 := l + NOTICES;
    ReadThree(bits, l);
    ReadMore(bits, l3, Irdepth, 1);
    assert l + Updates(callFlag) == l3 + IfCall(callFlag);
    assert l3 + [] == l3;
  }

  lemma ReadTrap(bits: seq<bool>, l: Layout)
    requires Width(l) + 66 <= |bits|
    ensures Width(l + TRAP) == Width(l) + 66
    ensures Read(bits, l + TRAP) == TrapAt(Read(bits, l), bits, Width(l) + 1)
  {
    hide Read, Width, From;
    var l1 := l + [(Ecause, 32)];
    var l2 := l1 + [(Interrupt, 1)];
    var l3 := l2 + [(Thaddr, 1)];
    ReadMore(bits, l, Ecause, 32);
    ReadMore(bits, l1, Interrupt, 1);
    ReadMore(bits, l2, Thaddr, 1);
    ReadMore(bits, l3, Tval, 32);
    assert l + TRAP == l3 + [(Tval, 32)];
  }

  lemma ReadSupport(bits: seq<bool>, l: Layout, subformat: nat, timeFlag: bool)
    requires Width(l) == 4 && |bits| == END
    ensures Width(l + Format3(subformat, timeFlag)) <= END
    ensures Read(bits, l + Format3(subformat, timeFlag)) == SupportAt(Read(bits, l), bits, subformat, timeFlag)
  {
    hide Read, Width, From, TrapAt, IfTime, TRAP;
    if subformat <= 1 {
      var l1 := l + [(Branch, 1)];
      var l2 := l1 + [(Privilege, 2)];
      ReadMore(bits, l, Branch, 1);
      ReadMore(bits, l1, Privilege, 2);
      ReadTime(bits, l2, timeFlag);
      if subformat == 1 {
        ReadTrap(bits, l2 + IfTime(timeFlag));
        assert l + Format3(1, timeFlag) == (l2 + IfTime(timeFlag)) + TRAP;
      } else {
        assert l + Format3(0, timeFlag) == l2 + IfTime(timeFlag);
      }
    } else if subformat == 2 {
      var l1 := l + [(Privilege, 2)];
      ReadMore(bits, l, Privilege, 2);
      ReadTime(bits, l1, timeFlag);
      assert l + Format3(2, timeFlag) == l1 + IfTime(timeFlag);
    } else {
      var l1 := l + [(Ienable, 1)];
      var l2 := l1 + [(EncoderMode, 1)];
      var l3 := l2 + [(QualStatus, 2)];
      ReadMore(bits, l, Ienable, 1);
      ReadMore(bits, l1, EncoderMode, 1);
      ReadMore(bits, l2, QualStatus, 2);
      ReadMore(bits, l3, Ioptions, 7);
      assert l + Format3(subformat, timeFlag) == l3 + [(Ioptions, 7)];
    }
  }

  lemma ReadBranches(bits: seq<bool>, l: Layout, callFlag: bool)
    requires Width(l) == 2 && |bits| == END
    ensures var branches := From(bits, 3, 5);
            var m := l + ([(Branches, 5), (BranchMap, MapSize(branches))] + if branches != 0 then Updates(callFlag) else []);
            Width(m) <= END && Read(bits, m) == BranchesAt(Read(bits, l), bits, callFlag)
  {
    hide Read, Width, From, MapSize, NoticesAt, Updates;
    BoundedMap(bits);
    var branches := From(bits, 3, 5);
    var l1 := l + [(Branches, 5)];
    var l2 := l1 + [(BranchMap, MapSize(branches))];
    ReadMore(bits, l, Branches, 5);
    ReadMore(bits, l1, BranchMap, MapSize(branches));
    ReadNotices(bits, l2, callFlag);
    var rest := if branches != 0 then Updates(callFlag) else [];
    assert l + ([(Branches, 5), (BranchMap, MapSize(branches))] + rest) == l2 + rest;
    assert l2 + [] == l2;
  }

  /** The members of a decoded packet, each at its place. */
  lemma FieldPlaces(t: Trace, packet: seq<byte>, timeFlag: bool, callFlag: bool)
    requires t.Decodes(packet, timeFlag, callFlag)
    ensures |Bits(packet)| == END && t.fields == FieldsAt(Bits(packet), timeFlag, callFlag)
  {
    hide Read, Width, Value, MapSize, SupportAt, NoticesAt, Format3, Updates, Bits, AddressIn;
    var bits := Bits(packet);
    assert bits[END - 2..] == bits[END - 2..END];
    FormatWidth();
    NothingRead(bits);
    ReadMore(bits, [], Format, 2);
    var l := [(Format, 2)];
    assert [] + l == l;
    BoundedMap(bits);
    if From(bits, 1, 2) == 3 {
      ReadMore(bits, l, Subformat, 2);
      var sub := From(bits, 3, 2);
      ReadSupport(bits, l + [(Subformat, 2)], sub, timeFlag);
      assert l + ([(Subformat, 2)] + Format3(sub, timeFlag)) == (l + [(Subformat, 2)]) + Format3(sub, timeFlag);
    } else if From(bits, 1, 2) == 2 {
      ReadNotices(bits, l, callFlag);
    } else if From(bits, 1, 2) == 1 {
      ReadBranches(bits, l, callFlag);
    } else {
      assert l + [] == l;
    }
  }
}
