/**
 The list items of verif/tests/custom/coremark/core_list_join.c and the two comparators of its sort,
 one of which computes and caches its keys as it goes.
 */
module CoremarkData {
  import Crc = CoremarkCrc

  /** `idx` is the original place of the item.  The upper byte of `data16` is a backup; of the lower
      byte, bit 7 says that the other seven bits are the cached result. */
  class Data {
    var idx: int
    var data16: bv16

    constructor (idx: int, data16: bv16)
      ensures this.idx == idx && this.data16 == data16
    {
      this.idx, this.data16 := idx, data16;
    }
  }

  /** The results record.  What the state and matrix benchmarks return is not modelled: the n-th call
      returns `answers(n)`, whatever it is. */
  class Results {
    var crc: bv16
    var crcstate: bv16
    var crcmatrix: bv16
    const answers: nat -> bv16
    var calls: nat

    constructor (answers: nat -> bv16)
      ensures crc == 0 && crcstate == 0 && crcmatrix == 0 && calls == 0 && this.answers == answers
    {
      this.answers := answers;
      crc, crcstate, crcmatrix, calls := 0, 0, 0, 0;
    }
  }

  function High(d: bv16): bv16 { d & 0xff00 }

  predicate Cached(d: bv16) { d & 0x0080 != 0 }

  function CachedKey(d: bv16): bv16 { d & 0x007f }

  /** The lower byte set back to the upper one. */
  function Restored(d: bv16): bv16 { (d & 0xff00) | ((d >> 8) & 0x00ff) }

  predicate Clean(d: bv16) { d == Restored(d) }

  lemma CacheResult(data: bv16, retval: bv16, r: bv16)
    requires r == (data & 0xff00) | 0x0080 | (retval & 0x007f)
    ensures High(r) == High(data) && Cached(r) && CachedKey(r) == retval & 0x007f
  {
    assert r & 0x0080 == 0x0080;
  }

  lemma RestoreData(data: bv16)
    ensures High(Restored(data)) == High(data) && Clean(Restored(data))
  {
  }

  /** Two clean items with the same backup are the same. */
  lemma CleanDetermined(a: bv16, b: bv16)
    requires Clean(a) && Clean(b) && High(a) == High(b)
    ensures a == b
  {
    assert (a >> 8) & 0x00ff == ((a & 0xff00) >> 8) & 0x00ff;
    assert (b >> 8) & 0x00ff == ((b & 0xff00) >> 8) & 0x00ff;
  }

  /** Bits 0 to 2: which operation gives the result of an item that has none yet. */
  function Operation(d: bv16): bv16 { d & 0x7 }

  /** The result of an item: the answer of the state or the matrix benchmark, or else the item itself. */
  function Computed(d: bv16, answers: nat -> bv16, calls: nat): bv16 {
    if Operation(d) == 0 || Operation(d) == 1 then answers(calls) else d
  }

  /** The seven bits that are kept of a result. */
  function Kept(retval: bv16): bv16 { retval & 0x007f }

  function WithKey(d: bv16, retval: bv16): bv16 { (d & 0xff00) | 0x0080 | (retval & 0x007f) }

  /** Computes the key of an item once, and returns the cached one ever after.  Only a computation feeds the
      CRC, and the first answer of either benchmark is recorded. */
  method CalcFunc(item: Data, res: Results) returns (retval: bv16)
    modifies item`data16, res
    ensures Cached(item.data16) && retval == CachedKey(item.data16)
    ensures High(item.data16) == High(old(item.data16))
    ensures Cached(old(item.data16)) ==>
              item.data16 == old(item.data16) && res.crc == old(res.crc) && res.calls == old(res.calls)
              && res.crcstate == old(res.crcstate) && res.crcmatrix == old(res.crcmatrix)
    ensures !Cached(old(item.data16)) ==>
              var d := old(item.data16);
              var r := Computed(d, res.answers, old(res.calls));
              && retval == Kept(r) && item.data16 == WithKey(d, r) && res.crc == Crc.Step16(r, old(res.crc))
              && res.calls == old(res.calls) + (if Operation(d) == 0 || Operation(d) == 1 then 1 else 0)
              && res.crcstate == (if Operation(d) == 0 && old(res.crcstate) == 0 then r else old(res.crcstate))
              && res.crcmatrix == (if Operation(d) == 1 && old(res.crcmatrix) == 0 then r else old(res.crcmatrix))
  {
    hide *;
    var data := item.data16;
    if data & 0x0080 != 0 {
      assert Cached(data) by { CachedIs(data); }
      CachedKeyIs(data, data & 0x007f);
      return data & 0x007f;
    }
    assert !Cached(data) by { CachedIs(data); }
    var flag := data & 0x7;
    OperationIs(data, flag, res.answers, res.calls);
    if flag == 0 {
      retval := res.answers(res.calls);
      res.calls := res.calls + 1;
      if res.crcstate == 0 {
        res.crcstate := retval;
      }
    } else if flag == 1 {
      retval := res.answers(res.calls);
      res.calls := res.calls + 1;
      if res.crcmatrix == 0 {
        res.crcmatrix := retval;
      }
    } else {
      retval := data;
    }
    var crc := Crc.Crcu16(retval, res.crc);
    res.crc := crc;
    item.data16 := (data & 0xff00) | 0x0080 | (retval & 0x007f);
    CacheResult(data, retval, item.data16);
    KeptIs(data, retval, retval & 0x007f, item.data16);
    retval := retval & 0x007f;
  }

  lemma OperationIs(d: bv16, flag: bv16, answers: nat -> bv16, calls: nat)
    requires flag == d & 0x7
    ensures Operation(d) == flag && Computed(d, answers, calls) == if flag == 0 || flag == 1 then answers(calls) else d
  {
  }

  lemma KeptIs(d: bv16, retval: bv16, key: bv16, with_: bv16)
    requires key == retval & 0x007f && with_ == (d & 0xff00) | 0x0080 | (retval & 0x007f)
    ensures Kept(retval) == key && WithKey(d, retval) == with_
  {
  }

  lemma CachedIs(d: bv16)
    ensures Cached(d) <==> d & 0x0080 != 0
  {
  }

  lemma CachedKeyIs(d: bv16, r: bv16)
    requires r == d & 0x007f
    ensures CachedKey(d) == r
  {
  }

  // ---- The comparators ----

  datatype Cmp = Complex | ByIdx

  /** The comparator has seen the item, and its key is fixed from now on. */
  predicate Known(cmp: Cmp, resetting: bool, d: Data)
    reads d
  {
    match cmp
    case Complex => Cached(d.data16)
    case ByIdx => resetting ==> Clean(d.data16)
  }

  function Key(cmp: Cmp, d: Data): int
    reads d
  {
    match cmp
    case Complex => CachedKey(d.data16) as int
    case ByIdx => d.idx
  }

  method CmpComplex(a: Data, b: Data, res: Results) returns (r: int)
    modifies a`data16, b`data16, res
    ensures Cached(a.data16) && Cached(b.data16)
    ensures r == CachedKey(a.data16) as int - CachedKey(b.data16) as int
    ensures High(a.data16) == High(old(a.data16)) && High(b.data16) == High(old(b.data16))
    ensures Cached(old(a.data16)) ==> a.data16 == old(a.data16)
    ensures Cached(old(b.data16)) ==> b.data16 == old(b.data16)
  {
    hide *;
    var val1 := CalcFunc(a, res);
    var val2 := CalcFunc(b, res);
    r := val1 as int - val2 as int;
  }

  method Restore(d: Data)
    modifies d`data16
    ensures Clean(d.data16) && High(d.data16) == High(old(d.data16))
  {
    d.data16 := (d.data16 & 0xff00) | (0x00ff & (d.data16 >> 8));
    RestoredIs(old(d.data16), d.data16);
    RestoreData(old(d.data16));
    hide *;
  }

  /** Without a results record the comparison also restores both items. */
  method CmpIdx(a: Data, b: Data, res: Results?) returns (r: int)
    modifies a`data16, b`data16
    ensures r == a.idx - b.idx
    ensures res == null ==> Clean(a.data16) && Clean(b.data16)
    ensures res != null ==> a.data16 == old(a.data16) && b.data16 == old(b.data16)
    ensures High(a.data16) == High(old(a.data16)) && High(b.data16) == High(old(b.data16))
  {
    hide *;
    if res == null {
      Restore(a);
      Restore(b);
    }
    r := a.idx - b.idx;
  }

  lemma RestoredIs(d: bv16, r: bv16)
    requires r == (d & 0xff00) | (0x00ff & (d >> 8))
    ensures r == Restored(d)
  {
  }

  /** `items` are any items around: comparing two of them fixes their keys, changes no other item, and
      changes no key that was fixed, no index and no backup byte. */
  method Compare(cmp: Cmp, a: Data, b: Data, res: Results?, ghost items: set<Data>) returns (r: int)
    requires cmp.Complex? ==> res != null
    requires a in items && b in items
    modifies items, res
    ensures Known(cmp, res == null, a) && Known(cmp, res == null, b)
    ensures r == Key(cmp, a) - Key(cmp, b)
    ensures forall d | d in items :: d.idx == old(d.idx) && High(d.data16) == High(old(d.data16))
    ensures forall d | d in items && old(Known(cmp, res == null, d)) ::
              Known(cmp, res == null, d) && Key(cmp, d) == old(Key(cmp, d))
  {
    hide High, Cached, CachedKey, Clean;
    match cmp {
      case Complex => r := CmpComplex(a, b, res);
      case ByIdx => r := CmpIdx(a, b, res);
    }
  }
}
