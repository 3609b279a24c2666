/**
 The instruction queue of perf-model/model.py, which counts bytes only, as a value.
 The count may go below zero: a jump gives back a fetch it has already been credited with.
 */
module FetchQueue {
  import opened Isa
  import opened Powers

  datatype Iq = Iq(fetchSize: nat, len: int, newFetch: bool) {

    /** `addr & (fetch_size - 1)`: the fetch size is a power of two, so the mask is a modulus. */
    function AddrIndex(addr: int): nat
      requires fetchSize > 0
    {
      addr % fetchSize
    }

    function Fetch(): Iq {
      this.(len := len + fetchSize, newFetch := true)
    }

    function Flush(): Iq {
      this.(len := 0, newFetch := false)
    }

    function Truncate(index: nat): Iq
      requires fetchSize > 0
    {
      var occupancy := fetchSize - AddrIndex(len);
      var toRemove := index - occupancy;
      this.(len := len - (if toRemove < 0 then toRemove + fetchSize else toRemove))
    }

    function Jump(): Iq
      requires fetchSize > 0
    {
      var lost := if newFetch then this.(len := len - fetchSize, newFetch := false) else this;
      lost.Truncate(0)
    }

    predicate IsCrossword(i: Instr)
      requires fetchSize > 0
    {
      AddrIndex(i.address) == fetchSize - 2 && !i.IsCompressed()
    }

    predicate Has(i: Instr)
      requires fetchSize > 0
    {
      (if IsCrossword(i) then len - (fetchSize - 2) else len) >= i.Size()
    }

    function Remove(i: Instr): Iq
      requires fetchSize > 0
    {
      var cut := this.(len := len - i.Size()).Truncate(AddrIndex(i.NextAddr()));
      if i.IsJump() then cut.Jump() else cut
    }
  }

  // ---- The fetch size ----

  /** The smallest power of two that is at least `size` (itself one) and at least the request. */
  function FetchSizeFrom(size: nat, requested: nat): (r: nat)
    requires size > 0
    decreases requested - size
  {
    if size < requested then FetchSizeFrom(size * 2, requested) else size
  }

  lemma FetchSizeOk(requested: nat)
    ensures FetchSizeFrom(4, requested) >= 4
    ensures FetchSizeFrom(4, requested) >= requested
  {
    assert Pow2(2) == 4;
    var m := FetchSizeLeast(2, requested);
    Pow2Grows(2, m);
  }

  lemma {:induction false} FetchSizeLeast(k: nat, requested: nat) returns (m: nat)
    ensures m >= k && FetchSizeFrom(Pow2(k), requested) == Pow2(m)
    ensures Pow2(m) >= requested
    ensures m > k ==> Pow2(m - 1) < requested
    decreases requested - Pow2(k)
  {
    if Pow2(k) < requested {
      assert Pow2(k + 1) == Pow2(k) * 2;
      m := FetchSizeLeast(k + 1, requested);
    } else {
      m := k;
    }
  }

  // ---- Truncation ----

  /** Adding a whole number of blocks, or taking remainders first, does not change a remainder. */
  lemma ModAdd(a: int, b: int, m: nat)
    requires m > 0
    ensures (a + b) % m == ((a % m) + (b % m)) % m
  {
    var qa, qb := a / m, b / m;
    assert a + b == (a % m + b % m) + m * (qa + qb);
    ModBlocks(a % m + b % m, qa + qb, m);
  }

  lemma ModBlocks(a: int, q: int, m: nat)
    requires m > 0
    ensures (a + m * q) % m == a % m
  {
    var d := (a + m * q) / m - (a / m + q);
    assert m * d == a % m - (a + m * q) % m;
    MulApart(m, d);
  }

  lemma MulApart(m: int, d: int)
    requires m > 0
    ensures d >= 1 ==> m * d >= m
    ensures d <= -1 ==> m * d <= -m
  {
  }

  /** Truncation drops less than one block and leaves a count congruent to minus the index. */
  lemma TruncateAligns(q: Iq, index: nat)
    requires 0 < q.fetchSize && index < q.fetchSize
    ensures var r := q.Truncate(index);
            && q.len - q.fetchSize < r.len <= q.len
            && (r.len + index) % q.fetchSize == 0
            && r == q.(len := q.len - (q.len + index) % q.fetchSize)
  {
    var m := q.fetchSize;
    var r := q.Truncate(index);
    var sum := q.len % m + index;
    ModAdd(q.len, index, m);
    assert index % m == index by { ModSmall(index, m); }
    if sum >= m {
      ModBlocks(sum - m, 1, m);
      ModSmall(sum - m, m);
    } else {
      ModSmall(sum, m);
    }
    assert r.len + index == q.len + index - (q.len + index) % m;
    assert q.len + index == m * ((q.len + index) / m) + (q.len + index) % m;
    ModBlocks(0, (q.len + index) / m, m);
  }

  lemma ModSmall(a: int, m: nat)
    requires 0 <= a < m
    ensures a % m == a
  {
  }

  /** Cutting off an instruction costs its size, plus the bytes by which the count was out of step with the
      instruction's address. */
  lemma CutCost(q: Iq, i: Instr)
    requires q.fetchSize > 0
    ensures var cut := q.(len := q.len - i.Size()).Truncate(i.NextAddr() % q.fetchSize);
            && cut == q.(len := q.len - i.Size() - (q.len + i.address) % q.fetchSize)
            && (cut.len + i.NextAddr()) % q.fetchSize == 0
  {
    var m := q.fetchSize;
    var index := i.NextAddr() % m;
    var less := q.(len := q.len - i.Size());
    TruncateAligns(less, index);
    ModAdd(less.len, i.NextAddr(), m);
    ModAdd(less.len, index, m);
    ModSmall(index, m);
    assert less.len + i.NextAddr() == q.len + i.address;
    var cut := less.Truncate(index);
    ModAdd(cut.len, i.NextAddr(), m);
    ModAdd(cut.len, index, m);
  }

  /** Removing an instruction that is not a jump costs what cutting it off does: its size, for code that was
      fetched sequentially. */
  lemma RemoveCost(q: Iq, i: Instr)
    requires q.fetchSize > 0 && !i.IsJump()
    ensures q.Remove(i) == q.(len := q.len - i.Size() - (q.len + i.address) % q.fetchSize)
    ensures (q.Remove(i).len + i.NextAddr()) % q.fetchSize == 0
    ensures (q.len + i.address) % q.fetchSize == 0 ==> q.Remove(i).len == q.len - i.Size()
  {
    CutCost(q, i);
  }

  // ---- The lower bound ----

  /** The count never falls two blocks below zero, nor one block while a fetch can still be lost. */
  predicate Bounded(q: Iq) {
    && q.fetchSize >= 4
    && q.len + 2 * q.fetchSize >= 0
    && (q.newFetch ==> q.len + q.fetchSize >= 0)
  }

  /** Rounding down to a whole block does not pass a whole number of blocks. */
  lemma BlockFloor(len: int, m: nat, k: int)
    requires m > 0 && len >= k * m
    ensures len - len % m >= k * m
  {
    assert len - len % m == m * (len / m);
    assert m * (len / m - k) == len - len % m - k * m;
    MulApart(m, len / m - k);
  }

  lemma JumpBounded(q: Iq)
    requires Bounded(q)
    ensures Bounded(q.Jump()) && !q.Jump().newFetch
  {
    var m := q.fetchSize;
    var lost := if q.newFetch then q.(len := q.len - m, newFetch := false) else q;
    TruncateAligns(lost, 0);
    BlockFloor(lost.len, m, -2);
  }

  lemma RemoveBounded(q: Iq, i: Instr)
    requires Bounded(q) && q.Has(i)
    ensures Bounded(q.Remove(i)) && (q.Remove(i).newFetch ==> q.newFetch)
  {
    var m := q.fetchSize;
    var cut := q.(len := q.len - i.Size());
    TruncateAligns(cut, i.NextAddr() % m);
    var r := cut.Truncate(i.NextAddr() % m);
    assert r.len + m > 0;
    JumpBounded(r);
  }

  lemma OtherStepsBounded(q: Iq)
    requires Bounded(q)
    ensures Bounded(q.Fetch()) && q.Fetch().newFetch
    ensures Bounded(q.Flush())
  {
  }
}
