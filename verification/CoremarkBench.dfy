/**
 The list benchmark of verif/tests/custom/coremark/core_list_join.c: find, reverse, remove and undo, and
 the promise that the list ends as it began.
 */
module CoremarkBench {
  import opened Finite
  import opened CoremarkData
  import opened CoremarkSort
  import Crc = CoremarkCrc

  // ---- Lists as values ----

  datatype Item = Item(idx: int, data16: bv16)

  function ItemOf(d: Data): Item
    reads d
  {
    Item(d.idx, d.data16)
  }

  /** What the nodes hold. */
  ghost predicate Shows(nodes: seq<Node>, items: seq<Item>)
    reads nodes, set x | x in nodes :: x.info
  {
    |items| == |nodes| && forall k: nat :: k < |nodes| ==> ItemOf(nodes[k].info) == items[k]
  }

  lemma ShowsPermuted(nodes: seq<Node>, items: seq<Item>, order: seq<nat>)
    requires Shows(nodes, items) && forall k :: 0 <= k < |order| ==> order[k] < |nodes|
    ensures Shows(Permuted(nodes, order), Permuted(items, order))
  {
    hide ItemOf;
  }

  // ---- Find ----

  /** What `find` looks for: an index, or for a negative index a lower data byte. */
  predicate Matches(i: Item, idx: int, data16: bv16) {
    if idx >= 0 then i.idx == idx else i.data16 & 0xff == data16
  }

  /** The first place that matches, or the length if none does. */
  function FirstAt(items: seq<Item>, idx: int, data16: bv16): (r: nat)
    ensures r <= |items| && forall k :: 0 <= k < r ==> !Matches(items[k], idx, data16)
    ensures r < |items| ==> Matches(items[r], idx, data16)
  {
    if items == [] || Matches(items[0], idx, data16) then 0 else 1 + FirstAt(items[1..], idx, data16)
  }

  lemma FirstAtFrom(items: seq<Item>, at: nat, idx: int, data16: bv16)
    requires at <= |items| && at + FirstAt(items[at..], idx, data16) == FirstAt(items, idx, data16)
    ensures at < |items| && !Matches(items[at], idx, data16) ==>
              at + 1 + FirstAt(items[at + 1..], idx, data16) == FirstAt(items, idx, data16)
    ensures at == |items| || Matches(items[at], idx, data16) ==> at == FirstAt(items, idx, data16)
  {
    hide Matches;
    if at < |items| { assert items[at..][1..] == items[at + 1..]; }
  }

  /** Finds the first node that matches; null, past the end of the list, if none does. */
  method Find(list: Node?, idx: int, data16: bv16, ghost nodes: seq<Node>, ghost items: seq<Item>) returns (found: Node?)
    requires ListOf(list, nodes) && Shows(nodes, items)
    ensures found == At(nodes, FirstAt(items, idx, data16))
  {
    hide *;
    found := list;
    ghost var at: nat := 0;
    FindStarts(list, nodes, items, idx, data16);
    if idx >= 0 {
      while found != null && found.info.idx != idx
        invariant Finding(nodes, items, idx, data16, found, at)
        decreases |nodes| - at
      {
        FindNext(nodes, items, idx, data16, found, at, list);
        found, at := found.next, at + 1;
      }
    } else {
      while found != null && found.info.data16 & 0xff != data16
        invariant Finding(nodes, items, idx, data16, found, at)
        decreases |nodes| - at
      {
        FindNext(nodes, items, idx, data16, found, at, list);
        found, at := found.next, at + 1;
      }
    }
    FindEnds(nodes, items, idx, data16, found, at);
  }

  /** The loops of `find`: what they look for is not in front of place `at`. */
  ghost predicate Finding(nodes: seq<Node>, items: seq<Item>, idx: int, data16: bv16, found: Node?, at: nat) {
    && |items| == |nodes| && at <= |nodes| && found == At(nodes, at)
    && at + FirstAt(items[at..], idx, data16) == FirstAt(items, idx, data16)
  }

  lemma FindStarts(list: Node?, nodes: seq<Node>, items: seq<Item>, idx: int, data16: bv16)
    requires ListOf(list, nodes) && Shows(nodes, items)
    ensures Finding(nodes, items, idx, data16, list, 0)
  {
    hide FirstAt, Matches, Distinct;
    assert items[0..] == items;
  }

  lemma FindNext(nodes: seq<Node>, items: seq<Item>, idx: int, data16: bv16, found: Node, at: nat, list: Node?)
    requires ListOf(list, nodes) && Shows(nodes, items) && Finding(nodes, items, idx, data16, found, at)
    requires if idx >= 0 then found.info.idx != idx else found.info.data16 & 0xff != data16
    ensures at < |nodes| && Finding(nodes, items, idx, data16, found.next, at + 1)
  {
    hide FirstAt, Distinct;
    assert ItemOf(nodes[at].info) == items[at];
    FirstAtFrom(items, at, idx, data16);
  }

  lemma FindEnds(nodes: seq<Node>, items: seq<Item>, idx: int, data16: bv16, found: Node?, at: nat)
    requires Shows(nodes, items) && Finding(nodes, items, idx, data16, found, at)
    requires found != null ==> if idx >= 0 then found.info.idx == idx else found.info.data16 & 0xff == data16
    ensures found == At(nodes, FirstAt(items, idx, data16))
  {
    hide FirstAt, Distinct;
    if at < |nodes| { assert ItemOf(nodes[at].info) == items[at]; }
    FirstAtFrom(items, at, idx, data16);
  }

  // ---- Reverse ----

  function Backwards(n: nat): (r: seq<nat>)
    ensures |r| == n && forall k :: 0 <= k < n ==> r[k] == n - 1 - k
  {
    seq(n, k requires 0 <= k < n => n - 1 - k)
  }

  /** The node before a place of a sequence, null at its start. */
  function Before(s: seq<Node>, j: nat): Node?
    requires j <= |s|
  {
    if j > 0 then s[j - 1] else null
  }

  /** The first `i` nodes are turned round: `next` is the last of them and `list` the first of the rest. */
  ghost predicate Turned(nodes: seq<Node>, i: nat, list: Node?, next: Node?)
    reads nodes
  {
    && Distinct(nodes) && i <= |nodes| && list == At(nodes, i) && next == Before(nodes, i)
    && (forall k: nat :: k < i ==> nodes[k].next == Before(nodes, k))
    && (forall k: nat :: i <= k < |nodes| ==> nodes[k].next == At(nodes, k + 1))
  }

  lemma TurnedSize(nodes: seq<Node>, i: nat, list: Node?, next: Node?)
    requires Turned(nodes, i, list, next)
    ensures i <= |nodes| && (list == null <==> i == |nodes|)
  {
  }

  lemma NoneTurned(list: Node?, nodes: seq<Node>)
    requires ListOf(list, nodes)
    ensures Turned(nodes, 0, list, null)
  {
  }

  method Reverse(list0: Node?, ghost nodes: seq<Node>) returns (next: Node?)
    requires ListOf(list0, nodes)
    modifies nodes
    ensures ListOf(next, Permuted(nodes, Backwards(|nodes|)))
    ensures forall x | x in nodes :: x.info == old(x.info) && ItemOf(x.info) == old(ItemOf(x.info))
  {
    hide *;
    next := null;
    var list := list0;
    ghost var i: nat := 0;
    NoneTurned(list0, nodes);
    TurnedSize(nodes, i, list, next);
    while list != null
      invariant i <= |nodes| && Turned(nodes, i, list, next) && (list == null <==> i == |nodes|)
      invariant forall x | x in nodes :: x.info == old(x.info) && ItemOf(x.info) == old(ItemOf(x.info))
      decreases |nodes| - i
    {
      var tmp := TurnNode(list, next, nodes, i);
      next := list;
      list := tmp;
      i := i + 1;
      TurnedSize(nodes, i, list, next);
    }
    ReversedList(next, nodes);
  }

  /** Turns one node round, and returns the one that followed it. */
  method TurnNode(list: Node, next: Node?, ghost nodes: seq<Node>, ghost i: nat) returns (tmp: Node?)
    requires Turned(nodes, i, list, next)
    modifies nodes
    ensures Turned(nodes, i + 1, tmp, list)
    ensures forall x | x in nodes :: x.info == old(x.info) && ItemOf(x.info) == old(ItemOf(x.info))
  {
    assert nodes[i].next == At(nodes, i + 1);
    tmp := list.next;
    list.next := next;
  }

  /** A list that is not empty, whose items stay as they are. */
  method ReverseSome(list: Node, ghost nodes: seq<Node>, ghost items: seq<Item>) returns (next: Node)
    requires ListOf(list, nodes) && Shows(nodes, items)
    modifies nodes
    ensures ListOf(next, Permuted(nodes, Backwards(|nodes|)))
    ensures Shows(nodes, items)
    ensures forall x | x in nodes :: x.info == old(x.info) && ItemOf(x.info) == old(ItemOf(x.info))
  {
    hide Distinct, Perm, Turned;
    next := Reverse(list, nodes);
  }

  lemma ReversedList(head: Node?, nodes: seq<Node>)
    requires Turned(nodes, |nodes|, null, head)
    ensures ListOf(head, Permuted(nodes, Backwards(|nodes|)))
  {
    var r := Backwards(|nodes|);
    assert Perm(r, |nodes|);
    if nodes != [] {
      forall k: nat | k < |r| ensures nodes[r[k]].next == NodeAt(nodes, r, k + 1) {
        var i: nat := |nodes| - 1 - k;
        assert r[k] == i && nodes[i].next == Before(nodes, i);
        if i > 0 { assert r[k + 1] == i - 1; }
      }
      hide Distinct, Perm;
      ListAgain(head, nodes, r);
    }
  }

  // ---- Remove and undo ----

  /** Unlinks the successor of `item`, after the two have exchanged their items. */
  method Remove(item: Node) returns (ret: Node)
    requires item.next != null && item.next != item
    modifies item, item.next
    ensures ret == old(item.next)
    ensures item.info == old(item.next.info) && ret.info == old(item.info)
    ensures item.next == old(item.next.next) && ret.next == null
  {
    ret := item.next;
    var tmp := item.info;
    item.info := ret.info;
    ret.info := tmp;
    item.next := item.next.next;
    ret.next := null;
  }

  method UndoRemove(removed: Node, modified: Node) returns (ret: Node)
    requires removed != modified
    modifies removed, modified
    ensures ret == removed
    ensures removed.info == old(modified.info) && modified.info == old(removed.info)
    ensures removed.next == old(modified.next) && modified.next == removed
  {
    var tmp := removed.info;
    removed.info := modified.info;
    modified.info := tmp;
    removed.next := modified.next;
    modified.next := removed;
    ret := removed;
  }

  // ---- Moving the successor of a found node to the front ----

  /** The item behind place `f` moved up to place 1. */
  function MovedUp(n: nat, f: nat): (r: seq<nat>)
    requires f + 1 < n
    ensures |r| == n
    ensures forall k :: 0 <= k < n ==> r[k] == if k == 0 then 0 else if k == 1 then f + 1 else if k <= f + 1 then k - 1 else k
  {
    seq(n, k requires 0 <= k < n => if k == 0 then 0 else if k == 1 then f + 1 else if k <= f + 1 then k - 1 else k)
  }

  method MoveUp(list: Node, found: Node, ghost nodes: seq<Node>, ghost f: nat)
    requires ListOf(list, nodes) && f + 1 < |nodes| && found == nodes[f]
    modifies nodes
    ensures ListOf(list, Permuted(nodes, MovedUp(|nodes|, f)))
    ensures forall x | x in nodes :: x.info == old(x.info) && ItemOf(x.info) == old(ItemOf(x.info))
  {
    assert found.next == nodes[f + 1] && list.next == nodes[1];
    assert nodes[f + 1].next == At(nodes, f + 2);
    var finder := found.next;
    found.next := finder.next;
    finder.next := list.next;
    list.next := finder;
    MovedUpList(list, nodes, f);
  }

  lemma MovedUpList(list: Node, nodes: seq<Node>, f: nat)
    requires Distinct(nodes) && f + 1 < |nodes| && list == nodes[0] && list.next == nodes[f + 1]
    requires f > 0 ==> nodes[f].next == At(nodes, f + 2)
    requires nodes[f + 1].next == if f > 0 then nodes[1] else At(nodes, 2)
    requires forall k: nat :: 0 < k < |nodes| && k != f && k != f + 1 ==> nodes[k].next == At(nodes, k + 1)
    ensures ListOf(list, Permuted(nodes, MovedUp(|nodes|, f)))
  {
    hide Distinct, Perm, NodeAt, At;
    var r := MovedUp(|nodes|, f);
    MovedUpPerm(|nodes|, f);
    forall k: nat | k < |r| ensures nodes[r[k]].next == NodeAt(nodes, r, k + 1) {
      MovedUpLink(list, nodes, f, k);
    }
    ListAgain(list, nodes, r);
  }

  lemma MovedUpLink(list: Node, nodes: seq<Node>, f: nat, k: nat)
    requires f + 1 < |nodes| && list == nodes[0] && list.next == nodes[f + 1] && k < |nodes|
    requires f > 0 ==> nodes[f].next == At(nodes, f + 2)
    requires nodes[f + 1].next == if f > 0 then nodes[1] else At(nodes, 2)
    requires forall k: nat :: 0 < k < |nodes| && k != f && k != f + 1 ==> nodes[k].next == At(nodes, k + 1)
    requires Perm(MovedUp(|nodes|, f), |nodes|)
    ensures nodes[MovedUp(|nodes|, f)[k]].next == NodeAt(nodes, MovedUp(|nodes|, f), k + 1)
  {
    hide Distinct, Perm;
    var r := MovedUp(|nodes|, f);
    if k == 0 {
      assert r[1] == f + 1;
    } else if k == 1 {
      if 2 < |nodes| { assert r[2] == if f > 0 then 1 else 2; }
    } else if k <= f + 1 {
      assert r[k] == k - 1;
      if k + 1 < |nodes| { assert r[k + 1] == if k + 1 <= f + 1 then k else k + 1; }
    } else {
      assert r[k] == k;
      if k + 1 < |nodes| { assert r[k + 1] == k + 1; }
    }
  }

  // ---- The benchmark ----

  /** The same nodes, in some order. */
  ghost predicate Shuffled(now: seq<Node>, nodes: seq<Node>) {
    |now| == |nodes| && Distinct(now) && forall k :: 0 <= k < |now| ==> now[k] in nodes
  }

  lemma ShuffledOn(now: seq<Node>, order: seq<nat>, nodes: seq<Node>)
    requires Shuffled(now, nodes) && Perm(order, |now|)
    ensures Shuffled(Permuted(now, order), nodes)
  {
  }

  lemma ShuffledOnto(now: seq<Node>, nodes: seq<Node>)
    requires Shuffled(now, nodes) && Distinct(nodes)
    ensures forall x :: x in nodes ==> x in now
  {
    DistinctSize(now);
    DistinctSize(nodes);
    var a, b := set x | x in now, set x | x in nodes;
    SubsetSize(a, b);
    forall x | x in nodes ensures x in now { assert x in b; }
  }

  function Reversed<T>(s: seq<T>): (r: seq<T>)
    ensures |r| == |s|
  {
    Permuted(s, Backwards(|s|))
  }

  function Raised<T>(s: seq<T>, f: nat): (r: seq<T>)
    requires f + 1 < |s|
    ensures |r| == |s|
  {
    Permuted(s, MovedUp(|s|, f))
  }

  /** The order after a search that found place `at`, or nothing: the list is reversed, and what then
      follows the found node moves to the second place. */
  function AfterSearch<T>(s: seq<T>, at: nat): (r: seq<T>)
    requires at <= |s|
    ensures |r| == |s|
  {
    if 0 < at < |s| then Raised(Reversed(s), |s| - 1 - at) else Reversed(s)
  }

  lemma AfterSearchShuffled(now: seq<Node>, nodes: seq<Node>, at: nat)
    requires Shuffled(now, nodes) && at <= |now|
    ensures Shuffled(AfterSearch(now, at), nodes) && |AfterSearch(now, at)| == |now| == |nodes|
    ensures forall k :: 0 <= k < |now| ==> now[k] in nodes
  {
    var n := |now|;
    BackwardsPerm(n);
    ShuffledOn(now, Backwards(n), nodes);
    if 0 < at < n {
      MovedUpPerm(n, n - 1 - at);
      ShuffledOn(Permuted(now, Backwards(n)), MovedUp(n, n - 1 - at), nodes);
    }
  }

  lemma ReversedIn(now: seq<Node>, nodes: seq<Node>)
    requires Shuffled(now, nodes)
    ensures forall k :: 0 <= k < |now| ==> Reversed(now)[k] in nodes
  {
    BackwardsPerm(|now|);
    ShuffledOn(now, Backwards(|now|), nodes);
  }

  lemma ShowsSize(now: seq<Node>, items: seq<Item>)
    requires Shows(now, items)
    ensures |items| == |now|
  {
  }

  /** The bit that a search adds to the result: of the found item, or else of what is now the second one. */
  function FoundBit(items: seq<Item>, at: nat): bv16
    requires |items| > 1 && at <= |items|
  {
    if at == |items| then (items[|items| - 2].data16 >> 8) & 1
    else if items[at].data16 & 1 != 0 then (items[at].data16 >> 9) & 1
    else 0
  }

  /** One search. */
  method Search(list0: Node, idx: int, data16: bv16, ghost now0: seq<Node>, ghost nodes: seq<Node>, ghost items: seq<Item>)
    returns (list: Node, hit: bool, bit: bv16, ghost now: seq<Node>)
    requires ListOf(list0, now0) && Shuffled(now0, nodes) && |nodes| > 1 && Shows(now0, items)
    modifies nodes
    ensures var at := FirstAt(items, idx, data16);
            && |items| == |now0| > 1
            && now == AfterSearch(now0, at) && Shows(now, AfterSearch(items, at))
            && hit == (at < |items|) && bit == FoundBit(items, at)
    ensures ListOf(list, now) && Shuffled(now, nodes)
    ensures forall x | x in nodes :: x.info == old(x.info) && ItemOf(x.info) == old(ItemOf(x.info))
  {
    hide *;
    ghost var at := FirstAt(items, idx, data16);
    ghost var n := |now0|;
    ShowsSize(now0, items);
    AfterSearchShuffled(now0, nodes, at);
    ReversedIn(now0, nodes);
    var found;
    list, found, bit := SearchAndTurn(list0, idx, data16, now0, items, at);
    hit := found != null;
    if hit {
      AttachNext(list, found, Reversed(now0), Reversed(items), n - 1 - at);
    }
    now := AfterSearch(now0, at);
    AfterSearchIs(now0, at);
    AfterSearchIs(items, at);
  }

  lemma ShowsRaised(now: seq<Node>, items: seq<Item>, f: nat)
    requires Shows(now, items) && f + 1 < |now|
    ensures |now| == |items| && Shows(Raised(now, f), Raised(items, f))
  {
    MovedUpPerm(|now|, f);
    ShowsPermuted(now, items, MovedUp(|now|, f));
  }

  lemma AfterSearchIs<T>(s: seq<T>, at: nat)
    requires at <= |s|
    ensures AfterSearch(s, at) == if 0 < at < |s| then Raised(Reversed(s), |s| - 1 - at) else Reversed(s)
  {
  }

  /** Looks for a match, reverses the list, and takes a bit from what it found. */
  method SearchAndTurn(list0: Node, idx: int, data16: bv16, ghost now0: seq<Node>, ghost items: seq<Item>, ghost at: nat)
    returns (list: Node, found: Node?, bit: bv16)
    requires ListOf(list0, now0) && |now0| == |items| > 1 && Shows(now0, items) && at == FirstAt(items, idx, data16)
    modifies now0
    ensures var r, f := Reversed(now0), |now0| - 1 - at;
            && ListOf(list, r) && Shows(r, Reversed(items))
            && -1 <= f && found == if f == -1 then null else r[f]
    ensures bit == FoundBit(items, at)
    ensures forall x | x in now0 :: x.info == old(x.info) && ItemOf(x.info) == old(ItemOf(x.info))
  {
    hide Distinct, Matches, FirstAt, Perm, ListOf, Shows, FoundBit, BitOf;
    found := Find(list0, idx, data16, now0, items);
    list := ReverseSome(list0, now0, items);
    ghost var n := |now0|;
    ShowsPermuted(now0, items, Backwards(n));
    AfterSearchBit(items, at);
    bit := SearchBit(list, found, Reversed(now0), Reversed(items), n - 1 - at);
  }

  lemma AfterSearchBit(items: seq<Item>, at: nat)
    requires |items| > 1 && at <= |items|
    ensures FoundBit(items, at) == BitOf(Reversed(items), |items| - 1 - at)
  {
  }

  /** The bit for the item found at place `f` of the reversed list, or for the second item if `f` is -1. */
  function BitOf(items: seq<Item>, f: int): bv16
    requires |items| > 1 && -1 <= f < |items|
  {
    if f == -1 then (items[1].data16 >> 8) & 1
    else if items[f].data16 & 1 != 0 then (items[f].data16 >> 9) & 1
    else 0
  }

  method SearchBit(list: Node, found: Node?, ghost now: seq<Node>, ghost items: seq<Item>, ghost f: int)
    returns (bit: bv16)
    requires ListOf(list, now) && |now| == |items| > 1 && Shows(now, items) && -1 <= f < |now|
    requires found == if f == -1 then null else now[f]
    ensures bit == BitOf(items, f)
  {
    hide Distinct;
    bit := 0;
    if found == null {
      assert list.next == now[1] && ItemOf(now[1].info) == items[1];
      bit := (list.next.info.data16 >> 8) & 1;
    } else {
      assert ItemOf(now[f].info) == items[f];
      if found.info.data16 & 0x1 != 0 {
        bit := (found.info.data16 >> 9) & 1;
      }
    }
  }

  lemma ListHead(list: Node?, nodes: seq<Node>)
    requires ListOf(list, nodes) && |nodes| > 0
    ensures list == nodes[0]
  {
  }

  lemma ListLink(list: Node?, nodes: seq<Node>, k: nat)
    requires ListOf(list, nodes) && k < |nodes|
    ensures nodes[k].next == At(nodes, k + 1)
  {
  }

  /** Moves what follows the found node, if anything, to the second place. */
  method AttachNext(list: Node, found: Node, ghost now: seq<Node>, ghost items: seq<Item>, ghost f: nat)
    requires ListOf(list, now) && f < |now| && found == now[f] && Shows(now, items)
    modifies now
    ensures |items| == |now|
    ensures ListOf(list, if f + 1 < |now| then Raised(now, f) else now)
    ensures Shows(if f + 1 < |now| then Raised(now, f) else now, if f + 1 < |now| then Raised(items, f) else items)
    ensures forall x | x in now :: x.info == old(x.info) && ItemOf(x.info) == old(ItemOf(x.info))
  {
    hide Distinct, Perm, ListOf;
    ListLink(list, now, f);
    ShowsSize(now, items);
    if found.next != null {
      MoveUp(list, found, now, f);
    }
    if f + 1 < |now| { ShowsRaised(now, items, f); }
  }

  lemma BackwardsPerm(n: nat)
    ensures Perm(Backwards(n), n)
  {
  }

  lemma MovedUpPerm(n: nat, f: nat)
    requires f + 1 < n
    ensures Perm(MovedUp(n, f), n)
  {
  }

  ghost function CrcTimes(data16: bv16, n: nat, crc: bv16): bv16 {
    if n == 0 then crc else CrcTimes(data16, n - 1, Crc.Step16(data16, crc))
  }

  /** Goes through the list from place `at`, and at every node feeds the data of the first one to the CRC. */
  method CrcFrom(list: Node, finder0: Node?, retval0: bv16, ghost now: seq<Node>, ghost at: nat) returns (retval: bv16)
    requires ListOf(list, now) && finder0 == At(now, at) && at <= |now|
    ensures retval == CrcTimes(list.info.data16, |now| - at, retval0)
  {
    hide Crc.Step16;
    retval := retval0;
    var finder := finder0;
    ghost var k := at;
    while finder != null
      invariant finder == At(now, k) && at <= k <= |now|
      invariant CrcTimes(list.info.data16, |now| - k, retval) == CrcTimes(list.info.data16, |now| - at, retval0)
      decreases |now| - k
    {
      retval := Crc.Crcu16(list.info.data16, retval);
      finder := finder.next;
      k := k + 1;
    }
  }

  /** What the sample adds to the CRC: the first item once for each node from the one that is found in the
      list without its second item, or else from the second. */
  ghost function Sampled(items: seq<Item>, idx: int, data16: bv16, crc: bv16): bv16
    requires |items| >= 3
  {
    var rest := items[..1] + items[2..];
    var at := FirstAt(rest, idx, data16);
    CrcTimes(items[0].data16, |rest| - (if at < |rest| then at else 1), crc)
  }

  /** Takes out the second item, samples the list, and puts it back: nothing is left changed. */
  method SampleWithoutOne(list: Node, idx: int, data16: bv16, retval0: bv16, ghost now: seq<Node>, ghost items: seq<Item>)
    returns (retval: bv16)
    requires ListOf(list, now) && |now| == |items| >= 3 && Shows(now, items)
    modifies now
    ensures ListOf(list, now) && Shows(now, items)
    ensures retval == Sampled(items, idx, data16, retval0)
    ensures forall x | x in now :: x.info == old(x.info) && ItemOf(x.info) == old(ItemOf(x.info))
  {
    hide *;
    ghost var rest, left := now[..2] + now[3..], items[..1] + items[2..];
    var remover := TakeOut(list, now, items);
    WithoutOne(list, now, rest, items, left);
    var finder := Find(list, idx, data16, rest, left);
    retval := SampleFrom(list, finder, retval0, rest, left, idx, data16, items);
    OutNodes(list, now, items);
    remover := PutBack(list, remover, now, items);
  }

  /** The list while the second item is out: its node stays, holds the third item, and the third node is
      unlinked. */
  ghost predicate Out(list: Node, now: seq<Node>, items: seq<Item>)
    requires |now| == |items| >= 3
    reads now, set x | x in now :: x.info
  {
    && Distinct(now) && list == now[0]
    && list.next == now[1] && now[1].next == At(now, 3) && now[2].next == null
    && (forall k: nat :: 2 < k < |now| ==> now[k].next == At(now, k + 1))
    && ItemOf(now[0].info) == items[0] && ItemOf(now[1].info) == items[2] && ItemOf(now[2].info) == items[1]
    && (forall k: nat :: 2 < k < |now| ==> ItemOf(now[k].info) == items[k])
  }

  lemma OutNodes(list: Node, now: seq<Node>, items: seq<Item>)
    requires |now| == |items| >= 3 && Out(list, now, items)
    ensures list.next == now[1] && now[1] != now[2]
  {
  }

  method TakeOut(list: Node, ghost now: seq<Node>, ghost items: seq<Item>) returns (removed: Node)
    requires ListOf(list, now) && |now| == |items| >= 3 && Shows(now, items)
    modifies now
    ensures Out(list, now, items) && removed == now[2]
    ensures now[1].info == old(now[2].info) && now[2].info == old(now[1].info)
    ensures forall k :: 0 <= k < |now| && k != 1 && k != 2 ==> now[k].info == old(now[k].info)
    ensures forall k :: 0 <= k < |now| ==> ItemOf(old(now[k].info)) == old(ItemOf(now[k].info))
  {
    assert list.next == now[1] && now[1].next == now[2] && now[2].next == At(now, 3);
    assert ItemOf(now[0].info) == items[0] && ItemOf(now[1].info) == items[1] && ItemOf(now[2].info) == items[2];
    removed := Remove(list.next);
  }

  method PutBack(list: Node, removed: Node, ghost now: seq<Node>, ghost items: seq<Item>) returns (remover: Node)
    requires |now| == |items| >= 3 && Out(list, now, items) && removed == now[2]
    requires list.next == now[1] && now[1] != now[2]
    modifies now
    ensures ListOf(list, now) && Shows(now, items)
    ensures now[1].info == old(now[2].info) && now[2].info == old(now[1].info)
    ensures forall k :: 0 <= k < |now| && k != 1 && k != 2 ==> now[k].info == old(now[k].info)
    ensures forall k :: 0 <= k < |now| ==> ItemOf(old(now[k].info)) == old(ItemOf(now[k].info))
  {
    remover := UndoRemove(removed, list.next);
    forall k: nat | k < |now| ensures now[k].next == At(now, k + 1) && ItemOf(now[k].info) == items[k] {
    }
  }

  method SampleFrom(list: Node, found: Node?, retval0: bv16, ghost rest: seq<Node>, ghost left: seq<Item>,
                    ghost idx: int, ghost data16: bv16, ghost items: seq<Item>)
    returns (retval: bv16)
    requires |items| >= 3 && left == items[..1] + items[2..] && |rest| == |left|
    requires ListOf(list, rest) && Shows(rest, left) && found == At(rest, FirstAt(left, idx, data16))
    ensures retval == Sampled(items, idx, data16, retval0)
  {
    hide FirstAt, CrcTimes, Matches, Distinct;
    var finder := found;
    ghost var at := FirstAt(left, idx, data16);
    if finder == null {
      finder := list.next;
      at := 1;
    }
    assert ItemOf(rest[0].info) == left[0] == items[0];
    retval := CrcFrom(list, finder, retval0, rest, at);
  }

  lemma WithoutOne(list: Node, now: seq<Node>, rest: seq<Node>, items: seq<Item>, left: seq<Item>)
    requires |now| == |items| >= 3 && Out(list, now, items)
    requires rest == now[..2] + now[3..] && left == items[..1] + items[2..]
    ensures ListOf(list, rest) && Shows(rest, left)
  {
    hide Distinct;
    DistinctWithout(now, rest);
    forall k: nat | k < |rest| ensures rest[k].next == At(rest, k + 1) && ItemOf(rest[k].info) == left[k] {
      if k >= 2 { assert rest[k] == now[k + 1] && left[k] == items[k + 1]; }
    }
  }

  lemma DistinctWithout(now: seq<Node>, rest: seq<Node>)
    requires Distinct(now) && |now| >= 3 && rest == now[..2] + now[3..]
    ensures Distinct(rest)
  {
    assert forall k :: 2 <= k < |rest| ==> rest[k] == now[k + 1];
  }

  // ---- Sorting within the benchmark ----

  ghost function Infos(now: seq<Node>): (r: seq<Data>)
    reads now
    ensures Holds(now, r)
  {
    seq(|now|, k requires 0 <= k < |now| reads now => now[k].info)
  }

  function KeyOf(cmp: Cmp, i: Item): int {
    match cmp
    case Complex => CachedKey(i.data16) as int
    case ByIdx => i.idx
  }

  predicate Seen(cmp: Cmp, resetting: bool, i: Item) {
    match cmp
    case Complex => Cached(i.data16)
    case ByIdx => resetting ==> Clean(i.data16)
  }

  /** The items in a new order, in which their keys do not decrease and equal keys keep their old order.
      Every item has been seen by the comparator and has kept its index and its backup byte. */
  ghost predicate Resorted(cmp: Cmp, resetting: bool, before: seq<Item>, after: seq<Item>, order: seq<nat>) {
    && |after| == |before| && Perm(order, |before|)
    && (forall k :: 0 <= k < |after| ==>
          && after[k].idx == before[order[k]].idx && High(after[k].data16) == High(before[order[k]].data16)
          && Seen(cmp, resetting, after[k]))
    && (forall i, j :: 0 <= i < j < |after| ==>
          && KeyOf(cmp, after[i]) <= KeyOf(cmp, after[j])
          && (KeyOf(cmp, after[i]) == KeyOf(cmp, after[j]) ==> order[i] < order[j]))
  }

  ghost function Read(now: seq<Node>): (r: seq<Item>)
    reads now, set x | x in now :: x.info
    ensures Shows(now, r)
  {
    seq(|now|, k requires 0 <= k < |now| reads now, set x | x in now :: x.info => ItemOf(now[k].info))
  }

  /** Sorts the list, whose order is `now0`. */
  method Sort(list0: Node, cmp: Cmp, res: Results?, ghost now0: seq<Node>, ghost before: seq<Item>,
              ghost nodes: seq<Node>, ghost infos: seq<Data>)
    returns (list: Node, ghost now: seq<Node>, ghost after: seq<Item>, ghost order: seq<nat>)
    requires ListOf(list0, now0) && Shows(now0, before)
    requires Shuffled(now0, nodes) && Distinct(nodes) && Holds(nodes, infos) && |nodes| > 1
    requires cmp.Complex? ==> res != null
    modifies nodes, infos, res
    ensures ListOf(list, now) && Shuffled(now, nodes) && Holds(nodes, infos) && Shows(now, after)
    ensures Resorted(cmp, res == null, before, after, order)
    ensures forall d | d in infos :: Known(cmp, res == null, d)
    ensures forall d | d in infos :: d.idx == old(d.idx) && High(d.data16) == High(old(d.data16))
  {
    hide *;
    ghost var data := Infos(now0);
    SameItems(now0, nodes, data, infos);
    ItemsShown(now0, data, before);
    HeldPairs(now0, data, nodes, infos);
    ShuffledFits(now0, nodes);
    list, order := MergeSort(list0, cmp, res, now0, data);
    PermBelow(order, |now0|);
    now := Permuted(now0, order);
    ShuffledOn(now0, order, nodes);
    after := Read(now);
    PairsHeld(now0, data, nodes, infos);
    ItemsAfter(now0, data, order, after);
    IsResorted(cmp, res == null, data, before, after, order);
  }

  lemma PermBelow(order: seq<nat>, n: nat)
    requires Perm(order, n)
    ensures |order| == n && forall k :: 0 <= k < n ==> order[k] < n
  {
  }

  lemma ItemsShown(now: seq<Node>, data: seq<Data>, items: seq<Item>)
    requires Holds(now, data) && Shows(now, items)
    ensures |items| == |data| == |now| && forall k :: 0 <= k < |data| ==> items[k] == Item(data[k].idx, data[k].data16)
  {
  }

  lemma ItemsAfter(now0: seq<Node>, data: seq<Data>, order: seq<nat>, after: seq<Item>)
    requires Holds(now0, data) && Perm(order, |now0|) && Shows(Permuted(now0, order), after)
    ensures |after| == |data| && forall k :: 0 <= k < |data| ==> after[k] == ItemOf(data[order[k]])
  {
    hide ItemOf, Distinct;
  }

  /** The same nodes are listed with the same items. */
  ghost predicate SamePairs(now: seq<Node>, data: seq<Data>, nodes: seq<Node>, infos: seq<Data>) {
    && |now| == |data| && |nodes| == |infos|
    && forall j, k :: 0 <= j < |now| && 0 <= k < |nodes| && now[j] == nodes[k] ==> data[j] == infos[k]
  }

  lemma HeldPairs(now: seq<Node>, data: seq<Data>, nodes: seq<Node>, infos: seq<Data>)
    requires Holds(now, data) && Holds(nodes, infos)
    ensures SamePairs(now, data, nodes, infos)
  {
  }

  lemma PairsHeld(now: seq<Node>, data: seq<Data>, nodes: seq<Node>, infos: seq<Data>)
    requires Shuffled(now, nodes) && Distinct(nodes) && SamePairs(now, data, nodes, infos) && Holds(now, data)
    ensures Holds(nodes, infos)
  {
    ShuffledOnto(now, nodes);
    hide Distinct, Shuffled;
    forall k | 0 <= k < |nodes| ensures nodes[k].info == infos[k] {
      assert nodes[k] in now;
    }
  }

  lemma IsResorted(cmp: Cmp, resetting: bool, data: seq<Data>, before: seq<Item>, after: seq<Item>, order: seq<nat>)
    requires Perm(order, |data|) && |before| == |data| == |after| && SortedStably(cmp, data, order)
    requires forall k :: 0 <= k < |data| ==>
               before[k].idx == data[k].idx && High(before[k].data16) == High(data[k].data16) && Known(cmp, resetting, data[k])
    requires forall k :: 0 <= k < |data| ==> after[k] == ItemOf(data[order[k]])
    ensures Resorted(cmp, resetting, before, after, order)
  {
    hide High, Cached, CachedKey, Clean;
  }

  lemma SameItems(now: seq<Node>, nodes: seq<Node>, items: seq<Data>, infos: seq<Data>)
    requires Shuffled(now, nodes) && Distinct(nodes) && Holds(now, items) && Holds(nodes, infos)
    ensures forall d :: d in infos <==> d in items
    ensures forall k :: 0 <= k < |items| ==> items[k] in infos
  {
    ShuffledOnto(now, nodes);
    hide Distinct;
    forall d | d in infos ensures d in items {
      var k :| 0 <= k < |infos| && infos[k] == d;
      assert nodes[k] in now;
    }
    forall d | d in items ensures d in infos {
      var k :| 0 <= k < |items| && items[k] == d;
      assert now[k] in nodes;
    }
  }

  // ---- One order only ----

  ghost function Place(x: Node, nodes: seq<Node>): (r: nat)
    requires x in nodes
    ensures r < |nodes| && nodes[r] == x
  {
    var i: nat :| i < |nodes| && nodes[i] == x;
    i
  }

  /** Strictly increasing places below `n`, `n` of them, are all the places. */
  lemma {:induction false} IncreasingIsSame(p: seq<nat>, k: nat)
    requires forall i, j :: 0 <= i < j < |p| ==> p[i] < p[j]
    requires forall i :: 0 <= i < |p| ==> p[i] < |p|
    requires k < |p|
    ensures p[k] == k
  {
    AtLeast(p, k);
    AtMost(p, k);
  }

  lemma {:induction false} AtLeast(p: seq<nat>, k: nat)
    requires forall i, j :: 0 <= i < j < |p| ==> p[i] < p[j]
    requires k < |p|
    ensures p[k] >= k
  {
    if k > 0 { AtLeast(p, k - 1); }
  }

  lemma {:induction false} AtMost(p: seq<nat>, k: nat)
    requires forall i, j :: 0 <= i < j < |p| ==> p[i] < p[j]
    requires forall i :: 0 <= i < |p| ==> p[i] < |p|
    requires k < |p|
    ensures p[k] <= k
    decreases |p| - k
  {
    if k + 1 < |p| { AtMost(p, k + 1); }
  }

  /** Distinct indices have one sorted order. */
  lemma SortedAgain(now: seq<Node>, nodes: seq<Node>)
    requires Shuffled(now, nodes)
    requires forall i, j :: 0 <= i < j < |nodes| ==> nodes[i].info.idx < nodes[j].info.idx
    requires forall i, j :: 0 <= i < j < |now| ==> now[i].info.idx <= now[j].info.idx
    ensures now == nodes
  {
    var p := seq(|now|, k requires 0 <= k < |now| => Place(now[k], nodes));
    forall i, j | 0 <= i < j < |p| ensures p[i] < p[j] {
      assert nodes[p[i]] == now[i] && nodes[p[j]] == now[j];
      assert now[i] != now[j];
      assert now[i].info.idx <= now[j].info.idx;
    }
    forall k | 0 <= k < |now| ensures now[k] == nodes[k] {
      IncreasingIsSame(p, k);
      assert nodes[p[k]] == now[k];
    }
  }

  lemma RestoredFrom(new_: bv16, was: bv16)
    requires Clean(new_) && High(new_) == High(was)
    ensures new_ == Restored(was)
  {
    hide *;
    RestoreData(was);
    CleanDetermined(new_, Restored(was));
  }

  // ---- The whole benchmark ----

  /** An index counts up, and wraps round as a 16-bit number. */
  function NextIdx(idx: int): int {
    if idx < 0 then idx else if idx == 0x7fff then -0x8000 else idx + 1
  }

  /** The variables of the searching loop. */
  datatype Searching = Searching(items: seq<Item>, idx: int, data16: bv16, found: bv16, missed: bv16, retval: bv16)

  /** The counters are 16-bit numbers, and wrap round. */
  function Inc(n: bv16): bv16 { n + 1 }

  function Sum(a: bv16, b: bv16): bv16 { a + b }

  function Less(a: bv16, b: bv16): bv16 { a - b }

  function FourTimes(a: bv16): bv16 { a * 4 }

  function Score(retval: bv16, found: bv16, missed: bv16): bv16 { Sum(retval, Less(FourTimes(found), missed)) }

  function NumberByte(i: nat): bv16 { (i % 0x100) as bv16 }

  /** The search with number `i`, which looks for the lower byte of its number, or for an index. */
  function SearchOnce(s: Searching, i: nat): (r: Searching)
    requires |s.items| > 1
    ensures |r.items| == |s.items|
  {
    var data16 := NumberByte(i);
    var at := FirstAt(s.items, s.idx, data16);
    var hit := at < |s.items|;
    Searching(AfterSearch(s.items, at), NextIdx(s.idx), data16,
              if hit then Inc(s.found) else s.found, if hit then s.missed else Inc(s.missed),
              Sum(s.retval, FoundBit(s.items, at)))
  }

  function Searches(s: Searching, n: nat): (r: Searching)
    requires |s.items| > 1
    ensures |r.items| == |s.items|
  {
    if n == 0 then s else SearchOnce(Searches(s, n - 1), n - 1)
  }

  /** All the searches on a list, and the result they leave. */
  function Searched(items: seq<Item>, findNum: int, finderIdx: int, junk: bv16): (r: Searching)
    requires |items| > 1
    ensures |r.items| == |items|
  {
    var s := Searches(Searching(items, finderIdx, junk, 0, 0, 0), if findNum < 0 then 0 else findNum);
    s.(retval := Score(s.retval, s.found, s.missed))
  }

  method SearchAll(list0: Node, findNum: int, finderIdx: int, junk: bv16, ghost nodes: seq<Node>, ghost items: seq<Item>)
    returns (list: Node, idx: int, data16: bv16, retval: bv16, ghost now: seq<Node>)
    requires ListOf(list0, nodes) && |nodes| == |items| > 1 && Shows(nodes, items)
    modifies nodes
    ensures ListOf(list, now) && Shuffled(now, nodes)
    ensures var s := Searched(items, findNum, finderIdx, junk);
            Shows(now, s.items) && idx == s.idx && data16 == s.data16 && retval == s.retval
    ensures forall x | x in nodes :: x.info == old(x.info) && ItemOf(x.info) == old(ItemOf(x.info))
  {
    hide *;
    ShuffledSelf(list0, nodes);
    list, now := list0, nodes;
    idx, data16, retval := finderIdx, junk, 0;
    var found: bv16, missed: bv16 := 0, 0;
    var i: nat := 0;
    ghost var start := Searching(items, finderIdx, junk, 0, 0, 0);
    SearchesNext(start, 0);
    while i < findNum
      invariant i <= findNum || i == 0
      invariant ListOf(list, now) && Shuffled(now, nodes)
      invariant var s := Searches(start, i);
                s == Searching(s.items, idx, data16, found, missed, retval) && Shows(now, s.items)
      invariant forall x | x in nodes :: x.info == old(x.info) && ItemOf(x.info) == old(ItemOf(x.info))
    {
      ghost var s := Searches(start, i);
      SearchesNext(start, i);
      data16 := NumberByte(i);
      var hit, bit;
      list, hit, bit, now := Search(list, idx, data16, now, nodes, s.items);
      if hit { found := Inc(found); } else { missed := Inc(missed); }
      retval := Sum(retval, bit);
      idx := NextIdx(idx);
      i := i + 1;
    }
    retval := Score(retval, found, missed);
    SearchedIs(items, findNum, finderIdx, junk, i);
  }

  lemma SearchesNext(s: Searching, n: nat)
    requires |s.items| > 1
    ensures Searches(s, 0) == s && Searches(s, n + 1) == SearchOnce(Searches(s, n), n)
    ensures var u, v := Searches(s, n), Searches(s, n + 1);
            var at := FirstAt(u.items, u.idx, NumberByte(n));
            && |u.items| == |s.items| && at <= |u.items|
            && v == Searching(AfterSearch(u.items, at), NextIdx(u.idx), NumberByte(n),
                              if at < |u.items| then Inc(u.found) else u.found,
                              if at < |u.items| then u.missed else Inc(u.missed),
                              Sum(u.retval, FoundBit(u.items, at)))
  {
    hide FirstAt, AfterSearch, FoundBit, NextIdx, NumberByte, Inc, Sum;
  }

  lemma SearchedIs(items: seq<Item>, findNum: int, finderIdx: int, junk: bv16, n: nat)
    requires |items| > 1 && n == if findNum < 0 then 0 else findNum
    ensures var s := Searches(Searching(items, finderIdx, junk, 0, 0, 0), n);
            Searched(items, findNum, finderIdx, junk) == s.(retval := Score(s.retval, s.found, s.missed))
  {
    hide Searches, Score;
  }

  lemma ShuffledSelf(list: Node, nodes: seq<Node>)
    requires ListOf(list, nodes)
    ensures Shuffled(nodes, nodes)
  {
  }

  /** The list at the sample: after the searches, and sorted by content if an index above 0 was asked for. */
  ghost predicate SampledList(searched: seq<Item>, finderIdx: int, mid: seq<Item>, order: seq<nat>) {
    if finderIdx > 0 then Resorted(Complex, false, searched, mid, order) else mid == searched
  }

  /** All that comes before the last sort: it may rearrange the nodes and spoil the lower data bytes. */
  method Churn(list0: Node, res: Results, findNum: int, finderIdx: int, junk: bv16,
               ghost nodes: seq<Node>, ghost infos: seq<Data>, ghost items: seq<Item>)
    returns (list: Node, retval: bv16, ghost now: seq<Node>, ghost mid: seq<Item>, ghost order: seq<nat>)
    requires ListOf(list0, nodes) && Holds(nodes, infos) && |nodes| == |items| >= 3 && Shows(nodes, items)
    modifies nodes, infos, res
    ensures ListOf(list, now) && Shuffled(now, nodes) && Holds(nodes, infos) && Distinct(nodes)
    ensures var s := Searched(items, findNum, finderIdx, junk);
            && |mid| == |items| && SampledList(s.items, finderIdx, mid, order) && Shows(now, mid)
            && retval == Sampled(mid, s.idx, s.data16, s.retval)
    ensures forall d | d in infos :: d.idx == old(d.idx) && High(d.data16) == High(old(d.data16))
  {
    hide High, Known, Key, ListOf, Distinct, NextIdx, Searched, Sampled, Resorted, Shows, Shuffled;
    DistinctNodes(list0, nodes);
    ghost var s := Searched(items, findNum, finderIdx, junk);
    var idx, data16;
    list, idx, data16, retval, now := SearchAll(list0, findNum, finderIdx, junk, nodes, items);
    mid, order := s.items, [];
    if finderIdx > 0 {
      list, now, mid, order := Sort(list, Complex, res, now, mid, nodes, infos);
    }
    ShuffledFits(now, nodes);
    ShowsSize(now, mid);
    retval := SampleWithoutOne(list, idx, data16, retval, now, mid);
  }

  lemma ShuffledFits(now: seq<Node>, nodes: seq<Node>)
    requires Shuffled(now, nodes) && Distinct(nodes)
    ensures |now| == |nodes| && Distinct(now) && (forall k :: 0 <= k < |now| ==> now[k] in nodes)
    ensures forall k :: 0 <= k < |nodes| ==> nodes[k] in now
  {
    hide Distinct;
    ShuffledOnto(now, nodes);
  }

  /** The last sort, which also restores the lower data bytes. */
  method Reset(list0: Node, retval0: bv16, ghost now0: seq<Node>, ghost mid: seq<Item>,
               ghost nodes: seq<Node>, ghost infos: seq<Data>)
    returns (list: Node, retval: bv16, ghost now: seq<Node>, ghost after: seq<Item>, ghost order: seq<nat>)
    requires ListOf(list0, now0) && Shuffled(now0, nodes) && Holds(nodes, infos) && Distinct(nodes) && |nodes| > 1
    requires Shows(now0, mid)
    modifies nodes, infos
    ensures ListOf(list, now) && Shuffled(now, nodes) && Holds(nodes, infos) && Shows(now, after)
    ensures Resorted(ByIdx, true, mid, after, order) && |after| > 1
    ensures retval == CrcTimes(after[0].data16, |after| - 1, retval0)
    ensures forall d | d in infos :: d.idx == old(d.idx) && High(d.data16) == High(old(d.data16)) && Clean(d.data16)
  {
    hide High, Clean, ListOf, Distinct, Resorted, CrcTimes;
    list, now, after, order := Sort(list0, ByIdx, null, now0, mid, nodes, infos);
    forall d | d in infos ensures Clean(d.data16) { assert Known(ByIdx, true, d); }
    ShowsSize(now, after);
    ListHead(list, now);
    retval := CrcRest(list, retval0, now);
  }

  ghost predicate Increasing(items: seq<Item>) {
    forall i, j :: 0 <= i < j < |items| ==> items[i].idx < items[j].idx
  }

  ghost predicate DifferentIndices(items: seq<Item>) {
    forall i, j :: 0 <= i < j < |items| ==> items[i].idx != items[j].idx
  }

  /** The list ends sorted by index, with the same nodes, items and indices, and with every lower data byte
      set to its backup; items with one index keep the order `mid` that they had when the list was sampled.
      If the indices are different, that is the order it began with if and only if they were increasing. */
  method BenchList(list0: Node, res: Results, findNum: int, finderIdx: int, junk: bv16,
                   ghost nodes: seq<Node>, ghost infos: seq<Data>, ghost items: seq<Item>)
    returns (retval: bv16, ghost list: Node, ghost now: seq<Node>, ghost after: seq<Item>,
             ghost mid: seq<Item>, ghost order: seq<nat>, ghost last: seq<nat>)
    requires ListOf(list0, nodes) && Holds(nodes, infos) && Shows(nodes, items) && |nodes| == |items| >= 3
    modifies nodes, infos, res
    ensures ListOf(list, now) && Shuffled(now, nodes) && Holds(nodes, infos) && Shows(now, after)
    ensures forall d | d in infos :: d.idx == old(d.idx) && d.data16 == Restored(old(d.data16))
    ensures var s := Searched(items, findNum, finderIdx, junk);
            && |mid| == |after| == |items|
            && SampledList(s.items, finderIdx, mid, order) && Resorted(ByIdx, true, mid, after, last)
            && retval == CrcTimes(after[0].data16, |after| - 1, Sampled(mid, s.idx, s.data16, s.retval))
    ensures Increasing(items) ==> now == nodes
    ensures DifferentIndices(items) ==> (now == nodes <==> Increasing(items))
  {
    hide High, Clean, Restored, ListOf, Distinct, Shuffled, Searched, Sampled, CrcTimes, SampledList, Resorted, Shows, Holds;
    ItemsShown(nodes, infos, items);
    var head;
    ghost var now0;
    head, retval, now0, mid, order := Churn(list0, res, findNum, finderIdx, junk, nodes, infos, items);
    head, retval, now, after, last := Reset(head, retval, now0, mid, nodes, infos);
    list := head;
    forall d | d in infos ensures d.data16 == Restored(old(d.data16)) {
      RestoredFrom(d.data16, old(d.data16));
    }
    ResortedSizes(ByIdx, true, mid, after, last);
    SameIndices(nodes, infos, items);
    OrderRestored(now, nodes, items, after);
  }

  lemma ResortedSizes(cmp: Cmp, resetting: bool, before: seq<Item>, after: seq<Item>, order: seq<nat>)
    requires Resorted(cmp, resetting, before, after, order)
    ensures |after| == |before| && forall i, j :: 0 <= i < j < |after| ==> KeyOf(cmp, after[i]) <= KeyOf(cmp, after[j])
  {
    hide Seen, KeyOf;
  }

  lemma SameIndices(nodes: seq<Node>, infos: seq<Data>, items: seq<Item>)
    requires Holds(nodes, infos) && |items| == |infos|
    requires forall k :: 0 <= k < |infos| ==> items[k].idx == infos[k].idx
    ensures forall k :: 0 <= k < |nodes| ==> nodes[k].info.idx == items[k].idx
  {
  }

  /** `items` were the items before, of which only the data has changed since. */
  lemma OrderRestored(now: seq<Node>, nodes: seq<Node>, items: seq<Item>, after: seq<Item>)
    requires Shuffled(now, nodes) && |items| == |nodes| == |after| && Shows(now, after)
    requires forall k :: 0 <= k < |nodes| ==> nodes[k].info.idx == items[k].idx
    requires forall i, j :: 0 <= i < j < |after| ==> after[i].idx <= after[j].idx
    ensures Increasing(items) ==> now == nodes
    ensures DifferentIndices(items) ==> (now == nodes <==> Increasing(items))
  {
    assert forall k :: 0 <= k < |now| ==> now[k].info.idx == after[k].idx;
    if Increasing(items) {
      SortedAgain(now, nodes);
    }
  }

  method CrcRest(list: Node, retval0: bv16, ghost now: seq<Node>) returns (retval: bv16)
    requires ListOf(list, now) && |now| > 0
    ensures retval == CrcTimes(list.info.data16, |now| - 1, retval0)
  {
    hide CrcTimes, Distinct;
    assert list.next == At(now, 1);
    retval := CrcFrom(list, list.next, retval0, now, 1);
  }
}
