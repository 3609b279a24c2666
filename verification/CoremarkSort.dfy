/**
 The in-place mergesort of verif/tests/custom/coremark/core_list_join.c.

 A list is described by the sequence `input` of its nodes on entry and, at any moment, by a sequence of
 places in `input`.  Keys are known only once the comparator has seen an item, so the order is over the
 keys known so far: `keys` maps a place to its key.  Places break ties, which makes the order strict: a
 list sorted by it is sorted by key and has kept the order of equal keys.
 */
module CoremarkSort {
  import opened Finite
  import opened CoremarkData

  class Node {
    var next: Node?
    var info: Data

    constructor (next: Node?, info: Data)
      ensures this.next == next && this.info == info
    {
      this.next, this.info := next, info;
    }
  }

  // ---- Order on places ----

  type Keys = map<nat, int>

  predicate Lt(keys: Keys, a: nat, b: nat) {
    a in keys && b in keys && (keys[a] < keys[b] || (keys[a] == keys[b] && a < b))
  }

  predicate Extends(keys: Keys, more: Keys) {
    forall k :: k in keys ==> k in more && more[k] == keys[k]
  }

  /** The places `a` up to `b` of an order hold the items `a` up to `b`, sorted. */
  ghost predicate RunOk(keys: Keys, s: seq<nat>, a: nat, b: nat) {
    && b <= |s|
    && (forall i :: a <= i < b ==> a <= s[i] < b)
    && (forall i, j :: a <= i < j < b ==> Lt(keys, s[i], s[j]))
  }

  lemma RunMore(keys: Keys, more: Keys, s: seq<nat>, a: nat, b: nat)
    requires RunOk(keys, s, a, b) && Extends(keys, more)
    ensures RunOk(more, s, a, b)
  {
  }

  // ---- Lists ----

  /** The node at a place of the current order, null past its end. */
  ghost function NodeAt(input: seq<Node>, cur: seq<nat>, j: nat): Node?
    requires Perm(cur, |input|)
  {
    if j < |cur| then input[cur[j]] else null
  }

  /** The nodes from `from` up to `to` still point to their successors. */
  ghost predicate Linked(input: seq<Node>, cur: seq<nat>, from: nat, to: nat)
    requires Perm(cur, |input|)
    reads input
  {
    forall j :: from <= j < to && j < |cur| ==> input[cur[j]].next == NodeAt(input, cur, j + 1)
  }

  /** `out` is linked up to its last node, whose successor is not yet set. */
  ghost predicate Built(input: seq<Node>, out: seq<nat>)
    requires forall k :: 0 <= k < |out| ==> out[k] < |input|
    reads input
  {
    forall k :: 0 <= k < |out| - 1 ==> input[out[k]].next == input[out[k + 1]]
  }

  ghost predicate IsList(head: Node?, input: seq<Node>, cur: seq<nat>)
    reads input
  {
    && Perm(cur, |input|) && |input| > 0
    && head == input[cur[0]]
    && Linked(input, cur, 0, |cur|)
  }

  /** `infos` are the items of the nodes. */
  ghost predicate Holds(input: seq<Node>, infos: seq<Data>)
    reads input
  {
    |infos| == |input| && forall k :: 0 <= k < |input| ==> input[k].info == infos[k]
  }

  /** `keys` are keys that the comparator has fixed. */
  ghost predicate KeysOk(infos: seq<Data>, keys: Keys, cmp: Cmp, resetting: bool)
    reads infos
  {
    forall k :: k in keys ==>
      k < |infos| && Known(cmp, resetting, infos[k]) && Key(cmp, infos[k]) == keys[k]
  }

  // ---- Merging two runs ----

  /** Part way through merging the runs `lo..pe` and `pe..qe` of `cur`: `pi` and `qi` are their heads, and
      `out` was extended from `lo` items. */
  ghost predicate Merging(keys: Keys, cur: seq<nat>, lo: nat, pi: nat, pe: nat, qi: nat, qe: nat, out: seq<nat>) {
    && lo <= pi <= pe <= qi <= qe <= |cur|
    && RunOk(keys, cur, lo, pe) && RunOk(keys, cur, pe, qe)
    && |out| == pi + (qi - pe)
    && (forall i :: lo <= i < |out| ==> lo <= out[i] < qe)
    && (forall i, j :: lo <= i < j < |out| ==> Lt(keys, out[i], out[j]))
    && (forall i, j :: lo <= i < |out| && pi <= j < pe ==> Lt(keys, out[i], cur[j]))
    && (forall i, j :: lo <= i < |out| && qi <= j < qe ==> Lt(keys, out[i], cur[j]))
  }

  /** `out` holds distinct items, none of which is still waiting. */
  ghost predicate Apart(cur: seq<nat>, pi: nat, pe: nat, qi: nat, out: seq<nat>) {
    && Distinct(out)
    && (forall k :: 0 <= k < |out| ==> out[k] < |cur|)
    && (forall k, j :: 0 <= k < |out| && 0 <= j < |cur| && (pi <= j < pe || qi <= j) ==> out[k] != cur[j])
  }

  lemma MergingMore(keys: Keys, more: Keys, cur: seq<nat>, lo: nat, pi: nat, pe: nat, qi: nat, qe: nat, out: seq<nat>)
    requires Merging(keys, cur, lo, pi, pe, qi, qe, out) && Extends(keys, more)
    ensures Merging(more, cur, lo, pi, pe, qi, qe, out)
  {
    RunMore(keys, more, cur, lo, pe);
    RunMore(keys, more, cur, pe, qe);
    hide RunOk;
  }

  lemma TakeP(keys: Keys, cur: seq<nat>, lo: nat, pi: nat, pe: nat, qi: nat, qe: nat, out: seq<nat>)
    requires Merging(keys, cur, lo, pi, pe, qi, qe, out) && pi < pe
    requires qi < qe ==> Lt(keys, cur[pi], cur[qi])
    ensures Merging(keys, cur, lo, pi + 1, pe, qi, qe, out + [cur[pi]])
  {
    forall j | qi <= j < qe ensures Lt(keys, cur[pi], cur[j]) {
      if j > qi { assert Lt(keys, cur[qi], cur[j]); }
    }
  }

  lemma TakeQ(keys: Keys, cur: seq<nat>, lo: nat, pi: nat, pe: nat, qi: nat, qe: nat, out: seq<nat>)
    requires Merging(keys, cur, lo, pi, pe, qi, qe, out) && qi < qe
    requires pi < pe ==> Lt(keys, cur[qi], cur[pi])
    ensures Merging(keys, cur, lo, pi, pe, qi + 1, qe, out + [cur[qi]])
  {
    forall j | pi <= j < pe ensures Lt(keys, cur[qi], cur[j]) {
      if j > pi { assert Lt(keys, cur[pi], cur[j]); }
    }
  }

  lemma TakePApart(cur: seq<nat>, pi: nat, pe: nat, qi: nat, out: seq<nat>)
    requires Perm(cur, |cur|) && pi < pe <= qi <= |cur| && Apart(cur, pi, pe, qi, out)
    ensures Apart(cur, pi + 1, pe, qi, out + [cur[pi]])
  {
  }

  lemma TakeQApart(cur: seq<nat>, pi: nat, pe: nat, qi: nat, out: seq<nat>)
    requires Perm(cur, |cur|) && pi <= pe <= qi < |cur| && Apart(cur, pi, pe, qi, out)
    ensures Apart(cur, pi, pe, qi + 1, out + [cur[qi]])
  {
  }

  function Min(a: nat, b: nat): nat { if a < b then a else b }

  /** The list that is being built: its first node, and its last, whose `next` is not yet set. */
  ghost predicate Growing(input: seq<Node>, out: seq<nat>, list: Node?, tail: Node?)
    requires forall k :: 0 <= k < |out| ==> out[k] < |input|
    reads input
  {
    && Built(input, out)
    && (if out == [] then list == null && tail == null
        else list == input[out[0]] && tail == input[out[|out| - 1]])
  }

  /** Appends the node `e`, which waits at place `j`, to the list that is being built. */
  method Append(list: Node?, tail: Node?, e: Node,
                ghost input: seq<Node>, ghost infos: seq<Data>, ghost cur: seq<nat>,
                ghost pi: nat, ghost pe: nat, ghost qi: nat, ghost out: seq<nat>, ghost j: nat)
    returns (list': Node?)
    requires Distinct(input) && Perm(cur, |input|) && Apart(cur, pi, pe, qi, out) && Growing(input, out, list, tail)
    requires j < |cur| && e == input[cur[j]] && (pi <= j < pe || qi <= j)
    requires Linked(input, cur, pi, pe) && Linked(input, cur, qi, |cur|)
    requires Holds(input, infos)
    modifies input
    ensures Growing(input, out + [cur[j]], list', e)
    ensures Linked(input, cur, pi, pe) && Linked(input, cur, qi, |cur|)
    ensures Holds(input, infos) && unchanged(infos)
  {
    if tail != null {
      tail.next := e;
      list' := list;
    } else {
      list' := e;
    }
  }

  // ---- The loops ----

  /** `p` and `q` are the heads of what is left of two runs, of `psize` nodes and of at most `qsize` nodes. */
  ghost predicate Heads(
      input: seq<Node>, cur: seq<nat>, pi: nat, pe: nat, qi: nat, qe: nat,
      p: Node?, psize: int, q: Node?, qsize: int, insize: nat)
  {
    && Perm(cur, |input|) && pi <= pe <= qi <= qe
    && qe == Min(pe + insize, |cur|)
    && psize == pe - pi && qsize == pe + insize - qi
    && (pi < pe ==> p == input[cur[pi]]) && q == NodeAt(input, cur, qi)
  }

  /** The heap at the head of the merge loop. */
  ghost predicate MergeLoop(
      input: seq<Node>, cur: seq<nat>, pi: nat, pe: nat, qi: nat, qe: nat, out: seq<nat>,
      p: Node?, psize: int, q: Node?, qsize: int, insize: nat, list: Node?, tail: Node?)
    reads input
  {
    && Distinct(input) && Heads(input, cur, pi, pe, qi, qe, p, psize, q, qsize, insize)
    && Apart(cur, pi, pe, qi, out)
    && Linked(input, cur, pi, pe) && Linked(input, cur, qi, |cur|)
    && Growing(input, out, list, tail)
  }

  lemma RecordKeys(infos: seq<Data>, keys: Keys, cmp: Cmp, resetting: bool, i: nat, j: nat, more: Keys)
    requires i < |infos| && j < |infos| && KeysOk(infos, keys, cmp, resetting)
    requires Known(cmp, resetting, infos[i]) && Known(cmp, resetting, infos[j])
    requires more == keys[i := Key(cmp, infos[i])][j := Key(cmp, infos[j])]
    ensures KeysOk(infos, more, cmp, resetting) && Extends(keys, more)
    ensures i in more && j in more && more[i] == Key(cmp, infos[i]) && more[j] == Key(cmp, infos[j])
  {
    hide Known, Key;
  }

  /** Compares the heads of the two runs and records their keys. */
  method CompareHeads(cmp: Cmp, a: Node, b: Node, res: Results?,
                      ghost input: seq<Node>, ghost infos: seq<Data>, ghost i: nat, ghost j: nat, ghost keys: Keys)
    returns (r: int, ghost more: Keys)
    requires i < |infos| && j < |infos| && a.info == infos[i] && b.info == infos[j]
    requires cmp.Complex? ==> res != null
    requires KeysOk(infos, keys, cmp, res == null)
    modifies infos, res
    ensures KeysOk(infos, more, cmp, res == null) && Extends(keys, more)
    ensures i in more && j in more && r == more[i] - more[j]
    ensures unchanged(input)
    ensures forall d | d in infos :: d.idx == old(d.idx) && High(d.data16) == High(old(d.data16))
  {
    hide High, Known, Key, Extends;
    r := Compare(cmp, a.info, b.info, res, set d | d in infos);
    assert KeysOk(infos, keys, cmp, res == null);
    more := keys[i := Key(cmp, a.info)][j := Key(cmp, b.info)];
    RecordKeys(infos, keys, cmp, res == null, i, j, more);
  }

  /** Decides which run the next node comes from: the first one, unless it is used up or its head is greater. */
  method Choose(cmp: Cmp, res: Results?, p: Node?, psize: int, q: Node?, qsize: int, insize: nat,
                ghost input: seq<Node>, ghost infos: seq<Data>, ghost cur: seq<nat>, ghost keys: Keys,
                ghost lo: nat, ghost pi: nat, ghost pe: nat, ghost qi: nat, ghost qe: nat, ghost out: seq<nat>)
    returns (fromP: bool, ghost more: Keys)
    requires Merging(keys, cur, lo, pi, pe, qi, qe, out) && Heads(input, cur, pi, pe, qi, qe, p, psize, q, qsize, insize)
    requires psize > 0 || (qsize > 0 && q != null)
    requires Holds(input, infos) && KeysOk(infos, keys, cmp, res == null)
    requires cmp.Complex? ==> res != null
    modifies infos, res
    ensures Extends(keys, more) && KeysOk(infos, more, cmp, res == null)
    ensures fromP ==> pi < pe && (qi < qe ==> Lt(more, cur[pi], cur[qi]))
    ensures !fromP ==> qi < qe && (pi < pe ==> Lt(more, cur[qi], cur[pi]))
    ensures unchanged(input)
    ensures forall d | d in infos :: d.idx == old(d.idx) && High(d.data16) == High(old(d.data16))
  {
    hide High, KeysOk, Extends, Merging;
    more := keys;
    ExtendsSelf(keys);
    if psize == 0 {
      return false, keys;
    } else if qsize == 0 || q == null {
      return true, keys;
    } else {
      HeadsApart(keys, cur, lo, pi, pe, qi, qe, out);
      var r;
      r, more := CompareHeads(cmp, p, q, res, input, infos, cur[pi], cur[qi], keys);
      return r <= 0, more;
    }
  }

  lemma HeadsBounds(input: seq<Node>, cur: seq<nat>, pi: nat, pe: nat, qi: nat, qe: nat,
                    p: Node?, psize: int, q: Node?, qsize: int, insize: nat)
    requires Heads(input, cur, pi, pe, qi, qe, p, psize, q, qsize, insize)
    ensures pi <= pe <= qi <= qe <= |cur| && Perm(cur, |input|) && 0 <= psize && 0 <= qsize
    ensures (psize > 0 <==> pi < pe) && (qsize > 0 && q != null <==> qi < qe)
  {
  }

  lemma AdvanceP(input: seq<Node>, cur: seq<nat>, pi: nat, pe: nat, qi: nat, qe: nat,
                 p: Node?, psize: int, q: Node?, qsize: int, insize: nat)
    requires Heads(input, cur, pi, pe, qi, qe, p, psize, q, qsize, insize) && pi < pe
    requires Linked(input, cur, pi, pe)
    ensures p == input[cur[pi]] && Heads(input, cur, pi + 1, pe, qi, qe, p.next, psize - 1, q, qsize, insize)
  {
  }

  lemma AdvanceQ(input: seq<Node>, cur: seq<nat>, pi: nat, pe: nat, qi: nat, qe: nat,
                 p: Node?, psize: int, q: Node?, qsize: int, insize: nat)
    requires Heads(input, cur, pi, pe, qi, qe, p, psize, q, qsize, insize) && qi < qe
    requires Linked(input, cur, qi, |cur|)
    ensures q == input[cur[qi]] && Heads(input, cur, pi, pe, qi + 1, qe, p, psize, q.next, qsize - 1, insize)
  {
  }

  lemma LinkedLess(input: seq<Node>, cur: seq<nat>, from: nat, later: nat, to: nat)
    requires Perm(cur, |input|) && Linked(input, cur, from, to) && from <= later
    ensures Linked(input, cur, later, to)
  {
  }

  /** One iteration of the merge loop. */
  method MergeStep(cmp: Cmp, res: Results?, p0: Node?, psize0: int, q0: Node?, qsize0: int, insize: nat,
                   list0: Node?, tail0: Node?,
                   ghost input: seq<Node>, ghost infos: seq<Data>, ghost cur: seq<nat>, ghost keys0: Keys,
                   ghost lo: nat, ghost pi0: nat, ghost pe: nat, ghost qi0: nat, ghost qe: nat, ghost out0: seq<nat>)
    returns (p: Node?, psize: int, q: Node?, qsize: int, list: Node?, tail: Node?,
             ghost keys: Keys, ghost pi: nat, ghost qi: nat, ghost out: seq<nat>)
    requires Merging(keys0, cur, lo, pi0, pe, qi0, qe, out0)
    requires MergeLoop(input, cur, pi0, pe, qi0, qe, out0, p0, psize0, q0, qsize0, insize, list0, tail0)
    requires psize0 > 0 || (qsize0 > 0 && q0 != null)
    requires Holds(input, infos) && KeysOk(infos, keys0, cmp, res == null)
    requires cmp.Complex? ==> res != null
    modifies input, infos, res
    ensures Merging(keys, cur, lo, pi, pe, qi, qe, out)
    ensures MergeLoop(input, cur, pi, pe, qi, qe, out, p, psize, q, qsize, insize, list, tail)
    ensures 0 <= psize + qsize < psize0 + qsize0
    ensures out0 <= out && Extends(keys0, keys)
    ensures Holds(input, infos) && KeysOk(infos, keys, cmp, res == null)
    ensures forall d | d in infos :: d.idx == old(d.idx) && High(d.data16) == High(old(d.data16))
  {
    hide High, KeysOk, Extends, Merging, Apart, Growing, Holds, Lt, Heads, Linked;
    HeadsBounds(input, cur, pi0, pe, qi0, qe, p0, psize0, q0, qsize0, insize);
    var fromP;
    fromP, keys := Choose(cmp, res, p0, psize0, q0, qsize0, insize, input, infos, cur, keys0, lo, pi0, pe, qi0, qe, out0);
    MergingMore(keys0, keys, cur, lo, pi0, pe, qi0, qe, out0);
    p, psize, q, qsize := p0, psize0, q0, qsize0;
    pi, qi := pi0, qi0;
    var e: Node;
    ghost var j: nat;
    if fromP {
      TakeP(keys, cur, lo, pi, pe, qi, qe, out0);
      TakePApart(cur, pi, pe, qi, out0);
      AdvanceP(input, cur, pi, pe, qi, qe, p, psize, q, qsize, insize);
      j := pi;
      e, p, psize, pi := p, p.next, psize - 1, pi + 1;
    } else {
      TakeQ(keys, cur, lo, pi, pe, qi, qe, out0);
      TakeQApart(cur, pi, pe, qi, out0);
      AdvanceQ(input, cur, pi, pe, qi, qe, p, psize, q, qsize, insize);
      j := qi;
      e, q, qsize, qi := q, q.next, qsize - 1, qi + 1;
    }
    list := Append(list0, tail0, e, input, infos, cur, pi0, pe, qi0, out0, j);
    LinkedLess(input, cur, pi0, pi, pe);
    LinkedLess(input, cur, qi0, qi, |cur|);
    tail := e;
    out := out0 + [cur[j]];
  }

  /** Merges the runs `lo..pe` and `pe..qe` of the list onto the list that is being built. */
  method MergeRuns(cmp: Cmp, res: Results?, p0: Node, psize0: int, q0: Node?, insize: nat, list0: Node?, tail0: Node?,
                   ghost input: seq<Node>, ghost infos: seq<Data>, ghost cur: seq<nat>, ghost keys0: Keys,
                   ghost lo: nat, ghost pe: nat, ghost qe: nat, ghost out0: seq<nat>)
    returns (q: Node?, list: Node?, tail: Node?, ghost keys: Keys, ghost out: seq<nat>)
    requires Merging(keys0, cur, lo, lo, pe, pe, qe, out0)
    requires MergeLoop(input, cur, lo, pe, pe, qe, out0, p0, psize0, q0, insize, insize, list0, tail0)
    requires Holds(input, infos) && KeysOk(infos, keys0, cmp, res == null)
    requires cmp.Complex? ==> res != null
    modifies input, infos, res
    ensures Extends(keys0, keys) && out0 <= out && |out| == qe && RunOk(keys, out, lo, qe)
    ensures Apart(cur, pe, pe, qe, out) && Growing(input, out, list, tail)
    ensures q == NodeAt(input, cur, qe) && Linked(input, cur, qe, |cur|)
    ensures Holds(input, infos) && KeysOk(infos, keys, cmp, res == null)
    ensures forall d | d in infos :: d.idx == old(d.idx) && High(d.data16) == High(old(d.data16))
  {
    hide High, KeysOk, Extends, Merging, MergeLoop, RunOk, Holds;
    keys, out := keys0, out0;
    list, tail := list0, tail0;
    var p: Node? := p0;
    q := q0;
    var psize, qsize := psize0, insize;
    ghost var pi: nat, qi: nat := lo, pe;
    ExtendsSelf(keys0);
    MergeLoopBounds(input, cur, pi, pe, qi, qe, out, p, psize, q, qsize, insize, list, tail);
    while psize > 0 || (qsize > 0 && q != null)
      invariant 0 <= psize && 0 <= qsize
      invariant Merging(keys, cur, lo, pi, pe, qi, qe, out)
      invariant MergeLoop(input, cur, pi, pe, qi, qe, out, p, psize, q, qsize, insize, list, tail)
      invariant Extends(keys0, keys) && out0 <= out
      invariant Holds(input, infos) && KeysOk(infos, keys, cmp, res == null)
      invariant forall d | d in infos :: d.idx == old(d.idx) && High(d.data16) == High(old(d.data16))
      decreases psize + qsize
    {
      ghost var more;
      p, psize, q, qsize, list, tail, more, pi, qi, out :=
        MergeStep(cmp, res, p, psize, q, qsize, insize, list, tail, input, infos, cur, keys, lo, pi, pe, qi, qe, out);
      ExtendsMore(keys0, keys, more);
      keys := more;
      MergeLoopBounds(input, cur, pi, pe, qi, qe, out, p, psize, q, qsize, insize, list, tail);
    }
    MergeLoopBounds(input, cur, pi, pe, qi, qe, out, p, psize, q, qsize, insize, list, tail);
    MergedRun(keys, cur, lo, pi, pe, qi, qe, out);
  }

  lemma MergeLoopBounds(
      input: seq<Node>, cur: seq<nat>, pi: nat, pe: nat, qi: nat, qe: nat, out: seq<nat>,
      p: Node?, psize: int, q: Node?, qsize: int, insize: nat, list: Node?, tail: Node?)
    requires MergeLoop(input, cur, pi, pe, qi, qe, out, p, psize, q, qsize, insize, list, tail)
    ensures 0 <= psize && 0 <= qsize && Perm(cur, |input|) && pi <= pe <= qi <= qe <= |cur|
    ensures Apart(cur, pi, pe, qi, out) && Growing(input, out, list, tail)
    ensures q == NodeAt(input, cur, qi) && Linked(input, cur, qi, |cur|)
    ensures psize > 0 <==> pi < pe
    ensures qsize > 0 && q != null <==> qi < qe
  {
    hide Growing, Linked;
  }

  lemma ExtendsSelf(keys: Keys)
    ensures Extends(keys, keys)
  {
  }

  lemma ExtendsMore(a: Keys, b: Keys, c: Keys)
    requires Extends(a, b) && Extends(b, c)
    ensures Extends(a, c)
  {
  }

  lemma HeadsApart(keys: Keys, cur: seq<nat>, lo: nat, pi: nat, pe: nat, qi: nat, qe: nat, out: seq<nat>)
    requires Merging(keys, cur, lo, pi, pe, qi, qe, out) && pi < pe && qi < qe
    ensures cur[pi] < cur[qi]
  {
  }

  lemma MergedRun(keys: Keys, cur: seq<nat>, lo: nat, pi: nat, pe: nat, qi: nat, qe: nat, out: seq<nat>)
    requires Merging(keys, cur, lo, pi, pe, qi, qe, out) && pi == pe && qi == qe
    ensures |out| == qe && RunOk(keys, out, lo, qe)
  {
  }

  // ---- Passes ----

  function Start(k: nat, w: nat): nat { if k == 0 then 0 else Start(k - 1, w) + w }

  lemma {:induction false} StartGrows(m: nat, k: nat, w: nat)
    requires m < k
    ensures Start(m, w) + w <= Start(k, w)
    decreases k
  {
    if m < k - 1 { StartGrows(m, k - 1, w); }
  }

  lemma {:induction false} StartPairs(m: nat, w: nat)
    ensures Start(2 * m, w) == Start(m, 2 * w)
  {
    if m > 0 {
      StartPairs(m - 1, w);
      assert Start(2 * m, w) == Start(2 * m - 1, w) + w == Start(2 * m - 2, w) + w + w;
    }
  }

  /** `s`, which grows to `n` places, is made of sorted runs of `w` places; the last may be shorter. */
  ghost predicate Blocks(keys: Keys, s: seq<nat>, w: nat, n: nat) {
    forall k: nat {:trigger Start(k, w)} ::
      Start(k, w) < |s| ==> RunOk(keys, s, Start(k, w), Min(Start(k, w) + w, n))
  }

  lemma SameBlock(m: nat, k: nat, w: nat)
    requires Start(m, w) <= Start(k, w) < Start(m, w) + w
    ensures k == m
  {
    if k < m { StartGrows(k, m, w); }
    if m < k { StartGrows(m, k, w); }
  }

  lemma RunPrefix(keys: Keys, s: seq<nat>, more: seq<nat>, a: nat, b: nat)
    requires RunOk(keys, s, a, b) && s <= more
    ensures RunOk(keys, more, a, b)
  {
  }

  lemma BlocksGrow(keys: Keys, more: Keys, s: seq<nat>, t: seq<nat>, m: nat, w: nat, n: nat)
    requires Blocks(keys, s, w, n) && Extends(keys, more) && s <= t
    requires |s| == Start(m, w) && |t| == Min(|s| + w, n) && RunOk(more, t, |s|, |t|)
    ensures Blocks(more, t, w, n)
  {
    hide RunOk, Extends, Start;
    forall k: nat | Start(k, w) < |t| ensures RunOk(more, t, Start(k, w), Min(Start(k, w) + w, n)) {
      if Start(k, w) < |s| {
        RunMore(keys, more, s, Start(k, w), Min(Start(k, w) + w, n));
        RunPrefix(more, s, t, Start(k, w), Min(Start(k, w) + w, n));
      } else {
        SameBlock(m, k, w);
      }
    }
  }

  lemma BlocksMore(keys: Keys, more: Keys, s: seq<nat>, w: nat, n: nat)
    requires Blocks(keys, s, w, n) && Extends(keys, more)
    ensures Blocks(more, s, w, n)
  {
    hide RunOk, Extends, Start;
    forall k: nat | Start(k, w) < |s| ensures RunOk(more, s, Start(k, w), Min(Start(k, w) + w, n)) {
      RunMore(keys, more, s, Start(k, w), Min(Start(k, w) + w, n));
    }
  }

  /** Steps up to `insize` places along from the node at `lo`. */
  method SplitRun(p: Node, insize: nat, ghost input: seq<Node>, ghost cur: seq<nat>, ghost lo: nat)
    returns (q: Node?, psize: nat)
    requires Perm(cur, |input|) && lo < |cur| && p == input[cur[lo]] && Linked(input, cur, lo, |cur|) && insize > 0
    ensures lo + psize == Min(lo + insize, |cur|) && q == NodeAt(input, cur, lo + psize)
  {
    q, psize := p, 0;
    var i := 0;
    while i < insize
      invariant 0 <= i <= insize && psize == i && lo + i < |cur| + 1
      invariant q == NodeAt(input, cur, lo + i) && (i < insize ==> q != null)
    {
      psize := psize + 1;
      q := q.next;
      if q == null { break; }
      i := i + 1;
    }
  }

  lemma PassStarts(input: seq<Node>, cur: seq<nat>, keys: Keys, w: nat, p: Node, head: Node?, tail: Node?)
    requires Distinct(input) && IsList(p, input, cur) && head == null && tail == null
    ensures Min(Start(0, w), |cur|) == 0 && |cur| == |input| > 0
    ensures PassLoop(input, cur, 0, [], p, head, tail) && Blocks(keys, [], w, |cur|)
  {
  }

  /** What is left of the list and two of its runs are fit for merging. */
  lemma MergeStarts(keys: Keys, input: seq<Node>, cur: seq<nat>, m: nat, lo: nat, pe: nat, qe: nat, insize: nat,
                    out: seq<nat>, p: Node, psize: nat, q: Node?, head: Node?, tail: Node?)
    requires Distinct(input) && Perm(cur, |input|) && Blocks(keys, cur, insize, |cur|)
    requires lo == Start(m, 2 * insize) < |cur| && |out| == lo
    requires pe == Min(lo + insize, |cur|) && qe == Min(pe + insize, |cur|)
    requires Linked(input, cur, lo, |cur|) && Apart(cur, lo, lo, lo, out) && Growing(input, out, head, tail)
    requires p == input[cur[lo]] && q == NodeAt(input, cur, pe) && psize == pe - lo
    ensures Merging(keys, cur, lo, lo, pe, pe, qe, out)
    ensures MergeLoop(input, cur, lo, pe, pe, qe, out, p, psize, q, insize, insize, head, tail)
  {
    hide Growing, RunOk, Blocks, Start;
    RunsAhead(keys, cur, m, lo, pe, qe, insize);
  }

  lemma EmptyRun(keys: Keys, s: seq<nat>)
    ensures RunOk(keys, s, |s|, |s|)
  {
  }

  lemma RunsAhead(keys: Keys, cur: seq<nat>, m: nat, lo: nat, pe: nat, qe: nat, insize: nat)
    requires Blocks(keys, cur, insize, |cur|)
    requires lo == Start(m, 2 * insize) < |cur|
    requires pe == Min(lo + insize, |cur|) && qe == Min(pe + insize, |cur|)
    ensures RunOk(keys, cur, lo, pe) && RunOk(keys, cur, pe, qe)
  {
    hide RunOk;
    StartPairs(m, insize);
    StartNext(2 * m, insize);
    EmptyRun(keys, cur);
    hide Start;
    assert RunOk(keys, cur, Start(2 * m, insize), pe);
    if pe < |cur| { assert RunOk(keys, cur, Start(2 * m + 1, insize), qe); }
  }

  lemma StartNext(m: nat, w: nat)
    ensures Start(m + 1, w) == Start(m, w) + w
  {
  }

  lemma ApartDone(cur: seq<nat>, pe: nat, qe: nat, out: seq<nat>)
    requires Apart(cur, pe, pe, qe, out)
    ensures Apart(cur, qe, qe, qe, out) && forall k :: 0 <= k < |out| ==> out[k] < |cur|
  {
  }

  lemma MinNext(m: nat, w: nat, n: nat)
    requires Min(Start(m, w), n) < n
    ensures Start(m, w) == Min(Start(m, w), n) < n
    ensures Min(Min(Start(m, w), n) + w, n) == Min(Start(m + 1, w), n) <= n
    ensures w > 0 ==> Min(Start(m, w), n) < Min(Start(m + 1, w), n)
  {
  }

  /** One merge was enough exactly when two runs cover the list. */
  lemma PassEnds(n: nat, nmerges: nat, w: nat)
    requires 0 < n == Min(Start(nmerges, w), n) && (nmerges > 0 ==> Start(nmerges - 1, w) < n)
    ensures nmerges <= 1 <==> n <= w
  {
    if nmerges > 1 { StartGrows(0, nmerges - 1, w); }
  }

  /** The heap at the head of the loop over the list: `lo` nodes are merged, and `p` is the first of the rest. */
  ghost predicate PassLoop(input: seq<Node>, cur: seq<nat>, lo: nat, out: seq<nat>, p: Node?, head: Node?, tail: Node?)
    reads input
  {
    && Distinct(input) && Perm(cur, |input|) && lo <= |cur| && |out| == lo && p == NodeAt(input, cur, lo)
    && Linked(input, cur, lo, |cur|) && Apart(cur, lo, lo, lo, out) && Growing(input, out, head, tail)
  }

  /** Merges the two runs of `insize` nodes that begin at `lo`. */
  method MergePair(cmp: Cmp, res: Results?, p0: Node, insize: nat, head0: Node?, tail0: Node?,
                   ghost input: seq<Node>, ghost infos: seq<Data>, ghost cur: seq<nat>, ghost keys0: Keys,
                   ghost m: nat, ghost lo0: nat, ghost out0: seq<nat>)
    returns (p: Node?, head: Node?, tail: Node?, ghost keys: Keys, ghost lo: nat, ghost out: seq<nat>)
    requires PassLoop(input, cur, lo0, out0, p0, head0, tail0) && lo0 == Start(m, 2 * insize) < |cur| && insize > 0
    requires Blocks(keys0, cur, insize, |cur|) && Blocks(keys0, out0, 2 * insize, |cur|)
    requires Holds(input, infos) && KeysOk(infos, keys0, cmp, res == null)
    requires cmp.Complex? ==> res != null
    modifies input, infos, res
    ensures PassLoop(input, cur, lo, out, p, head, tail) && lo == Min(lo0 + 2 * insize, |cur|)
    ensures Blocks(keys, cur, insize, |cur|) && Blocks(keys, out, 2 * insize, |cur|)
    ensures Holds(input, infos) && KeysOk(infos, keys, cmp, res == null)
    ensures forall d | d in infos :: d.idx == old(d.idx) && High(d.data16) == High(old(d.data16))
  {
    hide High, KeysOk, Extends, Holds, Blocks, Growing, RunOk, Merging, Start, MergeLoop;
    var q, psize := SplitRun(p0, insize, input, cur, lo0);
    ghost var pe := lo0 + psize;
    ghost var qe := Min(pe + insize, |cur|);
    MergeStarts(keys0, input, cur, m, lo0, pe, qe, insize, out0, p0, psize, q, head0, tail0);
    q, head, tail, keys, out :=
      MergeRuns(cmp, res, p0, psize, q, insize, head0, tail0, input, infos, cur, keys0, lo0, pe, qe, out0);
    BlocksMore(keys0, keys, cur, insize, |cur|);
    BlocksGrow(keys0, keys, out0, out, m, 2 * insize, |cur|);
    p, lo := q, qe;
    ApartDone(cur, pe, qe, out);
    hide Distinct, Apart, Linked, NodeAt;
  }

  /** Ends the list that was built. */
  method Finish(head: Node?, tail: Node?, ghost input: seq<Node>, ghost infos: seq<Data>, ghost cur: seq<nat>,
                ghost lo: nat, ghost out: seq<nat>, ghost p: Node?, ghost keys: Keys, ghost cmp: Cmp, ghost resetting: bool)
    returns (list: Node)
    requires PassLoop(input, cur, lo, out, p, head, tail) && lo == |cur| > 0
    requires Holds(input, infos) && KeysOk(infos, keys, cmp, resetting)
    modifies input
    ensures IsList(list, input, out) && Holds(input, infos) && KeysOk(infos, keys, cmp, resetting)
    ensures forall d | d in infos :: d.idx == old(d.idx) && d.data16 == old(d.data16)
  {
    hide KeysOk;
    tail.next := null;
    list := head;
  }

  /** Merges the runs of `insize` nodes in pairs. */
  method Pass(cmp: Cmp, res: Results?, list0: Node, insize: nat,
              ghost input: seq<Node>, ghost infos: seq<Data>, ghost cur: seq<nat>, ghost keys0: Keys)
    returns (list: Node, nmerges: nat, ghost keys: Keys, ghost out: seq<nat>)
    requires Distinct(input) && IsList(list0, input, cur) && insize > 0 && Blocks(keys0, cur, insize, |cur|)
    requires Holds(input, infos) && KeysOk(infos, keys0, cmp, res == null)
    requires cmp.Complex? ==> res != null
    modifies input, infos, res
    ensures IsList(list, input, out) && Blocks(keys, out, 2 * insize, |out|)
    ensures nmerges <= 1 <==> |input| <= 2 * insize
    ensures Holds(input, infos) && KeysOk(infos, keys, cmp, res == null)
    ensures forall d | d in infos :: d.idx == old(d.idx) && High(d.data16) == High(old(d.data16))
  {
    hide *;
    var p: Node? := list0;
    var head: Node?, tail: Node? := null, null;
    nmerges := 0;
    keys, out := keys0, [];
    ghost var n, lo: nat, w := |cur|, 0, 2 * insize;
    PassStarts(input, cur, keys0, w, p, head, tail);
    while p != null
      invariant lo == Min(Start(nmerges, w), n) && lo <= n && (nmerges > 0 ==> Start(nmerges - 1, w) < n)
      invariant PassLoop(input, cur, lo, out, p, head, tail) && (p == null <==> lo == n)
      invariant Blocks(keys, cur, insize, n) && Blocks(keys, out, w, n)
      invariant Holds(input, infos) && KeysOk(infos, keys, cmp, res == null)
      invariant forall d | d in infos :: d.idx == old(d.idx) && High(d.data16) == High(old(d.data16))
      decreases n - lo
    {
      nmerges := nmerges + 1;
      MinNext(nmerges - 1, w, n);
      p, head, tail, keys, lo, out :=
        MergePair(cmp, res, p, insize, head, tail, input, infos, cur, keys, nmerges - 1, lo, out);
      PassLoopEnds(input, cur, lo, out, p, head, tail);
    }
    PassEnds(n, nmerges, w);
    PassLoopEnds(input, cur, lo, out, p, head, tail);
    list := Finish(head, tail, input, infos, cur, lo, out, p, keys, cmp, res == null);
  }

  lemma PassLoopEnds(input: seq<Node>, cur: seq<nat>, lo: nat, out: seq<nat>, p: Node?, head: Node?, tail: Node?)
    requires PassLoop(input, cur, lo, out, p, head, tail)
    ensures |out| == lo <= |cur| && (p == null <==> lo == |cur|)
    ensures Apart(cur, lo, lo, lo, out) && Growing(input, out, head, tail)
  {
    hide Growing, Linked;
  }

  // ---- The sort ----

  /** The node at a place of a sequence, null past its end. */
  function At(s: seq<Node>, j: nat): Node? { if j < |s| then s[j] else null }

  /** The nodes of a list, in order. */
  ghost predicate ListOf(head: Node?, nodes: seq<Node>)
    reads nodes
  {
    && Distinct(nodes) && head == At(nodes, 0)
    && forall k: nat :: k < |nodes| ==> nodes[k].next == At(nodes, k + 1)
  }

  /** In the new order the keys do not decrease, and items with equal keys come in their old order. */
  ghost predicate SortedStably(cmp: Cmp, infos: seq<Data>, order: seq<nat>)
    requires Perm(order, |infos|)
    reads infos
  {
    forall i, j :: 0 <= i < j < |order| ==>
      && Key(cmp, infos[order[i]]) <= Key(cmp, infos[order[j]])
      && (Key(cmp, infos[order[i]]) == Key(cmp, infos[order[j]]) ==> order[i] < order[j])
  }

  function Permuted<T>(s: seq<T>, order: seq<nat>): (r: seq<T>)
    requires forall k :: 0 <= k < |order| ==> order[k] < |s|
    ensures |r| == |order| && forall k :: 0 <= k < |r| ==> r[k] == s[order[k]]
  {
    seq(|order|, k requires 0 <= k < |order| => s[order[k]])
  }

  lemma {:induction false} StartOnes(k: nat)
    ensures Start(k, 1) == k
  {
    if k > 0 { StartOnes(k - 1); }
  }

  function Same(n: nat): (r: seq<nat>)
    ensures |r| == n && forall k :: 0 <= k < n ==> r[k] == k
  {
    seq(n, k => k)
  }

  lemma DistinctNodes(list: Node, nodes: seq<Node>)
    requires ListOf(list, nodes)
    ensures Distinct(nodes)
  {
  }

  lemma SortStarts(head: Node, nodes: seq<Node>)
    requires ListOf(head, nodes)
    ensures IsList(head, nodes, Same(|nodes|)) && Blocks(map[], Same(|nodes|), 1, |nodes|)
  {
    var s := Same(|nodes|);
    forall k: nat | Start(k, 1) < |s| ensures RunOk(map[], s, Start(k, 1), Min(Start(k, 1) + 1, |nodes|)) {
      StartOnes(k);
    }
    assert Perm(s, |nodes|);
    forall j: nat | j < |s| ensures nodes[s[j]].next == NodeAt(nodes, s, j + 1) {
      assert nodes[j].next == At(nodes, j + 1);
      if j + 1 < |s| { assert s[j + 1] == j + 1; }
    }
  }

  lemma SortEnds(cmp: Cmp, resetting: bool, infos: seq<Data>, keys: Keys, out: seq<nat>, w: nat)
    requires Perm(out, |infos|) && 0 < |out| <= w && Blocks(keys, out, w, |out|) && KeysOk(infos, keys, cmp, resetting)
    ensures SortedStably(cmp, infos, out)
    ensures |infos| > 1 ==> forall d | d in infos :: Known(cmp, resetting, d)
  {
    assert RunOk(keys, out, Start(0, w), |out|);
    hide Known, Key, Blocks;
    if |infos| > 1 {
      forall d | d in infos ensures Known(cmp, resetting, d) {
        var k :| 0 <= k < |infos| && d == infos[k];
        PermOnto(out, |infos|);
        assert k in out;
        var i :| 0 <= i < |out| && out[i] == k;
        assert if i > 0 then Lt(keys, out[0], out[i]) else Lt(keys, out[0], out[1]);
      }
    }
  }

  lemma ListAgain(head: Node, nodes: seq<Node>, order: seq<nat>)
    requires Distinct(nodes) && IsList(head, nodes, order)
    ensures ListOf(head, Permuted(nodes, order))
  {
  }

  /** Sorts the list in place: the same nodes, with the same items, in stable order of the keys.  On the way
      it fixes the key of every item, unless there is only one. */
  method MergeSort(list0: Node, cmp: Cmp, res: Results?, ghost nodes: seq<Node>, ghost infos: seq<Data>)
    returns (list: Node, ghost order: seq<nat>)
    requires ListOf(list0, nodes) && Holds(nodes, infos)
    requires cmp.Complex? ==> res != null
    modifies nodes, infos, res
    ensures Perm(order, |nodes|) && ListOf(list, Permuted(nodes, order)) && Holds(nodes, infos)
    ensures SortedStably(cmp, infos, order)
    ensures |nodes| > 1 ==> forall d | d in infos :: Known(cmp, res == null, d)
    ensures forall d | d in infos :: d.idx == old(d.idx) && High(d.data16) == High(old(d.data16))
  {
    hide *;
    list := list0;
    var insize: nat := 1;
    order := Same(|nodes|);
    ghost var keys: Keys := map[];
    SortStarts(list, nodes);
    DistinctNodes(list, nodes);
    NoKeys(infos, cmp, res == null);
    while true
      invariant insize > 0 && |order| == |nodes| && Distinct(nodes)
      invariant IsList(list, nodes, order) && Blocks(keys, order, insize, |order|)
      invariant Holds(nodes, infos) && KeysOk(infos, keys, cmp, res == null)
      invariant forall d | d in infos :: d.idx == old(d.idx) && High(d.data16) == High(old(d.data16))
      decreases |nodes| - insize
    {
      var nmerges;
      list, nmerges, keys, order := Pass(cmp, res, list, insize, nodes, infos, order, keys);
      ListSize(list, nodes, order, infos);
      if nmerges <= 1 {
        SortEnds(cmp, res == null, infos, keys, order, 2 * insize);
        ListAgain(list, nodes, order);
        return;
      }
      insize := insize * 2;
    }
  }

  lemma NoKeys(infos: seq<Data>, cmp: Cmp, resetting: bool)
    ensures KeysOk(infos, map[], cmp, resetting)
  {
  }

  lemma ListSize(list: Node, nodes: seq<Node>, order: seq<nat>, infos: seq<Data>)
    requires IsList(list, nodes, order) && Holds(nodes, infos)
    ensures Perm(order, |nodes|) && |nodes| > 0 && |infos| == |nodes|
  {
  }
}
