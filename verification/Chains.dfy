/** Chains of heap-allocated entries hanging off an array of buckets, and the two
    pointer-level rehashing loops. */
module Chains {
  import opened Buckets

  /** `struct entry`.  Key, value and hash are fixed when it is allocated. */
  class Entry<K, V> {
    const k: K
    const v: V
    const h: uint32
    var next: Entry?<K, V>
    ghost var bucket: nat  // the bucket whose chain it is on

    constructor (k: K, v: V, h: uint32)
      ensures this.k == k && this.v == v && this.h == h && next == null
    {
      this.k, this.v, this.h, next := k, v, h, null;
    }

    function Cell(): Item<K, V> { Item(k, v, h) }
  }

  // Entries are given back with `free`.  `live` is what has been allocated and not freed:
  // only such an entry may be read or freed.  A link read later could be anything.

  method NextOf<K, V>(e: Entry<K, V>, ghost live: set<Entry<K, V>>) returns (next: Entry?<K, V>)
    requires e in live
    ensures next == e.next
  {
    next := e.next;
  }

  method ValueOf<K, V>(e: Entry<K, V>, ghost live: set<Entry<K, V>>) returns (v: V)
    requires e in live
    ensures v == e.v
  {
    v := e.v;
  }

  method Free<K, V>(e: Entry<K, V>, ghost live: set<Entry<K, V>>) returns (ghost live': set<Entry<K, V>>)
    requires e in live
    modifies e`next
    ensures live' == live - {e}
  {
    e.next := *;
    live' := live - {e};
  }

  function At<K, V>(c: seq<Entry<K, V>>, j: nat): Entry?<K, V> {
    if j < |c| then c[j] else null
  }

  ghost function Cells<K, V>(c: seq<Entry<K, V>>): seq<Item<K, V>> {
    seq(|c|, j requires 0 <= j < |c| => c[j].Cell())
  }

  ghost function View<K, V>(ch: seq<seq<Entry<K, V>>>): seq<seq<Item<K, V>>> {
    seq(|ch|, i requires 0 <= i < |ch| => Cells(ch[i]))
  }

  /** From head `e`, the chain of bucket `i` runs through exactly the entries `c`,
      all different, and ends. */
  ghost predicate Linked<K, V>(e: Entry?<K, V>, c: seq<Entry<K, V>>, i: nat, nodes: set<Entry<K, V>>)
    reads nodes
  {
    && e == At(c, 0)
    && (forall j :: 0 <= j < |c| ==> c[j] in nodes && c[j].bucket == i)
    && (forall j {:trigger c[j].next} :: 0 <= j < |c| ==> c[j].next == At(c, j + 1))
    && (forall j, m :: 0 <= j < m < |c| ==> c[j] != c[m])
  }

  ghost predicate Chained<K, V>(t: array<Entry?<K, V>>, ch: seq<seq<Entry<K, V>>>, nodes: set<Entry<K, V>>)
    reads t, nodes
  {
    && |ch| == t.Length
    && forall i :: 0 <= i < |ch| ==> Linked(t[i], ch[i], i, nodes)
  }

  lemma ViewUpdate<K, V>(ch: seq<seq<Entry<K, V>>>, i: nat, c: seq<Entry<K, V>>)
    requires i < |ch|
    ensures View(ch[i := c]) == View(ch)[i := Cells(c)]
  {
  }

  lemma ViewPush<K, V>(ch: seq<seq<Entry<K, V>>>, i: nat, e: Entry<K, V>)
    requires i < |ch|
    ensures View(ch[i := [e] + ch[i]]) == View(ch)[i := [e.Cell()] + View(ch)[i]]
  {
    assert Cells([e] + ch[i]) == [e.Cell()] + Cells(ch[i]);
    ViewUpdate(ch, i, [e] + ch[i]);
  }

  lemma ViewCut<K, V>(ch: seq<seq<Entry<K, V>>>, i: nat, p: nat)
    requires i < |ch| && p < |ch[i]|
    ensures View(ch[i := Cut(ch[i], p)]) == View(ch)[i := Cut(View(ch)[i], p)]
  {
    assert Cells(Cut(ch[i], p)) == Cut(Cells(ch[i]), p);
    ViewUpdate(ch, i, Cut(ch[i], p));
  }

  /** `e->next = t[idx]; t[idx] = e;` */
  method PushFront<K, V>(t: array<Entry?<K, V>>, idx: nat, e: Entry<K, V>,
                         ghost ch: seq<seq<Entry<K, V>>>, ghost nodes: set<Entry<K, V>>)
    requires Chained(t, ch, nodes) && idx < t.Length && e !in nodes
    modifies t, e
    ensures Chained(t, ch[idx := [e] + ch[idx]], nodes + {e})
  {
    ghost var c := [e] + ch[idx];
    e.next := t[idx];
    t[idx] := e;
    e.bucket := idx;
    forall i | 0 <= i < |ch| && i != idx ensures Linked(t[i], ch[i], i, nodes + {e}) {
      assert old(Linked(t[i], ch[i], i, nodes));
    }
    assert Linked(t[idx], c, idx, nodes + {e}) by {
      assert old(Linked(t[idx], ch[idx], idx, nodes));
      assert forall j :: 0 < j < |c| ==> c[j] == ch[idx][j - 1];
    }
  }

  /** `*pE = e->next;` for the link in a table slot. */
  method UnlinkHead<K, V>(t: array<Entry?<K, V>>, idx: nat, e: Entry<K, V>,
                          ghost ch: seq<seq<Entry<K, V>>>, ghost nodes: set<Entry<K, V>>)
    requires Chained(t, ch, nodes) && idx < t.Length && ch[idx] != [] && e == ch[idx][0]
    modifies t
    ensures e in nodes && e.next == t[idx] == At(ch[idx], 1)
    ensures Chained(t, ch[idx := Cut(ch[idx], 0)], nodes - {e})
  {
    ghost var c := Cut(ch[idx], 0);
    CutAt(ch[idx], 0);
    assert Linked(t[idx], ch[idx], idx, nodes);
    t[idx] := e.next;
    forall i | 0 <= i < |ch| && i != idx ensures Linked(t[i], ch[i], i, nodes - {e}) {
      assert old(Linked(t[i], ch[i], i, nodes));
    }
    assert Linked(t[idx], c, idx, nodes - {e});
  }

  /** `*pE = e->next;` for the link in the entry before `e`. */
  method UnlinkAfter<K, V>(t: array<Entry?<K, V>>, idx: nat, prev: Entry<K, V>, e: Entry<K, V>, ghost p: nat,
                           ghost ch: seq<seq<Entry<K, V>>>, ghost nodes: set<Entry<K, V>>)
    requires Chained(t, ch, nodes) && idx < t.Length && 0 < p < |ch[idx]|
    requires e == ch[idx][p] && prev == ch[idx][p - 1]
    modifies prev
    ensures e in nodes && prev in nodes && e.next == prev.next == At(ch[idx], p + 1)
    ensures Chained(t, ch[idx := Cut(ch[idx], p)], nodes - {e})
  {
    ghost var c0, c := ch[idx], Cut(ch[idx], p);
    CutAt(c0, p);
    assert Linked(t[idx], c0, idx, nodes);
    prev.next := e.next;
    forall i | 0 <= i < |ch| && i != idx ensures Linked(t[i], ch[i], i, nodes - {e}) {
      assert old(Linked(t[i], ch[i], i, nodes));
    }
    CutLinked(t[idx], c0, p, idx, nodes);
  }

  /** `*pE = e->next;`: `prev` is null when the link is the table slot's. */
  method Unlink<K, V>(t: array<Entry?<K, V>>, idx: nat, prev: Entry?<K, V>, e: Entry<K, V>, ghost p: nat,
                      ghost ch: seq<seq<Entry<K, V>>>, ghost nodes: set<Entry<K, V>>)
    returns (next: Entry?<K, V>)
    requires Chained(t, ch, nodes) && idx < t.Length && p < |ch[idx]|
    requires e == ch[idx][p] && prev == (if p == 0 then null else ch[idx][p - 1])
    modifies t, nodes
    ensures e in nodes && e.next == next == At(ch[idx], p + 1)
    ensures Chained(t, ch[idx := Cut(ch[idx], p)], nodes - {e})
  {
    assert Linked(t[idx], ch[idx], idx, nodes);
    if prev == null {
      UnlinkHead(t, idx, e, ch, nodes);
    } else {
      UnlinkAfter(t, idx, prev, e, p, ch, nodes);
    }
    next := e.next;
  }

  /** A chain whose entry `p` has been bypassed runs through the others. */
  lemma CutLinked<K, V>(e: Entry?<K, V>, c: seq<Entry<K, V>>, p: nat, i: nat, nodes: set<Entry<K, V>>)
    requires 0 < p < |c| && e == c[0]
    requires forall j :: 0 <= j < |c| ==> c[j] in nodes && c[j].bucket == i
    requires forall j {:trigger c[j].next} :: 0 <= j < |c| && j != p - 1 ==> c[j].next == At(c, j + 1)
    requires c[p - 1].next == At(c, p + 1)
    requires forall j, m :: 0 <= j < m < |c| ==> c[j] != c[m]
    ensures Linked(e, Cut(c, p), i, nodes - {c[p]})
  {
    CutAt(c, p);
  }
}
