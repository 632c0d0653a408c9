/** The two loops of `hashtable_expand`. */
module Rehash {
  import opened Buckets
  import opened Chains

  // -------------------------------------------------------------------- plan A

  lemma PushedFirst<K, V>(x: Item<K, V>, c: seq<Item<K, V>>, rest: seq<Item<K, V>>, b: seq<seq<Item<K, V>>>)
    requires |b| > 0
    ensures PushAll(([x] + c) + rest, b) == PushAll(c + rest, Push(b, x))
  {
    assert (([x] + c) + rest)[1..] == c + rest;
  }

  /** Plan A: the entries move, chain by chain, to the heads of the new chains. */
  method RehashIntoNew<K, V>(table: array<Entry?<K, V>>, newtable: array<Entry?<K, V>>,
                             ghost ch: seq<seq<Entry<K, V>>>, ghost nodes: set<Entry<K, V>>)
    returns (ghost ch': seq<seq<Entry<K, V>>>)
    requires table != newtable && newtable.Length > 0 && Chained(table, ch, nodes)
    requires forall i :: 0 <= i < newtable.Length ==> newtable[i] == null
    modifies table, newtable, nodes
    ensures Chained(newtable, ch', nodes) && View(ch') == PlanA(View(ch), newtable.Length)
  {
    ghost var goal := PlanA(View(ch), newtable.Length);
    ghost var todo, rest := ch, nodes;
    ch' := Empty(newtable.Length);
    ghost var moved: set<Entry<K, V>> := {};
    ViewEmpty<K, V>(newtable.Length);
    assert View(ch)[0..] == View(ch);
    var i := 0;
    while i < table.Length
      invariant 0 <= i <= table.Length == |todo| == |ch| && |ch'| == newtable.Length
      invariant Chained(table, todo, rest) && Chained(newtable, ch', moved)
      invariant rest !! moved && rest + moved == nodes
      invariant forall m :: i <= m < |ch| ==> todo[m] == ch[m]
      invariant forall m :: 0 <= m < i ==> todo[m] == []
      invariant PushAll(Flatten(View(ch)[i..]), View(ch')) == goal
    {
      ghost var later := Flatten(View(ch)[i + 1..]);
      assert View(ch)[i..][1..] == View(ch)[i + 1..];
      todo, rest, ch', moved := MoveChain(table, newtable, i, todo, rest, ch', moved, later);
      i := i + 1;
    }
    assert View(ch)[i..] == [];
    WidenNodes(newtable, ch', moved, nodes);
  }

  lemma ViewEmpty<K, V>(n: nat)
    ensures View<K, V>(Empty(n)) == Empty(n)
  {
    var e: seq<seq<Entry<K, V>>> := Empty(n);
    forall i | 0 <= i < n ensures View(e)[i] == [] {
      assert Cells(e[i]) == [];
    }
  }

  lemma WidenNodes<K, V>(t: array<Entry?<K, V>>, ch: seq<seq<Entry<K, V>>>,
                         nodes: set<Entry<K, V>>, more: set<Entry<K, V>>)
    requires Chained(t, ch, nodes) && nodes <= more
    ensures Chained(t, ch, more)
  {
    forall i | 0 <= i < |ch| ensures Linked(t[i], ch[i], i, more) {
      assert Linked(t[i], ch[i], i, nodes);
    }
  }

  /** The inner loop: `while (NULL != (e = h->table[i]))`. */
  method MoveChain<K, V>(table: array<Entry?<K, V>>, newtable: array<Entry?<K, V>>, i: nat,
                         ghost todo0: seq<seq<Entry<K, V>>>, ghost rest0: set<Entry<K, V>>,
                         ghost ch0: seq<seq<Entry<K, V>>>, ghost moved0: set<Entry<K, V>>,
                         ghost later: seq<Item<K, V>>)
    returns (ghost todo: seq<seq<Entry<K, V>>>, ghost rest: set<Entry<K, V>>,
             ghost ch: seq<seq<Entry<K, V>>>, ghost moved: set<Entry<K, V>>)
    requires table != newtable && newtable.Length > 0 && i < table.Length
    requires Chained(table, todo0, rest0) && Chained(newtable, ch0, moved0) && rest0 !! moved0
    modifies table, newtable, rest0
    ensures Chained(table, todo, rest) && Chained(newtable, ch, moved)
    ensures rest !! moved && rest + moved == rest0 + moved0
    ensures todo == todo0[i := []]
    ensures PushAll(later, View(ch)) == PushAll(Cells(todo0[i]) + later, View(ch0))
  {
    todo, rest, ch, moved := todo0, rest0, ch0, moved0;
    ghost var goal := PushAll(Cells(todo0[i]) + later, View(ch0));
    while table[i] != null
      invariant Chained(table, todo, rest) && Chained(newtable, ch, moved)
      invariant rest !! moved && rest + moved == rest0 + moved0 && rest <= rest0
      invariant |todo| == |todo0| && todo == todo0[i := todo[i]]
      invariant PushAll(Cells(todo[i]) + later, View(ch)) == goal
      decreases |todo[i]|
    {
      todo, rest, ch, moved := MoveHead(table, newtable, i, todo, rest, ch, moved, later);
    }
    assert Linked(table[i], todo[i], i, rest);
    assert Cells(todo[i]) + later == later;
  }

  /** Its body: the first entry of chain `i` goes to the head of its new chain. */
  method MoveHead<K, V>(table: array<Entry?<K, V>>, newtable: array<Entry?<K, V>>, i: nat,
                        ghost todo0: seq<seq<Entry<K, V>>>, ghost rest0: set<Entry<K, V>>,
                        ghost ch0: seq<seq<Entry<K, V>>>, ghost moved0: set<Entry<K, V>>,
                        ghost later: seq<Item<K, V>>)
    returns (ghost todo: seq<seq<Entry<K, V>>>, ghost rest: set<Entry<K, V>>,
             ghost ch: seq<seq<Entry<K, V>>>, ghost moved: set<Entry<K, V>>)
    requires table != newtable && newtable.Length > 0 && i < table.Length && table[i] != null
    requires Chained(table, todo0, rest0) && Chained(newtable, ch0, moved0) && rest0 !! moved0
    modifies table, newtable, rest0
    ensures Chained(table, todo, rest) && Chained(newtable, ch, moved)
    ensures rest !! moved && rest + moved == rest0 + moved0 && rest <= rest0
    ensures todo0[i] != [] && todo == todo0[i := todo0[i][1..]]
    ensures PushAll(Cells(todo[i]) + later, View(ch)) == PushAll(Cells(todo0[i]) + later, View(ch0))
  {
    assert Linked(table[i], todo0[i], i, rest0);
    var e := table[i];
    var index := IndexFor(newtable.Length, e.h);
    ghost var tail := todo0[i][1..];
    assert Cut(todo0[i], 0) == tail;
    todo, rest := todo0[i := tail], rest0 - {e};
    ch, moved := ch0[index := [e] + ch0[index]], moved0 + {e};
    assert Cells(todo0[i]) == [e.Cell()] + Cells(tail);
    PushedFirst(e.Cell(), Cells(tail), later, View(ch0));
    ViewPush(ch0, index, e);
    UnlinkHead(table, i, e, todo0, rest0);
    PushFront(newtable, index, e, ch0, moved0);
  }

  // -------------------------------------------------------------------- plan B

  /** What sweeping bucket `i` still has to do once its chain has been walked past
      `done`, with `rest` ahead. */
  ghost function SweepFrom<K, V>(b: seq<seq<Item<K, V>>>, i: nat, done: seq<Item<K, V>>, rest: seq<Item<K, V>>)
    : seq<seq<Item<K, V>>>
    requires i < |b|
  {
    PushAll(Leaving(rest, |b|, i), b[i := done + InSlot(rest, |b|, i)])
  }

  lemma SweepStays<K, V>(b: seq<seq<Item<K, V>>>, i: nat, done: seq<Item<K, V>>, x: Item<K, V>, rest: seq<Item<K, V>>)
    requires i < |b| && IndexFor(|b|, x.h) == i
    ensures SweepFrom(b, i, done, [x] + rest) == SweepFrom(b, i, done + [x], rest)
  {
    FilterCons(AtSlot<K, V>(|b|, i), x, rest);
    FilterCons(OffSlot<K, V>(|b|, i), x, rest);
    assert done + ([x] + InSlot(rest, |b|, i)) == (done + [x]) + InSlot(rest, |b|, i);
  }

  lemma SweepMoves<K, V>(b: seq<seq<Item<K, V>>>, b': seq<seq<Item<K, V>>>, i: nat,
                         done: seq<Item<K, V>>, x: Item<K, V>, rest: seq<Item<K, V>>)
    requires i < |b| && IndexFor(|b|, x.h) != i
    requires b' == b[i := done + rest][IndexFor(|b|, x.h) := [x] + b[IndexFor(|b|, x.h)]]
    ensures SweepFrom(b, i, done, [x] + rest) == SweepFrom(b', i, done, rest)
  {
    var home := done + InSlot(rest, |b|, i);
    FilterCons(AtSlot<K, V>(|b|, i), x, rest);
    FilterCons(OffSlot<K, V>(|b|, i), x, rest);
    assert ([x] + Leaving(rest, |b|, i))[1..] == Leaving(rest, |b|, i);
    assert Push(b[i := home], x) == b'[i := home];
  }

  /** The inner loop: walk bucket `i`, moving out what belongs elsewhere. */
  method SweepBucket<K, V>(t: array<Entry?<K, V>>, i: nat,
                           ghost ch0: seq<seq<Entry<K, V>>>, ghost nodes: set<Entry<K, V>>)
    returns (ghost ch: seq<seq<Entry<K, V>>>)
    requires Chained(t, ch0, nodes) && i < t.Length
    modifies t, nodes
    ensures Chained(t, ch, nodes) && View(ch) == Sweep(View(ch0), i)
  {
    ch := ch0;
    ghost var p, goal := 0, Sweep(View(ch0), i);
    var prev: Entry?<K, V> := null;
    var e := t[i];
    assert Linked(t[i], ch[i], i, nodes);
    assert Cells(ch[i])[..0] == [] && Cells(ch[i])[0..] == Cells(ch[i]);
    assert [] + InSlot(Cells(ch[i]), |ch|, i) == InSlot(Cells(ch[i]), |ch|, i);
    while e != null
      invariant |ch| == t.Length && Chained(t, ch, nodes) && p <= |ch[i]|
      invariant e == At(ch[i], p) && prev == if p == 0 then null else ch[i][p - 1]
      invariant SweepFrom(View(ch), i, Cells(ch[i])[..p], Cells(ch[i])[p..]) == goal
      decreases |ch[i]| - p
    {
      assert Linked(t[i], ch[i], i, nodes);
      ghost var c, x := Cells(ch[i]), e.Cell();
      assert c[p..] == [x] + c[p + 1..] && c[..p + 1] == c[..p] + [x];
      var index := IndexFor(t.Length, e.h);
      if index == i {
        SweepStays(View(ch), i, c[..p], x, c[p + 1..]);
        prev, e, p := e, e.next, p + 1;
      } else {
        MoveOutSweeps(ch, i, p, index);
        CutAt(ch[i], p);
        e, ch := MoveOut(t, i, prev, e, p, index, ch, nodes);
      }
    }
    SweepEnd(View(ch), i, Cells(ch[i])[..p], Cells(ch[i])[p..]);
  }

  lemma SweepEnd<K, V>(b: seq<seq<Item<K, V>>>, i: nat, done: seq<Item<K, V>>, rest: seq<Item<K, V>>)
    requires i < |b| && b[i] == done && rest == []
    ensures SweepFrom(b, i, done, rest) == b
  {
    assert done + [] == done;
  }

  lemma MoveOutSweeps<K, V>(ch: seq<seq<Entry<K, V>>>, i: nat, p: nat, index: nat)
    requires i < |ch| && p < |ch[i]| && index == IndexFor(|ch|, ch[i][p].h) != i
    ensures var ch' := ch[i := Cut(ch[i], p)][index := [ch[i][p]] + ch[index]];
            var c, c' := Cells(ch[i]), Cells(ch'[i]);
            SweepFrom(View(ch), i, c[..p], c[p..]) == SweepFrom(View(ch'), i, c'[..p], c'[p..])
  {
    var e, ch1 := ch[i][p], ch[i := Cut(ch[i], p)];
    var c, x := Cells(ch[i]), e.Cell();
    var ch' := ch1[index := [e] + ch1[index]];
    ViewCut(ch, i, p);
    ViewPush(ch1, index, e);
    assert c[p..] == [x] + c[p + 1..];
    SweepMoves(View(ch), View(ch'), i, c[..p], x, c[p + 1..]);
    assert Cells(ch'[i]) == Cut(c, p);
    assert Cut(c, p)[..p] == c[..p] && Cut(c, p)[p..] == c[p + 1..];
  }

  /** `*pE = e->next; e->next = newtable[index]; newtable[index] = e;` */
  method MoveOut<K, V>(t: array<Entry?<K, V>>, i: nat, prev: Entry?<K, V>, e: Entry<K, V>, ghost p: nat,
                       index: nat, ghost ch: seq<seq<Entry<K, V>>>, ghost nodes: set<Entry<K, V>>)
    returns (next: Entry?<K, V>, ghost ch': seq<seq<Entry<K, V>>>)
    requires Chained(t, ch, nodes) && i < t.Length && p < |ch[i]| && index == IndexFor(t.Length, e.h) != i
    requires e == ch[i][p] && prev == (if p == 0 then null else ch[i][p - 1])
    modifies t, nodes
    ensures Chained(t, ch', nodes) && |ch'| == |ch| && next == At(ch'[i], p)
    ensures ch'[i] == Cut(ch[i], p)
    ensures ch' == ch[i := Cut(ch[i], p)][index := [ch[i][p]] + ch[index]]
  {
    ghost var ch1 := ch[i := Cut(ch[i], p)];
    CutAt(ch[i], p);
    next := Unlink(t, i, prev, e, p, ch, nodes);
    PushFront(t, index, e, ch1, nodes - {e});
    ch' := ch1[index := [e] + ch1[index]];
    assert nodes - {e} + {e} == nodes;
  }

  /** Plan B: the first `tablelength` buckets are swept in turn, in place. */
  method RehashInPlace<K, V>(t: array<Entry?<K, V>>, tablelength: nat,
                             ghost ch0: seq<seq<Entry<K, V>>>, ghost nodes: set<Entry<K, V>>)
    returns (ghost ch: seq<seq<Entry<K, V>>>)
    requires Chained(t, ch0, nodes) && tablelength <= t.Length
    modifies t, nodes
    ensures Chained(t, ch, nodes) && View(ch) == Swept(View(ch0), tablelength)
  {
    ch := ch0;
    var i := 0;
    while i < tablelength
      invariant 0 <= i <= tablelength
      invariant |ch| == t.Length && Chained(t, ch, nodes)
      invariant View(ch) == Swept(View(ch0), i)
    {
      ch := SweepBucket(t, i, ch, nodes);
      i := i + 1;
    }
  }
}
