/** What destroying a table reads and frees, and in which order. */
module Teardown {
  import opened Buckets
  import opened Chains
  import opened Sequences

  datatype Event<K, V> =
    | Read(e: Entry<K, V>)
    | FreeKey(e: Entry<K, V>)
    | FreeValue(e: Entry<K, V>)
    | FreeEntry(e: Entry<K, V>)
    | FreeArray
    | FreeTable

  /** An entry is read before it is freed. */
  function Turn<K, V>(e: Entry<K, V>, freeValues: bool): seq<Event<K, V>> {
    [Read(e)] + Freed(e, freeValues)
  }

  /** What is freed of an entry, in order. */
  function Freed<K, V>(e: Entry<K, V>, freeValues: bool): seq<Event<K, V>> {
    if freeValues then [FreeKey(e), FreeValue(e), FreeEntry(e)] else [FreeKey(e), FreeEntry(e)]
  }

  function Turns<K, V>(freeValues: bool): Entry<K, V> -> seq<Event<K, V>> {
    (e: Entry<K, V>) => Turn(e, freeValues)
  }

  function Release<K, V>(c: seq<Entry<K, V>>, freeValues: bool): seq<Event<K, V>> {
    FlatMap(Turns(freeValues), c)
  }

  predicate Uses<K, V>(event: Event<K, V>, e: Entry<K, V>) {
    !event.FreeArray? && !event.FreeTable? && event.e == e
  }

  ghost predicate NoUseAfterFree<K, V>(events: seq<Event<K, V>>) {
    forall i, j :: 0 <= i < j < |events| && events[i].FreeEntry? ==> !Uses(events[j], events[i].e)
  }

  function FreedKeys<K, V>(events: seq<Event<K, V>>): seq<K> {
    if events == [] then []
    else if events[0].FreeKey? then [events[0].e.k] + FreedKeys(events[1..])
    else FreedKeys(events[1..])
  }

  function FreedValues<K, V>(events: seq<Event<K, V>>): seq<V> {
    if events == [] then []
    else if events[0].FreeValue? then [events[0].e.v] + FreedValues(events[1..])
    else FreedValues(events[1..])
  }

  function Keys<K, V>(c: seq<Item<K, V>>): seq<K> {
    seq(|c|, i requires 0 <= i < |c| => c[i].k)
  }

  function Values<K, V>(c: seq<Item<K, V>>): seq<V> {
    seq(|c|, i requires 0 <= i < |c| => c[i].v)
  }

  ghost predicate Distinct<T>(c: seq<T>) {
    forall i, j :: 0 <= i < j < |c| ==> c[i] != c[j]
  }

  // ------------------------------------------------------------- what Release does

  lemma {:induction false} ReleaseUses<K, V>(c: seq<Entry<K, V>>, freeValues: bool, e: Entry<K, V>)
    requires e !in c
    ensures forall event :: event in Release(c, freeValues) ==> !Uses(event, e)
  {
    if c != [] {
      ReleaseUses(c[1..], freeValues, e);
    }
  }

  lemma TurnIsSafe<K, V>(e: Entry<K, V>, freeValues: bool)
    ensures NoUseAfterFree(Turn(e, freeValues)) && multiset(Turn(e, freeValues))[FreeEntry(e)] == 1
    ensures forall event :: event in Turn(e, freeValues) ==> Uses(event, e)
  {
  }

  lemma SafeAppend<K, V>(a: seq<Event<K, V>>, b: seq<Event<K, V>>)
    requires NoUseAfterFree(a) && NoUseAfterFree(b)
    requires forall x, y :: x in a && y in b && x.FreeEntry? ==> !Uses(y, x.e)
    ensures NoUseAfterFree(a + b)
  {
    var ab := a + b;
    forall i, j | 0 <= i < j < |ab| && ab[i].FreeEntry? ensures !Uses(ab[j], ab[i].e) {
      if i < |a| <= j {
        assert ab[i] in a && ab[j] in b;
      }
    }
  }

  lemma {:induction false} ReleaseIsSafe<K, V>(c: seq<Entry<K, V>>, freeValues: bool)
    requires Distinct(c)
    ensures NoUseAfterFree(Release(c, freeValues))
    ensures forall e :: e in c ==> multiset(Release(c, freeValues))[FreeEntry(e)] == 1
  {
    if c != [] {
      var first, rest := c[0], c[1..];
      assert first !in rest;
      ReleaseIsSafe(rest, freeValues);
      ReleaseUses(rest, freeValues, first);
      TurnIsSafe(first, freeValues);
      SafeAppend(Turn(first, freeValues), Release(rest, freeValues));
      forall e | e in c ensures multiset(Release(c, freeValues))[FreeEntry(e)] == 1 {
        Once(first, rest, freeValues, e);
      }
    }
  }

  lemma Once<K, V>(first: Entry<K, V>, rest: seq<Entry<K, V>>, freeValues: bool, e: Entry<K, V>)
    requires first !in rest && (e == first || e in rest)
    requires e in rest ==> multiset(Release(rest, freeValues))[FreeEntry(e)] == 1
    requires forall event :: event in Release(rest, freeValues) ==> !Uses(event, first)
    ensures multiset(Turn(first, freeValues) + Release(rest, freeValues))[FreeEntry(e)] == 1
  {
    TurnIsSafe(first, freeValues);
    if e == first {
      assert FreeEntry(e) !in Release(rest, freeValues);
    } else {
      assert FreeEntry(e) !in Turn(first, freeValues);
    }
  }

  lemma {:induction false} FreedAppend<K, V>(a: seq<Event<K, V>>, b: seq<Event<K, V>>)
    ensures FreedKeys(a + b) == FreedKeys(a) + FreedKeys(b)
    ensures FreedValues(a + b) == FreedValues(a) + FreedValues(b)
  {
    if a == [] {
      assert a + b == b;
    } else {
      FreedAppend(a[1..], b);
      assert (a + b)[1..] == a[1..] + b;
    }
  }

  lemma TurnFrees<K, V>(e: Entry<K, V>, freeValues: bool)
    ensures FreedKeys(Turn(e, freeValues)) == [e.k]
    ensures FreedValues(Turn(e, freeValues)) == if freeValues then [e.v] else []
  {
    FreedAlone(Read(e));
    FreedAlone(FreeKey(e));
    FreedAlone(FreeValue(e));
    FreedAlone(FreeEntry(e));
    var start, end := [Read(e)] + [FreeKey(e)], [FreeEntry(e)];
    FreedAppend([Read(e)], [FreeKey(e)]);
    FreedAppend(start, [FreeValue(e)]);
    FreedAppend(start + [FreeValue(e)], end);
    FreedAppend(start, end);
    assert Turn(e, freeValues) == if freeValues then start + [FreeValue(e)] + end else start + end;
  }

  lemma FreedAlone<K, V>(event: Event<K, V>)
    ensures FreedKeys([event]) == if event.FreeKey? then [event.e.k] else []
    ensures FreedValues([event]) == if event.FreeValue? then [event.e.v] else []
  {
    assert [event][1..] == [];
  }

  lemma FirstCell<K, V>(c: seq<Entry<K, V>>)
    requires c != []
    ensures Keys(Cells(c)) == [c[0].k] + Keys(Cells(c[1..]))
    ensures Values(Cells(c)) == [c[0].v] + Values(Cells(c[1..]))
  {
    assert Cells(c) == [c[0].Cell()] + Cells(c[1..]);
  }

  lemma {:induction false} ReleaseFrees<K, V>(c: seq<Entry<K, V>>, freeValues: bool)
    ensures FreedKeys(Release(c, freeValues)) == Keys(Cells(c))
    ensures FreedValues(Release(c, freeValues)) == if freeValues then Values(Cells(c)) else []
  {
    if c != [] {
      ReleaseFrees(c[1..], freeValues);
      TurnFrees(c[0], freeValues);
      FreedAppend(Turn(c[0], freeValues), Release(c[1..], freeValues));
      FirstCell(c);
    }
  }

  // ---------------------------------------------------------------- whole tables

  lemma {:induction false} FlattenView<K, V>(ch: seq<seq<Entry<K, V>>>)
    ensures Cells(Flatten(ch)) == Flatten(View(ch))
  {
    if ch != [] {
      FlattenView(ch[1..]);
      assert View(ch)[1..] == View(ch[1..]);
    }
  }

  /** The entries of all chains are different. */
  lemma {:induction false} AllDistinct<K, V>(t: array<Entry?<K, V>>, ch: seq<seq<Entry<K, V>>>,
                                             nodes: set<Entry<K, V>>, i: nat)
    requires Chained(t, ch, nodes) && i <= |ch|
    ensures Distinct(Flatten(ch[i..]))
    ensures forall e :: e in Flatten(ch[i..]) ==> e in nodes && e.bucket >= i
    decreases |ch| - i
  {
    if i < |ch| {
      AllDistinct(t, ch, nodes, i + 1);
      assert Linked(t[i], ch[i], i, nodes);
      assert ch[i..][1..] == ch[i + 1..];
      DistinctAppend(ch[i], Flatten(ch[i + 1..]));
    }
  }

  lemma DistinctAppend<T>(a: seq<T>, b: seq<T>)
    requires Distinct(a) && Distinct(b) && forall x :: x in a ==> x !in b
    ensures Distinct(a + b)
  {
    forall i, j | 0 <= i < j < |a + b| ensures (a + b)[i] != (a + b)[j] {
      if i < |a| <= j {
        assert (a + b)[i] in a && (a + b)[j] in b;
      }
    }
  }

  /** What releasing all chains, then the array and the table, amounts to. */
  lemma Released<K, V>(t: array<Entry?<K, V>>, freeValues: bool, ch: seq<seq<Entry<K, V>>>, nodes: set<Entry<K, V>>)
    requires Chained(t, ch, nodes)
    ensures var events := Release(Flatten(ch), freeValues) + [FreeArray, FreeTable];
            && NoUseAfterFree(events)
            && (forall e :: e in Flatten(ch) ==> multiset(events)[FreeEntry(e)] == 1)
            && FreedKeys(events) == Keys(Flatten(View(ch)))
            && FreedValues(events) == if freeValues then Values(Flatten(View(ch))) else []
  {
    var c := Flatten(ch);
    AllDistinct(t, ch, nodes, 0);
    assert ch[0..] == ch;
    ReleaseIsSafe(c, freeValues);
    ReleaseFrees(c, freeValues);
    FlattenView(ch);
    TableLast(Release(c, freeValues));
  }

  lemma TableLast<K, V>(events: seq<Event<K, V>>)
    requires NoUseAfterFree(events)
    ensures var all := events + [FreeArray, FreeTable];
            && NoUseAfterFree(all) && FreedKeys(all) == FreedKeys(events) && FreedValues(all) == FreedValues(events)
            && forall e :: multiset(all)[FreeEntry(e)] == multiset(events)[FreeEntry(e)]
  {
    var last: seq<Event<K, V>> := [FreeArray] + [FreeTable];
    assert last == [FreeArray, FreeTable];
    SafeAppend(events, last);
    FreedAlone<K, V>(FreeArray);
    FreedAlone<K, V>(FreeTable);
    FreedAppend<K, V>([FreeArray], [FreeTable]);
    FreedAppend(events, last);
  }

  // ------------------------------------------------------------------- the loops

  /** `e->next`, noted in the log. */
  method ReadNext<K, V>(e: Entry<K, V>, ghost live: set<Entry<K, V>>, events: seq<Event<K, V>>)
    returns (next: Entry?<K, V>, events': seq<Event<K, V>>)
    requires e in live
    ensures next == e.next && events' == events + [Read(e)]
  {
    next := NextOf(e, live);
    events' := events + [Read(e)];
  }

  /** `freekey(f->k)`, `free(f->v)` if asked, and `free(f)`. */
  method FreeTurn<K, V>(f: Entry<K, V>, freeValues: bool, ghost live: set<Entry<K, V>>, events: seq<Event<K, V>>)
    returns (events': seq<Event<K, V>>, ghost live': set<Entry<K, V>>)
    requires f in live
    modifies f`next
    ensures events' == events + Freed(f, freeValues) && live' == live - {f}
  {
    events' := events + [FreeKey(f)];
    if freeValues {
      events' := events' + [FreeValue(f)];
    }
    live' := Free(f, live);
    events' := events' + [FreeEntry(f)];
  }

  method FreeAll<K, V>(table: array<Entry?<K, V>>, freeValues: bool,
                       ghost ch: seq<seq<Entry<K, V>>>, ghost nodes: set<Entry<K, V>>)
    returns (events: seq<Event<K, V>>, ghost live: set<Entry<K, V>>)
    requires Chained(table, ch, nodes)
    modifies nodes`next
    ensures events == Release(Flatten(ch), freeValues)
    ensures LeftOver(live, nodes, Flatten(ch))
  {
    events, live := [], nodes;
    var i := 0;
    while i < table.Length
      invariant 0 <= i <= table.Length == |ch|
      invariant ChainedFrom(table, ch, nodes, i)
      invariant events == Release(Flatten(ch[..i]), freeValues)
      invariant LeftOver(live, nodes, Flatten(ch[..i]))
      invariant forall e :: e in Flatten(ch[..i]) ==> e in nodes && e.bucket < i
    {
      events, live := FreeNext(table, i, freeValues, ch, nodes, events, live);
      i := i + 1;
    }
    assert ch[..i] == ch;
  }

  /** The chains from bucket `i` on. */
  ghost predicate ChainedFrom<K, V>(t: array<Entry?<K, V>>, ch: seq<seq<Entry<K, V>>>, nodes: set<Entry<K, V>>, i: nat)
    reads t, nodes
  {
    |ch| == t.Length && forall m :: i <= m < |ch| ==> Linked(t[m], ch[m], m, nodes)
  }

  /** Of `nodes`, all but `freed` are still allocated. */
  ghost predicate LeftOver<K, V>(live: set<Entry<K, V>>, nodes: set<Entry<K, V>>, freed: seq<Entry<K, V>>) {
    forall e :: e in nodes ==> (e in live <==> e !in freed)
  }

  /** The body of the loop: one chain. */
  method FreeNext<K, V>(table: array<Entry?<K, V>>, i: nat, freeValues: bool,
                        ghost ch: seq<seq<Entry<K, V>>>, ghost nodes: set<Entry<K, V>>,
                        events: seq<Event<K, V>>, ghost live: set<Entry<K, V>>)
    returns (events': seq<Event<K, V>>, ghost live': set<Entry<K, V>>)
    requires ChainedFrom(table, ch, nodes, i) && i < table.Length
    requires events == Release(Flatten(ch[..i]), freeValues) && LeftOver(live, nodes, Flatten(ch[..i]))
    requires forall e :: e in Flatten(ch[..i]) ==> e in nodes && e.bucket < i
    modifies nodes`next
    ensures ChainedFrom(table, ch, nodes, i + 1)
    ensures events' == Release(Flatten(ch[..i + 1]), freeValues)
    ensures LeftOver(live', nodes, Flatten(ch[..i + 1]))
    ensures forall e :: e in Flatten(ch[..i + 1]) ==> e in nodes && e.bucket < i + 1
  {
    assert Linked(table[i], ch[i], i, nodes);
    OneChainMore(ch, i, freeValues);
    var more;
    more, live' := FreeChain(table[i], freeValues, ch[i], i, nodes, live);
    events' := events + more;
    forall m | i + 1 <= m < |ch| ensures Linked(table[m], ch[m], m, nodes) {
      assert old(Linked(table[m], ch[m], m, nodes));
    }
  }

  lemma OneChainMore<K, V>(ch: seq<seq<Entry<K, V>>>, i: nat, freeValues: bool)
    requires i < |ch|
    ensures Release(Flatten(ch[..i + 1]), freeValues)
         == Release(Flatten(ch[..i]), freeValues) + Release(ch[i], freeValues)
    ensures Flatten(ch[..i + 1]) == Flatten(ch[..i]) + ch[i]
  {
    assert ch[..i + 1] == ch[..i] + [ch[i]];
    FlattenSnoc(ch[..i], ch[i]);
    FlatMapAppend(Turns<K, V>(freeValues), Flatten(ch[..i]), ch[i]);
  }

  method FreeChain<K, V>(head: Entry?<K, V>, freeValues: bool, ghost c: seq<Entry<K, V>>, ghost i: nat,
                         ghost nodes: set<Entry<K, V>>, ghost live0: set<Entry<K, V>>)
    returns (events: seq<Event<K, V>>, ghost live: set<Entry<K, V>>)
    requires Linked(head, c, i, nodes) && forall e :: e in c ==> e in live0
    modifies (set e | e in c)`next
    ensures events == Release(c, freeValues)
    ensures forall e :: e in live <==> e in live0 && e !in c
  {
    events, live := [], live0;
    var e := head;
    ghost var p := 0;
    while e != null
      invariant p <= |c| && e == At(c, p)
      invariant forall j {:trigger c[j].next} :: p <= j < |c| ==> c[j].next == At(c, j + 1)
      invariant events == Release(c[..p], freeValues)
      invariant forall x :: x in live <==> x in live0 && x !in c[..p]
      decreases |c| - p
    {
      OneEntryMore(c, p, freeValues);
      var f := e;
      e, events := ReadNext(f, live, events);
      events, live := FreeTurn(f, freeValues, live, events);
      p := p + 1;
    }
    assert c[..p] == c;
  }

  lemma OneEntryMore<K, V>(c: seq<Entry<K, V>>, p: nat, freeValues: bool)
    requires p < |c|
    ensures Release(c[..p + 1], freeValues) == Release(c[..p], freeValues) + [Read(c[p])] + Freed(c[p], freeValues)
    ensures c[..p + 1] == c[..p] + [c[p]]
  {
    assert c[..p + 1] == c[..p] + [c[p]];
    FlatMapSnoc(Turns<K, V>(freeValues), c[..p], c[p]);
    Regroup(Release(c[..p], freeValues), [Read(c[p])], Freed(c[p], freeValues));
  }

  lemma Regroup<T>(a: seq<T>, b: seq<T>, c: seq<T>)
    ensures a + (b + c) == a + b + c
  {
  }
}
