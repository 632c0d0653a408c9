/** The chained hash table, as objects on the heap. */
module HashTable {
  import opened Buckets
  import opened Chains
  import opened TableSpec
  import opened CBytes
  import opened Teardown
  import Rehash

  class HashTable<K(!new), V> {
    const hashfn: K -> uint32
    const eqfn: (K, K) -> bool
    const hash: K -> uint32                  // the function `hash`: `hashfn`, mixed
    var tablelength: nat
    var table: array<Entry?<K, V>>
    var entrycount: nat
    var loadlimit: nat
    var primeindex: nat

    ghost var chains: seq<seq<Entry<K, V>>>  // the entries of each chain, in order
    ghost var nodes: set<Entry<K, V>>        // all entries
    ghost var buckets: seq<seq<Item<K, V>>>  // what the chains hold

    /** What the table holds. */
    ghost function Contents(): Table<K, V>
      reads this
    {
      Table(buckets, primeindex)
    }

    /** The chains hold `buckets` ... */
    ghost predicate Shape()
      reads this`table, this`chains, this`nodes, this`buckets, table, nodes
    {
      Chained(table, chains, nodes) && buckets == View(chains)
    }

    /** ... with every entry where it belongs. */
    ghost predicate Stored()
      reads this`table, this`chains, this`nodes, this`buckets, table, nodes
    {
      Shape() && Good(buckets, hash)
    }

    /** Consistent, but for `extra` in the entry count. */
    ghost predicate Consistent(extra: nat)
      reads this, table, nodes
    {
      && Stored() && Sized(Contents())
      && tablelength == table.Length
      && loadlimit == LoadLimit(tablelength)
      && entrycount == Count(Contents()) + extra
    }

    ghost predicate Valid()
      reads this, table, nodes
    {
      Consistent(0)
    }

    /** An empty table of `size` buckets, the prime at `pindex`. */
    constructor Make(size: nat, pindex: nat, hashf: K -> uint32, eqf: (K, K) -> bool)
      requires pindex < |PRIMES| && size == PRIMES[pindex]
      ensures Valid() && fresh(table) && nodes == {}
      ensures hashfn == hashf && eqfn == eqf && primeindex == pindex
      ensures forall k :: hash(k) == Mix(hashf(k))
      ensures Count(Contents()) == 0
    {
      var t := new Entry?<K, V>[size](_ => null);
      table, tablelength, primeindex, entrycount := t, size, pindex, 0;
      hashfn, eqfn, loadlimit := hashf, eqf, LoadLimit(size);
      hash := k => Mix(hashf(k));
      chains, nodes, buckets := Empty(size), {}, Empty(size);
      new;
      PrimesGrow(pindex);
      Rehash.ViewEmpty<K, V>(size);
      BagEmpty<Item<K, V>>(size);
      CountIsBagSize(buckets);
    }

    /** `hashtable_expand`, called with the entry to come already counted.  `mem` says
        which allocations succeed. */
    method Expand(mem: Memory) returns (ok: bool)
      requires Consistent(1)
      modifies this, table, nodes
      ensures Consistent(1)
      ensures Contents() == Expanded(old(Contents()), mem).0 && ok == Expanded(old(Contents()), mem).1
      ensures nodes == old(nodes) && entrycount == old(entrycount)
      ensures table == old(table) || fresh(table)
    {
      ExpandedIs(Contents(), mem);
      if primeindex == |PRIMES| - 1 {
        return false;
      }
      if !mem.newTable && !mem.realloc {
        // The source advances primeindex first and takes it back here.
        return false;
      }
      if mem.newTable {
        GrowA();
      } else {
        GrowB();
      }
      return true;
    }

    /** The first allocation succeeded: a new table of the next size. */
    method GrowA()
      requires Consistent(1) && primeindex + 1 < |PRIMES|
      modifies this`primeindex, this`tablelength, this`loadlimit, this`table, this`chains, this`buckets, table, nodes
      ensures Consistent(1) && fresh(table) && primeindex == old(primeindex) + 1
      ensures buckets == PlanA(old(buckets), PRIMES[primeindex])
    {
      PrimesGrow(primeindex);
      var newsize := PRIMES[primeindex + 1];
      PlanAGood(buckets, hash, newsize);
      var newtable, ch := TableA(table, newsize, chains, nodes);
      Install(newtable, ch, PlanA(buckets, newsize));
    }

    /** Plan B: a longer bucket array, the new buckets empty, swept in place. */
    method GrowB()
      requires Consistent(1) && primeindex + 1 < |PRIMES|
      modifies this`primeindex, this`tablelength, this`loadlimit, this`table, this`chains, this`buckets, table, nodes
      ensures Consistent(1) && fresh(table) && primeindex == old(primeindex) + 1
      ensures buckets == PlanB(old(buckets), PRIMES[primeindex])
    {
      PrimesGrow(primeindex);
      var newsize := PRIMES[primeindex + 1];
      PlanBGood(buckets, hash, newsize);
      var newtable, ch := TableB(table, newsize, chains, nodes);
      Install(newtable, ch, PlanB(buckets, newsize));
    }

    /** The new bucket array takes the place of the old one. */
    method Install(newtable: array<Entry?<K, V>>, ghost ch: seq<seq<Entry<K, V>>>, ghost b: seq<seq<Item<K, V>>>)
      requires primeindex + 1 < |PRIMES| && newtable.Length == PRIMES[primeindex + 1]
      requires Chained(newtable, ch, nodes) && b == View(ch) && Good(b, hash) && entrycount == ChainLengths(b) + 1
      modifies this`primeindex, this`tablelength, this`loadlimit, this`table, this`chains, this`buckets
      ensures Consistent(1) && table == newtable && primeindex == old(primeindex) + 1 && buckets == b
    {
      primeindex, table, chains, buckets := primeindex + 1, newtable, ch, b;
      tablelength, loadlimit := newtable.Length, LoadLimit(newtable.Length);
    }

    /** `hashtable_insert`. */
    method Insert(k: K, v: V, mem: Memory) returns (ok: bool)
      requires Valid()
      modifies this, table, nodes
      ensures Valid()
      ensures Contents() == Inserted(old(Contents()), Item(k, v, hash(k)), mem).0
      ensures ok == Inserted(old(Contents()), Item(k, v, hash(k)), mem).1
      ensures fresh(nodes - old(nodes)) && (table == old(table) || fresh(table))
    {
      CountIn(mem);
      if !mem.entry {
        entrycount := entrycount - 1;
        return false;
      }
      ghost var added := Add(k, v);
      assert nodes - old(nodes) <= {added};
      return true;
    }

    /** Counts the entry to come and makes room for it. */
    method CountIn(mem: Memory)
      requires Valid()
      modifies this, table, nodes
      ensures Consistent(1) && nodes == old(nodes) && (table == old(table) || fresh(table))
      ensures Contents() == if old(Count(Contents()) + 1 > LoadLimit(|buckets|))
                            then Expanded(old(Contents()), mem).0 else old(Contents())
    {
      entrycount := entrycount + 1;
      if entrycount > loadlimit {
        // The result is ignored: one more entry may still fit.
        var _ := Expand(mem);
      }
    }

    /** A new entry at the head of its chain. */
    method Add(k: K, v: V) returns (ghost added: Entry<K, V>)
      requires Consistent(1)
      modifies this`chains, this`buckets, this`nodes, table
      ensures Valid()
      ensures fresh(added) && nodes == old(nodes) + {added}
      ensures Contents() == old(Contents()).(buckets := Push(old(Contents()).buckets, Item(k, v, hash(k))))
    {
      PushGood(buckets, hash, Item(k, v, hash(k)));
      PushCount(buckets, Item(k, v, hash(k)));
      var e := new Entry(k, v, hash(k));
      var index := IndexFor(tablelength, e.h);
      ghost var ch := PushEntry(table, index, e, chains, nodes);
      buckets := Push(buckets, e.Cell());
      chains, nodes := ch, nodes + {e};
      added := e;
    }

    /** The loop of `hashtable_search`, `hashtable_remove` and
        `hashtable_iterator_search`: the first match in the chain of the key's hash,
        with the entry before it. */
    method Locate(k: K) returns (index: nat, prev: Entry?<K, V>, e: Entry?<K, V>, ghost p: nat)
      requires Valid()
      ensures |chains| == |buckets| == tablelength > 0 && index == IndexFor(tablelength, hash(k))
      ensures |chains[index]| == |buckets[index]| && p == FindIn(buckets[index], hash(k), k, eqfn)
      ensures e == At(chains[index], p) && prev == if p == 0 then null else chains[index][p - 1]
      ensures e != null ==> e.Cell() == buckets[index][p]
    {
      PrimesGrow(primeindex);
      var hashvalue := hash(k);
      index := IndexFor(tablelength, hashvalue);
      prev, e, p := null, table[index], 0;
      ghost var c := buckets[index];
      assert Linked(table[index], chains[index], index, nodes);
      while e != null
        invariant p <= |c| == |chains[index]| && e == At(chains[index], p)
        invariant prev == if p == 0 then null else chains[index][p - 1]
        invariant forall j :: 0 <= j < p ==> !Matches(c[j], hashvalue, k, eqfn)
        decreases |c| - p
      {
        if hashvalue == e.h && eqfn(k, e.k) {
          break;
        }
        prev, e, p := e, e.next, p + 1;
      }
      FindInIs(c, hashvalue, k, eqfn, p);
    }

    /** `hashtable_search`. */
    method Search(k: K) returns (r: Option<V>)
      requires Valid()
      ensures r == Lookup(Contents(), hash(k), k, eqfn)
    {
      var index, prev, e, p := Locate(k);
      r := if e == null then None else Some(e.v);
    }

    /** `hashtable_remove`: the entry is freed, after its value was read, and what is
        `live` then is what the table holds. */
    method Remove(k: K) returns (r: Option<V>, ghost live: set<Entry<K, V>>)
      requires Valid()
      modifies this`chains, this`buckets, this`nodes, this`entrycount, table, nodes
      ensures Valid() && r == Lookup(old(Contents()), hash(k), k, eqfn)
      ensures Contents() == Removed(old(Contents()), hash(k), k, eqfn)
      ensures nodes <= old(nodes) && live == nodes
    {
      live := nodes;
      var index, prev, e, p := Locate(k);
      if e == null {
        return None, live;
      }
      TakeOut(index, prev, e, p);
      var v := ValueOf(e, live);
      live := Discard(e, live);
      return Some(v), live;
    }

    /** Frees an entry that has left the table. */
    method Discard(e: Entry<K, V>, ghost live: set<Entry<K, V>>) returns (ghost live': set<Entry<K, V>>)
      requires Valid() && e in live && e !in nodes
      modifies e`next
      ensures Valid() && live' == live - {e}
    {
      live' := Free(e, live);
    }

    /** `hashtable_destroy`.  In table order, each entry is read and then freed with its
        key, and its value if asked; the bucket array and the table come last.  So every
        entry is freed exactly once.  None is read after it was freed: the loops read
        and free only what is in `live`, from which the entries of the table are gone in
        the end, and they depend on no link after its entry was freed. */
    method Destroy(freeValues: bool) returns (events: seq<Event<K, V>>, ghost live: set<Entry<K, V>>)
      requires Valid()
      modifies nodes`next
      ensures events == Release(Flatten(chains), freeValues) + [FreeArray, FreeTable]
      ensures NoUseAfterFree(events)
      ensures forall e :: e in Flatten(chains) ==> multiset(events)[FreeEntry(e)] == 1
      ensures LeftOver(live, nodes, Flatten(chains))
      ensures FreedKeys(events) == Keys(Flatten(buckets))
      ensures FreedValues(events) == if freeValues then Values(Flatten(buckets)) else []
    {
      Released(table, freeValues, chains, nodes);
      var freed;
      freed, live := FreeAll(table, freeValues, chains, nodes);
      events := freed + [FreeArray, FreeTable];
    }

    /** Unlinks one entry and uncounts it. */
    method TakeOut(index: nat, prev: Entry?<K, V>, e: Entry<K, V>, ghost p: nat)
      requires Valid() && index < tablelength && p < |chains[index]|
      requires e == chains[index][p] && prev == (if p == 0 then null else chains[index][p - 1])
      modifies this`chains, this`buckets, this`nodes, this`entrycount, table, nodes
      ensures Valid() && e in old(nodes) && nodes == old(nodes) - {e}
      ensures chains == old(chains)[index := Cut(old(chains)[index], p)]
      ensures buckets == old(buckets)[index := Cut(old(buckets)[index], p)]
      ensures e.next == old(e.next) == At(old(chains)[index], p + 1)
    {
      CutGood(buckets, hash, index, p);
      CountCut(buckets, index, p);
      ghost var ch := CutEntry(table, index, prev, e, p, chains, nodes);
      buckets := buckets[index := Cut(buckets[index], p)];
      chains, nodes := ch, nodes - {e};
      entrycount := entrycount - 1;
    }
  }

  /** A new entry onto the head of its chain. */
  method PushEntry<K, V>(t: array<Entry?<K, V>>, index: nat, e: Entry<K, V>,
                         ghost ch: seq<seq<Entry<K, V>>>, ghost nodes: set<Entry<K, V>>)
    returns (ghost ch': seq<seq<Entry<K, V>>>)
    requires Chained(t, ch, nodes) && t.Length > 0 && index == IndexFor(t.Length, e.h) && e !in nodes
    modifies t, e
    ensures Chained(t, ch', nodes + {e}) && View(ch') == Push(View(ch), e.Cell())
  {
    ViewPush(ch, index, e);
    PushFront(t, index, e, ch, nodes);
    ch' := ch[index := [e] + ch[index]];
  }

  /** An entry out of its chain. */
  method CutEntry<K, V>(t: array<Entry?<K, V>>, index: nat, prev: Entry?<K, V>, e: Entry<K, V>, ghost p: nat,
                        ghost ch: seq<seq<Entry<K, V>>>, ghost nodes: set<Entry<K, V>>)
    returns (ghost ch': seq<seq<Entry<K, V>>>)
    requires Chained(t, ch, nodes) && index < t.Length && p < |ch[index]|
    requires e == ch[index][p] && prev == (if p == 0 then null else ch[index][p - 1])
    modifies t, nodes
    ensures ch' == ch[index := Cut(ch[index], p)] && e.next == old(e.next) == At(ch[index], p + 1)
    ensures Chained(t, ch', nodes - {e}) && View(ch') == View(ch)[index := Cut(View(ch)[index], p)]
  {
    ViewCut(ch, index, p);
    assert Linked(t[index], ch[index], index, nodes);
    var next := Unlink(t, index, prev, e, p, ch, nodes);
    ch' := ch[index := Cut(ch[index], p)];
  }

  lemma CountCut<K, V>(b: seq<seq<Item<K, V>>>, i: nat, p: nat)
    requires i < |b| && p < |b[i]|
    ensures ChainLengths(b[i := Cut(b[i], p)]) == ChainLengths(b) - 1
  {
    CutBags(b, i, p);
    CountIsBagSize(b);
    CountIsBagSize(b[i := Cut(b[i], p)]);
  }

  method TableA<K, V>(table: array<Entry?<K, V>>, newsize: nat,
                      ghost ch: seq<seq<Entry<K, V>>>, ghost nodes: set<Entry<K, V>>)
    returns (newtable: array<Entry?<K, V>>, ghost ch': seq<seq<Entry<K, V>>>)
    requires Chained(table, ch, nodes) && newsize > 0
    modifies table, nodes
    ensures fresh(newtable) && newtable.Length == newsize
    ensures Chained(newtable, ch', nodes) && View(ch') == PlanA(View(ch), newsize)
  {
    newtable := new Entry?<K, V>[newsize](_ => null);
    ch' := Rehash.RehashIntoNew(table, newtable, ch, nodes);
  }

  method TableB<K, V>(table: array<Entry?<K, V>>, newsize: nat,
                      ghost ch: seq<seq<Entry<K, V>>>, ghost nodes: set<Entry<K, V>>)
    returns (newtable: array<Entry?<K, V>>, ghost ch': seq<seq<Entry<K, V>>>)
    requires Chained(table, ch, nodes) && table.Length <= newsize
    modifies table, nodes
    ensures fresh(newtable) && newtable.Length == newsize
    ensures Chained(newtable, ch', nodes) && View(ch') == PlanB(View(ch), newsize)
  {
    newtable := Realloc(table, newsize, ch, nodes);
    ch' := Rehash.RehashInPlace(newtable, table.Length, ch + Empty(newsize - table.Length), nodes);
  }

  /** `realloc` of the bucket array, with the new buckets empty. */
  method Realloc<K, V>(table: array<Entry?<K, V>>, newsize: nat,
                       ghost ch: seq<seq<Entry<K, V>>>, ghost nodes: set<Entry<K, V>>)
    returns (newtable: array<Entry?<K, V>>)
    requires Chained(table, ch, nodes) && table.Length <= newsize
    ensures fresh(newtable) && newtable.Length == newsize
    ensures Chained(newtable, ch + Empty(newsize - table.Length), nodes)
    ensures View(ch + Empty(newsize - table.Length)) == View(ch) + Empty(newsize - table.Length)
  {
    newtable := new Entry?<K, V>[newsize](_ => null);
    forall i | 0 <= i < table.Length {
      newtable[i] := table[i];
    }
    ghost var ch' := ch + Empty(newsize - table.Length);
    forall i | 0 <= i < newsize ensures Linked(newtable[i], ch'[i], i, nodes) {
      if i < table.Length {
        assert Linked(table[i], ch[i], i, nodes);
      }
    }
    Rehash.ViewEmpty<K, V>(newsize - table.Length);
    assert View(ch') == View(ch) + View(Empty(newsize - table.Length));
  }

  /** `create_hashtable`: none if too large or out of memory; else an empty table
      whose size is the least prime of the list above `minsize`. */
  method Create<K(!new), V>(minsize: uint32, hashf: K -> uint32, eqf: (K, K) -> bool,
                            structMem: bool, tableMem: bool) returns (h: HashTable?<K, V>)
    ensures h == null <==> minsize > 0x4000_0000 || !structMem || !tableMem
    ensures h != null ==>
              && fresh(h) && h.Valid() && Count(h.Contents()) == 0
              && h.hashfn == hashf && h.eqfn == eqf && (forall k :: h.hash(k) == Mix(hashf(k)))
              && h.tablelength > minsize
              && forall p :: 0 <= p < h.primeindex ==> PRIMES[p] <= minsize
  {
    if minsize > 0x4000_0000 {
      return null;
    }
    var pindex, size := 0, PRIMES[0];
    while pindex < |PRIMES|
      invariant 0 <= pindex <= |PRIMES|
      invariant forall p :: 0 <= p < pindex ==> PRIMES[p] <= minsize
    {
      if PRIMES[pindex] > minsize {
        size := PRIMES[pindex];
        break;
      }
      pindex := pindex + 1;
    }
    assert PRIMES[25] > 0x4000_0000;
    if !structMem || !tableMem {
      return null;
    }
    h := new HashTable.Make(size, pindex, hashf, eqf);
  }
}
