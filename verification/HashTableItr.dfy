/** The iterator over a hash table, which can remove the entry it is at. */
module HashTableItr {
  import opened Buckets
  import opened Chains
  import opened TableSpec
  import opened HashTable

  /** The entries before position `p` of bucket `i`, in table order. */
  ghost function Before<T>(b: seq<seq<T>>, i: nat, p: nat): seq<T>
    requires i <= |b| && (i < |b| ==> p <= |b[i]|)
    decreases i
  {
    (if i == 0 then [] else Before(b, i - 1, |b[i - 1]|)) + (if i < |b| then b[i][..p] else [])
  }

  /** The entries from position `p` of bucket `i` on. */
  ghost function From<T>(b: seq<seq<T>>, i: nat, p: nat): (r: seq<T>)
    requires i <= |b| && (i < |b| ==> p <= |b[i]|)
    ensures i < |b| && p < |b[i]| ==> r != [] && r[0] == b[i][p]
    decreases |b| - i
  {
    if i == |b| then [] else b[i][p..] + From(b, i + 1, 0)
  }

  lemma {:induction false} FromIsFlatten<T>(b: seq<seq<T>>, i: nat)
    requires i <= |b|
    ensures From(b, i, 0) == Flatten(b[i..])
    decreases |b| - i
  {
    if i < |b| {
      FromIsFlatten(b, i + 1);
      assert b[i..][0] == b[i] && b[i..][1..] == b[i + 1..];
    }
  }

  lemma {:induction false} Rejoin<T>(b: seq<seq<T>>, i: nat, p: nat)
    requires i <= |b| && (i < |b| ==> p <= |b[i]|)
    ensures Before(b, i, p) + From(b, i, p) == From(b, 0, 0)
    decreases i
  {
    if i < |b| {
      Regroup(if i == 0 then [] else Before(b, i - 1, |b[i - 1]|), b[i], p, From(b, i + 1, 0));
    }
    if i > 0 {
      Rejoin(b, i - 1, |b[i - 1]|);
      assert From(b, i - 1, |b[i - 1]|) == From(b, i, 0);
    }
  }

  lemma Regroup<T>(a: seq<T>, c: seq<T>, p: nat, z: seq<T>)
    requires p <= |c|
    ensures (a + c[..p]) + (c[p..] + z) == a + (c[0..] + z)
  {
    assert c == c[..p] + c[p..];
  }

  /** Position (i, p) splits the table's entries. */
  lemma Split<T>(b: seq<seq<T>>, i: nat, p: nat)
    requires i <= |b| && (i < |b| ==> p <= |b[i]|)
    ensures Flatten(b) == Before(b, i, p) + From(b, i, p)
  {
    Rejoin(b, i, p);
    FromIsFlatten(b, 0);
    assert b[0..] == b;
  }

  /** Running off bucket `i` is being at the head of the next one. */
  lemma NextBucket<T>(b: seq<seq<T>>, i: nat)
    requires i < |b|
    ensures From(b, i, |b[i]|) == From(b, i + 1, 0)
    ensures Before(b, i, |b[i]|) == Before(b, i + 1, 0)
  {
  }

  lemma PassOne<T>(b: seq<seq<T>>, i: nat, p: nat)
    requires i < |b| && p < |b[i]|
    ensures From(b, i, p + 1) == From(b, i, p)[1..]
    ensures Before(b, i, p + 1) == Before(b, i, p) + [b[i][p]]
  {
    Shift(if i == 0 then [] else Before(b, i - 1, |b[i - 1]|), b[i], p, From(b, i + 1, 0));
  }

  lemma Shift<T>(a: seq<T>, c: seq<T>, p: nat, z: seq<T>)
    requires p < |c|
    ensures (c[p..] + z)[1..] == c[p + 1..] + z
    ensures a + c[..p + 1] == (a + c[..p]) + [c[p]]
  {
    assert c[..p + 1] == c[..p] + [c[p]];
  }

  lemma {:induction false} FromSame<T>(b: seq<seq<T>>, b': seq<seq<T>>, i: nat)
    requires i <= |b| == |b'| && forall j :: i <= j < |b| ==> b[j] == b'[j]
    ensures From(b, i, 0) == From(b', i, 0)
    decreases |b| - i
  {
    if i < |b| {
      FromSame(b, b', i + 1);
    }
  }

  lemma {:induction false} BeforeSame<T>(b: seq<seq<T>>, b': seq<seq<T>>, i: nat, p: nat)
    requires i < |b| == |b'| && p <= |b[i]| && p <= |b'[i]| && b[i][..p] == b'[i][..p]
    requires forall j :: 0 <= j < i ==> b[j] == b'[j]
    ensures Before(b, i, p) == Before(b', i, p)
    decreases i
  {
    if i > 0 {
      BeforeSame(b, b', i - 1, |b[i - 1]|);
    }
  }

  lemma RemoveHere<T>(b: seq<seq<T>>, i: nat, p: nat)
    requires i < |b| && p < |b[i]|
    ensures p <= |b[i := Cut(b[i], p)][i]|
    ensures From(b[i := Cut(b[i], p)], i, p) == From(b, i, p)[1..]
    ensures Before(b[i := Cut(b[i], p)], i, p) == Before(b, i, p)
  {
    var b' := b[i := Cut(b[i], p)];
    CutAround(b[i], p);
    FromSame(b, b', i + 1);
    BeforeSame(b, b', i, p);
    PassOne(b, i, p);
  }

  lemma CutAround<T>(c: seq<T>, p: nat)
    requires p < |c|
    ensures |Cut(c, p)| >= p && Cut(c, p)[..p] == c[..p] && Cut(c, p)[p..] == c[p + 1..]
  {
  }

  class Itr<K(!new), V> {
    var h: HashTable<K, V>
    var e: Entry?<K, V>
    var parent: Entry?<K, V>
    var index: nat
    ghost var pos: nat  // the position of e in its chain

    /** `e` is entry `pos` of chain `index`, and `parent` the one before it, or null
        at a chain's head; at the end there is neither. */
    ghost predicate Placed()
      reads this, h`chains, h`buckets
    {
      && |h.chains| == |h.buckets|
      && (if index < |h.chains| then
            && pos < |h.chains[index]| == |h.buckets[index]| && e == h.chains[index][pos]
            && e.Cell() == h.buckets[index][pos]
            && parent == if pos == 0 then null else h.chains[index][pos - 1]
          else
            index == |h.chains| && pos == 0 && e == null && parent == null)
    }

    /** The entries passed and kept. */
    ghost function Passed(): seq<Item<K, V>>
      requires Placed()
      reads this, h`chains, h`buckets
    {
      Before(h.buckets, index, pos)
    }

    /** The entries still to visit, the current one first. */
    ghost function Remaining(): seq<Item<K, V>>
      requires Placed()
      reads this, h`chains, h`buckets
    {
      From(h.buckets, index, pos)
    }

    /** `hashtable_iterator`. */
    constructor (table: HashTable<K, V>)
      requires table.Valid()
      ensures h == table && Placed() && (e == null <==> Remaining() == [])
      ensures Passed() == [] && Remaining() == Flatten(table.buckets)
    {
      h, e, parent, index, pos := table, null, null, table.tablelength, 0;
      new;
      Split(h.buckets, 0, 0);
      if h.entrycount == 0 {
        NoEntries(h.buckets);
        Split(h.buckets, index, 0);
        return;
      }
      index := 0;
      FindChain(0);
    }

    /** Goes to the head of the first chain at or after `i` that is not empty. */
    method FindChain(i: nat)
      requires h.Shape() && i <= |h.buckets| == h.tablelength
      modifies this`e, this`parent, this`index, this`pos
      ensures Placed() && pos == 0 && parent == null && (e == null <==> index == |h.buckets|)
      ensures Passed() == Before(h.buckets, i, 0) && Remaining() == From(h.buckets, i, 0)
    {
      var j, head := FirstChain(h, i);
      ghost var before, from := Before(h.buckets, j, 0), From(h.buckets, j, 0);
      SkipEmpty(h.buckets, i, j);
      e, parent, index, pos := head, null, j, 0;
      assert Placed() && Passed() == before && Remaining() == from;
    }

    /** The moves of `hashtable_iterator_advance`.  The current entry's link leads to
        position `q` of the chain: the entry itself may just have left it, but must
        not have been freed. */
    method Step(ghost q: nat, ghost live: set<Entry<K, V>>) returns (more: bool)
      requires e in live
      requires h.Shape() && e != null && index < |h.chains| == |h.buckets| == h.tablelength
      requires q <= |h.chains[index]| == |h.buckets[index]|
      requires e.next == At(h.chains[index], q)
      modifies this`e, this`parent, this`index, this`pos
      ensures pos == (if q < |h.chains[old(index)]| then q else 0)
      ensures q < |h.chains[old(index)]| ==>
                && index == old(index) && e == h.chains[index][q] && parent == old(e)
                && e.Cell() == h.buckets[index][q]
      ensures q == |h.chains[old(index)]| ==>
                && Placed()
                && Passed() == Before(h.buckets, old(index), q) && Remaining() == From(h.buckets, old(index), q)
                && parent == null
      ensures (more <==> e != null) && (more <==> index < |h.buckets|)
    {
      var next := NextOf(e, live);
      if next != null {
        parent := e;
        e, pos := next, q;
        assert h.buckets[index] == Cells(h.chains[index]);
        return true;
      }
      LeaveChain();
      return e != null;
    }

    /** From the end of a chain to the head of the next one that is not empty. */
    method LeaveChain()
      requires h.Shape() && index < |h.buckets| == h.tablelength
      modifies this`e, this`parent, this`index, this`pos
      ensures Placed() && pos == 0 && parent == null && (e == null <==> index == |h.buckets|)
      ensures Passed() == Before(h.buckets, old(index), |h.buckets[old(index)]|)
      ensures Remaining() == From(h.buckets, old(index), |h.buckets[old(index)]|)
    {
      NextBucket(h.buckets, index);
      FindChain(index + 1);
    }

    /** `hashtable_iterator_advance`: one entry is passed; zero at the end. */
    method Advance() returns (more: bool)
      requires h.Valid() && Placed()
      modifies this`e, this`parent, this`index, this`pos
      ensures Placed() && (more <==> e != null)
      ensures old(Remaining()) == [] ==> Passed() == old(Passed()) && Remaining() == []
      ensures old(Remaining()) != [] ==>
                && Passed() == old(Passed()) + [old(Remaining())[0]]
                && Remaining() == old(Remaining())[1..]
    {
      AtEnd(this);
      if e == null {
        return false;
      }
      more := Pass();
    }

    /** From one entry to the next. */
    method Pass() returns (more: bool)
      requires h.Valid() && Placed() && e != null
      modifies this`e, this`parent, this`index, this`pos
      ensures Placed() && (more <==> e != null)
      ensures Passed() == old(Passed()) + [old(e.Cell())]
      ensures Remaining() == old(Remaining())[1..]
    {
      assert e == h.chains[index][pos] && e.Cell() == h.buckets[index][pos];
      LinkOf(h, index, pos);
      PassOne(h.buckets, index, pos);
      more := Step(pos + 1, h.nodes);
    }

    /** `hashtable_iterator_remove`: the current entry leaves the table, the iterator
        moves on, and only then is the entry freed: what is `live` after that is what
        the table holds.  Zero at the end. */
    method Remove() returns (more: bool, ghost live: set<Entry<K, V>>)
      requires h.Valid() && Placed() && e != null
      modifies this`e, this`parent, this`index, this`pos
      modifies h`chains, h`buckets, h`nodes, h`entrycount, h.table, h.nodes
      ensures h.Valid() && Placed() && (more <==> e != null)
      ensures h.nodes <= old(h.nodes) && live == h.nodes
      ensures Passed() == old(Passed()) && old(Remaining()) != [] && Remaining() == old(Remaining())[1..]
      ensures h.buckets == old(h.buckets[index := Cut(h.buckets[index], pos)])
    {
      live := h.nodes;
      var rememberE := e;
      more := MoveOff(live);
      live := h.Discard(rememberE, live);
    }

    /** The current entry leaves the table, and the iterator leaves the entry. */
    method MoveOff(ghost live: set<Entry<K, V>>) returns (more: bool)
      requires h.Valid() && Placed() && e != null && h.nodes <= live
      modifies this`e, this`parent, this`index, this`pos
      modifies h`chains, h`buckets, h`nodes, h`entrycount, h.table, h.nodes
      ensures h.Valid() && Placed() && (more <==> e != null)
      ensures old(e) in old(h.nodes) && h.nodes == old(h.nodes) - {old(e)}
      ensures Passed() == old(Passed()) && old(Remaining()) != [] && Remaining() == old(Remaining())[1..]
      ensures h.buckets == old(h.buckets[index := Cut(h.buckets[index], pos)])
    {
      Unhook();
      more := Settle(live);
    }

    /** Moves on from an entry that has left its chain, correcting the parent. */
    method Settle(ghost live: set<Entry<K, V>>) returns (more: bool)
      requires e in live
      requires h.Shape() && e != null && index < |h.chains| == |h.buckets| == h.tablelength
      requires pos <= |h.chains[index]| == |h.buckets[index]| && e.next == At(h.chains[index], pos)
      requires parent == if pos == 0 then null else h.chains[index][pos - 1]
      modifies this`e, this`parent, this`index, this`pos
      ensures Placed() && (more <==> e != null)
      ensures Passed() == Before(h.buckets, old(index), old(pos))
      ensures Remaining() == From(h.buckets, old(index), old(pos))
    {
      var rememberE, rememberParent := e, parent;
      more := Step(pos, live);
      if parent == rememberE {
        parent := rememberParent;
      }
    }

    /** The removal itself: the entry leaves its chain, but its own link still leads to
        the entry after it. */
    method Unhook()
      requires h.Valid() && Placed() && e != null
      modifies h`chains, h`buckets, h`nodes, h`entrycount, h.table, h.nodes
      ensures h.Valid() && h.Shape() && e in old(h.nodes) && h.nodes == old(h.nodes) - {e}
      ensures |h.buckets| == h.tablelength
      ensures h.buckets == old(h.buckets)[index := Cut(old(h.buckets)[index], pos)]
      ensures index < |h.chains| == |h.buckets| && pos <= |h.chains[index]| == |h.buckets[index]|
      ensures e.next == At(h.chains[index], pos)
      ensures parent == if pos == 0 then null else h.chains[index][pos - 1]
      ensures Before(h.buckets, index, pos) == old(Passed())
      ensures old(Remaining()) != [] && From(h.buckets, index, pos) == old(Remaining())[1..]
    {
      RemoveHere(h.buckets, index, pos);
      CutAt(h.chains[index], pos);
      CutAt(h.buckets[index], pos);
      h.TakeOut(index, parent, e, pos);
    }

    /** `hashtable_iterator_search`: found exactly when a search of the table finds
        something; the iterator then stands at the first match, and is otherwise
        left alone. */
    method Search(table: HashTable<K, V>, k: K) returns (found: bool)
      requires table.Valid()
      modifies this
      ensures found <==> Lookup(table.Contents(), table.hash(k), k, table.eqfn).Some?
      ensures found ==>
                && h == table && Placed() && e != null
                && index == IndexFor(|table.buckets|, table.hash(k))
                && pos == FindIn(table.buckets[index], table.hash(k), k, table.eqfn)
      ensures !found ==> h == old(h) && e == old(e) && parent == old(parent) && index == old(index)
    {
      var i, before, cur, p := table.Locate(k);
      found := cur != null;
      if found {
        index, e, parent, h, pos := i, cur, before, table, p;
      }
    }
  }

  /** There is a current entry exactly when something remains, and it is the first. */
  lemma AtEnd<K(!new), V>(itr: Itr<K, V>)
    requires itr.Placed()
    ensures itr.e == null <==> itr.Remaining() == []
    ensures itr.e != null ==> itr.e.Cell() == itr.Remaining()[0]
  {
  }

  /** `while (NULL == (next = table[j])) ...` */
  method FirstChain<K(!new), V>(h: HashTable<K, V>, i: nat) returns (j: nat, next: Entry?<K, V>)
    requires h.Shape() && i <= |h.buckets| == h.tablelength
    ensures i <= j <= |h.buckets| == |h.chains|
    ensures forall m :: i <= m < j ==> h.buckets[m] == []
    ensures next == null <==> j == |h.buckets|
    ensures j < |h.buckets| ==>
              && |h.chains[j]| == |h.buckets[j]| > 0 && next == h.chains[j][0]
              && h.chains[j][0].Cell() == h.buckets[j][0]
  {
    j, next := i, null;
    while j < h.tablelength && h.table[j] == null
      invariant i <= j <= |h.buckets|
      invariant forall m :: i <= m < j ==> h.buckets[m] == []
    {
      HeadOf(h, j);
      j := j + 1;
    }
    if j < h.tablelength {
      HeadOf(h, j);
      next := h.table[j];
    }
  }

  lemma {:induction false} SkipEmpty<T>(b: seq<seq<T>>, i: nat, j: nat)
    requires i <= j <= |b| && forall m :: i <= m < j ==> b[m] == []
    ensures From(b, i, 0) == From(b, j, 0) && Before(b, i, 0) == Before(b, j, 0)
    decreases j - i
  {
    if i < j {
      NextBucket(b, i);
      SkipEmpty(b, i + 1, j);
    }
  }

  lemma HeadOf<K(!new), V>(h: HashTable<K, V>, i: nat)
    requires h.Shape() && i < |h.chains|
    ensures |h.chains| == |h.buckets| == h.table.Length && |h.chains[i]| == |h.buckets[i]|
    ensures h.table[i] == At(h.chains[i], 0)
    ensures h.chains[i] != [] ==> h.chains[i][0].Cell() == h.buckets[i][0]
  {
    assert Linked(h.table[i], h.chains[i], i, h.nodes);
  }

  /** The link of an entry on a chain. */
  lemma LinkOf<K(!new), V>(h: HashTable<K, V>, i: nat, p: nat)
    requires h.Valid() && i < |h.chains| && p < |h.chains[i]|
    ensures h.chains[i][p] in h.nodes && h.chains[i][p].next == At(h.chains[i], p + 1)
    ensures h.Shape() && |h.chains| == |h.buckets| == h.tablelength && |h.chains[i]| == |h.buckets[i]|
  {
    assert Linked(h.table[i], h.chains[i], i, h.nodes);
  }

  /** Removing through the iterator what a search found is removing the key. */
  method SearchAndRemove<K(!new), V>(itr: Itr<K, V>, h: HashTable<K, V>, k: K) returns (found: bool)
    requires h.Valid()
    modifies itr, h, h.table, h.nodes
    ensures h.Valid() && (found <==> Lookup(old(h.Contents()), h.hash(k), k, h.eqfn).Some?)
    ensures h.Contents() == Removed(old(h.Contents()), h.hash(k), k, h.eqfn)
  {
    PrimesGrow(h.primeindex);
    found := itr.Search(h, k);
    if found {
      var _, _ := itr.Remove();
    }
  }

  // --------------------------------------------------------------- whole walks

  /** The items whose visit is answered by "keep". */
  function Kept<T>(items: seq<T>, remove: seq<bool>): seq<T>
    requires |items| == |remove|
  {
    if items == [] then []
    else Kept(items[..|items| - 1], remove[..|items| - 1])
         + (if remove[|items| - 1] then [] else [items[|items| - 1]])
  }

  /** From a fresh iterator, any mixture of advances and removals until the end
      visits every entry once, in table order, and leaves exactly those kept. */
  method Walk<K(!new), V>(h: HashTable<K, V>, remove: seq<bool>) returns (visited: seq<Item<K, V>>)
    requires h.Valid() && |remove| == |Flatten(h.buckets)|
    modifies h, h.table, h.nodes
    ensures h.Valid() && visited == old(Flatten(h.buckets))
    ensures Flatten(h.buckets) == Kept(visited, remove)
  {
    ghost var all := Flatten(h.buckets);
    var itr := new Itr(h);
    visited := [];
    var n, more := 0, itr.e != null;
    while more
      invariant fresh(itr) && itr.h == h && h.Valid() && (more <==> itr.e != null)
      invariant h.table == old(h.table) && h.nodes <= old(h.nodes)
      invariant 0 <= n <= |all| && n == |visited|
      invariant Walking(itr, all, visited, remove)
      decreases |all| - n
    {
      visited, more := VisitNext(itr, remove, visited, all);
      n := n + 1;
    }
    EndOfWalk(itr, all, visited, remove);
  }

  /** Its body. */
  method VisitNext<K(!new), V>(itr: Itr<K, V>, remove: seq<bool>, visited: seq<Item<K, V>>, ghost all: seq<Item<K, V>>)
    returns (visited': seq<Item<K, V>>, more: bool)
    requires itr.h.Valid() && itr.e != null && Walking(itr, all, visited, remove)
    modifies itr`e, itr`parent, itr`index, itr`pos
    modifies itr.h`chains, itr.h`buckets, itr.h`nodes, itr.h`entrycount, itr.h.table, itr.h.nodes
    ensures itr.h.Valid() && Walking(itr, all, visited', remove) && (more <==> itr.e != null)
    ensures itr.h.nodes <= old(itr.h.nodes)
    ensures |visited'| == |visited| + 1 <= |all|
  {
    AtEnd(itr);
    ghost var passed, remaining := itr.Passed(), itr.Remaining();
    var item;
    item, more := Visit(itr, remove[|visited|]);
    Halved(all, visited, remove, passed, remaining, item, itr.Passed(), itr.Remaining());
    visited' := visited + [item];
  }

  lemma EndOfWalk<K(!new), V>(itr: Itr<K, V>, all: seq<Item<K, V>>, visited: seq<Item<K, V>>, remove: seq<bool>)
    requires itr.e == null && Walking(itr, all, visited, remove)
    ensures visited == all && Flatten(itr.h.buckets) == Kept(visited, remove)
  {
    AtEnd(itr);
    Split(itr.h.buckets, itr.index, itr.pos);
    WalkedAll(all, visited, remove, itr.Passed());
  }

  ghost predicate Walking<K(!new), V>(itr: Itr<K, V>, all: seq<Item<K, V>>, visited: seq<Item<K, V>>, remove: seq<bool>)
    reads itr, itr.h`chains, itr.h`buckets
  {
    itr.Placed() && Halfway(all, visited, remove, itr.Passed(), itr.Remaining())
  }

  /** Part of a walk: `visited` so far, of which `passed` stayed; `remaining` ahead. */
  ghost predicate Halfway<T>(all: seq<T>, visited: seq<T>, remove: seq<bool>, passed: seq<T>, remaining: seq<T>) {
    && |remove| == |all| && all == visited + remaining
    && passed == Kept(visited, remove[..|visited|])
  }

  lemma Halved<T>(all: seq<T>, visited: seq<T>, remove: seq<bool>, passed: seq<T>, remaining: seq<T>,
                  x: T, passed': seq<T>, remaining': seq<T>)
    requires Halfway(all, visited, remove, passed, remaining)
    requires remaining == [x] + remaining'
    requires passed' == passed + (if remove[|visited|] then [] else [x])
    ensures Halfway(all, visited + [x], remove, passed', remaining')
  {
    var n := |visited|;
    assert (visited + [x])[..n] == visited && remove[..n + 1][..n] == remove[..n];
  }

  lemma WalkedAll<T>(all: seq<T>, visited: seq<T>, remove: seq<bool>, passed: seq<T>)
    requires Halfway(all, visited, remove, passed, [])
    ensures visited == all && passed == Kept(visited, remove)
  {
    assert remove[..|visited|] == remove;
  }

  lemma HeadAndTail<T>(s: seq<T>)
    requires s != []
    ensures s == [s[0]] + s[1..]
  {
  }

  /** One turn of a walk: look at the entry, then remove it or pass it. */
  method Visit<K(!new), V>(itr: Itr<K, V>, remove: bool) returns (item: Item<K, V>, more: bool)
    requires itr.h.Valid() && itr.Placed() && itr.e != null
    modifies itr`e, itr`parent, itr`index, itr`pos
    modifies itr.h`chains, itr.h`buckets, itr.h`nodes, itr.h`entrycount, itr.h.table, itr.h.nodes
    ensures itr.h.Valid() && itr.Placed() && (more <==> itr.e != null)
    ensures itr.h.nodes <= old(itr.h.nodes)
    ensures [item] + itr.Remaining() == old(itr.Remaining())
    ensures itr.Passed() == old(itr.Passed()) + (if remove then [] else [item])
  {
    AtEnd(itr);
    item := itr.e.Cell();
    HeadAndTail(itr.Remaining());
    if remove {
      ghost var live;
      more, live := itr.Remove();
    } else {
      more := itr.Advance();
      assert itr.h.Valid();
    }
  }

  lemma {:induction false} NoEntries<T>(b: seq<seq<T>>)
    requires ChainLengths(b) == 0
    ensures Flatten(b) == []
  {
    if b != [] {
      NoEntries(b[1..]);
    }
  }
}
