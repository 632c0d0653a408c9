/** What a chained hash table holds, bucket by bucket, and what the two ways of
    rehashing make of it. */
module Buckets {

  type uint32 = n: int | 0 <= n < 0x1_0000_0000

  /** The fields of `struct entry` that never change: key, value and mixed hash. */
  datatype Item<+K, +V> = Item(k: K, v: V, h: uint32)

  /** `indexFor`. */
  function IndexFor(tablelength: nat, h: uint32): nat
    requires tablelength > 0
  {
    h % tablelength
  }

  function Flatten<T>(b: seq<seq<T>>): seq<T> {
    if b == [] then [] else b[0] + Flatten(b[1..])
  }

  /** The entries of a table, in no order. */
  ghost function Bag<T>(b: seq<seq<T>>): multiset<T> {
    if b == [] then multiset{} else multiset(b[0]) + Bag(b[1..])
  }

  function Reverse<T>(c: seq<T>): seq<T> {
    if c == [] then [] else Reverse(c[1..]) + [c[0]]
  }

  function Filter<T>(keep: T -> bool, c: seq<T>): seq<T> {
    if c == [] then []
    else if keep(c[0]) then [c[0]] + Filter(keep, c[1..])
    else Filter(keep, c[1..])
  }

  function AtSlot<K, V>(n: nat, j: nat): Item<K, V> -> bool {
    (x: Item<K, V>) => n > 0 && IndexFor(n, x.h) == j
  }

  function OffSlot<K, V>(n: nat, j: nat): Item<K, V> -> bool {
    (x: Item<K, V>) => n > 0 && IndexFor(n, x.h) != j
  }

  function HashIs<K, V>(h: uint32): Item<K, V> -> bool {
    (x: Item<K, V>) => x.h == h
  }

  /** The items of `c` that belong to bucket `j` of `n`, in order. */
  function InSlot<K, V>(c: seq<Item<K, V>>, n: nat, j: nat): seq<Item<K, V>> {
    Filter(AtSlot(n, j), c)
  }

  /** Those that do not. */
  function Leaving<K, V>(c: seq<Item<K, V>>, n: nat, j: nat): seq<Item<K, V>> {
    Filter(OffSlot(n, j), c)
  }

  /** The items of `c` with hash `x`, in order. */
  function WithHash<K, V>(c: seq<Item<K, V>>, x: uint32): seq<Item<K, V>> {
    Filter(HashIs(x), c)
  }

  ghost predicate Placed<K, V>(b: seq<seq<Item<K, V>>>) {
    forall i, j :: 0 <= i < |b| && 0 <= j < |b[i]| ==> IndexFor(|b|, b[i][j].h) == i
  }

  /** Entries are placed by the remainder of their hash. */
  lemma PlacedIs<K, V>(b: seq<seq<Item<K, V>>>)
    ensures Placed(b) <==> forall i, j :: 0 <= i < |b| && 0 <= j < |b[i]| ==> b[i][j].h % |b| == i
  {
  }

  function Empty<T>(n: nat): seq<seq<T>> {
    seq(n, _ => [])
  }

  /** `c` without its entry `p`. */
  function Cut<T>(c: seq<T>, p: nat): seq<T>
    requires p < |c|
  {
    c[..p] + c[p + 1..]
  }

  lemma CutAt<T>(c: seq<T>, p: nat)
    requires p < |c|
    ensures |Cut(c, p)| == |c| - 1
    ensures forall j :: 0 <= j < |c| - 1 ==> Cut(c, p)[j] == if j < p then c[j] else c[j + 1]
  {
  }

  // ------------------------------------------------------------- rehashing

  /** One entry pushed onto the head of its bucket. */
  function Push<K, V>(b: seq<seq<Item<K, V>>>, x: Item<K, V>): seq<seq<Item<K, V>>>
    requires |b| > 0
  {
    var j := IndexFor(|b|, x.h);
    b[j := [x] + b[j]]
  }

  function PushAll<K, V>(c: seq<Item<K, V>>, b: seq<seq<Item<K, V>>>): (r: seq<seq<Item<K, V>>>)
    requires |b| > 0
    ensures |r| == |b|
  {
    if c == [] then b else PushAll(c[1..], Push(b, c[0]))
  }

  /** Plan A: every entry, in table order, is pushed into a new table. */
  function PlanA<K, V>(b: seq<seq<Item<K, V>>>, n: nat): seq<seq<Item<K, V>>>
    requires n > 0
  {
    PushAll(Flatten(b), Empty(n))
  }

  /** Plan B on one bucket: what no longer belongs in it is pushed elsewhere. */
  function Sweep<K, V>(b: seq<seq<Item<K, V>>>, i: nat): (r: seq<seq<Item<K, V>>>)
    requires i < |b|
    ensures |r| == |b|
  {
    PushAll(Leaving(b[i], |b|, i), b[i := InSlot(b[i], |b|, i)])
  }

  /** The first `i` buckets swept in turn. */
  function Swept<K, V>(b: seq<seq<Item<K, V>>>, i: nat): (r: seq<seq<Item<K, V>>>)
    requires i <= |b|
    ensures |r| == |b|
  {
    if i == 0 then b else Sweep(Swept(b, i - 1), i - 1)
  }

  /** Plan B: the buckets of `b`, followed by empty ones, swept in place. */
  function PlanB<K, V>(b: seq<seq<Item<K, V>>>, n: nat): seq<seq<Item<K, V>>>
    requires |b| <= n
  {
    Swept(b + Empty(n - |b|), |b|)
  }

  // ------------------------------------------------------- lists and filters

  lemma {:induction false} ReverseAppend<T>(a: seq<T>, b: seq<T>)
    ensures Reverse(a + b) == Reverse(b) + Reverse(a)
  {
    if a == [] {
      assert a + b == b;
    } else {
      ReverseAppend(a[1..], b);
      assert (a + b)[1..] == a[1..] + b;
    }
  }

  lemma FilterCons<T>(keep: T -> bool, x: T, c: seq<T>)
    ensures Filter(keep, [x] + c) == if keep(x) then [x] + Filter(keep, c) else Filter(keep, c)
  {
    assert ([x] + c)[1..] == c;
  }

  lemma {:induction false} FilterAppend<T>(keep: T -> bool, a: seq<T>, b: seq<T>)
    ensures Filter(keep, a + b) == Filter(keep, a) + Filter(keep, b)
  {
    if a == [] {
      assert a + b == b;
    } else {
      FilterAppend(keep, a[1..], b);
      assert (a + b)[1..] == a[1..] + b;
    }
  }

  lemma {:induction false} FilterReverse<T>(keep: T -> bool, c: seq<T>)
    ensures Filter(keep, Reverse(c)) == Reverse(Filter(keep, c))
  {
    if c != [] {
      FilterReverse(keep, c[1..]);
      FilterAppend(keep, Reverse(c[1..]), [c[0]]);
      FilterCons(keep, c[0], []);
      assert [c[0]] + [] == [c[0]];
      if keep(c[0]) {
        assert Filter(keep, c)[1..] == Filter(keep, c[1..]);
      }
    }
  }

  lemma {:induction false} FilterMembers<T>(keep: T -> bool, c: seq<T>)
    ensures forall i :: 0 <= i < |Filter(keep, c)| ==> keep(Filter(keep, c)[i])
  {
    if c != [] {
      FilterMembers(keep, c[1..]);
    }
  }

  lemma {:induction false} FilterAll<T>(keep: T -> bool, c: seq<T>)
    requires forall i :: 0 <= i < |c| ==> keep(c[i])
    ensures Filter(keep, c) == c
  {
    if c != [] {
      FilterAll(keep, c[1..]);
      assert c == [c[0]] + c[1..];
    }
  }

  lemma {:induction false} FilterNone<T>(keep: T -> bool, c: seq<T>)
    requires forall i :: 0 <= i < |c| ==> !keep(c[i])
    ensures Filter(keep, c) == []
  {
    if c != [] {
      FilterNone(keep, c[1..]);
    }
  }

  /** Filtering by a stronger test afterwards hides a weaker one. */
  lemma {:induction false} FilterFilter<T>(weak: T -> bool, strong: T -> bool, c: seq<T>)
    requires forall i :: 0 <= i < |c| ==> (strong(c[i]) ==> weak(c[i]))
    ensures Filter(strong, Filter(weak, c)) == Filter(strong, c)
  {
    if c != [] {
      FilterFilter(weak, strong, c[1..]);
      FilterCons(strong, c[0], Filter(weak, c[1..]));
    }
  }

  lemma FilterApart<T>(p: T -> bool, q: T -> bool, c: seq<T>)
    requires forall x :: x in c && p(x) ==> !q(x)
    ensures Filter(q, Filter(p, c)) == []
  {
    FilterMembers(p, c);
    FilterSubset(p, c);
    FilterNone(q, Filter(p, c));
  }

  lemma {:induction false} FilterSubset<T>(keep: T -> bool, c: seq<T>)
    ensures forall x :: x in Filter(keep, c) ==> x in c
  {
    if c != [] {
      FilterSubset(keep, c[1..]);
    }
  }

  lemma {:induction false} FilterBag<T>(p: T -> bool, q: T -> bool, c: seq<T>)
    requires forall i :: 0 <= i < |c| ==> (q(c[i]) <==> !p(c[i]))
    ensures multiset(Filter(p, c)) + multiset(Filter(q, c)) == multiset(c)
  {
    if c != [] {
      FilterBag(p, q, c[1..]);
      assert c == [c[0]] + c[1..];
    }
  }

  // -------------------------------------------------------- slots and hashes

  /** Selecting by hash inside the hash's own bucket selects everything; inside
      another bucket, nothing. */
  lemma WithHashInSlot<K, V>(c: seq<Item<K, V>>, n: nat, j: nat, x: uint32)
    requires n > 0
    ensures WithHash(InSlot(c, n, j), x) == if IndexFor(n, x) == j then WithHash(c, x) else []
  {
    if IndexFor(n, x) == j {
      FilterFilter(AtSlot<K, V>(n, j), HashIs<K, V>(x), c);
    } else {
      FilterApart(AtSlot<K, V>(n, j), HashIs<K, V>(x), c);
    }
  }

  lemma NoHash<K, V>(c: seq<Item<K, V>>, x: uint32)
    requires NoneWith(c, x)
    ensures WithHash(c, x) == []
  {
    FilterNone(HashIs<K, V>(x), c);
  }

  lemma InSlotMembers<K, V>(c: seq<Item<K, V>>, n: nat, j: nat)
    requires n > 0
    ensures forall i :: 0 <= i < |InSlot(c, n, j)| ==> IndexFor(n, InSlot(c, n, j)[i].h) == j
  {
    FilterMembers(AtSlot<K, V>(n, j), c);
  }

  lemma AllInSlot<K, V>(c: seq<Item<K, V>>, n: nat, i: nat, j: nat)
    requires n > 0 && forall m :: 0 <= m < |c| ==> IndexFor(n, c[m].h) == i
    ensures InSlot(c, n, j) == if i == j then c else []
  {
    if i == j {
      FilterAll(AtSlot<K, V>(n, j), c);
    } else {
      FilterNone(AtSlot<K, V>(n, j), c);
    }
  }

  lemma InSlotOfLeaving<K, V>(c: seq<Item<K, V>>, n: nat, i: nat, j: nat)
    requires n > 0
    ensures InSlot(Leaving(c, n, i), n, j) == if i == j then [] else InSlot(c, n, j)
  {
    if i == j {
      FilterApart(OffSlot<K, V>(n, i), AtSlot<K, V>(n, j), c);
    } else {
      FilterFilter(OffSlot<K, V>(n, i), AtSlot<K, V>(n, j), c);
    }
  }

  lemma {:induction false} ReverseMembers<T>(c: seq<T>)
    ensures |Reverse(c)| == |c| && multiset(Reverse(c)) == multiset(c)
    ensures forall i :: 0 <= i < |c| ==> Reverse(c)[i] == c[|c| - 1 - i]
  {
    if c != [] {
      ReverseMembers(c[1..]);
      assert c == [c[0]] + c[1..];
    }
  }

  // ------------------------------------------------------------- closed forms

  /** Pushing a list of entries puts them, reversed, before what was there. */
  lemma {:induction false} PushAllAt<K, V>(c: seq<Item<K, V>>, b: seq<seq<Item<K, V>>>, j: nat)
    requires j < |b|
    ensures PushAll(c, b)[j] == Reverse(InSlot(c, |b|, j)) + b[j]
  {
    if c != [] {
      var rest := InSlot(c[1..], |b|, j);
      PushAllAt(c[1..], Push(b, c[0]), j);
      if IndexFor(|b|, c[0].h) == j {
        assert InSlot(c, |b|, j)[1..] == rest;
        assert Reverse(rest) + ([c[0]] + b[j]) == (Reverse(rest) + [c[0]]) + b[j];
      }
    }
  }

  lemma Adding<T>(m: multiset<T>, a: multiset<T>, b: multiset<T>, c: multiset<T>, d: multiset<T>)
    requires a + b == c + d
    ensures (m + a) + b == (m + c) + d
  {
    forall x ensures ((m + a) + b)[x] == ((m + c) + d)[x] {
      assert (a + b)[x] == (c + d)[x];
    }
  }

  lemma Cancelling<T>(a: multiset<T>, m: multiset<T>, b: multiset<T>, c: multiset<T>)
    requires a + m == b + (c + m)
    ensures a == b + c
  {
    forall x ensures a[x] == (b + c)[x] {
      assert (a + m)[x] == (b + (c + m))[x];
    }
  }

  lemma {:induction false} BagUpdate<T>(b: seq<seq<T>>, j: nat, c: seq<T>)
    requires j < |b|
    ensures Bag(b[j := c]) + multiset(b[j]) == Bag(b) + multiset(c)
  {
    if j == 0 {
      assert b[j := c][1..] == b[1..];
    } else {
      var rest := b[1..];
      BagUpdate(rest, j - 1, c);
      assert b[j := c][1..] == rest[j - 1 := c];
      Adding(multiset(b[0]), Bag(rest[j - 1 := c]), multiset(b[j]), Bag(rest), multiset(c));
    }
  }

  lemma PushBag<K, V>(b: seq<seq<Item<K, V>>>, x: Item<K, V>)
    requires |b| > 0
    ensures Bag(Push(b, x)) == Bag(b) + multiset{x}
  {
    var j := IndexFor(|b|, x.h);
    BagUpdate(b, j, [x] + b[j]);
    assert multiset([x] + b[j]) == multiset{x} + multiset(b[j]);
    Cancelling(Bag(Push(b, x)), multiset(b[j]), Bag(b), multiset{x});
  }

  lemma Consing<T>(before: multiset<T>, pushed: multiset<T>, all: multiset<T>, c: seq<T>)
    requires c != [] && pushed == before + multiset{c[0]} && all == pushed + multiset(c[1..])
    ensures all == before + multiset(c)
  {
    assert c == [c[0]] + c[1..];
  }

  lemma {:induction false} PushAllBag<K, V>(c: seq<Item<K, V>>, b: seq<seq<Item<K, V>>>)
    requires |b| > 0
    ensures Bag(PushAll(c, b)) == Bag(b) + multiset(c)
  {
    if c != [] {
      PushAllBag(c[1..], Push(b, c[0]));
      PushBag(b, c[0]);
      Consing(Bag(b), Bag(Push(b, c[0])), Bag(PushAll(c, b)), c);
    }
  }

  lemma {:induction false} FlattenSnoc<T>(b: seq<seq<T>>, c: seq<T>)
    ensures Flatten(b + [c]) == Flatten(b) + c
  {
    if b == [] {
      assert Flatten([c]) == c + Flatten([]);
    } else {
      FlattenSnoc(b[1..], c);
      assert (b + [c])[1..] == b[1..] + [c];
    }
  }

  lemma {:induction false} BagEmpty<T>(n: nat)
    ensures Bag(Empty<T>(n)) == multiset{}
  {
    if n > 0 {
      assert Empty<T>(n)[1..] == Empty<T>(n - 1);
      BagEmpty<T>(n - 1);
    }
  }

  lemma {:induction false} BagPadded<T>(b: seq<seq<T>>, e: seq<seq<T>>)
    requires Bag(e) == multiset{}
    ensures Bag(b + e) == Bag(b)
  {
    if b == [] {
      assert b + e == e;
    } else {
      BagPadded(b[1..], e);
      assert (b + e)[1..] == b[1..] + e;
    }
  }

  lemma {:induction false} BagOfFlatten<T>(b: seq<seq<T>>)
    ensures multiset(Flatten(b)) == Bag(b)
  {
    if b != [] {
      BagOfFlatten(b[1..]);
    }
  }

  lemma {:induction false} BagMember<T>(b: seq<seq<T>>, i: nat, j: nat)
    requires i < |b| && j < |b[i]|
    ensures b[i][j] in Bag(b)
  {
    if i == 0 {
      assert b[0][j] in multiset(b[0]);
    } else {
      BagMember(b[1..], i - 1, j);
    }
  }

  lemma {:induction false} MemberOfBag<T>(b: seq<seq<T>>, x: T) returns (i: nat, j: nat)
    requires x in Bag(b)
    ensures i < |b| && j < |b[i]| && b[i][j] == x
  {
    if x in multiset(b[0]) {
      i := 0;
      j :| 0 <= j < |b[0]| && b[0][j] == x;
    } else {
      i, j := MemberOfBag(b[1..], x);
      i := i + 1;
    }
  }

  /** No bucket but `s` holds an entry with hash `x`. */
  ghost predicate OnlyAt<K, V>(b: seq<seq<Item<K, V>>>, s: nat, x: uint32) {
    forall i :: 0 <= i < |b| && i != s ==> NoneWith(b[i], x)
  }

  ghost predicate NoneWith<K, V>(c: seq<Item<K, V>>, x: uint32) {
    forall i :: 0 <= i < |c| ==> c[i].h != x
  }

  /** The entries with one hash all sit in the hash's bucket. */
  lemma {:induction false} WithHashFlatten<K, V>(b: seq<seq<Item<K, V>>>, s: nat, x: uint32)
    requires OnlyAt(b, s, x)
    ensures WithHash(Flatten(b), x) == if s < |b| then WithHash(b[s], x) else []
  {
    if b != [] {
      var rest := b[1..];
      FilterAppend(HashIs<K, V>(x), b[0], Flatten(rest));
      assert forall i :: 0 <= i < |rest| ==> rest[i] == b[i + 1];
      if s == 0 {
        WithHashFlatten(rest, |rest|, x);
      } else {
        NoHash(b[0], x);
        WithHashFlatten(rest, s - 1, x);
      }
    }
  }

  lemma PlanAAt<K, V>(b: seq<seq<Item<K, V>>>, n: nat, j: nat)
    requires j < n
    ensures PlanA(b, n)[j] == Reverse(InSlot(Flatten(b), n, j))
    ensures forall m :: 0 <= m < |PlanA(b, n)[j]| ==> IndexFor(n, PlanA(b, n)[j][m].h) == j
  {
    PushAllAt(Flatten(b), Empty(n), j);
    InSlotMembers(Flatten(b), n, j);
    ReverseMembers(InSlot(Flatten(b), n, j));
  }

  lemma PlacedOnlyAt<K, V>(b: seq<seq<Item<K, V>>>, x: uint32)
    requires |b| > 0 && Placed(b)
    ensures OnlyAt(b, IndexFor(|b|, x), x)
  {
  }

  /** Plan A keeps the bag of entries, puts each in its bucket, and reverses the
      order of the entries with any one hash. */
  lemma PlanACorrect<K, V>(b: seq<seq<Item<K, V>>>, n: nat, x: uint32)
    requires |b| > 0 && n > 0 && Placed(b)
    ensures |PlanA(b, n)| == n && Placed(PlanA(b, n)) && Bag(PlanA(b, n)) == Bag(b)
    ensures WithHash(PlanA(b, n)[IndexFor(n, x)], x) == Reverse(WithHash(b[IndexFor(|b|, x)], x))
  {
    var c := Flatten(b);
    PushAllBag(c, Empty(n));
    BagEmpty<Item<K, V>>(n);
    BagOfFlatten(b);
    forall j | 0 <= j < n
      ensures forall m :: 0 <= m < |PlanA(b, n)[j]| ==> IndexFor(n, PlanA(b, n)[j][m].h) == j
    {
      PlanAAt(b, n, j);
    }
    var j := IndexFor(n, x);
    PlanAAt(b, n, j);
    FilterReverse(HashIs<K, V>(x), InSlot(c, n, j));
    WithHashInSlot(c, n, j, x);
    PlacedOnlyAt(b, x);
    WithHashFlatten(b, IndexFor(|b|, x), x);
  }

  /** The entries the first `i` buckets send to bucket `j`, in the order sent. */
  function Arrived<K, V>(b: seq<seq<Item<K, V>>>, i: nat, j: nat): seq<Item<K, V>>
    requires i <= |b| && |b| > 0
  {
    if i == 0 then []
    else if i - 1 == j then Arrived(b, i - 1, j)
    else Arrived(b, i - 1, j) + InSlot(b[i - 1], |b|, j)
  }

  lemma {:induction false} ArrivedMembers<K, V>(b: seq<seq<Item<K, V>>>, i: nat, j: nat)
    requires i <= |b| && |b| > 0
    ensures forall m :: 0 <= m < |Arrived(b, i, j)| ==> IndexFor(|b|, Arrived(b, i, j)[m].h) == j
  {
    if i > 0 {
      ArrivedMembers(b, i - 1, j);
      InSlotMembers(b[i - 1], |b|, j);
    }
  }

  lemma SweepAt<K, V>(q: seq<seq<Item<K, V>>>, p: nat, j: nat)
    requires p < |q| && j < |q|
    ensures Sweep(q, p)[j]
         == if j == p then InSlot(q[p], |q|, p) else Reverse(InSlot(q[p], |q|, j)) + q[j]
  {
    PushAllAt(Leaving(q[p], |q|, p), q[p := InSlot(q[p], |q|, p)], j);
    InSlotOfLeaving(q[p], |q|, p, j);
  }

  /** Arrivals are already home when their bucket is swept. */
  lemma InSlotOfArrivals<K, V>(b: seq<seq<Item<K, V>>>, p: nat, j: nat)
    requires p < |b| && j < |b|
    ensures InSlot(Reverse(Arrived(b, p, p)) + b[p], |b|, j)
         == if p == j then Reverse(Arrived(b, p, p)) + InSlot(b[p], |b|, j) else InSlot(b[p], |b|, j)
  {
    var r := Reverse(Arrived(b, p, p));
    ArrivedMembers(b, p, p);
    ReverseMembers(Arrived(b, p, p));
    AllInSlot(r, |b|, p, j);
    FilterAppend(AtSlot<K, V>(|b|, j), r, b[p]);
  }

  function Home<K, V>(b: seq<seq<Item<K, V>>>, i: nat, j: nat): seq<Item<K, V>>
    requires j < |b|
  {
    if j < i then InSlot(b[j], |b|, j) else b[j]
  }

  /** Sweeping bucket `p` keeps its arrivals and what belongs in it ... */
  lemma SweptHere<K, V>(b: seq<seq<Item<K, V>>>, p: nat)
    requires p < |b| && Swept(b, p)[p] == Reverse(Arrived(b, p, p)) + b[p]
    ensures Swept(b, p + 1)[p] == Reverse(Arrived(b, p, p)) + InSlot(b[p], |b|, p)
  {
    SweepAt(Swept(b, p), p, p);
    InSlotOfArrivals(b, p, p);
  }

  /** ... and sends the rest on. */
  lemma SweptThere<K, V>(b: seq<seq<Item<K, V>>>, p: nat, j: nat)
    requires p < |b| && j < |b| && j != p
    requires Swept(b, p)[p] == Reverse(Arrived(b, p, p)) + b[p]
    ensures Swept(b, p + 1)[j] == Reverse(InSlot(b[p], |b|, j)) + Swept(b, p)[j]
  {
    SweepAt(Swept(b, p), p, j);
    InSlotOfArrivals(b, p, j);
  }

  /** After `i` buckets, each bucket holds its arrivals, newest first, before what
      was there; swept buckets have kept only what belongs in them. */
  lemma {:induction false} SweptAt<K, V>(b: seq<seq<Item<K, V>>>, i: nat, j: nat)
    requires i <= |b| && j < |b|
    ensures Swept(b, i)[j] == Reverse(Arrived(b, i, j)) + Home(b, i, j)
    decreases i
  {
    if i > 0 {
      var p := i - 1;
      SweptAt(b, p, j);
      SweptAt(b, p, p);
      if j == p {
        SweptHere(b, p);
      } else {
        SweptThere(b, p, j);
        SweptElsewhere(Arrived(b, p, j), InSlot(b[p], |b|, j), Home(b, p, j));
      }
    }
  }

  lemma SweptElsewhere<T>(arrived: seq<T>, more: seq<T>, home: seq<T>)
    ensures Reverse(more) + (Reverse(arrived) + home) == Reverse(arrived + more) + home
  {
    ReverseAppend(arrived, more);
  }

  lemma Exchanging<T>(a: multiset<T>, l: multiset<T>, h: multiset<T>, b: multiset<T>)
    requires a + (h + l) == b + h
    ensures a + l == b
  {
    forall x ensures (a + l)[x] == b[x] {
      assert (a + (h + l))[x] == (b + h)[x];
    }
  }

  lemma SweepBag<K, V>(q: seq<seq<Item<K, V>>>, p: nat)
    requires p < |q|
    ensures Bag(Sweep(q, p)) == Bag(q)
  {
    var n, c := |q|, q[p];
    var home, leaving := InSlot(c, n, p), Leaving(c, n, p);
    FilterBag(AtSlot<K, V>(n, p), OffSlot<K, V>(n, p), c);
    BagUpdate(q, p, home);
    PushAllBag(leaving, q[p := home]);
    Exchanging(Bag(q[p := home]), multiset(leaving), multiset(home), Bag(q));
  }

  lemma {:induction false} SweptBag<K, V>(b: seq<seq<Item<K, V>>>, i: nat)
    requires i <= |b|
    ensures Bag(Swept(b, i)) == Bag(b)
  {
    if i > 0 {
      SweptBag(b, i - 1);
      SweepBag(Swept(b, i - 1), i - 1);
    }
  }

  lemma {:induction false} WithHashArrived<K, V>(b: seq<seq<Item<K, V>>>, i: nat, j: nat, s: nat, x: uint32, home: bool)
    requires i <= |b| && |b| > 0 && OnlyAt(b, s, x) && home == (IndexFor(|b|, x) == j)
    ensures WithHash(Arrived(b, i, j), x) == if home && s < i && s != j then WithHash(b[s], x) else []
  {
    if i > 0 {
      var p := i - 1;
      WithHashArrived(b, p, j, s, x, home);
      if p != j {
        FilterAppend(HashIs<K, V>(x), Arrived(b, p, j), InSlot(b[p], |b|, j));
        WithHashSent(b, p, j, s, x, home);
      }
    }
  }

  lemma WithHashSent<K, V>(b: seq<seq<Item<K, V>>>, p: nat, j: nat, s: nat, x: uint32, home: bool)
    requires p < |b| && OnlyAt(b, s, x) && home == (IndexFor(|b|, x) == j)
    ensures WithHash(InSlot(b[p], |b|, j), x) == if home && p == s then WithHash(b[s], x) else []
  {
    WithHashInSlot(b[p], |b|, j, x);
    if p != s {
      NoHash(b[p], x);
    }
  }

  /** Plan B keeps the bag of entries and puts each in its bucket, although entries
      are moved into chains not yet swept.  The entries with one hash are reversed
      exactly when they change bucket; otherwise they keep their order. */
  lemma PlanBCorrect<K, V>(b: seq<seq<Item<K, V>>>, n: nat, x: uint32)
    requires 0 < |b| <= n && Placed(b)
    ensures |PlanB(b, n)| == n && Placed(PlanB(b, n)) && Bag(PlanB(b, n)) == Bag(b)
    ensures WithHash(PlanB(b, n)[IndexFor(n, x)], x)
         == (var c := WithHash(b[IndexFor(|b|, x)], x);
             if IndexFor(|b|, x) == IndexFor(n, x) then c else Reverse(c))
  {
    var e: seq<seq<Item<K, V>>> := b + Empty(n - |b|);
    SweptBag(e, |b|);
    BagEmpty<Item<K, V>>(n - |b|);
    BagPadded(b, Empty(n - |b|));
    forall j | 0 <= j < n
      ensures forall m :: 0 <= m < |PlanB(b, n)[j]| ==> IndexFor(n, PlanB(b, n)[j][m].h) == j
    {
      SweptPlaces(e, |b|, j);
    }
    PlacedOnlyAt(b, x);
    assert e[IndexFor(|b|, x)] == b[IndexFor(|b|, x)];
    SweptOrder(e, |b|, IndexFor(|b|, x), x);
  }

  // ----------------------------------------------- the documented order

  /** Whether plan B leaves the entries with hash `x` in the opposite order. */
  ghost predicate Reversed<K, V>(b: seq<seq<Item<K, V>>>, n: nat, x: uint32)
    requires 0 < |b| <= n
  {
    WithHash(PlanB(b, n)[IndexFor(n, x)], x) == Reverse(WithHash(b[IndexFor(|b|, x)], x))
  }

  /** For one table: exactly when they change bucket, or read the same backwards. */
  lemma PlanBReverses<K, V>(b: seq<seq<Item<K, V>>>, n: nat, x: uint32)
    requires 0 < |b| <= n && Placed(b)
    ensures Reversed(b, n, x) <==>
              var c := WithHash(b[IndexFor(|b|, x)], x);
              IndexFor(|b|, x) != IndexFor(n, x) || c == Reverse(c)
  {
    PlanBCorrect(b, n, x);
  }

  /** For all tables of a size: exactly when the hash changes bucket. */
  lemma PlanBAlwaysReverses(size: nat, n: nat, x: uint32)
    requires 0 < size <= n
    ensures (forall b: seq<seq<Item<int, int>>> :: |b| == size && Placed(b) ==> Reversed(b, n, x))
            <==> IndexFor(size, x) != IndexFor(n, x)
  {
    forall b: seq<seq<Item<int, int>>> | |b| == size && Placed(b) && IndexFor(size, x) != IndexFor(n, x)
      ensures Reversed(b, n, x)
    {
      PlanBReverses(b, n, x);
    }
    if IndexFor(size, x) == IndexFor(n, x) {
      var b := OrderKept(size, n, x);
    }
  }

  /** A table whose two entries with hash `x` plan B does not reverse. */
  lemma OrderKept(size: nat, n: nat, x: uint32) returns (b: seq<seq<Item<int, int>>>)
    requires 0 < size <= n && IndexFor(size, x) == IndexFor(n, x)
    ensures b == Empty(size)[IndexFor(size, x) := [Item(1, 1, x), Item(1, 2, x)]]
    ensures |b| == size && Placed(b) && !Reversed(b, n, x)
  {
    var c: seq<Item<int, int>> := [Item(1, 1, x), Item(1, 2, x)];
    var i := IndexFor(size, x);
    b := Empty(size)[i := c];
    assert forall j :: 0 <= j < size && j != i ==> b[j] == [];
    FilterAll(HashIs<int, int>(x), c);
    ReverseMembers(c);
    assert Reverse(c)[0] == c[1] != c[0];
    PlanBReverses(b, n, x);
  }

  /** Growing from 53 buckets to 97 in place keeps the order of two entries with hash 0,
      which the header says is reversed. */
  lemma DuplicatesNotReversed() returns (b: seq<seq<Item<int, int>>>)
    ensures |b| == 53 && b[0] == [Item(1, 1, 0), Item(1, 2, 0)] && Placed(b)
    ensures WithHash(PlanB(b, 97)[0], 0) == b[0] != Reverse(b[0])
  {
    b := OrderKept(53, 97, 0);
    FilterAll(HashIs<int, int>(0), b[0]);
    PlanBCorrect(b, 97, 0);
  }

  lemma SweptPlaces<K, V>(e: seq<seq<Item<K, V>>>, was: nat, j: nat)
    requires was <= |e| && j < |e|
    requires forall p :: was <= p < |e| ==> e[p] == []
    ensures forall m :: 0 <= m < |Swept(e, was)[j]| ==> IndexFor(|e|, Swept(e, was)[j][m].h) == j
  {
    SweptAt(e, was, j);
    ArrivedMembers(e, was, j);
    ReverseMembers(Arrived(e, was, j));
    InSlotMembers(e[j], |e|, j);
  }

  lemma SweptOrder<K, V>(e: seq<seq<Item<K, V>>>, was: nat, s: nat, x: uint32)
    requires s < was <= |e| && OnlyAt(e, s, x)
    requires forall p :: was <= p < |e| ==> e[p] == []
    ensures WithHash(Swept(e, was)[IndexFor(|e|, x)], x)
         == if s == IndexFor(|e|, x) then WithHash(e[s], x) else Reverse(WithHash(e[s], x))
  {
    var j := IndexFor(|e|, x);
    SweptAt(e, was, j);
    FilterAppend(HashIs<K, V>(x), Reverse(Arrived(e, was, j)), Home(e, was, j));
    FilterReverse(HashIs<K, V>(x), Arrived(e, was, j));
    WithHashArrived(e, was, j, s, x, true);
    WithHashInSlot(e[j], |e|, j, x);
    if s != j {
      NoHash(e[j], x);
    }
  }
}
