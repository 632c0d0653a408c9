/** The hash table as a finite map, over whole sequences of calls. */
module TableMap {
  import opened Buckets
  import opened TableSpec
  import opened CBytes

  /** One call, with the allocations that succeed during it. */
  datatype Op<K, V> = Insert(k: K, v: V, mem: Memory) | Search(k: K) | Remove(k: K)

  datatype Out<V> = Done(ok: bool) | Found(r: Option<V>)

  ghost predicate Equivalence<K(!new)>(eq: (K, K) -> bool) {
    && (forall a :: eq(a, a))
    && (forall a, b :: eq(a, b) ==> eq(b, a))
    && (forall a, b, c :: eq(a, b) && eq(b, c) ==> eq(a, c))
  }

  /** The keys the table cannot tell from `k`: `eq` to it and with the same hash. */
  ghost function Class<K(!new)>(k: K, hash: K -> uint32, eq: (K, K) -> bool): iset<K> {
    iset k' | hash(k') == hash(k) && eq(k, k')
  }

  lemma ClassEquality<K(!new)>(a: K, b: K, hash: K -> uint32, eq: (K, K) -> bool)
    requires Equivalence(eq)
    ensures Class(a, hash, eq) == Class(b, hash, eq) <==> hash(a) == hash(b) && eq(a, b)
  {
    if hash(a) == hash(b) && eq(a, b) {
      forall k ensures k in Class(a, hash, eq) <==> k in Class(b, hash, eq) {
        assert eq(b, a);
        assert eq(a, k) ==> eq(b, k);
        assert eq(b, k) ==> eq(a, k);
      }
    } else {
      assert b in Class(b, hash, eq);
    }
  }

  // ------------------------------------------------------------- two machines

  function Call<K, V>(t: Table<K, V>, op: Op<K, V>, hash: K -> uint32, eq: (K, K) -> bool): (Table<K, V>, Out<V>) {
    match op
    case Insert(k, v, mem) =>
      var (u, ok) := Inserted(t, Item(k, v, hash(k)), mem);
      (u, Done(ok))
    case Search(k) => (t, Found(Lookup(t, hash(k), k, eq)))
    case Remove(k) => (Removed(t, hash(k), k, eq), Found(Lookup(t, hash(k), k, eq)))
  }

  ghost function Get<K(!new), V>(m: map<iset<K>, V>, c: iset<K>): Option<V> {
    if c in m then Some(m[c]) else None
  }

  ghost function MapCall<K(!new), V>(m: map<iset<K>, V>, op: Op<K, V>, hash: K -> uint32, eq: (K, K) -> bool)
    : (map<iset<K>, V>, Out<V>)
  {
    var c := Class(op.k, hash, eq);
    match op
    case Insert(k, v, mem) => (if mem.entry then m[c := v] else m, Done(mem.entry))
    case Search(k) => (m, Found(Get(m, c)))
    case Remove(k) => (m - {c}, Found(Get(m, c)))
  }

  /** Only absent keys are inserted ("if in doubt, remove before insert"). */
  ghost predicate Proper<K(!new), V>(m: map<iset<K>, V>, op: Op<K, V>, hash: K -> uint32, eq: (K, K) -> bool) {
    op.Insert? ==> Class(op.k, hash, eq) !in m
  }

  // --------------------------------------------------------------- refinement

  ghost predicate Once<T>(bag: multiset<T>) {
    forall x :: x in bag ==> bag[x] == 1
  }

  /** Every entry is in the map ... */
  ghost predicate Mapped<K(!new), V>(bag: multiset<Item<K, V>>, m: map<iset<K>, V>,
                                     hash: K -> uint32, eq: (K, K) -> bool)
  {
    forall x :: x in bag ==> Class(x.k, hash, eq) in m && m[Class(x.k, hash, eq)] == x.v
  }

  /** ... on its own ... */
  ghost predicate Apart<K(!new), V>(bag: multiset<Item<K, V>>, hash: K -> uint32, eq: (K, K) -> bool) {
    forall x, y :: x in bag && y in bag && Class(x.k, hash, eq) == Class(y.k, hash, eq) ==> x == y
  }

  /** ... and the map holds nothing else. */
  ghost predicate Covered<K(!new), V>(bag: multiset<Item<K, V>>, m: map<iset<K>, V>,
                                      hash: K -> uint32, eq: (K, K) -> bool)
  {
    forall c :: c in m ==> Inhabited(c, bag, hash, eq)
  }

  ghost predicate Represents<K(!new), V>(bag: multiset<Item<K, V>>, m: map<iset<K>, V>,
                                         hash: K -> uint32, eq: (K, K) -> bool)
  {
    Once(bag) && Mapped(bag, m, hash, eq) && Apart(bag, hash, eq) && Covered(bag, m, hash, eq)
  }

  ghost predicate Inhabited<K(!new), V>(c: iset<K>, bag: multiset<Item<K, V>>,
                                        hash: K -> uint32, eq: (K, K) -> bool)
  {
    exists x :: x in bag && Class(x.k, hash, eq) == c
  }

  lemma AddRepresents<K(!new), V>(bag: multiset<Item<K, V>>, m: map<iset<K>, V>, x: Item<K, V>,
                                  hash: K -> uint32, eq: (K, K) -> bool)
    requires Represents(bag, m, hash, eq) && Class(x.k, hash, eq) !in m
    ensures Represents(bag + multiset{x}, m[Class(x.k, hash, eq) := x.v], hash, eq)
  {
    assert x !in bag;
    AddMember(bag, x);
    AddMapped(bag, m, x, hash, eq);
    AddApart(bag, m, x, hash, eq);
    AddCovered(bag, m, x, hash, eq);
  }

  lemma AddMember<T>(bag: multiset<T>, x: T)
    requires Once(bag) && x !in bag
    ensures Once(bag + multiset{x})
  {
    forall y | y in bag + multiset{x} ensures (bag + multiset{x})[y] == 1 {
      assert y in bag || y == x;
    }
  }

  lemma AddMapped<K(!new), V>(bag: multiset<Item<K, V>>, m: map<iset<K>, V>, x: Item<K, V>,
                              hash: K -> uint32, eq: (K, K) -> bool)
    requires Mapped(bag, m, hash, eq) && Class(x.k, hash, eq) !in m
    ensures Mapped(bag + multiset{x}, m[Class(x.k, hash, eq) := x.v], hash, eq)
  {
    assert forall y :: y in bag + multiset{x} ==> y in bag || y == x;
  }

  lemma AddApart<K(!new), V>(bag: multiset<Item<K, V>>, m: map<iset<K>, V>, x: Item<K, V>,
                             hash: K -> uint32, eq: (K, K) -> bool)
    requires Mapped(bag, m, hash, eq) && Apart(bag, hash, eq) && Class(x.k, hash, eq) !in m
    ensures Apart(bag + multiset{x}, hash, eq)
  {
    assert forall y :: y in bag + multiset{x} ==> y in bag || y == x;
  }

  lemma AddCovered<K(!new), V>(bag: multiset<Item<K, V>>, m: map<iset<K>, V>, x: Item<K, V>,
                               hash: K -> uint32, eq: (K, K) -> bool)
    requires Covered(bag, m, hash, eq)
    ensures Covered(bag + multiset{x}, m[Class(x.k, hash, eq) := x.v], hash, eq)
  {
    var c, all := Class(x.k, hash, eq), bag + multiset{x};
    assert x in all;
    forall d | d in m[c := x.v] ensures Inhabited(d, all, hash, eq) {
      if d != c {
        StillInhabited(d, bag, all, hash, eq);
      }
    }
  }

  lemma StillInhabited<K(!new), V>(c: iset<K>, bag: multiset<Item<K, V>>, more: multiset<Item<K, V>>,
                                   hash: K -> uint32, eq: (K, K) -> bool)
    requires Inhabited(c, bag, hash, eq) && forall x :: x in bag ==> x in more
    ensures Inhabited(c, more, hash, eq)
  {
  }

  lemma DropRepresents<K(!new), V>(bag: multiset<Item<K, V>>, m: map<iset<K>, V>, x: Item<K, V>,
                                   hash: K -> uint32, eq: (K, K) -> bool)
    requires Represents(bag + multiset{x}, m, hash, eq)
    ensures Represents(bag, m - {Class(x.k, hash, eq)}, hash, eq)
  {
    var all := bag + multiset{x};
    assert all[x] == 1 && x !in bag;
    assert forall y :: y in all <==> y in bag || y == x;
    forall c | c in m - {Class(x.k, hash, eq)} ensures Inhabited(c, bag, hash, eq) {
      var y :| y in all && Class(y.k, hash, eq) == c;
      assert y in bag;
    }
  }

  lemma FoundAgrees<K(!new), V>(bag: multiset<Item<K, V>>, rest: multiset<Item<K, V>>, m: map<iset<K>, V>,
                                x: Item<K, V>, k: K, hash: K -> uint32, eq: (K, K) -> bool)
    requires Equivalence(eq) && Represents(bag, m, hash, eq) && bag == rest + multiset{x}
    requires x.h == hash(x.k) && Matches(x, hash(k), k, eq)
    ensures Get(m, Class(k, hash, eq)) == Some(x.v)
    ensures Represents(rest, m - {Class(k, hash, eq)}, hash, eq)
  {
    ClassEquality(k, x.k, hash, eq);
    assert x in bag;
    DropRepresents(rest, m, x, hash, eq);
  }

  lemma MissingAgrees<K(!new), V>(bag: multiset<Item<K, V>>, m: map<iset<K>, V>,
                                  k: K, hash: K -> uint32, eq: (K, K) -> bool)
    requires Equivalence(eq) && Represents(bag, m, hash, eq)
    requires forall x :: x in bag ==> x.h == hash(x.k) && !Matches(x, hash(k), k, eq)
    ensures Class(k, hash, eq) !in m && m - {Class(k, hash, eq)} == m
  {
    var c := Class(k, hash, eq);
    if c in m {
      assert Inhabited(c, bag, hash, eq);
      var x :| x in bag && Class(x.k, hash, eq) == c;
      ClassEquality(k, x.k, hash, eq);
      assert false;
    }
  }

  /** A search answers what the map holds for the key's class. */
  lemma LookupAgrees<K(!new), V>(t: Table<K, V>, m: map<iset<K>, V>, k: K, hash: K -> uint32, eq: (K, K) -> bool)
    requires Equivalence(eq) && Ok(t, hash) && Represents(Bag(t.buckets), m, hash, eq)
    ensures Lookup(t, hash(k), k, eq) == Get(m, Class(k, hash, eq))
    ensures Represents(Bag(Removed(t, hash(k), k, eq).buckets), m - {Class(k, hash, eq)}, hash, eq)
  {
    RemovedOk(t, hash, k, eq);
    GoodBag(t.buckets, hash);
    if Lookup(t, hash(k), k, eq).None? {
      MissingAgrees(Bag(t.buckets), m, k, hash, eq);
    } else {
      var rest := Bag(Removed(t, hash(k), k, eq).buckets);
      var x :| x in Bag(t.buckets) && Matches(x, hash(k), k, eq)
        && x.v == Lookup(t, hash(k), k, eq).value && Bag(t.buckets) == rest + multiset{x};
      FoundAgrees(Bag(t.buckets), rest, m, x, k, hash, eq);
    }
  }

  ghost predicate Related<K(!new), V>(t: Table<K, V>, m: map<iset<K>, V>, hash: K -> uint32, eq: (K, K) -> bool) {
    Ok(t, hash) && Represents(Bag(t.buckets), m, hash, eq)
  }

  lemma InsertAgrees<K(!new), V>(t: Table<K, V>, m: map<iset<K>, V>, x: Item<K, V>, mem: Memory,
                                 hash: K -> uint32, eq: (K, K) -> bool)
    requires Related(t, m, hash, eq) && Class(x.k, hash, eq) !in m && x.h == hash(x.k)
    ensures Inserted(t, x, mem).1 == mem.entry
    ensures Related(Inserted(t, x, mem).0, if mem.entry then m[Class(x.k, hash, eq) := x.v] else m, hash, eq)
  {
    InsertedOk(t, hash, x, mem);
    var bag := Bag(t.buckets);
    if mem.entry {
      AddRepresents(bag, m, x, hash, eq);
    } else {
      assert bag + multiset{} == bag;
    }
  }

  lemma RemoveAgrees<K(!new), V>(t: Table<K, V>, m: map<iset<K>, V>, k: K, hash: K -> uint32, eq: (K, K) -> bool)
    requires Equivalence(eq) && Related(t, m, hash, eq)
    ensures Related(Removed(t, hash(k), k, eq), m - {Class(k, hash, eq)}, hash, eq)
  {
    LookupAgrees(t, m, k, hash, eq);
    RemovedOk(t, hash, k, eq);
  }

  lemma CallAgrees<K(!new), V>(t: Table<K, V>, m: map<iset<K>, V>, op: Op<K, V>, hash: K -> uint32, eq: (K, K) -> bool)
    requires Equivalence(eq) && Related(t, m, hash, eq) && Proper(m, op, hash, eq)
    ensures Call(t, op, hash, eq).1 == MapCall(m, op, hash, eq).1
    ensures Related(Call(t, op, hash, eq).0, MapCall(m, op, hash, eq).0, hash, eq)
  {
    match op
    case Insert(k, v, mem) => InsertAgrees(t, m, Item(k, v, hash(k)), mem, hash, eq);
    case Search(k) => LookupAgrees(t, m, k, hash, eq);
    case Remove(k) =>
      LookupAgrees(t, m, k, hash, eq);
      RemoveAgrees(t, m, k, hash, eq);
  }

  function Calls<K, V>(t: Table<K, V>, ops: seq<Op<K, V>>, hash: K -> uint32, eq: (K, K) -> bool)
    : (Table<K, V>, seq<Out<V>>)
    decreases |ops|
  {
    if ops == [] then (t, [])
    else
      var (u, out) := Call(t, ops[0], hash, eq);
      var (end, outs) := Calls(u, ops[1..], hash, eq);
      (end, [out] + outs)
  }

  ghost function MapCalls<K(!new), V>(m: map<iset<K>, V>, ops: seq<Op<K, V>>, hash: K -> uint32, eq: (K, K) -> bool)
    : (map<iset<K>, V>, seq<Out<V>>)
    decreases |ops|
  {
    if ops == [] then (m, [])
    else
      var (n, out) := MapCall(m, ops[0], hash, eq);
      var (end, outs) := MapCalls(n, ops[1..], hash, eq);
      (end, [out] + outs)
  }

  ghost predicate ProperRun<K(!new), V>(m: map<iset<K>, V>, ops: seq<Op<K, V>>, hash: K -> uint32, eq: (K, K) -> bool)
    decreases |ops|
  {
    ops == [] ||
    (Proper(m, ops[0], hash, eq) && ProperRun(MapCall(m, ops[0], hash, eq).0, ops[1..], hash, eq))
  }

  /** For any hash function and any equivalence, every sequence of calls that inserts
      absent keys only gives the answers of a finite map keyed by what the table can
      tell apart, whatever expansions happen and whatever allocations fail. */
  lemma {:induction false} TableIsMap<K(!new), V>(t: Table<K, V>, m: map<iset<K>, V>, ops: seq<Op<K, V>>,
                                                  hash: K -> uint32, eq: (K, K) -> bool)
    requires Equivalence(eq) && Related(t, m, hash, eq) && ProperRun(m, ops, hash, eq)
    ensures Calls(t, ops, hash, eq).1 == MapCalls(m, ops, hash, eq).1
    ensures Related(Calls(t, ops, hash, eq).0, MapCalls(m, ops, hash, eq).0, hash, eq)
    decreases |ops|
  {
    if ops != [] {
      CallAgrees(t, m, ops[0], hash, eq);
      TableIsMap(Call(t, ops[0], hash, eq).0, MapCall(m, ops[0], hash, eq).0, ops[1..], hash, eq);
    }
  }

  lemma EmptyTableIsEmptyMap<K(!new), V>(t: Table<K, V>, hash: K -> uint32, eq: (K, K) -> bool)
    requires Ok(t, hash) && Count(t) == 0
    ensures Related(t, map[], hash, eq)
  {
    CountIsBagSize(t.buckets);
    assert Bag(t.buckets) == multiset{};
  }

  // --------------------------------------------------------------------- load

  /** No insertion that needs an expansion is refused one. */
  predicate NeverStarved<K, V>(t: Table<K, V>, ops: seq<Op<K, V>>, hash: K -> uint32, eq: (K, K) -> bool)
    decreases |ops|
  {
    ops == [] ||
    (&& (ops[0].Insert? && Count(t) + 1 > LoadLimit(|t.buckets|) ==> Expanded(t, ops[0].mem).1)
     && NeverStarved(Call(t, ops[0], hash, eq).0, ops[1..], hash, eq))
  }

  lemma CallKeepsLoad<K(!new), V>(t: Table<K, V>, op: Op<K, V>, hash: K -> uint32, eq: (K, K) -> bool)
    requires Ok(t, hash)
    ensures Ok(Call(t, op, hash, eq).0, hash)
    ensures Count(t) <= LoadLimit(|t.buckets|)
         && (op.Insert? && Count(t) + 1 > LoadLimit(|t.buckets|) ==> Expanded(t, op.mem).1)
         ==> Count(Call(t, op, hash, eq).0) <= LoadLimit(|Call(t, op, hash, eq).0.buckets|)
  {
    match op
    case Insert(k, v, mem) =>
      InsertedOk(t, hash, Item(k, v, hash(k)), mem);
      if Count(t) <= LoadLimit(|t.buckets|) && (Count(t) + 1 > LoadLimit(|t.buckets|) ==> Expanded(t, mem).1) {
        InsertedLoad(t, hash, Item(k, v, hash(k)), mem);
      }
    case Search(k) =>
    case Remove(k) =>
      RemovedOk(t, hash, k, eq);
      CountIsBagSize(t.buckets);
      CountIsBagSize(Removed(t, hash(k), k, eq).buckets);
  }

  /** Every reachable table has a listed size; and unless an expansion failed, or the
      largest prime was passed, it is within its load limit. */
  lemma {:induction false} LoadStaysLimited<K(!new), V>(t: Table<K, V>, ops: seq<Op<K, V>>,
                                                        hash: K -> uint32, eq: (K, K) -> bool)
    requires Ok(t, hash)
    ensures Ok(Calls(t, ops, hash, eq).0, hash)
    ensures NeverStarved(t, ops, hash, eq) && Count(t) <= LoadLimit(|t.buckets|) ==>
              var u := Calls(t, ops, hash, eq).0;
              Count(u) <= LoadLimit(|u.buckets|)
    decreases |ops|
  {
    if ops != [] {
      CallKeepsLoad(t, ops[0], hash, eq);
      LoadStaysLimited(Call(t, ops[0], hash, eq).0, ops[1..], hash, eq);
    }
  }
}
