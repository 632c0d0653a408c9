/** Whole sequences of calls on a table on the heap. */
module TableRuns {
  import opened Buckets
  import opened TableSpec
  import opened TableMap
  import opened HashTable

  /** One call, by the operation's name. */
  method Do<K(!new), V>(h: HashTable<K, V>, op: Op<K, V>) returns (out: Out<V>)
    requires h.Valid()
    modifies h, h.table, h.nodes
    ensures h.Valid() && (h.Contents(), out) == Call(old(h.Contents()), op, h.hash, h.eqfn)
    ensures fresh(h.nodes - old(h.nodes)) && (h.table == old(h.table) || fresh(h.table))
  {
    match op
    case Insert(k, v, mem) =>
      var ok := h.Insert(k, v, mem);
      out := Done(ok);
    case Search(k) =>
      var r := h.Search(k);
      out := Found(r);
    case Remove(k) =>
      var r, _ := h.Remove(k);
      out := Found(r);
  }

  /** `end` and `outs` are what the calls from `i` on make of `t` after those before. */
  ghost predicate Halfway<K, V>(goal: (Table<K, V>, seq<Out<V>>), t: Table<K, V>, outs: seq<Out<V>>,
                                rest: seq<Op<K, V>>, hash: K -> uint32, eq: (K, K) -> bool)
  {
    var (end, more) := Calls(t, rest, hash, eq);
    goal == (end, outs + more)
  }

  lemma OneCall<K, V>(goal: (Table<K, V>, seq<Out<V>>), t: Table<K, V>, outs: seq<Out<V>>,
                      rest: seq<Op<K, V>>, hash: K -> uint32, eq: (K, K) -> bool)
    requires rest != [] && Halfway(goal, t, outs, rest, hash, eq)
    ensures var (u, out) := Call(t, rest[0], hash, eq);
            Halfway(goal, u, outs + [out], rest[1..], hash, eq)
  {
    var (u, out) := Call(t, rest[0], hash, eq);
    var (end, more) := Calls(u, rest[1..], hash, eq);
    assert outs + ([out] + more) == (outs + [out]) + more;
  }

  lemma NoCallYet<K, V>(t: Table<K, V>, ops: seq<Op<K, V>>, hash: K -> uint32, eq: (K, K) -> bool)
    ensures Halfway(Calls(t, ops, hash, eq), t, [], ops, hash, eq)
  {
    assert [] + Calls(t, ops, hash, eq).1 == Calls(t, ops, hash, eq).1;
  }

  lemma NoCallLeft<K, V>(goal: (Table<K, V>, seq<Out<V>>), t: Table<K, V>, outs: seq<Out<V>>,
                         hash: K -> uint32, eq: (K, K) -> bool)
    requires Halfway(goal, t, outs, [], hash, eq)
    ensures (t, outs) == goal
  {
    assert outs + [] == outs;
  }

  /** The next call of a run. */
  method Next<K(!new), V>(h: HashTable<K, V>, op: Op<K, V>, outs: seq<Out<V>>,
                          ghost goal: (Table<K, V>, seq<Out<V>>), ghost rest: seq<Op<K, V>>)
    returns (more: seq<Out<V>>)
    requires h.Valid() && rest != [] && rest[0] == op && Halfway(goal, h.Contents(), outs, rest, h.hash, h.eqfn)
    modifies h, h.table, h.nodes
    ensures h.Valid() && Halfway(goal, h.Contents(), more, rest[1..], h.hash, h.eqfn)
    ensures fresh(h.nodes - old(h.nodes)) && (h.table == old(h.table) || fresh(h.table))
  {
    OneCall(goal, h.Contents(), outs, rest, h.hash, h.eqfn);
    var out := Do(h, op);
    more := outs + [out];
  }

  /** The heap table goes through the calls as the specification says. */
  method Perform<K(!new), V>(h: HashTable<K, V>, ops: seq<Op<K, V>>) returns (outs: seq<Out<V>>)
    requires h.Valid()
    modifies h, h.table, h.nodes
    ensures h.Valid() && (h.Contents(), outs) == Calls(old(h.Contents()), ops, h.hash, h.eqfn)
  {
    ghost var goal := Calls(h.Contents(), ops, h.hash, h.eqfn);
    NoCallYet(h.Contents(), ops, h.hash, h.eqfn);
    outs := [];
    var i := 0;
    assert ops[0..] == ops;
    while i < |ops|
      invariant 0 <= i <= |ops| && h.Valid()
      invariant fresh(h.nodes - old(h.nodes)) && (h.table == old(h.table) || fresh(h.table))
      invariant Halfway(goal, h.Contents(), outs, ops[i..], h.hash, h.eqfn)
    {
      assert ops[i..][1..] == ops[i + 1..];
      outs := Next(h, ops[i], outs, goal, ops[i..]);
      i := i + 1;
    }
    assert ops[i..] == [];
    NoCallLeft(goal, h.Contents(), outs, h.hash, h.eqfn);
  }

  /** A heap table that represents a map answers like it, call after call. */
  method PerformAsMap<K(!new), V>(h: HashTable<K, V>, ops: seq<Op<K, V>>, ghost m: map<iset<K>, V>)
    returns (outs: seq<Out<V>>)
    requires h.Valid() && Equivalence(h.eqfn)
    requires Represents(Bag(h.buckets), m, h.hash, h.eqfn) && ProperRun(m, ops, h.hash, h.eqfn)
    modifies h, h.table, h.nodes
    ensures h.Valid() && outs == MapCalls(m, ops, h.hash, h.eqfn).1
    ensures Represents(Bag(h.buckets), MapCalls(m, ops, h.hash, h.eqfn).0, h.hash, h.eqfn)
  {
    TableIsMap(h.Contents(), m, ops, h.hash, h.eqfn);
    outs := Perform(h, ops);
  }
}
