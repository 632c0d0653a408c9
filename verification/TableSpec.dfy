/** The operations of the hash table on what it holds. */
module TableSpec {
  import opened Buckets
  import opened CBytes
  import opened Bits

  const PRIMES: seq<nat> := [
    53, 97, 193, 389,
    769, 1543, 3079, 6151,
    12289, 24593, 49157, 98317,
    196613, 393241, 786433, 1572869,
    3145739, 6291469, 12582917, 25165843,
    50331653, 100663319, 201326611, 402653189,
    805306457, 1610612741]

  /** The ceiling of 0.65 times the size. */
  function LoadLimit(size: nat): nat {
    (65 * size + 99) / 100
  }

  lemma PrimesGrow(p: nat)
    requires p < |PRIMES|
    ensures PRIMES[p] >= 53
    ensures p + 1 < |PRIMES| ==> PRIMES[p] + 2 < PRIMES[p + 1] && LoadLimit(PRIMES[p]) < LoadLimit(PRIMES[p + 1])
  {
  }

  /** How far each size is above the middle between two powers of two. */
  const ABOVE := [5, 1, 1, 5, 1, 7, 7, 7, 1, 17, 5, 13, 5, 25, 1, 5, 11, 13, 5, 19, 5, 23, 19, 5, 89, 5]

  lemma {:induction false} PrimesAre(p: nat)
    requires p < |PRIMES|
    ensures |PRIMES| == |ABOVE| == 26
    ensures PRIMES[p] == 48 * Pow2(p) + ABOVE[p]
  {
    if p > 0 {
      PrimesAre(p - 1);
      Doubling(p);
    }
  }

  lemma Doubling(p: nat)
    requires 0 < p < 26
    ensures |PRIMES| == |ABOVE| == 26 && PRIMES[p] - ABOVE[p] == 2 * (PRIMES[p - 1] - ABOVE[p - 1])
  {
  }

  /** The load limit is the least number not below 65 in a hundred. */
  lemma LoadLimitIs(size: nat)
    ensures 65 * size <= 100 * LoadLimit(size) < 65 * size + 100
    ensures LoadLimit(53) == 35
  {
  }

  // ------------------------------------------------------------------ hashing

  const WORD := 0x1_0000_0000

  lemma WordIsPow2()
    ensures Pow2(32) == WORD
  {
    assert Pow2(8) == 256;
    assert Pow2(16) == 0x1_0000;
    assert Pow2(24) == 0x100_0000;
  }

  function Or(a: uint32, b: uint32): uint32 {
    WordIsPow2();
    OrBound(a, b, 32);
    BitOr(a, b)
  }

  function Xor(a: uint32, b: uint32): uint32 {
    WordIsPow2();
    XorBound(a, b, 32);
    BitXor(a, b)
  }

  // Shifts multiply and divide by powers of two, modulo the word.

  function Mix1(i: uint32): uint32 {
    (i + (WORD - 1 - i * 0x200 % WORD)) % WORD       // i += ~(i << 9)
  }

  function Mix2(i: uint32): uint32 {
    Xor(i, Or(i / 0x4000, i * 0x4_0000 % WORD))      // i ^= (i >> 14) | (i << 18)
  }

  function Mix3(i: uint32): uint32 {
    (i + i * 0x10 % WORD) % WORD                     // i += i << 4
  }

  function Mix4(i: uint32): uint32 {
    Xor(i, Or(i / 0x400, i * 0x40_0000 % WORD))      // i ^= (i >> 10) | (i << 22)
  }

  /** What `hash` makes of the caller's hash function. */
  function Mix(i: uint32): uint32 {
    Mix4(Mix3(Mix2(Mix1(i))))
  }

  /** `(i >> r) | (i << (32 - r))` rotates. */
  lemma Rotated(i: uint32, r: nat, low: nat, high: nat, k: nat)
    requires r < 32 && k < 32 && low == Pow2(r) && high == Pow2(32 - r)
    ensures low > 0 && 0 <= i / low < WORD
    ensures Bit(Xor(i, Or(i / low, i * high % WORD)), k) == (Bit(i, k) + Bit(i, if k + r < 32 then k + r else k + r - 32)) % 2
  {
    WordIsPow2();
    var right, left := Halved(i, r), Lowest(Doubled(i, 32 - r), 32);
    ShiftsAre(i, r, low);
    DoubledIs(i, 32 - r);
    ShiftsAre(Doubled(i, 32 - r), 32, WORD);
    HalvedAtMost(i, r);
    HalvedBit(i, r, k);
    LowestBit(Doubled(i, 32 - r), 32, k);
    DoubledBit(i, 32 - r, k);
    RotationBit(i, 32, r, k, right, left);
    XorBit(i, BitOr(right, left), k);
  }

  lemma Mix1Is(i: uint32)
    ensures Mix1(i) == (-511 * i - 1) % 0x1_0000_0000
  {
  }

  lemma Mix2Is(i: uint32, k: nat)
    requires k < 32
    ensures Bit(Mix2(i), k) == (Bit(i, k) + Bit(i, if k < 18 then k + 14 else k - 18)) % 2
  {
    WordIsPow2();
    assert Pow2(8) == 256 && Pow2(14) == 0x4000 && Pow2(16) == 0x1_0000 && Pow2(18) == 0x4_0000;
    Rotated(i, 14, 0x4000, 0x4_0000, k);
  }

  lemma Mix3Is(i: uint32)
    ensures Mix3(i) == 17 * i % 0x1_0000_0000
  {
  }

  lemma Mix4Is(i: uint32, k: nat)
    requires k < 32
    ensures Bit(Mix4(i), k) == (Bit(i, k) + Bit(i, if k < 22 then k + 10 else k - 22)) % 2
  {
    WordIsPow2();
    assert Pow2(8) == 256 && Pow2(10) == 0x400 && Pow2(16) == 0x1_0000 && Pow2(22) == 0x40_0000;
    Rotated(i, 10, 0x400, 0x40_0000, k);
  }

  /** `y` is `x` plus, without carry, `x` rotated to the right by `r`, in 32 bits. */
  ghost predicate AddsRotation(x: uint32, r: nat, y: uint32) {
    forall k :: 0 <= k < 32 ==> Bit(y, k) == (Bit(x, k) + Bit(x, if k + r < 32 then k + r else k + r - 32)) % 2
  }

  lemma Mix2Adds(i: uint32)
    ensures AddsRotation(i, 14, Mix2(i))
  {
    forall k | 0 <= k < 32
      ensures Bit(Mix2(i), k) == (Bit(i, k) + Bit(i, if k + 14 < 32 then k + 14 else k + 14 - 32)) % 2
    {
      Mix2Is(i, k);
    }
  }

  lemma Mix4Adds(i: uint32)
    ensures AddsRotation(i, 10, Mix4(i))
  {
    forall k | 0 <= k < 32
      ensures Bit(Mix4(i), k) == (Bit(i, k) + Bit(i, if k + 10 < 32 then k + 10 else k + 10 - 32)) % 2
    {
      Mix4Is(i, k);
    }
  }

  /** In 32 bits, the mixing multiplies by -511 and takes 1 away; adds a rotation by 14
      without carry; multiplies by 17; and adds a rotation by 10 without carry. */
  lemma MixIs(i: uint32) returns (b: uint32)
    ensures AddsRotation((-511 * i - 1) % 0x1_0000_0000, 14, b)
    ensures AddsRotation(17 * b % 0x1_0000_0000, 10, Mix(i))
  {
    var a := Mix1(i);
    b := Mix2(a);
    var c := Mix3(b);
    Mix1Is(i);
    Mix2Adds(a);
    Mix3Is(b);
    Mix4Adds(c);
  }

  /** That is all there is to it: the digits leave no choice. */
  lemma MixIsOnly(i: uint32, b: uint32, y: uint32)
    requires AddsRotation((-511 * i - 1) % 0x1_0000_0000, 14, b)
    requires AddsRotation(17 * b % 0x1_0000_0000, 10, y)
    ensures y == Mix(i)
  {
    var b' := MixIs(i);
    SameRotation((-511 * i - 1) % 0x1_0000_0000, 14, b, b');
    SameRotation(17 * b % 0x1_0000_0000, 10, y, Mix(i));
  }

  lemma SameRotation(x: uint32, r: nat, y: uint32, y': uint32)
    requires AddsRotation(x, r, y) && AddsRotation(x, r, y')
    ensures y == y'
  {
    WordIsPow2();
    forall k | 0 <= k < 32 ensures Bit(y, k) == Bit(y', k) {
      assert Bit(y, k) == (Bit(x, k) + Bit(x, if k + r < 32 then k + r else k + r - 32)) % 2;
    }
    SameBits(y, y', 32);
  }

  // --------------------------------------------------------------- operations

  /** A table: `tablelength` is the number of buckets. */
  datatype Table<+K, +V> = Table(buckets: seq<seq<Item<K, V>>>, primeindex: nat)

  /** Which allocations succeed during one call. */
  datatype Memory = Memory(newTable: bool, realloc: bool, entry: bool)

  /** Every entry is in the bucket of its hash, and its hash is its key's. */
  ghost predicate Good<K(!new), V>(b: seq<seq<Item<K, V>>>, hash: K -> uint32) {
    && |b| > 0 && Placed(b)
    && forall i, j :: 0 <= i < |b| && 0 <= j < |b[i]| ==> b[i][j].h == hash(b[i][j].k)
  }

  lemma GoodBag<K(!new), V>(b: seq<seq<Item<K, V>>>, hash: K -> uint32)
    requires |b| > 0 && Placed(b)
    ensures Good(b, hash) <==> forall x :: x in Bag(b) ==> x.h == hash(x.k)
  {
    if Good(b, hash) {
      forall x | x in Bag(b) ensures x.h == hash(x.k) {
        var i, j := MemberOfBag(b, x);
      }
    } else {
      var i, j :| 0 <= i < |b| && 0 <= j < |b[i]| && b[i][j].h != hash(b[i][j].k);
      BagMember(b, i, j);
    }
  }

  ghost predicate Sized<K, V>(t: Table<K, V>) {
    t.primeindex < |PRIMES| && |t.buckets| == PRIMES[t.primeindex]
  }

  ghost predicate Ok<K(!new), V>(t: Table<K, V>, hash: K -> uint32) {
    Sized(t) && Good(t.buckets, hash)
  }

  /** The sum of the chain lengths. */
  function ChainLengths<T>(b: seq<seq<T>>): nat {
    if b == [] then 0 else |b[0]| + ChainLengths(b[1..])
  }

  function Count<K, V>(t: Table<K, V>): nat {
    ChainLengths(t.buckets)
  }

  lemma {:induction false} CountIsBagSize<T>(b: seq<seq<T>>)
    ensures |Bag(b)| == ChainLengths(b)
  {
    if b != [] {
      CountIsBagSize(b[1..]);
    }
  }

  /** `hashtable_expand`, and whether it succeeded. */
  function Expanded<K, V>(t: Table<K, V>, mem: Memory): (r: (Table<K, V>, bool)) {
    if t.primeindex + 1 >= |PRIMES| then (t, false)
    else
      var size := PRIMES[t.primeindex + 1];
      PrimesGrow(t.primeindex + 1);
      if mem.newTable then (Table(PlanA(t.buckets, size), t.primeindex + 1), true)
      else if mem.realloc && |t.buckets| <= size then (Table(PlanB(t.buckets, size), t.primeindex + 1), true)
      else (t, false)
  }

  /** Its outcomes; the next prime is always large enough for the second plan. */
  lemma ExpandedIs<K, V>(t: Table<K, V>, mem: Memory)
    requires Sized(t)
    ensures t.primeindex == |PRIMES| - 1 || (!mem.newTable && !mem.realloc) ==> Expanded(t, mem) == (t, false)
    ensures t.primeindex < |PRIMES| - 1 && mem.newTable ==>
              PRIMES[t.primeindex + 1] > 0
              && Expanded(t, mem) == (Table(PlanA(t.buckets, PRIMES[t.primeindex + 1]), t.primeindex + 1), true)
    ensures t.primeindex < |PRIMES| - 1 && !mem.newTable && mem.realloc ==>
              |t.buckets| <= PRIMES[t.primeindex + 1]
              && Expanded(t, mem) == (Table(PlanB(t.buckets, PRIMES[t.primeindex + 1]), t.primeindex + 1), true)
  {
    PrimesGrow(t.primeindex);
  }

  /** `hashtable_insert`, and whether it succeeded. */
  function Inserted<K, V>(t: Table<K, V>, x: Item<K, V>, mem: Memory): (Table<K, V>, bool) {
    var u := if Count(t) + 1 > LoadLimit(|t.buckets|) then Expanded(t, mem).0 else t;
    if mem.entry && |u.buckets| > 0 then (u.(buckets := Push(u.buckets, x)), true) else (u, false)
  }

  predicate Matches<K, V>(x: Item<K, V>, h: uint32, k: K, eq: (K, K) -> bool) {
    x.h == h && eq(k, x.k)
  }

  /** The position of the first match, or the length of the chain. */
  function FindIn<K, V>(c: seq<Item<K, V>>, h: uint32, k: K, eq: (K, K) -> bool): (p: nat)
    ensures p <= |c|
    ensures p < |c| ==> Matches(c[p], h, k, eq)
    ensures forall j :: 0 <= j < p ==> !Matches(c[j], h, k, eq)
  {
    if c == [] || Matches(c[0], h, k, eq) then 0 else 1 + FindIn(c[1..], h, k, eq)
  }

  lemma {:induction false} FindInIs<K, V>(c: seq<Item<K, V>>, h: uint32, k: K, eq: (K, K) -> bool, p: nat)
    requires p <= |c| && (p < |c| ==> Matches(c[p], h, k, eq))
    requires forall j :: 0 <= j < p ==> !Matches(c[j], h, k, eq)
    ensures FindIn(c, h, k, eq) == p
  {
  }

  function Chain<K, V>(t: Table<K, V>, h: uint32): seq<Item<K, V>> {
    if |t.buckets| == 0 then [] else t.buckets[IndexFor(|t.buckets|, h)]
  }

  /** `hashtable_search`. */
  function Lookup<K, V>(t: Table<K, V>, h: uint32, k: K, eq: (K, K) -> bool): Option<V> {
    var c := Chain(t, h);
    var p := FindIn(c, h, k, eq);
    if p < |c| then Some(c[p].v) else None
  }

  /** What `hashtable_remove` leaves. */
  function Removed<K, V>(t: Table<K, V>, h: uint32, k: K, eq: (K, K) -> bool): Table<K, V> {
    var c := Chain(t, h);
    var p := FindIn(c, h, k, eq);
    if p < |c| then t.(buckets := t.buckets[IndexFor(|t.buckets|, h) := Cut(c, p)]) else t
  }

  // ----------------------------------------------------------------- theorems

  lemma PlanAGood<K(!new), V>(b: seq<seq<Item<K, V>>>, hash: K -> uint32, n: nat)
    requires Good(b, hash) && |b| <= n
    ensures Good(PlanA(b, n), hash) && |PlanA(b, n)| == n
    ensures Bag(PlanA(b, n)) == Bag(b) && ChainLengths(PlanA(b, n)) == ChainLengths(b)
  {
    PlanACorrect(b, n, 0);
    GoodBag(b, hash);
    GoodBag(PlanA(b, n), hash);
    SameCount(b, PlanA(b, n));
  }

  lemma PlanBGood<K(!new), V>(b: seq<seq<Item<K, V>>>, hash: K -> uint32, n: nat)
    requires Good(b, hash) && |b| <= n
    ensures Good(PlanB(b, n), hash) && |PlanB(b, n)| == n
    ensures Bag(PlanB(b, n)) == Bag(b) && ChainLengths(PlanB(b, n)) == ChainLengths(b)
  {
    PlanBCorrect(b, n, 0);
    GoodBag(b, hash);
    GoodBag(PlanB(b, n), hash);
    SameCount(b, PlanB(b, n));
  }

  lemma SameCount<K, V>(b: seq<seq<Item<K, V>>>, b': seq<seq<Item<K, V>>>)
    requires Bag(b) == Bag(b')
    ensures ChainLengths(b) == ChainLengths(b')
  {
    CountIsBagSize(b);
    CountIsBagSize(b');
  }

  lemma GrownOk<K(!new), V>(t: Table<K, V>, hash: K -> uint32, b: seq<seq<Item<K, V>>>)
    requires Ok(t, hash) && t.primeindex + 1 < |PRIMES|
    requires Good(b, hash) && |b| == PRIMES[t.primeindex + 1]
    ensures Ok(Table(b, t.primeindex + 1), hash)
  {
  }

  /** Expansion keeps the entries and the table's shape; it fails only at the
      largest prime or without memory, and then changes nothing. */
  lemma ExpandedOk<K(!new), V>(t: Table<K, V>, hash: K -> uint32, mem: Memory)
    requires Ok(t, hash)
    ensures var (u, ok) := Expanded(t, mem);
            && Ok(u, hash) && Bag(u.buckets) == Bag(t.buckets)
            && (ok <==> t.primeindex + 1 < |PRIMES| && (mem.newTable || mem.realloc))
            && (if ok then u.primeindex == t.primeindex + 1 else u == t)
  {
    ExpandedIs(t, mem);
    PrimesGrow(t.primeindex);
    if t.primeindex + 1 < |PRIMES| {
      var n := PRIMES[t.primeindex + 1];
      if mem.newTable {
        PlanAGood(t.buckets, hash, n);
        GrownOk(t, hash, PlanA(t.buckets, n));
      } else if mem.realloc {
        PlanBGood(t.buckets, hash, n);
        GrownOk(t, hash, PlanB(t.buckets, n));
      }
    }
  }

  lemma PushGood<K(!new), V>(b: seq<seq<Item<K, V>>>, hash: K -> uint32, x: Item<K, V>)
    requires Good(b, hash) && x.h == hash(x.k)
    ensures Good(Push(b, x), hash) && |Push(b, x)| == |b|
    ensures Bag(Push(b, x)) == Bag(b) + multiset{x}
  {
    PushBag(b, x);
  }

  /** An insertion adds one entry if its memory is there and nothing otherwise. */
  lemma InsertedOk<K(!new), V>(t: Table<K, V>, hash: K -> uint32, x: Item<K, V>, mem: Memory)
    requires Ok(t, hash) && x.h == hash(x.k)
    ensures Ok(Inserted(t, x, mem).0, hash) && Inserted(t, x, mem).1 == mem.entry
    ensures Bag(Inserted(t, x, mem).0.buckets) == Bag(t.buckets) + (if mem.entry then multiset{x} else multiset{})
  {
    ExpandedOk(t, hash, mem);
    var u := if Count(t) + 1 > LoadLimit(|t.buckets|) then Expanded(t, mem).0 else t;
    PushGood(u.buckets, hash, x);
  }

  /** One expansion always suffices: a table within its load limit stays within it
      unless the expansion failed. */
  lemma InsertedLoad<K(!new), V>(t: Table<K, V>, hash: K -> uint32, x: Item<K, V>, mem: Memory)
    requires Ok(t, hash) && x.h == hash(x.k)
    requires Count(t) <= LoadLimit(|t.buckets|)
    requires Count(t) + 1 > LoadLimit(|t.buckets|) ==> Expanded(t, mem).1
    ensures Count(Inserted(t, x, mem).0) <= LoadLimit(|Inserted(t, x, mem).0.buckets|)
  {
    PrimesGrow(t.primeindex);
    ExpandedOk(t, hash, mem);
    var u := if Count(t) + 1 > LoadLimit(|t.buckets|) then Expanded(t, mem).0 else t;
    SameCount(t.buckets, u.buckets);
    PushCount(u.buckets, x);
  }

  /** With memory, an insertion grows the table exactly when it already holds 65 entries
      for every hundred buckets, and there is a larger size. */
  lemma InsertedGrows<K(!new), V>(t: Table<K, V>, hash: K -> uint32, x: Item<K, V>, mem: Memory)
    requires Ok(t, hash) && x.h == hash(x.k) && (mem.newTable || mem.realloc)
    ensures Inserted(t, x, mem).0.primeindex
         == t.primeindex + if 100 * Count(t) >= 65 * |t.buckets| && t.primeindex < 25 then 1 else 0
  {
    ExpandedOk(t, hash, mem);
    LoadLimitIs(|t.buckets|);
  }

  /** Of entries with one key, the latest inserted is found. */
  lemma NewestIsFound<K(!new), V>(t: Table<K, V>, hash: K -> uint32, x: Item<K, V>, mem: Memory, eq: (K, K) -> bool)
    requires Ok(t, hash) && x.h == hash(x.k) && mem.entry && eq(x.k, x.k)
    ensures Lookup(Inserted(t, x, mem).0, hash(x.k), x.k, eq) == Some(x.v)
  {
    ExpandedOk(t, hash, mem);
  }

  lemma PushCount<K, V>(b: seq<seq<Item<K, V>>>, x: Item<K, V>)
    requires |b| > 0
    ensures ChainLengths(Push(b, x)) == ChainLengths(b) + 1
  {
    PushBag(b, x);
    CountIsBagSize(b);
    CountIsBagSize(Push(b, x));
  }

  lemma CutBag<T>(c: seq<T>, p: nat)
    requires p < |c|
    ensures multiset(c) == multiset(Cut(c, p)) + multiset{c[p]}
  {
    assert c == c[..p] + [c[p]] + c[p + 1..];
  }

  lemma CutBags<K, V>(b: seq<seq<Item<K, V>>>, i: nat, p: nat)
    requires i < |b| && p < |b[i]|
    ensures Bag(b) == Bag(b[i := Cut(b[i], p)]) + multiset{b[i][p]}
  {
    var c, x := Cut(b[i], p), b[i][p];
    BagUpdate(b, i, c);
    CutBag(b[i], p);
    Swapping(Bag(b[i := c]), multiset(b[i]), Bag(b), multiset(c), multiset{x});
  }

  lemma Swapping<T>(a: multiset<T>, whole: multiset<T>, b: multiset<T>, c: multiset<T>, x: multiset<T>)
    requires a + whole == b + c && whole == c + x
    ensures b == a + x
  {
    forall t ensures b[t] == (a + x)[t] {
      assert (a + whole)[t] == (b + c)[t];
    }
  }

  lemma CutGood<K(!new), V>(b: seq<seq<Item<K, V>>>, hash: K -> uint32, i: nat, p: nat)
    requires Good(b, hash) && i < |b| && p < |b[i]|
    ensures Good(b[i := Cut(b[i], p)], hash)
  {
    var b': seq<seq<Item<K, V>>> := b[i := Cut(b[i], p)];
    CutAt(b[i], p);
    forall m, j | 0 <= m < |b'| && 0 <= j < |b'[m]|
      ensures IndexFor(|b'|, b'[m][j].h) == m && b'[m][j].h == hash(b'[m][j].k)
    {
      assert b'[m][j] == b[m][if m != i || j < p then j else j + 1];
    }
  }

  lemma NoMatch<K(!new), V>(b: seq<seq<Item<K, V>>>, hash: K -> uint32, k: K, eq: (K, K) -> bool, x: Item<K, V>)
    requires Good(b, hash) && x in Bag(b)
    requires forall j :: 0 <= j < |b[IndexFor(|b|, hash(k))]| ==> !Matches(b[IndexFor(|b|, hash(k))][j], hash(k), k, eq)
    ensures !Matches(x, hash(k), k, eq)
  {
    var i, j := MemberOfBag(b, x);
    assert IndexFor(|b|, b[i][j].h) == i;
  }

  /** Removal takes out exactly one matching entry if there is one, and nothing
      otherwise; a search finds an entry exactly when the table holds a match. */
  lemma RemovedOk<K(!new), V>(t: Table<K, V>, hash: K -> uint32, k: K, eq: (K, K) -> bool)
    requires Good(t.buckets, hash)
    ensures Good(Removed(t, hash(k), k, eq).buckets, hash)
    ensures Removed(t, hash(k), k, eq).primeindex == t.primeindex
    ensures |Removed(t, hash(k), k, eq).buckets| == |t.buckets|
    ensures match Lookup(t, hash(k), k, eq)
            case None =>
              && Removed(t, hash(k), k, eq) == t
              && forall x :: x in Bag(t.buckets) ==> !(x.h == hash(k) && eq(k, x.k))
            case Some(v) =>
              exists x :: x in Bag(t.buckets) && x.h == hash(k) && eq(k, x.k) && x.v == v
                && Bag(t.buckets) == Bag(Removed(t, hash(k), k, eq).buckets) + multiset{x}
  {
    var b, i, c := t.buckets, IndexFor(|t.buckets|, hash(k)), Chain(t, hash(k));
    var p := FindIn(c, hash(k), k, eq);
    if p < |c| {
      BagMember(b, i, p);
      CutGood(b, hash, i, p);
      CutBags(b, i, p);
    } else {
      forall x | x in Bag(b) ensures !Matches(x, hash(k), k, eq) {
        NoMatch(b, hash, k, eq, x);
      }
    }
  }
}
