/** The server's task table: the hash table with `zkUA_hash` and `zkUA_equalKeys`. */
module TaskTable {
  import opened CBytes
  import opened Buckets
  import opened TableSpec
  import opened TableMap

  /** A key is memory holding a terminated string and at least `sizeof(unsigned long)`
      bytes, which is what the comparison reads. */
  type Key = k: seq<byte> | |k| >= 8 && 0 in k witness [0, 0, 0, 0, 0, 0, 0, 0]

  /** What an `unsigned int` keeps of a number. */
  function Wrap(n: int): uint32 {
    n % 0x1_0000_0000
  }

  function Fold<A>(f: (A, byte) -> A, start: A, s: seq<byte>): A {
    if s == [] then start else f(Fold(f, start, s[..|s| - 1]), s[|s| - 1])
  }

  /** `hash * 33 + c`, with a signed character, modulo 2^32. */
  function Step(h: uint32, c: byte): uint32 {
    Wrap(33 * h + Signed(c))
  }

  /** The hash of a string. */
  function Djb2(s: seq<byte>): uint32 {
    Fold(Step, 5381, s)
  }

  function Pow(b: nat, e: nat): nat {
    if e == 0 then 1 else b * Pow(b, e - 1)
  }

  /** The characters, those above 127 being negative, weighted by falling powers of 33. */
  function Weighted(s: seq<byte>): int {
    if s == [] then 0
    else (if s[0] < 128 then s[0] else s[0] - 256) * Pow(33, |s| - 1) + Weighted(s[1..])
  }

  lemma {:induction false} WeightedSnoc(s: seq<byte>, c: byte)
    ensures Weighted(s + [c]) == 33 * Weighted(s) + if c < 128 then c else c - 256
  {
    if s == [] {
      assert s + [c] == [c] && [c][1..] == [] && Pow(33, 0) == 1;
    } else {
      WeightedSnoc(s[1..], c);
      assert (s + [c])[1..] == s[1..] + [c];
      Raised(Signed(s[0]), |s| - 1);
    }
  }

  lemma Raised(x: int, e: nat)
    ensures x * Pow(33, e + 1) == 33 * (x * Pow(33, e))
  {
    assert Pow(33, e + 1) == 33 * Pow(33, e);
  }

  /** The hash in closed form. */
  lemma {:induction false} Djb2Is(s: seq<byte>)
    ensures Djb2(s) == (5381 * Pow(33, |s|) + Weighted(s)) % 0x1_0000_0000
  {
    if s == [] {
      assert Pow(33, 0) == 1;
    } else {
      var front, c := s[..|s| - 1], s[|s| - 1];
      assert s == front + [c];
      Djb2Is(front);
      FoldLast(Step, 5381, front, c);
      WeightedSnoc(front, c);
      Raised(5381, |front|);
      NextClosed(5381 * Pow(33, |front|), Weighted(front), c);
    }
  }

  lemma NextClosed(x: int, y: int, c: byte)
    ensures Step((x + y) % 0x1_0000_0000, c)
         == (33 * x + (33 * y + if c < 128 then c else c - 256)) % 0x1_0000_0000
  {
    WrapInside(x + y, Signed(c));
  }

  function KeyHash(k: Key): uint32 {
    Djb2(CString(k))
  }

  /** `zkUA_hash`, on any terminated string. */
  method ZkHash(str: array<byte>) returns (hash: uint32)
    requires 0 in str[..]
    ensures hash == Djb2(CString(str[..]))
    ensures var s := CString(str[..]);
            hash == (5381 * Pow(33, |s|) + Weighted(s)) % 0x1_0000_0000
  {
    ghost var s := CString(str[..]);
    CStringEnds(str[..]);
    hash := 5381;
    var n := 0;
    while str[n] != 0
      invariant n <= |s| && hash == Djb2(s[..n])
      decreases |s| - n
    {
      assert s[n] == str[n];
      NextHash(s, n);
      hash := Wrap(hash * 32 + hash + Signed(str[n]));  // ((hash << 5) + hash) + c
      n := n + 1;
    }
    assert s[..n] == s;
    Djb2Is(s);
  }

  lemma NextHash(s: seq<byte>, n: nat)
    requires n < |s|
    ensures Djb2(s[..n + 1]) == Wrap(Djb2(s[..n]) * 32 + Djb2(s[..n]) + Signed(s[n]))
  {
    assert s[..n + 1] == s[..n] + [s[n]];
    FoldLast(Step, 5381, s[..n], s[n]);
  }

  lemma {:induction false} CStringEnds(buf: seq<byte>)
    requires 0 in buf
    ensures |CString(buf)| < |buf|
  {
    if buf[0] != 0 {
      CStringEnds(buf[1..]);
    }
  }

  /** `zkUA_equalKeys`: eight bytes, whatever the strings. */
  predicate EqualKeys(a: Key, b: Key) {
    a[..8] == b[..8]
  }

  lemma EqualKeysIsEquivalence()
    ensures Equivalence(EqualKeys)
  {
  }

  function MixedHash(k: Key): uint32 {
    Mix(KeyHash(k))
  }

  /** The task table answers like a map in which two keys are one when they agree in
      their first eight bytes and in the hash of their strings. */
  lemma TaskTableIsMap<V>(t: Table<Key, V>, ops: seq<Op<Key, V>>)
    requires Ok(t, MixedHash) && Count(t) == 0 && ProperRun(map[], ops, MixedHash, EqualKeys)
    ensures Calls(t, ops, MixedHash, EqualKeys).1 == MapCalls(map[], ops, MixedHash, EqualKeys).1
  {
    EqualKeysIsEquivalence();
    EmptyTableIsEmptyMap(t, MixedHash, EqualKeys);
    TableIsMap(t, map[], ops, MixedHash, EqualKeys);
  }

  // ------------------------------------------- the comparison against strings

  /** What `zkUA_equalKeys` can see of a string. */
  function Seen(s: seq<byte>): seq<byte> {
    if |s| <= 8 then s else s[..8]
  }

  /** Nothing but zeros follows the string in the eight bytes compared. */
  ghost predicate ZeroPadded(k: Key) {
    forall i :: |CString(k)| <= i < 8 ==> k[i] == 0
  }

  lemma SeenAt(k: Key, i: nat)
    requires ZeroPadded(k) && i < 8
    ensures k[i] == if i < |CString(k)| then CString(k)[i] else 0
  {
  }

  /** Zero-padded keys compare equal exactly when their strings agree in their first
      eight characters; so for strings of at most eight the comparison is string
      equality. */
  lemma PaddedKeysCompareByPrefix(a: Key, b: Key)
    requires ZeroPadded(a) && ZeroPadded(b)
    ensures EqualKeys(a, b) <==> Seen(CString(a)) == Seen(CString(b))
    ensures |CString(a)| <= 8 && |CString(b)| <= 8 ==> (EqualKeys(a, b) <==> CString(a) == CString(b))
  {
    var s, t := Seen(CString(a)), Seen(CString(b));
    forall i | 0 <= i < 8
      ensures a[i] == if i < |s| then s[i] else 0
      ensures b[i] == if i < |t| then t[i] else 0
    {
      SeenAt(a, i);
      SeenAt(b, i);
    }
    if EqualKeys(a, b) {
      assert forall i :: 0 <= i < 8 ==> a[i] == a[..8][i] == b[..8][i] == b[i];
      assert |s| == |t|;
    }
    if s == t {
      assert a[..8] == b[..8];
    }
  }

  /** Keys equal to `a` have its string exactly when that string ends within the eight
      bytes compared. */
  lemma EqualMeansSameString(a: Key)
    ensures (forall b: Key :: EqualKeys(a, b) ==> CString(b) == CString(a)) <==> |CString(a)| < 8
  {
    var s := CString(a);
    if |s| < 8 {
      forall b: Key | EqualKeys(a, b) ensures CString(b) == s {
        SameWithinEight(a, b);
      }
    } else {
      var b := Extended(a, 1);
      assert EqualKeys(a, b) && CString(b) != s;
    }
  }

  /** Keys equal to `a` have its hash under exactly the same condition: only then does
      the table tell keys apart by `eqfn` alone. */
  lemma EqualMeansSameHash(a: Key)
    ensures (forall b: Key :: EqualKeys(a, b) ==> KeyHash(b) == KeyHash(a)) <==> |CString(a)| < 8
  {
    var s := CString(a);
    if |s| < 8 {
      EqualMeansSameString(a);
    } else {
      var b, c := EqualKeysApart(a);
    }
  }

  /** Two keys equal to `a` with different hashes. */
  lemma EqualKeysApart(a: Key) returns (b: Key, c: Key)
    requires |CString(a)| >= 8
    ensures EqualKeys(a, b) && EqualKeys(a, c) && KeyHash(b) != KeyHash(c)
  {
    b := Extended(a, 49);
    c := Extended(a, 50);
    HashesApart(CString(a));
  }

  lemma HashesApart(s: seq<byte>)
    ensures Djb2(s + [49]) != Djb2(s + [50])
  {
    FoldLast(Step, 5381, s, 49);
    FoldLast(Step, 5381, s, 50);
    Collide(Djb2(s));
  }

  /** Keys with the string of `a` are equal to it exactly when the string and its
      terminator fill the eight bytes compared. */
  lemma SameStringMeansEqual(a: Key)
    ensures (forall b: Key :: CString(b) == CString(a) ==> EqualKeys(a, b)) <==> |CString(a)| >= 7
  {
    var s := CString(a);
    if |s| >= 7 {
      forall b: Key | CString(b) == s ensures EqualKeys(a, b) {
        FilledKeysAgree(a, b);
      }
    } else {
      var b := Refilled(a);
      assert CString(b) == s && !EqualKeys(a, b);
    }
  }

  lemma SameWithinEight(a: Key, b: Key)
    requires EqualKeys(a, b) && |CString(a)| < 8
    ensures CString(b) == CString(a)
  {
    var s := CString(a);
    assert forall i :: 0 <= i < 8 ==> b[i] == b[..8][i] == a[..8][i] == a[i];
    StringIs(b, s);
  }

  lemma FilledKeysAgree(a: Key, b: Key)
    requires CString(a) == CString(b) && |CString(a)| >= 7
    ensures EqualKeys(a, b)
  {
    var s := CString(a);
    CStringEnds(a);
    CStringEnds(b);
    assert forall i :: 0 <= i < 8 ==> a[i] == (if i < |s| then s[i] else 0) == b[i];
  }

  /** A key equal to `a` whose string goes on by one character. */
  lemma Extended(a: Key, c: byte) returns (b: Key)
    requires |CString(a)| >= 8 && c != 0
    ensures EqualKeys(a, b) && CString(b) == CString(a) + [c]
  {
    var s := CString(a);
    assert (s + [c])[..8] == a[..8];
    b := KeyOf(s + [c]);
  }

  /** A key with the string of `a` and something else behind it. */
  lemma Refilled(a: Key) returns (b: Key)
    requires |CString(a)| < 7
    ensures CString(b) == CString(a) && !EqualKeys(a, b)
  {
    var s := CString(a);
    var x: byte := if a[|s| + 1] == 1 then 2 else 1;
    var m: seq<byte> := s + [0] + seq(7 - |s|, _ => x);
    assert m[|s|] == 0 && m[|s| + 1] == x && m[..|s|] == s;
    b := m;
    StringIs(b, s);
    assert a[..8][|s| + 1] != b[..8][|s| + 1];
  }

  // Inputs on which they fail.

  const TASKTASK: seq<byte> := [116, 97, 115, 107, 116, 97, 115, 107]

  /** Equal keys can have different hashes: "tasktask1" and "tasktask2". */
  lemma EqualKeysWithDifferentHashes() returns (a: Key, b: Key)
    ensures EqualKeys(a, b) && KeyHash(a) != KeyHash(b)
  {
    var s, t := TASKTASK + [49], TASKTASK + [50];
    a := KeyOf(s);
    b := KeyOf(t);
    HashesApart(TASKTASK);
  }

  /** Different strings can be one key to the table: "tasktaskaB" and "tasktaskb!". */
  lemma DifferentStringsSameKey() returns (a: Key, b: Key)
    ensures EqualKeys(a, b) && KeyHash(a) == KeyHash(b) && CString(a) != CString(b)
  {
    var s, t := TASKTASK + [97], TASKTASK + [98];
    a := KeyOf(s + [66]);
    b := KeyOf(t + [33]);
    HashesMeet(TASKTASK);
    assert (s + [66])[8] != (t + [33])[8];
  }

  /** One string can be two keys, when what follows its terminator differs. */
  lemma SameStringDifferentKeys() returns (a: Key, b: Key)
    ensures CString(a) == CString(b) && !EqualKeys(a, b)
  {
    a, b := [116, 0, 0, 0, 0, 0, 0, 0], [116, 0, 1, 1, 1, 1, 1, 1];
    StringIs(a, [116]);
    StringIs(b, [116]);
    assert a[..8][2] != b[..8][2];
  }

  /** A string of at least eight characters as a key. */
  lemma KeyOf(s: seq<byte>) returns (k: Key)
    requires NulFree(s) && |s| >= 8
    ensures CString(k) == s && k[..8] == s[..8]
  {
    var m := s + [0];
    assert m[|s|] == 0 && m[..|s|] == s;
    assert m[..8] == s[..8];
    k := m;
    StringIs(k, s);
  }

  lemma FoldLast<A>(f: (A, byte) -> A, start: A, s: seq<byte>, c: byte)
    ensures Fold(f, start, s + [c]) == f(Fold(f, start, s), c)
  {
    assert (s + [c])[..|s|] == s;
  }

  lemma StringIs(k: Key, s: seq<byte>)
    requires NulFree(s) && |s| < |k| && k[..|s|] == s && k[|s|] == 0
    ensures CString(k) == s
  {
    assert k == s + [0] + k[|s| + 1..];
    CStringOf(s, k[|s| + 1..]);
  }

  lemma HashesMeet(s: seq<byte>)
    ensures Djb2((s + [97]) + [66]) == Djb2((s + [98]) + [33])
  {
    FoldLast(Step, 5381, s, 97);
    FoldLast(Step, 5381, s + [97], 66);
    FoldLast(Step, 5381, s, 98);
    FoldLast(Step, 5381, s + [98], 33);
    Collide(Djb2(s));
  }

  lemma WrapInside(x: int, y: int)
    ensures Wrap(33 * Wrap(x) + y) == Wrap(33 * x + y)
  {
    var q := x / 0x1_0000_0000;
    assert 33 * x + y == (33 * Wrap(x) + y) + 33 * q * 0x1_0000_0000;
    WrapMultiple(33 * Wrap(x) + y, 33 * q);
  }

  lemma WrapMultiple(n: int, k: int)
    ensures Wrap(n + k * 0x1_0000_0000) == Wrap(n)
  {
  }

  lemma WrapNext(n: int)
    ensures Wrap(n) != Wrap(n + 1)
  {
  }

  lemma TwoSteps(h: uint32, c: byte, d: byte)
    ensures Step(Step(h, c), d) == Wrap(1089 * h + 33 * Signed(c) + Signed(d))
  {
    WrapInside(33 * h + Signed(c), Signed(d));
    assert 33 * (33 * h + Signed(c)) + Signed(d) == 1089 * h + 33 * Signed(c) + Signed(d);
  }

  lemma Collide(h: uint32)
    ensures Step(Step(h, 97), 66) == Step(Step(h, 98), 33)
    ensures Step(h, 49) != Step(h, 50)
  {
    TwoSteps(h, 97, 66);
    TwoSteps(h, 98, 33);
    WrapNext(33 * h + 49);
  }
}
