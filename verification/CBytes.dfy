/** Bytes and byte strings as the C code sees them. */
module CBytes {

  type byte = b: int | 0 <= b < 256

  datatype Option<+T> = None | Some(value: T)

  /** The bytes of a text in ASCII. */
  function Bytes(s: string): seq<byte>
    requires forall i :: 0 <= i < |s| ==> s[i] < 128 as char
  {
    seq(|s|, i requires 0 <= i < |s| => s[i] as int)
  }

  /** The characters of a C string: every byte but NUL may occur. */
  ghost predicate NulFree(s: seq<byte>) {
    forall i :: 0 <= i < |s| ==> s[i] != 0
  }

  /** The C string that starts at the beginning of a buffer. */
  function CString(buf: seq<byte>): (s: seq<byte>)
    ensures NulFree(s) && s <= buf
    ensures |s| < |buf| ==> buf[|s|] == 0
  {
    if buf == [] || buf[0] == 0 then [] else [buf[0]] + CString(buf[1..])
  }

  lemma {:induction false} CStringOf(s: seq<byte>, rest: seq<byte>)
    requires NulFree(s)
    ensures CString(s + [0] + rest) == s
  {
    if s == [] {
      assert s + [0] + rest == [0] + rest;
    } else {
      CStringOf(s[1..], rest);
      assert s + [0] + rest == [s[0]] + (s[1..] + [0] + rest);
    }
  }

  /** `snprintf(buf, n, "%s", s)`: what the buffer holds afterwards. */
  function Truncate(n: nat, s: seq<byte>): seq<byte>
    requires n > 0
  {
    if |s| < n then s else s[..n - 1]
  }

  predicate IsDigit(c: byte) { 48 <= c <= 57 }
  predicate IsUpper(c: byte) { 65 <= c <= 90 }
  predicate IsLower(c: byte) { 97 <= c <= 122 }
  // In the C locale a byte above 127 (a negative `char`) is in no class.
  predicate IsAlnum(c: byte) { IsDigit(c) || IsUpper(c) || IsLower(c) }
  predicate IsSpace(c: byte) { 9 <= c <= 13 || c == 32 }

  predicate IsHex(c: byte) { IsDigit(c) || 97 <= c <= 102 || 65 <= c <= 70 }

  function SkipSpaces(s: seq<byte>): seq<byte> {
    if s != [] && IsSpace(s[0]) then SkipSpaces(s[1..]) else s
  }

  lemma {:induction false} SkipsSpaces(spaces: seq<byte>, t: seq<byte>)
    requires forall i :: 0 <= i < |spaces| ==> 9 <= spaces[i] <= 13 || spaces[i] == 32
    requires t == [] || !IsSpace(t[0])
    ensures SkipSpaces(spaces + t) == t
  {
    if spaces == [] {
      assert spaces + t == t;
    } else {
      assert (spaces + t)[1..] == spaces[1..] + t;
      SkipsSpaces(spaces[1..], t);
    }
  }

  function ToLower(c: byte): byte {
    if IsUpper(c) then c + 32 else c
  }

  function ToUpper(c: byte): byte {
    if IsLower(c) then c - 32 else c
  }

  /** The value of a byte held in a `char`, which is signed on the build's platform. */
  function Signed(c: byte): int {
    if c < 128 then c else c - 256
  }

  function BitOr(a: nat, b: nat): nat {
    if a == 0 then b
    else if b == 0 then a
    else (if a % 2 == 1 || b % 2 == 1 then 1 else 0) + 2 * BitOr(a / 2, b / 2)
  }

  function BitXor(a: nat, b: nat): nat {
    if a == 0 then b
    else if b == 0 then a
    else (if a % 2 != b % 2 then 1 else 0) + 2 * BitXor(a / 2, b / 2)
  }

  function Pow2(k: nat): nat {
    if k == 0 then 1 else 2 * Pow2(k - 1)
  }

  lemma {:induction false} OrBound(a: nat, b: nat, k: nat)
    requires a < Pow2(k) && b < Pow2(k)
    ensures BitOr(a, b) < Pow2(k)
  {
    if k > 0 && a != 0 && b != 0 {
      OrBound(a / 2, b / 2, k - 1);
    }
  }

  lemma {:induction false} XorBound(a: nat, b: nat, k: nat)
    requires a < Pow2(k) && b < Pow2(k)
    ensures BitXor(a, b) < Pow2(k)
  {
    if k > 0 && a != 0 && b != 0 {
      XorBound(a / 2, b / 2, k - 1);
    }
  }
}
