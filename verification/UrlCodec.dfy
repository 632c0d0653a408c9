/** URL encoding of znode names.  The bytes copied unchanged are the unreserved set
    of section 2.3 of RFC 3986; '%' escapes follow its section 2.1, in lower case;
    a space becomes '+' as in section 17.13.4.1 of HTML 4.01. */
module UrlCodec {
  import opened CBytes
  import opened Sequences

  const PERCENT: byte := 37
  const PLUS: byte := 43
  const SPACE: byte := 32
  const SLASH: byte := 47

  // -------------------------------------------------------------- hex digits

  predicate IsLowerHex(c: byte) { IsDigit(c) || 97 <= c <= 102 }

  /** `from_hex`, a `char`: not an error on other characters. */
  function FromHex(c: byte): byte {
    if IsDigit(c) then c - 48 else (Signed(ToLower(c)) - 97 + 10) % 256
  }

  /** `to_hex` of a signed number: its low four bits. */
  function ToHex(code: int): byte {
    var n := code % 16;
    if n < 10 then 48 + n else 97 + n - 10
  }

  /** `from_hex(hi) << 4 | from_hex(lo)`, stored into a `char`. */
  function Unescape(hi: byte, lo: byte): byte {
    var high := FromHex(hi) * 16 % 256;
    OrBound(high, FromHex(lo), 8);
    BitOr(high, FromHex(lo))
  }

  lemma OrOfEven(x: nat, b: nat)
    ensures BitOr(2 * x, b) == b % 2 + 2 * BitOr(x, b / 2)
  {
  }

  function Shifted(a: nat, k: nat): nat {
    if k == 0 then a else 2 * Shifted(a, k - 1)
  }

  /** On disjoint bits, "or" adds. */
  lemma {:induction false} OrAdds(a: nat, b: nat, k: nat)
    requires b < Pow2(k)
    ensures BitOr(Shifted(a, k), b) == Shifted(a, k) + b
  {
    if k > 0 {
      OrAdds(a, b / 2, k - 1);
      OrOfEven(Shifted(a, k - 1), b);
    }
  }

  lemma OrOfDigits(a: nat, b: nat)
    requires b < 16
    ensures BitOr(a * 16, b) == 16 * a + b
  {
    assert Shifted(a, 1) == 2 * a;
    assert Shifted(a, 3) == 2 * Shifted(a, 2) == 4 * Shifted(a, 1);
    assert Pow2(4) == 16 && Shifted(a, 4) == 16 * a;
    OrAdds(a, b, 4);
  }

  lemma UnescapeHex(hi: byte, lo: byte)
    requires IsHex(hi) && IsHex(lo)
    ensures Unescape(hi, lo) == 16 * FromHex(hi) + FromHex(lo)
  {
    var a, b := FromHex(hi), FromHex(lo);
    assert a < 16 && b < 16;
    assert a * 16 % 256 == a * 16;
    OrOfDigits(a, b);
  }

  // ------------------------------------------------------------ specification

  predicate Unreserved(c: byte) {
    IsAlnum(c) || c == 45 || c == 95 || c == 46 || c == 126
  }

  /** The text one character becomes. */
  function EncodeByte(c: byte): seq<byte> {
    if Unreserved(c) then [c]
    else if c == SPACE then [PLUS]
    else [PERCENT, ToHex(Signed(c) / 16), ToHex(Signed(c) % 16)]
  }

  function Encode(s: seq<byte>): seq<byte> {
    FlatMap(EncodeByte, s)
  }

  /** How many characters need a '%' escape. */
  function Escaped(s: seq<byte>): nat {
    if s == [] then 0
    else (if Unreserved(s[0]) || s[0] == SPACE then 0 else 1) + Escaped(s[1..])
  }

  /** The bytes decoding writes before its final NUL.  A '%' with fewer than two
      characters after it is dropped. */
  function Decode(t: seq<byte>): seq<byte> {
    if t == [] then []
    else if t[0] == PERCENT then
      if |t| >= 3 then [Unescape(t[1], t[2])] + Decode(t[3..]) else Decode(t[1..])
    else if t[0] == PLUS then [SPACE] + Decode(t[1..])
    else [t[0]] + Decode(t[1..])
  }

  /** Built from unreserved characters, '+', and lower-case escapes of other
      non-NUL bytes: the texts that can be the result of encoding. */
  predicate Canonical(t: seq<byte>) {
    t == [] ||
    (if t[0] == PERCENT then
       && |t| >= 3 && IsLowerHex(t[1]) && IsLowerHex(t[2])
       && (var c := 16 * FromHex(t[1]) + FromHex(t[2]);
           c != 0 && !Unreserved(c) && c != SPACE)
       && Canonical(t[3..])
     else
       (Unreserved(t[0]) || t[0] == PLUS) && Canonical(t[1..]))
  }

  // -------------------------------------------------------------- round trips

  lemma EscapeInverse(c: byte)
    ensures IsLowerHex(ToHex(Signed(c) / 16)) && IsLowerHex(ToHex(Signed(c) % 16))
    ensures FromHex(ToHex(Signed(c) / 16)) == c / 16
    ensures FromHex(ToHex(Signed(c) % 16)) == c % 16
  {
    assert (Signed(c) / 16) % 16 == c / 16;
    assert Signed(c) % 16 == c % 16;
  }

  lemma DigitInverse(c: byte)
    requires IsLowerHex(c)
    ensures FromHex(c) < 16 && ToHex(FromHex(c)) == c
  {
  }

  lemma SignedDigits(a: nat, b: nat)
    requires a < 16 && b < 16
    ensures (Signed(16 * a + b) / 16) % 16 == a && Signed(16 * a + b) % 16 == b
  {
  }

  lemma UnescapeInverse(hi: byte, lo: byte)
    requires IsLowerHex(hi) && IsLowerHex(lo)
    ensures 0 <= 16 * FromHex(hi) + FromHex(lo) < 256
    ensures var c: byte := 16 * FromHex(hi) + FromHex(lo);
            ToHex(Signed(c) / 16) == hi && ToHex(Signed(c) % 16) == lo
  {
    DigitInverse(hi);
    DigitInverse(lo);
    SignedDigits(FromHex(hi), FromHex(lo));
  }

  lemma DecodeEncodedByte(c: byte, t: seq<byte>)
    ensures Decode(EncodeByte(c) + t) == [c] + Decode(t)
    ensures c != 0 ==> Canonical(EncodeByte(c) + t) == Canonical(t)
  {
    var e := EncodeByte(c);
    EscapeInverse(c);
    UnescapeHex(ToHex(Signed(c) / 16), ToHex(Signed(c) % 16));
    assert (e + t)[|e|..] == t;
  }

  /** Decoding undoes encoding, for every string of any bytes. */
  lemma {:induction false} DecodeEncode(s: seq<byte>)
    ensures Decode(Encode(s)) == s
  {
    if s != [] {
      DecodeEncode(s[1..]);
      DecodeEncodedByte(s[0], Encode(s[1..]));
    }
  }

  lemma {:induction false} EncodeIsCanonical(s: seq<byte>)
    requires NulFree(s)
    ensures Canonical(Encode(s))
  {
    if s != [] {
      EncodeIsCanonical(s[1..]);
      DecodeEncodedByte(s[0], Encode(s[1..]));
    }
  }

  lemma EscapeOfUnescape(hi: byte, lo: byte)
    requires IsLowerHex(hi) && IsLowerHex(lo)
    ensures var c := 16 * FromHex(hi) + FromHex(lo);
            Unescape(hi, lo) == c && (!Unreserved(c) && c != SPACE ==> EncodeByte(c) == [PERCENT, hi, lo])
  {
    UnescapeInverse(hi, lo);
    UnescapeHex(hi, lo);
  }

  lemma {:induction false} EncodeDecodeCanonical(t: seq<byte>)
    requires Canonical(t)
    ensures Encode(Decode(t)) == t && NulFree(Decode(t))
  {
    if t == [] {
    } else if t[0] == PERCENT {
      EncodeDecodeCanonical(t[3..]);
      assert t == [PERCENT, t[1], t[2]] + t[3..];
      EncodeEscape(t[1], t[2], Decode(t[3..]));
    } else {
      EncodeDecodeCanonical(t[1..]);
      assert t == [t[0]] + t[1..];
      EncodePlain(t[0], Decode(t[1..]));
    }
  }

  /** What a character other than '%' decodes to is encoded as that character. */
  lemma EncodePlain(c: byte, s: seq<byte>)
    requires Unreserved(c) || c == PLUS
    ensures Encode([if c == PLUS then SPACE else c] + s) == [c] + Encode(s)
  {
    FlatMapCons<byte, byte>(EncodeByte, if c == PLUS then SPACE else c, s);
  }

  lemma EncodeEscape(hi: byte, lo: byte, s: seq<byte>)
    requires IsLowerHex(hi) && IsLowerHex(lo)
    requires var c := 16 * FromHex(hi) + FromHex(lo); c != 0 && !Unreserved(c) && c != SPACE
    ensures Unescape(hi, lo) != 0
    ensures Encode([Unescape(hi, lo)] + s) == [PERCENT, hi, lo] + Encode(s)
  {
    EscapeOfUnescape(hi, lo);
    FlatMapCons(EncodeByte, Unescape(hi, lo), s);
  }

  lemma WholeCString(s: seq<byte>)
    requires NulFree(s)
    ensures CString(s) == s
  {
    var c := CString(s);
    assert s == c + s[|c|..];
  }

  /** Encoding undoes decoding on exactly the canonical texts.  The C string a
      decoder's caller sees ends at the first NUL it wrote. */
  lemma EncodeDecode(t: seq<byte>)
    ensures Encode(CString(Decode(t))) == t <==> Canonical(t)
  {
    if Canonical(t) {
      EncodeDecodeCanonical(t);
      WholeCString(Decode(t));
    } else {
      EncodeIsCanonical(CString(Decode(t)));
    }
  }

  /** Different strings have different encodings. */
  lemma EncodeInjective(a: seq<byte>, b: seq<byte>)
    ensures Encode(a) == Encode(b) <==> a == b
  {
    DecodeEncode(a);
    DecodeEncode(b);
  }

  lemma {:induction false} EncodedCharacters(s: seq<byte>)
    ensures forall i :: 0 <= i < |Encode(s)| ==>
              Unreserved(Encode(s)[i]) || Encode(s)[i] == PLUS || Encode(s)[i] == PERCENT
    ensures |Encode(s)| == |s| + 2 * Escaped(s) <= 3 * |s|
  {
    if s != [] {
      EncodedCharacters(s[1..]);
      EscapeInverse(s[0]);
      assert Encode(s) == EncodeByte(s[0]) + Encode(s[1..]);
      forall i | 0 <= i < |Encode(s)|
        ensures Unreserved(Encode(s)[i]) || Encode(s)[i] == PLUS || Encode(s)[i] == PERCENT
      {
        if i >= |EncodeByte(s[0])| {
          assert Encode(s)[i] == Encode(s[1..])[i - |EncodeByte(s[0])|];
        }
      }
    }
  }

  lemma {:induction false} DecodedLength(t: seq<byte>)
    ensures |Decode(t)| <= |t|
  {
    if t != [] {
      if t[0] == PERCENT && |t| >= 3 {
        DecodedLength(t[3..]);
      } else {
        DecodedLength(t[1..]);
      }
    }
  }

  // ------------------------------------------------------------------- loops

  /** The string in a NUL-terminated buffer. */
  ghost predicate Terminated(str: seq<byte>, s: seq<byte>) {
    NulFree(s) && |s| < |str| && str[|s|] == 0 && forall i :: 0 <= i < |s| ==> str[i] == s[i]
  }

  /** `*pbuf++ = c`. */
  method Put(buf: array<byte>, q: nat, c: byte) returns (next: nat)
    requires q < buf.Length
    modifies buf
    ensures next == q + 1 && buf[..next] == old(buf[..q]) + [c]
  {
    buf[q] := c;
    next := q + 1;
  }

  /** The body of the encoding loop. */
  method PutEncoded(buf: array<byte>, q: nat, c: byte) returns (next: nat)
    requires q + 3 <= buf.Length
    modifies buf
    ensures q <= next <= q + 3 && buf[..next] == old(buf[..q]) + EncodeByte(c)
  {
    next := q;
    if Unreserved(c) {
      next := Put(buf, next, c);
    } else if c == SPACE {
      next := Put(buf, next, PLUS);
    } else {
      next := Put(buf, next, PERCENT);
      next := Put(buf, next, ToHex(Signed(c) / 16));
      next := Put(buf, next, ToHex(Signed(c) % 16));
    }
  }

  /** `zkUA_url_encode`: all writes stay inside the buffer of 3 * strlen + 1 bytes. */
  method UrlEncode(str: array<byte>, ghost s: seq<byte>) returns (buf: array<byte>, end: nat)
    requires Terminated(str[..], s)
    ensures fresh(buf) && buf.Length == 3 * |s| + 1
    ensures end == |s| + 2 * Escaped(s) && end < buf.Length
    ensures buf[..end] == Encode(s) && buf[end] == 0
    ensures Terminated(buf[..], Encode(s))
  {
    var len := StrLen(str, s);
    buf := new byte[3 * len + 1];
    var p, q := 0, 0;
    while str[p] != 0
      invariant 0 <= p <= |s| && q <= 3 * p
      invariant buf[..q] == Encode(s[..p])
      decreases |s| - p
    {
      FlatMapSnoc(EncodeByte, s[..p], str[p]);
      assert s[..p + 1] == s[..p] + [str[p]];
      q := PutEncoded(buf, q, str[p]);
      p := p + 1;
    }
    assert s[..p] == s;
    buf[q] := 0;
    end := q;
    EncodedCharacters(s);
  }

  method StrLen(str: array<byte>, ghost s: seq<byte>) returns (len: nat)
    requires Terminated(str[..], s)
    ensures len == |s|
  {
    len := 0;
    while str[len] != 0
      invariant len <= |s|
      decreases |s| - len
    {
      len := len + 1;
    }
  }

  /** Decoding from `p` on, after `out`. */
  lemma DecodeAt(t: seq<byte>, p: nat, out: seq<byte>)
    requires p < |t|
    ensures t[p] == PERCENT && p + 2 < |t| ==>
              out + Decode(t[p..]) == (out + [Unescape(t[p + 1], t[p + 2])]) + Decode(t[p + 3..])
    ensures t[p] == PERCENT && p + 2 >= |t| ==> Decode(t[p..]) == Decode(t[p + 1..])
    ensures t[p] == PLUS ==> out + Decode(t[p..]) == (out + [SPACE]) + Decode(t[p + 1..])
    ensures t[p] != PERCENT && t[p] != PLUS ==> out + Decode(t[p..]) == (out + [t[p]]) + Decode(t[p + 1..])
  {
    assert t[p..][1..] == t[p + 1..];
    if p + 2 < |t| {
      assert t[p..][3..] == t[p + 3..];
    }
  }

  /** `zkUA_url_decode`: reads stop at the terminator and all writes stay inside the
      buffer of strlen + 1 bytes, malformed and truncated escapes included. */
  method UrlDecode(str: array<byte>, ghost t: seq<byte>) returns (buf: array<byte>, end: nat)
    requires Terminated(str[..], t)
    ensures fresh(buf) && buf.Length == |t| + 1 && end < buf.Length
    ensures buf[..end] == Decode(t) && buf[end] == 0
    ensures CString(buf[..]) == CString(Decode(t))
  {
    var len := StrLen(str, t);
    buf := new byte[len + 1];
    var p, q := 0, 0;
    while str[p] != 0
      invariant 0 <= p <= |t| && q <= p
      invariant Decode(t) == buf[..q] + Decode(t[p..])
      decreases |t| - p
    {
      DecodeAt(t, p, buf[..q]);
      var c := str[p];
      if c == PERCENT {
        if str[p + 1] != 0 && str[p + 2] != 0 {
          q := Put(buf, q, Unescape(str[p + 1], str[p + 2]));
          p := p + 2;
        }
      } else if c == PLUS {
        q := Put(buf, q, SPACE);
      } else {
        q := Put(buf, q, c);
      }
      p := p + 1;
    }
    buf[q] := 0;
    end := q;
    assert buf[..] == Decode(t) + [0] + buf[q + 1..];
    CStringPrefix(Decode(t), buf[q + 1..]);
  }

  lemma {:induction false} CStringPrefix(s: seq<byte>, rest: seq<byte>)
    ensures CString(s + [0] + rest) == CString(s)
  {
    if s == [] {
      assert s + [0] + rest == [0] + rest;
    } else {
      CStringPrefix(s[1..], rest);
      assert s + [0] + rest == [s[0]] + (s[1..] + [0] + rest);
    }
  }
}
