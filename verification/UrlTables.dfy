/** The URL codec character by character, in literal terms. */
module UrlTables {
  import opened CBytes
  import opened Bits
  import opened Sequences
  import opened UrlCodec

  const LOWER := "0123456789abcdef"
  const UPPER := "0123456789ABCDEF"

  /** Digits, letters, '-', '.', '_' and '~'. */
  predicate Plain(c: byte) {
    48 <= c <= 57 || 65 <= c <= 90 || 97 <= c <= 122 || c in {45, 46, 95, 126}
  }

  // ---------------------------------------------------------------- encoding

  lemma EncodeOne(c: byte)
    ensures Encode([c]) == [c] <==> Plain(c)
    ensures c == 32 ==> Encode([c]) == [43]
    ensures !Plain(c) && c != 32 ==> Encode([c]) == [37, LOWER[c / 16] as int, LOWER[c % 16] as int]
  {
    FlatMapOne(EncodeByte, c);
    if !Plain(c) && c != 32 {
      EscapeDigits(c);
    }
  }

  lemma EscapeDigits(c: byte)
    ensures ToHex(Signed(c) / 16) == LOWER[c / 16] as int
    ensures ToHex(Signed(c) % 16) == LOWER[c % 16] as int
  {
    assert (Signed(c) / 16) % 16 == c / 16;
    assert Signed(c) % 16 == c % 16;
    ToHexIs(c / 16);
    ToHexIs(c % 16);
  }

  lemma ToHexIs(v: nat)
    requires v < 16
    ensures ToHex(v) == LOWER[v] as int
  {
  }

  /** Each character is encoded by itself. */
  lemma EncodeEach(a: seq<byte>, b: seq<byte>)
    ensures Encode(a + b) == Encode(a) + Encode(b)
  {
    FlatMapAppend(EncodeByte, a, b);
  }

  /** An encoding holds plain characters, '+' and '%' only, and is longer than the string
      by two for each character that is neither plain nor a space. */
  lemma EncodedText(s: seq<byte>)
    ensures forall i :: 0 <= i < |Encode(s)| ==> Plain(Encode(s)[i]) || Encode(s)[i] == 43 || Encode(s)[i] == 37
    ensures |Encode(s)| == |s| + 2 * NotPlain(s) <= 3 * |s|
  {
    EncodedCharacters(s);
    EscapedIs(s);
  }

  function NotPlain(s: seq<byte>): nat {
    if s == [] then 0 else (if Plain(s[0]) || s[0] == 32 then 0 else 1) + NotPlain(s[1..])
  }

  lemma {:induction false} EscapedIs(s: seq<byte>)
    ensures Escaped(s) == NotPlain(s)
  {
    if s != [] {
      EscapedIs(s[1..]);
    }
  }

  // ---------------------------------------------------------------- decoding

  /** What `from_hex` makes of any character: the digit's value, or else the distance
      from 'W', in one byte. */
  lemma FromHexIs(c: byte)
    ensures FromHex(c) == if 48 <= c <= 57 then c - 48 else if 65 <= c <= 90 then c - 55 else (c + 169) % 256
  {
  }

  predicate DigitOf(c: byte, v: nat)
    requires v < 16
  {
    c == LOWER[v] as int || c == UPPER[v] as int
  }

  lemma FromHexOfDigit(c: byte, v: nat)
    requires v < 16 && DigitOf(c, v)
    ensures FromHex(c) == v && IsHex(c)
  {
    DigitCode(c, v);
    FromHexIs(c);
  }

  lemma DigitCode(c: byte, v: nat)
    requires v < 16 && DigitOf(c, v)
    ensures if v < 10 then c == 48 + v else c == 87 + v || c == 55 + v
  {
  }

  /** An escape with digits of either case. */
  lemma DecodeEscape(hi: byte, v: nat, lo: byte, w: nat, t: seq<byte>)
    requires v < 16 && w < 16 && DigitOf(hi, v) && DigitOf(lo, w)
    ensures Decode([37, hi, lo] + t) == [16 * v + w] + Decode(t)
  {
    FromHexOfDigit(hi, v);
    FromHexOfDigit(lo, w);
    UnescapeHex(hi, lo);
    assert ([37, hi, lo] + t)[3..] == t;
  }

  /** An escape with any two characters: the low four digits of the first one's value
      are moved up and put together with all of the second one's by "or". */
  lemma DecodeAnyEscape(hi: byte, lo: byte, t: seq<byte>, k: nat) returns (c: byte)
    requires k < 8
    ensures Decode([37, hi, lo] + t) == [c] + Decode(t)
    ensures Bit(c, k) == if Bit(FromHex(lo), k) == 1 || (k >= 4 && Bit(FromHex(hi), k - 4) == 1) then 1 else 0
  {
    c := Unescape(hi, lo);
    assert ([37, hi, lo] + t)[3..] == t;
    var high := FromHex(hi) * 16 % 256;
    HighHalf(FromHex(hi), k);
    OrBit(high, FromHex(lo), k);
  }

  lemma HighHalf(v: nat, k: nat)
    requires k < 8
    ensures Bit(v * 16 % 256, k) == if k < 4 then 0 else Bit(v, k - 4)
  {
    assert Pow2(4) == 16 && Pow2(8) == 256;
    DoubledIs(v, 4);
    ShiftsAre(Doubled(v, 4), 8, 256);
    LowestBit(Doubled(v, 4), 8, k);
    DoubledBit(v, 4, k);
  }

  /** A '%' with fewer than two characters after it disappears; '+' is a space; any
      other character stands for itself. */
  lemma DecodeOne(c: byte, t: seq<byte>)
    ensures Decode([37]) == [] && Decode([37, c]) == Decode([c])
    ensures Decode([43] + t) == [32] + Decode(t)
    ensures c != 37 && c != 43 ==> Decode([c] + t) == [c] + Decode(t)
  {
    assert [37][1..] == [] && [37, c][1..] == [c];
    assert ([43] + t)[1..] == t && ([c] + t)[1..] == t;
  }

  lemma DecodeNoEscape(c: byte, t: seq<byte>)
    requires c != 37
    ensures Decode([c] + t) == [if c == 43 then 32 else c] + Decode(t)
  {
    DecodeOne(c, t);
  }

  lemma Split(p: seq<byte>, t: seq<byte>)
    requires p != []
    ensures p == [p[0]] + p[1..] && p + t == [p[0]] + (p[1..] + t)
  {
  }

  lemma Regroup(c: byte, a: seq<byte>, b: seq<byte>)
    ensures [c] + (a + b) == ([c] + a) + b
  {
  }

  /** The same after any text without '%'. */
  lemma {:induction false} DecodeAfter(p: seq<byte>, t: seq<byte>)
    requires forall i :: 0 <= i < |p| ==> p[i] != 37
    ensures Decode(p + t) == Decode(p) + Decode(t)
  {
    if p == [] {
      assert p + t == t;
    } else {
      DecodeAfter(p[1..], t);
      Split(p, t);
      DecodeNoEscape(p[0], p[1..] + t);
      DecodeNoEscape(p[0], p[1..]);
      Regroup(if p[0] == 43 then 32 else p[0], Decode(p[1..]), Decode(t));
    }
  }
}
