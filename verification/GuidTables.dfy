/** Reading and printing GUIDs in literal terms. */
module GuidTables {
  import opened CBytes
  import opened GuidText

  const LOWER := "0123456789abcdef"
  const UPPER := "0123456789ABCDEF"

  predicate DigitOf(c: byte, v: nat)
    requires v < 16
  {
    c == LOWER[v] as int || c == UPPER[v] as int
  }

  lemma DigitCode(c: byte, v: nat)
    requires v < 16 && DigitOf(c, v)
    ensures if v < 10 then c == 48 + v else c == 87 + v || c == 55 + v
  {
  }

  /** Numbers are read digit by digit, of either case ... */
  lemma HexValueIs(s: seq<byte>, c: byte, v: nat)
    requires v < 16 && DigitOf(c, v)
    ensures HexValue([]) == 0 && HexValue(s + [c]) == 16 * HexValue(s) + v
  {
    DigitCode(c, v);
    assert (s + [c])[..|s|] == s;
  }

  /** ... and printed so in capitals, padded with zeros. */
  lemma HexIs(n: nat, v: nat, width: nat)
    requires v < 16
    ensures Hex(0, 0) == [] && Hex(16 * n + v, width + 1) == Hex(n, width) + [UPPER[v] as int]
  {
    assert (16 * n + v) / 16 == n && (16 * n + v) % 16 == v;
    CapitalOf(v);
  }

  lemma CapitalOf(v: nat)
    requires v < 16
    ensures UPPER[v] as int == if v < 10 then 48 + v else 55 + v
  {
  }

  /** The fields of a well-shaped text: three numbers ... */
  lemma ParseIs(t: seq<byte>)
    requires WellShaped(t)
    ensures Parse(t).data1 == HexValue(t[..8])
    ensures Parse(t).data2 == HexValue(t[9..13]) && Parse(t).data3 == HexValue(t[14..18])
  {
    Pow16Values();
    FieldValue(t[..8], 0x1_0000_0000);
    FieldValue(t[9..13], 0x1_0000);
    FieldValue(t[14..18], 0x1_0000);
  }

  /** ... and eight bytes. */
  lemma ParsedBytes(t: seq<byte>, k: nat)
    requires WellShaped(t) && k < 8
    ensures Parse(t).data4[k] == HexValue(if k < 2 then t[19 + 2 * k..21 + 2 * k] else t[20 + 2 * k..22 + 2 * k])
  {
    assert t[24..] == t[24..36];
    if k < 2 {
      PairValue(t, 19, 23, k);
    } else {
      PairValue(t, 24, 36, k - 2);
    }
    ParsedByte(t, k);
  }

  lemma ParsedByte(t: seq<byte>, k: nat)
    requires |t| >= 36 && k < 8
    ensures k < 2 ==> k < |Pairs(t[19..23])| && Parse(t).data4[k] == Pairs(t[19..23])[k]
    ensures k >= 2 ==> k - 2 < |Pairs(t[24..36])| && Parse(t).data4[k] == Pairs(t[24..36])[k - 2]
  {
    PairsLength(t[19..23]);
    PairsLength(t[24..36]);
  }

  lemma PairValue(t: seq<byte>, a: nat, b: nat, k: nat)
    requires a <= b <= |t| && 2 * k + 2 <= b - a && AllHex(t[a..b])
    ensures k < |Pairs(t[a..b])| && Pairs(t[a..b])[k] == HexValue(t[a + 2 * k..a + 2 * k + 2])
  {
    PairAtSlice(t, a, b, k);
    var pair := t[a + 2 * k..a + 2 * k + 2];
    forall i | 0 <= i < 2 ensures IsHex(pair[i]) {
      assert pair[i] == t[a..b][2 * k + i];
    }
    Pow16Values();
    FieldValue(pair, 256);
  }

  /** The printed format. */
  lemma PrintIs(g: Guid)
    requires InRange(g)
    ensures var p := Print(g);
            && |p| == 38 && p[0] == '{' as int && p[37] == '}' as int
            && p[9] == p[14] == p[19] == p[24] == '-' as int
            && p[1..9] == Hex(g.data1, 8) && p[10..14] == Hex(g.data2, 4) && p[15..19] == Hex(g.data3, 4)
            && (forall k :: 0 <= k < 2 ==> p[20 + 2 * k..22 + 2 * k] == Hex(g.data4[k], 2))
            && (forall k :: 2 <= k < 8 ==> p[21 + 2 * k..23 + 2 * k] == Hex(g.data4[k], 2))
  {
    var p, b, d := Print(g), Body(g), g.data4;
    BodyFields(g);
    assert p[1..37] == b;
    Inside(p, b, 0, 8);
    Inside(p, b, 9, 13);
    Inside(p, b, 14, 18);
    forall k | 0 <= k < 2 ensures p[20 + 2 * k..22 + 2 * k] == Hex(d[k], 2) {
      PairOf(d[..2], k);
      assert d[..2][k] == d[k];
      SliceOfSlice(b, 19, 23, 2 * k, 2 * k + 2);
      Inside(p, b, 19 + 2 * k, 21 + 2 * k);
    }
    forall k | 2 <= k < 8 ensures p[21 + 2 * k..23 + 2 * k] == Hex(d[k], 2) {
      PairOf(d[2..], k - 2);
      assert d[2..][k - 2] == d[k];
      SliceOfSlice(b, 24, 36, 2 * (k - 2), 2 * (k - 2) + 2);
      Inside(p, b, 20 + 2 * k, 22 + 2 * k);
    }
  }

  lemma Inside(p: seq<byte>, b: seq<byte>, i: nat, j: nat)
    requires |p| == |b| + 2 && p[1..|b| + 1] == b && i <= j <= |b|
    ensures p[i + 1..j + 1] == b[i..j]
  {
    SliceOfSlice(p, 1, |b| + 1, i, j);
  }

  lemma BodyFields(g: Guid)
    requires InRange(g)
    ensures var b := Body(g);
            && |b| == 36 && b[8] == b[13] == b[18] == b[23] == DASH
            && b[..8] == Hex(g.data1, 8) && b[9..13] == Hex(g.data2, 4) && b[14..18] == Hex(g.data3, 4)
            && b[19..23] == HexPairs(g.data4[..2]) && b[24..36] == HexPairs(g.data4[2..])
  {
    Pow16Values();
    ValueOfHex(g.data1, 8);
    ValueOfHex(g.data2, 4);
    ValueOfHex(g.data3, 4);
    PairsOfHexPairs(g.data4[..2]);
    PairsOfHexPairs(g.data4[2..]);
    JoinSlices(Hex(g.data1, 8), Hex(g.data2, 4), Hex(g.data3, 4),
               HexPairs(g.data4[..2]), HexPairs(g.data4[2..]));
  }

  lemma {:induction false} PairOf(d: seq<byte>, k: nat)
    requires k < |d|
    ensures |HexPairs(d)| == 2 * |d| && HexPairs(d)[2 * k..2 * k + 2] == Hex(d[k], 2)
  {
    var first, rest := PairSizes(d);
    if k == 0 {
      FirstTwo(first, rest);
    } else {
      PairOf(d[1..], k - 1);
      AfterTwo(first, rest, 2 * (k - 1), 2 * (k - 1) + 2);
    }
  }

  lemma PairSizes(d: seq<byte>) returns (first: seq<byte>, rest: seq<byte>)
    requires d != []
    ensures first == Hex(d[0], 2) && rest == HexPairs(d[1..]) && HexPairs(d) == first + rest
    ensures |first| == 2 && |rest| == 2 * (|d| - 1)
  {
    first, rest := Hex(d[0], 2), HexPairs(d[1..]);
    PairsOfHexPairs(d[1..]);
    Pow16Values();
    ValueOfHex(d[0], 2);
  }

  lemma FirstTwo(a: seq<byte>, rest: seq<byte>)
    requires |a| == 2
    ensures (a + rest)[0..2] == a
  {
  }

  lemma AfterTwo(a: seq<byte>, rest: seq<byte>, i: nat, j: nat)
    requires |a| == 2 && i <= j <= |rest|
    ensures (a + rest)[i + 2..j + 2] == rest[i..j]
  {
  }

  // ----------------------------------------------------------------- strtoul

  lemma {:induction false} StopsAt(h: seq<byte>, rest: seq<byte>)
    requires AllHex(h) && (rest == [] || !IsHex(rest[0]))
    ensures LeadingHex(h + rest) == h
  {
    if h == [] {
      assert h + rest == rest;
    } else {
      assert (h + rest)[1..] == h[1..] + rest;
      StopsAt(h[1..], rest);
      assert h == [h[0]] + h[1..];
    }
  }

  datatype Sign = NoSign | Plus | Minus

  function Text(sign: Sign): seq<byte> {
    match sign case NoSign => [] case Plus => [43] case Minus => [45]
  }

  datatype Prefix = NoPrefix | SmallX | BigX

  function Lead(prefix: Prefix): seq<byte> {
    match prefix case NoPrefix => [] case SmallX => [48, 120] case BigX => [48, 88]
  }

  /** Hexadecimal digits, with "0x" before them or not, and what follows them. */
  ghost predicate Number(prefix: Prefix, h: seq<byte>, rest: seq<byte>) {
    && (h == [] ==> prefix == NoPrefix)
    && AllHex(h) && (rest == [] || !IsHex(rest[0]))
    && !(prefix == NoPrefix && h == [48] && |rest| >= 2 && (rest[0] == 120 || rest[0] == 88) && IsHex(rest[1]))
  }

  lemma MagnitudeIs(prefix: Prefix, h: seq<byte>, rest: seq<byte>)
    requires Number(prefix, h, rest)
    ensures Magnitude(Lead(prefix) + (h + rest)) == HexValue(h)
  {
    var digits := h + rest;
    StopsAt(h, rest);
    if prefix == NoPrefix {
      assert Lead(prefix) + digits == digits;
      assert |h| >= 2 ==> digits[1] == h[1] && IsHex(h[1]);
    } else {
      assert (Lead(prefix) + digits)[2..] == digits && digits[0] == h[0];
    }
  }

  /** Spaces, a sign, "0x", hexadecimal digits and anything else: what a field of a text
      of any shape is converted to. */
  lemma StrtoulIs(spaces: seq<byte>, sign: Sign, prefix: Prefix, h: seq<byte>, rest: seq<byte>)
    requires forall i :: 0 <= i < |spaces| ==> 9 <= spaces[i] <= 13 || spaces[i] == 32
    requires Number(prefix, h, rest)
    requires h == [] && sign == NoSign ==> rest == [] || (!IsSpace(rest[0]) && rest[0] != 43 && rest[0] != 45)
    ensures Strtoul(spaces + (Text(sign) + (Lead(prefix) + (h + rest))))
         == if HexValue(h) > 0xffff_ffff_ffff_ffff then 0xffff_ffff_ffff_ffff
            else if sign == Minus then (0x1_0000_0000_0000_0000 - HexValue(h)) % 0x1_0000_0000_0000_0000
            else HexValue(h)
  {
    var u := Lead(prefix) + (h + rest);
    FirstOf(prefix, h, rest);
    MagnitudeIs(prefix, h, rest);
    HexValueRange(h);
    SignedIs(spaces, sign, u, HexValue(h));
  }

  lemma SignedIs(spaces: seq<byte>, sign: Sign, u: seq<byte>, n: nat)
    requires forall i :: 0 <= i < |spaces| ==> 9 <= spaces[i] <= 13 || spaces[i] == 32
    requires sign == NoSign ==> u == [] || (!IsSpace(u[0]) && u[0] != 43 && u[0] != 45)
    requires Magnitude(u) == n
    ensures Strtoul(spaces + (Text(sign) + u))
         == if n > 0xffff_ffff_ffff_ffff then 0xffff_ffff_ffff_ffff
            else if sign == Minus then (0x1_0000_0000_0000_0000 - n) % 0x1_0000_0000_0000_0000
            else n
  {
    AfterSign(sign, u);
    SkipsSpaces(spaces, Text(sign) + u);
    StrtoulOf(spaces + (Text(sign) + u), Text(sign) + u, sign == Minus, n);
  }

  lemma StrtoulOf(s: seq<byte>, t: seq<byte>, minus: bool, n: nat)
    requires SkipSpaces(s) == t && (minus <==> t != [] && t[0] == 45)
    requires Magnitude(if t != [] && (t[0] == 43 || t[0] == 45) then t[1..] else t) == n
    ensures Strtoul(s)
         == if n > 0xffff_ffff_ffff_ffff then 0xffff_ffff_ffff_ffff
            else if minus then (0x1_0000_0000_0000_0000 - n) % 0x1_0000_0000_0000_0000
            else n
  {
    Negated(n);
  }

  lemma AfterSign(sign: Sign, u: seq<byte>)
    requires sign == NoSign ==> u == [] || (!IsSpace(u[0]) && u[0] != 43 && u[0] != 45)
    ensures var t := Text(sign) + u;
            && (t == [] || !IsSpace(t[0])) && (t != [] && t[0] == 45 <==> sign == Minus)
            && (if t != [] && (t[0] == 43 || t[0] == 45) then t[1..] else t) == u
  {
    if sign == NoSign {
      assert Text(sign) + u == u;
    } else {
      assert (Text(sign) + u)[1..] == u;
    }
  }

  lemma FirstOf(prefix: Prefix, h: seq<byte>, rest: seq<byte>)
    requires Number(prefix, h, rest)
    ensures var u := Lead(prefix) + (h + rest);
            if h == [] then u == rest else u != [] && IsHex(u[0])
  {
    assert h == [] ==> Lead(prefix) + (h + rest) == rest;
  }

  lemma Negated(n: int)
    ensures (-n) % 0x1_0000_0000_0000_0000 == (0x1_0000_0000_0000_0000 - n) % 0x1_0000_0000_0000_0000
  {
  }
}
