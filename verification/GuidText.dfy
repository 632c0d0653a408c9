/** The redundancy group's GUID: read from the configuration file in the text form
    of section 3 of RFC 4122, printed with braces and upper-case digits. */
module GuidText {
  import opened CBytes

  datatype Guid = Guid(data1: nat, data2: nat, data3: nat, data4: seq<byte>)

  /** The widths of `UA_Guid`. */
  ghost predicate InRange(g: Guid) {
    g.data1 < 0x1_0000_0000 && g.data2 < 0x1_0000 && g.data3 < 0x1_0000 && |g.data4| == 8
  }

  const DASH: byte := 45
  const OPEN: byte := 123
  const CLOSE: byte := 125
  const ULONG_MAX := 0xffff_ffff_ffff_ffff

  // ------------------------------------------------------------ hexadecimals

  function HexDigit(c: byte): (d: int)
    ensures IsHex(c) ==> 0 <= d < 16
  {
    if IsDigit(c) then c - 48 else if IsLower(c) then c - 87 else c - 55
  }

  function LeadingHex(s: seq<byte>): seq<byte> {
    if s != [] && IsHex(s[0]) then [s[0]] + LeadingHex(s[1..]) else []
  }

  function HexValue(s: seq<byte>): int {
    if s == [] then 0 else 16 * HexValue(s[..|s| - 1]) + HexDigit(s[|s| - 1])
  }

  /** The number after a sign, "0x" or not. */
  function Magnitude(u: seq<byte>): int {
    var v := if |u| > 2 && u[0] == 48 && ToLower(u[1]) == 120 && IsHex(u[2]) then u[2..] else u;
    HexValue(LeadingHex(v))
  }

  /** `strtoul(s, NULL, 16)`; a value too large gives ULONG_MAX, and a minus sign
      negates modulo 2^64. */
  function Strtoul(s: seq<byte>): int {
    var t := SkipSpaces(s);
    var n := Magnitude(if t != [] && (t[0] == 43 || t[0] == 45) then t[1..] else t);
    if n > ULONG_MAX then ULONG_MAX
    else if t != [] && t[0] == 45 then (-n) % (ULONG_MAX + 1)
    else n
  }

  /** `%0<width>X`. */
  function Hex(n: nat, width: nat): seq<byte> {
    if n == 0 && width == 0 then []
    else Hex(n / 16, if width == 0 then 0 else width - 1)
         + [if n % 16 < 10 then 48 + n % 16 else 55 + n % 16]
  }

  function Pow16(k: nat): nat {
    if k == 0 then 1 else 16 * Pow16(k - 1)
  }

  ghost predicate AllHex(s: seq<byte>) {
    forall i :: 0 <= i < |s| ==> IsHex(s[i])
  }

  function Upper(s: seq<byte>): seq<byte> {
    seq(|s|, i requires 0 <= i < |s| => ToUpper(s[i]))
  }

  lemma {:induction false} LeadingHexOfHex(s: seq<byte>)
    requires AllHex(s)
    ensures LeadingHex(s) == s
  {
    if s != [] {
      LeadingHexOfHex(s[1..]);
      assert s == [s[0]] + s[1..];
    }
  }

  lemma {:induction false} HexValueRange(s: seq<byte>)
    requires AllHex(s)
    ensures 0 <= HexValue(s) < Pow16(|s|)
  {
    if s != [] {
      HexValueRange(s[..|s| - 1]);
    }
  }

  /** Text to number to text: only the case of the letters can change. */
  lemma {:induction false} HexOfValue(s: seq<byte>)
    requires AllHex(s)
    ensures HexValue(s) >= 0 && Hex(HexValue(s), |s|) == Upper(s)
  {
    if s != [] {
      var front, c := s[..|s| - 1], s[|s| - 1];
      HexOfValue(front);
      var n := HexValue(s);
      assert n / 16 == HexValue(front) && n % 16 == HexDigit(c);
      assert Upper(s) == Upper(front) + [ToUpper(c)];
    }
  }

  /** Number to text to number. */
  lemma {:induction false} ValueOfHex(n: nat, width: nat)
    requires n < Pow16(width)
    ensures |Hex(n, width)| == width && AllHex(Hex(n, width))
    ensures HexValue(Hex(n, width)) == n && Upper(Hex(n, width)) == Hex(n, width)
  {
    if width > 0 {
      ValueOfHex(n / 16, width - 1);
      var h := Hex(n, width);
      assert h[..|h| - 1] == Hex(n / 16, width - 1);
      assert forall i :: 0 <= i < |h| - 1 ==> h[i] == h[..|h| - 1][i];
      forall i | 0 <= i < |h| ensures IsHex(h[i]) && ToUpper(h[i]) == h[i] {
        if i < |h| - 1 {
          assert h[i] == Upper(h[..|h| - 1])[i];
        }
      }
    }
  }

  /** On a slice of hexadecimal digits `strtoul` is plain. */
  lemma StrtoulOfHex(s: seq<byte>)
    requires AllHex(s) && |s| <= 8
    ensures Strtoul(s) == HexValue(s)
  {
    assert s != [] ==> !IsSpace(s[0]) && s[0] != 43 && s[0] != 45;
    assert SkipSpaces(s) == s;
    if |s| > 2 {
      assert IsHex(s[1]) && ToLower(s[1]) != 120;
    }
    LeadingHexOfHex(s);
    HexValueRange(s);
    Pow16Values();
    Pow16Monotone(|s|, 8);
  }

  lemma Pow16Values()
    ensures Pow16(2) == 0x100 && Pow16(4) == 0x1_0000 && Pow16(8) == 0x1_0000_0000
  {
    assert Pow16(5) == 16 * Pow16(4);
    assert Pow16(6) == 16 * Pow16(5);
    assert Pow16(7) == 16 * Pow16(6);
  }

  lemma {:induction false} Pow16Monotone(a: nat, b: nat)
    requires a <= b
    ensures Pow16(a) <= Pow16(b)
  {
    if a < b {
      Pow16Monotone(a, b - 1);
    }
  }

  // ------------------------------------------------------- reading a GUID

  /** The bytes spelled by consecutive pairs of characters. */
  function Pairs(u: seq<byte>): seq<byte> {
    if |u| < 2 then [] else [Strtoul(u[..2]) % 256] + Pairs(u[2..])
  }

  /** What the configuration reader makes of a value of at least 36 characters. */
  function Parse(t: seq<byte>): (g: Guid)
    requires |t| >= 36
    ensures InRange(g)
  {
    PairsLength(t[19..23]);
    PairsLength(t[24..36]);
    Guid(Strtoul(t[..8]) % 0x1_0000_0000,
         Strtoul(t[9..13]) % 0x1_0000,
         Strtoul(t[14..18]) % 0x1_0000,
         Pairs(t[19..23]) + Pairs(t[24..36]))
  }

  lemma {:induction false} PairsLength(u: seq<byte>)
    ensures |Pairs(u)| == |u| / 2
  {
    if |u| >= 2 {
      PairsLength(u[2..]);
    }
  }

  /** `zkUA_readConfFile` on a "GroupGUID" line: the slicing loop and the
      conversions, on the (zero-filled) buffer that holds the value. */
  method ReadGuid(argValue: array<byte>) returns (g: Guid)
    requires argValue.Length >= 36
    ensures g == Parse(argValue[..])
  {
    ghost var t := argValue[..];
    var data1 := argValue[..8];
    var data2 := argValue[9..13];
    var data3 := argValue[14..18];
    var data4: seq<seq<byte>> := [];
    var offset := 19;
    for n := 0 to 8
      invariant |data4| == n
      invariant offset == if n <= 2 then 19 + 2 * n else 20 + 2 * n
      invariant forall k :: 0 <= k < n ==> data4[k] == t[PairAt(k)..PairAt(k) + 2]
    {
      if offset == 23 {
        offset := offset + 1;
      }
      data4 := data4 + [argValue[offset..offset + 2]];
      offset := offset + 2;
    }
    var bytes: seq<byte> := seq(8, k requires 0 <= k < 8 => Strtoul(data4[k]) % 256);
    PairsAre(t, bytes);
    g := Guid(Strtoul(data1) % 0x1_0000_0000, Strtoul(data2) % 0x1_0000, Strtoul(data3) % 0x1_0000, bytes);
  }

  function PairAt(k: nat): nat {
    if k < 2 then 19 + 2 * k else 20 + 2 * k
  }

  lemma {:induction false} PairsIndex(u: seq<byte>, k: nat)
    requires 2 * k + 2 <= |u|
    ensures |Pairs(u)| == |u| / 2 && Pairs(u)[k] == Strtoul(u[2 * k..2 * k + 2]) % 256
  {
    PairsLength(u);
    if k > 0 {
      PairsIndex(u[2..], k - 1);
      assert u[2..][2 * (k - 1)..2 * (k - 1) + 2] == u[2 * k..2 * k + 2];
    }
  }

  lemma SliceOfSlice(t: seq<byte>, a: nat, b: nat, i: nat, j: nat)
    requires a <= b <= |t| && i <= j <= b - a
    ensures t[a..b][i..j] == t[a + i..a + j]
  {
    var x, y := t[a..b][i..j], t[a + i..a + j];
    forall k | 0 <= k < j - i ensures x[k] == y[k] {
      assert x[k] == t[a..b][i + k] == t[a + i + k];
    }
  }

  lemma PairAtSlice(t: seq<byte>, a: nat, b: nat, k: nat)
    requires a <= b <= |t| && 2 * k + 2 <= b - a
    ensures k < |Pairs(t[a..b])| && Pairs(t[a..b])[k] == Strtoul(t[a + 2 * k..a + 2 * k + 2]) % 256
  {
    PairsIndex(t[a..b], k);
    SliceOfSlice(t, a, b, 2 * k, 2 * k + 2);
  }

  /** Bytes converted from the pairs of a slice are the slice's pairs. */
  lemma HalfIs(t: seq<byte>, a: nat, b: nat, half: seq<byte>)
    requires a <= b <= |t| && b - a == 2 * |half|
    requires forall k :: 0 <= k < |half| ==> half[k] == Strtoul(t[a + 2 * k..a + 2 * k + 2]) % 256
    ensures half == Pairs(t[a..b])
  {
    PairsLength(t[a..b]);
    forall k | 0 <= k < |half| ensures half[k] == Pairs(t[a..b])[k] {
      PairAtSlice(t, a, b, k);
    }
  }

  lemma PairsAre(t: seq<byte>, bytes: seq<byte>)
    requires |t| >= 36 && |bytes| == 8
    requires forall k :: 0 <= k < 8 ==> bytes[k] == Strtoul(t[PairAt(k)..PairAt(k) + 2]) % 256
    ensures bytes == Pairs(t[19..23]) + Pairs(t[24..36])
  {
    FirstHalf(t, bytes);
    SecondHalf(t, bytes);
    assert bytes == bytes[..2] + bytes[2..];
  }

  lemma FirstHalf(t: seq<byte>, bytes: seq<byte>)
    requires |t| >= 36 && |bytes| == 8
    requires forall k :: 0 <= k < 2 ==> bytes[k] == Strtoul(t[PairAt(k)..PairAt(k) + 2]) % 256
    ensures bytes[..2] == Pairs(t[19..23])
  {
    assert forall k :: 0 <= k < 2 ==> PairAt(k) == 19 + 2 * k;
    HalfIs(t, 19, 23, bytes[..2]);
  }

  lemma SecondHalf(t: seq<byte>, bytes: seq<byte>)
    requires |t| >= 36 && |bytes| == 8
    requires forall k :: 2 <= k < 8 ==> bytes[k] == Strtoul(t[PairAt(k)..PairAt(k) + 2]) % 256
    ensures bytes[2..] == Pairs(t[24..36])
  {
    forall k | 0 <= k < 6 ensures bytes[2..][k] == Strtoul(t[24 + 2 * k..24 + 2 * k + 2]) % 256 {
      assert PairAt(k + 2) == 24 + 2 * k && bytes[2..][k] == bytes[k + 2];
    }
    HalfIs(t, 24, 36, bytes[2..]);
  }

  // ------------------------------------------------------- printing a GUID

  function HexPairs(d: seq<byte>): seq<byte> {
    if d == [] then [] else Hex(d[0], 2) + HexPairs(d[1..])
  }

  function Join(a: seq<byte>, b: seq<byte>, c: seq<byte>, d: seq<byte>, e: seq<byte>): seq<byte> {
    a + [DASH] + b + [DASH] + c + [DASH] + d + [DASH] + e
  }

  /** UA_PRINTF_GUID_FORMAT, without the braces. */
  function Body(g: Guid): seq<byte>
    requires |g.data4| == 8
  {
    Join(Hex(g.data1, 8), Hex(g.data2, 4), Hex(g.data3, 4), HexPairs(g.data4[..2]), HexPairs(g.data4[2..]))
  }

  function Print(g: Guid): seq<byte>
    requires |g.data4| == 8
  {
    [OPEN] + Body(g) + [CLOSE]
  }

  /** Eight, four, four, four and twelve hexadecimal digits between dashes. */
  ghost predicate WellShaped(t: seq<byte>) {
    && |t| == 36
    && t[8] == DASH && t[13] == DASH && t[18] == DASH && t[23] == DASH
    && AllHex(t[..8]) && AllHex(t[9..13]) && AllHex(t[14..18]) && AllHex(t[19..23]) && AllHex(t[24..])
  }

  lemma {:induction false} HexPairsOfPairs(u: seq<byte>)
    requires AllHex(u) && |u| % 2 == 0
    ensures HexPairs(Pairs(u)) == Upper(u)
  {
    if u != [] {
      HexPairsOfPairs(u[2..]);
      FirstPair(u);
      assert Upper(u) == Upper(u[..2]) + Upper(u[2..]);
    }
  }

  lemma FirstPair(u: seq<byte>)
    requires |u| >= 2 && AllHex(u[..2])
    ensures Pairs(u) != [] && Pairs(u)[1..] == Pairs(u[2..]) && Hex(Pairs(u)[0], 2) == Upper(u[..2])
  {
    Pow16Values();
    Field(u[..2], 256);
  }

  lemma {:induction false} PairsOfHexPairs(d: seq<byte>)
    ensures |HexPairs(d)| == 2 * |d| && AllHex(HexPairs(d)) && Pairs(HexPairs(d)) == d
  {
    if d != [] {
      Pow16Values();
      ValueOfHex(d[0], 2);
      PairsOfHexPairs(d[1..]);
      var h := HexPairs(d);
      assert h[..2] == Hex(d[0], 2) && h[2..] == HexPairs(d[1..]);
      StrtoulOfHex(h[..2]);
      forall i | 0 <= i < |h| ensures IsHex(h[i]) {
        assert h[i] == if i < 2 then h[..2][i] else h[2..][i - 2];
      }
    }
  }

  lemma FieldValue(s: seq<byte>, m: nat)
    requires AllHex(s) && |s| <= 8 && m == Pow16(|s|)
    ensures 0 <= HexValue(s) < m && Strtoul(s) % m == HexValue(s)
  {
    StrtoulOfHex(s);
    HexValueRange(s);
    SmallModulo(HexValue(s), m);
  }

  lemma SmallModulo(x: int, m: nat)
    requires 0 <= x < m
    ensures x % m == x
  {
  }

  lemma Field(s: seq<byte>, m: nat)
    requires AllHex(s) && |s| <= 8 && m == Pow16(|s|) > 0
    ensures Hex(Strtoul(s) % m, |s|) == Upper(s)
  {
    FieldValue(s, m);
    HexOfValue(s);
  }

  lemma JoinSlices(a: seq<byte>, b: seq<byte>, c: seq<byte>, d: seq<byte>, e: seq<byte>)
    requires |a| == 8 && |b| == |c| == |d| == 4 && |e| == 12
    ensures var u := Join(a, b, c, d, e);
            && |u| == 36 && u[8] == u[13] == u[18] == u[23] == DASH
            && u[..8] == a && u[9..13] == b && u[14..18] == c && u[19..23] == d && u[24..36] == e == u[24..]
  {
  }

  lemma SlicesJoin(u: seq<byte>)
    requires |u| == 36 && u[8] == u[13] == u[18] == u[23] == DASH
    ensures u == Join(u[..8], u[9..13], u[14..18], u[19..23], u[24..36])
  {
  }

  /** Reading a well-shaped GUID and printing it gives the same text in capitals,
      in braces. */
  lemma PrintParse(t: seq<byte>)
    requires WellShaped(t)
    ensures Print(Parse(t)) == [OPEN] + Upper(t) + [CLOSE]
  {
    BodyParse(t);
    UpperSlices(t);
    SlicesJoin(Upper(t));
  }

  lemma BodyParse(t: seq<byte>)
    requires WellShaped(t)
    ensures Body(Parse(t)) == Join(Upper(t[..8]), Upper(t[9..13]), Upper(t[14..18]), Upper(t[19..23]), Upper(t[24..36]))
  {
    assert t[24..] == t[24..36] && |t[19..23]| == 4 && |t[24..36]| == 12;
    HexPairsOfPairs(t[19..23]);
    HexPairsOfPairs(t[24..36]);
    ParsedNumbers(t);
    ParsedData4(t);
  }

  lemma ParsedNumbers(t: seq<byte>)
    requires |t| >= 36 && AllHex(t[..8]) && AllHex(t[9..13]) && AllHex(t[14..18])
    ensures Hex(Parse(t).data1, 8) == Upper(t[..8])
    ensures Hex(Parse(t).data2, 4) == Upper(t[9..13]) && Hex(Parse(t).data3, 4) == Upper(t[14..18])
  {
    Pow16Values();
    Field(t[..8], 0x1_0000_0000);
    Field(t[9..13], 0x1_0000);
    Field(t[14..18], 0x1_0000);
  }

  lemma ParsedData4(t: seq<byte>)
    requires |t| >= 36
    ensures Parse(t).data4[..2] == Pairs(t[19..23]) && Parse(t).data4[2..] == Pairs(t[24..36])
  {
    PairsLength(t[19..23]);
  }

  lemma UpperSlices(t: seq<byte>)
    requires |t| == 36
    ensures var u := Upper(t);
            && u[..8] == Upper(t[..8]) && u[9..13] == Upper(t[9..13]) && u[14..18] == Upper(t[14..18])
            && u[19..23] == Upper(t[19..23]) && u[24..36] == Upper(t[24..36])
  {
  }

  lemma BodyShape(g: Guid)
    requires InRange(g)
    ensures WellShaped(Body(g))
  {
    Pow16Values();
    ValueOfHex(g.data1, 8);
    ValueOfHex(g.data2, 4);
    ValueOfHex(g.data3, 4);
    PairsOfHexPairs(g.data4[..2]);
    PairsOfHexPairs(g.data4[2..]);
    JoinSlices(Hex(g.data1, 8), Hex(g.data2, 4), Hex(g.data3, 4),
               HexPairs(g.data4[..2]), HexPairs(g.data4[2..]));
  }

  lemma NumberReads(n: nat, width: nat, m: nat)
    requires n < m == Pow16(width) && width <= 8
    ensures Strtoul(Hex(n, width)) % m == n && |Hex(n, width)| == width
  {
    ValueOfHex(n, width);
    FieldValue(Hex(n, width), m);
  }

  lemma ParseFields(b: seq<byte>, g: Guid)
    requires InRange(g) && |b| == 36
    requires b[..8] == Hex(g.data1, 8) && b[9..13] == Hex(g.data2, 4) && b[14..18] == Hex(g.data3, 4)
    requires b[19..23] == HexPairs(g.data4[..2]) && b[24..36] == HexPairs(g.data4[2..])
    ensures Parse(b) == g
  {
    Pow16Values();
    NumberReads(g.data1, 8, 0x1_0000_0000);
    NumberReads(g.data2, 4, 0x1_0000);
    NumberReads(g.data3, 4, 0x1_0000);
    PairsOfHexPairs(g.data4[..2]);
    PairsOfHexPairs(g.data4[2..]);
    assert g.data4 == g.data4[..2] + g.data4[2..];
  }

  lemma ParseBody(g: Guid)
    requires InRange(g)
    ensures |Body(g)| == 36 && Parse(Body(g)) == g
  {
    Pow16Values();
    ValueOfHex(g.data1, 8);
    ValueOfHex(g.data2, 4);
    ValueOfHex(g.data3, 4);
    PairsOfHexPairs(g.data4[..2]);
    PairsOfHexPairs(g.data4[2..]);
    JoinSlices(Hex(g.data1, 8), Hex(g.data2, 4), Hex(g.data3, 4),
               HexPairs(g.data4[..2]), HexPairs(g.data4[2..]));
    ParseFields(Body(g), g);
  }

  /** What is printed between the braces reads back as the same GUID. */
  lemma ParsePrint(g: Guid)
    requires InRange(g)
    ensures |Print(g)| == 38 && WellShaped(Print(g)[1..37]) && Parse(Print(g)[1..37]) == g
  {
    BodyShape(g);
    ParseBody(g);
    assert Print(g)[1..37] == Body(g);
  }

  /** Printing tells GUIDs apart, and prints neither '/' nor NUL. */
  lemma PrintInjective(a: Guid, b: Guid)
    requires InRange(a) && InRange(b)
    ensures Print(a) == Print(b) <==> a == b
  {
    ParsePrint(a);
    ParsePrint(b);
  }

  lemma PrintedCharacters(g: Guid)
    requires InRange(g)
    ensures |Print(g)| == 38
    ensures forall i :: 0 <= i < 38 ==> IsHex(Print(g)[i]) || Print(g)[i] in {DASH, OPEN, CLOSE}
  {
    BodyShape(g);
    var b := Body(g);
    forall i | 0 <= i < 36 ensures IsHex(b[i]) || b[i] == DASH {
      if i < 8 { assert b[i] == b[..8][i]; }
      else if 9 <= i < 13 { assert b[i] == b[9..13][i - 9]; }
      else if 14 <= i < 18 { assert b[i] == b[14..18][i - 14]; }
      else if 19 <= i < 23 { assert b[i] == b[19..23][i - 19]; }
      else if 24 <= i { assert b[i] == b[24..][i - 24]; }
    }
    assert forall i :: 0 < i < 37 ==> Print(g)[i] == b[i - 1];
  }
}
