/** Task names and znode paths in literal terms, and the tree of the paths. */
module NameTables {
  import opened CBytes
  import opened GuidText
  import opened TaskNames
  import opened UrlCodec
  import opened ZnodePaths
  import QueueSetup

  const DIGITS := "0123456789"

  /** The texts of the source. */
  lemma Texts()
    ensures TASK == Bytes("task-") && [SLASH] == Bytes("/")
    ensures SERVERS == Bytes("/Servers/") && QUEUE == Bytes("/Queue") && ACTIVE == Bytes("/Active")
    ensures LLONG_MAX == 9223372036854775807 && LLONG_MIN == -9223372036854775808
  {
  }

  // ------------------------------------------------------------- task numbers

  lemma DigitCode(v: nat)
    requires v < 10
    ensures DIGITS[v] as int == 48 + v
  {
  }

  /** Sequence numbers are printed digit by digit, with zeros in front ... */
  lemma DecimalIs(n: nat, v: nat, width: nat)
    requires v < 10
    ensures Decimal(0, 0) == [] && Decimal(10 * n + v, width + 1) == Decimal(n, width) + [DIGITS[v] as int]
  {
    assert (10 * n + v) / 10 == n && (10 * n + v) % 10 == v;
    DigitCode(v);
  }

  /** ... to ten digits, or more if there are more. */
  lemma {:induction false} DecimalWidth(n: nat, width: nat)
    ensures |Decimal(n, width)| >= width
    ensures |Decimal(n, width)| == width <==> n < Pow10(width)
    decreases n, width
  {
    if n != 0 || width != 0 {
      DecimalWidth(n / 10, if width == 0 then 0 else width - 1);
    }
  }

  function Pow10(k: nat): nat {
    if k == 0 then 1 else 10 * Pow10(k - 1)
  }

  lemma ValueIs(s: Name, v: nat)
    requires v < 10
    ensures Value([]) == 0 && Value(s + [DIGITS[v] as int]) == 10 * Value(s) + v
  {
    DigitCode(v);
    assert (s + [DIGITS[v] as int])[..|s|] == s;
  }

  datatype Sign = NoSign | Plus | Minus

  function Text(sign: Sign): Name {
    match sign case NoSign => [] case Plus => [43] case Minus => [45]
  }

  lemma {:induction false} StopsAt(d: Name, rest: Name)
    requires (forall i :: 0 <= i < |d| ==> IsDigit(d[i])) && (rest == [] || !IsDigit(rest[0]))
    ensures LeadingDigits(d + rest) == d
  {
    if d == [] {
      assert d + rest == rest;
    } else {
      assert (d + rest)[1..] == d[1..] + rest;
      StopsAt(d[1..], rest);
      assert d == [d[0]] + d[1..];
    }
  }

  /** What the rest of a name of any shape is read as: spaces, a sign, digits and anything
      else. */
  lemma StrtollIs(spaces: Name, sign: Sign, d: Name, rest: Name)
    requires forall i :: 0 <= i < |spaces| ==> 9 <= spaces[i] <= 13 || spaces[i] == 32
    requires (forall i :: 0 <= i < |d| ==> IsDigit(d[i])) && (rest == [] || !IsDigit(rest[0]))
    requires d == [] && sign == NoSign ==> rest == [] || (!IsSpace(rest[0]) && rest[0] != 43 && rest[0] != 45)
    ensures Strtoll(spaces + (Text(sign) + (d + rest)))
         == var n := if sign == Minus then -Value(d) else Value(d);
            if n > 9223372036854775807 then 9223372036854775807
            else if n < -9223372036854775808 then -9223372036854775808
            else n
  {
    var u := d + rest;
    var t := Text(sign) + u;
    StopsAt(d, rest);
    assert d != [] ==> u[0] == d[0];
    assert d == [] ==> u == rest;
    if sign == NoSign {
      assert t == u;
    } else {
      assert t[1..] == u;
    }
    SkipsSpaces(spaces, t);
  }

  // -------------------------------------------------------------------- paths

  /** The global path buffers hold 1023 characters, the others 65534. */
  lemma Buffers(s: seq<byte>)
    ensures |GroupPath(s)| == if |s| <= 1014 then 9 + |s| else 1023
    ensures |s| <= 1014 ==> GroupPath(s) == Bytes("/Servers/") + s
    ensures |ServerQueuePath(s, [])| == if |s| <= 65533 then |s| + 1 else 65534
  {
    Texts();
    assert CString([]) == [] && Encode([]) == [];
  }

  /** The paths of a group, below the lengths at which they are cut off. */
  lemma PathsAre(g: Guid, url: seq<byte>)
    requires InRange(g) && NulFree(url) && Fits(url)
    ensures GroupQueue(g) == Bytes("/Servers/") + Print(g) + Bytes("/Queue")
    ensures ActivePath(Print(g)) == Bytes("/Servers/") + Print(g) + Bytes("/Active")
    ensures Watched(g, url) == GroupQueue(g) + Bytes("/") + Encode(url)
    ensures ClientTaskPath(g, url) == Watched(g, url) + Bytes("/task-")
  {
    Texts();
    WatchedIs(g, url);
    PrintedCharacters(g);
    assert Bytes("/task-") == Bytes("/") + Bytes("task-");
    assert Watched(g, url) + [SLASH] + TASK == Watched(g, url) + Bytes("/task-");
  }

  function NodePath(n: QueueSetup.Node, g: Guid): seq<byte>
    requires |g.data4| == 8
  {
    var guid := Truncate(LOCAL, Print(g));
    match n
    case Servers => SERVERS[..8]
    case Group => GroupPath(guid)
    case Active => ActivePath(guid)
    case Queue => QueuePath(guid)
  }

  lemma NodePathLengths(g: Guid)
    requires InRange(g)
    ensures |NodePath(QueueSetup.Servers, g)| == 8 && |NodePath(QueueSetup.Group, g)| == 47
    ensures |NodePath(QueueSetup.Active, g)| == 54 && |NodePath(QueueSetup.Queue, g)| == 53
  {
    PrintedCharacters(g);
  }

  /** The parents of the set-up's nodes are those of their paths, "/Servers" being at the
      top. */
  lemma ParentsAreOfPaths(nodes: set<QueueSetup.Node>, n: QueueSetup.Node, g: Guid)
    requires InRange(g)
    ensures QueueSetup.ParentExists(nodes, n)
       <==> n == QueueSetup.Servers || exists m :: m in nodes && NodePath(m, g) == Parent(NodePath(n, g))
  {
    SetUpPaths(g);
    NodePathLengths(g);
    var p := if n == QueueSetup.Group then QueueSetup.Servers else QueueSetup.Group;
    if n != QueueSetup.Servers {
      assert NodePath(p, g) == Parent(NodePath(n, g));
      forall m | NodePath(m, g) == NodePath(p, g) ensures m == p {
        SameNode(m, p, g);
      }
    }
  }

  lemma SameNode(m: QueueSetup.Node, n: QueueSetup.Node, g: Guid)
    requires InRange(g) && NodePath(m, g) == NodePath(n, g)
    ensures m == n
  {
    NodePathLengths(g);
  }
}
