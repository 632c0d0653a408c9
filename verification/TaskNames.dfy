/** Task znode names: the comparator the server sorts its children with, and the
    in-place sort. */
module TaskNames {
  import opened CBytes
  import Qsort

  type Name = seq<byte>

  const TASK: Name := [116, 97, 115, 107, 45]  // "task-"
  const LLONG_MAX := 0x7fff_ffff_ffff_ffff
  const LLONG_MIN := -0x8000_0000_0000_0000

  // ------------------------------------------------------------ reading an id

  /** `strstr(name, "task-")`: the first occurrence. */
  function FindTask(name: Name): Option<nat> {
    if |name| < |TASK| then None
    else if name[..|TASK|] == TASK then Some(0)
    else match FindTask(name[1..]) case None => None case Some(i) => Some(i + 1)
  }

  /** The text `zuth_extractTaskId` copies: everything after the first "task-".
      With no such substring the C code follows a null pointer. */
  function ExtractTaskId(name: Name): Option<Name> {
    match FindTask(name)
    case None => None
    case Some(i) => if i + |TASK| <= |name| then Some(name[i + |TASK|..]) else None
  }

  function LeadingDigits(s: Name): Name {
    if s != [] && IsDigit(s[0]) then [s[0]] + LeadingDigits(s[1..]) else []
  }

  function Value(digits: Name): int {
    if digits == [] then 0
    else 10 * Value(digits[..|digits| - 1]) + (digits[|digits| - 1] as int - 48)
  }

  function Clamp(n: int): int {
    if n > LLONG_MAX then LLONG_MAX else if n < LLONG_MIN then LLONG_MIN else n
  }

  /** `strtoll(s, NULL, 10)`. */
  function Strtoll(s: Name): int {
    var t := SkipSpaces(s);
    if t != [] && t[0] == 45 then Clamp(-Value(LeadingDigits(t[1..])))
    else if t != [] && t[0] == 43 then Clamp(Value(LeadingDigits(t[1..])))
    else Clamp(Value(LeadingDigits(t)))
  }

  predicate HasId(name: Name) {
    ExtractTaskId(name).Some?
  }

  function IdOf(name: Name): int
    requires HasId(name)
  {
    Strtoll(ExtractTaskId(name).value)
  }

  function TaskIdCmp(n1: Name, n2: Name): int
    requires HasId(n1) && HasId(n2)
  {
    var t1, t2 := IdOf(n1), IdOf(n2);
    if t1 != t2 then (if t1 < t2 then -1 else 1) else 0
  }

  // ------------------------------------------------- names of sequential nodes

  /** `n` in decimal, zero-padded to at least `width` digits. */
  function Decimal(n: nat, width: nat): Name {
    if n == 0 && width == 0 then []
    else Decimal(n / 10, if width == 0 then 0 else width - 1) + [48 + n % 10]
  }

  /** The child ZooKeeper makes of ".../<prefix>" for a sequential znode. */
  function ChildName(prefix: Name, id: nat): Name {
    prefix + Decimal(id, 10)
  }

  /** The child of ".../task-". */
  function TaskName(id: nat): Name {
    ChildName(TASK, id)
  }

  lemma {:induction false} DecimalValue(n: nat, width: nat)
    ensures Value(Decimal(n, width)) == n
    ensures forall i :: 0 <= i < |Decimal(n, width)| ==> IsDigit(Decimal(n, width)[i])
    ensures |Decimal(n, width)| >= width
    decreases n, width
  {
    if n != 0 || width != 0 {
      var w := if width == 0 then 0 else width - 1;
      DecimalValue(n / 10, w);
      var d := Decimal(n, width);
      assert d[..|d| - 1] == Decimal(n / 10, w);
    }
  }

  lemma {:induction false} AllDigits(s: Name)
    requires forall i :: 0 <= i < |s| ==> IsDigit(s[i])
    ensures LeadingDigits(s) == s
  {
    if s != [] {
      AllDigits(s[1..]);
      assert s == [s[0]] + s[1..];
    }
  }

  /** The server reads back the sequence number ZooKeeper wrote. */
  lemma TaskNameId(id: nat)
    ensures HasId(TaskName(id)) && IdOf(TaskName(id)) == Clamp(id)
    ensures ExtractTaskId(TaskName(id)) == Some(Decimal(id, 10))
  {
    var d := Decimal(id, 10);
    assert TaskName(id)[..|TASK|] == TASK;
    assert TaskName(id)[|TASK|..] == d;
    DecimalValue(id, 10);
    AllDigits(d);
    assert IsDigit(d[0]);
  }

  lemma {:induction false} NoDashNoTask(name: Name)
    requires forall i :: 0 <= i < |name| ==> name[i] != TASK[4]
    ensures FindTask(name) == None
  {
    if |name| >= |TASK| {
      assert name[..|TASK|][4] != TASK[4];
      NoDashNoTask(name[1..]);
    }
  }

  /** Of the names that begin with a part of "task-", the server can read exactly those
      that begin with all of it. */
  lemma ChildHasId(prefix: Name, id: nat)
    requires prefix <= TASK
    ensures HasId(ChildName(prefix, id)) <==> prefix == TASK
  {
    if prefix == TASK {
      TaskNameId(id);
    } else {
      DecimalValue(id, 10);
      assert forall i :: 0 <= i < |prefix| ==> prefix[i] == TASK[i] != TASK[4];
      NoDashNoTask(ChildName(prefix, id));
    }
  }

  /** `taskIdCmp` orders task names by sequence number; it tells two of them
      apart exactly when they differ within the range of `long long`. */
  lemma TaskIdCmpOrdersTasks(a: nat, b: nat)
    ensures HasId(TaskName(a)) && HasId(TaskName(b))
    ensures TaskIdCmp(TaskName(a), TaskName(b)) < 0 <==> a < b && a < LLONG_MAX
    ensures TaskIdCmp(TaskName(a), TaskName(b)) == 0 <==>
            a == b || (a >= LLONG_MAX && b >= LLONG_MAX)
  {
    TaskNameId(a);
    TaskNameId(b);
  }

  // ---------------------------------------------------------------- sorting

  predicate AllHaveIds(names: seq<Name>) {
    forall name :: name in names ==> HasId(name)
  }

  ghost function SortKey(name: Name): int {
    if HasId(name) then IdOf(name) else 0
  }

  /** The sort at the head of `zuth_processTasks`.  Once there are two names, a sort has
      to compare each of them; on one without "task-" the comparator follows a null
      pointer, and `ok` is false. */
  method SortByTaskId(a: array<Name>) returns (ok: bool)
    modifies a
    ensures ok <==> a.Length < 2 || AllHaveIds(old(a[..]))
    ensures ok ==> Qsort.SortedBy(SortKey, a[..]) && multiset(a[..]) == multiset(old(a[..]))
  {
    ok := a.Length < 2 || AllHaveIds(a[..]);
    if ok {
      var cmp := (n1: Name, n2: Name) => if HasId(n1) && HasId(n2) then TaskIdCmp(n1, n2) else 0;
      assert Qsort.Compares(cmp, SortKey, a[..]);
      Qsort.Sort(a, cmp, SortKey);
    }
  }
}
