/** The znode paths of a redundancy group and its servers, with the truncations of
    `snprintf` into the buffers the code uses. */
module ZnodePaths {
  import opened CBytes
  import opened UrlCodec
  import opened GuidText
  import opened Sequences
  import opened TaskNames

  const GLOBAL := 1024  // the two global path buffers
  const LOCAL := 65535  // every other buffer

  const SERVERS: seq<byte> := [47, 83, 101, 114, 118, 101, 114, 115, 47]  // "/Servers/"
  const QUEUE: seq<byte> := [47, 81, 117, 101, 117, 101]                   // "/Queue"
  const ACTIVE: seq<byte> := [47, 65, 99, 116, 105, 118, 101]              // "/Active"

  function GroupPath(groupGuid: seq<byte>): seq<byte> {
    Truncate(GLOBAL, Truncate(LOCAL, SERVERS + groupGuid))
  }

  function QueuePath(groupGuid: seq<byte>): seq<byte> {
    Truncate(GLOBAL, Truncate(LOCAL, GroupPath(groupGuid) + QUEUE))
  }

  function ActivePath(groupGuid: seq<byte>): seq<byte> {
    Truncate(LOCAL, GroupPath(groupGuid) + ACTIVE)
  }

  function ServerQueuePath(queuePath: seq<byte>, url: seq<byte>): seq<byte> {
    Truncate(LOCAL, queuePath + [SLASH] + Encode(Truncate(LOCAL, CString(url))))
  }

  function TaskPath(queuePath: seq<byte>, url: seq<byte>): seq<byte> {
    Truncate(LOCAL, ServerQueuePath(queuePath, url) + [SLASH] + TASK)
  }

  /** The path globals of a process, and the functions that set them. */
  class PathGlobals {
    var zkGroupGuidPath: seq<byte>
    var zkServerQueuePath: seq<byte>

    constructor ()
      ensures zkGroupGuidPath == [] && zkServerQueuePath == []
    {
      zkGroupGuidPath, zkServerQueuePath := [], [];
    }

    method SetGroupGuidPath(groupGuid: seq<byte>)
      modifies this`zkGroupGuidPath
      ensures zkGroupGuidPath == GroupPath(groupGuid)
    {
      var zkGroupPath := Truncate(LOCAL, SERVERS + groupGuid);
      zkGroupGuidPath := Truncate(GLOBAL, zkGroupPath);
    }

    method SetQueuePath(ghost groupGuid: seq<byte>)
      requires zkGroupGuidPath == GroupPath(groupGuid)
      modifies this`zkServerQueuePath
      ensures zkServerQueuePath == QueuePath(groupGuid)
    {
      var zkQueuePath := Truncate(LOCAL, zkGroupGuidPath + QUEUE);
      zkServerQueuePath := Truncate(GLOBAL, zkQueuePath);
    }

    /** The group part of the client's and of the server's start-up: from a GUID to
        the path of the group's queues. */
    method SetGroup(guid: Guid)
      requires InRange(guid)
      modifies this
      ensures zkServerQueuePath == GroupQueue(guid)
    {
      var groupGuid := Truncate(LOCAL, Print(guid));
      SetGroupGuidPath(groupGuid);
      SetQueuePath(groupGuid);
      GroupQueueIs(guid);
    }
  }

  /** "/Servers/<GUID>/Queue". */
  function GroupQueue(g: Guid): seq<byte>
    requires |g.data4| == 8
  {
    SERVERS + Print(g) + QUEUE
  }

  lemma GroupQueueIs(g: Guid)
    requires InRange(g)
    ensures |Print(g)| == 38 && |GroupQueue(g)| == 53
    ensures QueuePath(Truncate(LOCAL, Print(g))) == GroupQueue(g)
  {
    ParsePrint(g);
  }

  /** The node a server of group `g` with endpoint `url` watches. */
  function Watched(g: Guid, url: seq<byte>): seq<byte>
    requires |g.data4| == 8
  {
    ServerQueuePath(GroupQueue(g), url)
  }

  /** The path a client of group `g` gives to its sequential creates. */
  function ClientTaskPath(g: Guid, url: seq<byte>): seq<byte>
    requires |g.data4| == 8
  {
    TaskPath(GroupQueue(g), url)
  }

  /** Everything before the last '/'. */
  function Parent(path: seq<byte>): seq<byte> {
    if path == [] then []
    else if path[|path| - 1] == SLASH then path[..|path| - 1]
    else Parent(path[..|path| - 1])
  }

  ghost predicate NoSlash(s: seq<byte>) {
    forall i :: 0 <= i < |s| ==> s[i] != SLASH
  }

  lemma {:induction false} ParentOfChild(p: seq<byte>, name: seq<byte>)
    requires NoSlash(name)
    ensures Parent(p + [SLASH] + name) == p
  {
    var path := p + [SLASH] + name;
    if name == [] {
      assert path[..|path| - 1] == p;
    } else {
      var front := name[..|name| - 1];
      assert path[..|path| - 1] == p + [SLASH] + front;
      ParentOfChild(p, front);
    }
  }

  /** The nodes of a group form the tree that its set-up creates: two different nodes
      under the group's node, which is under /Servers. */
  lemma SetUpPaths(g: Guid)
    requires InRange(g)
    ensures var guid := Truncate(LOCAL, Print(g));
            && Parent(QueuePath(guid)) == GroupPath(guid) == Parent(ActivePath(guid))
            && Parent(GroupPath(guid)) == SERVERS[..8]
            && QueuePath(guid) != ActivePath(guid)
  {
    PrintedCharacters(g);
    GroupQueueIs(g);
    var root, p := SERVERS[..8], SERVERS + Print(g);
    assert p == root + [SLASH] + Print(g) && |p| == 47;
    assert p + QUEUE == p + [SLASH] + QUEUE[1..] && p + ACTIVE == p + [SLASH] + ACTIVE[1..];
    ParentOfChild(root, Print(g));
    ParentOfChild(p, QUEUE[1..]);
    ParentOfChild(p, ACTIVE[1..]);
    assert |p + QUEUE| != |p + ACTIVE|;
  }

  /** What a path has room for after the group's queue node and a '/'. */
  const ROOM := LOCAL - 1 - 53 - 1

  /** Encoded, the URL leaves room for "/task-". */
  predicate Fits(url: seq<byte>) {
    |Encode(url)| <= ROOM - 6
  }

  /** Encoded, the URL leaves room for one more character. */
  predicate Owns(url: seq<byte>) {
    |Encode(url)| < ROOM
  }

  /** How much of a URL a path shows. */
  function Shown(url: seq<byte>): seq<byte> {
    var e := Encode(Truncate(LOCAL, url));
    if |e| <= ROOM then e else e[..ROOM]
  }

  lemma {:induction false} EncodeGrows(s: seq<byte>)
    ensures |Encode(s)| >= |s|
  {
    EncodedCharacters(s);
  }

  lemma ShownIs(url: seq<byte>)
    ensures |Encode(url)| <= ROOM ==> Shown(url) == Encode(url)
    ensures |Encode(url)| > ROOM ==> |Shown(url)| == ROOM
  {
    EncodeGrows(url);
    EncodeGrows(Truncate(LOCAL, url));
  }

  lemma WatchedShows(g: Guid, url: seq<byte>)
    requires InRange(g) && NulFree(url)
    ensures |Print(g)| == 38 && |GroupQueue(g)| == 53
    ensures Watched(g, url) == GroupQueue(g) + [SLASH] + Shown(url)
  {
    GroupQueueIs(g);
    WholeCString(url);
  }

  lemma WatchedIs(g: Guid, url: seq<byte>)
    requires InRange(g) && NulFree(url) && Fits(url)
    ensures |GroupQueue(g)| == 53
    ensures Watched(g, url) == GroupQueue(g) + [SLASH] + Encode(url)
    ensures ClientTaskPath(g, url) == Watched(g, url) + [SLASH] + TASK
  {
    WatchedShows(g, url);
    ShownIs(url);
  }

  /** The client's path is the watched path and "/task-" exactly when the URL fits. */
  lemma TaskPathComplete(g: Guid, url: seq<byte>)
    requires InRange(g) && NulFree(url)
    ensures ClientTaskPath(g, url) == Watched(g, url) + [SLASH] + TASK <==> Fits(url)
  {
    if Fits(url) {
      WatchedIs(g, url);
    } else {
      GroupQueueIs(g);
      WholeCString(url);
      EncodeGrows(Truncate(LOCAL, url));
    }
  }

  lemma PathFields(guid: seq<byte>, name: seq<byte>)
    requires |guid| == 38
    ensures var w := SERVERS + guid + QUEUE + [SLASH] + name; w[9..47] == guid && w[54..] == name
  {
  }

  /** Groups never share a queue; and a server shares its queue with no other URL as
      long as its own leaves room in the path, whatever the other one's length. */
  lemma WatchedInjective(g: Guid, url: seq<byte>, g': Guid, url': seq<byte>)
    requires InRange(g) && InRange(g') && NulFree(url) && NulFree(url')
    ensures Watched(g, url) == Watched(g', url') ==> g == g'
    ensures Owns(url) ==> (Watched(g, url) == Watched(g', url') <==> g == g' && url == url')
  {
    WatchedShows(g, url);
    WatchedShows(g', url');
    PathFields(Print(g), Shown(url));
    PathFields(Print(g'), Shown(url'));
    PrintInjective(g, g');
    ShownIs(url);
    ShownIs(url');
    EncodeInjective(url, url');
  }

  /** A server has a queue of its own exactly when its encoded URL has at most 65479
      bytes. */
  lemma QueueIsItsOwn(g: Guid, url: seq<byte>)
    requires InRange(g) && NulFree(url)
    ensures (forall g', url' :: InRange(g') && NulFree(url') && Watched(g, url) == Watched(g', url') ==>
               g == g' && url == url')
            <==> |Encode(url)| <= 65479
  {
    if Owns(url) {
      forall g', url' | InRange(g') && NulFree(url') && Watched(g, url) == Watched(g', url')
        ensures g == g' && url == url'
      {
        WatchedInjective(g, url, g', url');
      }
    } else {
      LongUrlsCollide(g, url, 1);
      assert NulFree(url + [1]);
    }
  }

  /** Longer URLs share it with every continuation. */
  lemma LongUrlsCollide(g: Guid, url: seq<byte>, c: byte)
    requires InRange(g) && NulFree(url) && c != 0 && !Owns(url)
    ensures url != url + [c] && Watched(g, url) == Watched(g, url + [c])
  {
    WatchedShows(g, url);
    WatchedShows(g, url + [c]);
    if |url| < LOCAL - 1 {
      FlatMapSnoc(EncodeByte, url, c);
    } else {
      assert (url + [c])[..LOCAL - 1] == url[..LOCAL - 1];
      assert |url| == LOCAL - 1 ==> url[..LOCAL - 1] == url;
    }
  }

  /** The part of "task-" that fits behind an encoded URL and a '/'. */
  function TaskPrefix(url: seq<byte>): Name
    requires Owns(url)
  {
    if Fits(url) then TASK else TASK[..ROOM - 1 - |Encode(url)|]
  }

  lemma CutTail(w: seq<byte>, tail: seq<byte>)
    requires |w| < LOCAL
    ensures Truncate(LOCAL, w + tail) == w + if |w + tail| < LOCAL then tail else tail[..LOCAL - 1 - |w|]
  {
  }

  /** The child that a client's sequential create makes under the watched node, though
      a part of "task-" may be cut off ... */
  lemma LandedIs(g: Guid, url: seq<byte>, id: nat)
    requires InRange(g) && NulFree(url) && Owns(url)
    ensures ClientTaskPath(g, url) + Decimal(id, 10)
         == Watched(g, url) + [SLASH] + ChildName(TaskPrefix(url), id)
  {
    WatchedShows(g, url);
    ShownIs(url);
    TaskTail(Watched(g, url), url);
    Regroup(Watched(g, url), TaskPrefix(url), Decimal(id, 10));
  }

  lemma TaskTail(w: seq<byte>, url: seq<byte>)
    requires Owns(url) && |w| == 54 + |Encode(url)|
    ensures Truncate(LOCAL, w + [SLASH] + TASK) == w + [SLASH] + TaskPrefix(url)
  {
    var tail := [SLASH] + TASK;
    CutTail(w, tail);
    assert w + [SLASH] + TASK == w + tail;
    assert Fits(url) || tail[..LOCAL - 1 - |w|] == [SLASH] + TaskPrefix(url);
    assert w + ([SLASH] + TaskPrefix(url)) == w + [SLASH] + TaskPrefix(url);
  }

  lemma Regroup(w: seq<byte>, prefix: seq<byte>, number: seq<byte>)
    ensures (w + [SLASH] + prefix) + number == w + [SLASH] + (prefix + number)
  {
  }

  /** ... and beside it, when not even the '/' fits. */
  lemma LandedBeside(g: Guid, url: seq<byte>, id: nat)
    requires InRange(g) && NulFree(url) && !Owns(url)
    ensures ClientTaskPath(g, url) + Decimal(id, 10) == GroupQueue(g) + [SLASH] + (Shown(url) + Decimal(id, 10))
    ensures NoSlash(Shown(url) + Decimal(id, 10))
  {
    WatchedShows(g, url);
    ShownIs(url);
    NoTail(Watched(g, url));
    Regroup(GroupQueue(g), Shown(url), Decimal(id, 10));
    ShownHasNoSlash(url, id);
  }

  lemma NoTail(w: seq<byte>)
    requires |w| == LOCAL - 1
    ensures Truncate(LOCAL, w + [SLASH] + TASK) == w
  {
    CutTail(w, [SLASH] + TASK);
    assert w + [SLASH] + TASK == w + ([SLASH] + TASK);
  }

  lemma ShownHasNoSlash(url: seq<byte>, id: nat)
    ensures NoSlash(Shown(url)) && NoSlash(Shown(url) + Decimal(id, 10))
  {
    EncodedCharacters(Truncate(LOCAL, url));
    DecimalValue(id, 10);
  }

  lemma PartOfTask(url: seq<byte>, id: nat)
    requires Owns(url)
    ensures TaskPrefix(url) <= TASK && (TaskPrefix(url) == TASK <==> Fits(url))
    ensures NoSlash(ChildName(TaskPrefix(url), id))
  {
    DecimalValue(id, 10);
    assert NoSlash(TASK) && TaskPrefix(url) <= TASK;
  }

  /** A task lands under the node a server watches exactly when client and server agree
      on the group and on the endpoint, and the encoded URL has at most 65479 bytes;
      for longer ones it lands among the queues themselves. */
  lemma TaskLandsInQueue(g: Guid, url: seq<byte>, id: nat, g': Guid, url': seq<byte>)
    requires InRange(g) && InRange(g') && NulFree(url) && NulFree(url')
    ensures var znode := ClientTaskPath(g, url) + Decimal(id, 10);
            && (Parent(znode) == Watched(g', url') <==> g == g' && url == url' && |Encode(url)| <= 65479)
            && (|Encode(url)| > 65479 ==> Parent(znode) == GroupQueue(g))
  {
    WatchedInjective(g, url, g', url');
    WatchedShows(g', url');
    if Owns(url) {
      LandedIs(g, url, id);
      PartOfTask(url, id);
      ParentOfChild(Watched(g, url), ChildName(TaskPrefix(url), id));
    } else {
      LandedBeside(g, url, id);
      GroupQueueIs(g);
      ParentOfChild(GroupQueue(g), Shown(url) + Decimal(id, 10));
    }
  }

  /** Of the tasks that land in its queue, the server can read the number of exactly
      those whose URL leaves room for all of "task-". */
  lemma LandedTaskIsRead(g: Guid, url: seq<byte>, id: nat)
    requires InRange(g) && NulFree(url) && Owns(url)
    ensures ClientTaskPath(g, url) + Decimal(id, 10)
         == Watched(g, url) + [SLASH] + ChildName(TaskPrefix(url), id)
    ensures HasId(ChildName(TaskPrefix(url), id)) <==> |Encode(url)| <= 65474
    ensures |Encode(url)| <= 65474 ==> ChildName(TaskPrefix(url), id) == TaskName(id)
  {
    LandedIs(g, url, id);
    PartOfTask(url, id);
    ChildHasId(TaskPrefix(url), id);
  }

  /** The URL of 65475 letters "a": its tasks land under names the server cannot read. */
  lemma UnreadableTask(g: Guid, id: nat) returns (url: seq<byte>)
    requires InRange(g)
    ensures url == Letters(65475) && NulFree(url)
    ensures Parent(ClientTaskPath(g, url) + Decimal(id, 10)) == Watched(g, url)
    ensures ClientTaskPath(g, url) + Decimal(id, 10)
         == Watched(g, url) + [SLASH] + ChildName(TASK[..4], id)
    ensures !HasId(ChildName(TASK[..4], id))
  {
    url := Letters(65475);
    LettersEncode(65475);
    TaskLandsInQueue(g, url, id, g, url);
    LandedTaskIsRead(g, url, id);
  }

  function Letters(n: nat): seq<byte> {
    seq(n, _ => 97)
  }

  lemma {:induction false} LettersEncode(n: nat)
    ensures Encode(Letters(n)) == Letters(n)
  {
    if n > 0 {
      LettersEncode(n - 1);
      assert Letters(n)[1..] == Letters(n - 1);
      assert Letters(n) == [97] + Letters(n - 1);
    }
  }

  /** Every queue is a direct child of its group's queue node. */
  lemma WatchedIsChild(g: Guid, url: seq<byte>)
    requires InRange(g) && NulFree(url)
    ensures Parent(Watched(g, url)) == GroupQueue(g)
  {
    WatchedShows(g, url);
    ShownHasNoSlash(url, 0);
    ParentOfChild(GroupQueue(g), Shown(url));
  }

  /** The path the server gives to `zoo_get` and `zoo_delete`. */
  function ServerTaskPath(watched: seq<byte>, name: Name): seq<byte> {
    Truncate(LOCAL, watched + [SLASH] + name)
  }

  /** Of the tasks that land in its queue, the server finds exactly those whose path
      fits its buffer together with their number. */
  lemma ServerFindsTask(g: Guid, url: seq<byte>, id: nat)
    requires InRange(g) && NulFree(url) && Owns(url)
    ensures var name := ChildName(TaskPrefix(url), id);
            ServerTaskPath(Watched(g, url), name) == ClientTaskPath(g, url) + Decimal(id, 10) <==>
            |Encode(url)| + |Decimal(id, 10)| <= 65474
  {
    LandedIs(g, url, id);
    WatchedShows(g, url);
    ShownIs(url);
    DecimalValue(id, 10);
  }

  /** The node the server creates for its tasks is the node it watches. */
  lemma CreatedIsWatched(g: Guid, uri: seq<byte>)
    requires InRange(g) && NulFree(uri)
    ensures var serverUri := Truncate(LOCAL, uri);
            Truncate(LOCAL, GroupQueue(g) + [SLASH] + Encode(serverUri)) == Watched(g, serverUri)
  {
    WholeCString(Truncate(LOCAL, uri));
  }
}
