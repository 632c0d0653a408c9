/** The server's two callbacks as code, run against a queue that clients keep
    adding to.  Everything they do is a run of the protocol in TaskQueue. */
module ZuthServer {
  import Qsort
  import opened TaskQueue
  import opened TaskNames

  /** `names` are the children ZooKeeper returned for `tasks`, in any order.  Clients
      name their sequential znodes `prefix`: "task-", or the part of it that fitted
      their buffers. */
  ghost predicate IsChildren(names: seq<Name>, tasks: set<nat>, prefix: Name) {
    && prefix <= TASK && |names| == |tasks|
    && (forall id :: id in tasks ==> id <= LLONG_MAX && ChildName(prefix, id) in names)
    && (forall name :: name in names ==> exists id :: id in tasks && name == ChildName(prefix, id))
  }

  /** `key` reads from each member of `s` which of `tasks` it was made of. */
  ghost predicate Keyed<T>(key: T -> int, make: nat -> T, s: seq<T>, tasks: set<nat>) {
    && |s| == |tasks|
    && (forall x :: x in s ==> key(x) in tasks && x == make(key(x)))
    && (forall id :: id in tasks ==> make(id) in s && key(make(id)) == id)
  }

  lemma KeyOfTask(id: nat)
    requires id <= LLONG_MAX
    ensures HasId(TaskName(id)) && SortKey(TaskName(id)) == id
  {
    TaskNameId(id);
  }

  /** Named in full, each child is read back as its own task. */
  lemma ChildrenParse(names: seq<Name>, tasks: set<nat>)
    requires IsChildren(names, tasks, TASK)
    ensures AllHaveIds(names) && Keyed(SortKey, TaskName, names, tasks)
  {
    forall id | id in tasks ensures TaskName(id) in names && SortKey(TaskName(id)) == id {
      assert ChildName(TASK, id) in names;
      KeyOfTask(id);
    }
    forall name | name in names
      ensures HasId(name) && SortKey(name) in tasks && name == TaskName(SortKey(name))
    {
      var id :| id in tasks && name == ChildName(TASK, id);
      KeyOfTask(id);
    }
  }

  /** Named in part, none can be read. */
  lemma ChildrenDoNotParse(names: seq<Name>, tasks: set<nat>, prefix: Name)
    requires IsChildren(names, tasks, prefix) && prefix != TASK
    ensures forall name :: name in names ==> !HasId(name)
  {
    forall name | name in names ensures !HasId(name) {
      var id :| id in tasks && name == ChildName(prefix, id);
      ChildHasId(prefix, id);
    }
  }

  /** The tasks of a batch that reach the OPC UA server. */
  function WellFormed(batch: seq<nat>, bad: set<nat>): seq<nat> {
    if batch == [] then []
    else WellFormed(batch[..|batch| - 1], bad)
         + (if batch[|batch| - 1] in bad then [] else [batch[|batch| - 1]])
  }

  lemma {:induction false} ElementsBound(b: seq<nat>)
    ensures |Elements(b)| <= |b|
  {
    if b != [] {
      var front := b[..|b| - 1];
      assert b == front + [b[|b| - 1]];
      ElementsBound(front);
      assert Elements(b) == Elements(front) + {b[|b| - 1]};
    }
  }

  lemma RepeatedElement(b: seq<nat>, i: nat, j: nat)
    requires i < j < |b| && b[i] == b[j]
    ensures |Elements(b)| < |b|
  {
    var c := b[..j] + b[j + 1..];
    forall k | 0 <= k < |b| ensures b[k] in c {
      assert b[k] == c[if k < j then k else if k == j then i else k - 1];
    }
    assert Elements(b) == Elements(c);
    ElementsBound(c);
  }

  lemma DistinctOrderedIsIncreasing(b: seq<nat>)
    requires forall i, j :: 0 <= i < j < |b| ==> b[i] <= b[j]
    requires |Elements(b)| == |b|
    ensures Increasing(b)
  {
    forall i, j | 0 <= i < j < |b| ensures b[i] < b[j] {
      if b[i] == b[j] {
        RepeatedElement(b, i, j);
      }
    }
  }

  /** Members sorted by a key that numbers them have their numbers sorted. */
  lemma SortedKeys<T>(key: T -> int, make: nat -> T, s: seq<T>, tasks: set<nat>, b: seq<nat>)
    requires Keyed(key, make, s, tasks) && Qsort.SortedBy(key, s)
    requires |b| == |s| && forall i :: 0 <= i < |b| ==> b[i] == key(s[i])
    ensures IsSorting(b, tasks) && forall i :: 0 <= i < |b| ==> s[i] == make(b[i])
  {
    forall id | id in tasks ensures id in b {
      var i :| 0 <= i < |s| && s[i] == make(id);
      assert b[i] == id;
    }
    assert Elements(b) == tasks;
    DistinctOrderedIsIncreasing(b);
  }

  /** Sorting the children's names sorts the tasks. */
  lemma SortedChildren(names: seq<Name>, tasks: set<nat>, b: seq<nat>)
    requires IsChildren(names, tasks, TASK) && Qsort.SortedBy(SortKey, names)
    requires |b| == |names| && forall i :: 0 <= i < |b| ==> b[i] == SortKey(names[i])
    ensures IsSorting(b, tasks) && Lists(names, b, TASK)
  {
    ChildrenParse(names, tasks);
    SortedKeys(SortKey, TaskName, names, tasks, b);
  }

  lemma SameMembers<T>(a: seq<T>, b: seq<T>)
    requires multiset(a) == multiset(b)
    ensures |a| == |b| && forall x :: x in a <==> x in b
  {
    assert |multiset(a)| == |multiset(b)|;
    forall x ensures x in a <==> x in b {
      assert (x in a <==> x in multiset(a)) && (x in b <==> x in multiset(b));
    }
  }

  /** Clients only add tasks, and what they add is new. */
  ghost predicate OnlyClientsAdd(w: State, w': State) {
    && w.created <= w'.created && w'.bad * w.created == w.bad
    && w'.fetches == w.fetches && w'.levels == w.levels && w.inbox <= w'.inbox
  }

  /** What one request does to the world, clients' interference included.  Of the
      tasks that existed before, the one executed is gone unless it was malformed, not
      read (`got` false) or its delete was refused (`ok` false). */
  ghost predicate Attempted(w: State, w': State, id: nat, got: bool, ok: bool) {
    var ran := if id in w.bad || !got then {} else {id};
    && w.phase.Batch? && w.phase.todo != [] && w'.phase == Batch(w.phase.todo[1..], false)
    && w'.log == w.log + (if id in w.bad || !got then [] else [id])
    && w'.queue * w.created == w.queue - (if ok then ran else {})
    && w'.failed == w.failed + (if ok then {} else ran)
    && w'.missed == w.missed + (if got then {} else {id})
    && OnlyClientsAdd(w, w')
  }

  /** What walking a batch has done since `w`, when the gets of `unread` and the deletes
      of `refused` fail. */
  ghost predicate Walked(w: State, w': State, done: seq<nat>, unread: set<nat>, refused: set<nat>) {
    && w'.log == w.log + WellFormed(done, w.bad + unread)
    && w'.queue * w.created == w.queue - (Elements(done) - w.bad - unread - refused)
    && w'.failed == w.failed + (Elements(done) - w.bad - unread) * refused
    && w'.missed == w.missed + Elements(done) * unread
    && OnlyClientsAdd(w, w')
  }

  lemma WalkedStep(w: State, w1: State, w2: State, done: seq<nat>, id: nat, unread: set<nat>, refused: set<nat>)
    requires Walked(w, w1, done, unread, refused) && Attempted(w1, w2, id, id !in unread, id !in refused)
    requires id in w.created && w.queue <= w.created
    ensures Walked(w, w2, done + [id], unread, refused)
  {
    assert (done + [id])[..|done|] == done;
    assert Elements(done + [id]) == Elements(done) + {id};
    assert id in w1.bad <==> id in w.bad;
    var gone := if id in w.bad || id in unread || id in refused then {} else {id};
    calc {
      w2.queue * w.created;
      (w2.queue * w1.created) * w.created;
      (w1.queue - gone) * w.created;
      (w1.queue * w.created) - gone;
    }
    assert w2.bad * w.created == (w2.bad * w1.created) * w.created;
  }

  lemma Reordered(names: seq<Name>, names': seq<Name>, tasks: set<nat>, prefix: Name)
    requires IsChildren(names, tasks, prefix) && multiset(names') == multiset(names)
    ensures IsChildren(names', tasks, prefix)
  {
    SameMembers(names', names);
  }

  /** The `qsort` call: the array of names now lists the tasks in ascending order.  It
      fails exactly when there are two names it cannot read. */
  method SortBatch(strings: array<Name>, tasks: set<nat>, ghost prefix: Name) returns (ok: bool, todo: seq<nat>)
    requires IsChildren(strings[..], tasks, prefix)
    modifies strings
    ensures ok <==> prefix == TASK || |tasks| < 2
    ensures ok ==> IsSorting(todo, tasks) && Lists(strings[..], todo, prefix)
  {
    ghost var names := strings[..];
    Readable(names, tasks, prefix);
    ok := SortByTaskId(strings);
    todo := [];
    if ok {
      Reordered(names, strings[..], tasks, prefix);
      todo := Batched(strings[..], tasks, prefix);
    }
  }

  lemma Readable(names: seq<Name>, tasks: set<nat>, prefix: Name)
    requires IsChildren(names, tasks, prefix)
    ensures |names| < 2 || AllHaveIds(names) <==> prefix == TASK || |tasks| < 2
  {
    if prefix == TASK {
      ChildrenParse(names, tasks);
    } else if |names| >= 2 {
      ChildrenDoNotParse(names, tasks, prefix);
      assert names[0] in names;
    }
  }

  /** The tasks of the sorted names. */
  method Batched(names: seq<Name>, tasks: set<nat>, ghost prefix: Name) returns (todo: seq<nat>)
    requires IsChildren(names, tasks, prefix) && Qsort.SortedBy(SortKey, names)
    requires prefix == TASK || |tasks| < 2
    ensures IsSorting(todo, tasks) && Lists(names, todo, prefix)
  {
    if |names| == 0 {
      todo := [];
    } else if |names| == 1 {
      todo := OnlyTask(names, tasks, prefix);
    } else {
      ChildrenParse(names, tasks);
      todo := ReadIds(names);
      SortedChildren(names, tasks, todo);
    }
  }

  method ReadIds(names: seq<Name>) returns (ids: seq<nat>)
    requires AllHaveIds(names) && forall i :: 0 <= i < |names| ==> SortKey(names[i]) >= 0
    ensures |ids| == |names| && forall i :: 0 <= i < |ids| ==> ids[i] == SortKey(names[i])
  {
    ids := seq(|names|, i requires 0 <= i < |names| && HasId(names[i]) && SortKey(names[i]) >= 0 => IdOf(names[i]));
  }

  /** `names` are the names of `todo`, in its order. */
  ghost predicate Lists(names: seq<Name>, todo: seq<nat>, prefix: Name) {
    |names| == |todo| && forall i :: 0 <= i < |todo| ==> names[i] == ChildName(prefix, todo[i])
  }

  /** A single child needs no comparison. */
  method OnlyTask(names: seq<Name>, tasks: set<nat>, ghost prefix: Name) returns (todo: seq<nat>)
    requires IsChildren(names, tasks, prefix) && |names| == 1
    ensures IsSorting(todo, tasks) && Lists(names, todo, prefix)
  {
    var x :| x in tasks;
    assert |tasks - {x}| == 0;
    assert tasks == {x};
    assert names[0] in names;
    todo := [x];
  }

  /** The first healthy reading, or 0. */
  function FirstHealthy(readings: seq<int>): int {
    if readings == [] then 0
    else if readings[0] >= HEALTHY then readings[0]
    else FirstHealthy(readings[1..])
  }

  lemma {:induction false} FirstHealthyIs(readings: seq<int>)
    requires exists k :: 0 <= k < |readings| && readings[k] >= 200
    ensures exists k :: 0 <= k < |readings| && readings[k] == FirstHealthy(readings) >= 200
              && forall j :: 0 <= j < k ==> readings[j] < 200
  {
    if readings[0] < 200 {
      var rest := readings[1..];
      var k :| 0 <= k < |readings| && readings[k] >= 200;
      assert rest[k - 1] >= 200;
      FirstHealthyIs(rest);
      var m :| 0 <= m < |rest| && rest[m] == FirstHealthy(rest) >= 200 && forall j :: 0 <= j < m ==> rest[j] < 200;
      assert readings[m + 1] == rest[m];
      assert forall j :: 0 < j < m + 1 ==> readings[j] == rest[j - 1];
    } else {
      assert readings[0] == FirstHealthy(readings);
    }
  }

  /** The watcher is waiting for a healthy level; only clients have acted since `w`. */
  ghost predicate Waits(w: State, w': State) {
    && w'.phase.Waiting? && w'.fetches == w.fetches && w'.levels == w.levels
    && w'.log == w.log && w'.failed == w.failed && w'.missed == w.missed && w.queue <= w'.queue
  }

  /** It has fetched again, after reading `level`. */
  ghost predicate Refetched(w: State, w': State, level: int) {
    && w'.phase.Idle? && w'.inFlight == 1 && w'.inbox == []
    && w'.fetches == w.fetches + 1 && w'.levels == w.levels + [level]
    && w'.log == w.log && w'.failed == w.failed && w'.missed == w.missed && w.queue <= w'.queue
  }

  lemma OneFurther<T>(s: seq<T>, i: nat)
    requires i < |s|
    ensures s[i..] != [] && s[i..][0] == s[i] && s[i..][1..] == s[i + 1..] && s[..i] + [s[i]] == s[..i + 1]
  {
  }

  class Server {
    var world: State           // the queue, the session and this server
    ghost var start: State
    ghost var trace: seq<Step>

    /** The world is what some run of the protocol makes of its start. */
    ghost predicate Valid()
      reads this
    {
      && Init(start) && ValidRun(start, trace) && world == Run(start, trace)
      && world.nextSeq <= LLONG_MAX
    }

    /** `init_ZUTH_Server`, from the point where it issues the first fetch. */
    constructor (queue: set<nat>, bad: set<nat>, nextSeq: nat)
      requires bad <= queue && (forall x :: x in queue ==> x < nextSeq) && nextSeq <= LLONG_MAX
      ensures Valid() && trace == []
      ensures world.queue == queue && world.bad == bad && world.inFlight == 1 && world.log == []
    {
      var s := State(queue, bad, nextSeq, 1, false, [], Idle, [], queue, {}, {}, {}, 1, 0, []);
      world, start, trace := s, s, [];
    }

    /** What the callbacks rely on. */
    lemma Facts()
      requires Valid()
      ensures world.bad <= world.queue <= world.created && forall x :: x in world.created ==> x < world.nextSeq
      ensures world.phase.Batch? ==> forall x :: x in world.phase.todo ==> x in world.queue
      ensures world.inbox != [] && world.inbox[0].Snapshot? ==> world.inbox[0].tasks <= world.queue
      ensures world.phase.Waiting? ==> world.inFlight == 0 && world.inbox == []
    {
      InitInv(start);
      RunInv(start, trace);
      if world.phase.Batch? {
        assert forall x :: x in world.phase.todo ==> x in Pending(world);
      }
    }

    /** One atomic action. */
    method Do(step: Step)
      requires Valid() && Enabled(world, step)
      requires step.Create? ==> step.id < LLONG_MAX
      modifies this
      ensures Valid()
      ensures world == Apply(old(world), step)
      ensures start == old(start) && trace == old(trace) + [step]
    {
      world := Apply(world, step);
      trace := trace + [step];
      assert trace[..|trace| - 1] == old(trace);
    }

    /** Whatever clients and ZooKeeper do between two actions of a callback. */
    method Others()
      requires Valid()
      modifies this
      ensures Valid() && start == old(start) && old(trace) <= trace
      ensures world.phase == old(world.phase) && world.log == old(world.log)
      ensures world.failed == old(world.failed) && world.missed == old(world.missed)
      ensures old(world.inbox) <= world.inbox
      ensures old(world.queue) <= world.queue && old(world.created) <= world.created
      ensures world.queue * old(world.created) == old(world.queue)
      ensures world.bad * old(world.created) == old(world.bad)
      ensures world.fetches == old(world.fetches) && world.levels == old(world.levels)
    {
      Facts();
      var n: nat := *;
      while n > 0
        invariant Valid() && start == old(start) && old(trace) <= trace
        invariant world.phase == old(world.phase) && world.log == old(world.log)
        invariant world.failed == old(world.failed) && world.missed == old(world.missed)
        invariant old(world.inbox) <= world.inbox
        invariant old(world.queue) <= world.queue && old(world.created) <= world.created
        invariant world.queue * old(world.created) == old(world.queue)
        invariant world.bad * old(world.created) == old(world.bad)
        invariant world.fetches == old(world.fetches) && world.levels == old(world.levels)
      {
        if * {
          if world.inFlight > 0 {
            Do(Serve);
          }
        } else if world.nextSeq < LLONG_MAX {
          var id :| world.nextSeq <= id < LLONG_MAX;
          var wellFormed: bool := *;
          Facts();
          Do(Create(id, wellFormed));
        }
        n := n - 1;
      }
    }

    /** `zuth_executeRequest` on the first task of the batch, by its name; `got` and
        `deleteOk` are whether its `zoo_get` succeeds and whether, should it get that
        far, its `zoo_delete` takes effect; what the latter reports is only printed. */
    method ExecuteRequest(name: Name, ghost prefix: Name, got: bool, deleteOk: bool)
      requires Valid()
      requires world.phase.Batch? && world.phase.todo != [] && !world.phase.executed
      requires name == ChildName(prefix, world.phase.todo[0])
      modifies this
      ensures Valid() && start == old(start) && old(trace) <= trace
      ensures Attempted(old(world), world, old(world.phase.todo[0]), got, deleteOk)
    {
      Facts();
      var id := world.phase.todo[0];
      Others();
      // json_loads, "dst"
      var usable := got && id in world.queue && id !in world.bad;
      Do(Execute(got));
      if !usable {
        return;
      }
      Others();
      Do(Delete(deleteOk));
    }

    /** `zuth_processTasks`: the snapshot at the head of the inbox is delivered as
        an array of names.  With two or more children whose names lack "task-" the
        process dies in the sort.  Otherwise the batch is the snapshot's tasks in
        ascending order; exactly the well-formed ones that could be read are executed,
        in that order, and deleted unless refused. */
    method ProcessTasks(strings: array<Name>, ghost prefix: Name, unread: set<nat>, refused: set<nat>)
      returns (dead: bool, ghost batch: seq<nat>)
      requires Valid() && world.phase.Idle? && world.inbox != [] && world.inbox[0].Snapshot?
      requires IsChildren(strings[..], world.inbox[0].tasks, prefix)
      modifies this, strings
      ensures Valid() && start == old(start) && old(trace) <= trace
      ensures dead <==> prefix != TASK && |old(world).inbox[0].tasks| >= 2
      ensures dead ==> world == old(world)
      ensures !dead ==>
                && world.phase.Idle? && IsSorting(batch, old(world.inbox[0].tasks))
                && Walked(old(world.(inbox := world.inbox[1..])), world, batch, unread, refused)
    {
      Facts();
      var ok, todo := SortBatch(strings, world.inbox[0].tasks, prefix);
      dead, batch := !ok, todo;
      if ok {
        Do(Deliver(todo));
        Walk(strings, prefix, todo, unread, refused);
        Do(Finish);
      }
    }

    /** The loop of `zuth_processTasks`. */
    method Walk(strings: array<Name>, ghost prefix: Name, todo: seq<nat>, unread: set<nat>, refused: set<nat>)
      requires Valid() && world.phase == Batch(todo, false) && Lists(strings[..], todo, prefix)
      modifies this
      ensures Valid() && start == old(start) && old(trace) <= trace
      ensures Walked(old(world), world, todo, unread, refused) && world.phase == Batch([], false)
    {
      Facts();
      ghost var w := world;
      assert todo[..0] == [] && todo[0..] == todo;
      var i := 0;
      while i < strings.Length
        invariant 0 <= i <= strings.Length
        invariant Valid() && start == old(start) && old(trace) <= trace
        invariant Walked(w, world, todo[..i], unread, refused) && world.phase == Batch(todo[i..], false)
      {
        assert todo[i] in todo && strings[..][i] == strings[i];
        OneFurther(todo, i);
        Turn(strings[i], prefix, w, todo[..i], todo[i..], unread, refused);
        i := i + 1;
      }
      assert todo[..i] == todo && todo[i..] == [];
    }

    /** Its body. */
    method Turn(name: Name, ghost prefix: Name, ghost w: State, ghost done: seq<nat>, ghost ahead: seq<nat>,
                unread: set<nat>, refused: set<nat>)
      requires Valid() && world.phase == Batch(ahead, false)
      requires ahead != [] && name == ChildName(prefix, ahead[0]) && ahead[0] in w.created && w.queue <= w.created
      requires Walked(w, world, done, unread, refused)
      modifies this
      ensures Valid() && start == old(start) && old(trace) <= trace
      ensures Walked(w, world, done + [ahead[0]], unread, refused) && world.phase == Batch(ahead[1..], false)
    {
      ghost var w1 := world;
      var id := world.phase.todo[0];
      ExecuteRequest(name, prefix, id !in unread, id !in refused);
      WalkedStep(w, w1, world, done, ahead[0], unread, refused);
    }

    /** `zkUA_queueWatcher`, for an event on the queue's path.  `readings` are what
        successive reads of the service level return: the first of at least 200 ends
        the wait. */
    method QueueWatcher(childEvent: bool, readings: seq<int>) returns (level: int)
      requires Valid()
      requires childEvent ==> world.phase.Idle? && world.inbox != [] && world.inbox[0].ChildEvent?
      requires childEvent ==> exists k :: 0 <= k < |readings| && readings[k] >= 200
      modifies this
      ensures Valid() && start == old(start) && old(trace) <= trace
      ensures !childEvent ==> world == old(world)
      ensures childEvent ==> Refetched(old(world), world, level)
      ensures childEvent ==>
                exists k :: 0 <= k < |readings| && readings[k] == level >= 200
                  && forall j :: 0 <= j < k ==> readings[j] < 200
    {
      level := 0;
      if childEvent {
        FirstHealthyIs(readings);
        Do(Notice);
        var k := 0;
        while level < HEALTHY
          invariant 0 <= k <= |readings|
          invariant FirstHealthy(readings) == if level < HEALTHY then FirstHealthy(readings[k..]) else level
          invariant Valid() && start == old(start) && old(trace) <= trace
          invariant if level < HEALTHY then Waits(old(world), world) else Refetched(old(world), world, level)
          decreases |readings| - k
        {
          assert readings[k..] != [] ==> readings[k..][1..] == readings[k + 1..];
          level := readings[k];
          k := k + 1;
          Act(old(world), level);
        }
      }
    }

    /** One reading of the service level, and the fetch if it is healthy. */
    method Act(ghost w: State, level: int)
      requires Valid() && Waits(w, world)
      modifies this
      ensures Valid() && start == old(start) && old(trace) <= trace
      ensures if level < HEALTHY then Waits(w, world) else Refetched(w, world, level)
    {
      Others();
      Facts();
      Do(Read(level));
    }
  }
}
