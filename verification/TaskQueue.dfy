/** The throttled task queue of one OPC UA server, as a state machine.

    The server keeps a one-shot ZooKeeper watch on the children of its queue
    node.  A fetch (`zoo_aget_children` with the watch flag) asks for the
    children; serving it takes a snapshot and arms the watch; the next create
    or delete under the queue fires the watch.  Snapshots and child events
    reach the server through one FIFO and are handled one at a time.

    The fields after `log` are history: no step reads them to decide what to do.
 */
module TaskQueue {

  datatype Msg = Snapshot(tasks: set<nat>) | ChildEvent

  /** What the callback thread is doing: nothing, walking a sorted batch
      (`executed`: its first task ran and its delete is still to be sent), or
      waiting for a healthy service level after a child event. */
  datatype Phase = Idle | Batch(todo: seq<nat>, executed: bool) | Waiting

  datatype State = State(
    queue: set<nat>,      // task znodes, by sequence number
    bad: set<nat>,        // tasks whose znode does not hold a usable request
    nextSeq: nat,         // a lower bound for the next sequence number
    inFlight: nat,        // fetches issued and not yet served
    armed: bool,          // the watch on the queue node
    inbox: seq<Msg>,      // callbacks not yet run
    phase: Phase,
    log: seq<nat>,        // requests handed to the OPC UA server, in order
    created: set<nat>,    // tasks that ever existed
    missed: set<nat>,     // tasks that once could not be read
    failed: set<nat>,     // tasks for which a delete had no effect
    latest: set<nat>,     // the latest snapshot served
    fetches: nat,         // fetches issued
    handled: nat,         // child events whose handling is complete
    levels: seq<int>)     // the service level that ended each wait

  datatype Step =
    | Create(id: nat, wellFormed: bool)  // a client adds a sequential znode
    | Serve                              // ZooKeeper answers a fetch
    | Deliver(batch: seq<nat>)           // the snapshot callback starts: sort
    | Execute(got: bool)                 // get and run the first task of the batch
    | Delete(ok: bool)                   // delete it; ok: it took effect, whatever it reports
    | Finish                             // the snapshot callback returns
    | Notice                             // the child event callback starts
    | Read(level: int)                   // one reading of the service level

  /** Service levels 200 to 255 are "healthy" (OPC UA Part 4). */
  const HEALTHY := 200

  ghost predicate Increasing(b: seq<nat>) {
    forall i, j :: 0 <= i < j < |b| ==> b[i] < b[j]
  }

  function Elements(b: seq<nat>): set<nat> {
    set x | x in b
  }

  /** `b` lists the tasks of `tasks` in ascending order. */
  ghost predicate IsSorting(b: seq<nat>, tasks: set<nat>) {
    && Increasing(b)
    && Elements(b) == tasks
    && |b| == |tasks|
  }

  /** A server that has just issued its first fetch, on any queue. */
  ghost predicate Init(s: State) {
    && s.bad <= s.queue == s.created
    && (forall x :: x in s.queue ==> x < s.nextSeq)
    && s.inFlight == 1 && !s.armed && s.inbox == [] && s.phase == Idle
    && s.log == [] && s.missed == {} && s.failed == {} && s.latest == {}
    && s.fetches == 1 && s.handled == 0 && s.levels == []
  }

  ghost predicate Enabled(s: State, step: Step) {
    match step
    case Create(id, _) => id >= s.nextSeq
    case Serve => s.inFlight > 0
    case Deliver(b) =>
      s.phase.Idle? && s.inbox != [] && s.inbox[0].Snapshot? && IsSorting(b, s.inbox[0].tasks)
    case Execute(_) => s.phase.Batch? && s.phase.todo != [] && !s.phase.executed
    case Delete(_) => s.phase.Batch? && s.phase.todo != [] && s.phase.executed
    case Finish => s.phase.Batch? && s.phase.todo == []
    case Notice => s.phase.Idle? && s.inbox != [] && s.inbox[0].ChildEvent?
    case Read(_) => s.phase.Waiting?
  }

  /** A child was created or deleted: an armed watch fires, once. */
  function Fire(s: State): State {
    if s.armed then s.(armed := false, inbox := s.inbox + [ChildEvent]) else s
  }

  function Apply(s: State, step: Step): State {
    match step
    case Create(id, wellFormed) =>
      Fire(s.(queue := s.queue + {id},
              created := s.created + {id},
              bad := if wellFormed then s.bad else s.bad + {id},
              nextSeq := id + 1))
    case Serve =>
      if s.inFlight == 0 then s else
      s.(inFlight := s.inFlight - 1, armed := true,
         inbox := s.inbox + [Snapshot(s.queue)], latest := s.queue)
    case Deliver(b) =>
      if s.inbox == [] then s else
      s.(inbox := s.inbox[1..], phase := Batch(b, false))
    case Execute(got) =>
      if !s.phase.Batch? || s.phase.todo == [] then s else
      var id := s.phase.todo[0];
      // The result of the get is ignored: a missing, unread or malformed document makes
      // the server give up on the task.
      if !got then s.(phase := Batch(s.phase.todo[1..], false), missed := s.missed + {id})
      else if id in s.bad || id !in s.queue then s.(phase := Batch(s.phase.todo[1..], false))
      else s.(log := s.log + [id], phase := s.phase.(executed := true))
    case Delete(ok) =>
      if !s.phase.Batch? || s.phase.todo == [] then s else
      var id := s.phase.todo[0];
      var t := s.(phase := Batch(s.phase.todo[1..], false));
      if ok && id in s.queue then Fire(t.(queue := t.queue - {id}))
      else t.(failed := t.failed + {id})
    case Finish => s.(phase := Idle)
    case Notice =>
      if s.inbox == [] then s else
      s.(inbox := s.inbox[1..], phase := Waiting)
    case Read(level) =>
      if level < HEALTHY then s
      else s.(phase := Idle, inFlight := s.inFlight + 1, fetches := s.fetches + 1,
              handled := s.handled + 1, levels := s.levels + [level])
  }

  function Run(s: State, steps: seq<Step>): State {
    if steps == [] then s else Apply(Run(s, steps[..|steps| - 1]), steps[|steps| - 1])
  }

  ghost predicate ValidRun(s: State, steps: seq<Step>) {
    steps == [] ||
    (ValidRun(s, steps[..|steps| - 1]) && Enabled(Run(s, steps[..|steps| - 1]), steps[|steps| - 1]))
  }

  // ---------------------------------------------------------------- invariant

  /** The tasks of the latest snapshot the server has not dealt with yet. */
  ghost function Pending(s: State): set<nat> {
    if s.inbox != [] && s.inbox[0].Snapshot? then s.inbox[0].tasks
    else if s.phase.Batch? then Elements(s.phase.todo)
    else {}
  }

  ghost predicate Running(s: State, id: nat) {
    s.phase.Batch? && s.phase.executed && s.phase.todo != [] && s.phase.todo[0] == id
  }

  /** Where the watch token is, and what may be in the FIFO beside it. */
  ghost predicate Shape(s: State) {
    || (s.inFlight == 1 && !s.armed && s.inbox == [] && s.phase.Idle?)
    || (s.inFlight == 0 && s.armed && s.inbox == [Snapshot(s.latest)] && s.phase.Idle?)
    || (s.inFlight == 0 && s.armed && s.inbox == [] && !s.phase.Waiting?)
    || (s.inFlight == 0 && !s.armed && s.inbox == [Snapshot(s.latest), ChildEvent] && s.phase.Idle?)
    || (s.inFlight == 0 && !s.armed && s.inbox == [ChildEvent] && !s.phase.Waiting?)
    || (s.inFlight == 0 && !s.armed && s.inbox == [] && s.phase.Waiting?)
  }

  ghost predicate BatchOk(s: State) {
    s.phase.Batch? ==>
      && Increasing(s.phase.todo)
      && (s.phase.executed ==>
            && s.phase.todo != [] && s.phase.todo[0] !in s.bad
            && s.log != [] && s.log[|s.log| - 1] == s.phase.todo[0])
  }

  /** Sequence numbers grow: what is not in the latest snapshot came later. */
  ghost predicate Bounds(s: State) {
    && s.bad <= s.queue <= s.created && s.latest <= s.created && s.failed <= Elements(s.log)
    && s.missed <= s.created
    && (forall x :: x in s.created ==> x < s.nextSeq)
    && (forall y :: y in s.log ==> y in s.created && y !in s.bad)
    && (forall x, y :: x in s.queue && x !in s.latest && y in s.latest ==> y < x)
    && (forall x, y :: x in s.queue && x !in s.latest && y in s.log ==> y < x)
  }

  /** What a snapshot brought is still queued until it is dealt with; what was
      dealt with and is still queued was malformed, not read or not deleted. */
  ghost predicate Coverage(s: State) {
    && (s.armed ==> s.queue == s.latest)
    && Pending(s) <= s.queue * s.latest
    && (forall x :: x in s.queue && x in s.latest && x !in Pending(s) ==>
          x in s.bad || x in s.failed || x in s.missed)
    && (forall x :: x in s.created && x !in s.queue ==> x in s.log)
  }

  /** A task that repeats is one whose delete failed; a task that runs after a younger
      one is one whose get or delete failed. */
  ghost predicate Ordered(s: State) {
    && (forall i, j :: 0 <= i < j < |s.log| ==> InOrder(s, s.log[i], s.log[j]))
    && (forall b, y :: b in Pending(s) && b !in s.bad && !Running(s, b) && y in s.log ==>
          y < b || b in s.failed || b in s.missed)
    && (forall x :: x in s.queue && x in s.log && !Running(s, x) ==> x in s.failed)
  }

  /** Why `y` may run after `x`. */
  ghost predicate InOrder(s: State, x: nat, y: nat) {
    x < y || y in s.failed || (x != y && y in s.missed)
  }

  ghost predicate Counters(s: State) {
    && s.fetches == 1 + s.handled
    && |s.levels| == s.handled
    && (forall i :: 0 <= i < |s.levels| ==> s.levels[i] >= HEALTHY)
  }

  ghost predicate Inv(s: State) {
    Shape(s) && BatchOk(s) && Bounds(s) && Coverage(s) && Ordered(s) && Counters(s)
  }

  lemma InitInv(s: State)
    requires Init(s)
    ensures Inv(s)
  {
  }

  lemma CreateInv(s: State, id: nat, wellFormed: bool)
    requires Inv(s) && id >= s.nextSeq
    ensures Inv(Apply(s, Create(id, wellFormed)))
  {
    var t := Apply(s, Create(id, wellFormed));
    assert Pending(t) == Pending(s);
    assert id !in s.created;
  }

  lemma ServeInv(s: State)
    requires Inv(s) && s.inFlight > 0
    ensures Inv(Apply(s, Serve))
  {
  }

  lemma DeliverInv(s: State, b: seq<nat>)
    requires Inv(s) && Enabled(s, Deliver(b))
    ensures Inv(Apply(s, Deliver(b)))
  {
    assert Pending(Apply(s, Deliver(b))) == Pending(s);
  }

  lemma TailElements(b: seq<nat>)
    requires b != [] && Increasing(b)
    ensures Increasing(b[1..])
    ensures Elements(b[1..]) == Elements(b) - {b[0]}
    ensures forall x :: x in b[1..] ==> b[0] < x
  {
    assert b == [b[0]] + b[1..];
  }

  lemma SkipInv(s: State, got: bool)
    requires Inv(s) && Enabled(s, Execute(got)) && (!got || s.phase.todo[0] in s.bad)
    ensures Inv(Apply(s, Execute(got)))
  {
    var t := Apply(s, Execute(got));
    TailElements(s.phase.todo);
    assert Pending(t) == Pending(s) - {s.phase.todo[0]};
  }

  /** The task about to run is younger than all that ran, or its get or delete failed
      before. */
  lemma NextTask(s: State)
    requires Inv(s) && Enabled(s, Execute(true))
    ensures var id := s.phase.todo[0];
            && id in s.queue && id in s.latest
            && (id !in s.bad ==> forall y :: y in s.log ==> InOrder(s, y, id))
  {
    assert s.phase.todo[0] in Pending(s);
  }

  lemma LogInv(s: State)
    requires Inv(s) && Enabled(s, Execute(true)) && s.phase.todo[0] !in s.bad
    ensures Inv(Apply(s, Execute(true)))
  {
    var t := Apply(s, Execute(true));
    var id := s.phase.todo[0];
    TailElements(s.phase.todo);
    NextTask(s);
    assert t.log == s.log + [id] && Pending(t) == Pending(s);
    assert forall y :: y in t.log <==> y in s.log || y == id;
    assert Ordered(t) by {
      assert forall i :: 0 <= i < |s.log| ==> s.log[i] in s.log;
    }
  }

  lemma ExecuteInv(s: State, got: bool)
    requires Inv(s) && Enabled(s, Execute(got))
    ensures Inv(Apply(s, Execute(got)))
  {
    if !got || s.phase.todo[0] in s.bad {
      SkipInv(s, got);
    } else {
      LogInv(s);
    }
  }

  lemma DeleteInv(s: State, ok: bool)
    requires Inv(s) && Enabled(s, Delete(ok))
    ensures Inv(Apply(s, Delete(ok)))
  {
    var t := Apply(s, Delete(ok));
    TailElements(s.phase.todo);
    assert Pending(t) == Pending(s) - {s.phase.todo[0]};
    assert s.phase.todo[0] in s.log;
  }

  lemma RestInv(s: State, step: Step)
    requires Inv(s) && Enabled(s, step) && (step.Finish? || step.Notice? || step.Read?)
    ensures Inv(Apply(s, step))
  {
    assert Pending(Apply(s, step)) == Pending(s);
  }

  lemma StepInv(s: State, step: Step)
    requires Inv(s) && Enabled(s, step)
    ensures Inv(Apply(s, step))
  {
    match step
    case Create(id, wellFormed) => CreateInv(s, id, wellFormed);
    case Serve => ServeInv(s);
    case Deliver(b) => DeliverInv(s, b);
    case Execute(got) => ExecuteInv(s, got);
    case Delete(ok) => DeleteInv(s, ok);
    case _ => RestInv(s, step);
  }

  lemma {:induction false} RunInv(s: State, steps: seq<Step>)
    requires Inv(s) && ValidRun(s, steps)
    ensures Inv(Run(s, steps))
  {
    if steps != [] {
      RunInv(s, steps[..|steps| - 1]);
      StepInv(Run(s, steps[..|steps| - 1]), steps[|steps| - 1]);
    }
  }
}
