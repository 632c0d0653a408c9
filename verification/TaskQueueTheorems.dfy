/** What the task queue guarantees over whole runs. */
module TaskQueueTheorems {
  import opened TaskQueue

  // ------------------------------------------------------------------- safety

  /** Tasks run in submission order, each at most once, across all batches: in every
      run a task that repeats is one whose delete was refused, and a task that runs
      after a younger one is one whose delete was refused or that could not be read
      before.  Malformed tasks never run and are never deleted. */
  lemma SubmissionOrder(s0: State, steps: seq<Step>)
    requires Init(s0) && ValidRun(s0, steps)
    ensures var s := Run(s0, steps);
            forall i, j :: 0 <= i < j < |s.log| ==> InOrder(s, s.log[i], s.log[j])
    ensures var s := Run(s0, steps);
            s.failed == {} == s.missed ==> Increasing(s.log)
    ensures var s := Run(s0, steps);
            s.bad <= s.queue && forall y :: y in s.log ==> y !in s.bad
  {
    InitInv(s0);
    RunInv(s0, steps);
    var s := Run(s0, steps);
    assert forall i, j :: 0 <= i < j < |s.log| ==> InOrder(s, s.log[i], s.log[j]);
  }

  /** What one step adds to the log. */
  lemma StepLogs(p: State, step: Step)
    requires Inv(p) && Enabled(p, step)
    ensures var t := Apply(p, step);
            && p.missed <= t.missed
            && (t.log == p.log ||
                exists id :: t.log == p.log + [id]
                  && forall y :: y in p.log ==> y < id || id in p.log || id in p.missed)
  {
    if step.Execute? && step.got && p.phase.todo[0] !in p.bad {
      NextTask(p);
      var id := p.phase.todo[0];
      assert id in p.failed ==> id in p.log;
      assert forall y :: y in p.log ==> InOrder(p, y, id);
      assert Apply(p, step).log == p.log + [id];
    }
  }

  /** The first executions of tasks that could be read are in submission order,
      whatever the deletes do. */
  lemma {:induction false} FirstExecutionsInOrder(s0: State, steps: seq<Step>, i: nat, j: nat)
    requires Init(s0) && ValidRun(s0, steps)
    requires i < j < |Run(s0, steps).log|
    requires Run(s0, steps).log[j] !in Run(s0, steps).log[..j]
    requires Run(s0, steps).log[j] !in Run(s0, steps).missed
    ensures Run(s0, steps).log[i] < Run(s0, steps).log[j]
    decreases |steps|
  {
    var pre, step := steps[..|steps| - 1], steps[|steps| - 1];
    InitInv(s0);
    RunInv(s0, pre);
    var p := Run(s0, pre).log;
    StepLogs(Run(s0, pre), step);
    var l := Run(s0, steps).log;
    if j < |p| {
      assert l[..j] == p[..j];
      FirstExecutionsInOrder(s0, pre, i, j);
    } else {
      assert l == p + [l[j]] && l[..j] == p && p[i] in p;
    }
  }

  function EventsIn(inbox: seq<Msg>): nat {
    if inbox == [] then 0 else (if inbox[0].ChildEvent? then 1 else 0) + EventsIn(inbox[1..])
  }

  function Tokens(s: State): nat {
    s.inFlight + (if s.armed then 1 else 0) + EventsIn(s.inbox) + (if s.phase.Waiting? then 1 else 0)
  }

  /** There is exactly one of: a fetch in flight, an armed watch, a child event
      undelivered or being handled.  So fetches are one more than handled child
      events, and each fetch but the first followed a healthy reading. */
  lemma TokenConservation(s0: State, steps: seq<Step>)
    requires Init(s0) && ValidRun(s0, steps)
    ensures var s := Run(s0, steps);
            && Tokens(s) == 1
            && s.fetches == 1 + s.handled && |s.levels| == s.handled
            && forall i :: 0 <= i < |s.levels| ==> s.levels[i] >= 200
  {
    InitInv(s0);
    RunInv(s0, steps);
    var s := Run(s0, steps);
    assert EventsIn([ChildEvent]) == 1;
    assert EventsIn([Snapshot(s.latest)]) == 0;
    assert [Snapshot(s.latest), ChildEvent][1..] == [ChildEvent];
    assert EventsIn([Snapshot(s.latest), ChildEvent]) == 1;
  }

  /** While the watch is armed the queue is exactly the latest snapshot: a create, and a
      delete by the server itself, fires the watch. */
  lemma ArmedMeansUnchanged(s0: State, steps: seq<Step>)
    requires Init(s0) && ValidRun(s0, steps)
    ensures var s := Run(s0, steps);
            s.armed ==> s.queue == s.latest
  {
    InitInv(s0);
    RunInv(s0, steps);
  }

  /** No fetch is answered while an earlier snapshot is undelivered or being walked. */
  lemma SnapshotsDoNotOverlap(s0: State, steps: seq<Step>)
    requires Init(s0) && ValidRun(s0, steps)
    requires Enabled(Run(s0, steps), Serve)
    ensures var s := Run(s0, steps); s.inbox == [] && s.phase.Idle? && Pending(s) == {}
  {
    InitInv(s0);
    RunInv(s0, steps);
  }

  /** No lost wakeup: a queued task the latest snapshot missed has a fetch in
      flight or a child event on its way. */
  lemma NoLostWakeup(s0: State, steps: seq<Step>, id: nat)
    requires Init(s0) && ValidRun(s0, steps)
    requires id in Run(s0, steps).queue && id !in Run(s0, steps).latest
    ensures var s := Run(s0, steps);
            s.inFlight > 0 || ChildEvent in s.inbox || s.phase.Waiting?
  {
    InitInv(s0);
    RunInv(s0, steps);
  }

  /** Nothing is in flight, undelivered or running: only a client can move. */
  ghost predicate Quiescent(s: State) {
    s.inFlight == 0 && s.inbox == [] && s.phase.Idle?
  }

  /** No task is lost: when the system is quiet, every well-formed task ever created
      was executed or could not be read, and what is still queued was attempted. */
  lemma QuiescentMeansDone(s0: State, steps: seq<Step>)
    requires Init(s0) && ValidRun(s0, steps)
    requires Quiescent(Run(s0, steps))
    ensures var s := Run(s0, steps);
            && s.armed
            && s.queue <= s.bad + s.failed + s.missed
            && s.created - s.bad - s.missed <= Elements(s.log) <= s.created - s.bad
    ensures var s := Run(s0, steps);
            s.failed == {} == s.missed ==> s.queue == s.bad && IsSorting(s.log, s.created - s.bad)
  {
    InitInv(s0);
    RunInv(s0, steps);
    var s := Run(s0, steps);
    assert Pending(s) == {};
    if s.failed == {} == s.missed {
      SubmissionOrder(s0, steps);
      CardinalityOfIncreasing(s.log);
    }
  }

  lemma {:induction false} CardinalityOfIncreasing(b: seq<nat>)
    requires Increasing(b)
    ensures |Elements(b)| == |b|
  {
    if b != [] {
      TailElements(b);
      CardinalityOfIncreasing(b[1..]);
      assert b[0] !in Elements(b[1..]);
      assert Elements(b) == Elements(b[1..]) + {b[0]};
    }
  }

  // ----------------------------------------------------------------- progress

  /** Steps of ZooKeeper and the server while clients are quiet, gets and deletes
      succeed and the service level is healthy. */
  ghost predicate Healthy(s: State, step: Step) {
    && Enabled(s, step)
    && !step.Create?
    && (step.Execute? ==> step.got)
    && (step.Delete? ==> step.ok)
    && (step.Read? ==> step.level >= HEALTHY)
  }

  ghost predicate HealthyRun(s: State, steps: seq<Step>) {
    steps == [] ||
    (HealthyRun(s, steps[..|steps| - 1]) && Healthy(Run(s, steps[..|steps| - 1]), steps[|steps| - 1]))
  }

  /** How far the watch token is from being armed again. */
  function TokenRank(s: State): nat {
    if s.armed then 0 else if s.inFlight > 0 then 1 else if s.phase.Waiting? then 2 else 3
  }

  /** Steps left in the snapshot at hand. */
  function SnapshotWork(s: State): nat {
    if s.inbox != [] && s.inbox[0].Snapshot? then 2 * |s.inbox[0].tasks| + 2
    else if s.phase.Batch? then 2 * |s.phase.todo| + 1 - (if s.phase.executed && s.phase.todo != [] then 1 else 0)
    else 0
  }

  /** Work left when the queue never holds more than `n` tasks: each well-formed
      task can send the token round once more. */
  function Work(s: State, n: nat): nat {
    (3 * |s.queue - s.bad| + TokenRank(s)) * (2 * n + 3) + SnapshotWork(s)
  }

  lemma SubsetCardinality(a: set<nat>, b: set<nat>)
    requires a <= b
    ensures |a| <= |b|
  {
    assert b == a + (b - a);
  }

  lemma PendingInQueue(s: State)
    requires Inv(s)
    ensures |Pending(s)| <= |s.queue|
    ensures s.phase.Batch? ==> |s.phase.todo| == |Pending(s)|
  {
    SubsetCardinality(Pending(s), s.queue);
    if s.phase.Batch? {
      CardinalityOfIncreasing(s.phase.todo);
    }
  }

  lemma {:induction false} ProductDecreases(a: nat, a': nat, c: nat)
    requires a' < a
    ensures a' * c + c <= a * c
  {
    assert a * c == (a - 1) * c + c;
    if a' + 1 < a {
      ProductDecreases(a - 1, a', c);
    }
  }

  lemma TokenStepDecreasesWork(s: State, step: Step, n: nat)
    requires Inv(s) && Healthy(s, step) && |s.queue| <= n
    requires step.Serve? || step.Notice? || step.Read?
    ensures Work(Apply(s, step), n) < Work(s, n)
  {
    var t := Apply(s, step);
    assert t.queue == s.queue && t.bad == s.bad && TokenRank(t) == TokenRank(s) - 1;
    assert SnapshotWork(t) < SnapshotWork(s) + 2 * n + 3;
    var a := 3 * |s.queue - s.bad| + TokenRank(s);
    ProductDecreases(a, a - 1, 2 * n + 3);
  }

  lemma BatchStepDecreasesWork(s: State, step: Step, n: nat)
    requires Inv(s) && Healthy(s, step)
    requires step.Deliver? || step.Execute? || step.Finish?
    ensures Work(Apply(s, step), n) < Work(s, n)
  {
    var t := Apply(s, step);
    assert t.queue == s.queue && t.bad == s.bad && TokenRank(t) == TokenRank(s);
    assert SnapshotWork(t) < SnapshotWork(s);
  }

  lemma DeleteDecreasesWork(s: State, n: nat)
    requires Inv(s) && Enabled(s, Delete(true))
    ensures Work(Apply(s, Delete(true)), n) < Work(s, n)
  {
    var t := Apply(s, Delete(true));
    var id := s.phase.todo[0];
    assert id in s.queue - s.bad by { assert id in Pending(s); }
    assert t.queue - t.bad == (s.queue - s.bad) - {id};
    assert SnapshotWork(t) < SnapshotWork(s);
    var a, a' := 3 * |s.queue - s.bad| + TokenRank(s), 3 * |t.queue - t.bad| + TokenRank(t);
    assert a' <= a;
    if a' < a { ProductDecreases(a, a', 2 * n + 3); }
  }

  lemma StepDecreasesWork(s: State, step: Step, n: nat)
    requires Inv(s) && Healthy(s, step) && |s.queue| <= n
    ensures Work(Apply(s, step), n) < Work(s, n)
  {
    match step
    case Delete(_) => DeleteDecreasesWork(s, n);
    case Serve => TokenStepDecreasesWork(s, step, n);
    case Notice => TokenStepDecreasesWork(s, step, n);
    case Read(_) => TokenStepDecreasesWork(s, step, n);
    case _ => BatchStepDecreasesWork(s, step, n);
  }

  /** A healthy step only removes tasks. */
  lemma HealthyStepKeeps(s: State, step: Step)
    requires Inv(s) && Healthy(s, step)
    ensures var t := Apply(s, step);
            t.queue <= s.queue && t.bad == s.bad && t.failed == s.failed && t.missed == s.missed
            && t.created == s.created
  {
    if step.Delete? {
      assert s.phase.todo[0] in Pending(s);
    }
  }

  lemma {:induction false} RunSpendsWork(s: State, steps: seq<Step>)
    requires Inv(s) && HealthyRun(s, steps)
    ensures var t := Run(s, steps);
            && |steps| + Work(t, |s.queue|) <= Work(s, |s.queue|)
            && t.queue <= s.queue && t.bad == s.bad && t.failed == s.failed && t.missed == s.missed
            && t.created == s.created
    ensures ValidRun(s, steps) && Inv(Run(s, steps))
  {
    if steps != [] {
      var pre := steps[..|steps| - 1];
      RunSpendsWork(s, pre);
      SubsetCardinality(Run(s, pre).queue, s.queue);
      StepDecreasesWork(Run(s, pre), steps[|steps| - 1], |s.queue|);
      HealthyStepKeeps(Run(s, pre), steps[|steps| - 1]);
      StepInv(Run(s, pre), steps[|steps| - 1]);
    }
  }

  lemma WorkBound(s: State)
    requires Inv(s)
    ensures Work(s, |s.queue|) <= (3 * |s.queue - s.bad| + 4) * (2 * |s.queue| + 3)
  {
    PendingInQueue(s);
    var a, c := 3 * |s.queue - s.bad| + TokenRank(s), 2 * |s.queue| + 3;
    assert SnapshotWork(s) < c;
    ProductDecreases(3 * |s.queue - s.bad| + 4, a, c);
  }

  lemma Prepending(m: nat, rest: seq<nat>, tasks: set<nat>)
    requires m in tasks && (forall x :: x in tasks ==> m <= x) && IsSorting(rest, tasks - {m})
    ensures IsSorting([m] + rest, tasks)
  {
    var b := [m] + rest;
    forall i, j | 0 <= i < j < |b| ensures b[i] < b[j] {
      assert b[j] == rest[j - 1] && rest[j - 1] in Elements(rest);
      assert i > 0 ==> b[i] == rest[i - 1];
    }
    assert Elements(b) == {m} + Elements(rest);
  }

  lemma {:induction false} SortingExists(tasks: set<nat>) returns (b: seq<nat>)
    ensures IsSorting(b, tasks)
    decreases |tasks|
  {
    if tasks == {} {
      b := [];
    } else {
      var m := Least(tasks);
      var rest := SortingExists(tasks - {m});
      Prepending(m, rest, tasks);
      b := [m] + rest;
    }
  }

  /** A set has one sorting: every correct sort delivers the same batch. */
  lemma {:induction false} SortingUnique(a: seq<nat>, b: seq<nat>, tasks: set<nat>)
    requires IsSorting(a, tasks) && IsSorting(b, tasks)
    ensures a == b
    decreases |a|
  {
    if a != [] {
      TailElements(a);
      TailElements(b);
      assert a[0] in Elements(b) && b[0] in Elements(a);
      assert a == [a[0]] + a[1..] && b == [b[0]] + b[1..];
      SortingUnique(a[1..], b[1..], tasks - {a[0]});
    }
  }

  lemma {:induction false} Least(tasks: set<nat>) returns (m: nat)
    requires tasks != {}
    ensures m in tasks && forall x :: x in tasks ==> m <= x
    decreases |tasks|
  {
    m :| m in tasks;
    if tasks != {m} {
      var k := Least(tasks - {m});
      assert forall x :: x in tasks ==> x == m || x in tasks - {m};
      m := if k < m then k else m;
    }
  }

  /** Until it is quiet, the system can always move without its clients. */
  lemma Progress(s: State) returns (step: Step)
    requires Inv(s) && !Quiescent(s)
    ensures Healthy(s, step)
  {
    if s.inFlight > 0 {
      step := Serve;
    } else if s.phase.Waiting? {
      step := Read(HEALTHY);
    } else if s.phase.Batch? {
      step := if s.phase.todo == [] then Finish else if s.phase.executed then Delete(true) else Execute(true);
    } else if s.inbox[0].ChildEvent? {
      step := Notice;
    } else {
      var b := SortingExists(s.inbox[0].tasks);
      step := Deliver(b);
    }
  }

  /** With clients quiet, gets and deletes succeeding and the service level healthy,
      every sequence of steps has a bounded length, and one that cannot be extended
      leaves no well-formed task queued (but for those whose get or delete had failed
      before).  That holds although the first delete of a batch makes the server fetch
      again. */
  lemma QueueDrains(s0: State, past: seq<Step>, steps: seq<Step>)
    requires Init(s0) && ValidRun(s0, past)
    requires HealthyRun(Run(s0, past), steps)
    ensures var s := Run(s0, past);
            |steps| <= (3 * |s.queue - s.bad| + 4) * (2 * |s.queue| + 3)
    ensures var s, t := Run(s0, past), Run(Run(s0, past), steps);
            (forall step :: !Healthy(t, step)) ==>
              && t.queue <= s.bad + s.failed + s.missed
              && s.created - s.bad - s.missed <= Elements(t.log) <= s.created - s.bad
              && (s.failed == {} == s.missed ==> t.queue == s.bad && IsSorting(t.log, s.created - s.bad))
  {
    InitInv(s0);
    RunInv(s0, past);
    var s := Run(s0, past);
    RunSpendsWork(s, steps);
    WorkBound(s);
    var t := Run(s, steps);
    if forall step :: !Healthy(t, step) {
      if !Quiescent(t) {
        var step := Progress(t);
        assert false;
      }
      RunAppend(s0, past, steps);
      QuiescentMeansDone(s0, past + steps);
    }
  }

  /** And such a sequence always exists: the system does become quiet. */
  lemma {:induction false} ReachesQuiescence(s: State) returns (steps: seq<Step>)
    requires Inv(s)
    ensures HealthyRun(s, steps) && Quiescent(Run(s, steps))
    decreases Work(s, |s.queue|)
  {
    if Quiescent(s) {
      steps := [];
    } else {
      var step := Progress(s);
      var t := Apply(s, step);
      StepInv(s, step);
      StepDecreasesWork(s, step, |s.queue|);
      HealthyStepKeeps(s, step);
      SubsetCardinality(t.queue, s.queue);
      WorkMonotone(t, |t.queue|, |s.queue|);
      var rest := ReachesQuiescence(t);
      steps := [step] + rest;
      assert [step][..0] == [] && Run(s, []) == s && HealthyRun(s, []);
      assert Run(s, [step]) == t && HealthyRun(s, [step]);
      HealthyAppend(s, [step], rest);
    }
  }

  lemma WorkMonotone(s: State, m: nat, n: nat)
    requires m <= n
    ensures Work(s, m) <= Work(s, n)
  {
    var a := 3 * |s.queue - s.bad| + TokenRank(s);
    assert a * (2 * n + 3) - a * (2 * m + 3) == a * (2 * (n - m));
  }

  lemma {:induction false} RunAppend(s: State, a: seq<Step>, b: seq<Step>)
    requires ValidRun(s, a) && ValidRun(Run(s, a), b)
    ensures ValidRun(s, a + b) && Run(s, a + b) == Run(Run(s, a), b)
  {
    if b == [] {
      assert a + b == a;
    } else {
      RunAppend(s, a, b[..|b| - 1]);
      assert (a + b)[..|a + b| - 1] == a + b[..|b| - 1];
    }
  }

  lemma {:induction false} HealthyAppend(s: State, a: seq<Step>, b: seq<Step>)
    requires HealthyRun(s, a) && HealthyRun(Run(s, a), b)
    ensures HealthyRun(s, a + b) && Run(s, a + b) == Run(Run(s, a), b)
  {
    if b == [] {
      assert a + b == a;
    } else {
      HealthyAppend(s, a, b[..|b| - 1]);
      assert (a + b)[..|a + b| - 1] == a + b[..|b| - 1];
    }
  }
}
