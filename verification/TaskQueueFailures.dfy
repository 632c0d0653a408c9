/** What a failed get or a refused delete costs, task by task, and that nothing else
    does. */
module TaskQueueFailures {
  import opened TaskQueue
  import opened TaskQueueTheorems

  /** Task `x` never runs after itself or a younger one. */
  ghost predicate InItsTurn(log: seq<nat>, x: nat) {
    forall i, j :: 0 <= i < j < |log| && log[j] == x ==> log[i] < x
  }

  ghost predicate AtMostOnce(log: seq<nat>, x: nat) {
    forall i, j :: 0 <= i < j < |log| && log[j] == x ==> log[i] != x
  }

  /** A run in which only gets of `mayMiss` and deletes of `mayRefuse` fail. */
  ghost predicate Allowed(s0: State, steps: seq<Step>, mayMiss: iset<nat>, mayRefuse: iset<nat>) {
    && Init(s0) && ValidRun(s0, steps)
    && (forall y :: y in Run(s0, steps).missed ==> y in mayMiss)
    && (forall y :: y in Run(s0, steps).failed ==> y in mayRefuse)
  }

  /** A task runs in its turn in all runs exactly when neither its get nor its delete may
      fail, whatever becomes of the others. */
  lemma TaskInTurnExactly(x: nat, mayMiss: iset<nat>, mayRefuse: iset<nat>)
    ensures (forall s0, steps :: Allowed(s0, steps, mayMiss, mayRefuse) ==> InItsTurn(Run(s0, steps).log, x))
            <==> x !in mayMiss && x !in mayRefuse
  {
    if x in mayMiss {
      var s0, steps := MissedTaskRunsLate(x);
      NotInTurn(Run(s0, steps).log, x);
      assert Allowed(s0, steps, mayMiss, mayRefuse);
    } else if x in mayRefuse {
      var s0, steps := RefusedTaskRepeats(x);
      NotInTurn(Run(s0, steps).log, x);
      assert Allowed(s0, steps, mayMiss, mayRefuse);
    } else {
      forall s0, steps | Allowed(s0, steps, mayMiss, mayRefuse) ensures InItsTurn(Run(s0, steps).log, x) {
        WhyOutOfTurn(s0, steps);
      }
    }
  }

  /** It runs at most once in all runs exactly when its delete may not be refused. */
  lemma TaskOnceExactly(x: nat, mayMiss: iset<nat>, mayRefuse: iset<nat>)
    ensures (forall s0, steps :: Allowed(s0, steps, mayMiss, mayRefuse) ==> AtMostOnce(Run(s0, steps).log, x))
            <==> x !in mayRefuse
  {
    if x in mayRefuse {
      var s0, steps := RefusedTaskRepeats(x);
      NotInTurn(Run(s0, steps).log, x);
      assert Allowed(s0, steps, mayMiss, mayRefuse);
    } else {
      forall s0, steps | Allowed(s0, steps, mayMiss, mayRefuse) ensures AtMostOnce(Run(s0, steps).log, x) {
        WhyOutOfTurn(s0, steps);
      }
    }
  }

  /** All tasks run in submission order in all runs exactly when no get and no delete
      may fail. */
  lemma InOrderExactlyWhenNothingFails(mayMiss: iset<nat>, mayRefuse: iset<nat>)
    ensures (forall s0, steps :: Allowed(s0, steps, mayMiss, mayRefuse) ==> Increasing(Run(s0, steps).log))
            <==> mayMiss == iset{} && mayRefuse == iset{}
  {
    if x: nat :| x in mayMiss || x in mayRefuse {
      TaskInTurnExactly(x, mayMiss, mayRefuse);
      var s0, steps :| Allowed(s0, steps, mayMiss, mayRefuse) && !InItsTurn(Run(s0, steps).log, x);
    } else {
      forall s0, steps | Allowed(s0, steps, mayMiss, mayRefuse) ensures Increasing(Run(s0, steps).log) {
        WhyOutOfTurn(s0, steps);
      }
    }
  }

  /** All tasks run at most once in all runs exactly when no delete may be refused. */
  lemma OnceExactlyWhenDeletesSucceed(mayMiss: iset<nat>, mayRefuse: iset<nat>)
    ensures (forall s0, steps, x: nat :: Allowed(s0, steps, mayMiss, mayRefuse) ==> AtMostOnce(Run(s0, steps).log, x))
            <==> mayRefuse == iset{}
  {
    if x: nat :| x in mayRefuse {
      TaskOnceExactly(x, mayMiss, mayRefuse);
    } else {
      forall s0, steps, x: nat | Allowed(s0, steps, mayMiss, mayRefuse) ensures AtMostOnce(Run(s0, steps).log, x) {
        WhyOutOfTurn(s0, steps);
      }
    }
  }

  lemma WhyOutOfTurn(s0: State, steps: seq<Step>)
    requires Init(s0) && ValidRun(s0, steps)
    ensures var s := Run(s0, steps);
            forall i, j :: 0 <= i < j < |s.log| ==>
              s.log[i] < s.log[j] || s.log[j] in s.failed || (s.log[i] != s.log[j] && s.log[j] in s.missed)
  {
    SubmissionOrder(s0, steps);
    var s := Run(s0, steps);
    assert forall i, j :: 0 <= i < j < |s.log| ==> InOrder(s, s.log[i], s.log[j]);
  }

  lemma NotInTurn(log: seq<nat>, x: nat)
    requires |log| == 2 && log[1] == x
    ensures log[0] >= x ==> !InItsTurn(log, x)
    ensures log[0] == x ==> !AtMostOnce(log, x)
  {
    assert log[1] == x;
  }

  // ---------------------------------------------------------- runs with failures

  /** A task that could not be read runs after the younger one beside it. */
  lemma MissedTaskRunsLate(x: nat) returns (s0: State, steps: seq<Step>)
    ensures Init(s0) && ValidRun(s0, steps)
    ensures var s := Run(s0, steps); s.log == [x + 1, x] && s.missed == {x} && s.failed == {}
  {
    s0 := Fresh({x, x + 1}, x + 2);
    SmallSortings(x);
    steps := FirstBatch(s0, [x, x + 1]);
    steps := Extend(s0, steps, Execute(false));
    steps := RunOne(s0, steps, x + 1, {x, x + 1});
    assert {x, x + 1} - {x + 1} == {x};
    steps := NextBatch(s0, steps, [x]);
  }

  lemma SmallSortings(x: nat)
    ensures IsSorting([x], {x}) && IsSorting([x, x + 1], {x, x + 1}) && [x, x + 1][1..] == [x + 1]
  {
  }

  /** The last task of a batch runs and is deleted, which fires the watch. */
  lemma RunOne(s0: State, past: seq<Step>, id: nat, queue: set<nat>) returns (steps: seq<Step>)
    requires ValidRun(s0, past) && id in queue
    requires var s := Run(s0, past);
             && s.phase == Batch([id], false) && s.inbox == [] && s.armed && s.inFlight == 0
             && s.queue == queue && s.bad == {}
    ensures ValidRun(s0, steps)
    ensures var s, t := Run(s0, past), Run(s0, steps);
            && t.log == s.log + [id] && t.missed == s.missed && t.failed == s.failed && t.bad == {}
            && t.queue == queue - {id} && t.phase.Idle? && t.inbox == [ChildEvent] && t.inFlight == 0
  {
    steps := Extend(s0, past, Execute(true));
    steps := Extend(s0, steps, Delete(true));
    steps := Extend(s0, steps, Finish);
  }

  /** A task whose delete was refused runs again. */
  lemma RefusedTaskRepeats(x: nat) returns (s0: State, steps: seq<Step>)
    ensures Init(s0) && ValidRun(s0, steps)
    ensures var s := Run(s0, steps); s.log == [x, x] && s.missed == {} && s.failed == {x}
  {
    s0 := Fresh({x}, x + 1);
    SmallSortings(x);
    steps := FirstBatch(s0, [x]);
    steps := RunRefused(s0, steps, x, {x});
    assert {x} + {x + 1} == {x, x + 1};
    steps := NextBatch(s0, steps, [x, x + 1]);
  }

  /** The last task of a batch runs and is not deleted, while a client adds the next. */
  lemma RunRefused(s0: State, past: seq<Step>, id: nat, queue: set<nat>) returns (steps: seq<Step>)
    requires ValidRun(s0, past) && id in queue
    requires var s := Run(s0, past);
             && s.phase == Batch([id], false) && s.inbox == [] && s.armed && s.inFlight == 0
             && s.queue == queue && s.bad == {} && s.nextSeq == id + 1
    ensures ValidRun(s0, steps)
    ensures var s, t := Run(s0, past), Run(s0, steps);
            && t.log == s.log + [id] && t.missed == s.missed && t.failed == s.failed + {id} && t.bad == {}
            && t.queue == queue + {id + 1} && t.phase.Idle? && t.inbox == [ChildEvent] && t.inFlight == 0
  {
    steps := Extend(s0, past, Create(id + 1, true));
    steps := Extend(s0, steps, Execute(true));
    steps := Extend(s0, steps, Delete(false));
    steps := Extend(s0, steps, Finish);
  }

  /** The first fetch is answered and its batch begins. */
  lemma FirstBatch(s0: State, b: seq<nat>) returns (steps: seq<Step>)
    requires Init(s0) && IsSorting(b, s0.queue)
    ensures ValidRun(s0, steps)
    ensures Run(s0, steps) == s0.(inFlight := 0, armed := true, phase := Batch(b, false), latest := s0.queue)
  {
    steps := Extend(s0, [], Serve);
    steps := Extend(s0, steps, Deliver(b));
  }

  /** A server that has just asked for the well-formed tasks `queue`. */
  function Fresh(queue: set<nat>, nextSeq: nat): State {
    State(queue, {}, nextSeq, 1, false, [], Idle, [], queue, {}, {}, {}, 1, 0, [])
  }

  /** An undelivered child event leads to the first task of the next batch. */
  lemma NextBatch(s0: State, past: seq<Step>, b: seq<nat>) returns (steps: seq<Step>)
    requires ValidRun(s0, past)
    requires var s := Run(s0, past);
             && s.inbox == [ChildEvent] && s.phase.Idle? && s.inFlight == 0
             && IsSorting(b, s.queue) && b != [] && b[0] !in s.bad
    ensures ValidRun(s0, steps)
    ensures var s, t := Run(s0, past), Run(s0, steps);
            t.log == s.log + [b[0]] && t.missed == s.missed && t.failed == s.failed
  {
    assert [ChildEvent][1..] == [];
    steps := Extend(s0, past, Notice);
    steps := Extend(s0, steps, Read(HEALTHY));
    steps := Extend(s0, steps, Serve);
    steps := Extend(s0, steps, Deliver(b));
    assert b[0] in Elements(b);
    steps := Extend(s0, steps, Execute(true));
  }

  lemma Extend(s0: State, steps: seq<Step>, step: Step) returns (more: seq<Step>)
    requires ValidRun(s0, steps) && Enabled(Run(s0, steps), step)
    ensures ValidRun(s0, more) && Run(s0, more) == Apply(Run(s0, steps), step)
  {
    more := steps + [step];
    assert more[..|more| - 1] == steps;
  }
}
