/** Exactly when a server that finds the Queue node may rely on the rest of the set-up,
    for each starting state and each set of creates that may fail. */
module QueueSetupSafety {
  import opened QueueSetup

  predicate Fails(step: Step) {
    (step.CreateServers? && !step.done) || (step.Send? && !step.ok)
  }

  /** The create that a failing step fails. */
  function Create(step: Step): Node {
    if step.Send? then step.n else Servers
  }

  /** Only the creates of `mayFail`, by server, fail. */
  ghost predicate OnlyFails(steps: seq<Step>, mayFail: iset<(nat, Node)>) {
    forall k :: 0 <= k < |steps| && Fails(steps[k]) ==> (steps[k].i, Create(steps[k])) in mayFail
  }

  ghost predicate SessionIs(s: State, i: nat, me: Session) {
    i < |s.sessions| && s.sessions[i] == me
  }

  ghost predicate Safe(nodes: set<Node>) {
    Queue in nodes ==> Complete(nodes)
  }

  /** The Active node exists beforehand; or no server's create of it may fail, and of two
      or more servers each makes /Servers and the group's node unless that exists. */
  ghost predicate Condition(s0: State, mayFail: iset<(nat, Node)>) {
    Active in s0.nodes ||
    forall i: nat :: i < |s0.sessions| ==>
      && (i, Active) !in mayFail
      && (|s0.sessions| <= 1 || ((i, Servers) in mayFail ==> Servers in s0.nodes))
      && (|s0.sessions| <= 1 || ((i, Group) in mayFail ==> Group in s0.nodes))
  }

  /** The early return on "exists" is safe in all runs exactly under that condition.  A
      create of the Queue node may always fail. */
  lemma EarlyReturnSafeExactly(s0: State, mayFail: iset<(nat, Node)>)
    requires Init(s0)
    ensures (forall steps :: ValidRun(s0, steps) && OnlyFails(steps, mayFail) ==> Safe(Run(s0, steps).nodes))
            <==> Condition(s0, mayFail)
  {
    if Condition(s0, mayFail) {
      forall steps | ValidRun(s0, steps) && OnlyFails(steps, mayFail) ensures Safe(Run(s0, steps).nodes) {
        SafeRun(s0, steps, mayFail);
      }
    } else {
      var steps := UnsafeRun(s0, mayFail);
      assert !Safe(Run(s0, steps).nodes);
    }
  }

  // ---------------------------------------------------------------- sufficient

  lemma SafeRun(s0: State, steps: seq<Step>, mayFail: iset<(nat, Node)>)
    requires Init(s0) && ValidRun(s0, steps) && OnlyFails(steps, mayFail) && Condition(s0, mayFail)
    ensures Safe(Run(s0, steps).nodes)
  {
    RunInv(s0, steps);
    NodesGrow(s0, steps);
    if Active !in s0.nodes {
      if |s0.sessions| <= 1 {
        OnlyServer(s0, steps, mayFail);
      } else {
        NothingLost(s0, steps, mayFail);
      }
    }
  }

  lemma {:induction false} NodesGrow(s0: State, steps: seq<Step>)
    requires ValidRun(s0, steps)
    ensures s0.nodes <= Run(s0, steps).nodes && |Run(s0, steps).sessions| == |s0.sessions|
    decreases |steps|
  {
    if steps != [] {
      NodesGrow(s0, steps[..|steps| - 1]);
    }
  }

  lemma {:induction false} NothingLost(s0: State, steps: seq<Step>, mayFail: iset<(nat, Node)>)
    requires Init(s0) && ValidRun(s0, steps) && OnlyFails(steps, mayFail)
    requires Condition(s0, mayFail) && Active !in s0.nodes && |s0.sessions| > 1
    ensures !Run(s0, steps).lost
    decreases |steps|
  {
    if steps != [] {
      var pre, step := steps[..|steps| - 1], steps[|steps| - 1];
      NothingLost(s0, pre, mayFail);
      NodesGrow(s0, pre);
      if Fails(step) {
        assert (step.i, Create(step)) in mayFail;
      }
    }
  }

  /** A single server that lost a create goes no further than that. */
  ghost predicate Stuck(s: State) {
    s.lost ==>
      && |s.sessions| == 1
      && ((Servers !in s.nodes && Servers !in s.sessions[0].pending
              && !s.sessions[0].pc.Start? && !s.sessions[0].pc.MakeServers?)
          || (Group !in s.nodes && Group !in s.sessions[0].pending
              && (s.sessions[0].pc.Crashed? || (s.sessions[0].pc.Sending? && s.sessions[0].pc.sent >= 1))))
  }

  lemma {:induction false} OnlyServer(s0: State, steps: seq<Step>, mayFail: iset<(nat, Node)>)
    requires Init(s0) && ValidRun(s0, steps) && OnlyFails(steps, mayFail)
    requires |s0.sessions| <= 1 && forall i: nat :: i < |s0.sessions| ==> (i, Active) !in mayFail
    ensures Stuck(Run(s0, steps)) && Safe(Run(s0, steps).nodes)
    decreases |steps|
  {
    RunInv(s0, steps);
    if steps != [] {
      var pre, step := steps[..|steps| - 1], steps[|steps| - 1];
      OnlyServer(s0, pre, mayFail);
      RunInv(s0, pre);
      NodesGrow(s0, pre);
      if Fails(step) {
        assert (step.i, Create(step)) in mayFail;
      }
      StuckStep(Run(s0, pre), step);
    }
  }

  lemma StuckStep(s: State, step: Step)
    requires Inv(s) && Stuck(s) && |s.sessions| == 1 && Enabled(s, step)
    requires Fails(step) ==> Create(step) != Active
    ensures Stuck(Apply(s, step))
  {
    assert ORDER[0] == Group && ORDER[1] == Active && ORDER[2] == Queue;
    var me := s.sessions[0];
    if !s.lost {
      assert SessionOk(me, s.nodes);
    }
    assert step.Serve? ==> forall n :: n in me.pending[1..] ==> n in me.pending;
    assert step.Crash? ==> forall n :: n in me.pending[..step.kept] ==> n in me.pending;
  }

  // ----------------------------------------------------------------- necessary

  lemma UnsafeRun(s0: State, mayFail: iset<(nat, Node)>) returns (steps: seq<Step>)
    requires Init(s0) && !Condition(s0, mayFail)
    ensures ValidRun(s0, steps) && OnlyFails(steps, mayFail)
    ensures Queue in Run(s0, steps).nodes && Active !in Run(s0, steps).nodes
  {
    var i: nat :| i < |s0.sessions|
      && ((i, Active) in mayFail
          || (|s0.sessions| > 1 && (i, Servers) in mayFail && Servers !in s0.nodes)
          || (|s0.sessions| > 1 && (i, Group) in mayFail && Group !in s0.nodes));
    var j: nat := if i == 0 then 1 else 0;
    if (i, Active) in mayFail {
      steps := LostActiveCreate(s0, i, mayFail);
    } else if (i, Servers) in mayFail && Servers !in s0.nodes {
      steps := LostServersCreate(s0, i, j, mayFail);
    } else {
      steps := LostGroupCreate(s0, i, j, mayFail);
    }
  }

  /** One server by itself, no create failing, completes the set-up, whatever was there. */
  lemma SetUpCompletes(s0: State, i: nat) returns (steps: seq<Step>)
    requires Init(s0) && i < |s0.sessions| && Queue !in s0.nodes
    ensures ValidRun(s0, steps) && OnlyFails(steps, iset{})
    ensures Complete(Run(s0, steps).nodes)
  {
    steps := Begin(s0, [], i, true, iset{});
    steps := SendAll(s0, steps, i, true, true, iset{});
    assert [Group, Active, Queue][1..] == [Active, Queue] && [Active, Queue][1..] == [Queue];
    steps := ServeOne(s0, steps, i, iset{});
    steps := ServeOne(s0, steps, i, iset{});
    steps := ServeOne(s0, steps, i, iset{});
  }

  /** Server `i` makes all nodes but Active. */
  lemma LostActiveCreate(s0: State, i: nat, mayFail: iset<(nat, Node)>) returns (steps: seq<Step>)
    requires Init(s0) && i < |s0.sessions| && Active !in s0.nodes && (i, Active) in mayFail
    ensures ValidRun(s0, steps) && OnlyFails(steps, mayFail)
    ensures Queue in Run(s0, steps).nodes && Active !in Run(s0, steps).nodes
    ensures SessionIs(Run(s0, steps), i, Session(Sending(|ORDER|), [], 2, 1))
  {
    steps := Begin(s0, [], i, true, mayFail);
    steps := SendAll(s0, steps, i, true, false, mayFail);
    steps := ServeTwo(s0, steps, i, Group, Queue, mayFail);
  }

  /** The service has two creates waiting and makes both. */
  lemma ServeTwo(s0: State, past: seq<Step>, i: nat, a: Node, b: Node, mayFail: iset<(nat, Node)>) returns (steps: seq<Step>)
    requires ValidRun(s0, past) && OnlyFails(past, mayFail)
    requires i < |Run(s0, past).sessions| && Run(s0, past).sessions[i].pending == [a, b]
    ensures ValidRun(s0, steps) && OnlyFails(steps, mayFail)
    ensures var s, t, me := Run(s0, past), Run(s0, steps), Run(s0, past).sessions[i];
            && t.nodes == Made(Made(s.nodes, a), b)
            && t.sessions == s.sessions[i := me.(pending := [], served := me.served + 2)]
  {
    assert [a, b][1..] == [b] && [b][1..] == [];
    steps := ServeOne(s0, past, i, mayFail);
    steps := ServeOne(s0, steps, i, mayFail);
  }

  /** Server `i` loses its create of /Servers, so its next two creates are refused.  Then
      server `j` makes /Servers and the group's node and dies, and the last create of `i`
      succeeds. */
  lemma LostServersCreate(s0: State, i: nat, j: nat, mayFail: iset<(nat, Node)>) returns (steps: seq<Step>)
    requires Init(s0) && i < |s0.sessions| && j < |s0.sessions| && i != j
    requires Servers !in s0.nodes && (i, Servers) in mayFail
    ensures ValidRun(s0, steps) && OnlyFails(steps, mayFail)
    ensures Queue in Run(s0, steps).nodes && Active !in Run(s0, steps).nodes
    ensures SessionIs(Run(s0, steps), i, Session(Sending(|ORDER|), [], 3, 0))
    ensures SessionIs(Run(s0, steps), j, Session(Crashed, [], 1, 0))
  {
    assert s0.nodes == {};
    steps := Begin(s0, [], i, false, mayFail);
    steps := SendAll(s0, steps, i, true, true, mayFail);
    assert [Group, Active, Queue][1..] == [Active, Queue] && [Active, Queue][1..] == [Queue];
    steps := ServeOne(s0, steps, i, mayFail);
    steps := ServeOne(s0, steps, i, mayFail);
    steps := OtherHelps(s0, steps, i, j, mayFail);
  }

  /** Server `i` loses its create of the group's node, and the same happens. */
  lemma LostGroupCreate(s0: State, i: nat, j: nat, mayFail: iset<(nat, Node)>) returns (steps: seq<Step>)
    requires Init(s0) && i < |s0.sessions| && j < |s0.sessions| && i != j
    requires Group !in s0.nodes && (i, Group) in mayFail
    ensures ValidRun(s0, steps) && OnlyFails(steps, mayFail)
    ensures Queue in Run(s0, steps).nodes && Active !in Run(s0, steps).nodes
    ensures SessionIs(Run(s0, steps), i, Session(Sending(|ORDER|), [], 2, 1))
    ensures SessionIs(Run(s0, steps), j, Session(Crashed, [], 1, 0))
  {
    assert Queue !in s0.nodes && Active !in s0.nodes;
    steps := Begin(s0, [], i, true, mayFail);
    steps := SendAll(s0, steps, i, false, true, mayFail);
    assert [Active, Queue][1..] == [Queue];
    steps := ServeOne(s0, steps, i, mayFail);
    steps := OtherHelps(s0, steps, i, j, mayFail);
  }

  /** What `j` contributes to the last two. */
  lemma OtherHelps(s0: State, past: seq<Step>, i: nat, j: nat, mayFail: iset<(nat, Node)>) returns (steps: seq<Step>)
    requires ValidRun(s0, past) && OnlyFails(past, mayFail)
    requires var s := Run(s0, past);
             && i < |s.sessions| && j < |s.sessions| && i != j && s.sessions[j] == NEW
             && s.sessions[i].pending == [Queue] && Queue !in s.nodes && Active !in s.nodes
    ensures ValidRun(s0, steps) && OnlyFails(steps, mayFail)
    ensures Queue in Run(s0, steps).nodes && Active !in Run(s0, steps).nodes
    ensures var me := Run(s0, past).sessions[i];
            && SessionIs(Run(s0, steps), i, me.(pending := [], served := me.served + 1))
            && SessionIs(Run(s0, steps), j, Session(Crashed, [], 1, 0))
  {
    steps := MakesGroup(s0, past, j, mayFail);
    assert [Queue][1..] == [];
    steps := ServeOne(s0, steps, i, mayFail);
  }

  lemma MakesGroup(s0: State, past: seq<Step>, j: nat, mayFail: iset<(nat, Node)>) returns (steps: seq<Step>)
    requires ValidRun(s0, past) && OnlyFails(past, mayFail)
    requires SessionIs(Run(s0, past), j, NEW) && Queue !in Run(s0, past).nodes
    ensures ValidRun(s0, steps) && OnlyFails(steps, mayFail)
    ensures var s, t := Run(s0, past), Run(s0, steps);
            && t.nodes == s.nodes + {Servers, Group}
            && t.sessions == s.sessions[j := Session(Crashed, [], 1, 0)]
  {
    steps := Begin(s0, past, j, true, mayFail);
    assert ORDER[0] == Group && [] + [Group] == [Group] && [Group][1..] == [];
    steps := SendOne(s0, steps, j, true, mayFail);
    assert SessionIs(Run(s0, steps), j, Session(Sending(1), [Group], 0, 0));
    steps := ServeAndDie(s0, steps, j, mayFail);
  }

  lemma ServeAndDie(s0: State, past: seq<Step>, j: nat, mayFail: iset<(nat, Node)>) returns (steps: seq<Step>)
    requires ValidRun(s0, past) && OnlyFails(past, mayFail)
    requires SessionIs(Run(s0, past), j, Session(Sending(1), [Group], 0, 0)) && Servers in Run(s0, past).nodes
    ensures ValidRun(s0, steps) && OnlyFails(steps, mayFail)
    ensures var s, t := Run(s0, past), Run(s0, steps);
            t.nodes == s.nodes + {Group} && t.sessions == s.sessions[j := Session(Crashed, [], 1, 0)]
  {
    assert [Group][1..] == [];
    steps := ServeOne(s0, past, j, mayFail);
    steps := Go(s0, steps, Crash(j, 0), mayFail);
  }

  /** `zoo_exists` and the create of /Servers. */
  lemma Begin(s0: State, past: seq<Step>, i: nat, done: bool, mayFail: iset<(nat, Node)>) returns (steps: seq<Step>)
    requires ValidRun(s0, past) && OnlyFails(past, mayFail) && (done || (i, Servers) in mayFail)
    requires var s := Run(s0, past); i < |s.sessions| && s.sessions[i] == NEW && Queue !in s.nodes
    ensures ValidRun(s0, steps) && OnlyFails(steps, mayFail)
    ensures var s, t := Run(s0, past), Run(s0, steps);
            && t.sessions == s.sessions[i := Session(Sending(0), [], 0, 0)]
            && t.nodes == if done then s.nodes + {Servers} else s.nodes
  {
    var s := Run(s0, past);
    steps := Go(s0, past, Check(i, true), mayFail);
    assert Run(s0, steps).sessions == s.sessions[i := Session(MakeServers, [], 0, 0)];
    steps := Go(s0, steps, CreateServers(i, done), mayFail);
  }

  lemma SendAll(s0: State, past: seq<Step>, i: nat, group: bool, active: bool, mayFail: iset<(nat, Node)>)
    returns (steps: seq<Step>)
    requires ValidRun(s0, past) && OnlyFails(past, mayFail)
    requires (group || (i, Group) in mayFail) && (active || (i, Active) in mayFail)
    requires var s := Run(s0, past); i < |s.sessions| && s.sessions[i] == Session(Sending(0), [], 0, 0)
    ensures ValidRun(s0, steps) && OnlyFails(steps, mayFail)
    ensures var s, t := Run(s0, past), Run(s0, steps);
            && t.nodes == s.nodes
            && t.sessions == s.sessions[i := Session(Sending(3), Sent(group, active), 0,
                                                     (if group then 0 else 1) + (if active then 0 else 1))]
  {
    var base := Run(s0, past).sessions;
    var me := Session(Sending(0), [], 0, 0);
    assert base == base[i := me];
    SentIs(group, active);
    steps := SendNode(s0, past, base, i, me, group, mayFail);
    me := Sends(me, group);
    steps := SendNode(s0, steps, base, i, me, active, mayFail);
    me := Sends(me, active);
    steps := SendNode(s0, steps, base, i, me, true, mayFail);
  }

  /** A session after its next send. */
  function Sends(me: Session, ok: bool): Session
    requires me.pc.Sending? && me.pc.sent < |ORDER|
  {
    if ok then me.(pc := Sending(me.pc.sent + 1), pending := me.pending + [ORDER[me.pc.sent]])
    else me.(pc := Sending(me.pc.sent + 1), skipped := me.skipped + 1)
  }

  /** The next send of session `i`; the other sessions are as in `base`. */
  lemma SendNode(s0: State, past: seq<Step>, base: seq<Session>, i: nat, me: Session, ok: bool,
                 mayFail: iset<(nat, Node)>)
    returns (steps: seq<Step>)
    requires ValidRun(s0, past) && OnlyFails(past, mayFail)
    requires me.pc.Sending? && me.pc.sent < |ORDER| && (ok || (i, ORDER[me.pc.sent]) in mayFail)
    requires i < |base| && Run(s0, past).sessions == base[i := me]
    ensures ValidRun(s0, steps) && OnlyFails(steps, mayFail) && Run(s0, steps).nodes == Run(s0, past).nodes
    ensures Run(s0, steps).sessions == base[i := Sends(me, ok)]
  {
    steps := SendOne(s0, past, i, ok, mayFail);
  }

  lemma SentIs(group: bool, active: bool)
    ensures Sends(Sends(Sends(Session(Sending(0), [], 0, 0), group), active), true)
            == Session(Sending(3), Sent(group, active), 0, (if group then 0 else 1) + (if active then 0 else 1))
  {
  }

  function Sent(group: bool, active: bool): seq<Node> {
    if group && active then [Group, Active, Queue]
    else if group then [Group, Queue]
    else if active then [Active, Queue]
    else [Queue]
  }

  lemma SendOne(s0: State, past: seq<Step>, i: nat, ok: bool, mayFail: iset<(nat, Node)>) returns (steps: seq<Step>)
    requires ValidRun(s0, past) && OnlyFails(past, mayFail)
    requires var s := Run(s0, past);
             && i < |s.sessions| && s.sessions[i].pc.Sending? && s.sessions[i].pc.sent < |ORDER|
             && (ok || (i, ORDER[s.sessions[i].pc.sent]) in mayFail)
    ensures ValidRun(s0, steps) && OnlyFails(steps, mayFail)
    ensures var s, t, me := Run(s0, past), Run(s0, steps), Run(s0, past).sessions[i];
            && t.nodes == s.nodes
            && t.sessions == s.sessions[i := Sends(me, ok)]
  {
    steps := Go(s0, past, Send(i, ORDER[Run(s0, past).sessions[i].pc.sent], ok), mayFail);
  }

  lemma ServeOne(s0: State, past: seq<Step>, i: nat, mayFail: iset<(nat, Node)>) returns (steps: seq<Step>)
    requires ValidRun(s0, past) && OnlyFails(past, mayFail)
    requires i < |Run(s0, past).sessions| && Run(s0, past).sessions[i].pending != []
    ensures past <= steps && ValidRun(s0, steps) && OnlyFails(steps, mayFail)
    ensures var s, t, me := Run(s0, past), Run(s0, steps), Run(s0, past).sessions[i];
            && t.nodes == Made(s.nodes, me.pending[0])
            && t.sessions == s.sessions[i := me.(pending := me.pending[1..], served := me.served + 1)]
  {
    Extended(s0, past, Serve(i), mayFail);
    steps := past + [Serve(i)];
  }

  /** The tree once the creates of `pending` have been served. */
  function AllMade(nodes: set<Node>, pending: seq<Node>): set<Node>
    decreases pending
  {
    if pending == [] then nodes else AllMade(Made(nodes, pending[0]), pending[1..])
  }

  /** A server that dies after any of its creates leaves the rest to arrive, up to any one
      of them. */
  lemma CrashedCreatesArrive(s0: State, past: seq<Step>, i: nat, kept: nat, mayFail: iset<(nat, Node)>)
    returns (steps: seq<Step>)
    requires ValidRun(s0, past) && OnlyFails(past, mayFail)
    requires i < |Run(s0, past).sessions| && !Run(s0, past).sessions[i].pc.Crashed?
    requires kept <= |Run(s0, past).sessions[i].pending|
    ensures past + [Crash(i, kept)] <= steps && ValidRun(s0, steps) && OnlyFails(steps, mayFail)
    ensures var s, t, me := Run(s0, past), Run(s0, steps), Run(s0, past).sessions[i];
            && t.nodes == AllMade(s.nodes, me.pending[..kept])
            && t.sessions == s.sessions[i := me.(pc := Crashed, pending := [], served := me.served + kept)]
  {
    var crashed := Dies(s0, past, i, kept, mayFail);
    steps := ServeAll(s0, crashed, i, mayFail);
  }

  lemma Dies(s0: State, past: seq<Step>, i: nat, kept: nat, mayFail: iset<(nat, Node)>) returns (steps: seq<Step>)
    requires ValidRun(s0, past) && OnlyFails(past, mayFail)
    requires i < |Run(s0, past).sessions| && !Run(s0, past).sessions[i].pc.Crashed?
    requires kept <= |Run(s0, past).sessions[i].pending|
    ensures steps == past + [Crash(i, kept)] && ValidRun(s0, steps) && OnlyFails(steps, mayFail)
    ensures var s, t, me := Run(s0, past), Run(s0, steps), Run(s0, past).sessions[i];
            t.nodes == s.nodes && t.sessions == s.sessions[i := me.(pc := Crashed, pending := me.pending[..kept])]
  {
    Extended(s0, past, Crash(i, kept), mayFail);
    steps := past + [Crash(i, kept)];
  }

  lemma {:induction false} ServeAll(s0: State, past: seq<Step>, i: nat, mayFail: iset<(nat, Node)>)
    returns (steps: seq<Step>)
    requires ValidRun(s0, past) && OnlyFails(past, mayFail) && i < |Run(s0, past).sessions|
    ensures past <= steps && ValidRun(s0, steps) && OnlyFails(steps, mayFail)
    ensures var s, t, me := Run(s0, past), Run(s0, steps), Run(s0, past).sessions[i];
            && t.nodes == AllMade(s.nodes, me.pending)
            && t.sessions == s.sessions[i := me.(pending := [], served := me.served + |me.pending|)]
    decreases |Run(s0, past).sessions[i].pending|
  {
    steps := past;
    if Run(s0, past).sessions[i].pending != [] {
      steps := ServeOne(s0, past, i, mayFail);
      steps := ServeAll(s0, steps, i, mayFail);
    }
  }

  /** Extends a run by one step. */
  lemma Go(s0: State, past: seq<Step>, step: Step, mayFail: iset<(nat, Node)>) returns (steps: seq<Step>)
    requires ValidRun(s0, past) && OnlyFails(past, mayFail) && Enabled(Run(s0, past), step)
    requires Fails(step) ==> (step.i, Create(step)) in mayFail
    ensures ValidRun(s0, steps) && OnlyFails(steps, mayFail)
    ensures Run(s0, steps) == Apply(Run(s0, past), step)
  {
    steps := past + [step];
    Extended(s0, past, step, mayFail);
  }

  lemma Extended(s0: State, past: seq<Step>, step: Step, mayFail: iset<(nat, Node)>)
    requires ValidRun(s0, past) && OnlyFails(past, mayFail) && Enabled(Run(s0, past), step)
    requires Fails(step) ==> (step.i, Create(step)) in mayFail
    ensures ValidRun(s0, past + [step]) && OnlyFails(past + [step], mayFail)
    ensures Run(s0, past + [step]) == Apply(Run(s0, past), step)
  {
    assert (past + [step])[..|past|] == past;
  }
}
