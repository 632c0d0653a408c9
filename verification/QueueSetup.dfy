/** Servers of one redundancy group creating the group's znodes, concurrently, with
    crashes.  Each server asks whether the Queue node exists and returns early if it
    does; otherwise it creates /Servers and waits, then sends creates for the group
    node, its Active node and its Queue node without waiting.

    Any of the four creates may fail, which the code ignores.  ZooKeeper serves the
    requests of one session in order, refuses a create whose parent is missing, and
    nobody deletes these nodes. */
module QueueSetup {

  datatype Node = Servers | Group | Active | Queue

  /** The order in which the creates without waiting are sent. */
  const ORDER := [Group, Active, Queue]

  /** How far a server's set-up code has come. */
  datatype Pc = Start | MakeServers | Sending(sent: nat) | Ready | Crashed

  /** `pending`: sent and not yet served; `served` counts the creates served so far,
      `skipped` those that never arrive. */
  datatype Session = Session(pc: Pc, pending: seq<Node>, served: nat, skipped: nat)

  const NEW := Session(Start, [], 0, 0)

  /** `lost` is history: some create of a node other than Queue failed while that node
      did not exist. */
  datatype State = State(nodes: set<Node>, sessions: seq<Session>, lost: bool)

  datatype Step =
    | Check(i: nat, answered: bool)      // zoo_exists of the Queue node; may be any other error
    | CreateServers(i: nat, done: bool)  // zoo_create of /Servers; done: ZOK or ZNODEEXISTS
    | Send(i: nat, n: Node, ok: bool)    // the next zoo_acreate; ok: it arrives, unless the server dies
    | Serve(i: nat)                      // ZooKeeper serves the oldest create of a session
    | Crash(i: nat, kept: nat)           // the server dies; `kept` creates still arrive

  predicate ParentExists(nodes: set<Node>, n: Node) {
    match n
    case Servers => true
    case Group => Servers in nodes
    case Active => Group in nodes
    case Queue => Group in nodes
  }

  function Made(nodes: set<Node>, n: Node): set<Node> {
    if ParentExists(nodes, n) then nodes + {n} else nodes
  }

  predicate Enabled(s: State, step: Step) {
    && step.i < |s.sessions|
    && var me := s.sessions[step.i];
       match step
       case Check(_, _) => me.pc.Start?
       case CreateServers(_, _) => me.pc.MakeServers?
       case Send(_, n, _) => me.pc.Sending? && me.pc.sent < |ORDER| && n == ORDER[me.pc.sent]
       case Serve(_) => me.pending != []
       case Crash(_, kept) => !me.pc.Crashed? && kept <= |me.pending|
  }

  function Apply(s: State, step: Step): State
    requires Enabled(s, step)
  {
    var i, me := step.i, s.sessions[step.i];
    match step
    case Check(_, answered) =>
      s.(sessions := s.sessions[i := me.(pc := if answered && Queue in s.nodes then Ready else MakeServers)])
    case CreateServers(_, done) =>
      s.(nodes := if done then Made(s.nodes, Servers) else s.nodes,
         lost := s.lost || (!done && Servers !in s.nodes),
         // The code prints an error and goes on.
         sessions := s.sessions[i := me.(pc := Sending(0))])
    case Send(_, n, ok) =>
      // Here, too.
      s.(lost := s.lost || (!ok && n != Queue && n !in s.nodes),
         sessions := s.sessions[i :=
           if ok then me.(pc := Sending(me.pc.sent + 1), pending := me.pending + [n])
           else me.(pc := Sending(me.pc.sent + 1), skipped := me.skipped + 1)])
    case Serve(_) =>
      s.(nodes := Made(s.nodes, me.pending[0]),
         sessions := s.sessions[i := me.(pending := me.pending[1..], served := me.served + 1)])
    case Crash(_, kept) =>
      s.(sessions := s.sessions[i := me.(pc := Crashed, pending := me.pending[..kept])])
  }

  /** ZooKeeper's tree. */
  ghost predicate Tree(nodes: set<Node>) {
    forall n :: n in nodes ==> ParentExists(nodes, n)
  }

  ghost predicate Complete(nodes: set<Node>) {
    Servers in nodes && Group in nodes && Active in nodes && Queue in nodes
  }

  /** Any number of servers starting together, whatever an earlier set-up left. */
  ghost predicate Init(s: State) {
    && Tree(s.nodes) && (Queue in s.nodes ==> Complete(s.nodes)) && !s.lost
    && forall i :: 0 <= i < |s.sessions| ==> s.sessions[i] == NEW
  }

  ghost predicate ValidRun(s: State, steps: seq<Step>)
    decreases |steps|, 0
  {
    steps == [] ||
    (ValidRun(s, steps[..|steps| - 1]) && Enabled(Run(s, steps[..|steps| - 1]), steps[|steps| - 1]))
  }

  ghost function Run(s: State, steps: seq<Step>): State
    requires ValidRun(s, steps)
    decreases |steps|, 1
  {
    if steps == [] then s else Apply(Run(s, steps[..|steps| - 1]), steps[|steps| - 1])
  }

  /** `m` is to be created before `n`. */
  predicate Before(m: Node, n: Node) {
    (m == Group && (n == Active || n == Queue)) || (m == Active && n == Queue)
  }

  /** Whatever is to exist before a pending create does, or is pending before it. */
  ghost predicate Orderly(pending: seq<Node>, nodes: set<Node>) {
    forall k, m :: 0 <= k < |pending| && Before(m, pending[k]) ==> m in nodes || m in pending[..k]
  }

  /** What was sent before `sent` is there or on its way. */
  ghost predicate Underway(me: Session, nodes: set<Node>) {
    me.pc.Sending? ==>
      forall k :: 0 <= k < me.pc.sent && k < |ORDER| && ORDER[k] != Queue ==> ORDER[k] in nodes || ORDER[k] in me.pending
  }

  /** If nothing was skipped, what is pending is a stretch of ORDER, and everything
      before it exists. */
  ghost predicate Stretch(me: Session, nodes: set<Node>) {
    me.skipped == 0 && me.served + |me.pending| <= |ORDER| ==>
      && me.pending == ORDER[me.served..me.served + |me.pending|]
      && (me.served >= 1 ==> Group in nodes)
      && (me.served >= 2 ==> Active in nodes)
      && (me.served >= 3 ==> Queue in nodes)
  }

  ghost predicate SessionOk(me: Session, nodes: set<Node>) {
    && me.served + |me.pending| + me.skipped <= |ORDER|
    && (me.pc.Sending? ==> me.pc.sent == me.served + |me.pending| + me.skipped && Servers in nodes)
    && (me.pc.Start? || me.pc.MakeServers? || me.pc.Ready? ==> me.served == me.skipped == 0 && me.pending == [])
    && (me.pc.Ready? ==> Complete(nodes))
    && (me.pending != [] ==> Servers in nodes)
    && Orderly(me.pending, nodes) && Underway(me, nodes) && Stretch(me, nodes)
  }

  ghost predicate Inv(s: State) {
    && Tree(s.nodes)
    && (!s.lost ==>
          && (Queue in s.nodes ==> Active in s.nodes)
          && forall i :: 0 <= i < |s.sessions| ==> SessionOk(s.sessions[i], s.nodes))
  }

  lemma Growth(me: Session, nodes: set<Node>, nodes': set<Node>)
    requires SessionOk(me, nodes) && nodes <= nodes'
    ensures SessionOk(me, nodes')
  {
  }

  lemma OwnServe(me: Session, nodes: set<Node>)
    requires SessionOk(me, nodes) && me.pending != [] && Tree(nodes) && (Queue in nodes ==> Active in nodes)
    ensures var nodes' := Made(nodes, me.pending[0]);
            && nodes <= nodes' && Tree(nodes') && (Queue in nodes' ==> Active in nodes')
            && SessionOk(me.(pending := me.pending[1..], served := me.served + 1), nodes')
  {
    var n, rest := me.pending[0], me.pending[1..];
    var nodes', me' := Made(nodes, n), me.(pending := rest, served := me.served + 1);
    assert me.pending[..0] == [];
    assert forall m :: Before(m, n) ==> m in nodes;
    assert n in nodes' by {
      assert n == Active || n == Queue ==> Before(Group, n);
    }
    assert n == Queue ==> Before(Active, n);
    ServeOrderly(me.pending, nodes, nodes');
    ServeUnderway(me, nodes, nodes');
    if me.skipped == 0 {
      assert n == ORDER[me.served] && rest == ORDER[me.served + 1..me.served + |me.pending|];
    }
  }

  lemma ServeOrderly(pending: seq<Node>, nodes: set<Node>, nodes': set<Node>)
    requires pending != [] && Orderly(pending, nodes) && nodes <= nodes' && pending[0] in nodes'
    ensures Orderly(pending[1..], nodes')
  {
    var rest := pending[1..];
    forall k, m | 0 <= k < |rest| && Before(m, rest[k]) ensures m in nodes' || m in rest[..k] {
      assert rest[k] == pending[k + 1] && pending[..k + 1] == [pending[0]] + rest[..k];
    }
  }

  lemma ServeUnderway(me: Session, nodes: set<Node>, nodes': set<Node>)
    requires me.pending != [] && Underway(me, nodes) && nodes <= nodes' && me.pending[0] in nodes'
    ensures Underway(me.(pending := me.pending[1..], served := me.served + 1), nodes')
  {
    assert me.pending == [me.pending[0]] + me.pending[1..];
  }

  lemma OwnSend(me: Session, nodes: set<Node>, n: Node)
    requires SessionOk(me, nodes) && me.pc.Sending? && me.pc.sent < |ORDER| && n == ORDER[me.pc.sent]
    ensures SessionOk(me.(pc := Sending(me.pc.sent + 1), pending := me.pending + [n]), nodes)
  {
    SendOrderly(me, nodes, n);
    if me.skipped == 0 {
      assert me.pending + [n] == ORDER[me.served..me.served + |me.pending| + 1];
    }
  }

  lemma SendOrderly(me: Session, nodes: set<Node>, n: Node)
    requires Orderly(me.pending, nodes) && Underway(me, nodes)
    requires me.pc.Sending? && me.pc.sent < |ORDER| && n == ORDER[me.pc.sent]
    ensures Orderly(me.pending + [n], nodes)
  {
    var more := me.pending + [n];
    assert ORDER[0] == Group && ORDER[1] == Active;
    forall k, m | 0 <= k < |more| && Before(m, more[k]) ensures m in nodes || m in more[..k] {
      if k < |me.pending| {
        assert more[..k] == me.pending[..k];
      } else {
        assert more[..k] == me.pending;
      }
    }
  }

  lemma OwnSkip(me: Session, nodes: set<Node>, n: Node)
    requires SessionOk(me, nodes) && me.pc.Sending? && me.pc.sent < |ORDER| && n == ORDER[me.pc.sent]
    requires n == Queue || n in nodes
    ensures SessionOk(me.(pc := Sending(me.pc.sent + 1), skipped := me.skipped + 1), nodes)
  {
  }

  lemma OwnCreate(me: Session, nodes: set<Node>, done: bool)
    requires SessionOk(me, nodes) && me.pc.MakeServers? && Tree(nodes) && (Queue in nodes ==> Active in nodes)
    requires done || Servers in nodes
    ensures var nodes' := if done then Made(nodes, Servers) else nodes;
            && nodes <= nodes' && Tree(nodes') && (Queue in nodes' ==> Active in nodes')
            && SessionOk(me.(pc := Sending(0)), nodes')
  {
  }

  lemma StartOfSlice<T>(s: seq<T>, a: nat, b: nat, k: nat)
    requires a + k <= b <= |s|
    ensures s[a..b][..k] == s[a..a + k]
  {
  }

  lemma OwnCrash(me: Session, nodes: set<Node>, kept: nat)
    requires SessionOk(me, nodes) && kept <= |me.pending|
    ensures SessionOk(me.(pc := Crashed, pending := me.pending[..kept]), nodes)
  {
    var less := me.pending[..kept];
    forall k, m | 0 <= k < |less| && Before(m, less[k]) ensures m in nodes || m in less[..k] {
      assert less[..k] == me.pending[..k];
    }
    if me.skipped == 0 {
      var end := me.served + |me.pending|;
      assert end <= |ORDER| && me.pending == ORDER[me.served..end];
      StartOfSlice(ORDER, me.served, end, kept);
    }
  }

  /** One session's own step. */
  lemma OwnStep(s: State, step: Step)
    requires Inv(s) && Enabled(s, step) && !Apply(s, step).lost
    ensures var t := Apply(s, step);
            && s.nodes <= t.nodes && Tree(t.nodes) && SessionOk(t.sessions[step.i], t.nodes)
            && (Queue in t.nodes ==> Active in t.nodes)
  {
    var me := s.sessions[step.i];
    assert SessionOk(me, s.nodes);
    match step
    case Check(_, _) =>
    case CreateServers(_, done) => OwnCreate(me, s.nodes, done);
    case Send(_, n, ok) => if ok { OwnSend(me, s.nodes, n); } else { OwnSkip(me, s.nodes, n); }
    case Serve(_) => OwnServe(me, s.nodes);
    case Crash(_, kept) => OwnCrash(me, s.nodes, kept);
  }

  lemma StepInv(s: State, step: Step)
    requires Inv(s) && Enabled(s, step)
    ensures Inv(Apply(s, step))
  {
    var t := Apply(s, step);
    if !t.lost {
      OwnStep(s, step);
      forall i | 0 <= i < |t.sessions| ensures SessionOk(t.sessions[i], t.nodes) {
        if i != step.i {
          Growth(s.sessions[i], s.nodes, t.nodes);
        }
      }
    }
  }

  lemma {:induction false} RunInv(s: State, steps: seq<Step>)
    requires Inv(s) && ValidRun(s, steps)
    ensures Inv(Run(s, steps))
    decreases |steps|
  {
    if steps != [] {
      RunInv(s, steps[..|steps| - 1]);
      StepInv(Run(s, steps[..|steps| - 1]), steps[|steps| - 1]);
    }
  }

  /** A server that found the Queue node, or died since: it has no create anywhere. */
  ghost predicate Silent(me: Session) {
    me == NEW.(pc := Ready) || me == NEW.(pc := Crashed)
  }

  /** A server that asks, is answered, and finds the Queue node never creates anything,
      whatever happens afterwards. */
  lemma {:induction false} FoundQueueStaysSilent(s0: State, past: seq<Step>, i: nat, rest: seq<Step>)
    requires Init(s0) && ValidRun(s0, past) && i < |Run(s0, past).sessions| && Run(s0, past).sessions[i] == NEW
    requires Queue in Run(s0, past).nodes && ValidRun(s0, past + [Check(i, true)] + rest)
    ensures var s := Run(s0, past + [Check(i, true)] + rest);
            i < |s.sessions| && Silent(s.sessions[i])
    decreases |rest|
  {
    var all := past + [Check(i, true)] + rest;
    if rest == [] {
      assert all[..|all| - 1] == past;
    } else {
      var rest' := rest[..|rest| - 1];
      assert all[..|all| - 1] == past + [Check(i, true)] + rest';
      FoundQueueStaysSilent(s0, past, i, rest');
    }
  }

  /** In every run in which no create is lost that was needed, the Queue node exists only
      when the whole set-up is complete, so returning early when it exists is safe;
      and a server that returned early, or whose creates have all been served, finds
      every parent of the nodes it creates next. */
  lemma QueueMeansComplete(s0: State, steps: seq<Step>)
    requires Init(s0) && ValidRun(s0, steps)
    ensures var s := Run(s0, steps);
            !s.lost && Queue in s.nodes ==> Complete(s.nodes)
    ensures var s := Run(s0, steps);
            !s.lost ==> forall i :: 0 <= i < |s.sessions| ==>
              s.sessions[i].pc.Ready? || s.sessions[i].served == |ORDER| ==> Complete(s.nodes)
  {
    RunInv(s0, steps);
  }

  // --------------------------------------------------------------- the code

  /** All servers and ZooKeeper; `Initialize` is what one server runs. */
  class Ensemble {
    var world: State

    constructor (s: State)
      requires Init(s)
      ensures Inv(world) && world == s
    {
      world := s;
    }

    method Do(step: Step)
      requires Inv(world) && Enabled(world, step)
      modifies this
      ensures Inv(world) && world == Apply(old(world), step)
      ensures |world.sessions| == |old(world.sessions)| && old(world.nodes) <= world.nodes
      ensures forall j :: 0 <= j < |world.sessions| && j != step.i ==>
                world.sessions[j] == old(world.sessions[j])
    {
      StepInv(world, step);
      world := Apply(world, step);
    }

    /** Any steps of the other servers, and of ZooKeeper. */
    method Others(i: nat)
      requires Inv(world) && i < |world.sessions|
      modifies this
      ensures Inv(world) && |world.sessions| == |old(world.sessions)| && old(world.nodes) <= world.nodes
      ensures world.sessions[i].pc == old(world.sessions[i].pc) && (old(world.lost) ==> world.lost)
      ensures world.sessions[i].skipped == old(world.sessions[i].skipped)
      ensures old(world.sessions[i].pending) == [] ==> world.sessions[i] == old(world.sessions[i])
    {
      var n: nat := *;
      while n > 0
        invariant Inv(world) && |world.sessions| == |old(world.sessions)| && old(world.nodes) <= world.nodes
        invariant world.sessions[i].pc == old(world.sessions[i].pc) && (old(world.lost) ==> world.lost)
        invariant world.sessions[i].skipped == old(world.sessions[i].skipped)
        invariant old(world.sessions[i].pending) == [] ==> world.sessions[i] == old(world.sessions[i])
      {
        var step: Step := *;
        if Enabled(world, step) && (step.i != i || step.Serve?) {
          Do(step);
        }
        n := n - 1;
      }
    }

    /** The next `zoo_acreate`. */
    method SendNext(i: nat, ok: bool)
      requires Inv(world) && i < |world.sessions|
      requires world.sessions[i].pc.Sending? && world.sessions[i].pc.sent < |ORDER|
      modifies this
      ensures Inv(world) && |world.sessions| == |old(world.sessions)| && old(world.nodes) <= world.nodes
      ensures world.sessions[i].pc == Sending(old(world.sessions[i].pc.sent) + 1)
      ensures world.sessions[i].skipped == old(world.sessions[i].skipped) + if ok then 0 else 1
    {
      Others(i);
      Do(Send(i, ORDER[world.sessions[i].pc.sent], ok));
    }

    /** `zkUA_initializeZkServerQueuePath`; `answered` is whether `zoo_exists` could
        tell, `created` whether the create of /Servers was answered ZOK or ZNODEEXISTS,
        and `group`, `active` and `queue` are whether the later creates arrive. */
    method Initialize(i: nat, answered: bool, created: bool, group: bool, active: bool, queue: bool)
      requires Inv(world) && i < |world.sessions| && world.sessions[i] == NEW
      modifies this
      ensures Inv(world) && |world.sessions| == |old(world.sessions)|
      ensures world.sessions[i] == NEW.(pc := Ready) || world.sessions[i].pc == Sending(3)
      ensures world.sessions[i].pc == Ready ==> answered && Queue in world.nodes
      ensures answered && Queue in old(world.nodes) ==> world.sessions[i].pc == Ready
      ensures created && world.sessions[i].pc != Ready ==> Servers in world.nodes
      ensures world.sessions[i].pc != Ready ==>
                world.sessions[i].skipped == (if group then 0 else 1) + (if active then 0 else 1) + (if queue then 0 else 1)
      ensures !world.lost && world.sessions[i].pc == Ready ==> Complete(world.nodes)
      ensures !world.lost && world.sessions[i].pc != Ready ==>
                && Servers in world.nodes
                && (Group in world.nodes || Group in world.sessions[i].pending)
                && (Active in world.nodes || Active in world.sessions[i].pending)
                && (group && active && queue ==> world.sessions[i].pending == [Group, Active, Queue][world.sessions[i].served..])
    {
      Others(i);
      Do(Check(i, answered));
      if world.sessions[i].pc.Ready? {
        return;
      }
      Others(i);
      Do(CreateServers(i, created));
      SendNext(i, group);
      SendNext(i, active);
      SendNext(i, queue);
      Others(i);
      if !world.lost {
        AllSent(world.sessions[i], world.nodes);
      }
    }
  }

  lemma AllSent(me: Session, nodes: set<Node>)
    requires SessionOk(me, nodes) && me.pc == Sending(|ORDER|)
    ensures Servers in nodes
    ensures (Group in nodes || Group in me.pending) && (Active in nodes || Active in me.pending)
    ensures me.skipped == 0 ==> me.pending == ORDER[me.served..]
  {
    assert ORDER[0] == Group && ORDER[1] == Active;
  }
}
