/** Exactly when nodes are lost from the ring. Without failures only the reply to a stabilise request
    can do it, and only under a condition on the state it meets, spelt out in Harmless. */
module RingLoss {
  import opened Ids
  import opened LocalNode
  import opened RingGraph
  import opened Network
  import opened JoinRuns
  import Monotone
  import opened Permanence

  /** Whoever is on the ring of c in nodes is on it in nodes'. */
  ghost predicate NobodyLost(nodes: Nodes, nodes': Nodes, c: Id) {
    forall r {:trigger OnRingIn(nodes', c, r)} :: OnRingIn(nodes, c, r) ==> OnRingIn(nodes', c, r)
  }

  /** A stabilise reply meets a node off the ring, or is not adopted, or reports a node that leads to
      the current successor. */
  ghost predicate HarmlessReply(nodes: Nodes, c: Id, n: Id, reply: Option<Id>)
    requires n in nodes && Connected(nodes[n])
  {
    reply.Some? && AdoptsSuccessor(nodes[n], reply.value) ==>
      !OnRingIn(nodes, c, n) || LeadsIn(nodes, reply.value, First(nodes[n]))
  }

  ghost predicate Harmless(s: Net, c: Id, step: Step)
    requires Enabled(s, step)
  {
    step.DeliverPredRep? ==> HarmlessReply(s.nodes, c, step.m.to, step.m.pred)
  }

  lemma ShownKept(nodes: Nodes, g: Graph, nodes': Nodes, g': Graph, c: Id)
    requires Shows(nodes, g) && Shows(nodes', g')
    ensures NobodyLost(nodes, nodes', c) <==> RingKept(g, g', c)
  {
    ShownIsUnique(nodes, g);
    ShownIsUnique(nodes', g');
    if NobodyLost(nodes, nodes', c) {
      forall r {:trigger Path(g', c, r)} | Path(g, c, r) ensures Path(g', c, r) {
        assert OnRingIn(nodes, c, r);
        assert OnRingIn(nodes', c, r);
      }
    }
  }

  lemma ShownLeads(nodes: Nodes, g: Graph, a: Id, b: Id)
    requires Shows(nodes, g)
    ensures LeadsIn(nodes, a, b) <==> Path(g, a, b)
  {
    ShownIsUnique(nodes, g);
  }

  /** An adopted reply redirects one pointer. */
  lemma AdoptionRedirects(s: Net, c: Id, m: Msg, g: Graph)
    requires Ordered(s, c) && Shows(s.nodes, g) && Enabled(s, DeliverPredRep(m))
    requires m.pred.Some? && m.pred.value != m.to && AdoptsSuccessor(s.nodes[m.to], m.pred.value)
    ensures Redirects(g, m.to, m.pred.value) && g[m.to] == First(s.nodes[m.to])
    ensures Shows(Apply(s, DeliverPredRep(m)).nodes, g[m.to := m.pred.value])
  {
    var n, p := m.to, m.pred.value;
    assert GoodMsg(s.nodes.Keys, c, m);
    LeadsToFirst(s, c, g, n);
    OrderedNode(s, c, n);
    var nodes', g' := Apply(s, DeliverPredRep(m)).nodes, g[n := p];
    assert nodes' == s.nodes[n := StabilizeSpFound(s.nodes[n], m.pred)];
    forall k {:trigger PointsAt(nodes', k, g'[k])} | k in g' ensures PointsAt(nodes', k, g'[k]) {
      assert k != n ==> PointsAt(s.nodes, k, g[k]);
    }
  }

  lemma UnadoptedChangesNothing(s: Net, c: Id, m: Msg, g: Graph)
    requires Ordered(s, c) && Shows(s.nodes, g) && Enabled(s, DeliverPredRep(m))
    requires m.pred.Some? && AdoptsSuccessor(s.nodes[m.to], m.pred.value) ==> m.pred.value == m.to
    ensures Shows(Apply(s, DeliverPredRep(m)).nodes, g)
  {
    OrderedNode(s, c, m.to);
    var node := StabilizeSpFound(s.nodes[m.to], m.pred);
    assert node.succs[0] == s.nodes[m.to].succs[0];
    SameSlot0SameGraph(s.nodes, g, m.to, node);
  }

  lemma AdoptedLosesNobody(s: Net, c: Id, m: Msg, g: Graph)
    requires Ordered(s, c) && Shows(s.nodes, g) && Enabled(s, DeliverPredRep(m))
    requires m.pred.Some? && m.pred.value != m.to && AdoptsSuccessor(s.nodes[m.to], m.pred.value)
    ensures NobodyLost(s.nodes, Apply(s, DeliverPredRep(m)).nodes, c) <==>
            !Path(g, c, m.to) || Path(g, m.pred.value, First(s.nodes[m.to]))
  {
    var g' := g[m.to := m.pred.value];
    AdoptionRedirects(s, c, m, g);
    OrderedGraph(s, c, g);
    RedirectKeepsRing(g, c, m.to, m.pred.value);
    ShownKept(s.nodes, g, Apply(s, DeliverPredRep(m)).nodes, g', c);
  }

  lemma UnadoptedLosesNobody(s: Net, c: Id, m: Msg, g: Graph)
    requires Ordered(s, c) && Shows(s.nodes, g) && Enabled(s, DeliverPredRep(m))
    requires m.pred.Some? && AdoptsSuccessor(s.nodes[m.to], m.pred.value) ==> m.pred.value == m.to
    ensures NobodyLost(s.nodes, Apply(s, DeliverPredRep(m)).nodes, c)
    ensures m.pred.Some? && AdoptsSuccessor(s.nodes[m.to], m.pred.value) ==>
              Path(g, m.pred.value, First(s.nodes[m.to]))
  {
    UnadoptedChangesNothing(s, c, m, g);
    ShownKept(s.nodes, g, Apply(s, DeliverPredRep(m)).nodes, g, c);
    LeadsToFirst(s, c, g, m.to);
  }

  /** The reply keeps all nodes of the ring exactly when it is harmless. */
  lemma ReplyLosesNobody(s: Net, c: Id, m: Msg)
    requires Ordered(s, c) && Enabled(s, DeliverPredRep(m))
    ensures NobodyLost(s.nodes, Apply(s, DeliverPredRep(m)).nodes, c) <==> HarmlessReply(s.nodes, c, m.to, m.pred)
  {
    var g := SuccGraph(s.nodes);
    ShownGraph(s, c);
    ShownLeads(s.nodes, g, c, m.to);
    if m.pred.Some? && AdoptsSuccessor(s.nodes[m.to], m.pred.value) {
      ShownLeads(s.nodes, g, m.pred.value, First(s.nodes[m.to]));
    }
    if m.pred.Some? && m.pred.value != m.to && AdoptsSuccessor(s.nodes[m.to], m.pred.value) {
      AdoptedLosesNobody(s, c, m, g);
    } else {
      UnadoptedLosesNobody(s, c, m, g);
    }
  }

  // ---------------------------------------------------------------- all other steps

  lemma JoinShows(s: Net, c: Id, m: Msg, g: Graph)
    requires Ordered(s, c) && Shows(s.nodes, g) && Enabled(s, DeliverFound(m)) && m.why.ForJoin?
    ensures Shows(Apply(s, DeliverFound(m)).nodes, g[m.why.who := m.found])
    ensures PathsKept(g, g[m.why.who := m.found])
  {
    var nodes', j := Apply(s, DeliverFound(m)).nodes, m.why.who;
    var g' := g[j := m.found];
    assert GoodMsg(s.nodes.Keys, c, m);
    OrderedGraph(s, c, g);
    JoinKeepsAllPaths(g, j, m.found);
    forall k {:trigger PointsAt(nodes', k, g'[k])} | k in g' ensures PointsAt(nodes', k, g'[k]) {
      assert k in g ==> PointsAt(s.nodes, k, g[k]);
    }
  }

  /** Only stabilise replies and joins change a successor pointer. */
  predicate Points(step: Step) {
    step.DeliverPredRep? || (step.DeliverFound? && step.m.Found? && step.m.why.ForJoin?)
  }

  lemma SameMembersUnlessPointed(s: Net, c: Id, step: Step)
    requires Ordered(s, c) && Enabled(s, step) && !step.Fail? && !Points(step)
    ensures Apply(s, step).nodes.Keys == s.nodes.Keys
  {
    match step
    case DeliverFound(m) => StoreKeepsMembers(s, m);
    case FixFinger(n, i) =>
    case Relay(m) =>
    case StartUpdate(n) =>
    case _ =>
  }

  lemma StoreKeepsMembers(s: Net, m: Msg)
    requires Enabled(s, DeliverFound(m)) && !m.why.ForJoin?
    ensures Apply(s, DeliverFound(m)).nodes.Keys == s.nodes.Keys
  {
    assert m.why.who in s.nodes;
  }

  lemma OtherStepsPointNowhereNew(s: Net, c: Id, step: Step, g: Graph)
    requires Ordered(s, c) && Shows(s.nodes, g)
    requires Enabled(s, step) && !step.Fail? && !Points(step)
    ensures Shows(Apply(s, step).nodes, g)
  {
    var nodes' := Apply(s, step).nodes;
    SameMembersUnlessPointed(s, c, step);
    forall n {:trigger PointsAt(nodes', n, g[n])} | n in nodes' ensures PointsAt(nodes', n, g[n]) {
      assert PointsAt(s.nodes, n, g[n]);
      if !(step.DeliverNotify? && step.m.to == n) {
        Monotone.NeighboursChangeByTheirCallbacks(s, c, step, n);
      }
    }
  }

  /** In every state of a failure-free run, a step loses nobody from the ring exactly when it is harmless. */
  lemma StepLosesNobody(s: Net, c: Id, step: Step)
    requires Ordered(s, c) && Enabled(s, step) && !step.Fail?
    ensures NobodyLost(s.nodes, Apply(s, step).nodes, c) <==> Harmless(s, c, step)
  {
    var g, nodes' := SuccGraph(s.nodes), Apply(s, step).nodes;
    ShownGraph(s, c);
    if step.DeliverPredRep? {
      ReplyLosesNobody(s, c, step.m);
    } else if step.DeliverFound? && step.m.why.ForJoin? {
      JoinShows(s, c, step.m, g);
      ShownKept(s.nodes, g, nodes', g[step.m.why.who := step.m.found], c);
    } else {
      OtherStepsPointNowhereNew(s, c, step, g);
      ShownKept(s.nodes, g, nodes', g, c);
    }
  }

  // ---------------------------------------------------------------- whole runs

  /** No step of the run loses anybody. */
  ghost predicate NeverLoses(s: Net, c: Id, steps: seq<Step>)
    requires CanRun(s, steps)
    decreases |steps|
  {
    steps == [] ||
    (NobodyLost(s.nodes, Apply(s, steps[0]).nodes, c) && NeverLoses(Apply(s, steps[0]), c, steps[1..]))
  }

  ghost predicate HarmlessRun(s: Net, c: Id, steps: seq<Step>)
    requires CanRun(s, steps)
    decreases |steps|
  {
    steps == [] || (Harmless(s, c, steps[0]) && HarmlessRun(Apply(s, steps[0]), c, steps[1..]))
  }

  /** A failure-free run never loses anybody exactly when every step of it is harmless where it is taken. */
  lemma {:induction false} RunNeverLoses(s: Net, c: Id, steps: seq<Step>)
    requires Ordered(s, c) && CanRun(s, steps) && NoFailure(steps)
    ensures NeverLoses(s, c, steps) <==> HarmlessRun(s, c, steps)
    decreases |steps|
  {
    if steps != [] {
      StepLosesNobody(s, c, steps[0]);
      OrderedStep(s, c, steps[0]);
      RunNeverLoses(Apply(s, steps[0]), c, steps[1..]);
    }
  }

  /** Then whoever is on the ring in its first state is on it in its last. */
  lemma {:induction false} HarmlessRunKeepsTheRing(s: Net, c: Id, steps: seq<Step>, n: Id)
    requires Ordered(s, c) && CanRun(s, steps) && NoFailure(steps) && HarmlessRun(s, c, steps)
    requires OnRingIn(s.nodes, c, n)
    ensures OnRingIn(Run(s, steps).nodes, c, n)
    decreases |steps|
  {
    if steps != [] {
      var s1 := Apply(s, steps[0]);
      StepLosesNobody(s, c, steps[0]);
      OrderedStep(s, c, steps[0]);
      assert OnRingIn(s1.nodes, c, n);
      HarmlessRunKeepsTheRing(s1, c, steps[1..], n);
    }
  }

  /** A reply from the current successor is harmless: what that node reports as its predecessor leads to it. */
  lemma FreshIsHarmless(s: Net, c: Id, g: Graph, step: Step)
    requires Ordered(s, c) && Woven(s, g) && Enabled(s, step) && Fresh(s, step)
    ensures Harmless(s, c, step)
  {
    if step.DeliverPredRep? && step.m.pred.Some? && AdoptsSuccessor(s.nodes[step.m.to], step.m.pred.value) {
      FreshReplyLeads(s, c, g, step.m);
      ShownLeads(s.nodes, g, step.m.pred.value, First(s.nodes[step.m.to]));
    }
  }

  lemma FreshReplyLeads(s: Net, c: Id, g: Graph, m: Msg)
    requires Ordered(s, c) && Woven(s, g) && Enabled(s, DeliverPredRep(m)) && Fresh(s, DeliverPredRep(m))
    requires m.pred.Some? && AdoptsSuccessor(s.nodes[m.to], m.pred.value)
    ensures Path(g, m.pred.value, First(s.nodes[m.to]))
  {
    assert WovenMsg(g, m);
    LeadsToFirst(s, c, g, m.to);
  }

  lemma {:induction false} FreshRunIsHarmless(s: Net, c: Id, g: Graph, steps: seq<Step>)
    requires Ordered(s, c) && Woven(s, g) && CanRun(s, steps) && NoFailure(steps) && FreshRun(s, steps)
    ensures HarmlessRun(s, c, steps)
    decreases |steps|
  {
    if steps != [] {
      FreshIsHarmless(s, c, g, steps[0]);
      var g1 := WovenStep(s, c, steps[0], g);
      OrderedStep(s, c, steps[0]);
      FreshRunIsHarmless(Apply(s, steps[0]), c, g1, steps[1..]);
    }
  }
}
