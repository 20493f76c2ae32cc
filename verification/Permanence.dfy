/** Runs without failures in which a stabilise reply is used only while the node it came from is
    still the successor: every path of pointers survives, so a node once on the ring stays on it. */
module Permanence {
  import opened Ids
  import opened LocalNode
  import opened RingGraph
  import opened Network
  import opened JoinRuns

  /** The successor pointers lead from a to b. */
  ghost predicate LeadsIn(nodes: Nodes, a: Id, b: Id) {
    Path(SuccGraph(nodes), a, b)
  }

  /** n lies on the ring of c. */
  ghost predicate OnRingIn(nodes: Nodes, c: Id, n: Id) {
    LeadsIn(nodes, c, n)
  }

  // ---------------------------------------------------------------- the invariant

  /** A recorded predecessor leads to the node that recorded it. */
  ghost predicate WovenNode(g: Graph, n: Id, node: Node) {
    node.pred.Some? ==> Path(g, node.pred.value, n)
  }

  /** So does one that is being reported, and a node that is notifying. */
  ghost predicate WovenMsg(g: Graph, m: Msg) {
    match m
    case PredRep(to, asked, pred) => pred.Some? ==> Path(g, pred.value, asked)
    case Notify(from, to) => Path(g, from, to)
    case _ => true
  }

  ghost predicate Woven(s: Net, g: Graph) {
    && Shows(s.nodes, g)
    && (forall n {:trigger WovenNode(g, n, s.nodes[n])} :: n in s.nodes ==> WovenNode(g, n, s.nodes[n]))
    && (forall m {:trigger WovenMsg(g, m)} :: m in s.msgs ==> WovenMsg(g, m))
  }

  /** A reply that changes the successor comes from the current successor. */
  predicate Fresh(s: Net, step: Step)
    requires Enabled(s, step)
  {
    step.DeliverPredRep? && step.m.pred.Some? ==>
      var node := s.nodes[step.m.to];
      AdoptsSuccessor(node, step.m.pred.value) && step.m.pred.value != First(node) ==> step.m.asked == First(node)
  }

  predicate FreshRun(s: Net, steps: seq<Step>)
    requires CanRun(s, steps)
    decreases |steps|
  {
    steps == [] || (Fresh(s, steps[0]) && FreshRun(Apply(s, steps[0]), steps[1..]))
  }

  // ---------------------------------------------------------------- kept by every step

  lemma WovenFrom(s: Net, g: Graph, s': Net, g': Graph)
    requires Woven(s, g) && Shows(s'.nodes, g') && PathsKept(g, g')
    requires forall n {:trigger WovenNode(g', n, s'.nodes[n])} :: n in s'.nodes ==>
               (n in s.nodes && s'.nodes[n].pred == s.nodes[n].pred) || WovenNode(g', n, s'.nodes[n])
    requires forall m {:trigger WovenMsg(g', m)} :: m in s'.msgs ==> m in s.msgs || WovenMsg(g', m)
    ensures Woven(s', g')
  {
    forall n {:trigger WovenNode(g', n, s'.nodes[n])} | n in s'.nodes ensures WovenNode(g', n, s'.nodes[n]) {
      if n in s.nodes && s'.nodes[n].pred == s.nodes[n].pred {
        assert WovenNode(g, n, s.nodes[n]);
      }
    }
    forall m {:trigger WovenMsg(g', m)} | m in s'.msgs ensures WovenMsg(g', m) {
      if m in s.msgs {
        assert WovenMsg(g, m);
      }
    }
  }

  /** Changing anything but slot 0 of a node leaves the pointers alone. */
  lemma SameSlot0SameGraph(nodes: Nodes, g: Graph, n: Id, node: Node)
    requires Shows(nodes, g) && n in nodes && node.succs[0] == nodes[n].succs[0]
    ensures Shows(nodes[n := node], g)
  {
    forall k {:trigger PointsAt(nodes[n := node], k, g[k])} | k in g ensures PointsAt(nodes[n := node], k, g[k]) {
      assert PointsAt(nodes, k, g[k]);
    }
  }

  /** One stabilise reply, used fresh or not used at all. */
  lemma AdoptionKeepsPaths(nodes: Nodes, g: Graph, n: Id, reply: Option<Id>) returns (g': Graph)
    requires Shows(nodes, g) && Closed(g) && n in nodes && nodes[n].id == n
    requires nodes[n].succs[0].Some? && g[n] == First(nodes[n])
    requires reply.Some? && AdoptsSuccessor(nodes[n], reply.value) ==> Path(g, reply.value, g[n])
    ensures Shows(nodes[n := StabilizeSpFound(nodes[n], reply)], g') && PathsKept(g, g')
  {
    g' := g;
    var node := StabilizeSpFound(nodes[n], reply);
    if node.succs[0] == nodes[n].succs[0] {
      SameSlot0SameGraph(nodes, g, n, node);
    } else {
      g' := g[n := reply.value];
      if reply.value != n {
        RedirectKeepsAllPaths(g, n, reply.value);
      }
      forall k {:trigger PointsAt(nodes[n := node], k, g'[k])} | k in g' ensures PointsAt(nodes[n := node], k, g'[k]) {
        assert PointsAt(nodes, k, g[k]);
      }
    }
  }

  /** Whoever a node points at, it leads to. */
  lemma LeadsToFirst(s: Net, c: Id, g: Graph, n: Id)
    requires Ordered(s, c) && Shows(s.nodes, g) && n in s.nodes
    ensures Connected(s.nodes[n]) && n in g && g[n] == First(s.nodes[n]) && Path(g, n, g[n])
  {
    OrderedGraph(s, c, g);
    OrderedNode(s, c, n);
    assert PointsAt(s.nodes, n, g[n]);
  }

  lemma PredRepKeepsPaths(s: Net, c: Id, m: Msg, g: Graph) returns (g': Graph)
    requires Ordered(s, c) && Woven(s, g)
    requires Enabled(s, DeliverPredRep(m)) && Fresh(s, DeliverPredRep(m))
    ensures Shows(s.nodes[m.to := StabilizeSpFound(s.nodes[m.to], m.pred)], g') && PathsKept(g, g')
  {
    assert WovenMsg(g, m);
    LeadsToFirst(s, c, g, m.to);
    OrderedNode(s, c, m.to);
    OrderedGraph(s, c, g);
    g' := AdoptionKeepsPaths(s.nodes, g, m.to, m.pred);
  }

  lemma WovenPredRep(s: Net, c: Id, m: Msg, g: Graph) returns (g': Graph)
    requires Ordered(s, c) && Woven(s, g)
    requires Enabled(s, DeliverPredRep(m)) && Fresh(s, DeliverPredRep(m))
    ensures PathsKept(g, g') && Woven(Apply(s, DeliverPredRep(m)), g')
  {
    var s', n := Apply(s, DeliverPredRep(m)), m.to;
    g' := PredRepKeepsPaths(s, c, m, g);
    OrderedStep(s, c, DeliverPredRep(m));
    LeadsToFirst(s', c, g', n);
    WovenFrom(s, g, s', g');
  }

  lemma WovenJoin(s: Net, c: Id, m: Msg, g: Graph) returns (g': Graph)
    requires Ordered(s, c) && Woven(s, g) && Enabled(s, DeliverFound(m)) && m.why.ForJoin?
    ensures PathsKept(g, g') && Woven(Apply(s, DeliverFound(m)), g')
  {
    var s', j := Apply(s, DeliverFound(m)), m.why.who;
    assert GoodMsg(s.nodes.Keys, c, m);
    OrderedGraph(s, c, g);
    g' := g[j := m.found];
    JoinKeepsAllPaths(g, j, m.found);
    forall k {:trigger PointsAt(s'.nodes, k, g'[k])} | k in g' ensures PointsAt(s'.nodes, k, g'[k]) {
      assert k in g ==> PointsAt(s.nodes, k, g[k]);
    }
    WovenFrom(s, g, s', g');
  }

  lemma WovenStore(s: Net, c: Id, m: Msg, g: Graph)
    requires Ordered(s, c) && Woven(s, g) && Enabled(s, DeliverFound(m)) && !m.why.ForJoin?
    ensures Woven(Apply(s, DeliverFound(m)), g)
  {
    var s', n := Apply(s, DeliverFound(m)), m.why.who;
    assert GoodMsg(s.nodes.Keys, c, m);
    assert s'.nodes == s.nodes[n := s'.nodes[n]];
    SameSlot0SameGraph(s.nodes, g, n, s'.nodes[n]);
    WovenFrom(s, g, s', g);
  }

  lemma WovenNotify(s: Net, c: Id, m: Msg, g: Graph)
    requires Ordered(s, c) && Woven(s, g) && Enabled(s, DeliverNotify(m))
    ensures Woven(Apply(s, DeliverNotify(m)), g)
  {
    var s' := Apply(s, DeliverNotify(m));
    assert WovenMsg(g, m);
    SameSlot0SameGraph(s.nodes, g, m.to, s'.nodes[m.to]);
    WovenFrom(s, g, s', g);
  }

  lemma WovenFix(s: Net, c: Id, n: Id, i: nat, g: Graph)
    requires Ordered(s, c) && Woven(s, g) && Enabled(s, FixFinger(n, i))
    ensures Woven(Apply(s, FixFinger(n, i)), g)
  {
    var s' := Apply(s, FixFinger(n, i));
    assert s'.nodes == s.nodes[n := s'.nodes[n]];
    SameSlot0SameGraph(s.nodes, g, n, s'.nodes[n]);
    WovenFrom(s, g, s', g);
  }

  lemma WovenAnswer(s: Net, m: Msg, g: Graph)
    requires Woven(s, g) && Enabled(s, AnswerPred(m))
    ensures Woven(Apply(s, AnswerPred(m)), g)
  {
    assert WovenNode(g, m.asked, s.nodes[m.asked]);
    WovenFrom(s, g, Apply(s, AnswerPred(m)), g);
  }

  /** Steps that send or relay lookups and requests leave the nodes as they are. */
  lemma WovenSend(s: Net, step: Step, g: Graph)
    requires Woven(s, g) && Enabled(s, step)
    requires step.StartJoin? || step.Relay? || step.StartStabilise? || step.StartUpdate?
          || step.CheckSucc? || step.CheckPred?
    ensures Woven(Apply(s, step), g)
  {
    WovenFrom(s, g, Apply(s, step), g);
  }

  /** Nobody crashes, so probes succeed and change nothing. */
  lemma WovenProbe(s: Net, c: Id, m: Msg, g: Graph)
    requires Ordered(s, c) && Woven(s, g) && Enabled(s, ProbeDone(m))
    ensures Woven(Apply(s, ProbeDone(m)), g)
  {
    assert GoodMsg(s.nodes.Keys, c, m);
    assert s.nodes[m.from := s.nodes[m.from]] == s.nodes;
    WovenFrom(s, g, Apply(s, ProbeDone(m)), g);
  }

  lemma WovenStep(s: Net, c: Id, step: Step, g: Graph) returns (g': Graph)
    requires Ordered(s, c) && Woven(s, g)
    requires Enabled(s, step) && !step.Fail? && Fresh(s, step)
    ensures PathsKept(g, g') && Woven(Apply(s, step), g')
  {
    g' := g;
    match step
    case DeliverPredRep(m) => g' := WovenPredRep(s, c, m, g);
    case DeliverFound(m) =>
      if m.why.ForJoin? {
        g' := WovenJoin(s, c, m, g);
      } else {
        WovenStore(s, c, m, g);
      }
    case DeliverNotify(m) => WovenNotify(s, c, m, g);
    case FixFinger(n, i) => WovenFix(s, c, n, i, g);
    case AnswerPred(m) => WovenAnswer(s, m, g);
    case ProbeDone(m) => WovenProbe(s, c, m, g);
    case _ => WovenSend(s, step, g);
  }

  lemma {:induction false} WovenRun(s: Net, c: Id, steps: seq<Step>, g: Graph) returns (g': Graph)
    requires Ordered(s, c) && Woven(s, g)
    requires CanRun(s, steps) && NoFailure(steps) && FreshRun(s, steps)
    ensures Ordered(Run(s, steps), c) && Woven(Run(s, steps), g') && PathsKept(g, g')
    decreases |steps|
  {
    g' := g;
    if steps != [] {
      OrderedStep(s, c, steps[0]);
      var g1 := WovenStep(s, c, steps[0], g);
      g' := WovenRun(Apply(s, steps[0]), c, steps[1..], g1);
      forall a, b | Path(g, a, b) ensures Path(g', a, b) {
        assert Path(g1, a, b);
      }
    }
  }

  lemma InitWoven(c: Id, useFingers: bool)
    ensures Woven(Init(c, useFingers), map[c := c])
  {
    InitOrdered(c, useFingers);
    OrderedGraph(Init(c, useFingers), c, map[c := c]);
    assert Path(map[c := c], c, c);
  }

  /** A node that is on the ring at some point of a run is still on it at any later point. */
  lemma OnceOnTheRing(c: Id, useFingers: bool, before: seq<Step>, after: seq<Step>, n: Id)
    requires CanRun(Init(c, useFingers), before) && NoFailure(before) && FreshRun(Init(c, useFingers), before)
    requires var s := Run(Init(c, useFingers), before);
             CanRun(s, after) && NoFailure(after) && FreshRun(s, after) && OnRingIn(s.nodes, c, n)
    ensures OnRingIn(Run(Run(Init(c, useFingers), before), after).nodes, c, n)
  {
    InitOrdered(c, useFingers);
    InitWoven(c, useFingers);
    var g := WovenRun(Init(c, useFingers), c, before, map[c := c]);
    var s := Run(Init(c, useFingers), before);
    var g' := WovenRun(s, c, after, g);
    ShownIsUnique(s.nodes, g);
    ShownIsUnique(Run(s, after).nodes, g');
    assert Path(g', c, n);
  }
}
