/** Runs without failures, started by node_network_create at c: whatever the interleaving, the
    successor pointers form one ring in id order. */
module JoinRuns {
  import opened Ids
  import opened LocalNode
  import RingGraph
  import opened Network

  // ---------------------------------------------------------------- the invariant

  /** Every pointer of the node names a member. */
  ghost predicate NamesMembers(members: set<Id>, node: Node) {
    && (forall k :: 0 <= k < NUM_OF_SUCCS && node.succs[k].Some? ==> node.succs[k].value in members)
    && (forall i :: 0 <= i < ID_BITS && node.fingers[i].Some? ==> node.fingers[i].value in members)
    && (node.pred.Some? ==> node.pred.value in members)
  }

  ghost predicate GoodNode(members: set<Id>, c: Id, n: Id, node: Node) {
    && node.id == n
    && node.succs[0].Some?
    && NamesMembers(members, node)
    && NoSelfFinger(node)
    && NoSkip(c, n, node.succs[0].value)
  }

  ghost predicate GoodMsg(members: set<Id>, c: Id, m: Msg) {
    match m
    case LookupAt(at, target, why) => at in members && GoodPurpose(members, target, why)
    case Found(found, target, why) =>
      && found in members && GoodPurpose(members, target, why)
      && (why.ForJoin? ==> found == target || NoSkip(c, target, found))
    case PredReq(from, asked) => from in members && asked in members
    case PredRep(to, asked, pred) =>
      to in members && asked in members && (pred.Some? ==> pred.value in members)
    case Notify(from, to) => from in members && to in members
    case Probe(from, slot, asked) => from in members && asked in members
  }

  ghost predicate GoodPurpose(members: set<Id>, target: Id, why: Purpose) {
    match why
    case ForJoin(j) => target == j
    case ForSlot(n, k) => n in members && 1 <= k < NUM_OF_SUCCS
    case ForFinger(n, i) => n in members && 1 <= i < ID_BITS
  }

  /** Pointers name members and none jumps over the creator. */
  ghost predicate Ordered(s: Net, c: Id) {
    && c in s.nodes
    && s.joining !! s.nodes.Keys
    && (forall n {:trigger GoodNode(s.nodes.Keys, c, n, s.nodes[n])} ::
          n in s.nodes ==> GoodNode(s.nodes.Keys, c, n, s.nodes[n]))
    && (forall m {:trigger GoodMsg(s.nodes.Keys, c, m)} ::
          m in s.msgs ==> GoodMsg(s.nodes.Keys, c, m))
  }

  /** The ring pointers of a network: everyone's slot 0, the first live one as long as nobody crashes. */
  ghost function SuccGraph(nodes: Nodes): RingGraph.Graph {
    map n | n in nodes && nodes[n].succs[0].Some? :: nodes[n].succs[0].value
  }

  lemma OrderedNode(s: Net, c: Id, n: Id)
    requires Ordered(s, c) && n in s.nodes
    ensures GoodNode(s.nodes.Keys, c, n, s.nodes[n])
    ensures Connected(s.nodes[n]) && s.nodes[n].succs[0] == Some(First(s.nodes[n]))
    ensures First(s.nodes[n]) in s.nodes && NoSkip(c, n, First(s.nodes[n]))
  {
    assert GoodNode(s.nodes.Keys, c, n, s.nodes[n]);
  }

  /** g is the graph of those pointers. */
  ghost predicate Shows(nodes: Nodes, g: RingGraph.Graph) {
    g.Keys == nodes.Keys && forall n {:trigger PointsAt(nodes, n, g[n])} :: n in nodes ==> PointsAt(nodes, n, g[n])
  }

  ghost predicate PointsAt(nodes: Nodes, n: Id, s: Id) {
    n in nodes && nodes[n].succs[0] == Some(s)
  }

  lemma ShownGraph(s: Net, c: Id)
    requires Ordered(s, c)
    ensures Shows(s.nodes, SuccGraph(s.nodes))
  {
    forall n | n in s.nodes ensures n in SuccGraph(s.nodes) {
      OrderedNode(s, c, n);
    }
  }

  lemma ShownIsUnique(nodes: Nodes, g: RingGraph.Graph)
    requires Shows(nodes, g)
    ensures g == SuccGraph(nodes)
  {
    forall n | n in g ensures n in SuccGraph(nodes) && SuccGraph(nodes)[n] == g[n] {
      assert PointsAt(nodes, n, g[n]);
    }
  }

  lemma OrderedGraph(s: Net, c: Id, g: RingGraph.Graph)
    requires Ordered(s, c) && Shows(s.nodes, g)
    ensures RingGraph.Closed(g) && RingGraph.Rooted(g, c)
  {
    forall n {:trigger NoSkip(c, n, g[n])} | n in g ensures g[n] in g && NoSkip(c, n, g[n]) {
      assert PointsAt(s.nodes, n, g[n]);
      OrderedNode(s, c, n);
    }
    forall n {:trigger g[n]} | n in g ensures g[n] in g {
      assert NoSkip(c, n, g[n]);
    }
  }

  // ---------------------------------------------------------------- kept by every step

  lemma SendKeepsOrdered(s: Net, c: Id, m: Msg)
    requires Ordered(s, c) && GoodMsg(s.nodes.Keys, c, m)
    ensures Ordered(Send(s, m), c)
  {
  }

  lemma TakeKeepsOrdered(s: Net, c: Id, m: Msg)
    requires Ordered(s, c)
    ensures Ordered(Take(s, m), c)
  {
  }

  lemma UpdateKeepsOrdered(s: Net, c: Id, n: Id, node: Node)
    requires Ordered(s, c) && n in s.nodes && GoodNode(s.nodes.Keys, c, n, node)
    ensures Ordered(SetNode(s, n, node), c)
  {
    var s' := SetNode(s, n, node);
    assert s'.nodes.Keys == s.nodes.Keys;
    forall k {:trigger GoodNode(s'.nodes.Keys, c, k, s'.nodes[k])} | k in s'.nodes
      ensures GoodNode(s'.nodes.Keys, c, k, s'.nodes[k]) {
      if k != n {
        assert GoodNode(s.nodes.Keys, c, k, s.nodes[k]);
      }
    }
    forall m {:trigger GoodMsg(s'.nodes.Keys, c, m)} | m in s'.msgs ensures GoodMsg(s'.nodes.Keys, c, m) {
      assert GoodMsg(s.nodes.Keys, c, m);
    }
  }

  lemma JoinKeepsOrdered(s: Net, c: Id, j: Id, found: Id)
    requires Ordered(s, c) && j !in s.nodes && found in s.nodes && NoSkip(c, j, found)
    ensures Ordered(Receive(s, found, ForJoin(j)), c)
  {
    var s' := Receive(s, found, ForJoin(j));
    assert s'.nodes.Keys == s.nodes.Keys + {j};
    forall k {:trigger GoodNode(s'.nodes.Keys, c, k, s'.nodes[k])} | k in s'.nodes
      ensures GoodNode(s'.nodes.Keys, c, k, s'.nodes[k]) {
      if k != j {
        assert GoodNode(s.nodes.Keys, c, k, s.nodes[k]);
      }
    }
    forall m {:trigger GoodMsg(s'.nodes.Keys, c, m)} | m in s'.msgs ensures GoodMsg(s'.nodes.Keys, c, m) {
      assert GoodMsg(s.nodes.Keys, c, m);
    }
  }

  /** The answer a node gives to a join lookup does not jump over the creator either. */
  lemma AnswersAreOrdered(members: set<Id>, c: Id, node: Node, x: Id, useFingers: bool)
    requires GoodNode(members, c, node.id, node) && node.id in members
    ensures Connected(node)
    ensures match FindSuccessor(node, x, useFingers)
            case Answer(a) => a in members && (a == x || NoSkip(c, x, a))
            case Forward(to) => to in members
  {
    if FindSuccessor(node, x, useFingers).Forward? {
      ForwardGetsCloser(node, x, useFingers);
    }
  }

  lemma ServeKeepsOrdered(s: Net, c: Id, at: Id, target: Id, why: Purpose)
    requires Ordered(s, c) && Up(s, at) && GoodPurpose(s.nodes.Keys, target, why)
    ensures Ordered(Serve(s, at, target, why), c)
  {
    assert GoodNode(s.nodes.Keys, c, at, s.nodes[at]);
    AnswersAreOrdered(s.nodes.Keys, c, s.nodes[at], target, s.useFingers);
    match FindSuccessor(s.nodes[at], target, s.useFingers)
    case Answer(f) => SendKeepsOrdered(s, c, Found(f, target, why));
    case Forward(n) => SendKeepsOrdered(s, c, LookupAt(n, target, why));
  }

  lemma AskKeepsOrdered(s: Net, c: Id, n: Id, k: nat)
    requires Ordered(s, c) && n in s.nodes && k + 1 < NUM_OF_SUCCS
    ensures Ordered(AskForSlot(s, n, k), c)
  {
    assert GoodNode(s.nodes.Keys, c, n, s.nodes[n]);
    var slot := s.nodes[n].succs[k];
    if slot.Some? {
      SendKeepsOrdered(s, c, LookupAt(slot.value, Plus(slot.value, 1), ForSlot(n, k + 1)));
    }
  }

  lemma FingerKeepsOrdered(s: Net, c: Id, n: Id, i: nat, found: Id)
    requires Ordered(s, c) && n in s.nodes && i < ID_BITS && found in s.nodes
    ensures Ordered(SetNode(s, n, FingerUpdate(s.nodes[n], i, found)), c)
  {
    assert GoodNode(s.nodes.Keys, c, n, s.nodes[n]);
    UpdateKeepsOrdered(s, c, n, FingerUpdate(s.nodes[n], i, found));
  }

  lemma ReceiveKeepsOrdered(s: Net, c: Id, found: Id, target: Id, why: Purpose)
    requires Ordered(s, c) && GoodMsg(s.nodes.Keys, c, Found(found, target, why))
    requires why.ForJoin? ==> why.who !in s.nodes
    ensures Ordered(Receive(s, found, why), c)
  {
    match why
    case ForJoin(j) => JoinKeepsOrdered(s, c, j, found);
    case ForSlot(n, k) =>
      assert GoodNode(s.nodes.Keys, c, n, s.nodes[n]);
      var node := UpdateSuccsFound(s.nodes[n], k, found);
      UpdateKeepsOrdered(s, c, n, node);
      if k + 1 < NUM_OF_SUCCS {
        AskKeepsOrdered(SetNode(s, n, node), c, n, k);
      }
    case ForFinger(n, i) => FingerKeepsOrdered(s, c, n, i, found);
  }

  /** Adopting a successor, even from an outdated reply, keeps the pointer from jumping over c. */
  lemma StabiliseKeepsOrdered(s: Net, c: Id, n: Id, reply: Option<Id>)
    requires Ordered(s, c) && Up(s, n) && (reply.Some? ==> reply.value in s.nodes)
    ensures Ordered(TakePredRep(s, n, reply), c)
  {
    assert GoodNode(s.nodes.Keys, c, n, s.nodes[n]);
    var node := StabilizeSpFound(s.nodes[n], reply);
    assert First(s.nodes[n]) == s.nodes[n].succs[0].value;
    assert GoodNode(s.nodes.Keys, c, n, node);
    UpdateKeepsOrdered(s, c, n, node);
    SendKeepsOrdered(SetNode(s, n, node), c, Notify(n, First(node)));
  }

  lemma OrderedStep(s: Net, c: Id, step: Step)
    requires Ordered(s, c) && Enabled(s, step) && !step.Fail?
    ensures Ordered(Apply(s, step), c)
  {
    match step
    case StartJoin(j, via) => SendKeepsOrdered(s, c, LookupAt(via, j, ForJoin(j)));
    case Relay(m) =>
      assert GoodMsg(s.nodes.Keys, c, m);
      TakeKeepsOrdered(s, c, m);
      ServeKeepsOrdered(Take(s, m), c, m.at, m.target, m.why);
    case DeliverFound(m) =>
      assert GoodMsg(s.nodes.Keys, c, m);
      TakeKeepsOrdered(s, c, m);
      ReceiveKeepsOrdered(Take(s, m), c, m.found, m.target, m.why);
    case StartStabilise(n) =>
      assert GoodNode(s.nodes.Keys, c, n, s.nodes[n]);
      SendKeepsOrdered(s, c, PredReq(n, First(s.nodes[n])));
    case AnswerPred(m) =>
      assert GoodMsg(s.nodes.Keys, c, m);
      assert GoodNode(s.nodes.Keys, c, m.asked, s.nodes[m.asked]);
      TakeKeepsOrdered(s, c, m);
      SendKeepsOrdered(Take(s, m), c, PredRep(m.from, m.asked, s.nodes[m.asked].pred));
    case DeliverPredRep(m) =>
      assert GoodMsg(s.nodes.Keys, c, m);
      TakeKeepsOrdered(s, c, m);
      StabiliseKeepsOrdered(Take(s, m), c, m.to, m.pred);
    case DeliverNotify(m) =>
      assert GoodMsg(s.nodes.Keys, c, m);
      assert GoodNode(s.nodes.Keys, c, m.to, s.nodes[m.to]);
      TakeKeepsOrdered(s, c, m);
      UpdateKeepsOrdered(Take(s, m), c, m.to, Notified(s.nodes[m.to], m.from));
    case StartUpdate(n) => AskKeepsOrdered(s, c, n, FirstAlive(s.nodes[n].succs));
    case FixFinger(n, i) =>
      assert GoodNode(s.nodes.Keys, c, n, s.nodes[n]);
      var x := FingerTarget(n, i);
      AnswersAreOrdered(s.nodes.Keys, c, s.nodes[n], x, s.useFingers);
      match FindSuccessor(s.nodes[n], x, s.useFingers) {
        case Answer(f) => FingerKeepsOrdered(s, c, n, i, f);
        case Forward(to) => SendKeepsOrdered(s, c, LookupAt(to, x, ForFinger(n, i)));
      }
    case CheckSucc(n, k) =>
      assert GoodNode(s.nodes.Keys, c, n, s.nodes[n]);
      SendKeepsOrdered(s, c, Probe(n, Some(k), s.nodes[n].succs[k].value));
    case CheckPred(n) =>
      assert GoodNode(s.nodes.Keys, c, n, s.nodes[n]);
      SendKeepsOrdered(s, c, Probe(n, None, s.nodes[n].pred.value));
    case ProbeDone(m) =>
      assert GoodMsg(s.nodes.Keys, c, m);
      assert GoodNode(s.nodes.Keys, c, m.from, s.nodes[m.from]);
      TakeKeepsOrdered(s, c, m);
      UpdateKeepsOrdered(Take(s, m), c, m.from, s.nodes[m.from]);
  }

  lemma InitOrdered(c: Id, useFingers: bool)
    ensures Ordered(Init(c, useFingers), c)
  {
    var s := Init(c, useFingers);
    assert GoodNode({c}, c, c, Created(c));
    assert s.nodes.Keys == {c} && s.nodes[c] == Created(c);
    forall n {:trigger GoodNode(s.nodes.Keys, c, n, s.nodes[n])} | n in s.nodes
      ensures GoodNode(s.nodes.Keys, c, n, s.nodes[n]) {
      assert n == c;
    }
  }

  lemma {:induction false} OrderedRun(s: Net, c: Id, steps: seq<Step>)
    requires Ordered(s, c) && CanRun(s, steps) && NoFailure(steps)
    ensures Ordered(Run(s, steps), c)
    decreases |steps|
  {
    if steps != [] {
      OrderedStep(s, c, steps[0]);
      OrderedRun(Apply(s, steps[0]), c, steps[1..]);
    }
  }

  /** In every run without failures from node_network_create, with every interleaving, any number
      of outstanding requests and outdated replies, the successor pointers (everyone's slot 0, which
      is live) are one ring through the creator, in id order, and all other members lead into it. */
  lemma OneRingInEveryRun(c: Id, useFingers: bool, steps: seq<Step>, s: Net) returns (g: RingGraph.Graph)
    requires CanRun(Init(c, useFingers), steps) && NoFailure(steps)
    requires s == Run(Init(c, useFingers), steps)
    ensures Shows(s.nodes, g) && RingGraph.Closed(g) && c in g && RingGraph.OneOrderedRing(g, c)
  {
    InitOrdered(c, useFingers);
    OrderedRun(Init(c, useFingers), c, steps);
    ShownGraph(s, c);
    g := SuccGraph(s.nodes);
    OrderedGraph(s, c, g);
    RingGraph.RootedIsOneRing(g, c);
  }
}
