/** What no step of a failure-free run can undo, outdated replies included: the successor only ever
    comes nearer, and so does the predecessor, except for a notify a node once sent to itself. */
module Monotone {
  import opened Ids
  import opened LocalNode
  import opened Network
  import JoinRuns

  /** Clockwise distance to the first live successor; pointing at oneself is a full turn. */
  function SuccCost(node: Node): nat
    requires Connected(node)
  {
    Arc(node.id, First(node))
  }

  /** Clockwise distance from the predecessor; oneself is a full turn, none is more than that. */
  function PredCost(node: Node): nat {
    match node.pred
    case None => RING + 1
    case Some(p) => Arc(p, node.id)
  }

  lemma AdoptingComesNearer(node: Node, reply: Option<Id>)
    requires Connected(node)
    ensures Connected(StabilizeSpFound(node, reply))
    ensures SuccCost(StabilizeSpFound(node, reply)) <= SuccCost(node)
  {
  }

  /** Exactly when node_notified makes the predecessor worse: a node other than n is replaced by n itself. */
  lemma WhenNotifiedGetsWorse(node: Node, f: Id)
    ensures PredCost(Notified(node, f)) > PredCost(node) <==>
            f == node.id && node.pred.Some? && node.pred.value != node.id
  {
  }

  /** Same successor and same predecessor. */
  predicate SameNeighbours(a: Node, b: Node) {
    a.id == b.id && a.succs[0] == b.succs[0] && a.pred == b.pred
  }

  lemma ReceiveKeepsNeighbours(s: Net, found: Id, why: Purpose, n: Id)
    requires n in s.nodes
    requires why.ForJoin? ==> why.who !in s.nodes
    requires why.ForSlot? ==> why.who in s.nodes && 1 <= why.slot < NUM_OF_SUCCS
    requires why.ForFinger? ==> why.who in s.nodes && why.index < ID_BITS
    ensures n in Receive(s, found, why).nodes
    ensures SameNeighbours(s.nodes[n], Receive(s, found, why).nodes[n])
  {
  }

  lemma FoundKeepsNeighbours(s: Net, c: Id, m: Msg, n: Id)
    requires JoinRuns.Ordered(s, c) && Enabled(s, DeliverFound(m)) && n in s.nodes
    ensures n in Apply(s, DeliverFound(m)).nodes
    ensures SameNeighbours(s.nodes[n], Apply(s, DeliverFound(m)).nodes[n])
  {
    assert JoinRuns.GoodMsg(s.nodes.Keys, c, m);
    ReceiveKeepsNeighbours(Take(s, m), m.found, m.why, n);
  }

  lemma FixKeepsNeighbours(s: Net, k: Id, i: nat, n: Id)
    requires Enabled(s, FixFinger(k, i)) && n in s.nodes
    ensures n in Apply(s, FixFinger(k, i)).nodes
    ensures SameNeighbours(s.nodes[n], Apply(s, FixFinger(k, i)).nodes[n])
  {
  }

  lemma OtherStepsKeepNeighbours(s: Net, c: Id, step: Step, n: Id)
    requires JoinRuns.Ordered(s, c) && Enabled(s, step) && n in s.nodes
    requires !step.DeliverFound? && !step.FixFinger? && !step.Fail?
    requires step.DeliverPredRep? || step.DeliverNotify? ==> step.m.to != n
    ensures n in Apply(s, step).nodes && SameNeighbours(s.nodes[n], Apply(s, step).nodes[n])
  {
    match step {
      case ProbeDone(m) => assert JoinRuns.GoodMsg(s.nodes.Keys, c, m);
      case _ =>
    }
  }

  /** Only a stabilise reply or a notify delivered at n changes its neighbours. */
  lemma NeighboursChangeByTheirCallbacks(s: Net, c: Id, step: Step, n: Id)
    requires JoinRuns.Ordered(s, c) && Enabled(s, step) && !step.Fail? && n in s.nodes
    requires step.DeliverPredRep? || step.DeliverNotify? ==> step.m.to != n
    ensures n in Apply(s, step).nodes && SameNeighbours(s.nodes[n], Apply(s, step).nodes[n])
  {
    match step {
      case DeliverFound(m) => FoundKeepsNeighbours(s, c, m, n);
      case FixFinger(k, i) => FixKeepsNeighbours(s, k, i, n);
      case _ => OtherStepsKeepNeighbours(s, c, step, n);
    }
  }

  /** In no step does a member's successor move away. */
  lemma SuccessorNeverMovesAway(s: Net, c: Id, step: Step, n: Id)
    requires JoinRuns.Ordered(s, c) && Enabled(s, step) && !step.Fail? && n in s.nodes
    ensures Up(s, n) && Up(Apply(s, step), n)
    ensures SuccCost(Apply(s, step).nodes[n]) <= SuccCost(s.nodes[n])
  {
    JoinRuns.OrderedNode(s, c, n);
    if step.DeliverPredRep? && step.m.to == n {
      AdoptingComesNearer(s.nodes[n], step.m.pred);
    } else if !(step.DeliverNotify? && step.m.to == n) {
      NeighboursChangeByTheirCallbacks(s, c, step, n);
    }
  }

  lemma {:induction false} SuccessorNeverMovesAwayInRun(s: Net, c: Id, steps: seq<Step>, n: Id)
    requires JoinRuns.Ordered(s, c) && CanRun(s, steps) && NoFailure(steps) && n in s.nodes
    ensures Up(s, n) && Up(Run(s, steps), n)
    ensures SuccCost(Run(s, steps).nodes[n]) <= SuccCost(s.nodes[n])
    decreases |steps|
  {
    JoinRuns.OrderedNode(s, c, n);
    if steps != [] {
      JoinRuns.OrderedStep(s, c, steps[0]);
      SuccessorNeverMovesAway(s, c, steps[0], n);
      SuccessorNeverMovesAwayInRun(Apply(s, steps[0]), c, steps[1..], n);
    }
  }

  /** The only step that makes a predecessor worse is the delivery of a notify from the node itself,
      while it already knows a better one. */
  lemma WhenAPredecessorGetsWorse(s: Net, c: Id, step: Step, n: Id)
    requires JoinRuns.Ordered(s, c) && Enabled(s, step) && !step.Fail? && n in s.nodes
    ensures n in Apply(s, step).nodes
    ensures PredCost(Apply(s, step).nodes[n]) > PredCost(s.nodes[n]) <==>
            && step.DeliverNotify? && step.m == Notify(n, n)
            && s.nodes[n].pred.Some? && s.nodes[n].pred.value != n
  {
    JoinRuns.OrderedNode(s, c, n);
    if step.DeliverNotify? && step.m.to == n {
      WhenNotifiedGetsWorse(s.nodes[n], step.m.from);
    } else if !(step.DeliverPredRep? && step.m.to == n) {
      NeighboursChangeByTheirCallbacks(s, c, step, n);
    }
  }
}
