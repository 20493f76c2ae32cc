/** What messages that are still in flight when a ring has become ideal can do to it, outdated ones
    included: nothing to the successors, and to the predecessors only by a node's notify to itself. */
module StaysIdeal {
  import opened Ids
  import opened LocalNode
  import opened Network
  import JoinRuns
  import IdealRing
  import Convergence
  import IdealRuns
  import Members
  import Monotone
  import RingLoss
  import Rounds

  /** An ideal ring in a failure-free run, with nobody joining. Anything may be in flight. */
  ghost predicate IdealState(s: Net, c: Id) {
    JoinRuns.Ordered(s, c) && IdealRing.Ideal(s.nodes) && s.joining == {}
  }

  lemma SameMembers(s: Net, c: Id, step: Step)
    requires JoinRuns.Ordered(s, c) && s.joining == {} && Enabled(s, step) && IdealRuns.Maintains(step)
    ensures Apply(s, step).nodes.Keys == s.nodes.Keys && Apply(s, step).joining == {}
  {
    NobodyStartsToJoin(s, step);
    if step.DeliverPredRep? {
      assert step.m.to in s.nodes;
    } else {
      RingLoss.SameMembersUnlessPointed(s, c, step);
    }
  }

  lemma NobodyStartsToJoin(s: Net, step: Step)
    requires s.joining == {} && Enabled(s, step) && IdealRuns.Maintains(step)
    ensures Apply(s, step).joining == {} && (step.DeliverFound? ==> !step.m.why.ForJoin?)
  {
    if step.DeliverFound? {
      FoundJoinsNobody(s, step.m);
    }
  }

  lemma FoundJoinsNobody(s: Net, m: Msg)
    requires s.joining == {} && Enabled(s, DeliverFound(m))
    ensures Apply(s, DeliverFound(m)).joining == {} && !m.why.ForJoin?
  {
  }

  // ---------------------------------------------------------------- successors

  /** A successor that has not moved away from the nearest one is that one. */
  lemma NearestSuccessorStays(members: set<Id>, a: Node, b: Node)
    requires Connected(a) && Connected(b) && a.id == b.id && Members.IsNext(members, a.id, First(a))
    requires First(b) in members && Monotone.SuccCost(b) <= Monotone.SuccCost(a)
    ensures First(b) == First(a)
  {
    assert Arc(a.id, First(a)) <= Arc(a.id, First(b));
  }

  lemma {:induction false} SuccessorsStay(s: Net, c: Id, steps: seq<Step>, n: Id)
    requires IdealState(s, c) && CanRun(s, steps) && MaintenanceOnly(steps) && n in s.nodes
    ensures Run(s, steps).nodes.Keys == s.nodes.Keys && Run(s, steps).joining == {}
    ensures Up(s, n) && Up(Run(s, steps), n) && First(Run(s, steps).nodes[n]) == First(s.nodes[n])
  {
    assert IdealRing.IdealNode(s.nodes.Keys, n, s.nodes[n]);
    MembersStay(s, c, steps);
    JoinRuns.OrderedRun(s, c, steps);
    JoinRuns.OrderedNode(Run(s, steps), c, n);
    Monotone.SuccessorNeverMovesAwayInRun(s, c, steps, n);
    NearestSuccessorStays(s.nodes.Keys, s.nodes[n], Run(s, steps).nodes[n]);
  }

  lemma {:induction false} MembersStay(s: Net, c: Id, steps: seq<Step>)
    requires JoinRuns.Ordered(s, c) && s.joining == {} && CanRun(s, steps) && MaintenanceOnly(steps)
    ensures Run(s, steps).nodes.Keys == s.nodes.Keys && Run(s, steps).joining == {}
    decreases |steps|
  {
    if steps != [] {
      SameMembers(s, c, steps[0]);
      JoinRuns.OrderedStep(s, c, steps[0]);
      MembersStay(Apply(s, steps[0]), c, steps[1..]);
    }
  }

  // ---------------------------------------------------------------- predecessors

  /** No node is about to get a notify from itself, unless it is its own predecessor, alone. */
  ghost predicate NoOwnNotify(s: Net) {
    forall n {:trigger Notify(n, n)} :: Notify(n, n) in s.msgs ==> n in s.nodes && s.nodes[n].pred == Some(n)
  }

  lemma NearestPredecessorStays(members: set<Id>, a: Node, b: Node)
    requires a.id == b.id && a.pred.Some? && Members.IsPrev(members, a.id, a.pred.value)
    requires (b.pred.Some? ==> b.pred.value in members) && Monotone.PredCost(b) <= Monotone.PredCost(a)
    ensures b.pred == a.pred
  {
    assert Arc(a.pred.value, a.id) <= Arc(b.pred.value, a.id);
  }

  lemma NodeStaysIdeal(s: Net, c: Id, step: Step, n: Id)
    requires IdealState(s, c) && NoOwnNotify(s) && n in s.nodes
    requires Enabled(s, step) && IdealRuns.Maintains(step)
    ensures n in Apply(s, step).nodes && IdealRing.IdealNode(s.nodes.Keys, n, Apply(s, step).nodes[n])
    ensures Connected(s.nodes[n]) && First(Apply(s, step).nodes[n]) == First(s.nodes[n])
    ensures Apply(s, step).nodes[n].pred == s.nodes[n].pred
  {
    var s' := Apply(s, step);
    assert IdealRing.IdealNode(s.nodes.Keys, n, s.nodes[n]);
    SameMembers(s, c, step);
    JoinRuns.OrderedStep(s, c, step);
    JoinRuns.OrderedNode(s', c, n);
    Monotone.SuccessorNeverMovesAway(s, c, step, n);
    NearestSuccessorStays(s.nodes.Keys, s.nodes[n], s'.nodes[n]);
    Monotone.WhenAPredecessorGetsWorse(s, c, step, n);
    NearestPredecessorStays(s.nodes.Keys, s.nodes[n], s'.nodes[n]);
  }

  /** The only notifies a step sends are those that end a stabilisation. */
  lemma NewNotify(s: Net, step: Step, m: Msg)
    requires Enabled(s, step) && m in Apply(s, step).msgs && m.Notify?
    ensures m in s.msgs ||
            (step.DeliverPredRep? && m.from == step.m.to && m.from in Apply(s, step).nodes
             && Connected(Apply(s, step).nodes[m.from]) && m.to == First(Apply(s, step).nodes[m.from]))
  {
    match step
    case DeliverFound(r) => FoundSendsNoNotify(s, r, m);
    case Relay(r) =>
    case FixFinger(n, i) =>
    case StartUpdate(n) =>
    case _ =>
  }

  lemma FoundSendsNoNotify(s: Net, r: Msg, m: Msg)
    requires Enabled(s, DeliverFound(r)) && m in Apply(s, DeliverFound(r)).msgs && m.Notify?
    ensures m in s.msgs
  {
  }

  lemma StaysWithoutOwnNotify(s: Net, c: Id, step: Step)
    requires IdealState(s, c) && NoOwnNotify(s) && Enabled(s, step) && IdealRuns.Maintains(step)
    ensures NoOwnNotify(Apply(s, step))
  {
    var s' := Apply(s, step);
    SameMembers(s, c, step);
    forall n {:trigger Notify(n, n)} | Notify(n, n) in s'.msgs ensures n in s'.nodes && s'.nodes[n].pred == Some(n) {
      NewNotify(s, step, Notify(n, n));
      assert n in s.nodes;
      NodeStaysIdeal(s, c, step, n);
      if Notify(n, n) !in s.msgs {
        AloneIsOwnPredecessor(s.nodes.Keys, s'.nodes[n]);
      }
    }
  }

  lemma AloneIsOwnPredecessor(members: set<Id>, node: Node)
    requires node.id in members && IdealRing.IdealNode(members, node.id, node) && First(node) == node.id
    ensures node.pred == Some(node.id)
  {
    Members.PrevOfNext(members, node.id, node.id);
    Members.PrevIsUnique(members, node.id, node.id, node.pred.value);
  }

  /** Without such a notify the ring stays ideal for good, whatever else is in flight. */
  lemma {:induction false} RingStaysIdeal(s: Net, c: Id, steps: seq<Step>)
    requires IdealState(s, c) && NoOwnNotify(s) && CanRun(s, steps) && MaintenanceOnly(steps)
    ensures IdealRing.Ideal(Run(s, steps).nodes)
    decreases |steps|
  {
    if steps != [] {
      var s' := Apply(s, steps[0]);
      SameMembers(s, c, steps[0]);
      JoinRuns.OrderedStep(s, c, steps[0]);
      forall n {:trigger IdealRing.IdealNode(s'.nodes.Keys, n, s'.nodes[n])} | n in s'.nodes
        ensures IdealRing.IdealNode(s'.nodes.Keys, n, s'.nodes[n]) {
        NodeStaysIdeal(s, c, steps[0], n);
      }
      StaysWithoutOwnNotify(s, c, steps[0]);
      RingStaysIdeal(s', c, steps[1..]);
    }
  }

  lemma OwnNotifySpoils(s: Net, c: Id, n: Id)
    requires IdealState(s, c) && Notify(n, n) in s.msgs && n in s.nodes && s.nodes[n].pred != Some(n)
    ensures Enabled(s, DeliverNotify(Notify(n, n))) && !IdealRing.Ideal(Apply(s, DeliverNotify(Notify(n, n))).nodes)
  {
    var s' := Apply(s, DeliverNotify(Notify(n, n)));
    assert IdealRing.IdealNode(s.nodes.Keys, n, s.nodes[n]);
    Monotone.WhenNotifiedGetsWorse(s.nodes[n], n);
    assert s'.nodes.Keys == s.nodes.Keys;
    assert s'.nodes[n].pred == Some(n) && Arc(s.nodes[n].pred.value, n) < Arc(n, n);
    assert !IdealRing.IdealNode(s'.nodes.Keys, n, s'.nodes[n]);
  }

  /** Every maintenance run from an ideal ring stays ideal. */
  ghost predicate AlwaysIdeal(s: Net) {
    forall steps {:trigger CanRun(s, steps)} ::
      CanRun(s, steps) && MaintenanceOnly(steps) ==> IdealRing.Ideal(Run(s, steps).nodes)
  }

  /** An ideal ring stays ideal whatever happens exactly when no such notify is in flight. */
  lemma WhenItStaysIdeal(s: Net, c: Id)
    requires IdealState(s, c)
    ensures AlwaysIdeal(s) <==> NoOwnNotify(s)
  {
    if NoOwnNotify(s) {
      forall steps {:trigger CanRun(s, steps)} | CanRun(s, steps) && MaintenanceOnly(steps)
        ensures IdealRing.Ideal(Run(s, steps).nodes) {
        RingStaysIdeal(s, c, steps);
      }
    } else {
      var n :| Notify(n, n) in s.msgs && !(n in s.nodes && s.nodes[n].pred == Some(n));
      assert JoinRuns.GoodMsg(s.nodes.Keys, c, Notify(n, n));
      OwnNotifySpoils(s, c, n);
      Rounds.OneStep(s, DeliverNotify(Notify(n, n)));
      assert MaintenanceOnly([DeliverNotify(Notify(n, n))]);
    }
  }

  /** Such a ring meets the assumptions of the results on steady rings as soon as everything in flight is
      true of it; in particular when nothing is. */
  lemma IdealIsSteady(s: Net, c: Id)
    requires IdealState(s, c)
    ensures IdealRuns.Steady(s) <==>
            forall m {:trigger IdealRuns.TrueMsg(s.nodes, m)} :: m in s.msgs ==> IdealRuns.TrueMsg(s.nodes, m)
    ensures s.msgs == multiset{} ==> IdealRuns.Steady(s)
  {
    forall n {:trigger IdealRuns.SteadyNode(s.nodes.Keys, n, s.nodes[n])} | n in s.nodes
      ensures IdealRuns.SteadyNode(s.nodes.Keys, n, s.nodes[n]) {
      JoinRuns.OrderedNode(s, c, n);
      assert IdealRing.IdealNode(s.nodes.Keys, n, s.nodes[n]) && JoinRuns.GoodNode(s.nodes.Keys, c, n, s.nodes[n]);
    }
  }

  /** Stabilising ends in such a state, with what was in flight still there; so it has converged for good
      exactly when no node is about to get a notify from itself. */
  lemma ConvergesForGood(s: Net, c: Id, orders: seq<seq<Id>>) returns (steps: seq<Step>)
    requires JoinRuns.Ordered(s, c) && s.joining == {} && |orders| > Convergence.RankPotential(s.nodes)
    requires forall j :: 0 <= j < |orders| ==> Convergence.Covers(s.nodes.Keys, orders[j])
    ensures CanRun(s, steps) && MaintenanceOnly(steps) && IdealState(Run(s, steps), c)
    ensures Run(s, steps).msgs == s.msgs && (AlwaysIdeal(Run(s, steps)) <==> NoOwnNotify(Run(s, steps)))
  {
    steps := Convergence.ConvergingRun(s, c, orders);
    JoinRuns.OrderedRun(s, c, steps);
    WhenItStaysIdeal(Run(s, steps), c);
  }
}
