/** One whole stabilisation of a node taken in one go: ask the successor for its predecessor,
    adopt it or not, notify whoever is the successor now. */
module Rounds {
  import opened Ids
  import opened LocalNode
  import opened Network

  ghost predicate LinkedNode(members: set<Id>, n: Id, node: Node) {
    && node.id == n && Connected(node) && First(node) in members
    && (node.pred.Some? ==> node.pred.value in members)
  }

  ghost predicate Linked(nodes: Nodes) {
    forall n {:trigger LinkedNode(nodes.Keys, n, nodes[n])} :: n in nodes ==> LinkedNode(nodes.Keys, n, nodes[n])
  }

  /** node_network_stabalize up to and including the notify it leads to. */
  ghost function Round(nodes: Nodes, n: Id): (nodes': Nodes)
    requires Linked(nodes) && n in nodes
    ensures nodes'.Keys == nodes.Keys
  {
    assert LinkedNode(nodes.Keys, n, nodes[n]);
    var t := First(nodes[n]);
    assert LinkedNode(nodes.Keys, t, nodes[t]);
    var node := StabilizeSpFound(nodes[n], nodes[t].pred);
    var nodes1 := nodes[n := node];
    var s := First(node);
    nodes1[s := Notified(nodes1[s], n)]
  }

  lemma RoundKeepsLinked(nodes: Nodes, n: Id)
    requires Linked(nodes) && n in nodes
    ensures Linked(Round(nodes, n))
  {
    var nodes' := Round(nodes, n);
    assert LinkedNode(nodes.Keys, n, nodes[n]);
    assert LinkedNode(nodes.Keys, First(nodes[n]), nodes[First(nodes[n])]);
    forall k | k in nodes' ensures LinkedNode(nodes'.Keys, k, nodes'[k]) {
      assert LinkedNode(nodes.Keys, k, nodes[k]);
    }
  }

  /** The four steps of the network it consists of when nothing comes between. */
  ghost function RoundSteps(nodes: Nodes, n: Id): seq<Step>
    requires Linked(nodes) && n in nodes
  {
    assert LinkedNode(nodes.Keys, n, nodes[n]);
    var t := First(nodes[n]);
    assert LinkedNode(nodes.Keys, t, nodes[t]);
    var node := StabilizeSpFound(nodes[n], nodes[t].pred);
    [StartStabilise(n), AnswerPred(PredReq(n, t)),
     DeliverPredRep(PredRep(n, t, nodes[t].pred)), DeliverNotify(Notify(n, First(node)))]
  }

  lemma TakeUndoesSend(s: Net, m: Msg)
    ensures Take(Send(s, m), m) == s
  {
    assert s.msgs + multiset{m} - multiset{m} == s.msgs;
  }

  lemma AnswerAtOnce(s: Net, n: Id, t: Id)
    requires t in s.nodes
    ensures var step := AnswerPred(PredReq(n, t));
            && Enabled(Send(s, PredReq(n, t)), step)
            && Apply(Send(s, PredReq(n, t)), step) == Send(s, PredRep(n, t, s.nodes[t].pred))
  {
    TakeUndoesSend(s, PredReq(n, t));
  }

  lemma AdoptAtOnce(s: Net, n: Id, t: Id, reply: Option<Id>)
    requires Up(s, n)
    ensures var step := DeliverPredRep(PredRep(n, t, reply));
            && Enabled(Send(s, PredRep(n, t, reply)), step)
            && Apply(Send(s, PredRep(n, t, reply)), step) == TakePredRep(s, n, reply)
  {
    TakeUndoesSend(s, PredRep(n, t, reply));
  }

  lemma NotifyAtOnce(s: Net, n: Id, t: Id)
    requires t in s.nodes
    ensures var step := DeliverNotify(Notify(n, t));
            && Enabled(Send(s, Notify(n, t)), step)
            && Apply(Send(s, Notify(n, t)), step) == SetNode(s, t, Notified(s.nodes[t], n))
  {
    TakeUndoesSend(s, Notify(n, t));
  }

  /** The notify arrives at once. */
  lemma LastStep(s: Net, n: Id, t: Id)
    requires t in s.nodes
    ensures var last := [DeliverNotify(Notify(n, t))];
            && CanRun(Send(s, Notify(n, t)), last)
            && Run(Send(s, Notify(n, t)), last) == SetNode(s, t, Notified(s.nodes[t], n))
  {
    NotifyAtOnce(s, n, t);
    OneStep(Send(s, Notify(n, t)), DeliverNotify(Notify(n, t)));
  }

  /** The last two steps, from the arrival of the reply on. */
  ghost function Tail(n: Id, t: Id, reply: Option<Id>, u: Id): seq<Step> {
    [DeliverPredRep(PredRep(n, t, reply))] + [DeliverNotify(Notify(n, u))]
  }

  lemma FromReply(s: Net, n: Id, t: Id, reply: Option<Id>, node: Node, u: Id)
    requires Up(s, n) && node == StabilizeSpFound(s.nodes[n], reply) && u == First(node) && u in s.nodes
    ensures CanRun(Send(s, PredRep(n, t, reply)), Tail(n, t, reply, u))
    ensures var s3 := SetNode(s, n, node);
            Run(Send(s, PredRep(n, t, reply)), Tail(n, t, reply, u)) == SetNode(s3, u, Notified(s3.nodes[u], n))
  {
    AdoptAtOnce(s, n, t, reply);
    LastStep(SetNode(s, n, node), n, u);
    StepThen(Send(s, PredRep(n, t, reply)), DeliverPredRep(PredRep(n, t, reply)), [DeliverNotify(Notify(n, u))]);
  }

  lemma RoundIsFourSteps(s: Net, n: Id)
    requires Linked(s.nodes) && n in s.nodes
    ensures CanRun(s, RoundSteps(s.nodes, n))
    ensures Run(s, RoundSteps(s.nodes, n)) == s.(nodes := Round(s.nodes, n))
  {
    assert LinkedNode(s.nodes.Keys, n, s.nodes[n]);
    var t := First(s.nodes[n]);
    assert LinkedNode(s.nodes.Keys, t, s.nodes[t]);
    var reply := s.nodes[t].pred;
    var node := StabilizeSpFound(s.nodes[n], reply);
    var tail := Tail(n, t, reply, First(node));
    FromReply(s, n, t, reply, node, First(node));
    AnswerAtOnce(s, n, t);
    StepThen(Send(s, PredReq(n, t)), AnswerPred(PredReq(n, t)), tail);
    StepThen(s, StartStabilise(n), [AnswerPred(PredReq(n, t))] + tail);
    assert RoundSteps(s.nodes, n) == [StartStabilise(n)] + ([AnswerPred(PredReq(n, t))] + tail);
  }

  lemma OneStep(s: Net, step: Step)
    requires Enabled(s, step)
    ensures CanRun(s, [step]) && Run(s, [step]) == Apply(s, step)
  {
  }

  lemma StepThen(s: Net, step: Step, rest: seq<Step>)
    requires Enabled(s, step) && CanRun(Apply(s, step), rest)
    ensures CanRun(s, [step] + rest) && Run(s, [step] + rest) == Run(Apply(s, step), rest)
  {
    assert ([step] + rest)[1..] == rest;
  }

  /** The members of order stabilise one after the other. */
  ghost function Pass(nodes: Nodes, order: seq<Id>): (nodes': Nodes)
    requires Linked(nodes) && forall i :: 0 <= i < |order| ==> order[i] in nodes
    ensures nodes'.Keys == nodes.Keys && Linked(nodes')
    decreases |order|
  {
    if order == [] then nodes
    else
      RoundKeepsLinked(nodes, order[0]);
      Pass(Round(nodes, order[0]), order[1..])
  }

  /** Its steps: four for each stabilisation. */
  ghost function PassSteps(nodes: Nodes, order: seq<Id>): seq<Step>
    requires Linked(nodes) && forall i :: 0 <= i < |order| ==> order[i] in nodes
    decreases |order|
  {
    if order == [] then []
    else
      RoundKeepsLinked(nodes, order[0]);
      RoundSteps(nodes, order[0]) + PassSteps(Round(nodes, order[0]), order[1..])
  }

  /** A pass is a run of the network. */
  lemma {:induction false} PassIsARun(s: Net, order: seq<Id>)
    requires Linked(s.nodes) && forall i :: 0 <= i < |order| ==> order[i] in s.nodes
    ensures MaintenanceOnly(PassSteps(s.nodes, order)) && CanRun(s, PassSteps(s.nodes, order))
    ensures Run(s, PassSteps(s.nodes, order)) == s.(nodes := Pass(s.nodes, order))
    decreases |order|
  {
    if order != [] {
      var nodes1 := Round(s.nodes, order[0]);
      RoundIsFourSteps(s, order[0]);
      RoundKeepsLinked(s.nodes, order[0]);
      PassIsARun(s.(nodes := nodes1), order[1..]);
      RunAppends(s, RoundSteps(s.nodes, order[0]), PassSteps(nodes1, order[1..]));
    }
  }
}
