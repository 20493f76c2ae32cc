/** Once nobody joins any more, stabilising repairs the ring for good: a potential drops with every
    stabilisation that changes anything, and the states that none changes are the ideal rings. */
module Convergence {
  import opened Ids
  import opened LocalNode
  import RingGraph
  import opened Network
  import Members
  import IdealRing
  import opened JoinRuns
  import Monotone
  import opened Rounds

  /** The nodes on their own, no message in flight. */
  function Still(nodes: Nodes): Net {
    Net(false, nodes, {}, multiset{})
  }

  /** The nodes of a network some failure-free run from node_network_create at c can be in. */
  ghost predicate Settled(nodes: Nodes, c: Id) {
    Ordered(Still(nodes), c)
  }

  lemma RunsAreSettled(s: Net, c: Id)
    requires Ordered(s, c)
    ensures Settled(s.nodes, c)
  {
    forall n | n in s.nodes ensures GoodNode(s.nodes.Keys, c, n, s.nodes[n]) {
    }
  }

  lemma SettledIsLinked(nodes: Nodes, c: Id)
    requires Settled(nodes, c)
    ensures Linked(nodes)
  {
    forall n | n in nodes ensures LinkedNode(nodes.Keys, n, nodes[n]) {
      OrderedNode(Still(nodes), c, n);
    }
  }

  lemma RoundKeepsSettled(nodes: Nodes, c: Id, n: Id)
    requires Settled(nodes, c) && n in nodes
    ensures Linked(nodes) && Settled(Round(nodes, n), c)
  {
    SettledIsLinked(nodes, c);
    RoundIsFourSteps(Still(nodes), n);
    OrderedRun(Still(nodes), c, RoundSteps(nodes, n));
  }

  // ---------------------------------------------------------------- the potential

  function Cost(node: Node): nat {
    if Connected(node) then Monotone.SuccCost(node) + Monotone.PredCost(node) else 0
  }

  ghost function Pick(members: set<Id>): Id
    requires members != {}
  {
    var x :| x in members; x
  }

  /** What the members cost together, each by the same measure. */
  ghost function Sum(cost: Node -> nat, nodes: Nodes, members: set<Id>): nat
    requires members <= nodes.Keys
    decreases |members|
  {
    if members == {} then 0
    else
      var x := Pick(members);
      assert x in members;
      cost(nodes[x]) + Sum(cost, nodes, members - {x})
  }

  /** Summed successor and predecessor distances of all nodes. */
  ghost function Potential(nodes: Nodes): nat {
    Sum(Cost, nodes, nodes.Keys)
  }

  /** No node costs more than before. */
  ghost predicate NoDearer(cost: Node -> nat, nodes: Nodes, nodes': Nodes, members: set<Id>) {
    && members <= nodes.Keys && members <= nodes'.Keys
    && forall m :: m in members ==> cost(nodes'[m]) <= cost(nodes[m])
  }

  lemma {:induction false} SumDrops(cost: Node -> nat, nodes: Nodes, nodes': Nodes, members: set<Id>)
    requires NoDearer(cost, nodes, nodes', members)
    ensures Sum(cost, nodes', members) <= Sum(cost, nodes, members)
    ensures (exists m :: m in members && cost(nodes'[m]) < cost(nodes[m])) ==>
              Sum(cost, nodes', members) < Sum(cost, nodes, members)
    decreases |members|
  {
    if members != {} {
      var x := Pick(members);
      SumDrops(cost, nodes, nodes', members - {x});
    }
  }

  lemma {:induction false} SumAtMost(cost: Node -> nat, nodes: Nodes, members: set<Id>, most: nat)
    requires members <= nodes.Keys && forall m :: m in members ==> cost(nodes[m]) <= most
    ensures Sum(cost, nodes, members) <= |members| * most
    decreases |members|
  {
    if members != {} {
      var x := Pick(members);
      SumAtMost(cost, nodes, members - {x}, most);
      OneMoreTime(|members - {x}|, most);
    }
  }

  lemma OneMoreTime(n: nat, most: nat)
    ensures (n + 1) * most == n * most + most
  {
  }

  lemma {:induction false} SumBelow(cost: Node -> nat, other: Node -> nat, nodes: Nodes, members: set<Id>)
    requires members <= nodes.Keys && forall m :: m in members ==> cost(nodes[m]) <= other(nodes[m])
    ensures Sum(cost, nodes, members) <= Sum(other, nodes, members)
    decreases |members|
  {
    if members != {} {
      SumBelow(cost, other, nodes, members - {Pick(members)});
    }
  }

  // ---------------------------------------------------------------- the same, counted in members

  ghost function NearerAhead(members: set<Id>, n: Id, d: nat): set<Id> {
    set m | m in members && Arc(n, m) < d
  }

  ghost function NearerBehind(members: set<Id>, n: Id, d: nat): set<Id> {
    set m | m in members && Arc(m, n) < d
  }

  /** How many members are nearer than the successor, and how many nearer than the predecessor. */
  ghost function Rank(members: set<Id>, node: Node): nat {
    if Connected(node) then
      |NearerAhead(members, node.id, Monotone.SuccCost(node))|
      + |NearerBehind(members, node.id, Monotone.PredCost(node))|
    else 0
  }

  ghost function RankAmong(members: set<Id>): Node -> nat {
    node => Rank(members, node)
  }

  ghost function RankPotential(nodes: Nodes): nat {
    Sum(RankAmong(nodes.Keys), nodes, nodes.Keys)
  }

  lemma Fewer<T>(a: set<T>, b: set<T>)
    requires a <= b
    ensures |a| <= |b|
    ensures a != b ==> |a| < |b|
  {
    assert b == a + (b - a);
  }

  /** Neither neighbour further away. */
  predicate NoFurther(a: Node, b: Node) {
    && Connected(a) && Connected(b) && a.id == b.id
    && Monotone.SuccCost(b) <= Monotone.SuccCost(a) && Monotone.PredCost(b) <= Monotone.PredCost(a)
  }

  ghost predicate AllNoFurther(nodes: Nodes, nodes': Nodes) {
    && nodes'.Keys == nodes.Keys
    && forall m {:trigger NoFurther(nodes[m], nodes'[m])} :: m in nodes ==> NoFurther(nodes[m], nodes'[m])
  }

  lemma RankDrops(members: set<Id>, a: Node, b: Node)
    requires NoFurther(a, b) && First(b) in members && (b.pred.Some? ==> b.pred.value in members)
    ensures Rank(members, b) <= Rank(members, a) && Cost(b) <= Cost(a)
    ensures Cost(b) < Cost(a) ==> Rank(members, b) < Rank(members, a)
  {
    var n := a.id;
    var ahead, behind := Monotone.SuccCost(b), Monotone.PredCost(b);
    Fewer(NearerAhead(members, n, ahead), NearerAhead(members, n, Monotone.SuccCost(a)));
    Fewer(NearerBehind(members, n, behind), NearerBehind(members, n, Monotone.PredCost(a)));
    if ahead < Monotone.SuccCost(a) {
      assert First(b) !in NearerAhead(members, n, ahead) && First(b) in NearerAhead(members, n, Monotone.SuccCost(a));
    }
    if behind < Monotone.PredCost(a) {
      var p := b.pred.value;
      assert p !in NearerBehind(members, n, behind) && p in NearerBehind(members, n, Monotone.PredCost(a));
    }
  }

  lemma {:induction false} FewWithin(members: set<Id>, n: Id, d: nat)
    ensures d >= 1 ==> |NearerAhead(members, n, d)| <= d - 1 && |NearerBehind(members, n, d)| <= d - 1
    decreases d
  {
    if d <= 1 {
      assert NearerAhead(members, n, d) == {} && NearerBehind(members, n, d) == {};
    } else {
      FewWithin(members, n, d - 1);
      OneAtEachDistance(members, n, d);
    }
  }

  lemma OneAtEachDistance(members: set<Id>, n: Id, d: nat)
    requires d >= 1
    ensures |NearerAhead(members, n, d)| <= |NearerAhead(members, n, d - 1)| + 1
    ensures |NearerBehind(members, n, d)| <= |NearerBehind(members, n, d - 1)| + 1
  {
    var ahead := NearerAhead(members, n, d) - NearerAhead(members, n, d - 1);
    var behind := NearerBehind(members, n, d) - NearerBehind(members, n, d - 1);
    assert NearerAhead(members, n, d) == NearerAhead(members, n, d - 1) + ahead;
    assert NearerBehind(members, n, d) == NearerBehind(members, n, d - 1) + behind;
    AtMostOne(ahead);
    AtMostOne(behind);
  }

  lemma AtMostOne(s: set<Id>)
    requires forall a, b :: a in s && b in s ==> a == b
    ensures |s| <= 1
  {
    if s != {} {
      assert s == {Pick(s)};
    }
  }

  /** Of n members at most 2n - 1 are nearer ahead and behind, and never more than the distances. */
  lemma RankIsSmall(members: set<Id>, node: Node)
    requires Connected(node) && First(node) in members
    ensures Rank(members, node) <= 2 * |members| - 1 && Rank(members, node) <= Cost(node)
  {
    var ahead := NearerAhead(members, node.id, Monotone.SuccCost(node));
    assert First(node) !in ahead;
    Fewer(ahead, members);
    Fewer(NearerBehind(members, node.id, Monotone.PredCost(node)), members);
    FewWithin(members, node.id, Monotone.SuccCost(node));
    FewWithin(members, node.id, Monotone.PredCost(node));
  }

  /** The count of members is never more than the distances, and below 2n^2 on n members. */
  lemma RankPotentialIsSmall(nodes: Nodes, c: Id)
    requires Settled(nodes, c)
    ensures RankPotential(nodes) <= Potential(nodes)
    ensures RankPotential(nodes) < 2 * |nodes| * |nodes|
  {
    var members := nodes.Keys;
    forall m | m in members
      ensures Rank(members, nodes[m]) <= 2 * |members| - 1 && Rank(members, nodes[m]) <= Cost(nodes[m]) {
      OrderedNode(Still(nodes), c, m);
      RankIsSmall(members, nodes[m]);
    }
    SumBelow(RankAmong(members), Cost, nodes, members);
    SumAtMost(RankAmong(members), nodes, members, 2 * |members| - 1);
    Squared(|members|);
    assert c in members && |members| == |nodes|;
  }

  lemma Squared(n: nat)
    requires n >= 1
    ensures n * (2 * n - 1) < 2 * n * n
  {
  }

  // ---------------------------------------------------------------- what a stabilisation does to it

  lemma AdoptionLowersCost(node: Node, reply: Option<Id>)
    requires node.succs[0].Some?
    ensures NoFurther(node, StabilizeSpFound(node, reply))
    ensures StabilizeSpFound(node, reply) == node || Cost(StabilizeSpFound(node, reply)) < Cost(node)
  {
    var node' := StabilizeSpFound(node, reply);
    if node'.succs[0] == node.succs[0] {
      assert node'.succs == node.succs;
    } else {
      assert First(node') == node'.succs[0].value && First(node) == node.succs[0].value;
    }
  }

  lemma NotifyLowersCost(node: Node, f: Id)
    requires Connected(node)
    requires f == node.id ==> node.pred.None? || node.pred.value == f
    ensures NoFurther(node, Notified(node, f))
    ensures Notified(node, f) == node || Cost(Notified(node, f)) < Cost(node)
  {
    Monotone.WhenNotifiedGetsWorse(node, f);
    assert First(Notified(node, f)) == First(node);
    if Notified(node, f) != node {
      assert Monotone.PredCost(Notified(node, f)) != Monotone.PredCost(node);
    }
  }

  lemma AllNoFurtherFrom(nodes: Nodes, c: Id, nodes': Nodes, n: Id, u: Id)
    requires Settled(nodes, c) && nodes'.Keys == nodes.Keys && n in nodes && u in nodes
    requires NoFurther(nodes[n], nodes'[n]) && NoFurther(nodes[u], nodes'[u])
    requires forall m :: m in nodes && m != n && m != u ==> nodes'[m] == nodes[m]
    ensures AllNoFurther(nodes, nodes')
  {
    forall m {:trigger NoFurther(nodes[m], nodes'[m])} | m in nodes ensures NoFurther(nodes[m], nodes'[m]) {
      OrderedNode(Still(nodes), c, m);
    }
  }

  /** A stabilisation moves no neighbour of any node away, and makes some node cheaper unless it changes
      nothing at all. */
  lemma RoundLowersCost(nodes: Nodes, c: Id, n: Id)
    requires Settled(nodes, c) && n in nodes
    ensures Linked(nodes) && AllNoFurther(nodes, Round(nodes, n))
    ensures Round(nodes, n) != nodes ==> exists m :: m in nodes && Cost(Round(nodes, n)[m]) < Cost(nodes[m])
  {
    SettledIsLinked(nodes, c);
    var s, nodes' := Still(nodes), Round(nodes, n);
    OrderedNode(s, c, n);
    var t := First(nodes[n]);
    OrderedNode(s, c, t);
    var node := StabilizeSpFound(nodes[n], nodes[t].pred);
    AdoptionLowersCost(nodes[n], nodes[t].pred);
    var u := First(node);
    OrderedNode(s, c, u);
    var nodes1 := nodes[n := node];
    assert u == n ==> nodes1[u].pred.None? || nodes1[u].pred.value == n;
    NotifyLowersCost(nodes1[u], n);
    assert nodes' == nodes1[u := Notified(nodes1[u], n)];
    AllNoFurtherFrom(nodes, c, nodes', n, u);
    if node != nodes[n] {
      assert Cost(nodes'[n]) < Cost(nodes[n]);
    } else if nodes' != nodes {
      assert nodes1 == nodes;
      assert Cost(nodes'[u]) < Cost(nodes[u]);
    }
  }

  /** Every stabilisation that changes anything strictly lowers the potential. */
  lemma RoundLowersPotential(nodes: Nodes, c: Id, n: Id)
    requires Settled(nodes, c) && n in nodes
    ensures Linked(nodes) && Settled(Round(nodes, n), c)
    ensures Round(nodes, n) == nodes || Potential(Round(nodes, n)) < Potential(nodes)
  {
    RoundKeepsSettled(nodes, c, n);
    RoundLowersCost(nodes, c, n);
    forall m | m in nodes ensures Cost(Round(nodes, n)[m]) <= Cost(nodes[m]) {
      assert NoFurther(nodes[m], Round(nodes, n)[m]);
    }
    SumDrops(Cost, nodes, Round(nodes, n), nodes.Keys);
  }

  /** And the count of members. */
  lemma RoundLowersRank(nodes: Nodes, c: Id, n: Id)
    requires Settled(nodes, c) && n in nodes
    ensures Linked(nodes) && Settled(Round(nodes, n), c)
    ensures Round(nodes, n) == nodes || RankPotential(Round(nodes, n)) < RankPotential(nodes)
  {
    RoundKeepsSettled(nodes, c, n);
    RoundLowersCost(nodes, c, n);
    var nodes', rank := Round(nodes, n), RankAmong(nodes.Keys);
    forall m | m in nodes
      ensures rank(nodes'[m]) <= rank(nodes[m])
      ensures Cost(nodes'[m]) < Cost(nodes[m]) ==> rank(nodes'[m]) < rank(nodes[m]) {
      assert NoFurther(nodes[m], nodes'[m]);
      OrderedNode(Still(nodes'), c, m);
      RankDrops(nodes.Keys, nodes[m], nodes'[m]);
    }
    SumDrops(rank, nodes, nodes', nodes.Keys);
  }

  // ---------------------------------------------------------------- where it stops

  /** Nobody's stabilisation changes anything. */
  ghost predicate Quiescent(nodes: Nodes)
    requires Linked(nodes)
  {
    forall n {:trigger Round(nodes, n)} :: n in nodes ==> Round(nodes, n) == nodes
  }

  lemma UnchangedMeansKnown(nodes: Nodes, c: Id, n: Id)
    requires Settled(nodes, c) && n in nodes && Linked(nodes) && Round(nodes, n) == nodes
    ensures Connected(nodes[n]) && First(nodes[n]) in nodes && nodes[First(nodes[n])].pred == Some(n)
  {
    var s := Still(nodes);
    OrderedNode(s, c, n);
    var t := First(nodes[n]);
    OrderedNode(s, c, t);
    var reply := nodes[t].pred;
    var node := StabilizeSpFound(nodes[n], reply);
    var u := First(node);
    assert Round(nodes, n)[n].succs == node.succs;
    assert node == nodes[n] && u == t;
    assert nodes[n := node] == nodes;
    assert Round(nodes, n)[t] == Notified(nodes[t], n);
    assert !(reply.Some? && reply.value != t && reply.value != n && t != n && Dist(n, reply.value) <= Dist(n, t));
  }

  lemma QuiescentNode(nodes: Nodes, c: Id, n: Id, g: RingGraph.Graph)
    requires Settled(nodes, c) && Linked(nodes) && Quiescent(nodes) && n in nodes
    requires Shows(nodes, g)
    ensures n in g && Connected(nodes[n]) && g[n] == First(nodes[n])
    ensures g[n] in nodes && nodes[g[n]].pred == Some(n)
  {
    OrderedNode(Still(nodes), c, n);
    assert PointsAt(nodes, n, g[n]);
    assert Round(nodes, n) == nodes;
    UnchangedMeansKnown(nodes, c, n);
  }

  lemma NoSharingIsNext(g: RingGraph.Graph, c: Id, n: Id)
    requires RingGraph.Closed(g) && RingGraph.Rooted(g, c) && n in g && RingGraph.NoSharing(g)
    ensures Members.IsNext(g.Keys, n, g[n])
  {
    forall m | m in g.Keys ensures Arc(n, g[n]) <= Arc(n, m) {
      RingGraph.NoSharingInOrder(g, c, n, m);
    }
  }

  lemma QuiescentIdealNode(nodes: Nodes, c: Id, n: Id, g: RingGraph.Graph)
    requires Settled(nodes, c) && Linked(nodes) && Quiescent(nodes) && n in nodes
    requires Shows(nodes, g) && RingGraph.Closed(g) && RingGraph.Rooted(g, c) && RingGraph.NoSharing(g)
    ensures IdealRing.IdealNode(nodes.Keys, n, nodes[n])
  {
    RingGraph.NoSharingAllOnRing(g, c, n);
    var v := RingGraph.RingPredecessor(g, c, n);
    NoSharingIsNext(g, c, n);
    NoSharingIsNext(g, c, v);
    Members.PrevOfNext(g.Keys, v, n);
    QuiescentNode(nodes, c, n, g);
    QuiescentNode(nodes, c, v, g);
    OrderedNode(Still(nodes), c, n);
  }

  lemma QuiescentIsIdeal(nodes: Nodes, c: Id)
    requires Settled(nodes, c) && Linked(nodes) && Quiescent(nodes)
    ensures IdealRing.Ideal(nodes)
  {
    var s, g := Still(nodes), SuccGraph(nodes);
    ShownGraph(s, c);
    OrderedGraph(s, c, g);
    forall a, b ensures RingGraph.Apart(g, a, b) {
      if a in g && b in g {
        QuiescentNode(nodes, c, a, g);
        QuiescentNode(nodes, c, b, g);
      }
    }
    forall n | n in nodes ensures IdealRing.IdealNode(nodes.Keys, n, nodes[n]) {
      QuiescentIdealNode(nodes, c, n, g);
    }
  }

  lemma IdealIsUnchanged(nodes: Nodes, n: Id)
    requires Linked(nodes) && IdealRing.Ideal(nodes) && n in nodes && nodes[n].succs[0].Some?
    ensures Round(nodes, n) == nodes
  {
    assert IdealRing.IdealNode(nodes.Keys, n, nodes[n]);
    var t := First(nodes[n]);
    assert IdealRing.IdealNode(nodes.Keys, t, nodes[t]);
    Members.PrevOfNext(nodes.Keys, n, t);
    Members.PrevIsUnique(nodes.Keys, t, n, nodes[t].pred.value);
    var node := StabilizeSpFound(nodes[n], Some(n));
    assert node.succs == nodes[n].succs;
  }

  /** The states no stabilisation can change are exactly the ideal rings over all members. */
  lemma QuiescentExactlyWhenIdeal(nodes: Nodes, c: Id)
    requires Settled(nodes, c)
    ensures Linked(nodes)
    ensures Quiescent(nodes) <==> IdealRing.Ideal(nodes)
  {
    SettledIsLinked(nodes, c);
    if Quiescent(nodes) {
      QuiescentIsIdeal(nodes, c);
    }
    if IdealRing.Ideal(nodes) {
      forall n | n in nodes ensures Round(nodes, n) == nodes {
        OrderedNode(Still(nodes), c, n);
        IdealIsUnchanged(nodes, n);
      }
    }
  }

  // ---------------------------------------------------------------- and that it gets there

  ghost function Passes(nodes: Nodes, orders: seq<seq<Id>>): (nodes': Nodes)
    requires Linked(nodes) && forall j :: 0 <= j < |orders| ==> Covers(nodes.Keys, orders[j])
    ensures nodes'.Keys == nodes.Keys && Linked(nodes')
    decreases |orders|
  {
    if orders == [] then nodes
    else
      assert Covers(nodes.Keys, orders[0]);
      Passes(Pass(nodes, orders[0]), orders[1..])
  }

  /** Every member, and only members, in any order and any number of times. */
  ghost predicate Covers(members: set<Id>, order: seq<Id>) {
    && (forall i :: 0 <= i < |order| ==> order[i] in members)
    && (forall m :: m in members ==> m in order)
  }

  lemma {:induction false} PassLowersRank(nodes: Nodes, c: Id, order: seq<Id>)
    requires Settled(nodes, c) && forall i :: 0 <= i < |order| ==> order[i] in nodes
    ensures Linked(nodes) && Settled(Pass(nodes, order), c)
    ensures RankPotential(Pass(nodes, order)) < RankPotential(nodes) || Pass(nodes, order) == nodes
    ensures RankPotential(Pass(nodes, order)) < RankPotential(nodes) ||
            forall i :: 0 <= i < |order| ==> Round(nodes, order[i]) == nodes
    decreases |order|
  {
    SettledIsLinked(nodes, c);
    if order != [] {
      var nodes1 := Round(nodes, order[0]);
      RoundLowersRank(nodes, c, order[0]);
      PassLowersRank(nodes1, c, order[1..]);
      forall i | 0 <= i < |order| && RankPotential(Pass(nodes, order)) >= RankPotential(nodes)
        ensures Round(nodes, order[i]) == nodes {
        if i > 0 {
          assert order[1..][i - 1] == order[i];
        }
      }
    }
  }

  /** From any state a failure-free run can reach, more passes over the members than the rank potential
      counts end in the ideal ring, whatever the order within each pass. */
  lemma {:induction false} StabilisingConverges(nodes: Nodes, c: Id, orders: seq<seq<Id>>)
    requires Settled(nodes, c)
    requires forall j :: 0 <= j < |orders| ==> Covers(nodes.Keys, orders[j])
    requires |orders| > RankPotential(nodes)
    ensures Linked(nodes) && IdealRing.Ideal(Passes(nodes, orders))
    decreases |orders|
  {
    SettledIsLinked(nodes, c);
    assert Covers(nodes.Keys, orders[0]);
    PassLowersRank(nodes, c, orders[0]);
    var nodes1 := Pass(nodes, orders[0]);
    if RankPotential(nodes1) < RankPotential(nodes) {
      StabilisingConverges(nodes1, c, orders[1..]);
    } else {
      forall n | n in nodes ensures Round(nodes, n) == nodes {
        assert n in orders[0];
      }
      QuiescentExactlyWhenIdeal(nodes, c);
      IdealStays(nodes, c, orders);
    }
  }

  /** In particular 2n^2 passes are enough for n members. */
  lemma StabilisingConvergesSoon(nodes: Nodes, c: Id, orders: seq<seq<Id>>)
    requires Settled(nodes, c)
    requires forall j :: 0 <= j < |orders| ==> Covers(nodes.Keys, orders[j])
    requires |orders| > Potential(nodes) || |orders| >= 2 * |nodes| * |nodes|
    ensures Linked(nodes) && IdealRing.Ideal(Passes(nodes, orders))
  {
    RankPotentialIsSmall(nodes, c);
    StabilisingConverges(nodes, c, orders);
  }

  lemma {:induction false} IdealStays(nodes: Nodes, c: Id, orders: seq<seq<Id>>)
    requires Settled(nodes, c) && Linked(nodes) && Quiescent(nodes)
    requires forall j :: 0 <= j < |orders| ==> Covers(nodes.Keys, orders[j])
    ensures Passes(nodes, orders) == nodes
    decreases |orders|
  {
    if orders != [] {
      assert Covers(nodes.Keys, orders[0]);
      PassStays(nodes, orders[0]);
      IdealStays(nodes, c, orders[1..]);
    }
  }

  lemma {:induction false} PassStays(nodes: Nodes, order: seq<Id>)
    requires Linked(nodes) && Quiescent(nodes) && forall i :: 0 <= i < |order| ==> order[i] in nodes
    ensures Pass(nodes, order) == nodes
    decreases |order|
  {
    if order != [] {
      assert Round(nodes, order[0]) == nodes;
      PassStays(nodes, order[1..]);
    }
  }

  /** The steps of the passes: four for each stabilisation, in the order given. */
  ghost function PassesSteps(nodes: Nodes, orders: seq<seq<Id>>): seq<Step>
    requires Linked(nodes) && forall j :: 0 <= j < |orders| ==> Covers(nodes.Keys, orders[j])
    decreases |orders|
  {
    if orders == [] then []
    else
      assert Covers(nodes.Keys, orders[0]);
      PassSteps(nodes, orders[0]) + PassesSteps(Pass(nodes, orders[0]), orders[1..])
  }

  lemma {:induction false} PassesAreARun(s: Net, orders: seq<seq<Id>>)
    requires Linked(s.nodes) && forall j :: 0 <= j < |orders| ==> Covers(s.nodes.Keys, orders[j])
    ensures MaintenanceOnly(PassesSteps(s.nodes, orders)) && CanRun(s, PassesSteps(s.nodes, orders))
    ensures Run(s, PassesSteps(s.nodes, orders)) == s.(nodes := Passes(s.nodes, orders))
    decreases |orders|
  {
    if orders != [] {
      assert Covers(s.nodes.Keys, orders[0]);
      var nodes1 := Pass(s.nodes, orders[0]);
      PassIsARun(s, orders[0]);
      PassesAreARun(s.(nodes := nodes1), orders[1..]);
      RunAppends(s, PassSteps(s.nodes, orders[0]), PassesSteps(nodes1, orders[1..]));
    }
  }

  /** The same said of the network: from any state s of a failure-free run, the steps of enough passes
      are a run, which ends in the ideal ring with the messages that were in flight still there. */
  lemma ConvergingRun(s: Net, c: Id, orders: seq<seq<Id>>) returns (steps: seq<Step>)
    requires Ordered(s, c) && |orders| > RankPotential(s.nodes)
    requires forall j :: 0 <= j < |orders| ==> Covers(s.nodes.Keys, orders[j])
    ensures Linked(s.nodes) && steps == PassesSteps(s.nodes, orders)
    ensures CanRun(s, steps) && Run(s, steps) == s.(nodes := Passes(s.nodes, orders))
    ensures MaintenanceOnly(steps) && IdealRing.Ideal(Run(s, steps).nodes)
  {
    RunsAreSettled(s, c);
    StabilisingConverges(s.nodes, c, orders);
    PassesAreARun(s, orders);
    steps := PassesSteps(s.nodes, orders);
  }
}
