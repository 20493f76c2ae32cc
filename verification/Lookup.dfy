/** Lookups followed from node to node (node_find_successor, handle_succ_request). */
module Lookup {
  import opened Ids
  import opened LocalNode
  import Network

  /** All that a lookup needs to end: pointers name members and no finger is its owner. */
  ghost predicate SoundNode(members: set<Id>, n: Id, node: Node) {
    && node.id == n && Connected(node) && NoSelfFinger(node)
    && First(node) in members
    && (forall i :: 0 <= i < ID_BITS && node.fingers[i].Some? ==> node.fingers[i].value in members)
  }

  ghost predicate Sound(nodes: Network.Nodes) {
    forall n {:trigger SoundNode(nodes.Keys, n, nodes[n])} :: n in nodes ==> SoundNode(nodes.Keys, n, nodes[n])
  }

  /** What a lookup ends in: the answer, and the number of nodes it was forwarded to. */
  datatype Result = Result(answer: Id, forwards: nat)

  lemma ForwardStaysInside(nodes: Network.Nodes, useFingers: bool, n: Id, x: Id)
    requires Sound(nodes) && n in nodes
    ensures Connected(nodes[n])
    ensures match FindSuccessor(nodes[n], x, useFingers)
            case Answer(a) => a in nodes
            case Forward(to) => to in nodes && to != n && Dist(to, x) < Dist(n, x)
  {
    assert SoundNode(nodes.Keys, n, nodes[n]);
    if FindSuccessor(nodes[n], x, useFingers).Forward? {
      ForwardGetsCloser(nodes[n], x, useFingers);
    }
  }

  /** The lookup of x asked of n, in a network that stands still. It ends in every sound state,
      ideal or not: every forward brings it closer to x. */
  ghost function Follow(nodes: Network.Nodes, useFingers: bool, n: Id, x: Id): (r: Result)
    requires Sound(nodes) && n in nodes
    ensures r.answer in nodes
    decreases Dist(n, x)
  {
    ForwardStaysInside(nodes, useFingers, n, x);
    match FindSuccessor(nodes[n], x, useFingers)
    case Answer(a) => Result(a, 0)
    case Forward(to) =>
      var rest := Follow(nodes, useFingers, to, x);
      Result(rest.answer, rest.forwards + 1)
  }

  /** A node that forwards is one forward further from the answer. */
  lemma RouteViaRelay(nodes: Network.Nodes, useFingers: bool, n: Id, to: Id, x: Id)
    requires Sound(nodes) && n in nodes && to in nodes && Connected(nodes[n])
    requires FindSuccessor(nodes[n], x, useFingers) == Forward(to)
    ensures Follow(nodes, useFingers, n, x).answer == Follow(nodes, useFingers, to, x).answer
    ensures Follow(nodes, useFingers, n, x).forwards == Follow(nodes, useFingers, to, x).forwards + 1
  {
  }

  /** From a the lookup of x is forwarded to b. */
  predicate Hop(a: Node, b: Node, x: Id, useFingers: bool) {
    Connected(a) && FindSuccessor(a, x, useFingers) == Forward(b.id)
  }

  /** A route: each hop is a forward decided on whatever state its node was in at the time. */
  ghost predicate IsRoute(route: seq<Node>, x: Id, useFingers: bool) {
    forall i :: 0 <= i < |route| - 1 ==> NoSelfFinger(route[i]) && Hop(route[i], route[i + 1], x, useFingers)
  }

  /** However the network changes between the hops, a lookup never comes back to a node. */
  lemma {:induction false} NoNodeTwice(route: seq<Node>, x: Id, useFingers: bool, i: nat, j: nat)
    requires IsRoute(route, x, useFingers) && i < j < |route|
    ensures Dist(route[j].id, x) + (j - i) <= Dist(route[i].id, x)
    ensures route[i].id != route[j].id
    decreases j - i
  {
    assert Hop(route[i], route[i + 1], x, useFingers);
    ForwardGetsCloser(route[i], x, useFingers);
    if i + 1 < j {
      NoNodeTwice(route, x, useFingers, i + 1, j);
    }
  }
}
