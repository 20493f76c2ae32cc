/** The ideal ring, and lookups on it: they find the right node whatever the fingers hold. */
module IdealRing {
  import opened Ids
  import opened LocalNode
  import Members
  import Network
  import Lookup

  ghost predicate IdealNode(members: set<Id>, n: Id, node: Node) {
    && node.id == n && Connected(node) && Members.IsNext(members, n, First(node))
    && node.pred.Some? && Members.IsPrev(members, n, node.pred.value)
  }

  /** Everyone's first live successor is the next member and everyone's predecessor the previous one. */
  ghost predicate Ideal(nodes: Network.Nodes) {
    forall n {:trigger IdealNode(nodes.Keys, n, nodes[n])} :: n in nodes ==> IdealNode(nodes.Keys, n, nodes[n])
  }

  lemma AnswerIsFirst(members: set<Id>, node: Node, x: Id, useFingers: bool)
    requires node.id in members && IdealNode(members, node.id, node)
    requires FindSuccessor(node, x, useFingers).Answer?
    ensures Members.IsFirstAtOrAfter(members, x, FindSuccessor(node, x, useFingers).found)
  {
    if x != node.id {
      Members.FirstInGap(members, node.id, First(node), x);
    }
  }

  /** On an ideal ring a lookup from any node returns the first member at or clockwise after the id,
      as long as fingers name members other than their owner. */
  lemma {:induction false} LookupIsRight(nodes: Network.Nodes, useFingers: bool, n: Id, x: Id)
    requires Lookup.Sound(nodes) && Ideal(nodes) && n in nodes
    ensures Members.IsFirstAtOrAfter(nodes.Keys, x, Lookup.Follow(nodes, useFingers, n, x).answer)
    decreases Dist(n, x)
  {
    assert IdealNode(nodes.Keys, n, nodes[n]);
    Lookup.ForwardStaysInside(nodes, useFingers, n, x);
    match FindSuccessor(nodes[n], x, useFingers)
    case Answer(a) => AnswerIsFirst(nodes.Keys, nodes[n], x, useFingers);
    case Forward(to) => LookupIsRight(nodes, useFingers, to, x);
  }

  /** So the fingers change how far a lookup travels, never what it returns. */
  lemma FingersDoNotMatter(nodes: Network.Nodes, n: Id, m: Id, x: Id)
    requires Lookup.Sound(nodes) && Ideal(nodes) && n in nodes && m in nodes
    ensures Lookup.Follow(nodes, true, n, x).answer == Lookup.Follow(nodes, false, m, x).answer
  {
    LookupIsRight(nodes, true, n, x);
    LookupIsRight(nodes, false, m, x);
    var a, b := Lookup.Follow(nodes, true, n, x).answer, Lookup.Follow(nodes, false, m, x).answer;
    Members.FirstIsUnique(nodes.Keys, x, a, b);
  }

  /** Finger i is the first member at or after its target, or empty when that is its owner. */
  ghost predicate FingerRight(members: set<Id>, node: Node, i: nat)
    requires 1 <= i < ID_BITS
  {
    match node.fingers[i]
    case None => Members.IsFirstAtOrAfter(members, FingerTarget(node.id, i), node.id)
    case Some(f) => f != node.id && Members.IsFirstAtOrAfter(members, FingerTarget(node.id, i), f)
  }

  ghost predicate FingersRight(members: set<Id>, node: Node) {
    forall i :: 1 <= i < ID_BITS ==> FingerRight(members, node, i)
  }
}
