/** The steps of the network are the callbacks of the class: what a callback is proved to write and to ask
    for in NodeSelf is what its step does to the node and to the messages in flight. */
module Callbacks {
  import opened Ids
  import opened LocalNode
  import opened Network
  import Draining
  import NodeSelf
  import Rounds

  // ---------------------------------------------------------------- fixing fingers

  /** The requests of node_fix_fingers on their way. */
  function Requested(n: Id, asked: seq<NodeSelf.FingerRequest>): multiset<Msg> {
    if asked == [] then multiset{}
    else multiset{LookupAt(asked[0].to, asked[0].target, ForFinger(n, asked[0].index))} + Requested(n, asked[1..])
  }

  lemma {:induction false} RequestedAppends(n: Id, a: seq<NodeSelf.FingerRequest>, b: seq<NodeSelf.FingerRequest>)
    ensures Requested(n, a + b) == Requested(n, a) + Requested(n, b)
    decreases |a|
  {
    if a == [] {
      assert a + b == b;
    } else {
      assert (a + b)[0] == a[0] && (a + b)[1..] == a[1..] + b;
      RequestedAppends(n, a[1..], b);
    }
  }

  /** n has become node and sent these requests. */
  function After(s: Net, n: Id, node: Node, asked: seq<NodeSelf.FingerRequest>): Net {
    s.(nodes := s.nodes[n := node], msgs := s.msgs + Requested(n, asked))
  }

  /** One finger: the step does to the node what node_fix_a_finger does, and sends what it asks. */
  lemma FixFingerIsItsCallback(s: Net, n: Id, i: nat)
    requires s.useFingers && Enabled(s, FixFinger(n, i)) && s.nodes[n].id == n
    ensures var one := NodeSelf.FixOne(s.nodes[n], i);
            Apply(s, FixFinger(n, i)) == After(s, n, one.0, one.1)
  {
    NodeSelf.FixOneLooksUp(s.nodes[n], i);
    assert s.nodes[n := s.nodes[n]] == s.nodes;
    var outcome := FindSuccessor(s.nodes[n], FingerTarget(n, i), true);
    if outcome.Answer? {
      assert s.msgs + Requested(n, []) == s.msgs;
    } else {
      RequestedOne(n, NodeSelf.FingerRequest(i, FingerTarget(n, i), outcome.to));
    }
  }

  lemma RequestedOne(n: Id, r: NodeSelf.FingerRequest)
    ensures Requested(n, [r]) == multiset{LookupAt(r.to, r.target, ForFinger(n, r.index))}
  {
    assert [r][1..] == [];
  }

  lemma FixKeepsConnected(s: Net, n: Id, i: nat)
    requires s.useFingers && Enabled(s, FixFinger(n, i)) && s.nodes[n].id == n
    ensures var s' := Apply(s, FixFinger(n, i));
            Up(s', n) && s'.nodes[n].id == n && s'.useFingers && s'.nodes[n].succs == s.nodes[n].succs
  {
  }

  /** All fingers: the steps of one node_fix_fingers, taken one after the other, do what its loop does. */
  lemma {:induction false} FixStepsAreTheLoop(s: Net, n: Id, i: nat)
    requires s.useFingers && Up(s, n) && s.nodes[n].id == n && 1 <= i <= ID_BITS
    ensures var all := NodeSelf.FixFrom(s.nodes[n], i);
            && CanRun(s, Draining.FixSteps(n, i))
            && Run(s, Draining.FixSteps(n, i)) == After(s, n, all.0, all.1)
    decreases ID_BITS - i
  {
    if i == ID_BITS {
      assert s.nodes[n := s.nodes[n]] == s.nodes;
    } else {
      var one, s' := NodeSelf.FixOne(s.nodes[n], i), Apply(s, FixFinger(n, i));
      FixFingerIsItsCallback(s, n, i);
      FixKeepsConnected(s, n, i);
      FixStepsAreTheLoop(s', n, i + 1);
      Rounds.StepThen(s, FixFinger(n, i), Draining.FixSteps(n, i + 1));
      OneThenRest(s, n, one, NodeSelf.FixFrom(one.0, i + 1));
    }
  }

  lemma OneThenRest(s: Net, n: Id, one: (Node, seq<NodeSelf.FingerRequest>), rest: (Node, seq<NodeSelf.FingerRequest>))
    ensures After(After(s, n, one.0, one.1), n, rest.0, rest.1) == After(s, n, rest.0, one.1 + rest.1)
  {
    RequestedAppends(n, one.1, rest.1);
  }

  // ---------------------------------------------------------------- the other callbacks

  /** The chain starts by asking the first live successor for the id after its own, for the slot after it. */
  lemma UpdateStartsTheChain(s: Net, n: Id)
    requires Enabled(s, StartUpdate(n))
    ensures var k, v := FirstAlive(s.nodes[n].succs), First(s.nodes[n]);
            Apply(s, StartUpdate(n)) == s.(msgs := s.msgs + multiset{LookupAt(v, Plus(v, 1), ForSlot(n, k + 1))})
  {
  }

  /** It goes on by storing what was found and, before the last slot, asking that for the id after its own. */
  lemma FoundContinuesTheChain(s: Net, m: Msg)
    requires Enabled(s, DeliverFound(m)) && m.why.ForSlot?
    ensures var n, k := m.why.who, m.why.slot;
            && k < NUM_OF_SUCCS && n in s.nodes
            && var asked := if k + 1 < NUM_OF_SUCCS
                            then multiset{LookupAt(m.found, Plus(m.found, 1), ForSlot(n, k + 1))} else multiset{};
            Apply(s, DeliverFound(m)) ==
            s.(nodes := s.nodes[n := UpdateSuccsFound(s.nodes[n], k, m.found)], msgs := s.msgs - multiset{m} + asked)
  {
    Draining.ReceiveForSlot(Take(s, m), m.found, m.why.who, m.why.slot);
  }

  /** A stabilise reply ends in a notify to the first live successor the node then has. */
  lemma ReplyIsItsCallback(s: Net, m: Msg)
    requires Enabled(s, DeliverPredRep(m))
    ensures var node := StabilizeSpFound(s.nodes[m.to], m.pred);
            && Connected(node)
            && Apply(s, DeliverPredRep(m)) ==
               s.(nodes := s.nodes[m.to := node], msgs := s.msgs - multiset{m} + multiset{Notify(m.to, First(node))})
  {
  }

  /** A relay puts in place of the lookup the answer it has, or the lookup at the node it passes it on to. */
  lemma RelayIsItsCallback(s: Net, m: Msg)
    requires Enabled(s, Relay(m))
    ensures var sent := match FindSuccessor(s.nodes[m.at], m.target, s.useFingers)
                        case Answer(f) => Found(f, m.target, m.why)
                        case Forward(to) => LookupAt(to, m.target, m.why);
            Apply(s, Relay(m)) == s.(msgs := s.msgs - multiset{m} + multiset{sent})
  {
  }
}
