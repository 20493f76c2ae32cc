/** A lookup in flight among nodes that stand still takes the relays that Lookup.Follow counts: the bounds on
    forwards are bounds on steps of the network. */
module Relaying {
  import opened Ids
  import opened LocalNode
  import opened Network
  import opened Lookup
  import Callbacks
  import Hops
  import IdealRing
  import Members
  import Rounds

  /** The relays of a lookup of x that is on its way to n: one for each node it is forwarded to, and one more. */
  ghost function Relays(nodes: Nodes, useFingers: bool, n: Id, x: Id, why: Purpose): (steps: seq<Step>)
    requires Sound(nodes) && n in nodes
    ensures |steps| == Follow(nodes, useFingers, n, x).forwards + 1
    ensures forall i :: 0 <= i < |steps| ==>
              steps[i].Relay? && steps[i].m.LookupAt? && steps[i].m.target == x && steps[i].m.why == why
    decreases Dist(n, x)
  {
    ForwardStaysInside(nodes, useFingers, n, x);
    match FindSuccessor(nodes[n], x, useFingers)
    case Answer(a) => [Relay(LookupAt(n, x, why))]
    case Forward(to) => [Relay(LookupAt(n, x, why))] + Relays(nodes, useFingers, to, x, why)
  }

  /** In place of a message in flight there is another. */
  function Replaced(s: Net, m: Msg, m': Msg): Net {
    s.(msgs := s.msgs - multiset{m} + multiset{m'})
  }

  lemma ReplacedTwice(s: Net, a: Msg, b: Msg, c: Msg)
    requires a in s.msgs
    ensures Replaced(Replaced(s, a, b), b, c) == Replaced(s, a, c)
  {
    assert s.msgs - multiset{a} + multiset{b} - multiset{b} == s.msgs - multiset{a};
  }

  /** They turn the lookup into its answer, and change neither a node nor another message. */
  lemma {:induction false} RelaysFollow(s: Net, n: Id, x: Id, why: Purpose)
    requires Sound(s.nodes) && n in s.nodes && LookupAt(n, x, why) in s.msgs
    ensures var steps, r := Relays(s.nodes, s.useFingers, n, x, why), Follow(s.nodes, s.useFingers, n, x);
            && CanRun(s, steps)
            && Run(s, steps) == Replaced(s, LookupAt(n, x, why), Found(r.answer, x, why))
    decreases Dist(n, x)
  {
    var m := LookupAt(n, x, why);
    ForwardStaysInside(s.nodes, s.useFingers, n, x);
    Callbacks.RelayIsItsCallback(s, m);
    var outcome := FindSuccessor(s.nodes[n], x, s.useFingers);
    if outcome.Answer? {
      Rounds.OneStep(s, Relay(m));
    } else {
      var to, next := outcome.to, LookupAt(outcome.to, x, why);
      var s1 := Replaced(s, m, next);
      RelaysFollow(s1, to, x, why);
      RouteViaRelay(s.nodes, s.useFingers, n, to, x);
      Rounds.StepThen(s, Relay(m), Relays(s.nodes, s.useFingers, to, x, why));
      ReplacedTwice(s, m, next, Found(Follow(s.nodes, s.useFingers, to, x).answer, x, why));
    }
  }

  /** On an ideal ring whose fingers are right every lookup in flight is answered by the first member at or after
      its id within 63 relays, and within 33 where no node has id 0. */
  lemma RightWithin63Relays(s: Net, n: Id, x: Id, why: Purpose) returns (steps: seq<Step>, found: Id)
    requires s.useFingers && Sound(s.nodes) && IdealRing.Ideal(s.nodes) && Hops.AllFingersRight(s.nodes)
    requires n in s.nodes && LookupAt(n, x, why) in s.msgs
    ensures |steps| <= 63 && (0 !in s.nodes ==> |steps| <= 33)
    ensures forall i :: 0 <= i < |steps| ==>
              steps[i].Relay? && steps[i].m.LookupAt? && steps[i].m.target == x && steps[i].m.why == why
    ensures Members.IsFirstAtOrAfter(s.nodes.Keys, x, found)
    ensures CanRun(s, steps) && Run(s, steps) == Replaced(s, LookupAt(n, x, why), Found(found, x, why))
  {
    steps, found := Relays(s.nodes, true, n, x, why), Follow(s.nodes, true, n, x).answer;
    RelaysFollow(s, n, x, why);
    IdealRing.LookupIsRight(s.nodes, true, n, x);
    Hops.AtMost62Forwards(s.nodes, n, x);
    if 0 !in s.nodes {
      Hops.AtMost32Forwards(s.nodes, n, x);
    }
  }
}
