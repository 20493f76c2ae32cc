/** Every lookup in flight on an ideal ring can be answered: relays and deliveries alone lead to a state in
    which none is left, so fixing fingers and updating the successor list come to an end. */
module Draining {
  import opened Ids
  import opened LocalNode
  import opened Network
  import opened IdealRuns
  import opened Lookup
  import Refresh
  import IdealRing
  import Rounds

  ghost predicate AtMember(s: Net, m: Msg) {
    m.LookupAt? ==> m.at in s.nodes
  }

  /** A steady ring whose fingers name members other than their owners, as do the lookups in flight. */
  ghost predicate Answerable(s: Net) {
    && Steady(s) && Sound(s.nodes)
    && forall m {:trigger AtMember(s, m)} :: m in s.msgs ==> AtMember(s, m)
  }

  /** Relays of lookups, and deliveries of their answers. */
  predicate OnlyAnswers(steps: seq<Step>) {
    forall i :: 0 <= i < |steps| ==> steps[i].Relay? || steps[i].DeliverFound?
  }

  // ---------------------------------------------------------------- one message

  /** A relay replaces the lookup by its answer, or by one that is closer. */
  lemma RelayStep(s: Net, m: Msg) returns (m': Msg)
    requires Answerable(s) && m in s.msgs && m.LookupAt?
    ensures Enabled(s, Relay(m)) && Apply(s, Relay(m)) == Send(Take(s, m), m')
    ensures Answerable(Apply(s, Relay(m)))
    ensures m'.Found? || (m'.LookupAt? && m'.target == m.target && Dist(m'.at, m.target) < Dist(m.at, m.target))
    ensures (m'.LookupAt? || m'.Found?) && m'.why == m.why
  {
    assert AtMember(s, m);
    ForwardStaysInside(s.nodes, s.useFingers, m.at, m.target);
    SteadyStep(s, Relay(m));
    var s' := Apply(s, Relay(m));
    match FindSuccessor(s.nodes[m.at], m.target, s.useFingers) {
      case Answer(f) => m' := Found(f, m.target, m.why);
      case Forward(n) => m' := LookupAt(n, m.target, m.why);
    }
    forall k {:trigger AtMember(s', k)} | k in s'.msgs ensures AtMember(s', k) {
      assert k in s.msgs ==> AtMember(s, k);
    }
  }

  lemma SoundUpdate(nodes: Nodes, n: Id, node: Node)
    requires Sound(nodes) && n in nodes && SoundNode(nodes.Keys, n, node)
    ensures Sound(nodes[n := node])
  {
    var nodes' := nodes[n := node];
    assert nodes'.Keys == nodes.Keys;
    forall k {:trigger SoundNode(nodes'.Keys, k, nodes'[k])} | k in nodes'
      ensures SoundNode(nodes'.Keys, k, nodes'[k]) {
      assert k != n ==> SoundNode(nodes.Keys, k, nodes[k]);
    }
  }

  lemma FingerStaysSound(members: set<Id>, node: Node, i: nat, found: Id)
    requires SoundNode(members, node.id, node) && i < ID_BITS && found in members
    ensures SoundNode(members, node.id, FingerUpdate(node, i, found))
  {
  }

  /** Delivering the answer for a finger consumes it. */
  lemma FingerStep(s: Net, m: Msg)
    requires Answerable(s) && m in s.msgs && m.Found? && m.why.ForFinger?
    ensures Enabled(s, DeliverFound(m)) && Apply(s, DeliverFound(m)).msgs == s.msgs - multiset{m}
    ensures Answerable(Apply(s, DeliverFound(m)))
  {
    assert TrueMsg(s.nodes, m);
    var n, s' := m.why.who, Apply(s, DeliverFound(m));
    SteadyStep(s, DeliverFound(m));
    assert SoundNode(s.nodes.Keys, n, s.nodes[n]);
    FingerStaysSound(s.nodes.Keys, s.nodes[n], m.why.index, m.found);
    SoundUpdate(s.nodes, n, FingerUpdate(s.nodes[n], m.why.index, m.found));
    StillAtMembers(s, s');
  }

  lemma StillAtMembers(s: Net, s': Net)
    requires Answerable(s) && s'.nodes.Keys == s.nodes.Keys
    requires forall k :: k in s'.msgs && k.LookupAt? ==> k in s.msgs || k.at in s.nodes
    ensures forall k {:trigger AtMember(s', k)} :: k in s'.msgs ==> AtMember(s', k)
  {
    forall k {:trigger AtMember(s', k)} | k in s'.msgs ensures AtMember(s', k) {
      assert k in s.msgs ==> AtMember(s, k);
    }
  }

  lemma StoredStaysSound(members: set<Id>, node: Node, k: nat, found: Id)
    requires SteadyNode(members, node.id, node) && SoundNode(members, node.id, node)
    requires FirstAlive(node.succs) < k < NUM_OF_SUCCS && found in members
    ensures SoundNode(members, node.id, UpdateSuccsFound(node, k, found))
  {
    StoredKeepsFirst(members, node, k, found);
  }

  lemma ReceiveForSlot(s: Net, found: Id, n: Id, k: nat)
    requires n in s.nodes && k < NUM_OF_SUCCS
    ensures var s1 := SetNode(s, n, UpdateSuccsFound(s.nodes[n], k, found));
            Receive(s, found, ForSlot(n, k)) ==
            if k + 1 < NUM_OF_SUCCS then Send(s1, LookupAt(found, Plus(found, 1), ForSlot(n, k + 1))) else s1
  {
  }

  lemma SlotSound(s: Net, m: Msg)
    requires Answerable(s) && m in s.msgs && m.Found? && m.why.ForSlot?
    ensures m.why.who in s.nodes && m.why.slot < NUM_OF_SUCCS && m.found in s.nodes
    ensures Sound(s.nodes[m.why.who := UpdateSuccsFound(s.nodes[m.why.who], m.why.slot, m.found)])
  {
    assert TrueMsg(s.nodes, m);
    var n := m.why.who;
    assert SteadyNode(s.nodes.Keys, n, s.nodes[n]) && SoundNode(s.nodes.Keys, n, s.nodes[n]);
    StoredStaysSound(s.nodes.Keys, s.nodes[n], m.why.slot, m.found);
    SoundUpdate(s.nodes, n, UpdateSuccsFound(s.nodes[n], m.why.slot, m.found));
  }

  /** Delivering the answer for a slot consumes it, and starts the lookup for the next slot if there is one. */
  lemma SlotStep(s: Net, m: Msg) returns (m': Msg)
    requires Answerable(s) && m in s.msgs && m.Found? && m.why.ForSlot?
    ensures Enabled(s, DeliverFound(m)) && Answerable(Apply(s, DeliverFound(m)))
    ensures m'.LookupAt? && m'.why == ForSlot(m.why.who, m.why.slot + 1)
    ensures Apply(s, DeliverFound(m)).msgs ==
            if m.why.slot + 1 < NUM_OF_SUCCS then s.msgs - multiset{m} + multiset{m'} else s.msgs - multiset{m}
  {
    var n, k := m.why.who, m.why.slot;
    SlotSound(s, m);
    m' := LookupAt(m.found, Plus(m.found, 1), ForSlot(n, k + 1));
    SteadyStep(s, DeliverFound(m));
    ReceiveForSlot(Take(s, m), m.found, n, k);
    StillAtMembers(s, Apply(s, DeliverFound(m)));
  }

  /** How many answers m still leads to, and how far it has to go for the first of them. */
  function Slots(m: Msg): int {
    if (m.LookupAt? || m.Found?) && m.why.ForSlot? then NUM_OF_SUCCS - m.why.slot else 0
  }

  function Way(m: Msg): nat {
    if m.LookupAt? then Dist(m.at, m.target) + 2 else 1
  }

  /** A step that replaces m by m', and then an answer to m'. */
  lemma GoesOn(s: Net, step: Step, s1: Net, rest: seq<Step>, s2: Net) returns (steps: seq<Step>)
    requires Enabled(s, step) && (step.Relay? || step.DeliverFound?) && s1 == Apply(s, step)
    requires OnlyAnswers(rest) && CanRun(s1, rest) && s2 == Run(s1, rest)
    ensures OnlyAnswers(steps) && CanRun(s, steps) && Run(s, steps) == s2
  {
    Rounds.StepThen(s, step, rest);
    steps := [step] + rest;
  }

  lemma Replaced(msgs: multiset<Msg>, m: Msg, m': Msg)
    ensures msgs - multiset{m} + multiset{m'} - multiset{m'} == msgs - multiset{m}
  {
  }

  lemma {:induction false} AnswerOne(s: Net, m: Msg) returns (steps: seq<Step>)
    requires Answerable(s) && m in s.msgs && Refresh.WhyOf(m).Some?
    ensures OnlyAnswers(steps) && CanRun(s, steps)
    ensures Answerable(Run(s, steps)) && Run(s, steps).msgs == s.msgs - multiset{m}
    decreases Slots(m), Way(m)
  {
    if m.LookupAt? {
      var m' := RelayStep(s, m);
      var rest := AnswerOne(Apply(s, Relay(m)), m');
      steps := GoesOn(s, Relay(m), Apply(s, Relay(m)), rest, Run(Apply(s, Relay(m)), rest));
      Replaced(s.msgs, m, m');
    } else {
      assert TrueMsg(s.nodes, m);
      steps := AnswerFound(s, m);
    }
  }

  lemma {:induction false} AnswerFound(s: Net, m: Msg) returns (steps: seq<Step>)
    requires Answerable(s) && m in s.msgs && m.Found?
    ensures OnlyAnswers(steps) && CanRun(s, steps)
    ensures Answerable(Run(s, steps)) && Run(s, steps).msgs == s.msgs - multiset{m}
    decreases Slots(m), 0
  {
    assert TrueMsg(s.nodes, m);
    var last := DeliverFound(m);
    if m.why.ForFinger? {
      FingerStep(s, m);
      Rounds.OneStep(s, last);
      steps := [last];
    } else {
      var m' := SlotStep(s, m);
      var s' := Apply(s, last);
      if m.why.slot + 1 < NUM_OF_SUCCS {
        var rest := AnswerOne(s', m');
        steps := GoesOn(s, last, s', rest, Run(s', rest));
        Replaced(s.msgs, m, m');
      } else {
        Rounds.OneStep(s, last);
        steps := [last];
      }
    }
  }

  // ---------------------------------------------------------------- all of them

  ghost predicate NothingPending(s: Net) {
    forall why {:trigger Refresh.Pending(s, why)} :: !Refresh.Pending(s, why)
  }

  /** From every such state, relays and deliveries lead to one in which no lookup is pending. */
  lemma {:induction false} AnswerAll(s: Net) returns (steps: seq<Step>)
    requires Answerable(s)
    ensures OnlyAnswers(steps) && CanRun(s, steps) && Answerable(Run(s, steps)) && NothingPending(Run(s, steps))
    decreases |s.msgs|
  {
    steps := [];
    if !NothingPending(s) {
      var why :| Refresh.Pending(s, why);
      var m :| m in s.msgs && Refresh.WhyOf(m) == Some(why);
      var first := AnswerOne(s, m);
      assert |s.msgs - multiset{m}| == |s.msgs| - 1;
      var rest := AnswerAll(Run(s, first));
      RunAppends(s, first, rest);
      steps := first + rest;
    }
  }

  // ---------------------------------------------------------------- fixing fingers, updating the list

  lemma FixStep(s: Net, n: Id, i: nat)
    requires Answerable(s) && n in s.nodes && 1 <= i < ID_BITS
    ensures Enabled(s, FixFinger(n, i)) && Answerable(Apply(s, FixFinger(n, i))) && n in Apply(s, FixFinger(n, i)).nodes
  {
    var x := FingerTarget(n, i);
    ForwardStaysInside(s.nodes, s.useFingers, n, x);
    var s' := Apply(s, FixFinger(n, i));
    SteadyStep(s, FixFinger(n, i));
    SameMembers(s, FixFinger(n, i));
    assert SoundNode(s.nodes.Keys, n, s.nodes[n]);
    if FindSuccessor(s.nodes[n], x, s.useFingers).Answer? {
      var found := FindSuccessor(s.nodes[n], x, s.useFingers).found;
      FingerStaysSound(s.nodes.Keys, s.nodes[n], i, found);
      SoundUpdate(s.nodes, n, FingerUpdate(s.nodes[n], i, found));
    }
    StillAtMembers(s, s');
  }

  /** node_fix_fingers from finger i on. */
  function FixSteps(n: Id, i: nat): (steps: seq<Step>)
    requires 1 <= i <= ID_BITS
    ensures MaintenanceOnly(steps) && forall j :: i <= j < ID_BITS ==> FixFinger(n, j) in steps
    decreases ID_BITS - i
  {
    if i == ID_BITS then [] else [FixFinger(n, i)] + FixSteps(n, i + 1)
  }

  lemma {:induction false} FixStepsRun(s: Net, n: Id, i: nat)
    requires Answerable(s) && n in s.nodes && 1 <= i <= ID_BITS
    ensures CanRun(s, FixSteps(n, i)) && Answerable(Run(s, FixSteps(n, i)))
    decreases ID_BITS - i
  {
    if i < ID_BITS {
      FixStep(s, n, i);
      FixStepsRun(Apply(s, FixFinger(n, i)), n, i + 1);
      Rounds.StepThen(s, FixFinger(n, i), FixSteps(n, i + 1));
    }
  }

  lemma UpdateStep(s: Net, n: Id)
    requires Answerable(s) && Enabled(s, StartUpdate(n))
    ensures Answerable(Apply(s, StartUpdate(n)))
  {
    assert SteadyNode(s.nodes.Keys, n, s.nodes[n]);
    SteadyStep(s, StartUpdate(n));
    StillAtMembers(s, Apply(s, StartUpdate(n)));
  }

  lemma OnlyAnswersMaintain(first: seq<Step>, rest: seq<Step>)
    requires MaintenanceOnly(first) && OnlyAnswers(rest)
    ensures MaintenanceOnly(first + rest)
  {
  }

  /** node_fix_fingers at n comes to an end: there is a run of it and of answers to lookups after which every
      finger of n is right. */
  lemma FixingEnds(s: Net, n: Id) returns (answers: seq<Step>)
    requires Answerable(s) && n in s.nodes
    ensures OnlyAnswers(answers) && CanRun(s, FixSteps(n, 1) + answers)
    ensures var s' := Run(s, FixSteps(n, 1) + answers);
            n in s'.nodes && IdealRing.FingersRight(s'.nodes.Keys, s'.nodes[n])
  {
    var fixes := FixSteps(n, 1);
    FixStepsRun(s, n, 1);
    answers := AnswerAll(Run(s, fixes));
    RunAppends(s, fixes, answers);
    OnlyAnswersMaintain(fixes, answers);
    Refresh.FixFingersWorks(s, fixes + answers, n);
  }

  /** And so does an update chain: after it the list of n is right from its first live slot on. */
  lemma UpdatingEnds(s: Net, n: Id) returns (answers: seq<Step>)
    requires Answerable(s) && Enabled(s, StartUpdate(n))
    ensures OnlyAnswers(answers) && CanRun(s, [StartUpdate(n)] + answers)
    ensures var s' := Run(s, [StartUpdate(n)] + answers);
            n in s'.nodes && ListFrom(s'.nodes.Keys, s'.nodes[n], FirstAlive(s.nodes[n].succs))
  {
    var start := StartUpdate(n);
    UpdateStep(s, n);
    Rounds.OneStep(s, start);
    answers := AnswerAll(Apply(s, start));
    Rounds.StepThen(s, start, answers);
    OnlyAnswersMaintain([start], answers);
    Refresh.UpdateChainWorks(s, [start] + answers, Run(s, [start] + answers), n, FirstAlive(s.nodes[n].succs));
  }
}
