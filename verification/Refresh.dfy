/** What fixing fingers and updating the successor list achieve on an ideal ring, whatever the
    tables hold beforehand and in whatever order the replies come. */
module Refresh {
  import opened Ids
  import opened LocalNode
  import Members
  import opened Network
  import IdealRing
  import opened IdealRuns

  /** The purpose of a lookup or of its answer. */
  function WhyOf(m: Msg): Option<Purpose> {
    match m
    case LookupAt(_, _, why) => Some(why)
    case Found(_, _, why) => Some(why)
    case _ => None
  }

  /** A lookup for this purpose, or its answer, is in flight. */
  ghost predicate Pending(s: Net, why: Purpose) {
    exists m :: m in s.msgs && WhyOf(m) == Some(why)
  }

  lemma RelayKeepsPending(s: Net, m: Msg)
    requires Enabled(s, Relay(m))
    ensures Pending(Apply(s, Relay(m)), m.why)
  {
    var s' := Apply(s, Relay(m));
    match FindSuccessor(s.nodes[m.at], m.target, s.useFingers)
    case Answer(f) => assert Found(f, m.target, m.why) in s'.msgs;
    case Forward(n) => assert LookupAt(n, m.target, m.why) in s'.msgs;
  }

  /** A step consumes no lookup and no answer but the one it is about. */
  lemma OthersStayInFlight(s: Net, step: Step, m: Msg)
    requires Enabled(s, step) && m in s.msgs && WhyOf(m).Some?
    requires step.Relay? || step.DeliverFound? ==> step.m != m
    ensures m in Apply(s, step).msgs
  {
    if step.DeliverFound? {
      OthersStayAfterFound(s, step.m, m);
    } else if step.Relay? {
      OthersStayAfterRelay(s, step.m, m);
    }
  }

  lemma OthersStayAfterRelay(s: Net, r: Msg, m: Msg)
    requires Enabled(s, Relay(r)) && m in s.msgs && r != m
    ensures m in Apply(s, Relay(r)).msgs
  {
    assert m in Take(s, r).msgs;
  }

  lemma OthersStayAfterFound(s: Net, r: Msg, m: Msg)
    requires Enabled(s, DeliverFound(r)) && m in s.msgs && r != m
    ensures m in Apply(s, DeliverFound(r)).msgs
  {
    assert m in Take(s, r).msgs;
  }

  /** A lookup is pending until its answer is delivered. */
  lemma PendingOrDelivered(s: Net, step: Step, why: Purpose)
    requires Enabled(s, step) && Pending(s, why)
    ensures Pending(Apply(s, step), why) || (step.DeliverFound? && step.m.why == why)
  {
    var m :| m in s.msgs && WhyOf(m) == Some(why);
    if step.Relay? && step.m == m {
      RelayKeepsPending(s, m);
    } else if !(step.DeliverFound? && step.m == m) {
      OthersStayInFlight(s, step, m);
    }
  }

  // ---------------------------------------------------------------- fingers

  /** Finger i of n is right, or being looked up. */
  ghost predicate FingerInHand(s: Net, n: Id, i: nat) {
    && n in s.nodes && 1 <= i < ID_BITS
    && (IdealRing.FingerRight(s.nodes.Keys, s.nodes[n], i) || Pending(s, ForFinger(n, i)))
  }

  lemma DeliveredFingerIsRight(s: Net, m: Msg)
    requires Steady(s) && Enabled(s, DeliverFound(m)) && m.why.ForFinger?
    ensures m.why.who in s.nodes && 1 <= m.why.index < ID_BITS
    ensures IdealRing.FingerRight(s.nodes.Keys, Apply(s, DeliverFound(m)).nodes[m.why.who], m.why.index)
  {
    assert TrueMsg(s.nodes, m);
    var n := m.why.who;
    assert SteadyNode(s.nodes.Keys, n, s.nodes[n]);
    FingerIsRight(s.nodes.Keys, s.nodes[n], m.why.index, m.found);
  }

  lemma FingerStaysInHand(s: Net, step: Step, n: Id, i: nat)
    requires Steady(s) && Enabled(s, step) && Maintains(step) && FingerInHand(s, n, i)
    ensures FingerInHand(Apply(s, step), n, i)
  {
    SameMembers(s, step);
    if IdealRing.FingerRight(s.nodes.Keys, s.nodes[n], i) {
      assert SteadyNode(s.nodes.Keys, n, s.nodes[n]);
      StepWritesRight(s, step, n, FirstAlive(s.nodes[n].succs));
    } else {
      PendingOrDelivered(s, step, ForFinger(n, i));
      if step.DeliverFound? && step.m.why == ForFinger(n, i) {
        DeliveredFingerIsRight(s, step.m);
      }
    }
  }

  /** node_fix_a_finger answers at once or sends the lookup on. */
  lemma FixTakesInHand(s: Net, n: Id, i: nat)
    requires Steady(s) && Enabled(s, FixFinger(n, i))
    ensures FingerInHand(Apply(s, FixFinger(n, i)), n, i)
  {
    var s', x := Apply(s, FixFinger(n, i)), FingerTarget(n, i);
    SameMembers(s, FixFinger(n, i));
    TrueOutcome(s, n, x);
    assert SteadyNode(s.nodes.Keys, n, s.nodes[n]);
    match FindSuccessor(s.nodes[n], x, s.useFingers)
    case Answer(f) => FingerIsRight(s.nodes.Keys, s.nodes[n], i, f);
    case Forward(to) => assert LookupAt(to, x, ForFinger(n, i)) in s'.msgs;
  }

  lemma {:induction false} FingerInHandRun(s: Net, steps: seq<Step>, n: Id, i: nat)
    requires Steady(s) && CanRun(s, steps) && MaintenanceOnly(steps)
    requires FingerInHand(s, n, i) || FixFinger(n, i) in steps
    ensures FingerInHand(Run(s, steps), n, i)
    decreases |steps|
  {
    if steps != [] {
      var s' := Apply(s, steps[0]);
      SteadyStep(s, steps[0]);
      if FingerInHand(s, n, i) {
        FingerStaysInHand(s, steps[0], n, i);
      } else if steps[0] == FixFinger(n, i) {
        FixTakesInHand(s, n, i);
      }
      FingerInHandRun(s', steps[1..], n, i);
    }
  }

  /** Once node_fix_fingers has run at n and all its lookups have been answered, every finger of n
      is the first member at or after its target, or empty when that is n. */
  lemma FixFingersWorks(s: Net, steps: seq<Step>, n: Id)
    requires Steady(s) && CanRun(s, steps) && MaintenanceOnly(steps)
    requires forall i :: 1 <= i < ID_BITS ==> FixFinger(n, i) in steps
    requires forall i :: 1 <= i < ID_BITS ==> !Pending(Run(s, steps), ForFinger(n, i))
    ensures var s' := Run(s, steps);
            n in s'.nodes && IdealRing.FingersRight(s'.nodes.Keys, s'.nodes[n])
  {
    FingerInHandRun(s, steps, n, 1);
    forall i | 1 <= i < ID_BITS ensures IdealRing.FingerRight(Run(s, steps).nodes.Keys, Run(s, steps).nodes[n], i) {
      FingerInHandRun(s, steps, n, i);
    }
  }

  // ---------------------------------------------------------------- successor list

  /** The slots of n from base up to k are right, and slot k is being looked up unless k is the end. */
  ghost predicate ListUpTo(s: Net, n: Id, base: nat, k: nat) {
    && n in s.nodes && 1 <= k <= NUM_OF_SUCCS
    && (forall j: nat {:trigger SlotRight(s.nodes.Keys, s.nodes[n], base, j)} ::
          base <= j < k ==> SlotRight(s.nodes.Keys, s.nodes[n], base, j))
    && (k < NUM_OF_SUCCS ==> Pending(s, ForSlot(n, k)))
  }

  /** base is where the live slots of n begin, and its chain is under way or has come to the end. */
  ghost predicate ListInHand(s: Net, n: Id, base: nat) {
    && n in s.nodes && BasedAt(s.nodes[n], base)
    && exists k: nat :: ListUpTo(s, n, base, k)
  }

  lemma DeliveredSlotIsRight(s: Net, m: Msg, base: nat)
    requires Steady(s) && Enabled(s, DeliverFound(m)) && m.why.ForSlot? && BasedAt(s.nodes[m.why.who], base)
    ensures SlotRight(s.nodes.Keys, Apply(s, DeliverFound(m)).nodes[m.why.who], base, m.why.slot)
    ensures m.why.slot + 1 < NUM_OF_SUCCS ==>
              Pending(Apply(s, DeliverFound(m)), ForSlot(m.why.who, m.why.slot + 1))
  {
    assert TrueMsg(s.nodes, m);
    var n, k := m.why.who, m.why.slot;
    assert SteadyNode(s.nodes.Keys, n, s.nodes[n]);
    SlotIsRight(s.nodes.Keys, base, s.nodes[n], k, m.target, m.found);
    if k + 1 < NUM_OF_SUCCS {
      assert LookupAt(m.found, Plus(m.found, 1), ForSlot(n, k + 1)) in Apply(s, DeliverFound(m)).msgs;
    }
  }

  lemma ListStaysInHand(s: Net, step: Step, n: Id, base: nat)
    requires Steady(s) && Enabled(s, step) && Maintains(step) && ListInHand(s, n, base)
    ensures ListInHand(Apply(s, step), n, base)
  {
    var s' := Apply(s, step);
    var k: nat :| ListUpTo(s, n, base, k);
    SameMembers(s, step);
    StepWritesRight(s, step, n, base);
    SlotsStayRight(s.nodes.Keys, base, s.nodes[n], s'.nodes[n], k);
    if k == NUM_OF_SUCCS {
      assert ListUpTo(s', n, base, k);
    } else {
      PendingOrDelivered(s, step, ForSlot(n, k));
      if Pending(s', ForSlot(n, k)) {
        assert ListUpTo(s', n, base, k);
      } else {
        DeliveredSlotIsRight(s, step.m, base);
        assert ListUpTo(s', n, base, k + 1);
      }
    }
  }

  lemma SlotsStayRight(members: set<Id>, base: nat, a: Node, b: Node, k: nat)
    requires RightWrite(members, base, a, b) && k <= NUM_OF_SUCCS
    requires forall j: nat {:trigger SlotRight(members, a, base, j)} :: base <= j < k ==> SlotRight(members, a, base, j)
    ensures forall j: nat {:trigger SlotRight(members, b, base, j)} :: base <= j < k ==> SlotRight(members, b, base, j)
  {
    forall j: nat {:trigger SlotRight(members, b, base, j)} | base <= j < k ensures SlotRight(members, b, base, j) {
      assert SlotRight(members, a, base, j);
    }
  }

  lemma UpdateTakesInHand(s: Net, n: Id, base: nat)
    requires Steady(s) && Enabled(s, StartUpdate(n)) && BasedAt(s.nodes[n], base)
    ensures ListInHand(Apply(s, StartUpdate(n)), n, base)
  {
    var s', node := Apply(s, StartUpdate(n)), s.nodes[n];
    assert SteadyNode(s.nodes.Keys, n, node);
    FirstSlotIsRight(s.nodes.Keys, node);
    var v := First(node);
    assert LookupAt(v, Plus(v, 1), ForSlot(n, FirstAlive(node.succs) + 1)) in s'.msgs;
    assert ListUpTo(s', n, base, FirstAlive(node.succs) + 1);
  }

  lemma {:induction false} ListInHandRun(s: Net, steps: seq<Step>, n: Id, base: nat)
    requires Steady(s) && CanRun(s, steps) && MaintenanceOnly(steps)
    requires n in s.nodes && BasedAt(s.nodes[n], base)
    requires ListInHand(s, n, base) || StartUpdate(n) in steps
    ensures ListInHand(Run(s, steps), n, base)
    decreases |steps|
  {
    if steps != [] {
      var s' := Apply(s, steps[0]);
      SteadyStep(s, steps[0]);
      StepWritesRight(s, steps[0], n, base);
      if ListInHand(s, n, base) {
        ListStaysInHand(s, steps[0], n, base);
      } else if steps[0] == StartUpdate(n) {
        UpdateTakesInHand(s, n, base);
      }
      ListInHandRun(s', steps[1..], n, base);
    }
  }

  /** One full update chain leaves the first live slot and all after it naming the members clockwise,
      one after the other, going round more than once on small rings. base is where the live slots
      of n begin: 0 where nobody has failed, and then all 8 slots are right. */
  lemma UpdateChainWorks(s: Net, steps: seq<Step>, s': Net, n: Id, base: nat)
    requires Steady(s) && CanRun(s, steps) && MaintenanceOnly(steps) && s' == Run(s, steps)
    requires n in s.nodes && FirstAlive(s.nodes[n].succs) == base
    requires StartUpdate(n) in steps
    requires forall k: nat :: k < NUM_OF_SUCCS ==> !Pending(s', ForSlot(n, k))
    ensures n in s'.nodes && ListFrom(s'.nodes.Keys, s'.nodes[n], base)
    ensures BasedAt(s'.nodes[n], base)
  {
    ListInHandRun(s, steps, n, base);
  }

  /** The same from slot 0: slot j names the (j+1)-th member clockwise, for all 8 slots. */
  lemma FullChainWorks(s: Net, steps: seq<Step>, s': Net, n: Id, j: nat)
    requires Steady(s) && CanRun(s, steps) && MaintenanceOnly(steps) && s' == Run(s, steps)
    requires n in s.nodes && s.nodes[n].succs[0].Some? && StartUpdate(n) in steps && j < NUM_OF_SUCCS
    requires forall k: nat :: k < NUM_OF_SUCCS ==> !Pending(s', ForSlot(n, k))
    ensures n in s'.nodes && s'.nodes[n].succs[j] == Some(Members.Nth(s'.nodes.Keys, n, j + 1))
  {
    ListInHandRun(s, steps, n, 0);
    SteadyRun(s, steps);
    assert SteadyNode(s'.nodes.Keys, n, s'.nodes[n]);
    assert SlotRight(s'.nodes.Keys, s'.nodes[n], 0, j);
  }
}
