/** With one stabilise request at a time per node no reply is ever outdated, and so a node once on the
    ring stays on it. */
module Outstanding {
  import opened Ids
  import opened LocalNode
  import opened Network
  import JoinRuns
  import Permanence
  import Monotone

  /** The node whose stabilise request or reply this is. */
  function Stabiliser(m: Msg): Option<Id> {
    match m
    case PredReq(from, _) => Some(from)
    case PredRep(to, _, _) => Some(to)
    case _ => None
  }

  function Asked(m: Msg): Id
    requires Stabiliser(m).Some?
  {
    m.asked
  }

  ghost predicate Idle(s: Net, n: Id) {
    forall m :: m in s.msgs ==> Stabiliser(m) != Some(n)
  }

  /** A node starts to stabilise only when its previous request has been answered. */
  ghost predicate OneAtATime(s: Net, steps: seq<Step>)
    requires CanRun(s, steps)
    decreases |steps|
  {
    steps == [] ||
    ((steps[0].StartStabilise? ==> Idle(s, steps[0].n)) && OneAtATime(Apply(s, steps[0]), steps[1..]))
  }

  /** m is the only stabilise message of its node, and was sent to the node's current successor. */
  ghost predicate Sole(s: Net, m: Msg) {
    Stabiliser(m).Some? ==>
      && s.msgs[m] == 1
      && (forall k :: k in s.msgs && Stabiliser(k) == Stabiliser(m) ==> k == m)
      && Stabiliser(m).value in s.nodes
      && s.nodes[Stabiliser(m).value].succs[0] == Some(Asked(m))
  }

  ghost predicate AllSole(s: Net) {
    forall m {:trigger Sole(s, m)} :: m in s.msgs ==> Sole(s, m)
  }

  lemma ServeSendsNoStabiliseMessage(s: Net, at: Id, target: Id, why: Purpose, k: Msg)
    requires Up(s, at) && Stabiliser(k).Some?
    ensures Serve(s, at, target, why).msgs[k] == s.msgs[k]
  {
  }

  lemma ReceiveSendsNoStabiliseMessage(s: Net, found: Id, why: Purpose, k: Msg)
    requires Stabiliser(k).Some?
    requires why.ForSlot? ==> why.who in s.nodes && why.slot < NUM_OF_SUCCS
    requires why.ForFinger? ==> why.who in s.nodes && why.index < ID_BITS
    ensures Receive(s, found, why).msgs[k] == s.msgs[k]
  {
  }

  lemma RelayKeepsStabiliseMessages(s: Net, m: Msg, k: Msg)
    requires Enabled(s, Relay(m)) && Stabiliser(k).Some?
    ensures Apply(s, Relay(m)).msgs[k] == s.msgs[k]
  {
    ServeSendsNoStabiliseMessage(Take(s, m), m.at, m.target, m.why, k);
  }

  lemma FoundKeepsStabiliseMessages(s: Net, m: Msg, k: Msg)
    requires Enabled(s, DeliverFound(m)) && Stabiliser(k).Some?
    ensures Apply(s, DeliverFound(m)).msgs[k] == s.msgs[k]
  {
    ReceiveSendsNoStabiliseMessage(Take(s, m), m.found, m.why, k);
  }

  /** Other steps leave the stabilise messages alone. */
  lemma SameStabiliseMessages(s: Net, step: Step, k: Msg)
    requires Enabled(s, step) && Stabiliser(k).Some?
    requires !step.StartStabilise? && !step.AnswerPred? && !step.DeliverPredRep?
    ensures Apply(s, step).msgs[k] == s.msgs[k]
  {
    match step
    case Relay(m) => RelayKeepsStabiliseMessages(s, m, k);
    case DeliverFound(m) => FoundKeepsStabiliseMessages(s, m, k);
    case _ =>
  }

  lemma SoleOther(s: Net, c: Id, step: Step, m: Msg)
    requires JoinRuns.Ordered(s, c) && AllSole(s) && Enabled(s, step) && !step.Fail?
    requires !step.StartStabilise? && !step.AnswerPred? && !step.DeliverPredRep?
    requires m in Apply(s, step).msgs && Stabiliser(m).Some?
    ensures Sole(Apply(s, step), m)
  {
    var s' := Apply(s, step);
    SameStabiliseMessages(s, step, m);
    assert Sole(s, m);
    forall k | k in s'.msgs && Stabiliser(k) == Stabiliser(m) ensures k == m {
      SameStabiliseMessages(s, step, k);
    }
    var n := Stabiliser(m).value;
    if step.DeliverNotify? && step.m.to == n {
    } else {
      Monotone.NeighboursChangeByTheirCallbacks(s, c, step, n);
    }
  }

  lemma SoleStart(s: Net, c: Id, n: Id, m: Msg)
    requires JoinRuns.Ordered(s, c) && AllSole(s) && Up(s, n) && Idle(s, n)
    requires m in Apply(s, StartStabilise(n)).msgs
    ensures Sole(Apply(s, StartStabilise(n)), m)
  {
    JoinRuns.OrderedNode(s, c, n);
    if m in s.msgs {
      assert Sole(s, m);
    }
  }

  lemma SoleAnswer(s: Net, r: Msg, m: Msg)
    requires AllSole(s) && Enabled(s, AnswerPred(r))
    requires m in Apply(s, AnswerPred(r)).msgs
    ensures Sole(Apply(s, AnswerPred(r)), m)
  {
    assert Sole(s, r);
    if m in s.msgs {
      assert Sole(s, m);
    }
  }

  lemma SoleReply(s: Net, r: Msg, m: Msg)
    requires AllSole(s) && Enabled(s, DeliverPredRep(r))
    requires m in Apply(s, DeliverPredRep(r)).msgs
    ensures Sole(Apply(s, DeliverPredRep(r)), m)
  {
    var s' := Apply(s, DeliverPredRep(r));
    if Stabiliser(m).Some? {
      assert m in s.msgs;
      assert Sole(s, r) && Sole(s, m);
      assert Stabiliser(m).value != r.to;
    }
  }

  lemma SoleStep(s: Net, c: Id, step: Step, m: Msg)
    requires JoinRuns.Ordered(s, c) && AllSole(s) && Enabled(s, step) && !step.Fail?
    requires step.StartStabilise? ==> Idle(s, step.n)
    requires m in Apply(s, step).msgs
    ensures Sole(Apply(s, step), m)
  {
    if Stabiliser(m).Some? {
      match step {
        case StartStabilise(n) => SoleStart(s, c, n, m);
        case AnswerPred(r) => SoleAnswer(s, r, m);
        case DeliverPredRep(r) => SoleReply(s, r, m);
        case _ => SoleOther(s, c, step, m);
      }
    }
  }

  /** With one request at a time, every reply comes from the current successor. */
  lemma {:induction false} OneAtATimeIsFresh(s: Net, c: Id, steps: seq<Step>)
    requires JoinRuns.Ordered(s, c) && AllSole(s)
    requires CanRun(s, steps) && NoFailure(steps) && OneAtATime(s, steps)
    ensures Permanence.FreshRun(s, steps)
    decreases |steps|
  {
    if steps != [] {
      var s' := Apply(s, steps[0]);
      if steps[0].DeliverPredRep? {
        assert Sole(s, steps[0].m);
        JoinRuns.OrderedNode(s, c, steps[0].m.to);
      }
      forall m | m in s'.msgs ensures Sole(s', m) {
        SoleStep(s, c, steps[0], m);
      }
      JoinRuns.OrderedStep(s, c, steps[0]);
      OneAtATimeIsFresh(s', c, steps[1..]);
    }
  }

  /** So then a node once on the ring stays on it. */
  lemma OneAtATimeKeepsTheRing(c: Id, useFingers: bool, before: seq<Step>, after: seq<Step>, n: Id)
    requires CanRun(Init(c, useFingers), before) && NoFailure(before) && OneAtATime(Init(c, useFingers), before)
    requires var s := Run(Init(c, useFingers), before);
             CanRun(s, after) && NoFailure(after) && OneAtATime(s, after) && Permanence.OnRingIn(s.nodes, c, n)
    ensures Permanence.OnRingIn(Run(Run(Init(c, useFingers), before), after).nodes, c, n)
  {
    var s0 := Init(c, useFingers);
    JoinRuns.InitOrdered(c, useFingers);
    OneAtATimeIsFresh(s0, c, before);
    SoleRun(s0, c, before);
    JoinRuns.OrderedRun(s0, c, before);
    OneAtATimeIsFresh(Run(s0, before), c, after);
    Permanence.OnceOnTheRing(c, useFingers, before, after, n);
  }

  lemma {:induction false} SoleRun(s: Net, c: Id, steps: seq<Step>)
    requires JoinRuns.Ordered(s, c) && AllSole(s)
    requires CanRun(s, steps) && NoFailure(steps) && OneAtATime(s, steps)
    ensures AllSole(Run(s, steps))
    decreases |steps|
  {
    if steps != [] {
      var s' := Apply(s, steps[0]);
      forall m | m in s'.msgs ensures Sole(s', m) {
        SoleStep(s, c, steps[0], m);
      }
      JoinRuns.OrderedStep(s, c, steps[0]);
      SoleRun(s', c, steps[1..]);
    }
  }
}
