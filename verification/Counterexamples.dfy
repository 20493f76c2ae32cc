/** Runs from node_network_create that show what the code does not rule out. Without failures: a reply
    takes a node off the ring, even the reply of its current successor, a lookup that was at such a node
    is answered wrongly, and a node forgets a better predecessor for itself. */
module Counterexamples {
  import opened Ids
  import opened LocalNode
  import opened Network
  import opened Pictures
  import opened RingGraph
  import JoinRuns
  import Monotone
  import P = Permanence
  import RingLoss
  import RingLookups
  import Rounds

  // ---------------------------------------------------------------- runs drawn picture by picture

  /** A run from node_network_create at 0 that ends in this picture with these messages in flight. */
  ghost predicate Drawn(steps: seq<Step>, p: Picture, msgs: multiset<Msg>) {
    Whole(p) && LeadsTo(Init(0, false), steps, Pic(p, msgs))
  }

  /** The run goes on with b. */
  lemma Further(a: seq<Step>, p: Picture, msgs: multiset<Msg>, b: seq<Step>, p': Picture, msgs': multiset<Msg>)
    requires Drawn(a, p, msgs) && Whole(p') && LeadsTo(Pic(p, msgs), b, Pic(p', msgs'))
    ensures Drawn(a + b, p', msgs')
  {
    Then(Init(0, false), a, Pic(p, msgs), b, Pic(p', msgs'));
  }

  lemma ThenStabilises(a: seq<Step>, p: Picture, n: Id, u: Id, p': Picture, msgs: multiset<Msg>)
      returns (steps: seq<Step>)
    requires BecomesByRound(p, n, u, p') && Drawn(a, p, msgs)
    ensures Drawn(steps, p', msgs)
  {
    var b := Stabilises(p, n, u, p', msgs);
    Further(a, p, msgs, b, p', msgs);
    steps := a + b;
  }

  lemma ThenAsks(a: seq<Step>, p: Picture, n: Id, msgs: multiset<Msg>, reply: Msg) returns (steps: seq<Step>)
    requires Inside(p, n) && Inside(p, p.succ[n]) && Drawn(a, p, msgs)
    requires PredRep(n, p.succ[n], p.pred[p.succ[n]]) == reply
    ensures Drawn(steps, p, msgs + multiset{reply})
  {
    var b := Asks(p, n, msgs);
    Further(a, p, msgs, b, p, msgs + multiset{reply});
    steps := a + b;
  }

  lemma ThenArrives(a: seq<Step>, p: Picture, n: Id, asked: Id, reply: Option<Id>, u: Id, msgs: multiset<Msg>)
      returns (steps: seq<Step>)
    requires n in p.succ && u in p.succ && AfterReply(n, p.succ[n], reply) == u
    requires Drawn(a, p, msgs + multiset{PredRep(n, asked, reply)})
    ensures Drawn(steps, Points(p, n, u), msgs + multiset{Notify(n, u)})
  {
    var s, last := Pic(p, msgs + multiset{PredRep(n, asked, reply)}), DeliverPredRep(PredRep(n, asked, reply));
    Arrives(p, n, asked, reply, u, msgs);
    PointsWhole(p, n, u);
    Rounds.OneStep(s, last);
    Further(a, p, msgs + multiset{PredRep(n, asked, reply)}, [last], Points(p, n, u), msgs + multiset{Notify(n, u)});
    steps := a + [last];
  }

  /** n, which points at 0, makes itself known there. */
  lemma MakesItselfKnown(a: seq<Step>, p: Picture, n: Id, pred: Id, msgs: multiset<Msg>) returns (steps: seq<Step>)
    requires Inside(p, n) && Inside(p, 0) && p.succ[n] == 0 && p.pred[0] == Some(pred) && pred < n
    requires Drawn(a, p, msgs)
    ensures Drawn(steps, Records(p, 0, Some(n)), msgs)
  {
    KnownByRound(p, n, pred);
    steps := ThenStabilises(a, p, n, 0, Records(p, 0, Some(n)), msgs);
  }

  lemma KnownByRound(p: Picture, n: Id, pred: Id)
    requires Whole(p) && Inside(p, n) && Inside(p, 0) && p.succ[n] == 0 && p.pred[0] == Some(pred) && pred < n
    ensures BecomesByRound(p, n, 0, Records(p, 0, Some(n)))
  {
    assert p.succ[n := 0] == p.succ;
  }

  /** n takes the predecessor u of its successor t as its successor. */
  lemma TakesPredecessor(a: seq<Step>, p: Picture, n: Id, t: Id, u: Id, pred: Option<Id>, msgs: multiset<Msg>)
      returns (steps: seq<Step>)
    requires Inside(p, n) && Inside(p, t) && Inside(p, u) && Drawn(a, p, msgs)
    requires p.succ[n] == t && p.pred[t] == Some(u) && AfterReply(n, t, Some(u)) == u
    requires AfterNotify(u, p.pred[u], n) == pred
    ensures Drawn(steps, Records(Points(p, n, u), u, pred), msgs)
  {
    steps := ThenStabilises(a, p, n, u, Records(Points(p, n, u), u, pred), msgs);
  }

  // ---------------------------------------------------------------- losing a node

  /** How the ring of 0 loses n when a reply arrives at 0. */
  lemma ArrivalLoses(steps: seq<Step>, p: Picture, msgs: multiset<Msg>, asked: Id, reply: Option<Id>, u: Id, n: Id)
    requires 0 in p.succ && AfterReply(0, p.succ[0], reply) == u
    requires Drawn(steps, p, msgs + multiset{PredRep(0, asked, reply)})
    requires P.OnRingIn(Shown(p), 0, n) && !P.OnRingIn(Shown(Points(p, 0, u)), 0, n)
    ensures var s, last := Pic(p, msgs + multiset{PredRep(0, asked, reply)}), DeliverPredRep(PredRep(0, asked, reply));
            && Enabled(s, last) && !RingLoss.Harmless(s, 0, last)
            && Apply(s, last).nodes == Shown(Points(p, 0, u))
  {
    Arrives(p, 0, asked, reply, u, msgs);
    var m := PredRep(0, asked, reply);
    LosingIsNotHarmless(steps, Pic(p, msgs + multiset{m}), DeliverPredRep(m), n);
  }

  lemma LosingIsNotHarmless(steps: seq<Step>, s: Net, last: Step, n: Id)
    requires LeadsTo(Init(0, false), steps, s) && Enabled(s, last) && !last.Fail?
    requires P.OnRingIn(s.nodes, 0, n) && !P.OnRingIn(Apply(s, last).nodes, 0, n)
    ensures !RingLoss.Harmless(s, 0, last)
  {
    JoinRuns.InitOrdered(0, false);
    JoinRuns.OrderedRun(Init(0, false), 0, steps);
    RingLoss.StepLosesNobody(s, 0, last);
  }

  /** The ring of a picture. */
  lemma RingOf(p: Picture, g: Graph, n: Id)
    requires Whole(p) && g == p.succ
    ensures Closed(g) && (P.OnRingIn(Shown(p), 0, n) <==> Path(g, 0, n))
  {
    forall k {:trigger g[k]} | k in g ensures g[k] in g {
      assert Inside(p, k);
    }
    ArrowsAreShown(p);
  }

  // ---------------------------------------------------------------- an outdated reply

  const EARLIER := PredRep(0, 0, Some(10))
  const LATER := PredRep(0, 0, Some(20))

  /** Node 0 asks itself for its predecessor twice, and the reply sent last arrives first. */
  lemma LaterOvertakes(a: seq<Step>, p: Picture) returns (steps: seq<Step>)
    requires Drawn(a, p, multiset{}) && Star(p, {0, 10, 20})
    ensures Drawn(steps, Points(Records(Records(p, 0, Some(10)), 0, Some(20)), 0, 20),
                  multiset{} + multiset{EARLIER} + multiset{Notify(0, 20)})
  {
    var p1 := Records(p, 0, Some(10));
    var p2 := Records(p1, 0, Some(20));
    assert Inside(p, 10) && Inside(p, 0);
    steps := MakesItselfKnown(a, p, 10, 0, multiset{});
    assert Inside(p1, 20) && Inside(p1, 0);
    steps := ThenAsks(steps, p1, 0, multiset{}, EARLIER);
    steps := MakesItselfKnown(steps, p1, 20, 10, multiset{} + multiset{EARLIER});
    assert Inside(p2, 0);
    steps := ThenAsks(steps, p2, 0, multiset{} + multiset{EARLIER}, LATER);
    steps := ThenArrives(steps, p2, 0, 0, Some(20), 20, multiset{} + multiset{EARLIER});
  }

  /** 0 and the node it points at, which points back, are a ring of two. */
  lemma RingOfTwo(g: Graph, n: Id, other: Id)
    requires Closed(g) && 0 in g && n in g && other in g && n != 0 && other != 0 && n != other
    requires g[0] == n && g[n] == 0
    ensures Path(g, 0, n) && !Path(g, 0, other)
  {
    assert Leads(g, n, n) && Leads(g, 0, n);
    assert !Leads(g, n, other);
  }

  lemma PictureOfTwo(p: Picture, n: Id, other: Id)
    requires Whole(p) && 0 in p.succ && n in p.succ && other in p.succ && n != 0 && other != 0 && n != other
    requires p.succ[0] == n && p.succ[n] == 0
    ensures P.OnRingIn(Shown(p), 0, n) && !P.OnRingIn(Shown(p), 0, other)
  {
    RingOf(p, p.succ, n);
    RingOf(p, p.succ, other);
    RingOfTwo(p.succ, n, other);
  }

  /** Node 20 is on the ring until the earlier reply arrives, and off it afterwards. */
  lemma OutdatedReplyLosesANode() returns (steps: seq<Step>)
    ensures NoFailure(steps) && CanRun(Init(0, false), steps)
    ensures var s, last := Run(Init(0, false), steps), DeliverPredRep(EARLIER);
            && P.OnRingIn(s.nodes, 0, 20)
            && Enabled(s, last) && !P.Fresh(s, last) && !RingLoss.Harmless(s, 0, last)
            && !P.OnRingIn(Apply(s, last).nodes, 0, 20)
  {
    var p;
    steps, p := AllJoin([10, 20], {0, 10, 20});
    StarIsWhole(p, {0, 10, 20});
    steps := LaterOvertakes(steps, p);
    EarlierArrives(steps, p, Points(Records(Records(p, 0, Some(10)), 0, Some(20)), 0, 20));
  }

  lemma StarIsWhole(p: Picture, members: set<Id>)
    requires Star(p, members)
    ensures Whole(p)
  {
    forall n {:trigger Inside(p, n)} | n in p.succ ensures Inside(p, n) {
    }
  }

  lemma EarlierArrives(steps: seq<Step>, p: Picture, q: Picture)
    requires Star(p, {0, 10, 20}) && q == Points(Records(Records(p, 0, Some(10)), 0, Some(20)), 0, 20)
    requires Drawn(steps, q, multiset{} + multiset{EARLIER} + multiset{Notify(0, 20)})
    ensures var s, last := Run(Init(0, false), steps), DeliverPredRep(EARLIER);
            && P.OnRingIn(s.nodes, 0, 20)
            && Enabled(s, last) && !P.Fresh(s, last) && !RingLoss.Harmless(s, 0, last)
            && !P.OnRingIn(Apply(s, last).nodes, 0, 20)
  {
    assert multiset{} + multiset{EARLIER} + multiset{Notify(0, 20)} == multiset{Notify(0, 20)} + multiset{EARLIER};
    PictureOfTwo(q, 20, 10);
    PointsWhole(q, 0, 10);
    PictureOfTwo(Points(q, 0, 10), 10, 20);
    ArrivalLoses(steps, q, multiset{Notify(0, 20)}, 0, Some(10), 10, 20);
    PlainNode(0, 20, q.pred[0]);
  }

  // ---------------------------------------------------------------- a reply of the current successor

  const OLD := PredRep(10, 0, Some(20))
  const NEW := PredRep(0, 30, Some(10))

  /** The pictures of the run. 10, off the ring, gets an old reply and points at 20, and so 10, which 30
      knows as its predecessor, does not lead to 30 any more. */
  function WhileOldTravels(p: Picture): Picture {
    var p2 := Records(Records(p, 0, Some(20)), 0, Some(30));
    var p3 := Records(Points(p2, 10, 30), 30, Some(10));
    Records(Points(p3, 0, 30), 30, Some(10))
  }

  lemma OldTravels(a: seq<Step>, p: Picture) returns (steps: seq<Step>)
    requires Drawn(a, p, multiset{}) && Star(p, {0, 10, 20, 30})
    ensures Drawn(steps, WhileOldTravels(p), multiset{} + multiset{OLD})
  {
    var p1 := Records(p, 0, Some(20));
    var p2 := Records(p1, 0, Some(30));
    var p3 := Records(Points(p2, 10, 30), 30, Some(10));
    assert Inside(p, 20) && Inside(p, 0);
    steps := MakesItselfKnown(a, p, 20, 0, multiset{});
    assert Inside(p1, 10) && Inside(p1, 30) && Inside(p1, 0);
    steps := ThenAsks(steps, p1, 10, multiset{}, OLD);
    steps := MakesItselfKnown(steps, p1, 30, 20, multiset{} + multiset{OLD});
    assert Inside(p2, 10) && Inside(p2, 30) && Inside(p2, 0);
    steps := TakesPredecessor(steps, p2, 10, 0, 30, Some(10), multiset{} + multiset{OLD});
    assert Inside(p3, 0) && Inside(p3, 30);
    steps := TakesPredecessor(steps, p3, 0, 0, 30, Some(10), multiset{} + multiset{OLD});
  }

  lemma NewIsSent(a: seq<Step>, p: Picture) returns (steps: seq<Step>)
    requires Star(p, {0, 10, 20, 30}) && Drawn(a, WhileOldTravels(p), multiset{} + multiset{OLD})
    ensures Drawn(steps, Points(WhileOldTravels(p), 10, 20), multiset{} + multiset{Notify(10, 20)} + multiset{NEW})
  {
    var q := WhileOldTravels(p);
    steps := ThenArrives(a, q, 10, 0, Some(20), 20, multiset{});
    var q1 := Points(q, 10, 20);
    assert Inside(q1, 0) && Inside(q1, 30);
    steps := ThenAsks(steps, q1, 0, multiset{} + multiset{Notify(10, 20)}, NEW);
  }

  lemma RingOfThree(g: Graph, a: Id, b: Id, other: Id)
    requires Closed(g) && 0 in g && a in g && b in g && other in g && 0 < a < b < other
    requires g[0] == a && g[a] == b && g[b] == 0
    ensures !Path(g, 0, other)
  {
    assert !Leads(g, b, other);
    assert !Leads(g, a, other);
  }

  lemma PictureOfThree(p: Picture, a: Id, b: Id, other: Id)
    requires Whole(p) && 0 in p.succ && a in p.succ && b in p.succ && other in p.succ && 0 < a < b < other
    requires p.succ[0] == a && p.succ[a] == b && p.succ[b] == 0
    ensures !P.OnRingIn(Shown(p), 0, other)
  {
    RingOf(p, p.succ, other);
    RingOfThree(p.succ, a, b, other);
  }

  /** After one outdated reply that was harmless, the reply of the current successor loses node 30. */
  lemma FreshReplyLosesANode() returns (steps: seq<Step>)
    ensures NoFailure(steps) && CanRun(Init(0, false), steps)
    ensures var s, last := Run(Init(0, false), steps), DeliverPredRep(NEW);
            && P.OnRingIn(s.nodes, 0, 30)
            && Enabled(s, last) && P.Fresh(s, last) && !RingLoss.Harmless(s, 0, last)
            && !P.OnRingIn(Apply(s, last).nodes, 0, 30)
  {
    var p;
    steps, p := AllJoin([10, 20, 30], {0, 10, 20, 30});
    StarIsWhole(p, {0, 10, 20, 30});
    steps := OldTravels(steps, p);
    steps := NewIsSent(steps, p);
    LosesThirty(p, Points(WhileOldTravels(p), 10, 20));
    NewArrives(steps, Points(WhileOldTravels(p), 10, 20));
  }

  lemma NewArrives(steps: seq<Step>, q: Picture)
    requires 0 in q.succ && Whole(q) && q.succ[0] == 30
    requires P.OnRingIn(Shown(q), 0, 30) && !P.OnRingIn(Shown(Points(q, 0, 10)), 0, 30)
    requires Drawn(steps, q, multiset{} + multiset{Notify(10, 20)} + multiset{NEW})
    ensures var s, last := Run(Init(0, false), steps), DeliverPredRep(NEW);
            && P.OnRingIn(s.nodes, 0, 30)
            && Enabled(s, last) && P.Fresh(s, last) && !RingLoss.Harmless(s, 0, last)
            && !P.OnRingIn(Apply(s, last).nodes, 0, 30)
  {
    ArrivalLoses(steps, q, multiset{} + multiset{Notify(10, 20)}, 30, Some(10), 10, 30);
    PlainNode(0, 30, q.pred[0]);
  }

  lemma LosesThirty(p: Picture, q: Picture)
    requires Star(p, {0, 10, 20, 30}) && q == Points(WhileOldTravels(p), 10, 20) && Whole(q)
    ensures 0 in q.succ && q.succ[0] == 30 && P.OnRingIn(Shown(q), 0, 30)
    ensures !P.OnRingIn(Shown(Points(q, 0, 10)), 0, 30)
  {
    PictureOfTwo(q, 30, 10);
    PointsWhole(q, 0, 10);
    PictureOfThree(Points(q, 0, 10), 10, 20, 30);
  }

  // ---------------------------------------------------------------- a lookup at a lost node

  /** The ring 0, 20, 30 while an old reply that names 10, off the ring, travels to node 0. */
  function BeforeTheLoss(p: Picture): Picture {
    var p2 := Records(Records(p, 0, Some(10)), 0, Some(20));
    var p4 := Records(Records(Points(p2, 0, 20), 20, Some(0)), 0, Some(30));
    Records(Points(p4, 20, 30), 30, Some(20))
  }

  lemma RingOfTwentyAndThirty(a: seq<Step>, p: Picture) returns (steps: seq<Step>)
    requires Drawn(a, p, multiset{}) && Star(p, {0, 10, 20, 30})
    ensures Drawn(steps, BeforeTheLoss(p), multiset{} + multiset{EARLIER})
  {
    var p1 := Records(p, 0, Some(10));
    var p2 := Records(p1, 0, Some(20));
    var p3 := Records(Points(p2, 0, 20), 20, Some(0));
    var p4 := Records(p3, 0, Some(30));
    assert Inside(p, 10) && Inside(p, 0);
    steps := MakesItselfKnown(a, p, 10, 0, multiset{});
    assert Inside(p1, 20) && Inside(p1, 0);
    steps := ThenAsks(steps, p1, 0, multiset{}, EARLIER);
    steps := MakesItselfKnown(steps, p1, 20, 10, multiset{} + multiset{EARLIER});
    assert Inside(p2, 0) && Inside(p2, 20);
    steps := TakesPredecessor(steps, p2, 0, 0, 20, Some(0), multiset{} + multiset{EARLIER});
    assert Inside(p3, 0) && Inside(p3, 30);
    steps := MakesItselfKnown(steps, p3, 30, 20, multiset{} + multiset{EARLIER});
    assert Inside(p4, 0) && Inside(p4, 20) && Inside(p4, 30);
    steps := TakesPredecessor(steps, p4, 20, 0, 30, Some(20), multiset{} + multiset{EARLIER});
  }

  /** A stabilise reply does to the nodes what it does whatever else is in flight. */
  lemma SameNodes(s: Net, s': Net, m: Msg)
    requires Enabled(s, DeliverPredRep(m)) && Enabled(s', DeliverPredRep(m)) && s.nodes == s'.nodes
    ensures Apply(s, DeliverPredRep(m)).nodes == Apply(s', DeliverPredRep(m)).nodes
  {
  }

  /** A lookup j makes in order to join is at a node that serves it wrongly. */
  ghost predicate AnswersWrongly(s: Net, at: Id, j: Id) {
    var lookup := Relay(LookupAt(at, j, ForJoin(j)));
    && Enabled(s, lookup)
    && !RingLookups.RightlyServed(JoinRuns.SuccGraph(s.nodes), 0, j, FindSuccessor(s.nodes[at], j, false))
  }

  /** 25 starts to join through 20, which is on the ring. Then 20 and 30 are lost, and 20 answers with 30,
      while the first node of the ring at or after 25 is 0. */
  lemma LostRelayAnswersWrongly() returns (before: seq<Step>)
    ensures NoFailure(before) && CanRun(Init(0, false), before)
    ensures var s := Run(Init(0, false), before);
            && P.OnRingIn(s.nodes, 0, 20) && Enabled(s, StartJoin(25, 20))
            && var s1, last := Apply(s, StartJoin(25, 20)), DeliverPredRep(EARLIER);
            && Enabled(s1, last) && !RingLoss.Harmless(s, 0, last)
            && AnswersWrongly(Apply(s1, last), 20, 25)
  {
    var p;
    before, p := AllJoin([10, 20, 30], {0, 10, 20, 30});
    StarIsWhole(p, {0, 10, 20, 30});
    before := RingOfTwentyAndThirty(before, p);
    ArrowsBeforeTheLoss(p, BeforeTheLoss(p));
    LosesTwentyAndThirty(BeforeTheLoss(p));
    EarlierReachesTheRing(before, BeforeTheLoss(p));
  }

  lemma OnFirst(p: Picture, n: Id)
    requires Whole(p) && 0 in p.succ && n in p.succ && p.succ[0] == n
    ensures P.OnRingIn(Shown(p), 0, n)
  {
    RingOf(p, p.succ, n);
    assert Leads(p.succ, n, n);
  }

  lemma EarlierReachesTheRing(before: seq<Step>, q: Picture)
    requires Drawn(before, q, multiset{} + multiset{EARLIER}) && Whole(Points(q, 0, 10))
    requires 0 in q.succ && 20 in q.succ && 25 !in q.succ && q.succ[0] == 20 && q.succ[20] == 30
    requires P.OnRingIn(Shown(q), 0, 20)
    requires !P.OnRingIn(Shown(Points(q, 0, 10)), 0, 20) && !P.OnRingIn(Shown(Points(q, 0, 10)), 0, 30)
    ensures var s := Run(Init(0, false), before);
            && P.OnRingIn(s.nodes, 0, 20) && Enabled(s, StartJoin(25, 20))
            && var s1, last := Apply(s, StartJoin(25, 20)), DeliverPredRep(EARLIER);
            && Enabled(s1, last) && !RingLoss.Harmless(s, 0, last)
            && AnswersWrongly(Apply(s1, last), 20, 25)
  {
    ArrivalLoses(before, q, multiset{}, 0, Some(10), 10, 20);
    LossDuringLookup(Pic(q, multiset{} + multiset{EARLIER}), q);
  }

  lemma LossDuringLookup(s: Net, q: Picture)
    requires Whole(q) && Whole(Points(q, 0, 10)) && 20 in q.succ && q.succ[20] == 30 && 25 !in q.succ
    requires s == Pic(q, multiset{} + multiset{EARLIER})
    requires Enabled(s, DeliverPredRep(EARLIER))
    requires Apply(s, DeliverPredRep(EARLIER)).nodes == Shown(Points(q, 0, 10))
    requires !P.OnRingIn(Shown(Points(q, 0, 10)), 0, 30)
    ensures Enabled(s, StartJoin(25, 20))
    ensures var s1, last := Apply(s, StartJoin(25, 20)), DeliverPredRep(EARLIER);
            Enabled(s1, last) && AnswersWrongly(Apply(s1, last), 20, 25)
  {
    var s1 := Apply(s, StartJoin(25, 20));
    SameNodes(s, s1, EARLIER);
    LookupStays(s1, EARLIER, LookupAt(20, 25, ForJoin(25)));
    AnswerOffRing(Apply(s1, DeliverPredRep(EARLIER)), Points(q, 0, 10), 20, 30, 25);
  }

  lemma LookupStays(s: Net, m: Msg, k: Msg)
    requires Enabled(s, DeliverPredRep(m)) && k in s.msgs && k != m
    ensures k in Apply(s, DeliverPredRep(m)).msgs
    ensures Apply(s, DeliverPredRep(m)).useFingers == s.useFingers
  {
  }

  lemma LosesTwentyAndThirty(q: Picture)
    requires Whole(q) && q.succ == map[0 := 20, 10 := 0, 20 := 30, 30 := 0]
    ensures 0 in q.succ && 20 in q.succ && 25 !in q.succ && q.succ[0] == 20 && q.succ[20] == 30
    ensures P.OnRingIn(Shown(q), 0, 20)
    ensures Whole(Points(q, 0, 10))
    ensures !P.OnRingIn(Shown(Points(q, 0, 10)), 0, 20) && !P.OnRingIn(Shown(Points(q, 0, 10)), 0, 30)
  {
    OnFirst(q, 20);
    PointsWhole(q, 0, 10);
    PictureOfTwo(Points(q, 0, 10), 10, 20);
    PictureOfTwo(Points(q, 0, 10), 10, 30);
  }

  lemma ArrowsBeforeTheLoss(p: Picture, q: Picture)
    requires Star(p, {0, 10, 20, 30}) && q == BeforeTheLoss(p)
    ensures q.succ == map[0 := 20, 10 := 0, 20 := 30, 30 := 0]
  {
  }

  /** An answer that is not on the ring is wrong. */
  lemma AnswerOffRing(s: Net, p: Picture, at: Id, found: Id, j: Id)
    requires Whole(p) && at in p.succ && p.succ[at] == found && at != j && InRange(j, at, found)
    requires s.nodes == Shown(p) && !s.useFingers && LookupAt(at, j, ForJoin(j)) in s.msgs
    requires !P.OnRingIn(Shown(p), 0, found)
    ensures AnswersWrongly(s, at, j)
  {
    PlainNode(at, found, p.pred[at]);
    assert FindSuccessor(s.nodes[at], j, false) == Answer(found);
  }

  // ---------------------------------------------------------------- a notify to oneself

  const ITSELF := PredRep(0, 0, Some(0))

  lemma NotifiesItself(a: seq<Step>, p: Picture) returns (steps: seq<Step>)
    requires Drawn(a, p, multiset{}) && Star(p, {0, 10})
    ensures Drawn(steps, Records(Points(p, 0, 0), 0, Some(10)), multiset{} + multiset{Notify(0, 0)})
  {
    assert Inside(p, 0);
    steps := ThenAsks(a, p, 0, multiset{}, ITSELF);
    steps := ThenArrives(steps, p, 0, 0, Some(0), 0, multiset{});
    assert Inside(Points(p, 0, 0), 10) && Inside(Points(p, 0, 0), 0);
    steps := MakesItselfKnown(steps, Points(p, 0, 0), 10, 0, multiset{} + multiset{Notify(0, 0)});
  }

  /** Node 0 knows 10 as its predecessor, and then, by the notify it sent itself while alone, takes itself. */
  lemma OwnNotifyForgetsABetterOne() returns (steps: seq<Step>)
    ensures NoFailure(steps) && CanRun(Init(0, false), steps)
    ensures var s, last := Run(Init(0, false), steps), DeliverNotify(Notify(0, 0));
            && Enabled(s, last)
            && s.nodes[0].pred == Some(10) && Apply(s, last).nodes[0].pred == Some(0)
            && Monotone.PredCost(Apply(s, last).nodes[0]) > Monotone.PredCost(s.nodes[0])
  {
    var p;
    steps, p := AllJoin([10], {0, 10});
    StarIsWhole(p, {0, 10});
    steps := NotifiesItself(steps, p);
    PlainNotified(0, 0, Some(10), 0);
  }
}
