/** Lookups without fingers (the NOFINGER build) while nodes join: started at a ring node they are
    answered by the first ring node at or after the id, though other members hang off the ring. */
module RingLookups {
  import opened Ids
  import opened LocalNode
  import opened RingGraph
  import opened Network
  import Lookup
  import opened JoinRuns
  import Permanence
  import RingLoss

  lemma OrderedIsSound(s: Net, c: Id)
    requires Ordered(s, c)
    ensures Lookup.Sound(s.nodes)
  {
    forall n | n in s.nodes ensures Lookup.SoundNode(s.nodes.Keys, n, s.nodes[n]) {
      OrderedNode(s, c, n);
    }
  }

  /** a is the ring node that x meets first, going clockwise. */
  ghost predicate FirstOnRing(g: Graph, c: Id, x: Id, a: Id) {
    && Path(g, c, a)
    && forall m {:trigger Path(g, c, m)} :: Path(g, c, m) ==> Dist(x, a) <= Dist(x, m)
  }

  lemma FirstInRingGap(g: Graph, c: Id, n: Id, x: Id)
    requires Closed(g) && Rooted(g, c) && Path(g, c, n)
    requires x != n && (Dist(n, x) <= Dist(n, g[n]) || g[n] == n)
    ensures FirstOnRing(g, c, x, g[n])
  {
    RingSuccessor(g, c, n);
    forall m | Path(g, c, m) ensures Dist(x, g[n]) <= Dist(x, m) {
      RingInOrder(g, c, n, m);
    }
  }

  /** The right answer, or on to a ring node. */
  ghost predicate RightlyServed(g: Graph, c: Id, x: Id, outcome: Outcome) {
    match outcome
    case Answer(a) => FirstOnRing(g, c, x, a)
    case Forward(to) => Path(g, c, to)
  }

  /** What a ring node does with a lookup. */
  lemma RingNodeServes(s: Net, c: Id, g: Graph, n: Id, x: Id)
    requires Ordered(s, c) && Shows(s.nodes, g) && Path(g, c, n)
    ensures Up(s, n) && RightlyServed(g, c, x, FindSuccessor(s.nodes[n], x, false))
  {
    OrderedGraph(s, c, g);
    OrderedNode(s, c, n);
    assert PointsAt(s.nodes, n, g[n]);
    match FindSuccessor(s.nodes[n], x, false)
    case Answer(a) =>
      if x != n {
        FirstInRingGap(g, c, n, x);
      }
    case Forward(to) => RingSuccessor(g, c, n);
  }

  /** In a network that stands still, in any state a failure-free run can reach. */
  lemma {:induction false} RingLookupIsRight(s: Net, c: Id, g: Graph, n: Id, x: Id)
    requires Ordered(s, c) && Shows(s.nodes, g) && Path(g, c, n)
    ensures Lookup.Sound(s.nodes) && n in s.nodes && FirstOnRing(g, c, x, Lookup.Follow(s.nodes, false, n, x).answer)
    decreases Dist(n, x)
  {
    OrderedIsSound(s, c);
    RingNodeServes(s, c, g, n, x);
    Lookup.ForwardStaysInside(s.nodes, false, n, x);
    match FindSuccessor(s.nodes[n], x, false)
    case Answer(a) =>
    case Forward(to) => RingLookupIsRight(s, c, g, to, x);
  }

  /** Of other ids than its own a node, on the ring or off it, serves every lookup rightly exactly when
      its successor is the ring node that comes next after it. */
  lemma WhoServesOthersRightly(s: Net, c: Id, g: Graph, n: Id)
    requires Ordered(s, c) && Shows(s.nodes, g) && n in s.nodes
    ensures Up(s, n)
    ensures (forall x :: x != n ==> RightlyServed(g, c, x, FindSuccessor(s.nodes[n], x, false))) <==>
            FirstOnRing(g, c, Plus(n, 1), First(s.nodes[n]))
  {
    OrderedNode(s, c, n);
    var first := First(s.nodes[n]);
    if FirstOnRing(g, c, Plus(n, 1), first) {
      forall x | x != n ensures RightlyServed(g, c, x, FindSuccessor(s.nodes[n], x, false)) {
        if FindSuccessor(s.nodes[n], x, false).Answer? {
          NextServesGap(g, c, n, first, x);
        }
      }
    } else {
      NextIdIsAnsweredHere(s.nodes[n], false);
      assert !RightlyServed(g, c, Plus(n, 1), FindSuccessor(s.nodes[n], Plus(n, 1), false));
    }
  }

  lemma NextServesGap(g: Graph, c: Id, n: Id, first: Id, x: Id)
    requires FirstOnRing(g, c, Plus(n, 1), first) && x != n && (InRange(x, n, first) || n == first)
    ensures FirstOnRing(g, c, x, first)
  {
    forall m {:trigger Path(g, c, m)} | Path(g, c, m) ensures Dist(x, first) <= Dist(x, m) {
      assert Dist(Plus(n, 1), first) <= Dist(Plus(n, 1), m);
    }
  }

  /** Its own id it answers with itself, so all ids are served rightly exactly by the ring nodes. */
  lemma WhoServesRightly(s: Net, c: Id, g: Graph, n: Id)
    requires Ordered(s, c) && Shows(s.nodes, g) && n in s.nodes
    ensures Up(s, n)
    ensures (forall x :: RightlyServed(g, c, x, FindSuccessor(s.nodes[n], x, false))) <==> Path(g, c, n)
  {
    OrderedNode(s, c, n);
    if Path(g, c, n) {
      forall x ensures RightlyServed(g, c, x, FindSuccessor(s.nodes[n], x, false)) {
        RingNodeServes(s, c, g, n, x);
      }
    } else {
      assert FindSuccessor(s.nodes[n], n, false) == Answer(n);
      assert !RightlyServed(g, c, n, Answer(n));
    }
  }

  // ---------------------------------------------------------------- while the network changes

  /** Whoever a join lookup or its answer is for is still joining or has joined. */
  ghost predicate Announced(s: Net, m: Msg) {
    (m.LookupAt? || m.Found?) && m.why.ForJoin? ==> m.why.who in s.joining || m.why.who in s.nodes
  }

  ghost predicate AllAnnounced(s: Net) {
    forall m {:trigger Announced(s, m)} :: m in s.msgs ==> Announced(s, m)
  }

  lemma RelaySendsTheSame(s: Net, r: Msg, m: Msg)
    requires Enabled(s, Relay(r)) && m in Apply(s, Relay(r)).msgs && (m.LookupAt? || m.Found?)
    ensures m in s.msgs || m.why == r.why
    ensures m.LookupAt? ==>
              m in s.msgs || FindSuccessor(s.nodes[r.at], r.target, s.useFingers) == Forward(m.at)
  {
  }

  lemma OtherStepsSendNoJoinLookup(s: Net, step: Step, m: Msg)
    requires Enabled(s, step) && !step.Relay?
    requires m in Apply(s, step).msgs && (m.LookupAt? || m.Found?) && m.why.ForJoin?
    ensures m in s.msgs || (step.StartJoin? && m.why.who == step.j)
  {
    if step.DeliverFound? {
      FoundSendsNoJoinLookup(s, step.m, m);
    }
  }

  lemma FoundSendsNoJoinLookup(s: Net, r: Msg, m: Msg)
    requires Enabled(s, DeliverFound(r)) && m in Apply(s, DeliverFound(r)).msgs
    requires (m.LookupAt? || m.Found?) && m.why.ForJoin?
    ensures m in s.msgs
  {
  }

  /** Nobody who is joining or has joined is forgotten. */
  lemma StaysKnown(s: Net, step: Step, j: Id)
    requires Enabled(s, step) && !step.Fail? && (j in s.joining || j in s.nodes)
    ensures j in Apply(s, step).joining || j in Apply(s, step).nodes
  {
    if step.DeliverFound? {
      FoundStaysKnown(s, step.m, j);
    }
  }

  lemma FoundStaysKnown(s: Net, m: Msg, j: Id)
    requires Enabled(s, DeliverFound(m)) && (j in s.joining || j in s.nodes)
    ensures j in Apply(s, DeliverFound(m)).joining || j in Apply(s, DeliverFound(m)).nodes
  {
  }

  lemma AnnouncedStep(s: Net, step: Step, m: Msg)
    requires AllAnnounced(s) && Enabled(s, step) && !step.Fail? && m in Apply(s, step).msgs
    ensures Announced(Apply(s, step), m)
  {
    if (m.LookupAt? || m.Found?) && m.why.ForJoin? {
      if step.Relay? {
        RelaySendsTheSame(s, step.m, m);
        assert Announced(s, step.m);
      } else {
        OtherStepsSendNoJoinLookup(s, step, m);
      }
      assert m in s.msgs ==> Announced(s, m);
      if !(step.StartJoin? && m.why.who == step.j) {
        StaysKnown(s, step, m.why.who);
      }
    }
  }

  lemma {:induction false} AnnouncedRun(s: Net, steps: seq<Step>)
    requires AllAnnounced(s) && CanRun(s, steps) && NoFailure(steps)
    ensures AllAnnounced(Run(s, steps))
    decreases |steps|
  {
    if steps != [] {
      var s1 := Apply(s, steps[0]);
      forall m {:trigger Announced(s1, m)} | m in s1.msgs ensures Announced(s1, m) {
        AnnouncedStep(s, steps[0], m);
      }
      AnnouncedRun(s1, steps[1..]);
    }
  }

  /** The lookup j makes in order to join is at a ring node. */
  ghost predicate AtRingNode(s: Net, c: Id, j: Id) {
    forall m :: m in s.msgs && m.LookupAt? && m.why == ForJoin(j) ==> Permanence.OnRingIn(s.nodes, c, m.at)
  }

  lemma StaysAtRingNode(s: Net, c: Id, step: Step, j: Id, m: Msg)
    requires Ordered(s, c) && !s.useFingers && j in s.joining && AtRingNode(s, c, j)
    requires Enabled(s, step) && m in Apply(s, step).msgs && m.LookupAt? && m.why == ForJoin(j)
    ensures Permanence.OnRingIn(s.nodes, c, m.at)
  {
    if step.Relay? {
      RelaySendsTheSame(s, step.m, m);
      if m !in s.msgs {
        ShownGraph(s, c);
        RingNodeServes(s, c, SuccGraph(s.nodes), step.m.at, step.m.target);
      }
    } else {
      OtherStepsSendNoJoinLookup(s, step, m);
    }
  }

  lemma AtRingNodeStep(s: Net, c: Id, step: Step, j: Id)
    requires Ordered(s, c) && !s.useFingers && j in s.joining && AtRingNode(s, c, j)
    requires Enabled(s, step) && !step.Fail? && RingLoss.Harmless(s, c, step)
    ensures AtRingNode(Apply(s, step), c, j)
  {
    var s1 := Apply(s, step);
    RingLoss.StepLosesNobody(s, c, step);
    forall m | m in s1.msgs && m.LookupAt? && m.why == ForJoin(j) ensures Permanence.OnRingIn(s1.nodes, c, m.at) {
      StaysAtRingNode(s, c, step, j, m);
    }
  }

  /** j is still waiting for its answer, all along the run. */
  ghost predicate Waiting(s: Net, steps: seq<Step>, j: Id)
    requires CanRun(s, steps)
    decreases |steps|
  {
    j in s.joining && (steps == [] || Waiting(Apply(s, steps[0]), steps[1..], j))
  }

  lemma {:induction false} AtRingNodeRun(s: Net, c: Id, steps: seq<Step>, j: Id)
    requires Ordered(s, c) && !s.useFingers && AtRingNode(s, c, j)
    requires CanRun(s, steps) && NoFailure(steps) && RingLoss.HarmlessRun(s, c, steps) && Waiting(s, steps, j)
    ensures Ordered(Run(s, steps), c) && AtRingNode(Run(s, steps), c, j) && !Run(s, steps).useFingers
    decreases |steps|
  {
    if steps != [] {
      OrderedStep(s, c, steps[0]);
      AtRingNodeStep(s, c, steps[0], j);
      AtRingNodeRun(Apply(s, steps[0]), c, steps[1..], j);
    }
  }

  lemma JoinStartsAtRingNode(s: Net, c: Id, j: Id, via: Id)
    requires AllAnnounced(s) && Permanence.OnRingIn(s.nodes, c, via) && Enabled(s, StartJoin(j, via))
    ensures AtRingNode(Apply(s, StartJoin(j, via)), c, j)
  {
    var s1 := Apply(s, StartJoin(j, via));
    forall m | m in s1.msgs && m.LookupAt? && m.why == ForJoin(j) ensures Permanence.OnRingIn(s1.nodes, c, m.at) {
      assert m in s.msgs ==> Announced(s, m);
    }
  }

  lemma WaitingLookupIsRight(s: Net, c: Id, j: Id, m: Msg)
    requires Ordered(s, c) && AtRingNode(s, c, j)
    requires Enabled(s, Relay(m)) && m.why == ForJoin(j)
    ensures m.target == j
    ensures RightlyServed(SuccGraph(s.nodes), c, j, FindSuccessor(s.nodes[m.at], j, false))
  {
    assert GoodMsg(s.nodes.Keys, c, m);
    ShownGraph(s, c);
    RingNodeServes(s, c, SuccGraph(s.nodes), m.at, j);
  }

  /** After any failure-free run (before), j starts to join at a ring node. Whatever else happens while
      its lookup travels (after), as long as nobody is lost from the ring meanwhile: whoever is asked
      passes the lookup on to a ring node or answers with the first ring node at or after j, on the
      ring as it is at that moment. */
  lemma JoinLookupIsRight(c: Id, before: seq<Step>, s: Net, j: Id, via: Id, after: seq<Step>, s2: Net, m: Msg)
    requires CanRun(Init(c, false), before) && NoFailure(before) && s == Run(Init(c, false), before)
    requires Permanence.OnRingIn(s.nodes, c, via) && Enabled(s, StartJoin(j, via))
    requires var s1 := Apply(s, StartJoin(j, via));
             && CanRun(s1, after) && NoFailure(after) && RingLoss.HarmlessRun(s1, c, after) && Waiting(s1, after, j)
             && s2 == Run(s1, after)
    requires Enabled(s2, Relay(m)) && m.why == ForJoin(j)
    ensures m.target == j && Shows(s2.nodes, SuccGraph(s2.nodes))
    ensures RightlyServed(SuccGraph(s2.nodes), c, j, FindSuccessor(s2.nodes[m.at], j, false))
  {
    InitOrdered(c, false);
    OrderedRun(Init(c, false), c, before);
    AnnouncedRun(Init(c, false), before);
    NoFingersRun(Init(c, false), before);
    OrderedStep(s, c, StartJoin(j, via));
    JoinStartsAtRingNode(s, c, j, via);
    AtRingNodeRun(Apply(s, StartJoin(j, via)), c, after, j);
    WaitingLookupIsRight(s2, c, j, m);
    ShownGraph(s2, c);
  }

  /** The build does not change during a run. */
  lemma {:induction false} NoFingersRun(s: Net, steps: seq<Step>)
    requires CanRun(s, steps)
    ensures Run(s, steps).useFingers == s.useFingers
    decreases |steps|
  {
    if steps != [] {
      NoFingersRun(Apply(s, steps[0]), steps[1..]);
    }
  }
}
