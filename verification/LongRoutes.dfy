/** The longest lookups: ideal rings with correct fingers on which the bounds of Hops are met, 32 forwards
    without a node of id 0 and 62 with one. Members lie at distances 2^j - 1 before a node p, like the
    rungs of a ladder, so that every finger but one overshoots. A ladder that ends 2^30 before node 0
    cannot be left but by way of node 0, because every finger across the gap names it. */
module LongRoutes {
  import opened Ids
  import opened LocalNode
  import opened Network
  import opened Lookup
  import IdealRing
  import Hops

  ghost predicate Perfect(nodes: Nodes) {
    Sound(nodes) && IdealRing.Ideal(nodes) && Hops.AllFingersRight(nodes)
  }

  // ---------------------------------------------------------------- ladders

  /** The id 2^j - 1 before p. */
  function Rung(p: Id, j: nat): (n: Id)
    requires Pow2(j) - 1 <= p
    ensures n == p + 1 - Pow2(j)
  {
    p + 1 - Pow2(j)
  }

  lemma ScanStopsAt(node: Node, x: Id, k: nat)
    requires 1 <= k < ID_BITS && Qualifies(node, x, k)
    requires forall i: nat :: k < i < ID_BITS ==> !Qualifies(node, x, i)
    ensures ClosestFinger(node, x, ID_BITS - 1) == node.fingers[k]
  {
    var i := ClosestFingerIsHighest(node, x, ID_BITS - 1);
  }

  /** A correct finger whose target is a member names it. */
  lemma FingerNamesTarget(members: set<Id>, node: Node, i: nat)
    requires 1 <= i < ID_BITS && IdealRing.FingerRight(members, node, i)
    requires FingerTarget(node.id, i) in members && FingerTarget(node.id, i) != node.id
    ensures node.fingers[i] == Some(FingerTarget(node.id, i))
  {
    var t := FingerTarget(node.id, i);
    var f := if node.fingers[i].Some? then node.fingers[i].value else node.id;
    assert Dist(t, f) <= Dist(t, t);
  }

  /** A node whose highest finger of use is the h-th, naming its target, forwards there. */
  lemma ForwardsToTarget(nodes: Nodes, n: Id, x: Id, h: nat, to: Id)
    requires Perfect(nodes) && n in nodes && to in nodes
    requires 1 <= h < ID_BITS && to == FingerTarget(n, h) && to != 0 && 0 < Dist(n, to) < Dist(n, x)
    requires forall i: nat :: h < i < ID_BITS ==> !Qualifies(nodes[n], x, i)
    ensures Connected(nodes[n]) && FindSuccessor(nodes[n], x, true) == Forward(to)
  {
    var node := nodes[n];
    assert SoundNode(nodes.Keys, n, node) && IdealRing.IdealNode(nodes.Keys, n, node);
    assert IdealRing.FingersRight(nodes.Keys, node);
    assert IdealRing.FingerRight(nodes.Keys, node, h);
    FingerNamesTarget(nodes.Keys, node, h);
    ScanStopsAt(node, x, h);
    assert Arc(n, First(node)) <= Arc(n, to);
  }

  /** From a rung to the next one down is the reach of one finger. */
  lemma NextRung(p: Id, j: nat)
    requires 1 <= j <= 31 && Pow2(j) - 1 <= p
    ensures Pow2(j - 1) - 1 <= p && FingerTarget(Rung(p, j), j) == Rung(p, j - 1)
    ensures Dist(Rung(p, j), Rung(p, j - 1)) == Pow2(j - 1) < RING
  {
    assert Pow2(j) == 2 * Pow2(j - 1);
    Pow2Of32();
    Pow2Grows(j, 31);
  }

  /** A finger above the j-th leads beyond p + 1, which is no member. */
  lemma RungOvershoots(nodes: Nodes, p: Id, j: nat, i: nat)
    requires Perfect(nodes) && Pow2(j) - 1 <= p < RING - 1 && Rung(p, j) in nodes && Plus(p, 1) !in nodes
    requires j < i < ID_BITS
    ensures !Qualifies(nodes[Rung(p, j)], Plus(p, 1), i)
  {
    var n, node := Rung(p, j), nodes[Rung(p, j)];
    assert SoundNode(nodes.Keys, n, node) && IdealRing.FingersRight(nodes.Keys, node);
    assert IdealRing.FingerRight(nodes.Keys, node, i);
    Pow2Of32();
    Pow2Grows(i - 1, 30);
    Pow2Grows(j, i - 1);
    Hops.FingerLandsBeyondTarget(nodes.Keys, node, i, n);
  }

  /** One forward more from each rung. */
  lemma RungForwards(nodes: Nodes, p: Id, j: nat)
    requires Perfect(nodes) && 1 <= j <= 31 && Pow2(j) - 1 <= p < RING - 1
    requires OnRung(nodes, p, j) && OnRung(nodes, p, j - 1) && Rung(p, j - 1) != 0 && Plus(p, 1) !in nodes
    ensures Follow(nodes, true, Rung(p, j), Plus(p, 1)).forwards
         == Follow(nodes, true, Rung(p, j - 1), Plus(p, 1)).forwards + 1
  {
    NextRung(p, j);
    forall i: nat | j < i < ID_BITS ensures !Qualifies(nodes[Rung(p, j)], Plus(p, 1), i) {
      RungOvershoots(nodes, p, j, i);
    }
    assert Pow2(j) == 2 * Pow2(j - 1);
    ForwardsToTarget(nodes, Rung(p, j), Plus(p, 1), j, Rung(p, j - 1));
    RouteViaRelay(nodes, true, Rung(p, j), Rung(p, j - 1), Plus(p, 1));
  }

  ghost predicate OnRung(nodes: Nodes, p: Id, j: nat) {
    Pow2(j) - 1 <= p && Rung(p, j) in nodes
  }

  /** The last member before the wanted id answers. */
  lemma LastAnswers(nodes: Nodes, p: Id)
    requires Perfect(nodes) && p < RING - 1 && OnRung(nodes, p, 0)
    ensures Follow(nodes, true, Rung(p, 0), Plus(p, 1)).forwards == 0
  {
    assert SoundNode(nodes.Keys, p, nodes[p]);
    assert FindSuccessor(nodes[p], Plus(p, 1), true).Answer?;
  }

  /** A whole ladder: j forwards down from the j-th rung. */
  lemma {:induction false} LadderRoute(nodes: Nodes, p: Id, j: nat)
    requires Perfect(nodes) && j <= 31 && p < RING - 1 && Plus(p, 1) !in nodes
    requires forall i: nat {:trigger OnRung(nodes, p, i)} :: i <= j ==> OnRung(nodes, p, i)
    requires forall i: nat {:trigger Pow2(i)} :: i < j ==> p + 1 != Pow2(i)
    ensures OnRung(nodes, p, j) && Follow(nodes, true, Rung(p, j), Plus(p, 1)).forwards == j
    decreases j
  {
    assert OnRung(nodes, p, j);
    if j == 0 {
      LastAnswers(nodes, p);
    } else {
      assert OnRung(nodes, p, j - 1);
      LadderRoute(nodes, p, j - 1);
      RungForwards(nodes, p, j);
    }
  }

  // ---------------------------------------------------------------- without a node of id 0

  const LAST: Id := 0xC000_0000

  /** A ladder of 32 rungs before LAST, and node 1 a finger's reach before the highest. */
  ghost predicate OneLadder(nodes: Nodes) {
    && Perfect(nodes) && 1 in nodes && 0 !in nodes && Plus(LAST, 1) !in nodes
    && forall i: nat {:trigger OnRung(nodes, LAST, i)} :: i <= 31 ==> OnRung(nodes, LAST, i)
  }

  lemma NotPowerOfTwo(i: nat)
    requires i <= 31
    ensures LAST + 1 != Pow2(i) && Pow2(i) - 1 <= LAST
  {
    Pow2Of32();
    if i <= 30 {
      Pow2Grows(i, 30);
    }
  }

  /** The bound of 32 is met. */
  lemma Takes32(nodes: Nodes)
    requires OneLadder(nodes)
    ensures Follow(nodes, true, 1, Plus(LAST, 1)).forwards == 32
  {
    forall i: nat {:trigger Pow2(i)} | i < 31 ensures LAST + 1 != Pow2(i) {
      NotPowerOfTwo(i);
    }
    LadderRoute(nodes, LAST, 31);
    Pow2Of32();
    assert OnRung(nodes, LAST, 31);
    ForwardsToTarget(nodes, 1, Plus(LAST, 1), 31, Rung(LAST, 31));
    RouteViaRelay(nodes, true, 1, Rung(LAST, 31), Plus(LAST, 1));
  }

  // ---------------------------------------------------------------- with a node of id 0

  /** The last member before the wanted id 2^top; its highest rung is node 0. */
  function Foot(top: nat): (p: Id)
    requires top <= 30
    ensures p == Pow2(top) - 1 && p < Pow2(30)
  {
    Pow2Of32();
    Pow2Grows(top, 30);
    Pow2(top) - 1
  }

  /** A ladder of k rungs before LAST, nobody between LAST and node 0, and one from node 0 to Foot(top). */
  ghost predicate TwoLadders(nodes: Nodes, k: nat, top: nat) {
    && k <= 31 && top <= 30 && Perfect(nodes)
    && (forall m {:trigger m in nodes} :: m in nodes ==> m <= Foot(top) || Pow2(30) < m <= LAST)
    && (forall i: nat {:trigger OnRung(nodes, LAST, i)} :: i <= k ==> OnRung(nodes, LAST, i))
    && (forall i: nat {:trigger OnRung(nodes, Foot(top), i)} :: i <= top ==> OnRung(nodes, Foot(top), i))
  }

  lemma ZeroIsHighestRung(nodes: Nodes, k: nat, top: nat)
    requires TwoLadders(nodes, k, top)
    ensures 0 in nodes && Rung(Foot(top), top) == 0 && Plus(Foot(top), 1) !in nodes
  {
    assert OnRung(nodes, Foot(top), top);
    Pow2Of32();
    Pow2Grows(top, 30);
  }

  /** Whatever a finger of the h-th rung finds beyond LAST is node 0. */
  lemma HighOvershoots(nodes: Nodes, k: nat, top: nat, h: nat, i: nat)
    requires TwoLadders(nodes, k, top) && h <= k && h < i < ID_BITS && OnRung(nodes, LAST, h)
    ensures !Qualifies(nodes[Rung(LAST, h)], Plus(Foot(top), 1), i)
  {
    var n, node := Rung(LAST, h), nodes[Rung(LAST, h)];
    assert SoundNode(nodes.Keys, n, node) && IdealRing.FingersRight(nodes.Keys, node);
    assert IdealRing.FingerRight(nodes.Keys, node, i);
    Pow2Of32();
    Pow2Grows(i - 1, 30);
    Pow2Grows(h, i - 1);
    ZeroIsHighestRung(nodes, k, top);
    Hops.FingerLandsBeyondTarget(nodes.Keys, node, i, 0);
    if node.fingers[i].Some? {
      assert node.fingers[i].value in nodes;
    }
  }

  lemma HighRungIsFar(top: nat, h: nat)
    requires top <= 30 && 1 <= h <= 31
    ensures Pow2(h) - 1 <= LAST && Dist(Rung(LAST, h), Plus(Foot(top), 1)) > Pow2(h - 1)
  {
    Pow2Of32();
    Pow2Grows(h, 31);
    assert Pow2(h) == 2 * Pow2(h - 1);
  }

  lemma HighForwards(nodes: Nodes, k: nat, top: nat, h: nat)
    requires TwoLadders(nodes, k, top) && 1 <= h <= k
    ensures OnRung(nodes, LAST, h) && OnRung(nodes, LAST, h - 1)
    ensures Follow(nodes, true, Rung(LAST, h), Plus(Foot(top), 1)).forwards
         == Follow(nodes, true, Rung(LAST, h - 1), Plus(Foot(top), 1)).forwards + 1
  {
    assert OnRung(nodes, LAST, h) && OnRung(nodes, LAST, h - 1);
    NextRung(LAST, h);
    NotPowerOfTwo(h - 1);
    HighRungIsFar(top, h);
    forall i: nat | h < i < ID_BITS ensures !Qualifies(nodes[Rung(LAST, h)], Plus(Foot(top), 1), i) {
      HighOvershoots(nodes, k, top, h, i);
    }
    ForwardsToTarget(nodes, Rung(LAST, h), Plus(Foot(top), 1), h, Rung(LAST, h - 1));
    RouteViaRelay(nodes, true, Rung(LAST, h), Rung(LAST, h - 1), Plus(Foot(top), 1));
  }

  lemma NoFingerFromLast(nodes: Nodes, k: nat, top: nat)
    requires TwoLadders(nodes, k, top) && OnRung(nodes, LAST, 0)
    ensures ClosestFinger(nodes[LAST], Plus(Foot(top), 1), ID_BITS - 1) == None
  {
    var i := ClosestFingerIsHighest(nodes[LAST], Plus(Foot(top), 1), ID_BITS - 1);
    if i > 0 {
      HighOvershoots(nodes, k, top, 0, i);
    }
  }

  /** At LAST no finger is of use, and the lookup goes to the successor, node 0. */
  lemma LastForwards(nodes: Nodes, k: nat, top: nat)
    requires TwoLadders(nodes, k, top)
    ensures OnRung(nodes, LAST, 0) && 0 in nodes
    ensures Follow(nodes, true, LAST, Plus(Foot(top), 1)).forwards
         == Follow(nodes, true, 0, Plus(Foot(top), 1)).forwards + 1
  {
    assert OnRung(nodes, LAST, 0);
    ZeroIsHighestRung(nodes, k, top);
    var node := nodes[LAST];
    assert SoundNode(nodes.Keys, LAST, node) && IdealRing.IdealNode(nodes.Keys, LAST, node);
    assert Arc(LAST, First(node)) <= Arc(LAST, 0);
    assert First(node) in nodes;
    Pow2Of32();
    NoFingerFromLast(nodes, k, top);
    RouteViaRelay(nodes, true, LAST, 0, Plus(Foot(top), 1));
  }

  /** The way down from node 0. */
  lemma FromZero(nodes: Nodes, k: nat, top: nat)
    requires TwoLadders(nodes, k, top)
    ensures 0 in nodes && Follow(nodes, true, 0, Plus(Foot(top), 1)).forwards == top
  {
    ZeroIsHighestRung(nodes, k, top);
    forall i: nat {:trigger Pow2(i)} | i < top ensures Foot(top) + 1 != Pow2(i) {
      Pow2Grows(i, top - 1);
    }
    LadderRoute(nodes, Foot(top), top);
  }

  /** The i-th high rung needs one forward more than the one below it. */
  ghost predicate OneMore(nodes: Nodes, x: Id, i: nat)
    requires Sound(nodes) && i >= 1
  {
    && OnRung(nodes, LAST, i) && OnRung(nodes, LAST, i - 1)
    && Follow(nodes, true, Rung(LAST, i), x).forwards == Follow(nodes, true, Rung(LAST, i - 1), x).forwards + 1
  }

  lemma {:induction false} HighRoute(nodes: Nodes, x: Id, h: nat, f: nat)
    requires Sound(nodes)
    requires forall i: nat {:trigger OneMore(nodes, x, i)} :: 1 <= i <= h ==> OneMore(nodes, x, i)
    requires OnRung(nodes, LAST, 0) && Follow(nodes, true, LAST, x).forwards == f
    ensures OnRung(nodes, LAST, h) && Follow(nodes, true, Rung(LAST, h), x).forwards == h + f
    decreases h
  {
    if h > 0 {
      assert OneMore(nodes, x, h);
      HighRoute(nodes, x, h - 1, f);
    }
  }

  /** From the k-th rung down to LAST, across to node 0, and down to the wanted id: up to 62 forwards. */
  lemma TakesLonger(nodes: Nodes, k: nat, top: nat)
    requires TwoLadders(nodes, k, top)
    ensures OnRung(nodes, LAST, k)
    ensures Follow(nodes, true, Rung(LAST, k), Plus(Foot(top), 1)).forwards == k + 1 + top
  {
    var x := Plus(Foot(top), 1);
    LastForwards(nodes, k, top);
    FromZero(nodes, k, top);
    forall i: nat {:trigger OneMore(nodes, x, i)} | 1 <= i <= k ensures OneMore(nodes, x, i) {
      HighForwards(nodes, k, top, i);
    }
    HighRoute(nodes, x, k, 1 + top);
  }
}
