/** How far lookups travel on an ideal ring with correct fingers. There is no finger for 2^31 and an
    entry naming id 0 is skipped: the bound is 32 forwards without a node of id 0, and 62 with one. */
module Hops {
  import opened Ids
  import opened LocalNode
  import Members
  import opened Network
  import opened Lookup
  import opened IdealRing

  ghost predicate AllFingersRight(nodes: Nodes) {
    forall n {:trigger FingersRight(nodes.Keys, nodes[n])} :: n in nodes ==> FingersRight(nodes.Keys, nodes[n])
  }

  /** A member closer than this is met or passed within k forwards: 2^(k+1) - 1, and past 2^31 two
      steps of 2^30 more. */
  function Reach(k: nat): nat
    requires k <= 32
  {
    if k <= 30 then 2 * Pow2(k) - 1 else if k == 31 then 0xC000_0000 - 1 else RING - 1
  }

  /** How many forwards a distance needs at most: the least k that reaches it. */
  function Needed(d: nat): (k: nat)
    requires d < RING - 1
    ensures k <= 32 && d < Reach(k)
    ensures k > 0 ==> Reach(k - 1) <= d
  {
    NeededUpTo(d, 32)
  }

  function NeededUpTo(d: nat, i: nat): (k: nat)
    requires i <= 32 && d < Reach(i)
    ensures k <= 32 && d < Reach(k)
    ensures k > 0 ==> Reach(k - 1) <= d
    decreases i
  {
    if i == 0 || Reach(i - 1) <= d then i else NeededUpTo(d, i - 1)
  }

  /** The highest finger whose target is not past a distance that needs k forwards. */
  function CrossingFinger(k: nat, d: nat): (h: nat)
    requires 1 <= k <= 32
    ensures 1 <= h < ID_BITS
  {
    if k >= 31 then 31 else if d < Pow2(k) then k else k + 1
  }

  /** What it leaves is within reach of k - 1. */
  lemma CrossingLeavesLess(k: nat, d: nat)
    requires 1 <= k <= 32 && Reach(k - 1) <= d < Reach(k)
    ensures Pow2(CrossingFinger(k, d) - 1) <= d < Reach(k - 1) + Pow2(CrossingFinger(k, d) - 1)
    ensures Pow2(CrossingFinger(k, d) - 1) <= Pow2(30) < RING
  {
    Pow2Of32();
    Pow2Grows(CrossingFinger(k, d) - 1, 30);
    assert Pow2(k) == 2 * Pow2(k - 1);
  }

  /** A correct finger is at least as far away as its target, and no further than any member beyond that. */
  lemma FingerLandsBeyondTarget(members: set<Id>, node: Node, i: nat, p: Id)
    requires 1 <= i < ID_BITS && FingerRight(members, node, i) && node.id in members && p in members
    requires Pow2(i - 1) < RING
    ensures node.fingers[i].Some? ==> Dist(node.id, node.fingers[i].value) >= Pow2(i - 1)
    ensures Dist(node.id, p) >= Pow2(i - 1) ==>
              node.fingers[i].Some? && 0 < Dist(node.id, node.fingers[i].value) <= Dist(node.id, p)
  {
    var t := FingerTarget(node.id, i);
    assert t == Plus(node.id, Pow2(i - 1));
    assert Dist(t, node.id) == RING - Pow2(i - 1);
    assert Dist(node.id, p) >= Pow2(i - 1) ==> Dist(t, p) == Dist(node.id, p) - Pow2(i - 1);
  }

  /** No member with id 0 lies after n and up to p. */
  predicate NoZeroUpTo(members: set<Id>, n: Id, p: Id) {
    0 in members ==> n == 0 || Dist(n, 0) > Dist(n, p)
  }

  /** The scan from finger 31 down stops no later than at a finger h whose target is not past p, and
      so lands at least 2^(h-1) ahead. */
  lemma ScanCrosses(members: set<Id>, node: Node, x: Id, p: Id, h: nat)
    requires FingersRight(members, node) && node.id in members && p in members
    requires 1 <= h < ID_BITS && Pow2(h - 1) <= Dist(node.id, p) < Dist(node.id, x)
    requires NoZeroUpTo(members, node.id, p)
    ensures var f := ClosestFinger(node, x, ID_BITS - 1);
            f.Some? && Pow2(h - 1) <= Dist(node.id, f.value) <= Dist(node.id, x)
  {
    Pow2Of32();
    Pow2Grows(h - 1, 30);
    assert FingerRight(members, node, h);
    FingerLandsBeyondTarget(members, node, h, p);
    assert Qualifies(node, x, h);
    var i := ClosestFingerIsHighest(node, x, ID_BITS - 1);
    assert FingerRight(members, node, i);
    Pow2Grows(h - 1, i - 1);
    Pow2Grows(i - 1, 30);
    FingerLandsBeyondTarget(members, node, i, p);
  }

  /** With a member p at least 2^(h-1) ahead, one forward crosses as much. */
  lemma CrossingForward(nodes: Nodes, n: Id, x: Id, p: Id, h: nat)
    requires Sound(nodes) && Ideal(nodes) && AllFingersRight(nodes)
    requires n in nodes && p in nodes && 1 <= h < ID_BITS && Pow2(h - 1) <= Dist(n, p) < Dist(n, x)
    requires NoZeroUpTo(nodes.Keys, n, p)
    ensures Connected(nodes[n]) && FindSuccessor(nodes[n], x, true).Forward?
    ensures Pow2(h - 1) <= Dist(n, FindSuccessor(nodes[n], x, true).to) <= Dist(n, x)
  {
    var node := nodes[n];
    assert SoundNode(nodes.Keys, n, node) && IdealNode(nodes.Keys, n, node) && FingersRight(nodes.Keys, node);
    ScanCrosses(nodes.Keys, node, x, p, h);
    assert Arc(n, First(node)) <= Arc(n, p);
  }

  /** Every member from p on, up to x, needs at most b forwards. */
  ghost predicate FewFromThere(nodes: Nodes, n: Id, p: Id, x: Id, b: nat)
    requires Sound(nodes)
  {
    forall q {:trigger Follow(nodes, true, q, x)} ::
      q in nodes && Dist(n, p) <= Dist(n, q) <= Dist(n, x) ==> Follow(nodes, true, q, x).forwards <= b
  }

  lemma FewFromCloser(nodes: Nodes, n: Id, to: Id, p: Id, x: Id, b: nat)
    requires Sound(nodes) && FewFromThere(nodes, n, p, x, b)
    requires Dist(n, to) <= Dist(n, p) < Dist(n, x)
    ensures FewFromThere(nodes, to, p, x, b)
  {
    forall q | q in nodes && Dist(to, p) <= Dist(to, q) <= Dist(to, x)
      ensures Follow(nodes, true, q, x).forwards <= b {
      assert Dist(n, p) <= Dist(n, q) <= Dist(n, x);
    }
  }

  lemma CrossedLess(n: Id, to: Id, p: Id, crossed: nat, reach: nat)
    requires crossed <= Dist(n, to) && Dist(n, p) < reach + crossed
    ensures Dist(n, to) < Dist(n, p) ==> Dist(to, p) < reach
  {
  }

  /** One forward from a node that is out of reach of k - 1: past p, or so much closer to it. */
  lemma ForwardAcross(nodes: Nodes, n: Id, x: Id, p: Id, k: nat) returns (to: Id)
    requires Sound(nodes) && Ideal(nodes) && AllFingersRight(nodes)
    requires n in nodes && p in nodes && 1 <= k <= 32
    requires Dist(n, p) < Dist(n, x) && Reach(k - 1) <= Dist(n, p) < Reach(k)
    requires NoZeroUpTo(nodes.Keys, n, p)
    ensures to in nodes && Dist(n, to) <= Dist(n, x)
    ensures Follow(nodes, true, n, x).forwards == 1 + Follow(nodes, true, to, x).forwards
    ensures Dist(n, to) < Dist(n, p) ==> Dist(to, p) < Reach(k - 1)
  {
    var h := CrossingFinger(k, Dist(n, p));
    CrossingLeavesLess(k, Dist(n, p));
    CrossingForward(nodes, n, x, p, h);
    ForwardStaysInside(nodes, true, n, x);
    to := FindSuccessor(nodes[n], x, true).to;
    RouteViaRelay(nodes, true, n, to, x);
    CrossedLess(n, to, p, Pow2(h - 1), Reach(k - 1));
  }

  /** A member p before x, with no member 0 on the way there, is met or passed within k forwards. */
  lemma {:induction false} FewForwardsTo(nodes: Nodes, n: Id, x: Id, p: Id, k: nat, b: nat)
    requires Sound(nodes) && Ideal(nodes) && AllFingersRight(nodes)
    requires n in nodes && p in nodes && k <= 32
    requires Dist(n, p) < Dist(n, x) && Dist(n, p) < Reach(k)
    requires NoZeroUpTo(nodes.Keys, n, p) && FewFromThere(nodes, n, p, x, b)
    ensures Follow(nodes, true, n, x).forwards <= k + b
    decreases k
  {
    if k == 0 {
      assert n == p;
    } else if Dist(n, p) < Reach(k - 1) {
      FewForwardsTo(nodes, n, x, p, k - 1, b);
    } else {
      var to := ForwardAcross(nodes, n, x, p, k);
      if Dist(n, to) < Dist(n, p) {
        FewFromCloser(nodes, n, to, p, x, b);
        FewForwardsTo(nodes, to, x, p, k - 1, b);
      }
    }
  }

  /** The last member strictly before x. */
  ghost predicate IsLastBefore(members: set<Id>, x: Id, p: Id) {
    p in members && forall m :: m in members ==> Arc(p, x) <= Arc(m, x)
  }

  lemma LastBefore(nodes: Nodes, n: Id, x: Id) returns (p: Id)
    requires Sound(nodes) && Ideal(nodes) && n in nodes
    ensures IsLastBefore(nodes.Keys, x, p)
  {
    var s := Follow(nodes, true, n, x).answer;
    LookupIsRight(nodes, true, n, x);
    assert IdealNode(nodes.Keys, s, nodes[s]);
    p := nodes[s].pred.value;
    forall m | m in nodes ensures Arc(p, x) <= Arc(m, x) {
      assert Arc(p, s) <= Arc(m, s) && Dist(x, s) <= Dist(x, m) && Dist(x, s) <= Dist(x, p);
    }
  }

  /** The last member before x, and x itself, answer at once. */
  lemma AnsweredAtOnce(nodes: Nodes, x: Id, p: Id, q: Id)
    requires Sound(nodes) && Ideal(nodes) && IsLastBefore(nodes.Keys, x, p) && (q == p || q == x) && q in nodes
    ensures Follow(nodes, true, q, x).forwards == 0
  {
    assert IdealNode(nodes.Keys, q, nodes[q]);
    assert SoundNode(nodes.Keys, q, nodes[q]);
    if q != x {
      assert Arc(q, x) <= Arc(First(nodes[q]), x);
    }
  }

  lemma WithinReach(nodes: Nodes, n: Id, x: Id, p: Id)
    requires Sound(nodes) && Ideal(nodes) && AllFingersRight(nodes) && n in nodes && n != x
    requires IsLastBefore(nodes.Keys, x, p) && NoZeroUpTo(nodes.Keys, n, p)
    ensures Dist(n, p) < RING - 1
    ensures Follow(nodes, true, n, x).forwards <= Needed(Dist(n, p))
  {
    assert Arc(p, x) <= Arc(n, x);
    forall q | q in nodes && Dist(n, p) <= Dist(n, q) <= Dist(n, x)
      ensures Follow(nodes, true, q, x).forwards <= 0 {
      assert Arc(p, x) <= Arc(q, x);
      AnsweredAtOnce(nodes, x, p, q);
    }
    FewForwardsTo(nodes, n, x, p, Needed(Dist(n, p)), 0);
  }

  /** Without a node of id 0, every lookup from every node is forwarded at most 32 times. */
  lemma AtMost32Forwards(nodes: Nodes, n: Id, x: Id)
    requires Sound(nodes) && Ideal(nodes) && AllFingersRight(nodes) && n in nodes
    requires 0 !in nodes
    ensures Follow(nodes, true, n, x).forwards <= 32
  {
    var p := LastBefore(nodes, n, x);
    if n == x {
      AnsweredAtOnce(nodes, x, p, n);
    } else {
      WithinReach(nodes, n, x, p);
    }
  }

  // ---------------------------------------------------------------- with a node of id 0

  lemma ReachGrows(i: nat, j: nat)
    requires i <= j <= 32
    ensures Reach(i) <= Reach(j)
  {
    Pow2Of32();
    if j <= 30 {
      Pow2Grows(i, j);
    } else if i <= 30 {
      Pow2Grows(i, 30);
    }
  }

  lemma NeededAtMost(d: nat, k: nat)
    requires d < RING - 1 && k <= 32 && d < Reach(k)
    ensures Needed(d) <= k
  {
    if k < Needed(d) {
      ReachGrows(k, Needed(d) - 1);
    }
  }

  /** Two distances that share the circle do not both need many forwards. */
  lemma NeededTogether(a: nat, b: nat)
    requires a + b <= RING - 3
    ensures Needed(a) + Needed(b) <= 61
    ensures b < 0x4000_0000 - 1 ==> Needed(b) <= 29
  {
    Pow2Of32();
    assert Reach(30) == 0x8000_0000 - 1 && Reach(29) == 0x4000_0000 - 1;
    var k := if a < Reach(29) then 29 else if a < Reach(30) then 30 else if a < Reach(31) then 31 else 32;
    NeededAtMost(a, k);
    NeededAtMost(b, 61 - k);
    if b < Reach(29) {
      NeededAtMost(b, 29);
    }
  }

  /** Past 0 the skipped finger is no longer in the way. */
  lemma BeyondZero(nodes: Nodes, n: Id, x: Id, p: Id, m: Id, d: nat)
    requires Sound(nodes) && Ideal(nodes) && AllFingersRight(nodes) && n in nodes && m in nodes
    requires IsLastBefore(nodes.Keys, x, p) && n != x && 0 in nodes
    requires 0 < Dist(n, 0) <= Dist(n, m) <= Dist(n, x)
    requires d < RING - 1 && (m != x ==> Dist(m, p) <= d)
    ensures Follow(nodes, true, m, x).forwards <= Needed(d)
  {
    if m == x {
      AnsweredAtOnce(nodes, x, p, m);
    } else {
      assert Arc(p, x) <= Arc(m, x);
      WithinReach(nodes, m, x, p);
      NeededAtMost(Dist(m, p), Needed(d));
    }
  }

  /** Node 0 lies after n and no later than p, the last member before x; z is the last before 0. */
  ghost predicate ZeroBetween(nodes: Nodes, n: Id, x: Id, p: Id, z: Id) {
    && n in nodes && z in nodes && 0 in nodes && n != x && n != 0
    && IsLastBefore(nodes.Keys, x, p) && Members.IsPrev(nodes.Keys, 0, z)
    && Dist(n, z) < Dist(n, 0) <= Dist(n, p) < Dist(n, x)
  }

  /** With p 2^30 or more ahead of z, and 0 less, finger 31 of z names a member past 0. */
  lemma FingerPastZero(members: set<Id>, node: Node, x: Id, p: Id)
    requires FingersRight(members, node) && node.id in members && p in members
    requires Dist(node.id, 0) < 0x4000_0000 <= Dist(node.id, p) < Dist(node.id, x)
    ensures var f := ClosestFinger(node, x, ID_BITS - 1);
            f.Some? && 0x4000_0000 <= Dist(node.id, f.value) <= Dist(node.id, p)
  {
    Pow2Of32();
    assert FingerRight(members, node, 31);
    FingerLandsBeyondTarget(members, node, 31, p);
    assert Qualifies(node, x, 31);
  }

  /** The forward from z. */
  lemma ForwardFromZ(nodes: Nodes, n: Id, x: Id, p: Id, z: Id) returns (to: Id)
    requires Sound(nodes) && Ideal(nodes) && AllFingersRight(nodes) && ZeroBetween(nodes, n, x, p, z)
    ensures to in nodes && Follow(nodes, true, z, x).forwards == 1 + Follow(nodes, true, to, x).forwards
    ensures Dist(n, 0) <= Dist(n, to) <= Dist(n, x)
    ensures Dist(z, 0) < 0x4000_0000 <= Dist(z, p) ==> 0x4000_0000 <= Dist(z, to) <= Dist(z, p)
  {
    var node := nodes[z];
    assert SoundNode(nodes.Keys, z, node) && IdealNode(nodes.Keys, z, node) && FingersRight(nodes.Keys, node);
    assert Arc(z, First(node)) <= Arc(z, 0);
    ForwardStaysInside(nodes, true, z, x);
    to := FindSuccessor(node, x, true).to;
    RouteViaRelay(nodes, true, z, to, x);
    assert Arc(z, 0) <= Arc(to, 0);
    if Dist(z, 0) < 0x4000_0000 <= Dist(z, p) {
      FingerPastZero(nodes.Keys, node, x, p);
    }
  }

  /** How many forwards the node after z then needs. */
  lemma FromZ(nodes: Nodes, n: Id, x: Id, p: Id, z: Id, d: nat)
    requires Sound(nodes) && Ideal(nodes) && AllFingersRight(nodes) && ZeroBetween(nodes, n, x, p, z)
    requires d < RING - 1 && (Dist(z, p) >= 0x4000_0000 ==> d >= Dist(z, p) - 0x4000_0000)
    requires Dist(z, p) < 0x4000_0000 ==> d >= Dist(0, p)
    ensures Follow(nodes, true, z, x).forwards <= 1 + Needed(d)
  {
    var to := ForwardFromZ(nodes, n, x, p, z);
    if to != x {
      assert Arc(p, x) <= Arc(to, x);
    }
    BeyondZero(nodes, n, x, p, to, d);
  }

  /** a before z, and c from z to p, fit on the circle together. */
  lemma NeededAroundZero(a: nat, c: nat) returns (d: nat)
    requires a + c <= RING - 2 && c >= 1
    ensures d == if c >= 0x4000_0000 then c - 0x4000_0000 else c - 1
    ensures d < RING - 1 && Needed(a) + 1 + Needed(d) <= 62
  {
    d := if c >= 0x4000_0000 then c - 0x4000_0000 else c - 1;
    NeededTogether(a, d);
  }

  lemma FewFromZ(nodes: Nodes, n: Id, x: Id, p: Id, z: Id, b: nat)
    requires Sound(nodes) && Ideal(nodes) && AllFingersRight(nodes) && ZeroBetween(nodes, n, x, p, z)
    requires Follow(nodes, true, z, x).forwards <= b && Needed(Dist(0, p)) <= b
    ensures FewFromThere(nodes, n, z, x, b)
  {
    forall q {:trigger Follow(nodes, true, q, x)} | q in nodes && Dist(n, z) <= Dist(n, q) <= Dist(n, x)
      ensures Follow(nodes, true, q, x).forwards <= b {
      assert Arc(z, 0) <= Arc(q, 0);
      if q != z {
        assert q != x ==> Arc(p, x) <= Arc(q, x);
        BeyondZero(nodes, n, x, p, q, Dist(0, p));
      }
    }
  }

  lemma AroundZero(nodes: Nodes, n: Id, x: Id, p: Id, z: Id)
    requires Sound(nodes) && Ideal(nodes) && AllFingersRight(nodes) && ZeroBetween(nodes, n, x, p, z)
    ensures Follow(nodes, true, n, x).forwards <= 62
  {
    var k := Needed(Dist(n, z));
    var d := NeededAroundZero(Dist(n, z), Dist(z, p));
    FromZ(nodes, n, x, p, z, d);
    NeededTogether(Dist(n, z), Dist(0, p));
    FewFromZ(nodes, n, x, p, z, 62 - k);
    FewForwardsTo(nodes, n, x, z, k, 62 - k);
  }

  /** On every ideal ring with correct fingers a lookup is forwarded at most 62 times. */
  lemma AtMost62Forwards(nodes: Nodes, n: Id, x: Id)
    requires Sound(nodes) && Ideal(nodes) && AllFingersRight(nodes) && n in nodes
    ensures Follow(nodes, true, n, x).forwards <= 62
  {
    var p := LastBefore(nodes, n, x);
    if n == x {
      AnsweredAtOnce(nodes, x, p, n);
    } else if NoZeroUpTo(nodes.Keys, n, p) {
      WithinReach(nodes, n, x, p);
    } else {
      assert IdealNode(nodes.Keys, 0, nodes[0]);
      var z := nodes[0].pred.value;
      assert Arc(z, 0) <= Arc(n, 0) && Arc(p, x) <= Arc(n, x);
      AroundZero(nodes, n, x, p, z);
    }
  }
}
