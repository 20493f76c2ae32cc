/** Any set of members has its ideal ring with correct lists and fingers, so what is said of such rings
    is said of every set of ids; among them the rings with the longest lookups. */
module PerfectRing {
  import opened Ids
  import opened LocalNode
  import Members
  import opened Network
  import Lookup
  import IdealRing
  import IdealRuns
  import Hops
  import R = LongRoutes

  ghost function PerfectList(members: set<Id>, n: Id): (s: seq<Option<Id>>)
    requires n in members
    ensures |s| == NUM_OF_SUCCS && forall j: nat :: j < NUM_OF_SUCCS ==> s[j] == Some(Members.Nth(members, n, j + 1))
  {
    seq(NUM_OF_SUCCS, j requires 0 <= j < NUM_OF_SUCCS => Some(Members.Nth(members, n, j + 1)))
  }

  ghost function PerfectFinger(members: set<Id>, n: Id, i: nat): Option<Id>
    requires n in members && i < ID_BITS
  {
    if i == 0 then None
    else
      var f := Members.FirstAtOrAfter(members, FingerTarget(n, i));
      if f == n then None else Some(f)
  }

  ghost function PerfectFingers(members: set<Id>, n: Id): (s: seq<Option<Id>>)
    requires n in members
    ensures |s| == ID_BITS && forall i: nat :: i < ID_BITS ==> s[i] == PerfectFinger(members, n, i)
  {
    seq(ID_BITS, i requires 0 <= i < ID_BITS => PerfectFinger(members, n, i))
  }

  ghost function PerfectNode(members: set<Id>, n: Id): Node
    requires n in members
  {
    Node(n, PerfectList(members, n), Some(Members.Prev(members, n)), PerfectFingers(members, n))
  }

  lemma PerfectListIsRight(members: set<Id>, n: Id)
    requires n in members
    ensures IdealRuns.SteadyNode(members, n, PerfectNode(members, n))
    ensures IdealRuns.ListRight(members, PerfectNode(members, n))
    ensures PerfectNode(members, n).succs[0].Some?
  {
    var node := PerfectNode(members, n);
    assert node.succs[0] == Some(Members.Nth(members, n, 1));
    assert Members.Nth(members, n, 0) == n;
    assert First(node) == Members.Next(members, n);
    forall j: nat {:trigger IdealRuns.SlotRight(members, node, 0, j)} | j < NUM_OF_SUCCS
      ensures IdealRuns.SlotRight(members, node, 0, j) {
      assert node.succs[j] == Some(Members.Nth(members, n, j + 1));
    }
  }

  lemma PerfectFingersAreRight(members: set<Id>, n: Id)
    requires n in members
    ensures IdealRing.FingersRight(members, PerfectNode(members, n))
    ensures NoSelfFinger(PerfectNode(members, n))
    ensures forall i: nat :: i < ID_BITS && PerfectNode(members, n).fingers[i].Some? ==>
              PerfectNode(members, n).fingers[i].value in members
  {
    var node := PerfectNode(members, n);
    forall i: nat | i < ID_BITS ensures node.fingers[i] == PerfectFinger(members, n, i) {
    }
    forall i | 1 <= i < ID_BITS ensures IdealRing.FingerRight(members, node, i) {
      assert node.fingers[i] == PerfectFinger(members, n, i);
    }
  }

  lemma PerfectNodeIsRight(members: set<Id>, n: Id)
    requires n in members
    ensures IdealRuns.NodeRight(members, PerfectNode(members, n))
    ensures Lookup.SoundNode(members, n, PerfectNode(members, n))
  {
    PerfectListIsRight(members, n);
    PerfectFingersAreRight(members, n);
  }

  lemma PerfectIsSound(members: set<Id>, nodes: Nodes)
    requires nodes.Keys == members
    requires forall n {:trigger nodes[n]} :: n in members ==> nodes[n] == PerfectNode(members, n)
    ensures Lookup.Sound(nodes) && Hops.AllFingersRight(nodes)
  {
    forall n {:trigger Lookup.SoundNode(nodes.Keys, n, nodes[n])} | n in nodes
      ensures Lookup.SoundNode(nodes.Keys, n, nodes[n]) {
      PerfectNodeIsRight(members, n);
    }
    forall n {:trigger IdealRing.FingersRight(nodes.Keys, nodes[n])} | n in nodes
      ensures IdealRing.FingersRight(nodes.Keys, nodes[n]) {
      PerfectFingersAreRight(members, n);
    }
  }

  /** An ideal ring of these members, with lists and fingers right and nothing in flight. */
  lemma Perfect(members: set<Id>, useFingers: bool) returns (s: Net)
    ensures s.nodes.Keys == members && s.useFingers == useFingers && s.msgs == multiset{}
    ensures IdealRuns.Steady(s) && IdealRuns.AllRight(s.nodes) && Lookup.Sound(s.nodes)
    ensures IdealRing.Ideal(s.nodes) && Hops.AllFingersRight(s.nodes)
    ensures forall n {:trigger s.nodes[n]} :: n in s.nodes ==> s.nodes[n].succs[0].Some?
  {
    var nodes := map n | n in members :: PerfectNode(members, n);
    s := Net(useFingers, nodes, {}, multiset{});
    assert nodes.Keys == members;
    forall n {:trigger IdealRuns.SteadyNode(nodes.Keys, n, nodes[n])} | n in nodes
      ensures IdealRuns.SteadyNode(nodes.Keys, n, nodes[n]) {
      PerfectListIsRight(members, n);
    }
    forall n {:trigger IdealRuns.NodeRight(nodes.Keys, nodes[n])} | n in nodes
      ensures IdealRuns.NodeRight(nodes.Keys, nodes[n]) {
      PerfectNodeIsRight(members, n);
    }
    PerfectIsSound(members, nodes);
    IdealRuns.SteadyIsIdeal(s);
    forall n {:trigger nodes[n]} | n in nodes ensures nodes[n].succs[0].Some? {
      PerfectListIsRight(members, n);
    }
  }

  // ---------------------------------------------------------------- the longest lookups exist

  /** The rungs 0..j of the ladder before p. */
  ghost function Rungs(p: Id, j: nat): set<Id>
    requires j <= 31 && Pow2(j) - 1 <= p
  {
    set i: nat | i <= j && Pow2(i) - 1 <= p :: R.Rung(p, i)
  }

  lemma RungsAre(p: Id, j: nat, nodes: Nodes)
    requires j <= 31 && Pow2(j) - 1 <= p && Rungs(p, j) <= nodes.Keys
    ensures forall i: nat {:trigger R.OnRung(nodes, p, i)} :: i <= j ==> R.OnRung(nodes, p, i)
  {
    forall i: nat {:trigger R.OnRung(nodes, p, i)} | i <= j ensures R.OnRung(nodes, p, i) {
      Pow2Grows(i, j);
      assert R.Rung(p, i) in Rungs(p, j);
    }
  }

  lemma RungsAreFar(p: Id, j: nat, m: Id)
    requires j <= 31 && Pow2(j) - 1 <= p && m in Rungs(p, j)
    ensures p + 1 - Pow2(j) <= m <= p
  {
    var i: nat :| i <= j && Pow2(i) - 1 <= p && m == R.Rung(p, i);
    Pow2Grows(i, j);
  }

  /** The bound of 32 forwards is met by a ring without a node of id 0. */
  lemma Longest32() returns (nodes: Nodes, n: Id, x: Id)
    ensures Lookup.Sound(nodes) && IdealRing.Ideal(nodes) && Hops.AllFingersRight(nodes) && 0 !in nodes && n in nodes
    ensures Lookup.Follow(nodes, true, n, x).forwards == 32
  {
    Pow2Of32();
    var members := Rungs(R.LAST, 31) + {1};
    var s := Perfect(members, true);
    nodes, n, x := s.nodes, 1, Plus(R.LAST, 1);
    RungsAre(R.LAST, 31, nodes);
    forall m | m in Rungs(R.LAST, 31) ensures m != 0 && m != x {
      RungsAreFar(R.LAST, 31, m);
    }
    R.Takes32(nodes);
  }

  /** With a node of id 0 a lookup can take k + 1 + top forwards, for any k up to 31 and top up to 30. */
  lemma LongWithZero(k: nat, top: nat) returns (nodes: Nodes, n: Id, x: Id)
    requires k <= 31 && top <= 30
    ensures Lookup.Sound(nodes) && IdealRing.Ideal(nodes) && Hops.AllFingersRight(nodes) && 0 in nodes && n in nodes
    ensures Lookup.Follow(nodes, true, n, x).forwards == k + 1 + top
  {
    R.NotPowerOfTwo(k);
    Pow2Of32();
    Pow2Grows(k, 31);
    var members := Rungs(R.LAST, k) + Rungs(R.Foot(top), top);
    var s := Perfect(members, true);
    nodes, n, x := s.nodes, R.Rung(R.LAST, k), Plus(R.Foot(top), 1);
    RungsAre(R.LAST, k, nodes);
    RungsAre(R.Foot(top), top, nodes);
    forall m {:trigger m in nodes} | m in nodes ensures m <= R.Foot(top) || Pow2(30) < m <= R.LAST {
      if m in Rungs(R.LAST, k) {
        RungsAreFar(R.LAST, k, m);
      } else {
        RungsAreFar(R.Foot(top), top, m);
      }
    }
    R.ZeroIsHighestRung(nodes, k, top);
    R.TakesLonger(nodes, k, top);
  }

  /** So with a node of id 0 the bound of 32 does not hold, and that of 62 is met. */
  lemma Longest62() returns (nodes: Nodes, n: Id, x: Id)
    ensures Lookup.Sound(nodes) && IdealRing.Ideal(nodes) && Hops.AllFingersRight(nodes) && 0 in nodes && n in nodes
    ensures Lookup.Follow(nodes, true, n, x).forwards == 62
  {
    nodes, n, x := LongWithZero(31, 30);
  }
}
