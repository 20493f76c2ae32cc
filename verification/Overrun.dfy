/** A run after which node_update_succs would write past the successor list: nine members, of which the
    seven that come after node 10 crash. Its only live slot is then the last one. */
module Overrun {
  import opened Ids
  import opened LocalNode
  import opened Network
  import IdealRuns
  import Failures
  import Members
  import PerfectRing

  /** When only the member in the last slot survives, that slot is the first live one after the checks. */
  lemma LastSlotFirst(members: set<Id>, live: set<Id>, node: Node)
    requires node.id in members && IdealRuns.ListRight(members, node) && node.succs[0].Some?
    requires Failures.DeadUpTo(members, live, node.id, NUM_OF_SUCCS - 1)
    requires Members.Nth(members, node.id, NUM_OF_SUCCS) in live
    ensures FirstAlive(Failures.Checked(node, live).succs) == NUM_OF_SUCCS - 1
  {
    var node' := Failures.CheckSuccs(node, live, 0);
    Failures.ChecksClearTheDead(node, live, 0);
    IdealRuns.FullListRight(members, node, NUM_OF_SUCCS - 1);
    forall j: nat | j < NUM_OF_SUCCS - 1 ensures node'.succs[j].None? {
      IdealRuns.FullListRight(members, node, j);
      assert node'.succs[j] == Failures.Cleared(node.succs[j], live);
    }
    assert node'.succs[NUM_OF_SUCCS - 1] == Failures.Cleared(node.succs[NUM_OF_SUCCS - 1], live);
    Failures.FirstAliveFound(node'.succs, 0, NUM_OF_SUCCS - 1);
    assert Failures.Checked(node, live).succs == node'.succs;
  }

  /** 10, 20, ..., 90. */
  ghost function Nine(): set<Id> {
    set i: Id | 1 <= i <= 9 :: 10 * i
  }

  lemma NextOfNine(i: nat)
    requires 1 <= i <= 8
    ensures Members.IsNext(Nine(), 10 * i, 10 * (i + 1))
  {
    var s: Id := i + 1;
    assert 10 * s in Nine();
    forall m {:trigger Arc(10 * i, m)} | m in Nine() ensures Arc(10 * i, 10 * s) <= Arc(10 * i, m) {
      var k: Id :| 1 <= k <= 9 && m == 10 * k;
    }
  }

  lemma {:induction false} NthOfNine(j: nat)
    requires j <= 8
    ensures 10 in Nine() && Members.Nth(Nine(), 10, j) == 10 * (j + 1)
    decreases j
  {
    var one: Id := 1;
    assert 10 * one in Nine();
    if j > 0 {
      NthOfNine(j - 1);
      NextOfNine(j);
      Members.NextIsUnique(Nine(), 10 * j, 10 * (j + 1));
    }
  }

  lemma SevenDead(live: set<Id>)
    requires live == {10, 90}
    ensures 10 in Nine() && Failures.DeadUpTo(Nine(), live, 10, 7) && Members.Nth(Nine(), 10, 8) in live
  {
    NthOfNine(8);
    forall j: nat {:trigger Members.Nth(Nine(), 10, j)} | 1 <= j <= 7 ensures Members.Nth(Nine(), 10, j) !in live {
      NotLive(live, j);
    }
  }

  lemma NotLive(live: set<Id>, j: nat)
    requires live == {10, 90} && 1 <= j <= 7
    ensures 10 in Nine() && Members.Nth(Nine(), 10, j) !in live
  {
    NthOfNine(j);
  }

  /** What the crashes of all but live and the checks leave of n. */
  lemma LastSlotAfter(s: Net, live: set<Id>, s2: Net, n: Id)
    requires IdealRuns.AllRight(s.nodes) && n in s.nodes && s.nodes[n].id == n && s.nodes[n].succs[0].Some? && n in live
    requires Failures.AfterChecks(s.nodes, live, s2.nodes)
    requires Failures.DeadUpTo(s.nodes.Keys, live, n, NUM_OF_SUCCS - 1)
    requires Members.Nth(s.nodes.Keys, n, NUM_OF_SUCCS) in live
    ensures n in s2.nodes && FirstAlive(s2.nodes[n].succs) + 1 == NUM_OF_SUCCS
  {
    assert IdealRuns.NodeRight(s.nodes.Keys, s.nodes[n]) && Failures.CheckedInto(s.nodes, live, s2.nodes, n);
    LastSlotFirst(s.nodes.Keys, live, s.nodes[n]);
  }

  /** From an ideal ring with correct lists and fingers, crashes and then checks lead to a node whose chain
      would start by writing slot 8. */
  lemma ChainOverruns() returns (s: Net, crashes: seq<Step>, checks: seq<Step>, n: Id)
    ensures IdealRuns.Steady(s) && IdealRuns.AllRight(s.nodes) && n in s.nodes
    ensures CanRun(s, crashes) && Failures.OnlyCrashes(crashes, s.nodes.Keys - {n, 90})
    ensures var s1 := Run(s, crashes);
            && CanRun(s1, checks) && Failures.OnlyChecks(checks)
            && Up(Run(s1, checks), n) && FirstAlive(Run(s1, checks).nodes[n].succs) + 1 == NUM_OF_SUCCS
  {
    var live: set<Id> := {10, 90};
    n := 10;
    s := PerfectRing.Perfect(Nine(), false);
    SevenDead(live);
    assert IdealRuns.SteadyNode(s.nodes.Keys, n, s.nodes[n]);
    assert live <= Nine() by {
      NthOfNine(8);
    }
    var s1, s2;
    crashes, checks, s1, s2 := Failures.CrashAndCheck(s, live);
    LastSlotAfter(s, live, s2, n);
  }
}
