/** Crashes, repair, refresh: after the repair each survivor's update chain makes its successor list
    right again, over the survivors, from its first live slot on, so the next crashes may come. */
module Recovery {
  import opened Ids
  import opened LocalNode
  import Members
  import opened Network
  import Rounds
  import opened IdealRuns
  import Refresh
  import Failures

  /** s is the ring as the repair leaves it, with nothing in flight. */
  ghost predicate Repaired(nodes: Nodes, live: set<Id>, checked: Nodes, order: seq<Id>, s: Net) {
    && Failures.Survivable(nodes, live) && Failures.AfterChecks(nodes, live, checked)
    && (forall i :: 0 <= i < |order| ==> order[i] in live) && (forall n :: n in live ==> n in order)
    && Rounds.Linked(checked) && s == Net(s.useFingers, Rounds.Pass(checked, order), {}, multiset{})
  }

  lemma RepairedSteady(nodes: Nodes, live: set<Id>, checked: Nodes, order: seq<Id>, s: Net)
    requires Repaired(nodes, live, checked, order, s)
    ensures Steady(s) && s.nodes.Keys == live
  {
    Failures.RepairedIsSteady(nodes, live, checked, order, s.useFingers);
  }

  /** n has run its update chain to the end, or has its only live slot last, where no chain starts. */
  ghost predicate ChainDone(s: Net, steps: seq<Step>, s': Net, n: Id) {
    && n in s.nodes && Connected(s.nodes[n])
    && (StartUpdate(n) in steps || FirstAlive(s.nodes[n].succs) == NUM_OF_SUCCS - 1)
    && forall k: nat :: k < NUM_OF_SUCCS ==> !Refresh.Pending(s', ForSlot(n, k))
  }

  lemma {:induction false} StaysBased(s: Net, steps: seq<Step>, n: Id, base: nat)
    requires Steady(s) && CanRun(s, steps) && MaintenanceOnly(steps) && n in s.nodes && BasedAt(s.nodes[n], base)
    ensures n in Run(s, steps).nodes && BasedAt(Run(s, steps).nodes[n], base)
    decreases |steps|
  {
    if steps != [] {
      SteadyStep(s, steps[0]);
      StepWritesRight(s, steps[0], n, base);
      StaysBased(Apply(s, steps[0]), steps[1..], n, base);
    }
  }

  /** On a ring of two or more nobody comes after itself. */
  lemma NotAlone(members: set<Id>, n: Id, s: Id, a: Id, b: Id)
    requires a in members && b in members && a != b && Members.IsNext(members, n, s)
    ensures s != n
  {
    assert Arc(n, s) <= Arc(n, a) && Arc(n, s) <= Arc(n, b);
  }

  lemma ListRightAgain(s: Net, steps: seq<Step>, s': Net, n: Id, a: Id, b: Id)
    requires Steady(s) && CanRun(s, steps) && MaintenanceOnly(steps) && s' == Run(s, steps)
    requires a in s.nodes && b in s.nodes && a != b && ChainDone(s, steps, s', n)
    ensures n in s'.nodes && ListRight(s'.nodes.Keys, s'.nodes[n])
  {
    var base := FirstAlive(s.nodes[n].succs);
    SteadyRun(s, steps);
    StaysBased(s, steps, n, base);
    assert SteadyNode(s'.nodes.Keys, n, s'.nodes[n]);
    NotAlone(s'.nodes.Keys, n, First(s'.nodes[n]), a, b);
    if StartUpdate(n) in steps {
      Refresh.UpdateChainWorks(s, steps, s', n, base);
    } else {
      FirstSlotIsRight(s'.nodes.Keys, s'.nodes[n]);
    }
  }

  /** A ring of two or more survivors is ready for the next crashes once every survivor has run its
      update chain: again any set of nodes may fail that leaves everyone else a live entry. */
  lemma ReadyForTheNextCrashes(nodes: Nodes, live: set<Id>, checked: Nodes, order: seq<Id>,
                               s: Net, steps: seq<Step>, s': Net, a: Id, b: Id, live': set<Id>)
    requires Repaired(nodes, live, checked, order, s)
    requires CanRun(s, steps) && MaintenanceOnly(steps) && s' == Run(s, steps)
    requires a in live && b in live && a != b
    requires forall n {:trigger ChainDone(s, steps, s', n)} :: n in live ==> ChainDone(s, steps, s', n)
    requires live' <= s'.nodes.Keys
    requires forall n {:trigger Failures.HasLiveEntryFrom(s'.nodes[n], live', 0)} ::
               n in live' ==> Failures.HasLiveEntryFrom(s'.nodes[n], live', 0)
    ensures s'.nodes.Keys == live && Failures.Survivable(s'.nodes, live')
  {
    RepairedSteady(nodes, live, checked, order, s);
    SteadyRun(s, steps);
    SteadyIsIdeal(s');
    forall n {:trigger ListRight(s'.nodes.Keys, s'.nodes[n])} | n in s'.nodes
      ensures ListRight(s'.nodes.Keys, s'.nodes[n]) {
      assert ChainDone(s, steps, s', n);
      ListRightAgain(s, steps, s', n, a, b);
    }
  }
}
