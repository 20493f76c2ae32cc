/** Repair after crashes. On an ideal ring with correct successor lists any set of nodes may fail, as
    long as every survivor keeps one live entry: once the checks have cleared the dead entries, one
    stabilisation of each survivor makes the ring ideal again. */
module Failures {
  import opened Ids
  import opened LocalNode
  import opened Members
  import opened Network
  import opened Rounds
  import IdealRing
  import opened IdealRuns

  // ---------------------------------------------------------------- the checks

  /** node_check_successors from slot k on, each live slot probed and cleared if its node is dead. */
  function CheckSuccs(node: Node, live: set<Id>, k: nat): Node
    requires k <= NUM_OF_SUCCS
    decreases NUM_OF_SUCCS - k
  {
    if k == NUM_OF_SUCCS then node
    else if node.succs[k].None? then CheckSuccs(node, live, k + 1)
    else CheckSuccs(CheckSuccResult(node, k, node.succs[k].value in live), live, k + 1)
  }

  /** Both checks of one node. */
  function Checked(node: Node, live: set<Id>): Node {
    var node' := CheckSuccs(node, live, 0);
    if node'.pred.None? then node' else CheckPredResult(node', node'.pred.value in live)
  }

  /** The slot with a dead entry emptied. */
  function Cleared(slot: Option<Id>, live: set<Id>): Option<Id> {
    if slot.Some? && slot.value in live then slot else None
  }

  /** The checks clear exactly the dead entries. */
  lemma {:induction false} ChecksClearTheDead(node: Node, live: set<Id>, k: nat)
    requires k <= NUM_OF_SUCCS
    ensures var node' := CheckSuccs(node, live, k);
            && node'.id == node.id && node'.pred == node.pred && node'.fingers == node.fingers
            && (forall j :: 0 <= j < k ==> node'.succs[j] == node.succs[j])
            && (forall j :: k <= j < NUM_OF_SUCCS ==> node'.succs[j] == Cleared(node.succs[j], live))
    decreases NUM_OF_SUCCS - k
  {
    if k < NUM_OF_SUCCS {
      var node1 := if node.succs[k].None? then node else CheckSuccResult(node, k, node.succs[k].value in live);
      ChecksClearTheDead(node1, live, k + 1);
    }
  }

  // ---------------------------------------------------------------- first live slot

  /** The first k members after n are all dead. */
  ghost predicate DeadUpTo(members: set<Id>, live: set<Id>, n: Id, k: nat)
    requires n in members
  {
    forall j: nat {:trigger Nth(members, n, j)} :: 1 <= j <= k ==> Nth(members, n, j) !in live
  }

  /** Past the dead: when the first k members after n are all dead, every survivor lies beyond them. */
  lemma {:induction false} SurvivorsLieBeyond(members: set<Id>, live: set<Id>, n: Id, k: nat, m: Id)
    requires live <= members && n in live && m in live && k >= 1
    requires DeadUpTo(members, live, n, k)
    ensures Arc(n, m) == Arc(n, Nth(members, n, k)) + Arc(Nth(members, n, k), m)
    decreases k
  {
    var a, b := Nth(members, n, k - 1), Nth(members, n, k);
    assert Arc(a, b) <= Arc(a, m);
    if k > 1 {
      SurvivorsLieBeyond(members, live, n, k - 1, m);
    }
  }

  /** The first survivor among the members after n is the next survivor. */
  lemma FirstSurvivorIsNext(members: set<Id>, live: set<Id>, n: Id, k: nat)
    requires live <= members && n in live
    requires DeadUpTo(members, live, n, k)
    requires Nth(members, n, k + 1) in live
    ensures IsNext(live, n, Nth(members, n, k + 1))
  {
    var a, s := Nth(members, n, k), Nth(members, n, k + 1);
    forall m {:trigger Arc(n, m)} | m in live ensures Arc(n, s) <= Arc(n, m) {
      assert Arc(a, s) <= Arc(a, m);
      if k >= 1 {
        SurvivorsLieBeyond(members, live, n, k, m);
        SurvivorsLieBeyond(members, live, n, k, s);
      }
    }
  }

  lemma {:induction false} FirstAliveFound(s: seq<Option<Id>>, i: nat, k: nat)
    requires i <= k < |s| && s[k].Some?
    requires forall j :: i <= j < k ==> s[j].None?
    ensures FirstAliveFrom(s, i) == k
    decreases k - i
  {
    if i < k {
      FirstAliveFound(s, i + 1, k);
    }
  }

  ghost predicate HasLiveEntryFrom(node: Node, live: set<Id>, i: nat) {
    exists j: nat {:trigger node.succs[j]} ::
      i <= j < NUM_OF_SUCCS && node.succs[j].Some? && node.succs[j].value in live
  }

  /** How many members after n are dead before the next survivor, on a list that is right from slot
      base on: d more than are known to be. */
  lemma {:induction false} LowestSurvivor(members: set<Id>, live: set<Id>, node: Node, base: nat, d: nat)
      returns (e: nat)
    requires node.id in members && ListFrom(members, node, base) && HasLiveEntryFrom(node, live, base + d)
    requires DeadUpTo(members, live, node.id, d)
    ensures base + e < NUM_OF_SUCCS && Nth(members, node.id, e + 1) in live && DeadUpTo(members, live, node.id, e)
    decreases NUM_OF_SUCCS - d
  {
    var j: nat :| base + d <= j < NUM_OF_SUCCS && node.succs[j].Some? && node.succs[j].value in live;
    assert SlotRight(members, node, base, base + d);
    if Nth(members, node.id, d + 1) in live {
      e := d;
    } else {
      assert j != base + d;
      e := LowestSurvivor(members, live, node, base, d + 1);
    }
  }

  lemma LiveEntriesFollow(node: Node, live: set<Id>)
    requires Connected(node) && HasLiveEntryFrom(node, live, 0)
    ensures HasLiveEntryFrom(node, live, FirstAlive(node.succs))
  {
    FirstAliveIsLowest(node.succs, 0);
    var j: nat :| j < NUM_OF_SUCCS && node.succs[j].Some? && node.succs[j].value in live;
    assert FirstAlive(node.succs) <= j;
  }

  /** The lowest slot with a live node is the first live slot after the checks. */
  lemma CheckedFirst(node: Node, live: set<Id>, k: nat)
    requires Connected(node) && k < NUM_OF_SUCCS && node.succs[k].Some? && node.succs[k].value in live
    requires forall j: nat :: FirstAlive(node.succs) <= j < k && node.succs[j].Some? ==> node.succs[j].value !in live
    ensures Connected(Checked(node, live)) && First(Checked(node, live)) == node.succs[k].value
  {
    var node' := CheckSuccs(node, live, 0);
    ChecksClearTheDead(node, live, 0);
    FirstAliveIsLowest(node.succs, 0);
    assert node'.succs[k] == Cleared(node.succs[k], live);
    forall j: nat | j < k ensures node'.succs[j].None? {
      assert node'.succs[j] == Cleared(node.succs[j], live);
    }
    FirstAliveFound(node'.succs, 0, k);
    assert Checked(node, live).succs == node'.succs;
  }

  lemma NextSurvivorFirst(members: set<Id>, live: set<Id>, node: Node, base: nat, e: nat)
    requires node.id in members && Connected(node) && base == FirstAlive(node.succs) && ListFrom(members, node, base)
    requires base + e < NUM_OF_SUCCS && Nth(members, node.id, e + 1) in live && DeadUpTo(members, live, node.id, e)
    ensures Connected(Checked(node, live)) && First(Checked(node, live)) == Nth(members, node.id, e + 1)
  {
    assert SlotRight(members, node, base, base + e);
    forall j: nat | base <= j < base + e ensures node.succs[j].Some? && node.succs[j].value !in live {
      assert SlotRight(members, node, base, j);
    }
    CheckedFirst(node, live, base + e);
  }

  /** After the checks a survivor's first live slot is the next survivor. */
  lemma CheckedPointsAtNextSurvivor(members: set<Id>, live: set<Id>, node: Node)
    requires live <= members && node.id in live && ListRight(members, node)
    requires HasLiveEntryFrom(node, live, 0)
    ensures Connected(Checked(node, live)) && IsNext(live, node.id, First(Checked(node, live)))
  {
    var base := FirstAlive(node.succs);
    LiveEntriesFollow(node, live);
    var e := LowestSurvivor(members, live, node, base, 0);
    NextSurvivorFirst(members, live, node, base, e);
    FirstSurvivorIsNext(members, live, node.id, e);
  }

  // ---------------------------------------------------------------- the repair

  ghost predicate CheckedInto(nodes: Nodes, live: set<Id>, checked: Nodes, n: Id) {
    n in nodes && n in checked && checked[n] == Checked(nodes[n], live)
  }

  /** What is left of nodes when all but live have crashed and every survivor has checked its entries. */
  ghost predicate AfterChecks(nodes: Nodes, live: set<Id>, checked: Nodes) {
    && checked.Keys == live
    && forall n {:trigger CheckedInto(nodes, live, checked, n)} :: n in live ==> CheckedInto(nodes, live, checked, n)
  }

  /** The right successor, and the right predecessor or none. */
  ghost predicate HalfIdealNode(members: set<Id>, n: Id, node: Node) {
    && node.id == n && Connected(node) && IsNext(members, n, First(node))
    && (node.pred.Some? ==> IsPrev(members, n, node.pred.value))
  }

  ghost predicate HalfIdeal(nodes: Nodes) {
    forall n {:trigger HalfIdealNode(nodes.Keys, n, nodes[n])} :: n in nodes ==> HalfIdealNode(nodes.Keys, n, nodes[n])
  }

  /** An ideal ring with correct successor lists, in which every survivor keeps a live entry. */
  ghost predicate Survivable(nodes: Nodes, live: set<Id>) {
    && live <= nodes.Keys && IdealRing.Ideal(nodes)
    && (forall n {:trigger ListRight(nodes.Keys, nodes[n])} :: n in nodes ==> ListRight(nodes.Keys, nodes[n]))
    && (forall n {:trigger HasLiveEntryFrom(nodes[n], live, 0)} :: n in live ==> HasLiveEntryFrom(nodes[n], live, 0))
  }

  lemma CheckedIsHalfIdeal(members: set<Id>, live: set<Id>, node: Node)
    requires live <= members && node.id in live && HasLiveEntryFrom(node, live, 0)
    requires IdealRing.IdealNode(members, node.id, node) && ListRight(members, node)
    ensures HalfIdealNode(live, node.id, Checked(node, live))
  {
    CheckedPointsAtNextSurvivor(members, live, node);
    ChecksClearTheDead(node, live, 0);
    PrevAmongFewer(members, live, node.id, node.pred.value);
  }

  lemma PrevAmongFewer(members: set<Id>, live: set<Id>, n: Id, p: Id)
    requires live <= members && IsPrev(members, n, p)
    ensures p in live ==> IsPrev(live, n, p)
  {
  }

  lemma ChecksLeaveHalfIdeal(nodes: Nodes, live: set<Id>, checked: Nodes)
    requires Survivable(nodes, live) && AfterChecks(nodes, live, checked)
    ensures HalfIdeal(checked)
  {
    forall n {:trigger HalfIdealNode(checked.Keys, n, checked[n])} | n in checked
      ensures HalfIdealNode(checked.Keys, n, checked[n]) {
      assert CheckedInto(nodes, live, checked, n) && HasLiveEntryFrom(nodes[n], live, 0);
      assert IdealRing.IdealNode(nodes.Keys, n, nodes[n]) && ListRight(nodes.Keys, nodes[n]);
      CheckedIsHalfIdeal(nodes.Keys, live, nodes[n]);
    }
  }

  lemma HalfIdealIsLinked(nodes: Nodes)
    requires HalfIdeal(nodes)
    ensures Linked(nodes)
  {
    forall n {:trigger LinkedNode(nodes.Keys, n, nodes[n])} | n in nodes ensures LinkedNode(nodes.Keys, n, nodes[n]) {
      assert HalfIdealNode(nodes.Keys, n, nodes[n]);
    }
  }

  /** The successor of n knows n. */
  ghost predicate Known(nodes: Nodes, n: Id) {
    && n in nodes && Connected(nodes[n]) && First(nodes[n]) in nodes
    && nodes[First(nodes[n])].pred == Some(n)
  }

  /** What the successor of n has recorded is n or nothing. */
  lemma RecordedIsN(nodes: Nodes, n: Id)
    requires HalfIdeal(nodes) && n in nodes
    ensures Connected(nodes[n]) && First(nodes[n]) in nodes
    ensures nodes[First(nodes[n])].pred.Some? ==> nodes[First(nodes[n])].pred == Some(n)
  {
    assert HalfIdealNode(nodes.Keys, n, nodes[n]);
    var t := First(nodes[n]);
    assert HalfIdealNode(nodes.Keys, t, nodes[t]);
    PrevOfNext(nodes.Keys, n, t);
    if nodes[t].pred.Some? {
      PrevIsUnique(nodes.Keys, t, n, nodes[t].pred.value);
    }
  }

  /** Two nodes with the same successor are one. */
  lemma SameSuccessorSameNode(nodes: Nodes, n: Id, k: Id)
    requires HalfIdeal(nodes) && n in nodes && k in nodes
    requires Connected(nodes[n]) && Connected(nodes[k]) && First(nodes[n]) == First(nodes[k])
    ensures n == k
  {
    assert HalfIdealNode(nodes.Keys, n, nodes[n]) && HalfIdealNode(nodes.Keys, k, nodes[k]);
    PrevOfNext(nodes.Keys, n, First(nodes[n]));
    PrevOfNext(nodes.Keys, k, First(nodes[n]));
    PrevIsUnique(nodes.Keys, First(nodes[n]), n, k);
  }

  /** A stabilisation of k records k at its successor and leaves all successors as they are. */
  lemma RoundRecords(nodes: Nodes, k: Id, n: Id)
    requires HalfIdeal(nodes) && Linked(nodes) && k in nodes && n in nodes
    ensures Connected(nodes[n]) && Connected(nodes[k]) && Connected(Round(nodes, k)[n])
    ensures Round(nodes, k)[n].id == n && First(Round(nodes, k)[n]) == First(nodes[n])
    ensures Round(nodes, k)[n].pred == if n == First(nodes[k]) then Some(k) else nodes[n].pred
  {
    assert HalfIdealNode(nodes.Keys, n, nodes[n]) && HalfIdealNode(nodes.Keys, k, nodes[k]);
    RecordedIsN(nodes, k);
    var t := First(nodes[k]);
    assert HalfIdealNode(nodes.Keys, t, nodes[t]);
    var node := StabilizeSpFound(nodes[k], nodes[t].pred);
    assert First(node) == t && node.pred == nodes[k].pred;
    var nodes1 := nodes[k := node];
    assert First(Notified(nodes1[t], k)) == First(nodes1[t]);
    assert Round(nodes, k) == nodes1[t := Notified(nodes1[t], k)];
  }

  lemma RoundKeepsHalfIdeal(nodes: Nodes, k: Id)
    requires HalfIdeal(nodes) && Linked(nodes) && k in nodes
    ensures HalfIdeal(Round(nodes, k))
  {
    var nodes' := Round(nodes, k);
    forall n {:trigger HalfIdealNode(nodes'.Keys, n, nodes'[n])} | n in nodes'
      ensures HalfIdealNode(nodes'.Keys, n, nodes'[n]) {
      RoundRecords(nodes, k, n);
      assert HalfIdealNode(nodes.Keys, n, nodes[n]) && HalfIdealNode(nodes.Keys, k, nodes[k]);
      PrevOfNext(nodes.Keys, k, First(nodes[k]));
    }
  }

  lemma RoundMakesKnown(nodes: Nodes, k: Id, n: Id)
    requires HalfIdeal(nodes) && Linked(nodes) && k in nodes && n in nodes
    requires n == k || Known(nodes, n)
    ensures Known(Round(nodes, k), n)
  {
    RoundRecords(nodes, k, n);
    RecordedIsN(nodes, n);
    RoundRecords(nodes, k, First(nodes[n]));
    if First(nodes[n]) == First(nodes[k]) {
      SameSuccessorSameNode(nodes, n, k);
    }
  }

  lemma {:induction false} EveryoneGetsKnown(nodes: Nodes, order: seq<Id>, n: Id)
    requires HalfIdeal(nodes) && Linked(nodes) && n in nodes
    requires forall i :: 0 <= i < |order| ==> order[i] in nodes
    requires n in order || Known(nodes, n)
    ensures HalfIdeal(Pass(nodes, order)) && Known(Pass(nodes, order), n)
    decreases |order|
  {
    if order != [] {
      RoundKeepsLinked(nodes, order[0]);
      RoundKeepsHalfIdeal(nodes, order[0]);
      if n == order[0] || Known(nodes, n) {
        RoundMakesKnown(nodes, order[0], n);
      }
      EveryoneGetsKnown(Round(nodes, order[0]), order[1..], n);
    }
  }

  lemma KnownIsIdeal(nodes: Nodes, n: Id)
    requires HalfIdeal(nodes) && n in nodes
    requires forall k {:trigger Known(nodes, k)} :: k in nodes ==> Known(nodes, k)
    ensures IdealRing.IdealNode(nodes.Keys, n, nodes[n])
  {
    var p := Prev(nodes.Keys, n);
    NextOfPrev(nodes.Keys, n, p);
    assert HalfIdealNode(nodes.Keys, n, nodes[n]) && HalfIdealNode(nodes.Keys, p, nodes[p]);
    NextIsUnique(nodes.Keys, p, n);
    NextIsUnique(nodes.Keys, p, First(nodes[p]));
    assert Known(nodes, p);
  }

  /** One stabilisation per survivor, in any order, makes successors and predecessors ideal again. */
  lemma OneRoundEachRepairs(nodes: Nodes, live: set<Id>, checked: Nodes, order: seq<Id>)
    requires Survivable(nodes, live) && AfterChecks(nodes, live, checked)
    requires (forall i :: 0 <= i < |order| ==> order[i] in live) && (forall n :: n in live ==> n in order)
    ensures Linked(checked)
    ensures Pass(checked, order).Keys == live && IdealRing.Ideal(Pass(checked, order))
  {
    ChecksLeaveHalfIdeal(nodes, live, checked);
    HalfIdealIsLinked(checked);
    var nodes' := Pass(checked, order);
    forall n {:trigger Known(nodes', n)} | n in nodes' ensures Known(nodes', n) {
      EveryoneGetsKnown(checked, order, n);
    }
    forall n {:trigger IdealRing.IdealNode(nodes'.Keys, n, nodes'[n])} | n in nodes'
      ensures IdealRing.IdealNode(nodes'.Keys, n, nodes'[n]) {
      EveryoneGetsKnown(checked, order, n);
      KnownIsIdeal(nodes', n);
    }
  }

  // ---------------------------------------------------------------- and it is steady again

  /** After the checks no slot names a dead node. */
  lemma CheckedKnowsOnly(node: Node, live: set<Id>)
    ensures KnowsOnly(live, Checked(node, live))
  {
    ChecksClearTheDead(node, live, 0);
    assert Checked(node, live).succs == CheckSuccs(node, live, 0).succs;
  }

  lemma RoundKnowsOnly(nodes: Nodes, k: Id, n: Id)
    requires Linked(nodes) && k in nodes && n in nodes && KnowsOnly(nodes.Keys, nodes[n])
    ensures KnowsOnly(nodes.Keys, Round(nodes, k)[n])
  {
    assert LinkedNode(nodes.Keys, k, nodes[k]);
    var t := First(nodes[k]);
    assert LinkedNode(nodes.Keys, t, nodes[t]);
    var node := StabilizeSpFound(nodes[k], nodes[t].pred);
    assert Round(nodes, k)[n].succs == if n == k then node.succs else nodes[n].succs;
  }

  lemma {:induction false} PassKnowsOnly(nodes: Nodes, order: seq<Id>, n: Id)
    requires Linked(nodes) && (forall i :: 0 <= i < |order| ==> order[i] in nodes)
    requires n in nodes && KnowsOnly(nodes.Keys, nodes[n])
    ensures KnowsOnly(nodes.Keys, Pass(nodes, order)[n])
    decreases |order|
  {
    if order != [] {
      RoundKeepsLinked(nodes, order[0]);
      RoundKnowsOnly(nodes, order[0], n);
      PassKnowsOnly(Round(nodes, order[0]), order[1..], n);
    }
  }

  /** The repaired ring meets the assumptions of the results on steady rings, whatever its fingers hold,
      dead nodes included: refreshing the lists makes it ready for the next crashes. */
  lemma RepairedIsSteady(nodes: Nodes, live: set<Id>, checked: Nodes, order: seq<Id>, useFingers: bool)
    requires Survivable(nodes, live) && AfterChecks(nodes, live, checked)
    requires (forall i :: 0 <= i < |order| ==> order[i] in live) && (forall n :: n in live ==> n in order)
    ensures Linked(checked) && Steady(Net(useFingers, Pass(checked, order), {}, multiset{}))
  {
    OneRoundEachRepairs(nodes, live, checked, order);
    var nodes' := Pass(checked, order);
    forall n {:trigger SteadyNode(nodes'.Keys, n, nodes'[n])} | n in nodes'
      ensures SteadyNode(nodes'.Keys, n, nodes'[n]) {
      assert CheckedInto(nodes, live, checked, n);
      CheckedKnowsOnly(nodes[n], live);
      PassKnowsOnly(checked, order, n);
      assert IdealRing.IdealNode(nodes'.Keys, n, nodes'[n]);
    }
  }

  // ---------------------------------------------------------------- the same as a run

  /** Steps of node_check_successors and node_check_predecessor. */
  predicate OnlyChecks(steps: seq<Step>) {
    forall i :: 0 <= i < |steps| ==> steps[i].CheckSucc? || steps[i].CheckPred? || steps[i].ProbeDone?
  }

  /** A probe sent and answered with nothing in between. */
  lemma CheckAtOnce(s: Net, check: Step, probe: Msg) returns (steps: seq<Step>)
    requires Enabled(s, check) && (check.CheckSucc? || check.CheckPred?) && Apply(s, check) == Send(s, probe)
    requires probe.Probe? && probe.from in s.nodes && (probe.slot.Some? ==> probe.slot.value < NUM_OF_SUCCS)
    ensures CanRun(s, steps) && OnlyChecks(steps)
    ensures Run(s, steps) == SetNode(s, probe.from, Probed(s.nodes[probe.from], probe.slot, probe.asked in s.nodes))
  {
    TakeUndoesSend(s, probe);
    OneStep(Send(s, probe), ProbeDone(probe));
    StepThen(s, check, [ProbeDone(probe)]);
    steps := [check] + [ProbeDone(probe)];
  }

  lemma {:induction false} SlotChecksAreARun(s: Net, n: Id, k: nat) returns (steps: seq<Step>)
    requires n in s.nodes && k <= NUM_OF_SUCCS
    ensures CanRun(s, steps) && OnlyChecks(steps)
    ensures Run(s, steps) == SetNode(s, n, CheckSuccs(s.nodes[n], s.nodes.Keys, k))
    decreases NUM_OF_SUCCS - k
  {
    if k == NUM_OF_SUCCS {
      steps := [];
      assert s.nodes[n := s.nodes[n]] == s.nodes;
    } else if s.nodes[n].succs[k].None? {
      steps := SlotChecksAreARun(s, n, k + 1);
    } else {
      var first := CheckAtOnce(s, CheckSucc(n, k), Probe(n, Some(k), s.nodes[n].succs[k].value));
      var s1 := Run(s, first);
      assert s1.nodes.Keys == s.nodes.Keys;
      var rest := SlotChecksAreARun(s1, n, k + 1);
      RunAppends(s, first, rest);
      steps := first + rest;
    }
  }

  lemma ChecksAreARun(s: Net, n: Id) returns (steps: seq<Step>)
    requires n in s.nodes
    ensures CanRun(s, steps) && OnlyChecks(steps)
    ensures Run(s, steps) == SetNode(s, n, Checked(s.nodes[n], s.nodes.Keys))
  {
    steps := SlotChecksAreARun(s, n, 0);
    var node := CheckSuccs(s.nodes[n], s.nodes.Keys, 0);
    if node.pred.Some? {
      var last := PredCheckIsARun(SetNode(s, n, node), n, s.nodes.Keys);
      RunAppends(s, steps, last);
      steps := steps + last;
    }
  }

  lemma PredCheckIsARun(s: Net, n: Id, live: set<Id>) returns (steps: seq<Step>)
    requires n in s.nodes && s.nodes[n].pred.Some? && live == s.nodes.Keys
    ensures CanRun(s, steps) && OnlyChecks(steps)
    ensures Run(s, steps) == SetNode(s, n, CheckPredResult(s.nodes[n], s.nodes[n].pred.value in live))
  {
    steps := CheckAtOnce(s, CheckPred(n), Probe(n, None, s.nodes[n].pred.value));
  }

  /** Crashes of these nodes. */
  predicate OnlyCrashes(steps: seq<Step>, dead: set<Id>) {
    forall i :: 0 <= i < |steps| ==> steps[i].Fail? && steps[i].n in dead
  }

  /** Everyone in todo checks its entries. */
  lemma {:induction false} AllCheck(s: Net, todo: set<Id>) returns (steps: seq<Step>)
    requires todo <= s.nodes.Keys
    ensures CanRun(s, steps) && OnlyChecks(steps)
    ensures Run(s, steps) == s.(nodes := Run(s, steps).nodes) && Run(s, steps).nodes.Keys == s.nodes.Keys
    ensures forall n :: n in s.nodes ==>
              Run(s, steps).nodes[n] == if n in todo then Checked(s.nodes[n], s.nodes.Keys) else s.nodes[n]
    decreases |todo|
  {
    steps := [];
    if todo != {} {
      var n :| n in todo;
      var first := ChecksAreARun(s, n);
      var s1 := Run(s, first);
      assert s1.nodes.Keys == s.nodes.Keys;
      var rest := AllCheck(s1, todo - {n});
      RunAppends(s, first, rest);
      steps := first + rest;
    }
  }

  /** Everyone in dead crashes. */
  lemma {:induction false} AllFail(s: Net, dead: set<Id>) returns (steps: seq<Step>)
    requires dead <= s.nodes.Keys
    ensures CanRun(s, steps) && OnlyCrashes(steps, dead) && Run(s, steps) == s.(nodes := s.nodes - dead)
    decreases |dead|
  {
    steps := [];
    if dead == {} {
      assert s.nodes - dead == s.nodes;
    } else {
      var n :| n in dead;
      var s1 := s.(nodes := s.nodes - {n});
      var rest := AllFail(s1, dead - {n});
      assert s1.nodes - (dead - {n}) == s.nodes - dead;
      StepThen(s, Fail(n), rest);
      steps := [Fail(n)] + rest;
    }
  }

  /** What a late failure does: slot k of n names a dead node when it is probed, is overwritten with a live
      one, and is cleared all the same when the probe fails. */
  lemma LateFailureClearsALiveEntry(s: Net, n: Id, k: nat, found: Msg)
    requires n in s.nodes && k < NUM_OF_SUCCS && s.nodes[n].succs[k].Some? && s.nodes[n].succs[k].value !in s.nodes
    requires found in s.msgs && found.Found? && found.why == ForSlot(n, k) && found.found in s.nodes
    ensures Enabled(s, CheckSucc(n, k))
    ensures var probe, s1 := Probe(n, Some(k), s.nodes[n].succs[k].value), Apply(s, CheckSucc(n, k));
            && Enabled(s1, DeliverFound(found))
            && var s2 := Apply(s1, DeliverFound(found));
            && n in s2.nodes && s2.nodes[n].succs[k] == Some(found.found)
            && Enabled(s2, ProbeDone(probe))
            && Apply(s2, ProbeDone(probe)).nodes[n].succs[k].None?
  {
    var s1 := Apply(s, CheckSucc(n, k));
    StoreStays(s1, found, Probe(n, Some(k), s.nodes[n].succs[k].value));
  }

  lemma StoreStays(s: Net, found: Msg, probe: Msg)
    requires Enabled(s, DeliverFound(found)) && found.why.ForSlot? && probe in s.msgs && probe.Probe?
    ensures probe in Apply(s, DeliverFound(found)).msgs
    ensures Apply(s, DeliverFound(found)).nodes ==
            s.nodes[found.why.who := UpdateSuccsFound(s.nodes[found.why.who], found.why.slot, found.found)]
  {
    assert probe in Take(s, found).msgs;
  }

  /** Exactly when a probe clears an entry that names a live node: it failed, and the slot has been given
      another node since. */
  lemma WhenAProbeClearsALiveEntry(s: Net, m: Msg)
    requires Enabled(s, ProbeDone(m)) && m.slot.Some?
    ensures var slot := s.nodes[m.from].succs[m.slot.value];
            var slot' := Apply(s, ProbeDone(m)).nodes[m.from].succs[m.slot.value];
            slot.Some? && slot.value in s.nodes && slot'.None? <==>
            m.asked !in s.nodes && slot.Some? && slot.value != m.asked && slot.value in s.nodes
  {
  }

  /** Crashes of all but live, and then checks of everybody left, as steps of the network. */
  lemma CrashAndCheck(s: Net, live: set<Id>) returns (crashes: seq<Step>, checks: seq<Step>, s1: Net, s2: Net)
    requires live <= s.nodes.Keys
    ensures CanRun(s, crashes) && OnlyCrashes(crashes, s.nodes.Keys - live)
    ensures s1 == Run(s, crashes) && s1 == s.(nodes := s.nodes - (s.nodes.Keys - live))
    ensures CanRun(s1, checks) && OnlyChecks(checks)
    ensures s2 == Run(s1, checks) && s2 == s1.(nodes := s2.nodes) && AfterChecks(s.nodes, live, s2.nodes)
  {
    crashes := AllFail(s, s.nodes.Keys - live);
    s1 := Run(s, crashes);
    assert s1.nodes.Keys == live;
    checks := AllCheck(s1, live);
    s2 := Run(s1, checks);
    forall n {:trigger CheckedInto(s.nodes, live, s2.nodes, n)} | n in live
      ensures CheckedInto(s.nodes, live, s2.nodes, n) {
      assert s1.nodes[n] == s.nodes[n];
    }
  }

  /** Three stretches of a run: crashes of all but live, checks by the survivors, and the stabilisations
      of order, each in one go. What is in flight stays there. */
  ghost predicate RepairsIn(s: Net, live: set<Id>, order: seq<Id>,
                            crashes: seq<Step>, checks: seq<Step>, repair: seq<Step>) {
    && OnlyCrashes(crashes, s.nodes.Keys - live) && OnlyChecks(checks) && MaintenanceOnly(repair)
    && CanRun(s, crashes) && Run(s, crashes) == s.(nodes := s.nodes - (s.nodes.Keys - live))
    && var s1 := Run(s, crashes);
    && CanRun(s1, checks) && Run(s1, checks) == s1.(nodes := Run(s1, checks).nodes)
    && var s2 := Run(s1, checks);
    && AfterChecks(s.nodes, live, s2.nodes)
    && Linked(s2.nodes) && (forall i :: 0 <= i < |order| ==> order[i] in s2.nodes)
    && repair == PassSteps(s2.nodes, order) && CanRun(s2, repair)
    && Run(s2, repair) == s2.(nodes := Pass(s2.nodes, order))
  }

  /** Crashes, checks and one stabilisation each, as steps of the network from the ideal ring. */
  lemma RepairingRun(s: Net, live: set<Id>, order: seq<Id>)
      returns (crashes: seq<Step>, checks: seq<Step>, repair: seq<Step>)
    requires Survivable(s.nodes, live)
    requires (forall i :: 0 <= i < |order| ==> order[i] in live) && (forall n :: n in live ==> n in order)
    ensures RepairsIn(s, live, order, crashes, checks, repair)
    ensures var steps := crashes + checks + repair;
            && CanRun(s, steps) && Run(s, steps).msgs == s.msgs
            && Run(s, steps).nodes.Keys == live && IdealRing.Ideal(Run(s, steps).nodes)
  {
    var s1, s2;
    crashes, checks, s1, s2 := CrashAndCheck(s, live);
    OneRoundEachRepairs(s.nodes, live, s2.nodes, order);
    PassIsARun(s2, order);
    repair := PassSteps(s2.nodes, order);
    RunAppends(s, crashes, checks);
    RunAppends(s, crashes + checks, repair);
  }
}
