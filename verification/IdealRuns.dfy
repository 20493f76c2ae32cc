/** Runs on an ideal ring while nobody joins or crashes: the maintenance activities interleave in
    any way and only ever write what is right. */
module IdealRuns {
  import opened Ids
  import opened LocalNode
  import opened Members
  import opened Network
  import IdealRing

  // ---------------------------------------------------------------- the invariant

  /** Every live slot names a member. */
  ghost predicate KnowsOnly(members: set<Id>, node: Node) {
    forall k :: 0 <= k < NUM_OF_SUCCS && node.succs[k].Some? ==> node.succs[k].value in members
  }

  /** An ideal node, none of whose slots names a stranger. Its fingers may hold anything. */
  ghost predicate SteadyNode(members: set<Id>, n: Id, node: Node) {
    n in members && IdealRing.IdealNode(members, n, node) && KnowsOnly(members, node)
  }

  /** The lookup for slot k of n: its first live slot names the next member, the one after that the
      member after, and so on. */
  ghost predicate SlotLookup(members: set<Id>, n: Id, node: Node, k: nat, target: Id) {
    var b := FirstAlive(node.succs);
    n in members && 0 <= b < k < NUM_OF_SUCCS && target == Plus(Nth(members, n, k - b), 1)
  }

  /** The lookup is one a maintenance activity of a member makes on an ideal ring. */
  ghost predicate TruePurpose(nodes: Nodes, target: Id, why: Purpose) {
    && !why.ForJoin? && why.who in nodes
    && match why
       case ForSlot(n, k) => SlotLookup(nodes.Keys, n, nodes[n], k, target)
       case ForFinger(n, i) => 1 <= i < ID_BITS && target == FingerTarget(n, i)
  }

  ghost predicate TrueMsg(nodes: Nodes, m: Msg) {
    match m
    case LookupAt(at, target, why) => TruePurpose(nodes, target, why)
    case Found(found, target, why) => IsFirstAtOrAfter(nodes.Keys, target, found) && TruePurpose(nodes, target, why)
    case PredReq(from, asked) => from in nodes && IsNext(nodes.Keys, from, asked)
    case PredRep(to, asked, pred) => to in nodes && pred == Some(to)
    case Notify(from, to) => from in nodes && IsNext(nodes.Keys, from, to)
    case Probe(from, slot, asked) => from in nodes && asked in nodes
  }

  /** An ideal ring on which everything in flight is true of it. */
  ghost predicate Steady(s: Net) {
    && s.joining == {}
    && (forall n {:trigger SteadyNode(s.nodes.Keys, n, s.nodes[n])} ::
          n in s.nodes ==> SteadyNode(s.nodes.Keys, n, s.nodes[n]))
    && (forall m {:trigger TrueMsg(s.nodes, m)} :: m in s.msgs ==> TrueMsg(s.nodes, m))
  }

  predicate Maintains(step: Step) {
    !step.Fail? && !step.StartJoin?
  }

  lemma SteadyIsIdeal(s: Net)
    requires Steady(s)
    ensures IdealRing.Ideal(s.nodes)
  {
    forall n {:trigger IdealRing.IdealNode(s.nodes.Keys, n, s.nodes[n])} | n in s.nodes
      ensures IdealRing.IdealNode(s.nodes.Keys, n, s.nodes[n]) {
      assert SteadyNode(s.nodes.Keys, n, s.nodes[n]);
    }
  }

  // ---------------------------------------------------------------- the first live slot

  /** A member that comes after itself is alone, at any number of steps. */
  lemma {:induction false} NthAlone(members: set<Id>, n: Id, k: nat)
    requires n in members && IsNext(members, n, n)
    ensures Nth(members, n, k) == n
    decreases k
  {
    if k > 0 {
      NthAlone(members, n, k - 1);
      NextIsUnique(members, n, n);
    }
  }

  lemma {:induction false} LaterSlotKeepsFirst(s: seq<Option<Id>>, i: nat, k: nat, v: Option<Id>)
    requires i <= |s| && 0 <= FirstAliveFrom(s, i) < k < |s|
    ensures FirstAliveFrom(s[k := v], i) == FirstAliveFrom(s, i)
    decreases |s| - i
  {
    if s[i].None? {
      LaterSlotKeepsFirst(s, i + 1, k, v);
    }
  }

  /** b keeps the first live slot of a; only a lone node may move it, to slot 0. */
  predicate KeepsFirst(a: Node, b: Node) {
    && b.id == a.id && Connected(a) && Connected(b)
    && (FirstAlive(b.succs) == FirstAlive(a.succs) || (FirstAlive(b.succs) == 0 && First(b) == b.id))
  }

  lemma SlotLookupStays(members: set<Id>, n: Id, a: Node, b: Node, k: nat, target: Id)
    requires SlotLookup(members, n, a, k, target) && a.id == n
    requires KeepsFirst(a, b) && IsNext(members, n, First(b))
    ensures SlotLookup(members, n, b, k, target)
  {
    if FirstAlive(b.succs) != FirstAlive(a.succs) {
      NthAlone(members, n, k - FirstAlive(a.succs));
      NthAlone(members, n, k);
    }
  }

  // ---------------------------------------------------------------- kept by every step

  lemma SteadyUpdate(s: Net, n: Id, node: Node)
    requires Steady(s) && n in s.nodes && SteadyNode(s.nodes.Keys, n, node) && KeepsFirst(s.nodes[n], node)
    ensures Steady(SetNode(s, n, node))
  {
    var s' := SetNode(s, n, node);
    assert s'.nodes.Keys == s.nodes.Keys;
    forall k {:trigger SteadyNode(s'.nodes.Keys, k, s'.nodes[k])} | k in s'.nodes
      ensures SteadyNode(s'.nodes.Keys, k, s'.nodes[k]) {
      assert k != n ==> SteadyNode(s.nodes.Keys, k, s.nodes[k]);
    }
    forall m {:trigger TrueMsg(s'.nodes, m)} | m in s'.msgs ensures TrueMsg(s'.nodes, m) {
      TrueMsgStays(s.nodes, n, node, m);
    }
  }

  lemma TrueMsgStays(nodes: Nodes, n: Id, node: Node, m: Msg)
    requires n in nodes && SteadyNode(nodes.Keys, n, node) && KeepsFirst(nodes[n], node) && TrueMsg(nodes, m)
    ensures TrueMsg(nodes[n := node], m)
  {
    assert nodes[n := node].Keys == nodes.Keys;
    if (m.LookupAt? || m.Found?) && m.why.ForSlot? && m.why.who == n {
      SlotLookupStays(nodes.Keys, n, nodes[n], node, m.why.slot, m.target);
    }
  }

  lemma SteadySend(s: Net, m: Msg)
    requires Steady(s) && TrueMsg(s.nodes, m)
    ensures Steady(Send(s, m))
  {
  }

  lemma SteadyTake(s: Net, m: Msg)
    requires Steady(s)
    ensures Steady(Take(s, m))
  {
  }

  /** Answers are right whatever the fingers hold. */
  lemma TrueOutcome(s: Net, n: Id, x: Id)
    requires Steady(s) && n in s.nodes
    ensures Up(s, n)
    ensures FindSuccessor(s.nodes[n], x, s.useFingers).Answer? ==>
              IsFirstAtOrAfter(s.nodes.Keys, x, FindSuccessor(s.nodes[n], x, s.useFingers).found)
  {
    assert SteadyNode(s.nodes.Keys, n, s.nodes[n]);
    if FindSuccessor(s.nodes[n], x, s.useFingers).Answer? {
      IdealRing.AnswerIsFirst(s.nodes.Keys, s.nodes[n], x, s.useFingers);
    }
  }

  lemma SteadyServe(s: Net, at: Id, target: Id, why: Purpose)
    requires Steady(s) && Up(s, at) && TruePurpose(s.nodes, target, why)
    ensures Steady(Serve(s, at, target, why))
  {
    TrueOutcome(s, at, target);
    match FindSuccessor(s.nodes[at], target, s.useFingers)
    case Answer(f) => SteadySend(s, Found(f, target, why));
    case Forward(n) => SteadySend(s, LookupAt(n, target, why));
  }

  /** How many steps clockwise slot j should be when the first live slot is base. */
  function Place(base: nat, j: nat): nat {
    if j <= base then 1 else j - base + 1
  }

  /** Slot j is right: it names the member so many steps clockwise. */
  ghost predicate SlotRight(members: set<Id>, node: Node, base: nat, j: nat) {
    j < NUM_OF_SUCCS && node.id in members && node.succs[j] == Some(Nth(members, node.id, Place(base, j)))
  }

  /** From slot base on the list names the members after the node, one after the other. */
  ghost predicate ListFrom(members: set<Id>, node: Node, base: nat) {
    forall j: nat {:trigger SlotRight(members, node, base, j)} ::
      base <= j < NUM_OF_SUCCS ==> SlotRight(members, node, base, j)
  }

  /** The list is right from its first live slot on. */
  ghost predicate ListRight(members: set<Id>, node: Node) {
    Connected(node) && ListFrom(members, node, FirstAlive(node.succs))
  }

  /** With slot 0 live: slot j names the (j+1)-th member clockwise, for all 8. */
  lemma FullListRight(members: set<Id>, node: Node, j: nat)
    requires ListRight(members, node) && node.succs[0].Some? && j < NUM_OF_SUCCS
    ensures node.id in members && node.succs[j] == Some(Nth(members, node.id, j + 1))
  {
    assert SlotRight(members, node, 0, j);
  }

  /** base is the first live slot of the node, or was until the node, alone, took itself as slot 0. */
  predicate BasedAt(node: Node, base: nat) {
    Connected(node) && (FirstAlive(node.succs) == base || (FirstAlive(node.succs) == 0 && First(node) == node.id))
  }

  lemma FoundIsNth(members: set<Id>, n: Id, k: nat, found: Id)
    requires n in members && IsFirstAtOrAfter(members, Plus(Nth(members, n, k), 1), found)
    ensures found == Nth(members, n, k + 1)
  {
    FirstAfterPlusOne(members, Nth(members, n, k), found);
    NextIsUnique(members, Nth(members, n, k), found);
  }

  lemma FirstSlotIsRight(members: set<Id>, node: Node)
    requires SteadyNode(members, node.id, node)
    ensures SlotRight(members, node, FirstAlive(node.succs), FirstAlive(node.succs))
  {
    NextIsUnique(members, node.id, First(node));
    assert Nth(members, node.id, 0) == node.id;
  }

  lemma SteadyAsk(s: Net, n: Id, k: nat)
    requires Steady(s) && n in s.nodes && Connected(s.nodes[n])
    requires FirstAlive(s.nodes[n].succs) <= k && k + 1 < NUM_OF_SUCCS
    requires SlotRight(s.nodes.Keys, s.nodes[n], FirstAlive(s.nodes[n].succs), k)
    ensures Steady(AskForSlot(s, n, k))
  {
    assert SteadyNode(s.nodes.Keys, n, s.nodes[n]);
    var v := s.nodes[n].succs[k].value;
    assert SlotLookup(s.nodes.Keys, n, s.nodes[n], k + 1, Plus(v, 1));
    SteadySend(s, LookupAt(v, Plus(v, 1), ForSlot(n, k + 1)));
  }

  lemma FingerIsRight(members: set<Id>, node: Node, i: nat, found: Id)
    requires SteadyNode(members, node.id, node) && 1 <= i < ID_BITS
    requires IsFirstAtOrAfter(members, FingerTarget(node.id, i), found)
    ensures SteadyNode(members, node.id, FingerUpdate(node, i, found)) && KeepsFirst(node, FingerUpdate(node, i, found))
    ensures IdealRing.FingerRight(members, FingerUpdate(node, i, found), i)
  {
  }

  lemma StoredKeepsFirst(members: set<Id>, node: Node, k: nat, found: Id)
    requires SteadyNode(members, node.id, node) && FirstAlive(node.succs) < k < NUM_OF_SUCCS && found in members
    ensures SteadyNode(members, node.id, UpdateSuccsFound(node, k, found))
    ensures FirstAlive(UpdateSuccsFound(node, k, found).succs) == FirstAlive(node.succs)
    ensures First(UpdateSuccsFound(node, k, found)) == First(node)
  {
    LaterSlotKeepsFirst(node.succs, 0, k, Some(found));
  }

  /** What is stored in slot k is right, seen from any base the node has. */
  lemma SlotIsRight(members: set<Id>, base: nat, node: Node, k: nat, target: Id, found: Id)
    requires SteadyNode(members, node.id, node) && SlotLookup(members, node.id, node, k, target)
    requires IsFirstAtOrAfter(members, target, found) && BasedAt(node, base)
    ensures SlotRight(members, UpdateSuccsFound(node, k, found), base, k)
  {
    FoundIsNth(members, node.id, k - FirstAlive(node.succs), found);
    if First(node) == node.id {
      NthAlone(members, node.id, k - FirstAlive(node.succs) + 1);
      NthAlone(members, node.id, Place(base, k));
    }
  }

  lemma SteadyFound(s: Net, m: Msg)
    requires Steady(s) && Enabled(s, DeliverFound(m))
    ensures Steady(Apply(s, DeliverFound(m)))
  {
    assert TrueMsg(s.nodes, m);
    var s1, n := Take(s, m), m.why.who;
    SteadyTake(s, m);
    assert SteadyNode(s.nodes.Keys, n, s.nodes[n]);
    match m.why {
      case ForFinger(_, i) =>
        FingerIsRight(s.nodes.Keys, s.nodes[n], i, m.found);
        SteadyUpdate(s1, n, FingerUpdate(s.nodes[n], i, m.found));
      case ForSlot(_, k) =>
        StoredKeepsFirst(s.nodes.Keys, s.nodes[n], k, m.found);
        SlotIsRight(s.nodes.Keys, FirstAlive(s.nodes[n].succs), s.nodes[n], k, m.target, m.found);
        var node := UpdateSuccsFound(s.nodes[n], k, m.found);
        SteadyUpdate(s1, n, node);
        if k + 1 < NUM_OF_SUCCS {
          assert SetNode(s1, n, node).nodes.Keys == s.nodes.Keys;
          SteadyAsk(SetNode(s1, n, node), n, k);
        }
    }
  }

  /** The stabilise reply on an ideal ring is the node itself. It changes nothing, except that a lone
      node whose slot 0 is empty takes itself there. */
  lemma OwnReply(members: set<Id>, node: Node)
    requires SteadyNode(members, node.id, node)
    ensures var node' := StabilizeSpFound(node, Some(node.id));
            && SteadyNode(members, node.id, node') && KeepsFirst(node, node') && First(node') == First(node)
            && (node' == node || (First(node) == node.id && node' == node.(succs := node.succs[0 := Some(node.id)])))
            && (node.succs[0].Some? ==> node' == node)
  {
    var node' := StabilizeSpFound(node, Some(node.id));
    if First(node) != node.id || node.succs[0].Some? {
      assert node'.succs == node.succs;
    }
  }

  /** Nor does a notify from the previous member. */
  lemma NotifyChangesNothing(members: set<Id>, node: Node, f: Id)
    requires SteadyNode(members, node.id, node) && f in members && IsNext(members, f, node.id)
    ensures node.pred == Some(f) && Notified(node, f) == node
  {
    PrevOfNext(members, f, node.id);
    PrevIsUnique(members, node.id, f, node.pred.value);
  }

  lemma SteadyReply(s: Net, m: Msg)
    requires Steady(s) && Enabled(s, DeliverPredRep(m))
    ensures m.pred == Some(m.to) && Apply(s, DeliverPredRep(m)).nodes.Keys == s.nodes.Keys
    ensures Steady(Apply(s, DeliverPredRep(m)))
  {
    assert TrueMsg(s.nodes, m);
    assert SteadyNode(s.nodes.Keys, m.to, s.nodes[m.to]);
    OwnReply(s.nodes.Keys, s.nodes[m.to]);
    var node := StabilizeSpFound(s.nodes[m.to], m.pred);
    SteadyTake(s, m);
    SteadyUpdate(Take(s, m), m.to, node);
    assert SetNode(Take(s, m), m.to, node).nodes.Keys == s.nodes.Keys;
    SteadySend(SetNode(Take(s, m), m.to, node), Notify(m.to, First(node)));
  }

  lemma SteadyStabilise(s: Net, step: Step)
    requires Steady(s) && Enabled(s, step)
    requires step.StartStabilise? || step.AnswerPred? || step.DeliverNotify?
    ensures Steady(Apply(s, step)) && Apply(s, step).nodes == s.nodes
  {
    match step
    case StartStabilise(n) =>
      assert SteadyNode(s.nodes.Keys, n, s.nodes[n]);
      SteadySend(s, PredReq(n, First(s.nodes[n])));
    case AnswerPred(m) =>
      assert TrueMsg(s.nodes, m);
      assert SteadyNode(s.nodes.Keys, m.asked, s.nodes[m.asked]);
      NotifyChangesNothing(s.nodes.Keys, s.nodes[m.asked], m.from);
      SteadyTake(s, m);
      SteadySend(Take(s, m), PredRep(m.from, m.asked, s.nodes[m.asked].pred));
    case DeliverNotify(m) =>
      assert TrueMsg(s.nodes, m);
      assert SteadyNode(s.nodes.Keys, m.to, s.nodes[m.to]);
      NotifyChangesNothing(s.nodes.Keys, s.nodes[m.to], m.from);
      assert s.nodes[m.to := s.nodes[m.to]] == s.nodes;
      SteadyTake(s, m);
  }

  /** Probes of members succeed, and change nothing. */
  lemma SteadyCheck(s: Net, step: Step)
    requires Steady(s) && Enabled(s, step) && (step.CheckSucc? || step.CheckPred? || step.ProbeDone?)
    ensures Steady(Apply(s, step)) && Apply(s, step).nodes == s.nodes
  {
    match step
    case CheckSucc(n, k) =>
      assert SteadyNode(s.nodes.Keys, n, s.nodes[n]);
      SteadySend(s, Probe(n, Some(k), s.nodes[n].succs[k].value));
    case CheckPred(n) =>
      assert SteadyNode(s.nodes.Keys, n, s.nodes[n]);
      SteadySend(s, Probe(n, None, s.nodes[n].pred.value));
    case ProbeDone(m) =>
      assert TrueMsg(s.nodes, m);
      assert s.nodes[m.from := s.nodes[m.from]] == s.nodes;
      SteadyTake(s, m);
  }

  lemma SteadyFix(s: Net, n: Id, i: nat)
    requires Steady(s) && Enabled(s, FixFinger(n, i))
    ensures Steady(Apply(s, FixFinger(n, i)))
  {
    var x := FingerTarget(n, i);
    TrueOutcome(s, n, x);
    assert SteadyNode(s.nodes.Keys, n, s.nodes[n]);
    match FindSuccessor(s.nodes[n], x, s.useFingers)
    case Answer(f) =>
      FingerIsRight(s.nodes.Keys, s.nodes[n], i, f);
      SteadyUpdate(s, n, FingerUpdate(s.nodes[n], i, f));
    case Forward(to) => SteadySend(s, LookupAt(to, x, ForFinger(n, i)));
  }

  lemma SteadyRelay(s: Net, m: Msg)
    requires Steady(s) && Enabled(s, Relay(m))
    ensures Steady(Apply(s, Relay(m)))
  {
    assert TrueMsg(s.nodes, m);
    SteadyTake(s, m);
    SteadyServe(Take(s, m), m.at, m.target, m.why);
  }

  lemma SteadyStart(s: Net, n: Id)
    requires Steady(s) && Enabled(s, StartUpdate(n))
    ensures Steady(Apply(s, StartUpdate(n)))
  {
    assert SteadyNode(s.nodes.Keys, n, s.nodes[n]);
    FirstSlotIsRight(s.nodes.Keys, s.nodes[n]);
    SteadyAsk(s, n, FirstAlive(s.nodes[n].succs));
  }

  lemma SteadyStep(s: Net, step: Step)
    requires Steady(s) && Enabled(s, step) && Maintains(step)
    ensures Steady(Apply(s, step))
  {
    match step
    case Relay(m) => SteadyRelay(s, m);
    case DeliverFound(m) => SteadyFound(s, m);
    case StartUpdate(n) => SteadyStart(s, n);
    case FixFinger(n, i) => SteadyFix(s, n, i);
    case DeliverPredRep(m) => SteadyReply(s, m);
    case CheckSucc(n, k) => SteadyCheck(s, step);
    case CheckPred(n) => SteadyCheck(s, step);
    case ProbeDone(m) => SteadyCheck(s, step);
    case _ => SteadyStabilise(s, step);
  }

  lemma FoundKeepsMembers(s: Net, m: Msg)
    requires Enabled(s, DeliverFound(m)) && !m.why.ForJoin?
    ensures Apply(s, DeliverFound(m)).nodes.Keys == s.nodes.Keys
  {
    assert m.why.who in s.nodes;
  }

  lemma FixKeepsMembers(s: Net, n: Id, i: nat)
    requires Enabled(s, FixFinger(n, i))
    ensures Apply(s, FixFinger(n, i)).nodes.Keys == s.nodes.Keys
  {
    assert n in s.nodes;
  }

  /** Nobody comes and nobody goes. */
  lemma SameMembers(s: Net, step: Step)
    requires Steady(s) && Enabled(s, step) && Maintains(step)
    ensures Apply(s, step).nodes.Keys == s.nodes.Keys
  {
    match step
    case DeliverFound(m) =>
      assert TrueMsg(s.nodes, m);
      FoundKeepsMembers(s, m);
    case FixFinger(n, i) => FixKeepsMembers(s, n, i);
    case DeliverPredRep(m) => SteadyReply(s, m);
    case Relay(m) =>
    case StartUpdate(n) =>
    case CheckSucc(n, k) => SteadyCheck(s, step);
    case CheckPred(n) => SteadyCheck(s, step);
    case ProbeDone(m) => SteadyCheck(s, step);
    case _ => SteadyStabilise(s, step);
  }

  lemma {:induction false} SteadyRun(s: Net, steps: seq<Step>)
    requires Steady(s) && CanRun(s, steps) && MaintenanceOnly(steps)
    ensures Steady(Run(s, steps)) && Run(s, steps).nodes.Keys == s.nodes.Keys
    decreases |steps|
  {
    if steps != [] {
      SteadyStep(s, steps[0]);
      SameMembers(s, steps[0]);
      SteadyRun(Apply(s, steps[0]), steps[1..]);
    }
  }

  // ---------------------------------------------------------------- only right values are written

  /** b is a with some slots and fingers rewritten, all of them right, and none below the first live
      slot unless the node is alone. */
  ghost predicate RightWrite(members: set<Id>, base: nat, a: Node, b: Node) {
    && b.id == a.id && b.pred == a.pred && BasedAt(a, base) && BasedAt(b, base)
    && (forall j: nat :: j < NUM_OF_SUCCS ==>
          b.succs[j] == a.succs[j] || (SlotRight(members, b, base, j) && (j >= base || First(a) == a.id)))
    && (forall i :: 1 <= i < ID_BITS ==> b.fingers[i] == a.fingers[i] || IdealRing.FingerRight(members, b, i))
    && b.fingers[0] == a.fingers[0]
  }

  lemma SameIsRightWrite(members: set<Id>, base: nat, a: Node)
    requires BasedAt(a, base)
    ensures RightWrite(members, base, a, a)
  {
  }

  lemma FixWritesRight(s: Net, n: Id, i: nat, base: nat)
    requires Steady(s) && Enabled(s, FixFinger(n, i)) && BasedAt(s.nodes[n], base)
    ensures RightWrite(s.nodes.Keys, base, s.nodes[n], Apply(s, FixFinger(n, i)).nodes[n])
  {
    var x := FingerTarget(n, i);
    TrueOutcome(s, n, x);
    assert SteadyNode(s.nodes.Keys, n, s.nodes[n]);
    var outcome := FindSuccessor(s.nodes[n], x, s.useFingers);
    SameIsRightWrite(s.nodes.Keys, base, s.nodes[n]);
    if outcome.Answer? {
      FingerWriteIsRight(s.nodes.Keys, base, s.nodes[n], i, outcome.found);
    }
  }

  lemma ReplyWritesRight(s: Net, m: Msg, base: nat)
    requires Steady(s) && Enabled(s, DeliverPredRep(m)) && BasedAt(s.nodes[m.to], base)
    ensures RightWrite(s.nodes.Keys, base, s.nodes[m.to], Apply(s, DeliverPredRep(m)).nodes[m.to])
  {
    var node := s.nodes[m.to];
    SteadyReply(s, m);
    assert SteadyNode(s.nodes.Keys, m.to, node);
    OwnReply(s.nodes.Keys, node);
    SameIsRightWrite(s.nodes.Keys, base, node);
    if First(node) == m.to {
      NthAlone(s.nodes.Keys, m.to, Place(base, 0));
    }
  }

  /** The member whose tables the step may write to. */
  function Writer(step: Step): Option<Id> {
    match step
    case DeliverFound(m) => if m.LookupAt? || m.Found? then Some(m.why.who) else None
    case FixFinger(n, _) => Some(n)
    case DeliverPredRep(m) => if m.PredRep? then Some(m.to) else None
    case _ => None
  }

  lemma FoundWritesOne(s: Net, m: Msg, n: Id)
    requires Steady(s) && Enabled(s, DeliverFound(m)) && n in s.nodes && m.why.who != n
    ensures n in Apply(s, DeliverFound(m)).nodes && Apply(s, DeliverFound(m)).nodes[n] == s.nodes[n]
  {
    assert TrueMsg(s.nodes, m);
  }

  lemma OthersStay(s: Net, step: Step, n: Id)
    requires Steady(s) && Enabled(s, step) && Maintains(step) && n in s.nodes && Writer(step) != Some(n)
    ensures n in Apply(s, step).nodes && Apply(s, step).nodes[n] == s.nodes[n]
  {
    match step
    case DeliverFound(m) => FoundWritesOne(s, m, n);
    case FixFinger(k, i) =>
    case DeliverPredRep(m) =>
    case Relay(m) =>
    case StartUpdate(k) =>
    case CheckSucc(k, _) => SteadyCheck(s, step);
    case CheckPred(k) => SteadyCheck(s, step);
    case ProbeDone(m) => SteadyCheck(s, step);
    case _ => SteadyStabilise(s, step);
  }

  /** Whatever a step writes into a list or a finger table is right. */
  lemma StepWritesRight(s: Net, step: Step, n: Id, base: nat)
    requires Steady(s) && Enabled(s, step) && Maintains(step) && n in s.nodes && BasedAt(s.nodes[n], base)
    ensures n in Apply(s, step).nodes && RightWrite(s.nodes.Keys, base, s.nodes[n], Apply(s, step).nodes[n])
  {
    SameMembers(s, step);
    if Writer(step) != Some(n) {
      OthersStay(s, step, n);
      SameIsRightWrite(s.nodes.Keys, base, s.nodes[n]);
    } else {
      match step {
        case DeliverFound(m) => FoundWritesRight(s, m, base);
        case FixFinger(_, i) => FixWritesRight(s, n, i, base);
        case DeliverPredRep(m) => ReplyWritesRight(s, m, base);
      }
    }
  }

  lemma SlotWriteIsRight(members: set<Id>, base: nat, node: Node, k: nat, target: Id, found: Id)
    requires SteadyNode(members, node.id, node) && BasedAt(node, base)
    requires SlotLookup(members, node.id, node, k, target) && IsFirstAtOrAfter(members, target, found)
    ensures RightWrite(members, base, node, UpdateSuccsFound(node, k, found))
  {
    StoredKeepsFirst(members, node, k, found);
    SlotIsRight(members, base, node, k, target, found);
  }

  lemma FingerWriteIsRight(members: set<Id>, base: nat, node: Node, i: nat, found: Id)
    requires SteadyNode(members, node.id, node) && 1 <= i < ID_BITS && BasedAt(node, base)
    requires IsFirstAtOrAfter(members, FingerTarget(node.id, i), found)
    ensures RightWrite(members, base, node, FingerUpdate(node, i, found))
  {
    FingerIsRight(members, node, i, found);
  }

  lemma FoundWritesRight(s: Net, m: Msg, base: nat)
    requires Steady(s) && Enabled(s, DeliverFound(m)) && BasedAt(s.nodes[m.why.who], base)
    ensures RightWrite(s.nodes.Keys, base, s.nodes[m.why.who], Apply(s, DeliverFound(m)).nodes[m.why.who])
  {
    var n := m.why.who;
    assert TrueMsg(s.nodes, m);
    assert SteadyNode(s.nodes.Keys, n, s.nodes[n]);
    match m.why
    case ForSlot(_, k) => SlotWriteIsRight(s.nodes.Keys, base, s.nodes[n], k, m.target, m.found);
    case ForFinger(_, i) => FingerWriteIsRight(s.nodes.Keys, base, s.nodes[n], i, m.found);
  }

  lemma RightIsUnique(members: set<Id>, a: Node, b: Node, i: nat)
    requires 1 <= i < ID_BITS && a.id == b.id && IdealRing.FingerRight(members, a, i)
    requires IdealRing.FingerRight(members, b, i)
    ensures a.fingers[i] == b.fingers[i]
  {
    var x := FingerTarget(a.id, i);
    var f := if a.fingers[i].Some? then a.fingers[i].value else a.id;
    var h := if b.fingers[i].Some? then b.fingers[i].value else b.id;
    FirstIsUnique(members, x, f, h);
  }

  /** Nothing is left to write: list and fingers are right, and a lone node has itself in slot 0. */
  ghost predicate NodeRight(members: set<Id>, node: Node) {
    && ListRight(members, node) && IdealRing.FingersRight(members, node)
    && (First(node) == node.id ==> node.succs[0].Some?)
  }

  /** A node that is right already is left exactly as it is. */
  lemma RightStays(members: set<Id>, a: Node, b: Node)
    requires NodeRight(members, a) && RightWrite(members, FirstAlive(a.succs), a, b)
    ensures b == a
  {
    var base := FirstAlive(a.succs);
    forall j: nat | j < NUM_OF_SUCCS ensures b.succs[j] == a.succs[j] {
      if j >= base {
        assert SlotRight(members, a, base, j);
      }
    }
    forall i: nat | i < ID_BITS ensures b.fingers[i] == a.fingers[i] {
      if i >= 1 {
        assert IdealRing.FingerRight(members, a, i);
        if b.fingers[i] != a.fingers[i] {
          RightIsUnique(members, a, b, i);
        }
      }
    }
    assert b.succs == a.succs && b.fingers == a.fingers;
  }

  ghost predicate AllRight(nodes: Nodes) {
    forall n {:trigger NodeRight(nodes.Keys, nodes[n])} :: n in nodes ==> NodeRight(nodes.Keys, nodes[n])
  }

  /** The ideal ring with correct successor lists and fingers is a fixed point of all maintenance
      activities, whatever is interleaved with what. */
  lemma {:induction false} FixedPoint(s: Net, steps: seq<Step>)
    requires Steady(s) && AllRight(s.nodes)
    requires CanRun(s, steps) && MaintenanceOnly(steps)
    ensures Run(s, steps).nodes == s.nodes && Steady(Run(s, steps))
    decreases |steps|
  {
    if steps != [] {
      var s' := Apply(s, steps[0]);
      SteadyStep(s, steps[0]);
      SameMembers(s, steps[0]);
      forall n | n in s.nodes ensures s'.nodes[n] == s.nodes[n] {
        assert NodeRight(s.nodes.Keys, s.nodes[n]);
        StepWritesRight(s, steps[0], n, FirstAlive(s.nodes[n].succs));
        RightStays(s.nodes.Keys, s.nodes[n], s'.nodes[n]);
      }
      assert s'.nodes == s.nodes;
      FixedPoint(s', steps[1..]);
    }
  }
}
