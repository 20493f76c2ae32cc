/** One node's routing state as a value, and what each callback of src/node.c does to it.
    A slot is None where the source has IP == 0. Members are named by their id alone. */
module LocalNode {
  import opened Ids

  datatype Option<+T> = None | Some(value: T)

  const NUM_OF_SUCCS: nat := 8
  const ID_BITS: nat := 32

  const NO_SUCCS: seq<Option<Id>> := [None, None, None, None, None, None, None, None]
  const NO_FINGERS: seq<Option<Id>> := NO_SUCCS + NO_SUCCS + NO_SUCCS + NO_SUCCS

  type SuccList = s: seq<Option<Id>> | |s| == NUM_OF_SUCCS witness NO_SUCCS
  type FingerTable = s: seq<Option<Id>> | |s| == ID_BITS witness NO_FINGERS

  datatype Node = Node(id: Id, succs: SuccList, pred: Option<Id>, fingers: FingerTable)

  // ---------------------------------------------------------------- successor list

  /** node_first_alive_succ: the lowest live slot, or -1. */
  function FirstAlive(s: seq<Option<Id>>): int {
    FirstAliveFrom(s, 0)
  }

  function FirstAliveFrom(s: seq<Option<Id>>, i: nat): (k: int)
    requires i <= |s|
    ensures k == -1 || i <= k < |s|
    ensures k >= 0 ==> s[k].Some?
    decreases |s| - i
  {
    if i == |s| then -1 else if s[i].Some? then i else FirstAliveFrom(s, i + 1)
  }

  lemma {:induction false} FirstAliveIsLowest(s: seq<Option<Id>>, i: nat)
    requires i <= |s|
    ensures forall j :: i <= j < |s| && (FirstAliveFrom(s, i) == -1 || j < FirstAliveFrom(s, i)) ==> s[j].None?
    decreases |s| - i
  {
    if i < |s| && s[i].None? {
      FirstAliveIsLowest(s, i + 1);
    }
  }

  /** Some successor slot is live. Without one the source indexes slot -1. */
  predicate Connected(n: Node) {
    FirstAlive(n.succs) >= 0
  }

  function First(n: Node): Id
    requires Connected(n)
  {
    n.succs[FirstAlive(n.succs)].value
  }

  // ---------------------------------------------------------------- lookup

  /** What a node does with a lookup: answer it, or pass it on. */
  datatype Outcome = Answer(found: Id) | Forward(to: Id)

  /** Finger i may carry a lookup for x. An id of 0 counts as an empty entry. */
  predicate Qualifies(n: Node, x: Id, i: nat)
    requires i < ID_BITS
  {
    n.fingers[i].Some? && n.fingers[i].value != 0 && InRange(n.fingers[i].value, n.id, x)
  }

  /** The downward scan of node_closest_preceding_node over fingers i, ..., 1. */
  function ClosestFinger(n: Node, x: Id, i: nat): Option<Id>
    requires i < ID_BITS
  {
    if i == 0 then None
    else if Qualifies(n, x, i) then n.fingers[i]
    else ClosestFinger(n, x, i - 1)
  }

  lemma {:induction false} ClosestFingerIsHighest(n: Node, x: Id, i: nat) returns (j: nat)
    requires i < ID_BITS
    ensures j <= i
    ensures j > 0 ==> Qualifies(n, x, j) && ClosestFinger(n, x, i) == n.fingers[j]
    ensures j == 0 ==> ClosestFinger(n, x, i) == None
    ensures forall k :: j < k <= i ==> !Qualifies(n, x, k)
  {
    if i == 0 || Qualifies(n, x, i) {
      j := i;
    } else {
      j := ClosestFingerIsHighest(n, x, i - 1);
    }
  }

  /** node_closest_preceding_node. useFingers is false in the NOFINGER build. */
  function ClosestPreceding(n: Node, x: Id, useFingers: bool): Id
    requires Connected(n)
  {
    var f := if useFingers then ClosestFinger(n, x, ID_BITS - 1) else None;
    if f.Some? then f.value else First(n)
  }

  /** node_find_successor, with the case of the node's own id exclusive of the rest
      (NodeSelf.FindSuccessor has the source's fall-through). */
  function FindSuccessor(n: Node, x: Id, useFingers: bool): Outcome
    requires Connected(n)
  {
    if n.id == x then Answer(n.id)
    else if InRange(x, n.id, First(n)) || n.id == First(n) then Answer(First(n))
    else Forward(ClosestPreceding(n, x, useFingers))
  }

  /** No finger names its owner: finger_update stores an empty entry instead. */
  ghost predicate NoSelfFinger(n: Node) {
    forall i :: 0 <= i < ID_BITS ==> n.fingers[i] != Some(n.id)
  }

  /** Every forward brings the lookup strictly closer to the wanted id, and never past it. */
  lemma ForwardGetsCloser(n: Node, x: Id, useFingers: bool)
    requires Connected(n) && NoSelfFinger(n)
    requires FindSuccessor(n, x, useFingers).Forward?
    ensures var f := FindSuccessor(n, x, useFingers).to;
            f != n.id && Dist(f, x) < Dist(n.id, x) && (Some(f) in n.fingers || f == First(n))
  {
    var j := ClosestFingerIsHighest(n, x, ID_BITS - 1);
  }

  /** A lookup of n.id + 1 asked of n is always answered by n, with its first live successor. */
  lemma NextIdIsAnsweredHere(n: Node, useFingers: bool)
    requires Connected(n)
    ensures FindSuccessor(n, Plus(n.id, 1), useFingers) == Answer(First(n))
  {
  }

  // ---------------------------------------------------------------- create, join

  /** node_network_create */
  function Created(id: Id): Node {
    Node(id, NO_SUCCS[0 := Some(id)], Some(id), NO_FINGERS)
  }

  /** node_network_join followed by node_network_join_succ_found */
  function Joined(id: Id, succ: Id): Node {
    Node(id, NO_SUCCS[0 := Some(succ)], None, NO_FINGERS)
  }

  // ---------------------------------------------------------------- stabilise, notify

  /** The guard of node_stabilize_sp_found: n points at itself, or p comes after n and no
      later than its successor. */
  predicate AdoptsSuccessor(n: Node, p: Id)
    requires Connected(n)
    ensures AdoptsSuccessor(n, p) <==>
            First(n) == n.id || (p != n.id && Dist(n.id, p) <= Dist(n.id, First(n)))
  {
    n.id == First(n) || InRange(p, Plus(n.id, 1), First(n))
  }

  /** node_stabilize_sp_found: reply is the asked node's predecessor, None if it has none. */
  function StabilizeSpFound(n: Node, reply: Option<Id>): Node
    requires Connected(n)
  {
    if reply.Some? && AdoptsSuccessor(n, reply.value) then n.(succs := n.succs[0 := reply]) else n
  }

  /** The guard of node_notified. */
  predicate AcceptsPredecessor(n: Node, f: Id) {
    n.pred.None? || InRange(f, n.pred.value, n.id) || n.pred.value == n.id
  }

  /** node_notified */
  function Notified(n: Node, f: Id): Node {
    if AcceptsPredecessor(n, f) then n.(pred := Some(f)) else n
  }

  // ---------------------------------------------------------------- successor list, fingers, checks

  /** node_update_succs_found */
  function UpdateSuccsFound(n: Node, k: nat, found: Id): Node
    requires k < NUM_OF_SUCCS
  {
    n.(succs := n.succs[k := Some(found)])
  }

  /** node_update_succs writes the first reply to the slot after the first live one. That slot exists
      exactly when some slot before the last is live; the source does not check. */
  lemma ChainStaysInList(n: Node)
    requires Connected(n)
    ensures FirstAlive(n.succs) + 1 < NUM_OF_SUCCS <==>
            exists j :: 0 <= j < NUM_OF_SUCCS - 1 && n.succs[j].Some?
  {
    FirstAliveIsLowest(n.succs, 0);
  }

  /** With only the last slot live the chain would write past the list. */
  lemma ChainCanOverrun()
    ensures var n := Node(5, NO_SUCCS[7 := Some(9)], None, NO_FINGERS);
            Connected(n) && FirstAlive(n.succs) + 1 == NUM_OF_SUCCS
  {
    FirstAliveIsLowest(NO_SUCCS[7 := Some(9)], 0);
    assert NO_SUCCS[7 := Some(9)][7].Some?;
  }

  /** The id finger i stands for (node_fix_a_finger): self + 2^(i-1), in 32 bits. */
  function FingerTarget(id: Id, i: nat): Id
    requires 1 <= i < ID_BITS
  {
    Plus(id, TwoToTheN(i - 1))
  }

  /** finger_update */
  function FingerUpdate(n: Node, i: nat, found: Id): Node
    requires i < ID_BITS
  {
    n.(fingers := n.fingers[i := if found == n.id then None else Some(found)])
  }

  /** node_check_succ_result */
  function CheckSuccResult(n: Node, k: nat, success: bool): Node
    requires k < NUM_OF_SUCCS
  {
    if success then n else n.(succs := n.succs[k := None])
  }

  /** node_check_pred_result */
  function CheckPredResult(n: Node, success: bool): Node {
    if success then n else n.(pred := None)
  }

  // ---------------------------------------------------------------- what each callback writes, field by field

  /** What a node does with a lookup, in distances: it answers its own id with itself, an id up to its first
      live successor with that, and passes on any other. */
  lemma ServesByDistance(n: Node, x: Id, useFingers: bool)
    requires Connected(n)
    ensures var outcome := FindSuccessor(n, x, useFingers);
            var near := Dist(n.id, x) <= Dist(n.id, First(n)) || First(n) == n.id;
            && (x == n.id ==> outcome == Answer(n.id))
            && (x != n.id && near ==> outcome == Answer(First(n)))
            && (x != n.id && !near ==> outcome == Forward(ClosestPreceding(n, x, useFingers)))
  {
  }

  /** The node a lookup is passed on to: the highest finger that is live, not of id 0 and not past x, and
      without one, or in the NOFINGER build, the first live successor. */
  lemma PassesOnTo(n: Node, x: Id, useFingers: bool) returns (j: nat)
    requires Connected(n)
    ensures j < ID_BITS && (j > 0 ==> useFingers)
    ensures j > 0 ==> n.fingers[j].Some? && n.fingers[j].value != 0 && Dist(n.id, n.fingers[j].value) <= Dist(n.id, x)
    ensures ClosestPreceding(n, x, useFingers) == if j > 0 then n.fingers[j].value else First(n)
    ensures useFingers ==>
              forall k :: j < k < ID_BITS && n.fingers[k].Some? && n.fingers[k].value != 0 ==>
                Dist(n.id, n.fingers[k].value) > Dist(n.id, x)
  {
    j := 0;
    if useFingers {
      j := ClosestFingerIsHighest(n, x, ID_BITS - 1);
      forall k | j < k < ID_BITS && n.fingers[k].Some? && n.fingers[k].value != 0
        ensures Dist(n.id, n.fingers[k].value) > Dist(n.id, x) {
        assert !Qualifies(n, x, k);
      }
    }
  }

  /** Adopting a successor writes slot 0 and nothing else, and happens exactly when the node points at itself
      or the reported node comes after it and no later than its successor. */
  lemma StabiliseWrites(n: Node, reply: Option<Id>)
    requires Connected(n)
    ensures var n' := StabilizeSpFound(n, reply);
            && n'.id == n.id && n'.pred == n.pred && n'.fingers == n.fingers
            && (forall j :: 1 <= j < NUM_OF_SUCCS ==> n'.succs[j] == n.succs[j])
            && n'.succs[0] == if reply.Some? && (First(n) == n.id ||
                                 (reply.value != n.id && Dist(n.id, reply.value) <= Dist(n.id, First(n))))
                              then reply else n.succs[0]
  {
  }

  /** A notify writes the predecessor and nothing else, and does exactly when none is known, or the node knows
      itself, or the notifier comes no earlier than the one known. */
  lemma NotifiedWrites(n: Node, f: Id)
    ensures var n' := Notified(n, f);
            && n'.id == n.id && n'.succs == n.succs && n'.fingers == n.fingers
            && n'.pred == match n.pred
                          case None => Some(f)
                          case Some(p) => if p == n.id || Dist(p, f) <= Dist(p, n.id) then Some(f) else Some(p)
  {
  }

  /** The chain writes its slot and nothing else. */
  lemma SlotWrites(n: Node, k: nat, found: Id)
    requires k < NUM_OF_SUCCS
    ensures var n' := UpdateSuccsFound(n, k, found);
            && n'.id == n.id && n'.pred == n.pred && n'.fingers == n.fingers
            && forall j :: 0 <= j < NUM_OF_SUCCS ==> n'.succs[j] == if j == k then Some(found) else n.succs[j]
  {
  }

  /** So does the answer for a finger, emptied when it is the node itself. */
  lemma FingerWrites(n: Node, i: nat, found: Id)
    requires i < ID_BITS
    ensures var n' := FingerUpdate(n, i, found);
            && n'.id == n.id && n'.pred == n.pred && n'.succs == n.succs
            && forall j :: 0 <= j < ID_BITS ==>
                 n'.fingers[j] == if j != i then n.fingers[j] else if found == n.id then None else Some(found)
  {
  }

  /** A failed probe empties what it was about, a successful one changes nothing. */
  lemma CheckWrites(n: Node, k: nat, success: bool)
    requires k < NUM_OF_SUCCS
    ensures CheckSuccResult(n, k, true) == n && CheckPredResult(n, true) == n
    ensures var n' := CheckSuccResult(n, k, false);
            && n'.id == n.id && n'.pred == n.pred && n'.fingers == n.fingers
            && forall j :: 0 <= j < NUM_OF_SUCCS ==> n'.succs[j] == if j == k then None else n.succs[j]
    ensures var n' := CheckPredResult(n, false);
            n'.id == n.id && n'.pred == None && n'.succs == n.succs && n'.fingers == n.fingers
  {
  }

  /** A node that starts a network is its own successor and predecessor; one that joins has the successor it
      was given, and knows no predecessor. */
  lemma FreshNodes(id: Id, succ: Id)
    ensures Created(id).id == id && Created(id).pred == Some(id)
    ensures Joined(id, succ).id == id && Joined(id, succ).pred == None
    ensures forall j :: 0 <= j < NUM_OF_SUCCS ==>
              && Created(id).succs[j] == (if j == 0 then Some(id) else None)
              && Joined(id, succ).succs[j] == (if j == 0 then Some(succ) else None)
    ensures forall i :: 0 <= i < ID_BITS ==> Created(id).fingers[i] == None && Joined(id, succ).fingers[i] == None
  {
  }
}
