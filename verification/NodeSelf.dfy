/** struct node_self with the callbacks that work on it in place, each proved against the function on
    values in LocalNode that the network model is built from. */
module NodeSelf {
  import opened Ids
  import opened NodeInfos
  import L = LocalNode

  /** A slot is empty when its IP is 0; a usable finger also needs a port. */
  function Slot(n: NodeInfo): L.Option<Id> {
    if n.ip == 0 then L.None else L.Some(n.id)
  }

  function FingerSlot(n: NodeInfo): L.Option<Id> {
    if n.ip == 0 || n.port == 0 then L.None else L.Some(n.id)
  }

  ghost function Slots(s: seq<NodeInfo>): (r: seq<L.Option<Id>>)
    ensures |r| == |s| && forall i :: 0 <= i < |s| ==> r[i] == Slot(s[i])
  {
    seq(|s|, i requires 0 <= i < |s| => Slot(s[i]))
  }

  ghost function FingerSlots(s: seq<NodeInfo>): (r: seq<L.Option<Id>>)
    ensures |r| == |s| && forall i :: 0 <= i < |s| ==> r[i] == FingerSlot(s[i])
  {
    seq(|s|, i requires 0 <= i < |s| => FingerSlot(s[i]))
  }

  /** A finger lookup that has to be sent to another node. */
  datatype FingerRequest = FingerRequest(index: nat, target: Id, to: Id)

  /** node_fix_a_finger: an answer the node has itself is stored at once, other lookups are sent. */
  function FixOne(n: L.Node, i: nat): (L.Node, seq<FingerRequest>)
    requires L.Connected(n) && 1 <= i < L.ID_BITS
  {
    var x := L.FingerTarget(n.id, i);
    match L.FindSuccessor(n, x, true)
    case Answer(f) => (L.FingerUpdate(n, i, f), [])
    case Forward(to) => (n, [FingerRequest(i, x, to)])
  }

  /** Finger i is looked up for self + 2^(i-1): the node stores the answer it has, or sends that lookup on. */
  lemma FixOneLooksUp(n: L.Node, i: nat)
    requires L.Connected(n) && 1 <= i < L.ID_BITS
    ensures Pow2(i - 1) < RING
    ensures var one, x := FixOne(n, i), Plus(n.id, Pow2(i - 1));
            var outcome := L.FindSuccessor(n, x, true);
            if outcome.Answer? then one.0 == L.FingerUpdate(n, i, outcome.found) && one.1 == []
            else one.0 == n && one.1 == [FingerRequest(i, x, outcome.to)]
  {
    Pow2Of32();
    Pow2Grows(i - 1, 30);
  }

  /** node_fix_fingers from finger i on, each finger looked up in the table the earlier ones left. */
  function FixFrom(n: L.Node, i: nat): (L.Node, seq<FingerRequest>)
    requires L.Connected(n) && 1 <= i <= L.ID_BITS
    decreases L.ID_BITS - i
  {
    if i == L.ID_BITS then (n, [])
    else
      var one := FixOne(n, i);
      var rest := FixFrom(one.0, i + 1);
      (rest.0, one.1 + rest.1)
  }

  /** Finger i is next, asked has been sent so far, and goal is where it ends. */
  ghost predicate FixReaches(n: L.Node, i: nat, asked: seq<FingerRequest>, goal: (L.Node, seq<FingerRequest>))
    requires L.Connected(n) && 1 <= i <= L.ID_BITS
  {
    goal == (FixFrom(n, i).0, asked + FixFrom(n, i).1)
  }

  lemma FixStarts(n: L.Node)
    requires L.Connected(n)
    ensures FixReaches(n, 1, [], FixFrom(n, 1))
  {
    assert [] + FixFrom(n, 1).1 == FixFrom(n, 1).1;
  }

  /** One turn of the loop. */
  lemma FixStep(n: L.Node, i: nat, asked: seq<FingerRequest>, goal: (L.Node, seq<FingerRequest>))
    requires L.Connected(n) && 1 <= i < L.ID_BITS && FixReaches(n, i, asked, goal)
    ensures L.Connected(FixOne(n, i).0) && FixReaches(FixOne(n, i).0, i + 1, asked + FixOne(n, i).1, goal)
  {
    var one := FixOne(n, i);
    var rest := FixFrom(one.0, i + 1);
    assert asked + (one.1 + rest.1) == (asked + one.1) + rest.1;
  }

  lemma FixEnds(n: L.Node, asked: seq<FingerRequest>, goal: (L.Node, seq<FingerRequest>))
    requires L.Connected(n) && FixReaches(n, L.ID_BITS, asked, goal)
    ensures goal == (n, asked)
  {
    assert asked + [] == asked;
  }

  class Self {
    const self: NodeInfo
    const successor: array<NodeInfo>
    const fingerTable: array<NodeInfo>
    var predecessor: NodeInfo
    var hasPred: bool

    ghost predicate Valid()
      reads this, successor, fingerTable
    {
      && Live(self)
      && successor.Length == L.NUM_OF_SUCCS && fingerTable.Length == L.ID_BITS
      && successor != fingerTable
      && (forall i :: 0 <= i < L.NUM_OF_SUCCS ==> WellFormed(successor[i]))
    }

    /** The routing state as a value. */
    ghost function Abs(): L.Node
      reads this, successor, fingerTable
      requires Valid()
    {
      L.Node(self.id, Slots(successor[..]), if hasPred then L.Some(predecessor.id) else L.None,
             FingerSlots(fingerTable[..]))
    }

    /** node_create, with the finger table empty. */
    constructor (info: NodeInfo)
      requires Live(info)
      ensures Valid() && fresh(successor) && fresh(fingerTable) && self == info && !hasPred
      ensures (forall s :: s in successor[..] ==> s == EMPTY) && (forall f :: f in fingerTable[..] ==> f == EMPTY)
      ensures Abs() == L.Node(info.id, L.NO_SUCCS, L.None, L.NO_FINGERS)
    {
      self := info;
      successor := new NodeInfo[L.NUM_OF_SUCCS](i => EMPTY);
      fingerTable := new NodeInfo[L.ID_BITS](i => EMPTY);
      predecessor := EMPTY;
      hasPred := false;
      new;
      assert Slots(successor[..]) == L.NO_SUCCS;
      assert FingerSlots(fingerTable[..]) == L.NO_FINGERS;
    }

    /** node_network_create */
    method NetworkCreate()
      requires Valid()
      modifies this, successor
      ensures Valid()
      ensures successor[..] == old(successor[..])[0 := self] && predecessor == self && hasPred
      ensures Abs() == old(Abs()).(succs := old(Abs()).succs[0 := L.Some(self.id)], pred := L.Some(self.id))
    {
      successor[0] := self;
      predecessor := self;
      hasPred := true;
      assert Slots(successor[..]) == old(Abs()).succs[0 := L.Some(self.id)];
    }

    /** node_network_join up to its request, and node_network_join_succ_found. A lookup that failed gives
        the empty node, which is stored like any other. */
    method JoinSuccFound(succ: NodeInfo)
      requires Valid() && WellFormed(succ)
      modifies this, successor
      ensures Valid()
      ensures successor[..] == old(successor[..])[0 := succ] && !hasPred
      ensures Abs() == old(Abs()).(succs := old(Abs()).succs[0 := Slot(succ)], pred := L.None)
    {
      hasPred := false;
      successor[0] := succ;
      assert Slots(successor[..]) == old(Abs()).succs[0 := Slot(succ)];
    }

    /** node_first_alive_succ */
    method FirstAliveSucc() returns (k: int)
      requires Valid()
      ensures k == L.FirstAlive(Abs().succs)
    {
      for i := 0 to L.NUM_OF_SUCCS
        invariant L.FirstAlive(Abs().succs) == L.FirstAliveFrom(Abs().succs, i)
      {
        if successor[i].ip != 0 {
          return i;
        }
      }
      return -1;
    }

    method FirstLive() returns (n: NodeInfo)
      requires Valid() && L.Connected(Abs())
      ensures n.id == L.First(Abs()) && Live(n) && n == successor[L.FirstAlive(Abs().succs)]
    {
      var k := FirstAliveSucc();
      n := successor[k];
    }

    /** node_closest_preceding_node */
    method ClosestPrecedingNode(id: Id) returns (n: NodeInfo)
      requires Valid() && L.Connected(Abs())
      ensures n.id == L.ClosestPreceding(Abs(), id, true) && Live(n)
      ensures if L.ClosestFinger(Abs(), id, L.ID_BITS - 1).Some? then n in fingerTable[..]
              else n == successor[L.FirstAlive(Abs().succs)]
    {
      var i: nat := L.ID_BITS - 1;
      while i > 0
        invariant i < L.ID_BITS
        invariant L.ClosestFinger(Abs(), id, L.ID_BITS - 1) == L.ClosestFinger(Abs(), id, i)
      {
        n := fingerTable[i];
        assert FingerSlots(fingerTable[..])[i] == FingerSlot(n);
        if n.ip != 0 && n.port != 0 && n.id != 0 && InRange(n.id, self.id, id) {
          return n;
        }
        i := i - 1;
      }
      n := FirstLive();
    }

    /** node_find_successor as written: calls are the nodes given to the callback, one after the other,
        ask the node the lookup is sent to. The branch for the node's own id has no else that holds,
        so for that id the callback is called a second time, with the successor. */
    method FindSuccessor(id: Id) returns (calls: seq<NodeInfo>, ask: L.Option<NodeInfo>)
      requires Valid() && L.Connected(Abs())
      ensures match L.FindSuccessor(Abs(), id, true)
              case Answer(a) => |calls| >= 1 && calls[0].id == a && ask.None?
              case Forward(to) => calls == [] && ask.Some? && ask.value.id == to
      ensures ask.None? ==>
                calls == (if id == self.id then [self] else []) + [successor[L.FirstAlive(Abs().succs)]]
      ensures ask.Some? ==> Live(ask.value)
      ensures ask.Some? ==>
                if L.ClosestFinger(Abs(), id, L.ID_BITS - 1).Some? then ask.value in fingerTable[..]
                else ask.value == successor[L.FirstAlive(Abs().succs)]
      ensures |calls| == 2 <==> id == self.id
    {
      calls, ask := [], L.None;
      if self.id == id {
        calls := calls + [self];
      }
      var succ := FirstLive();
      if InRange(id, self.id, succ.id) || self.id == succ.id {
        calls := calls + [succ];
      } else {
        var n := ClosestPrecedingNode(id);
        ask := L.Some(n);
      }
    }

    /** node_stabilize_sp_found; returns the node that is notified. */
    method StabilizeSpFound(newSucc: NodeInfo) returns (notified: NodeInfo)
      requires Valid() && L.Connected(Abs()) && WellFormed(newSucc)
      modifies successor
      ensures Valid() && Abs() == L.StabilizeSpFound(old(Abs()), Slot(newSucc))
      ensures successor[..] == if Live(newSucc) && L.AdoptsSuccessor(old(Abs()), newSucc.id)
                               then old(successor[..])[0 := newSucc] else old(successor[..])
      ensures notified == successor[L.FirstAlive(Abs().succs)]
    {
      if newSucc.port == 0 && newSucc.ip == 0 {
      } else {
        var succ := FirstLive();
        if self.id == succ.id || InRange(newSucc.id, Plus(self.id, 1), succ.id) {
          successor[0] := newSucc;
          assert Slots(successor[..]) == old(Abs()).succs[0 := Slot(newSucc)];
        }
      }
      notified := FirstLive();
    }

    /** node_notified */
    method Notified(node: NodeInfo)
      requires Valid()
      modifies this
      ensures Valid() && Abs() == L.Notified(old(Abs()), node.id)
      ensures hasPred && predecessor == if L.AcceptsPredecessor(old(Abs()), node.id) then node else old(predecessor)
    {
      if !hasPred || InRange(node.id, predecessor.id, self.id) || predecessor.id == self.id {
        predecessor := node;
        hasPred := true;
      }
    }

    /** node_update_succs_found and the node_update_succ it goes on with: whom to ask next, for which id.
        The empty node of a failed lookup is stored too, and ends the chain. */
    method UpdateSuccsFound(k: nat, found: NodeInfo) returns (ask: L.Option<(NodeInfo, Id)>)
      requires Valid() && k < L.NUM_OF_SUCCS && WellFormed(found)
      modifies successor
      ensures Valid() && Abs() == old(Abs()).(succs := old(Abs()).succs[k := Slot(found)])
      ensures successor[..] == old(successor[..])[k := found]
      ensures Live(found) ==> Abs() == L.UpdateSuccsFound(old(Abs()), k, found.id)
      ensures ask == if k + 1 < L.NUM_OF_SUCCS && Live(found) then L.Some((found, Plus(found.id, 1))) else L.None
    {
      successor[k] := found;
      assert Slots(successor[..]) == old(Abs()).succs[k := Slot(found)];
      ask := L.None;
      if k < L.NUM_OF_SUCCS - 1 {
        ask := UpdateSucc(k);
      }
    }

    /** node_update_succ */
    method UpdateSucc(k: nat) returns (ask: L.Option<(NodeInfo, Id)>)
      requires Valid() && k < L.NUM_OF_SUCCS
      ensures ask == if Live(successor[k]) then L.Some((successor[k], Plus(successor[k].id, 1))) else L.None
      ensures ask.None? <==> Abs().succs[k].None?
    {
      var succ := successor[k];
      if succ.ip == 0 {
        return L.None;
      }
      return L.Some((succ, Plus(succ.id, 1)));
    }

    /** node_update_succs. The chain stays inside the list exactly when it does not start at the last slot. */
    method UpdateSuccs() returns (start: nat, ask: L.Option<(NodeInfo, Id)>)
      requires Valid() && L.Connected(Abs())
      ensures start == L.FirstAlive(Abs().succs)
      ensures ask == L.Some((successor[start], Plus(L.First(Abs()), 1)))
    {
      start := FirstAliveSucc();
      ask := UpdateSucc(start);
    }

    /** finger_update: emptied for the node itself, and by the empty node of a failed lookup. */
    method FingerUpdate(i: nat, node: NodeInfo)
      requires Valid() && i < L.ID_BITS
      modifies fingerTable
      ensures Valid()
      ensures Abs() == old(Abs()).(fingers := old(Abs()).fingers[i :=
                         if node.id == self.id then L.None else FingerSlot(node)])
      ensures fingerTable[..] == old(fingerTable[..])[i := if node.id == self.id then EMPTY else node]
      ensures Live(node) ==> Abs() == L.FingerUpdate(old(Abs()), i, node.id)
    {
      if self.id != node.id {
        fingerTable[i] := node;
      } else {
        fingerTable[i] := EMPTY;
      }
      assert FingerSlots(fingerTable[..]) ==
             old(Abs()).fingers[i := if node.id == self.id then L.None else FingerSlot(node)];
    }

    /** whom are the nodes, address and all, the requests go to. */
    ghost predicate Whom(asked: seq<FingerRequest>, whom: seq<NodeInfo>) {
      |whom| == |asked| && forall k :: 0 <= k < |asked| ==> whom[k].id == asked[k].to
    }

    /** Nodes this one has an address of: fingers as they were, and its first live successor. */
    ghost predicate Known(fingers: seq<NodeInfo>, s: seq<NodeInfo>)
      reads this, successor, fingerTable
      requires Valid() && L.Connected(Abs())
    {
      forall n :: n in s ==> n in fingers || n == EMPTY || n == successor[L.FirstAlive(Abs().succs)]
    }

    /** node_fix_a_finger */
    method FixAFinger(i: nat) returns (asked: seq<FingerRequest>, whom: seq<NodeInfo>)
      requires Valid() && L.Connected(Abs())
      modifies fingerTable
      ensures Valid()
      ensures !(1 <= i < L.ID_BITS) ==> Abs() == old(Abs()) && asked == []
      ensures L.Connected(Abs())
      ensures 1 <= i < L.ID_BITS ==> (Abs(), asked) == FixOne(old(Abs()), i)
      ensures var succ := successor[L.FirstAlive(old(Abs()).succs)];
              fingerTable[..] == if !(1 <= i < L.ID_BITS) || asked != [] then old(fingerTable[..])
                                 else old(fingerTable[..])[i := if succ.id == self.id then EMPTY else succ]
      ensures Whom(asked, whom) && Known(old(fingerTable[..]), fingerTable[..]) && Known(old(fingerTable[..]), whom)
    {
      asked, whom := [], [];
      if i >= L.ID_BITS || i <= 0 {
        return;
      }
      var x := Plus(self.id, TwoToTheN(i - 1));
      assert x != self.id by { FixOneLooksUp(Abs(), i); }
      var calls, ask := FindSuccessor(x);
      if ask.Some? {
        asked, whom := [FingerRequest(i, x, ask.value.id)], [ask.value];
      } else {
        FingerUpdate(i, calls[0]);
      }
    }

    /** node_fix_fingers: its lookups read the table the earlier ones have already changed. */
    method FixFingers() returns (asked: seq<FingerRequest>, whom: seq<NodeInfo>)
      requires Valid() && L.Connected(Abs())
      modifies fingerTable
      ensures Valid() && Abs() == FixFrom(old(Abs()), 1).0 && asked == FixFrom(old(Abs()), 1).1
      ensures Whom(asked, whom) && Known(old(fingerTable[..]), fingerTable[..]) && Known(old(fingerTable[..]), whom)
    {
      asked, whom := FixAFinger(0);
      ghost var now := Abs();
      ghost var goal := FixFrom(now, 1);
      FixStarts(now);
      var i: nat := 1;
      while i < L.ID_BITS
        invariant 1 <= i <= L.ID_BITS && Valid() && now == Abs() && L.Connected(now)
        invariant FixReaches(now, i, asked, goal)
        invariant Whom(asked, whom)
        invariant Known(old(fingerTable[..]), fingerTable[..]) && Known(old(fingerTable[..]), whom)
      {
        FixStep(now, i, asked, goal);
        var more, whomMore := FixAFinger(i);
        now := Abs();
        asked, whom := asked + more, whom + whomMore;
        i := i + 1;
      }
      FixEnds(now, asked, goal);
    }

    /** node_check_successors: the live slots are probed, each once, in order. */
    method CheckSuccessors() returns (probes: seq<nat>, asked: seq<NodeInfo>)
      requires Valid()
      ensures |asked| == |probes| && forall k :: 0 <= k < |probes| ==>
                probes[k] < L.NUM_OF_SUCCS && asked[k] == successor[probes[k]]
      ensures forall k: nat :: k in probes <==> k < L.NUM_OF_SUCCS && Abs().succs[k].Some?
      ensures forall i, j :: 0 <= i < j < |probes| ==> probes[i] < probes[j]
    {
      probes, asked := [], [];
      for i := 0 to L.NUM_OF_SUCCS
        invariant forall k: nat :: k in probes <==> k < i && Abs().succs[k].Some?
        invariant forall a, b :: 0 <= a < b < |probes| ==> probes[a] < probes[b]
        invariant |asked| == |probes| && forall a :: 0 <= a < |probes| ==>
                    probes[a] < L.NUM_OF_SUCCS && asked[a] == successor[probes[a]]
      {
        if successor[i].ip != 0 {
          assert forall a :: 0 <= a < |probes| ==> probes[a] in probes;
          probes, asked := probes + [i], asked + [successor[i]];
        }
      }
    }

    /** node_check_succ_result */
    method CheckSuccResult(k: nat, success: bool)
      requires Valid() && k < L.NUM_OF_SUCCS
      modifies successor
      ensures Valid() && Abs() == L.CheckSuccResult(old(Abs()), k, success)
      ensures successor[..] == if success then old(successor[..]) else old(successor[..])[k := EMPTY]
    {
      if !success {
        successor[k] := EMPTY;
        assert Slots(successor[..]) == old(Abs()).succs[k := L.None];
      } else {
        assert Slots(successor[..]) == old(Abs()).succs;
      }
    }

    /** node_check_pred_result */
    method CheckPredResult(success: bool)
      requires Valid()
      modifies this
      ensures Valid() && Abs() == L.CheckPredResult(old(Abs()), success)
      ensures hasPred == (success && old(hasPred)) && predecessor == if success then old(predecessor) else EMPTY
    {
      if !success {
        hasPred := false;
        predecessor := EMPTY;
      }
    }
  }
}
