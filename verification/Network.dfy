/** The network as a state machine: the routing state of every live node, and the requests and
    replies in flight. Each step is one callback of src/node.c at one node; steps interleave
    freely and messages may be delivered in any order. A crashed node leaves the map. */
module Network {
  import opened Ids
  import opened LocalNode

  /** Why a lookup is made, and so which callback its answer is given to. */
  datatype Purpose =
    | ForJoin(who: Id)
    | ForSlot(who: Id, slot: nat)
    | ForFinger(who: Id, index: nat)

  datatype Msg =
    | LookupAt(at: Id, target: Id, why: Purpose)      // MSG_T_SUCC_REQ on its way to `at`
    | Found(found: Id, target: Id, why: Purpose)      // its answer on the way back
    | PredReq(from: Id, asked: Id)                    // MSG_T_PRED_REQ
    | PredRep(to: Id, asked: Id, pred: Option<Id>)    // the reply of `asked`
    | Notify(from: Id, to: Id)                        // MSG_T_NOTIF
    | Probe(from: Id, slot: Option<nat>, asked: Id)   // MSG_T_ALIVE_REQ, for the predecessor if no slot is given

  type Nodes = map<Id, Node>

  datatype Net = Net(useFingers: bool, nodes: Nodes, joining: set<Id>, msgs: multiset<Msg>)

  datatype Step =
    | StartJoin(j: Id, via: Id)
    | Relay(m: Msg)
    | DeliverFound(m: Msg)
    | StartStabilise(n: Id)
    | AnswerPred(m: Msg)
    | DeliverPredRep(m: Msg)
    | DeliverNotify(m: Msg)
    | StartUpdate(n: Id)
    | FixFinger(n: Id, i: nat)
    | CheckSucc(n: Id, k: nat)
    | CheckPred(n: Id)
    | ProbeDone(m: Msg)
    | Fail(n: Id)

  /** The network right after node_network_create at c. */
  function Init(c: Id, useFingers: bool): Net {
    Net(useFingers, map[c := Created(c)], {}, multiset{})
  }

  predicate Up(s: Net, n: Id) {
    n in s.nodes && Connected(s.nodes[n])
  }

  predicate Enabled(s: Net, step: Step) {
    match step
    case StartJoin(j, via) => j !in s.nodes && j !in s.joining && via in s.nodes
    case Relay(m) => m in s.msgs && m.LookupAt? && Up(s, m.at)
    case DeliverFound(m) =>
      m in s.msgs && m.Found? &&
      (match m.why
       case ForJoin(j) => j in s.joining && j !in s.nodes
       case ForSlot(n, k) => n in s.nodes && k < NUM_OF_SUCCS
       case ForFinger(n, i) => n in s.nodes && i < ID_BITS)
    case StartStabilise(n) => Up(s, n)
    case AnswerPred(m) => m in s.msgs && m.PredReq? && m.asked in s.nodes
    case DeliverPredRep(m) => m in s.msgs && m.PredRep? && Up(s, m.to)
    case DeliverNotify(m) => m in s.msgs && m.Notify? && m.to in s.nodes
    case StartUpdate(n) => Up(s, n) && FirstAlive(s.nodes[n].succs) + 1 < NUM_OF_SUCCS
    case FixFinger(n, i) => Up(s, n) && 1 <= i < ID_BITS
    case CheckSucc(n, k) => n in s.nodes && k < NUM_OF_SUCCS && s.nodes[n].succs[k].Some?
    case CheckPred(n) => n in s.nodes && s.nodes[n].pred.Some?
    case ProbeDone(m) =>
      m in s.msgs && m.Probe? && m.from in s.nodes && (m.slot.Some? ==> m.slot.value < NUM_OF_SUCCS)
    case Fail(n) => n in s.nodes
  }

  function SetNode(s: Net, n: Id, node: Node): Net {
    s.(nodes := s.nodes[n := node])
  }

  function Send(s: Net, m: Msg): Net {
    s.(msgs := s.msgs + multiset{m})
  }

  function Take(s: Net, m: Msg): Net {
    s.(msgs := s.msgs - multiset{m})
  }

  /** handle_succ_request: the answer travels back to whoever asked first; a relay passes it on unchanged. */
  function Serve(s: Net, at: Id, target: Id, why: Purpose): Net
    requires Up(s, at)
  {
    match FindSuccessor(s.nodes[at], target, s.useFingers)
    case Answer(f) => Send(s, Found(f, target, why))
    case Forward(n) => Send(s, LookupAt(n, target, why))
  }

  /** node_update_succ: ask the node in slot k for the successor of its id + 1. */
  function AskForSlot(s: Net, n: Id, k: nat): Net
    requires n in s.nodes && k < NUM_OF_SUCCS
  {
    var slot := s.nodes[n].succs[k];
    if slot.None? then s
    else Send(s, LookupAt(slot.value, Plus(slot.value, 1), ForSlot(n, k + 1)))
  }

  /** The callback an answer is given to. */
  function Receive(s: Net, found: Id, why: Purpose): Net
    requires match why
             case ForJoin(j) => true
             case ForSlot(n, k) => n in s.nodes && k < NUM_OF_SUCCS
             case ForFinger(n, i) => n in s.nodes && i < ID_BITS
  {
    match why
    case ForJoin(j) => SetNode(s, j, Joined(j, found)).(joining := s.joining - {j})
    case ForSlot(n, k) =>
      var s' := SetNode(s, n, UpdateSuccsFound(s.nodes[n], k, found));
      if k + 1 < NUM_OF_SUCCS then AskForSlot(s', n, k) else s'
    case ForFinger(n, i) => SetNode(s, n, FingerUpdate(s.nodes[n], i, found))
  }

  /** node_stabilize_sp_found, with the notify it ends in. */
  function TakePredRep(s: Net, n: Id, reply: Option<Id>): Net
    requires Up(s, n)
  {
    var node := StabilizeSpFound(s.nodes[n], reply);
    Send(SetNode(s, n, node), Notify(n, First(node)))
  }

  /** node_check_succ_result and node_check_pred_result: a failure clears the slot, or the predecessor,
      whatever it holds by then. */
  function Probed(node: Node, slot: Option<nat>, success: bool): Node
    requires slot.Some? ==> slot.value < NUM_OF_SUCCS
  {
    if slot.None? then CheckPredResult(node, success) else CheckSuccResult(node, slot.value, success)
  }

  function Apply(s: Net, step: Step): Net
    requires Enabled(s, step)
  {
    match step
    case StartJoin(j, via) => Send(s, LookupAt(via, j, ForJoin(j))).(joining := s.joining + {j})
    case Relay(m) => Serve(Take(s, m), m.at, m.target, m.why)
    case DeliverFound(m) => Receive(Take(s, m), m.found, m.why)
    case StartStabilise(n) => Send(s, PredReq(n, First(s.nodes[n])))
    case AnswerPred(m) => Send(Take(s, m), PredRep(m.from, m.asked, s.nodes[m.asked].pred))
    case DeliverPredRep(m) => TakePredRep(Take(s, m), m.to, m.pred)
    case DeliverNotify(m) => SetNode(Take(s, m), m.to, Notified(s.nodes[m.to], m.from))
    case StartUpdate(n) => AskForSlot(s, n, FirstAlive(s.nodes[n].succs))
    case FixFinger(n, i) =>
      (match FindSuccessor(s.nodes[n], FingerTarget(n, i), s.useFingers)
       case Answer(f) => SetNode(s, n, FingerUpdate(s.nodes[n], i, f))
       case Forward(to) => Send(s, LookupAt(to, FingerTarget(n, i), ForFinger(n, i))))
    case CheckSucc(n, k) => Send(s, Probe(n, Some(k), s.nodes[n].succs[k].value))
    case CheckPred(n) => Send(s, Probe(n, None, s.nodes[n].pred.value))
    case ProbeDone(m) => SetNode(Take(s, m), m.from, Probed(s.nodes[m.from], m.slot, m.asked in s.nodes))
    case Fail(n) => s.(nodes := s.nodes - {n})
  }

  /** The steps can be taken one after the other from s. */
  predicate CanRun(s: Net, steps: seq<Step>)
    decreases |steps|
  {
    steps == [] || (Enabled(s, steps[0]) && CanRun(Apply(s, steps[0]), steps[1..]))
  }

  function Run(s: Net, steps: seq<Step>): Net
    requires CanRun(s, steps)
    decreases |steps|
  {
    if steps == [] then s else Run(Apply(s, steps[0]), steps[1..])
  }

  /** Nobody crashes. */
  predicate NoFailure(steps: seq<Step>) {
    forall i :: 0 <= i < |steps| ==> !steps[i].Fail?
  }

  /** Nobody crashes and nobody new starts to join. */
  predicate MaintenanceOnly(steps: seq<Step>) {
    forall i :: 0 <= i < |steps| ==> !steps[i].Fail? && !steps[i].StartJoin?
  }

  lemma {:induction false} RunAppends(s: Net, a: seq<Step>, b: seq<Step>)
    requires CanRun(s, a) && CanRun(Run(s, a), b)
    ensures CanRun(s, a + b) && Run(s, a + b) == Run(Run(s, a), b)
    decreases |a|
  {
    if a == [] {
      assert a + b == b;
    } else {
      assert (a + b)[0] == a[0] && (a + b)[1..] == a[1..] + b;
      RunAppends(Apply(s, a[0]), a[1..], b);
    }
  }
}
