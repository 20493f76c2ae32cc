/** Small networks, drawn by everyone's successor and predecessor alone, and the runs that lead from one
    picture to the next. The counterexamples are drawn with these. */
module Pictures {
  import opened Ids
  import opened LocalNode
  import opened Network
  import opened Rounds
  import JoinRuns

  /** These steps, none of them a failure, lead from s to s'. */
  ghost predicate LeadsTo(s: Net, steps: seq<Step>, s': Net) {
    NoFailure(steps) && CanRun(s, steps) && Run(s, steps) == s'
  }

  lemma Then(s: Net, a: seq<Step>, s1: Net, b: seq<Step>, s2: Net)
    requires LeadsTo(s, a, s1) && LeadsTo(s1, b, s2)
    ensures LeadsTo(s, a + b, s2)
  {
    RunAppends(s, a, b);
  }

  // ---------------------------------------------------------------- one node

  /** A node with one live slot and no fingers. */
  function Plain(id: Id, succ: Id, pred: Option<Id>): Node {
    Node(id, NO_SUCCS[0 := Some(succ)], pred, NO_FINGERS)
  }

  /** Its successor after the reply to a stabilise request, and its predecessor after a notify. */
  function AfterReply(id: Id, succ: Id, reply: Option<Id>): Id {
    if reply.Some? && (id == succ || InRange(reply.value, Plus(id, 1), succ)) then reply.value else succ
  }

  function AfterNotify(id: Id, pred: Option<Id>, f: Id): Option<Id> {
    if pred.None? || InRange(f, pred.value, id) || pred.value == id then Some(f) else pred
  }

  lemma PlainNode(id: Id, succ: Id, pred: Option<Id>)
    ensures Connected(Plain(id, succ, pred)) && First(Plain(id, succ, pred)) == succ
  {
  }

  lemma PlainStabilises(id: Id, succ: Id, pred: Option<Id>, reply: Option<Id>)
    ensures Connected(Plain(id, succ, pred))
    ensures StabilizeSpFound(Plain(id, succ, pred), reply) == Plain(id, AfterReply(id, succ, reply), pred)
  {
    PlainNode(id, succ, pred);
    assert NO_SUCCS[0 := Some(succ)][0 := reply] == NO_SUCCS[0 := reply];
  }

  lemma PlainNotified(id: Id, succ: Id, pred: Option<Id>, f: Id)
    ensures Notified(Plain(id, succ, pred), f) == Plain(id, succ, AfterNotify(id, pred, f))
  {
  }

  // ---------------------------------------------------------------- pictures

  /** Everyone's successor and predecessor. */
  datatype Picture = Picture(succ: map<Id, Id>, pred: map<Id, Option<Id>>)

  /** The pointers of n name members. */
  ghost predicate Inside(p: Picture, n: Id) {
    n in p.succ && n in p.pred && p.succ[n] in p.succ && (p.pred[n].Some? ==> p.pred[n].value in p.succ)
  }

  ghost predicate Whole(p: Picture) {
    p.succ.Keys == p.pred.Keys && forall n {:trigger Inside(p, n)} :: n in p.succ ==> Inside(p, n)
  }

  function Shown(p: Picture): Nodes
    requires p.succ.Keys == p.pred.Keys
  {
    map n | n in p.succ :: Plain(n, p.succ[n], p.pred[n])
  }

  /** A network without fingers that looks like p, with these messages in flight. */
  function Pic(p: Picture, msgs: multiset<Msg>): Net
    requires p.succ.Keys == p.pred.Keys
  {
    Net(false, Shown(p), {}, msgs)
  }

  function Points(p: Picture, n: Id, succ: Id): Picture {
    p.(succ := p.succ[n := succ])
  }

  function Records(p: Picture, n: Id, pred: Option<Id>): Picture {
    p.(pred := p.pred[n := pred])
  }

  lemma WholeIsLinked(p: Picture)
    requires Whole(p)
    ensures Linked(Shown(p))
  {
    forall n {:trigger LinkedNode(Shown(p).Keys, n, Shown(p)[n])} | n in Shown(p)
      ensures LinkedNode(Shown(p).Keys, n, Shown(p)[n]) {
      assert Inside(p, n);
      PlainNode(n, p.succ[n], p.pred[n]);
    }
  }

  lemma PointsShown(p: Picture, n: Id, succ: Id)
    requires p.succ.Keys == p.pred.Keys && n in p.succ
    ensures Points(p, n, succ).succ.Keys == p.pred.Keys
    ensures Shown(p)[n := Plain(n, succ, p.pred[n])] == Shown(Points(p, n, succ))
  {
  }

  lemma RecordsShown(p: Picture, n: Id, pred: Option<Id>)
    requires p.succ.Keys == p.pred.Keys && n in p.succ
    ensures Records(p, n, pred).pred.Keys == p.succ.Keys
    ensures Shown(p)[n := Plain(n, p.succ[n], pred)] == Shown(Records(p, n, pred))
  {
  }

  /** n stabilises in one go: it points at u from then on, and u records what it makes of the notify. */
  ghost predicate BecomesByRound(p: Picture, n: Id, u: Id, p': Picture) {
    && Whole(p) && Inside(p, n) && Inside(p, p.succ[n]) && u in p.succ
    && AfterReply(n, p.succ[n], p.pred[p.succ[n]]) == u
    && p' == Records(Points(p, n, u), u, AfterNotify(u, p.pred[u], n))
  }

  lemma Stabilises(p: Picture, n: Id, u: Id, p': Picture, msgs: multiset<Msg>) returns (steps: seq<Step>)
    requires BecomesByRound(p, n, u, p')
    ensures Whole(p') && LeadsTo(Pic(p, msgs), steps, Pic(p', msgs))
  {
    StaysWhole(p, n, u, p');
    RoundShown(p, n, u, p');
    steps := RoundAtOnce(Pic(p, msgs), n, Shown(p'));
  }

  lemma RoundAtOnce(s: Net, n: Id, nodes: Nodes) returns (steps: seq<Step>)
    requires Linked(s.nodes) && n in s.nodes && Round(s.nodes, n) == nodes
    ensures LeadsTo(s, steps, s.(nodes := nodes))
  {
    steps := RoundSteps(s.nodes, n);
    RoundIsFourSteps(s, n);
  }

  lemma StaysWhole(p: Picture, n: Id, u: Id, p': Picture)
    requires BecomesByRound(p, n, u, p')
    ensures Whole(p')
  {
    assert Inside(p, n) && Inside(p, u);
    var pred := AfterNotify(u, p.pred[u], n);
    assert pred.Some? ==> pred.value in p.succ;
    WholeAgain(p, n, u, pred);
  }

  lemma WholeAgain(p: Picture, n: Id, u: Id, pred: Option<Id>)
    requires Whole(p) && n in p.succ && u in p.succ && (pred.Some? ==> pred.value in p.succ)
    ensures Whole(Records(Points(p, n, u), u, pred))
  {
    PointsWhole(p, n, u);
    RecordsWhole(Points(p, n, u), u, pred);
  }

  lemma PointsWhole(p: Picture, n: Id, u: Id)
    requires Whole(p) && n in p.succ && u in p.succ
    ensures Whole(Points(p, n, u))
  {
    var p' := Points(p, n, u);
    assert p'.succ.Keys == p.succ.Keys;
    forall k {:trigger Inside(p', k)} | k in p'.succ ensures Inside(p', k) {
      assert Inside(p, k);
    }
  }

  lemma RecordsWhole(p: Picture, u: Id, pred: Option<Id>)
    requires Whole(p) && u in p.succ && (pred.Some? ==> pred.value in p.succ)
    ensures Whole(Records(p, u, pred))
  {
    var p' := Records(p, u, pred);
    assert p'.pred.Keys == p.pred.Keys;
    forall k {:trigger Inside(p', k)} | k in p'.succ ensures Inside(p', k) {
      assert Inside(p, k);
    }
  }

  lemma RoundShown(p: Picture, n: Id, u: Id, p': Picture)
    requires BecomesByRound(p, n, u, p')
    ensures p'.succ.Keys == p'.pred.Keys && Linked(Shown(p)) && Round(Shown(p), n) == Shown(p')
  {
    WholeIsLinked(p);
    var t, p1 := p.succ[n], Points(p, n, u);
    PlainNode(n, t, p.pred[n]);
    PlainStabilises(n, t, p.pred[n], p.pred[t]);
    PlainNode(n, u, p.pred[n]);
    PointsShown(p, n, u);
    PlainNotified(u, p1.succ[u], p1.pred[u], n);
    RecordsShown(p1, u, AfterNotify(u, p.pred[u], n));
  }

  /** n asks its successor for its predecessor; the reply stays in flight. */
  lemma Asks(p: Picture, n: Id, msgs: multiset<Msg>) returns (steps: seq<Step>)
    requires Whole(p) && Inside(p, n) && Inside(p, p.succ[n])
    ensures LeadsTo(Pic(p, msgs), steps, Pic(p, msgs + multiset{PredRep(n, p.succ[n], p.pred[p.succ[n]])}))
  {
    PlainNode(n, p.succ[n], p.pred[n]);
    steps := AskAtOnce(Pic(p, msgs), n, p.succ[n]);
  }

  lemma AskAtOnce(s: Net, n: Id, t: Id) returns (steps: seq<Step>)
    requires Up(s, n) && First(s.nodes[n]) == t && t in s.nodes
    ensures LeadsTo(s, steps, Send(s, PredRep(n, t, s.nodes[t].pred)))
  {
    var answer := AnswerPred(PredReq(n, t));
    AnswerAtOnce(s, n, t);
    OneStep(Send(s, PredReq(n, t)), answer);
    StepThen(s, StartStabilise(n), [answer]);
    steps := [StartStabilise(n)] + [answer];
  }

  /** A reply arrives, n points at u from then on, and the notify it leads to stays in flight. */
  lemma Arrives(p: Picture, n: Id, asked: Id, reply: Option<Id>, u: Id, msgs: multiset<Msg>)
    requires p.succ.Keys == p.pred.Keys && n in p.succ && AfterReply(n, p.succ[n], reply) == u
    ensures var s, last := Pic(p, msgs + multiset{PredRep(n, asked, reply)}), DeliverPredRep(PredRep(n, asked, reply));
            && Enabled(s, last)
            && Apply(s, last) == Pic(Points(p, n, u), msgs + multiset{Notify(n, u)})
  {
    var s := Pic(p, msgs);
    PlainNode(n, p.succ[n], p.pred[n]);
    PlainStabilises(n, p.succ[n], p.pred[n], reply);
    PlainNode(n, u, p.pred[n]);
    PointsShown(p, n, u);
    AdoptAtOnce(s, n, asked, reply);
  }

  /** j joins through via, which can answer at once. */
  function JoinSteps(j: Id, via: Id, succ: Id): seq<Step> {
    [StartJoin(j, via), Relay(LookupAt(via, j, ForJoin(j))), DeliverFound(Found(succ, j, ForJoin(j)))]
  }

  lemma JoinAtOnce(s: Net, j: Id, via: Id, succ: Id)
    requires Up(s, via) && j !in s.nodes && j !in s.joining
    requires FindSuccessor(s.nodes[via], j, s.useFingers) == Answer(succ)
    ensures LeadsTo(s, JoinSteps(j, via, succ), SetNode(s, j, Joined(j, succ)))
  {
    var steps := JoinSteps(j, via, succ);
    var s1 := Send(s, LookupAt(via, j, ForJoin(j))).(joining := s.joining + {j});
    var s2 := Send(s, Found(succ, j, ForJoin(j))).(joining := s.joining + {j});
    var s' := s.(joining := s.joining + {j});
    TakeUndoesSend(s', LookupAt(via, j, ForJoin(j)));
    TakeUndoesSend(s', Found(succ, j, ForJoin(j)));
    assert Apply(s, steps[0]) == s1;
    assert Apply(s1, steps[1]) == s2;
    assert s.joining + {j} - {j} == s.joining;
    assert Apply(s2, steps[2]) == SetNode(s, j, Joined(j, succ));
    OneStep(s2, steps[2]);
    StepThen(s1, steps[1], [steps[2]]);
    StepThen(s, steps[0], [steps[1]] + [steps[2]]);
    assert steps == [steps[0]] + ([steps[1]] + [steps[2]]);
  }

  /** j joins through a node that points at itself. */
  lemma Joins(p: Picture, j: Id, via: Id, msgs: multiset<Msg>)
    requires p.succ.Keys == p.pred.Keys && via in p.succ && p.succ[via] == via && j !in p.succ
    ensures LeadsTo(Pic(p, msgs), JoinSteps(j, via, via), Pic(Records(Points(p, j, via), j, None), msgs))
  {
    PlainNode(via, via, p.pred[via]);
    JoinAtOnce(Pic(p, msgs), j, via, via);
    assert Shown(p)[j := Joined(j, via)] == Shown(Records(Points(p, j, via), j, None));
  }

  /** Node 0 alone on the ring, the others pointing at it as they do when they have just joined. */
  ghost predicate Star(p: Picture, members: set<Id>) {
    && p.succ.Keys == members && p.pred.Keys == members && 0 in members
    && (forall n {:trigger p.succ[n]} :: n in members ==> p.succ[n] == 0)
    && (forall n {:trigger p.pred[n]} :: n in members ==> p.pred[n] == if n == 0 then Some(0) else None)
  }

  /** All of these join through node 0. */
  lemma {:induction false} AllJoin(js: seq<Id>, members: set<Id>) returns (steps: seq<Step>, p: Picture)
    requires 0 !in js && (forall i, j :: 0 <= i < j < |js| ==> js[i] != js[j])
    requires members == {0} + (set j | j in js)
    ensures Star(p, members) && LeadsTo(Init(0, false), steps, Pic(p, multiset{}))
    decreases |js|
  {
    if js == [] {
      steps, p := [], Picture(map[0 := 0], map[0 := Some(0)]);
      assert Shown(p) == map[0 := Created(0)];
      assert members == {0};
    } else {
      var j, before := js[|js| - 1], js[..|js| - 1];
      assert js == before + [j] && members == {0} + (set k | k in before) + {j};
      var a, p0 := AllJoin(before, {0} + (set k | k in before));
      steps, p := OneMoreJoins(a, p0, {0} + (set k | k in before), j);
    }
  }

  lemma OneMoreJoins(a: seq<Step>, p: Picture, members: set<Id>, j: Id) returns (steps: seq<Step>, p': Picture)
    requires Star(p, members) && j !in members && LeadsTo(Init(0, false), a, Pic(p, multiset{}))
    ensures Star(p', members + {j}) && LeadsTo(Init(0, false), steps, Pic(p', multiset{}))
  {
    p' := Records(Points(p, j, 0), j, None);
    Joins(p, j, 0, multiset{});
    Then(Init(0, false), a, Pic(p, multiset{}), JoinSteps(j, 0, 0), Pic(p', multiset{}));
    steps := a + JoinSteps(j, 0, 0);
  }

  /** The arrows of a picture are the successor pointers of the network. */
  lemma ArrowsAreShown(p: Picture)
    requires p.succ.Keys == p.pred.Keys
    ensures JoinRuns.Shows(Shown(p), p.succ) && JoinRuns.SuccGraph(Shown(p)) == p.succ
  {
    forall n {:trigger JoinRuns.PointsAt(Shown(p), n, p.succ[n])} | n in p.succ
      ensures JoinRuns.PointsAt(Shown(p), n, p.succ[n]) {
    }
    JoinRuns.ShownIsUnique(Shown(p), p.succ);
  }
}
