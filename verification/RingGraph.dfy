/** Rings of successor pointers: a map from every member to the member it points at.
    Everything that holds of the pointers alone, without messages or finger tables, is proved here. */
module RingGraph {
  import opened Ids

  type Graph = map<Id, Id>

  ghost predicate Closed(g: Graph) {
    forall n {:trigger g[n]} :: n in g ==> g[n] in g
  }

  /** Every pointer stops at the creator c or before it. */
  ghost predicate Rooted(g: Graph, c: Id) {
    c in g && forall n {:trigger NoSkip(c, n, g[n])} :: n in g ==> NoSkip(c, n, g[n])
  }

  /** Where k steps along the pointers lead. */
  ghost function Iter(g: Graph, n: Id, k: nat): Id
    requires Closed(g) && n in g
    ensures Iter(g, n, k) in g
    decreases k
  {
    if k == 0 then n else Iter(g, g[n], k - 1)
  }

  /** a leads to b: the pointers go from a to b with the distance left to b shrinking at every step. */
  ghost predicate Leads(g: Graph, a: Id, b: Id)
    requires Closed(g) && a in g && b in g
    decreases Dist(a, b)
  {
    a == b || (Dist(g[a], b) < Dist(a, b) && Leads(g, g[a], b))
  }

  ghost predicate OnCycle(g: Graph, n: Id)
    requires Closed(g) && n in g
  {
    exists k: nat :: k >= 1 && Iter(g, n, k) == n
  }

  /** n lies on the ring of c: the pointers go from c to n. */
  ghost predicate OnRing(g: Graph, c: Id, n: Id)
    requires Closed(g) && c in g && n in g
  {
    Leads(g, c, n)
  }

  lemma {:induction false} IterAdds(g: Graph, n: Id, i: nat, j: nat)
    requires Closed(g) && n in g
    ensures Iter(g, n, i + j) == Iter(g, Iter(g, n, i), j)
    decreases i
  {
    if i > 0 {
      IterAdds(g, g[n], i - 1, j);
    }
  }

  lemma {:induction false} LeadsIsPath(g: Graph, a: Id, b: Id) returns (k: nat)
    requires Closed(g) && a in g && b in g && Leads(g, a, b)
    ensures Iter(g, a, k) == b
    decreases Dist(a, b)
  {
    if a == b {
      k := 0;
    } else {
      k := LeadsIsPath(g, g[a], b);
      k := k + 1;
    }
  }

  lemma {:induction false} LeadsTrans(g: Graph, a: Id, b: Id, d: Id)
    requires Closed(g) && a in g && b in g && d in g
    requires Leads(g, a, b) && Leads(g, b, d)
    requires Dist(a, b) <= Dist(a, d)
    ensures Leads(g, a, d)
    decreases Dist(a, b)
  {
    if a != b {
      LeadsTrans(g, g[a], b, d);
    }
  }

  /** In a rooted graph, whatever c reaches at all it reaches without ever turning back. */
  lemma {:induction false} ReachedIsOnRing(g: Graph, c: Id, k: nat)
    requires Closed(g) && Rooted(g, c)
    ensures OnRing(g, c, Iter(g, c, k))
  {
    if k > 0 {
      var m, n := Iter(g, c, k - 1), Iter(g, c, k);
      IterAdds(g, c, k - 1, 1);
      assert Iter(g, m, 1) == g[m];
      ReachedIsOnRing(g, c, k - 1);
      if n != c {
        assert NoSkip(c, m, n);
        assert Leads(g, m, n);
        LeadsTrans(g, c, m, n);
      }
    }
  }

  /** Number of steps until the pointers first bring n to c. */
  ghost function StepsHome(g: Graph, c: Id, n: Id): (k: nat)
    requires Closed(g) && Rooted(g, c) && n in g
    ensures k >= 1
    decreases RING - Dist(c, n)
  {
    assert NoSkip(c, n, g[n]);
    if g[n] == c then 1 else 1 + StepsHome(g, c, g[n])
  }

  /** On its way home a node climbs: the distance from c grows at every step until c is met. */
  lemma {:induction false} Climb(g: Graph, c: Id, n: Id, i: nat)
    requires Closed(g) && Rooted(g, c) && n in g
    requires i <= StepsHome(g, c, n)
    ensures i == StepsHome(g, c, n) ==> Iter(g, n, i) == c
    ensures 0 < i < StepsHome(g, c, n) ==> Dist(c, n) < Dist(c, Iter(g, n, i))
    decreases i
  {
    assert NoSkip(c, n, g[n]);
    if i > 0 && g[n] != c {
      Climb(g, c, g[n], i - 1);
    }
  }

  lemma {:induction false} StepsHomeAlong(g: Graph, c: Id, n: Id, i: nat)
    requires Closed(g) && Rooted(g, c) && n in g
    requires i < StepsHome(g, c, n)
    ensures StepsHome(g, c, Iter(g, n, i)) == StepsHome(g, c, n) - i
    decreases i
  {
    if i > 0 {
      StepsHomeAlong(g, c, g[n], i - 1);
    }
  }

  /** A node on a cycle is met again after arbitrarily many steps. */
  lemma {:induction false} CycleAgain(g: Graph, n: Id, t: nat) returns (k: nat)
    requires Closed(g) && n in g && OnCycle(g, n)
    ensures k >= t && Iter(g, n, k) == n
    decreases t
  {
    if t == 0 {
      k := 0;
    } else {
      var once: nat :| once >= 1 && Iter(g, n, once) == n;
      k := CycleAgain(g, n, t - 1);
      IterAdds(g, n, once, k);
      k := once + k;
    }
  }

  /** The nodes on some cycle are exactly the nodes on the ring of c: there is only one cycle. */
  lemma OneCycle(g: Graph, c: Id, n: Id)
    requires Closed(g) && Rooted(g, c) && n in g
    ensures OnCycle(g, n) <==> OnRing(g, c, n)
  {
    var home := StepsHome(g, c, n);
    Climb(g, c, n, home);
    if OnCycle(g, n) {
      var k := CycleAgain(g, n, home);
      IterAdds(g, n, home, k - home);
      ReachedIsOnRing(g, c, k - home);
    }
    if OnRing(g, c, n) {
      var k := LeadsIsPath(g, c, n);
      IterAdds(g, n, home, k);
      assert Iter(g, n, home + k) == n;
    }
  }

  /** No ring node lies strictly inside the arc of a ring node's pointer. */
  lemma {:induction false} RingInOrder(g: Graph, c: Id, a: Id, b: Id)
    requires Closed(g) && Rooted(g, c) && a in g && b in g
    requires OnRing(g, c, a) && OnRing(g, c, b)
    ensures Arc(a, g[a]) <= Arc(a, b)
  {
    RingInOrderFrom(g, c, c, a, b);
  }

  lemma {:induction false} RingInOrderFrom(g: Graph, c: Id, m: Id, a: Id, b: Id)
    requires Closed(g) && Rooted(g, c) && m in g && a in g && b in g
    requires Leads(g, m, a) && Leads(g, m, b)
    requires Dist(c, m) <= Dist(c, a) && Dist(c, m) <= Dist(c, b)
    ensures Arc(a, g[a]) <= Arc(a, b)
    decreases Dist(m, a)
  {
    if m == b {
      assert NoSkip(c, a, g[a]);
    } else if m != a {
      RingInOrderFrom(g, c, g[m], a, b);
    }
  }

  /** The whole shape: one lap of k steps leads from c back to c, climbing all the way, and
      meets every node that is on any cycle; every other member's pointers end at c. */
  ghost predicate OneOrderedRing(g: Graph, c: Id)
    requires Closed(g) && c in g
  {
    && (exists k: nat :: Lap(g, c, k))
    && (forall n :: n in g ==> exists j: nat :: Iter(g, n, j) == c)
    && (forall a, b :: a in g && b in g && OnCycle(g, a) && OnCycle(g, b) ==> Arc(a, g[a]) <= Arc(a, b))
  }

  ghost predicate Lap(g: Graph, c: Id, k: nat)
    requires Closed(g) && c in g
  {
    && k >= 1 && Iter(g, c, k) == c
    && (forall i: nat, j: nat :: i < j < k ==> Dist(c, Iter(g, c, i)) < Dist(c, Iter(g, c, j)))
    && (forall n :: n in g && OnCycle(g, n) ==> exists i: nat :: i < k && Iter(g, c, i) == n)
  }

  lemma LapOfCreator(g: Graph, c: Id)
    requires Closed(g) && Rooted(g, c)
    ensures Lap(g, c, StepsHome(g, c, c))
  {
    var k := StepsHome(g, c, c);
    Climb(g, c, c, k);
    forall i: nat, j: nat | i < j < k ensures Dist(c, Iter(g, c, i)) < Dist(c, Iter(g, c, j)) {
      StepsHomeAlong(g, c, c, i);
      IterAdds(g, c, i, j - i);
      Climb(g, c, Iter(g, c, i), j - i);
    }
    forall n | n in g && OnCycle(g, n) ensures exists i: nat :: i < k && Iter(g, c, i) == n {
      OneCycle(g, c, n);
      var i := FirstLap(g, c, n);
    }
  }

  lemma {:induction false} FirstLap(g: Graph, c: Id, n: Id) returns (i: nat)
    requires Closed(g) && Rooted(g, c) && n in g && OnRing(g, c, n)
    ensures i < StepsHome(g, c, c) && Iter(g, c, i) == n
  {
    i := FirstLapFrom(g, c, c, n);
  }

  lemma {:induction false} FirstLapFrom(g: Graph, c: Id, m: Id, n: Id) returns (i: nat)
    requires Closed(g) && Rooted(g, c) && m in g && n in g && Leads(g, m, n)
    requires Dist(c, m) <= Dist(c, n)
    ensures i < StepsHome(g, c, m) && Iter(g, m, i) == n
    decreases Dist(m, n)
  {
    if m == n {
      i := 0;
    } else {
      i := FirstLapFrom(g, c, g[m], n);
      i := i + 1;
    }
  }

  lemma CycleInOrder(g: Graph, c: Id, a: Id, b: Id)
    requires Closed(g) && Rooted(g, c) && a in g && b in g
    requires OnCycle(g, a) && OnCycle(g, b)
    ensures Arc(a, g[a]) <= Arc(a, b)
  {
    OneCycle(g, c, a);
    OneCycle(g, c, b);
    RingInOrder(g, c, a, b);
  }

  /** Whatever its history, a rooted graph is one ordered ring with everything else leading into it. */
  lemma RootedIsOneRing(g: Graph, c: Id)
    requires Closed(g) && Rooted(g, c)
    ensures OneOrderedRing(g, c)
  {
    LapOfCreator(g, c);
    forall n | n in g ensures exists j: nat :: Iter(g, n, j) == c {
      Climb(g, c, n, StepsHome(g, c, n));
    }
    forall a, b | a in g && b in g && OnCycle(g, a) && OnCycle(g, b) ensures Arc(a, g[a]) <= Arc(a, b) {
      CycleInOrder(g, c, a, b);
    }
  }

  /** n may take p as its next pointer: it points at itself, or p comes after n and no later than g[n]. */
  predicate Between(g: Graph, n: Id, p: Id)
    requires n in g
  {
    g[n] == n || (n != p && Dist(n, p) <= Dist(n, g[n]))
  }

  /** Redirecting n to such a p keeps every path, as long as p itself leads to the old target. */
  lemma {:induction false} RedirectKeepsPaths(g: Graph, n: Id, p: Id, a: Id, b: Id)
    requires Closed(g) && n in g && p in g && a in g && b in g
    requires Between(g, n, p) && Leads(g, p, g[n])
    requires Leads(g, a, b)
    ensures Closed(g[n := p]) && Leads(g[n := p], a, b)
    decreases Dist(a, b)
  {
    var g' := g[n := p];
    if a == b {
    } else if a != n {
      RedirectKeepsPaths(g, n, p, g[a], b);
    } else {
      var s := g[n];
      RedirectKeepsPaths(g, n, p, s, b);
      RedirectKeepsPaths(g, n, p, p, s);
      LeadsTrans(g', p, s, b);
    }
  }

  /** A new member takes nothing away. */
  lemma {:induction false} JoinKeepsPaths(g: Graph, j: Id, s: Id, a: Id, b: Id)
    requires Closed(g) && j !in g && s in g && a in g && b in g
    requires Leads(g, a, b)
    ensures Closed(g[j := s]) && Leads(g[j := s], a, b)
    decreases Dist(a, b)
  {
    if a != b {
      JoinKeepsPaths(g, j, s, g[a], b);
    }
  }

  /** A ring node is pointed at by a ring node. */
  lemma RingPredecessor(g: Graph, c: Id, r: Id) returns (v: Id)
    requires Closed(g) && Rooted(g, c) && r in g && OnRing(g, c, r)
    ensures v in g && OnRing(g, c, v) && g[v] == r
  {
    OneCycle(g, c, r);
    var k: nat :| k >= 1 && Iter(g, r, k) == r;
    var i := LeadsIsPath(g, c, r);
    v := Iter(g, r, k - 1);
    IterAdds(g, r, k - 1, 1);
    assert Iter(g, v, 1) == g[v];
    IterAdds(g, c, i, k - 1);
    ReachedIsOnRing(g, c, i + (k - 1));
  }

  /** No two nodes share a successor. */
  ghost predicate NoSharing(g: Graph) {
    forall a, b {:trigger Apart(g, a, b)} :: Apart(g, a, b)
  }

  ghost predicate Apart(g: Graph, a: Id, b: Id) {
    a in g && b in g && g[a] == g[b] ==> a == b
  }

  /** When no two nodes share a successor, everybody is on the ring. */
  lemma {:induction false} NoSharingAllOnRing(g: Graph, c: Id, m: Id)
    requires Closed(g) && Rooted(g, c) && m in g
    requires NoSharing(g)
    ensures OnRing(g, c, m)
    decreases StepsHome(g, c, m)
  {
    if g[m] != c {
      NoSharingAllOnRing(g, c, g[m]);
    }
    var v := RingPredecessor(g, c, g[m]);
    assert Apart(g, m, v);
  }

  /** So then every pointer goes to the next member. */
  lemma NoSharingInOrder(g: Graph, c: Id, n: Id, m: Id)
    requires Closed(g) && Rooted(g, c) && n in g && m in g && NoSharing(g)
    ensures Arc(n, g[n]) <= Arc(n, m)
  {
    NoSharingAllOnRing(g, c, n);
    NoSharingAllOnRing(g, c, m);
    RingInOrder(g, c, n, m);
  }

  /** a leads to b in a graph whose pointers all name members. */
  ghost predicate Path(g: Graph, a: Id, b: Id) {
    Closed(g) && a in g && b in g && Leads(g, a, b)
  }

  ghost predicate PathsKept(g: Graph, g': Graph) {
    forall a, b {:trigger Path(g', a, b)} :: Path(g, a, b) ==> Path(g', a, b)
  }

  lemma RedirectKeepsAllPaths(g: Graph, n: Id, p: Id)
    requires Closed(g) && n in g && Between(g, n, p) && Path(g, p, g[n])
    ensures PathsKept(g, g[n := p])
  {
    forall a, b | Path(g, a, b) ensures Path(g[n := p], a, b) {
      RedirectKeepsPaths(g, n, p, a, b);
    }
  }

  lemma JoinKeepsAllPaths(g: Graph, j: Id, s: Id)
    requires Closed(g) && j !in g && s in g
    ensures PathsKept(g, g[j := s])
  {
    forall a, b | Path(g, a, b) ensures Path(g[j := s], a, b) {
      JoinKeepsPaths(g, j, s, a, b);
    }
  }

  // ---------------------------------------------------------------- when the ring loses nodes

  /** A ring node points at a ring node. */
  lemma RingSuccessor(g: Graph, c: Id, n: Id)
    requires Closed(g) && Rooted(g, c) && Path(g, c, n)
    ensures Path(g, c, g[n])
  {
    var k := LeadsIsPath(g, c, n);
    IterAdds(g, c, k, 1);
    assert Iter(g, n, 1) == g[n];
    ReachedIsOnRing(g, c, k + 1);
  }

  /** Everybody leads to c. */
  lemma {:induction false} AllLeadToCreator(g: Graph, c: Id, n: Id)
    requires Closed(g) && Rooted(g, c) && n in g
    ensures Leads(g, n, c)
    decreases Dist(n, c)
  {
    assert NoSkip(c, n, g[n]);
    if n != c {
      AllLeadToCreator(g, c, g[n]);
    }
  }

  /** n takes p as its next pointer, and p is not n itself. */
  predicate Redirects(g: Graph, n: Id, p: Id) {
    n in g && p in g && p != n && Between(g, n, p)
  }

  lemma RedirectKeepsRooted(g: Graph, c: Id, n: Id, p: Id)
    requires Closed(g) && Rooted(g, c) && Redirects(g, n, p)
    ensures Closed(g[n := p]) && Rooted(g[n := p], c)
  {
    assert NoSkip(c, n, g[n]);
    forall m {:trigger NoSkip(c, m, g[n := p][m])} | m in g ensures NoSkip(c, m, g[n := p][m]) {
      assert NoSkip(c, m, g[m]);
    }
  }

  /** Redirecting a node off the ring touches no path along the ring. */
  lemma {:induction false} OffRingRedirect(g: Graph, c: Id, n: Id, p: Id, a: Id, r: Id)
    requires Closed(g) && Rooted(g, c) && Redirects(g, n, p) && !Path(g, c, n)
    requires Path(g, c, a) && Path(g, a, r)
    ensures Path(g[n := p], a, r)
    decreases Dist(a, r)
  {
    RedirectKeepsRooted(g, c, n, p);
    if a != r {
      RingSuccessor(g, c, a);
      OffRingRedirect(g, c, n, p, g[a], r);
    }
  }

  /** In the redirected graph the way along the ring to the old target s still passes through n. */
  lemma {:induction false} WayPassesThrough(g: Graph, c: Id, n: Id, p: Id, a: Id)
    requires Closed(g) && Rooted(g, c) && Redirects(g, n, p)
    requires g[n] != c && Dist(c, a) <= Dist(c, n) && Path(g, a, n) && Path(g[n := p], a, g[n])
    ensures Path(g[n := p], n, g[n])
    decreases Dist(a, n)
  {
    assert NoSkip(c, n, g[n]) && NoSkip(c, a, g[a]);
    if a != n {
      WayPassesThrough(g, c, n, p, g[a]);
    }
  }

  /** What leads to s from nearer than n does not pass through n. */
  lemma {:induction false} TailAvoids(g: Graph, n: Id, p: Id, q: Id, s: Id)
    requires Closed(g) && Redirects(g, n, p) && q in g && s in g && Dist(q, s) < Dist(n, s)
    requires Path(g[n := p], q, s)
    ensures Path(g, q, s)
    decreases Dist(q, s)
  {
    if q != s {
      TailAvoids(g, n, p, g[q], s);
    }
  }

  /** The ring of g' has all the nodes the ring of g has. */
  ghost predicate RingKept(g: Graph, g': Graph, c: Id) {
    forall r {:trigger Path(g', c, r)} :: Path(g, c, r) ==> Path(g', c, r)
  }

  /** Redirecting a ring node keeps the ring only if the new target leads to the old one. */
  lemma KeptMeansLeads(g: Graph, c: Id, n: Id, p: Id)
    requires Closed(g) && Rooted(g, c) && Redirects(g, n, p)
    requires Path(g, c, n) && RingKept(g, g[n := p], c)
    ensures Path(g, p, g[n])
  {
    if g[n] == c {
      AllLeadToCreator(g, c, p);
    } else {
      assert NoSkip(c, n, g[n]);
      RingSuccessor(g, c, n);
      WayPassesThrough(g, c, n, p, c);
      TailAvoids(g, n, p, p, g[n]);
    }
  }

  /** Exactly when a redirection takes nobody off the ring: n is not on it, or its new target leads to
      the old one. */
  lemma RedirectKeepsRing(g: Graph, c: Id, n: Id, p: Id)
    requires Closed(g) && Rooted(g, c) && Redirects(g, n, p)
    ensures RingKept(g, g[n := p], c) <==> !Path(g, c, n) || Path(g, p, g[n])
  {
    var g' := g[n := p];
    if !Path(g, c, n) {
      assert Path(g, c, c);
      forall r {:trigger Path(g', c, r)} | Path(g, c, r) ensures Path(g', c, r) {
        OffRingRedirect(g, c, n, p, c, r);
      }
    } else if Path(g, p, g[n]) {
      RedirectKeepsAllPaths(g, n, p);
    } else if RingKept(g, g', c) {
      KeptMeansLeads(g, c, n, p);
    }
  }
}
