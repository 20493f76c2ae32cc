/** The members in clockwise order: who comes next, who comes first at or after an id. */
module Members {
  import opened Ids

  /** s is the next member clockwise after n; a lone member comes after itself. */
  ghost predicate IsNext(members: set<Id>, n: Id, s: Id) {
    s in members && forall m {:trigger Arc(n, m)} :: m in members ==> Arc(n, s) <= Arc(n, m)
  }

  ghost predicate IsPrev(members: set<Id>, n: Id, p: Id) {
    p in members && forall m {:trigger Arc(m, n)} :: m in members ==> Arc(p, n) <= Arc(m, n)
  }

  ghost predicate IsFirstAtOrAfter(members: set<Id>, x: Id, s: Id) {
    s in members && forall m {:trigger Dist(x, m)} :: m in members ==> Dist(x, s) <= Dist(x, m)
  }

  ghost function Next(members: set<Id>, n: Id): (s: Id)
    requires members != {}
    ensures IsNext(members, n, s)
    decreases |members|
  {
    var x :| x in members;
    var rest := members - {x};
    assert forall m :: m in members ==> m == x || m in rest;
    if rest == {} then x
    else
      var y := Next(rest, n);
      if Arc(n, x) <= Arc(n, y) then x else y
  }

  ghost function Prev(members: set<Id>, n: Id): (p: Id)
    requires members != {}
    ensures IsPrev(members, n, p)
    decreases |members|
  {
    var x :| x in members;
    var rest := members - {x};
    assert forall m :: m in members ==> m == x || m in rest;
    if rest == {} then x
    else
      var y := Prev(rest, n);
      if Arc(x, n) <= Arc(y, n) then x else y
  }

  ghost function FirstAtOrAfter(members: set<Id>, x: Id): (s: Id)
    requires members != {}
    ensures IsFirstAtOrAfter(members, x, s)
  {
    if x in members then x
    else
      var s := Next(members, x);
      assert forall m {:trigger Dist(x, m)} :: m in members ==> Arc(x, s) <= Arc(x, m);
      s
  }

  lemma NextIsUnique(members: set<Id>, n: Id, s: Id)
    requires IsNext(members, n, s)
    ensures s == Next(members, n)
  {
    assert Arc(n, s) == Arc(n, Next(members, n));
  }

  /** Next and previous undo each other. */
  lemma PrevOfNext(members: set<Id>, n: Id, s: Id)
    requires n in members && IsNext(members, n, s)
    ensures IsPrev(members, s, n)
  {
    forall m | m in members ensures Arc(n, s) <= Arc(m, s) {
      assert Arc(n, s) <= Arc(n, m);
    }
  }

  lemma NextOfPrev(members: set<Id>, n: Id, p: Id)
    requires n in members && IsPrev(members, n, p)
    ensures IsNext(members, p, n)
  {
    forall m | m in members ensures Arc(p, n) <= Arc(p, m) {
      assert Arc(p, n) <= Arc(m, n);
    }
  }

  lemma PrevIsUnique(members: set<Id>, n: Id, p: Id, q: Id)
    requires IsPrev(members, n, p) && IsPrev(members, n, q)
    ensures p == q
  {
    assert Arc(p, n) == Arc(q, n);
  }

  lemma FirstIsUnique(members: set<Id>, x: Id, s: Id, t: Id)
    requires IsFirstAtOrAfter(members, x, s) && IsFirstAtOrAfter(members, x, t)
    ensures s == t
  {
    assert Dist(x, s) == Dist(x, t);
  }

  /** For an id in (n, s], where s is next after n, the first member at or after it is s. */
  lemma FirstInGap(members: set<Id>, n: Id, s: Id, x: Id)
    requires n in members && IsNext(members, n, s)
    requires x != n && (Dist(n, x) <= Dist(n, s) || n == s)
    ensures IsFirstAtOrAfter(members, x, s)
  {
    forall m | m in members ensures Dist(x, s) <= Dist(x, m) {
      assert Arc(n, s) <= Arc(n, m);
    }
  }

  lemma FirstAfterPlusOne(members: set<Id>, n: Id, s: Id)
    requires n in members && IsFirstAtOrAfter(members, Plus(n, 1), s)
    ensures IsNext(members, n, s)
  {
    forall m | m in members ensures Arc(n, s) <= Arc(n, m) {
      assert Dist(Plus(n, 1), s) <= Dist(Plus(n, 1), m);
    }
  }

  /** k steps clockwise from n. */
  ghost function Nth(members: set<Id>, n: Id, k: nat): (m: Id)
    requires n in members
    ensures m in members
    decreases k
  {
    if k == 0 then n else Next(members, Nth(members, n, k - 1))
  }
}
