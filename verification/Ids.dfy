/** The 32-bit identifier circle (hash_type, src/libdht.h) and the one comparison every
    routing decision is built on, node_id_in_range (src/node.c). */
module Ids {

  const RING: int := 0x1_0000_0000

  type Id = x: int | 0 <= x < RING witness 0

  /** Unsigned 32-bit addition, with its wrap-around. */
  function Plus(a: Id, k: Id): Id {
    if a + k < RING then a + k else a + k - RING
  }

  /** Clockwise distance from a to b: b - a modulo 2^32. */
  function Dist(a: Id, b: Id): Id {
    if a <= b then b - a else b - a + RING
  }

  lemma DistIsModular(a: Id, b: Id)
    ensures Dist(a, b) == (b - a) % RING
    ensures Plus(a, Dist(a, b)) == b
  {
  }

  /** Clockwise length of the arc from a to b, where going from a back to a is one full turn. */
  function Arc(a: Id, b: Id): (d: nat)
    ensures 1 <= d <= RING
  {
    if a == b then RING else Dist(a, b)
  }

  /** node_id_in_range, with the three cases of the source. It holds exactly when id is met
      no later than max on the way clockwise from min. */
  predicate InRange(id: Id, min: Id, max: Id)
    ensures InRange(id, min, max) <==> Dist(min, id) <= Dist(min, max)
  {
    if max > min then min <= id <= max
    else if max < min then id >= min || id <= max
    else id == max
  }

  /** The arc from n to s does not jump over c: it ends at c or before it. */
  predicate NoSkip(c: Id, n: Id, s: Id) {
    s == c || Dist(c, n) < Dist(c, s)
  }

  function Pow2(k: nat): (p: nat)
    ensures p >= 1
  {
    if k == 0 then 1 else 2 * Pow2(k - 1)
  }

  lemma {:induction false} Pow2Grows(j: nat, k: nat)
    requires j <= k
    ensures Pow2(j) <= Pow2(k)
    decreases k
  {
    if j < k {
      Pow2Grows(j, k - 1);
    }
  }

  lemma Pow2Of32()
    ensures Pow2(30) == 0x4000_0000 && Pow2(31) == 0x8000_0000 && Pow2(32) == RING
  {
    assert Pow2(10) == 1024;
    assert Pow2(20) == 1024 * 1024;
    assert Pow2(30) == 1024 * 1024 * 1024;
  }

  /** two_to_the_n on the range where its 32-bit shift does not overflow: the call sites pass 0..30. */
  function TwoToTheN(n: int): (p: int)
    requires n <= 30
    ensures n >= 0 ==> p == Pow2(n)
    ensures 1 <= p < RING
  {
    if n < 1 then 1
    else
      Pow2Grows(n, 30);
      Pow2Of32();
      Shift(2, n - 1)
  }

  /** x << k as repeated doubling. */
  function Shift(x: nat, k: nat): (r: nat)
    ensures r == x * Pow2(k)
  {
    if k == 0 then x else 2 * Shift(x, k - 1)
  }
}
