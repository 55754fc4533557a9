/** The mempool as the block assembler sees it: a finite graph of unconfirmed transactions
    with their transitive ancestors and the totals over them. */
module Mempool {

  /** A size, a signature-operation count and a modified fee, which may be negative. */
  datatype Cost = Cost(size: int, sigOps: int, fee: int) {
    function Plus(c: Cost): Cost { Cost(size + c.size, sigOps + c.sigOps, fee + c.fee) }
    function PlusIf(b: bool, c: Cost): Cost { if b then Plus(c) else this }
    function Minus(c: Cost): Cost { Cost(size - c.size, sigOps - c.sigOps, fee - c.fee) }
    predicate AtMost(c: Cost) { size <= c.size && sigOps <= c.sigOps }
  }

  const ZERO := Cost(0, 0, 0)

  datatype Tx = Tx(cost: Cost, isFinal: bool, parents: set<nat>)

  /** A pool lists its transactions so that in-pool parents come first; any finite acyclic
      graph can be listed so.  A transaction is named by its place in the list. */
  type Pool = p: seq<Tx> | IsPool(p)

  ghost predicate IsPool(p: seq<Tx>) {
    forall i | 0 <= i < |p| :: ZERO.AtMost(p[i].cost) && forall q | q in p[i].parents :: q < i
  }

  /** CalculateMemPoolAncestors without limits: everything reachable over parents. */
  function Ancestors(pool: Pool, t: nat): (r: set<nat>)
    requires t < |pool|
    ensures forall a | a in r :: a < t
  {
    set p, a | p in pool[t].parents && a in Ancestors(pool, p) + {p} :: a
  }

  /** CalculateDescendants, without the transaction itself. */
  function Descendants(pool: Pool, t: nat): set<nat>
    requires t < |pool|
  {
    set d: nat | d < |pool| && t in Ancestors(pool, d)
  }

  lemma {:induction false} AncestorsTransitive(pool: Pool, t: nat, a: nat)
    requires t < |pool| && a in Ancestors(pool, t)
    ensures Ancestors(pool, a) < Ancestors(pool, t)
  {
    var p :| p in pool[t].parents && a in Ancestors(pool, p) + {p};
    if a != p { AncestorsTransitive(pool, p, a); }
    forall b | b in Ancestors(pool, a) ensures b in Ancestors(pool, t) {
      assert b in Ancestors(pool, p) + {p};
    }
  }

  // ---------- Totals over sets of transactions ----------

  function SumBelow(pool: seq<Tx>, s: set<nat>, n: nat): Cost
    requires n <= |pool|
  {
    if n == 0 then ZERO else SumBelow(pool, s, n - 1).PlusIf(n - 1 in s, pool[n - 1].cost)
  }

  function Sum(pool: seq<Tx>, s: set<nat>): Cost { SumBelow(pool, s, |pool|) }

  lemma {:induction false} SumDisjoint(pool: seq<Tx>, s: set<nat>, t: set<nat>, n: nat)
    requires n <= |pool| && s !! t
    ensures SumBelow(pool, s + t, n) == SumBelow(pool, s, n).Plus(SumBelow(pool, t, n))
    decreases n
  {
    if n == 0 {
      assert SumBelow(pool, s, 0) == SumBelow(pool, t, 0) == SumBelow(pool, s + t, 0) == ZERO;
    } else {
      SumDisjoint(pool, s, t, n - 1);
      PlusIfSplit(SumBelow(pool, s, n - 1), SumBelow(pool, t, n - 1), n - 1 in s, n - 1 in t, pool[n - 1].cost);
    }
  }

  lemma {:induction false} PlusIfSplit(a: Cost, b: Cost, p: bool, q: bool, c: Cost)
    requires !(p && q)
    ensures a.Plus(b).PlusIf(p || q, c) == a.PlusIf(p, c).Plus(b.PlusIf(q, c))
  {
  }

  lemma {:induction false} SumSingle(pool: seq<Tx>, x: nat, n: nat)
    requires x < |pool| && n <= |pool|
    ensures SumBelow(pool, {x}, n) == if x < n then pool[x].cost else ZERO
  {
    if n > 0 { SumSingle(pool, x, n - 1); }
  }

  lemma {:induction false} SumInsert(pool: seq<Tx>, s: set<nat>, x: nat)
    requires x < |pool| && x !in s
    ensures Sum(pool, s + {x}) == Sum(pool, s).Plus(pool[x].cost)
  {
    SumDisjoint(pool, s, {x}, |pool|);
    SumSingle(pool, x, |pool|);
  }

  lemma {:induction false} SumNonNegative(pool: Pool, s: set<nat>, n: nat)
    requires n <= |pool|
    ensures ZERO.AtMost(SumBelow(pool, s, n))
  {
    if n > 0 { SumNonNegative(pool, s, n - 1); }
  }

  /** How many of the first n transactions are not in s. */
  function Missing(s: set<nat>, n: nat): nat {
    if n == 0 then 0 else Missing(s, n - 1) + if n - 1 in s then 0 else 1
  }

  lemma {:induction false} MissingInsert(s: set<nat>, x: nat, n: nat)
    requires x !in s
    ensures Missing(s + {x}, n) == Missing(s, n) - if x < n then 1 else 0
  {
    if n > 0 { MissingInsert(s, x, n - 1); }
  }

  /** GetSizeWithAncestors and GetSigOpCountWithAncestors of an entry. */
  function CostWithAncestors(pool: Pool, t: nat): Cost
    requires t < |pool|
  {
    Sum(pool, Ancestors(pool, t) + {t})
  }

  /** GetCountWithAncestors. */
  function CountWithAncestors(pool: Pool, t: nat): nat
    requires t < |pool|
  {
    |Ancestors(pool, t)| + 1
  }

  /** A transaction has more ancestors than any of its ancestors. */
  lemma {:induction false} CountGrows(pool: Pool, t: nat, a: nat)
    requires t < |pool| && a in Ancestors(pool, t)
    ensures CountWithAncestors(pool, a) < CountWithAncestors(pool, t)
  {
    AncestorsTransitive(pool, t, a);
    SubsetSmaller(Ancestors(pool, a), Ancestors(pool, t));
  }

  lemma {:induction false} SubsetSmaller(s: set<nat>, t: set<nat>)
    requires s < t
    ensures |s| < |t|
  {
    var x :| x in t && x !in s;
    if s == {} {
    } else {
      var y :| y in s;
      assert x in t - {y} && x !in s - {y};
      SubsetSmaller(s - {y}, t - {y});
    }
  }
}
