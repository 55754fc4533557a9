/** Package selection of src/blockassembler.cpp over a mempool without shielded transactions.

    Fee rates decide in which order packages are tried; that choice is left arbitrary here, so everything
    holds for every order. */
module BlockAssembler {
  import opened Options
  import opened Mempool

  const MAX_BLOCK_SIGOPS_CURRENT := 40000

  // ---------- Blocks ----------

  lemma {:induction false} ElementsAppend(s: seq<nat>, x: nat)
    ensures Elements(s + [x]) == Elements(s) + {x}
  {
  }

  /** No transaction twice, and each after all its mempool ancestors. */
  ghost predicate Ordered(pool: Pool, block: seq<nat>) {
    && (forall i | 0 <= i < |block| :: block[i] < |pool| && Ancestors(pool, block[i]) <= Elements(block[..i]))
    && (forall i, j | 0 <= i < j < |block| :: block[i] != block[j])
  }

  lemma {:induction false} OrderedAppend(pool: Pool, block: seq<nat>, t: nat)
    requires Ordered(pool, block) && t < |pool| && t !in block && Ancestors(pool, t) <= Elements(block)
    ensures Ordered(pool, block + [t]) && Elements(block + [t]) == Elements(block) + {t}
  {
    var b := block + [t];
    forall i | 0 <= i < |b| ensures b[i] < |pool| && Ancestors(pool, b[i]) <= Elements(b[..i]) {
      assert b[..i] == block[..i];
      if i == |block| { assert block[..i] == block; }
    }
  }

  lemma {:induction false} EmptyBlock(pool: Pool, block: seq<nat>, inBlock: set<nat>, start: Cost)
    requires block == [] && inBlock == {}
    ensures Ordered(pool, block) && Elements(block) == inBlock && start.Plus(Sum(pool, inBlock)) == start
  {
    SumEmpty(pool, |pool|);
  }

  /** A set that holds the ancestors of each of its members. */
  ghost predicate Closed(pool: Pool, s: set<nat>) {
    forall t | t in s :: t < |pool| && Ancestors(pool, t) <= s
  }

  lemma {:induction false} OrderedClosed(pool: Pool, block: seq<nat>)
    requires Ordered(pool, block)
    ensures Closed(pool, Elements(block))
  {
    forall t | t in Elements(block) ensures t < |pool| && Ancestors(pool, t) <= Elements(block) {
      var i :| 0 <= i < |block| && block[i] == t;
      assert Elements(block[..i]) <= Elements(block);
    }
  }

  // ---------- The cached totals ----------

  /** The transaction and those of its ancestors that are not in the block yet. */
  function Remaining(pool: Pool, inBlock: set<nat>, t: nat): set<nat>
    requires t < |pool|
  {
    Ancestors(pool, t) + {t} - inBlock
  }

  /** mapModifiedTx: totals never below the true ones, exact unless the entry failed before;
      and whoever is in neither the block, the map nor failedTx has no ancestor in the block,
      so that the totals stored in its mempool entry are still right. */
  ghost predicate Tracks(pool: Pool, inBlock: set<nat>, modified: map<nat, Cost>, failed: set<nat>) {
    && (forall t | t in modified ::
         && t < |pool| && t !in inBlock
         && Sum(pool, Remaining(pool, inBlock, t)).AtMost(modified[t])
         && (t !in failed ==> modified[t] == Sum(pool, Remaining(pool, inBlock, t))))
    && (forall t: nat | t < |pool| && t !in inBlock && t !in modified && t !in failed ::
         Ancestors(pool, t) !! inBlock)
  }

  /** No entry is below its true total. */
  ghost predicate LowerBounds(pool: Pool, inBlock: set<nat>, modified: map<nat, Cost>) {
    forall t | t in modified :: t < |pool| && Sum(pool, Remaining(pool, inBlock, t)).AtMost(modified[t])
  }

  /** The entry of `t` once the transactions `done`, part of `added`, have been accounted for. */
  function Updated(pool: Pool, modified: map<nat, Cost>, added: set<nat>, done: set<nat>, t: nat): Option<Cost>
    requires t < |pool|
  {
    var hit := Ancestors(pool, t) * done;
    if t in added || hit == {} then Lookup(modified, t)
    else Some((if t in modified then modified[t] else CostWithAncestors(pool, t)).Minus(Sum(pool, hit)))
  }

  /** A whole map so updated. */
  ghost predicate IsUpdated(pool: Pool, modified: map<nat, Cost>, added: set<nat>, done: set<nat>,
          modified': map<nat, Cost>) {
    && (forall t | t in modified' :: t < |pool|)
    && (forall t: nat | t < |pool| :: Lookup(modified', t) == Updated(pool, modified, added, done, t))
  }

  lemma {:induction false} NothingToUpdate(pool: Pool, modified': map<nat, Cost>)
    requires IsUpdated(pool, map[], {}, {}, modified')
    ensures modified' == map[] && Tracks(pool, {}, modified', {})
  {
    forall t: nat | t < |pool| ensures t !in modified' {
      assert Lookup(modified', t) == Updated(pool, map[], {}, {}, t);
    }
  }

  /** Accounting for one more ancestor subtracts its cost. */
  lemma {:induction false} UpdatedStep(pool: Pool, modified: map<nat, Cost>, added: set<nat>, done: set<nat>,
          it: nat, t: nat)
    requires t < |pool| && it < |pool| && it !in done
    ensures var now, next := Updated(pool, modified, added, done, t), Updated(pool, modified, added, done + {it}, t);
      if t in added || it !in Ancestors(pool, t) then next == now
      else next == Some((if now.Some? then now.value else CostWithAncestors(pool, t)).Minus(pool[it].cost))
  {
    var anc := Ancestors(pool, t);
    if it in anc {
      assert anc * (done + {it}) == anc * done + {it};
      SumInsert(pool, anc * done, it);
      if anc * done == {} { assert Sum(pool, anc * done) == ZERO by { SumEmpty(pool, |pool|); } }
    } else {
      assert anc * (done + {it}) == anc * done;
    }
  }

  lemma {:induction false} SumEmpty(pool: Pool, n: nat)
    requires n <= |pool|
    ensures SumBelow(pool, {}, n) == ZERO
  {
    if n > 0 { SumEmpty(pool, n - 1); }
  }

  lemma {:induction false} SumMonotone(pool: Pool, s: set<nat>, t: set<nat>)
    requires s <= t
    ensures Sum(pool, s).AtMost(Sum(pool, t))
  {
    SumDisjoint(pool, s, t - s, |pool|);
    assert s + (t - s) == t;
    SumNonNegative(pool, t - s, |pool|);
  }

  /** No subtraction underflows: what is subtracted is still part of the total. */
  lemma {:induction false} NoUnderflow(pool: Pool, was: set<nat>, modified: map<nat, Cost>,
                                       added: set<nat>, done: set<nat>, it: nat, t: nat)
    requires LowerBounds(pool, was, modified) && added !! was && done <= added && it in added && it !in done
    requires t < |pool| && t !in added && it in Ancestors(pool, t)
    ensures var now := Updated(pool, modified, added, done, t);
      pool[it].cost.AtMost(if now.Some? then now.value else CostWithAncestors(pool, t))
  {
    var anc := Ancestors(pool, t);
    var base := if t in modified then Remaining(pool, was, t) else anc + {t};
    assert anc * done + {it} <= base;
    SumMonotone(pool, anc * done + {it}, base);
    SumInsert(pool, anc * done, it);
    SumNonNegative(pool, anc * done, |pool|);
  }

  /** UpdatePackagesForAdded restores the meaning of the cached totals after a package entered
      the block. */
  lemma {:induction false} UpdateRestoresTracking(pool: Pool, was: set<nat>, added: set<nat>, failed: set<nat>,
                                                  modified: map<nat, Cost>, modified': map<nat, Cost>)
    requires Tracks(pool, was, modified, failed) && added !! was && Closed(pool, was) && Closed(pool, was + added)
    requires forall t | t in modified' :: t < |pool|
    requires forall t: nat | t < |pool| ::
      Lookup(modified', t) == if t in added then None else Updated(pool, modified, added, added, t)
    ensures Tracks(pool, was + added, modified', failed)
  {
    forall t: nat | t < |pool| && t !in was + added
      ensures t in modified' ==>
        && Sum(pool, Remaining(pool, was + added, t)).AtMost(modified'[t])
        && (t !in failed ==> modified'[t] == Sum(pool, Remaining(pool, was + added, t)))
      ensures t !in modified' && t !in failed ==> Ancestors(pool, t) !! was + added
    {
      TrackOne(pool, was, added, failed, modified, t);
      assert Lookup(modified', t) == Updated(pool, modified, added, added, t);
    }
    forall t | t in modified' ensures t !in was + added {
      if t in was { NotInWas(pool, was, added, modified, failed, t); }
    }
  }

  lemma {:induction false} NotInWas(pool: Pool, was: set<nat>, added: set<nat>, modified: map<nat, Cost>,
          failed: set<nat>, t: nat)
    requires Tracks(pool, was, modified, failed) && Closed(pool, was) && added !! was && t in was
    ensures t < |pool| && Updated(pool, modified, added, added, t) == None
  {
    assert Ancestors(pool, t) * added == {};
  }

  lemma {:induction false} TrackOne(pool: Pool, was: set<nat>, added: set<nat>, failed: set<nat>,
          modified: map<nat, Cost>, t: nat)
    requires Tracks(pool, was, modified, failed) && added !! was
    requires t < |pool| && t !in was + added
    ensures var u := Updated(pool, modified, added, added, t);
      && (u.Some? ==>
           && Sum(pool, Remaining(pool, was + added, t)).AtMost(u.value)
           && (t !in failed ==> u.value == Sum(pool, Remaining(pool, was + added, t))))
      && (u.None? && t !in failed ==> Ancestors(pool, t) !! was + added)
  {
    var anc := Ancestors(pool, t);
    var hit := anc * added;
    var rest := Remaining(pool, was + added, t);
    if hit == {} {
      assert rest == Remaining(pool, was, t);
    } else {
      assert rest + hit == Remaining(pool, was, t);
      SumDisjoint(pool, rest, hit, |pool|);
      SumMonotone(pool, Remaining(pool, was, t), anc + {t});
      if t !in modified && t !in failed { assert Remaining(pool, was, t) == anc + {t}; }
    }
  }

  /** Erasing the package from the map first makes no difference to the update of the others. */
  lemma {:induction false} ErasedThenUpdated(pool: Pool, full: map<nat, Cost>, modified': map<nat, Cost>,
          added: set<nat>)
    requires IsUpdated(pool, full - added, added, added, modified')
    ensures forall t: nat | t < |pool| ::
      Lookup(modified', t) == if t in added then None else Updated(pool, full, added, added, t)
  {
  }

  /** No other entry leaves the map. */
  lemma {:induction false} NoneForgotten(pool: Pool, was: set<nat>, modified: map<nat, Cost>, modified': map<nat, Cost>,
                                         failed: set<nat>, added: set<nat>)
    requires Tracks(pool, was, modified, failed)
    requires forall t: nat | t < |pool| ::
      Lookup(modified', t) == if t in added then None else Updated(pool, modified, added, added, t)
    ensures modified.Keys <= modified'.Keys + added
  {
    hide Ancestors, Sum;
    forall t | t in modified && t !in added ensures t in modified' {
      assert Lookup(modified', t) == Updated(pool, modified, added, added, t);
    }
  }

  // ---------- What is left out ----------

  /** A candidate that was refused: what was in the block, how large it was and what its package was taken to cost. */
  datatype Refusal = Refusal(iter: nat, inBlock: set<nat>, used: Cost, package: Cost)

  ghost predicate Refuses(pool: Pool, r: Refusal, maxSize: nat) {
    && r.iter < |pool| && r.iter !in r.inBlock && Sum(pool, Remaining(pool, r.inBlock, r.iter)).AtMost(r.package)
    && (|| r.used.size + r.package.size >= maxSize
        || r.used.sigOps + r.package.sigOps >= MAX_BLOCK_SIGOPS_CURRENT
        || exists t :: t in Remaining(pool, r.inBlock, r.iter) && t < |pool| && !pool[t].isFinal)
  }

  /** The refusal belongs to a moment of the run: the block then was a beginning of the block now. */
  ghost predicate AtSomeMoment(pool: Pool, r: Refusal, block: seq<nat>, start: Cost) {
    exists n: nat :: n <= |block| && r.inBlock == Elements(block[..n]) && r.used == start.Plus(Sum(pool, r.inBlock))
  }

  ghost predicate Exact(pool: Pool, r: Refusal) {
    r.iter < |pool| && r.package == Sum(pool, Remaining(pool, r.inBlock, r.iter))
  }

  predicate Refused(refusals: seq<Refusal>, t: nat) { exists i | 0 <= i < |refusals| :: refusals[i].iter == t }

  /** The last candidate: the fee of its package was too low for its size, with the right fee unless it had been
      refused before. */
  ghost predicate Stops(pool: Pool, r: Refusal, refusals: seq<Refusal>, block: seq<nat>, start: Cost, minRelayFee: int -> int) {
    && r.iter < |pool| && r.iter !in r.inBlock && Sum(pool, Remaining(pool, r.inBlock, r.iter)).AtMost(r.package)
    && r.package.fee < minRelayFee(r.package.size)
    && AtSomeMoment(pool, r, block, start) && (Refused(refusals, r.iter) || Exact(pool, r))
  }

  /** Every refusal was one at its moment, with the right cost unless the candidate had been refused before. */
  ghost predicate Account(pool: Pool, refusals: seq<Refusal>, block: seq<nat>, start: Cost, maxSize: nat) {
    forall i | 0 <= i < |refusals| ::
      && Refuses(pool, refusals[i], maxSize) && AtSomeMoment(pool, refusals[i], block, start)
      && (Refused(refusals[..i], refusals[i].iter) || Exact(pool, refusals[i]))
  }

  lemma {:induction false} AccountLater(pool: Pool, refusals: seq<Refusal>, block: seq<nat>, block': seq<nat>, start: Cost, maxSize: nat)
    requires Account(pool, refusals, block, start, maxSize) && block <= block'
    ensures Account(pool, refusals, block', start, maxSize)
  {
    hide Refuses, Sum, Ancestors, Refused, Exact;
    forall i | 0 <= i < |refusals| ensures AtSomeMoment(pool, refusals[i], block', start) {
      var r := refusals[i];
      var n: nat :| n <= |block| && r.inBlock == Elements(block[..n]) && r.used == start.Plus(Sum(pool, r.inBlock));
      assert block'[..n] == block[..n];
    }
  }

  lemma {:induction false} AccountNext(pool: Pool, refusals: seq<Refusal>, r: Refusal, block: seq<nat>, start: Cost, maxSize: nat)
    requires Account(pool, refusals, block, start, maxSize) && Refuses(pool, r, maxSize)
    requires r.inBlock == Elements(block) && r.used == start.Plus(Sum(pool, r.inBlock))
    requires Refused(refusals, r.iter) || Exact(pool, r)
    ensures Account(pool, refusals + [r], block, start, maxSize)
    ensures forall t | Refused(refusals, t) || t == r.iter :: Refused(refusals + [r], t)
  {
    hide Refuses, Sum, Ancestors, Exact;
    var all := refusals + [r];
    assert block[..|block|] == block;
    forall i | 0 <= i < |all|
      ensures Refuses(pool, all[i], maxSize) && AtSomeMoment(pool, all[i], block, start)
      ensures Refused(all[..i], all[i].iter) || Exact(pool, all[i])
    {
      assert all[..i] == if i < |refusals| then refusals[..i] else refusals;
    }
    forall t | Refused(refusals, t) || t == r.iter ensures Refused(all, t) {
      if t == r.iter { assert all[|refusals|].iter == t; }
      if i :| 0 <= i < |refusals| && refusals[i].iter == t { assert all[i].iter == t; }
    }
  }

  ghost predicate AllRefused(refusals: seq<Refusal>, failed: set<nat>) { forall t | t in failed :: Refused(refusals, t) }

  /** Whoever was passed in the index is in the block, in the map or refused. */
  ghost predicate Seen(passed: seq<nat>, inBlock: set<nat>, keys: set<nat>, refusals: seq<Refusal>) {
    forall t | t in passed :: t in inBlock || t in keys || Refused(refusals, t)
  }

  lemma {:induction false} NothingSeen(order: seq<nat>, inBlock: set<nat>, keys: set<nat>, refusals: seq<Refusal>)
    ensures Seen(order[..0], inBlock, keys, refusals) && AllRefused(refusals, {})
  {
  }

  lemma {:induction false} SeenSkipped(order: seq<nat>, mi: nat, inBlock: set<nat>, keys: set<nat>, failed: set<nat>,
          refusals: seq<Refusal>)
    requires mi < |order| && Seen(order[..mi], inBlock, keys, refusals) && AllRefused(refusals, failed)
    requires order[mi] in inBlock || order[mi] in keys || order[mi] in failed
    ensures Seen(order[..mi + 1], inBlock, keys, refusals)
  {
    hide Refused;
    assert order[..mi + 1] == order[..mi] + [order[mi]];
  }

  lemma {:induction false} SeenAdded(order: seq<nat>, mi: nat, mi': nat, was: set<nat>, inBlock: set<nat>, keys: set<nat>,
          keys': set<nat>, refusals: seq<Refusal>)
    requires mi <= mi' <= |order| && mi' <= mi + 1 && Seen(order[..mi], was, keys, refusals)
    requires was <= inBlock && keys <= keys' + inBlock && (mi < mi' ==> order[mi] in inBlock)
    ensures Seen(order[..mi'], inBlock, keys', refusals)
  {
    hide Refused;
    if mi < mi' { assert order[..mi'] == order[..mi] + [order[mi]]; }
  }

  lemma {:induction false} SeenRefused(order: seq<nat>, mi: nat, mi': nat, inBlock: set<nat>, keys: set<nat>,
          keys': set<nat>, refusals: seq<Refusal>, r: Refusal)
    requires mi <= mi' <= |order| && mi' <= mi + 1 && Seen(order[..mi], inBlock, keys, refusals)
    requires keys <= keys' + {r.iter} && (mi < mi' ==> order[mi] == r.iter)
    requires forall t | Refused(refusals, t) || t == r.iter :: Refused(refusals + [r], t)
    ensures Seen(order[..mi'], inBlock, keys', refusals + [r])
  {
    hide Refused;
    if mi < mi' { assert order[..mi'] == order[..mi] + [order[mi]]; }
  }

  lemma {:induction false} IsRemaining(pool: Pool, inBlock: set<nat>, t: nat)
    requires t < |pool| && t !in inBlock
    ensures t in Remaining(pool, inBlock, t) && forall x | x in Remaining(pool, inBlock, t) :: x < |pool|
  {
    hide Ancestors;
  }

  /** A candidate that failed one of the tests. */
  lemma {:induction false} RefusalNow(pool: Pool, r: Refusal, maxSize: nat)
    requires r.iter < |pool| && r.iter !in r.inBlock && Sum(pool, Remaining(pool, r.inBlock, r.iter)).AtMost(r.package)
    requires !(&& r.used.size + r.package.size < maxSize && r.used.sigOps + r.package.sigOps < MAX_BLOCK_SIGOPS_CURRENT
               && forall t | t in Remaining(pool, r.inBlock, r.iter) :: t < |pool| && pool[t].isFinal)
    ensures Refuses(pool, r, maxSize)
  {
    IsRemaining(pool, r.inBlock, r.iter);
    hide Sum, Remaining;
  }

  lemma {:induction false} WasRefused(refusals: seq<Refusal>, failed: set<nat>, t: nat)
    requires AllRefused(refusals, failed)
    ensures t in failed ==> Refused(refusals, t)
  {
  }

  lemma {:induction false} FailedNext(refusals: seq<Refusal>, r: Refusal, failed: set<nat>, failed': set<nat>)
    requires AllRefused(refusals, failed) && failed' <= failed + {r.iter}
    requires forall t | Refused(refusals, t) || t == r.iter :: Refused(refusals + [r], t)
    ensures AllRefused(refusals + [r], failed')
  {
    hide Refused;
  }

  lemma {:induction false} AllSeen(order: seq<nat>, inBlock: set<nat>, refusals: seq<Refusal>)
    requires Seen(order[..|order|], inBlock, {}, refusals)
    ensures forall t | t in order :: t in inBlock || Refused(refusals, t)
  {
    assert order[..|order|] == order;
  }

  lemma {:induction false} NoAccount(pool: Pool, block: seq<nat>, start: Cost, maxSize: nat)
    ensures Account(pool, [], block, start, maxSize)
  {
  }

  lemma {:induction false} NobodyRefused()
    ensures forall t :: !Refused([], t)
  {
  }

  /** If everything together fits and is final, nothing is refused. */
  lemma {:induction false} NothingRefused(pool: Pool, refusals: seq<Refusal>, block: seq<nat>, start: Cost, maxSize: nat)
    requires Account(pool, refusals, block, start, maxSize) && Ordered(pool, block)
    requires forall t: nat | t < |pool| :: pool[t].isFinal
    requires var all := start.Plus(SumBelow(pool, Everything(pool), |pool|)); all.size < maxSize && all.sigOps < MAX_BLOCK_SIGOPS_CURRENT
    ensures refusals == []
  {
    hide Ancestors, SumBelow, Ordered;
    if refusals != [] {
      var r := refusals[0];
      assert refusals[..0] == [] && Refuses(pool, r, maxSize) && AtSomeMoment(pool, r, block, start);
      var rest := Remaining(pool, r.inBlock, r.iter);
      PartOfBlock(pool, r, block, start);
      SumDisjoint(pool, r.inBlock, rest, |pool|);
      SumMonotone(pool, r.inBlock + rest, Everything(pool));
      assert false;
    }
  }

  function Everything(pool: seq<Tx>): set<nat> { Elements(seq(|pool|, (i: nat) => i)) }

  lemma {:induction false} PartOfBlock(pool: Pool, r: Refusal, block: seq<nat>, start: Cost)
    requires AtSomeMoment(pool, r, block, start) && Ordered(pool, block) && r.iter < |pool|
    ensures r.used == start.Plus(Sum(pool, r.inBlock)) && r.inBlock + Remaining(pool, r.inBlock, r.iter) <= Everything(pool)
  {
    hide Ancestors, SumBelow;
    var n: nat :| n <= |block| && r.inBlock == Elements(block[..n]) && r.used == start.Plus(Sum(pool, r.inBlock));
    forall t | t in r.inBlock + Remaining(pool, r.inBlock, r.iter) ensures t in Everything(pool) {
      if t in r.inBlock {
        var i :| 0 <= i < n && block[..n][i] == t;
        assert block[i] == t;
      }
      InEverything(pool, t);
    }
  }

  lemma {:induction false} InEverything(pool: seq<Tx>, t: nat)
    requires t < |pool|
    ensures t in Everything(pool)
  {
    assert seq(|pool|, (i: nat) => i)[t] == t;
  }

  /** The total consulted for a candidate is never below the cost of the package it brings in. */
  lemma {:induction false} PackageCost(pool: Pool, inBlock: set<nat>, modified: map<nat, Cost>, failed: set<nat>,
          t: nat)
    requires Tracks(pool, inBlock, modified, failed) && t < |pool| && t !in inBlock
    ensures t in modified ==> Sum(pool, Remaining(pool, inBlock, t)).AtMost(modified[t])
    ensures t in modified && t !in failed ==> Sum(pool, Remaining(pool, inBlock, t)) == modified[t]
    ensures t !in modified && t !in failed ==> Sum(pool, Remaining(pool, inBlock, t)) == CostWithAncestors(pool, t)
  {
    if t !in modified && t !in failed {
      assert Remaining(pool, inBlock, t) == Ancestors(pool, t) + {t};
    }
  }

  lemma {:induction false} TracksBounds(pool: Pool, inBlock: set<nat>, modified: map<nat, Cost>, failed: set<nat>, gone: set<nat>)
    requires Tracks(pool, inBlock, modified, failed)
    ensures LowerBounds(pool, inBlock, modified - gone)
  {
    hide Ancestors, Sum;
  }

  lemma {:induction false} TracksErase(pool: Pool, inBlock: set<nat>, modified: map<nat, Cost>, failed: set<nat>,
          t: nat)
    requires Tracks(pool, inBlock, modified, failed) && t in modified
    ensures Tracks(pool, inBlock, modified - {t}, failed + {t})
    ensures |modified - {t}| < |modified|
  {
    assert (modified - {t}).Keys == modified.Keys - {t};
  }

  lemma {:induction false} PackageClosed(pool: Pool, inBlock: set<nat>, t: nat)
    requires Closed(pool, inBlock) && t < |pool| && t !in inBlock
    ensures Closed(pool, inBlock + Remaining(pool, inBlock, t))
  {
    var all := inBlock + Remaining(pool, inBlock, t);
    forall x | x in all ensures x < |pool| && Ancestors(pool, x) <= all {
      if x in Ancestors(pool, t) { AncestorsTransitive(pool, t, x); }
    }
  }

  lemma {:induction false} MissingMonotone(s: set<nat>, t: set<nat>, n: nat)
    requires s <= t
    ensures Missing(t, n) <= Missing(s, n)
  {
    if n > 0 { MissingMonotone(s, t, n - 1); }
  }

  lemma {:induction false} MissingShrinks(s: set<nat>, added: set<nat>, n: nat, x: nat)
    requires x in added && x !in s && x < n
    ensures Missing(s + added, n) < Missing(s, n)
  {
    MissingInsert(s, x, n);
    MissingMonotone(s + {x}, s + added, n);
  }

  lemma {:induction false} LeastCountExists(pool: Pool, s: set<nat>) returns (m: nat)
    requires s != {} && forall t | t in s :: t < |pool|
    ensures m in s && forall x | x in s :: CountWithAncestors(pool, m) <= CountWithAncestors(pool, x)
    decreases s
  {
    var y :| y in s;
    m := y;
    var rest := s - {y};
    if rest != {} {
      var m' := LeastCountExists(pool, rest);
      if CountWithAncestors(pool, m') <= CountWithAncestors(pool, y) { m := m'; }
    }
    forall x | x in s ensures CountWithAncestors(pool, m) <= CountWithAncestors(pool, x) {
      if x != y { assert x in rest; }
    }
  }

  /** Sorted by ancestor count, nothing twice. */
  ghost predicate ByCount(pool: Pool, sorted: seq<nat>) {
    && (forall i | 0 <= i < |sorted| :: sorted[i] < |pool|)
    && (forall i, j | 0 <= i < j < |sorted| ::
         sorted[i] != sorted[j] && CountWithAncestors(pool, sorted[i]) <= CountWithAncestors(pool, sorted[j]))
  }

  /** In a package sorted by ancestor count, ancestors come first. */
  lemma {:induction false} ComesEarlier(pool: Pool, sorted: seq<nat>, i: nat, a: nat)
    requires ByCount(pool, sorted) && i < |sorted| && a in Ancestors(pool, sorted[i]) && a in sorted
    ensures a in sorted[..i]
  {
    var j :| 0 <= j < |sorted| && sorted[j] == a;
    CountGrows(pool, sorted[i], a);
    assert j < i;
  }

  lemma {:induction false} AncestorsBefore(pool: Pool, was: set<nat>, sorted: seq<nat>, i: nat)
    requires ByCount(pool, sorted) && Closed(pool, was + Elements(sorted)) && i < |sorted|
    ensures Ancestors(pool, sorted[i]) <= was + Elements(sorted[..i])
  {
    forall a | a in Ancestors(pool, sorted[i]) ensures a in was + Elements(sorted[..i]) {
      assert sorted[i] in was + Elements(sorted);
      if a !in was { ComesEarlier(pool, sorted, i, a); }
    }
  }

  // ---------- The assembler ----------

  class Assembler {
    const pool: Pool
    const nBlockMaxSize: nat
    var inBlock: set<nat>
    var block: seq<nat>       // the mempool transactions appended to pblock->vtx
    var nBlockSize: int
    var nBlockSigOps: int
    var nBlockTx: int
    ghost var modFees: int    // the modified fees of what was added

    const minRelayFee: int -> int     // minRelayTxFee.GetFee

    ghost function Used(): Cost
      reads this
    {
      Cost(nBlockSize, nBlockSigOps, modFees)
    }

    /** The block holds `inBlock`, ordered, and its counters are `start` plus their costs. */
    ghost predicate BlockOk(start: Cost)
      reads this
    {
      && Ordered(pool, block) && inBlock == Elements(block) && nBlockTx == |block|
      && Used() == start.Plus(Sum(pool, inBlock))
    }

    constructor (pool: Pool, nBlockMaxSize: nat, minRelayFee: int -> int)
      ensures this.pool == pool && this.nBlockMaxSize == nBlockMaxSize && this.minRelayFee == minRelayFee
      ensures inBlock == {} && block == [] && nBlockSize == 0 && nBlockSigOps == 0 && nBlockTx == 0
    {
      this.pool, this.nBlockMaxSize, this.minRelayFee, modFees := pool, nBlockMaxSize, minRelayFee, 0;
      inBlock, block, nBlockSize, nBlockSigOps, nBlockTx := {}, [], 0, 0, 0;
    }

    /** resetBlock: room for the coinbase is reserved. */
    method ResetBlock()
      modifies this
      ensures inBlock == {} && block == [] && nBlockTx == 0 && BlockOk(Cost(1000, 100, 0))
    {
      hide SumBelow, Ordered;
      inBlock, block, nBlockSize, nBlockSigOps, nBlockTx, modFees := {}, [], 1000, 100, 0, 0;
      EmptyBlock(pool, block, inBlock, Used());
    }

    /** Erase the entries that are in the block already. */
    method OnlyUnconfirmed(testSet: set<nat>) returns (r: set<nat>)
      ensures r == testSet - inBlock
    {
      r := testSet;
      var todo := testSet;
      while todo != {}
        invariant todo <= testSet
        invariant forall x :: x in r <==> x in testSet && (x in todo || x !in inBlock)
        decreases todo
      {
        var x :| x in todo;
        if x in inBlock { r := r - {x}; }
        todo := todo - {x};
      }
    }

    predicate TestPackage(package: Cost)
      reads this
    {
      nBlockSize + package.size < nBlockMaxSize && nBlockSigOps + package.sigOps < MAX_BLOCK_SIGOPS_CURRENT
    }

    method TestPackageFinality(package: set<nat>) returns (r: bool)
      requires forall t | t in package :: t < |pool|
      ensures r <==> forall t | t in package :: pool[t].isFinal
    {
      var todo := package;
      while todo != {}
        invariant todo <= package && forall t | t in package - todo :: pool[t].isFinal
        decreases todo
      {
        var t :| t in todo;
        if !pool[t].isFinal { return false; }
        todo := todo - {t};
      }
      return true;
    }

    method AddToBlock(t: nat, ghost start: Cost)
      requires t < |pool| && t !in inBlock && Ancestors(pool, t) <= inBlock && BlockOk(start)
      modifies this
      ensures BlockOk(start) && block == old(block) + [t] && inBlock == old(inBlock) + {t}
      ensures nBlockTx == old(nBlockTx) + 1
    {
      OrderedAppend(pool, block, t);
      SumInsert(pool, inBlock, t);
      block := block + [t];
      nBlockSize := nBlockSize + pool[t].cost.size;
      nBlockTx := nBlockTx + 1;
      nBlockSigOps := nBlockSigOps + pool[t].cost.sigOps;
      modFees := modFees + pool[t].cost.fee;
      inBlock := inBlock + {t};
    }

    /** Sort a package by ancestor count; ties (by hash in the source) fall anyhow. */
    method SortForBlock(package: set<nat>) returns (sorted: seq<nat>)
      requires forall t | t in package :: t < |pool|
      ensures Elements(sorted) == package && ByCount(pool, sorted)
    {
      hide Ancestors, CountWithAncestors;
      sorted := [];
      var rest := package;
      while rest != {}
        invariant rest <= package && Elements(sorted) == package - rest
        invariant ByCount(pool, sorted)
        invariant forall i, x | 0 <= i < |sorted| && x in rest ::
          CountWithAncestors(pool, sorted[i]) <= CountWithAncestors(pool, x)
        decreases rest
      {
        ghost var least := LeastCountExists(pool, rest);
        var m :| m in rest && forall x | x in rest :: CountWithAncestors(pool, m) <= CountWithAncestors(pool, x);
        assert m !in sorted by { assert m !in Elements(sorted); }
        ElementsAppend(sorted, m);
        sorted := sorted + [m];
        rest := rest - {m};
      }
    }

    /** The whole of a package enters the block in sorted order. */
    method AddPackage(package: set<nat>, sorted: seq<nat>, modified: map<nat, Cost>, ghost start: Cost)
        returns (modified': map<nat, Cost>)
      requires BlockOk(start) && package !! inBlock
      requires Elements(sorted) == package && ByCount(pool, sorted)
      requires Closed(pool, inBlock + package)
      modifies this
      ensures BlockOk(start) && inBlock == old(inBlock) + package && block == old(block) + sorted
      ensures modified' == modified - package
    {
      hide Ancestors, SumBelow, Ordered;
      modified' := modified;
      ghost var was, old_block := inBlock, block;
      ghost var seen: set<nat> := {};
      for i := 0 to |sorted|
        invariant BlockOk(start) && seen == Elements(sorted[..i])
        invariant inBlock == was + seen && block == old_block + sorted[..i] && modified' == modified - seen
      {
        var t := sorted[i];
        AncestorsBefore(pool, was, sorted, i);
        assert t in Elements(sorted) && t !in sorted[..i];
        AddToBlock(t, start);
        modified' := modified' - {t};
        assert modified' == modified - (seen + {t});
        seen := seen + {t};
        assert sorted[..i + 1] == sorted[..i] + [t];
        ElementsAppend(sorted[..i], t);
      }
      assert sorted[..|sorted|] == sorted;
    }

    /** The inner loop of UpdatePackagesForAdded: `it` entered the block. */
    method UpdateDescendants(it: nat, added: set<nat>, current: map<nat, Cost>,
                             ghost modified: map<nat, Cost>, ghost done: set<nat>, ghost was: set<nat>)
        returns (modified': map<nat, Cost>)
      requires LowerBounds(pool, was, modified) && added !! was && done <= added && it in added && it !in done && it < |pool|
      requires IsUpdated(pool, modified, added, done, current)
      ensures IsUpdated(pool, modified, added, done + {it}, modified')
    {
      hide Ancestors, Updated, CostWithAncestors, Sum, LowerBounds;
      modified' := current;
      var descendants := Descendants(pool, it);
      ghost var seen: set<nat> := {};
      while descendants != {}
        invariant seen + descendants == Descendants(pool, it) && seen !! descendants
        invariant forall t | t in modified' :: t < |pool|
        invariant forall t: nat | t < |pool| && t in seen ::
          Lookup(modified', t) == Updated(pool, modified, added, done + {it}, t)
        invariant forall t: nat | t < |pool| && t !in seen ::
          Lookup(modified', t) == Updated(pool, modified, added, done, t)
        decreases descendants
      {
        var desc :| desc in descendants;
        UpdatedStep(pool, modified, added, done, it, desc);
        if desc !in added {
          var total := if desc in modified' then modified'[desc] else CostWithAncestors(pool, desc);
          NoUnderflow(pool, was, modified, added, done, it, desc);
          assert pool[it].cost.AtMost(total);
          modified' := modified'[desc := total.Minus(pool[it].cost)];
        }
        descendants, seen := descendants - {desc}, seen + {desc};
      }
      forall t: nat | t < |pool| ensures Lookup(modified', t) == Updated(pool, modified, added, done + {it}, t) {
        UpdatedStep(pool, modified, added, done, it, t);
      }
    }

    /** Account, in every descendant of `added`, for the ancestors that entered the block. */
    method UpdatePackagesForAdded(added: set<nat>, modified: map<nat, Cost>, ghost was: set<nat>)
        returns (modified': map<nat, Cost>)
      requires LowerBounds(pool, was, modified) && added !! was
      requires forall t | t in added :: t < |pool|
      ensures IsUpdated(pool, modified, added, added, modified')
    {
      modified' := modified;
      var todo := added;
      ghost var done: set<nat> := {};
      while todo != {}
        invariant todo !! done && todo + done == added
        invariant IsUpdated(pool, modified, added, done, modified')
        decreases todo
      {
        var it :| it in todo;
        modified' := UpdateDescendants(it, added, modified', modified, done, was);
        todo, done := todo - {it}, done + {it};
      }
    }

    predicate SkipMapTxEntry(t: nat, modified: map<nat, Cost>, failed: set<nat>)
      reads this
    {
      t in modified || t in inBlock || t in failed
    }

    /** A candidate and its ancestors that are not in the block enter it, and the totals follow. */
    method EnterPackage(iter: nat, ancestors: set<nat>, modified: map<nat, Cost>, ghost failed: set<nat>, ghost start: Cost)
        returns (modified': map<nat, Cost>)
      requires BlockOk(start) && Tracks(pool, inBlock, modified, failed)
      requires iter < |pool| && iter !in inBlock && ancestors == Remaining(pool, inBlock, iter)
      modifies this
      ensures BlockOk(start) && Tracks(pool, inBlock, modified', failed)
      ensures inBlock == old(inBlock) + ancestors && old(block) < block
      ensures Used() == old(Used()).Plus(Sum(pool, ancestors))
      ensures modified.Keys <= modified'.Keys + inBlock
    {
      hide Tracks, SumBelow, Ancestors, Updated, Ordered, Closed, CostWithAncestors, ByCount;
      var sorted := SortForBlock(ancestors);
      OrderedClosed(pool, block);
      PackageClosed(pool, inBlock, iter);
      SumDisjoint(pool, inBlock, ancestors, |pool|);
      assert iter in sorted by { assert iter in Elements(sorted); }
      modified' := AddPackage(ancestors, sorted, modified, start);
      TracksBounds(pool, old(inBlock), modified, failed, ancestors);
      modified' := UpdatePackagesForAdded(ancestors, modified', old(inBlock));
      ErasedThenUpdated(pool, modified, modified', ancestors);
      NoneForgotten(pool, old(inBlock), modified, modified', failed, ancestors);
      UpdateRestoresTracking(pool, old(inBlock), ancestors, failed, modified, modified');
    }

    /** One candidate of addPackageTxs, from the size test on: either its whole package enters
        the block or, if it came from mapModifiedTx, it leaves that map as failed. */
    method TryCandidate(iter: nat, package: Cost, usingModified: bool, modified: map<nat, Cost>, failed: set<nat>,
            ghost start: Cost)
        returns (modified': map<nat, Cost>, failed': set<nat>, added: bool)
      requires BlockOk(start) && Tracks(pool, inBlock, modified, failed)
      requires iter < |pool| && iter !in inBlock && (usingModified ==> iter in modified)
      requires Sum(pool, Remaining(pool, inBlock, iter)).AtMost(package)
      modifies this
      ensures BlockOk(start) && Tracks(pool, inBlock, modified', failed')
      ensures added <==>
        && old(nBlockSize) + package.size < nBlockMaxSize
        && old(nBlockSigOps) + package.sigOps < MAX_BLOCK_SIGOPS_CURRENT
        && (forall t | t in old(Remaining(pool, inBlock, iter)) :: t < |pool| && pool[t].isFinal)
      ensures failed' == if !added && usingModified then failed + {iter} else failed
      ensures added ==> modified.Keys <= modified'.Keys + inBlock
      ensures added ==>
        && inBlock == old(inBlock + Remaining(pool, inBlock, iter)) && old(block) < block
        && nBlockSize < nBlockMaxSize && nBlockSigOps < MAX_BLOCK_SIGOPS_CURRENT
        && (forall t | t in inBlock && t !in old(inBlock) :: pool[t].isFinal)
        && Missing(inBlock, |pool|) < old(Missing(inBlock, |pool|))
      ensures !added ==>
        && unchanged(this)
        && modified' == (if usingModified then modified - {iter} else modified)
        && (usingModified ==> |modified'| < |modified|)
    {
      hide Tracks, Sum, Ancestors, Ordered, Missing;
      modified', failed', added := modified, failed, false;
      var ok := TestPackage(package);
      var ancestors := OnlyUnconfirmed(Ancestors(pool, iter));
      ancestors := ancestors + {iter};
      assert ancestors == Remaining(pool, inBlock, iter);
      if ok {
        ok := TestPackageFinality(ancestors);
      }
      if !ok {
        if usingModified {
          TracksErase(pool, inBlock, modified, failed, iter);
          modified' := modified - {iter};
          failed' := failed + {iter};
        }
        return;
      }
      MissingShrinks(inBlock, ancestors, |pool|, iter);
      modified' := EnterPackage(iter, ancestors, modified, failed, start);
      added := true;
    }

    /** The next candidate: the next live mempool entry or the best modified one. */
    method NextCandidate(order: seq<nat>, mi: nat, modified: map<nat, Cost>, ghost failed: set<nat>)
        returns (iter: nat, usingModified: bool, mi': nat, package: Cost)
      requires mi <= |order| && (mi < |order| || modified != map[]) && forall t | t in order :: t < |pool|
      requires mi < |order| ==> order[mi] !in modified && order[mi] !in inBlock && order[mi] !in failed
      requires Tracks(pool, inBlock, modified, failed)
      ensures mi' == if usingModified then mi else mi + 1
      ensures if usingModified then iter in modified else mi < |order| && iter == order[mi]
      ensures iter < |pool| && iter !in inBlock
      ensures Sum(pool, Remaining(pool, inBlock, iter)).AtMost(package)
      ensures iter !in failed ==> package == Sum(pool, Remaining(pool, inBlock, iter))
    {
      var preferModified: bool := *;   // CompareModifiedEntry
      if mi == |order| || (modified != map[] && preferModified) {
        iter :| iter in modified;      // the best entry by modified fee rate
        usingModified, mi', package := true, mi, modified[iter];
      } else {
        iter := order[mi];
        assert iter in order;
        usingModified, mi', package := false, mi + 1, CostWithAncestors(pool, iter);
      }
      PackageCost(pool, inBlock, modified, failed, iter);
    }

    /** Where addPackageTxs is: the block, the map, the failed entries, the index and the account of refusals. */
    ghost predicate Running(order: seq<nat>, mi: nat, modified: map<nat, Cost>, failed: set<nat>, refusals: seq<Refusal>, start: Cost)
      reads this
    {
      && mi <= |order| && BlockOk(start) && Tracks(pool, inBlock, modified, failed)
      && (forall t | t in order :: t < |pool|) && (forall t | t in inBlock :: t < |pool| && pool[t].isFinal)
      && (block != [] ==> nBlockSize < nBlockMaxSize && nBlockSigOps < MAX_BLOCK_SIGOPS_CURRENT)
      && Account(pool, refusals, block, start, nBlockMaxSize) && AllRefused(refusals, failed)
      && Seen(order[..mi], inBlock, modified.Keys, refusals)
    }

    /** A candidate is added or refused, and the account kept. */
    method Consider(iter: nat, package: Cost, usingModified: bool, ghost order: seq<nat>, ghost mi: nat,
            modified: map<nat, Cost>, failed: set<nat>, ghost refusals: seq<Refusal>, ghost start: Cost)
        returns (modified': map<nat, Cost>, failed': set<nat>, ghost refusals': seq<Refusal>)
      requires Running(order, mi, modified, failed, refusals, start)
      requires iter < |pool| && iter !in inBlock && if usingModified then iter in modified else mi < |order| && iter == order[mi]
      requires Sum(pool, Remaining(pool, inBlock, iter)).AtMost(package)
      requires iter !in failed ==> package == Sum(pool, Remaining(pool, inBlock, iter))
      modifies this
      ensures Running(order, if usingModified then mi else mi + 1, modified', failed', refusals', start)
      ensures
        || Missing(inBlock, |pool|) < old(Missing(inBlock, |pool|))
        || (Missing(inBlock, |pool|) == old(Missing(inBlock, |pool|))
            && if usingModified then |modified'| < |modified| else modified' == modified)
    {
      hide Tracks, Sum, Ancestors, Ordered, Missing, Account, Refused, Seen, AllRefused, Remaining;
      ghost var r := Refusal(iter, inBlock, Used(), package);
      ghost var next := if usingModified then mi else mi + 1;
      WasRefused(refusals, failed, iter);
      var added;
      modified', failed', added := TryCandidate(iter, package, usingModified, modified, failed, start);
      refusals' := refusals;
      if added {
        IsRemaining(pool, old(inBlock), iter);
        AccountLater(pool, refusals, old(block), block, start, nBlockMaxSize);
        SeenAdded(order, mi, next, old(inBlock), inBlock, modified.Keys, modified'.Keys, refusals);
      } else {
        RefusalNow(pool, r, nBlockMaxSize);
        AccountNext(pool, refusals, r, block, start, nBlockMaxSize);
        SeenRefused(order, mi, next, inBlock, modified.Keys, modified'.Keys, refusals, r);
        FailedNext(refusals, r, failed, failed');
        refusals' := refusals + [r];
      }
    }

    /** One turn of addPackageTxs: an index entry is skipped, or a candidate is added or refused, or the fee rate
        has become too low. */
    method Turn(order: seq<nat>, mi: nat, modified: map<nat, Cost>, failed: set<nat>, ghost refusals: seq<Refusal>, ghost start: Cost)
        returns (stopped: bool, mi': nat, modified': map<nat, Cost>, failed': set<nat>, ghost refusals': seq<Refusal>,
                 ghost low: Refusal)
      requires Running(order, mi, modified, failed, refusals, start) && (mi < |order| || modified != map[])
      modifies this
      ensures Running(order, mi', modified', failed', refusals', start)
      ensures stopped ==> Stops(pool, low, refusals', block, start, minRelayFee)
      ensures !stopped ==>
        || Missing(inBlock, |pool|) < old(Missing(inBlock, |pool|))
        || (Missing(inBlock, |pool|) == old(Missing(inBlock, |pool|))
            && |order| - mi' + |modified'| < |order| - mi + |modified|)
    {
      hide Tracks, SumBelow, Ancestors, Ordered, Missing, Account, Refused, Seen, AllRefused;
      stopped, mi', modified', failed', refusals' := false, mi, modified, failed, refusals;
      low := Refusal(0, {}, ZERO, ZERO);
      if mi < |order| && SkipMapTxEntry(order[mi], modified, failed) {
        SeenSkipped(order, mi, inBlock, modified.Keys, failed, refusals);
        mi' := mi + 1;
        return;
      }
      var iter, usingModified, package;
      iter, usingModified, mi', package := NextCandidate(order, mi, modified, failed);
      if package.fee < minRelayFee(package.size) {
        stopped, mi', low := true, mi, Refusal(iter, inBlock, Used(), package);
        WasRefused(refusals, failed, iter);
        assert block[..|block|] == block;
        return;
      }
      modified', failed', refusals' := Consider(iter, package, usingModified, order, mi, modified, failed, refusals, start);
    }

    /** addPackageTxs on a block without mempool transactions; part of the block may already be
        used up by others.  `order` is the mempool's ancestor_score index; `stop` is the candidate whose fee was
        too low, if that ended it, and `refusals` lists the candidates that failed a test. */
    method AddPackageTxs(order: seq<nat>) returns (ghost stop: Option<Refusal>, ghost refusals: seq<Refusal>)
      requires forall t | t in order :: t < |pool|
      requires inBlock == {} && block == [] && nBlockTx == 0
      modifies this
      ensures BlockOk(old(Used()))
      ensures forall t | t in inBlock :: pool[t].isFinal
      ensures block != [] ==> nBlockSize < nBlockMaxSize && nBlockSigOps < MAX_BLOCK_SIGOPS_CURRENT
      // whoever is listed and left out was refused at some moment
      ensures Account(pool, refusals, block, old(Used()), nBlockMaxSize)
      ensures stop.None? ==> forall t | t in order :: t in inBlock || Refused(refusals, t)
      ensures stop.Some? ==> Stops(pool, stop.value, refusals, block, old(Used()), minRelayFee)
      // if all are final and everything fits, everything listed is in the block
      ensures stop.None? && (forall t: nat | t < |pool| :: pool[t].isFinal)
          && old(nBlockSize) + Sum(pool, Everything(pool)).size < nBlockMaxSize
          && old(nBlockSigOps) + Sum(pool, Everything(pool)).sigOps < MAX_BLOCK_SIGOPS_CURRENT
        ==> forall t | t in order :: t in inBlock
    {
      hide Tracks, SumBelow, Ancestors, Ordered, Missing, Account, Refused, Seen, AllRefused;
      ghost var start := Used();
      EmptyBlock(pool, block, inBlock, start);
      var failed: set<nat> := {};
      refusals := [];
      NoAccount(pool, block, start, nBlockMaxSize);
      var modified := UpdatePackagesForAdded(inBlock, map[], {});
      NothingToUpdate(pool, modified);
      NothingSeen(order, inBlock, modified.Keys, refusals);
      var mi: nat, halt := 0, false;
      ghost var low := Refusal(0, {}, ZERO, ZERO);
      while !halt && (mi < |order| || modified != map[])
        invariant Running(order, mi, modified, failed, refusals, start)
        invariant halt ==> Stops(pool, low, refusals, block, start, minRelayFee)
        decreases !halt, Missing(inBlock, |pool|), |order| - mi + |modified|
      {
        halt, mi, modified, failed, refusals, low := Turn(order, mi, modified, failed, refusals, start);
      }
      stop := if halt then Some(low) else None;
      if !halt {
        AllSeen(order, inBlock, refusals);
        if (forall t: nat | t < |pool| :: pool[t].isFinal)
           && start.size + Sum(pool, Everything(pool)).size < nBlockMaxSize
           && start.sigOps + Sum(pool, Everything(pool)).sigOps < MAX_BLOCK_SIGOPS_CURRENT
        {
          NothingRefused(pool, refusals, block, start, nBlockMaxSize);
          NobodyRefused();
        }
      }
    }
  }
}
