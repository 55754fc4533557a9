/** The cuckoo cache of src/cuckoocache.h: eight candidate slots per element, lazy garbage
    collection and two generations ("epochs") of live elements. */
module CuckooCache {
  import opened Options
  import opened Powers

  /** The three parallel arrays, as values: slot i holds table[i]; it may be reused when
      collected[i]; epoch[i] marks an element of the recent epoch. */
  datatype Slots<T> = Slots(table: seq<T>, collected: seq<bool>, epoch: seq<bool>)

  ghost predicate Shape<T>(s: Slots<T>, size: nat) {
    |s.table| == |s.collected| == |s.epoch| == size
  }

  /** The elements that may not be dropped without being displaced. */
  ghost function Live<T>(s: Slots<T>): set<T>
    requires Shape(s, |s.table|)
  {
    set i | 0 <= i < |s.table| && !s.collected[i] :: s.table[i]
  }

  /** Those of them that belong to the recent epoch. */
  ghost function RecentLive<T>(s: Slots<T>): set<T>
    requires Shape(s, |s.table|)
  {
    set i | 0 <= i < |s.table| && !s.collected[i] && s.epoch[i] :: s.table[i]
  }

  function Count(s: seq<bool>): nat {
    if s == [] then 0 else Count(s[..|s| - 1]) + if s[|s| - 1] then 1 else 0
  }

  function RecentFlags(collected: seq<bool>, epoch: seq<bool>): seq<bool>
    requires |collected| == |epoch|
  {
    seq(|epoch|, i requires 0 <= i < |epoch| => epoch[i] && !collected[i])
  }

  /** How many live entries the recent epoch has. */
  ghost function Recent<T>(s: Slots<T>): nat
    requires Shape(s, |s.table|)
  {
    Count(RecentFlags(s.collected, s.epoch))
  }

  lemma {:induction false} CountUpdate(s: seq<bool>, i: nat, b: bool)
    requires i < |s|
    ensures Count(s[i := b]) == Count(s) - (if s[i] then 1 else 0) + (if b then 1 else 0)
  {
    var n := |s| - 1;
    if i < n {
      CountUpdate(s[..n], i, b);
      assert s[i := b][..n] == s[..n][i := b];
    } else {
      assert s[i := b][..n] == s[..n];
    }
  }

  lemma {:induction false} CountNone(s: seq<bool>)
    requires forall i | 0 <= i < |s| :: !s[i]
    ensures Count(s) == 0
  {
    if s != [] { CountNone(s[..|s| - 1]); }
  }

  /** Eight slots per element. */
  ghost predicate LocatorOk<T(!new)>(locs: T -> seq<nat>, size: nat) {
    forall e :: |locs(e)| == 8 && forall k | 0 <= k < 8 :: locs(e)[k] < size
  }

  /** `loc` is the first of `slots` that holds `e`. */
  ghost predicate FirstHolding<T>(table: seq<T>, slots: seq<nat>, e: T, loc: nat) {
    && loc < |table| && table[loc] == e
    && exists k | 0 <= k < |slots| :: slots[k] == loc && NotBefore(table, slots, e, k)
  }

  ghost predicate NotBefore<T>(table: seq<T>, slots: seq<nat>, e: T, k: nat)
    requires k <= |slots|
  {
    forall j | 0 <= j < k :: slots[j] < |table| && table[slots[j]] != e
  }

  lemma {:induction false} OnlyFirst<T>(table: seq<T>, slots: seq<nat>, e: T, a: nat, b: nat)
    requires FirstHolding(table, slots, e, a) && FirstHolding(table, slots, e, b)
    ensures a == b
  {
    var i :| 0 <= i < |slots| && slots[i] == a && NotBefore(table, slots, e, i);
    var j :| 0 <= j < |slots| && slots[j] == b && NotBefore(table, slots, e, j);
  }

  /** Every stored element sits in one of its own slots and in no two slots.  `filler` is what the slots
      start with: it may be anywhere, and if it was inserted, the first of its slots to hold it is live. */
  ghost predicate Placed<T>(s: Slots<T>, locs: T -> seq<nat>, filler: T)
    requires Shape(s, |s.table|)
  {
    && (forall i | 0 <= i < |s.table| :: s.table[i] != filler ==> i in locs(s.table[i]))
    && (forall i, j | 0 <= i < j < |s.table| :: s.table[i] == s.table[j] ==> s.table[i] == filler)
    && (forall i | 0 <= i < |s.table| ::
         !s.collected[i] && s.table[i] == filler ==> FirstHolding(s.table, locs(filler), filler, i))
  }

  /** `e` is not stored; the filler is not live. */
  ghost predicate Absent<T>(s: Slots<T>, filler: T, e: T)
    requires Shape(s, |s.table|)
  {
    forall i | 0 <= i < |s.table| :: s.table[i] == e ==> e == filler && s.collected[i]
  }

  /** Slot `loc` given to `e`, live, with epoch flag `ep`. */
  function Put<T>(s: Slots<T>, loc: nat, e: T, ep: bool): Slots<T>
    requires loc < |s.table| == |s.collected| == |s.epoch|
  {
    Slots(s.table[loc := e], s.collected[loc := false], s.epoch[loc := ep])
  }

  lemma {:induction false} PutPlaced<T>(s: Slots<T>, locs: T -> seq<nat>, filler: T, loc: nat, e: T, ep: bool)
    requires Shape(s, |s.table|) && Placed(s, locs, filler) && loc < |s.table| && loc in locs(e)
    requires Absent(s, filler, e) || s.table[loc] == e
    requires e == filler ==> FirstHolding(s.table[loc := e], locs(e), e, loc)
    ensures Placed(Put(s, loc, e, ep), locs, filler)
  {
    var t := Put(s, loc, e, ep);
    forall i, j | 0 <= i < j < |t.table| && t.table[i] == t.table[j] ensures t.table[i] == filler {
      assert e != filler ==> i != loc && j != loc;
    }
    forall i | 0 <= i < |t.table| && !t.collected[i] && t.table[i] == filler
      ensures FirstHolding(t.table, locs(filler), filler, i) {
      if i != loc && e != filler {
        FirstStays(s.table, locs(filler), filler, i, loc, e);
      }
    }
  }

  lemma {:induction false} FirstStays<T>(table: seq<T>, slots: seq<nat>, e: T, a: nat, loc: nat, x: T)
    requires FirstHolding(table, slots, e, a) && loc < |table| && loc != a && x != e
    ensures FirstHolding(table[loc := x], slots, e, a)
  {
    var k :| 0 <= k < |slots| && slots[k] == a && NotBefore(table, slots, e, k);
    assert NotBefore(table[loc := x], slots, e, k);
  }

  /** What a live slot holds is live nowhere else. */
  lemma {:induction false} LiveOnce<T>(s: Slots<T>, locs: T -> seq<nat>, filler: T, i: nat, j: nat)
    requires Shape(s, |s.table|) && Placed(s, locs, filler) && i < |s.table| && j < |s.table|
    requires !s.collected[i] && !s.collected[j] && s.table[i] == s.table[j]
    ensures i == j
  {
    if s.table[i] == filler { OnlyFirst(s.table, locs(filler), filler, i, j); }
  }

  /** Writing over a collected slot loses nothing; writing over a live one loses what it held. */
  lemma {:induction false} PutLive<T>(s: Slots<T>, locs: T -> seq<nat>, filler: T, loc: nat, e: T, ep: bool)
    requires Shape(s, |s.table|) && Placed(s, locs, filler) && loc < |s.table|
    ensures s.collected[loc] ==> Live(Put(s, loc, e, ep)) == Live(s) + {e}
    ensures !s.collected[loc] ==> Live(Put(s, loc, e, ep)) == Live(s) - {s.table[loc]} + {e}
    ensures !s.collected[loc] ==> s.table[loc] in Live(s)
  {
    var t := Put(s, loc, e, ep);
    assert t.table[loc] == e && !t.collected[loc];
    forall x | x in Live(s) && (s.collected[loc] || x != s.table[loc]) ensures x in Live(t) {
      var i :| 0 <= i < |s.table| && !s.collected[i] && s.table[i] == x;
      assert t.table[i] == x && !t.collected[i];
    }
    forall x | x in Live(t) && x != e ensures x in Live(s) && (!s.collected[loc] ==> x != s.table[loc]) {
      var i :| 0 <= i < |t.table| && !t.collected[i] && t.table[i] == x;
      assert i != loc && s.table[i] == x && !s.collected[i];
      if !s.collected[loc] && x == s.table[loc] { LiveOnce(s, locs, filler, i, loc); }
    }
  }

  lemma {:induction false} PutRecent<T>(s: Slots<T>, loc: nat, e: T, ep: bool)
    requires Shape(s, |s.table|) && loc < |s.table|
    ensures Recent(Put(s, loc, e, ep)) ==
            Recent(s) - (if s.epoch[loc] && !s.collected[loc] then 1 else 0) + (if ep then 1 else 0)
  {
    CountUpdate(RecentFlags(s.collected, s.epoch), loc, ep);
    assert RecentFlags(s.collected[loc := false], s.epoch[loc := ep]) == RecentFlags(s.collected, s.epoch)[loc := ep];
  }

  /** The same for the elements of the recent epoch. */
  lemma {:induction false} PutRecentLive<T>(s: Slots<T>, locs: T -> seq<nat>, filler: T, loc: nat, e: T, ep: bool)
    requires Shape(s, |s.table|) && Placed(s, locs, filler) && loc < |s.table|
    requires !s.collected[loc] || Absent(s, filler, e) || s.table[loc] == e
    requires !s.collected[loc] ==> Absent(s, filler, e) || (s.table[loc] == e && ep)
    ensures RecentLive(Put(s, loc, e, ep))
         == RecentLive(s) - (if s.collected[loc] then {} else {s.table[loc]}) + (if ep then {e} else {})
  {
    var t := Put(s, loc, e, ep);
    assert t.table[loc] == e && !t.collected[loc] && t.epoch[loc] == ep;
    forall x | x in RecentLive(s) && (s.collected[loc] || x != s.table[loc]) ensures x in RecentLive(t) {
      var i :| 0 <= i < |s.table| && !s.collected[i] && s.epoch[i] && s.table[i] == x;
      assert t.table[i] == x && !t.collected[i] && t.epoch[i];
    }
    forall x | x in RecentLive(t) && !(ep && x == e)
      ensures x in RecentLive(s) && (!s.collected[loc] ==> x != s.table[loc])
    {
      var i :| 0 <= i < |t.table| && !t.collected[i] && t.epoch[i] && t.table[i] == x;
      assert i != loc && s.table[i] == x && !s.collected[i] && s.epoch[i];
      if !s.collected[loc] && x == s.table[loc] { LiveOnce(s, locs, filler, i, loc); }
    }
  }

  /** All eight slots of `e` hold live elements. */
  ghost predicate Full<T>(s: Slots<T>, slots: seq<nat>) {
    forall k | 0 <= k < |slots| :: slots[k] < |s.collected| && !s.collected[slots[k]]
  }

  /** The first of `slots` that may be reused. */
  ghost predicate FirstFree<T>(s: Slots<T>, slots: seq<nat>, loc: nat) {
    exists k | 0 <= k < |slots| ::
      && slots[k] == loc && loc < |s.collected| && s.collected[loc]
      && forall j | 0 <= j < k :: slots[j] < |s.collected| && !s.collected[slots[j]]
  }

  /** t is s with `e` in the first of `slots` that may be reused, and nothing else changed. */
  ghost predicate FillsFirst<T>(s: Slots<T>, t: Slots<T>, slots: seq<nat>, e: T, ep: bool)
    requires Shape(s, |s.table|)
  {
    exists loc :: FirstFree(s, slots, loc) && t == Put(s, loc, e, ep)
  }

  /** t is s with the first of `slots` that holds `e` made live and recent, and nothing else changed. */
  ghost predicate Renews<T>(s: Slots<T>, t: Slots<T>, slots: seq<nat>, e: T)
    requires Shape(s, |s.table|)
  {
    exists loc :: FirstHolding(s.table, slots, e, loc) && t == Put(s, loc, e, true)
  }

  /** One of `slots` holds `e`. */
  ghost predicate Stored<T>(table: seq<T>, slots: seq<nat>, e: T) {
    exists k | 0 <= k < |slots| :: slots[k] < |table| && table[slots[k]] == e
  }

  /** The slots after epoch_check: when the recent epoch is full, everything older becomes reusable and the
      recent epoch old. */
  ghost function Checked<T>(s: Slots<T>, age: bool): Slots<T>
    requires Shape(s, |s.table|)
  {
    if !age then s
    else Slots(s.table, seq(|s.table|, i requires 0 <= i < |s.table| => s.collected[i] || !s.epoch[i]),
               seq(|s.table|, i requires 0 <= i < |s.table| => false))
  }

  /** The d-th element in hand was found in a slot of the one before it, or put there on the way. */
  ghost predicate Link<T>(s: Slots<T>, locs: T -> seq<nat>, hands: seq<T>, d: nat)
    requires 0 < d < |hands|
  {
    hands[d] in hands[..d] || Stored(s.table, locs(hands[d - 1]), hands[d])
  }

  ghost predicate Chain<T>(s: Slots<T>, locs: T -> seq<nat>, hands: seq<T>) {
    forall d: nat | 0 < d < |hands| :: Link(s, locs, hands, d)
  }

  /** The bound on recent live entries. */
  function Limit(epochSize: nat): int { epochSize + Max(1, epochSize / 16) }

  class Cache<T(==, !new)> {
    const filler: T
    const hashes: T -> seq<nat>          // hash_function<0..7>, masked to the table
    const size: nat
    const epochSize: nat
    const depthLimit: nat
    const table: array<T>
    const collectionFlags: array<bool>
    const epochFlags: array<bool>
    var epochHeuristicCounter: nat

    ghost function View(): Slots<T>
      reads table, collectionFlags, epochFlags
    {
      Slots(table[..], collectionFlags[..], epochFlags[..])
    }

    ghost predicate Fixed()
    {
      && size > 0 && epochSize > 0 && depthLimit > 0 && LocatorOk(hashes, size)
      && table.Length == collectionFlags.Length == epochFlags.Length == size
      && collectionFlags != epochFlags && table as object != collectionFlags && table as object != epochFlags
    }

    ghost predicate Valid()
      reads this, table, collectionFlags, epochFlags
    {
      && Fixed() && Placed(View(), hashes, filler)
      && Recent(View()) + epochHeuristicCounter <= Limit(epochSize)
    }

    /** setup: 2^depthLimit slots, all collectable and holding the filler.  Each of the eight
        hashes is masked to the table; 45 * size wraps in 32 bits. */
    constructor (filler: T, hash: (T, nat) -> nat, depthLimit: nat)
      requires 1 <= depthLimit < 32
      ensures Valid() && Live(View()) == {} && this.filler == filler && this.depthLimit == depthLimit
      ensures size == Pow(2, depthLimit) && epochHeuristicCounter == epochSize == Max(1, 45 * size % 0x1_0000_0000 / 100)
      ensures forall e, k | 0 <= k < 8 :: |hashes(e)| == 8 && hashes(e)[k] == hash(e, k) % size
      ensures fresh(table) && fresh(collectionFlags) && fresh(epochFlags)
    {
      var n := Pow(2, depthLimit);
      var es := Max(1, 45 * n % 0x1_0000_0000 / 100);
      this.filler, this.depthLimit, size, epochSize, epochHeuristicCounter := filler, depthLimit, n, es, es;
      hashes := (e: T) => seq(8, k requires 0 <= k < 8 => hash(e, k) % n);
      table := new T[n](_ => filler);
      collectionFlags := new bool[n](_ => true);
      epochFlags := new bool[n](_ => false);
      new;
      CountNone(RecentFlags(collectionFlags[..], epochFlags[..]));
    }

    /** What epoch_check will leave live. */
    ghost function LiveAfterCheck(): set<T>
      requires Fixed()
      reads this, table, collectionFlags, epochFlags
    {
      if epochHeuristicCounter == 0 && Recent(View()) >= epochSize then RecentLive(View()) else Live(View())
    }

    method EpochCheck()
      requires Valid()
      modifies this, collectionFlags, epochFlags
      ensures Fixed() && Placed(View(), hashes, filler) && Live(View()) == old(LiveAfterCheck())
      ensures Recent(View()) + 1 + epochHeuristicCounter <= Limit(epochSize)
      ensures View() == old(Checked(View(), epochHeuristicCounter == 0 && Recent(View()) >= epochSize))
      ensures epochHeuristicCounter ==
        if old(epochHeuristicCounter) != 0 then old(epochHeuristicCounter) - 1
        else if old(Recent(View())) >= epochSize then epochSize
        else Max(1, Max(epochSize / 16, epochSize - old(Recent(View()))))
    {
      if epochHeuristicCounter != 0 {
        epochHeuristicCounter := epochHeuristicCounter - 1;
        return;
      }
      var epochUnusedCount := 0;
      ghost var flags := RecentFlags(collectionFlags[..], epochFlags[..]);
      for i := 0 to size
        invariant epochUnusedCount == Count(flags[..i])
        invariant epochHeuristicCounter == 0
      {
        assert flags[..i + 1][..i] == flags[..i];
        epochUnusedCount := epochUnusedCount + if epochFlags[i] && !collectionFlags[i] then 1 else 0;
      }
      assert flags[..size] == flags;
      if epochUnusedCount >= epochSize {
        AgeEpoch();
        epochHeuristicCounter := epochSize;
      } else {
        epochHeuristicCounter := Max(1, Max(epochSize / 16, epochSize - epochUnusedCount));
      }
    }

    /** The old epoch becomes collectable, the recent epoch old. */
    method AgeEpoch()
      requires Fixed() && Placed(View(), hashes, filler)
      modifies collectionFlags, epochFlags
      ensures Placed(View(), hashes, filler) && Live(View()) == old(RecentLive(View())) && Recent(View()) == 0
      ensures View() == old(Checked(View(), true))
    {
      ghost var was := View();
      for i := 0 to size
        invariant View().table == was.table
        invariant forall k | 0 <= k < i :: !epochFlags[k] && (collectionFlags[k] <==> was.collected[k] || !was.epoch[k])
        invariant forall k | i <= k < size :: epochFlags[k] == was.epoch[k] && collectionFlags[k] == was.collected[k]
      {
        if epochFlags[i] {
          epochFlags[i] := false;
        } else {
          collectionFlags[i] := true;
        }
      }
      CountNone(RecentFlags(collectionFlags[..], epochFlags[..]));
    }

    function FindLoc(locs: seq<nat>, loc: int, i: nat): (r: nat)
      requires i <= |locs|
      ensures i <= r <= |locs|
      decreases |locs| - i
    {
      if i == |locs| || locs[i] == loc then i else FindLoc(locs, loc, i + 1)
    }

    /** Is `e` in one of its slots?  With `erase`, its slot becomes collectable, but `e` stays
        there and is still found until the slot is reused. */
    method Contains(e: T, erase: bool) returns (found: bool)
      requires Valid()
      modifies collectionFlags
      ensures Valid() && View().table == old(View()).table
      ensures e != filler ==> (found <==> e in View().table)
      ensures found <==> exists k | 0 <= k < 8 :: table[hashes(e)[k]] == e
      ensures Live(View()) == if erase then old(Live(View())) - {e} else old(Live(View()))
    {
      ghost var was := View();
      var locs := hashes(e);
      for k := 0 to 8
        invariant View() == was && forall j | 0 <= j < k :: table[locs[j]] != e
      {
        var loc := locs[k];
        if table[loc] == e {
          assert was.table[loc] == e && NotBefore(was.table, locs, e, k);
          if erase {
            collectionFlags[loc] := true;
            assert View() == Slots(was.table, was.collected[loc := true], was.epoch);
            EraseSlot(was, hashes, filler, loc);
          }
          return true;
        }
      }
      NotStored(was, hashes, filler, e);
      NotLive(was, filler, e);
      return false;
    }

    /** The first loop of insert: if `e` is stored already, make its slot live and recent. */
    method Refresh(e: T) returns (found: bool)
      requires Fixed() && Placed(View(), hashes, filler)
      modifies collectionFlags, epochFlags
      ensures found ==> Placed(View(), hashes, filler) && Live(View()) == old(Live(View())) + {e}
      ensures found ==> Recent(View()) <= old(Recent(View())) + 1
      ensures found <==> Stored(old(View()).table, hashes(e), e)
      ensures found ==> Renews(old(View()), View(), hashes(e), e)
      ensures !found ==> View() == old(View()) && Absent(View(), filler, e)
    {
      ghost var was := View();
      var locs := hashes(e);
      for k := 0 to 8
        invariant View() == was && forall j | 0 <= j < k :: table[locs[j]] != e
      {
        var loc := locs[k];
        if table[loc] == e {
          assert was.table[loc] == e && NotBefore(was.table, locs, e, k) && was.table[loc := e] == was.table;
          PutPlaced(was, hashes, filler, loc, e, true);
          PutLive(was, hashes, filler, loc, e, true);
          PutRecent(was, loc, e, true);
          collectionFlags[loc] := false;
          epochFlags[loc] := true;
          assert View() == Put(was, loc, e, true);
          return true;
        }
      }
      NotStored(was, hashes, filler, e);
      return false;
    }

    /** Put `e` into the first collectable one of its slots, if there is one. */
    method PlaceInFree(e: T, lastEpoch: bool) returns (placed: bool)
      requires Fixed() && Placed(View(), hashes, filler) && Absent(View(), filler, e)
      modifies table, collectionFlags, epochFlags
      ensures placed ==> Placed(View(), hashes, filler) && Live(View()) == old(Live(View())) + {e}
      ensures placed ==> Recent(View()) == old(Recent(View())) + if lastEpoch then 1 else 0
      ensures placed ==> FillsFirst(old(View()), View(), hashes(e), e, lastEpoch)
      ensures placed ==> RecentLive(View()) == old(RecentLive(View())) + if lastEpoch then {e} else {}
      ensures !placed ==> View() == old(View()) && Full(View(), hashes(e))
    {
      ghost var was := View();
      var locs := hashes(e);
      for k := 0 to 8
        invariant View() == was && forall j | 0 <= j < k :: !collectionFlags[locs[j]]
      {
        var loc := locs[k];
        if collectionFlags[loc] {
          assert was.collected[loc];
          FreeIsFirst(was, filler, locs, k, e);
          PutPlaced(was, hashes, filler, loc, e, lastEpoch);
          PutLive(was, hashes, filler, loc, e, lastEpoch);
          PutRecent(was, loc, e, lastEpoch);
          PutRecentLive(was, hashes, filler, loc, e, lastEpoch);
          assert FirstFree(was, locs, loc);
          table[loc] := e;
          collectionFlags[loc] := false;
          epochFlags[loc] := lastEpoch;
          assert View() == Put(was, loc, e, lastEpoch);
          return true;
        }
      }
      return false;
    }

    /** Swap `e` with the element in the slot after the last one used.  (std::find of an absent
        location yields 8, so the first swap uses slot 1 of the eight, not slot 0.) */
    method Displace(e: T, lastEpoch: bool, lastLoc: int) returns (e': T, lastEpoch': bool, lastLoc': int)
      requires Fixed() && Placed(View(), hashes, filler) && Absent(View(), filler, e)
      requires Full(View(), hashes(e))
      modifies table, epochFlags
      ensures Placed(View(), hashes, filler) && Absent(View(), filler, e')
      ensures Live(View()) + {e'} == old(Live(View())) + {e}
      ensures Recent(View()) + (if lastEpoch' then 1 else 0) == old(Recent(View())) + (if lastEpoch then 1 else 0)
      ensures RecentLive(View()) + (if lastEpoch' then {e'} else {}) == old(RecentLive(View())) + (if lastEpoch then {e} else {})
      ensures var loc := hashes(e)[(1 + FindLoc(hashes(e), lastLoc, 0)) % 8];
        lastLoc' == loc && e' == old(View()).table[loc] && View().table == old(View()).table[loc := e]
      ensures View().collected == old(View()).collected
    {
      ghost var was := View();
      var locs := hashes(e);
      var loc := locs[(1 + FindLoc(locs, lastLoc, 0)) % 8];
      assert !was.collected[loc];
      FullIsFirst(was, filler, locs, (1 + FindLoc(locs, lastLoc, 0)) % 8, e);
      HandedOver(was, hashes, filler, loc, e, lastEpoch);
      PutPlaced(was, hashes, filler, loc, e, lastEpoch);
      PutLive(was, hashes, filler, loc, e, lastEpoch);
      PutRecent(was, loc, e, lastEpoch);
      PutRecentLive(was, hashes, filler, loc, e, lastEpoch);
      e', lastEpoch', lastLoc' := table[loc], epochFlags[loc], loc;
      table[loc] := e;
      epochFlags[loc] := lastEpoch;
      assert was.collected[loc := false] == was.collected;
      assert View() == Put(was, loc, e, lastEpoch);
      assert was.table[loc] == e';
    }

    /** The displacement loop: at most depthLimit swaps, then the element in hand is dropped.  `hands` are the
        elements in hand, the new one first. */
    method InsertNew(element: T) returns (ghost lost: set<T>, ghost hands: seq<T>)
      requires Fixed() && Placed(View(), hashes, filler) && Absent(View(), filler, element)
      modifies table, collectionFlags, epochFlags
      ensures Placed(View(), hashes, filler) && |lost| <= 1
      ensures Live(View()) == old(Live(View())) + {element} - lost
      ensures RecentLive(View()) == old(RecentLive(View())) + {element} - lost
      ensures Recent(View()) <= old(Recent(View())) + 1
      // with a slot to reuse the element goes into the first such, and nothing else changes
      ensures !old(Full(View(), hashes(element))) ==> lost == {} && FillsFirst(old(View()), View(), hashes(element), element, true)
      // without one it goes into the second of its slots, and so on with whoever was there
      ensures 1 <= |hands| <= depthLimit + 1 && hands[0] == element && Chain(old(View()), hashes, hands)
      ensures |hands| > 1 ==> hands[1] == old(View()).table[hashes(element)[1]]
      // something is lost only when every element in hand met eight live slots
      ensures lost != {} ==> |hands| == depthLimit + 1 && lost == {hands[depthLimit]}
      ensures forall d | 0 <= d < |hands| - 1 :: Full(old(View()), hashes(hands[d]))
    {
      hide Placed, Live, RecentLive, Recent, LocatorOk, Full, Absent, FirstFree, FillsFirst, Chain, Trail, FindLoc, InHand;
      ghost var was := View();
      ghost var all := Totals(Live(was) + {element}, RecentLive(was) + {element}, Recent(was) + 1);
      lost, hands := {}, [element];
      var e, lastEpoch, lastLoc := element, true, -1;
      EightSlots(element);
      NotFound(hashes(element));
      TrailStart(was, hashes, element);
      HandStart(was, hashes, filler, element);
      for depth := 0 to depthLimit
        invariant InHand(View(), hashes, filler, e, lastEpoch, all)
        invariant |hands| == depth + 1 && hands[0] == element && hands[depth] == e
        invariant depth == 0 ==> View() == was && lastEpoch && lastLoc == -1
        invariant depth > 0 ==> hands[1] == was.table[hashes(element)[1]]
        invariant Trail(was, View(), hashes, hands)
      {
        var placed;
        placed, e, lastEpoch, lastLoc := Turn(e, lastEpoch, lastLoc, was, hands, all);
        if placed { return; }
        hands := hands + [e];
      }
      TrailFull(was, View(), hashes, hands);
      lost := {e};
      HandDropped(View(), hashes, filler, e, lastEpoch, all);
    }

    /** One turn: the element in hand is placed, or swapped for another. */
    method Turn(e: T, lastEpoch: bool, lastLoc: int, ghost was: Slots<T>, ghost hands: seq<T>, ghost all: Totals<T>)
        returns (placed: bool, e': T, lastEpoch': bool, lastLoc': int)
      requires Fixed() && InHand(View(), hashes, filler, e, lastEpoch, all)
      requires |hands| > 0 && hands[|hands| - 1] == e && Trail(was, View(), hashes, hands)
      modifies table, collectionFlags, epochFlags
      ensures placed ==>
        && Placed(View(), hashes, filler) && Totals(Live(View()), RecentLive(View()), Recent(View())) == all
        && FillsFirst(old(View()), View(), hashes(e), e, lastEpoch)
        && Chain(was, hashes, hands) && (forall d | 0 <= d < |hands| - 1 :: Full(was, hashes(hands[d])))
        && (Full(was, hashes(hands[0])) <==> |hands| > 1)
      ensures !placed ==>
        && InHand(View(), hashes, filler, e', lastEpoch', all) && Trail(was, View(), hashes, hands + [e'])
        && e' == old(View()).table[hashes(e)[(1 + FindLoc(hashes(e), lastLoc, 0)) % 8]]
    {
      hide Placed, Live, RecentLive, Recent, LocatorOk, Full, Absent, FirstFree, FillsFirst, Chain, Trail, FindLoc;
      e', lastEpoch', lastLoc' := e, lastEpoch, lastLoc;
      ghost var before := View();
      placed := PlaceInFree(e, lastEpoch);
      if placed {
        TrailEnd(was, before, View(), hashes, hands, lastEpoch);
        return;
      }
      EightSlots(e);
      ghost var loc := hashes(e)[(1 + FindLoc(hashes(e), lastLoc, 0)) % 8];
      assert loc in hashes(e);
      e', lastEpoch', lastLoc' := Displace(e, lastEpoch, lastLoc);
      TrailNext(was, before, View(), hashes, hands, e, e', loc);
    }

    lemma {:induction false} EightSlots(e: T)
      requires Fixed()
      ensures |hashes(e)| == 8 && forall k | 0 <= k < 8 :: hashes(e)[k] < size
    {
    }

    /** No slot is the invalid one. */
    lemma {:induction false} NotFound(locs: seq<nat>)
      requires |locs| == 8
      ensures FindLoc(locs, -1, 0) == 8
    {
      NotFoundFrom(locs, 0);
    }

    lemma {:induction false} NotFoundFrom(locs: seq<nat>, i: nat)
      requires i <= |locs|
      ensures FindLoc(locs, -1, i) == |locs|
      decreases |locs| - i
    {
      if i < |locs| { NotFoundFrom(locs, i + 1); }
    }

    /** Insert: afterwards every element that was live and `element` are live, except for at
        most one of them, and none if there was a slot to reuse. */
    method Insert(element: T) returns (ghost lost: set<T>)
      requires Valid()
      modifies this, table, collectionFlags, epochFlags
      ensures Valid() && |lost| <= 1 && Recent(View()) <= Limit(epochSize)
      ensures Live(View()) == old(LiveAfterCheck()) + {element} - lost
      ensures var c := old(Checked(View(), epochHeuristicCounter == 0 && Recent(View()) >= epochSize));
        && Shape(c, |c.table|)
        && (Stored(c.table, hashes(element), element) ==> lost == {} && Renews(c, View(), hashes(element), element))
        && (!Stored(c.table, hashes(element), element) && !Full(c, hashes(element)) ==>
              lost == {} && FillsFirst(c, View(), hashes(element), element, true))
      ensures element !in lost ==> Stored(View().table, hashes(element), element)
    {
      hide Recent, RecentLive, Full, FirstFree, FillsFirst, Renews, Stored;
      EpochCheck();
      ghost var c := View();
      lost := {};
      var found := Refresh(element);
      if !found {
        ghost var hands;
        lost, hands := InsertNew(element);
      }
      if element !in lost { LiveIsFound(View(), hashes, filler, element); }
    }
  }

  /** A live element is in one of its slots. */
  lemma {:induction false} LiveIsFound<T>(s: Slots<T>, locs: T -> seq<nat>, filler: T, e: T)
    requires Shape(s, |s.table|) && Placed(s, locs, filler) && e in Live(s) && |locs(e)| == 8
    ensures Stored(s.table, locs(e), e)
  {
    var i :| 0 <= i < |s.table| && !s.collected[i] && s.table[i] == e;
    assert i in locs(e);
  }

  /** Every slot holds what it held, or an element that was in hand. */
  ghost predicate Moved<T>(was: Slots<T>, now: Slots<T>, hands: seq<T>) {
    |now.table| == |was.table| && forall i | 0 <= i < |was.table| :: now.table[i] == was.table[i] || now.table[i] in hands
  }

  lemma {:induction false} ChainNext<T>(was: Slots<T>, before: Slots<T>, now: Slots<T>, locs: T -> seq<nat>, hands: seq<T>,
          e: T, e': T, loc: nat)
    requires |hands| > 0 && hands[|hands| - 1] == e && Chain(was, locs, hands) && Moved(was, before, hands)
    requires loc in locs(e) && loc < |before.table| && e' == before.table[loc] && now.table == before.table[loc := e]
    ensures Chain(was, locs, hands + [e']) && Moved(was, now, hands + [e'])
  {
    var h := hands + [e'];
    forall d: nat | 0 < d < |h| ensures Link(was, locs, h, d) {
      assert h[..d] == hands[..d];
      if d == |hands| {
        assert hands[..d] == hands;
        var k :| 0 <= k < |locs(e)| && locs(e)[k] == loc;
      } else {
        assert Link(was, locs, hands, d);
      }
    }
  }

  /** Who is live, who of them is recent, and how many those are. */
  datatype Totals<T> = Totals(live: set<T>, recentLive: set<T>, recent: nat)

  /** `e`, of epoch `ep`, is in hand and stored nowhere; with it the totals come out. */
  ghost predicate InHand<T>(s: Slots<T>, locs: T -> seq<nat>, filler: T, e: T, ep: bool, all: Totals<T>) {
    && Shape(s, |s.table|) && Placed(s, locs, filler) && Absent(s, filler, e)
    && Live(s) + {e} == all.live && RecentLive(s) + (if ep then {e} else {}) == all.recentLive
    && Recent(s) + (if ep then 1 else 0) == all.recent
  }

  lemma {:induction false} HandStart<T>(s: Slots<T>, locs: T -> seq<nat>, filler: T, e: T)
    requires Shape(s, |s.table|) && Placed(s, locs, filler) && Absent(s, filler, e)
    ensures InHand(s, locs, filler, e, true, Totals(Live(s) + {e}, RecentLive(s) + {e}, Recent(s) + 1))
  {
  }

  lemma {:induction false} HandDropped<T>(s: Slots<T>, locs: T -> seq<nat>, filler: T, e: T, ep: bool, all: Totals<T>)
    requires InHand(s, locs, filler, e, ep, all)
    ensures Placed(s, locs, filler) && Live(s) == all.live - {e} && RecentLive(s) == all.recentLive - {e} && Recent(s) <= all.recent
  {
    NotLive(s, filler, e);
    NotRecent(s, filler, e);
  }

  /** So far the elements in hand were swapped along a chain, all but the last one met only live slots, and no
      slot was given up or taken. */
  ghost predicate Trail<T>(was: Slots<T>, now: Slots<T>, locs: T -> seq<nat>, hands: seq<T>) {
    && Chain(was, locs, hands) && Moved(was, now, hands) && now.collected == was.collected
    && forall d | 0 <= d < |hands| - 1 :: Full(was, locs(hands[d]))
  }

  lemma {:induction false} TrailStart<T>(was: Slots<T>, locs: T -> seq<nat>, e: T)
    ensures Trail(was, was, locs, [e])
  {
  }

  lemma {:induction false} TrailNext<T>(was: Slots<T>, before: Slots<T>, now: Slots<T>, locs: T -> seq<nat>, hands: seq<T>,
          e: T, e': T, loc: nat)
    requires |hands| > 0 && hands[|hands| - 1] == e && Trail(was, before, locs, hands) && Full(before, locs(e))
    requires loc in locs(e) && loc < |before.table| && e' == before.table[loc] && now.table == before.table[loc := e]
    requires now.collected == before.collected
    ensures Trail(was, now, locs, hands + [e'])
  {
    hide Chain, Moved;
    ChainNext(was, before, now, locs, hands, e, e', loc);
    var h := hands + [e'];
    forall d | 0 <= d < |h| - 1 ensures Full(was, locs(h[d])) {
      assert h[d] == hands[d];
    }
  }

  lemma {:induction false} TrailFull<T>(was: Slots<T>, now: Slots<T>, locs: T -> seq<nat>, hands: seq<T>)
    requires Trail(was, now, locs, hands) && |hands| > 1
    ensures Chain(was, locs, hands) && (forall d | 0 <= d < |hands| - 1 :: Full(was, locs(hands[d])))
    ensures Full(was, locs(hands[0]))
  {
    hide Full, Chain;
  }

  /** At the end: a slot that may be reused was met by the last element in hand. */
  lemma {:induction false} TrailEnd<T>(was: Slots<T>, before: Slots<T>, now: Slots<T>, locs: T -> seq<nat>, hands: seq<T>,
          ep: bool)
    requires Shape(before, |before.table|) && |hands| > 0 && Trail(was, before, locs, hands)
    requires FillsFirst(before, now, locs(hands[|hands| - 1]), hands[|hands| - 1], ep)
    ensures Chain(was, locs, hands) && (forall d | 0 <= d < |hands| - 1 :: Full(was, locs(hands[d])))
    ensures Full(was, locs(hands[0])) <==> |hands| > 1
  {
    hide Chain;
    var loc :| FirstFree(before, locs(hands[|hands| - 1]), loc);
  }

  lemma {:induction false} NotRecent<T>(s: Slots<T>, filler: T, e: T)
    requires Shape(s, |s.table|) && Absent(s, filler, e)
    ensures e !in RecentLive(s)
  {
  }

  lemma {:induction false} NotLive<T>(s: Slots<T>, filler: T, e: T)
    requires Shape(s, |s.table|) && Absent(s, filler, e)
    ensures e !in Live(s)
  {
  }

  /** An element that is in none of its slots is nowhere. */
  lemma {:induction false} NotStored<T>(s: Slots<T>, locs: T -> seq<nat>, filler: T, e: T)
    requires Shape(s, |s.table|) && Placed(s, locs, filler) && |locs(e)| == 8
    requires forall k | 0 <= k < 8 :: locs(e)[k] < |s.table| && s.table[locs(e)[k]] != e
    ensures Absent(s, filler, e)
  {
    forall i | 0 <= i < |s.table| && s.table[i] == e ensures e == filler && s.collected[i] {
      assert i !in locs(e);
    }
  }

  /** The first slot that may be reused comes before any that holds a filler which is not live. */
  lemma {:induction false} FreeIsFirst<T>(s: Slots<T>, filler: T, slots: seq<nat>, k: nat, e: T)
    requires Shape(s, |s.table|) && Absent(s, filler, e) && k < |slots| && forall j | 0 <= j <= k :: slots[j] < |s.table|
    requires s.collected[slots[k]] && forall j | 0 <= j < k :: !s.collected[slots[j]]
    ensures FirstHolding(s.table[slots[k] := e], slots, e, slots[k])
  {
    assert NotBefore(s.table[slots[k] := e], slots, e, k);
  }

  /** If none may be reused, no filler is in any of them. */
  lemma {:induction false} FullIsFirst<T>(s: Slots<T>, filler: T, slots: seq<nat>, n: nat, e: T)
    requires Shape(s, |s.table|) && Absent(s, filler, e) && n < |slots|
    requires forall k | 0 <= k < |slots| :: slots[k] < |s.table| && !s.collected[slots[k]]
    ensures FirstHolding(s.table[slots[n] := e], slots, e, slots[n])
  {
    var m := FirstAt(slots, slots[n], n);
    assert NotBefore(s.table[slots[n] := e], slots, e, m);
  }

  lemma {:induction false} FirstAt(slots: seq<nat>, loc: nat, n: nat) returns (m: nat)
    requires n < |slots| && slots[n] == loc
    ensures m <= n && slots[m] == loc && forall j | 0 <= j < m :: slots[j] != loc
  {
    if j :| 0 <= j < n && slots[j] == loc {
      m := FirstAt(slots, loc, j);
    } else {
      m := n;
    }
  }

  /** The element that had to make room is not stored any more. */
  lemma {:induction false} HandedOver<T>(s: Slots<T>, locs: T -> seq<nat>, filler: T, loc: nat, e: T, ep: bool)
    requires Shape(s, |s.table|) && Placed(s, locs, filler) && loc < |s.table| && !s.collected[loc] && Absent(s, filler, e)
    ensures Absent(Put(s, loc, e, ep), filler, s.table[loc])
  {
    var t, x := Put(s, loc, e, ep), s.table[loc];
    assert x != e;
    forall i | 0 <= i < |t.table| && t.table[i] == x ensures x == filler && t.collected[i] {
      assert i != loc && s.table[i] == x;
      if !s.collected[i] { LiveOnce(s, locs, filler, i, loc); }
      if i < loc { assert s.table[i] == s.table[loc]; } else { assert s.table[loc] == s.table[i]; }
    }
  }

  lemma {:induction false} EraseSlot<T>(s: Slots<T>, locs: T -> seq<nat>, filler: T, loc: nat)
    requires Shape(s, |s.table|) && Placed(s, locs, filler) && loc < |s.table|
    requires FirstHolding(s.table, locs(s.table[loc]), s.table[loc], loc)
    ensures var t := Slots(s.table, s.collected[loc := true], s.epoch);
      Placed(t, locs, filler) && Live(t) == Live(s) - {s.table[loc]} && Recent(t) <= Recent(s)
  {
    var t := Slots(s.table, s.collected[loc := true], s.epoch);
    CountUpdate(RecentFlags(s.collected, s.epoch), loc, false);
    assert RecentFlags(t.collected, t.epoch) == RecentFlags(s.collected, s.epoch)[loc := false];
    forall x | x in Live(s) && x != s.table[loc] ensures x in Live(t) {
      var i :| 0 <= i < |s.table| && !s.collected[i] && s.table[i] == x;
      assert !t.collected[i];
    }
    forall x | x in Live(t) ensures x in Live(s) && x != s.table[loc] {
      var i :| 0 <= i < |t.table| && !t.collected[i] && t.table[i] == x;
      assert i != loc && !s.collected[i];
      OtherThanFirst(s, locs, filler, i, loc);
    }
  }

  lemma {:induction false} OtherThanFirst<T>(s: Slots<T>, locs: T -> seq<nat>, filler: T, i: nat, loc: nat)
    requires Shape(s, |s.table|) && Placed(s, locs, filler) && i < |s.table| && loc < |s.table| && i != loc && !s.collected[i]
    requires FirstHolding(s.table, locs(s.table[loc]), s.table[loc], loc)
    ensures s.table[i] != s.table[loc]
  {
    if s.table[i] == filler == s.table[loc] { OnlyFirst(s.table, locs(filler), filler, i, loc); }
  }
}
