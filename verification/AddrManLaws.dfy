/** What the operations of the address manager do, entry by entry and slot by slot: the rules of src/addrman.cpp
    in times, counts and slots, for the functions of AddrManModel. */
module AddrManLaws {
  import opened AddrManModel
  import opened Powers

  // ---------- Slots ----------

  /** Two addresses contend for a tried slot exactly if their keyed hashes select the same of 256 buckets and, in it, the
      same of 64 places. */
  lemma {:induction false} TriedContend(h: Hasher, a: Addr, b: Addr)
    ensures TriedSlot(h, a) == TriedSlot(h, b) <==>
      && h.tried(a) % 256 == h.tried(b) % 256
      && h.position(false, h.tried(a) % 256, a) % 64 == h.position(false, h.tried(a) % 256, b) % 64
  {
  }

  /** For new slots the source of the announcement selects one of 1024 buckets. */
  lemma {:induction false} NewContend(h: Hasher, a: Addr, source: nat, b: Addr, source': nat)
    ensures NewSlot(h, a, NewBucket(h, a, source)) == NewSlot(h, b, NewBucket(h, b, source')) <==>
      && h.source(a.ip, source) % 1024 == h.source(b.ip, source') % 1024
      && h.position(true, h.source(a.ip, source) % 1024, a) % 64 == h.position(true, h.source(a.ip, source) % 1024, b) % 64
  {
  }

  // ---------- Statistics ----------

  /** An address is terrible unless it was tried in the last minute: it claims to be from the future, was not seen
      for a month, never worked in three attempts, or failed ten times over a week. */
  lemma {:induction false} TerribleMeans(c: Core, now: int)
    ensures IsTerrible(c, now) <==>
      && (c.nLastTry == 0 || now - c.nLastTry > 60)
      && (|| c.nTime - now > 600
          || c.nTime == 0 || now - c.nTime > 2592000
          || (c.nLastSuccess == 0 && c.nAttempts > 2)
          || (now - c.nLastSuccess > 604800 && c.nAttempts > 9))
  {
  }

  /** An attempt is noted for the address and port it was made to; a failure counts only once after the last
      success anywhere. */
  lemma {:induction false} AttemptMeans(cores: map<nat, Core>, addr: Addr, countFailure: bool, nLastGood: int, time: int, id: nat)
    requires id in cores
    ensures var all := AttemptAll(cores, addr, countFailure, nLastGood, time);
      && all.Keys == cores.Keys
      && var (c, a) := (cores[id], all[id]);
      && (c.addr != addr ==> a == c)
      && (c.addr == addr ==>
            && a.nLastTry == time
            && a.nAttempts - c.nAttempts == (if countFailure && c.nLastCountAttempt < nLastGood then 1 else 0)
            && (a.nAttempts == c.nAttempts ==> a.nLastCountAttempt == c.nLastCountAttempt)
            && (a.nAttempts != c.nAttempts ==> a.nLastCountAttempt == time)
            && a.addr == c.addr && a.nServices == c.nServices && a.source == c.source
            && a.nTime == c.nTime && a.nLastSuccess == c.nLastSuccess)
  {
  }

  /** Only the time and the services of a known entry are refreshed.  The time moves only forward past the
      interval, an hour for an address seen within a day and else a day, and never below 0. */
  lemma {:induction false} SeenMeans(c: Core, n: Notice, penalty: int, now: int)
    ensures var d := Seen(c, n, penalty, now);
      && d.nServices == c.nServices + n.nServices
      && d.addr == c.addr && d.source == c.source && d.nLastTry == c.nLastTry && d.nLastSuccess == c.nLastSuccess
      && d.nLastCountAttempt == c.nLastCountAttempt && d.nAttempts == c.nAttempts
      && var late := if now - n.nTime < 86400 then 3600 else 86400;
      && (n.nTime == 0 || (c.nTime != 0 && n.nTime - penalty - c.nTime <= late) ==> d.nTime == c.nTime)
      && (n.nTime != 0 && (c.nTime == 0 || n.nTime - penalty - c.nTime > late) ==>
            d.nTime == if n.nTime < penalty then 0 else n.nTime - penalty)
  {
  }

  /** A new entry starts without history. */
  lemma {:induction false} FreshMeans(addr: Addr, n: Notice, source: nat, penalty: int)
    ensures var c := Fresh(addr, n, source, penalty);
      && c.addr == addr && c.nServices == n.nServices && c.source == source
      && c.nTime == (if n.nTime < penalty then 0 else n.nTime - penalty)
      && c.nLastTry == c.nLastSuccess == c.nLastCountAttempt == c.nAttempts == 0
  {
  }

  // ---------- Garbage collection ----------

  /** Entries survive unchanged, and do so exactly if a slot refers to them. */
  lemma {:induction false} CollectMeans(t: Tables, id: nat)
    ensures Collect(t).newTable == t.newTable && Collect(t).triedTable == t.triedTable
    ensures id in Collect(t).cores <==>
      id in t.cores && ((exists x :: x in t.newTable && t.newTable[x] == id) || (exists x :: x in t.triedTable && t.triedTable[x] == id))
    ensures id in Collect(t).cores ==> Collect(t).cores[id] == t.cores[id]
  {
  }

  // ---------- Moving to the tried table ----------

  /** The entry takes its tried slot and gives up all its new slots.  Whoever held the tried slot is back in the new
      slot that its own source selects.  No other slot changes, and no entry but those without slot goes. */
  ghost predicate Moves(h: Hasher, t: Tables, u: Tables, id: nat)
    requires id in t.cores
  {
    var k := TriedSlot(h, t.cores[id].addr);
    && k in u.triedTable && u.triedTable[k] == id && u.triedTable - {k} == t.triedTable - {k}
    && (k !in t.triedTable ==> forall x :: x in u.newTable <==> x in t.newTable && t.newTable[x] != id)
    && (k !in t.triedTable ==> forall x | x in u.newTable :: x in t.newTable && u.newTable[x] == t.newTable[x])
    && (k in t.triedTable ==>
          var prev := t.triedTable[k];
          && prev in t.cores
          && var home := NewSlot(h, t.cores[prev].addr, NewBucket(h, t.cores[prev].addr, t.cores[prev].source));
          && home in u.newTable && u.newTable[home] == prev
          && (forall x | x != home :: x in u.newTable <==> x in t.newTable && t.newTable[x] != id)
          && (forall x | x != home && x in u.newTable :: x in t.newTable && u.newTable[x] == t.newTable[x]))
    && forall e | e in u.cores :: e in t.cores && u.cores[e] == t.cores[e]
  }

  lemma {:induction false} MakeTriedMeans(h: Hasher, t: Tables, id: nat)
    requires Sound(t) && id in t.cores && id !in t.triedTable.Values
    ensures Moves(h, t, MakeTried(h, t, id), id)
  {
    hide TriedSlot, NewSlot, NewBucket;
    var k := TriedSlot(h, t.cores[id].addr);
    if k in t.triedTable { assert t.triedTable[k] in t.triedTable.Values; }
  }

  /** A success: the statistics of the entry start anew at that time.  An entry in the tried table stays there.  One
      whose tried slot is taken waits for a test, if there is to be one, unless ten wait already.  Any other moves. */
  lemma {:induction false} GoodMeans(h: Hasher, t: Tables, collisions: set<nat>, id: nat, addr: Addr, test: bool, time: int)
    requires Sound(t) && id in t.cores
    ensures var (u, waiting) := Good(h, t, collisions, id, addr, test, time);
      var c := t.cores[id];
      if c.addr != addr then u == t && waiting == collisions
      else
        var d := Core(c.addr, c.nServices, c.source, c.nTime, time, c.nLastCountAttempt, time, 0);
        var t1 := t.(cores := t.cores[id := d]);
        if (exists x :: x in t.triedTable && t.triedTable[x] == id) then u == t1 && waiting == collisions
        else if test && TriedSlot(h, addr) in t.triedTable then
          u == t1 && waiting == if |collisions| < 10 then collisions + {id} else collisions
        else Moves(h, t1, u, id) && waiting == collisions
  {
    hide TriedSlot, MakeTried, Moves;
    var c := t.cores[id];
    if c.addr == addr {
      assert id in t.triedTable.Values <==> exists x :: x in t.triedTable && t.triedTable[x] == id;
      if id !in t.triedTable.Values { MakeTriedMeans(h, t.(cores := t.cores[id := Succeeded(c, time)]), id); }
    }
  }

  // ---------- New references ----------

  /** The slot that the source selects is given to the entry if it is free, already its own, held by a terrible entry, or
      held by one with other slots while this one has none.  Otherwise nothing is referred to anew. */
  ghost predicate MayTake(h: Hasher, t: Tables, id: nat, x: Slot, now: int)
    requires Sound(t)
  {
    x in t.newTable ==>
      assert t.newTable[x] in t.newTable.Values;
      var other := t.newTable[x];
      || other == id || IsTerrible(t.cores[other], now)
      || ((exists y :: y != x && y in t.newTable && t.newTable[y] == other) && forall y | y in t.newTable :: t.newTable[y] != id)
  }

  lemma {:induction false} ReferMeans(h: Hasher, t: Tables, id: nat, source: nat, now: int)
    requires Sound(t) && id in t.cores
    ensures var u := Refer(h, t, id, source, now);
      var x := NewSlot(h, t.cores[id].addr, NewBucket(h, t.cores[id].addr, source));
      u == Collect(t.(newTable := if MayTake(h, t, id, x, now) then t.newTable[x := id] else t.newTable))
  {
    hide NewSlot, NewBucket, IsTerrible, Collect;
    var x := NewSlot(h, t.cores[id].addr, NewBucket(h, t.cores[id].addr, source));
    if x in t.newTable {
      assert t.newTable[x] in t.newTable.Values;
      SeveralSlots(t.newTable, x);
      NoSlots(t.newTable, id);
    }
  }

  /** More than one slot means another one. */
  lemma {:induction false} SeveralSlots(t: map<Slot, nat>, x: Slot)
    requires x in t
    ensures |SlotsOf(t, t[x])| > 1 <==> exists y :: y != x && y in t && t[y] == t[x]
  {
    var s := SlotsOf(t, t[x]);
    assert x in s;
    assert |s - {x}| == |s| - 1;
    if s - {x} != {} {
      var y :| y in s - {x};
    }
    if y :| y != x && y in t && t[y] == t[x] {
      assert y in s - {x};
    }
  }

  lemma {:induction false} NoSlots(t: map<Slot, nat>, id: nat)
    ensures SlotsOf(t, id) == {} <==> forall y | y in t :: t[y] != id
  {
    if y :| y in t && t[y] == id { assert y in SlotsOf(t, id); }
  }

  /** An unknown address is entered, with that one reference, if its slot is free or its holder may be replaced; else not at all. */
  lemma {:induction false} AddUnknownMeans(h: Hasher, t: Tables, id: nat, addr: Addr, n: Notice, source: nat, penalty: int, now: int)
    requires Sound(t) && id !in t.cores
    ensures var u := AddUnknown(h, t, id, addr, n, source, penalty, now);
      var x := NewSlot(h, addr, NewBucket(h, addr, source));
      && u.triedTable == t.triedTable
      && if x !in t.newTable || IsTerrible(HolderOf(t, x), now) || (exists y :: y != x && y in t.newTable && t.newTable[y] == t.newTable[x])
         then u.newTable == t.newTable[x := id] && id in u.cores && u.cores[id] == Fresh(addr, n, source, penalty)
         else u.newTable == t.newTable && id !in u.cores
  {
    hide NewSlot, NewBucket, IsTerrible;
    var x := NewSlot(h, addr, NewBucket(h, addr, source));
    var t1 := t.(cores := t.cores[id := Fresh(addr, n, source, penalty)]);
    ReferMeans(h, t1, id, source, now);
    hide Fresh, Refer;
    assert forall y | y in t.newTable :: t.newTable[y] in t.newTable.Values;
    assert forall y | y in t.triedTable :: t.triedTable[y] in t.triedTable.Values;
    CollectMeans(t1, id);
    CollectMeans(t1.(newTable := t.newTable[x := id]), id);
    assert t.newTable[x := id][x] == id;
  }

  function HolderOf(t: Tables, x: Slot): Core
    requires Sound(t) && x in t.newTable
  {
    assert t.newTable[x] in t.newTable.Values;
    t.cores[t.newTable[x]]
  }

  /** A known address gets another reference only if it is announced with a newer time, is not tried, has fewer than eight
      references and is lucky; it is refreshed in any case. */
  lemma {:induction false} AddKnownMeans(h: Hasher, t: Tables, id: nat, n: Notice, source: nat, penalty: int,
          clock: nat -> int, random: nat -> nat)
    requires Sound(t) && id in t.cores
    ensures var u := AddKnown(h, t, id, n, source, penalty, clock, random);
      var c := Seen(t.cores[id], n, penalty, clock(0));
      var t1 := t.(cores := t.cores[id := c]);
      var refs := |SlotsOf(t.newTable, id)|;
      if n.nTime > 0 && (c.nTime == 0 || c.nTime < n.nTime) && (forall x | x in t.triedTable :: t.triedTable[x] != id)
         && refs != 8 && random(Pow(2, refs)) % Pow(2, refs) == 0
      then u == Refer(h, t1, id, source, clock(1)) else u == t1
  {
    hide Refer, Seen, Pow;
  }

  // ---------- Collisions ----------

  /** What becomes of pending `id` at time `now`.  A holder that answered within four hours keeps its slot and the
      collision is dropped.  One that was tried within the last minute keeps it for now.  One that was tried more
      than a minute ago without answering loses it.  One that was not tried for four hours loses it once the
      pending entry has waited for forty minutes.  A slot nobody holds is taken at once. */
  ghost predicate Settles(h: Hasher, t: Tables, u: Tables, id: nat, now: int, valid: Addr -> bool, settled: bool)
    requires Sound(t)
  {
    if id !in t.cores || !valid(t.cores[id].addr) then u == t && settled
    else
      var k := TriedSlot(h, t.cores[id].addr);
      if k !in t.triedTable then Promoted(h, t, u, id, now) && settled
      else
        assert t.triedTable[k] in t.triedTable.Values;
        var holder := t.cores[t.triedTable[k]];
        && (now - holder.nLastSuccess < 14400 ==> u == t && settled)
        && (now - holder.nLastSuccess >= 14400 && now - holder.nLastTry <= 60 ==> u == t && !settled)
        && (now - holder.nLastSuccess >= 14400 && 60 < now - holder.nLastTry < 14400 ==> Promoted(h, t, u, id, now) && settled)
        && (now - holder.nLastSuccess >= 14400 && now - holder.nLastTry >= 14400 ==>
              if now - t.cores[id].nLastSuccess > 2400 then Promoted(h, t, u, id, now) && settled else u == t && !settled)
  }

  /** `id` holds its tried slot and has just succeeded; whoever held the slot before is in the new table. */
  ghost predicate Promoted(h: Hasher, t: Tables, u: Tables, id: nat, now: int)
    requires id in t.cores && t.triedTable.Values <= t.cores.Keys
  {
    var k := TriedSlot(h, t.cores[id].addr);
    && id in u.cores && u.cores[id].nLastSuccess == u.cores[id].nLastTry == now && u.cores[id].nAttempts == 0
    && (id !in t.triedTable.Values ==>
          && k in u.triedTable && u.triedTable[k] == id
          && (k in t.triedTable ==> t.triedTable[k] in u.newTable.Values))
    && (id in t.triedTable.Values ==> u.triedTable == t.triedTable && u.newTable == t.newTable)
  }

  lemma {:induction false} GoodPromotes(h: Hasher, t: Tables, id: nat, now: int)
    requires Sound(t) && id in t.cores
    ensures Promoted(h, t, Good(h, t, {}, id, t.cores[id].addr, false, now).0, id, now)
  {
    hide TriedSlot, MakeTried;
    var c := t.cores[id];
    var t1 := t.(cores := t.cores[id := Succeeded(c, now)]);
    if id !in t.triedTable.Values {
      MakeTriedSound(h, t1, id);
      MakeTriedMeans(h, t1, id);
      var u := MakeTried(h, t1, id);
      var k := TriedSlot(h, c.addr);
      if k in t.triedTable { HasValue(u.newTable, t.triedTable[k]); }
    }
  }

  lemma {:induction false} HasValue(m: map<Slot, nat>, v: nat)
    requires exists x :: x in m && m[x] == v
    ensures v in m.Values
  {
  }

  lemma {:induction false} ResolveMeans(h: Hasher, t: Tables, id: nat, clock: Clock, valid: Addr -> bool, now: int)
    requires Sound(t) && clock(id, 0) == clock(id, 1) == clock(id, 2) == clock(id, 3) == now
    ensures var (u, settled) := ResolveOne(h, t, id, clock, valid); Settles(h, t, u, id, now, valid, settled)
  {
    hide TriedSlot, Good, Promoted;
    if id in t.cores { GoodPromotes(h, t, id, now); }
  }

  ghost predicate SettlesUnless(h: Hasher, t: Tables, u: Tables, id: nat, now: int, valid: Addr -> bool, kept: set<nat>)
    requires Sound(t)
  {
    Settles(h, t, u, id, now, valid, id !in kept)
  }

  /** The pending ids, the least first, each settled or kept by the rules. */
  ghost predicate Pass(h: Hasher, t: Tables, pending: set<nat>, u: Tables, kept: set<nat>, now: int, valid: Addr -> bool)
    decreases |pending|
  {
    if pending == {} then u == t && kept == {}
    else
      var id := Least(pending);
      && Sound(t)
      && exists m: Tables :: SettlesUnless(h, t, m, id, now, valid, kept) && Pass(h, m, pending - {id}, u, kept - {id}, now, valid)
  }

  lemma {:induction false} ResolveOneSound(h: Hasher, t: Tables, id: nat, clock: Clock, valid: Addr -> bool)
    requires Sound(t)
    ensures Sound(ResolveOne(h, t, id, clock, valid).0)
  {
    hide Good, Promotes, GivenUp;
    if id in t.cores { GoodSound(h, t, {}, id, t.cores[id].addr, false, clock(id, 3)); }
  }

  /** A whole pass over the collisions at one time: in ascending order, each by the rules. */
  lemma {:induction false} ResolvePass(h: Hasher, t: Tables, pending: set<nat>, clock: Clock, valid: Addr -> bool, now: int)
    requires Sound(t) && forall id, k: nat | id in pending && k < 4 :: clock(id, k) == now
    ensures var (u, kept) := Resolve(h, t, pending, clock, valid); kept <= pending && Pass(h, t, pending, u, kept, now, valid)
    decreases |pending|
  {
    hide ResolveOne, Settles;
    if pending != {} {
      var id := Least(pending);
      assert clock(id, 0) == clock(id, 1) == clock(id, 2) == clock(id, 3) == now;
      ResolveMeans(h, t, id, clock, valid, now);
      ResolveOneSound(h, t, id, clock, valid);
      var (m, settled) := ResolveOne(h, t, id, clock, valid);
      ResolvePass(h, m, pending - {id}, clock, valid, now);
      var (u, kept) := Resolve(h, m, pending - {id}, clock, valid);
      var all := if settled then kept else kept + {id};
      assert Resolve(h, t, pending, clock, valid) == (u, all);
      assert all - {id} == kept;
      assert SettlesUnless(h, t, m, id, now, valid, all);
    }
  }
}
