/** The address manager of src/addrman.cpp as it works: maps, the random-order vector and the two
    bucket arrays, updated in place.  Every public operation keeps the invariant and does to the
    tables what the functions of AddrManModel say. */
module AddrMan {
  import opened Options
  import opened Powers
  import opened AddrManModel
  import opened AddrManLaws
  import opened AddrManSteps

  /** CAddrInfo: the lasting part and the manager's bookkeeping. */
  datatype Info = Info(core: Core, nRefCount: int, fInTried: bool, nRandomPos: int)

  function Cores(m: map<nat, Info>): map<nat, Core> { map id | id in m :: m[id].core }
  function Refs(m: map<nat, Info>): map<nat, int> { map id | id in m :: m[id].nRefCount }
  function TriedIds(m: map<nat, Info>): set<nat> { set id | id in m && m[id].fInTried }
  function Positions(m: map<nat, Info>): map<nat, int> { map id | id in m :: m[id].nRandomPos }

  lemma {:induction false} PutInfo(m: map<nat, Info>, id: nat, i: Info)
    ensures Cores(m[id := i]) == Cores(m)[id := i.core]
    ensures Refs(m[id := i]) == Refs(m)[id := i.nRefCount]
    ensures TriedIds(m[id := i]) == if i.fInTried then TriedIds(m) + {id} else TriedIds(m) - {id}
    ensures Positions(m[id := i]) == Positions(m)[id := i.nRandomPos]
  {
  }

  /** Writing back what was there changes nothing. */
  lemma {:induction false} SameInfo(m: map<nat, Info>, id: nat)
    requires id in m
    ensures id in Cores(m) && Cores(m)[id] == m[id].core && Cores(m)[id := m[id].core] == Cores(m)
    ensures id in Refs(m) && Refs(m)[id] == m[id].nRefCount && Refs(m)[id := m[id].nRefCount] == Refs(m)
    ensures id in TriedIds(m) <==> m[id].fInTried
    ensures (if m[id].fInTried then TriedIds(m) + {id} else TriedIds(m) - {id}) == TriedIds(m)
    ensures id in Positions(m) && Positions(m)[id] == m[id].nRandomPos && Positions(m)[id := m[id].nRandomPos] == Positions(m)
  {
  }

  lemma {:induction false} EraseInfo(m: map<nat, Info>, id: nat)
    ensures Cores(m - {id}) == Cores(m) - {id}
    ensures Refs(m - {id}) == Refs(m) - {id}
    ensures TriedIds(m - {id}) == TriedIds(m) - {id}
    ensures Positions(m - {id}) == Positions(m) - {id}
  {
  }

  /** The content of a bucket slot: an id, or -1 for an empty slot. */
  type Cell = x: int | -1 <= x witness -1

  /** The slots of a bucket array and what they hold. */
  ghost function Occupied(a: array2<Cell>): map<Slot, nat>
    reads a
  {
    map x | x in AllSlots(a.Length0, a.Length1) && a[x.bucket, x.index] >= 0 :: a[x.bucket, x.index]
  }

  function Put(t: map<Slot, nat>, x: Slot, v: Cell): map<Slot, nat> {
    if v < 0 then t - {x} else t[x := v]
  }

  method SetSlot(a: array2<Cell>, x: Slot, v: Cell)
    requires x.bucket < a.Length0 && x.index < a.Length1
    modifies a
    ensures Occupied(a) == Put(old(Occupied(a)), x, v)
  {
    a[x.bucket, x.index] := v;
    assert x in AllSlots(a.Length0, a.Length1);
    assert forall y | y in AllSlots(a.Length0, a.Length1) && y != x :: a[y.bucket, y.index] == old(a[y.bucket, y.index]);
  }

  lemma {:induction false} SlotAt(a: array2<Cell>, x: Slot)
    requires x.bucket < a.Length0 && x.index < a.Length1
    ensures x in Occupied(a) <==> a[x.bucket, x.index] != -1
    ensures x in Occupied(a) ==> Occupied(a)[x] == a[x.bucket, x.index]
  {
    assert x in AllSlots(a.Length0, a.Length1);
  }

  lemma {:induction false} NothingOccupied(a: array2<Cell>)
    requires forall i, j | 0 <= i < a.Length0 && 0 <= j < a.Length1 :: a[i, j] == -1
    ensures Occupied(a) == map[]
  {
  }

  /** t is s without some of the entries in `gone`; nothing else about the other entries differs. */
  ghost predicate Forgets(s: State, t: State, gone: set<nat>) {
    && t.cores.Keys <= s.cores.Keys && s.cores.Keys - t.cores.Keys <= gone
    && (forall id | id in t.cores :: t.cores[id] == s.cores[id])
    && (forall id | id in t.cores && id !in gone :: id in t.refs && id in s.refs && t.refs[id] == s.refs[id])
    && t.inTried == s.inTried && t.triedTable == s.triedTable && t.nIdCount == s.nIdCount
  }

  lemma {:induction false} RandomInfo(m: map<nat, Info>, v: seq<nat>, i: nat)
    requires RandomOk(Positions(m), v) && i < |v|
    ensures v[i] in m
  {
    RandomMember(Positions(m), v, i);
  }

  lemma {:induction false} PlaceOf(m: map<nat, Info>, v: seq<nat>, id: nat)
    requires RandomOk(Positions(m), v) && id in m
    ensures 0 <= m[id].nRandomPos < |v| && v[m[id].nRandomPos] == id
  {
    assert id in Positions(m);
  }

  lemma {:induction false} SwappedKeeps(s: State, i: nat, j: nat)
    requires i < |s.vRandom| && j < |s.vRandom|
    ensures var t := Swapped(s, i, j);
      && t.cores == s.cores && t.refs == s.refs && t.inTried == s.inTried
      && |t.vRandom| == |s.vRandom| && t.vRandom[j] == s.vRandom[i]
  {
  }

  lemma {:induction false} NotTried(m: map<nat, Info>, id: nat)
    requires id !in TriedIds(m)
    ensures TriedIds(m) - {id} == TriedIds(m)
  {
  }

  lemma {:induction false} InvRandom(h: Hasher, s: State, loose: set<nat>, limbo: set<nat>)
    requires InvBut(h, s, loose, limbo)
    ensures RandomOk(s.pos, s.vRandom)
  {
    hide AddrOk, IdsOk, RandomOk, TriedOk, NewOk, CountOk;
  }

  lemma {:induction false} DeleteForgets(s: State, id: nat)
    requires id in s.cores && s.refs.Keys == s.cores.Keys && id in s.pos && 0 <= s.pos[id] < |s.vRandom|
    ensures Forgets(s, Deleted(s, id), {id}) && id !in Deleted(s, id).cores && Deleted(s, id).newTable == s.newTable
  {
  }

  lemma {:induction false} EntryInfo(m: map<nat, Info>, id: nat)
    ensures id in Cores(m) <==> id in m
    ensures id in Refs(m) <==> id in m
  {
  }

  lemma {:induction false} DropForgets(s: State, x: Slot, id: nat)
    requires id in s.refs && s.refs.Keys == s.cores.Keys
    ensures Forgets(s, Dropped(s, x, id), {id})
  {
  }

  lemma {:induction false} ForgetsBoth(s: State, t: State, u: State, id: nat)
    requires Forgets(s, t, {id}) && Forgets(t, u, {id})
    ensures Forgets(s, u, {id})
  {
  }

  lemma {:induction false} RefsAreEntries(h: Hasher, s: State, loose: set<nat>, limbo: set<nat>)
    requires InvBut(h, s, loose, limbo)
    ensures s.refs.Keys == s.cores.Keys
  {
    hide AddrOk, IdsOk, RandomOk, TriedOk, CountOk;
  }

  /** Who holds a slot of the new table. */
  lemma {:induction false} NewHolder(h: Hasher, s: State, loose: set<nat>, limbo: set<nat>, x: Slot)
    requires InvBut(h, s, loose, limbo) && x in s.newTable
    ensures var id := s.newTable[x]; id in s.cores && id in s.refs && id !in s.inTried && s.refs[id] > 0
  {
    hide AddrOk, IdsOk, RandomOk, TriedOk, CountOk;
    RefsAreEntries(h, s, loose, limbo);
    assert s.newTable[x] in s.cores;
    hide NewOk;
    DroppedInv(h, s, loose, limbo, x, s.newTable[x]);
  }

  /** s with some references of `id` dropped. */
  function WithoutRefs(s: State, id: nat, gone: set<Slot>, refs: int): State {
    s.(newTable := s.newTable - gone, refs := s.refs[id := refs])
  }

  /** Every bucket comes up when counting around from any starting bucket. */
  lemma {:induction false} Around(start: nat, bucket: nat) returns (n: nat)
    requires start < NEW_BUCKET_COUNT && bucket < NEW_BUCKET_COUNT
    ensures n < NEW_BUCKET_COUNT && bucket == BucketAt(start, n)
  {
    n := if bucket >= start then bucket - start else bucket + NEW_BUCKET_COUNT - start;
  }

  function BucketAt(start: nat, n: nat): nat { (start + n) % NEW_BUCKET_COUNT }

  /** References of `id` that are left are in buckets not looked at yet. */
  ghost predicate Unseen(t: map<Slot, nat>, id: nat, start: nat, n: nat) {
    forall x, m: nat | x in t && t[x] == id && m < n :: x.bucket != BucketAt(start, m)
  }

  lemma {:induction false} UnseenNext(h: Hasher, s: State, loose: set<nat>, limbo: set<nat>, id: nat, start: nat,
          n: nat)
    requires InvBut(h, s, loose, limbo) && id in s.cores && Unseen(s.newTable, id, start, n)
    ensures var x := NewSlot(h, s.cores[id].addr, BucketAt(start, n));
      Unseen(if x in s.newTable && s.newTable[x] == id then s.newTable - {x} else s.newTable, id, start, n + 1)
  {
    hide AddrOk, IdsOk, RandomOk, TriedOk, CountOk, NewSlot;
    var x := NewSlot(h, s.cores[id].addr, BucketAt(start, n));
    NewSlotRange(h, s.cores[id].addr, BucketAt(start, n));
    var t := if x in s.newTable && s.newTable[x] == id then s.newTable - {x} else s.newTable;
    forall y, m: nat | y in t && t[y] == id && m < n + 1 ensures y.bucket != BucketAt(start, m) {
      assert y in s.newTable && s.newTable[y] == id && y == NewSlot(h, s.cores[id].addr, y.bucket);
    }
  }

  lemma {:induction false} AllSeen(h: Hasher, s: State, loose: set<nat>, limbo: set<nat>, id: nat, start: nat)
    requires InvBut(h, s, loose, limbo) && id in s.cores && id in s.refs && start < NEW_BUCKET_COUNT
    requires Unseen(s.newTable, id, start, NEW_BUCKET_COUNT) || s.refs[id] == 0
    ensures s.refs[id] == 0 && SlotsOf(s.newTable, id) == {}
  {
    hide AddrOk, IdsOk, RandomOk, TriedOk, CountOk, NewSlot;
    if Unseen(s.newTable, id, start, NEW_BUCKET_COUNT) {
      forall x | x in s.newTable ensures s.newTable[x] != id {
        var n := Around(start, x.bucket);
      }
      assert SlotsOf(s.newTable, id) == {};
    }
  }

  lemma {:induction false} DropMore(s: State, id: nat, gone: set<Slot>, refs: int, x: Slot)
    requires id in s.refs
    ensures Dropped(WithoutRefs(s, id, gone, refs), x, id) == WithoutRefs(s, id, gone + {x}, refs - 1)
  {
    assert s.newTable - gone - {x} == s.newTable - (gone + {x});
  }

  lemma {:induction false} NothingSeen(h: Hasher, s: State, id: nat, start: nat)
    requires Inv(h, s) && id in s.cores && id in s.refs
    ensures InvBut(h, s, {id}, {}) && Unseen(s.newTable, id, start, 0)
    ensures s == WithoutRefs(s, id, {}, s.refs[id])
  {
    hide AddrOk, IdsOk, RandomOk, TriedOk, CountOk, NewSlot;
  }

  lemma {:induction false} NewSlotRange(h: Hasher, a: Addr, bucket: nat)
    ensures NewSlot(h, a, bucket).bucket == bucket && NewSlot(h, a, bucket).index < BUCKET_SIZE
  {
  }

  lemma {:induction false} SlotsIn(t: map<Slot, nat>, u: map<Slot, nat>, x: Slot, id: nat)
    requires x in u && u[x] == id && u.Items <= t.Items
    ensures x in SlotsOf(t, id)
  {
    assert (x, id) in u.Items;
  }

  lemma {:induction false} AllGone(t: map<Slot, nat>, gone: set<Slot>, id: nat)
    requires gone <= SlotsOf(t, id) && SlotsOf(t - gone, id) == {}
    ensures gone == SlotsOf(t, id)
  {
    forall x | x in SlotsOf(t, id) ensures x in gone {
      assert x !in gone ==> x in SlotsOf(t - gone, id);
    }
  }

  /** What ClearNew leaves: entries only go, and only the slot's holder does. */
  ghost predicate Cleared(s: State, t: State, x: Slot) {
    && t.newTable == s.newTable - {x}
    && if x in s.newTable then Forgets(s, t, {s.newTable[x]}) else t == s
  }

  lemma {:induction false} ClearedKeeps(s: State, t: State, x: Slot, id: nat)
    requires Cleared(s, t, x) && id in s.cores && id in s.refs && (x in s.newTable ==> s.newTable[x] != id)
    ensures id in t.cores && id in t.refs && t.refs[id] == s.refs[id] && t.cores[id] == s.cores[id]
  {
    if x in s.newTable {
      assert id !in s.cores.Keys - t.cores.Keys;
    }
  }

  /** Entries only go. */
  ghost predicate SubCores(cores: map<nat, Core>, than: map<nat, Core>) {
    && cores.Keys <= than.Keys
    && forall id | id in cores :: cores[id] == than[id]
  }

  lemma {:induction false} ClearedOnly(s: State, t: State, x: Slot)
    requires Cleared(s, t, x)
    ensures SubCores(t.cores, s.cores) && t.inTried == s.inTried && t.triedTable == s.triedTable && t.nIdCount == s.nIdCount
  {
  }

  lemma {:induction false} TriedHolder(h: Hasher, s: State, loose: set<nat>, limbo: set<nat>, k: Slot)
    requires InvBut(h, s, loose, limbo) && k in s.triedTable
    ensures s.triedTable[k] in s.cores && s.triedTable[k] in s.refs && s.triedTable[k] in s.inTried
  {
    hide AddrOk, IdsOk, RandomOk, NewOk, CountOk;
    RefsAreEntries(h, s, loose, limbo);
    TriedLeave(h, s.cores, s.inTried, s.triedTable, k);
  }

  lemma {:induction false} NoReference(h: Hasher, s: State, loose: set<nat>, limbo: set<nat>, x: Slot, id: nat)
    requires InvBut(h, s, loose, limbo) && id in s.refs && s.refs[id] == 0
    ensures x in s.newTable ==> s.newTable[x] != id
  {
    hide InvBut;
    if x in s.newTable { NewHolder(h, s, loose, limbo, x); }
  }

  lemma {:induction false} SlotTaken(s: State, t: State, x: Slot, id: nat)
    requires Cleared(s, t, x)
    ensures x !in t.newTable && t.newTable[x := id] == s.newTable[x := id]
  {
  }

  lemma {:induction false} CountAgain(h: Hasher, u: State, w: State, x: Slot, e: nat, id: nat)
    requires e in u.refs && e in u.cores && e !in u.inTried && w == Taken(u, x, e) && e != id
    requires InvBut(h, w, {id} + {e} - {e}, {id} + {e})
    ensures InvBut(h, w.(nNew := w.nNew + 1), {id}, {id})
  {
    hide InvBut;
    assert {id} + {e} - {e} == {id};
    var v := w.(nNew := w.nNew + 1);
    assert v.(nNew := v.nNew - 1) == w;
    LimboInv(h, v, {id}, {id}, e);
  }

  lemma {:induction false} SubCoresSelf(cores: map<nat, Core>)
    ensures SubCores(cores, cores)
  {
  }

  lemma {:induction false} SubCoresAt(cores: map<nat, Core>, than: map<nat, Core>, id: nat)
    requires SubCores(cores, than) && id in cores
    ensures id in than && cores[id] == than[id]
  {
  }

  lemma {:induction false} TriedSlotRange(h: Hasher, a: Addr)
    ensures TriedSlot(h, a).bucket < TRIED_BUCKET_COUNT && TriedSlot(h, a).index < BUCKET_SIZE
  {
  }

  lemma {:induction false} InvSound(h: Hasher, s: State)
    requires Inv(h, s)
    ensures Sound(TablesOf(s))
  {
    hide InvBut;
    EntriesAreReferenced(h, s);
  }

  lemma {:induction false} MadeTried(h: Hasher, s: State, t: State, id: nat)
    requires Inv(h, s) && Inv(h, t) && id in s.cores && SubCores(t.cores, s.cores) && t.nIdCount == s.nIdCount
    requires var k := TriedSlot(h, s.cores[id].addr);
      && (k in s.triedTable ==> s.triedTable[k] in s.cores)
      && t.triedTable == s.triedTable[k := id]
      && var without := s.newTable - SlotsOf(s.newTable, id);
         t.newTable ==
           if k in s.triedTable then without[DefaultNewSlot(h, s.cores[s.triedTable[k]]) := s.triedTable[k]] else without
    ensures Sound(TablesOf(s)) && TablesOf(t) == AddrManModel.MakeTried(h, TablesOf(s), id) && Later(s, t)
  {
    hide InvBut, TriedSlot, DefaultNewSlot, SlotsOf;
    InvSound(h, s);
    CollectedIs(h, t, s.cores);
  }

  lemma {:induction false} FindOk(h: Hasher, s: State, m: map<nat, Info>)
    requires Inv(h, s) && s.cores == Cores(m)
    ensures forall ip | ip in s.mapAddr :: s.mapAddr[ip] in m && m[s.mapAddr[ip]].core.addr.ip == ip
    ensures forall id | id in m :: m[id].core.addr.ip in s.mapAddr
  {
    hide IdsOk, RandomOk, TriedOk, NewOk, CountOk;
    forall id | id in m ensures m[id].core.addr.ip in s.mapAddr {
      assert id in s.cores;
    }
  }

  lemma {:induction false} CoreSetLater(s: State, id: nat, core: Core)
    requires id in s.cores && core.addr == s.cores[id].addr
    ensures Later(s, CoreSet(s, id, core))
  {
  }

  lemma {:induction false} LaterSelf(s: State)
    ensures Later(s, s)
  {
  }

  /** Being marked as tried is being in the tried table; otherwise there are references. */
  lemma {:induction false} TriedMeans(h: Hasher, s: State, id: nat)
    requires Inv(h, s) && id in s.cores && id in s.refs
    ensures id in s.inTried <==> id in s.triedTable.Values
    ensures id !in s.inTried ==> s.refs[id] > 0
  {
    assert id !in s.inTried ==> s.refs[id] > 0 by {
      hide AddrOk, IdsOk, RandomOk, TriedOk, CountOk;
    }
    hide InvBut;
    EntriesAreReferenced(h, s);
  }

  lemma {:induction false} CollisionsWith(h: Hasher, s: State, collisions: set<nat>, id: nat)
    requires Inv(h, s) && CollisionsOk(h, s.cores, s.triedTable, collisions, s.nIdCount)
    requires id in s.cores && TriedSlot(h, s.cores[id].addr) in s.triedTable
    ensures CollisionsOk(h, s.cores, s.triedTable, collisions + {id}, s.nIdCount)
  {
    hide AddrOk, RandomOk, TriedOk, NewOk, CountOk, TriedSlot;
  }

  lemma {:induction false} OneEntry(h: Hasher, s: State, id: nat)
    requires Inv(h, s) && id in s.cores
    ensures forall x | x in s.cores && s.cores[x].addr.ip == s.cores[id].addr.ip :: x == id
  {
    hide IdsOk, RandomOk, TriedOk, NewOk, CountOk;
  }

  lemma {:induction false} UnusedId(h: Hasher, s: State)
    requires Inv(h, s)
    ensures s.nIdCount !in s.cores && s.nIdCount !in s.inTried
  {
    hide RandomOk, NewOk, CountOk, AddrOk, TriedSlot;
  }

  lemma {:induction false} SoundBut(h: Hasher, s: State, loose: set<nat>)
    requires InvBut(h, s, loose, {})
    ensures Sound(TablesOf(s)) && s.refs.Keys == s.cores.Keys
  {
    hide IdsOk, RandomOk, CountOk, AddrOk, TriedSlot, NewSlot;
  }

  /** What Add_ looks at decides whether the slot's holder may be replaced. */
  lemma {:induction false} ReplaceMeans(h: Hasher, s: State, loose: set<nat>, x: Slot, id: nat, now: int)
    requires InvBut(h, s, loose, {}) && Sound(TablesOf(s)) && id in s.cores && id in s.refs
    ensures x in s.newTable ==>
      var other := s.newTable[x];
      && other in s.cores && other in s.refs && s.refs[other] > 0
      && (Replaceable(TablesOf(s), x, id, now)
          <==> other == id || IsTerrible(s.cores[other], now) || (s.refs[other] > 1 && s.refs[id] == 0))
  {
    hide IdsOk, RandomOk, CountOk, AddrOk, TriedOk, NewSlot, IsTerrible;
    if x in s.newTable {
      NewHolder(h, s, loose, {}, x);
    }
  }

  lemma {:induction false} Referred(h: Hasher, s: State, t: State, id: nat, source: nat, now: int)
    requires Sound(TablesOf(s)) && id in s.cores
    requires Inv(h, t) && SubCores(t.cores, s.cores) && t.triedTable == s.triedTable && t.nIdCount == s.nIdCount
    requires var x := NewSlot(h, s.cores[id].addr, NewBucket(h, s.cores[id].addr, source));
      t.newTable == if x in s.newTable && !Replaceable(TablesOf(s), x, id, now) then s.newTable else s.newTable[x := id]
    ensures TablesOf(t) == Refer(h, TablesOf(s), id, source, now) && Later(s, t)
  {
    hide InvBut, NewSlot, NewBucket, Replaceable;
    CollectedIs(h, t, s.cores);
  }

  lemma {:induction false} ForgetsSub(s: State, t: State, id: nat)
    requires Forgets(s, t, {id})
    ensures SubCores(t.cores, s.cores) && t.triedTable == s.triedTable && t.nIdCount == s.nIdCount
  {
  }

  lemma {:induction false} InfoAddrs(m: map<nat, Info>)
    ensures forall id | id in m :: id in Cores(m) && Cores(m)[id] == m[id].core
    ensures forall id | id in Cores(m) :: id in m && Cores(m)[id] == m[id].core
  {
  }

  lemma {:induction false} AttemptNone(cores: map<nat, Core>, addr: Addr, countFailure: bool, nLastGood: int, time: int)
    ensures (forall id | id in cores :: cores[id].addr != addr) ==>
      AttemptAll(cores, addr, countFailure, nLastGood, time) == cores
  {
  }

  lemma {:induction false} AttemptOne(cores: map<nat, Core>, id: nat, addr: Addr, countFailure: bool, nLastGood: int,
          time: int)
    requires id in cores && forall x | x in cores && x != id :: cores[x].addr != addr
    ensures AttemptAll(cores, addr, countFailure, nLastGood, time)
       == cores[id := Attempted(cores[id], addr, countFailure, nLastGood, time)]
    ensures cores[id := cores[id]] == cores
  {
  }

  lemma {:induction false} SeenKeeps(c: Core, n: Notice, penalty: int, now: int)
    ensures Seen(c, n, penalty, now).addr == c.addr
  {
  }

  lemma {:induction false} CreatedLater(s: State, core: Core)
    ensures Later(s, Created(s, core))
  {
  }

  /** The reference count is the number of slots. */
  lemma {:induction false} CountMeans(h: Hasher, s: State, id: nat)
    requires Inv(h, s) && id in s.cores && id in s.refs
    ensures s.refs[id] == |SlotsOf(s.newTable, id)| <= NEW_BUCKETS_PER_ADDRESS
  {
    hide IdsOk, RandomOk, CountOk, AddrOk, TriedOk, NewSlot;
  }

  /** Promoting to tried without a test leaves the pending collisions alone. */
  lemma {:induction false} GoodWithout(h: Hasher, t: Tables, collisions: set<nat>, id: nat, now: int)
    requires Sound(t) && id in t.cores
    ensures Good(h, t, collisions, id, t.cores[id].addr, false, now)
         == (Good(h, t, {}, id, t.cores[id].addr, false, now).0, collisions)
  {
    hide AddrManModel.MakeTried, TriedSlot;
  }

  /** After settling some of `all` and keeping `kept`, the tables are t and `todo` is left to do. */
  ghost predicate Pending(h: Hasher, t0: Tables, all: set<nat>, t: Tables, kept: set<nat>, todo: set<nat>,
          clock: Clock, valid: Addr -> bool) {
    Resolve(h, t0, all, clock, valid) == (Resolve(h, t, todo, clock, valid).0, kept + Resolve(h, t, todo, clock, valid).1)
  }

  lemma {:induction false} PendingStart(h: Hasher, t: Tables, all: set<nat>, clock: Clock, valid: Addr -> bool)
    ensures Pending(h, t, all, t, {}, all, clock, valid)
  {
    hide Resolve;
    assert {} + Resolve(h, t, all, clock, valid).1 == Resolve(h, t, all, clock, valid).1;
  }

  lemma {:induction false} PendingEnd(h: Hasher, t0: Tables, all: set<nat>, t: Tables, kept: set<nat>, clock: Clock,
          valid: Addr -> bool)
    requires Pending(h, t0, all, t, kept, {}, clock, valid)
    ensures Resolve(h, t0, all, clock, valid) == (t, kept)
  {
    assert kept + {} == kept;
  }

  lemma {:induction false} PendingStep(h: Hasher, t0: Tables, all: set<nat>, t: Tables, kept: set<nat>,
          todo: set<nat>, clock: Clock, valid: Addr -> bool,
                                       id: nat)
    requires Pending(h, t0, all, t, kept, todo, clock, valid) && Sound(t) && id in todo && forall x | x in todo :: id <= x
    ensures var one := ResolveOne(h, t, id, clock, valid);
      Pending(h, t0, all, one.0, if one.1 then kept else kept + {id}, todo - {id}, clock, valid)
  {
    hide ResolveOne;
    assert Least(todo) == id;
    var one := ResolveOne(h, t, id, clock, valid);
    var rest := Resolve(h, one.0, todo - {id}, clock, valid);
    assert Resolve(h, t, todo, clock, valid) == (rest.0, if one.1 then rest.1 else rest.1 + {id});
    assert kept + (rest.1 + {id}) == kept + {id} + rest.1;
  }

  lemma {:induction false} CollisionsFewer(h: Hasher, s: State, collisions: set<nat>, id: nat)
    requires CollisionsOk(h, s.cores, s.triedTable, collisions, s.nIdCount)
    ensures CollisionsOk(h, s.cores, s.triedTable, collisions - {id}, s.nIdCount)
  {
    hide TriedSlot;
  }

  /** How many addresses GetAddr_ may return. */
  function AddrLimit(n: nat, maxAddresses: nat, maxPct: nat): nat {
    var share := if maxPct != 0 then maxPct * n / 100 else n;
    if maxAddresses != 0 && maxAddresses < share then maxAddresses else share
  }

  /** The largest number within both limits. */
  lemma {:induction false} AddrLimitMeans(n: nat, maxAddresses: nat, maxPct: nat, r: nat)
    ensures r <= AddrLimit(n, maxAddresses, maxPct) <==>
      (maxAddresses != 0 ==> r <= maxAddresses) && if maxPct != 0 then 100 * r <= maxPct * n else r <= n
  {
    if maxPct != 0 {
      var p: nat := maxPct * n;
      assert r <= p / 100 <==> 100 * r <= p;
    }
  }

  /** The addresses of entries that are wanted and not terrible. */
  function GoodAddrs(cores: map<nat, Core>, ids: set<nat>, wanted: Addr -> bool, now: int): set<Addr> {
    set id | id in ids && id in cores && wanted(cores[id].addr) && !IsTerrible(cores[id], now) :: cores[id].addr
  }

  /** vAddr has the good addresses among the first n ids of v, each once. */
  ghost predicate Gathered(cores: map<nat, Core>, v: seq<nat>, n: nat, vAddr: seq<Addr>, wanted: Addr -> bool,
          now: int) {
    && n <= |v|
    && (forall i, j | 0 <= i < j < |vAddr| :: vAddr[i].ip != vAddr[j].ip)
    && Elements(vAddr) == GoodAddrs(cores, Elements(v[..n]), wanted, now)
  }

  lemma {:induction false} GatherStart(cores: map<nat, Core>, v: seq<nat>, wanted: Addr -> bool, now: int)
    ensures Gathered(cores, v, 0, [], wanted, now)
  {
  }

  lemma {:induction false} GatherSwap(s: State, i: nat, j: nat, vAddr: seq<Addr>, wanted: Addr -> bool, now: int)
    requires i <= j < |s.vRandom|
    ensures var t := Swapped(s, i, j);
      |t.vRandom| == |s.vRandom| && TablesOf(t) == TablesOf(s)
      && (Gathered(s.cores, s.vRandom, i, vAddr, wanted, now) ==> Gathered(s.cores, t.vRandom, i, vAddr, wanted, now))
  {
    hide GoodAddrs;
    assert Swapped(s, i, j).vRandom[..i] == s.vRandom[..i];
  }

  lemma {:induction false} GatherNext(h: Hasher, s: State, n: nat, vAddr: seq<Addr>, wanted: Addr -> bool, now: int)
    requires Inv(h, s) && n < |s.vRandom| && s.vRandom[n] in s.cores && Gathered(s.cores, s.vRandom, n, vAddr, wanted, now)
    ensures var c := s.cores[s.vRandom[n]];
      Gathered(s.cores, s.vRandom, n + 1, if wanted(c.addr) && !IsTerrible(c, now) then vAddr + [c.addr] else vAddr, wanted, now)
  {
    hide InvBut, GoodAddrs, IsTerrible;
    var id := s.vRandom[n];
    NotYet(h, s, n);
    OneMore(h, s, vAddr, Elements(s.vRandom[..n]), id, wanted, now);
    assert s.vRandom[..n + 1] == s.vRandom[..n] + [id];
    assert Elements(s.vRandom[..n + 1]) == Elements(s.vRandom[..n]) + {id};
  }

  lemma {:induction false} GatherEnd(h: Hasher, s: State, n: nat, vAddr: seq<Addr>, wanted: Addr -> bool, now: int)
    requires Inv(h, s) && Gathered(s.cores, s.vRandom, n, vAddr, wanted, now)
    ensures forall i, j | 0 <= i < j < |vAddr| :: vAddr[i].ip != vAddr[j].ip
    ensures Elements(vAddr) <= GoodAddrs(s.cores, s.cores.Keys, wanted, now)
    ensures n == |s.vRandom| ==> Elements(vAddr) == GoodAddrs(s.cores, s.cores.Keys, wanted, now)
  {
    hide InvBut, GoodAddrs;
    SomeSeen(s.cores, Elements(s.vRandom[..n]), wanted, now);
    if n == |s.vRandom| {
      assert s.vRandom[..n] == s.vRandom;
      AllListed(h, s, Elements(s.vRandom));
    }
  }

  lemma {:induction false} SomeSeen(cores: map<nat, Core>, ids: set<nat>, wanted: Addr -> bool, now: int)
    ensures GoodAddrs(cores, ids, wanted, now) <= GoodAddrs(cores, cores.Keys, wanted, now)
    ensures cores.Keys <= ids ==> GoodAddrs(cores, ids, wanted, now) == GoodAddrs(cores, cores.Keys, wanted, now)
  {
    hide IsTerrible;
  }

  lemma {:induction false} NotYet(h: Hasher, s: State, n: nat)
    requires Inv(h, s) && n < |s.vRandom|
    ensures s.vRandom[n] !in s.vRandom[..n]
  {
    hide IdsOk, NewOk, CountOk, AddrOk, TriedOk;
  }

  lemma {:induction false} AllListed(h: Hasher, s: State, ids: set<nat>)
    requires Inv(h, s) && forall i | 0 <= i < |s.vRandom| :: s.vRandom[i] in ids
    ensures s.cores.Keys <= ids
  {
    hide IdsOk, NewOk, CountOk, AddrOk, TriedOk;
    forall id | id in s.cores ensures id in ids {
      assert id in s.pos;
    }
  }

  lemma {:induction false} OneMore(h: Hasher, s: State, vAddr: seq<Addr>, ids: set<nat>, id: nat,
          wanted: Addr -> bool, now: int)
    requires Inv(h, s) && id in s.cores && id !in ids && Elements(vAddr) == GoodAddrs(s.cores, ids, wanted, now)
    ensures forall i | 0 <= i < |vAddr| :: vAddr[i].ip != s.cores[id].addr.ip
    ensures var a := s.cores[id].addr;
      GoodAddrs(s.cores, ids + {id}, wanted, now)
      == if wanted(a) && !IsTerrible(s.cores[id], now) then Elements(vAddr + [a]) else Elements(vAddr)
  {
    hide InvBut, IsTerrible;
    OneEntry(h, s, id);
    forall i | 0 <= i < |vAddr| ensures vAddr[i].ip != s.cores[id].addr.ip {
      assert vAddr[i] in Elements(vAddr);
    }
    var a := s.cores[id].addr;
    if wanted(a) && !IsTerrible(s.cores[id], now) {
      assert GoodAddrs(s.cores, ids + {id}, wanted, now) == GoodAddrs(s.cores, ids, wanted, now) + {a};
      assert Elements(vAddr + [a]) == Elements(vAddr) + {a};
    } else {
      assert GoodAddrs(s.cores, ids + {id}, wanted, now) == GoodAddrs(s.cores, ids, wanted, now);
    }
  }

  /** The loop that doubles the factor, and the draw. */
  method Roll(nRefCount: nat, random: nat -> nat) returns (lucky: bool)
    ensures lucky <==> Lucky(random, nRefCount)
  {
    var nFactor := 1;
    var n := 0;
    while n < nRefCount
      invariant 0 <= n <= nRefCount && nFactor == Pow(2, n)
    {
      nFactor := nFactor * 2;
      n := n + 1;
    }
    return !(nFactor > 1 && random(nFactor) % nFactor != 0);
  }

  lemma {:induction false} EmptyInv(h: Hasher)
    ensures Inv(h, State(map[], map[], {}, map[], map[], [], map[], map[], 0, 0, 0))
  {
    hide TriedSlot, NewSlot;
  }

  class AddrMan {
    const h: Hasher
    var nIdCount: nat
    var mapInfo: map<nat, Info>
    var mapAddr: map<nat, nat>
    var vRandom: seq<nat>
    var nTried: int
    const vvTried: array2<Cell>
    var nNew: int
    const vvNew: array2<Cell>
    var nLastGood: int
    var triedCollisions: set<nat>

    ghost predicate Shape() {
      && vvNew.Length0 == NEW_BUCKET_COUNT && vvNew.Length1 == BUCKET_SIZE
      && vvTried.Length0 == TRIED_BUCKET_COUNT && vvTried.Length1 == BUCKET_SIZE
      && vvNew != vvTried
    }

    ghost function S(): State
      reads this, vvNew, vvTried
    {
      State(Cores(mapInfo), Refs(mapInfo), TriedIds(mapInfo), Positions(mapInfo), mapAddr, vRandom,
            Occupied(vvNew), Occupied(vvTried), nIdCount, nNew, nTried)
    }

    /** A fresh manager. */
    constructor (h: Hasher)
      ensures Shape() && fresh(vvNew) && fresh(vvTried) && this.h == h && triedCollisions == {} && nLastGood == 1
      ensures S() == State(map[], map[], {}, map[], map[], [], map[], map[], 0, 0, 0) && Valid()
    {
      this.h := h;
      nIdCount, mapInfo, mapAddr, vRandom, nTried, nNew, nLastGood, triedCollisions := 0, map[], map[], [], 0, 0, 1, {};
      vvNew := new Cell[NEW_BUCKET_COUNT, BUCKET_SIZE]((i, j) => -1);
      vvTried := new Cell[TRIED_BUCKET_COUNT, BUCKET_SIZE]((i, j) => -1);
      new;
      hide InvBut, Occupied;
      EmptyInv(h);
      NothingOccupied(vvNew);
      NothingOccupied(vvTried);
    }

    method SwapRandom(i: nat, j: nat)
      requires i < |vRandom| && j < |vRandom| && RandomOk(S().pos, vRandom)
      modifies this`mapInfo, this`vRandom
      ensures S() == Swapped(old(S()), i, j) && RandomOk(S().pos, vRandom)
    {
      hide RandomOk, Occupied, Cores, Refs, TriedIds, Positions;
      if i == j { return; }
      RandomSwap(S().pos, vRandom, i, j);
      var id1, id2 := vRandom[i], vRandom[j];
      RandomInfo(mapInfo, vRandom, i);
      RandomInfo(mapInfo, vRandom, j);
      SameInfo(mapInfo, id1);
      PutInfo(mapInfo, id1, mapInfo[id1].(nRandomPos := j));
      mapInfo := mapInfo[id1 := mapInfo[id1].(nRandomPos := j)];
      SameInfo(mapInfo, id2);
      PutInfo(mapInfo, id2, mapInfo[id2].(nRandomPos := i));
      mapInfo := mapInfo[id2 := mapInfo[id2].(nRandomPos := i)];
      vRandom := vRandom[i := id2][j := id1];
    }

    method Delete(id: nat)
      requires RandomOk(S().pos, vRandom)
      requires id in mapInfo && !mapInfo[id].fInTried && mapInfo[id].nRefCount == 0
      modifies this`mapInfo, this`mapAddr, this`vRandom, this`nNew
      ensures id in old(S()).cores && id in old(S()).pos && 0 <= old(S()).pos[id] < old(|vRandom|)
      ensures old(vRandom[S().pos[id]]) == id
      ensures S() == Deleted(old(S()), id) && RandomOk(S().pos, vRandom)
    {
      hide RandomOk, Occupied, Cores, Refs, TriedIds, Positions, Swapped;
      var info := mapInfo[id];
      PlaceOf(mapInfo, vRandom, id);
      SameInfo(mapInfo, id);
      SwappedKeeps(S(), info.nRandomPos, |vRandom| - 1);
      SwapRandom(info.nRandomPos, |vRandom| - 1);
      EntryInfo(mapInfo, id);
      RandomPop(S().pos, vRandom);
      NotTried(mapInfo, id);
      vRandom := vRandom[..|vRandom| - 1];
      mapAddr := mapAddr - {info.core.addr.ip};
      EraseInfo(mapInfo, id);
      mapInfo := mapInfo - {id};
      nNew := nNew - 1;
    }

    /** Empty slot x of the new table; its holder goes if this was its last reference. */
    method ClearNew(x: Slot, ghost loose: set<nat>, ghost limbo: set<nat>)
      requires Shape() && x.bucket < NEW_BUCKET_COUNT && x.index < BUCKET_SIZE
      requires InvBut(h, S(), loose, limbo)
      requires x in S().newTable ==> S().newTable[x] !in loose && S().newTable[x] !in limbo
      modifies this`mapInfo, this`mapAddr, this`vRandom, this`nNew, vvNew
      ensures InvBut(h, S(), loose, limbo)
      ensures Cleared(old(S()), S(), x)
    {
      hide InvBut, Occupied, Cores, Refs, TriedIds, Positions;
      SlotAt(vvNew, x);
      if vvNew[x.bucket, x.index] != -1 {
        var id := vvNew[x.bucket, x.index];
        ghost var s := S();
        NewHolder(h, s, loose, limbo, x);
        EntryInfo(mapInfo, id);
        DroppedInv(h, s, loose, limbo, x, id);
        SameInfo(mapInfo, id);
        PutInfo(mapInfo, id, mapInfo[id].(nRefCount := mapInfo[id].nRefCount - 1));
        mapInfo := mapInfo[id := mapInfo[id].(nRefCount := mapInfo[id].nRefCount - 1)];
        SetSlot(vvNew, x, -1);
        assert S() == Dropped(s, x, id);
        RefsAreEntries(h, s, loose, limbo);
        DropForgets(s, x, id);
        if mapInfo[id].nRefCount == 0 {
          ghost var t := S();
          assert loose + {id} - {id} == loose;
          SameInfo(mapInfo, id);
          InvRandom(h, t, loose + {id}, limbo);
          RefsAreEntries(h, t, loose + {id}, limbo);
          Delete(id);
          DeletedInv(h, t, loose + {id}, limbo, id);
          DeleteForgets(t, id);
          ForgetsBoth(s, t, S(), id);
        }
      }
    }

    /** MakeTried's first half: all references of `id` are found and dropped. */
    method RemoveFromNew(id: nat)
      requires Shape() && Inv(h, S()) && id in mapInfo && !mapInfo[id].fInTried
      modifies this`mapInfo, vvNew
      ensures InvBut(h, S(), {id}, {})
      ensures S() == WithoutRefs(old(S()), id, SlotsOf(old(S().newTable), id), 0)
    {
      hide InvBut, Occupied, Cores, Refs, TriedIds, Positions, NewBucket, SlotsOf, Unseen, NewSlot;
      ghost var s := S();
      ghost var gone: set<Slot> := {};
      var addr := mapInfo[id].core.addr;
      var start := NewBucket(h, addr, mapInfo[id].core.source);
      SameInfo(mapInfo, id);
      NothingSeen(h, s, id, start);
      var n := 0;
      while n < NEW_BUCKET_COUNT
        invariant 0 <= n <= NEW_BUCKET_COUNT
        invariant id in mapInfo && mapInfo[id].core == s.cores[id] && !mapInfo[id].fInTried
        invariant InvBut(h, S(), {id}, {})
        invariant S() == WithoutRefs(s, id, gone, mapInfo[id].nRefCount)
        invariant gone <= SlotsOf(s.newTable, id)
        invariant Unseen(S().newTable, id, start, n)
      {
        var bucket := BucketAt(start, n);
        var x := NewSlot(h, addr, bucket);
        NewSlotRange(h, addr, bucket);
        SlotAt(vvNew, x);
        SameInfo(mapInfo, id);
        UnseenNext(h, S(), {id}, {}, id, start, n);
        if vvNew[x.bucket, x.index] == id {
          ghost var t := S();
          DroppedInv(h, t, {id}, {}, x, id);
          DropMore(s, id, gone, mapInfo[id].nRefCount, x);
          SlotsIn(s.newTable, t.newTable, x, id);
          PutInfo(mapInfo, id, mapInfo[id].(nRefCount := mapInfo[id].nRefCount - 1));
          SetSlot(vvNew, x, -1);
          mapInfo := mapInfo[id := mapInfo[id].(nRefCount := mapInfo[id].nRefCount - 1)];
          gone := gone + {x};
          assert S() == Dropped(t, x, id);
          assert {id} + {id} == {id};
          if mapInfo[id].nRefCount == 0 { break; }
        }
        n := n + 1;
      }
      SameInfo(mapInfo, id);
      AllSeen(h, S(), {id}, {}, id, start);
      AllGone(s.newTable, gone, id);
    }

    /** The holder of tried slot k, if any, is taken out of the tried set... */
    method Unmark(k: Slot, id: nat) returns (e: nat)
      requires Shape() && k.bucket < TRIED_BUCKET_COUNT && k.index < BUCKET_SIZE && vvTried[k.bucket, k.index] != -1
      requires id in mapInfo && !mapInfo[id].fInTried
      requires InvBut(h, S(), {id}, {id})
      modifies this`mapInfo, this`nTried, vvTried
      ensures k in old(S().triedTable) && e == old(S().triedTable[k]) && e in old(S().cores) && e != id
      ensures S() == TriedOut(old(S()), k, e) && InvBut(h, S(), {id} + {e}, {id} + {e})
      ensures e in mapInfo && !mapInfo[e].fInTried && mapInfo[e].nRefCount == 0
    {
      hide InvBut, Occupied, Cores, Refs, TriedIds, Positions;
      SlotAt(vvTried, k);
      e := vvTried[k.bucket, k.index];
      ghost var s := S();
      TriedHolder(h, s, {id}, {id}, k);
      EntryInfo(mapInfo, e);
      SameInfo(mapInfo, e);
      SameInfo(mapInfo, id);
      TriedOutInv(h, s, {id}, {id}, k, e);
      PutInfo(mapInfo, e, mapInfo[e].(fInTried := false));
      mapInfo := mapInfo[e := mapInfo[e].(fInTried := false)];
      SetSlot(vvTried, k, -1);
      nTried := nTried - 1;
    }

    /** Slot x of the new table is given to `id`. */
    method TakeSlot(x: Slot, id: nat)
      requires Shape() && x.bucket < NEW_BUCKET_COUNT && x.index < BUCKET_SIZE && id in mapInfo
      modifies this`mapInfo, vvNew
      ensures mapInfo == old(mapInfo)[id := old(mapInfo[id]).(nRefCount := old(mapInfo[id]).nRefCount + 1)]
      ensures id in old(S()).refs && S() == Taken(old(S()), x, id)
    {
      hide Occupied, Cores, Refs, TriedIds, Positions;
      SameInfo(mapInfo, id);
      PutInfo(mapInfo, id, mapInfo[id].(nRefCount := mapInfo[id].nRefCount + 1));
      mapInfo := mapInfo[id := mapInfo[id].(nRefCount := mapInfo[id].nRefCount + 1)];
      SetSlot(vvNew, x, id);
    }

    /** ...and goes back to its own new slot. */
    method Reenter(e: nat, id: nat)
      requires Shape() && e in mapInfo && !mapInfo[e].fInTried && mapInfo[e].nRefCount == 0 && e != id
      requires id in mapInfo && !mapInfo[id].fInTried && mapInfo[id].nRefCount == 0
      requires InvBut(h, S(), {id} + {e}, {id} + {e})
      modifies this`mapInfo, this`mapAddr, this`vRandom, this`nNew, vvNew
      ensures InvBut(h, S(), {id}, {id})
      ensures id in mapInfo && !mapInfo[id].fInTried && mapInfo[id].nRefCount == 0
      ensures SubCores(S().cores, old(S().cores)) && S().nIdCount == old(S().nIdCount) && S().triedTable == old(S().triedTable)
      ensures e in old(S().cores)
      ensures S().newTable == old(S().newTable)[DefaultNewSlot(h, old(S().cores)[e]) := e]
    {
      hide InvBut, Occupied, Cores, Refs, TriedIds, Positions, NewBucket, NewSlot, Cleared, SubCores, Forgets;
      ghost var t := S();
      SameInfo(mapInfo, e);
      SameInfo(mapInfo, id);
      var bucket := NewBucket(h, mapInfo[e].core.addr, mapInfo[e].core.source);
      var x := NewSlot(h, mapInfo[e].core.addr, bucket);
      NewSlotRange(h, mapInfo[e].core.addr, bucket);
      ghost var both := {id} + {e};
      NoReference(h, t, both, both, x, id);
      NoReference(h, t, both, both, x, e);
      ClearNew(x, both, both);
      ghost var u := S();
      ClearedKeeps(t, u, x, id);
      ClearedKeeps(t, u, x, e);
      ClearedOnly(t, u, x);
      SlotTaken(t, u, x, e);
      EntryInfo(mapInfo, e);
      EntryInfo(mapInfo, id);
      SameInfo(mapInfo, e);
      SameInfo(mapInfo, id);
      TakenInv(h, u, both, both, x, e);
      TakeSlot(x, e);
      assert mapInfo[e].nRefCount == 1;
      EntryInfo(mapInfo, id);
      SameInfo(mapInfo, id);
      CountAgain(h, u, S(), x, e, id);
      nNew := nNew + 1;
    }

    /** MakeTried's second half: the holder of tried slot k makes room. */
    method MakeRoom(k: Slot, id: nat)
      requires Shape() && k.bucket < TRIED_BUCKET_COUNT && k.index < BUCKET_SIZE && vvTried[k.bucket, k.index] != -1
      requires id in mapInfo && !mapInfo[id].fInTried && mapInfo[id].nRefCount == 0
      requires InvBut(h, S(), {id}, {id})
      modifies this`mapInfo, this`mapAddr, this`vRandom, this`nNew, this`nTried, vvNew, vvTried
      ensures InvBut(h, S(), {id}, {id})
      ensures id in mapInfo && !mapInfo[id].fInTried && mapInfo[id].nRefCount == 0
      ensures SubCores(S().cores, old(S().cores)) && S().nIdCount == old(S().nIdCount)
      ensures k in old(S().triedTable) && old(S().triedTable[k]) in old(S().cores)
      ensures S().triedTable == old(S().triedTable) - {k}
      ensures S().newTable
         == old(S().newTable)[DefaultNewSlot(h, old(S().cores)[old(S().triedTable)[k]]) := old(S().triedTable)[k]]
    {
      hide InvBut, Occupied, Cores, Refs, TriedIds, Positions, DefaultNewSlot, SubCores;
      SameInfo(mapInfo, id);
      var e := Unmark(k, id);
      SameInfo(mapInfo, e);
      EntryInfo(mapInfo, id);
      SameInfo(mapInfo, id);
      Reenter(e, id);
    }

    /** MakeTried's end: the entry takes its empty tried slot. */
    method EnterTried(k: Slot, id: nat)
      requires Shape() && id in mapInfo && !mapInfo[id].fInTried && mapInfo[id].nRefCount == 0
      requires k == TriedSlot(h, mapInfo[id].core.addr) && k !in S().triedTable && InvBut(h, S(), {id}, {id})
      modifies this`mapInfo, this`nTried, vvTried
      ensures Inv(h, S()) && S() == TriedIn(old(S()), k, id)
    {
      hide InvBut, Occupied, Cores, Refs, TriedIds, Positions, TriedSlot;
      TriedSlotRange(h, mapInfo[id].core.addr);
      SlotAt(vvTried, k);
      assert vvTried[k.bucket, k.index] == -1;
      EntryInfo(mapInfo, id);
      SameInfo(mapInfo, id);
      TriedInInv(h, S(), {id}, k, id);
      assert {id} - {id} == {};
      SetSlot(vvTried, k, id);
      nTried := nTried + 1;
      PutInfo(mapInfo, id, mapInfo[id].(fInTried := true));
      mapInfo := mapInfo[id := mapInfo[id].(fInTried := true)];
    }

    method MakeTried(id: nat)
      requires Shape() && Inv(h, S()) && id in mapInfo && !mapInfo[id].fInTried
      modifies this`mapInfo, this`mapAddr, this`vRandom, this`nNew, this`nTried, vvNew, vvTried
      ensures Inv(h, S()) && Later(old(S()), S())
      ensures Sound(TablesOf(old(S()))) && id in old(S()).cores
      ensures TablesOf(S()) == AddrManModel.MakeTried(h, TablesOf(old(S())), id)
    {
      hide InvBut, Occupied, Cores, Refs, TriedIds, Positions, DefaultNewSlot, TriedSlot, SubCores, Later,
           AddrManModel.MakeTried, SlotsOf, Sound;
      ghost var s := S();
      SameInfo(mapInfo, id);
      RemoveFromNew(id);
      EntryInfo(mapInfo, id);
      SameInfo(mapInfo, id);
      LimboInv(h, S(), {id}, {}, id);
      assert {} + {id} == {id};
      nNew := nNew - 1;
      var k := TriedSlot(h, mapInfo[id].core.addr);
      TriedSlotRange(h, mapInfo[id].core.addr);
      SlotAt(vvTried, k);
      SubCoresSelf(s.cores);
      if vvTried[k.bucket, k.index] != -1 {
        MakeRoom(k, id);
        SameInfo(mapInfo, id);
        SubCoresAt(S().cores, s.cores, id);
      }
      EnterTried(k, id);
      MadeTried(h, s, S(), id);
    }

    method Find(addr: Addr) returns (r: Option<nat>)
      requires Inv(h, S())
      ensures match r
        case Some(id) => id in mapInfo && mapInfo[id].core.addr.ip == addr.ip
        case None => forall id | id in mapInfo :: mapInfo[id].core.addr.ip != addr.ip
    {
      hide InvBut, Occupied, Refs, TriedIds, Positions;
      FindOk(h, S(), mapInfo);
      if addr.ip !in mapAddr { return None; }
      var id := mapAddr[addr.ip];
      return if id in mapInfo then Some(id) else None;
    }

    /** The statistics of an entry are replaced. */
    method Update(id: nat, core: Core)
      requires Inv(h, S()) && id in mapInfo && core.addr == mapInfo[id].core.addr
      modifies this`mapInfo
      ensures S() == CoreSet(old(S()), id, core) && Inv(h, S()) && Later(old(S()), S())
      ensures id in mapInfo && mapInfo[id] == old(mapInfo[id]).(core := core)
    {
      hide InvBut, Occupied, Cores, Refs, TriedIds, Positions;
      SameInfo(mapInfo, id);
      CoreSetInv(h, S(), id, core);
      CoreSetLater(S(), id, core);
      PutInfo(mapInfo, id, mapInfo[id].(core := core));
      mapInfo := mapInfo[id := mapInfo[id].(core := core)];
    }

    ghost predicate Valid()
      reads this, vvNew, vvTried
    {
      Shape() && Inv(h, S()) && CollisionsOk(h, S().cores, S().triedTable, triedCollisions, nIdCount)
    }

    method GoodEntry(id: nat, addr: Addr, testBeforeEvict: bool, time: int)
      requires Shape() && Inv(h, S()) && id in mapInfo
      requires CollisionsOk(h, S().cores, S().triedTable, triedCollisions, nIdCount)
      modifies this, vvNew, vvTried
      ensures Inv(h, S()) && Later(old(S()), S())
      ensures CollisionsOk(h, S().cores, S().triedTable, triedCollisions, nIdCount)
      ensures Sound(TablesOf(old(S()))) && id in old(S()).cores
      ensures (TablesOf(S()), triedCollisions)
           == Good(h, TablesOf(old(S())), old(triedCollisions), id, addr, testBeforeEvict, time)
      ensures nLastGood == old(nLastGood)
    {
      hide InvBut, Occupied, Cores, Refs, TriedIds, Positions, TriedSlot, Later, AddrManModel.MakeTried,
           CollisionsOk, Sound;
      ghost var s := S();
      InvSound(h, s);
      SameInfo(mapInfo, id);
      LaterSelf(s);
      var info := mapInfo[id];
      if info.core.addr != addr { return; }
      Update(id, Succeeded(info.core, time));
      ghost var t := S();
      CollisionsLater(h, s, t, triedCollisions);
      TriedMeans(h, s, id);
      if info.fInTried { return; }
      if info.nRefCount <= 0 { return; }
      var k := TriedSlot(h, addr);
      TriedSlotRange(h, addr);
      SlotAt(vvTried, k);
      if testBeforeEvict && vvTried[k.bucket, k.index] != -1 {
        if |triedCollisions| < SET_TRIED_COLLISION_SIZE {
          CollisionsWith(h, t, triedCollisions, id);
          triedCollisions := triedCollisions + {id};
        }
      } else {
        MakeTried(id);
        LaterStill(s, t, S());
        CollisionsLater(h, t, S(), triedCollisions);
      }
    }

    /** Good_: a connection to `addr` succeeded. */
    method Good_(addr: Addr, testBeforeEvict: bool, time: int)
      requires Valid()
      modifies this, vvNew, vvTried
      ensures Valid() && Later(old(S()), S()) && nLastGood == time
      ensures (forall id | id in old(S()).cores :: old(S()).cores[id].addr.ip != addr.ip)
          ==> S() == old(S()) && triedCollisions == old(triedCollisions)
      ensures forall id | id in old(S()).cores && old(S()).cores[id].addr.ip == addr.ip ::
          && Sound(TablesOf(old(S())))
          && (TablesOf(S()), triedCollisions)
             == Good(h, TablesOf(old(S())), old(triedCollisions), id, addr, testBeforeEvict, time)
    {
      hide InvBut, Occupied, Refs, TriedIds, Positions, Later, Good, CollisionsOk, Sound;
      ghost var s := S();
      LaterSelf(s);
      nLastGood := time;
      var found := Find(addr);
      match found {
        case None =>
        case Some(id) =>
          OneEntry(h, s, id);
          GoodEntry(id, addr, testBeforeEvict, time);
      }
    }

    method Attempt_(addr: Addr, countFailure: bool, time: int)
      requires Valid()
      modifies this`mapInfo
      ensures Valid() && Later(old(S()), S())
      ensures S() == old(S()).(cores := AttemptAll(old(S()).cores, addr, countFailure, nLastGood, time))
    {
      hide InvBut, Occupied, Cores, Refs, TriedIds, Positions, Later, CollisionsOk, AttemptAll;
      ghost var s := S();
      LaterSelf(s);
      var found := Find(addr);
      InfoAddrs(mapInfo);
      AttemptNone(s.cores, addr, countFailure, nLastGood, time);
      match found {
        case None =>
        case Some(id) =>
          SameInfo(mapInfo, id);
          OneEntry(h, s, id);
          AttemptOne(s.cores, id, addr, countFailure, nLastGood, time);
          var c := mapInfo[id].core;
          if c.addr == addr {
            if countFailure && c.nLastCountAttempt < nLastGood {
              Update(id, c.(nLastTry := time, nLastCountAttempt := time, nAttempts := c.nAttempts + 1));
            } else {
              Update(id, c.(nLastTry := time));
            }
            CollisionsLater(h, s, S(), triedCollisions);
          }
      }
    }

    method Create(core: Core) returns (id: nat)
      requires Inv(h, S()) && core.addr.ip !in mapAddr
      modifies this`mapInfo, this`mapAddr, this`vRandom, this`nIdCount, this`nNew
      ensures id == old(nIdCount) && S() == Created(old(S()), core) && InvBut(h, S(), {id}, {})
      ensures id in mapInfo && mapInfo[id].core == core && !mapInfo[id].fInTried && mapInfo[id].nRefCount == 0
    {
      hide InvBut, Occupied, Cores, Refs, TriedIds, Positions;
      CreatedInv(h, S(), {}, core);
      assert {} + {nIdCount} == {nIdCount};
      UnusedId(h, S());
      id := nIdCount;
      nIdCount := nIdCount + 1;
      PutInfo(mapInfo, id, Info(core, 0, false, |vRandom|));
      mapInfo := mapInfo[id := Info(core, 0, false, |vRandom|)];
      mapAddr := mapAddr[core.addr.ip := id];
      vRandom := vRandom + [id];
      nNew := nNew + 1;
    }

    /** The end of Add_: refer to `id` from the bucket its source selects, if there is room. */
    method ReferEntry(id: nat, source: nat, now: int, ghost loose: set<nat>)
      requires Shape() && id in mapInfo && !mapInfo[id].fInTried && mapInfo[id].nRefCount < NEW_BUCKETS_PER_ADDRESS
      requires loose == {} || (loose == {id} && mapInfo[id].nRefCount == 0)
      requires InvBut(h, S(), loose, {})
      modifies this`mapInfo, this`mapAddr, this`vRandom, this`nNew, vvNew
      ensures Inv(h, S()) && Later(old(S()), S())
      ensures Sound(TablesOf(old(S()))) && id in old(S()).cores
      ensures TablesOf(S()) == Refer(h, TablesOf(old(S())), id, source, now)
    {
      hide InvBut, Occupied, Cores, Refs, TriedIds, Positions, NewBucket, NewSlot, Cleared, SubCores, Forgets, Refer,
           Replaceable, Later, Sound, IsTerrible;
      ghost var s := S();
      SoundBut(h, s, loose);
      SubCoresSelf(s.cores);
      SameInfo(mapInfo, id);
      var addr := mapInfo[id].core.addr;
      var bucket := NewBucket(h, addr, source);
      var x := NewSlot(h, addr, bucket);
      NewSlotRange(h, addr, bucket);
      SlotAt(vvNew, x);
      var other := vvNew[x.bucket, x.index];
      ReplaceMeans(h, s, loose, x, id, now);
      if other == id {
        Referred(h, s, S(), id, source, now);
        return;
      }
      var insert := other == -1;
      if !insert {
        EntryInfo(mapInfo, other);
        SameInfo(mapInfo, other);
        var existing := mapInfo[other];
        if IsTerrible(existing.core, now) || (existing.nRefCount > 1 && mapInfo[id].nRefCount == 0) {
          insert := true;
        }
      }
      if insert {
        ClearNew(x, loose, {});
        ghost var u := S();
        ClearedKeeps(s, u, x, id);
        ClearedOnly(s, u, x);
        SlotTaken(s, u, x, id);
        EntryInfo(mapInfo, id);
        SameInfo(mapInfo, id);
        TakenInv(h, u, loose, {}, x, id);
        assert loose - {id} == {};
        TakeSlot(x, id);
        Referred(h, s, S(), id, source, now);
      } else {
        if mapInfo[id].nRefCount == 0 {
          InvRandom(h, s, loose, {});
          Delete(id);
          DeletedInv(h, s, loose, {}, id);
          DeleteForgets(s, id);
          assert loose - {id} == {};
          ForgetsSub(s, S(), id);
        }
        Referred(h, s, S(), id, source, now);
      }
    }

    /** Add_ for an address that is known as `id`. */
    method AddToKnown(id: nat, n: Notice, source: nat, penalty: int, clock: nat -> int, random: nat -> nat)
      requires Valid() && id in mapInfo
      modifies this`mapInfo, this`mapAddr, this`vRandom, this`nNew, vvNew
      ensures Valid() && Later(old(S()), S())
      ensures Sound(TablesOf(old(S()))) && id in old(S()).cores
      ensures TablesOf(S()) == AddKnown(h, TablesOf(old(S())), id, n, source, penalty, clock, random)
    {
      hide InvBut, Occupied, Cores, Refs, TriedIds, Positions, Later, CollisionsOk, Refer, Seen, Sound, Pow;
      ghost var s := S();
      InvSound(h, s);
      SameInfo(mapInfo, id);
      TriedMeans(h, s, id);
      CountMeans(h, s, id);
      var c := Seen(mapInfo[id].core, n, penalty, clock(0));
      SeenKeeps(mapInfo[id].core, n, penalty, clock(0));
      Update(id, c);
      ghost var t := S();
      CollisionsLater(h, s, t, triedCollisions);
      if n.nTime == 0 || (c.nTime != 0 && n.nTime <= c.nTime) { return; }
      var info := mapInfo[id];
      if info.fInTried { return; }
      if info.nRefCount == NEW_BUCKETS_PER_ADDRESS { return; }
      var lucky := Roll(info.nRefCount, random);
      if !lucky { return; }
      ReferEntry(id, source, clock(1), {});
      LaterStill(s, t, S());
      CollisionsLater(h, t, S(), triedCollisions);
    }

    /** Add_ for an address that is not known. */
    method AddToUnknown(addr: Addr, n: Notice, source: nat, penalty: int, now: int)
      requires Valid() && forall id | id in mapInfo :: mapInfo[id].core.addr.ip != addr.ip
      modifies this`mapInfo, this`mapAddr, this`vRandom, this`nIdCount, this`nNew, vvNew
      ensures Valid() && Later(old(S()), S()) && nIdCount == old(nIdCount) + 1
      ensures Sound(TablesOf(old(S())))
      ensures TablesOf(S()) == AddUnknown(h, TablesOf(old(S())), old(nIdCount), addr, n, source, penalty, now)
    {
      hide InvBut, Occupied, Cores, Refs, TriedIds, Positions, Later, CollisionsOk, Refer, Sound;
      ghost var s := S();
      InvSound(h, s);
      FindOk(h, s, mapInfo);
      var core := Fresh(addr, n, source, penalty);
      CreatedLater(s, core);
      var id := Create(core);
      ghost var t := S();
      CollisionsLater(h, s, t, triedCollisions);
      ReferEntry(id, source, now, {id});
      LaterStill(s, t, S());
      CollisionsLater(h, t, S(), triedCollisions);
    }

    /** Add_: `addr` was announced by `source`; true if it was not known. */
    method Add_(addr: Addr, routable: bool, n: Notice, source: nat, nTimePenalty: int, clock: nat -> int,
            random: nat -> nat)
      returns (fNew: bool)
      requires Valid()
      modifies this`mapInfo, this`mapAddr, this`vRandom, this`nIdCount, this`nNew, vvNew
      ensures Valid() && Later(old(S()), S()) && Sound(TablesOf(old(S())))
      ensures !routable ==> !fNew && S() == old(S())
      ensures routable ==> (fNew <==> forall id | id in old(S()).cores :: old(S()).cores[id].addr.ip != addr.ip)
      ensures var penalty := if addr.ip == source then 0 else nTimePenalty;
        && (routable && fNew ==>
              TablesOf(S()) == AddUnknown(h, TablesOf(old(S())), old(nIdCount), addr, n, source, penalty, clock(1)))
        && (routable ==> forall id | id in old(S()).cores && old(S()).cores[id].addr.ip == addr.ip ::
              TablesOf(S()) == AddKnown(h, TablesOf(old(S())), id, n, source, penalty, clock, random))
    {
      hide InvBut, Occupied, Cores, Refs, TriedIds, Positions, Later, CollisionsOk, AddKnown, AddUnknown, Sound;
      ghost var s := S();
      LaterSelf(s);
      InvSound(h, s);
      if !routable { return false; }
      InfoAddrs(mapInfo);
      var found := Find(addr);
      var p := if addr.ip == source then 0 else nTimePenalty;
      match found {
        case Some(id) =>
          SameInfo(mapInfo, id);
          OneEntry(h, s, id);
          AddToKnown(id, n, source, p, clock, random);
          return false;
        case None =>
          AddToUnknown(addr, n, source, p, clock(1));
          return true;
      }
    }

    /** ResolveCollisions_ for one pending id. */
    method ResolveEntry(id: nat, clock: Clock, valid: Addr -> bool) returns (erase: bool)
      requires Valid()
      modifies this, vvNew, vvTried
      ensures Valid() && Later(old(S()), S()) && triedCollisions == old(triedCollisions)
      ensures Sound(TablesOf(old(S()))) && nLastGood ==
        if id in old(S()).cores && Promotes(h, TablesOf(old(S())), id, clock, valid) then clock(id, 3) else old(nLastGood)
      ensures Sound(TablesOf(old(S()))) && (TablesOf(S()), erase) == ResolveOne(h, TablesOf(old(S())), id, clock, valid)
      ensures clock(id, 0) == clock(id, 1) == clock(id, 2) == clock(id, 3) ==>
        Settles(h, TablesOf(old(S())), TablesOf(S()), id, clock(id, 0), valid, erase)
    {
      hide InvBut, Occupied, Cores, Refs, TriedIds, Positions, Later, CollisionsOk, Good, TriedSlot, Sound, Settles;
      ghost var s := S();
      LaterSelf(s);
      InvSound(h, s);
      if clock(id, 0) == clock(id, 1) == clock(id, 2) == clock(id, 3) {
        ResolveMeans(h, TablesOf(s), id, clock, valid, clock(id, 0));
      }
      EntryInfo(mapInfo, id);
      if id !in mapInfo { return true; }
      SameInfo(mapInfo, id);
      var info := mapInfo[id];
      GoodWithout(h, TablesOf(s), triedCollisions, id, clock(id, 3));
      var k := TriedSlot(h, info.core.addr);
      TriedSlotRange(h, info.core.addr);
      SlotAt(vvTried, k);
      if !valid(info.core.addr) { return true; }
      if vvTried[k.bucket, k.index] != -1 {
        var holder := vvTried[k.bucket, k.index];
        TriedHolder(h, s, {}, {}, k);
        EntryInfo(mapInfo, holder);
        SameInfo(mapInfo, holder);
        var c := mapInfo[holder].core;
        if clock(id, 0) - c.nLastSuccess < REPLACEMENT_SECONDS { return true; }
        if clock(id, 1) - c.nLastTry < REPLACEMENT_SECONDS {
          if clock(id, 2) - c.nLastTry <= 60 { return false; }
        } else if clock(id, 2) - info.core.nLastSuccess <= TEST_WINDOW {
          return false;
        }
      }
      nLastGood := clock(id, 3);
      GoodEntry(id, info.core.addr, false, clock(id, 3));
      return true;
    }

    /** One turn of ResolveCollisions_. */
    method SettleEntry(id: nat, clock: Clock, valid: Addr -> bool) returns (erase: bool)
      requires Valid()
      modifies this, vvNew, vvTried
      ensures Valid() && Later(old(S()), S())
      ensures Sound(TablesOf(old(S()))) && (TablesOf(S()), erase) == ResolveOne(h, TablesOf(old(S())), id, clock, valid)
      ensures clock(id, 0) == clock(id, 1) == clock(id, 2) == clock(id, 3) ==>
        Settles(h, TablesOf(old(S())), TablesOf(S()), id, clock(id, 0), valid, erase)
      ensures triedCollisions == if erase then old(triedCollisions) - {id} else old(triedCollisions)
    {
      hide InvBut, Occupied, Cores, Refs, TriedIds, Positions, Later, CollisionsOk, ResolveOne, Sound, Settles;
      erase := ResolveEntry(id, clock, valid);
      if erase {
        CollisionsFewer(h, S(), triedCollisions, id);
        triedCollisions := triedCollisions - {id};
      }
    }

    /** ResolveCollisions_: all pending ids in ascending order. */
    method ResolveCollisions_(clock: Clock, valid: Addr -> bool)
      requires Valid()
      modifies this, vvNew, vvTried
      ensures Valid() && Later(old(S()), S())
      ensures (TablesOf(S()), triedCollisions) == Resolve(h, TablesOf(old(S())), old(triedCollisions), clock, valid)
    {
      hide InvBut, Occupied, Cores, Refs, TriedIds, Positions, Later, CollisionsOk, ResolveOne, Sound, Resolve,
           Least, Pending;
      ghost var s := S();
      LaterSelf(s);
      PendingStart(h, TablesOf(s), triedCollisions, clock, valid);
      var todo, kept := triedCollisions, {};
      while todo != {}
        invariant Valid() && Later(s, S())
        invariant triedCollisions == kept + todo && kept !! todo
        invariant Pending(h, TablesOf(s), old(triedCollisions), TablesOf(S()), kept, todo, clock, valid)
        decreases |todo|
      {
        ghost var least := Least(todo);
        var id :| id in todo && forall x | x in todo :: id <= x;
        ghost var u := S();
        var erase := SettleEntry(id, clock, valid);
        LaterStill(s, u, S());
        PendingStep(h, TablesOf(s), old(triedCollisions), TablesOf(u), kept, todo, clock, valid, id);
        if !erase { kept := kept + {id}; }
        todo := todo - {id};
      }
      PendingEnd(h, TablesOf(s), old(triedCollisions), TablesOf(S()), kept, clock, valid);
    }

    /** SelectTriedCollision_: the tried entry that a pending id, picked at random, collides with. */
    method SelectTriedCollision_(picked: nat) returns (r: Option<Core>)
      requires Valid() && (triedCollisions != {} ==> picked in triedCollisions)
      modifies this`triedCollisions
      ensures Valid() && S() == old(S())
      ensures r.None? <==> old(triedCollisions) == {} || picked !in S().cores
      ensures triedCollisions == if picked in S().cores then old(triedCollisions) else old(triedCollisions) - {picked}
      ensures r.Some? ==>
        && picked in S().cores && TriedSlot(h, S().cores[picked].addr) in S().triedTable
        && var holder := S().triedTable[TriedSlot(h, S().cores[picked].addr)];
           holder in S().cores && r.value == S().cores[holder]
    {
      hide InvBut, Occupied, Cores, Refs, TriedIds, Positions, TriedSlot;
      EntryInfo(mapInfo, picked);
      if |triedCollisions| == 0 { return None; }
      if picked !in mapInfo {
        triedCollisions := triedCollisions - {picked};
        return None;
      }
      SameInfo(mapInfo, picked);
      var k := TriedSlot(h, mapInfo[picked].core.addr);
      TriedSlotRange(h, mapInfo[picked].core.addr);
      SlotAt(vvTried, k);
      var holder := vvTried[k.bucket, k.index];
      assert holder != -1;
      TriedHolder(h, S(), {}, {}, k);
      EntryInfo(mapInfo, holder);
      SameInfo(mapInfo, holder);
      return Some(mapInfo[holder].core);
    }

    /** GetAddr_: up to the given number of addresses in random order, leaving out the bad ones. */
    method GetAddr_(maxAddresses: nat, maxPct: nat, wanted: Addr -> bool, now: int,
            random: nat -> nat) returns (vAddr: seq<Addr>)
      requires Valid()
      modifies this`mapInfo, this`vRandom
      ensures Valid() && TablesOf(S()) == TablesOf(old(S()))
      ensures |vAddr| <= AddrLimit(|vRandom|, maxAddresses, maxPct)
      ensures forall i, j | 0 <= i < j < |vAddr| :: vAddr[i].ip != vAddr[j].ip
      ensures Elements(vAddr) <= GoodAddrs(S().cores, S().cores.Keys, wanted, now)
      ensures |vAddr| < AddrLimit(|vRandom|, maxAddresses, maxPct) ==>
        Elements(vAddr) == GoodAddrs(S().cores, S().cores.Keys, wanted, now)
    {
      hide InvBut, Occupied, Cores, Refs, TriedIds, Positions, IsTerrible, CollisionsOk, Elements, GoodAddrs,
           Gathered, Swapped;
      var nNodes := AddrLimit(|vRandom|, maxAddresses, maxPct);
      ghost var s := S();
      vAddr := [];
      GatherStart(s.cores, vRandom, wanted, now);
      var n := 0;
      while n < |vRandom|
        invariant 0 <= n <= |vRandom| == |s.vRandom| && |vAddr| <= nNodes
        invariant Inv(h, S()) && TablesOf(S()) == TablesOf(s)
        invariant Gathered(s.cores, vRandom, n, vAddr, wanted, now)
      {
        if |vAddr| >= nNodes { break; }
        var r := random(n) % (|vRandom| - n) + n;
        SwappedInv(h, S(), {}, {}, n, r);
        InvRandom(h, S(), {}, {});
        GatherSwap(S(), n, r, vAddr, wanted, now);
        SwapRandom(n, r);
        var id := vRandom[n];
        RandomInfo(mapInfo, vRandom, n);
        SameInfo(mapInfo, id);
        var core := mapInfo[id].core;
        GatherNext(h, S(), n, vAddr, wanted, now);
        n := n + 1;
        if !wanted(core.addr) || IsTerrible(core, now) { continue; }
        vAddr := vAddr + [core.addr];
      }
      GatherEnd(h, S(), n, vAddr, wanted, now);
    }
  }
}
