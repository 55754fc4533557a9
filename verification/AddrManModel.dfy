/** The address manager of src/addrman.h as values.

    `Tables` is what the manager means: entries with their addresses and statistics, and the
    slots of the "new" and "tried" tables that refer to them.  The operations are given on
    `Tables` with plain garbage collection: an entry no slot refers to disappears.  `State` adds
    the redundant structures the source maintains by hand (reference counts, tried flags,
    the random-order vector, the address index, the counters), and `Inv` ties them together. */
module AddrManModel {
  import opened Powers

  const NEW_BUCKET_COUNT := 1024
  const TRIED_BUCKET_COUNT := 256
  const BUCKET_SIZE := 64
  const NEW_BUCKETS_PER_ADDRESS := 8
  const SET_TRIED_COLLISION_SIZE := 10

  /** CService: a network address and a port.  The address index uses the network address only. */
  datatype Addr = Addr(ip: nat, port: nat)

  /** The keyed hashes behind the bucket choice, for one nKey and one asmap. */
  datatype Hasher = Hasher(tried: Addr -> nat, source: (nat, nat) -> nat, position: (bool, nat, Addr) -> nat)

  datatype Slot = Slot(bucket: nat, index: nat)

  function TriedSlot(h: Hasher, a: Addr): Slot {
    var b := h.tried(a) % TRIED_BUCKET_COUNT;
    Slot(b, h.position(false, b, a) % BUCKET_SIZE)
  }

  function NewBucket(h: Hasher, a: Addr, source: nat): (b: nat)
    ensures b < NEW_BUCKET_COUNT
  {
    h.source(a.ip, source) % NEW_BUCKET_COUNT
  }

  function NewSlot(h: Hasher, a: Addr, bucket: nat): Slot {
    Slot(bucket, h.position(true, bucket, a) % BUCKET_SIZE)
  }

  /** The lasting part of CAddrInfo; the services are the bits that are set. */
  datatype Core = Core(addr: Addr, nServices: set<nat>, source: nat, nTime: int, nLastTry: int, nLastCountAttempt: int,
                       nLastSuccess: int, nAttempts: int)

  predicate IsTerrible(c: Core, now: int) {
    if c.nLastTry != 0 && c.nLastTry >= now - 60 then false
    else if c.nTime > now + 10 * 60 then true
    else if c.nTime == 0 || now - c.nTime > 30 * 24 * 60 * 60 then true
    else if c.nLastSuccess == 0 && c.nAttempts >= 3 then true
    else now - c.nLastSuccess > 7 * 24 * 60 * 60 && c.nAttempts >= 10
  }

  // ---------- What the operations mean ----------

  datatype Tables = Tables(cores: map<nat, Core>, newTable: map<Slot, nat>, triedTable: map<Slot, nat>)

  function SlotsOf(t: map<Slot, nat>, id: nat): set<Slot> {
    set s | s in t && t[s] == id
  }

  function Referenced(t: Tables): set<nat> {
    t.newTable.Values + t.triedTable.Values
  }

  /** Forget the entries that no slot refers to. */
  function Collect(t: Tables): Tables {
    t.(cores := map id | id in t.cores && id in Referenced(t) :: t.cores[id])
  }

  function DefaultNewSlot(h: Hasher, c: Core): Slot {
    NewSlot(h, c.addr, NewBucket(h, c.addr, c.source))
  }

  /** Move `id` to its tried slot; whoever held that slot goes back to its own new slot, over
      whatever is there. */
  function MakeTried(h: Hasher, t: Tables, id: nat): Tables
    requires id in t.cores && t.triedTable.Values <= t.cores.Keys
  {
    var k := TriedSlot(h, t.cores[id].addr);
    var without := t.newTable - SlotsOf(t.newTable, id);
    var newTable := if k in t.triedTable then
        assert t.triedTable[k] in t.triedTable.Values;
        without[DefaultNewSlot(h, t.cores[t.triedTable[k]]) := t.triedTable[k]]
      else without;
    Collect(Tables(t.cores, newTable, t.triedTable[k := id]))
  }

  function Succeeded(c: Core, time: int): Core {
    c.(nLastSuccess := time, nLastTry := time, nAttempts := 0)
  }

  /** Good_ for a known network address: the tables and the pending collisions afterwards. */
  function Good(h: Hasher, t: Tables, collisions: set<nat>, id: nat, addr: Addr, testBeforeEvict: bool, time: int)
    : (Tables, set<nat>)
    requires id in t.cores && t.triedTable.Values <= t.cores.Keys
  {
    var c := t.cores[id];
    if c.addr != addr then (t, collisions)
    else
      var t1 := t.(cores := t.cores[id := Succeeded(c, time)]);
      if id in t.triedTable.Values then (t1, collisions)
      else if testBeforeEvict && TriedSlot(h, addr) in t.triedTable then
        (t1, if |collisions| < SET_TRIED_COLLISION_SIZE then collisions + {id} else collisions)
      else (MakeTried(h, t1, id), collisions)
  }

  /** The statistics after an attempt to connect to `addr`; failures count once per success elsewhere. */
  function Attempted(c: Core, addr: Addr, countFailure: bool, nLastGood: int, time: int): Core {
    if c.addr != addr then c
    else if countFailure && c.nLastCountAttempt < nLastGood
    then c.(nLastTry := time, nLastCountAttempt := time, nAttempts := c.nAttempts + 1)
    else c.(nLastTry := time)
  }

  function AttemptAll(cores: map<nat, Core>, addr: Addr, countFailure: bool, nLastGood: int,
          time: int): map<nat, Core> {
    map id | id in cores :: Attempted(cores[id], addr, countFailure, nLastGood, time)
  }

  /** What is announced about an address. */
  datatype Notice = Notice(nTime: nat, nServices: set<nat>)

  /** A known entry with its time refreshed and the services added. */
  function Seen(c: Core, n: Notice, penalty: int, now: int): Core {
    var interval := if now - n.nTime < 24 * 60 * 60 then 60 * 60 else 24 * 60 * 60;
    c.(nServices := c.nServices + n.nServices,
       nTime := if n.nTime != 0 && (c.nTime == 0 || c.nTime < n.nTime - interval - penalty)
         then if n.nTime > penalty then n.nTime - penalty else 0
         else c.nTime)
  }

  /** The dice roll, a draw below 2^refs: each reference makes the next one half as likely. */
  predicate Lucky(random: nat -> nat, refs: nat) {
    random(Pow(2, refs)) % Pow(2, refs) == 0
  }

  /** Give `id` a reference in the bucket that `source` selects, unless the slot is taken by an
      entry worth keeping. */
  function Refer(h: Hasher, t: Tables, id: nat, source: nat, now: int): Tables
    requires id in t.cores && t.newTable.Values <= t.cores.Keys
  {
    var a := t.cores[id].addr;
    var s := NewSlot(h, a, NewBucket(h, a, source));
    if s in t.newTable && !Replaceable(t, s, id, now) then Collect(t)
    else Collect(t.(newTable := t.newTable[s := id]))
  }

  predicate Replaceable(t: Tables, s: Slot, id: nat, now: int)
    requires t.newTable.Values <= t.cores.Keys && s in t.newTable
  {
    assert t.newTable[s] in t.newTable.Values;
    var other := t.newTable[s];
    other == id || IsTerrible(t.cores[other], now)
    || (|SlotsOf(t.newTable, other)| > 1 && SlotsOf(t.newTable, id) == {})
  }

  /** Add_ for an address that is known as `id`; the clock is read once for the time and once for the slot. */
  function AddKnown(h: Hasher, t: Tables, id: nat, n: Notice, source: nat, penalty: int, clock: nat -> int,
          random: nat -> nat): Tables
    requires id in t.cores && t.newTable.Values <= t.cores.Keys
  {
    var c := Seen(t.cores[id], n, penalty, clock(0));
    var t1 := t.(cores := t.cores[id := c]);
    var refs := |SlotsOf(t.newTable, id)|;
    if n.nTime == 0 || (c.nTime != 0 && n.nTime <= c.nTime) || id in t.triedTable.Values
       || refs == NEW_BUCKETS_PER_ADDRESS || !Lucky(random, refs)
    then t1
    else Refer(h, t1, id, source, clock(1))
  }

  /** The entry of an address that was not known. */
  function Fresh(addr: Addr, n: Notice, source: nat, penalty: int): Core {
    Core(addr, n.nServices, source, if n.nTime > penalty then n.nTime - penalty else 0, 0, 0, 0, 0)
  }

  /** Add_ for an unknown address, entered as `id`. */
  function AddUnknown(h: Hasher, t: Tables, id: nat, addr: Addr, n: Notice, source: nat, penalty: int, now: int): Tables
    requires t.newTable.Values <= t.cores.Keys
  {
    Refer(h, t.(cores := t.cores[id := Fresh(addr, n, source, penalty)]), id, source, now)
  }

  const REPLACEMENT_SECONDS := 4 * 60 * 60
  const TEST_WINDOW := 40 * 60

  /** What the clock shows when pending id is looked at for the k-th time. */
  type Clock = (nat, nat) -> int

  /** Pending `id` takes its tried slot: the slot is free, or its holder has not answered lately. */
  predicate Promotes(h: Hasher, t: Tables, id: nat, clock: Clock, valid: Addr -> bool)
    requires t.triedTable.Values <= t.cores.Keys && id in t.cores
  {
    var c := t.cores[id];
    var k := TriedSlot(h, c.addr);
    valid(c.addr) && (k in t.triedTable ==>
      assert t.triedTable[k] in t.triedTable.Values;
      var holder := t.cores[t.triedTable[k]];
      clock(id, 0) - holder.nLastSuccess >= REPLACEMENT_SECONDS
      && if clock(id, 1) - holder.nLastTry < REPLACEMENT_SECONDS then clock(id, 2) - holder.nLastTry > 60
         else clock(id, 2) - c.nLastSuccess > TEST_WINDOW)
  }

  /** Pending `id` is given up: it is not an address any more, or the holder of its slot answered lately. */
  predicate GivenUp(h: Hasher, t: Tables, id: nat, clock: Clock, valid: Addr -> bool)
    requires t.triedTable.Values <= t.cores.Keys && id in t.cores
  {
    var k := TriedSlot(h, t.cores[id].addr);
    !valid(t.cores[id].addr) || (k in t.triedTable &&
      assert t.triedTable[k] in t.triedTable.Values;
      clock(id, 0) - t.cores[t.triedTable[k]].nLastSuccess < REPLACEMENT_SECONDS)
  }

  /** ResolveCollisions_ for one pending id: the tables afterwards, and whether it is settled. */
  function ResolveOne(h: Hasher, t: Tables, id: nat, clock: Clock, valid: Addr -> bool): (Tables, bool)
    requires t.triedTable.Values <= t.cores.Keys
  {
    if id !in t.cores || GivenUp(h, t, id, clock, valid) then (t, true)
    else if Promotes(h, t, id, clock, valid) then (Good(h, t, {}, id, t.cores[id].addr, false, clock(id, 3)).0, true)
    else (t, false)
  }

  /** Slots refer to entries. */
  predicate Sound(t: Tables) {
    t.triedTable.Values <= t.cores.Keys && t.newTable.Values <= t.cores.Keys
  }

  ghost function Least(s: set<nat>): (n: nat)
    requires s != {}
    ensures n in s && forall x | x in s :: n <= x
  {
    var y :| y in s;
    LeastBelow(s, y);
    var n :| n in s && forall x | x in s :: n <= x;
    n
  }

  lemma {:induction false} LeastBelow(s: set<nat>, y: nat)
    requires y in s
    ensures exists n | n in s :: forall x | x in s :: n <= x
    decreases y
  {
    if x :| x in s && x < y {
      LeastBelow(s, x);
    } else {
      assert forall x | x in s :: y <= x;
    }
  }

  /** ResolveCollisions_: the pending ids in ascending order; the tables and what stays pending. */
  ghost function Resolve(h: Hasher, t: Tables, pending: set<nat>, clock: Clock, valid: Addr -> bool): (Tables, set<nat>)
    decreases |pending|
  {
    if pending == {} || !Sound(t) then (t, {})
    else
      var id := Least(pending);
      var one := ResolveOne(h, t, id, clock, valid);
      var rest := Resolve(h, one.0, pending - {id}, clock, valid);
      (rest.0, if one.1 then rest.1 else rest.1 + {id})
  }

  // ---------- The redundant structures ----------

  ghost predicate IdsOk(cores: map<nat, Core>, nIdCount: nat) {
    forall id | id in cores :: id < nIdCount
  }

  /** mapAddr inverts the entries' network addresses. */
  ghost predicate AddrOk(cores: map<nat, Core>, mapAddr: map<nat, nat>) {
    && (forall id | id in cores :: cores[id].addr.ip in mapAddr && mapAddr[cores[id].addr.ip] == id)
    && (forall ip | ip in mapAddr :: mapAddr[ip] in cores && cores[mapAddr[ip]].addr.ip == ip)
  }

  /** vRandom lists the ids, and each entry knows its place in it. */
  ghost predicate RandomOk(pos: map<nat, int>, vRandom: seq<nat>) {
    && (forall id | id in pos :: 0 <= pos[id] < |vRandom| && vRandom[pos[id]] == id)
    && (forall i | 0 <= i < |vRandom| :: vRandom[i] in pos && pos[vRandom[i]] == i)
  }

  /** The tried table holds exactly the tried entries, each in its own slot. */
  ghost predicate TriedOk(h: Hasher, cores: map<nat, Core>, inTried: set<nat>, tried: map<Slot, nat>) {
    && inTried <= cores.Keys
    && (forall s | s in tried :: tried[s] in inTried && s == TriedSlot(h, cores[tried[s]].addr))
    && (forall id | id in inTried ::
         TriedSlot(h, cores[id].addr) in tried && tried[TriedSlot(h, cores[id].addr)] == id)
  }

  /** The new table holds only entries not tried, in slots of their own, as often as their
      reference counts say; only `loose` entries may have no reference. */
  ghost predicate NewOk(h: Hasher, cores: map<nat, Core>, inTried: set<nat>, refs: map<nat, int>,
          newTable: map<Slot, nat>, loose: set<nat>) {
    && refs.Keys == cores.Keys
    && (forall s | s in newTable ::
         && newTable[s] in cores && newTable[s] !in inTried
         && s.bucket < NEW_BUCKET_COUNT && s == NewSlot(h, cores[newTable[s]].addr, s.bucket))
    && (forall id | id in cores ::
         && refs[id] == |SlotsOf(newTable, id)| <= NEW_BUCKETS_PER_ADDRESS
         && (id !in inTried && id !in loose ==> refs[id] > 0))
  }

  /** The counters; `limbo` entries are counted nowhere. */
  ghost predicate CountOk(ids: set<nat>, inTried: set<nat>, limbo: set<nat>, nNew: int, nTried: int) {
    && nTried == |inTried| && nNew == |ids - inTried - limbo|
  }

  datatype State = State(cores: map<nat, Core>, refs: map<nat, int>, inTried: set<nat>, pos: map<nat, int>,
                         mapAddr: map<nat, nat>, vRandom: seq<nat>, newTable: map<Slot, nat>, triedTable: map<Slot, nat>,
                         nIdCount: nat, nNew: int, nTried: int)

  function TablesOf(s: State): Tables { Tables(s.cores, s.newTable, s.triedTable) }

  ghost predicate InvBut(h: Hasher, s: State, loose: set<nat>, limbo: set<nat>) {
    && s.pos.Keys == s.cores.Keys
    && IdsOk(s.cores, s.nIdCount)
    && AddrOk(s.cores, s.mapAddr)
    && RandomOk(s.pos, s.vRandom)
    && TriedOk(h, s.cores, s.inTried, s.triedTable)
    && NewOk(h, s.cores, s.inTried, s.refs, s.newTable, loose)
    && CountOk(s.cores.Keys, s.inTried, limbo, s.nNew, s.nTried)
  }

  ghost predicate Inv(h: Hasher, s: State) { InvBut(h, s, {}, {}) }

  // ---------- Small steps ----------

  lemma {:induction false} SlotsWithout(t: map<Slot, nat>, s: Slot, id: nat)
    requires s in t
    ensures SlotsOf(t - {s}, id) == SlotsOf(t, id) - {s}
    ensures |SlotsOf(t - {s}, id)| == |SlotsOf(t, id)| - if t[s] == id then 1 else 0
  {
    assert SlotsOf(t - {s}, id) == SlotsOf(t, id) - {s};
  }

  lemma {:induction false} SlotsWith(t: map<Slot, nat>, s: Slot, x: nat, id: nat)
    requires s !in t
    ensures |SlotsOf(t[s := x], id)| == |SlotsOf(t, id)| + if x == id then 1 else 0
  {
    if x == id {
      assert SlotsOf(t[s := x], id) == SlotsOf(t, id) + {s};
    } else {
      assert SlotsOf(t[s := x], id) == SlotsOf(t, id);
    }
  }

  /** ClearNew's assertion `nRefCount > 0`, and the table after dropping one reference. */
  lemma {:induction false} NewDrop(h: Hasher, cores: map<nat, Core>, inTried: set<nat>, refs: map<nat, int>,
                                   newTable: map<Slot, nat>, loose: set<nat>, s: Slot)
    requires NewOk(h, cores, inTried, refs, newTable, loose) && s in newTable
    ensures newTable[s] in refs && refs[newTable[s]] > 0
    ensures var id := newTable[s];
      NewOk(h, cores, inTried, refs[id := refs[id] - 1], newTable - {s}, if refs[id] == 1 then loose + {id} else loose)
  {
    hide NewSlot;
    var id := newTable[s];
    var t := newTable - {s};
    assert s in SlotsOf(newTable, id);
    forall x | x in cores
      ensures refs[id := refs[id] - 1][x] == |SlotsOf(t, x)|
    {
      SlotsWithout(newTable, s, x);
    }
  }

  lemma {:induction false} NewTake(h: Hasher, cores: map<nat, Core>, inTried: set<nat>, refs: map<nat, int>,
                                   newTable: map<Slot, nat>, loose: set<nat>, s: Slot, id: nat)
    requires NewOk(h, cores, inTried, refs, newTable, loose) && s !in newTable && id in cores && id !in inTried
    requires s.bucket < NEW_BUCKET_COUNT && s == NewSlot(h, cores[id].addr, s.bucket) && refs[id] < NEW_BUCKETS_PER_ADDRESS
    ensures NewOk(h, cores, inTried, refs[id := refs[id] + 1], newTable[s := id], loose - {id})
  {
    forall x | x in cores
      ensures refs[id := refs[id] + 1][x] == |SlotsOf(newTable[s := id], x)|
    {
      SlotsWith(newTable, s, id, x);
    }
  }

  /** Deleting an entry without references. */
  lemma {:induction false} NewDelete(h: Hasher, cores: map<nat, Core>, inTried: set<nat>, refs: map<nat, int>,
                                     newTable: map<Slot, nat>, loose: set<nat>, id: nat)
    requires NewOk(h, cores, inTried, refs, newTable, loose) && id in cores && refs[id] == 0
    ensures NewOk(h, cores - {id}, inTried, refs - {id}, newTable, loose - {id})
  {
    forall s | s in newTable ensures newTable[s] != id {
      assert newTable[s] == id ==> s in SlotsOf(newTable, id);
    }
  }

  lemma {:induction false} TriedDelete(h: Hasher, cores: map<nat, Core>, inTried: set<nat>, tried: map<Slot, nat>,
          id: nat)
    requires TriedOk(h, cores, inTried, tried) && id !in inTried
    ensures TriedOk(h, cores - {id}, inTried, tried)
  {
  }

  lemma {:induction false} AddrDelete(cores: map<nat, Core>, mapAddr: map<nat, nat>, id: nat)
    requires AddrOk(cores, mapAddr) && id in cores
    ensures AddrOk(cores - {id}, mapAddr - {cores[id].addr.ip})
  {
  }

  /** Swapping two places of vRandom together with the two back pointers. */
  lemma {:induction false} RandomSwap(pos: map<nat, int>, v: seq<nat>, i: nat, j: nat)
    requires RandomOk(pos, v) && i < |v| && j < |v| && i != j
    ensures RandomOk(pos[v[i] := j][v[j] := i], v[i := v[j]][j := v[i]])
  {
    assert v[i] != v[j];
  }

  lemma {:induction false} RandomPop(pos: map<nat, int>, v: seq<nat>)
    requires RandomOk(pos, v) && |v| > 0
    ensures RandomOk(pos - {v[|v| - 1]}, v[..|v| - 1])
  {
  }

  lemma {:induction false} RandomPush(pos: map<nat, int>, v: seq<nat>, id: nat)
    requires RandomOk(pos, v) && id !in pos
    ensures RandomOk(pos[id := |v|], v + [id])
  {
  }

  lemma {:induction false} CountDelete(ids: set<nat>, inTried: set<nat>, limbo: set<nat>, nNew: int, nTried: int,
          id: nat)
    requires CountOk(ids, inTried, limbo, nNew, nTried) && id in ids && id !in inTried && id !in limbo
    ensures CountOk(ids - {id}, inTried, limbo, nNew - 1, nTried)
  {
    assert ids - {id} - inTried - limbo == (ids - inTried - limbo) - {id};
  }

  /** An entry leaves (or enters) the count of new entries. */
  lemma {:induction false} CountLimbo(ids: set<nat>, inTried: set<nat>, limbo: set<nat>, nNew: int, nTried: int,
          id: nat)
    requires id in ids && id !in inTried && id !in limbo
    ensures CountOk(ids, inTried, limbo, nNew, nTried) <==> CountOk(ids, inTried, limbo + {id}, nNew - 1, nTried)
  {
    assert ids - inTried - (limbo + {id}) == (ids - inTried - limbo) - {id};
  }

  /** An entry in limbo is marked (or unmarked) as tried. */
  lemma {:induction false} CountTried(ids: set<nat>, inTried: set<nat>, limbo: set<nat>, nNew: int, nTried: int,
          id: nat)
    requires id in limbo && id !in inTried
    ensures CountOk(ids, inTried, limbo, nNew, nTried) <==> CountOk(ids, inTried + {id}, limbo - {id}, nNew, nTried + 1)
  {
    assert ids - (inTried + {id}) - (limbo - {id}) == ids - inTried - limbo;
  }

  // ---------- The invariant and the meaning ----------

  lemma {:induction false} TriedValues(h: Hasher, cores: map<nat, Core>, inTried: set<nat>, tried: map<Slot, nat>)
    requires TriedOk(h, cores, inTried, tried)
    ensures tried.Values == inTried
  {
    forall id | id in inTried ensures id in tried.Values {
      assert tried[TriedSlot(h, cores[id].addr)] == id;
    }
  }

  lemma {:induction false} NewValues(h: Hasher, cores: map<nat, Core>, inTried: set<nat>, refs: map<nat, int>,
          newTable: map<Slot, nat>)
    requires NewOk(h, cores, inTried, refs, newTable, {})
    ensures newTable.Values == cores.Keys - inTried
  {
    forall id | id in cores.Keys - inTried ensures id in newTable.Values {
      var x :| x in SlotsOf(newTable, id);
      assert newTable[x] == id;
    }
  }

  /** With nothing loose, the entries are exactly those that some slot refers to. */
  lemma {:induction false} EntriesAreReferenced(h: Hasher, s: State)
    requires Inv(h, s)
    ensures s.cores.Keys == Referenced(TablesOf(s))
    ensures s.triedTable.Values == s.inTried <= s.cores.Keys && s.newTable.Values == s.cores.Keys - s.inTried
  {
    assert s.inTried <= s.cores.Keys;
    hide NewOk, AddrOk, RandomOk, IdsOk, CountOk, TriedOk;
    TriedValues(h, s.cores, s.inTried, s.triedTable);
    NewValues(h, s.cores, s.inTried, s.refs, s.newTable);
  }

  /** If an operation left the given tables, only forgot entries and restored the invariant, it
      is garbage collection. */
  lemma {:induction false} CollectedIs(h: Hasher, s: State, cores: map<nat, Core>)
    requires Inv(h, s) && s.cores.Keys <= cores.Keys && forall id | id in s.cores :: s.cores[id] == cores[id]
    ensures TablesOf(s) == Collect(Tables(cores, s.newTable, s.triedTable))
  {
    hide InvBut;
    EntriesAreReferenced(h, s);
    CollectKeeps(TablesOf(s), cores);
  }

  lemma {:induction false} CollectKeeps(t: Tables, cores: map<nat, Core>)
    requires t.cores.Keys == Referenced(t) <= cores.Keys && forall id | id in t.cores :: t.cores[id] == cores[id]
    ensures Collect(t.(cores := cores)) == t
  {
    var c := Collect(t.(cores := cores)).cores;
    assert c.Keys == t.cores.Keys;
  }

  // ---------- Across operations ----------

  /** A pending collision, if its entry still exists, is about an occupied tried slot. */
  ghost predicate CollisionsOk(h: Hasher, cores: map<nat, Core>, tried: map<Slot, nat>, collisions: set<nat>,
          nIdCount: nat) {
    forall id | id in collisions :: id < nIdCount && (id in cores ==> TriedSlot(h, cores[id].addr) in tried)
  }

  /** What no operation takes back: ids are not reused, an id keeps its address, and a tried slot
      once filled stays filled. */
  ghost predicate Later(s: State, t: State) {
    && s.nIdCount <= t.nIdCount
    && s.triedTable.Keys <= t.triedTable.Keys
    && (forall id | id in t.cores && id < s.nIdCount :: id in s.cores && t.cores[id].addr == s.cores[id].addr)
  }

  lemma {:induction false} LaterStill(s: State, t: State, u: State)
    requires Later(s, t) && Later(t, u)
    ensures Later(s, u)
  {
  }

  lemma {:induction false} CollisionsLater(h: Hasher, s: State, t: State, collisions: set<nat>)
    requires Later(s, t) && CollisionsOk(h, s.cores, s.triedTable, collisions, s.nIdCount)
    ensures CollisionsOk(h, t.cores, t.triedTable, collisions, t.nIdCount)
  {
    hide TriedSlot;
  }

  // ---------- Check_ ----------

  /** vRandom has one place per entry. */
  lemma {:induction false} RandomSize(pos: map<nat, int>, v: seq<nat>)
    requires RandomOk(pos, v)
    ensures |v| == |pos|
    decreases |v|
  {
    if v == [] {
      assert pos == map[];
    } else {
      var last := v[|v| - 1];
      RandomPop(pos, v);
      RandomSize(pos - {last}, v[..|v| - 1]);
      assert (pos - {last}).Keys == pos.Keys - {last};
    }
  }

  // The conditions that Check_ tests, with its error codes; only the null key (-16) is missing.

  ghost predicate CheckEntries(s: State) {
    forall id | id in s.cores ::
      && id in s.refs && id in s.pos
      && (id in s.inTried ==> s.refs[id] == 0)                                                      // -2
      && (id !in s.inTried ==> 0 < s.refs[id] <= NEW_BUCKETS_PER_ADDRESS)                           // -3 -4
      && s.cores[id].addr.ip in s.mapAddr && s.mapAddr[s.cores[id].addr.ip] == id                   // -5
      && 0 <= s.pos[id] < |s.vRandom| && s.vRandom[s.pos[id]] == id                                 // -14
  }

  ghost predicate CheckTimes(cores: map<nat, Core>, inTried: set<nat>) {
    forall id | id in cores ::
      && (id in inTried ==> cores[id].nLastSuccess != 0)                                            // -1
      && cores[id].nLastTry >= 0 && cores[id].nLastSuccess >= 0                                     // -6 -8
  }

  ghost predicate CheckCounts(s: State) {
    && |s.vRandom| == s.nTried + s.nNew                                                           // -7
    && s.nTried == |s.cores.Keys * s.inTried|                                                     // -9
    && s.nNew == |s.cores.Keys - s.inTried|                                                       // -10
  }

  /** Tried slots hold tried entries where they belong, and each of those once. */
  ghost predicate CheckTried(h: Hasher, s: State) {
    && (forall x | x in s.triedTable ::
         && s.triedTable[x] in s.cores && s.triedTable[x] in s.inTried                            // -11
         && TriedSlot(h, s.cores[s.triedTable[x]].addr) == x)                                     // -17 -18
    && (forall id | id in s.inTried :: |SlotsOf(s.triedTable, id)| == 1)                          // -11 -13
  }

  /** New slots hold new entries where they belong, and each of those as often as counted. */
  ghost predicate CheckNew(h: Hasher, s: State) {
    && (forall x | x in s.newTable ::
         && s.newTable[x] in s.cores && s.newTable[x] !in s.inTried                               // -12
         && NewSlot(h, s.cores[s.newTable[x]].addr, x.bucket) == x)                               // -19
    && (forall id | id in s.cores && id !in s.inTried ::
         id in s.refs && |SlotsOf(s.newTable, id)| == s.refs[id])                                 // -12 -15
  }

  lemma {:induction false} TriedOnce(h: Hasher, cores: map<nat, Core>, inTried: set<nat>, tried: map<Slot, nat>,
          id: nat)
    requires TriedOk(h, cores, inTried, tried) && id in inTried
    ensures |SlotsOf(tried, id)| == 1
  {
    assert SlotsOf(tried, id) == {TriedSlot(h, cores[id].addr)};
  }

  lemma {:induction false} TriedHasNoRefs(h: Hasher, cores: map<nat, Core>, inTried: set<nat>, refs: map<nat, int>,
          newTable: map<Slot, nat>, id: nat)
    requires NewOk(h, cores, inTried, refs, newTable, {}) && id in inTried && id in cores
    ensures refs[id] == 0
  {
    assert SlotsOf(newTable, id) == {};
  }

  lemma {:induction false} CountsAdd(ids: set<nat>, inTried: set<nat>, pos: map<nat, int>, v: seq<nat>, nNew: int,
          nTried: int)
    requires CountOk(ids, inTried, {}, nNew, nTried) && RandomOk(pos, v) && pos.Keys == ids && inTried <= ids
    ensures |v| == nTried + nNew && nTried == |ids * inTried| && nNew == |ids - inTried|
  {
    hide RandomOk;
    RandomSize(pos, v);
    assert ids * inTried == inTried;
    assert ids - inTried - {} == ids - inTried;
    assert ids == inTried + (ids - inTried);
    assert |pos| == |pos.Keys|;
  }

  lemma {:induction false} EntriesPass(h: Hasher, s: State)
    requires Inv(h, s)
    ensures CheckEntries(s)
  {
    hide IdsOk, CountOk, TriedOk, NewSlot;
    forall id | id in s.cores && id in s.inTried ensures s.refs[id] == 0 {
      TriedHasNoRefs(h, s.cores, s.inTried, s.refs, s.newTable, id);
    }
  }

  lemma {:induction false} TriedPass(h: Hasher, s: State)
    requires Inv(h, s)
    ensures CheckTried(h, s)
  {
    hide IdsOk, CountOk, NewOk, AddrOk, RandomOk, TriedSlot;
    forall id | id in s.inTried ensures |SlotsOf(s.triedTable, id)| == 1 {
      TriedOnce(h, s.cores, s.inTried, s.triedTable, id);
    }
  }

  lemma {:induction false} NewPass(h: Hasher, s: State)
    requires Inv(h, s)
    ensures CheckNew(h, s)
  {
    hide IdsOk, CountOk, TriedOk, AddrOk, RandomOk, NewSlot;
  }

  /** The invariant implies every condition of Check_ but those on times, and says what those mean for the tables. */
  lemma {:induction false} InvPassesCheck(h: Hasher, s: State)
    requires Inv(h, s)
    ensures CheckEntries(s) && CheckCounts(s) && CheckTried(h, s) && CheckNew(h, s)
    ensures CheckTimes(s.cores, s.inTried) <==> TimesRight(TablesOf(s))
  {
    hide NewOk, AddrOk, RandomOk, IdsOk, CountOk, TriedOk, TimesRight, CheckTimes, CheckEntries, CheckTried, CheckNew;
    EntriesPass(h, s);
    TriedPass(h, s);
    NewPass(h, s);
    TimesMean(h, TablesOf(s), s.inTried);
    EntriesAreReferenced(h, s);
    CountsAdd(s.cores.Keys, s.inTried, s.pos, s.vRandom, s.nNew, s.nTried);
  }

  lemma {:induction false} TimesMean(h: Hasher, t: Tables, inTried: set<nat>)
    requires TriedOk(h, t.cores, inTried, t.triedTable)
    ensures CheckTimes(t.cores, inTried) <==> TimesRight(t)
  {
    hide TriedSlot;
  }

  // ---------- The times that Check_ tests ----------

  ghost predicate TimesRight(t: Tables) {
    && (forall id | id in t.cores :: t.cores[id].nLastTry >= 0 && t.cores[id].nLastSuccess >= 0)
    && (forall k | k in t.triedTable && t.triedTable[k] in t.cores :: t.cores[t.triedTable[k]].nLastSuccess > 0)
  }

  lemma {:induction false} MakeTriedSound(h: Hasher, t: Tables, id: nat)
    requires Sound(t) && id in t.cores
    ensures var u := MakeTried(h, t, id);
      Sound(u) && id in u.cores && u.cores[id] == t.cores[id] && TriedSlot(h, t.cores[id].addr) in u.triedTable
      && u.triedTable[TriedSlot(h, t.cores[id].addr)] == id
  {
    hide TriedSlot, DefaultNewSlot;
    var u, k := MakeTried(h, t, id), TriedSlot(h, t.cores[id].addr);
    assert k in u.triedTable.Keys && u.triedTable[k] == id;
    assert id in u.triedTable.Values;
  }

  lemma {:induction false} MakeTriedTimes(h: Hasher, t: Tables, id: nat)
    requires Sound(t) && id in t.cores && TimesRight(t)
    ensures TimesRight(MakeTried(h, t, id)) <==> t.cores[id].nLastSuccess > 0
  {
    hide TriedSlot, DefaultNewSlot;
    MakeTriedSound(h, t, id);
  }

  /** Good_ keeps the times right unless the clock is wrong where that shows. */
  lemma {:induction false} GoodTimes(h: Hasher, t: Tables, collisions: set<nat>, id: nat, addr: Addr,
          testBeforeEvict: bool, time: int)
    requires Sound(t) && id in t.cores && TimesRight(t)
    ensures TimesRight(Good(h, t, collisions, id, addr, testBeforeEvict, time).0)
      <==> || t.cores[id].addr != addr || time > 0
           || (time == 0 && id !in t.triedTable.Values && testBeforeEvict && TriedSlot(h, addr) in t.triedTable)
  {
    hide TriedSlot, MakeTried;
    if t.cores[id].addr == addr {
      SucceededTimes(t, id, time);
      if id !in t.triedTable.Values && !(testBeforeEvict && TriedSlot(h, addr) in t.triedTable) {
        var t1 := t.(cores := t.cores[id := Succeeded(t.cores[id], time)]);
        if time >= 0 { MakeTriedTimes(h, t1, id); } else { NegativeStays(h, t1, id); }
      }
    }
  }

  lemma {:induction false} SucceededTimes(t: Tables, id: nat, time: int)
    requires Sound(t) && id in t.cores && TimesRight(t)
    ensures TimesRight(t.(cores := t.cores[id := Succeeded(t.cores[id], time)]))
      <==> time > 0 || (time == 0 && id !in t.triedTable.Values)
  {
    var u := t.(cores := t.cores[id := Succeeded(t.cores[id], time)]);
    assert u.cores[id].nLastSuccess == time == u.cores[id].nLastTry;
    if id in t.triedTable.Values {
      var k :| k in t.triedTable && t.triedTable[k] == id;
      assert u.triedTable[k] == id;
    }
  }

  lemma {:induction false} NegativeStays(h: Hasher, t: Tables, id: nat)
    requires Sound(t) && id in t.cores && t.cores[id].nLastSuccess < 0
    ensures !TimesRight(MakeTried(h, t, id))
  {
    hide MakeTried, TriedSlot;
    MakeTriedSound(h, t, id);
  }

  /** A success at time 0: the entry is promoted and Check_ refuses it. */
  lemma {:induction false} SuccessAtZero(h: Hasher)
    ensures var c := Core(Addr(1, 2), {}, 3, 4, 0, 0, 0, 0);
      var t := Tables(map[0 := c], map[DefaultNewSlot(h, c) := 0], map[]);
      TimesRight(t) && Sound(t) && !TimesRight(Good(h, t, {}, 0, c.addr, true, 0).0)
  {
    hide Good, DefaultNewSlot, TriedSlot;
    var c := Core(Addr(1, 2), {}, 3, 4, 0, 0, 0, 0);
    GoodTimes(h, Tables(map[0 := c], map[DefaultNewSlot(h, c) := 0], map[]), {}, 0, c.addr, true, 0);
  }

  /** Attempt_ does if the time is negative. */
  lemma {:induction false} AttemptTimes(t: Tables, addr: Addr, countFailure: bool, nLastGood: int, time: int)
    requires TimesRight(t)
    ensures TimesRight(t.(cores := AttemptAll(t.cores, addr, countFailure, nLastGood, time)))
      <==> time >= 0 || forall id | id in t.cores :: t.cores[id].addr != addr
  {
    var a := AttemptAll(t.cores, addr, countFailure, nLastGood, time);
    assert forall id | id in t.cores && t.cores[id].addr == addr :: id in a && a[id].nLastTry == time;
  }

  /** Add_ keeps them right. */
  lemma {:induction false} AddKnownTimes(h: Hasher, t: Tables, id: nat, n: Notice, source: nat, penalty: int,
          clock: nat -> int, random: nat -> nat)
    requires Sound(t) && id in t.cores && TimesRight(t)
    ensures TimesRight(AddKnown(h, t, id, n, source, penalty, clock, random))
  {
    hide Refer;
    var c := Seen(t.cores[id], n, penalty, clock(0));
    ReferTimes(h, t.(cores := t.cores[id := c]), id, source, clock(1));
  }

  lemma {:induction false} AddUnknownTimes(h: Hasher, t: Tables, id: nat, addr: Addr, n: Notice, source: nat,
          penalty: int, now: int)
    requires Sound(t) && id !in t.cores && TimesRight(t)
    ensures TimesRight(AddUnknown(h, t, id, addr, n, source, penalty, now))
  {
    hide Refer;
    var t1 := t.(cores := t.cores[id := Fresh(addr, n, source, penalty)]);
    forall k | k in t1.triedTable ensures t1.triedTable[k] != id {
      assert t.triedTable[k] in t.triedTable.Values;
    }
    ReferTimes(h, t1, id, source, now);
  }

  lemma {:induction false} ReferTimes(h: Hasher, t: Tables, id: nat, source: nat, now: int)
    requires t.newTable.Values <= t.cores.Keys && id in t.cores && TimesRight(t)
    ensures TimesRight(Refer(h, t, id, source, now))
  {
    hide NewSlot, NewBucket, Replaceable;
  }

  /** Settling one collision does unless the clock is not positive when the entry is promoted. */
  lemma {:induction false} ResolveOneTimes(h: Hasher, t: Tables, id: nat, clock: Clock, valid: Addr -> bool)
    requires Sound(t) && TimesRight(t)
    ensures TimesRight(ResolveOne(h, t, id, clock, valid).0)
      <==> clock(id, 3) > 0 || id !in t.cores || !Promotes(h, t, id, clock, valid)
    ensures Sound(ResolveOne(h, t, id, clock, valid).0)
  {
    hide Good;
    PromotesNotGivenUp(h, t, id, clock, valid);
    hide Promotes, GivenUp;
    if id in t.cores {
      GoodTimes(h, t, {}, id, t.cores[id].addr, false, clock(id, 3));
      GoodSound(h, t, {}, id, t.cores[id].addr, false, clock(id, 3));
    }
  }

  lemma {:induction false} PromotesNotGivenUp(h: Hasher, t: Tables, id: nat, clock: Clock, valid: Addr -> bool)
    requires Sound(t)
    ensures id in t.cores && Promotes(h, t, id, clock, valid) ==> !GivenUp(h, t, id, clock, valid)
  {
  }

  lemma {:induction false} GoodSound(h: Hasher, t: Tables, collisions: set<nat>, id: nat, addr: Addr,
          testBeforeEvict: bool, time: int)
    requires Sound(t) && id in t.cores
    ensures Sound(Good(h, t, collisions, id, addr, testBeforeEvict, time).0)
  {
    hide MakeTried, TriedSlot;
    MakeTriedSound(h, t.(cores := t.cores[id := Succeeded(t.cores[id], time)]), id);
  }

  /** A whole pass over the collisions keeps the times right under a positive clock. */
  lemma {:induction false} ResolveTimes(h: Hasher, t: Tables, pending: set<nat>, clock: Clock, valid: Addr -> bool)
    requires Sound(t) && TimesRight(t) && forall id | id in pending :: clock(id, 3) > 0
    ensures TimesRight(Resolve(h, t, pending, clock, valid).0)
    decreases |pending|
  {
    hide ResolveOne, TimesRight;
    if pending != {} {
      var id := Least(pending);
      ResolveOneTimes(h, t, id, clock, valid);
      ResolveTimes(h, ResolveOne(h, t, id, clock, valid).0, pending - {id}, clock, valid);
    }
  }

  // ---------- How much the tables hold ----------

  /** The slots of a bucket array. */
  function AllSlots(n: nat, m: nat): set<Slot> { set b: nat, i: nat | b < n && i < m :: Slot(b, i) }

  function RowSlots(b: nat, m: nat): set<Slot> { set i: nat | i < m :: Slot(b, i) }

  lemma {:induction false} RowSize(b: nat, m: nat)
    ensures |RowSlots(b, m)| == m
  {
    if m > 0 {
      RowSize(b, m - 1);
      assert RowSlots(b, m) == RowSlots(b, m - 1) + {Slot(b, m - 1)};
    }
  }

  lemma {:induction false} AllNone(m: nat)
    ensures AllSlots(0, m) == {}
  {
  }

  lemma {:induction false} AllRows(n: nat, m: nat)
    requires n > 0
    ensures AllSlots(n, m) == AllSlots(n - 1, m) + RowSlots(n - 1, m) && AllSlots(n - 1, m) !! RowSlots(n - 1, m)
  {
  }

  lemma {:induction false} AllSize(n: nat, m: nat)
    ensures |AllSlots(n, m)| == n * m
  {
    hide AllSlots, RowSlots;
    if n == 0 {
      AllNone(m);
    } else {
      AllSize(n - 1, m);
      RowSize(n - 1, m);
      AllRows(n, m);
    }
  }

  lemma {:induction false} ValuesFew(t: map<Slot, nat>)
    ensures |t.Values| <= |t.Keys|
    decreases |t|
  {
    if t.Keys != {} {
      var k :| k in t.Keys;
      var u := t - {k};
      ValuesFew(u);
      assert u.Keys == t.Keys - {k};
      forall v | v in t.Values ensures v in u.Values + {t[k]} {
        var x :| x in t && t[x] == v;
        assert x != k ==> x in u && u[x] == v;
      }
      SubsetSize(t.Values, u.Values + {t[k]});
    }
  }

  lemma {:induction false} SubsetSize<T>(a: set<T>, b: set<T>)
    requires a <= b
    ensures |a| <= |b|
  {
    assert b == a + (b - a);
  }

  /** No more entries than slots. */
  lemma {:induction false} EntriesFit(t: map<Slot, nat>, n: nat, m: nat)
    requires forall x | x in t :: x.bucket < n && x.index < m
    ensures |t.Values| <= n * m
  {
    ValuesFew(t);
    AllSize(n, m);
    SubsetSize(t.Keys, AllSlots(n, m));
  }

  lemma {:induction false} NewFit(h: Hasher, cores: map<nat, Core>, inTried: set<nat>, refs: map<nat, int>,
          newTable: map<Slot, nat>)
    requires NewOk(h, cores, inTried, refs, newTable, {})
    ensures |cores.Keys - inTried| <= NEW_BUCKET_COUNT * BUCKET_SIZE
  {
    NewValues(h, cores, inTried, refs, newTable);
    EntriesFit(newTable, NEW_BUCKET_COUNT, BUCKET_SIZE);
  }

  lemma {:induction false} TriedFit(h: Hasher, cores: map<nat, Core>, inTried: set<nat>, tried: map<Slot, nat>)
    requires TriedOk(h, cores, inTried, tried)
    ensures |inTried| <= TRIED_BUCKET_COUNT * BUCKET_SIZE
  {
    TriedValues(h, cores, inTried, tried);
    EntriesFit(tried, TRIED_BUCKET_COUNT, BUCKET_SIZE);
  }

  lemma {:induction false} CountsFit(h: Hasher, s: State)
    requires Inv(h, s)
    ensures s.nNew <= NEW_BUCKET_COUNT * BUCKET_SIZE && s.nTried <= TRIED_BUCKET_COUNT * BUCKET_SIZE
  {
    hide NewOk, AddrOk, RandomOk, IdsOk, TriedOk;
    assert s.cores.Keys - s.inTried - {} == s.cores.Keys - s.inTried;
    NewFit(h, s.cores, s.inTried, s.refs, s.newTable);
    TriedFit(h, s.cores, s.inTried, s.triedTable);
  }
}
