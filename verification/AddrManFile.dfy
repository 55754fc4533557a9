/** What peers.dat holds and what loading it gives (Serialize and Unserialize of src/addrman.h),
    as values, and the proof that a written manager comes back. */
module AddrManFile {
  import opened AddrManModel
  import opened AddrManSteps

  /** The persisted part of CAddrInfo. */
  datatype Record = Record(addr: Addr, nServices: set<nat>, source: nat, nTime: int, nLastSuccess: int, nAttempts: int)

  function Persist(c: Core): Record { Record(c.addr, c.nServices, c.source, c.nTime, c.nLastSuccess, c.nAttempts) }

  function Read(r: Record): Core { Core(r.addr, r.nServices, r.source, r.nTime, 0, 0, r.nLastSuccess, r.nAttempts) }

  /** What of an entry comes back: everything but the last try and the last counted attempt, which start at 0. */
  ghost predicate Restores(c: Core, d: Core) {
    && d.addr == c.addr && d.nServices == c.nServices && d.source == c.source && d.nTime == c.nTime
    && d.nLastSuccess == c.nLastSuccess && d.nAttempts == c.nAttempts && d.nLastTry == d.nLastCountAttempt == 0
  }

  const FILE_FORMAT := 3
  const V2_ASMAP := 2

  /** The fields after the key; the counts are those of the lists that follow them. */
  datatype File = File(format: nat, lowestCompatible: nat, newRecords: seq<Record>, triedRecords: seq<Record>,
                       buckets: seq<seq<int>>, asmap: nat)

  // ---------- Writing ----------

  /** The ids in the order in which std::map visits them. */
  ghost function Sorted(ids: set<nat>): (s: seq<nat>)
    ensures |s| == |ids| && (forall id | id in ids :: id in s) && (forall id | id in s :: id in ids)
    ensures forall i, j | 0 <= i < j < |s| :: s[i] < s[j]
  {
    if ids == {} then [] else
      var n := Least(ids);
      var rest := Sorted(ids - {n});
      SortedMore(ids, n, rest);
      [n] + rest
  }

  /** The least element comes before the sorted rest. */
  lemma {:induction false} SortedMore(ids: set<nat>, n: nat, rest: seq<nat>)
    requires n in ids && (forall x | x in ids :: n <= x) && |rest| == |ids - {n}|
    requires (forall id | id in ids - {n} :: id in rest) && (forall id | id in rest :: id in ids - {n})
    requires forall i, j | 0 <= i < j < |rest| :: rest[i] < rest[j]
    ensures var s := [n] + rest;
      && |s| == |ids| && (forall id | id in ids :: id in s) && (forall id | id in s :: id in ids)
      && (forall i, j | 0 <= i < j < |s| :: s[i] < s[j])
  {
    var s := [n] + rest;
    assert |ids - {n}| == |ids| - 1;
    forall id | id in ids ensures id in s {
      assert id != n ==> id in rest;
    }
    forall i, j | 0 <= i < j < |s| ensures s[i] < s[j] {
      assert s[j] == rest[j - 1] && rest[j - 1] in rest;
    }
  }

  ghost function Records(cores: map<nat, Core>, ids: seq<nat>): (r: seq<Record>)
    requires forall id | id in ids :: id in cores
    ensures |r| == |ids|
  {
    seq(|ids|, i requires 0 <= i < |ids| => Persist(cores[ids[i]]))
  }

  /** Where an id stands in a list; the length if nowhere. */
  function IndexOf(ids: seq<nat>, id: nat): (i: nat)
    ensures i <= |ids| && (i < |ids| ==> ids[i] == id) && (id in ids ==> i < |ids|)
  {
    if ids == [] then 0 else if ids[0] == id then 0 else 1 + IndexOf(ids[1..], id)
  }

  /** The indices written for positions i.. of one bucket. */
  function BucketList(t: map<Slot, nat>, ids: seq<nat>, bucket: nat, i: nat): seq<int>
    requires i <= BUCKET_SIZE
    decreases BUCKET_SIZE - i
  {
    if i == BUCKET_SIZE then []
    else (if Slot(bucket, i) in t then [IndexOf(ids, t[Slot(bucket, i)])] else []) + BucketList(t, ids, bucket, i + 1)
  }

  function Buckets(t: map<Slot, nat>, ids: seq<nat>): seq<seq<int>> {
    seq(NEW_BUCKET_COUNT, b requires 0 <= b < NEW_BUCKET_COUNT => BucketList(t, ids, b, 0))
  }

  ghost function NewIds(s: State): seq<nat> { Sorted(s.cores.Keys - s.inTried) }

  ghost function TriedIdsOf(s: State): seq<nat> { Sorted(s.cores.Keys * s.inTried) }

  ghost function Written(s: State, asmap: nat): File {
    File(FILE_FORMAT, FILE_FORMAT, Records(s.cores, NewIds(s)), Records(s.cores, TriedIdsOf(s)),
         Buckets(s.newTable, NewIds(s)), asmap)
  }

  // ---------- Reading ----------

  const EMPTY := State(map[], map[], {}, map[], map[], [], map[], map[], 0, 0, 0)

  /** The new entries, without references yet. */
  function LoadNew(records: seq<Record>): State {
    if records == [] then EMPTY
    else Created(LoadNew(records[..|records| - 1]), Read(records[|records| - 1]))
  }

  /** A tried entry takes its slot unless that is taken. */
  function LoadTriedOne(h: Hasher, s: State, c: Core): State {
    var k, id := TriedSlot(h, c.addr), s.nIdCount;
    if k in s.triedTable then s
    else s.(cores := s.cores[id := c], refs := s.refs[id := 0], inTried := s.inTried + {id}, pos := s.pos[id := |s.vRandom|],
            mapAddr := s.mapAddr[c.addr.ip := id], vRandom := s.vRandom + [id], triedTable := s.triedTable[k := id],
            nIdCount := id + 1, nTried := s.nTried + 1)
  }

  function LoadTried(h: Hasher, s: State, records: seq<Record>): State {
    if records == [] then s
    else LoadTriedOne(h, LoadTried(h, s, records[..|records| - 1]), Read(records[|records| - 1]))
  }

  /** The last bucket that lists each entry. */
  function LastBucket(buckets: seq<seq<int>>, nNew: nat): map<int, nat> {
    if buckets == [] then map[]
    else
      var b := |buckets| - 1;
      LastBucket(buckets[..b], nNew) + Listing(buckets[b], nNew, b)
  }

  /** The entries that one bucket lists; other indices are ignored. */
  function Listing(list: seq<int>, nNew: nat, bucket: nat): map<int, nat> {
    map i | i in list && 0 <= i < nNew :: bucket
  }

  /** Give entry n its reference: in the recorded bucket if that can be used, else in the bucket
      of its own source, else none. */
  function PlaceOne(h: Hasher, s: State, lastBucket: map<int, nat>, usable: bool, n: nat): State
    requires n in s.cores && n in s.refs
  {
    var x := NewSlot(h, s.cores[n].addr, Recorded(lastBucket, n));
    var y := DefaultNewSlot(h, s.cores[n]);
    if usable && x !in s.newTable && s.refs[n] < NEW_BUCKETS_PER_ADDRESS then Taken(s, x, n)
    else if y !in s.newTable then Taken(s, y, n)
    else s
  }

  function Place(h: Hasher, s: State, lastBucket: map<int, nat>, usable: bool, n: nat): (t: State)
    requires forall i: nat | i < n :: i in s.cores && i in s.refs
    ensures t.cores == s.cores && t.refs.Keys == s.refs.Keys
    ensures t == s.(refs := t.refs, newTable := t.newTable)
  {
    if n == 0 then s else PlaceOne(h, Place(h, s, lastBucket, usable, n - 1), lastBucket, usable, n - 1)
  }

  ghost predicate Listed(s: State) {
    s.pos.Keys == s.cores.Keys == s.refs.Keys && RandomOk(s.pos, s.vRandom)
  }

  /** Entries that got no reference are deleted. */
  ghost function Prune(s: State, todo: set<nat>): (t: State)
    requires Listed(s) && todo <= s.cores.Keys
    decreases |todo|
  {
    if todo == {} then s
    else
      var id := Least(todo);
      var t := if id !in s.inTried && s.refs[id] == 0 then DeletedListed(s, id); Deleted(s, id) else s;
      Prune(t, todo - {id})
  }

  lemma {:induction false} DeletedListed(s: State, id: nat)
    requires Listed(s) && id in s.cores
    ensures id in s.pos && 0 <= s.pos[id] < |s.vRandom|
    ensures Listed(Deleted(s, id)) && Deleted(s, id).cores.Keys == s.cores.Keys - {id}
  {
    hide RandomOk;
    PlacedAt(s.pos, s.vRandom, id);
    var n, i := |s.vRandom| - 1, s.pos[id];
    SwapListed(s, i, n);
    var t := Swapped(s, i, n);
    assert t.vRandom[n] == id;
    RandomPop(t.pos, t.vRandom);
  }

  lemma {:induction false} PlacedAt(pos: map<nat, int>, v: seq<nat>, id: nat)
    requires RandomOk(pos, v) && id in pos
    ensures 0 <= pos[id] < |v| && v[pos[id]] == id
  {
  }

  lemma {:induction false} SwapListed(s: State, i: nat, j: nat)
    requires Listed(s) && i < |s.vRandom| && j < |s.vRandom|
    ensures Listed(Swapped(s, i, j))
  {
    hide RandomOk;
    if i != j {
      RandomMember(s.pos, s.vRandom, i);
      RandomMember(s.pos, s.vRandom, j);
      RandomSwap(s.pos, s.vRandom, i, j);
    }
  }

  /** Listed, with ids below the next one. */
  ghost predicate Growing(s: State) { Listed(s) && IdsOk(s.cores, s.nIdCount) }

  lemma {:induction false} CreatedGrowing(s: State, c: Core)
    requires Growing(s)
    ensures Growing(Created(s, c)) && Created(s, c).cores.Keys == s.cores.Keys + {s.nIdCount}
  {
    assert s.nIdCount !in s.cores;
    assert IdsOk(s.cores[s.nIdCount := c], s.nIdCount + 1);
    hide RandomOk, IdsOk;
    RandomPush(s.pos, s.vRandom, s.nIdCount);
  }

  lemma {:induction false} TriedGrowing(h: Hasher, s: State, c: Core)
    requires Growing(s)
    ensures Growing(LoadTriedOne(h, s, c)) && s.cores.Keys <= LoadTriedOne(h, s, c).cores.Keys
  {
    hide TriedSlot;
    assert s.nIdCount !in s.cores;
    assert IdsOk(s.cores[s.nIdCount := c], s.nIdCount + 1);
    hide RandomOk, IdsOk;
    RandomPush(s.pos, s.vRandom, s.nIdCount);
  }

  lemma {:induction false} EmptyGrowing()
    ensures Growing(EMPTY)
  {
    assert EMPTY.cores.Keys == {} == EMPTY.pos.Keys == EMPTY.refs.Keys;
  }

  lemma {:induction false} LoadNewGrowing(records: seq<Record>)
    ensures var s := LoadNew(records);
      Growing(s) && s.nIdCount == |records| && forall i: nat | i < |records| :: i in s.cores
  {
    hide Growing;
    EmptyGrowing();
    if records != [] {
      LoadNewGrowing(records[..|records| - 1]);
      CreatedGrowing(LoadNew(records[..|records| - 1]), Read(records[|records| - 1]));
    }
  }

  lemma {:induction false} LoadTriedGrowing(h: Hasher, s: State, records: seq<Record>)
    requires Growing(s)
    ensures Growing(LoadTried(h, s, records)) && s.cores.Keys <= LoadTried(h, s, records).cores.Keys
  {
    hide LoadTriedOne, Growing;
    if records != [] {
      LoadTriedGrowing(h, s, records[..|records| - 1]);
      TriedGrowing(h, LoadTried(h, s, records[..|records| - 1]), Read(records[|records| - 1]));
    }
  }

  /** Unserialize, from the lists to the finished manager. */
  ghost function Loaded(h: Hasher, f: File, asmap: nat): (s: State) {
    LoadNewGrowing(f.newRecords);
    var s0 := LoadNew(f.newRecords);
    LoadTriedGrowing(h, s0, f.triedRecords);
    var s1 := LoadTried(h, s0, f.triedRecords);
    var nNew := |f.newRecords|;
    var usable := f.format >= V2_ASMAP && |f.buckets| == NEW_BUCKET_COUNT && f.asmap == asmap;
    var s2 := Place(h, s1, LastBucket(f.buckets, nNew), usable, nNew);
    Prune(s2, s2.cores.Keys)
  }

  // ---------- Loading keeps the invariant ----------

  ghost function Below(n: nat): (s: set<nat>)
    ensures forall i: nat :: i in s <==> i < n
  {
    if n == 0 then {} else Below(n - 1) + {n - 1}
  }

  ghost predicate DistinctIps(records: seq<Record>) {
    forall i, j | 0 <= i < j < |records| :: records[i].addr.ip != records[j].addr.ip
  }

  ghost predicate DistinctSlots(h: Hasher, records: seq<Record>) {
    forall i, j | 0 <= i < j < |records| :: TriedSlot(h, records[i].addr) != TriedSlot(h, records[j].addr)
  }

  /** z holds the entries of `records` in order, and the tables are empty but for the tried entries
      from `first` on. */
  ghost predicate Holds(h: Hasher, z: State, records: seq<Record>, first: nat) {
    && first <= |records| == z.nIdCount && z.cores.Keys == Below(|records|) == z.refs.Keys
    && (forall i | 0 <= i < |records| :: z.cores[i] == Read(records[i]))
    && z.newTable == map[] && z.nNew == first && z.nTried == |records| - first
    && (forall i | i in z.inTried :: first <= i < |records|)
    && (forall i | first <= i < |records| :: i in z.inTried)
  }

  lemma {:induction false} UnknownIp(h: Hasher, z: State, records: seq<Record>, first: nat, loose: set<nat>, r: Record)
    requires Holds(h, z, records, first) && DistinctIps(records + [r]) && InvBut(h, z, loose, {})
    ensures r.addr.ip !in z.mapAddr
  {
    hide IdsOk, RandomOk, TriedOk, NewOk, CountOk;
    forall ip | ip in z.mapAddr ensures ip != r.addr.ip {
      var i := z.mapAddr[ip];
      assert i in z.cores.Keys;
      assert (records + [r])[i] == records[i] && (records + [r])[|records|] == r;
    }
  }

  lemma {:induction false} FreeSlot(h: Hasher, z: State, records: seq<Record>, first: nat, loose: set<nat>, r: Record)
    requires Holds(h, z, records, first) && DistinctSlots(h, records[first..] + [r]) && InvBut(h, z, loose, {})
    ensures TriedSlot(h, r.addr) !in z.triedTable
  {
    hide IdsOk, RandomOk, AddrOk, NewOk, CountOk, TriedSlot;
    var tried := records[first..] + [r];
    forall k | k in z.triedTable ensures k != TriedSlot(h, r.addr) {
      var i := z.triedTable[k];
      assert i in z.inTried;
      assert tried[i - first] == records[i] && tried[|records| - first] == r;
    }
  }

  lemma {:induction false} LoadNewInv(h: Hasher, records: seq<Record>)
    requires DistinctIps(records)
    ensures Holds(h, LoadNew(records), records, |records|) && InvBut(h, LoadNew(records), Below(|records|), {})
  {
    hide InvBut, Holds;
    if records == [] {
      EmptyHolds(h);
    } else {
      var n := |records| - 1;
      var start, r := records[..n], records[n];
      assert start + [r] == records;
      LoadNewInv(h, start);
      var z := LoadNew(start);
      UnknownIp(h, z, start, n, Below(n), r);
      CreatedInv(h, z, Below(n), Read(r));
      HoldsNew(h, z, start, r);
    }
  }

  lemma {:induction false} EmptyHolds(h: Hasher)
    ensures Holds(h, EMPTY, [], 0) && InvBut(h, EMPTY, Below(0), {})
  {
    hide TriedSlot, NewSlot;
    assert Below(0) == {} == EMPTY.cores.Keys == EMPTY.refs.Keys;
  }

  lemma {:induction false} HoldsNew(h: Hasher, z: State, records: seq<Record>, r: Record)
    requires Holds(h, z, records, |records|)
    ensures Holds(h, Created(z, Read(r)), records + [r], |records| + 1)
    ensures z.nIdCount == |records| && Below(|records|) + {|records|} == Below(|records| + 1)
  {
    assert Below(|records|) + {|records|} == Below(|records| + 1);
  }

  lemma {:induction false} HoldsTried(h: Hasher, z: State, records: seq<Record>, first: nat, r: Record)
    requires Holds(h, z, records, first) && TriedSlot(h, r.addr) !in z.triedTable
    ensures Holds(h, LoadTriedOne(h, z, Read(r)), records + [r], first)
  {
    hide TriedSlot, Below;
    var n, y := |records|, LoadTriedOne(h, z, Read(r));
    KeysPlus(z.cores, n, Read(r));
    KeysPlus(z.refs, n, 0);
    BelowNext(n);
    assert y.cores.Keys == Below(n + 1) == y.refs.Keys;
  }

  lemma {:induction false} BelowNext(n: nat)
    ensures Below(n) + {n} == Below(n + 1)
  {
  }

  /** A tried entry is created, taken out of the new count and entered in its slot. */
  lemma {:induction false} LoadTriedOneInv(h: Hasher, z: State, loose: set<nat>, c: Core)
    requires InvBut(h, z, loose, {}) && z.nIdCount !in loose && z.nIdCount !in z.inTried
    requires c.addr.ip !in z.mapAddr && TriedSlot(h, c.addr) !in z.triedTable
    ensures InvBut(h, LoadTriedOne(h, z, c), loose, {})
  {
    hide InvBut, TriedSlot;
    var id, k := z.nIdCount, TriedSlot(h, c.addr);
    CreatedInv(h, z, loose, c);
    var w := Created(z, c);
    LimboInv(h, w, loose + {id}, {}, id);
    assert {} + {id} == {id};
    var v := w.(nNew := w.nNew - 1);
    TriedInInv(h, v, loose + {id}, k, id);
    assert loose + {id} - {id} == loose;
    assert TriedIn(v, k, id) == LoadTriedOne(h, z, c);
  }

  lemma {:induction false} LoadTriedInv(h: Hasher, z: State, records: seq<Record>, tried: seq<Record>)
    requires Holds(h, z, records, |records|) && InvBut(h, z, Below(|records|), {})
    requires DistinctIps(records + tried) && DistinctSlots(h, tried)
    ensures Holds(h, LoadTried(h, z, tried), records + tried, |records|)
    ensures InvBut(h, LoadTried(h, z, tried), Below(|records|), {})
  {
    hide InvBut, TriedSlot;
    if tried == [] {
      assert records + tried == records;
    } else {
      var n := |tried| - 1;
      var start, r := tried[..n], tried[n];
      assert start + [r] == tried && records + start + [r] == records + tried && (records + start)[|records|..] == start;
      StartDistinct(records + start, [r]);
      LoadTriedInv(h, z, records, start);
      var y := LoadTried(h, z, start);
      UnknownIp(h, y, records + start, |records|, Below(|records|), r);
      FreeSlot(h, y, records + start, |records|, Below(|records|), r);
      LoadTriedOneInv(h, y, Below(|records|), Read(r));
      HoldsTried(h, y, records + start, |records|, r);
    }
  }

  // ---------- Where the new entries go ----------

  /** What one bucket lists. */
  lemma {:induction false} BucketListHas(t: map<Slot, nat>, ids: seq<nat>, bucket: nat, i: nat, n: int)
    requires i <= BUCKET_SIZE
    ensures n in BucketList(t, ids, bucket, i)
      <==> exists j: nat | i <= j < BUCKET_SIZE :: Slot(bucket, j) in t && IndexOf(ids, t[Slot(bucket, j)]) == n
    decreases BUCKET_SIZE - i
  {
    hide IndexOf;
    if i < BUCKET_SIZE {
      BucketListHas(t, ids, bucket, i + 1, n);
    }
  }

  lemma {:induction false} LastBucketIs(buckets: seq<seq<int>>, nNew: nat, n: nat)
    requires n < nNew
    ensures n in LastBucket(buckets, nNew) <==> exists b | 0 <= b < |buckets| :: n in buckets[b]
    ensures n in LastBucket(buckets, nNew) ==>
      var b := LastBucket(buckets, nNew)[n];
      b < |buckets| && n in buckets[b] && forall c | b < c < |buckets| :: n !in buckets[c]
  {
    if buckets != [] {
      var b := |buckets| - 1;
      LastBucketIs(buckets[..b], nNew, n);
      assert forall c | 0 <= c < b :: buckets[..b][c] == buckets[c];
    }
  }

  lemma {:induction false} LastBucketRange(buckets: seq<seq<int>>, nNew: nat)
    ensures forall i | i in LastBucket(buckets, nNew) :: LastBucket(buckets, nNew)[i] < |buckets|
  {
    if buckets != [] { LastBucketRange(buckets[..|buckets| - 1], nNew); }
  }

  /** The slot an entry comes back to: the one in the last bucket that refers to it. */
  ghost predicate HighestSlot(t: map<Slot, nat>, id: nat, x: Slot) {
    x in t && t[x] == id && forall y | y in t && t[y] == id :: y.bucket <= x.bucket
  }

  ghost predicate Ascending(ids: seq<nat>) { forall i, j | 0 <= i < j < |ids| :: ids[i] < ids[j] }

  /** The table refers to all of `ids`, and only to them, each from slots of its own. */
  ghost predicate Fits(h: Hasher, cores: map<nat, Core>, t: map<Slot, nat>, ids: seq<nat>) {
    && Ascending(ids) && (forall id | id in ids :: id in cores && id in t.Values)
    && forall x | x in t :: t[x] in ids && x.bucket < NEW_BUCKET_COUNT && x == NewSlot(h, cores[t[x]].addr, x.bucket)
  }

  function Recorded(lastBucket: map<int, nat>, n: nat): nat {
    if n in lastBucket then lastBucket[n] else 0
  }

  lemma {:induction false} Distinct(ids: seq<nat>, n: nat, id: nat)
    requires Ascending(ids) && n < |ids| && id in ids
    ensures IndexOf(ids, id) == n <==> id == ids[n]
  {
  }

  /** Bucket b lists entry n just if some slot of the bucket refers to it. */
  lemma {:induction false} BucketMeans(h: Hasher, cores: map<nat, Core>, t: map<Slot, nat>, ids: seq<nat>, b: nat,
          n: nat)
    requires Fits(h, cores, t, ids) && n < |ids| && b < NEW_BUCKET_COUNT && ids[n] in cores
    ensures n in Buckets(t, ids)[b] <==> NewSlot(h, cores[ids[n]].addr, b) in t && t[NewSlot(h, cores[ids[n]].addr, b)] == ids[n]
  {
    hide NewSlot, IndexOf, BucketList, Fits;
    var x := NewSlot(h, cores[ids[n]].addr, b);
    SlotHere(h, cores[ids[n]].addr, b);
    BucketListHas(t, ids, b, 0, n);
    if n in Buckets(t, ids)[b] {
      var j: nat :| j < BUCKET_SIZE && Slot(b, j) in t && IndexOf(ids, t[Slot(b, j)]) == n;
      HolderMeans(h, cores, t, ids, Slot(b, j), n);
    }
    if x in t && t[x] == ids[n] {
      HolderMeans(h, cores, t, ids, x, n);
    }
  }

  /** A holder is the n-th entry just if its index is n, and then the slot is its own. */
  lemma {:induction false} HolderMeans(h: Hasher, cores: map<nat, Core>, t: map<Slot, nat>, ids: seq<nat>, x: Slot,
          n: nat)
    requires Fits(h, cores, t, ids) && n < |ids| && x in t && ids[n] in cores
    ensures IndexOf(ids, t[x]) == n <==> t[x] == ids[n]
    ensures t[x] == ids[n] ==> x == NewSlot(h, cores[ids[n]].addr, x.bucket)
  {
    hide NewSlot, IndexOf;
    Distinct(ids, n, t[x]);
  }

  lemma {:induction false} HomeIsHighest(h: Hasher, cores: map<nat, Core>, t: map<Slot, nat>, ids: seq<nat>, n: nat)
    requires Fits(h, cores, t, ids) && n < |ids| && ids[n] in cores
    ensures var b := Recorded(LastBucket(Buckets(t, ids), |ids|), n);
      b < NEW_BUCKET_COUNT && HighestSlot(t, ids[n], NewSlot(h, cores[ids[n]].addr, b))
  {
    hide NewSlot, Buckets, LastBucket;
    var id, buckets := ids[n], Buckets(t, ids);
    BucketCount(t, ids);
    assert id in t.Values;
    var x :| x in t && t[x] == id;
    LastBucketIs(buckets, |ids|, n);
    forall y | y in t && t[y] == id
      ensures y.bucket < NEW_BUCKET_COUNT && n in buckets[y.bucket]
    {
      BucketMeans(h, cores, t, ids, y.bucket, n);
    }
    assert n in buckets[x.bucket];
    BucketMeans(h, cores, t, ids, LastBucket(buckets, |ids|)[n], n);
    SlotHere(h, cores[id].addr, LastBucket(buckets, |ids|)[n]);
  }

  lemma {:induction false} BucketCount(t: map<Slot, nat>, ids: seq<nat>)
    ensures |Buckets(t, ids)| == NEW_BUCKET_COUNT
  {
  }

  lemma {:induction false} SlotHere(h: Hasher, a: Addr, b: nat)
    ensures NewSlot(h, a, b) == Slot(b, NewSlot(h, a, b).index) && NewSlot(h, a, b).index < BUCKET_SIZE
  {
  }

  // ---------- The round trip ----------

  lemma {:induction false} NewFits(h: Hasher, cores: map<nat, Core>, inTried: set<nat>, refs: map<nat, int>,
          newTable: map<Slot, nat>)
    requires NewOk(h, cores, inTried, refs, newTable, {})
    ensures Fits(h, cores, newTable, Sorted(cores.Keys - inTried))
  {
    hide NewSlot, Sorted;
    NewValues(h, cores, inTried, refs, newTable);
    forall x | x in newTable ensures newTable[x] in cores.Keys - inTried {
    }
  }

  lemma {:induction false} InvIps(cores: map<nat, Core>, mapAddr: map<nat, nat>, a: seq<nat>, b: seq<nat>)
    requires AddrOk(cores, mapAddr) && Ascending(a) && Ascending(b)
    requires forall id | id in a :: id in cores && id !in b
    requires forall id | id in b :: id in cores
    ensures DistinctIps(Records(cores, a) + Records(cores, b))
  {
    var r := Records(cores, a) + Records(cores, b);
    forall i, j | 0 <= i < j < |r| ensures r[i].addr.ip != r[j].addr.ip {
      var x := if i < |a| then a[i] else b[i - |a|];
      var y := if j < |a| then a[j] else b[j - |a|];
      assert r[i] == Persist(cores[x]) && r[j] == Persist(cores[y]) && x != y;
      assert mapAddr[cores[x].addr.ip] == x && mapAddr[cores[y].addr.ip] == y;
    }
  }

  lemma {:induction false} InvSlots(h: Hasher, cores: map<nat, Core>, inTried: set<nat>, tried: map<Slot, nat>,
          b: seq<nat>)
    requires TriedOk(h, cores, inTried, tried) && Ascending(b) && forall id | id in b :: id in cores && id in inTried
    ensures DistinctSlots(h, Records(cores, b))
  {
    hide TriedSlot;
    var r := Records(cores, b);
    forall i, j | 0 <= i < j < |r| ensures TriedSlot(h, r[i].addr) != TriedSlot(h, r[j].addr) {
      assert b[i] != b[j] && r[i] == Persist(cores[b[i]]) && r[j] == Persist(cores[b[j]]);
      assert tried[TriedSlot(h, cores[b[i]].addr)] == b[i] && tried[TriedSlot(h, cores[b[j]].addr)] == b[j];
    }
  }

  /** After n entries are placed, the new table has just these, each in its home slot. */
  ghost predicate PlacedTo(h: Hasher, y: State, cores: map<nat, Core>, ids: seq<nat>, last: map<int, nat>, n: nat)
    requires n <= |ids| && forall id | id in ids :: id in cores
  {
    && (forall x | x in y.newTable ::
         y.newTable[x] < n && x == NewSlot(h, cores[ids[y.newTable[x]]].addr, Recorded(last, y.newTable[x])))
    && (forall i | 0 <= i < n ::
         var x := NewSlot(h, cores[ids[i]].addr, Recorded(last, i)); x in y.newTable && y.newTable[x] == i)
    && (forall i: nat | n <= i < |ids| :: i in y.refs && y.refs[i] == 0)
  }

  lemma {:induction false} HomeIsFree(h: Hasher, y: State, cores: map<nat, Core>, t: map<Slot, nat>, ids: seq<nat>,
          n: nat)
    requires Fits(h, cores, t, ids) && n < |ids|
    requires PlacedTo(h, y, cores, ids, LastBucket(Buckets(t, ids), |ids|), n)
    ensures NewSlot(h, cores[ids[n]].addr, Recorded(LastBucket(Buckets(t, ids), |ids|), n)) !in y.newTable
  {
    hide NewSlot, Buckets, LastBucket, Recorded;
    var last := LastBucket(Buckets(t, ids), |ids|);
    HomeIsHighest(h, cores, t, ids, n);
    forall x | x in y.newTable ensures x != NewSlot(h, cores[ids[n]].addr, Recorded(last, n)) {
      var i := y.newTable[x];
      HomeIsHighest(h, cores, t, ids, i);
      assert t[x] == ids[i];
    }
  }

  lemma {:induction false} PlacedNext(h: Hasher, y: State, cores: map<nat, Core>, ids: seq<nat>, last: map<int, nat>,
          n: nat)
    requires n < |ids| && (forall id | id in ids :: id in cores) && PlacedTo(h, y, cores, ids, last, n)
    requires n in y.refs && NewSlot(h, cores[ids[n]].addr, Recorded(last, n)) !in y.newTable
    ensures PlacedTo(h, Taken(y, NewSlot(h, cores[ids[n]].addr, Recorded(last, n)), n), cores, ids, last, n + 1)
  {
    hide NewSlot, Recorded;
  }

  lemma {:induction false} HoldsAt(h: Hasher, z: State, records: seq<Record>, first: nat, i: nat)
    requires Holds(h, z, records, first) && i < first
    ensures i < |records| && i in z.cores && i in z.refs && z.cores[i] == Read(records[i]) && i !in z.inTried
  {
    assert i in z.cores.Keys;
  }

  lemma {:induction false} PlacedStart(h: Hasher, z: State, records: seq<Record>, cores: map<nat, Core>,
          ids: seq<nat>, last: map<int, nat>)
    requires Holds(h, z, records, |ids|) && InvBut(h, z, Below(|ids|), {}) && forall id | id in ids :: id in cores
    ensures PlacedTo(h, z, cores, ids, last, 0)
  {
    hide InvBut;
    NoRefs(h, z, records, |ids|);
  }

  lemma {:induction false} PlaceStep(h: Hasher, y: State, cores: map<nat, Core>, t: map<Slot, nat>, ids: seq<nat>,
          n: nat)
    requires Fits(h, cores, t, ids) && n < |ids|
      && n in y.cores && n in y.refs && n !in y.inTried && y.cores[n].addr == cores[ids[n]].addr
    requires InvBut(h, y, Below(|ids|) - Below(n), {})
    requires PlacedTo(h, y, cores, ids, LastBucket(Buckets(t, ids), |ids|), n)
    ensures var last := LastBucket(Buckets(t, ids), |ids|);
      var w := PlaceOne(h, y, last, true, n);
      PlacedTo(h, w, cores, ids, last, n + 1) && InvBut(h, w, Below(|ids|) - Below(n + 1), {})
  {
    hide InvBut, Buckets, LastBucket, Recorded, NewSlot, PlacedTo, DefaultNewSlot, Below, Taken;
    var last := LastBucket(Buckets(t, ids), |ids|);
    var x := NewSlot(h, cores[ids[n]].addr, Recorded(last, n));
    HomeIsFree(h, y, cores, t, ids, n);
    HomeIsHighest(h, cores, t, ids, n);
    SlotHere(h, cores[ids[n]].addr, Recorded(last, n));
    NextUnplaced(h, y, cores, ids, last, n);
    PlacedNext(h, y, cores, ids, last, n);
    TakenInv(h, y, Below(|ids|) - Below(n), {}, x, n);
    OneLess(|ids|, n);
  }

  lemma {:induction false} OneLess(m: nat, n: nat)
    ensures Below(m) - Below(n) - {n} == Below(m) - Below(n + 1)
  {
  }

  /** The first n entries are in their home slots, and nothing else is loose. */
  ghost predicate PlacedSoFar(h: Hasher, z: State, cores: map<nat, Core>, t: map<Slot, nat>, ids: seq<nat>, n: nat) {
    && n <= |ids| && (forall id | id in ids :: id in cores) && (forall i: nat | i < n :: i in z.cores && i in z.refs)
    && var last := LastBucket(Buckets(t, ids), |ids|);
       var y := Place(h, z, last, true, n);
       PlacedTo(h, y, cores, ids, last, n) && InvBut(h, y, Below(|ids|) - Below(n), {})
  }

  lemma {:induction false} PlaceInv(h: Hasher, z: State, records: seq<Record>, cores: map<nat, Core>,
          t: map<Slot, nat>, ids: seq<nat>, n: nat)
    requires n <= |ids| && (forall id | id in ids :: id in cores)
    requires forall i | 0 <= i < |ids| && i < |records| :: records[i] == Persist(cores[ids[i]])
    requires Fits(h, cores, t, ids) && Holds(h, z, records, |ids|) && InvBut(h, z, Below(|ids|), {})
    ensures PlacedSoFar(h, z, cores, t, ids, n)
  {
    hide InvBut, Buckets, LastBucket, PlacedTo, PlaceOne, Holds, Below, Fits;
    var last := LastBucket(Buckets(t, ids), |ids|);
    forall i: nat | i < n ensures i in z.cores && i in z.refs {
      HoldsAt(h, z, records, |ids|, i);
    }
    if n == 0 {
      PlacedStart(h, z, records, cores, ids, last);
      assert Below(|ids|) - Below(0) == Below(|ids|) by { BelowNone(); }
    } else {
      PlaceInv(h, z, records, cores, t, ids, n - 1);
      HoldsAt(h, z, records, |ids|, n - 1);
      PlaceStep(h, Place(h, z, last, true, n - 1), cores, t, ids, n - 1);
    }
  }

  lemma {:induction false} BelowNone()
    ensures Below(0) == {}
  {
  }

  lemma {:induction false} NextUnplaced(h: Hasher, y: State, cores: map<nat, Core>, ids: seq<nat>,
          last: map<int, nat>, n: nat)
    requires n < |ids| && (forall id | id in ids :: id in cores) && PlacedTo(h, y, cores, ids, last, n)
    ensures n in y.refs && y.refs[n] == 0
  {
  }

  lemma {:induction false} NoRefs(h: Hasher, z: State, records: seq<Record>, first: nat)
    requires Holds(h, z, records, first) && InvBut(h, z, Below(first), {})
    ensures forall i: nat | i < |records| :: i in z.refs && z.refs[i] == 0
  {
    hide AddrOk, IdsOk, RandomOk, TriedOk, CountOk, NewSlot;
    forall i: nat | i < |records| ensures i in z.refs && z.refs[i] == 0 {
      assert i in z.cores.Keys;
      assert SlotsOf(z.newTable, i) == {};
    }
  }

  lemma {:induction false} PruneNothing(s: State, todo: set<nat>)
    requires Listed(s) && todo <= s.cores.Keys && forall id | id in todo :: id in s.inTried || s.refs[id] != 0
    ensures Prune(s, todo) == s
    decreases |todo|
  {
    hide Listed;
    if todo != {} {
      PruneNothing(s, todo - {Least(todo)});
    }
  }

  lemma {:induction false} StartDistinct(a: seq<Record>, b: seq<Record>)
    requires DistinctIps(a + b)
    ensures DistinctIps(a)
  {
    forall i, j | 0 <= i < j < |a| ensures a[i].addr.ip != a[j].addr.ip {
      assert (a + b)[i] == a[i] && (a + b)[j] == a[j];
    }
  }

  /** What Serialize writes can be loaded without loss. */
  lemma {:induction false} WrittenIsGood(h: Hasher, s: State)
    requires Inv(h, s)
    ensures var a, b := Records(s.cores, NewIds(s)), Records(s.cores, TriedIdsOf(s));
      && DistinctIps(a + b) && DistinctSlots(h, b)
      && Fits(h, s.cores, s.newTable, NewIds(s))
  {
    hide AddrOk, IdsOk, RandomOk, TriedOk, NewOk, CountOk, Records, Sorted, Fits, DistinctIps, DistinctSlots;
    InvIps(s.cores, s.mapAddr, NewIds(s), TriedIdsOf(s));
    InvSlots(h, s.cores, s.inTried, s.triedTable, TriedIdsOf(s));
    NewFits(h, s.cores, s.inTried, s.refs, s.newTable);
  }

  /** Nothing is lost on the way. */
  lemma {:induction false} LoadedIs(h: Hasher, s: State, asmap: nat) returns (z: State)
    requires Inv(h, s)
    ensures Holds(h, z, Records(s.cores, NewIds(s)) + Records(s.cores, TriedIdsOf(s)), |NewIds(s)|)
    ensures var l := Loaded(h, Written(s, asmap), asmap);
      && Inv(h, l) && l == z.(refs := l.refs, newTable := l.newTable)
      && Fits(h, s.cores, s.newTable, NewIds(s))
      && PlacedTo(h, l, s.cores, NewIds(s), LastBucket(Buckets(s.newTable, NewIds(s)), |NewIds(s)|), |NewIds(s)|)
  {
    hide InvBut, Holds, PlacedTo, Records, Sorted, Buckets, LastBucket, Below, DistinctIps, DistinctSlots, Fits;
    WrittenIsGood(h, s);
    var ids := NewIds(s);
    var a, b := Records(s.cores, ids), Records(s.cores, TriedIdsOf(s));
    StartDistinct(a, b);
    LoadNewInv(h, a);
    LoadTriedInv(h, LoadNew(a), a, b);
    z := LoadTried(h, LoadNew(a), b);
    Recording(s.cores, ids, b);
    LoadNewGrowing(a);
    LoadTriedGrowing(h, LoadNew(a), b);
    BucketCount(s.newTable, ids);
    PlaceInv(h, z, a + b, s.cores, s.newTable, ids, |ids|);
    var l := Place(h, z, LastBucket(Buckets(s.newTable, ids), |ids|), true, |ids|);
    assert Below(|ids|) - Below(|ids|) == {};
    NothingToPrune(h, l);
  }

  lemma {:induction false} Recording(cores: map<nat, Core>, ids: seq<nat>, b: seq<Record>)
    requires forall id | id in ids :: id in cores
    ensures var r := Records(cores, ids) + b;
      forall i | 0 <= i < |ids| && i < |r| :: r[i] == Persist(cores[ids[i]])
  {
  }

  lemma {:induction false} NothingToPrune(h: Hasher, l: State)
    requires Inv(h, l) && Listed(l)
    ensures Prune(l, l.cores.Keys) == l
  {
    assert forall id | id in l.cores :: id in l.inTried || l.refs[id] != 0 by {
      hide AddrOk, IdsOk, RandomOk, TriedOk, CountOk, NewSlot;
    }
    hide InvBut, Listed;
    PruneNothing(l, l.cores.Keys);
  }

  /** Every tried entry is back in its slot. */
  ghost predicate TriedRestored(s: State, l: State) {
    && l.triedTable.Keys == s.triedTable.Keys
    && forall k | k in s.triedTable && k in l.triedTable ::
         && s.triedTable[k] in s.cores && l.triedTable[k] in l.cores
         && Restores(s.cores[s.triedTable[k]], l.cores[l.triedTable[k]])
  }

  /** Entry `id` of s is back with one reference, from slot x, the last it had. */
  ghost predicate Returned(s: State, l: State, id: nat, x: Slot) {
    && id in s.cores && HighestSlot(s.newTable, id, x)
    && x in l.newTable && l.newTable[x] in l.cores && Restores(s.cores[id], l.cores[l.newTable[x]])
    && SlotsOf(l.newTable, l.newTable[x]) == {x}
  }

  lemma {:induction false} RecordAt(cores: map<nat, Core>, a: seq<nat>, b: seq<nat>, i: nat)
    requires (forall id | id in a :: id in cores) && (forall id | id in b :: id in cores) && i < |a| + |b|
    ensures (Records(cores, a) + Records(cores, b))[i] == Persist(cores[(a + b)[i]])
  {
  }

  /** Entry i of the loaded manager is entry ids[i] of the written one. */
  ghost predicate Carries(s: State, l: State) {
    && var a, b := NewIds(s), TriedIdsOf(s);
       forall i: nat | i < |a| + |b| ::
         && i in l.cores && (a + b)[i] in s.cores && l.cores[i] == Read(Persist(s.cores[(a + b)[i]]))
         && (i in l.inTried <==> |a| <= i)
  }

  lemma {:induction false} LoadedCarries(h: Hasher, s: State, z: State)
    requires Holds(h, z, Records(s.cores, NewIds(s)) + Records(s.cores, TriedIdsOf(s)), |NewIds(s)|)
    ensures Carries(s, z) && forall i | i in z.inTried :: i < |NewIds(s)| + |TriedIdsOf(s)|
  {
    hide Sorted, Records;
    var a, b := NewIds(s), TriedIdsOf(s);
    forall i: nat | i < |a| + |b|
      ensures i in z.cores && (a + b)[i] in s.cores && z.cores[i] == Read(Persist(s.cores[(a + b)[i]]))
    {
      RecordAt(s.cores, a, b, i);
      assert i in z.cores.Keys;
    }
  }

  lemma {:induction false} TriedBack(h: Hasher, s: State, l: State, k: Slot)
    requires TriedOk(h, s.cores, s.inTried, s.triedTable) && TriedOk(h, l.cores, l.inTried, l.triedTable)
    requires Carries(s, l) && k in s.triedTable
    ensures k in l.triedTable && l.triedTable[k] in l.cores && s.triedTable[k] in s.cores
    ensures l.cores[l.triedTable[k]] == Read(Persist(s.cores[s.triedTable[k]]))
  {
    hide Sorted, TriedSlot;
    var a, b := NewIds(s), TriedIdsOf(s);
    var id := s.triedTable[k];
    assert id in s.cores.Keys * s.inTried;
    var j :| 0 <= j < |b| && b[j] == id;
    assert (a + b)[|a| + j] == id;
    assert |a| + j in l.inTried;
  }

  lemma {:induction false} TriedFrom(h: Hasher, s: State, l: State, k: Slot)
    requires TriedOk(h, s.cores, s.inTried, s.triedTable) && TriedOk(h, l.cores, l.inTried, l.triedTable)
    requires Carries(s, l) && k in l.triedTable && l.triedTable[k] < |NewIds(s)| + |TriedIdsOf(s)|
    ensures k in s.triedTable
  {
    hide Sorted, TriedSlot;
    var a, b := NewIds(s), TriedIdsOf(s);
    var i := l.triedTable[k];
    assert i in l.inTried;
    assert (a + b)[i] == b[i - |a|] && b[i - |a|] in s.cores.Keys * s.inTried;
  }

  lemma {:induction false} AllTriedBack(h: Hasher, s: State, l: State)
    requires TriedOk(h, s.cores, s.inTried, s.triedTable) && TriedOk(h, l.cores, l.inTried, l.triedTable)
    requires Carries(s, l) && forall i | i in l.inTried :: i < |NewIds(s)| + |TriedIdsOf(s)|
    ensures TriedRestored(s, l)
  {
    hide TriedOk, Carries, NewIds, TriedIdsOf;
    forall k | k in l.triedTable ensures l.triedTable[k] in l.inTried {
      TriedLeave(h, l.cores, l.inTried, l.triedTable, k);
    }
    forall k | k in s.triedTable
      ensures k in l.triedTable && l.triedTable[k] in l.cores && s.triedTable[k] in s.cores
      ensures l.cores[l.triedTable[k]] == Read(Persist(s.cores[s.triedTable[k]]))
    {
      TriedBack(h, s, l, k);
    }
    forall k | k in l.triedTable ensures k in s.triedTable {
      TriedFrom(h, s, l, k);
    }
  }

  lemma {:induction false} NewBack(h: Hasher, s: State, l: State, id: nat) returns (x: Slot)
    requires Carries(s, l) && Fits(h, s.cores, s.newTable, NewIds(s))
    requires PlacedTo(h, l, s.cores, NewIds(s), LastBucket(Buckets(s.newTable, NewIds(s)), |NewIds(s)|), |NewIds(s)|)
    requires id in s.cores && id !in s.inTried
    ensures Returned(s, l, id, x)
  {
    hide Sorted, NewSlot, LastBucket, Buckets, Recorded, Fits, HighestSlot;
    var ids := NewIds(s);
    assert id in s.cores.Keys - s.inTried;
    var n :| 0 <= n < |ids| && ids[n] == id;
    x := NewSlot(h, s.cores[id].addr, Recorded(LastBucket(Buckets(s.newTable, ids), |ids|), n));
    HomeIsHighest(h, s.cores, s.newTable, ids, n);
    assert (ids + TriedIdsOf(s))[n] == id;
    assert x in l.newTable && l.newTable[x] == n;
    OnlySlot(h, l, s.cores, ids, LastBucket(Buckets(s.newTable, ids), |ids|), n);
  }

  lemma {:induction false} OnlySlot(h: Hasher, l: State, cores: map<nat, Core>, ids: seq<nat>, last: map<int, nat>,
          n: nat)
    requires n < |ids| && (forall id | id in ids :: id in cores) && PlacedTo(h, l, cores, ids, last, |ids|)
    ensures SlotsOf(l.newTable, n) == {NewSlot(h, cores[ids[n]].addr, Recorded(last, n))}
  {
    hide NewSlot, Recorded;
  }

  lemma {:induction false} CountsBack(h: Hasher, s: State)
    requires Inv(h, s)
    ensures s.nNew == |NewIds(s)| && s.nTried == |TriedIdsOf(s)|
  {
    hide AddrOk, IdsOk, RandomOk, TriedOk, NewOk, Sorted;
    TriedAreEntries(h, s.cores, s.inTried, s.triedTable);
    assert s.cores.Keys * s.inTried == s.inTried;
    assert s.cores.Keys - s.inTried - {} == s.cores.Keys - s.inTried;
  }

  /** Serialize, then Unserialize under the same asmap: no entry is lost, every tried entry
      returns to its slot and every new entry to one slot of its own. */
  lemma {:induction false} ReloadKeepsEntries(h: Hasher, s: State, asmap: nat)
    requires Inv(h, s)
    ensures var l := Loaded(h, Written(s, asmap), asmap);
      && Inv(h, l) && l.nNew == s.nNew && l.nTried == s.nTried && TriedRestored(s, l)
      && (TimesRight(TablesOf(s)) ==> TimesRight(TablesOf(l)))
      && forall id | id in s.cores && id !in s.inTried :: exists x :: Returned(s, l, id, x)
  {
    hide InvBut, Holds, PlacedTo, Records, Sorted, Buckets, LastBucket, Fits, TriedRestored, Returned, Written,
         Loaded, TimesRight;
    var z := LoadedIs(h, s, asmap);
    var l := Loaded(h, Written(s, asmap), asmap);
    CountsBack(h, s);
    HoldsCounts(h, z, Records(s.cores, NewIds(s)) + Records(s.cores, TriedIdsOf(s)), |NewIds(s)|);
    InvTried(h, s);
    InvTried(h, l);
    LoadedCarries(h, s, z);
    assert Carries(s, l);
    hide Carries;
    AllTriedBack(h, s, l);
    TimesBack(h, s, l, z);
    forall id | id in s.cores && id !in s.inTried ensures exists x :: Returned(s, l, id, x) {
      var x := NewBack(h, s, l, id);
    }
  }

  lemma {:induction false} TimesBack(h: Hasher, s: State, l: State, z: State)
    requires Holds(h, z, Records(s.cores, NewIds(s)) + Records(s.cores, TriedIdsOf(s)), |NewIds(s)|)
    requires l.cores == z.cores && Carries(s, l) && TriedRestored(s, l)
    ensures TimesRight(TablesOf(s)) ==> TimesRight(TablesOf(l))
  {
    hide Sorted, Records, NewIds, TriedIdsOf;
    var n := |NewIds(s)| + |TriedIdsOf(s)|;
    forall id | id in l.cores ensures id < n {
      assert id in z.cores.Keys;
    }
  }

  lemma {:induction false} HoldsCounts(h: Hasher, z: State, records: seq<Record>, first: nat)
    requires Holds(h, z, records, first)
    ensures z.nNew == first && z.nTried == |records| - first
  {
  }

  lemma {:induction false} InvTried(h: Hasher, s: State)
    requires Inv(h, s)
    ensures TriedOk(h, s.cores, s.inTried, s.triedTable)
  {
    hide AddrOk, IdsOk, RandomOk, NewOk, CountOk, TriedOk;
  }
}
