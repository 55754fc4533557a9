/** Serialize and Unserialize of src/addrman.h as loops over the manager's structures. */
module AddrManDisk {
  import opened AddrManModel
  import opened AddrManSteps
  import opened AddrManFile
  import opened AddrMan

  // ---------- Writing ----------

  /** An ascending list of just the elements. */
  ghost predicate Lists(ids: seq<nat>, all: set<nat>) {
    Ascending(ids) && (forall id | id in ids :: id in all) && (forall id | id in all :: id in ids)
  }

  /** There is only one. */
  lemma {:induction false} ListsSame(a: seq<nat>, b: seq<nat>, all: set<nat>)
    requires Lists(a, all) && Lists(b, all)
    ensures a == b
  {
    hide Lists;
    ListsNone(a, all);
    ListsNone(b, all);
    if a != [] {
      TailMembers(a, all);
      TailMembers(b, all);
      ListsSame(a[1..], b[1..], all - {a[0]});
      assert a == [a[0]] + a[1..] && b == [b[0]] + b[1..];
    }
  }

  lemma {:induction false} ListsNone(ids: seq<nat>, all: set<nat>)
    requires Lists(ids, all)
    ensures ids == [] <==> all == {}
  {
    if ids != [] { assert ids[0] in all; }
  }

  lemma {:induction false} TailMembers(ids: seq<nat>, all: set<nat>)
    requires ids != [] && Lists(ids, all)
    ensures Lists(ids[1..], all - {ids[0]}) && ids[0] in all && forall x | x in all :: ids[0] <= x
  {
    forall id | id in all - {ids[0]} ensures id in ids[1..] {
      var i :| 0 <= i < |ids| && ids[i] == id;
      assert ids[1..][i - 1] == id;
    }
  }

  /** The chosen ids among those visited so far, and their records. */
  ghost predicate ListedSoFar(cores: map<nat, Core>, ids: seq<nat>, records: seq<Record>, chosen: set<nat>,
          todo: set<nat>) {
    && Ascending(ids) && |records| == |ids|
    && (forall id | id in ids :: id in cores && id in chosen && id !in todo)
    && (forall id | id in chosen && id !in todo :: id in ids)
    && (forall i | 0 <= i < |ids| :: records[i] == Persist(cores[ids[i]]))
    && (forall id, x | id in ids && x in todo :: id < x)
  }

  lemma {:induction false} ListingNext(cores: map<nat, Core>, ids: seq<nat>, records: seq<Record>, chosen: set<nat>,
          todo: set<nat>, id: nat)
    requires ListedSoFar(cores, ids, records, chosen, todo) && id in todo && id in cores && forall x | x in todo :: id <= x
    ensures id in chosen ==> ListedSoFar(cores, ids + [id], records + [Persist(cores[id])], chosen, todo - {id})
    ensures id !in chosen ==> ListedSoFar(cores, ids, records, chosen, todo - {id})
  {
  }

  lemma {:induction false} ListingDone(cores: map<nat, Core>, ids: seq<nat>, records: seq<Record>, chosen: set<nat>)
    requires ListedSoFar(cores, ids, records, chosen, {})
    ensures ids == Sorted(chosen) && records == Records(cores, ids)
  {
    ListsSame(ids, Sorted(chosen), chosen);
  }

  /** mapUnkIds holds the position of every listed id. */
  ghost predicate Indexes(unkIds: map<nat, int>, ids: seq<nat>) {
    forall i | 0 <= i < |ids| :: ids[i] in unkIds && unkIds[ids[i]] == i
  }

  ghost function Chosen(s: State, tried: bool): set<nat> {
    if tried then s.cores.Keys * s.inTried else s.cores.Keys - s.inTried
  }

  ghost function IdsOf(s: State, tried: bool): (ids: seq<nat>)
    ensures forall id | id in ids :: id in s.cores
  {
    if tried then TriedIdsOf(s) else NewIds(s)
  }

  /** The counters count the chosen ids. */
  lemma {:induction false} CountChosen(h: Hasher, s: State, tried: bool)
    requires Inv(h, s)
    ensures IdsOf(s, tried) == Sorted(Chosen(s, tried)) && Chosen(s, tried) <= s.cores.Keys
    ensures |Chosen(s, tried)| == if tried then s.nTried else s.nNew
  {
    hide InvBut;
    CountsBack(h, s);
  }

  /** Serialize chooses an entry by its flag or its references. */
  lemma {:induction false} ChoiceMeans(h: Hasher, s: State, mapInfo: map<nat, Info>, tried: bool, id: nat)
    requires Inv(h, s) && id in mapInfo && s.cores == Cores(mapInfo) && s.refs == Refs(mapInfo) && s.inTried == TriedIds(mapInfo)
    ensures id in s.cores && s.cores[id] == mapInfo[id].core
    ensures id in Chosen(s, tried) <==> if tried then mapInfo[id].fInTried else mapInfo[id].nRefCount != 0
  {
    hide InvBut, Cores, Refs, TriedIds;
    SameInfo(mapInfo, id);
    TriedMeans(h, s, id);
    InvRefs(h, s, id);
  }

  /** One of the two loops over all entries: the records of the new or the tried ones, in ascending
      order of ids, and the index of each.  The counter is never reached before an entry is written. */
  method WriteEntries(m: AddrMan, tried: bool) returns (records: seq<Record>, unkIds: map<nat, int>)
    requires Inv(m.h, m.S())
    ensures records == Records(m.S().cores, IdsOf(m.S(), tried)) && Indexes(unkIds, IdsOf(m.S(), tried))
    ensures |records| == if tried then m.nTried else m.nNew
  {
    hide InvBut, Cores, Refs, TriedIds, Positions, Occupied, ListedSoFar, Records, Sorted, Chosen, IdsOf;
    ghost var s := m.S();
    ghost var chosen := Chosen(s, tried);
    var count := if tried then m.nTried else m.nNew;
    CountChosen(m.h, s, tried);
    records, unkIds := [], map[];
    ghost var ids: seq<nat> := [];
    var todo := m.mapInfo.Keys;
    ListingStart(m.mapInfo, chosen);
    while todo != {}
      invariant todo <= m.mapInfo.Keys && ListedSoFar(s.cores, ids, records, chosen, todo) && |records| == |ids|
      invariant Indexes(unkIds, ids)
      decreases |todo|
    {
      ghost var least := Least(todo);
      var id :| id in todo && forall x | x in todo :: id <= x;
      var info := m.mapInfo[id];
      ChoiceMeans(m.h, s, m.mapInfo, tried, id);
      NotListed(s.cores, ids, records, chosen, todo, id);
      ListingNext(s.cores, ids, records, chosen, todo, id);
      unkIds := unkIds[id := |records|];
      if if tried then info.fInTried else info.nRefCount != 0 {
        ListingFits(s.cores, ids + [id], records + [Persist(info.core)], chosen, todo - {id});
        assert |records| != count;
        records := records + [Persist(info.core)];
        ids := ids + [id];
      }
      todo := todo - {id};
    }
    ListingDone(s.cores, ids, records, chosen);
    ListingMembers(s.cores, ids, records, chosen, {});
  }

  lemma {:induction false} ListingStart(mapInfo: map<nat, Info>, chosen: set<nat>)
    requires chosen <= Cores(mapInfo).Keys
    ensures ListedSoFar(Cores(mapInfo), [], [], chosen, mapInfo.Keys)
  {
  }

  /** No more are listed than there are to list. */
  lemma {:induction false} ListingFits(cores: map<nat, Core>, ids: seq<nat>, records: seq<Record>, chosen: set<nat>,
          todo: set<nat>)
    requires ListedSoFar(cores, ids, records, chosen, todo)
    ensures |ids| <= |chosen|
  {
    AscendingFits(ids, chosen);
  }

  lemma {:induction false} AscendingFits(ids: seq<nat>, chosen: set<nat>)
    requires Ascending(ids) && forall id | id in ids :: id in chosen
    ensures |ids| <= |chosen|
  {
    if ids != [] {
      var n := |ids| - 1;
      forall id | id in ids[..n] ensures id in chosen - {ids[n]} {
        assert id in ids;
      }
      AscendingFits(ids[..n], chosen - {ids[n]});
      assert ids[n] in chosen;
    }
  }

  lemma {:induction false} ListingMembers(cores: map<nat, Core>, ids: seq<nat>, records: seq<Record>,
          chosen: set<nat>, todo: set<nat>)
    requires ListedSoFar(cores, ids, records, chosen, todo)
    ensures forall id | id in ids :: id in cores
  {
  }

  lemma {:induction false} NotListed(cores: map<nat, Core>, ids: seq<nat>, records: seq<Record>, chosen: set<nat>,
          todo: set<nat>, id: nat)
    requires ListedSoFar(cores, ids, records, chosen, todo) && id in todo
    ensures id !in ids
  {
  }

  /** New entries are those with references. */
  lemma {:induction false} InvRefs(h: Hasher, s: State, id: nat)
    requires Inv(h, s) && id in s.cores && id in s.refs
    ensures id in s.inTried ==> s.refs[id] == 0
  {
    hide AddrOk, IdsOk, RandomOk, TriedOk, CountOk, NewSlot;
    if id in s.inTried {
      assert SlotsOf(s.newTable, id) == {};
    }
  }

  method WriteBucket(m: AddrMan, unkIds: map<nat, int>, bucket: nat, ghost ids: seq<nat>) returns (list: seq<int>)
    requires m.Shape() && bucket < NEW_BUCKET_COUNT && Ascending(ids) && Indexes(unkIds, ids)
    requires forall x | x in m.S().newTable :: m.S().newTable[x] in ids
    ensures list == BucketList(m.S().newTable, ids, bucket, 0)
  {
    hide Occupied, IndexOf, BucketList, Cores, Refs, TriedIds, Positions, Ascending, Indexes;
    ghost var t := m.S().newTable;
    list := [];
    BucketEnd(t, ids, bucket);
    assert [] + BucketList(t, ids, bucket, 0) == BucketList(t, ids, bucket, 0);
    var i := 0;
    while i < BUCKET_SIZE
      invariant 0 <= i <= BUCKET_SIZE
      invariant list + BucketList(t, ids, bucket, i) == BucketList(t, ids, bucket, 0)
    {
      SlotAt(m.vvNew, Slot(bucket, i));
      BucketStep(t, ids, bucket, i, list);
      if m.vvNew[bucket, i] != -1 {
        var id := m.vvNew[bucket, i];
        assert id in ids;
        IndexIs(unkIds, ids, id);
        list := list + [unkIds[id]];
      }
      i := i + 1;
    }
    assert list + [] == list;
  }

  lemma {:induction false} BucketEnd(t: map<Slot, nat>, ids: seq<nat>, bucket: nat)
    ensures BucketList(t, ids, bucket, BUCKET_SIZE) == []
  {
  }

  lemma {:induction false} BucketStep(t: map<Slot, nat>, ids: seq<nat>, bucket: nat, i: nat, list: seq<int>)
    requires i < BUCKET_SIZE
    ensures list + BucketList(t, ids, bucket, i)
         == (if Slot(bucket, i) in t then list + [IndexOf(ids, t[Slot(bucket, i)])] else list) + BucketList(t, ids, bucket, i + 1)
  {
    hide IndexOf;
  }

  lemma {:induction false} IndexIs(unkIds: map<nat, int>, ids: seq<nat>, id: nat)
    requires Ascending(ids) && Indexes(unkIds, ids) && id in ids
    ensures id in unkIds && unkIds[id] == IndexOf(ids, id)
  {
    var i :| 0 <= i < |ids| && ids[i] == id;
    Distinct(ids, i, id);
  }

  /** Serialize. */
  method Serialize(m: AddrMan, asmap: nat) returns (f: File)
    requires m.Shape() && Inv(m.h, m.S())
    ensures f == Written(m.S(), asmap)
  {
    hide InvBut, Cores, Refs, TriedIds, Positions, Occupied, Records, NewIds, TriedIdsOf, BucketList, Buckets;
    ghost var s := m.S();
    ghost var ids := NewIds(s);
    var newRecords, unkIds := WriteEntries(m, false);
    var triedRecords, other := WriteEntries(m, true);
    NewTargets(m.h, s);
    var buckets := [];
    while |buckets| < NEW_BUCKET_COUNT
      invariant |buckets| <= NEW_BUCKET_COUNT
      invariant forall b | 0 <= b < |buckets| :: buckets[b] == BucketList(s.newTable, ids, b, 0)
    {
      var list := WriteBucket(m, unkIds, |buckets|, ids);
      buckets := buckets + [list];
    }
    BucketsAre(buckets, s.newTable, ids);
    f := File(FILE_FORMAT, FILE_FORMAT, newRecords, triedRecords, buckets, asmap);
  }

  lemma {:induction false} BucketsAre(buckets: seq<seq<int>>, t: map<Slot, nat>, ids: seq<nat>)
    requires |buckets| == NEW_BUCKET_COUNT && forall b | 0 <= b < |buckets| :: buckets[b] == BucketList(t, ids, b, 0)
    ensures buckets == Buckets(t, ids)
  {
    hide BucketList;
  }

  lemma {:induction false} NewTargets(h: Hasher, s: State)
    requires Inv(h, s)
    ensures Ascending(NewIds(s)) && forall x | x in s.newTable :: s.newTable[x] in NewIds(s)
  {
    hide AddrOk, IdsOk, RandomOk, TriedOk, NewOk, CountOk, NewSlot, Sorted;
    NewFits(h, s.cores, s.inTried, s.refs, s.newTable);
  }

  // ---------- Reading ----------

  method ClearTable(a: array2<Cell>)
    modifies a
    ensures Occupied(a) == map[]
  {
    forall i, j | 0 <= i < a.Length0 && 0 <= j < a.Length1 {
      a[i, j] := -1;
    }
  }

  /** Clear: everything but the pending collisions. */
  method Clear(m: AddrMan)
    requires m.Shape()
    modifies m, m.vvNew, m.vvTried
    ensures m.S() == EMPTY && m.triedCollisions == old(m.triedCollisions)
  {
    hide Occupied;
    m.vRandom := [];
    ClearTable(m.vvNew);
    ClearTable(m.vvTried);
    m.nIdCount, m.nTried, m.nNew, m.nLastGood := 0, 0, 0, 1;
    m.mapInfo, m.mapAddr := map[], map[];
  }

  /** The new entries: ids count from 0. */
  method LoadNewEntries(m: AddrMan, records: seq<Record>)
    requires m.Shape() && m.S() == EMPTY
    modifies m
    ensures m.S() == LoadNew(records) && m.triedCollisions == old(m.triedCollisions)
  {
    hide Occupied, Cores, Refs, TriedIds, Positions, Read;
    m.nNew := |records|;
    assert records[..0] == [];
    var n := 0;
    while n < |records|
      invariant 0 <= n <= |records|
      invariant m.S() == LoadNew(records[..n]).(nIdCount := 0, nNew := |records|) && m.triedCollisions == old(m.triedCollisions)
    {
      assert records[..n + 1][..n] == records[..n];
      LoadNewCounts(records[..n]);
      var c := Read(records[n]);
      NextNew(m.mapInfo, n, records[..n]);
      PutInfo(m.mapInfo, n, Info(c, 0, false, |m.vRandom|));
      m.mapInfo := m.mapInfo[n := Info(c, 0, false, |m.vRandom|)];
      m.mapAddr := m.mapAddr[c.addr.ip := n];
      m.vRandom := m.vRandom + [n];
      n := n + 1;
    }
    assert records[..n] == records;
    LoadNewCounts(records);
    m.nIdCount := m.nNew;
  }

  lemma {:induction false} LoadNewCounts(records: seq<Record>)
    ensures var s := LoadNew(records);
      s.nIdCount == s.nNew == |records| && s.inTried == {} && s.nTried == 0 && s.triedTable == map[] && s.newTable == map[]
  {
    hide Read;
    if records != [] { LoadNewCounts(records[..|records| - 1]); }
  }

  lemma {:induction false} NextNew(mapInfo: map<nat, Info>, n: nat, records: seq<Record>)
    requires TriedIds(mapInfo) == LoadNew(records).inTried
    ensures TriedIds(mapInfo) - {n} == TriedIds(mapInfo)
  {
    LoadNewCounts(records);
  }

  /** A tried entry goes into its slot, unless another one came first.  The count is corrected later. */
  method LoadTriedEntry(m: AddrMan, c: Core) returns (lost: bool)
    requires m.Shape()
    modifies m`mapInfo, m`vRandom, m`mapAddr, m`nIdCount, m.vvTried
    ensures m.S() == LoadTriedOne(m.h, old(m.S()), c).(nTried := m.nTried)
    ensures lost <==> LoadTriedOne(m.h, old(m.S()), c).nTried == m.nTried
    ensures !lost ==> LoadTriedOne(m.h, old(m.S()), c).nTried == m.nTried + 1
  {
    hide Occupied, Cores, Refs, TriedIds, Positions, TriedSlot;
    var k := TriedSlot(m.h, c.addr);
    TriedSlotRange(m.h, c.addr);
    SlotAt(m.vvTried, k);
    lost := m.vvTried[k.bucket, k.index] != -1;
    if !lost {
      var id := m.nIdCount;
      PutInfo(m.mapInfo, id, Info(c, 0, true, |m.vRandom|));
      m.mapInfo := m.mapInfo[id := Info(c, 0, true, |m.vRandom|)];
      m.vRandom := m.vRandom + [id];
      m.mapAddr := m.mapAddr[c.addr.ip := id];
      SetSlot(m.vvTried, k, id);
      m.nIdCount := id + 1;
    }
  }

  lemma {:induction false} CountApart(h: Hasher, s: State, c: Core, n: int)
    ensures LoadTriedOne(h, s.(nTried := n), c).(nTried := n) == LoadTriedOne(h, s, c).(nTried := n)
    ensures LoadTriedOne(h, s.(nTried := n), c).nTried - n == LoadTriedOne(h, s, c).nTried - s.nTried
  {
    hide TriedSlot;
    var a, b := LoadTriedOne(h, s.(nTried := n), c), LoadTriedOne(h, s, c);
    if TriedSlot(h, c.addr) !in s.triedTable {
      assert a == b.(nTried := n + 1);
    }
  }

  method LoadTriedEntries(m: AddrMan, records: seq<Record>)
    requires m.Shape() && m.nTried == 0
    modifies m, m.vvTried
    ensures m.S() == LoadTried(m.h, old(m.S()), records) && m.triedCollisions == old(m.triedCollisions)
  {
    hide Occupied, Cores, Refs, TriedIds, Positions, Read, LoadTriedOne;
    ghost var s := m.S();
    m.nTried := |records|;
    var nLost := 0;
    assert records[..0] == [];
    var n := 0;
    while n < |records|
      invariant 0 <= n <= |records| && m.nTried == |records|
      invariant LoadTried(m.h, s, records[..n]).nTried == n - nLost
      invariant m.S() == LoadTried(m.h, s, records[..n]).(nTried := |records|) && m.triedCollisions == old(m.triedCollisions)
    {
      assert records[..n + 1][..n] == records[..n];
      CountApart(m.h, LoadTried(m.h, s, records[..n]), Read(records[n]), |records|);
      var lost := LoadTriedEntry(m, Read(records[n]));
      if lost { nLost := nLost + 1; }
      n := n + 1;
    }
    assert records[..n] == records;
    m.nTried := m.nTried - nLost;
  }

  method ReadBucket(list: seq<int>, nNew: nat, bucket: nat,
          before: map<int, nat>) returns (entryToBucket: map<int, nat>)
    ensures entryToBucket == before + Listing(list, nNew, bucket)
  {
    hide Listing;
    entryToBucket := before;
    ListingNone(before, nNew, bucket);
    var n := 0;
    while n < |list|
      invariant 0 <= n <= |list| && entryToBucket == before + Listing(list[..n], nNew, bucket)
    {
      var nIndex := list[n];
      ListingWith(before, list[..n], nIndex, nNew, bucket);
      assert list[..n + 1] == list[..n] + [nIndex];
      if 0 <= nIndex < nNew {
        entryToBucket := entryToBucket[nIndex := bucket];
      }
      n := n + 1;
    }
    assert list[..n] == list;
  }

  lemma {:induction false} ListingNone(before: map<int, nat>, nNew: nat, bucket: nat)
    ensures before + Listing([], nNew, bucket) == before
  {
  }

  lemma {:induction false} ListingWith(before: map<int, nat>, list: seq<int>, i: int, nNew: nat, bucket: nat)
    ensures before + Listing(list + [i], nNew, bucket)
         == if 0 <= i < nNew then (before + Listing(list, nNew, bucket))[i := bucket] else before + Listing(list, nNew, bucket)
  {
  }

  /** entryToBucket: later buckets overwrite earlier ones. */
  method ReadBuckets(buckets: seq<seq<int>>, nNew: nat) returns (entryToBucket: map<int, nat>)
    ensures entryToBucket == LastBucket(buckets, nNew)
  {
    hide Listing;
    entryToBucket := map[];
    assert buckets[..0] == [];
    var b := 0;
    while b < |buckets|
      invariant 0 <= b <= |buckets| && entryToBucket == LastBucket(buckets[..b], nNew)
    {
      assert buckets[..b + 1][..b] == buckets[..b];
      entryToBucket := ReadBucket(buckets[b], nNew, b, entryToBucket);
      b := b + 1;
    }
    assert buckets[..b] == buckets;
  }

  /** Give entry n its reference. */
  method PlaceEntry(m: AddrMan, entryToBucket: map<int, nat>, usable: bool, n: nat)
    requires m.Shape() && n in m.mapInfo
    requires usable && n in entryToBucket ==> entryToBucket[n] < NEW_BUCKET_COUNT
    modifies m`mapInfo, m.vvNew
    ensures m.mapInfo.Keys == old(m.mapInfo).Keys
    ensures n in old(m.S()).cores && n in old(m.S()).refs
    ensures m.S() == PlaceOne(m.h, old(m.S()), entryToBucket, usable, n)
  {
    hide Occupied, Cores, Refs, TriedIds, Positions, NewSlot, NewBucket, Taken;
    var info := m.mapInfo[n];
    SameInfo(m.mapInfo, n);
    var bucket := Recorded(entryToBucket, n);
    var x := NewSlot(m.h, info.core.addr, bucket);
    NewSlotRange(m.h, info.core.addr, bucket);
    if usable { SlotAt(m.vvNew, x); }
    if usable && m.vvNew[x.bucket, x.index] == -1 && info.nRefCount < NEW_BUCKETS_PER_ADDRESS {
      m.TakeSlot(x, n);
    } else {
      var own := NewBucket(m.h, info.core.addr, info.core.source);
      var y := NewSlot(m.h, info.core.addr, own);
      NewSlotRange(m.h, info.core.addr, own);
      SlotAt(m.vvNew, y);
      if m.vvNew[y.bucket, y.index] == -1 {
        m.TakeSlot(y, n);
      }
    }
  }

  lemma {:induction false} PlaceNone(h: Hasher, s: State, last: map<int, nat>, usable: bool)
    ensures Place(h, s, last, usable, 0) == s
  {
  }

  lemma {:induction false} PlaceNext(h: Hasher, s: State, last: map<int, nat>, usable: bool, n: nat)
    requires forall i: nat | i <= n :: i in s.cores && i in s.refs
    ensures Place(h, s, last, usable, n + 1) == PlaceOne(h, Place(h, s, last, usable, n), last, usable, n)
  {
    hide PlaceOne;
  }

  /** Give the new entries their references. */
  method PlaceEntries(m: AddrMan, entryToBucket: map<int, nat>, usable: bool, nNew: nat)
    requires m.Shape() && forall i: nat | i < nNew :: i in m.mapInfo
    requires usable ==> forall i | i in entryToBucket :: entryToBucket[i] < NEW_BUCKET_COUNT
    modifies m`mapInfo, m.vvNew
    ensures forall i: nat | i < nNew :: i in old(m.S()).cores && i in old(m.S()).refs
    ensures m.S() == Place(m.h, old(m.S()), entryToBucket, usable, nNew)
  {
    hide Occupied, Cores, Refs, TriedIds, Positions, PlaceOne, Place;
    ghost var s := m.S();
    InfoKeys(m.mapInfo);
    PlaceNone(m.h, s, entryToBucket, usable);
    var n := 0;
    while n < nNew
      invariant 0 <= n <= nNew && m.mapInfo.Keys == old(m.mapInfo).Keys
      invariant m.S() == Place(m.h, s, entryToBucket, usable, n)
    {
      PlaceEntry(m, entryToBucket, usable, n);
      PlaceNext(m.h, s, entryToBucket, usable, n);
      n := n + 1;
    }
  }

  lemma {:induction false} InfoKeys(mapInfo: map<nat, Info>)
    ensures Cores(mapInfo).Keys == Refs(mapInfo).Keys == Positions(mapInfo).Keys == mapInfo.Keys
  {
  }

  /** Delete the entries that got none. */
  method PruneEntries(m: AddrMan)
    requires m.Shape() && Listed(m.S())
    modifies m`mapInfo, m`mapAddr, m`vRandom, m`nNew
    ensures m.S() == Prune(old(m.S()), old(m.S()).cores.Keys)
  {
    hide Occupied, Cores, Refs, TriedIds, Positions, Least, Listed, Deleted, Prune;
    ghost var s := m.S();
    InfoKeys(m.mapInfo);
    var todo := m.mapInfo.Keys;
    while todo != {}
      invariant Listed(m.S()) && todo <= m.mapInfo.Keys && todo <= m.S().cores.Keys
      invariant Prune(m.S(), todo) == Prune(s, s.cores.Keys)
      decreases |todo|
    {
      ghost var least := Least(todo);
      var id :| id in todo && forall x | x in todo :: id <= x;
      ghost var t := m.S();
      SameInfo(m.mapInfo, id);
      ListedRandom(t);
      PruneStep(t, todo, id);
      if !m.mapInfo[id].fInTried && m.mapInfo[id].nRefCount == 0 {
        DeletedListed(t, id);
        m.Delete(id);
        InfoKeys(m.mapInfo);
      }
      todo := todo - {id};
    }
    PruneDone(m.S());
  }

  lemma {:induction false} PruneDone(s: State)
    requires Listed(s)
    ensures Prune(s, {}) == s
  {
  }

  lemma {:induction false} PruneStep(s: State, todo: set<nat>, id: nat)
    requires Listed(s) && todo <= s.cores.Keys && id in todo && forall x | x in todo :: id <= x
    ensures id in s.pos && 0 <= s.pos[id] < |s.vRandom| && id in s.refs
    ensures var t := if id !in s.inTried && s.refs[id] == 0 then Deleted(s, id) else s;
      Listed(t) && todo - {id} <= t.cores.Keys && Prune(s, todo) == Prune(t, todo - {id})
  {
    hide RandomOk, Deleted;
    DeletedListed(s, id);
    assert Least(todo) == id;
  }

  lemma {:induction false} ListedRandom(s: State)
    requires Listed(s)
    ensures RandomOk(s.pos, s.vRandom)
  {
  }

  /** Unserialize: the stream is refused, or its entries replace those of the manager. */
  method Unserialize(m: AddrMan, f: File, asmap: nat) returns (ok: bool)
    requires m.Shape()
    modifies m, m.vvNew, m.vvTried
    ensures ok <==> f.lowestCompatible <= FILE_FORMAT && |f.newRecords| <= NEW_BUCKET_COUNT * BUCKET_SIZE
                    && |f.triedRecords| <= TRIED_BUCKET_COUNT * BUCKET_SIZE
    ensures ok ==> m.S() == Loaded(m.h, f, asmap)
    ensures !ok ==> m.S() == EMPTY.(nNew := m.nNew, nTried := m.nTried)
    ensures !ok ==> (m.nNew, m.nTried) == if f.lowestCompatible > FILE_FORMAT then (0, 0) else (|f.newRecords|, |f.triedRecords|)
    ensures m.triedCollisions == old(m.triedCollisions)
  {
    hide Occupied, Cores, Refs, TriedIds, Positions, LoadNew, LoadTried, LastBucket, Place, Prune, Growing, Listed;
    Clear(m);
    if f.lowestCompatible > FILE_FORMAT { return false; }
    if |f.newRecords| > NEW_BUCKET_COUNT * BUCKET_SIZE || |f.triedRecords| > TRIED_BUCKET_COUNT * BUCKET_SIZE {
      m.nNew, m.nTried := |f.newRecords|, |f.triedRecords|;
      return false;
    }
    var nNew := |f.newRecords|;
    LoadNewEntries(m, f.newRecords);
    LoadNewGrowing(f.newRecords);
    LoadNewCounts(f.newRecords);
    LoadTriedEntries(m, f.triedRecords);
    LoadTriedGrowing(m.h, LoadNew(f.newRecords), f.triedRecords);
    InfoKeys(m.mapInfo);
    var entryToBucket := ReadBuckets(f.buckets, nNew);
    LastBucketRange(f.buckets, nNew);
    PlaceEntries(m, entryToBucket, f.format >= V2_ASMAP && |f.buckets| == NEW_BUCKET_COUNT && f.asmap == asmap, nNew);
    PlacedListed(LoadTried(m.h, LoadNew(f.newRecords), f.triedRecords), m.S());
    PruneEntries(m);
    return true;
  }

  lemma {:induction false} PlacedListed(s: State, t: State)
    requires Growing(s) && t == s.(refs := t.refs, newTable := t.newTable) && t.refs.Keys == s.refs.Keys
    ensures Listed(t)
  {
    hide RandomOk;
  }

  // ---------- Writing and reading back ----------

  /** What a manager writes is not refused. */
  lemma {:induction false} WrittenIsAccepted(h: Hasher, s: State, asmap: nat)
    requires Inv(h, s)
    ensures var f := Written(s, asmap);
      && f.lowestCompatible <= FILE_FORMAT
      && |f.newRecords| <= NEW_BUCKET_COUNT * BUCKET_SIZE && |f.triedRecords| <= TRIED_BUCKET_COUNT * BUCKET_SIZE
  {
    hide InvBut, NewIds, TriedIdsOf, Buckets;
    CountsBack(h, s);
    CountsFit(h, s);
  }

  /** A manager is written and read back, by another manager or itself, under the same key and asmap:
      the stream is accepted and no entry is lost. */
  method Reload(m: AddrMan, into: AddrMan, asmap: nat) returns (ok: bool)
    requires m.Shape() && Inv(m.h, m.S()) && into.Shape() && into.h == m.h
    modifies into, into.vvNew, into.vvTried
    ensures ok && Inv(into.h, into.S()) && into.nNew == old(m.nNew) && into.nTried == old(m.nTried)
    ensures TriedRestored(old(m.S()), into.S())
    ensures forall id | id in old(m.S()).cores && id !in old(m.S()).inTried :: exists x :: Returned(old(m.S()), into.S(), id, x)
    ensures TimesRight(TablesOf(old(m.S()))) ==> TimesRight(TablesOf(into.S()))
  {
    hide InvBut, Occupied, Cores, Refs, TriedIds, Positions, Loaded, Written, TriedRestored, Returned, TimesRight;
    ghost var s := m.S();
    var f := Serialize(m, asmap);
    WrittenIsAccepted(m.h, s, asmap);
    ReloadKeepsEntries(m.h, s, asmap);
    ok := Unserialize(into, f, asmap);
  }
}
