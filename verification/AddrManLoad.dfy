/** Loading any file with distinct network addresses, also one written under another key or asmap: the invariant
    holds, and an entry is dropped only for one that has its slot (Unserialize of src/addrman.h). */
module AddrManLoad {
  import opened AddrManModel
  import opened AddrManSteps
  import opened AddrManFile

  // ---------- The tried entries ----------

  /** The first of the records with this tried slot. */
  ghost predicate FirstWith(h: Hasher, b: seq<Record>, k: Slot, j: nat) {
    && j < |b| && TriedSlot(h, b[j].addr) == k
    && forall i | 0 <= i < j :: TriedSlot(h, b[i].addr) != k
  }

  /** Each tried slot that some record has is held by the first such record, and no other is held. */
  ghost predicate FirstHolds(h: Hasher, cores: map<nat, Core>, tried: map<Slot, nat>, b: seq<Record>) {
    && (forall j | 0 <= j < |b| :: TriedSlot(h, b[j].addr) in tried)
    && (forall k | k in tried :: tried[k] in cores && exists j: nat :: FirstWith(h, b, k, j) && cores[tried[k]] == Read(b[j]))
  }

  /** All addresses in the index are from the records. */
  ghost predicate IpsFrom(mapAddr: map<nat, nat>, records: seq<Record>) {
    forall ip | ip in mapAddr :: exists r :: r in records && r.addr.ip == ip
  }

  /** The entries before `first` are the new records, those from there on are tried. */
  ghost predicate SomeHeld(z: State, a: seq<Record>) {
    && |a| <= z.nIdCount && z.cores.Keys == Below(z.nIdCount) == z.refs.Keys && z.newTable == map[]
    && (forall i | 0 <= i < |a| :: i in z.cores && z.cores[i] == Read(a[i]) && i !in z.inTried)
    && (forall i | i in z.cores && |a| <= i :: i in z.inTried)
  }

  /** z holds the new records a, without references, and of the tried records b the first for each slot. */
  ghost predicate HoldsSome(h: Hasher, z: State, a: seq<Record>, b: seq<Record>) {
    SomeHeld(z, a) && IpsFrom(z.mapAddr, a + b) && FirstHolds(h, z.cores, z.triedTable, b)
  }

  lemma {:induction false} StartHolds(h: Hasher, z: State, a: seq<Record>)
    requires Holds(h, z, a, |a|) && InvBut(h, z, Below(|a|), {})
    ensures HoldsSome(h, z, a, [])
  {
    hide AddrOk, IdsOk, RandomOk, TriedOk, NewOk, CountOk, FirstHolds, IpsFrom, SomeHeld;
    NewHeld(h, z, a);
    NoneTried(h, z.cores, z.inTried, z.triedTable);
    IpsOfNew(z, a);
  }

  lemma {:induction false} NewHeld(h: Hasher, z: State, a: seq<Record>)
    requires Holds(h, z, a, |a|)
    ensures SomeHeld(z, a) && forall i :: i !in z.inTried
  {
    forall i | 0 <= i < |a| ensures i in z.cores { assert i in z.cores.Keys; }
  }

  lemma {:induction false} NoneTried(h: Hasher, cores: map<nat, Core>, inTried: set<nat>, tried: map<Slot, nat>)
    requires TriedOk(h, cores, inTried, tried) && forall i :: i !in inTried
    ensures FirstHolds(h, cores, tried, [])
  {
    hide TriedSlot;
    assert forall k :: k !in tried;
  }

  lemma {:induction false} IpsOfNew(z: State, a: seq<Record>)
    requires AddrOk(z.cores, z.mapAddr) && SomeHeld(z, a) && forall i :: i !in z.inTried
    ensures IpsFrom(z.mapAddr, a + [])
  {
    forall ip | ip in z.mapAddr ensures exists r :: r in a + [] && r.addr.ip == ip {
      var i := z.mapAddr[ip];
      assert i in z.cores && i < |a|;
      assert (a + [])[i] == a[i];
    }
  }

  lemma {:induction false} FirstNext(h: Hasher, cores: map<nat, Core>, tried: map<Slot, nat>, b: seq<Record>, r: Record, id: nat)
    requires FirstHolds(h, cores, tried, b) && id !in cores
    ensures var k := TriedSlot(h, r.addr);
      if k in tried then FirstHolds(h, cores, tried, b + [r]) else FirstHolds(h, cores[id := Read(r)], tried[k := id], b + [r])
  {
    hide TriedSlot;
    var k := TriedSlot(h, r.addr);
    var b' := b + [r];
    forall j: nat, x | FirstWith(h, b, x, j) ensures FirstWith(h, b', x, j) {
    }
    forall j | 0 <= j < |b'| ensures TriedSlot(h, b'[j].addr) in (if k in tried then tried else tried[k := id]) {
      if j < |b| { assert b'[j] == b[j]; }
    }
    if k !in tried {
      forall i | 0 <= i < |b| ensures TriedSlot(h, b'[i].addr) != k { assert b'[i] == b[i]; }
      assert FirstWith(h, b', k, |b|) && b'[|b|] == r;
      forall x | x in tried ensures tried[x] != id { assert tried[x] in cores; }
    }
    forall x | x in tried ensures exists j: nat :: FirstWith(h, b', x, j) && cores[tried[x]] == Read(b'[j]) {
      var j: nat :| FirstWith(h, b, x, j) && cores[tried[x]] == Read(b[j]);
      assert b'[j] == b[j];
    }
  }

  lemma {:induction false} IpsNext(mapAddr: map<nat, nat>, a: seq<Record>, b: seq<Record>, r: Record, id: nat)
    requires IpsFrom(mapAddr, a + b)
    ensures IpsFrom(mapAddr, a + (b + [r])) && IpsFrom(mapAddr[r.addr.ip := id], a + (b + [r]))
  {
    var all := a + (b + [r]);
    assert all[|all| - 1] == r;
    forall ip | ip in mapAddr ensures exists x :: x in all && x.addr.ip == ip {
      var x :| x in a + b && x.addr.ip == ip;
      var i :| 0 <= i < |a + b| && (a + b)[i] == x;
      assert all[i] == x;
    }
  }

  lemma {:induction false} NewIp(mapAddr: map<nat, nat>, a: seq<Record>, b: seq<Record>, r: Record)
    requires DistinctIps(a + (b + [r])) && IpsFrom(mapAddr, a + b)
    ensures r.addr.ip !in mapAddr
  {
    var all := a + (b + [r]);
    forall ip | ip in mapAddr ensures ip != r.addr.ip {
      var x :| x in a + b && x.addr.ip == ip;
      var i :| 0 <= i < |a + b| && (a + b)[i] == x;
      assert all[i] == x && all[|all| - 1] == r;
    }
  }

  lemma {:induction false} SomeNext(h: Hasher, z: State, a: seq<Record>, r: Record)
    requires SomeHeld(z, a) && TriedSlot(h, r.addr) !in z.triedTable
    ensures SomeHeld(LoadTriedOne(h, z, Read(r)), a) && z.nIdCount !in z.cores
  {
    hide TriedSlot, Below;
    var id := z.nIdCount;
    BelowHas(id);
    KeysPlus(z.cores, id, Read(r));
    KeysPlus(z.refs, id, 0);
    BelowNext(id);
  }

  lemma {:induction false} LoadTriedOneSome(h: Hasher, z: State, a: seq<Record>, b: seq<Record>, r: Record)
    requires HoldsSome(h, z, a, b) && InvBut(h, z, Below(|a|), {}) && DistinctIps(a + (b + [r]))
    ensures HoldsSome(h, LoadTriedOne(h, z, Read(r)), a, b + [r]) && InvBut(h, LoadTriedOne(h, z, Read(r)), Below(|a|), {})
  {
    var id, k := z.nIdCount, TriedSlot(h, r.addr);
    NextUnused(z, a);
    hide TriedSlot, InvBut, DistinctIps, FirstHolds, Below, IpsFrom, SomeHeld;
    FirstNext(h, z.cores, z.triedTable, b, r, id);
    IpsNext(z.mapAddr, a, b, r, id);
    if k !in z.triedTable {
      NewIp(z.mapAddr, a, b, r);
      SomeNext(h, z, a, r);
      TriedHave(h, z, Below(|a|));
      LoadTriedOneInv(h, z, Below(|a|), Read(r));
    }
  }

  lemma {:induction false} NextUnused(z: State, a: seq<Record>)
    requires SomeHeld(z, a)
    ensures z.nIdCount !in z.cores && z.nIdCount !in Below(|a|)
  {
    assert z.nIdCount !in z.cores.Keys;
  }

  lemma {:induction false} BelowHas(n: nat)
    ensures forall i: nat :: i in Below(n) <==> i < n
  {
  }

  lemma {:induction false} TriedHave(h: Hasher, z: State, loose: set<nat>)
    requires InvBut(h, z, loose, {}) && z.nIdCount !in z.cores
    ensures z.nIdCount !in z.inTried
  {
    hide IdsOk, RandomOk, NewOk, CountOk, TriedSlot, AddrOk;
  }

  lemma {:induction false} LoadTriedSome(h: Hasher, z: State, a: seq<Record>, b: seq<Record>)
    requires HoldsSome(h, z, a, []) && InvBut(h, z, Below(|a|), {}) && DistinctIps(a + b)
    ensures HoldsSome(h, LoadTried(h, z, b), a, b) && InvBut(h, LoadTried(h, z, b), Below(|a|), {})
  {
    hide TriedSlot, InvBut, HoldsSome, Below, LoadTriedOne;
    if b != [] {
      var n := |b| - 1;
      assert b[..n] + [b[n]] == b && a + b == a + b[..n] + [b[n]];
      StartDistinct(a + b[..n], [b[n]]);
      LoadTriedSome(h, z, a, b[..n]);
      LoadTriedOneSome(h, LoadTried(h, z, b[..n]), a, b[..n], b[n]);
    }
  }

  // ---------- The new entries ----------

  /** The new entries that have no reference. */
  ghost function Unplaced(y: State, n: nat): set<nat> { set i | i in y.refs && i < n && y.refs[i] == 0 }

  /** After n turns: who was looked at has a reference or finds its own slot taken, the others have none yet. */
  ghost predicate PlacedSome(h: Hasher, y: State, a: seq<Record>, n: nat) {
    && (forall i: nat | i < |a| :: i in y.cores && i in y.refs && y.cores[i] == Read(a[i]) && i !in y.inTried)
    && (forall i: nat | n <= i < |a| :: y.refs[i] == 0)
    && (forall i: nat | i < n && i < |a| :: y.refs[i] > 0 || DefaultNewSlot(h, Read(a[i])) in y.newTable)
  }

  lemma {:induction false} TakeNext(h: Hasher, y: State, a: seq<Record>, n: nat, x: Slot)
    requires PlacedSome(h, y, a, n) && n < |a| && x !in y.newTable
    ensures PlacedSome(h, Taken(y, x, n), a, n + 1) && Unplaced(Taken(y, x, n), |a|) == Unplaced(y, |a|) - {n}
  {
    hide DefaultNewSlot;
  }

  lemma {:induction false} PlaceOneSome(h: Hasher, y: State, a: seq<Record>, last: map<int, nat>, usable: bool, n: nat)
    requires PlacedSome(h, y, a, n) && n < |a| && InvBut(h, y, Unplaced(y, |a|), {})
    requires usable ==> Recorded(last, n) < NEW_BUCKET_COUNT
    ensures var w := PlaceOne(h, y, last, usable, n); PlacedSome(h, w, a, n + 1) && InvBut(h, w, Unplaced(w, |a|), {})
  {
    hide InvBut, Unplaced, NewSlot, Recorded, NewBucket, Taken;
    var x := NewSlot(h, y.cores[n].addr, Recorded(last, n));
    var d := DefaultNewSlot(h, y.cores[n]);
    SlotHere(h, y.cores[n].addr, Recorded(last, n));
    SlotHere(h, y.cores[n].addr, NewBucket(h, y.cores[n].addr, y.cores[n].source));
    if usable && x !in y.newTable && y.refs[n] < NEW_BUCKETS_PER_ADDRESS {
      TakeNext(h, y, a, n, x);
      TakenInv(h, y, Unplaced(y, |a|), {}, x, n);
    } else if d !in y.newTable {
      TakeNext(h, y, a, n, d);
      TakenInv(h, y, Unplaced(y, |a|), {}, d, n);
    }
  }

  lemma {:induction false} PlaceSome(h: Hasher, z: State, a: seq<Record>, last: map<int, nat>, usable: bool, n: nat)
    requires PlacedSome(h, z, a, 0) && InvBut(h, z, Unplaced(z, |a|), {}) && n <= |a|
    requires usable ==> forall i | i in last :: last[i] < NEW_BUCKET_COUNT
    requires forall i: nat | i < n :: i in z.cores && i in z.refs
    ensures var y := Place(h, z, last, usable, n); PlacedSome(h, y, a, n) && InvBut(h, y, Unplaced(y, |a|), {})
  {
    hide InvBut, PlacedSome, Unplaced, PlaceOne;
    if n > 0 {
      PlaceSome(h, z, a, last, usable, n - 1);
      PlaceOneSome(h, Place(h, z, last, usable, n - 1), a, last, usable, n - 1);
    }
  }

  /** Every reference is in the bucket of the entry's own source. */
  ghost predicate AllHome(h: Hasher, cores: map<nat, Core>, newTable: map<Slot, nat>) {
    forall x | x in newTable :: newTable[x] in cores && x == DefaultNewSlot(h, cores[newTable[x]])
  }

  /** Without usable buckets that is where they go. */
  lemma {:induction false} PlaceHome(h: Hasher, z: State, last: map<int, nat>, n: nat)
    requires z.newTable == map[] && forall i: nat | i < n :: i in z.cores && i in z.refs
    ensures AllHome(h, z.cores, Place(h, z, last, false, n).newTable)
  {
    hide PlaceOne, AllHome;
    if n == 0 {
      NoneHome(h, z.cores);
    } else {
      PlaceHome(h, z, last, n - 1);
      HomeNext(h, Place(h, z, last, false, n - 1), last, n - 1);
    }
  }

  lemma {:induction false} NoneHome(h: Hasher, cores: map<nat, Core>)
    ensures AllHome(h, cores, map[])
  {
  }

  lemma {:induction false} HomeNext(h: Hasher, y: State, last: map<int, nat>, n: nat)
    requires AllHome(h, y.cores, y.newTable) && n in y.cores && n in y.refs
    ensures AllHome(h, y.cores, PlaceOne(h, y, last, false, n).newTable)
  {
    hide DefaultNewSlot, NewSlot;
  }

  lemma {:induction false} NothingPlaced(h: Hasher, z: State, a: seq<Record>, b: seq<Record>)
    requires HoldsSome(h, z, a, b) && InvBut(h, z, Below(|a|), {})
    ensures PlacedSome(h, z, a, 0) && Unplaced(z, |a|) == Below(|a|)
  {
    hide AddrOk, IdsOk, RandomOk, TriedOk, CountOk, NewSlot, FirstHolds;
    forall i: nat | i < |a| ensures i in z.refs && i in z.cores && z.refs[i] == 0 {
      assert i in z.cores.Keys;
      assert SlotsOf(z.newTable, i) == {};
    }
  }

  // ---------- Pruning ----------

  lemma {:induction false} NotLoose(h: Hasher, s: State, loose: set<nat>, id: nat)
    requires InvBut(h, s, loose, {}) && id in s.refs && (id in s.inTried || s.refs[id] != 0)
    ensures InvBut(h, s, loose - {id}, {})
  {
    hide AddrOk, IdsOk, RandomOk, TriedOk, CountOk, NewSlot;
    assert NewOk(h, s.cores, s.inTried, s.refs, s.newTable, loose - {id});
  }

  /** Pruning takes the unreferenced new entries, and only them. */
  lemma {:induction false} PruneSome(h: Hasher, s: State, todo: set<nat>, loose: set<nat>)
    requires Listed(s) && todo <= s.cores.Keys && InvBut(h, s, loose, {}) && loose <= todo
    ensures var t := Prune(s, todo);
      && Inv(h, t) && t.newTable == s.newTable && t.triedTable == s.triedTable && t.inTried == s.inTried
      && (forall id | id in t.cores :: id in s.cores && t.cores[id] == s.cores[id])
      && (forall id | id in s.cores :: id in s.refs && (id in s.inTried || s.refs[id] != 0 || id !in todo ==> id in t.cores))
    decreases |todo|
  {
    hide InvBut, Listed;
    RefKeys(h, s, loose);
    if todo == {} {
      assert loose == {};
    } else {
      var id := Least(todo);
      if id !in s.inTried && s.refs[id] == 0 {
        DeletedListed(s, id);
        PlacedWhere(h, s, loose, id);
        DeletedInv(h, s, loose, {}, id);
        DeletedKeeps(s, id);
        PruneSome(h, Deleted(s, id), todo - {id}, loose - {id});
      } else {
        NotLoose(h, s, loose, id);
        PruneSome(h, s, todo - {id}, loose - {id});
      }
    }
  }

  lemma {:induction false} RefKeys(h: Hasher, s: State, loose: set<nat>)
    requires InvBut(h, s, loose, {})
    ensures s.refs.Keys == s.cores.Keys
  {
    hide AddrOk, IdsOk, RandomOk, TriedOk, CountOk, NewSlot;
  }

  lemma {:induction false} PlacedWhere(h: Hasher, s: State, loose: set<nat>, id: nat)
    requires InvBut(h, s, loose, {}) && id in s.cores
    ensures id in s.pos && 0 <= s.pos[id] < |s.vRandom| && s.vRandom[s.pos[id]] == id
  {
    hide AddrOk, IdsOk, NewOk, TriedOk, CountOk;
  }

  lemma {:induction false} DeletedKeeps(s: State, id: nat)
    requires id in s.cores && id in s.pos && 0 <= s.pos[id] < |s.vRandom| && s.refs.Keys == s.cores.Keys
    ensures var d := Deleted(s, id);
      && d.newTable == s.newTable && d.triedTable == s.triedTable && d.inTried == s.inTried
      && d.cores == s.cores - {id} && d.refs == s.refs - {id}
  {
  }

  // ---------- The whole file ----------

  /** What any file with distinct network addresses loads into: a manager that satisfies the invariant.  Its tried
      slots are held by the first records that have them, its new entries are records of the file, and a new record
      is missing only if its own slot is held.  A file of another kind or asmap has its buckets made anew. */
  ghost predicate LoadsRight(h: Hasher, f: File, asmap: nat, l: State) {
    && Inv(h, l)
    && FirstHolds(h, l.cores, l.triedTable, f.triedRecords)
    && (forall id | id in l.cores && id !in l.inTried :: id < |f.newRecords| && l.cores[id] == Read(f.newRecords[id]))
    && (forall i: nat | i < |f.newRecords| ::
          || (i in l.cores && i !in l.inTried && l.cores[i] == Read(f.newRecords[i]))
          || DefaultNewSlot(h, Read(f.newRecords[i])) in l.newTable)
    && (f.format < 2 || |f.buckets| != 1024 || f.asmap != asmap ==> AllHome(h, l.cores, l.newTable))
  }

  lemma {:induction false} AnyFileLoads(h: Hasher, f: File, asmap: nat)
    requires DistinctIps(f.newRecords + f.triedRecords)
    ensures LoadsRight(h, f, asmap, Loaded(h, f, asmap))
  {
    hide InvBut, HoldsSome, PlacedSome, Unplaced, Below, DistinctIps, LoadNew, LoadTried, LastBucket, Growing, Listed, Holds;
    var a, b := f.newRecords, f.triedRecords;
    StartDistinct(a, b);
    LoadNewInv(h, a);
    StartHolds(h, LoadNew(a), a);
    LoadTriedSome(h, LoadNew(a), a, b);
    LoadNewGrowing(a);
    LoadTriedGrowing(h, LoadNew(a), b);
    var z := LoadTried(h, LoadNew(a), b);
    NothingPlaced(h, z, a, b);
    LastBucketRange(f.buckets, |a|);
    var usable := f.format >= V2_ASMAP && |f.buckets| == NEW_BUCKET_COUNT && f.asmap == asmap;
    PlacedHave(h, z, a);
    NoNewTable(h, z, a, b);
    PlaceSome(h, z, a, LastBucket(f.buckets, |a|), usable, |a|);
    var y := Place(h, z, LastBucket(f.buckets, |a|), usable, |a|);
    GrowingListed(z, y);
    UnplacedIn(y, |a|);
    RefKeys(h, y, Unplaced(y, |a|));
    PruneSome(h, y, y.cores.Keys, Unplaced(y, |a|));
    if !usable { PlaceHome(h, z, LastBucket(f.buckets, |a|), |a|); }
    LoadedIsRight(h, f, asmap, z, y, Prune(y, y.cores.Keys));
  }

  lemma {:induction false} NoNewTable(h: Hasher, z: State, a: seq<Record>, b: seq<Record>)
    requires HoldsSome(h, z, a, b)
    ensures z.newTable == map[]
  {
  }

  lemma {:induction false} PlacedHave(h: Hasher, z: State, a: seq<Record>)
    requires PlacedSome(h, z, a, 0)
    ensures forall i: nat | i < |a| :: i in z.cores && i in z.refs
  {
  }

  lemma {:induction false} GrowingListed(s: State, t: State)
    requires Growing(s) && t == s.(refs := t.refs, newTable := t.newTable) && t.refs.Keys == s.refs.Keys
    ensures Listed(t)
  {
    hide RandomOk;
  }

  lemma {:induction false} UnplacedIn(y: State, n: nat)
    ensures Unplaced(y, n) <= y.refs.Keys
  {
  }

  /** What pruning leaves of y. */
  ghost predicate Pruned(y: State, l: State) {
    && l.newTable == y.newTable && l.triedTable == y.triedTable && l.inTried == y.inTried
    && (forall id | id in l.cores :: id in y.cores && l.cores[id] == y.cores[id])
    && (forall id | id in y.cores :: id in y.refs && (id in y.inTried || y.refs[id] != 0 ==> id in l.cores))
  }

  lemma {:induction false} LoadedIsRight(h: Hasher, f: File, asmap: nat, z: State, y: State, l: State)
    requires HoldsSome(h, z, f.newRecords, f.triedRecords) && PlacedSome(h, y, f.newRecords, |f.newRecords|) && Inv(h, l)
    requires y == z.(refs := y.refs, newTable := y.newTable) && Pruned(y, l)
    requires f.format < 2 || |f.buckets| != 1024 || f.asmap != asmap ==> AllHome(h, y.cores, y.newTable)
    ensures LoadsRight(h, f, asmap, l)
  {
    hide InvBut, PlacedSome, Pruned, FirstHolds, AllHome, DefaultNewSlot, SomeHeld, IpsFrom;
    TriedRight(h, f.triedRecords, y, l);
    NewRight(h, f.newRecords, z, y, l);
    if f.format < 2 || |f.buckets| != 1024 || f.asmap != asmap { HomeRight(h, y, l); }
  }

  lemma {:induction false} TriedRight(h: Hasher, b: seq<Record>, y: State, l: State)
    requires FirstHolds(h, y.cores, y.triedTable, b) && Inv(h, l) && Pruned(y, l)
    ensures FirstHolds(h, l.cores, l.triedTable, b)
  {
    hide InvBut, TriedSlot;
    forall k | k in l.triedTable
      ensures l.triedTable[k] in l.cores
      ensures exists j: nat :: FirstWith(h, b, k, j) && l.cores[l.triedTable[k]] == Read(b[j])
    {
      TriedSlotHeld(h, l, k);
      var j: nat :| FirstWith(h, b, k, j) && y.cores[y.triedTable[k]] == Read(b[j]);
    }
  }

  lemma {:induction false} NewRight(h: Hasher, a: seq<Record>, z: State, y: State, l: State)
    requires SomeHeld(z, a) && PlacedSome(h, y, a, |a|) && Pruned(y, l) && y.cores == z.cores && y.inTried == z.inTried
    ensures forall id | id in l.cores && id !in l.inTried :: id < |a| && l.cores[id] == Read(a[id])
    ensures forall i: nat | i < |a| ::
      || (i in l.cores && i !in l.inTried && l.cores[i] == Read(a[i]))
      || DefaultNewSlot(h, Read(a[i])) in l.newTable
  {
    hide DefaultNewSlot, Below;
  }

  lemma {:induction false} HomeRight(h: Hasher, y: State, l: State)
    requires AllHome(h, y.cores, y.newTable) && Inv(h, l) && Pruned(y, l)
    ensures AllHome(h, l.cores, l.newTable)
  {
    hide InvBut, DefaultNewSlot;
    EntriesAreReferenced(h, l);
    assert forall x | x in l.newTable :: l.newTable[x] in l.newTable.Values;
  }

  lemma {:induction false} TriedSlotHeld(h: Hasher, l: State, k: Slot)
    requires Inv(h, l) && k in l.triedTable
    ensures l.triedTable[k] in l.cores
  {
    hide AddrOk, IdsOk, NewOk, RandomOk, CountOk;
    TriedLeave(h, l.cores, l.inTried, l.triedTable, k);
  }

  /** In particular a manager that was written under one key or asmap can be loaded under another. */
  lemma {:induction false} RebucketKeeps(h: Hasher, s: State, asmap: nat, h': Hasher, asmap': nat)
    requires Inv(h, s)
    ensures LoadsRight(h', Written(s, asmap), asmap', Loaded(h', Written(s, asmap), asmap'))
  {
    hide InvBut, LoadsRight, Loaded, DistinctIps;
    WrittenIsGood(h, s);
    AnyFileLoads(h', Written(s, asmap), asmap');
  }
}
