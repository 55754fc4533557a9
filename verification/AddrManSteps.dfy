/** The in-place updates of src/addrman.cpp, one structure at a time, and what each does to the
    invariant.  `loose` entries may be without references and `limbo` entries are counted
    nowhere: between two updates of one operation there are a few of either. */
module AddrManSteps {
  import opened AddrManModel

  // ---------- One structure at a time ----------

  lemma {:induction false} TriedCreate(h: Hasher, cores: map<nat, Core>, inTried: set<nat>, tried: map<Slot, nat>,
          id: nat, core: Core)
    requires TriedOk(h, cores, inTried, tried) && id !in cores
    ensures TriedOk(h, cores[id := core], inTried, tried)
  {
    hide TriedSlot;
  }

  lemma {:induction false} NewCreate(h: Hasher, cores: map<nat, Core>, inTried: set<nat>, refs: map<nat, int>,
                                     newTable: map<Slot, nat>, loose: set<nat>, id: nat, core: Core)
    requires NewOk(h, cores, inTried, refs, newTable, loose) && id !in cores
    ensures NewOk(h, cores[id := core], inTried, refs[id := 0], newTable, loose + {id})
  {
    hide NewSlot;
    assert SlotsOf(newTable, id) == {};
  }

  lemma {:induction false} AddrCreate(cores: map<nat, Core>, mapAddr: map<nat, nat>, id: nat, core: Core)
    requires AddrOk(cores, mapAddr) && id !in cores && core.addr.ip !in mapAddr
    ensures AddrOk(cores[id := core], mapAddr[core.addr.ip := id])
  {
  }

  lemma {:induction false} CountCreate(ids: set<nat>, inTried: set<nat>, nNew: int, nTried: int, id: nat)
    requires CountOk(ids, inTried, {}, nNew, nTried) && id !in ids && id !in inTried
    ensures CountOk(ids + {id}, inTried, {}, nNew + 1, nTried)
  {
    assert ids + {id} - inTried - {} == (ids - inTried - {}) + {id};
  }

  lemma {:induction false} TriedCore(h: Hasher, cores: map<nat, Core>, inTried: set<nat>, tried: map<Slot, nat>,
          id: nat, core: Core)
    requires TriedOk(h, cores, inTried, tried) && id in cores && core.addr == cores[id].addr
    ensures TriedOk(h, cores[id := core], inTried, tried)
  {
    hide TriedSlot;
  }

  lemma {:induction false} NewCore(h: Hasher, cores: map<nat, Core>, inTried: set<nat>, refs: map<nat, int>,
                                   newTable: map<Slot, nat>, id: nat, core: Core)
    requires NewOk(h, cores, inTried, refs, newTable, {}) && id in cores && core.addr == cores[id].addr
    ensures NewOk(h, cores[id := core], inTried, refs, newTable, {})
  {
    hide NewSlot;
  }

  lemma {:induction false} TriedLeave(h: Hasher, cores: map<nat, Core>, inTried: set<nat>, tried: map<Slot, nat>,
          k: Slot)
    requires TriedOk(h, cores, inTried, tried) && k in tried
    ensures tried[k] in inTried && tried[k] in cores
    ensures TriedOk(h, cores, inTried - {tried[k]}, tried - {k})
  {
    hide TriedSlot;
  }

  lemma {:induction false} NewFromTried(h: Hasher, cores: map<nat, Core>, inTried: set<nat>, refs: map<nat, int>,
                                        newTable: map<Slot, nat>, loose: set<nat>, id: nat)
    requires NewOk(h, cores, inTried, refs, newTable, loose) && id in inTried && id in cores
    ensures refs[id] == 0
    ensures NewOk(h, cores, inTried - {id}, refs, newTable, loose + {id})
  {
    hide NewSlot;
    assert SlotsOf(newTable, id) == {};
  }

  lemma {:induction false} TriedEnter(h: Hasher, cores: map<nat, Core>, inTried: set<nat>, tried: map<Slot, nat>,
          id: nat)
    requires TriedOk(h, cores, inTried, tried) && id in cores && id !in inTried
    requires TriedSlot(h, cores[id].addr) !in tried
    ensures TriedOk(h, cores, inTried + {id}, tried[TriedSlot(h, cores[id].addr) := id])
  {
    hide TriedSlot;
  }

  lemma {:induction false} NewToTried(h: Hasher, cores: map<nat, Core>, inTried: set<nat>, refs: map<nat, int>,
                                      newTable: map<Slot, nat>, loose: set<nat>, id: nat)
    requires NewOk(h, cores, inTried, refs, newTable, loose) && id in cores && refs[id] == 0
    ensures NewOk(h, cores, inTried + {id}, refs, newTable, loose - {id})
  {
    hide NewSlot;
    forall x | x in newTable ensures newTable[x] != id {
      assert newTable[x] == id ==> x in SlotsOf(newTable, id);
    }
  }

  lemma {:induction false} KeysPlus<T>(m: map<nat, T>, id: nat, v: T)
    ensures m[id := v].Keys == m.Keys + {id}
  {
  }

  lemma {:induction false} RandomMember(pos: map<nat, int>, v: seq<nat>, i: nat)
    requires RandomOk(pos, v) && i < |v|
    ensures v[i] in pos
  {
  }

  lemma {:induction false} TriedAreEntries(h: Hasher, cores: map<nat, Core>, inTried: set<nat>, tried: map<Slot, nat>)
    requires TriedOk(h, cores, inTried, tried)
    ensures inTried <= cores.Keys
  {
  }

  /** Ids when the next id is created. */
  lemma {:induction false} RestCreate(cores: map<nat, Core>, nIdCount: nat, core: Core)
    requires IdsOk(cores, nIdCount)
    ensures nIdCount !in cores
    ensures IdsOk(cores[nIdCount := core], nIdCount + 1)
  {
  }

  /** The same when it is deleted. */
  lemma {:induction false} RestDelete(cores: map<nat, Core>, nIdCount: nat, id: nat)
    requires IdsOk(cores, nIdCount)
    ensures IdsOk(cores - {id}, nIdCount)
  {
  }

  /** The same, and the address index, when its statistics change. */
  lemma {:induction false} RestCore(cores: map<nat, Core>, mapAddr: map<nat, nat>, nIdCount: nat, id: nat, core: Core)
    requires IdsOk(cores, nIdCount) && AddrOk(cores, mapAddr)
    requires id in cores && core.addr == cores[id].addr
    ensures IdsOk(cores[id := core], nIdCount) && AddrOk(cores[id := core], mapAddr)
  {
  }

  // ---------- The steps on a whole state ----------

  function Swapped(s: State, i: nat, j: nat): State
    requires i < |s.vRandom| && j < |s.vRandom|
  {
    if i == j then s
    else s.(pos := s.pos[s.vRandom[i] := j][s.vRandom[j] := i],
            vRandom := s.vRandom[i := s.vRandom[j]][j := s.vRandom[i]])
  }

  lemma {:induction false} SwappedInv(h: Hasher, s: State, loose: set<nat>, limbo: set<nat>, i: nat, j: nat)
    requires i < |s.vRandom| && j < |s.vRandom| && InvBut(h, s, loose, limbo)
    ensures InvBut(h, Swapped(s, i, j), loose, limbo)
  {
    hide AddrOk, IdsOk, RandomOk, TriedOk, NewOk, CountOk;
    if i != j {
      RandomMember(s.pos, s.vRandom, i);
      RandomMember(s.pos, s.vRandom, j);
      RandomSwap(s.pos, s.vRandom, i, j);
      assert Swapped(s, i, j).pos.Keys == s.pos.Keys;
    }
  }

  function Created(s: State, core: Core): State {
    s.(cores := s.cores[s.nIdCount := core], refs := s.refs[s.nIdCount := 0], pos := s.pos[s.nIdCount := |s.vRandom|],
       mapAddr := s.mapAddr[core.addr.ip := s.nIdCount], vRandom := s.vRandom + [s.nIdCount],
       nIdCount := s.nIdCount + 1, nNew := s.nNew + 1)
  }

  /** A new address gets the next id; it has no reference yet. */
  lemma {:induction false} CreatedInv(h: Hasher, s: State, loose: set<nat>, core: Core)
    requires InvBut(h, s, loose, {}) && core.addr.ip !in s.mapAddr
    ensures InvBut(h, Created(s, core), loose + {s.nIdCount}, {})
  {
    hide AddrOk, RandomOk, TriedOk, NewOk, CountOk, IdsOk;
    var id := s.nIdCount;
    var cores, pos := s.cores[id := core], s.pos[id := |s.vRandom|];
    RestCreate(s.cores, id, core);
    TriedAreEntries(h, s.cores, s.inTried, s.triedTable);
    KeysPlus(s.cores, id, core);
    KeysPlus(s.pos, id, |s.vRandom|);
    assert TriedOk(h, cores, s.inTried, s.triedTable) by { TriedCreate(h, s.cores, s.inTried, s.triedTable, id, core); }
    assert NewOk(h, cores, s.inTried, s.refs[id := 0], s.newTable, loose + {id}) by {
      NewCreate(h, s.cores, s.inTried, s.refs, s.newTable, loose, id, core);
    }
    assert AddrOk(cores, s.mapAddr[core.addr.ip := id]) by { AddrCreate(s.cores, s.mapAddr, id, core); }
    assert RandomOk(pos, s.vRandom + [id]) by { RandomPush(s.pos, s.vRandom, id); }
    assert CountOk(cores.Keys, s.inTried, {}, s.nNew + 1, s.nTried) by {
      CountCreate(s.cores.Keys, s.inTried, s.nNew, s.nTried, id);
    }
  }

  /** The entry is moved to the end of vRandom and removed everywhere. */
  function Popped(t: State, id: nat): State
    requires id in t.cores && |t.vRandom| > 0
  {
    t.(cores := t.cores - {id}, refs := t.refs - {id}, pos := t.pos - {id}, mapAddr := t.mapAddr - {t.cores[id].addr.ip},
       vRandom := t.vRandom[..|t.vRandom| - 1], nNew := t.nNew - 1)
  }

  lemma {:induction false} PoppedInv(h: Hasher, t: State, loose: set<nat>, limbo: set<nat>, id: nat)
    requires id in t.cores && |t.vRandom| > 0 && t.vRandom[|t.vRandom| - 1] == id
    requires InvBut(h, t, loose, limbo) && id !in t.inTried && id !in limbo
    requires id in t.refs && t.refs[id] == 0
    ensures InvBut(h, Popped(t, id), loose - {id}, limbo)
  {
    hide AddrOk, RandomOk, TriedOk, NewOk, CountOk, IdsOk;
    var d := Popped(t, id);
    RestDelete(t.cores, t.nIdCount, id);
    TriedDelete(h, t.cores, t.inTried, t.triedTable, id);
    NewDelete(h, t.cores, t.inTried, t.refs, t.newTable, loose, id);
    AddrDelete(t.cores, t.mapAddr, id);
    RandomPop(t.pos, t.vRandom);
    CountDelete(t.cores.Keys, t.inTried, limbo, t.nNew, t.nTried, id);
    assert d.cores.Keys == t.cores.Keys - {id} == d.pos.Keys;
  }

  function Deleted(s: State, id: nat): State
    requires id in s.cores && id in s.pos && 0 <= s.pos[id] < |s.vRandom|
  {
    Popped(Swapped(s, s.pos[id], |s.vRandom| - 1), id)
  }

  lemma {:induction false} DeletedInv(h: Hasher, s: State, loose: set<nat>, limbo: set<nat>, id: nat)
    requires id in s.cores && id in s.pos && 0 <= s.pos[id] < |s.vRandom| && s.vRandom[s.pos[id]] == id
    requires InvBut(h, s, loose, limbo) && id !in s.inTried && id !in limbo
    requires id in s.refs && s.refs[id] == 0
    ensures InvBut(h, Deleted(s, id), loose - {id}, limbo)
  {
    hide InvBut;
    SwappedInv(h, s, loose, limbo, s.pos[id], |s.vRandom| - 1);
    PoppedInv(h, Swapped(s, s.pos[id], |s.vRandom| - 1), loose, limbo, id);
  }

  /** Statistics change; the address does not. */
  function CoreSet(s: State, id: nat, core: Core): State {
    s.(cores := s.cores[id := core])
  }

  lemma {:induction false} CoreSetInv(h: Hasher, s: State, id: nat, core: Core)
    requires id in s.cores && Inv(h, s) && core.addr == s.cores[id].addr
    ensures Inv(h, CoreSet(s, id, core))
  {
    hide AddrOk, RandomOk, TriedOk, NewOk, CountOk, IdsOk;
    assert CoreSet(s, id, core).cores.Keys == s.cores.Keys;
    TriedCore(h, s.cores, s.inTried, s.triedTable, id, core);
    NewCore(h, s.cores, s.inTried, s.refs, s.newTable, id, core);
    RestCore(s.cores, s.mapAddr, s.nIdCount, id, core);
  }

  /** Drop the reference in slot x, which is to `id`. */
  function Dropped(s: State, x: Slot, id: nat): State
    requires id in s.refs
  {
    s.(refs := s.refs[id := s.refs[id] - 1], newTable := s.newTable - {x})
  }

  lemma {:induction false} DroppedInv(h: Hasher, s: State, loose: set<nat>, limbo: set<nat>, x: Slot, id: nat)
    requires x in s.newTable && s.newTable[x] == id && id in s.refs
    requires InvBut(h, s, loose, limbo)
    ensures id in s.cores && id !in s.inTried && s.refs[id] > 0
    ensures InvBut(h, Dropped(s, x, id), if s.refs[id] == 1 then loose + {id} else loose, limbo)
  {
    assert id in s.cores && id !in s.inTried;
    hide NewOk, TriedOk, AddrOk, RandomOk, IdsOk, CountOk;
    NewDrop(h, s.cores, s.inTried, s.refs, s.newTable, loose, x);
  }

  /** Point slot x at `id`. */
  function Taken(s: State, x: Slot, id: nat): State
    requires id in s.refs
  {
    s.(refs := s.refs[id := s.refs[id] + 1], newTable := s.newTable[x := id])
  }

  lemma {:induction false} TakenInv(h: Hasher, s: State, loose: set<nat>, limbo: set<nat>, x: Slot, id: nat)
    requires x !in s.newTable && id in s.cores && id in s.refs && id !in s.inTried
    requires x.bucket < NEW_BUCKET_COUNT && x == NewSlot(h, s.cores[id].addr, x.bucket) && s.refs[id] < NEW_BUCKETS_PER_ADDRESS
    requires InvBut(h, s, loose, limbo)
    ensures InvBut(h, Taken(s, x, id), loose - {id}, limbo)
  {
    hide NewOk, TriedOk, AddrOk, RandomOk, IdsOk, CountOk, NewSlot;
    NewTake(h, s.cores, s.inTried, s.refs, s.newTable, loose, x, id);
  }

  /** An entry stops (or starts) being counted as new. */
  lemma {:induction false} LimboInv(h: Hasher, s: State, loose: set<nat>, limbo: set<nat>, id: nat)
    requires id in s.cores && id !in s.inTried && id !in limbo
    ensures InvBut(h, s, loose, limbo) <==> InvBut(h, s.(nNew := s.nNew - 1), loose, limbo + {id})
  {
    hide NewOk, TriedOk, AddrOk, RandomOk, IdsOk, CountOk;
    CountLimbo(s.cores.Keys, s.inTried, limbo, s.nNew, s.nTried, id);
  }

  /** The tried entry `id` in slot k is unmarked and its slot emptied. */
  function TriedOut(s: State, k: Slot, id: nat): State {
    s.(inTried := s.inTried - {id}, triedTable := s.triedTable - {k}, nTried := s.nTried - 1)
  }

  lemma {:induction false} TriedOutInv(h: Hasher, s: State, loose: set<nat>, limbo: set<nat>, k: Slot, id: nat)
    requires k in s.triedTable && s.triedTable[k] == id
    requires InvBut(h, s, loose, limbo) && id !in limbo && id in s.refs
    ensures id in s.cores && id in s.inTried && s.refs[id] == 0
    ensures InvBut(h, TriedOut(s, k, id), loose + {id}, limbo + {id})
  {
    hide NewOk, TriedOk, AddrOk, RandomOk, IdsOk, CountOk, TriedSlot;
    TriedLeave(h, s.cores, s.inTried, s.triedTable, k);
    NewFromTried(h, s.cores, s.inTried, s.refs, s.newTable, loose, id);
    CountTried(s.cores.Keys, s.inTried - {id}, limbo + {id}, s.nNew, s.nTried - 1, id);
    assert s.inTried - {id} + {id} == s.inTried && limbo + {id} - {id} == limbo;
  }

  /** An entry in limbo becomes the tried entry of its own, empty slot. */
  function TriedIn(s: State, k: Slot, id: nat): State {
    s.(inTried := s.inTried + {id}, triedTable := s.triedTable[k := id], nTried := s.nTried + 1)
  }

  lemma {:induction false} TriedInInv(h: Hasher, s: State, loose: set<nat>, k: Slot, id: nat)
    requires id in s.cores && id !in s.inTried && id in s.refs && s.refs[id] == 0
    requires k == TriedSlot(h, s.cores[id].addr) && k !in s.triedTable
    requires InvBut(h, s, loose, {id})
    ensures InvBut(h, TriedIn(s, k, id), loose - {id}, {})
  {
    hide NewOk, TriedOk, AddrOk, RandomOk, IdsOk, CountOk, TriedSlot;
    TriedEnter(h, s.cores, s.inTried, s.triedTable, id);
    NewToTried(h, s.cores, s.inTried, s.refs, s.newTable, loose, id);
    CountTried(s.cores.Keys, s.inTried, {id}, s.nNew, s.nTried, id);
    assert {id} - {id} == {};
  }
}
