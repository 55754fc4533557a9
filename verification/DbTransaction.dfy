/** The overlay transaction and its merge iterator (src/dbwrapper.h).

    A transaction buffers writes and deletes over a parent; its iterator walks the buffered
    writes and the parent's keys in step, always at the smaller of the two. */
module DbTransaction {
  import opened Options

  type Byte = b: int | 0 <= b < 256
  type Key = seq<Byte>

  /** A serialized value; its serialize size is its length. */
  type Value = seq<Byte>

  // ---------- The key order ----------

  /** std::lexicographical_compare on unsigned bytes. */
  predicate Less(a: Key, b: Key) {
    if b == [] then false
    else if a == [] then true
    else a[0] < b[0] || (a[0] == b[0] && Less(a[1..], b[1..]))
  }

  /** Byte order: at the first difference the smaller byte, or the end, comes first. */
  lemma {:induction false} LessMeans(a: Key, b: Key)
    ensures Less(a, b) <==> exists k: nat :: DifferAt(a, b, k) && (k == |a| || (k < |b| && a[k] < b[k]))
  {
    if a != [] && b != [] && a[0] == b[0] {
      LessMeans(a[1..], b[1..]);
      if k: nat :| DifferAt(a[1..], b[1..], k) { DifferNext(a, b, k); }
      if k: nat :| DifferAt(a, b, k) {
        assert k > 0;
        DifferNext(a, b, k - 1);
      }
    } else if a != b {
      assert DifferAt(a, b, 0);
    }
  }

  /** The first difference of two keys is at k, which may be the end of one of them. */
  ghost predicate DifferAt(a: Key, b: Key, k: nat) {
    k <= |a| && k <= |b| && a[..k] == b[..k] && (k < |a| || k < |b|) && (k < |a| && k < |b| ==> a[k] != b[k])
  }

  lemma {:induction false} DifferNext(a: Key, b: Key, k: nat)
    requires a != [] && b != [] && a[0] == b[0]
    ensures DifferAt(a, b, k + 1) <==> DifferAt(a[1..], b[1..], k)
  {
    if k < |a| && k < |b| {
      assert a[..k + 1] == [a[0]] + a[1..][..k] && b[..k + 1] == [b[0]] + b[1..][..k];
    }
  }

  lemma {:induction false} LessIrreflexive(a: Key)
    ensures !Less(a, a)
  {
    if a != [] { LessIrreflexive(a[1..]); }
  }

  lemma {:induction false} LessTotal(a: Key, b: Key)
    ensures Less(a, b) || Less(b, a) || a == b
  {
    if a != [] && b != [] && a[0] == b[0] {
      LessTotal(a[1..], b[1..]);
      assert a == [a[0]] + a[1..] && b == [b[0]] + b[1..];
    }
  }

  lemma {:induction false} LessTransitive(a: Key, b: Key, c: Key)
    requires Less(a, b) && Less(b, c)
    ensures Less(a, c)
  {
    if a != [] && a[0] == b[0] == c[0] { LessTransitive(a[1..], b[1..], c[1..]); }
  }

  lemma {:induction false} LessAsymmetric(a: Key, b: Key)
    requires Less(a, b)
    ensures !Less(b, a) && a != b
  {
    if Less(b, a) { LessTransitive(a, b, a); }
    LessIrreflexive(a);
  }

  /** Strictly increasing. */
  ghost predicate Increasing(ks: seq<Key>) {
    forall i, j | 0 <= i < j < |ks| :: Less(ks[i], ks[j])
  }

  ghost predicate IsLeast(s: set<Key>, k: Key) {
    k in s && forall x | x in s && x != k :: Less(k, x)
  }

  /** The first key of an ordered container, if any. */
  method Least(s: set<Key>) returns (r: Option<Key>)
    ensures r.None? <==> s == {}
    ensures r.Some? ==> IsLeast(s, r.value)
  {
    r := None;
    var todo := s;
    ghost var seen: set<Key> := {};
    while todo != {}
      invariant todo + seen == s
      invariant r.None? <==> seen == {}
      invariant r.Some? ==> IsLeast(seen, r.value)
      decreases todo
    {
      var k :| k in todo;
      if r.None? || Less(k, r.value) {
        forall x | x in seen && x != k ensures Less(k, x) {
          if x != r.value { LessTransitive(k, r.value, x); }
        }
        r := Some(k);
      } else {
        LessTotal(k, r.value);
      }
      todo, seen := todo - {k}, seen + {k};
    }
  }

  // ---------- Totals over finite maps ----------

  ghost function Total(m: map<Key, nat>): nat {
    if m == map[] then 0 else var k :| k in m; m[k] + Total(m - {k})
  }

  lemma {:induction false} TotalRemove(m: map<Key, nat>, k: Key)
    requires k in m
    ensures Total(m) == m[k] + Total(m - {k})
    decreases |m|
  {
    var x :| x in m && Total(m) == m[x] + Total(m - {x});
    if x != k {
      SmallerMap(m, x);
      SmallerMap(m, k);
      TotalRemove(m - {x}, k);
      TotalRemove(m - {k}, x);
      assert m - {x} - {k} == m - {k} - {x};
    }
  }

  lemma {:induction false} SmallerMap(m: map<Key, nat>, k: Key)
    requires k in m
    ensures |m - {k}| < |m|
  {
    assert (m - {k}).Keys == m.Keys - {k};
  }

  // ---------- The transaction ----------

  /** A database, a batch or an outer transaction: anything with keys and values. */
  class Store {
    var data: map<Key, Value>
  }

  datatype ValueHolder = ValueHolder(value: Value, memoryUsage: nat)

  /** The parent without the deleted keys, overlaid with the written ones. */
  function Overlay(parent: map<Key, Value>, deletes: set<Key>, writes: map<Key, ValueHolder>): map<Key, Value> {
    (parent - deletes) + (map k | k in writes :: writes[k].value)
  }

  ghost function WriteCosts(writes: map<Key, ValueHolder>): map<Key, nat> {
    map k | k in writes :: |k| + writes[k].memoryUsage
  }

  ghost function DeleteCosts(deletes: set<Key>): map<Key, nat> {
    map k | k in deletes :: |k|
  }

  ghost function Used(writes: map<Key, ValueHolder>, deletes: set<Key>): nat {
    Total(WriteCosts(writes)) + Total(DeleteCosts(deletes))
  }

  ghost function CostIn(writes: map<Key, ValueHolder>, k: Key): nat {
    if k in writes then |k| + writes[k].memoryUsage else 0
  }

  lemma {:induction false} WriteCostsWithout(writes: map<Key, ValueHolder>, k: Key)
    ensures Total(WriteCosts(writes - {k})) == Total(WriteCosts(writes)) - CostIn(writes, k)
  {
    assert WriteCosts(writes - {k}) == WriteCosts(writes) - {k};
    if k in writes {
      TotalRemove(WriteCosts(writes), k);
    } else {
      assert writes - {k} == writes;
    }
  }

  lemma {:induction false} DeleteCostsWithout(deletes: set<Key>, k: Key)
    ensures Total(DeleteCosts(deletes - {k})) == Total(DeleteCosts(deletes)) - if k in deletes then |k| else 0
  {
    assert DeleteCosts(deletes - {k}) == DeleteCosts(deletes) - {k};
    if k in deletes {
      TotalRemove(DeleteCosts(deletes), k);
    } else {
      assert deletes - {k} == deletes;
    }
  }

  lemma {:induction false} CostOfWrite(writes: map<Key, ValueHolder>, deletes: set<Key>, k: Key, v: Value)
    ensures Used(writes[k := ValueHolder(v, |v|)], deletes - {k}) ==
            Used(writes, deletes) - (if k in deletes then |k| else 0) - CostIn(writes, k) + |k| + |v|
  {
    DeleteCostsWithout(deletes, k);
    WriteCostsWithout(writes, k);
    WriteCostsWithout(writes[k := ValueHolder(v, |v|)], k);
    assert writes[k := ValueHolder(v, |v|)] - {k} == writes - {k};
  }

  lemma {:induction false} CostOfErase(writes: map<Key, ValueHolder>, deletes: set<Key>, k: Key)
    ensures Used(writes - {k}, deletes + {k}) ==
            Used(writes, deletes) - CostIn(writes, k) + if k in deletes then 0 else |k|
  {
    WriteCostsWithout(writes, k);
    DeleteCostsWithout(deletes, k);
    DeleteCostsWithout(deletes + {k}, k);
    assert deletes + {k} - {k} == deletes - {k};
  }

  lemma {:induction false} OverlayWrite(parent: map<Key, Value>, deletes: set<Key>, writes: map<Key, ValueHolder>,
          k: Key, v: Value)
    ensures Overlay(parent, deletes - {k}, writes[k := ValueHolder(v, |v|)]) == Overlay(parent, deletes, writes)[k := v]
  {
  }

  lemma {:induction false} OverlayErase(parent: map<Key, Value>, deletes: set<Key>, writes: map<Key, ValueHolder>,
          k: Key)
    ensures Overlay(parent, deletes + {k}, writes - {k}) == Overlay(parent, deletes, writes) - {k}
  {
  }

  lemma {:induction false} SameWithout(m: map<Key, ValueHolder>, k: Key)
    ensures k !in m ==> m - {k} == m
  {
  }

  class DBTransaction {
    const parent: Store
    const commitTarget: Store
    var memoryUsage: int
    var writes: map<Key, ValueHolder>
    var deletes: set<Key>

    /** No key is both written and deleted, and the running memory figure is exact: the keys and
        the values written, and the keys deleted. */
    ghost predicate Valid()
      reads this
    {
      && writes.Keys !! deletes
      && (forall k | k in writes :: writes[k].memoryUsage == |writes[k].value|)
      && memoryUsage == Used(writes, deletes)
    }

    ghost function View(): map<Key, Value>
      reads this, parent
    {
      Overlay(parent.data, deletes, writes)
    }

    constructor (parent: Store, commitTarget: Store)
      ensures Valid() && View() == parent.data && this.parent == parent && this.commitTarget == commitTarget
    {
      this.parent, this.commitTarget := parent, commitTarget;
      memoryUsage, writes, deletes := 0, map[], {};
      new;
      assert View() == parent.data;
    }

    method Write(ssKey: Key, v: Value)
      requires Valid()
      modifies this
      ensures Valid() && memoryUsage >= 0 && View() == old(View())[ssKey := v]
      ensures writes.Keys == old(writes.Keys) + {ssKey} && deletes == old(deletes) - {ssKey}
    {
      hide Used, Overlay;
      CostOfWrite(writes, deletes, ssKey, v);
      OverlayWrite(parent.data, deletes, writes, ssKey, v);
      if ssKey in deletes {
        deletes := deletes - {ssKey};
        memoryUsage := memoryUsage - |ssKey|;
      }
      if ssKey in writes {
        memoryUsage := memoryUsage - (|ssKey| + writes[ssKey].memoryUsage);
      }
      writes := writes[ssKey := ValueHolder(v, |v|)];
      memoryUsage := memoryUsage + |ssKey| + |v|;
      assert deletes == old(deletes) - {ssKey};
    }

    method Read(ssKey: Key) returns (value: Option<Value>)
      requires Valid()
      ensures value == Lookup(View(), ssKey)
    {
      if ssKey in deletes {
        return None;
      }
      if ssKey in writes {
        return Some(writes[ssKey].value);
      }
      return if ssKey in parent.data then Some(parent.data[ssKey]) else None;
    }

    method Exists(ssKey: Key) returns (r: bool)
      requires Valid()
      ensures r <==> ssKey in View()
    {
      if ssKey in deletes {
        return false;
      }
      return ssKey in writes || ssKey in parent.data;
    }

    method Erase(ssKey: Key)
      requires Valid()
      modifies this
      ensures Valid() && memoryUsage >= 0 && View() == old(View()) - {ssKey}
      ensures writes.Keys == old(writes.Keys) - {ssKey} && deletes == old(deletes) + {ssKey}
    {
      hide Used, Overlay;
      CostOfErase(writes, deletes, ssKey);
      OverlayErase(parent.data, deletes, writes, ssKey);
      if ssKey in writes {
        memoryUsage := memoryUsage - (|ssKey| + writes[ssKey].memoryUsage);
        writes := writes - {ssKey};
      }
      if ssKey !in deletes {
        deletes := deletes + {ssKey};
        memoryUsage := memoryUsage + |ssKey|;
      }
      SameWithout(old(writes), ssKey);
      assert writes == old(writes) - {ssKey};
      assert deletes == old(deletes) + {ssKey};
    }

    method Clear()
      modifies this
      ensures Valid() && writes == map[] && deletes == {} && memoryUsage == 0
    {
      writes, deletes, memoryUsage := map[], {}, 0;
      assert WriteCosts(map[]) == map[] && DeleteCosts({}) == map[];
    }

    /** Replay the deletes, then the writes, on the commit target, which may be the parent. */
    method Commit()
      requires Valid()
      modifies this, commitTarget
      ensures Valid() && writes == map[] && deletes == {}
      ensures commitTarget.data == Overlay(old(commitTarget.data), old(deletes), old(writes))
      ensures old(commitTarget.data) == old(parent.data) ==> commitTarget.data == old(View())
    {
      ghost var was, view := commitTarget.data, View();
      var todo := deletes;
      ghost var done: set<Key> := {};
      while todo != {}
        invariant todo + done == deletes && commitTarget.data == was - done && unchanged(this)
        decreases todo
      {
        var k :| k in todo;
        assert was - done - {k} == was - (done + {k});
        commitTarget.data := commitTarget.data - {k};
        todo, done := todo - {k}, done + {k};
      }
      var ws := writes.Keys;
      ghost var written: map<Key, ValueHolder> := map[];
      assert Overlay(was, done, map[]) == was - done;
      while ws != {}
        invariant ws <= writes.Keys && written == writes - ws && unchanged(this)
        invariant commitTarget.data == Overlay(was, done, written)
        decreases ws
      {
        var k :| k in ws;
        WrittenNext(was, done, writes, ws, k);
        commitTarget.data := commitTarget.data[k := writes[k].value];
        ws := ws - {k};
        written := writes - ws;
      }
      assert written == writes;
      Clear();
    }
  }

  lemma {:induction false} WrittenNext(was: map<Key, Value>, done: set<Key>, writes: map<Key, ValueHolder>,
          ws: set<Key>, k: Key)
    requires k in writes && k in ws
    ensures Overlay(was, done, writes - (ws - {k})) == Overlay(was, done, writes - ws)[k := writes[k].value]
  {
  }

  // ---------- The merge iterator ----------

  function KeysFrom(s: set<Key>, at: Option<Key>): set<Key> {
    set k | k in s && at.Some? && !Less(k, at.value)
  }

  function KeysAfter(s: set<Key>, k: Key): set<Key> {
    set x | x in s && Less(k, x)
  }

  /** An ordered container positioned at its least key that is not before `k`. */
  lemma {:induction false} LeastFrom(s: set<Key>, from: set<Key>, k: Key)
    requires from <= s && IsLeast(from, k)
    requires forall x, y | x in from && y in s && Less(x, y) :: y in from
    ensures KeysFrom(s, Some(k)) == from
  {
    forall x | x in s ensures !Less(x, k) <==> x in from {
      LessTotal(x, k);
      if Less(x, k) { LessAsymmetric(x, k); }
    }
    LessIrreflexive(k);
  }

  lemma {:induction false} SubsetFrom(s: set<Key>, t: set<Key>, at: Option<Key>)
    requires t <= s
    ensures KeysFrom(t, at) == KeysFrom(s, at) * t
  {
  }

  lemma {:induction false} UnionFrom(s: set<Key>, t: set<Key>, at: Option<Key>)
    ensures KeysFrom(s + t, at) == KeysFrom(s, at) + KeysFrom(t, at)
  {
  }

  /** Position an iterator over `s` so that exactly `from`, an upper part of `s`, is ahead. */
  method First(s: set<Key>, from: set<Key>) returns (r: Option<Key>)
    requires from <= s && forall x, y | x in from && y in s && Less(x, y) :: y in from
    ensures r.Some? ==> r.value in s
    ensures KeysFrom(s, r) == from
  {
    r := Least(from);
    if r.Some? { LeastFrom(s, from, r.value); }
  }

  lemma {:induction false} AfterIsRest(s: set<Key>, k: Key)
    requires k in s
    ensures KeysAfter(s, k) == KeysFrom(s, Some(k)) - {k}
    ensures forall x, y | x in KeysAfter(s, k) && y in s && Less(x, y) :: y in KeysAfter(s, k)
  {
    forall x | x in s ensures Less(k, x) <==> !Less(x, k) && x != k {
      LessTotal(x, k);
      if Less(k, x) { LessAsymmetric(k, x); }
    }
    forall x, y | x in KeysAfter(s, k) && y in s && Less(x, y) ensures y in KeysAfter(s, k) {
      LessTransitive(k, x, y);
    }
  }

  lemma {:induction false} FromIsUpward(s: set<Key>, k: Key)
    ensures forall x, y | x in KeysFrom(s, Some(k)) && y in s && Less(x, y) :: y in KeysFrom(s, Some(k))
  {
    forall x, y | x in KeysFrom(s, Some(k)) && y in s && Less(x, y) ensures y in KeysFrom(s, Some(k)) {
      if Less(y, k) { LessTransitive(x, y, k); }
    }
  }

  class DBTransactionIterator {
    const transaction: DBTransaction
    var transactionIt: Option<Key>     // None is writes.end()
    var parentIt: Option<Key>          // None is !parentIt->Valid()
    var parentKey: Key
    var curIsParent: bool

    constructor (transaction: DBTransaction)
      ensures this.transaction == transaction && transactionIt == None && parentIt == None
    {
      this.transaction := transaction;
      transactionIt, parentIt, parentKey, curIsParent := None, None, [], false;
    }

    /** Parent keys that are neither deleted nor overwritten. */
    ghost function Live(): set<Key>
      reads this, transaction, transaction.parent
    {
      transaction.parent.data.Keys - transaction.deletes - transaction.writes.Keys
    }

    ghost predicate Ok()
      reads this, transaction, transaction.parent
    {
      && (transactionIt.Some? ==> transactionIt.value in transaction.writes)
      && (parentIt.Some? ==> parentIt.value in Live() && parentKey == parentIt.value)
      && (transactionIt.Some? && parentIt.None? ==> !curIsParent)
      && (transactionIt.None? && parentIt.Some? ==> curIsParent)
      && (transactionIt.Some? && parentIt.Some? ==> curIsParent == !Less(transactionIt.value, parentIt.value))
    }

    /** The keys still to come, the current one included. */
    ghost function Remaining(): set<Key>
      reads this, transaction, transaction.parent
    {
      KeysFrom(transaction.writes.Keys, transactionIt) + KeysFrom(Live(), parentIt)
    }

    lemma ViewKeys()
      requires transaction.Valid()
      ensures transaction.View().Keys == transaction.writes.Keys + Live()
    {
    }

    method SkipDeletedAndOverwritten()
      requires parentIt.Some? ==> parentIt.value in transaction.parent.data
      modifies this`parentIt, this`parentKey
      ensures parentIt.Some? ==> parentIt.value in Live() && parentKey == parentIt.value
      ensures KeysFrom(Live(), parentIt) == old(KeysFrom(Live(), parentIt))
    {
      ghost var ahead := KeysFrom(transaction.parent.data.Keys, parentIt);
      while parentIt.Some?
        invariant parentIt.Some? ==> parentIt.value in transaction.parent.data
        invariant KeysFrom(Live(), parentIt) == old(KeysFrom(Live(), parentIt))
        invariant ahead == KeysFrom(transaction.parent.data.Keys, parentIt)
        decreases ahead
      {
        parentKey := parentIt.value;
        if parentKey !in transaction.deletes && parentKey !in transaction.writes {
          break;
        }
        ParentNext();
        assert parentKey in ahead by { LessIrreflexive(parentKey); }
        ahead := ahead - {parentKey};
        assert KeysFrom(Live(), parentIt) == ahead * Live();
      }
    }

    /** parentIt->Next(): the parent's next key in byte order. */
    method ParentNext()
      requires parentIt.Some? && parentIt.value in transaction.parent.data
      modifies this`parentIt
      ensures parentIt.Some? ==> parentIt.value in transaction.parent.data
      ensures KeysFrom(transaction.parent.data.Keys, parentIt) ==
              KeysFrom(transaction.parent.data.Keys, old(parentIt)) - {old(parentIt).value}
    {
      var keys := transaction.parent.data.Keys;
      AfterIsRest(keys, parentIt.value);
      parentIt := First(keys, KeysAfter(keys, parentIt.value));
    }

    method DecideCur()
      requires parentIt.Some? ==> parentKey == parentIt.value
      modifies this`curIsParent
      ensures transactionIt.Some? && parentIt.None? ==> !curIsParent
      ensures transactionIt.None? && parentIt.Some? ==> curIsParent
      ensures transactionIt.Some? && parentIt.Some? ==> curIsParent == !Less(transactionIt.value, parentIt.value)
    {
      if transactionIt.Some? && parentIt.None? {
        curIsParent := false;
      } else if transactionIt.None? && parentIt.Some? {
        curIsParent := true;
      } else if transactionIt.Some? && parentIt.Some? {
        curIsParent := !Less(transactionIt.value, parentKey);
      }
    }

    method SeekToFirst()
      requires transaction.Valid()
      modifies this
      ensures Ok() && Remaining() == transaction.writes.Keys + Live()
    {
      var ws, ps := transaction.writes.Keys, transaction.parent.data.Keys;
      transactionIt := First(ws, ws);
      parentIt := First(ps, ps);
      SubsetFrom(ps, Live(), parentIt);
      SkipDeletedAndOverwritten();
      DecideCur();
    }

    method Seek(ssKey: Key)
      requires transaction.Valid()
      modifies this
      ensures Ok() && Remaining() == KeysFrom(transaction.writes.Keys + Live(), Some(ssKey))
    {
      var ws, ps := transaction.writes.Keys, transaction.parent.data.Keys;
      FromIsUpward(ws, ssKey);
      transactionIt := First(ws, KeysFrom(ws, Some(ssKey)));
      FromIsUpward(ps, ssKey);
      parentIt := First(ps, KeysFrom(ps, Some(ssKey)));
      SubsetFrom(ps, Live(), parentIt);
      SubsetFrom(ps, Live(), Some(ssKey));
      UnionFrom(ws, Live(), Some(ssKey));
      SkipDeletedAndOverwritten();
      DecideCur();
    }

    predicate Valid()
      reads this
    {
      transactionIt.Some? || parentIt.Some?
    }

    /** The current key is the least one still to come. */
    method GetKey() returns (k: Key)
      requires Ok()
      ensures Valid() <==> Remaining() != {}
      ensures Valid() ==> IsLeast(Remaining(), k)
    {
      if !Valid() {
        return [];
      }
      k := if curIsParent then parentIt.value else transactionIt.value;
      CurrentIsLeast(k);
    }

    lemma CurrentIsLeast(k: Key)
      requires Ok() && Valid() && k == if curIsParent then parentIt.value else transactionIt.value
      ensures IsLeast(Remaining(), k)
    {
      LessIrreflexive(k);
      if transactionIt.Some? && parentIt.Some? {
        LessTotal(transactionIt.value, parentIt.value);
      }
      forall x | x in Remaining() && x != k ensures Less(k, x) {
        var from := if x in transaction.writes then transactionIt.value else parentIt.value;
        LessTotal(from, x);
        if from != x && from != k { LessTransitive(k, from, x); }
      }
    }

    method GetValue() returns (value: Option<Value>)
      requires Ok() && transaction.Valid()
      ensures value.Some? <==> Valid()
      ensures Valid() ==> exists k :: IsLeast(Remaining(), k) && value == Lookup(transaction.View(), k)
    {
      if !Valid() {
        return None;
      }
      ghost var k := if curIsParent then parentIt.value else transactionIt.value;
      CurrentIsLeast(k);
      if curIsParent {
        value := transaction.Read(parentKey);
      } else {
        value := transaction.Read(transactionIt.value);
      }
    }

    /** Advance: exactly the current key is consumed. */
    method Next()
      requires Ok()
      modifies this
      ensures Ok()
      ensures old(Valid()) ==> exists k :: IsLeast(old(Remaining()), k) && Remaining() == old(Remaining()) - {k}
      ensures !old(Valid()) ==> !Valid()
    {
      if !Valid() {
        return;
      }
      ghost var k := if curIsParent then parentIt.value else transactionIt.value;
      CurrentIsLeast(k);
      ghost var before := Remaining();
      if curIsParent {
        SubsetFrom(transaction.parent.data.Keys, Live(), parentIt);
        ParentNext();
        SubsetFrom(transaction.parent.data.Keys, Live(), parentIt);
        SkipDeletedAndOverwritten();
      } else {
        var ws := transaction.writes.Keys;
        AfterIsRest(ws, transactionIt.value);
        transactionIt := First(ws, KeysAfter(ws, transactionIt.value));
      }
      DecideCur();
      assert Remaining() == before - {k};
    }
  }

  /** The keys `out` of `all` are behind, the others, all greater, ahead. */
  ghost predicate Walked(out: seq<Key>, all: set<Key>, ahead: set<Key>) {
    && Increasing(out)
    && (forall k :: k in all <==> k in out || k in ahead)
    && (forall i, x | 0 <= i < |out| && x in ahead :: Less(out[i], x))
  }

  lemma {:induction false} WalkNext(out: seq<Key>, all: set<Key>, ahead: set<Key>, k: Key)
    requires Walked(out, all, ahead) && IsLeast(ahead, k)
    ensures Walked(out + [k], all, ahead - {k})
  {
    assert forall x :: x in out + [k] <==> x in out || x == k;
  }

  /** Read the current entry and advance. */
  method ReadAndAdvance(it: DBTransactionIterator) returns (k: Key, v: Value)
    requires it.Ok() && it.Valid() && it.transaction.Valid()
    modifies it
    ensures it.Ok() && IsLeast(old(it.Remaining()), k) && it.Remaining() == old(it.Remaining()) - {k}
    ensures Lookup(it.transaction.View(), k) == Some(v)
  {
    k := it.GetKey();
    var value := it.GetValue();
    ghost var before := it.Remaining();
    ghost var j :| IsLeast(before, j) && value == Lookup(it.transaction.View(), j);
    LeastUnique(before, k, j);
    it.Next();
    ghost var n :| IsLeast(before, n) && it.Remaining() == before - {n};
    LeastUnique(before, k, n);
    v := value.value;
  }

  /** Read to the end. */
  method WalkAll(it: DBTransactionIterator) returns (out: seq<(Key, Value)>)
    requires it.transaction.Valid() && it.Ok()
    modifies it
    ensures Walked(Keys(out), old(it.Remaining()), {})
    ensures forall i | 0 <= i < |out| :: Lookup(it.transaction.View(), out[i].0) == Some(out[i].1)
  {
    hide Walked, Keys, Less, Lookup;
    ghost var all := it.Remaining();
    out := [];
    NothingWalked(all);
    while it.Valid()
      invariant it.Ok() && Walked(Keys(out), all, it.Remaining())
      invariant forall i | 0 <= i < |out| :: Lookup(it.transaction.View(), out[i].0) == Some(out[i].1)
      decreases it.Remaining()
    {
      ghost var before := it.Remaining();
      var k, v := ReadAndAdvance(it);
      WalkNext(Keys(out), all, before, k);
      KeysAppend(out, k, v);
      out := out + [(k, v)];
    }
    assert it.Remaining() == {};
  }

  lemma {:induction false} NothingWalked(all: set<Key>)
    ensures Walked(Keys([]), all, all)
  {
  }

  lemma {:induction false} WalkedAll(out: seq<Key>, all: set<Key>)
    requires Walked(out, all, {})
    ensures Increasing(out) && forall k :: k in all <==> k in out
  {
  }

  /** A full walk from a start key (or from the beginning): exactly the keys of the overlay from
      there on, in strictly increasing order, each with the value that Read gives. */
  method Enumerate(it: DBTransactionIterator, from: Option<Key>) returns (out: seq<(Key, Value)>)
    requires it.transaction.Valid()
    modifies it
    ensures Increasing(Keys(out))
    ensures forall k :: k in Keys(out) <==> k in it.transaction.View() && (from.Some? ==> !Less(k, from.value))
    ensures forall i | 0 <= i < |out| :: Lookup(it.transaction.View(), out[i].0) == Some(out[i].1)
  {
    hide Walked, Keys, Less, Lookup, Increasing;
    if from.Some? {
      it.Seek(from.value);
    } else {
      it.SeekToFirst();
    }
    it.ViewKeys();
    ghost var all := it.Remaining();
    out := WalkAll(it);
    WalkedAll(Keys(out), all);
  }

  function Keys(out: seq<(Key, Value)>): seq<Key> {
    seq(|out|, i requires 0 <= i < |out| => out[i].0)
  }

  lemma {:induction false} KeysAppend(out: seq<(Key, Value)>, k: Key, v: Value)
    ensures Keys(out + [(k, v)]) == Keys(out) + [k]
  {
  }

  lemma {:induction false} LeastUnique(s: set<Key>, a: Key, b: Key)
    requires IsLeast(s, a) && IsLeast(s, b)
    ensures a == b
  {
    if a != b { LessAsymmetric(a, b); }
  }
}
