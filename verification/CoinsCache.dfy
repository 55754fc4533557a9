/** The objects of src/coins.cpp: caches linked to the view below them, updated in place.
    Every method is proved to be the function of the same name in `CoinsModel`. */
module CoinsCache {
  import opened Options
  import opened CoinsModel

  /** The database view at the bottom (src/txdb.cpp). */
  class CoinsViewDB {
    var coins: map<OutPoint, Coin>
    var nullifiers: set<Hash>
    var anchors: map<Hash, SaplingTree>
    var bestBlock: Hash
    var bestAnchor: Option<Hash>

    ghost function Model(): Tower
      reads this
    {
      Store(Db(coins, nullifiers, anchors, bestBlock, bestAnchor))
    }

    constructor (db: Db)
      ensures Model() == Store(db)
    {
      coins, nullifiers, anchors, bestBlock, bestAnchor := db.coins, db.nullifiers, db.anchors, db.bestBlock, db.bestAnchor;
    }

    /** Write or erase every dirty coin; the entries come in any order. */
    method WriteCoins(mapCoins: CoinMap)
      modifies this`coins
      ensures coins == StoreCoins(mapCoins, old(coins))
    {
      ghost var was := coins;
      var todo := mapCoins.Keys;
      while todo != {}
        invariant todo <= mapCoins.Keys
        invariant forall o ::
          Lookup(coins, o) ==
            (if o in mapCoins.Keys - todo then StoreCoin(Lookup(mapCoins, o), Lookup(was, o)) else Lookup(was, o))
        decreases todo
      {
        var o :| o in todo;
        var it := mapCoins[o];
        assert Lookup(coins, o) == Lookup(was, o);
        if it.isDirty {
          if it.coin.IsSpent() {
            coins := coins - {o};
          } else {
            coins := coins[o := it.coin];
          }
        }
        todo := todo - {o};
      }
      SameLookups(coins, StoreCoins(mapCoins, was));
    }

    method WriteNullifiers(mapNullifiers: NullifierMap)
      modifies this`nullifiers
      ensures nullifiers == StoreNullifiers(mapNullifiers, old(nullifiers))
    {
      ghost var was := nullifiers;
      var todo := mapNullifiers.Keys;
      while todo != {}
        invariant todo <= mapNullifiers.Keys
        invariant forall n ::
          n in nullifiers <==>
            (if n in mapNullifiers.Keys - todo then StoreNullifier(Lookup(mapNullifiers, n), n in was) else n in was)
        decreases todo
      {
        var n :| n in todo;
        var it := mapNullifiers[n];
        if it.isDirty {
          if !it.entered {
            nullifiers := nullifiers - {n};
          } else {
            nullifiers := nullifiers + {n};
          }
        }
        todo := todo - {n};
      }
    }

    method WriteAnchors(mapAnchors: AnchorMap)
      modifies this`anchors
      ensures anchors == StoreAnchors(mapAnchors, old(anchors))
    {
      ghost var was := anchors;
      var todo := mapAnchors.Keys;
      while todo != {}
        invariant todo <= mapAnchors.Keys
        invariant forall r ::
          Lookup(anchors, r) ==
            (if r in mapAnchors.Keys - todo then StoreAnchor(r, Lookup(mapAnchors, r), Lookup(was, r)) else Lookup(was, r))
        decreases todo
      {
        var r :| r in todo;
        var it := mapAnchors[r];
        assert Lookup(anchors, r) == Lookup(was, r);
        if it.isDirty {
          if !it.entered {
            anchors := anchors - {r};
          } else if r != EMPTY_ROOT {
            anchors := anchors[r := it.tree];
          }
        }
        todo := todo - {r};
      }
      SameLookups(anchors, StoreAnchors(mapAnchors, was));
    }

    /** `failed` is the assertion that the flushed best block is known. */
    method BatchWrite(child: Cache) returns (failed: bool)
      modifies this
      ensures failed == (child.hashBlock == Null)
      ensures Model() == if failed then old(Model()) else Store(WriteDb(child, old(Model().db)))
    {
      if child.hashBlock == Null {
        return true;
      }
      WriteCoins(child.coins);
      WriteAnchors(child.anchors);
      WriteNullifiers(child.nullifiers);
      if child.hashAnchor != Null {
        bestAnchor := Some(child.hashAnchor);
      }
      bestBlock := child.hashBlock;
      return false;
    }
  }

  /** What a cache is stacked on. */
  datatype Backing = OnDb(db: CoinsViewDB) | OnCache(cache: CoinsViewCache)

  class CoinsViewCache {
    const base: Backing
    var cacheCoins: CoinMap
    var cacheNullifiers: NullifierMap
    var cacheAnchors: AnchorMap
    var hashBlock: Hash
    var hashAnchor: Hash
    ghost const Repr: set<object>

    ghost predicate Valid()
      reads this, Repr
      decreases Repr
    {
      && this in Repr
      && match base
         case OnDb(db) => db in Repr
         case OnCache(c) => c in Repr && c.Repr < Repr && this !in c.Repr && c.Valid()
    }

    ghost function Top(): Cache
      reads this
    {
      Cache(cacheCoins, cacheNullifiers, cacheAnchors, hashBlock, hashAnchor)
    }

    ghost function Model(): (t: Tower)
      requires Valid()
      reads this, Repr
      ensures t.Layer? && t.top == Top()
      decreases Repr
    {
      Layer(Top(), match base case OnDb(db) => db.Model() case OnCache(c) => c.Model())
    }

    constructor OverDb(db: CoinsViewDB)
      ensures Valid() && Model() == Layer(EMPTY_CACHE, db.Model())
    {
      base := OnDb(db);
      cacheCoins, cacheNullifiers, cacheAnchors, hashBlock, hashAnchor := map[], map[], map[], Null, Null;
      Repr := {this, db};
    }

    constructor OverCache(c: CoinsViewCache)
      requires c.Valid()
      ensures Valid() && Model() == Layer(EMPTY_CACHE, c.Model())
    {
      base := OnCache(c);
      cacheCoins, cacheNullifiers, cacheAnchors, hashBlock, hashAnchor := map[], map[], map[], Null, Null;
      Repr := {this, c} + c.Repr;
    }

    method FetchCoin(o: OutPoint) returns (e: Option<CoinEntry>)
      requires Valid()
      modifies Repr
      ensures Valid() && (Model(), e) == CoinsModel.FetchCoin(old(Model()), o)
      decreases Repr, 0
    {
      if o in cacheCoins {
        return Some(cacheCoins[o]);
      }
      var tmp: Option<Coin>;
      match base {
        case OnDb(db) => tmp := if o in db.coins then Some(db.coins[o]) else None;
        case OnCache(c) => tmp := c.GetCoin(o);
      }
      if tmp.None? {
        return None;
      }
      var entry := CoinEntry(tmp.value, false, tmp.value.IsSpent());
      cacheCoins := cacheCoins[o := entry];
      return Some(entry);
    }

    method GetCoin(o: OutPoint) returns (coin: Option<Coin>)
      requires Valid()
      modifies Repr
      ensures Valid() && (Model(), coin) == CoinsModel.GetCoin(old(Model()), o)
      decreases Repr, 1
    {
      var e := FetchCoin(o);
      coin := if e.Some? then Some(e.value.coin) else None;
    }

    method HaveCoin(o: OutPoint) returns (have: bool)
      requires Valid()
      modifies Repr
      ensures Valid() && (Model(), have) == CoinsModel.HaveCoin(old(Model()), o)
    {
      var e := FetchCoin(o);
      have := e.Some? && !e.value.coin.IsSpent();
    }

    method AddCoin(o: OutPoint, coin: Coin, overwrite: bool) returns (thrown: bool)
      requires Valid() && !coin.IsSpent()
      modifies this
      ensures Valid()
      ensures thrown == CoinsModel.AddCoin(old(Model()), o, coin, overwrite).None?
      ensures Model() == if thrown then old(Model()) else CoinsModel.AddCoin(old(Model()), o, coin, overwrite).value
    {
      if coin.out.IsUnspendable() || coin.out.IsZerocoinMint() {
        return false;
      }
      var entry := if o in cacheCoins then cacheCoins[o] else CoinEntry(CLEARED_COIN, false, false);
      var isFresh := false;
      if !overwrite {
        if !entry.coin.IsSpent() {
          return true;
        }
        isFresh := !entry.isDirty;
      }
      cacheCoins := cacheCoins[o := CoinEntry(coin, true, entry.isFresh || isFresh)];
      return false;
    }

    method SpendCoin(o: OutPoint) returns (moveout: Option<Coin>)
      requires Valid()
      modifies Repr
      ensures Valid() && Model() == CoinsModel.SpendCoin(old(Model()), o)
      ensures moveout == CoinsModel.GetCoin(old(Model()), o).1
    {
      var e := FetchCoin(o);
      if e.None? {
        return None;
      }
      moveout := Some(e.value.coin);
      if e.value.isFresh {
        cacheCoins := cacheCoins - {o};
      } else {
        cacheCoins := cacheCoins[o := CoinEntry(CLEARED_COIN, true, false)];
      }
    }

    /** The free function AddCoins: all outputs of one transaction. */
    method AddCoins(txid: Hash, coins: seq<Coin>, check: bool, banned: set<OutPoint>) returns (thrown: bool)
      requires Valid() && forall c | c in coins :: !c.IsSpent()
      modifies Repr
      ensures Valid()
      ensures thrown == CoinsModel.AddCoins(old(Model()), txid, coins, check, banned).None?
      ensures !thrown ==> Model() == CoinsModel.AddCoins(old(Model()), txid, coins, check, banned).value
    {
      ghost var t := Model();
      for i := 0 to |coins|
        invariant Valid() && CoinsModel.AddCoins(t, txid, coins[..i], check, banned) == Some(Model())
      {
        assert coins[..i + 1][..i] == coins[..i];
        var o := OutPoint(txid, i);
        if o in banned {
          var _ := SpendCoin(o);
        } else {
          var overwrite := false;
          if check {
            overwrite := HaveCoin(o);
          }
          thrown := AddCoin(o, coins[i], overwrite);
          if thrown {
            ThrowPropagates(t, txid, coins, i + 1, check, banned);
            return true;
          }
        }
      }
      assert coins[..|coins|] == coins;
      return false;
    }

    method Uncache(o: OutPoint)
      requires Valid()
      modifies this
      ensures Valid() && Model() == CoinsModel.Uncache(old(Model()), o)
    {
      if o in cacheCoins && !cacheCoins[o].isDirty && !cacheCoins[o].isFresh {
        cacheCoins := cacheCoins - {o};
      }
    }

    method GetNullifier(n: Hash) returns (r: bool)
      requires Valid()
      modifies Repr
      ensures Valid() && (Model(), r) == CoinsModel.GetNullifier(old(Model()), n)
      decreases Repr
    {
      if n in cacheNullifiers {
        return cacheNullifiers[n].entered;
      }
      match base {
        case OnDb(db) => r := n in db.nullifiers;
        case OnCache(c) => r := c.GetNullifier(n);
      }
      cacheNullifiers := cacheNullifiers[n := NullifierEntry(r, false)];
    }

    method SetNullifiers(ns: seq<Hash>, spent: bool)
      requires Valid()
      modifies this
      ensures Valid() && Model() == CoinsModel.SetNullifiers(old(Model()), ns, spent)
    {
      ghost var t := Model();
      for i := 0 to |ns|
        invariant Valid() && Model() == CoinsModel.SetNullifiers(t, ns[..i], spent)
      {
        assert ns[..i + 1][..i] == ns[..i];
        cacheNullifiers := cacheNullifiers[ns[i] := NullifierEntry(spent, true)];
      }
      assert ns[..|ns|] == ns;
    }

    method GetAnchor(rt: Hash) returns (tree: Option<SaplingTree>)
      requires Valid()
      modifies Repr
      ensures Valid() && (Model(), tree) == CoinsModel.GetAnchor(old(Model()), rt)
      decreases Repr
    {
      if rt in cacheAnchors {
        return if cacheAnchors[rt].entered then Some(cacheAnchors[rt].tree) else None;
      }
      match base {
        case OnDb(db) =>
          tree := if rt == EMPTY_ROOT then Some(EMPTY_TREE) else if rt in db.anchors then Some(db.anchors[rt]) else None;
        case OnCache(c) => tree := c.GetAnchor(rt);
      }
      if tree.Some? {
        cacheAnchors := cacheAnchors[rt := AnchorEntry(true, tree.value, false)];
      }
    }

    method GetBestBlock() returns (h: Hash)
      requires Valid()
      modifies Repr
      ensures Valid() && (Model(), h) == CoinsModel.GetBestBlock(old(Model()))
      decreases Repr
    {
      if hashBlock == Null {
        match base {
          case OnDb(db) => hashBlock := db.bestBlock;
          case OnCache(c) =>
            var b := c.GetBestBlock();
            hashBlock := b;
        }
      }
      return hashBlock;
    }

    method GetBestAnchor() returns (h: Hash)
      requires Valid()
      modifies Repr
      ensures Valid() && (Model(), h) == CoinsModel.GetBestAnchor(old(Model()))
      decreases Repr
    {
      if hashAnchor == Null {
        match base {
          case OnDb(db) => hashAnchor := if db.bestAnchor.Some? then db.bestAnchor.value else EMPTY_ROOT;
          case OnCache(c) =>
            var b := c.GetBestAnchor();
            hashAnchor := b;
        }
      }
      return hashAnchor;
    }

    method SetBestBlock(h: Hash)
      requires Valid()
      modifies this
      ensures Valid() && Model() == CoinsModel.SetBestBlock(old(Model()), h)
    {
      hashBlock := h;
    }

    method PushAnchor(tree: SaplingTree)
      requires Valid()
      modifies Repr
      ensures Valid() && Model() == CoinsModel.PushAnchor(old(Model()), tree)
    {
      var newrt := RootOf(tree);
      var currentRoot := GetBestAnchor();
      if currentRoot != newrt {
        cacheAnchors := cacheAnchors[newrt := AnchorEntry(true, tree, true)];
        hashAnchor := newrt;
      }
    }

    /** `failed` is the assertion in BringBestAnchorIntoCache. */
    method PopAnchor(newrt: Hash) returns (failed: bool)
      requires Valid()
      modifies Repr
      ensures Valid() && failed == CoinsModel.PopAnchor(old(Model()), newrt).None?
      ensures !failed ==> Model() == CoinsModel.PopAnchor(old(Model()), newrt).value
    {
      var currentRoot := GetBestAnchor();
      if currentRoot == newrt {
        return false;
      }
      var tree := GetAnchor(currentRoot);
      if tree.None? {
        return true;
      }
      cacheAnchors := cacheAnchors[currentRoot := AnchorEntry(false, tree.value, true)];
      hashAnchor := newrt;
      return false;
    }

    /** The coins part of BatchWrite: entries are taken in any order; `thrown` is the
        "FRESH flag misapplied" logic_error. */
    method WriteCoins(mapCoins: CoinMap) returns (thrown: bool)
      requires Valid()
      modifies this`cacheCoins
      ensures thrown <==> !CanMergeCoins(mapCoins, old(cacheCoins))
      ensures !thrown ==> cacheCoins == MergeCoins(mapCoins, old(cacheCoins))
    {
      ghost var was := cacheCoins;
      var todo := mapCoins.Keys;
      while todo != {}
        invariant todo <= mapCoins.Keys
        invariant forall o ::
          Lookup(cacheCoins, o) ==
            (if o in mapCoins.Keys - todo then MergeCoin(Lookup(mapCoins, o), Lookup(was, o)) else Lookup(was, o))
        invariant forall o | o in mapCoins.Keys - todo :: !Misapplied(Lookup(mapCoins, o), Lookup(was, o))
        decreases todo
      {
        var o :| o in todo;
        var it := mapCoins[o];
        ghost var before := cacheCoins;
        assert Lookup(before, o) == Lookup(was, o);
        if it.isDirty {
          if o !in cacheCoins {
            if !(it.isFresh && it.coin.IsSpent()) {
              cacheCoins := cacheCoins[o := CoinEntry(it.coin, true, it.isFresh)];
            }
          } else {
            var itUs := cacheCoins[o];
            if it.isFresh && !itUs.coin.IsSpent() {
              assert Misapplied(Lookup(mapCoins, o), Lookup(was, o));
              return true;
            }
            if itUs.isFresh && it.coin.IsSpent() {
              cacheCoins := cacheCoins - {o};
            } else {
              cacheCoins := cacheCoins[o := CoinEntry(it.coin, true, itUs.isFresh)];
            }
          }
        }
        assert Lookup(cacheCoins, o) == MergeCoin(Lookup(mapCoins, o), Lookup(was, o));
        assert forall p | p != o :: Lookup(cacheCoins, p) == Lookup(before, p);
        todo := todo - {o};
      }
      SameLookups(cacheCoins, MergeCoins(mapCoins, was));
      return false;
    }

    method WriteNullifiers(mapNullifiers: NullifierMap)
      requires Valid()
      modifies this`cacheNullifiers
      ensures cacheNullifiers == MergeNullifiers(mapNullifiers, old(cacheNullifiers))
    {
      ghost var was := cacheNullifiers;
      var todo := mapNullifiers.Keys;
      while todo != {}
        invariant todo <= mapNullifiers.Keys
        invariant forall n ::
          Lookup(cacheNullifiers, n) ==
            (if n in mapNullifiers.Keys - todo then MergeNullifier(Lookup(mapNullifiers, n), Lookup(was, n)) else Lookup(was, n))
        decreases todo
      {
        var n :| n in todo;
        var it := mapNullifiers[n];
        assert Lookup(cacheNullifiers, n) == Lookup(was, n);
        if it.isDirty && (n !in cacheNullifiers || cacheNullifiers[n].entered != it.entered) {
          cacheNullifiers := cacheNullifiers[n := NullifierEntry(it.entered, true)];
        }
        todo := todo - {n};
      }
      SameLookups(cacheNullifiers, MergeNullifiers(mapNullifiers, was));
    }

    method WriteAnchors(mapAnchors: AnchorMap)
      requires Valid()
      modifies this`cacheAnchors
      ensures cacheAnchors == MergeAnchors(mapAnchors, old(cacheAnchors))
    {
      ghost var was := cacheAnchors;
      var todo := mapAnchors.Keys;
      while todo != {}
        invariant todo <= mapAnchors.Keys
        invariant forall r ::
          Lookup(cacheAnchors, r) ==
            (if r in mapAnchors.Keys - todo then MergeAnchor(Lookup(mapAnchors, r), Lookup(was, r)) else Lookup(was, r))
        decreases todo
      {
        var r :| r in todo;
        var it := mapAnchors[r];
        assert Lookup(cacheAnchors, r) == Lookup(was, r);
        if it.isDirty {
          if r !in cacheAnchors {
            cacheAnchors := cacheAnchors[r := AnchorEntry(it.entered, it.tree, true)];
          } else if cacheAnchors[r].entered != it.entered {
            cacheAnchors := cacheAnchors[r := AnchorEntry(it.entered, cacheAnchors[r].tree, true)];
          }
        }
        todo := todo - {r};
      }
      SameLookups(cacheAnchors, MergeAnchors(mapAnchors, was));
    }

    /** Write the entries of a child cache into this one. */
    method BatchWrite(child: Cache) returns (thrown: bool)
      requires Valid()
      modifies this
      ensures Valid() && thrown == !CanMergeCoins(child.coins, old(cacheCoins))
      ensures !thrown ==> Model() == Layer(MergeCache(child, old(Top())), old(Model().base))
    {
      thrown := WriteCoins(child.coins);
      if !thrown {
        WriteAnchors(child.anchors);
        WriteNullifiers(child.nullifiers);
        hashAnchor := child.hashAnchor;
        hashBlock := child.hashBlock;
      }
    }

    /** Push everything into the view below and start over empty. */
    method Flush() returns (failed: bool)
      requires Valid()
      modifies Repr
      ensures Valid() && failed == CoinsModel.Flush(old(Model())).None?
      ensures !failed ==> Model() == CoinsModel.Flush(old(Model())).value
    {
      var child := Cache(cacheCoins, cacheNullifiers, cacheAnchors, hashBlock, hashAnchor);
      match base {
        case OnDb(db) => failed := db.BatchWrite(child);
        case OnCache(c) => failed := c.BatchWrite(child);
      }
      if !failed {
        cacheCoins, cacheAnchors, cacheNullifiers := map[], map[], map[];
      }
    }
  }

  lemma {:induction false} ThrowPropagates(t: Tower, txid: Hash, coins: seq<Coin>, i: nat, check: bool,
          banned: set<OutPoint>)
    requires t.Layer? && i <= |coins| && forall c | c in coins :: !c.IsSpent()
    requires AddCoins(t, txid, coins[..i], check, banned).None?
    ensures AddCoins(t, txid, coins, check, banned).None?
    decreases |coins| - i
  {
    if i == |coins| {
      assert coins[..i] == coins;
    } else {
      assert coins[..i + 1][..i] == coins[..i];
      ThrowPropagates(t, txid, coins, i + 1, check, banned);
    }
  }
}
