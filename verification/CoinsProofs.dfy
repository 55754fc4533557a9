/** Every run over a tower of caches behaves like a run over a stack of plain views. */
module CoinsProofs {
  import opened Options
  import opened CoinsModel

  // ---------- What a tower shows ----------

  /** A cache of coins over the unspent set `below`. */
  function CoinsOver(m: CoinMap, below: map<OutPoint, Coin>): map<OutPoint, Coin> {
    map o | o in m.Keys + below.Keys && (o in m ==> !m[o].coin.IsSpent()) :: if o in m then m[o].coin else below[o]
  }

  function NullifiersOver(m: NullifierMap, below: set<Hash>): set<Hash> {
    set n | n in m.Keys + below && (n in m ==> m[n].entered)
  }

  function AnchorsOver(m: AnchorMap, below: map<Hash, SaplingTree>): map<Hash, SaplingTree> {
    map r | r in m.Keys + below.Keys && (r in m ==> m[r].entered) :: if r in m then m[r].tree else below[r]
  }

  /** A plain, unlayered coin view. */
  datatype View = View(utxo: map<OutPoint, Coin>, nullifiers: set<Hash>, anchors: map<Hash, SaplingTree>,
                       bestBlock: Hash, bestAnchor: Hash)

  function DbView(db: Db): View {
    View(map o | o in db.coins && !db.coins[o].IsSpent() :: db.coins[o],
         db.nullifiers,
         db.anchors[EMPTY_ROOT := EMPTY_TREE],
         db.bestBlock,
         if db.bestAnchor.Some? then db.bestAnchor.value else EMPTY_ROOT)
  }

  /** What a cache shows over a view `v`. */
  function Over(c: Cache, v: View): View {
    View(CoinsOver(c.coins, v.utxo), NullifiersOver(c.nullifiers, v.nullifiers), AnchorsOver(c.anchors, v.anchors),
         if c.hashBlock != Null then c.hashBlock else v.bestBlock,
         if c.hashAnchor != Null then c.hashAnchor else v.bestAnchor)
  }

  function ViewOf(t: Tower): View {
    match t
    case Store(db) => DbView(db)
    case Layer(c, b) => Over(c, ViewOf(b))
  }

  /** What each layer of the tower shows, the top one first. */
  function Views(t: Tower): (s: seq<View>)
    ensures |s| > 0 && s[0] == ViewOf(t)
  {
    match t
    case Store(_) => [ViewOf(t)]
    case Layer(_, b) => [ViewOf(t)] + Views(b)
  }

  // ---------- The invariant between neighbouring layers ----------

  ghost predicate CoinFlagOk(e: CoinEntry, below: Option<Coin>) {
    && (e.isFresh ==> below.None?)
    && (!e.isDirty ==> below == if e.coin.IsSpent() then None else Some(e.coin))
  }

  ghost predicate CoinFlagsOk(m: CoinMap, below: map<OutPoint, Coin>) {
    forall o | o in m :: CoinFlagOk(m[o], Lookup(below, o))
  }

  ghost predicate NullifierFlagsOk(m: NullifierMap, below: set<Hash>) {
    forall n | n in m :: !m[n].isDirty ==> (m[n].entered <==> n in below)
  }

  /** Besides agreement with the layer below: an anchor's tree is the one its key names. */
  ghost predicate AnchorFlagsOk(m: AnchorMap, below: map<Hash, SaplingTree>) {
    forall r | r in m ::
      && r == RootOf(m[r].tree)
      && (!m[r].isDirty ==> (m[r].entered <==> r in below))
  }

  ghost predicate FlagsOk(c: Cache, v: View) {
    && CoinFlagsOk(c.coins, v.utxo)
    && NullifierFlagsOk(c.nullifiers, v.nullifiers)
    && AnchorFlagsOk(c.anchors, v.anchors)
  }

  ghost predicate NamedByRoot(m: map<Hash, SaplingTree>) {
    forall r | r in m :: r == RootOf(m[r])
  }

  ghost predicate Ok(t: Tower) {
    match t
    case Store(db) => NamedByRoot(db.anchors)
    case Layer(c, b) => Ok(b) && FlagsOk(c, ViewOf(b))
  }

  lemma {:induction false} AnchorsNamed(t: Tower)
    requires Ok(t)
    ensures NamedByRoot(ViewOf(t).anchors)
  {
    if t.Layer? { AnchorsNamed(t.base); }
  }

  // ---------- Caching an entry that agrees with the view below shows nothing new ----------

  lemma {:induction false} CacheCoin(m: CoinMap, below: map<OutPoint, Coin>, o: OutPoint, e: CoinEntry)
    requires CoinFlagsOk(m, below) && o !in m && !e.isDirty && CoinFlagOk(e, Lookup(below, o))
    ensures CoinFlagsOk(m[o := e], below)
    ensures CoinsOver(m[o := e], below) == CoinsOver(m, below)
  {
  }

  lemma {:induction false} CacheNullifier(m: NullifierMap, below: set<Hash>, n: Hash, e: NullifierEntry)
    requires NullifierFlagsOk(m, below) && n !in m && !e.isDirty && (e.entered <==> n in below)
    ensures NullifierFlagsOk(m[n := e], below)
    ensures NullifiersOver(m[n := e], below) == NullifiersOver(m, below)
  {
  }

  lemma {:induction false} CacheAnchor(m: AnchorMap, below: map<Hash, SaplingTree>, r: Hash, e: AnchorEntry)
    requires AnchorFlagsOk(m, below) && r !in m && !e.isDirty && e.entered && r in below && r == RootOf(e.tree)
    requires NamedByRoot(below)
    ensures AnchorFlagsOk(m[r := e], below)
    ensures AnchorsOver(m[r := e], below) == AnchorsOver(m, below)
  {
  }

  // ---------- Reads change nothing, in any layer ----------

  /** Same shape, same invariant and the same view in every layer. */
  ghost predicate Unchanged(t: Tower, t': Tower) {
    t'.Layer? == t.Layer? && Ok(t') && Views(t') == Views(t)
  }

  lemma {:induction false} UnchangedView(t: Tower, t': Tower)
    requires Unchanged(t, t')
    ensures ViewOf(t') == ViewOf(t)
  {
    assert Views(t')[0] == Views(t)[0];
  }

  lemma {:induction false} UnchangedLayer(t: Tower, c: Cache, b: Tower)
    requires t.Layer? && Unchanged(t.base, b)
    requires FlagsOk(c, ViewOf(b)) && Over(c, ViewOf(b)) == ViewOf(t)
    ensures Unchanged(t, Layer(c, b))
  {
  }

  lemma {:induction false} GetCoinIsRead(t: Tower, o: OutPoint)
    requires Ok(t)
    ensures var (t', c) := GetCoin(t, o);
      Unchanged(t, t') && Lookup(ViewOf(t).utxo, o) == if c.Some? && !c.value.IsSpent() then c else None
    decreases t, 1
  {
    if t.Layer? { FetchCoinIsRead(t, o); }
  }

  lemma {:induction false} FetchCoinIsRead(t: Tower, o: OutPoint)
    requires t.Layer? && Ok(t)
    ensures var (t', e) := FetchCoin(t, o);
      && Unchanged(t, t')
      && e == Lookup(t'.top.coins, o)
      && Lookup(ViewOf(t).utxo, o) == (if e.Some? && !e.value.coin.IsSpent() then Some(e.value.coin) else None)
      && (o !in t.top.coins && e.Some? ==> !e.value.isDirty && (e.value.isFresh <==> e.value.coin.IsSpent()))
    decreases t, 0
  {
    if o !in t.top.coins {
      GetCoinIsRead(t.base, o);
      var (b, c) := GetCoin(t.base, o);
      UnchangedView(t.base, b);
      if c.Some? {
        CacheCoin(t.top.coins, ViewOf(b).utxo, o, CoinEntry(c.value, false, c.value.IsSpent()));
      }
      UnchangedLayer(t, FetchCoin(t, o).0.top, b);
    }
  }

  /** HaveCoin answers for the visible coins, whatever the caches remember of spent ones. */
  lemma {:induction false} HaveCoinIsRead(t: Tower, o: OutPoint)
    requires t.Layer? && Ok(t)
    ensures var (t', have) := HaveCoin(t, o);
      Unchanged(t, t') && (have <==> o in ViewOf(t).utxo)
  {
    FetchCoinIsRead(t, o);
  }

  lemma {:induction false} GetNullifierIsRead(t: Tower, n: Hash)
    requires Ok(t)
    ensures var (t', r) := GetNullifier(t, n);
      Unchanged(t, t') && (r <==> n in ViewOf(t).nullifiers)
  {
    if t.Layer? && n !in t.top.nullifiers {
      GetNullifierIsRead(t.base, n);
      var (b, r) := GetNullifier(t.base, n);
      UnchangedView(t.base, b);
      CacheNullifier(t.top.nullifiers, ViewOf(b).nullifiers, n, NullifierEntry(r, false));
      UnchangedLayer(t, GetNullifier(t, n).0.top, b);
    }
  }

  lemma {:induction false} GetAnchorIsRead(t: Tower, rt: Hash)
    requires Ok(t)
    ensures var (t', r) := GetAnchor(t, rt);
      && Unchanged(t, t') && r == Lookup(ViewOf(t).anchors, rt)
      && (t.Layer? && r.Some? ==> rt in t'.top.anchors && t'.top.anchors[rt].tree == r.value)
  {
    if t.Layer? && rt !in t.top.anchors {
      GetAnchorIsRead(t.base, rt);
      AnchorsNamed(t.base);
      var (b, r) := GetAnchor(t.base, rt);
      UnchangedView(t.base, b);
      if r.Some? {
        CacheAnchor(t.top.anchors, ViewOf(b).anchors, rt, AnchorEntry(true, r.value, false));
      }
      UnchangedLayer(t, GetAnchor(t, rt).0.top, b);
    }
  }

  lemma {:induction false} GetBestBlockIsRead(t: Tower)
    requires Ok(t)
    ensures var (t', h) := GetBestBlock(t);
      Unchanged(t, t') && h == ViewOf(t).bestBlock && (t.Layer? ==> t'.top.hashBlock == h)
  {
    if t.Layer? && t.top.hashBlock == Null {
      GetBestBlockIsRead(t.base);
      var b := GetBestBlock(t.base).0;
      UnchangedView(t.base, b);
      UnchangedLayer(t, GetBestBlock(t).0.top, b);
    }
  }

  lemma {:induction false} GetBestAnchorIsRead(t: Tower)
    requires Ok(t)
    ensures var (t', h) := GetBestAnchor(t);
      Unchanged(t, t') && h == ViewOf(t).bestAnchor && (t.Layer? ==> t'.top.hashAnchor == h)
  {
    if t.Layer? && t.top.hashAnchor == Null {
      GetBestAnchorIsRead(t.base);
      var b := GetBestAnchor(t.base).0;
      UnchangedView(t.base, b);
      UnchangedLayer(t, GetBestAnchor(t).0.top, b);
    }
  }

  lemma {:induction false} UncacheIsRead(t: Tower, o: OutPoint)
    requires t.Layer? && Ok(t)
    ensures Unchanged(t, Uncache(t, o))
    ensures o in Uncache(t, o).top.coins <==> o in t.top.coins && (t.top.coins[o].isDirty || t.top.coins[o].isFresh)
    ensures forall p | p != o :: Lookup(Uncache(t, o).top.coins, p) == Lookup(t.top.coins, p)
  {
    var m, below := t.top.coins, ViewOf(t.base).utxo;
    if o in m && !m[o].isDirty && !m[o].isFresh {
      assert CoinFlagOk(m[o], Lookup(below, o));
      UncacheCoin(m, below, o);
      UnchangedLayer(t, Uncache(t, o).top, t.base);
    }
  }

  lemma {:induction false} UncacheCoin(m: CoinMap, below: map<OutPoint, Coin>, o: OutPoint)
    requires CoinFlagsOk(m, below) && o in m && !m[o].isDirty
    ensures CoinFlagsOk(m - {o}, below) && CoinsOver(m - {o}, below) == CoinsOver(m, below)
  {
    assert CoinFlagOk(m[o], Lookup(below, o));
    forall p | p in m - {o} ensures CoinFlagOk((m - {o})[p], Lookup(below, p)) {
    }
  }

  // ---------- Writes act on the top view as on a plain map ----------

  /** The stack `s` with its top view replaced. */
  function Onto(v: View, s: seq<View>): seq<View>
    requires |s| > 0
  {
    [v] + s[1..]
  }

  /** A write that leaves the view stack of the base alone changes only the top of the stack. */
  lemma {:induction false} OntoLayer(t: Tower, t': Tower)
    requires t.Layer? && t'.Layer? && Views(t.base) == Views(t'.base)
    ensures Views(t') == Onto(ViewOf(t'), Views(t))
  {
    assert Views(t)[1..] == Views(t.base);
  }

  lemma {:induction false} UnchangedBase(t: Tower, t': Tower)
    requires t.Layer? && Unchanged(t, t')
    ensures Views(t'.base) == Views(t.base)
  {
    assert Views(t)[1..] == Views(t.base) && Views(t')[1..] == Views(t'.base);
  }

  lemma {:induction false} PutCoin(m: CoinMap, below: map<OutPoint, Coin>, o: OutPoint, e: CoinEntry)
    requires CoinFlagsOk(m, below) && e.isDirty && !e.coin.IsSpent()
    ensures CoinFlagsOk(m[o := e], below) <==> (e.isFresh ==> o !in below)
    ensures CoinsOver(m[o := e], below) == CoinsOver(m, below)[o := e.coin]
  {
    assert m[o := e][o] == e;
    forall p | p in m[o := e] && p != o ensures CoinFlagOk(m[o := e][p], Lookup(below, p)) {
      assert p in m;
    }
  }

  lemma {:induction false} ClearCoin(m: CoinMap, below: map<OutPoint, Coin>, o: OutPoint)
    requires CoinFlagsOk(m, below)
    ensures var m' := m[o := CoinEntry(CLEARED_COIN, true, false)];
      CoinFlagsOk(m', below) && CoinsOver(m', below) == CoinsOver(m, below) - {o}
  {
    var m' := m[o := CoinEntry(CLEARED_COIN, true, false)];
    forall p | p in m' ensures CoinFlagOk(m'[p], Lookup(below, p)) {
    }
  }

  lemma {:induction false} EraseCoin(m: CoinMap, below: map<OutPoint, Coin>, o: OutPoint)
    requires CoinFlagsOk(m, below) && o !in below
    ensures CoinFlagsOk(m - {o}, below) && CoinsOver(m - {o}, below) == CoinsOver(m, below) - {o}
  {
    forall p | p in m - {o} ensures CoinFlagOk((m - {o})[p], Lookup(below, p)) {
    }
  }

  /** AddCoin throws exactly when it may not overwrite and its own entry is unspent; otherwise
      it shows the coin.  It keeps the flag invariant exactly when it does not mark FRESH a
      coin that the layer below still shows. */
  lemma {:induction false} AddCoinIsUpdate(t: Tower, o: OutPoint, coin: Coin, overwrite: bool)
    requires t.Layer? && Ok(t) && !coin.IsSpent()
    ensures AddCoin(t, o, coin, overwrite).None?
            <==> !coin.IsDropped() && !overwrite && o in t.top.coins && !t.top.coins[o].coin.IsSpent()
    ensures AddCoin(t, o, coin, overwrite).Some? ==> var t' := AddCoin(t, o, coin, overwrite).value;
      && t'.Layer? && t'.base == t.base
      && ViewOf(t') == (if coin.IsDropped() then ViewOf(t) else ViewOf(t).(utxo := ViewOf(t).utxo[o := coin]))
      && (Ok(t') <==> coin.IsDropped() || overwrite || o in t.top.coins || o !in ViewOf(t.base).utxo)
  {
    var r := AddCoin(t, o, coin, overwrite);
    if r.Some? && !coin.IsDropped() {
      PutCoin(t.top.coins, ViewOf(t.base).utxo, o, r.value.top.coins[o]);
      assert o in t.top.coins ==> CoinFlagOk(t.top.coins[o], Lookup(ViewOf(t.base).utxo, o));
    }
  }

  /** The caller's side of AddCoin: overwriting, or a coin that is not visible. */
  lemma {:induction false} AddCoinAllowed(t: Tower, o: OutPoint, coin: Coin, overwrite: bool)
    requires t.Layer? && Ok(t) && !coin.IsSpent() && (overwrite || o !in ViewOf(t).utxo)
    ensures var r := AddCoin(t, o, coin, overwrite);
      && r.Some? && r.value.Layer? && Ok(r.value)
      && Views(r.value) == if coin.IsDropped() then Views(t) else Onto(ViewOf(t).(utxo := ViewOf(t).utxo[o := coin]), Views(t))
  {
    AddCoinIsUpdate(t, o, coin, overwrite);
    OntoLayer(t, AddCoin(t, o, coin, overwrite).value);
  }

  lemma {:induction false} SpendCoinIsRemoval(t: Tower, o: OutPoint)
    requires t.Layer? && Ok(t)
    ensures var t' := SpendCoin(t, o);
      && t'.Layer? && Ok(t') && Views(t') == Onto(ViewOf(t).(utxo := ViewOf(t).utxo - {o}), Views(t))
      && (o in t'.top.coins ==> t'.top.coins[o].coin.IsSpent() && t'.top.coins[o].isDirty && !t'.top.coins[o].isFresh)
      && (o in t.top.coins ==> (o in t'.top.coins <==> !t.top.coins[o].isFresh))
  {
    FetchCoinIsRead(t, o);
    var (f, e) := FetchCoin(t, o);
    UnchangedView(t, f);
    UnchangedBase(t, f);
    if e.None? {
      assert ViewOf(t).utxo - {o} == ViewOf(t).utxo;
      OntoLayer(t, f);
    } else {
      SpendEntry(f, o);
      OntoLayer(t, SpendCoin(t, o));
    }
  }

  /** Spending an entry that is already in the top cache. */
  lemma {:induction false} SpendEntry(f: Tower, o: OutPoint)
    requires f.Layer? && Ok(f) && o in f.top.coins
    ensures var t' := SpendCoin(f, o);
      t'.Layer? && t'.base == f.base && Ok(t') && ViewOf(t') == ViewOf(f).(utxo := ViewOf(f).utxo - {o})
  {
    var below := ViewOf(f.base).utxo;
    assert CoinFlagOk(f.top.coins[o], Lookup(below, o));
    if f.top.coins[o].isFresh {
      EraseCoin(f.top.coins, below, o);
    } else {
      ClearCoin(f.top.coins, below, o);
    }
  }

  /** What AddCoins does to a plain map: banned outputs are removed, unspendable ones ignored. */
  function PlainAddCoins(u: map<OutPoint, Coin>, txid: Hash, coins: seq<Coin>,
          banned: set<OutPoint>): map<OutPoint, Coin> {
    if coins == [] then u
    else
      var last := |coins| - 1;
      var u' := PlainAddCoins(u, txid, coins[..last], banned);
      var o := OutPoint(txid, last);
      if o in banned then u' - {o} else if coins[last].IsDropped() then u' else u'[o := coins[last]]
  }

  lemma {:induction false} PlainAddCoinsElsewhere(u: map<OutPoint, Coin>, txid: Hash, coins: seq<Coin>,
          banned: set<OutPoint>, o: OutPoint)
    requires o.hash != txid || o.n >= |coins|
    ensures Lookup(PlainAddCoins(u, txid, coins, banned), o) == Lookup(u, o)
  {
    if coins != [] { PlainAddCoinsElsewhere(u, txid, coins[..|coins| - 1], banned, o); }
  }

  lemma {:induction false} AddOutputIsPlain(t: Tower, o: OutPoint, coin: Coin, check: bool, banned: set<OutPoint>)
    requires t.Layer? && Ok(t) && !coin.IsSpent() && (check || o !in ViewOf(t).utxo)
    ensures var r := AddOutput(t, o, coin, check, banned);
      && r.Some? && r.value.Layer? && Ok(r.value)
      && var u := ViewOf(t).utxo;
         var u' := if o in banned then u - {o} else if coin.IsDropped() then u else u[o := coin];
         Views(r.value) == Onto(ViewOf(t).(utxo := u'), Views(t))
  {
    if o in banned {
      SpendCoinIsRemoval(t, o);
    } else if check {
      FetchCoinIsRead(t, o);
      var (m, have) := HaveCoin(t, o);
      UnchangedView(t, m);
      AddCoinAllowed(m, o, coin, have);
      assert Onto(ViewOf(t), Views(t)) == Views(t);
    } else {
      AddCoinAllowed(t, o, coin, false);
      assert Onto(ViewOf(t), Views(t)) == Views(t);
    }
  }

  /** With check = true AddCoins needs nothing of the view; with check = false it needs the
      outputs it adds to be invisible beforehand.  It then never throws. */
  lemma {:induction false} AddCoinsIsPlain(t: Tower, txid: Hash, coins: seq<Coin>, check: bool, banned: set<OutPoint>)
    requires t.Layer? && Ok(t)
    requires forall c | c in coins :: !c.IsSpent()
    requires check || forall i | 0 <= i < |coins| :: OutPoint(txid, i) !in ViewOf(t).utxo
    ensures var r := AddCoins(t, txid, coins, check, banned);
      && r.Some? && Ok(r.value)
      && Views(r.value) == Onto(ViewOf(t).(utxo := PlainAddCoins(ViewOf(t).utxo, txid, coins, banned)), Views(t))
  {
    if coins == [] {
      assert Onto(ViewOf(t), Views(t)) == Views(t);
    } else {
      var last := |coins| - 1;
      AddCoinsIsPlain(t, txid, coins[..last], check, banned);
      var m := AddCoins(t, txid, coins[..last], check, banned).value;
      assert Views(m)[0] == ViewOf(m);
      PlainAddCoinsElsewhere(ViewOf(t).utxo, txid, coins[..last], banned, OutPoint(txid, last));
      AddOutputIsPlain(m, OutPoint(txid, last), coins[last], check, banned);
    }
  }

  function MarkAll(s: set<Hash>, ns: seq<Hash>, spent: bool): set<Hash> {
    if spent then s + Elements(ns) else s - Elements(ns)
  }

  lemma {:induction false} PutNullifier(m: NullifierMap, below: set<Hash>, n: Hash, spent: bool)
    requires NullifierFlagsOk(m, below)
    ensures NullifierFlagsOk(m[n := NullifierEntry(spent, true)], below)
    ensures NullifiersOver(m[n := NullifierEntry(spent, true)], below) ==
            if spent then NullifiersOver(m, below) + {n} else NullifiersOver(m, below) - {n}
  {
  }

  lemma {:induction false} SetNullifiersIsMark(t: Tower, ns: seq<Hash>, spent: bool)
    requires t.Layer? && Ok(t)
    ensures var t' := SetNullifiers(t, ns, spent);
      && t'.Layer? && t'.base == t.base && Ok(t')
      && ViewOf(t') == ViewOf(t).(nullifiers := MarkAll(ViewOf(t).nullifiers, ns, spent))
      && Views(t') == Onto(ViewOf(t'), Views(t))
  {
    if ns == [] {
      assert MarkAll(ViewOf(t).nullifiers, ns, spent) == ViewOf(t).nullifiers;
    } else {
      var last := |ns| - 1;
      SetNullifiersIsMark(t, ns[..last], spent);
      var m := SetNullifiers(t, ns[..last], spent);
      PutNullifier(m.top.nullifiers, ViewOf(t.base).nullifiers, ns[last], spent);
      MarkLast(ViewOf(t).nullifiers, ns, spent);
    }
    OntoLayer(t, SetNullifiers(t, ns, spent));
  }

  lemma {:induction false} MarkLast(s: set<Hash>, ns: seq<Hash>, spent: bool)
    requires ns != []
    ensures var s' := MarkAll(s, ns[..|ns| - 1], spent);
      MarkAll(s, ns, spent) == if spent then s' + {ns[|ns| - 1]} else s' - {ns[|ns| - 1]}
  {
    assert ns == ns[..|ns| - 1] + [ns[|ns| - 1]];
    assert Elements(ns) == Elements(ns[..|ns| - 1]) + {ns[|ns| - 1]};
  }

  function PlainPush(v: View, tree: SaplingTree): View {
    if v.bestAnchor == RootOf(tree) then v
    else v.(anchors := v.anchors[RootOf(tree) := tree], bestAnchor := RootOf(tree))
  }

  function PlainPop(v: View, newrt: Hash): View {
    if v.bestAnchor == newrt then v else v.(anchors := v.anchors - {v.bestAnchor}, bestAnchor := newrt)
  }

  lemma {:induction false} PutAnchor(m: AnchorMap, below: map<Hash, SaplingTree>, r: Hash, e: AnchorEntry)
    requires AnchorFlagsOk(m, below) && e.isDirty && r == RootOf(e.tree)
    ensures AnchorFlagsOk(m[r := e], below)
    ensures AnchorsOver(m[r := e], below) ==
            if e.entered then AnchorsOver(m, below)[r := e.tree] else AnchorsOver(m, below) - {r}
  {
  }

  lemma {:induction false} PushAnchorIsInsert(t: Tower, tree: SaplingTree)
    requires t.Layer? && Ok(t)
    ensures var t' := PushAnchor(t, tree);
      t'.Layer? && Ok(t') && Views(t') == Onto(PlainPush(ViewOf(t), tree), Views(t))
  {
    GetBestAnchorIsRead(t);
    var b := GetBestAnchor(t).0;
    UnchangedView(t, b);
    UnchangedBase(t, b);
    PutAnchor(b.top.anchors, ViewOf(b.base).anchors, RootOf(tree), AnchorEntry(true, tree, true));
    OntoLayer(t, PushAnchor(t, tree));
  }

  /** PopAnchor's assertion fails exactly when the current best anchor is not visible. */
  lemma {:induction false} PopAnchorIsRemoval(t: Tower, newrt: Hash)
    requires t.Layer? && Ok(t) && newrt != Null
    ensures PopAnchor(t, newrt).Some? <==> newrt == ViewOf(t).bestAnchor || ViewOf(t).bestAnchor in ViewOf(t).anchors
    ensures PopAnchor(t, newrt).Some? ==> var t' := PopAnchor(t, newrt).value;
      t'.Layer? && Ok(t') && Views(t') == Onto(PlainPop(ViewOf(t), newrt), Views(t))
  {
    GetBestAnchorIsRead(t);
    var (b, best) := GetBestAnchor(t);
    UnchangedView(t, b);
    UnchangedBase(t, b);
    if best == newrt {
      OntoLayer(t, b);
    } else {
      GetAnchorIsRead(b, best);
      var (a, tree) := GetAnchor(b, best);
      UnchangedView(b, a);
      UnchangedBase(b, a);
      if tree.Some? {
        PutAnchor(a.top.anchors, ViewOf(a.base).anchors, best, AnchorEntry(false, tree.value, true));
        OntoLayer(t, PopAnchor(t, newrt).value);
      }
    }
  }

  // ---------- Flushing ----------

  /** One coin: what the merged entry shows and whether its flags are right. */
  lemma {:induction false} MergeCoinCorrect(c: Option<CoinEntry>, p: Option<CoinEntry>, below: Option<Coin>)
    requires p.Some? ==> CoinFlagOk(p.value, below)
    requires c.Some? ==> CoinFlagOk(c.value, Shown(p, below))
    ensures !Misapplied(c, p)
    ensures MergeCoin(c, p).Some? ==> CoinFlagOk(MergeCoin(c, p).value, below)
    ensures Shown(MergeCoin(c, p), below) == Shown(c, Shown(p, below))
  {
  }

  function Shown(e: Option<CoinEntry>, below: Option<Coin>): Option<Coin> {
    if e.None? then below else if e.value.coin.IsSpent() then None else Some(e.value.coin)
  }

  lemma {:induction false} ShownAt(m: CoinMap, below: map<OutPoint, Coin>, o: OutPoint)
    ensures Lookup(CoinsOver(m, below), o) == Shown(Lookup(m, o), Lookup(below, o))
  {
  }

  lemma {:induction false} MergeCoinsCorrect(child: CoinMap, parent: CoinMap, below: map<OutPoint, Coin>)
    requires CoinFlagsOk(parent, below) && CoinFlagsOk(child, CoinsOver(parent, below))
    ensures CanMergeCoins(child, parent)
    ensures CoinFlagsOk(MergeCoins(child, parent), below)
    ensures CoinsOver(MergeCoins(child, parent), below) == CoinsOver(child, CoinsOver(parent, below))
  {
    var m := MergeCoins(child, parent);
    var over := CoinsOver(parent, below);
    forall o
      ensures !Misapplied(Lookup(child, o), Lookup(parent, o))
      ensures o in m ==> CoinFlagOk(m[o], Lookup(below, o))
      ensures Lookup(CoinsOver(m, below), o) == Lookup(CoinsOver(child, over), o)
    {
      ShownAt(parent, below, o);
      ShownAt(child, over, o);
      ShownAt(m, below, o);
      MergeCoinCorrect(Lookup(child, o), Lookup(parent, o), Lookup(below, o));
      assert Lookup(m, o) == MergeCoin(Lookup(child, o), Lookup(parent, o));
    }
    SameLookups(CoinsOver(m, below), CoinsOver(child, over));
  }

  /** A dirty coin reaches the parent dirty.  It stays FRESH there only if the parent's own entry
      is, or has none, and a coin that nothing below knows leaves no trace once it is spent. */
  lemma {:induction false} MergeCoinsFlags(child: CoinMap, parent: CoinMap, o: OutPoint)
    requires o in child && child[o].isDirty
    ensures var m := MergeCoins(child, parent);
            var isFresh := if o in parent then parent[o].isFresh else child[o].isFresh;
      if child[o].coin.IsSpent() && isFresh then o !in m else o in m && m[o] == CoinEntry(child[o].coin, true, isFresh)
  {
    assert Lookup(MergeCoins(child, parent), o) == MergeCoin(Lookup(child, o), Lookup(parent, o));
  }

  /** Flush throws exactly when the view below is a database and the best block is unset, or when
      it is a cache with an unspent coin where the flushed one calls its own FRESH. */
  lemma {:induction false} FlushThrowsIff(t: Tower)
    requires t.Layer?
    ensures Flush(t).None? <==>
      if t.base.Store? then t.top.hashBlock == Null
      else exists o | o in t.top.coins && o in t.base.top.coins ::
        t.top.coins[o].isDirty && t.top.coins[o].isFresh && !t.base.top.coins[o].coin.IsSpent()
  {
    if t.base.Layer? {
      var m, p := t.top.coins, t.base.top.coins;
      if o :| o in m && Misapplied(Lookup(m, o), Lookup(p, o)) { assert o in p; }
      if o :| o in m && o in p && m[o].isDirty && m[o].isFresh && !p[o].coin.IsSpent() {
        assert Misapplied(Lookup(m, o), Lookup(p, o));
      }
    }
  }

  lemma {:induction false} MergeNullifiersCorrect(child: NullifierMap, parent: NullifierMap, below: set<Hash>)
    requires NullifierFlagsOk(parent, below) && NullifierFlagsOk(child, NullifiersOver(parent, below))
    ensures NullifierFlagsOk(MergeNullifiers(child, parent), below)
    ensures NullifiersOver(MergeNullifiers(child, parent), below) == NullifiersOver(child, NullifiersOver(parent, below))
  {
    var m := MergeNullifiers(child, parent);
    forall n
      ensures n in m ==> !m[n].isDirty ==> (m[n].entered <==> n in below)
      ensures n in NullifiersOver(m, below) <==> n in NullifiersOver(child, NullifiersOver(parent, below))
    {
      assert Lookup(m, n) == MergeNullifier(Lookup(child, n), Lookup(parent, n));
    }
  }

  function ShownAnchor(e: Option<AnchorEntry>, below: Option<SaplingTree>): Option<SaplingTree> {
    if e.None? then below else if e.value.entered then Some(e.value.tree) else None
  }

  ghost predicate AnchorEntryOk(r: Hash, e: Option<AnchorEntry>, below: Option<SaplingTree>) {
    e.Some? ==> r == RootOf(e.value.tree) && (!e.value.isDirty ==> (e.value.entered <==> below.Some?))
  }

  /** One anchor: equal roots are equal trees, so it does not matter whose tree is kept. */
  lemma {:induction false} MergeAnchorCorrect(r: Hash, c: Option<AnchorEntry>, p: Option<AnchorEntry>, below: Option<SaplingTree>)
    requires AnchorEntryOk(r, p, below) && AnchorEntryOk(r, c, ShownAnchor(p, below))
    requires below.Some? ==> r == RootOf(below.value)
    ensures AnchorEntryOk(r, MergeAnchor(c, p), below)
    ensures ShownAnchor(MergeAnchor(c, p), below) == ShownAnchor(c, ShownAnchor(p, below))
  {
  }

  lemma {:induction false} ShownAnchorAt(m: AnchorMap, below: map<Hash, SaplingTree>, r: Hash)
    ensures Lookup(AnchorsOver(m, below), r) == ShownAnchor(Lookup(m, r), Lookup(below, r))
  {
  }

  lemma {:induction false} MergeAnchorsCorrect(child: AnchorMap, parent: AnchorMap, below: map<Hash, SaplingTree>)
    requires AnchorFlagsOk(parent, below) && AnchorFlagsOk(child, AnchorsOver(parent, below)) && NamedByRoot(below)
    ensures AnchorFlagsOk(MergeAnchors(child, parent), below)
    ensures AnchorsOver(MergeAnchors(child, parent), below) == AnchorsOver(child, AnchorsOver(parent, below))
  {
    var m := MergeAnchors(child, parent);
    var over := AnchorsOver(parent, below);
    forall r
      ensures AnchorEntryOk(r, Lookup(m, r), Lookup(below, r))
      ensures Lookup(AnchorsOver(m, below), r) == Lookup(AnchorsOver(child, over), r)
    {
      ShownAnchorAt(parent, below, r);
      ShownAnchorAt(child, over, r);
      ShownAnchorAt(m, below, r);
      MergeAnchorCorrect(r, Lookup(child, r), Lookup(parent, r), Lookup(below, r));
      assert Lookup(m, r) == MergeAnchor(Lookup(child, r), Lookup(parent, r));
    }
    SameLookups(AnchorsOver(m, below), AnchorsOver(child, over));
    assert forall r | r in m :: AnchorEntryOk(r, Lookup(m, r), Lookup(below, r));
  }

  lemma {:induction false} NothingOver(c: Cache, v: View)
    requires c.coins == map[] && c.nullifiers == map[] && c.anchors == map[]
    ensures FlagsOk(c, v)
    ensures Over(c, v).utxo == v.utxo && Over(c, v).nullifiers == v.nullifiers && Over(c, v).anchors == v.anchors
  {
    assert CoinsOver(map[], v.utxo) == v.utxo;
    assert NullifiersOver(map[], v.nullifiers) == v.nullifiers;
    assert AnchorsOver(map[], v.anchors) == v.anchors;
  }

  /** Flushing into a parent cache never throws, keeps the invariant, leaves the child's own
      coins, nullifiers and anchors as they were and makes the parent show the same.  The
      parent's best block (and best anchor) agrees exactly when it was read or set in the
      flushed layer, or the parent's own was no different from the one below it. */
  lemma {:induction false} FlushIntoCache(t: Tower)
    requires t.Layer? && t.base.Layer? && Ok(t)
    ensures Flush(t).Some?
    ensures var t' := Flush(t).value;
      && t'.Layer? && t'.base.Layer? && t'.base.base == t.base.base && Ok(t')
      && var (v, child, parent) := (ViewOf(t), ViewOf(t'), ViewOf(t'.base));
      && child.utxo == parent.utxo == v.utxo
      && child.nullifiers == parent.nullifiers == v.nullifiers
      && child.anchors == parent.anchors == v.anchors
      && (parent.bestBlock == v.bestBlock
          <==> t.top.hashBlock != Null || ViewOf(t.base).bestBlock == ViewOf(t.base.base).bestBlock)
      && (parent.bestAnchor == v.bestAnchor
          <==> t.top.hashAnchor != Null || ViewOf(t.base).bestAnchor == ViewOf(t.base.base).bestAnchor)
      && (t.top.hashBlock != Null ==> child.bestBlock == v.bestBlock)
      && (t.top.hashAnchor != Null ==> child.bestAnchor == v.bestAnchor)
  {
    var c, p, g := t.top, t.base.top, ViewOf(t.base.base);
    MergeCoinsCorrect(c.coins, p.coins, g.utxo);
    MergeNullifiersCorrect(c.nullifiers, p.nullifiers, g.nullifiers);
    AnchorsNamed(t.base.base);
    MergeAnchorsCorrect(c.anchors, p.anchors, g.anchors);
    var t' := Flush(t).value;
    NothingOver(t'.top, ViewOf(t'.base));
  }

  lemma {:induction false} StoredCoin(child: CoinMap, db: map<OutPoint, Coin>, o: OutPoint)
    ensures Lookup(StoreCoins(child, db), o) == StoreCoin(Lookup(child, o), Lookup(db, o))
  {
  }

  lemma {:induction false} StoredAnchor(child: AnchorMap, db: map<Hash, SaplingTree>, r: Hash)
    ensures Lookup(StoreAnchors(child, db), r) == StoreAnchor(r, Lookup(child, r), Lookup(db, r))
  {
  }

  lemma {:induction false} WriteDbCoins(c: Cache, db: Db)
    requires CoinFlagsOk(c.coins, DbView(db).utxo)
    ensures DbView(WriteDb(c, db)).utxo == CoinsOver(c.coins, DbView(db).utxo)
  {
    hide StoreCoins, StoreNullifiers, StoreAnchors;
    var a, b := DbView(WriteDb(c, db)).utxo, CoinsOver(c.coins, DbView(db).utxo);
    forall o ensures Lookup(a, o) == Lookup(b, o) {
      StoredCoin(c.coins, db.coins, o);
      if o in c.coins { assert CoinFlagOk(c.coins[o], Lookup(DbView(db).utxo, o)); }
    }
    SameLookups(a, b);
  }

  /** The database always shows the empty root, whatever was flushed into it. */
  lemma {:induction false} WriteDbAnchors(c: Cache, db: Db)
    requires AnchorFlagsOk(c.anchors, DbView(db).anchors) && NamedByRoot(db.anchors)
    ensures NamedByRoot(WriteDb(c, db).anchors)
    ensures DbView(WriteDb(c, db)).anchors == AnchorsOver(c.anchors, DbView(db).anchors)[EMPTY_ROOT := EMPTY_TREE]
  {
    hide StoreCoins, StoreNullifiers, StoreAnchors;
    var m := WriteDb(c, db).anchors;
    forall r | r in m ensures r == RootOf(m[r]) {
      StoredAnchor(c.anchors, db.anchors, r);
    }
    var a, b := DbView(WriteDb(c, db)).anchors, AnchorsOver(c.anchors, DbView(db).anchors)[EMPTY_ROOT := EMPTY_TREE];
    forall r ensures Lookup(a, r) == Lookup(b, r) {
      StoredAnchor(c.anchors, db.anchors, r);
    }
    SameLookups(a, b);
  }

  /** Flushing into the database; the empty root cannot be un-anchored there. */
  lemma {:induction false} FlushIntoDb(t: Tower)
    requires t.Layer? && t.base.Store? && Ok(t)
    ensures Flush(t).Some? <==> t.top.hashBlock != Null
    ensures Flush(t).Some? ==> var t' := Flush(t).value;
      && t'.Layer? && t'.base.Store? && Ok(t')
      && var (v, child, parent) := (ViewOf(t), ViewOf(t'), ViewOf(t'.base));
      && child == parent
      && (parent == v <==> EMPTY_ROOT in v.anchors)
      && parent == v.(anchors := v.anchors[EMPTY_ROOT := EMPTY_TREE])
  {
    if t.top.hashBlock != Null {
      var t' := Flush(t).value;
      var db := t.base.db;
      WriteDbCoins(t.top, db);
      WriteDbAnchors(t.top, db);
      NothingOver(t'.top, ViewOf(t'.base));
      assert WriteDb(t.top, db).nullifiers == NullifiersOver(t.top.nullifiers, db.nullifiers);
      AnchorsNamed(t);
      SetAgain(ViewOf(t).anchors);
    }
  }

  lemma {:induction false} SetAgain(m: map<Hash, SaplingTree>)
    requires NamedByRoot(m)
    ensures m[EMPTY_ROOT := EMPTY_TREE] == m <==> EMPTY_ROOT in m
  {
    assert EMPTY_ROOT in m ==> m[EMPTY_ROOT] == EMPTY_TREE;
  }

  // ---------- Every run ----------

  datatype Op =
    | OpGetCoin(o: OutPoint)
    | OpAddCoin(o: OutPoint, coin: Coin, overwrite: bool)
    | OpAddCoins(txid: Hash, coins: seq<Coin>, check: bool, banned: set<OutPoint>)
    | OpSpendCoin(o: OutPoint)
    | OpUncache(o: OutPoint)
    | OpGetNullifier(n: Hash)
    | OpSetNullifiers(ns: seq<Hash>, spent: bool)
    | OpGetAnchor(rt: Hash)
    | OpPushAnchor(tree: SaplingTree)
    | OpPopAnchor(rt: Hash)
    | OpGetBestBlock
    | OpSetBestBlock(h: Hash)
    | OpGetBestAnchor
    | OpFlush
    | OpNewCache     // put a fresh CCoinsViewCache on top
    | OpDiscard      // destroy the top cache without flushing it

  /** One operation on the top cache; `None` is a thrown exception or a failed assertion. */
  function Step(t: Tower, op: Op): Option<Tower>
    requires op.OpAddCoin? ==> !op.coin.IsSpent()
    requires op.OpAddCoins? ==> forall c | c in op.coins :: !c.IsSpent()
  {
    if op.OpNewCache? then Some(Layer(EMPTY_CACHE, t))
    else if t.Store? then None
    else match op
      case OpGetCoin(o) => Some(GetCoin(t, o).0)
      case OpAddCoin(o, coin, overwrite) => AddCoin(t, o, coin, overwrite)
      case OpAddCoins(txid, coins, check, banned) => AddCoins(t, txid, coins, check, banned)
      case OpSpendCoin(o) => Some(SpendCoin(t, o))
      case OpUncache(o) => Some(Uncache(t, o))
      case OpGetNullifier(n) => Some(GetNullifier(t, n).0)
      case OpSetNullifiers(ns, spent) => Some(SetNullifiers(t, ns, spent))
      case OpGetAnchor(rt) => Some(GetAnchor(t, rt).0)
      case OpPushAnchor(tree) => Some(PushAnchor(t, tree))
      case OpPopAnchor(rt) => PopAnchor(t, rt)
      case OpGetBestBlock => Some(GetBestBlock(t).0)
      case OpSetBestBlock(h) => Some(SetBestBlock(t, h))
      case OpGetBestAnchor => Some(GetBestAnchor(t).0)
      case OpFlush => Flush(t)
      case OpDiscard => Some(t.base)
  }

  /** What the source asks of a caller, said on the plain stack of views; for a flush, also
      that the layer's two hashes were read or set. */
  ghost predicate Allowed(t: Tower, op: Op) {
    var v := ViewOf(t);
    match op
    case OpNewCache => true
    case OpAddCoin(o, coin, overwrite) => t.Layer? && !coin.IsSpent() && (overwrite || o !in v.utxo)
    case OpAddCoins(txid, coins, check, banned) =>
      && t.Layer? && (forall c | c in coins :: !c.IsSpent())
      && (check || forall i | 0 <= i < |coins| :: OutPoint(txid, i) !in v.utxo)
    case OpPopAnchor(rt) => t.Layer? && rt != Null && (rt == v.bestAnchor || v.bestAnchor in v.anchors)
    case OpSetBestBlock(h) => t.Layer? && h != Null
    case OpFlush => t.Layer? && t.top.hashBlock != Null && t.top.hashAnchor != Null && (t.base.Store? ==> EMPTY_ROOT in v.anchors)
    case _ => t.Layer?
  }

  /** The same operation on a stack of plain views. */
  function PlainStep(s: seq<View>, op: Op): seq<View>
    requires |s| > 0
  {
    var v := s[0];
    match op
    case OpNewCache => [v] + s
    case OpDiscard => s[1..]
    case OpFlush => if |s| == 1 then s else [v, v] + s[2..]
    case OpAddCoin(o, coin, _) => if coin.IsDropped() then s else Onto(v.(utxo := v.utxo[o := coin]), s)
    case OpAddCoins(txid, coins, _, banned) => Onto(v.(utxo := PlainAddCoins(v.utxo, txid, coins, banned)), s)
    case OpSpendCoin(o) => Onto(v.(utxo := v.utxo - {o}), s)
    case OpSetNullifiers(ns, spent) => Onto(v.(nullifiers := MarkAll(v.nullifiers, ns, spent)), s)
    case OpPushAnchor(tree) => Onto(PlainPush(v, tree), s)
    case OpPopAnchor(rt) => Onto(PlainPop(v, rt), s)
    case OpSetBestBlock(h) => Onto(v.(bestBlock := h), s)
    case _ => s
  }

  lemma {:induction false} FlushIsPlain(t: Tower)
    requires Ok(t) && Allowed(t, OpFlush)
    ensures Flush(t).Some? && Ok(Flush(t).value)
    ensures Views(Flush(t).value) == PlainStep(Views(t), OpFlush)
  {
    if t.base.Store? {
      FlushIntoDb(t);
      LastLayer(t);
      LastLayer(Flush(t).value);
    } else {
      FlushIntoCache(t);
      TwoLayers(t);
      TwoLayers(Flush(t).value);
    }
  }

  lemma {:induction false} LastLayer(t: Tower)
    requires t.Layer? && t.base.Store?
    ensures Views(t) == [ViewOf(t), ViewOf(t.base)]
  {
    assert Views(t.base) == [ViewOf(t.base)];
  }

  lemma {:induction false} TwoLayers(t: Tower)
    requires t.Layer? && t.base.Layer?
    ensures Views(t) == [ViewOf(t), ViewOf(t.base)] + Views(t.base.base)
  {
    assert Views(t) == [ViewOf(t)] + ([ViewOf(t.base)] + Views(t.base.base));
  }

  /** The operations that only move layers or the best-block hash. */
  lemma {:induction false} LayerStepRefines(t: Tower, op: Op)
    requires Ok(t) && Allowed(t, op) && (op.OpNewCache? || op.OpDiscard? || op.OpSetBestBlock?)
    ensures Step(t, op).Some? && Ok(Step(t, op).value)
    ensures Views(Step(t, op).value) == PlainStep(Views(t), op)
  {
    if op.OpNewCache? {
      NothingOver(EMPTY_CACHE, ViewOf(t));
    } else if op.OpDiscard? {
      assert Views(t)[1..] == Views(t.base);
    } else {
      OntoLayer(t, SetBestBlock(t, op.h));
    }
  }

  lemma {:induction false} StepRefines(t: Tower, op: Op)
    requires Ok(t) && Allowed(t, op)
    ensures Step(t, op).Some? && Ok(Step(t, op).value)
    ensures Views(Step(t, op).value) == PlainStep(Views(t), op)
  {
    hide Ok, Over, CoinFlagsOk, Flush, SpendCoin, AddCoin, AddCoins, GetCoin, GetAnchor, PushAnchor, PopAnchor;
    match op {
      case OpGetCoin(o) => GetCoinIsRead(t, o);
      case OpAddCoin(o, coin, overwrite) => AddCoinAllowed(t, o, coin, overwrite);
      case OpAddCoins(txid, coins, check, banned) => AddCoinsIsPlain(t, txid, coins, check, banned);
      case OpSpendCoin(o) => SpendCoinIsRemoval(t, o);
      case OpUncache(o) => UncacheIsRead(t, o);
      case OpGetNullifier(n) => GetNullifierIsRead(t, n);
      case OpSetNullifiers(ns, spent) => SetNullifiersIsMark(t, ns, spent);
      case OpGetAnchor(rt) => GetAnchorIsRead(t, rt);
      case OpPushAnchor(tree) => PushAnchorIsInsert(t, tree);
      case OpPopAnchor(rt) => PopAnchorIsRemoval(t, rt);
      case OpGetBestBlock => GetBestBlockIsRead(t);
      case OpGetBestAnchor => GetBestAnchorIsRead(t);
      case OpFlush => FlushIsPlain(t);
      case _ => LayerStepRefines(t, op);
    }
  }

  /** Every operation meets its caller's side of the contract; that none of them throws is not assumed. */
  ghost predicate RunAllowed(t: Tower, ops: seq<Op>)
    decreases |ops|
  {
    ops == [] || (Allowed(t, ops[0]) && (Step(t, ops[0]).Some? ==> RunAllowed(Step(t, ops[0]).value, ops[1..])))
  }

  /** `None` is a run in which an operation threw. */
  function Run(t: Tower, ops: seq<Op>): Option<Tower>
    requires RunAllowed(t, ops)
    decreases |ops|
  {
    if ops == [] then Some(t)
    else if Step(t, ops[0]).None? then None
    else Run(Step(t, ops[0]).value, ops[1..])
  }

  function PlainRun(s: seq<View>, ops: seq<Op>): seq<View>
    decreases |ops|
  {
    if ops == [] || s == [] then s else PlainRun(PlainStep(s, ops[0]), ops[1..])
  }

  /** Any run over any tower, with layers pushed, flushed and discarded along the way, throws nowhere and shows
      in every layer what the same run shows over a stack of plain views. */
  lemma {:induction false} RunRefines(t: Tower, ops: seq<Op>)
    requires Ok(t) && RunAllowed(t, ops)
    ensures Run(t, ops).Some? && Ok(Run(t, ops).value)
    ensures Views(Run(t, ops).value) == PlainRun(Views(t), ops)
    decreases |ops|
  {
    if ops != [] {
      StepRefines(t, ops[0]);
      RunRefines(Step(t, ops[0]).value, ops[1..]);
    }
  }

  /** Adding with overwrite = false over a coin that only a lower layer holds marks it FRESH:
      spending it then uncovers the old coin again instead of removing it. */
  lemma {:induction false} MisusedAddReappears(db: Db, o: OutPoint, coin: Coin)
    requires NamedByRoot(db.anchors) && o in db.coins && !db.coins[o].IsSpent() && !coin.IsSpent() && !coin.IsDropped()
    ensures var t := Layer(EMPTY_CACHE, Store(db));
      Ok(t) && AddCoin(t, o, coin, false).Some? && o in ViewOf(SpendCoin(AddCoin(t, o, coin, false).value, o)).utxo
  {
  }
}
