/** The layered coin view of src/coins.h as a value.

    A `Tower` is a database with any number of write-back caches stacked on it.  Every
    operation of `CCoinsViewCache` is given here as a function on towers that changes the
    same entries, flags and hashes as the source, including the entries that a *read*
    pulls into the layers underneath.  `CoinsProofs` shows that a tower behaves like a stack
    of plain maps, and `CoinsCache` that the heap objects implement these functions. */
module CoinsModel {
  import opened Options

  /** A note commitment tree. */
  datatype SaplingTree = SaplingTree(commitments: seq<nat>)

  /** A 256-bit hash, taken symbolically.  Tree roots are terms, so equal roots mean equal
      trees; `Null` is the all-zero hash that stands for "not read yet". */
  datatype Hash = Null | RootOf(tree: SaplingTree) | Digest(id: nat)

  const EMPTY_TREE := SaplingTree([])
  const EMPTY_ROOT := RootOf(EMPTY_TREE)

  datatype OutPoint = OutPoint(hash: Hash, n: nat)

  datatype TxOut = TxOut(nValue: int, scriptPubKey: seq<int>) {
    predicate IsNull() { nValue == -1 }
    /** First opcode OP_RETURN, or longer than MAX_SCRIPT_SIZE. */
    predicate IsUnspendable() { (|scriptPubKey| > 0 && scriptPubKey[0] == 0x6a) || |scriptPubKey| > 10000 }
    predicate IsZerocoinMint() { |scriptPubKey| > 0 && scriptPubKey[0] == 0xc1 }
  }

  datatype Coin = Coin(fCoinBase: bool, fCoinStake: bool, out: TxOut, nHeight: nat) {
    predicate IsSpent() { out.IsNull() }
    /** Outputs that AddCoin silently drops. */
    predicate IsDropped() { out.IsUnspendable() || out.IsZerocoinMint() }
  }

  /** What Coin::Clear leaves behind. */
  const CLEARED_COIN := Coin(false, false, TxOut(-1, []), 0)

  /** DIRTY: may differ from the layer below.  FRESH: the layer below shows no unspent coin. */
  datatype CoinEntry = CoinEntry(coin: Coin, isDirty: bool, isFresh: bool)
  datatype NullifierEntry = NullifierEntry(entered: bool, isDirty: bool)
  datatype AnchorEntry = AnchorEntry(entered: bool, tree: SaplingTree, isDirty: bool)

  type CoinMap = map<OutPoint, CoinEntry>
  type NullifierMap = map<Hash, NullifierEntry>
  type AnchorMap = map<Hash, AnchorEntry>

  datatype Db = Db(coins: map<OutPoint, Coin>, nullifiers: set<Hash>, anchors: map<Hash, SaplingTree>,
                   bestBlock: Hash, bestAnchor: Option<Hash>)

  datatype Cache = Cache(coins: CoinMap, nullifiers: NullifierMap, anchors: AnchorMap,
                         hashBlock: Hash, hashAnchor: Hash)

  datatype Tower = Store(db: Db) | Layer(top: Cache, base: Tower)

  const EMPTY_CACHE := Cache(map[], map[], map[], Null, Null)

  // ---------- Reads: each returns the tower with the entries it cached ----------

  function GetCoin(t: Tower, o: OutPoint): (Tower, Option<Coin>)
    decreases t, 1
  {
    match t
    case Store(db) => (t, if o in db.coins then Some(db.coins[o]) else None)
    case Layer(_, _) =>
      var (t', e) := FetchCoin(t, o);
      (t', if e.Some? then Some(e.value.coin) else None)
  }

  /** The entry for `o` in the top cache, pulled up from below when absent.  A spent coin
      pulled up from below is marked FRESH. */
  function FetchCoin(t: Tower, o: OutPoint): (Tower, Option<CoinEntry>)
    requires t.Layer?
    decreases t, 0
  {
    if o in t.top.coins then (t, Some(t.top.coins[o]))
    else
      var (b, c) := GetCoin(t.base, o);
      if c.None? then (Layer(t.top, b), None)
      else
        var e := CoinEntry(c.value, false, c.value.IsSpent());
        (Layer(t.top.(coins := t.top.coins[o := e]), b), Some(e))
  }

  function HaveCoin(t: Tower, o: OutPoint): (Tower, bool)
    requires t.Layer?
  {
    var (t', e) := FetchCoin(t, o);
    (t', e.Some? && !e.value.coin.IsSpent())
  }

  function GetNullifier(t: Tower, n: Hash): (Tower, bool) {
    match t
    case Store(db) => (t, n in db.nullifiers)
    case Layer(c, b) =>
      if n in c.nullifiers then (t, c.nullifiers[n].entered)
      else
        var (b', e) := GetNullifier(b, n);
        (Layer(c.(nullifiers := c.nullifiers[n := NullifierEntry(e, false)]), b'), e)
  }

  function GetAnchor(t: Tower, rt: Hash): (Tower, Option<SaplingTree>) {
    match t
    case Store(db) =>
      (t, if rt == EMPTY_ROOT then Some(EMPTY_TREE) else if rt in db.anchors then Some(db.anchors[rt]) else None)
    case Layer(c, b) =>
      if rt in c.anchors then (t, if c.anchors[rt].entered then Some(c.anchors[rt].tree) else None)
      else
        var (b', r) := GetAnchor(b, rt);
        if r.None? then (Layer(c, b'), None)
        else (Layer(c.(anchors := c.anchors[rt := AnchorEntry(true, r.value, false)]), b'), r)
  }

  function GetBestBlock(t: Tower): (Tower, Hash) {
    match t
    case Store(db) => (t, db.bestBlock)
    case Layer(c, b) =>
      if c.hashBlock != Null then (t, c.hashBlock)
      else
        var (b', h) := GetBestBlock(b);
        (Layer(c.(hashBlock := h), b'), h)
  }

  function GetBestAnchor(t: Tower): (Tower, Hash) {
    match t
    case Store(db) => (t, if db.bestAnchor.Some? then db.bestAnchor.value else EMPTY_ROOT)
    case Layer(c, b) =>
      if c.hashAnchor != Null then (t, c.hashAnchor)
      else
        var (b', h) := GetBestAnchor(b);
        (Layer(c.(hashAnchor := h), b'), h)
  }

  // ---------- Writes to the top cache ----------

  /** `None` is the std::logic_error "Adding new coin that replaces non-pruned entry". */
  function AddCoin(t: Tower, o: OutPoint, coin: Coin, overwrite: bool): Option<Tower>
    requires t.Layer? && !coin.IsSpent()
  {
    var m := t.top.coins;
    if coin.IsDropped() then Some(t)
    else
      var e := if o in m then m[o] else CoinEntry(CLEARED_COIN, false, false);
      if !overwrite && !e.coin.IsSpent() then None
      else
        var isFresh := e.isFresh || (!overwrite && !e.isDirty);
        Some(Layer(t.top.(coins := m[o := CoinEntry(coin, true, isFresh)]), t.base))
  }

  function SpendCoin(t: Tower, o: OutPoint): Tower
    requires t.Layer?
  {
    var (t', e) := FetchCoin(t, o);
    if e.None? then t'
    else if e.value.isFresh then Layer(t'.top.(coins := t'.top.coins - {o}), t'.base)
    else Layer(t'.top.(coins := t'.top.coins[o := CoinEntry(CLEARED_COIN, true, false)]), t'.base)
  }

  function Uncache(t: Tower, o: OutPoint): Tower
    requires t.Layer?
  {
    var m := t.top.coins;
    if o in m && !m[o].isDirty && !m[o].isFresh then Layer(t.top.(coins := m - {o}), t.base) else t
  }

  /** One iteration of the free function AddCoins: skip-list, optional overwrite check, add. */
  function AddOutput(t: Tower, o: OutPoint, coin: Coin, check: bool, banned: set<OutPoint>): Option<Tower>
    requires t.Layer? && !coin.IsSpent()
  {
    if o in banned then Some(SpendCoin(t, o))
    else if check then
      var (t', have) := HaveCoin(t, o);
      AddCoin(t', o, coin, have)
    else AddCoin(t, o, coin, false)
  }

  function AddCoins(t: Tower, txid: Hash, coins: seq<Coin>, check: bool, banned: set<OutPoint>): (r: Option<Tower>)
    requires t.Layer? && forall c | c in coins :: !c.IsSpent()
    ensures r.Some? ==> r.value.Layer?
  {
    if coins == [] then Some(t)
    else
      var last := |coins| - 1;
      var r := AddCoins(t, txid, coins[..last], check, banned);
      if r.None? then None else AddOutput(r.value, OutPoint(txid, last), coins[last], check, banned)
  }

  function SetNullifiers(t: Tower, ns: seq<Hash>, spent: bool): (r: Tower)
    requires t.Layer?
    ensures r.Layer?
  {
    if ns == [] then t
    else
      var last := |ns| - 1;
      var t' := SetNullifiers(t, ns[..last], spent);
      Layer(t'.top.(nullifiers := t'.top.nullifiers[ns[last] := NullifierEntry(spent, true)]), t'.base)
  }

  function PushAnchor(t: Tower, tree: SaplingTree): Tower
    requires t.Layer?
  {
    var (t', best) := GetBestAnchor(t);
    var rt := RootOf(tree);
    if best == rt then t'
    else Layer(t'.top.(anchors := t'.top.anchors[rt := AnchorEntry(true, tree, true)], hashAnchor := rt), t'.base)
  }

  /** `None` is the failing assertion that the current best anchor can be read. */
  function PopAnchor(t: Tower, newrt: Hash): Option<Tower>
    requires t.Layer?
  {
    var (t', best) := GetBestAnchor(t);
    if best == newrt then Some(t')
    else
      var (t'', tree) := GetAnchor(t', best);
      if tree.None? then None
      else
        var e := AnchorEntry(false, tree.value, true);
        Some(Layer(t''.top.(anchors := t''.top.anchors[best := e], hashAnchor := newrt), t''.base))
  }

  function SetBestBlock(t: Tower, h: Hash): Tower
    requires t.Layer?
  {
    Layer(t.top.(hashBlock := h), t.base)
  }

  // ---------- Flushing: BatchWrite of one cache into the view below ----------

  lemma {:induction false} SameLookups<K(!new), V(!new)>(a: map<K, V>, b: map<K, V>)
    requires forall k :: Lookup(a, k) == Lookup(b, k)
    ensures a == b
  {
    assert forall k :: k in a <==> Lookup(a, k).Some?;
    assert forall k :: k in b <==> Lookup(b, k).Some?;
    forall k | k in a ensures k in b && a[k] == b[k] { assert Lookup(a, k) == Lookup(b, k); }
  }

  /** The parent's entry after the child's entry `c` was written over its own entry `p`. */
  function MergeCoin(c: Option<CoinEntry>, p: Option<CoinEntry>): Option<CoinEntry> {
    if c.None? || !c.value.isDirty then p
    else if p.None? then
      if c.value.isFresh && c.value.coin.IsSpent() then None else Some(c.value)
    else
      if p.value.isFresh && c.value.coin.IsSpent() then None
      else Some(CoinEntry(c.value.coin, true, p.value.isFresh))
  }

  /** The case that throws "FRESH flag misapplied". */
  predicate Misapplied(c: Option<CoinEntry>, p: Option<CoinEntry>) {
    c.Some? && c.value.isDirty && c.value.isFresh && p.Some? && !p.value.coin.IsSpent()
  }

  function MergeCoins(child: CoinMap, parent: CoinMap): CoinMap {
    map o | o in child.Keys + parent.Keys && MergeCoin(Lookup(child, o), Lookup(parent, o)).Some?
      :: MergeCoin(Lookup(child, o), Lookup(parent, o)).value
  }

  ghost predicate CanMergeCoins(child: CoinMap, parent: CoinMap) {
    forall o | o in child :: !Misapplied(Lookup(child, o), Lookup(parent, o))
  }

  function MergeNullifier(c: Option<NullifierEntry>, p: Option<NullifierEntry>): Option<NullifierEntry> {
    if c.None? || !c.value.isDirty then p
    else if p.None? then Some(NullifierEntry(c.value.entered, true))
    else if p.value.entered != c.value.entered then Some(NullifierEntry(c.value.entered, true))
    else p
  }

  function MergeNullifiers(child: NullifierMap, parent: NullifierMap): NullifierMap {
    map n | n in child.Keys + parent.Keys && MergeNullifier(Lookup(child, n), Lookup(parent, n)).Some?
      :: MergeNullifier(Lookup(child, n), Lookup(parent, n)).value
  }

  /** An anchor the parent knows keeps the parent's tree; only `entered` is copied. */
  function MergeAnchor(c: Option<AnchorEntry>, p: Option<AnchorEntry>): Option<AnchorEntry> {
    if c.None? || !c.value.isDirty then p
    else if p.None? then Some(AnchorEntry(c.value.entered, c.value.tree, true))
    else if p.value.entered != c.value.entered then Some(AnchorEntry(c.value.entered, p.value.tree, true))
    else p
  }

  function MergeAnchors(child: AnchorMap, parent: AnchorMap): AnchorMap {
    map n | n in child.Keys + parent.Keys && MergeAnchor(Lookup(child, n), Lookup(parent, n)).Some?
      :: MergeAnchor(Lookup(child, n), Lookup(parent, n)).value
  }

  function MergeCache(child: Cache, parent: Cache): Cache {
    Cache(MergeCoins(child.coins, parent.coins), MergeNullifiers(child.nullifiers, parent.nullifiers),
          MergeAnchors(child.anchors, parent.anchors), child.hashBlock, child.hashAnchor)
  }

  /** The stored coin after the flushed entry `c`: a dirty spent coin is erased. */
  function StoreCoin(c: Option<CoinEntry>, d: Option<Coin>): Option<Coin> {
    if c.None? || !c.value.isDirty then d
    else if c.value.coin.IsSpent() then None
    else Some(c.value.coin)
  }

  function StoreCoins(child: CoinMap, db: map<OutPoint, Coin>): map<OutPoint, Coin> {
    map o | o in child.Keys + db.Keys && StoreCoin(Lookup(child, o), Lookup(db, o)).Some?
      :: StoreCoin(Lookup(child, o), Lookup(db, o)).value
  }

  predicate StoreNullifier(c: Option<NullifierEntry>, d: bool) {
    if c.None? || !c.value.isDirty then d else c.value.entered
  }

  function StoreNullifiers(child: NullifierMap, db: set<Hash>): set<Hash> {
    set n | n in child.Keys + db && StoreNullifier(Lookup(child, n), n in db)
  }

  /** The stored tree of root `r`; the empty root is never written. */
  function StoreAnchor(r: Hash, c: Option<AnchorEntry>, d: Option<SaplingTree>): Option<SaplingTree> {
    if c.None? || !c.value.isDirty then d
    else if !c.value.entered then None
    else if r == EMPTY_ROOT then d
    else Some(c.value.tree)
  }

  function StoreAnchors(child: AnchorMap, db: map<Hash, SaplingTree>): map<Hash, SaplingTree> {
    map r | r in child.Keys + db.Keys && StoreAnchor(r, Lookup(child, r), Lookup(db, r)).Some?
      :: StoreAnchor(r, Lookup(child, r), Lookup(db, r)).value
  }

  /** The database after a cache was flushed into it. */
  function WriteDb(child: Cache, db: Db): Db {
    Db(StoreCoins(child.coins, db.coins), StoreNullifiers(child.nullifiers, db.nullifiers),
       StoreAnchors(child.anchors, db.anchors),
       child.hashBlock, if child.hashAnchor == Null then db.bestAnchor else Some(child.hashAnchor))
  }

  /** `None` is a logic_error or a failed assertion in the view below. */
  function Flush(t: Tower): Option<Tower>
    requires t.Layer?
  {
    var cleared := Cache(map[], map[], map[], t.top.hashBlock, t.top.hashAnchor);
    match t.base
    case Store(db) =>
      if t.top.hashBlock == Null then None else Some(Layer(cleared, Store(WriteDb(t.top, db))))
    case Layer(p, g) =>
      if exists o | o in t.top.coins :: Misapplied(Lookup(t.top.coins, o), Lookup(p.coins, o)) then None
      else Some(Layer(cleared, Layer(MergeCache(t.top, p), g)))
  }
}
