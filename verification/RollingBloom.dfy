/** The rolling Bloom filter of src/bloom.cpp: two bits per cell hold the generation (1 to 3)
    in which the cell was last set, or 0. */
module RollingBloom {

  // ---------- Bits of a 64-bit word ----------

  type BitIndex = b: bv64 | b < 64

  predicate Bit(w: bv64, b: BitIndex) { (w >> b) & 1 == 1 }

  // The word operations have names so that proofs about several of them can hide their bits.

  function And(w: bv64, v: bv64): bv64 { w & v }
  function Or(w: bv64, v: bv64): bv64 { w | v }
  function Not(w: bv64): bv64 { !w }
  function Shifted(v: bool, b: BitIndex): bv64 { if v then 1 << b else 0 }
  function XorOnes(w: bv64, v: bool): bv64 { w ^ (if v then 0xFFFF_FFFF_FFFF_FFFF else 0) }

  lemma {:induction false} AndBit(w: bv64, v: bv64, b: BitIndex)
    ensures Bit(And(w, v), b) == (Bit(w, b) && Bit(v, b))
  {
    hide Bit;
    RawAnd(w, v, b);
  }

  lemma {:induction false} RawAnd(w: bv64, v: bv64, b: BitIndex)
    ensures Bit(w & v, b) == (Bit(w, b) && Bit(v, b))
  {
  }

  lemma {:induction false} OrBit(w: bv64, v: bv64, b: BitIndex)
    ensures Bit(Or(w, v), b) == (Bit(w, b) || Bit(v, b))
  {
    hide Bit;
    RawOr(w, v, b);
  }

  lemma {:induction false} RawOr(w: bv64, v: bv64, b: BitIndex)
    ensures Bit(w | v, b) == (Bit(w, b) || Bit(v, b))
  {
  }

  lemma {:induction false} NotBit(w: bv64, b: BitIndex)
    ensures Bit(Not(w), b) == !Bit(w, b)
  {
  }

  lemma {:induction false} ShiftedBit(v: bool, b: BitIndex, c: BitIndex)
    ensures Bit(Shifted(v, b), c) == (v && b == c)
  {
  }

  lemma {:induction false} ZeroBit(b: BitIndex)
    ensures !Bit(0, b)
  {
  }

  lemma {:induction false} XorOnesBit(w: bv64, v: bool, b: BitIndex)
    ensures Bit(XorOnes(w, v), b) == (Bit(w, b) != v)
  {
  }

  /** Clear bit b, then or in v. */
  function WithBit(w: bv64, b: BitIndex, v: bool): bv64 {
    Or(And(w, Not(Shifted(true, b))), Shifted(v, b))
  }

  lemma {:induction false} WithBitAt(w: bv64, b: BitIndex, v: bool, c: BitIndex)
    ensures Bit(WithBit(w, b, v), c) == if c == b then v else Bit(w, c)
  {
    hide Bit, And, Or, Not, Shifted;
    var keep := Not(Shifted(true, b));
    ShiftedBit(true, b, c);
    NotBit(Shifted(true, b), c);
    AndBit(w, keep, c);
    ShiftedBit(v, b, c);
    OrBit(And(w, keep), Shifted(v, b), c);
  }

  /** The mask that is zero exactly where the two words spell the generation (g1, g2). */
  function OtherGenerations(p1: bv64, p2: bv64, g1: bool, g2: bool): bv64 {
    Or(XorOnes(p1, g1), XorOnes(p2, g2))
  }

  lemma {:induction false} MaskedBit(p1: bv64, p2: bv64, g1: bool, g2: bool, c: BitIndex)
    ensures var mask := OtherGenerations(p1, p2, g1, g2);
            var other := Bit(p1, c) != g1 || Bit(p2, c) != g2;
      Bit(And(p1, mask), c) == (Bit(p1, c) && other) && Bit(And(p2, mask), c) == (Bit(p2, c) && other)
  {
    hide Bit, And, Or, XorOnes;
    var mask := OtherGenerations(p1, p2, g1, g2);
    XorOnesBit(p1, g1, c);
    XorOnesBit(p2, g2, c);
    OrBit(XorOnes(p1, g1), XorOnes(p2, g2), c);
    AndBit(p1, mask, c);
    AndBit(p2, mask, c);
  }

  // ---------- Cells ----------

  /** Bit b of the words 2p and 2p+1. */
  datatype Cell = Cell(p: nat, b: BitIndex)

  /** The two bits of a cell read as a number. */
  function Generation(data: seq<bv64>, c: Cell): (gen: int)
    requires 2 * c.p + 1 < |data|
    ensures 0 <= gen <= 3
  {
    (if Bit(data[2 * c.p], c.b) then 1 else 0) + (if Bit(data[2 * c.p + 1], c.b) then 2 else 0)
  }

  /** The generation number as its two bits. */
  function Low(g: int): bool { g % 2 == 1 }
  function High(g: int): bool { g / 2 == 1 }

  /** `data'` is `data` with the cells of generation g wiped, word by word. */
  ghost predicate Wiped(data: seq<bv64>, data': seq<bv64>, g: int) {
    && |data'| == |data| && |data| % 2 == 0
    && forall p | 0 <= p < |data| / 2 :: WipedPair(data, data', g, p)
  }

  ghost predicate WipedPair(data: seq<bv64>, data': seq<bv64>, g: int, p: int)
    requires |data'| == |data| && 0 <= p && 2 * p + 1 < |data|
  {
    var mask := OtherGenerations(data[2 * p], data[2 * p + 1], Low(g), High(g));
    data'[2 * p] == And(data[2 * p], mask) && data'[2 * p + 1] == And(data[2 * p + 1], mask)
  }

  lemma {:induction false} WipedCell(data: seq<bv64>, data': seq<bv64>, g: int, c: Cell)
    requires Wiped(data, data', g) && 1 <= g <= 3 && 2 * c.p + 1 < |data|
    ensures Generation(data', c) == if Generation(data, c) == g then 0 else Generation(data, c)
  {
    hide Bit, And, OtherGenerations;
    assert WipedPair(data, data', g, c.p);
    MaskedBit(data[2 * c.p], data[2 * c.p + 1], Low(g), High(g), c.b);
  }

  /** contains looks at both words at once. */
  lemma {:induction false} OrIsSet(data: seq<bv64>, c: Cell)
    requires 2 * c.p + 1 < |data|
    ensures Bit(Or(data[2 * c.p], data[2 * c.p + 1]), c.b) <==> Generation(data, c) != 0
  {
    hide Bit, Or;
    OrBit(data[2 * c.p], data[2 * c.p + 1], c.b);
  }

  function WithCell(data: seq<bv64>, c: Cell, g: int): (r: seq<bv64>)
    requires 2 * c.p + 1 < |data|
    ensures |r| == |data|
  {
    data[2 * c.p := WithBit(data[2 * c.p], c.b, Low(g))][2 * c.p + 1 := WithBit(data[2 * c.p + 1], c.b, High(g))]
  }

  lemma {:induction false} WithCellAt(data: seq<bv64>, c: Cell, g: int, x: Cell)
    requires 2 * c.p + 1 < |data| && 2 * x.p + 1 < |data| && 1 <= g <= 3
    ensures Generation(WithCell(data, c, g), x) == if x == c then g else Generation(data, x)
  {
    hide Bit, WithBit;
    if x.p == c.p {
      WithBitAt(data[2 * c.p], c.b, Low(g), x.b);
      WithBitAt(data[2 * c.p + 1], c.b, High(g), x.b);
    }
  }

  /** How many generations ago a cell was set, if the current one is g. */
  function Age(gen: int, g: int): int {
    if gen <= g then g - gen else g + 3 - gen
  }

  /** Lemire's replacement for x % n on 32-bit x; n is far below 2^32, so nothing wraps. */
  function FastMod(x: bv32, n: nat): (r: nat)
    ensures r * 0x1_0000_0000 <= x as int * n < (r + 1) * 0x1_0000_0000
    ensures n > 0 ==> r < n
  {
    FastModBound(x as int, n);
    (x as int * n) / 0x1_0000_0000
  }

  lemma {:induction false} FastModBound(x: int, n: nat)
    requires 0 <= x < 0x1_0000_0000
    ensures 0 <= x * n
    ensures n > 0 ==> (x * n) / 0x1_0000_0000 < n
  {
    assert 0 <= x * n;
    if n > 0 {
      assert (0x1_0000_0000 - x) * n > 0;
      assert x * n < 0x1_0000_0000 * n;
    }
  }

  class RollingBloomFilter<K(!new)> {
    const nEntriesPerGeneration: nat
    const nHashFuncs: nat
    const hash: (nat, nat, K) -> bv32      // RollingBloomHash(n, nTweak, key)
    const data: array<bv64>
    var nEntriesThisGeneration: nat
    var nGeneration: int
    var nTweak: nat
    ghost var inserted: seq<K>             // since the last reset, oldest first

    /** The cell that hash function n picks for a key. */
    function CellOf(tweak: nat, n: nat, key: K): (c: Cell)
      requires data.Length > 0 && data.Length % 2 == 0
      ensures 2 * c.p + 1 < data.Length
      ensures var x := hash(n, tweak, key) as int * data.Length; 2 * c.p <= x / 0x1_0000_0000 <= 2 * c.p + 1
      ensures c.b == (hash(n, tweak, key) % 64) as bv64
    {
      var h := hash(n, tweak, key);
      var pos := FastMod(h, data.Length);
      Cell(pos / 2, (h & 0x3F) as bv64)
    }

    /** Every cell of `key` is set, at most `age` generations ago. */
    ghost predicate SetSince(bits: seq<bv64>, key: K, age: int)
      requires |bits| == data.Length > 0 && data.Length % 2 == 0
      reads this`nTweak, this`nGeneration
    {
      forall n: nat | n < nHashFuncs ::
        var gen := Generation(bits, CellOf(nTweak, n, key));
        gen != 0 && Age(gen, nGeneration) <= age
    }

    /** How many generations ago the j-th inserted key arrived, counted up to two. */
    ghost function KeyAge(j: int): int
      reads this
    {
      var older := |inserted| - nEntriesThisGeneration - j;   // keys of earlier generations from j on
      if older <= 0 then 0 else if older <= nEntriesPerGeneration then 1 else 2
    }

    /** The keys the filter vouches for. */
    ghost predicate InWindow(j: int)
      reads this
    {
      0 <= j < |inserted| && j >= |inserted| - nEntriesThisGeneration - 2 * nEntriesPerGeneration
    }

    /** Hash function n picks cell c for the j-th inserted key. */
    ghost predicate Touches(j: int, n: nat, c: Cell)
      requires Shape()
      reads this
    {
      InWindow(j) && n < nHashFuncs && CellOf(nTweak, n, inserted[j]) == c
    }

    /** A key of the window that arrived at most `age` generations ago has the cell c. */
    ghost predicate SetBy(c: Cell, age: int)
      requires Shape()
      reads this
    {
      exists j, n: nat :: Touches(j, n, c) && KeyAge(j) <= age
    }

    /** A set cell was set by a key of the window, no later than the cell says. */
    ghost predicate Explained(bits: seq<bv64>, c: Cell)
      requires Shape() && |bits| == data.Length && 2 * c.p + 1 < data.Length
      reads this
    {
      var gen := Generation(bits, c);
      gen != 0 ==> SetBy(c, Age(gen, nGeneration))
    }

    ghost predicate Shape()
      reads this
    {
      && data.Length > 0 && data.Length % 2 == 0
      && 1 <= nGeneration <= 3
      && nEntriesThisGeneration <= |inserted|
      && (nEntriesPerGeneration > 0 ==> nEntriesThisGeneration <= nEntriesPerGeneration)
    }

    /** The first `upTo` keys, as far as they are in the window, are all there... */
    ghost predicate Kept(bits: seq<bv64>, upTo: int)
      requires Shape() && |bits| == data.Length
      reads this
    {
      forall j | InWindow(j) && j < upTo :: SetSince(bits, inserted[j], KeyAge(j))
    }

    /** ...and nothing else is. */
    ghost predicate Sound(bits: seq<bv64>)
      requires Shape() && |bits| == data.Length
      reads this
    {
      forall c: Cell | 2 * c.p + 1 < data.Length :: Explained(bits, c)
    }

    ghost predicate Valid()
      reads this, data
    {
      Shape() && Kept(data[..], |inserted|) && Sound(data[..])
    }

    /** A cell tells which keys of the window have it, and how long ago the latest of them came. */
    lemma {:induction false} CellMeans(c: Cell, age: int)
      requires Valid() && 2 * c.p + 1 < data.Length
      ensures SetBy(c, age) <==> Generation(data[..], c) != 0 && Age(Generation(data[..], c), nGeneration) <= age
    {
      hide Generation, CellOf, Age;
      if j, n: nat :| Touches(j, n, c) && KeyAge(j) <= age {
        assert SetSince(data[..], inserted[j], KeyAge(j));
      }
      assert Explained(data[..], c);
    }

    /** The filter remembers the keys of at least two and at most three generations. */
    lemma {:induction false} WindowSize(j: int)
      requires Shape() && nEntriesPerGeneration > 0
      ensures |inserted| - 2 * nEntriesPerGeneration <= j < |inserted| && 0 <= j ==> InWindow(j)
      ensures InWindow(j) ==> |inserted| - 3 * nEntriesPerGeneration <= j
    {
    }

    /** `nFilterBits` comes from the floating-point sizing, which is not modelled. */
    constructor (nElements: nat, nHashFuncs: nat, nFilterBits: nat, hash: (nat, nat, K) -> bv32, tweak: nat)
      requires 1 <= nFilterBits <= 0xFFFF_FFC0
      ensures Valid() && inserted == [] && fresh(data)
      ensures nElements <= 2 * nEntriesPerGeneration <= nElements + 1
      ensures this.nHashFuncs == nHashFuncs && this.hash == hash && nTweak == tweak && nGeneration == 1
      ensures nFilterBits <= 32 * data.Length < nFilterBits + 64
    {
      nEntriesPerGeneration := (nElements + 1) / 2;
      this.nHashFuncs, this.hash := nHashFuncs, hash;
      data := new bv64[2 * ((nFilterBits + 63) / 64)](_ => 0);
      nTweak, nEntriesThisGeneration, nGeneration, inserted := tweak, 0, 1, [];
      new;
      NothingSet();
    }

    lemma {:induction false} NothingSet()
      requires Shape() && forall i | 0 <= i < data.Length :: data[i] == 0
      ensures Sound(data[..])
    {
      forall c: Cell | 2 * c.p + 1 < data.Length ensures Generation(data[..], c) == 0 {
        ZeroBit(c.b);
      }
    }

    method Reset(tweak: nat)
      requires Valid()
      modifies this, data
      ensures Valid() && inserted == [] && nTweak == tweak
      ensures nEntriesThisGeneration == 0 && nGeneration == 1
      ensures forall i | 0 <= i < data.Length :: data[i] == 0
    {
      nTweak := tweak;
      nEntriesThisGeneration := 0;
      nGeneration := 1;
      inserted := [];
      for i := 0 to data.Length
        invariant inserted == [] && nGeneration == 1 && nEntriesThisGeneration == 0 && nTweak == tweak
        invariant forall k | 0 <= k < i :: data[k] == 0
      {
        data[i] := 0;
      }
      NothingSet();
    }

    /** Wipe the cells that hold generation g. */
    method Wipe(g: int)
      requires data.Length % 2 == 0
      modifies data
      ensures Wiped(old(data[..]), data[..], g)
    {
      hide And, OtherGenerations;
      ghost var was := data[..];
      var i := 0;
      while i < data.Length / 2
        invariant 0 <= i <= data.Length / 2
        invariant forall k | 2 * i <= k < data.Length :: data[k] == was[k]
        invariant forall p | 0 <= p < i :: WipedPair(was, data[..], g, p)
      {
        var p1, p2 := data[2 * i], data[2 * i + 1];
        var mask := OtherGenerations(p1, p2, Low(g), High(g));
        ghost var before := data[..];
        data[2 * i] := And(p1, mask);
        data[2 * i + 1] := And(p2, mask);
        forall p | 0 <= p < i + 1 ensures WipedPair(was, data[..], g, p) {
          if p < i { assert WipedPair(was, before, g, p); }
        }
        i := i + 1;
      }
    }

    /** Start the next generation, reusing the number of the one three back: what was set in
        that one is forgotten, and only that. */
    method Rotate()
      requires Valid() && nEntriesThisGeneration == nEntriesPerGeneration
      modifies this, data
      ensures Valid() && inserted == old(inserted) && nTweak == old(nTweak)
      ensures nEntriesThisGeneration == 0 && nGeneration == old(nGeneration) % 3 + 1
      ensures forall c: Cell | 2 * c.p + 1 < data.Length ::
        Generation(data[..], c) == if old(Generation(data[..], c)) == nGeneration then 0 else old(Generation(data[..], c))
    {
      hide Generation, CellOf;
      ghost var was := data[..];
      var g := nGeneration + 1;
      if g == 4 {
        g := 1;
      }
      Wipe(g);
      forall c: Cell | 2 * c.p + 1 < data.Length
        ensures Generation(data[..], c) == if Generation(was, c) == g then 0 else Generation(was, c)
      {
        WipedCell(was, data[..], g, c);
      }
      nEntriesThisGeneration := 0;
      nGeneration := g;
      KeysAged(was);
      CellsAged(was);
    }

    /** Rotation makes every key one generation older... */
    twostate lemma KeysAged(was: seq<bv64>)
      requires old(Valid()) && Rotated(was)
      ensures Kept(data[..], |inserted|)
    {
      hide Generation, CellOf;
      forall j, n: nat | InWindow(j) && n < nHashFuncs
        ensures var gen := Generation(data[..], CellOf(nTweak, n, inserted[j]));
          gen != 0 && Age(gen, nGeneration) <= KeyAge(j)
      {
        assert old(InWindow(j)) && old(KeyAge(j)) <= 1;
        assert old(SetSince(data[..], inserted[j], KeyAge(j)));
      }
    }

    /** ...and so it makes every cell that is left. */
    twostate lemma CellsAged(was: seq<bv64>)
      requires old(Valid()) && Rotated(was)
      ensures Sound(data[..])
    {
      hide Generation, CellOf;
      forall c: Cell | 2 * c.p + 1 < data.Length ensures Explained(data[..], c) {
        assert old(Explained(data[..], c));
        var gen := Generation(data[..], c);
        if gen != 0 {
          var age := old(Age(gen, nGeneration));
          assert age <= 1 && Age(gen, nGeneration) == age + 1;
          var j, n: nat :| old(Touches(j, n, c)) && old(KeyAge(j)) <= age;
          assert Touches(j, n, c) && KeyAge(j) <= age + 1;
        }
      }
    }

    twostate predicate Rotated(was: seq<bv64>)
      requires old(Valid())
      reads this, data
    {
      && was == old(data[..]) && inserted == old(inserted) && nTweak == old(nTweak)
      && old(nEntriesThisGeneration) == nEntriesPerGeneration && nEntriesThisGeneration == 0
      && nGeneration == old(nGeneration) % 3 + 1
      && forall c: Cell | 2 * c.p + 1 < data.Length ::
        Generation(data[..], c) == if Generation(was, c) == nGeneration then 0 else Generation(was, c)
    }

    /** The newest key is being entered: all others are in order. */
    ghost predicate Entering(key: K)
      reads this, data
    {
      && Shape() && Kept(data[..], |inserted| - 1) && Sound(data[..])
      && nEntriesThisGeneration > 0 && inserted[|inserted| - 1] == key
    }

    method SetCell(c: Cell)
      requires 2 * c.p + 1 < data.Length
      modifies data
      ensures data[..] == WithCell(old(data[..]), c, nGeneration)
    {
      hide WithBit;
      data[2 * c.p] := WithBit(data[2 * c.p], c.b, Low(nGeneration));
      data[2 * c.p + 1] := WithBit(data[2 * c.p + 1], c.b, High(nGeneration));
    }

    /** One turn of insert's loop. */
    method Mark(key: K, n: nat, ghost done: set<Cell>)
      requires Entering(key) && n < nHashFuncs
      requires forall c | c in done :: 2 * c.p + 1 < data.Length && Generation(data[..], c) == nGeneration
      modifies data
      ensures Entering(key)
      ensures forall c | c in done + {CellOf(nTweak, n, key)} ::
        2 * c.p + 1 < data.Length && Generation(data[..], c) == nGeneration
    {
      hide Generation, CellOf, WithCell;
      ghost var was := data[..];
      var c := CellOf(nTweak, n, key);
      SetCell(c);
      forall x: Cell | 2 * x.p + 1 < data.Length
        ensures Generation(data[..], x) == if x == c then nGeneration else Generation(was, x)
      {
        WithCellAt(was, c, nGeneration, x);
      }
      MarkKeeps(was, data[..], c, key, n);
      MarkExplains(was, data[..], c, key, n);
    }

    /** `bits` is `was` with cell c, which hash function n picks for the key, set in this generation. */
    ghost predicate Marked(was: seq<bv64>, bits: seq<bv64>, c: Cell, key: K, n: nat)
      requires Shape()
      reads this
    {
      && |was| == |bits| == data.Length && n < nHashFuncs && c == CellOf(nTweak, n, key)
      && forall x: Cell | 2 * x.p + 1 < data.Length ::
        Generation(bits, x) == if x == c then nGeneration else Generation(was, x)
    }

    lemma {:induction false} MarkKeeps(was: seq<bv64>, bits: seq<bv64>, c: Cell, key: K, n: nat)
      requires Shape() && Marked(was, bits, c, key, n) && Kept(was, |inserted| - 1)
      ensures Kept(bits, |inserted| - 1)
    {
      hide Generation, CellOf;
      forall j, k: nat | InWindow(j) && j < |inserted| - 1 && k < nHashFuncs
        ensures var gen := Generation(bits, CellOf(nTweak, k, inserted[j]));
          gen != 0 && Age(gen, nGeneration) <= KeyAge(j)
      {
        assert SetSince(was, inserted[j], KeyAge(j));
      }
    }

    lemma {:induction false} MarkExplains(was: seq<bv64>, bits: seq<bv64>, c: Cell, key: K, n: nat)
      requires Shape() && Marked(was, bits, c, key, n) && Sound(was)
      requires nEntriesThisGeneration > 0 && inserted[|inserted| - 1] == key
      ensures Sound(bits)
    {
      hide Generation, CellOf;
      forall x: Cell | 2 * x.p + 1 < data.Length ensures Explained(bits, x) {
        if x == c {
          var last := |inserted| - 1;
          assert Touches(last, n, c) && KeyAge(last) <= 0;
        } else {
          assert Explained(was, x);
        }
      }
    }

    lemma {:induction false} AllMarked(key: K, done: set<Cell>)
      requires data.Length > 0 && data.Length % 2 == 0 && 1 <= nGeneration <= 3
      requires forall k: nat | k < nHashFuncs :: CellOf(nTweak, k, key) in done
      requires forall c | c in done :: 2 * c.p + 1 < data.Length && Generation(data[..], c) == nGeneration
      ensures SetSince(data[..], key, 0)
    {
      hide Generation, CellOf;
    }

    /** The loop of insert. */
    method MarkAll(key: K)
      requires Entering(key)
      modifies data
      ensures Valid()
    {
      hide CellOf, Generation, Age, SetSince, Explained;
      ghost var done: set<Cell> := {};
      for n := 0 to nHashFuncs
        invariant Entering(key)
        invariant forall k: nat | k < n :: CellOf(nTweak, k, key) in done
        invariant forall c | c in done :: 2 * c.p + 1 < data.Length && Generation(data[..], c) == nGeneration
      {
        Mark(key, n, done);
        done := done + {CellOf(nTweak, n, key)};
      }
      AllMarked(key, done);
    }

    method Insert(key: K)
      requires Valid()
      modifies this, data
      ensures Valid() && inserted == old(inserted) + [key] && nTweak == old(nTweak)
      ensures nEntriesThisGeneration ==
        if old(nEntriesThisGeneration) == nEntriesPerGeneration then 1 else old(nEntriesThisGeneration) + 1
      ensures nGeneration ==
        if old(nEntriesThisGeneration) == nEntriesPerGeneration then old(nGeneration) % 3 + 1 else old(nGeneration)
    {
      if nEntriesThisGeneration == nEntriesPerGeneration {
        Rotate();
      }
      Arrive(key);
      MarkAll(key);
    }

    /** The counter goes up before the cells are set; nobody else's age changes. */
    method Arrive(key: K)
      requires Valid()
      requires nEntriesPerGeneration > 0 ==> nEntriesThisGeneration < nEntriesPerGeneration
      modifies this
      ensures Entering(key) && inserted == old(inserted) + [key] && nTweak == old(nTweak)
      ensures nEntriesThisGeneration == old(nEntriesThisGeneration) + 1 && nGeneration == old(nGeneration)
    {
      hide CellOf, Generation, Age;
      nEntriesThisGeneration := nEntriesThisGeneration + 1;
      inserted := inserted + [key];
      forall j | InWindow(j) && j < |inserted| - 1 ensures SetSince(data[..], inserted[j], KeyAge(j)) {
        assert old(SetSince(data[..], inserted[j], KeyAge(j)));
      }
      forall c: Cell | 2 * c.p + 1 < data.Length ensures Explained(data[..], c) {
        assert old(Explained(data[..], c));
        var gen := Generation(data[..], c);
        if gen != 0 {
          var j, n: nat :| old(Touches(j, n, c)) && old(KeyAge(j)) <= Age(gen, nGeneration);
          assert Touches(j, n, c);
        }
      }
    }

    lemma {:induction false} WindowIsSet(key: K)
      requires Valid()
      ensures (exists j :: InWindow(j) && inserted[j] == key) ==>
        forall n: nat | n < nHashFuncs :: SetBy(CellOf(nTweak, n, key), 2)
    {
      hide CellOf;
      if j :| InWindow(j) && inserted[j] == key {
        forall n: nat | n < nHashFuncs ensures SetBy(CellOf(nTweak, n, key), 2) {
          assert Touches(j, n, CellOf(nTweak, n, key));
        }
      }
    }

    /** Yes exactly when every cell of the key is a cell of some key in the window. */
    method Contains(key: K) returns (r: bool)
      requires Valid()
      ensures r <==> forall n: nat | n < nHashFuncs :: SetBy(CellOf(nTweak, n, key), 2)
      ensures (exists j :: InWindow(j) && inserted[j] == key) ==> r
    {
      hide CellOf, Generation;
      WindowIsSet(key);
      for n := 0 to nHashFuncs
        invariant forall k: nat | k < n :: SetBy(CellOf(nTweak, k, key), 2)
      {
        var c := CellOf(nTweak, n, key);
        CellMeans(c, 2);
        OrIsSet(data[..], c);
        if !Bit(Or(data[2 * c.p], data[2 * c.p + 1]), c.b) {
          return false;
        }
      }
      return true;
    }
  }
}
