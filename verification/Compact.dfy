/** The compact form of a 256-bit number: a size in bytes and the three leading bytes
    (SetCompact and GetCompact of src/arith_uint256.cpp). */
module Compact {
  import opened Powers
  import opened ArithUint

  // ---------- What the two directions mean ----------

  function SizeOf(nCompact: nat): nat { nCompact / 0x100_0000 }

  /** The mantissa as SetCompact uses it: small sizes drop its low bytes. */
  function WordOf(nCompact: nat): nat {
    var word := nCompact % 0x80_0000;
    if SizeOf(nCompact) <= 3 then Quo(word, Pow(256, 3 - SizeOf(nCompact))) else word
  }

  /** The number a compact form stands for, before reduction modulo 2^256. */
  function Meant(nCompact: nat): nat {
    if SizeOf(nCompact) <= 3 then WordOf(nCompact) else WordOf(nCompact) * Pow(256, SizeOf(nCompact) - 3)
  }

  predicate Negative(nCompact: nat) { WordOf(nCompact) != 0 && nCompact / 0x80_0000 % 2 == 1 }

  predicate Overflows(nCompact: nat) {
    var size, word := SizeOf(nCompact), WordOf(nCompact);
    word != 0 && (size > 34 || (word > 0xff && size > 33) || (word > 0xffff && size > 32))
  }

  /** The length in bytes. */
  function ByteLength(v: nat): nat { if v == 0 then 0 else 1 + ByteLength(v / 256) }

  /** The three leading bytes. */
  function Leading(v: nat): nat {
    var size := ByteLength(v);
    if size <= 3 then v * Pow(256, 3 - size) else Quo(v, Pow(256, size - 3))
  }

  /** The size and mantissa that GetCompact writes: the top bit of the mantissa is the sign, so it is kept clear. */
  function CompactSize(v: nat): nat { ByteLength(v) + if Leading(v) >= 0x80_0000 then 1 else 0 }

  function Mantissa(v: nat): nat { if Leading(v) >= 0x80_0000 then Quo(Leading(v), 256) else Leading(v) }

  function CompactOf(v: nat): nat { CompactSize(v) * 0x100_0000 + Mantissa(v) }

  // ---------- Bounds ----------

  lemma {:induction false} ByteBounds(v: nat)
    ensures var n := ByteLength(v); if n == 0 then v == 0 else Pow(256, n - 1) <= v < Pow(256, n)
  {
    if v > 0 {
      var n := ByteLength(v);
      ByteBounds(v / 256);
      if n == 1 {
        assert Pow(256, 0) == 1 && Pow(256, 1) == 256 * Pow(256, 0);
      }
    }
  }

  lemma {:induction false} ByteLengthIs(v: nat, n: nat)
    requires if n == 0 then v == 0 else Pow(256, n - 1) <= v < Pow(256, n)
    ensures ByteLength(v) == n
  {
    hide Pow;
    ByteBounds(v);
    var m := ByteLength(v);
    if m < n { PowGrows(256, m, n - 1); } else if n < m { PowGrows(256, n, m - 1); }
  }

  /** Bits and bytes. */
  lemma {:induction false} BytesFromBits(v: nat, bits: nat)
    requires IsBitLength(v, bits)
    ensures ByteLength(v) == (bits + 7) / 8
  {
    hide Pow;
    if bits > 0 {
      var n := (bits + 7) / 8;
      Pow2of8();
      PowMul(2, 8, n);
      PowMul(2, 8, n - 1);
      PowGrows(2, bits, 8 * n);
      PowGrows(2, 8 * (n - 1), bits - 1);
      ByteLengthIs(v, n);
    }
  }

  lemma {:induction false} Pow2of8()
    ensures Pow(2, 8) == 256
  {
    assert Pow(2, 4) == 16;
    PowAdd(2, 4, 4);
  }

  lemma {:induction false} Cube()
    ensures Pow(256, 0) == 1 && Pow(256, 1) == 0x100 && Pow(256, 2) == 0x1_0000 && Pow(256, 3) == 0x100_0000
  {
    assert Pow(256, 1) == 256 * Pow(256, 0);
    assert Pow(256, 2) == 256 * Pow(256, 1);
  }

  /** Three bytes, the first of them not zero. */
  lemma {:induction false} LeadingBounds(v: nat)
    ensures Leading(v) < 0x100_0000 && (v > 0 ==> Leading(v) >= 0x1_0000)
  {
    hide Pow, Quo, Rem;
    Cube();
    ByteBounds(v);
    var n := ByteLength(v);
    if n == 0 {
    } else if n <= 3 {
      PowAdd(256, n, 3 - n);
      PowAdd(256, n - 1, 3 - n);
      Less(v, Pow(256, n), Pow(256, 3 - n));
      MulMono(Pow(256, n - 1), v, Pow(256, 3 - n), Pow(256, 3 - n));
    } else {
      var d := Pow(256, n - 3);
      PowAdd(256, 3, n - 3);
      PowAdd(256, 2, n - 3);
      QuoRem(v, d);
      QuotientLess(v, Quo(v, d), Rem(v, d), d, 0x100_0000);
      QuotientAtLeast(v, d, 0x1_0000);
    }
  }

  lemma {:induction false} QuotientAtLeast(v: nat, d: nat, k: nat)
    requires d > 0 && v >= k * d
    ensures Quo(v, d) >= k
  {
    hide Quo, Rem;
    QuoMonotone(k * d, v, d);
    DivideBack(k, 0, d);
  }

  lemma {:induction false} MantissaBounds(v: nat)
    ensures Mantissa(v) < 0x80_0000
    ensures Leading(v) >= 0x80_0000 ==> Mantissa(v) < 0x1_0000
  {
    hide Quo, Rem, Leading;
    LeadingBounds(v);
    QuoRem(Leading(v), 256);
  }

  // ---------- Monotone ----------

  lemma {:induction false} ByteLengthMonotone(v: nat, w: nat)
    requires v <= w
    ensures ByteLength(v) <= ByteLength(w)
  {
    hide Pow;
    ByteBounds(v);
    ByteBounds(w);
    var m, n := ByteLength(v), ByteLength(w);
    if n < m { PowGrows(256, n, m - 1); }
  }

  lemma {:induction false} LeadingMonotone(v: nat, w: nat)
    requires v <= w && ByteLength(v) == ByteLength(w)
    ensures Leading(v) <= Leading(w)
  {
    hide Pow, Quo, Rem;
    var n := ByteLength(v);
    if n <= 3 {
      MulMono(v, w, Pow(256, 3 - n), Pow(256, 3 - n));
    } else {
      QuoMonotone(v, w, Pow(256, n - 3));
    }
  }

  /** GetCompact keeps the order. */
  lemma {:induction false} CompactMonotone(v: nat, w: nat)
    requires v <= w
    ensures CompactOf(v) <= CompactOf(w)
  {
    hide Quo, Rem, Leading, ByteLength;
    ByteLengthMonotone(v, w);
    MantissaBounds(v);
    MantissaBounds(w);
    LeadingBounds(w);
    if ByteLength(v) == ByteLength(w) {
      LeadingMonotone(v, w);
      QuoMonotone(Leading(v), Leading(w), 256);
    } else {
      NotEmpty(w);
    }
  }

  lemma {:induction false} NotEmpty(w: nat)
    requires ByteLength(w) > 0
    ensures w > 0
  {
  }

  // ---------- Overflow ----------

  /** 2^256 in bytes. */
  lemma {:induction false} Modulus256()
    ensures Weight(8) == Pow(256, 32)
  {
    hide Pow;
    WordSize();
    Pow2of8();
    PowMul(2, 32, 8);
    PowMul(2, 8, 32);
  }

  /** A mantissa of at most m bytes reaches n bytes just if it is long enough. */
  lemma {:induction false} Reaches(word: nat, e: nat, n: nat)
    ensures e <= n ==> (word * Pow(256, e) >= Pow(256, n) <==> word >= Pow(256, n - e))
    ensures e >= n && word > 0 ==> word * Pow(256, e) >= Pow(256, n)
  {
    hide Pow;
    if e <= n {
      PowAdd(256, n - e, e);
      if word >= Pow(256, n - e) {
        MulMono(Pow(256, n - e), word, Pow(256, e), Pow(256, e));
      } else {
        Less(word, Pow(256, n - e), Pow(256, e));
      }
    }
    if e >= n && word > 0 {
      PowGrows(256, n, e);
      MulMono(1, word, Pow(256, n), Pow(256, e));
    }
  }

  /** The overflow flag is set exactly when the number meant does not fit. */
  lemma {:induction false} OverflowExact(nCompact: nat)
    ensures Overflows(nCompact) <==> Meant(nCompact) >= Weight(8)
  {
    hide Pow, Weight, Quo, Rem;
    Modulus256();
    Cube();
    var size, word := SizeOf(nCompact), WordOf(nCompact);
    if size <= 3 {
      QuoSmall(nCompact % 0x80_0000, Pow(256, 3 - size));
      PowGrows(256, 3, 32);
    } else {
      var e := size - 3;
      Reaches(word, e, 32);
      if e <= 29 { PowGrows(256, 3, 32 - e); }
    }
  }

  // ---------- Round trip ----------

  /** v with its low k bytes cleared. */
  function Cleared(v: nat, k: nat): nat { Quo(v, Pow(256, k)) * Pow(256, k) }

  /** How many low bytes the compact form of v loses. */
  function Lost(v: nat): nat { if CompactSize(v) > 3 then CompactSize(v) - 3 else 0 }

  lemma {:induction false} Fields(v: nat)
    ensures SizeOf(CompactOf(v)) == CompactSize(v) && CompactOf(v) % 0x80_0000 == Mantissa(v) && CompactOf(v) / 0x80_0000 % 2 == 0
  {
    hide Leading, ByteLength, Quo, Rem;
    MantissaBounds(v);
    var c, m := CompactSize(v), Mantissa(v);
    assert (c * 0x100_0000 + m) / 0x100_0000 == c;
    assert (c * 0x100_0000 + m) / 0x80_0000 == 2 * c;
  }

  /** Small numbers keep everything. */
  lemma {:induction false} SmallBack(v: nat)
    requires CompactSize(v) <= 3
    ensures Quo(Mantissa(v), Pow(256, 3 - CompactSize(v))) == v
  {
    hide Pow, Quo, Rem, ByteLength;
    var n := ByteLength(v);
    Cube();
    if Leading(v) >= 0x80_0000 {
      var p := Pow(256, 2 - n);
      PowAdd(256, 2 - n, 1);
      MulAssoc(v, p, 256);
      DivideBack(v * p, 0, 256);
      DivideBack(v, 0, p);
    } else {
      DivideBack(v, 0, Pow(256, 3 - n));
    }
  }

  /** Larger numbers keep their leading bytes. */
  lemma {:induction false} LargeBack(v: nat)
    requires CompactSize(v) > 3
    ensures Mantissa(v) == Quo(v, Pow(256, CompactSize(v) - 3))
  {
    hide Pow, Quo, Rem, ByteLength;
    var n := ByteLength(v);
    Cube();
    if Leading(v) >= 0x80_0000 {
      if n == 3 {
        assert Leading(v) == v * Pow(256, 0);
      } else {
        PowAdd(256, n - 3, 1);
        QuoTwice(v, Pow(256, n - 3), 256);
      }
    }
  }

  /** SetCompact(GetCompact(x)) is x with only its low bytes cleared, without flags. */
  lemma {:induction false} CompactBack(v: nat)
    requires v < Weight(8)
    ensures Meant(CompactOf(v)) == Cleared(v, Lost(v)) <= v
    ensures !Negative(CompactOf(v)) && !Overflows(CompactOf(v))
  {
    hide Pow, Weight, Quo, Rem, ByteLength, Leading, CompactSize, Mantissa, CompactOf;
    Fields(v);
    Cube();
    if CompactSize(v) <= 3 {
      SmallBack(v);
      DivideBack(v, 0, 1);
    } else {
      LargeBack(v);
    }
    QuoRem(v, Pow(256, Lost(v)));
    OverflowExact(CompactOf(v));
  }

  // ---------- The operations ----------

  lemma {:induction false} SignedFields(v: nat)
    ensures var c := CompactOf(v) + 0x80_0000;
      SizeOf(c) == CompactSize(v) && c % 0x80_0000 == Mantissa(v) && c / 0x80_0000 % 2 == 1
  {
    hide Leading, ByteLength, Quo, Rem;
    MantissaBounds(v);
    var s, m := CompactSize(v), Mantissa(v);
    assert (s * 0x100_0000 + m + 0x80_0000) / 0x100_0000 == s;
    assert (s * 0x100_0000 + m + 0x80_0000) / 0x80_0000 == 2 * s + 1;
  }

  lemma {:induction false} MantissaZero(v: nat)
    ensures Mantissa(v) == 0 <==> v == 0
  {
    hide Quo, Rem, Pow;
    LeadingBounds(v);
    QuoRem(Leading(v), 256);
    if v == 0 { assert Leading(v) == 0 * Pow(256, 3); }
  }

  /** The sign comes back too, except that zero has none; the number is the same with either sign. */
  lemma {:induction false} SignBack(v: nat)
    requires v < Weight(8)
    ensures var c := CompactOf(v) + 0x80_0000;
      Meant(c) == Meant(CompactOf(v)) && (Negative(c) <==> v > 0) && (Mantissa(v) == 0 <==> v == 0)
  {
    hide Pow, Weight, Quo, Rem, ByteLength, Leading, CompactSize, Mantissa, CompactOf;
    Fields(v);
    SignedFields(v);
    MantissaZero(v);
    var c := CompactOf(v);
    assert WordOf(c) == WordOf(c + 0x80_0000);
    if CompactSize(v) <= 3 { SmallBack(v); }
  }

  method SetWord(x: BaseUint, w: uint32)
    requires x.pn.Length == 8
    modifies x.pn
    ensures x.Value() == w
  {
    x.SetZero();
    x.pn[0] := w;
    OneWord(x.pn[..]);
  }

  lemma {:induction false} OneWord(s: seq<uint32>)
    requires |s| > 0 && forall i | 0 < i < |s| :: s[i] == 0
    ensures LE(s) == s[0]
  {
    hide LE, Weight;
    LESplit(s, 1);
    LEZero(s[1..]);
    LENext(s, 0);
    NoWords(s);
    WeightNext(0);
  }

  method SetCompact(x: BaseUint, nCompact: uint32) returns (negative: bool, overflow: bool)
    requires x.pn.Length == 8
    modifies x.pn
    ensures x.Value() == Rem(Meant(nCompact), x.Modulus())
    ensures negative == Negative(nCompact) && overflow == Overflows(nCompact)
    ensures overflow <==> Meant(nCompact) >= x.Modulus()
  {
    hide LE, Weight, Pow, Quo, Rem;
    OverflowExact(nCompact);
    var nSize: nat, nWord: nat := nCompact / 0x100_0000, nCompact % 0x80_0000;
    if nSize <= 3 {
      QuoSmall(nWord, Pow(256, 3 - nSize));
      nWord := Quo(nWord, Pow(256, 3 - nSize));
      SetWord(x, nWord);
      Modulus256();
      PowGrows(256, 3, 32);
      Cube();
      DivideBack(0, nWord, x.Modulus());
    } else {
      SetWord(x, nWord);
      x.ShiftLeft(8 * (nSize - 3));
      Pow2of8();
      PowMul(2, 8, nSize - 3);
    }
    negative := nWord != 0 && nCompact / 0x80_0000 % 2 == 1;
    overflow := nWord != 0 && (nSize > 34 || (nWord > 0xff && nSize > 33) || (nWord > 0xffff && nSize > 32));
  }

  /** GetLow64 of a number that fits in a word. */
  lemma {:induction false} LowWord(s: seq<uint32>)
    requires |s| > 0 && LE(s) < BASE
    ensures LE(s) == s[0]
  {
    hide LE, Weight;
    LESplit(s, 1);
    LENext(s, 0);
    NoWords(s);
    WeightNext(0);
    var h := LE(s[1..]);
    if h > 0 {
      MulMono(1, h, BASE, BASE);
      assert false;
    }
  }

  method GetCompact(x: BaseUint, fNegative: bool) returns (r: uint32)
    requires x.pn.Length == 8
    ensures r == CompactOf(x.Value()) + if fNegative && Mantissa(x.Value()) != 0 then 0x80_0000 else 0
  {
    hide LE, Weight, Pow, Quo, Rem, IsBitLength, Leading, ByteLength;
    var bits := x.Bits();
    ghost var v := x.Value();
    BytesFromBits(v, bits);
    var nSize := (bits + 7) / 8;
    var nCompact := LeadingBytes(x, nSize);
    LeadingBounds(v);
    if nCompact >= 0x80_0000 {
      nCompact := Quo(nCompact, 256);
      nSize := nSize + 1;
    }
    MantissaBounds(v);
    assert nCompact < 0x80_0000 && nSize < 256;
    var sign := if fNegative && nCompact != 0 then 0x80_0000 else 0;
    r := nSize * 0x100_0000 + nCompact + sign;
  }

  method LeadingBytes(x: BaseUint, nSize: nat) returns (nCompact: nat)
    requires x.pn.Length == 8 && nSize == ByteLength(x.Value())
    ensures nCompact == Leading(x.Value())
  {
    hide LE, Weight, Pow, Quo, Rem;
    ghost var v := x.Value();
    LeadingBounds(v);
    ByteBounds(v);
    Cube();
    if nSize <= 3 {
      PowGrows(256, nSize, 3);
      LowWord(x.pn[..]);
      var w: nat := x.pn[0];
      nCompact := w * Pow(256, 3 - nSize);
    } else {
      var bn := new BaseUint.Copy(x);
      bn.ShiftRight(8 * (nSize - 3));
      Pow2of8();
      PowMul(2, 8, nSize - 3);
      LowWord(bn.pn[..]);
      nCompact := bn.pn[0];
    }
  }
}
