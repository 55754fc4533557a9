/** Multi-word unsigned integers (src/arith_uint256.h, src/arith_uint256.cpp): arithmetic on arrays of
    32-bit words is arithmetic modulo 2^BITS. */
module ArithUint {
  import opened Powers

  const BASE := 0x1_0000_0000

  type uint32 = x: int | 0 <= x < BASE

  /** The word that sums and products of 32-bit words are accumulated in. */
  type uint64 = x: int | 0 <= x < BASE * BASE

  /** The weight of word n. */
  function Weight(n: nat): (w: nat)
    ensures w > 0
  {
    Pow(BASE, n)
  }

  lemma {:induction false} WeightNext(n: nat)
    ensures Weight(0) == 1 && Weight(n + 1) == BASE * Weight(n)
  {
  }

  lemma {:induction false} WeightAdd(m: nat, n: nat)
    ensures Weight(m + n) == Weight(m) * Weight(n)
  {
    PowAdd(BASE, m, n);
  }

  /** The number that little-endian words stand for. */
  function LE(s: seq<uint32>): nat {
    if s == [] then 0 else LE(s[..|s| - 1]) + s[|s| - 1] * Weight(|s| - 1)
  }

  lemma {:induction false} LENext(s: seq<uint32>, i: nat)
    requires i < |s|
    ensures LE(s[..i + 1]) == LE(s[..i]) + s[i] * Weight(i)
  {
    assert s[..i + 1][..i] == s[..i];
  }

  lemma {:induction false} LEBound(s: seq<uint32>)
    ensures LE(s) < Weight(|s|)
  {
    hide Weight;
    if s == [] {
      WeightNext(0);
    } else {
      var n := |s| - 1;
      LEBound(s[..n]);
      WeightNext(n);
      var x: nat := s[n];
      MulMono(x + 1, BASE, Weight(n), Weight(n));
      Distribute(x, 1, Weight(n));
    }
  }

  lemma {:induction false} LEUpdate(s: seq<uint32>, p: nat, v: uint32)
    requires p < |s|
    ensures LE(s[p := v]) == LE(s) + (v - s[p]) * Weight(p)
  {
    hide Weight;
    var n := |s| - 1;
    if p == n {
      assert s[p := v][..n] == s[..n];
      Distribute(v - s[p], s[p], Weight(p));
    } else {
      LEUpdate(s[..n], p, v);
      assert s[p := v][..n] == s[..n][p := v];
    }
  }

  lemma {:induction false} LESplit(s: seq<uint32>, m: nat)
    requires m <= |s|
    ensures LE(s) == LE(s[..m]) + LE(s[m..]) * Weight(m)
    decreases |s|
  {
    if m == |s| {
      assert s[..m] == s && s[m..] == [];
    } else {
      hide Weight;
      var n := |s| - 1;
      LESplit(s[..n], m);
      assert s[..n][..m] == s[..m] && s[..n][m..] == s[m..][..n - m];
      WeightAdd(n - m, m);
      Distribute(LE(s[m..][..n - m]), s[n] * Weight(n - m), Weight(m));
      MulAssoc(s[n], Weight(n - m), Weight(m));
    }
  }

  lemma {:induction false} LEZero(s: seq<uint32>)
    requires forall i | 0 <= i < |s| :: s[i] == 0
    ensures LE(s) == 0
  {
    if s != [] { LEZero(s[..|s| - 1]); }
  }

  /** One word of a sum: what is added, with the carry in, is the word and the carry out. */
  lemma {:induction false} CarryStep(n: nat, w: nat)
    ensures (n % BASE) * w + (n / BASE) * (BASE * w) == n * w
  {
    var q, r := n / BASE, n % BASE;
    MulAssoc(q, BASE, w);
    Distribute(r, q * BASE, w);
  }

  /** A word, a carry and a product of two words never exceed 64 bits. */
  lemma {:induction false} RowFits(carry: uint32, z: uint32, x: uint32, y: uint32)
    ensures 0 <= x * y && carry + z + x * y < BASE * BASE
  {
    MulMono(x, BASE - 1, y, BASE - 1);
    MulMono(0, x, 0, y);
  }

  /** A value with a multiple of the modulus added to it. */
  lemma {:induction false} ModOf(v: nat, c: int, m: nat, t: nat)
    requires v < m && v + c * m == t
    ensures v == Rem(t, m) && c >= 0
  {
    if c < 0 {
      NegativeTimes(c, m);
      assert false;
    }
    DivideBack(c, v, m);
  }

  lemma {:induction false} NegativeTimes(c: int, m: nat)
    requires c < 0
    ensures c * m + m <= 0
  {
    MulMono(1, -c, m, m);
    assert (-c) * m == -(c * m);
  }

  class BaseUint {
    const pn: array<uint32>

    function Value(): nat
      reads pn
    {
      LE(pn[..])
    }

    /** 2^BITS. */
    function Modulus(): nat { Weight(pn.Length) }

    constructor (width: nat)
      ensures fresh(pn) && pn.Length == width && Value() == 0
    {
      pn := new uint32[width](i => 0);
      new;
      LEZero(pn[..]);
    }

    constructor Copy(b: BaseUint)
      ensures fresh(pn) && pn.Length == b.pn.Length && pn[..] == b.pn[..]
    {
      var a := b.pn;
      pn := new uint32[a.Length](i requires 0 <= i < a.Length reads a => a[i]);
      new;
      assert pn[..] == b.pn[..];
    }

    /** operator=. */
    method Assign(b: BaseUint)
      requires pn.Length == b.pn.Length
      modifies pn
      ensures pn[..] == old(b.pn[..])
    {
      var i := 0;
      while i < pn.Length
        invariant 0 <= i <= pn.Length && pn[..i] == old(b.pn[..i]) && b.pn[i..] == old(b.pn[i..])
      {
        assert b.pn[i] == old(b.pn[i]) by { assert b.pn[i..][0] == old(b.pn[i..])[0]; }
        pn[i] := b.pn[i];
        i := i + 1;
      }
    }

    /** operator+=. */
    method Add(b: BaseUint)
      requires pn.Length == b.pn.Length
      modifies pn
      ensures Value() == Rem(old(Value()) + old(b.Value()), Modulus())
    {
      hide LE, Weight;
      ghost var s, t := pn[..], b.pn[..];
      var carry: uint64 := 0;
      var i := 0;
      NoWords(s);
      NoWords(t);
      NoWords(pn[..]);
      while i < pn.Length
        invariant 0 <= i <= pn.Length && carry < BASE
        invariant pn[i..] == s[i..] && b.pn[i..] == t[i..]
        invariant LE(pn[..][..i]) + carry * Weight(i) == LE(s[..i]) + LE(t[..i])
      {
        assert pn[i] == s[i] by { assert pn[i..][0] == s[i..][0]; }
        assert b.pn[i] == t[i] by { assert b.pn[i..][0] == t[i..][0]; }
        ghost var before := pn[..];
        var x: nat, y: nat := pn[i], b.pn[i];
        var n: uint64 := carry + x + y;
        pn[i] := n % BASE;
        AddWords(before, pn[..], i, carry, x + y);
        LENext(s, i);
        LENext(t, i);
        Distribute(x, y, Weight(i));
        carry := n / BASE;
        i := i + 1;
      }
      assert s[..i] == s && t[..i] == t && pn[..][..i] == pn[..];
      LEBound(pn[..]);
      ModOf(Value(), carry, Modulus(), LE(s) + LE(t));
    }

    /** operator~. */
    method Complement() returns (r: BaseUint)
      ensures fresh(r) && fresh(r.pn) && r.pn.Length == pn.Length && r.Value() + Value() == Modulus() - 1
    {
      hide LE, Weight;
      r := new BaseUint(pn.Length);
      var i := 0;
      NoWords(pn[..]);
      NoWords(r.pn[..]);
      WeightNext(0);
      while i < pn.Length
        invariant 0 <= i <= pn.Length && LE(r.pn[..][..i]) + LE(pn[..][..i]) == Weight(i) - 1
      {
        ghost var before := r.pn[..];
        var x: nat := pn[i];
        r.pn[i] := BASE - 1 - x;
        assert r.pn[..][..i] == before[..i];
        LENext(r.pn[..], i);
        LENext(pn[..], i);
        WeightNext(i);
        Distribute(BASE - 1 - x, x, Weight(i));
        i := i + 1;
      }
      assert r.pn[..][..i] == r.pn[..] && pn[..][..i] == pn[..];
    }

    /** operator++. */
    method Increment()
      requires pn.Length > 0
      modifies pn
      ensures Value() == Rem(old(Value()) + 1, Modulus())
    {
      hide LE, Weight;
      var i := 0;
      ghost var s := pn[..];
      var x: nat := pn[0];
      pn[0] := (x + 1) % BASE;
      Bump(s, pn[..], 0);
      WeightNext(0);
      while pn[i] == 0 && i < pn.Length - 1
        invariant 0 <= i < pn.Length
        invariant Value() + (if pn[i] == 0 then Weight(i + 1) else 0) == LE(s) + 1
      {
        ghost var before := pn[..];
        i := i + 1;
        x := pn[i];
        pn[i] := (x + 1) % BASE;
        Bump(before, pn[..], i);
      }
      LEBound(pn[..]);
      ModOf(Value(), if pn[i] == 0 then 1 else 0, Modulus(), LE(s) + 1);
    }

    /** operator--. */
    method Decrement()
      requires pn.Length > 0
      modifies pn
      ensures Value() == Rem(old(Value()) + Modulus() - 1, Modulus())
    {
      hide LE, Weight;
      var i := 0;
      ghost var s := pn[..];
      var x: nat := pn[0];
      pn[0] := (x + BASE - 1) % BASE;
      Sink(s, pn[..], 0);
      WeightNext(0);
      while pn[i] == BASE - 1 && i < pn.Length - 1
        invariant 0 <= i < pn.Length
        invariant Value() + 1 == LE(s) + (if pn[i] == BASE - 1 then Weight(i + 1) else 0)
      {
        ghost var before := pn[..];
        i := i + 1;
        x := pn[i];
        pn[i] := (x + BASE - 1) % BASE;
        Sink(before, pn[..], i);
      }
      LEBound(pn[..]);
      ModOf(Value(), if pn[i] == BASE - 1 then 0 else 1, Modulus(), LE(s) + Modulus() - 1);
    }

    /** operator-. */
    method Negate() returns (r: BaseUint)
      requires pn.Length > 0
      ensures fresh(r) && fresh(r.pn) && r.pn.Length == pn.Length
      ensures Value() < Modulus() && r.Value() == Rem(Modulus() - Value(), Modulus())
    {
      hide LE, Weight;
      r := Complement();
      LEBound(pn[..]);
      r.Increment();
    }

    /** operator-=. */
    method Subtract(b: BaseUint)
      requires pn.Length == b.pn.Length > 0
      modifies pn
      ensures old(b.Value()) < Modulus() && Value() == Rem(old(Value()) + Modulus() - old(b.Value()), Modulus())
    {
      hide LE, Weight;
      var r := b.Negate();
      ghost var v, w := Value(), b.Value();
      Add(r);
      RemTwice(v, Modulus() - w, Modulus());
    }

    /** operator*= by a word. */
    method MultiplyWord(b: uint32)
      modifies pn
      ensures Value() == Rem(old(Value()) * b, Modulus())
    {
      hide LE, Weight;
      ghost var s := pn[..];
      var f: nat := b;
      var carry: uint64 := 0;
      var i := 0;
      NoWords(s);
      while i < pn.Length
        invariant 0 <= i <= pn.Length && carry < BASE && pn[i..] == s[i..]
        invariant LE(pn[..][..i]) + carry * Weight(i) == LE(s[..i]) * f
      {
        assert pn[i] == s[i] by { assert pn[i..][0] == s[i..][0]; }
        ghost var before := pn[..];
        var x: nat := pn[i];
        RowFits(carry, 0, f, x);
        var n: uint64 := carry + f * x;
        pn[i] := n % BASE;
        AddWords(before, pn[..], i, carry, f * x);
        LENext(s, i);
        Distribute(LE(s[..i]), x * Weight(i), f);
        MulAssoc(f, x, Weight(i));
        carry := n / BASE;
        i := i + 1;
      }
      assert s[..i] == s && pn[..][..i] == pn[..];
      LEBound(pn[..]);
      ModOf(Value(), carry, Modulus(), LE(s) * f);
    }

    /** One row of the long multiplication: add x * b * BASE^j, up to the modulus. */
    method AddRow(b: BaseUint, x: uint32, j: nat) returns (ghost q: nat)
      requires j <= pn.Length == b.pn.Length && b.pn != pn
      modifies pn
      ensures Value() + q * Modulus() == old(Value()) + x * b.Value() * Weight(j)
    {
      hide LE, Weight;
      ghost var s, t := pn[..], b.pn[..];
      var f: nat := x;
      var carry: uint64 := 0;
      var i := 0;
      NoWords(t);
      while i + j < pn.Length
        invariant 0 <= i <= pn.Length - j && carry < BASE
        invariant LE(pn[..]) + carry * Weight(i + j) == LE(s) + f * LE(t[..i]) * Weight(j)
      {
        ghost var before := pn[..];
        var y: nat, z: nat := b.pn[i], pn[i + j];
        RowFits(carry, z, f, y);
        var n: uint64 := carry + z + f * y;
        pn[i + j] := n % BASE;
        RowWords(before, pn[..], i + j, carry, f * y);
        LENext(t, i);
        RowTerm(f, LE(t[..i]), y, Weight(i), Weight(j));
        WeightAdd(i, j);
        carry := n / BASE;
        i := i + 1;
      }
      LESplit(t, i);
      WeightAdd(i, j);
      ghost var r := LE(t[i..]);
      RowTerm(f, LE(t[..i]), r, Weight(i), Weight(j));
      MulMono(0, f, 0, r);
      q := carry + f * r;
      Distribute(carry, f * r, Modulus());
    }

    /** operator*=. */
    method Multiply(b: BaseUint)
      requires pn.Length == b.pn.Length
      modifies pn
      ensures Value() == Rem(old(Value()) * old(b.Value()), Modulus())
    {
      hide LE, Weight;
      ghost var s, v := pn[..], b.Value();
      var a := new BaseUint(pn.Length);
      ghost var q := 0;
      var j := 0;
      NoWords(s);
      while j < pn.Length
        invariant 0 <= j <= pn.Length == a.pn.Length && pn[..] == s && b.Value() == v && fresh(a.pn)
        invariant a.Value() + q * Modulus() == LE(s[..j]) * v
      {
        ghost var more := a.AddRow(b, pn[j], j);
        LENext(s, j);
        var x: nat := s[j];
        SumRow(x, v, LE(s[..j]), Weight(j));
        Distribute(q, more, Modulus());
        q := q + more;
        j := j + 1;
      }
      assert s[..j] == s;
      LEBound(a.pn[..]);
      ModOf(a.Value(), q, Modulus(), LE(s) * v);
      Assign(a);
    }

    /** CompareTo. */
    method CompareTo(b: BaseUint) returns (r: int)
      requires pn.Length == b.pn.Length
      ensures r == if Value() < b.Value() then -1 else if Value() > b.Value() then 1 else 0
    {
      hide LE, Weight;
      ghost var s, t := pn[..], b.pn[..];
      var i := pn.Length - 1;
      while i >= 0
        invariant -1 <= i < pn.Length && forall k | i < k < |s| :: s[k] == t[k]
      {
        if pn[i] < b.pn[i] {
          TopDecides(s, t, i);
          return -1;
        }
        if pn[i] > b.pn[i] {
          TopDecides(t, s, i);
          return 1;
        }
        i := i - 1;
      }
      assert s == t;
      return 0;
    }

    method SetZero()
      modifies pn
      ensures forall i | 0 <= i < pn.Length :: pn[i] == 0
    {
      var i := 0;
      while i < pn.Length
        invariant 0 <= i <= pn.Length && forall j | 0 <= j < i :: pn[j] == 0
      {
        pn[i] := 0;
        i := i + 1;
      }
    }

    /** One turn of the loop of operator<<=. */
    method ShlOne(x: uint32, i: nat, k: nat, n: nat)
      requires n < 32
      modifies pn
      ensures pn[..] == ShlStep(old(pn[..]), x, i, k, n)
    {
      hide OrWord, ShlWord, ShrWord;
      NoShift(x, if i + k + 1 < pn.Length then pn[i + k + 1] else 0);
      if i + k + 1 < pn.Length && n != 0 {
        pn[i + k + 1] := OrWord(pn[i + k + 1], ShrWord(x, 32 - n));
      }
      if i + k < pn.Length {
        pn[i + k] := OrWord(pn[i + k], ShlWord(x, n));
      }
    }

    /** operator<<=. */
    method ShiftLeft(shift: nat)
      modifies pn
      ensures Value() == Rem(old(Value()) * Pow(2, shift), Modulus())
    {
      hide LE, Weight, Pow, ShlStep;
      var a := new BaseUint.Copy(this);
      ghost var s := a.pn[..];
      SetZero();
      LEZero(pn[..]);
      NoWords(s);
      var k, n := shift / 32, shift % 32;
      ShiftFactor(k, n);
      ghost var f := Weight(k) * Pow(2, n);
      ghost var q := 0;
      ClearStart(pn[..], k, n);
      var i := 0;
      while i < pn.Length
        invariant 0 <= i <= pn.Length == a.pn.Length && a.pn[..] == s && ShlClear(pn[..], i + k, n)
        invariant Value() + q * Modulus() == LE(s[..i]) * f
      {
        ghost var c := ShlStepAdds(pn[..], a.pn[i], i, k, n);
        ShlOne(a.pn[i], i, k, n);
        LENext(s, i);
        ghost var x: nat := s[i];
        Distribute(LE(s[..i]), x * Weight(i), f);
        Distribute(q, c, Modulus());
        q := q + c;
        i := i + 1;
      }
      assert s[..i] == s;
      LEBound(pn[..]);
      ModOf(Value(), q, Modulus(), LE(s) * f);
    }

    /** One turn of the loop of operator>>=. */
    method ShrOne(x: uint32, i: nat, k: nat, n: nat)
      requires n < 32
      modifies pn
      ensures pn[..] == ShrStep(old(pn[..]), x, i, k, n)
    {
      hide OrWord, ShlWord, ShrWord;
      NoShift(x, if 0 <= i - k - 1 < pn.Length then pn[i - k - 1] else 0);
      if 0 <= i - k - 1 < pn.Length && n != 0 {
        pn[i - k - 1] := OrWord(pn[i - k - 1], ShlWord(x, 32 - n));
      }
      if 0 <= i - k < pn.Length {
        pn[i - k] := OrWord(pn[i - k], ShrWord(x, n));
      }
    }

    /** operator>>=. */
    method ShiftRight(shift: nat)
      modifies pn
      ensures Value() == Quo(old(Value()), Pow(2, shift))
    {
      hide LE, Weight, Pow, ShrStep, Shifting;
      var a := new BaseUint.Copy(this);
      ghost var s := a.pn[..];
      SetZero();
      var k, n := shift / 32, shift % 32;
      ShiftFactor(k, n);
      ghost var r := 0;
      ShiftingStart(pn[..], s, k, n);
      var i := 0;
      while i < pn.Length
        invariant 0 <= i <= pn.Length == a.pn.Length && a.pn[..] == s && Shifting(pn[..], s, i, k, n, r)
      {
        if i < k {
          r := ShrSkip(pn[..], s, i, k, n, r);
        } else if i == k {
          r := ShrFirst(pn[..], s, k, n, r);
        } else {
          ShrRest(pn[..], s, i, k, n, r);
        }
        ShrOne(a.pn[i], i, k, n);
        i := i + 1;
      }
      ShiftingEnd(pn[..], s, k, n, r);
    }

    /** bits: the position of the highest bit set plus one. */
    method Bits() returns (r: nat)
      ensures IsBitLength(Value(), r) && r <= 32 * pn.Length
    {
      hide LE, Weight, Pow;
      ghost var s := pn[..];
      var pos := pn.Length - 1;
      while pos >= 0
        invariant -1 <= pos < pn.Length && forall j | pos < j < pn.Length :: s[j] == 0
      {
        if pn[pos] != 0 {
          var bits := WordBits(pn[pos]);
          TopWord(s, pos, bits);
          return 32 * pos + bits;
        }
        pos := pos - 1;
      }
      LEZero(s);
      return 0;
    }

    /** Subtract b if it is not larger. */
    method SubtractIf(b: BaseUint) returns (done: bool)
      requires pn.Length == b.pn.Length > 0 && pn != b.pn
      modifies pn
      ensures done <==> old(Value()) >= b.Value()
      ensures Value() == old(Value()) - if done then b.Value() else 0
    {
      hide LE, Weight, Quo, Rem;
      var cmp := CompareTo(b);
      done := cmp >= 0;
      if done {
        ghost var v := Value();
        LEBound(pn[..]);
        Subtract(b);
        DivideBack(1, v - b.Value(), Modulus());
      }
    }

    /** Set a bit with nothing below it. */
    method NoteBit(m: nat)
      requires m < 32 * pn.Length && LowClear(pn[..], m + 1)
      modifies pn
      ensures LowClear(pn[..], m) && Value() == old(Value()) + Pow(2, m)
    {
      hide LE, Pow, LowClear, OrWord, BitWord;
      SetBit(pn[..], m);
      ghost var before := pn[..];
      pn[m / 32] := OrWord(pn[m / 32], BitWord(m % 32));
      assert pn[..] == before[m / 32 := OrWord(before[m / 32], BitWord(m % 32))];
    }

    /** One turn of the loop of operator/=. */
    method DivideStep(num: BaseUint, div: BaseUint, shift: nat, ghost d: nat)
      requires pn.Length == num.pn.Length == div.pn.Length && shift < 32 * pn.Length
      requires num.pn != div.pn && pn != num.pn && pn != div.pn
      requires LowClear(pn[..], shift + 1) && div.Value() == d * Pow(2, shift) && num.Value() < d * Pow(2, shift + 1)
      modifies pn, num.pn, div.pn
      ensures num.Value() + Value() * d == old(num.Value() + Value() * d) && num.Value() < d * Pow(2, shift)
      ensures LowClear(pn[..], shift) && (shift > 0 ==> div.Value() == d * Pow(2, shift - 1))
    {
      hide LE, Weight, Pow, LowClear, Quo, Rem;
      PowStep(shift, shift + 1);
      MulAssoc(d, 2, Pow(2, shift));
      Distribute(Value(), Pow(2, shift), d);
      var done := num.SubtractIf(div);
      if done {
        NoteBit(shift);
      } else {
        LowClearLess(pn[..], shift);
      }
      div.ShiftRight(1);
      Halve(d, shift);
    }

    /** The divisor is shifted left until it is as long as the dividend v. */
    method Align(shift: nat, ghost v: nat, ghost numBits: nat, ghost divBits: nat)
      requires pn.Length > 0 && IsBitLength(v, numBits) && IsBitLength(Value(), divBits)
      requires 0 < divBits <= numBits <= 32 * pn.Length && shift == numBits - divBits
      modifies pn
      ensures Value() == old(Value()) * Pow(2, shift) && v < old(Value()) * Pow(2, shift + 1)
    {
      hide LE, Weight, Pow, IsBitLength, Quo, Rem;
      ghost var d := Value();
      Aligned(v, d, numBits, divBits, Modulus(), pn.Length);
      ShiftLeft(shift);
      DivideBack(0, d * Pow(2, shift), Modulus());
    }

    /** The loop of operator/=. */
    method DivideFrom(num: BaseUint, div: BaseUint, start: nat, ghost d: nat)
      requires pn.Length == num.pn.Length == div.pn.Length && start < 32 * pn.Length && d > 0
      requires num.pn != div.pn && pn != num.pn && pn != div.pn
      requires LowClear(pn[..], start + 1) && div.Value() == d * Pow(2, start) && num.Value() < d * Pow(2, start + 1)
      modifies pn, num.pn, div.pn
      ensures Value() == Quo(old(num.Value() + Value() * d), d)
    {
      hide LE, Weight, Pow, LowClear, Quo, Rem;
      ghost var v := num.Value() + Value() * d;
      var shift := start as int;
      while shift >= 0
        invariant -1 <= shift < 32 * pn.Length
        invariant num.Value() + Value() * d == v && num.Value() < d * Pow(2, shift + 1)
        invariant shift >= 0 ==> div.Value() == d * Pow(2, shift)
        invariant LowClear(pn[..], shift + 1)
      {
        DivideStep(num, div, shift, d);
        shift := shift - 1;
      }
      PowZero();
      DivideBack(Value(), num.Value(), d);
    }

    /** operator/=: false is the exception for a zero divisor. */
    method Divide(b: BaseUint) returns (ok: bool)
      requires pn.Length == b.pn.Length > 0
      modifies pn
      ensures ok <==> old(b.Value()) != 0
      ensures if ok then Value() == Quo(old(Value()), old(b.Value())) else Value() == 0
    {
      hide LE, Weight, Pow, IsBitLength, LowClear, Quo, Rem;
      var div := new BaseUint.Copy(b);
      var num := new BaseUint.Copy(this);
      ghost var d, v := b.Value(), Value();
      SetZero();
      LEZero(pn[..]);
      var numBits := num.Bits();
      var divBits := div.Bits();
      BitLengthZero(d, divBits);
      if divBits == 0 { return false; }
      if divBits > numBits {
        ShorterIsLess(v, d, numBits, divBits);
        DivideBack(0, v, d);
        return true;
      }
      var shift := numBits - divBits;
      div.Align(shift, v, numBits, divBits);
      LowClearZero(pn[..], shift + 1);
      DivideFrom(num, div, shift, d);
      return true;
    }
  }

  /** Adding one to a word: it wraps to zero or grows. */
  lemma {:induction false} Bump(before: seq<uint32>, after: seq<uint32>, i: nat)
    requires i < |before| == |after| && (var x: nat := before[i]; after == before[i := (x + 1) % BASE])
    ensures LE(after) + (if after[i] == 0 then Weight(i + 1) else 0) == LE(before) + Weight(i)
  {
    hide LE, Weight;
    LEUpdate(before, i, after[i]);
    WeightNext(i);
    var x: nat := before[i];
    if x == BASE - 1 {
      assert after[i] == 0;
      assert (0 - x) * Weight(i) + BASE * Weight(i) == Weight(i) by { Distribute(0 - x, BASE, Weight(i)); }
    } else {
      assert after[i] == x + 1;
    }
  }

  /** Taking one from a word: it wraps to the largest word or shrinks. */
  lemma {:induction false} Sink(before: seq<uint32>, after: seq<uint32>, i: nat)
    requires i < |before| == |after| && (var x: nat := before[i]; after == before[i := (x + BASE - 1) % BASE])
    ensures LE(after) + Weight(i) == LE(before) + (if after[i] == BASE - 1 then Weight(i + 1) else 0)
  {
    hide LE, Weight;
    LEUpdate(before, i, after[i]);
    WeightNext(i);
    var x: nat := before[i];
    if x == 0 {
      assert after[i] == BASE - 1;
      assert (BASE - 1) * Weight(i) + Weight(i) == BASE * Weight(i) by { Distribute(BASE - 1, 1, Weight(i)); }
    } else {
      assert after[i] == x - 1;
      var a: int := x - 1;
      assert (a - x) * Weight(i) + Weight(i) == 0;
    }
  }

  lemma {:induction false} RowWords(before: seq<uint32>, after: seq<uint32>, p: nat, carry: nat, d: nat)
    requires p < |before| && (var z: nat := before[p]; after == before[p := (carry + z + d) % BASE])
    ensures var z: nat := before[p];
      LE(after) + (carry + z + d) / BASE * Weight(p + 1) == LE(before) + carry * Weight(p) + d * Weight(p)
  {
    hide LE, Weight;
    var z: nat, v: nat := before[p], after[p];
    LEUpdate(before, p, after[p]);
    CarryStep(carry + z + d, Weight(p));
    WeightNext(p);
    Distribute(v - z, z, Weight(p));
    Distribute(carry + z, d, Weight(p));
    Distribute(carry, z, Weight(p));
  }

  lemma {:induction false} RowTerm(f: nat, t: nat, y: nat, wi: nat, wj: nat)
    ensures f * (t + y * wi) * wj == f * t * wj + f * y * (wi * wj)
  {
    Distribute(t, y * wi, f);
    Distribute(f * t, f * (y * wi), wj);
    MulAssoc(f, y, wi);
    MulAssoc(f * y, wi, wj);
  }

  lemma {:induction false} SumRow(x: nat, v: nat, t: nat, w: nat)
    ensures (t + x * w) * v == t * v + x * v * w
  {
    Distribute(t, x * w, v);
    MulAssoc(x, w, v);
    MulAssoc(x, v, w);
  }

  /** The highest different word decides. */
  lemma {:induction false} TopDecides(s: seq<uint32>, t: seq<uint32>, i: nat)
    requires i < |s| == |t| && s[i] < t[i] && forall k | i < k < |s| :: s[k] == t[k]
    ensures LE(s) < LE(t)
  {
    hide LE, Weight;
    assert s[i + 1..] == t[i + 1..];
    LESplit(s, i + 1);
    LESplit(t, i + 1);
    LENext(s, i);
    LENext(t, i);
    LEBound(s[..i]);
    var x: nat, y: nat := s[i], t[i];
    MulMono(x + 1, y, Weight(i), Weight(i));
    Distribute(x, 1, Weight(i));
  }

  lemma {:induction false} RemTwice(v: nat, w: nat, m: nat)
    requires m > 0
    ensures Rem(v + Rem(w, m), m) == Rem(v + w, m)
  {
    hide Rem, Quo;
    QuoRem(w, m);
    QuoRem(v + Rem(w, m), m);
    var q, r := Quo(v + Rem(w, m), m), Rem(v + Rem(w, m), m);
    Distribute(q, Quo(w, m), m);
    DivideBack(q + Quo(w, m), r, m);
  }

  lemma {:induction false} NoWords(s: seq<uint32>)
    ensures LE(s[..0]) == 0
  {
    assert s[..0] == [];
  }

  /** Writing word i with what was added to it. */
  lemma {:induction false} AddWords(before: seq<uint32>, after: seq<uint32>, i: nat, carry: nat, d: nat)
    requires i < |before| && after == before[i := (carry + d) % BASE]
    ensures LE(after[..i + 1]) + (carry + d) / BASE * Weight(i + 1) == LE(before[..i]) + carry * Weight(i) + d * Weight(i)
  {
    hide LE, Weight;
    LENext(after, i);
    assert after[..i] == before[..i];
    CarryStep(carry + d, Weight(i));
    WeightNext(i);
    Distribute(carry, d, Weight(i));
  }

  // ---------- Bits of words ----------

  /** Bitwise or. */
  function Or(a: nat, b: nat): nat {
    if a == 0 then b else if b == 0 then a
    else 2 * Or(a / 2, b / 2) + (if a % 2 == 1 || b % 2 == 1 then 1 else 0)
  }

  lemma {:induction false} OrBound(a: nat, b: nat, n: nat)
    requires a < Pow(2, n) && b < Pow(2, n)
    ensures Or(a, b) < Pow(2, n)
  {
    if a > 0 && b > 0 && n > 0 { OrBound(a / 2, b / 2, n - 1); }
  }

  /** Without common bits, or is addition. */
  lemma {:induction false} OrDisjoint(h: nat, r: nat, n: nat)
    requires h < Pow(2, n)
    ensures Or(h, r * Pow(2, n)) == h + r * Pow(2, n) == Or(r * Pow(2, n), h)
  {
    if n == 0 {
      assert Pow(2, 0) == 1;
    } else {
      var l := r * Pow(2, n - 1);
      OrDisjoint(h / 2, r, n - 1);
      assert r * Pow(2, n) == 2 * l by { MulAssoc(2, r, Pow(2, n - 1)); MulAssoc(r, 2, Pow(2, n - 1)); }
    }
  }

  lemma {:induction false} WordSize()
    ensures Pow(2, 32) == BASE
  {
    assert Pow(2, 4) == 16;
    PowAdd(2, 4, 4);
    PowAdd(2, 8, 8);
    PowAdd(2, 16, 16);
  }

  function OrWord(a: uint32, b: uint32): uint32 {
    WordSize();
    OrBound(a, b, 32);
    Or(a, b)
  }

  /** A word shifted left, losing the bits that leave it. */
  function ShlWord(x: uint32, n: nat): uint32 { Rem(x * Pow(2, n), BASE) }

  function ShrWord(x: uint32, n: nat): uint32 {
    QuoSmall(x, Pow(2, n));
    Quo(x, Pow(2, n))
  }

  lemma {:induction false} QuoSmall(x: nat, d: nat)
    requires d > 0
    ensures Quo(x, d) <= x
  {
    hide Quo, Rem;
    QuoRem(x, d);
    MulMono(Quo(x, d), Quo(x, d), 1, d);
  }

  /** Shifting a word left by n: what stays in the word and what moves to the next one. */
  lemma {:induction false} ShiftParts(x: uint32, n: nat)
    requires n <= 32
    ensures ShlWord(x, n) == Rem(x, Pow(2, 32 - n)) * Pow(2, n)
    ensures x * Pow(2, n) == ShlWord(x, n) + BASE * ShrWord(x, 32 - n)
    ensures ShrWord(x, 32 - n) < Pow(2, n)
  {
    hide Rem, Quo, Pow;
    WordSize();
    PowAdd(2, 32 - n, n);
    Parts(x, Pow(2, 32 - n), Pow(2, n));
  }

  lemma {:induction false} Parts(x: nat, d: nat, e: nat)
    requires d * e == BASE && d > 0 && e > 0 && x < BASE
    ensures Rem(x * e, BASE) == Rem(x, d) * e
    ensures x * e == Rem(x, d) * e + BASE * Quo(x, d) && Quo(x, d) < e
  {
    hide Rem, Quo;
    QuoRem(x, d);
    var h, r := Quo(x, d), Rem(x, d);
    Distribute(h * d, r, e);
    MulAssoc(h, d, e);
    Less(r, d, e);
    MulMono(0, r, 0, e);
    DivideBack(h, r * e, BASE);
    QuotientLess(x, h, r, d, e);
  }

  lemma {:induction false} QuotientLess(x: nat, h: nat, r: nat, d: nat, e: nat)
    requires x == h * d + r && x < d * e
    ensures h < e
  {
    if h >= e {
      MulMono(e, h, d, d);
      assert false;
    }
  }

  lemma {:induction false} Less(r: nat, d: nat, e: nat)
    requires r < d && e > 0
    ensures r * e < d * e
  {
    MulMono(r + 1, d, e, e);
    Distribute(r, 1, e);
  }

  // ---------- Shifting ----------

  /** Or v into word p, if there is one. */
  function PutWord(s: seq<uint32>, p: int, v: uint32): (t: seq<uint32>)
    ensures |t| == |s|
  {
    if 0 <= p < |s| then s[p := OrWord(s[p], v)] else s
  }

  /** Putting v where there are no common bits adds v; beyond the last word it adds a multiple of
      the modulus to what is lost. */
  lemma {:induction false} PutWordAdds(s: seq<uint32>, p: nat, v: uint32) returns (c: nat)
    requires p < |s| ==> Or(s[p], v) == s[p] as int + v
    ensures LE(PutWord(s, p, v)) + c * Weight(|s|) == LE(s) + v * Weight(p)
  {
    hide LE, Weight, Or;
    if p < |s| {
      LEUpdate(s, p, OrWord(s[p], v));
      c := 0;
    } else {
      WeightAdd(p - |s|, |s|);
      MulAssoc(v, Weight(p - |s|), Weight(|s|));
      MulMono(0, v, 0, Weight(p - |s|));
      c := v * Weight(p - |s|);
    }
  }

  /** What operator<<= does with word i of the number. */
  function ShlStep(s: seq<uint32>, x: uint32, i: nat, k: nat, n: nat): seq<uint32>
    requires n < 32
  {
    PutWord(PutWord(s, i + k + 1, ShrWord(x, 32 - n)), i + k, ShlWord(x, n))
  }

  /** The words not reached yet are zero, and the next one has only the bits moved into it. */
  ghost predicate ShlClear(s: seq<uint32>, p: nat, n: nat) {
    && (forall j | p < j < |s| :: s[j] == 0)
    && (p < |s| ==> s[p] < Pow(2, n))
  }

  lemma {:induction false} ShlStepAdds(s: seq<uint32>, x: uint32, i: nat, k: nat, n: nat) returns (c: nat)
    requires n < 32 && ShlClear(s, i + k, n)
    ensures LE(ShlStep(s, x, i, k, n)) + c * Weight(|s|) == LE(s) + x * Weight(i) * (Weight(k) * Pow(2, n))
    ensures ShlClear(ShlStep(s, x, i, k, n), i + k + 1, n)
  {
    hide LE, Weight, Pow, ShlWord, ShrWord, Or;
    var p := i + k;
    var high, low := ShrWord(x, 32 - n), ShlWord(x, n);
    ShiftParts(x, n);
    OrZero(high);
    var t := PutWord(s, p + 1, high);
    var c1 := PutWordAdds(s, p + 1, high);
    if p < |s| { OrDisjoint(s[p], Rem(x, Pow(2, 32 - n)), n); }
    var c2 := PutWordAdds(t, p, low);
    c := c1 + c2;
    WeightAdd(i, k);
    WeightNext(p);
    ShlTerm(x, low, high, Weight(i), Weight(k), Pow(2, n), Weight(p));
    Distribute(c1, c2, Weight(|s|));
  }

  lemma {:induction false} OrZero(v: nat)
    ensures Or(0, v) == v
  {
  }

  lemma {:induction false} ShlTerm(x: nat, low: nat, high: nat, wi: nat, wk: nat, e: nat, wp: nat)
    requires x * e == low + BASE * high && wp == wi * wk
    ensures x * wi * (wk * e) == low * wp + high * (BASE * wp)
  {
    MulAssoc(x * wi, wk, e);
    MulAssoc(x, wi, wk);
    MulAssoc(x, wp, e);
    MulAssoc(x, e, wp);
    Distribute(low, BASE * high, wp);
    MulAssoc(high, BASE, wp);
  }

  lemma {:induction false} ShiftFactor(k: nat, n: nat)
    ensures Pow(2, 32 * k + n) == Weight(k) * Pow(2, n)
  {
    WordSize();
    PowMul(2, 32, k);
    PowAdd(2, 32 * k, n);
  }

  /** A shift by whole words moves no bits between words. */
  lemma {:induction false} NoShift(x: uint32, y: uint32)
    ensures OrWord(y, ShrWord(x, 32)) == y && OrWord(y, ShlWord(x, 32)) == y
  {
    hide Pow;
    WordSize();
    QuoRem(x, BASE);
    DivideBack(0, x, BASE);
    DivideBack(x, 0, BASE);
  }

  lemma {:induction false} ClearStart(s: seq<uint32>, p: nat, n: nat)
    requires forall i | 0 <= i < |s| :: s[i] == 0
    ensures ShlClear(s, p, n)
  {
  }

  lemma {:induction false} ShiftingStart(s: seq<uint32>, a: seq<uint32>, k: nat, n: nat)
    requires n < 32 && |s| == |a| && forall i | 0 <= i < |s| :: s[i] == 0
    ensures Shifting(s, a, 0, k, n, 0)
  {
    LEZero(s);
    NoWords(a);
    MulMono(1, Weight(k), 1, Pow(2, n));
  }

  lemma {:induction false} ShiftingEnd(s: seq<uint32>, a: seq<uint32>, k: nat, n: nat, r: nat)
    requires Shifting(s, a, |a|, k, n, r)
    ensures LE(s) == Quo(LE(a), Weight(k) * Pow(2, n))
  {
    hide LE, Weight, Pow, Quo, Rem;
    assert a[..|a|] == a;
    DivideBack(LE(s), r, Weight(k) * Pow(2, n));
  }

  /** What operator>>= does with word i of the number. */
  function ShrStep(s: seq<uint32>, x: uint32, i: nat, k: nat, n: nat): seq<uint32>
    requires n < 32
  {
    PutWord(PutWord(s, i - k - 1, ShlWord(x, 32 - n)), i - k, ShrWord(x, n))
  }

  ghost predicate ShrClear(s: seq<uint32>, p: int, n: nat)
    requires n <= 32
  {
    && (forall j | 0 <= j < |s| && p <= j :: s[j] == 0)
    && (0 <= p - 1 < |s| ==> s[p - 1] < Pow(2, 32 - n))
  }

  /** After i words, s is the quotient of what was read and r the remainder. */
  ghost predicate Shifting(s: seq<uint32>, a: seq<uint32>, i: nat, k: nat, n: nat, r: nat) {
    && n < 32 && i <= |a| == |s| && ShrClear(s, i - k, n)
    && LE(a[..i]) == LE(s) * (Weight(k) * Pow(2, n)) + r && r < Weight(k) * Pow(2, n)
    && (i <= k ==> LE(s) == 0)
  }

  lemma {:induction false} ShrSkip(s: seq<uint32>, a: seq<uint32>, i: nat, k: nat, n: nat, r: nat) returns (r2: nat)
    requires i < |a| && i < k && Shifting(s, a, i, k, n, r)
    ensures Shifting(ShrStep(s, a[i], i, k, n), a, i + 1, k, n, r2)
  {
    hide LE, Weight, Pow, ShlWord, ShrWord, Or;
    r2 := LE(a[..i + 1]);
    LEBound(a[..i + 1]);
    WeightGrows(i + 1, k);
    MulMono(Weight(k), Weight(k), 1, Pow(2, n));
  }

  lemma {:induction false} WeightGrows(m: nat, n: nat)
    requires m <= n
    ensures Weight(m) <= Weight(n)
  {
    PowGrows(BASE, m, n);
  }

  lemma {:induction false} ShrFirst(s: seq<uint32>, a: seq<uint32>, k: nat, n: nat, r: nat) returns (r2: nat)
    requires k < |a| && Shifting(s, a, k, k, n, r)
    ensures Shifting(ShrStep(s, a[k], k, k, n), a, k + 1, k, n, r2)
  {
    hide LE, Weight, Pow, ShlWord, ShrWord, Or, Rem, Quo;
    var x, e := a[k], Pow(2, n);
    var hi, lo := ShrWord(x, n), Rem(x, e);
    ShrIs(x, n);
    OrZero(hi);
    var c := PutWordAdds(s, 0, hi);
    WeightNext(0);
    LEBound(a[..k]);
    LENext(a, k);
    MulMono(0, lo, 0, Weight(k));
    r2 := r + lo * Weight(k);
    FirstTerm(x, hi, lo, e, Weight(k), r);
    ShrHigh(x, n);
    FitsAnyway(s, 0, hi, c);
  }

  /** A value that fits loses nothing. */
  lemma {:induction false} FitsAnyway(s: seq<uint32>, p: nat, v: uint32, c: nat)
    requires p < |s| && Or(s[p], v) == s[p] as int + v && LE(PutWord(s, p, v)) + c * Weight(|s|) == LE(s) + v * Weight(p)
    ensures c == 0
  {
    hide LE, Weight, Or;
    LEUpdate(s, p, OrWord(s[p], v));
    if c > 0 {
      MulMono(1, c, Weight(|s|), Weight(|s|));
      assert false;
    }
  }

  lemma {:induction false} ShrIs(x: uint32, n: nat)
    ensures x == ShrWord(x, n) * Pow(2, n) + Rem(x, Pow(2, n))
  {
    hide Rem, Quo, Pow;
    QuoRem(x, Pow(2, n));
  }

  lemma {:induction false} ShrHigh(x: uint32, n: nat)
    requires n <= 32
    ensures ShrWord(x, n) < Pow(2, 32 - n)
  {
    hide Pow, ShrWord, ShlWord;
    ShiftParts(x, 32 - n);
  }

  lemma {:induction false} FirstTerm(x: nat, hi: nat, lo: nat, e: nat, w: nat, r: nat)
    requires x == hi * e + lo && lo < e && r < w
    ensures r + x * w == hi * (w * e) + (r + lo * w) && r + lo * w < w * e
  {
    Distribute(hi * e, lo, w);
    MulAssoc(hi, e, w);
    MulMono(lo + 1, e, w, w);
    Distribute(lo, 1, w);
  }

  lemma {:induction false} ShrRest(s: seq<uint32>, a: seq<uint32>, i: nat, k: nat, n: nat, r: nat)
    requires k < i < |a| && Shifting(s, a, i, k, n, r)
    ensures Shifting(ShrStep(s, a[i], i, k, n), a, i + 1, k, n, r)
  {
    hide LE, Weight, Pow, ShlWord, ShrWord, Or, Rem, Quo;
    var x, e, f := a[i], Pow(2, n), Pow(2, 32 - n);
    var hi, lo, w := ShrWord(x, n), Rem(x, e), ShlWord(x, 32 - n);
    var p := i - k;
    ShiftParts(x, 32 - n);
    OrDisjoint(s[p - 1], lo, 32 - n);
    var t := PutWord(s, p - 1, w);
    var c1 := PutWordAdds(s, p - 1, w);
    FitsAnyway(s, p - 1, w, c1);
    OrZero(hi);
    var c2 := PutWordAdds(t, p, hi);
    FitsAnyway(t, p, hi, c2);
    ShrHigh(x, n);
    LENext(a, i);
    WeightAdd(p, k);
    WeightNext(p - 1);
    WordSize();
    PowAdd(2, 32 - n, n);
    ShrIs(x, n);
    RestTerm(x, hi, lo, w, e, f, Weight(p - 1), Weight(k), LE(s), r);
  }

  lemma {:induction false} RestTerm(x: nat, hi: nat, lo: nat, w: nat, e: nat, f: nat, wp: nat, wk: nat, v: nat, r: nat)
    requires x == hi * e + lo && w == lo * f && f * e == BASE
    ensures v * (wk * e) + r + x * (BASE * wp * wk) == (v + w * wp + hi * (BASE * wp)) * (wk * e) + r
  {
    var u := BASE * wp * wk;
    assert lo * u == w * wp * (wk * e) by {
      assert w * wp * (wk * e) == lo * (f * e) * wp * wk by {
        MulAssoc(lo * f * wp, wk, e);
        assert lo * f * wp * wk * e == lo * (f * e) * wp * wk by { Shuffle(lo, f, wp, wk, e); }
      }
      MulAssoc(lo, BASE, wp);
      MulAssoc(lo, BASE * wp, wk);
    }
    assert hi * e * u == hi * (BASE * wp) * (wk * e) by {
      MulAssoc(hi * (BASE * wp), wk, e);
      Shuffle(hi, e, BASE * wp, wk, 1);
      MulAssoc(hi * e, BASE * wp, wk);
    }
    Distribute(hi * e, lo, u);
    Distribute(v + w * wp, hi * (BASE * wp), wk * e);
    Distribute(v, w * wp, wk * e);
  }

  lemma {:induction false} Shuffle(a: nat, b: nat, c: nat, d: nat, e: nat)
    ensures a * b * c * d * e == a * (b * e) * c * d
    ensures a * b * c * d == a * c * d * b
  {
  }

  // ---------- Bit lengths ----------

  ghost predicate IsBitLength(v: nat, n: nat) {
    if n == 0 then v == 0 else Pow(2, n - 1) <= v < Pow(2, n)
  }

  predicate HasBit(x: nat, n: nat) { Quo(x, Pow(2, n)) % 2 == 1 }

  lemma {:induction false} HighBit(x: nat, n: nat)
    requires x < Pow(2, n + 1)
    ensures HasBit(x, n) <==> x >= Pow(2, n)
  {
    var d := Pow(2, n);
    assert Pow(2, n + 1) == 2 * d;
    if x < d { DivideBack(0, x, d); } else { DivideBack(1, x - d, d); }
  }

  /** The bit length of a word that is not zero. */
  method WordBits(x: uint32) returns (r: nat)
    requires x != 0
    ensures 1 <= r <= 32 && Pow(2, r - 1) <= x < Pow(2, r)
  {
    hide Pow, HasBit;
    WordSize();
    PowZero();
    var bits := 31;
    while bits > 0
      invariant 0 <= bits <= 31 && x < Pow(2, bits + 1)
    {
      HighBit(x, bits);
      if HasBit(x, bits) { return bits + 1; }
      bits := bits - 1;
    }
    return 1;
  }

  lemma {:induction false} PowZero()
    ensures Pow(2, 0) == 1
  {
  }

  lemma {:induction false} TopWord(s: seq<uint32>, p: nat, bits: nat)
    requires p < |s| && 1 <= bits <= 32 && Pow(2, bits - 1) <= s[p] < Pow(2, bits) && forall j | p < j < |s| :: s[j] == 0
    ensures IsBitLength(LE(s), 32 * p + bits)
  {
    hide LE, Weight, Pow;
    LESplit(s, p + 1);
    LEZero(s[p + 1..]);
    LENext(s, p);
    LEBound(s[..p]);
    var x: nat := s[p];
    ShiftFactor(p, bits);
    ShiftFactor(p, bits - 1);
    MulMono(Pow(2, bits - 1), x, Weight(p), Weight(p));
    MulMono(x + 1, Pow(2, bits), Weight(p), Weight(p));
    Distribute(x, 1, Weight(p));
  }

  lemma {:induction false} BitLengthZero(v: nat, n: nat)
    requires IsBitLength(v, n)
    ensures n == 0 <==> v == 0
  {
  }

  lemma {:induction false} ShorterIsLess(v: nat, d: nat, m: nat, n: nat)
    requires IsBitLength(v, m) && IsBitLength(d, n) && m < n
    ensures v < d
  {
    if m > 0 { PowGrows(2, m, n - 1); }
  }

  /** Shifting the divisor up to the bit length of the dividend loses nothing. */
  lemma {:induction false} Aligned(v: nat, d: nat, m: nat, n: nat, modulus: nat, width: nat)
    requires IsBitLength(v, m) && IsBitLength(d, n) && 0 < n <= m <= 32 * width && modulus == Weight(width)
    ensures d * Pow(2, m - n) < modulus && v < d * Pow(2, m - n + 1)
  {
    hide Pow, Weight;
    ShiftFactor(width, 0);
    PowZero();
    PowAdd(2, n, m - n);
    PowAdd(2, n - 1, m - n + 1);
    PowGrows(2, m, 32 * width);
    Less(d, Pow(2, n), Pow(2, m - n));
    MulMono(Pow(2, n - 1), d, Pow(2, m - n + 1), Pow(2, m - n + 1));
  }

  function BitWord(n: nat): uint32
    requires n < 32
  {
    WordSize();
    PowStep(n, 32);
    Pow(2, n)
  }

  lemma {:induction false} PowStep(m: nat, n: nat)
    requires m < n
    ensures Pow(2, m) < Pow(2, n) && Pow(2, m + 1) == 2 * Pow(2, m)
  {
    PowGrows(2, m + 1, n);
  }

  /** No bit below m is set. */
  ghost predicate LowClear(s: seq<uint32>, m: nat) {
    && (forall j | 0 <= j < |s| && j < m / 32 :: s[j] == 0)
    && (m / 32 < |s| ==> Rem(s[m / 32], Pow(2, m % 32)) == 0)
  }

  lemma {:induction false} LowClearZero(s: seq<uint32>, m: nat)
    requires forall i | 0 <= i < |s| :: s[i] == 0
    ensures LowClear(s, m)
  {
    hide Rem;
    DivideBack(0, 0, Pow(2, m % 32));
  }

  lemma {:induction false} MultipleOfHalf(x: nat, n: nat)
    requires Rem(x, Pow(2, n + 1)) == 0
    ensures Rem(x, Pow(2, n)) == 0 && x == Quo(x, Pow(2, n + 1)) * Pow(2, n + 1)
  {
    hide Rem, Quo;
    QuoRem(x, Pow(2, n + 1));
    var q := Quo(x, Pow(2, n + 1));
    assert Pow(2, n + 1) == 2 * Pow(2, n);
    MulAssoc(q, 2, Pow(2, n));
    DivideBack(q * 2, 0, Pow(2, n));
  }

  /** The word of bit m: its bits up to m are clear. */
  lemma {:induction false} BitIsClear(s: seq<uint32>, m: nat)
    requires LowClear(s, m + 1) && m / 32 < |s|
    ensures Rem(s[m / 32], Pow(2, m % 32 + 1)) == 0
  {
    hide Pow, Rem, Quo;
    if m % 32 == 31 {
      assert (m + 1) / 32 == m / 32 + 1;
      DivideBack(0, 0, Pow(2, 32));
    } else {
      assert (m + 1) / 32 == m / 32 && (m + 1) % 32 == m % 32 + 1;
    }
  }

  lemma {:induction false} LowClearLess(s: seq<uint32>, m: nat)
    requires LowClear(s, m + 1) && m / 32 < |s|
    ensures LowClear(s, m)
  {
    hide Pow, Rem, Quo;
    BitIsClear(s, m);
    MultipleOfHalf(s[m / 32], m % 32);
    forall j | 0 <= j < |s| && j < m / 32 ensures s[j] == 0 {
    }
  }

  lemma {:induction false} SetBit(s: seq<uint32>, m: nat)
    requires LowClear(s, m + 1) && m / 32 < |s|
    ensures var t := s[m / 32 := OrWord(s[m / 32], BitWord(m % 32))];
      LowClear(t, m) && LE(t) == LE(s) + Pow(2, m)
  {
    hide Pow, Rem, Quo, LE, Weight, OrWord, BitWord;
    var j, n := m / 32, m % 32;
    BitIsClear(s, m);
    BitIntoWord(s[j], n);
    var t := s[j := OrWord(s[j], BitWord(n))];
    LEUpdate(s, j, t[j]);
    ShiftFactor(j, n);
  }

  lemma {:induction false} BitIntoWord(x: uint32, n: nat)
    requires n < 32 && Rem(x, Pow(2, n + 1)) == 0
    ensures OrWord(x, BitWord(n)) - x == Pow(2, n) && Rem(OrWord(x, BitWord(n)), Pow(2, n)) == 0
  {
    hide Pow, Rem, Quo, Or;
    MultipleOfHalf(x, n);
    PowStep(n, n + 1);
    var q := Quo(x, Pow(2, n + 1));
    OrDisjoint(Pow(2, n), q, n + 1);
    OddMultiple(q, Pow(2, n));
    DivideBack(2 * q + 1, 0, Pow(2, n));
  }

  lemma {:induction false} OddMultiple(q: nat, p: nat)
    ensures q * (2 * p) + p == (2 * q + 1) * p
  {
  }

  lemma {:induction false} Halve(d: nat, shift: nat)
    ensures shift > 0 ==> Quo(d * Pow(2, shift), Pow(2, 1)) == d * Pow(2, shift - 1)
  {
    if shift > 0 {
      var p := Pow(2, shift - 1);
      assert Pow(2, 1) == 2 * Pow(2, 0) && Pow(2, shift) == 2 * p;
      MulAssoc(d, p, 2);
      DivideBack(d * p, 0, 2);
    }
  }
}
