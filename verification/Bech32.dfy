/** Bech32 strings (src/bech32.cpp; section "Bech32" of BIP 173).  Strings and data are byte
    sequences.  Every encoded string decodes to what was encoded, every accepted string is the
    encoding of what it decodes to, and no accepted string is one data symbol away from another. */
module Bech32 {

  // ---------- Words ----------

  function Xor(a: bv32, b: bv32): bv32 { a ^ b }

  lemma {:induction false} XorAssociates(a: bv32, b: bv32, c: bv32)
    ensures Xor(Xor(a, b), c) == Xor(a, Xor(b, c))
  {
    assert (a ^ b) ^ c == a ^ (b ^ c);
  }

  lemma {:induction false} XorLaws(a: bv32, b: bv32)
    ensures Xor(a, b) == Xor(b, a) && Xor(a, 0) == a && Xor(a, a) == 0 && (Xor(a, b) == 0 ==> a == b)
  {
  }

  lemma {:induction false} XorSwap(a: bv32, b: bv32, c: bv32, d: bv32)
    ensures Xor(Xor(a, b), Xor(c, d)) == Xor(Xor(a, c), Xor(b, d))
  {
    hide Xor;
    XorAssociates(a, b, Xor(c, d));
    XorAssociates(b, c, d);
    XorLaws(b, c);
    XorAssociates(c, b, d);
    XorAssociates(a, c, Xor(b, d));
  }

  // ---------- PolyMod ----------

  predicate Has(c: bv32, bit: bv32) { c & bit != 0 }

  function Pick(c0: bv32, bit: bv32, k: bv32): bv32 { if Has(c0, bit) then k else 0 }

  function Shifted(c: bv32, v: bv8): bv32 { ((c & 0x1ffffff) << 5) ^ (v as bv32) }

  function Top(c: bv32): bv32 { c >> 25 }

  /** c(x) * x + v modulo the generator. */
  function Step(c: bv32, v: bv8): bv32 {
    var c0 := Top(c);
    Xor(Xor(Xor(Xor(Xor(Shifted(c, v), Pick(c0, 1, 0x3b6a57b2)), Pick(c0, 2, 0x26508e6d)), Pick(c0, 4, 0x1ea119fa)),
            Pick(c0, 8, 0x3d4233dd)), Pick(c0, 16, 0x2a1462b3))
  }

  function Fold(c: bv32, v: seq<bv8>): bv32 {
    if v == [] then c else Step(Fold(c, v[..|v| - 1]), v[|v| - 1])
  }

  /** One turn of the loop of PolyMod. */
  method Advance(c: bv32, v: bv8) returns (r: bv32)
    ensures r == Step(c, v)
  {
    hide Xor, Has, Shifted, Top;
    var c0 := Top(c);
    r := Shifted(c, v);
    r := AddIf(r, c0, 1, 0x3b6a57b2);
    r := AddIf(r, c0, 2, 0x26508e6d);
    r := AddIf(r, c0, 4, 0x1ea119fa);
    r := AddIf(r, c0, 8, 0x3d4233dd);
    r := AddIf(r, c0, 16, 0x2a1462b3);
  }

  method AddIf(c: bv32, c0: bv32, bit: bv32, k: bv32) returns (r: bv32)
    ensures r == Xor(c, Pick(c0, bit, k))
  {
    hide Xor, Has;
    XorLaws(c, 0);
    r := c;
    if Has(c0, bit) { r := Xor(c, k); }
  }

  method PolyMod(v: seq<bv8>) returns (c: bv32)
    ensures c == Fold(1, v)
  {
    hide Step;
    c := 1;
    var i := 0;
    assert v[..0] == [];
    while i < |v|
      invariant 0 <= i <= |v| && c == Fold(1, v[..i])
    {
      assert v[..i + 1][..i] == v[..i];
      c := Advance(c, v[i]);
      i := i + 1;
    }
    assert v[..i] == v;
  }

  lemma {:induction false} HasXor(a: bv32, b: bv32, bit: bv32)
    requires bit == 1 || bit == 2 || bit == 4 || bit == 8 || bit == 16
    ensures Has(Xor(a, b), bit) <==> (Has(a, bit) != Has(b, bit))
  {
  }

  lemma {:induction false} PickLinear(a: bv32, b: bv32, bit: bv32, k: bv32)
    requires bit == 1 || bit == 2 || bit == 4 || bit == 8 || bit == 16
    ensures Pick(Xor(a, b), bit, k) == Xor(Pick(a, bit, k), Pick(b, bit, k))
  {
    hide Xor, Has;
    HasXor(a, b, bit);
    XorLaws(k, 0);
    XorLaws(k, k);
    XorLaws(0, 0);
  }

  lemma {:induction false} ShiftLinear(a: bv32, b: bv32, x: bv8, y: bv8)
    ensures Shifted(Xor(a, b), x ^ y) == Xor(Shifted(a, x), Shifted(b, y))
    ensures Top(Xor(a, b)) == Xor(Top(a), Top(b))
  {
  }

  lemma {:induction false} StepLinear(a: bv32, b: bv32, x: bv8, y: bv8)
    ensures Step(Xor(a, b), x ^ y) == Xor(Step(a, x), Step(b, y))
  {
    hide Xor, Pick, Shifted, Top;
    ShiftLinear(a, b, x, y);
    var p, q := Top(a), Top(b);
    var p0, q0 := Shifted(a, x), Shifted(b, y);
    var p1, q1 := Xor(p0, Pick(p, 1, 0x3b6a57b2)), Xor(q0, Pick(q, 1, 0x3b6a57b2));
    var p2, q2 := Xor(p1, Pick(p, 2, 0x26508e6d)), Xor(q1, Pick(q, 2, 0x26508e6d));
    var p3, q3 := Xor(p2, Pick(p, 4, 0x1ea119fa)), Xor(q2, Pick(q, 4, 0x1ea119fa));
    var p4, q4 := Xor(p3, Pick(p, 8, 0x3d4233dd)), Xor(q3, Pick(q, 8, 0x3d4233dd));
    PickLinear(p, q, 1, 0x3b6a57b2);
    XorSwap(p0, q0, Pick(p, 1, 0x3b6a57b2), Pick(q, 1, 0x3b6a57b2));
    PickLinear(p, q, 2, 0x26508e6d);
    XorSwap(p1, q1, Pick(p, 2, 0x26508e6d), Pick(q, 2, 0x26508e6d));
    PickLinear(p, q, 4, 0x1ea119fa);
    XorSwap(p2, q2, Pick(p, 4, 0x1ea119fa), Pick(q, 4, 0x1ea119fa));
    PickLinear(p, q, 8, 0x3d4233dd);
    XorSwap(p3, q3, Pick(p, 8, 0x3d4233dd), Pick(q, 8, 0x3d4233dd));
    PickLinear(p, q, 16, 0x2a1462b3);
    XorSwap(p4, q4, Pick(p, 16, 0x2a1462b3), Pick(q, 16, 0x2a1462b3));
  }

  /** Thirty bits are enough, and multiplying by x loses nothing. */
  lemma {:induction false} StepBits(c: bv32, v: bv8)
    ensures Step(c, v) < 0x40000000
  {
  }

  function Low(w: bv32): bv32 { w & 31 }

  lemma {:induction false} LowXor(a: bv32, b: bv32)
    ensures Low(Xor(a, b)) == Xor(Low(a), Low(b))
  {
  }

  /** The low symbols of the multiples of k(x) are independent. */
  lemma {:induction false} Independent(p1: bool, p2: bool, p3: bool, p4: bool, p5: bool)
    requires Xor(Xor(Xor(Xor(Xor(0, if p1 then 0x12 else 0), if p2 then 0x0d else 0), if p3 then 0x1a else 0),
                     if p4 then 0x1d else 0), if p5 then 0x13 else 0) == 0
    ensures !p1 && !p2 && !p3 && !p4 && !p5
  {
  }

  lemma {:induction false} LowPick(c0: bv32, bit: bv32)
    ensures Low(Pick(c0, bit, 0x3b6a57b2)) == if Has(c0, bit) then 0x12 else 0
    ensures Low(Pick(c0, bit, 0x26508e6d)) == if Has(c0, bit) then 0x0d else 0
    ensures Low(Pick(c0, bit, 0x1ea119fa)) == if Has(c0, bit) then 0x1a else 0
    ensures Low(Pick(c0, bit, 0x3d4233dd)) == if Has(c0, bit) then 0x1d else 0
    ensures Low(Pick(c0, bit, 0x2a1462b3)) == if Has(c0, bit) then 0x13 else 0
  {
    hide Has;
  }

  lemma {:induction false} LowShifted(c: bv32)
    ensures Low(Shifted(c, 0)) == 0 && Low(0) == 0
    ensures Shifted(c, 0) == 0 ==> c & 0x1ffffff == 0
  {
  }

  lemma {:induction false} NoTop(c: bv32)
    requires c < 0x40000000 && c & 0x1ffffff == 0
    requires !Has(Top(c), 1) && !Has(Top(c), 2) && !Has(Top(c), 4) && !Has(Top(c), 8) && !Has(Top(c), 16)
    ensures c == 0
  {
  }

  lemma {:induction false} StepInjective(c: bv32)
    requires c < 0x40000000 && Step(c, 0) == 0
    ensures c == 0
  {
    hide Has, Top, Shifted, Xor, Low;
    var c0 := Top(c);
    var w0 := Shifted(c, 0);
    var p1, p2, p3 := Pick(c0, 1, 0x3b6a57b2), Pick(c0, 2, 0x26508e6d), Pick(c0, 4, 0x1ea119fa);
    var p4, p5 := Pick(c0, 8, 0x3d4233dd), Pick(c0, 16, 0x2a1462b3);
    LowShifted(c);
    LowPick(c0, 1);
    LowPick(c0, 2);
    LowPick(c0, 4);
    LowPick(c0, 8);
    LowPick(c0, 16);
    LowXor(w0, p1);
    LowXor(Xor(w0, p1), p2);
    LowXor(Xor(Xor(w0, p1), p2), p3);
    LowXor(Xor(Xor(Xor(w0, p1), p2), p3), p4);
    LowXor(Xor(Xor(Xor(Xor(w0, p1), p2), p3), p4), p5);
    Independent(Has(c0, 1), Has(c0, 2), Has(c0, 4), Has(c0, 8), Has(c0, 16));
    XorLaws(w0, 0);
    NoTop(c);
  }

  lemma {:induction false} FoldBits(c: bv32, v: seq<bv8>)
    requires c < 0x40000000
    ensures Fold(c, v) < 0x40000000
  {
    if v != [] { StepBits(Fold(c, v[..|v| - 1]), v[|v| - 1]); }
  }

  lemma {:induction false} FoldAppend(c: bv32, a: seq<bv8>, b: seq<bv8>)
    ensures Fold(c, a + b) == Fold(Fold(c, a), b)
  {
    hide Step;
    if b == [] {
      assert a + b == a;
    } else {
      var n := |b| - 1;
      FoldAppend(c, a, b[..n]);
      assert (a + b)[..|a + b| - 1] == a + b[..n];
    }
  }

  function Differences(x: seq<bv8>, y: seq<bv8>): (d: seq<bv8>)
    requires |x| == |y|
    ensures |d| == |x|
  {
    seq(|x|, i requires 0 <= i < |x| => x[i] ^ y[i])
  }

  /** PolyMod is linear. */
  lemma {:induction false} FoldLinear(a: bv32, b: bv32, x: seq<bv8>, y: seq<bv8>)
    requires |x| == |y|
    ensures Fold(Xor(a, b), Differences(x, y)) == Xor(Fold(a, x), Fold(b, y))
  {
    hide Step, Xor;
    if x != [] {
      var n := |x| - 1;
      FoldLinear(a, b, x[..n], y[..n]);
      assert Differences(x, y)[..n] == Differences(x[..n], y[..n]);
      StepLinear(Fold(a, x[..n]), Fold(b, y[..n]), x[n], y[n]);
    }
  }

  function Zeros(n: nat): seq<bv8> { seq(n, i => 0) }

  lemma {:induction false} StepZero()
    ensures Step(0, 0) == 0
  {
  }

  lemma {:induction false} FoldZeros(c: bv32, n: nat)
    requires c < 0x40000000
    ensures Fold(c, Zeros(n)) == 0 <==> c == 0
  {
    hide Step;
    if n > 0 {
      FoldZeros(c, n - 1);
      assert Zeros(n)[..n - 1] == Zeros(n - 1);
      FoldBits(c, Zeros(n - 1));
      StepZero();
      if Step(Fold(c, Zeros(n - 1)), 0) == 0 { StepInjective(Fold(c, Zeros(n - 1))); }
    }
  }

  // ---------- The checksum ----------

  /** The low symbol of a word, and the word without it. */
  function Sym(w: bv32): bv8 { (w & 31) as bv8 }

  function Rest(w: bv32): bv32 { w >> 5 }

  /** The six symbols packed in thirty bits. */
  function Groups(m: bv32): seq<bv8> {
    [Sym(m >> 25), Sym(m >> 20), Sym(m >> 15), Sym(m >> 10), Sym(m >> 5), Sym(m)]
  }

  lemma {:induction false} GroupsByRest(m: bv32)
    ensures Groups(m)
         == [Sym(Rest(Rest(Rest(Rest(Rest(m)))))), Sym(Rest(Rest(Rest(Rest(m))))), Sym(Rest(Rest(Rest(m)))),
             Sym(Rest(Rest(m))), Sym(Rest(m)), Sym(m)]
  {
    assert m >> 10 == (m >> 5) >> 5;
    assert m >> 15 == (m >> 10) >> 5;
    assert m >> 20 == (m >> 15) >> 5;
    assert m >> 25 == (m >> 20) >> 5;
  }

  lemma {:induction false} StepSmall(c: bv32, v: bv8)
    requires c < 0x2000000
    ensures Step(c, v) == Shifted(c, v)
  {
    NoPicks(c);
    hide Has, Top, Shifted, Xor;
    XorLaws(Shifted(c, v), 0);
  }

  lemma {:induction false} NoPicks(c: bv32)
    requires c < 0x2000000
    ensures !Has(Top(c), 1) && !Has(Top(c), 2) && !Has(Top(c), 4) && !Has(Top(c), 8) && !Has(Top(c), 16)
  {
  }

  lemma {:induction false} Packing(c: bv32, v: bv8)
    requires c < 0x2000000 && v < 32
    ensures Sym(Shifted(c, v)) == v && Rest(Shifted(c, v)) == c && Shifted(c, v) < 0x40000000
    ensures c < 0x100000 ==> Shifted(c, v) < 0x2000000
    ensures c < 0x8000 ==> Shifted(c, v) < 0x100000
    ensures c < 0x400 ==> Shifted(c, v) < 0x8000
    ensures c < 0x20 ==> Shifted(c, v) < 0x400
    ensures c == 0 ==> Shifted(c, v) < 0x20
  {
    hide Shifted, Sym, Rest;
    RestPacked(c, v);
    SymPacked(c, v);
    RestBounds(Shifted(c, v));
  }

  lemma {:induction false} RestPacked(c: bv32, v: bv8)
    requires c < 0x2000000 && v < 32
    ensures Rest(Shifted(c, v)) == c && Shifted(c, v) < 0x40000000
  {
  }

  lemma {:induction false} SymPacked(c: bv32, v: bv8)
    requires v < 32
    ensures Sym(Shifted(c, v)) == v
  {
    assert (v as bv32) & 31 == v as bv32;
    LowShift(c, v as bv32);
  }

  lemma {:induction false} LowShift(c: bv32, v: bv32)
    ensures (((c & 0x1ffffff) << 5) ^ v) & 31 == v & 31
  {
  }

  lemma {:induction false} RestBounds(w: bv32)
    ensures Rest(w) < 0x100000 ==> w < 0x2000000
    ensures Rest(w) < 0x8000 ==> w < 0x100000
    ensures Rest(w) < 0x400 ==> w < 0x8000
    ensures Rest(w) < 0x20 ==> w < 0x400
    ensures Rest(w) == 0 ==> w < 0x20
  {
  }

  lemma {:induction false} Unpacking(w: bv32)
    requires w < 0x40000000
    ensures Shifted(Rest(w), Sym(w)) == w && Sym(w) < 32 && Rest(w) < 0x2000000
    ensures w < 0x2000000 ==> Rest(w) < 0x100000
    ensures w < 0x100000 ==> Rest(w) < 0x8000
    ensures w < 0x8000 ==> Rest(w) < 0x400
    ensures w < 0x400 ==> Rest(w) < 0x20
    ensures w < 0x20 ==> Rest(w) == 0
  {
  }

  lemma {:induction false} FoldSix(c: bv32, x: seq<bv8>)
    requires |x| == 6
    ensures Fold(c, x) == Step(Step(Step(Step(Step(Step(c, x[0]), x[1]), x[2]), x[3]), x[4]), x[5])
  {
    hide Step;
    FoldAppend(c, x[..5], [x[5]]);
    FoldAppend(c, x[..4], [x[4]]);
    FoldAppend(c, x[..3], [x[3]]);
    FoldAppend(c, x[..2], [x[2]]);
    FoldAppend(c, x[..1], [x[1]]);
    assert x == x[..5] + [x[5]] && x[..5] == x[..4] + [x[4]] && x[..4] == x[..3] + [x[3]]
      && x[..3] == x[..2] + [x[2]] && x[..2] == x[..1] + [x[1]];
    assert x[..1] == [x[0]];
  }

  /** From nothing, six symbols are simply packed... */
  lemma {:induction false} FoldPacks(x: seq<bv8>)
    requires |x| == 6 && forall i | 0 <= i < 6 :: x[i] < 32
    ensures Groups(Fold(0, x)) == x
  {
    hide Step, Shifted, Sym, Rest, Groups;
    FoldSix(0, x);
    var w1 := Shifted(0, x[0]);
    var w2 := Shifted(w1, x[1]);
    var w3 := Shifted(w2, x[2]);
    var w4 := Shifted(w3, x[3]);
    var w5 := Shifted(w4, x[4]);
    StepSmall(0, x[0]);
    Packing(0, x[0]);
    StepSmall(w1, x[1]);
    Packing(w1, x[1]);
    StepSmall(w2, x[2]);
    Packing(w2, x[2]);
    StepSmall(w3, x[3]);
    Packing(w3, x[3]);
    StepSmall(w4, x[4]);
    Packing(w4, x[4]);
    StepSmall(w5, x[5]);
    Packing(w5, x[5]);
    GroupsByRest(Fold(0, x));
  }

  /** ...and every thirty bits are reached that way. */
  lemma {:induction false} FoldUnpacks(m: bv32)
    requires m < 0x40000000
    ensures Fold(0, Groups(m)) == m && forall i | 0 <= i < 6 :: Groups(m)[i] < 32
  {
    GroupsByRest(m);
    hide Step, Shifted, Sym, Rest, Groups;
    var r1 := Rest(m);
    var r2 := Rest(r1);
    var r3 := Rest(r2);
    var r4 := Rest(r3);
    var r5 := Rest(r4);
    Unpacking(m);
    Unpacking(r1);
    Unpacking(r2);
    Unpacking(r3);
    Unpacking(r4);
    Unpacking(r5);
    FoldSix(0, Groups(m));
    StepSmall(0, Sym(r5));
    StepSmall(r5, Sym(r4));
    StepSmall(r4, Sym(r3));
    StepSmall(r3, Sym(r2));
    StepSmall(r2, Sym(r1));
    StepSmall(r1, Sym(m));
  }

  /** What CreateChecksum appends after a prefix that leaves c. */
  function ChecksumAfter(c: bv32): seq<bv8> { Groups(Xor(Fold(c, Zeros(6)), 1)) }

  /** Exactly one choice of six symbols makes the checksum come out as 1. */
  lemma {:induction false} ChecksumIsTheOne(c: bv32, x: seq<bv8>)
    requires c < 0x40000000 && |x| == 6 && forall i | 0 <= i < 6 :: x[i] < 32
    ensures Fold(c, x) == 1 <==> x == ChecksumAfter(c)
    ensures |ChecksumAfter(c)| == 6 && forall i | 0 <= i < 6 :: ChecksumAfter(c)[i] < 32
  {
    var z := Fold(c, Zeros(6));
    var m := Xor(z, 1);
    FoldBits(c, Zeros(6));
    assert m < 0x40000000;
    FoldPacks(x);
    FoldUnpacks(m);
    FoldLinear(c, 0, Zeros(6), x);
    hide Xor, Step, Fold, Groups;
    XorLaws(c, 0);
    assert Differences(Zeros(6), x) == x by { ZeroDifferences(x); }
    assert Fold(c, x) == Xor(z, Fold(0, x));
    XorCancels(z, Fold(0, x));
  }

  lemma {:induction false} ZeroDifferences(x: seq<bv8>)
    ensures Differences(Zeros(|x|), x) == x
  {
    forall i | 0 <= i < |x| ensures (0 as bv8) ^ x[i] == x[i] {
    }
  }

  lemma {:induction false} XorCancels(z: bv32, w: bv32)
    ensures Xor(z, w) == 1 <==> w == Xor(z, 1)
  {
    hide Xor;
    XorAssociates(z, z, w);
    XorAssociates(z, z, 1);
    XorLaws(z, z);
    XorLaws(w, 0);
    XorLaws(1, 0);
  }

  // ---------- Characters ----------

  const SEPARATOR: bv8 := 49
  const NONE: bv8 := 255

  predicate IsLower(c: bv8) { 97 <= c <= 122 }

  predicate IsUpper(c: bv8) { 65 <= c <= 90 }

  function LowerCase(c: bv8): bv8 { if IsUpper(c) then (c - 65) + 97 else c }

  /** CHARSET. */
  function CharOf(v: bv8): bv8 {
    if v == 0 then 113 else if v == 1 then 112 else if v == 2 then 122 else if v == 3 then 114
    else if v == 4 then 121 else if v == 5 then 57 else if v == 6 then 120 else if v == 7 then 56
    else if v == 8 then 103 else if v == 9 then 102 else if v == 10 then 50 else if v == 11 then 116
    else if v == 12 then 118 else if v == 13 then 100 else if v == 14 then 119 else if v == 15 then 48
    else if v == 16 then 115 else if v == 17 then 51 else if v == 18 then 106 else if v == 19 then 110
    else if v == 20 then 53 else if v == 21 then 52 else if v == 22 then 107 else if v == 23 then 104
    else if v == 24 then 99 else if v == 25 then 101 else if v == 26 then 54 else if v == 27 then 109
    else if v == 28 then 117 else if v == 29 then 97 else if v == 30 then 55
    else 108
  }

  function RevLower(c: bv8): bv8 {
    if c == 48 then 15 else if c == 50 then 10 else if c == 51 then 17 else if c == 52 then 21
    else if c == 53 then 20 else if c == 54 then 26 else if c == 55 then 30 else if c == 56 then 7
    else if c == 57 then 5 else if c == 97 then 29 else if c == 99 then 24 else if c == 100 then 13
    else if c == 101 then 25 else if c == 102 then 9 else if c == 103 then 8 else if c == 104 then 23
    else if c == 106 then 18 else if c == 107 then 22 else if c == 108 then 31 else if c == 109 then 27
    else if c == 110 then 19 else if c == 112 then 1 else if c == 113 then 0 else if c == 114 then 3
    else if c == 115 then 16 else if c == 116 then 11 else if c == 117 then 28 else if c == 118 then 12
    else if c == 119 then 14 else if c == 120 then 6 else if c == 121 then 4 else if c == 122 then 2
    else NONE
  }

  /** CHARSET_REV, which has the same entries for both cases; NONE stands for -1. */
  function RevOf(c: bv8): bv8 { RevLower(LowerCase(c)) }

  lemma {:induction false} CharFacts(v: bv8)
    requires v < 32
    ensures RevLower(CharOf(v)) == v && 33 <= CharOf(v) <= 126 && CharOf(v) != SEPARATOR && !IsUpper(CharOf(v))
  {
  }

  lemma {:induction false} RevLowerFacts(c: bv8)
    requires RevLower(c) != NONE
    ensures RevLower(c) < 32 && CharOf(RevLower(c)) == c
  {
  }

  lemma {:induction false} LowerFacts(c: bv8)
    ensures !IsUpper(LowerCase(c)) && (!IsUpper(c) ==> LowerCase(c) == c)
    ensures RevLower(SEPARATOR) == NONE && LowerCase(SEPARATOR) == SEPARATOR
  {
  }

  function Lower(s: seq<bv8>): seq<bv8> { seq(|s|, i requires 0 <= i < |s| => LowerCase(s[i])) }

  function Chars(v: seq<bv8>): seq<bv8> { seq(|v|, i requires 0 <= i < |v| => CharOf(v[i])) }

  function Symbols(s: seq<bv8>): seq<bv8> { seq(|s|, i requires 0 <= i < |s| => RevOf(s[i])) }

  function HighBits(c: bv8): bv8 { c >> 5 }

  function LowBits(c: bv8): bv8 { c & 31 }

  /** The human-readable part as checksum input: the high bits, a zero, the low bits. */
  function Expand(hrp: seq<bv8>): seq<bv8> {
    seq(|hrp|, i requires 0 <= i < |hrp| => HighBits(hrp[i])) + [0] + seq(|hrp|, i requires 0 <= i < |hrp| => LowBits(hrp[i]))
  }

  method ExpandHRP(hrp: seq<bv8>) returns (ret: seq<bv8>)
    ensures ret == Expand(hrp)
  {
    var n := |hrp|;
    var a := new bv8[n * 2 + 1](i => 0);
    var i := 0;
    while i < n
      invariant 0 <= i <= n
      invariant forall j | 0 <= j < i :: a[j] == HighBits(hrp[j]) && a[j + n + 1] == LowBits(hrp[j])
    {
      a[i] := HighBits(hrp[i]);
      a[i + n + 1] := LowBits(hrp[i]);
      i := i + 1;
    }
    a[n] := 0;
    ret := a[..];
  }

  /** What PolyMod leaves after the human-readable part and the data. */
  function Prefix(hrp: seq<bv8>, values: seq<bv8>): bv32 { Fold(1, Expand(hrp) + values) }

  function Checksum(hrp: seq<bv8>, values: seq<bv8>): seq<bv8> { ChecksumAfter(Prefix(hrp, values)) }

  method CreateChecksum(hrp: seq<bv8>, values: seq<bv8>) returns (ret: seq<bv8>)
    ensures ret == Checksum(hrp, values)
  {
    hide Step, Groups;
    var enc := ExpandHRP(hrp);
    enc := enc + values;
    FoldAppend(1, enc, Zeros(6));
    enc := enc + Zeros(6);
    var mod := PolyMod(enc);
    ret := Groups(Xor(mod, 1));
  }

  method VerifyChecksum(hrp: seq<bv8>, values: seq<bv8>) returns (ok: bool)
    ensures ok <==> Prefix(hrp, values) == 1
  {
    hide Step;
    var enc := ExpandHRP(hrp);
    var mod := PolyMod(enc + values);
    return mod == 1;
  }

  /** With its checksum, everything verifies; with other last symbols, nothing does. */
  lemma {:induction false} ChecksumVerifies(hrp: seq<bv8>, values: seq<bv8>, x: seq<bv8>)
    requires |x| == 6 && forall i | 0 <= i < 6 :: x[i] < 32
    ensures Prefix(hrp, values + x) == 1 <==> x == Checksum(hrp, values)
    ensures |Checksum(hrp, values)| == 6 && forall i | 0 <= i < 6 :: Checksum(hrp, values)[i] < 32
  {
    hide Step, Groups;
    FoldBits(1, Expand(hrp) + values);
    FoldAppend(1, Expand(hrp) + values, x);
    assert Expand(hrp) + (values + x) == Expand(hrp) + values + x;
    ChecksumIsTheOne(Prefix(hrp, values), x);
  }

  // ---------- Encode and Decode ----------

  predicate FiveBits(v: seq<bv8>) { forall i | 0 <= i < |v| :: v[i] < 32 }

  function Encoded(hrp: seq<bv8>, values: seq<bv8>): seq<bv8> {
    if FiveBits(values) then hrp + [SEPARATOR] + Chars(values + Checksum(hrp, values)) else []
  }

  method Encode(hrp: seq<bv8>, values: seq<bv8>) returns (ret: seq<bv8>)
    ensures ret == Encoded(hrp, values)
  {
    hide Checksum, CharOf;
    var checksum := CreateChecksum(hrp, values);
    ChecksumVerifies(hrp, values, Zeros(6));
    var combined := values + checksum;
    ret := hrp + [SEPARATOR];
    assert Chars(combined[..0]) == [];
    var i := 0;
    while i < |combined|
      invariant 0 <= i <= |combined| && FiveBits(combined[..i])
      invariant ret == hrp + [SEPARATOR] + Chars(combined[..i])
    {
      if combined[i] >= 32 {
        assert i < |values| && !FiveBits(values);
        return [];
      }
      assert Chars(combined[..i + 1]) == Chars(combined[..i]) + [CharOf(combined[i])];
      ret := ret + [CharOf(combined[i])];
      i := i + 1;
    }
    assert combined[..i] == combined;
    assert forall j | 0 <= j < |values| :: combined[j] == values[j];
  }

  datatype Decoded = Decoded(hrp: seq<bv8>, values: seq<bv8>)

  const FAILURE := Decoded([], [])

  predicate Printable(s: seq<bv8>) { forall i | 0 <= i < |s| :: 33 <= s[i] <= 126 }

  predicate HasLower(s: seq<bv8>) { exists i | 0 <= i < |s| :: IsLower(s[i]) }

  predicate HasUpper(s: seq<bv8>) { exists i | 0 <= i < |s| :: IsUpper(s[i]) }

  /** rfind of the separator; -1 for none. */
  function LastSeparator(s: seq<bv8>): (p: int)
    ensures -1 <= p < |s| && (p >= 0 ==> s[p] == SEPARATOR) && forall i | p < i < |s| :: s[i] != SEPARATOR
  {
    if s == [] then -1
    else if s[|s| - 1] == SEPARATOR then |s| - 1
    else LastSeparator(s[..|s| - 1])
  }

  predicate Accepted(s: seq<bv8>) {
    var p := LastSeparator(s);
    && Printable(s) && !(HasLower(s) && HasUpper(s))
    && |s| <= 1023 && 1 <= p && p + 7 <= |s|
    && FiveBits(Symbols(s[p + 1..]))
    && Prefix(Lower(s[..p]), Symbols(s[p + 1..])) == 1
  }

  function DecodedOf(s: seq<bv8>): Decoded {
    if Accepted(s) then
      var p := LastSeparator(s);
      Decoded(Lower(s[..p]), Symbols(s[p + 1..])[..|s| - p - 7])
    else FAILURE
  }

  method RFind(s: seq<bv8>) returns (p: int)
    ensures p == LastSeparator(s)
  {
    p := |s| - 1;
    while p >= 0 && s[p] != SEPARATOR
      invariant -1 <= p < |s| && forall i | p < i < |s| :: s[i] != SEPARATOR
    {
      p := p - 1;
    }
  }

  /** Characters of both cases, or none: what the first loop of Decode finds out. */
  method CheckCharacters(s: seq<bv8>) returns (ok: bool)
    ensures ok <==> Printable(s) && !(HasLower(s) && HasUpper(s))
  {
    hide IsLower, IsUpper;
    var lower, upper := false, false;
    var i := 0;
    while i < |s|
      invariant 0 <= i <= |s|
      invariant forall j | 0 <= j < i :: 33 <= s[j] <= 126
      invariant lower <==> exists j | 0 <= j < i :: IsLower(s[j])
      invariant upper <==> exists j | 0 <= j < i :: IsUpper(s[j])
    {
      if s[i] < 33 || s[i] > 126 { return false; }
      if IsLower(s[i]) { lower := true; }
      if IsUpper(s[i]) { upper := true; }
      i := i + 1;
    }
    return !(lower && upper);
  }

  method Decode(s: seq<bv8>) returns (r: Decoded)
    ensures r == DecodedOf(s)
  {
    hide Printable, HasLower, HasUpper, Prefix, RevOf, LowerCase, LastSeparator;
    var ok := CheckCharacters(s);
    if !ok { return FAILURE; }
    var pos := RFind(s);
    if |s| > 1023 || pos == -1 || pos == 0 || pos + 7 > |s| { return FAILURE; }
    var data := s[pos + 1..];
    var values := [];
    var i := 0;
    while i < |data|
      invariant 0 <= i <= |data| && |values| == i
      invariant forall j | 0 <= j < i :: values[j] == RevOf(data[j]) && values[j] != NONE
    {
      var rev := RevOf(data[i]);
      if rev == NONE {
        assert Symbols(data)[i] == NONE;
        return FAILURE;
      }
      values := values + [rev];
      i := i + 1;
    }
    assert values == Symbols(data);
    SymbolsFive(data);
    var hrp := [];
    i := 0;
    while i < pos
      invariant 0 <= i <= pos && |hrp| == i && forall j | 0 <= j < i :: hrp[j] == LowerCase(s[j])
    {
      hrp := hrp + [LowerCase(s[i])];
      i := i + 1;
    }
    assert hrp == Lower(s[..pos]);
    ok := VerifyChecksum(hrp, values);
    if !ok { return FAILURE; }
    return Decoded(hrp, values[..|values| - 6]);
  }

  lemma {:induction false} SymbolsFive(data: seq<bv8>)
    requires forall i | 0 <= i < |data| :: RevOf(data[i]) != NONE
    ensures FiveBits(Symbols(data))
  {
    hide RevLower;
    forall i | 0 <= i < |data| ensures Symbols(data)[i] < 32 {
      RevLowerFacts(LowerCase(data[i]));
    }
  }

  // ---------- Round trips ----------

  lemma {:induction false} SeparatorAt(a: seq<bv8>, b: seq<bv8>)
    requires SEPARATOR !in b
    ensures LastSeparator(a + [SEPARATOR] + b) == |a|
  {
    hide LastSeparator;
    var s := a + [SEPARATOR] + b;
    var p := LastSeparator(s);
    assert s[|a|] == SEPARATOR;
    forall i | |a| < i < |s| ensures s[i] != SEPARATOR {
      assert s[i] == b[i - |a| - 1];
    }
  }

  lemma {:induction false} CharsOk(v: seq<bv8>)
    requires FiveBits(v)
    ensures SEPARATOR !in Chars(v) && Printable(Chars(v)) && !HasUpper(Chars(v)) && Symbols(Chars(v)) == v
  {
    hide CharOf, RevLower, LowerCase, IsUpper;
    forall i | 0 <= i < |v|
      ensures CharOf(v[i]) != SEPARATOR && 33 <= CharOf(v[i]) <= 126 && !IsUpper(CharOf(v[i])) && RevOf(CharOf(v[i])) == v[i]
    {
      CharFacts(v[i]);
      LowerFacts(CharOf(v[i]));
    }
  }

  lemma {:induction false} LowerKeeps(hrp: seq<bv8>)
    requires !HasUpper(hrp)
    ensures Lower(hrp) == hrp
  {
    hide LowerCase, IsUpper;
    forall i | 0 <= i < |hrp| ensures LowerCase(hrp[i]) == hrp[i] {
      LowerFacts(hrp[i]);
    }
  }

  lemma {:induction false} JoinOk(a: seq<bv8>, b: seq<bv8>)
    requires Printable(a) && Printable(b) && !HasUpper(a) && !HasUpper(b)
    ensures Printable(a + [SEPARATOR] + b) && !HasUpper(a + [SEPARATOR] + b)
  {
  }

  /** Decode undoes Encode. */
  lemma {:induction false} DecodeEncoded(hrp: seq<bv8>, values: seq<bv8>)
    requires hrp != [] && Printable(hrp) && !HasUpper(hrp) && FiveBits(values) && |hrp| + |values| + 7 <= 1023
    ensures DecodedOf(Encoded(hrp, values)) == Decoded(hrp, values)
  {
    hide Checksum, Prefix, Printable, HasUpper, HasLower, LastSeparator, Lower, Chars, Symbols;
    var x := Checksum(hrp, values);
    ChecksumVerifies(hrp, values, Zeros(6));
    ChecksumVerifies(hrp, values, x);
    var all := values + x;
    assert FiveBits(all);
    CharsOk(all);
    CharsLength(all);
    var s := Encoded(hrp, values);
    JoinOk(hrp, Chars(all));
    SeparatorAt(hrp, Chars(all));
    LowerKeeps(hrp);
    assert s[..|hrp|] == hrp && s[|hrp| + 1..] == Chars(all);
    assert all[..|values|] == values;
  }

  lemma {:induction false} CharsLength(v: seq<bv8>)
    ensures |Chars(v)| == |v|
  {
  }

  lemma {:induction false} SymbolsBack(data: seq<bv8>)
    requires FiveBits(Symbols(data))
    ensures Chars(Symbols(data)) == Lower(data)
  {
    hide CharOf, RevLower, LowerCase;
    forall i | 0 <= i < |data| ensures CharOf(RevOf(data[i])) == LowerCase(data[i]) {
      assert Symbols(data)[i] < 32;
      RevLowerFacts(LowerCase(data[i]));
    }
  }

  lemma {:induction false} LowerParts(s: seq<bv8>, p: nat)
    requires p < |s| && s[p] == SEPARATOR
    ensures Lower(s) == Lower(s[..p]) + [SEPARATOR] + Lower(s[p + 1..])
  {
    hide LowerCase;
    LowerFacts(SEPARATOR);
  }

  /** Encode undoes Decode: an accepted string is, in lower case, the encoding of its content. */
  lemma {:induction false} EncodeDecoded(s: seq<bv8>)
    requires Accepted(s)
    ensures Encoded(DecodedOf(s).hrp, DecodedOf(s).values) == Lower(s)
    ensures DecodedOf(s) != FAILURE
  {
    hide Checksum, Prefix, Printable, HasUpper, HasLower, LastSeparator, Lower, Chars, Symbols;
    var p := LastSeparator(s);
    var hrp, all := Lower(s[..p]), Symbols(s[p + 1..]);
    SymbolsLength(s[p + 1..]);
    SymbolsLength(s[..p]);
    var n := |all| - 6;
    var values, x := all[..n], all[n..];
    assert values + x == all;
    ChecksumVerifies(hrp, values, x);
    SymbolsBack(s[p + 1..]);
    LowerParts(s, p);
  }

  lemma {:induction false} SymbolsLength(data: seq<bv8>)
    ensures |Symbols(data)| == |data| && |Lower(data)| == |data|
  {
  }

  /** What Encode can be asked to encode so that the result is accepted. */
  predicate Encodable(hrp: seq<bv8>, values: seq<bv8>) {
    hrp != [] && Printable(hrp) && !HasUpper(hrp) && FiveBits(values) && |hrp| + |values| + 7 <= 1023
  }

  /** The accepted strings without capitals are exactly the encodings. */
  lemma {:induction false} AcceptedIsEncoded(s: seq<bv8>)
    requires !HasUpper(s)
    ensures Accepted(s) <==> exists hrp, values :: Encodable(hrp, values) && s == Encoded(hrp, values)
  {
    hide Encoded, Accepted, HasUpper, Printable, FiveBits;
    if Accepted(s) {
      EncodeDecoded(s);
      LowerKeeps(s);
      DecodedEncodable(s);
      assert Encodable(DecodedOf(s).hrp, DecodedOf(s).values);
    }
    if hrp, values :| Encodable(hrp, values) && s == Encoded(hrp, values) {
      DecodeEncoded(hrp, values);
      assert DecodedOf(s) != FAILURE;
    }
  }

  lemma {:induction false} DecodedEncodable(s: seq<bv8>)
    requires Accepted(s) && !HasUpper(s)
    ensures Encodable(DecodedOf(s).hrp, DecodedOf(s).values)
  {
    hide Prefix, LastSeparator, HasLower;
    var p := LastSeparator(s);
    assert !HasUpper(s[..p]) by {
      assert forall i | 0 <= i < p :: s[..p][i] == s[i];
    }
    LowerKeeps(s[..p]);
  }

  // ---------- Errors ----------

  /** From zero, up to six symbols leave zero only if they are all zero. */
  lemma {:induction false} BurstPacks(d: seq<bv8>)
    requires |d| <= 6 && forall i | 0 <= i < |d| :: d[i] < 32
    ensures Fold(0, d) == 0 ==> d == Zeros(|d|)
  {
    hide Step, Fold, Groups;
    var pad := Zeros(6 - |d|);
    FoldZeros(0, |pad|);
    FoldAppend(0, pad, d);
    FoldPacks(pad + d);
    FoldZeros(0, 6);
    FoldPacks(Zeros(6));
    if Fold(0, d) == 0 {
      assert pad + d == Zeros(6);
      assert d == (pad + d)[|pad|..] == Zeros(|d|);
    }
  }

  /** Two inputs that differ, but only within six consecutive symbols, never have the same remainder. */
  lemma {:induction false} BurstShows(prefix: seq<bv8>, x: seq<bv8>, y: seq<bv8>, i: nat, e: nat)
    requires i <= e <= |x| == |y| && e - i <= 6 && x != y
    requires forall j | 0 <= j < |x| && !(i <= j < e) :: x[j] == y[j]
    requires forall j | i <= j < e :: x[j] < 32 && y[j] < 32
    ensures Fold(1, prefix + x) != Fold(1, prefix + y)
  {
    hide Step, Xor, Fold;
    var c := Fold(1, prefix);
    FoldAppend(1, prefix, x);
    FoldAppend(1, prefix, y);
    FoldLinear(c, c, x, y);
    XorLaws(c, c);
    XorLaws(Fold(c, x), Fold(c, x));
    BurstDifference(x, y, i, e);
    BurstFold(i, Differences(x, y)[i..e], |x| - e);
  }

  lemma {:induction false} BurstFold(i: nat, d: seq<bv8>, k: nat)
    requires |d| <= 6 && (forall j | 0 <= j < |d| :: d[j] < 32) && d != Zeros(|d|)
    ensures Fold(0, Zeros(i) + d + Zeros(k)) != 0
  {
    hide Step, Fold;
    FoldAppend(0, Zeros(i) + d, Zeros(k));
    FoldAppend(0, Zeros(i), d);
    FoldZeros(0, i);
    BurstPacks(d);
    FoldBits(0, d);
    FoldZeros(Fold(0, d), k);
  }

  lemma {:induction false} BurstDifference(x: seq<bv8>, y: seq<bv8>, i: nat, e: nat)
    requires i <= e <= |x| == |y| && x != y && forall j | 0 <= j < |x| && !(i <= j < e) :: x[j] == y[j]
    requires forall j | i <= j < e :: x[j] < 32 && y[j] < 32
    ensures var d := Differences(x, y)[i..e];
      && Differences(x, y) == Zeros(i) + d + Zeros(|x| - e)
      && (forall j | 0 <= j < |d| :: d[j] < 32) && d != Zeros(|d|)
  {
    hide Differences;
    var all := Differences(x, y);
    var d := all[i..e];
    forall k | 0 <= k < |x| ensures (x[k] == y[k] <==> all[k] == 0) && (i <= k < e ==> all[k] < 32) {
      DifferenceAt(x, y, k);
    }
    var j :| 0 <= j < |x| && x[j] != y[j];
    assert d[j - i] == all[j] && Zeros(|d|)[j - i] == 0;
    forall k | 0 <= k < |d| ensures d[k] < 32 {
      assert d[k] == all[i + k];
    }
  }

  lemma {:induction false} DifferenceAt(x: seq<bv8>, y: seq<bv8>, k: nat)
    requires k < |x| == |y|
    ensures x[k] == y[k] <==> Differences(x, y)[k] == 0
    ensures x[k] < 32 && y[k] < 32 ==> Differences(x, y)[k] < 32
  {
    BitsTell(x[k], y[k]);
  }

  lemma {:induction false} BitsTell(a: bv8, b: bv8)
    ensures a == b <==> a ^ b == 0
    ensures a < 32 && b < 32 ==> a ^ b < 32
  {
  }

  /** Two inputs that differ in one symbol never have the same remainder. */
  lemma {:induction false} OneSymbolShows(prefix: seq<bv8>, x: seq<bv8>, i: nat, v: bv8)
    requires i < |x| && v != x[i] && v < 32 && x[i] < 32
    ensures Fold(1, prefix + x) != Fold(1, prefix + x[i := v])
  {
    assert x[i := v][i] == v;
    BurstShows(prefix, x, x[i := v], i, i + 1);
  }

  /** The separator stays the last one if it and what follows keep being what they are. */
  lemma {:induction false} SeparatorStays(s: seq<bv8>, t: seq<bv8>)
    requires |t| == |s| && LastSeparator(s) >= 0 && t[LastSeparator(s)] == SEPARATOR
    requires forall j | LastSeparator(s) < j < |t| :: t[j] != SEPARATOR
    ensures LastSeparator(t) == LastSeparator(s)
  {
    hide LastSeparator;
  }

  lemma {:induction false} SeparatorHasNoCase(c: bv8)
    ensures LowerCase(c) == SEPARATOR <==> c == SEPARATOR
  {
  }

  /** Characters with values are equal, but for case, if their values are. */
  lemma {:induction false} ValuesTell(a: bv8, b: bv8)
    requires RevOf(a) < 32 && RevOf(a) == RevOf(b)
    ensures LowerCase(a) == LowerCase(b)
  {
    hide RevLower, CharOf, LowerCase;
    RevLowerFacts(LowerCase(a));
    RevLowerFacts(LowerCase(b));
  }

  lemma {:induction false} ValuesDiffer(a: seq<bv8>, b: seq<bv8>, j: nat)
    requires j < |a| == |b| && FiveBits(Symbols(a)) && LowerCase(a[j]) != LowerCase(b[j])
    ensures Symbols(a) != Symbols(b)
  {
    hide RevOf, LowerCase;
    if Symbols(a) == Symbols(b) {
      assert Symbols(a)[j] == RevOf(a[j]) && Symbols(b)[j] == RevOf(b[j]);
      ValuesTell(a[j], b[j]);
    }
  }

  /** Replacing up to six consecutive data symbols of an accepted string, other than by a change of case,
      is always noticed, whatever the length. */
  lemma {:induction false} BurstRejected(s: seq<bv8>, t: seq<bv8>, i: nat, e: nat)
    requires Accepted(s) && |t| == |s| && LastSeparator(s) < i <= e <= |s| && e - i <= 6
    requires forall j | 0 <= j < |s| && !(i <= j < e) :: LowerCase(t[j]) == LowerCase(s[j])
    requires forall j | i <= j < e :: t[j] != SEPARATOR
    requires exists j | i <= j < e :: LowerCase(t[j]) != LowerCase(s[j])
    ensures !Accepted(t)
  {
    hide Printable, HasUpper, HasLower, LastSeparator, LowerCase, RevLower, Fold, Expand;
    var p := LastSeparator(s);
    forall j | p <= j < |s| ensures t[j] == SEPARATOR <==> j == p {
      SeparatorHasNoCase(t[j]);
      SeparatorHasNoCase(s[j]);
    }
    SeparatorStays(s, t);
    assert Lower(t[..p]) == Lower(s[..p]);
    var a, b := s[p + 1..], t[p + 1..];
    var j :| i <= j < e && LowerCase(t[j]) != LowerCase(s[j]);
    assert a[j - p - 1] == s[j] && b[j - p - 1] == t[j];
    ValuesDiffer(a, b, j - p - 1);
    if FiveBits(Symbols(b)) {
      BurstShows(Expand(Lower(s[..p])), Symbols(a), Symbols(b), i - p - 1, e - p - 1);
    }
  }

  /** So is replacing one. */
  lemma {:induction false} OneErrorRejected(s: seq<bv8>, i: nat, c: bv8)
    requires Accepted(s) && LastSeparator(s) < i < |s| && c != SEPARATOR && LowerCase(c) != LowerCase(s[i])
    ensures !Accepted(s[i := c])
  {
    hide Accepted, LastSeparator, LowerCase;
    assert s[i := c][i] == c;
    BurstRejected(s, s[i := c], i, i + 1);
  }
}
