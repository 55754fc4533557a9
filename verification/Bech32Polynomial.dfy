/** What the checksum of src/bech32.cpp is: the remainder of a polynomial over GF(32) modulo
    the generator of BIP 173.  A polynomial is the sequence of its coefficients, highest first. */
module Bech32Polynomial {
  import opened Bech32

  // ---------- GF(32) ----------

  function Add(x: bv8, y: bv8): bv8 { x ^ y }

  lemma {:induction false} AddLaws(x: bv8, y: bv8, z: bv8)
    ensures Add(x, y) == Add(y, x) && Add(Add(x, y), z) == Add(x, Add(y, z))
    ensures Add(x, x) == 0 && Add(x, 0) == x
  {
  }

  /** Multiplication by a in GF(2)[a] modulo a^5 + a^3 + 1. */
  function Double(x: bv8): bv8 { ((x << 1) & 31) ^ (if x & 16 != 0 then 9 else 0) }

  function Term(b: bool, x: bv8): bv8 { if b then x else 0 }

  predicate Bit(y: bv8, bit: bv8) { y & bit != 0 }

  /** The product of two field elements, bit by bit of the second. */
  function Times(x: bv8, y: bv8): bv8 {
    var x1 := Double(x);
    var x2 := Double(x1);
    var x3 := Double(x2);
    var x4 := Double(x3);
    Add(Add(Add(Add(Term(Bit(y, 1), x), Term(Bit(y, 2), x1)), Term(Bit(y, 4), x2)), Term(Bit(y, 8), x3)),
        Term(Bit(y, 16), x4))
  }

  // ---------- One step ----------

  /** The n-th symbol of a word, counted from the low end. */
  function Shift(w: bv32, n: nat): bv32 { if n == 0 then w else Rest(Shift(w, n - 1)) }

  function Coefficient(w: bv32, n: nat): bv8 { Sym(Shift(w, n)) }

  lemma {:induction false} CoefficientIsGroup(w: bv32, n: nat)
    requires n < 6
    ensures Coefficient(w, n) == Groups(w)[5 - n]
  {
    hide Groups, Sym, Rest;
    GroupsByRest(w);
    ShiftFive(w);
  }

  lemma {:induction false} ShiftFive(w: bv32)
    ensures Shift(w, 0) == w && Shift(w, 1) == Rest(w) && Shift(w, 2) == Rest(Rest(w)) && Shift(w, 3) == Rest(Rest(Rest(w)))
    ensures Shift(w, 4) == Rest(Rest(Rest(Rest(w)))) && Shift(w, 5) == Rest(Rest(Rest(Rest(Rest(w)))))
  {
    hide Rest;
    assert Shift(w, 3) == Rest(Shift(w, 2)) && Shift(w, 4) == Rest(Shift(w, 3));
  }

  lemma {:induction false} SymXor(a: bv32, b: bv32)
    ensures Sym(Xor(a, b)) == Add(Sym(a), Sym(b))
    ensures Rest(Xor(a, b)) == Xor(Rest(a), Rest(b))
  {
  }

  lemma {:induction false} ShiftXor(a: bv32, b: bv32, n: nat)
    ensures Shift(Xor(a, b), n) == Xor(Shift(a, n), Shift(b, n))
  {
    hide Xor, Rest;
    if n > 0 {
      ShiftXor(a, b, n - 1);
      SymXor(Shift(a, n - 1), Shift(b, n - 1));
    }
  }

  lemma {:induction false} CoefficientXor(a: bv32, b: bv32, n: nat)
    ensures Coefficient(Xor(a, b), n) == Add(Coefficient(a, n), Coefficient(b, n))
  {
    hide Xor, Sym, Add;
    ShiftXor(a, b, n);
    SymXor(Shift(a, n), Shift(b, n));
  }

  lemma {:induction false} CoefficientPick(c0: bv32, bit: bv32, k: bv32, n: nat)
    ensures Coefficient(Pick(c0, bit, k), n) == Term(Has(c0, bit), Coefficient(k, n))
  {
    hide Has, Sym;
    if !Has(c0, bit) { CoefficientZero(n); }
  }

  lemma {:induction false} CoefficientZero(n: nat)
    ensures Shift(0, n) == 0 && Coefficient(0, n) == 0
  {
    if n > 0 { CoefficientZero(n - 1); }
  }

  /** The coefficients of the generator below the first: x^6 is their negative, which is themselves. */
  function Generator(n: nat): bv8
    requires n < 6
  {
    [18, 29, 21, 20, 22, 29][n]
  }

  /** The five constants of PolyMod are x^6 modulo the generator, times 1, a, a^2, a^3 and a^4. */
  lemma {:induction false} Constants(n: nat)
    requires n < 6
    ensures Coefficient(0x3b6a57b2, n) == Generator(n)
    ensures Coefficient(0x26508e6d, n) == Double(Generator(n))
    ensures Coefficient(0x1ea119fa, n) == Double(Double(Generator(n)))
    ensures Coefficient(0x3d4233dd, n) == Double(Double(Double(Generator(n))))
    ensures Coefficient(0x2a1462b3, n) == Double(Double(Double(Double(Generator(n)))))
  {
    CoefficientIsGroup(0x3b6a57b2, n);
    CoefficientIsGroup(0x26508e6d, n);
    CoefficientIsGroup(0x1ea119fa, n);
    CoefficientIsGroup(0x3d4233dd, n);
    CoefficientIsGroup(0x2a1462b3, n);
  }

  lemma {:induction false} TopSymbol(c: bv32)
    requires c < 0x40000000
    ensures Sym(Top(c)) == Coefficient(c, 5)
    ensures Has(Top(c), 1) == Bit(Sym(Top(c)), 1) && Has(Top(c), 2) == Bit(Sym(Top(c)), 2)
    ensures Has(Top(c), 4) == Bit(Sym(Top(c)), 4) && Has(Top(c), 8) == Bit(Sym(Top(c)), 8)
    ensures Has(Top(c), 16) == Bit(Sym(Top(c)), 16)
  {
    CoefficientIsGroup(c, 5);
  }

  lemma {:induction false} ShiftedSymbols(c: bv32, v: bv8)
    requires v < 32
    ensures var w := Rest(Shifted(c, v));
      && Sym(w) == Sym(c) && Sym(Rest(w)) == Sym(Rest(c)) && Sym(Rest(Rest(w))) == Sym(Rest(Rest(c)))
      && Sym(Rest(Rest(Rest(w)))) == Sym(Rest(Rest(Rest(c))))
      && Sym(Rest(Rest(Rest(Rest(w))))) == Sym(Rest(Rest(Rest(Rest(c)))))
  {
  }

  lemma {:induction false} ShiftFront(w: bv32, n: nat)
    ensures Shift(w, n + 1) == Shift(Rest(w), n)
  {
    hide Rest;
    if n > 0 { ShiftFront(w, n - 1); }
  }

  lemma {:induction false} LowerCoefficients(c: bv32, v: bv8, n: nat)
    requires v < 32 && n < 5
    ensures Coefficient(Rest(Shifted(c, v)), n) == Coefficient(c, n)
  {
    hide Sym, Shifted, Rest, Shift;
    var w := Rest(Shifted(c, v));
    ShiftFive(c);
    ShiftFive(w);
    ShiftedSymbols(c, v);
    if n == 0 {
    } else if n == 1 {
    } else if n == 2 {
    } else if n == 3 {
    } else {
      assert n == 4;
    }
  }

  lemma {:induction false} CoefficientShifted(c: bv32, v: bv8, n: nat)
    requires v < 32 && n < 6
    ensures Coefficient(Shifted(c, v), n) == if n == 0 then v else Coefficient(c, n - 1)
  {
    hide Sym, Shifted, Rest;
    if n == 0 {
      SymPacked(c, v);
    } else {
      ShiftFront(Shifted(c, v), n - 1);
      LowerCoefficients(c, v, n - 1);
    }
  }

  /** The sum that Step computes, coefficient by coefficient. */
  lemma {:induction false} CoefficientStep(c: bv32, v: bv8, n: nat)
    requires n < 6
    ensures var t, g := Top(c), Generator(n);
      Coefficient(Step(c, v), n)
        == Add(Add(Add(Add(Add(Coefficient(Shifted(c, v), n), Term(Has(t, 1), g)), Term(Has(t, 2), Double(g))),
                       Term(Has(t, 4), Double(Double(g)))), Term(Has(t, 8), Double(Double(Double(g))))),
               Term(Has(t, 16), Double(Double(Double(Double(g))))))
  {
    hide Xor, Pick, Shifted, Top, Has, Coefficient, Add, Double, Term, Generator;
    Constants(n);
    var t := Top(c);
    var w0 := Shifted(c, v);
    var p1, p2, p3 := Pick(t, 1, 0x3b6a57b2), Pick(t, 2, 0x26508e6d), Pick(t, 4, 0x1ea119fa);
    var p4, p5 := Pick(t, 8, 0x3d4233dd), Pick(t, 16, 0x2a1462b3);
    CoefficientPick(t, 1, 0x3b6a57b2, n);
    CoefficientPick(t, 2, 0x26508e6d, n);
    CoefficientPick(t, 4, 0x1ea119fa, n);
    CoefficientPick(t, 8, 0x3d4233dd, n);
    CoefficientPick(t, 16, 0x2a1462b3, n);
    var w1 := Xor(w0, p1);
    var w2 := Xor(w1, p2);
    var w3 := Xor(w2, p3);
    var w4 := Xor(w3, p4);
    CoefficientXor(w0, p1, n);
    CoefficientXor(w1, p2, n);
    CoefficientXor(w2, p3, n);
    CoefficientXor(w3, p4, n);
    CoefficientXor(w4, p5, n);
  }

  lemma {:induction false} Reassociate(s: bv8, a: bv8, b: bv8, c: bv8, d: bv8, e: bv8)
    ensures Add(Add(Add(Add(Add(s, a), b), c), d), e) == Add(s, Add(Add(Add(Add(a, b), c), d), e))
  {
  }

  /** A step multiplies by x modulo the generator and adds v: every coefficient moves up by one,
      and the one that leaves at the top comes back times the generator. */
  lemma {:induction false} StepIsTimesX(c: bv32, v: bv8, n: nat)
    requires c < 0x40000000 && v < 32 && n < 6
    ensures Coefficient(Step(c, v), n)
         == Add(if n == 0 then v else Coefficient(c, n - 1), Times(Generator(n), Coefficient(c, 5)))
  {
    hide Step, Shifted, Top, Has, Coefficient, Add, Double, Term, Generator, Sym, Bit;
    CoefficientStep(c, v, n);
    CoefficientShifted(c, v, n);
    TopSymbol(c);
    var t, g := Top(c), Generator(n);
    var g1 := Double(g);
    var g2 := Double(g1);
    var g3 := Double(g2);
    Reassociate(Coefficient(Shifted(c, v), n), Term(Has(t, 1), g), Term(Has(t, 2), g1), Term(Has(t, 4), g2),
                Term(Has(t, 8), g3), Term(Has(t, 16), Double(g3)));
  }

  // ---------- Division by the generator ----------

  function Plus(p: seq<bv8>, q: seq<bv8>): (r: seq<bv8>)
    requires |p| == |q|
    ensures |r| == |p|
  {
    seq(|p|, i requires 0 <= i < |p| => Add(p[i], q[i]))
  }

  /** y times the generator, x^6 + 29 x^5 + 22 x^4 + 20 x^3 + 21 x^2 + 29 x + 18. */
  function Scaled(y: bv8): (r: seq<bv8>)
    ensures |r| == 7
  {
    seq(7, i requires 0 <= i < 7 => if i == 0 then y else Times(Generator(6 - i), y))
  }

  /** q(x) times the generator. */
  function Multiple(q: seq<bv8>): (r: seq<bv8>)
    ensures |r| == |q| + 6
  {
    if q == [] then Zeros(6) else Plus(Scaled(q[0]) + Zeros(|q| - 1), [0] + Multiple(q[1..]))
  }

  /** p(x) == q(x) * g(x) + r(x). */
  ghost predicate Divides(p: seq<bv8>, q: seq<bv8>, r: seq<bv8>)
    requires |p| == |q| + 6 && |r| == 6
  {
    p == Plus(Multiple(q), Zeros(|q|) + r)
  }

  /** The symbols that leave at the top. */
  function Quotient(c: bv32, v: seq<bv8>): (q: seq<bv8>)
    ensures |q| == |v|
    decreases |v|
  {
    if v == [] then [] else [Coefficient(c, 5)] + Quotient(Step(c, v[0]), v[1..])
  }

  /** One step of the long division. */
  lemma {:induction false} LongDivisionStep(c: bv32, v: bv8, i: nat)
    requires c < 0x40000000 && v < 32 && i < 7
    ensures (Groups(c) + [v])[i] == Add(Scaled(Coefficient(c, 5))[i], ([0] + Groups(Step(c, v)))[i])
  {
    hide Step, Groups, Coefficient, Add, Times, Generator;
    var y := Coefficient(c, 5);
    GroupsLength(c);
    GroupsLength(Step(c, v));
    if i == 0 {
      CoefficientIsGroup(c, 5);
      AddLaws(y, 0, 0);
    } else {
      var n: nat := 6 - i;
      StepIsTimesX(c, v, n);
      CoefficientIsGroup(Step(c, v), n);
      if n > 0 { CoefficientIsGroup(c, n - 1); }
      var t, s := Times(Generator(n), y), if n == 0 then v else Coefficient(c, n - 1);
      AddCancels(t, s);
    }
  }

  lemma {:induction false} GroupsLength(c: bv32)
    ensures |Groups(c)| == 6
  {
  }

  lemma {:induction false} AddCancels(t: bv8, s: bv8)
    ensures Add(t, Add(s, t)) == s
  {
  }

  lemma {:induction false} PlusAssociates(p: seq<bv8>, q: seq<bv8>, r: seq<bv8>)
    requires |p| == |q| == |r|
    ensures Plus(Plus(p, q), r) == Plus(p, Plus(q, r))
  {
    hide Add;
    forall i | 0 <= i < |p| ensures Plus(Plus(p, q), r)[i] == Plus(p, Plus(q, r))[i] {
      AddLaws(p[i], q[i], r[i]);
    }
  }

  /** PolyMod leaves the remainder: started at c and fed v, it divides c(x) x^|v| + v(x) by the generator. */
  lemma {:induction false} FoldIsRemainder(c: bv32, v: seq<bv8>)
    requires c < 0x40000000 && FiveBits(v)
    ensures |Groups(c)| == |Groups(Fold(c, v))| == 6
    ensures Divides(Groups(c) + v, Quotient(c, v), Groups(Fold(c, v)))
    decreases |v|
  {
    hide Step, Groups, Coefficient, Add, Times, Generator, Scaled;
    GroupsLength(c);
    GroupsLength(Fold(c, v));
    if v == [] {
      NothingDivided(Groups(c));
    } else {
      var x, v' := v[0], v[1..];
      var d := Step(c, x);
      StepBits(c, x);
      FoldIsRemainder(d, v');
      FoldAppend(c, [x], v');
      assert [x] + v' == v;
      assert Fold(c, [x]) == d;
      ExtendDivision(c, x, v', Quotient(d, v'), Groups(Fold(d, v')));
    }
  }

  /** What is left of a division after its first step. */
  function Tail(q: seq<bv8>, r: seq<bv8>): (t: seq<bv8>)
    requires q != [] && |r| == 6
    ensures |t| == |q| + 5
  {
    Plus(Multiple(q[1..]), Zeros(|q| - 1) + r)
  }

  lemma {:induction false} DivisionSplits(q: seq<bv8>, r: seq<bv8>)
    requires q != [] && |r| == 6
    ensures Plus(Multiple(q), Zeros(|q|) + r) == Plus(Scaled(q[0]) + Zeros(|q| - 1), [0] + Tail(q, r))
  {
    hide Add, Scaled;
    var head, m, rest := Scaled(q[0]) + Zeros(|q| - 1), Multiple(q[1..]), Zeros(|q| - 1) + r;
    assert Zeros(|q|) + r == [0] + rest;
    PlusAssociates(head, [0] + m, [0] + rest);
    PlusFrontZero(m, rest);
  }

  lemma {:induction false} PlusFrontZero(p: seq<bv8>, q: seq<bv8>)
    requires |p| == |q|
    ensures Plus([0] + p, [0] + q) == [0] + Plus(p, q)
  {
    hide Add;
    AddLaws(0, 0, 0);
  }

  lemma {:induction false} NothingDivided(r: seq<bv8>)
    requires |r| == 6
    ensures Divides(r + [], [], r)
  {
    forall i | 0 <= i < 6 ensures Plus(Zeros(6), r)[i] == r[i] {
      AddLaws(r[i], 0, 0);
    }
    assert Zeros(0) + r == r == r + [];
  }

  lemma {:induction false} ExtendDivision(c: bv32, x: bv8, v: seq<bv8>, q: seq<bv8>, r: seq<bv8>)
    requires c < 0x40000000 && x < 32 && |q| == |v| && |r| == 6
    requires |Groups(c)| == |Groups(Step(c, x))| == 6 && Divides(Groups(Step(c, x)) + v, q, r)
    ensures Divides(Groups(c) + ([x] + v), [Coefficient(c, 5)] + q, r)
  {
    hide Step, Groups, Coefficient, Add, Scaled, Multiple;
    var y := Coefficient(c, 5);
    var head := Scaled(y) + Zeros(|q|);
    assert ([y] + q)[1..] == q;
    DivisionSplits([y] + q, r);
    forall i | 0 <= i < |v| + 7
      ensures (Groups(c) + ([x] + v))[i] == Add(head[i], ([0] + (Groups(Step(c, x)) + v))[i])
    {
      if i < 7 { LongDivisionStep(c, x, i); } else { AddLaws(v[i - 7], 0, 0); }
    }
  }

  /** The generator is monic, so quotient and remainder are unique. */
  lemma {:induction false} DivisionUnique(p: seq<bv8>, q: seq<bv8>, r: seq<bv8>, q': seq<bv8>, r': seq<bv8>)
    requires |q| == |q'| && |p| == |q| + 6 && |r| == |r'| == 6
    requires Divides(p, q, r) && Divides(p, q', r')
    ensures q == q' && r == r'
    decreases |q|
  {
    hide Plus, Multiple;
    if q == [] {
      NothingDivided(r);
      NothingDivided(r');
      assert r + [] == r && r' + [] == r';
    } else {
      SameTail(p, q, r, q', r');
      DivisionUnique(Tail(q, r), q[1..], r, q'[1..], r');
      assert q == [q[0]] + q[1..] && q' == [q'[0]] + q'[1..];
    }
  }

  lemma {:induction false} SameTail(p: seq<bv8>, q: seq<bv8>, r: seq<bv8>, q': seq<bv8>, r': seq<bv8>)
    requires q != [] && |q| == |q'| && |p| == |q| + 6 && |r| == |r'| == 6
    requires Divides(p, q, r) && Divides(p, q', r')
    ensures q[0] == q'[0] && Tail(q, r) == Tail(q', r')
  {
    hide Add, Plus, Multiple, Tail, Scaled;
    FirstOfMultiple(q, r, 0);
    FirstOfMultiple(q', r', 0);
    var head := Scaled(q[0]) + Zeros(|q| - 1);
    forall i | 0 <= i < |q| + 5 ensures Tail(q, r)[i] == Tail(q', r')[i] {
      FirstOfMultiple(q, r, i);
      FirstOfMultiple(q', r', i);
      CancelLeft(head[i + 1], Tail(q, r)[i], Tail(q', r')[i]);
    }
  }

  lemma {:induction false} CancelLeft(s: bv8, x: bv8, y: bv8)
    requires Add(s, x) == Add(s, y)
    ensures x == y
  {
  }

  /** The first coefficient of a dividend is that of its quotient; the others are a shorter division. */
  lemma {:induction false} FirstOfMultiple(q: seq<bv8>, r: seq<bv8>, i: nat)
    requires q != [] && |r| == 6 && i < |q| + 5
    ensures var p := Plus(Multiple(q), Zeros(|q|) + r);
      p[0] == q[0] && p[i + 1] == Add((Scaled(q[0]) + Zeros(|q| - 1))[i + 1], Tail(q, r)[i])
  {
    hide Add, Multiple, Tail;
    AddLaws(q[0], 0, 0);
    DivisionSplits(q, r);
  }

  /** The polynomial 1 as a remainder. */
  const ONE: seq<bv8> := [0, 0, 0, 0, 0, 1]

  lemma {:induction false} GroupsOfOne()
    ensures Groups(1) == ONE
  {
  }

  lemma {:induction false} ExpandedFiveBits(hrp: seq<bv8>)
    ensures FiveBits(Expand(hrp))
  {
    forall i | 0 <= i < |hrp| ensures HighBits(hrp[i]) < 32 && LowBits(hrp[i]) < 32 {
      BitsBound(hrp[i]);
    }
  }

  lemma {:induction false} BitsBound(c: bv8)
    ensures HighBits(c) < 32 && LowBits(c) < 32
  {
  }

  /** A checksum verifies exactly when the polynomial with a leading 1, the expanded
      human-readable part and the data leaves 1 modulo the generator. */
  lemma {:induction false} VerifiesIffRemainderOne(hrp: seq<bv8>, values: seq<bv8>)
    requires FiveBits(values)
    ensures var v := Expand(hrp) + values;
      Prefix(hrp, values) == 1 <==> exists q: seq<bv8> :: |q| == |v| && Divides(ONE + v, q, ONE)
  {
    hide Fold, Groups, Divides, Expand;
    ExpandedFiveBits(hrp);
    var v := Expand(hrp) + values;
    var w := Fold(1, v);
    FoldIsRemainder(1, v);
    GroupsOfOne();
    FoldBits(1, v);
    FoldUnpacks(1);
    FoldUnpacks(w);
    if q: seq<bv8> :| |q| == |v| && Divides(ONE + v, q, ONE) {
      DivisionUnique(ONE + v, q, ONE, Quotient(1, v), Groups(w));
    }
  }

  // ---------- A test vector of BIP 173 ----------

  lemma {:induction false} Prefixes(v: seq<bv8>, n: nat)
    requires n < |v|
    ensures Fold(1, v[..n + 1]) == Step(Fold(1, v[..n]), v[n])
  {
    hide Step;
    assert v[..n + 1][..n] == v[..n];
  }

  lemma {:induction false} VectorSteps()
    ensures Step(1, 3) == 0x23 && Step(0x23, 0) == 0x460 && Step(0x460, 1) == 0x8c01 && Step(0x8c01, 10) == 0x11802a
    ensures Step(0x11802a, 28) == 0x230055c && Step(0x230055c, 25) == 0x3d6afc2b && Step(0x3d6afc2b, 31) == 0x2f84386
    ensures Step(0x2f84386, 20) == 0x24622766 && Step(0x24622766, 31) == 1
  {
  }

  lemma {:induction false} VectorFold()
    ensures Fold(1, [3, 0, 1, 10, 28, 25, 31, 20, 31]) == 1
  {
    hide Step, Fold;
    VectorSteps();
    FoldNothing(1);
    var v: seq<bv8> := [3, 0, 1, 10, 28, 25, 31, 20, 31];
    assert v[..0] == [] && v[..9] == v;
    Prefixes(v, 0);
    Prefixes(v, 1);
    Prefixes(v, 2);
    Prefixes(v, 3);
    Prefixes(v, 4);
    Prefixes(v, 5);
    Prefixes(v, 6);
    Prefixes(v, 7);
    Prefixes(v, 8);
  }

  lemma {:induction false} FoldNothing(c: bv32)
    ensures Fold(c, []) == c
  {
  }

  /** The bytes of A12UEL5L. */
  const VECTOR: seq<bv8> := [65, 49, 50, 85, 69, 76, 53, 76]

  lemma {:induction false} VectorParts()
    ensures Lower(VECTOR[..1]) == [97] && Expand([97]) == [3, 0, 1]
    ensures Symbols(VECTOR[2..]) == [10, 28, 25, 31, 20, 31]
    ensures Printable(VECTOR) && !HasLower(VECTOR)
  {
    assert VECTOR[..1] == [65] && VECTOR[2..] == [50, 85, 69, 76, 53, 76];
  }

  lemma {:induction false} VectorSeparator()
    ensures LastSeparator(VECTOR) == 1
  {
    hide LastSeparator;
    assert VECTOR[1] == SEPARATOR && forall i | 1 < i < 8 :: VECTOR[i] != SEPARATOR;
  }

  /** A12UEL5L decodes to the human-readable part a and no data. */
  lemma {:induction false} VectorDecodes()
    ensures DecodedOf(VECTOR) == Decoded([97], [])
  {
    hide Fold, LastSeparator, Lower, Expand, Symbols, Printable, HasLower, HasUpper;
    VectorParts();
    VectorSeparator();
    VectorFold();
    assert Expand([97]) + [10, 28, 25, 31, 20, 31] == [3, 0, 1, 10, 28, 25, 31, 20, 31];
  }
}
