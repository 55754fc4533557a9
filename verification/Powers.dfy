/** Powers, quotients and remainders of natural numbers. */
module Powers {

  function Pow(b: nat, n: nat): (r: nat)
    ensures b > 0 ==> r > 0
  {
    if n == 0 then 1 else b * Pow(b, n - 1)
  }

  lemma {:induction false} MulAssoc(x: int, y: int, z: int)
    ensures x * (y * z) == x * y * z
  {
  }

  lemma {:induction false} PowAdd(b: nat, m: nat, n: nat)
    ensures Pow(b, m + n) == Pow(b, m) * Pow(b, n)
  {
    if m > 0 {
      PowAdd(b, m - 1, n);
      MulAssoc(b, Pow(b, m - 1), Pow(b, n));
    } else {
      assert Pow(b, 0) == 1;
    }
  }

  lemma {:induction false} PowMul(b: nat, m: nat, n: nat)
    ensures Pow(Pow(b, m), n) == Pow(b, m * n)
  {
    if n > 0 {
      PowMul(b, m, n - 1);
      assert m * n == m + m * (n - 1);
      PowAdd(b, m, m * (n - 1));
    }
  }

  lemma {:induction false} MulMono(a: nat, b: nat, c: nat, d: nat)
    requires a <= b && c <= d
    ensures a * c <= b * d
  {
    assert a * c <= b * c;
    assert b * c <= b * d;
  }

  lemma {:induction false} PowMono(x: nat, y: nat, n: nat)
    requires x <= y
    ensures Pow(x, n) <= Pow(y, n)
  {
    if n > 0 {
      PowMono(x, y, n - 1);
      MulMono(x, y, Pow(x, n - 1), Pow(y, n - 1));
    }
  }

  lemma {:induction false} PowStrict(x: nat, y: nat, n: nat)
    requires x < y && n > 0
    ensures Pow(x, n) < Pow(y, n)
  {
    PowMono(x, y, n - 1);
    MulMono(x, x, Pow(x, n - 1), Pow(y, n - 1));
    assert x * Pow(y, n - 1) < y * Pow(y, n - 1);
  }

  lemma {:induction false} PowGrows(b: nat, m: nat, n: nat)
    requires b > 0 && m <= n
    ensures Pow(b, m) <= Pow(b, n)
  {
    PowAdd(b, m, n - m);
    MulMono(Pow(b, m), Pow(b, m), 1, Pow(b, n - m));
  }

  /** If a^p <= b^q then n digits in base a need at most n*q/p + 1 in base b. */
  lemma {:induction false} Estimate(a: nat, b: nat, p: nat, q: nat, n: nat)
    requires b > 0 && p > 0 && Pow(a, p) <= Pow(b, q)
    ensures Pow(a, n) <= Pow(b, n * q / p + 1)
  {
    var m := n * q / p + 1;
    assert n * q <= m * p;
    PowMul(a, p, n);
    PowMul(b, q, n);
    PowMono(Pow(a, p), Pow(b, q), n);
    assert p * n == n * p && q * n == n * q;
    PowGrows(b, n * q, m * p);
    PowMul(a, n, p);
    PowMul(b, m, p);
    if Pow(a, n) > Pow(b, m) { PowStrict(Pow(b, m), Pow(a, n), p); }
  }

  lemma {:induction false} Distribute(x: int, y: int, z: int)
    ensures (x + y) * z == x * z + y * z
    ensures z * (x + y) == z * x + z * y
  {
  }

  // ---------- Quotient and remainder ----------

  function Quo(n: nat, base: nat): (q: nat)
    requires base > 0
    ensures base > 1 && n > 0 ==> q < n
  {
    QuoLess(n, base);
    n / base
  }

  function Rem(n: nat, base: nat): (r: nat)
    requires base > 0
    ensures r < base
  {
    n % base
  }

  lemma {:induction false} QuoLess(n: nat, base: nat)
    requires base > 0
    ensures n / base >= 0 && (base > 1 && n > 0 ==> n / base < n)
  {
    if base > 1 && n > 0 {
      Smaller(n, n / base, n % base, base);
    }
  }

  lemma {:induction false} Smaller(n: nat, q: nat, r: nat, base: nat)
    requires n == q * base + r && base > 1 && n > 0
    ensures q < n
  {
    MulMono(q, q, 2, base);
  }

  lemma {:induction false} QuoRem(n: nat, base: nat)
    requires base > 0
    ensures n == Quo(n, base) * base + Rem(n, base)
  {
  }

  lemma {:induction false} DivideBack(q: nat, r: nat, base: nat)
    requires r < base
    ensures Quo(q * base + r, base) == q && Rem(q * base + r, base) == r
  {
    hide Quo, Rem;
    var n := q * base + r;
    QuoRem(n, base);
    SameQuotient(Quo(n, base), q, Rem(n, base), r, base);
  }

  lemma {:induction false} SameQuotient(p: nat, q: nat, r: nat, s: nat, base: nat)
    requires p * base + r == q * base + s && r < base && s < base
    ensures p == q && r == s
  {
    assert p < q ==> p * base + base <= q * base by { if p < q { MulMono(p + 1, q, base, base); } }
    assert q < p ==> q * base + base <= p * base by { if q < p { MulMono(q + 1, p, base, base); } }
  }

  lemma {:induction false} QuoMonotone(m: nat, n: nat, base: nat)
    requires base > 0 && m <= n
    ensures Quo(m, base) <= Quo(n, base)
  {
    hide Quo, Rem;
    QuoRem(m, base);
    QuoRem(n, base);
    if Quo(m, base) > Quo(n, base) {
      MulMono(Quo(n, base) + 1, Quo(m, base), base, base);
      assert false;
    }
  }

  lemma {:induction false} QuoTwice(v: nat, a: nat, b: nat)
    requires a > 0 && b > 0 && a * b > 0
    ensures Quo(Quo(v, a), b) == Quo(v, a * b)
  {
    hide Quo, Rem;
    QuoRem(v, a);
    var q, r := Quo(v, a), Rem(v, a);
    QuoRem(q, b);
    var p, s := Quo(q, b), Rem(q, b);
    Distribute(p * b, s, a);
    MulAssoc(p, b, a);
    MulMono(s + 1, b, a, a);
    Distribute(s, 1, a);
    MulMono(0, s, 0, a);
    assert a * b == b * a;
    DivideBack(p, s * a + r, a * b);
  }
}
