/** The heights that skip pointers jump to (src/chain.cpp), and why following them is fast: from
    a height below 2^j any lower height is reached in at most j^2 moves. */
module SkipHeights {
  import opened Powers

  /** Bitwise and. */
  function And(a: nat, b: nat): (r: nat)
    ensures r <= a && r <= b
  {
    if a == 0 || b == 0 then 0
    else 2 * And(a / 2, b / 2) + (if a % 2 == 1 && b % 2 == 1 then 1 else 0)
  }

  function InvertLowestOne(n: nat): nat { if n == 0 then 0 else And(n, n - 1) }

  function GetSkipHeight(height: nat): (h: nat)
    ensures height > 0 ==> h < height
  {
    if height < 2 then 0
    else if height % 2 == 1 then InvertLowestOne(InvertLowestOne(height - 1)) + 1
    else InvertLowestOne(height)
  }

  /** Where GetAncestor goes from height w on its way to h: along pskip, unless going to the
      parent and along its pskip is better. */
  function NextHeight(w: nat, h: nat): (r: nat)
    requires h < w
    ensures h <= r < w
  {
    var skip, prev := GetSkipHeight(w), GetSkipHeight(w - 1);
    if skip == h || (skip > h && !(prev < skip - 2 && prev >= h)) then skip else w - 1
  }

  /** How many pointers GetAncestor follows. */
  function Moves(w: nat, h: nat): nat
    requires h <= w
    decreases w
  {
    if w == h then 0 else 1 + Moves(NextHeight(w, h), h)
  }

  lemma {:induction false} MovesOn(w: nat, h: nat)
    requires h < w
    ensures Moves(w, h) == 1 + Moves(NextHeight(w, h), h)
  {
  }

  // ---------- Clearing the lowest one ----------

  function Ones(n: nat): nat { if n == 0 then 0 else n % 2 + Ones(n / 2) }

  lemma {:induction false} AndSelf(n: nat)
    ensures And(n, n) == n
  {
    if n > 0 { AndSelf(n / 2); }
  }

  lemma {:induction false} AndStep(a: nat, b: nat)
    requires a > 0
    ensures And(a, b) == 2 * And(a / 2, b / 2) + (if a % 2 == 1 && b % 2 == 1 then 1 else 0)
  {
  }

  lemma {:induction false} InvertHalves(n: nat)
    requires n > 0
    ensures InvertLowestOne(n) == if n % 2 == 1 then n - 1 else 2 * InvertLowestOne(n / 2)
    ensures InvertLowestOne(n) % 2 == 0 && InvertLowestOne(n) < n
  {
    hide And;
    var h := n / 2;
    AndStep(n, n - 1);
    if n % 2 == 0 {
      assert n == 2 * h;
      HalfOf(h - 1, 1, n - 1);
    } else {
      HalfOf(h, 0, n - 1);
      AndSelf(h);
    }
  }

  lemma {:induction false} HalfOf(h: nat, bit: nat, n: nat)
    requires n == 2 * h + bit && bit < 2
    ensures n / 2 == h && n % 2 == bit
  {
  }

  lemma {:induction false} OnesDouble(y: nat)
    ensures Ones(2 * y) == Ones(y) && Ones(2 * y + 1) == Ones(y) + 1
  {
    HalfOf(y, 0, 2 * y);
    HalfOf(y, 1, 2 * y + 1);
  }

  lemma {:induction false} InvertDouble(y: nat)
    ensures InvertLowestOne(2 * y) == 2 * InvertLowestOne(y) && InvertLowestOne(2 * y + 1) == 2 * y
  {
    hide InvertLowestOne;
    HalfOf(y, 0, 2 * y);
    HalfOf(y, 1, 2 * y + 1);
    InvertHalves(2 * y + 1);
    if y > 0 { InvertHalves(2 * y); } else { InvertZero(); }
  }

  lemma {:induction false} InvertZero()
    ensures InvertLowestOne(0) == 0
  {
  }

  /** One bit is cleared, and every bit below it was zero. */
  lemma {:induction false} InvertClearsOne(n: nat)
    requires n > 0
    ensures Ones(InvertLowestOne(n)) == Ones(n) - 1
  {
    hide InvertLowestOne, Ones;
    var y := n / 2;
    OnesDouble(y);
    InvertDouble(y);
    if n % 2 == 0 {
      InvertClearsOne(y);
      OnesDouble(InvertLowestOne(y));
    }
  }

  lemma {:induction false} OnesBound(z: nat, j: nat)
    requires z < Pow(2, j)
    ensures Ones(z) <= j
  {
    if j > 0 { OnesBound(z / 2, j - 1); }
  }

  lemma {:induction false} OnesOdd(z: nat)
    requires z % 2 == 1
    ensures Ones(z) == Ones(z - 1) + 1
  {
    assert (z - 1) / 2 == z / 2;
  }

  lemma {:induction false} Scale(q: nat, j: nat)
    requires j > 0
    ensures q * Pow(2, j) == 2 * (q * Pow(2, j - 1))
  {
    MulAssoc(q, 2, Pow(2, j - 1));
    MulAssoc(2, q, Pow(2, j - 1));
  }

  /** The bits above a number that is not zero stay. */
  lemma {:induction false} InvertLow(q: nat, z: nat, j: nat)
    requires 0 < z < Pow(2, j)
    ensures InvertLowestOne(q * Pow(2, j) + z) == q * Pow(2, j) + InvertLowestOne(z)
    decreases j
  {
    hide InvertLowestOne;
    var b, y := q * Pow(2, j - 1), z / 2;
    Scale(q, j);
    InvertDouble(b + y);
    InvertDouble(y);
    if z % 2 == 0 { InvertLow(q, y, j - 1); }
  }

  lemma {:induction false} InvertHigh(q: nat, j: nat)
    ensures InvertLowestOne((2 * q + 1) * Pow(2, j)) == 2 * q * Pow(2, j)
  {
    hide InvertLowestOne;
    if j == 0 {
      InvertHalves(2 * q + 1);
    } else {
      var m := (2 * q + 1) * Pow(2, j - 1);
      InvertHigh(q, j - 1);
      Scale(2 * q + 1, j);
      Scale(2 * q, j);
      HalfOf(m, 0, 2 * m);
      InvertHalves(2 * m);
    }
  }

  lemma {:induction false} OnesZero(n: nat)
    requires Ones(n) == 0
    ensures n == 0
  {
    if n > 0 { OnesZero(n / 2); }
  }

  lemma {:induction false} InvertAtMost(n: nat)
    ensures InvertLowestOne(n) <= n && (n > 0 ==> InvertLowestOne(n) < n)
  {
    if n > 0 { InvertHalves(n); }
  }

  // ---------- The upper half of an aligned block ----------

  // The middle of the q-th block of 2^(j+1) heights is (2q+1) 2^j; heights of the upper half are
  // that plus z < 2^j.

  function Middle(q: nat, j: nat): nat { (2 * q + 1) * Pow(2, j) }

  lemma {:induction false} MiddleEven(q: nat, j: nat)
    requires j > 0
    ensures Middle(q, j) % 2 == 0 && Middle(q, j) >= 2
  {
    Scale(2 * q + 1, j);
    MulMono(1, 2 * q + 1, 1, Pow(2, j - 1));
  }

  lemma {:induction false} AboveMiddle(q: nat, j: nat, z: nat)
    requires 0 < z < Pow(2, j)
    ensures InvertLowestOne(Middle(q, j) + z) == Middle(q, j) + InvertLowestOne(z)
  {
    hide InvertLowestOne;
    InvertLow(2 * q + 1, z, j);
  }

  lemma {:induction false} AtMiddle(q: nat, j: nat)
    requires j > 0
    ensures InvertLowestOne(Middle(q, j)) + 1 < Middle(q, j)
  {
    hide InvertLowestOne;
    InvertHigh(q, j);
    Distribute(2 * q, 1, Pow(2, j));
  }

  lemma {:induction false} SkipFromOdd(w: nat)
    requires w % 2 == 0 && w >= 2
    ensures GetSkipHeight(w + 1) == InvertLowestOne(InvertLowestOne(w)) + 1
    ensures GetSkipHeight(w) == InvertLowestOne(w)
  {
    hide InvertLowestOne;
  }

  /** Skipping from an even height clears the lowest one of z. */
  lemma {:induction false} SkipEven(q: nat, j: nat, z: nat)
    requires 0 < z < Pow(2, j) && z % 2 == 0
    ensures GetSkipHeight(Middle(q, j) + z) == Middle(q, j) + InvertLowestOne(z)
  {
    hide InvertLowestOne, Middle, GetSkipHeight;
    MiddleEven(q, j);
    AboveMiddle(q, j, z);
    SkipFromOdd(Middle(q, j) + z);
  }

  /** Skipping from an odd height clears two ones of z - 1, or leaves the half. */
  lemma {:induction false} SkipOdd(q: nat, j: nat, z: nat)
    requires 0 < z < Pow(2, j) && z % 2 == 1
    ensures var skip := GetSkipHeight(Middle(q, j) + z);
      if Ones(z - 1) >= 2 then skip == Middle(q, j) + InvertLowestOne(InvertLowestOne(z - 1)) + 1 else skip < Middle(q, j)
  {
    hide InvertLowestOne, Ones, Middle, GetSkipHeight;
    var m := Middle(q, j);
    MiddleEven(q, j);
    SkipFromOdd(m + (z - 1));
    AtMiddle(q, j);
    if z == 1 {
      InvertAtMost(InvertLowestOne(m));
      NoOnes();
    } else {
      var y := InvertLowestOne(z - 1);
      AboveMiddle(q, j, z - 1);
      InvertClearsOne(z - 1);
      InvertAtMost(z - 1);
      if y == 0 {
        NoOnes();
      } else {
        AboveMiddle(q, j, y);
        SomeOnes(y);
      }
    }
  }

  lemma {:induction false} NoOnes()
    ensures Ones(0) == 0
  {
  }

  lemma {:induction false} SomeOnes(n: nat)
    requires n > 0
    ensures Ones(n) > 0
  {
    if Ones(n) == 0 { OnesZero(n); }
  }

  // ---------- The detour over the parent ----------

  /** One less has no more ones, or so many low ones that two of them can go. */
  lemma {:induction false} OneLess(y: nat)
    requires y > 0
    ensures Ones(y - 1) <= Ones(y) || InvertLowestOne(InvertLowestOne(y - 1)) >= InvertLowestOne(y)
  {
    hide Ones, InvertLowestOne;
    if y % 2 == 1 {
      OnesDouble(y / 2);
    } else {
      var x := y / 2;
      OnesDouble(x);
      OnesDouble(x - 1);
      if x % 2 == 1 {
        OnesDouble(x / 2);
      } else {
        var u := x / 2;
        InvertDouble(2 * u - 1);
        InvertDouble(u - 1);
        InvertDouble(2 * (u - 1) + 1);
        InvertDouble(2 * u);
        InvertDouble(u);
        InvertAtMost(u);
      }
    }
  }

  lemma {:induction false} TwoLess(z: nat)
    requires z >= 2 && z % 2 == 0
    ensures Ones(z - 2) <= Ones(z) || InvertLowestOne(InvertLowestOne(z - 2)) >= InvertLowestOne(z)
  {
    hide Ones, InvertLowestOne;
    var y := z / 2;
    OneLess(y);
    OnesDouble(y);
    OnesDouble(y - 1);
    InvertDouble(y);
    InvertDouble(y - 1);
    InvertDouble(InvertLowestOne(y - 1));
  }

  // ---------- Counting the moves ----------

  /** Enough moves to leave the upper half from z. */
  function Effort(z: nat): nat { if z % 2 == 0 then 2 * Ones(z) + 1 else 2 * Ones(z - 1) + 2 }

  lemma {:induction false} EffortBound(z: nat, j: nat)
    requires z < Pow(2, j)
    ensures Effort(z) <= 2 * j + 1
  {
    hide Ones;
    OnesBound(z, j);
    if z % 2 == 1 { OnesOdd(z); }
  }

  lemma {:induction false} EffortEven(z: nat)
    requires z > 0 && z % 2 == 0
    ensures Effort(InvertLowestOne(z)) + 2 == Effort(z) && Effort(z) >= 3
  {
    hide Ones, InvertLowestOne;
    InvertHalves(z);
    InvertClearsOne(z);
  }

  lemma {:induction false} EffortTwice(y: nat)
    requires Ones(y) >= 2
    ensures InvertLowestOne(InvertLowestOne(y)) + 1 < y
    ensures Effort(InvertLowestOne(InvertLowestOne(y)) + 1) == 2 * Ones(y) - 2
  {
    hide Ones, InvertLowestOne;
    NoOnes();
    InvertHalves(y);
    InvertClearsOne(y);
    var x := InvertLowestOne(y);
    InvertHalves(x);
    InvertClearsOne(x);
  }

  /** From an odd height GetAncestor jumps as soon as it may. */
  lemma {:induction false} OddJumps(w: nat, h: nat)
    requires w % 2 == 0 && h <= w && w >= 2
    ensures NextHeight(w + 1, h) == if GetSkipHeight(w + 1) >= h then GetSkipHeight(w + 1) else w
  {
    hide InvertLowestOne, GetSkipHeight;
    SkipFromOdd(w);
    InvertAtMost(InvertLowestOne(w));
  }

  /** From every height below m, h is at most `bound` moves away. */
  ghost predicate Below(m: nat, h: nat, bound: nat)
    requires h <= m
  {
    forall x | h <= x < m :: Moves(x, h) <= bound
  }

  lemma {:induction false} MovesOdd(q: nat, j: nat, z: nat, h: nat, bound: nat)
    requires z < Pow(2, j) && z % 2 == 1 && h < Middle(q, j) && Below(Middle(q, j), h, bound)
    requires forall y | 0 <= y < z :: Moves(Middle(q, j) + y, h) <= Effort(y) + bound
    ensures Moves(Middle(q, j) + z, h) <= Effort(z) + bound
  {
    hide InvertLowestOne, GetSkipHeight, Ones, Middle, NextHeight;
    var m := Middle(q, j);
    MiddleEven(q, j);
    OddJumps(m + (z - 1), h);
    SkipOdd(q, j, z);
    var next := NextHeight(m + z, h);
    if next >= m && Ones(z - 1) >= 2 {
      EffortTwice(z - 1);
      var y := InvertLowestOne(InvertLowestOne(z - 1)) + 1;
      assert Moves(m + y, h) <= Effort(y) + bound;
    } else if next >= m {
      assert Moves(m + (z - 1), h) <= Effort(z - 1) + bound;
    }
  }

  lemma {:induction false} MovesEven(q: nat, j: nat, z: nat, h: nat, bound: nat)
    requires z < Pow(2, j) && z % 2 == 0 && h < Middle(q, j) && Below(Middle(q, j), h, bound)
    requires forall y | 0 <= y < z :: Moves(Middle(q, j) + y, h) <= Effort(y) + bound
    ensures Moves(Middle(q, j) + z, h) <= Effort(z) + bound
  {
    hide InvertLowestOne, GetSkipHeight, Ones, Middle;
    var m := Middle(q, j);
    if z == 0 {
      assert Moves(NextHeight(m, h), h) <= bound;
    } else {
      MiddleEven(q, j);
      SkipEven(q, j, z);
      EffortEven(z);
      InvertAtMost(z);
      var next := NextHeight(m + z, h);
      if next == m + InvertLowestOne(z) {
        assert Moves(next, h) <= Effort(InvertLowestOne(z)) + bound;
      } else {
        MovesDetour(q, j, z, h, bound);
      }
    }
  }

  /** Not jumping from an even height means jumping from its parent, and further. */
  lemma {:induction false} TwoMoves(w: nat, h: nat)
    requires w % 2 == 0 && w >= 4 && h < GetSkipHeight(w) < w && NextHeight(w, h) != GetSkipHeight(w)
    ensures h <= GetSkipHeight(w - 1) < GetSkipHeight(w) - 2
    ensures Moves(w, h) == 2 + Moves(GetSkipHeight(w - 1), h)
  {
    hide GetSkipHeight;
    OddJumps(w - 2, h);
  }

  lemma {:induction false} MovesDetour(q: nat, j: nat, z: nat, h: nat, bound: nat)
    requires 0 < z < Pow(2, j) && z % 2 == 0 && h < Middle(q, j) && Below(Middle(q, j), h, bound)
    requires forall y | 0 <= y < z :: Moves(Middle(q, j) + y, h) <= Effort(y) + bound
    requires NextHeight(Middle(q, j) + z, h) != Middle(q, j) + InvertLowestOne(z)
    ensures Moves(Middle(q, j) + z, h) <= Effort(z) + bound
  {
    hide InvertLowestOne, GetSkipHeight, Ones, Middle, Moves, NextHeight;
    var m := Middle(q, j);
    MiddleEven(q, j);
    SkipEven(q, j, z);
    EffortEven(z);
    TwoMoves(m + z, h);
    var prev := GetSkipHeight(m + z - 1);
    SkipOdd(q, j, z - 1);
    if prev >= m {
      EffortTwice(z - 2);
      TwoLess(z);
      var y := InvertLowestOne(InvertLowestOne(z - 2)) + 1;
      assert Moves(m + y, h) <= Effort(y) + bound;
    }
  }

  lemma {:induction false} MovesUpper(q: nat, j: nat, z: nat, h: nat, bound: nat)
    requires z < Pow(2, j) && h < Middle(q, j) && Below(Middle(q, j), h, bound)
    ensures Moves(Middle(q, j) + z, h) <= Effort(z) + bound
    decreases z
  {
    hide Middle, Effort, Moves;
    forall y | 0 <= y < z ensures Moves(Middle(q, j) + y, h) <= Effort(y) + bound {
      MovesUpper(q, j, y, h, bound);
    }
    if z % 2 == 0 { MovesEven(q, j, z, h, bound); } else { MovesOdd(q, j, z, h, bound); }
  }

  /** x is in the q-th aligned block of 2^j heights. */
  ghost predicate InBlock(q: nat, j: nat, x: nat) { q * Pow(2, j) <= x < q * Pow(2, j) + Pow(2, j) }

  lemma {:induction false} BlockHalves(q: nat, j: nat, x: nat)
    requires InBlock(q, j + 1, x)
    ensures x < Middle(q, j) <==> InBlock(2 * q, j, x)
    ensures x >= Middle(q, j) <==> InBlock(2 * q + 1, j, x)
    ensures x < Middle(q, j) + Pow(2, j)
  {
    var p := Pow(2, j);
    Scale(q, j + 1);
    MulAssoc(2, q, p);
    Distribute(2 * q, 1, p);
  }

  lemma {:induction false} LowerHalf(q: nat, j: nat, h: nat, x: nat)
    requires InBlock(2 * q, j, h) && h <= x < Middle(q, j)
    ensures InBlock(2 * q, j, x)
  {
    Distribute(2 * q, 1, Pow(2, j));
  }

  lemma {:induction false} MovesInBlock(q: nat, j: nat, w: nat, h: nat)
    requires InBlock(q, j, h) && InBlock(q, j, w) && h <= w
    ensures Moves(w, h) <= j * j
    decreases j
  {
    hide Moves, Effort, Middle;
    if j == 0 {
      MovesEnd(w);
    } else {
      hide InBlock;
      var i := j - 1;
      var m := Middle(q, i);
      BlockHalves(q, i, h);
      BlockHalves(q, i, w);
      if w < m {
        MovesInBlock(2 * q, i, w, h);
      } else if h >= m {
        MovesInBlock(2 * q + 1, i, w, h);
      } else {
        forall x | h <= x < m ensures Moves(x, h) <= i * i {
          LowerHalf(q, i, h, x);
          MovesInBlock(2 * q, i, x, h);
        }
        MovesUpper(q, i, w - m, h, i * i);
        EffortBound(w - m, i);
      }
      assert j * j == i * i + 2 * i + 1;
    }
  }

  lemma {:induction false} MovesEnd(h: nat)
    ensures Moves(h, h) == 0
  {
  }

  /** From a height below 2^j, GetAncestor follows at most j^2 pointers, whatever the target. */
  lemma {:induction false} MovesBound(w: nat, h: nat, j: nat)
    requires h <= w < Pow(2, j)
    ensures Moves(w, h) <= j * j
  {
    MovesInBlock(0, j, w, h);
  }

  lemma {:induction false} MovesAlways(w: nat, h: nat)
    requires h <= w
    ensures forall j: nat | w < Pow(2, j) :: Moves(w, h) <= j * j
  {
    hide Moves, Pow;
    forall j: nat | w < Pow(2, j) ensures Moves(w, h) <= j * j {
      MovesBound(w, h, j);
    }
  }
}
