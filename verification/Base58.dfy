/** Base 58 strings (src/base58.cpp).  A byte string is read as a big-endian number in base 256 and
    written in base 58, leading zero bytes becoming leading '1's; decoding goes back. */
module Base58 {
  import opened Options
  import opened Powers

  lemma {:induction false} Pow58to4()
    ensures Pow(58, 1) == 58 && Pow(58, 2) == 3364 && Pow(58, 4) == 11316496
  {
    assert Pow(58, 1) == 58 * Pow(58, 0);
    hide Pow;
    PowAdd(58, 1, 1);
    PowAdd(58, 2, 2);
  }

  lemma {:induction false} Pow58to6()
    ensures Pow(58, 6) == 38068692544
  {
    hide Pow;
    Pow58to4();
    PowAdd(58, 4, 2);
  }

  lemma {:induction false} Pow58to8()
    ensures Pow(58, 8) == 128063081718016
  {
    hide Pow;
    Pow58to4();
    PowAdd(58, 4, 4);
  }

  lemma {:induction false} Pow58to11()
    ensures Pow(58, 11) == 24986644000165537792
  {
    hide Pow;
    Pow58to4();
    Pow58to8();
    PowAdd(58, 8, 2);
    PowAdd(58, 10, 1);
  }

  lemma {:induction false} Pow58to64()
    ensures Pow(58, 64) ==
      72342179355466901471258927612150153907721848234316445933056526044582001260898145151856420451025374266490194231296
  {
    hide Pow;
    Pow58to8();
    PowAdd(58, 8, 8);
    PowAdd(58, 16, 16);
    PowAdd(58, 32, 32);
  }

  lemma {:induction false} Pow58to71()
    ensures Pow(58, 71) ==
      159730386663078066345306447337161584696769904898410078913243029577507397293846405390982563136983769384625594118558891106107392
  {
    hide Pow;
    Pow58to4();
    Pow58to6();
    Pow58to64();
    PowAdd(58, 64, 6);
    PowAdd(58, 70, 1);
  }

  lemma {:induction false} Pow256to4()
    ensures Pow(256, 1) == 256 && Pow(256, 4) == 4294967296
  {
    assert Pow(256, 1) == 256 * Pow(256, 0);
    hide Pow;
    PowAdd(256, 1, 1);
    PowAdd(256, 2, 2);
  }

  lemma {:induction false} Pow256to5()
    ensures Pow(256, 5) == 1099511627776
  {
    hide Pow;
    Pow256to4();
    PowAdd(256, 4, 1);
  }

  lemma {:induction false} Pow256to8()
    ensures Pow(256, 8) == 18446744073709551616
  {
    hide Pow;
    Pow256to4();
    PowAdd(256, 4, 4);
  }

  lemma {:induction false} Pow256to52()
    ensures Pow(256, 52) ==
      169230328010303641331690318856389386196071598838855992136870091590247882556495704531248437872567112920983350278405979725889536
  {
    hide Pow;
    Pow256to4();
    Pow256to8();
    PowAdd(256, 8, 8);
    PowAdd(256, 16, 16);
    PowAdd(256, 32, 16);
    PowAdd(256, 48, 4);
  }

  /** 138/100 is enough going from bytes to base 58... */
  lemma {:induction false} BytesFit(n: nat)
    ensures Pow(256, n) <= Pow(58, n * 138 / 100 + 1)
  {
    hide Pow;
    assert Pow(256, 100) <= Pow(58, 138) by {
      Pow256to8();
      Pow58to11();
      Pow256to4();
      Pow58to6();
      PowMul(256, 8, 12);
      PowMul(58, 11, 12);
      PowMono(Pow(256, 8), Pow(58, 11), 12);
      PowAdd(256, 96, 4);
      PowAdd(58, 132, 6);
      MulMono(Pow(256, 96), Pow(58, 132), Pow(256, 4), Pow(58, 6));
    }
    Estimate(256, 58, 100, 138, n);
  }

  /** ...and 733/1000 going back. */
  lemma {:induction false} SymbolsFit(n: nat)
    ensures Pow(58, n) <= Pow(256, n * 733 / 1000 + 1)
  {
    hide Pow;
    assert Pow(58, 1000) <= Pow(256, 733) by {
      Pow58to71();
      Pow256to52();
      Pow58to6();
      Pow256to5();
      PowMul(58, 71, 14);
      PowMul(256, 52, 14);
      PowMono(Pow(58, 71), Pow(256, 52), 14);
      PowAdd(58, 994, 6);
      PowAdd(256, 728, 5);
      MulMono(Pow(58, 994), Pow(256, 728), Pow(58, 6), Pow(256, 5));
    }
    Estimate(58, 256, 1000, 733, n);
  }

  // ---------- Numbers and digits ----------

  /** The number that big-endian digits stand for. */
  function Value(s: seq<nat>, base: nat): nat {
    if s == [] then 0 else Value(s[..|s| - 1], base) * base + s[|s| - 1]
  }

  predicate Digits(s: seq<nat>, base: nat) { forall i | 0 <= i < |s| :: s[i] < base }

  /** The digits of a number, without leading zeroes. */
  function ToDigits(n: nat, base: nat): (s: seq<nat>)
    requires base > 1
    ensures Digits(s, base) && (n > 0 <==> s != []) && (s != [] ==> s[0] != 0)
  {
    if n == 0 then []
    else
      QuoRem(n, base);
      ToDigits(Quo(n, base), base) + [Rem(n, base)]
  }

  lemma {:induction false} ValueOfDigits(n: nat, base: nat)
    requires base > 1
    ensures Value(ToDigits(n, base), base) == n
  {
    hide Quo, Rem;
    if n > 0 {
      var s := ToDigits(n, base);
      assert s[..|s| - 1] == ToDigits(Quo(n, base), base);
      ValueOfDigits(Quo(n, base), base);
      QuoRem(n, base);
    }
  }

  /** Digits without a leading zero are those of their number. */
  lemma {:induction false} DigitsOfValue(s: seq<nat>, base: nat)
    requires base > 1 && Digits(s, base) && (s != [] ==> s[0] != 0)
    ensures ToDigits(Value(s, base), base) == s && (s != [] ==> Value(s, base) > 0)
  {
    hide Quo, Rem;
    if s != [] {
      var n := |s| - 1;
      var v := Value(s[..n], base);
      DigitsOfValue(s[..n], base);
      DivideBack(v, s[n], base);
      assert s == s[..n] + [s[n]];
      if n > 0 { MulMono(1, v, 1, base); }
    }
  }

  lemma {:induction false} ValueAppend(a: seq<nat>, b: seq<nat>, base: nat)
    ensures Value(a + b, base) == Value(a, base) * Pow(base, |b|) + Value(b, base)
  {
    if b == [] {
      assert a + b == a;
    } else {
      var n := |b| - 1;
      ValueAppend(a, b[..n], base);
      assert (a + b)[..|a + b| - 1] == a + b[..n];
      AppendStep(Value(a, base), Pow(base, n), Value(b[..n], base), base);
    }
  }

  lemma {:induction false} AppendStep(v: int, p: int, w: int, base: int)
    ensures (v * p + w) * base == v * (base * p) + w * base
  {
    assert v * p * base == v * (base * p) by { MulAssoc(v, p, base); }
  }

  lemma {:induction false} ValueZero(s: seq<nat>, base: nat)
    requires forall i | 0 <= i < |s| :: s[i] == 0
    ensures Value(s, base) == 0
  {
    if s != [] { ValueZero(s[..|s| - 1], base); }
  }

  lemma {:induction false} ValueBound(s: seq<nat>, base: nat)
    requires base > 0 && Digits(s, base)
    ensures Value(s, base) < Pow(base, |s|)
  {
    if s != [] {
      var n := |s| - 1;
      ValueBound(s[..n], base);
      MulMono(Value(s[..n], base) + 1, Pow(base, n), base, base);
    }
  }

  // ---------- b = b * mul + ch ----------

  /** s holds a number in its last `length` places. */
  predicate Normal(s: seq<nat>, base: nat, length: nat) {
    && Digits(s, base) && length <= |s|
    && (forall i | 0 <= i < |s| - length :: s[i] == 0)
    && (length > 0 ==> s[|s| - length] != 0)
  }

  lemma {:induction false} NormalTail(s: seq<nat>, base: nat, length: nat)
    requires base > 1 && Normal(s, base, length)
    ensures s[|s| - length..] == ToDigits(Value(s, base), base)
  {
    hide Value, ToDigits;
    ValueOfTail(s, |s| - length, base);
    DigitsOfValue(s[|s| - length..], base);
  }

  /** One place: the digit and carry out account for the digit and carry in. */
  lemma {:induction false} PlaceArithmetic(carry: nat, x: nat, base: nat, mul: nat, p: nat, v: nat, w: nat, ch: nat)
    requires base > 0 && v + carry * p == mul * w + ch
    ensures var t := carry + mul * x;
      Rem(t, base) * p + v + Quo(t, base) * (base * p) == mul * (x * p + w) + ch
  {
    hide Quo, Rem;
    var t := carry + mul * x;
    var d, c := Rem(t, base), Quo(t, base);
    QuoRem(t, base);
    assert c * (base * p) == c * base * p by { MulAssoc(c, base, p); }
    assert d * p + c * base * p == t * p by { Distribute(d, c * base, p); }
    assert t * p == carry * p + mul * x * p by { Distribute(carry, mul * x, p); }
    assert mul * x * p == mul * (x * p) by { MulAssoc(mul, x, p); }
    assert mul * (x * p + w) == mul * (x * p) + mul * w by { Distribute(x * p, w, mul); }
  }

  lemma {:induction false} TailMore(s: seq<nat>, j: nat, base: nat)
    requires j < |s|
    ensures Value(s[j..], base) == s[j] * Pow(base, |s| - j - 1) + Value(s[j + 1..], base)
  {
    assert s[j..] == [s[j]] + s[j + 1..];
    ValueAppend([s[j]], s[j + 1..], base);
    assert [s[j]][..0] == [] && Value([s[j]], base) == s[j];
  }

  lemma {:induction false} PowNext(base: nat, i: nat)
    ensures Pow(base, 0) == 1 && Pow(base, i + 1) == base * Pow(base, i)
  {
  }

  lemma {:induction false} NothingYet(s: seq<nat>, base: nat)
    ensures Value(s[|s|..], base) == 0
  {
    assert s[|s|..] == [];
  }

  /** A place that counts leaves a digit or a carry. */
  lemma {:induction false} PlacePositive(carry: nat, x: nat, base: nat, mul: nat)
    requires base > 0 && mul > 0 && (carry > 0 || x > 0)
    ensures Quo(carry + mul * x, base) == 0 ==> Rem(carry + mul * x, base) != 0
  {
    hide Quo, Rem;
    if x > 0 { MulMono(1, mul, 1, x); }
    QuoRem(carry + mul * x, base);
  }

  /** Leading zeroes do not count. */
  lemma {:induction false} ValueOfTail(s: seq<nat>, k: nat, base: nat)
    requires k <= |s| && forall i | 0 <= i < k :: s[i] == 0
    ensures Value(s, base) == Value(s[k..], base)
  {
    assert s == s[..k] + s[k..];
    ValueAppend(s[..k], s[k..], base);
    ValueZero(s[..k], base);
  }

  /** The last i places of a, with the carry, are those of s times mul, plus ch; the others are as in s. */
  ghost predicate Running(a: seq<nat>, s: seq<nat>, i: nat, carry: nat, base: nat, mul: nat, ch: nat) {
    && i <= |a| == |s| && Digits(a, base) && a[..|a| - i] == s[..|a| - i]
    && Value(a[|a| - i..], base) + carry * Pow(base, i) == mul * Value(s[|a| - i..], base) + ch
  }

  lemma {:induction false} RunningStart(s: seq<nat>, base: nat, mul: nat, ch: nat)
    requires Digits(s, base)
    ensures Running(s, s, 0, ch, base, mul, ch)
  {
    NothingYet(s, base);
    PowNext(base, 0);
  }

  lemma {:induction false} RunningStep(a: seq<nat>, s: seq<nat>, i: nat, carry: nat, base: nat, mul: nat, ch: nat)
    requires base > 1 && Running(a, s, i, carry, base, mul, ch) && i < |a|
    ensures var j := |a| - 1 - i;
      var t := carry + mul * a[j];
      a[j] == s[j] && Running(a[j := Rem(t, base)], s, i + 1, Quo(t, base), base, mul, ch)
  {
    hide Pow, Value, Quo, Rem;
    var j := |a| - 1 - i;
    assert a[..j + 1][j] == s[..j + 1][j];
    var t := carry + mul * a[j];
    var b := a[j := Rem(t, base)];
    PlaceArithmetic(carry, a[j], base, mul, Pow(base, i), Value(a[j + 1..], base), Value(s[j + 1..], base), ch);
    TailMore(s, j, base);
    TailMore(b, j, base);
    assert b[j + 1..] == a[j + 1..];
    assert b[..j] == a[..j + 1][..j] == s[..j + 1][..j] == s[..j];
    PowNext(base, i);
  }

  /** The carry is gone when the loop ends, even if it ran into the end of the buffer. */
  lemma {:induction false} NoCarry(a: seq<nat>, s: seq<nat>, i: nat, base: nat, carry: nat, mul: nat, ch: nat,
          length: nat)
    requires base > 0 && Running(a, s, i, carry, base, mul, ch) && Normal(s, base, length)
    requires mul * Value(s, base) + ch < Pow(base, |s|)
    requires i == |s| || (carry == 0 && i >= length)
    ensures carry == 0 && Value(a, base) == mul * Value(s, base) + ch
    ensures Digits(a, base) && forall k | 0 <= k < |a| - i :: a[k] == 0
  {
    hide Pow, Value;
    var n := |a| - i;
    forall k | 0 <= k < n ensures a[k] == 0 && s[k] == 0 {
      assert a[..n][k] == s[..n][k];
    }
    ValueOfTail(a, n, base);
    ValueOfTail(s, n, base);
    if carry > 0 {
      MulMono(1, carry, Pow(base, |s|), Pow(base, |s|));
      assert false;
    }
  }

  method MulAdd(a: array<nat>, base: nat, mul: nat, ch: nat, length: nat) returns (i: nat)
    requires base > 1 && mul > 0 && Normal(a[..], base, length)
    requires mul * Value(a[..], base) + ch < Pow(base, a.Length)
    modifies a
    ensures Normal(a[..], base, i) && length <= i
    ensures Value(a[..], base) == mul * old(Value(a[..], base)) + ch
  {
    hide Pow, Value, Quo, Rem, Running;
    ghost var s := a[..];
    var n := a.Length;
    var carry: nat := ch;
    i := 0;
    RunningStart(s, base, mul, ch);
    while (carry != 0 || i < length) && i < n
      invariant 0 <= i <= n && Running(a[..], s, i, carry, base, mul, ch)
      invariant carry == 0 && i >= length && i > 0 ==> a[n - i] != 0
      decreases n - i
    {
      ghost var before := a[..];
      var j := n - 1 - i;
      RunningStep(before, s, i, carry, base, mul, ch);
      if i + 1 >= length { PlacePositive(carry, a[j], base, mul); }
      carry := carry + mul * a[j];
      a[j] := Rem(carry, base);
      assert a[..] == before[j := a[j]];
      carry := Quo(carry, base);
      i := i + 1;
    }
    NoCarry(a[..], s, i, base, carry, mul, ch, length);
    assert carry == 0;
  }

  // ---------- The alphabet ----------

  /** The character for a digit: 1-9, A-Z without I and O, a-z without l. */
  function Code(d: nat): (c: nat)
    requires d < 58
    ensures 49 <= c <= 122
  {
    if d < 9 then 49 + d else if d < 17 then 56 + d else if d < 22 then 57 + d
    else if d < 33 then 58 + d else if d < 44 then 64 + d else 65 + d
  }

  function Letter(d: nat): char
    requires d < 58
  {
    Code(d) as char
  }

  /** Where strchr finds a character in the alphabet; -1 for nowhere. */
  function DigitOf(c: char): (d: int)
    ensures -1 <= d < 58
  {
    var n := c as int;
    if 49 <= n < 58 then n - 49 else if 65 <= n < 73 then n - 56 else if 74 <= n < 79 then n - 57
    else if 80 <= n < 91 then n - 58 else if 97 <= n < 108 then n - 64 else if 109 <= n < 123 then n - 65
    else -1
  }

  lemma {:induction false} LetterDigit(c: char, d: nat)
    requires d < 58
    ensures DigitOf(c) == d <==> c == Letter(d)
  {
  }

  /** The alphabet is the digits and letters without 0, O, I and l, in the order of their codes. */
  lemma {:induction false} AlphabetIs(c: char, d: nat, e: nat)
    requires d < e < 58
    ensures Letter(d) < Letter(e)
    ensures DigitOf(c) >= 0 <==>
      && ('0' <= c <= '9' || 'A' <= c <= 'Z' || 'a' <= c <= 'z')
      && c != '0' && c != 'O' && c != 'I' && c != 'l'
  {
  }

  predicate IsSpace(c: char) { c == ' ' || 9 <= c as int <= 13 }

  lemma {:induction false} LettersAreNoSpaces(d: nat)
    requires d < 58
    ensures !IsSpace(Letter(d)) && Letter(d) as int != 0 && (Letter(d) == '1' <==> d == 0)
  {
  }

  function Letters(digits: seq<nat>): string
    requires Digits(digits, 58)
  {
    seq(|digits|, i requires 0 <= i < |digits| => Letter(digits[i]))
  }

  // ---------- Encode ----------

  function LeadingZeros(b: seq<nat>): (z: nat)
    ensures z <= |b| && (forall i | 0 <= i < z :: b[i] == 0) && (z < |b| ==> b[z] != 0)
  {
    if b == [] || b[0] != 0 then 0 else 1 + LeadingZeros(b[1..])
  }

  function Ones(n: nat): string { seq(n, i => '1') }

  function Zeros(n: nat): seq<nat> { seq(n, i => 0) }

  function Encoded(b: seq<nat>): string {
    Ones(LeadingZeros(b)) + Letters(ToDigits(Value(b, 256), 58))
  }

  /** The value never outgrows the buffer. */
  lemma {:induction false} PrefixFits(b: seq<nat>, i: nat, from: nat, to: nat, size: nat)
    requires i < |b| && Digits(b, from) && from > 0 && to > 0 && Pow(from, |b|) <= Pow(to, size)
    ensures b[..i + 1][..i] == b[..i] && Value(b[..i + 1], from) == from * Value(b[..i], from) + b[i] < Pow(to, size)
  {
    ValueBound(b[..i + 1], from);
    PowGrows(from, i + 1, |b|);
    assert b[..i + 1][..i] == b[..i];
  }

  /** Read the digits `b` in base `from` into a buffer in base `to`. */
  method Convert(b: seq<nat>, from: nat, to: nat, size: nat) returns (a: array<nat>, length: nat)
    requires from > 1 && to > 1 && Digits(b, from) && Pow(from, |b|) <= Pow(to, size)
    ensures fresh(a) && a.Length == size && Normal(a[..], to, length) && Value(a[..], to) == Value(b, from)
  {
    hide Pow, Value;
    a := new nat[size](i => 0);
    length := 0;
    ValueZero(a[..], to);
    ValueZero(b[..0], from);
    var i := 0;
    while i < |b|
      invariant 0 <= i <= |b| && Normal(a[..], to, length) && Value(a[..], to) == Value(b[..i], from)
    {
      PrefixFits(b, i, from, to, size);
      length := MulAdd(a, to, from, b[i], length);
      i := i + 1;
    }
    assert b[..i] == b;
  }

  method CountZeroes(b: seq<nat>) returns (zeroes: nat)
    ensures zeroes == LeadingZeros(b)
  {
    zeroes := 0;
    while zeroes < |b| && b[zeroes] == 0
      invariant 0 <= zeroes <= |b| && forall i | 0 <= i < zeroes :: b[i] == 0
    {
      zeroes := zeroes + 1;
    }
  }

  lemma {:induction false} NormalTop(a: seq<nat>, base: nat, length: nat)
    requires Normal(a, base, length)
    ensures length <= |a| && (length > 0 ==> a[|a| - length] != 0)
  {
  }

  /** Skip any zeroes at the start of the used part. */
  method SkipZeroes(a: array<nat>, base: nat, length: nat) returns (it: nat)
    requires Normal(a[..], base, length)
    ensures it == a.Length - length
  {
    hide Normal;
    assert length <= a.Length by { NormalTop(a[..], base, length); }
    it := a.Length - length;
    while it < a.Length && a[it] == 0
      invariant a.Length - length <= it <= a.Length && forall i | a.Length - length <= i < it :: a[i] == 0
    {
      it := it + 1;
    }
    NormalTop(a[..], base, length);
  }

  method Translate(a: array<nat>, it: nat) returns (str: string)
    requires it <= a.Length && Digits(a[..], 58)
    ensures str == Letters(a[it..])
  {
    hide Letter;
    str := [];
    ghost var digits := a[it..];
    var i := it;
    while i < a.Length
      invariant it <= i <= a.Length && str == Letters(digits[..i - it])
    {
      assert digits[..i + 1 - it] == digits[..i - it] + [a[i]];
      str := str + [Letter(a[i])];
      i := i + 1;
    }
    assert digits[..a.Length - it] == digits;
  }

  method EncodeBase58(b: seq<nat>) returns (str: string)
    requires Digits(b, 256)
    ensures str == Encoded(b)
  {
    hide Pow, Value, ToDigits, Letters, Ones;
    var zeroes := CountZeroes(b);
    var rest := b[zeroes..];
    ValueOfTail(b, zeroes, 256);
    BytesFit(|rest|);
    var size := |rest| * 138 / 100 + 1;
    var a, length := Convert(rest, 256, 58, size);
    var it := SkipZeroes(a, 58, length);
    NormalTail(a[..], 58, length);
    assert a[it..] == a[..][size - length..];
    var digits := Translate(a, it);
    str := Ones(zeroes) + digits;
  }

  // ---------- Decode ----------

  /** How many characters at the start satisfy what each of the loops of DecodeBase58 skips. */
  function LeadingSpaces(s: string): (n: nat)
    ensures n <= |s| && (forall i | 0 <= i < n :: IsSpace(s[i])) && (n < |s| ==> !IsSpace(s[n]))
  {
    if s == [] || !IsSpace(s[0]) then 0 else 1 + LeadingSpaces(s[1..])
  }

  function LeadingOnes(s: string): (n: nat)
    ensures n <= |s| && (forall i | 0 <= i < n :: s[i] == '1') && (n < |s| ==> s[n] != '1')
  {
    if s == [] || s[0] != '1' then 0 else 1 + LeadingOnes(s[1..])
  }

  function LeadingWord(s: string): (n: nat)
    ensures n <= |s| && (forall i | 0 <= i < n :: !IsSpace(s[i])) && (n < |s| ==> IsSpace(s[n]))
  {
    if s == [] || IsSpace(s[0]) then 0 else 1 + LeadingWord(s[1..])
  }

  predicate InAlphabet(s: string) { forall i | 0 <= i < |s| :: DigitOf(s[i]) >= 0 }

  function DigitsOf(s: string): (d: seq<nat>)
    requires InAlphabet(s)
    ensures |d| == |s| && Digits(d, 58)
  {
    seq(|s|, i requires 0 <= i < |s| => DigitOf(s[i]))
  }

  /** The bytes of a run of '1's followed by the other symbols. */
  function BytesOf(ones: nat, word: string): seq<nat>
    requires InAlphabet(word)
  {
    Zeros(ones) + ToDigits(Value(DigitsOf(word), 58), 256)
  }

  /** DecodeBase58: the string without surrounding space, if it is in the alphabet and short enough. */
  function Decoded(str: string, maxRetLen: int): Option<seq<nat>> {
    var s := str[LeadingSpaces(str)..];
    var ones := LeadingOnes(s);
    var rest := s[ones..];
    var n := LeadingWord(rest);
    if exists i | 0 <= i < |str| :: str[i] as int == 0 then None
    else DecodedParts(ones, rest[..n], rest[n..], maxRetLen)
  }

  function DecodedParts(ones: nat, word: string, tail: string, maxRetLen: int): Option<seq<nat>> {
    if !InAlphabet(word) || LeadingSpaces(tail) < |tail| then None
    else if (ones > 0 || word != []) && |BytesOf(ones, word)| > maxRetLen then None
    else Some(BytesOf(ones, word))
  }

  lemma {:induction false} PartsRefused(ones: nat, word: string, tail: string, maxRetLen: int)
    ensures LeadingSpaces(tail) < |tail| ==> DecodedParts(ones, word, tail, maxRetLen) == None
    ensures ones > 0 && ones > maxRetLen ==> DecodedParts(ones, word, tail, maxRetLen) == None
    ensures !(InAlphabet(word) && (word == [] || ones + |ToDigits(Value(DigitsOf(word), 58), 256)| <= maxRetLen))
      ==> DecodedParts(ones, word, tail, maxRetLen) == None
  {
    hide Value, ToDigits, InAlphabet, DigitsOf, LeadingSpaces;
  }

  lemma {:induction false} PartsTaken(ones: nat, word: string, tail: string, maxRetLen: int)
    requires InAlphabet(word) && (word == [] || ones + |ToDigits(Value(DigitsOf(word), 58), 256)| <= maxRetLen)
    requires LeadingSpaces(tail) == |tail| && (ones == 0 || ones <= maxRetLen)
    ensures DecodedParts(ones, word, tail, maxRetLen) == Some(Zeros(ones) + ToDigits(Value(DigitsOf(word), 58), 256))
  {
    NoDigits(word);
    hide Value, ToDigits, InAlphabet, DigitsOf, LeadingSpaces;
  }

  lemma {:induction false} DigitsLength(n: nat, base: nat)
    requires base > 1
    ensures |ToDigits(n, base)| == if n == 0 then 0 else |ToDigits(Quo(n, base), base)| + 1
  {
    hide Quo, Rem;
  }

  lemma {:induction false} DigitsMonotone(m: nat, n: nat, base: nat)
    requires base > 1 && m <= n
    ensures |ToDigits(m, base)| <= |ToDigits(n, base)|
    decreases n
  {
    hide Quo, Rem, ToDigits;
    DigitsLength(m, base);
    DigitsLength(n, base);
    if m > 0 {
      QuoMonotone(m, n, base);
      DigitsMonotone(Quo(m, base), Quo(n, base), base);
    }
  }

  /** More symbols never give fewer bytes. */
  lemma {:induction false} PrefixIsShorter(d: seq<nat>, i: nat, from: nat, to: nat)
    requires i <= |d| && from > 0 && to > 1
    ensures |ToDigits(Value(d[..i], from), to)| <= |ToDigits(Value(d, from), to)|
  {
    hide ToDigits;
    assert d == d[..i] + d[i..];
    ValueAppend(d[..i], d[i..], from);
    MulMono(Value(d[..i], from), Value(d[..i], from), 1, Pow(from, |d| - i));
    DigitsMonotone(Value(d[..i], from), Value(d, from), to);
  }

  method CountSpaces(s: string) returns (n: nat)
    ensures n == LeadingSpaces(s)
  {
    n := 0;
    while n < |s| && IsSpace(s[n])
      invariant 0 <= n <= |s| && forall i | 0 <= i < n :: IsSpace(s[i])
    {
      n := n + 1;
    }
  }

  /** Count the '1's, giving up when there are too many. */
  method CountOnes(s: string, maxRetLen: int) returns (ok: bool, zeroes: nat)
    ensures ok <==> LeadingOnes(s) == 0 || LeadingOnes(s) <= maxRetLen
    ensures ok ==> zeroes == LeadingOnes(s)
  {
    zeroes := 0;
    while zeroes < |s| && s[zeroes] == '1'
      invariant 0 <= zeroes <= |s| && (zeroes == 0 || zeroes <= maxRetLen) && forall i | 0 <= i < zeroes :: s[i] == '1'
    {
      zeroes := zeroes + 1;
      if zeroes > maxRetLen { return false, zeroes; }
    }
    return true, zeroes;
  }

  lemma {:induction false} WordStep(s: string, i: nat, size: nat)
    requires i < |s| && InAlphabet(s[..i]) && DigitOf(s[i]) >= 0 && Pow(58, |s|) <= Pow(256, size)
    ensures InAlphabet(s[..i + 1]) && DigitsOf(s[..i + 1]) == DigitsOf(s[..i]) + [DigitOf(s[i])]
    ensures Value(DigitsOf(s[..i + 1]), 58) == 58 * Value(DigitsOf(s[..i]), 58) + DigitOf(s[i]) < Pow(256, size)
  {
    hide DigitOf;
    var d := DigitsOf(s[..i + 1]);
    assert d == DigitsOf(s[..i]) + [DigitOf(s[i])];
    PowGrows(58, i + 1, |s|);
    PrefixFits(d, i, 58, 256, size);
    assert d[..i + 1] == d && d[..i] == DigitsOf(s[..i]);
  }

  lemma {:induction false} WordPrefix(s: string, i: nat)
    requires i <= LeadingWord(s) && InAlphabet(s[..LeadingWord(s)])
    ensures InAlphabet(s[..i])
    ensures |ToDigits(Value(DigitsOf(s[..i]), 58), 256)| <= |ToDigits(Value(DigitsOf(s[..LeadingWord(s)]), 58), 256)|
  {
    hide DigitOf, ToDigits, Value, LeadingWord;
    var w := LeadingWord(s);
    assert s[..w][..i] == s[..i];
    assert DigitsOf(s[..w])[..i] == DigitsOf(s[..i]);
    PrefixIsShorter(DigitsOf(s[..w]), i, 58, 256);
  }

  /** The symbols up to the next space, giving up at a bad one or when there are too many bytes. */
  method ReadWord(s: string, zeroes: nat, maxRetLen: int) returns (ok: bool, a: array<nat>, length: nat, i: nat)
    ensures var word := s[..LeadingWord(s)];
      ok <==> InAlphabet(word) && (word == [] || zeroes + |ToDigits(Value(DigitsOf(word), 58), 256)| <= maxRetLen)
    ensures ok ==>
      && i == LeadingWord(s) && InAlphabet(s[..i])
      && Normal(a[..], 256, length) && Value(a[..], 256) == Value(DigitsOf(s[..i]), 58)
  {
    hide Pow, Value, ToDigits, DigitOf, Normal, LeadingWord;
    SymbolsFit(|s|);
    var size := |s| * 733 / 1000 + 1;
    a := new nat[size](i => 0);
    length := 0;
    FreshBuffer(a[..], s);
    i := 0;
    while i < |s| && !IsSpace(s[i])
      invariant 0 <= i <= |s| && a.Length == size && fresh(a) && InAlphabet(s[..i]) && forall j | 0 <= j < i :: !IsSpace(s[j])
      invariant Normal(a[..], 256, length) && Value(a[..], 256) == Value(DigitsOf(s[..i]), 58)
      invariant i > 0 ==> zeroes + length <= maxRetLen
    {
      var ch := DigitOf(s[i]);
      if ch < 0 {
        assert !InAlphabet(s[..LeadingWord(s)]) by { assert s[..LeadingWord(s)][i] == s[i]; }
        return false, a, length, i;
      }
      WordStep(s, i, size);
      length := MulAdd(a, 256, 58, ch, length);
      i := i + 1;
      NormalLength(a[..], 256, length);
      if length + zeroes > maxRetLen {
        if InAlphabet(s[..LeadingWord(s)]) { WordPrefix(s, i); }
        return false, a, length, i;
      }
    }
    assert i == LeadingWord(s);
    NormalLength(a[..], 256, length);
    return true, a, length, i;
  }

  lemma {:induction false} FreshBuffer(a: seq<nat>, s: string)
    requires forall i | 0 <= i < |a| :: a[i] == 0
    ensures Normal(a, 256, 0) && Value(a, 256) == Value(DigitsOf(s[..0]), 58)
  {
    ValueZero(a, 256);
    assert DigitsOf(s[..0]) == [];
  }

  lemma {:induction false} NormalLength(a: seq<nat>, base: nat, length: nat)
    requires base > 1 && Normal(a, base, length)
    ensures |ToDigits(Value(a, base), base)| == length
  {
    hide Value, ToDigits;
    NormalTail(a, base, length);
  }

  lemma {:induction false} LastBytes(a: seq<nat>, length: nat)
    requires Normal(a, 256, length)
    ensures length <= |a| && a[|a| - length..] == ToDigits(Value(a, 256), 256)
  {
    hide Value, ToDigits;
    NormalTail(a, 256, length);
  }

  lemma {:induction false} NoDigits(word: string)
    requires InAlphabet(word)
    ensures word == [] ==> ToDigits(Value(DigitsOf(word), 58), 256) == []
  {
  }

  method DecodeBase58(str: string, maxRetLen: int) returns (r: Option<seq<nat>>)
    ensures r == Decoded(str, maxRetLen)
  {
    hide Value, ToDigits, InAlphabet, DigitsOf, LeadingSpaces, LeadingOnes, LeadingWord, Normal, IsSpace, DecodedParts, Zeros;
    if exists i | 0 <= i < |str| :: str[i] as int == 0 { return None; }
    var n := CountSpaces(str);
    var s := str[n..];
    ghost var ones := LeadingOnes(s);
    ghost var w := LeadingWord(s[ones..]);
    PartsRefused(ones, s[ones..][..w], s[ones..][w..], maxRetLen);
    var ok, zeroes := CountOnes(s, maxRetLen);
    if !ok { return None; }
    var rest := s[zeroes..];
    var fits, a, length, i := ReadWord(rest, zeroes, maxRetLen);
    if !fits { return None; }
    var tail := rest[i..];
    var spaces := CountSpaces(tail);
    if spaces < |tail| { return None; }
    PartsTaken(zeroes, rest[..i], tail, maxRetLen);
    LastBytes(a[..], length);
    assert a[a.Length - length..] == a[..][a.Length - length..];
    return Some(Zeros(zeroes) + a[a.Length - length..]);
  }

  // ---------- Round trips ----------

  lemma {:induction false} LettersInAlphabet(d: seq<nat>)
    requires Digits(d, 58)
    ensures InAlphabet(Letters(d)) && DigitsOf(Letters(d)) == d && LeadingWord(Letters(d)) == |d|
    ensures forall i | 0 <= i < |d| :: Letters(d)[i] as int != 0
    ensures d != [] && d[0] != 0 ==> Letters(d)[0] != '1'
  {
    hide Letter, DigitOf, IsSpace, LeadingWord;
    forall i | 0 <= i < |d|
      ensures DigitOf(Letter(d[i])) == d[i] && !IsSpace(Letter(d[i])) && Letter(d[i]) as int != 0
        && (Letter(d[i]) == '1' <==> d[i] == 0)
    {
      LetterDigit(Letter(d[i]), d[i]);
      LettersAreNoSpaces(d[i]);
    }
  }

  lemma {:induction false} SplitBytes(b: seq<nat>)
    requires Digits(b, 256)
    ensures Zeros(LeadingZeros(b)) + ToDigits(Value(b, 256), 256) == b
  {
    hide LeadingZeros, ToDigits, Value;
    var z := LeadingZeros(b);
    ValueOfTail(b, z, 256);
    DigitsOfValue(b[z..], 256);
  }

  /** Decode undoes Encode. */
  lemma {:induction false} DecodeEncoded(b: seq<nat>, maxRetLen: int)
    requires Digits(b, 256) && |b| <= maxRetLen
    ensures Decoded(Encoded(b), maxRetLen) == Some(b)
  {
    hide Value, ToDigits, InAlphabet, DigitsOf, LeadingSpaces, LeadingOnes, LeadingWord, LeadingZeros, Letters, Digits;
    var z, v := LeadingZeros(b), Value(b, 256);
    var d := ToDigits(v, 58);
    var str := Encoded(b);
    LettersInAlphabet(d);
    LettersLength(d);
    ValueOfDigits(v, 58);
    OnesThenLetters(z, Letters(d));
    assert str[0..] == str;
    assert Letters(d)[..|d|] == Letters(d) && Letters(d)[|d|..] == [];
    SplitBytes(b);
  }

  lemma {:induction false} LettersLength(d: seq<nat>)
    requires Digits(d, 58)
    ensures |Letters(d)| == |d|
  {
  }

  lemma {:induction false} OnesThenLetters(z: nat, word: string)
    requires word != [] ==> word[0] != '1' && !IsSpace(word[0])
    requires forall i | 0 <= i < |word| :: word[i] as int != 0
    ensures var s := Ones(z) + word;
      LeadingSpaces(s) == 0 && LeadingOnes(s) == z && s[z..] == word && LeadingSpaces([]) == 0
      && !exists i | 0 <= i < |s| :: s[i] as int == 0
  {
    hide LeadingOnes, LeadingSpaces;
    var s := Ones(z) + word;
    var n := LeadingOnes(s);
    assert forall i | 0 <= i < z :: s[i] == '1';
    assert z < |s| ==> s[z] == word[0];
    assert |s| > 0 ==> !IsSpace(s[0]);
  }

  /** The string without the space around it. */
  function Trimmed(str: string): string {
    var s := str[LeadingSpaces(str)..];
    var rest := s[LeadingOnes(s)..];
    s[..LeadingOnes(s)] + rest[..LeadingWord(rest)]
  }

  /** Encode undoes Decode, up to surrounding space. */
  lemma {:induction false} EncodeDecoded(str: string, maxRetLen: int)
    requires Decoded(str, maxRetLen).Some?
    ensures Encoded(Decoded(str, maxRetLen).value) == Trimmed(str)
    ensures Digits(Decoded(str, maxRetLen).value, 256)
  {
    hide Value, ToDigits, LeadingSpaces, LeadingWord, LeadingZeros, Letters, DigitsOf, InAlphabet, DigitOf,
         LeadingOnes, Encoded;
    var s := str[LeadingSpaces(str)..];
    var ones := LeadingOnes(s);
    var rest := s[ones..];
    var word := rest[..LeadingWord(rest)];
    FirstIsNoOne(s);
    EncodeBytes(ones, word);
    assert s[..ones] == Ones(ones);
  }

  lemma {:induction false} NothingToTrim(str: string)
    requires forall i | 0 <= i < |str| :: !IsSpace(str[i])
    ensures Trimmed(str) == str
  {
    hide LeadingOnes, LeadingWord, IsSpace;
    assert str != [] ==> !IsSpace(str[0]);
    assert str[0..] == str;
    var rest := str[LeadingOnes(str)..];
    assert LeadingWord(rest) == |rest|;
  }

  lemma {:induction false} FirstIsNoOne(s: string)
    ensures var rest := s[LeadingOnes(s)..];
      var word := rest[..LeadingWord(rest)];
      word != [] ==> word[0] != '1'
  {
    hide LeadingOnes, LeadingWord;
  }

  lemma {:induction false} EncodeBytes(ones: nat, word: string)
    requires InAlphabet(word) && (word != [] ==> word[0] != '1')
    ensures Encoded(BytesOf(ones, word)) == Ones(ones) + word && Digits(BytesOf(ones, word), 256)
  {
    hide Value, ToDigits, LeadingZeros, Letters, DigitsOf, InAlphabet, DigitOf;
    var d := DigitsOf(word);
    var v := Value(d, 58);
    var b := BytesOf(ones, word);
    WordDigits(word);
    DigitsOfValue(d, 58);
    ValueOfDigits(v, 256);
    ValueOfTail(b, ones, 256);
    assert b[ones..] == ToDigits(v, 256);
    ZerosThen(ones, ToDigits(v, 256));
  }

  lemma {:induction false} WordDigits(word: string)
    requires InAlphabet(word)
    ensures Letters(DigitsOf(word)) == word && (word != [] && word[0] != '1' ==> DigitsOf(word)[0] != 0)
  {
    hide Letter, DigitOf;
    forall i | 0 <= i < |word| ensures Letter(DigitOf(word[i])) == word[i] {
      LetterDigit(word[i], DigitOf(word[i]));
    }
    if word != [] {
      LettersAreNoSpaces(DigitOf(word[0]));
    }
  }

  lemma {:induction false} ZerosThen(n: nat, t: seq<nat>)
    requires t != [] ==> t[0] != 0
    ensures LeadingZeros(Zeros(n) + t) == n
  {
    hide LeadingZeros;
    var b := Zeros(n) + t;
    assert forall i | 0 <= i < n :: b[i] == 0;
    assert n < |b| ==> b[n] == t[0];
  }
}
