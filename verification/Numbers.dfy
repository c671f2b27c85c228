/** The number renderings of os/printf.c:15-81 and what they mean. */
module Numbers {
  import opened Hart

  /** long has the width of a register. */
  function LongMin(a: Arch): int { if a.RV32? then -0x8000_0000 else -0x8000_0000_0000_0000 }

  predicate IsLong(a: Arch, v: int) { LongMin(a) <= v < -LongMin(a) }

  predicate IsInt(v: int) { -0x8000_0000 <= v < 0x8000_0000 }

  // ---------------------------------------------------------------- decimal

  /** C's division by 10 and its remainder, which truncate toward zero. */
  function Quot(v: int): int { if v < 0 then -(-v / 10) else v / 10 }

  function Rem(v: int): (r: int)
    ensures -9 <= r <= 9
  {
    if v < 0 then -(-v % 10) else v % 10
  }

  /** '0' + d, as a char. */
  function DigitChar(d: int): (c: char)
    requires -9 <= d <= 15
  {
    ((48 + d) as char)
  }

  function Magnitude(v: int): nat { if v < 0 then -v else v }

  /** Digits from the right until nothing is left; 0 has none. */
  function DigitsOf(v: int): (t: string)
    decreases Magnitude(v)
  {
    if v == 0 then "" else DigitsOf(Quot(v)) + [DigitChar(Rem(v))]
  }

  /** -num in a long: the least long has no negative, and the subtraction wraps around. */
  function Negated(a: Arch, v: int): int { if v == LongMin(a) then v else -v }

  /** %d and %ld. */
  function Decimal(a: Arch, v: int): string {
    if v < 0 then "-" + DigitsOf(Negated(a, v)) else DigitsOf(v)
  }

  function Fold(t: string): int {
    if t == "" then 0 else 10 * Fold(t[..|t| - 1]) + (t[|t| - 1] as int - 48)
  }

  /** Reads a number back: an optional sign, then digits. */
  function Parse(t: string): int {
    if t != "" && t[0] == '-' then -Fold(t[1..]) else Fold(t)
  }

  predicate IsDigit(c: char) { '0' <= c <= '9' }

  predicate AllDigits(t: string) { forall i :: 0 <= i < |t| ==> IsDigit(t[i]) }

  lemma {:induction false} FoldDigits(v: int)
    ensures Fold(DigitsOf(v)) == v
    decreases Magnitude(v)
  {
    if v != 0 {
      FoldDigits(Quot(v));
      var t := DigitsOf(v);
      assert t[..|t| - 1] == DigitsOf(Quot(v));
    }
  }

  lemma {:induction false} DigitsOfNat(v: nat)
    ensures AllDigits(DigitsOf(v))
    ensures v > 0 ==> DigitsOf(v) != "" && DigitsOf(v)[0] != '0'
    decreases v
  {
    if v != 0 {
      DigitsOfNat(v / 10);
    }
  }

  /** The digits of a negative number are characters at or below '0'. */
  lemma {:induction false} DigitsOfNegative(v: int)
    requires v < 0
    ensures DigitsOf(v) != "" && DigitsOf(v)[0] < '0'
    ensures forall i :: 0 <= i < |DigitsOf(v)| ==> DigitsOf(v)[i] <= '0'
    decreases -v
  {
    if Quot(v) < 0 {
      DigitsOfNegative(Quot(v));
    }
  }

  /** %d can be read back, exactly for every number but the least long, whose negation wraps
      around: that one renders as a sign and characters that are not digits. */
  lemma DecimalInvertible(a: Arch, v: int)
    requires IsLong(a, v)
    ensures Parse(Decimal(a, v)) == v <==> v != LongMin(a)
    ensures AllDigits(Decimal(a, v)[if v < 0 then 1 else 0..]) <==> v != LongMin(a)
  {
    if v < 0 {
      var n := Negated(a, v);
      assert Decimal(a, v)[1..] == DigitsOf(n);
      FoldDigits(n);
      if v == LongMin(a) {
        DigitsOfNegative(n);
        assert !IsDigit(DigitsOf(n)[0]);
      } else {
        DigitsOfNat(n);
      }
    } else {
      FoldDigits(v);
      DigitsOfNat(v);
      assert Decimal(a, v)[0..] == DigitsOf(v);
    }
  }

  /** No leading zero, and 0 is the empty string. */
  lemma DecimalCanonical(a: Arch, v: int)
    requires IsLong(a, v) && v != LongMin(a)
    ensures Decimal(a, v) == "" <==> v == 0
    ensures v != 0 ==> var t := Decimal(a, v)[if v < 0 then 1 else 0..]; t != "" && t[0] != '0'
  {
    if v < 0 {
      DigitsOfNat(-v);
      assert Decimal(a, v)[1..] == DigitsOf(-v);
    } else {
      DigitsOfNat(v);
    }
  }

  lemma ParseDecimal(a: Arch, v: int)
    requires IsLong(a, v)
    ensures Parse(Decimal(a, v)) == if v == LongMin(a) then -v else v
  {
    DecimalInvertible(a, v);
    if v == LongMin(a) {
      FoldDigits(v);
      assert Decimal(a, v)[1..] == DigitsOf(v);
    }
  }

  /** Two longs never render alike. */
  lemma DecimalInjective(a: Arch, v: int, w: int)
    requires IsLong(a, v) && IsLong(a, w) && Decimal(a, v) == Decimal(a, w)
    ensures v == w
  {
    ParseDecimal(a, v);
    ParseDecimal(a, w);
  }

  // ---------------------------------------------------------------- hexadecimal

  function Pow16(n: nat): (p: nat)
    ensures p > 0
  {
    if n == 0 then 1 else 16 * Pow16(n - 1)
  }

  function HexChar(d: int): char
    requires 0 <= d < 16
  {
    if d < 10 then DigitChar(d) else (97 + d - 10) as char
  }

  /** The lowest w hexadecimal digits of the two's complement of v, highest first. */
  function Hex(v: int, w: nat): (t: string)
    ensures |t| == w
    decreases w
  {
    if w == 0 then "" else Hex(v / 16, w - 1) + [HexChar(v % 16)]
  }

  function HexValue(c: char): int { if c < 'a' then c as int - 48 else c as int - 87 }

  function HexFold(t: string): int {
    if t == "" then 0 else 16 * HexFold(t[..|t| - 1]) + HexValue(t[|t| - 1])
  }

  lemma MulAtLeast(m: int, k: int)
    requires m > 0 && k >= 1
    ensures m * k >= m
  {
  }

  lemma MulMinus(m: int, s: int, t: int)
    ensures m * s - m * t == m * (s - t)
  {
  }

  /** Quotient and remainder are unique. */
  lemma DivisionUnique(m: int, s: int, r: int, t: int, u: int)
    requires 0 <= r < m && 0 <= u < m && m * s + r == m * t + u
    ensures s == t && r == u
  {
    if s > t {
      MulMinus(m, s, t);
      MulAtLeast(m, s - t);
    } else if t > s {
      MulMinus(m, t, s);
      MulAtLeast(m, t - s);
    }
  }

  lemma Division(v: int, m: int)
    requires m > 0
    ensures v == m * (v / m) + v % m
  {
  }

  lemma DivisionIs(v: int, m: int, s: int, r: int)
    requires 0 <= r < m && v == m * s + r
    ensures v / m == s && v % m == r
  {
    Division(v, m);
    DivisionUnique(m, s, r, v / m, v % m);
  }

  /** Dividing by 16 and then by m is dividing by 16 * m. */
  lemma DivideTwice(v: int, m: int)
    requires m > 0
    ensures v / (16 * m) == v / 16 / m && v % (16 * m) == 16 * (v / 16 % m) + v % 16
  {
    var q, r := v / 16, v % 16;
    var s, t := q / m, q % m;
    Division(q, m);
    assert 16 * (m * s) == 16 * m * s;
    DivisionIs(v, 16 * m, s, 16 * t + r);
  }

  /** %x folds back to the two's-complement bit pattern. */
  lemma {:induction false} HexInvertible(v: int, w: nat)
    ensures HexFold(Hex(v, w)) == v % Pow16(w)
    decreases w
  {
    if w > 0 {
      HexInvertible(v / 16, w - 1);
      DivideTwice(v, Pow16(w - 1));
      var t := Hex(v, w);
      assert t[..w - 1] == Hex(v / 16, w - 1);
      assert HexValue(t[w - 1]) == v % 16;
    }
  }

  /** Numbers of one width, 8 digits for an int and 2 * sizeof(long) for a long, never render
      alike. */
  lemma HexInjective(v: int, w: int, n: nat)
    requires Hex(v, n) == Hex(w, n)
    requires var half := Pow16(n) / 2; -half <= v < half && -half <= w < half
    ensures v == w
  {
    HexInvertible(v, n);
    HexInvertible(w, n);
    var p := Pow16(n);
    Division(v, p);
    Division(w, p);
    var j, k := v / p, w / p;
    if j > k {
      MulMinus(p, j, k);
      MulAtLeast(p, j - k);
    } else if k > j {
      MulMinus(p, k, j);
      MulAtLeast(p, k - j);
    }
  }

  /** The shift that printf uses for the digit at position i from the right. */
  lemma {:induction false} HexAt(v: int, w: nat, i: nat)
    requires i < w
    ensures Hex(v, w)[w - 1 - i] == HexChar(v / Pow16(i) % 16)
    decreases w
  {
    if i > 0 {
      HexAt(v / 16, w - 1, i - 1);
      DivideTwice(v, Pow16(i - 1));
    }
  }
}
