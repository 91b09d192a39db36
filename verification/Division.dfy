/** Shift-and-subtract division and shift-and-add multiplication on words: what the loops of the library compute. */
module Division {
  import opened Words

  /** Remaining dividend bits, quotient and remainder. */
  datatype Div = Div(q: Word, r: Word, b: Word)

  /** One round: the next dividend bit joins the remainder; the divisor is taken off unless the difference looks negative. */
  function Round(a: Word, d: Div): Div {
    var r := if d.b >= 0x8000 then Wrap(Wrap(d.r + d.r) + 1) else Wrap(d.r + d.r);
    var b := Wrap(d.b + d.b);
    if Wrap(r - a) >= 0x8000 then Div(Wrap(d.q + d.q), r, b)
    else Div(Wrap(Wrap(d.q + d.q) + 1), Wrap(r - a), b)
  }

  function Rounds(a: Word, d: Div, n: nat): Div
    decreases n
  {
    if n == 0 then d else Rounds(a, Round(a, d), n - 1)
  }

  /** What the routine returns: no rounds at all for a zero dividend. */
  function Divided(a: Word, b: Word): Div {
    if b == 0 then Div(0, 0, 0) else Rounds(a, Div(0, 0, b), 16)
  }

  function Pow2(n: nat): (p: nat)
    ensures p >= 1
  {
    if n == 0 then 1 else 2 * Pow2(n - 1)
  }

  lemma {:induction false} PowSplit(m: nat, n: nat)
    ensures Pow2(m) * Pow2(n) == Pow2(m + n)
  {
    if m > 0 { PowSplit(m - 1, n); }
  }

  lemma SixteenBits()
    ensures Pow2(16) == 0x1_0000 && Pow2(15) == 0x8000
  {
    assert Pow2(4) == 16;
    PowSplit(4, 4);
    PowSplit(8, 8);
    PowSplit(8, 4);
    PowSplit(12, 3);
  }

  /** x is the number already shifted in, low the number whose bits are still at the top of b. */
  predicate SplitAt(dividend: Word, x: nat, b: Word, left: nat, low: nat) {
    left <= 16 && b == low * Pow2(16 - left) && low < Pow2(left) && dividend == x * Pow2(left) + low
  }

  ghost predicate Split(dividend: Word, x: nat, b: Word, left: nat) {
    exists low: nat :: SplitAt(dividend, x, b, left, low)
  }

  /** Shifting one more bit in. */
  lemma SplitNext(dividend: Word, x: nat, b: Word, left: nat)
    requires Split(dividend, x, b, left) && left > 0
    ensures Split(dividend, 2 * x + (if b >= 0x8000 then 1 else 0), Wrap(b + b), left - 1)
  {
    var low: nat :| SplitAt(dividend, x, b, left, low);
    var half, unit := Pow2(left - 1), Pow2(16 - left);
    assert Pow2(left) == 2 * half && Pow2(17 - left) == 2 * unit;
    SixteenBits();
    PowSplit(left - 1, 16 - left);
    assert half * unit == 0x8000;
    if low >= half {
      HighBit(low, half, unit, b);
      var low' := low - half;
      assert Wrap(b + b) == low' * (2 * unit) by { Doubled(low, half, unit, b); }
      assert dividend == (2 * x + 1) * half + low' by { Doubling(x, half); }
      assert SplitAt(dividend, 2 * x + 1, Wrap(b + b), left - 1, low');
    } else {
      LowBit(low, half, unit, b);
      assert Wrap(b + b) == low * (2 * unit) by { Twice(low, unit, b); }
      assert dividend == (2 * x) * half + low by { Doubling(x, half); }
      assert SplitAt(dividend, 2 * x, Wrap(b + b), left - 1, low);
    }
  }

  lemma Doubling(x: nat, half: nat)
    ensures (2 * x + 1) * half == x * (2 * half) + half && (2 * x) * half == x * (2 * half)
  {
  }

  lemma HighBit(low: nat, half: nat, unit: nat, b: Word)
    requires half * unit == 0x8000 && b == low * unit && low >= half
    ensures b >= 0x8000
  {
    assert low * unit == half * unit + (low - half) * unit;
  }

  lemma LowBit(low: nat, half: nat, unit: nat, b: Word)
    requires half * unit == 0x8000 && b == low * unit && low < half && unit >= 1
    ensures b < 0x8000
  {
    assert half * unit == low * unit + (half - low) * unit;
    assert (half - low) * unit >= 1;
  }

  lemma Doubled(low: nat, half: nat, unit: nat, b: Word)
    requires half * unit == 0x8000 && b == low * unit && low >= half && b >= 0x8000
    ensures Wrap(b + b) == (low - half) * (2 * unit)
  {
    assert (low - half) * (2 * unit) == 2 * (low * unit) - 2 * (half * unit);
  }

  lemma Twice(low: nat, unit: nat, b: Word)
    requires b == low * unit && b < 0x8000
    ensures Wrap(b + b) == low * (2 * unit)
  {
    assert low * (2 * unit) == 2 * (low * unit);
  }

  lemma MulAtLeast(m: nat, n: nat)
    requires n >= 1
    ensures m * n >= m
  {
  }

  lemma Unique(a: nat, q: nat, r: nat, q': nat, r': nat)
    requires q * a + r == q' * a + r' && r < a && r' < a && q <= q'
    ensures q == q' && r == r'
  {
    assert (q' - q) * a == q' * a - q * a;
    if q < q' { MulAtLeast(a, q' - q); }
  }

  /** Quotient and remainder are unique. */
  lemma DivisionUnique(x: nat, a: nat, q: nat, r: nat)
    requires a > 0 && x == q * a + r && r < a
    ensures q == x / a && r == x % a
  {
    var q', r' := x / a, x % a;
    assert x == q' * a + r';
    if q <= q' { Unique(a, q, r, q', r'); } else { Unique(a, q', r', q, r); }
  }

  /** While the sign test is faithful, q and r divide the bits shifted in so far. */
  predicate Divides(a: Word, x: nat, d: Div) {
    x == d.q * a + d.r && d.r < a
  }

  /** The sign test never goes wrong for these. */
  predicate Faithful(a: Word, x: nat) {
    0 < a <= 0x8000 || (a == 0x8001 && x > 0)
  }

  lemma {:induction false} RoundsDivide(a: Word, dividend: Word, x: nat, d: Div, left: nat)
    requires Faithful(a, x) && Split(dividend, x, d.b, left) && Divides(a, x, d)
    ensures a > 0 && var e := Rounds(a, d, left); e.q == dividend / a && e.r == dividend % a
    decreases left
  {
    hide Round;
    if left == 0 {
      SplitEnd(dividend, x, d.b);
      DivisionUnique(x, a, d.q, d.r);
    } else {
      var x' := 2 * x + if d.b >= 0x8000 then 1 else 0;
      SplitNext(dividend, x, d.b, left);
      SplitBound(dividend, x', Wrap(d.b + d.b), left - 1);
      RoundDivides(a, x, d, x');
      RoundsDivide(a, dividend, x', Round(a, d), left - 1);
    }
  }

  lemma SplitEnd(dividend: Word, x: nat, b: Word)
    requires Split(dividend, x, b, 0)
    ensures dividend == x
  {
    var low: nat :| SplitAt(dividend, x, b, 0, low);
  }

  lemma SplitBound(dividend: Word, x: nat, b: Word, left: nat)
    requires Split(dividend, x, b, left)
    ensures x <= dividend
  {
    var low: nat :| SplitAt(dividend, x, b, left, low);
    MulAtLeast(x, Pow2(left));
  }

  lemma DoubledProduct(q: nat, a: nat)
    ensures (2 * q) * a == 2 * (q * a) && (2 * q + 1) * a == 2 * (q * a) + a
  {
  }

  lemma RoundDivides(a: Word, x: nat, d: Div, x': nat)
    requires Faithful(a, x) && Divides(a, x, d) && x' == 2 * x + (if d.b >= 0x8000 then 1 else 0) && x' < 0x1_0000
    ensures Divides(a, x', Round(a, d)) && Round(a, d).b == Wrap(d.b + d.b)
  {
    var r := x' - 2 * x + 2 * d.r;
    var product := d.q * a;
    DoubledProduct(d.q, a);
    if r < a {
      MulAtLeast(2 * d.q, a);
      LooksNegative(a, x, d, r);
    } else {
      MulAtLeast(2 * d.q + 1, a);
      LooksPositive(a, d, r);
    }
  }

  /** A difference that is negative looks negative. */
  lemma LooksNegative(a: Word, x: nat, d: Div, r: nat)
    requires Faithful(a, x) && r < a && Divides(a, x, d) && 2 * x < 0x1_0000
    requires r == 2 * d.r + (if d.b >= 0x8000 then 1 else 0) && 2 * d.q < 0x1_0000
    ensures Round(a, d) == Div(2 * d.q, r, Wrap(d.b + d.b))
  {
    hide Divides;
    if a == 0x8001 { NoQuotientYet(a, x, d); }
    SmallerLooksNegative(a, r);
  }

  lemma NoneOrLarge(q: nat, a: nat)
    ensures q == 0 || q * a >= a
  {
  }

  lemma NoQuotientYet(a: Word, x: nat, d: Div)
    requires a == 0x8001 && Divides(a, x, d) && 2 * x < 0x1_0000
    ensures d.r == x
  {
    NoneOrLarge(d.q, a);
  }

  lemma SmallerLooksNegative(a: Word, r: nat)
    requires r < a <= 0x8001 && (a == 0x8001 ==> r > 0)
    ensures Wrap(r - a) >= 0x8000
  {
  }

  lemma LooksPositive(a: Word, d: Div, r: nat)
    requires 0 < a <= 0x8001 && a <= r && d.r < a && r < 0x1_0000
    requires r == 2 * d.r + (if d.b >= 0x8000 then 1 else 0) && 2 * d.q + 1 < 0x1_0000
    ensures Round(a, d) == Div(2 * d.q + 1, r - a, Wrap(d.b + d.b))
  {
  }

  /** Once a quotient bit is set it stays, moving up. */
  lemma {:induction false} QuotientGrows(a: Word, d: Div, low: nat, n: nat)
    requires low <= d.q && (d.q + 1) * Pow2(n) <= 0x1_0000
    ensures Rounds(a, d, n).q >= low * Pow2(n)
    decreases n
  {
    hide Round;
    if n > 0 {
      QuotientRoom(d.q, Pow2(n - 1));
      var e := Round(a, d);
      NextQuotient(a, d);
      assert (e.q + 1) * Pow2(n - 1) <= (2 * d.q + 2) * Pow2(n - 1) by { MulOrdered(e.q + 1, 2 * d.q + 2, Pow2(n - 1)); }
      QuotientGrows(a, e, 2 * low, n - 1);
      DoubledProduct(low, Pow2(n - 1));
      DoubledFactor(low, Pow2(n - 1));
    }
  }

  lemma MulOrdered(x: nat, y: nat, k: nat)
    requires x <= y
    ensures x * k <= y * k
  {
  }

  lemma DoubledFactor(x: nat, k: nat)
    ensures x * (2 * k) == 2 * (x * k)
  {
  }

  lemma QuotientRoom(q: nat, half: nat)
    requires half >= 1 && (q + 1) * (2 * half) <= 0x1_0000
    ensures (2 * q + 2) * half <= 0x1_0000 && 2 * q + 2 <= 0x1_0000
  {
    DoubledFactor(q + 1, half);
    DoubledProduct(q + 1, half);
    MulAtLeast(2 * q + 2, half);
  }

  lemma NextQuotient(a: Word, d: Div)
    requires 2 * d.q + 2 <= 0x1_0000
    ensures 2 * d.q <= Round(a, d).q <= 2 * d.q + 1
  {
  }

  /**
   * The routine returns quotient and remainder for every dividend exactly when the divisor is at most 0x8000, and
   * beyond that for zero, and for 0x8001 when the dividend's top bit is set.
   */
  lemma DividedExactly(a: Word, b: Word)
    requires a > 0
    ensures (Divided(a, b).q == b / a && Divided(a, b).r == b % a) <==>
            a <= 0x8000 || b == 0 || (a == 0x8001 && b >= 0x8000)
  {
    hide Round, Rounds;
    if b == 0 {
      DivisionUnique(0, a, 0, 0);
    } else {
      SixteenBits();
      var d := Div(0, 0, b);
      if a <= 0x8000 {
        AllAhead(b);
        RoundsDivide(a, b, 0, d, 16);
      } else {
        LargeDivisor(a, b);
      }
    }
  }

  lemma LargeDivisor(a: Word, b: Word)
    requires a > 0x8000 && b > 0
    ensures var e := Rounds(a, Div(0, 0, b), 16);
            (e.q == b / a && e.r == b % a) <==> a == 0x8001 && b >= 0x8000
  {
    hide Rounds, Round, Split;
    var d := Div(0, 0, b);
    SixteenBits();
    OneRound(a, d, 15);
    FirstRound(a, b);
    if a == 0x8001 && b >= 0x8000 {
      AllAhead(b);
      SplitNext(b, 0, b, 16);
      RoundsDivide(a, b, 1, Round(a, d), 15);
    } else {
      QuotientGrows(a, Round(a, d), 1, 15);
      SmallQuotient(a, b);
    }
  }

  lemma AllAhead(b: Word)
    ensures Split(b, 0, b, 16)
  {
    SixteenBits();
    assert SplitAt(b, 0, b, 16, b);
  }

  /** Beyond 0x8000 the first round already sets a quotient bit, but for 0x8001 below a one. */
  lemma FirstRound(a: Word, b: Word)
    requires a > 0x8000
    ensures Round(a, Div(0, 0, b)) ==
            if a == 0x8001 && b >= 0x8000 then Div(0, 1, Wrap(b + b))
            else Div(1, 0x1_0000 - a + (if b >= 0x8000 then 1 else 0), Wrap(b + b))
  {
  }

  lemma OneRound(a: Word, d: Div, n: nat)
    ensures Rounds(a, d, n + 1) == Rounds(a, Round(a, d), n)
  {
  }

  lemma SmallQuotient(a: Word, b: Word)
    requires a > 0x8000
    ensures b / a <= 1
  {
    if b >= a { DivisionUnique(b, a, 1, b - a); } else { DivisionUnique(b, a, 0, b); }
  }

  // ---------- multiplication ----------

  /** The sum so far, the remaining multiplier and the shifted multiplicand. */
  function Product(c: Word, a: Word, b: Word): Word
    decreases a
  {
    if a == 0 then c else Product(if a % 2 == 1 then Wrap(c + b) else c, a / 2, Wrap(b + b))
  }

  lemma {:induction false} ProductIsSum(c: Word, a: Word, b: Word)
    ensures Product(c, a, b) == Wrap(c + a * b)
    decreases a
  {
    hide Wrap;
    if a == 0 {
      assert Wrap(c) == c by { ShortWrap(c); }
    } else {
      var c' := if a % 2 == 1 then Wrap(c + b) else c;
      ProductIsSum(c', a / 2, Wrap(b + b));
      WrapProduct(a / 2, b + b, c');
      assert (a / 2) * (b + b) == (a - a % 2) * b by { assert a - a % 2 == 2 * (a / 2); DoubledFactor(a / 2, b); DoubledProduct(a / 2, b); }
      assert (a - a % 2) * b == a * b - (a % 2) * b;
      if a % 2 == 1 { WrapInner((a / 2) * (b + b), c + b); }
    }
  }

  lemma ShortWrap(x: Word)
    ensures Wrap(x) == x
  {
  }

  /** Wrapping a factor does not matter to a wrapped sum. */
  lemma WrapProduct(n: nat, x: nat, c: nat)
    ensures Wrap(c + n * Wrap(x)) == Wrap(c + n * x)
  {
    var k := x / 0x1_0000;
    assert Wrap(x) == x - 0x1_0000 * k;
    assert n * (x - 0x1_0000 * k) == n * x - 0x1_0000 * (n * k);
    WrapShift(c + n * x, -(n * k));
  }
}
