/** Decimal output and input of words. */
module Decimal {
  import opened Words
  import opened Division

  const ZERO: Byte := 0x30

  function Add(x: Word, y: Word): Word {
    Wrap(x as int + y as int)
  }

  /** The value of decimal digits, most significant first. */
  function ValueOf(digits: seq<Byte>): int {
    if digits == [] then 0 else 10 * ValueOf(digits[..|digits| - 1]) + (digits[|digits| - 1] - ZERO)
  }

  predicate IsDigits(text: seq<Byte>) {
    forall i :: 0 <= i < |text| ==> ZERO <= text[i] <= ZERO + 9
  }

  /** The recursive output: the quotient's digits first, nothing for zero. */
  method PrintDigits(n: Word) returns (out: seq<Byte>)
    ensures IsDigits(out) && ValueOf(out) == n && (n == 0 ==> out == [])
    ensures n > 0 ==> out != [] && out[0] != '0' as int
    decreases n
  {
    if n == 0 { return []; }
    DividedExactly(10, n);
    var d := Divided(10, n);
    var front := PrintDigits(d.q);
    out := front + [d.r + ZERO];
    assert out[..|front|] == front;
  }

  /** The digits from '0' to '9' of the number, without leading zeros. */
  method PrintInt(n: Word) returns (out: seq<Byte>)
    ensures IsDigits(out) && out != [] && ValueOf(out) == n
    ensures (forall i :: 0 <= i < |out| ==> '0' as int <= out[i] <= '9' as int) && (|out| > 1 ==> out[0] != '0' as int)
  {
    if n == 0 { return [ZERO]; }
    out := PrintDigits(n);
  }

  /** The digit's value, or a word that looks negative. */
  function DigitOf(c: Byte): (d: Word)
    ensures d < 0x8000 <==> ZERO <= c <= ZERO + 9
    ensures d < 0x8000 ==> d == c - ZERO
  {
    var d := Wrap(c - ZERO);
    var distance := Wrap(9 - d);
    if distance >= 0x8000 then distance else Wrap(9 - distance)
  }

  /** The number of a null-terminated text modulo 2^16; 0xFFFF as soon as a character is not a digit. */
  method ParseInt(text: seq<Byte>) returns (num: Word)
    requires forall i :: 0 <= i < |text| ==> text[i] != 0
    ensures num == if IsDigits(text) then Wrap(ValueOf(text)) else 0xFFFF
  {
    num := 0;
    for i := 0 to |text|
      invariant IsDigits(text[..i]) && num == Wrap(ValueOf(text[..i]))
    {
      var d := DigitOf(text[i]);
      if d >= 0x8000 {
        return 0xFFFF;
      }
      assert text[..i + 1][..i] == text[..i] && text[..i + 1][i] == text[i];
      TimesTen(num, ValueOf(text[..i]), d);
      var four := Add(Add(num, num), Add(num, num));
      var ten := Add(Add(four, num), Add(four, num));
      num := Add(ten, d);
    }
    assert text[..|text|] == text;
  }

  /** Shifting twice, adding and shifting again is multiplying by ten, also when it wraps. */
  lemma TimesTen(num: Word, value: int, d: Word)
    requires num == Wrap(value)
    ensures var four := Add(Add(num, num), Add(num, num));
            Add(Add(Add(four, num), Add(four, num)), d) == Wrap(10 * value + d)
  {
    hide Wrap;
    AddWraps(num, num, value, value);
    var two := Add(num, num);
    AddWraps(two, two, 2 * value, 2 * value);
    var four := Add(two, two);
    AddWraps(four, num, 4 * value, value);
    var five := Add(four, num);
    AddWraps(five, five, 5 * value, 5 * value);
    Short(d);
    AddWraps(Add(five, five), d, 10 * value, d);
  }

  lemma AddWraps(x: Word, y: Word, m: int, n: int)
    requires x == Wrap(m) && y == Wrap(n)
    ensures Add(x, y) == Wrap(m + n)
  {
    hide Wrap;
    WrapInner(x, n);
    WrapInner(n, m);
  }

  lemma Short(d: Word)
    ensures Wrap(d) == d
  {
  }

  /** Printing and parsing undo each other for every word. */
  method PrintThenParse(n: Word) returns (m: Word)
    ensures m == n
  {
    var text := PrintInt(n);
    m := ParseInt(text);
  }
}
