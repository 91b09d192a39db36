/** Sixteen-bit maps, bit 0 at the top, as the operating system searches and updates them. */
module Bitmaps {
  import opened Words
  import opened Division

  /** The word with these bits, the first one on top. */
  function Value(bits: seq<bool>): nat {
    if bits == [] then 0 else (if bits[0] then Pow2(|bits| - 1) else 0) + Value(bits[1..])
  }

  lemma {:induction false} ValueBound(bits: seq<bool>)
    ensures Value(bits) < Pow2(|bits|)
  {
    if bits != [] { ValueBound(bits[1..]); }
  }

  lemma {:induction false} SetBit(bits: seq<bool>, k: nat)
    requires k < |bits| && !bits[k]
    ensures Value(bits[k := true]) == Value(bits) + Pow2(|bits| - 1 - k)
  {
    if k == 0 {
      assert bits[0 := true][1..] == bits[1..];
    } else {
      assert bits[k := true][1..] == bits[1..][k - 1 := true];
      SetBit(bits[1..], k - 1);
    }
  }

  lemma {:induction false} AllSetIsFull(bits: seq<bool>)
    requires forall k :: 0 <= k < |bits| ==> bits[k]
    ensures Value(bits) == Pow2(|bits|) - 1
  {
    if bits != [] { AllSetIsFull(bits[1..]); }
  }

  /** The map after k left shifts. */
  function Shifted(bits: seq<bool>, k: nat): nat
    requires k <= |bits|
  {
    Value(bits[k..]) * Pow2(k)
  }

  /** Shifting left once more carries out the next bit. */
  lemma ShiftLeft(bits: seq<bool>, k: nat)
    requires |bits| == 16 && k < 16
    ensures Shifted(bits, k) < 0x1_0000
    ensures Wrap(Shifted(bits, k) + Shifted(bits, k)) == Shifted(bits, k + 1)
    ensures Shifted(bits, k) + Shifted(bits, k) >= 0x1_0000 <==> bits[k]
  {
    var rest, unit := bits[k..], Pow2(k);
    SixteenBits();
    PowSplit(15 - k, k);
    ValueBound(rest[1..]);
    assert rest[1..] == bits[k + 1..];
    var tail := Value(rest[1..]);
    assert tail * unit < 0x8000 by { LessProduct(tail, Pow2(15 - k), unit); }
    DoubledFactor(tail, unit);
    Distribute(Pow2(15 - k), tail, unit);
  }

  lemma LessProduct(x: nat, y: nat, k: nat)
    requires x < y && k >= 1
    ensures x * k < y * k
  {
  }

  lemma Distribute(x: nat, y: nat, k: nat)
    ensures (x + y) * k == x * k + y * k && (0 + y) * k == y * k
  {
  }

  lemma Unshifted(bits: seq<bool>)
    ensures Shifted(bits, 0) == Value(bits)
  {
    assert bits[0..] == bits;
  }

  predicate FreeBit(bits: seq<bool>, k: nat) {
    1 <= k < |bits| && !bits[k]
  }

  /**
   * The search loop of both maps: the entry after the first with a clear bit, skipping bit 0, with its mask and its
   * place in steps of `size`.
   */
  method Search(used: Word, start: Word, size: Word, ghost bits: seq<bool>) returns (at: Word, mask: Word, ghost k: nat)
    requires |bits| == 16 && used == Value(bits) && exists j :: FreeBit(bits, j)
    ensures FreeBit(bits, k) && (forall j :: 1 <= j < k ==> bits[j])
    ensures mask == Pow2(15 - k) && at == Wrap(start + k * size)
  {
    hide Wrap, Pow2, Value, Shifted;
    Unshifted(bits);
    ShiftLeft(bits, 0);
    SixteenBits();
    ghost var free :| FreeBit(bits, free);
    var m := Wrap(used + used);
    at, mask, k := start, 0x8000, 0;
    StartPlace(start, size);
    while true
      invariant 0 <= k < free && m == Shifted(bits, k + 1) && mask == Pow2(15 - k) && at == Wrap(start + k * size)
      invariant forall j :: 1 <= j <= k ==> bits[j]
      decreases 16 - k
    {
      ShiftLeft(bits, k + 1);
      HalfPow(15 - k);
      NextPlace(start, k, size);
      mask := mask / 2;
      at := Wrap(at + size);
      k := k + 1;
      var carry := m as int + m as int >= 0x1_0000;
      m := Wrap(m as int + m as int);
      if !carry { break; }
    }
  }

  lemma HalfPow(n: nat)
    requires n > 0
    ensures Pow2(n) / 2 == Pow2(n - 1)
  {
  }

  lemma StartPlace(start: Word, size: Word)
    ensures start == Wrap(start + 0 * size)
  {
  }

  lemma NextPlace(start: Word, k: nat, size: Word)
    ensures Wrap(Wrap(start + k * size) + size) == Wrap(start + (k + 1) * size)
  {
    hide Wrap;
    assert (k + 1) * size == k * size + size;
    WrapInner(size, start + k * size);
  }

  /** A clear bit's mask can be added without a carry out of the word. */
  lemma MaskFits(bits: seq<bool>, k: nat)
    requires |bits| == 16 && k < 16 && !bits[k]
    ensures Value(bits) + Pow2(15 - k) == Value(bits[k := true]) < 0x1_0000 && Value(bits) < 0xFFFF
  {
    SetBit(bits, k);
    ValueBound(bits[k := true]);
    SixteenBits();
  }

  /** A map is full exactly when its word is. */
  lemma FullExactly(bits: seq<bool>)
    requires |bits| == 16 && bits[0]
    ensures Value(bits) < 0x1_0000
    ensures Value(bits) == 0xFFFF <==> forall j :: !FreeBit(bits, j)
  {
    SixteenBits();
    ValueBound(bits);
    if forall j :: !FreeBit(bits, j) {
      assert forall k :: 0 <= k < 16 ==> bits[k] by {
        forall k | 0 <= k < 16 ensures bits[k] { assert k == 0 || !FreeBit(bits, k); }
      }
      AllSetIsFull(bits);
    } else {
      var j :| FreeBit(bits, j);
      MaskFits(bits, j);
    }
  }

  /** The mask loop of exit: the top bit moved down `index` places, at least one. */
  method MaskOf(index: Word) returns (mask: Word)
    requires 1 <= index < 16
    ensures mask == Pow2(15 - index)
  {
    hide Pow2;
    var left := index;
    SixteenBits();
    mask := 0x8000;
    while true
      invariant 1 <= left <= index && mask == Pow2(15 - (index - left))
      decreases left
    {
      HalfPow(15 - (index - left));
      mask := mask / 2;
      left := left - 1;
      if left == 0 { break; }
    }
  }
}
