/** The in-place Rule 110 update of a ring against the synchronous one. */
module Rule110 {
  import opened Division

  type Bit = x: int | 0 <= x <= 1

  /** The rule's table, indexed by the left, centre and right cell as a three-bit number. */
  function Rule(left: Bit, centre: Bit, right: Bit): Bit {
    var n := 4 * (left as int) + 2 * (centre as int) + right;
    if n == 1 || n == 2 || n == 3 || n == 5 || n == 6 then 1 else 0
  }

  /** The cell's value in the next generation, all neighbours taken from this one. */
  function NextCell(row: seq<Bit>, i: nat): Bit
    requires i < |row|
  {
    var left, right := if i == 0 then row[|row| - 1] else row[i - 1], if i == |row| - 1 then row[0] else row[i + 1];
    Rule(left, row[i], right)
  }

  function NextRow(row: seq<Bit>): (r: seq<Bit>)
    ensures |r| == |row|
  {
    seq(|row|, i requires 0 <= i < |row| => NextCell(row, i))
  }

  /** The three cells, read as a binary number, select the bit of 110 that the cell becomes; the row is a ring. */
  lemma RuleIsItsNumber(row: seq<Bit>, i: nat)
    requires i < |row|
    ensures var left, right := row[if i == 0 then |row| - 1 else i - 1], row[if i + 1 == |row| then 0 else i + 1];
            NextRow(row)[i] == 110 / Pow2(4 * (left as int) + 2 * (row[i] as int) + right) % 2
  {
    hide Pow2;
    var left, right := row[if i == 0 then |row| - 1 else i - 1], row[if i + 1 == |row| then 0 else i + 1];
    assert NextRow(row)[i] == Rule(left, row[i], right);
    TableBits(4 * (left as int) + 2 * (row[i] as int) + right);
  }

  lemma TableBits(n: nat)
    requires n < 8
    ensures 110 / Pow2(n) % 2 == if n == 1 || n == 2 || n == 3 || n == 5 || n == 6 then 1 else 0
  {
    PowersBelow8();
  }

  lemma PowersBelow8()
    ensures Pow2(0) == 1 && Pow2(1) == 2 && Pow2(2) == 4 && Pow2(3) == 8
    ensures Pow2(4) == 16 && Pow2(5) == 32 && Pow2(6) == 64 && Pow2(7) == 128
  {
    assert Pow2(4) == 16;
  }

  function Generations(row: seq<Bit>, n: nat): seq<Bit>
    decreases n
  {
    if n == 0 then row else Generations(NextRow(row), n - 1)
  }

  /** One pass over the row, carrying the overwritten neighbour, the current cell and the first one. */
  method Iterate(row: array<Bit>)
    requires row.Length >= 2
    modifies row
    ensures row[..] == NextRow(old(row[..]))
  {
    hide Rule;
    ghost var was, n := row[..], row.Length;
    var i := row.Length - 1;
    var prev, row0, current := row[row.Length - 1], row[0], row[0];
    var rowi := 0;
    while true
      invariant 0 <= rowi < n - 1 && i == n - 1 - rowi && row0 == was[0] && current == was[rowi]
      invariant prev == if rowi == 0 then was[n - 1] else was[rowi - 1]
      invariant row[..rowi] == NextRow(was)[..rowi] && row[rowi..] == was[rowi..]
      decreases i
    {
      assert row[rowi + 1] == row[rowi..][1] == was[rowi + 1];
      ghost var before := row[..];
      row[rowi] := Rule(prev, current, row[rowi + 1]);
      Advanced(before, row[..], was, rowi);
      prev := current;
      rowi := rowi + 1;
      current := row[rowi];
      i := i - 1;
      if i == 0 { break; }
    }
    row[rowi] := Rule(prev, current, row0);
  }

  /** One more cell of the row is in the next generation. */
  lemma Advanced(before: seq<Bit>, after: seq<Bit>, was: seq<Bit>, k: nat)
    requires k < |was| == |before| && before[..k] == NextRow(was)[..k] && before[k..] == was[k..]
    requires after == before[k := NextCell(was, k)]
    ensures after[..k + 1] == NextRow(was)[..k + 1] && after[k + 1..] == was[k + 1..]
    ensures k + 1 < |was| ==> after[k + 1] == was[k + 1]
  {
    hide NextCell;
    assert after[..k + 1] == before[..k] + [NextCell(was, k)];
    assert NextRow(was)[..k + 1] == NextRow(was)[..k] + [NextCell(was, k)];
    assert after[k + 1..] == before[k..][1..] && was[k + 1..] == was[k..][1..];
    if k + 1 < |was| { assert after[k + 1] == after[k + 1..][0]; }
  }

  /** Any number of passes is that many generations. */
  method Run(row: array<Bit>, iterations: nat)
    requires row.Length >= 2
    modifies row
    ensures row[..] == Generations(old(row[..]), iterations)
  {
    for k := 0 to iterations
      invariant Generations(row[..], iterations - k) == Generations(old(row[..]), iterations)
    {
      Iterate(row);
    }
  }
}
