/** Machine words: bytes and 16-bit words with explicit wrap-around. */
module Words {

  type Byte = x: int | 0 <= x < 0x100
  type Word = x: int | 0 <= x < 0x1_0000

  /** The uint16_t and uint8_t truncations of the simulator. */
  function Wrap(x: int): Word {
    x % 0x1_0000
  }

  function LowByte(x: int): Byte {
    x % 0x100
  }

  function HighByte(w: Word): Byte {
    w / 0x100
  }

  /** A little-endian pair of bytes. */
  function FromBytes(lo: Byte, hi: Byte): Word {
    lo + 0x100 * hi
  }

  lemma BytesRoundTrip(w: Word)
    ensures FromBytes(LowByte(w), HighByte(w)) == w
  {
  }

  lemma WrapShift(x: int, k: int)
    ensures Wrap(x + 0x1_0000 * k) == Wrap(x)
  {
  }

  lemma LowByteShift(x: int, k: int)
    ensures LowByte(x + 0x100 * k) == LowByte(x)
  {
  }

  /** Wrapping an operand before an addition changes nothing. */
  lemma WrapInner(x: int, y: int)
    ensures Wrap(x + Wrap(y)) == Wrap(x + y)
    ensures Wrap(x - Wrap(y)) == Wrap(x - y)
  {
    var k := y / 0x1_0000;
    assert Wrap(y) == y - 0x1_0000 * k;
    WrapShift(x + y, -k);
    WrapShift(x - y, k);
  }

  lemma LowByteInner(x: int, y: int)
    ensures LowByte(x + LowByte(y)) == LowByte(x + y)
    ensures LowByte(x + Wrap(y)) == LowByte(x + y)
    ensures LowByte(x - Wrap(y)) == LowByte(x - y)
  {
    var j := y / 0x100;
    assert LowByte(y) == y - 0x100 * j;
    LowByteShift(x + y, -j);
    var k := y / 0x1_0000;
    assert Wrap(y) == y - 0x1_0000 * k;
    LowByteShift(x + y, -0x100 * k);
    LowByteShift(x - y, 0x100 * k);
  }

  /** Bitwise conjunction of the low `bits` bits. */
  function BitAnd(x: nat, y: nat, bits: nat): (r: nat)
    ensures r <= x
  {
    if bits == 0 then 0
    else 2 * BitAnd(x / 2, y / 2, bits - 1) + (if x % 2 == 1 && y % 2 == 1 then 1 else 0)
  }
}
