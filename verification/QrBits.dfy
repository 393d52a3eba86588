/** Bits and bytes of the QR data stream: what the encoder appends, how bits are packed into
    codewords, and the inverse of each. Bit sequences run from the most significant bit. */
module QrBits {
  import opened Gf256

  type Bits = seq<bool>

  // ---- Numbers ---------------------------------------------------------------------------

  function Pow2(n: nat): (p: nat)
    ensures 0 < p
  {
    if n == 0 then 1 else 2 * Pow2(n - 1)
  }

  /** The low `length` bits of a number. */
  function BitsOf(value: nat, length: nat): (b: Bits)
    ensures |b| == length
  {
    if length == 0 then [] else BitsOf(value / 2, length - 1) + [value % 2 == 1]
  }

  function NatOf(b: Bits): nat {
    if |b| == 0 then 0 else 2 * NatOf(b[..|b| - 1]) + (if b[|b| - 1] then 1 else 0)
  }

  /** Reading a number back from its bits needs the field to be wide enough. */
  lemma {:induction false} NatOfBitsOf(value: nat, length: nat)
    requires value < Pow2(length)
    ensures NatOf(BitsOf(value, length)) == value
  {
    if length > 0 {
      NatOfBitsOf(value / 2, length - 1);
      assert BitsOf(value, length)[..length - 1] == BitsOf(value / 2, length - 1);
    }
  }

  /** `value >>> i`. */
  function ShiftRight(value: nat, i: nat): nat {
    if i == 0 then value else ShiftRight(value, i - 1) / 2
  }

  // ---- Bytes -----------------------------------------------------------------------------

  function ByteBits(y: Byte): (b: Bits)
    ensures |b| == 8
  {
    [Bit(y, 7), Bit(y, 6), Bit(y, 5), Bit(y, 4), Bit(y, 3), Bit(y, 2), Bit(y, 1), Bit(y, 0)]
  }

  /** The bit as the source extracts it. */
  function SourceBit(y: Byte, i: nat): Byte
    requires i < 8
  {
    (y >> i) & 1
  }

  lemma SourceBitIsBit(y: Byte, i: nat)
    requires i < 8
    ensures (SourceBit(y, i) != 0) == Bit(y, i)
    ensures ByteBits(y)[7 - i] == Bit(y, i)
  {
    if i == 0 {} else if i == 1 {} else if i == 2 {} else if i == 3 {}
    else if i == 4 {} else if i == 5 {} else if i == 6 {} else {}
  }

  /** Shift in one bit, as the packing loop does. */
  function ShiftIn(y: Byte, bit: bool): Byte {
    (y << 1) | (if bit then 1 else 0)
  }

  /** The byte whose low bits are `b`. */
  function PackByte(b: Bits): Byte {
    if |b| == 0 then 0 else ShiftIn(PackByte(b[..|b| - 1]), b[|b| - 1])
  }

  lemma ShiftInBit(y: Byte, bit: bool, i: nat)
    requires i < 8
    ensures Bit(ShiftIn(y, bit), i) == if i == 0 then bit else Bit(y, i - 1)
  {
    if bit {
      if i == 0 {} else if i == 1 {} else if i == 2 {} else if i == 3 {}
      else if i == 4 {} else if i == 5 {} else if i == 6 {} else {}
    } else {
      if i == 0 {} else if i == 1 {} else if i == 2 {} else if i == 3 {}
      else if i == 4 {} else if i == 5 {} else if i == 6 {} else {}
    }
  }

  lemma {:induction false} PackByteBit(b: Bits, i: nat)
    requires i < 8 && i < |b|
    ensures Bit(PackByte(b), i) == b[|b| - 1 - i]
  {
    hide Bit, ShiftIn;
    ShiftInBit(PackByte(b[..|b| - 1]), b[|b| - 1], i);
    if i > 0 {
      PackByteBit(b[..|b| - 1], i - 1);
    }
  }

  /** Packing loses nothing. */
  lemma BitsOfPacked(b: Bits)
    requires |b| == 8
    ensures ByteBits(PackByte(b)) == b
  {
    hide Bit, PackByte;
    forall k | 0 <= k < 8
      ensures ByteBits(PackByte(b))[k] == b[k]
    {
      PackByteBit(b, 7 - k);
    }
  }

  lemma {:induction false} BitsDetermineLow(y: Byte, y': Byte, n: nat)
    requires n <= 8
    requires forall i | 0 <= i < n :: Bit(y, i) == Bit(y', i)
    ensures Low(y, n) == Low(y', n)
  {
    hide Bit, Add, Power;
    if n > 0 {
      BitsDetermineLow(y, y', n - 1);
    }
  }

  /** A byte is recovered from its bits. */
  lemma PackedBits(y: Byte)
    ensures PackByte(ByteBits(y)) == y
  {
    hide Bit, PackByte, Low;
    var y' := PackByte(ByteBits(y));
    forall i | 0 <= i < 8
      ensures Bit(y', i) == Bit(y, i)
    {
      PackByteBit(ByteBits(y), i);
    }
    BitsDetermineLow(y', y, 8);
    LowIsAll(y);
    LowIsAll(y');
  }

  // ---- Byte sequences --------------------------------------------------------------------

  function AllBits(bytes: seq<Byte>): (b: Bits)
    ensures |b| == 8 * |bytes|
  {
    if |bytes| == 0 then [] else AllBits(bytes[..|bytes| - 1]) + ByteBits(bytes[|bytes| - 1])
  }

  function Pack(b: Bits): (bytes: seq<Byte>)
    requires |b| % 8 == 0
    ensures |bytes| == |b| / 8
  {
    if |b| == 0 then [] else Pack(b[..|b| - 8]) + [PackByte(b[|b| - 8..])]
  }

  lemma AllBitsAppend(bytes: seq<Byte>, y: Byte)
    ensures AllBits(bytes + [y]) == AllBits(bytes) + ByteBits(y) && AllBits([]) == []
  {
    hide ByteBits;
    assert (bytes + [y])[..|bytes|] == bytes;
  }

  lemma PackStep(b: Bits)
    requires |b| % 8 == 0 && |b| > 0
    ensures |b| >= 8 && Pack(b) == Pack(b[..|b| - 8]) + [PackByte(b[|b| - 8..])]
  {
    hide PackByte;
  }

  lemma {:induction false} AllBitsOfPacked(b: Bits)
    requires |b| % 8 == 0
    ensures AllBits(Pack(b)) == b
  {
    hide ByteBits, PackByte, AllBits;
    if |b| == 0 {
      AllBitsAppend([], 0);
    } else {
      PackStep(b);
      hide Pack;
      var init, last := b[..|b| - 8], b[|b| - 8..];
      AllBitsOfPacked(init);
      AllBitsAppend(Pack(init), PackByte(last));
      BitsOfPacked(last);
      assert b == init + last;
    }
  }

  lemma {:induction false} PackedAllBits(bytes: seq<Byte>)
    ensures Pack(AllBits(bytes)) == bytes
  {
    hide ByteBits, PackByte;
    if |bytes| > 0 {
      var init, y, b := bytes[..|bytes| - 1], bytes[|bytes| - 1], AllBits(bytes);
      PackedAllBits(init);
      PackedBits(y);
      assert bytes == init + [y];
      AllBitsAppend(init, y);
      hide AllBits;
      PackStep(b);
      hide Pack;
      assert b[..|b| - 8] == AllBits(init);
      assert b[|b| - 8..] == ByteBits(y);
    }
  }

  /** The i-th bit of a byte sequence, as the placement loop selects it. */
  lemma {:induction false} AllBitsAt(bytes: seq<Byte>, i: nat)
    requires i < 8 * |bytes|
    ensures AllBits(bytes)[i] == ByteBits(bytes[i / 8])[i % 8]
  {
    hide ByteBits;
    var n := |bytes| - 1;
    if i < 8 * n {
      AllBitsAt(bytes[..n], i);
    }
  }
}
