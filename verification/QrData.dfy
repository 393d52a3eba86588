/** The data codewords of a symbol (section 7.4 of ISO/IEC 18004:2015): version selection, the
    byte-mode header, padding, and the reader that undoes them. */
module QrData {
  import opened Gf256
  import opened QrBits
  import opened QrTables
  import opened Wrappers

  class BitBuffer {
    var bits: Bits

    constructor ()
      ensures bits == []
    {
      bits := [];
    }

    /** Append the low `length` bits of a number, most significant first. A negative length
        appends nothing. */
    method Append(value: nat, length: int)
      modifies this
      ensures bits == old(bits) + BitsOf(value, if length < 0 then 0 else length)
    {
      ghost var n := if length < 0 then 0 else length;
      var i := length - 1;
      while i >= 0
        invariant -1 <= i || i == length - 1
        invariant i < n
        invariant length < 0 ==> bits == old(bits)
        invariant length >= 0 ==> bits == old(bits) + BitsOf(ShiftRight(value, i + 1), n - 1 - i)
        decreases i
      {
        bits := bits + [ShiftRight(value, i) % 2 == 1];
        i := i - 1;
      }
    }

    method AppendByte(value: Byte)
      modifies this
      ensures bits == old(bits) + ByteBits(value)
    {
      hide Bit, SourceBit;
      var i := 7;
      while i >= 0
        invariant -1 <= i <= 7
        invariant bits == old(bits) + ByteBits(value)[..7 - i]
      {
        SourceBitIsBit(value, i);
        bits := bits + [SourceBit(value, i) != 0];
        i := i - 1;
      }
    }
  }

  // ---- Version selection -----------------------------------------------------------------

  predicate Fits(byteLength: nat, version: nat, ecl: Level)
    requires IsVersion(version)
  {
    4 + CountBits(version) + byteLength * 8 <= DataCodewords(version, ecl) * 8
  }

  /** The smallest version that holds the data, or none when the source throws. */
  method ChooseVersion(byteLength: nat, ecl: Level) returns (r: Option<nat>)
    ensures r.Some? ==> IsVersion(r.value) && Fits(byteLength, r.value, ecl)
    ensures r.Some? ==> forall v | MIN_VERSION <= v < r.value :: !Fits(byteLength, v, ecl)
    ensures r.None? ==> forall v | IsVersion(v) :: !Fits(byteLength, v, ecl)
  {
    hide Fits;
    for version := MIN_VERSION to MAX_VERSION + 1
      invariant forall v | MIN_VERSION <= v < version :: !Fits(byteLength, v, ecl)
    {
      if Fits(byteLength, version, ecl) {
        return Some(version);
      }
    }
    return None;
  }

  // ---- The data bit stream ---------------------------------------------------------------

  function Header(count: nat, version: nat): (h: Bits)
    ensures |h| == 4 + CountBits(version)
  {
    BitsOf(4, 4) + BitsOf(count, CountBits(version))
  }

  function Padding(n: nat): (p: seq<Byte>)
    ensures |p| == n
  {
    seq(n, i => if i % 2 == 0 then 0xec else 0x11)
  }

  function Zeros(n: nat): Bits {
    seq(n, _ => false)
  }

  lemma {:induction false} BitsOfZero(n: nat)
    ensures BitsOf(0, n) == Zeros(n)
  {
    if n > 0 {
      BitsOfZero(n - 1);
    }
  }

  /** Terminator bits before the byte boundary. */
  function Terminator(used: nat, capacity: nat): nat {
    if capacity <= used then 0 else if capacity - used < 4 then capacity - used else 4
  }

  function ToBoundary(used: nat): nat {
    (8 - used % 8) % 8
  }

  lemma TerminatorLength(used: nat, capacity: nat)
    requires used <= capacity
    ensures Terminator(used, capacity) == if 4 < capacity - used then 4 else capacity - used
  {
  }

  lemma BoundaryReached(used: nat, capacity: nat)
    requires used <= capacity && capacity % 8 == 0
    ensures ToBoundary(used) == (8 - used % 8) % 8
    ensures (used + ToBoundary(used)) % 8 == 0 && used + ToBoundary(used) <= capacity
  {
  }

  /** Terminated and filled up with zeros to a byte boundary. */
  function Aligned(content: Bits, capacity: nat): (b: Bits)
    requires |content| <= capacity && capacity % 8 == 0
    ensures |b| <= capacity && |b| % 8 == 0 && content <= b
  {
    var ended := content + Zeros(Terminator(|content|, capacity));
    BoundaryReached(|ended|, capacity);
    ended + Zeros(ToBoundary(|ended|))
  }

  /** Filled up to capacity with alternating pad codewords. */
  function Padded(aligned: Bits, capacity: nat): (b: Bits)
    requires |aligned| <= capacity && |aligned| % 8 == 0 && capacity % 8 == 0
    ensures |b| == capacity && aligned <= b
  {
    aligned + AllBits(Padding((capacity - |aligned|) / 8))
  }

  /** Section 7.4: mode, count, data, terminator, zeros to a byte boundary, alternating padding. */
  function DataBits(bytes: seq<Byte>, version: nat, capacity: nat): (b: Bits)
    requires 4 + CountBits(version) + |bytes| * 8 <= capacity && capacity % 8 == 0
    ensures |b| == capacity
  {
    Padded(Aligned(Header(|bytes|, version) + AllBits(bytes), capacity), capacity)
  }

  lemma PaddingNext(n: nat)
    ensures Padding(n + 1) == Padding(n) + [if n % 2 == 0 then 0xec else 0x11] && Padding(0) == []
  {
  }

  /** Alternating pad codewords until the buffer is full. */
  method AppendPadding(buffer: BitBuffer, capacity: nat)
    requires |buffer.bits| <= capacity && |buffer.bits| % 8 == 0 && capacity % 8 == 0
    modifies buffer
    ensures buffer.bits == Padded(old(buffer.bits), capacity)
  {
    hide ByteBits, AllBits, Padding;
    var pad: Byte := 0xec;
    ghost var n := 0;
    PaddingNext(0);
    AllBitsAppend([], 0);
    while |buffer.bits| < capacity
      invariant buffer.bits == old(buffer.bits) + AllBits(Padding(n))
      invariant |buffer.bits| == |old(buffer.bits)| + 8 * n <= capacity
      invariant pad == if n % 2 == 0 then 0xec else 0x11
      decreases capacity - |buffer.bits|
    {
      buffer.AppendByte(pad);
      PaddingNext(n);
      AllBitsAppend(Padding(n), pad);
      pad := pad ^ (0xec ^ 0x11);
      n := n + 1;
    }
  }

  /** The inner packing loop. */
  method PackEight(bits: Bits) returns (byteVal: Byte)
    requires |bits| == 8
    ensures byteVal == PackByte(bits)
  {
    hide ShiftIn;
    byteVal := 0;
    for b := 0 to 8
      invariant byteVal == PackByte(bits[..b])
    {
      byteVal := ShiftIn(byteVal, bits[b]);
      assert bits[..b + 1][..b] == bits[..b];
    }
    assert bits[..8] == bits;
  }

  /** Eight bits at a time, most significant first. */
  method PackBits(bits: Bits) returns (codewords: seq<Byte>)
    requires |bits| % 8 == 0
    ensures codewords == Pack(bits)
  {
    hide PackByte;
    codewords := [];
    var k := 0;
    assert Pack(bits[..k]) == [];
    hide Pack;
    while k < |bits|
      invariant 0 <= k <= |bits| && k % 8 == 0
      invariant codewords == Pack(bits[..k])
    {
      var byteVal := PackEight(bits[k..k + 8]);
      codewords := codewords + [byteVal];
      PackStep(bits[..k + 8]);
      assert bits[..k + 8][..k] == bits[..k];
      assert bits[..k + 8][k..] == bits[k..k + 8];
      k := k + 8;
    }
    assert bits[..k] == bits;
  }

  /** Mode, count and data. */
  method AppendContent(buffer: BitBuffer, bytes: seq<Byte>, version: nat)
    requires buffer.bits == []
    modifies buffer
    ensures buffer.bits == Header(|bytes|, version) + AllBits(bytes)
  {
    hide ByteBits, CountBits, BitsOf;
    buffer.Append(0x4, 4);
    buffer.Append(|bytes|, CountBits(version));
    assert buffer.bits == Header(|bytes|, version) + AllBits([]);
    for i := 0 to |bytes|
      invariant buffer.bits == Header(|bytes|, version) + AllBits(bytes[..i])
    {
      buffer.AppendByte(bytes[i]);
      assert bytes[..i + 1][..i] == bytes[..i];
    }
    assert bytes[..|bytes|] == bytes;
  }

  /** Terminator, then zeros to the byte boundary. */
  method AppendTerminator(buffer: BitBuffer, capacity: nat)
    requires |buffer.bits| <= capacity && capacity % 8 == 0
    modifies buffer
    ensures buffer.bits == Aligned(old(buffer.bits), capacity)
  {
    hide Terminator, ToBoundary, BitsOf, Zeros;
    var used := |buffer.bits|;
    buffer.Append(0, if 4 < capacity - used then 4 else capacity - used);
    BitsOfZero(Terminator(used, capacity));
    TerminatorLength(used, capacity);
    used := |buffer.bits|;
    buffer.Append(0, (8 - used % 8) % 8);
    BitsOfZero(ToBoundary(used));
    BoundaryReached(used, capacity);
  }

  method BuildCodewords(bytes: seq<Byte>, version: nat, ecl: Level) returns (codewords: seq<Byte>)
    requires IsVersion(version) && Fits(|bytes|, version, ecl)
    ensures codewords == Pack(DataBits(bytes, version, DataCodewords(version, ecl) * 8))
  {
    hide Pack, DataCodewords, Table, RawCodewords, AllBits, Header, Aligned, Padded;
    var capacity := DataCodewords(version, ecl) * 8;
    var buffer := new BitBuffer();
    AppendContent(buffer, bytes, version);
    AppendTerminator(buffer, capacity);
    AppendPadding(buffer, capacity);
    codewords := PackBits(buffer.bits);
  }

  // ---- The reader ------------------------------------------------------------------------

  /** Read a byte-mode segment with a count field of `width` bits: the mode indicator, the count, then
      that many bytes. */
  function ReadBits(b: Bits, width: nat): Option<seq<Byte>> {
    var start := 4 + width;
    if |b| < start || b[..4] != [false, true, false, false] then None
    else
      var count := NatOf(b[4..start]);
      if |b| < start + 8 * count then None
      else Some(Pack(b[start..start + 8 * count]))
  }

  function ReadData(codewords: seq<Byte>, version: nat): Option<seq<Byte>> {
    ReadBits(AllBits(codewords), CountBits(version))
  }

  lemma DataBitsStart(bytes: seq<Byte>, version: nat, capacity: nat)
    requires 4 + CountBits(version) + |bytes| * 8 <= capacity && capacity % 8 == 0
    ensures Header(|bytes|, version) + AllBits(bytes) <= DataBits(bytes, version, capacity)
  {
    hide Header, AllBits, Aligned, Padded, CountBits;
    var content := Header(|bytes|, version) + AllBits(bytes);
    StartsTransitive(content, Aligned(content, capacity), DataBits(bytes, version, capacity));
  }

  lemma StartsTransitive(a: Bits, b: Bits, c: Bits)
    requires a <= b <= c
    ensures a <= c
  {
  }

  lemma ReadFields(bytes: seq<Byte>, version: nat, m: Bits, c: Bits, d: Bits, b: Bits)
    requires |m| == 4 && m == [false, true, false, false]
    requires |c| == CountBits(version) && NatOf(c) == |bytes|
    requires |d| == 8 * |bytes| && Pack(d) == bytes
    requires m + c + d <= b && |b| % 8 == 0
    ensures ReadData(Pack(b), version) == Some(bytes)
  {
    hide Pack, CountBits, AllBits, NatOf, ReadData;
    AllBitsOfPacked(b);
    Fields(m, c, d, b);
    ReadSlices(Pack(b), version, b, d, |bytes|);
  }

  lemma ReadSlices(codewords: seq<Byte>, version: nat, b: Bits, d: Bits, count: nat)
    requires AllBits(codewords) == b
    requires |b| >= 4 + CountBits(version) + 8 * count
    requires b[..4] == [false, true, false, false]
    requires NatOf(b[4..4 + CountBits(version)]) == count
    requires b[4 + CountBits(version)..4 + CountBits(version) + 8 * count] == d
    ensures |d| % 8 == 0 && ReadData(codewords, version) == Some(Pack(d))
  {
    hide Pack, CountBits, AllBits, NatOf;
  }

  lemma ReadBackFrom(bytes: seq<Byte>, version: nat, b: Bits)
    requires |b| % 8 == 0
    requires Header(|bytes|, version) + AllBits(bytes) <= b
    requires |bytes| < Pow2(CountBits(version))
    ensures ReadData(Pack(b), version) == Some(bytes)
  {
    hide Pack, Pow2, CountBits, AllBits, NatOf, BitsOf, ReadData;
    ModeIndicator();
    NatOfBitsOf(|bytes|, CountBits(version));
    PackedAllBits(bytes);
    ReadFields(bytes, version, BitsOf(4, 4), BitsOf(|bytes|, CountBits(version)), AllBits(bytes), b);
  }

  lemma Fields(m: Bits, c: Bits, d: Bits, b: Bits)
    requires m + c + d <= b
    ensures b[..|m|] == m && b[|m|..|m| + |c|] == c
    ensures b[|m| + |c|..|m| + |c| + |d|] == d
  {
  }

  lemma ModeIndicator()
    ensures BitsOf(4, 4) == [false, true, false, false]
  {
  }

  lemma CountFits(count: nat, version: nat, ecl: Level)
    requires IsVersion(version) && Fits(count, version, ecl)
    ensures count < Pow2(CountBits(version))
  {
    assert Usable(Table(version, ecl));
    assert Pow2(8) == 0x100;
    assert Pow2(16) == 0x1_0000;
  }

  /** Dropping the header and the padding gives back exactly the encoded bytes. */
  lemma ReadBack(bytes: seq<Byte>, version: nat, ecl: Level)
    requires IsVersion(version) && Fits(|bytes|, version, ecl)
    ensures ReadData(Pack(DataBits(bytes, version, DataCodewords(version, ecl) * 8)), version) == Some(bytes)
  {
    hide DataCodewords, Pow2, DataBits, ReadData, Pack;
    CountFits(|bytes|, version, ecl);
    var capacity := DataCodewords(version, ecl) * 8;
    DataBitsStart(bytes, version, capacity);
    ReadBackFrom(bytes, version, DataBits(bytes, version, capacity));
  }
}
