/** The order of the codewords in a symbol (section 7.6 of ISO/IEC 18004:2015), by numbers alone. */
module QrOrder {
  import opened Gf256
  import opened QrTables
  import opened QrInterleave
  import RS = ReedSolomon

  /** Where the data of a block starts, and how long it is. */
  datatype Share = Share(start: nat, length: nat)

  /** The codewords of the symbol are shared out evenly over the blocks; if that does not come out even,
      the last blocks get one more each. What is not for error correction is data. */
  function ShareOf(version: nat, ecl: Level, j: nat): Share
    requires IsVersion(version) && j < Table(version, ecl).blocks
  {
    var n, ecc, raw := Table(version, ecl).blocks, Table(version, ecl).ecc, RawCodewords(version);
    var even, short := if raw / n < ecc then 0 else raw / n - ecc, n - raw % n;
    if j < short then Share(j * even, even) else Share(j * even + (j - short), even + 1)
  }

  lemma ShareIs(version: nat, ecl: Level, j: nat)
    requires IsVersion(version) && j < Table(version, ecl).blocks
    ensures var lay := LayoutOf(version, ecl);
            && ShareOf(version, ecl, j) == Share(Offset(lay, j), DataLen(lay, j))
            && Offset(lay, j + 1) == Offset(lay, j) + DataLen(lay, j)
  {
    OffsetClosed(LayoutOf(version, ecl), j);
    hide Table, RawModules;
  }

  /** The interleaved codewords of the symbol. */
  function StreamOf(version: nat, ecl: Level, data: seq<Byte>): seq<Byte>
    requires IsVersion(version) && |data| == DataCodewords(version, ecl)
  {
    LayoutValid(version, ecl);
    LayoutCoversData(version, ecl);
    Interleaved(LayoutOf(version, ecl), data)
  }

  lemma BlockIs(lay: Layout, data: seq<Byte>, j: nat, share: Share)
    requires ValidLayout(lay) && |data| == Offset(lay, lay.blocks) && j < lay.blocks
    requires share == Share(Offset(lay, j), DataLen(lay, j)) && Offset(lay, j + 1) == share.start + share.length
    ensures share.start + share.length <= |data|
    ensures var part := data[share.start..share.start + share.length];
            Blocks(lay, data, lay.blocks)[j] == Block(part, RS.Remainder(part, RS.Divisor(lay.ecc)))
  {
    hide Blocks, Offset, DataLen, RS.Remainder, RS.Divisor;
    BlocksAt(lay, data, lay.blocks, j);
    assert data[Offset(lay, j)..Offset(lay, j + 1)] == data[share.start..share.start + share.length];
  }

  lemma DataShown(lay: Layout, data: seq<Byte>, i: nat, j: nat, at: int)
    requires ValidLayout(lay) && |data| == Offset(lay, lay.blocks) && j < lay.blocks && i < DataLen(lay, j)
    requires at == DataIndex(lay, i, j)
    ensures 0 <= at < |Interleaved(lay, data)|
    ensures Interleaved(lay, data)[at] == Blocks(lay, data, lay.blocks)[j].data[i]
  {
    hide Interleaved, Blocks, DataIndex, EccIndex, Offset, DataLen;
    InterleavedAt(lay, data);
  }

  lemma EccShown(lay: Layout, data: seq<Byte>, i: nat, j: nat, at: int)
    requires ValidLayout(lay) && |data| == Offset(lay, lay.blocks) && j < lay.blocks && i < lay.ecc
    requires at == EccIndex(lay, i, j)
    ensures 0 <= at < |Interleaved(lay, data)|
    ensures Interleaved(lay, data)[at] == Blocks(lay, data, lay.blocks)[j].ecc[i]
  {
    hide Interleaved, Blocks, DataIndex, EccIndex, Offset, DataLen;
    InterleavedAt(lay, data);
  }

  /** The same for any division into blocks. */
  lemma LayoutOrder(lay: Layout, data: seq<Byte>, i: nat, j: nat, share: Share)
    requires ValidLayout(lay) && |data| == Offset(lay, lay.blocks) && j < lay.blocks
    requires share == Share(Offset(lay, j), DataLen(lay, j)) && Offset(lay, j + 1) == share.start + share.length
    ensures share.start + share.length <= |data| && share.length <= lay.len + 1
    ensures var stream, turn := Interleaved(lay, data), i * lay.blocks + j;
            i < lay.len ==> 0 <= turn < |stream| && stream[turn] == data[share.start + i]
    ensures var stream, last := Interleaved(lay, data), lay.len * lay.blocks + j - lay.short;
            lay.len < share.length ==> 0 <= last < |stream| && stream[last] == data[share.start + lay.len]
    ensures var stream, check := Interleaved(lay, data), |data| + i * lay.blocks + j;
            var rest := RS.Remainder(data[share.start..share.start + share.length], RS.Divisor(lay.ecc));
            i < lay.ecc ==> 0 <= check < |stream| && i < |rest| && stream[check] == rest[i]
  {
    hide *;
    Indices(lay, i, j);
    if i < lay.len {
      DataOrder(lay, data, i, j, share);
    }
    if lay.len < share.length {
      DataOrder(lay, data, lay.len, j, share);
    }
    if i < lay.ecc {
      EccOrder(lay, data, i, j, share);
    }
    BlockIs(lay, data, j, share);
  }

  lemma Indices(lay: Layout, i: nat, j: nat)
    ensures i < lay.len ==> DataIndex(lay, i, j) == i * lay.blocks + j
    ensures DataIndex(lay, lay.len, j) == lay.len * lay.blocks + j - lay.short
    ensures EccIndex(lay, i, j) == Offset(lay, lay.blocks) + i * lay.blocks + j
    ensures lay.len <= DataLen(lay, j) <= lay.len + 1
  {
  }

  lemma DataOrder(lay: Layout, data: seq<Byte>, i: nat, j: nat, share: Share)
    requires ValidLayout(lay) && |data| == Offset(lay, lay.blocks) && j < lay.blocks && i < share.length
    requires share == Share(Offset(lay, j), DataLen(lay, j)) && Offset(lay, j + 1) == share.start + share.length
    ensures share.start + i < |data| && 0 <= DataIndex(lay, i, j) < |Interleaved(lay, data)|
    ensures Interleaved(lay, data)[DataIndex(lay, i, j)] == data[share.start + i]
  {
    hide Interleaved, Blocks, DataIndex, EccIndex, Offset, DataLen, RS.Remainder, RS.Divisor;
    BlockIs(lay, data, j, share);
    DataShown(lay, data, i, j, DataIndex(lay, i, j));
  }

  lemma EccOrder(lay: Layout, data: seq<Byte>, i: nat, j: nat, share: Share)
    requires ValidLayout(lay) && |data| == Offset(lay, lay.blocks) && j < lay.blocks && i < lay.ecc
    requires share == Share(Offset(lay, j), DataLen(lay, j)) && Offset(lay, j + 1) == share.start + share.length
    ensures share.start + share.length <= |data| && 0 <= EccIndex(lay, i, j) < |Interleaved(lay, data)|
    ensures var rest := RS.Remainder(data[share.start..share.start + share.length], RS.Divisor(lay.ecc));
            i < |rest| && Interleaved(lay, data)[EccIndex(lay, i, j)] == rest[i]
  {
    hide Interleaved, Blocks, DataIndex, EccIndex, Offset, DataLen, RS.Remainder, RS.Divisor;
    BlockIs(lay, data, j, share);
    EccShown(lay, data, i, j, EccIndex(lay, i, j));
  }

  /** The stream takes one data codeword of every block in turn, skipping in the last round the blocks
      that have no more, and then one error-correction codeword of every block in turn. */
  lemma StreamOrder(version: nat, ecl: Level, data: seq<Byte>, i: nat, j: nat)
    requires IsVersion(version) && |data| == DataCodewords(version, ecl) && j < Table(version, ecl).blocks
    ensures |StreamOf(version, ecl, data)| == RawCodewords(version)
    ensures var n, ecc, share := Table(version, ecl).blocks, Table(version, ecl).ecc, ShareOf(version, ecl, j);
            var even, stream := ShareOf(version, ecl, 0).length, StreamOf(version, ecl, data);
            && share.start + share.length <= |data|
            && (i < even ==> 0 <= i * n + j < |stream| && stream[i * n + j] == data[share.start + i])
            && (even < share.length ==>
                  var last := even * n + j - (n - RawCodewords(version) % n);
                  0 <= last < |stream| && stream[last] == data[share.start + even])
            && (i < ecc ==>
                  && 0 <= |data| + i * n + j < |stream|
                  && var rest := RS.Remainder(data[share.start..share.start + share.length], RS.Divisor(ecc));
                     i < |rest| && stream[|data| + i * n + j] == rest[i])
  {
    hide *;
    LayoutNumbers(version, ecl);
    LayoutValid(version, ecl);
    LayoutCoversData(version, ecl);
    ShareIs(version, ecl, j);
    StreamIs(version, ecl, data);
    LayoutOrder(LayoutOf(version, ecl), data, i, j, ShareOf(version, ecl, j));
  }

  lemma StreamIs(version: nat, ecl: Level, data: seq<Byte>)
    requires IsVersion(version) && |data| == DataCodewords(version, ecl)
    requires ValidLayout(LayoutOf(version, ecl))
    requires |data| == Offset(LayoutOf(version, ecl), LayoutOf(version, ecl).blocks)
    ensures StreamOf(version, ecl, data) == Interleaved(LayoutOf(version, ecl), data)
    ensures |StreamOf(version, ecl, data)| == RawCodewords(version)
  {
    LayoutCoversData(version, ecl);
    InterleavedAt(LayoutOf(version, ecl), data);
    hide Table, RawCodewords, LayoutOf, DataCodewords, Interleaved, Offset, DataIndex, EccIndex, Blocks;
  }

  lemma LayoutNumbers(version: nat, ecl: Level)
    requires IsVersion(version)
    ensures var lay, c := LayoutOf(version, ecl), Table(version, ecl);
            lay.blocks == c.blocks && lay.ecc == c.ecc && lay.short == c.blocks - RawCodewords(version) % c.blocks
    ensures ShareOf(version, ecl, 0).length == LayoutOf(version, ecl).len
  {
    LayoutValid(version, ecl);
    hide Table, RawCodewords;
  }
}
