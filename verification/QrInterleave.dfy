/** Block interleaving (section 7.6 of ISO/IEC 18004:2015). Data and error-correction codewords of all
    blocks are emitted column by column; the reader gathers each block back by index. */
module QrInterleave {
  import opened Gf256
  import opened QrTables
  import RS = ReedSolomon

  /** How a symbol's codewords are divided: `short` of the `blocks` blocks carry `len` data
      codewords, the others one more; each carries `ecc` error-correction codewords. */
  datatype Layout = Layout(blocks: nat, short: nat, len: nat, ecc: nat)

  predicate ValidLayout(lay: Layout) {
    0 < lay.short <= lay.blocks && 0 < lay.len && 0 < lay.ecc
  }

  function LayoutOf(version: nat, ecl: Level): (lay: Layout)
    requires IsVersion(version)
  {
    var c, raw := Table(version, ecl), RawCodewords(version);
    var shortBlockLen := raw / c.blocks;
    Layout(c.blocks, c.blocks - raw % c.blocks, if shortBlockLen < c.ecc then 0 else shortBlockLen - c.ecc, c.ecc)
  }

  function DataLen(lay: Layout, j: nat): nat {
    lay.len + (if j < lay.short then 0 else 1)
  }

  /** Where block `j` starts in the data. */
  function Offset(lay: Layout, j: nat): nat {
    if j == 0 then 0 else Offset(lay, j - 1) + DataLen(lay, j - 1)
  }

  datatype Block = Block(data: seq<Byte>, ecc: seq<Byte>)

  function BlockOf(data: seq<Byte>, ecc: nat): Block {
    Block(data, RS.Remainder(data, RS.Divisor(ecc)))
  }

  /** The first `n` blocks. */
  function Blocks(lay: Layout, data: seq<Byte>, n: nat): (b: seq<Block>)
    requires 0 < lay.ecc && |data| >= Offset(lay, n)
    ensures |b| == n
    ensures forall j | 0 <= j < n :: |b[j].data| == DataLen(lay, j) && |b[j].ecc| == lay.ecc
  {
    if n == 0 then []
    else Blocks(lay, data, n - 1) + [BlockOf(data[Offset(lay, n - 1)..Offset(lay, n)], lay.ecc)]
  }

  /** Data column `i` of the first `j` blocks; blocks too short for it are skipped. */
  function DataColumn(blocks: seq<Block>, i: nat, j: nat): seq<Byte>
    requires j <= |blocks|
  {
    if j == 0 then []
    else DataColumn(blocks, i, j - 1) + (if i < |blocks[j - 1].data| then [blocks[j - 1].data[i]] else [])
  }

  function DataColumns(blocks: seq<Block>, n: nat): seq<Byte> {
    if n == 0 then [] else DataColumns(blocks, n - 1) + DataColumn(blocks, n - 1, |blocks|)
  }

  function EccColumn(blocks: seq<Block>, i: nat, j: nat): (s: seq<Byte>)
    requires j <= |blocks| && forall b | b in blocks :: i < |b.ecc|
    ensures |s| == j
  {
    seq(j, k requires 0 <= k < j => blocks[k].ecc[i])
  }

  function EccColumns(blocks: seq<Block>, n: nat): (s: seq<Byte>)
    requires forall b | b in blocks :: n <= |b.ecc|
    ensures |s| == n * |blocks|
  {
    if n == 0 then [] else EccColumns(blocks, n - 1) + EccColumn(blocks, n - 1, |blocks|)
  }

  function Interleaved(lay: Layout, data: seq<Byte>): seq<Byte>
    requires ValidLayout(lay) && |data| == Offset(lay, lay.blocks)
  {
    var blocks := Blocks(lay, data, lay.blocks);
    DataColumns(blocks, lay.len + 1) + EccColumns(blocks, lay.ecc)
  }

  /** The block structure of every version and level is well formed. */
  lemma LayoutValid(version: nat, ecl: Level)
    requires IsVersion(version)
    ensures ValidLayout(LayoutOf(version, ecl))
  {
    hide RawModules, Table;
    var c, raw := Table(version, ecl), RawCodewords(version);
    assert Usable(c);
    QuotientAtLeast(raw, c.blocks, c.ecc + 1);
  }

  lemma QuotientAtLeast(n: nat, d: nat, q: nat)
    requires 0 < d && d * q <= n
    ensures q <= n / d && n % d < d && n == d * (n / d) + n % d
  {
    if n / d < q {
      MulMonotone(d, n / d + 1, q);
    }
  }

  lemma MulMonotone(d: nat, a: nat, b: nat)
    requires a <= b
    ensures d * a <= d * b
  {
  }

  lemma {:induction false} OffsetClosed(lay: Layout, j: nat)
    ensures Offset(lay, j) == j * lay.len + (if j < lay.short then 0 else j - lay.short)
  {
    if j > 0 {
      OffsetClosed(lay, j - 1);
    }
  }

  /** The blocks consume exactly the data codewords of the symbol. */
  lemma LayoutCoversData(version: nat, ecl: Level)
    requires IsVersion(version)
    ensures var lay := LayoutOf(version, ecl);
            Offset(lay, lay.blocks) == DataCodewords(version, ecl)
            && DataCodewords(version, ecl) + lay.ecc * lay.blocks == RawCodewords(version)
  {
    hide RawModules, Table, Offset;
    var c, raw, lay := Table(version, ecl), RawCodewords(version), LayoutOf(version, ecl);
    assert Usable(c);
    LayoutValid(version, ecl);
    OffsetClosed(lay, c.blocks);
    QuotientAtLeast(raw, c.blocks, c.ecc + 1);
    ShareOut(raw, c.blocks, c.ecc);
  }

  lemma ShareOut(raw: nat, blocks: nat, ecc: nat)
    requires 0 < blocks && raw == blocks * (raw / blocks) + raw % blocks
    ensures blocks * (raw / blocks - ecc) + raw % blocks == raw - ecc * blocks
  {
    var q := raw / blocks;
    assert blocks * (q - ecc) == blocks * q - ecc * blocks;
  }

  // ---- Where each codeword goes ----------------------------------------------------------

  /** Position of data codeword `i` of block `j` in the emitted sequence. */
  function DataIndex(lay: Layout, i: nat, j: nat): int {
    i * lay.blocks + (if i < lay.len then j else j - lay.short)
  }

  function EccIndex(lay: Layout, i: nat, j: nat): int {
    Offset(lay, lay.blocks) + i * lay.blocks + j
  }

  predicate Shaped(lay: Layout, blocks: seq<Block>) {
    && ValidLayout(lay) && |blocks| == lay.blocks
    && (forall j | 0 <= j < |blocks| :: |blocks[j].data| == DataLen(lay, j) && |blocks[j].ecc| == lay.ecc)
  }

  lemma {:induction false} DataColumnAt(lay: Layout, blocks: seq<Block>, i: nat, n: nat)
    requires Shaped(lay, blocks) && n <= lay.blocks && i <= lay.len
    ensures |DataColumn(blocks, i, n)| == if i < lay.len then n else if n < lay.short then 0 else n - lay.short
    ensures forall j | 0 <= j < n && i < DataLen(lay, j) ::
              0 <= DataIndex(lay, i, j) - i * lay.blocks < |DataColumn(blocks, i, n)|
              && DataColumn(blocks, i, n)[DataIndex(lay, i, j) - i * lay.blocks] == blocks[j].data[i]
  {
    if n > 0 {
      DataColumnAt(lay, blocks, i, n - 1);
    }
  }

  lemma {:induction false} DataColumnsLength(lay: Layout, blocks: seq<Block>, n: nat)
    requires Shaped(lay, blocks) && n <= lay.len + 1
    ensures |DataColumns(blocks, n)| == if n <= lay.len then n * lay.blocks else Offset(lay, lay.blocks)
  {
    hide DataColumn, Offset;
    if n > 0 {
      DataColumnsLength(lay, blocks, n - 1);
      DataColumnAt(lay, blocks, n - 1, lay.blocks);
      OffsetClosed(lay, lay.blocks);
      assert (n - 1) * lay.blocks + lay.blocks == n * lay.blocks;
    }
  }

  lemma {:induction false} DataColumnsAt(lay: Layout, blocks: seq<Block>, n: nat, i: nat, j: nat)
    requires Shaped(lay, blocks) && n <= lay.len + 1
    requires i < n && j < lay.blocks && i < DataLen(lay, j)
    ensures 0 <= DataIndex(lay, i, j) < |DataColumns(blocks, n)|
    ensures DataColumns(blocks, n)[DataIndex(lay, i, j)] == blocks[j].data[i]
  {
    DataColumnsLength(lay, blocks, n - 1);
    if i == n - 1 {
      DataColumnAt(lay, blocks, i, lay.blocks);
    } else {
      DataColumnsAt(lay, blocks, n - 1, i, j);
    }
  }

  lemma {:induction false} EccColumnsAt(blocks: seq<Block>, n: nat, i: nat, j: nat)
    requires forall b | b in blocks :: n <= |b.ecc|
    requires i < n && j < |blocks|
    ensures 0 <= i * |blocks| + j < n * |blocks|
    ensures EccColumns(blocks, n)[i * |blocks| + j] == blocks[j].ecc[i]
  {
    if i == n - 1 {
      assert (n - 1) * |blocks| + |blocks| == n * |blocks|;
    } else {
      EccColumnsAt(blocks, n - 1, i, j);
    }
  }

  /** Every data and error-correction codeword is emitted at its place, and nothing else is. */
  lemma InterleavedAt(lay: Layout, data: seq<Byte>)
    requires ValidLayout(lay) && |data| == Offset(lay, lay.blocks)
    ensures |Interleaved(lay, data)| == Offset(lay, lay.blocks) + lay.ecc * lay.blocks
    ensures forall i, j | 0 <= j < lay.blocks && 0 <= i < DataLen(lay, j) ::
              0 <= DataIndex(lay, i, j) < |Interleaved(lay, data)|
              && Interleaved(lay, data)[DataIndex(lay, i, j)] == Blocks(lay, data, lay.blocks)[j].data[i]
    ensures forall i, j | 0 <= j < lay.blocks && 0 <= i < lay.ecc ::
              0 <= EccIndex(lay, i, j) < |Interleaved(lay, data)|
              && Interleaved(lay, data)[EccIndex(lay, i, j)] == Blocks(lay, data, lay.blocks)[j].ecc[i]
  {
    hide Blocks, DataColumns, EccColumns, Offset, DataIndex;
    var blocks := Blocks(lay, data, lay.blocks);
    DataColumnsLength(lay, blocks, lay.len + 1);
    forall i, j | 0 <= j < lay.blocks && 0 <= i < DataLen(lay, j)
      ensures 0 <= DataIndex(lay, i, j) < |DataColumns(blocks, lay.len + 1)|
      ensures Interleaved(lay, data)[DataIndex(lay, i, j)] == blocks[j].data[i]
    {
      DataColumnsAt(lay, blocks, lay.len + 1, i, j);
    }
    forall i, j | 0 <= j < lay.blocks && 0 <= i < lay.ecc
      ensures 0 <= i * lay.blocks + j < lay.ecc * lay.blocks
      ensures Interleaved(lay, data)[EccIndex(lay, i, j)] == blocks[j].ecc[i]
    {
      EccColumnsAt(blocks, lay.ecc, i, j);
    }
  }

  // ---- The encoder's loops ---------------------------------------------------------------

  method SplitBlocks(lay: Layout, data: seq<Byte>) returns (blocks: seq<Block>)
    requires ValidLayout(lay) && |data| == Offset(lay, lay.blocks)
    ensures blocks == Blocks(lay, data, lay.blocks)
  {
    hide RS.Divisor, RS.Remainder;
    blocks := [];
    var divisor := RS.ReedSolomonDivisor(lay.ecc);
    var taken := 0;
    for i := 0 to lay.blocks
      invariant taken == Offset(lay, i) <= |data|
      invariant blocks == Blocks(lay, data, i)
    {
      OffsetMonotone(lay, i + 1, lay.blocks);
      var dataLen := lay.len + (if i < lay.short then 0 else 1);
      var dat := data[taken..taken + dataLen];
      taken := taken + dataLen;
      var ecc := RS.ReedSolomonRemainder(dat, divisor);
      blocks := blocks + [Block(dat, ecc)];
    }
  }

  lemma {:induction false} OffsetMonotone(lay: Layout, i: nat, j: nat)
    requires i <= j
    ensures Offset(lay, i) <= Offset(lay, j)
  {
    if i < j {
      OffsetMonotone(lay, i, j - 1);
    }
  }

  method Interleave(data: seq<Byte>, version: nat, ecl: Level) returns (result: seq<Byte>)
    requires IsVersion(version) && |data| == DataCodewords(version, ecl)
    ensures var lay := LayoutOf(version, ecl);
            ValidLayout(lay) && |data| == Offset(lay, lay.blocks) && result == Interleaved(lay, data)
  {
    hide Table, RawCodewords, DataCodewords, Offset, Blocks;
    var lay := LayoutOf(version, ecl);
    LayoutValid(version, ecl);
    LayoutCoversData(version, ecl);
    var blocks := SplitBlocks(lay, data);

    result := [];
    for i := 0 to lay.len + 1
      invariant result == DataColumns(blocks, i)
    {
      ghost var start := result;
      for j := 0 to |blocks|
        invariant result == start + DataColumn(blocks, i, j)
      {
        if i < |blocks[j].data| {
          result := result + [blocks[j].data[i]];
        }
      }
    }
    for i := 0 to lay.ecc
      invariant result == DataColumns(blocks, lay.len + 1) + EccColumns(blocks, i)
    {
      ghost var start := result;
      for j := 0 to |blocks|
        invariant result == start + EccColumn(blocks, i, j)
      {
        result := result + [blocks[j].ecc[i]];
      }
    }
  }

  // ---- The reader ------------------------------------------------------------------------

  function At(codewords: seq<Byte>, index: int): Byte {
    if 0 <= index < |codewords| then codewords[index] else 0
  }

  function GatherData(lay: Layout, codewords: seq<Byte>, j: nat): (d: seq<Byte>)
    ensures |d| == DataLen(lay, j)
  {
    seq(DataLen(lay, j), i requires 0 <= i => At(codewords, DataIndex(lay, i, j)))
  }

  function GatherEcc(lay: Layout, codewords: seq<Byte>, j: nat): (e: seq<Byte>)
    ensures |e| == lay.ecc
  {
    seq(lay.ecc, i requires 0 <= i => At(codewords, EccIndex(lay, i, j)))
  }

  /** The data of the first `n` blocks, in order. */
  function Deinterleaved(lay: Layout, codewords: seq<Byte>, n: nat): seq<Byte> {
    if n == 0 then [] else Deinterleaved(lay, codewords, n - 1) + GatherData(lay, codewords, n - 1)
  }

  lemma {:induction false} BlocksAt(lay: Layout, data: seq<Byte>, n: nat, j: nat)
    requires 0 < lay.ecc && |data| >= Offset(lay, n) && j < n
    ensures Offset(lay, j) <= Offset(lay, j + 1) <= |data|
    ensures Blocks(lay, data, n)[j] == BlockOf(data[Offset(lay, j)..Offset(lay, j + 1)], lay.ecc)
  {
    hide BlockOf;
    OffsetMonotone(lay, j + 1, n);
    if j < n - 1 {
      BlocksAt(lay, data, n - 1, j);
    }
  }

  /** The reader gathers each block exactly as it was cut. */
  lemma GatheredBlock(lay: Layout, data: seq<Byte>, j: nat)
    requires ValidLayout(lay) && |data| == Offset(lay, lay.blocks) && j < lay.blocks
    ensures Block(GatherData(lay, Interleaved(lay, data), j), GatherEcc(lay, Interleaved(lay, data), j))
         == Blocks(lay, data, lay.blocks)[j]
  {
    hide Blocks, Interleaved, DataIndex, EccIndex, Offset;
    InterleavedAt(lay, data);
    var codewords, b := Interleaved(lay, data), Blocks(lay, data, lay.blocks)[j];
    forall i | 0 <= i < DataLen(lay, j)
      ensures GatherData(lay, codewords, j)[i] == b.data[i]
    {
    }
    forall i | 0 <= i < lay.ecc
      ensures GatherEcc(lay, codewords, j)[i] == b.ecc[i]
    {
    }
    assert GatherData(lay, codewords, j) == b.data;
    assert GatherEcc(lay, codewords, j) == b.ecc;
  }

  /** Reading the blocks back in order returns the data that was interleaved. */
  lemma {:induction false} DeinterleavePrefix(lay: Layout, data: seq<Byte>, n: nat)
    requires ValidLayout(lay) && |data| == Offset(lay, lay.blocks) && n <= lay.blocks
    ensures Offset(lay, n) <= |data|
    ensures Deinterleaved(lay, Interleaved(lay, data), n) == data[..Offset(lay, n)]
  {
    hide Interleaved, RS.Divisor, RS.Remainder, GatherData, Blocks;
    OffsetMonotone(lay, n, lay.blocks);
    if n > 0 {
      DeinterleavePrefix(lay, data, n - 1);
      GatheredBlock(lay, data, n - 1);
      BlocksAt(lay, data, lay.blocks, n - 1);
      var from, to := Offset(lay, n - 1), Offset(lay, n);
      hide Offset;
      assert data[..from] + data[from..to] == data[..to];
    }
  }

  lemma DeinterleaveInterleaved(lay: Layout, data: seq<Byte>)
    requires ValidLayout(lay) && |data| == Offset(lay, lay.blocks)
    ensures Deinterleaved(lay, Interleaved(lay, data), lay.blocks) == data
  {
    hide Interleaved, Deinterleaved;
    DeinterleavePrefix(lay, data, lay.blocks);
  }

  /** Every block a reader gathers from the stream satisfies all parity checks of its code. */
  lemma GatheredBlockIsCodeword(lay: Layout, data: seq<Byte>, j: nat, r: nat)
    requires ValidLayout(lay) && |data| == Offset(lay, lay.blocks) && j < lay.blocks && r < lay.ecc
    ensures var codewords := Interleaved(lay, data);
            RS.Eval(GatherData(lay, codewords, j) + GatherEcc(lay, codewords, j), RS.Root(r)) == 0
  {
    hide Interleaved, RS.Divisor, RS.Remainder, RS.Eval, RS.Root, GatherData, GatherEcc, Offset, Blocks;
    GatheredBlock(lay, data, j);
    BlocksAt(lay, data, lay.blocks, j);
    RS.BlockIsCodeword(data[Offset(lay, j)..Offset(lay, j + 1)], lay.ecc, r);
  }
}
