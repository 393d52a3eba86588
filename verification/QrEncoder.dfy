/** The whole QR encoder, and the reader that undoes it: from the finished matrix alone, the
    reader recovers exactly the bytes that were encoded. */
module QrEncoder {
  import opened Gf256
  import opened QrBits
  import opened QrTables
  import opened QrData
  import opened QrZigzag
  import opened QrMatrix
  import opened QrPatterns
  import opened QrCapacity
  import opened QrFormat
  import opened Wrappers
  import I = QrInterleave

  /** Matrix rows, top to bottom. */
  type Rows = seq<seq<bool>>

  predicate SquareRows(rows: Rows, size: nat) {
    |rows| == size && forall y | 0 <= y < size :: |rows[y]| == size
  }

  function GridOf(rows: Rows): (g: Grid)
    requires SquareRows(rows, |rows|)
    ensures g.Keys == Cells(|rows|)
  {
    map cell | cell in Cells(|rows|) :: rows[cell.y][cell.x]
  }

  /** Rows of a matrix that shows `g`. */
  predicate Shows(rows: Rows, g: Grid) {
    SquareRows(rows, |rows|) && GridOf(rows) == g
  }

  // ---- What a symbol contains ------------------------------------------------------------

  /** Every codeword of the symbol, in the order it is placed. */
  function Codewords(bytes: seq<Byte>, version: nat, ecl: Level): (c: seq<Byte>)
    requires IsVersion(version) && Fits(|bytes|, version, ecl)
  {
    I.LayoutValid(version, ecl);
    I.LayoutCoversData(version, ecl);
    I.Interleaved(I.LayoutOf(version, ecl), Pack(DataBits(bytes, version, DataCodewords(version, ecl) * 8)))
  }

  function Blank(size: nat): (g: Grid)
    ensures g.Keys == Cells(size)
  {
    map cell | cell in Cells(size) :: false
  }

  /** The symbol before masking: function patterns, then the codewords along the free modules, and
      every other module light. */
  ghost predicate Filled(g: Grid, bytes: seq<Byte>, version: nat, ecl: Level)
    requires IsVersion(version) && Fits(|bytes|, version, ecl)
  {
    && g.Keys == Cells(SizeOf(version))
    && Places(Blank(SizeOf(version)) + FunctionPatch(version, ecl), g, FreeCells(version),
              AllBits(Codewords(bytes, version, ecl)))
  }

  /** The unreserved modules in placement order. */
  function FreeCells(version: nat): seq<Cell>
    requires IsVersion(version)
  {
    Free(FullPath(SizeOf(version)), ReservedCells(version))
  }

  /** The symbol as it leaves the encoder when mask `mask` is used. */
  function Rendered(base: Grid, version: nat, ecl: Level, mask: nat): Grid
    requires IsVersion(version) && mask < 8
  {
    Masked(base, mask, ReservedCells(version)) + FormatPatch(SizeOf(version), FormatWord(ecl, mask))
  }

  // ---- The reader ------------------------------------------------------------------------

  /** Read a symbol: its size gives the version, its format cells the level and the mask; unmask,
      collect the zigzag, de-interleave, and drop header and padding. */
  function Decode(rows: Rows): Option<seq<Byte>> {
    if !SquareRows(rows, |rows|) || |rows| < 21 || (|rows| - 17) % 4 != 0 || (|rows| - 17) / 4 > MAX_VERSION then None
    else
      DecodeGrid(GridOf(rows), (|rows| - 17) / 4)
  }

  function DecodeGrid(g: Grid, version: nat): Option<seq<Byte>>
    requires IsVersion(version) && g.Keys == Cells(SizeOf(version))
  {
    var format := ReadFive(g);
    DecodeWith(Masked(g, MaskOf(format), ReservedCells(version)), version, LevelOf(format))
  }

  function DecodeWith(g: Grid, version: nat, ecl: Level): Option<seq<Byte>>
    requires IsVersion(version) && g.Keys == Cells(SizeOf(version))
  {
    FreeInGrid(version);
    DecodeBits(ReadFree(g, FreeCells(version)), version, ecl)
  }

  function DecodeBits(bits: Bits, version: nat, ecl: Level): Option<seq<Byte>>
    requires IsVersion(version)
  {
    var n := 8 * RawCodewords(version);
    if 0 <= n <= |bits| then DecodeStream(Pack(bits[..n]), version, ecl) else None
  }

  function DecodeStream(codewords: seq<Byte>, version: nat, ecl: Level): Option<seq<Byte>>
    requires IsVersion(version)
  {
    var lay := I.LayoutOf(version, ecl);
    ReadData(I.Deinterleaved(lay, codewords, lay.blocks), version)
  }

  lemma FreeInGrid(version: nat)
    requires IsVersion(version)
    ensures forall cell | cell in FreeCells(version) ::
              cell in Cells(SizeOf(version)) && cell !in ReservedCells(version)
  {
    hide ReservedCells, FullPath, Free;
    PathIsBijection(SizeOf(version));
    FreeMembers(FullPath(SizeOf(version)), ReservedCells(version));
  }

  // ---- The round trip --------------------------------------------------------------------

  lemma CodewordCount(bytes: seq<Byte>, version: nat, ecl: Level)
    requires IsVersion(version) && Fits(|bytes|, version, ecl)
    ensures |Codewords(bytes, version, ecl)| == RawCodewords(version)
  {
    hide RawCodewords, Table, I.Interleaved, DataBits, Pack, DataCodewords, I.Offset, I.LayoutOf, I.DataIndex,
         I.EccIndex;
    I.LayoutValid(version, ecl);
    I.LayoutCoversData(version, ecl);
    I.InterleavedAt(I.LayoutOf(version, ecl), Pack(DataBits(bytes, version, DataCodewords(version, ecl) * 8)));
  }

  lemma StreamDecodes(bytes: seq<Byte>, version: nat, ecl: Level)
    requires IsVersion(version) && Fits(|bytes|, version, ecl)
    ensures DecodeStream(Codewords(bytes, version, ecl), version, ecl) == Some(bytes)
  {
    hide RawCodewords, Table, I.Interleaved, I.Deinterleaved, DataBits, Pack, DataCodewords, I.Offset, I.LayoutOf,
         ReadData;
    I.LayoutValid(version, ecl);
    I.LayoutCoversData(version, ecl);
    var lay, data := I.LayoutOf(version, ecl), Pack(DataBits(bytes, version, DataCodewords(version, ecl) * 8));
    var codewords := I.Interleaved(lay, data);
    assert Codewords(bytes, version, ecl) == codewords;
    assert DecodeStream(codewords, version, ecl) == ReadData(I.Deinterleaved(lay, codewords, lay.blocks), version);
    hide *;
    I.DeinterleaveInterleaved(lay, data);
    ReadBack(bytes, version, ecl);
  }

  /** The free modules of a filled symbol spell its codewords. */
  lemma FilledDecodes(bytes: seq<Byte>, version: nat, ecl: Level, g: Grid)
    requires IsVersion(version) && Fits(|bytes|, version, ecl) && Filled(g, bytes, version, ecl)
    ensures DecodeWith(g, version, ecl) == Some(bytes)
  {
    hide Codewords, Fits, Places, FreeCells, ReservedCells, RawCodewords, RawModules, DecodeBits, FunctionPatch,
         AllBits, ReadFree;
    var codewords, cells := Codewords(bytes, version, ecl), FreeCells(version);
    var start := Blank(SizeOf(version)) + FunctionPatch(version, ecl);
    CapacityIsExact(version);
    RoomFor(version);
    CodewordCount(bytes, version, ecl);
    FreeInGrid(version);
    ReadsPlaced(start, g, cells, AllBits(codewords));
    BitsDecode(ReadFree(g, cells), bytes, version, ecl);
  }

  lemma RoomFor(version: nat)
    requires IsVersion(version)
    ensures |FreeCells(version)| >= 8 * RawCodewords(version)
  {
    hide ReservedCells, Free, FullPath, RawModules, RawCodewords;
    CapacityIsExact(version);
  }

  lemma BitsDecode(bits: Bits, bytes: seq<Byte>, version: nat, ecl: Level)
    requires IsVersion(version) && Fits(|bytes|, version, ecl)
    requires AllBits(Codewords(bytes, version, ecl)) <= bits
    ensures DecodeBits(bits, version, ecl) == Some(bytes)
  {
    hide Codewords, Fits, RawCodewords, DecodeStream, AllBits, Pack;
    CodewordCount(bytes, version, ecl);
    PackedAllBits(Codewords(bytes, version, ecl));
    StreamDecodes(bytes, version, ecl);
    assert bits[..8 * RawCodewords(version)] == AllBits(Codewords(bytes, version, ecl));
  }

  lemma {:induction false} CopiesInGrid(size: nat, w: Word, n: nat)
    requires 21 <= size && n <= 15
    ensures forall cell | cell in FormatCopy(w, n) :: InGrid(size, cell)
    ensures forall cell | cell in FormatCopy2(size, w, n) :: InGrid(size, cell)
  {
    hide WordBit;
    if n > 0 {
      CopiesInGrid(size, w, n - 1);
    }
  }

  /** Format modules lie in the symbol and are all reserved. */
  lemma FormatModules(version: nat, w: Word)
    requires IsVersion(version)
    ensures FormatPatch(SizeOf(version), w).Keys <= ReservedCells(version) * Cells(SizeOf(version))
  {
    hide TimingPatch, FinderPatch, AlignmentRows, FormatCopy, FormatCopy2, VersionInformation, FormatWord, Positions;
    SameFormatCells(SizeOf(version), w, FormatWord(L, 0));
    CopiesInGrid(SizeOf(version), w, 15);
    FormatAmongReserved(version);
  }

  lemma FormatAmongReserved(version: nat)
    requires IsVersion(version)
    ensures FormatPatch(SizeOf(version), FormatWord(L, 0)).Keys <= ReservedCells(version)
  {
    hide TimingPatch, FinderPatch, AlignmentRows, FormatPatch, VersionInformation, FormatWord, Positions;
  }

  /** Masking and drawing reserved modules, then masking again, leaves the free modules alone. */
  lemma FreeUnchanged(base: Grid, patch: Grid, mask: nat, reserved: set<Cell>, cells: seq<Cell>)
    requires mask < 8 && patch.Keys <= reserved
    requires forall cell | cell in cells :: cell in base && cell !in reserved
    ensures ReadFree(Masked(Masked(base, mask, reserved) + patch, mask, reserved), cells) == ReadFree(base, cells)
  {
    hide MaskCondition;
  }

  /** Reading a rendered symbol gives back the encoded bytes. */
  lemma RenderedDecodes(bytes: seq<Byte>, version: nat, ecl: Level, mask: nat, base: Grid)
    requires IsVersion(version) && Fits(|bytes|, version, ecl) && mask < 8 && Filled(base, bytes, version, ecl)
    ensures Rendered(base, version, ecl, mask).Keys == Cells(SizeOf(version))
    ensures DecodeGrid(Rendered(base, version, ecl, mask), version) == Some(bytes)
  {
    hide Places, Fits, ReservedCells, FormatPatch, FormatWord, FreeCells, DecodeBits, Codewords, Masked, FunctionPatch,
         Blank, ReadFree, ReadFive, LevelOf, MaskOf, Cells;
    var size, patch, reserved := SizeOf(version), FormatPatch(SizeOf(version), FormatWord(ecl, mask)), ReservedCells(version);
    FormatModules(version, FormatWord(ecl, mask));
    assert Rendered(base, version, ecl, mask).Keys == Cells(size);
    FormatReads(size, Masked(base, mask, reserved), ecl, mask);
    FreeInGrid(version);
    FreeUnchanged(base, patch, mask, reserved, FreeCells(version));
    FilledDecodes(bytes, version, ecl, base);
  }

  // ---- The encoder -----------------------------------------------------------------------

  datatype Symbol = Symbol(size: nat, version: nat, mask: nat, modules: Rows)

  /** Copy the rows of a matrix. */
  method Snapshot(m: Matrix) returns (rows: Rows)
    requires m.Valid()
    ensures SquareRows(rows, m.size) && GridOf(rows) == m.View()
  {
    rows := [];
    for y := 0 to m.size
      invariant |rows| == y
      invariant forall y' | 0 <= y' < y :: |rows[y']| == m.size && forall x | 0 <= x < m.size :: rows[y'][x] == m.modules[y', x]
    {
      var row := [];
      for x := 0 to m.size
        invariant |row| == x && forall x' | 0 <= x' < x :: row[x'] == m.modules[y, x']
      {
        row := row + [m.modules[y, x]];
      }
      rows := rows + [row];
    }
  }

  method Restore(m: Matrix, rows: Rows)
    requires m.Valid() && SquareRows(rows, m.size)
    modifies m.modules
    ensures m.View() == GridOf(rows)
  {
    for y := 0 to m.size
      invariant forall y', x | 0 <= y' < y && 0 <= x < m.size :: m.modules[y', x] == rows[y'][x]
    {
      for x := 0 to m.size
        invariant forall y', x' | 0 <= y' < y && 0 <= x' < m.size :: m.modules[y', x'] == rows[y'][x']
        invariant forall x' | 0 <= x' < x :: m.modules[y, x'] == rows[y][x']
      {
        m.modules[y, x] := rows[y][x];
      }
    }
  }

  /** Restore the unmasked symbol, then apply one mask and its format bits. */
  method Render(m: Matrix, snapshot: Rows, version: nat, ecl: Level, mask: nat)
    requires m.Valid() && IsVersion(version) && m.size == SizeOf(version) && mask < 8
    requires SquareRows(snapshot, m.size) && m.Reserved() == ReservedCells(version)
    modifies m.modules, m.reserved
    ensures m.View() == Rendered(GridOf(snapshot), version, ecl, mask)
    ensures m.Reserved() == ReservedCells(version)
  {
    hide ReservedCells, FormatPatch, FormatWord, Cells, Masked;
    Restore(m, snapshot);
    ApplyMask(m, mask);
    ghost var s := Start(m.View(), m.Reserved());
    assert s.view + map[] == s.view;
    DrawFormatBits(m, ecl, mask, s, map[]);
    ghost var patch := FormatPatch(m.size, FormatWord(ecl, mask));
    assert map[] + patch == patch;
    FormatModules(version, FormatWord(ecl, mask));
    assert s.reserved + patch.Keys == s.reserved;
  }

  /** Everything up to the choice of mask. */
  method FillSymbol(bytes: seq<Byte>, version: nat, ecl: Level) returns (m: Matrix)
    requires IsVersion(version) && Fits(|bytes|, version, ecl)
    ensures fresh(m) && fresh(m.modules) && fresh(m.reserved)
    ensures m.Valid() && m.size == SizeOf(version) && m.Reserved() == ReservedCells(version)
    ensures Filled(m.View(), bytes, version, ecl)
  {
    hide Fits, Places, FunctionPatch, AllBits, Codewords, Cells, Free, FullPath;
    SizeIsValid(version);
    var data := BuildCodewords(bytes, version, ecl);
    var codewords := I.Interleave(data, version, ecl);
    assert codewords == Codewords(bytes, version, ecl) by { CodewordsAre(bytes, version, ecl, data, codewords); }
    m := new Matrix(version * 4 + 17);
    ghost var s := Start(m.View(), m.Reserved());
    assert s.view + map[] == s.view;
    DrawFunctionPatterns(m, version, ecl, s);
    ReservedByVersion(version, ecl);
    hide ReservedCells;
    DrawCodewords(m, codewords);
  }

  lemma SizeIsValid(version: nat)
    requires IsVersion(version)
    ensures IsSize(SizeOf(version))
  {
  }

  lemma CodewordsAre(bytes: seq<Byte>, version: nat, ecl: Level, data: seq<Byte>, codewords: seq<Byte>)
    requires IsVersion(version) && Fits(|bytes|, version, ecl)
    requires data == Pack(DataBits(bytes, version, DataCodewords(version, ecl) * 8))
    requires var lay := I.LayoutOf(version, ecl);
             I.ValidLayout(lay) && |data| == I.Offset(lay, lay.blocks) && codewords == I.Interleaved(lay, data)
    ensures codewords == Codewords(bytes, version, ecl)
  {
    hide I.Interleaved, I.LayoutOf, I.Offset, DataBits, Pack, DataCodewords, I.ValidLayout;
  }

  /** Penalty of the symbol under mask `mask`. */
  function Score(penalty: Rows -> int, candidates: seq<Rows>, mask: nat): int
    requires mask < |candidates|
  {
    penalty(candidates[mask])
  }

  /** `mask` has the least penalty, and of the masks with that penalty it is the first. */
  predicate FirstBest(penalty: Rows -> int, candidates: seq<Rows>, mask: nat) {
    && mask < |candidates|
    && (forall k | 0 <= k < |candidates| :: Score(penalty, candidates, mask) <= Score(penalty, candidates, k))
    && (forall k | 0 <= k < mask :: Score(penalty, candidates, mask) < Score(penalty, candidates, k))
  }

  /** Comparing one more candidate: a strictly smaller penalty wins, a tie does not. */
  lemma ScoreNext(penalty: Rows -> int, candidates: seq<Rows>, rows: Rows, best: nat)
    requires candidates != [] ==> FirstBest(penalty, candidates, best)
    ensures var wins := candidates == [] || penalty(rows) < Score(penalty, candidates, best);
            FirstBest(penalty, candidates + [rows], if wins then |candidates| else best)
    ensures Score(penalty, candidates + [rows], |candidates|) == penalty(rows)
    ensures candidates != [] ==> Score(penalty, candidates + [rows], best) == Score(penalty, candidates, best)
  {
    assert forall k | 0 <= k < |candidates| :: Score(penalty, candidates + [rows], k) == Score(penalty, candidates, k);
  }

  /** Try the eight masks on the filled symbol and leave the best one applied. */
  method ChooseMask(m: Matrix, version: nat, ecl: Level, penalty: Rows -> int)
    returns (best: nat, ghost candidates: seq<Rows>)
    requires m.Valid() && IsVersion(version) && m.size == SizeOf(version) && m.Reserved() == ReservedCells(version)
    modifies m.modules, m.reserved
    ensures best < 8 && m.View() == Rendered(old(m.View()), version, ecl, best)
    ensures |candidates| == 8 && FirstBest(penalty, candidates, best)
    ensures forall k | 0 <= k < 8 :: Shows(candidates[k], Rendered(old(m.View()), version, ecl, k))
  {
    hide Rendered, ReservedCells, GridOf, SquareRows, Cells, FirstBest, Score;
    ghost var base := m.View();
    var snapshot := Snapshot(m);
    candidates := [];
    best := 8;
    var bestScore := 0;
    for mask := 0 to 8
      invariant |candidates| == mask && m.Reserved() == ReservedCells(version)
      invariant forall k | 0 <= k < mask :: Shows(candidates[k], Rendered(base, version, ecl, k))
      invariant if mask == 0 then best == 8
                else best < mask && FirstBest(penalty, candidates, best) && bestScore == Score(penalty, candidates, best)
    {
      Render(m, snapshot, version, ecl, mask);
      var rows := Snapshot(m);
      ScoreNext(penalty, candidates, rows, best);
      candidates := candidates + [rows];
      var score := penalty(rows);
      if best == 8 || score < bestScore {
        bestScore := score;
        best := mask;
      }
    }
    Render(m, snapshot, version, ecl, best);
  }

  /** The encoder. It fails exactly when no version holds the data; otherwise it uses the smallest
      that does and the first mask of least penalty, and the symbol reads back as the input. */
  method EncodeToMatrix(bytes: seq<Byte>, ecl: Level, penalty: Rows -> int)
    returns (r: Option<Symbol>, ghost base: Grid, ghost candidates: seq<Rows>)
    ensures r.None? <==> forall v | IsVersion(v) :: !Fits(|bytes|, v, ecl)
    ensures r.Some? ==>
              var sym := r.value;
              && IsVersion(sym.version) && Fits(|bytes|, sym.version, ecl)
              && (forall v | MIN_VERSION <= v < sym.version :: !Fits(|bytes|, v, ecl))
              && sym.size == SizeOf(sym.version) && |sym.modules| == sym.size && sym.mask < 8
              && Filled(base, bytes, sym.version, ecl)
              && |candidates| == 8
              && (forall k | 0 <= k < 8 :: Shows(candidates[k], Rendered(base, sym.version, ecl, k)))
              && FirstBest(penalty, candidates, sym.mask)
              && sym.modules == candidates[sym.mask]
              && Decode(sym.modules) == Some(bytes)
  {
    hide Fits, Filled, FirstBest, Rendered, ReservedCells;
    base, candidates := map[], [];
    var chosen := ChooseVersion(|bytes|, ecl);
    if chosen.None? {
      return None, base, candidates;
    }
    var version := chosen.value;
    var m := FillSymbol(bytes, version, ecl);
    base := m.View();
    var best;
    best, candidates := ChooseMask(m, version, ecl, penalty);
    var rows := Snapshot(m);
    SameRows(rows, candidates[best]);
    ShownDecodes(rows, bytes, version, ecl, best, base);
    r := Some(Symbol(m.size, version, best, rows));
  }

  lemma SmallerGrid(a: nat, b: nat)
    requires a < b
    ensures Cells(a) != Cells(b)
  {
    assert Cell(a, a) in Cells(b) && Cell(a, a) !in Cells(a);
  }

  /** Only one size of matrix has a given set of modules. */
  lemma SameSize(a: nat, b: nat)
    requires Cells(a) == Cells(b)
    ensures a == b
  {
    hide Cells;
    if a < b {
      SmallerGrid(a, b);
    } else if b < a {
      SmallerGrid(b, a);
    }
  }

  lemma SameRows(a: Rows, b: Rows)
    requires SquareRows(a, |a|) && SquareRows(b, |b|) && GridOf(a) == GridOf(b)
    ensures a == b
  {
    assert GridOf(a).Keys == Cells(|a|) && GridOf(b).Keys == Cells(|b|);
    SameSize(|a|, |b|);
    forall y | 0 <= y < |a|
      ensures a[y] == b[y]
    {
      forall x | 0 <= x < |a|
        ensures a[y][x] == b[y][x]
      {
        assert Cell(x, y) in GridOf(a) && GridOf(a)[Cell(x, y)] == GridOf(b)[Cell(x, y)];
      }
    }
  }

  /** The main round trip: `Decode` recovers the input from any rendering of the filled symbol. */
  lemma ShownDecodes(rows: Rows, bytes: seq<Byte>, version: nat, ecl: Level, mask: nat, base: Grid)
    requires IsVersion(version) && Fits(|bytes|, version, ecl) && mask < 8 && Filled(base, bytes, version, ecl)
    requires Shows(rows, Rendered(base, version, ecl, mask))
    ensures |rows| == SizeOf(version) && Decode(rows) == Some(bytes)
  {
    hide Fits, Filled, Rendered, DecodeGrid, Cells;
    RenderedDecodes(bytes, version, ecl, mask, base);
    SameSize(|rows|, SizeOf(version));
  }
}
