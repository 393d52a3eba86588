/** The module matrix of a QR symbol and the two passes over its free modules: placing the
    codeword bits along the zigzag, and masking. */
module QrMatrix {
  import opened Extrema
  import opened Gf256
  import opened QrBits
  import opened QrZigzag

  /** The colour of every module; true is dark. */
  type Grid = map<Cell, bool>

  function Cells(size: nat): (s: set<Cell>)
    ensures forall cell :: cell in s <==> InGrid(size, cell)
  {
    set x, y | 0 <= x < size && 0 <= y < size :: Cell(x, y)
  }

  class Matrix {
    const size: nat
    const modules: array2<bool>
    const reserved: array2<bool>

    ghost predicate Valid() {
      && modules.Length0 == modules.Length1 == size
      && reserved.Length0 == reserved.Length1 == size
      && modules != reserved
    }

    constructor (size: nat)
      ensures Valid() && this.size == size && fresh(modules) && fresh(reserved)
      ensures View() == map cell | cell in Cells(size) :: false
      ensures Reserved() == {}
    {
      this.size := size;
      modules := new bool[size, size]((_, _) => false);
      reserved := new bool[size, size]((_, _) => false);
    }

    ghost function View(): (g: Grid)
      requires Valid()
      reads modules
      ensures g.Keys == Cells(size)
    {
      map cell | cell in Cells(size) :: modules[cell.y, cell.x]
    }

    ghost function Reserved(): (r: set<Cell>)
      requires Valid()
      reads reserved
      ensures r <= Cells(size)
    {
      set cell | cell in Cells(size) && reserved[cell.y, cell.x]
    }

    method Set(x: int, y: int, dark: bool, reserve: bool)
      requires Valid() && InGrid(size, Cell(x, y))
      modifies modules, reserved
      ensures View() == old(View())[Cell(x, y) := dark]
      ensures Reserved() == old(Reserved()) + if reserve then {Cell(x, y)} else {}
    {
      modules[y, x] := dark;
      if reserve {
        reserved[y, x] := true;
      }
    }
  }

  // ---- Placement -------------------------------------------------------------------------

  /** `g'` is `g` with the first bits written, in order, to `cells`; every other module keeps its
      colour. Bits and cells beyond the shorter of the two sequences play no part. */
  ghost predicate Places(g: Grid, g': Grid, cells: seq<Cell>, bits: Bits) {
    && g'.Keys == g.Keys
    && (forall q | 0 <= q < Min(|cells|, |bits|) :: cells[q] in g' && g'[cells[q]] == bits[q])
    && (forall cell | cell in g && cell !in cells[..Min(|cells|, |bits|)] :: g'[cell] == g[cell])
  }

  /** Visiting one more module keeps the placement going. */
  lemma VisitStep(g: Grid, g': Grid, path: seq<Cell>, reserved: set<Cell>, bits: Bits, cell: Cell)
    requires Places(g, g', Free(path, reserved), bits)
    requires cell !in path && cell in g
    ensures var i := Min(|Free(path, reserved)|, |bits|);
            var written := cell !in reserved && i < |bits|;
            && Places(g, if written then g'[cell := bits[i]] else g', Free(path + [cell], reserved), bits)
            && Min(|Free(path + [cell], reserved)|, |bits|) == if written then i + 1 else i
  {
    hide Places;
    FreeMembers(path, reserved);
    assert (path + [cell])[..|path|] == path;
    if cell !in reserved {
      assert Free(path + [cell], reserved) == Free(path, reserved) + [cell];
      PlaceOne(g, g', Free(path, reserved), bits, cell);
    } else {
      assert Free(path + [cell], reserved) == Free(path, reserved);
    }
  }

  lemma PlaceOne(g: Grid, g': Grid, cells: seq<Cell>, bits: Bits, cell: Cell)
    requires Places(g, g', cells, bits)
    requires cell !in cells && cell in g
    ensures Places(g, if |cells| < |bits| then g'[cell := bits[|cells|]] else g', cells + [cell], bits)
  {
    var n := |cells|;
    if n < |bits| {
      assert (cells + [cell])[..n + 1] == cells + [cell];
      assert cells[..n] == cells;
      assert forall q | 0 <= q < n :: cells[q] != cell;
    } else {
      assert (cells + [cell])[..|bits|] == cells[..|bits|];
    }
  }

  /** The bit the placement loop selects. */
  function CodewordBit(codewords: seq<Byte>, i: nat): bool
    requires i < |codewords| * 8
  {
    SourceBit(codewords[i / 8], 7 - i % 8) != 0
  }

  lemma CodewordBitIs(codewords: seq<Byte>, i: nat)
    requires i < |codewords| * 8
    ensures CodewordBit(codewords, i) == AllBits(codewords)[i]
  {
    hide ByteBits, SourceBit, AllBits;
    AllBitsAt(codewords, i);
    SourceBitIsBit(codewords[i / 8], 7 - i % 8);
  }

  /** One pair of columns. `c` numbers the pair, `start` is the matrix before any placement. */
  method DrawPair(m: Matrix, codewords: seq<Byte>, right: int, first: nat, ghost c: nat, ghost start: Grid)
    returns (i: nat)
    requires m.Valid() && IsSize(m.size) && c < Pairs(m.size) && right == Right(m.size, c)
    requires start.Keys == Cells(m.size)
    requires Places(start, m.View(), Free(Path(m.size, c), m.Reserved()), AllBits(codewords))
    requires first == Min(|Free(Path(m.size, c), m.Reserved())|, |codewords| * 8)
    modifies m.modules
    ensures Places(start, m.View(), Free(Path(m.size, c + 1), m.Reserved()), AllBits(codewords))
    ensures i == Min(|Free(Path(m.size, c + 1), m.Reserved())|, |codewords| * 8)
  {
    hide AllBits, CodewordBit, Free, Places, Cells, Right, Upward;
    var size := m.size;
    ghost var bits, reserved, before := AllBits(codewords), m.Reserved(), Path(size, c);
    PairBounds(size, c);
    i := first;
    assert before + PairPath(size, c, 0) == before;
    for vert := 0 to size
      invariant Places(start, m.View(), Free(before + PairPath(size, c, 2 * vert), reserved), bits)
      invariant i == Min(|Free(before + PairPath(size, c, 2 * vert), reserved)|, |bits|)
    {
      for k := 0 to 2
        invariant Places(start, m.View(), Free(before + PairPath(size, c, 2 * vert + k), reserved), bits)
        invariant i == Min(|Free(before + PairPath(size, c, 2 * vert + k), reserved)|, |bits|)
      {
        var x := right - k;
        var upward := Upward(right);
        var y := if upward then size - 1 - vert else vert;
        ghost var view := m.View();
        NextVisit(size, c, vert, k);
        VisitStep(start, view, before + PairPath(size, c, 2 * vert + k), reserved, bits, Cell(x, y));
        if !m.reserved[y, x] && i < |codewords| * 8 {
          CodewordBitIs(codewords, i);
          m.modules[y, x] := CodewordBit(codewords, i);
          assert m.View() == view[Cell(x, y) := bits[i]];
          i := i + 1;
        }
      }
    }
  }

  lemma NextVisit(size: nat, c: nat, vert: nat, k: nat)
    requires IsSize(size) && c < Pairs(size) && vert < size && k < 2
    ensures var path := Path(size, c) + PairPath(size, c, 2 * vert + k);
            && CellOf(size, c, vert, k) !in path && InGrid(size, CellOf(size, c, vert, k))
            && path + [CellOf(size, c, vert, k)] == Path(size, c) + PairPath(size, c, 2 * vert + k + 1)
  {
    hide CellOf;
    var n := 2 * vert + k;
    PathCells(size, c + 1);
    assert PairPath(size, c, n + 1) == PairPath(size, c, n) + [CellOf(size, c, vert, k)];
    var all, path := Path(size, c + 1), Path(size, c) + PairPath(size, c, n);
    assert all == path + PairPath(size, c, 2 * size)[n..];
    assert all[|path|] == CellOf(size, c, vert, k);
    assert forall i | 0 <= i < |path| :: all[i] == path[i];
  }

  method DrawCodewords(m: Matrix, codewords: seq<Byte>)
    requires m.Valid() && IsSize(m.size)
    modifies m.modules
    ensures Places(old(m.View()), m.View(), Free(FullPath(m.size), m.Reserved()), AllBits(codewords))
  {
    hide AllBits, Cells, Places, Path, Free;
    ghost var start := m.View();
    var size := m.size;
    var i := 0;
    var right := size - 1;
    ghost var c := 0;
    PlacesNothing(start, size, m.Reserved(), AllBits(codewords));
    while right >= 1
      invariant 0 <= c <= Pairs(size)
      invariant right == if size - 1 - 2 * c >= 6 then size - 1 - 2 * c else size - 2 - 2 * c
      invariant Places(start, m.View(), Free(Path(size, c), m.Reserved()), AllBits(codewords))
      invariant i == Min(|Free(Path(size, c), m.Reserved())|, |codewords| * 8)
      decreases right
    {
      if right == 6 {
        right := 5; // the vertical timing column
      }
      i := DrawPair(m, codewords, right, i, c, start);
      right := right - 2;
      c := c + 1;
    }
  }

  lemma PlacesNothing(g: Grid, size: nat, reserved: set<Cell>, bits: Bits)
    ensures Free(Path(size, 0), reserved) == []
    ensures Places(g, g, Free(Path(size, 0), reserved), bits)
  {
  }

  /** The zigzag visits every unreserved module exactly once and no other, whatever is reserved, as
      long as the timing column is. */
  lemma FreeVisitedOnce(size: nat, reserved: set<Cell>)
    requires IsSize(size) && forall y | 0 <= y < size :: Cell(6, y) in reserved
    ensures NoDuplicates(Free(FullPath(size), reserved))
    ensures forall cell :: cell in Free(FullPath(size), reserved) <==> cell in Cells(size) - reserved
  {
    PathIsBijection(size);
    hide FullPath, Cells;
    FreeDistinct(FullPath(size), reserved);
    FreeMembers(FullPath(size), reserved);
    hide Free;
    forall cell | cell in Cells(size) && cell.x == 6
      ensures cell in reserved
    {
      assert cell == Cell(6, cell.y);
    }
  }

  // ---- Reading back ----------------------------------------------------------------------

  /** The colours of the free modules, in visiting order. */
  function ReadFree(g: Grid, cells: seq<Cell>): (b: Bits)
    requires forall cell | cell in cells :: cell in g
    ensures |b| == |cells|
  {
    seq(|cells|, q requires 0 <= q < |cells| => g[cells[q]])
  }

  /** Reading the zigzag returns every bit that was placed, in order. */
  lemma ReadsPlaced(g: Grid, g': Grid, cells: seq<Cell>, bits: Bits)
    requires Places(g, g', cells, bits) && |bits| <= |cells|
    requires forall cell | cell in cells :: cell in g
    ensures ReadFree(g', cells)[..|bits|] == bits
  {
  }

  // ---- Masking ---------------------------------------------------------------------------

  /** The eight mask patterns of section 7.8.2. */
  predicate MaskCondition(mask: nat, x: nat, y: nat)
    requires mask < 8
  {
    match mask
    case 0 => (x + y) % 2 == 0
    case 1 => y % 2 == 0
    case 2 => x % 3 == 0
    case 3 => (x + y) % 3 == 0
    case 4 => (x / 3 + y / 2) % 2 == 0
    case 5 => (x * y) % 2 + (x * y) % 3 == 0
    case 6 => ((x * y) % 2 + (x * y) % 3) % 2 == 0
    case 7 => ((x + y) % 2 + (x * y) % 3) % 2 == 0
  }

  predicate Flipped(mask: nat, cell: Cell, reserved: set<Cell>)
    requires mask < 8
  {
    cell !in reserved && 0 <= cell.x && 0 <= cell.y && MaskCondition(mask, cell.x, cell.y)
  }

  function Masked(g: Grid, mask: nat, reserved: set<Cell>): (g': Grid)
    requires mask < 8
    ensures g'.Keys == g.Keys
  {
    map cell | cell in g :: if Flipped(mask, cell, reserved) then !g[cell] else g[cell]
  }

  method ApplyMask(m: Matrix, mask: nat)
    requires m.Valid() && mask < 8
    modifies m.modules
    ensures m.View() == Masked(old(m.View()), mask, m.Reserved())
  {
    hide MaskCondition;
    for y := 0 to m.size
      invariant forall x', y' | 0 <= x' < m.size && 0 <= y' < m.size ::
                  m.modules[y', x'] == if y' < y && Flipped(mask, Cell(x', y'), m.Reserved())
                                       then !old(m.modules[y', x']) else old(m.modules[y', x'])
    {
      for x := 0 to m.size
        invariant forall x', y' | 0 <= x' < m.size && 0 <= y' < m.size ::
                    m.modules[y', x'] == if (y' < y || (y' == y && x' < x)) && Flipped(mask, Cell(x', y'), m.Reserved())
                                         then !old(m.modules[y', x']) else old(m.modules[y', x'])
      {
        if !m.reserved[y, x] && MaskCondition(mask, x, y) {
          m.modules[y, x] := !m.modules[y, x];
        }
      }
    }
  }

  /** Masking twice restores the matrix, and reserved modules are never touched. */
  lemma MaskIsInvolution(g: Grid, mask: nat, reserved: set<Cell>)
    requires mask < 8
    ensures Masked(Masked(g, mask, reserved), mask, reserved) == g
    ensures forall cell | cell in g && cell in reserved :: Masked(g, mask, reserved)[cell] == g[cell]
  {
    hide MaskCondition;
  }
}
