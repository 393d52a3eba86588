/** The function patterns leave exactly the room the capacity formula says: for every version, the
    free modules along the zigzag are as many as the raw module count, so every codeword fits. The
    patterns are counted one by one; zones of the symbol keep them apart. */
module QrCapacity {
  import opened QrTables
  import opened Sets
  import opened QrZigzag
  import opened QrMatrix
  import opened QrPatterns

  // ---- Counting --------------------------------------------------------------------------

  function Range(a: int, b: int): (s: set<int>)
    requires a <= b
    ensures forall x :: x in s <==> a <= x < b
    ensures |s| == b - a
    decreases b - a
  {
    if a == b then {} else Range(a, b - 1) + {b - 1}
  }

  function Product(xs: set<int>, ys: set<int>): (s: set<Cell>)
    ensures forall cell :: cell in s <==> cell.x in xs && cell.y in ys
  {
    set x, y | x in xs && y in ys :: Cell(x, y)
  }

  lemma {:induction false} ColumnCount(x: int, ys: set<int>)
    ensures |Product({x}, ys)| == |ys|
  {
    if |ys| == 0 {
      assert Product({x}, ys) == {};
    } else {
      var y := Pick(ys);
      ColumnCount(x, ys - {y});
      assert Product({x}, ys) == Product({x}, ys - {y}) + {Cell(x, y)};
    }
  }

  lemma {:induction false} ProductCount(xs: set<int>, ys: set<int>)
    ensures |Product(xs, ys)| == |xs| * |ys|
  {
    if |xs| == 0 {
      assert Product(xs, ys) == {};
    } else {
      var x := Pick(xs);
      ProductCount(xs - {x}, ys);
      ColumnCount(x, ys);
      assert Product(xs, ys) == Product(xs - {x}, ys) + Product({x}, ys);
      assert Product(xs - {x}, ys) !! Product({x}, ys);
      assert |xs| == |xs - {x}| + 1;
      Distribute(|xs - {x}|, |ys|);
    }
  }

  lemma Distribute(a: int, b: int)
    ensures (a + 1) * b == a * b + b
  {
  }

  lemma DisjointCount<T>(a: set<T>, b: set<T>)
    requires a !! b
    ensures |a + b| == |a| + |b|
  {
  }

  lemma KeysOfOverlay(a: Grid, b: Grid)
    ensures (a + b).Keys == a.Keys + b.Keys
  {
  }

  /** Exactly `n` modules of `cells` lie outside `base`. */
  ghost predicate Adds(base: set<Cell>, cells: set<Cell>, n: int) {
    |cells - base| == n
  }

  lemma AddsProduct(base: set<Cell>, cells: set<Cell>, xs: set<int>, ys: set<int>)
    requires cells - base == Product(xs, ys)
    ensures Adds(base, cells, |xs| * |ys|)
  {
    ProductCount(xs, ys);
  }

  lemma AddsUnion(base: set<Cell>, a: set<Cell>, b: set<Cell>, m: int, n: int)
    requires Adds(base, a, m) && Adds(base, b, n) && (a - base) !! (b - base)
    ensures Adds(base, a + b, m + n)
  {
    assert (a + b) - base == (a - base) + (b - base);
    DisjointCount(a - base, b - base);
  }

  lemma AddsNothing(base: set<Cell>, cells: set<Cell>)
    requires cells <= base
    ensures Adds(base, cells, 0)
  {
    assert cells - base == {};
  }

  lemma AddsApart(base: set<Cell>, cells: set<Cell>)
    requires cells !! base
    ensures Adds(base, cells, |cells|)
  {
    assert cells - base == cells;
  }

  // ---- Zones -----------------------------------------------------------------------------

  /** Which pattern a module off the timing lines may belong to: the three finders, the alignment
      patterns, format information, version information. */
  function Zone(size: nat, cell: Cell): nat {
    if cell.x <= 7 && cell.y <= 7 then 0
    else if cell.x >= size - 8 && cell.y <= 7 then 1
    else if cell.x <= 7 && cell.y >= size - 8 then 2
   
   
    else if (cell.x == 8 && (cell.y <= 8 || cell.y >= size - 8)) || (cell.y == 8 && (cell.x <= 8 || cell.x >= size - 8)) then 4
   
   
    else if (cell.x <= 8 && cell.y <= 8) || (cell.x >= size - 11 && cell.y <= 8) || (cell.x <= 8 && cell.y >= size - 11) then 5
    else 3
  }

  /** Off the timing lines, all of `cells` lie in one zone. */
  ghost predicate Lies(size: nat, cells: set<Cell>, zone: nat) {
    forall cell | cell in cells && cell.x != 6 && cell.y != 6 :: Zone(size, cell) == zone
  }

  /** Outside `base`, none of `cells` lies in `zone` or a later one. */
  ghost predicate Below(size: nat, base: set<Cell>, cells: set<Cell>, zone: nat) {
    forall cell | cell in cells - base :: Zone(size, cell) < zone
  }

  lemma LiesNowhere(size: nat, zone: nat)
    ensures Lies(size, {}, zone)
  {
  }

  lemma LiesUnion(size: nat, a: set<Cell>, b: set<Cell>, zone: nat)
    requires Lies(size, a, zone) && Lies(size, b, zone)
    ensures Lies(size, a + b, zone)
  {
    hide Zone;
  }

  // ---- Timing and finders ----------------------------------------------------------------

  function TimingCells(size: nat): (cells: set<Cell>)
    requires 7 <= size
    ensures forall cell :: cell in cells <==> InGrid(size, cell) && (cell.x == 6 || cell.y == 6)
  {
    Product({6}, Range(0, size)) + Product(Range(0, size) - {6}, {6})
  }

  lemma TimingKeys(size: nat)
    requires 7 <= size
    ensures TimingPatch(size).Keys == TimingCells(size)
  {
  }

  lemma TimingCount(size: nat)
    requires 7 <= size
    ensures |TimingCells(size)| == 2 * size - 1
  {
    hide *;
    TimingUnion(size);
    WithoutSix(0, size);
    ColumnCount(6, Range(0, size));
    ProductCount(Range(0, size) - {6}, {6});
    DisjointCount(Product({6}, Range(0, size)), Product(Range(0, size) - {6}, {6}));
  }

  lemma WithoutSix(a: int, b: int)
    requires a <= 6 < b
    ensures |Range(a, b) - {6}| == b - a - 1
  {
    hide Range;
    assert Range(a, b) == (Range(a, b) - {6}) + {6};
  }

  lemma TimingUnion(size: nat)
    requires 7 <= size
    ensures TimingCells(size) == Product({6}, Range(0, size)) + Product(Range(0, size) - {6}, {6})
  {
  }

  /** The modules of a finder, clipped to the symbol. */
  lemma FinderCells(size: nat, cx: int, cy: int)
    ensures forall cell :: cell in FinderPatch(size, cx, cy)
              <==> InGrid(size, cell) && cx - 4 <= cell.x <= cx + 4 && cy - 4 <= cell.y <= cy + 4
  {
  }

  lemma FinderAdds(size: nat, cx: int, cy: int, xs: set<int>, ys: set<int>)
    requires 21 <= size
    requires forall x :: x in xs <==> 0 <= x < size && cx - 4 <= x <= cx + 4 && x != 6
    requires forall y :: y in ys <==> 0 <= y < size && cy - 4 <= y <= cy + 4 && y != 6
    ensures Adds(TimingCells(size), FinderPatch(size, cx, cy).Keys, |xs| * |ys|)
  {
    FinderCells(size, cx, cy);
    hide Adds, FinderPatch, TimingCells, Product;
    AddsProduct(TimingCells(size), FinderPatch(size, cx, cy).Keys, xs, ys);
  }

  lemma FinderCounts(size: nat)
    requires 21 <= size
    ensures Adds(TimingCells(size), FinderPatch(size, 3, 3).Keys, 49) && Lies(size, FinderPatch(size, 3, 3).Keys, 0)
    ensures Adds(TimingCells(size), FinderPatch(size, size - 4, 3).Keys, 56)
    ensures Lies(size, FinderPatch(size, size - 4, 3).Keys, 1)
    ensures Adds(TimingCells(size), FinderPatch(size, 3, size - 4).Keys, 56)
    ensures Lies(size, FinderPatch(size, 3, size - 4).Keys, 2)
  {
    hide Adds, FinderPatch, TimingCells, Range;
    FinderCells(size, 3, 3);
    FinderCells(size, size - 4, 3);
    FinderCells(size, 3, size - 4);
    var near, far := Range(0, 8) - {6}, Range(size - 8, size);
    WithoutSix(0, 8);
    FinderAdds(size, 3, 3, near, near);
    FinderAdds(size, size - 4, 3, far, near);
    FinderAdds(size, 3, size - 4, near, far);
  }

  // ---- Alignment patterns ----------------------------------------------------------------

  /** What an alignment pattern adds; those centred on a timing line share modules with it. */
  function AlignmentCount(n: nat, i: nat, j: nat): int {
    if Collides(n, i, j) then 0 else if i == 0 || j == 0 then 20 else 25
  }

  /** Centres far enough apart, from the timing lines and from the far edge. */
  ghost predicate Spread(size: nat, p: seq<int>) {
    && |p| >= 2 && p[0] == 6 && p[|p| - 1] == size - 7
    && (forall a, b | 0 <= a < b < |p| :: p[a] + 12 <= p[b])
  }

  lemma AlignmentCells(size: nat, cx: int, cy: int)
    requires 2 <= cx < size - 2 && 2 <= cy < size - 2
    ensures forall cell ::
              cell in AlignmentPatch(size, cx, cy) <==> cx - 2 <= cell.x <= cx + 2 && cy - 2 <= cell.y <= cy + 2
  {
  }

  lemma BandCount(c: int)
    requires c == 6 || c >= 9
    ensures |Range(c - 2, c + 3) - {6}| == if c == 6 then 4 else 5
  {
    hide Range;
    if c == 6 {
      WithoutSix(4, 9);
    } else {
      assert Range(c - 2, c + 3) - {6} == Range(c - 2, c + 3);
    }
  }

  lemma AlignmentProduct(size: nat, cx: int, cy: int, xs: set<int>, ys: set<int>)
    requires 21 <= size && 2 <= cx < size - 2 && 2 <= cy < size - 2
    requires forall x :: x in xs <==> cx - 2 <= x <= cx + 2 && x != 6
    requires forall y :: y in ys <==> cy - 2 <= y <= cy + 2 && y != 6
    ensures Adds(TimingCells(size), AlignmentPatch(size, cx, cy).Keys, |xs| * |ys|)
  {
    AlignmentCells(size, cx, cy);
    hide Adds, AlignmentPatch, TimingCells, Product;
    AddsProduct(TimingCells(size), AlignmentPatch(size, cx, cy).Keys, xs, ys);
  }

  lemma AlignmentAdds(size: nat, cx: int, cy: int)
    requires 21 <= size && 2 <= cx < size - 2 && 2 <= cy < size - 2 && (cx == 6 || cx >= 9) && (cy == 6 || cy >= 9)
    requires cx != 6 || cy != 6
    ensures Adds(TimingCells(size), AlignmentPatch(size, cx, cy).Keys, if cx == 6 || cy == 6 then 20 else 25)
  {
    hide Adds, AlignmentPatch, TimingCells, Range;
    BandCount(cx);
    BandCount(cy);
    AlignmentProduct(size, cx, cy, Range(cx - 2, cx + 3) - {6}, Range(cy - 2, cy + 3) - {6});
  }

  function NextPatch(size: nat, p: seq<int>, i: nat, j: nat): Grid
    requires i < |p| && j < |p|
  {
    if Collides(|p|, i, j) then map[] else AlignmentPatch(size, p[i], p[j])
  }

  lemma SpreadFits(size: nat, p: seq<int>, t: nat)
    requires Spread(size, p) && t < |p|
    ensures 2 <= p[t] < size - 2 && (t == 0 <==> p[t] == 6) && (t > 0 ==> p[t] >= 18)
    ensures t < |p| - 1 ==> p[t] <= size - 19
  {
    if t > 0 {
      assert p[0] + 12 <= p[t];
    }
    if t < |p| - 1 {
      assert p[t] + 12 <= p[|p| - 1];
    }
  }

  lemma NextAdds(size: nat, p: seq<int>, i: nat, j: nat)
    requires 21 <= size && i < |p| && j < |p| && Spread(size, p)
    ensures Adds(TimingCells(size), NextPatch(size, p, i, j).Keys, AlignmentCount(|p|, i, j))
    ensures Lies(size, NextPatch(size, p, i, j).Keys, 3)
    ensures forall cell | cell in NextPatch(size, p, i, j) ::
              p[i] - 2 <= cell.x <= p[i] + 2 && p[j] - 2 <= cell.y <= p[j] + 2
  {
    hide Adds, AlignmentPatch, TimingCells;
    SpreadFits(size, p, i);
    SpreadFits(size, p, j);
    if Collides(|p|, i, j) {
      NoKeys(map[]);
      AddsNothing(TimingCells(size), {});
    } else {
      AlignmentCells(size, p[i], p[j]);
      AlignmentAdds(size, p[i], p[j]);
    }
  }

  lemma NoKeys(g: Grid)
    requires g == map[]
    ensures g.Keys == {}
  {
  }

  function RowBound(n: nat, i: nat, j: nat): int {
    if j == 0 then 0 else RowBound(n, i, j - 1) + AlignmentCount(n, i, j - 1)
  }

  function RowsBound(n: nat, i: nat): int {
    if i == 0 then 0 else RowsBound(n, i - 1) + RowBound(n, i - 1, n)
  }

  lemma {:induction false} RowAdds(size: nat, p: seq<int>, i: nat, j: nat)
    requires 21 <= size && i < |p| && j <= |p| && Spread(size, p)
    ensures var row := AlignmentRow(size, p, i, j).Keys;
            && Adds(TimingCells(size), row, RowBound(|p|, i, j)) && Lies(size, row, 3)
            && (forall cell | cell in row :: p[i] - 2 <= cell.x <= p[i] + 2 && j > 0 && cell.y <= p[j - 1] + 2)
  {
    hide Adds, Lies, TimingCells, AlignmentPatch, AlignmentCount, Collides, Zone;
    if j == 0 {
      NoKeys(map[]);
      AddsNothing(TimingCells(size), {});
      LiesNowhere(size, 3);
    } else {
      RowAdds(size, p, i, j - 1);
      NextAdds(size, p, i, j - 1);
      var row, next := AlignmentRow(size, p, i, j - 1), NextPatch(size, p, i, j - 1);
      assert AlignmentRow(size, p, i, j) == row + next;
      hide NextPatch, AlignmentRow;
      KeysOfOverlay(row, next);
      assert j > 1 ==> p[j - 2] + 12 <= p[j - 1];
      hide Spread;
      assert row.Keys !! next.Keys;
      LiesUnion(size, row.Keys, next.Keys, 3);
      AddsUnion(TimingCells(size), row.Keys, next.Keys, RowBound(|p|, i, j - 1), AlignmentCount(|p|, i, j - 1));
    }
  }

  lemma {:induction false} RowsAdd(size: nat, p: seq<int>, i: nat)
    requires 21 <= size && i <= |p| && Spread(size, p)
    ensures var rows := AlignmentRows(size, p, i).Keys;
            && Adds(TimingCells(size), rows, RowsBound(|p|, i)) && Lies(size, rows, 3)
            && (forall cell | cell in rows :: i > 0 && cell.x <= p[i - 1] + 2)
  {
    hide Adds, Lies, TimingCells, AlignmentRow, RowBound, Zone;
    if i == 0 {
      NoKeys(map[]);
      AddsNothing(TimingCells(size), {});
      LiesNowhere(size, 3);
    } else {
      RowsAdd(size, p, i - 1);
      RowAdds(size, p, i - 1, |p|);
      var rows, row := AlignmentRows(size, p, i - 1), AlignmentRow(size, p, i - 1, |p|);
      assert AlignmentRows(size, p, i) == rows + row;
      hide AlignmentRows;
      KeysOfOverlay(rows, row);
      assert i > 1 ==> p[i - 2] + 12 <= p[i - 1];
      hide Spread;
      assert rows.Keys !! row.Keys;
      LiesUnion(size, rows.Keys, row.Keys, 3);
      AddsUnion(TimingCells(size), rows.Keys, row.Keys, RowsBound(|p|, i - 1), RowBound(|p|, i - 1, |p|));
    }
  }

  lemma {:induction false} RowBoundClosed(n: nat, i: nat, j: nat)
    requires n >= 2 && i < n && j <= n
    ensures RowBound(n, i, j)
         == if j == 0 then 0
            else if i == 0 then 20 * (if j < n then j - 1 else n - 2)
            else 25 * (j - 1) + (if i == n - 1 then 0 else 20)
  {
    if j > 0 {
      RowBoundClosed(n, i, j - 1);
    }
  }

  lemma {:induction false} RowsBoundClosed(n: nat, i: nat)
    requires n >= 2 && 1 <= i < n
    ensures RowsBound(n, i) == 20 * (n - 2) + (i - 1) * (25 * n - 5)
  {
    RowBoundClosed(n, i - 1, n);
    if i > 1 {
      RowsBoundClosed(n, i - 1);
      Distribute(i - 2, 25 * n - 5);
    } else {
      assert RowsBound(n, 0) == 0;
    }
  }

  /** Modules the alignment patterns of a symbol add to the timing patterns. */
  function AlignmentModules(version: nat): int {
    if version >= 2 then (25 * NumAlign(version) - 10) * NumAlign(version) - 55 else 0
  }

  lemma RowsTotal(n: nat)
    requires n >= 2
    ensures RowsBound(n, n) == (25 * n - 10) * n - 55
  {
    hide RowBound;
    RowBoundClosed(n, n - 1, n);
    RowsBoundClosed(n, n - 1);
  }

  /** The centres of every version but the first are spread out. */
  lemma PositionsSpread(version: nat)
    requires 2 <= version <= MAX_VERSION
    ensures Spread(SizeOf(version), Positions(version))
  {
    var n, last, step := NumAlign(version), SizeOf(version) - 7, AlignmentStep(version);
    var p := Positions(version);
    GapsFit(version);
    assert p == Spaced(n, last, step);
    hide NumAlign, SizeOf, AlignmentStep, Positions;
    forall a, b | 0 <= a < b < n
      ensures p[a] + 12 <= p[b]
    {
      SpacedApart(n, last, step, a, b);
    }
  }

  lemma SpacedApart(n: nat, last: int, step: int, a: nat, b: nat)
    requires a < b < n && step >= 0 && (n > 2 ==> step >= 12) && 18 <= last - (n - 2) * step
    ensures Spaced(n, last, step)[a] + 12 <= Spaced(n, last, step)[b]
  {
    if a == 0 {
      SpacedAt(n, last, step, b);
    } else {
      Apart(n, step, a, b);
    }
  }

  lemma SpacedAt(n: nat, last: int, step: int, b: nat)
    requires 1 <= b < n && step >= 0 && 18 <= last - (n - 2) * step
    ensures Spaced(n, last, step)[b] >= 18
  {
    assert (n - 1 - b) * step <= (n - 2) * step;
  }

  lemma Apart(n: nat, step: int, a: nat, b: nat)
    requires 1 <= a < b < n && (n > 2 ==> step >= 12)
    ensures (n - 1 - a) * step >= (n - 1 - b) * step + 12
  {
    Scaled(n - 1 - b, b - a, step);
  }

  lemma Scaled(x: nat, k: nat, step: int)
    requires k >= 1 && step >= 12
    ensures (x + k) * step >= x * step + 12
  {
    assert (x + k) * step == x * step + k * step;
    Distribute(k - 1, step);
    assert (k - 1) * step >= 0;
  }

  lemma GapsFit(version: nat)
    requires 2 <= version <= MAX_VERSION
    ensures NumAlign(version) >= 2 && 0 <= AlignmentStep(version)
    ensures NumAlign(version) > 2 ==> AlignmentStep(version) >= 12
    ensures 18 <= SizeOf(version) - 7 - (NumAlign(version) - 2) * AlignmentStep(version)
  {
    var n := NumAlign(version);
    if n == 2 {} else if n == 3 {} else if n == 4 {} else if n == 5 {} else if n == 6 {} else { assert n == 7; }
  }

  lemma AlignmentsAdd(version: nat)
    requires IsVersion(version)
    ensures var size, p := SizeOf(version), Positions(version);
            var cells := AlignmentRows(size, p, |p|).Keys;
            Adds(TimingCells(size), cells, AlignmentModules(version)) && Lies(size, cells, 3)
  {
    hide Adds, TimingCells, RowsBound, Zone;
    if version == 1 {
      NoKeys(map[]);
      AddsNothing(TimingCells(21), {});
    } else {
      var p := Positions(version);
      PositionsSpread(version);
      PositionsCount(version);
      RowsTotal(|p|);
      hide AlignmentRows, Positions, NumAlign;
      RowsAdd(SizeOf(version), p, |p|);
    }
  }

  lemma PositionsCount(version: nat)
    requires 2 <= version <= MAX_VERSION
    ensures |Positions(version)| == NumAlign(version) >= 2
  {
  }

  // ---- Format and version information ----------------------------------------------------

  lemma {:induction false} CopyKeys(w: Word, n: nat, cell: Cell)
    requires n <= 15
    ensures cell in FormatCopy(w, n) <==> exists j | 0 <= j < n :: FormatCell(j) == cell
  {
    hide WordBit, FormatCell;
    if n > 0 {
      CopyKeys(w, n - 1, cell);
    }
  }

  lemma {:induction false} Copy2Keys(size: nat, w: Word, n: nat, cell: Cell)
    requires n <= 15
    ensures cell in FormatCopy2(size, w, n) <==> exists j | 0 <= j < n :: FormatCell2(size, j) == cell
  {
    hide WordBit, FormatCell2;
    if n > 0 {
      Copy2Keys(size, w, n - 1, cell);
    }
  }

  lemma {:induction false} FormatCounts(size: nat, w: Word, n: nat)
    requires n <= 15 && 21 <= size
    ensures |FormatCopy(w, n).Keys| == n && |FormatCopy2(size, w, n).Keys| == n
  {
    hide WordBit;
    if n > 0 {
      FormatCounts(size, w, n - 1);
      CopyKeys(w, n - 1, FormatCell(n - 1));
      Copy2Keys(size, w, n - 1, FormatCell2(size, n - 1));
      hide FormatCell, FormatCell2;
      assert FormatCopy(w, n).Keys == FormatCopy(w, n - 1).Keys + {FormatCell(n - 1)};
      assert FormatCopy2(size, w, n).Keys == FormatCopy2(size, w, n - 1).Keys + {FormatCell2(size, n - 1)};
    }
  }

  /** Where the format modules are: never on a timing line, and the two copies apart. */
  lemma FormatCells(size: nat, w: Word, cell: Cell)
    requires 21 <= size
    ensures cell in FormatCopy(w, 15) ==>
              cell.x != 6 && cell.y != 6 && 0 <= cell.x <= 8 && 0 <= cell.y <= 8 && (cell.x == 8 || cell.y == 8)
    ensures cell in FormatCopy2(size, w, 15) ==>
              || (cell.y == 8 && size - 8 <= cell.x < size)
              || (cell.x == 8 && size - 7 <= cell.y < size)
  {
    CopyKeys(w, 15, cell);
    Copy2Keys(size, w, 15, cell);
    hide FormatCopy, FormatCopy2;
  }

  lemma FormatAdds(size: nat, w: Word)
    requires 21 <= size
    ensures Adds(TimingCells(size), FormatPatch(size, w).Keys, 31) && Lies(size, FormatPatch(size, w).Keys, 4)
    ensures forall cell | cell in FormatPatch(size, w) :: InGrid(size, cell) && cell.x != 6 && cell.y != 6
  {
    FormatCounts(size, w, 15);
    var a, b, dark := FormatCopy(w, 15).Keys, FormatCopy2(size, w, 15).Keys, Cell(8, size - 8);
    assert FormatPatch(size, w).Keys == (a + b) + {dark};
    hide FormatCopy, FormatCopy2, FormatPatch, TimingCells;
    forall cell | cell in a + b + {dark}
      ensures InGrid(size, cell) && cell.x != 6 && cell.y != 6 && Zone(size, cell) == 4
      ensures !(cell in a && cell in b) && !(cell in a + b && cell == dark)
    {
      FormatCells(size, w, cell);
    }
    DisjointCount(a, b);
    DisjointCount(a + b, {dark});
    AddsApart(TimingCells(size), FormatPatch(size, w).Keys);
  }

  function Transposed(cell: Cell): Cell {
    Cell(cell.y, cell.x)
  }

  lemma {:induction false} VersionCells(size: nat, w: Word, n: nat, cell: Cell)
    requires n <= 18
    ensures cell in VersionPatch(size, w, n) <==>
            exists i | 0 <= i < n :: cell == VersionCell(size, i) || cell == Transposed(VersionCell(size, i))
  {
    hide WordBit, VersionCell;
    if n > 0 {
      VersionCells(size, w, n - 1, cell);
    }
  }

  /** Both copies of the first `n` version modules, all different. */
  lemma {:induction false} VersionCount(size: nat, w: Word, n: nat)
    requires n <= 18 && 45 <= size
    ensures |VersionPatch(size, w, n).Keys| == 2 * n
  {
    hide WordBit, VersionCell;
    if n > 0 {
      VersionCount(size, w, n - 1);
      var keys, at := VersionPatch(size, w, n - 1).Keys, VersionCell(size, n - 1);
      assert VersionPatch(size, w, n).Keys == keys + {at} + {Transposed(at)};
      VersionCells(size, w, n - 1, at);
      VersionCells(size, w, n - 1, Transposed(at));
      hide VersionPatch;
      forall i | 0 <= i < n
        ensures at != Transposed(VersionCell(size, i))
        ensures i < n - 1 ==> VersionCell(size, i) != at
      {
        VersionCellIs(size, i, n - 1);
      }
      assert at !in keys && Transposed(at) !in keys + {at};
    }
  }

  lemma VersionCellIs(size: nat, i: nat, k: nat)
    requires i < 18 && k < 18 && 45 <= size
    ensures var cell := VersionCell(size, i);
            && size - 11 <= cell.x <= size - 9 && 0 <= cell.y <= 5
            && VersionCell(size, k) != Transposed(cell) && (i != k ==> cell != VersionCell(size, k))
  {
  }

  function VersionKeys(version: nat): set<Cell>
    requires IsVersion(version)
  {
    if version >= 7 then VersionInformation(version).Keys else {}
  }

  /** Modules the version information adds. */
  function VersionModules(version: nat): int {
    if version >= 7 then 36 else 0
  }

  /** Version information keeps to the two blocks beside the far finders. */
  lemma VersionKeysLie(size: nat, w: Word)
    requires 45 <= size
    ensures forall cell | cell in VersionPatch(size, w, 18) ::
              || (size - 11 <= cell.x <= size - 9 && 0 <= cell.y <= 5)
              || (size - 11 <= cell.y <= size - 9 && 0 <= cell.x <= 5)
  {
    hide VersionPatch, VersionCell;
    forall cell | cell in VersionPatch(size, w, 18)
      ensures || (size - 11 <= cell.x <= size - 9 && 0 <= cell.y <= 5)
              || (size - 11 <= cell.y <= size - 9 && 0 <= cell.x <= 5)
    {
      VersionCells(size, w, 18, cell);
      var i :| 0 <= i < 18 && (cell == VersionCell(size, i) || cell == Transposed(VersionCell(size, i)));
      VersionCellIs(size, i, i);
    }
  }

  lemma InVersionBlock(size: nat, cell: Cell)
    requires 45 <= size
    requires || (size - 11 <= cell.x <= size - 9 && 0 <= cell.y <= 5)
             || (size - 11 <= cell.y <= size - 9 && 0 <= cell.x <= 5)
    ensures InGrid(size, cell) && cell.x != 6 && cell.y != 6 && Zone(size, cell) == 5
  {
  }

  lemma VersionAdds(version: nat)
    requires IsVersion(version)
    ensures var size := SizeOf(version);
            && Adds(TimingCells(size), VersionKeys(version), VersionModules(version)) && Lies(size, VersionKeys(version), 5)
            && forall cell | cell in VersionKeys(version) :: InGrid(size, cell) && cell.x != 6 && cell.y != 6
  {
    hide Adds, VersionPatch, VersionWord, TimingCells, Zone;
    var size := SizeOf(version);
    if version >= 7 {
      var w := VersionWord(version as Word);
      VersionCount(size, w, 18);
      VersionKeysLie(size, w);
      forall cell | cell in VersionKeys(version)
        ensures InGrid(size, cell) && cell.x != 6 && cell.y != 6 && Zone(size, cell) == 5
      {
        InVersionBlock(size, cell);
      }
      AddsApart(TimingCells(size), VersionKeys(version));
    } else {
      AddsNothing(TimingCells(size), {});
    }
  }

  // ---- The whole symbol ------------------------------------------------------------------

  function ReservedCells(version: nat): set<Cell>
    requires IsVersion(version)
  {
    FunctionPatch(version, L).Keys
  }

  lemma {:induction false} SameCopies(size: nat, w: Word, w': Word, n: nat)
    requires n <= 15
    ensures FormatCopy(w, n).Keys == FormatCopy(w', n).Keys
    ensures FormatCopy2(size, w, n).Keys == FormatCopy2(size, w', n).Keys
  {
    hide WordBit, FormatCell, FormatCell2;
    if n > 0 {
      SameCopies(size, w, w', n - 1);
    }
  }

  lemma SameFormatCells(size: nat, w: Word, w': Word)
    ensures FormatPatch(size, w).Keys == FormatPatch(size, w').Keys
  {
    hide FormatCopy, FormatCopy2;
    SameCopies(size, w, w', 15);
  }

  /** Which modules are reserved depends on the version alone. */
  lemma ReservedByVersion(version: nat, ecl: Level)
    requires IsVersion(version)
    ensures FunctionPatch(version, ecl).Keys == ReservedCells(version)
  {
    hide TimingPatch, FinderPatch, AlignmentRows, FormatPatch, VersionInformation, FormatWord, Positions;
    SameFormatCells(SizeOf(version), FormatWord(ecl, 0), FormatWord(L, 0));
  }

  lemma ReservedTiming(version: nat)
    requires IsVersion(version)
    ensures forall y | 0 <= y < SizeOf(version) :: Cell(6, y) in ReservedCells(version)
  {
    assert forall y | 0 <= y < SizeOf(version) :: Cell(6, y) in TimingPatch(SizeOf(version));
    hide TimingPatch, FinderPatch, AlignmentRows, FormatPatch, VersionInformation, FormatWord, Positions;
  }

  function Together(a: set<Cell>, b: set<Cell>, c: set<Cell>, d: set<Cell>, e: set<Cell>, f: set<Cell>,
                    g: set<Cell>): set<Cell> {
    a + b + c + d + e + f + g
  }

  /** Zone by zone, each pattern adds to the ones before it. */
  lemma AddsNext(size: nat, base: set<Cell>, done: set<Cell>, next: set<Cell>, m: int, n: int, zone: nat)
    requires Adds(base, done, m) && Adds(base, next, n) && Below(size, base, done, zone) && Lies(size, next, zone)
    requires forall cell | cell in next && (cell.x == 6 || cell.y == 6) :: cell in base
    ensures Adds(base, done + next, m + n) && Below(size, base, done + next, zone + 1)
  {
    hide Adds, Zone;
    AddsUnion(base, done, next, m, n);
  }

  lemma AddsAll(size: nat, base: set<Cell>, f1: set<Cell>, f2: set<Cell>, f3: set<Cell>, a: set<Cell>, f: set<Cell>,
                v: set<Cell>, m: int, n: int)
    requires Adds(base, f1, 49) && Adds(base, f2, 56) && Adds(base, f3, 56) && Adds(base, a, m) && Adds(base, f, 31)
    requires Adds(base, v, n)
    requires Lies(size, f1, 0) && Lies(size, f2, 1) && Lies(size, f3, 2) && Lies(size, a, 3) && Lies(size, f, 4)
    requires Lies(size, v, 5)
    requires forall cell | cell in f1 + f2 + f3 + a + f + v && (cell.x == 6 || cell.y == 6) :: cell in base
    ensures Adds(base, Together(base, f1, f2, f3, a, f, v), 192 + m + n)
  {
    AddsNothing(base, base);
    assert Below(size, base, base, 0);
    hide Adds, Below, Lies;
    AddsNext(size, base, base, f1, 0, 49, 0);
    AddsNext(size, base, base + f1, f2, 49, 56, 1);
    AddsNext(size, base, base + f1 + f2, f3, 105, 56, 2);
    AddsNext(size, base, base + f1 + f2 + f3, a, 161, m, 3);
    AddsNext(size, base, base + f1 + f2 + f3 + a, f, 161 + m, 31, 4);
    AddsNext(size, base, base + f1 + f2 + f3 + a + f, v, 192 + m, n, 5);
  }

  lemma ReservedParts(version: nat)
    requires IsVersion(version)
    ensures var size, p := SizeOf(version), Positions(version);
            ReservedCells(version)
              == Together(TimingPatch(size).Keys, FinderPatch(size, 3, 3).Keys, FinderPatch(size, size - 4, 3).Keys,
                          FinderPatch(size, 3, size - 4).Keys, AlignmentRows(size, p, |p|).Keys,
                          FormatPatch(size, FormatWord(L, 0)).Keys, VersionKeys(version))
  {
    hide TimingPatch, FinderPatch, AlignmentRows, FormatPatch, VersionInformation, FormatWord, Positions;
    var size, p, w := SizeOf(version), Positions(version), FormatWord(L, 0);
    var g1 := TimingPatch(size) + FinderPatch(size, 3, 3);
    var g2 := g1 + FinderPatch(size, size - 4, 3);
    var g3 := g2 + FinderPatch(size, 3, size - 4);
    var g4 := g3 + AlignmentRows(size, p, |p|);
    var g5 := g4 + FormatPatch(size, w);
    KeysOfOverlay(TimingPatch(size), FinderPatch(size, 3, 3));
    KeysOfOverlay(g1, FinderPatch(size, size - 4, 3));
    KeysOfOverlay(g2, FinderPatch(size, 3, size - 4));
    KeysOfOverlay(g3, AlignmentRows(size, p, |p|));
    KeysOfOverlay(g4, FormatPatch(size, w));
    if version >= 7 {
      KeysOfOverlay(g5, VersionInformation(version));
    } else {
      NoKeys(map[]);
      KeysOfOverlay(g5, map[]);
    }
  }

  lemma SizeAtLeast(version: nat)
    requires IsVersion(version)
    ensures SizeOf(version) >= 21 && (VersionKeys(version) != {} ==> SizeOf(version) >= 45)
  {
  }

  lemma {:induction false} RowInGrid(size: nat, p: seq<int>, i: nat, j: nat)
    requires i < |p| && j <= |p|
    ensures AlignmentRow(size, p, i, j).Keys <= Cells(size)
  {
    hide Collides, Distance;
    if j > 0 {
      RowInGrid(size, p, i, j - 1);
    }
  }

  lemma {:induction false} RowsInGrid(size: nat, p: seq<int>, i: nat)
    requires i <= |p|
    ensures AlignmentRows(size, p, i).Keys <= Cells(size)
  {
    hide AlignmentRow;
    if i > 0 {
      RowsInGrid(size, p, i - 1);
      RowInGrid(size, p, i - 1, |p|);
    }
  }

  /** No function pattern sticks out of the symbol. */
  lemma ReservedInGrid(version: nat)
    requires IsVersion(version)
    ensures ReservedCells(version) <= Cells(SizeOf(version))
    ensures AlignmentRows(SizeOf(version), Positions(version), |Positions(version)|).Keys <= Cells(SizeOf(version))
    ensures forall cell | cell in TimingCells(SizeOf(version)) :: cell in ReservedCells(version)
    ensures forall cell | cell in ReservedCells(version) && (cell.x == 6 || cell.y == 6) ::
              cell in TimingCells(SizeOf(version))
  {
    hide ReservedCells, FinderPatch, AlignmentRows, FormatPatch, VersionKeys, FormatWord, Positions, TimingPatch,
         TimingCells, Adds, Lies;
    var size, p, w := SizeOf(version), Positions(version), FormatWord(L, 0);
    SizeAtLeast(version);
    TimingKeys(size);
    FinderCells(size, 3, 3);
    FinderCells(size, size - 4, 3);
    FinderCells(size, 3, size - 4);
    RowsInGrid(size, p, |p|);
    FormatAdds(size, w);
    VersionAdds(version);
    ReservedParts(version);
  }

  lemma PatternsAdd(version: nat)
    requires IsVersion(version)
    ensures Adds(TimingCells(SizeOf(version)), ReservedCells(version),
                 192 + AlignmentModules(version) + VersionModules(version))
  {
    hide *;
    SizeAtLeast(version);
    var size, p, w := SizeOf(version), Positions(version), FormatWord(L, 0);
    var base := TimingCells(size);
    TimingKeys(size);
    FinderCounts(size);
    AlignmentsAdd(version);
    FormatAdds(size, w);
    VersionAdds(version);
    ReservedParts(version);
    ReservedInGrid(version);
    TogetherHas(base, FinderPatch(size, 3, 3).Keys, FinderPatch(size, size - 4, 3).Keys, FinderPatch(size, 3, size - 4).Keys,
                AlignmentRows(size, p, |p|).Keys, FormatPatch(size, w).Keys, VersionKeys(version));
    AddsAll(size, base, FinderPatch(size, 3, 3).Keys, FinderPatch(size, size - 4, 3).Keys, FinderPatch(size, 3, size - 4).Keys,
            AlignmentRows(size, p, |p|).Keys, FormatPatch(size, w).Keys, VersionKeys(version),
            AlignmentModules(version), VersionModules(version));
  }

  lemma TogetherHas(a: set<Cell>, b: set<Cell>, c: set<Cell>, d: set<Cell>, e: set<Cell>, f: set<Cell>, g: set<Cell>)
    ensures b + c + d + e + f + g <= Together(a, b, c, d, e, f, g)
  {
  }

  lemma ReservedCount(base: set<Cell>, reserved: set<Cell>, n: int)
    requires Adds(base, reserved, n) && base <= reserved
    ensures |reserved| == |base| + n
  {
    assert reserved == base + (reserved - base);
    DisjointCount(base, reserved - base);
  }

  lemma RawModulesSplit(version: nat)
    requires IsVersion(version)
    ensures SizeOf(version) * SizeOf(version) - (2 * SizeOf(version) - 1)
              - (192 + AlignmentModules(version) + VersionModules(version))
         == RawModules(version)
  {
    hide NumAlign;
    assert SizeOf(version) * SizeOf(version) == (16 * version + 136) * version + 289;
  }

  lemma RawCodewordsFit(version: nat)
    ensures 0 <= RawModules(version) - 8 * RawCodewords(version) < 8
  {
    hide RawModules;
  }

  /** The capacity formula is exact: for all 40 versions the zigzag meets exactly as many free modules
      as `numRawDataModules` says, so every codeword bit finds one and fewer than eight stay light. */
  lemma CapacityIsExact(version: nat)
    requires IsVersion(version)
    ensures IsSize(SizeOf(version))
    ensures |Free(FullPath(SizeOf(version)), ReservedCells(version))| == RawModules(version)
    ensures 0 <= RawModules(version) - 8 * RawCodewords(version) < 8
  {
    SizeIsSize(version);
    hide *;
    var size, reserved := SizeOf(version), ReservedCells(version);
    TimingCount(size);
    PatternsAdd(version);
    ReservedInGrid(version);
    ReservedCount(TimingCells(size), reserved, 192 + AlignmentModules(version) + VersionModules(version));
    ReservedTiming(version);
    FreeModules(size, reserved);
    RawModulesSplit(version);
    RawCodewordsFit(version);
  }

  lemma SizeIsSize(version: nat)
    requires IsVersion(version)
    ensures IsSize(SizeOf(version)) && SizeOf(version) >= 21
  {
  }

  lemma FreeModules(size: nat, reserved: set<Cell>)
    requires IsSize(size) && reserved <= Cells(size)
    requires forall y | 0 <= y < size :: Cell(6, y) in reserved
    ensures |Free(FullPath(size), reserved)| == size * size - |reserved|
  {
    hide *;
    AllCells(size);
    PathIsBijection(size);
    ColumnSix(size, reserved);
    FreeOfPath(FullPath(size), Cells(size), reserved);
  }

  lemma AllCells(size: nat)
    ensures |Cells(size)| == size * size
  {
    assert Product(Range(0, size), Range(0, size)) == Cells(size);
    ProductCount(Range(0, size), Range(0, size));
  }

  lemma ColumnSix(size: nat, reserved: set<Cell>)
    requires forall y | 0 <= y < size :: Cell(6, y) in reserved
    ensures forall cell | cell in Cells(size) && cell.x == 6 :: cell in reserved
    ensures forall cell :: cell in Cells(size) <==> InGrid(size, cell)
  {
    forall cell | cell in Cells(size) && cell.x == 6
      ensures cell in reserved
    {
      assert cell == Cell(6, cell.y);
    }
  }

  lemma FreeOfPath(path: seq<Cell>, all: set<Cell>, reserved: set<Cell>)
    requires NoDuplicates(path) && reserved <= all
    requires forall cell :: cell in path <==> cell in all && cell.x != 6
    requires forall cell | cell in all && cell.x == 6 :: cell in reserved
    ensures |Free(path, reserved)| == |all| - |reserved|
  {
    FreeCount(path, reserved);
    assert SetOf(path) - reserved == all - reserved;
    hide SetOf, Free, NoDuplicates;
    assert all == (all - reserved) + reserved;
    DisjointCount(all - reserved, reserved);
  }
}
