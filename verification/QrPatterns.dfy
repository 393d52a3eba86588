/** The function patterns of a QR symbol (section 6.3 of ISO/IEC 18004:2015) and its format and version
    information. Each drawing routine is specified by the patch it lays over the matrix: the
    modules it colours, all of which become reserved. */
module QrPatterns {
  import opened Extrema
  import opened QrTables
  import opened QrZigzag
  import opened QrMatrix

  function SizeOf(version: nat): nat {
    version * 4 + 17
  }

  function Abs(x: int): int {
    if x < 0 then -x else x
  }

  /** Chebyshev distance. */
  function Distance(cell: Cell, cx: int, cy: int): int {
    Max(Abs(cell.x - cx), Abs(cell.y - cy))
  }

  function Square(size: nat, cx: int, cy: int, radius: nat): set<Cell> {
    set cell | cell in Cells(size) && Distance(cell, cx, cy) <= radius
  }

  // ---- The patches -----------------------------------------------------------------------

  function TimingPatch(size: nat): Grid {
    map cell | cell in Cells(size) && (cell.x == 6 || cell.y == 6) ::
      (if cell.x == 6 then cell.y else cell.x) % 2 == 0
  }

  /** Finder with its separator, clipped to the symbol. */
  function FinderPatch(size: nat, cx: int, cy: int): Grid {
    map cell | cell in Square(size, cx, cy, 4) :: Distance(cell, cx, cy) != 2 && Distance(cell, cx, cy) != 4
  }

  function AlignmentPatch(size: nat, cx: int, cy: int): Grid {
    map cell | cell in Square(size, cx, cy, 2) :: Distance(cell, cx, cy) != 1
  }

  function AlignmentStep(version: nat): int {
    if version == 32 then 26
    else (SizeOf(version) - 13 + 2 * NumAlign(version) - 3) / (2 * NumAlign(version) - 2) * 2
  }

  /** `n` coordinates: 6 first, the others `step` apart and ending at `last`. */
  function Spaced(n: nat, last: int, step: int): (p: seq<int>)
    ensures |p| == n
  {
    seq(n, t => if t == 0 then 6 else last - (n - 1 - t) * step)
  }

  /** Centre coordinates of the alignment patterns. */
  function Positions(version: nat): (p: seq<int>) {
    if version == 1 then [] else Spaced(NumAlign(version), SizeOf(version) - 7, AlignmentStep(version))
  }

  /** The three centres that would collide with the finders. */
  predicate Collides(n: nat, i: nat, j: nat) {
    (i == 0 && j == 0) || (i == 0 && j == n - 1) || (i == n - 1 && j == 0)
  }

  function AlignmentRow(size: nat, p: seq<int>, i: nat, j: nat): Grid
    requires i < |p| && j <= |p|
  {
    if j == 0 then map[]
    else AlignmentRow(size, p, i, j - 1)
         + if Collides(|p|, i, j - 1) then map[] else AlignmentPatch(size, p[i], p[j - 1])
  }

  function AlignmentRows(size: nat, p: seq<int>, i: nat): Grid
    requires i <= |p|
  {
    if i == 0 then map[] else AlignmentRows(size, p, i - 1) + AlignmentRow(size, p, i - 1, |p|)
  }

  // ---- Format information ----------------------------------------------------------------

  type Word = bv32

  function LevelBits(ecl: Level): Word {
    match ecl case L => 1 case M => 0 case Q => 3 case H => 2
  }

  function MaskBits(mask: nat): Word
    requires mask < 8
  {
    match mask case 0 => 0 case 1 => 1 case 2 => 2 case 3 => 3 case 4 => 4 case 5 => 5 case 6 => 6 case 7 => 7
  }

  function FormatStep(rem: Word): Word {
    (rem << 1) ^ ((rem >> 9) * 0x537)
  }

  /** The BCH remainder after `n` rounds. */
  function FormatRemainder(data: Word, n: nat): Word {
    if n == 0 then data else FormatStep(FormatRemainder(data, n - 1))
  }

  function FormatCombine(data: Word, rem: Word): Word {
    ((data << 10) | rem) ^ 0x5412
  }

  function FormatData(ecl: Level, mask: nat): Word
    requires mask < 8
  {
    (LevelBits(ecl) << 3) | MaskBits(mask)
  }

  function FormatWord(ecl: Level, mask: nat): Word
    requires mask < 8
  {
    var data := FormatData(ecl, mask);
    FormatCombine(data, FormatRemainder(data, 10))
  }

  predicate WordBit(w: Word, i: nat)
    requires i < 32
  {
    (w >> i) & 1 != 0
  }

  /** Module of format bit `j`, beside the top-left finder; index 6 belongs to the timing. */
  function FormatCell(j: nat): Cell
    requires j < 15
  {
    if j <= 5 then Cell(8, j) else if j == 6 then Cell(8, 7) else if j == 7 then Cell(8, 8)
    else if j == 8 then Cell(7, 8) else Cell(14 - j, 8)
  }

  /** Module of format bit `j` in the second copy, split between the other two finders. */
  function FormatCell2(size: nat, j: nat): Cell
    requires j < 15
  {
    if j < 8 then Cell(size - 1 - j, 8) else Cell(8, size - 15 + j)
  }

  function FormatCopy(w: Word, n: nat): Grid
    requires n <= 15
  {
    if n == 0 then map[] else FormatCopy(w, n - 1)[FormatCell(n - 1) := WordBit(w, n - 1)]
  }

  function FormatCopy2(size: nat, w: Word, n: nat): Grid
    requires n <= 15
  {
    if n == 0 then map[] else FormatCopy2(size, w, n - 1)[FormatCell2(size, n - 1) := WordBit(w, n - 1)]
  }

  function FormatPatch(size: nat, w: Word): Grid {
    (FormatCopy(w, 15) + FormatCopy2(size, w, 15))[Cell(8, size - 8) := true]
  }

  // ---- Version information ---------------------------------------------------------------

  function VersionStep(rem: Word): Word {
    (rem << 1) ^ ((rem >> 11) * 0x1f25)
  }

  function VersionRemainder(version: Word, n: nat): Word {
    if n == 0 then version else VersionStep(VersionRemainder(version, n - 1))
  }

  function VersionCombine(version: Word, rem: Word): Word {
    (version << 12) | rem
  }

  function VersionWord(version: Word): Word {
    VersionCombine(version, VersionRemainder(version, 12))
  }

  /** Module of version bit `i` above the bottom-left finder; the other copy is its transpose. */
  function VersionCell(size: nat, i: nat): Cell {
    Cell(size - 11 + i % 3, i / 3)
  }

  function VersionPatch(size: nat, w: Word, n: nat): Grid
    requires n <= 18
  {
    if n == 0 then map[]
    else
      var at := VersionCell(size, n - 1);
      VersionPatch(size, w, n - 1)[at := WordBit(w, n - 1)][Cell(at.y, at.x) := WordBit(w, n - 1)]
  }

  /** The version number and its BCH remainder, in two copies; symbols from version 7 on carry it. */
  function VersionInformation(version: nat): Grid
    requires IsVersion(version)
  {
    VersionPatch(SizeOf(version), VersionWord(version as Word), 18)
  }

  // ---- Drawing ---------------------------------------------------------------------------

  /** The matrix before a drawing routine started. */
  datatype Start = Start(view: Grid, reserved: set<Cell>)

  /** Since `s`, exactly the modules of `patch` have been coloured and reserved. */
  ghost predicate Drawn(m: Matrix, s: Start, patch: Grid)
    requires m.Valid()
    reads m.modules, m.reserved
  {
    m.View() == s.view + patch && m.Reserved() == s.reserved + patch.Keys
  }

  /** `set` with the reserve flag: one more module joins the patch being drawn. */
  lemma Overlay(a: Grid, b: Grid, c: Grid)
    ensures a + b + c == a + (b + c)
  {
  }

  method Put(m: Matrix, x: int, y: int, dark: bool, ghost s: Start, ghost before: Grid, ghost part: Grid)
    requires m.Valid() && InGrid(m.size, Cell(x, y)) && Drawn(m, s, before + part)
    modifies m.modules, m.reserved
    ensures Drawn(m, s, before + part[Cell(x, y) := dark])
  {
    PutOverlay(s.view, before, part, Cell(x, y), dark);
    hide Cells;
    m.Set(x, y, dark, true);
  }

  lemma PutOverlay(view: Grid, before: Grid, part: Grid, cell: Cell, dark: bool)
    ensures (view + (before + part))[cell := dark] == view + (before + part[cell := dark])
    ensures (before + part[cell := dark]).Keys == (before + part).Keys + {cell}
  {
  }

  predicate TimingDrawn(cell: Cell, n: int) {
    (cell.x == 6 && cell.y < n) || (cell.y == 6 && cell.x < n)
  }

  function TimingPart(size: nat, n: int): Grid {
    map cell | cell in TimingPatch(size) && TimingDrawn(cell, n) :: TimingPatch(size)[cell]
  }

  lemma TimingStep(size: nat, i: nat)
    requires 21 <= size && i < size
    ensures TimingPart(size, i)[Cell(6, i) := i % 2 == 0][Cell(i, 6) := i % 2 == 0] == TimingPart(size, i + 1)
    ensures TimingPart(size, 0) == map[] && TimingPart(size, size) == TimingPatch(size)
  {
  }

  method DrawTiming(m: Matrix, ghost s: Start, ghost before: Grid)
    requires m.Valid() && 21 <= m.size && Drawn(m, s, before)
    modifies m.modules, m.reserved
    ensures Drawn(m, s, before + TimingPatch(m.size))
  {
    hide Drawn, TimingPart, TimingPatch;
    TimingStep(m.size, 0);
    assert before + map[] == before;
    for i := 0 to m.size
      invariant Drawn(m, s, before + TimingPart(m.size, i))
    {
      TimingStep(m.size, i);
      ghost var part := TimingPart(m.size, i);
      Put(m, 6, i, i % 2 == 0, s, before, part);
      Put(m, i, 6, i % 2 == 0, s, before, part[Cell(6, i) := i % 2 == 0]);
    }
  }

  /** The cells of a patch that a row-by-row sweep has passed on reaching (x, y). */
  function Swept(patch: Grid, x: int, y: int): Grid {
    map cell | cell in patch && (cell.y < y || (cell.y == y && cell.x < x)) :: patch[cell]
  }

  lemma SweepStep(patch: Grid, x: int, y: int)
    ensures Swept(patch, x + 1, y)
         == if Cell(x, y) in patch then Swept(patch, x, y)[Cell(x, y) := patch[Cell(x, y)]] else Swept(patch, x, y)
  {
  }

  lemma SweepEnds(patch: Grid, left: int, top: int, bottom: int)
    requires forall cell | cell in patch :: left <= cell.x && top <= cell.y < bottom
    ensures Swept(patch, left, top) == map[] && Swept(patch, left, bottom) == patch
  {
  }

  lemma SweepRow(patch: Grid, left: int, right: int, y: int)
    requires forall cell | cell in patch :: left <= cell.x < right
    ensures Swept(patch, right, y) == Swept(patch, left, y + 1)
  {
  }

  lemma FinderShape(size: nat, cx: int, cy: int)
    ensures forall cell | cell in FinderPatch(size, cx, cy) ::
              InGrid(size, cell) && cx - 4 <= cell.x < cx + 5 && cy - 4 <= cell.y < cy + 5
  {
  }

  lemma FinderStep(size: nat, cx: int, cy: int, dx: int, dy: int)
    requires -4 <= dx <= 4 && -4 <= dy <= 4
    ensures var patch, cell, dist := FinderPatch(size, cx, cy), Cell(cx + dx, cy + dy), Max(Abs(dx), Abs(dy));
            var swept := Swept(patch, cell.x, cell.y);
            Swept(patch, cell.x + 1, cell.y) == if InGrid(size, cell) then swept[cell := dist != 2 && dist != 4] else swept
  {
    SweepStep(FinderPatch(size, cx, cy), cx + dx, cy + dy);
    hide Swept;
  }

  lemma AlignmentShape(size: nat, cx: int, cy: int)
    ensures forall cell | cell in AlignmentPatch(size, cx, cy) ::
              InGrid(size, cell) && cx - 2 <= cell.x < cx + 3 && cy - 2 <= cell.y < cy + 3
  {
  }

  lemma AlignmentPatchStep(size: nat, cx: int, cy: int, dx: int, dy: int)
    requires -2 <= dx <= 2 && -2 <= dy <= 2 && InGrid(size, Cell(cx + dx, cy + dy))
    ensures var patch, cell := AlignmentPatch(size, cx, cy), Cell(cx + dx, cy + dy);
            Swept(patch, cell.x + 1, cell.y) == Swept(patch, cell.x, cell.y)[cell := Max(Abs(dx), Abs(dy)) != 1]
  {
    SweepStep(AlignmentPatch(size, cx, cy), cx + dx, cy + dy);
    hide Swept;
  }

  method DrawFinder(m: Matrix, cx: int, cy: int, ghost s: Start, ghost before: Grid)
    requires m.Valid() && Drawn(m, s, before)
    modifies m.modules, m.reserved
    ensures Drawn(m, s, before + FinderPatch(m.size, cx, cy))
  {
    hide Drawn, Swept, FinderPatch, Abs, Max;
    var size := m.size;
    ghost var patch := FinderPatch(size, cx, cy);
    FinderShape(size, cx, cy);
    SweepEnds(patch, cx - 4, cy - 4, cy + 5);
    assert before + map[] == before;
    for dy := -4 to 5
      invariant Drawn(m, s, before + Swept(patch, cx - 4, cy + dy))
    {
      SweepRow(patch, cx - 4, cx + 5, cy + dy);
      for dx := -4 to 5
        invariant Drawn(m, s, before + Swept(patch, cx + dx, cy + dy))
      {
        var dist := Max(Abs(dx), Abs(dy));
        var x, y := cx + dx, cy + dy;
        FinderStep(size, cx, cy, dx, dy);
        if x >= 0 && x < m.size && y >= 0 && y < m.size {
          Put(m, x, y, dist != 2 && dist != 4, s, before, Swept(patch, x, y));
        }
      }
    }
  }

  method DrawAlignment(m: Matrix, cx: int, cy: int, ghost s: Start, ghost before: Grid)
    requires m.Valid() && 2 <= cx < m.size - 2 && 2 <= cy < m.size - 2 && Drawn(m, s, before)
    modifies m.modules, m.reserved
    ensures Drawn(m, s, before + AlignmentPatch(m.size, cx, cy))
  {
    hide Drawn, Swept, AlignmentPatch, Abs, Max;
    var size := m.size;
    ghost var patch := AlignmentPatch(size, cx, cy);
    AlignmentShape(size, cx, cy);
    SweepEnds(patch, cx - 2, cy - 2, cy + 3);
    assert before + map[] == before;
    for dy := -2 to 3
      invariant Drawn(m, s, before + Swept(patch, cx - 2, cy + dy))
    {
      SweepRow(patch, cx - 2, cx + 3, cy + dy);
      for dx := -2 to 3
        invariant Drawn(m, s, before + Swept(patch, cx + dx, cy + dy))
      {
        AlignmentPatchStep(size, cx, cy, dx, dy);
        Put(m, cx + dx, cy + dy, Max(Abs(dx), Abs(dy)) != 1, s, before, Swept(patch, cx + dx, cy + dy));
      }
    }
  }

  method DrawCopy(m: Matrix, bits: Word, ghost s: Start, ghost before: Grid)
    requires m.Valid() && 21 <= m.size && Drawn(m, s, before)
    modifies m.modules, m.reserved
    ensures Drawn(m, s, before + FormatCopy(bits, 15))
  {
    hide WordBit, Drawn;
    assert before + map[] == before;
    for j := 0 to 6
      invariant Drawn(m, s, before + FormatCopy(bits, j))
    {
      Put(m, 8, j, WordBit(bits, j), s, before, FormatCopy(bits, j));
    }
    Put(m, 8, 7, WordBit(bits, 6), s, before, FormatCopy(bits, 6));
    Put(m, 8, 8, WordBit(bits, 7), s, before, FormatCopy(bits, 7));
    Put(m, 7, 8, WordBit(bits, 8), s, before, FormatCopy(bits, 8));
    for j := 9 to 15
      invariant Drawn(m, s, before + FormatCopy(bits, j))
    {
      Put(m, 14 - j, 8, WordBit(bits, j), s, before, FormatCopy(bits, j));
    }
  }

  method DrawCopy2(m: Matrix, bits: Word, ghost s: Start, ghost before: Grid)
    requires m.Valid() && 21 <= m.size && Drawn(m, s, before)
    modifies m.modules, m.reserved
    ensures Drawn(m, s, before + FormatCopy2(m.size, bits, 15))
  {
    hide WordBit, Drawn;
    assert before + map[] == before;
    for j := 0 to 8
      invariant Drawn(m, s, before + FormatCopy2(m.size, bits, j))
    {
      Put(m, m.size - 1 - j, 8, WordBit(bits, j), s, before, FormatCopy2(m.size, bits, j));
    }
    for j := 8 to 15
      invariant Drawn(m, s, before + FormatCopy2(m.size, bits, j))
    {
      Put(m, 8, m.size - 15 + j, WordBit(bits, j), s, before, FormatCopy2(m.size, bits, j));
    }
  }

  method DrawFormatBits(m: Matrix, ecl: Level, mask: nat, ghost s: Start, ghost before: Grid)
    requires m.Valid() && 21 <= m.size && mask < 8 && Drawn(m, s, before)
    modifies m.modules, m.reserved
    ensures Drawn(m, s, before + FormatPatch(m.size, FormatWord(ecl, mask)))
  {
    hide Drawn, FormatCopy, FormatCopy2, FormatData, FormatStep, FormatCombine;
    var data := FormatData(ecl, mask);
    var rem := data;
    for i := 0 to 10
      invariant rem == FormatRemainder(data, i)
      invariant Drawn(m, s, before)
    {
      rem := FormatStep(rem);
    }
    var bits := FormatCombine(data, rem);
    ghost var copy, copy2 := FormatCopy(bits, 15), FormatCopy2(m.size, bits, 15);
    DrawCopy(m, bits, s, before);
    DrawCopy2(m, bits, s, before + copy);
    assert before + copy + copy2 == before + (copy + copy2);
    Put(m, 8, m.size - 8, true, s, before, copy + copy2);
  }

  method DrawVersion(m: Matrix, version: nat, ghost s: Start, ghost before: Grid)
    requires m.Valid() && m.size == SizeOf(version) && 7 <= version <= MAX_VERSION && Drawn(m, s, before)
    modifies m.modules, m.reserved
    ensures Drawn(m, s, before + VersionInformation(version))
  {
    hide WordBit, Drawn, VersionStep, VersionCombine;
    var rem := version as Word;
    for i := 0 to 12
      invariant rem == VersionRemainder(version as Word, i)
      invariant Drawn(m, s, before)
    {
      rem := VersionStep(rem);
    }
    var bits := VersionCombine(version as Word, rem);
    assert before + map[] == before;
    for i := 0 to 18
      invariant Drawn(m, s, before + VersionPatch(m.size, bits, i))
    {
      var dark := WordBit(bits, i);
      var a, b := m.size - 11 + i % 3, i / 3;
      ghost var part := VersionPatch(m.size, bits, i);
      Put(m, a, b, dark, s, before, part);
      Put(m, b, a, dark, s, before, part[Cell(a, b) := dark]);
    }
  }

  method AlignmentPatternPositions(version: nat) returns (result: seq<int>)
    requires IsVersion(version)
    ensures result == Positions(version)
  {
    if version == 1 {
      return [];
    }
    var numAlign, size, step := NumAlign(version), SizeOf(version), AlignmentStep(version);
    assert 2 <= numAlign && NextCentre(size - 7, step, 1) == size - 7;
    hide Spaced, NumAlign, SizeOf, AlignmentStep, NextCentre;
    SpacedInsert(1, size - 7, step);
    result := [6];
    var pos := size - 7;
    while |result| < numAlign
      invariant 1 <= |result| <= numAlign
      invariant pos == NextCentre(size - 7, step, |result|)
      invariant result == Spaced(|result|, size - 7, step)
    {
      SpacedInsert(|result|, size - 7, step);
      result := [result[0], pos] + result[1..];
      pos := pos - step;
    }
  }

  /** The centre to insert when there are `n`. */
  function NextCentre(last: int, step: int, n: nat): int {
    last - (n - 1) * step
  }

  lemma SpacedInsert(n: nat, last: int, step: int)
    requires n >= 1
    ensures Spaced(1, last, step) == [6] && Spaced(n, last, step)[0] == 6
    ensures [6, NextCentre(last, step, n)] + Spaced(n, last, step)[1..] == Spaced(n + 1, last, step)
    ensures NextCentre(last, step, n + 1) == NextCentre(last, step, n) - step
  {
    var p, p' := [6, NextCentre(last, step, n)] + Spaced(n, last, step)[1..], Spaced(n + 1, last, step);
    forall t | 0 <= t < n + 1
      ensures p[t] == p'[t]
    {
      if t >= 2 {
        assert p[t] == Spaced(n, last, step)[t - 1];
      }
    }
  }

  method DrawAlignments(m: Matrix, version: nat, ghost s: Start, ghost before: Grid)
    requires m.Valid() && IsVersion(version) && m.size == SizeOf(version) && Drawn(m, s, before)
    modifies m.modules, m.reserved
    ensures Drawn(m, s, before + AlignmentRows(m.size, Positions(version), |Positions(version)|))
  {
    hide Drawn, AlignmentPatch, Positions, SizeOf, Collides;
    var size := m.size;
    var positions := AlignmentPatternPositions(version);
    PositionsInside(version);
    var n := |positions|;
    assert before + map[] == before;
    for i := 0 to n
      invariant Drawn(m, s, before + AlignmentRows(size, positions, i))
    {
      ghost var rows := before + AlignmentRows(size, positions, i);
      assert rows + map[] == rows;
      for j := 0 to n
        invariant Drawn(m, s, rows + AlignmentRow(size, positions, i, j))
      {
        ghost var row := AlignmentRow(size, positions, i, j);
        if !Collides(n, i, j) {
          DrawAlignment(m, positions[i], positions[j], s, rows + row);
          Overlay(rows, row, AlignmentPatch(size, positions[i], positions[j]));
        } else {
          assert row + map[] == row;
        }
      }
      Overlay(before, AlignmentRows(size, positions, i), AlignmentRow(size, positions, i, n));
    }
  }

  method DrawFunctionPatterns(m: Matrix, version: nat, ecl: Level, ghost s: Start)
    requires m.Valid() && IsVersion(version) && m.size == SizeOf(version) && Drawn(m, s, map[])
    modifies m.modules, m.reserved
    ensures Drawn(m, s, FunctionPatch(version, ecl))
  {
    hide Drawn, TimingPatch, FinderPatch, AlignmentRows, FormatPatch, VersionInformation, FormatWord, Positions;
    var size := m.size;
    DrawTiming(m, s, map[]);
    ghost var patch := map[] + TimingPatch(size);
    DrawFinder(m, 3, 3, s, patch);
    patch := patch + FinderPatch(size, 3, 3);
    DrawFinder(m, size - 4, 3, s, patch);
    patch := patch + FinderPatch(size, size - 4, 3);
    DrawFinder(m, 3, size - 4, s, patch);
    patch := patch + FinderPatch(size, 3, size - 4);
    DrawAlignments(m, version, s, patch);
    patch := patch + AlignmentRows(size, Positions(version), |Positions(version)|);
    DrawFormatBits(m, ecl, 0, s, patch);
    patch := patch + FormatPatch(size, FormatWord(ecl, 0));
    if version >= 7 {
      DrawVersion(m, version, s, patch);
    } else {
      assert patch + map[] == patch;
    }
    assert map[] + TimingPatch(size) == TimingPatch(size);
  }

  /** Everything `DrawFunctionPatterns` lays down, in drawing order. */
  function FunctionPatch(version: nat, ecl: Level): Grid
    requires IsVersion(version)
  {
    var size := SizeOf(version);
    TimingPatch(size) + FinderPatch(size, 3, 3) + FinderPatch(size, size - 4, 3) + FinderPatch(size, 3, size - 4)
    + AlignmentRows(size, Positions(version), |Positions(version)|)
    + FormatPatch(size, FormatWord(ecl, 0))
    + if version >= 7 then VersionInformation(version) else map[]
  }

  /** Every alignment pattern fits inside the symbol. */
  lemma PositionsInside(version: nat)
    requires IsVersion(version)
    ensures forall t | 0 <= t < |Positions(version)| :: 2 <= Positions(version)[t] < SizeOf(version) - 2
    ensures version > 1 ==> Positions(version)[0] == 6
  {
    if version > 1 {
      var n, step := NumAlign(version), AlignmentStep(version);
      StepFits(version);
      assert Positions(version) == Spaced(n, SizeOf(version) - 7, step);
      hide Positions, NumAlign, AlignmentStep;
      forall t | 1 <= t < n
        ensures 2 <= Positions(version)[t] < SizeOf(version) - 2
      {
        StepsFit(n, t, step);
      }
    }
  }

  lemma StepsFit(n: nat, t: nat, step: int)
    requires 1 <= t < n && step >= 0
    ensures 0 <= (n - 1 - t) * step <= (n - 2) * step
  {
  }

  lemma StepFits(version: nat)
    requires 2 <= version <= MAX_VERSION
    ensures 0 <= AlignmentStep(version)
    ensures (NumAlign(version) - 2) * AlignmentStep(version) <= SizeOf(version) - 9
  {
    var n := NumAlign(version);
    if n == 2 {} else if n == 3 {} else if n == 4 {} else if n == 5 {} else if n == 6 {} else { assert n == 7; }
  }
}
