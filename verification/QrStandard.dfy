/** The encoder's tables, words and patterns against those printed in ISO/IEC 18004:2015: none of these
    statements is phrased with the formula that the encoder computes them by. */
module QrStandard {
  import opened Gf256
  import opened ReedSolomon
  import opened QrBits
  import opened QrTables
  import opened QrData
  import opened QrZigzag
  import opened QrMatrix
  import opened QrPatterns
  import opened QrFormat

  // ---- The field and the roots -----------------------------------------------------------

  /** The field is that of the polynomial 0x11D: doubling shifts, and reduces what leaves the byte. */
  lemma DoublingReduces(x: Byte)
    ensures Mul(2, x) as bv16 == if x < 0x80 then (x as bv16) << 1 else ((x as bv16) << 1) ^ 0x11d
  {
    Commutative(2, x);
    TimesTwo(x);
    hide Mul;
  }

  lemma TimesTwo(x: Byte)
    ensures Mul(x, 2) == Double(x)
  {
    assert Double(0) == 0;
    hide Double;
    assert MulTop(x, 2, 1) == 0;
    assert MulTop(x, 2, 2) == 0;
    assert MulTop(x, 2, 3) == 0;
    assert MulTop(x, 2, 4) == 0;
    assert MulTop(x, 2, 5) == 0;
    assert MulTop(x, 2, 6) == 0;
    assert MulTop(x, 2, 7) == x;
  }

  /** The roots of a code are 1, 2, 4, ...: each is twice the one before. */
  lemma RootsDouble(i: nat, next: nat)
    requires next == i + 1
    ensures Root(0) == 1 && Root(next) == Mul(2, Root(i))
  {
    hide Mul;
    Commutative(2, Root(i));
  }

  // ---- Masks -----------------------------------------------------------------------------

  /** The eight masks, by what they select: the first five look at column and row apart or at their sum, */
  lemma SumMasksSelect(x: nat, y: nat)
    ensures MaskCondition(0, x, y) <==> x % 2 == y % 2
    ensures MaskCondition(1, x, y) <==> y % 2 == 0
    ensures MaskCondition(2, x, y) <==> x % 3 == 0
    ensures MaskCondition(3, x, y) <==> (x + y) % 3 == 0
    ensures MaskCondition(4, x, y) <==> (x / 3) % 2 == (y / 2) % 2
  {
    SumParity(x, y);
    SumParity(x / 3, y / 2);
  }

  /** and the last three at their product. */
  lemma ProductMasksSelect(x: nat, y: nat)
    ensures MaskCondition(5, x, y) <==> (x * y) % 6 == 0
    ensures MaskCondition(6, x, y) <==> (x * y) % 6 < 3
    ensures MaskCondition(7, x, y) <==> (x % 2 == y % 2 <==> (x * y) % 3 != 1)
  {
    var n := x * y;
    Residues(n);
    SumParity(x, y);
    SumParity((x + y) % 2, n % 3);
    assert MaskCondition(5, x, y) <==> n % 2 + n % 3 == 0;
    assert MaskCondition(6, x, y) <==> (n % 2 + n % 3) % 2 == 0;
    assert MaskCondition(7, x, y) <==> ((x + y) % 2 + n % 3) % 2 == 0;
  }

  lemma Residues(n: nat)
    ensures n % 2 + n % 3 == 0 <==> n % 6 == 0
    ensures (n % 2 + n % 3) % 2 == 0 <==> n % 6 < 3
  {
    Halves(n, n / 6, n % 6);
    Thirds(n, n / 6, n % 6);
    Six(n % 6, n % 2, n % 3);
  }

  lemma Halves(n: nat, q: nat, r: nat)
    requires n == 6 * q + r && r < 6
    ensures n % 2 == if r < 2 then r else if r < 4 then r - 2 else r - 4
  {
    var e := if r < 2 then r else if r < 4 then r - 2 else r - 4;
    var k := 3 * q + if r < 2 then 0 else if r < 4 then 1 else 2;
    assert n == 2 * k + e;
  }

  lemma Thirds(n: nat, q: nat, r: nat)
    requires n == 6 * q + r && r < 6
    ensures n % 3 == if r < 3 then r else r - 3
  {
    var e, k := if r < 3 then r else r - 3, 2 * q + if r < 3 then 0 else 1;
    assert n == 3 * k + e;
  }

  lemma Six(r: nat, half: nat, third: nat)
    requires r < 6 && half == (if r < 2 then r else if r < 4 then r - 2 else r - 4)
    requires third == if r < 3 then r else r - 3
    ensures half + third == 0 <==> r == 0
    ensures (half + third) % 2 == 0 <==> r < 3
  {
  }

  lemma SumParity(a: nat, b: nat)
    ensures (a + b) % 2 == if a % 2 == b % 2 then 0 else 1
  {
  }

  // ---- Function patterns -----------------------------------------------------------------

  /** A finder is a dark square of three modules inside a light ring, a dark ring and a light separator. */
  lemma FinderShows(size: nat, cx: int, cy: int, dx: int, dy: int)
    requires -4 <= dx <= 4 && -4 <= dy <= 4 && InGrid(size, Cell(cx + dx, cy + dy))
    ensures Cell(cx + dx, cy + dy) in FinderPatch(size, cx, cy)
    ensures FinderPatch(size, cx, cy)[Cell(cx + dx, cy + dy)]
       <==> || (-1 <= dx <= 1 && -1 <= dy <= 1)
            || ((dx == -3 || dx == 3) && -3 <= dy <= 3)
            || ((dy == -3 || dy == 3) && -3 <= dx <= 3)
  {
  }

  /** An alignment pattern is a dark module inside a light ring and a dark ring. */
  lemma AlignmentShows(size: nat, cx: int, cy: int, dx: int, dy: int)
    requires -2 <= dx <= 2 && -2 <= dy <= 2 && InGrid(size, Cell(cx + dx, cy + dy))
    ensures Cell(cx + dx, cy + dy) in AlignmentPatch(size, cx, cy)
    ensures AlignmentPatch(size, cx, cy)[Cell(cx + dx, cy + dy)]
       <==> (dx == 0 && dy == 0) || dx == -2 || dx == 2 || dy == -2 || dy == 2
  {
  }

  /** The timing patterns alternate along row 6 and column 6, dark at even places. */
  lemma TimingShows(size: nat, k: nat)
    requires 6 < size && k < size
    ensures Cell(k, 6) in TimingPatch(size) && TimingPatch(size)[Cell(k, 6)] == (k % 2 == 0)
    ensures Cell(6, k) in TimingPatch(size) && TimingPatch(size)[Cell(6, k)] == (k % 2 == 0)
    ensures forall cell | cell in TimingPatch(size) :: cell.x == 6 || cell.y == 6
  {
  }

  /** The centre coordinates of Annex E. */
  function AnnexE(version: nat): seq<int>
    requires IsVersion(version)
  {
    match version
    case 1 => [] case 2 => [6, 18] case 3 => [6, 22] case 4 => [6, 26] case 5 => [6, 30] case 6 => [6, 34]
    case 7 => [6, 22, 38] case 8 => [6, 24, 42] case 9 => [6, 26, 46] case 10 => [6, 28, 50]
    case 11 => [6, 30, 54] case 12 => [6, 32, 58] case 13 => [6, 34, 62]
    case 14 => [6, 26, 46, 66] case 15 => [6, 26, 48, 70] case 16 => [6, 26, 50, 74] case 17 => [6, 30, 54, 78]
    case 18 => [6, 30, 56, 82] case 19 => [6, 30, 58, 86] case 20 => [6, 34, 62, 90]
    case 21 => [6, 28, 50, 72, 94] case 22 => [6, 26, 50, 74, 98] case 23 => [6, 30, 54, 78, 102]
    case 24 => [6, 28, 54, 80, 106] case 25 => [6, 32, 58, 84, 110] case 26 => [6, 30, 58, 86, 114]
    case 27 => [6, 34, 62, 90, 118]
    case 28 => [6, 26, 50, 74, 98, 122] case 29 => [6, 30, 54, 78, 102, 126] case 30 => [6, 26, 52, 78, 104, 130]
    case 31 => [6, 30, 56, 82, 108, 134] case 32 => [6, 34, 60, 86, 112, 138] case 33 => [6, 30, 58, 86, 114, 142]
    case 34 => [6, 34, 62, 90, 118, 146]
    case 35 => [6, 30, 54, 78, 102, 126, 150] case 36 => [6, 24, 50, 76, 102, 128, 154]
    case 37 => [6, 28, 54, 80, 106, 132, 158] case 38 => [6, 32, 58, 84, 110, 136, 162]
    case 39 => [6, 26, 54, 82, 110, 138, 166] case 40 => [6, 30, 58, 86, 114, 142, 170]
  }

  lemma SpacedAre(last: int, step: int)
    ensures Spaced(2, last, step) == [6, last]
    ensures Spaced(3, last, step) == [6, last - step, last]
    ensures Spaced(4, last, step) == [6, last - 2 * step, last - step, last]
    ensures Spaced(5, last, step) == [6, last - 3 * step, last - 2 * step, last - step, last]
    ensures Spaced(6, last, step) == [6, last - 4 * step, last - 3 * step, last - 2 * step, last - step, last]
    ensures Spaced(7, last, step)
         == [6, last - 5 * step, last - 4 * step, last - 3 * step, last - 2 * step, last - step, last]
  {
  }

  /** Wherever alignment patterns are prescribed, the encoder draws them. */
  lemma PositionsAre(version: nat)
    requires IsVersion(version)
    ensures Positions(version) == AnnexE(version)
  {
    if version < 14 { PositionsTo13(version); }
    else if version < 21 { PositionsTo20(version); }
    else if version < 28 { PositionsTo27(version); }
    else if version < 35 { PositionsTo34(version); }
    else { PositionsTo40(version); }
  }

  lemma PositionsTo13(version: nat)
    requires 1 <= version <= 13
    ensures Positions(version) == AnnexE(version)
  {
    SpacedAre(SizeOf(version) - 7, AlignmentStep(version));
    hide Spaced;
  }

  lemma PositionsTo20(version: nat)
    requires 14 <= version <= 20
    ensures Positions(version) == AnnexE(version)
  {
    SpacedAre(SizeOf(version) - 7, AlignmentStep(version));
    hide Spaced;
  }

  lemma PositionsTo27(version: nat)
    requires 21 <= version <= 27
    ensures Positions(version) == AnnexE(version)
  {
    SpacedAre(SizeOf(version) - 7, AlignmentStep(version));
    hide Spaced;
  }

  lemma PositionsTo34(version: nat)
    requires 28 <= version <= 34
    ensures Positions(version) == AnnexE(version)
  {
    SpacedAre(SizeOf(version) - 7, AlignmentStep(version));
    hide Spaced;
  }

  lemma PositionsTo40(version: nat)
    requires 35 <= version <= 40
    ensures Positions(version) == AnnexE(version)
  {
    SpacedAre(SizeOf(version) - 7, AlignmentStep(version));
    hide Spaced;
  }

  // ---- Format information ----------------------------------------------------------------

  /** The format words of Annex C, by level and mask. */
  function AnnexC(ecl: Level, mask: nat): Word
    requires mask < 8
  {
    match ecl
    case M => (match mask case 0 => 0x5412 case 1 => 0x5125 case 2 => 0x5e7c case 3 => 0x5b4b
                          case 4 => 0x45f9 case 5 => 0x40ce case 6 => 0x4f97 case 7 => 0x4aa0)
    case L => (match mask case 0 => 0x77c4 case 1 => 0x72f3 case 2 => 0x7daa case 3 => 0x789d
                          case 4 => 0x662f case 5 => 0x6318 case 6 => 0x6c41 case 7 => 0x6976)
    case H => (match mask case 0 => 0x1689 case 1 => 0x13be case 2 => 0x1ce7 case 3 => 0x19d0
                          case 4 => 0x0762 case 5 => 0x0255 case 6 => 0x0d0c case 7 => 0x083b)
    case Q => (match mask case 0 => 0x355f case 1 => 0x3068 case 2 => 0x3f31 case 3 => 0x3a06
                          case 4 => 0x24b4 case 5 => 0x2183 case 6 => 0x2eda case 7 => 0x2bed)
  }

  /** Ten rounds, spelled out. */
  lemma TenRounds(data: Word)
    ensures FormatRemainder(data, 10)
         == FormatStep(FormatStep(FormatStep(FormatStep(FormatStep(
              FormatStep(FormatStep(FormatStep(FormatStep(FormatStep(data))))))))))
  {
    hide FormatStep;
    assert FormatRemainder(data, 1) == FormatStep(data);
    assert FormatRemainder(data, 2) == FormatStep(FormatRemainder(data, 1));
    assert FormatRemainder(data, 3) == FormatStep(FormatRemainder(data, 2));
    assert FormatRemainder(data, 4) == FormatStep(FormatRemainder(data, 3));
    assert FormatRemainder(data, 5) == FormatStep(FormatRemainder(data, 4));
    assert FormatRemainder(data, 6) == FormatStep(FormatRemainder(data, 5));
    assert FormatRemainder(data, 7) == FormatStep(FormatRemainder(data, 6));
    assert FormatRemainder(data, 8) == FormatStep(FormatRemainder(data, 7));
    assert FormatRemainder(data, 9) == FormatStep(FormatRemainder(data, 8));
    assert FormatRemainder(data, 10) == FormatStep(FormatRemainder(data, 9));
  }

  /** The code is linear: each data bit adds its own word. */
  lemma CodeOf(data: Word)
    requires data < 32
    ensures FormatCombine(data, FormatRemainder(data, 10))
         == 0x5412 ^ (if data & 1 != 0 then 0x537 else 0) ^ (if data & 2 != 0 then 0xa6e else 0)
            ^ (if data & 4 != 0 then 0x11eb else 0) ^ (if data & 8 != 0 then 0x23d6 else 0)
            ^ (if data & 16 != 0 then 0x429b else 0)
  {
    TenRounds(data);
  }

  /** The encoder's format words are those of the standard. */
  lemma FormatWordIs(ecl: Level, mask: nat)
    requires mask < 8
    ensures FormatWord(ecl, mask) == AnnexC(ecl, mask)
  {
    CodeOf(FormatData(ecl, mask));
    hide FormatCombine, FormatRemainder;
  }

  // ---- Version information ---------------------------------------------------------------

  /** The version words of Annex D. */
  function AnnexD(version: nat): Word
    requires 7 <= version <= 40
  {
    match version
    case 7 => 0x07c94 case 8 => 0x085bc case 9 => 0x09a99 case 10 => 0x0a4d3 case 11 => 0x0bbf6
    case 12 => 0x0c762 case 13 => 0x0d847 case 14 => 0x0e60d case 15 => 0x0f928 case 16 => 0x10b78
    case 17 => 0x1145d case 18 => 0x12a17 case 19 => 0x13532 case 20 => 0x149a6 case 21 => 0x15683
    case 22 => 0x168c9 case 23 => 0x177ec case 24 => 0x18ec4 case 25 => 0x191e1 case 26 => 0x1afab
    case 27 => 0x1b08e case 28 => 0x1cc1a case 29 => 0x1d33f case 30 => 0x1ed75 case 31 => 0x1f250
    case 32 => 0x209d5 case 33 => 0x216f0 case 34 => 0x228ba case 35 => 0x2379f case 36 => 0x24b0b
    case 37 => 0x2542e case 38 => 0x26a64 case 39 => 0x27541 case 40 => 0x28c69
  }

  /** Twelve rounds, spelled out. */
  lemma TwelveRounds(version: Word)
    ensures VersionRemainder(version, 12)
         == VersionStep(VersionStep(VersionStep(VersionStep(VersionStep(VersionStep(
              VersionStep(VersionStep(VersionStep(VersionStep(VersionStep(VersionStep(version))))))))))))
  {
    hide VersionStep;
    assert VersionRemainder(version, 1) == VersionStep(version);
    assert VersionRemainder(version, 2) == VersionStep(VersionRemainder(version, 1));
    assert VersionRemainder(version, 3) == VersionStep(VersionRemainder(version, 2));
    assert VersionRemainder(version, 4) == VersionStep(VersionRemainder(version, 3));
    assert VersionRemainder(version, 5) == VersionStep(VersionRemainder(version, 4));
    assert VersionRemainder(version, 6) == VersionStep(VersionRemainder(version, 5));
    assert VersionRemainder(version, 7) == VersionStep(VersionRemainder(version, 6));
    assert VersionRemainder(version, 8) == VersionStep(VersionRemainder(version, 7));
    assert VersionRemainder(version, 9) == VersionStep(VersionRemainder(version, 8));
    assert VersionRemainder(version, 10) == VersionStep(VersionRemainder(version, 9));
    assert VersionRemainder(version, 11) == VersionStep(VersionRemainder(version, 10));
    assert VersionRemainder(version, 12) == VersionStep(VersionRemainder(version, 11));
  }

  /** Each bit of the version adds its own word. */
  lemma VersionCodeOf(data: Word)
    requires data < 64
    ensures VersionWord(data)
         == (if data & 1 != 0 then 0x1f25 else 0) ^ (if data & 2 != 0 then 0x216f else 0)
            ^ (if data & 4 != 0 then 0x42de else 0) ^ (if data & 8 != 0 then 0x85bc else 0)
            ^ (if data & 16 != 0 then 0x10b78 else 0) ^ (if data & 32 != 0 then 0x209d5 else 0)
  {
    TwelveRounds(data);
  }

  /** The encoder's version words are those of the standard. */
  lemma VersionWordIs(version: nat)
    requires 7 <= version <= 40
    ensures VersionWord(version as Word) == AnnexD(version)
  {
    if version < 18 { VersionWordTo17(version); }
    else if version < 30 { VersionWordTo29(version); }
    else { VersionWordTo40(version); }
  }

  lemma VersionWordTo17(version: nat)
    requires 7 <= version <= 17
    ensures VersionWord(version as Word) == AnnexD(version)
  {
    hide VersionWord;
    VersionCodeOf(version as Word);
  }

  lemma VersionWordTo29(version: nat)
    requires 18 <= version <= 29
    ensures VersionWord(version as Word) == AnnexD(version)
  {
    hide VersionWord;
    VersionCodeOf(version as Word);
  }

  lemma VersionWordTo40(version: nat)
    requires 30 <= version <= 40
    ensures VersionWord(version as Word) == AnnexD(version)
  {
    hide VersionWord;
    VersionCodeOf(version as Word);
  }

  // ---- Where they are shown --------------------------------------------------------------

  lemma {:induction false} Copy2Shows(size: nat, w: Word, n: nat, j: nat)
    requires j < n <= 15 && 21 <= size
    ensures FormatCell2(size, j) in FormatCopy2(size, w, n)
    ensures FormatCopy2(size, w, n)[FormatCell2(size, j)] == WordBit(w, j)
  {
    hide WordBit;
    if j < n - 1 {
      Copy2Shows(size, w, n - 1, j);
    }
  }

  /** The first copy of the format word goes down column 8 and then left along row 8, around the finder,
      stepping over the timing patterns. The second goes left along row 8 from the right edge, and then
      down column 8 to the bottom edge; the module above that is dark. */
  lemma FormatShows(size: nat, w: Word, k: nat)
    requires 21 <= size && k < 8
    ensures var g := FormatPatch(size, w);
            && (k < 6 ==> Cell(8, k) in g && g[Cell(8, k)] == WordBit(w, k))
            && Cell(8, 7) in g && g[Cell(8, 7)] == WordBit(w, 6)
            && Cell(8, 8) in g && g[Cell(8, 8)] == WordBit(w, 7)
            && Cell(7, 8) in g && g[Cell(7, 8)] == WordBit(w, 8)
            && (k < 6 ==> Cell(5 - k, 8) in g && g[Cell(5 - k, 8)] == WordBit(w, 9 + k))
            && Cell(size - 1 - k, 8) in g && g[Cell(size - 1 - k, 8)] == WordBit(w, k)
            && (k < 7 ==> Cell(8, size - 7 + k) in g && g[Cell(8, size - 7 + k)] == WordBit(w, 8 + k))
            && Cell(8, size - 8) in g && g[Cell(8, size - 8)]
  {
    FormatLies(size, w);
    if k < 6 {
      CopyShows(w, 15, k);
      CopyShows(w, 15, 9 + k);
    }
    CopyShows(w, 15, 6);
    CopyShows(w, 15, 7);
    CopyShows(w, 15, 8);
    Copy2Shows(size, w, 15, k);
    if k < 7 {
      Copy2Shows(size, w, 15, 8 + k);
    }
    hide FormatCopy, FormatCopy2, WordBit;
  }

  lemma FormatLies(size: nat, w: Word)
    requires 21 <= size
    ensures forall cell | cell in FormatCopy2(size, w, 15) :: cell.x >= size - 8 || cell.y >= size - 7
    ensures forall cell | cell in FormatCopy(w, 15) :: cell.x <= 8 && cell.y <= 8
  {
    Copy2Lies(size, w, 15);
    CopyLies(w, 15);
  }

  lemma {:induction false} Copy2Lies(size: nat, w: Word, n: nat)
    requires 21 <= size && n <= 15
    ensures forall cell | cell in FormatCopy2(size, w, n) :: cell.x >= size - 8 || cell.y >= size - 7
  {
    hide WordBit;
    if n > 0 {
      Copy2Lies(size, w, n - 1);
    }
  }

  lemma {:induction false} CopyLies(w: Word, n: nat)
    requires n <= 15
    ensures forall cell | cell in FormatCopy(w, n) :: cell.x <= 8 && cell.y <= 8
  {
    hide WordBit;
    if n > 0 {
      CopyLies(w, n - 1);
    }
  }

  /** The data bits as the second copy shows them. */
  function ReadFive2(g: Grid, size: nat): Five
    requires Cell(8, size - 1) in g && Cell(8, size - 2) in g && Cell(8, size - 3) in g && Cell(8, size - 4) in g
    requires Cell(8, size - 5) in g
  {
    Five(!g[Cell(8, size - 1)], g[Cell(8, size - 2)], !g[Cell(8, size - 3)], g[Cell(8, size - 4)],
         !g[Cell(8, size - 5)])
  }

  lemma SecondCopyShows(size: nat, w: Word)
    requires 21 <= size
    ensures var g := FormatPatch(size, w);
            && Cell(8, size - 1) in g && Cell(8, size - 2) in g && Cell(8, size - 3) in g && Cell(8, size - 4) in g
            && Cell(8, size - 5) in g && ReadFive2(g, size) == FiveOfWord(w)
  {
    hide FormatPatch, WordBit;
    FormatShows(size, w, 2);
    FormatShows(size, w, 3);
    FormatShows(size, w, 4);
    FormatShows(size, w, 5);
    FormatShows(size, w, 6);
  }

  /** Either copy of the format word names the level and the mask. */
  lemma SecondCopyReads(size: nat, g: Grid, ecl: Level, mask: nat)
    requires 21 <= size && mask < 8
    ensures var shown := g + FormatPatch(size, FormatWord(ecl, mask));
            && Cell(8, size - 1) in shown && Cell(8, size - 2) in shown && Cell(8, size - 3) in shown
            && Cell(8, size - 4) in shown && Cell(8, size - 5) in shown
            && LevelOf(ReadFive2(shown, size)) == ecl && MaskOf(ReadFive2(shown, size)) == mask
  {
    hide FormatPatch, FormatWord, WordBit, FiveOfWord, LevelOf, MaskOf;
    SecondCopyShows(size, FormatWord(ecl, mask));
    FormatWordReads(ecl, mask);
  }

  /** The version word is shown in a block of three columns above the bottom-left finder's row, and in
      its transpose: bit `i` is in column `i % 3` of row `i / 3`. */
  lemma {:induction false} VersionShows(size: nat, w: Word, n: nat, i: nat)
    requires i < n <= 18 && 45 <= size
    ensures var g := VersionPatch(size, w, n);
            && Cell(size - 11 + i % 3, i / 3) in g && g[Cell(size - 11 + i % 3, i / 3)] == WordBit(w, i)
            && Cell(i / 3, size - 11 + i % 3) in g && g[Cell(i / 3, size - 11 + i % 3)] == WordBit(w, i)
  {
    hide WordBit;
    if i < n - 1 {
      VersionShows(size, w, n - 1, i);
    }
  }

  // ---- Capacities ------------------------------------------------------------------------

  /** The data codewords of Table 7, for the levels L, M, Q and H. */
  function Table7(version: nat): (int, int, int, int)
    requires IsVersion(version)
  {
    match version
    case 1 => (19, 16, 13, 9) case 2 => (34, 28, 22, 16) case 3 => (55, 44, 34, 26)
    case 4 => (80, 64, 48, 36) case 5 => (108, 86, 62, 46) case 6 => (136, 108, 76, 60)
    case 7 => (156, 124, 88, 66) case 8 => (194, 154, 110, 86) case 9 => (232, 182, 132, 100)
    case 10 => (274, 216, 154, 122) case 11 => (324, 254, 180, 140) case 12 => (370, 290, 206, 158)
    case 13 => (428, 334, 244, 180) case 14 => (461, 365, 261, 197) case 15 => (523, 415, 295, 223)
    case 16 => (589, 453, 325, 253) case 17 => (647, 507, 367, 283) case 18 => (721, 563, 397, 313)
    case 19 => (795, 627, 445, 341) case 20 => (861, 669, 485, 385) case 21 => (932, 714, 512, 406)
    case 22 => (1006, 782, 568, 442) case 23 => (1094, 860, 614, 464) case 24 => (1174, 914, 664, 514)
    case 25 => (1276, 1000, 718, 538) case 26 => (1370, 1062, 754, 596) case 27 => (1468, 1128, 808, 628)
    case 28 => (1531, 1193, 871, 661) case 29 => (1631, 1267, 911, 701) case 30 => (1735, 1373, 985, 745)
    case 31 => (1843, 1455, 1033, 793) case 32 => (1955, 1541, 1115, 845) case 33 => (2071, 1631, 1171, 901)
    case 34 => (2191, 1725, 1231, 961) case 35 => (2306, 1812, 1286, 986) case 36 => (2434, 1914, 1354, 1054)
    case 37 => (2566, 1992, 1426, 1096) case 38 => (2702, 2102, 1502, 1142) case 39 => (2812, 2216, 1582, 1222)
    case 40 => (2956, 2334, 1666, 1276)
  }

  function Capacities(version: nat): (int, int, int, int)
    requires IsVersion(version)
  {
    (DataCodewords(version, L), DataCodewords(version, M), DataCodewords(version, Q), DataCodewords(version, H))
  }

  /** The encoder's tables leave as many data codewords as the standard says. */
  lemma CapacitiesAre(version: nat)
    requires IsVersion(version)
    ensures Capacities(version) == Table7(version)
  {
    if version <= 10 { CapacitiesTo10(version); }
    else if version <= 20 { CapacitiesTo20(version); }
    else if version <= 30 { CapacitiesTo30(version); }
    else { CapacitiesTo40(version); }
  }

  lemma CapacitiesTo10(version: nat)
    requires 1 <= version <= 10
    ensures Capacities(version) == Table7(version)
  {
    hide RawModules;
    var codewords := AllCodewords(version);
  }

  lemma CapacitiesTo20(version: nat)
    requires 11 <= version <= 20
    ensures Capacities(version) == Table7(version)
  {
    hide RawModules;
    var codewords := AllCodewords(version);
  }

  lemma CapacitiesTo30(version: nat)
    requires 21 <= version <= 30
    ensures Capacities(version) == Table7(version)
  {
    hide RawModules;
    var codewords := AllCodewords(version);
  }

  lemma CapacitiesTo40(version: nat)
    requires 31 <= version <= 40
    ensures Capacities(version) == Table7(version)
  {
    hide RawModules;
    var codewords := AllCodewords(version);
  }

  // ---- The data stream -------------------------------------------------------------------

  /** The stream starts with the mode 0100, the number of bytes in 8 bits up to version 9 and in 16 from
      version 10 on, and the bytes. */
  lemma StreamStarts(bytes: seq<Byte>, version: nat, ecl: Level)
    requires IsVersion(version) && Fits(|bytes|, version, ecl)
    ensures var width := if version < 10 then 8 else 16;
            var b := DataBits(bytes, version, DataCodewords(version, ecl) * 8);
            && |b| >= 4 + width + 8 * |bytes|
            && b[..4] == [false, true, false, false] && NatOf(b[4..4 + width]) == |bytes|
            && b[4 + width..4 + width + 8 * |bytes|] == AllBits(bytes)
  {
    hide *;
    CountFits(|bytes|, version, ecl);
    ModeIndicator();
    FitsMeans(|bytes|, version, ecl);
    FieldWidth(version);
    Starts(bytes, version, DataCodewords(version, ecl) * 8);
  }

  lemma FitsMeans(count: nat, version: nat, ecl: Level)
    requires IsVersion(version) && Fits(count, version, ecl)
    ensures 4 + CountBits(version) + count * 8 <= DataCodewords(version, ecl) * 8
  {
    hide DataCodewords, CountBits;
  }

  lemma FieldWidth(version: nat)
    ensures CountBits(version) == if version < 10 then 8 else 16
  {
  }

  lemma Starts(bytes: seq<Byte>, version: nat, capacity: nat)
    requires 4 + CountBits(version) + |bytes| * 8 <= capacity && capacity % 8 == 0
    requires |bytes| < Pow2(CountBits(version)) && BitsOf(4, 4) == [false, true, false, false]
    ensures var width, b := CountBits(version), DataBits(bytes, version, capacity);
            && |b| >= 4 + width + 8 * |bytes|
            && b[..4] == [false, true, false, false] && NatOf(b[4..4 + width]) == |bytes|
            && b[4 + width..4 + width + 8 * |bytes|] == AllBits(bytes)
  {
    hide Pow2, NatOf, BitsOf, AllBits, DataBits, CountBits;
    DataBitsStart(bytes, version, capacity);
    NatOfBitsOf(|bytes|, CountBits(version));
    Fields(BitsOf(4, 4), BitsOf(|bytes|, CountBits(version)), AllBits(bytes), DataBits(bytes, version, capacity));
  }

  /** After the bytes come up to four zeros and zeros to the next codeword, and then the pad codewords
      11101100 and 00010001 in turn, to the end. */
  lemma StreamEnds(bytes: seq<Byte>, version: nat, capacity: nat, k: nat)
    requires 4 + CountBits(version) + |bytes| * 8 <= k < capacity && capacity % 8 == 0
    ensures var used := 4 + CountBits(version) + |bytes| * 8;
            var ended := if used + 4 < capacity then used + 4 else capacity;
            var full := (ended + 7) / 8 * 8;
            DataBits(bytes, version, capacity)[k]
            == (k >= full && [true, true, true, false, true, true, false, false,
                              false, false, false, true, false, false, false, true][(k - full) % 16])
  {
    hide Header, AllBits, CountBits, Aligned, ByteBits, Padding;
    var content := Header(|bytes|, version) + AllBits(bytes);
    AlignedEnds(content, capacity);
    PaddedAt(Aligned(content, capacity), capacity, k);
  }

  lemma PaddedAt(aligned: Bits, capacity: nat, k: nat)
    requires |aligned| <= capacity && |aligned| % 8 == 0 && capacity % 8 == 0 && k < capacity
    ensures Padded(aligned, capacity)[k]
         == if k < |aligned| then aligned[k]
            else [true, true, true, false, true, true, false, false,
                  false, false, false, true, false, false, false, true][(k - |aligned|) % 16]
  {
    hide AllBits, ByteBits, Padding;
    if k >= |aligned| {
      AllBitsAt(Padding((capacity - |aligned|) / 8), k - |aligned|);
      PadBit((capacity - |aligned|) / 8, k - |aligned|);
    }
  }

  lemma AlignedEnds(content: Bits, capacity: nat)
    requires |content| <= capacity && capacity % 8 == 0
    ensures var ended := if |content| + 4 < capacity then |content| + 4 else capacity;
            |Aligned(content, capacity)| == (ended + 7) / 8 * 8
    ensures forall k | |content| <= k < |Aligned(content, capacity)| :: !Aligned(content, capacity)[k]
  {
  }

  lemma PadBit(n: nat, k: nat)
    requires k < 8 * n
    ensures ByteBits(Padding(n)[k / 8])[k % 8]
         == [true, true, true, false, true, true, false, false,
             false, false, false, true, false, false, false, true][k % 16]
  {
    assert k % 16 == k % 8 + 8 * (k / 8 % 2);
    assert ByteBits(0xec) == [true, true, true, false, true, true, false, false];
    assert ByteBits(0x11) == [false, false, false, true, false, false, false, true];
    hide ByteBits;
  }
}
