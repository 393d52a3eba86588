/** Reading the format information back (section 7.9 of ISO/IEC 18004:2015): the five data bits of
    the word drawn beside the top-left finder name the error-correction level and the mask. */
module QrFormat {
  import opened QrTables
  import opened QrZigzag
  import opened QrMatrix
  import opened QrPatterns

  /** The data bits, most significant first: two for the level, three for the mask. */
  datatype Five = Five(b4: bool, b3: bool, b2: bool, b1: bool, b0: bool)

  function FiveOf(ecl: Level, mask: nat): Five
    requires mask < 8
  {
    Five(ecl.Q? || ecl.H?, ecl.L? || ecl.Q?, mask / 4 == 1, mask / 2 % 2 == 1, mask % 2 == 1)
  }

  function LevelOf(f: Five): Level {
    if f.b4 then (if f.b3 then Q else H) else (if f.b3 then L else M)
  }

  function MaskOf(f: Five): (mask: nat)
    ensures mask < 8
  {
    (if f.b2 then 4 else 0) + (if f.b1 then 2 else 0) + (if f.b0 then 1 else 0)
  }

  /** The data bits of a format word, with the fixed XOR pattern taken off. */
  function FiveOfWord(w: Word): Five {
    Five(!WordBit(w, 14), WordBit(w, 13), !WordBit(w, 12), WordBit(w, 11), !WordBit(w, 10))
  }

  lemma RemainderStepSmall(rem: Word)
    requires rem < 1024
    ensures FormatStep(rem) < 1024
  {
    if rem < 512 {
      assert rem >> 9 == 0;
    } else {
      assert rem >> 9 == 1;
    }
  }

  lemma {:induction false} RemainderSmall(data: Word, n: nat)
    requires data < 1024
    ensures FormatRemainder(data, n) < 1024
  {
    hide FormatStep;
    if n > 0 {
      RemainderSmall(data, n - 1);
      RemainderStepSmall(FormatRemainder(data, n - 1));
    }
  }

  /** The remainder occupies the low ten bits only; above it lie the data and the XOR pattern. */
  lemma HighBits(data: Word, rem: Word)
    requires data < 32 && rem < 1024
    ensures FormatCombine(data, rem) >> 10 == data ^ 0x15
  {
    assert rem >> 10 == 0;
  }

  lemma ShiftedBits(w: Word)
    ensures WordBit(w, 10) == ((w >> 10) & 1 != 0) && WordBit(w, 11) == ((w >> 10) & 2 != 0)
    ensures WordBit(w, 12) == ((w >> 10) & 4 != 0) && WordBit(w, 13) == ((w >> 10) & 8 != 0)
    ensures WordBit(w, 14) == ((w >> 10) & 16 != 0)
  {
  }

  lemma FlippedBits(data: Word)
    ensures ((data ^ 0x15) & 1 != 0) == !(data & 1 != 0) && ((data ^ 0x15) & 2 != 0) == (data & 2 != 0)
    ensures ((data ^ 0x15) & 4 != 0) == !(data & 4 != 0) && ((data ^ 0x15) & 8 != 0) == (data & 8 != 0)
    ensures ((data ^ 0x15) & 16 != 0) == !(data & 16 != 0)
  {
  }

  lemma DataBitsAre(ecl: Level, mask: nat)
    requires mask < 8
    ensures var data := FormatData(ecl, mask);
            data < 32
            && Five(data & 16 != 0, data & 8 != 0, data & 4 != 0, data & 2 != 0, data & 1 != 0) == FiveOf(ecl, mask)
  {
  }

  /** The format word determines the level and the mask. */
  lemma FormatWordReads(ecl: Level, mask: nat)
    requires mask < 8
    ensures LevelOf(FiveOfWord(FormatWord(ecl, mask))) == ecl
    ensures MaskOf(FiveOfWord(FormatWord(ecl, mask))) == mask
  {
    hide FormatData, FormatRemainder, FormatCombine, WordBit;
    var data := FormatData(ecl, mask);
    DataBitsAre(ecl, mask);
    RemainderSmall(data, 10);
    HighBits(data, FormatRemainder(data, 10));
    ShiftedBits(FormatWord(ecl, mask));
    FlippedBits(data);
  }

  lemma {:induction false} CopyShows(w: Word, n: nat, j: nat)
    requires j < n <= 15
    ensures FormatCell(j) in FormatCopy(w, n) && FormatCopy(w, n)[FormatCell(j)] == WordBit(w, j)
  {
    hide WordBit;
    if j < n - 1 {
      CopyShows(w, n - 1, j);
    }
  }

  lemma {:induction false} Copy2Apart(size: nat, w: Word, n: nat, x: int)
    requires n <= 15 && x < 8 && 16 <= size
    ensures Cell(x, 8) !in FormatCopy2(size, w, n)
  {
    hide WordBit;
    if n > 0 {
      Copy2Apart(size, w, n - 1, x);
    }
  }

  /** Read the level and the mask off a symbol. */
  function ReadFive(g: Grid): Five
    requires forall x | 0 <= x < 5 :: Cell(x, 8) in g
  {
    Five(!g[Cell(0, 8)], g[Cell(1, 8)], !g[Cell(2, 8)], g[Cell(3, 8)], !g[Cell(4, 8)])
  }

  lemma PatchShows(size: nat, w: Word, j: nat)
    requires 21 <= size && 10 <= j < 15
    ensures Cell(14 - j, 8) in FormatPatch(size, w) && FormatPatch(size, w)[Cell(14 - j, 8)] == WordBit(w, j)
  {
    hide FormatCopy, FormatCopy2, WordBit;
    CopyShows(w, 15, j);
    Copy2Apart(size, w, 15, 14 - j);
  }

  /** Whatever the rest of the symbol, its format cells name the level and mask it was drawn with. */
  lemma FormatReads(size: nat, g: Grid, ecl: Level, mask: nat)
    requires 21 <= size && mask < 8
    ensures forall x | 0 <= x < 5 :: Cell(x, 8) in g + FormatPatch(size, FormatWord(ecl, mask))
    ensures var f := ReadFive(g + FormatPatch(size, FormatWord(ecl, mask))); LevelOf(f) == ecl && MaskOf(f) == mask
  {
    hide FormatWord, FormatPatch, WordBit;
    var w := FormatWord(ecl, mask);
    forall x | 0 <= x < 5
      ensures Cell(x, 8) in FormatPatch(size, w) && FormatPatch(size, w)[Cell(x, 8)] == WordBit(w, 14 - x)
    {
      PatchShows(size, w, 14 - x);
    }
    FormatWordReads(ecl, mask);
    assert ReadFive(g + FormatPatch(size, w)) == FiveOfWord(w);
  }
}
