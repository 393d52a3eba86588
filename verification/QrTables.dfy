/** Capacities of a QR symbol: the block structure tables of ISO/IEC 18004:2015 (section 7.5.1)
    and the arithmetic that derives codeword counts from them. */
module QrTables {

  datatype Level = L | M | Q | H

  const MIN_VERSION := 1
  const MAX_VERSION := 40

  predicate IsVersion(version: nat) {
    MIN_VERSION <= version <= MAX_VERSION
  }

  function NumAlign(version: nat): nat {
    version / 7 + 2
  }

  /** Modules left for data and error correction once the function patterns are drawn. */
  function RawModules(version: nat): int {
    (16 * version + 128) * version + 64
      - (if version >= 2 then (25 * NumAlign(version) - 10) * NumAlign(version) - 55 else 0)
      - (if version >= 7 then 36 else 0)
  }

  function RawCodewords(version: nat): int {
    RawModules(version) / 8
  }

  /** Byte mode: the width of the character count field. */
  function CountBits(version: nat): nat {
    if version <= 9 then 8 else 16
  }

  function Raw1(version: nat): (n: nat)
    requires 1 <= version <= 10
    ensures n == RawCodewords(version)
  {
    match version
    case 1 => 26 case 2 => 44 case 3 => 70 case 4 => 100 case 5 => 134
    case 6 => 172 case 7 => 196 case 8 => 242 case 9 => 292 case 10 => 346
  }

  function Raw11(version: nat): (n: nat)
    requires 11 <= version <= 20
    ensures n == RawCodewords(version)
  {
    match version
    case 11 => 404 case 12 => 466 case 13 => 532 case 14 => 581 case 15 => 655
    case 16 => 733 case 17 => 815 case 18 => 901 case 19 => 991 case 20 => 1085
  }

  function Raw21(version: nat): (n: nat)
    requires 21 <= version <= 30
    ensures n == RawCodewords(version)
  {
    match version
    case 21 => 1156 case 22 => 1258 case 23 => 1364 case 24 => 1474 case 25 => 1588
    case 26 => 1706 case 27 => 1828 case 28 => 1921 case 29 => 2051 case 30 => 2185
  }

  function Raw31(version: nat): (n: nat)
    requires 31 <= version <= 40
    ensures n == RawCodewords(version)
  {
    match version
    case 31 => 2323 case 32 => 2465 case 33 => 2611 case 34 => 2761 case 35 => 2876
    case 36 => 3034 case 37 => 3196 case 38 => 3362 case 39 => 3532 case 40 => 3706
  }

  /** The number of codewords, data and error correction together, by version. */
  function AllCodewords(version: nat): (n: nat)
    requires IsVersion(version)
    ensures n == RawCodewords(version)
  {
    if version <= 10 then Raw1(version) else if version <= 20 then Raw11(version)
    else if version <= 30 then Raw21(version) else Raw31(version)
  }

  /** One column of the tables: error-correction codewords per block, and number of blocks. */
  datatype Column = Column(version: nat, ecc: nat, blocks: nat)

  /** What the encoder needs of a column: a positive code degree, at least one data codeword in
      every block, no block longer than 255 codewords, and a count field wide enough for a full symbol. */
  predicate Usable(c: Column) {
    && IsVersion(c.version) && 0 < c.ecc && 0 < c.blocks
    && c.blocks * (c.ecc + 1) <= AllCodewords(c.version) < 255 * c.blocks
    && AllCodewords(c.version) - c.ecc * c.blocks < (if c.version <= 9 then 0x100 else 0x1_0000)
  }

  function TableL1(version: nat): (c: Column)
    requires 1 <= version <= 10
    ensures c.version == version && Usable(c)
  {
    match version
    case 1 => Column(1, 7, 1) case 2 => Column(2, 10, 1) case 3 => Column(3, 15, 1)
    case 4 => Column(4, 20, 1) case 5 => Column(5, 26, 1)
    case 6 => Column(6, 18, 2) case 7 => Column(7, 20, 2) case 8 => Column(8, 24, 2)
    case 9 => Column(9, 30, 2) case 10 => Column(10, 18, 4)
  }

  function TableL11(version: nat): (c: Column)
    requires 11 <= version <= 20
    ensures c.version == version && Usable(c)
  {
    match version
    case 11 => Column(11, 20, 4) case 12 => Column(12, 24, 4) case 13 => Column(13, 26, 4)
    case 14 => Column(14, 30, 4) case 15 => Column(15, 22, 6)
    case 16 => Column(16, 24, 6) case 17 => Column(17, 28, 6) case 18 => Column(18, 30, 6)
    case 19 => Column(19, 28, 7) case 20 => Column(20, 28, 8)
  }

  function TableL21(version: nat): (c: Column)
    requires 21 <= version <= 30
    ensures c.version == version && Usable(c)
  {
    match version
    case 21 => Column(21, 28, 8) case 22 => Column(22, 28, 9) case 23 => Column(23, 30, 9)
    case 24 => Column(24, 30, 10) case 25 => Column(25, 26, 12)
    case 26 => Column(26, 28, 12) case 27 => Column(27, 30, 12) case 28 => Column(28, 30, 13)
    case 29 => Column(29, 30, 14) case 30 => Column(30, 30, 15)
  }

  function TableL31(version: nat): (c: Column)
    requires 31 <= version <= 40
    ensures c.version == version && Usable(c)
  {
    match version
    case 31 => Column(31, 30, 16) case 32 => Column(32, 30, 17) case 33 => Column(33, 30, 18)
    case 34 => Column(34, 30, 19) case 35 => Column(35, 30, 19)
    case 36 => Column(36, 30, 20) case 37 => Column(37, 30, 21) case 38 => Column(38, 30, 22)
    case 39 => Column(39, 30, 24) case 40 => Column(40, 30, 25)
  }

  function TableM1(version: nat): (c: Column)
    requires 1 <= version <= 10
    ensures c.version == version && Usable(c)
  {
    match version
    case 1 => Column(1, 10, 1) case 2 => Column(2, 16, 1) case 3 => Column(3, 26, 1)
    case 4 => Column(4, 18, 2) case 5 => Column(5, 24, 2)
    case 6 => Column(6, 16, 4) case 7 => Column(7, 18, 4) case 8 => Column(8, 22, 4)
    case 9 => Column(9, 22, 5) case 10 => Column(10, 26, 5)
  }

  function TableM11(version: nat): (c: Column)
    requires 11 <= version <= 20
    ensures c.version == version && Usable(c)
  {
    match version
    case 11 => Column(11, 30, 5) case 12 => Column(12, 22, 8) case 13 => Column(13, 22, 9)
    case 14 => Column(14, 24, 9) case 15 => Column(15, 24, 10)
    case 16 => Column(16, 28, 10) case 17 => Column(17, 28, 11) case 18 => Column(18, 26, 13)
    case 19 => Column(19, 26, 14) case 20 => Column(20, 26, 16)
  }

  function TableM21(version: nat): (c: Column)
    requires 21 <= version <= 30
    ensures c.version == version && Usable(c)
  {
    match version
    case 21 => Column(21, 26, 17) case 22 => Column(22, 28, 17) case 23 => Column(23, 28, 18)
    case 24 => Column(24, 28, 20) case 25 => Column(25, 28, 21)
    case 26 => Column(26, 28, 23) case 27 => Column(27, 28, 25) case 28 => Column(28, 28, 26)
    case 29 => Column(29, 28, 28) case 30 => Column(30, 28, 29)
  }

  function TableM31(version: nat): (c: Column)
    requires 31 <= version <= 40
    ensures c.version == version && Usable(c)
  {
    match version
    case 31 => Column(31, 28, 31) case 32 => Column(32, 28, 33) case 33 => Column(33, 28, 35)
    case 34 => Column(34, 28, 37) case 35 => Column(35, 28, 38)
    case 36 => Column(36, 28, 40) case 37 => Column(37, 28, 43) case 38 => Column(38, 28, 45)
    case 39 => Column(39, 28, 47) case 40 => Column(40, 28, 49)
  }

  function TableQ1(version: nat): (c: Column)
    requires 1 <= version <= 10
    ensures c.version == version && Usable(c)
  {
    match version
    case 1 => Column(1, 13, 1) case 2 => Column(2, 22, 1) case 3 => Column(3, 18, 2)
    case 4 => Column(4, 26, 2) case 5 => Column(5, 18, 4)
    case 6 => Column(6, 24, 4) case 7 => Column(7, 18, 6) case 8 => Column(8, 22, 6)
    case 9 => Column(9, 20, 8) case 10 => Column(10, 24, 8)
  }

  function TableQ11(version: nat): (c: Column)
    requires 11 <= version <= 20
    ensures c.version == version && Usable(c)
  {
    match version
    case 11 => Column(11, 28, 8) case 12 => Column(12, 26, 10) case 13 => Column(13, 24, 12)
    case 14 => Column(14, 20, 16) case 15 => Column(15, 30, 12)
    case 16 => Column(16, 24, 17) case 17 => Column(17, 28, 16) case 18 => Column(18, 28, 18)
    case 19 => Column(19, 26, 21) case 20 => Column(20, 30, 20)
  }

  function TableQ21(version: nat): (c: Column)
    requires 21 <= version <= 30
    ensures c.version == version && Usable(c)
  {
    match version
    case 21 => Column(21, 28, 23) case 22 => Column(22, 30, 23) case 23 => Column(23, 30, 25)
    case 24 => Column(24, 30, 27) case 25 => Column(25, 30, 29)
    case 26 => Column(26, 28, 34) case 27 => Column(27, 30, 34) case 28 => Column(28, 30, 35)
    case 29 => Column(29, 30, 38) case 30 => Column(30, 30, 40)
  }

  function TableQ31(version: nat): (c: Column)
    requires 31 <= version <= 40
    ensures c.version == version && Usable(c)
  {
    match version
    case 31 => Column(31, 30, 43) case 32 => Column(32, 30, 45) case 33 => Column(33, 30, 48)
    case 34 => Column(34, 30, 51) case 35 => Column(35, 30, 53)
    case 36 => Column(36, 30, 56) case 37 => Column(37, 30, 59) case 38 => Column(38, 30, 62)
    case 39 => Column(39, 30, 65) case 40 => Column(40, 30, 68)
  }

  function TableH1(version: nat): (c: Column)
    requires 1 <= version <= 10
    ensures c.version == version && Usable(c)
  {
    match version
    case 1 => Column(1, 17, 1) case 2 => Column(2, 28, 1) case 3 => Column(3, 22, 2)
    case 4 => Column(4, 16, 4) case 5 => Column(5, 22, 4)
    case 6 => Column(6, 28, 4) case 7 => Column(7, 26, 5) case 8 => Column(8, 26, 6)
    case 9 => Column(9, 24, 8) case 10 => Column(10, 28, 8)
  }

  function TableH11(version: nat): (c: Column)
    requires 11 <= version <= 20
    ensures c.version == version && Usable(c)
  {
    match version
    case 11 => Column(11, 24, 11) case 12 => Column(12, 28, 11) case 13 => Column(13, 22, 16)
    case 14 => Column(14, 24, 16) case 15 => Column(15, 24, 18)
    case 16 => Column(16, 30, 16) case 17 => Column(17, 28, 19) case 18 => Column(18, 28, 21)
    case 19 => Column(19, 26, 25) case 20 => Column(20, 28, 25)
  }

  function TableH21(version: nat): (c: Column)
    requires 21 <= version <= 30
    ensures c.version == version && Usable(c)
  {
    match version
    case 21 => Column(21, 30, 25) case 22 => Column(22, 24, 34) case 23 => Column(23, 30, 30)
    case 24 => Column(24, 30, 32) case 25 => Column(25, 30, 35)
    case 26 => Column(26, 30, 37) case 27 => Column(27, 30, 40) case 28 => Column(28, 30, 42)
    case 29 => Column(29, 30, 45) case 30 => Column(30, 30, 48)
  }

  function TableH31(version: nat): (c: Column)
    requires 31 <= version <= 40
    ensures c.version == version && Usable(c)
  {
    match version
    case 31 => Column(31, 30, 51) case 32 => Column(32, 30, 54) case 33 => Column(33, 30, 57)
    case 34 => Column(34, 30, 60) case 35 => Column(35, 30, 63)
    case 36 => Column(36, 30, 66) case 37 => Column(37, 30, 70) case 38 => Column(38, 30, 74)
    case 39 => Column(39, 30, 77) case 40 => Column(40, 30, 81)
  }

  function Table(version: nat, ecl: Level): (c: Column)
    requires IsVersion(version)
    ensures c.version == version && Usable(c)
  {
    match ecl
    case L =>
      if version <= 10 then TableL1(version) else if version <= 20 then TableL11(version)
      else if version <= 30 then TableL21(version) else TableL31(version)
    case M =>
      if version <= 10 then TableM1(version) else if version <= 20 then TableM11(version)
      else if version <= 30 then TableM21(version) else TableM31(version)
    case Q =>
      if version <= 10 then TableQ1(version) else if version <= 20 then TableQ11(version)
      else if version <= 30 then TableQ21(version) else TableQ31(version)
    case H =>
      if version <= 10 then TableH1(version) else if version <= 20 then TableH11(version)
      else if version <= 30 then TableH21(version) else TableH31(version)
  }

  lemma ProductGrows(a: nat, b: nat)
    requires 0 < a
    ensures b * a < a * (b + 1)
  {
  }

  /** What the error correction of all blocks leaves of the symbol: always something, and never more
      than the count field can name. */
  function DataCodewords(version: nat, ecl: Level): (n: int)
    requires IsVersion(version)
    ensures n + Table(version, ecl).ecc * Table(version, ecl).blocks == RawCodewords(version)
    ensures 0 < n < (if CountBits(version) == 8 then 0x100 else 0x1_0000)
  {
    var c := Table(version, ecl);
    ProductGrows(c.blocks, c.ecc);
    RawCodewords(version) - c.ecc * c.blocks
  }
}
