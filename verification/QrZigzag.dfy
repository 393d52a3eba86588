/** The order in which a QR symbol's modules are filled (section 7.7.3 of ISO/IEC 18004:2015):
    two columns at a time from the right, alternately upwards and downwards, stepping over the
    vertical timing column 6. */
module QrZigzag {

  datatype Cell = Cell(x: int, y: int)

  predicate IsSize(size: nat) {
    21 <= size && size % 4 == 1
  }

  predicate InGrid(size: nat, cell: Cell) {
    0 <= cell.x < size && 0 <= cell.y < size
  }

  /** Number of column pairs. */
  function Pairs(size: nat): nat {
    size / 2
  }

  /** Right-hand column of pair `c`. Past the timing column the pairs are shifted by one. */
  function Right(size: nat, c: nat): int {
    if size - 1 - 2 * c > 6 then size - 1 - 2 * c else size - 2 - 2 * c
  }

  predicate Upward(right: int) {
    (right + 1) / 2 % 2 == 0
  }

  /** The module visited at row step `vert`, column `k` of pair `c`. */
  function CellOf(size: nat, c: nat, vert: nat, k: nat): Cell {
    var right := Right(size, c);
    Cell(right - k, if Upward(right) then size - 1 - vert else vert)
  }

  /** The first `n` visits of pair `c`. */
  function PairPath(size: nat, c: nat, n: nat): (p: seq<Cell>)
    ensures |p| == n
  {
    seq(n, q requires 0 <= q => CellOf(size, c, q / 2, q % 2))
  }

  /** All visits of the first `c` pairs. */
  function Path(size: nat, c: nat): seq<Cell> {
    if c == 0 then [] else Path(size, c - 1) + PairPath(size, c - 1, 2 * size)
  }

  function FullPath(size: nat): seq<Cell> {
    Path(size, Pairs(size))
  }

  predicate NoDuplicates(p: seq<Cell>) {
    forall i, j | 0 <= i < j < |p| :: p[i] != p[j]
  }

  // ---- The path visits every module outside column 6 exactly once -------------------------

  lemma PairBounds(size: nat, c: nat)
    requires IsSize(size) && c < Pairs(size)
    ensures 1 <= Right(size, c) < size
    ensures Right(size, c) != 6 && Right(size, c) != 7
    ensures c > 0 ==> Right(size, c) < Right(size, c - 1) - 1
    ensures c > 0 && Right(size, c) < Right(size, c - 1) - 2 ==> Right(size, c) == 5 && Right(size, c - 1) == 8
    ensures c == 0 ==> Right(size, c) == size - 1
    ensures c == Pairs(size) - 1 ==> Right(size, c) == 1
  {
  }

  lemma PairPathCells(size: nat, c: nat, n: nat)
    requires IsSize(size) && c < Pairs(size) && n <= 2 * size
    ensures NoDuplicates(PairPath(size, c, n))
    ensures forall cell | cell in PairPath(size, c, n) ::
              InGrid(size, cell) && cell.x != 6 && Right(size, c) - 1 <= cell.x <= Right(size, c)
  {
    hide Upward;
    PairBounds(size, c);
    hide Right;
    var p := PairPath(size, c, n);
    forall i, j | 0 <= i < j < n
      ensures p[i] != p[j]
    {
      if i % 2 == j % 2 {
        assert i / 2 != j / 2;
      }
    }
  }

  lemma PairPathCovers(size: nat, c: nat, cell: Cell)
    requires IsSize(size) && c < Pairs(size) && InGrid(size, cell)
    requires Right(size, c) - 1 <= cell.x <= Right(size, c)
    ensures cell in PairPath(size, c, 2 * size)
  {
    hide Right;
    var vert := if Upward(Right(size, c)) then size - 1 - cell.y else cell.y;
    var q := 2 * vert + (Right(size, c) - cell.x);
    assert PairPath(size, c, 2 * size)[q] == cell;
  }

  lemma {:induction false} PathCells(size: nat, c: nat)
    requires IsSize(size) && c <= Pairs(size)
    ensures NoDuplicates(Path(size, c))
    ensures forall cell | cell in Path(size, c) :: InGrid(size, cell) && cell.x != 6
    ensures c > 0 ==> forall cell | cell in Path(size, c) :: Right(size, c - 1) - 1 <= cell.x
  {
    if c > 0 {
      PathCells(size, c - 1);
      PairPathCells(size, c - 1, 2 * size);
      PairBounds(size, c - 1);
      hide Right, PairPath;
    }
  }

  lemma {:induction false} PathCovers(size: nat, c: nat, cell: Cell)
    requires IsSize(size) && 0 < c <= Pairs(size) && InGrid(size, cell)
    requires cell.x != 6 && Right(size, c - 1) - 1 <= cell.x
    ensures cell in Path(size, c)
  {
    PairBounds(size, c - 1);
    if cell.x <= Right(size, c - 1) {
      PairPathCovers(size, c - 1, cell);
    } else {
      PathCovers(size, c - 1, cell);
    }
  }

  /** The zigzag is a bijection between visits and the modules outside the timing column. */
  lemma PathIsBijection(size: nat)
    requires IsSize(size)
    ensures NoDuplicates(FullPath(size))
    ensures forall cell :: cell in FullPath(size) <==> InGrid(size, cell) && cell.x != 6
  {
    PathCells(size, Pairs(size));
    PairBounds(size, Pairs(size) - 1);
    forall cell | InGrid(size, cell) && cell.x != 6
      ensures cell in FullPath(size)
    {
      PathCovers(size, Pairs(size), cell);
    }
  }

  // ---- Free modules ----------------------------------------------------------------------

  /** The unreserved modules of a path, in visiting order. */
  function Free(path: seq<Cell>, reserved: set<Cell>): seq<Cell> {
    if |path| == 0 then []
    else
      var last := path[|path| - 1];
      Free(path[..|path| - 1], reserved) + (if last in reserved then [] else [last])
  }

  function SetOf(path: seq<Cell>): set<Cell> {
    set cell | cell in path
  }

  lemma {:induction false} FreeMembers(path: seq<Cell>, reserved: set<Cell>)
    ensures forall cell :: cell in Free(path, reserved) <==> cell in path && cell !in reserved
  {
    if |path| > 0 {
      var init, last := path[..|path| - 1], path[|path| - 1];
      FreeMembers(init, reserved);
      assert path == init + [last];
    }
  }

  lemma {:induction false} FreeDistinct(path: seq<Cell>, reserved: set<Cell>)
    requires NoDuplicates(path)
    ensures NoDuplicates(Free(path, reserved))
  {
    if |path| > 0 {
      var init, last := path[..|path| - 1], path[|path| - 1];
      LastIsNew(path);
      FreeDistinct(init, reserved);
      FreeMembers(init, reserved);
      assert last !in Free(init, reserved);
    }
  }

  lemma {:induction false} FreeCount(path: seq<Cell>, reserved: set<Cell>)
    requires NoDuplicates(path)
    ensures |Free(path, reserved)| == |SetOf(path) - reserved|
  {
    if |path| > 0 {
      var init, last := path[..|path| - 1], path[|path| - 1];
      LastIsNew(path);
      FreeCount(init, reserved);
      OneMore(SetOf(init), last, reserved);
      hide NoDuplicates, SetOf;
      assert |Free(path, reserved)| == |Free(init, reserved)| + if last in reserved then 0 else 1;
    }
  }

  lemma OneMore(s: set<Cell>, x: Cell, r: set<Cell>)
    requires x !in s
    ensures |(s + {x}) - r| == |s - r| + if x in r then 0 else 1
  {
    if x in r {
      assert (s + {x}) - r == s - r;
    } else {
      assert (s + {x}) - r == (s - r) + {x};
    }
  }

  lemma LastIsNew(path: seq<Cell>)
    requires NoDuplicates(path) && |path| > 0
    ensures var init, last := path[..|path| - 1], path[|path| - 1];
            NoDuplicates(init) && last !in init && last !in SetOf(init) && SetOf(path) == SetOf(init) + {last}
  {
    var init, last := path[..|path| - 1], path[|path| - 1];
    assert path == init + [last];
    assert forall i | 0 <= i < |init| :: path[i] == init[i] && path[i] != last;
  }
}
