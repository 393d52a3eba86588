/** What a scanner relies on, said without the encoder's own helpers: where the zigzag starts and how
    it moves from one module to the next. */
module QrGeometry {
  import opened QrZigzag

  // ---- Visits by number ------------------------------------------------------------------

  lemma Multiple(d: nat, a: nat, b: nat)
    requires a <= b
    ensures d * a <= d * b
    ensures a < b ==> d * a + d <= d * b
    ensures a + 1 < b ==> d * a + 2 * d <= d * b
    ensures b == a + 1 ==> d * b == d * a + d
  {
    var k := b - a;
    Spread(d, a, k);
    AtLeast(d, k);
  }

  lemma Spread(d: nat, a: nat, k: nat)
    ensures d * (a + k) == d * a + d * k
  {
  }

  lemma AtLeast(d: nat, k: nat)
    ensures d * k >= 0 && (k >= 1 ==> d * k >= d) && (k >= 2 ==> d * k >= 2 * d) && (k == 1 ==> d * k == d)
  {
    if k >= 2 {
      Spread(d, 2, k - 2);
    }
  }

  lemma Divided(q: nat, d: nat, n: nat)
    requires d > 0 && q < d * n
    ensures 0 <= q / d < n && 0 <= q % d < d && q == d * (q / d) + q % d
  {
    if n <= q / d {
      Multiple(d, n, q / d);
    }
  }

  lemma {:induction false} PathLength(size: nat, n: nat, d: nat)
    requires d == 2 * size
    ensures |Path(size, n)| == d * n
  {
    hide CellOf;
    if n > 0 {
      PathLength(size, n - 1, d);
      Multiple(d, n - 1, n);
    }
  }

  /** Visit `r` of pair `c` is the module the pair's own path names. */
  lemma {:induction false} PathAt(size: nat, n: nat, c: nat, r: nat, d: nat)
    requires c < n && r < d == 2 * size
    ensures |Path(size, n)| == d * n && d * c + r < d * n
    ensures Path(size, n)[d * c + r] == CellOf(size, c, r / 2, r % 2)
    decreases n
  {
    hide CellOf;
    PathLength(size, n, d);
    PathLength(size, n - 1, d);
    Multiple(d, c, n);
    if c < n - 1 {
      PathAt(size, n - 1, c, r, d);
    }
  }

  /** Where visit `q` of the zigzag lies within its pair of columns. */
  lemma VisitAt(size: nat, q: nat, d: nat) returns (c: nat, r: nat)
    requires IsSize(size) && q < |FullPath(size)| && d == 2 * size
    ensures c == q / d < Pairs(size) && r == q % d && q == d * c + r
    ensures FullPath(size)[q] == CellOf(size, c, r / 2, r % 2)
  {
    PathLength(size, Pairs(size), d);
    hide Path, CellOf, Pairs;
    Divided(q, d, Pairs(size));
    c, r := q / d, q % d;
    PathAt(size, Pairs(size), c, r, d);
  }

  lemma Previous(d: nat, q: nat, c: nat, r: nat, c': nat, r': nat)
    requires q > 0 && r < d && r' < d && q == d * c + r && q - 1 == d * c' + r'
    ensures if r > 0 then c' == c && r' == r - 1 else c' == c - 1 && r' == d - 1
  {
    if c <= c' {
      Multiple(d, c, c');
    } else {
      Multiple(d, c', c);
    }
  }

  // ---- The zigzag ------------------------------------------------------------------------

  lemma MovesWithin(size: nat, c: nat, r: nat)
    requires IsSize(size) && c < Pairs(size) && 0 < r < 2 * size
    ensures var last, next := CellOf(size, c, (r - 1) / 2, (r - 1) % 2), CellOf(size, c, r / 2, r % 2);
            if r % 2 == 1 then next == Cell(last.x - 1, last.y)
            else next == Cell(last.x + 1, if c % 2 == 0 then last.y - 1 else last.y + 1)
  {
    Direction(size, c);
    hide Upward, Right;
    if r % 2 == 0 {
      assert r / 2 == (r - 1) / 2 + 1;
    } else {
      assert r / 2 == (r - 1) / 2;
    }
  }

  lemma Direction(size: nat, c: nat)
    requires IsSize(size) && c < Pairs(size)
    ensures Upward(Right(size, c)) <==> c % 2 == 0
  {
  }

  lemma MovesAcross(size: nat, c: nat)
    requires IsSize(size) && 0 < c < Pairs(size)
    ensures var last, next := CellOf(size, c - 1, size - 1, 1), CellOf(size, c, 0, 0);
            next == Cell(if last.x == 7 then 5 else last.x - 1, last.y)
  {
    Direction(size, c);
    Direction(size, c - 1);
    hide Upward;
  }

  /** The zigzag starts at the bottom right module, and has one visit for every module but those of
      column 6. */
  lemma ZigzagStarts(size: nat)
    requires IsSize(size)
    ensures |FullPath(size)| == size * (size - 1) && FullPath(size)[0] == Cell(size - 1, size - 1)
  {
    PathLength(size, Pairs(size), 2 * size);
    Direction(size, 0);
    assert 2 * Pairs(size) == size - 1;
    hide Upward, Path, Pairs;
    Area(size, Pairs(size));
    PathAt(size, Pairs(size), 0, 0, 2 * size);
  }

  lemma Area(size: nat, pairs: nat)
    requires 2 * pairs == size - 1
    ensures 2 * size * pairs == size * (size - 1)
  {
    assert 2 * size * pairs == size * (2 * pairs);
  }

  /** Every second visit steps left; between them it steps right and one row on, upwards in the first
      pair of columns, downwards in the second, and so on; at the end of a pair it stays in its row
      and moves to the next pair on the left, over column 6. */
  lemma ZigzagMoves(size: nat, q: nat)
    requires IsSize(size) && 0 < q < |FullPath(size)|
    ensures var last, next, pair := FullPath(size)[q - 1], FullPath(size)[q], q / (2 * size);
            if q % 2 == 1 then next == Cell(last.x - 1, last.y)
            else if q % (2 * size) != 0 then next == Cell(last.x + 1, if pair % 2 == 0 then last.y - 1 else last.y + 1)
            else next == Cell(if last.x == 7 then 5 else last.x - 1, last.y)
  {
    hide FullPath, CellOf, Pairs;
    var d := 2 * size;
    var c, r := VisitAt(size, q, d);
    var c', r' := VisitAt(size, q - 1, d);
    Previous(d, q, c, r, c', r');
    Parity(size, q, c, r);
    if r > 0 {
      MovesWithin(size, c, r);
    } else {
      MovesAcross(size, c);
      assert (d - 1) / 2 == size - 1 && (d - 1) % 2 == 1;
    }
  }

  lemma Parity(size: nat, q: nat, c: nat, r: nat)
    requires q == 2 * size * c + r
    ensures q % 2 == r % 2
  {
    assert 2 * size * c == 2 * (size * c);
  }
}
