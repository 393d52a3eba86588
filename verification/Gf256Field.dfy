/** The bytes are a field: doubling has order 255, so every byte but zero is a power of two, and a
    product vanishes only if a factor does. */
module Gf256Field {
  import opened Gf256

  // ---- Powers of two ---------------------------------------------------------------------

  lemma DoubleInjective(a: Byte, b: Byte)
    ensures Double(a) == Double(b) ==> a == b
    ensures Double(a) == 0 ==> a == 0
  {
  }

  lemma {:induction false} DoubleNInjective(a: Byte, b: Byte, n: nat)
    requires DoubleN(a, n) == DoubleN(b, n)
    ensures a == b
  {
    hide Double;
    if n > 0 {
      DoubleInjective(DoubleN(a, n - 1), DoubleN(b, n - 1));
      DoubleNInjective(a, b, n - 1);
    }
  }

  lemma {:induction false} DoubleNZero(a: Byte, n: nat)
    ensures DoubleN(a, n) == 0 <==> a == 0
  {
    hide Double;
    if n > 0 {
      DoubleNZero(a, n - 1);
      DoubleInjective(DoubleN(a, n - 1), 0);
      DoubleZero();
    }
  }

  lemma {:induction false} DoubleNAdds(a: Byte, m: nat, n: nat)
    ensures DoubleN(a, m + n) == DoubleN(DoubleN(a, m), n)
  {
    hide Double;
    if n > 0 {
      DoubleNAdds(a, m, n - 1);
    }
  }

  // ---- Doubling has order 255 ------------------------------------------------------------

  function Doubled4(a: Byte): Byte {
    Double(Double(Double(Double(a))))
  }

  function Doubled17(a: Byte): Byte {
    Double(Doubled4(Doubled4(Doubled4(Doubled4(a)))))
  }

  lemma Doubled4Is(a: Byte, n: nat)
    ensures DoubleN(a, n + 4) == Doubled4(DoubleN(a, n))
  {
    hide Double;
    assert DoubleN(a, n + 1) == Double(DoubleN(a, n));
    assert DoubleN(a, n + 2) == Double(DoubleN(a, n + 1));
    assert DoubleN(a, n + 3) == Double(DoubleN(a, n + 2));
  }

  lemma Leap(n: nat)
    ensures DoubleN(1, n + 17) == Doubled17(DoubleN(1, n))
  {
    hide Double, Doubled4;
    Doubled4Is(1, n);
    Doubled4Is(1, n + 4);
    Doubled4Is(1, n + 8);
    Doubled4Is(1, n + 12);
    assert DoubleN(1, n + 17) == Double(DoubleN(1, n + 16));
  }

  lemma Leaps()
    ensures Doubled17(1) == 152
    ensures Doubled17(152) == 78
    ensures Doubled17(78) == 10
    ensures Doubled17(10) == 153
    ensures Doubled17(153) == 214
    ensures Doubled17(214) == 68
    ensures Doubled17(68) == 147
    ensures Doubled17(147) == 79
    ensures Doubled17(79) == 146
    ensures Doubled17(146) == 215
    ensures Doubled17(215) == 220
    ensures Doubled17(220) == 221
    ensures Doubled17(221) == 69
    ensures Doubled17(69) == 11
    ensures Doubled17(11) == 1
  {
  }

  /** Doubling 255 times comes back to one; doubling 15, 51 or 85 times does not. */
  lemma Cycle()
    ensures DoubleN(1, 15) != 1 && DoubleN(1, 51) != 1 && DoubleN(1, 85) != 1 && DoubleN(1, 255) == 1
  {
    assert DoubleN(1, 0) == 1;
    hide *;
    Fifteen();
    Leaps();
    Leap(0); Leap(17); Leap(34); Leap(51); Leap(68); Leap(85); Leap(102); Leap(119);
    Leap(136); Leap(153); Leap(170); Leap(187); Leap(204); Leap(221); Leap(238);
  }

  lemma Fifteen()
    ensures DoubleN(1, 15) == 38
  {
    assert DoubleN(1, 3) == 8;
    Doubled4Is(1, 3);
    assert Doubled4(8) == 128;
    Doubled4Is(1, 7);
    assert Doubled4(128) == 232;
    Doubled4Is(1, 11);
    assert Doubled4(232) == 38;
  }

  lemma {:induction false} Periodic(m: nat, q: nat)
    requires DoubleN(1, m) == 1
    ensures DoubleN(1, m * q) == 1
  {
    hide DoubleN;
    if q == 0 {
      assert DoubleN(1, 0) == 1 by { NoDoubling(); }
    } else {
      Periodic(m, q - 1);
      DoubleNAdds(1, m * (q - 1), m);
      assert m * (q - 1) + m == m * q;
    }
  }

  lemma NoDoubling()
    ensures DoubleN(1, 0) == 1
  {
  }

  /** A period below 255 would divide 255, hence 15, 51 or 85. */
  lemma {:induction false} NoShorterPeriod(m: nat)
    requires 0 < m < 255
    ensures DoubleN(1, m) != 1
  {
    hide DoubleN;
    if DoubleN(1, m) == 1 {
      var q, r := 255 / m, 255 % m;
      Periodic(m, q);
      DoubleNAdds(1, m * q, r);
      Cycle();
      assert 255 == m * q + r;
      if r > 0 {
        NoShorterPeriod(r);
      } else {
        DivisorsOf255(m, q);
        Periodic(m, 15 / m);
        Periodic(m, 51 / m);
        Periodic(m, 85 / m);
        assert false;
      }
    }
  }

  lemma DivisorsOf255(m: nat, q: nat)
    requires m * q == 255 && m < 255
    ensures m * (15 / m) == 15 || m * (51 / m) == 51 || m * (85 / m) == 85
  {
    if m <= 15 {
      SmallDivisor(m, q);
    } else {
      if q > 15 {
        ProductGrows(16, 16, m, q);
      }
      SmallDivisor(q, m);
    }
  }

  lemma ProductGrows(a: nat, b: nat, m: nat, q: nat)
    requires a <= m && b <= q
    ensures a * b <= m * q
  {
    assert (m - a) * q >= 0 && a * (q - b) >= 0;
  }

  lemma SmallDivisor(m: nat, q: nat)
    requires m * q == 255 && m <= 15
    ensures (m == 1 && q == 255) || (m == 3 && q == 85) || (m == 5 && q == 51) || (m == 15 && q == 17)
  {
    if m == 0 {} else if m == 1 {} else if m == 2 {} else if m == 3 {} else if m == 4 {} else if m == 5 {} else if m == 6 {}
    else if m == 7 {} else if m == 8 {} else if m == 9 {} else if m == 10 {} else if m == 11 {} else if m == 12 {}
    else if m == 13 {} else if m == 14 {} else {}
  }

  /** The 255 locators are different. */
  lemma PowersDistinct(i: nat, j: nat)
    requires i < j < 255
    ensures DoubleN(1, i) != DoubleN(1, j)
  {
    hide DoubleN;
    if DoubleN(1, i) == DoubleN(1, j) {
      DoubleNAdds(1, j - i, i);
      DoubleNInjective(1, DoubleN(1, j - i), i);
      NoShorterPeriod(j - i);
    }
  }

  // ---- No zero divisors ------------------------------------------------------------------

  function Number(b: Byte): (n: int)
    ensures 0 <= n < 256 && (n == 0 <==> b == 0)
  {
    b as int
  }

  lemma NumberInjective(a: Byte, b: Byte)
    requires Number(a) == Number(b)
    ensures a == b
  {
  }

  /** The first `n` powers of two, as numbers. */
  ghost function Powers(n: nat): set<int> {
    if n == 0 then {} else Powers(n - 1) + {Number(DoubleN(1, n - 1))}
  }

  lemma {:induction false} PowersAre(n: nat, b: Byte)
    ensures Number(b) in Powers(n) <==> exists k: nat | k < n :: DoubleN(1, k) == b
  {
    hide DoubleN, Number;
    if n > 0 {
      PowersAre(n - 1, b);
      if Number(b) == Number(DoubleN(1, n - 1)) {
        NumberInjective(b, DoubleN(1, n - 1));
        assert exists k: nat | k < n :: DoubleN(1, k) == b;
        assert Number(b) in Powers(n);
      }
    }
  }

  lemma {:induction false} PowersCount(n: nat)
    requires n <= 255
    ensures |Powers(n)| == n && Powers(n) <= Numbers(1, 256)
  {
    hide DoubleN, Number, Numbers;
    if n > 0 {
      PowersCount(n - 1);
      DoubleNZero(1, n - 1);
      PowersAre(n - 1, DoubleN(1, n - 1));
      forall k: nat | k < n - 1
        ensures DoubleN(1, k) != DoubleN(1, n - 1)
      {
        PowersDistinct(k, n - 1);
      }
    }
  }

  ghost function Numbers(a: int, b: int): (s: set<int>)
    requires a <= b
    ensures |s| == b - a && forall x :: x in s <==> a <= x < b
    decreases b - a
  {
    if a == b then {} else Numbers(a, b - 1) + {b - 1}
  }

  lemma SubsetOfSameSize(a: set<int>, b: set<int>)
    requires a <= b && |a| == |b|
    ensures a == b
  {
    assert |b - a| == |b| - |a|;
  }

  /** Every byte but zero is a power of two. */
  lemma LogExists(b: Byte)
    requires b != 0
    ensures exists k: nat | k < 255 :: DoubleN(1, k) == b
  {
    hide DoubleN, Powers, Number;
    PowersCount(255);
    SubsetOfSameSize(Powers(255), Numbers(1, 256));
    assert Number(b) in Powers(255);
    PowersAre(255, b);
  }

  /** The bytes form a field: a product vanishes only if a factor does. */
  lemma NoZeroDivisors(a: Byte, b: Byte)
    ensures Mul(a, b) == 0 <==> a == 0 || b == 0
  {
    hide Mul, DoubleN;
    MulZero(a);
    MulZero(b);
    if b != 0 {
      LogExists(b);
      var k: nat :| k < 255 && DoubleN(1, k) == b;
      MulDoubleNRight(a, 1, k);
      OneIsRightUnit(a);
      DoubleNZero(a, k);
    }
  }
}
