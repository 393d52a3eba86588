/** What the code is for: two blocks of it that differ at all differ in more places than the code has
    roots, so a block with half as many damaged codewords as error-correction codewords still
    determines what was encoded. Rests on the bytes being a field. */
module ReedSolomonDistance {
  import opened Gf256
  import opened Gf256Field
  import opened ReedSolomon
  import opened Sets

  lemma RootIsDoubled(i: nat)
    ensures Root(i) == DoubleN(1, i)
  {
    hide Mul;
    if i > 0 {
      RootIsDoubled(i - 1);
      MulPowerRight(Root(i - 1), 1);
      assert Power(1) == 2;
      assert DoubleN(Root(i - 1), 1) == Double(DoubleN(Root(i - 1), 0));
    }
  }

  // ---- Cancelling one position -----------------------------------------------------------

  function Support(c: seq<Byte>): set<nat> {
    set p: nat | p < |c| && c[p] != 0
  }

  ghost predicate Vanishes(c: seq<Byte>, degree: nat) {
    forall k: nat | k < degree :: Eval(c, Root(k)) == 0
  }

  /** Each coefficient times the locator of its position. */
  function Twisted(c: seq<Byte>): (t: seq<Byte>)
    ensures |t| == |c|
  {
    seq(|c|, p requires 0 <= p < |c| => Mul(c[p], Root(|c| - 1 - p)))
  }

  /** Twisting moves evaluation from one root to the next. */
  lemma {:induction false} EvalTwisted(c: seq<Byte>, y: Byte)
    ensures Eval(Twisted(c), y) == Eval(c, Mul(y, 2))
  {
    hide Mul, Add;
    if |c| > 0 {
      var n := |c| - 1;
      var init := c[..n];
      EvalTwisted(init, y);
      assert Twisted(c)[..n] == Scaled(Twisted(init), 2) by {
        TwistedPrefix(c);
      }
      EvalScaled(Twisted(init), 2, y);
      var e := Eval(init, Mul(y, 2));
      Associative(e, 2, y);
      Commutative(2, y);
      OneIsRightUnit(c[n]);
      assert Root(0) == 1;
    }
  }

  lemma TwistedPrefix(c: seq<Byte>)
    requires |c| > 0
    ensures Twisted(c)[..|c| - 1] == Scaled(Twisted(c[..|c| - 1]), 2)
  {
    hide Mul;
    var n := |c| - 1;
    forall p | 0 <= p < n
      ensures Twisted(c)[p] == Scaled(Twisted(c[..n]), 2)[p]
    {
      Associative(c[p], Root(n - 1 - p), 2);
    }
  }

  /** Remove position `w` from the support: each coefficient times the difference of locators. */
  function Cancelled(c: seq<Byte>, w: nat): (r: seq<Byte>)
    requires w < |c|
    ensures |r| == |c|
  {
    Sum(Twisted(c), Scaled(c, Root(|c| - 1 - w)))
  }

  lemma CancelledVanishes(c: seq<Byte>, w: nat, degree: nat)
    requires w < |c| && degree > 0 && Vanishes(c, degree)
    ensures Vanishes(Cancelled(c, w), degree - 1)
  {
    hide Mul, Add, Eval, Root;
    var x := Root(|c| - 1 - w);
    forall k: nat | k < degree - 1
      ensures Eval(Cancelled(c, w), Root(k)) == 0
    {
      EvalSum(Twisted(c), Scaled(c, x), Root(k));
      EvalTwisted(c, Root(k));
      EvalScaled(c, x, Root(k));
      NextRoot(k);
      MulZero(x);
      AddLaws(0, 0, 0);
    }
  }

  lemma NextRoot(k: nat)
    ensures Root(k + 1) == Mul(Root(k), 2)
  {
    hide Mul;
  }

  lemma CancelledSupport(c: seq<Byte>, w: nat)
    requires w < |c| <= 255
    ensures Support(Cancelled(c, w)) == Support(c) - {w}
  {
    hide Mul, Add, Root;
    var n := |c| - 1;
    forall p: nat | p <= n
      ensures Cancelled(c, w)[p] == 0 <==> c[p] == 0 || p == w
    {
      var x, y := Root(n - p), Root(n - w);
      Distributive(c[p], 0, x, y);
      NoZeroDivisors(c[p], Add(x, y));
      AddZero(x, y);
      RootIsDoubled(n - p);
      RootIsDoubled(n - w);
      if p < w {
        PowersDistinct(n - w, n - p);
      } else if w < p {
        PowersDistinct(n - p, n - w);
      }
    }
  }

  // ---- The minimum distance --------------------------------------------------------------

  /** At one, evaluation is the sum of the coefficients. */
  lemma {:induction false} EvalAtOne(c: seq<Byte>, w: nat)
    requires w < |c| && Support(c) <= {w}
    ensures Eval(c, 1) == c[w]
  {
    hide Mul, Add;
    var n := |c| - 1;
    var init := c[..n];
    OneIsRightUnit(Eval(init, 1));
    AddLaws(c[n], 0, 0);
    if w == n {
      assert forall p: nat | p < n :: c[p] == 0 by { OnlyAt(c, w); }
      assert init == Zeros(n);
      EvalZeros(n, 1);
    } else {
      OnlyAt(c, w);
      assert Support(init) <= {w};
      EvalAtOne(init, w);
      AddLaws(c[w], 0, 0);
    }
  }

  lemma OnlyAt(c: seq<Byte>, w: nat)
    requires Support(c) <= {w}
    ensures forall p: nat | p < |c| && p != w :: c[p] == 0
  {
    forall p: nat | p < |c| && p != w
      ensures c[p] == 0
    {
      assert p !in Support(c);
    }
  }

  /** A block of length at most 255 that vanishes at as many roots as it has nonzero places has none. */
  lemma {:induction false} LightIsZero(c: seq<Byte>, degree: nat)
    requires |c| <= 255 && Vanishes(c, degree) && |Support(c)| <= degree
    ensures Support(c) == {}
    decreases degree
  {
    if Support(c) != {} {
      var w := Pick(Support(c));
      hide Mul, Add, Eval, Cancelled;
      CancelledVanishes(c, w, degree);
      CancelledSupport(c, w);
      assert |Support(c) - {w}| == |Support(c)| - 1;
      assert Root(0) == 1;
      LightIsZero(Cancelled(c, w), degree - 1);
      EvalAtOne(c, w);
    }
  }

  /** The places in which two blocks differ. */
  function Differences(a: seq<Byte>, b: seq<Byte>): set<nat>
    requires |a| == |b|
  {
    set p: nat | p < |a| && a[p] != b[p]
  }

  /** Two different blocks of the code differ in more than `degree` places. */
  lemma MinimumDistance(a: seq<Byte>, b: seq<Byte>, degree: nat)
    requires |a| == |b| <= 255 && Vanishes(a, degree) && Vanishes(b, degree) && a != b
    ensures |Differences(a, b)| > degree
  {
    hide Mul, Add, Eval, Root;
    var c := Sum(a, b);
    forall p: nat | p < |a|
      ensures c[p] == 0 <==> a[p] == b[p]
    {
      AddZero(a[p], b[p]);
    }
    assert Support(c) == Differences(a, b);
    forall k: nat | k < degree
      ensures Eval(c, Root(k)) == 0
    {
      EvalSum(a, b, Root(k));
      AddLaws(0, 0, 0);
    }
    var p :| 0 <= p < |a| && a[p] != b[p];
    assert p in Differences(a, b);
    if |Support(c)| <= degree {
      LightIsZero(c, degree);
    }
  }

  lemma DifferencesAddUp(r: seq<Byte>, a: seq<Byte>, b: seq<Byte>)
    requires |r| == |a| == |b|
    ensures |Differences(a, b)| <= |Differences(r, a)| + |Differences(r, b)|
  {
    var both := Differences(r, a) + Differences(r, b);
    assert Differences(a, b) <= both;
    assert |both - Differences(a, b)| == |both| - |Differences(a, b)|;
  }

  /** A received block within half the degree of two blocks of the code: they are the same block. */
  lemma DamageIsCorrectable(received: seq<Byte>, a: seq<Byte>, b: seq<Byte>, degree: nat)
    requires |received| == |a| == |b| <= 255 && Vanishes(a, degree) && Vanishes(b, degree)
    requires 2 * |Differences(received, a)| <= degree && 2 * |Differences(received, b)| <= degree
    ensures a == b
  {
    DifferencesAddUp(received, a, b);
    if a != b {
      MinimumDistance(a, b, degree);
    }
  }
}
