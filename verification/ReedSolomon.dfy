/** The Reed-Solomon code of the QR encoder: the divisor polynomial built from its roots and the
    remainder appended to a block, and the property a decoder relies on: the extended block
    evaluates to zero at every root. Coefficients run from the highest power down. */
module ReedSolomon {
  import opened Gf256

  /** Horner evaluation of a polynomial. */
  function Eval(s: seq<Byte>, y: Byte): Byte {
    if |s| == 0 then 0 else Add(Mul(Eval(s[..|s| - 1], y), y), s[|s| - 1])
  }

  function Pow(y: Byte, n: nat): Byte {
    if n == 0 then 1 else Mul(Pow(y, n - 1), y)
  }

  /** The i-th root of the code. */
  function Root(i: nat): Byte {
    Pow(2, i)
  }

  function Sum(a: seq<Byte>, b: seq<Byte>): (c: seq<Byte>)
    requires |a| == |b|
    ensures |c| == |a|
  {
    seq(|a|, i requires 0 <= i < |a| => Add(a[i], b[i]))
  }

  function Scaled(a: seq<Byte>, f: Byte): (c: seq<Byte>)
    ensures |c| == |a|
  {
    seq(|a|, i requires 0 <= i < |a| => Mul(a[i], f))
  }

  function Zeros(n: nat): (z: seq<Byte>)
    ensures |z| == n
  {
    seq(n, _ => 0)
  }

  // ---- The divisor ----------------------------------------------------------------------

  /** Multiply by (y - root), losing the leading coefficient. */
  function TimesRoot(r: seq<Byte>, root: Byte): (r': seq<Byte>)
    ensures |r'| == |r|
  {
    seq(|r|, j requires 0 <= j < |r| =>
      if j + 1 < |r| then Add(Mul(r[j], root), r[j + 1]) else Mul(r[j], root))
  }

  /** The coefficient list, `n` long, after the first `d` roots. */
  function DivisorAfter(n: nat, d: nat): (r: seq<Byte>)
    ensures |r| == if n == 0 then 1 else n
  {
    if d == 0 then Zeros(if n == 0 then 0 else n - 1) + [1]
    else TimesRoot(DivisorAfter(n, d - 1), Root(d - 1))
  }

  function Divisor(degree: nat): (r: seq<Byte>)
    ensures |r| == if degree == 0 then 1 else degree
  {
    DivisorAfter(degree, degree)
  }

  /** The inner loop: coefficient `j + 1` is still the old one when coefficient `j` is updated. */
  method MultiplyByRoot(coefficients: seq<Byte>, root: Byte) returns (result: seq<Byte>)
    ensures result == TimesRoot(coefficients, root)
  {
    hide Mul, Add;
    result := coefficients;
    for j := 0 to |result|
      invariant |result| == |coefficients|
      invariant forall k | 0 <= k < j :: result[k] == TimesRoot(coefficients, root)[k]
      invariant forall k | j <= k < |result| :: result[k] == coefficients[k]
    {
      var product := GfMultiply(result[j], root);
      result := result[j := product];
      if j + 1 < |result| {
        result := result[j := Add(result[j], result[j + 1])];
      }
    }
  }

  method ReedSolomonDivisor(degree: nat) returns (result: seq<Byte>)
    ensures result == Divisor(degree)
  {
    hide Mul, Add, TimesRoot;
    result := [];
    var i := 0;
    while i < degree - 1
      invariant 0 <= i && (degree > 0 ==> i <= degree - 1) && (degree == 0 ==> i == 0)
      invariant result == Zeros(i)
    {
      result := result + [0];
      i := i + 1;
    }
    result := result + [1];

    var root: Byte := 1;
    for d := 0 to degree
      invariant result == DivisorAfter(degree, d)
      invariant root == Root(d)
    {
      result := MultiplyByRoot(result, root);
      root := GfMultiply(root, 0x02);
    }
  }

  /** The product of (y - root) over the first `d` roots. */
  function RootProduct(d: nat, y: Byte): Byte {
    if d == 0 then 1 else Mul(RootProduct(d - 1, y), Add(y, Root(d - 1)))
  }

  // ---- Evaluation lemmas ----------------------------------------------------------------

  lemma {:induction false} EvalSum(a: seq<Byte>, b: seq<Byte>, y: Byte)
    requires |a| == |b|
    ensures Eval(Sum(a, b), y) == Add(Eval(a, y), Eval(b, y))
  {
    hide Mul, Add;
    if |a| == 0 {
      AddLaws(0, 0, 0);
    } else {
      var n := |a| - 1;
      EvalSum(a[..n], b[..n], y);
      assert Sum(a, b)[..n] == Sum(a[..n], b[..n]);
      var ea, eb := Eval(a[..n], y), Eval(b[..n], y);
      Distributive(ea, eb, y, y);
      AddSwap(Mul(ea, y), Mul(eb, y), a[n], b[n]);
    }
  }

  lemma {:induction false} EvalScaled(a: seq<Byte>, f: Byte, y: Byte)
    ensures Eval(Scaled(a, f), y) == Mul(Eval(a, y), f)
  {
    hide Mul, Add;
    if |a| == 0 {
      MulZero(f);
    } else {
      var n := |a| - 1;
      EvalScaled(a[..n], f, y);
      assert Scaled(a, f)[..n] == Scaled(a[..n], f);
      var e := Eval(a[..n], y);
      Associative(e, f, y);
      Commutative(f, y);
      Associative(e, y, f);
      Distributive(Mul(e, y), a[n], f, f);
    }
  }

  lemma {:induction false} EvalConcat(a: seq<Byte>, b: seq<Byte>, y: Byte)
    ensures Eval(a + b, y) == Add(Mul(Eval(a, y), Pow(y, |b|)), Eval(b, y))
  {
    hide Mul, Add;
    if |b| == 0 {
      assert a + b == a;
      OneIsRightUnit(Eval(a, y));
      AddLaws(Eval(a, y), 0, 0);
    } else {
      var n := |b| - 1;
      assert (a + b)[..|a + b| - 1] == a + b[..n];
      EvalConcat(a, b[..n], y);
      var e, p, q := Eval(a, y), Pow(y, n), Eval(b[..n], y);
      Distributive(Mul(e, p), q, y, y);
      Associative(e, p, y);
      AddLaws(Mul(e, Mul(p, y)), Mul(q, y), b[n]);
    }
  }

  lemma {:induction false} EvalZeros(n: nat, y: Byte)
    ensures Eval(Zeros(n), y) == 0
  {
    hide Mul, Add;
    if n > 0 {
      EvalZeros(n - 1, y);
      assert Zeros(n)[..n - 1] == Zeros(n - 1);
      MulZero(y);
      AddLaws(0, 0, 0);
    }
  }

  lemma EvalSingle(c: Byte, y: Byte)
    ensures Eval([c], y) == c
  {
    hide Mul, Add;
    assert [c][..0] == [];
    MulZero(y);
    AddLaws(c, 0, 0);
  }

  /** Shifting left: the leading coefficient leaves with the weight it had. */
  lemma EvalShifted(r: seq<Byte>, y: Byte)
    requires |r| > 0
    ensures Add(Mul(r[0], Pow(y, |r|)), Eval(r[1..] + [0], y)) == Mul(Eval(r, y), y)
  {
    hide Mul, Add;
    assert r + [0] == [r[0]] + (r[1..] + [0]);
    EvalConcat([r[0]], r[1..] + [0], y);
    EvalSingle(r[0], y);
    assert (r + [0])[..|r|] == r;
    AddLaws(Mul(Eval(r, y), y), 0, 0);
  }

  lemma EvalLeadingZero(s: seq<Byte>, y: Byte)
    ensures Eval([0] + s, y) == Eval(s, y)
  {
    hide Mul, Add;
    EvalConcat([0], s, y);
    EvalSingle(0, y);
    MulZero(Pow(y, |s|));
    AddLaws(Eval(s, y), 0, 0);
  }

  // ---- The divisor is the product of its roots -------------------------------------------

  lemma TimesRootIsSum(r: seq<Byte>, root: Byte)
    requires |r| > 0
    ensures [r[0]] + TimesRoot(r, root) == Sum(r + [0], [0] + Scaled(r, root))
  {
    hide Mul, Add;
    var shifted, scaled := r + [0], [0] + Scaled(r, root);
    forall k | 0 <= k <= |r|
      ensures ([r[0]] + TimesRoot(r, root))[k] == Add(shifted[k], scaled[k])
    {
      AddLaws(shifted[k], scaled[k], 0);
      AddLaws(scaled[k], 0, 0);
      if k == 0 {
        assert scaled[0] == 0;
      } else {
        assert scaled[k] == Mul(r[k - 1], root);
        assert ([r[0]] + TimesRoot(r, root))[k] == TimesRoot(r, root)[k - 1];
      }
    }
  }

  lemma TimesRootEval(r: seq<Byte>, root: Byte, y: Byte)
    requires |r| > 0
    ensures Eval([r[0]] + TimesRoot(r, root), y) == Mul(Eval(r, y), Add(y, root))
  {
    hide Mul, Add, TimesRoot, Sum, Scaled;
    TimesRootIsSum(r, root);
    EvalSum(r + [0], [0] + Scaled(r, root), y);
    assert (r + [0])[..|r|] == r;
    AddLaws(Mul(Eval(r, y), y), 0, 0);
    EvalLeadingZero(Scaled(r, root), y);
    EvalScaled(r, root, y);
    Distributive(Eval(r, y), 0, y, root);
  }

  /** Before the last round the coefficient list still has room: it is monic of degree `d`. */
  lemma {:induction false} DivisorIsMonic(n: nat, d: nat)
    requires d < n
    ensures forall k | 0 <= k < n - 1 - d :: DivisorAfter(n, d)[k] == 0
    ensures DivisorAfter(n, d)[n - 1 - d] == 1
  {
    hide Mul, Add, TimesRoot, Pow;
    if d > 0 {
      DivisorIsMonic(n, d - 1);
      TimesRootShiftsLead(DivisorAfter(n, d - 1), Root(d - 1), n - d);
    }
  }

  lemma TimesRootShiftsLead(r: seq<Byte>, root: Byte, lead: nat)
    requires 0 < lead < |r| && r[lead] == 1
    requires forall k | 0 <= k < lead :: r[k] == 0
    ensures TimesRoot(r, root)[lead - 1] == 1
    ensures forall k | 0 <= k < lead - 1 :: TimesRoot(r, root)[k] == 0
  {
    hide Mul, Add;
    MulZero(root);
    AddLaws(0, 0, 0);
    AddLaws(1, 0, 0);
  }

  lemma {:induction false} DivisorPrefix(n: nat, d: nat, y: Byte)
    requires d < n
    ensures Eval(DivisorAfter(n, d), y) == RootProduct(d, y)
  {
    hide Mul, Add, TimesRoot, Zeros;
    if d == 0 {
      EvalConcat(Zeros(n - 1), [1], y);
      EvalZeros(n - 1, y);
      MulZero(Pow(y, 1));
      EvalSingle(1, y);
      AddLaws(1, 0, 0);
    } else {
      DivisorPrefix(n, d - 1, y);
      DivisorIsMonic(n, d - 1);
      var r, root := DivisorAfter(n, d - 1), Root(d - 1);
      TimesRootEval(r, root, y);
      EvalLeadingZero(TimesRoot(r, root), y);
    }
  }

  /** With its implicit leading one, the divisor is the product of (y - root) over all roots. */
  lemma DivisorIsRootProduct(degree: nat, y: Byte)
    requires degree > 0
    ensures Eval([1] + Divisor(degree), y) == RootProduct(degree, y)
  {
    hide Mul, Add, TimesRoot;
    DivisorPrefix(degree, degree - 1, y);
    DivisorIsMonic(degree, degree - 1);
    TimesRootEval(DivisorAfter(degree, degree - 1), Root(degree - 1), y);
  }

  lemma {:induction false} RootProductVanishes(d: nat, i: nat)
    requires i < d
    ensures RootProduct(d, Root(i)) == 0
  {
    hide Mul, Add;
    if i == d - 1 {
      AddLaws(Root(i), 0, 0);
      MulZero(RootProduct(d - 1, Root(i)));
    } else {
      RootProductVanishes(d - 1, i);
      MulZero(Add(Root(i), Root(d - 1)));
    }
  }

  // ---- The remainder ---------------------------------------------------------------------

  /** One data byte: shift the register, then subtract the divisor times the factor. */
  function RemainderStep(r: seq<Byte>, divisor: seq<Byte>, d: Byte): (r': seq<Byte>)
    requires |r| == |divisor| > 0
    ensures |r'| == |r|
  {
    Sum(r[1..] + [0], Scaled(divisor, Add(d, r[0])))
  }

  function Remainder(data: seq<Byte>, divisor: seq<Byte>): (r: seq<Byte>)
    requires |divisor| > 0
    ensures |r| == |divisor|
  {
    if |data| == 0 then Zeros(|divisor|)
    else RemainderStep(Remainder(data[..|data| - 1], divisor), divisor, data[|data| - 1])
  }

  method ReedSolomonRemainder(data: seq<Byte>, divisor: seq<Byte>) returns (result: seq<Byte>)
    requires |divisor| > 0
    ensures result == Remainder(data, divisor)
  {
    hide Mul, Add;
    result := [];
    for i := 0 to |divisor|
      invariant result == Zeros(i)
    {
      result := result + [0];
    }
    for i := 0 to |data|
      invariant result == Remainder(data[..i], divisor)
    {
      ghost var before := result;
      var factor := Add(data[i], result[0]);
      result := result[1..] + [0];
      for j := 0 to |divisor|
        invariant |result| == |divisor|
        invariant forall k | 0 <= k < j :: result[k] == RemainderStep(before, divisor, data[i])[k]
        invariant forall k | j <= k < |result| :: result[k] == (before[1..] + [0])[k]
      {
        var product := GfMultiply(divisor[j], factor);
        result := result[j := Add(result[j], product)];
      }
      assert data[..i + 1][..i] == data[..i];
    }
    assert data[..|data|] == data;
  }

  /** At a root of the divisor, each step keeps the block consumed so far plus the register at
      zero. */
  lemma {:induction false} RemainderVanishes(data: seq<Byte>, divisor: seq<Byte>, y: Byte)
    requires |divisor| > 0
    requires Eval([1] + divisor, y) == 0
    ensures Eval(data + Remainder(data, divisor), y) == 0
  {
    hide Mul, Add;
    var n := |divisor|;
    if |data| == 0 {
      EvalZeros(n, y);
      assert data + Zeros(n) == Zeros(n);
    } else {
      var init, d := data[..|data| - 1], data[|data| - 1];
      var r, pn := Remainder(init, divisor), Pow(y, n);
      RemainderVanishes(init, divisor, y);
      EvalConcat(init, r, y);
      EvalConcat(data, Remainder(data, divisor), y);
      EvalSum(r[1..] + [0], Scaled(divisor, Add(d, r[0])), y);
      EvalScaled(divisor, Add(d, r[0]), y);
      EvalShifted(r, y);
      EvalConcat([1], divisor, y);
      EvalSingle(1, y);
      RemainderAlgebra(Eval(init, y), Eval(r, y), Eval(r[1..] + [0], y), Eval(divisor, y), pn, y, d, r[0]);
    }
  }

  /** The field arithmetic of one step. */
  lemma RemainderAlgebra(p: Byte, r: Byte, shifted: Byte, dv: Byte, pn: Byte, y: Byte, d: Byte, lead: Byte)
    requires Add(Mul(p, pn), r) == 0
    requires Add(Mul(lead, pn), shifted) == Mul(r, y)
    requires Add(Mul(1, pn), dv) == 0
    ensures Add(Mul(Add(Mul(p, y), d), pn), Add(shifted, Mul(dv, Add(d, lead)))) == 0
  {
    hide Mul, Add;
    AddZero(Mul(p, pn), r);
    AddZero(Mul(1, pn), dv);
    OneIsLeftUnit(pn);
    var u, v := Mul(d, pn), Mul(lead, pn);
    // dv is pn, and r is p * pn, so every term is a multiple of pn.
    Distributive(pn, 0, d, lead);
    Commutative(pn, d);
    Commutative(pn, lead);
    Distributive(Mul(p, y), d, pn, 0);
    Associative(p, y, pn);
    Commutative(y, pn);
    Associative(p, pn, y);
    var w := Mul(r, y);
    // (w + u) + (shifted + (u + v)), where v + shifted == w.
    AddLaws(u, v, 0);
    AddSwap(w, u, shifted, Add(v, u));
    AddLaws(shifted, v, u);
    AddLaws(w, u, 0);
    AddSwap(w, shifted, u, Add(v, u));
    AddLaws(v, u, u);
    AddLaws(u, v, u);
    AddLaws(Add(w, shifted), v, 0);
    AddLaws(w, shifted, v);
    AddLaws(v, shifted, 0);
    AddLaws(w, w, 0);
  }

  /** Every block the encoder emits evaluates to zero at each of the `degree` roots of its code. */
  lemma BlockIsCodeword(data: seq<Byte>, degree: nat, i: nat)
    requires i < degree
    ensures Eval(data + Remainder(data, Divisor(degree)), Root(i)) == 0
  {
    hide Mul, Add;
    DivisorIsRootProduct(degree, Root(i));
    RootProductVanishes(degree, i);
    RemainderVanishes(data, Divisor(degree), Root(i));
  }
}
