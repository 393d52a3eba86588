/** Arithmetic in GF(256) modulo 0x11D, as the QR encoder does it: shift-and-reduce
    multiplication with no tables. `Mul` is that multiplication, one bit of the second operand
    at a time; the lemmas show that it makes the bytes a commutative ring under XOR, which is
    what Reed-Solomon needs. */
module Gf256 {

  type Byte = bv8

  /** Addition, and subtraction, in the field. */
  function Add(a: Byte, b: Byte): Byte {
    a ^ b
  }

  /** Multiplication by the polynomial x. */
  function Double(z: Byte): Byte {
    (z << 1) ^ ((z >> 7) * 0x1d)
  }

  /** Bit `i` of `y`, counted from the low end. */
  predicate Bit(y: Byte, i: nat)
    requires i < 8
  {
    match i
    case 0 => y & 0x01 != 0
    case 1 => y & 0x02 != 0
    case 2 => y & 0x04 != 0
    case 3 => y & 0x08 != 0
    case 4 => y & 0x10 != 0
    case 5 => y & 0x20 != 0
    case 6 => y & 0x40 != 0
    case 7 => y & 0x80 != 0
  }

  /** One step of Horner's rule over the bits of the second operand. */
  function MulStep(z: Byte, x: Byte, bit: bool): Byte {
    if bit then Add(Double(z), x) else Double(z)
  }

  /** `x` times the top `n` bits of `y`. */
  function MulTop(x: Byte, y: Byte, n: nat): Byte
    requires n <= 8
  {
    if n == 0 then 0 else MulStep(MulTop(x, y, n - 1), x, Bit(y, 8 - n))
  }

  function Mul(x: Byte, y: Byte): Byte {
    MulTop(x, y, 8)
  }

  // ---- The loop of the source ------------------------------------------------------------

  /** The accumulator is wider than a byte in the source: it is shifted first, then reduced. */
  function ShiftReduce(z: bv16): bv16 {
    ((z << 1) ^ ((z >> 7) * 0x11d)) & 0xff
  }

  function SelectedByBit(x: Byte, y: Byte, i: nat): Byte
    requires i < 8
  {
    ((y >> i) & 1) * x
  }

  lemma SelectedIsConditional(x: Byte, y: Byte, i: nat)
    requires i < 8
    ensures SelectedByBit(x, y, i) == if Bit(y, i) then x else 0
  {
    if i == 0 {} else if i == 1 {} else if i == 2 {} else if i == 3 {}
    else if i == 4 {} else if i == 5 {} else if i == 6 {} else {}
  }

  lemma SourceStep(z: bv16, x: Byte, bit: bool)
    requires z <= 0xff
    ensures var next := ShiftReduce(z) ^ (if bit then x else 0) as bv16;
            next <= 0xff && next as Byte == MulStep(z as Byte, x, bit)
  {
  }

  method GfMultiply(x: Byte, y: Byte) returns (r: Byte)
    ensures r == Mul(x, y)
  {
    hide MulStep, Bit, ShiftReduce, SelectedByBit;
    var z: bv16 := 0;
    var i := 7;
    while i >= 0
      invariant -1 <= i <= 7
      invariant z <= 0xff
      invariant z as Byte == MulTop(x, y, 7 - i)
    {
      SourceStep(z, x, Bit(y, i));
      SelectedIsConditional(x, y, i);
      z := ShiftReduce(z);
      z := z ^ SelectedByBit(x, y, i) as bv16;
      i := i - 1;
    }
    assert z & 0xff == z;
    return (z & 0xff) as Byte;
  }

  // ---- Addition --------------------------------------------------------------------------

  lemma AddLaws(a: Byte, b: Byte, c: Byte)
    ensures Add(a, b) == Add(b, a)
    ensures Add(Add(a, b), c) == Add(a, Add(b, c))
    ensures Add(a, 0) == a && Add(0, a) == a && Add(a, a) == 0
    ensures Add(Add(a, b), b) == a
  {
  }

  lemma AddSwap(a: Byte, b: Byte, c: Byte, d: Byte)
    ensures Add(Add(a, b), Add(c, d)) == Add(Add(a, c), Add(b, d))
  {
    hide Add;
    AddLaws(a, b, Add(c, d));
    AddLaws(b, c, d);
    AddLaws(c, b, d);
    AddLaws(a, c, Add(b, d));
  }

  lemma AddZero(a: Byte, b: Byte)
    ensures Add(a, b) == 0 <==> a == b
  {
  }

  // ---- Linearity in each operand ---------------------------------------------------------

  lemma DoubleLinear(a: Byte, b: Byte)
    ensures Double(Add(a, b)) == Add(Double(a), Double(b))
  {
  }

  lemma StepLinear(z: Byte, z': Byte, x: Byte, x': Byte, bit: bool)
    ensures MulStep(Add(z, z'), Add(x, x'), bit) == Add(MulStep(z, x, bit), MulStep(z', x', bit))
  {
    hide Add, Double;
    DoubleLinear(z, z');
    AddSwap(Double(z), Double(z'), x, x');
  }

  lemma StepXorBit(z: Byte, z': Byte, x: Byte, bit: bool, bit': bool)
    ensures MulStep(Add(z, z'), x, bit != bit') == Add(MulStep(z, x, bit), MulStep(z', x, bit'))
  {
    hide Add, Double;
    DoubleLinear(z, z');
    AddSwap(Double(z), x, Double(z'), if bit' then x else 0);
    AddSwap(Double(z), Double(z'), 0, x);
    AddSwap(Double(z), Double(z'), x, 0);
    AddLaws(x, x, x);
    AddLaws(Double(z), x, x);
    AddLaws(Double(z'), x, x);
    AddLaws(Add(Double(z), Double(z')), x, x);
  }

  lemma StepDouble(z: Byte, x: Byte, bit: bool)
    ensures MulStep(Double(z), Double(x), bit) == Double(MulStep(z, x, bit))
  {
    hide Add, Double;
    DoubleLinear(Double(z), x);
  }

  lemma BitXor(a: Byte, b: Byte, i: nat)
    requires i < 8
    ensures Bit(Add(a, b), i) == (Bit(a, i) != Bit(b, i))
  {
    if i == 0 {} else if i == 1 {} else if i == 2 {} else if i == 3 {}
    else if i == 4 {} else if i == 5 {} else if i == 6 {} else {}
  }

  lemma {:induction false} MulTopLinear(x: Byte, x': Byte, y: Byte, n: nat)
    requires n <= 8
    ensures MulTop(Add(x, x'), y, n) == Add(MulTop(x, y, n), MulTop(x', y, n))
  {
    hide Add, MulStep, Bit;
    if n > 0 {
      MulTopLinear(x, x', y, n - 1);
      StepLinear(MulTop(x, y, n - 1), MulTop(x', y, n - 1), x, x', Bit(y, 8 - n));
    } else {
      AddLaws(0, 0, 0);
    }
  }

  lemma {:induction false} MulTopXor(x: Byte, y: Byte, y': Byte, n: nat)
    requires n <= 8
    ensures MulTop(x, Add(y, y'), n) == Add(MulTop(x, y, n), MulTop(x, y', n))
  {
    hide Add, MulStep, Bit;
    if n > 0 {
      MulTopXor(x, y, y', n - 1);
      BitXor(y, y', 8 - n);
      StepXorBit(MulTop(x, y, n - 1), MulTop(x, y', n - 1), x, Bit(y, 8 - n), Bit(y', 8 - n));
    } else {
      AddLaws(0, 0, 0);
    }
  }

  lemma {:induction false} MulTopDouble(x: Byte, y: Byte, n: nat)
    requires n <= 8
    ensures MulTop(Double(x), y, n) == Double(MulTop(x, y, n))
  {
    hide Add, MulStep, Bit;
    if n > 0 {
      MulTopDouble(x, y, n - 1);
      StepDouble(MulTop(x, y, n - 1), x, Bit(y, 8 - n));
    }
  }

  /** Multiplication distributes over addition, in both operands. */
  lemma Distributive(x: Byte, x': Byte, y: Byte, y': Byte)
    ensures Mul(Add(x, x'), y) == Add(Mul(x, y), Mul(x', y))
    ensures Mul(x, Add(y, y')) == Add(Mul(x, y), Mul(x, y'))
  {
    hide Add, MulTop;
    MulTopLinear(x, x', y, 8);
    MulTopXor(x, y, y', 8);
  }

  // ---- Powers of x span the bytes --------------------------------------------------------

  /** The byte with only bit `i` set. */
  function Power(i: nat): Byte
    requires i < 8
  {
    match i
    case 0 => 0x01 case 1 => 0x02 case 2 => 0x04 case 3 => 0x08
    case 4 => 0x10 case 5 => 0x20 case 6 => 0x40 case 7 => 0x80
  }

  /** The low `n` bits of `y`. */
  function Low(y: Byte, n: nat): Byte
    requires n <= 8
  {
    if n == 0 then 0
    else if Bit(y, n - 1) then Add(Low(y, n - 1), Power(n - 1)) else Low(y, n - 1)
  }

  lemma LowIsAll(y: Byte)
    ensures Low(y, 8) == y
  {
    assert Low(y, 0) == 0;
    assert Low(y, 1) == y & 0x01;
    assert Low(y, 2) == y & 0x03;
    assert Low(y, 3) == y & 0x07;
    assert Low(y, 4) == y & 0x0f;
    assert Low(y, 5) == y & 0x1f;
    assert Low(y, 6) == y & 0x3f;
    assert Low(y, 7) == y & 0x7f;
  }

  /** `y` doubled `i` times. */
  function DoubleN(y: Byte, i: nat): Byte {
    if i == 0 then y else Double(DoubleN(y, i - 1))
  }

  lemma PowerIsDoubled(i: nat)
    requires i < 8
    ensures Power(i) == DoubleN(1, i)
  {
    assert DoubleN(1, 0) == 1;
    assert DoubleN(1, 1) == 2;
    assert DoubleN(1, 2) == 4;
    assert DoubleN(1, 3) == 8;
    assert DoubleN(1, 4) == 16;
    assert DoubleN(1, 5) == 32;
    assert DoubleN(1, 6) == 64;
    assert DoubleN(1, 7) == 128;
  }

  lemma OneIsLeftUnit(y: Byte)
    ensures Mul(1, y) == y
  {
    assert MulTop(1, y, 0) == 0;
    assert MulTop(1, y, 1) == y >> 7;
    assert MulTop(1, y, 2) == y >> 6;
    assert MulTop(1, y, 3) == y >> 5;
    assert MulTop(1, y, 4) == y >> 4;
    assert MulTop(1, y, 5) == y >> 3;
    assert MulTop(1, y, 6) == y >> 2;
    assert MulTop(1, y, 7) == y >> 1;
  }

  lemma OneIsRightUnit(x: Byte)
    ensures Mul(x, 1) == x
  {
    assert !Bit(1, 7) && !Bit(1, 6) && !Bit(1, 5) && !Bit(1, 4) && !Bit(1, 3) && !Bit(1, 2) && !Bit(1, 1) && Bit(1, 0);
    assert MulTop(x, 1, 0) == 0;
    assert MulTop(x, 1, 1) == 0;
    assert MulTop(x, 1, 2) == 0;
    assert MulTop(x, 1, 3) == 0;
    assert MulTop(x, 1, 4) == 0;
    assert MulTop(x, 1, 5) == 0;
    assert MulTop(x, 1, 6) == 0;
    assert MulTop(x, 1, 7) == 0;
  }

  // ---- Multiplication is commutative and associative -------------------------------------

  lemma MulZero(x: Byte)
    ensures Mul(x, 0) == 0 && Mul(0, x) == 0
  {
    hide Add, MulTop;
    Distributive(0, 0, x, x);
    Distributive(x, x, 0, 0);
    AddLaws(0, 0, 0);
    AddLaws(Mul(0, x), Mul(0, x), 0);
    AddLaws(Mul(x, 0), Mul(x, 0), 0);
  }

  lemma {:induction false} MulDoubleN(x: Byte, y: Byte, i: nat)
    ensures Mul(DoubleN(x, i), y) == DoubleN(Mul(x, y), i)
  {
    hide Double, MulTop;
    if i > 0 {
      MulDoubleN(x, y, i - 1);
      MulTopDouble(DoubleN(x, i - 1), y, 8);
    }
  }

  lemma MulPowerLeft(i: nat, y: Byte)
    requires i < 8
    ensures Mul(Power(i), y) == DoubleN(y, i)
  {
    hide Double, MulTop, Power;
    PowerIsDoubled(i);
    MulDoubleN(1, y, i);
    OneIsLeftUnit(y);
  }

  lemma {:induction false} DoubleNShift(y: Byte, i: nat)
    ensures DoubleN(Double(y), i) == Double(DoubleN(y, i))
  {
    hide Double;
    if i > 0 {
      DoubleNShift(y, i - 1);
    }
  }

  lemma {:induction false} MulLowDouble(x: Byte, y: Byte, n: nat)
    requires n <= 8
    ensures Mul(Low(x, n), Double(y)) == Double(Mul(Low(x, n), y))
  {
    hide Add, Double, MulTop, Bit, Power;
    if n == 0 {
      MulZero(y);
      MulZero(Double(y));
      assert Double(0) == 0 by { DoubleZero(); }
    } else {
      MulLowDouble(x, y, n - 1);
      var low, p := Low(x, n - 1), Power(n - 1);
      Distributive(low, p, y, y);
      Distributive(low, p, Double(y), y);
      MulPowerLeft(n - 1, y);
      MulPowerLeft(n - 1, Double(y));
      DoubleNShift(y, n - 1);
      DoubleLinear(Mul(low, y), Mul(p, y));
    }
  }

  lemma DoubleZero()
    ensures Double(0) == 0
  {
  }

  lemma {:induction false} MulDoubleNRight(x: Byte, y: Byte, i: nat)
    ensures Mul(x, DoubleN(y, i)) == DoubleN(Mul(x, y), i)
  {
    hide Double, MulTop, Low;
    if i > 0 {
      MulDoubleNRight(x, y, i - 1);
      LowIsAll(x);
      MulLowDouble(x, DoubleN(y, i - 1), 8);
    }
  }

  lemma MulPowerRight(x: Byte, i: nat)
    requires i < 8
    ensures Mul(x, Power(i)) == DoubleN(x, i)
  {
    hide Double, MulTop, Power;
    PowerIsDoubled(i);
    MulDoubleNRight(x, 1, i);
    OneIsRightUnit(x);
  }

  lemma {:induction false} CommutativeLow(x: Byte, y: Byte, n: nat)
    requires n <= 8
    ensures Mul(x, Low(y, n)) == Mul(Low(y, n), x)
  {
    hide Add, Double, MulTop, Bit, Power;
    if n == 0 {
      MulZero(x);
    } else {
      CommutativeLow(x, y, n - 1);
      Distributive(Low(y, n - 1), Power(n - 1), x, x);
      Distributive(x, x, Low(y, n - 1), Power(n - 1));
      MulPowerLeft(n - 1, x);
      MulPowerRight(x, n - 1);
    }
  }

  lemma Commutative(x: Byte, y: Byte)
    ensures Mul(x, y) == Mul(y, x)
  {
    hide MulTop, Low;
    CommutativeLow(x, y, 8);
    LowIsAll(y);
  }

  lemma {:induction false} AssociativeLow(x: Byte, y: Byte, z: Byte, n: nat)
    requires n <= 8
    ensures Mul(Mul(x, y), Low(z, n)) == Mul(x, Mul(y, Low(z, n)))
  {
    hide Add, Double, MulTop, Bit, Power;
    if n == 0 {
      MulZero(x);
      MulZero(y);
      MulZero(Mul(x, y));
    } else {
      AssociativeLow(x, y, z, n - 1);
      var low, p := Low(z, n - 1), Power(n - 1);
      Distributive(y, y, low, p);
      Distributive(Mul(x, y), 0, low, p);
      Distributive(x, 0, Mul(y, low), Mul(y, p));
      MulPowerRight(y, n - 1);
      MulPowerRight(Mul(x, y), n - 1);
      MulDoubleNRight(x, y, n - 1);
    }
  }

  lemma Associative(x: Byte, y: Byte, z: Byte)
    ensures Mul(Mul(x, y), z) == Mul(x, Mul(y, z))
  {
    hide MulTop, Low;
    AssociativeLow(x, y, z, 8);
    LowIsAll(z);
  }
}
