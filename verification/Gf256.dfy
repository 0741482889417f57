/** Arithmetic in GF(256), the field of section 4.2 of FIPS 197 with polynomial
    0x11b, on bit-vectors: addition is xor, the product is the shift-and-xor loop
    of the source, and the ring laws are proved from the bits up. */
module Gf256Bits {

  /** Field addition, and subtraction too: the characteristic is 2. */
  function Add(a: bv8, b: bv8): bv8 { a ^ b }

  function Half(b: bv8): bv8 { b >> 1 }

  /** Multiplication by the indeterminate, reduced modulo 0x11b. */
  function XTime(a: bv8): bv8 {
    if a & 0x80 != 0 then (a << 1) ^ 0x1b else a << 1
  }

  function Pick(b: bv8, a: bv8): bv8 {
    if b & 1 != 0 then a else 0
  }

  /** `n` rounds of the shift-and-xor product. */
  function MulBits(a: bv8, b: bv8, n: nat): bv8
    decreases n
  {
    if n == 0 then 0 else Add(Pick(b, a), MulBits(XTime(a), Half(b), n - 1))
  }

  function Mul(a: bv8, b: bv8): bv8 {
    MulBits(a, b, 8)
  }

  /** The eight rounds written out. */
  lemma Unrolled(a: bv8, b: bv8)
    ensures var (a1, a2, a3) := (XTime(a), XTime(XTime(a)), XTime(XTime(XTime(a))));
      var (a4, a5, a6) := (XTime(a3), XTime(XTime(a3)), XTime(XTime(XTime(a3))));
      Mul(a, b) == Add(Pick(b, a), Add(Pick(b >> 1, a1), Add(Pick(b >> 2, a2), Add(Pick(b >> 3, a3),
        Add(Pick(b >> 4, a4), Add(Pick(b >> 5, a5), Add(Pick(b >> 6, a6), Pick(b >> 7, XTime(a6)))))))))
  {
    hide Add, Pick, XTime;
    var a1 := XTime(a);
    var a2 := XTime(a1);
    var a3 := XTime(a2);
    var a4 := XTime(a3);
    var a5 := XTime(a4);
    var a6 := XTime(a5);
    ShiftsOfHalf(b);
    var a7 := XTime(a6);
    AddZero(Pick(b >> 7, a7));
    assert MulBits(a7, b >> 7, 1) == Add(Pick(b >> 7, a7), 0);
    assert MulBits(a6, b >> 6, 2) == Add(Pick(b >> 6, a6), MulBits(a7, b >> 7, 1));
    assert MulBits(a5, b >> 5, 3) == Add(Pick(b >> 5, a5), MulBits(a6, b >> 6, 2));
    assert MulBits(a4, b >> 4, 4) == Add(Pick(b >> 4, a4), MulBits(a5, b >> 5, 3));
    assert MulBits(a3, b >> 3, 5) == Add(Pick(b >> 3, a3), MulBits(a4, b >> 4, 4));
    assert MulBits(a2, b >> 2, 6) == Add(Pick(b >> 2, a2), MulBits(a3, b >> 3, 5));
    assert MulBits(a1, b >> 1, 7) == Add(Pick(b >> 1, a1), MulBits(a2, b >> 2, 6));
  }

  lemma ShiftsOfHalf(b: bv8)
    ensures Half(b) == b >> 1 && Half(b >> 1) == b >> 2 && Half(b >> 2) == b >> 3 && Half(b >> 3) == b >> 4
    ensures Half(b >> 4) == b >> 5 && Half(b >> 5) == b >> 6 && Half(b >> 6) == b >> 7
  {
  }

  /** The products that lead to the 255th power of 3. */
  lemma Products()
    ensures Mul(3, 3) == 0x05 && Mul(0x05, 0x05) == 0x11 && Mul(0x11, 3) == 0x33
    ensures Mul(0x33, 0x33) == 0x72 && Mul(0x72, 0x33) == 0x35 && Mul(0x35, 0x05) == 0xe1
    ensures Mul(0xe1, 0xe1) == 0x5c && Mul(0x5c, 0xe1) == 0x0c && Mul(0x0c, 0x5c) == 0xbd
    ensures Mul(0xbd, 0xbd) == 0xbc && Mul(0xbc, 0xbd) == 0x01
  {
    hide Mul;
    Unrolled(3, 3);
    Unrolled(0x05, 0x05);
    Unrolled(0x11, 3);
    Unrolled(0x33, 0x33);
    Unrolled(0x72, 0x33);
    Unrolled(0x35, 0x05);
    Unrolled(0xe1, 0xe1);
    Unrolled(0x5c, 0xe1);
    Unrolled(0x0c, 0x5c);
    Unrolled(0xbd, 0xbd);
    Unrolled(0xbc, 0xbd);
  }

  // ----- addition

  lemma AddAssoc(a: bv8, b: bv8, c: bv8)
    ensures Add(Add(a, b), c) == Add(a, Add(b, c))
  {
  }

  lemma AddCommutes(a: bv8, b: bv8)
    ensures Add(a, b) == Add(b, a)
  {
  }

  lemma AddZero(a: bv8)
    ensures Add(a, 0) == a && Add(0, a) == a && Add(a, a) == 0
  {
  }

  lemma AddCancels(a: bv8, b: bv8)
    ensures Add(a, b) == 0 <==> a == b
  {
  }

  lemma AddSwap(a: bv8, b: bv8, c: bv8, d: bv8)
    ensures Add(Add(a, b), Add(c, d)) == Add(Add(a, c), Add(b, d))
  {
    hide Add;
    AddAssoc(a, b, Add(c, d));
    AddAssoc(b, c, d);
    AddCommutes(b, c);
    AddAssoc(c, b, d);
    AddAssoc(a, c, Add(b, d));
  }

  // ----- linearity

  lemma ShiftLinear(a: bv8, b: bv8)
    ensures (a ^ b) << 1 == (a << 1) ^ (b << 1)
    ensures (a ^ b) & 0x80 == (a & 0x80) ^ (b & 0x80)
  {
  }

  lemma TopBit(a: bv8)
    ensures a & 0x80 == 0 || a & 0x80 == 0x80
  {
  }

  lemma XTimeLinear(a: bv8, b: bv8)
    ensures XTime(Add(a, b)) == Add(XTime(a), XTime(b))
  {
    ShiftLinear(a, b);
    TopBit(a);
    TopBit(b);
    if a & 0x80 == 0 {
      if b & 0x80 == 0 {} else {}
    } else {
      if b & 0x80 == 0 {} else {}
    }
  }

  lemma PickLinear(b: bv8, a: bv8, a': bv8)
    ensures Pick(b, Add(a, a')) == Add(Pick(b, a), Pick(b, a'))
  {
  }

  lemma {:induction false} MulBitsLinear(a: bv8, a': bv8, b: bv8, n: nat)
    ensures MulBits(Add(a, a'), b, n) == Add(MulBits(a, b, n), MulBits(a', b, n))
    decreases n
  {
    if n > 0 {
      XTimeLinear(a, a');
      PickLinear(b, a, a');
      MulBitsLinear(XTime(a), XTime(a'), Half(b), n - 1);
      AddSwap(Pick(b, a), Pick(b, a'), MulBits(XTime(a), Half(b), n - 1), MulBits(XTime(a'), Half(b), n - 1));
    }
  }

  lemma PickXTime(b: bv8, a: bv8)
    ensures XTime(Pick(b, a)) == Pick(b, XTime(a))
  {
  }

  lemma {:induction false} MulBitsXTime(a: bv8, b: bv8, n: nat)
    ensures MulBits(XTime(a), b, n) == XTime(MulBits(a, b, n))
    decreases n
  {
    if n > 0 {
      MulBitsXTime(XTime(a), Half(b), n - 1);
      XTimeLinear(Pick(b, a), MulBits(XTime(a), Half(b), n - 1));
      PickXTime(b, a);
    }
  }

  lemma {:induction false} MulBitsZero(b: bv8, n: nat)
    ensures MulBits(0, b, n) == 0
    decreases n
  {
    if n > 0 {
      MulBitsZero(Half(b), n - 1);
    }
  }

  /** The product by `a` can be taken before or after the bits of `b` accumulate. */
  lemma {:induction false} MulBitsExchange(c: bv8, b: bv8, n: nat, a: bv8)
    ensures Mul(MulBits(c, b, n), a) == MulBits(Mul(c, a), b, n)
    decreases n
  {
    hide Add, XTime, Half;
    MulBitsZero(a, 8);
    if n > 0 {
      MulBitsExchange(XTime(c), Half(b), n - 1, a);
      MulBitsXTime(c, a, 8);
      MulBitsLinear(Pick(b, c), MulBits(XTime(c), Half(b), n - 1), a, 8);
    }
  }

  // ----- field laws

  lemma MulOne(b: bv8)
    ensures Mul(1, b) == b && Mul(b, 1) == b
  {
    OneMulBits(b, 8);
    MulBitsExchange(1, b, 8, 1);
    OneMulBits(1, 8);
  }

  predicate Fits(b: bv8, n: nat)
    decreases n
  {
    if n == 0 then b == 0 else Fits(Half(b), n - 1)
  }

  lemma ByteFits(b: bv8)
    ensures Fits(b, 8)
  {
  }

  lemma LowBit(b: bv8)
    ensures Add(Pick(b, 1), XTime(Half(b))) == b
  {
  }

  lemma {:induction false} OneMulBits(b: bv8, n: nat)
    ensures Fits(b, n) ==> MulBits(1, b, n) == b
    ensures n == 8 ==> Fits(b, n)
    decreases n
  {
    ByteFits(b);
    if n > 0 {
      OneMulBits(Half(b), n - 1);
      MulBitsXTime(1, Half(b), n - 1);
      LowBit(b);
    }
  }

  lemma MulCommutes(a: bv8, b: bv8)
    ensures Mul(a, b) == Mul(b, a)
  {
    hide Add;
    MulBitsExchange(1, a, 8, b);
    MulOne(a);
    MulOne(b);
  }

  lemma MulAssoc(a: bv8, b: bv8, c: bv8)
    ensures Mul(Mul(a, b), c) == Mul(a, Mul(b, c))
  {
    hide Add;
    MulCommutes(a, b);
    MulBitsExchange(b, a, 8, c);
    MulCommutes(a, Mul(b, c));
  }

  lemma MulDistributes(a: bv8, b: bv8, c: bv8)
    ensures Mul(Add(a, b), c) == Add(Mul(a, c), Mul(b, c))
    ensures Mul(c, Add(a, b)) == Add(Mul(c, a), Mul(c, b))
  {
    hide Add;
    MulBitsLinear(a, b, c, 8);
    MulCommutes(Add(a, b), c);
    MulCommutes(a, c);
    MulCommutes(b, c);
  }

  lemma MulZero(a: bv8)
    ensures Mul(0, a) == 0 && Mul(a, 0) == 0
  {
    hide Add;
    MulBitsZero(a, 8);
    MulCommutes(a, 0);
  }

  /** What one round of the loop in gfMulRaw does to its three variables. */
  lemma Round(p: bv8, x: bv8, y: bv8)
    ensures Add(p, Pick(y, x)) == if y & 1 != 0 then p ^ x else p
    ensures XTime(x) == if x & 0x80 != 0 then (x << 1) ^ 0x1b else x << 1
    ensures Half(y) == y >> 1
  {
  }

  /** And why the sum it keeps stays the product. */
  lemma RoundSum(p: bv8, x: bv8, y: bv8, n: nat)
    requires n > 0
    ensures Add(p, MulBits(x, y, n)) == Add(Add(p, Pick(y, x)), MulBits(XTime(x), Half(y), n - 1))
  {
    hide Add, Pick, XTime, Half;
    AddAssoc(p, Pick(y, x), MulBits(XTime(x), Half(y), n - 1));
  }

  lemma BeforeRounds(a: bv8, b: bv8)
    ensures Add(0, MulBits(a, b, 8)) == Mul(a, b)
  {
    hide Add, MulBits;
    AddZero(MulBits(a, b, 8));
  }

  lemma AfterRounds(p: bv8, x: bv8, y: bv8)
    ensures Add(p, MulBits(x, y, 0)) == p
  {
    hide Add;
    AddZero(p);
  }

  /** The loop of gfMulRaw: shifting `a` left and `b` right computes the product. */
  method GfMulRaw(a: bv8, b: bv8) returns (p: bv8)
    ensures p == Mul(a, b)
  {
    hide *;
    var x, y := a, b;
    p := 0;
    BeforeRounds(a, b);
    for i := 0 to 8
      invariant Add(p, MulBits(x, y, 8 - i)) == Mul(a, b)
    {
      Round(p, x, y);
      RoundSum(p, x, y, 8 - i);
      if y & 1 != 0 {
        p := p ^ x;
      }
      var hi := x & 0x80;
      x := x << 1;
      if hi != 0 {
        x := x ^ 0x1b;
      }
      y := y >> 1;
    }
    AfterRounds(p, x, y);
  }
}

/** The same field on bytes as numbers below 256, which is what the tables, the
    polynomials and the codecs work with. */
module Gf256 {
  import B = Gf256Bits

  type byte = k: int | 0 <= k < 256

  function Bits(a: byte): bv8 {
    a as bv8
  }

  function Value(v: bv8): byte {
    v as int
  }

  /** Field addition and subtraction: xor. */
  function Add(a: byte, b: byte): byte {
    Value(B.Add(Bits(a), Bits(b)))
  }

  /** Field product. */
  function Mul(a: byte, b: byte): byte {
    Value(B.Mul(Bits(a), Bits(b)))
  }

  lemma BitsValue(v: bv8)
    ensures Bits(Value(v)) == v
  {
  }

  lemma NextValue(v: bv8)
    requires v != 0xff
    ensures (v + 1) as int == v as int + 1
  {
  }

  /** Counting up reaches every byte. */
  lemma {:induction false} SomeBits(a: byte) returns (v: bv8)
    ensures v as int == a
  {
    v := 0;
    if a > 0 {
      var before := SomeBits(a - 1);
      NextValue(before);
      v := before + 1;
    }
  }

  lemma ValueBits(a: byte)
    ensures Value(Bits(a)) == a
  {
    var v := SomeBits(a);
    BitsValue(v);
  }

  lemma AddAssoc(a: byte, b: byte, c: byte)
    ensures Add(Add(a, b), c) == Add(a, Add(b, c))
  {
    hide Bits, Value, B.Add;
    BitsValue(B.Add(Bits(a), Bits(b)));
    BitsValue(B.Add(Bits(b), Bits(c)));
    B.AddAssoc(Bits(a), Bits(b), Bits(c));
  }

  lemma AddCommutes(a: byte, b: byte)
    ensures Add(a, b) == Add(b, a)
  {
    hide Bits, Value, B.Add;
    B.AddCommutes(Bits(a), Bits(b));
  }

  lemma AddZero(a: byte)
    ensures Add(a, 0) == a && Add(0, a) == a && Add(a, a) == 0
  {
    ValueBits(a);
    B.AddZero(Bits(a));
  }

  lemma AddCancels(a: byte, b: byte)
    ensures Add(a, b) == 0 <==> a == b
  {
    hide B.Add;
    B.AddCancels(Bits(a), Bits(b));
    BitsValue(B.Add(Bits(a), Bits(b)));
    ValueBits(a);
    ValueBits(b);
    ValueBits(0);
  }

  lemma MulAssoc(a: byte, b: byte, c: byte)
    ensures Mul(Mul(a, b), c) == Mul(a, Mul(b, c))
  {
    hide Bits, Value, B.Mul;
    BitsValue(B.Mul(Bits(a), Bits(b)));
    BitsValue(B.Mul(Bits(b), Bits(c)));
    B.MulAssoc(Bits(a), Bits(b), Bits(c));
  }

  lemma MulCommutes(a: byte, b: byte)
    ensures Mul(a, b) == Mul(b, a)
  {
    hide Bits, Value, B.Mul;
    B.MulCommutes(Bits(a), Bits(b));
  }

  lemma MulDistributes(a: byte, b: byte, c: byte)
    ensures Mul(Add(a, b), c) == Add(Mul(a, c), Mul(b, c))
    ensures Mul(c, Add(a, b)) == Add(Mul(c, a), Mul(c, b))
  {
    hide Bits, Value, B.Add, B.Mul;
    BitsValue(B.Add(Bits(a), Bits(b)));
    BitsValue(B.Mul(Bits(a), Bits(c)));
    BitsValue(B.Mul(Bits(b), Bits(c)));
    BitsValue(B.Mul(Bits(c), Bits(a)));
    BitsValue(B.Mul(Bits(c), Bits(b)));
    B.MulDistributes(Bits(a), Bits(b), Bits(c));
  }

  lemma MulZero(a: byte)
    ensures Mul(0, a) == 0 && Mul(a, 0) == 0
  {
    hide B.Mul;
    B.MulZero(Bits(a));
  }

  lemma MulOne(a: byte)
    ensures Mul(1, a) == a && Mul(a, 1) == a
  {
    hide B.Mul;
    B.MulOne(Bits(a));
    ValueBits(a);
  }

  /** gfMulRaw */
  method GfMulRaw(a: byte, b: byte) returns (p: byte)
    ensures p == Mul(a, b)
  {
    var v := B.GfMulRaw(Bits(a), Bits(b));
    p := Value(v);
  }
}
