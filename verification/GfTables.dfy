/** The powers of the generator 3 and the log/exp tables built from them. */
module GfTables {
  import opened Gf256
  import B = Gf256Bits

  /** The n-th power of the generator. */
  function Pow(n: nat): byte {
    if n == 0 then 1 else Mul(Pow(n - 1), 3)
  }

  lemma {:induction false} PowAdd(i: nat, j: nat)
    ensures Pow(i + j) == Mul(Pow(i), Pow(j))
    decreases j
  {
    hide Mul;
    if j == 0 {
      MulOne(Pow(i));
    } else {
      PowAdd(i, j - 1);
      MulAssoc(Pow(i), Pow(j - 1), 3);
    }
  }

  /** A product of numbers from the product of their bits. */
  lemma ProductOf(a: byte, b: byte, c: byte, v: bv8, w: bv8, u: bv8)
    requires Bits(a) == v && Bits(b) == w && B.Mul(v, w) == u && Bits(c) == u
    ensures Mul(a, b) == c
  {
    hide Bits, Value, B.Mul;
    ValueBits(c);
  }

  /** The 255th power is 1, and its maximal proper divisors give other powers. */
  lemma KeyPowers()
    ensures Pow(15) == 0x35 && Pow(51) == 0x0c && Pow(85) == 0xbd && Pow(255) == 1
  {
    hide B.Mul, Mul;
    B.Products();
    ProductOf(3, 3, 0x05, 3, 3, 0x05);
    ProductOf(0x05, 0x05, 0x11, 0x05, 0x05, 0x11);
    ProductOf(0x11, 3, 0x33, 0x11, 3, 0x33);
    ProductOf(0x33, 0x33, 0x72, 0x33, 0x33, 0x72);
    ProductOf(0x72, 0x33, 0x35, 0x72, 0x33, 0x35);
    ProductOf(0x35, 0x05, 0xe1, 0x35, 0x05, 0xe1);
    ProductOf(0xe1, 0xe1, 0x5c, 0xe1, 0xe1, 0x5c);
    ProductOf(0x5c, 0xe1, 0x0c, 0x5c, 0xe1, 0x0c);
    ProductOf(0x0c, 0x5c, 0xbd, 0x0c, 0x5c, 0xbd);
    ProductOf(0xbd, 0xbd, 0xbc, 0xbd, 0xbd, 0xbc);
    ProductOf(0xbc, 0xbd, 0x01, 0xbc, 0xbd, 0x01);
    MulOne(3);
    assert Pow(0) == 1;
    assert Pow(1) == 3;
    PowAdd(1, 1);
    PowAdd(2, 2);
    PowAdd(4, 1);
    PowAdd(5, 5);
    PowAdd(10, 5);
    PowAdd(15, 2);
    PowAdd(17, 17);
    PowAdd(34, 17);
    PowAdd(51, 34);
    PowAdd(85, 85);
    PowAdd(170, 85);
  }

  lemma {:induction false} PowMultiple(d: nat, k: nat)
    requires Pow(d) == 1
    ensures Pow(d * k) == 1
    decreases k
  {
    hide Mul;
    if k > 0 {
      PowMultiple(d, k - 1);
      assert d * k == d * (k - 1) + d;
      PowAdd(d * (k - 1), d);
      MulOne(1);
    }
  }

  /** A proper divisor of 255 = 3 * 5 * 17 divides 15, 51 or 85. */
  lemma ProperDivisor(d: nat, q: nat) returns (k: nat)
    requires d < 255 && d * q == 255
    ensures d * k == 15 || d * k == 51 || d * k == 85
  {
    if d > 15 && q > 15 {
      MulGrows(d, q);
    } else if d > 15 {
      assert q == 3 || q == 5 || q == 15;
      k := if d == 85 then 1 else if d == 51 then 1 else 3;
    } else {
      assert d == 1 || d == 3 || d == 5 || d == 15;
      k := if d == 1 then 15 else if d == 3 then 5 else if d == 5 then 3 else 1;
    }
  }

  lemma MulGrows(d: nat, q: nat)
    requires d >= 16 && q >= 16
    ensures d * q >= 256
  {
  }

  /** The generator has order exactly 255 (Euclid's algorithm on the exponent). */
  lemma {:induction false} NoSmallOrder(d: nat)
    requires 0 < d < 255
    ensures Pow(d) != 1
    decreases d
  {
    hide Mul;
    if Pow(d) == 1 {
      var q, r := 255 / d, 255 % d;
      assert 255 == d * q + r;
      KeyPowers();
      PowMultiple(d, q);
      PowAdd(d * q, r);
      MulOne(Pow(r));
      if r > 0 {
        NoSmallOrder(r);
      } else {
        var k := ProperDivisor(d, q);
        PowMultiple(d, k);
      }
    }
  }

  lemma PowNonzero(i: nat)
    requires i <= 255
    ensures Pow(i) != 0
  {
    hide Mul;
    if Pow(i) == 0 {
      PowAdd(i, 255 - i);
      MulZero(Pow(255 - i));
      KeyPowers();
    }
  }

  /** Multiplying by a power of the generator can be undone. */
  lemma PowCancels(r: byte, i: nat)
    requires i <= 255
    ensures Mul(Mul(r, Pow(i)), Pow(255 - i)) == r
  {
    hide Mul, Pow;
    MulAssoc(r, Pow(i), Pow(255 - i));
    PowAdd(i, 255 - i);
    Power255();
    MulOne(r);
  }

  lemma Power255()
    ensures Pow(255) == 1
  {
    KeyPowers();
  }

  lemma PowInjective(i: nat, j: nat)
    requires i < j < 255
    ensures Pow(i) != Pow(j)
  {
    hide Mul, Pow;
    if Pow(i) == Pow(j) {
      PowAdd(j - i, i);
      PowCancels(Pow(j - i), i);
      PowCancels(1, i);
      MulOne(Pow(i));
      NoSmallOrder(j - i);
    }
  }

  // ----- every nonzero byte is a power

  ghost function Image(n: nat): set<byte> {
    set i | 0 <= i < n :: Pow(i)
  }

  ghost function Below(n: nat): set<byte>
    requires n <= 256
  {
    if n == 0 then {} else Below(n - 1) + {n - 1}
  }

  lemma {:induction false} ImageSize(n: nat)
    requires n <= 255
    ensures |Image(n)| == n && 0 !in Image(n)
  {
    hide Mul, Pow;
    if n > 0 {
      ImageSize(n - 1);
      PowNonzero(n - 1);
      assert Image(n) == Image(n - 1) + {Pow(n - 1)};
      if Pow(n - 1) in Image(n - 1) {
        var i :| 0 <= i < n - 1 && Pow(i) == Pow(n - 1);
        PowInjective(i, n - 1);
      }
    }
  }

  lemma {:induction false} BelowMembers(n: nat)
    requires n <= 256
    ensures |Below(n)| == n
    ensures forall a: byte :: a in Below(n) <==> a < n
  {
    if n > 0 {
      BelowMembers(n - 1);
    }
  }

  lemma SubsetOfSameSize<T>(s: set<T>, t: set<T>)
    requires s <= t && |s| >= |t|
    ensures s == t
  {
    assert t == s + (t - s);
  }

  lemma EveryByteIsAPower(a: byte)
    requires a != 0
    ensures exists i :: 0 <= i < 255 && Pow(i) == a
  {
    hide Mul, Pow;
    ImageSize(255);
    BelowMembers(256);
    SubsetOfSameSize(Image(255) + {0}, Below(256));
    assert a in Image(255);
  }

  // ----- the tables

  /** gfExp and gfLog, the package variables that init fills. */
  class Tables {
    const exp: array<byte>
    const log: array<byte>

    ghost predicate Valid()
      reads exp, log
    {
      && exp.Length == 256 && log.Length == 256
      && exp[255] == 1
      && (forall i :: 0 <= i < 255 ==> exp[i] == Pow(i))
      && (forall i :: 0 <= i < 255 ==> log[Pow(i)] == i)
    }

    constructor ()
      ensures exp.Length == log.Length == 256 && exp != log && fresh(exp) && fresh(log)
    {
      exp := new byte[256](_ => 0);
      log := new byte[256](_ => 0);
    }

    /** init: the loop makes the two tables inverse to each other. */
    method Init()
      requires exp.Length == log.Length == 256 && exp != log
      modifies exp, log
      ensures Valid()
    {
      hide Mul, Pow;
      PowNext(0);
      var x: byte := 1;
      for i := 0 to 255
        invariant x == Pow(i)
        invariant forall k :: 0 <= k < i ==> exp[k] == Pow(k)
        invariant forall k :: 0 <= k < i ==> log[Pow(k)] == k
      {
        exp[i] := x;
        forall k | 0 <= k < i
          ensures Pow(k) != Pow(i)
        {
          PowInjective(k, i);
        }
        log[x] := i;
        x := GfMulRaw(x, 0x03);
        PowNext(i);
      }
      exp[255] := 1;
    }

    /** A logarithm read from the table is the exponent of its argument. */
    lemma LogIsExponent(a: byte)
      requires Valid() && a != 0
      ensures log[a] < 255 && Pow(log[a]) == a
    {
      hide Mul, Pow;
      EveryByteIsAPower(a);
    }

    lemma ProductFromLogs(a: byte, b: byte)
      requires Valid() && a != 0 && b != 0
      ensures log[a] < 255 && log[b] < 255
      ensures exp[(log[a] as int + log[b] as int) % 255] == Mul(a, b)
    {
      hide Mul, Pow;
      LogIsExponent(a);
      LogIsExponent(b);
      var i: nat, j: nat := log[a], log[b];
      PowAdd(i, j);
      PowModulo(i + j);
    }

    lemma QuotientFromLogs(a: byte, b: byte)
      requires Valid() && a != 0 && b != 0
      ensures log[a] < 255 && log[b] < 255
      ensures Mul(exp[(log[a] as int - log[b] as int + 255) % 255], b) == a
    {
      hide Mul, Pow;
      LogIsExponent(a);
      LogIsExponent(b);
      var i: nat, j: nat := log[a], log[b];
      PowAdd(255 + i - j, j);
      PowAdd(i, 255);
      Power255();
      MulOne(a);
      PowModulo(255 + i - j);
    }

    /** gfMul: the table product is the field product. */
    function GfMul(a: byte, b: byte): (r: byte)
      requires Valid()
      reads exp, log
      ensures r == Mul(a, b)
    {
      if a == 0 || b == 0 then
        MulZero(a); MulZero(b);
        0
      else
        ProductFromLogs(a, b);
        exp[(log[a] as int + log[b] as int) % 255]
    }

    /** gfDiv: for a nonzero divisor the result is the field quotient. */
    function GfDiv(a: byte, b: byte): (r: byte)
      requires Valid() && b != 0
      reads exp, log
      ensures Mul(r, b) == a
    {
      if a == 0 then
        MulZero(b);
        0
      else
        QuotientFromLogs(a, b);
        exp[(log[a] as int - log[b] as int + 255) % 255]
    }
  }

  lemma PowNext(i: nat)
    ensures Pow(0) == 1 && Pow(i + 1) == Mul(Pow(i), 3)
  {
  }

  lemma PowModulo(s: nat)
    ensures Pow(s % 255) == Pow(s)
  {
    hide Mul, Pow;
    Power255();
    PowMultiple(255, s / 255);
    PowAdd(255 * (s / 255), s % 255);
    MulOne(Pow(s % 255));
  }

  // ----- what the generator gives the field: no zero divisors, unique quotients

  lemma NoZeroDivisors(a: byte, b: byte)
    ensures Mul(a, b) == 0 <==> a == 0 || b == 0
  {
    hide Mul, Pow;
    MulZero(a);
    MulZero(b);
    if a != 0 && b != 0 {
      EveryByteIsAPower(a);
      EveryByteIsAPower(b);
      var i :| 0 <= i < 255 && Pow(i) == a;
      var j :| 0 <= j < 255 && Pow(j) == b;
      PowAdd(i, j);
      PowModulo(i + j);
      PowNonzero((i + j) % 255);
    }
  }

  lemma QuotientUnique(r: byte, r': byte, b: byte)
    requires b != 0 && Mul(r, b) == Mul(r', b)
    ensures r == r'
  {
    hide Mul, Add;
    AddZero(Mul(r, b));
    MulDistributes(r, r', b);
    NoZeroDivisors(Add(r, r'), b);
    AddCancels(r, r');
  }

  /** The field quotient, defined without tables. */
  ghost function Quotient(a: byte, b: byte): (r: byte)
    requires b != 0
    ensures Mul(r, b) == a
  {
    QuotientExists(a, b);
    var r :| Mul(r, b) == a;
    r
  }

  lemma QuotientExists(a: byte, b: byte)
    requires b != 0
    ensures exists r :: Mul(r, b) == a
  {
    hide Mul, Pow;
    EveryByteIsAPower(b);
    var j :| 0 <= j < 255 && Pow(j) == b;
    PowAdd(255 - j, j);
    KeyPowers();
    MulAssoc(a, Pow(255 - j), b);
    MulOne(a);
  }
}
