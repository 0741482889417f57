/** Polynomials over GF(256) as coefficient sequences, lowest degree first: the
    root bound, and Lagrange interpolation with its uniqueness. */
module Polynomials {
  import opened Gf256
  import opened GfTables

  type Poly = seq<byte>

  function Eval(p: Poly, x: byte): byte {
    if p == [] then 0 else Add(Mul(Eval(p[1..], x), x), p[0])
  }

  predicate Distinct(xs: seq<byte>) {
    forall i, j :: 0 <= i < j < |xs| ==> xs[i] != xs[j]
  }

  ghost predicate AllZero(p: Poly) {
    forall i :: 0 <= i < |p| ==> p[i] == 0
  }

  // ----- sums, multiples and shifts

  function Plus(p: Poly, q: Poly): (r: Poly)
    requires |p| == |q|
    ensures |r| == |p|
  {
    seq(|p|, i requires 0 <= i < |p| => Add(p[i], q[i]))
  }

  function Scale(c: byte, p: Poly): (r: Poly)
    ensures |r| == |p|
  {
    seq(|p|, i requires 0 <= i < |p| => Mul(c, p[i]))
  }

  function Zeros(n: nat): (r: Poly)
    ensures |r| == n
  {
    seq(n, _ => 0)
  }

  lemma AddSwap(a: byte, b: byte, c: byte, d: byte)
    ensures Add(Add(a, b), Add(c, d)) == Add(Add(a, c), Add(b, d))
  {
    hide Add;
    AddAssoc(a, b, Add(c, d));
    AddAssoc(b, c, d);
    AddCommutes(b, c);
    AddAssoc(c, b, d);
    AddAssoc(a, c, Add(b, d));
  }

  lemma {:induction false} EvalPlus(p: Poly, q: Poly, x: byte)
    requires |p| == |q|
    ensures Eval(Plus(p, q), x) == Add(Eval(p, x), Eval(q, x))
  {
    hide Add, Mul;
    if p == [] {
      AddZero(0);
    } else {
      EvalPlus(p[1..], q[1..], x);
      assert Plus(p, q)[1..] == Plus(p[1..], q[1..]);
      MulDistributes(Eval(p[1..], x), Eval(q[1..], x), x);
      AddSwap(Mul(Eval(p[1..], x), x), Mul(Eval(q[1..], x), x), p[0], q[0]);
    }
  }

  lemma {:induction false} EvalScale(c: byte, p: Poly, x: byte)
    ensures Eval(Scale(c, p), x) == Mul(c, Eval(p, x))
  {
    hide Add, Mul;
    if p == [] {
      MulZero(c);
    } else {
      EvalScale(c, p[1..], x);
      assert Scale(c, p)[1..] == Scale(c, p[1..]);
      MulAssoc(c, Eval(p[1..], x), x);
      MulDistributes(Mul(Eval(p[1..], x), x), p[0], c);
    }
  }

  lemma {:induction false} EvalPadded(p: Poly, n: nat, x: byte)
    ensures Eval(p + Zeros(n), x) == Eval(p, x)
  {
    hide Add, Mul;
    if p == [] {
      assert p + Zeros(n) == Zeros(n);
      if n > 0 {
        assert Zeros(n)[1..] == [] + Zeros(n - 1);
        EvalPadded([], n - 1, x);
        MulZero(x);
        AddZero(0);
      }
    } else {
      EvalPadded(p[1..], n, x);
      assert (p + Zeros(n))[1..] == p[1..] + Zeros(n);
    }
  }

  lemma EvalAtZero(p: Poly)
    requires p != []
    ensures Eval(p, 0) == p[0]
  {
    hide Add, Mul;
    MulZero(Eval(p[1..], 0));
    AddZero(p[0]);
  }

  // ----- the root bound

  /** The quotient of `p` by (X - a), found by synthetic division. */
  function Deflate(p: Poly, a: byte): (q: Poly)
    ensures |q| == if p == [] then 0 else |p| - 1
  {
    if |p| <= 1 then [] else [Eval(p[1..], a)] + Deflate(p[1..], a)
  }

  /** p(x) - p(a) = (x - a) q(x) */
  lemma {:induction false} DeflateDivides(p: Poly, a: byte, x: byte)
    ensures Add(Eval(p, x), Eval(p, a)) == Mul(Eval(Deflate(p, a), x), Add(x, a))
  {
    hide Add, Mul;
    if |p| <= 1 {
      MulZero(Add(x, a));
      if |p| == 1 {
        assert p[1..] == [];
        MulZero(x);
        MulZero(a);
      }
      AddZero(Eval(p, x));
    } else {
      var p1 := p[1..];
      var u, v, w := Eval(p1, x), Eval(p1, a), Eval(Deflate(p1, a), x);
      DeflateDivides(p1, a, x);
      assert Deflate(p, a)[1..] == Deflate(p1, a);
      // the constant terms cancel
      AddSwap(Mul(u, x), p[0], Mul(v, a), p[0]);
      AddZero(p[0]);
      AddZero(Add(Mul(u, x), Mul(v, a)));
      // (w x + v)(x - a) = x (u - v) + v (x - a)
      MulDistributes(Mul(w, x), v, Add(x, a));
      MulAssoc(w, x, Add(x, a));
      MulCommutes(x, Add(x, a));
      MulAssoc(w, Add(x, a), x);
      MulDistributes(u, v, x);
      MulDistributes(x, a, v);
      AddAssoc(Mul(u, x), Mul(v, x), Add(Mul(v, x), Mul(v, a)));
      AddAssoc(Mul(v, x), Mul(v, x), Mul(v, a));
      AddZero(Mul(v, x));
      AddZero(Mul(v, a));
    }
  }

  lemma {:induction false} DeflateZero(p: Poly, a: byte)
    requires AllZero(Deflate(p, a)) && Eval(p, a) == 0
    ensures AllZero(p)
  {
    hide Add, Mul;
    if p != [] {
      var v := Eval(p[1..], a);
      if |p| > 1 {
        assert Deflate(p, a)[0] == v;
        assert Deflate(p, a)[1..] == Deflate(p[1..], a);
        DeflateZero(p[1..], a);
      }
      MulZero(a);
      AddZero(p[0]);
      assert p == [p[0]] + p[1..];
    }
  }

  /** A polynomial with at least as many distinct roots as coefficients is zero. */
  lemma {:induction false} RootBound(p: Poly, xs: seq<byte>)
    requires |p| <= |xs| && Distinct(xs)
    requires forall i :: 0 <= i < |xs| ==> Eval(p, xs[i]) == 0
    ensures AllZero(p)
    decreases |p|
  {
    hide Add, Mul;
    if p != [] {
      var a, rest := xs[|xs| - 1], xs[..|xs| - 1];
      var q := Deflate(p, a);
      forall i | 0 <= i < |rest|
        ensures Eval(q, rest[i]) == 0
      {
        DeflateDivides(p, a, rest[i]);
        AddZero(0);
        AddCancels(rest[i], a);
        NoZeroDivisors(Eval(q, rest[i]), Add(rest[i], a));
      }
      RootBound(q, rest);
      DeflateZero(p, a);
    }
  }

  /** Two polynomials of the same length that agree at that many points are equal. */
  lemma Unique(p: Poly, q: Poly, xs: seq<byte>)
    requires |p| == |q| <= |xs| && Distinct(xs)
    requires forall i :: 0 <= i < |xs| ==> Eval(p, xs[i]) == Eval(q, xs[i])
    ensures p == q
  {
    hide Add, Mul;
    forall i | 0 <= i < |xs|
      ensures Eval(Plus(p, q), xs[i]) == 0
    {
      EvalPlus(p, q, xs[i]);
      AddZero(Eval(p, xs[i]));
    }
    RootBound(Plus(p, q), xs);
    forall i | 0 <= i < |p|
      ensures p[i] == q[i]
    {
      assert Plus(p, q)[i] == 0;
      AddCancels(p[i], q[i]);
    }
  }

  // ----- Lagrange interpolation

  /** The product of (z - x) over the list. */
  function ProductAt(xs: seq<byte>, z: byte): byte {
    if xs == [] then 1 else Mul(ProductAt(xs[..|xs| - 1], z), Add(z, xs[|xs| - 1]))
  }

  /** The same product as a polynomial in z. */
  function ProductPoly(xs: seq<byte>): (p: Poly)
    ensures |p| == |xs| + 1
  {
    if xs == [] then [1]
    else
      var p := ProductPoly(xs[..|xs| - 1]);
      Plus([0] + p, Scale(xs[|xs| - 1], p) + Zeros(1))
  }

  lemma {:induction false} EvalProductPoly(xs: seq<byte>, z: byte)
    ensures Eval(ProductPoly(xs), z) == ProductAt(xs, z)
  {
    hide Add, Mul;
    if xs == [] {
      assert ProductPoly([])[1..] == [];
      MulZero(z);
      AddZero(1);
    } else {
      var a := xs[|xs| - 1];
      var p := ProductPoly(xs[..|xs| - 1]);
      EvalProductPoly(xs[..|xs| - 1], z);
      EvalPlus([0] + p, Scale(a, p) + Zeros(1), z);
      assert ([0] + p)[1..] == p;
      AddZero(Mul(Eval(p, z), z));
      EvalPadded(Scale(a, p), 1, z);
      EvalScale(a, p, z);
      MulCommutes(a, Eval(p, z));
      MulDistributes(z, a, Eval(p, z));
    }
  }

  lemma {:induction false} ProductNonzero(xs: seq<byte>, z: byte)
    ensures ProductAt(xs, z) == 0 <==> z in xs
  {
    hide Add, Mul;
    if xs != [] {
      var a, rest := xs[|xs| - 1], xs[..|xs| - 1];
      ProductNonzero(rest, z);
      NoZeroDivisors(ProductAt(rest, z), Add(z, a));
      AddCancels(z, a);
      assert xs == rest + [a];
    }
  }

  /** The list without its i-th element (the whole list when `i` is past its end). */
  function Skip<T>(xs: seq<T>, i: nat): seq<T> {
    if i < |xs| then xs[..i] + xs[i + 1..] else xs
  }

  lemma SkipMembers(xs: seq<byte>, i: nat, j: nat)
    requires Distinct(xs) && i < |xs| && j < |xs|
    ensures xs[j] in Skip(xs, i) <==> i != j
  {
    if i != j {
      assert Skip(xs, i)[if j < i then j else j - 1] == xs[j];
    }
  }

  /** The i-th Lagrange basis value at `z`. */
  ghost function Basis(xs: seq<byte>, i: nat, z: byte): byte
    requires Distinct(xs) && i < |xs|
  {
    SkipMembers(xs, i, i);
    ProductNonzero(Skip(xs, i), xs[i]);
    Quotient(ProductAt(Skip(xs, i), z), ProductAt(Skip(xs, i), xs[i]))
  }

  lemma BasisAtNode(xs: seq<byte>, i: nat, j: nat)
    requires Distinct(xs) && i < |xs| && j < |xs|
    ensures Basis(xs, i, xs[j]) == if i == j then 1 else 0
  {
    hide Add, Mul;
    var den := ProductAt(Skip(xs, i), xs[i]);
    SkipMembers(xs, i, i);
    SkipMembers(xs, i, j);
    ProductNonzero(Skip(xs, i), xs[i]);
    ProductNonzero(Skip(xs, i), xs[j]);
    MulOne(den);
    MulZero(den);
    QuotientUnique(Basis(xs, i, xs[j]), if i == j then 1 else 0, den);
  }

  /** The sum of y_i times the i-th basis value, over the first `k` points. */
  ghost function Lagrange(xs: seq<byte>, ys: seq<byte>, k: nat, z: byte): byte
    requires Distinct(xs) && k <= |xs| == |ys|
  {
    if k == 0 then 0 else Add(Lagrange(xs, ys, k - 1, z), Mul(ys[k - 1], Basis(xs, k - 1, z)))
  }

  /** The i-th basis polynomial. */
  ghost function BasisPoly(xs: seq<byte>, i: nat): (p: Poly)
    requires Distinct(xs) && i < |xs|
    ensures |p| == |xs|
  {
    SkipMembers(xs, i, i);
    ProductNonzero(Skip(xs, i), xs[i]);
    Scale(Quotient(1, ProductAt(Skip(xs, i), xs[i])), ProductPoly(Skip(xs, i)))
  }

  lemma EvalBasisPoly(xs: seq<byte>, i: nat, z: byte)
    requires Distinct(xs) && i < |xs|
    ensures Eval(BasisPoly(xs, i), z) == Basis(xs, i, z)
  {
    hide Add, Mul;
    SkipMembers(xs, i, i);
    var rest := Skip(xs, i);
    ProductNonzero(rest, xs[i]);
    var num, den := ProductAt(rest, z), ProductAt(rest, xs[i]);
    var inv := Quotient(1, den);
    EvalProductPoly(rest, z);
    EvalScale(inv, ProductPoly(rest), z);
    MulCommutes(inv, num);
    MulAssoc(num, inv, den);
    MulOne(num);
    QuotientUnique(Mul(inv, num), Basis(xs, i, z), den);
  }

  ghost function Interpolant(xs: seq<byte>, ys: seq<byte>, k: nat): (p: Poly)
    requires Distinct(xs) && k <= |xs| == |ys|
    ensures |p| == |xs|
  {
    if k == 0 then Zeros(|xs|)
    else Plus(Interpolant(xs, ys, k - 1), Scale(ys[k - 1], BasisPoly(xs, k - 1)))
  }

  lemma {:induction false} EvalInterpolant(xs: seq<byte>, ys: seq<byte>, k: nat, z: byte)
    requires Distinct(xs) && k <= |xs| == |ys|
    ensures Eval(Interpolant(xs, ys, k), z) == Lagrange(xs, ys, k, z)
  {
    hide Add, Mul, Basis, BasisPoly;
    if k == 0 {
      EvalPadded([], |xs|, z);
      assert [] + Zeros(|xs|) == Zeros(|xs|);
    } else {
      EvalInterpolant(xs, ys, k - 1, z);
      EvalPlus(Interpolant(xs, ys, k - 1), Scale(ys[k - 1], BasisPoly(xs, k - 1)), z);
      EvalScale(ys[k - 1], BasisPoly(xs, k - 1), z);
      EvalBasisPoly(xs, k - 1, z);
    }
  }

  lemma {:induction false} LagrangeAtNode(xs: seq<byte>, ys: seq<byte>, k: nat, j: nat)
    requires Distinct(xs) && k <= |xs| == |ys| && j < |xs|
    ensures Lagrange(xs, ys, k, xs[j]) == if j < k then ys[j] else 0
  {
    hide Add, Mul, Basis;
    if k > 0 {
      LagrangeAtNode(xs, ys, k - 1, j);
      BasisAtNode(xs, k - 1, j);
      MulZero(ys[k - 1]);
      MulOne(ys[k - 1]);
      AddZero(if j < k then ys[j] else 0);
    }
  }

  /** Lagrange's sum evaluates, at any point, the one polynomial of length at most
      |xs| through the given points. */
  lemma LagrangeIsTheInterpolant(p: Poly, xs: seq<byte>, ys: seq<byte>, z: byte)
    requires Distinct(xs) && |p| <= |xs| == |ys|
    requires forall i :: 0 <= i < |xs| ==> Eval(p, xs[i]) == ys[i]
    ensures Lagrange(xs, ys, |xs|, z) == Eval(p, z)
  {
    hide Add, Mul, Basis, BasisPoly, Lagrange, Interpolant, Eval;
    var q := Interpolant(xs, ys, |xs|);
    var p' := p + Zeros(|xs| - |p|);
    forall i | 0 <= i < |xs|
      ensures Eval(p', xs[i]) == Eval(q, xs[i])
    {
      EvalPadded(p, |xs| - |p|, xs[i]);
      EvalInterpolant(xs, ys, |xs|, xs[i]);
      LagrangeAtNode(xs, ys, |xs|, i);
    }
    Unique(p', q, xs);
    EvalPadded(p, |xs| - |p|, z);
    EvalInterpolant(xs, ys, |xs|, z);
  }
}
