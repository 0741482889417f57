/** Byte-wise Shamir sharing: the split and combine loops, reconstruction by any
    quorum, perfect secrecy below it, and how combine reacts to its inputs. */
module Shamir {
  import opened Gf256
  import opened GfTables
  import opened Polynomials
  import opened Prelude

  /** One share: its index, the threshold, and one byte per byte of the secret. */
  datatype Share = Share(x: byte, m: byte, y: seq<byte>)

  datatype ShamirError = BadSplit | NoShares | DifferentLengths | BadIndex

  // ----- split

  ghost predicate ValidSplit(m: int, n: int) {
    2 <= m <= n <= 255
  }

  /** Coefficients a split may draw: m - 1 random bytes for every secret byte. */
  ghost predicate Draws(random: seq<seq<byte>>, length: nat, m: int) {
    |random| == length && forall b :: 0 <= b < length ==> |random[b]| == m - 1
  }

  /** The share at `x` of the polynomials with the given constant terms. */
  ghost function ShareAt(secret: seq<byte>, random: seq<seq<byte>>, m: byte, x: byte): Share
    requires |random| == |secret|
  {
    Share(x, m, seq(|secret|, b requires 0 <= b < |secret| => Eval([secret[b]] + random[b], x)))
  }

  /** evalPoly: Horner's rule from the highest coefficient down. */
  method EvalPoly(t: Tables, coeffs: seq<byte>, x: byte) returns (r: byte)
    requires t.Valid()
    ensures r == Eval(coeffs, x)
  {
    hide Add, Mul;
    r := 0;
    var i := |coeffs|;
    while i > 0
      invariant 0 <= i <= |coeffs|
      invariant r == Eval(coeffs[i..], x)
    {
      i := i - 1;
      assert coeffs[i..][1..] == coeffs[i + 1..];
      r := Add(t.GfMul(r, x), coeffs[i]);
    }
  }

  /** shamirSplit; `random` holds the bytes the random source returns. */
  method ShamirSplit(t: Tables, secret: seq<byte>, m: int, n: int, random: seq<seq<byte>>)
    returns (r: Result<seq<Share>, ShamirError>)
    requires t.Valid()
    requires ValidSplit(m, n) ==> Draws(random, |secret|, m)
    ensures r == Err(BadSplit) <==> m < 2 || n < m || n > 255
    ensures !ValidSplit(m, n) ==> r == Err(BadSplit)
    ensures ValidSplit(m, n) ==> r.Ok? && |r.value| == n
    ensures ValidSplit(m, n) ==>
      forall i :: 0 <= i < n ==> r.value[i] == ShareAt(secret, random, m, i + 1)
  {
    hide Add, Mul, Eval;
    if m < 2 || m > n || n > 255 {
      return Err(BadSplit);
    }
    var ys: seq<array<byte>> := [];
    for i := 0 to n
      invariant |ys| == i
      invariant forall k :: 0 <= k < i ==> fresh(ys[k]) && ys[k].Length == |secret|
      invariant forall k, l :: 0 <= k < l < i ==> ys[k] != ys[l]
    {
      var y := new byte[|secret|](_ => 0);
      ys := ys + [y];
    }
    for bi := 0 to |secret|
      invariant forall k, b :: 0 <= k < n && 0 <= b < bi ==> ys[k][b] == Eval([secret[b]] + random[b], k + 1)
    {
      var coeffs := [secret[bi]] + random[bi];
      for si := 0 to n
        invariant forall k, b :: 0 <= k < n && 0 <= b < bi ==> ys[k][b] == Eval([secret[b]] + random[b], k + 1)
        invariant forall k :: 0 <= k < si ==> ys[k][bi] == Eval([secret[bi]] + random[bi], k + 1)
      {
        ys[si][bi] := EvalPoly(t, coeffs, si + 1);
      }
    }
    var shares: seq<Share> := [];
    for i := 0 to n
      invariant |shares| == i
      invariant forall k :: 0 <= k < i ==> shares[k] == ShareAt(secret, random, m, k + 1)
    {
      shares := shares + [Share(i + 1, m, ys[i][..])];
    }
    r := Ok(shares);
  }

  // ----- combine

  function Xs(shares: seq<Share>): (xs: seq<byte>)
    ensures |xs| == |shares|
  {
    seq(|shares|, i requires 0 <= i < |shares| => shares[i].x)
  }

  /** Byte `b` of every share. */
  function Column(shares: seq<Share>, b: nat): (ys: seq<byte>)
    requires forall s :: s in shares ==> b < |s.y|
    ensures |ys| == |shares|
  {
    seq(|shares|, i requires 0 <= i < |shares| => shares[i].y[b])
  }

  /** What combine reports for the i-th share, given the ones before it. */
  ghost predicate Faulty(shares: seq<Share>, i: nat)
    requires i < |shares|
  {
    |shares[i].y| != |shares[0].y| || shares[i].x == 0 || shares[i].x in Xs(shares[..i])
  }

  /** The error is that of the first faulty share. */
  ghost predicate FirstFault(shares: seq<Share>, e: ShamirError) {
    exists i :: 0 <= i < |shares| && Faulty(shares, i) && (forall k :: 0 <= k < i ==> !Faulty(shares, k))
      && e == if |shares[i].y| != |shares[0].y| then DifferentLengths else BadIndex
  }

  ghost predicate Combinable(shares: seq<Share>) {
    && shares != []
    && (forall s :: s in shares ==> |s.y| == |shares[0].y| && s.x != 0)
    && Distinct(Xs(shares))
  }

  lemma CombinableMeansNoFault(shares: seq<Share>)
    requires shares != []
    ensures Combinable(shares) <==> forall i :: 0 <= i < |shares| ==> !Faulty(shares, i)
  {
    var xs := Xs(shares);
    if Combinable(shares) {
      forall i | 0 <= i < |shares|
        ensures !Faulty(shares, i)
      {
        assert shares[i] in shares;
        assert forall j :: 0 <= j < i ==> Xs(shares[..i])[j] == xs[j] != xs[i];
      }
    }
    if forall i :: 0 <= i < |shares| ==> !Faulty(shares, i) {
      forall s | s in shares
        ensures |s.y| == |shares[0].y| && s.x != 0
      {
        var i :| 0 <= i < |shares| && shares[i] == s;
        assert !Faulty(shares, i);
      }
      forall j, i | 0 <= j < i < |shares|
        ensures xs[j] != xs[i]
      {
        assert !Faulty(shares, i);
        assert Xs(shares[..i])[j] == xs[j];
      }
    }
  }

  /** Byte by byte, Lagrange's sum at 0. */
  ghost function Secret(shares: seq<Share>): (s: seq<byte>)
    requires Combinable(shares)
  {
    seq(|shares[0].y|, b requires 0 <= b < |shares[0].y| =>
      Lagrange(Xs(shares), Column(shares, b), |shares|, 0))
  }

  lemma SkipNext(xs: seq<byte>, i: nat, j: nat, z: byte)
    requires i < |xs| && j < |xs|
    ensures ProductAt(Skip(xs[..j + 1], i), z) ==
      if i == j then ProductAt(Skip(xs[..j], i), z)
      else Mul(ProductAt(Skip(xs[..j], i), z), Add(z, xs[j]))
  {
    hide Add, Mul;
    var before, after := Skip(xs[..j], i), Skip(xs[..j + 1], i);
    if i == j {
      assert after == before;
    } else {
      assert after == before + [xs[j]];
      assert after[..|after| - 1] == before;
    }
  }

  lemma SeenTwice(shares: seq<Share>, k: nat)
    requires k < |shares|
    ensures shares[k].x in Xs(shares[..k]) ==> !Distinct(Xs(shares))
  {
    if shares[k].x in Xs(shares[..k]) {
      var j :| 0 <= j < k && Xs(shares[..k])[j] == shares[k].x;
      assert Xs(shares)[j] == Xs(shares)[k];
    }
  }

  /** shamirCombine */
  method ShamirCombine(t: Tables, shares: seq<Share>) returns (r: Result<seq<byte>, ShamirError>)
    requires t.Valid()
    ensures shares == [] ==> r == Err(NoShares)
    ensures shares != [] && !Combinable(shares) ==> r.Err? && FirstFault(shares, r.error)
    ensures Combinable(shares) ==> r == Ok(Secret(shares))
    ensures r == Err(DifferentLengths) ==> exists s :: s in shares && |s.y| != |shares[0].y|
    ensures r == Err(BadIndex) ==> (exists s :: s in shares && s.x == 0) || !Distinct(Xs(shares))
  {
    hide Add, Mul, Basis, ProductAt;
    if |shares| == 0 {
      return Err(NoShares);
    }
    CombinableMeansNoFault(shares);
    var seen: set<byte> := {};
    var L := |shares[0].y|;
    for k := 0 to |shares|
      invariant seen == set x | x in Xs(shares[..k])
      invariant forall i :: 0 <= i < k ==> !Faulty(shares, i)
    {
      var s := shares[k];
      if |s.y| != L {
        assert Faulty(shares, k);
        return Err(DifferentLengths);
      }
      if s.x == 0 || s.x in seen {
        assert Faulty(shares, k);
        SeenTwice(shares, k);
        return Err(BadIndex);
      }
      seen := seen + {s.x};
      assert Xs(shares[..k + 1]) == Xs(shares[..k]) + [s.x];
    }
    ghost var xs := Xs(shares);
    var secret := new byte[L];
    for bi := 0 to L
      invariant forall b :: 0 <= b < bi ==> secret[b] == Secret(shares)[b]
    {
      var acc: byte := 0;
      for i := 0 to |shares|
        invariant acc == Lagrange(xs, Column(shares, bi), i, 0)
        invariant forall b :: 0 <= b < bi ==> secret[b] == Secret(shares)[b]
      {
        var f := BasisAtZero(t, shares, i);
        acc := Add(acc, t.GfMul(shares[i].y[bi], f));
      }
      secret[bi] := acc;
    }
    assert secret[..] == Secret(shares);
    r := Ok(secret[..]);
  }

  /** The inner loop of combine: the factor of the i-th share. */
  method BasisAtZero(t: Tables, shares: seq<Share>, i: nat) returns (f: byte)
    requires t.Valid() && Combinable(shares) && i < |shares|
    ensures f == Basis(Xs(shares), i, 0)
  {
    hide Add, Mul, ProductAt;
    ghost var xs := Xs(shares);
    ProductAtNone(0);
    ProductAtNone(xs[i]);
    var num: byte, den: byte := 1, 1;
    for j := 0 to |shares|
      invariant num == ProductAt(Skip(xs[..j], i), 0)
      invariant den == ProductAt(Skip(xs[..j], i), xs[i])
    {
      SkipNext(xs, i, j, 0);
      SkipNext(xs, i, j, xs[i]);
      AddZero(xs[j]);
      if i != j {
        num := t.GfMul(num, shares[j].x);
        den := t.GfMul(den, Add(shares[i].x, shares[j].x));
      }
    }
    assert xs[..|shares|] == xs;
    SkipMembers(xs, i, i);
    ProductNonzero(Skip(xs, i), xs[i]);
    f := t.GfDiv(num, den);
    QuotientUnique(f, Basis(xs, i, 0), den);
  }

  lemma ProductAtNone(z: byte)
    ensures ProductAt([], z) == 1
  {
  }

  // ----- reconstruction

  /** Any m or more distinct shares, in any order, combine to the secret. */
  lemma Reconstruction(secret: seq<byte>, random: seq<seq<byte>>, m: nat, n: nat, picked: seq<byte>, shares: seq<Share>)
    requires ValidSplit(m, n) && Draws(random, |secret|, m)
    requires Distinct(picked) && |picked| >= m && forall x :: x in picked ==> 1 <= x <= n
    requires |shares| == |picked|
    requires forall i :: 0 <= i < |picked| ==> shares[i] == ShareAt(secret, random, m, picked[i])
    ensures Combinable(shares) && Secret(shares) == secret
  {
    hide Add, Mul, Eval, Lagrange;
    assert Xs(shares) == picked;
    forall i | 0 <= i < |shares|
      ensures shares[i].x != 0
    {
      assert picked[i] in picked;
    }
    forall b | 0 <= b < |secret|
      ensures Secret(shares)[b] == secret[b]
    {
      var p := [secret[b]] + random[b];
      LagrangeIsTheInterpolant(p, picked, Column(shares, b), 0);
      EvalAtZero(p);
    }
  }

  // ----- perfect secrecy

  /** The random bytes make the split of `secret` show `seen[i]` at index `xs[i]`. */
  ghost predicate Explains(secret: seq<byte>, m: nat, random: seq<seq<byte>>, xs: seq<byte>, seen: seq<seq<byte>>)
    requires m < 256 && |xs| == |seen|
  {
    && Draws(random, |secret|, m)
    && forall i :: 0 <= i < |xs| ==> ShareAt(secret, random, m, xs[i]).y == seen[i]
  }

  /** The coefficients that send 0 to `s` and xs[i] to ys[i]. */
  lemma CoefficientsExist(s: byte, xs: seq<byte>, ys: seq<byte>) returns (c: seq<byte>)
    requires Distinct(xs) && 0 !in xs && |xs| == |ys|
    ensures |c| == |xs| && forall i :: 0 <= i < |xs| ==> Eval([s] + c, xs[i]) == ys[i]
  {
    hide Add, Mul, Eval, Interpolant, Lagrange;
    var xs', ys' := [0] + xs, [s] + ys;
    var p := Interpolant(xs', ys', |xs'|);
    forall i | 0 <= i < |xs'|
      ensures Eval(p, xs'[i]) == ys'[i]
    {
      EvalInterpolant(xs', ys', |xs'|, xs'[i]);
      LagrangeAtNode(xs', ys', |xs'|, i);
    }
    assert xs'[0] == 0;
    EvalAtZero(p);
    c := p[1..];
    assert p == [s] + c;
    forall i | 0 <= i < |xs|
      ensures Eval([s] + c, xs[i]) == ys[i]
    {
      assert xs'[i + 1] == xs[i];
    }
  }

  lemma CoefficientsUnique(s: byte, c: seq<byte>, c': seq<byte>, xs: seq<byte>)
    requires Distinct(xs) && 0 !in xs && |xs| == |c| == |c'|
    requires forall i :: 0 <= i < |xs| ==> Eval([s] + c, xs[i]) == Eval([s] + c', xs[i])
    ensures c == c'
  {
    hide Add, Mul, Eval;
    var xs' := [0] + xs;
    forall i | 0 <= i < |xs'|
      ensures Eval([s] + c, xs'[i]) == Eval([s] + c', xs'[i])
    {
      EvalAtZero([s] + c);
      EvalAtZero([s] + c');
      if i > 0 {
        assert xs'[i] == xs[i - 1];
      }
    }
    Unique([s] + c, [s] + c', xs');
    assert c == ([s] + c)[1..] && c' == ([s] + c')[1..];
  }

  lemma {:induction false} ExplanationExists(secret: seq<byte>, m: nat, xs: seq<byte>, seen: seq<seq<byte>>, k: nat)
      returns (random: seq<seq<byte>>)
    requires 2 <= m < 256 && |xs| == |seen| == m - 1 && Distinct(xs) && 0 !in xs
    requires forall i :: 0 <= i < |seen| ==> |seen[i]| == |secret|
    requires k <= |secret|
    ensures Draws(random, k, m)
    ensures forall i, b :: 0 <= i < |xs| && 0 <= b < k ==> Eval([secret[b]] + random[b], xs[i]) == seen[i][b]
  {
    hide Eval;
    random := [];
    if k > 0 {
      random := ExplanationExists(secret, m, xs, seen, k - 1);
      var ys := seq(|xs|, i requires 0 <= i < |xs| => seen[i][k - 1]);
      var c := CoefficientsExist(secret[k - 1], xs, ys);
      random := random + [c];
    }
  }

  /** Whatever m - 1 shares show, every secret explains it by exactly one choice of
      the random bytes: fewer than m shares say nothing about the secret. */
  lemma PerfectSecrecy(secret: seq<byte>, m: nat, n: nat, xs: seq<byte>, seen: seq<seq<byte>>)
    requires ValidSplit(m, n)
    requires |xs| == |seen| == m - 1 && Distinct(xs) && forall x :: x in xs ==> 1 <= x <= n
    requires forall i :: 0 <= i < |seen| ==> |seen[i]| == |secret|
    ensures exists random :: Explains(secret, m, random, xs, seen)
    ensures forall random, random' ::
      Explains(secret, m, random, xs, seen) && Explains(secret, m, random', xs, seen) ==> random == random'
  {
    hide Eval;
    var r := ExplanationExists(secret, m, xs, seen, |secret|);
    forall i | 0 <= i < |xs|
      ensures ShareAt(secret, r, m, xs[i]).y == seen[i]
    {
    }
    assert Explains(secret, m, r, xs, seen);
    forall random, random' | Explains(secret, m, random, xs, seen) && Explains(secret, m, random', xs, seen)
      ensures random == random'
    {
      forall b | 0 <= b < |secret|
        ensures random[b] == random'[b]
      {
        forall i | 0 <= i < |xs|
          ensures Eval([secret[b]] + random[b], xs[i]) == Eval([secret[b]] + random'[b], xs[i])
        {
          assert ShareAt(secret, random, m, xs[i]).y[b] == seen[i][b];
          assert ShareAt(secret, random', m, xs[i]).y[b] == seen[i][b];
        }
        CoefficientsUnique(secret[b], random[b], random'[b], xs);
      }
    }
  }

  // ----- how combine reacts to its inputs

  lemma {:induction false} OneCopy(shares: seq<Share>, s: Share)
    requires Distinct(Xs(shares))
    ensures multiset(shares)[s] <= 1
  {
    if shares != [] {
      var last := |shares| - 1;
      var rest := shares[..last];
      assert shares == rest + [shares[last]];
      assert forall j :: 0 <= j < last ==> Xs(rest)[j] == Xs(shares)[j] != Xs(shares)[last];
      assert shares[last] !in rest by {
        assert forall j :: 0 <= j < last ==> rest[j].x == Xs(rest)[j];
      }
      OneCopy(rest, s);
    }
  }

  lemma TwoCopies(shares: seq<Share>, i: nat, j: nat)
    requires i < j < |shares| && shares[i] == shares[j]
    ensures multiset(shares)[shares[i]] >= 2
  {
    assert shares == shares[..i] + [shares[i]] + shares[i + 1..j] + [shares[j]] + shares[j + 1..];
  }

  lemma PermutationCombinable(shares: seq<Share>, shares': seq<Share>)
    requires Combinable(shares) && multiset(shares) == multiset(shares')
    ensures Combinable(shares') && |shares'| == |shares| && |shares'[0].y| == |shares[0].y|
  {
    assert |multiset(shares)| == |multiset(shares')|;
    forall s | s in shares'
      ensures s in shares
    {
      assert s in multiset(shares');
    }
    assert shares'[0] in shares';
    forall i, j | 0 <= i < j < |shares'|
      ensures shares'[i].x != shares'[j].x
    {
      assert shares'[i] in shares' && shares'[j] in shares';
      var k :| 0 <= k < |shares| && shares[k] == shares'[i];
      var l :| 0 <= l < |shares| && shares[l] == shares'[j];
      if k == l {
        TwoCopies(shares', i, j);
        OneCopy(shares, shares[k]);
      }
      assert Xs(shares)[k] != Xs(shares)[l];
    }
  }

  /** The order of the shares does not matter. */
  lemma CombinePermutation(shares: seq<Share>, shares': seq<Share>)
    requires Combinable(shares) && multiset(shares) == multiset(shares')
    ensures Combinable(shares') && Secret(shares') == Secret(shares)
  {
    hide Add, Mul, Eval, Lagrange, Interpolant;
    PermutationCombinable(shares, shares');
    var xs, xs', n := Xs(shares), Xs(shares'), |shares|;
    forall b | 0 <= b < |shares[0].y|
      ensures Lagrange(xs', Column(shares', b), n, 0) == Lagrange(xs, Column(shares, b), n, 0)
    {
      var ys := Column(shares, b);
      var p := Interpolant(xs, ys, n);
      forall i | 0 <= i < n
        ensures Eval(p, xs'[i]) == Column(shares', b)[i]
      {
        assert shares'[i] in multiset(shares');
        var k :| 0 <= k < n && shares[k] == shares'[i];
        EvalInterpolant(xs, ys, n, xs[k]);
        LagrangeAtNode(xs, ys, n, k);
      }
      LagrangeIsTheInterpolant(p, xs', Column(shares', b), 0);
      EvalInterpolant(xs, ys, n, 0);
    }
  }

  lemma {:induction false} LagrangeUpdate(xs: seq<byte>, ys: seq<byte>, k: nat, i: nat, v: byte, z: byte)
    requires Distinct(xs) && k <= |xs| == |ys| && i < |xs|
    ensures Lagrange(xs, ys[i := v], k, z) ==
      if i < k then Add(Lagrange(xs, ys, k, z), Mul(Add(ys[i], v), Basis(xs, i, z))) else Lagrange(xs, ys, k, z)
  {
    hide Add, Mul, Basis;
    if k > 0 {
      LagrangeUpdate(xs, ys, k - 1, i, v, z);
      var before, b := Lagrange(xs, ys, k - 1, z), Basis(xs, k - 1, z);
      if i == k - 1 {
        MulDistributes(ys[i], v, b);
        AddAssoc(before, Mul(ys[i], b), Add(Mul(ys[i], b), Mul(v, b)));
        AddAssoc(Mul(ys[i], b), Mul(ys[i], b), Mul(v, b));
        AddZero(Mul(ys[i], b));
        AddZero(Mul(v, b));
      } else if i < k - 1 {
        var d, y := Mul(Add(ys[i], v), Basis(xs, i, z)), Mul(ys[k - 1], b);
        AddAssoc(before, d, y);
        AddCommutes(d, y);
        AddAssoc(before, y, d);
      }
    }
  }

  lemma BasisNonzero(xs: seq<byte>, i: nat)
    requires Distinct(xs) && i < |xs| && 0 !in xs
    ensures Basis(xs, i, 0) != 0
  {
    hide Add, Mul;
    SkipMembers(xs, i, i);
    ProductNonzero(Skip(xs, i), xs[i]);
    ProductNonzero(Skip(xs, i), 0);
    MulZero(ProductAt(Skip(xs, i), xs[i]));
  }

  /** Changing byte `b` of one share changes byte `b` of the result and no other. */
  lemma CombineDetectsByte(shares: seq<Share>, i: nat, b: nat, v: byte)
    requires Combinable(shares) && i < |shares| && b < |shares[i].y| && v != shares[i].y[b]
    ensures var changed := shares[i := shares[i].(y := shares[i].y[b := v])];
      && Combinable(changed)
      && |Secret(changed)| == |Secret(shares)|
      && forall c :: 0 <= c < |Secret(shares)| ==> (Secret(changed)[c] != Secret(shares)[c] <==> c == b)
  {
    hide Add, Mul, Lagrange, Basis;
    var changed := shares[i := shares[i].(y := shares[i].y[b := v])];
    var xs, n := Xs(shares), |shares|;
    assert Xs(changed) == xs;
    assert shares[i] in shares && shares[0] in shares;
    assert forall s :: s in changed ==> s in shares || s == changed[i];
    forall c | 0 <= c < |shares[0].y|
      ensures Lagrange(xs, Column(changed, c), n, 0) != Lagrange(xs, Column(shares, c), n, 0) <==> c == b
    {
      var ys := Column(shares, c);
      if c == b {
        assert Column(changed, c) == ys[i := v];
        LagrangeUpdate(xs, ys, n, i, v, 0);
        BasisNonzero(xs, i);
        AddCancels(ys[i], v);
        var d := Mul(Add(ys[i], v), Basis(xs, i, 0));
        NoZeroDivisors(Add(ys[i], v), Basis(xs, i, 0));
        AddAssoc(Lagrange(xs, ys, n, 0), Lagrange(xs, ys, n, 0), d);
        AddZero(Lagrange(xs, ys, n, 0));
        AddZero(d);
      } else {
        assert Column(changed, c) == ys;
      }
    }
  }

  lemma {:induction false} LagrangePlus(xs: seq<byte>, ys: seq<byte>, ys': seq<byte>, k: nat, z: byte)
    requires Distinct(xs) && k <= |xs| == |ys| == |ys'|
    ensures Lagrange(xs, Plus(ys, ys'), k, z) == Add(Lagrange(xs, ys, k, z), Lagrange(xs, ys', k, z))
  {
    hide Add, Mul, Basis;
    if k == 0 {
      AddZero(0);
    } else {
      LagrangePlus(xs, ys, ys', k - 1, z);
      var b := Basis(xs, k - 1, z);
      MulDistributes(ys[k - 1], ys'[k - 1], b);
      Polynomials.AddSwap(Lagrange(xs, ys, k - 1, z), Lagrange(xs, ys', k - 1, z), Mul(ys[k - 1], b),
        Mul(ys'[k - 1], b));
    }
  }

  /** Combining the sums of two share lists gives the sum of what they combine to. */
  lemma CombineLinear(shares: seq<Share>, shares': seq<Share>, sums: seq<Share>)
    requires Combinable(shares) && |shares| == |shares'| == |sums|
    requires forall i :: 0 <= i < |shares| ==>
      && shares'[i].x == sums[i].x == shares[i].x
      && |shares'[i].y| == |shares[i].y|
      && sums[i].y == Plus(shares[i].y, shares'[i].y)
    ensures Combinable(shares') && Combinable(sums)
    ensures |Secret(shares)| == |Secret(shares')| && Secret(sums) == Plus(Secret(shares), Secret(shares'))
  {
    hide Add, Mul, Lagrange;
    assert Xs(shares') == Xs(sums) == Xs(shares);
    forall i | 0 <= i < |shares|
      ensures |shares'[i].y| == |sums[i].y| == |shares[0].y| && shares[i].x != 0
    {
      assert shares[i] in shares;
    }
    forall b | 0 <= b < |shares[0].y|
      ensures Secret(sums)[b] == Add(Secret(shares)[b], Secret(shares')[b])
    {
      assert Column(sums, b) == Plus(Column(shares, b), Column(shares', b));
      LagrangePlus(Xs(shares), Column(shares, b), Column(shares', b), |shares|, 0);
    }
  }
}
