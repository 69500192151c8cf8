/** Multiplication of polynomials, and multiplication and division by X^n + c. */
module PolynomialDivision {
  import opened Algebra
  import opened Polynomial

  // ---------------------------------------------------------------- the general product

  // The part of coefficient k of the product that the first n coefficients of p contribute.
  function Convolution<S(!new)>(r: Ring<S>, p: seq<S>, q: seq<S>, k: int, n: nat): S
    requires n <= |p|
  {
    if n == 0 then r.zero
    else r.add(Convolution(r, p, q, k, n - 1), r.mul(p[n - 1], Coeff(r, q, k - (n - 1))))
  }

  // res is p * q
  ghost predicate IsProduct<S(!new)>(r: Ring<S>, p: seq<S>, q: seq<S>, res: seq<S>) {
    && |res| >= |p| + |q| - 1
    && forall k :: 0 <= k < |res| ==> res[k] == Convolution(r, p, q, k, |p|)
  }

  method MultiplyRow<S(!new)>(r: Ring<S>, res: array<S>, p: seq<S>, q: seq<S>, i: nat)
    requires CommRing(r) && i < |p| && |p| + |q| - 1 <= res.Length
    modifies res
    ensures forall k :: 0 <= k < res.Length ==> res[k] == r.add(old(res[k]), r.mul(p[i], Coeff(r, q, k - i)))
  {
    for j := 0 to |q|
      invariant forall k :: 0 <= k < res.Length ==>
        res[k] == if i <= k < i + j then r.add(old(res[k]), r.mul(p[i], q[k - i])) else old(res[k])
    {
      var tmp := r.mul(p[i], q[j]);
      res[i + j] := r.add(res[i + j], tmp);
    }
    MulZero(r, p[i]);
    forall k | 0 <= k < res.Length
      ensures r.add(old(res[k]), r.zero) == old(res[k])
    {
      AddZero(r.Plus(), old(res[k]));
    }
  }

  /** The double loop adds every product of two coefficients into the right place. */
  method Multiply<S(!new)>(r: Ring<S>, res: array<S>, p: seq<S>, q: seq<S>)
    requires CommRing(r) && |p| + |q| - 1 <= res.Length
    requires forall i :: 0 <= i < res.Length ==> res[i] == r.zero
    modifies res
    ensures IsProduct(r, p, q, res[..])
  {
    for i := 0 to |p|
      invariant forall k :: 0 <= k < res.Length ==> res[k] == Convolution(r, p, q, k, i)
    {
      MultiplyRow(r, res, p, q, i);
    }
  }

  // ---------------------------------------------------------------- X^n + c

  function XnPlus<S(!new)>(r: Ring<S>, n: nat, c: S): seq<S>
    requires n > 0
  {
    seq(n + 1, i => if i == 0 then c else if i == n then r.one else r.zero)
  }

  // Coefficient k of p * (X^n + c).
  function ShiftedSum<S(!new)>(r: Ring<S>, p: seq<S>, n: nat, c: S, k: int): S {
    r.add(Coeff(r, p, k - n), r.mul(c, Coeff(r, p, k)))
  }

  lemma {:induction false} SparseConvolution<S(!new)>(r: Ring<S>, p: seq<S>, n: nat, c: S, k: int, m: nat)
    requires CommRing(r) && n > 0 && m <= |p|
    ensures Convolution(r, p, XnPlus(r, n, c), k, m)
         == r.add(if 0 <= k - n < m then p[k - n] else r.zero, r.mul(c, if 0 <= k < m then p[k] else r.zero))
  {
    var g, x := r.Plus(), XnPlus(r, n, c);
    MulZero(r, c);
    AddZero(g, r.zero);
    if m > 0 {
      SparseConvolution(r, p, n, c, k, m - 1);
      var a := if 0 <= k - n < m - 1 then p[k - n] else r.zero;
      var b := if 0 <= k < m - 1 then p[k] else r.zero;
      var last := p[m - 1];
      AddZero(g, r.add(a, r.mul(c, b)));
      if k == m - 1 {
        // the constant term of X^n + c
        MulComm(r, last, c);
        AddZero(g, a);
        AddZero(g, r.mul(c, last));
        AddZero(g, r.add(a, r.mul(c, last)));
      } else if k - n == m - 1 {
        MulOne(r, last);
        AddZero(g, last);
      } else {
        MulZero(r, last);
        assert Coeff(r, x, k - (m - 1)) == r.zero;
      }
    }
  }

  // res is p * (X^n + c)
  ghost predicate IsShiftedProduct<S(!new)>(r: Ring<S>, p: seq<S>, n: nat, c: S, res: seq<S>) {
    |res| == |p| + n && forall k :: 0 <= k < |res| ==> res[k] == ShiftedSum(r, p, n, c, k)
  }

  lemma ShiftedProductIsProduct<S(!new)>(r: Ring<S>, p: seq<S>, n: nat, c: S, res: seq<S>)
    requires CommRing(r) && n > 0 && IsShiftedProduct(r, p, n, c, res)
    ensures IsProduct(r, p, XnPlus(r, n, c), res)
  {
    forall k | 0 <= k < |res|
      ensures res[k] == Convolution(r, p, XnPlus(r, n, c), k, |p|)
    {
      SparseConvolution(r, p, n, c, k, |p|);
    }
  }

  // ---------------------------------------------------------------- division

  // p is q * (X^n + c) + rem, with rem shorter than n + 1.
  ghost predicate IsDivision<S(!new)>(r: Ring<S>, p: seq<S>, n: nat, c: S, q: seq<S>, rem: seq<S>) {
    && |p| > n && |q| == |p| - n && |rem| == n
    && forall k :: 0 <= k < |p| ==> p[k] == r.add(ShiftedSum(r, q, n, c, k), Coeff(r, rem, k))
  }

  // The top coefficients of the quotient, then each lower one, are determined.
  lemma {:induction false} QuotientUnique<S(!new)>(r: Ring<S>, p: seq<S>, n: nat, c: S, q: seq<S>, rem: seq<S>, q': seq<S>, rem': seq<S>, i: nat)
    requires CommRing(r) && n > 0 && IsDivision(r, p, n, c, q, rem) && IsDivision(r, p, n, c, q', rem') && i <= |q|
    ensures q[i..] == q'[i..]
    decreases |q| - i
  {
    if i < |q| {
      QuotientUnique(r, p, n, c, q, rem, q', rem', i + 1);
      var g, k := r.Plus(), i + n;
      var high := Coeff(r, q, k);
      assert high == Coeff(r, q', k) by {
        if k < |q| { assert q[i + 1..][k - i - 1] == q'[i + 1..][k - i - 1]; }
      }
      assert Coeff(r, rem, k) == r.zero == Coeff(r, rem', k);
      AddZero(g, r.add(q[i], r.mul(c, high)));
      AddZero(g, r.add(q'[i], r.mul(c, high)));
      AddCancel(g, q[i], q'[i], r.mul(c, high));
      assert q[i..] == [q[i]] + q[i + 1..] && q'[i..] == [q'[i]] + q'[i + 1..];
    }
  }

  /** There is at most one quotient and remainder, so all ways of dividing agree. */
  lemma DivisionUnique<S(!new)>(r: Ring<S>, p: seq<S>, n: nat, c: S, q: seq<S>, rem: seq<S>, q': seq<S>, rem': seq<S>)
    requires CommRing(r) && n > 0 && IsDivision(r, p, n, c, q, rem) && IsDivision(r, p, n, c, q', rem')
    ensures q == q' && rem == rem'
  {
    QuotientUnique(r, p, n, c, q, rem, q', rem', 0);
    assert q[0..] == q && q'[0..] == q';
    forall k | 0 <= k < n
      ensures rem[k] == rem'[k]
    {
      var g, s := r.Plus(), ShiftedSum(r, q, n, c, k);
      AddComm(g, s, rem[k]);
      AddComm(g, s, rem'[k]);
      AddCancel(g, rem[k], rem'[k], s);
    }
  }

  lemma ProductDivides<S(!new)>(r: Ring<S>, p: seq<S>, n: nat, c: S, res: seq<S>)
    requires CommRing(r) && n > 0 && |p| > 0 && IsShiftedProduct(r, p, n, c, res)
    ensures IsDivision(r, res, n, c, p, seq(n, _ => r.zero))
  {
    var zeros := seq(n, _ => r.zero);
    forall k | 0 <= k < |res|
      ensures res[k] == r.add(ShiftedSum(r, p, n, c, k), Coeff(r, zeros, k))
    {
      AddZero(r.Plus(), res[k]);
    }
  }

  /** Dividing a product by X^n + c gives the other factor back and nothing over. */
  lemma DivideProduct<S(!new)>(r: Ring<S>, p: seq<S>, n: nat, c: S, res: seq<S>, q: seq<S>, rem: seq<S>)
    requires CommRing(r) && n > 0 && |p| > 0 && IsShiftedProduct(r, p, n, c, res) && IsDivision(r, res, n, c, q, rem)
    ensures q == p && forall k :: 0 <= k < n ==> rem[k] == r.zero
  {
    ProductDivides(r, p, n, c, res);
    DivisionUnique(r, res, n, c, q, rem, p, seq(n, _ => r.zero));
  }

  // ---------------------------------------------------------------- the algorithms

  // Division with the update of a quotient coefficient and the remainder given by `minus`.
  ghost predicate Subtracts<S(!new)>(r: Ring<S>, c: S, minus: (S, S) -> S) {
    forall x: S, y: S {:trigger On(x, y, y)} | On(x, y, y) :: r.add(minus(x, y), r.mul(c, y)) == x
  }

  lemma SubtractAt<S(!new)>(r: Ring<S>, c: S, minus: (S, S) -> S, x: S, y: S)
    requires Subtracts(r, c, minus)
    ensures r.add(minus(x, y), r.mul(c, y)) == x
  {
    assert On(x, y, y);
  }

  // What the loops leave: the quotient from the top down, and the remainder.
  ghost predicate Divided<S(!new)>(r: Ring<S>, p: seq<S>, n: nat, minus: (S, S) -> S, q: seq<S>, rem: seq<S>) {
    && |p| > n && |q| == |p| - n && |rem| == n
    && (forall i :: 0 <= i < |q| ==> q[i] == if i + n < |q| then minus(p[i + n], q[i + n]) else p[i + n])
    && (forall i :: 0 <= i < n ==> rem[i] == if i < |q| then minus(p[i], q[i]) else p[i])
  }

  lemma DividedIsDivision<S(!new)>(r: Ring<S>, p: seq<S>, n: nat, c: S, minus: (S, S) -> S, q: seq<S>, rem: seq<S>)
    requires CommRing(r) && n > 0 && Subtracts(r, c, minus) && Divided(r, p, n, minus, q, rem)
    ensures IsDivision(r, p, n, c, q, rem)
  {
    var g := r.Plus();
    MulZero(r, c);
    forall k | 0 <= k < |p|
      ensures p[k] == r.add(ShiftedSum(r, q, n, c, k), Coeff(r, rem, k))
    {
      if k < n {
        var m := r.mul(c, Coeff(r, q, k));
        AddZero(g, m);
        AddComm(g, m, rem[k]);
        if k < |q| { SubtractAt(r, c, minus, p[k], q[k]); } else { AddZero(g, p[k]); }
      } else {
        var i := k - n;
        if k < |q| { SubtractAt(r, c, minus, p[k], q[k]); } else { AddZero(g, p[k]); }
        AddZero(g, ShiftedSum(r, q, n, c, k));
      }
    }
  }

  lemma PlainSubtracts<S(!new)>(r: Ring<S>, minus: (S, S) -> S)
    requires CommRing(r) && forall x: S, y: S {:trigger minus(x, y)} :: minus(x, y) == r.Sub(x, y)
    ensures Subtracts(r, r.one, minus)
  {
    forall x: S, y: S {:trigger On(x, y, y)} | On(x, y, y)
      ensures r.add(minus(x, y), r.mul(r.one, y)) == x
    {
      MulOne(r, y);
      AddSub(r.Plus(), x, y);
    }
  }

  lemma PlusSubtracts<S(!new)>(r: Ring<S>, minus: (S, S) -> S)
    requires CommRing(r) && forall x: S, y: S {:trigger minus(x, y)} :: minus(x, y) == r.add(x, y)
    ensures Subtracts(r, r.neg(r.one), minus)
  {
    forall x: S, y: S {:trigger On(x, y, y)} | On(x, y, y)
      ensures r.add(minus(x, y), r.mul(r.neg(r.one), y)) == x
    {
      MulNeg(r, r.one, y);
      MulOne(r, y);
      AddSub(r.Plus(), x, y);
    }
  }

  lemma ScaledSubtracts<S(!new)>(r: Ring<S>, c: S, minus: (S, S) -> S)
    requires CommRing(r) && forall x: S, y: S {:trigger minus(x, y)} :: minus(x, y) == r.Sub(x, r.mul(c, y))
    ensures Subtracts(r, c, minus)
  {
    forall x: S, y: S {:trigger On(x, y, y)} | On(x, y, y)
      ensures r.add(minus(x, y), r.mul(c, y)) == x
    {
      AddSub(r.Plus(), x, r.mul(c, y));
    }
  }

  // The loops of the three divisions, which differ only in `minus`.
  method LongQuotient<S(!new)>(q: array<S>, p: seq<S>, n: nat, minus: (S, S) -> S)
    requires 0 < n < |p| && q.Length == |p| - n && |p| >= 2 * n
    modifies q
    ensures forall i :: 0 <= i < q.Length ==> q[i] == if i + n < q.Length then minus(p[i + n], q[i + n]) else p[i + n]
  {
    var size := |p|;
    for i := size - 2 * n to size - n
      invariant forall k :: size - 2 * n <= k < i ==> q[k] == p[k + n]
    {
      q[i] := p[i + n];
    }
    var i := size - 2 * n;
    while i > 0
      invariant 0 <= i <= size - 2 * n
      invariant forall k :: size - 2 * n <= k < size - n ==> q[k] == p[k + n]
      invariant forall k :: i <= k < size - 2 * n ==> q[k] == minus(p[k + n], q[k + n])
    {
      i := i - 1;
      q[i] := minus(p[i + n], q[i + n]);
    }
  }

  method ShortQuotient<S(!new)>(q: array<S>, p: seq<S>, n: nat)
    requires 0 < n < |p| && q.Length == |p| - n
    modifies q
    ensures forall k :: 0 <= k < q.Length ==> q[k] == p[k + n]
  {
    for i := 0 to |p| - n
      invariant forall k :: 0 <= k < i ==> q[k] == p[k + n]
    {
      q[i] := p[i + n];
    }
  }

  // The remainder, where the quotient reaches and where it does not.
  method Remainder<S(!new)>(q: array<S>, rem: array<S>, p: seq<S>, reach: nat, minus: (S, S) -> S)
    requires rem.Length <= |p| && q != rem && reach <= q.Length && reach <= rem.Length
    modifies rem
    ensures forall i :: 0 <= i < rem.Length ==> rem[i] == if i < reach then minus(p[i], q[i]) else p[i]
  {
    for i := 0 to reach
      invariant forall k :: 0 <= k < i ==> rem[k] == minus(p[k], q[k])
    {
      rem[i] := minus(p[i], q[i]);
    }
    for i := reach to rem.Length
      invariant forall k :: 0 <= k < i ==> rem[k] == if k < reach then minus(p[k], q[k]) else p[k]
    {
      rem[i] := p[i];
    }
  }

  method DivideLoops<S(!new)>(q: array<S>, rem: array<S>, p: seq<S>, n: nat, minus: (S, S) -> S, ghost r: Ring<S>)
    requires 0 < n < |p| && q.Length == |p| - n && rem.Length == n && q != rem
    modifies q, rem
    ensures Divided(r, p, n, minus, q[..], rem[..])
  {
    if |p| >= 2 * n {
      LongQuotient(q, p, n, minus);
      Remainder(q, rem, p, n, minus);
    } else {
      ShortQuotient(q, p, n);
      Remainder(q, rem, p, |p| - n, minus);
    }
  }

  /** Quotient and remainder by X^n + c, with the shortcuts for c == 1 and c == -1. */
  method DivideXn<S(!new, ==)>(r: Ring<S>, q: array<S>, rem: array<S>, p: seq<S>, n: nat, c: S)
    requires CommRing(r) && 0 < n < |p| && q.Length == |p| - n && rem.Length == n && q != rem
    modifies q, rem
    ensures IsDivision(r, p, n, c, q[..], rem[..])
  {
    var minus: (S, S) -> S;
    if c == r.neg(r.one) {
      minus := (x, y) => r.add(x, y);
      PlusSubtracts(r, minus);
    } else if c == r.one {
      minus := (x, y) => r.Sub(x, y);
      PlainSubtracts(r, minus);
    } else {
      minus := (x, y) => r.Sub(x, r.mul(c, y));
      ScaledSubtracts(r, c, minus);
    }
    DivideLoops(q, rem, p, n, minus, r);
    DividedIsDivision(r, p, n, c, minus, q[..], rem[..]);
  }

  // scaled(y) is c y and joined(x, y) is x + c y.
  ghost predicate Multiplies<S(!new)>(r: Ring<S>, c: S, scaled: S -> S, joined: (S, S) -> S) {
    forall x: S, y: S {:trigger On(x, y, y)} | On(x, y, y) :: scaled(y) == r.mul(c, y) && joined(x, y) == r.add(x, r.mul(c, y))
  }

  // What the loops leave, place by place.
  ghost predicate Multiplied<S(!new)>(p: seq<S>, n: nat, scaled: S -> S, joined: (S, S) -> S, zero: S, res: seq<S>) {
    && |res| == |p| + n
    && (forall i :: 0 <= i < |res| && i < n && i < |p| ==> res[i] == scaled(p[i]))
    && (forall i :: 0 <= i < |res| && |p| <= i < n ==> res[i] == zero)
    && (forall i :: n <= i < |res| && i < |p| ==> res[i] == joined(p[i - n], p[i]))
    && (forall i :: n <= i < |res| && |p| <= i ==> res[i] == p[i - n])
  }

  // Three loops, over the low, middle and high part.
  method MultiplyLong<S(!new)>(res: array<S>, p: seq<S>, n: nat, scaled: S -> S, joined: (S, S) -> S, zero: S)
    requires res.Length == |p| + n && |p| >= n
    modifies res
    ensures Multiplied(p, n, scaled, joined, zero, res[..])
  {
    for i := 0 to n
      invariant forall k :: 0 <= k < i ==> res[k] == scaled(p[k])
    {
      res[i] := scaled(p[i]);
    }
    for i := n to |p|
      invariant forall k :: 0 <= k < n ==> res[k] == scaled(p[k])
      invariant forall k :: n <= k < i ==> res[k] == joined(p[k - n], p[k])
    {
      res[i] := joined(p[i - n], p[i]);
    }
    for i := |p| to |p| + n
      invariant forall k :: 0 <= k < n ==> res[k] == scaled(p[k])
      invariant forall k :: n <= k < |p| ==> res[k] == joined(p[k - n], p[k])
      invariant forall k :: |p| <= k < i ==> res[k] == p[k - n]
    {
      res[i] := p[i - n];
    }
  }

  // Two loops, with zeros left between them.
  method MultiplyShort<S(!new)>(res: array<S>, p: seq<S>, n: nat, scaled: S -> S, joined: (S, S) -> S, zero: S)
    requires res.Length == |p| + n && |p| < n && forall i :: 0 <= i < res.Length ==> res[i] == zero
    modifies res
    ensures Multiplied(p, n, scaled, joined, zero, res[..])
  {
    for i := 0 to |p|
      invariant forall k :: 0 <= k < i ==> res[k] == scaled(p[k])
      invariant forall k :: i <= k < res.Length ==> res[k] == zero
    {
      res[i] := scaled(p[i]);
    }
    for i := n to |p| + n
      invariant forall k :: 0 <= k < |p| ==> res[k] == scaled(p[k])
      invariant forall k :: |p| <= k < n ==> res[k] == zero
      invariant forall k :: n <= k < i ==> res[k] == p[k - n]
    {
      res[i] := p[i - n];
    }
  }

  lemma MultipliedIsProduct<S(!new)>(r: Ring<S>, p: seq<S>, n: nat, c: S, scaled: S -> S, joined: (S, S) -> S, res: seq<S>)
    requires CommRing(r) && Multiplies(r, c, scaled, joined) && Multiplied(p, n, scaled, joined, r.zero, res)
    ensures IsShiftedProduct(r, p, n, c, res)
  {
    var g := r.Plus();
    MulZero(r, c);
    AddZero(g, r.zero);
    forall k | 0 <= k < |res|
      ensures res[k] == ShiftedSum(r, p, n, c, k)
    {
      var x, y := Coeff(r, p, k - n), Coeff(r, p, k);
      assert On(x, y, y);
      AddZero(g, x);
      AddZero(g, r.mul(c, y));
      if k < n {
        assert x == r.zero;
      } else {
        assert x == p[k - n];
      }
    }
  }

  /** p * (X^n + c), with the shortcuts for c == 1 and c == -1. */
  method MultiplyXn<S(!new, ==)>(r: Ring<S>, res: array<S>, p: seq<S>, n: nat, c: S)
    requires CommRing(r) && res.Length == |p| + n && forall i :: 0 <= i < res.Length ==> res[i] == r.zero
    modifies res
    ensures IsShiftedProduct(r, p, n, c, res[..])
  {
    var scaled: S -> S;
    var joined: (S, S) -> S;
    if c == r.neg(r.one) {
      scaled, joined := x => r.neg(x), (x, y) => r.Sub(x, y);
    } else if c == r.one {
      scaled, joined := x => x, (x, y) => r.add(x, y);
    } else {
      scaled, joined := x => r.mul(c, x), (x, y) => r.add(x, r.mul(c, y));
    }
    forall x: S, y: S {:trigger On(x, y, y)} | On(x, y, y)
      ensures scaled(y) == r.mul(c, y) && joined(x, y) == r.add(x, r.mul(c, y))
    {
      MulNeg(r, r.one, y);
      MulOne(r, y);
    }
    if |p| >= n {
      MultiplyLong(res, p, n, scaled, joined, r.zero);
    } else {
      MultiplyShort(res, p, n, scaled, joined, r.zero);
    }
    MultipliedIsProduct(r, p, n, c, scaled, joined, res[..]);
  }

  /** Multiplying by X^n + c and dividing again returns the polynomial and the remainder zero. */
  method MultiplyThenDivide<S(!new, ==)>(r: Ring<S>, p: seq<S>, n: nat, c: S) returns (q: array<S>, rem: array<S>)
    requires CommRing(r) && n > 0 && |p| > 0
    ensures q[..] == p && rem.Length == n && forall k :: 0 <= k < n ==> rem[k] == r.zero
  {
    var res := new S[|p| + n](_ => r.zero);
    MultiplyXn(r, res, p, n, c);
    q, rem := new S[|p|](_ => r.zero), new S[n](_ => r.zero);
    DivideXn(r, q, rem, res[..], n, c);
    DivideProduct(r, p, n, c, res[..], q[..], rem[..]);
    assert forall k :: 0 <= k < n ==> rem[..][k] == r.zero;
  }
}
