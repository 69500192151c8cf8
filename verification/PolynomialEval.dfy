/** Evaluation turns the product of polynomials into the product of their values. */
module PolynomialEval {
  import opened Algebra
  import opened Polynomial
  import opened PolynomialDivision

  lemma {:induction false} EvalToAdd<S(!new)>(r: Ring<S>, p: seq<S>, q: seq<S>, s: seq<S>, x: S, n: nat)
    requires CommRing(r) && n <= |p| && n <= |q| && n <= |s|
    requires forall i :: 0 <= i < n ==> s[i] == r.add(p[i], q[i])
    ensures EvalTo(r, s, x, n) == r.add(EvalTo(r, p, x, n), EvalTo(r, q, x, n))
  {
    var g := r.Plus();
    if n == 0 {
      AddZero(g, r.zero);
    } else {
      EvalToAdd(r, p, q, s, x, n - 1);
      var w := Pow(r, x, n - 1);
      AddMul(r, p[n - 1], q[n - 1], w);
      AddSwap(g, EvalTo(r, p, x, n - 1), EvalTo(r, q, x, n - 1), r.mul(p[n - 1], w), r.mul(q[n - 1], w));
    }
  }

  lemma {:induction false} EvalToZero<S(!new)>(r: Ring<S>, p: seq<S>, x: S, n: nat)
    requires CommRing(r) && n <= |p| && forall i :: 0 <= i < n ==> p[i] == r.zero
    ensures EvalTo(r, p, x, n) == r.zero
  {
    if n > 0 {
      EvalToZero(r, p, x, n - 1);
      MulZero(r, Pow(r, x, n - 1));
      AddZero(r.Plus(), r.zero);
    }
  }

  // The first n coefficients of a * q shifted up by m places.
  lemma {:induction false} EvalShifted<S(!new)>(r: Ring<S>, a: S, q: seq<S>, m: nat, t: seq<S>, x: S, n: nat)
    requires CommRing(r) && n <= |q| && m + n <= |t|
    requires forall k :: 0 <= k < m + n ==> t[k] == r.mul(a, Coeff(r, q, k - m))
    ensures EvalTo(r, t, x, m + n) == r.mul(r.mul(a, Pow(r, x, m)), EvalTo(r, q, x, n))
    decreases n
  {
    hide Pow;
    var c := r.mul(a, Pow(r, x, m));
    if n == 0 {
      MulZero(r, a);
      EvalToZero(r, t, x, m);
      MulZero(r, c);
    } else {
      EvalShifted(r, a, q, m, t, x, n - 1);
      var v, w := Pow(r, x, m), Pow(r, x, n - 1);
      PowAdd(r, x, m, n - 1);
      // (a q) (v w) == (a v) (q w)
      MulSwap(r, a, q[n - 1], v, w);
      MulAdd(r, c, EvalTo(r, q, x, n - 1), r.mul(q[n - 1], w));
    }
  }

  // More coefficients that are zero do not change the value.
  lemma {:induction false} EvalToLonger<S(!new)>(r: Ring<S>, t: seq<S>, x: S, n: nat, k: nat)
    requires CommRing(r) && n + k <= |t| && forall i :: n <= i < n + k ==> t[i] == r.zero
    ensures EvalTo(r, t, x, n + k) == EvalTo(r, t, x, n)
    decreases k
  {
    if k > 0 {
      EvalToLonger(r, t, x, n, k - 1);
      MulZero(r, Pow(r, x, n + k - 1));
      AddZero(r.Plus(), EvalTo(r, t, x, n));
    }
  }

  // One row of the product: all of q times coefficient m of p.
  lemma EvalRow<S(!new)>(r: Ring<S>, a: S, q: seq<S>, m: nat, t: seq<S>, x: S)
    requires CommRing(r) && m + |q| <= |t|
    requires forall k :: 0 <= k < |t| ==> t[k] == r.mul(a, Coeff(r, q, k - m))
    ensures Eval(r, t, x) == r.mul(r.mul(a, Pow(r, x, m)), Eval(r, q, x))
  {
    MulZero(r, a);
    EvalShifted(r, a, q, m, t, x, |q|);
    EvalToLonger(r, t, x, m + |q|, |t| - m - |q|);
  }

  // The rows before the last one, and the last one.
  lemma SplitRow<S(!new)>(r: Ring<S>, p: seq<S>, q: seq<S>, size: nat, n: nat, s: seq<S>) returns (before: seq<S>, row: seq<S>)
    requires 0 < n <= |p| && size == |s| && forall k :: 0 <= k < size ==> s[k] == Convolution(r, p, q, k, n)
    ensures |before| == |row| == size && forall k :: 0 <= k < size ==> before[k] == Convolution(r, p, q, k, n - 1)
    ensures forall k :: 0 <= k < size ==> row[k] == r.mul(p[n - 1], Coeff(r, q, k - (n - 1)))
    ensures forall k :: 0 <= k < size ==> s[k] == r.add(before[k], row[k])
  {
    before := seq(size, k => Convolution(r, p, q, k, n - 1));
    row := seq(size, k => r.mul(p[n - 1], Coeff(r, q, k - (n - 1))));
  }

  lemma {:induction false} EvalRows<S(!new)>(r: Ring<S>, p: seq<S>, q: seq<S>, size: nat, x: S, n: nat, s: seq<S>)
    requires CommRing(r) && n <= |p| && |p| + |q| - 1 <= size == |s|
    requires forall k :: 0 <= k < size ==> s[k] == Convolution(r, p, q, k, n)
    ensures Eval(r, s, x) == r.mul(EvalTo(r, p, x, n), Eval(r, q, x))
    decreases n
  {
    hide Pow;
    var e := Eval(r, q, x);
    if n == 0 {
      EvalToZero(r, s, x, size);
      MulZero(r, e);
    } else {
      var a := p[n - 1];
      var before, row := SplitRow(r, p, q, size, n, s);
      EvalRows(r, p, q, size, x, n - 1, before);
      EvalRow(r, a, q, n - 1, row, x);
      EvalToAdd(r, before, row, s, x, size);
      AddMul(r, EvalTo(r, p, x, n - 1), r.mul(a, Pow(r, x, n - 1)), e);
      assert EvalTo(r, p, x, n) == r.add(EvalTo(r, p, x, n - 1), r.mul(a, Pow(r, x, n - 1)));
    }
  }

  /** The value of a product is the product of the values, at every point. */
  lemma EvalProduct<S(!new)>(r: Ring<S>, p: seq<S>, q: seq<S>, res: seq<S>, x: S)
    requires CommRing(r) && IsProduct(r, p, q, res)
    ensures Eval(r, res, x) == r.mul(Eval(r, p, x), Eval(r, q, x))
  {
    EvalRows(r, p, q, |res|, x, |p|, res);
  }

  lemma EvalXnPlus<S(!new)>(r: Ring<S>, n: nat, c: S, x: S)
    requires CommRing(r) && n > 0
    ensures Eval(r, XnPlus(r, n, c), x) == r.add(Pow(r, x, n), c)
  {
    var g, d := r.Plus(), XnPlus(r, n, c);
    EvalToLonger(r, d, x, 1, n - 1);
    assert EvalTo(r, d, x, 1) == r.add(EvalTo(r, d, x, 0), r.mul(c, Pow(r, x, 0)));
    MulOne(r, c);
    AddZero(g, c);
    MulOne(r, Pow(r, x, n));
    AddComm(g, c, Pow(r, x, n));
  }

  lemma ExtendedEval<S(!new)>(r: Ring<S>, p: seq<S>, t: seq<S>, x: S)
    requires CommRing(r) && |p| <= |t| && forall k :: 0 <= k < |t| ==> t[k] == Coeff(r, p, k)
    ensures Eval(r, t, x) == Eval(r, p, x)
  {
    EvalToLonger(r, t, x, |p|, |t| - |p|);
    SamePrefix(r, p, t, x, |p|);
  }

  lemma {:induction false} SamePrefix<S(!new)>(r: Ring<S>, p: seq<S>, t: seq<S>, x: S, n: nat)
    requires n <= |p| && n <= |t| && forall k :: 0 <= k < n ==> t[k] == p[k]
    ensures EvalTo(r, t, x, n) == EvalTo(r, p, x, n)
  {
    if n > 0 { SamePrefix(r, p, t, x, n - 1); }
  }

  /** Division, at every point: p(x) == q(x) (x^n + c) + rem(x). */
  lemma EvalDivision<S(!new)>(r: Ring<S>, p: seq<S>, n: nat, c: S, q: seq<S>, rem: seq<S>, x: S)
    requires CommRing(r) && n > 0 && IsDivision(r, p, n, c, q, rem)
    ensures Eval(r, p, x) == r.add(r.mul(Eval(r, q, x), r.add(Pow(r, x, n), c)), Eval(r, rem, x))
  {
    hide Pow;
    var product := seq(|p|, k => ShiftedSum(r, q, n, c, k));
    var longRem := seq(|p|, k => Coeff(r, rem, k));
    ShiftedProductIsProduct(r, q, n, c, product);
    EvalProduct(r, q, XnPlus(r, n, c), product, x);
    EvalXnPlus(r, n, c, x);
    ExtendedEval(r, rem, longRem, x);
    EvalToAdd(r, product, longRem, p, x, |p|);
  }
}
