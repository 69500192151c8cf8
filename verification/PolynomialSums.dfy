/** Polynomials as sums: what combinations with powers mean at points, and that the Fourier transform of the
    coefficients is the evaluation at the powers of the root. */
module PolynomialSums {
  import opened Algebra
  import opened Sums
  import opened Polynomial
  import opened PolynomialEval
  import Fourier

  function Monomial<S(!new)>(r: Ring<S>, p: seq<S>, x: S): int -> S {
    j => r.mul(Coeff(r, p, j), Pow(r, x, j))
  }

  lemma MonomialAt<S(!new)>(r: Ring<S>, p: seq<S>, x: S, j: int)
    ensures Monomial(r, p, x)(j) == r.mul(Coeff(r, p, j), Pow(r, x, j))
  {
  }

  lemma {:induction false} EvalToIsSum<S(!new)>(r: Ring<S>, p: seq<S>, x: S, n: nat)
    requires n <= |p|
    ensures EvalTo(r, p, x, n) == Sum(r.Plus(), Monomial(r, p, x), n)
  {
    hide Pow, Monomial;
    if n > 0 {
      EvalToIsSum(r, p, x, n - 1);
      MonomialAt(r, p, x, n - 1);
    }
  }

  // The value is the sum of coefficient times power, over any number of terms that covers the coefficients.
  lemma {:induction false} EvalIsSum<S(!new)>(r: Ring<S>, p: seq<S>, x: S, n: nat)
    requires CommRing(r) && n >= |p|
    ensures Eval(r, p, x) == Sum(r.Plus(), Monomial(r, p, x), n)
    decreases n
  {
    hide Pow, Monomial;
    if n == |p| {
      EvalToIsSum(r, p, x, n);
    } else {
      EvalIsSum(r, p, x, n - 1);
      MonomialAt(r, p, x, n - 1);
      MulZero(r, Pow(r, x, n - 1));
      AddZero(r.Plus(), Eval(r, p, x));
    }
  }

  // s^j P_j(x), as a function of j.
  function PoweredValue<S(!new)>(r: Ring<S>, ps: seq<seq<S>>, s: S, x: S): int -> S {
    j => if 0 <= j < |ps| then r.mul(Pow(r, s, j), Eval(r, ps[j], x)) else r.zero
  }

  lemma PoweredValueAt<S(!new)>(r: Ring<S>, ps: seq<seq<S>>, s: S, x: S, j: nat)
    requires j < |ps|
    ensures PoweredValue(r, ps, s, x)(j) == r.mul(Pow(r, s, j), Eval(r, ps[j], x))
  {
  }

  // The combination of the first n polynomials, and the scaled n-th, coefficient by coefficient.
  lemma NextPolynomial<S(!new)>(r: Ring<S>, ps: seq<seq<S>>, s: S, n: nat, res: seq<S>) returns (before: seq<S>, row: seq<S>)
    requires CommRing(r) && 0 < n <= |ps| && forall i :: 0 <= i < |res| ==> res[i] == EvalTo(r, Column(r, ps, i), s, n)
    ensures |before| == |row| == |res|
    ensures forall i :: 0 <= i < |res| ==> before[i] == EvalTo(r, Column(r, ps, i), s, n - 1)
    ensures forall i :: 0 <= i < |res| ==> row[i] == r.mul(Pow(r, s, n - 1), Coeff(r, ps[n - 1], i))
    ensures forall i :: 0 <= i < |res| ==> res[i] == r.add(before[i], row[i])
  {
    hide Pow;
    before := seq(|res|, i requires 0 <= i < |res| => EvalTo(r, Column(r, ps, i), s, n - 1));
    row := seq(|res|, i requires 0 <= i < |res| => r.mul(Pow(r, s, n - 1), Coeff(r, ps[n - 1], i)));
    forall i | 0 <= i < |res| ensures res[i] == r.add(before[i], row[i]) {
      MulComm(r, Pow(r, s, n - 1), Coeff(r, ps[n - 1], i));
    }
  }

  lemma {:induction false} CombinationUpTo<S(!new)>(r: Ring<S>, ps: seq<seq<S>>, s: S, x: S, n: nat, res: seq<S>)
    requires CommRing(r) && n <= |ps| && Fit(ps, |res|)
    requires forall i :: 0 <= i < |res| ==> res[i] == EvalTo(r, Column(r, ps, i), s, n)
    ensures Eval(r, res, x) == Sum(r.Plus(), PoweredValue(r, ps, s, x), n)
    decreases n
  {
    if n == 0 {
      EvalToZero(r, res, x, |res|);
    } else {
      var before, row := NextPolynomial(r, ps, s, n, res);
      CombinationUpTo(r, ps, s, x, n - 1, before);
      EvalToAdd(r, before, row, res, x, |res|);
      var a := Pow(r, s, n - 1);
      EvalRow(r, a, ps[n - 1], 0, row, x);
      hide EvalTo, PoweredValue;
      MulOne(r, a);
      PoweredValueAt(r, ps, s, x, n - 1);
    }
  }

  /** At every point the combination takes the sum of s^j times the value of the j-th polynomial. */
  lemma EvalCombination<S(!new)>(r: Ring<S>, ps: seq<seq<S>>, s: S, res: seq<S>, x: S)
    requires CommRing(r) && IsCombination(r, ps, s, res) && Fit(ps, |res|)
    ensures Eval(r, res, x) == Sum(r.Plus(), PoweredValue(r, ps, s, x), |ps|)
  {
    CombinationUpTo(r, ps, s, x, |ps|, res);
  }

  lemma DftTermAt<S(!new)>(r: Ring<S>, p: seq<S>, w: S, i: nat, j: nat)
    requires j < |p|
    ensures Fourier.DftTerm(SelfModule(r), w, Fourier.At(r.Plus(), p), 0, 1, i)(j) == r.mul(p[j], Pow(r, w, i * j))
  {
  }

  /** The transform of the coefficients by w is the values at the powers of w. */
  lemma TransformEvaluates<S(!new)>(r: Ring<S>, p: seq<S>, w: S, i: nat)
    requires CommRing(r) && i < |p|
    ensures Fourier.DftSeq(SelfModule(r), w, p)[i] == Eval(r, p, Pow(r, w, i))
  {
    var m := SelfModule(r);
    var x := Pow(r, w, i);
    EvalIsSum(r, p, x, |p|);
    var f, h := Fourier.DftTerm(m, w, Fourier.At(m.group, p), 0, 1, i), Monomial(r, p, x);
    forall j | 0 <= j < |p| ensures f(j) == h(j) {
      DftTermAt(r, p, w, i, j);
      MonomialAt(r, p, x, j);
      PowPow(r, w, i, j);
    }
    hide Eval;
    SumExt(r.Plus(), f, h, |p|);
  }
}
