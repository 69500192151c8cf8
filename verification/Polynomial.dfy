/** Polynomials as sequences of coefficients, lowest degree first. */
module Polynomial {
  import opened Algebra

  function Coeff<S(!new)>(r: Ring<S>, p: seq<S>, i: int): S {
    if 0 <= i < |p| then p[i] else r.zero
  }

  // ---------------------------------------------------------------- evaluation

  // p[0] + p[1] x + ... + p[n - 1] x^(n - 1)
  function EvalTo<S(!new)>(r: Ring<S>, p: seq<S>, x: S, n: nat): S
    requires n <= |p|
  {
    if n == 0 then r.zero else r.add(EvalTo(r, p, x, n - 1), r.mul(p[n - 1], Pow(r, x, n - 1)))
  }

  function Eval<S(!new)>(r: Ring<S>, p: seq<S>, x: S): S { EvalTo(r, p, x, |p|) }

  // p[i] + x (p[i + 1] + x (...))
  function Horner<S(!new)>(r: Ring<S>, p: seq<S>, x: S, i: nat): S
    requires i <= |p|
    decreases |p| - i
  {
    if i == |p| then r.zero else r.add(r.mul(Horner(r, p, x, i + 1), x), p[i])
  }

  lemma {:induction false} HornerRest<S(!new)>(r: Ring<S>, p: seq<S>, x: S, i: nat)
    requires CommRing(r) && i <= |p|
    ensures r.add(EvalTo(r, p, x, i), r.mul(Pow(r, x, i), Horner(r, p, x, i))) == Eval(r, p, x)
    decreases |p| - i
  {
    var g, e, w := r.Plus(), EvalTo(r, p, x, i), Pow(r, x, i);
    if i == |p| {
      MulZero(r, w);
      AddZero(g, e);
    } else {
      var h := Horner(r, p, x, i + 1);
      // w (h x + p[i]) == w h x + p[i] w
      MulAdd(r, w, r.mul(h, x), p[i]);
      MulComm(r, w, p[i]);
      MulComm(r, h, x);
      MulAssoc(r, w, x, h);
      MulComm(r, w, x);
      AddComm(g, r.mul(Pow(r, x, i + 1), h), r.mul(p[i], w));
      AddAssoc(g, e, r.mul(p[i], w), r.mul(Pow(r, x, i + 1), h));
      HornerRest(r, p, x, i + 1);
    }
  }

  lemma HornerEvaluates<S(!new)>(r: Ring<S>, p: seq<S>, x: S)
    requires CommRing(r)
    ensures Horner(r, p, x, 0) == Eval(r, p, x)
  {
    HornerRest(r, p, x, 0);
    MulOne(r, Horner(r, p, x, 0));
    AddZero(r.Plus(), Horner(r, p, x, 0));
  }

  /** Horner's scheme computes the value of the polynomial. */
  method Evaluate<S(!new)>(r: Ring<S>, p: seq<S>, x: S) returns (res: S)
    requires CommRing(r) && |p| > 0
    ensures res == Eval(r, p, x)
  {
    hide Eval;
    res := p[|p| - 1];
    MulZero(r, x);
    AddZero(r.Plus(), res);
    var i := |p| - 1;
    while i > 0
      invariant 0 <= i < |p| && res == Horner(r, p, x, i)
    {
      i := i - 1;
      res := r.mul(res, x);
      res := r.add(res, p[i]);
    }
    HornerEvaluates(r, p, x);
  }

  // ---------------------------------------------------------------- combinations with powers

  // The i-th coefficients of all polynomials, themselves the coefficients of a polynomial.
  function Column<S(!new)>(r: Ring<S>, ps: seq<seq<S>>, i: int): (c: seq<S>)
    ensures |c| == |ps|
  {
    seq(|ps|, j requires 0 <= j < |ps| => Coeff(r, ps[j], i))
  }

  // res is ps[0] + s ps[1] + s^2 ps[2] + ...
  ghost predicate IsCombination<S(!new)>(r: Ring<S>, ps: seq<seq<S>>, s: S, res: seq<S>) {
    forall i :: 0 <= i < |res| ==> res[i] == Eval(r, Column(r, ps, i), s)
  }

  ghost predicate Fit<S>(ps: seq<seq<S>>, n: nat) { forall j :: 0 <= j < |ps| ==> |ps[j]| <= n }

  method LinearWithPowersHorner<S(!new)>(r: Ring<S>, res: array<S>, ps: seq<seq<S>>, s: S)
    requires CommRing(r) && |ps| > 0 && Fit(ps, res.Length)
    requires forall i :: 0 <= i < res.Length ==> res[i] == r.zero
    modifies res
    ensures IsCombination(r, ps, s, res[..])
  {
    hide Eval;
    var j: nat := |ps| - 1;
    var maxLen: nat := |ps[j]|;
    for i := 0 to maxLen
      invariant forall k :: 0 <= k < res.Length ==> res[k] == if k < i then ps[j][k] else r.zero
    {
      res[i] := ps[j][i];
    }
    LastColumn(r, ps, s, res[..]);
    while j > 0
      invariant 0 <= j < |ps| && maxLen <= res.Length
      invariant forall k :: 0 <= k < res.Length ==> res[k] == Horner(r, Column(r, ps, k), s, j)
      invariant forall k :: maxLen <= k < res.Length ==> res[k] == r.zero
    {
      j := j - 1;
      maxLen := HornerStep(r, res, ps, s, j, maxLen);
    }
    forall i | 0 <= i < res.Length
      ensures res[i] == Eval(r, Column(r, ps, i), s)
    {
      HornerEvaluates(r, Column(r, ps, i), s);
    }
  }

  lemma LastColumn<S(!new)>(r: Ring<S>, ps: seq<seq<S>>, s: S, res: seq<S>)
    requires CommRing(r) && |ps| > 0
    requires forall k :: 0 <= k < |res| ==> res[k] == Coeff(r, ps[|ps| - 1], k)
    ensures forall k :: 0 <= k < |res| ==> res[k] == Horner(r, Column(r, ps, k), s, |ps| - 1)
  {
    MulZero(r, s);
    forall k | 0 <= k < |res|
      ensures res[k] == Horner(r, Column(r, ps, k), s, |ps| - 1)
    {
      var c := Column(r, ps, k);
      assert Horner(r, c, s, |ps|) == r.zero;
      AddZero(r.Plus(), res[k]);
    }
  }

  // One polynomial further down: multiply what there is, then add the polynomial.
  method HornerStep<S(!new)>(r: Ring<S>, res: array<S>, ps: seq<seq<S>>, s: S, j: nat, len: nat) returns (maxLen: nat)
    requires CommRing(r) && j + 1 < |ps| && len <= res.Length && Fit(ps, res.Length)
    requires forall k :: 0 <= k < res.Length ==> res[k] == Horner(r, Column(r, ps, k), s, j + 1)
    requires forall k :: len <= k < res.Length ==> res[k] == r.zero
    modifies res
    ensures maxLen <= res.Length
    ensures forall k :: 0 <= k < res.Length ==> res[k] == Horner(r, Column(r, ps, k), s, j)
    ensures forall k :: maxLen <= k < res.Length ==> res[k] == r.zero
  {
    ghost var before := res[..];
    for i := 0 to len
      invariant forall k :: 0 <= k < res.Length ==> res[k] == if k < i then r.mul(before[k], s) else before[k]
    {
      res[i] := r.mul(res[i], s);
    }
    MulZero(r, s);
    assert forall k :: 0 <= k < res.Length ==> res[k] == r.mul(before[k], s);
    maxLen := if len < |ps[j]| then |ps[j]| else len;
    for i := 0 to |ps[j]|
      invariant forall k :: 0 <= k < res.Length ==>
        res[k] == if k < i then r.add(r.mul(before[k], s), ps[j][k]) else r.mul(before[k], s)
    {
      res[i] := r.add(res[i], ps[j][i]);
    }
    StepColumns(r, ps, s, j, before, res[..]);
  }

  lemma StepColumns<S(!new)>(r: Ring<S>, ps: seq<seq<S>>, s: S, j: nat, before: seq<S>, after: seq<S>)
    requires CommRing(r) && j + 1 < |ps| && |before| == |after|
    requires forall k :: 0 <= k < |before| ==> before[k] == Horner(r, Column(r, ps, k), s, j + 1)
    requires forall k :: 0 <= k < |after| ==>
      after[k] == if k < |ps[j]| then r.add(r.mul(before[k], s), ps[j][k]) else r.mul(before[k], s)
    ensures forall k :: 0 <= k < |after| ==> after[k] == Horner(r, Column(r, ps, k), s, j)
  {
    forall k | 0 <= k < |after|
      ensures after[k] == Horner(r, Column(r, ps, k), s, j)
    {
      var c := Column(r, ps, k);
      assert c[j] == Coeff(r, ps[j], k);
      assert Horner(r, c, s, j) == r.add(r.mul(before[k], s), c[j]);
      AddZero(r.Plus(), r.mul(before[k], s));
    }
  }

  method LinearWithPowersNaive<S(!new)>(r: Ring<S>, res: array<S>, ps: seq<seq<S>>, s: S)
    requires CommRing(r) && |ps| > 0 && Fit(ps, res.Length)
    requires forall i :: 0 <= i < res.Length ==> res[i] == r.zero
    modifies res
    ensures IsCombination(r, ps, s, res[..])
  {
    hide Pow;
    for i := 0 to |ps[0]|
      invariant forall k :: 0 <= k < res.Length ==> res[k] == if k < i then ps[0][k] else r.zero
    {
      res[i] := ps[0][i];
    }
    FirstColumn(r, ps, s, res[..]);
    PowOne(r, s);
    var coeff := s;
    for j := 1 to |ps|
      invariant coeff == Pow(r, s, j)
      invariant forall k :: 0 <= k < res.Length ==> res[k] == EvalTo(r, Column(r, ps, k), s, j)
    {
      ghost var before := res[..];
      AddScaled(r, res, ps[j], coeff);
      NextColumn(r, ps, s, j, before, res[..]);
      MulComm(r, coeff, s);
      PowAdd(r, s, 1, j);
      coeff := r.mul(coeff, s);
    }
  }

  method AddScaled<S(!new)>(r: Ring<S>, res: array<S>, p: seq<S>, c: S)
    requires |p| <= res.Length
    modifies res
    ensures forall k :: 0 <= k < res.Length ==>
      res[k] == if k < |p| then r.add(old(res[k]), r.mul(p[k], c)) else old(res[k])
  {
    for i := 0 to |p|
      invariant forall k :: 0 <= k < res.Length ==>
        res[k] == if k < i then r.add(old(res[k]), r.mul(p[k], c)) else old(res[k])
    {
      var tmp := r.mul(p[i], c);
      res[i] := r.add(res[i], tmp);
    }
  }

  lemma FirstColumn<S(!new)>(r: Ring<S>, ps: seq<seq<S>>, s: S, res: seq<S>)
    requires CommRing(r) && |ps| > 0
    requires forall k :: 0 <= k < |res| ==> res[k] == Coeff(r, ps[0], k)
    ensures forall k :: 0 <= k < |res| ==> res[k] == EvalTo(r, Column(r, ps, k), s, 1)
  {
    forall k | 0 <= k < |res|
      ensures res[k] == EvalTo(r, Column(r, ps, k), s, 1)
    {
      var c := Column(r, ps, k);
      assert EvalTo(r, c, s, 1) == r.add(EvalTo(r, c, s, 0), r.mul(c[0], Pow(r, s, 0)));
      MulOne(r, c[0]);
      AddZero(r.Plus(), c[0]);
    }
  }

  lemma NextColumn<S(!new)>(r: Ring<S>, ps: seq<seq<S>>, s: S, j: nat, before: seq<S>, after: seq<S>)
    requires CommRing(r) && 0 < j < |ps| && |before| == |after|
    requires forall k :: 0 <= k < |before| ==> before[k] == EvalTo(r, Column(r, ps, k), s, j)
    requires forall k :: 0 <= k < |after| ==>
      after[k] == if k < |ps[j]| then r.add(before[k], r.mul(ps[j][k], Pow(r, s, j))) else before[k]
    ensures forall k :: 0 <= k < |after| ==> after[k] == EvalTo(r, Column(r, ps, k), s, j + 1)
  {
    forall k | 0 <= k < |after|
      ensures after[k] == EvalTo(r, Column(r, ps, k), s, j + 1)
    {
      var c := Column(r, ps, k);
      assert EvalTo(r, c, s, j + 1) == r.add(before[k], r.mul(c[j], Pow(r, s, j)));
      MulZero(r, Pow(r, s, j));
      AddZero(r.Plus(), before[k]);
    }
  }

  /** Horner's scheme when all lengths agree, powers one by one otherwise: the same combination. */
  method LinearWithPowers<S(!new)>(r: Ring<S>, res: array<S>, ps: seq<seq<S>>, s: S)
    requires CommRing(r) && |ps| > 0 && Fit(ps, res.Length)
    requires forall i :: 0 <= i < res.Length ==> res[i] == r.zero
    modifies res
    ensures IsCombination(r, ps, s, res[..])
  {
    var maxLen, minLen := |ps[0]|, |ps[0]|;
    for i := 1 to |ps|
      invariant res[..] == old(res[..])
    {
      maxLen := if maxLen < |ps[i]| then |ps[i]| else maxLen;
      minLen := if |ps[i]| < minLen then |ps[i]| else minLen;
    }
    assert forall i :: 0 <= i < res.Length ==> res[..][i] == r.zero;
    if maxLen != minLen {
      LinearWithPowersNaive(r, res, ps, s);
    } else {
      LinearWithPowersHorner(r, res, ps, s);
    }
  }
}
