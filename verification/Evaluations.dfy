/** Powers, domains of roots of unity, and arithmetic on polynomials given by their values on them. */
module Evaluations {
  import opened Algebra
  import opened Sums
  import opened Polynomial

  // ---------------------------------------------------------------- square and multiply

  function BitOf(b: nat, i: nat): nat
    decreases i
  {
    if i == 0 then b % 2 else BitOf(b / 2, i - 1)
  }

  // Bit i of a little-endian byte string.
  function Bit(exp: seq<nat>, i: nat): (b: nat)
    ensures b <= 1
  {
    if i / 8 < |exp| then (BitIsBit(exp[i / 8], i % 8); BitOf(exp[i / 8], i % 8)) else 0
  }

  lemma {:induction false} BitIsBit(b: nat, i: nat)
    ensures BitOf(b, i) <= 1
    decreases i
  {
    if i > 0 { BitIsBit(b / 2, i - 1); }
  }

  // The number written by the bits from i on, up to n bits.
  function High(exp: seq<nat>, n: nat, i: nat): nat
    decreases n - i
  {
    if i >= n then 0 else 2 * High(exp, n, i + 1) + Bit(exp, i)
  }

  function LittleEndian(exp: seq<nat>): nat { if exp == [] then 0 else exp[0] + 256 * LittleEndian(exp[1..]) }

  // b without its lowest i bits
  function Drop(b: nat, i: nat): nat
    decreases i
  {
    if i == 0 then b else Drop(b / 2, i - 1)
  }

  function Two(n: nat): nat { if n == 0 then 1 else 2 * Two(n - 1) }

  lemma {:induction false} DropStep(b: nat, i: nat)
    ensures Drop(b, i + 1) == Drop(b, i) / 2 && BitOf(b, i) == Drop(b, i) % 2
    decreases i
  {
    if i > 0 { DropStep(b / 2, i - 1); }
  }

  lemma {:induction false} DropAll(b: nat, i: nat)
    requires b < Two(i)
    ensures Drop(b, i) == 0
    decreases i
  {
    if i > 0 { DropAll(b / 2, i - 1); }
  }

  lemma {:induction false} HighShift(exp: seq<nat>, n: nat, i: nat)
    requires exp != []
    ensures High(exp, n + 8, i + 8) == High(exp[1..], n, i)
    decreases n - i
  {
    if i < n {
      HighShift(exp, n, i + 1);
      assert (i + 8) / 8 == i / 8 + 1 && (i + 8) % 8 == i % 8;
      assert Bit(exp, i + 8) == Bit(exp[1..], i);
    }
  }

  lemma {:induction false} FirstByteFrom(exp: seq<nat>, n: nat, i: nat)
    requires exp != [] && exp[0] < 256 && i <= 8
    ensures High(exp, n + 8, i) == Drop(exp[0], i) + Two(8 - i) * High(exp, n + 8, 8)
    decreases 8 - i
  {
    hide Drop, BitOf;
    var h := High(exp, n + 8, 8);
    if i == 8 {
      assert exp[0] < Two(8);
      DropAll(exp[0], 8);
      assert Two(0) == 1;
    } else {
      FirstByteFrom(exp, n, i + 1);
      DropStep(exp[0], i);
      assert Bit(exp, i) == BitOf(exp[0], i);
      var t := Two(8 - (i + 1));
      assert Two(8 - i) == 2 * t;
      Twice(t, h);
    }
  }

  lemma Twice(a: nat, b: nat)
    ensures 2 * (a * b) == (2 * a) * b
  {
  }

  lemma FirstByte(exp: seq<nat>, n: nat)
    requires exp != [] && exp[0] < 256
    ensures High(exp, n + 8, 0) == exp[0] + 256 * High(exp, n + 8, 8)
  {
    FirstByteFrom(exp, n, 0);
    assert Two(8) == 256;
  }

  /** All the bits of a byte string write its little-endian value. */
  lemma {:induction false} AllBits(exp: seq<nat>)
    requires forall k :: 0 <= k < |exp| ==> exp[k] < 256
    ensures High(exp, 8 * |exp|, 0) == LittleEndian(exp)
  {
    if exp != [] {
      var n := 8 * |exp[1..]|;
      FirstByte(exp, n);
      HighShift(exp, n, 0);
      AllBits(exp[1..]);
    }
  }

  lemma {:induction false} HighZero(exp: seq<nat>, n: nat, i: nat)
    requires forall k :: i <= k < n ==> Bit(exp, k) == 0
    ensures High(exp, n, i) == 0
    decreases n - i
  {
    if i < n { HighZero(exp, n, i + 1); }
  }

  lemma {:induction false} HighCut(exp: seq<nat>, n: nat, m: nat, i: nat)
    requires i <= m <= n && High(exp, n, m) == 0
    ensures High(exp, n, i) == High(exp, m, i)
    decreases m - i
  {
    if i < m { HighCut(exp, n, m, i + 1); }
  }

  /** Bits above the given length that are all zero do not matter. */
  lemma ExactExponent(exp: seq<nat>, n: nat)
    requires forall k :: 0 <= k < |exp| ==> exp[k] < 256
    requires n <= 8 * |exp| && forall k :: n <= k < 8 * |exp| ==> Bit(exp, k) == 0
    ensures High(exp, n, 0) == LittleEndian(exp)
  {
    HighZero(exp, 8 * |exp|, n);
    HighCut(exp, 8 * |exp|, n, 0);
    AllBits(exp);
  }

  lemma PowSquare<S(!new)>(r: Ring<S>, x: S, e: nat, b: nat, acc: S)
    requires CommRing(r) && acc == Pow(r, x, e) && b <= 1
    ensures (if b == 1 then r.mul(r.Sqr(acc), x) else r.Sqr(acc)) == Pow(r, x, 2 * e + b)
  {
    hide Pow;
    PowAdd(r, x, e, e);
    PowAdd(r, x, 2 * e, 1);
    PowOne(r, x);
  }

  /** The status is 2 exactly when the top bit of an exponent of positive length is not set and x is
      neither 0 nor 1.  Otherwise the result is x^e, except that 0 raised to an exponent of positive
      length whose bits are all zero gives 0. */
  method FrPow<S(!new, ==)>(r: Ring<S>, x: S, exp: seq<nat>, n: nat) returns (status: nat, out: S)
    requires CommRing(r) && r.one != r.zero && n <= 8 * |exp|
    ensures status == if n > 0 && x != r.zero && x != r.one && Bit(exp, n - 1) == 0 then 2 else 0
    ensures status == 0 ==> (out == Pow(r, x, High(exp, n, 0)) <==> !(x == r.zero && n > 0 && High(exp, n, 0) == 0))
  {
    status := 0;
    if n == 0 {
      out := r.one;
      return;
    }
    if x == r.zero || x == r.one {
      out := x;
      OnePow(r, High(exp, n, 0));
      if High(exp, n, 0) > 0 { ZeroPow(r, High(exp, n, 0)); }
      return;
    }
    if Bit(exp, n - 1) == 0 {
      return 2, x;
    }
    out := SquareAndMultiply(r, x, exp, n);
  }

  method SquareAndMultiply<S(!new)>(r: Ring<S>, x: S, exp: seq<nat>, n: nat) returns (out: S)
    requires CommRing(r) && 0 < n <= 8 * |exp| && Bit(exp, n - 1) == 1
    ensures out == Pow(r, x, High(exp, n, 0))
  {
    hide Pow, Bit;
    out := x;
    PowOne(r, x);
    var i: nat := n - 1;
    assert High(exp, n, n) == 0;
    while i > 0
      invariant 0 <= i < n && out == Pow(r, x, High(exp, n, i))
    {
      i := i - 1;
      PowSquare(r, x, High(exp, n, i + 1), Bit(exp, i), out);
      out := r.Sqr(out);
      if Bit(exp, i) == 1 {
        out := r.mul(out, x);
      }
    }
  }

  // ---------------------------------------------------------------- domains

  lemma PowZero<S(!new)>(r: Ring<S>, x: S)
    ensures Pow(r, x, 0) == r.one
  {
  }

  lemma NextTwo<S(!new)>(r: Ring<S>, w: S, i: nat)
    requires CommRing(r)
    ensures r.Sqr(Pow(r, w, i)) == Pow(r, w, 2 * i) && r.mul(Pow(r, w, 2 * i), w) == Pow(r, w, 2 * i + 1)
  {
    hide Pow;
    PowOne(r, w);
    PowAdd(r, w, i, i);
    PowAdd(r, w, 2 * i, 1);
  }

  /** Squares and products fill the table with the powers of the root in order. */
  method ComputeDomain<S(!new)>(r: Ring<S>, buffer: array<S>, n: nat, w: S)
    requires CommRing(r) && 2 <= n <= buffer.Length
    modifies buffer
    ensures forall i :: 0 <= i < n ==> buffer[i] == Pow(r, w, i)
  {
    hide Pow;
    PowZero(r, w);
    PowOne(r, w);
    buffer[0] := r.one;
    buffer[1] := w;
    for i := 1 to n / 2
      invariant forall k :: 0 <= k < 2 * i ==> buffer[k] == Pow(r, w, k)
    {
      assert buffer[i] == Pow(r, w, i);
      NextTwo(r, w, i);
      buffer[2 * i] := r.Sqr(buffer[i]);
      buffer[2 * i + 1] := r.mul(buffer[2 * i], w);
    }
    if n % 2 != 0 {
      PowAdd(r, w, n - 2, 1);
      buffer[n - 1] := r.mul(buffer[n - 2], w);
    }
  }

  // ---------------------------------------------------------------- values on domains

  // The values of p at the powers of w, which has order dividing their number.
  ghost predicate IsEvaluation<S(!new)>(r: Ring<S>, values: seq<S>, p: seq<S>, w: S) {
    |values| > 0 && Pow(r, w, |values|) == r.one && forall k :: 0 <= k < |values| ==> values[k] == Eval(r, p, Pow(r, w, k))
  }

  // Where the value at the i-th point of the small domain, shifted by c points, is found.
  function Index(len: nat, size: nat, i: nat, c: nat): (k: nat)
    requires len > 0 && size > 0
    ensures k < len
  {
    ((i + c) * (len / size)) % len
  }

  lemma SampledRoot<S(!new)>(r: Ring<S>, w: S, len: nat, size: nat, i: nat, c: nat)
    requires CommRing(r) && len > 0 && size > 0 && Pow(r, w, len) == r.one
    ensures Pow(r, w, Index(len, size, i, c)) == r.mul(Pow(r, Pow(r, w, len / size), c), Pow(r, Pow(r, w, len / size), i))
  {
    hide Pow;
    var step := len / size;
    var g := Pow(r, w, step);
    PowAdd(r, g, c, i);
    PowPow(r, w, step, i + c);
    assert step * (i + c) == (i + c) * step;
    PowMod(r, w, len, (i + c) * step);
  }

  // Sub-sampling and rotation of the values are composition with a power of the small root.
  lemma Sampled<S(!new)>(r: Ring<S>, values: seq<S>, p: seq<S>, w: S, size: nat, g: S, i: nat, c: nat)
    requires CommRing(r) && IsEvaluation(r, values, p, w) && size > 0 && g == Pow(r, w, |values| / size)
    ensures values[Index(|values|, size, i, c)] == Eval(r, p, r.mul(Pow(r, g, c), Pow(r, g, i)))
  {
    hide Eval, Pow;
    SampledRoot(r, w, |values|, size, i, c);
  }

  // One operand: its values and shift, and what they stand for: a polynomial and the root of its
  // domain, which the loops never look at.
  datatype Operand<!S(!new)> = Operand(values: seq<S>, p: seq<S>, w: S, shift: nat)

  // All operands are given on domains whose sub-sampling to `size` points has the root g.
  ghost predicate Compatible<S(!new)>(r: Ring<S>, os: seq<Operand<S>>, size: nat, g: S) {
    size > 0 && forall j :: 0 <= j < |os| ==> IsEvaluation(r, os[j].values, os[j].p, os[j].w) && g == Pow(r, os[j].w, |os[j].values| / size)
  }

  // The j-th polynomial at g^shift times the i-th point of the small domain.
  function At<S(!new)>(r: Ring<S>, o: Operand<S>, g: S, i: int): S {
    Eval(r, o.p, r.mul(Pow(r, g, o.shift), Pow(r, g, i)))
  }

  function LinearAt<S(!new)>(r: Ring<S>, os: seq<Operand<S>>, ls: seq<S>, constant: S, g: S, i: int, n: nat): S
    requires n <= |os| == |ls|
  {
    if n == 0 then constant
    else r.add(LinearAt(r, os, ls, constant, g, i, n - 1), r.mul(ls[n - 1], At(r, os[n - 1], g, i)))
  }

  // l_j P_j(g^c_j g^i), as a function of j.
  function LinearTerm<S(!new)>(r: Ring<S>, os: seq<Operand<S>>, ls: seq<S>, g: S, i: int): int -> S
    requires |os| == |ls|
  {
    j => if 0 <= j < |os| then r.mul(ls[j], Eval(r, os[j].p, r.mul(Pow(r, g, os[j].shift), Pow(r, g, i)))) else r.zero
  }

  lemma {:induction false} LinearIsSum<S(!new)>(r: Ring<S>, os: seq<Operand<S>>, ls: seq<S>, constant: S, g: S, i: int, n: nat)
    requires CommRing(r) && n <= |os| == |ls|
    ensures LinearAt(r, os, ls, constant, g, i, n) == r.add(constant, Sum(r.Plus(), LinearTerm(r, os, ls, g, i), n))
    decreases n
  {
    hide Eval, Pow;
    var f := LinearTerm(r, os, ls, g, i);
    if n == 0 {
      AddZero(r.Plus(), constant);
    } else {
      LinearIsSum(r, os, ls, constant, g, i, n - 1);
      AddAssoc(r.Plus(), constant, Sum(r.Plus(), f, n - 1), f(n - 1));
    }
  }

  // With one coefficient one and all others zero, the sum is the polynomial at that place, sampled.
  lemma LinearSelects<S(!new)>(r: Ring<S>, os: seq<Operand<S>>, ls: seq<S>, g: S, i: int, k: nat)
    requires CommRing(r) && k < |os| == |ls| && ls[k] == r.one
    requires forall j :: 0 <= j < |ls| && j != k ==> ls[j] == r.zero
    ensures Sum(r.Plus(), LinearTerm(r, os, ls, g, i), |os|)
         == Eval(r, os[k].p, r.mul(Pow(r, g, os[k].shift), Pow(r, g, i)))
  {
    hide Eval, Pow;
    var f := LinearTerm(r, os, ls, g, i);
    forall j | 0 <= j < |os| && j != k ensures f(j) == r.zero {
      MulZero(r, Eval(r, os[j].p, r.mul(Pow(r, g, os[j].shift), Pow(r, g, i))));
    }
    SumSingle(r.Plus(), f, k, |os|);
    MulOne(r, Eval(r, os[k].p, r.mul(Pow(r, g, os[k].shift), Pow(r, g, i))));
  }

  // Adds l times the sampled values of one operand.
  method AddOperand<S(!new, ==)>(r: Ring<S>, res: array<S>, values: seq<S>, shift: nat, l: S, ghost p: seq<S>, ghost w: S, ghost g: S)
    requires CommRing(r) && res.Length > 0 && IsEvaluation(r, values, p, w) && g == Pow(r, w, |values| / res.Length)
    modifies res
    ensures forall i :: 0 <= i < res.Length ==>
      res[i] == r.add(old(res[i]), r.mul(l, At(r, Operand(values, p, w, shift), g, i)))
  {
    hide Eval, Pow, IsEvaluation;
    assert |values| > 0 by { IsNonEmpty(r, values, p, w); }
    ghost var o := Operand(values, p, w, shift);
    for i := 0 to res.Length
      invariant forall k :: 0 <= k < i ==> res[k] == r.add(old(res[k]), r.mul(l, At(r, o, g, k)))
      invariant forall k :: i <= k < res.Length ==> res[k] == old(res[k])
    {
      var v := values[Index(|values|, res.Length, i, shift)];
      Sampled(r, values, p, w, res.Length, g, i, shift);
      MulOne(r, v);
      if l == r.one {
        res[i] := r.add(res[i], v);
      } else if l == r.neg(r.one) {
        MulNeg(r, r.one, v);
        res[i] := r.Sub(res[i], v);
      } else {
        var tmp := r.mul(l, v);
        res[i] := r.add(res[i], tmp);
      }
    }
  }

  lemma IsNonEmpty<S(!new)>(r: Ring<S>, values: seq<S>, p: seq<S>, w: S)
    requires IsEvaluation(r, values, p, w)
    ensures |values| > 0
  {
  }

  /** At each point x of the small domain: constant + sum of l_j P_j(g^c_j x). */
  method LinearArrays<S(!new, ==)>(r: Ring<S>, res: array<S>, os: seq<Operand<S>>, ls: seq<S>, constant: S, ghost g: S)
    requires CommRing(r) && |os| == |ls| && Compatible(r, os, res.Length, g)
    modifies res
    ensures forall i :: 0 <= i < res.Length ==>
      res[i] == r.add(constant, Sum(r.Plus(), LinearTerm(r, os, ls, g, i), |os|))
  {
    hide Eval, Pow, IsEvaluation, At;
    for i := 0 to res.Length
      invariant forall k :: 0 <= k < i ==> res[k] == constant
    {
      res[i] := constant;
    }
    for j := 0 to |os|
      invariant forall i :: 0 <= i < res.Length ==> res[i] == LinearAt(r, os, ls, constant, g, i, j)
    {
      AddOperand(r, res, os[j].values, os[j].shift, ls[j], os[j].p, os[j].w, g);
    }
    forall i | 0 <= i < res.Length
      ensures res[i] == r.add(constant, Sum(r.Plus(), LinearTerm(r, os, ls, g, i), |os|))
    {
      LinearIsSum(r, os, ls, constant, g, i, |os|);
    }
  }

  // ---------------------------------------------------------------- products of powers

  datatype Exponent = Exponent(bytes: seq<nat>, bits: nat)

  // The length is exact: zero, or ending in a bit that is set.
  predicate Exact(e: Exponent) { e.bits <= 8 * |e.bytes| && (e.bits > 0 ==> Bit(e.bytes, e.bits - 1) == 1) }

  lemma ExactPositive(e: Exponent)
    requires Exact(e) && e.bits > 0
    ensures High(e.bytes, e.bits, 0) > 0
  {
    TopBitCounts(e.bytes, e.bits, 0);
  }

  lemma {:induction false} TopBitCounts(exp: seq<nat>, n: nat, i: nat)
    requires i < n && Bit(exp, n - 1) == 1
    ensures High(exp, n, i) > 0
    decreases n - i
  {
    if i < n - 1 { TopBitCounts(exp, n, i + 1); }
  }

  function ProductAt<S(!new)>(r: Ring<S>, os: seq<Operand<S>>, es: seq<Exponent>, g: S, i: int, n: nat): S
    requires n <= |os| == |es|
  {
    if n == 0 then r.one
    else r.mul(ProductAt(r, os, es, g, i, n - 1), Pow(r, At(r, os[n - 1], g, i), High(es[n - 1].bytes, es[n - 1].bits, 0)))
  }

  // P_j(g^c_j g^i)^e_j, as a function of j.
  function PowerTerm<S(!new)>(r: Ring<S>, os: seq<Operand<S>>, es: seq<Exponent>, g: S, i: int): int -> S
    requires |os| == |es|
  {
    j => if 0 <= j < |os|
      then Pow(r, Eval(r, os[j].p, r.mul(Pow(r, g, os[j].shift), Pow(r, g, i))), High(es[j].bytes, es[j].bits, 0))
      else r.one
  }

  lemma {:induction false} ProductIsProduct<S(!new)>(r: Ring<S>, os: seq<Operand<S>>, es: seq<Exponent>, g: S, i: int, n: nat)
    requires n <= |os| == |es|
    ensures ProductAt(r, os, es, g, i, n) == Sum(r.Times(), PowerTerm(r, os, es, g, i), n)
    decreases n
  {
    hide Eval, Pow, High;
    if n > 0 { ProductIsProduct(r, os, es, g, i, n - 1); }
  }

  // With one exponent one and all others zero, the product is the polynomial at that place, sampled.
  lemma PowerSelects<S(!new)>(r: Ring<S>, os: seq<Operand<S>>, es: seq<Exponent>, g: S, i: int, k: nat)
    requires CommRing(r) && k < |os| == |es| && High(es[k].bytes, es[k].bits, 0) == 1
    requires forall j :: 0 <= j < |es| && j != k ==> High(es[j].bytes, es[j].bits, 0) == 0
    ensures Sum(r.Times(), PowerTerm(r, os, es, g, i), |os|)
         == Eval(r, os[k].p, r.mul(Pow(r, g, os[k].shift), Pow(r, g, i)))
  {
    hide Eval, High;
    var f := PowerTerm(r, os, es, g, i);
    PowOne(r, Eval(r, os[k].p, r.mul(Pow(r, g, os[k].shift), Pow(r, g, i))));
    hide Pow;
    forall j | 0 <= j < |os| && j != k ensures f(j) == r.one {
      PowZero(r, Eval(r, os[j].p, r.mul(Pow(r, g, os[j].shift), Pow(r, g, i))));
    }
    OnesProduct(r, f, k, |os|);
  }

  // A product whose factors are all one but that at k.
  lemma {:induction false} OnesProduct<S(!new)>(r: Ring<S>, f: int -> S, k: nat, n: nat)
    requires CommRing(r) && forall j :: 0 <= j < n && j != k ==> f(j) == r.one
    ensures Sum(r.Times(), f, n) == if k < n then f(k) else r.one
  {
    if n > 0 {
      OnesProduct(r, f, k, n - 1);
      MulOne(r, f(n - 1));
      MulOne(r, if k < n - 1 then f(k) else r.one);
    }
  }

  method SampledPower<S(!new, ==)>(r: Ring<S>, o: Operand<S>, e: Exponent, size: nat, i: nat, ghost g: S) returns (v: S)
    requires CommRing(r) && r.one != r.zero && size > 0 && Exact(e)
    requires IsEvaluation(r, o.values, o.p, o.w) && g == Pow(r, o.w, |o.values| / size)
    ensures v == Pow(r, At(r, o, g, i), High(e.bytes, e.bits, 0))
  {
    hide Eval, Pow, High, Bit;
    var x := o.values[Index(|o.values|, size, i, o.shift)];
    Sampled(r, o.values, o.p, o.w, size, g, i, o.shift);
    if e.bits > 0 { ExactPositive(e); }
    var _, out := FrPow(r, x, e.bytes, e.bits);
    v := out;
  }

  /** At each point x of the small domain: the product of P_j(g^c_j x)^e_j. */
  method MulArrays<S(!new, ==)>(r: Ring<S>, res: array<S>, os: seq<Operand<S>>, es: seq<Exponent>, ghost g: S)
    requires CommRing(r) && r.one != r.zero && |os| == |es| > 0 && Compatible(r, os, res.Length, g)
    requires forall j :: 0 <= j < |es| ==> Exact(es[j])
    modifies res
    ensures forall i :: 0 <= i < res.Length ==> res[i] == Sum(r.Times(), PowerTerm(r, os, es, g, i), |os|)
  {
    hide Eval, Pow, High, Exact, IsEvaluation, At;
    var size := res.Length;
    for i := 0 to size
      invariant forall k :: 0 <= k < i ==> res[k] == ProductAt(r, os, es, g, k, 1)
    {
      res[i] := SampledPower(r, os[0], es[0], size, i, g);
      assert ProductAt(r, os, es, g, i, 1) == r.mul(ProductAt(r, os, es, g, i, 0), res[i]);
      MulOne(r, res[i]);
    }
    for j := 1 to |os|
      invariant forall i :: 0 <= i < size ==> res[i] == ProductAt(r, os, es, g, i, j)
    {
      MulOperand(r, res, os[j], es[j], g);
    }
    forall i | 0 <= i < size ensures res[i] == Sum(r.Times(), PowerTerm(r, os, es, g, i), |os|) {
      ProductIsProduct(r, os, es, g, i, |os|);
    }
  }

  method MulOperand<S(!new, ==)>(r: Ring<S>, res: array<S>, o: Operand<S>, e: Exponent, ghost g: S)
    requires CommRing(r) && r.one != r.zero && res.Length > 0 && Exact(e)
    requires IsEvaluation(r, o.values, o.p, o.w) && g == Pow(r, o.w, |o.values| / res.Length)
    modifies res
    ensures forall i :: 0 <= i < res.Length ==>
      res[i] == r.mul(old(res[i]), Pow(r, At(r, o, g, i), High(e.bytes, e.bits, 0)))
  {
    hide Eval, Pow, High, Exact, IsEvaluation, At;
    for i := 0 to res.Length
      invariant forall k :: 0 <= k < i ==> res[k] == r.mul(old(res[k]), Pow(r, At(r, o, g, k), High(e.bytes, e.bits, 0)))
      invariant forall k :: i <= k < res.Length ==> res[k] == old(res[k])
    {
      var tmp := SampledPower(r, o, e, res.Length, i, g);
      res[i] := r.mul(res[i], tmp);
    }
  }
}
