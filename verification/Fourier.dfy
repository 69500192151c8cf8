/** The discrete Fourier transform as a plain sum, and the laws the fast forms rest on. */
module Fourier {
  import opened Algebra
  import opened Sums

  // w^n == 1 and no smaller positive power of w is 1
  ghost predicate PrimitiveRoot<S(!new)>(r: Ring<S>, w: S, n: nat) {
    && n > 0
    && Pow(r, w, n) == r.one
    && forall d :: 0 < d < n ==> Pow(r, w, d) != r.one
  }

  function DftTerm<S(!new), V(!new)>(m: Module<S, V>, v: S, f: int -> V, off: int, stride: int, t: int): int -> V {
    j => m.scale(Pow(m.ring, v, t * j), f(off + stride * j))
  }

  // The sum over j < len of v^(t * j) * f(off + stride * j).
  function Dft<S(!new), V(!new)>(m: Module<S, V>, v: S, f: int -> V, off: int, stride: int, len: int, t: int): V {
    Sum(m.group, DftTerm(m, v, f, off, stride, t), len)
  }

  // A sequence as a total function, padded with zeros.
  function At<V(!new)>(g: Group<V>, s: seq<V>): int -> V {
    i => if 0 <= i < |s| then s[i] else g.zero
  }

  // The coefficient sequence evaluated at all powers of w.
  function DftSeq<S(!new), V(!new)>(m: Module<S, V>, w: S, s: seq<V>): (t: seq<V>)
    ensures |t| == |s|
  {
    seq(|s|, i => Dft(m, w, At(m.group, s), 0, 1, |s|, i))
  }

  function ScaleSeq<S(!new), V(!new)>(m: Module<S, V>, c: S, s: seq<V>): (t: seq<V>)
    ensures |t| == |s|
  {
    seq(|s|, i requires 0 <= i < |s| => m.scale(c, s[i]))
  }

  // The transform or, with the powers of w read backwards and the result divided by n, its inverse.
  function Transform<S(!new), V(!new)>(m: Module<S, V>, w: S, inverse: bool, s: seq<V>): (t: seq<V>)
    ensures |t| == |s|
  {
    if inverse then ScaleSeq(m, m.ring.inv(FromNat(m.ring, |s|)), DftSeq(m, Pow(m.ring, w, |s| - 1), s))
    else DftSeq(m, w, s)
  }

  // ---------------------------------------------------------------- radix two

  /** The butterfly: a transform of length 2n from the transforms of its even and odd terms. */
  lemma Radix2<S(!new), V(!new)>(m: Module<S, V>, v: S, f: int -> V, off: int, stride: int, n: nat, t: nat)
    requires IsModule(m)
    ensures Dft(m, v, f, off, stride, 2 * n, t)
         == m.group.add(Dft(m, m.ring.Sqr(v), f, off, 2 * stride, n, t),
                        m.scale(Pow(m.ring, v, t), Dft(m, m.ring.Sqr(v), f, off + stride, 2 * stride, n, t)))
  {
    var u, p := m.ring.Sqr(v), Pow(m.ring, v, t);
    var term := DftTerm(m, v, f, off, stride, t);
    var even := DftTerm(m, u, f, off, 2 * stride, t);
    var odd := DftTerm(m, u, f, off + stride, 2 * stride, t);
    var twisted := j => m.scale(p, odd(j));
    forall j | 0 <= j < n
      ensures even(j) == term(2 * j)
      ensures twisted(j) == term(2 * j + 1)
    {
      TermEvenOdd(m, v, f, off, stride, t, j);
    }
    SumEvenOdd(m.group, term, even, twisted, n);
    SumScale(m, p, twisted, odd, n);
  }

  lemma TermEvenOdd<S(!new), V(!new)>(m: Module<S, V>, v: S, f: int -> V, off: int, stride: int, t: nat, j: nat)
    requires IsModule(m)
    ensures DftTerm(m, v, f, off, stride, t)(2 * j) == DftTerm(m, m.ring.Sqr(v), f, off, 2 * stride, t)(j)
    ensures DftTerm(m, v, f, off, stride, t)(2 * j + 1)
         == m.scale(Pow(m.ring, v, t), DftTerm(m, m.ring.Sqr(v), f, off + stride, 2 * stride, t)(j))
  {
    SquareStep(m, v, t, j);
    StrideStep(stride, j);
    var k := (2 * stride) * j;
    ScaleMul(m, Pow(m.ring, v, t), Pow(m.ring, m.ring.Sqr(v), t * j), f(off + stride + k));
  }

  lemma StrideStep(stride: int, j: int)
    ensures stride * (2 * j) == (2 * stride) * j
    ensures stride * (2 * j + 1) == stride + (2 * stride) * j
  {
  }

  lemma SquareStep<S(!new), V(!new)>(m: Module<S, V>, v: S, t: nat, j: nat)
    requires IsModule(m)
    ensures Pow(m.ring, v, t * (2 * j)) == Pow(m.ring, m.ring.Sqr(v), t * j)
    ensures Pow(m.ring, v, t * (2 * j + 1)) == m.ring.mul(Pow(m.ring, v, t), Pow(m.ring, m.ring.Sqr(v), t * j))
  {
    var r := m.ring;
    assert t * j >= 0;
    PowPow(r, v, 2, t * j);
    SqrIsPow(r, v);
    assert t * (2 * j) == 2 * (t * j);
    assert t * (2 * j + 1) == t + 2 * (t * j);
    PowAdd(r, v, t, 2 * (t * j));
  }

  lemma SqrIsPow<S(!new)>(r: Ring<S>, v: S)
    requires CommRing(r)
    ensures r.Sqr(v) == Pow(r, v, 2)
  {
    assert Pow(r, v, 2) == r.mul(v, Pow(r, v, 1));
    PowOne(r, v);
  }

  // The upper half of the butterfly, where v^n == -1.
  lemma Radix2Upper<S(!new), V(!new)>(m: Module<S, V>, v: S, f: int -> V, off: int, stride: int, n: nat, t: nat)
    requires IsModule(m)
    requires Pow(m.ring, v, n) == m.ring.neg(m.ring.one)
    ensures Dft(m, v, f, off, stride, 2 * n, t + n)
         == m.group.Sub(Dft(m, m.ring.Sqr(v), f, off, 2 * stride, n, t),
                        m.scale(Pow(m.ring, v, t), Dft(m, m.ring.Sqr(v), f, off + stride, 2 * stride, n, t)))
  {
    hide Dft, Pow;
    var r := m.ring;
    var u := r.Sqr(v);
    Radix2(m, v, f, off, stride, n, t + n);
    SqrIsPow(r, v);
    PowPow(r, v, 2, n);
    PowAdd(r, v, n, n);
    MulNeg(r, r.neg(r.one), r.one);
    NegNeg(r.Plus(), r.one);
    MulOne(r, r.neg(r.one));
    assert Pow(r, u, n) == r.one;
    DftPeriodic(m, u, f, off, 2 * stride, n, t);
    DftPeriodic(m, u, f, off + stride, 2 * stride, n, t);
    PowAdd(r, v, t, n);
    MulNeg(r, Pow(r, v, t), r.one);
    MulOne(r, Pow(r, v, t));
    ScaleNeg(m, Pow(r, v, t), Dft(m, u, f, off + stride, 2 * stride, n, t));
  }

  lemma DftPeriodic<S(!new), V(!new)>(m: Module<S, V>, u: S, f: int -> V, off: int, stride: int, n: nat, t: nat)
    requires IsModule(m)
    requires Pow(m.ring, u, n) == m.ring.one
    ensures Dft(m, u, f, off, stride, n, t + n) == Dft(m, u, f, off, stride, n, t)
  {
    var r := m.ring;
    forall j | 0 <= j < n
      ensures Pow(r, u, (t + n) * j) == Pow(r, u, t * j)
    {
      assert (t + n) * j == t * j + n * j;
      assert t * j >= 0 && n * j >= 0;
      PowAdd(r, u, t * j, n * j);
      PowPow(r, u, n, j);
      OnePow(r, j);
      MulOne(r, Pow(r, u, t * j));
    }
    SumExt(m.group, DftTerm(m, u, f, off, stride, t + n), DftTerm(m, u, f, off, stride, t), n);
  }

  // ---------------------------------------------------------------- roots of unity

  lemma HalfIsMinusOne<S(!new)>(r: Ring<S>, w: S, h: nat)
    requires IsField(r) && h > 0 && PrimitiveRoot(r, w, 2 * h)
    ensures Pow(r, w, h) == r.neg(r.one)
  {
    var g := r.Plus();
    var x := Pow(r, w, h);
    PowAdd(r, w, h, h);
    // (x - 1) * (x + 1) == x^2 - 1 == 0
    MulAdd(r, r.Sub(x, r.one), x, r.one);
    MulOne(r, r.Sub(x, r.one));
    MulSub(r, x, x, r.one);
    MulOne(r, x);
    assert r.mul(r.Sub(x, r.one), x) == r.Sub(r.one, x);
    AddSwap(g, r.one, r.neg(x), x, r.neg(r.one));
    AddComm(g, r.neg(x), r.neg(r.one));
    AddNeg(g, x);
    AddNeg(g, r.one);
    AddSwap(g, r.one, x, r.neg(r.one), r.neg(x));
    AddZero(g, r.zero);
    AddComm(g, r.one, x);
    NegAdd(g, r.one, x);
    AddNeg(g, r.add(r.one, x));
    AddSwap(g, r.one, r.neg(x), x, r.neg(r.one));
    assert r.mul(r.Sub(x, r.one), r.add(x, r.one)) == r.zero;
    NoZeroDivisors(r, r.Sub(x, r.one), r.add(x, r.one));
    if r.Sub(x, r.one) == r.zero {
      AddSub(g, x, r.one);
      AddZero(g, r.one);
    }
    AddComm(g, x, r.one);
    NegUnique(g, r.one, x);
  }

  lemma MulBetween(a: nat, d: nat, b: nat)
    requires 0 < a && 0 < d < b
    ensures 0 < a * d < a * b
  {
    assert a * b == a * d + a * (b - d);
  }

  lemma RootOfFactor<S(!new)>(r: Ring<S>, w: S, a: nat, b: nat)
    requires CommRing(r) && a > 0 && b > 0 && PrimitiveRoot(r, w, a * b)
    ensures PrimitiveRoot(r, Pow(r, w, a), b)
  {
    PowPow(r, w, a, b);
    forall d | 0 < d < b ensures Pow(r, Pow(r, w, a), d) != r.one {
      PowPow(r, w, a, d);
      MulBetween(a, d, b);
    }
  }

  // x and z are both inverse to y
  lemma InverseUnique<S(!new)>(r: Ring<S>, x: S, y: S, z: S)
    requires CommRing(r) && r.mul(x, y) == r.one && r.mul(z, y) == r.one
    ensures x == z
  {
    MulOne(r, x);
    MulComm(r, z, y);
    MulAssoc(r, x, y, z);
    MulOne(r, z);
  }

  // w^(n-1) is the inverse of w, and its powers are those of w read backwards.
  lemma InverseRoot<S(!new)>(r: Ring<S>, w: S, n: nat, e: nat)
    requires CommRing(r) && n > 0 && e <= n && Pow(r, w, n) == r.one
    ensures r.mul(w, Pow(r, w, n - 1)) == r.one
    ensures Pow(r, Pow(r, w, n - 1), e) == Pow(r, w, n - e)
  {
    var v := Pow(r, w, n - 1);
    MulPow(r, w, v, e);
    OnePow(r, e);
    MulComm(r, Pow(r, w, e), Pow(r, v, e));
    PowAdd(r, w, n - e, e);
    InverseUnique(r, Pow(r, v, e), Pow(r, w, e), Pow(r, w, n - e));
  }

  lemma InverseRootPrimitive<S(!new)>(r: Ring<S>, w: S, n: nat)
    requires CommRing(r) && PrimitiveRoot(r, w, n)
    ensures PrimitiveRoot(r, Pow(r, w, n - 1), n)
    ensures Pow(r, Pow(r, w, n - 1), n - 1) == w
  {
    forall d {:trigger Pow(r, Pow(r, w, n - 1), d)} | 0 <= d <= n
      ensures Pow(r, Pow(r, w, n - 1), d) == Pow(r, w, n - d)
    {
      InverseRoot(r, w, n, d);
    }
    PowOne(r, w);
    assert Pow(r, w, 0) == r.one;
  }

  // (x - 1) * (1 + x + ... + x^(n-1)) == x^n - 1
  lemma {:induction false} GeometricSum<S(!new)>(r: Ring<S>, x: S, n: nat)
    requires CommRing(r)
    ensures r.mul(r.Sub(x, r.one), Sum(r.Plus(), k => Pow(r, x, k), n)) == r.Sub(Pow(r, x, n), r.one)
  {
    var g := r.Plus();
    var d := r.Sub(x, r.one);
    if n == 0 {
      MulZero(r, d);
      AddNeg(g, r.one);
    } else {
      var p := Pow(r, x, n - 1);
      GeometricSum(r, x, n - 1);
      MulAdd(r, d, Sum(g, k => Pow(r, x, k), n - 1), p);
      MulSub(r, p, x, r.one);
      MulOne(r, p);
      // (p - 1) + (x * p - p) == x * p - 1
      AddComm(g, r.Sub(p, r.one), r.Sub(r.mul(x, p), p));
      AddAssoc(g, r.Sub(r.mul(x, p), p), p, r.neg(r.one));
      AddSub(g, r.mul(x, p), p);
    }
  }

  lemma RootsSumToZero<S(!new)>(r: Ring<S>, x: S, n: nat)
    requires IsField(r) && x != r.one && Pow(r, x, n) == r.one
    ensures Sum(r.Plus(), k => Pow(r, x, k), n) == r.zero
  {
    var g := r.Plus();
    GeometricSum(r, x, n);
    AddNeg(g, r.one);
    NoZeroDivisors(r, r.Sub(x, r.one), Sum(g, k => Pow(r, x, k), n));
    if r.Sub(x, r.one) == r.zero {
      AddSub(g, x, r.one);
      AddZero(g, r.one);
    }
  }

  // ---------------------------------------------------------------- inversion

  // wi^i * w^j is 1 exactly when i == j
  lemma CrossRoot<S(!new)>(r: Ring<S>, w: S, wi: S, n: nat, i: nat, j: nat)
    requires CommRing(r) && PrimitiveRoot(r, w, n) && PrimitiveRoot(r, wi, n) && r.mul(w, wi) == r.one
    requires i < n && j < n
    ensures r.mul(Pow(r, wi, i), Pow(r, w, j)) == r.one <==> i == j
    ensures Pow(r, r.mul(Pow(r, wi, i), Pow(r, w, j)), n) == r.one
  {
    var c := if i < j then i else j;
    var d, e := i - c, j - c;
    PowAdd(r, wi, d, c);
    PowAdd(r, w, e, c);
    MulSwap(r, Pow(r, wi, d), Pow(r, wi, c), Pow(r, w, e), Pow(r, w, c));
    MulComm(r, Pow(r, wi, c), Pow(r, w, c));
    MulPow(r, w, wi, c);
    OnePow(r, c);
    MulOne(r, r.mul(Pow(r, wi, d), Pow(r, w, e)));
    MulOne(r, Pow(r, wi, d));
    MulOne(r, Pow(r, w, e));
    MulPow(r, Pow(r, wi, i), Pow(r, w, j), n);
    PowOfRoot(r, wi, n, i);
    PowOfRoot(r, w, n, j);
    MulOne(r, r.one);
  }

  lemma PowOfRoot<S(!new)>(r: Ring<S>, w: S, n: nat, i: nat)
    requires CommRing(r) && Pow(r, w, n) == r.one
    ensures Pow(r, Pow(r, w, i), n) == r.one
  {
    PowPow(r, w, i, n);
    PowPow(r, w, n, i);
    assert i * n == n * i;
    OnePow(r, i);
  }

  // One term of the double sum below, as a scalar power applied to f(j).
  lemma CrossTerm<S(!new), V(!new)>(m: Module<S, V>, w: S, wi: S, x: V, i: nat, j: nat, k: nat)
    requires IsModule(m)
    ensures m.scale(Pow(m.ring, wi, i * k), m.scale(Pow(m.ring, w, k * j), x))
         == m.scale(Pow(m.ring, m.ring.mul(Pow(m.ring, wi, i), Pow(m.ring, w, j)), k), x)
  {
    var r := m.ring;
    PowPow(r, wi, i, k);
    PowPow(r, w, j, k);
    assert k * j == j * k;
    MulPow(r, Pow(r, wi, i), Pow(r, w, j), k);
    ScaleMul(m, Pow(r, wi, i * k), Pow(r, w, k * j), x);
  }

  /** Transforming with w and then with the inverse root multiplies every coefficient by n. */
  lemma DftInverse<S(!new), V(!new)>(m: Module<S, V>, w: S, wi: S, f: int -> V, h: int -> V, n: nat, i: nat)
    requires IsModule(m) && IsField(m.ring)
    requires PrimitiveRoot(m.ring, w, n) && PrimitiveRoot(m.ring, wi, n) && m.ring.mul(w, wi) == m.ring.one
    requires i < n
    requires forall k :: 0 <= k < n ==> h(k) == Dft(m, w, f, 0, 1, n, k)
    ensures Dft(m, wi, h, 0, 1, n, i) == m.scale(FromNat(m.ring, n), f(i))
  {
    var r := m.ring;
    var term := (k: int, j: int) => m.scale(Pow(r, wi, i * k), DftTerm(m, w, f, 0, 1, k)(j));
    var rows := DftTerm(m, wi, h, 0, 1, i);
    var column := j => Sum(m.group, k => term(k, j), n);
    forall k | 0 <= k < n ensures rows(k) == Sum(m.group, j => term(k, j), n) {
      SumScale(m, Pow(r, wi, i * k), j => term(k, j), DftTerm(m, w, f, 0, 1, k), n);
    }
    SumSwap(m.group, term, rows, column, n, n);
    forall j | 0 <= j < n
      ensures column(j) == if i == j then m.scale(FromNat(r, n), f(i)) else m.group.zero
    {
      var x := r.mul(Pow(r, wi, i), Pow(r, w, j));
      forall k | 0 <= k < n ensures term(k, j) == m.scale(Pow(r, x, k), f(j)) {
        CrossTerm(m, w, wi, f(j), i, j, k);
      }
      ScaleSum(m, k => term(k, j), k => Pow(r, x, k), f(j), n);
      CrossRoot(r, w, wi, n, i, j);
      if i == j {
        forall k | 0 <= k < n ensures Pow(r, x, k) == r.one { OnePow(r, k); }
        SumOnes(r, k => Pow(r, x, k), n);
      } else {
        RootsSumToZero(r, x, n);
        ScaleZero(m, r.zero, f(j));
        SumExt(r.Plus(), k => Pow(r, x, k), k => Pow(r, x, k), n);
      }
    }
    SumSingle(m.group, column, i, n);
  }

  lemma ScaleInverse<S(!new), V(!new)>(m: Module<S, V>, c: S, x: V)
    requires IsModule(m) && IsField(m.ring) && c != m.ring.zero
    ensures m.scale(m.ring.inv(c), m.scale(c, x)) == x
    ensures m.scale(c, m.scale(m.ring.inv(c), x)) == x
  {
    MulInv(m.ring, c);
    ScaleMul(m, m.ring.inv(c), c, x);
    ScaleMul(m, c, m.ring.inv(c), x);
    ScaleOne(m, x);
  }

  lemma DftScale<S(!new), V(!new)>(m: Module<S, V>, w: S, c: S, f: int -> V, h: int -> V, n: nat, t: nat)
    requires IsModule(m)
    requires forall i :: 0 <= i < n ==> h(i) == m.scale(c, f(i))
    ensures Dft(m, w, h, 0, 1, n, t) == m.scale(c, Dft(m, w, f, 0, 1, n, t))
  {
    var r := m.ring;
    forall j | 0 <= j < n
      ensures DftTerm(m, w, h, 0, 1, t)(j) == m.scale(c, DftTerm(m, w, f, 0, 1, t)(j))
    {
      var p := Pow(r, w, t * j);
      ScaleMul(m, p, c, f(j));
      ScaleMul(m, c, p, f(j));
      MulComm(r, p, c);
    }
    SumScale(m, c, DftTerm(m, w, h, 0, 1, t), DftTerm(m, w, f, 0, 1, t), n);
  }

  lemma {:induction false} InverseAfterForward<S(!new), V(!new)>(m: Module<S, V>, w: S, s: seq<V>)
    requires IsModule(m) && IsField(m.ring)
    requires PrimitiveRoot(m.ring, w, |s|) && FromNat(m.ring, |s|) != m.ring.zero
    ensures Transform(m, w, true, Transform(m, w, false, s)) == s
  {
    hide Dft, Pow, FromNat;
    var r, n := m.ring, |s|;
    var wi, c := Pow(r, w, n - 1), FromNat(r, n);
    InverseRootPrimitive(r, w, n);
    InverseRoot(r, w, n, 0);
    var t := Transform(m, w, false, s);
    var back := Transform(m, w, true, t);
    forall i | 0 <= i < n ensures back[i] == s[i] {
      DftInverse(m, w, wi, At(m.group, s), At(m.group, t), n, i);
      ScaleInverse(m, c, s[i]);
    }
  }

  lemma {:induction false} ForwardAfterInverse<S(!new), V(!new)>(m: Module<S, V>, w: S, s: seq<V>)
    requires IsModule(m) && IsField(m.ring)
    requires PrimitiveRoot(m.ring, w, |s|) && FromNat(m.ring, |s|) != m.ring.zero
    ensures Transform(m, w, false, Transform(m, w, true, s)) == s
  {
    hide Dft, Pow, FromNat;
    var r, n := m.ring, |s|;
    var wi, c := Pow(r, w, n - 1), FromNat(r, n);
    InverseRootPrimitive(r, w, n);
    InverseRoot(r, w, n, 0);
    MulComm(r, w, wi);
    var u := DftSeq(m, wi, s);
    var t := Transform(m, w, true, s);
    var back := Transform(m, w, false, t);
    forall i | 0 <= i < n ensures back[i] == s[i] {
      DftScale(m, w, r.inv(c), At(m.group, u), At(m.group, t), n, i);
      DftInverse(m, wi, w, At(m.group, s), At(m.group, u), n, i);
      ScaleInverse(m, c, s[i]);
    }
  }

  /** The inverse transform undoes the transform and the transform undoes the inverse, for every
      sequence whose length n has a primitive n-th root of unity and is not zero in the field. */
  lemma TransformInverts<S(!new), V(!new)>(m: Module<S, V>, w: S, s: seq<V>, inverse: bool)
    requires IsModule(m) && IsField(m.ring)
    requires PrimitiveRoot(m.ring, w, |s|) && FromNat(m.ring, |s|) != m.ring.zero
    ensures Transform(m, w, !inverse, Transform(m, w, inverse, s)) == s
  {
    if inverse { ForwardAfterInverse(m, w, s); } else { InverseAfterForward(m, w, s); }
  }
}
