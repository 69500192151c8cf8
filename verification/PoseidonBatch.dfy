/** There are constants for batches of partial rounds, found by linear substitution, for which a batch
    is the plain partial rounds.

    A form over n variables is n coefficients followed by a constant. */
module PoseidonBatch {
  import opened Algebra
  import opened Sizes
  import opened Poseidon

  // ---------------------------------------------------------------- forms

  function AddForm<S(!new)>(r: Ring<S>, f: seq<S>, g: seq<S>): (h: seq<S>)
    requires |f| == |g|
    ensures |h| == |f|
  {
    seq(|f|, i requires 0 <= i < |f| => r.add(f[i], g[i]))
  }

  function ScaleForm<S(!new)>(r: Ring<S>, a: S, f: seq<S>): (h: seq<S>)
    ensures |h| == |f|
  {
    seq(|f|, i requires 0 <= i < |f| => r.mul(a, f[i]))
  }

  // The i-th of n variables.
  function Unit<S(!new)>(r: Ring<S>, n: nat, i: int): (h: seq<S>)
    ensures |h| == n + 1
  {
    seq(n + 1, j => if j == i then r.one else r.zero)
  }

  function PlusConstant<S(!new)>(r: Ring<S>, f: seq<S>, c: S): (h: seq<S>)
    requires |f| > 0
    ensures |h| == |f|
  {
    f[|f| - 1 := r.add(f[|f| - 1], c)]
  }

  // The same form with one more variable that it does not mention.
  function Extend<S(!new)>(r: Ring<S>, f: seq<S>): (h: seq<S>)
    requires |f| > 0
    ensures |h| == |f| + 1
  {
    f[..|f| - 1] + [r.zero, f[|f| - 1]]
  }

  lemma {:induction false} DotExt<S(!new)>(r: Ring<S>, a: seq<S>, o: nat, x: seq<S>, b: seq<S>, p: nat, y: seq<S>, n: nat)
    requires o + n <= |a| && p + n <= |b| && n <= |x| && n <= |y|
    requires a[o..o + n] == b[p..p + n] && x[..n] == y[..n]
    ensures Dot(r, a, o, x, n) == Dot(r, b, p, y, n)
  {
    if n > 0 {
      assert a[o..o + n][..n - 1] == a[o..o + n - 1] && b[p..p + n][..n - 1] == b[p..p + n - 1];
      assert x[..n][..n - 1] == x[..n - 1] && y[..n][..n - 1] == y[..n - 1];
      DotExt(r, a, o, x, b, p, y, n - 1);
      assert a[o + n - 1] == a[o..o + n][n - 1] == b[p..p + n][n - 1] == b[p + n - 1];
      assert x[n - 1] == x[..n][n - 1] == y[..n][n - 1] == y[n - 1];
    }
  }

  lemma {:induction false} DotAdd<S(!new)>(r: Ring<S>, f: seq<S>, g: seq<S>, v: seq<S>, n: nat)
    requires CommRing(r) && |f| == |g| && n <= |f| && n <= |v|
    ensures Dot(r, AddForm(r, f, g), 0, v, n) == r.add(Dot(r, f, 0, v, n), Dot(r, g, 0, v, n))
  {
    if n == 0 {
      AddZero(r.Plus(), r.zero);
    } else {
      DotAdd(r, f, g, v, n - 1);
      AddMul(r, f[n - 1], g[n - 1], v[n - 1]);
      AddSwap(r.Plus(), Dot(r, f, 0, v, n - 1), Dot(r, g, 0, v, n - 1), r.mul(f[n - 1], v[n - 1]), r.mul(g[n - 1], v[n - 1]));
    }
  }

  lemma {:induction false} EvalAdd<S(!new)>(r: Ring<S>, f: seq<S>, g: seq<S>, v: seq<S>)
    requires CommRing(r) && |f| == |g| == |v| + 1
    ensures Affine(r, AddForm(r, f, g), 0, v) == r.add(Affine(r, f, 0, v), Affine(r, g, 0, v))
  {
    var n := |v|;
    DotAdd(r, f, g, v, n);
    AddSwap(r.Plus(), Dot(r, f, 0, v, n), Dot(r, g, 0, v, n), f[n], g[n]);
  }

  lemma {:induction false} DotScale<S(!new)>(r: Ring<S>, a: S, f: seq<S>, v: seq<S>, n: nat)
    requires CommRing(r) && n <= |f| && n <= |v|
    ensures Dot(r, ScaleForm(r, a, f), 0, v, n) == r.mul(a, Dot(r, f, 0, v, n))
  {
    if n == 0 {
      MulZero(r, a);
    } else {
      DotScale(r, a, f, v, n - 1);
      MulAssoc(r, a, f[n - 1], v[n - 1]);
      MulAdd(r, a, Dot(r, f, 0, v, n - 1), r.mul(f[n - 1], v[n - 1]));
    }
  }

  lemma {:induction false} EvalScale<S(!new)>(r: Ring<S>, a: S, f: seq<S>, v: seq<S>)
    requires CommRing(r) && |f| == |v| + 1
    ensures Affine(r, ScaleForm(r, a, f), 0, v) == r.mul(a, Affine(r, f, 0, v))
  {
    DotScale(r, a, f, v, |v|);
    MulAdd(r, a, Dot(r, f, 0, v, |v|), f[|v|]);
  }

  lemma {:induction false} EvalPlus<S(!new)>(r: Ring<S>, f: seq<S>, c: S, v: seq<S>)
    requires CommRing(r) && |f| == |v| + 1
    ensures Affine(r, PlusConstant(r, f, c), 0, v) == r.add(Affine(r, f, 0, v), c)
  {
    var n := |v|;
    assert PlusConstant(r, f, c)[0..n] == f[0..n];
    DotExt(r, PlusConstant(r, f, c), 0, v, f, 0, v, n);
    AddAssoc(r.Plus(), Dot(r, f, 0, v, n), f[n], c);
  }

  lemma {:induction false} EvalExtend<S(!new)>(r: Ring<S>, f: seq<S>, v: seq<S>, t: S)
    requires CommRing(r) && |f| == |v| + 1
    ensures Affine(r, Extend(r, f), 0, v + [t]) == Affine(r, f, 0, v)
  {
    var n := |v|;
    var e, u := Extend(r, f), v + [t];
    assert e[0..n] == f[0..n] && u[..n] == v[..n];
    DotExt(r, e, 0, u, f, 0, v, n);
    MulZero(r, t);
    AddZero(r.Plus(), Dot(r, f, 0, v, n));
  }

  lemma {:induction false} DotUnit<S(!new)>(r: Ring<S>, i: nat, v: seq<S>, n: nat)
    requires CommRing(r) && i < |v| && n <= |v|
    ensures Dot(r, Unit(r, |v|, i), 0, v, n) == if i < n then v[i] else r.zero
  {
    if n > 0 {
      DotUnit(r, i, v, n - 1);
      MulZero(r, v[n - 1]);
      MulOne(r, v[n - 1]);
      AddZero(r.Plus(), if i < n - 1 then v[i] else if i == n - 1 then v[n - 1] else r.zero);
    }
  }

  lemma {:induction false} EvalUnit<S(!new)>(r: Ring<S>, i: nat, v: seq<S>)
    requires CommRing(r) && i < |v|
    ensures Affine(r, Unit(r, |v|, i), 0, v) == v[i]
  {
    DotUnit(r, i, v, |v|);
    AddZero(r.Plus(), v[i]);
  }

  // ---------------------------------------------------------------- vectors of forms

  ghost predicate Over<S>(z: seq<seq<S>>, n: nat) { forall i :: 0 <= i < |z| ==> |z[i]| == n + 1 }

  function Eval<S(!new)>(r: Ring<S>, z: seq<seq<S>>, v: seq<S>): (s: seq<S>)
    requires Over(z, |v|)
    ensures |s| == |z|
  {
    seq(|z|, i requires 0 <= i < |z| => Affine(r, z[i], 0, v))
  }

  // The combination of the first k forms with the matrix entries from off on.
  function Combine<S(!new)>(r: Ring<S>, mds: seq<S>, off: nat, z: seq<seq<S>>, n: nat, k: nat): (f: seq<S>)
    requires off + k <= |mds| && k <= |z| && Over(z, n)
    ensures |f| == n + 1
  {
    if k == 0 then seq(n + 1, _ => r.zero)
    else AddForm(r, Combine(r, mds, off, z, n, k - 1), ScaleForm(r, mds[off + k - 1], z[k - 1]))
  }

  lemma {:induction false} CombineEval<S(!new)>(r: Ring<S>, mds: seq<S>, off: nat, z: seq<seq<S>>, v: seq<S>, k: nat)
    requires CommRing(r) && off + k <= |mds| && k <= |z| && Over(z, |v|)
    ensures Affine(r, Combine(r, mds, off, z, |v|, k), 0, v) == Dot(r, mds, off, Eval(r, z, v), k)
  {
    if k == 0 {
      ZeroEval(r, v);
    } else {
      CombineEval(r, mds, off, z, v, k - 1);
      EvalScale(r, mds[off + k - 1], z[k - 1], v);
      EvalAdd(r, Combine(r, mds, off, z, |v|, k - 1), ScaleForm(r, mds[off + k - 1], z[k - 1]), v);
    }
  }

  lemma {:induction false} ZeroEval<S(!new)>(r: Ring<S>, v: seq<S>)
    requires CommRing(r)
    ensures Affine(r, seq(|v| + 1, _ => r.zero), 0, v) == r.zero
  {
    var f := seq(|v| + 1, _ => r.zero);
    ZeroDot(r, f, v, |v|);
    AddZero(r.Plus(), r.zero);
  }

  lemma {:induction false} ZeroDot<S(!new)>(r: Ring<S>, f: seq<S>, v: seq<S>, n: nat)
    requires CommRing(r) && n <= |v| && n <= |f| && forall i :: 0 <= i < |f| ==> f[i] == r.zero
    ensures Dot(r, f, 0, v, n) == r.zero
  {
    if n > 0 {
      ZeroDot(r, f, v, n - 1);
      MulZero(r, v[n - 1]);
      AddZero(r.Plus(), r.zero);
    }
  }

  // The forms of the state after multiplying by the matrix and adding the constants at off.
  lemma {:induction false} Mixed<S(!new)>(r: Ring<S>, mds: seq<S>, z: seq<seq<S>>, n: nat, rc: seq<S>, off: nat) returns (x: seq<seq<S>>)
    requires CommRing(r) && |mds| == Words(|z|, |z|) && Over(z, n) && off + |z| <= |rc|
    ensures |x| == |z| && Over(x, n)
    ensures forall v {:trigger Eval(r, x, v)} | |v| == n ::
      Eval(r, x, v) == AddConstants(r, Multiply(r, mds, Eval(r, z, v)), rc, off)
  {
    x := MixedUpTo(r, mds, z, n, rc, off, |z|);
    forall v {:trigger Eval(r, x, v)} | |v| == n
      ensures Eval(r, x, v) == AddConstants(r, Multiply(r, mds, Eval(r, z, v)), rc, off)
    {
      assert forall i | 0 <= i < |z| :: Affine(r, x[i], 0, v) == MixedAt(r, mds, z, v, rc, off, i);
    }
  }

  function MixedAt<S(!new)>(r: Ring<S>, mds: seq<S>, z: seq<seq<S>>, v: seq<S>, rc: seq<S>, off: nat, i: int): S
    requires |mds| == Words(|z|, |z|) && Over(z, |v|) && off + |z| <= |rc| && 0 <= i < |z|
  {
    r.add(Row(r, mds, Eval(r, z, v), i), rc[off + i])
  }

  lemma {:induction false} MixedUpTo<S(!new)>(r: Ring<S>, mds: seq<S>, z: seq<seq<S>>, n: nat, rc: seq<S>, off: nat, k: nat)
    returns (x: seq<seq<S>>)
    requires CommRing(r) && |mds| == Words(|z|, |z|) && Over(z, n) && off + |z| <= |rc| && k <= |z|
    ensures |x| == k && Over(x, n)
    ensures forall v: seq<S>, i {:trigger Affine(r, x[i], 0, v)} | |v| == n && 0 <= i < k ::
      Affine(r, x[i], 0, v) == MixedAt(r, mds, z, v, rc, off, i)
  {
    if k == 0 {
      x := [];
    } else {
      var y := MixedUpTo(r, mds, z, n, rc, off, k - 1);
      var f := MixedForm(r, mds, z, n, rc, off, k - 1);
      x := y + [f];
    }
  }

  lemma {:induction false} MixedForm<S(!new)>(r: Ring<S>, mds: seq<S>, z: seq<seq<S>>, n: nat, rc: seq<S>, off: nat, i: int) returns (f: seq<S>)
    requires CommRing(r) && |mds| == Words(|z|, |z|) && Over(z, n) && off + |z| <= |rc| && 0 <= i < |z|
    ensures |f| == n + 1
    ensures forall v: seq<S> {:trigger Affine(r, f, 0, v)} | |v| == n ::
      Affine(r, f, 0, v) == MixedAt(r, mds, z, v, rc, off, i)
  {
    RowFits(i, |z|, |z|);
    var g := Combine(r, mds, Words(i, |z|), z, n, |z|);
    f := PlusConstant(r, g, rc[off + i]);
    forall v: seq<S> {:trigger Affine(r, f, 0, v)} | |v| == n
      ensures Affine(r, f, 0, v) == MixedAt(r, mds, z, v, rc, off, i)
    {
      CombineEval(r, mds, Words(i, |z|), z, v, |z|);
      EvalPlus(r, g, rc[off + i], v);
    }
  }

  // The last value becomes a new variable.
  lemma {:induction false} Substituted<S(!new)>(r: Ring<S>, x: seq<seq<S>>, n: nat) returns (z: seq<seq<S>>)
    requires CommRing(r) && |x| > 0 && Over(x, n)
    ensures |z| == |x| && Over(z, n + 1)
    ensures forall v: seq<S>, t {:trigger Eval(r, z, v + [t])} | |v| == n ::
      Eval(r, z, v + [t]) == Eval(r, x, v)[|x| - 1 := t]
  {
    z := seq(|x|, i requires 0 <= i < |x| => if i == |x| - 1 then Unit(r, n + 1, n) else Extend(r, x[i]));
    assert Over(z, n + 1);
    forall v: seq<S>, t {:trigger Eval(r, z, v + [t])} | |v| == n
      ensures Eval(r, z, v + [t]) == Eval(r, x, v)[|x| - 1 := t]
    {
      forall i | 0 <= i < |x|
        ensures Affine(r, z[i], 0, v + [t]) == if i == |x| - 1 then t else Affine(r, x[i], 0, v)
      {
        EvalUnit(r, n, v + [t]);
        EvalExtend(r, x[i], v, t);
      }
    }
  }

  // ---------------------------------------------------------------- constants of a batch

  // The constants contain the given words from o on.
  ghost predicate Holds<S>(ark: seq<S>, o: nat, words: seq<S>) {
    o + |words| <= |ark| && ark[o..o + |words|] == words
  }

  lemma {:induction false} HoldsBoth<S>(ark: seq<S>, o: nat, a: seq<S>, b: seq<S>)
    requires Holds(ark, o, a + b)
    ensures Holds(ark, o, a) && Holds(ark, o + |a|, b)
  {
    var both := ark[o..o + |a + b|];
    assert ark[o..o + |a|] == both[..|a|] == a;
    assert ark[o + |a|..o + |a| + |b|] == both[|a|..] == b;
  }

  // Reading a form back from the constants it was written into.
  lemma {:induction false} AffineAt<S(!new)>(r: Ring<S>, ark: seq<S>, o: nat, f: seq<S>, v: seq<S>)
    requires |f| == |v| + 1 && Holds(ark, o, f)
    ensures Affine(r, ark, o, v) == Affine(r, f, 0, v)
  {
    var n := |v|;
    assert ark[o..o + n] == ark[o..o + |f|][..n] == f[0..n];
    assert ark[o + n] == ark[o..o + |f|][n];
    DotExt(r, ark, o, v, f, 0, v, n);
  }

  function Concat<S>(x: seq<seq<S>>): seq<S> {
    if x == [] then [] else x[0] + Concat(x[1..])
  }

  lemma {:induction false} ConcatSize<S>(x: seq<seq<S>>, n: nat)
    requires Over(x, n)
    ensures |Concat(x)| == OutSize(n, |x|)
  {
    if x != [] { ConcatSize(x[1..], n); }
  }

  lemma {:induction false} OutputsAt<S(!new)>(r: Ring<S>, ark: seq<S>, o: nat, x: seq<seq<S>>, v: seq<S>)
    requires Over(x, |v|) && Holds(ark, o, Concat(x)) && o + OutSize(|v|, |x|) <= |ark|
    ensures Outputs(r, ark, o, v, |x|) == Eval(r, x, v)
    decreases |x|
  {
    if x == [] {
      assert Eval(r, x, v) == [];
    } else {
      HoldsBoth(ark, o, x[0], Concat(x[1..]));
      AffineAt(r, ark, o, x[0], v);
      OutputsAt(r, ark, o + |v| + 1, x[1..], v);
      EvalCons(r, x, v);
    }
  }

  lemma {:induction false} EvalCons<S(!new)>(r: Ring<S>, x: seq<seq<S>>, v: seq<S>)
    requires Over(x, |v|) && x != []
    ensures Eval(r, x, v) == [Affine(r, x[0], 0, v)] + Eval(r, x[1..], v)
  {
  }

  // k plain partial rounds, from after the first s-box on.
  function AfterSbox<S(!new)>(r: Ring<S>, mds: seq<S>, rc: seq<S>, off: nat, s: seq<S>, k: nat): seq<S>
    requires k > 0 && |s| > 0 && |mds| == Words(|s|, |s|) && off + Words(k, |s|) <= |rc|
    decreases k
  {
    var x := AddConstants(r, Multiply(r, mds, s), rc, off);
    if k == 1 then x else AfterSbox(r, mds, rc, off + |s|, SboxLast(r, x), k - 1)
  }

  lemma {:induction false} PartialAfterSbox<S(!new)>(r: Ring<S>, mds: seq<S>, rc: seq<S>, off: nat, x: seq<S>, k: nat)
    requires k > 0 && |x| > 0 && |mds| == Words(|x|, |x|) && off + Words(k, |x|) <= |rc|
    ensures PartialRounds(r, mds, rc, off, x, k) == AfterSbox(r, mds, rc, off, SboxLast(r, x), k)
    decreases k
  {
    if k > 1 { PartialAfterSbox(r, mds, rc, off + |x|, Partial(r, mds, rc, off, x), k - 1); }
  }

  function RestSize(n: nat, k: nat, w: nat): nat
    requires k > 0
  {
    TempSize(n, k - 1) + OutSize(n + k - 1, w)
  }

  lemma RestSizeStep(n: nat, k: nat, w: nat)
    requires k > 1
    ensures RestSize(n, k, w) == n + 1 + RestSize(n + 1, k - 1, w)
  {
  }

  // The rest of a batch, from the temporaries on, over the values v.
  function Rest<S(!new)>(r: Ring<S>, ark: seq<S>, o: nat, v: seq<S>, k: nat, w: nat): seq<S>
    requires k > 0 && o + RestSize(|v|, k, w) <= |ark|
  {
    Outputs(r, ark, o + TempSize(|v|, k - 1), Temporaries(r, ark, o, v, k - 1), w)
  }

  /** The words make k rounds of batch work, when the state before the matrix is given by the forms z
      over n variables. */
  ghost predicate Works<S(!new)>(r: Ring<S>, mds: seq<S>, z: seq<seq<S>>, n: nat, rc: seq<S>, off: nat, k: nat, words: seq<S>) {
    && k > 0 && |z| > 0 && |mds| == Words(|z|, |z|) && Over(z, n) && off + Words(k, |z|) <= |rc|
    && |words| == RestSize(n, k, |z|)
    && forall ark, o: nat, v {:trigger Rest(r, ark, o, v, k, |z|)} | |v| == n && Holds(ark, o, words) ::
      Rest(r, ark, o, v, k, |z|) == AfterSbox(r, mds, rc, off, Eval(r, z, v), k)
  }

  // For one round: the forms themselves.
  lemma {:induction false} LastRound<S(!new)>(r: Ring<S>, mds: seq<S>, z: seq<seq<S>>, n: nat, rc: seq<S>, off: nat) returns (words: seq<S>)
    requires CommRing(r) && |z| > 0 && |mds| == Words(|z|, |z|) && Over(z, n) && off + Words(1, |z|) <= |rc|
    ensures Works(r, mds, z, n, rc, off, 1, words)
  {
    var x := Mixed(r, mds, z, n, rc, off);
    words := Concat(x);
    ConcatSize(x, n);
    forall ark, o: nat, v {:trigger Rest(r, ark, o, v, 1, |z|)} | |v| == n && Holds(ark, o, words)
      ensures Rest(r, ark, o, v, 1, |z|) == AfterSbox(r, mds, rc, off, Eval(r, z, v), 1)
    {
      OutputsAt(r, ark, o, x, v);
    }
  }

  // For more: the form of the last value, then the words for the remaining rounds with that value's
  // s-box as one more variable.
  lemma {:induction false} OneMoreRound<S(!new)>(
    r: Ring<S>, mds: seq<S>, z: seq<seq<S>>, n: nat, rc: seq<S>, off: nat, k: nat,
    x: seq<seq<S>>, z': seq<seq<S>>, words: seq<S>)
    requires CommRing(r) && k > 1 && |z| > 0 && |mds| == Words(|z|, |z|) && Over(z, n) && off + Words(k, |z|) <= |rc|
    requires |x| == |z| && Over(x, n)
    requires forall v {:trigger Eval(r, x, v)} | |v| == n ::
      Eval(r, x, v) == AddConstants(r, Multiply(r, mds, Eval(r, z, v)), rc, off)
    requires |z'| == |z| && Over(z', n + 1)
    requires forall v: seq<S>, t {:trigger Eval(r, z', v + [t])} | |v| == n ::
      Eval(r, z', v + [t]) == Eval(r, x, v)[|x| - 1 := t]
    requires Works(r, mds, z', n + 1, rc, off + |z|, k - 1, words)
    ensures Works(r, mds, z, n, rc, off, k, x[|x| - 1] + words)
  {
    hide Words, RestSize, Rest, AfterSbox, Affine, Multiply, AddConstants, SboxLast, Sbox;
    var w, last := |z|, x[|x| - 1];
    RestSizeStep(n, k, w);
    assert |last + words| == RestSize(n, k, w);
    forall ark, o: nat, v {:trigger Rest(r, ark, o, v, k, w)} | |v| == n && Holds(ark, o, last + words)
      ensures Rest(r, ark, o, v, k, w) == AfterSbox(r, mds, rc, off, Eval(r, z, v), k)
    {
      HoldsBoth(ark, o, last, words);
      AffineAt(r, ark, o, last, v);
      var t := Sbox(r, Affine(r, ark, o, v));
      RestStep(r, ark, o, v, k, w, t);
      LastReplaced(r, Eval(r, x, v), t);
      AfterStep(r, mds, rc, off, Eval(r, z, v), k, Eval(r, x, v));
    }
  }

  lemma {:induction false} RestStep<S(!new)>(r: Ring<S>, ark: seq<S>, o: nat, v: seq<S>, k: nat, w: nat, t: S)
    requires k > 1 && o + RestSize(|v|, k, w) <= |ark|
    requires t == Sbox(r, Affine(r, ark, o, v))
    ensures o + |v| + 1 + RestSize(|v| + 1, k - 1, w) <= |ark|
    ensures Rest(r, ark, o, v, k, w) == Rest(r, ark, o + |v| + 1, v + [t], k - 1, w)
  {
  }

  lemma {:induction false} LastReplaced<S(!new)>(r: Ring<S>, y: seq<S>, t: S)
    requires |y| > 0 && t == Sbox(r, y[|y| - 1])
    ensures y[|y| - 1 := t] == SboxLast(r, y)
  {
  }

  lemma {:induction false} AfterStep<S(!new)>(r: Ring<S>, mds: seq<S>, rc: seq<S>, off: nat, s: seq<S>, k: nat, x: seq<S>)
    requires k > 1 && |s| > 0 && |mds| == Words(|s|, |s|) && off + Words(k, |s|) <= |rc|
    requires x == AddConstants(r, Multiply(r, mds, s), rc, off)
    ensures AfterSbox(r, mds, rc, off, s, k) == AfterSbox(r, mds, rc, off + |s|, SboxLast(r, x), k - 1)
  {
  }

  lemma {:induction false} BatchFrom<S(!new)>(r: Ring<S>, mds: seq<S>, z: seq<seq<S>>, n: nat, rc: seq<S>, off: nat, k: nat)
    returns (words: seq<S>)
    requires CommRing(r) && k > 0 && |z| > 0 && |mds| == Words(|z|, |z|) && Over(z, n) && off + Words(k, |z|) <= |rc|
    ensures Works(r, mds, z, n, rc, off, k, words)
    decreases k
  {
    if k == 1 {
      words := LastRound(r, mds, z, n, rc, off);
    } else {
      var x := Mixed(r, mds, z, n, rc, off);
      var z' := Substituted(r, x, n);
      var rest := BatchFrom(r, mds, z', n + 1, rc, off + |z|, k - 1);
      OneMoreRound(r, mds, z, n, rc, off, k, x, z', rest);
      words := x[|x| - 1] + rest;
    }
  }

  // At the start of a batch the variables are the state itself.
  lemma {:induction false} Variables<S(!new)>(r: Ring<S>, w: nat) returns (z: seq<seq<S>>)
    requires CommRing(r)
    ensures |z| == w && Over(z, w)
    ensures forall x {:trigger Eval(r, z, x)} | |x| == w :: Eval(r, z, x) == x
  {
    z := seq(w, i => Unit(r, w, i));
    forall x {:trigger Eval(r, z, x)} | |x| == w
      ensures Eval(r, z, x) == x
    {
      forall i | 0 <= i < |x|
        ensures Affine(r, Unit(r, |x|, i), 0, x) == x[i]
      {
        EvalUnit(r, i, x);
      }
    }
  }

  // The words are constants for a batch of the b plain partial rounds whose constants start at off.
  ghost predicate IsBatch<S(!new)>(r: Ring<S>, mds: seq<S>, w: nat, rc: seq<S>, off: nat, b: nat, words: seq<S>) {
    && b > 0 && w > 0 && |mds| == Words(w, w) && off + Words(b, w) <= |rc|
    && |words| == BatchSize(w, b)
    && forall ark, o: nat, x {:trigger Batched(r, ark, o, x, b)} | |x| == w && Holds(ark, o, words) ::
      Batched(r, ark, o, x, b) == PartialRounds(r, mds, rc, off, x, b)
  }

  /** For every matrix, every batch size and every round constants there are batch constants with
      which one batched partial round is that many plain partial rounds, on every state. */
  lemma {:induction false} BatchExists<S(!new)>(r: Ring<S>, mds: seq<S>, w: nat, rc: seq<S>, off: nat, b: nat) returns (words: seq<S>)
    requires CommRing(r) && b > 0 && w > 0 && |mds| == Words(w, w) && off + Words(b, w) <= |rc|
    ensures IsBatch(r, mds, w, rc, off, b, words)
  {
    var z := Variables(r, w);
    words := BatchFrom(r, mds, z, w, rc, off, b);
    assert |words| == BatchSize(w, b);
    forall ark, o: nat, x {:trigger Batched(r, ark, o, x, b)} | |x| == w && Holds(ark, o, words)
      ensures Batched(r, ark, o, x, b) == PartialRounds(r, mds, rc, off, x, b)
    {
      BatchedIsRest(r, ark, o, x, b);
      assert Eval(r, z, SboxLast(r, x)) == SboxLast(r, x);
      PartialAfterSbox(r, mds, rc, off, x, b);
    }
  }

  lemma {:induction false} BatchedIsRest<S(!new)>(r: Ring<S>, ark: seq<S>, o: nat, x: seq<S>, b: nat)
    requires b > 0 && |x| > 0 && o + BatchSize(|x|, b) <= |ark|
    ensures Batched(r, ark, o, x, b) == Rest(r, ark, o, SboxLast(r, x), b, |x|)
  {
  }
}
