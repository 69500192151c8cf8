/** The layers and rounds of Poseidon entry by entry: the matrix as sums over its rows, the batched constants at their
    places, and the plain permutation as a run of textbook rounds. */
module PoseidonForms {
  import opened Algebra
  import opened Sums
  import opened Sizes
  import opened Poseidon
  import opened PoseidonPlain
  import AdditionChain

  // ---------------------------------------------------------------- sums of products

  // a[off + j] x[j], as a function of j.
  function Product<S(!new)>(r: Ring<S>, a: seq<S>, off: int, x: seq<S>): int -> S {
    j => if 0 <= j < |x| && 0 <= off + j < |a| then r.mul(a[off + j], x[j]) else r.zero
  }

  lemma ProductAt<S(!new)>(r: Ring<S>, a: seq<S>, off: nat, x: seq<S>, j: nat)
    requires j < |x| && off + j < |a|
    ensures Product(r, a, off, x)(j) == r.mul(a[off + j], x[j])
  {
  }

  lemma {:induction false} DotIsSum<S(!new)>(r: Ring<S>, a: seq<S>, off: nat, x: seq<S>, n: nat)
    requires off + n <= |a| && n <= |x|
    ensures Dot(r, a, off, x, n) == Sum(r.Plus(), Product(r, a, off, x), n)
  {
    hide Product;
    if n > 0 {
      DotIsSum(r, a, off, x, n - 1);
      ProductAt(r, a, off, x, n - 1);
    }
  }

  // ---------------------------------------------------------------- the matrix

  // Entry i of the product is the sum over j of mds[i * w + j] x[j].
  lemma MultiplyIsSum<S(!new)>(r: Ring<S>, mds: seq<S>, x: seq<S>, i: nat)
    requires |mds| == Words(|x|, |x|) && i < |x|
    ensures Multiply(r, mds, x)[i] == Sum(r.Plus(), Product(r, mds, i * |x|, x), |x|)
  {
    RowFits(i, |x|, |x|);
    WordsProduct(i, |x|);
    hide Dot, Product;
    DotIsSum(r, mds, i * |x|, x, |x|);
  }

  // The vector with one at j and zero elsewhere.
  function Basis<S(!new)>(r: Ring<S>, w: nat, j: nat): (e: seq<S>)
    ensures |e| == w
  {
    seq(w, k => if k == j then r.one else r.zero)
  }

  lemma EntryInside(w: nat, i: nat, j: nat)
    requires i < w && j < w
    ensures i * w + j < Words(w, w)
  {
    RowFits(i, w, w);
    WordsProduct(i, w);
  }

  lemma BasisSum<S(!new)>(r: Ring<S>, a: seq<S>, at: nat, w: nat, j: nat)
    requires CommRing(r) && j < w && at + w <= |a|
    ensures Sum(r.Plus(), Product(r, a, at, Basis(r, w, j)), w) == a[at + j]
  {
    hide Product;
    var e := Basis(r, w, j);
    var f := Product(r, a, at, e);
    forall k | 0 <= k < w && k != j ensures f(k) == r.zero {
      ProductAt(r, a, at, e, k);
      MulZero(r, a[at + k]);
    }
    ProductAt(r, a, at, e, j);
    SumSingle(r.Plus(), f, j, w);
    MulOne(r, a[at + j]);
  }

  /** The product with a unit vector is a column: the matrix is laid out row after row. */
  lemma MultiplyBasis<S(!new)>(r: Ring<S>, mds: seq<S>, w: nat, i: nat, j: nat)
    requires CommRing(r) && |mds| == Words(w, w) && i < w && j < w
    ensures i * w + j < |mds| && Multiply(r, mds, Basis(r, w, j))[i] == mds[i * w + j]
  {
    hide Multiply, Product, Basis, Words;
    EntryInside(w, i, w - 1);
    MultiplyIsSum(r, mds, Basis(r, w, j), i);
    BasisSum(r, mds, i * w, w, j);
  }

  // The product is additive and homogeneous.
  lemma MultiplyAdds<S(!new)>(r: Ring<S>, mds: seq<S>, x: seq<S>, y: seq<S>, z: seq<S>, i: nat)
    requires CommRing(r) && |x| == |y| == |z| && |mds| == Words(|x|, |x|) && i < |x|
    requires forall j :: 0 <= j < |x| ==> z[j] == r.add(x[j], y[j])
    ensures Multiply(r, mds, z)[i] == r.add(Multiply(r, mds, x)[i], Multiply(r, mds, y)[i])
  {
    var w, at := |x|, i * |x|;
    hide Multiply, Product, Words;
    MultiplyIsSum(r, mds, x, i);
    MultiplyIsSum(r, mds, y, i);
    MultiplyIsSum(r, mds, z, i);
    var f, g, h := Product(r, mds, at, x), Product(r, mds, at, y), Product(r, mds, at, z);
    forall j | 0 <= j < w ensures h(j) == r.add(f(j), g(j)) {
      EntryInside(w, i, j);
      ProductAt(r, mds, at, x, j);
      ProductAt(r, mds, at, y, j);
      ProductAt(r, mds, at, z, j);
      MulAdd(r, mds[at + j], x[j], y[j]);
    }
    SumAdd(r.Plus(), h, f, g, w);
  }

  lemma MultiplyScales<S(!new)>(r: Ring<S>, mds: seq<S>, c: S, x: seq<S>, z: seq<S>, i: nat)
    requires CommRing(r) && |x| == |z| && |mds| == Words(|x|, |x|) && i < |x|
    requires forall j :: 0 <= j < |x| ==> z[j] == r.mul(c, x[j])
    ensures Multiply(r, mds, z)[i] == r.mul(c, Multiply(r, mds, x)[i])
  {
    var w, at, m := |x|, i * |x|, SelfModule(r);
    hide Multiply, Product, Words;
    MultiplyIsSum(r, mds, x, i);
    MultiplyIsSum(r, mds, z, i);
    SelfModuleIsModule(r);
    var f, h := Product(r, mds, at, x), Product(r, mds, at, z);
    forall j | 0 <= j < w ensures h(j) == m.scale(c, f(j)) {
      EntryInside(w, i, j);
      ProductAt(r, mds, at, x, j);
      ProductAt(r, mds, at, z, j);
      MulComm(r, c, x[j]);
      MulAssoc(r, mds[at + j], x[j], c);
    }
    SumScale(m, c, h, f, w);
    MulComm(r, c, Multiply(r, mds, x)[i]);
  }

  // ---------------------------------------------------------------- batched constants

  // Over n values: n coefficients and a constant, from the given place on.
  lemma AffineIsSum<S(!new)>(r: Ring<S>, a: seq<S>, off: nat, x: seq<S>)
    requires off + |x| < |a|
    ensures Affine(r, a, off, x) == r.add(Sum(r.Plus(), Product(r, a, off, x), |x|), a[off + |x|])
  {
    hide Product, Dot;
    DotIsSum(r, a, off, x, |x|);
  }

  /** Output i of a batch reads its coefficients and its constant at i * (n + 1). */
  lemma {:induction false} OutputIs<S(!new)>(r: Ring<S>, ark: seq<S>, off: nat, v: seq<S>, k: nat, i: nat)
    requires off + OutSize(|v|, k) <= |ark| && i < k
    ensures 0 <= off + i * (|v| + 1) && off + i * (|v| + 1) + |v| < |ark|
    ensures Outputs(r, ark, off, v, k)[i] == Affine(r, ark, off + i * (|v| + 1), v)
    decreases k
  {
    hide Affine;
    if i > 0 {
      OutputIs(r, ark, off + |v| + 1, v, k - 1, i - 1);
      assert off + |v| + 1 + (i - 1) * (|v| + 1) == off + i * (|v| + 1);
    }
  }

  /** The values a batch starts from stay in front of its temporaries, and temporary i is the fifth power of a
      combination of everything before it, read after the words of the temporaries before it. */
  lemma {:induction false} TemporaryIs<S(!new)>(r: Ring<S>, ark: seq<S>, off: nat, v: seq<S>, k: nat, i: nat)
    requires CommRing(r) && off + TempSize(|v|, k) <= |ark| && i < k
    ensures off + TempSize(|v|, i) + |v| + i < |ark|
    ensures var t := Temporaries(r, ark, off, v, k);
      t[..|v|] == v && t[|v| + i] == Pow(r, Affine(r, ark, off + TempSize(|v|, i), t[..|v| + i]), 5)
    decreases k
  {
    hide Affine, Pow, Sbox;
    var n, t, a := |v|, Temporaries(r, ark, off, v, k), Affine(r, ark, off, v);
    var u := v + [Sbox(r, a)];
    TemporariesKeep(r, ark, off + n + 1, u, k - 1);
    assert t[..n + 1] == u && t[..n] == v && t[n] == Sbox(r, a);
    if i > 0 {
      TemporaryIs(r, ark, off + n + 1, u, k - 1, i - 1);
    } else {
      assert t[..n + i] == v;
      SboxIsPower(r, a);
    }
  }

  lemma {:induction false} TemporariesKeep<S(!new)>(r: Ring<S>, ark: seq<S>, off: nat, v: seq<S>, k: nat)
    requires off + TempSize(|v|, k) <= |ark|
    ensures Temporaries(r, ark, off, v, k)[..|v|] == v
    decreases k
  {
    hide Affine, Sbox;
    if k > 0 {
      var u := v + [Sbox(r, Affine(r, ark, off, v))];
      TemporariesKeep(r, ark, off + |v| + 1, u, k - 1);
      assert Temporaries(r, ark, off, v, k)[..|v|] == Temporaries(r, ark, off, v, k)[..|v| + 1][..|v|];
    }
  }

  lemma SboxIsPower<S(!new)>(r: Ring<S>, x: S)
    requires CommRing(r)
    ensures Sbox(r, x) == Pow(r, x, 5)
  {
    AdditionChain.FifthIsPower(r, x);
  }

  // ---------------------------------------------------------------- textbook rounds

  // The fifth powers of all entries or, in a partial round, of the last one.
  function Raised<S(!new)>(r: Ring<S>, partial: bool, x: seq<S>): (u: seq<S>)
    ensures |u| == |x|
  {
    seq(|x|, j requires 0 <= j < |x| => if partial && j < |x| - 1 then x[j] else Pow(r, x[j], 5))
  }

  // y is the matrix times u plus the given row of constants.
  ghost predicate Mixes<S(!new)>(r: Ring<S>, mds: seq<S>, rc: seq<S>, row: nat, u: seq<S>, y: seq<S>) {
    && |y| == |u| && row * |u| + |u| <= |rc|
    && forall i :: 0 <= i < |u| ==> y[i] == r.add(Sum(r.Plus(), Product(r, mds, i * |u|, u), |u|), rc[row * |u| + i])
  }

  lemma MixedIs<S(!new)>(r: Ring<S>, mds: seq<S>, rc: seq<S>, row: nat, u: seq<S>)
    requires |mds| == Words(|u|, |u|) && Words(row, |u|) + |u| <= |rc|
    ensures Mixes(r, mds, rc, row, u, AddConstants(r, Multiply(r, mds, u), rc, Words(row, |u|)))
  {
    hide Multiply, Product;
    WordsProduct(row, |u|);
    forall i | 0 <= i < |u|
      ensures Multiply(r, mds, u)[i] == Sum(r.Plus(), Product(r, mds, i * |u|, u), |u|)
    {
      MultiplyIsSum(r, mds, u, i);
    }
  }

  lemma RaisedIs<S(!new)>(r: Ring<S>, x: seq<S>)
    requires CommRing(r)
    ensures SboxAll(r, x) == Raised(r, false, x)
    ensures |x| > 0 ==> SboxLast(r, x) == Raised(r, true, x)
  {
    hide Sbox, Pow;
    forall j | 0 <= j < |x| ensures Sbox(r, x[j]) == Pow(r, x[j], 5) { SboxIsPower(r, x[j]); }
  }

  // Rounds of one kind, each with the next row of constants.
  ghost predicate RoundsOf<S(!new)>(r: Ring<S>, mds: seq<S>, rc: seq<S>, partial: bool, row: nat, states: seq<seq<S>>) {
    forall k :: 0 <= k < |states| - 1 ==> Mixes(r, mds, rc, row + k, Raised(r, partial, states[k]), states[k + 1])
  }

  // The last round of a run, or the first, and the others.
  lemma {:induction false} FirstRound<S(!new)>(
    r: Ring<S>, mds: seq<S>, rc: seq<S>, partial: bool, row: nat, x: seq<S>, states: seq<seq<S>>)
    requires |states| > 0 && RoundsOf(r, mds, rc, partial, row + 1, states)
    requires Mixes(r, mds, rc, row, Raised(r, partial, x), states[0])
    ensures RoundsOf(r, mds, rc, partial, row, [x] + states)
  {
    hide Mixes, Raised;
    var all := [x] + states;
    forall k | 0 <= k < |all| - 1 ensures Mixes(r, mds, rc, row + k, Raised(r, partial, all[k]), all[k + 1]) {
      if k > 0 { assert all[k] == states[k - 1] && all[k + 1] == states[k - 1 + 1] && row + 1 + (k - 1) == row + k; }
    }
  }

  lemma {:induction false} FullRun<S(!new)>(r: Ring<S>, mds: seq<S>, rc: seq<S>, row: nat, x: seq<S>, k: nat)
    returns (states: seq<seq<S>>)
    requires CommRing(r) && |mds| == Words(|x|, |x|) && Words(row, |x|) + Words(k, |x|) <= |rc|
    ensures |states| == k + 1 && states[0] == x && RoundsOf(r, mds, rc, false, row, states)
    ensures states[k] == FullRounds(r, mds, rc, Words(row, |x|), x, k)
    decreases k
  {
    hide Mixes, Raised, AddConstants, Multiply, SboxAll;
    if k == 0 {
      states := [x];
    } else {
      var y := Full(r, mds, rc, Words(row, |x|), x);
      RaisedIs(r, x);
      MixedIs(r, mds, rc, row, Raised(r, false, x));
      states := FullRun(r, mds, rc, row + 1, y, k - 1);
      FirstRound(r, mds, rc, false, row, x, states);
      states := [x] + states;
    }
  }

  lemma {:induction false} PartialRun<S(!new)>(r: Ring<S>, mds: seq<S>, rc: seq<S>, row: nat, x: seq<S>, k: nat)
    returns (states: seq<seq<S>>)
    requires CommRing(r) && |x| > 0 && |mds| == Words(|x|, |x|) && Words(row, |x|) + Words(k, |x|) <= |rc|
    ensures |states| == k + 1 && states[0] == x && RoundsOf(r, mds, rc, true, row, states)
    ensures states[k] == PartialRounds(r, mds, rc, Words(row, |x|), x, k)
    decreases k
  {
    hide Mixes, Raised, AddConstants, Multiply, SboxLast;
    if k == 0 {
      states := [x];
    } else {
      var y := Partial(r, mds, rc, Words(row, |x|), x);
      RaisedIs(r, x);
      MixedIs(r, mds, rc, row, Raised(r, true, x));
      states := PartialRun(r, mds, rc, row + 1, y, k - 1);
      FirstRound(r, mds, rc, true, row, x, states);
      states := [x] + states;
    }
  }

  /** A run of Poseidon: the first row of constants is added; then in each round entries are raised to the fifth
      power (the last one only, in the middle rounds), the matrix is applied and the next row is added. */
  ghost predicate IsRun<S(!new)>(r: Ring<S>, mds: seq<S>, rc: seq<S>, x: seq<S>, partial: nat, h: nat, states: seq<seq<S>>) {
    && |states| == h + partial + h + 1
    && |states[0]| == |x| <= |rc| && (forall i :: 0 <= i < |x| ==> states[0][i] == r.add(x[i], rc[i]))
    && forall k :: 0 <= k < h + partial + h ==>
      Mixes(r, mds, rc, k + 1, Raised(r, h <= k < h + partial, states[k]), states[k + 1])
  }

  /** The plain permutation is where the textbook run ends. */
  lemma PlainIsRun<S(!new)>(r: Ring<S>, mds: seq<S>, rc: seq<S>, x: seq<S>, partial: nat, h: nat)
    returns (states: seq<seq<S>>)
    requires CommRing(r) && |x| > 0 && |mds| == Words(|x|, |x|) && PlainSize(|x|, partial, h) <= |rc|
    ensures IsRun(r, mds, rc, x, partial, h, states)
    ensures states[h + partial + h] == Plain(r, mds, rc, x, partial, h)
  {
    hide Mixes, Raised, FullRounds, PartialRounds;
    var w, x0 := |x|, AddConstants(r, x, rc, 0);
    WordsAdd(1, h, w);
    WordsAdd(1 + h, partial, w);
    assert Words(1, w) == w;
    var a := FullRun(r, mds, rc, 1, x0, h);
    var b := PartialRun(r, mds, rc, 1 + h, a[h], partial);
    var c := FullRun(r, mds, rc, 1 + h + partial, b[partial], h);
    states := a[..h] + b[..partial] + c;
    hide AddConstants;
    forall k | 0 <= k < h + partial + h
      ensures Mixes(r, mds, rc, k + 1, Raised(r, h <= k < h + partial, states[k]), states[k + 1])
    {
      Joined(a, b, c, h, partial, k);
      if k < h {
        assert Mixes(r, mds, rc, 1 + k, Raised(r, false, a[k]), a[k + 1]);
      } else if k < h + partial {
        assert Mixes(r, mds, rc, 1 + h + (k - h), Raised(r, true, b[k - h]), b[k - h + 1]);
      } else {
        assert Mixes(r, mds, rc, 1 + h + partial + (k - h - partial), Raised(r, false, c[k - h - partial]), c[k - h - partial + 1]);
      }
    }
    if h + partial > 0 { Joined(a, b, c, h, partial, 0); }
  }

  // Three sequences of states, each starting where the one before it ends.
  lemma {:induction false} Joined<T>(a: seq<T>, b: seq<T>, c: seq<T>, h: nat, partial: nat, k: nat)
    requires |a| == h + 1 && |b| == partial + 1 && |c| > 0 && b[0] == a[h] && c[0] == b[partial]
    requires k < h + partial + |c| - 1
    ensures var s := a[..h] + b[..partial] + c;
      if k < h then s[k] == a[k] && s[k + 1] == a[k + 1]
      else if k < h + partial then s[k] == b[k - h] && s[k + 1] == b[k - h + 1]
      else s[k] == c[k - h - partial] && s[k + 1] == c[k - h - partial + 1]
  {
  }

  // There is one run from every state.
  lemma {:induction false} RunUnique<S(!new)>(
    r: Ring<S>, mds: seq<S>, rc: seq<S>, x: seq<S>, partial: nat, h: nat, s: seq<seq<S>>, t: seq<seq<S>>, k: nat)
    requires IsRun(r, mds, rc, x, partial, h, s) && IsRun(r, mds, rc, x, partial, h, t) && k <= h + partial + h
    ensures s[k] == t[k]
  {
    hide Product, Raised;
    if k > 0 {
      RunUnique(r, mds, rc, x, partial, h, s, t, k - 1);
      var u := Raised(r, h <= k - 1 < h + partial, s[k - 1]);
      assert Mixes(r, mds, rc, k - 1 + 1, u, s[k - 1 + 1]) && Mixes(r, mds, rc, k - 1 + 1, u, t[k - 1 + 1]);
    }
  }

  /** For every Poseidon instance there are constants for which the batched permutation of every state is where its
      textbook run ends. */
  lemma BatchedIsRun<S(!new)>(r: Ring<S>, mds: seq<S>, w: nat, rc: seq<S>, b: nat, partial: nat, full: nat)
    returns (ark: seq<S>)
    requires CommRing(r) && b > 0 && w > 0 && |mds| == Words(w, w) && |rc| == PlainSize(w, partial, full / 2)
    ensures |ark| == ReadSize(w, b, partial, full)
    ensures forall x, states | |x| == w && IsRun(r, mds, rc, x, partial, full / 2, states) ::
      Permutation(r, mds, ark, x, b, partial, full) == states[full / 2 + partial + full / 2]
  {
    var h := full / 2;
    ark := BatchingIsSound(r, mds, w, rc, b, partial, full);
    hide Permutation, Plain, IsRun;
    forall x, states | |x| == w && IsRun(r, mds, rc, x, partial, h, states)
      ensures |states| == h + partial + h + 1
      ensures Permutation(r, mds, ark, x, b, partial, full) == states[h + partial + h]
    {
      var run := PlainIsRun(r, mds, rc, x, partial, h);
      RunLength(r, mds, rc, x, partial, h, states);
      RunLength(r, mds, rc, x, partial, h, run);
      RunUnique(r, mds, rc, x, partial, h, run, states, h + partial + h);
    }
  }

  lemma RunLength<S(!new)>(r: Ring<S>, mds: seq<S>, rc: seq<S>, x: seq<S>, partial: nat, h: nat, states: seq<seq<S>>)
    requires IsRun(r, mds, rc, x, partial, h, states)
    ensures |states| == h + partial + h + 1
  {
  }
}
