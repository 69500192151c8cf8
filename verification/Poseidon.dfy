/** The Poseidon permutation: full rounds, partial rounds, and batches of partial rounds that are
    evaluated through precomputed linear combinations.  Vectors are sequences of field elements. */
module Poseidon {
  import opened Algebra
  import opened Sizes

  // ---------------------------------------------------------------- rounds on vectors

  function Sbox<S(!new)>(r: Ring<S>, x: S): S { r.mul(r.Sqr(r.Sqr(x)), x) }

  // a[off] * x[0] + ... + a[off + n - 1] * x[n - 1]
  function Dot<S(!new)>(r: Ring<S>, a: seq<S>, off: nat, x: seq<S>, n: nat): S
    requires off + n <= |a| && n <= |x|
  {
    if n == 0 then r.zero else r.add(Dot(r, a, off, x, n - 1), r.mul(a[off + n - 1], x[n - 1]))
  }

  // A linear combination of all of x, then one more constant.
  function Affine<S(!new)>(r: Ring<S>, a: seq<S>, off: nat, x: seq<S>): S
    requires off + |x| < |a|
  {
    r.add(Dot(r, a, off, x, |x|), a[off + |x|])
  }

  function SboxAll<S(!new)>(r: Ring<S>, x: seq<S>): (y: seq<S>)
    ensures |y| == |x|
  {
    seq(|x|, i requires 0 <= i < |x| => Sbox(r, x[i]))
  }

  function SboxLast<S(!new)>(r: Ring<S>, x: seq<S>): (y: seq<S>)
    requires |x| > 0
    ensures |y| == |x|
  {
    seq(|x|, i requires 0 <= i < |x| => if i == |x| - 1 then Sbox(r, x[i]) else x[i])
  }

  // A square matrix, row after row.
  function Row<S(!new)>(r: Ring<S>, mds: seq<S>, x: seq<S>, i: int): S
    requires 0 <= i < |x| && |mds| == Words(|x|, |x|)
  {
    RowFits(i, |x|, |x|);
    Dot(r, mds, Words(i, |x|), x, |x|)
  }

  function Multiply<S(!new)>(r: Ring<S>, mds: seq<S>, x: seq<S>): (y: seq<S>)
    requires |mds| == Words(|x|, |x|)
    ensures |y| == |x|
  {
    seq(|x|, i requires 0 <= i < |x| => Row(r, mds, x, i))
  }

  function AddConstants<S(!new)>(r: Ring<S>, x: seq<S>, ark: seq<S>, off: nat): (y: seq<S>)
    requires off + |x| <= |ark|
    ensures |y| == |x|
  {
    seq(|x|, i requires 0 <= i < |x| => r.add(x[i], ark[off + i]))
  }

  // ---------------------------------------------------------------- batched partial rounds

  // Constants for k temporaries over n values, and for k outputs over n values.
  function TempSize(n: nat, k: nat): nat
    decreases k
  {
    if k == 0 then 0 else n + 1 + TempSize(n + 1, k - 1)
  }

  function OutSize(n: nat, k: nat): nat
    decreases k
  {
    if k == 0 then 0 else n + 1 + OutSize(n, k - 1)
  }

  function BatchSize(w: nat, b: nat): nat
    requires b > 0
  {
    TempSize(w, b - 1) + OutSize(w + b - 1, w)
  }

  lemma {:induction false} TempSizeSplit(n: nat, k: nat)
    ensures 2 * TempSize(n, k) == 2 * (k + n * k) + k * (k - 1)
    decreases k
  {
    if k > 0 {
      TempSizeSplit(n + 1, k - 1);
      assert (n + 1) * (k - 1) == n * k - n + k - 1;
      assert (k - 1) * (k - 2) == k * (k - 1) - 2 * (k - 1);
    }
  }

  lemma {:induction false} OutSizeProduct(n: nat, k: nat)
    ensures OutSize(n, k) == k * (n + 1)
    decreases k
  {
    if k > 0 { OutSizeProduct(n, k - 1); }
  }

  // v followed by k temporaries, each the s-box of a combination of everything before it.
  function Temporaries<S(!new)>(r: Ring<S>, ark: seq<S>, off: nat, v: seq<S>, k: nat): (t: seq<S>)
    requires off + TempSize(|v|, k) <= |ark|
    ensures |t| == |v| + k
    decreases k
  {
    if k == 0 then v
    else Temporaries(r, ark, off + |v| + 1, v + [Sbox(r, Affine(r, ark, off, v))], k - 1)
  }

  // k combinations of v.
  function Outputs<S(!new)>(r: Ring<S>, ark: seq<S>, off: nat, v: seq<S>, k: nat): (y: seq<S>)
    requires off + OutSize(|v|, k) <= |ark|
    ensures |y| == k
    decreases k
  {
    if k == 0 then [] else [Affine(r, ark, off, v)] + Outputs(r, ark, off + |v| + 1, v, k - 1)
  }

  // One batch of b partial rounds.
  function Batched<S(!new)>(r: Ring<S>, ark: seq<S>, off: nat, x: seq<S>, b: nat): (y: seq<S>)
    requires b > 0 && |x| > 0 && off + BatchSize(|x|, b) <= |ark|
    ensures |y| == |x|
  {
    var v := Temporaries(r, ark, off, SboxLast(r, x), b - 1);
    Outputs(r, ark, off + TempSize(|x|, b - 1), v, |x|)
  }

  // ---------------------------------------------------------------- sequences of rounds

  function Full<S(!new)>(r: Ring<S>, mds: seq<S>, ark: seq<S>, off: nat, x: seq<S>): (y: seq<S>)
    requires |mds| == Words(|x|, |x|) && off + |x| <= |ark|
    ensures |y| == |x|
  {
    AddConstants(r, Multiply(r, mds, SboxAll(r, x)), ark, off)
  }

  function Partial<S(!new)>(r: Ring<S>, mds: seq<S>, ark: seq<S>, off: nat, x: seq<S>): (y: seq<S>)
    requires |x| > 0 && |mds| == Words(|x|, |x|) && off + |x| <= |ark|
    ensures |y| == |x|
  {
    AddConstants(r, Multiply(r, mds, SboxLast(r, x)), ark, off)
  }

  function FullRounds<S(!new)>(r: Ring<S>, mds: seq<S>, ark: seq<S>, off: nat, x: seq<S>, k: nat): (y: seq<S>)
    requires |mds| == Words(|x|, |x|) && off + Words(k, |x|) <= |ark|
    ensures |y| == |x|
    decreases k
  {
    if k == 0 then x else FullRounds(r, mds, ark, off + |x|, Full(r, mds, ark, off, x), k - 1)
  }

  function PartialRounds<S(!new)>(r: Ring<S>, mds: seq<S>, ark: seq<S>, off: nat, x: seq<S>, k: nat): (y: seq<S>)
    requires |x| > 0 && |mds| == Words(|x|, |x|) && off + Words(k, |x|) <= |ark|
    ensures |y| == |x|
    decreases k
  {
    if k == 0 then x else PartialRounds(r, mds, ark, off + |x|, Partial(r, mds, ark, off, x), k - 1)
  }

  function Batches<S(!new)>(r: Ring<S>, ark: seq<S>, off: nat, x: seq<S>, b: nat, k: nat): (y: seq<S>)
    requires b > 0 && |x| > 0 && off + Words(k, BatchSize(|x|, b)) <= |ark|
    ensures |y| == |x|
    decreases k
  {
    if k == 0 then x
    else Batches(r, ark, off + BatchSize(|x|, b), Batched(r, ark, off, x, b), b, k - 1)
  }

  // ---------------------------------------------------------------- the permutation

  // Constants read by one addition, h full rounds, n batches, some single partial rounds, h full rounds.
  function ReadBy(w: nat, b: nat, n: nat, single: nat, h: nat): nat
    requires b > 0
  {
    w + Words(h, w) + Words(n, BatchSize(w, b)) + Words(single, w) + Words(h, w)
  }

  function Permute<S(!new)>(r: Ring<S>, mds: seq<S>, ark: seq<S>, x: seq<S>, b: nat, n: nat, single: nat, h: nat): (y: seq<S>)
    requires b > 0 && |x| > 0 && |mds| == Words(|x|, |x|) && ReadBy(|x|, b, n, single, h) <= |ark|
    ensures |y| == |x|
  {
    var w := |x|;
    var x1 := FullRounds(r, mds, ark, w, AddConstants(r, x, ark, 0), h);
    var off1 := w + Words(h, w);
    var x2 := Batches(r, ark, off1, x1, b, n);
    var off2 := off1 + Words(n, BatchSize(w, b));
    var x3 := PartialRounds(r, mds, ark, off2, x2, single);
    FullRounds(r, mds, ark, off2 + Words(single, w), x3, h)
  }

  function ReadSize(w: nat, b: nat, partial: nat, full: nat): nat
    requires b > 0
  {
    ReadBy(w, b, partial / b, partial % b, full / 2)
  }

  function Permutation<S(!new)>(r: Ring<S>, mds: seq<S>, ark: seq<S>, x: seq<S>, b: nat, partial: nat, full: nat): (y: seq<S>)
    requires b > 0 && |x| > 0 && |mds| == Words(|x|, |x|) && ReadSize(|x|, b, partial, full) <= |ark|
    ensures |y| == |x|
  {
    Permute(r, mds, ark, x, b, partial / b, partial % b, full / 2)
  }

  // The number of constants a context is given.
  function NumberOfConstants(b: nat, partial: nat, full: nat, w: nat): int
    requires b > 0
  {
    full * w + (partial / b) * ConstantsPerBatch(b - 1, w) + (partial % b) * w + w
  }

  function ConstantsPerBatch(tmp: nat, w: nat): int {
    tmp + w * tmp + (tmp * (tmp - 1)) / 2 + ((tmp + w) * w + w)
  }

  lemma BatchAccounted(w: nat, b: nat)
    requires b > 0
    ensures ConstantsPerBatch(b - 1, w) == BatchSize(w, b)
  {
    TempsAccounted(w, b - 1);
    OutputsAccounted(w, b - 1);
  }

  lemma TempsAccounted(w: nat, tmp: nat)
    ensures TempSize(w, tmp) == tmp + w * tmp + (tmp * (tmp - 1)) / 2
  {
    TempSizeSplit(w, tmp);
    HalfOf(tmp * (tmp - 1), TempSize(w, tmp) - tmp - w * tmp);
  }

  lemma OutputsAccounted(w: nat, tmp: nat)
    ensures OutSize(w + tmp, w) == (tmp + w) * w + w
  {
    OutSizeProduct(w + tmp, w);
    Distribute(w, w + tmp);
  }

  lemma Distribute(w: nat, n: nat)
    ensures w * (n + 1) == n * w + w
  {
  }

  lemma HalfOf(x: int, y: int)
    requires x == 2 * y
    ensures x / 2 == y
  {
  }

  lemma EvenPart(full: nat, w: nat)
    ensures full * w == (full / 2) * w + (full / 2) * w + (full % 2) * w
  {
    var h, o := full / 2, full % 2;
    assert full == 2 * h + o;
    assert (2 * h + o) * w == h * w + h * w + o * w;
  }

  /** The permutation reads the announced number of constants when the number of full rounds is even,
      and one state's worth less when it is odd: never past the end. */
  lemma ConstantsAccounted(w: nat, b: nat, partial: nat, full: nat)
    requires b > 0
    ensures NumberOfConstants(b, partial, full, w) == ReadSize(w, b, partial, full) + (full % 2) * w
  {
    hide Words, BatchSize, ConstantsPerBatch;
    BatchAccounted(w, b);
    EvenPart(full, w);
    WordsProduct(full / 2, w);
    WordsProduct(partial % b, w);
    WordsProduct(partial / b, BatchSize(w, b));
  }
}
