/** The batched permutation with suitable constants is the plain Poseidon permutation. */
module PoseidonPlain {
  import opened Algebra
  import opened Sizes
  import opened Poseidon
  import opened PoseidonBatch

  function PlainSize(w: nat, partial: nat, h: nat): nat {
    w + Words(h, w) + Words(partial, w) + Words(h, w)
  }

  // Poseidon without batches, with h full rounds on either side: the constants of round after round.
  function Plain<S(!new)>(r: Ring<S>, mds: seq<S>, rc: seq<S>, x: seq<S>, partial: nat, h: nat): seq<S>
    requires |x| > 0 && |mds| == Words(|x|, |x|) && PlainSize(|x|, partial, h) <= |rc|
  {
    var w := |x|;
    var x1 := FullRounds(r, mds, rc, w, AddConstants(r, x, rc, 0), h);
    var x2 := PartialRounds(r, mds, rc, w + Words(h, w), x1, partial);
    FullRounds(r, mds, rc, w + Words(h, w) + Words(partial, w), x2, h)
  }

  // ---------------------------------------------------------------- rounds read only their constants

  // Both constant buffers hold the same n words at o and at p.
  ghost predicate Agree<S>(ark: seq<S>, o: nat, rc: seq<S>, p: nat, n: nat) {
    o + n <= |ark| && p + n <= |rc| && ark[o..o + n] == rc[p..p + n]
  }

  lemma {:induction false} AgreeSplit<S>(ark: seq<S>, o: nat, rc: seq<S>, p: nat, a: nat, b: nat)
    requires Agree(ark, o, rc, p, a + b)
    ensures Agree(ark, o, rc, p, a) && Agree(ark, o + a, rc, p + a, b)
  {
    var n := a + b;
    assert ark[o..o + a] == ark[o..o + n][..a] && rc[p..p + a] == rc[p..p + n][..a];
    assert ark[o + a..o + a + b] == ark[o..o + n][a..] && rc[p + a..p + a + b] == rc[p..p + n][a..];
  }

  lemma {:induction false} AddConstantsAgree<S(!new)>(r: Ring<S>, x: seq<S>, ark: seq<S>, o: nat, rc: seq<S>, p: nat)
    requires Agree(ark, o, rc, p, |x|)
    ensures AddConstants(r, x, ark, o) == AddConstants(r, x, rc, p)
  {
    forall i | 0 <= i < |x|
      ensures r.add(x[i], ark[o + i]) == r.add(x[i], rc[p + i])
    {
      assert ark[o..o + |x|][i] == rc[p..p + |x|][i];
    }
  }

  lemma {:induction false} FullAgree<S(!new)>(r: Ring<S>, mds: seq<S>, ark: seq<S>, o: nat, rc: seq<S>, p: nat, x: seq<S>, k: nat)
    requires |mds| == Words(|x|, |x|) && Agree(ark, o, rc, p, Words(k, |x|))
    ensures FullRounds(r, mds, ark, o, x, k) == FullRounds(r, mds, rc, p, x, k)
    decreases k
  {
    if k > 0 {
      AgreeSplit(ark, o, rc, p, |x|, Words(k - 1, |x|));
      AddConstantsAgree(r, Multiply(r, mds, SboxAll(r, x)), ark, o, rc, p);
      FullAgree(r, mds, ark, o + |x|, rc, p + |x|, Full(r, mds, ark, o, x), k - 1);
    }
  }

  lemma {:induction false} PartialAgree<S(!new)>(r: Ring<S>, mds: seq<S>, ark: seq<S>, o: nat, rc: seq<S>, p: nat, x: seq<S>, k: nat)
    requires |x| > 0 && |mds| == Words(|x|, |x|) && Agree(ark, o, rc, p, Words(k, |x|))
    ensures PartialRounds(r, mds, ark, o, x, k) == PartialRounds(r, mds, rc, p, x, k)
    decreases k
  {
    if k > 0 {
      AgreeSplit(ark, o, rc, p, |x|, Words(k - 1, |x|));
      AddConstantsAgree(r, Multiply(r, mds, SboxLast(r, x)), ark, o, rc, p);
      PartialAgree(r, mds, ark, o + |x|, rc, p + |x|, Partial(r, mds, ark, o, x), k - 1);
    }
  }

  lemma {:induction false} WordsAdd(a: nat, b: nat, n: nat)
    ensures Words(a + b, n) == Words(a, n) + Words(b, n)
  {
    if a > 0 { WordsAdd(a - 1, b, n); }
  }

  lemma {:induction false} PartialSplit<S(!new)>(r: Ring<S>, mds: seq<S>, rc: seq<S>, p: nat, x: seq<S>, a: nat, b: nat)
    requires |x| > 0 && |mds| == Words(|x|, |x|) && p + Words(a, |x|) + Words(b, |x|) <= |rc|
    ensures p + Words(a + b, |x|) <= |rc|
    ensures PartialRounds(r, mds, rc, p, x, a + b)
         == PartialRounds(r, mds, rc, p + Words(a, |x|), PartialRounds(r, mds, rc, p, x, a), b)
    decreases a
  {
    WordsAdd(a, b, |x|);
    if a > 0 { PartialSplit(r, mds, rc, p + |x|, Partial(r, mds, rc, p, x), a - 1, b); }
  }

  // ---------------------------------------------------------------- all batches

  // The words are constants for k batches of the plain partial rounds that start at off.
  ghost predicate AreBatches<S(!new)>(r: Ring<S>, mds: seq<S>, w: nat, rc: seq<S>, off: nat, b: nat, k: nat, words: seq<S>) {
    && b > 0 && w > 0 && |mds| == Words(w, w) && off + Words(Words(k, b), w) <= |rc|
    && |words| == Words(k, BatchSize(w, b))
    && forall ark, o: nat, x {:trigger Batches(r, ark, o, x, b, k)} | |x| == w && Holds(ark, o, words) ::
      Batches(r, ark, o, x, b, k) == PartialRounds(r, mds, rc, off, x, Words(k, b))
  }

  lemma {:induction false} OneMoreBatch<S(!new)>(
    r: Ring<S>, mds: seq<S>, w: nat, rc: seq<S>, off: nat, b: nat, k: nat, first: seq<S>, rest: seq<S>)
    requires k > 0 && IsBatch(r, mds, w, rc, off, b, first)
    requires AreBatches(r, mds, w, rc, off + Words(b, w), b, k - 1, rest)
    ensures AreBatches(r, mds, w, rc, off, b, k, first + rest)
  {
    hide Batched;
    WordsAdd(b, Words(k - 1, b), w);
    assert b + Words(k - 1, b) == Words(k, b);
    assert |first + rest| == Words(k, BatchSize(w, b));
    forall ark, o: nat, x {:trigger Batches(r, ark, o, x, b, k)} | |x| == w && Holds(ark, o, first + rest)
      ensures Batches(r, ark, o, x, b, k) == PartialRounds(r, mds, rc, off, x, Words(k, b))
    {
      HoldsBoth(ark, o, first, rest);
      BatchesStep(r, ark, o, x, b, k);
      PartialSplit(r, mds, rc, off, x, b, Words(k - 1, b));
    }
  }

  lemma {:induction false} BatchesStep<S(!new)>(r: Ring<S>, ark: seq<S>, o: nat, x: seq<S>, b: nat, k: nat)
    requires b > 0 && k > 0 && |x| > 0 && o + Words(k, BatchSize(|x|, b)) <= |ark|
    ensures o + BatchSize(|x|, b) + Words(k - 1, BatchSize(|x|, b)) <= |ark|
    ensures Batches(r, ark, o, x, b, k) == Batches(r, ark, o + BatchSize(|x|, b), Batched(r, ark, o, x, b), b, k - 1)
  {
  }

  lemma {:induction false} BatchesExist<S(!new)>(r: Ring<S>, mds: seq<S>, w: nat, rc: seq<S>, off: nat, b: nat, k: nat)
    returns (words: seq<S>)
    requires CommRing(r) && b > 0 && w > 0 && |mds| == Words(w, w) && off + Words(Words(k, b), w) <= |rc|
    ensures AreBatches(r, mds, w, rc, off, b, k, words)
    decreases k
  {
    if k == 0 {
      words := [];
    } else {
      WordsAdd(b, Words(k - 1, b), w);
      var first := BatchExists(r, mds, w, rc, off, b);
      var rest := BatchesExist(r, mds, w, rc, off + Words(b, w), b, k - 1);
      OneMoreBatch(r, mds, w, rc, off, b, k, first, rest);
      words := first + rest;
    }
  }

  // ---------------------------------------------------------------- the permutation

  lemma {:induction false} HeadAgrees<S(!new)>(r: Ring<S>, mds: seq<S>, ark: seq<S>, rc: seq<S>, x: seq<S>, h: nat)
    requires |mds| == Words(|x|, |x|) && Agree(ark, 0, rc, 0, |x| + Words(h, |x|))
    ensures FullRounds(r, mds, ark, |x|, AddConstants(r, x, ark, 0), h)
         == FullRounds(r, mds, rc, |x|, AddConstants(r, x, rc, 0), h)
  {
    AgreeSplit(ark, 0, rc, 0, |x|, Words(h, |x|));
    AddConstantsAgree(r, x, ark, 0, rc, 0);
    FullAgree(r, mds, ark, |x|, rc, |x|, AddConstants(r, x, rc, 0), h);
  }

  lemma {:induction false} MiddleAgrees<S(!new)>(
    r: Ring<S>, mds: seq<S>, ark: seq<S>, o: nat, rc: seq<S>, p: nat, x: seq<S>, b: nat, n: nat, rest: nat, words: seq<S>)
    requires AreBatches(r, mds, |x|, rc, p, b, n, words) && Holds(ark, o, words)
    requires Agree(ark, o + |words|, rc, p + Words(Words(n, b), |x|), Words(rest, |x|))
    ensures p + Words(Words(n, b) + rest, |x|) <= |rc|
    ensures PartialRounds(r, mds, ark, o + |words|, Batches(r, ark, o, x, b, n), rest)
         == PartialRounds(r, mds, rc, p, x, Words(n, b) + rest)
  {
    hide Words, BatchSize, Batches, PartialRounds;
    var y := Batches(r, ark, o, x, b, n);
    assert y == PartialRounds(r, mds, rc, p, x, Words(n, b));
    PartialAgree(r, mds, ark, o + |words|, rc, p + Words(Words(n, b), |x|), y, rest);
    PartialSplit(r, mds, rc, p, x, Words(n, b), rest);
  }

  // The two permutations, stage by stage.
  lemma {:induction false} Stages<S(!new)>(
    r: Ring<S>, mds: seq<S>, ark: seq<S>, x: seq<S>, b: nat, n: nat, single: nat, h: nat, o1: nat, o2: nat, x1: seq<S>, x2: seq<S>)
    requires b > 0 && |x| > 0 && |mds| == Words(|x|, |x|) && ReadBy(|x|, b, n, single, h) <= |ark|
    requires o1 == |x| + Words(h, |x|) && o2 == o1 + Words(n, BatchSize(|x|, b))
    requires x1 == FullRounds(r, mds, ark, |x|, AddConstants(r, x, ark, 0), h)
    requires x2 == PartialRounds(r, mds, ark, o2, Batches(r, ark, o1, x1, b, n), single)
    ensures Permute(r, mds, ark, x, b, n, single, h) == FullRounds(r, mds, ark, o2 + Words(single, |x|), x2, h)
  {
    hide FullRounds, PartialRounds, Batches;
  }

  lemma {:induction false} PlainStages<S(!new)>(
    r: Ring<S>, mds: seq<S>, rc: seq<S>, x: seq<S>, partial: nat, h: nat, p: nat, x1: seq<S>, x2: seq<S>)
    requires |x| > 0 && |mds| == Words(|x|, |x|) && PlainSize(|x|, partial, h) <= |rc|
    requires p == |x| + Words(h, |x|)
    requires x1 == FullRounds(r, mds, rc, |x|, AddConstants(r, x, rc, 0), h)
    requires x2 == PartialRounds(r, mds, rc, p, x1, partial)
    ensures Plain(r, mds, rc, x, partial, h) == FullRounds(r, mds, rc, p + Words(partial, |x|), x2, h)
  {
    hide FullRounds, PartialRounds;
  }

  // Constants in three parts: as they are, for the batches, as they are.
  ghost predicate InParts<S(!new)>(
    r: Ring<S>, mds: seq<S>, w: nat, rc: seq<S>, b: nat, n: nat, single: nat, h: nat, ark: seq<S>, words: seq<S>) {
    && b > 0 && w > 0 && |mds| == Words(w, w)
    && |rc| == PlainSize(w, Words(n, b) + single, h) && |ark| == ReadBy(w, b, n, single, h)
    && |words| == Words(n, BatchSize(w, b))
    && var p := w + Words(h, w);
    && AreBatches(r, mds, w, rc, p, b, n, words)
    && Agree(ark, 0, rc, 0, p)
    && Holds(ark, p, words)
    && Agree(ark, p + |words|, rc, p + Words(Words(n, b), w), Words(single, w) + Words(h, w))
  }

  lemma {:induction false} Assembled<S(!new)>(
    r: Ring<S>, mds: seq<S>, rc: seq<S>, x: seq<S>, b: nat, n: nat, single: nat, h: nat, ark: seq<S>, words: seq<S>)
    requires InParts(r, mds, |x|, rc, b, n, single, h, ark, words)
    ensures Permute(r, mds, ark, x, b, n, single, h) == Plain(r, mds, rc, x, Words(n, b) + single, h)
  {
    hide Words, BatchSize, Agree, Holds, AreBatches, Batches, PartialRounds, FullRounds, AddConstants, Permute, Plain;
    var w, partial := |x|, Words(n, b) + single;
    var p := w + Words(h, w);
    var o, q := p + |words|, p + Words(Words(n, b), w);
    WordsAdd(Words(n, b), single, w);
    AgreeSplit(ark, o, rc, q, Words(single, w), Words(h, w));
    HeadAgrees(r, mds, ark, rc, x, h);
    var x1 := FullRounds(r, mds, rc, w, AddConstants(r, x, rc, 0), h);
    MiddleAgrees(r, mds, ark, p, rc, p, x1, b, n, single, words);
    var x2 := PartialRounds(r, mds, rc, p, x1, partial);
    Stages(r, mds, ark, x, b, n, single, h, p, o, x1, x2);
    PlainStages(r, mds, rc, x, partial, h, p, x1, x2);
    FullAgree(r, mds, ark, o + Words(single, w), rc, q + Words(single, w), x2, h);
  }

  lemma {:induction false} MakeParts<S(!new)>(
    r: Ring<S>, mds: seq<S>, w: nat, rc: seq<S>, b: nat, n: nat, single: nat, h: nat) returns (ark: seq<S>, words: seq<S>)
    requires CommRing(r) && b > 0 && w > 0 && |mds| == Words(w, w) && |rc| == PlainSize(w, Words(n, b) + single, h)
    ensures InParts(r, mds, w, rc, b, n, single, h, ark, words)
  {
    hide Words, BatchSize, Batches, PartialRounds;
    WordsAdd(Words(n, b), single, w);
    var p := w + Words(h, w);
    words := BatchesExist(r, mds, w, rc, p, b, n);
    var q := p + Words(Words(n, b), w);
    ark := rc[..p] + words + rc[q..];
    assert ark[0..p] == rc[0..p] && ark[p..p + |words|] == words && ark[p + |words|..] == rc[q..];
  }

  /** For every plain Poseidon there is a buffer of constants, of the size that is read, with which the
      batched permutation computes the same function, whatever the batch size. */
  lemma {:induction false} BatchingIsSound<S(!new)>(r: Ring<S>, mds: seq<S>, w: nat, rc: seq<S>, b: nat, partial: nat, full: nat)
    returns (ark: seq<S>)
    requires CommRing(r) && b > 0 && w > 0 && |mds| == Words(w, w) && |rc| == PlainSize(w, partial, full / 2)
    ensures |ark| == ReadSize(w, b, partial, full)
    ensures forall x {:trigger Permutation(r, mds, ark, x, b, partial, full)} | |x| == w ::
      Permutation(r, mds, ark, x, b, partial, full) == Plain(r, mds, rc, x, partial, full / 2)
  {
    var n, single, h := partial / b, partial % b, full / 2;
    WordsProduct(n, b);
    assert partial == Words(n, b) + single;
    var words;
    ark, words := MakeParts(r, mds, w, rc, b, n, single, h);
    forall x {:trigger Permutation(r, mds, ark, x, b, partial, full)} | |x| == w
      ensures Permutation(r, mds, ark, x, b, partial, full) == Plain(r, mds, rc, x, partial, h)
    {
      Assembled(r, mds, rc, x, b, n, single, h, ark, words);
    }
  }
}
