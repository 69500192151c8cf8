/** The Poseidon permutation as it is written: a state updated in place and a running offset into the
    round constants. */
module PoseidonContext {
  import opened Algebra
  import opened Sizes
  import opened Poseidon
  import opened Layers

  // ---------------------------------------------------------------- one step of the recursive parts

  lemma {:induction false} TemporariesStep<S(!new)>(r: Ring<S>, ark: seq<S>, off: nat, v: seq<S>, k: nat, t: S)
    requires k > 0 && off + TempSize(|v|, k) <= |ark|
    ensures off + |v| < |ark| && TempSize(|v|, k) == |v| + 1 + TempSize(|v| + 1, k - 1)
    ensures t == Sbox(r, Affine(r, ark, off, v)) ==>
      Temporaries(r, ark, off, v, k) == Temporaries(r, ark, off + |v| + 1, v + [t], k - 1)
  {
  }

  lemma {:induction false} OutputsStep<S(!new)>(r: Ring<S>, ark: seq<S>, off: nat, v: seq<S>, k: nat, done: seq<S>)
    requires k > 0 && off + OutSize(|v|, k) <= |ark|
    ensures off + |v| < |ark| && OutSize(|v|, k) == |v| + 1 + OutSize(|v|, k - 1)
    ensures done + Outputs(r, ark, off, v, k)
         == done + [Affine(r, ark, off, v)] + Outputs(r, ark, off + |v| + 1, v, k - 1)
  {
    assert Outputs(r, ark, off, v, k) == [Affine(r, ark, off, v)] + Outputs(r, ark, off + |v| + 1, v, k - 1);
  }

  lemma {:induction false} FullStep<S(!new)>(r: Ring<S>, mds: seq<S>, ark: seq<S>, off: nat, x: seq<S>, k: nat)
    requires k > 0 && |mds| == Words(|x|, |x|) && off + Words(k, |x|) <= |ark|
    ensures Words(k, |x|) == |x| + Words(k - 1, |x|)
    ensures FullRounds(r, mds, ark, off, x, k)
         == FullRounds(r, mds, ark, off + |x|, AddConstants(r, Multiply(r, mds, SboxAll(r, x)), ark, off), k - 1)
  {
  }

  lemma {:induction false} PartialStep<S(!new)>(r: Ring<S>, mds: seq<S>, ark: seq<S>, off: nat, x: seq<S>, k: nat)
    requires k > 0 && |x| > 0 && |mds| == Words(|x|, |x|) && off + Words(k, |x|) <= |ark|
    ensures Words(k, |x|) == |x| + Words(k - 1, |x|)
    ensures PartialRounds(r, mds, ark, off, x, k)
         == PartialRounds(r, mds, ark, off + |x|, AddConstants(r, Multiply(r, mds, SboxLast(r, x)), ark, off), k - 1)
  {
  }

  lemma {:induction false} BatchesStep<S(!new)>(r: Ring<S>, ark: seq<S>, off: nat, x: seq<S>, b: nat, k: nat)
    requires k > 0 && b > 0 && |x| > 0 && off + Words(k, BatchSize(|x|, b)) <= |ark|
    ensures Words(k, BatchSize(|x|, b)) == BatchSize(|x|, b) + Words(k - 1, BatchSize(|x|, b))
    ensures Batches(r, ark, off, x, b, k) == Batches(r, ark, off + BatchSize(|x|, b), Batched(r, ark, off, x, b), b, k - 1)
  {
    hide Batched, BatchSize;
  }

  lemma {:induction false} BatchedIs<S(!new)>(r: Ring<S>, ark: seq<S>, off: nat, x: seq<S>, b: nat, y: seq<S>, v: seq<S>)
    requires b > 0 && |x| > 0 && off + BatchSize(|x|, b) <= |ark|
    requires y == SboxLast(r, x) && v == Temporaries(r, ark, off, y, b - 1)
    ensures Batched(r, ark, off, x, b) == Outputs(r, ark, off + TempSize(|x|, b - 1), v, |x|)
  {
  }

  lemma {:induction false} NoMoreTemporaries<S(!new)>(r: Ring<S>, ark: seq<S>, off: nat, v: seq<S>)
    requires off <= |ark|
    ensures TempSize(|v|, 0) == 0 && Temporaries(r, ark, off, v, 0) == v
  {
  }

  lemma {:induction false} NoMoreOutputs<S(!new)>(r: Ring<S>, ark: seq<S>, off: nat, v: seq<S>)
    requires off <= |ark|
    ensures OutSize(|v|, 0) == 0 && Outputs(r, ark, off, v, 0) == []
  {
  }

  lemma {:induction false} NoMoreRounds<S(!new)>(r: Ring<S>, mds: seq<S>, ark: seq<S>, off: nat, x: seq<S>)
    requires |x| > 0 && |mds| == Words(|x|, |x|) && off <= |ark|
    ensures Words(0, |x|) == 0
    ensures FullRounds(r, mds, ark, off, x, 0) == x && PartialRounds(r, mds, ark, off, x, 0) == x
  {
  }

  lemma {:induction false} NoMoreBatches<S(!new)>(r: Ring<S>, ark: seq<S>, off: nat, x: seq<S>, b: nat)
    requires b > 0 && |x| > 0 && off <= |ark|
    ensures Words(0, BatchSize(|x|, b)) == 0 && Batches(r, ark, off, x, b, 0) == x
  {
    hide BatchSize;
  }

  class Context<S(!new)> {
    const r: Ring<S>
    const width: nat
    const batchSize: nat
    const partialRounds: nat
    const fullRounds: nat
    const state: array<S>
    const mds: seq<S>
    const ark: seq<S>

    ghost predicate Valid() {
      && CommRing(r) && width > 0 && batchSize > 0
      && state.Length == width && |mds| == Words(width, width)
    }

    ghost predicate HasAllConstants() {
      batchSize > 0 && |ark| == NumberOfConstants(batchSize, partialRounds, fullRounds, width)
    }

    // The state is a copy of the initial values.
    constructor (r: Ring<S>, init: seq<S>, mds: seq<S>, ark: seq<S>, batchSize: nat, partialRounds: nat, fullRounds: nat)
      requires CommRing(r) && |init| > 0 && batchSize > 0 && |mds| == Words(|init|, |init|)
      requires |ark| == NumberOfConstants(batchSize, partialRounds, fullRounds, |init|)
      ensures Valid() && HasAllConstants() && fresh(state) && state[..] == init
      ensures this.r == r && this.mds == mds && this.ark == ark
      ensures this.batchSize == batchSize && this.partialRounds == partialRounds && this.fullRounds == fullRounds
    {
      this.r, this.mds, this.ark := r, mds, ark;
      this.batchSize, this.partialRounds, this.fullRounds := batchSize, partialRounds, fullRounds;
      width := |init|;
      state := new S[|init|](i requires 0 <= i < |init| => init[i]);
      new;
      assert state[..] == init;
    }

    method Sboxes(all: bool)
      requires Valid()
      modifies state
      ensures state[..] == if all then SboxAll(r, old(state[..])) else SboxLast(r, old(state[..]))
    {
      ApplySbox(r, state, if all then 0 else width - 1);
    }

    // The combination of the first n values with the constants from offset on.
    method Temporary(values: array<S>, n: nat, offset: nat) returns (sum: S, next: nat)
      requires Valid() && 0 < n <= values.Length && offset + n < |ark|
      ensures next == offset + n + 1 && sum == Sbox(r, Affine(r, ark, offset, values[..n]))
    {
      ghost var x := values[..n];
      sum := r.mul(ark[offset], values[0]);
      AddZero(r.Plus(), sum);
      assert Dot(r, ark, offset, x, 1) == r.add(Dot(r, ark, offset, x, 0), r.mul(ark[offset], x[0]));
      next := offset + 1;
      for j := 1 to n
        invariant next == offset + j && sum == Dot(r, ark, offset, x, j)
      {
        var buffer := r.mul(ark[next], values[j]);
        next := next + 1;
        sum := r.add(sum, buffer);
      }
      sum := r.add(sum, ark[next]);
      next := next + 1;
      var buffer := r.Sqr(sum);
      buffer := r.Sqr(buffer);
      sum := r.mul(buffer, sum);
    }

    method Output(values: array<S>, offset: nat) returns (sum: S, next: nat)
      requires Valid() && 0 < values.Length && offset + values.Length < |ark|
      ensures next == offset + values.Length + 1 && sum == Affine(r, ark, offset, values[..])
    {
      ghost var x := values[..];
      sum := r.mul(ark[offset], values[0]);
      AddZero(r.Plus(), sum);
      assert Dot(r, ark, offset, x, 1) == r.add(Dot(r, ark, offset, x, 0), r.mul(ark[offset], x[0]));
      next := offset + 1;
      for j := 1 to values.Length
        invariant next == offset + j && sum == Dot(r, ark, offset, x, j)
      {
        var buffer := r.mul(values[j], ark[next]);
        MulComm(r, values[j], ark[next]);
        AddComm(r.Plus(), buffer, sum);
        next := next + 1;
        sum := r.add(buffer, sum);
      }
      sum := r.add(sum, ark[next]);
      next := next + 1;
    }

    // v followed by the temporaries computed from it.
    method ComputeTemporaries(v: array<S>, offset: nat) returns (next: nat)
      requires Valid() && v.Length == width + batchSize - 1 && v != state
      requires offset + TempSize(width, batchSize - 1) <= |ark|
      modifies v
      ensures next == offset + TempSize(width, batchSize - 1)
      ensures v[..] == Temporaries(r, ark, offset, old(v[..width]), batchSize - 1)
    {
      hide TempSize, Temporaries, Affine;
      var tmp := batchSize - 1;
      next := offset;
      ghost var start := v[..width];
      for i := 0 to tmp
        invariant next + TempSize(width + i, tmp - i) == offset + TempSize(width, tmp)
        invariant Temporaries(r, ark, next, v[..width + i], tmp - i) == Temporaries(r, ark, offset, start, tmp)
      {
        ghost var before, o := v[..width + i], next;
        TemporariesStep(r, ark, o, before, tmp - i, r.zero);
        var sum;
        sum, next := Temporary(v, width + i, next);
        v[width + i] := sum;
        assert v[..width + i + 1] == before + [sum];
        TemporariesStep(r, ark, o, before, tmp - i, sum);
      }
      assert v[..width + tmp] == v[..];
      NoMoreTemporaries(r, ark, next, v[..]);
    }

    method ComputeOutputs(v: array<S>, offset: nat) returns (next: nat)
      requires Valid() && v.Length >= width && v != state
      requires offset + OutSize(v.Length, width) <= |ark|
      modifies state
      ensures next == offset + OutSize(v.Length, width)
      ensures state[..] == Outputs(r, ark, offset, v[..], width)
    {
      hide OutSize, Outputs, Affine;
      next := offset;
      ghost var x := v[..];
      assert state[..0] + Outputs(r, ark, next, x, width) == Outputs(r, ark, offset, x, width);
      for i := 0 to width
        invariant next + OutSize(v.Length, width - i) == offset + OutSize(v.Length, width)
        invariant state[..i] + Outputs(r, ark, next, x, width - i) == Outputs(r, ark, offset, x, width)
      {
        ghost var done := state[..i];
        OutputsStep(r, ark, next, x, width - i, done);
        var sum;
        sum, next := Output(v, next);
        state[i] := sum;
        assert state[..i + 1] == done + [sum];
      }
      NoMoreOutputs(r, ark, next, x);
      assert state[..width] + [] == state[..];
    }

    method ApplyBatchedPartialRound(offset: nat) returns (next: nat)
      requires Valid() && offset + BatchSize(width, batchSize) <= |ark|
      modifies state
      ensures next == offset + BatchSize(width, batchSize)
      ensures state[..] == Batched(r, ark, offset, old(state[..]), batchSize)
    {
      hide TempSize, OutSize, Temporaries, Outputs, Batched;
      var v := new S[width + batchSize - 1](_ => r.zero);
      for i := 0 to width
        invariant v[..i] == state[..i] && state[..] == old(state[..])
      {
        v[i] := state[i];
      }
      var buffer := r.Sqr(v[width - 1]);
      buffer := r.Sqr(buffer);
      v[width - 1] := r.mul(buffer, v[width - 1]);
      ghost var y := SboxLast(r, state[..]);
      assert v[..width] == y;
      next := ComputeTemporaries(v, offset);
      assert v[..] == Temporaries(r, ark, offset, y, batchSize - 1);
      next := ComputeOutputs(v, next);
      BatchedIs(r, ark, offset, old(state[..]), batchSize, y, v[..]);
    }

    method ApplyFullRounds(h: nat, offset: nat) returns (next: nat)
      requires Valid() && offset + Words(h, width) <= |ark|
      modifies state
      ensures next == offset + Words(h, width)
      ensures state[..] == FullRounds(r, mds, ark, offset, old(state[..]), h)
    {
      hide Words, FullRounds, SboxAll, Multiply, AddConstants;
      next := offset;
      for i := 0 to h
        invariant next + Words(h - i, width) == offset + Words(h, width)
        invariant FullRounds(r, mds, ark, next, state[..], h - i) == FullRounds(r, mds, ark, offset, old(state[..]), h)
      {
        FullStep(r, mds, ark, next, state[..], h - i);
        Sboxes(true);
        ApplyMatrix(r, mds, state);
        next := ApplyConstants(r, state, ark, next);
      }
      NoMoreRounds(r, mds, ark, next, state[..]);
    }

    method ApplyBatches(n: nat, offset: nat) returns (next: nat)
      requires Valid() && offset + Words(n, BatchSize(width, batchSize)) <= |ark|
      modifies state
      ensures next == offset + Words(n, BatchSize(width, batchSize))
      ensures state[..] == Batches(r, ark, offset, old(state[..]), batchSize, n)
    {
      hide Words, BatchSize, Batches, Batched;
      ghost var size := BatchSize(width, batchSize);
      next := offset;
      for i := 0 to n
        invariant next + Words(n - i, size) == offset + Words(n, size)
        invariant Batches(r, ark, next, state[..], batchSize, n - i) == Batches(r, ark, offset, old(state[..]), batchSize, n)
      {
        BatchesStep(r, ark, next, state[..], batchSize, n - i);
        next := ApplyBatchedPartialRound(next);
      }
      NoMoreBatches(r, ark, next, state[..], batchSize);
    }

    method ApplyPartialRounds(n: nat, offset: nat) returns (next: nat)
      requires Valid() && offset + Words(n, width) <= |ark|
      modifies state
      ensures next == offset + Words(n, width)
      ensures state[..] == PartialRounds(r, mds, ark, offset, old(state[..]), n)
    {
      hide Words, PartialRounds, SboxLast, Multiply, AddConstants;
      next := offset;
      for i := 0 to n
        invariant next + Words(n - i, width) == offset + Words(n, width)
        invariant PartialRounds(r, mds, ark, next, state[..], n - i) == PartialRounds(r, mds, ark, offset, old(state[..]), n)
      {
        PartialStep(r, mds, ark, next, state[..], n - i);
        Sboxes(false);
        ApplyMatrix(r, mds, state);
        next := ApplyConstants(r, state, ark, next);
      }
      NoMoreRounds(r, mds, ark, next, state[..]);
    }

    /** The permutation, in place.  Constants are read one after the other and never past their end;
        all are read exactly when the number of full rounds is even. */
    method ApplyPermutation() returns (read: nat)
      requires Valid() && HasAllConstants()
      modifies state
      ensures ReadSize(width, batchSize, partialRounds, fullRounds) <= |ark|
      ensures state[..] == Permutation(r, mds, ark, old(state[..]), batchSize, partialRounds, fullRounds)
      ensures read <= |ark| && (read == |ark| <==> fullRounds % 2 == 0)
    {
      hide Words, BatchSize, NumberOfConstants, FullRounds, PartialRounds, Batches, AddConstants;
      ConstantsAccounted(width, batchSize, partialRounds, fullRounds);
      read := ApplyConstants(r, state, ark, 0);
      read := ApplyFullRounds(fullRounds / 2, read);
      read := ApplyBatches(partialRounds / batchSize, read);
      read := ApplyPartialRounds(partialRounds % batchSize, read);
      read := ApplyFullRounds(fullRounds / 2, read);
    }
  }
}
