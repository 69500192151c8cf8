/** The layers the hash permutations share, in place on a state array. */
module Layers {
  import opened Algebra
  import opened Sizes
  import opened Poseidon

  // The fifth power of the cells from `begin` on.
  method ApplySbox<S(!new)>(r: Ring<S>, state: array<S>, begin: nat)
    requires begin <= state.Length
    modifies state
    ensures forall k :: begin <= k < state.Length ==> state[k] == Sbox(r, old(state[k]))
    ensures forall k :: 0 <= k < begin ==> state[k] == old(state[k])
  {
    for i := begin to state.Length
      invariant forall k :: begin <= k < i ==> state[k] == Sbox(r, old(state[k]))
      invariant forall k :: 0 <= k < state.Length && !(begin <= k < i) ==> state[k] == old(state[k])
    {
      var buffer := r.Sqr(state[i]);
      buffer := r.Sqr(buffer);
      state[i] := r.mul(buffer, state[i]);
    }
  }

  method ApplyMatrix<S(!new)>(r: Ring<S>, mds: seq<S>, state: array<S>)
    requires CommRing(r) && state.Length > 0 && |mds| == Words(state.Length, state.Length)
    modifies state
    ensures state[..] == Multiply(r, mds, old(state[..]))
  {
    var width := state.Length;
    var res := new S[width](_ => r.zero);
    for i := 0 to width
      invariant forall k :: 0 <= k < i ==> res[k] == Row(r, mds, state[..], k)
      invariant state[..] == old(state[..])
    {
      res[i] := MultiplyRow(r, mds, state, i);
    }
    for i := 0 to width
      invariant forall k :: 0 <= k < i ==> state[k] == res[k]
      invariant forall k :: 0 <= k < width ==> res[k] == Row(r, mds, old(state[..]), k)
    {
      state[i] := res[i];
    }
  }

  method MultiplyRow<S(!new)>(r: Ring<S>, mds: seq<S>, state: array<S>, i: nat) returns (sum: S)
    requires CommRing(r) && i < state.Length && |mds| == Words(state.Length, state.Length)
    ensures sum == Row(r, mds, state[..], i)
  {
    var width := state.Length;
    ghost var x, row := state[..], Words(i, width);
    RowFits(i, width, width);
    WordsProduct(i, width);
    sum := r.mul(mds[i * width], state[0]);
    AddZero(r.Plus(), sum);
    assert Dot(r, mds, row, x, 1) == r.add(Dot(r, mds, row, x, 0), r.mul(mds[row], x[0]));
    for j := 1 to width
      invariant sum == Dot(r, mds, row, x, j)
    {
      var buffer := r.mul(mds[i * width + j], state[j]);
      sum := r.add(sum, buffer);
    }
  }

  // Adds the constants from offset on and returns the offset after them.
  method ApplyConstants<S(!new)>(r: Ring<S>, state: array<S>, ark: seq<S>, offset: nat) returns (next: nat)
    requires offset + state.Length <= |ark|
    modifies state
    ensures next == offset + state.Length && state[..] == AddConstants(r, old(state[..]), ark, offset)
  {
    next := offset;
    for i := 0 to state.Length
      invariant next == offset + i
      invariant forall k :: 0 <= k < i ==> state[k] == r.add(old(state[k]), ark[offset + k])
      invariant forall k :: i <= k < state.Length ==> state[k] == old(state[k])
    {
      state[i] := r.add(state[i], ark[next]);
      next := next + 1;
    }
  }
}
