/** The Rescue (Marvellous) permutation, and its inverse. */
module Rescue {
  import opened Algebra
  import opened Sizes
  import opened Poseidon
  import opened AdditionChain
  import opened Layers

  function Each<S(!new)>(root: S -> S, x: seq<S>): (y: seq<S>)
    ensures |y| == |x|
  {
    seq(|x|, i requires 0 <= i < |x| => root(x[i]))
  }

  // Fifth powers, matrix, constants, then fifth roots, matrix, constants.
  function Round<S(!new)>(r: Ring<S>, root: S -> S, mds: seq<S>, ark: seq<S>, off: nat, x: seq<S>): (y: seq<S>)
    requires |mds| == Words(|x|, |x|) && off + 2 * |x| <= |ark|
    ensures |y| == |x|
  {
    var z := AddConstants(r, Multiply(r, mds, SboxAll(r, x)), ark, off);
    AddConstants(r, Multiply(r, mds, Each(root, z)), ark, off + |x|)
  }

  function Rounds<S(!new)>(r: Ring<S>, root: S -> S, mds: seq<S>, ark: seq<S>, off: nat, x: seq<S>, k: nat): (y: seq<S>)
    requires |mds| == Words(|x|, |x|) && off + Words(2 * k, |x|) <= |ark|
    ensures |y| == |x|
    decreases k
  {
    if k == 0 then x
    else
      assert Words(2 * k, |x|) == 2 * |x| + Words(2 * (k - 1), |x|);
      Rounds(r, root, mds, ark, off + 2 * |x|, Round(r, root, mds, ark, off, x), k - 1)
  }

  // ---------------------------------------------------------------- inverse

  function SubConstants<S(!new)>(r: Ring<S>, y: seq<S>, ark: seq<S>, off: nat): (x: seq<S>)
    requires off + |y| <= |ark|
    ensures |x| == |y|
  {
    seq(|y|, i requires 0 <= i < |y| => r.Sub(y[i], ark[off + i]))
  }

  ghost predicate InverseMatrix<S(!new)>(r: Ring<S>, mds: seq<S>, inv: seq<S>, w: nat) {
    && |mds| == |inv| == Words(w, w)
    && (forall x {:trigger Multiply(r, inv, Multiply(r, mds, x))} | |x| == w :: Multiply(r, inv, Multiply(r, mds, x)) == x)
    && (forall x {:trigger Multiply(r, mds, Multiply(r, inv, x))} | |x| == w :: Multiply(r, mds, Multiply(r, inv, x)) == x)
  }

  function RoundBack<S(!new)>(r: Ring<S>, root: S -> S, inv: seq<S>, ark: seq<S>, off: nat, y: seq<S>): (x: seq<S>)
    requires |inv| == Words(|y|, |y|) && off + 2 * |y| <= |ark|
    ensures |x| == |y|
  {
    var z := SboxAll(r, Multiply(r, inv, SubConstants(r, y, ark, off + |y|)));
    Each(root, Multiply(r, inv, SubConstants(r, z, ark, off)))
  }

  function RoundsBack<S(!new)>(r: Ring<S>, root: S -> S, inv: seq<S>, ark: seq<S>, off: nat, y: seq<S>, k: nat): (x: seq<S>)
    requires |inv| == Words(|y|, |y|) && off + Words(2 * k, |y|) <= |ark|
    ensures |x| == |y|
    decreases k
  {
    if k == 0 then y
    else
      assert Words(2 * k, |y|) == 2 * |y| + Words(2 * (k - 1), |y|);
      RoundBack(r, root, inv, ark, off, RoundsBack(r, root, inv, ark, off + 2 * |y|, y, k - 1))
  }

  lemma ConstantsBack<S(!new)>(r: Ring<S>, x: seq<S>, ark: seq<S>, off: nat)
    requires CommRing(r) && off + |x| <= |ark|
    ensures SubConstants(r, AddConstants(r, x, ark, off), ark, off) == x
    ensures AddConstants(r, SubConstants(r, x, ark, off), ark, off) == x
  {
    forall i | 0 <= i < |x|
      ensures r.Sub(r.add(x[i], ark[off + i]), ark[off + i]) == x[i] == r.add(r.Sub(x[i], ark[off + i]), ark[off + i])
    {
      AddSub(r.Plus(), x[i], ark[off + i]);
    }
  }

  lemma PowersBack<S(!new)>(r: Ring<S>, root: S -> S, x: seq<S>)
    requires FifthRoot(r, root)
    ensures Each(root, SboxAll(r, x)) == x && SboxAll(r, Each(root, x)) == x
  {
    forall i | 0 <= i < |x|
      ensures root(Sbox(r, x[i])) == x[i] == Sbox(r, root(x[i]))
    {
      Undone(r, root, x[i]);
      assert Sbox(r, x[i]) == Fifth(r, x[i]) && Sbox(r, root(x[i])) == Fifth(r, root(x[i]));
    }
  }

  lemma RoundUndone<S(!new)>(r: Ring<S>, root: S -> S, mds: seq<S>, inv: seq<S>, ark: seq<S>, off: nat, x: seq<S>)
    requires CommRing(r) && FifthRoot(r, root) && InverseMatrix(r, mds, inv, |x|) && off + 2 * |x| <= |ark|
    ensures RoundBack(r, root, inv, ark, off, Round(r, root, mds, ark, off, x)) == x
    ensures Round(r, root, mds, ark, off, RoundBack(r, root, inv, ark, off, x)) == x
  {
    hide SboxAll, Each, Multiply, AddConstants, SubConstants, FifthRoot;
    var a := SboxAll(r, x);
    var z := AddConstants(r, Multiply(r, mds, a), ark, off);
    PowersBack(r, root, x);
    PowersBack(r, root, z);
    ConstantsBack(r, Multiply(r, mds, a), ark, off);
    ConstantsBack(r, Multiply(r, mds, Each(root, z)), ark, off + |x|);
    var b := Multiply(r, inv, SubConstants(r, x, ark, off + |x|));
    var y := SboxAll(r, b);
    PowersBack(r, root, b);
    PowersBack(r, root, Multiply(r, inv, SubConstants(r, y, ark, off)));
    ConstantsBack(r, y, ark, off);
    ConstantsBack(r, x, ark, off + |x|);
  }

  /** For any number of rounds, any constants and any invertible matrix, the permutation is a
      bijection: running the rounds backwards undoes it, on both sides. */
  lemma {:induction false} PermutationBijective<S(!new)>(
    r: Ring<S>, root: S -> S, mds: seq<S>, inv: seq<S>, ark: seq<S>, off: nat, x: seq<S>, k: nat)
    requires CommRing(r) && FifthRoot(r, root) && InverseMatrix(r, mds, inv, |x|) && off + Words(2 * k, |x|) <= |ark|
    ensures RoundsBack(r, root, inv, ark, off, Rounds(r, root, mds, ark, off, x, k), k) == x
    ensures Rounds(r, root, mds, ark, off, RoundsBack(r, root, inv, ark, off, x, k), k) == x
    decreases k
  {
    hide Round, RoundBack;
    if k > 0 {
      var w := |x|;
      assert Words(2 * k, w) == 2 * w + Words(2 * (k - 1), w);
      RoundUndone(r, root, mds, inv, ark, off, x);
      PermutationBijective(r, root, mds, inv, ark, off + 2 * w, Round(r, root, mds, ark, off, x), k - 1);
      PermutationBijective(r, root, mds, inv, ark, off + 2 * w, x, k - 1);
      RoundUndone(r, root, mds, inv, ark, off, RoundsBack(r, root, inv, ark, off + 2 * w, x, k - 1));
    }
  }

  // ---------------------------------------------------------------- in place

  class Context<S(!new)> {
    const r: Ring<S>
    const rounds: nat
    const state: array<S>
    const mds: seq<S>
    const ark: seq<S>

    ghost predicate Valid() {
      CommRing(r) && state.Length > 0 && |mds| == Words(state.Length, state.Length) && |ark| == Words(2 * rounds, state.Length)
    }

    constructor (r: Ring<S>, init: seq<S>, mds: seq<S>, ark: seq<S>, rounds: nat)
      requires CommRing(r) && |init| > 0 && |mds| == Words(|init|, |init|) && |ark| == Words(2 * rounds, |init|)
      ensures Valid() && fresh(state) && state[..] == init
      ensures this.r == r && this.mds == mds && this.ark == ark && this.rounds == rounds
    {
      this.r, this.mds, this.ark, this.rounds := r, mds, ark, rounds;
      state := new S[|init|](i requires 0 <= i < |init| => init[i]);
      new;
      assert state[..] == init;
    }

    method ApplyNonlinearAlpha()
      requires Valid()
      modifies state
      ensures state[..] == SboxAll(r, old(state[..]))
    {
      ApplySbox(r, state, 0);
    }

    method ApplyNonlinearAlphaInv()
      requires Valid()
      modifies state
      ensures state[..] == Each(ChainRoot(r), old(state[..]))
    {
      hide Pow;
      for i := 0 to state.Length
        invariant forall k :: 0 <= k < i ==> state[k] == ChainRoot(r)(old(state[k]))
        invariant forall k :: i <= k < state.Length ==> state[k] == old(state[k])
      {
        state[i] := AlphaInv(r, state[i]);
      }
    }

    method ApplyRound(key: nat) returns (next: nat)
      requires Valid() && key + 2 * state.Length <= |ark|
      modifies state
      ensures next == key + 2 * state.Length
      ensures state[..] == Round(r, ChainRoot(r), mds, ark, key, old(state[..]))
    {
      hide Pow, SboxAll, Each, Multiply, AddConstants;
      ApplyNonlinearAlpha();
      ApplyMatrix(r, mds, state);
      next := ApplyConstants(r, state, ark, key);
      ApplyNonlinearAlphaInv();
      ApplyMatrix(r, mds, state);
      next := ApplyConstants(r, state, ark, next);
    }

    /** The permutation, in place; it reads each constant once, in order, and all of them. */
    method ApplyPermutation() returns (key: nat)
      requires Valid()
      modifies state
      ensures state[..] == Rounds(r, ChainRoot(r), mds, ark, 0, old(state[..]), rounds)
      ensures key == |ark|
    {
      hide Pow, Words, Round, Rounds;
      var w := state.Length;
      key := 0;
      for i := 0 to rounds
        invariant key + Words(2 * (rounds - i), w) == |ark|
        invariant Rounds(r, ChainRoot(r), mds, ark, key, state[..], rounds - i)
               == Rounds(r, ChainRoot(r), mds, ark, 0, old(state[..]), rounds)
      {
        RoundsStep(r, ChainRoot(r), mds, ark, key, state[..], rounds - i);
        key := ApplyRound(key);
      }
      NoMoreRounds(r, ChainRoot(r), mds, ark, key, state[..]);
    }
  }

  lemma {:induction false} RoundsStep<S(!new)>(r: Ring<S>, root: S -> S, mds: seq<S>, ark: seq<S>, off: nat, x: seq<S>, k: nat)
    requires k > 0 && |mds| == Words(|x|, |x|) && off + Words(2 * k, |x|) <= |ark|
    ensures Words(2 * k, |x|) == 2 * |x| + Words(2 * (k - 1), |x|)
    ensures Rounds(r, root, mds, ark, off, x, k)
         == Rounds(r, root, mds, ark, off + 2 * |x|, Round(r, root, mds, ark, off, x), k - 1)
  {
    hide Round;
    assert Words(2 * k, |x|) == 2 * |x| + Words(2 * (k - 1), |x|);
  }

  lemma {:induction false} NoMoreRounds<S(!new)>(r: Ring<S>, root: S -> S, mds: seq<S>, ark: seq<S>, off: nat, x: seq<S>)
    requires |mds| == Words(|x|, |x|) && off <= |ark|
    ensures Words(2 * 0, |x|) == 0 && Rounds(r, root, mds, ark, off, x, 0) == x
  {
  }
}
