/** The Griffin permutation as it is written: in place, with an accumulator carried through the loop. */
module GriffinContext {
  import opened Algebra
  import opened AdditionChain
  import opened Sizes
  import opened Layers
  import opened Griffin

  // One more value of the tail.
  lemma {:induction false} TailStep<S(!new)>(r: Ring<S>, y0: S, acc: S, prev: S, ab: seq<S>, xs: seq<S>, done: seq<S>, z: S, y: S)
    requires |ab| == 2 * |xs| && xs != [] && z == r.add(r.add(acc, y0), prev)
    requires y == r.mul(Quadratic(r, ab[0], ab[1], z), xs[0])
    ensures done + Tail(r, y0, acc, prev, ab, xs) == done + [y] + Tail(r, y0, z, xs[0], ab[2..], xs[1..])
  {
    assert Tail(r, y0, acc, prev, ab, xs) == [y] + Tail(r, y0, z, xs[0], ab[2..], xs[1..]);
  }

  class Context<S(!new)> {
    const r: Ring<S>
    const rounds: nat
    const state: array<S>
    const ab: seq<S>
    const ark: seq<S>

    // State sizes are 3 and the multiples of 4.
    ghost predicate Valid() {
      && CommRing(r) && state.Length >= 3
      && |ab| == 2 * (state.Length - 2) && |ark| == Words(rounds, state.Length)
    }

    constructor (r: Ring<S>, init: seq<S>, ab: seq<S>, ark: seq<S>, rounds: nat)
      requires CommRing(r) && |init| >= 3 && |ab| == 2 * (|init| - 2) && |ark| == Words(rounds, |init|)
      ensures Valid() && fresh(state) && state[..] == init
      ensures this.r == r && this.ab == ab && this.ark == ark && this.rounds == rounds
    {
      this.r, this.ab, this.ark, this.rounds := r, ab, ark, rounds;
      state := new S[|init|](i requires 0 <= i < |init| => init[i]);
      new;
      assert state[..] == init;
    }

    method ApplyNonLinearLayer()
      requires Valid()
      modifies state
      ensures state[..] == NonLinear(r, ChainRoot(r), ab, old(state[..]))
    {
      hide Pow, Words, Tail, Quadratic;
      ghost var x := state[..];
      state[0] := AlphaInv(r, state[0]);
      var tmp := r.Sqr(state[1]);
      tmp := r.Sqr(tmp);
      MulComm(r, state[1], tmp);
      state[1] := r.mul(state[1], tmp);
      ghost var y0, y1 := state[0], state[1];
      assert y0 == ChainRoot(r)(x[0]) && y1 == Fifth(r, x[1]);
      var acc := state[1];
      tmp := r.zero;
      var n := state.Length - 2;
      ghost var whole := Tail(r, y0, y1, r.zero, ab, x[2..]);
      assert state[2..2] + whole == whole && ab[0..] == ab;
      for i := 0 to n
        invariant state[0] == y0 && state[1] == y1 && state[2 + i..] == x[2 + i..]
        invariant state[2..2 + i] + Tail(r, y0, acc, tmp, ab[2 * i..], x[2 + i..]) == whole
      {
        ghost var done, before, prev, xi := state[2..2 + i], acc, tmp, state[2 + i];
        assert xi == x[2 + i..][0];
        acc := r.add(acc, state[0]);
        acc := r.add(acc, tmp);
        var res := QuadraticAt(i, acc);
        res := r.mul(res, state[2 + i]);
        tmp := state[2 + i];
        state[2 + i] := res;
        TailStep(r, y0, before, prev, ab[2 * i..], x[2 + i..], done, acc, res);
        assert ab[2 * i..][2..] == ab[2 * (i + 1)..] && x[2 + i..][1..] == x[2 + i + 1..];
        assert state[2..2 + i + 1] == done + [res];
      }
      NoTail(r, y0, acc, tmp, ab[2 * n..], x[2 + n..]);
      assert state[..] == [y0, y1] + state[2..];
      assert state[2..2 + n] == state[2..];
    }

    method QuadraticAt(i: nat, acc: S) returns (res: S)
      requires Valid() && i < state.Length - 2
      ensures res == Quadratic(r, ab[2 * i], ab[2 * i + 1], acc)
    {
      res := r.Sqr(acc);
      var tmp := r.mul(acc, ab[2 * i]);
      res := r.add(res, tmp);
      res := r.add(res, ab[2 * i + 1]);
    }

    method ApplyLinearLayer3()
      requires Valid() && state.Length == 3
      modifies state
      ensures state[..] == Linear(r, old(state[..]))
    {
      var tmp := r.add(state[0], state[1]);
      tmp := r.add(tmp, state[2]);
      state[0] := r.add(state[0], tmp);
      state[1] := r.add(state[1], tmp);
      state[2] := r.add(state[2], tmp);
    }

    method ApplyLinearLayer4()
      requires Valid() && state.Length == 4
      modifies state
      ensures state[..] == Linear(r, old(state[..]))
    {
      var sum := r.add(state[0], state[1]);
      sum := r.add(sum, state[2]);
      sum := r.add(sum, state[3]);
      var x0 := state[0];
      state[0] := r.add(state[0], sum);
      state[0] := r.add(state[0], x0);
      state[0] := r.add(state[0], state[1]);
      var xi := state[1];
      state[1] := r.add(state[1], sum);
      state[1] := r.add(state[1], xi);
      state[1] := r.add(state[1], state[2]);
      xi := state[2];
      state[2] := r.add(state[2], sum);
      state[2] := r.add(state[2], xi);
      state[2] := r.add(state[2], state[3]);
      xi := state[3];
      state[3] := r.add(state[3], sum);
      state[3] := r.add(state[3], xi);
      state[3] := r.add(state[3], x0);
    }

    method ApplyLinearLayer()
      requires Valid()
      modifies state
      ensures state[..] == Linear(r, old(state[..]))
    {
      hide Linear3, Linear4, Words;
      if state.Length == 3 {
        ApplyLinearLayer3();
      } else if state.Length == 4 {
        ApplyLinearLayer4();
      }
    }

    method ApplyOneRound(key: nat) returns (next: nat)
      requires Valid() && key + state.Length <= |ark|
      modifies state
      ensures next == key + state.Length
      ensures state[..] == Round(r, ChainRoot(r), ab, ark, key, old(state[..]))
    {
      hide Pow, Words, NonLinear, Linear;
      ApplyNonLinearLayer();
      ApplyLinearLayer();
      next := ApplyConstants(r, state, ark, key);
    }

    /** The permutation, in place; it reads each constant once, in order, and all of them. */
    method ApplyPermutation() returns (key: nat)
      requires Valid()
      modifies state
      ensures state[..] == Permutation(r, ChainRoot(r), ab, ark, old(state[..]), rounds)
      ensures key == |ark|
    {
      hide Pow, Words, Linear, Round, Rounds;
      key := 0;
      ApplyLinearLayer();
      ghost var x, w, root := state[..], state.Length, ChainRoot(r);
      for i := 0 to rounds
        invariant key + Words(rounds - i, w) == |ark|
        invariant Rounds(r, root, ab, ark, key, state[..], rounds - i) == Rounds(r, root, ab, ark, 0, x, rounds)
      {
        RoundsStep(r, root, ab, ark, key, state[..], rounds - i);
        key := ApplyOneRound(key);
      }
      NoRounds(r, root, ab, ark, key, state[..]);
    }
  }

  lemma {:induction false} NoTail<S(!new)>(r: Ring<S>, y0: S, acc: S, prev: S, ab: seq<S>, xs: seq<S>)
    requires |ab| == 2 * |xs| == 0
    ensures Tail(r, y0, acc, prev, ab, xs) == []
  {
  }

  lemma {:induction false} RoundsStep<S(!new)>(r: Ring<S>, root: S -> S, ab: seq<S>, ark: seq<S>, off: nat, x: seq<S>, k: nat)
    requires k > 0 && |x| >= 2 && |ab| == 2 * (|x| - 2) && off + Words(k, |x|) <= |ark|
    ensures Words(k, |x|) == |x| + Words(k - 1, |x|)
    ensures Rounds(r, root, ab, ark, off, x, k) == Rounds(r, root, ab, ark, off + |x|, Round(r, root, ab, ark, off, x), k - 1)
  {
    hide Round;
  }

  lemma {:induction false} NoRounds<S(!new)>(r: Ring<S>, root: S -> S, ab: seq<S>, ark: seq<S>, off: nat, x: seq<S>)
    requires |x| >= 2 && |ab| == 2 * (|x| - 2) && off <= |ark|
    ensures Words(0, |x|) == 0 && Rounds(r, root, ab, ark, off, x, 0) == x
  {
  }
}
