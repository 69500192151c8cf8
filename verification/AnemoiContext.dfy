/** The Anemoi permutation as it is written: in place, the x half of the state before the y half. */
module AnemoiContext {
  import opened Algebra
  import opened Sizes
  import opened AdditionChain
  import opened Anemoi

  method MultiplyByG<S(!new)>(r: Ring<S>, v: S) returns (res: S)
    ensures res == TimesG(r, v)
  {
    var tmp := r.add(v, v);
    tmp := r.add(tmp, v);
    tmp := r.add(tmp, tmp);
    res := r.add(tmp, v);
  }

  method MixTwo<S(!new)>(r: Ring<S>, state: array<S>, base: nat)
    requires base + 2 <= state.Length
    modifies state
    ensures state[base..base + 2] == Mix(r, old(state[base..base + 2]))
    ensures forall k :: 0 <= k < state.Length && !(base <= k < base + 2) ==> state[k] == old(state[k])
  {
    hide TimesG;
    var tmp := MultiplyByG(r, state[base + 1]);
    state[base] := r.add(state[base], tmp);
    tmp := MultiplyByG(r, state[base]);
    state[base + 1] := r.add(state[base + 1], tmp);
  }

  method MixThree<S(!new)>(r: Ring<S>, state: array<S>, base: nat)
    requires base + 3 <= state.Length
    modifies state
    ensures state[base..base + 3] == Mix(r, old(state[base..base + 3]))
    ensures forall k :: 0 <= k < state.Length && !(base <= k < base + 3) ==> state[k] == old(state[k])
  {
    hide TimesG;
    var tmp := MultiplyByG(r, state[base + 2]);
    tmp := r.add(tmp, state[base]);
    state[base + 2] := r.add(state[base + 2], state[base + 1]);
    var gx0 := MultiplyByG(r, state[base]);
    state[base + 2] := r.add(state[base + 2], gx0);
    state[base] := r.add(state[base + 2], tmp);
    state[base + 1] := r.add(state[base + 1], tmp);
  }

  method MixFour<S(!new)>(r: Ring<S>, state: array<S>, base: nat)
    requires base + 4 <= state.Length
    modifies state
    ensures state[base..base + 4] == Mix(r, old(state[base..base + 4]))
    ensures forall k :: 0 <= k < state.Length && !(base <= k < base + 4) ==> state[k] == old(state[k])
  {
    hide TimesG;
    state[base] := r.add(state[base], state[base + 1]);
    state[base + 2] := r.add(state[base + 2], state[base + 3]);
    var tmp := MultiplyByG(r, state[base]);
    state[base + 3] := r.add(state[base + 3], tmp);
    tmp := r.add(state[base + 1], state[base + 2]);
    state[base + 1] := MultiplyByG(r, tmp);
    state[base] := r.add(state[base], state[base + 1]);
    tmp := MultiplyByG(r, state[base + 3]);
    state[base + 2] := r.add(state[base + 2], tmp);
    state[base + 1] := r.add(state[base + 1], state[base + 2]);
    state[base + 3] := r.add(state[base + 3], state[base]);
  }

  class Context<S(!new)> {
    const r: Ring<S>
    const l: nat
    const rounds: nat
    const state: array<S>
    const ark: seq<S>
    const beta: S
    const delta: S

    ghost predicate Valid() {
      CommRing(r) && 1 <= l <= 4 && state.Length == 2 * l && |ark| == Words(2 * rounds, l)
    }

    ghost function Parameters(): Parameters<S> { Anemoi.Parameters(ChainRoot(r), beta, delta, ark, l, rounds) }

    constructor (r: Ring<S>, l: nat, rounds: nat, init: seq<S>, ark: seq<S>, beta: S, delta: S)
      requires CommRing(r) && 1 <= l <= 4 && |init| == 2 * l && |ark| == Words(2 * rounds, l)
      ensures Valid() && fresh(state) && state[..] == init
      ensures this.r == r && Parameters() == Anemoi.Parameters(ChainRoot(r), beta, delta, ark, l, rounds)
    {
      this.r, this.l, this.rounds, this.ark, this.beta, this.delta := r, l, rounds, ark, beta, delta;
      state := new S[|init|](i requires 0 <= i < |init| => init[i]);
      new;
      assert state[..] == init;
    }

    // Where the constants of a round start, for the x half and for the y half.
    method Offsets(round: nat) returns (x: nat, y: nat)
      requires Valid() && round < rounds
      ensures x == Words(round, l) && y == Words(rounds, l) + x
      ensures x + l <= |ark| && y + l <= |ark|
    {
      WordsProduct(round, l);
      WordsProduct(rounds, l);
      ConstantInside(l, rounds, round);
      x, y := l * round, rounds * l + l * round;
    }

    method ApplyConstantsAddition(round: nat)
      requires Valid() && round < rounds
      modifies state
      ensures state[..] == Constants(r, ark, l, rounds, round, old(state[..]))
    {
      hide Words;
      var x, y := Offsets(round);
      for i := 0 to l
        invariant forall k :: 0 <= k < l ==>
          state[k] == if k < i then r.add(old(state[k]), ark[x + k]) else old(state[k])
        invariant forall k :: l <= k < 2 * l ==>
          state[k] == if k < l + i then r.add(old(state[k]), ark[y + (k - l)]) else old(state[k])
      {
        state[i] := r.add(state[i], ark[x + i]);
        state[l + i] := r.add(state[l + i], ark[y + i]);
      }
      ConstantsFrom(r, ark, l, rounds, round, old(state[..]), state[..], x, y);
    }

    method ApplyShiftState()
      requires Valid()
      modifies state
      ensures state[..] == old(state[..l]) + old(state[l + 1..]) + [old(state[l])]
    {
      var tmp := state[l];
      for i := 0 to l - 1
        invariant forall k :: 0 <= k < 2 * l ==>
          state[k] == if l <= k < l + i then old(state[k + 1]) else old(state[k])
      {
        state[l + i] := state[l + i + 1];
      }
      state[2 * l - 1] := tmp;
    }

    // The matrix on the l cells from base on.
    method ApplyMix(base: nat)
      requires Valid() && 2 <= l && base + l <= 2 * l
      modifies state
      ensures state[..] == old(state[..base]) + Mix(r, old(state[base..base + l])) + old(state[base + l..])
    {
      hide Mix;
      if l == 2 {
        MixTwo(r, state, base);
      } else if l == 3 {
        MixThree(r, state, base);
      } else {
        MixFour(r, state, base);
      }
      assert state[..] == state[..base] + state[base..base + l] + state[base + l..];
      assert state[..base] == old(state[..base]) && state[base + l..] == old(state[base + l..]);
    }

    // One step of rotation of the y half.
    method RotateY()
      requires Valid() && 2 <= l
      modifies state
      ensures state[..] == old(state[..l]) + old(state[l + 1..]) + [old(state[l])]
    {
      if l == 2 {
        var tmp := state[2];
        state[2] := state[3];
        state[3] := tmp;
      } else {
        ApplyShiftState();
      }
    }

    method ApplyLinearLayer()
      requires Valid()
      modifies state
      ensures state[..] == Linear(r, old(state[..]), l)
    {
      hide Mix;
      if l == 1 {
        MixTwo(r, state, 0);
        assert state[0..2] == state[..] && old(state[0..2]) == old(state[..]);
      } else {
        ghost var s := state[..];
        ApplyMix(0);
        ghost var s1 := state[..];
        assert s1 == Mix(r, s[..l]) + s[l..] by { assert s[..0] == [] && s[0..l] == s[..l]; }
        RotateY();
        ghost var s2 := state[..];
        assert s2 == s1[..l] + s1[l + 1..] + [s1[l]];
        ApplyMix(l);
        assert state[..] == s2[..l] + Mix(r, s2[l..]) by { assert s2[l..l + l] == s2[l..] && s2[l + l..] == []; }
        LinearFrom(r, s, s1, s2, l);
      }
    }

    method ApplySbox(i: nat)
      requires Valid() && i < l
      modifies state
      ensures (state[i], state[l + i]) == Flystel(r, ChainRoot(r), beta, delta, old(state[i]), old(state[l + i]))
      ensures forall k :: 0 <= k < 2 * l && k != i && k != l + i ==> state[k] == old(state[k])
    {
      hide Pow;
      var tmp := r.Sqr(state[l + i]);
      tmp := r.mul(tmp, beta);
      state[i] := r.Sub(state[i], tmp);
      tmp := AlphaInv(r, state[i]);
      state[l + i] := r.Sub(state[l + i], tmp);
      tmp := r.Sqr(state[l + i]);
      tmp := r.mul(tmp, beta);
      tmp := r.add(tmp, delta);
      state[i] := r.add(state[i], tmp);
    }

    method ApplyFlystel()
      requires Valid()
      modifies state
      ensures state[..] == Flystels(r, ChainRoot(r), beta, delta, old(state[..]), l)
    {
      hide Flystel;
      ghost var root := ChainRoot(r);
      for i := 0 to l
        invariant forall k :: 0 <= k < i ==>
          (state[k], state[l + k]) == Flystel(r, root, beta, delta, old(state[k]), old(state[l + k]))
        invariant forall k :: i <= k < l ==> state[k] == old(state[k])
        invariant forall k :: l + i <= k < 2 * l ==> state[k] == old(state[k])
      {
        ApplySbox(i);
      }
      FlystelsFrom(r, root, beta, delta, old(state[..]), state[..], l);
    }

    method ApplyOneRound(round: nat)
      requires Valid() && round < rounds
      modifies state
      ensures state[..] == Round(r, Parameters(), round, old(state[..]))
    {
      hide Words, Constants, Linear, Flystels;
      ApplyConstantsAddition(round);
      ApplyLinearLayer();
      ApplyFlystel();
    }

    /** The permutation, in place: all rounds, then one more linear layer. */
    method ApplyPermutation()
      requires Valid()
      modifies state
      ensures state[..] == Permutation(r, Parameters(), 0, old(state[..]))
    {
      hide Words, Round, Linear;
      ghost var p := Parameters();
      for i := 0 to rounds
        invariant Permutation(r, p, i, state[..]) == Permutation(r, p, 0, old(state[..]))
      {
        ApplyOneRound(i);
      }
      ApplyLinearLayer();
    }
  }

  lemma LinearFrom<S(!new)>(r: Ring<S>, s: seq<S>, s1: seq<S>, s2: seq<S>, l: nat)
    requires 2 <= l <= 4 && |s| == 2 * l
    requires s1 == Mix(r, s[..l]) + s[l..] && s2 == s1[..l] + s1[l + 1..] + [s1[l]]
    ensures s2[..l] + Mix(r, s2[l..]) == Linear(r, s, l)
  {
    hide Mix;
    assert s1[..l] == Mix(r, s[..l]) && s1[l + 1..] == s[l + 1..] && s1[l] == s[l];
    assert s2[..l] == s1[..l] && s2[l..] == s[l + 1..] + [s[l]];
  }

  lemma ConstantsFrom<S(!new)>(
    r: Ring<S>, ark: seq<S>, l: nat, rounds: nat, round: nat, s: seq<S>, t: seq<S>, x: nat, y: nat)
    requires round < rounds && |ark| == Words(2 * rounds, l) && |s| == |t| == 2 * l
    requires x == Words(round, l) && y == Words(rounds, l) + x && x + l <= |ark| && y + l <= |ark|
    requires forall k :: 0 <= k < l ==> t[k] == r.add(s[k], ark[x + k])
    requires forall k :: l <= k < 2 * l ==> t[k] == r.add(s[k], ark[y + (k - l)])
    ensures t == Constants(r, ark, l, rounds, round, s)
  {
    hide Words;
    forall k | 0 <= k < 2 * l
      ensures t[k] == r.add(s[k], Constant(ark, l, rounds, round, k))
    {
    }
  }

  lemma FlystelsFrom<S(!new)>(r: Ring<S>, root: S -> S, beta: S, delta: S, s: seq<S>, t: seq<S>, l: nat)
    requires |s| == |t| == 2 * l
    requires forall k :: 0 <= k < l ==> (t[k], t[l + k]) == Flystel(r, root, beta, delta, s[k], s[l + k])
    ensures t == Flystels(r, root, beta, delta, s, l)
  {
    hide Flystel;
    forall k | 0 <= k < 2 * l
      ensures t[k] == Flystels(r, root, beta, delta, s, l)[k]
    {
      var i := if k < l then k else k - l;
      assert (t[i], t[l + i]) == Flystel(r, root, beta, delta, s[i], s[l + i]);
    }
  }
}
