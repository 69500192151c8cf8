/** The Rescue permutation as a run of half rounds, entry by entry. */
module RescueForms {
  import opened Algebra
  import opened Sizes
  import opened Poseidon
  import opened PoseidonForms
  import opened Rescue

  // Fifth powers in the even half rounds, fifth roots in the odd ones.
  function Substituted<S(!new)>(r: Ring<S>, root: S -> S, odd: bool, x: seq<S>): (u: seq<S>)
    ensures |u| == |x|
  {
    seq(|x|, j requires 0 <= j < |x| => if odd then root(x[j]) else Pow(r, x[j], 5))
  }

  /** From the given row of constants on: each half round substitutes all entries, applies the matrix and adds the
      next row. */
  ghost predicate HalfRounds<S(!new)>(r: Ring<S>, root: S -> S, mds: seq<S>, ark: seq<S>, row: nat, states: seq<seq<S>>) {
    forall k :: 0 <= k < |states| - 1 ==>
      Mixes(r, mds, ark, row + k, Substituted(r, root, k % 2 == 1, states[k]), states[k + 1])
  }

  lemma SubstitutedIs<S(!new)>(r: Ring<S>, root: S -> S, x: seq<S>)
    requires CommRing(r)
    ensures SboxAll(r, x) == Substituted(r, root, false, x) && Each(root, x) == Substituted(r, root, true, x)
  {
    hide Sbox, Pow;
    forall j | 0 <= j < |x| ensures Sbox(r, x[j]) == Pow(r, x[j], 5) { SboxIsPower(r, x[j]); }
  }

  lemma {:induction false} TwoMore<S(!new)>(
    r: Ring<S>, root: S -> S, mds: seq<S>, ark: seq<S>, row: nat, x: seq<S>, z: seq<S>, states: seq<seq<S>>)
    requires |states| > 0 && HalfRounds(r, root, mds, ark, row + 2, states)
    requires Mixes(r, mds, ark, row, Substituted(r, root, false, x), z)
    requires Mixes(r, mds, ark, row + 1, Substituted(r, root, true, z), states[0])
    ensures HalfRounds(r, root, mds, ark, row, [x, z] + states)
  {
    hide Mixes, Substituted;
    var all := [x, z] + states;
    forall k | 0 <= k < |all| - 1
      ensures Mixes(r, mds, ark, row + k, Substituted(r, root, k % 2 == 1, all[k]), all[k + 1])
    {
      if k > 1 {
        assert all[k] == states[k - 2] && all[k + 1] == states[k - 2 + 1];
        assert row + 2 + (k - 2) == row + k && (k - 2) % 2 == k % 2;
      }
    }
  }

  /** The permutation is where the run of its half rounds ends. */
  lemma {:induction false} RoundsAreHalfRounds<S(!new)>(
    r: Ring<S>, root: S -> S, mds: seq<S>, ark: seq<S>, row: nat, x: seq<S>, k: nat) returns (states: seq<seq<S>>)
    requires CommRing(r) && |mds| == Words(|x|, |x|) && Words(row, |x|) + Words(2 * k, |x|) <= |ark|
    ensures |states| == 2 * k + 1 && states[0] == x && HalfRounds(r, root, mds, ark, row, states)
    ensures states[2 * k] == Rounds(r, root, mds, ark, Words(row, |x|), x, k)
    decreases k
  {
    hide Mixes, Substituted, AddConstants, Multiply, SboxAll, Each;
    if k == 0 {
      states := [x];
    } else {
      var w, off := |x|, Words(row, |x|);
      assert Words(2 * k, w) == w + w + Words(2 * (k - 1), w);
      assert Words(row + 1, w) == off + w && Words(row + 2, w) == off + w + w;
      var z := AddConstants(r, Multiply(r, mds, SboxAll(r, x)), ark, off);
      var y := AddConstants(r, Multiply(r, mds, Each(root, z)), ark, off + w);
      SubstitutedIs(r, root, x);
      SubstitutedIs(r, root, z);
      MixedIs(r, mds, ark, row, SboxAll(r, x));
      MixedIs(r, mds, ark, row + 1, Each(root, z));
      states := RoundsAreHalfRounds(r, root, mds, ark, row + 2, y, k - 1);
      TwoMore(r, root, mds, ark, row, x, z, states);
      assert y == Round(r, root, mds, ark, off, x);
      states := [x, z] + states;
    }
  }
}
