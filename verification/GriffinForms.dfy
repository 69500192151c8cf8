/** The layers of Griffin entry by entry, and the permutation as a run of rounds made of them. */
module GriffinForms {
  import opened Algebra
  import opened Sums
  import opened Sizes
  import opened AdditionChain
  import opened IntegerForms
  import opened Griffin
  import P = Poseidon

  // ---------------------------------------------------------------- the non-linear layer

  // A sequence as a total function.
  function Entry<S(!new)>(r: Ring<S>, s: seq<S>): int -> S { k => if 0 <= k < |s| then s[k] else r.zero }

  // The combination value k is multiplied at, step by step.
  function Running<S(!new)>(r: Ring<S>, y0: S, acc: S, prev: S, xs: seq<S>, k: nat): S
    requires k <= |xs|
  {
    if k == 0 then r.add(r.add(acc, y0), prev) else r.add(r.add(Running(r, y0, acc, prev, xs, k - 1), y0), xs[k - 1])
  }

  lemma {:induction false} RunningShift<S(!new)>(r: Ring<S>, y0: S, acc: S, prev: S, xs: seq<S>, k: nat)
    requires k < |xs|
    ensures Running(r, y0, r.add(r.add(acc, y0), prev), xs[0], xs[1..], k) == Running(r, y0, acc, prev, xs, k + 1)
  {
    if k > 0 {
      RunningShift(r, y0, acc, prev, xs, k - 1);
      assert xs[1..][k - 1] == xs[k];
    } else {
      var z := r.add(r.add(acc, y0), prev);
      assert Running(r, y0, acc, prev, xs, 0) == z;
    }
  }

  lemma {:induction false} TailAt<S(!new)>(r: Ring<S>, y0: S, acc: S, prev: S, ab: seq<S>, xs: seq<S>, k: nat)
    requires |ab| == 2 * |xs| && k < |xs|
    ensures Tail(r, y0, acc, prev, ab, xs)[k]
         == r.mul(Quadratic(r, ab[2 * k], ab[2 * k + 1], Running(r, y0, acc, prev, xs, k)), xs[k])
    decreases k
  {
    hide Quadratic;
    if k > 0 {
      var z := r.add(r.add(acc, y0), prev);
      TailAt(r, y0, z, xs[0], ab[2..], xs[1..], k - 1);
      hide Running;
      RunningShift(r, y0, acc, prev, xs, k - 1);
      assert ab[2..][2 * (k - 1)] == ab[2 * k] && ab[2..][2 * (k - 1) + 1] == ab[2 * k + 1];
    }
  }

  // ((a + (b + y)) + (c + x)) == (((a + b) + c) + y) + x
  lemma Regrouped<S(!new)>(r: Ring<S>, a: S, b: S, c: S, x: S, y: S)
    requires CommRing(r)
    ensures r.add(r.add(a, r.add(b, y)), r.add(c, x)) == r.add(r.add(r.add(r.add(a, b), c), y), x)
  {
    var g := r.Plus();
    AddAssoc(g, a, b, y);
    AddSwap(g, r.add(a, b), y, c, x);
    AddAssoc(g, r.add(r.add(a, b), c), y, x);
  }

  // The combination in closed form: acc + (k + 1) y0 + xs[0] + ... + xs[k - 1].
  lemma {:induction false} RunningIs<S(!new)>(r: Ring<S>, y0: S, acc: S, xs: seq<S>, k: nat)
    requires CommRing(r) && k <= |xs|
    ensures Running(r, y0, acc, r.zero, xs, k)
         == r.add(r.add(acc, r.mul(FromNat(r, k + 1), y0)), Sum(r.Plus(), Entry(r, xs), k))
  {
    var g, f := r.Plus(), Entry(r, xs);
    AddMul(r, FromNat(r, k), r.one, y0);
    MulOne(r, y0);
    if k == 0 {
      MulZero(r, y0);
      AddZero(g, y0);
    } else {
      RunningIs(r, y0, acc, xs, k - 1);
      Regrouped(r, acc, r.mul(FromNat(r, k), y0), Sum(g, f, k - 1), f(k - 1), y0);
    }
  }

  /** The non-linear layer: the fifth root of the first entry, the fifth power of the second, and every later entry
      times z^2 + alpha z + beta, where z is y1 + (i - 1) y0 plus the inputs between the second and it. */
  ghost predicate IsNonLinear<S(!new)>(r: Ring<S>, root: S -> S, ab: seq<S>, x: seq<S>, y: seq<S>) {
    && |y| == |x| >= 2 && |ab| == 2 * (|x| - 2)
    && y[0] == root(x[0]) && y[1] == Pow(r, x[1], 5)
    && forall i :: 2 <= i < |x| ==>
      var z := r.add(r.add(y[1], r.mul(FromNat(r, i - 1), y[0])), Sum(r.Plus(), Entry(r, x[2..]), i - 2));
      y[i] == r.mul(x[i], r.add(r.mul(z, r.add(z, ab[2 * (i - 2)])), ab[2 * (i - 2) + 1]))
  }

  lemma NonLinearIs<S(!new)>(r: Ring<S>, root: S -> S, ab: seq<S>, x: seq<S>)
    requires CommRing(r) && |x| >= 2 && |ab| == 2 * (|x| - 2)
    ensures IsNonLinear(r, root, ab, x, NonLinear(r, root, ab, x))
  {
    var y0, y1, xs, y := root(x[0]), Fifth(r, x[1]), x[2..], NonLinear(r, root, ab, x);
    FifthIsPower(r, x[1]);
    hide Fifth, Pow, FromNat, Sum, Entry, Tail, Running;
    forall i | 2 <= i < |x|
      ensures var z := r.add(r.add(y1, r.mul(FromNat(r, i - 1), y0)), Sum(r.Plus(), Entry(r, xs), i - 2));
        y[i] == r.mul(x[i], r.add(r.mul(z, r.add(z, ab[2 * (i - 2)])), ab[2 * (i - 2) + 1]))
    {
      var k, alpha, beta := i - 2, ab[2 * (i - 2)], ab[2 * (i - 2) + 1];
      TailAt(r, y0, y1, r.zero, ab, xs, k);
      RunningIs(r, y0, y1, xs, k);
      var z := Running(r, y0, y1, r.zero, xs, k);
      MulAdd(r, z, z, alpha);
      MulComm(r, Quadratic(r, alpha, beta, z), xs[k]);
    }
  }

  // ---------------------------------------------------------------- the linear layer

  // The circulant matrices (2, 1, 1) and (3, 2, 1, 1).
  function Circulant(w: nat, d: nat): nat {
    if w == 3 then if d == 0 then 2 else 1 else if d == 0 then 3 else if d == 1 then 2 else 1
  }

  function CirculantTerm<S(!new)>(r: Ring<S>, x: seq<S>, i: int): int -> S {
    j => if 0 <= j < |x| then r.mul(FromNat(r, Circulant(|x|, (j - i) % |x|)), x[j]) else r.zero
  }

  // States of three and four entries are multiplied by a circulant matrix, others are left alone.
  ghost predicate IsLinear<S(!new)>(r: Ring<S>, x: seq<S>, y: seq<S>) {
    && |y| == |x|
    && if |x| == 3 || |x| == 4
       then forall i :: 0 <= i < |x| ==> y[i] == Sum(r.Plus(), CirculantTerm(r, x, i), |x|)
       else y == x
  }

  lemma Linear4Forms<S(!new)>(r: Ring<S>, x: Vector<S>)
    requires CommRing(r)
    ensures Linear4(r, x) == Vector(
      Form(r, Coefficients(3, 2, 1, 1), x), Form(r, Coefficients(1, 3, 2, 1), x),
      Form(r, Coefficients(1, 1, 3, 2), x), Form(r, Coefficients(2, 1, 1, 3), x))
  {
    Linear4Is(r, x);
    hide FromInt, Form, Total, Differences, Linear4;
    TotalForm(r, x);
    DifferenceForms(r, x);
    var ones := Coefficients(1, 1, 1, 1);
    FormAdd(r, Coefficients(2, 1, 0, 0), ones, x);
    FormAdd(r, Coefficients(0, 2, 1, 0), ones, x);
    FormAdd(r, Coefficients(0, 0, 2, 1), ones, x);
    FormAdd(r, Coefficients(1, 0, 0, 2), ones, x);
  }

  lemma Linear3Forms<S(!new)>(r: Ring<S>, x: Vector<S>)
    requires CommRing(r)
    ensures Linear3(r, x) == Vector(
      Form(r, Coefficients(2, 1, 1, 0), x), Form(r, Coefficients(1, 2, 1, 0), x), Form(r, Coefficients(1, 1, 2, 0), x), x.d)
  {
    hide FromInt, Form;
    Variables(r, x);
    FormAdd(r, Coefficients(1, 0, 0, 0), Coefficients(0, 1, 0, 0), x);
    FormAdd(r, Coefficients(1, 1, 0, 0), Coefficients(0, 0, 1, 0), x);
    var sum := Coefficients(1, 1, 1, 0);
    FormAdd(r, Coefficients(1, 0, 0, 0), sum, x);
    FormAdd(r, Coefficients(0, 1, 0, 0), sum, x);
    FormAdd(r, Coefficients(0, 0, 1, 0), sum, x);
  }

  // The row of the matrix for entry i.
  function RowOf(w: nat, i: int): Coefficients {
    if w == 3 then
      if i == 0 then Coefficients(2, 1, 1, 0) else if i == 1 then Coefficients(1, 2, 1, 0) else Coefficients(1, 1, 2, 0)
    else
      if i == 0 then Coefficients(3, 2, 1, 1) else if i == 1 then Coefficients(1, 3, 2, 1)
      else if i == 2 then Coefficients(1, 1, 3, 2) else Coefficients(2, 1, 1, 3)
  }

  lemma RowIs<S(!new)>(r: Ring<S>, x: seq<S>, i: nat)
    requires CommRing(r) && (|x| == 3 || |x| == 4) && i < |x|
    ensures Form(r, RowOf(|x|, i), Vector(x[0], x[1], x[2], if |x| == 4 then x[3] else r.zero))
         == Sum(r.Plus(), CirculantTerm(r, x, i), |x|)
  {
    var k, f, v := RowOf(|x|, i), CirculantTerm(r, x, i), Vector(x[0], x[1], x[2], if |x| == 4 then x[3] else r.zero);
    assert f(0) == r.mul(FromInt(r, k.a), v.a) && f(1) == r.mul(FromInt(r, k.b), v.b) && f(2) == r.mul(FromInt(r, k.c), v.c);
    assert |x| == 4 ==> f(3) == r.mul(FromInt(r, k.d), v.d);
    hide FromInt, Form, Sum;
    FormIsSum(r, k, v, f, |x|);
  }

  lemma LinearIs<S(!new)>(r: Ring<S>, x: seq<S>)
    requires CommRing(r)
    ensures IsLinear(r, x, Linear(r, x))
  {
    if |x| == 3 || |x| == 4 {
      var v := Vector(x[0], x[1], x[2], if |x| == 4 then x[3] else r.zero);
      if |x| == 3 { Linear3Forms(r, v); } else { Linear4Forms(r, v); }
      hide Linear3, Linear4, Form, Sum, CirculantTerm;
      forall i | 0 <= i < |x| ensures Linear(r, x)[i] == Sum(r.Plus(), CirculantTerm(r, x, i), |x|) { RowIs(r, x, i); }
    }
  }

  // ---------------------------------------------------------------- runs

  // A round by way of u and v: the non-linear layer, the linear layer, the given row of constants.
  ghost predicate IsRound<S(!new)>(
    r: Ring<S>, root: S -> S, ab: seq<S>, ark: seq<S>, row: nat, x: seq<S>, u: seq<S>, v: seq<S>, y: seq<S>)
  {
    && IsNonLinear(r, root, ab, x, u) && IsLinear(r, u, v)
    && |y| == |v| && row * |v| + |v| <= |ark| && forall i :: 0 <= i < |v| ==> y[i] == r.add(v[i], ark[row * |v| + i])
  }

  lemma RoundIs<S(!new)>(r: Ring<S>, root: S -> S, ab: seq<S>, ark: seq<S>, row: nat, x: seq<S>) returns (u: seq<S>, v: seq<S>)
    requires CommRing(r) && |x| >= 2 && |ab| == 2 * (|x| - 2) && Words(row, |x|) + |x| <= |ark|
    ensures IsRound(r, root, ab, ark, row, x, u, v, Round(r, root, ab, ark, Words(row, |x|), x))
  {
    hide IsNonLinear, IsLinear, NonLinear, Linear;
    u := NonLinear(r, root, ab, x);
    v := Linear(r, u);
    NonLinearIs(r, root, ab, x);
    LinearIs(r, u);
    WordsProduct(row, |x|);
  }

  // Rounds from the given row of constants on.
  ghost predicate AreRounds<S(!new)>(
    r: Ring<S>, root: S -> S, ab: seq<S>, ark: seq<S>, row: nat, states: seq<seq<S>>, us: seq<seq<S>>, vs: seq<seq<S>>)
  {
    && |states| == |us| + 1 == |vs| + 1
    && forall k :: 0 <= k < |us| ==> IsRound(r, root, ab, ark, row + k, states[k], us[k], vs[k], states[k + 1])
  }

  lemma {:induction false} FirstRound<S(!new)>(
    r: Ring<S>, root: S -> S, ab: seq<S>, ark: seq<S>, row: nat, x: seq<S>, u: seq<S>, v: seq<S>,
    states: seq<seq<S>>, us: seq<seq<S>>, vs: seq<seq<S>>)
    requires AreRounds(r, root, ab, ark, row + 1, states, us, vs) && IsRound(r, root, ab, ark, row, x, u, v, states[0])
    ensures AreRounds(r, root, ab, ark, row, [x] + states, [u] + us, [v] + vs)
  {
    hide IsRound;
    var s, a, b := [x] + states, [u] + us, [v] + vs;
    forall k | 0 <= k < |a| ensures IsRound(r, root, ab, ark, row + k, s[k], a[k], b[k], s[k + 1]) {
      if k > 0 {
        assert s[k] == states[k - 1] && a[k] == us[k - 1] && b[k] == vs[k - 1] && s[k + 1] == states[k - 1 + 1];
        assert row + 1 + (k - 1) == row + k;
      }
    }
  }

  lemma {:induction false} RoundsRun<S(!new)>(r: Ring<S>, root: S -> S, ab: seq<S>, ark: seq<S>, row: nat, x: seq<S>, k: nat)
    returns (states: seq<seq<S>>, us: seq<seq<S>>, vs: seq<seq<S>>)
    requires CommRing(r) && |x| >= 2 && |ab| == 2 * (|x| - 2) && Words(row, |x|) + Words(k, |x|) <= |ark|
    ensures |us| == k && AreRounds(r, root, ab, ark, row, states, us, vs)
    ensures states[0] == x && states[k] == Rounds(r, root, ab, ark, Words(row, |x|), x, k)
    decreases k
  {
    hide IsRound, Round;
    if k == 0 {
      states, us, vs := [x], [], [];
    } else {
      var y := Round(r, root, ab, ark, Words(row, |x|), x);
      var u, v := RoundIs(r, root, ab, ark, row, x);
      states, us, vs := RoundsRun(r, root, ab, ark, row + 1, y, k - 1);
      FirstRound(r, root, ab, ark, row, x, u, v, states, us, vs);
      states, us, vs := [x] + states, [u] + us, [v] + vs;
    }
  }

  /** The permutation is where the run ends that starts from the linear layer and goes through the rounds. */
  lemma PermutationIsRun<S(!new)>(r: Ring<S>, root: S -> S, ab: seq<S>, ark: seq<S>, x: seq<S>, k: nat)
    returns (states: seq<seq<S>>, us: seq<seq<S>>, vs: seq<seq<S>>)
    requires CommRing(r) && |x| >= 2 && |ab| == 2 * (|x| - 2) && Words(k, |x|) <= |ark|
    ensures |us| == k && AreRounds(r, root, ab, ark, 0, states, us, vs) && IsLinear(r, x, states[0])
    ensures states[k] == Permutation(r, root, ab, ark, x, k)
  {
    LinearIs(r, x);
    hide IsLinear, Linear, AreRounds, Rounds;
    states, us, vs := RoundsRun(r, root, ab, ark, 0, Linear(r, x), k);
    RunLength(r, root, ab, ark, 0, states, us, vs);
  }

  lemma RunLength<S(!new)>(
    r: Ring<S>, root: S -> S, ab: seq<S>, ark: seq<S>, row: nat, states: seq<seq<S>>, us: seq<seq<S>>, vs: seq<seq<S>>)
    requires AreRounds(r, root, ab, ark, row, states, us, vs)
    ensures |states| == |us| + 1 == |vs| + 1
  {
  }
}
