/** The layers of Anemoi entry by entry: the mixing matrices, the Flystel as a relation without roots, and the
    permutation as a run of rounds made of them. */
module AnemoiForms {
  import opened Algebra
  import opened Sums
  import opened Sizes
  import opened AdditionChain
  import opened IntegerForms
  import opened Anemoi

  // ---------------------------------------------------------------- matrices

  // The entry of the matrix for l values, with the generator g = 7.
  function Matrix(l: nat, i: int, j: int): int {
    if l == 2 then
      if i == 0 then if j == 0 then 1 else 7
      else if j == 0 then 7 else 7 * 7 + 1
    else if l == 3 then
      if j == 1 then 1
      else if i == 0 then 7 + 1 else if i == 1 then if j == 0 then 1 else 7 else if j == 0 then 7 else 1
    else
      if i == 0 then if j == 0 then 1 else if j == 1 then 7 + 1 else 7
      else if i == 1 then if j == 0 then 7 * 7 else if j == 1 then 7 * 7 + 7 else if j == 2 then 7 + 1 else 2 * 7 + 1
      else if i == 2 then if j < 2 then 7 * 7 else if j == 2 then 1 else 7 + 1
      else if j == 0 || j == 3 then 7 + 1 else if j == 1 then 2 * 7 + 1 else 7
  }

  function MatrixTerm<S(!new)>(r: Ring<S>, x: seq<S>, i: int): int -> S {
    j => if 0 <= j < |x| then r.mul(FromInt(r, Matrix(|x|, i, j)), x[j]) else r.zero
  }

  function RowOf(l: nat, i: int): Coefficients {
    Coefficients(Matrix(l, i, 0), Matrix(l, i, 1), if l > 2 then Matrix(l, i, 2) else 0, if l > 3 then Matrix(l, i, 3) else 0)
  }

  lemma RowIs<S(!new)>(r: Ring<S>, x: seq<S>, v: Vector<S>, i: nat)
    requires CommRing(r) && 2 <= |x| <= 4 && v.a == x[0] && v.b == x[1]
    requires (|x| > 2 ==> v.c == x[2]) && (|x| > 3 ==> v.d == x[3])
    ensures Form(r, RowOf(|x|, i), v) == Sum(r.Plus(), MatrixTerm(r, x, i), |x|)
  {
    hide FromInt, Form, Sum, Matrix;
    FormIsSum(r, RowOf(|x|, i), v, MatrixTerm(r, x, i), |x|);
  }

  // Seven times a form.
  lemma TimesGForm<S(!new)>(r: Ring<S>, k: Coefficients, v: Vector<S>)
    requires CommRing(r)
    ensures TimesG(r, Form(r, k, v)) == Form(r, Coefficients(7 * k.a, 7 * k.b, 7 * k.c, 7 * k.d), v)
  {
    assert FromInt(r, 7) == FromNat(r, 7);
    hide FromInt, Form, TimesG, FromNat;
    TimesGIs(r, Form(r, k, v));
    FormScale(r, 7, k, v);
  }

  lemma Mix2Forms<S(!new)>(r: Ring<S>, v: Vector<S>)
    requires CommRing(r)
    ensures Mix2(r, v.a, v.b) == (Form(r, Coefficients(1, 7, 0, 0), v), Form(r, Coefficients(7, 50, 0, 0), v))
  {
    hide FromInt, Form, TimesG;
    Variables(r, v);
    var a, b := Coefficients(1, 0, 0, 0), Coefficients(0, 1, 0, 0);
    TimesGForm(r, b, v);
    FormAdd(r, a, Coefficients(0, 7, 0, 0), v);
    TimesGForm(r, Coefficients(1, 7, 0, 0), v);
    FormAdd(r, b, Coefficients(7, 49, 0, 0), v);
  }

  lemma Mix3Forms<S(!new)>(r: Ring<S>, v: Vector<S>)
    requires CommRing(r)
    ensures Mix3(r, v.a, v.b, v.c) == (
      Form(r, Coefficients(8, 1, 8, 0), v), Form(r, Coefficients(1, 1, 7, 0), v), Form(r, Coefficients(7, 1, 1, 0), v))
  {
    hide FromInt, Form, TimesG;
    Variables(r, v);
    var a, b, c := Coefficients(1, 0, 0, 0), Coefficients(0, 1, 0, 0), Coefficients(0, 0, 1, 0);
    TimesGForm(r, c, v);
    FormAdd(r, Coefficients(0, 0, 7, 0), a, v);
    TimesGForm(r, a, v);
    FormAdd(r, c, b, v);
    FormAdd(r, Coefficients(0, 1, 1, 0), Coefficients(7, 0, 0, 0), v);
    FormAdd(r, Coefficients(7, 1, 1, 0), Coefficients(1, 0, 7, 0), v);
    FormAdd(r, b, Coefficients(1, 0, 7, 0), v);
  }

  lemma Mix4Forms<S(!new)>(r: Ring<S>, v: Vector<S>)
    requires CommRing(r)
    ensures Mix4(r, v.a, v.b, v.c, v.d) == (
      Form(r, Coefficients(1, 8, 7, 7), v), Form(r, Coefficients(49, 56, 8, 15), v),
      Form(r, Coefficients(49, 49, 1, 8), v), Form(r, Coefficients(8, 15, 7, 8), v))
  {
    hide FromInt, Form, TimesG;
    Variables(r, v);
    var a, b, c, d := Coefficients(1, 0, 0, 0), Coefficients(0, 1, 0, 0), Coefficients(0, 0, 1, 0), Coefficients(0, 0, 0, 1);
    FormAdd(r, a, b, v);
    FormAdd(r, c, d, v);
    var a1, c1 := Coefficients(1, 1, 0, 0), Coefficients(0, 0, 1, 1);
    TimesGForm(r, a1, v);
    FormAdd(r, d, Coefficients(7, 7, 0, 0), v);
    var d1 := Coefficients(7, 7, 0, 1);
    FormAdd(r, b, c1, v);
    TimesGForm(r, Coefficients(0, 1, 1, 1), v);
    var b1 := Coefficients(0, 7, 7, 7);
    FormAdd(r, a1, b1, v);
    TimesGForm(r, d1, v);
    FormAdd(r, c1, Coefficients(49, 49, 0, 7), v);
    FormAdd(r, b1, Coefficients(49, 49, 1, 8), v);
    FormAdd(r, d1, Coefficients(1, 8, 7, 7), v);
  }

  /** Entry i of a mixing is the sum over j of the matrix entry times the value. */
  lemma MixIs<S(!new)>(r: Ring<S>, x: seq<S>, i: nat)
    requires CommRing(r) && 2 <= |x| <= 4 && i < |x|
    ensures Mix(r, x)[i] == Sum(r.Plus(), MatrixTerm(r, x, i), |x|)
  {
    hide FromInt, Form, Sum, MatrixTerm, Mix2, Mix3, Mix4;
    var v := Vector(x[0], x[1], if |x| > 2 then x[2] else r.zero, if |x| > 3 then x[3] else r.zero);
    RowIs(r, x, v, i);
    if |x| == 2 {
      Mix2Forms(r, v);
    } else if |x| == 3 {
      Mix3Forms(r, v);
    } else {
      Mix4Forms(r, v);
    }
  }

  /** The linear layer: the matrix on the x half, and on the y half rotated by one; one pair is mixed as it is. */
  ghost predicate IsLinear<S(!new)>(r: Ring<S>, l: nat, s: seq<S>, t: seq<S>) {
    && |t| == |s| == 2 * l
    && if l == 1 then forall i :: 0 <= i < 2 ==> t[i] == Sum(r.Plus(), MatrixTerm(r, s, i), 2)
       else forall i :: 0 <= i < l ==>
         && t[i] == Sum(r.Plus(), MatrixTerm(r, s[..l], i), l)
         && t[l + i] == Sum(r.Plus(), MatrixTerm(r, Rotated(s[l..]), i), l)
  }

  function Rotated<T>(s: seq<T>): (t: seq<T>)
    ensures |t| == |s|
  {
    seq(|s|, i requires 0 <= i < |s| => s[(i + 1) % |s|])
  }

  lemma LinearIs<S(!new)>(r: Ring<S>, l: nat, s: seq<S>)
    requires CommRing(r) && 1 <= l <= 4 && |s| == 2 * l
    ensures IsLinear(r, l, s, Linear(r, s, l))
  {
    hide Mix, MatrixTerm, Sum;
    if l == 1 {
      forall i | 0 <= i < 2 ensures Linear(r, s, l)[i] == Sum(r.Plus(), MatrixTerm(r, s, i), 2) { MixIs(r, s, i); }
    } else {
      var x, y := s[..l], s[l + 1..] + [s[l]];
      assert y == Rotated(s[l..]);
      forall i | 0 <= i < l
        ensures Mix(r, x)[i] == Sum(r.Plus(), MatrixTerm(r, x, i), l) && Mix(r, y)[i] == Sum(r.Plus(), MatrixTerm(r, y, i), l)
      {
        MixIs(r, x, i);
        MixIs(r, y, i);
      }
    }
  }

  // ---------------------------------------------------------------- Flystel

  /** What the S-box means without roots: both outputs are tied to the inputs by fifth powers of y - v. */
  ghost predicate IsFlystel<S(!new)>(r: Ring<S>, beta: S, delta: S, x: S, y: S, u: S, v: S) {
    && x == r.add(r.mul(beta, Pow(r, y, 2)), Pow(r, r.Sub(y, v), 5))
    && u == r.add(r.add(r.mul(beta, Pow(r, v, 2)), Pow(r, r.Sub(y, v), 5)), delta)
  }

  lemma SquareIs<S(!new)>(r: Ring<S>, beta: S, y: S)
    requires CommRing(r)
    ensures r.mul(r.Sqr(y), beta) == r.mul(beta, Pow(r, y, 2))
  {
    PowOne(r, y);
    assert Pow(r, y, 2) == r.mul(Pow(r, y, 1), y) || Pow(r, y, 2) == r.mul(y, Pow(r, y, 1));
    MulComm(r, r.Sqr(y), beta);
  }

  lemma SubSub<S(!new)>(r: Ring<S>, y: S, d: S)
    requires CommRing(r)
    ensures r.Sub(y, r.Sub(y, d)) == d
  {
    var g := r.Plus();
    var e := r.Sub(y, d);
    AddSub(g, y, d);
    AddComm(g, e, d);
    AddSub(g, d, e);
  }

  /** The S-box takes (x, y) to (u, v) if and only if the two equations hold. */
  lemma FlystelExactly<S(!new)>(r: Ring<S>, root: S -> S, beta: S, delta: S, x: S, y: S, u: S, v: S)
    requires CommRing(r) && FifthRoot(r, root)
    ensures Flystel(r, root, beta, delta, x, y) == (u, v) <==> IsFlystel(r, beta, delta, x, y, u, v)
  {
    var g, q, d := r.Plus(), r.mul(beta, Pow(r, y, 2)), r.Sub(y, v);
    SquareIs(r, beta, y);
    SquareIs(r, beta, v);
    FifthIsPower(r, d);
    hide Pow, Fifth;
    var x1 := r.Sub(x, q);
    Undone(r, root, x1);
    Undone(r, root, d);
    SubSub(r, y, root(x1));
    SubSub(r, y, v);
    // v == y - root(x1) exactly when x1 is the fifth power of y - v, that is, when x is q plus it
    assert v == r.Sub(y, root(x1)) <==> d == root(x1);
    assert d == root(x1) <==> Pow(r, d, 5) == x1;
    AddSub(g, x, q);
    AddComm(g, q, Pow(r, d, 5));
    AddSub(g, Pow(r, d, 5), q);
    assert Pow(r, d, 5) == x1 <==> x == r.add(q, Pow(r, d, 5));
    var p := r.mul(beta, Pow(r, v, 2));
    AddAssoc(g, Pow(r, d, 5), p, delta);
    AddComm(g, Pow(r, d, 5), p);
  }

  // ---------------------------------------------------------------- runs

  // The constants of the round: row `round` for the x half, row `rounds + round` for the y half.
  ghost predicate IsShifted<S(!new)>(r: Ring<S>, p: Parameters<S>, round: nat, s: seq<S>, t: seq<S>) {
    && |t| == |s| == 2 * p.l && 0 <= round * p.l <= (p.rounds + round) * p.l && (p.rounds + round) * p.l + p.l <= |p.ark|
    && (forall i :: 0 <= i < p.l ==> t[i] == r.add(s[i], p.ark[round * p.l + i]))
    && forall i :: p.l <= i < 2 * p.l ==> t[i] == r.add(s[i], p.ark[(p.rounds + round) * p.l + (i - p.l)])
  }

  lemma ConstantsAre<S(!new)>(r: Ring<S>, p: Parameters<S>, round: nat, s: seq<S>)
    requires Fits(p) && round < p.rounds && |s| == 2 * p.l
    ensures IsShifted(r, p, round, s, Constants(r, p.ark, p.l, p.rounds, round, s))
  {
    hide Words;
    ConstantInside(p.l, p.rounds, round);
    WordsProduct(round, p.l);
    WordsProduct(p.rounds, p.l);
    Distributed(p.rounds, round, p.l);
    var x, y := round * p.l, (p.rounds + round) * p.l;
    assert x == Words(round, p.l) && y == Words(p.rounds, p.l) + x;
    var t := Constants(r, p.ark, p.l, p.rounds, round, s);
    forall i | 0 <= i < 2 * p.l
      ensures t[i] == r.add(s[i], if i < p.l then p.ark[x + i] else p.ark[y + (i - p.l)])
    {
      assert t[i] == r.add(s[i], Constant(p.ark, p.l, p.rounds, round, i));
    }
  }

  lemma Distributed(a: nat, b: nat, n: nat)
    ensures (a + b) * n == a * n + b * n
  {
  }

  // A round by way of a and b: constants, linear layer, S-boxes.
  ghost predicate IsRound<S(!new)>(
    r: Ring<S>, p: Parameters<S>, round: nat, s: seq<S>, a: seq<S>, b: seq<S>, t: seq<S>)
  {
    && IsShifted(r, p, round, s, a) && IsLinear(r, p.l, a, b) && |t| == 2 * p.l
    && forall i :: 0 <= i < p.l ==> IsFlystel(r, p.beta, p.delta, b[i], b[p.l + i], t[i], t[p.l + i])
  }

  lemma RoundIs<S(!new)>(r: Ring<S>, p: Parameters<S>, round: nat, s: seq<S>) returns (a: seq<S>, b: seq<S>)
    requires CommRing(r) && FifthRoot(r, p.root) && Fits(p) && round < p.rounds && |s| == 2 * p.l
    ensures IsRound(r, p, round, s, a, b, Round(r, p, round, s))
  {
    hide IsShifted, IsLinear, IsFlystel, Constants, Linear, Flystels, Words;
    a := Constants(r, p.ark, p.l, p.rounds, round, s);
    b := Linear(r, a, p.l);
    ConstantsAre(r, p, round, s);
    LinearIs(r, p.l, a);
    var t := Flystels(r, p.root, p.beta, p.delta, b, p.l);
    forall i | 0 <= i < p.l ensures IsFlystel(r, p.beta, p.delta, b[i], b[p.l + i], t[i], t[p.l + i]) {
      FlystelsAt(r, p.root, p.beta, p.delta, b, p.l, i);
      FlystelExactly(r, p.root, p.beta, p.delta, b[i], b[p.l + i], t[i], t[p.l + i]);
    }
  }

  // Rounds from one on.
  ghost predicate AreRounds<S(!new)>(
    r: Ring<S>, p: Parameters<S>, round: nat, states: seq<seq<S>>, us: seq<seq<S>>, bs: seq<seq<S>>)
  {
    && |states| == |us| + 1 == |bs| + 1
    && forall k :: 0 <= k < |us| ==> IsRound(r, p, round + k, states[k], us[k], bs[k], states[k + 1])
  }

  lemma {:induction false} FirstRound<S(!new)>(
    r: Ring<S>, p: Parameters<S>, round: nat, s: seq<S>, a: seq<S>, b: seq<S>,
    states: seq<seq<S>>, us: seq<seq<S>>, bs: seq<seq<S>>)
    requires AreRounds(r, p, round + 1, states, us, bs) && IsRound(r, p, round, s, a, b, states[0])
    ensures AreRounds(r, p, round, [s] + states, [a] + us, [b] + bs)
  {
    hide IsRound;
    var ss, aa, bb := [s] + states, [a] + us, [b] + bs;
    forall k | 0 <= k < |aa| ensures IsRound(r, p, round + k, ss[k], aa[k], bb[k], ss[k + 1]) {
      if k > 0 {
        assert ss[k] == states[k - 1] && aa[k] == us[k - 1] && bb[k] == bs[k - 1] && ss[k + 1] == states[k - 1 + 1];
        assert round + 1 + (k - 1) == round + k;
      }
    }
  }

  /** The permutation is the linear layer of where the run of its rounds ends. */
  lemma {:induction false} PermutationIsRun<S(!new)>(r: Ring<S>, p: Parameters<S>, round: nat, s: seq<S>)
    returns (states: seq<seq<S>>, us: seq<seq<S>>, bs: seq<seq<S>>)
    requires CommRing(r) && FifthRoot(r, p.root) && Fits(p) && round <= p.rounds && |s| == 2 * p.l
    ensures |us| == p.rounds - round && AreRounds(r, p, round, states, us, bs) && states[0] == s
    ensures IsLinear(r, p.l, states[|us|], Permutation(r, p, round, s))
    decreases p.rounds - round
  {
    hide IsRound, Round, Linear, IsLinear, Words;
    if round == p.rounds {
      states, us, bs := [s], [], [];
      LinearIs(r, p.l, s);
    } else {
      var a, b := RoundIs(r, p, round, s);
      states, us, bs := PermutationIsRun(r, p, round + 1, Round(r, p, round, s));
      FirstRound(r, p, round, s, a, b, states, us, bs);
      states, us, bs := [s] + states, [a] + us, [b] + bs;
    }
  }
}
