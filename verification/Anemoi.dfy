/** The Anemoi permutation on 2 * l field elements, for l from 1 to 4, and its inverse. */
module Anemoi {
  import opened Algebra
  import opened Sizes

  // ---------------------------------------------------------------- multiplication by the generator 7

  function TimesG<S(!new)>(r: Ring<S>, v: S): S {
    var three := r.add(r.add(v, v), v);
    r.add(r.add(three, three), v)
  }

  lemma DoubleIs<S(!new)>(r: Ring<S>, a: S, b: S, v: S)
    requires CommRing(r)
    ensures r.add(r.mul(a, v), r.mul(b, v)) == r.mul(r.add(a, b), v)
  {
    AddMul(r, a, b, v);
  }

  lemma TimesGIs<S(!new)>(r: Ring<S>, v: S)
    requires CommRing(r)
    ensures TimesG(r, v) == r.mul(FromNat(r, 7), v)
  {
    hide FromNat;
    Ones(r);
    MulOne(r, v);
    DoubleIs(r, r.one, r.one, v);
    DoubleIs(r, FromNat(r, 2), r.one, v);
    DoubleIs(r, FromNat(r, 3), FromNat(r, 3), v);
    DoubleIs(r, FromNat(r, 6), r.one, v);
  }

  lemma Ones<S(!new)>(r: Ring<S>)
    requires CommRing(r)
    ensures FromNat(r, 2) == r.add(r.one, r.one) && FromNat(r, 3) == r.add(FromNat(r, 2), r.one)
    ensures FromNat(r, 6) == r.add(FromNat(r, 3), FromNat(r, 3)) && FromNat(r, 7) == r.add(FromNat(r, 6), r.one)
  {
    assert FromNat(r, 1) == r.one by {
      assert FromNat(r, 1) == r.add(FromNat(r, 0), r.one);
      AddZero(r.Plus(), r.one);
    }
    hide FromNat;
    FromNatAdd(r, 1, 1);
    FromNatAdd(r, 2, 1);
    FromNatAdd(r, 3, 3);
    FromNatAdd(r, 6, 1);
  }

  // The numbers the linear layers divide by are not zero, as in every field of larger prime order.
  ghost predicate SmallNonZero<S(!new)>(r: Ring<S>) {
    IsField(r) && FromNat(r, 7) != r.zero && FromNat(r, 48) != r.zero
  }

  // ---------------------------------------------------------------- matrices

  // a += g * b; b += g * a
  function Mix2<S(!new)>(r: Ring<S>, a: S, b: S): (S, S) {
    var a' := r.add(a, TimesG(r, b));
    (a', r.add(b, TimesG(r, a')))
  }

  function Unmix2<S(!new)>(r: Ring<S>, a: S, b: S): (S, S) {
    var b' := r.Sub(b, TimesG(r, a));
    (r.Sub(a, TimesG(r, b')), b')
  }

  lemma Mix2Undone<S(!new)>(r: Ring<S>, a: S, b: S)
    requires CommRing(r)
    ensures var (c, d) := Mix2(r, a, b); Unmix2(r, c, d) == (a, b)
    ensures var (c, d) := Unmix2(r, a, b); Mix2(r, c, d) == (a, b)
  {
    hide TimesG;
    var (c, d) := Mix2(r, a, b);
    AddSub(r.Plus(), b, TimesG(r, c));
    AddSub(r.Plus(), a, TimesG(r, b));
    var (e, f) := Unmix2(r, a, b);
    AddSub(r.Plus(), a, TimesG(r, f));
    AddSub(r.Plus(), b, TimesG(r, a));
  }

  // t = a + g * c; c += b + g * a; a = c + t; b += t
  function Mix3<S(!new)>(r: Ring<S>, a: S, b: S, c: S): (S, S, S) {
    var t := r.add(TimesG(r, c), a);
    var c' := r.add(r.add(c, b), TimesG(r, a));
    (r.add(c', t), r.add(b, t), c')
  }

  function Determinant<S(!new)>(r: Ring<S>): S { r.Sub(r.one, r.mul(FromNat(r, 7), FromNat(r, 7))) }

  // Solves t == g * c + a and u == c + g * a for a and c.
  function Solve<S(!new)>(r: Ring<S>, t: S, u: S): (S, S) {
    var c := r.mul(r.inv(Determinant(r)), r.Sub(u, TimesG(r, t)));
    (r.Sub(t, TimesG(r, c)), c)
  }

  function Unmix3<S(!new)>(r: Ring<S>, a: S, b: S, c: S): (S, S, S) {
    var t := r.Sub(a, c);
    var b' := r.Sub(b, t);
    var (a', c') := Solve(r, t, r.Sub(c, b'));
    (a', b', c')
  }

  lemma DeterminantNonZero<S(!new)>(r: Ring<S>)
    requires SmallNonZero(r)
    ensures Determinant(r) != r.zero
  {
    hide FromNat;
    var g := r.Plus();
    FromNatMul(r, 7, 7);
    FromNatAdd(r, 48, 1);
    assert FromNat(r, 1) == r.one by { OneIs(r); }
    if Determinant(r) == r.zero {
      AddSub(g, r.one, FromNat(r, 49));
      AddZero(g, FromNat(r, 49));
      AddZero(g, r.one);
      AddCancel(g, FromNat(r, 48), r.zero, r.one);
    }
  }

  lemma OneIs<S(!new)>(r: Ring<S>)
    requires CommRing(r)
    ensures FromNat(r, 1) == r.one
  {
    assert FromNat(r, 1) == r.add(FromNat(r, 0), r.one);
    AddZero(r.Plus(), r.one);
  }

  // c - g * (g * c) == (1 - g * g) * c
  lemma Collect<S(!new)>(r: Ring<S>, c: S)
    requires CommRing(r)
    ensures r.Sub(c, TimesG(r, TimesG(r, c))) == r.mul(Determinant(r), c)
  {
    hide FromNat, TimesG;
    var g := FromNat(r, 7);
    TimesGIs(r, c);
    TimesGIs(r, r.mul(g, c));
    MulAssoc(r, g, g, c);
    MulSub(r, c, r.one, r.mul(g, g));
    MulOne(r, c);
  }

  lemma TimesGAdd<S(!new)>(r: Ring<S>, a: S, b: S)
    requires CommRing(r)
    ensures TimesG(r, r.add(a, b)) == r.add(TimesG(r, a), TimesG(r, b))
    ensures TimesG(r, r.Sub(a, b)) == r.Sub(TimesG(r, a), TimesG(r, b))
  {
    hide FromNat, TimesG;
    TimesGIs(r, a);
    TimesGIs(r, b);
    TimesGIs(r, r.add(a, b));
    TimesGIs(r, r.Sub(a, b));
    MulAdd(r, FromNat(r, 7), a, b);
    MulSub(r, FromNat(r, 7), a, b);
  }

  // (x + y) - (z + y) == x - z
  lemma CancelBoth<S(!new)>(r: Ring<S>, x: S, y: S, z: S)
    requires CommRing(r)
    ensures r.Sub(r.add(x, y), r.add(z, y)) == r.Sub(x, z)
  {
    var g := r.Plus();
    NegAdd(g, z, y);
    AddSwap(g, x, y, g.neg(z), g.neg(y));
    AddNeg(g, y);
    AddZero(g, r.Sub(x, z));
  }

  lemma SolveFinds<S(!new)>(r: Ring<S>, a: S, c: S)
    requires SmallNonZero(r)
    ensures Solve(r, r.add(TimesG(r, c), a), r.add(c, TimesG(r, a))) == (a, c)
  {
    hide FromNat, TimesG, Determinant;
    var g := r.Plus();
    var t, u := r.add(TimesG(r, c), a), r.add(c, TimesG(r, a));
    TimesGAdd(r, TimesG(r, c), a);
    CancelBoth(r, c, TimesG(r, a), TimesG(r, TimesG(r, c)));
    Collect(r, c);
    DeterminantNonZero(r);
    Divide(r, Determinant(r), c);
    AddComm(g, TimesG(r, c), a);
    AddSub(g, a, TimesG(r, c));
  }

  lemma SolveSolves<S(!new)>(r: Ring<S>, t: S, u: S)
    requires SmallNonZero(r)
    ensures var (a, c) := Solve(r, t, u); r.add(TimesG(r, c), a) == t && r.add(c, TimesG(r, a)) == u
  {
    hide FromNat, TimesG, Determinant;
    var g := r.Plus();
    var (a, c) := Solve(r, t, u);
    var gc, gt := TimesG(r, c), TimesG(r, t);
    AddSub(g, t, gc);
    AddComm(g, gc, a);
    TimesGAdd(r, t, gc);
    // c + (g t - g g c) == (c - g g c) + g t
    var ggc := TimesG(r, gc);
    AddAssoc(g, c, gt, g.neg(ggc));
    AddComm(g, c, gt);
    AddAssoc(g, gt, c, g.neg(ggc));
    AddComm(g, gt, r.Sub(c, ggc));
    Collect(r, c);
    DeterminantNonZero(r);
    Divide(r, Determinant(r), r.Sub(u, gt));
    AddSub(g, u, gt);
  }

  lemma Mix3Undone<S(!new)>(r: Ring<S>, a: S, b: S, c: S)
    requires SmallNonZero(r)
    ensures var (x, y, z) := Mix3(r, a, b, c); Unmix3(r, x, y, z) == (a, b, c)
    ensures var (x, y, z) := Unmix3(r, a, b, c); Mix3(r, x, y, z) == (a, b, c)
  {
    hide TimesG, Solve;
    var g := r.Plus();
    var t := r.add(TimesG(r, c), a);
    var c' := r.add(r.add(c, b), TimesG(r, a));
    AddComm(g, c', t);
    AddSub(g, t, c');
    AddSub(g, b, t);
    // c' - b == c + g a
    AddComm(g, c, b);
    AddAssoc(g, b, c, TimesG(r, a));
    AddComm(g, b, r.add(c, TimesG(r, a)));
    AddSub(g, r.add(c, TimesG(r, a)), b);
    SolveFinds(r, a, c);

    var u := r.Sub(a, c);
    var b' := r.Sub(b, u);
    var (x, z) := Solve(r, u, r.Sub(c, b'));
    SolveSolves(r, u, r.Sub(c, b'));
    AddComm(g, z, b');
    AddAssoc(g, b', z, TimesG(r, x));
    AddComm(g, b', r.add(z, TimesG(r, x)));
    AddSub(g, c, b');
    AddSub(g, b, u);
    AddSub(g, a, c);
    AddComm(g, c, u);
  }

  function Mix4<S(!new)>(r: Ring<S>, a: S, b: S, c: S, d: S): (S, S, S, S) {
    var a1 := r.add(a, b);
    var c1 := r.add(c, d);
    var d1 := r.add(d, TimesG(r, a1));
    var b1 := TimesG(r, r.add(b, c1));
    var a2 := r.add(a1, b1);
    var c2 := r.add(c1, TimesG(r, d1));
    (a2, r.add(b1, c2), c2, r.add(d1, a2))
  }

  function Unmix4<S(!new)>(r: Ring<S>, a2: S, b2: S, c2: S, d2: S): (S, S, S, S) {
    var d1 := r.Sub(d2, a2);
    var b1 := r.Sub(b2, c2);
    var c1 := r.Sub(c2, TimesG(r, d1));
    var a1 := r.Sub(a2, b1);
    var b := r.Sub(r.mul(r.inv(FromNat(r, 7)), b1), c1);
    var d := r.Sub(d1, TimesG(r, a1));
    (r.Sub(a1, b), b, r.Sub(c1, d), d)
  }

  lemma Mix4Undone<S(!new)>(r: Ring<S>, a: S, b: S, c: S, d: S)
    requires SmallNonZero(r)
    ensures var (x, y, z, t) := Mix4(r, a, b, c, d); Unmix4(r, x, y, z, t) == (a, b, c, d)
  {
    hide TimesG, FromNat;
    var g := r.Plus();
    var (a2, b2, c2, d2) := Mix4(r, a, b, c, d);
    var a1, c1 := r.add(a, b), r.add(c, d);
    var d1, b1 := r.add(d, TimesG(r, a1)), TimesG(r, r.add(b, c1));
    AddSub(g, d1, a2);
    AddSub(g, b1, c2);
    AddSub(g, c1, TimesG(r, d1));
    AddSub(g, a1, b1);
    TimesGIs(r, r.add(b, c1));
    Divide(r, FromNat(r, 7), r.add(b, c1));
    AddSub(g, b, c1);
    AddSub(g, d, TimesG(r, a1));
    AddSub(g, a, b);
    AddSub(g, c, d);
  }

  lemma Unmix4Undone<S(!new)>(r: Ring<S>, a2: S, b2: S, c2: S, d2: S)
    requires SmallNonZero(r)
    ensures var (x, y, z, t) := Unmix4(r, a2, b2, c2, d2); Mix4(r, x, y, z, t) == (a2, b2, c2, d2)
  {
    hide TimesG, FromNat;
    var g := r.Plus();
    var (a, b, c, d) := Unmix4(r, a2, b2, c2, d2);
    var d1, b1 := r.Sub(d2, a2), r.Sub(b2, c2);
    var c1, a1 := r.Sub(c2, TimesG(r, d1)), r.Sub(a2, b1);
    var quotient := r.mul(r.inv(FromNat(r, 7)), b1);
    AddSub(g, a1, b);
    AddSub(g, c1, d);
    AddSub(g, d1, TimesG(r, a1));
    AddSub(g, quotient, c1);
    TimesGIs(r, quotient);
    Divide(r, FromNat(r, 7), b1);
    AddSub(g, a2, b1);
    AddSub(g, c2, TimesG(r, d1));
    AddSub(g, b2, c2);
    AddSub(g, d2, a2);
  }

  // ---------------------------------------------------------------- linear layer

  function Mix<S(!new)>(r: Ring<S>, v: seq<S>): (u: seq<S>)
    requires 2 <= |v| <= 4
    ensures |u| == |v|
  {
    if |v| == 2 then var (a, b) := Mix2(r, v[0], v[1]); [a, b]
    else if |v| == 3 then var (a, b, c) := Mix3(r, v[0], v[1], v[2]); [a, b, c]
    else var (a, b, c, d) := Mix4(r, v[0], v[1], v[2], v[3]); [a, b, c, d]
  }

  function Unmix<S(!new)>(r: Ring<S>, v: seq<S>): (u: seq<S>)
    requires 2 <= |v| <= 4
    ensures |u| == |v|
  {
    if |v| == 2 then var (a, b) := Unmix2(r, v[0], v[1]); [a, b]
    else if |v| == 3 then var (a, b, c) := Unmix3(r, v[0], v[1], v[2]); [a, b, c]
    else var (a, b, c, d) := Unmix4(r, v[0], v[1], v[2], v[3]); [a, b, c, d]
  }

  lemma MixUndone<S(!new)>(r: Ring<S>, v: seq<S>)
    requires SmallNonZero(r) && 2 <= |v| <= 4
    ensures Unmix(r, Mix(r, v)) == v && Mix(r, Unmix(r, v)) == v
  {
    hide Mix2, Unmix2, Mix3, Unmix3, Mix4, Unmix4;
    if |v| == 2 {
      Mix2Undone(r, v[0], v[1]);
    } else if |v| == 3 {
      Mix3Undone(r, v[0], v[1], v[2]);
    } else {
      Mix4Undone(r, v[0], v[1], v[2], v[3]);
      Unmix4Undone(r, v[0], v[1], v[2], v[3]);
    }
  }

  // The x half is mixed; the y half is rotated, then mixed.  One pair is mixed as it is.
  function Linear<S(!new)>(r: Ring<S>, s: seq<S>, l: nat): (t: seq<S>)
    requires 1 <= l <= 4 && |s| == 2 * l
    ensures |t| == |s|
  {
    if l == 1 then Mix(r, s) else Mix(r, s[..l]) + Mix(r, s[l + 1..] + [s[l]])
  }

  function LinearBack<S(!new)>(r: Ring<S>, t: seq<S>, l: nat): (s: seq<S>)
    requires 1 <= l <= 4 && |t| == 2 * l
    ensures |s| == |t|
  {
    if l == 1 then Unmix(r, t)
    else
      var y := Unmix(r, t[l..]);
      Unmix(r, t[..l]) + [y[l - 1]] + y[..l - 1]
  }

  lemma LinearUndone<S(!new)>(r: Ring<S>, s: seq<S>, l: nat)
    requires SmallNonZero(r) && 1 <= l <= 4 && |s| == 2 * l
    ensures LinearBack(r, Linear(r, s, l), l) == s && Linear(r, LinearBack(r, s, l), l) == s
  {
    hide Mix, Unmix;
    if l == 1 {
      MixUndone(r, s);
    } else {
      var x, y := s[..l], s[l + 1..] + [s[l]];
      MixUndone(r, x);
      MixUndone(r, y);
      var t := Linear(r, s, l);
      assert t[..l] == Mix(r, x) && t[l..] == Mix(r, y);
      assert y[l - 1] == s[l] && y[..l - 1] == s[l + 1..] && x + [s[l]] + s[l + 1..] == s;

      MixUndone(r, s[..l]);
      MixUndone(r, s[l..]);
      var a, b := Unmix(r, s[..l]), Unmix(r, s[l..]);
      var u := LinearBack(r, s, l);
      assert u[..l] == a && u[l + 1..] == b[..l - 1] && u[l] == b[l - 1];
      assert b[..l - 1] + [b[l - 1]] == b && s[..l] + s[l..] == s;
    }
  }

  // ---------------------------------------------------------------- Flystel

  // x -= beta y^2; y -= root(x); x += beta y^2 + delta
  function Flystel<S(!new)>(r: Ring<S>, root: S -> S, beta: S, delta: S, x: S, y: S): (S, S) {
    var x1 := r.Sub(x, r.mul(r.Sqr(y), beta));
    var y1 := r.Sub(y, root(x1));
    (r.add(x1, r.add(r.mul(r.Sqr(y1), beta), delta)), y1)
  }

  function FlystelBack<S(!new)>(r: Ring<S>, root: S -> S, beta: S, delta: S, x: S, y: S): (S, S) {
    var x1 := r.Sub(x, r.add(r.mul(r.Sqr(y), beta), delta));
    var y1 := r.add(y, root(x1));
    (r.add(x1, r.mul(r.Sqr(y1), beta)), y1)
  }

  lemma FlystelUndone<S(!new)>(r: Ring<S>, root: S -> S, beta: S, delta: S, x: S, y: S)
    requires CommRing(r)
    ensures var (a, b) := Flystel(r, root, beta, delta, x, y); FlystelBack(r, root, beta, delta, a, b) == (x, y)
    ensures var (a, b) := FlystelBack(r, root, beta, delta, x, y); Flystel(r, root, beta, delta, a, b) == (x, y)
  {
    var g := r.Plus();
    var x1 := r.Sub(x, r.mul(r.Sqr(y), beta));
    var y1 := r.Sub(y, root(x1));
    AddSub(g, x1, r.add(r.mul(r.Sqr(y1), beta), delta));
    AddSub(g, y, root(x1));
    AddSub(g, x, r.mul(r.Sqr(y), beta));

    var x2 := r.Sub(x, r.add(r.mul(r.Sqr(y), beta), delta));
    var y2 := r.add(y, root(x2));
    AddSub(g, x2, r.mul(r.Sqr(y2), beta));
    AddSub(g, y, root(x2));
    AddSub(g, x, r.add(r.mul(r.Sqr(y), beta), delta));
  }

  function Flystels<S(!new)>(r: Ring<S>, root: S -> S, beta: S, delta: S, s: seq<S>, l: nat): (t: seq<S>)
    requires |s| == 2 * l
    ensures |t| == |s|
  {
    seq(2 * l, k requires 0 <= k < 2 * l =>
      if k < l then Flystel(r, root, beta, delta, s[k], s[l + k]).0 else Flystel(r, root, beta, delta, s[k - l], s[k]).1)
  }

  function FlystelsBack<S(!new)>(r: Ring<S>, root: S -> S, beta: S, delta: S, t: seq<S>, l: nat): (s: seq<S>)
    requires |t| == 2 * l
    ensures |s| == |t|
  {
    seq(2 * l, k requires 0 <= k < 2 * l =>
      if k < l then FlystelBack(r, root, beta, delta, t[k], t[l + k]).0 else FlystelBack(r, root, beta, delta, t[k - l], t[k]).1)
  }

  lemma FlystelsAt<S(!new)>(r: Ring<S>, root: S -> S, beta: S, delta: S, s: seq<S>, l: nat, i: nat)
    requires |s| == 2 * l && i < l
    ensures var t := Flystels(r, root, beta, delta, s, l);
      (t[i], t[l + i]) == Flystel(r, root, beta, delta, s[i], s[l + i])
    ensures var t := FlystelsBack(r, root, beta, delta, s, l);
      (t[i], t[l + i]) == FlystelBack(r, root, beta, delta, s[i], s[l + i])
  {
    hide Flystel, FlystelBack;
    assert l <= l + i < 2 * l;
  }

  lemma FlystelsUndone<S(!new)>(r: Ring<S>, root: S -> S, beta: S, delta: S, s: seq<S>, l: nat)
    requires CommRing(r) && |s| == 2 * l
    ensures FlystelsBack(r, root, beta, delta, Flystels(r, root, beta, delta, s, l), l) == s
    ensures Flystels(r, root, beta, delta, FlystelsBack(r, root, beta, delta, s, l), l) == s
  {
    hide Flystel, FlystelBack, Flystels, FlystelsBack;
    var t, u := Flystels(r, root, beta, delta, s, l), FlystelsBack(r, root, beta, delta, s, l);
    var b, f := FlystelsBack(r, root, beta, delta, t, l), Flystels(r, root, beta, delta, u, l);
    forall k | 0 <= k < 2 * l
      ensures b[k] == s[k] && f[k] == s[k]
    {
      var i := if k < l then k else k - l;
      FlystelUndone(r, root, beta, delta, s[i], s[l + i]);
      FlystelsAt(r, root, beta, delta, s, l, i);
      FlystelsAt(r, root, beta, delta, t, l, i);
      FlystelsAt(r, root, beta, delta, u, l, i);
    }
  }

  // ---------------------------------------------------------------- rounds

  // The constants of a round: those of the x halves of all rounds come first, then the y halves.
  function Constant<S>(ark: seq<S>, l: nat, rounds: nat, round: nat, k: int): S
    requires round < rounds && |ark| == Words(2 * rounds, l) && 0 <= k < 2 * l
  {
    ConstantInside(l, rounds, round);
    if k < l then ark[Words(round, l) + k] else ark[Words(rounds, l) + Words(round, l) + (k - l)]
  }

  lemma ConstantInside(l: nat, rounds: nat, round: nat)
    requires round < rounds
    ensures Words(round, l) + l <= Words(rounds, l) && Words(2 * rounds, l) == Words(rounds, l) + Words(rounds, l)
  {
    RowFits(round, rounds, l);
    WordsDouble(rounds, l);
  }

  lemma {:induction false} WordsDouble(k: nat, n: nat)
    ensures Words(2 * k, n) == Words(k, n) + Words(k, n)
  {
    if k > 0 {
      WordsDouble(k - 1, n);
      assert Words(2 * k, n) == 2 * n + Words(2 * (k - 1), n);
    }
  }

  function Constants<S(!new)>(r: Ring<S>, ark: seq<S>, l: nat, rounds: nat, round: nat, s: seq<S>): (t: seq<S>)
    requires round < rounds && |ark| == Words(2 * rounds, l) && |s| == 2 * l
    ensures |t| == |s|
  {
    seq(2 * l, k requires 0 <= k < 2 * l => r.add(s[k], Constant(ark, l, rounds, round, k)))
  }

  function ConstantsBack<S(!new)>(r: Ring<S>, ark: seq<S>, l: nat, rounds: nat, round: nat, t: seq<S>): (s: seq<S>)
    requires round < rounds && |ark| == Words(2 * rounds, l) && |t| == 2 * l
    ensures |s| == |t|
  {
    seq(2 * l, k requires 0 <= k < 2 * l => r.Sub(t[k], Constant(ark, l, rounds, round, k)))
  }

  lemma ConstantsUndone<S(!new)>(r: Ring<S>, ark: seq<S>, l: nat, rounds: nat, round: nat, s: seq<S>)
    requires CommRing(r) && round < rounds && |ark| == Words(2 * rounds, l) && |s| == 2 * l
    ensures ConstantsBack(r, ark, l, rounds, round, Constants(r, ark, l, rounds, round, s)) == s
    ensures Constants(r, ark, l, rounds, round, ConstantsBack(r, ark, l, rounds, round, s)) == s
  {
    hide Words, Constant;
    forall k | 0 <= k < |s|
      ensures var c := Constant(ark, l, rounds, round, k);
        r.Sub(r.add(s[k], c), c) == s[k] && r.add(r.Sub(s[k], c), c) == s[k]
    {
      AddSub(r.Plus(), s[k], Constant(ark, l, rounds, round, k));
    }
  }

  // Everything a permutation is parametrised by.
  datatype Parameters<!S(!new)> = Parameters(root: S -> S, beta: S, delta: S, ark: seq<S>, l: nat, rounds: nat)

  ghost predicate Fits<S(!new)>(p: Parameters<S>) { 1 <= p.l <= 4 && |p.ark| == Words(2 * p.rounds, p.l) }

  function Round<S(!new)>(r: Ring<S>, p: Parameters<S>, round: nat, s: seq<S>): (t: seq<S>)
    requires Fits(p) && round < p.rounds && |s| == 2 * p.l
    ensures |t| == |s|
  {
    Flystels(r, p.root, p.beta, p.delta, Linear(r, Constants(r, p.ark, p.l, p.rounds, round, s), p.l), p.l)
  }

  function RoundBack<S(!new)>(r: Ring<S>, p: Parameters<S>, round: nat, t: seq<S>): (s: seq<S>)
    requires Fits(p) && round < p.rounds && |t| == 2 * p.l
    ensures |s| == |t|
  {
    ConstantsBack(r, p.ark, p.l, p.rounds, round, LinearBack(r, FlystelsBack(r, p.root, p.beta, p.delta, t, p.l), p.l))
  }

  lemma RoundUndone<S(!new)>(r: Ring<S>, p: Parameters<S>, round: nat, s: seq<S>)
    requires SmallNonZero(r) && Fits(p) && round < p.rounds && |s| == 2 * p.l
    ensures RoundBack(r, p, round, Round(r, p, round, s)) == s && Round(r, p, round, RoundBack(r, p, round, s)) == s
  {
    hide Words, FromNat, Constants, ConstantsBack, Linear, LinearBack, Flystels, FlystelsBack;
    var a := Constants(r, p.ark, p.l, p.rounds, round, s);
    ConstantsUndone(r, p.ark, p.l, p.rounds, round, s);
    LinearUndone(r, a, p.l);
    FlystelsUndone(r, p.root, p.beta, p.delta, Linear(r, a, p.l), p.l);
    var b := FlystelsBack(r, p.root, p.beta, p.delta, s, p.l);
    FlystelsUndone(r, p.root, p.beta, p.delta, s, p.l);
    LinearUndone(r, b, p.l);
    ConstantsUndone(r, p.ark, p.l, p.rounds, round, LinearBack(r, b, p.l));
  }

  // The rounds from one on, then the last linear layer.
  function Permutation<S(!new)>(r: Ring<S>, p: Parameters<S>, round: nat, s: seq<S>): (t: seq<S>)
    requires Fits(p) && round <= p.rounds && |s| == 2 * p.l
    ensures |t| == |s|
    decreases p.rounds - round
  {
    if round == p.rounds then Linear(r, s, p.l) else Permutation(r, p, round + 1, Round(r, p, round, s))
  }

  function PermutationBack<S(!new)>(r: Ring<S>, p: Parameters<S>, round: nat, t: seq<S>): (s: seq<S>)
    requires Fits(p) && round <= p.rounds && |t| == 2 * p.l
    ensures |s| == |t|
    decreases p.rounds - round
  {
    if round == p.rounds then LinearBack(r, t, p.l) else RoundBack(r, p, round, PermutationBack(r, p, round + 1, t))
  }

  /** For l from 1 to 4, any number of rounds, any constants and whatever the root function computes,
      the permutation is a bijection. */
  lemma {:induction false} PermutationBijective<S(!new)>(r: Ring<S>, p: Parameters<S>, round: nat, s: seq<S>)
    requires SmallNonZero(r) && Fits(p) && round <= p.rounds && |s| == 2 * p.l
    ensures PermutationBack(r, p, round, Permutation(r, p, round, s)) == s
    ensures Permutation(r, p, round, PermutationBack(r, p, round, s)) == s
    decreases p.rounds - round
  {
    hide Words, FromNat, Linear, LinearBack, Round, RoundBack;
    if round == p.rounds {
      LinearUndone(r, s, p.l);
    } else {
      RoundUndone(r, p, round, s);
      PermutationBijective(r, p, round + 1, Round(r, p, round, s));
      PermutationBijective(r, p, round + 1, s);
      RoundUndone(r, p, round, PermutationBack(r, p, round + 1, s));
    }
  }
}
