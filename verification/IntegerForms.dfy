/** Linear combinations of up to four ring elements with integer coefficients. */
module IntegerForms {
  import opened Algebra
  import opened Sums

  function FromInt<S(!new)>(r: Ring<S>, k: int): S {
    if k >= 0 then FromNat(r, k) else r.neg(FromNat(r, -k))
  }

  lemma FromIntStep<S(!new)>(r: Ring<S>, k: int)
    requires CommRing(r)
    ensures FromInt(r, k + 1) == r.add(FromInt(r, k), r.one)
  {
    var g := r.Plus();
    if k == -1 {
      assert FromNat(r, 1) == r.add(FromNat(r, 0), r.one);
      AddZero(g, r.one);
      AddNeg(g, r.one);
    } else if k < -1 {
      var n := -k - 1;
      assert FromNat(r, -k) == r.add(FromNat(r, n), r.one);
      NegAdd(g, FromNat(r, n), r.one);
      AddSub(g, g.neg(FromNat(r, n)), g.neg(r.one));
      NegNeg(g, r.one);
    }
  }

  lemma {:induction false} FromIntAdd<S(!new)>(r: Ring<S>, a: int, b: int)
    requires CommRing(r)
    ensures FromInt(r, a + b) == r.add(FromInt(r, a), FromInt(r, b))
    decreases if b < 0 then -b else b
  {
    hide FromInt;
    var g := r.Plus();
    if b == 0 {
      FromIntZero(r);
      AddZero(g, FromInt(r, a));
    } else if b > 0 {
      FromIntAdd(r, a, b - 1);
      FromIntStep(r, b - 1);
      FromIntStep(r, a + b - 1);
      AddAssoc(g, FromInt(r, a), FromInt(r, b - 1), r.one);
    } else {
      FromIntAdd(r, a, b + 1);
      FromIntStep(r, b);
      FromIntStep(r, a + b);
      AddAssoc(g, FromInt(r, a), FromInt(r, b), r.one);
      AddCancel(g, FromInt(r, a + b), r.add(FromInt(r, a), FromInt(r, b)), r.one);
    }
  }

  lemma FromIntZero<S(!new)>(r: Ring<S>)
    ensures FromInt(r, 0) == r.zero
  {
  }

  datatype Coefficients = Coefficients(a: int, b: int, c: int, d: int) {
    function Plus(o: Coefficients): Coefficients { Coefficients(a + o.a, b + o.b, c + o.c, d + o.d) }
    function Minus(o: Coefficients): Coefficients { Coefficients(a - o.a, b - o.b, c - o.c, d - o.d) }
  }

  datatype Vector<!S(!new)> = Vector(a: S, b: S, c: S, d: S)

  function Form<S(!new)>(r: Ring<S>, k: Coefficients, x: Vector<S>): S {
    r.add(r.add(r.mul(FromInt(r, k.a), x.a), r.mul(FromInt(r, k.b), x.b)),
          r.add(r.mul(FromInt(r, k.c), x.c), r.mul(FromInt(r, k.d), x.d)))
  }

  lemma TermAdd<S(!new)>(r: Ring<S>, i: int, j: int, x: S)
    requires CommRing(r)
    ensures r.add(r.mul(FromInt(r, i), x), r.mul(FromInt(r, j), x)) == r.mul(FromInt(r, i + j), x)
  {
    hide FromInt;
    FromIntAdd(r, i, j);
    AddMul(r, FromInt(r, i), FromInt(r, j), x);
  }

  lemma FormAdd<S(!new)>(r: Ring<S>, k: Coefficients, m: Coefficients, x: Vector<S>)
    requires CommRing(r)
    ensures r.add(Form(r, k, x), Form(r, m, x)) == Form(r, k.Plus(m), x)
  {
    hide FromInt;
    var g := r.Plus();
    var ka, kb, kc, kd := r.mul(FromInt(r, k.a), x.a), r.mul(FromInt(r, k.b), x.b), r.mul(FromInt(r, k.c), x.c), r.mul(FromInt(r, k.d), x.d);
    var ma, mb, mc, md := r.mul(FromInt(r, m.a), x.a), r.mul(FromInt(r, m.b), x.b), r.mul(FromInt(r, m.c), x.c), r.mul(FromInt(r, m.d), x.d);
    AddSwap(g, r.add(ka, kb), r.add(kc, kd), r.add(ma, mb), r.add(mc, md));
    AddSwap(g, ka, kb, ma, mb);
    AddSwap(g, kc, kd, mc, md);
    TermAdd(r, k.a, m.a, x.a);
    TermAdd(r, k.b, m.b, x.b);
    TermAdd(r, k.c, m.c, x.c);
    TermAdd(r, k.d, m.d, x.d);
  }

  lemma FormSub<S(!new)>(r: Ring<S>, k: Coefficients, m: Coefficients, x: Vector<S>)
    requires CommRing(r)
    ensures r.Sub(Form(r, k, x), Form(r, m, x)) == Form(r, k.Minus(m), x)
  {
    hide FromInt, Form;
    FormAdd(r, k.Minus(m), m, x);
    assert k.Minus(m).Plus(m) == k;
    AddSub(r.Plus(), Form(r, k.Minus(m), x), Form(r, m, x));
  }

  lemma ZeroTerm<S(!new)>(r: Ring<S>, x: S)
    requires CommRing(r)
    ensures r.mul(FromInt(r, 0), x) == r.zero
  {
    MulZero(r, x);
  }

  // One variable, with a coefficient.
  lemma FormSingle<S(!new)>(r: Ring<S>, k: int, x: Vector<S>)
    requires CommRing(r)
    ensures Form(r, Coefficients(k, 0, 0, 0), x) == r.mul(FromInt(r, k), x.a)
    ensures Form(r, Coefficients(0, k, 0, 0), x) == r.mul(FromInt(r, k), x.b)
    ensures Form(r, Coefficients(0, 0, k, 0), x) == r.mul(FromInt(r, k), x.c)
    ensures Form(r, Coefficients(0, 0, 0, k), x) == r.mul(FromInt(r, k), x.d)
  {
    hide FromInt;
    var g := r.Plus();
    ZeroTerm(r, x.a);
    ZeroTerm(r, x.b);
    ZeroTerm(r, x.c);
    ZeroTerm(r, x.d);
    AddZero(g, r.zero);
    AddZero(g, r.mul(FromInt(r, k), x.a));
    AddZero(g, r.mul(FromInt(r, k), x.b));
    AddZero(g, r.mul(FromInt(r, k), x.c));
    AddZero(g, r.mul(FromInt(r, k), x.d));
  }

  // The variables themselves.
  lemma Variables<S(!new)>(r: Ring<S>, x: Vector<S>)
    requires CommRing(r)
    ensures Form(r, Coefficients(1, 0, 0, 0), x) == x.a && Form(r, Coefficients(0, 1, 0, 0), x) == x.b
    ensures Form(r, Coefficients(0, 0, 1, 0), x) == x.c && Form(r, Coefficients(0, 0, 0, 1), x) == x.d
  {
    FormSingle(r, 1, x);
    assert FromInt(r, 1) == r.add(FromInt(r, 0), r.one) by { FromIntStep(r, 0); }
    AddZero(r.Plus(), r.one);
    MulOne(r, x.a);
    MulOne(r, x.b);
    MulOne(r, x.c);
    MulOne(r, x.d);
  }

  lemma {:induction false} FromIntMul<S(!new)>(r: Ring<S>, a: int, b: int)
    requires CommRing(r)
    ensures FromInt(r, a * b) == r.mul(FromInt(r, a), FromInt(r, b))
    decreases if b < 0 then -b else b
  {
    hide FromInt;
    var g, x := r.Plus(), FromInt(r, a);
    if b == 0 {
      FromIntZero(r);
      MulZero(r, x);
    } else if b > 0 {
      FromIntMul(r, a, b - 1);
      FromIntStep(r, b - 1);
      FromIntAdd(r, a * (b - 1), a);
      MulAdd(r, x, FromInt(r, b - 1), r.one);
      MulOne(r, x);
    } else {
      FromIntMul(r, a, b + 1);
      FromIntStep(r, b);
      FromIntAdd(r, a * b, a);
      MulAdd(r, x, FromInt(r, b), r.one);
      MulOne(r, x);
      AddCancel(g, FromInt(r, a * b), r.mul(x, FromInt(r, b)), x);
    }
  }

  lemma TermScale<S(!new)>(r: Ring<S>, k: int, c: int, x: S)
    requires CommRing(r)
    ensures r.mul(FromInt(r, k), r.mul(FromInt(r, c), x)) == r.mul(FromInt(r, k * c), x)
  {
    hide FromInt;
    MulAssoc(r, FromInt(r, k), FromInt(r, c), x);
    FromIntMul(r, k, c);
  }

  lemma FormScale<S(!new)>(r: Ring<S>, k: int, c: Coefficients, x: Vector<S>)
    requires CommRing(r)
    ensures r.mul(FromInt(r, k), Form(r, c, x)) == Form(r, Coefficients(k * c.a, k * c.b, k * c.c, k * c.d), x)
  {
    hide FromInt;
    var f := FromInt(r, k);
    var ca, cb, cc, cd := r.mul(FromInt(r, c.a), x.a), r.mul(FromInt(r, c.b), x.b), r.mul(FromInt(r, c.c), x.c), r.mul(FromInt(r, c.d), x.d);
    MulAdd(r, f, r.add(ca, cb), r.add(cc, cd));
    MulAdd(r, f, ca, cb);
    MulAdd(r, f, cc, cd);
    TermScale(r, k, c.a, x.a);
    TermScale(r, k, c.b, x.b);
    TermScale(r, k, c.c, x.c);
    TermScale(r, k, c.d, x.d);
  }

  // A form is the sum of its terms, over as many variables as it has.
  lemma FormIsSum<S(!new)>(r: Ring<S>, k: Coefficients, x: Vector<S>, f: int -> S, n: nat)
    requires CommRing(r) && 2 <= n <= 4
    requires f(0) == r.mul(FromInt(r, k.a), x.a) && f(1) == r.mul(FromInt(r, k.b), x.b)
    requires if n > 2 then f(2) == r.mul(FromInt(r, k.c), x.c) else k.c == 0
    requires if n > 3 then f(3) == r.mul(FromInt(r, k.d), x.d) else k.d == 0
    ensures Form(r, k, x) == Sum(r.Plus(), f, n)
  {
    var g := r.Plus();
    FromIntZero(r);
    hide FromInt;
    assert Sum(g, f, 1) == r.add(r.zero, f(0)) && Sum(g, f, 2) == r.add(Sum(g, f, 1), f(1));
    AddZero(g, f(0));
    MulZero(r, x.c);
    MulZero(r, x.d);
    var c, d := r.mul(FromInt(r, k.c), x.c), r.mul(FromInt(r, k.d), x.d);
    AddAssoc(g, r.add(f(0), f(1)), c, d);
    AddZero(g, c);
    AddZero(g, r.add(f(0), f(1)));
    if n > 2 { assert Sum(g, f, 3) == r.add(Sum(g, f, 2), f(2)); }
    if n > 3 { assert Sum(g, f, 4) == r.add(Sum(g, f, 3), f(3)); }
  }
}
