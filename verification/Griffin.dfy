/** The Griffin permutation on 3 or 4 field elements, and exactly when it is a bijection. */
module Griffin {
  import opened Algebra
  import opened IntegerForms
  import opened AdditionChain
  import opened Sizes
  import P = Poseidon
  import R = Rescue

  // ---------------------------------------------------------------- linear layers

  // Adds the sum of the state to each value: the circulant matrix (2, 1, 1).
  function Linear3<S(!new)>(r: Ring<S>, x: Vector<S>): Vector<S> {
    var s := r.add(r.add(x.a, x.b), x.c);
    Vector(r.add(x.a, s), r.add(x.b, s), r.add(x.c, s), x.d)
  }

  // The circulant matrix (3, 2, 1, 1).
  function Linear4<S(!new)>(r: Ring<S>, x: Vector<S>): Vector<S> {
    var s := r.add(r.add(r.add(x.a, x.b), x.c), x.d);
    Vector(r.add(r.add(r.add(x.a, s), x.a), x.b), r.add(r.add(r.add(x.b, s), x.b), x.c),
           r.add(r.add(r.add(x.c, s), x.c), x.d), r.add(r.add(r.add(x.d, s), x.d), x.a))
  }

  // The numbers the inverse layers divide by are not zero.
  ghost predicate SmallNonZero<S(!new)>(r: Ring<S>) {
    IsField(r) && FromInt(r, 4) != r.zero && FromInt(r, 3) != r.zero && FromInt(r, 7) != r.zero && FromInt(r, 15) != r.zero
  }

  function Over<S(!new)>(r: Ring<S>, k: int, x: S): S { r.mul(r.inv(FromInt(r, k)), x) }

  lemma Divided<S(!new)>(r: Ring<S>, k: int, x: S)
    requires IsField(r) && FromInt(r, k) != r.zero
    ensures Over(r, k, r.mul(FromInt(r, k), x)) == x == r.mul(FromInt(r, k), Over(r, k, x))
  {
    hide FromInt;
    Divide(r, FromInt(r, k), x);
  }

  function Linear3Back<S(!new)>(r: Ring<S>, y: Vector<S>): Vector<S> {
    var s := Over(r, 4, r.add(r.add(y.a, y.b), y.c));
    Vector(r.Sub(y.a, s), r.Sub(y.b, s), r.Sub(y.c, s), y.d)
  }

  lemma Linear3Undone<S(!new)>(r: Ring<S>, x: Vector<S>)
    requires SmallNonZero(r)
    ensures Linear3Back(r, Linear3(r, x)) == x
  {
    hide FromInt, Form;
    var g := r.Plus();
    Variables(r, x);
    var s := r.add(r.add(x.a, x.b), x.c);
    FormAdd(r, Coefficients(1, 0, 0, 0), Coefficients(0, 1, 0, 0), x);
    FormAdd(r, Coefficients(1, 1, 0, 0), Coefficients(0, 0, 1, 0), x);
    FormAdd(r, Coefficients(1, 0, 0, 0), Coefficients(1, 1, 1, 0), x);
    FormAdd(r, Coefficients(0, 1, 0, 0), Coefficients(1, 1, 1, 0), x);
    FormAdd(r, Coefficients(0, 0, 1, 0), Coefficients(1, 1, 1, 0), x);
    FormAdd(r, Coefficients(2, 1, 1, 0), Coefficients(1, 2, 1, 0), x);
    FormAdd(r, Coefficients(3, 3, 2, 0), Coefficients(1, 1, 2, 0), x);
    FormScale(r, 4, Coefficients(1, 1, 1, 0), x);
    Divided(r, 4, s);
    AddSub(g, x.a, s);
    AddSub(g, x.b, s);
    AddSub(g, x.c, s);
  }

  lemma Linear3BackUndone<S(!new)>(r: Ring<S>, y: Vector<S>)
    requires SmallNonZero(r)
    ensures Linear3(r, Linear3Back(r, y)) == y
  {
    hide FromInt, Form;
    var g := r.Plus();
    var sum := r.add(r.add(y.a, y.b), y.c);
    var s := Over(r, 4, sum);
    var v := Vector(y.a, y.b, y.c, s);
    Variables(r, v);
    FormSub(r, Coefficients(1, 0, 0, 0), Coefficients(0, 0, 0, 1), v);
    FormSub(r, Coefficients(0, 1, 0, 0), Coefficients(0, 0, 0, 1), v);
    FormSub(r, Coefficients(0, 0, 1, 0), Coefficients(0, 0, 0, 1), v);
    FormAdd(r, Coefficients(1, 0, 0, -1), Coefficients(0, 1, 0, -1), v);
    FormAdd(r, Coefficients(1, 1, 0, -2), Coefficients(0, 0, 1, -1), v);
    // the sum of the values is s
    FormAdd(r, Coefficients(1, 0, 0, 0), Coefficients(0, 1, 0, 0), v);
    FormAdd(r, Coefficients(1, 1, 0, 0), Coefficients(0, 0, 1, 0), v);
    FormSingle(r, 4, v);
    Divided(r, 4, sum);
    FormSub(r, Coefficients(1, 1, 1, 0), Coefficients(0, 0, 0, 3), v);
    FormSub(r, Coefficients(0, 0, 0, 4), Coefficients(0, 0, 0, 3), v);
    AddSub(g, y.a, s);
    AddSub(g, y.b, s);
    AddSub(g, y.c, s);
  }

  // ---------------------------------------------------------------- four values

  // The value whose two-step chain 2 x + next gives the four differences.
  function Eliminate<S(!new)>(r: Ring<S>, a: Vector<S>): S {
    var e1 := r.Sub(r.add(a.a, a.a), a.b);
    var e2 := r.add(r.add(e1, e1), a.c);
    r.Sub(r.add(e2, e2), a.d)
  }

  // Solves 2 x.a + x.b == a.a, 2 x.b + x.c == a.b, 2 x.c + x.d == a.c, 2 x.d + x.a == a.d.
  function Chain<S(!new)>(r: Ring<S>, a: Vector<S>): Vector<S> {
    var x0 := Over(r, 15, Eliminate(r, a));
    var x1 := r.Sub(a.a, r.add(x0, x0));
    var x2 := r.Sub(a.b, r.add(x1, x1));
    Vector(x0, x1, x2, r.Sub(a.c, r.add(x2, x2)))
  }

  function Differences<S(!new)>(r: Ring<S>, x: Vector<S>): Vector<S> {
    Vector(r.add(r.add(x.a, x.a), x.b), r.add(r.add(x.b, x.b), x.c), r.add(r.add(x.c, x.c), x.d), r.add(r.add(x.d, x.d), x.a))
  }

  function Total<S(!new)>(r: Ring<S>, x: Vector<S>): S { r.add(r.add(r.add(x.a, x.b), x.c), x.d) }

  function Shift<S(!new)>(r: Ring<S>, x: Vector<S>, s: S): Vector<S> {
    Vector(r.add(x.a, s), r.add(x.b, s), r.add(x.c, s), r.add(x.d, s))
  }

  function ShiftBack<S(!new)>(r: Ring<S>, x: Vector<S>, s: S): Vector<S> {
    Vector(r.Sub(x.a, s), r.Sub(x.b, s), r.Sub(x.c, s), r.Sub(x.d, s))
  }

  lemma ShiftUndone<S(!new)>(r: Ring<S>, x: Vector<S>, s: S)
    requires CommRing(r)
    ensures ShiftBack(r, Shift(r, x, s), s) == x == Shift(r, ShiftBack(r, x, s), s)
  {
    AddSub(r.Plus(), x.a, s);
    AddSub(r.Plus(), x.b, s);
    AddSub(r.Plus(), x.c, s);
    AddSub(r.Plus(), x.d, s);
  }

  // ((x + s) + x) + y == ((x + x) + y) + s
  lemma Rearranged<S(!new)>(r: Ring<S>, x: S, s: S, y: S)
    requires CommRing(r)
    ensures r.add(r.add(r.add(x, s), x), y) == r.add(r.add(r.add(x, x), y), s)
  {
    hide FromInt, Form;
    var v := Vector(x, s, y, y);
    Variables(r, v);
    FormAdd(r, Coefficients(1, 0, 0, 0), Coefficients(0, 1, 0, 0), v);
    FormAdd(r, Coefficients(1, 1, 0, 0), Coefficients(1, 0, 0, 0), v);
    FormAdd(r, Coefficients(2, 1, 0, 0), Coefficients(0, 0, 1, 0), v);
    FormAdd(r, Coefficients(1, 0, 0, 0), Coefficients(1, 0, 0, 0), v);
    FormAdd(r, Coefficients(2, 0, 0, 0), Coefficients(0, 0, 1, 0), v);
    FormAdd(r, Coefficients(2, 0, 1, 0), Coefficients(0, 1, 0, 0), v);
  }

  lemma Linear4Is<S(!new)>(r: Ring<S>, x: Vector<S>)
    requires CommRing(r)
    ensures Linear4(r, x) == Shift(r, Differences(r, x), Total(r, x))
  {
    var s := Total(r, x);
    Rearranged(r, x.a, s, x.b);
    Rearranged(r, x.b, s, x.c);
    Rearranged(r, x.c, s, x.d);
    Rearranged(r, x.d, s, x.a);
  }

  function Linear4Back<S(!new)>(r: Ring<S>, y: Vector<S>): Vector<S> {
    Chain(r, ShiftBack(r, y, Over(r, 7, Total(r, y))))
  }

  lemma TotalForm<S(!new)>(r: Ring<S>, x: Vector<S>)
    requires CommRing(r)
    ensures Total(r, x) == Form(r, Coefficients(1, 1, 1, 1), x)
  {
    hide FromInt, Form;
    Variables(r, x);
    FormAdd(r, Coefficients(1, 0, 0, 0), Coefficients(0, 1, 0, 0), x);
    FormAdd(r, Coefficients(1, 1, 0, 0), Coefficients(0, 0, 1, 0), x);
    FormAdd(r, Coefficients(1, 1, 1, 0), Coefficients(0, 0, 0, 1), x);
  }

  lemma DifferenceForms<S(!new)>(r: Ring<S>, x: Vector<S>)
    requires CommRing(r)
    ensures Differences(r, x) == Vector(
      Form(r, Coefficients(2, 1, 0, 0), x), Form(r, Coefficients(0, 2, 1, 0), x),
      Form(r, Coefficients(0, 0, 2, 1), x), Form(r, Coefficients(1, 0, 0, 2), x))
  {
    hide FromInt, Form;
    Variables(r, x);
    FormAdd(r, Coefficients(1, 0, 0, 0), Coefficients(1, 0, 0, 0), x);
    FormAdd(r, Coefficients(2, 0, 0, 0), Coefficients(0, 1, 0, 0), x);
    FormAdd(r, Coefficients(0, 1, 0, 0), Coefficients(0, 1, 0, 0), x);
    FormAdd(r, Coefficients(0, 2, 0, 0), Coefficients(0, 0, 1, 0), x);
    FormAdd(r, Coefficients(0, 0, 1, 0), Coefficients(0, 0, 1, 0), x);
    FormAdd(r, Coefficients(0, 0, 2, 0), Coefficients(0, 0, 0, 1), x);
    FormAdd(r, Coefficients(0, 0, 0, 1), Coefficients(0, 0, 0, 1), x);
    FormAdd(r, Coefficients(0, 0, 0, 2), Coefficients(1, 0, 0, 0), x);
  }

  lemma TotalOfDifferences<S(!new)>(r: Ring<S>, x: Vector<S>)
    requires CommRing(r)
    ensures Total(r, Differences(r, x)) == r.mul(FromInt(r, 3), Total(r, x))
  {
    hide FromInt, Form;
    DifferenceForms(r, x);
    TotalForm(r, x);
    FormAdd(r, Coefficients(2, 1, 0, 0), Coefficients(0, 2, 1, 0), x);
    FormAdd(r, Coefficients(2, 3, 1, 0), Coefficients(0, 0, 2, 1), x);
    FormAdd(r, Coefficients(2, 3, 3, 1), Coefficients(1, 0, 0, 2), x);
    FormScale(r, 3, Coefficients(1, 1, 1, 1), x);
  }

  // (a + s) + (b + s) + (c + s) + (d + s) == (a + b + c + d) + 4 s
  lemma TotalOfShift<S(!new)>(r: Ring<S>, x: Vector<S>, s: S)
    requires CommRing(r)
    ensures Total(r, Shift(r, x, s)) == r.add(Total(r, x), r.mul(FromInt(r, 4), s))
  {
    hide FromInt, Form;
    var g := r.Plus();
    var v := Vector(s, s, s, s);
    AddSwap(g, x.a, s, x.b, s);
    AddSwap(g, r.add(x.a, x.b), r.add(s, s), x.c, s);
    AddSwap(g, r.add(r.add(x.a, x.b), x.c), r.add(r.add(s, s), s), x.d, s);
    Variables(r, v);
    FormAdd(r, Coefficients(1, 0, 0, 0), Coefficients(1, 0, 0, 0), v);
    FormAdd(r, Coefficients(2, 0, 0, 0), Coefficients(1, 0, 0, 0), v);
    FormAdd(r, Coefficients(3, 0, 0, 0), Coefficients(1, 0, 0, 0), v);
    FormSingle(r, 4, v);
  }

  lemma ChainFinds<S(!new)>(r: Ring<S>, x: Vector<S>)
    requires SmallNonZero(r)
    ensures Chain(r, Differences(r, x)) == x
  {
    hide FromInt, Form, Differences;
    var a := Differences(r, x);
    DifferenceForms(r, x);
    Variables(r, x);
    FormAdd(r, Coefficients(2, 1, 0, 0), Coefficients(2, 1, 0, 0), x);
    FormSub(r, Coefficients(4, 2, 0, 0), Coefficients(0, 2, 1, 0), x);
    FormAdd(r, Coefficients(4, 0, -1, 0), Coefficients(4, 0, -1, 0), x);
    FormAdd(r, Coefficients(8, 0, -2, 0), Coefficients(0, 0, 2, 1), x);
    FormAdd(r, Coefficients(8, 0, 0, 1), Coefficients(8, 0, 0, 1), x);
    FormSub(r, Coefficients(16, 0, 0, 2), Coefficients(1, 0, 0, 2), x);
    FormSingle(r, 15, x);
    Divided(r, 15, x.a);
    FormAdd(r, Coefficients(1, 0, 0, 0), Coefficients(1, 0, 0, 0), x);
    FormSub(r, Coefficients(2, 1, 0, 0), Coefficients(2, 0, 0, 0), x);
    FormAdd(r, Coefficients(0, 1, 0, 0), Coefficients(0, 1, 0, 0), x);
    FormSub(r, Coefficients(0, 2, 1, 0), Coefficients(0, 2, 0, 0), x);
    FormAdd(r, Coefficients(0, 0, 1, 0), Coefficients(0, 0, 1, 0), x);
    FormSub(r, Coefficients(0, 0, 2, 1), Coefficients(0, 0, 2, 0), x);
  }

  lemma ChainSolves<S(!new)>(r: Ring<S>, a: Vector<S>)
    requires SmallNonZero(r)
    ensures Differences(r, Chain(r, a)) == a
  {
    hide FromInt, Form;
    var g := r.Plus();
    var x := Chain(r, a);
    AddComm(g, r.add(x.a, x.a), x.b);
    AddSub(g, a.a, r.add(x.a, x.a));
    AddComm(g, r.add(x.b, x.b), x.c);
    AddSub(g, a.b, r.add(x.b, x.b));
    AddComm(g, r.add(x.c, x.c), x.d);
    AddSub(g, a.c, r.add(x.c, x.c));
    LastDifference(r, a);
  }

  lemma LastDifference<S(!new)>(r: Ring<S>, a: Vector<S>)
    requires SmallNonZero(r)
    ensures var x := Chain(r, a); r.add(r.add(x.d, x.d), x.a) == a.d
  {
    hide FromInt, Form;
    var g := r.Plus();
    var x := Chain(r, a);
    var v := Vector(a.a, a.b, a.c, x.a);
    Variables(r, v);
    // x in terms of the first three differences and x.a
    FormAdd(r, Coefficients(0, 0, 0, 1), Coefficients(0, 0, 0, 1), v);
    FormSub(r, Coefficients(1, 0, 0, 0), Coefficients(0, 0, 0, 2), v);
    FormAdd(r, Coefficients(1, 0, 0, -2), Coefficients(1, 0, 0, -2), v);
    FormSub(r, Coefficients(0, 1, 0, 0), Coefficients(2, 0, 0, -4), v);
    FormAdd(r, Coefficients(-2, 1, 0, 4), Coefficients(-2, 1, 0, 4), v);
    FormSub(r, Coefficients(0, 0, 1, 0), Coefficients(-4, 2, 0, 8), v);
    FormAdd(r, Coefficients(4, -2, 1, -8), Coefficients(4, -2, 1, -8), v);
    FormAdd(r, Coefficients(8, -4, 2, -16), Coefficients(0, 0, 0, 1), v);
    EliminateForm(r, a, v);
    // 15 x.a == Eliminate, so a.d == 8 a.a - 4 a.b + 2 a.c - 15 x.a
    var doubled := Form(r, Coefficients(8, -4, 2, 0), v);
    Divided(r, 15, Eliminate(r, a));
    FormSingle(r, 15, v);
    FormSub(r, Coefficients(8, -4, 2, 0), Coefficients(0, 0, 0, 15), v);
    SubTwice(r, doubled, a.d);
  }

  // x - (x - y) == y
  lemma SubTwice<S(!new)>(r: Ring<S>, x: S, y: S)
    requires CommRing(r)
    ensures r.Sub(x, r.Sub(x, y)) == y
  {
    var g := r.Plus();
    AddSub(g, x, y);
    AddComm(g, r.Sub(x, y), y);
    AddSub(g, y, r.Sub(x, y));
  }

  lemma EliminateForm<S(!new)>(r: Ring<S>, a: Vector<S>, v: Vector<S>)
    requires CommRing(r) && v.a == a.a && v.b == a.b && v.c == a.c
    ensures Eliminate(r, a) == r.Sub(Form(r, Coefficients(8, -4, 2, 0), v), a.d)
  {
    hide FromInt, Form;
    Variables(r, v);
    FormAdd(r, Coefficients(1, 0, 0, 0), Coefficients(1, 0, 0, 0), v);
    FormSub(r, Coefficients(2, 0, 0, 0), Coefficients(0, 1, 0, 0), v);
    FormAdd(r, Coefficients(2, -1, 0, 0), Coefficients(2, -1, 0, 0), v);
    FormAdd(r, Coefficients(4, -2, 0, 0), Coefficients(0, 0, 1, 0), v);
    FormAdd(r, Coefficients(4, -2, 1, 0), Coefficients(4, -2, 1, 0), v);
  }

  lemma Multiples<S(!new)>(r: Ring<S>, s: S)
    requires CommRing(r)
    ensures r.add(r.mul(FromInt(r, 3), s), r.mul(FromInt(r, 4), s)) == r.mul(FromInt(r, 7), s)
    ensures r.Sub(r.mul(FromInt(r, 7), s), r.mul(FromInt(r, 4), s)) == r.mul(FromInt(r, 3), s)
  {
    hide FromInt, Form;
    TermAdd(r, 3, 4, s);
    AddSub(r.Plus(), r.mul(FromInt(r, 3), s), r.mul(FromInt(r, 4), s));
  }

  lemma Linear4Undone<S(!new)>(r: Ring<S>, x: Vector<S>)
    requires SmallNonZero(r)
    ensures Linear4Back(r, Linear4(r, x)) == x
  {
    hide FromInt, Linear4, Differences, Total, Shift, ShiftBack, Chain;
    var s, d := Total(r, x), Differences(r, x);
    Linear4Is(r, x);
    TotalOfShift(r, d, s);
    TotalOfDifferences(r, x);
    Multiples(r, s);
    Divided(r, 7, s);
    ShiftUndone(r, d, s);
    ChainFinds(r, x);
  }

  lemma Linear4BackUndone<S(!new)>(r: Ring<S>, y: Vector<S>)
    requires SmallNonZero(r)
    ensures Linear4(r, Linear4Back(r, y)) == y
  {
    hide FromInt, Linear4, Differences, Total, Shift, ShiftBack, Chain;
    var s := Over(r, 7, Total(r, y));
    var a := ShiftBack(r, y, s);
    var x := Chain(r, a);
    ShiftUndone(r, y, s);
    ChainSolves(r, a);
    // the total of x is s, because three times it is
    TotalOfShift(r, a, s);
    AddSub(r.Plus(), Total(r, a), r.mul(FromInt(r, 4), s));
    Divided(r, 7, Total(r, y));
    Multiples(r, s);
    TotalOfDifferences(r, x);
    MulComm(r, FromInt(r, 3), Total(r, x));
    MulComm(r, FromInt(r, 3), s);
    MulCancel(r, Total(r, x), s, FromInt(r, 3));
    Linear4Is(r, x);
  }

  // ---------------------------------------------------------------- the layer on a state

  // Only states of 3 and 4 values are mixed.
  function Linear<S(!new)>(r: Ring<S>, x: seq<S>): (y: seq<S>)
    ensures |y| == |x|
  {
    if |x| == 3 then var y := Linear3(r, Vector(x[0], x[1], x[2], r.zero)); [y.a, y.b, y.c]
    else if |x| == 4 then var y := Linear4(r, Vector(x[0], x[1], x[2], x[3])); [y.a, y.b, y.c, y.d]
    else x
  }

  function LinearBack<S(!new)>(r: Ring<S>, y: seq<S>): (x: seq<S>)
    ensures |x| == |y|
  {
    if |y| == 3 then var x := Linear3Back(r, Vector(y[0], y[1], y[2], r.zero)); [x.a, x.b, x.c]
    else if |y| == 4 then var x := Linear4Back(r, Vector(y[0], y[1], y[2], y[3])); [x.a, x.b, x.c, x.d]
    else y
  }

  lemma LinearUndone<S(!new)>(r: Ring<S>, x: seq<S>)
    requires SmallNonZero(r)
    ensures LinearBack(r, Linear(r, x)) == x && Linear(r, LinearBack(r, x)) == x
  {
    if |x| == 3 {
      var v := Vector(x[0], x[1], x[2], r.zero);
      assert Linear3(r, v).d == r.zero && Linear3Back(r, v).d == r.zero;
      hide Linear3, Linear3Back, FromInt;
      Linear3Undone(r, v);
      Linear3BackUndone(r, v);
    } else if |x| == 4 {
      hide Linear4, Linear4Back, FromInt;
      var v := Vector(x[0], x[1], x[2], x[3]);
      Linear4Undone(r, v);
      Linear4BackUndone(r, v);
    }
  }

  // ---------------------------------------------------------------- non-linear layer

  // z^2 + z * alpha + beta
  function Quadratic<S(!new)>(r: Ring<S>, alpha: S, beta: S, z: S): S {
    r.add(r.add(r.Sqr(z), r.mul(z, alpha)), beta)
  }

  // The values from the third on: each is multiplied by its quadratic at the running combination.
  function Tail<S(!new)>(r: Ring<S>, y0: S, acc: S, prev: S, ab: seq<S>, xs: seq<S>): (ys: seq<S>)
    requires |ab| == 2 * |xs|
    ensures |ys| == |xs|
    decreases |xs|
  {
    if xs == [] then []
    else
      var z := r.add(r.add(acc, y0), prev);
      [r.mul(Quadratic(r, ab[0], ab[1], z), xs[0])] + Tail(r, y0, z, xs[0], ab[2..], xs[1..])
  }

  function NonLinear<S(!new)>(r: Ring<S>, root: S -> S, ab: seq<S>, x: seq<S>): (y: seq<S>)
    requires |x| >= 2 && |ab| == 2 * (|x| - 2)
    ensures |y| == |x|
  {
    var y0, y1 := root(x[0]), Fifth(r, x[1]);
    [y0, y1] + Tail(r, y0, y1, r.zero, ab, x[2..])
  }

  function TailBack<S(!new)>(r: Ring<S>, y0: S, acc: S, prev: S, ab: seq<S>, ys: seq<S>): (xs: seq<S>)
    requires |ab| == 2 * |ys|
    ensures |xs| == |ys|
    decreases |ys|
  {
    if ys == [] then []
    else
      var z := r.add(r.add(acc, y0), prev);
      var x := r.mul(r.inv(Quadratic(r, ab[0], ab[1], z)), ys[0]);
      [x] + TailBack(r, y0, z, x, ab[2..], ys[1..])
  }

  function NonLinearBack<S(!new)>(r: Ring<S>, root: S -> S, ab: seq<S>, y: seq<S>): (x: seq<S>)
    requires |y| >= 2 && |ab| == 2 * (|y| - 2)
    ensures |x| == |y|
  {
    [Fifth(r, y[0]), root(y[1])] + TailBack(r, y[0], y[1], r.zero, ab, y[2..])
  }

  // No quadratic has a root.
  ghost predicate Rootless<S(!new)>(r: Ring<S>, ab: seq<S>)
    decreases |ab|
  {
    |ab| < 2 || ((forall z: S {:trigger On(z, z, z)} | On(z, z, z) :: Quadratic(r, ab[0], ab[1], z) != r.zero) && Rootless(r, ab[2..]))
  }

  lemma {:induction false} TailUndone<S(!new)>(r: Ring<S>, y0: S, acc: S, prev: S, ab: seq<S>, xs: seq<S>)
    requires IsField(r) && Rootless(r, ab) && |ab| == 2 * |xs|
    ensures TailBack(r, y0, acc, prev, ab, Tail(r, y0, acc, prev, ab, xs)) == xs
    ensures Tail(r, y0, acc, prev, ab, TailBack(r, y0, acc, prev, ab, xs)) == xs
    decreases |xs|
  {
    hide Quadratic;
    if xs != [] {
      var z := r.add(r.add(acc, y0), prev);
      var q := Quadratic(r, ab[0], ab[1], z);
      assert On(z, z, z);
      Divide(r, q, xs[0]);
      var x := r.mul(r.inv(q), xs[0]);
      TailUndone(r, y0, z, xs[0], ab[2..], xs[1..]);
      TailUndone(r, y0, z, x, ab[2..], xs[1..]);
      var ys, us := Tail(r, y0, acc, prev, ab, xs), TailBack(r, y0, acc, prev, ab, xs);
      assert ys[1..] == Tail(r, y0, z, xs[0], ab[2..], xs[1..]);
      assert us[1..] == TailBack(r, y0, z, x, ab[2..], xs[1..]);
      assert [xs[0]] + xs[1..] == xs;
    }
  }

  lemma NonLinearUndone<S(!new)>(r: Ring<S>, root: S -> S, ab: seq<S>, x: seq<S>)
    requires IsField(r) && FifthRoot(r, root) && Rootless(r, ab) && |x| >= 2 && |ab| == 2 * (|x| - 2)
    ensures NonLinearBack(r, root, ab, NonLinear(r, root, ab, x)) == x
    ensures NonLinear(r, root, ab, NonLinearBack(r, root, ab, x)) == x
  {
    hide Tail, TailBack, Rootless, Fifth;
    Undone(r, root, x[0]);
    Undone(r, root, x[1]);
    var y0, y1 := root(x[0]), Fifth(r, x[1]);
    TailUndone(r, y0, y1, r.zero, ab, x[2..]);
    assert NonLinear(r, root, ab, x)[2..] == Tail(r, y0, y1, r.zero, ab, x[2..]);
    TailUndone(r, x[0], x[1], r.zero, ab, x[2..]);
    assert NonLinearBack(r, root, ab, x)[2..] == TailBack(r, x[0], x[1], r.zero, ab, x[2..]);
    assert [x[0], x[1]] + x[2..] == x;
  }

  // ---------------------------------------------------------------- a root makes two states collide

  lemma {:induction false} FindRoot<S(!new)>(r: Ring<S>, ab: seq<S>) returns (i: nat, z: S)
    requires !Rootless(r, ab)
    ensures 2 * i + 1 < |ab| && Quadratic(r, ab[2 * i], ab[2 * i + 1], z) == r.zero
    decreases |ab|
  {
    hide Quadratic;
    if w: S :| Quadratic(r, ab[0], ab[1], w) == r.zero {
      i, z := 0, w;
    } else {
      var j;
      j, z := FindRoot(r, ab[2..]);
      i := j + 1;
    }
  }

  function Zeros<S(!new)>(r: Ring<S>, n: nat): seq<S> { seq(n, _ => r.zero) }

  lemma {:induction false} TailOfZeros<S(!new)>(r: Ring<S>, y0: S, acc: S, prev: S, ab: seq<S>, n: nat)
    requires CommRing(r) && |ab| == 2 * n
    ensures Tail(r, y0, acc, prev, ab, Zeros(r, n)) == Zeros(r, n)
    decreases n
  {
    hide Quadratic;
    if n > 0 {
      var z := r.add(r.add(acc, y0), prev);
      MulZero(r, Quadratic(r, ab[0], ab[1], z));
      assert Zeros(r, n)[1..] == Zeros(r, n - 1);
      TailOfZeros(r, y0, z, r.zero, ab[2..], n - 1);
      assert [r.zero] + Zeros(r, n - 1) == Zeros(r, n);
    }
  }

  // The value at the root is multiplied by zero, whatever it is.
  lemma {:induction false} TailOfOne<S(!new)>(r: Ring<S>, z: S, ab: seq<S>, n: nat, i: nat)
    requires CommRing(r) && |ab| == 2 * n && i < n && Quadratic(r, ab[2 * i], ab[2 * i + 1], z) == r.zero
    ensures Tail(r, r.zero, z, r.zero, ab, Zeros(r, n)[i := r.one]) == Zeros(r, n)
    decreases n
  {
    hide Quadratic;
    var xs := Zeros(r, n)[i := r.one];
    AddZero(r.Plus(), z);
    if i == 0 {
      assert xs[1..] == Zeros(r, n - 1);
      MulZero(r, r.one);
      TailOfZeros(r, r.zero, z, r.one, ab[2..], n - 1);
    } else {
      assert xs[1..] == Zeros(r, n - 1)[i - 1 := r.one];
      MulZero(r, Quadratic(r, ab[0], ab[1], z));
      TailOfOne(r, z, ab[2..], n - 1, i - 1);
    }
    assert [r.zero] + Zeros(r, n - 1) == Zeros(r, n);
  }

  lemma Collision<S(!new)>(r: Ring<S>, root: S -> S, ab: seq<S>, n: nat) returns (x: seq<S>, x': seq<S>)
    requires IsField(r) && FifthRoot(r, root) && !Rootless(r, ab) && n >= 2 && |ab| == 2 * (n - 2)
    ensures |x| == |x'| == n && x != x' && NonLinear(r, root, ab, x) == NonLinear(r, root, ab, x')
  {
    hide Quadratic, Fifth, Tail;
    var i, z := FindRoot(r, ab);
    var zeros := Zeros(r, n - 2);
    Undone(r, root, r.zero);
    Undone(r, root, z);
    x := [Fifth(r, r.zero), root(z)] + zeros;
    x' := [Fifth(r, r.zero), root(z)] + zeros[i := r.one];
    assert x[2 + i] == r.zero && x'[2 + i] == r.one;
    TailOfZeros(r, r.zero, z, r.zero, ab, n - 2);
    TailOfOne(r, z, ab, n - 2, i);
    assert x[2..] == zeros && x'[2..] == zeros[i := r.one];
  }

  // ---------------------------------------------------------------- rounds

  function Round<S(!new)>(r: Ring<S>, root: S -> S, ab: seq<S>, ark: seq<S>, off: nat, x: seq<S>): (y: seq<S>)
    requires |x| >= 2 && |ab| == 2 * (|x| - 2) && off + |x| <= |ark|
    ensures |y| == |x|
  {
    P.AddConstants(r, Linear(r, NonLinear(r, root, ab, x)), ark, off)
  }

  function Rounds<S(!new)>(r: Ring<S>, root: S -> S, ab: seq<S>, ark: seq<S>, off: nat, x: seq<S>, k: nat): (y: seq<S>)
    requires |x| >= 2 && |ab| == 2 * (|x| - 2) && off + Words(k, |x|) <= |ark|
    ensures |y| == |x|
    decreases k
  {
    if k == 0 then x else Rounds(r, root, ab, ark, off + |x|, Round(r, root, ab, ark, off, x), k - 1)
  }

  function RoundBack<S(!new)>(r: Ring<S>, root: S -> S, ab: seq<S>, ark: seq<S>, off: nat, y: seq<S>): (x: seq<S>)
    requires |y| >= 2 && |ab| == 2 * (|y| - 2) && off + |y| <= |ark|
    ensures |x| == |y|
  {
    NonLinearBack(r, root, ab, LinearBack(r, R.SubConstants(r, y, ark, off)))
  }

  function RoundsBack<S(!new)>(r: Ring<S>, root: S -> S, ab: seq<S>, ark: seq<S>, off: nat, y: seq<S>, k: nat): (x: seq<S>)
    requires |y| >= 2 && |ab| == 2 * (|y| - 2) && off + Words(k, |y|) <= |ark|
    ensures |x| == |y|
    decreases k
  {
    if k == 0 then y else RoundBack(r, root, ab, ark, off, RoundsBack(r, root, ab, ark, off + |y|, y, k - 1))
  }

  lemma RoundUndone<S(!new)>(r: Ring<S>, root: S -> S, ab: seq<S>, ark: seq<S>, off: nat, x: seq<S>)
    requires SmallNonZero(r) && FifthRoot(r, root) && Rootless(r, ab)
    requires |x| >= 2 && |ab| == 2 * (|x| - 2) && off + |x| <= |ark|
    ensures RoundBack(r, root, ab, ark, off, Round(r, root, ab, ark, off, x)) == x
    ensures Round(r, root, ab, ark, off, RoundBack(r, root, ab, ark, off, x)) == x
  {
    hide FromInt, Rootless, FifthRoot, NonLinear, NonLinearBack, Linear, LinearBack, P.AddConstants, R.SubConstants;
    var y := NonLinear(r, root, ab, x);
    NonLinearUndone(r, root, ab, x);
    LinearUndone(r, y);
    R.ConstantsBack(r, Linear(r, y), ark, off);
    var z := R.SubConstants(r, x, ark, off);
    R.ConstantsBack(r, x, ark, off);
    LinearUndone(r, z);
    NonLinearUndone(r, root, ab, LinearBack(r, z));
  }

  lemma {:induction false} RoundsUndone<S(!new)>(r: Ring<S>, root: S -> S, ab: seq<S>, ark: seq<S>, off: nat, x: seq<S>, k: nat)
    requires SmallNonZero(r) && FifthRoot(r, root) && (k > 0 ==> Rootless(r, ab))
    requires |x| >= 2 && |ab| == 2 * (|x| - 2) && off + Words(k, |x|) <= |ark|
    ensures RoundsBack(r, root, ab, ark, off, Rounds(r, root, ab, ark, off, x, k), k) == x
    ensures Rounds(r, root, ab, ark, off, RoundsBack(r, root, ab, ark, off, x, k), k) == x
    decreases k
  {
    hide FromInt, Rootless, FifthRoot, Round, RoundBack;
    if k > 0 {
      RoundUndone(r, root, ab, ark, off, x);
      RoundsUndone(r, root, ab, ark, off + |x|, Round(r, root, ab, ark, off, x), k - 1);
      RoundsUndone(r, root, ab, ark, off + |x|, x, k - 1);
      RoundUndone(r, root, ab, ark, off, RoundsBack(r, root, ab, ark, off + |x|, x, k - 1));
    }
  }

  // ---------------------------------------------------------------- the permutation

  function Permutation<S(!new)>(r: Ring<S>, root: S -> S, ab: seq<S>, ark: seq<S>, x: seq<S>, k: nat): (y: seq<S>)
    requires |x| >= 2 && |ab| == 2 * (|x| - 2) && Words(k, |x|) <= |ark|
    ensures |y| == |x|
  {
    Rounds(r, root, ab, ark, 0, Linear(r, x), k)
  }

  function PermutationBack<S(!new)>(r: Ring<S>, root: S -> S, ab: seq<S>, ark: seq<S>, y: seq<S>, k: nat): (x: seq<S>)
    requires |y| >= 2 && |ab| == 2 * (|y| - 2) && Words(k, |y|) <= |ark|
    ensures |x| == |y|
  {
    LinearBack(r, RoundsBack(r, root, ab, ark, 0, y, k))
  }

  /** With quadratics that have no root, or no round at all, the permutation is a bijection. */
  lemma PermutationBijective<S(!new)>(r: Ring<S>, root: S -> S, ab: seq<S>, ark: seq<S>, x: seq<S>, k: nat)
    requires SmallNonZero(r) && FifthRoot(r, root) && (k > 0 ==> Rootless(r, ab))
    requires |x| >= 2 && |ab| == 2 * (|x| - 2) && Words(k, |x|) <= |ark|
    ensures PermutationBack(r, root, ab, ark, Permutation(r, root, ab, ark, x, k), k) == x
    ensures Permutation(r, root, ab, ark, PermutationBack(r, root, ab, ark, x, k), k) == x
  {
    hide FromInt, Words, Rootless, FifthRoot, Rounds, RoundsBack, Linear, LinearBack;
    LinearUndone(r, x);
    RoundsUndone(r, root, ab, ark, 0, Linear(r, x), k);
    RoundsUndone(r, root, ab, ark, 0, x, k);
    LinearUndone(r, RoundsBack(r, root, ab, ark, 0, x, k));
  }

  // Two states with one image.
  lemma PermutationCollides<S(!new)>(r: Ring<S>, root: S -> S, ab: seq<S>, ark: seq<S>, n: nat, k: nat) returns (x: seq<S>, x': seq<S>)
    requires SmallNonZero(r) && FifthRoot(r, root) && !Rootless(r, ab) && k > 0
    requires n >= 2 && |ab| == 2 * (n - 2) && Words(k, n) <= |ark|
    ensures |x| == |x'| == n && x != x'
    ensures Permutation(r, root, ab, ark, x, k) == Permutation(r, root, ab, ark, x', k)
  {
    var y, y' := Collision(r, root, ab, n);
    assert Round(r, root, ab, ark, 0, y) == Round(r, root, ab, ark, 0, y');
    hide FromInt, Rootless, FifthRoot, Linear, LinearBack, Round;
    x, x' := LinearBack(r, y), LinearBack(r, y');
    LinearUndone(r, y);
    LinearUndone(r, y');
  }

  ghost predicate Injective<S(!new)>(r: Ring<S>, root: S -> S, ab: seq<S>, ark: seq<S>, n: nat, k: nat)
    requires n >= 2 && |ab| == 2 * (n - 2) && Words(k, n) <= |ark|
  {
    forall x, x' {:trigger Permutation(r, root, ab, ark, x, k), Permutation(r, root, ab, ark, x', k)} |
      |x| == |x'| == n && x != x' :: Permutation(r, root, ab, ark, x, k) != Permutation(r, root, ab, ark, x', k)
  }

  /** The permutation is injective exactly when it has no round or no quadratic has a root. */
  lemma InjectiveExactly<S(!new)>(r: Ring<S>, root: S -> S, ab: seq<S>, ark: seq<S>, n: nat, k: nat)
    requires SmallNonZero(r) && FifthRoot(r, root)
    requires n >= 2 && |ab| == 2 * (n - 2) && Words(k, n) <= |ark|
    ensures Injective(r, root, ab, ark, n, k) <==> (k == 0 || Rootless(r, ab))
  {
    hide FromInt, Words, Rootless, FifthRoot, Permutation;
    if k == 0 || Rootless(r, ab) {
      forall x, x' {:trigger Permutation(r, root, ab, ark, x, k), Permutation(r, root, ab, ark, x', k)} |
        |x| == |x'| == n && x != x'
        ensures Permutation(r, root, ab, ark, x, k) != Permutation(r, root, ab, ark, x', k)
      {
        PermutationBijective(r, root, ab, ark, x, k);
        PermutationBijective(r, root, ab, ark, x', k);
      }
    } else {
      var x, x' := PermutationCollides(r, root, ab, ark, n, k);
    }
  }
}
