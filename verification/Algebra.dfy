/** Abelian groups, commutative rings, fields and modules as records of operations.

The field and curve primitives the system calls are foreign code.  Here they are the fields
of a record, and the algebraic laws they are trusted to obey are a predicate on the record, so
every theorem of the project holds for the scalar field of BLS12-381, for the groups G1 and G2
over it, and for any other structure with the same laws. */
module Algebra {

  datatype Group<!V(!new)> = Group(zero: V, add: (V, V) -> V, neg: V -> V) {
    function Sub(x: V, y: V): V { add(x, neg(y)) }
  }

  datatype Ring<!S(!new)> = Ring(zero: S, one: S, add: (S, S) -> S, neg: S -> S, mul: (S, S) -> S, inv: S -> S) {
    function Plus(): Group<S> { Group(zero, add, neg) }
    function Times(): Group<S> { Group(one, mul, inv) }
    function Sub(x: S, y: S): S { add(x, neg(y)) }
    function Sqr(x: S): S { mul(x, x) }
  }

  datatype Module<!S(!new), !V(!new)> = Module(ring: Ring<S>, group: Group<V>, scale: (S, V) -> V)

  // The laws below are quantified over all elements.  They are instantiated only where the
  // (always true) predicate On mentions the elements, which is what the first lemmas do.
  ghost predicate On<T>(x: T, y: T, z: T) { true }
  ghost predicate OnScaled<S, V>(a: S, b: S, x: V, y: V) { true }

  ghost predicate AbelianGroup<V(!new)>(g: Group<V>) {
    forall x: V, y: V, z: V {:trigger On(x, y, z)} | On(x, y, z) ::
      && g.add(x, y) == g.add(y, x)
      && g.add(g.add(x, y), z) == g.add(x, g.add(y, z))
      && g.add(x, g.zero) == x
      && g.add(x, g.neg(x)) == g.zero
  }

  ghost predicate CommRing<S(!new)>(r: Ring<S>) {
    && AbelianGroup(r.Plus())
    && forall x: S, y: S, z: S {:trigger On(x, y, z)} | On(x, y, z) ::
      && r.mul(x, y) == r.mul(y, x)
      && r.mul(r.mul(x, y), z) == r.mul(x, r.mul(y, z))
      && r.mul(x, r.one) == x
      && r.mul(x, r.add(y, z)) == r.add(r.mul(x, y), r.mul(x, z))
  }

  ghost predicate IsField<S(!new)>(r: Ring<S>) {
    && CommRing(r)
    && r.one != r.zero
    && forall x: S {:trigger On(x, x, x)} | On(x, x, x) :: x != r.zero ==> r.mul(x, r.inv(x)) == r.one
  }

  ghost predicate IsModule<S(!new), V(!new)>(m: Module<S, V>) {
    && CommRing(m.ring)
    && AbelianGroup(m.group)
    && forall a: S, b: S, x: V, y: V {:trigger OnScaled(a, b, x, y)} | OnScaled(a, b, x, y) ::
      && m.scale(m.ring.one, x) == x
      && m.scale(m.ring.mul(a, b), x) == m.scale(a, m.scale(b, x))
      && m.scale(m.ring.add(a, b), x) == m.group.add(m.scale(a, x), m.scale(b, x))
      && m.scale(a, m.group.add(x, y)) == m.group.add(m.scale(a, x), m.scale(a, y))
  }

  // A ring acting on itself; `blst_fr_mul` takes the vector first and the scalar second.
  function SelfModule<S(!new)>(r: Ring<S>): Module<S, S> {
    Module(r, r.Plus(), (a, x) => r.mul(x, a))
  }

  lemma SelfModuleIsModule<S(!new)>(r: Ring<S>)
    requires CommRing(r)
    ensures IsModule(SelfModule(r))
  {
    var m := SelfModule(r);
    assert AbelianGroup(m.group) && CommRing(m.ring);
    forall a: S, b: S, x: S, y: S {:trigger OnScaled(a, b, x, y)} | OnScaled(a, b, x, y)
      ensures m.scale(m.ring.one, x) == x
      ensures m.scale(m.ring.mul(a, b), x) == m.scale(a, m.scale(b, x))
      ensures m.scale(m.ring.add(a, b), x) == m.group.add(m.scale(a, x), m.scale(b, x))
      ensures m.scale(a, m.group.add(x, y)) == m.group.add(m.scale(a, x), m.scale(a, y))
    {
      MulOne(r, x);
      MulComm(r, a, b); MulAssoc(r, x, b, a);
      MulAdd(r, x, a, b);
      MulComm(r, r.add(x, y), a); MulAdd(r, a, x, y); MulComm(r, a, x); MulComm(r, a, y);
    }
  }

  // ---------------------------------------------------------------- groups

  lemma AddComm<V(!new)>(g: Group<V>, x: V, y: V)
    requires AbelianGroup(g)
    ensures g.add(x, y) == g.add(y, x)
  { assert On(x, y, y); }

  lemma AddAssoc<V(!new)>(g: Group<V>, x: V, y: V, z: V)
    requires AbelianGroup(g)
    ensures g.add(g.add(x, y), z) == g.add(x, g.add(y, z))
  { assert On(x, y, z); }

  lemma AddZero<V(!new)>(g: Group<V>, x: V)
    requires AbelianGroup(g)
    ensures g.add(x, g.zero) == x == g.add(g.zero, x)
  { assert On(x, g.zero, x); }

  lemma AddNeg<V(!new)>(g: Group<V>, x: V)
    requires AbelianGroup(g)
    ensures g.add(x, g.neg(x)) == g.zero == g.add(g.neg(x), x)
  { assert On(x, g.neg(x), x); }

  // (a + b) + (c + d) == (a + c) + (b + d)
  lemma AddSwap<V(!new)>(g: Group<V>, a: V, b: V, c: V, d: V)
    requires AbelianGroup(g)
    ensures g.add(g.add(a, b), g.add(c, d)) == g.add(g.add(a, c), g.add(b, d))
  {
    AddAssoc(g, a, b, g.add(c, d));
    AddAssoc(g, b, c, d);
    AddComm(g, b, c);
    AddAssoc(g, c, b, d);
    AddAssoc(g, a, c, g.add(b, d));
  }

  lemma AddSub<V(!new)>(g: Group<V>, x: V, y: V)
    requires AbelianGroup(g)
    ensures g.Sub(g.add(x, y), y) == x
    ensures g.add(g.Sub(x, y), y) == x
  {
    AddAssoc(g, x, y, g.neg(y));
    AddAssoc(g, x, g.neg(y), y);
    AddNeg(g, y);
    AddZero(g, x);
  }

  lemma AddCancel<V(!new)>(g: Group<V>, x: V, y: V, z: V)
    requires AbelianGroup(g)
    requires g.add(x, z) == g.add(y, z)
    ensures x == y
  {
    AddSub(g, x, z);
    AddSub(g, y, z);
  }

  lemma NegUnique<V(!new)>(g: Group<V>, x: V, y: V)
    requires AbelianGroup(g)
    requires g.add(x, y) == g.zero
    ensures y == g.neg(x)
  {
    AddNeg(g, x);
    AddComm(g, x, y);
    AddCancel(g, y, g.neg(x), x);
  }

  lemma NegNeg<V(!new)>(g: Group<V>, x: V)
    requires AbelianGroup(g)
    ensures g.neg(g.neg(x)) == x
  {
    AddNeg(g, x);
    NegUnique(g, g.neg(x), x);
  }

  lemma NegAdd<V(!new)>(g: Group<V>, x: V, y: V)
    requires AbelianGroup(g)
    ensures g.neg(g.add(x, y)) == g.add(g.neg(x), g.neg(y))
  {
    AddSwap(g, x, y, g.neg(x), g.neg(y));
    AddNeg(g, x);
    AddNeg(g, y);
    AddZero(g, g.zero);
    NegUnique(g, g.add(x, y), g.add(g.neg(x), g.neg(y)));
  }

  // ---------------------------------------------------------------- rings

  lemma MulComm<S(!new)>(r: Ring<S>, x: S, y: S)
    requires CommRing(r)
    ensures r.mul(x, y) == r.mul(y, x)
  { assert On(x, y, y); }

  lemma MulAssoc<S(!new)>(r: Ring<S>, x: S, y: S, z: S)
    requires CommRing(r)
    ensures r.mul(r.mul(x, y), z) == r.mul(x, r.mul(y, z))
  { assert On(x, y, z); }

  lemma MulOne<S(!new)>(r: Ring<S>, x: S)
    requires CommRing(r)
    ensures r.mul(x, r.one) == x == r.mul(r.one, x)
  { assert On(x, r.one, x); }

  lemma MulAdd<S(!new)>(r: Ring<S>, x: S, y: S, z: S)
    requires CommRing(r)
    ensures r.mul(x, r.add(y, z)) == r.add(r.mul(x, y), r.mul(x, z))
  { assert On(x, y, z); }

  lemma AddMul<S(!new)>(r: Ring<S>, x: S, y: S, z: S)
    requires CommRing(r)
    ensures r.mul(r.add(x, y), z) == r.add(r.mul(x, z), r.mul(y, z))
  {
    MulComm(r, r.add(x, y), z);
    MulAdd(r, z, x, y);
    MulComm(r, z, x);
    MulComm(r, z, y);
  }

  // (a * b) * (c * d) == (a * c) * (b * d)
  lemma MulSwap<S(!new)>(r: Ring<S>, a: S, b: S, c: S, d: S)
    requires CommRing(r)
    ensures r.mul(r.mul(a, b), r.mul(c, d)) == r.mul(r.mul(a, c), r.mul(b, d))
  {
    MulAssoc(r, a, b, r.mul(c, d));
    MulAssoc(r, b, c, d);
    MulComm(r, b, c);
    MulAssoc(r, c, b, d);
    MulAssoc(r, a, c, r.mul(b, d));
  }

  lemma MulZero<S(!new)>(r: Ring<S>, x: S)
    requires CommRing(r)
    ensures r.mul(x, r.zero) == r.zero == r.mul(r.zero, x)
  {
    var g := r.Plus();
    var z := r.mul(x, r.zero);
    AddZero(g, r.zero);
    MulAdd(r, x, r.zero, r.zero);
    AddZero(g, z);
    AddCancel(g, z, r.zero, z);
    MulComm(r, x, r.zero);
  }

  lemma MulNeg<S(!new)>(r: Ring<S>, x: S, y: S)
    requires CommRing(r)
    ensures r.mul(x, r.neg(y)) == r.neg(r.mul(x, y)) == r.mul(r.neg(x), y)
  {
    var g := r.Plus();
    AddNeg(g, y);
    MulAdd(r, x, y, r.neg(y));
    MulZero(r, x);
    NegUnique(g, r.mul(x, y), r.mul(x, r.neg(y)));
    AddNeg(g, x);
    AddMul(r, x, r.neg(x), y);
    MulZero(r, y);
    NegUnique(g, r.mul(x, y), r.mul(r.neg(x), y));
  }

  lemma MulSub<S(!new)>(r: Ring<S>, x: S, y: S, z: S)
    requires CommRing(r)
    ensures r.mul(x, r.Sub(y, z)) == r.Sub(r.mul(x, y), r.mul(x, z))
    ensures r.mul(r.Sub(y, z), x) == r.Sub(r.mul(y, x), r.mul(z, x))
  {
    MulAdd(r, x, y, r.neg(z));
    MulNeg(r, x, z);
    AddMul(r, y, r.neg(z), x);
    MulNeg(r, z, x);
  }

  // x^n, with x^n == 1 for n <= 0
  function Pow<S(!new)>(r: Ring<S>, x: S, n: int): S
    decreases n
  {
    if n <= 0 then r.one else r.mul(x, Pow(r, x, n - 1))
  }

  lemma {:induction false} PowAdd<S(!new)>(r: Ring<S>, x: S, a: nat, b: nat)
    requires CommRing(r)
    ensures Pow(r, x, a + b) == r.mul(Pow(r, x, a), Pow(r, x, b))
  {
    if a == 0 {
      MulOne(r, Pow(r, x, b));
    } else {
      PowAdd(r, x, a - 1, b);
      MulAssoc(r, x, Pow(r, x, a - 1), Pow(r, x, b));
    }
  }

  lemma PowOne<S(!new)>(r: Ring<S>, x: S)
    requires CommRing(r)
    ensures Pow(r, x, 1) == x
  { MulOne(r, x); }

  lemma {:induction false} OnePow<S(!new)>(r: Ring<S>, n: nat)
    requires CommRing(r)
    ensures Pow(r, r.one, n) == r.one
  {
    if n > 0 {
      OnePow(r, n - 1);
      MulOne(r, r.one);
    }
  }

  lemma {:induction false} PowPow<S(!new)>(r: Ring<S>, x: S, a: nat, b: nat)
    requires CommRing(r)
    ensures Pow(r, Pow(r, x, a), b) == Pow(r, x, a * b)
  {
    if b > 0 {
      PowPow(r, x, a, b - 1);
      assert a * b == a + a * (b - 1);
      PowAdd(r, x, a, a * (b - 1));
    } else {
      assert a * b == 0;
    }
  }

  lemma {:induction false} MulPow<S(!new)>(r: Ring<S>, x: S, y: S, n: nat)
    requires CommRing(r)
    ensures Pow(r, r.mul(x, y), n) == r.mul(Pow(r, x, n), Pow(r, y, n))
  {
    if n == 0 {
      MulOne(r, r.one);
    } else {
      MulPow(r, x, y, n - 1);
      MulSwap(r, x, y, Pow(r, x, n - 1), Pow(r, y, n - 1));
    }
  }

  lemma {:induction false} ZeroPow<S(!new)>(r: Ring<S>, n: nat)
    requires CommRing(r) && n > 0
    ensures Pow(r, r.zero, n) == r.zero
  {
    MulZero(r, Pow(r, r.zero, n - 1));
  }

  // Exponents of a root of unity count modulo its order.
  lemma PowMod<S(!new)>(r: Ring<S>, x: S, n: nat, e: nat)
    requires CommRing(r) && n > 0 && Pow(r, x, n) == r.one
    ensures Pow(r, x, e) == Pow(r, x, e % n)
  {
    var q := e / n;
    assert e == n * q + e % n;
    assert n * q >= 0;
    PowAdd(r, x, n * q, e % n);
    PowPow(r, x, n, q);
    OnePow(r, q);
    MulOne(r, Pow(r, x, e % n));
  }

  // n * 1, the image of `blst_fr_from_uint64`
  function FromNat<S(!new)>(r: Ring<S>, n: int): S
    decreases n
  {
    if n <= 0 then r.zero else r.add(FromNat(r, n - 1), r.one)
  }

  lemma {:induction false} FromNatAdd<S(!new)>(r: Ring<S>, a: nat, b: nat)
    requires CommRing(r)
    ensures FromNat(r, a + b) == r.add(FromNat(r, a), FromNat(r, b))
  {
    if b == 0 {
      AddZero(r.Plus(), FromNat(r, a));
    } else {
      FromNatAdd(r, a, b - 1);
      AddAssoc(r.Plus(), FromNat(r, a), FromNat(r, b - 1), r.one);
    }
  }

  lemma {:induction false} FromNatMul<S(!new)>(r: Ring<S>, a: nat, b: nat)
    requires CommRing(r)
    ensures FromNat(r, a * b) == r.mul(FromNat(r, a), FromNat(r, b))
  {
    if b == 0 {
      MulZero(r, FromNat(r, a));
      assert a * b == 0;
    } else {
      FromNatMul(r, a, b - 1);
      assert a * b == a * (b - 1) + a;
      FromNatAdd(r, a * (b - 1), a);
      MulAdd(r, FromNat(r, a), FromNat(r, b - 1), r.one);
      MulOne(r, FromNat(r, a));
    }
  }

  // ---------------------------------------------------------------- fields

  lemma MulInv<S(!new)>(r: Ring<S>, x: S)
    requires IsField(r) && x != r.zero
    ensures r.mul(x, r.inv(x)) == r.one == r.mul(r.inv(x), x)
  {
    assert On(x, x, x);
    MulComm(r, x, r.inv(x));
  }

  lemma NoZeroDivisors<S(!new)>(r: Ring<S>, x: S, y: S)
    requires IsField(r) && r.mul(x, y) == r.zero
    ensures x == r.zero || y == r.zero
  {
    if x != r.zero {
      MulInv(r, x);
      MulAssoc(r, r.inv(x), x, y);
      MulZero(r, r.inv(x));
      MulOne(r, y);
    }
  }

  lemma MulCancel<S(!new)>(r: Ring<S>, x: S, y: S, z: S)
    requires IsField(r) && z != r.zero && r.mul(x, z) == r.mul(y, z)
    ensures x == y
  {
    MulAssoc(r, x, z, r.inv(z));
    MulAssoc(r, y, z, r.inv(z));
    MulInv(r, z);
    MulOne(r, x);
    MulOne(r, y);
  }

  lemma Divide<S(!new)>(r: Ring<S>, d: S, x: S)
    requires IsField(r) && d != r.zero
    ensures r.mul(r.inv(d), r.mul(d, x)) == x == r.mul(d, r.mul(r.inv(d), x))
  {
    MulInv(r, d);
    MulAssoc(r, r.inv(d), d, x);
    MulAssoc(r, d, r.inv(d), x);
    MulOne(r, x);
  }

  // ---------------------------------------------------------------- modules

  lemma ScaleOne<S(!new), V(!new)>(m: Module<S, V>, x: V)
    requires IsModule(m)
    ensures m.scale(m.ring.one, x) == x
  { assert OnScaled(m.ring.one, m.ring.one, x, x); }

  lemma ScaleMul<S(!new), V(!new)>(m: Module<S, V>, a: S, b: S, x: V)
    requires IsModule(m)
    ensures m.scale(m.ring.mul(a, b), x) == m.scale(a, m.scale(b, x))
  { assert OnScaled(a, b, x, x); }

  lemma ScaleAdd<S(!new), V(!new)>(m: Module<S, V>, a: S, x: V, y: V)
    requires IsModule(m)
    ensures m.scale(a, m.group.add(x, y)) == m.group.add(m.scale(a, x), m.scale(a, y))
  { assert OnScaled(a, a, x, y); }

  lemma AddScale<S(!new), V(!new)>(m: Module<S, V>, a: S, b: S, x: V)
    requires IsModule(m)
    ensures m.scale(m.ring.add(a, b), x) == m.group.add(m.scale(a, x), m.scale(b, x))
  { assert OnScaled(a, b, x, x); }

  lemma ScaleZero<S(!new), V(!new)>(m: Module<S, V>, a: S, x: V)
    requires IsModule(m)
    ensures m.scale(a, m.group.zero) == m.group.zero
    ensures m.scale(m.ring.zero, x) == m.group.zero
  {
    var z := m.scale(a, m.group.zero);
    AddZero(m.group, m.group.zero);
    ScaleAdd(m, a, m.group.zero, m.group.zero);
    AddZero(m.group, z);
    AddCancel(m.group, z, m.group.zero, z);
    var y := m.scale(m.ring.zero, x);
    AddZero(m.ring.Plus(), m.ring.zero);
    AddScale(m, m.ring.zero, m.ring.zero, x);
    AddZero(m.group, y);
    AddCancel(m.group, y, m.group.zero, y);
  }

  lemma ScaleNeg<S(!new), V(!new)>(m: Module<S, V>, a: S, x: V)
    requires IsModule(m)
    ensures m.scale(m.ring.neg(a), x) == m.group.neg(m.scale(a, x))
  {
    AddNeg(m.ring.Plus(), a);
    AddScale(m, a, m.ring.neg(a), x);
    ScaleZero(m, a, x);
    NegUnique(m.group, m.scale(a, x), m.scale(m.ring.neg(a), x));
  }
}
