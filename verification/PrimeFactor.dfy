/** The prime-factor (Good-Thomas) transform of length n1 * n2 for coprime n1, n2. */
module PrimeFactor {
  import opened Algebra
  import opened Sums
  import opened Fourier
  import opened NumberTheory
  import opened Fft

  // ---------------------------------------------------------------- the identity

  lemma PowReduced<S(!new)>(r: Ring<S>, v: S, n: nat, i: nat, x: nat)
    requires CommRing(r) && n > 0 && Pow(r, v, n) == r.one
    ensures Pow(r, Pow(r, v, i), x) == Pow(r, v, i * (x % n))
  {
    PowOfRoot(r, v, n, i);
    PowMod(r, Pow(r, v, i), n, x);
    PowPow(r, v, i, x % n);
  }

  // w^(k * x) from the powers of w^n2 and w^n1, for k == n1 * j + n2 * i
  lemma PowLinear<S(!new)>(r: Ring<S>, w: S, n1: nat, n2: nat, i: nat, j: nat, a: nat, b: nat)
    requires CommRing(r) && a == n1 * j && b == n2 * i
    ensures Pow(r, w, a + b) == r.mul(Pow(r, Pow(r, w, n2), i), Pow(r, Pow(r, w, n1), j))
  {
    PowPow(r, w, n1, j);
    PowPow(r, w, n2, i);
    PowAdd(r, w, b, a);
  }

  lemma PowProduct<S(!new)>(r: Ring<S>, w: S, u: S, v: S, k: nat, x: nat)
    requires CommRing(r) && Pow(r, w, k) == r.mul(u, v)
    ensures Pow(r, w, k * x) == r.mul(Pow(r, u, x), Pow(r, v, x))
  {
    PowPow(r, w, k, x);
    MulPow(r, u, v, x);
  }

  // Splitting the exponent of one term: w^(k * x) from the remainders of x.
  lemma SplitExponent<S(!new)>(r: Ring<S>, w: S, n1: nat, n2: nat, i: nat, j: nat, x: nat)
    requires CommRing(r) && n1 > 0 && n2 > 0 && n1 * n2 > 0 && Pow(r, w, n1 * n2) == r.one
    ensures Pow(r, w, Gather(n1, n2, i, j) * x)
         == r.mul(Pow(r, Pow(r, w, n2), i * (x % n1)), Pow(r, Pow(r, w, n1), j * (x % n2)))
  {
    var a: nat, b: nat := n1 * j, n2 * i;
    var w1, w2 := Pow(r, w, n2), Pow(r, w, n1);
    PowLinear(r, w, n1, n2, i, j, a, b);
    PowProduct(r, w, Pow(r, w1, i), Pow(r, w2, j), a + b, x);
    ReducedExponent(r, w, n1 * n2, a + b, x);
    PowPow(r, w, n1, n2);
    FactorRoot(r, w, n1, n2);
    PowReduced(r, w1, n1, i, x);
    PowReduced(r, w2, n2, j, x);
  }

  lemma FactorRoot<S(!new)>(r: Ring<S>, w: S, n1: nat, n2: nat)
    requires CommRing(r) && Pow(r, w, n1 * n2) == r.one
    ensures Pow(r, Pow(r, w, n2), n1) == r.one
  {
    PowPow(r, w, n2, n1);
    assert n2 * n1 == n1 * n2;
  }

  lemma ReducedExponent<S(!new)>(r: Ring<S>, w: S, n: nat, k: nat, x: nat)
    requires CommRing(r) && n > 0 && Pow(r, w, n) == r.one
    ensures k % n * x >= 0
    ensures Pow(r, w, (k % n) * x) == Pow(r, w, k * x)
  {
    var e := k % n;
    assert e * x >= 0 && k * x >= 0;
    PowPow(r, w, e, x);
    PowPow(r, w, k, x);
    PowMod(r, w, n, k);
  }

  // The scattered input b, row after row of length n2, with its two twiddle factors.
  ghost predicate IsTwisted<S(!new), V(!new)>(
    m: Module<S, V>, w1: S, w2: S, b: int -> V, n2: nat, i: int, j: int, h: int -> V)
  {
    forall q, t {:trigger Cell(n2, q, t)} :: 0 <= q && 0 <= t < n2 ==>
      h(Cell(n2, q, t)) == m.scale(m.ring.mul(Pow(m.ring, w1, i * q), Pow(m.ring, w2, j * t)), b(Cell(n2, q, t)))
  }

  lemma TwistedExists<S(!new), V(!new)>(m: Module<S, V>, w1: S, w2: S, b: int -> V, n2: nat, i: int, j: int)
    returns (h: int -> V)
    requires n2 > 0
    ensures IsTwisted(m, w1, w2, b, n2, i, j, h)
  {
    h := p => m.scale(m.ring.mul(Pow(m.ring, w1, i * (p / n2)), Pow(m.ring, w2, j * (p % n2))), b(p));
    forall q, t {:trigger Cell(n2, q, t)} | 0 <= q && 0 <= t < n2
      ensures Cell(n2, q, t) / n2 == q && Cell(n2, q, t) % n2 == t
    {
      CellDivMod(n2, q, t);
    }
  }

  lemma CellDivMod(n: nat, q: nat, t: nat)
    requires t < n
    ensures Cell(n, q, t) / n == q && Cell(n, q, t) % n == t
  {
    assert n * q >= 0;
    DivModUnique(n * q + t, n, q, t);
  }

  // The transform of row a of the scattered input, at entry j.
  function RowValue<S(!new), V(!new)>(m: Module<S, V>, w2: S, b: int -> V, n2: int, j: int): int -> V {
    a => Dft(m, w2, b, Cell(n2, a, 0), 1, n2, j)
  }

  lemma TwistedRow<S(!new), V(!new)>(
    m: Module<S, V>, w1: S, w2: S, b: int -> V, n2: nat, i: nat, j: nat, h: int -> V, a: nat)
    requires IsModule(m) && IsTwisted(m, w1, w2, b, n2, i, j, h)
    ensures Sum(m.group, t => h(a * n2 + t), n2) == m.scale(Pow(m.ring, w1, i * a), RowValue(m, w2, b, n2, j)(a))
  {
    var c := Pow(m.ring, w1, i * a);
    var row := t => h(a * n2 + t);
    var term := DftTerm(m, w2, b, Cell(n2, a, 0), 1, j);
    forall t | 0 <= t < n2 ensures row(t) == m.scale(c, term(t)) {
      var p := Cell(n2, a, t);
      CellSplit(n2, a, t);
      ScaleMul(m, c, Pow(m.ring, w2, j * t), b(p));
    }
    SumScale(m, c, row, term, n2);
    SumExt(m.group, row, t => h(a * n2 + t), n2);
  }

  lemma CellSplit(n: int, q: int, t: int)
    ensures Cell(n, q, t) == q * n + t == Cell(n, q, 0) + 1 * t
  {
  }

  lemma CellOffset(n: int, q: int, t: int)
    ensures Cell(n, q, t) == Cell(n, q, 0) + t
  {
  }

  lemma TwistedAtScatter<S(!new), V(!new)>(
    m: Module<S, V>, w: S, f: int -> V, b: int -> V, n1: nat, n2: nat, i: nat, j: nat, h: int -> V, x: nat)
    requires IsModule(m) && n1 > 0 && n2 > 0 && n1 * n2 > 0 && Pow(m.ring, w, n1 * n2) == m.ring.one
    requires IsTwisted(m, Pow(m.ring, w, n2), Pow(m.ring, w, n1), b, n2, i, j, h)
    requires b(Scatter(n1, n2, x)) == f(x)
    ensures DftTerm(m, w, f, 0, 1, Gather(n1, n2, i, j))(x) == h(Scatter(n1, n2, x))
  {
    SplitExponent(m.ring, w, n1, n2, i, j, x);
    CellSplit(n2, x % n1, x % n2);
    assert Scatter(n1, n2, x) == Cell(n2, x % n1, x % n2);
  }

  lemma ScatterIsInjective(n1: nat, n2: nat, place: int -> int)
    requires n1 > 0 && n2 > 0 && Gcd(n1, n2) == 1
    requires forall x :: place(x) == Scatter(n1, n2, x)
    ensures InjectiveBelow(place, n1 * n2)
  {
    forall x | 0 <= x < n1 * n2 ensures 0 <= place(x) < n1 * n2 { ScatterBound(n1, n2, x); }
    forall x, y | 0 <= x < y < n1 * n2 ensures place(x) != place(y) {
      if Scatter(n1, n2, x) == Scatter(n1, n2, y) { ScatterInjective(n1, n2, x, y); }
    }
  }

  /** Two rounds of short transforms over the scattered input are one long transform. */
  lemma GoodThomas<S(!new), V(!new)>(
    m: Module<S, V>, w: S, f: int -> V, b: int -> V, n1: nat, n2: nat, i: nat, j: nat)
    requires IsModule(m) && n1 > 0 && n2 > 0 && n1 * n2 > 0 && Gcd(n1, n2) == 1
    requires Pow(m.ring, w, n1 * n2) == m.ring.one
    requires forall x :: 0 <= x < n1 * n2 ==> b(Scatter(n1, n2, x)) == f(x)
    ensures Dft(m, w, f, 0, 1, n1 * n2, Gather(n1, n2, i, j))
         == Dft(m, Pow(m.ring, w, n2), RowValue(m, Pow(m.ring, w, n1), b, n2, j), 0, 1, n1, i)
  {
    var n, w1, w2 := n1 * n2, Pow(m.ring, w, n2), Pow(m.ring, w, n1);
    var long := DftTerm(m, w, f, 0, 1, Gather(n1, n2, i, j));
    var h := TwistedExists(m, w1, w2, b, n2, i, j);
    var place := x => Scatter(n1, n2, x);
    ScatterIsInjective(n1, n2, place);
    forall x | 0 <= x < n ensures long(x) == h(place(x)) {
      TwistedAtScatter(m, w, f, b, n1, n2, i, j, h, x);
    }
    SumReindex(m.group, h, long, place, n);
    var rows := DftTerm(m, w1, RowValue(m, w2, b, n2, j), 0, 1, i);
    forall a | 0 <= a < n1 ensures rows(a) == Sum(m.group, t => h(a * n2 + t), n2) {
      TwistedRow(m, w1, w2, b, n2, i, j, h, a);
    }
    SumFlatten(m.group, h, rows, n1, n2);
  }

  // ---------------------------------------------------------------- lengths

  // Bitwise conjunction of two naturals.
  function And(a: nat, b: nat): nat
    decreases a
  {
    if a == 0 || b == 0 then 0 else 2 * And(a / 2, b / 2) + (if a % 2 == 1 && b % 2 == 1 then 1 else 0)
  }

  lemma {:induction false} AndSelf(a: nat)
    ensures And(a, a) == a
  {
    if a > 0 { AndSelf(a / 2); }
  }

  function Log2(n: nat): nat { if n < 2 then 0 else 1 + Log2(n / 2) }

  lemma {:induction false} Log2Bounds(n: nat)
    requires n > 0
    ensures P2(Log2(n)) <= n < 2 * P2(Log2(n))
  {
    if n > 1 { Log2Bounds(n / 2); }
  }

  lemma {:induction false} AndPred(n: nat)
    requires n > 0
    ensures And(n, n - 1) == 0 <==> n == P2(Log2(n))
  {
    if n > 1 {
      var h := n / 2;
      assert P2(Log2(n)) == 2 * P2(Log2(h));
      if n % 2 == 0 {
        assert And(n, n - 1) == 2 * And(h, (n - 1) / 2) && (n - 1) / 2 == h - 1;
        AndPred(h);
      } else {
        assert And(n, n - 1) == 2 * And(h, (n - 1) / 2) && (n - 1) / 2 == h;
        AndSelf(h);
      }
    }
  }

  lemma {:induction false} Log2OfP2(l: nat)
    ensures Log2(P2(l)) == l
  {
    if l > 0 { Log2OfP2(l - 1); }
  }

  method IsPowerOfTwo(n: nat) returns (b: bool)
    requires n > 0
    ensures b <==> exists l: nat :: n == P2(l)
  {
    b := And(n, n - 1) == 0;
    AndPred(n);
    forall l: nat | n == P2(l) ensures n == P2(Log2(n)) { Log2OfP2(l); }
  }

  method IntegerLog2(n: nat) returns (l: nat)
    requires n > 0
    ensures P2(l) <= n < 2 * P2(l)
  {
    l := 0;
    var x: nat := n / 2;
    while x != 0
      invariant x == 0 ==> l == Log2(n)
      invariant x > 0 ==> l + 1 + Log2(x) == Log2(n)
      decreases x
    {
      l := l + 1;
      x := x / 2;
    }
    Log2Bounds(n);
  }

  // ---------------------------------------------------------------- the algorithm

  // The factor of a transform's result: 1, or 1/n for the inverse.
  function Norm<S(!new)>(r: Ring<S>, n: nat, inverse: bool): S {
    if inverse then r.inv(FromNat(r, n)) else r.one
  }

  lemma TransformAt<S(!new), V(!new)>(m: Module<S, V>, w: S, inverse: bool, s: seq<V>, t: nat)
    requires IsModule(m) && t < |s|
    ensures Transform(m, w, inverse, s)[t]
         == m.scale(Norm(m.ring, |s|, inverse), Dft(m, Root(m.ring, w, |s|, inverse), At(m.group, s), 0, 1, |s|, t))
  {
    ScaleOne(m, Dft(m, w, At(m.group, s), 0, 1, |s|, t));
  }

  lemma DftShift<S(!new), V(!new)>(m: Module<S, V>, v: S, f: int -> V, off: int, f': int -> V, off': int, n: nat, t: int)
    requires forall p {:trigger f(p)} :: off <= p < off + n ==> f(p) == f'(p - off + off')
    ensures Dft(m, v, f, off, 1, n, t) == Dft(m, v, f', off', 1, n, t)
  {
    forall j | 0 <= j < n
      ensures DftTerm(m, v, f, off, 1, t)(j) == DftTerm(m, v, f', off', 1, t)(j)
    {
      assert f(off + j) == f'(off' + j);
    }
    SumExt(m.group, DftTerm(m, v, f, off, 1, t), DftTerm(m, v, f', off', 1, t), n);
  }

  // One transform, by the fast routine when the length allows it.
  method TransformRow<S(!new), V(!new)>(
    m: Module<S, V>, a: array<V>, base: nat, domain: seq<S>, buffer: array<V>, n: nat, inverse: bool, ghost w: S)
    requires IsModule(m) && IsField(m.ring) && a != buffer && base + n <= a.Length
    requires PrimitiveRoot(m.ring, w, n) && IsDomain(m.ring, domain, w, n)
    requires (exists l: nat :: n == P2(l)) || n <= buffer.Length
    modifies a, buffer
    ensures Slice(a[..], base, n) == Transform(m, w, inverse, Slice(old(a[..]), base, n))
    ensures SameOutside(a[..], old(a[..]), base, n)
  {
    var fast := IsPowerOfTwo(n);
    if fast {
      var l := IntegerLog2(n);
      ghost var l' :| n == P2(l');
      P2Unique(l, l');
      if inverse {
        IfftInplace(m, a, base, domain, l, w);
      } else {
        ghost var s := Slice(a[..], base, n);
        assert s + Zeros(m.group, 0) == s;
        FftInplace(m, a, base, domain, l, l, w);
      }
    } else {
      DftInplace(m, a, base, domain, buffer, n, inverse, w);
    }
  }

  lemma {:induction false} P2Unique(l: nat, k: nat)
    requires P2(l) <= P2(k) < 2 * P2(l)
    ensures l == k
  {
    if l > 0 && k > 0 { P2Unique(l - 1, k - 1); }
  }

  // Round `after` from `before`: every row of length n is transformed.
  ghost predicate RowsTransformed<S(!new), V(!new)>(
    m: Module<S, V>, w: S, inverse: bool, base: int, n: nat, count: nat, before: int -> V, after: int -> V)
  {
    forall q, t {:trigger Cell(n, q, t)} :: 0 <= q < count && 0 <= t < n ==>
      after(base + Cell(n, q, t))
        == m.scale(Norm(m.ring, n, inverse),
                   Dft(m, Root(m.ring, w, n, inverse), before, base + Cell(n, q, 0), 1, n, t))
  }

  lemma RowFromSlice<S(!new), V(!new)>(
    m: Module<S, V>, w: S, inverse: bool, n: nat, c: seq<V>, c': seq<V>, lo: nat, t: nat)
    requires IsModule(m) && lo + n <= |c| == |c'| && t < n
    requires Slice(c', lo, n) == Transform(m, w, inverse, Slice(c, lo, n))
    ensures At(m.group, c')(lo + t)
         == m.scale(Norm(m.ring, n, inverse), Dft(m, Root(m.ring, w, n, inverse), At(m.group, c), lo, 1, n, t))
  {
    var s := Slice(c, lo, n);
    TransformAt(m, w, inverse, s, t);
    assert Slice(c', lo, n)[t] == c'[lo + t];
    DftShift(m, Root(m.ring, w, n, inverse), At(m.group, c), lo, At(m.group, s), 0, n, t);
  }

  lemma RowBounds(n: nat, q: int, count: int)
    requires 0 <= q < count
    ensures 0 <= Cell(n, q, 0) && Cell(n, q, 0) + n <= Cell(n, count, 0)
    ensures Cell(n, q + 1, 0) == Cell(n, q, 0) + n
    ensures forall t {:trigger Cell(n, q, t)} :: Cell(n, q, t) == Cell(n, q, 0) + t
  {
    assert n * count == n * (q + 1) + n * (count - q - 1);
  }

  // The first i rows are transformed and the cells outside them are as they were in c0.
  ghost predicate RoundState<S(!new), V(!new)>(
    m: Module<S, V>, w: S, inverse: bool, base: nat, n: nat, i: nat, c0: seq<V>, c: seq<V>)
  {
    && |c| == |c0|
    && RowsTransformed(m, w, inverse, base, n, i, At(m.group, c0), At(m.group, c))
    && forall p :: 0 <= p < |c| && !(base <= p < base + Cell(n, i, 0)) ==> c[p] == c0[p]
  }

  method FftRoundRow<S(!new), V(!new)>(
    m: Module<S, V>, a: array<V>, base: nat, domain: seq<S>, i: nat, n: nat, buffer: array<V>, inverse: bool,
    ghost w: S, ghost c0: seq<V>)
    requires IsModule(m) && IsField(m.ring) && a != buffer && 0 <= Cell(n, i, 0) && base + Cell(n, i, 0) + n <= a.Length
    requires PrimitiveRoot(m.ring, w, n) && IsDomain(m.ring, domain, w, n)
    requires (exists l: nat :: n == P2(l)) || n <= buffer.Length
    requires RoundState(m, w, inverse, base, n, i, c0, a[..])
    modifies a, buffer
    ensures RoundState(m, w, inverse, base, n, i + 1, c0, a[..])
  {
    ghost var c := a[..];
    TransformRow(m, a, base + i * n, domain, buffer, n, inverse, w);
    RoundStep(m, w, inverse, base, n, i, c0, c, a[..]);
  }

  /** One round: every row of the slice is transformed in place, and nothing else changes. */
  method FftRound<S(!new), V(!new)>(
    m: Module<S, V>, a: array<V>, base: nat, domain: seq<S>, count: nat, n: nat, buffer: array<V>, inverse: bool, ghost w: S)
    requires IsModule(m) && IsField(m.ring) && a != buffer && base + Cell(n, count, 0) <= a.Length
    requires PrimitiveRoot(m.ring, w, n) && IsDomain(m.ring, domain, w, n)
    requires (exists l: nat :: n == P2(l)) || n <= buffer.Length
    modifies a, buffer
    ensures RoundState(m, w, inverse, base, n, count, old(a[..]), a[..])
  {
    for i := 0 to count
      invariant RoundState(m, w, inverse, base, n, i, old(a[..]), a[..])
    {
      RowBounds(n, i, count);
      FftRoundRow(m, a, base, domain, i, n, buffer, inverse, w, old(a[..]));
    }
  }

  lemma RoundStep<S(!new), V(!new)>(
    m: Module<S, V>, w: S, inverse: bool, base: nat, n: nat, i: nat, c0: seq<V>, c: seq<V>, c': seq<V>)
    requires IsModule(m) && |c| == |c'| && base + Cell(n, i, 0) + n <= |c| && Cell(n, i, 0) >= 0
    requires RoundState(m, w, inverse, base, n, i, c0, c)
    requires Slice(c', base + Cell(n, i, 0), n) == Transform(m, w, inverse, Slice(c, base + Cell(n, i, 0), n))
    requires SameOutside(c', c, base + Cell(n, i, 0), n)
    ensures RoundState(m, w, inverse, base, n, i + 1, c0, c')
  {
    var before := At(m.group, c0);
    RowBounds(n, i, i + 1);
    var lo := base + Cell(n, i, 0);
    var v := Root(m.ring, w, n, inverse);
    forall q, t {:trigger Cell(n, q, t)} | 0 <= q < i + 1 && 0 <= t < n
      ensures At(m.group, c')(base + Cell(n, q, t))
           == m.scale(Norm(m.ring, n, inverse), Dft(m, v, before, base + Cell(n, q, 0), 1, n, t))
    {
      RowBounds(n, q, i + 1);
      if q == i {
        RowFromSlice(m, w, inverse, n, c, c', lo, t);
        DftShift(m, v, At(m.group, c), lo, before, lo, n, t);
      } else {
        RowBounds(n, q, i);
        assert At(m.group, c')(base + Cell(n, q, t)) == At(m.group, c)(base + Cell(n, q, t));
      }
    }
  }

  // ---------------------------------------------------------------- index maps

  // Scatter: cell (x mod n1, x mod n2) of the buffer receives input x.
  method ScatterInput<V(!new)>(g: Group<V>, coefficients: array<V>, buffer: array<V>, n1: nat, n2: nat)
    requires n1 > 0 && n2 > 0 && Gcd(n1, n2) == 1 && coefficients != buffer
    requires coefficients.Length == n1 * n2 <= buffer.Length
    modifies buffer
    ensures forall x :: 0 <= x < n1 * n2 ==>
      At(g, buffer[..])(Scatter(n1, n2, x)) == At(g, coefficients[..])(x)
  {
    ghost var place := x => Scatter(n1, n2, x);
    ScatterIsInjective(n1, n2, place);
    for i := 0 to coefficients.Length
      invariant forall x :: 0 <= x < i ==> buffer[place(x)] == coefficients[x]
    {
      assert place(i) == (i % n1) * n2 + i % n2;
      buffer[(i % n1) * n2 + i % n2] := coefficients[i];
    }
    forall x | 0 <= x < n1 * n2
      ensures At(g, buffer[..])(Scatter(n1, n2, x)) == At(g, coefficients[..])(x)
    {
      assert buffer[place(x)] == coefficients[x];
    }
  }

  // c' lists, row after row of length n1, the columns of c, whose rows have length n2.
  ghost predicate IsTransposed<V(!new)>(c: int -> V, c': int -> V, n1: nat, n2: nat) {
    forall j, i {:trigger Cell(n1, j, i)} :: 0 <= j < n2 && 0 <= i < n1 ==> c'(Cell(n1, j, i)) == c(Cell(n2, i, j))
  }

  lemma TransposedExists<V(!new)>(c: int -> V, n1: nat, n2: nat) returns (c': int -> V)
    requires n1 > 0
    ensures IsTransposed(c, c', n1, n2)
  {
    c' := p => c(Cell(n2, p % n1, p / n1));
    forall j, i {:trigger Cell(n1, j, i)} | 0 <= j < n2 && 0 <= i < n1
      ensures Cell(n1, j, i) / n1 == j && Cell(n1, j, i) % n1 == i
    {
      CellDivMod(n1, j, i);
    }
  }

  lemma CellInside(n1: nat, n2: nat, q: int, t: int)
    requires 0 <= q < n1 && 0 <= t < n2
    ensures 0 <= Cell(n2, q, t) < n1 * n2
  {
    CellSplit(n2, q, t);
    CellBound(n1, n2, q, t);
  }

  // All pairs before (i, j) in the order of the two nested loops hold their target value.
  ghost predicate Written<V(!new)>(c: seq<V>, base: nat, n1: nat, n2: nat, i: int, j: int, target: int -> V) {
    forall j', i' {:trigger Cell(n1, j', i')} ::
      0 <= j' < n2 && 0 <= i' < n1 && (i' < i || (i' == i && j' < j)) ==>
        0 <= base + Cell(n1, j', i') < |c| && c[base + Cell(n1, j', i')] == target(Cell(n1, j', i'))
  }

  // Writing the pair (i, j), in the second half, into its place.
  lemma WrittenStep<V(!new)>(
    c: seq<V>, c': seq<V>, n: nat, n1: nat, n2: nat, i: int, j: int, source: int -> V, target: int -> V)
    requires |c| == 2 * n && 0 <= Cell(n1, j, i) < n && 0 <= Cell(n2, i, j) < n
    requires 0 <= i < n1 && 0 <= j < n2 && IsTransposed(source, target, n1, n2)
    requires Cells(c, 0, n, source) && Written(c, n, n1, n2, i, j, target)
    requires c' == c[n + Cell(n1, j, i) := c[Cell(n2, i, j)]]
    ensures Cells(c', 0, n, source) && Written(c', n, n1, n2, i, j + 1, target)
  {
    assert c[0 + Cell(n2, i, j)] == source(Cell(n2, i, j));
    hide Cell;
  }

  lemma WrittenStart<V(!new)>(c: seq<V>, n: nat, n1: nat, n2: nat, target: int -> V)
    ensures Written(c, n, n1, n2, 0, 0, target)
  {
  }

  lemma WrittenRow<V(!new)>(c: seq<V>, n: nat, n1: nat, n2: nat, i: int, target: int -> V)
    requires Written(c, n, n1, n2, i, n2, target)
    ensures Written(c, n, n1, n2, i + 1, 0, target)
  {
    hide Cell;
  }

  method TransposeHalf<V(!new)>(a: array<V>, n1: nat, n2: nat, ghost c: int -> V, ghost target: int -> V)
    requires n1 > 0 && n2 > 0 && a.Length == 2 * (n1 * n2)
    requires Cells(a[..], 0, n1 * n2, c) && IsTransposed(c, target, n1, n2)
    modifies a
    ensures Written(a[..], n1 * n2, n1, n2, n1, 0, target)
  {
    hide Cell, Cells, Written, IsTransposed;
    var n := n1 * n2;
    WrittenStart(a[..], n, n1, n2, target);
    for i := 0 to n1
      invariant Cells(a[..], 0, n, c)
      invariant Written(a[..], n, n1, n2, i, 0, target)
    {
      for j := 0 to n2
        invariant Cells(a[..], 0, n, c)
        invariant Written(a[..], n, n1, n2, i, j, target)
      {
        var from, to := TransposeIndex(n1, n2, n, i, j);
        ghost var before := a[..];
        a[n + to] := a[from];
        WrittenStep(before, a[..], n, n1, n2, i, j, c, target);
      }
      WrittenRow(a[..], n, n1, n2, i, target);
    }
  }

  method TransposeIndex(n1: nat, n2: nat, n: nat, i: nat, j: nat) returns (from: nat, to: nat)
    requires i < n1 && j < n2 && n == n1 * n2
    ensures from == Cell(n2, i, j) < n && to == Cell(n1, j, i) < n
  {
    CellInside(n1, n2, i, j);
    CellInside(n2, n1, j, i);
    assert n2 * n1 == n1 * n2;
    from, to := j + i * n2, j * n1 + i;
  }

  // ---------------------------------------------------------------- both rounds together

  // The roots of the two rounds are powers of the root of the whole transform, in both directions.
  lemma RootFactor<S(!new)>(r: Ring<S>, w: S, n1: nat, n2: nat, inverse: bool)
    requires CommRing(r) && n1 > 0 && n2 > 0 && n1 * n2 > 0 && Pow(r, w, n1 * n2) == r.one
    ensures Root(r, Pow(r, w, n2), n1, inverse) == Pow(r, Root(r, w, n1 * n2, inverse), n2)
  {
    if inverse {
      var n, w1 := n1 * n2, Pow(r, w, n2);
      FactorRoot(r, w, n1, n2);
      InverseRoot(r, w, n, 0);
      InverseRoot(r, w1, n1, 0);
      MulPow(r, w, Pow(r, w, n - 1), n2);
      OnePow(r, n2);
      MulComm(r, w1, Pow(r, Pow(r, w, n - 1), n2));
      MulComm(r, w1, Pow(r, w1, n1 - 1));
      InverseUnique(r, Pow(r, w1, n1 - 1), w1, Pow(r, Pow(r, w, n - 1), n2));
    }
  }

  lemma NormProduct<S(!new), V(!new)>(m: Module<S, V>, n1: nat, n2: nat, inverse: bool, x: V)
    requires IsModule(m) && IsField(m.ring)
    requires inverse ==> FromNat(m.ring, n1 * n2) != m.ring.zero
    ensures m.scale(Norm(m.ring, n1, inverse), m.scale(Norm(m.ring, n2, inverse), x))
         == m.scale(Norm(m.ring, n1 * n2, inverse), x)
  {
    var r := m.ring;
    if inverse {
      var a, b, c := FromNat(r, n1), FromNat(r, n2), FromNat(r, n1 * n2);
      FromNatMul(r, n1, n2);
      MulZero(r, a);
      MulZero(r, b);
      MulInv(r, a);
      MulInv(r, b);
      MulInv(r, c);
      MulSwap(r, r.inv(a), r.inv(b), a, b);
      MulOne(r, r.one);
      InverseUnique(r, r.mul(r.inv(a), r.inv(b)), c, r.inv(c));
      ScaleMul(m, r.inv(a), r.inv(b), x);
    } else {
      ScaleOne(m, x);
    }
  }

  // Entry i of the transform of transposed row j, from the rows of the first round.
  lemma SecondRound<S(!new), V(!new)>(
    m: Module<S, V>, v1: S, v2: S, c2: S, n1: nat, n2: nat, b: int -> V, b1: int -> V, t: int -> V, d: int -> V,
    base: int, i: nat, j: nat)
    requires IsModule(m) && i < n1 && j < n2
    requires forall q, t {:trigger Cell(n2, q, t)} :: 0 <= q < n1 && 0 <= t < n2 ==>
      b1(Cell(n2, q, t)) == m.scale(c2, Dft(m, v2, b, Cell(n2, q, 0), 1, n2, t))
    requires IsTransposed(b1, t, n1, n2)
    requires forall a {:trigger Cell(n1, j, a)} :: 0 <= a < n1 ==> d(base + Cell(n1, j, a)) == t(Cell(n1, j, a))
    ensures Dft(m, v1, d, base + Cell(n1, j, 0), 1, n1, i)
         == m.scale(c2, Dft(m, v1, RowValue(m, v2, b, n2, j), 0, 1, n1, i))
  {
    hide Cell, Dft;
    var row := RowValue(m, v2, b, n2, j);
    var scaled := a => m.scale(c2, row(a));
    var lo := base + Cell(n1, j, 0);
    forall p {:trigger d(p)} | lo <= p < lo + n1 ensures d(p) == scaled(p - lo + 0) {
      var a := p - lo;
      CellOffset(n1, j, a);
      assert p == base + Cell(n1, j, a);
      assert t(Cell(n1, j, a)) == b1(Cell(n2, a, j));
    }
    DftShift(m, v1, d, lo, scaled, 0, n1, i);
    DftScale(m, v1, c2, row, scaled, n1, i);
  }

  lemma GatherBound(n1: nat, n2: nat, i: nat, j: nat)
    requires n1 * n2 > 0
    ensures 0 <= Gather(n1, n2, i, j) < n1 * n2
  {
  }

  /** What the gather step reads is the value the long transform has at the index it writes. */
  lemma BothRounds<S(!new), V(!new)>(
    m: Module<S, V>, w: S, inverse: bool, s: seq<V>, n1: nat, n2: nat,
    b: int -> V, b1: int -> V, t: int -> V, d: int -> V, d1: int -> V, i: nat, j: nat)
    requires IsModule(m) && IsField(m.ring) && n1 > 0 && n2 > 0 && Gcd(n1, n2) == 1
    requires |s| == n1 * n2 > 0 && i < n1 && j < n2 && Pow(m.ring, w, n1 * n2) == m.ring.one
    requires inverse ==> FromNat(m.ring, n1 * n2) != m.ring.zero
    requires forall x :: 0 <= x < n1 * n2 ==> b(Scatter(n1, n2, x)) == At(m.group, s)(x)
    requires RowsTransformed(m, Pow(m.ring, w, n1), inverse, 0, n2, n1, b, b1)
    requires IsTransposed(b1, t, n1, n2)
    requires forall a {:trigger Cell(n1, j, a)} :: 0 <= a < n1 ==> d(n1 * n2 + Cell(n1, j, a)) == t(Cell(n1, j, a))
    requires RowsTransformed(m, Pow(m.ring, w, n2), inverse, n1 * n2, n1, n2, d, d1)
    ensures 0 <= Gather(n1, n2, i, j) < |s|
    ensures d1(n1 * n2 + Cell(n1, j, i)) == Transform(m, w, inverse, s)[Gather(n1, n2, i, j)]
  {
    hide Cell, Scatter, Gcd, Pow, Dft, IsTransposed, Norm, Root, Transform;
    var r, n := m.ring, n1 * n2;
    var v, k := Root(r, w, n, inverse), Gather(n1, n2, i, j);
    GatherBound(n1, n2, i, j);
    RootPower(r, w, n, inverse);
    RootFactor(r, w, n1, n2, inverse);
    SwapLengths(r, w, n1, n2, inverse);
    assert d1(n + Cell(n1, j, i))
        == m.scale(Norm(r, n1, inverse), Dft(m, Pow(r, v, n2), d, n + Cell(n1, j, 0), 1, n1, i));
    RoundsAsOne(m, v, Norm(r, n2, inverse), At(m.group, s), n1, n2, b, b1, t, d, i, j);
    NormProduct(m, n1, n2, inverse, Dft(m, v, At(m.group, s), 0, 1, n, k));
    TransformAt(m, w, inverse, s, k);
  }

  lemma RoundsAsOne<S(!new), V(!new)>(
    m: Module<S, V>, v: S, c2: S, f: int -> V, n1: nat, n2: nat,
    b: int -> V, b1: int -> V, t: int -> V, d: int -> V, i: nat, j: nat)
    requires IsModule(m) && n1 > 0 && n2 > 0 && Gcd(n1, n2) == 1
    requires n1 * n2 > 0 && i < n1 && j < n2 && Pow(m.ring, v, n1 * n2) == m.ring.one
    requires forall x :: 0 <= x < n1 * n2 ==> b(Scatter(n1, n2, x)) == f(x)
    requires forall q, t {:trigger Cell(n2, q, t)} :: 0 <= q < n1 && 0 <= t < n2 ==>
      b1(Cell(n2, q, t)) == m.scale(c2, Dft(m, Pow(m.ring, v, n1), b, Cell(n2, q, 0), 1, n2, t))
    requires IsTransposed(b1, t, n1, n2)
    requires forall a {:trigger Cell(n1, j, a)} :: 0 <= a < n1 ==> d(n1 * n2 + Cell(n1, j, a)) == t(Cell(n1, j, a))
    ensures Dft(m, Pow(m.ring, v, n2), d, n1 * n2 + Cell(n1, j, 0), 1, n1, i)
         == m.scale(c2, Dft(m, v, f, 0, 1, n1 * n2, Gather(n1, n2, i, j)))
  {
    hide Cell, Gather, Scatter, Gcd, Pow, Dft, IsTransposed;
    GoodThomas(m, v, f, b, n1, n2, i, j);
    SecondRound(m, Pow(m.ring, v, n2), Pow(m.ring, v, n1), c2, n1, n2, b, b1, t, d, n1 * n2, i, j);
  }

  lemma RootPower<S(!new)>(r: Ring<S>, w: S, n: nat, inverse: bool)
    requires CommRing(r) && n > 0 && Pow(r, w, n) == r.one
    ensures Pow(r, Root(r, w, n, inverse), n) == r.one
  {
    PowOfRoot(r, w, n, n - 1);
  }

  lemma SwapLengths<S(!new)>(r: Ring<S>, w: S, n1: nat, n2: nat, inverse: bool)
    requires CommRing(r) && n1 > 0 && n2 > 0 && n1 * n2 > 0 && Pow(r, w, n1 * n2) == r.one
    ensures Root(r, Pow(r, w, n1), n2, inverse) == Pow(r, Root(r, w, n1 * n2, inverse), n1)
  {
    assert n2 * n1 == n1 * n2;
    RootFactor(r, w, n2, n1, inverse);
  }

  // ---------------------------------------------------------------- the whole algorithm

  /** The gather index visits every output exactly once. */
  lemma GatherCovers(n1: nat, n2: nat, k: nat) returns (i: nat, j: nat)
    requires n1 > 0 && n2 > 0 && Gcd(n1, n2) == 1 && k < n1 * n2
    ensures i < n1 && j < n2 && Gather(n1, n2, i, j) == k
    ensures forall i', j' :: 0 <= i' < n1 && 0 <= j' < n2 && Gather(n1, n2, i', j') == k ==> i' == i && j' == j
  {
    var n := n1 * n2;
    var place := p => Gather(n1, n2, p % n1, p / n1);
    forall p | 0 <= p < n ensures 0 <= p / n1 < n2 && 0 <= p % n1 < n1 { QuotientBelow(p, n1, n2); }
    forall p, q | 0 <= p < q < n ensures place(p) != place(q) {
      if place(p) == place(q) {
        GatherInjective(n1, n2, p % n1, p / n1, q % n1, q / n1);
      }
    }
    var p := Pigeonhole(place, n, k);
    i, j := p % n1, p / n1;
    forall i', j' | 0 <= i' < n1 && 0 <= j' < n2 && Gather(n1, n2, i', j') == k ensures i' == i && j' == j {
      GatherInjective(n1, n2, i, j, i', j');
    }
  }

  lemma QuotientBelow(p: nat, h: nat, d: nat)
    requires h > 0 && p < h * d
    ensures 0 <= p / h < d
  {
    var q := p / h;
    assert h * q + p % h == p;
    AtLeast(h, q - d + 1);
    assert h * (q - d) == h * q - h * d;
    AtLeast(h, q - d);
  }

  // All pairs before (i, j) in the order of the two nested loops are gathered.
  ghost predicate Gathered<V(!new)>(c: seq<V>, n1: nat, n2: nat, i: int, j: int, result: seq<V>)
    requires n1 * n2 > 0
  {
    && |c| == |result| == n1 * n2
    && forall i', j' {:trigger Gather(n1, n2, i', j')} ::
      0 <= i' < n1 && 0 <= j' < n2 && (i' < i || (i' == i && j' < j)) ==>
        c[Gather(n1, n2, i', j')] == result[Gather(n1, n2, i', j')]
  }

  method GatherOutput<V(!new)>(
    g: Group<V>, coefficients: array<V>, buffer: array<V>, n1: nat, n2: nat, ghost result: seq<V>)
    requires n1 > 0 && n2 > 0 && n1 * n2 > 0 && Gcd(n1, n2) == 1 && coefficients != buffer
    requires coefficients.Length == |result| == n1 * n2 && buffer.Length == 2 * (n1 * n2)
    requires forall i, j {:trigger Gather(n1, n2, i, j)} :: 0 <= i < n1 && 0 <= j < n2 ==>
      At(g, buffer[..])(n1 * n2 + Cell(n1, j, i)) == result[Gather(n1, n2, i, j)]
    modifies coefficients
    ensures coefficients[..] == result
  {
    var n := n1 * n2;
    ghost var d := At(g, buffer[..]);
    hide Gathered, Gather, Cell;
    GatheredStart(coefficients[..], n1, n2, result);
    for i := 0 to n1
      invariant Gathered(coefficients[..], n1, n2, i, 0, result)
    {
      for j := 0 to n2
        invariant Gathered(coefficients[..], n1, n2, i, j, result)
      {
        var _, from := TransposeIndex(n1, n2, n, i, j);
        var to := GatherIndex(n1, n2, n, i, j);
        assert d(n + Cell(n1, j, i)) == result[Gather(n1, n2, i, j)];
        ghost var before := coefficients[..];
        coefficients[to] := buffer[n + from];
        GatheredStep(before, coefficients[..], n1, n2, i, j, result);
      }
      GatheredRow(coefficients[..], n1, n2, i, result);
    }
    GatheredAll(coefficients[..], n1, n2, result);
  }

  method GatherIndex(n1: nat, n2: nat, n: nat, i: nat, j: nat) returns (to: nat)
    requires i < n1 && j < n2 && n == n1 * n2 > 0
    ensures to == Gather(n1, n2, i, j) < n
  {
    to := (n1 * j + n2 * i) % n;
  }

  lemma GatheredStart<V(!new)>(c: seq<V>, n1: nat, n2: nat, result: seq<V>)
    requires n1 * n2 > 0 && |c| == |result| == n1 * n2
    ensures Gathered(c, n1, n2, 0, 0, result)
  {
  }

  lemma GatheredStep<V(!new)>(c: seq<V>, c': seq<V>, n1: nat, n2: nat, i: int, j: int, result: seq<V>)
    requires n1 * n2 > 0 && 0 <= i < n1 && 0 <= j < n2 && Gathered(c, n1, n2, i, j, result)
    requires 0 <= Gather(n1, n2, i, j) < |c|
    requires c' == c[Gather(n1, n2, i, j) := result[Gather(n1, n2, i, j)]]
    ensures Gathered(c', n1, n2, i, j + 1, result)
  {
  }

  lemma GatheredRow<V(!new)>(c: seq<V>, n1: nat, n2: nat, i: int, result: seq<V>)
    requires n1 * n2 > 0 && Gathered(c, n1, n2, i, n2, result)
    ensures Gathered(c, n1, n2, i + 1, 0, result)
  {
    hide Gather;
  }

  lemma GatheredAll<V(!new)>(c: seq<V>, n1: nat, n2: nat, result: seq<V>)
    requires n1 > 0 && n2 > 0 && n1 * n2 > 0 && Gcd(n1, n2) == 1 && Gathered(c, n1, n2, n1, 0, result)
    ensures c == result
  {
    forall k | 0 <= k < n1 * n2
      ensures c[k] == result[k]
    {
      var i, j := GatherCovers(n1, n2, k);
    }
  }

  // Every value the gather step will read, from the states the earlier steps left.
  lemma GatherReads<S(!new), V(!new)>(
    m: Module<S, V>, w: S, inverse: bool, s: seq<V>, n1: nat, n2: nat,
    scattered: seq<V>, first: seq<V>, t: int -> V, transposed: seq<V>, second: seq<V>)
    requires IsModule(m) && IsField(m.ring) && n1 > 0 && n2 > 0 && Gcd(n1, n2) == 1
    requires |s| == n1 * n2 > 0 && Pow(m.ring, w, n1 * n2) == m.ring.one
    requires inverse ==> FromNat(m.ring, n1 * n2) != m.ring.zero
    requires forall x :: 0 <= x < n1 * n2 ==> At(m.group, scattered)(Scatter(n1, n2, x)) == At(m.group, s)(x)
    requires RoundState(m, Pow(m.ring, w, n1), inverse, 0, n2, n1, scattered, first)
    requires IsTransposed(At(m.group, first), t, n1, n2)
    requires Written(transposed, n1 * n2, n1, n2, n1, 0, t)
    requires RoundState(m, Pow(m.ring, w, n2), inverse, n1 * n2, n1, n2, transposed, second)
    ensures forall i, j {:trigger Gather(n1, n2, i, j)} :: 0 <= i < n1 && 0 <= j < n2 ==>
      && 0 <= Gather(n1, n2, i, j) < |s|
      && At(m.group, second)(n1 * n2 + Cell(n1, j, i)) == Transform(m, w, inverse, s)[Gather(n1, n2, i, j)]
  {
    var b, b1, d, d1 := At(m.group, scattered), At(m.group, first), At(m.group, transposed), At(m.group, second);
    forall i, j {:trigger Gather(n1, n2, i, j)} | 0 <= i < n1 && 0 <= j < n2
      ensures 0 <= Gather(n1, n2, i, j) < |s|
      ensures d1(n1 * n2 + Cell(n1, j, i)) == Transform(m, w, inverse, s)[Gather(n1, n2, i, j)]
    {
      BothRounds(m, w, inverse, s, n1, n2, b, b1, t, d, d1, i, j);
    }
  }

  // The scratch row is long enough for every round that needs it.
  method ScratchLength(n1: nat, n2: nat) returns (n: nat)
    requires n1 > 0 && n2 > 0
    ensures (exists l: nat :: n1 == P2(l)) || n1 <= n
    ensures (exists l: nat :: n2 == P2(l)) || n2 <= n
  {
    var fast1 := IsPowerOfTwo(n1);
    var fast2 := IsPowerOfTwo(n2);
    if !fast1 && !fast2 {
      n := if n1 >= n2 then n1 else n2;
    } else {
      n := if fast1 then n2 else n1;
    }
  }

  lemma FactorRoots<S(!new)>(r: Ring<S>, w: S, n1: nat, n2: nat)
    requires CommRing(r) && n1 > 0 && n2 > 0 && PrimitiveRoot(r, w, n1 * n2)
    ensures PrimitiveRoot(r, Pow(r, w, n2), n1) && PrimitiveRoot(r, Pow(r, w, n1), n2)
  {
    RootOfFactor(r, w, n1, n2);
    assert n2 * n1 == n1 * n2;
    RootOfFactor(r, w, n2, n1);
  }

  /** The prime-factor transform and its inverse, in place, for every pair of coprime lengths. */
  method PrimeFactorFft<S(!new), V(!new)>(
    m: Module<S, V>, coefficients: array<V>, domain1: seq<S>, domain2: seq<S>, n1: nat, n2: nat, inverse: bool, ghost w: S)
    requires IsModule(m) && IsField(m.ring) && n1 > 0 && n2 > 0 && Gcd(n1, n2) == 1
    requires coefficients.Length == n1 * n2 && PrimitiveRoot(m.ring, w, n1 * n2)
    requires IsDomain(m.ring, domain1, Pow(m.ring, w, n2), n1) && IsDomain(m.ring, domain2, Pow(m.ring, w, n1), n2)
    requires inverse ==> FromNat(m.ring, n1 * n2) != m.ring.zero
    modifies coefficients
    ensures coefficients[..] == Transform(m, w, inverse, old(coefficients[..]))
  {
    var n := n1 * n2;
    ghost var s := coefficients[..];
    ghost var w1, w2 := Pow(m.ring, w, n2), Pow(m.ring, w, n1);
    FactorRoots(m.ring, w, n1, n2);
    assert Cell(n2, n1, 0) == n && Cell(n1, n2, 0) == n;
    var scratchLength := ScratchLength(n1, n2);
    var scratch := new V[scratchLength](_ => m.group.zero);
    var buffer := new V[2 * n](_ => m.group.zero);
    ScatterInput(m.group, coefficients, buffer, n1, n2);
    ghost var scattered := buffer[..];
    FftRound(m, buffer, 0, domain2, n1, n2, scratch, inverse, w2);
    ghost var first := buffer[..];
    ghost var target := TransposedExists(At(m.group, first), n1, n2);
    TransposeHalf(buffer, n1, n2, At(m.group, first), target);
    ghost var transposed := buffer[..];
    FftRound(m, buffer, n, domain1, n2, n1, scratch, inverse, w1);
    GatherReads(m, w, inverse, s, n1, n2, scattered, first, target, transposed, buffer[..]);
    GatherOutput(m.group, coefficients, buffer, n1, n2, Transform(m, w, inverse, s));
  }

  /** The inverse flag inverts the prime-factor transform, in either order. */
  method PrimeFactorRoundTrip<S(!new), V(!new)>(
    m: Module<S, V>, coefficients: array<V>, domain1: seq<S>, domain2: seq<S>, n1: nat, n2: nat, inverse: bool, ghost w: S)
    requires IsModule(m) && IsField(m.ring) && n1 > 0 && n2 > 0 && Gcd(n1, n2) == 1
    requires coefficients.Length == n1 * n2 && PrimitiveRoot(m.ring, w, n1 * n2)
    requires IsDomain(m.ring, domain1, Pow(m.ring, w, n2), n1) && IsDomain(m.ring, domain2, Pow(m.ring, w, n1), n2)
    requires FromNat(m.ring, n1 * n2) != m.ring.zero
    modifies coefficients
    ensures coefficients[..] == old(coefficients[..])
  {
    hide IsDomain, PrimitiveRoot, Transform, Gcd, Pow;
    ghost var s := coefficients[..];
    PrimeFactorFft(m, coefficients, domain1, domain2, n1, n2, inverse, w);
    PrimeFactorFft(m, coefficients, domain1, domain2, n1, n2, !inverse, w);
    TransformInverts(m, w, s, inverse);
  }

  /** Any two primitive roots of coprime orders come from one root of the product order, so the
      domains a caller builds separately always fit. */
  lemma CommonRoot<S(!new)>(r: Ring<S>, w1: S, w2: S, n1: nat, n2: nat) returns (w: S)
    requires CommRing(r) && PrimitiveRoot(r, w1, n1) && PrimitiveRoot(r, w2, n2) && Gcd(n1, n2) == 1
    ensures Pow(r, w, n2) == w1 && Pow(r, w, n1) == w2
    ensures PrimitiveRoot(r, w, n1 * n2)
  {
    var u, v := Bezout(n1, n2);
    var a, b := v % n1, u % n2;
    w := r.mul(Pow(r, w1, a), Pow(r, w2, b));
    BezoutRemainder(n1, n2, u, v);
    BezoutRemainder(n2, n1, v, u);
    PowerOfMix(r, w1, w2, a, b, n1, n2);
    MulComm(r, Pow(r, w1, a), Pow(r, w2, b));
    PowerOfMix(r, w2, w1, b, a, n2, n1);
    PowPow(r, w, n2, n1);
    assert n2 * n1 == n1 * n2 > 0;
    forall d | 0 < d < n1 * n2 ensures Pow(r, w, d) != r.one {
      if Pow(r, w, d) == r.one {
        OrderDivides(r, w, w1, n2, n1, d);
        OrderDivides(r, w, w2, n1, n2, d);
        var k := SameRemainder(d, 0, n1);
        var l := SameRemainder(d, 0, n2);
        CommonMultiple(n1, n2, d, k, l);
      }
    }
  }

  // v * n2 is 1 modulo n1, also after reducing v
  lemma BezoutRemainder(n1: nat, n2: nat, u: int, v: int)
    requires n1 > 0 && u * n1 + v * n2 == 1
    ensures (v % n1) * n2 >= 0
    ensures ((v % n1) * n2) % n1 == 1 % n1
  {
    var a, q := v % n1, v / n1;
    assert v == n1 * q + a;
    assert a * n2 == 1 + n1 * (-u - q * n2) by {
      assert v * n2 == n1 * (q * n2) + a * n2;
    }
    MultipleIsZero(1, n1, -u - q * n2);
  }

  lemma MultipleIsZero(x: int, n: nat, k: int)
    requires n > 0
    ensures (x + n * k) % n == x % n
  {
    var y := x + n * k;
    var e := y / n - x / n - k;
    assert n * e == x % n - y % n;
    SmallMultiple(n, e, x % n - y % n);
  }

  lemma PowerOfMix<S(!new)>(r: Ring<S>, w1: S, w2: S, a: nat, b: nat, n1: nat, n2: nat)
    requires CommRing(r) && n1 > 0 && Pow(r, w1, n1) == r.one && Pow(r, w2, n2) == r.one
    requires (a * n2) % n1 == 1 % n1
    ensures Pow(r, r.mul(Pow(r, w1, a), Pow(r, w2, b)), n2) == w1
  {
    var e := a * n2;
    assert e >= 0;
    MulPow(r, Pow(r, w1, a), Pow(r, w2, b), n2);
    PowOfRoot(r, w2, n2, b);
    PowPow(r, w1, a, n2);
    PowMod(r, w1, n1, e);
    PowMod(r, w1, n1, 1);
    PowOne(r, w1);
    MulOne(r, w1);
  }

  lemma OrderDivides<S(!new)>(r: Ring<S>, w: S, w1: S, n2: nat, n1: nat, d: nat)
    requires CommRing(r) && Pow(r, w, n2) == w1 && PrimitiveRoot(r, w1, n1) && Pow(r, w, d) == r.one
    ensures d % n1 == 0
  {
    PowPow(r, w, n2, d);
    PowPow(r, w, d, n2);
    assert n2 * d == d * n2;
    OnePow(r, n2);
    PowMod(r, w1, n1, d);
  }
}
