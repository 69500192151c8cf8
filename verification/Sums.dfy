/** Finite sums in an Abelian group: splitting, exchanging, reindexing. */
module Sums {
  import opened Algebra

  // f(0) + ... + f(n - 1)
  function Sum<V(!new)>(g: Group<V>, f: int -> V, n: int): V
    decreases n
  {
    if n <= 0 then g.zero else g.add(Sum(g, f, n - 1), f(n - 1))
  }

  lemma {:induction false} SumExt<V(!new)>(g: Group<V>, f: int -> V, h: int -> V, n: nat)
    requires forall i :: 0 <= i < n ==> f(i) == h(i)
    ensures Sum(g, f, n) == Sum(g, h, n)
  {
    if n > 0 { SumExt(g, f, h, n - 1); }
  }

  lemma {:induction false} SumZero<V(!new)>(g: Group<V>, f: int -> V, n: nat)
    requires AbelianGroup(g)
    requires forall i :: 0 <= i < n ==> f(i) == g.zero
    ensures Sum(g, f, n) == g.zero
  {
    if n > 0 {
      SumZero(g, f, n - 1);
      AddZero(g, g.zero);
    }
  }

  lemma {:induction false} SumAdd<V(!new)>(g: Group<V>, s: int -> V, f: int -> V, h: int -> V, n: nat)
    requires AbelianGroup(g)
    requires forall i :: 0 <= i < n ==> s(i) == g.add(f(i), h(i))
    ensures Sum(g, s, n) == g.add(Sum(g, f, n), Sum(g, h, n))
  {
    if n == 0 {
      AddZero(g, g.zero);
    } else {
      SumAdd(g, s, f, h, n - 1);
      AddSwap(g, Sum(g, f, n - 1), Sum(g, h, n - 1), f(n - 1), h(n - 1));
    }
  }

  lemma {:induction false} SumSplit<V(!new)>(g: Group<V>, f: int -> V, h: int -> V, a: nat, b: nat)
    requires AbelianGroup(g)
    requires forall i :: 0 <= i < b ==> h(i) == f(a + i)
    ensures Sum(g, f, a + b) == g.add(Sum(g, f, a), Sum(g, h, b))
  {
    if b == 0 {
      AddZero(g, Sum(g, f, a));
    } else {
      SumSplit(g, f, h, a, b - 1);
      AddAssoc(g, Sum(g, f, a), Sum(g, h, b - 1), h(b - 1));
    }
  }

  // A sum with one non-zero term.
  lemma {:induction false} SumSingle<V(!new)>(g: Group<V>, f: int -> V, p: nat, n: nat)
    requires AbelianGroup(g)
    requires p < n
    requires forall i :: 0 <= i < n && i != p ==> f(i) == g.zero
    ensures Sum(g, f, n) == f(p)
  {
    if p == n - 1 {
      SumZero(g, f, n - 1);
      AddZero(g, f(p));
    } else {
      SumSingle(g, f, p, n - 1);
      AddZero(g, f(p));
    }
  }

  lemma {:induction false} SumSwap<V(!new)>(
    g: Group<V>, f: (int, int) -> V, rows: int -> V, columns: int -> V, n: nat, k: nat)
    requires AbelianGroup(g)
    requires forall i :: 0 <= i < n ==> rows(i) == Sum(g, j => f(i, j), k)
    requires forall j :: 0 <= j < k ==> columns(j) == Sum(g, i => f(i, j), n)
    ensures Sum(g, rows, n) == Sum(g, columns, k)
  {
    if n == 0 {
      SumZero(g, columns, k);
    } else {
      var shorter := j => Sum(g, i => f(i, j), n - 1);
      SumSwap(g, f, rows, shorter, n - 1, k);
      SumAdd(g, columns, shorter, j => f(n - 1, j), k);
    }
  }

  lemma {:induction false} SumEvenOdd<V(!new)>(g: Group<V>, f: int -> V, even: int -> V, odd: int -> V, n: nat)
    requires AbelianGroup(g)
    requires forall i :: 0 <= i < n ==> even(i) == f(2 * i)
    requires forall i :: 0 <= i < n ==> odd(i) == f(2 * i + 1)
    ensures Sum(g, f, 2 * n) == g.add(Sum(g, even, n), Sum(g, odd, n))
  {
    if n == 0 {
      AddZero(g, g.zero);
    } else {
      SumEvenOdd(g, f, even, odd, n - 1);
      var e, o := Sum(g, even, n - 1), Sum(g, odd, n - 1);
      assert Sum(g, f, 2 * n) == g.add(Sum(g, f, 2 * n - 1), odd(n - 1));
      assert Sum(g, f, 2 * n - 1) == g.add(Sum(g, f, 2 * (n - 1)), even(n - 1));
      AddAssoc(g, g.add(e, o), even(n - 1), odd(n - 1));
      AddSwap(g, e, o, even(n - 1), odd(n - 1));
    }
  }

  // Rows of length b laid end to end.
  lemma {:induction false} SumFlatten<V(!new)>(g: Group<V>, f: int -> V, rows: int -> V, a: nat, b: nat)
    requires AbelianGroup(g)
    requires forall i :: 0 <= i < a ==> rows(i) == Sum(g, j => f(i * b + j), b)
    ensures Sum(g, f, a * b) == Sum(g, rows, a)
  {
    if a > 0 {
      SumFlatten(g, f, rows, a - 1, b);
      assert a * b == (a - 1) * b + b;
      SumSplit(g, f, j => f((a - 1) * b + j), (a - 1) * b, b);
      SumExt(g, j => f((a - 1) * b + j), j => f((a - 1) * b + j), b);
    } else {
      assert a * b == 0;
    }
  }

  lemma {:induction false} SumScale<S(!new), V(!new)>(m: Module<S, V>, a: S, s: int -> V, f: int -> V, n: nat)
    requires IsModule(m)
    requires forall i :: 0 <= i < n ==> s(i) == m.scale(a, f(i))
    ensures Sum(m.group, s, n) == m.scale(a, Sum(m.group, f, n))
  {
    if n == 0 {
      ScaleZero(m, a, m.group.zero);
    } else {
      SumScale(m, a, s, f, n - 1);
      ScaleAdd(m, a, Sum(m.group, f, n - 1), f(n - 1));
    }
  }

  lemma {:induction false} ScaleSum<S(!new), V(!new)>(m: Module<S, V>, s: int -> V, c: int -> S, x: V, n: nat)
    requires IsModule(m)
    requires forall i :: 0 <= i < n ==> s(i) == m.scale(c(i), x)
    ensures Sum(m.group, s, n) == m.scale(Sum(m.ring.Plus(), c, n), x)
  {
    if n == 0 {
      ScaleZero(m, m.ring.zero, x);
    } else {
      ScaleSum(m, s, c, x, n - 1);
      AddScale(m, Sum(m.ring.Plus(), c, n - 1), c(n - 1), x);
    }
  }

  lemma {:induction false} SumOnes<S(!new)>(r: Ring<S>, f: int -> S, n: nat)
    requires forall i :: 0 <= i < n ==> f(i) == r.one
    ensures Sum(r.Plus(), f, n) == FromNat(r, n)
  {
    if n > 0 { SumOnes(r, f, n - 1); }
  }

  // ---------------------------------------------------------------- reindexing

  ghost predicate InjectiveBelow(p: int -> int, n: nat) {
    && (forall i :: 0 <= i < n ==> 0 <= p(i) < n)
    && (forall i, j :: 0 <= i < j < n ==> p(i) != p(j))
  }

  function Image(p: int -> int, n: nat): set<int> {
    if n == 0 then {} else Image(p, n - 1) + {p(n - 1)}
  }

  lemma {:induction false} ImageMember(p: int -> int, n: nat, y: int)
    ensures y in Image(p, n) <==> exists x :: 0 <= x < n && p(x) == y
  {
    if n > 0 {
      ImageMember(p, n - 1, y);
      if p(n - 1) == y { assert 0 <= n - 1 < n; }
    }
  }

  lemma {:induction false} ImageSize(p: int -> int, n: nat)
    requires forall i, j :: 0 <= i < j < n ==> p(i) != p(j)
    ensures |Image(p, n)| == n
  {
    if n > 0 {
      ImageSize(p, n - 1);
      ImageMember(p, n - 1, p(n - 1));
    }
  }

  lemma SubsetEq(a: set<int>, b: set<int>)
    requires a <= b && |a| == |b|
    ensures a == b
  {
    assert b == a + (b - a);
  }

  // An injection of [0, n) into itself hits every value.
  lemma Pigeonhole(p: int -> int, n: nat, y: nat) returns (x: nat)
    requires InjectiveBelow(p, n) && y < n
    ensures x < n && p(x) == y
  {
    var id := (i: int) => i;
    forall z | z in Image(p, n) ensures z in Image(id, n) {
      ImageMember(p, n, z);
      ImageMember(id, n, z);
      assert id(z) == z;
    }
    ImageSize(p, n);
    ImageSize(id, n);
    SubsetEq(Image(p, n), Image(id, n));
    ImageMember(id, n, y);
    assert id(y) == y;
    ImageMember(p, n, y);
    x :| 0 <= x < n && p(x) == y;
  }

  lemma SumReindex<V(!new)>(g: Group<V>, f: int -> V, h: int -> V, p: int -> int, n: nat)
    requires AbelianGroup(g)
    requires InjectiveBelow(p, n)
    requires forall i :: 0 <= i < n ==> h(i) == f(p(i))
    ensures Sum(g, h, n) == Sum(g, f, n)
  {
    // Both sides are the double sum of f(y) over the pairs x, y with p(x) == y.
    var hit := (x: int, y: int) => if p(x) == y then f(y) else g.zero;
    forall x | 0 <= x < n ensures h(x) == Sum(g, y => hit(x, y), n) {
      SumSingle(g, y => hit(x, y), p(x), n);
    }
    forall y | 0 <= y < n ensures f(y) == Sum(g, x => hit(x, y), n) {
      var x := Pigeonhole(p, n, y);
      SumSingle(g, x => hit(x, y), x, n);
    }
    SumSwap(g, hit, h, f, n, n);
  }
}
