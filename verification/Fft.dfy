/** The in-place radix-2 transform: bit reversal, butterfly stages, the shortcut for short
    polynomials and the inverse transform.  Arrays are slices `a[base..base + n]`, as the
    prime-factor algorithm calls these routines on the rows of one buffer. */
module Fft {
  import opened Algebra
  import opened Sums
  import opened Fourier

  function P2(l: nat): (p: nat)
    ensures p > 0
  {
    if l == 0 then 1 else 2 * P2(l - 1)
  }

  // ---------------------------------------------------------------- bit reversal

  // The l low bits of n in reverse order.
  function Rev(n: int, l: nat): nat
    decreases l
  {
    if l == 0 then 0 else (if n % 2 == 0 then 0 else P2(l - 1)) + Rev(n / 2, l - 1)
  }

  lemma {:induction false} RevBound(n: int, l: nat)
    ensures Rev(n, l) < P2(l)
    decreases l
  {
    if l > 0 { RevBound(n / 2, l - 1); }
  }

  lemma RevDouble(q: int, l: nat)
    ensures Rev(2 * q, l + 1) == Rev(q, l)
    ensures Rev(2 * q + 1, l + 1) == Rev(q, l) + P2(l)
  {
    assert (2 * q) / 2 == q && (2 * q + 1) / 2 == q;
  }

  // The same reversal, peeling off the top bit instead of the bottom one.
  lemma {:induction false} RevTop(top: bool, n: nat, l: nat)
    requires n < P2(l)
    ensures Rev((if top then P2(l) else 0) + n, l + 1) == 2 * Rev(n, l) + (if top then 1 else 0)
    decreases l
  {
    if l > 0 {
      var x := (if top then P2(l) else 0) + n;
      assert x % 2 == n % 2;
      assert x / 2 == (if top then P2(l - 1) else 0) + n / 2;
      RevTop(top, n / 2, l - 1);
    }
  }

  // The same number, bit by bit from the bottom.
  lemma RevLow(n: nat, l: nat)
    requires l > 0 && n < P2(l)
    ensures Rev(n, l) == (if n % 2 != 0 then P2(l - 1) else 0) + Rev(n / 2, l - 1)
    ensures n / 2 < P2(l - 1)
  {
  }

  lemma {:induction false} RevInvolution(n: nat, l: nat)
    requires n < P2(l)
    ensures Rev(Rev(n, l), l) == n
    decreases l
  {
    if l > 0 {
      hide Rev, P2;
      var y, odd := Rev(n / 2, l - 1), n % 2 != 0;
      RevLow(n, l);
      RevBound(n / 2, l - 1);
      RevInvolution(n / 2, l - 1);
      RevTop(odd, y, l - 1);
    }
  }

  lemma ReverseStep(r: nat, x: nat, l: nat)
    requires l > 0
    ensures (2 * r + x % 2) * P2(l - 1) + Rev(x / 2, l - 1) == r * P2(l) + Rev(x, l)
  {
    var h := P2(l - 1);
    assert r * P2(l) == (2 * r) * h;
    assert (2 * r + 1) * h == (2 * r) * h + h;
  }

  method BitReverse(n: nat, l: nat) returns (r: nat)
    ensures r == Rev(n, l)
  {
    r := 0;
    var x, left := n, l;
    while left > 0
      invariant r * P2(left) + Rev(x, left) == Rev(n, l)
    {
      ReverseStep(r, x, left);
      r := 2 * r + x % 2;
      x := x / 2;
      left := left - 1;
    }
  }

  // Every pair i, Rev(i) is swapped exactly once.
  method Reorganize<V>(a: array<V>, base: nat, l: nat)
    requires base + P2(l) <= a.Length
    modifies a
    ensures forall p :: 0 <= p < P2(l) ==> Rev(p, l) < P2(l) && a[base + p] == old(a[base + Rev(p, l)])
    ensures forall p :: 0 <= p < base || base + P2(l) <= p < a.Length ==> a[p] == old(a[p])
  {
    var n := P2(l);
    forall p | 0 <= p < n ensures Rev(p, l) < n && Rev(Rev(p, l), l) == p {
      RevBound(p, l);
      RevInvolution(p, l);
    }
    hide Rev, P2;
    for i := 0 to n
      invariant forall p :: 0 <= p < n ==>
        a[base + p] == if p < i || Rev(p, l) < i then old(a[base + Rev(p, l)]) else old(a[base + p])
      invariant forall p :: 0 <= p < base || base + n <= p < a.Length ==> a[p] == old(a[p])
    {
      var k := BitReverse(i, l);
      assert Rev(k, l) == i;
      assert forall p :: 0 <= p < n && p != i && p != k ==> Rev(p, l) != i;
      if i < k {
        var tmp := a[base + i];
        a[base + i] := a[base + k];
        a[base + k] := tmp;
      }
    }
  }

  // ---------------------------------------------------------------- butterfly stages

  /** Entry t of block q when blocks of size h = n / d are transformed: the transform of the
      coefficients at stride d = 2^l that the bit reversal brought into the block. */
  function Block<S(!new), V(!new)>(m: Module<S, V>, w: S, f: int -> V, l: nat, d: int, h: int, q: int, t: int): V {
    Dft(m, Pow(m.ring, w, d), f, Rev(q, l), d, h, t)
  }

  // c lists the transformed blocks of size h one after the other.
  ghost predicate IsStage<S(!new), V(!new)>(m: Module<S, V>, w: S, f: int -> V, l: nat, d: int, h: int, c: int -> V) {
    forall q, t {:trigger Block(m, w, f, l, d, h, q, t)} ::
      0 <= q && 0 <= t < h ==> c(h * q + t) == Block(m, w, f, l, d, h, q, t)
  }

  lemma StageExists<S(!new), V(!new)>(m: Module<S, V>, w: S, f: int -> V, l: nat, d: int, h: int) returns (c: int -> V)
    requires h > 0
    ensures IsStage(m, w, f, l, d, h, c)
  {
    c := p => Block(m, w, f, l, d, h, p / h, p % h);
    forall q, t | 0 <= q && 0 <= t < h ensures c(h * q + t) == Block(m, w, f, l, d, h, q, t) {
      assert h * q >= 0;
      DivModUnique(h * q + t, h, q, t);
    }
  }

  lemma MulMonotone(d: int, e: int)
    requires d >= 0
    ensures e >= 1 ==> d * e >= d
    ensures e <= -1 ==> d * e <= -d
  {
  }

  lemma DivModUnique(x: nat, d: nat, q: nat, t: nat)
    requires x == d * q + t && t < d
    ensures x / d == q && x % d == t
  {
    var e := x / d - q;
    assert d * e == d * (x / d) - d * q;
    MulMonotone(d, e);
  }

  lemma {:induction false} P2Add(a: nat, b: nat)
    ensures P2(a + b) == P2(a) * P2(b)
  {
    if a > 0 {
      P2Add(a - 1, b);
      assert P2(a) * P2(b) == 2 * (P2(a - 1) * P2(b));
    }
  }

  // One butterfly turns two transforms of length h at stride 2d into two entries of a transform
  // of length 2h at stride d.
  lemma Butterfly<S(!new), V(!new)>(m: Module<S, V>, w: S, f: int -> V, off: int, d: nat, h: nat, j: nat)
    requires IsModule(m)
    requires Pow(m.ring, w, d * h) == m.ring.neg(m.ring.one)
    ensures
      var v, u := Pow(m.ring, w, d), Pow(m.ring, w, 2 * d);
      var lower, upper := Dft(m, u, f, off, 2 * d, h, j), Dft(m, u, f, off + d, 2 * d, h, j);
      var tmp := m.scale(Pow(m.ring, w, d * j), upper);
      && Dft(m, v, f, off, d, 2 * h, j) == m.group.add(lower, tmp)
      && Dft(m, v, f, off, d, 2 * h, j + h) == m.group.Sub(lower, tmp)
  {
    var v := Pow(m.ring, w, d);
    PowPow(m.ring, w, d, 2);
    SqrIsPow(m.ring, v);
    PowPow(m.ring, w, d, h);
    PowPow(m.ring, w, d, j);
    Radix2(m, v, f, off, d, h, j);
    Radix2Upper(m, v, f, off, d, h, j);
  }

  lemma ButterflyBlocks<S(!new), V(!new)>(m: Module<S, V>, w: S, f: int -> V, l: nat, d: nat, h: nat, q: nat, j: nat)
    requires IsModule(m) && d == P2(l)
    requires Pow(m.ring, w, d * h) == m.ring.neg(m.ring.one)
    ensures
      var lower, upper := Block(m, w, f, l + 1, 2 * d, h, 2 * q, j), Block(m, w, f, l + 1, 2 * d, h, 2 * q + 1, j);
      var tmp := m.scale(Pow(m.ring, w, d * j), upper);
      && Block(m, w, f, l, d, 2 * h, q, j) == m.group.add(lower, tmp)
      && Block(m, w, f, l, d, 2 * h, q, j + h) == m.group.Sub(lower, tmp)
  {
    RevDouble(q, l);
    Butterfly(m, w, f, Rev(q, l), d, h, j);
  }

  // The butterfly on cells k + j and k + j + h of the block that starts at k.
  lemma ButterflyStep<S(!new), V(!new)>(
    m: Module<S, V>, w: S, f: int -> V, l: nat, d: nat, h: nat, cur: int -> V, next: int -> V, q: nat, k: nat, j: nat)
    requires IsModule(m) && d == P2(l) && j < h && k == 2 * h * q
    requires Pow(m.ring, w, d * h) == m.ring.neg(m.ring.one)
    requires IsStage(m, w, f, l + 1, 2 * d, h, cur) && IsStage(m, w, f, l, d, 2 * h, next)
    ensures
      var tmp := m.scale(Pow(m.ring, w, d * j), cur(k + j + h));
      && next(k + j) == m.group.add(cur(k + j), tmp)
      && next(k + j + h) == m.group.Sub(cur(k + j), tmp)
  {
    ButterflyBlocks(m, w, f, l, d, h, q, j);
    BlockIndex(h, q, j);
  }

  lemma BlockIndex(h: nat, q: nat, j: nat)
    ensures h * (2 * q) + j == 2 * h * q + j
    ensures h * (2 * q + 1) + j == 2 * h * q + j + h
    ensures (2 * h) * q + (j + h) == 2 * h * q + j + h
  {
  }

  lemma TimesMonotone(u: nat, a: nat, b: nat)
    ensures a >= b ==> u * a >= u * b
  {
    if a >= b { assert u * a == u * b + u * (a - b); }
  }

  lemma TimesNext(u: int, q: int)
    ensures u * (q + 1) == u * q + u
  {
  }

  lemma MultipleBelow(u: nat, q: nat, d: nat)
    requires u * q < u * d
    ensures u * q + u <= u * d && u * (q + 1) == u * q + u
  {
    TimesMonotone(u, q, d);
    TimesMonotone(u, d, q + 1);
    TimesNext(u, q);
  }

  // The table holds the powers of w in order.
  ghost predicate IsDomain<S(!new)>(r: Ring<S>, domain: seq<S>, w: S, n: nat) {
    n <= |domain| && forall i :: 0 <= i < n ==> domain[i] == Pow(r, w, i)
  }

  // The root whose powers a transform uses: w, or its inverse.
  function Root<S(!new)>(r: Ring<S>, w: S, n: nat, inverse: bool): S {
    if inverse then Pow(r, w, n - 1) else w
  }

  // Reading the table backwards gives the powers of the inverse root.
  lemma Twiddle<S(!new)>(r: Ring<S>, domain: seq<S>, w: S, n: nat, inverse: bool, e: nat)
    requires CommRing(r) && n > 0 && Pow(r, w, n) == r.one && IsDomain(r, domain, w, n) && e < n
    ensures domain[if inverse && e != 0 then n - e else e] == Pow(r, Root(r, w, n, inverse), e)
  {
    InverseRoot(r, w, n, e);
  }

  // The cells of a slice, with the first k of them already in the next stage.
  ghost predicate Holds<V(!new)>(c: seq<V>, base: nat, n: nat, k: int, cur: int -> V, next: int -> V)
    requires base + n <= |c|
  {
    forall p :: 0 <= p < n ==> c[base + p] == if p < k then next(p) else cur(p)
  }

  ghost predicate Cells<V(!new)>(c: seq<V>, base: nat, n: nat, f: int -> V)
    requires base + n <= |c|
  {
    forall p :: 0 <= p < n ==> c[base + p] == f(p)
  }

  function Slice<V>(c: seq<V>, base: nat, n: nat): seq<V>
    requires base + n <= |c|
  {
    c[base..base + n]
  }

  ghost predicate SameOutside<V>(c: seq<V>, c': seq<V>, base: nat, n: nat)
    requires |c| == |c'|
  {
    forall p :: 0 <= p < |c| && !(base <= p < base + n) ==> c[p] == c'[p]
  }

  method ButterflyAt<S(!new), V(!new)>(m: Module<S, V>, a: array<V>, lower: nat, upper: nat, twiddle: S)
    requires lower < upper < a.Length
    modifies a
    ensures a[lower] == m.group.add(old(a[lower]), m.scale(twiddle, old(a[upper])))
    ensures a[upper] == m.group.Sub(old(a[lower]), m.scale(twiddle, old(a[upper])))
    ensures forall p :: 0 <= p < a.Length && p != lower && p != upper ==> a[p] == old(a[p])
  {
    var tmp := m.scale(twiddle, a[upper]);
    a[upper] := m.group.Sub(a[lower], tmp);
    a[lower] := m.group.add(a[lower], tmp);
  }

  // The innermost loop: all butterflies of one block.
  method FftBlock<S(!new), V(!new)>(
    m: Module<S, V>, a: array<V>, base: nat, domain: seq<S>, n: nat, h: nat, d: nat, k: nat, inverse: bool,
    ghost w: S, ghost f: int -> V, ghost l: nat, ghost q: nat, ghost cur: int -> V, ghost next: int -> V)
    requires IsModule(m) && base + n <= a.Length && 2 * h * d == n && d == P2(l) && k == 2 * h * q && k + 2 * h <= n
    requires n > 0 && Pow(m.ring, w, n) == m.ring.one && IsDomain(m.ring, domain, w, n)
    requires Pow(m.ring, Root(m.ring, w, n, inverse), d * h) == m.ring.neg(m.ring.one)
    requires IsStage(m, Root(m.ring, w, n, inverse), f, l + 1, 2 * d, h, cur)
    requires IsStage(m, Root(m.ring, w, n, inverse), f, l, d, 2 * h, next)
    requires Holds(a[..], base, n, k, cur, next)
    modifies a
    ensures Holds(a[..], base, n, k + 2 * h, cur, next)
    ensures SameOutside(a[..], old(a[..]), base, n)
  {
    for j := 0 to h
      invariant forall p :: 0 <= p < n ==>
        a[base + p] == if p < k + j || k + h <= p < k + h + j then next(p) else cur(p)
      invariant SameOutside(a[..], old(a[..]), base, n)
    {
      TwiddleIndex(n, d, h, j);
      Twiddle(m.ring, domain, w, n, inverse, d * j);
      ButterflyStep(m, Root(m.ring, w, n, inverse), f, l, d, h, cur, next, q, k, j);
      var index := if !inverse then d * j else n - d * j;
      if index == n { index := 0; }
      ButterflyAt(m, a, base + k + j, base + k + j + h, domain[index]);
    }
  }

  // The middle loop: all blocks of one stage.
  method FftStage<S(!new), V(!new)>(
    m: Module<S, V>, a: array<V>, base: nat, domain: seq<S>, n: nat, h: nat, d: nat, inverse: bool,
    ghost w: S, ghost f: int -> V, ghost l: nat, ghost cur: int -> V, ghost next: int -> V)
    requires IsModule(m) && base + n <= a.Length && 2 * h * d == n && d == P2(l) && h > 0
    requires n > 0 && Pow(m.ring, w, n) == m.ring.one && IsDomain(m.ring, domain, w, n)
    requires Pow(m.ring, Root(m.ring, w, n, inverse), d * h) == m.ring.neg(m.ring.one)
    requires IsStage(m, Root(m.ring, w, n, inverse), f, l + 1, 2 * d, h, cur)
    requires IsStage(m, Root(m.ring, w, n, inverse), f, l, d, 2 * h, next)
    requires Holds(a[..], base, n, 0, cur, next)
    modifies a
    ensures Holds(a[..], base, n, n, cur, next)
    ensures SameOutside(a[..], old(a[..]), base, n)
  {
    var k := 0;
    ghost var q := 0;
    while k < n
      invariant 0 <= q && k == 2 * h * q && 0 <= k <= n
      invariant Holds(a[..], base, n, k, cur, next)
      invariant SameOutside(a[..], old(a[..]), base, n)
    {
      MultipleBelow(2 * h, q, d);
      FftBlock(m, a, base, domain, n, h, d, k, inverse, w, f, l, q, cur, next);
      k := k + 2 * h;
      q := q + 1;
    }
  }

  /** The butterfly stages: from the blocks of size 2^logDiff to the whole transform. */
  method FftAux<S(!new), V(!new)>(
    m: Module<S, V>, a: array<V>, base: nat, domain: seq<S>, logN: nat, logDiff: nat, inverse: bool,
    ghost w: S, ghost f: int -> V, ghost first: int -> V)
    requires IsModule(m) && logDiff <= logN && base + P2(logN) <= a.Length
    requires Pow(m.ring, w, P2(logN)) == m.ring.one && IsDomain(m.ring, domain, w, P2(logN))
    requires logN > 0 ==> Pow(m.ring, Root(m.ring, w, P2(logN), inverse), P2(logN - 1)) == m.ring.neg(m.ring.one)
    requires IsStage(m, Root(m.ring, w, P2(logN), inverse), f, logN - logDiff, P2(logN - logDiff), P2(logDiff), first)
    requires Cells(a[..], base, P2(logN), first)
    modifies a
    ensures forall t :: 0 <= t < P2(logN) ==>
      a[base + t] == Dft(m, Root(m.ring, w, P2(logN), inverse), f, 0, 1, P2(logN), t)
    ensures SameOutside(a[..], old(a[..]), base, P2(logN))
  {
    var n := P2(logN);
    ghost var v, cur := Root(m.ring, w, n, inverse), first;
    var h := P2(logDiff);
    for i := 0 to logN - logDiff
      invariant h == P2(logDiff + i)
      invariant IsStage(m, v, f, logN - logDiff - i, P2(logN - logDiff - i), h, cur)
      invariant Holds(a[..], base, n, 0, cur, cur)
      invariant SameOutside(a[..], old(a[..]), base, n)
    {
      ghost var l := logN - logDiff - i - 1;
      StageSizes(logN, l, h);
      var d := n / (2 * h);
      ghost var next := StageExists(m, v, f, l, d, 2 * h);
      FftStage(m, a, base, domain, n, h, d, inverse, w, f, l, cur, next);
      cur := next;
      h := 2 * h;
    }
    forall t | 0 <= t < n ensures a[base + t] == Dft(m, v, f, 0, 1, n, t) {
      StageCell(m, v, f, 0, 1, n, cur, 0, t, t);
      PowOne(m.ring, v);
    }
  }

  lemma StageSizes(logN: nat, l: nat, h: nat)
    requires l < logN && h == P2(logN - 1 - l)
    ensures P2(logN) / (2 * h) == P2(l) && 2 * h == P2(logN - l)
    ensures 2 * h * P2(l) == P2(logN) && P2(l) * h == P2(logN - 1)
  {
    P2Add(logN - l, l);
    P2Add(l, logN - 1 - l);
    DivModUnique(P2(logN), 2 * h, P2(l), 0);
  }

  lemma TwiddleIndex(n: nat, d: nat, h: nat, j: nat)
    requires j < h && 2 * h * d == n && d > 0
    ensures 0 <= d * j < n
    ensures d * j == 0 <==> j == 0
  {
    var e := h - j;
    assert h * d == d * j + d * e;
    MulMonotone(d, e);
    MulMonotone(d, j);
  }

  lemma StageCell<S(!new), V(!new)>(
    m: Module<S, V>, w: S, f: int -> V, l: nat, d: int, h: int, c: int -> V, q: int, t: int, p: int)
    requires IsStage(m, w, f, l, d, h, c)
    requires 0 <= q && 0 <= t < h && p == h * q + t
    ensures c(p) == Dft(m, Pow(m.ring, w, d), f, Rev(q, l), d, h, t)
  {
    var b := Block(m, w, f, l, d, h, q, t);
  }

  // ---------------------------------------------------------------- the transforms

  function Zeros<V(!new)>(g: Group<V>, n: nat): seq<V> { seq(n, _ => g.zero) }

  // A block transform of a polynomial that ends before the stride has a single term.
  lemma ShortBlock<S(!new), V(!new)>(m: Module<S, V>, w: S, f: int -> V, l: nat, d: int, h: int, q: int, t: int)
    requires IsModule(m) && d == P2(l) && h > 0
    requires forall i :: i >= d ==> f(i) == m.group.zero
    ensures Block(m, w, f, l, d, h, q, t) == f(Rev(q, l))
  {
    var v := Pow(m.ring, w, d);
    var term := DftTerm(m, v, f, Rev(q, l), d, t);
    forall j | 0 <= j < h && j != 0 ensures term(j) == m.group.zero {
      MulMonotone(d, j);
      ScaleZero(m, Pow(m.ring, v, t * j), m.group.zero);
    }
    SumSingle(m.group, term, 0, h);
    assert t * 0 == 0 && d * 0 == 0;
    ScaleOne(m, f(Rev(q, l)));
  }

  // The inner copy loop.  The source cell is before the row, or is its first cell.
  method Spread<V>(a: array<V>, from: nat, to: nat, ratio: nat)
    requires from <= to && to + ratio <= a.Length && from < a.Length
    modifies a
    ensures forall p :: to <= p < to + ratio ==> a[p] == old(a[from])
    ensures SameOutside(a[..], old(a[..]), to, ratio)
  {
    for j := 0 to ratio
      invariant a[from] == old(a[from])
      invariant forall p :: to <= p < to + j ==> a[p] == old(a[from])
      invariant SameOutside(a[..], old(a[..]), to, ratio)
    {
      a[to + j] := a[from];
    }
  }

  function Cell(h: int, q: int, t: int): int { h * q + t }

  // c lists every element of s h times in a row.
  ghost predicate Repeats<V(!new)>(s: seq<V>, h: nat, c: int -> V) {
    forall q, t {:trigger Cell(h, q, t)} :: 0 <= q < |s| && 0 <= t < h ==> c(Cell(h, q, t)) == s[q]
  }

  lemma RowStart(i: nat, ratio: nat)
    requires ratio > 1
    ensures (i + 1) * ratio == i * ratio + ratio
    ensures i <= i * ratio
    ensures forall t {:trigger Cell(ratio, i, t)} :: Cell(ratio, i, t) == i * ratio + t
  {
  }

  /** The descending copy loop: every source cell is read before anything overwrites it. */
  method Replicate<V(!new)>(a: array<V>, base: nat, count: nat, ratio: nat, ghost c: int -> V)
    requires ratio > 1 && base + count * ratio <= a.Length && base + count <= a.Length
    requires Repeats(Slice(a[..], base, count), ratio, c)
    modifies a
    ensures Cells(a[..], base, count * ratio, c)
    ensures SameOutside(a[..], old(a[..]), base, count * ratio)
  {
    ghost var src, n := Slice(a[..], base, count), count * ratio;
    var i := count;
    while i > 0
      invariant 0 <= i <= count && 0 <= i * ratio <= n
      invariant forall p :: 0 <= p < i ==> a[base + p] == src[p]
      invariant forall p :: i * ratio <= p < n ==> a[base + p] == c(p)
      invariant SameOutside(a[..], old(a[..]), base, n)
    {
      i := i - 1;
      var k := i * ratio;
      RowStart(i, ratio);
      Spread(a, base + i, base + k, ratio);
      forall p | k <= p < k + ratio ensures a[base + p] == c(p) {
        assert p == Cell(ratio, i, p - k);
      }
    }
  }

  /** Bring 2^logDegree coefficients into the order and multiplicity the stages start from. */
  method LoadCoefficients<V(!new)>(a: array<V>, base: nat, logN: nat, logDegree: nat, ghost c: int -> V)
    requires logDegree <= logN && base + P2(logN) <= a.Length && P2(logDegree) <= P2(logN)
    requires Repeats(Reversed(Slice(a[..], base, P2(logDegree)), logDegree), P2(logN - logDegree), c)
    modifies a
    ensures Cells(a[..], base, P2(logN), c)
    ensures SameOutside(a[..], old(a[..]), base, P2(logN))
  {
    var d, h := P2(logDegree), P2(logN - logDegree);
    ghost var reversed := Reversed(Slice(a[..], base, d), logDegree);
    P2Add(logDegree, logN - logDegree);
    Reorganize(a, base, logDegree);
    assert Slice(a[..], base, d) == reversed;
    if logN > logDegree {
      Replicate(a, base, d, h, c);
    } else {
      forall p | 0 <= p < d ensures a[base + p] == c(p) {
        assert p == Cell(1, p, 0) && a[base + p] == reversed[p];
      }
    }
  }

  // The coefficients in bit-reversed order.
  function Reversed<V>(s: seq<V>, l: nat): (t: seq<V>)
    requires |s| == P2(l)
    ensures |t| == |s|
  {
    seq(P2(l), i requires 0 <= i < P2(l) => (RevBound(i, l); s[Rev(i, l)]))
  }

  // The stage the loops start from repeats the reversed coefficients of a padded polynomial.
  lemma FirstStage<S(!new), V(!new)>(m: Module<S, V>, w: S, s: seq<V>, n: nat, l: nat, h: nat, c: int -> V)
    requires IsModule(m) && |s| == P2(l) <= n && h > 0
    requires IsStage(m, w, At(m.group, s + Zeros(m.group, n - |s|)), l, P2(l), h, c)
    ensures Repeats(Reversed(s, l), h, c)
  {
    var f := At(m.group, s + Zeros(m.group, n - |s|));
    forall q, t {:trigger Cell(h, q, t)} | 0 <= q < |s| && 0 <= t < h
      ensures c(Cell(h, q, t)) == Reversed(s, l)[q]
    {
      RevBound(q, l);
      ShortBlock(m, w, f, l, P2(l), h, q, t);
      assert f(Rev(q, l)) == s[Rev(q, l)];
    }
  }

  lemma SliceIsDft<S(!new), V(!new)>(m: Module<S, V>, w: S, s: seq<V>, c: seq<V>, base: nat)
    requires base + |s| <= |c|
    requires forall t :: 0 <= t < |s| ==> c[base + t] == Dft(m, w, At(m.group, s), 0, 1, |s|, t)
    ensures Slice(c, base, |s|) == DftSeq(m, w, s)
  {
  }

  lemma RootHalf<S(!new)>(r: Ring<S>, w: S, logN: nat, inverse: bool)
    requires IsField(r) && PrimitiveRoot(r, w, P2(logN)) && logN > 0
    ensures Pow(r, Root(r, w, P2(logN), inverse), P2(logN - 1)) == r.neg(r.one)
  {
    InverseRootPrimitive(r, w, P2(logN));
    HalfIsMinusOne(r, Root(r, w, P2(logN), inverse), P2(logN - 1));
  }

  /** The forward transform: 2^logDegree coefficients become the 2^logN values of the polynomial
      at the powers of w, whatever the cells beyond the coefficients held. */
  method FftInplace<S(!new), V(!new)>(
    m: Module<S, V>, a: array<V>, base: nat, domain: seq<S>, logN: nat, logDegree: nat, ghost w: S)
    requires IsModule(m) && IsField(m.ring) && logDegree <= logN && base + P2(logN) <= a.Length
    requires PrimitiveRoot(m.ring, w, P2(logN)) && IsDomain(m.ring, domain, w, P2(logN))
    requires P2(logDegree) <= P2(logN)
    modifies a
    ensures Slice(a[..], base, P2(logN))
         == DftSeq(m, w, Slice(old(a[..]), base, P2(logDegree)) + Zeros(m.group, P2(logN) - P2(logDegree)))
    ensures SameOutside(a[..], old(a[..]), base, P2(logN))
  {
    var logDiff := logN - logDegree;
    ghost var n, d, h := P2(logN), P2(logDegree), P2(logDiff);
    ghost var s := Slice(a[..], base, d);
    ghost var padded := s + Zeros(m.group, n - d);
    ghost var first := StageExists(m, w, At(m.group, padded), logDegree, d, h);
    FirstStage(m, w, s, n, logDegree, h, first);
    LoadCoefficients(a, base, logN, logDegree, first);
    if logN > 0 { RootHalf(m.ring, w, logN, false); }
    FftAux(m, a, base, domain, logN, logDiff, false, w, At(m.group, padded), first);
    SliceIsDft(m, w, padded, a[..], base);
  }

  method ScaleAll<S(!new), V(!new)>(m: Module<S, V>, a: array<V>, base: nat, n: nat, c: S)
    requires base + n <= a.Length
    modifies a
    ensures Slice(a[..], base, n) == ScaleSeq(m, c, Slice(old(a[..]), base, n))
    ensures SameOutside(a[..], old(a[..]), base, n)
  {
    for i := base to base + n
      invariant forall p :: base <= p < i ==> a[p] == m.scale(c, old(a[p]))
      invariant forall p :: i <= p < base + n ==> a[p] == old(a[p])
      invariant SameOutside(a[..], old(a[..]), base, n)
    {
      a[i] := m.scale(c, a[i]);
    }
  }

  // The butterflies over the table read backwards.
  method FftBackwards<S(!new), V(!new)>(m: Module<S, V>, a: array<V>, base: nat, domain: seq<S>, logN: nat, ghost w: S)
    requires IsModule(m) && IsField(m.ring) && base + P2(logN) <= a.Length
    requires PrimitiveRoot(m.ring, w, P2(logN)) && IsDomain(m.ring, domain, w, P2(logN))
    modifies a
    ensures Slice(a[..], base, P2(logN)) == DftSeq(m, Pow(m.ring, w, P2(logN) - 1), Slice(old(a[..]), base, P2(logN)))
    ensures SameOutside(a[..], old(a[..]), base, P2(logN))
  {
    ghost var n := P2(logN);
    ghost var s, v := Slice(a[..], base, n), Root(m.ring, w, n, true);
    assert s + Zeros(m.group, 0) == s;
    ghost var first := StageExists(m, v, At(m.group, s), logN, n, 1);
    FirstStage(m, v, s, n, logN, 1, first);
    LoadCoefficients(a, base, logN, logN, first);
    if logN > 0 { RootHalf(m.ring, w, logN, true); }
    FftAux(m, a, base, domain, logN, 0, true, w, At(m.group, s), first);
    SliceIsDft(m, v, s, a[..], base);
  }

  /** The inverse transform: the same butterflies over the table read backwards, then 1/n. */
  method IfftInplace<S(!new), V(!new)>(m: Module<S, V>, a: array<V>, base: nat, domain: seq<S>, logN: nat, ghost w: S)
    requires IsModule(m) && IsField(m.ring) && base + P2(logN) <= a.Length
    requires PrimitiveRoot(m.ring, w, P2(logN)) && IsDomain(m.ring, domain, w, P2(logN))
    modifies a
    ensures Slice(a[..], base, P2(logN)) == Transform(m, w, true, Slice(old(a[..]), base, P2(logN)))
    ensures SameOutside(a[..], old(a[..]), base, P2(logN))
  {
    var n := P2(logN);
    FftBackwards(m, a, base, domain, logN, w);
    ScaleAll(m, a, base, n, m.ring.inv(FromNat(m.ring, n)));
    ScaledDft(m, w, Slice(old(a[..]), base, n), n);
  }

  lemma ScaledDft<S(!new), V(!new)>(m: Module<S, V>, w: S, s: seq<V>, n: nat)
    requires |s| == n
    ensures Transform(m, w, true, s) == ScaleSeq(m, m.ring.inv(FromNat(m.ring, n)), DftSeq(m, Pow(m.ring, w, n - 1), s))
  {
  }

  // ---------------------------------------------------------------- any length

  lemma DftTermFromTable<S(!new), V(!new)>(
    m: Module<S, V>, domain: seq<S>, w: S, n: nat, inverse: bool, s: seq<V>, i: nat, j: nat)
    requires IsModule(m) && |s| == n && j < n && Pow(m.ring, w, n) == m.ring.one && IsDomain(m.ring, domain, w, n)
    ensures 0 <= (i * j) % n < n
    ensures
      var index := (i * j) % n;
      m.scale(domain[if inverse && index != 0 then n - index else index], s[j])
        == DftTerm(m, Root(m.ring, w, n, inverse), At(m.group, s), 0, 1, i)(j)
  {
    var e := (i * j) % n;
    assert 0 <= i * j;
    Twiddle(m.ring, domain, w, n, inverse, e);
    PowOfRoot(m.ring, w, n, n - 1);
    PowMod(m.ring, Root(m.ring, w, n, inverse), n, i * j);
    assert At(m.group, s)(0 + 1 * j) == s[j];
  }

  // The inner loop: one output value from the saved input.
  method DftEntry<S(!new), V(!new)>(
    m: Module<S, V>, a: array<V>, at: nat, domain: seq<S>, buffer: array<V>, i: nat, n: nat, inverse: bool,
    ghost w: S, ghost s: seq<V>)
    requires IsModule(m) && a != buffer && at < a.Length && n == |s| <= buffer.Length && n > 0 && buffer[..n] == s
    requires Pow(m.ring, w, n) == m.ring.one && IsDomain(m.ring, domain, w, n)
    modifies a
    ensures a[at] == Dft(m, Root(m.ring, w, n, inverse), At(m.group, s), 0, 1, n, i)
    ensures forall p :: 0 <= p < a.Length && p != at ==> a[p] == old(a[p])
  {
    a[at] := m.group.zero;
    ghost var term := DftTerm(m, Root(m.ring, w, n, inverse), At(m.group, s), 0, 1, i);
    for j := 0 to n
      invariant a[at] == Sum(m.group, term, j)
      invariant forall p :: 0 <= p < a.Length && p != at ==> a[p] == old(a[p])
    {
      DftTermFromTable(m, domain, w, n, inverse, s, i, j);
      var index := (i * j) % n;
      if inverse && index != 0 { index := n - index; }
      assert buffer[j] == s[j];
      a[at] := m.group.add(a[at], m.scale(domain[index], buffer[j]));
    }
  }

  /** The quadratic transform, for lengths that are not powers of two. */
  method DftInplace<S(!new), V(!new)>(
    m: Module<S, V>, a: array<V>, base: nat, domain: seq<S>, buffer: array<V>, n: nat, inverse: bool, ghost w: S)
    requires IsModule(m) && a != buffer && base + n <= a.Length && n <= buffer.Length && n > 0
    requires Pow(m.ring, w, n) == m.ring.one && IsDomain(m.ring, domain, w, n)
    modifies a, buffer
    ensures Slice(a[..], base, n) == Transform(m, w, inverse, Slice(old(a[..]), base, n))
    ensures SameOutside(a[..], old(a[..]), base, n)
  {
    ghost var s, v := Slice(a[..], base, n), Root(m.ring, w, n, inverse);
    CopySlice(a, base, buffer, n);
    for i := 0 to n
      invariant buffer[..n] == s
      invariant forall t :: 0 <= t < i ==> a[base + t] == Dft(m, v, At(m.group, s), 0, 1, n, t)
      invariant SameOutside(a[..], old(a[..]), base, n)
    {
      DftEntry(m, a, base + i, domain, buffer, i, n, inverse, w, s);
    }
    SliceIsDft(m, v, s, a[..], base);
    if inverse {
      ScaleAll(m, a, base, n, m.ring.inv(FromNat(m.ring, n)));
      ScaledDft(m, w, s, n);
    }
  }

  method CopySlice<V>(a: array<V>, base: nat, buffer: array<V>, n: nat)
    requires a != buffer && base + n <= a.Length && n <= buffer.Length
    modifies buffer
    ensures buffer[..n] == Slice(a[..], base, n)
  {
    for i := 0 to n
      invariant forall p :: 0 <= p < i ==> buffer[p] == a[base + p]
    {
      buffer[i] := a[base + i];
    }
  }

  // ---------------------------------------------------------------- round trips

  /** The inverse transform undoes the transform, for every slice of a power-of-two length. */
  method FftRoundTrip<S(!new), V(!new)>(m: Module<S, V>, a: array<V>, base: nat, domain: seq<S>, logN: nat, ghost w: S)
    requires IsModule(m) && IsField(m.ring) && base + P2(logN) <= a.Length
    requires PrimitiveRoot(m.ring, w, P2(logN)) && IsDomain(m.ring, domain, w, P2(logN))
    requires FromNat(m.ring, P2(logN)) != m.ring.zero
    modifies a
    ensures Slice(a[..], base, P2(logN)) == Slice(old(a[..]), base, P2(logN))
    ensures SameOutside(a[..], old(a[..]), base, P2(logN))
  {
    hide P2, DftSeq, IsDomain, PrimitiveRoot;
    ghost var s := Slice(a[..], base, P2(logN));
    assert s + Zeros(m.group, 0) == s;
    FftInplace(m, a, base, domain, logN, logN, w);
    IfftInplace(m, a, base, domain, logN, w);
    TransformInverts(m, w, s, false);
  }

  /** The same for the quadratic transform, which needs no power of two, in either order. */
  method DftRoundTrip<S(!new), V(!new)>(
    m: Module<S, V>, a: array<V>, base: nat, domain: seq<S>, buffer: array<V>, n: nat, inverse: bool, ghost w: S)
    requires IsModule(m) && IsField(m.ring) && a != buffer && base + n <= a.Length && n <= buffer.Length
    requires PrimitiveRoot(m.ring, w, n) && IsDomain(m.ring, domain, w, n) && FromNat(m.ring, n) != m.ring.zero
    modifies a, buffer
    ensures Slice(a[..], base, n) == Slice(old(a[..]), base, n)
    ensures SameOutside(a[..], old(a[..]), base, n)
  {
    hide IsDomain, Transform;
    ghost var s := Slice(a[..], base, n);
    DftInplace(m, a, base, domain, buffer, n, inverse, w);
    DftInplace(m, a, base, domain, buffer, n, !inverse, w);
    TransformInverts(m, w, s, inverse);
  }
}
