/** Coprime lengths and the two index maps of the Good-Thomas transform. */
module NumberTheory {
  import opened Sums

  function Gcd(a: nat, b: nat): nat
    decreases b
  {
    if b == 0 then a else Gcd(b, a % b)
  }

  lemma {:induction false} Bezout(a: nat, b: nat) returns (u: int, v: int)
    ensures u * a + v * b == Gcd(a, b)
    decreases b
  {
    if b == 0 {
      u, v := 1, 0;
    } else {
      var q, t := a / b, a % b;
      var x, y := Bezout(b, t);
      u, v := y, x - q * y;
      assert a == b * q + t;
      assert v * b == x * b - y * (b * q);
      assert y * a == y * (b * q) + y * t;
    }
  }

  // If a divides b * x and a, b are coprime then a divides x.
  lemma DividesFactor(a: nat, b: nat, x: int, k: int) returns (j: int)
    requires Gcd(a, b) == 1 && b * x == a * k
    ensures x == a * j
  {
    var u, v := Bezout(a, b);
    j := u * x + v * k;
    calc {
      x;
      (u * a + v * b) * x;
      u * a * x + v * (b * x);
      u * a * x + v * (a * k);
      a * j;
    }
  }

  lemma SmallMultiple(a: int, j: int, x: int)
    requires x == a * j && -a < x < a
    ensures x == 0 && j == 0
  {
    AtLeast(a, j);
  }

  lemma AtLeast(a: int, j: int)
    ensures a >= 0 && j >= 1 ==> a * j >= a
    ensures a >= 0 && j <= -1 ==> a * j <= -a
  {
  }

  // A common multiple of coprime numbers that is smaller than their product is zero.
  lemma CommonMultiple(n1: nat, n2: nat, d: int, k: int, l: int)
    requires Gcd(n1, n2) == 1 && d == n1 * k == n2 * l && -(n1 * n2) < d < n1 * n2
    ensures d == 0
  {
    var j := DividesFactor(n1, n2, l, k);
    Regroup(n1, n2, j, l);
    SmallMultiple(n1 * n2, j, d);
  }

  lemma Regroup(a: int, b: int, j: int, l: int)
    requires l == a * j
    ensures b * l == (a * b) * j
  {
  }

  // The difference of two numbers with equal remainders is a multiple.
  lemma SameRemainder(x: int, y: int, a: nat) returns (k: int)
    requires a > 0 && x % a == y % a
    ensures x - y == a * k
  {
    k := x / a - y / a;
    assert a * (x / a) + x % a == x && a * (y / a) + y % a == y;
    assert a * k == a * (x / a) - a * (y / a);
  }

  // Row and column of input x: its remainders modulo the two lengths.
  function Scatter(n1: nat, n2: nat, x: int): int
    requires n1 > 0 && n2 > 0
  {
    (x % n1) * n2 + x % n2
  }

  // Where the value in row j, column i of the second transform goes.
  function Gather(n1: nat, n2: nat, i: int, j: int): int
    requires n1 * n2 > 0
  {
    (n1 * j + n2 * i) % (n1 * n2)
  }

  lemma RowColumn(n: nat, q: int, t: int, q': int, t': int)
    requires 0 <= t < n && 0 <= t' < n && q * n + t == q' * n + t'
    ensures q == q' && t == t'
  {
    assert n * (q - q') == t' - t;
    SmallMultiple(n, q - q', t' - t);
  }

  lemma CellBound(n1: nat, n2: nat, q: nat, t: nat)
    requires q < n1 && t < n2
    ensures 0 <= q * n2 + t < n1 * n2
  {
    AtLeast(n2, n1 - q);
    assert n1 * n2 == q * n2 + n2 * (n1 - q);
  }

  lemma ScatterBound(n1: nat, n2: nat, x: int)
    requires n1 > 0 && n2 > 0
    ensures 0 <= Scatter(n1, n2, x) < n1 * n2
  {
    CellBound(n1, n2, x % n1, x % n2);
  }

  lemma ScatterInjective(n1: nat, n2: nat, x: int, y: int)
    requires n1 > 0 && n2 > 0 && Gcd(n1, n2) == 1
    requires 0 <= x < n1 * n2 && 0 <= y < n1 * n2
    requires Scatter(n1, n2, x) == Scatter(n1, n2, y)
    ensures x == y
  {
    var r, c, r', c' := x % n1, x % n2, y % n1, y % n2;
    RowColumn(n2, r, c, r', c');
    var k := SameRemainder(x, y, n1);
    var l := SameRemainder(x, y, n2);
    CommonMultiple(n1, n2, x - y, k, l);
  }

  lemma GatherDifference(n1: int, n2: int, di: int, dj: int, k: int)
    requires n1 >= 0 && n2 >= 0 && Gcd(n1, n2) == 1
    requires -n1 < di < n1 && -n2 < dj < n2 && n1 * dj + n2 * di == (n1 * n2) * k
    ensures di == 0 && dj == 0
  {
    var e := n2 * k - dj;
    Distribute(n1, n2, dj, k);
    assert n2 * di == n1 * e;
    var x := DividesFactor(n1, n2, di, e);
    SmallMultiple(n1, x, di);
    ZeroProduct(n1, e);
    SmallMultiple(n2, k, dj);
  }

  lemma Distribute(n1: int, n2: int, dj: int, k: int)
    ensures n1 * (n2 * k - dj) == (n1 * n2) * k - n1 * dj
  {
  }

  lemma ZeroProduct(a: int, e: int)
    requires a > 0 && a * e == 0
    ensures e == 0
  {
  }

  lemma GatherInjective(n1: nat, n2: nat, i: int, j: int, i': int, j': int)
    requires n1 > 0 && n2 > 0 && n1 * n2 > 0 && Gcd(n1, n2) == 1
    requires 0 <= i < n1 && 0 <= i' < n1 && 0 <= j < n2 && 0 <= j' < n2
    requires Gather(n1, n2, i, j) == Gather(n1, n2, i', j')
    ensures i == i' && j == j'
  {
    var n, x, y := n1 * n2, n1 * j + n2 * i, n1 * j' + n2 * i';
    var k := SameRemainder(x, y, n);
    Difference(n1, n2, i, j, i', j');
    GatherDifference(n1, n2, i - i', j - j', k);
  }

  lemma Difference(n1: int, n2: int, i: int, j: int, i': int, j': int)
    ensures n1 * (j - j') + n2 * (i - i') == (n1 * j + n2 * i) - (n1 * j' + n2 * i')
  {
  }
}
