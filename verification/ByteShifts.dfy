/** Shifts of byte strings: the C, JavaScript and Rust loops, and what they compute. */
module ByteShifts {
  import opened ByteStrings

  // ---------------------------------------------------------------- one byte

  // 2^k for a shift within a byte.
  function P(k: nat): (p: nat)
    requires k <= 8
    ensures p > 0
  {
    [1, 2, 4, 8, 16, 32, 64, 128, 256][k]
  }

  lemma PIsPow(k: nat)
    requires k <= 8
    ensures P(k) == Pow(2, k)
  {
    if k > 0 { PIsPow(k - 1); }
  }

  // The byte at the end of two consecutive bytes shifted right by k: ((a << 8) + b) >> k, cut to 8 bits.
  function Window(a: nat, b: nat, k: nat): (c: nat)
    requires k <= 8
    ensures c < 256
  {
    ((a * 256 + b) / P(k)) % 256
  }

  lemma SmallMultiple(p: int, d: int)
    ensures p > 0 && -p < p * d < p ==> d == 0
  {
  }

  lemma QuotientIs(x: int, p: int, q: int, rem: int)
    requires p > 0 && x == p * q + rem && 0 <= rem < p
    ensures x / p == q && x % p == rem
  {
    assert p * (x / p) + x % p == x;
    assert p * (q - x / p) == x % p - rem;
    SmallMultiple(p, q - x / p);
  }

  lemma DivideSum(p: int, x: int, y: int)
    requires p > 0
    ensures (p * x + y) / p == x + y / p && (p * x + y) % p == y % p
  {
    assert p * (x + y / p) + y % p == p * x + y;
    QuotientIs(p * x + y, p, x + y / p, y % p);
  }

  lemma PDivides(k: nat)
    requires k <= 8
    ensures P(k) * P(8 - k) == 256
  {
  }

  lemma Reassociate(p: int, q: int, m: int)
    ensures (p * q) * m == p * (q * m)
  {
  }

  // Every number with last byte a and next byte b, shifted: its new last byte is the window.
  lemma WindowStep(v: nat, a: nat, b: nat, k: nat)
    requires k <= 8 && v % 256 == a && b < 256
    ensures (v * 256 + b) / P(k) == (v / P(k)) * 256 + Window(a, b, k)
  {
    var p, q := P(k), P(8 - k);
    PDivides(k);
    hide P;
    // v and a have the same remainder modulo p
    var rem := v % p;
    Reassociate(p, q, v / 256);
    assert v == p * (q * (v / 256)) + a;
    DivideSum(p, q * (v / 256), a);
    WindowOf(p, v, rem, b);
    WindowOf(p, a, rem, b);
    var z := (rem * 256 + b) / p;
    CutOff(a / p, z);
  }

  // (x * 256 + b) / p from the quotient and the remainder of x
  lemma WindowOf(p: int, x: int, rem: int, b: nat)
    requires p > 0 && rem == x % p && b < 256
    ensures (x * 256 + b) / p == (x / p) * 256 + (rem * 256 + b) / p
    ensures 0 <= (rem * 256 + b) / p < 256
  {
    var u := x / p;
    assert x == p * u + rem;
    Reassociate(p, u, 256);
    DivideSum(p, u * 256, rem * 256 + b);
    QuotientBelow(rem * 256 + b, p, 256);
  }

  lemma QuotientBelow(x: int, p: int, n: int)
    requires p > 0 && 0 <= x < n * p
    ensures 0 <= x / p < n
  {
    assert p * (x / p) + x % p == x;
    TimesBelow(p, x / p, n);
  }

  lemma TimesBelow(p: int, a: int, n: int)
    ensures p > 0 && p * a < n * p ==> a < n
    ensures p > 0 && -p < p * a ==> a >= 0
  {
  }

  lemma CutOff(x: int, z: int)
    requires 0 <= z < 256
    ensures (x * 256 + z) % 256 == z
  {
  }

  // ---------------------------------------------------------------- shifting right within bytes

  // The window at one place of a string, with nothing before the first byte.
  function ShiftedAt(a: seq<nat>, i: nat, k: nat): (c: nat)
    requires i < |a| && k <= 8
    ensures c < 256
  {
    Window(if i == 0 then 0 else a[i - 1], a[i], k)
  }

  function Shifted(a: seq<nat>, k: nat): (r: seq<nat>)
    requires k <= 8
    ensures |r| == |a|
  {
    seq(|a|, i requires 0 <= i < |a| => ShiftedAt(a, i, k))
  }

  lemma LastByte(a: seq<nat>)
    requires AllBytes(a) && a != []
    ensures Value(a) % 256 == a[|a| - 1]
  {
  }

  lemma {:induction false} ShiftedValue(a: seq<nat>, k: nat)
    requires k <= 8 && AllBytes(a)
    ensures AllBytes(Shifted(a, k)) && Value(Shifted(a, k)) == Value(a) / P(k)
  {
    hide Window, P;
    if a != [] {
      var n := |a| - 1;
      var high, prev := a[..n], if n == 0 then 0 else a[n - 1];
      ShiftedValue(high, k);
      if n > 0 { LastByte(high); }
      WindowStep(Value(high), prev, a[n], k);
      assert Shifted(a, k)[..n] == Shifted(high, k);
    } else {
      ZeroQuotient(P(k));
    }
  }

  lemma ZeroQuotient(p: nat)
    requires p > 0
    ensures 0 / p == 0
  {
  }

  // ---------------------------------------------------------------- what the shifts mean

  // r is a times 2^n, as many bytes longer as that needs.
  ghost predicate IsLeftShift(a: seq<nat>, n: nat, r: seq<nat>) {
    && AllBytes(r)
    && |r| == |a| + n / 8 + (if n % 8 == 0 then 0 else 1)
    && Value(r) == Value(a) * Pow(2, n)
  }

  // r is the quotient of a by 2^n, without the bytes that have been shifted out.
  ghost predicate IsRightShift(a: seq<nat>, n: nat, r: seq<nat>) {
    && AllBytes(r)
    && |r| == (if |a| <= n / 8 then 0 else |a| - n / 8)
    && Value(r) == Value(a) / Pow(2, n)
  }

  /** The result of a shift is unique, so implementations that meet the contract agree byte by byte. */
  lemma ShiftsUnique(a: seq<nat>, n: nat, r: seq<nat>, r': seq<nat>)
    ensures IsLeftShift(a, n, r) && IsLeftShift(a, n, r') ==> r == r'
    ensures IsRightShift(a, n, r) && IsRightShift(a, n, r') ==> r == r'
  {
    hide Value, Pow;
    if (IsLeftShift(a, n, r) && IsLeftShift(a, n, r')) || (IsRightShift(a, n, r) && IsRightShift(a, n, r')) {
      ValueInjective(r, r');
    }
  }

  /** Shifting left and then right by the same amount restores the number. */
  lemma RightUndoesLeft(a: seq<nat>, n: nat, left: seq<nat>, right: seq<nat>)
    requires IsLeftShift(a, n, left) && IsRightShift(left, n, right)
    ensures Value(right) == Value(a)
  {
    hide Value, Pow;
    Cancel(Value(a), Pow(2, n));
  }

  lemma Cancel(v: nat, p: nat)
    requires p > 0
    ensures (v * p) / p == v
  {
    QuotientIs(v * p, p, v, 0);
  }

  // ---------------------------------------------------------------- from windows to shifts

  function Zeros(n: nat): seq<nat> { seq(n, _ => 0) }

  lemma {:induction false} ZerosValue(n: nat)
    ensures Value(Zeros(n)) == 0 && AllBytes(Zeros(n))
  {
    if n > 0 {
      ZerosValue(n - 1);
      assert Zeros(n)[..n - 1] == Zeros(n - 1);
    }
  }

  lemma {:induction false} PowAdd(a: nat, b: nat)
    ensures Pow(2, a + b) == Pow(2, a) * Pow(2, b)
  {
    if a > 0 {
      PowAdd(a - 1, b);
      Reassociate(2, Pow(2, a - 1), Pow(2, b));
    }
  }

  // 2^n from whole bytes and the bits within one.
  lemma PowSplit(n: nat)
    ensures Pow(2, n) == P(n % 8) * Pow(256, n / 8)
  {
    hide Pow, P;
    PowAdd(n % 8, 8 * (n / 8));
    PIsPow(n % 8);
    BytesAsBits(n / 8);
  }

  lemma LeftShifted(a: seq<nat>, n: nat)
    requires AllBytes(a) && n % 8 > 0
    ensures IsLeftShift(a, n, Shifted(a + [0], 8 - n % 8) + Zeros(n / 8))
  {
    hide Value, Pow, P, Shifted;
    var s, nb := n % 8, n / 8;
    var b := Shifted(a + [0], 8 - s);
    ShiftedValue(a + [0], 8 - s);
    ValuePush(a, 0);
    ZerosValue(nb);
    ValueAppend(b, Zeros(nb));
    PowSplit(n);
    // (v * 256) / P(8 - s) == v * P(s)
    PDivides(s);
    Reassociate(Value(a), P(s), P(8 - s));
    Cancel(Value(a) * P(s), P(8 - s));
    Reassociate(Value(a), P(s), Pow(256, nb));
  }

  lemma LeftByBytes(a: seq<nat>, n: nat)
    requires AllBytes(a) && n % 8 == 0
    ensures IsLeftShift(a, n, a + Zeros(n / 8))
  {
    assert P(0) == 1;
    hide Value, Pow, P;
    ZerosValue(n / 8);
    ValueAppend(a, Zeros(n / 8));
    PowSplit(n);
  }

  // The quotient by whole bytes drops the last ones.
  lemma DropBytes(a: seq<nat>, nb: nat)
    requires AllBytes(a) && nb <= |a|
    ensures Value(a) / Pow(256, nb) == Value(a[..|a| - nb])
  {
    hide Value, Pow;
    var k := |a| - nb;
    assert a == a[..k] + a[k..];
    ValueAppend(a[..k], a[k..]);
    ValueBound(a[k..]);
    Swap(Pow(256, nb), Value(a[..k]));
    QuotientIs(Value(a), Pow(256, nb), Value(a[..k]), Value(a[k..]));
  }

  lemma Swap(x: int, y: int)
    ensures x * y == y * x
  {
  }

  lemma DivideTwice(v: nat, p: nat, q: nat)
    requires p > 0 && q > 0
    ensures p * q > 0 && v / (p * q) == (v / q) / p
  {
    var u := v / q;
    var w := u / p;
    assert v == q * u + v % q && u == p * w + u % p;
    Reassociate(q, p, w);
    Swap(p, q);
    assert q * u == q * (p * w) + q * (u % p);
    var rem := q * (u % p) + v % q;
    RemainderBelow(p, q, u % p, v % q);
    QuotientIs(v, p * q, w, rem);
  }

  lemma RemainderBelow(p: nat, q: nat, x: nat, y: nat)
    requires x < p && y < q
    ensures q * x + y < p * q
  {
    assert q * (x + 1) <= q * p;
  }

  lemma RightShifted(a: seq<nat>, n: nat)
    requires AllBytes(a) && n / 8 < |a|
    ensures IsRightShift(a, n, Shifted(a[..|a| - n / 8], n % 8))
  {
    hide Value, Pow, P, Shifted;
    var s, nb := n % 8, n / 8;
    ShiftedValue(a[..|a| - nb], s);
    DropBytes(a, nb);
    PowSplit(n);
    DivideTwice(Value(a), P(s), Pow(256, nb));
  }

  lemma RightOfAll(a: seq<nat>, n: nat)
    requires AllBytes(a) && |a| <= n / 8
    ensures IsRightShift(a, n, [])
  {
    assert Value([]) == 0;
    hide Value, Pow;
    ValueBound(a);
    BytesAsBits(|a|);
    PowAdd(8 * |a|, n - 8 * |a|);
    PowGrows(Pow(2, 8 * |a|), Pow(2, n - 8 * |a|));
    QuotientIs(Value(a), Pow(2, n), 0, Value(a));
  }

  lemma PowGrows(x: nat, y: nat)
    requires y > 0
    ensures x <= x * y
  {
  }

  // The ends of a shifted string, as the loops write them.
  lemma Ends(x: nat, k: nat)
    requires x < 256 && k <= 8
    ensures Window(0, x, k) == x / P(k)
    ensures Window(x, 0, 8 - k) == (x * P(k)) % 256
  {
    var p := P(k);
    PDivides(k);
    hide P;
    QuotientBelowSelf(x, p);
    Reassociate(x, p, P(8 - k));
    Cancel(x * p, P(8 - k));
  }

  lemma QuotientBelowSelf(x: nat, p: nat)
    requires p > 0
    ensures 0 <= x / p <= x
  {
    assert p * (x / p) + x % p == x;
    PowGrows(x / p, p);
  }

  // ---------------------------------------------------------------- C

  // The first byte, the middle and the last byte before the zeros.
  method CLeftByBits(a: seq<nat>, shift: nat, r: array<nat>)
    requires AllBytes(a) && a != [] && 0 < shift < 8 && r.Length > |a|
    modifies r
    ensures r[..|a| + 1] == Shifted(a + [0], 8 - shift)
    ensures forall k :: |a| < k < r.Length ==> r[k] == old(r[k])
  {
    hide Window, P, ShiftedAt;
    var len, right := |a|, 8 - shift;
    ghost var b := a + [0];
    FirstAt(b, right);
    r[0] := a[0] / P(right);
    for i := 1 to len
      invariant forall k :: 0 <= k < i ==> r[k] == ShiftedAt(b, k, right)
      invariant forall k :: len < k < r.Length ==> r[k] == old(r[k])
    {
      NextAt(b, i, right);
      r[i] := Window(a[i - 1], a[i], right);
    }
    LastAt(a, shift);
    r[len] := (a[len - 1] * P(shift)) % 256;
  }

  lemma FirstAt(b: seq<nat>, k: nat)
    requires AllBytes(b) && b != [] && k <= 8
    ensures ShiftedAt(b, 0, k) == b[0] / P(k)
  {
    Ends(b[0], k);
  }

  lemma NextAt(b: seq<nat>, i: nat, k: nat)
    requires 0 < i < |b| && k <= 8
    ensures ShiftedAt(b, i, k) == Window(b[i - 1], b[i], k)
  {
  }

  lemma LastAt(a: seq<nat>, shift: nat)
    requires AllBytes(a) && a != [] && shift <= 8
    ensures ShiftedAt(a + [0], |a|, 8 - shift) == (a[|a| - 1] * P(shift)) % 256
  {
    Ends(a[|a| - 1], shift);
  }

  method CShiftLeft(a: seq<nat>, n: nat) returns (r: array<nat>)
    requires AllBytes(a) && (a != [] || n % 8 == 0)
    ensures IsLeftShift(a, n, r[..])
  {
    hide Value, Pow, Shifted, IsLeftShift;
    var shift, bytes, len := n % 8, n / 8, |a|;
    if shift == 0 {
      r := new nat[len + bytes](_ => 0);
      for i := 0 to len
        invariant forall k :: 0 <= k < len + bytes ==> r[k] == if k < i then a[k] else 0
      {
        r[i] := a[i];
      }
      assert r[..] == a + Zeros(bytes);
      LeftByBytes(a, n);
    } else {
      r := new nat[len + bytes + 1](_ => 0);
      CLeftByBits(a, shift, r);
      assert r[..] == r[..len + 1] + Zeros(bytes);
      LeftShifted(a, n);
    }
  }

  method CRightByBits(a: seq<nat>, shift: nat, r: array<nat>)
    requires AllBytes(a) && 0 < shift < 8 && 0 < r.Length <= |a|
    modifies r
    ensures r[..] == Shifted(a[..r.Length], shift)
  {
    hide Window, P, ShiftedAt;
    ghost var b := a[..r.Length];
    FirstAt(b, shift);
    r[0] := a[0] / P(shift);
    for i := 1 to r.Length
      invariant forall k :: 0 <= k < i ==> r[k] == ShiftedAt(b, k, shift)
    {
      NextAt(b, i, shift);
      r[i] := Window(a[i - 1], a[i], shift);
    }
  }

  method CShiftRight(a: seq<nat>, n: nat) returns (r: array<nat>)
    requires AllBytes(a)
    ensures IsRightShift(a, n, r[..])
  {
    hide Value, Pow, Shifted, IsRightShift;
    var shift, bytes, len := n % 8, n / 8, |a|;
    if len <= bytes {
      r := new nat[0];
      RightOfAll(a, n);
      assert r[..] == [];
      return;
    }
    var size := len - bytes;
    r := new nat[size](_ => 0);
    if shift == 0 {
      for i := 0 to size
        invariant forall k :: 0 <= k < i ==> r[k] == a[k]
      {
        r[i] := a[i];
      }
      assert r[..] == a[..size];
      NoShift(a[..size]);
    } else {
      CRightByBits(a, shift, r);
    }
    RightShifted(a, n);
  }

  lemma NoShift(a: seq<nat>)
    requires AllBytes(a)
    ensures Shifted(a, 0) == a
  {
    forall i | 0 <= i < |a|
      ensures ShiftedAt(a, i, 0) == a[i]
    {
      CutOff(if i == 0 then 0 else a[i - 1], a[i]);
    }
  }

  // ---------------------------------------------------------------- JavaScript

  // Reading past the end of an array gives undefined, which the shifts take for zero.
  function Read(a: seq<nat>, i: int): nat { if 0 <= i < |a| then a[i] else 0 }

  method JsShiftLeft(a: seq<nat>, n: nat) returns (r: array<nat>)
    requires AllBytes(a)
    ensures IsLeftShift(a, n, r[..])
  {
    hide Value, Pow, Shifted, IsLeftShift, Window, P, ShiftedAt;
    var len := |a|;
    if n == 0 {
      r := Copy(a, len, 0);
      assert r[..] == a + Zeros(0);
      LeftByBytes(a, 0);
      return;
    }
    var shift, bytes := n % 8, n / 8;
    if shift == 0 {
      r := Copy(a, len, bytes);
      LeftByBytes(a, n);
    } else {
      r := JsLeftByBits(a, shift, bytes);
      LeftShifted(a, n);
    }
  }

  // The first size bytes of a, then zeros.
  method Copy(a: seq<nat>, size: nat, zeros: nat) returns (r: array<nat>)
    requires size <= |a|
    ensures r[..] == a[..size] + Zeros(zeros)
    ensures size == |a| ==> r[..] == a + Zeros(zeros)
  {
    r := new nat[size + zeros](_ => 0);
    for i := 0 to size
      invariant forall k :: 0 <= k < size + zeros ==> r[k] == if k < i then a[k] else 0
    {
      r[i] := a[i];
    }
  }

  method JsLeftByBits(a: seq<nat>, shift: nat, bytes: nat) returns (r: array<nat>)
    requires AllBytes(a) && 0 < shift < 8
    ensures r[..] == Shifted(a + [0], 8 - shift) + Zeros(bytes)
  {
    hide Window, P, ShiftedAt;
    var len, right := |a|, 8 - shift;
    r := new nat[len + bytes + 1](_ => 0);
    ghost var b := a + [0];
    FirstAt(b, right);
    r[0] := Read(a, 0) / P(right);
    for i := 1 to (if len < 1 then 1 else len)
      invariant forall k :: 0 <= k < i ==> r[k] == ShiftedAt(b, k, right)
      invariant forall k :: i <= k < r.Length ==> r[k] == 0
    {
      NextAt(b, i, right);
      r[i] := Window(a[i - 1], a[i], right);
    }
    if len > 0 { LastAt(a, shift); } else { ZeroEnds(shift); }
    r[len] := (Read(a, len - 1) * P(shift)) % 256;
    assert r[..len + 1] == Shifted(b, right);
    assert r[..] == r[..len + 1] + Zeros(bytes);
  }

  lemma ZeroEnds(shift: nat)
    requires shift <= 8
    ensures ShiftedAt([0], 0, 8 - shift) == (0 * P(shift)) % 256
    ensures [] + [0] == [0]
  {
    Ends(0, shift);
  }

  method JsShiftRight(a: seq<nat>, n: nat) returns (r: array<nat>)
    requires AllBytes(a)
    ensures IsRightShift(a, n, r[..])
  {
    hide Value, Pow, Shifted, IsRightShift, P;
    var len := |a|;
    var shift, bytes := n % 8, n / 8;
    if n == 0 || len > bytes {
      if shift == 0 {
        r := Copy(a, if n == 0 then len else len - bytes, 0);
        assert r[..] == a[..len - bytes];
      } else {
        r := new nat[len - bytes](_ => 0);
        CRightByBits(a, shift, r);
      }
      JsRight(a, n);
    } else {
      r := new nat[0];
      RightOfAll(a, n);
      assert r[..] == [];
    }
  }

  lemma JsRight(a: seq<nat>, n: nat)
    requires AllBytes(a) && (n == 0 || |a| > n / 8)
    ensures IsRightShift(a, n, Shifted(a[..|a| - n / 8], n % 8))
    ensures n % 8 == 0 ==> Shifted(a[..|a| - n / 8], n % 8) == a[..|a| - n / 8]
  {
    hide Value, Pow, Shifted, P;
    if n % 8 == 0 { NoShift(a[..|a| - n / 8]); }
    if a == [] {
      RightOfAll(a, n);
      assert a[..0] == [];
    } else {
      RightShifted(a, n);
    }
  }

  // ---------------------------------------------------------------- Rust

  // Bitwise disjunction.
  function Or(a: nat, b: nat): nat
    decreases a + b
  {
    if a == 0 then b
    else if b == 0 then a
    else 2 * Or(a / 2, b / 2) + (if a % 2 == 1 || b % 2 == 1 then 1 else 0)
  }

  // Numbers without a common bit are added.
  lemma {:induction false} OrDisjoint(h: nat, l: nat, k: nat)
    requires k <= 8 && h % P(k) == 0 && l < P(k)
    ensures Or(h, l) == h + l == Or(l, h)
    decreases k
  {
    if k == 0 {
      assert P(0) == 1;
    } else if h > 0 && l > 0 {
      HalfMultiple(h, k);
      OrDisjoint(h / 2, l / 2, k - 1);
    }
  }

  lemma HalfMultiple(h: nat, k: nat)
    requires 0 < k <= 8 && h % P(k) == 0
    ensures P(k) == 2 * P(k - 1) && h % 2 == 0 && (h / 2) % P(k - 1) == 0
  {
    var p := P(k - 1);
    assert P(k) == 2 * p;
    hide P;
    var q := h / (2 * p);
    assert h == (2 * p) * q;
    Reassociate(2, p, q);
    QuotientIs(h / 2, p, q, 0);
  }

  // The bits that stay and the carry make the window.
  lemma OrIsWindow(a: nat, b: nat, k: nat)
    requires a < 256 && b < 256 && k <= 8
    ensures Or((a * P(8 - k)) % 256, b / P(k)) == Window(a, b, k) == Or(b / P(k), (a * P(8 - k)) % 256)
  {
    var p, q := P(k), P(8 - k);
    PDivides(k);
    hide P;
    // a q % 256 is a multiple of q, and b / p is below q
    Reassociate(a, q, p);
    Swap(p, q);
    Swap(p, a * q);
    DivideSum(p, a * q, b);
    var h := (a * q) % 256;
    MultipleRemainder(a, q, p);
    QuotientBelow(b, p, q);
    OrDisjoint(h, b / p, 8 - k);
    BelowNext(h, b / p, q, p);
    SumRemainder(a * q, b / p);
  }

  // (a q) modulo p q is a multiple of q.
  lemma MultipleRemainder(a: nat, q: nat, p: nat)
    requires p > 0 && q > 0 && p * q == 256
    ensures ((a * q) % 256) % q == 0
  {
    var d, e := a / p, a % p;
    assert a == p * d + e;
    assert a * q == (p * q) * d + e * q by { Reassociate(p, d, q); Reassociate(p, q, d); Swap(d, q); }
    RemainderBelow(p, q, e, 0);
    Swap(e, q);
    QuotientIs(a * q, 256, d, e * q);
    QuotientIs(e * q, q, e, 0);
  }

  lemma BelowNext(h: nat, l: nat, q: nat, p: nat)
    requires q > 0 && p * q == 256 && h < 256 && h % q == 0 && l < q
    ensures h + l < 256
  {
    var d := h / q;
    assert h == q * d;
    TimesBelow(q, d, p);
    RemainderBelow(p, q, d, l);
  }

  lemma SumRemainder(x: nat, l: nat)
    requires (x % 256) + l < 256
    ensures (x + l) % 256 == x % 256 + l
  {
  }

  // The amount is refused above 64000; shifting right by more bytes than there are is a panic.
  datatype Shift = OutOfBounds | Panics | Fits(bytes: seq<nat>)

  method RustShiftLeft(a: seq<nat>, n: nat) returns (r: Shift)
    requires AllBytes(a)
    ensures if n > 64000 then r == OutOfBounds else r.Fits? && IsLeftShift(a, n, r.bytes)
  {
    hide Value, Pow, Shifted, IsLeftShift;
    if n > 64000 {
      return OutOfBounds;
    }
    var bytes, bits := n / 8, n % 8;
    var result := new nat[|a| + bytes + (if bits > 0 then 1 else 0)](_ => 0);
    if bits > 0 {
      RustLeftLoop(a, bits, result);
      assert result[..] == result[..|a| + 1] + Zeros(bytes);
      LeftShifted(a, n);
    } else {
      RustLeftCopy(a, result);
      assert result[..] == a + Zeros(bytes);
      LeftByBytes(a, n);
    }
    r := Fits(result[..]);
  }

  // From the last byte to the first, with the bits shifted out carried along.
  method RustLeftLoop(a: seq<nat>, bits: nat, result: array<nat>)
    requires AllBytes(a) && 0 < bits < 8 && result.Length > |a|
    modifies result
    ensures result[..|a| + 1] == Shifted(a + [0], 8 - bits)
    ensures forall k :: |a| < k < result.Length ==> result[k] == old(result[k])
  {
    hide Window, P, ShiftedAt, Or;
    ghost var b := a + [0];
    var carry := 0;
    var i := |a|;
    while i > 0
      invariant 0 <= i <= |a| && carry == b[i] / P(8 - bits)
      invariant forall k :: i < k <= |a| ==> result[k] == ShiftedAt(b, k, 8 - bits)
      invariant forall k :: |a| < k < result.Length ==> result[k] == old(result[k])
    {
      i := i - 1;
      OrIsWindow(a[i], b[i + 1], 8 - bits);
      NextAt(b, i + 1, 8 - bits);
      result[i + 1] := Or((a[i] * P(bits)) % 256, carry);
      carry := a[i] / P(8 - bits);
    }
    FirstAt(b, 8 - bits);
    result[0] := carry;
  }

  method RustLeftCopy(a: seq<nat>, result: array<nat>)
    requires AllBytes(a) && result.Length >= |a|
    modifies result
    ensures result[..|a|] == a && forall k :: |a| <= k < result.Length ==> result[k] == old(result[k])
  {
    hide Or;
    var i := |a|;
    while i > 0
      invariant 0 <= i <= |a|
      invariant forall k :: i <= k < |a| ==> result[k] == a[k]
      invariant forall k :: |a| <= k < result.Length ==> result[k] == old(result[k])
    {
      i := i - 1;
      OrZero(a[i]);
      result[i] := Or((a[i] * P(0)) % 256, 0);
    }
  }

  lemma OrZero(x: nat)
    requires x < 256
    ensures Or((x * P(0)) % 256, 0) == x == Or(x / P(0), 0)
  {
  }

  method RustShiftRight(a: seq<nat>, n: nat) returns (r: Shift)
    requires AllBytes(a)
    ensures r == OutOfBounds <==> n > 64000
    ensures r == Panics <==> n <= 64000 && n / 8 > |a|
    ensures r.Fits? ==> IsRightShift(a, n, r.bytes)
  {
    hide Value, Pow, Shifted, IsRightShift;
    if n > 64000 {
      return OutOfBounds;
    }
    var bytes, bits := n / 8, n % 8;
    if bytes > |a| {
      return Panics;
    }
    var result := new nat[|a| - bytes](_ => 0);
    RustRightLoop(a, bits, result);
    if bytes < |a| {
      RightShifted(a, n);
    } else {
      RightOfAll(a, n);
      assert result[..] == [];
    }
    r := Fits(result[..]);
  }

  method RustRightLoop(a: seq<nat>, bits: nat, result: array<nat>)
    requires AllBytes(a) && bits < 8 && result.Length <= |a|
    modifies result
    ensures result[..] == Shifted(a[..result.Length], bits)
  {
    hide Window, P, ShiftedAt, Or;
    ghost var b := a[..result.Length];
    var carry := 0;
    for i := 0 to result.Length
      invariant bits > 0 ==> carry == if i == 0 then 0 else (a[i - 1] * P(8 - bits)) % 256
      invariant bits == 0 ==> carry == 0
      invariant forall k :: 0 <= k < i ==> result[k] == ShiftedAt(b, k, bits)
    {
      RightAt(b, i, bits);
      result[i] := Or(a[i] / P(bits), carry);
      if bits > 0 {
        carry := (a[i] * P(8 - bits)) % 256;
      }
    }
  }

  lemma RightAt(b: seq<nat>, i: nat, bits: nat)
    requires AllBytes(b) && i < |b| && bits < 8
    ensures i == 0 || bits == 0 ==> ShiftedAt(b, i, bits) == Or(b[i] / P(bits), 0)
    ensures i > 0 ==> ShiftedAt(b, i, bits) == Or(b[i] / P(bits), (b[i - 1] * P(8 - bits)) % 256)
  {
    hide P, Or, Window;
    var prev := if i == 0 then 0 else b[i - 1];
    OrIsWindow(prev, b[i], bits);
    if bits == 0 {
      OrZero(b[i]);
      WholeByte(prev, b[i]);
    }
  }

  lemma WholeByte(a: nat, b: nat)
    requires b < 256
    ensures Window(a, b, 0) == b
  {
    CutOff(a, b);
  }

  // ---------------------------------------------------------------- agreement

  /** The C, JavaScript and Rust loops write the same bytes wherever all three are defined. */
  method LeftShiftsAgree(a: seq<nat>, n: nat) returns (c: array<nat>, js: array<nat>, rust: Shift)
    requires AllBytes(a) && (a != [] || n % 8 == 0)
    ensures IsLeftShift(a, n, c[..]) && js[..] == c[..]
    ensures rust == if n > 64000 then OutOfBounds else Fits(c[..])
  {
    hide Value, Pow, IsLeftShift;
    c := CShiftLeft(a, n);
    js := JsShiftLeft(a, n);
    rust := RustShiftLeft(a, n);
    ShiftsUnique(a, n, c[..], js[..]);
    if rust.Fits? { ShiftsUnique(a, n, c[..], rust.bytes); }
  }

  method RightShiftsAgree(a: seq<nat>, n: nat) returns (c: array<nat>, js: array<nat>, rust: Shift)
    requires AllBytes(a)
    ensures IsRightShift(a, n, c[..]) && js[..] == c[..]
    ensures rust == if n > 64000 then OutOfBounds else if n / 8 > |a| then Panics else Fits(c[..])
  {
    hide Value, Pow, IsRightShift;
    c := CShiftRight(a, n);
    js := JsShiftRight(a, n);
    rust := RustShiftRight(a, n);
    ShiftsUnique(a, n, c[..], js[..]);
    if rust.Fits? { ShiftsUnique(a, n, c[..], rust.bytes); }
  }

  /** Left then right by the same amount gives back the same number. */
  method ShiftRoundTrip(a: seq<nat>, n: nat) returns (r: array<nat>)
    requires AllBytes(a) && (a != [] || n % 8 == 0)
    ensures Value(r[..]) == Value(a)
  {
    hide Value, Pow;
    var l := CShiftLeft(a, n);
    r := CShiftRight(l[..], n);
    RightUndoesLeft(a, n, l[..], r[..]);
  }
}
