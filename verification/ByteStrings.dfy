/** Byte strings and the numbers they stand for. */
module ByteStrings {

  function Pow(b: nat, n: nat): (p: nat)
    ensures b > 0 ==> p > 0
  {
    if n == 0 then 1 else b * Pow(b, n - 1)
  }

  // Big-endian value of a byte string.
  function Value(bytes: seq<nat>): nat {
    if bytes == [] then 0 else Value(bytes[..|bytes| - 1]) * 256 + bytes[|bytes| - 1]
  }

  ghost predicate AllBytes(b: seq<nat>) { forall k :: 0 <= k < |b| ==> b[k] < 256 }

  lemma {:induction false} ValueAppend(a: seq<nat>, b: seq<nat>)
    ensures Value(a + b) == Value(a) * Pow(256, |b|) + Value(b)
    decreases |b|
  {
    if b == [] {
      assert a + b == a;
    } else {
      var c, last := b[..|b| - 1], b[|b| - 1];
      assert (a + b)[..|a + b| - 1] == a + c;
      ValueAppend(a, c);
      Regroup(Value(a), Pow(256, |c|));
    }
  }

  lemma Regroup(v: int, p: int)
    ensures (v * p) * 256 == v * (256 * p)
  {
  }

  lemma {:induction false} ValueBound(b: seq<nat>)
    requires forall k :: 0 <= k < |b| ==> b[k] < 256
    ensures Value(b) < Pow(256, |b|)
  {
    if b != [] { ValueBound(b[..|b| - 1]); }
  }

  lemma {:induction false} BytesAsBits(n: nat)
    ensures Pow(256, n) == Pow(2, 8 * n)
  {
    if n > 0 {
      BytesAsBits(n - 1);
      EightMore(8 * n - 8);
    }
  }

  lemma EightMore(k: nat)
    ensures Pow(2, k + 8) == 256 * Pow(2, k)
  {
    assert Pow(2, k + 8) == 2 * Pow(2, k + 7);
    assert Pow(2, k + 7) == 2 * Pow(2, k + 6);
    assert Pow(2, k + 6) == 2 * Pow(2, k + 5);
    assert Pow(2, k + 5) == 2 * Pow(2, k + 4);
    assert Pow(2, k + 4) == 2 * Pow(2, k + 3);
    assert Pow(2, k + 3) == 2 * Pow(2, k + 2);
    assert Pow(2, k + 2) == 2 * Pow(2, k + 1);
    assert Pow(2, k + 1) == 2 * Pow(2, k);
  }

  lemma ValuePush(a: seq<nat>, b: nat)
    ensures Value(a + [b]) == Value(a) * 256 + b
  {
    assert (a + [b])[..|a|] == a;
  }

  /** A byte string is determined by its length and its value. */
  lemma {:induction false} ValueInjective(a: seq<nat>, b: seq<nat>)
    requires AllBytes(a) && AllBytes(b) && |a| == |b| && Value(a) == Value(b)
    ensures a == b
  {
    if a != [] {
      var n := |a| - 1;
      ValueInjective(a[..n], b[..n]);
      assert a == a[..n] + [a[n]] && b == b[..n] + [b[n]];
    }
  }
}
