/** Laws of the comb, stack and division instructions, for every n and every stack. */
module MichelsonLaws {
  import opened Michelson
  import opened MichelsonOps

  // One instruction after the other takes s to t, gas aside.
  ghost predicate Leads(first: Op, second: Op, ctx: Ctx, s: Stack, t: Stack) {
    var e := OpEffect(first, ctx, s);
    && e.Charge? && e.after.Next?
    && var e' := OpEffect(second, ctx, e.after.stack);
    && e'.Charge? && e'.after == Next(t)
  }

  // ---------------------------------------------------------------- PAIR n and UNPAIR n

  lemma {:induction false} UncombComb(vs: seq<Value>)
    requires |vs| > 0
    ensures Uncomb(|vs|, Comb(vs)) == Some(vs)
  {
    if |vs| > 1 {
      UncombComb(vs[1..]);
      assert [vs[0]] + vs[1..] == vs;
    } else {
      assert vs == [vs[0]];
    }
  }

  lemma {:induction false} CombUncomb(n: nat, v: Value)
    requires n > 0 && Uncomb(n, v).Some?
    ensures |Uncomb(n, v).value| == n && Comb(Uncomb(n, v).value) == v
    decreases n
  {
    if n > 1 {
      CombUncomb(n - 1, v.r);
      assert Uncomb(n, v).value[1..] == Uncomb(n - 1, v.r).value;
    }
  }

  lemma {:induction false} UnpairUndoesPair(n: nat, ctx: Ctx, s: Stack)
    requires 0 < n <= |s|
    ensures Leads(Combs(PairN(n)), Combs(UnpairN(n)), ctx, s, s)
  {
    UncombComb(s[..n]);
    var t := [Comb(s[..n])] + s[n..];
    assert t[1..] == s[n..] && s[..n] + s[n..] == s;
  }

  lemma {:induction false} PairUndoesUnpair(n: nat, ctx: Ctx, s: Stack)
    requires n > 0 && |s| > 0 && Uncomb(n, s[0]).Some?
    ensures Leads(Combs(UnpairN(n)), Combs(PairN(n)), ctx, s, s)
  {
    CombUncomb(n, s[0]);
    var vs := Uncomb(n, s[0]).value;
    var t := vs + s[1..];
    assert t[..n] == vs && t[n..] == s[1..] && [s[0]] + s[1..] == s;
  }

  // ---------------------------------------------------------------- DIG n and DUG n

  lemma {:induction false} DugUndoesDig(n: nat, ctx: Ctx, s: Stack)
    requires n < |s|
    ensures Leads(Stack(Dig(n)), Stack(Dug(n)), ctx, s, s)
  {
    if n > 0 {
      var t := [s[n]] + s[..n] + s[n + 1..];
      assert t[1..n + 1] == s[..n] && t[n + 1..] == s[n + 1..];
      assert t[1..n + 1] + [t[0]] + t[n + 1..] == s;
    }
  }

  lemma {:induction false} DigUndoesDug(n: nat, ctx: Ctx, s: Stack)
    requires n < |s|
    ensures Leads(Stack(Dug(n)), Stack(Dig(n)), ctx, s, s)
  {
    if n > 0 {
      var t := s[1..n + 1] + [s[0]] + s[n + 1..];
      assert t[..n] == s[1..n + 1] && t[n] == s[0] && t[n + 1..] == s[n + 1..];
      assert [t[n]] + t[..n] + t[n + 1..] == s;
    }
  }

  // ---------------------------------------------------------------- GET n and UPDATE n

  // UPDATE n accepts the combs GET n does, and what GET n finds afterwards is the new value.
  lemma {:induction false} GetAfterUpdate(n: nat, v: Value, x: Value)
    ensures WithField(n, v, x).Some? <==> Field(n, v).Some?
    ensures WithField(n, v, x).Some? ==> Field(n, WithField(n, v, x).value) == Some(x)
    decreases n
  {
    if n > 1 && v.VPair? { GetAfterUpdate(n - 2, v.r, x); }
  }

  lemma {:induction false} UpdateWithItself(n: nat, v: Value)
    requires Field(n, v).Some?
    ensures WithField(n, v, Field(n, v).value) == Some(v)
    decreases n
  {
    if n > 1 { UpdateWithItself(n - 2, v.r); }
  }

  // Leaves are the odd fields: replacing one leaves all the others as they were.
  lemma {:induction false} UpdateLeavesOthers(n: nat, m: nat, v: Value, x: Value)
    requires n % 2 == 1 && m % 2 == 1 && n != m && WithField(n, v, x).Some?
    ensures Field(m, WithField(n, v, x).value) == Field(m, v)
    decreases n
  {
    if n > 1 && m > 1 { UpdateLeavesOthers(n - 2, m - 2, v.r, x); }
  }

  // Updating the same field twice keeps the last value.
  lemma {:induction false} UpdateTwice(n: nat, v: Value, x: Value, y: Value)
    requires Field(n, v).Some?
    ensures WithField(n, v, x).Some? && WithField(n, WithField(n, v, x).value, y) == WithField(n, v, y)
    decreases n
  {
    if n > 1 { UpdateTwice(n - 2, v.r, x, y); }
  }

  // ---------------------------------------------------------------- EDIV

  lemma {:induction false} QuotientRemainder(a: nat, b: nat)
    requires b > 0
    ensures Quotient(a, b) * b + Remainder(a, b) == a
  {
  }

  /** The sign-by-sign division of integers is the Euclidean one. */
  lemma {:induction false} EDivEuclidean(x: int, y: int)
    requires y != 0
    ensures var (q, r) := EDivSigned(x, y); x == q * y + r && r < Magnitude(y)
  {
    var q, r := Quotient(Magnitude(x), Magnitude(y)), Remainder(Magnitude(x), Magnitude(y));
    QuotientRemainder(Magnitude(x), Magnitude(y));
    assert q * -y == -(q * y);
    assert -q * y == -(q * y);
    assert (q + 1) * y == q * y + y;
    assert (-q - 1) * y == -(q * y) - y;
  }

  // There is only one such quotient and remainder.
  lemma {:induction false} EuclideanUnique(x: int, y: int, q: int, r: nat)
    requires y != 0 && x == q * y + r && r < Magnitude(y)
    ensures EDivSigned(x, y) == (q, r)
  {
    var (q', r') := EDivSigned(x, y);
    EDivEuclidean(x, y);
    assert (q - q') * y == q * y - q' * y == r' - r;
    SmallMultiple(q - q', y);
  }

  lemma {:induction false} SmallMultiple(d: int, y: int)
    requires Magnitude(d * y) < Magnitude(y)
    ensures d == 0
  {
    MagnitudeGrows(d, y);
  }

  lemma {:induction false} MagnitudeGrows(d: int, y: int)
    ensures d != 0 ==> Magnitude(d * y) >= Magnitude(y)
  {
  }
}
