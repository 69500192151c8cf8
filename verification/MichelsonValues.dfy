/** What the instructions on numbers, booleans, tickets and the stack leave behind, value by value: laws
    between instructions and exact characterisations, for all values and over every deeper stack. */
module MichelsonValues {
  import opened Michelson
  import opened MichelsonOps
  import opened MichelsonLaws

  // The instruction takes s to t, gas aside.
  ghost predicate Gives(op: Op, ctx: Ctx, s: Stack, t: Stack) {
    var e := OpEffect(op, ctx, s);
    e.Charge? && e.after == Next(t)
  }

  // The instruction raises the error, gas aside.
  ghost predicate Raises(op: Op, ctx: Ctx, s: Stack, e: Error) {
    var f := OpEffect(op, ctx, s);
    f.Charge? && f.after == Raise(e)
  }

  lemma {:induction false} Rest(vs: seq<Value>, s: Stack)
    ensures (vs + s)[|vs|..] == s && (vs + s)[..|vs|] == vs
  {
  }

  lemma {:induction false} SameTop(v: Value, w: Value, s: Stack)
    ensures [v] + s == [w] + s <==> v == w
  {
    assert ([v] + s)[0] == v && ([w] + s)[0] == w;
  }

  // ---------------------------------------------------------------- integers

  // ADD and SUB undo each other: SUB leaves the one number that ADD takes back to the first operand.
  lemma {:induction false} SubExactly(ctx: Ctx, x: int, y: int, d: int, s: Stack)
    ensures Gives(Number(SubInt), ctx, [VInt(x), VInt(y)] + s, [VInt(d)] + s) <==> d + y == x
    ensures Gives(Number(SubInt), ctx, [VInt(x), VInt(y)] + s, [VInt(d)] + s)
       <==> Gives(Number(AddInt), ctx, [VInt(d), VInt(y)] + s, [VInt(x)] + s)
  {
    Rest([VInt(x), VInt(y)], s);
    Rest([VInt(d), VInt(y)], s);
    SameTop(VInt(x - y), VInt(d), s);
    SameTop(VInt(d + y), VInt(x), s);
  }

  lemma {:induction false} AddNatExactly(ctx: Ctx, x: nat, y: nat, z: nat, s: Stack)
    ensures Gives(Number(AddNat), ctx, [VNat(x), VNat(y)] + s, [VNat(z)] + s) <==> z - y == x
  {
    Rest([VNat(x), VNat(y)], s);
    SameTop(VNat(x + y), VNat(z), s);
  }

  lemma {:induction false} NegTwice(ctx: Ctx, x: int, s: Stack)
    ensures Leads(Number(NegInt), Number(NegInt), ctx, [VInt(x)] + s, [VInt(x)] + s)
    ensures forall y :: Gives(Number(NegInt), ctx, [VInt(x)] + s, [VInt(y)] + s) <==> x + y == 0
  {
    Rest([VInt(x)], s);
    Rest([VInt(-x)], s);
    forall y ensures [VInt(-x)] + s == [VInt(y)] + s <==> x + y == 0 { SameTop(VInt(-x), VInt(y), s); }
  }

  lemma {:induction false} AbsExactly(ctx: Ctx, x: int, n: nat, s: Stack)
    ensures Gives(Number(Abs), ctx, [VInt(x)] + s, [VNat(n)] + s) <==> (n == x || n == -x)
  {
    Rest([VInt(x)], s);
    SameTop(VNat(Magnitude(x)), VNat(n), s);
  }

  // ISNAT finds n exactly when INT takes n back, and NONE exactly when no natural number is taken back.
  lemma {:induction false} IsNatExactly(ctx: Ctx, x: int, n: nat, s: Stack)
    ensures Gives(Number(IsNat), ctx, [VInt(x)] + s, [VSome(VNat(n))] + s)
       <==> Gives(Number(IntOfNat), ctx, [VNat(n)] + s, [VInt(x)] + s)
    ensures Gives(Number(IsNat), ctx, [VInt(x)] + s, [VSome(VNat(n))] + s) <==> n == x
    ensures Gives(Number(IsNat), ctx, [VInt(x)] + s, [VNone] + s) <==> x < 0
  {
    Rest([VInt(x)], s);
    Rest([VNat(n)], s);
    SameTop(VInt(n), VInt(x), s);
    var v := if x < 0 then VNone else VSome(VNat(x));
    SameTop(v, VSome(VNat(n)), s);
    SameTop(v, VNone, s);
  }

  // ---------------------------------------------------------------- tests and booleans

  ghost predicate Passes(test: Comparison, ctx: Ctx, x: int, s: Stack) {
    Gives(Test(test), ctx, [VInt(x)] + s, [VBool(true)] + s)
  }

  // A test answers true or false and nothing else.
  lemma {:induction false} TestAnswers(test: Comparison, ctx: Ctx, x: int, s: Stack)
    ensures !Passes(test, ctx, x, s) <==> Gives(Test(test), ctx, [VInt(x)] + s, [VBool(false)] + s)
    ensures Passes(test, ctx, x, s) <==> Holds(test, x)
  {
    Rest([VInt(x)], s);
    SameTop(VBool(Holds(test, x)), VBool(true), s);
    SameTop(VBool(Holds(test, x)), VBool(false), s);
  }

  /** Exactly one of LT, EQ and GT holds; the other three are their negations; EQ holds of zero alone, and GE
      exactly of the integers ISNAT accepts. */
  lemma {:induction false} Trichotomy(ctx: Ctx, x: int, s: Stack)
    ensures Passes(Eq, ctx, x, s) <==> x == 0
    ensures Passes(Ge, ctx, x, s) <==> exists n: nat :: Gives(Number(IsNat), ctx, [VInt(x)] + s, [VSome(VNat(n))] + s)
    ensures Passes(Lt, ctx, x, s) <==> !Passes(Ge, ctx, x, s)
    ensures Passes(Gt, ctx, x, s) <==> !Passes(Le, ctx, x, s)
    ensures Passes(Neq, ctx, x, s) <==> !Passes(Eq, ctx, x, s)
    ensures Passes(Gt, ctx, x, s) <==> Passes(Lt, ctx, -x, s)
    ensures Passes(Ge, ctx, x, s) <==> Passes(Gt, ctx, x, s) || Passes(Eq, ctx, x, s)
    ensures !(Passes(Lt, ctx, x, s) && Passes(Gt, ctx, x, s))
  {
    TestAnswers(Eq, ctx, x, s);
    TestAnswers(Neq, ctx, x, s);
    TestAnswers(Ge, ctx, x, s);
    TestAnswers(Gt, ctx, x, s);
    TestAnswers(Le, ctx, x, s);
    TestAnswers(Lt, ctx, x, s);
    TestAnswers(Lt, ctx, -x, s);
    if x >= 0 { IsNatExactly(ctx, x, x, s); }
    forall n: nat | Gives(Number(IsNat), ctx, [VInt(x)] + s, [VSome(VNat(n))] + s) ensures x >= 0 {
      IsNatExactly(ctx, x, n, s);
    }
  }

  lemma {:induction false} NotTwice(ctx: Ctx, b: bool, s: Stack)
    ensures Leads(Number(NotBool), Number(NotBool), ctx, [VBool(b)] + s, [VBool(b)] + s)
    ensures !Gives(Number(NotBool), ctx, [VBool(b)] + s, [VBool(b)] + s)
  {
    Rest([VBool(b)], s);
    Rest([VBool(!b)], s);
    SameTop(VBool(b), VBool(!b), s);
  }

  lemma {:induction false} AndExactly(ctx: Ctx, a: bool, b: bool, s: Stack)
    ensures Gives(Number(AndBool), ctx, [VBool(a), VBool(b)] + s, [VBool(true)] + s) <==> a && b
    ensures Gives(Number(AndBool), ctx, [VBool(a), VBool(b)] + s, [VBool(false)] + s) <==> !a || !b
  {
    Rest([VBool(a), VBool(b)], s);
    SameTop(VBool(b && a), VBool(true), s);
    SameTop(VBool(b && a), VBool(false), s);
  }

  // ---------------------------------------------------------------- mumav

  ghost predicate InRange(x: int) { 0 <= x <= I64_MAX }

  // ADD leaves the sum where it is an amount, and overflows exactly where it is not.
  lemma {:induction false} AddMumavExactly(ctx: Ctx, x: int, y: int, z: int, s: Stack)
    requires InRange(x) && InRange(y)
    ensures Gives(Number(AddMumav), ctx, [VMumav(x), VMumav(y)] + s, [VMumav(z)] + s) <==> InRange(z) && z - y == x
    ensures Raises(Number(AddMumav), ctx, [VMumav(x), VMumav(y)] + s, MumavOverflow) <==> x > I64_MAX - y
  {
    Rest([VMumav(x), VMumav(y)], s);
    SameTop(VMumav(x + y), VMumav(z), s);
  }

  // SUB_MUMAV leaves the amount that ADD takes back to the first operand, and NONE where there is none.
  lemma {:induction false} SubMumavExactly(ctx: Ctx, x: int, y: int, d: int, s: Stack)
    ensures Gives(Number(SubMumav), ctx, [VMumav(x), VMumav(y)] + s, [VSome(VMumav(d))] + s) <==> d >= 0 && d + y == x
    ensures Gives(Number(SubMumav), ctx, [VMumav(x), VMumav(y)] + s, [VNone] + s) <==> x < y
  {
    Rest([VMumav(x), VMumav(y)], s);
    var v := if x >= y then VSome(VMumav(x - y)) else VNone;
    SameTop(v, VSome(VMumav(d)), s);
    SameTop(v, VNone, s);
  }

  // A product of amounts that is not negative, and its place in the bounds.
  lemma {:induction false} Bounded(p: int, z: int, s: Stack)
    requires p >= 0
    ensures MumavResult(p, s) == Next([VMumav(z)] + s) <==> InRange(z) && z == p
    ensures MumavResult(p, s) == Raise(MumavOverflow) <==> p > I64_MAX
  {
    SameTop(VMumav(p), VMumav(z), s);
  }

  lemma {:induction false} ProductNatural(m: int, n: nat)
    requires m >= 0
    ensures 0 <= m * n == n * m
  {
  }

  /** MUL of an amount and a number leaves the product where it is an amount.  It overflows where it is not,
      and also for a number beyond 64 bits, even if the amount is zero. */
  lemma {:induction false} MulMumavNatExactly(ctx: Ctx, m: int, n: nat, z: int, s: Stack)
    requires InRange(m)
    ensures Gives(Number(MulMumavNat), ctx, [VMumav(m), VNat(n)] + s, [VMumav(z)] + s)
       <==> n <= I64_MAX && InRange(z) && z == m * n
    ensures Raises(Number(MulMumavNat), ctx, [VMumav(m), VNat(n)] + s, MumavOverflow)
       <==> n > I64_MAX || m * n > I64_MAX
  {
    Rest([VMumav(m), VNat(n)], s);
    ProductNatural(m, n);
    Bounded(m * n, z, s);
    hide MumavResult;
  }

  // The other order does the same.
  lemma {:induction false} MulNatMumavExactly(ctx: Ctx, m: int, n: nat, z: int, s: Stack)
    requires InRange(m)
    ensures Gives(Number(MulNatMumav), ctx, [VNat(n), VMumav(m)] + s, [VMumav(z)] + s)
       <==> Gives(Number(MulMumavNat), ctx, [VMumav(m), VNat(n)] + s, [VMumav(z)] + s)
    ensures Raises(Number(MulNatMumav), ctx, [VNat(n), VMumav(m)] + s, MumavOverflow)
       <==> Raises(Number(MulMumavNat), ctx, [VMumav(m), VNat(n)] + s, MumavOverflow)
  {
    hide MumavResult;
    Rest([VMumav(m), VNat(n)], s);
    Rest([VNat(n), VMumav(m)], s);
    ProductNatural(m, n);
  }

  // ---------------------------------------------------------------- EDIV

  lemma {:induction false} NatDivisionUnique(x: nat, y: nat, q: nat, r: nat)
    requires y > 0
    ensures (q == Quotient(x, y) && r == Remainder(x, y)) <==> (x == q * y + r && r < y)
  {
    QuotientRemainder(x, y);
    if x == q * y + r && r < y {
      assert (q - Quotient(x, y)) * y == q * y - Quotient(x, y) * y;
      SmallMultiple(q - Quotient(x, y), y);
    }
  }

  ghost predicate Quotients(op: DivisionOp, ctx: Ctx, a: Value, b: Value, s: Stack, q: Value, r: Value) {
    Gives(Division(op), ctx, [a, b] + s, [VSome(VPair(q, r))] + s)
  }

  ghost predicate Undivided(op: DivisionOp, ctx: Ctx, a: Value, b: Value, s: Stack) {
    Gives(Division(op), ctx, [a, b] + s, [VNone] + s)
  }

  // EDIV of natural numbers: the one quotient and remainder, or NONE exactly for the divisor zero.
  lemma {:induction false} EDivNatExactly(ctx: Ctx, x: nat, y: nat, q: nat, r: nat, s: Stack)
    ensures Undivided(EDivNat, ctx, VNat(x), VNat(y), s) <==> y == 0
    ensures Quotients(EDivNat, ctx, VNat(x), VNat(y), s, VNat(q), VNat(r)) <==> x == q * y + r && r < y
  {
    hide ByteSize;
    Rest([VNat(x), VNat(y)], s);
    if y == 0 {
      SameTop(VNone, VSome(VPair(VNat(q), VNat(r))), s);
    } else {
      NatDivisionUnique(x, y, q, r);
      var v := VSome(VPair(VNat(Quotient(x, y)), VNat(Remainder(x, y))));
      SameTop(v, VNone, s);
      SameTop(v, VSome(VPair(VNat(q), VNat(r))), s);
    }
  }

  // EDIV of integers, all signs: the quotient that leaves a remainder from zero to below the magnitude of y.
  lemma {:induction false} EDivIntExactly(ctx: Ctx, x: int, y: int, q: int, r: nat, s: Stack)
    ensures Undivided(EDivInt, ctx, VInt(x), VInt(y), s) <==> y == 0
    ensures Quotients(EDivInt, ctx, VInt(x), VInt(y), s, VInt(q), VNat(r)) <==> x == q * y + r && (r < y || r < -y)
  {
    hide ByteSize, EDivSigned;
    Rest([VInt(x), VInt(y)], s);
    if y == 0 {
      SameTop(VNone, VSome(VPair(VInt(q), VNat(r))), s);
    } else {
      EDivEuclidean(x, y);
      var v := VSome(VPair(VInt(EDivSigned(x, y).0), VNat(EDivSigned(x, y).1)));
      SameTop(v, VNone, s);
      SameTop(v, VSome(VPair(VInt(q), VNat(r))), s);
      if x == q * y + r && (r < y || r < -y) { EuclideanUnique(x, y, q, r); }
    }
  }

  lemma {:induction false} TruncIsEuclidean(x: nat, y: nat)
    requires y > 0
    ensures TruncDiv(x, y) == Quotient(x, y) && TruncRem(x, y) == Remainder(x, y)
  {
    QuotientRemainder(x, y);
  }

  // EDIV of an amount by a natural number of any size.
  lemma {:induction false} EDivMumavNatExactly(ctx: Ctx, x: int, y: nat, q: int, r: int, s: Stack)
    requires InRange(x)
    ensures Undivided(EDivMumavNat, ctx, VMumav(x), VNat(y), s) <==> y == 0
    ensures Quotients(EDivMumavNat, ctx, VMumav(x), VNat(y), s, VMumav(q), VMumav(r))
       <==> q >= 0 && x == q * y + r && 0 <= r < y
  {
    Rest([VMumav(x), VNat(y)], s);
    if y == 0 {
      SameTop(VNone, VSome(VPair(VMumav(q), VMumav(r))), s);
    } else {
      TruncIsEuclidean(x, y);
      if y > I64_MAX { NatDivisionUnique(x, y, 0, x); }
      hide TruncDiv, TruncRem;
      var v := VSome(VPair(VMumav(Quotient(x, y)), VMumav(Remainder(x, y))));
      SameTop(v, VNone, s);
      SameTop(v, VSome(VPair(VMumav(q), VMumav(r))), s);
      if q >= 0 && r >= 0 { NatDivisionUnique(x, y, q, r); }
    }
  }

  // EDIV of an amount by an amount: it never meets a negative quotient.
  lemma {:induction false} EDivMumavExactly(ctx: Ctx, x: int, y: int, q: nat, r: int, s: Stack)
    requires InRange(x) && InRange(y)
    ensures Undivided(EDivMumavMumav, ctx, VMumav(x), VMumav(y), s) <==> y == 0
    ensures Quotients(EDivMumavMumav, ctx, VMumav(x), VMumav(y), s, VNat(q), VMumav(r)) <==> x == q * y + r && 0 <= r < y
  {
    Rest([VMumav(x), VMumav(y)], s);
    if y == 0 {
      SameTop(VNone, VSome(VPair(VNat(q), VMumav(r))), s);
    } else {
      TruncIsEuclidean(x, y);
      hide TruncDiv, TruncRem;
      var v := VSome(VPair(VNat(Quotient(x, y)), VMumav(Remainder(x, y))));
      SameTop(v, VNone, s);
      SameTop(v, VSome(VPair(VNat(q), VMumav(r))), s);
      if r >= 0 { NatDivisionUnique(x, y, q, r); }
    }
  }

  // ---------------------------------------------------------------- tickets

  // What READ_TICKET tells about a ticket, which stays below.
  ghost predicate Reads(ctx: Ctx, t: Value, s: Stack, ticketer: Address, content: Value, amount: nat) {
    Gives(Tickets(ReadTicket), ctx, [t] + s, [VPair(VAddress(ticketer), VPair(content, VNat(amount))), t] + s)
  }

  // READ_TICKET tells what TICKET was given: the running contract, the content and the amount.
  lemma {:induction false} TicketThenRead(ctx: Ctx, content: Value, n: nat, s: Stack) returns (t: Value)
    requires n > 0
    ensures Gives(Tickets(Ticket), ctx, [content, VNat(n)] + s, [VSome(t)] + s)
    ensures forall k, c, m :: Reads(ctx, t, s, k, c, m) <==> k == ctx.self && c == content && m == n
  {
    Rest([content, VNat(n)], s);
    t := VTicket(ctx.self, content, n);
    forall k, c, m ensures Reads(ctx, t, s, k, c, m) <==> k == ctx.self && c == content && m == n {
      ReadExactly(ctx, ctx.self, content, n, s, k, c, m);
    }
  }

  lemma {:induction false} ReadExactly(
    ctx: Ctx, ticketer: Address, content: Value, n: nat, s: Stack, k: Address, c: Value, m: nat)
    ensures Reads(ctx, VTicket(ticketer, content, n), s, k, c, m) <==> k == ticketer && c == content && m == n
  {
    var t := VTicket(ticketer, content, n);
    var v, w := VPair(VAddress(ticketer), VPair(content, VNat(n))), VPair(VAddress(k), VPair(c, VNat(m)));
    assert [v] + ([t] + s) == [v, t] + s;
    assert ([v, t] + s)[0] == v && ([w, t] + s)[0] == w;
  }

  // TICKET of amount zero, and only that, gives no ticket.
  lemma {:induction false} NoTicketExactly(ctx: Ctx, content: Value, n: nat, s: Stack)
    ensures Gives(Tickets(Ticket), ctx, [content, VNat(n)] + s, [VNone] + s) <==> n == 0
  {
    Rest([content, VNat(n)], s);
    SameTop(VSome(VTicket(ctx.self, content, n)), VNone, s);
  }

  /** SPLIT_TICKET gives a left part with the left amount and a right part with the right one, both of the
      same asset, exactly where the amounts are positive and add up; otherwise it gives NONE. */
  lemma {:induction false} SplitExactly(
    ctx: Ctx, k: Address, c: Value, n: nat, a: nat, b: nat, l: Value, r: Value, s: Stack)
    ensures Gives(Tickets(SplitTicket), ctx, [VTicket(k, c, n), VPair(VNat(a), VNat(b))] + s, [VSome(VPair(l, r))] + s)
       <==> n - a == b && a != 0 && b != 0 && l == VTicket(k, c, a) && r == VTicket(k, c, b)
    ensures Gives(Tickets(SplitTicket), ctx, [VTicket(k, c, n), VPair(VNat(a), VNat(b))] + s, [VNone] + s)
       <==> n - a != b || a == 0 || b == 0
  {
    Rest([VTicket(k, c, n), VPair(VNat(a), VNat(b))], s);
    var v := VSome(VPair(VTicket(k, c, a), VTicket(k, c, b)));
    SameTop(v, VSome(VPair(l, r)), s);
    SameTop(v, VNone, s);
    SameTop(VNone, VSome(VPair(l, r)), s);
  }

  // JOIN_TICKETS puts together what SPLIT_TICKET took apart, wherever the content can be compared.
  lemma {:induction false} JoinUndoesSplit(
    ctx: Ctx, k: Address, c: Value, n: nat, a: nat, b: nat, l: Value, r: Value, s: Stack)
    requires Gives(Tickets(SplitTicket), ctx, [VTicket(k, c, n), VPair(VNat(a), VNat(b))] + s, [VSome(VPair(l, r))] + s)
    requires CostCompare(c, c).Some?
    ensures Gives(Tickets(JoinTickets), ctx, [VPair(l, r)] + s, [VSome(VTicket(k, c, n))] + s)
  {
    hide CostCompare, CostAddNum;
    SplitExactly(ctx, k, c, n, a, b, l, r, s);
    Rest([VPair(l, r)], s);
  }

  // ---------------------------------------------------------------- the stack

  // DIG n brings element n to the top; the elements above it move down by one, those below stay.
  lemma {:induction false} DigExactly(ctx: Ctx, n: nat, s: Stack, t: Stack)
    requires n < |s|
    ensures Gives(Stack(Dig(n)), ctx, s, t)
       <==> |t| == |s| && t[0] == s[n] && (forall k :: 0 <= k < n ==> t[k + 1] == s[k])
            && forall k :: n < k < |s| ==> t[k] == s[k]
  {
    var u := [s[n]] + s[..n] + s[n + 1..];
    assert n == 0 ==> u == s;
    assert Gives(Stack(Dig(n)), ctx, s, t) <==> t == u;
    assert |u| == |s| && u[0] == s[n];
    assert forall k :: 0 <= k < n ==> u[k + 1] == s[k];
    assert forall k :: n < k < |s| ==> u[k] == s[k];
    if |t| == |s| && t[0] == s[n] && (forall k :: 0 <= k < n ==> t[k + 1] == s[k])
       && forall k :: n < k < |s| ==> t[k] == s[k] {
      forall k | 0 <= k < |s| ensures t[k] == u[k] {
        if 0 < k <= n { assert t[k - 1 + 1] == s[k - 1] == u[k - 1 + 1]; }
      }
      assert t == u;
    }
  }

  // SWAP is DIG 1, and DUG 1, on every stack.
  lemma {:induction false} SwapIsDig(ctx: Ctx, s: Stack)
    ensures OpEffect(Stack(Swap), ctx, s).after == OpEffect(Stack(Dig(1)), ctx, s).after
    ensures OpEffect(Stack(Swap), ctx, s).after == OpEffect(Stack(Dug(1)), ctx, s).after
  {
    if |s| >= 2 {
      assert [s[1], s[0]] + s[2..] == [s[1]] + s[..1] + s[2..];
      assert [s[1], s[0]] + s[2..] == s[1..2] + [s[0]] + s[2..];
    }
  }

  // DROP n takes off the n elements on top.
  lemma {:induction false} DropExactly(ctx: Ctx, h: Option<nat>, s: Stack, t: Stack)
    ensures Gives(Stack(Drop(h)), ctx, s, t) <==> exists vs: Stack :: |vs| == HeightOr1(h) && vs + t == s
  {
    var n := HeightOr1(h);
    if n <= |s| { assert s[..n] + s[n..] == s; }
    forall vs: Stack | |vs| == n && vs + t == s ensures s[n..] == t { Rest(vs, t); }
  }

  // DUP n puts what DIG would find on top of the whole stack.
  lemma {:induction false} DupExactly(ctx: Ctx, h: Option<nat>, s: Stack, x: Value, u: Stack)
    requires HeightOr1(h) > 0
    ensures Gives(Stack(Dup(h)), ctx, s, [x] + s)
       <==> exists below :: Gives(Stack(Dig(HeightOr1(h) - 1)), ctx, s, [x] + below)
    ensures Gives(Stack(Dup(h)), ctx, s, u) ==> |u| > 0 && u[1..] == s
  {
    var n := HeightOr1(h);
    if n <= |s| {
      SameTop(s[n - 1], x, s);
      var d := if n == 1 then s else [s[n - 1]] + s[..n - 1] + s[n..];
      assert Gives(Stack(Dig(n - 1)), ctx, s, d) && d == [s[n - 1]] + d[1..];
    }
  }

  // The other instructions that push a value are PUSH of that value.
  lemma {:induction false} PushesValue(ctx: Ctx, ty: Type, v: Value, s: Stack)
    ensures Leads(Stack(Push(ty, v)), Stack(Drop(None)), ctx, s, s)
    ensures forall w :: Gives(Stack(Push(ty, v)), ctx, s, [w] + s) <==> w == v
    ensures OpEffect(Stack(Unit), ctx, s) == OpEffect(Stack(Push(TUnit, VUnit)), ctx, s)
    ensures OpEffect(Stack(Amount), ctx, s) == OpEffect(Stack(Push(TMumav, VMumav(ctx.amount))), ctx, s)
    ensures OpEffect(Stack(Balance), ctx, s) == OpEffect(Stack(Push(TMumav, VMumav(ctx.balance))), ctx, s)
  {
    Rest([v], s);
    forall w ensures [v] + s == [w] + s <==> w == v { SameTop(v, w, s); }
  }

  // FAILWITH ends the run with the value on top.
  lemma {:induction false} FailwithRaises(ctx: Ctx, ty: Type, v: Value, s: Stack, e: Error)
    ensures Raises(Stack(Failwith(ty)), ctx, [v] + s, e) <==> e == FailedWith(ty, v)
  {
  }

  // ---------------------------------------------------------------- pairs

  // The plain forms are the numbered ones for two.
  lemma {:induction false} PlainForms(ctx: Ctx, s: Stack)
    ensures OpEffect(Combs(Pair), ctx, s).after == OpEffect(Combs(PairN(2)), ctx, s).after
    ensures OpEffect(Combs(Unpair), ctx, s).after == OpEffect(Combs(UnpairN(2)), ctx, s).after
    ensures OpEffect(Combs(Car), ctx, s).after == OpEffect(Combs(GetN(1)), ctx, s).after
    ensures OpEffect(Combs(Cdr), ctx, s).after == OpEffect(Combs(GetN(2)), ctx, s).after
  {
    if |s| >= 2 { assert s[..2][1..] == [s[1]] && Comb(s[..2]) == VPair(s[0], s[1]); }
    if |s| > 0 && s[0].VPair? {
      assert Uncomb(1, s[0].r) == Some([s[0].r]) && [s[0].l] + [s[0].r] == [s[0].l, s[0].r];
      assert Field(2, s[0]) == Field(0, s[0].r) == Some(s[0].r);
    }
  }

  // PAIR builds a right comb: one element more is paired with the comb of the rest.
  lemma {:induction false} PairGrows(ctx: Ctx, n: nat, x: Value, s: Stack, c: Value, t: Stack)
    requires 0 < n && Gives(Combs(PairN(n)), ctx, s, [c] + t)
    ensures Gives(Combs(PairN(n + 1)), ctx, [x] + s, [VPair(x, c)] + t)
  {
    assert n <= |s| && [c] + t == [Comb(s[..n])] + s[n..];
    var u := [x] + s;
    assert u[..n + 1] == [x] + s[..n] && u[n + 1..] == s[n..];
    Rest([x], s[..n]);
    assert ([c] + t)[0] == Comb(s[..n]) && ([c] + t)[1..] == s[n..];
  }

  // In a comb of n values GET finds them at the odd numbers, and the last of them at 2n - 2.
  lemma {:induction false} GetOfComb(vs: seq<Value>, k: nat)
    requires k < |vs|
    ensures Field(if k == |vs| - 1 then 2 * k else 2 * k + 1, Comb(vs)) == Some(vs[k])
    decreases k
  {
    if k > 0 { GetOfComb(vs[1..], k - 1); }
  }
}
