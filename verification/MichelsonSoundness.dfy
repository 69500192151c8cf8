/** Well-typed code does not go wrong: whatever the gas, a run of code the typechecker accepts never
    reaches an unreachable state, a failed match or the conversion of a negative quotient, and what
    it leaves on the stack has the predicted types, with every mumav amount non-negative. */
module MichelsonSoundness {
  import opened Michelson
  import opened MichelsonOps
  import opened MichelsonRun
  import opened MichelsonTyping

  ghost predicate CtxTyped(ctx: Ctx) { 0 <= ctx.amount <= I64_MAX && 0 <= ctx.balance <= I64_MAX }

  // The effect fits the judgement: no panic, and any stack it leaves has the predicted types.
  // Comparing the contents of two tickets can still panic if they need not be comparable.
  ghost predicate EffectFits(strict: bool, e: Effect, tc: Tc) {
    match e
    case Stuck => false
    case Incomparable => !strict
    case Charge(_, Next(t)) => tc.Ok? && HasTypes(strict, t, tc.st)
    case Charge(_, Raise(_)) => true
    case Charge(_, Crash) => false
  }

  ghost predicate OutcomeFits(strict: bool, r: Outcome, tc: Tc) {
    match r
    case Done(_, s) => tc.Ok? && HasTypes(strict, s, tc.st)
    case Fails(_, _) => true
    case OutOfGas => true
    case Panic(incomparable) => incomparable && !strict
  }

  // ---------------------------------------------------------------- values

  lemma {:induction false} Pushed(strict: bool, v: Value, t: Type, s: Stack, st: Types)
    requires HasType(strict, v, t) && HasTypes(strict, s, st)
    ensures HasTypes(strict, [v] + s, [t] + st)
  {
    assert ([v] + s)[1..] == s && ([t] + st)[1..] == st;
  }

  lemma {:induction false} PushedTwo(strict: bool, v: Value, t: Type, w: Value, u: Type, s: Stack, st: Types)
    requires HasType(strict, v, t) && HasType(strict, w, u) && HasTypes(strict, s, st)
    ensures HasTypes(strict, [v, w] + s, [t, u] + st)
  {
    Pushed(strict, w, u, s, st);
    Pushed(strict, v, t, [w] + s, [u] + st);
    assert [v] + ([w] + s) == [v, w] + s && [t] + ([u] + st) == [t, u] + st;
  }

  lemma {:induction false} TypeAt(strict: bool, s: Stack, st: Types, k: nat)
    requires HasTypes(strict, s, st) && k < |s|
    ensures HasType(strict, s[k], st[k])
  {
    if k > 0 { TypeAt(strict, s[1..], st[1..], k - 1); }
  }

  lemma {:induction false} Dropped(strict: bool, s: Stack, st: Types, n: nat)
    requires HasTypes(strict, s, st) && n <= |s|
    ensures HasTypes(strict, s[n..], st[n..])
  {
    if n > 0 {
      Dropped(strict, s[1..], st[1..], n - 1);
      assert s[1..][n - 1..] == s[n..] && st[1..][n - 1..] == st[n..];
    }
  }

  lemma {:induction false} Taken(strict: bool, s: Stack, st: Types, n: nat)
    requires HasTypes(strict, s, st) && n <= |s|
    ensures HasTypes(strict, s[..n], st[..n])
  {
    if n > 0 {
      Taken(strict, s[1..], st[1..], n - 1);
      assert s[..n][1..] == s[1..][..n - 1] && st[..n][1..] == st[1..][..n - 1];
    }
  }

  lemma {:induction false} Appended(strict: bool, s: Stack, st: Types, s': Stack, st': Types)
    requires HasTypes(strict, s, st) && HasTypes(strict, s', st')
    ensures HasTypes(strict, s + s', st + st')
  {
    if s == [] {
      assert s + s' == s' && st + st' == st';
    } else {
      Appended(strict, s[1..], st[1..], s', st');
      assert (s + s')[1..] == s[1..] + s' && (st + st')[1..] == st[1..] + st';
    }
  }

  lemma {:induction false} CombTyped(strict: bool, vs: Stack, ts: Types)
    requires |vs| > 0 && HasTypes(strict, vs, ts)
    ensures HasType(strict, Comb(vs), CombType(ts))
  {
    if |vs| > 1 { CombTyped(strict, vs[1..], ts[1..]); }
  }

  lemma {:induction false} UncombTyped(strict: bool, n: nat, v: Value, t: Type)
    requires n > 0 && HasType(strict, v, t) && UncombType(n, t).Some?
    ensures Uncomb(n, v).Some? && HasTypes(strict, Uncomb(n, v).value, UncombType(n, t).value)
    decreases n
  {
    if n > 1 { UncombTyped(strict, n - 1, v.r, t.r); }
  }

  lemma {:induction false} FieldTyped(strict: bool, m: nat, v: Value, t: Type)
    requires HasType(strict, v, t) && FieldType(m, t).Some?
    ensures Field(m, v).Some? && HasType(strict, Field(m, v).value, FieldType(m, t).value)
    decreases m
  {
    if m > 1 { FieldTyped(strict, m - 2, v.r, t.r); }
  }

  lemma {:induction false} WithFieldTyped(strict: bool, m: nat, v: Value, t: Type, x: Value, u: Type)
    requires HasType(strict, v, t) && HasType(strict, x, u) && WithFieldType(m, t, u).Some?
    ensures WithField(m, v, x).Some? && HasType(strict, WithField(m, v, x).value, WithFieldType(m, t, u).value)
    decreases m
  {
    if m > 1 { WithFieldTyped(strict, m - 2, v.r, t.r, x, u); }
  }

  lemma {:induction false} ComparablePairs(a: Value, b: Value)
    requires a.VPair? && b.VPair? && CostCompare(a.l, b.l).Some? && CostCompare(a.r, b.r).Some?
    ensures CostCompare(a, b).Some?
  {
    hide ByteSize, CostCompareBytes;
  }

  lemma {:induction false} ComparableValues(strict: bool, a: Value, b: Value, t: Type)
    requires HasType(strict, a, t) && HasType(strict, b, t) && Comparable(t)
    ensures CostCompare(a, b).Some?
    decreases a
  {
    hide LambdaTyped, ByteSize, CostCompareBytes;
    match a
    case VPair(l, r) =>
      ComparableValues(strict, l, b.l, t.l);
      ComparableValues(strict, r, b.r, t.r);
      ComparablePairs(a, b);
    case VSome(x) => if b.VSome? { ComparableValues(strict, x, b.v, t.t); }
    case VLeft(x) => if b.VLeft? { ComparableValues(strict, x, b.v, t.l); }
    case VRight(x) => if b.VRight? { ComparableValues(strict, x, b.v, t.r); }
    case _ =>
  }

  // ---------------------------------------------------------------- straight-line instructions

  lemma {:induction false} MoveOpSound(strict: bool, op: StackOp, ctx: Ctx, s: Stack, st: Types)
    requires op.Drop? || op.Dup? || op.Dig? || op.Dug? || op.Swap?
    requires HasTypes(strict, s, st) && !CheckStackOp(strict, op, st).TcError?
    ensures EffectFits(strict, StackEffect(op, ctx, s), CheckStackOp(strict, op, st))
  {
    match op
    case Drop(h) => Dropped(strict, s, st, HeightOr1(h));
    case Dup(h) =>
      TypeAt(strict, s, st, HeightOr1(h) - 1);
      Pushed(strict, s[HeightOr1(h) - 1], st[HeightOr1(h) - 1], s, st);
    case Dig(n) => if n > 0 { Dug1(strict, s, st, n); }
    case Dug(n) => if n > 0 { Dug2(strict, s, st, n); }
    case Swap =>
      TypeAt(strict, s, st, 1);
      Dropped(strict, s, st, 2);
      PushedTwo(strict, s[1], st[1], s[0], st[0], s[2..], st[2..]);
  }

  lemma {:induction false} StackOpSound(strict: bool, op: StackOp, ctx: Ctx, s: Stack, st: Types)
    requires CtxTyped(ctx) && HasTypes(strict, s, st) && !CheckStackOp(strict, op, st).TcError?
    ensures EffectFits(strict, StackEffect(op, ctx, s), CheckStackOp(strict, op, st))
  {
    match op
    case Push(t, v) => Pushed(strict, v, t, s, st);
    case Unit => Pushed(strict, VUnit, TUnit, s, st);
    case Amount => Pushed(strict, VMumav(ctx.amount), TMumav, s, st);
    case Balance => Pushed(strict, VMumav(ctx.balance), TMumav, s, st);
    case Failwith(_) =>
    case Never =>
    case _ => MoveOpSound(strict, op, ctx, s, st);
  }

  lemma {:induction false} Dug1(strict: bool, s: Stack, st: Types, n: nat)
    requires HasTypes(strict, s, st) && n < |s|
    ensures HasTypes(strict, [s[n]] + s[..n] + s[n + 1..], [st[n]] + st[..n] + st[n + 1..])
  {
    TypeAt(strict, s, st, n);
    Taken(strict, s, st, n);
    Dropped(strict, s, st, n + 1);
    Pushed(strict, s[n], st[n], s[..n], st[..n]);
    Appended(strict, [s[n]] + s[..n], [st[n]] + st[..n], s[n + 1..], st[n + 1..]);
  }

  lemma {:induction false} Dug2(strict: bool, s: Stack, st: Types, n: nat)
    requires HasTypes(strict, s, st) && 0 < n < |s|
    ensures HasTypes(strict, s[1..n + 1] + [s[0]] + s[n + 1..], st[1..n + 1] + [st[0]] + st[n + 1..])
  {
    Taken(strict, s[1..], st[1..], n);
    assert s[1..][..n] == s[1..n + 1] && st[1..][..n] == st[1..n + 1];
    Dropped(strict, s, st, n + 1);
    Appended(strict, s[1..n + 1], st[1..n + 1], [s[0]], [st[0]]);
    Appended(strict, s[1..n + 1] + [s[0]], st[1..n + 1] + [st[0]], s[n + 1..], st[n + 1..]);
  }

  lemma {:induction false} CombNSound(strict: bool, op: CombOp, s: Stack, st: Types)
    requires op.PairN? || op.UnpairN? || op.GetN? || op.UpdateN?
    requires HasTypes(strict, s, st) && !CheckCombOp(op, st).TcError?
    ensures EffectFits(strict, CombEffect(op, s), CheckCombOp(op, st))
  {
    match op
    case PairN(n) =>
      Taken(strict, s, st, n);
      CombTyped(strict, s[..n], st[..n]);
      Replaced(strict, Comb(s[..n]), CombType(st[..n]), s, st, n);
    case UnpairN(n) =>
      UncombTyped(strict, n, s[0], st[0]);
      Appended(strict, Uncomb(n, s[0]).value, UncombType(n, st[0]).value, s[1..], st[1..]);
    case GetN(n) =>
      FieldTyped(strict, n, s[0], st[0]);
      Pushed(strict, Field(n, s[0]).value, FieldType(n, st[0]).value, s[1..], st[1..]);
    case UpdateN(n) =>
      TypeAt(strict, s, st, 1);
      WithFieldTyped(strict, n, s[1], st[1], s[0], st[0]);
      Replaced(strict, WithField(n, s[1], s[0]).value, WithFieldType(n, st[1], st[0]).value, s, st, 2);
  }

  lemma {:induction false} CombOpSound(strict: bool, op: CombOp, s: Stack, st: Types)
    requires HasTypes(strict, s, st) && !CheckCombOp(op, st).TcError?
    ensures EffectFits(strict, CombEffect(op, s), CheckCombOp(op, st))
  {
    match op
    case Pair =>
      TypeAt(strict, s, st, 1);
      Replaced(strict, VPair(s[0], s[1]), TPair(st[0], st[1]), s, st, 2);
    case Unpair => PushedTwo(strict, s[0].l, st[0].l, s[0].r, st[0].r, s[1..], st[1..]);
    case Car => Pushed(strict, s[0].l, st[0].l, s[1..], st[1..]);
    case Cdr => Pushed(strict, s[0].r, st[0].r, s[1..], st[1..]);
    case _ => CombNSound(strict, op, s, st);
  }

  lemma {:induction false} ConsSound(strict: bool, s: Stack, st: Types)
    requires HasTypes(strict, s, st) && !CheckDataOp(strict, Cons, st).TcError?
    ensures EffectFits(strict, DataEffect(Cons, s), CheckDataOp(strict, Cons, st))
  {
    TypeAt(strict, s, st, 1);
    Replaced(strict, VList([s[0]] + s[1].vs), st[1], s, st, 2);
    assert [st[1]] + st[2..] == st[1..];
  }

  lemma {:induction false} ApplySound(strict: bool, t: Type, s: Stack, st: Types)
    requires HasTypes(strict, s, st) && !CheckDataOp(strict, Apply(t), st).TcError?
    ensures EffectFits(strict, DataEffect(Apply(t), s), CheckDataOp(strict, Apply(t), st))
  {
    TypeAt(strict, s, st, 1);
    var c := Applied(t, s[0], s[1].closure);
    assert ClosureHasType(strict, c, st[1].a.r, st[1].b);
    Replaced(strict, VLambda(c), TLambda(st[1].a.r, st[1].b), s, st, 2);
  }

  lemma {:induction false} DataOpSound(strict: bool, op: DataOp, s: Stack, st: Types)
    requires HasTypes(strict, s, st) && !CheckDataOp(strict, op, st).TcError?
    ensures EffectFits(strict, DataEffect(op, s), CheckDataOp(strict, op, st))
  {
    match op
    case ISome => Pushed(strict, VSome(s[0]), TOption(st[0]), s[1..], st[1..]);
    case INone(t) => Pushed(strict, VNone, TOption(t), s, st);
    case Left(t) => Pushed(strict, VLeft(s[0]), TOr(st[0], t), s[1..], st[1..]);
    case Right(t) => Pushed(strict, VRight(s[0]), TOr(t, st[0]), s[1..], st[1..]);
    case Nil(t) => Pushed(strict, VList([]), TList(t), s, st);
    case Cons => ConsSound(strict, s, st);
    case ILambda(lam) => Pushed(strict, VLambda(Simple(lam)), TLambda(lam.a, lam.b), s, st);
    case Apply(t) => ApplySound(strict, t, s, st);
  }

  // The result of an instruction that replaces the top n values by one.
  lemma {:induction false} Replaced(strict: bool, v: Value, t: Type, s: Stack, st: Types, n: nat)
    requires HasTypes(strict, s, st) && n <= |s| && HasType(strict, v, t)
    ensures HasTypes(strict, [v] + s[n..], [t] + st[n..])
  {
    Dropped(strict, s, st, n);
    Pushed(strict, v, t, s[n..], st[n..]);
  }

  lemma {:induction false} MumavFits(strict: bool, x: int, s: Stack, st: Types)
    requires HasTypes(strict, s, st) && |s| > 1 && x >= 0
    ensures EffectFits(strict, Charge(0, MumavResult(x, s[2..])), Ok([TMumav] + st[2..]))
  {
    if x <= I64_MAX { Replaced(strict, VMumav(x), TMumav, s, st, 2); }
  }

  lemma {:induction false} MumavOpSound(strict: bool, op: NumberOp, s: Stack, st: Types)
    requires op.AddMumav? || op.SubMumav? || op.MulMumavNat? || op.MulNatMumav?
    requires HasTypes(strict, s, st) && !CheckNumberOp(op, st).TcError?
    ensures EffectFits(strict, NumberEffect(op, s), CheckNumberOp(op, st))
  {
    TypeAt(strict, s, st, 0);
    TypeAt(strict, s, st, 1);
    match op
    case AddMumav => MumavFits(strict, s[0].m + s[1].m, s, st);
    case SubMumav =>
      Replaced(strict, if s[0].m >= s[1].m then VSome(VMumav(s[0].m - s[1].m)) else VNone, TOption(TMumav), s, st, 2);
    case MulMumavNat => assert s[0].m * s[1].n >= 0; MumavFits(strict, s[0].m * s[1].n, s, st);
    case MulNatMumav => assert s[0].n * s[1].m >= 0; MumavFits(strict, s[0].n * s[1].m, s, st);
  }

  lemma {:induction false} UnaryOpSound(strict: bool, op: NumberOp, s: Stack, st: Types)
    requires op.NegInt? || op.Abs? || op.IsNat? || op.IntOfNat? || op.NotBool?
    requires HasTypes(strict, s, st) && !CheckNumberOp(op, st).TcError?
    ensures EffectFits(strict, NumberEffect(op, s), CheckNumberOp(op, st))
  {
    hide LambdaTyped, ByteSize;
    TypeAt(strict, s, st, 0);
    match op
    case NegInt => Replaced(strict, VInt(-s[0].i), TInt, s, st, 1);
    case Abs => Replaced(strict, VNat(Magnitude(s[0].i)), TNat, s, st, 1);
    case IsNat => Replaced(strict, if s[0].i < 0 then VNone else VSome(VNat(s[0].i)), TOption(TNat), s, st, 1);
    case IntOfNat => Replaced(strict, VInt(s[0].n), TInt, s, st, 1);
    case NotBool => Replaced(strict, VBool(!s[0].b), TBool, s, st, 1);
  }

  lemma {:induction false} NumberOpSound(strict: bool, op: NumberOp, s: Stack, st: Types)
    requires HasTypes(strict, s, st) && !CheckNumberOp(op, st).TcError?
    ensures EffectFits(strict, NumberEffect(op, s), CheckNumberOp(op, st))
  {
    if op.AddMumav? || op.SubMumav? || op.MulMumavNat? || op.MulNatMumav? {
      MumavOpSound(strict, op, s, st);
    } else if op.NegInt? || op.Abs? || op.IsNat? || op.IntOfNat? || op.NotBool? {
      UnaryOpSound(strict, op, s, st);
    } else {
      TypeAt(strict, s, st, 0);
      TypeAt(strict, s, st, 1);
      match op
      case AddInt => Replaced(strict, VInt(s[0].i + s[1].i), TInt, s, st, 2);
      case AddNat => Replaced(strict, VNat(s[0].n + s[1].n), TNat, s, st, 2);
      case SubInt => Replaced(strict, VInt(s[0].i - s[1].i), TInt, s, st, 2);
      case AndBool => Replaced(strict, VBool(s[1].b && s[0].b), TBool, s, st, 2);
    }
  }

  lemma {:induction false} TruncBounds(x: int, y: int)
    requires x >= 0 && y > 0
    ensures 0 <= TruncDiv(x, y) <= x && 0 <= TruncRem(x, y) <= x
  {
    var q := Quotient(x, y);
    assert y * q + Remainder(x, y) == x;
    Grows(y, q);
  }

  lemma {:induction false} Grows(y: int, q: int)
    requires y > 0 && q >= 0
    ensures 0 <= q <= y * q == q * y
  {
  }

  lemma {:induction false} PairFits(strict: bool, a: Value, t: Type, b: Value, u: Type, s: Stack, st: Types)
    requires HasTypes(strict, s, st) && |s| > 1 && HasType(strict, a, t) && HasType(strict, b, u)
    ensures HasTypes(strict, [VSome(VPair(a, b))] + s[2..], [TOption(TPair(t, u))] + st[2..])
  {
    assert HasType(strict, VPair(a, b), TPair(t, u));
    Replaced(strict, VSome(VPair(a, b)), TOption(TPair(t, u)), s, st, 2);
  }

  lemma {:induction false} MumavDivisionSound(strict: bool, op: DivisionOp, s: Stack, st: Types)
    requires op.EDivMumavNat? || op.EDivMumavMumav?
    requires HasTypes(strict, s, st) && !CheckDivisionOp(op, st).TcError?
    ensures EffectFits(strict, DivisionEffect(op, s), CheckDivisionOp(op, st))
  {
    TypeAt(strict, s, st, 0);
    TypeAt(strict, s, st, 1);
    var x, y := s[0].m, if op.EDivMumavNat? then s[1].n else s[1].m;
    if op.EDivMumavNat? {
      PairFits(strict, VMumav(0), TMumav, s[0], TMumav, s, st);
      Replaced(strict, VNone, TOption(TPair(TMumav, TMumav)), s, st, 2);
      if 0 < y <= I64_MAX {
        TruncBounds(x, y);
        PairFits(strict, VMumav(TruncDiv(x, y)), TMumav, VMumav(TruncRem(x, y)), TMumav, s, st);
      }
    } else {
      Replaced(strict, VNone, TOption(TPair(TNat, TMumav)), s, st, 2);
      if y > 0 {
        TruncBounds(x, y);
        PairFits(strict, VNat(TruncDiv(x, y)), TNat, VMumav(TruncRem(x, y)), TMumav, s, st);
      }
    }
  }

  lemma {:induction false} DivisionOpSound(strict: bool, op: DivisionOp, s: Stack, st: Types)
    requires HasTypes(strict, s, st) && !CheckDivisionOp(op, st).TcError?
    ensures EffectFits(strict, DivisionEffect(op, s), CheckDivisionOp(op, st))
  {
    match op
    case EDivNat =>
      TypeAt(strict, s, st, 0);
      TypeAt(strict, s, st, 1);
      Replaced(strict, VNone, TOption(TPair(TNat, TNat)), s, st, 2);
      if s[1].n > 0 {
        PairFits(strict, VNat(Quotient(s[0].n, s[1].n)), TNat, VNat(Remainder(s[0].n, s[1].n)), TNat, s, st);
      }
    case EDivInt =>
      TypeAt(strict, s, st, 0);
      TypeAt(strict, s, st, 1);
      Replaced(strict, VNone, TOption(TPair(TInt, TNat)), s, st, 2);
      if s[1].i != 0 {
        var (q, r) := EDivSigned(s[0].i, s[1].i);
        PairFits(strict, VInt(q), TInt, VNat(r), TNat, s, st);
      }
    case _ => MumavDivisionSound(strict, op, s, st);
  }

  lemma {:induction false} NewTicketSound(strict: bool, ctx: Ctx, s: Stack, st: Types)
    requires HasTypes(strict, s, st) && !CheckTicketOp(strict, Ticket, st).TcError?
    ensures EffectFits(strict, TicketEffect(Ticket, ctx, s), CheckTicketOp(strict, Ticket, st))
  {
    TypeAt(strict, s, st, 1);
    var v := VTicket(ctx.self, s[0], s[1].n);
    assert HasType(strict, v, TTicket(st[0]));
    Replaced(strict, VSome(v), TOption(TTicket(st[0])), s, st, 2);
    Replaced(strict, VNone, TOption(TTicket(st[0])), s, st, 2);
  }

  lemma {:induction false} ReadTicketSound(strict: bool, ctx: Ctx, s: Stack, st: Types)
    requires HasTypes(strict, s, st) && !CheckTicketOp(strict, ReadTicket, st).TcError?
    ensures EffectFits(strict, TicketEffect(ReadTicket, ctx, s), CheckTicketOp(strict, ReadTicket, st))
  {
    var v, t := VPair(s[0].content, VNat(s[0].amount)), TPair(st[0].t, TNat);
    assert HasType(strict, v, t);
    Pushed(strict, VPair(VAddress(s[0].ticketer), v), TPair(TAddress, t), s, st);
  }

  lemma {:induction false} SplitTicketSound(strict: bool, ctx: Ctx, s: Stack, st: Types)
    requires HasTypes(strict, s, st) && !CheckTicketOp(strict, SplitTicket, st).TcError?
    ensures EffectFits(strict, TicketEffect(SplitTicket, ctx, s), CheckTicketOp(strict, SplitTicket, st))
  {
    TypeAt(strict, s, st, 1);
    var t, a, b := s[0], s[1].l.n, s[1].r.n;
    PairFits(strict, VTicket(t.ticketer, t.content, a), st[0], VTicket(t.ticketer, t.content, b), st[0], s, st);
    Replaced(strict, VNone, TOption(TPair(st[0], st[0])), s, st, 2);
  }

  lemma {:induction false} JoinTicketsSound(strict: bool, ctx: Ctx, s: Stack, st: Types)
    requires HasTypes(strict, s, st) && !CheckTicketOp(strict, JoinTickets, st).TcError?
    ensures EffectFits(strict, TicketEffect(JoinTickets, ctx, s), CheckTicketOp(strict, JoinTickets, st))
  {
    hide LambdaTyped, CostCompare, ByteSize;
    var t, u := s[0].l, s[0].r;
    assert HasType(strict, t, st[0].l) && HasType(strict, u, st[0].l);
    if strict { ComparableValues(strict, t.content, u.content, st[0].l.t); }
    var v := VTicket(t.ticketer, t.content, t.amount + u.amount);
    assert HasType(strict, v, st[0].l);
    Replaced(strict, VSome(v), TOption(st[0].l), s, st, 1);
    Replaced(strict, VNone, TOption(st[0].l), s, st, 1);
  }

  lemma {:induction false} TicketOpSound(strict: bool, op: TicketOp, ctx: Ctx, s: Stack, st: Types)
    requires HasTypes(strict, s, st) && !CheckTicketOp(strict, op, st).TcError?
    ensures EffectFits(strict, TicketEffect(op, ctx, s), CheckTicketOp(strict, op, st))
  {
    match op
    case Ticket => NewTicketSound(strict, ctx, s, st);
    case ReadTicket => ReadTicketSound(strict, ctx, s, st);
    case SplitTicket => SplitTicketSound(strict, ctx, s, st);
    case JoinTickets => JoinTicketsSound(strict, ctx, s, st);
  }

  lemma {:induction false} OpSound(strict: bool, op: Op, ctx: Ctx, s: Stack, st: Types)
    requires CtxTyped(ctx) && HasTypes(strict, s, st) && !CheckOp(strict, op, st).TcError?
    ensures EffectFits(strict, OpEffect(op, ctx, s), CheckOp(strict, op, st))
  {
    match op
    case Stack(o) => StackOpSound(strict, o, ctx, s, st);
    case Combs(o) => CombOpSound(strict, o, s, st);
    case Data(o) => DataOpSound(strict, o, s, st);
    case Number(o) => NumberOpSound(strict, o, s, st);
    case Division(o) => DivisionOpSound(strict, o, s, st);
    case Test(o) => Pushed(strict, VBool(Holds(o, s[0].i)), TBool, s[1..], st[1..]);
    case Tickets(o) => TicketOpSound(strict, o, ctx, s, st);
  }
}
