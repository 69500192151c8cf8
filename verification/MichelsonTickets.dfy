/** Accounting for tickets over whole runs.

An asset is what a ticketer issues for one content.  The supply of an asset is the sum of the
amounts of its tickets, wherever they sit inside the values on the stack. */
module MichelsonTickets {
  import opened Michelson
  import opened MichelsonOps
  import opened MichelsonRun

  datatype Asset = Asset(ticketer: Address, content: Value)

  function Supply(v: Value, a: Asset): nat
    decreases v
  {
    match v
    case VPair(l, r) => Supply(l, a) + Supply(r, a)
    case VSome(x) => Supply(x, a)
    case VLeft(x) => Supply(x, a)
    case VRight(x) => Supply(x, a)
    case VList(vs) => Total(vs, a)
    case VLambda(c) => Captured(c, a)
    case VTicket(t, content, n) => (if Asset(t, content) == a then n else 0) + Supply(content, a)
    case _ => 0
  }

  function Total(s: Stack, a: Asset): nat
    decreases s
  {
    if s == [] then 0 else Supply(s[0], a) + Total(s[1..], a)
  }

  function Captured(c: Closure, a: Asset): nat
    decreases c
  {
    match c
    case Simple(_) => 0
    case Applied(_, v, inner) => Supply(v, a) + Captured(inner, a)
  }

  /** What an instruction adds to the supply: TICKET issues for the running contract; DUP and PUSH
      copy a value, READ_TICKET and SPLIT_TICKET the content of a ticket.  With `mints` only the
      issue by TICKET is counted. */
  function Created(op: Op, ctx: Ctx, s: Stack, a: Asset, mints: bool): (n: nat)
    ensures mints && a.ticketer != ctx.self ==> n == 0
  {
    if op == Tickets(Ticket) then if |s| > 1 && s[1].VNat? && Asset(ctx.self, s[0]) == a then s[1].n else 0
    else if mints then 0
    else match op
      case Stack(Dup(h)) => if 0 < HeightOr1(h) <= |s| then Supply(s[HeightOr1(h) - 1], a) else 0
      case Stack(Push(_, v)) => Supply(v, a)
      case Tickets(ReadTicket) => if |s| > 0 && s[0].VTicket? then Supply(s[0].content, a) else 0
      case Tickets(SplitTicket) => if |s| > 0 && s[0].VTicket? then Supply(s[0].content, a) else 0
      case _ => 0
  }

  // ---------------------------------------------------------------- totals of stacks

  lemma {:induction false} TotalSplit(s: Stack, n: nat, a: Asset)
    requires n <= |s|
    ensures Total(s, a) == Total(s[..n], a) + Total(s[n..], a)
    decreases n
  {
    if n == 0 {
      assert s[..0] == [] && s[0..] == s;
    } else {
      TotalSplit(s[1..], n - 1, a);
      assert s[1..][..n - 1] == s[..n][1..] && s[1..][n - 1..] == s[n..];
    }
  }

  lemma {:induction false} TotalAppend(s: Stack, t: Stack, a: Asset)
    ensures Total(s + t, a) == Total(s, a) + Total(t, a)
  {
    TotalSplit(s + t, |s|, a);
    assert (s + t)[..|s|] == s && (s + t)[|s|..] == t;
  }

  lemma {:induction false} TotalPush(v: Value, s: Stack, a: Asset)
    ensures Total([v] + s, a) == Supply(v, a) + Total(s, a)
  {
    assert ([v] + s)[1..] == s;
  }

  lemma {:induction false} TotalPush2(v: Value, w: Value, s: Stack, a: Asset)
    ensures Total([v, w] + s, a) == Supply(v, a) + Supply(w, a) + Total(s, a)
  {
    assert [v, w] + s == [v] + ([w] + s);
    TotalPush(v, [w] + s, a);
    TotalPush(w, s, a);
  }

  // The totals of a stack and of what is left when the top two values are taken off.
  lemma {:induction false} TotalTop2(s: Stack, a: Asset)
    requires |s| > 1
    ensures Total(s, a) == Supply(s[0], a) + Supply(s[1], a) + Total(s[2..], a)
  {
    assert s[1..][1..] == s[2..];
  }

  lemma {:induction false} CombTotal(s: Stack, a: Asset)
    requires |s| > 0
    ensures Supply(Comb(s), a) == Total(s, a)
  {
    if |s| > 1 { CombTotal(s[1..], a); }
  }

  lemma {:induction false} UncombTotal(n: nat, v: Value, a: Asset)
    requires n > 0 && Uncomb(n, v).Some?
    ensures Total(Uncomb(n, v).value, a) == Supply(v, a)
    decreases n
  {
    if n > 1 {
      UncombTotal(n - 1, v.r, a);
      TotalPush(v.l, Uncomb(n - 1, v.r).value, a);
    }
  }

  lemma {:induction false} FieldSupply(m: nat, v: Value, a: Asset)
    requires Field(m, v).Some?
    ensures Supply(Field(m, v).value, a) <= Supply(v, a)
    decreases m
  {
    if m > 1 { FieldSupply(m - 2, v.r, a); }
  }

  lemma {:induction false} WithFieldSupply(m: nat, v: Value, x: Value, a: Asset)
    requires WithField(m, v, x).Some?
    ensures Supply(WithField(m, v, x).value, a) <= Supply(v, a) + Supply(x, a)
    decreases m
  {
    if m > 1 { WithFieldSupply(m - 2, v.r, x, a); }
  }

  // ---------------------------------------------------------------- one instruction

  ghost predicate Accounted(e: Effect, s: Stack, a: Asset, created: nat) {
    e.Charge? && e.after.Next? ==> Total(e.after.stack, a) <= Total(s, a) + created
  }

  lemma {:induction false} StackSupply(op: StackOp, ctx: Ctx, s: Stack, a: Asset)
    ensures Accounted(StackEffect(op, ctx, s), s, a, Created(Stack(op), ctx, s, a, false))
  {
    match op
    case Drop(h) => if HeightOr1(h) <= |s| { TotalSplit(s, HeightOr1(h), a); }
    case Dup(h) => if 0 < HeightOr1(h) <= |s| { TotalPush(s[HeightOr1(h) - 1], s, a); }
    case Dig(n) => if 0 < n < |s| { DigTotal(s, n, a); }
    case Dug(n) => if 0 < n < |s| { DugTotal(s, n, a); }
    case Swap => if |s| > 1 { TotalTop2(s, a); TotalPush2(s[1], s[0], s[2..], a); }
    case Push(_, v) => TotalPush(v, s, a);
    case Unit => TotalPush(VUnit, s, a);
    case Amount => TotalPush(VMumav(ctx.amount), s, a);
    case Balance => TotalPush(VMumav(ctx.balance), s, a);
    case Failwith(_) =>
    case Never =>
  }

  lemma {:induction false} DigTotal(s: Stack, n: nat, a: Asset)
    requires 0 < n < |s|
    ensures Total([s[n]] + s[..n] + s[n + 1..], a) == Total(s, a)
  {
    TotalSplit(s, n, a);
    assert s[n..][1..] == s[n + 1..];
    TotalPush(s[n], s[..n], a);
    TotalAppend([s[n]] + s[..n], s[n + 1..], a);
  }

  lemma {:induction false} DugTotal(s: Stack, n: nat, a: Asset)
    requires 0 < n < |s|
    ensures Total(s[1..n + 1] + [s[0]] + s[n + 1..], a) == Total(s, a)
  {
    TotalSplit(s[1..], n, a);
    assert s[1..][..n] == s[1..n + 1] && s[1..][n..] == s[n + 1..];
    TotalAppend(s[1..n + 1], [s[0]], a);
    TotalAppend(s[1..n + 1] + [s[0]], s[n + 1..], a);
  }

  lemma {:induction false} CombSupply(op: CombOp, s: Stack, a: Asset)
    ensures Accounted(CombEffect(op, s), s, a, 0)
  {
    match op
    case Pair => if |s| > 1 { TotalTop2(s, a); TotalPush(VPair(s[0], s[1]), s[2..], a); }
    case PairN(n) =>
      if 0 < n <= |s| { CombTotal(s[..n], a); TotalSplit(s, n, a); TotalPush(Comb(s[..n]), s[n..], a); }
    case Unpair => if |s| > 0 && s[0].VPair? { TotalPush2(s[0].l, s[0].r, s[1..], a); }
    case UnpairN(n) =>
      if |s| > 0 && n > 0 && Uncomb(n, s[0]).Some? {
        UncombTotal(n, s[0], a);
        TotalAppend(Uncomb(n, s[0]).value, s[1..], a);
      }
    case Car => if |s| > 0 && s[0].VPair? { TotalPush(s[0].l, s[1..], a); }
    case Cdr => if |s| > 0 && s[0].VPair? { TotalPush(s[0].r, s[1..], a); }
    case GetN(n) =>
      if |s| > 0 && Field(n, s[0]).Some? { FieldSupply(n, s[0], a); TotalPush(Field(n, s[0]).value, s[1..], a); }
    case UpdateN(n) =>
      if |s| > 1 && WithField(n, s[1], s[0]).Some? {
        WithFieldSupply(n, s[1], s[0], a);
        TotalTop2(s, a);
        TotalPush(WithField(n, s[1], s[0]).value, s[2..], a);
      }
  }

  lemma {:induction false} DataSupply(op: DataOp, s: Stack, a: Asset)
    ensures Accounted(DataEffect(op, s), s, a, 0)
  {
    match op
    case ISome => if |s| > 0 { TotalPush(VSome(s[0]), s[1..], a); }
    case INone(_) => TotalPush(VNone, s, a);
    case Left(_) => if |s| > 0 { TotalPush(VLeft(s[0]), s[1..], a); }
    case Right(_) => if |s| > 0 { TotalPush(VRight(s[0]), s[1..], a); }
    case Nil(_) => TotalPush(VList([]), s, a);
    case Cons => if |s| > 1 && s[1].VList? { ConsSupply(s, a); }
    case ILambda(lam) => TotalPush(VLambda(Simple(lam)), s, a);
    case Apply(t) => if |s| > 1 && s[1].VLambda? { ApplySupply(t, s, a); }
  }

  lemma {:induction false} ConsSupply(s: Stack, a: Asset)
    requires |s| > 1 && s[1].VList?
    ensures Total([VList([s[0]] + s[1].vs)] + s[2..], a) == Total(s, a)
  {
    TotalTop2(s, a);
    TotalPush(s[0], s[1].vs, a);
    TotalPush(VList([s[0]] + s[1].vs), s[2..], a);
  }

  lemma {:induction false} ApplySupply(t: Type, s: Stack, a: Asset)
    requires |s| > 1 && s[1].VLambda?
    ensures Total([VLambda(Applied(t, s[0], s[1].closure))] + s[2..], a) == Total(s, a)
  {
    TotalTop2(s, a);
    TotalPush(VLambda(Applied(t, s[0], s[1].closure)), s[2..], a);
  }

  // Arithmetic replaces its operands by a value that holds no ticket.
  lemma {:induction false} Replaced(t: Stack, s: Stack, n: nat, a: Asset)
    requires n <= |s| && |t| > 0 && t[1..] == s[n..] && Supply(t[0], a) == 0
    ensures Total(t, a) <= Total(s, a)
  {
    TotalSplit(s, n, a);
  }

  lemma {:induction false} NumberSupply(op: NumberOp, s: Stack, a: Asset)
    ensures Accounted(NumberEffect(op, s), s, a, 0)
  {
    var e := NumberEffect(op, s);
    if e.Charge? && e.after.Next? {
      var n := if op.NegInt? || op.Abs? || op.IsNat? || op.IntOfNat? || op.NotBool? then 1 else 2;
      var t := e.after.stack;
      assert t[1..] == s[n..];
      Replaced(t, s, n, a);
    }
  }

  lemma {:induction false} DivisionSupply(op: DivisionOp, s: Stack, a: Asset)
    ensures Accounted(DivisionEffect(op, s), s, a, 0)
  {
    var e := DivisionEffect(op, s);
    if e.Charge? && e.after.Next? {
      var t := e.after.stack;
      assert t[1..] == s[2..];
      assert t[0].VSome? ==> Supply(t[0].v, a) == 0;
      Replaced(t, s, 2, a);
    }
  }

  lemma {:induction false} TicketSupply(op: TicketOp, ctx: Ctx, s: Stack, a: Asset)
    ensures Accounted(TicketEffect(op, ctx, s), s, a, Created(Tickets(op), ctx, s, a, false))
  {
    match op
    case Ticket => if |s| > 1 && s[1].VNat? { TicketExact(ctx, s, a); }
    case ReadTicket =>
      if |s| > 0 && s[0].VTicket? {
        var v := VPair(s[0].content, VNat(s[0].amount));
        assert Supply(v, a) == Supply(s[0].content, a);
        TotalPush(VPair(VAddress(s[0].ticketer), v), s, a);
      }
    case SplitTicket =>
      if TicketEffect(op, ctx, s).Charge? { SplitExact(ctx, s, a); }
    case JoinTickets =>
      if TicketEffect(op, ctx, s).Charge? { JoinExact(ctx, s, a); }
  }

  /** TICKET with a positive amount raises the supply of the running contract's asset by that amount
      and no other supply; with amount zero it issues nothing. */
  lemma {:induction false} TicketExact(ctx: Ctx, s: Stack, a: Asset)
    requires |s| > 1 && s[1].VNat?
    ensures var t := TicketEffect(Ticket, ctx, s).after.stack;
      Total(t, a) == if s[1].n == 0 then Total(s, a) - Supply(s[0], a) else Total(s, a) + Created(Tickets(Ticket), ctx, s, a, true)
  {
    TotalTop2(s, a);
    var v := VTicket(ctx.self, s[0], s[1].n);
    assert Supply(VSome(v), a) == Supply(v, a);
    TotalPush(VSome(v), s[2..], a);
    TotalPush(VNone, s[2..], a);
  }

  /** SPLIT_TICKET succeeds exactly on two positive parts of the amount, and then conserves every
      supply but for the copy of the content; otherwise the ticket is lost. */
  lemma {:induction false} SplitExact(ctx: Ctx, s: Stack, a: Asset)
    requires TicketEffect(SplitTicket, ctx, s).Charge?
    ensures var t := TicketEffect(SplitTicket, ctx, s).after.stack;
      if s[1].l.n + s[1].r.n == s[0].amount && s[1].l.n > 0 && s[1].r.n > 0
      then t[0].VSome? && Total(t, a) == Total(s, a) + Supply(s[0].content, a)
      else t[0].VNone? && Total(t, a) == Total(s, a) - Supply(s[0], a)
  {
    TotalTop2(s, a);
    var t, x, y := s[0], s[1].l.n, s[1].r.n;
    assert Supply(s[1], a) == 0;
    var l, r := VTicket(t.ticketer, t.content, x), VTicket(t.ticketer, t.content, y);
    assert Supply(VPair(l, r), a) == Supply(l, a) + Supply(r, a);
    TotalPush(VSome(VPair(l, r)), s[2..], a);
    TotalPush(VNone, s[2..], a);
  }

  /** JOIN_TICKETS succeeds exactly on two tickets of one asset, and then conserves every supply but
      for the second copy of the content; otherwise both tickets are lost. */
  lemma {:induction false} JoinExact(ctx: Ctx, s: Stack, a: Asset)
    requires TicketEffect(JoinTickets, ctx, s).Charge?
    ensures var t, x, y := TicketEffect(JoinTickets, ctx, s).after.stack, s[0].l, s[0].r;
      if Asset(x.ticketer, x.content) == Asset(y.ticketer, y.content)
      then t[0].VSome? && Total(t, a) == Total(s, a) - Supply(x.content, a)
      else t[0].VNone? && Total(t, a) == Total(s, a) - Supply(s[0], a)
  {
    hide CostCompare, CostAddNum;
    var x, y := s[0].l, s[0].r;
    JoinSupply(x, y, a);
    TotalPush(VSome(VTicket(x.ticketer, x.content, x.amount + y.amount)), s[1..], a);
    TotalPush(VNone, s[1..], a);
  }

  lemma {:induction false} JoinSupply(x: Value, y: Value, a: Asset)
    requires x.VTicket? && y.VTicket?
    ensures Supply(VPair(x, y), a) == Supply(x, a) + Supply(y, a)
    ensures Asset(x.ticketer, x.content) == Asset(y.ticketer, y.content) ==>
      Supply(VSome(VTicket(x.ticketer, x.content, x.amount + y.amount)), a) == Supply(x, a) + Supply(y, a) - Supply(x.content, a)
  {
    var v := VTicket(x.ticketer, x.content, x.amount + y.amount);
    assert Supply(VSome(v), a) == Supply(v, a);
  }

  lemma {:induction false} OpSupply(op: Op, ctx: Ctx, s: Stack, a: Asset)
    ensures Accounted(OpEffect(op, ctx, s), s, a, Created(op, ctx, s, a, false))
  {
    match op
    case Stack(o) => StackSupply(o, ctx, s, a);
    case Combs(o) => CombSupply(o, s, a);
    case Data(o) => DataSupply(o, s, a);
    case Number(o) => NumberSupply(o, s, a);
    case Division(o) => DivisionSupply(o, s, a);
    case Test(o) => if |s| > 0 && s[0].VInt? { TotalPush(VBool(Holds(o, s[0].i)), s[1..], a); }
    case Tickets(o) => TicketSupply(o, ctx, s, a);
  }
}
