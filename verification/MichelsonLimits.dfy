/** Where the typechecker's own rules stop short of the two guarantees that need the strict ones,
    and exactly which types are concerned. */
module MichelsonLimits {
  import opened Michelson
  import opened MichelsonOps
  import opened MichelsonRun
  import opened MichelsonTyping
  import opened MichelsonSoundness
  import opened MichelsonTickets

  // ---------------------------------------------------------------- inhabitants

  // Types in which never does not occur outside lambdas: they all have values.
  predicate Inhabited(t: Type) {
    match t
    case TNever => false
    case TPair(l, r) => Inhabited(l) && Inhabited(r)
    case TOr(l, r) => Inhabited(l) && Inhabited(r)
    case TOption(u) => Inhabited(u)
    case TList(u) => Inhabited(u)
    case TTicket(u) => Inhabited(u)
    case _ => true
  }

  // A lambda of any type, which only fails.
  function Raising(a: Type, b: Type): Lambda {
    Lambda(false, a, b, [Prim(Stack(Unit)), Prim(Stack(Failwith(TUnit)))])
  }

  lemma {:induction false} RaisingTyped(strict: bool, a: Type, b: Type)
    ensures LambdaTyped(strict, Raising(a, b))
  {
    var code := Raising(a, b).code;
    assert code[1..] == [Prim(Stack(Failwith(TUnit)))];
    assert CheckOne(strict, code[0], [a]) == Ok([TUnit] + [a]);
    assert CheckOne(strict, code[1], [TUnit] + [a]) == Failed;
    assert CheckSeq(strict, code[1..], [TUnit] + [a]) == Failed;
  }

  function Sample(t: Type): Value
    requires Inhabited(t)
  {
    match t
    case TInt => VInt(0)
    case TNat => VNat(0)
    case TMumav => VMumav(0)
    case TBool => VBool(true)
    case TUnit => VUnit
    case TAddress => VAddress(0)
    case TPair(l, r) => VPair(Sample(l), Sample(r))
    case TOption(u) => VNone
    case TOr(l, r) => VLeft(Sample(l))
    case TList(u) => VList([])
    case TLambda(a, b) => VLambda(Simple(Raising(a, b)))
    case TTicket(u) => VTicket(0, Sample(u), 1)
  }

  lemma {:induction false} SampleTyped(t: Type)
    requires Inhabited(t)
    ensures HasType(false, Sample(t), t)
  {
    match t
    case TPair(l, r) => SampleTyped(l); SampleTyped(r);
    case TOr(l, r) => SampleTyped(l);
    case TTicket(u) => SampleTyped(u);
    case TLambda(a, b) =>
      RaisingTyped(false, a, b);
      assert ClosureHasType(false, Simple(Raising(a, b)), a, b);
    case _ =>
  }

  // ---------------------------------------------------------------- joining tickets

  // A value of a type that is not comparable on which comparison gives up.
  lemma {:induction false} Unordered(t: Type) returns (v: Value)
    requires Inhabited(t) && !Comparable(t)
    ensures HasType(false, v, t) && CostCompare(v, v).None?
  {
    if t.TPair? {
      SampleTyped(t.l);
      SampleTyped(t.r);
      if Comparable(t.l) {
        var w := Unordered(t.r);
        v := VPair(Sample(t.l), w);
      } else {
        var w := Unordered(t.l);
        v := VPair(w, Sample(t.r));
      }
    } else if t.TOr? {
      if Comparable(t.l) {
        var w := Unordered(t.r);
        v := VRight(w);
      } else {
        var w := Unordered(t.l);
        v := VLeft(w);
      }
    } else if t.TOption? {
      var w := Unordered(t.t);
      v := VSome(w);
    } else {
      SampleTyped(t);
      v := Sample(t);
    }
  }

  ghost predicate JoinsSafely(t: Type) {
    forall ctx, s, gas {:trigger RunOne(Prim(Tickets(JoinTickets)), ctx, gas, s)} ::
      HasTypes(false, s, [TPair(TTicket(t), TTicket(t))]) ==> !RunOne(Prim(Tickets(JoinTickets)), ctx, gas, s).Panic?
  }

  lemma {:induction false} JoinOfOrdered(ctx: Ctx, gas: nat, s: Stack)
    requires |s| > 0 && s[0].VPair? && s[0].l.VTicket? && s[0].r.VTicket?
    requires CostCompare(s[0].l.content, s[0].r.content).Some?
    ensures !RunOne(Prim(Tickets(JoinTickets)), ctx, gas, s).Panic?
  {
    hide CostCompare, ByteSize;
  }

  lemma {:induction false} JoinOfComparables(t: Type, ctx: Ctx, gas: nat, s: Stack)
    requires Comparable(t) && HasTypes(false, s, [TPair(TTicket(t), TTicket(t))])
    ensures !RunOne(Prim(Tickets(JoinTickets)), ctx, gas, s).Panic?
  {
    hide LambdaTyped, CostCompare, ByteSize, RunOne;
    assert HasType(false, s[0].l, TTicket(t)) && HasType(false, s[0].r, TTicket(t));
    ComparableValues(false, s[0].l.content, s[0].r.content, t);
    JoinOfOrdered(ctx, gas, s);
  }

  lemma {:induction false} JoinOfUnordered(t: Type, ctx: Ctx, gas: nat) returns (s: Stack)
    requires Inhabited(t) && !Comparable(t)
    ensures HasTypes(false, s, [TPair(TTicket(t), TTicket(t))])
    ensures RunOne(Prim(Tickets(JoinTickets)), ctx, gas, s) == Panic(true)
  {
    hide LambdaTyped, CostCompare, ByteSize;
    var v := Unordered(t);
    var ticket := VTicket(ctx.self, v, 1);
    assert HasType(false, ticket, TTicket(t));
    s := [VPair(ticket, ticket)];
  }

  /** JOIN_TICKETS is accepted for tickets of any content type, and is free of panics on all their
      values exactly when that type is comparable. */
  lemma {:induction false} JoinPanicsExactly(t: Type)
    requires Inhabited(t)
    ensures CheckOne(false, Prim(Tickets(JoinTickets)), [TPair(TTicket(t), TTicket(t))]).Ok?
    ensures JoinsSafely(t) <==> Comparable(t)
  {
    if Comparable(t) {
      forall ctx, s, gas {:trigger RunOne(Prim(Tickets(JoinTickets)), ctx, gas, s)}
        | HasTypes(false, s, [TPair(TTicket(t), TTicket(t))])
        ensures !RunOne(Prim(Tickets(JoinTickets)), ctx, gas, s).Panic?
      {
        JoinOfComparables(t, ctx, gas, s);
      }
    } else {
      var ctx := Ctx(0, 0, 0);
      var s := JoinOfUnordered(t, ctx, 0);
    }
  }

  // ---------------------------------------------------------------- duplicating tickets

  // Types whose values cannot hold a ticket, whatever has been applied to their lambdas.
  predicate Ticketless(t: Type) {
    match t
    case TTicket(_) | TLambda(_, _) => false
    case TPair(l, r) => Ticketless(l) && Ticketless(r)
    case TOr(l, r) => Ticketless(l) && Ticketless(r)
    case TOption(u) => Ticketless(u)
    case TList(u) => Ticketless(u)
    case _ => true
  }

  lemma {:induction false} TicketlessSupply(v: Value, t: Type, a: Asset)
    requires HasType(false, v, t) && Ticketless(t)
    ensures Supply(v, a) == 0
    decreases v
  {
    match v
    case VPair(l, r) => TicketlessSupply(l, t.l, a); TicketlessSupply(r, t.r, a);
    case VSome(x) => TicketlessSupply(x, t.t, a);
    case VLeft(x) => TicketlessSupply(x, t.l, a);
    case VRight(x) => TicketlessSupply(x, t.r, a);
    case VList(vs) => TicketlessTotal(vs, t.t, a);
    case _ =>
  }

  lemma {:induction false} TicketlessTotal(vs: seq<Value>, t: Type, a: Asset)
    requires (forall x :: x in vs ==> HasType(false, x, t)) && Ticketless(t)
    ensures Total(vs, a) == 0
    decreases vs
  {
    if vs != [] {
      TicketlessSupply(vs[0], t, a);
      TicketlessTotal(vs[1..], t, a);
    }
  }

  // A closure of any type that has captured a ticket.
  function Holder(ticket: Value, a: Type, b: Type): Closure {
    Applied(TTicket(TUnit), ticket, Simple(Raising(TPair(TTicket(TUnit), a), b)))
  }

  // A value of a duplicable type that still holds the given ticket.
  lemma {:induction false} CapturedSample(t: Type, k: Address, n: nat) returns (v: Value)
    requires Inhabited(t) && Duplicable(t) && !Ticketless(t)
    ensures HasType(false, v, t) && Supply(v, Asset(k, VUnit)) >= n
  {
    var ticket := VTicket(k, VUnit, n);
    match t
    case TLambda(a, b) =>
      RaisingTyped(false, TPair(TTicket(TUnit), a), b);
      assert HasType(false, ticket, TTicket(TUnit));
      assert ClosureHasType(false, Simple(Raising(TPair(TTicket(TUnit), a), b)), TPair(TTicket(TUnit), a), b);
      assert ClosureHasType(false, Holder(ticket, a, b), a, b);
      v := VLambda(Holder(ticket, a, b));
      assert Supply(ticket, Asset(k, VUnit)) == n;
      assert Captured(Holder(ticket, a, b), Asset(k, VUnit)) == n;
    case TPair(l, r) =>
      SampleTyped(l);
      SampleTyped(r);
      if Ticketless(l) {
        var w := CapturedSample(r, k, n);
        v := VPair(Sample(l), w);
      } else {
        var w := CapturedSample(l, k, n);
        v := VPair(w, Sample(r));
      }
    case TOr(l, r) =>
      if Ticketless(l) {
        var w := CapturedSample(r, k, n);
        v := VRight(w);
      } else {
        var w := CapturedSample(l, k, n);
        v := VLeft(w);
      }
    case TOption(u) =>
      var w := CapturedSample(u, k, n);
      v := VSome(w);
    case TList(u) =>
      var w := CapturedSample(u, k, n);
      v := VList([w]);
      assert Total([w], Asset(k, VUnit)) == Supply(w, Asset(k, VUnit)) + Total([], Asset(k, VUnit));
  }

  ghost predicate DupConserves(t: Type) {
    forall v, a {:trigger Total([v, v], a)} :: HasType(false, v, t) ==> Total([v, v], a) == Total([v], a)
  }

  lemma {:induction false} DupTotal(v: Value, a: Asset)
    ensures Total([v, v], a) == Total([v], a) + Supply(v, a)
  {
    TotalPush2(v, v, [], a);
    TotalPush(v, [], a);
    assert [v, v] + [] == [v, v] && [v] + [] == [v];
  }

  /** Under the typechecker's own rules DUP conserves every supply at exactly the types without
      lambdas: it refuses types with tickets in them, but a lambda may have captured one. */
  lemma {:induction false} DupConservesExactly(t: Type)
    requires Inhabited(t) && Duplicable(t)
    ensures DupConserves(t) <==> Ticketless(t)
  {
    if Ticketless(t) {
      forall v, a {:trigger Total([v, v], a)} | HasType(false, v, t)
        ensures Total([v, v], a) == Total([v], a)
      {
        TicketlessSupply(v, t, a);
        DupTotal(v, a);
      }
    } else {
      var v := CapturedSample(t, 0, 1);
      DupTotal(v, Asset(0, VUnit));
    }
  }

  const ApplyThenDup: seq<Instr> := [Prim(Data(Apply(TTicket(TUnit)))), Prim(Stack(Dup(None)))]

  // A ticket above a lambda that takes it together with an argument.
  function Capturing(k: Address, n: nat, a: Type, b: Type): Stack {
    [VTicket(k, VUnit, n), VLambda(Simple(Raising(TPair(TTicket(TUnit), a), b)))]
  }

  function CapturingTypes(a: Type, b: Type): Types { [TTicket(TUnit), TLambda(TPair(TTicket(TUnit), a), b)] }

  lemma {:induction false} CapturingTyped(k: Address, n: nat, a: Type, b: Type)
    ensures HasTypes(false, Capturing(k, n, a, b), CapturingTypes(a, b))
  {
    var s, st := Capturing(k, n, a, b), CapturingTypes(a, b);
    RaisingTyped(false, TPair(TTicket(TUnit), a), b);
    assert ClosureHasType(false, s[1].closure, st[1].a, b);
    assert HasType(false, s[0], st[0]) && HasType(false, s[1], st[1]);
    assert HasTypes(false, s[1..], st[1..]);
  }

  lemma {:induction false} ApplyThenDupAccepted(a: Type, b: Type)
    ensures CheckSeq(false, ApplyThenDup, CapturingTypes(a, b)) == Ok([TLambda(a, b), TLambda(a, b)])
  {
    var st := CapturingTypes(a, b);
    assert CheckOne(false, ApplyThenDup[0], st) == Ok([TLambda(a, b)] + st[2..]);
    assert CheckOne(false, ApplyThenDup[1], [TLambda(a, b)]) == Ok([TLambda(a, b)] + [TLambda(a, b)]);
    assert ApplyThenDup[1..][1..] == [];
    assert CheckSeq(false, ApplyThenDup[1..], [TLambda(a, b)]) == Ok([TLambda(a, b), TLambda(a, b)]);
  }

  lemma {:induction false} ApplyThenDupRun(ctx: Ctx, k: Address, n: nat, a: Type, b: Type)
    ensures var held := VLambda(Holder(VTicket(k, VUnit, n), a, b));
      RunSeq(ApplyThenDup, ctx, 165, Capturing(k, n, a, b)) == Done(0, [held, held])
  {
    var s, held := Capturing(k, n, a, b), VLambda(Holder(VTicket(k, VUnit, n), a, b));
    assert RunOne(ApplyThenDup[0], ctx, 165, s) == Done(25, [held]);
    assert RunOne(ApplyThenDup[1], ctx, 25, [held]) == Done(15, [held, held]);
    assert ApplyThenDup[1..][1..] == [];
    assert RunSeq(ApplyThenDup[1..], ctx, 25, [held]) == Done(0, [held, held]);
  }

  /** APPLY then DUP passes the typechecker and doubles the supply of a ticket of any other contract:
      the supply theorem does need captured values to be duplicable. */
  lemma {:induction false} AppliedTicketDoubles(ctx: Ctx, k: Address, n: nat, a: Type, b: Type)
    ensures HasTypes(false, Capturing(k, n, a, b), CapturingTypes(a, b))
    ensures CheckSeq(false, ApplyThenDup, CapturingTypes(a, b)).Ok?
    ensures RunSeq(ApplyThenDup, ctx, 165, Capturing(k, n, a, b)).Done?
    ensures Total(Capturing(k, n, a, b), Asset(k, VUnit)) == n
    ensures Total(RunSeq(ApplyThenDup, ctx, 165, Capturing(k, n, a, b)).stack, Asset(k, VUnit)) == 2 * n
  {
    CapturingTyped(k, n, a, b);
    ApplyThenDupAccepted(a, b);
    ApplyThenDupRun(ctx, k, n, a, b);
    HolderTotals(k, n, a, b);
  }

  lemma {:induction false} HolderTotals(k: Address, n: nat, a: Type, b: Type)
    ensures Total(Capturing(k, n, a, b), Asset(k, VUnit)) == n
    ensures var held := VLambda(Holder(VTicket(k, VUnit, n), a, b)); Total([held, held], Asset(k, VUnit)) == 2 * n
  {
    var s, asset, ticket := Capturing(k, n, a, b), Asset(k, VUnit), VTicket(k, VUnit, n);
    var held := VLambda(Holder(ticket, a, b));
    assert Supply(ticket, asset) == n && Captured(Holder(ticket, a, b), asset) == n;
    TotalPush2(ticket, s[1], [], asset);
    TotalPush2(held, held, [], asset);
    assert [ticket, s[1]] + [] == s && [held, held] + [] == [held, held];
  }
}
