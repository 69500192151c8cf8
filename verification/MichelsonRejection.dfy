/** What the typechecker rejects: only instructions that could never complete on values of these types, apart from the
    few conditions it imposes beyond that. */
module MichelsonRejection {
  import opened Michelson
  import opened MichelsonOps
  import opened MichelsonRun
  import opened MichelsonTyping
  import opened MichelsonSoundness

  /** The conditions that a run does not look at: duplicable and pushable values, literals of their declared type,
      elements of their list's type, arguments of their lambda's type, tickets of one type. */
  ghost predicate Forbidden(op: Op, st: Types) {
    match op
    case Stack(Dup(h)) => 0 < HeightOr1(h) <= |st| && !Duplicable(st[HeightOr1(h) - 1])
    case Stack(Push(t, v)) => !(Duplicable(t) && HasType(false, v, t))
    case Stack(Failwith(t)) => |st| > 0 && !(Duplicable(t) && st[0] == t)
    case Data(Cons) => |st| > 1 && st[1].TList? && st[1].t != st[0]
    case Data(ILambda(lam)) => !LambdaTyped(false, lam)
    case Data(Apply(t)) =>
      |st| > 1 && st[1].TLambda? && !(st[1].a.TPair? && st[1].a.l == st[0] == t)
    case Tickets(JoinTickets) =>
      |st| > 0 && st[0].TPair? && st[0].l.TTicket? && st[0].r.TTicket? && st[0].l != st[0].r
    case _ => false
  }

  // The instruction completes with no amount of gas.
  ghost predicate Hopeless(op: Op, ctx: Ctx, s: Stack) {
    forall gas: nat :: !RunOne(Prim(op), ctx, gas, s).Done?
  }

  lemma {:induction false} NoEffect(op: Op, ctx: Ctx, s: Stack)
    requires var e := OpEffect(op, ctx, s); e.Charge? && e.after.Next? ==> e.cost > U32_MAX
    ensures Hopeless(op, ctx, s)
  {
    hide OpEffect;
  }

  // The two values on top, if there are any, have the two types on top.
  lemma {:induction false} Tops(s: Stack, st: Types)
    requires HasTypes(false, s, st)
    ensures |s| == |st| && (|s| > 0 ==> HasType(false, s[0], st[0])) && (|s| > 1 ==> HasType(false, s[1], st[1]))
  {
    if |s| > 1 { assert s[1..][0] == s[1] && st[1..][0] == st[1]; }
  }

  // A value splits into n leaves only if its type does.
  lemma {:induction false} UncombShape(n: nat, v: Value, t: Type)
    requires n > 0 && HasType(false, v, t) && Uncomb(n, v).Some?
    ensures UncombType(n, t).Some?
    decreases n
  {
    if n > 1 { UncombShape(n - 1, v.r, t.r); }
  }

  lemma {:induction false} FieldShape(m: nat, v: Value, t: Type)
    requires HasType(false, v, t) && Field(m, v).Some?
    ensures FieldType(m, t).Some?
  {
    if m > 1 { FieldShape(m - 2, v.r, t.r); }
  }

  lemma {:induction false} WithFieldShape(m: nat, v: Value, t: Type, x: Value, u: Type)
    requires HasType(false, v, t) && WithField(m, v, x).Some?
    ensures WithFieldType(m, t, u).Some?
  {
    if m > 1 { WithFieldShape(m - 2, v.r, t.r, x, u); }
  }

  lemma {:induction false} RejectedStack(op: StackOp, ctx: Ctx, s: Stack, st: Types)
    requires HasTypes(false, s, st) && CheckStackOp(false, op, st).TcError? && !Forbidden(Stack(op), st)
    ensures Hopeless(Stack(op), ctx, s)
  {
    hide HasType, LambdaTyped, Duplicable;
    Tops(s, st);
    NoEffect(Stack(op), ctx, s);
  }

  lemma {:induction false} RejectedComb(op: CombOp, ctx: Ctx, s: Stack, st: Types)
    requires HasTypes(false, s, st) && CheckCombOp(op, st).TcError?
    ensures Hopeless(Combs(op), ctx, s)
  {
    hide LambdaTyped;
    Tops(s, st);
    match op
    case UnpairN(n) =>
      if |s| > 0 && n > 1 && Uncomb(n, s[0]).Some? { UncombShape(n, s[0], st[0]); }
      NoEffect(Combs(op), ctx, s);
    case GetN(n) =>
      if |s| > 0 && Field(n, s[0]).Some? { FieldShape(n, s[0], st[0]); }
      NoEffect(Combs(op), ctx, s);
    case UpdateN(n) =>
      if |s| > 1 && WithField(n, s[1], s[0]).Some? { WithFieldShape(n, s[1], st[1], s[0], st[0]); }
      NoEffect(Combs(op), ctx, s);
    case _ => NoEffect(Combs(op), ctx, s);
  }

  lemma {:induction false} RejectedNumber(op: NumberOp, ctx: Ctx, s: Stack, st: Types)
    requires HasTypes(false, s, st) && CheckNumberOp(op, st).TcError?
    ensures Hopeless(Number(op), ctx, s)
  {
    hide LambdaTyped, MumavResult, ByteSize, ClosureHasType;
    Tops(s, st);
    NoEffect(Number(op), ctx, s);
  }

  lemma {:induction false} RejectedDivision(op: DivisionOp, ctx: Ctx, s: Stack, st: Types)
    requires HasTypes(false, s, st) && CheckDivisionOp(op, st).TcError?
    ensures Hopeless(Division(op), ctx, s)
  {
    hide LambdaTyped, ByteSize, ClosureHasType, EDivSigned, TruncDiv, TruncRem;
    Tops(s, st);
    NoEffect(Division(op), ctx, s);
  }

  lemma {:induction false} RejectedData(op: DataOp, ctx: Ctx, s: Stack, st: Types)
    requires HasTypes(false, s, st) && CheckDataOp(false, op, st).TcError? && !Forbidden(Data(op), st)
    ensures Hopeless(Data(op), ctx, s)
  {
    hide LambdaTyped, ClosureHasType;
    Tops(s, st);
    NoEffect(Data(op), ctx, s);
  }

  lemma {:induction false} RejectedTicket(op: TicketOp, ctx: Ctx, s: Stack, st: Types)
    requires HasTypes(false, s, st) && CheckTicketOp(false, op, st).TcError? && !Forbidden(Tickets(op), st)
    ensures Hopeless(Tickets(op), ctx, s)
  {
    hide LambdaTyped, ClosureHasType, CostCompare, CostAddNum;
    Tops(s, st);
    NoEffect(Tickets(op), ctx, s);
  }

  /** An instruction without nested code is rejected exactly where one of those conditions fails or, on every stack of
      these types, it can never complete. */
  lemma {:induction false} RejectedExactly(op: Op, ctx: Ctx, s: Stack, st: Types)
    requires HasTypes(false, s, st)
    ensures Forbidden(op, st) ==> CheckOp(false, op, st).TcError?
    ensures CheckOp(false, op, st).TcError? ==> Forbidden(op, st) || Hopeless(op, ctx, s)
  {
    if CheckOp(false, op, st).TcError? && !Forbidden(op, st) {
      match op
      case Stack(o) => RejectedStack(o, ctx, s, st);
      case Combs(o) => RejectedComb(o, ctx, s, st);
      case Data(o) => RejectedData(o, ctx, s, st);
      case Number(o) => RejectedNumber(o, ctx, s, st);
      case Division(o) => RejectedDivision(o, ctx, s, st);
      case Test(o) =>
        Tops(s, st);
        NoEffect(op, ctx, s);
      case Tickets(o) => RejectedTicket(o, ctx, s, st);
    }
  }

  // ---------------------------------------------------------------- accepted programs

  // A block of one instruction that takes the types to u.
  lemma {:induction false} Block(op: Op, st: Types, u: Types)
    requires CheckOp(false, op, st) == Ok(u)
    ensures CheckSeq(false, [Prim(op)], st) == Ok(u)
  {
    hide CheckOp;
    assert [Prim(op)][1..] == [];
  }

  lemma {:induction false} OnTop(t: Type, st: Types)
    ensures ([t] + st)[0] == t && ([t] + st)[1..] == st
  {
  }

  /** The conditionals that rebuild what they took apart are accepted, as doing nothing to the types. */
  lemma {:induction false} BoolRebuilt(st: Types)
    ensures var yes, no := Prim(Stack(Push(TBool, VBool(true)))), Prim(Stack(Push(TBool, VBool(false))));
      CheckOne(false, If([yes], [no]), [TBool] + st) == Ok([TBool] + st)
  {
    Block(Stack(Push(TBool, VBool(true))), st, [TBool] + st);
    Block(Stack(Push(TBool, VBool(false))), st, [TBool] + st);
    OnTop(TBool, st);
    hide CheckSeq, CheckOp;
  }

  lemma {:induction false} OptionRebuilt(a: Type, st: Types)
    ensures CheckOne(false, IfNone([Prim(Data(INone(a)))], [Prim(Data(ISome))]), [TOption(a)] + st) == Ok([TOption(a)] + st)
  {
    OnTop(a, st);
    OnTop(TOption(a), st);
    Block(Data(INone(a)), st, [TOption(a)] + st);
    Block(Data(ISome), [a] + st, [TOption(a)] + st);
    hide CheckSeq, CheckOp;
  }

  lemma {:induction false} OrRebuilt(a: Type, b: Type, st: Types)
    ensures CheckOne(false, IfLeft([Prim(Data(Left(b)))], [Prim(Data(Right(a)))]), [TOr(a, b)] + st) == Ok([TOr(a, b)] + st)
  {
    OnTop(a, st);
    OnTop(b, st);
    OnTop(TOr(a, b), st);
    Block(Data(Left(b)), [a] + st, [TOr(a, b)] + st);
    Block(Data(Right(a)), [b] + st, [TOr(a, b)] + st);
    hide CheckSeq, CheckOp;
  }

  lemma {:induction false} ListRebuilt(a: Type, st: Types)
    ensures CheckOne(false, IfCons([Prim(Data(Cons))], [Prim(Data(Nil(a)))]), [TList(a)] + st) == Ok([TList(a)] + st)
  {
    var list := [TList(a)] + st;
    OnTop(TList(a), st);
    OnTop(a, list);
    Block(Data(Nil(a)), st, list);
    Block(Data(Cons), [a] + list, list);
    hide CheckSeq, CheckOp;
  }

  /** Loops, iterations and maps with the simplest bodies are accepted, with the types these leave. */
  lemma {:induction false} LoopsAccepted(a: Type, b: Type, st: Types)
    ensures CheckOne(false, Loop([Prim(Stack(Push(TBool, VBool(false))))]), [TBool] + st) == Ok(st)
    ensures CheckOne(false, LoopLeft([Prim(Data(Left(b)))]), [TOr(a, b)] + st) == Ok([b] + st)
  {
    OnTop(a, st);
    OnTop(TBool, st);
    OnTop(TOr(a, b), st);
    Block(Stack(Push(TBool, VBool(false))), st, [TBool] + st);
    Block(Data(Left(b)), [a] + st, [TOr(a, b)] + st);
    hide CheckSeq, CheckOp;
  }

  lemma {:induction false} IterAccepted(a: Type, st: Types)
    ensures CheckOne(false, Iter([Prim(Stack(Drop(None)))]), [TList(a)] + st) == Ok(st)
  {
    OnTop(a, st);
    OnTop(TList(a), st);
    Block(Stack(Drop(None)), [a] + st, st);
    hide CheckSeq, CheckOp;
  }

  lemma {:induction false} MapsAccepted(a: Type, st: Types)
    ensures CheckOne(false, MapList([Prim(Data(ISome))]), [TList(a)] + st) == Ok([TList(TOption(a))] + st)
    ensures CheckOne(false, MapOption([Prim(Data(ISome))]), [TOption(a)] + st) == Ok([TOption(TOption(a))] + st)
  {
    OnTop(a, st);
    OnTop(TList(a), st);
    OnTop(TOption(a), st);
    Block(Data(ISome), [a] + st, [TOption(a)] + st);
    hide CheckSeq, CheckOp;
  }

  lemma {:induction false} DipAccepted(a: Type, h: Option<nat>, ts: Types, st: Types)
    requires |ts| == HeightOr1(h)
    ensures CheckOne(false, Dip(h, [Prim(Data(ISome))]), ts + ([a] + st)) == Ok(ts + ([TOption(a)] + st))
  {
    OnTop(a, st);
    Block(Data(ISome), [a] + st, [TOption(a)] + st);
    hide CheckSeq, CheckOp;
    var all := ts + ([a] + st);
    assert all[..|ts|] == ts && all[|ts|..] == [a] + st;
  }

  lemma {:induction false} ExecAccepted(a: Type, b: Type, st: Types)
    ensures CheckOne(false, Exec, [a, TLambda(a, b)] + st) == Ok([b] + st)
  {
    assert ([a, TLambda(a, b)] + st)[2..] == st;
  }
}
