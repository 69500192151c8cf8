/** A run never looks below the part of the stack it needs: whatever lies there stays as it is. */
module MichelsonFrame {
  import opened Michelson
  import opened MichelsonOps
  import opened MichelsonRun
  import opened MichelsonTyping
  import opened MichelsonSoundness
  import opened MichelsonSafety

  function OverEffect(e: Effect, rest: Stack): Effect {
    match e
    case Charge(cost, Next(t)) => Charge(cost, Next(t + rest))
    case _ => e
  }

  function Over(r: Outcome, rest: Stack): Outcome {
    match r
    case Done(gas, s) => Done(gas, s + rest)
    case _ => r
  }

  // The effect never had to give up for want of a suitable operand.
  predicate Proper(e: Effect) { !e.Stuck? && (e.Charge? ==> !e.after.Crash?) }

  lemma {:induction false} Below(s: Stack, rest: Stack, n: nat)
    requires n <= |s|
    ensures (s + rest)[n..] == s[n..] + rest && (s + rest)[..n] == s[..n]
  {
  }

  // Replacing the top n values by some others, with and without the rest below.
  lemma {:induction false} Replace(vs: Stack, s: Stack, rest: Stack, n: nat)
    requires n <= |s|
    ensures (s + rest)[n..] == s[n..] + rest && (s + rest)[..n] == s[..n]
    ensures vs + (s + rest)[n..] == vs + s[n..] + rest
  {
    Below(s, rest, n);
    assert vs + (s[n..] + rest) == vs + s[n..] + rest;
  }

  lemma {:induction false} DigFrame(s: Stack, rest: Stack, n: nat)
    requires 0 < n < |s|
    ensures var t := s + rest; [t[n]] + t[..n] + t[n + 1..] == [s[n]] + s[..n] + s[n + 1..] + rest
    ensures var t := s + rest; t[1..n + 1] + [t[0]] + t[n + 1..] == s[1..n + 1] + [s[0]] + s[n + 1..] + rest
  {
    Replace([s[n]] + s[..n], s, rest, n + 1);
    Below(s, rest, n);
    Replace(s[1..n + 1] + [s[0]], s, rest, n + 1);
    assert (s + rest)[1..n + 1] == s[1..n + 1];
  }

  lemma {:induction false} StackFrame(op: StackOp, ctx: Ctx, s: Stack, rest: Stack)
    requires Proper(StackEffect(op, ctx, s))
    ensures StackEffect(op, ctx, s + rest) == OverEffect(StackEffect(op, ctx, s), rest)
  {
    match op
    case Drop(h) => Below(s, rest, HeightOr1(h));
    case Dup(h) => Replace([s[HeightOr1(h) - 1]], s, rest, 0);
    case Dig(n) => if n > 0 { DigFrame(s, rest, n); }
    case Dug(n) => if n > 0 { DigFrame(s, rest, n); }
    case Swap => Replace([s[1], s[0]], s, rest, 2);
    case Push(_, v) => Replace([v], s, rest, 0);
    case Unit => Replace([VUnit], s, rest, 0);
    case Amount => Replace([VMumav(ctx.amount)], s, rest, 0);
    case Balance => Replace([VMumav(ctx.balance)], s, rest, 0);
    case Failwith(_) =>
  }

  lemma {:induction false} CombFrame(op: CombOp, s: Stack, rest: Stack)
    requires Proper(CombEffect(op, s))
    ensures CombEffect(op, s + rest) == OverEffect(CombEffect(op, s), rest)
  {
    match op
    case Pair => Replace([VPair(s[0], s[1])], s, rest, 2);
    case PairN(n) => Replace([Comb(s[..n])], s, rest, n);
    case Unpair => Replace([s[0].l, s[0].r], s, rest, 1);
    case UnpairN(n) => Replace(Uncomb(n, s[0]).value, s, rest, 1);
    case Car => Replace([s[0].l], s, rest, 1);
    case Cdr => Replace([s[0].r], s, rest, 1);
    case GetN(n) => Replace([Field(n, s[0]).value], s, rest, 1);
    case UpdateN(n) => Replace([WithField(n, s[1], s[0]).value], s, rest, 2);
  }

  lemma {:induction false} DataFrame(op: DataOp, s: Stack, rest: Stack)
    requires Proper(DataEffect(op, s))
    ensures DataEffect(op, s + rest) == OverEffect(DataEffect(op, s), rest)
  {
    match op
    case ISome => Replace([VSome(s[0])], s, rest, 1);
    case INone(t) => Replace([VNone], s, rest, 0);
    case Left(t) => Replace([VLeft(s[0])], s, rest, 1);
    case Right(t) => Replace([VRight(s[0])], s, rest, 1);
    case Nil(t) => Replace([VList([])], s, rest, 0);
    case Cons => Replace([VList([s[0]] + s[1].vs)], s, rest, 2);
    case ILambda(lam) => Replace([VLambda(Simple(lam))], s, rest, 0);
    case Apply(t) => Replace([VLambda(Applied(t, s[0], s[1].closure))], s, rest, 2);
  }

  // The instructions below leave one value in place of their operands.
  lemma {:induction false} OneResult(t: Stack, s: Stack, rest: Stack, n: nat)
    requires n <= |s| && |t| > 0 && t[1..] == s[n..]
    ensures [t[0]] + (s + rest)[n..] == t + rest
  {
    Below(s, rest, n);
    assert t == [t[0]] + t[1..];
  }

  lemma {:induction false} NumberFrame(op: NumberOp, s: Stack, rest: Stack)
    requires Proper(NumberEffect(op, s))
    ensures NumberEffect(op, s + rest) == OverEffect(NumberEffect(op, s), rest)
  {
    var e := NumberEffect(op, s);
    if e.after.Next? {
      var n := if op.NegInt? || op.Abs? || op.IsNat? || op.IntOfNat? || op.NotBool? then 1 else 2;
      assert e.after.stack[1..] == s[n..];
      OneResult(e.after.stack, s, rest, n);
    }
  }

  lemma {:induction false} DivisionFrame(op: DivisionOp, s: Stack, rest: Stack)
    requires Proper(DivisionEffect(op, s))
    ensures DivisionEffect(op, s + rest) == OverEffect(DivisionEffect(op, s), rest)
  {
    var e := DivisionEffect(op, s);
    OneResult(e.after.stack, s, rest, 2);
  }

  lemma {:induction false} TicketFrame(op: TicketOp, ctx: Ctx, s: Stack, rest: Stack)
    requires Proper(TicketEffect(op, ctx, s))
    ensures TicketEffect(op, ctx, s + rest) == OverEffect(TicketEffect(op, ctx, s), rest)
  {
    var e := TicketEffect(op, ctx, s);
    if e.Charge? {
      OneResult(e.after.stack, s, rest, if op.ReadTicket? then 0 else if op.JoinTickets? then 1 else 2);
    }
  }

  lemma {:induction false} OpFrame(op: Op, ctx: Ctx, s: Stack, rest: Stack)
    requires Proper(OpEffect(op, ctx, s))
    ensures OpEffect(op, ctx, s + rest) == OverEffect(OpEffect(op, ctx, s), rest)
  {
    match op
    case Stack(o) => StackFrame(o, ctx, s, rest);
    case Combs(o) => CombFrame(o, s, rest);
    case Data(o) => DataFrame(o, s, rest);
    case Number(o) => NumberFrame(o, s, rest);
    case Division(o) => DivisionFrame(o, s, rest);
    case Test(o) => Replace([VBool(Holds(o, s[0].i))], s, rest, 1);
    case Tickets(o) => TicketFrame(o, ctx, s, rest);
  }

  // An instruction that is charged before it takes its operands costs the same over any stack.
  lemma {:induction false} CrashFrame(op: Op, ctx: Ctx, s: Stack, rest: Stack)
    requires OpEffect(op, ctx, s).Charge?
    ensures OpEffect(op, ctx, s + rest).Charge? && OpEffect(op, ctx, s + rest).cost == OpEffect(op, ctx, s).cost
  {
    if !OpEffect(op, ctx, s).after.Crash? { OpFrame(op, ctx, s, rest); }
  }

  lemma {:induction false} PayFrame(op: Op, ctx: Ctx, gas: nat, s: Stack, rest: Stack)
    requires Pay(OpEffect(op, ctx, s), gas) != Panic(false)
    ensures Pay(OpEffect(op, ctx, s + rest), gas) == Over(Pay(OpEffect(op, ctx, s), gas), rest)
  {
    if Proper(OpEffect(op, ctx, s)) { OpFrame(op, ctx, s, rest); } else { CrashFrame(op, ctx, s, rest); }
  }

  /** A run that does not get stuck on s does exactly the same with anything below s, and leaves
      that untouched below its result. */
  lemma {:induction false} SeqFrame(code: seq<Instr>, ctx: Ctx, gas: nat, s: Stack, rest: Stack)
    requires RunSeq(code, ctx, gas, s) != Panic(false)
    ensures RunSeq(code, ctx, gas, s + rest) == Over(RunSeq(code, ctx, gas, s), rest)
    decreases gas, code, 0
  {
    if code != [] {
      OneFrame(code[0], ctx, gas, s, rest);
      var first := RunOne(code[0], ctx, gas, s);
      if first.Done? { SeqFrame(code[1..], ctx, first.gas, first.stack, rest); }
    }
  }

  lemma {:induction false} OneFrame(i: Instr, ctx: Ctx, gas: nat, s: Stack, rest: Stack)
    requires RunOne(i, ctx, gas, s) != Panic(false)
    ensures RunOne(i, ctx, gas, s + rest) == Over(RunOne(i, ctx, gas, s), rest)
    decreases gas, i, 1
  {
    match i
    case Prim(op) => PayFrame(op, ctx, gas, s, rest);
    case Seq(body) => SeqFrame(body, ctx, gas, s, rest);
    case Loop(body) => if Affordable(ENTER, gas) { LoopFrame(body, ctx, gas - ENTER, s, rest); }
    case LoopLeft(body) => if Affordable(ENTER, gas) { LoopLeftFrame(body, ctx, gas - ENTER, s, rest); }
    case Iter(body) =>
      if Affordable(ITER, gas) { Below(s, rest, 1); IterFrame(body, s[0].vs, ctx, gas - ITER, s[1..], rest); }
    case MapList(body) =>
      if Affordable(MAP, gas) { Below(s, rest, 1); MapFrame(body, s[0].vs, [], ctx, gas - MAP, s[1..], rest); }
    case MapOption(body) => MapOptionFrame(body, ctx, gas, s, rest);
    case Dip(h, body) => DipFrame(h, body, ctx, gas, s, rest);
    case Exec => ExecFrame(ctx, gas, s, rest);
    case _ => BranchFrame(i, ctx, gas, s, rest);
  }

  lemma {:induction false} BranchFrame(i: Instr, ctx: Ctx, gas: nat, s: Stack, rest: Stack)
    requires i.If? || i.IfNone? || i.IfCons? || i.IfLeft?
    requires RunOne(i, ctx, gas, s) != Panic(false)
    ensures RunOne(i, ctx, gas, s + rest) == Over(RunOne(i, ctx, gas, s), rest)
    decreases gas, i, 0
  {
    if Affordable(BRANCH, gas) {
      var g := gas - BRANCH;
      Below(s, rest, 1);
      match i
      case If(t, f) => SeqFrame(if s[0].b then t else f, ctx, g, s[1..], rest);
      case IfNone(n, m) =>
        if s[0].VSome? {
          Replace([s[0].v], s, rest, 1);
          SeqFrame(m, ctx, g, [s[0].v] + s[1..], rest);
        } else {
          SeqFrame(n, ctx, g, s[1..], rest);
        }
      case IfCons(c, n) =>
        if s[0].vs == [] {
          SeqFrame(n, ctx, g, s[1..], rest);
        } else {
          Replace([s[0].vs[0], VList(s[0].vs[1..])], s, rest, 1);
          SeqFrame(c, ctx, g, [s[0].vs[0], VList(s[0].vs[1..])] + s[1..], rest);
        }
      case IfLeft(l, r) =>
        Replace([s[0].v], s, rest, 1);
        SeqFrame(if s[0].VLeft? then l else r, ctx, g, [s[0].v] + s[1..], rest);
    }
  }

  lemma {:induction false} LoopFrame(body: seq<Instr>, ctx: Ctx, gas: nat, s: Stack, rest: Stack)
    requires RunLoop(body, ctx, gas, s) != Panic(false)
    ensures RunLoop(body, ctx, gas, s + rest) == Over(RunLoop(body, ctx, gas, s), rest)
    decreases gas, body, 2
  {
    if Affordable(LOOP, gas) {
      Below(s, rest, 1);
      if s[0].b {
        SeqFrame(body, ctx, gas - LOOP, s[1..], rest);
        var r := RunSeq(body, ctx, gas - LOOP, s[1..]);
        if r.Done? { LoopFrame(body, ctx, r.gas, r.stack, rest); }
      }
    }
  }

  lemma {:induction false} LoopLeftFrame(body: seq<Instr>, ctx: Ctx, gas: nat, s: Stack, rest: Stack)
    requires RunLoopLeft(body, ctx, gas, s) != Panic(false)
    ensures RunLoopLeft(body, ctx, gas, s + rest) == Over(RunLoopLeft(body, ctx, gas, s), rest)
    decreases gas, body, 2
  {
    if Affordable(LOOP, gas) {
      Replace([s[0].v], s, rest, 1);
      if s[0].VLeft? {
        SeqFrame(body, ctx, gas - LOOP, [s[0].v] + s[1..], rest);
        var r := RunSeq(body, ctx, gas - LOOP, [s[0].v] + s[1..]);
        if r.Done? { LoopLeftFrame(body, ctx, r.gas, r.stack, rest); }
      }
    }
  }

  lemma {:induction false} IterFrame(body: seq<Instr>, vs: seq<Value>, ctx: Ctx, gas: nat, s: Stack, rest: Stack)
    requires RunIter(body, vs, ctx, gas, s) != Panic(false)
    ensures RunIter(body, vs, ctx, gas, s + rest) == Over(RunIter(body, vs, ctx, gas, s), rest)
    decreases gas, body, 2
  {
    if vs != [] && Affordable(PUSH, gas) {
      Replace([vs[0]], s, rest, 0);
      SeqFrame(body, ctx, gas - PUSH, [vs[0]] + s, rest);
      var r := RunSeq(body, ctx, gas - PUSH, [vs[0]] + s);
      if r.Done? { IterFrame(body, vs[1..], ctx, r.gas, r.stack, rest); }
    }
  }

  lemma {:induction false} MapFrame(body: seq<Instr>, vs: seq<Value>, acc: seq<Value>, ctx: Ctx, gas: nat, s: Stack, rest: Stack)
    requires RunMap(body, vs, acc, ctx, gas, s) != Panic(false)
    ensures RunMap(body, vs, acc, ctx, gas, s + rest) == Over(RunMap(body, vs, acc, ctx, gas, s), rest)
    decreases gas, body, 2
  {
    if vs == [] {
      Replace([VList(acc)], s, rest, 0);
    } else if Affordable(PUSH, gas) {
      Replace([vs[0]], s, rest, 0);
      SeqFrame(body, ctx, gas - PUSH, [vs[0]] + s, rest);
      var r := RunSeq(body, ctx, gas - PUSH, [vs[0]] + s);
      if r.Done? {
        Below(r.stack, rest, 1);
        MapFrame(body, vs[1..], acc + [r.stack[0]], ctx, r.gas, r.stack[1..], rest);
      }
    }
  }

  lemma {:induction false} MapOptionFrame(body: seq<Instr>, ctx: Ctx, gas: nat, s: Stack, rest: Stack)
    requires RunOne(MapOption(body), ctx, gas, s) != Panic(false)
    ensures RunOne(MapOption(body), ctx, gas, s + rest) == Over(RunOne(MapOption(body), ctx, gas, s), rest)
    decreases gas, body, 3
  {
    if Affordable(MAP, gas) && s[0].VSome? && Affordable(PUSH, gas - MAP) {
      var g := gas - MAP - PUSH;
      Replace([s[0].v], s, rest, 1);
      SeqFrame(body, ctx, g, [s[0].v] + s[1..], rest);
      var r := RunSeq(body, ctx, g, [s[0].v] + s[1..]);
      if r.Done? { Replace([VSome(r.stack[0])], r.stack, rest, 1); }
    }
  }

  lemma {:induction false} DipFrame(h: Option<nat>, body: seq<Instr>, ctx: Ctx, gas: nat, s: Stack, rest: Stack)
    requires RunOne(Dip(h, body), ctx, gas, s) != Panic(false)
    ensures RunOne(Dip(h, body), ctx, gas, s + rest) == Over(RunOne(Dip(h, body), ctx, gas, s), rest)
    decreases gas, body, 3
  {
    if Affordable(CostDip(h), gas) {
      var n := HeightOr1(h);
      Below(s, rest, n);
      SeqFrame(body, ctx, gas - CostDip(h), s[n..], rest);
      var r := RunSeq(body, ctx, gas - CostDip(h), s[n..]);
      if r.Done? { assert s[..n] + (r.stack + rest) == s[..n] + r.stack + rest; }
    }
  }

  // A closure runs on a stack of its own, so there is nothing to show about the call itself.
  lemma {:induction false} ExecFrame(ctx: Ctx, gas: nat, s: Stack, rest: Stack)
    requires RunOne(Exec, ctx, gas, s) != Panic(false)
    ensures RunOne(Exec, ctx, gas, s + rest) == Over(RunOne(Exec, ctx, gas, s), rest)
  {
    if Affordable(EXEC, gas) {
      var r := RunClosure(s[1].closure, s[0], ctx, gas - EXEC);
      if r.Done? { Replace([r.stack[0]], s, rest, 2); }
    }
  }

  /** Well-typed code touches nothing below the part of the stack its type mentions, whatever is there. */
  lemma {:induction false} TypedFrame(strict: bool, code: seq<Instr>, ctx: Ctx, gas: nat, s: Stack, st: Types, rest: Stack)
    requires CtxTyped(ctx) && HasTypes(strict, s, st) && !CheckSeq(strict, code, st).TcError?
    ensures RunSeq(code, ctx, gas, s + rest) == Over(RunSeq(code, ctx, gas, s), rest)
    ensures OutcomeFits(strict, RunSeq(code, ctx, gas, s), CheckSeq(strict, code, st))
  {
    SeqSound(strict, code, ctx, gas, s, st);
    SeqFrame(code, ctx, gas, s, rest);
  }
}
