/** Gas only decides whether a run ends: more of it never changes what the run does. */
module MichelsonGas {
  import opened Michelson
  import opened MichelsonOps
  import opened MichelsonRun

  // The same outcome with k more milligas left.
  function WithMore(r: Outcome, k: nat): Outcome {
    match r
    case Done(gas, s) => Done(gas + k, s)
    case Fails(gas, e) => Fails(gas + k, e)
    case OutOfGas => OutOfGas
    case Panic(p) => Panic(p)
  }

  // A run with k more milligas does the same, or gets further only by spending some of them.
  ghost predicate GasOnly(less: Outcome, more: Outcome, k: nat) {
    if less.OutOfGas? then (more.Done? ==> more.gas < k) && (more.Fails? ==> more.gas < k)
    else more == WithMore(less, k)
  }

  lemma {:induction false} SeqMoreGas(code: seq<Instr>, ctx: Ctx, gas: nat, s: Stack, k: nat)
    ensures GasOnly(RunSeq(code, ctx, gas, s), RunSeq(code, ctx, gas + k, s), k)
    decreases gas, code, 0
  {
    if code != [] {
      OneMoreGas(code[0], ctx, gas, s, k);
      var first := RunOne(code[0], ctx, gas, s);
      if first.Done? { SeqMoreGas(code[1..], ctx, first.gas, first.stack, k); }
    }
  }

  lemma {:induction false} OneMoreGas(i: Instr, ctx: Ctx, gas: nat, s: Stack, k: nat)
    ensures GasOnly(RunOne(i, ctx, gas, s), RunOne(i, ctx, gas + k, s), k)
    decreases gas, i, 1
  {
    match i
    case Prim(op) => PayMoreGas(OpEffect(op, ctx, s), gas, k);
    case Seq(body) => SeqMoreGas(body, ctx, gas, s, k);
    case Loop(body) => if Affordable(ENTER, gas) { LoopMoreGas(body, ctx, gas - ENTER, s, k); }
    case LoopLeft(body) => if Affordable(ENTER, gas) { LoopLeftMoreGas(body, ctx, gas - ENTER, s, k); }
    case Iter(body) =>
      if Affordable(ITER, gas) && |s| > 0 && s[0].VList? { IterMoreGas(body, s[0].vs, ctx, gas - ITER, s[1..], k); }
    case MapList(body) =>
      if Affordable(MAP, gas) && |s| > 0 && s[0].VList? { MapMoreGas(body, s[0].vs, [], ctx, gas - MAP, s[1..], k); }
    case Exec =>
      if Affordable(EXEC, gas) && |s| > 1 && s[1].VLambda? {
        ClosureMoreGas(s[1].closure, s[0], ctx, gas - EXEC, k);
      }
    case MapOption(body) => MapOptionMoreGas(body, ctx, gas, s, k);
    case Dip(h, body) => DipMoreGas(h, body, ctx, gas, s, k);
    case _ => BranchMoreGas(i, ctx, gas, s, k);
  }

  lemma {:induction false} PayMoreGas(e: Effect, gas: nat, k: nat)
    ensures GasOnly(Pay(e, gas), Pay(e, gas + k), k)
  {
  }

  lemma {:induction false} MapOptionMoreGas(body: seq<Instr>, ctx: Ctx, gas: nat, s: Stack, k: nat)
    ensures GasOnly(RunOne(MapOption(body), ctx, gas, s), RunOne(MapOption(body), ctx, gas + k, s), k)
    decreases gas, body, 3
  {
    if Affordable(MAP, gas) && Affordable(PUSH, gas - MAP) && |s| > 0 && s[0].VSome? {
      SeqMoreGas(body, ctx, gas - MAP - PUSH, [s[0].v] + s[1..], k);
    }
  }

  lemma {:induction false} DipMoreGas(h: Option<nat>, body: seq<Instr>, ctx: Ctx, gas: nat, s: Stack, k: nat)
    ensures GasOnly(RunOne(Dip(h, body), ctx, gas, s), RunOne(Dip(h, body), ctx, gas + k, s), k)
    decreases gas, body, 3
  {
    if Affordable(CostDip(h), gas) && HeightOr1(h) <= |s| {
      SeqMoreGas(body, ctx, gas - CostDip(h), s[HeightOr1(h)..], k);
    }
  }

  lemma {:induction false} BranchMoreGas(i: Instr, ctx: Ctx, gas: nat, s: Stack, k: nat)
    requires i.If? || i.IfNone? || i.IfCons? || i.IfLeft?
    ensures GasOnly(RunOne(i, ctx, gas, s), RunOne(i, ctx, gas + k, s), k)
    decreases gas, i, 0
  {
    if Affordable(BRANCH, gas) && |s| > 0 {
      var g := gas - BRANCH;
      match i
      case If(t, f) => if s[0].VBool? { SeqMoreGas(if s[0].b then t else f, ctx, g, s[1..], k); }
      case IfNone(n, m) =>
        if s[0].VSome? { SeqMoreGas(m, ctx, g, [s[0].v] + s[1..], k); } else { SeqMoreGas(n, ctx, g, s[1..], k); }
      case IfCons(c, n) =>
        if s[0].VList? && s[0].vs != [] { SeqMoreGas(c, ctx, g, [s[0].vs[0], VList(s[0].vs[1..])] + s[1..], k); }
        else { SeqMoreGas(n, ctx, g, s[1..], k); }
      case IfLeft(l, r) =>
        if s[0].VLeft? { SeqMoreGas(l, ctx, g, [s[0].v] + s[1..], k); }
        else if s[0].VRight? { SeqMoreGas(r, ctx, g, [s[0].v] + s[1..], k); }
    }
  }

  lemma {:induction false} LoopMoreGas(body: seq<Instr>, ctx: Ctx, gas: nat, s: Stack, k: nat)
    ensures GasOnly(RunLoop(body, ctx, gas, s), RunLoop(body, ctx, gas + k, s), k)
    decreases gas, body, 2
  {
    if Affordable(LOOP, gas) && |s| > 0 && s[0].VBool? && s[0].b {
      SeqMoreGas(body, ctx, gas - LOOP, s[1..], k);
      var r := RunSeq(body, ctx, gas - LOOP, s[1..]);
      if r.Done? { LoopMoreGas(body, ctx, r.gas, r.stack, k); }
    }
  }

  lemma {:induction false} LoopLeftMoreGas(body: seq<Instr>, ctx: Ctx, gas: nat, s: Stack, k: nat)
    ensures GasOnly(RunLoopLeft(body, ctx, gas, s), RunLoopLeft(body, ctx, gas + k, s), k)
    decreases gas, body, 2
  {
    if Affordable(LOOP, gas) && |s| > 0 && s[0].VLeft? {
      SeqMoreGas(body, ctx, gas - LOOP, [s[0].v] + s[1..], k);
      var r := RunSeq(body, ctx, gas - LOOP, [s[0].v] + s[1..]);
      if r.Done? { LoopLeftMoreGas(body, ctx, r.gas, r.stack, k); }
    }
  }

  lemma {:induction false} IterMoreGas(body: seq<Instr>, vs: seq<Value>, ctx: Ctx, gas: nat, s: Stack, k: nat)
    ensures GasOnly(RunIter(body, vs, ctx, gas, s), RunIter(body, vs, ctx, gas + k, s), k)
    decreases gas, body, 2
  {
    if vs != [] && Affordable(PUSH, gas) {
      SeqMoreGas(body, ctx, gas - PUSH, [vs[0]] + s, k);
      var r := RunSeq(body, ctx, gas - PUSH, [vs[0]] + s);
      if r.Done? { IterMoreGas(body, vs[1..], ctx, r.gas, r.stack, k); }
    }
  }

  lemma {:induction false} MapMoreGas(body: seq<Instr>, vs: seq<Value>, acc: seq<Value>, ctx: Ctx, gas: nat, s: Stack, k: nat)
    ensures GasOnly(RunMap(body, vs, acc, ctx, gas, s), RunMap(body, vs, acc, ctx, gas + k, s), k)
    decreases gas, body, 2
  {
    if vs != [] && Affordable(PUSH, gas) {
      SeqMoreGas(body, ctx, gas - PUSH, [vs[0]] + s, k);
      var r := RunSeq(body, ctx, gas - PUSH, [vs[0]] + s);
      if r.Done? && r.stack != [] {
        MapMoreGas(body, vs[1..], acc + [r.stack[0]], ctx, r.gas, r.stack[1..], k);
      }
    }
  }

  lemma {:induction false} ClosureMoreGas(c: Closure, arg: Value, ctx: Ctx, gas: nat, k: nat)
    ensures GasOnly(RunClosure(c, arg, ctx, gas), RunClosure(c, arg, ctx, gas + k), k)
    decreases gas, c, 2
  {
    match c
    case Simple(lam) => SeqMoreGas(lam.code, ctx, gas, StartStack(lam, arg), k);
    case Applied(_, v, inner) => if Affordable(PAIR, gas) { ClosureMoreGas(inner, VPair(v, arg), ctx, gas - PAIR, k); }
  }

  /** A run that returns or fails has a price: with that much gas or more it does the same and is
      charged the price, with less it runs out of gas. */
  lemma {:induction false} Price(code: seq<Instr>, ctx: Ctx, gas: nat, s: Stack, h: nat)
    requires RunSeq(code, ctx, gas, s).Done? || RunSeq(code, ctx, gas, s).Fails?
    ensures var r := RunSeq(code, ctx, gas, s);
      var price := gas - r.gas;
      RunSeq(code, ctx, h, s) ==
        if h < price then OutOfGas else if r.Done? then Done(h - price, r.stack) else Fails(h - price, r.e)
  {
    if gas <= h {
      SeqMoreGas(code, ctx, gas, s, h - gas);
    } else {
      SeqMoreGas(code, ctx, h, s, gas - h);
    }
  }
}
