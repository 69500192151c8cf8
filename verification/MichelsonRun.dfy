/** The interpreter as a function: what a run of an instruction returns, and what gas it leaves. */
module MichelsonRun {
  import opened Michelson
  import opened MichelsonOps

  datatype Outcome =
    | Done(gas: nat, stack: Stack)
    | Fails(gas: nat, e: Error)
    | OutOfGas
    | Panic(incomparable: bool)

  // A cost beyond 32 bits is refused before it is charged.
  predicate Affordable(cost: nat, gas: nat) { cost <= U32_MAX && cost <= gas }

  const LOOP: nat := 10
  const ENTER: nat := 10
  const EXIT: nat := 10
  const BRANCH: nat := 10
  const ITER: nat := 20
  const MAP: nat := 10
  const PUSH: nat := 10
  const EXEC: nat := 10
  const PAIR: nat := 10
  const INTERPRET_RET: nat := 15

  // Charge for an effect, then let it happen.
  function Pay(e: Effect, gas: nat): (r: Outcome)
    ensures r.Done? ==> r.gas <= gas
    ensures r.Fails? ==> r.gas <= gas
  {
    match e
    case Stuck => Panic(false)
    case Incomparable => Panic(true)
    case Charge(cost, after) =>
      if !Affordable(cost, gas) then OutOfGas
      else match after
        case Next(t) => Done(gas - cost, t)
        case Raise(e) => Fails(gas - cost, e)
        case Crash => Panic(false)
  }

  // A block: its instructions in order, then the charge for returning.
  function RunSeq(code: seq<Instr>, ctx: Ctx, gas: nat, s: Stack): (r: Outcome)
    ensures r.Done? ==> r.gas + INTERPRET_RET <= gas
    ensures r.Fails? ==> r.gas <= gas
    decreases gas, code, 0
  {
    if code == [] then if Affordable(INTERPRET_RET, gas) then Done(gas - INTERPRET_RET, s) else OutOfGas
    else
      var first := RunOne(code[0], ctx, gas, s);
      if first.Done? then RunSeq(code[1..], ctx, first.gas, first.stack) else first
  }

  function RunOne(i: Instr, ctx: Ctx, gas: nat, s: Stack): (r: Outcome)
    ensures r.Done? ==> r.gas <= gas
    ensures r.Fails? ==> r.gas <= gas
    decreases gas, i, 1
  {
    match i
    case Prim(op) => Pay(OpEffect(op, ctx, s), gas)
    case Seq(body) => RunSeq(body, ctx, gas, s)
    case If(t, f) =>
      if !Affordable(BRANCH, gas) then OutOfGas
      else if |s| == 0 || !s[0].VBool? then Panic(false)
      else RunSeq(if s[0].b then t else f, ctx, gas - BRANCH, s[1..])
    case IfNone(n, m) =>
      if !Affordable(BRANCH, gas) then OutOfGas
      else if |s| > 0 && s[0].VSome? then RunSeq(m, ctx, gas - BRANCH, [s[0].v] + s[1..])
      else if |s| > 0 && s[0].VNone? then RunSeq(n, ctx, gas - BRANCH, s[1..])
      else Panic(false)
    case IfCons(c, n) =>
      if !Affordable(BRANCH, gas) then OutOfGas
      else if |s| == 0 || !s[0].VList? then Panic(false)
      else if s[0].vs == [] then RunSeq(n, ctx, gas - BRANCH, s[1..])
      else RunSeq(c, ctx, gas - BRANCH, [s[0].vs[0], VList(s[0].vs[1..])] + s[1..])
    case IfLeft(l, r) =>
      if !Affordable(BRANCH, gas) then OutOfGas
      else if |s| > 0 && s[0].VLeft? then RunSeq(l, ctx, gas - BRANCH, [s[0].v] + s[1..])
      else if |s| > 0 && s[0].VRight? then RunSeq(r, ctx, gas - BRANCH, [s[0].v] + s[1..])
      else Panic(false)
    case Loop(body) =>
      if !Affordable(ENTER, gas) then OutOfGas else RunLoop(body, ctx, gas - ENTER, s)
    case LoopLeft(body) =>
      if !Affordable(ENTER, gas) then OutOfGas else RunLoopLeft(body, ctx, gas - ENTER, s)
    case Iter(body) =>
      if !Affordable(ITER, gas) then OutOfGas
      else if |s| == 0 || !s[0].VList? then Panic(false)
      else RunIter(body, s[0].vs, ctx, gas - ITER, s[1..])
    case MapList(body) =>
      if !Affordable(MAP, gas) then OutOfGas
      else if |s| == 0 || !s[0].VList? then Panic(false)
      else RunMap(body, s[0].vs, [], ctx, gas - MAP, s[1..])
    case MapOption(body) =>
      if !Affordable(MAP, gas) then OutOfGas
      else if |s| > 0 && s[0].VNone? then Done(gas - MAP, s)
      else if |s| > 0 && s[0].VSome? then
        if !Affordable(PUSH, gas - MAP) then OutOfGas
        else
          var r := RunSeq(body, ctx, gas - MAP - PUSH, [s[0].v] + s[1..]);
          if !r.Done? then r
          else if r.stack == [] then Panic(false)
          else Done(r.gas, [VSome(r.stack[0])] + r.stack[1..])
      else Panic(false)
    case Dip(h, body) =>
      if !Affordable(CostDip(h), gas) then OutOfGas
      else if |s| < HeightOr1(h) then Panic(false)
      else
        var r := RunSeq(body, ctx, gas - CostDip(h), s[HeightOr1(h)..]);
        if !r.Done? then r
        else if !Affordable(CostUndip(HeightOr1(h)), r.gas) then OutOfGas
        else Done(r.gas - CostUndip(HeightOr1(h)), s[..HeightOr1(h)] + r.stack)
    case Exec =>
      if !Affordable(EXEC, gas) then OutOfGas
      else if |s| < 2 || !s[1].VLambda? then Panic(false)
      else
        var r := RunClosure(s[1].closure, s[0], ctx, gas - EXEC);
        if !r.Done? then r
        else if r.stack == [] then Panic(false)
        else Done(r.gas, [r.stack[0]] + s[2..])
  }

  function RunLoop(body: seq<Instr>, ctx: Ctx, gas: nat, s: Stack): (r: Outcome)
    ensures r.Done? ==> r.gas <= gas
    ensures r.Fails? ==> r.gas <= gas
    decreases gas, body, 2
  {
    if !Affordable(LOOP, gas) then OutOfGas
    else if |s| == 0 || !s[0].VBool? then Panic(false)
    else if !s[0].b then if Affordable(EXIT, gas - LOOP) then Done(gas - LOOP - EXIT, s[1..]) else OutOfGas
    else
      var r := RunSeq(body, ctx, gas - LOOP, s[1..]);
      if r.Done? then RunLoop(body, ctx, r.gas, r.stack) else r
  }

  function RunLoopLeft(body: seq<Instr>, ctx: Ctx, gas: nat, s: Stack): (r: Outcome)
    ensures r.Done? ==> r.gas <= gas
    ensures r.Fails? ==> r.gas <= gas
    decreases gas, body, 2
  {
    if !Affordable(LOOP, gas) then OutOfGas
    else if |s| > 0 && s[0].VRight? then
      if Affordable(EXIT, gas - LOOP) then Done(gas - LOOP - EXIT, [s[0].v] + s[1..]) else OutOfGas
    else if |s| > 0 && s[0].VLeft? then
      var r := RunSeq(body, ctx, gas - LOOP, [s[0].v] + s[1..]);
      if r.Done? then RunLoopLeft(body, ctx, r.gas, r.stack) else r
    else Panic(false)
  }

  function RunIter(body: seq<Instr>, vs: seq<Value>, ctx: Ctx, gas: nat, s: Stack): (r: Outcome)
    ensures r.Done? ==> r.gas <= gas
    ensures r.Fails? ==> r.gas <= gas
    decreases gas, body, 2
  {
    if vs == [] then Done(gas, s)
    else if !Affordable(PUSH, gas) then OutOfGas
    else
      var r := RunSeq(body, ctx, gas - PUSH, [vs[0]] + s);
      if r.Done? then RunIter(body, vs[1..], ctx, r.gas, r.stack) else r
  }

  // Collects the mapped values in order and pushes the resulting list.
  function RunMap(body: seq<Instr>, vs: seq<Value>, acc: seq<Value>, ctx: Ctx, gas: nat, s: Stack): (r: Outcome)
    ensures r.Done? ==> r.gas <= gas
    ensures r.Fails? ==> r.gas <= gas
    decreases gas, body, 2
  {
    if vs == [] then Done(gas, [VList(acc)] + s)
    else if !Affordable(PUSH, gas) then OutOfGas
    else
      var r := RunSeq(body, ctx, gas - PUSH, [vs[0]] + s);
      if !r.Done? then r
      else if r.stack == [] then Panic(false)
      else RunMap(body, vs[1..], acc + [r.stack[0]], ctx, r.gas, r.stack[1..])
  }

  // The stack a lambda's code is started on: its argument, above itself if it is recursive.
  function StartStack(lam: Lambda, arg: Value): Stack {
    if lam.recursive then [arg, VLambda(Simple(lam))] else [arg]
  }

  // Applied arguments are paired up first; the result is the whole stack the code leaves.
  function RunClosure(c: Closure, arg: Value, ctx: Ctx, gas: nat): (r: Outcome)
    ensures r.Done? ==> r.gas <= gas
    ensures r.Fails? ==> r.gas <= gas
    decreases gas, c, 2
  {
    match c
    case Simple(lam) => RunSeq(lam.code, ctx, gas, StartStack(lam, arg))
    case Applied(_, v, inner) =>
      if !Affordable(PAIR, gas) then OutOfGas else RunClosure(inner, VPair(v, arg), ctx, gas - PAIR)
  }
}
