/** The interpreter as it is written: one gas counter and a stack, updated in place, with loops. */
module MichelsonMachine {
  import opened Michelson
  import opened MichelsonOps
  import opened MichelsonRun

  // How an instruction returns to its caller.
  datatype Exit = Finished | Failed(e: Error) | Exhausted | Panicked(incomparable: bool)

  // The milligas left; None once a charge could not be met.
  class Gas {
    var milligas: Option<nat>

    constructor (amount: nat)
      ensures milligas == Some(amount)
    {
      milligas := Some(amount);
    }

    /** Charges a cost.  The counter may not be read again once it is exhausted, so callers must know
        that it is not.  A cost that does not fit 32 bits is refused without being charged. */
    method Consume(cost: nat) returns (ok: bool)
      requires milligas.Some?
      modifies this
      ensures ok <==> Affordable(cost, old(milligas).value)
      ensures ok ==> milligas == Some(old(milligas).value - cost)
      ensures !ok && cost <= U32_MAX ==> milligas == None
      ensures cost > U32_MAX ==> milligas == old(milligas)
    {
      if cost > U32_MAX {
        return false;
      }
      milligas := if cost <= milligas.value then Some(milligas.value - cost) else None;
      ok := milligas.Some?;
    }
  }

  class IStack {
    var items: Stack

    constructor (s: Stack)
      ensures items == s
    {
      items := s;
    }

    method Push(v: Value)
      modifies this
      ensures items == [v] + old(items)
    {
      items := [v] + items;
    }

    method Pop() returns (v: Value)
      requires |items| > 0
      modifies this
      ensures old(items) == [v] + items && items == old(items)[1..]
    {
      v := items[0];
      items := items[1..];
    }
  }

  // The exit, the counter and the stack show the given outcome.
  ghost predicate Shows(r: Outcome, exit: Exit, gas: Gas, stack: IStack)
    reads gas, stack
  {
    match r
    case Done(g, s) => exit.Finished? && gas.milligas == Some(g) && stack.items == s
    case Fails(g, e) => exit == Failed(e) && gas.milligas == Some(g)
    case OutOfGas => exit.Exhausted?
    case Panic(p) => exit == Panicked(p)
  }

  method InterpretOp(op: Op, ctx: Ctx, gas: Gas, stack: IStack) returns (exit: Exit)
    requires gas.milligas.Some?
    modifies gas, stack
    ensures Shows(old(Pay(OpEffect(op, ctx, stack.items), gas.milligas.value)), exit, gas, stack)
  {
    var e := OpEffect(op, ctx, stack.items);
    if e.Stuck? || e.Incomparable? {
      return Panicked(e.Incomparable?);
    }
    var ok := gas.Consume(e.cost);
    if !ok {
      return Exhausted;
    }
    match e.after
    case Next(t) => stack.items := t; return Finished;
    case Raise(err) => return Failed(err);
    case Crash => return Panicked(false);
  }

  /** A block of instructions, then the charge for returning. */
  method Interpret(code: seq<Instr>, ctx: Ctx, gas: Gas, stack: IStack) returns (exit: Exit)
    requires gas.milligas.Some?
    modifies gas, stack
    ensures Shows(old(RunSeq(code, ctx, gas.milligas.value, stack.items)), exit, gas, stack)
    decreases gas.milligas.value, code, 0
  {
    ghost var whole := RunSeq(code, ctx, gas.milligas.value, stack.items);
    var k := 0;
    while k < |code|
      invariant k <= |code| && gas.milligas.Some? && gas.milligas.value <= old(gas.milligas).value
      invariant RunSeq(code[k..], ctx, gas.milligas.value, stack.items) == whole
    {
      assert code[k..][0] == code[k] && code[k..][1..] == code[k + 1..];
      exit := InterpretOne(code[k], ctx, gas, stack);
      if !exit.Finished? {
        return;
      }
      k := k + 1;
    }
    var ok := gas.Consume(INTERPRET_RET);
    exit := if ok then Finished else Exhausted;
  }

  method InterpretOne(i: Instr, ctx: Ctx, gas: Gas, stack: IStack) returns (exit: Exit)
    requires gas.milligas.Some?
    modifies gas, stack
    ensures Shows(old(RunOne(i, ctx, gas.milligas.value, stack.items)), exit, gas, stack)
    decreases gas.milligas.value, i, 1
  {
    match i
    case Prim(op) => exit := InterpretOp(op, ctx, gas, stack);
    case Seq(body) => exit := Interpret(body, ctx, gas, stack);
    case Loop(body) => exit := InterpretLoop(body, ctx, gas, stack);
    case LoopLeft(body) => exit := InterpretLoopLeft(body, ctx, gas, stack);
    case Iter(body) => exit := InterpretIter(body, ctx, gas, stack);
    case MapList(body) => exit := InterpretMap(body, ctx, gas, stack);
    case MapOption(body) => exit := InterpretMapOption(body, ctx, gas, stack);
    case Dip(h, body) => exit := InterpretDip(h, body, ctx, gas, stack);
    case Exec => exit := InterpretExec(ctx, gas, stack);
    case _ => exit := InterpretBranch(i, ctx, gas, stack);
  }

  method InterpretBranch(i: Instr, ctx: Ctx, gas: Gas, stack: IStack) returns (exit: Exit)
    requires i.If? || i.IfNone? || i.IfCons? || i.IfLeft?
    requires gas.milligas.Some?
    modifies gas, stack
    ensures Shows(old(RunOne(i, ctx, gas.milligas.value, stack.items)), exit, gas, stack)
    decreases gas.milligas.value, i, 0
  {
    var ok := gas.Consume(BRANCH);
    if !ok {
      return Exhausted;
    }
    if |stack.items| == 0 {
      return Panicked(false);
    }
    var top := stack.Pop();
    match i
    case If(t, f) =>
      if !top.VBool? { return Panicked(false); }
      exit := Interpret(if top.b then t else f, ctx, gas, stack);
    case IfNone(n, m) =>
      if top.VSome? {
        stack.Push(top.v);
        exit := Interpret(m, ctx, gas, stack);
      } else if top.VNone? {
        exit := Interpret(n, ctx, gas, stack);
      } else {
        exit := Panicked(false);
      }
    case IfCons(c, n) =>
      if !top.VList? { return Panicked(false); }
      if top.vs == [] {
        exit := Interpret(n, ctx, gas, stack);
      } else {
        stack.Push(VList(top.vs[1..]));
        stack.Push(top.vs[0]);
        assert stack.items == [top.vs[0], VList(top.vs[1..])] + old(stack.items)[1..];
        exit := Interpret(c, ctx, gas, stack);
      }
    case IfLeft(l, r) =>
      if !top.VLeft? && !top.VRight? { return Panicked(false); }
      stack.Push(top.v);
      exit := Interpret(if top.VLeft? then l else r, ctx, gas, stack);
  }

  method InterpretLoop(body: seq<Instr>, ctx: Ctx, gas: Gas, stack: IStack) returns (exit: Exit)
    requires gas.milligas.Some?
    modifies gas, stack
    ensures Shows(old(RunOne(Loop(body), ctx, gas.milligas.value, stack.items)), exit, gas, stack)
    decreases gas.milligas.value, body, 3
  {
    var ok := gas.Consume(ENTER);
    if !ok {
      return Exhausted;
    }
    ghost var whole := RunLoop(body, ctx, gas.milligas.value, stack.items);
    while true
      invariant gas.milligas.Some? && gas.milligas.value < old(gas.milligas).value
      invariant RunLoop(body, ctx, gas.milligas.value, stack.items) == whole
      decreases gas.milligas.value
    {
      ok := gas.Consume(LOOP);
      if !ok {
        return Exhausted;
      }
      if |stack.items| == 0 || !stack.items[0].VBool? {
        return Panicked(false);
      }
      var again := stack.Pop();
      if !again.b {
        ok := gas.Consume(EXIT);
        return if ok then Finished else Exhausted;
      }
      exit := Interpret(body, ctx, gas, stack);
      if !exit.Finished? {
        return;
      }
    }
  }

  method InterpretLoopLeft(body: seq<Instr>, ctx: Ctx, gas: Gas, stack: IStack) returns (exit: Exit)
    requires gas.milligas.Some?
    modifies gas, stack
    ensures Shows(old(RunOne(LoopLeft(body), ctx, gas.milligas.value, stack.items)), exit, gas, stack)
    decreases gas.milligas.value, body, 3
  {
    var ok := gas.Consume(ENTER);
    if !ok {
      return Exhausted;
    }
    ghost var whole := RunLoopLeft(body, ctx, gas.milligas.value, stack.items);
    while true
      invariant gas.milligas.Some? && gas.milligas.value < old(gas.milligas).value
      invariant RunLoopLeft(body, ctx, gas.milligas.value, stack.items) == whole
      decreases gas.milligas.value
    {
      ok := gas.Consume(LOOP);
      if !ok {
        return Exhausted;
      }
      if |stack.items| == 0 || !(stack.items[0].VLeft? || stack.items[0].VRight?) {
        return Panicked(false);
      }
      var either := stack.Pop();
      stack.Push(either.v);
      if either.VRight? {
        ok := gas.Consume(EXIT);
        return if ok then Finished else Exhausted;
      }
      exit := Interpret(body, ctx, gas, stack);
      if !exit.Finished? {
        return;
      }
    }
  }

  method InterpretIter(body: seq<Instr>, ctx: Ctx, gas: Gas, stack: IStack) returns (exit: Exit)
    requires gas.milligas.Some?
    modifies gas, stack
    ensures Shows(old(RunOne(Iter(body), ctx, gas.milligas.value, stack.items)), exit, gas, stack)
    decreases gas.milligas.value, body, 3
  {
    var ok := gas.Consume(ITER);
    if !ok {
      return Exhausted;
    }
    if |stack.items| == 0 || !stack.items[0].VList? {
      return Panicked(false);
    }
    var list := stack.Pop();
    var vs := list.vs;
    ghost var whole := RunIter(body, vs, ctx, gas.milligas.value, stack.items);
    var k := 0;
    while k < |vs|
      invariant k <= |vs| && gas.milligas.Some? && gas.milligas.value < old(gas.milligas).value
      invariant RunIter(body, vs[k..], ctx, gas.milligas.value, stack.items) == whole
    {
      assert vs[k..][0] == vs[k] && vs[k..][1..] == vs[k + 1..];
      ok := gas.Consume(PUSH);
      if !ok {
        return Exhausted;
      }
      stack.Push(vs[k]);
      exit := Interpret(body, ctx, gas, stack);
      if !exit.Finished? {
        return;
      }
      k := k + 1;
    }
    exit := Finished;
  }

  method InterpretMap(body: seq<Instr>, ctx: Ctx, gas: Gas, stack: IStack) returns (exit: Exit)
    requires gas.milligas.Some?
    modifies gas, stack
    ensures Shows(old(RunOne(MapList(body), ctx, gas.milligas.value, stack.items)), exit, gas, stack)
    decreases gas.milligas.value, body, 3
  {
    var ok := gas.Consume(MAP);
    if !ok {
      return Exhausted;
    }
    if |stack.items| == 0 || !stack.items[0].VList? {
      return Panicked(false);
    }
    var list := stack.Pop();
    var vs := list.vs;
    ghost var whole := RunMap(body, vs, [], ctx, gas.milligas.value, stack.items);
    var k, result := 0, [];
    while k < |vs|
      invariant k <= |vs| && gas.milligas.Some? && gas.milligas.value < old(gas.milligas).value
      invariant RunMap(body, vs[k..], result, ctx, gas.milligas.value, stack.items) == whole
    {
      assert vs[k..][0] == vs[k] && vs[k..][1..] == vs[k + 1..];
      ok := gas.Consume(PUSH);
      if !ok {
        return Exhausted;
      }
      stack.Push(vs[k]);
      exit := Interpret(body, ctx, gas, stack);
      if !exit.Finished? {
        return;
      }
      if |stack.items| == 0 {
        return Panicked(false);
      }
      var v := stack.Pop();
      result := result + [v];
      k := k + 1;
    }
    stack.Push(VList(result));
    exit := Finished;
  }

  method InterpretMapOption(body: seq<Instr>, ctx: Ctx, gas: Gas, stack: IStack) returns (exit: Exit)
    requires gas.milligas.Some?
    modifies gas, stack
    ensures Shows(old(RunOne(MapOption(body), ctx, gas.milligas.value, stack.items)), exit, gas, stack)
    decreases gas.milligas.value, body, 3
  {
    var ok := gas.Consume(MAP);
    if !ok {
      return Exhausted;
    }
    if |stack.items| == 0 || !(stack.items[0].VSome? || stack.items[0].VNone?) {
      return Panicked(false);
    }
    var option := stack.Pop();
    if option.VNone? {
      stack.Push(VNone);
      return Finished;
    }
    ok := gas.Consume(PUSH);
    if !ok {
      return Exhausted;
    }
    stack.Push(option.v);
    exit := Interpret(body, ctx, gas, stack);
    if !exit.Finished? {
      return;
    }
    if |stack.items| == 0 {
      return Panicked(false);
    }
    var v := stack.Pop();
    stack.Push(VSome(v));
  }

  // The protected values are taken off, and put back above what the body leaves.
  method InterpretDip(h: Option<nat>, body: seq<Instr>, ctx: Ctx, gas: Gas, stack: IStack) returns (exit: Exit)
    requires gas.milligas.Some?
    modifies gas, stack
    ensures Shows(old(RunOne(Dip(h, body), ctx, gas.milligas.value, stack.items)), exit, gas, stack)
    decreases gas.milligas.value, body, 3
  {
    var ok := gas.Consume(CostDip(h));
    if !ok {
      return Exhausted;
    }
    var n := HeightOr1(h);
    if |stack.items| < n {
      return Panicked(false);
    }
    var protected := stack.items[..n];
    stack.items := stack.items[n..];
    exit := Interpret(body, ctx, gas, stack);
    if !exit.Finished? {
      return;
    }
    ok := gas.Consume(CostUndip(n));
    if !ok {
      return Exhausted;
    }
    stack.items := protected + stack.items;
  }

  // Applied arguments are paired up in a loop; the code of the lambda runs on a stack of its own.
  method InterpretExec(ctx: Ctx, gas: Gas, stack: IStack) returns (exit: Exit)
    requires gas.milligas.Some?
    modifies gas, stack
    ensures Shows(old(RunOne(Exec, ctx, gas.milligas.value, stack.items)), exit, gas, stack)
    decreases gas.milligas.value, Instr.Exec, 0
  {
    var ok := gas.Consume(EXEC);
    if !ok {
      return Exhausted;
    }
    if |stack.items| < 2 || !stack.items[1].VLambda? {
      return Panicked(false);
    }
    var arg := stack.Pop();
    var lambda := stack.Pop();
    var closure := lambda.closure;
    ghost var whole := RunClosure(closure, arg, ctx, gas.milligas.value);
    while closure.Applied?
      invariant gas.milligas.Some? && gas.milligas.value < old(gas.milligas).value
      invariant RunClosure(closure, arg, ctx, gas.milligas.value) == whole
      invariant stack.items == old(stack.items)[2..]
      decreases closure
    {
      ok := gas.Consume(PAIR);
      if !ok {
        return Exhausted;
      }
      arg := VPair(closure.arg, arg);
      closure := closure.inner;
    }
    var own := new IStack(StartStack(closure.lam, arg));
    exit := Interpret(closure.lam.code, ctx, gas, own);
    if !exit.Finished? {
      return;
    }
    if |own.items| == 0 {
      return Panicked(false);
    }
    var v := own.Pop();
    stack.Push(v);
  }

  /** The walk down a comb by which GET n and UPDATE n find their field. */
  method NthField(n: nat, comb: Value) returns (field: Option<Value>)
    ensures field == Field(n, comb)
  {
    var m, v := n, comb;
    while m > 1 && v.VPair?
      invariant Field(m, v) == Field(n, comb)
    {
      v := v.r;
      m := m - 2;
    }
    field := if m == 0 then Some(v) else if v.VPair? then Some(v.l) else None;
  }
}
