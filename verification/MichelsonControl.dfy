/** What the instructions that run other instructions mean, gas aside: the rules of a big-step semantics, and the
    programs that loops, iterations and maps are equal to. */
module MichelsonControl {
  import opened Michelson
  import opened MichelsonOps
  import opened MichelsonRun
  import opened MichelsonGas
  import opened MichelsonValues

  // With enough gas the code takes s to t.
  ghost predicate Ends(code: seq<Instr>, ctx: Ctx, s: Stack, t: Stack) {
    exists gas: nat :: RunSeq(code, ctx, gas, s).Done? && RunSeq(code, ctx, gas, s).stack == t
  }

  ghost predicate EndsOne(i: Instr, ctx: Ctx, s: Stack, t: Stack) {
    exists gas: nat :: RunOne(i, ctx, gas, s).Done? && RunOne(i, ctx, gas, s).stack == t
  }

  ghost predicate EndsIter(body: seq<Instr>, vs: seq<Value>, ctx: Ctx, s: Stack, t: Stack) {
    exists gas: nat :: RunIter(body, vs, ctx, gas, s).Done? && RunIter(body, vs, ctx, gas, s).stack == t
  }

  ghost predicate EndsMap(body: seq<Instr>, vs: seq<Value>, acc: seq<Value>, ctx: Ctx, s: Stack, t: Stack) {
    exists gas: nat :: RunMap(body, vs, acc, ctx, gas, s).Done? && RunMap(body, vs, acc, ctx, gas, s).stack == t
  }

  ghost predicate EndsLoop(body: seq<Instr>, ctx: Ctx, s: Stack, t: Stack) {
    exists gas: nat :: RunLoop(body, ctx, gas, s).Done? && RunLoop(body, ctx, gas, s).stack == t
  }

  ghost predicate EndsLoopLeft(body: seq<Instr>, ctx: Ctx, s: Stack, t: Stack) {
    exists gas: nat :: RunLoopLeft(body, ctx, gas, s).Done? && RunLoopLeft(body, ctx, gas, s).stack == t
  }

  ghost predicate EndsClosure(c: Closure, arg: Value, ctx: Ctx, t: Stack) {
    exists gas: nat :: RunClosure(c, arg, ctx, gas).Done? && RunClosure(c, arg, ctx, gas).stack == t
  }

  // Two blocks that do the same, gas aside.
  ghost predicate Same(a: seq<Instr>, b: seq<Instr>, ctx: Ctx, s: Stack) {
    forall t :: Ends(a, ctx, s, t) <==> Ends(b, ctx, s, t)
  }

  // ---------------------------------------------------------------- blocks

  // A block of code takes a stack to one stack at most.
  lemma {:induction false} Deterministic(code: seq<Instr>, ctx: Ctx, s: Stack, t: Stack, u: Stack)
    requires Ends(code, ctx, s, t) && Ends(code, ctx, s, u)
    ensures t == u
  {
    var g: nat :| RunSeq(code, ctx, g, s).Done? && RunSeq(code, ctx, g, s).stack == t;
    var h: nat :| RunSeq(code, ctx, h, s).Done? && RunSeq(code, ctx, h, s).stack == u;
    hide RunSeq;
    SeqMoreGas(code, ctx, g, s, h);
    SeqMoreGas(code, ctx, h, s, g);
    assert g + h == h + g;
  }

  lemma {:induction false} NothingEnds(ctx: Ctx, s: Stack, t: Stack)
    ensures Ends([], ctx, s, t) <==> t == s
  {
    assert RunSeq([], ctx, INTERPRET_RET, s) == Done(0, s);
    forall gas: nat | RunSeq([], ctx, gas, s).Done? ensures RunSeq([], ctx, gas, s).stack == s { }
  }

  lemma {:induction false} FirstThenRest(i: Instr, rest: seq<Instr>, ctx: Ctx, s: Stack, t: Stack)
    ensures Ends([i] + rest, ctx, s, t) <==> exists u :: EndsOne(i, ctx, s, u) && Ends(rest, ctx, u, t)
  {
    var code := [i] + rest;
    assert code[0] == i && code[1..] == rest;
    hide RunOne;
    if Ends(code, ctx, s, t) {
      var g: nat :| RunSeq(code, ctx, g, s).Done? && RunSeq(code, ctx, g, s).stack == t;
      var u := RunOne(i, ctx, g, s).stack;
      assert RunSeq(rest, ctx, RunOne(i, ctx, g, s).gas, u) == RunSeq(code, ctx, g, s);
      assert EndsOne(i, ctx, s, u) && Ends(rest, ctx, u, t);
    }
    if u :| EndsOne(i, ctx, s, u) && Ends(rest, ctx, u, t) { RestAfterFirst(i, rest, ctx, s, u, t); }
  }

  lemma {:induction false} RestAfterFirst(i: Instr, rest: seq<Instr>, ctx: Ctx, s: Stack, u: Stack, t: Stack)
    requires EndsOne(i, ctx, s, u) && Ends(rest, ctx, u, t)
    ensures Ends([i] + rest, ctx, s, t)
  {
    var code := [i] + rest;
    assert code[0] == i && code[1..] == rest;
    var g: nat :| RunOne(i, ctx, g, s).Done? && RunOne(i, ctx, g, s).stack == u;
    var h: nat :| RunSeq(rest, ctx, h, u).Done? && RunSeq(rest, ctx, h, u).stack == t;
    hide RunOne;
    OneMoreGas(i, ctx, g, s, h);
    SeqMoreGas(rest, ctx, h, u, RunOne(i, ctx, g, s).gas);
    assert RunSeq(code, ctx, g + h, s).Done?;
  }

  // One instruction on its own.
  lemma {:induction false} Alone(i: Instr, ctx: Ctx, s: Stack, t: Stack)
    ensures Ends([i], ctx, s, t) <==> EndsOne(i, ctx, s, t)
  {
    assert [i] + [] == [i];
    FirstThenRest(i, [], ctx, s, t);
    if EndsOne(i, ctx, s, t) { NothingEnds(ctx, t, t); }
    if u :| EndsOne(i, ctx, s, u) && Ends([], ctx, u, t) { NothingEnds(ctx, u, t); }
  }

  // A block after a block.
  lemma {:induction false} BlockThenBlock(a: seq<Instr>, b: seq<Instr>, ctx: Ctx, s: Stack, t: Stack)
    ensures Ends(a + b, ctx, s, t) <==> exists u :: Ends(a, ctx, s, u) && Ends(b, ctx, u, t)
    decreases |a|
  {
    if a == [] {
      assert a + b == b;
      NothingEnds(ctx, s, s);
      if u :| Ends(a, ctx, s, u) && Ends(b, ctx, u, t) { NothingEnds(ctx, s, u); }
    } else {
      var i, rest := a[0], a[1..];
      assert a == [i] + rest && a + b == [i] + (rest + b);
      FirstThenRest(i, rest + b, ctx, s, t);
      if Ends(a + b, ctx, s, t) {
        var v :| EndsOne(i, ctx, s, v) && Ends(rest + b, ctx, v, t);
        BlockThenBlock(rest, b, ctx, v, t);
        var u :| Ends(rest, ctx, v, u) && Ends(b, ctx, u, t);
        RestAfterFirst(i, rest, ctx, s, v, u);
      }
      if u :| Ends(a, ctx, s, u) && Ends(b, ctx, u, t) {
        FirstThenRest(i, rest, ctx, s, u);
        var v :| EndsOne(i, ctx, s, v) && Ends(rest, ctx, v, u);
        BlockThenBlock(rest, b, ctx, v, t);
        RestAfterFirst(i, rest + b, ctx, s, v, t);
      }
    }
  }

  lemma {:induction false} NestedBlock(body: seq<Instr>, ctx: Ctx, s: Stack, t: Stack)
    ensures EndsOne(Seq(body), ctx, s, t) <==> Ends(body, ctx, s, t)
  {
    forall gas: nat ensures RunOne(Seq(body), ctx, gas, s) == RunSeq(body, ctx, gas, s) { }
    hide RunSeq, RunOne;
    if EndsOne(Seq(body), ctx, s, t) {
      var g: nat :| RunOne(Seq(body), ctx, g, s).Done? && RunOne(Seq(body), ctx, g, s).stack == t;
      assert RunSeq(body, ctx, g, s).Done?;
    }
    if Ends(body, ctx, s, t) {
      var g: nat :| RunSeq(body, ctx, g, s).Done? && RunSeq(body, ctx, g, s).stack == t;
      assert RunOne(Seq(body), ctx, g, s).Done?;
    }
  }

  // An instruction that runs no other one, at a cost of 32 bits.
  lemma {:induction false} PrimEnds(op: Op, ctx: Ctx, s: Stack, t: Stack)
    ensures EndsOne(Prim(op), ctx, s, t) <==> Gives(op, ctx, s, t) && OpEffect(op, ctx, s).cost <= U32_MAX
  {
    hide OpEffect;
    var e := OpEffect(op, ctx, s);
    if Gives(op, ctx, s, t) && e.cost <= U32_MAX { assert RunOne(Prim(op), ctx, e.cost, s) == Done(0, t); }
  }

  // ---------------------------------------------------------------- conditionals

  lemma {:induction false} IfEnds(yes: seq<Instr>, no: seq<Instr>, ctx: Ctx, b: bool, s: Stack, t: Stack)
    ensures EndsOne(If(yes, no), ctx, [VBool(b)] + s, t) <==> Ends(if b then yes else no, ctx, s, t)
  {
    var chosen, i, top := if b then yes else no, If(yes, no), [VBool(b)] + s;
    Rest([VBool(b)], s);
    forall gas: nat ensures RunOne(i, ctx, gas + BRANCH, top) == RunSeq(chosen, ctx, gas, s) { hide RunSeq; }
    Shifted(i, chosen, ctx, top, s, BRANCH, t);
  }

  // A run that first pays k and then is the run of a block ends where the block does.
  lemma {:induction false} Shifted(i: Instr, body: seq<Instr>, ctx: Ctx, s: Stack, u: Stack, k: nat, t: Stack)
    requires forall gas: nat {:trigger RunSeq(body, ctx, gas, u)} :: RunOne(i, ctx, gas + k, s) == RunSeq(body, ctx, gas, u)
    ensures EndsOne(i, ctx, s, t) <==> Ends(body, ctx, u, t)
  {
    hide RunOne, RunSeq;
    if EndsOne(i, ctx, s, t) {
      var g: nat :| RunOne(i, ctx, g, s).Done? && RunOne(i, ctx, g, s).stack == t;
      OneMoreGas(i, ctx, g, s, k);
      assert RunSeq(body, ctx, g, u) == RunOne(i, ctx, g + k, s);
    }
    if Ends(body, ctx, u, t) {
      var g: nat :| RunSeq(body, ctx, g, u).Done? && RunSeq(body, ctx, g, u).stack == t;
      assert RunOne(i, ctx, g + k, s) == RunSeq(body, ctx, g, u);
    }
  }

  lemma {:induction false} IfNoneEnds(none: seq<Instr>, some: seq<Instr>, ctx: Ctx, v: Value, s: Stack, t: Stack)
    ensures EndsOne(IfNone(none, some), ctx, [VNone] + s, t) <==> Ends(none, ctx, s, t)
    ensures EndsOne(IfNone(none, some), ctx, [VSome(v)] + s, t) <==> Ends(some, ctx, [v] + s, t)
  {
    var i := IfNone(none, some);
    Rest([VNone], s);
    Rest([VSome(v)], s);
    forall gas: nat ensures RunOne(i, ctx, gas + BRANCH, [VNone] + s) == RunSeq(none, ctx, gas, s) { hide RunSeq; }
    Shifted(i, none, ctx, [VNone] + s, s, BRANCH, t);
    forall gas: nat ensures RunOne(i, ctx, gas + BRANCH, [VSome(v)] + s) == RunSeq(some, ctx, gas, [v] + s) { hide RunSeq; }
    Shifted(i, some, ctx, [VSome(v)] + s, [v] + s, BRANCH, t);
  }

  lemma {:induction false} IfLeftEnds(left: seq<Instr>, right: seq<Instr>, ctx: Ctx, v: Value, s: Stack, t: Stack)
    ensures EndsOne(IfLeft(left, right), ctx, [VLeft(v)] + s, t) <==> Ends(left, ctx, [v] + s, t)
    ensures EndsOne(IfLeft(left, right), ctx, [VRight(v)] + s, t) <==> Ends(right, ctx, [v] + s, t)
  {
    var i := IfLeft(left, right);
    Rest([VLeft(v)], s);
    Rest([VRight(v)], s);
    forall gas: nat ensures RunOne(i, ctx, gas + BRANCH, [VLeft(v)] + s) == RunSeq(left, ctx, gas, [v] + s) { hide RunSeq; }
    Shifted(i, left, ctx, [VLeft(v)] + s, [v] + s, BRANCH, t);
    forall gas: nat ensures RunOne(i, ctx, gas + BRANCH, [VRight(v)] + s) == RunSeq(right, ctx, gas, [v] + s) { hide RunSeq; }
    Shifted(i, right, ctx, [VRight(v)] + s, [v] + s, BRANCH, t);
  }

  lemma {:induction false} IfConsEnds(cons: seq<Instr>, nil: seq<Instr>, ctx: Ctx, x: Value, xs: seq<Value>, s: Stack, t: Stack)
    ensures EndsOne(IfCons(cons, nil), ctx, [VList([])] + s, t) <==> Ends(nil, ctx, s, t)
    ensures EndsOne(IfCons(cons, nil), ctx, [VList([x] + xs)] + s, t) <==> Ends(cons, ctx, [x, VList(xs)] + s, t)
  {
    var i, none, some := IfCons(cons, nil), [VList([])] + s, [VList([x] + xs)] + s;
    Rest([VList([])], s);
    Rest([VList([x] + xs)], s);
    Rest([x], xs);
    forall gas: nat ensures RunOne(i, ctx, gas + BRANCH, none) == RunSeq(nil, ctx, gas, s) { hide RunSeq; }
    Shifted(i, nil, ctx, none, s, BRANCH, t);
    forall gas: nat ensures RunOne(i, ctx, gas + BRANCH, some) == RunSeq(cons, ctx, gas, [x, VList(xs)] + s) { hide RunSeq; }
    Shifted(i, cons, ctx, some, [x, VList(xs)] + s, BRANCH, t);
  }

  // ---------------------------------------------------------------- DIP

  // DIP n runs its block below the n elements on top, which come back in their order.
  lemma {:induction false} DipEnds(h: Option<nat>, body: seq<Instr>, ctx: Ctx, vs: Stack, s: Stack, t: Stack)
    requires |vs| == HeightOr1(h) && CostDip(h) <= U32_MAX && CostUndip(|vs|) <= U32_MAX
    ensures EndsOne(Dip(h, body), ctx, vs + s, t) <==> exists u :: Ends(body, ctx, s, u) && t == vs + u
  {
    var i := Dip(h, body);
    Rest(vs, s);
    if EndsOne(i, ctx, vs + s, t) {
      var g: nat :| RunOne(i, ctx, g, vs + s).Done? && RunOne(i, ctx, g, vs + s).stack == t;
      hide RunSeq;
      var r := RunSeq(body, ctx, g - CostDip(h), s);
      assert Ends(body, ctx, s, r.stack) && t == vs + r.stack;
    }
    if u :| Ends(body, ctx, s, u) && t == vs + u {
      var g: nat :| RunSeq(body, ctx, g, s).Done? && RunSeq(body, ctx, g, s).stack == u;
      hide RunSeq;
      SeqMoreGas(body, ctx, g, s, CostUndip(|vs|));
      assert RunOne(i, ctx, g + CostUndip(|vs|) + CostDip(h), vs + s).Done?;
    }
  }

  // ---------------------------------------------------------------- LOOP and LOOP_LEFT

  lemma {:induction false} LoopStarts(body: seq<Instr>, ctx: Ctx, s: Stack, t: Stack)
    ensures EndsOne(Loop(body), ctx, s, t) <==> EndsLoop(body, ctx, s, t)
    ensures EndsOne(LoopLeft(body), ctx, s, t) <==> EndsLoopLeft(body, ctx, s, t)
  {
    hide RunLoop, RunLoopLeft;
    var i, j := Loop(body), LoopLeft(body);
    if EndsOne(i, ctx, s, t) {
      var g: nat :| RunOne(i, ctx, g, s).Done? && RunOne(i, ctx, g, s).stack == t;
      assert RunLoop(body, ctx, g - ENTER, s) == RunOne(i, ctx, g, s);
    }
    if EndsLoop(body, ctx, s, t) {
      var g: nat :| RunLoop(body, ctx, g, s).Done? && RunLoop(body, ctx, g, s).stack == t;
      assert RunOne(i, ctx, g + ENTER, s) == RunLoop(body, ctx, g, s);
    }
    if EndsOne(j, ctx, s, t) {
      var g: nat :| RunOne(j, ctx, g, s).Done? && RunOne(j, ctx, g, s).stack == t;
      assert RunLoopLeft(body, ctx, g - ENTER, s) == RunOne(j, ctx, g, s);
    }
    if EndsLoopLeft(body, ctx, s, t) {
      var g: nat :| RunLoopLeft(body, ctx, g, s).Done? && RunLoopLeft(body, ctx, g, s).stack == t;
      assert RunOne(j, ctx, g + ENTER, s) == RunLoopLeft(body, ctx, g, s);
    }
  }

  lemma {:induction false} LoopStops(body: seq<Instr>, ctx: Ctx, s: Stack, t: Stack)
    ensures EndsLoop(body, ctx, [VBool(false)] + s, t) <==> t == s
  {
    Rest([VBool(false)], s);
    assert RunLoop(body, ctx, LOOP + EXIT, [VBool(false)] + s) == Done(0, s);
  }

  lemma {:induction false} LoopGoesOn(body: seq<Instr>, ctx: Ctx, s: Stack, t: Stack)
    ensures EndsLoop(body, ctx, [VBool(true)] + s, t) <==> exists u :: Ends(body, ctx, s, u) && EndsLoop(body, ctx, u, t)
  {
    var top := [VBool(true)] + s;
    Rest([VBool(true)], s);
    if EndsLoop(body, ctx, top, t) {
      var g: nat :| RunLoop(body, ctx, g, top).Done? && RunLoop(body, ctx, g, top).stack == t;
      hide RunSeq;
      var r := RunSeq(body, ctx, g - LOOP, s);
      assert RunLoop(body, ctx, r.gas, r.stack) == RunLoop(body, ctx, g, top);
      assert Ends(body, ctx, s, r.stack) && EndsLoop(body, ctx, r.stack, t);
    }
    if u :| Ends(body, ctx, s, u) && EndsLoop(body, ctx, u, t) {
      var g: nat :| RunSeq(body, ctx, g, s).Done? && RunSeq(body, ctx, g, s).stack == u;
      var h: nat :| RunLoop(body, ctx, h, u).Done? && RunLoop(body, ctx, h, u).stack == t;
      hide RunSeq;
      SeqMoreGas(body, ctx, g, s, h);
      LoopMoreGas(body, ctx, h, u, RunSeq(body, ctx, g, s).gas);
      assert RunLoop(body, ctx, g + h + LOOP, top).Done?;
    }
  }

  lemma {:induction false} LoopLeftStops(body: seq<Instr>, ctx: Ctx, v: Value, s: Stack, t: Stack)
    ensures EndsLoopLeft(body, ctx, [VRight(v)] + s, t) <==> t == [v] + s
  {
    Rest([VRight(v)], s);
    assert RunLoopLeft(body, ctx, LOOP + EXIT, [VRight(v)] + s) == Done(0, [v] + s);
  }

  lemma {:induction false} LoopLeftGoesOn(body: seq<Instr>, ctx: Ctx, v: Value, s: Stack, t: Stack)
    ensures EndsLoopLeft(body, ctx, [VLeft(v)] + s, t)
       <==> exists u :: Ends(body, ctx, [v] + s, u) && EndsLoopLeft(body, ctx, u, t)
  {
    var top := [VLeft(v)] + s;
    Rest([VLeft(v)], s);
    if EndsLoopLeft(body, ctx, top, t) {
      var g: nat :| RunLoopLeft(body, ctx, g, top).Done? && RunLoopLeft(body, ctx, g, top).stack == t;
      hide RunSeq;
      var r := RunSeq(body, ctx, g - LOOP, [v] + s);
      assert RunLoopLeft(body, ctx, r.gas, r.stack) == RunLoopLeft(body, ctx, g, top);
      assert Ends(body, ctx, [v] + s, r.stack) && EndsLoopLeft(body, ctx, r.stack, t);
    }
    if u :| Ends(body, ctx, [v] + s, u) && EndsLoopLeft(body, ctx, u, t) {
      var g: nat :| RunSeq(body, ctx, g, [v] + s).Done? && RunSeq(body, ctx, g, [v] + s).stack == u;
      var h: nat :| RunLoopLeft(body, ctx, h, u).Done? && RunLoopLeft(body, ctx, h, u).stack == t;
      hide RunSeq;
      SeqMoreGas(body, ctx, g, [v] + s, h);
      LoopLeftMoreGas(body, ctx, h, u, RunSeq(body, ctx, g, [v] + s).gas);
      assert RunLoopLeft(body, ctx, g + h + LOOP, top).Done?;
    }
  }

  // LOOP body is IF {body; LOOP body} {}.
  lemma {:induction false} LoopUnrolls(body: seq<Instr>, ctx: Ctx, b: bool, s: Stack)
    ensures Same([Loop(body)], [If(body + [Loop(body)], [])], ctx, [VBool(b)] + s)
  {
    var again := body + [Loop(body)];
    forall t ensures Ends([Loop(body)], ctx, [VBool(b)] + s, t) <==> Ends([If(again, [])], ctx, [VBool(b)] + s, t) {
      Alone(Loop(body), ctx, [VBool(b)] + s, t);
      LoopStarts(body, ctx, [VBool(b)] + s, t);
      Alone(If(again, []), ctx, [VBool(b)] + s, t);
      IfEnds(again, [], ctx, b, s, t);
      if b {
        LoopGoesOn(body, ctx, s, t);
        BlockThenBlock(body, [Loop(body)], ctx, s, t);
        forall u ensures Ends([Loop(body)], ctx, u, t) <==> EndsLoop(body, ctx, u, t) {
          Alone(Loop(body), ctx, u, t);
          LoopStarts(body, ctx, u, t);
        }
      } else {
        LoopStops(body, ctx, s, t);
        NothingEnds(ctx, s, t);
      }
    }
  }

  // LOOP_LEFT body is IF_LEFT {body; LOOP_LEFT body} {}.
  lemma {:induction false} LoopLeftUnrolls(body: seq<Instr>, ctx: Ctx, top: Value, s: Stack)
    requires top.VLeft? || top.VRight?
    ensures Same([LoopLeft(body)], [IfLeft(body + [LoopLeft(body)], [])], ctx, [top] + s)
  {
    var again, v := body + [LoopLeft(body)], top.v;
    forall t ensures Ends([LoopLeft(body)], ctx, [top] + s, t) <==> Ends([IfLeft(again, [])], ctx, [top] + s, t) {
      Alone(LoopLeft(body), ctx, [top] + s, t);
      LoopStarts(body, ctx, [top] + s, t);
      Alone(IfLeft(again, []), ctx, [top] + s, t);
      IfLeftEnds(again, [], ctx, v, s, t);
      if top.VLeft? {
        LoopLeftGoesOn(body, ctx, v, s, t);
        BlockThenBlock(body, [LoopLeft(body)], ctx, [v] + s, t);
        forall u ensures Ends([LoopLeft(body)], ctx, u, t) <==> EndsLoopLeft(body, ctx, u, t) {
          Alone(LoopLeft(body), ctx, u, t);
          LoopStarts(body, ctx, u, t);
        }
      } else {
        LoopLeftStops(body, ctx, v, s, t);
        NothingEnds(ctx, [v] + s, t);
      }
    }
  }

  // ---------------------------------------------------------------- conditionals that rebuild what they took apart

  lemma {:induction false} BlockOfOne(op: Op, ctx: Ctx, s: Stack, t: Stack)
    requires OpEffect(op, ctx, s).Charge? && OpEffect(op, ctx, s).cost <= U32_MAX
    ensures Ends([Prim(op)], ctx, s, t) <==> Gives(op, ctx, s, t)
  {
    Alone(Prim(op), ctx, s, t);
    PrimEnds(op, ctx, s, t);
  }

  // IF {PUSH true} {PUSH false} does nothing to a boolean.
  lemma {:induction false} IfRebuilds(ctx: Ctx, b: bool, s: Stack)
    ensures Same([If([Prim(Stack(Push(TBool, VBool(true))))], [Prim(Stack(Push(TBool, VBool(false))))])], [], ctx, [VBool(b)] + s)
  {
    var yes, no := Stack(Push(TBool, VBool(true))), Stack(Push(TBool, VBool(false)));
    var i := If([Prim(yes)], [Prim(no)]);
    forall t ensures Ends([i], ctx, [VBool(b)] + s, t) <==> Ends([], ctx, [VBool(b)] + s, t) {
      Alone(i, ctx, [VBool(b)] + s, t);
      IfEnds([Prim(yes)], [Prim(no)], ctx, b, s, t);
      BlockOfOne(if b then yes else no, ctx, s, t);
      NothingEnds(ctx, [VBool(b)] + s, t);
    }
  }

  // IF_NONE {NONE} {SOME} does nothing to an option.
  lemma {:induction false} IfNoneRebuilds(ctx: Ctx, ty: Type, top: Value, s: Stack)
    requires top.VNone? || top.VSome?
    ensures Same([IfNone([Prim(Data(INone(ty)))], [Prim(Data(ISome))])], [], ctx, [top] + s)
  {
    var none, some := [Prim(Data(INone(ty)))], [Prim(Data(ISome))];
    forall t ensures Ends([IfNone(none, some)], ctx, [top] + s, t) <==> Ends([], ctx, [top] + s, t) {
      Alone(IfNone(none, some), ctx, [top] + s, t);
      NothingEnds(ctx, [top] + s, t);
      var v := if top.VSome? then top.v else VUnit;
      IfNoneEnds(none, some, ctx, v, s, t);
      if top.VSome? {
        Rest([v], s);
        BlockOfOne(Data(ISome), ctx, [v] + s, t);
      } else {
        BlockOfOne(Data(INone(ty)), ctx, s, t);
      }
    }
  }

  // IF_LEFT {LEFT} {RIGHT} does nothing to a union.
  lemma {:induction false} IfLeftRebuilds(ctx: Ctx, a: Type, b: Type, top: Value, s: Stack)
    requires top.VLeft? || top.VRight?
    ensures Same([IfLeft([Prim(Data(Left(a)))], [Prim(Data(Right(b)))])], [], ctx, [top] + s)
  {
    var left, right := [Prim(Data(Left(a)))], [Prim(Data(Right(b)))];
    forall t ensures Ends([IfLeft(left, right)], ctx, [top] + s, t) <==> Ends([], ctx, [top] + s, t) {
      Alone(IfLeft(left, right), ctx, [top] + s, t);
      NothingEnds(ctx, [top] + s, t);
      IfLeftEnds(left, right, ctx, top.v, s, t);
      Rest([top.v], s);
      BlockOfOne(if top.VLeft? then Data(Left(a)) else Data(Right(b)), ctx, [top.v] + s, t);
    }
  }

  // IF_CONS {CONS} {NIL} does nothing to a list.
  lemma {:induction false} IfConsRebuilds(ctx: Ctx, ty: Type, vs: seq<Value>, s: Stack)
    ensures Same([IfCons([Prim(Data(Cons))], [Prim(Data(Nil(ty)))])], [], ctx, [VList(vs)] + s)
  {
    var cons, nil := [Prim(Data(Cons))], [Prim(Data(Nil(ty)))];
    forall t ensures Ends([IfCons(cons, nil)], ctx, [VList(vs)] + s, t) <==> Ends([], ctx, [VList(vs)] + s, t) {
      Alone(IfCons(cons, nil), ctx, [VList(vs)] + s, t);
      NothingEnds(ctx, [VList(vs)] + s, t);
      if vs == [] {
        IfConsEnds(cons, nil, ctx, VUnit, [], s, t);
        BlockOfOne(Data(Nil(ty)), ctx, s, t);
      } else {
        assert [vs[0]] + vs[1..] == vs;
        IfConsEnds(cons, nil, ctx, vs[0], vs[1..], s, t);
        Rest([vs[0], VList(vs[1..])], s);
        BlockOfOne(Data(Cons), ctx, [vs[0], VList(vs[1..])] + s, t);
      }
    }
  }

  // ---------------------------------------------------------------- ITER

  lemma {:induction false} IterStarts(body: seq<Instr>, vs: seq<Value>, ctx: Ctx, s: Stack, t: Stack)
    ensures EndsOne(Iter(body), ctx, [VList(vs)] + s, t) <==> EndsIter(body, vs, ctx, s, t)
  {
    hide RunIter;
    var i, top := Iter(body), [VList(vs)] + s;
    Rest([VList(vs)], s);
    if EndsOne(i, ctx, top, t) {
      var g: nat :| RunOne(i, ctx, g, top).Done? && RunOne(i, ctx, g, top).stack == t;
      assert RunIter(body, vs, ctx, g - ITER, s) == RunOne(i, ctx, g, top);
    }
    if EndsIter(body, vs, ctx, s, t) {
      var g: nat :| RunIter(body, vs, ctx, g, s).Done? && RunIter(body, vs, ctx, g, s).stack == t;
      assert RunOne(i, ctx, g + ITER, top) == RunIter(body, vs, ctx, g, s);
    }
  }

  lemma {:induction false} IterStops(body: seq<Instr>, ctx: Ctx, s: Stack, t: Stack)
    ensures EndsIter(body, [], ctx, s, t) <==> t == s
  {
    assert RunIter(body, [], ctx, 0, s) == Done(0, s);
  }

  lemma {:induction false} IterGoesOn(body: seq<Instr>, vs: seq<Value>, ctx: Ctx, s: Stack, t: Stack)
    requires vs != []
    ensures EndsIter(body, vs, ctx, s, t)
       <==> exists u :: Ends(body, ctx, [vs[0]] + s, u) && EndsIter(body, vs[1..], ctx, u, t)
  {
    var top := [vs[0]] + s;
    if EndsIter(body, vs, ctx, s, t) {
      var g: nat :| RunIter(body, vs, ctx, g, s).Done? && RunIter(body, vs, ctx, g, s).stack == t;
      hide RunSeq;
      var r := RunSeq(body, ctx, g - PUSH, top);
      assert RunIter(body, vs[1..], ctx, r.gas, r.stack) == RunIter(body, vs, ctx, g, s);
      assert Ends(body, ctx, top, r.stack) && EndsIter(body, vs[1..], ctx, r.stack, t);
    }
    if u :| Ends(body, ctx, top, u) && EndsIter(body, vs[1..], ctx, u, t) {
      var g: nat :| RunSeq(body, ctx, g, top).Done? && RunSeq(body, ctx, g, top).stack == u;
      var h: nat :| RunIter(body, vs[1..], ctx, h, u).Done? && RunIter(body, vs[1..], ctx, h, u).stack == t;
      hide RunSeq;
      SeqMoreGas(body, ctx, g, top, h);
      IterMoreGas(body, vs[1..], ctx, h, u, RunSeq(body, ctx, g, top).gas);
      assert RunIter(body, vs, ctx, g + h + PUSH, s).Done?;
    }
  }

  // The body takes each stack, with the next element on top, to the following stack.
  ghost predicate Visits(body: seq<Instr>, ctx: Ctx, vs: seq<Value>, states: seq<Stack>) {
    |states| == |vs| + 1 && forall k :: 0 <= k < |vs| ==> Ends(body, ctx, [vs[k]] + states[k], states[k + 1])
  }

  lemma {:induction false} VisitFirst(body: seq<Instr>, ctx: Ctx, vs: seq<Value>, first: Stack, states: seq<Stack>)
    requires vs != [] && Visits(body, ctx, vs[1..], states) && Ends(body, ctx, [vs[0]] + first, states[0])
    ensures Visits(body, ctx, vs, [first] + states)
  {
    var all := [first] + states;
    forall k | 0 <= k < |vs| ensures Ends(body, ctx, [vs[k]] + all[k], all[k + 1]) {
      if k > 0 { assert vs[1..][k - 1] == vs[k] && states[k - 1] == all[k] && states[k] == all[k + 1]; }
    }
  }

  lemma {:induction false} VisitRest(body: seq<Instr>, ctx: Ctx, vs: seq<Value>, states: seq<Stack>)
    requires vs != [] && Visits(body, ctx, vs, states)
    ensures Ends(body, ctx, [vs[0]] + states[0], states[1]) && Visits(body, ctx, vs[1..], states[1..])
  {
    forall k | 0 <= k < |vs[1..]| ensures Ends(body, ctx, [vs[1..][k]] + states[1..][k], states[1..][k + 1]) {
      assert vs[1..][k] == vs[k + 1] && states[1..][k] == states[k + 1];
    }
  }

  // ITER visits the elements in order, each on the stack the one before it left.
  lemma {:induction false} IterExactly(body: seq<Instr>, vs: seq<Value>, ctx: Ctx, s: Stack, t: Stack)
    ensures EndsIter(body, vs, ctx, s, t)
       <==> exists states :: Visits(body, ctx, vs, states) && states[0] == s && states[|vs|] == t
    decreases |vs|
  {
    if vs == [] {
      IterStops(body, ctx, s, t);
      assert Visits(body, ctx, vs, [s]) && [s][0] == s;
    } else {
      IterGoesOn(body, vs, ctx, s, t);
      if EndsIter(body, vs, ctx, s, t) {
        var u :| Ends(body, ctx, [vs[0]] + s, u) && EndsIter(body, vs[1..], ctx, u, t);
        IterExactly(body, vs[1..], ctx, u, t);
        var states :| Visits(body, ctx, vs[1..], states) && states[0] == u && states[|vs[1..]|] == t;
        VisitFirst(body, ctx, vs, s, states);
        assert ([s] + states)[0] == s && ([s] + states)[|vs|] == t;
      }
      if states :| Visits(body, ctx, vs, states) && states[0] == s && states[|vs|] == t {
        VisitRest(body, ctx, vs, states);
        assert states[1..][0] == states[1] && states[1..][|vs[1..]|] == t;
        IterExactly(body, vs[1..], ctx, states[1], t);
      }
    }
  }

  // ---------------------------------------------------------------- MAP

  lemma {:induction false} MapStarts(body: seq<Instr>, vs: seq<Value>, ctx: Ctx, s: Stack, t: Stack)
    ensures EndsOne(MapList(body), ctx, [VList(vs)] + s, t) <==> EndsMap(body, vs, [], ctx, s, t)
  {
    hide RunMap;
    var i, top := MapList(body), [VList(vs)] + s;
    Rest([VList(vs)], s);
    if EndsOne(i, ctx, top, t) {
      var g: nat :| RunOne(i, ctx, g, top).Done? && RunOne(i, ctx, g, top).stack == t;
      assert RunMap(body, vs, [], ctx, g - MAP, s) == RunOne(i, ctx, g, top);
    }
    if EndsMap(body, vs, [], ctx, s, t) {
      var g: nat :| RunMap(body, vs, [], ctx, g, s).Done? && RunMap(body, vs, [], ctx, g, s).stack == t;
      assert RunOne(i, ctx, g + MAP, top) == RunMap(body, vs, [], ctx, g, s);
    }
  }

  lemma {:induction false} MapStops(body: seq<Instr>, acc: seq<Value>, ctx: Ctx, s: Stack, t: Stack)
    ensures EndsMap(body, [], acc, ctx, s, t) <==> t == [VList(acc)] + s
  {
    assert RunMap(body, [], acc, ctx, 0, s) == Done(0, [VList(acc)] + s);
  }

  lemma {:induction false} MapGoesOn(body: seq<Instr>, vs: seq<Value>, acc: seq<Value>, ctx: Ctx, s: Stack, t: Stack)
    requires vs != []
    ensures EndsMap(body, vs, acc, ctx, s, t)
       <==> exists y, u :: Ends(body, ctx, [vs[0]] + s, [y] + u) && EndsMap(body, vs[1..], acc + [y], ctx, u, t)
  {
    var top := [vs[0]] + s;
    if EndsMap(body, vs, acc, ctx, s, t) {
      var g: nat :| RunMap(body, vs, acc, ctx, g, s).Done? && RunMap(body, vs, acc, ctx, g, s).stack == t;
      hide RunSeq;
      var r := RunSeq(body, ctx, g - PUSH, top);
      var y, u := r.stack[0], r.stack[1..];
      assert r.stack == [y] + u;
      assert RunMap(body, vs[1..], acc + [y], ctx, r.gas, u) == RunMap(body, vs, acc, ctx, g, s);
      assert Ends(body, ctx, top, [y] + u) && EndsMap(body, vs[1..], acc + [y], ctx, u, t);
    }
    if y, u :| Ends(body, ctx, top, [y] + u) && EndsMap(body, vs[1..], acc + [y], ctx, u, t) {
      Rest([y], u);
      var g: nat :| RunSeq(body, ctx, g, top).Done? && RunSeq(body, ctx, g, top).stack == [y] + u;
      var h: nat :| RunMap(body, vs[1..], acc + [y], ctx, h, u).Done? && RunMap(body, vs[1..], acc + [y], ctx, h, u).stack == t;
      hide RunSeq;
      SeqMoreGas(body, ctx, g, top, h);
      MapMoreGas(body, vs[1..], acc + [y], ctx, h, u, RunSeq(body, ctx, g, top).gas);
      assert RunMap(body, vs, acc, ctx, g + h + PUSH, s).Done?;
    }
  }

  // The body takes each stack, with the next element on top, to its image on top of the following stack.
  ghost predicate Maps(body: seq<Instr>, ctx: Ctx, vs: seq<Value>, out: seq<Value>, states: seq<Stack>) {
    && |out| == |vs| && |states| == |vs| + 1
    && forall k :: 0 <= k < |vs| ==> Ends(body, ctx, [vs[k]] + states[k], [out[k]] + states[k + 1])
  }

  lemma {:induction false} MapFirst(
    body: seq<Instr>, ctx: Ctx, vs: seq<Value>, first: Stack, y: Value, out: seq<Value>, states: seq<Stack>)
    requires vs != [] && Maps(body, ctx, vs[1..], out, states) && Ends(body, ctx, [vs[0]] + first, [y] + states[0])
    ensures Maps(body, ctx, vs, [y] + out, [first] + states)
  {
    var all, ys := [first] + states, [y] + out;
    forall k | 0 <= k < |vs| ensures Ends(body, ctx, [vs[k]] + all[k], [ys[k]] + all[k + 1]) {
      if k > 0 { assert vs[1..][k - 1] == vs[k] && out[k - 1] == ys[k] && states[k - 1] == all[k] && states[k] == all[k + 1]; }
    }
  }

  lemma {:induction false} MapRest(body: seq<Instr>, ctx: Ctx, vs: seq<Value>, out: seq<Value>, states: seq<Stack>)
    requires vs != [] && Maps(body, ctx, vs, out, states)
    ensures Ends(body, ctx, [vs[0]] + states[0], [out[0]] + states[1]) && Maps(body, ctx, vs[1..], out[1..], states[1..])
  {
    forall k | 0 <= k < |vs[1..]|
      ensures Ends(body, ctx, [vs[1..][k]] + states[1..][k], [out[1..][k]] + states[1..][k + 1])
    {
      assert vs[1..][k] == vs[k + 1] && out[1..][k] == out[k + 1] && states[1..][k] == states[k + 1];
    }
  }

  // The images collected from here on, and the stack they leave.
  ghost predicate Collects(
    body: seq<Instr>, ctx: Ctx, vs: seq<Value>, acc: seq<Value>, s: Stack, t: Stack, out: seq<Value>, states: seq<Stack>)
  {
    Maps(body, ctx, vs, out, states) && states[0] == s && t == [VList(acc + out)] + states[|vs|]
  }

  lemma {:induction false} MapCollects(body: seq<Instr>, vs: seq<Value>, acc: seq<Value>, ctx: Ctx, s: Stack, t: Stack)
    returns (out: seq<Value>, states: seq<Stack>)
    requires EndsMap(body, vs, acc, ctx, s, t)
    ensures Collects(body, ctx, vs, acc, s, t, out, states)
    decreases |vs|
  {
    hide Ends, EndsMap;
    if vs == [] {
      MapStops(body, acc, ctx, s, t);
      out, states := [], [s];
      assert acc + [] == acc;
    } else {
      MapGoesOn(body, vs, acc, ctx, s, t);
      var y, u :| Ends(body, ctx, [vs[0]] + s, [y] + u) && EndsMap(body, vs[1..], acc + [y], ctx, u, t);
      out, states := MapCollects(body, vs[1..], acc + [y], ctx, u, t);
      MapFirst(body, ctx, vs, s, y, out, states);
      assert acc + [y] + out == acc + ([y] + out) && ([s] + states)[|vs|] == states[|vs[1..]|];
      out, states := [y] + out, [s] + states;
    }
  }

  lemma {:induction false} CollectedEnds(
    body: seq<Instr>, vs: seq<Value>, acc: seq<Value>, ctx: Ctx, s: Stack, t: Stack, out: seq<Value>, states: seq<Stack>)
    requires Collects(body, ctx, vs, acc, s, t, out, states)
    ensures EndsMap(body, vs, acc, ctx, s, t)
    decreases |vs|
  {
    hide Ends, EndsMap;
    if vs == [] {
      MapStops(body, acc, ctx, s, t);
      assert acc + out == acc;
    } else {
      MapRest(body, ctx, vs, out, states);
      assert acc + [out[0]] + out[1..] == acc + out && states[1..][|vs[1..]|] == states[|vs|];
      CollectedEnds(body, vs[1..], acc + [out[0]], ctx, states[1], t, out[1..], states[1..]);
      MapGoesOn(body, vs, acc, ctx, s, t);
    }
  }

  /** MAP leaves the list of the images, in the order of the elements: image k is what the body leaves on top for
      element k, run on the stack that the images before it have left. */
  lemma {:induction false} MapExactly(body: seq<Instr>, vs: seq<Value>, ctx: Ctx, s: Stack, t: Stack)
    ensures EndsOne(MapList(body), ctx, [VList(vs)] + s, t)
       <==> exists out, states ::
              Maps(body, ctx, vs, out, states) && states[0] == s && t == [VList(out)] + states[|vs|]
  {
    hide Ends, EndsMap, EndsOne;
    MapStarts(body, vs, ctx, s, t);
    if EndsMap(body, vs, [], ctx, s, t) {
      var out, states := MapCollects(body, vs, [], ctx, s, t);
      assert [] + out == out;
    }
    if out, states :| Maps(body, ctx, vs, out, states) && states[0] == s && t == [VList(out)] + states[|vs|] {
      assert [] + out == out;
      CollectedEnds(body, vs, [], ctx, s, t, out, states);
    }
  }

  // MAP of a completed run with an empty block leaves the stack as it was.
  lemma {:induction false} MapNothing(ctx: Ctx, gas: nat, s: Stack)
    requires RunOne(MapList([]), ctx, gas, s).Done?
    ensures RunOne(MapList([]), ctx, gas, s).stack == s
  {
    var t, vs, rest := RunOne(MapList([]), ctx, gas, s).stack, s[0].vs, s[1..];
    assert s == [VList(vs)] + rest && EndsOne(MapList([]), ctx, s, t);
    hide RunOne;
    MapExactly([], vs, ctx, rest, t);
    var out, states :| Maps([], ctx, vs, out, states) && states[0] == rest && t == [VList(out)] + states[|vs|];
    UnchangedUpTo(ctx, vs, out, states, |vs|);
    assert out == vs;
  }

  lemma {:induction false} UnchangedUpTo(ctx: Ctx, vs: seq<Value>, out: seq<Value>, states: seq<Stack>, n: nat)
    requires Maps([], ctx, vs, out, states) && n <= |vs|
    ensures out[..n] == vs[..n] && states[n] == states[0]
  {
    if n > 0 {
      UnchangedUpTo(ctx, vs, out, states, n - 1);
      NothingEnds(ctx, [vs[n - 1]] + states[n - 1], [out[n - 1]] + states[n]);
      Rest([vs[n - 1]], states[n - 1]);
      Rest([out[n - 1]], states[n]);
      assert out[n - 1] == vs[n - 1];
      assert out[..n] == out[..n - 1] + [out[n - 1]] && vs[..n] == vs[..n - 1] + [vs[n - 1]];
    }
  }

  // MAP on an option.
  lemma {:induction false} MapOptionEnds(body: seq<Instr>, ctx: Ctx, v: Value, s: Stack, t: Stack)
    ensures EndsOne(MapOption(body), ctx, [VNone] + s, t) <==> t == [VNone] + s
    ensures EndsOne(MapOption(body), ctx, [VSome(v)] + s, t)
       <==> exists y, u :: Ends(body, ctx, [v] + s, [y] + u) && t == [VSome(y)] + u
  {
    var i, top := MapOption(body), [VSome(v)] + s;
    Rest([VSome(v)], s);
    assert RunOne(i, ctx, MAP, [VNone] + s) == Done(0, [VNone] + s);
    if EndsOne(i, ctx, top, t) {
      var g: nat :| RunOne(i, ctx, g, top).Done? && RunOne(i, ctx, g, top).stack == t;
      hide RunSeq;
      var r := RunSeq(body, ctx, g - MAP - PUSH, [v] + s);
      assert r.stack == [r.stack[0]] + r.stack[1..];
      assert Ends(body, ctx, [v] + s, [r.stack[0]] + r.stack[1..]);
    }
    if y, u :| Ends(body, ctx, [v] + s, [y] + u) && t == [VSome(y)] + u {
      Rest([y], u);
      var g: nat :| RunSeq(body, ctx, g, [v] + s).Done? && RunSeq(body, ctx, g, [v] + s).stack == [y] + u;
      hide RunSeq;
      assert RunOne(i, ctx, g + MAP + PUSH, top).Done?;
    }
  }

  // ---------------------------------------------------------------- EXEC and APPLY

  lemma {:induction false} ExecEnds(c: Closure, arg: Value, ctx: Ctx, s: Stack, t: Stack)
    ensures EndsOne(Exec, ctx, [arg, VLambda(c)] + s, t)
       <==> exists y, u :: EndsClosure(c, arg, ctx, [y] + u) && t == [y] + s
  {
    var top := [arg, VLambda(c)] + s;
    Rest([arg, VLambda(c)], s);
    hide RunClosure;
    if EndsOne(Exec, ctx, top, t) {
      var g: nat :| RunOne(Exec, ctx, g, top).Done? && RunOne(Exec, ctx, g, top).stack == t;
      var r := RunClosure(c, arg, ctx, g - EXEC);
      assert r.stack == [r.stack[0]] + r.stack[1..];
      assert EndsClosure(c, arg, ctx, [r.stack[0]] + r.stack[1..]);
    }
    if y, u :| EndsClosure(c, arg, ctx, [y] + u) && t == [y] + s {
      var g: nat :| RunClosure(c, arg, ctx, g).Done? && RunClosure(c, arg, ctx, g).stack == [y] + u;
      assert RunOne(Exec, ctx, g + EXEC, top).Done?;
    }
  }

  // A lambda runs its code on its argument alone, or above itself if it is recursive.
  lemma {:induction false} LambdaEnds(lam: Lambda, arg: Value, ctx: Ctx, t: Stack)
    ensures EndsClosure(Simple(lam), arg, ctx, t)
       <==> Ends(lam.code, ctx, if lam.recursive then [arg, VLambda(Simple(lam))] else [arg], t)
  {
    hide RunSeq;
    var start := StartStack(lam, arg);
    forall gas: nat ensures RunClosure(Simple(lam), arg, ctx, gas) == RunSeq(lam.code, ctx, gas, start) { }
    if EndsClosure(Simple(lam), arg, ctx, t) {
      var g: nat :| RunClosure(Simple(lam), arg, ctx, g).Done? && RunClosure(Simple(lam), arg, ctx, g).stack == t;
      assert RunSeq(lam.code, ctx, g, start).Done?;
    }
    if Ends(lam.code, ctx, start, t) {
      var g: nat :| RunSeq(lam.code, ctx, g, start).Done? && RunSeq(lam.code, ctx, g, start).stack == t;
      assert RunClosure(Simple(lam), arg, ctx, g).Done?;
    }
  }

  lemma {:induction false} AppliedEnds(ty: Type, v: Value, c: Closure, arg: Value, ctx: Ctx, t: Stack)
    ensures EndsClosure(Applied(ty, v, c), arg, ctx, t) <==> EndsClosure(c, VPair(v, arg), ctx, t)
  {
    var a, pair := Applied(ty, v, c), VPair(v, arg);
    forall gas: nat ensures RunClosure(a, arg, ctx, gas + PAIR) == RunClosure(c, pair, ctx, gas) { }
    if EndsClosure(a, arg, ctx, t) {
      var g: nat :| RunClosure(a, arg, ctx, g).Done? && RunClosure(a, arg, ctx, g).stack == t;
      assert RunClosure(c, pair, ctx, g - PAIR).Done?;
    }
    if EndsClosure(c, pair, ctx, t) {
      var g: nat :| RunClosure(c, pair, ctx, g).Done? && RunClosure(c, pair, ctx, g).stack == t;
      assert RunClosure(a, arg, ctx, g + PAIR).Done?;
    }
  }

  // Executing what APPLY leaves is executing the lambda on the pair of both arguments.
  lemma {:induction false} ExecAfterApply(ty: Type, v: Value, c: Closure, arg: Value, ctx: Ctx, s: Stack, held: Stack, t: Stack)
    requires Gives(Data(Apply(ty)), ctx, [v, VLambda(c)] + s, held)
    ensures EndsOne(Exec, ctx, [arg] + held, t) <==> EndsOne(Exec, ctx, [VPair(v, arg), VLambda(c)] + s, t)
  {
    Rest([v, VLambda(c)], s);
    var a := Applied(ty, v, c);
    assert [arg] + held == [arg, VLambda(a)] + s;
    ExecEnds(a, arg, ctx, s, t);
    ExecEnds(c, VPair(v, arg), ctx, s, t);
    forall u ensures EndsClosure(a, arg, ctx, u) <==> EndsClosure(c, VPair(v, arg), ctx, u) {
      AppliedEnds(ty, v, c, arg, ctx, u);
    }
  }

  // ---------------------------------------------------------------- errors

  // The first block an instruction runs, what it runs on, and what was paid before; None if it runs none.
  datatype Opening = Opening(code: seq<Instr>, start: Stack, paid: nat)

  function Opens(i: Instr, s: Stack): Option<Opening> {
    match i
    case Seq(body) => Some(Opening(body, s, 0))
    case If(yes, no) =>
      if |s| > 0 && s[0].VBool? then Some(Opening(if s[0].b then yes else no, s[1..], BRANCH)) else None
    case IfNone(none, some) =>
      if |s| > 0 && s[0].VSome? then Some(Opening(some, [s[0].v] + s[1..], BRANCH))
      else if |s| > 0 && s[0].VNone? then Some(Opening(none, s[1..], BRANCH)) else None
    case IfCons(cons, nil) =>
      if |s| == 0 || !s[0].VList? then None
      else if s[0].vs == [] then Some(Opening(nil, s[1..], BRANCH))
      else Some(Opening(cons, [s[0].vs[0], VList(s[0].vs[1..])] + s[1..], BRANCH))
    case IfLeft(left, right) =>
      if |s| > 0 && s[0].VLeft? then Some(Opening(left, [s[0].v] + s[1..], BRANCH))
      else if |s| > 0 && s[0].VRight? then Some(Opening(right, [s[0].v] + s[1..], BRANCH)) else None
    case Loop(body) => if |s| > 0 && s[0].VBool? && s[0].b then Some(Opening(body, s[1..], ENTER + LOOP)) else None
    case LoopLeft(body) =>
      if |s| > 0 && s[0].VLeft? then Some(Opening(body, [s[0].v] + s[1..], ENTER + LOOP)) else None
    case Iter(body) =>
      if |s| > 0 && s[0].VList? && s[0].vs != [] then Some(Opening(body, [s[0].vs[0]] + s[1..], ITER + PUSH)) else None
    case MapList(body) =>
      if |s| > 0 && s[0].VList? && s[0].vs != [] then Some(Opening(body, [s[0].vs[0]] + s[1..], MAP + PUSH)) else None
    case MapOption(body) =>
      if |s| > 0 && s[0].VSome? then Some(Opening(body, [s[0].v] + s[1..], MAP + PUSH)) else None
    case Dip(h, body) => if HeightOr1(h) <= |s| then Some(Opening(body, s[HeightOr1(h)..], CostDip(h))) else None
    case Exec =>
      if |s| > 1 && s[1].VLambda? && s[1].closure.Simple?
      then Some(Opening(s[1].closure.lam.code, StartStack(s[1].closure.lam, s[0]), EXEC)) else None
    case Prim(_) => None
  }

  /** An error of the first block an instruction runs is the error of the instruction, with the same gas left. */
  lemma {:induction false} ErrorsEscape(i: Instr, ctx: Ctx, gas: nat, s: Stack, o: Opening, left: nat, e: Error)
    requires Opens(i, s) == Some(o) && o.paid <= gas && o.paid <= U32_MAX
    requires RunSeq(o.code, ctx, gas - o.paid, o.start) == Fails(left, e)
    ensures RunOne(i, ctx, gas, s) == Fails(left, e)
  {
    hide RunSeq;
  }

  // An instruction that raises an error fails with it once it is paid, and ends the block it stands in.
  lemma {:induction false} ErrorsEnd(op: Op, rest: seq<Instr>, ctx: Ctx, gas: nat, s: Stack, e: Error)
    requires Raises(op, ctx, s, e) && Affordable(OpEffect(op, ctx, s).cost, gas)
    ensures RunSeq([Prim(op)] + rest, ctx, gas, s) == Fails(gas - OpEffect(op, ctx, s).cost, e)
  {
    hide OpEffect;
    var code := [Prim(op)] + rest;
    assert code[0] == Prim(op);
  }

  // What comes after a block that fails is not run.
  lemma {:induction false} ErrorsSkip(a: seq<Instr>, b: seq<Instr>, ctx: Ctx, gas: nat, s: Stack)
    requires RunSeq(a, ctx, gas, s).Fails?
    ensures RunSeq(a + b, ctx, gas, s) == RunSeq(a, ctx, gas, s)
    decreases |a|
  {
    hide RunOne;
    if a != [] {
      assert (a + b)[0] == a[0] && (a + b)[1..] == a[1..] + b;
      var first := RunOne(a[0], ctx, gas, s);
      if first.Done? { ErrorsSkip(a[1..], b, ctx, first.gas, first.stack); }
    }
  }
}
