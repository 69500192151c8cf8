/** The supply of every asset over whole runs. */
module MichelsonLedger {
  import opened Michelson
  import opened MichelsonOps
  import opened MichelsonRun
  import opened MichelsonTyping
  import opened MichelsonSoundness
  import opened MichelsonSafety
  import opened MichelsonTickets

  // ---------------------------------------------------------------- what a run creates

  // The block a branching instruction runs next, and the stack it runs on.
  function Chosen(i: Instr, s: Stack): (seq<Instr>, Stack) {
    if s == [] then ([], [])
    else match i
      case If(t, f) => if s[0].VBool? then (if s[0].b then t else f, s[1..]) else ([], [])
      case IfNone(n, m) =>
        if s[0].VSome? then (m, [s[0].v] + s[1..]) else if s[0].VNone? then (n, s[1..]) else ([], [])
      case IfCons(c, n) =>
        if !s[0].VList? then ([], []) else if s[0].vs == [] then (n, s[1..])
        else (c, [s[0].vs[0], VList(s[0].vs[1..])] + s[1..])
      case IfLeft(l, r) =>
        if s[0].VLeft? then (l, [s[0].v] + s[1..]) else if s[0].VRight? then (r, [s[0].v] + s[1..]) else ([], [])
      case _ => ([], [])
  }

  // The sum of what the instructions of a run create, following the run.
  function CreatedSeq(code: seq<Instr>, ctx: Ctx, gas: nat, s: Stack, a: Asset, mints: bool): (n: nat)
    ensures mints && a.ticketer != ctx.self ==> n == 0
    decreases gas, code, 0
  {
    if code == [] then 0
    else
      var first := RunOne(code[0], ctx, gas, s);
      CreatedOne(code[0], ctx, gas, s, a, mints)
      + if first.Done? then CreatedSeq(code[1..], ctx, first.gas, first.stack, a, mints) else 0
  }

  function CreatedOne(i: Instr, ctx: Ctx, gas: nat, s: Stack, a: Asset, mints: bool): (n: nat)
    ensures mints && a.ticketer != ctx.self ==> n == 0
    decreases gas, i, 1
  {
    match i
    case Prim(op) => Created(op, ctx, s, a, mints)
    case Seq(body) => CreatedSeq(body, ctx, gas, s, a, mints)
    case Loop(body) => if Affordable(ENTER, gas) then CreatedLoop(body, ctx, gas - ENTER, s, a, mints) else 0
    case LoopLeft(body) => if Affordable(ENTER, gas) then CreatedLoopLeft(body, ctx, gas - ENTER, s, a, mints) else 0
    case Iter(body) =>
      if Affordable(ITER, gas) && |s| > 0 && s[0].VList?
      then CreatedIter(body, s[0].vs, ctx, gas - ITER, s[1..], a, mints) else 0
    case MapList(body) =>
      if Affordable(MAP, gas) && |s| > 0 && s[0].VList?
      then CreatedMap(body, s[0].vs, ctx, gas - MAP, s[1..], a, mints) else 0
    case MapOption(body) =>
      if Affordable(MAP, gas) && Affordable(PUSH, gas - MAP) && |s| > 0 && s[0].VSome?
      then CreatedSeq(body, ctx, gas - MAP - PUSH, [s[0].v] + s[1..], a, mints) else 0
    case Dip(h, body) =>
      if Affordable(CostDip(h), gas) && HeightOr1(h) <= |s|
      then CreatedSeq(body, ctx, gas - CostDip(h), s[HeightOr1(h)..], a, mints) else 0
    case Exec =>
      if Affordable(EXEC, gas) && |s| > 1 && s[1].VLambda?
      then CreatedClosure(s[1].closure, s[0], ctx, gas - EXEC, a, mints) else 0
    case _ =>
      if Affordable(BRANCH, gas)
      then CreatedSeq(Chosen(i, s).0, ctx, gas - BRANCH, Chosen(i, s).1, a, mints) else 0
  }

  function CreatedLoop(body: seq<Instr>, ctx: Ctx, gas: nat, s: Stack, a: Asset, mints: bool): (n: nat)
    ensures mints && a.ticketer != ctx.self ==> n == 0
    decreases gas, body, 2
  {
    if !Affordable(LOOP, gas) || |s| == 0 || !s[0].VBool? || !s[0].b then 0
    else
      var r := RunSeq(body, ctx, gas - LOOP, s[1..]);
      CreatedSeq(body, ctx, gas - LOOP, s[1..], a, mints)
      + if r.Done? then CreatedLoop(body, ctx, r.gas, r.stack, a, mints) else 0
  }

  function CreatedLoopLeft(body: seq<Instr>, ctx: Ctx, gas: nat, s: Stack, a: Asset, mints: bool): (n: nat)
    ensures mints && a.ticketer != ctx.self ==> n == 0
    decreases gas, body, 2
  {
    if !Affordable(LOOP, gas) || |s| == 0 || !s[0].VLeft? then 0
    else
      var r := RunSeq(body, ctx, gas - LOOP, [s[0].v] + s[1..]);
      CreatedSeq(body, ctx, gas - LOOP, [s[0].v] + s[1..], a, mints)
      + if r.Done? then CreatedLoopLeft(body, ctx, r.gas, r.stack, a, mints) else 0
  }

  function CreatedIter(body: seq<Instr>, vs: seq<Value>, ctx: Ctx, gas: nat, s: Stack, a: Asset, mints: bool): (n: nat)
    ensures mints && a.ticketer != ctx.self ==> n == 0
    decreases gas, body, 2
  {
    if vs == [] || !Affordable(PUSH, gas) then 0
    else
      var r := RunSeq(body, ctx, gas - PUSH, [vs[0]] + s);
      CreatedSeq(body, ctx, gas - PUSH, [vs[0]] + s, a, mints)
      + if r.Done? then CreatedIter(body, vs[1..], ctx, r.gas, r.stack, a, mints) else 0
  }

  function CreatedMap(body: seq<Instr>, vs: seq<Value>, ctx: Ctx, gas: nat, s: Stack, a: Asset, mints: bool): (n: nat)
    ensures mints && a.ticketer != ctx.self ==> n == 0
    decreases gas, body, 2
  {
    if vs == [] || !Affordable(PUSH, gas) then 0
    else
      var r := RunSeq(body, ctx, gas - PUSH, [vs[0]] + s);
      CreatedSeq(body, ctx, gas - PUSH, [vs[0]] + s, a, mints)
      + if r.Done? && r.stack != [] then CreatedMap(body, vs[1..], ctx, r.gas, r.stack[1..], a, mints) else 0
  }

  function CreatedClosure(c: Closure, arg: Value, ctx: Ctx, gas: nat, a: Asset, mints: bool): (n: nat)
    ensures mints && a.ticketer != ctx.self ==> n == 0
    decreases gas, c, 2
  {
    match c
    case Simple(lam) => CreatedSeq(lam.code, ctx, gas, StartStack(lam, arg), a, mints)
    case Applied(_, v, inner) =>
      if Affordable(PAIR, gas) then CreatedClosure(inner, VPair(v, arg), ctx, gas - PAIR, a, mints) else 0
  }

  // ---------------------------------------------------------------- the supply bound

  ghost predicate Within(r: Outcome, bound: nat, a: Asset) { r.Done? ==> Total(r.stack, a) <= bound }

  /** No run, well-typed or not, ends with more of an asset than it started with and created. */
  lemma {:induction false} SeqSupply(code: seq<Instr>, ctx: Ctx, gas: nat, s: Stack, a: Asset)
    ensures Within(RunSeq(code, ctx, gas, s), Total(s, a) + CreatedSeq(code, ctx, gas, s, a, false), a)
    decreases gas, code, 0
  {
    if code != [] {
      OneSupply(code[0], ctx, gas, s, a);
      var first := RunOne(code[0], ctx, gas, s);
      if first.Done? { SeqSupply(code[1..], ctx, first.gas, first.stack, a); }
    }
  }

  lemma {:induction false} OneSupply(i: Instr, ctx: Ctx, gas: nat, s: Stack, a: Asset)
    ensures Within(RunOne(i, ctx, gas, s), Total(s, a) + CreatedOne(i, ctx, gas, s, a, false), a)
    decreases gas, i, 1
  {
    match i
    case Prim(op) => OpSupply(op, ctx, s, a);
    case Seq(body) => SeqSupply(body, ctx, gas, s, a);
    case Loop(body) => if Affordable(ENTER, gas) { LoopSupply(body, ctx, gas - ENTER, s, a); }
    case LoopLeft(body) => if Affordable(ENTER, gas) { LoopLeftSupply(body, ctx, gas - ENTER, s, a); }
    case Iter(body) =>
      if Affordable(ITER, gas) && |s| > 0 && s[0].VList? { IterSupply(body, s[0].vs, ctx, gas - ITER, s[1..], a); }
    case MapList(body) =>
      if Affordable(MAP, gas) && |s| > 0 && s[0].VList? { MapSupply(body, s[0].vs, [], ctx, gas - MAP, s[1..], a); }
    case MapOption(body) => MapOptionSupply(body, ctx, gas, s, a);
    case Dip(h, body) => DipSupply(h, body, ctx, gas, s, a);
    case Exec => ExecSupply(ctx, gas, s, a);
    case _ => BranchSupply(i, ctx, gas, s, a);
  }

  lemma {:induction false} BranchSupply(i: Instr, ctx: Ctx, gas: nat, s: Stack, a: Asset)
    requires i.If? || i.IfNone? || i.IfCons? || i.IfLeft?
    ensures Within(RunOne(i, ctx, gas, s), Total(s, a) + CreatedOne(i, ctx, gas, s, a, false), a)
    decreases gas, i, 0
  {
    if Affordable(BRANCH, gas) && |s| > 0 {
      ChosenTotal(i, s, a);
      SeqSupply(Chosen(i, s).0, ctx, gas - BRANCH, Chosen(i, s).1, a);
    }
  }

  lemma {:induction false} ChosenTotal(i: Instr, s: Stack, a: Asset)
    requires |s| > 0
    ensures Total(Chosen(i, s).1, a) <= Total(s, a)
  {
    match i
    case IfNone(_, _) => if s[0].VSome? { TotalPush(s[0].v, s[1..], a); }
    case IfCons(_, _) =>
      if s[0].VList? && s[0].vs != [] {
        var vs := s[0].vs;
        assert Total(vs, a) == Supply(vs[0], a) + Total(vs[1..], a);
        TotalPush2(vs[0], VList(vs[1..]), s[1..], a);
        assert Supply(VList(vs[1..]), a) == Total(vs[1..], a) && Supply(s[0], a) == Total(vs, a);
      }
    case IfLeft(_, _) => if s[0].VLeft? || s[0].VRight? { TotalPush(s[0].v, s[1..], a); }
    case _ =>
  }

  lemma {:induction false} LoopSupply(body: seq<Instr>, ctx: Ctx, gas: nat, s: Stack, a: Asset)
    ensures Within(RunLoop(body, ctx, gas, s), Total(s, a) + CreatedLoop(body, ctx, gas, s, a, false), a)
    decreases gas, body, 2
  {
    if Affordable(LOOP, gas) && |s| > 0 && s[0].VBool? && s[0].b {
      SeqSupply(body, ctx, gas - LOOP, s[1..], a);
      var r := RunSeq(body, ctx, gas - LOOP, s[1..]);
      if r.Done? { LoopSupply(body, ctx, r.gas, r.stack, a); }
    }
  }

  lemma {:induction false} LoopLeftSupply(body: seq<Instr>, ctx: Ctx, gas: nat, s: Stack, a: Asset)
    ensures Within(RunLoopLeft(body, ctx, gas, s), Total(s, a) + CreatedLoopLeft(body, ctx, gas, s, a, false), a)
    decreases gas, body, 2
  {
    if Affordable(LOOP, gas) && |s| > 0 && (s[0].VLeft? || s[0].VRight?) {
      TotalPush(s[0].v, s[1..], a);
      if s[0].VLeft? {
        SeqSupply(body, ctx, gas - LOOP, [s[0].v] + s[1..], a);
        var r := RunSeq(body, ctx, gas - LOOP, [s[0].v] + s[1..]);
        if r.Done? { LoopLeftSupply(body, ctx, r.gas, r.stack, a); }
      }
    }
  }

  lemma {:induction false} IterSupply(body: seq<Instr>, vs: seq<Value>, ctx: Ctx, gas: nat, s: Stack, a: Asset)
    ensures Within(RunIter(body, vs, ctx, gas, s),
              Total(vs, a) + Total(s, a) + CreatedIter(body, vs, ctx, gas, s, a, false), a)
    decreases gas, body, 2
  {
    if vs != [] && Affordable(PUSH, gas) {
      TotalPush(vs[0], s, a);
      SeqSupply(body, ctx, gas - PUSH, [vs[0]] + s, a);
      var r := RunSeq(body, ctx, gas - PUSH, [vs[0]] + s);
      if r.Done? { IterSupply(body, vs[1..], ctx, r.gas, r.stack, a); }
    }
  }

  lemma {:induction false} MapSupply(body: seq<Instr>, vs: seq<Value>, acc: seq<Value>, ctx: Ctx, gas: nat, s: Stack, a: Asset)
    ensures Within(RunMap(body, vs, acc, ctx, gas, s),
              Total(vs, a) + Total(acc, a) + Total(s, a) + CreatedMap(body, vs, ctx, gas, s, a, false), a)
    decreases gas, body, 2
  {
    if vs == [] {
      TotalPush(VList(acc), s, a);
    } else if Affordable(PUSH, gas) {
      TotalPush(vs[0], s, a);
      SeqSupply(body, ctx, gas - PUSH, [vs[0]] + s, a);
      var r := RunSeq(body, ctx, gas - PUSH, [vs[0]] + s);
      if r.Done? && r.stack != [] {
        TotalAppend(acc, [r.stack[0]], a);
        MapSupply(body, vs[1..], acc + [r.stack[0]], ctx, r.gas, r.stack[1..], a);
      }
    }
  }

  lemma {:induction false} MapOptionSupply(body: seq<Instr>, ctx: Ctx, gas: nat, s: Stack, a: Asset)
    ensures Within(RunOne(MapOption(body), ctx, gas, s), Total(s, a) + CreatedOne(MapOption(body), ctx, gas, s, a, false), a)
    decreases gas, body, 3
  {
    if Affordable(MAP, gas) && Affordable(PUSH, gas - MAP) && |s| > 0 && s[0].VSome? {
      var g := gas - MAP - PUSH;
      TotalPush(s[0].v, s[1..], a);
      SeqSupply(body, ctx, g, [s[0].v] + s[1..], a);
      var r := RunSeq(body, ctx, g, [s[0].v] + s[1..]);
      if r.Done? && r.stack != [] { TotalPush(VSome(r.stack[0]), r.stack[1..], a); }
    }
  }

  lemma {:induction false} DipSupply(h: Option<nat>, body: seq<Instr>, ctx: Ctx, gas: nat, s: Stack, a: Asset)
    ensures Within(RunOne(Dip(h, body), ctx, gas, s), Total(s, a) + CreatedOne(Dip(h, body), ctx, gas, s, a, false), a)
    decreases gas, body, 3
  {
    var n := HeightOr1(h);
    if Affordable(CostDip(h), gas) && n <= |s| {
      TotalSplit(s, n, a);
      SeqSupply(body, ctx, gas - CostDip(h), s[n..], a);
      var r := RunSeq(body, ctx, gas - CostDip(h), s[n..]);
      if r.Done? { TotalAppend(s[..n], r.stack, a); }
    }
  }

  lemma {:induction false} ExecSupply(ctx: Ctx, gas: nat, s: Stack, a: Asset)
    ensures Within(RunOne(Exec, ctx, gas, s), Total(s, a) + CreatedOne(Exec, ctx, gas, s, a, false), a)
    decreases gas, Instr.Exec, 0
  {
    if Affordable(EXEC, gas) && |s| > 1 && s[1].VLambda? {
      TotalTop2(s, a);
      ClosureSupply(s[1].closure, s[0], ctx, gas - EXEC, a);
      var r := RunClosure(s[1].closure, s[0], ctx, gas - EXEC);
      if r.Done? && r.stack != [] { TotalPush(r.stack[0], s[2..], a); }
    }
  }

  lemma {:induction false} ClosureSupply(c: Closure, arg: Value, ctx: Ctx, gas: nat, a: Asset)
    ensures Within(RunClosure(c, arg, ctx, gas), Captured(c, a) + Supply(arg, a) + CreatedClosure(c, arg, ctx, gas, a, false), a)
    decreases gas, c, 2
  {
    match c
    case Simple(lam) =>
      StartTotal(lam, arg, a);
      SeqSupply(lam.code, ctx, gas, StartStack(lam, arg), a);
    case Applied(_, v, inner) =>
      if Affordable(PAIR, gas) { ClosureSupply(inner, VPair(v, arg), ctx, gas - PAIR, a); }
  }

  lemma {:induction false} StartTotal(lam: Lambda, arg: Value, a: Asset)
    ensures Total(StartStack(lam, arg), a) == Supply(arg, a)
  {
    TotalPush(arg, [], a);
    TotalPush2(arg, VLambda(Simple(lam)), [], a);
    assert [arg] + [] == [arg] && [arg, VLambda(Simple(lam))] + [] == [arg, VLambda(Simple(lam))];
  }

  // ---------------------------------------------------------------- strictly typed runs only mint

  lemma {:induction false} ComparableIsDuplicable(t: Type)
    requires Comparable(t)
    ensures Duplicable(t)
  {
    match t
    case TPair(l, r) => ComparableIsDuplicable(l); ComparableIsDuplicable(r);
    case TOr(l, r) => ComparableIsDuplicable(l); ComparableIsDuplicable(r);
    case TOption(u) => ComparableIsDuplicable(u);
    case _ =>
  }

  // A value of a duplicable type holds no ticket, not even inside a closure.
  lemma {:induction false} TicketFree(v: Value, t: Type, a: Asset)
    requires HasType(true, v, t) && Duplicable(t)
    ensures Supply(v, a) == 0
    decreases v
  {
    match v
    case VPair(l, r) => TicketFree(l, t.l, a); TicketFree(r, t.r, a);
    case VSome(x) => TicketFree(x, t.t, a);
    case VLeft(x) => TicketFree(x, t.l, a);
    case VRight(x) => TicketFree(x, t.r, a);
    case VList(vs) => ListTicketFree(vs, t.t, a);
    case VLambda(c) => ClosureTicketFree(c, t.a, t.b, a);
    case _ =>
  }

  lemma {:induction false} ListTicketFree(vs: seq<Value>, t: Type, a: Asset)
    requires Elements(true, vs, t) && Duplicable(t)
    ensures Total(vs, a) == 0
    decreases vs
  {
    if vs != [] {
      TicketFree(vs[0], t, a);
      ListTicketFree(vs[1..], t, a);
    }
  }

  lemma {:induction false} ClosureTicketFree(c: Closure, t: Type, u: Type, a: Asset)
    requires ClosureHasType(true, c, t, u)
    ensures Captured(c, a) == 0
    decreases c
  {
    if c.Applied? {
      TicketFree(c.arg, c.argTy, a);
      ClosureTicketFree(c.inner, TPair(c.argTy, t), u, a);
    }
  }

  lemma {:induction false} ContentTicketFree(v: Value, t: Type, a: Asset)
    requires HasType(true, v, t) && v.VTicket?
    ensures Supply(v.content, a) == 0
  {
    ComparableIsDuplicable(t.t);
    TicketFree(v.content, t.t, a);
  }

  lemma {:induction false} OpOnlyMints(op: Op, ctx: Ctx, s: Stack, st: Types, a: Asset)
    requires HasTypes(true, s, st) && !CheckOp(true, op, st).TcError?
    ensures Created(op, ctx, s, a, false) == Created(op, ctx, s, a, true)
  {
    match op
    case Stack(Dup(h)) =>
      var n := HeightOr1(h) - 1;
      TypeAt(true, s, st, n);
      TicketFree(s[n], st[n], a);
    case Stack(Push(t, v)) => TicketFree(v, t, a);
    case Tickets(ReadTicket) => ContentTicketFree(s[0], st[0], a);
    case Tickets(SplitTicket) => ContentTicketFree(s[0], st[0], a);
    case _ =>
  }

  /** What a strictly typed run creates is what its TICKET instructions issue for the running
      contract, and nothing else. */
  lemma {:induction false} SeqOnlyMints(code: seq<Instr>, ctx: Ctx, gas: nat, s: Stack, st: Types, a: Asset)
    requires CtxTyped(ctx) && HasTypes(true, s, st) && !CheckSeq(true, code, st).TcError?
    ensures CreatedSeq(code, ctx, gas, s, a, false) == CreatedSeq(code, ctx, gas, s, a, true)
    decreases gas, code, 0
  {
    if code != [] {
      OneOnlyMints(code[0], ctx, gas, s, st, a);
      OneSound(true, code[0], ctx, gas, s, st);
      var first := RunOne(code[0], ctx, gas, s);
      if first.Done? {
        SeqOnlyMints(code[1..], ctx, first.gas, first.stack, CheckOne(true, code[0], st).st, a);
      }
    }
  }

  lemma {:induction false} OneOnlyMints(i: Instr, ctx: Ctx, gas: nat, s: Stack, st: Types, a: Asset)
    requires CtxTyped(ctx) && HasTypes(true, s, st) && !CheckOne(true, i, st).TcError?
    ensures CreatedOne(i, ctx, gas, s, a, false) == CreatedOne(i, ctx, gas, s, a, true)
    decreases gas, i, 1
  {
    match i
    case Prim(op) => OpOnlyMints(op, ctx, s, st, a);
    case Seq(body) => SeqOnlyMints(body, ctx, gas, s, st, a);
    case Loop(body) => if Affordable(ENTER, gas) { LoopOnlyMints(body, ctx, gas - ENTER, s, st, a); }
    case LoopLeft(body) => if Affordable(ENTER, gas) { LoopLeftOnlyMints(body, ctx, gas - ENTER, s, st, a); }
    case Iter(body) =>
      if Affordable(ITER, gas) { IterOnlyMints(body, s[0].vs, ctx, gas - ITER, s[1..], st[0].t, st[1..], a); }
    case MapList(body) =>
      if Affordable(MAP, gas) {
        var r := CheckSeq(true, body, [st[0].t] + st[1..]).st;
        assert r == [r[0]] + st[1..];
        MapOnlyMints(body, s[0].vs, ctx, gas - MAP, s[1..], st[0].t, r[0], st[1..], a);
      }
    case MapOption(_) => NestedOnlyMints(i, ctx, gas, s, st, a);
    case Dip(_, _) => NestedOnlyMints(i, ctx, gas, s, st, a);
    case Exec =>
      if Affordable(EXEC, gas) {
        TypeAt(true, s, st, 1);
        ClosureOnlyMints(s[1].closure, s[0], ctx, gas - EXEC, st[0], st[1].b, a);
      }
    case _ => BranchOnlyMints(i, ctx, gas, s, st, a);
  }

  lemma {:induction false} NestedOnlyMints(i: Instr, ctx: Ctx, gas: nat, s: Stack, st: Types, a: Asset)
    requires i.MapOption? || i.Dip?
    requires CtxTyped(ctx) && HasTypes(true, s, st) && !CheckOne(true, i, st).TcError?
    ensures CreatedOne(i, ctx, gas, s, a, false) == CreatedOne(i, ctx, gas, s, a, true)
    decreases gas, i, 0
  {
    match i
    case MapOption(body) =>
      if Affordable(MAP, gas) && Affordable(PUSH, gas - MAP) && s[0].VSome? {
        Pushed(true, s[0].v, st[0].t, s[1..], st[1..]);
        SeqOnlyMints(body, ctx, gas - MAP - PUSH, [s[0].v] + s[1..], [st[0].t] + st[1..], a);
      }
    case Dip(h, body) =>
      var n := HeightOr1(h);
      if Affordable(CostDip(h), gas) {
        Dropped(true, s, st, n);
        SeqOnlyMints(body, ctx, gas - CostDip(h), s[n..], st[n..], a);
      }
  }

  lemma {:induction false} BranchOnlyMints(i: Instr, ctx: Ctx, gas: nat, s: Stack, st: Types, a: Asset)
    requires i.If? || i.IfNone? || i.IfCons? || i.IfLeft?
    requires CtxTyped(ctx) && HasTypes(true, s, st) && !CheckOne(true, i, st).TcError?
    ensures CreatedOne(i, ctx, gas, s, a, false) == CreatedOne(i, ctx, gas, s, a, true)
    decreases gas, i, 0
  {
    if Affordable(BRANCH, gas) {
      var (code, t) := Chosen(i, s);
      var tt := ChosenTypes(i, s, st);
      SeqOnlyMints(code, ctx, gas - BRANCH, t, tt, a);
    }
  }

  // The chosen branch is itself well-typed on the stack it is given.
  lemma {:induction false} ChosenTypes(i: Instr, s: Stack, st: Types) returns (tt: Types)
    requires i.If? || i.IfNone? || i.IfCons? || i.IfLeft?
    requires HasTypes(true, s, st) && !CheckOne(true, i, st).TcError?
    ensures HasTypes(true, Chosen(i, s).1, tt) && !CheckSeq(true, Chosen(i, s).0, tt).TcError?
  {
    match i
    case If(_, _) => tt := st[1..];
    case IfNone(_, _) =>
      if s[0].VSome? {
        tt := [st[0].t] + st[1..];
        Pushed(true, s[0].v, st[0].t, s[1..], st[1..]);
      } else {
        tt := st[1..];
      }
    case IfCons(_, _) =>
      if s[0].vs == [] {
        tt := st[1..];
      } else {
        tt := [st[0].t] + st;
        Uncons(true, s, st);
      }
    case IfLeft(_, _) =>
      var t := if s[0].VLeft? then st[0].l else st[0].r;
      tt := [t] + st[1..];
      Pushed(true, s[0].v, t, s[1..], st[1..]);
  }

  lemma {:induction false} LoopOnlyMints(body: seq<Instr>, ctx: Ctx, gas: nat, s: Stack, st: Types, a: Asset)
    requires CtxTyped(ctx) && HasTypes(true, s, st) && !CheckOne(true, Loop(body), st).TcError?
    ensures CreatedLoop(body, ctx, gas, s, a, false) == CreatedLoop(body, ctx, gas, s, a, true)
    decreases gas, body, 2
  {
    if Affordable(LOOP, gas) && s[0].b {
      SeqOnlyMints(body, ctx, gas - LOOP, s[1..], st[1..], a);
      SeqSound(true, body, ctx, gas - LOOP, s[1..], st[1..]);
      var r := RunSeq(body, ctx, gas - LOOP, s[1..]);
      if r.Done? { LoopOnlyMints(body, ctx, r.gas, r.stack, st, a); }
    }
  }

  lemma {:induction false} LoopLeftOnlyMints(body: seq<Instr>, ctx: Ctx, gas: nat, s: Stack, st: Types, a: Asset)
    requires CtxTyped(ctx) && HasTypes(true, s, st) && !CheckOne(true, LoopLeft(body), st).TcError?
    ensures CreatedLoopLeft(body, ctx, gas, s, a, false) == CreatedLoopLeft(body, ctx, gas, s, a, true)
    decreases gas, body, 2
  {
    if Affordable(LOOP, gas) && s[0].VLeft? {
      var s', st' := [s[0].v] + s[1..], [st[0].l] + st[1..];
      Pushed(true, s[0].v, st[0].l, s[1..], st[1..]);
      SeqOnlyMints(body, ctx, gas - LOOP, s', st', a);
      SeqSound(true, body, ctx, gas - LOOP, s', st');
      var r := RunSeq(body, ctx, gas - LOOP, s');
      if r.Done? { LoopLeftOnlyMints(body, ctx, r.gas, r.stack, st, a); }
    }
  }

  lemma {:induction false} IterOnlyMints(body: seq<Instr>, vs: seq<Value>, ctx: Ctx, gas: nat, s: Stack, t: Type, st: Types, a: Asset)
    requires CtxTyped(ctx) && HasTypes(true, s, st) && Elements(true, vs, t)
    requires CheckSeq(true, body, [t] + st) in {Failed, Ok(st)}
    ensures CreatedIter(body, vs, ctx, gas, s, a, false) == CreatedIter(body, vs, ctx, gas, s, a, true)
    decreases gas, body, 2
  {
    if vs != [] && Affordable(PUSH, gas) {
      Pushed(true, vs[0], t, s, st);
      SeqOnlyMints(body, ctx, gas - PUSH, [vs[0]] + s, [t] + st, a);
      SeqSound(true, body, ctx, gas - PUSH, [vs[0]] + s, [t] + st);
      var r := RunSeq(body, ctx, gas - PUSH, [vs[0]] + s);
      if r.Done? { IterOnlyMints(body, vs[1..], ctx, r.gas, r.stack, t, st, a); }
    }
  }

  lemma {:induction false} MapOnlyMints(body: seq<Instr>, vs: seq<Value>, ctx: Ctx, gas: nat, s: Stack, t: Type, u: Type, st: Types, a: Asset)
    requires CtxTyped(ctx) && HasTypes(true, s, st) && Elements(true, vs, t)
    requires CheckSeq(true, body, [t] + st) == Ok([u] + st)
    ensures CreatedMap(body, vs, ctx, gas, s, a, false) == CreatedMap(body, vs, ctx, gas, s, a, true)
    decreases gas, body, 2
  {
    if vs != [] && Affordable(PUSH, gas) {
      Pushed(true, vs[0], t, s, st);
      SeqOnlyMints(body, ctx, gas - PUSH, [vs[0]] + s, [t] + st, a);
      SeqSound(true, body, ctx, gas - PUSH, [vs[0]] + s, [t] + st);
      var r := RunSeq(body, ctx, gas - PUSH, [vs[0]] + s);
      if r.Done? {
        assert ([u] + st)[1..] == st;
        MapOnlyMints(body, vs[1..], ctx, r.gas, r.stack[1..], t, u, st, a);
      }
    }
  }

  lemma {:induction false} ClosureOnlyMints(c: Closure, arg: Value, ctx: Ctx, gas: nat, t: Type, u: Type, a: Asset)
    requires CtxTyped(ctx) && ClosureHasType(true, c, t, u) && HasType(true, arg, t)
    ensures CreatedClosure(c, arg, ctx, gas, a, false) == CreatedClosure(c, arg, ctx, gas, a, true)
    decreases gas, c, 2
  {
    match c
    case Simple(lam) =>
      StartTyped(true, lam, arg);
      SeqOnlyMints(lam.code, ctx, gas, StartStack(lam, arg), StartTypes(lam), a);
    case Applied(ty, v, inner) =>
      if Affordable(PAIR, gas) {
        assert HasType(true, VPair(v, arg), TPair(ty, t));
        ClosureOnlyMints(inner, VPair(v, arg), ctx, gas - PAIR, TPair(ty, t), u, a);
      }
  }

  /** Over every strictly typed run the supply of an asset grows at most by what TICKET issues for
      the running contract; the supply of any other ticketer's asset never grows. */
  lemma {:induction false} TicketsConserved(code: seq<Instr>, ctx: Ctx, gas: nat, s: Stack, st: Types, a: Asset)
    requires CtxTyped(ctx) && HasTypes(true, s, st) && !CheckSeq(true, code, st).TcError?
    requires RunSeq(code, ctx, gas, s).Done?
    ensures Total(RunSeq(code, ctx, gas, s).stack, a) <= Total(s, a) + CreatedSeq(code, ctx, gas, s, a, true)
    ensures a.ticketer != ctx.self ==> Total(RunSeq(code, ctx, gas, s).stack, a) <= Total(s, a)
  {
    SeqSupply(code, ctx, gas, s, a);
    SeqOnlyMints(code, ctx, gas, s, st, a);
  }
}
