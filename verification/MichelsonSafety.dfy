/** Type soundness of whole runs, by induction on the gas that is left and on the code. */
module MichelsonSafety {
  import opened Michelson
  import opened MichelsonOps
  import opened MichelsonRun
  import opened MichelsonTyping
  import opened MichelsonSoundness

  /** For every program the typechecker accepts, every well-typed stack and every amount of gas: the
      run ends with the predicted stack, an error or out of gas.  It panics only by comparing ticket
      contents that have no order, and not at all under the strict rules. */
  lemma {:induction false} SeqSound(strict: bool, code: seq<Instr>, ctx: Ctx, gas: nat, s: Stack, st: Types)
    requires CtxTyped(ctx) && HasTypes(strict, s, st) && !CheckSeq(strict, code, st).TcError?
    ensures OutcomeFits(strict, RunSeq(code, ctx, gas, s), CheckSeq(strict, code, st))
    decreases gas, code, 0
  {
    if code != [] {
      OneSound(strict, code[0], ctx, gas, s, st);
      var first := RunOne(code[0], ctx, gas, s);
      if first.Done? {
        SeqSound(strict, code[1..], ctx, first.gas, first.stack, CheckOne(strict, code[0], st).st);
      }
    }
  }

  lemma {:induction false} OneSound(strict: bool, i: Instr, ctx: Ctx, gas: nat, s: Stack, st: Types)
    requires CtxTyped(ctx) && HasTypes(strict, s, st) && !CheckOne(strict, i, st).TcError?
    ensures OutcomeFits(strict, RunOne(i, ctx, gas, s), CheckOne(strict, i, st))
    decreases gas, i, 1
  {
    match i
    case Prim(op) => OpSound(strict, op, ctx, s, st);
    case Seq(body) => SeqSound(strict, body, ctx, gas, s, st);
    case If(_, _) => IfSound(strict, i, ctx, gas, s, st);
    case IfNone(_, _) => IfNoneSound(strict, i, ctx, gas, s, st);
    case IfCons(_, _) => IfConsSound(strict, i, ctx, gas, s, st);
    case IfLeft(_, _) => IfLeftSound(strict, i, ctx, gas, s, st);
    case Loop(body) => if Affordable(ENTER, gas) { LoopSound(strict, body, ctx, gas - ENTER, s, st); }
    case LoopLeft(body) => if Affordable(ENTER, gas) { LoopLeftSound(strict, body, ctx, gas - ENTER, s, st); }
    case Iter(body) =>
      if Affordable(ITER, gas) { IterSound(strict, body, s[0].vs, ctx, gas - ITER, s[1..], st[0].t, st[1..]); }
    case MapList(body) => MapListSound(strict, body, ctx, gas, s, st);
    case MapOption(body) => MapOptionSound(strict, body, ctx, gas, s, st);
    case Dip(h, body) => DipSound(strict, h, body, ctx, gas, s, st);
    case Exec => ExecSound(strict, ctx, gas, s, st);
  }

  lemma {:induction false} Unified(strict: bool, r: Outcome, a: Tc, b: Tc)
    requires !Unify(a, b).TcError?
    ensures OutcomeFits(strict, r, a) ==> OutcomeFits(strict, r, Unify(a, b))
    ensures OutcomeFits(strict, r, b) ==> OutcomeFits(strict, r, Unify(a, b))
  {
  }

  lemma {:induction false} IfSound(strict: bool, i: Instr, ctx: Ctx, gas: nat, s: Stack, st: Types)
    requires i.If? && CtxTyped(ctx) && HasTypes(strict, s, st) && !CheckOne(strict, i, st).TcError?
    ensures OutcomeFits(strict, RunOne(i, ctx, gas, s), CheckOne(strict, i, st))
    decreases gas, i, 0
  {
    if Affordable(BRANCH, gas) {
      var g := gas - BRANCH;
      SeqSound(strict, i.whenTrue, ctx, g, s[1..], st[1..]);
      SeqSound(strict, i.whenFalse, ctx, g, s[1..], st[1..]);
      var a, b := CheckSeq(strict, i.whenTrue, st[1..]), CheckSeq(strict, i.whenFalse, st[1..]);
      Unified(strict, RunSeq(i.whenTrue, ctx, g, s[1..]), a, b);
      Unified(strict, RunSeq(i.whenFalse, ctx, g, s[1..]), a, b);
    }
  }

  lemma {:induction false} IfNoneSound(strict: bool, i: Instr, ctx: Ctx, gas: nat, s: Stack, st: Types)
    requires i.IfNone? && CtxTyped(ctx) && HasTypes(strict, s, st) && !CheckOne(strict, i, st).TcError?
    ensures OutcomeFits(strict, RunOne(i, ctx, gas, s), CheckOne(strict, i, st))
    decreases gas, i, 0
  {
    if Affordable(BRANCH, gas) {
      var g := gas - BRANCH;
      var a, b := CheckSeq(strict, i.whenNone, st[1..]), CheckSeq(strict, i.whenSome, [st[0].t] + st[1..]);
      if s[0].VNone? {
        SeqSound(strict, i.whenNone, ctx, g, s[1..], st[1..]);
        Unified(strict, RunSeq(i.whenNone, ctx, g, s[1..]), a, b);
      } else {
        Pushed(strict, s[0].v, st[0].t, s[1..], st[1..]);
        SeqSound(strict, i.whenSome, ctx, g, [s[0].v] + s[1..], [st[0].t] + st[1..]);
        Unified(strict, RunSeq(i.whenSome, ctx, g, [s[0].v] + s[1..]), a, b);
      }
    }
  }

  lemma {:induction false} IfConsSound(strict: bool, i: Instr, ctx: Ctx, gas: nat, s: Stack, st: Types)
    requires i.IfCons? && CtxTyped(ctx) && HasTypes(strict, s, st) && !CheckOne(strict, i, st).TcError?
    ensures OutcomeFits(strict, RunOne(i, ctx, gas, s), CheckOne(strict, i, st))
    decreases gas, i, 0
  {
    if Affordable(BRANCH, gas) {
      var g := gas - BRANCH;
      var a, b := CheckSeq(strict, i.whenNil, st[1..]), CheckSeq(strict, i.whenCons, [st[0].t] + st);
      var vs := s[0].vs;
      if vs == [] {
        SeqSound(strict, i.whenNil, ctx, g, s[1..], st[1..]);
        Unified(strict, RunSeq(i.whenNil, ctx, g, s[1..]), a, b);
      } else {
        var s' := [vs[0], VList(vs[1..])] + s[1..];
        Uncons(strict, s, st);
        SeqSound(strict, i.whenCons, ctx, g, s', [st[0].t] + st);
        Unified(strict, RunSeq(i.whenCons, ctx, g, s'), a, b);
      }
    }
  }

  lemma {:induction false} Uncons(strict: bool, s: Stack, st: Types)
    requires HasTypes(strict, s, st) && |s| > 0 && s[0].VList? && s[0].vs != []
    ensures st[0].TList? && HasTypes(strict, [s[0].vs[0], VList(s[0].vs[1..])] + s[1..], [st[0].t] + st)
  {
    var vs := s[0].vs;
    assert HasType(strict, VList(vs[1..]), st[0]);
    PushedTwo(strict, vs[0], st[0].t, VList(vs[1..]), st[0], s[1..], st[1..]);
    assert [st[0].t, st[0]] + st[1..] == [st[0].t] + st;
  }

  lemma {:induction false} IfLeftSound(strict: bool, i: Instr, ctx: Ctx, gas: nat, s: Stack, st: Types)
    requires i.IfLeft? && CtxTyped(ctx) && HasTypes(strict, s, st) && !CheckOne(strict, i, st).TcError?
    ensures OutcomeFits(strict, RunOne(i, ctx, gas, s), CheckOne(strict, i, st))
    decreases gas, i, 0
  {
    if Affordable(BRANCH, gas) {
      var g := gas - BRANCH;
      var s' := [s[0].v] + s[1..];
      var a, b := CheckSeq(strict, i.whenLeft, [st[0].l] + st[1..]), CheckSeq(strict, i.whenRight, [st[0].r] + st[1..]);
      if s[0].VLeft? {
        Pushed(strict, s[0].v, st[0].l, s[1..], st[1..]);
        SeqSound(strict, i.whenLeft, ctx, g, s', [st[0].l] + st[1..]);
        Unified(strict, RunSeq(i.whenLeft, ctx, g, s'), a, b);
      } else {
        Pushed(strict, s[0].v, st[0].r, s[1..], st[1..]);
        SeqSound(strict, i.whenRight, ctx, g, s', [st[0].r] + st[1..]);
        Unified(strict, RunSeq(i.whenRight, ctx, g, s'), a, b);
      }
    }
  }

  lemma {:induction false} LoopSound(strict: bool, body: seq<Instr>, ctx: Ctx, gas: nat, s: Stack, st: Types)
    requires CtxTyped(ctx) && HasTypes(strict, s, st) && !CheckOne(strict, Loop(body), st).TcError?
    ensures OutcomeFits(strict, RunLoop(body, ctx, gas, s), Ok(st[1..]))
    decreases gas, body, 2
  {
    if Affordable(LOOP, gas) && s[0].b {
      SeqSound(strict, body, ctx, gas - LOOP, s[1..], st[1..]);
      var r := RunSeq(body, ctx, gas - LOOP, s[1..]);
      if r.Done? { LoopSound(strict, body, ctx, r.gas, r.stack, st); }
    }
  }

  lemma {:induction false} LoopLeftSound(strict: bool, body: seq<Instr>, ctx: Ctx, gas: nat, s: Stack, st: Types)
    requires CtxTyped(ctx) && HasTypes(strict, s, st) && !CheckOne(strict, LoopLeft(body), st).TcError?
    ensures OutcomeFits(strict, RunLoopLeft(body, ctx, gas, s), Ok([st[0].r] + st[1..]))
    decreases gas, body, 2
  {
    if Affordable(LOOP, gas) {
      if s[0].VLeft? {
        Pushed(strict, s[0].v, st[0].l, s[1..], st[1..]);
        SeqSound(strict, body, ctx, gas - LOOP, [s[0].v] + s[1..], [st[0].l] + st[1..]);
        var r := RunSeq(body, ctx, gas - LOOP, [s[0].v] + s[1..]);
        if r.Done? { LoopLeftSound(strict, body, ctx, r.gas, r.stack, st); }
      } else {
        Pushed(strict, s[0].v, st[0].r, s[1..], st[1..]);
      }
    }
  }

  ghost predicate Elements(strict: bool, vs: seq<Value>, t: Type) { forall x :: x in vs ==> HasType(strict, x, t) }

  lemma {:induction false} IterSound(strict: bool, body: seq<Instr>, vs: seq<Value>, ctx: Ctx, gas: nat, s: Stack, t: Type, st: Types)
    requires CtxTyped(ctx) && HasTypes(strict, s, st) && Elements(strict, vs, t)
    requires CheckSeq(strict, body, [t] + st) in {Failed, Ok(st)}
    ensures OutcomeFits(strict, RunIter(body, vs, ctx, gas, s), Ok(st))
    decreases gas, body, 2
  {
    if vs != [] && Affordable(PUSH, gas) {
      Pushed(strict, vs[0], t, s, st);
      SeqSound(strict, body, ctx, gas - PUSH, [vs[0]] + s, [t] + st);
      var r := RunSeq(body, ctx, gas - PUSH, [vs[0]] + s);
      if r.Done? { IterSound(strict, body, vs[1..], ctx, r.gas, r.stack, t, st); }
    }
  }

  lemma {:induction false} MapSound(strict: bool, body: seq<Instr>, vs: seq<Value>, acc: seq<Value>, ctx: Ctx, gas: nat, s: Stack, t: Type, u: Type, st: Types)
    requires CtxTyped(ctx) && HasTypes(strict, s, st) && Elements(strict, vs, t) && Elements(strict, acc, u)
    requires CheckSeq(strict, body, [t] + st) == Ok([u] + st)
    ensures OutcomeFits(strict, RunMap(body, vs, acc, ctx, gas, s), Ok([TList(u)] + st))
    decreases gas, body, 2
  {
    if vs == [] {
      Pushed(strict, VList(acc), TList(u), s, st);
    } else if Affordable(PUSH, gas) {
      Pushed(strict, vs[0], t, s, st);
      SeqSound(strict, body, ctx, gas - PUSH, [vs[0]] + s, [t] + st);
      var r := RunSeq(body, ctx, gas - PUSH, [vs[0]] + s);
      if r.Done? {
        assert ([u] + st)[1..] == st;
        MapSound(strict, body, vs[1..], acc + [r.stack[0]], ctx, r.gas, r.stack[1..], t, u, st);
      }
    }
  }

  lemma {:induction false} MapListSound(strict: bool, body: seq<Instr>, ctx: Ctx, gas: nat, s: Stack, st: Types)
    requires CtxTyped(ctx) && HasTypes(strict, s, st) && !CheckOne(strict, MapList(body), st).TcError?
    ensures OutcomeFits(strict, RunOne(MapList(body), ctx, gas, s), CheckOne(strict, MapList(body), st))
    decreases gas, body, 3
  {
    if Affordable(MAP, gas) {
      var r := CheckSeq(strict, body, [st[0].t] + st[1..]).st;
      assert r == [r[0]] + st[1..];
      MapSound(strict, body, s[0].vs, [], ctx, gas - MAP, s[1..], st[0].t, r[0], st[1..]);
    }
  }

  lemma {:induction false} MapOptionSound(strict: bool, body: seq<Instr>, ctx: Ctx, gas: nat, s: Stack, st: Types)
    requires CtxTyped(ctx) && HasTypes(strict, s, st) && !CheckOne(strict, MapOption(body), st).TcError?
    ensures OutcomeFits(strict, RunOne(MapOption(body), ctx, gas, s), CheckOne(strict, MapOption(body), st))
    decreases gas, body, 3
  {
    if Affordable(MAP, gas) {
      var t := CheckSeq(strict, body, [st[0].t] + st[1..]).st;
      if s[0].VNone? {
        Pushed(strict, VNone, TOption(t[0]), s[1..], st[1..]);
        assert [VNone] + s[1..] == s;
      } else if Affordable(PUSH, gas - MAP) {
        Pushed(strict, s[0].v, st[0].t, s[1..], st[1..]);
        SeqSound(strict, body, ctx, gas - MAP - PUSH, [s[0].v] + s[1..], [st[0].t] + st[1..]);
        var r := RunSeq(body, ctx, gas - MAP - PUSH, [s[0].v] + s[1..]);
        if r.Done? { Pushed(strict, VSome(r.stack[0]), TOption(t[0]), r.stack[1..], t[1..]); }
      }
    }
  }

  lemma {:induction false} DipSound(strict: bool, h: Option<nat>, body: seq<Instr>, ctx: Ctx, gas: nat, s: Stack, st: Types)
    requires CtxTyped(ctx) && HasTypes(strict, s, st) && !CheckOne(strict, Dip(h, body), st).TcError?
    ensures OutcomeFits(strict, RunOne(Dip(h, body), ctx, gas, s), CheckOne(strict, Dip(h, body), st))
    decreases gas, body, 3
  {
    var n := HeightOr1(h);
    if Affordable(CostDip(h), gas) {
      Dropped(strict, s, st, n);
      Taken(strict, s, st, n);
      SeqSound(strict, body, ctx, gas - CostDip(h), s[n..], st[n..]);
      var r := RunSeq(body, ctx, gas - CostDip(h), s[n..]);
      if r.Done? { Appended(strict, s[..n], st[..n], r.stack, CheckSeq(strict, body, st[n..]).st); }
    }
  }

  lemma {:induction false} ExecSound(strict: bool, ctx: Ctx, gas: nat, s: Stack, st: Types)
    requires CtxTyped(ctx) && HasTypes(strict, s, st) && !CheckOne(strict, Exec, st).TcError?
    ensures OutcomeFits(strict, RunOne(Exec, ctx, gas, s), CheckOne(strict, Exec, st))
    decreases gas, Instr.Exec, 0
  {
    TypeAt(strict, s, st, 1);
    if Affordable(EXEC, gas) {
      var r := RunClosure(s[1].closure, s[0], ctx, gas - EXEC);
      ClosureSound(strict, s[1].closure, s[0], ctx, gas - EXEC, st[0], st[1].b);
      if r.Done? { Replaced(strict, r.stack[0], st[1].b, s, st, 2); }
    }
  }

  /** Calling a closure of type a -> b on a value of type a leaves exactly one value, of type b. */
  lemma {:induction false} ClosureSound(strict: bool, c: Closure, arg: Value, ctx: Ctx, gas: nat, a: Type, b: Type)
    requires CtxTyped(ctx) && ClosureHasType(strict, c, a, b) && HasType(strict, arg, a)
    ensures OutcomeFits(strict, RunClosure(c, arg, ctx, gas), Ok([b]))
    decreases gas, c, 2
  {
    match c
    case Simple(lam) =>
      StartTyped(strict, lam, arg);
      SeqSound(strict, lam.code, ctx, gas, StartStack(lam, arg), StartTypes(lam));
    case Applied(ty, v, inner) =>
      if Affordable(PAIR, gas) {
        assert HasType(strict, VPair(v, arg), TPair(ty, a));
        ClosureSound(strict, inner, VPair(v, arg), ctx, gas - PAIR, TPair(ty, a), b);
      }
  }

  // A recursive lambda starts with itself below its argument, at the type it is declared with.
  lemma {:induction false} StartTyped(strict: bool, lam: Lambda, arg: Value)
    requires LambdaTyped(strict, lam) && HasType(strict, arg, lam.a)
    ensures HasTypes(strict, StartStack(lam, arg), StartTypes(lam))
  {
    var self := VLambda(Simple(lam));
    assert ClosureHasType(strict, Simple(lam), lam.a, lam.b);
    assert HasType(strict, self, TLambda(lam.a, lam.b));
    assert HasTypes(strict, [], []);
    Pushed(strict, self, TLambda(lam.a, lam.b), [], []);
    Pushed(strict, arg, lam.a, [], []);
    Pushed(strict, arg, lam.a, [self], [TLambda(lam.a, lam.b)]);
    assert [arg] + [self] == [arg, self] && [lam.a] + [TLambda(lam.a, lam.b)] == [lam.a, TLambda(lam.a, lam.b)];
    assert [arg] + [] == [arg] && [lam.a] + [] == [lam.a] && [self] + [] == [self];
    assert [TLambda(lam.a, lam.b)] + [] == [TLambda(lam.a, lam.b)];
  }
}
