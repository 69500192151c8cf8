/** The typechecker's stack judgement on the fragment, and what it means for a value to have a type.

Everything is indexed by `strict`.  With `strict == false` the rules are those of the typechecker.
With `strict == true` two rules are tightened: the content of a new ticket must be comparable and
an argument captured by APPLY must be duplicable.  The typechecker asks for neither. */
module MichelsonTyping {
  import opened Michelson
  import opened MichelsonOps

  type Types = seq<Type>

  // A type stack, the stack of code that never returns, or a type error.
  datatype Tc = Ok(st: Types) | Failed | TcError

  // Two branches must leave the same stack, unless one of them never returns.
  function Unify(a: Tc, b: Tc): Tc {
    if a.TcError? || b.TcError? then TcError
    else if a.Failed? then b
    else if b.Failed? || a == b then a
    else TcError
  }

  function CombType(ts: Types): Type
    requires |ts| > 0
  {
    if |ts| == 1 then ts[0] else TPair(ts[0], CombType(ts[1..]))
  }

  function UncombType(n: nat, t: Type): Option<Types>
    requires n > 0
    decreases n
  {
    if n == 1 then Some([t])
    else if !t.TPair? then None
    else match UncombType(n - 1, t.r)
      case None => None
      case Some(ts) => Some([t.l] + ts)
  }

  function FieldType(m: nat, t: Type): Option<Type> {
    if m == 0 then Some(t)
    else if !t.TPair? then None
    else if m == 1 then Some(t.l)
    else FieldType(m - 2, t.r)
  }

  function WithFieldType(m: nat, t: Type, x: Type): Option<Type> {
    if m == 0 then Some(x)
    else if !t.TPair? then None
    else if m == 1 then Some(TPair(x, t.r))
    else match WithFieldType(m - 2, t.r, x)
      case None => None
      case Some(r) => Some(TPair(t.l, r))
  }

  // ---------------------------------------------------------------- values

  predicate HasType(strict: bool, v: Value, t: Type)
    decreases v, 0
  {
    match v
    case VInt(_) => t.TInt?
    case VNat(_) => t.TNat?
    case VMumav(m) => t.TMumav? && 0 <= m <= I64_MAX
    case VBool(_) => t.TBool?
    case VUnit => t.TUnit?
    case VAddress(_) => t.TAddress?
    case VPair(l, r) => t.TPair? && HasType(strict, l, t.l) && HasType(strict, r, t.r)
    case VNone => t.TOption?
    case VSome(x) => t.TOption? && HasType(strict, x, t.t)
    case VLeft(x) => t.TOr? && HasType(strict, x, t.l)
    case VRight(x) => t.TOr? && HasType(strict, x, t.r)
    case VList(vs) => t.TList? && forall x :: x in vs ==> HasType(strict, x, t.t)
    case VLambda(c) => t.TLambda? && ClosureHasType(strict, c, t.a, t.b)
    case VTicket(_, content, _) => t.TTicket? && HasType(strict, content, t.t) && (strict ==> Comparable(t.t))
  }

  predicate ClosureHasType(strict: bool, c: Closure, a: Type, b: Type)
    decreases c, 0
  {
    match c
    case Simple(lam) => lam.a == a && lam.b == b && LambdaTyped(strict, lam)
    case Applied(ty, v, inner) =>
      HasType(strict, v, ty) && (strict ==> Duplicable(ty)) && ClosureHasType(strict, inner, TPair(ty, a), b)
  }

  function StartTypes(lam: Lambda): Types {
    if lam.recursive then [lam.a, TLambda(lam.a, lam.b)] else [lam.a]
  }

  predicate LambdaTyped(strict: bool, lam: Lambda)
    decreases lam, 0
  {
    CheckSeq(strict, lam.code, StartTypes(lam)) in {Failed, Ok([lam.b])}
  }

  predicate HasTypes(strict: bool, s: Stack, st: Types)
    decreases |s|
  {
    && |s| == |st|
    && (s == [] || (HasType(strict, s[0], st[0]) && HasTypes(strict, s[1..], st[1..])))
  }

  // ---------------------------------------------------------------- instructions

  function CheckSeq(strict: bool, code: seq<Instr>, st: Types): Tc
    decreases code, 0
  {
    if code == [] then Ok(st)
    else
      var first := CheckOne(strict, code[0], st);
      // code after an instruction that never returns is an error
      if first.Ok? then CheckSeq(strict, code[1..], first.st)
      else if |code| == 1 then first
      else TcError
  }

  function CheckOne(strict: bool, i: Instr, st: Types): Tc
    decreases i, 1
  {
    match i
    case Prim(op) => CheckOp(strict, op, st)
    case Seq(body) => CheckSeq(strict, body, st)
    case If(t, f) =>
      if |st| == 0 || !st[0].TBool? then TcError
      else Unify(CheckSeq(strict, t, st[1..]), CheckSeq(strict, f, st[1..]))
    case IfNone(n, m) =>
      if |st| == 0 || !st[0].TOption? then TcError
      else Unify(CheckSeq(strict, n, st[1..]), CheckSeq(strict, m, [st[0].t] + st[1..]))
    case IfCons(c, n) =>
      if |st| == 0 || !st[0].TList? then TcError
      else Unify(CheckSeq(strict, n, st[1..]), CheckSeq(strict, c, [st[0].t] + st))
    case IfLeft(l, r) =>
      if |st| == 0 || !st[0].TOr? then TcError
      else Unify(CheckSeq(strict, l, [st[0].l] + st[1..]), CheckSeq(strict, r, [st[0].r] + st[1..]))
    case Loop(body) =>
      if |st| == 0 || !st[0].TBool? then TcError
      else if Unify(CheckSeq(strict, body, st[1..]), Ok(st)).TcError? then TcError
      else Ok(st[1..])
    case LoopLeft(body) =>
      if |st| == 0 || !st[0].TOr? then TcError
      else if Unify(CheckSeq(strict, body, [st[0].l] + st[1..]), Ok(st)).TcError? then TcError
      else Ok([st[0].r] + st[1..])
    case Iter(body) =>
      if |st| == 0 || !st[0].TList? then TcError
      else if Unify(CheckSeq(strict, body, [st[0].t] + st[1..]), Ok(st[1..])).TcError? then TcError
      else Ok(st[1..])
    case MapList(body) =>
      if |st| == 0 || !st[0].TList? then TcError
      else
        var r := CheckSeq(strict, body, [st[0].t] + st[1..]);
        if r.Ok? && |r.st| > 0 && r.st[1..] == st[1..] then Ok([TList(r.st[0])] + st[1..]) else TcError
    case MapOption(body) =>
      if |st| == 0 || !st[0].TOption? then TcError
      else
        var r := CheckSeq(strict, body, [st[0].t] + st[1..]);
        if r.Ok? && |r.st| > 0 && r.st[1..] == st[1..] then Ok([TOption(r.st[0])] + st[1..]) else TcError
    case Dip(h, body) =>
      if |st| < HeightOr1(h) then TcError
      else
        var r := CheckSeq(strict, body, st[HeightOr1(h)..]);
        if r.Ok? then Ok(st[..HeightOr1(h)] + r.st) else TcError
    case Exec =>
      if |st| < 2 || !st[1].TLambda? || st[1].a != st[0] then TcError else Ok([st[1].b] + st[2..])
  }

  function CheckOp(strict: bool, op: Op, st: Types): Tc
    decreases op, 1
  {
    match op
    case Stack(o) => CheckStackOp(strict, o, st)
    case Combs(o) => CheckCombOp(o, st)
    case Data(o) => CheckDataOp(strict, o, st)
    case Number(o) => CheckNumberOp(o, st)
    case Division(o) => CheckDivisionOp(o, st)
    case Test(_) => if |st| > 0 && st[0].TInt? then Ok([TBool] + st[1..]) else TcError
    case Tickets(o) => CheckTicketOp(strict, o, st)
  }

  function CheckStackOp(strict: bool, op: StackOp, st: Types): Tc
    decreases op, 0
  {
    match op
    case Drop(h) => if HeightOr1(h) <= |st| then Ok(st[HeightOr1(h)..]) else TcError
    case Dup(h) =>
      if 0 < HeightOr1(h) <= |st| && Duplicable(st[HeightOr1(h) - 1]) then Ok([st[HeightOr1(h) - 1]] + st) else TcError
    case Dig(n) => if n == 0 then Ok(st) else if n < |st| then Ok([st[n]] + st[..n] + st[n + 1..]) else TcError
    case Dug(n) => if n == 0 then Ok(st) else if n < |st| then Ok(st[1..n + 1] + [st[0]] + st[n + 1..]) else TcError
    case Swap => if 2 <= |st| then Ok([st[1], st[0]] + st[2..]) else TcError
    case Push(t, v) => if Duplicable(t) && HasType(strict, v, t) then Ok([t] + st) else TcError
    case Unit => Ok([TUnit] + st)
    case Amount => Ok([TMumav] + st)
    case Balance => Ok([TMumav] + st)
    case Failwith(t) => if |st| > 0 && st[0] == t && Duplicable(t) then Failed else TcError
    case Never => if |st| > 0 && st[0].TNever? then Failed else TcError
  }

  function CheckCombOp(op: CombOp, st: Types): Tc {
    match op
    case Pair => if 2 <= |st| then Ok([TPair(st[0], st[1])] + st[2..]) else TcError
    case PairN(n) => if 2 <= n <= |st| then Ok([CombType(st[..n])] + st[n..]) else TcError
    case Unpair => if |st| > 0 && st[0].TPair? then Ok([st[0].l, st[0].r] + st[1..]) else TcError
    case UnpairN(n) =>
      if |st| == 0 || n < 2 then TcError
      else (match UncombType(n, st[0]) case Some(ts) => Ok(ts + st[1..]) case None => TcError)
    case Car => if |st| > 0 && st[0].TPair? then Ok([st[0].l] + st[1..]) else TcError
    case Cdr => if |st| > 0 && st[0].TPair? then Ok([st[0].r] + st[1..]) else TcError
    case GetN(n) =>
      if |st| == 0 then TcError
      else (match FieldType(n, st[0]) case Some(t) => Ok([t] + st[1..]) case None => TcError)
    case UpdateN(n) =>
      if |st| < 2 then TcError
      else (match WithFieldType(n, st[1], st[0]) case Some(t) => Ok([t] + st[2..]) case None => TcError)
  }

  function CheckDataOp(strict: bool, op: DataOp, st: Types): Tc
    decreases op, 0
  {
    match op
    case ISome => if |st| > 0 then Ok([TOption(st[0])] + st[1..]) else TcError
    case INone(t) => Ok([TOption(t)] + st)
    case Left(t) => if |st| > 0 then Ok([TOr(st[0], t)] + st[1..]) else TcError
    case Right(t) => if |st| > 0 then Ok([TOr(t, st[0])] + st[1..]) else TcError
    case Nil(t) => Ok([TList(t)] + st)
    case Cons => if |st| > 1 && st[1] == TList(st[0]) then Ok(st[1..]) else TcError
    case ILambda(lam) => if LambdaTyped(strict, lam) then Ok([TLambda(lam.a, lam.b)] + st) else TcError
    case Apply(t) =>
      if |st| > 1 && st[1].TLambda? && st[1].a.TPair? && st[1].a.l == st[0] && t == st[0] && (strict ==> Duplicable(t))
      then Ok([TLambda(st[1].a.r, st[1].b)] + st[2..]) else TcError
  }

  function Binary(st: Types, a: Type, b: Type, c: Type): Tc {
    if |st| > 1 && st[0] == a && st[1] == b then Ok([c] + st[2..]) else TcError
  }

  function Unary(st: Types, a: Type, c: Type): Tc {
    if |st| > 0 && st[0] == a then Ok([c] + st[1..]) else TcError
  }

  function CheckNumberOp(op: NumberOp, st: Types): Tc {
    match op
    case AddInt | SubInt => Binary(st, TInt, TInt, TInt)
    case AddNat => Binary(st, TNat, TNat, TNat)
    case AddMumav => Binary(st, TMumav, TMumav, TMumav)
    case SubMumav => Binary(st, TMumav, TMumav, TOption(TMumav))
    case MulMumavNat => Binary(st, TMumav, TNat, TMumav)
    case MulNatMumav => Binary(st, TNat, TMumav, TMumav)
    case NegInt => Unary(st, TInt, TInt)
    case Abs => Unary(st, TInt, TNat)
    case IsNat => Unary(st, TInt, TOption(TNat))
    case IntOfNat => Unary(st, TNat, TInt)
    case NotBool => Unary(st, TBool, TBool)
    case AndBool => Binary(st, TBool, TBool, TBool)
  }

  function CheckDivisionOp(op: DivisionOp, st: Types): Tc {
    match op
    case EDivNat => Binary(st, TNat, TNat, TOption(TPair(TNat, TNat)))
    case EDivInt => Binary(st, TInt, TInt, TOption(TPair(TInt, TNat)))
    case EDivMumavNat => Binary(st, TMumav, TNat, TOption(TPair(TMumav, TMumav)))
    case EDivMumavMumav => Binary(st, TMumav, TMumav, TOption(TPair(TNat, TMumav)))
  }

  function CheckTicketOp(strict: bool, op: TicketOp, st: Types): Tc {
    match op
    case Ticket =>
      if |st| > 1 && st[1].TNat? && (strict ==> Comparable(st[0])) then Ok([TOption(TTicket(st[0]))] + st[2..]) else TcError
    case ReadTicket => if |st| > 0 && st[0].TTicket? then Ok([TPair(TAddress, TPair(st[0].t, TNat))] + st) else TcError
    case SplitTicket =>
      if |st| > 1 && st[0].TTicket? && st[1] == TPair(TNat, TNat) then Ok([TOption(TPair(st[0], st[0]))] + st[2..])
      else TcError
    case JoinTickets =>
      if |st| > 0 && st[0].TPair? && st[0].l.TTicket? && st[0].r == st[0].l then Ok([TOption(st[0].l)] + st[1..])
      else TcError
  }
}
