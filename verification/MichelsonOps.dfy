/** The instructions that run no other instruction: what they cost and what they do to the stack.
    Stacks are sequences with the top first. */
module MichelsonOps {
  import opened Michelson

  type Stack = seq<Value>

  // Errors a run can end with, other than running out of gas.
  datatype Error = MumavOverflow | FailedWith(ty: Type, v: Value)

  // What an instruction does once it is paid for.
  datatype After = Next(stack: Stack) | Raise(e: Error) | Crash

  /** The effect of an instruction on a stack.  `Stuck` and `Crash` are the panics of the source:
      before and after the gas is charged.  `Incomparable` is its panic on comparing values that
      have no order. */
  datatype Effect = Stuck | Incomparable | Charge(cost: nat, after: After)

  function Push1(cost: nat, v: Value, s: Stack): Effect { Charge(cost, Next([v] + s)) }

  function OpEffect(op: Op, ctx: Ctx, s: Stack): Effect {
    match op
    case Stack(o) => StackEffect(o, ctx, s)
    case Combs(o) => CombEffect(o, s)
    case Data(o) => DataEffect(o, s)
    case Number(o) => NumberEffect(o, s)
    case Division(o) => DivisionEffect(o, s)
    case Test(o) => Charge(10, if |s| > 0 && s[0].VInt? then Next([VBool(Holds(o, s[0].i))] + s[1..]) else Crash)
    case Tickets(o) => TicketEffect(o, ctx, s)
  }

  // ---------------------------------------------------------------- stack

  function StackEffect(op: StackOp, ctx: Ctx, s: Stack): Effect {
    match op
    case Drop(h) =>
      Charge(CostDrop(h), if HeightOr1(h) <= |s| then Next(s[HeightOr1(h)..]) else Crash)
    case Dup(h) =>
      Charge(CostDup(h), if 0 < HeightOr1(h) <= |s| then Next([s[HeightOr1(h) - 1]] + s) else Crash)
    case Dig(n) =>
      Charge(CostDig(n), if n == 0 then Next(s) else if n < |s| then Next([s[n]] + s[..n] + s[n + 1..]) else Crash)
    case Dug(n) =>
      Charge(CostDug(n), if n == 0 then Next(s) else if n < |s| then Next(s[1..n + 1] + [s[0]] + s[n + 1..]) else Crash)
    case Swap =>
      Charge(10, if 2 <= |s| then Next([s[1], s[0]] + s[2..]) else Crash)
    case Push(_, v) => Push1(10, v, s)
    case Unit => Push1(10, VUnit, s)
    case Amount => Push1(10, VMumav(ctx.amount), s)
    case Balance => Push1(10, VMumav(ctx.balance), s)
    case Failwith(ty) => if |s| < 1 then Stuck else Charge(0, Raise(FailedWith(ty, s[0])))
    case Never => Stuck
  }

  // ---------------------------------------------------------------- pairs and combs

  function CombEffect(op: CombOp, s: Stack): Effect {
    match op
    case Pair => Charge(10, if 2 <= |s| then Next([VPair(s[0], s[1])] + s[2..]) else Crash)
    case PairN(n) => Charge(CostPairN(n), if 0 < n <= |s| then Next([Comb(s[..n])] + s[n..]) else Crash)
    case Unpair => Charge(10, if |s| > 0 && s[0].VPair? then Next([s[0].l, s[0].r] + s[1..]) else Crash)
    case UnpairN(n) =>
      Charge(CostUnpairN(n),
        if |s| == 0 || n == 0 then Crash
        else match Uncomb(n, s[0]) case Some(vs) => Next(vs + s[1..]) case None => Crash)
    case Car => Charge(10, if |s| > 0 && s[0].VPair? then Next([s[0].l] + s[1..]) else Crash)
    case Cdr => Charge(10, if |s| > 0 && s[0].VPair? then Next([s[0].r] + s[1..]) else Crash)
    case GetN(n) =>
      Charge(CostGetN(n),
        if |s| == 0 then Crash
        else match Field(n, s[0]) case Some(v) => Next([v] + s[1..]) case None => Crash)
    case UpdateN(n) =>
      Charge(CostUpdateN(n),
        if |s| < 2 then Crash
        else match WithField(n, s[1], s[0]) case Some(v) => Next([v] + s[2..]) case None => Crash)
  }

  // ---------------------------------------------------------------- options, unions, lists, lambdas

  function DataEffect(op: DataOp, s: Stack): Effect {
    match op
    case ISome => Charge(10, if |s| > 0 then Next([VSome(s[0])] + s[1..]) else Crash)
    case INone(_) => Push1(10, VNone, s)
    case Left(_) => Charge(10, if |s| > 0 then Next([VLeft(s[0])] + s[1..]) else Crash)
    case Right(_) => Charge(10, if |s| > 0 then Next([VRight(s[0])] + s[1..]) else Crash)
    case Nil(_) => Push1(10, VList([]), s)
    case Cons => Charge(15, if |s| > 1 && s[1].VList? then Next([VList([s[0]] + s[1].vs)] + s[2..]) else Crash)
    case ILambda(lam) => Push1(10, VLambda(Simple(lam)), s)
    case Apply(ty) =>
      if |s| > 1 && s[1].VLambda? then Push1(140, VLambda(Applied(ty, s[0], s[1].closure)), s[2..]) else Stuck
  }

  // ---------------------------------------------------------------- arithmetic

  function MumavResult(x: int, s: Stack): After {
    if -I64_MAX - 1 <= x <= I64_MAX then Next([VMumav(x)] + s) else Raise(MumavOverflow)
  }

  function NumberEffect(op: NumberOp, s: Stack): Effect {
    match op
    case AddInt =>
      if |s| > 1 && s[0].VInt? && s[1].VInt? then Push1(CostAddNum(s[0].i, s[1].i), VInt(s[0].i + s[1].i), s[2..])
      else Stuck
    case AddNat =>
      if |s| > 1 && s[0].VNat? && s[1].VNat? then Push1(CostAddNum(s[0].n, s[1].n), VNat(s[0].n + s[1].n), s[2..])
      else Stuck
    case AddMumav =>
      if |s| > 1 && s[0].VMumav? && s[1].VMumav? then Charge(20, MumavResult(s[0].m + s[1].m, s[2..])) else Stuck
    case SubInt =>
      if |s| > 1 && s[0].VInt? && s[1].VInt? then Push1(CostAddNum(s[0].i, s[1].i), VInt(s[0].i - s[1].i), s[2..])
      else Stuck
    case SubMumav =>
      Charge(15,
        if |s| > 1 && s[0].VMumav? && s[1].VMumav?
        then Next([if s[0].m >= s[1].m then VSome(VMumav(s[0].m - s[1].m)) else VNone] + s[2..]) else Crash)
    case MulMumavNat =>
      Charge(50,
        if |s| > 1 && s[0].VMumav? && s[1].VNat?
        then if s[1].n > I64_MAX then Raise(MumavOverflow) else MumavResult(s[0].m * s[1].n, s[2..]) else Crash)
    case MulNatMumav =>
      Charge(50,
        if |s| > 0 && s[0].VNat?
        then if s[0].n > I64_MAX then Raise(MumavOverflow)
             else if |s| > 1 && s[1].VMumav? then MumavResult(s[0].n * s[1].m, s[2..]) else Crash
        else Crash)
    case NegInt => if |s| > 0 && s[0].VInt? then Push1(CostNeg(s[0].i), VInt(-s[0].i), s[1..]) else Stuck
    case Abs => if |s| > 0 && s[0].VInt? then Push1(CostAbs(s[0].i), VNat(Magnitude(s[0].i)), s[1..]) else Stuck
    case IsNat =>
      if |s| > 0 && s[0].VInt? then Push1(10, if s[0].i < 0 then VNone else VSome(VNat(s[0].i)), s[1..]) else Stuck
    case IntOfNat => if |s| > 0 && s[0].VNat? then Push1(10, VInt(s[0].n), s[1..]) else Stuck
    case NotBool => if |s| > 0 && s[0].VBool? then Push1(10, VBool(!s[0].b), s[1..]) else Stuck
    case AndBool =>
      if |s| > 1 && s[0].VBool? && s[1].VBool? then Push1(10, VBool(s[1].b && s[0].b), s[2..]) else Stuck
  }

  predicate Holds(test: Comparison, i: int) {
    match test
    case Gt => i > 0
    case Ge => i >= 0
    case Eq => i == 0
    case Neq => i != 0
    case Le => i <= 0
    case Lt => i < 0
  }

  // ---------------------------------------------------------------- division

  function Quotient(a: nat, b: nat): nat
    requires b > 0
  {
    a / b
  }

  function Remainder(a: nat, b: nat): (r: nat)
    requires b > 0
    ensures r < b
  {
    a % b
  }

  // Quotient and remainder from those of the magnitudes, sign by sign.
  function EDivSigned(x: int, y: int): (int, nat)
    requires y != 0
  {
    var q: int, r: nat := Quotient(Magnitude(x), Magnitude(y)), Remainder(Magnitude(x), Magnitude(y));
    if x < 0 && y < 0 then if r > 0 then (q + 1, Magnitude(y) - r) else (q, r)
    else if x < 0 then if r > 0 then (-q - 1, Magnitude(y) - r) else (-q, r)
    else if y > 0 then (q, r)
    else (-q, r)
  }

  // Division rounding toward zero.
  function TruncDiv(x: int, y: int): int
    requires y != 0
  {
    var q: int := Quotient(Magnitude(x), Magnitude(y));
    if (x < 0) == (y < 0) then q else -q
  }

  function TruncRem(x: int, y: int): int
    requires y != 0
  {
    x - TruncDiv(x, y) * y
  }

  function DivisionEffect(op: DivisionOp, s: Stack): Effect {
    match op
    case EDivNat =>
      if |s| > 1 && s[0].VNat? && s[1].VNat? then
        Push1(CostEDiv(s[0].n, s[1].n),
          if s[1].n == 0 then VNone else VSome(VPair(VNat(Quotient(s[0].n, s[1].n)), VNat(Remainder(s[0].n, s[1].n)))), s[2..])
      else Stuck
    case EDivInt =>
      if |s| > 1 && s[0].VInt? && s[1].VInt? then
        Push1(CostEDiv(s[0].i, s[1].i),
          if s[1].i == 0 then VNone
          else var (q, r) := EDivSigned(s[0].i, s[1].i); VSome(VPair(VInt(q), VNat(r))), s[2..])
      else Stuck
    case EDivMumavNat =>
      if |s| > 1 && s[0].VMumav? && s[1].VNat? then
        Push1(70,
          if s[1].n == 0 then VNone
          else if s[1].n > I64_MAX then VSome(VPair(VMumav(0), VMumav(s[0].m)))
          else VSome(VPair(VMumav(TruncDiv(s[0].m, s[1].n)), VMumav(TruncRem(s[0].m, s[1].n)))), s[2..])
      else Stuck
    case EDivMumavMumav =>
      if |s| > 1 && s[0].VMumav? && s[1].VMumav? then
        if s[1].m == 0 then Push1(80, VNone, s[2..])
        else
          // converting a negative quotient to a natural panics
          var q := TruncDiv(s[0].m, s[1].m);
          if q < 0 then Charge(80, Crash)
          else Push1(80, VSome(VPair(VNat(q), VMumav(TruncRem(s[0].m, s[1].m)))), s[2..])
      else Stuck
  }

  // ---------------------------------------------------------------- tickets

  function TicketEffect(op: TicketOp, ctx: Ctx, s: Stack): Effect {
    match op
    case Ticket =>
      if |s| > 1 && s[1].VNat? then
        Push1(10, if s[1].n == 0 then VNone else VSome(VTicket(ctx.self, s[0], s[1].n)), s[2..])
      else Stuck
    case ReadTicket =>
      Charge(10,
        if |s| > 0 && s[0].VTicket?
        then Next([VPair(VAddress(s[0].ticketer), VPair(s[0].content, VNat(s[0].amount)))] + s) else Crash)
    case SplitTicket =>
      if |s| > 1 && s[0].VTicket? && s[1].VPair? && s[1].l.VNat? && s[1].r.VNat? then
        var t, a, b := s[0], s[1].l.n, s[1].r.n;
        Push1(COST_SPLIT_TICKET,
          if a + b == t.amount && a > 0 && b > 0
          then VSome(VPair(VTicket(t.ticketer, t.content, a), VTicket(t.ticketer, t.content, b))) else VNone, s[2..])
      else Stuck
    case JoinTickets =>
      if |s| > 0 && s[0].VPair? && s[0].l.VTicket? && s[0].r.VTicket? then
        var t, u := s[0].l, s[0].r;
        match CostCompare(t.content, u.content)
        case None => Incomparable
        case Some(c) =>
          Push1(if c > U32_MAX then c else CostAddNum(t.amount, u.amount),
            if t.content == u.content && t.ticketer == u.ticketer
            then VSome(VTicket(t.ticketer, t.content, t.amount + u.amount)) else VNone, s[1..])
      else Stuck
  }
}
