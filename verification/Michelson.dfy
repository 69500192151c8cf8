/** Types, values and instructions of the modelled Michelson fragment. */
module Michelson {

  datatype Option<+T> = None | Some(value: T)

  // Hashes of contracts and accounts, as opaque numbers.
  type Address = nat

  datatype Type =
    | TInt | TNat | TMumav | TBool | TUnit | TNever | TAddress
    | TPair(l: Type, r: Type)
    | TOption(t: Type)
    | TOr(l: Type, r: Type)
    | TList(t: Type)
    | TLambda(a: Type, b: Type)
    | TTicket(t: Type)

  datatype Value =
    | VInt(i: int)
    | VNat(n: nat)
    | VMumav(m: int)
    | VBool(b: bool)
    | VUnit
    | VAddress(address: Address)
    | VPair(l: Value, r: Value)
    | VNone
    | VSome(v: Value)
    | VLeft(v: Value)
    | VRight(v: Value)
    | VList(vs: seq<Value>)
    | VLambda(closure: Closure)
    | VTicket(ticketer: Address, content: Value, amount: nat)

  // A lambda literal; the argument and result types are those written in the program.
  datatype Lambda = Lambda(recursive: bool, a: Type, b: Type, code: seq<Instr>)

  datatype Closure =
    | Simple(lam: Lambda)
    | Applied(argTy: Type, arg: Value, inner: Closure)

  datatype Instr =
    | Seq(body: seq<Instr>)
    | If(whenTrue: seq<Instr>, whenFalse: seq<Instr>)
    | IfNone(whenNone: seq<Instr>, whenSome: seq<Instr>)
    | IfCons(whenCons: seq<Instr>, whenNil: seq<Instr>)
    | IfLeft(whenLeft: seq<Instr>, whenRight: seq<Instr>)
    | Loop(body: seq<Instr>)
    | LoopLeft(body: seq<Instr>)
    | Iter(body: seq<Instr>)
    | MapList(body: seq<Instr>)
    | MapOption(body: seq<Instr>)
    | Dip(height: Option<nat>, body: seq<Instr>)
    | Exec
    | Prim(op: Op)

  // The instructions that run no other instruction.
  datatype Op =
    | Stack(stackOp: StackOp)
    | Combs(combOp: CombOp)
    | Data(dataOp: DataOp)
    | Number(numberOp: NumberOp)
    | Division(divisionOp: DivisionOp)
    | Test(test: Comparison)
    | Tickets(ticketOp: TicketOp)

  datatype StackOp =
    | Drop(height: Option<nat>) | Dup(height: Option<nat>) | Dig(n: nat) | Dug(n: nat) | Swap
    | Push(ty: Type, v: Value) | Unit | Amount | Balance | Failwith(ty: Type) | Never

  datatype CombOp = Pair | PairN(n: nat) | Unpair | UnpairN(n: nat) | Car | Cdr | GetN(n: nat) | UpdateN(n: nat)

  datatype DataOp =
    | ISome | INone(ty: Type) | Left(ty: Type) | Right(ty: Type) | Nil(ty: Type) | Cons
    | ILambda(lam: Lambda) | Apply(ty: Type)

  datatype NumberOp =
    | AddInt | AddNat | AddMumav | SubInt | SubMumav | MulMumavNat | MulNatMumav
    | NegInt | Abs | IsNat | IntOfNat | NotBool | AndBool

  datatype DivisionOp = EDivNat | EDivInt | EDivMumavNat | EDivMumavMumav

  datatype Comparison = Gt | Ge | Eq | Neq | Le | Lt

  datatype TicketOp = Ticket | ReadTicket | SplitTicket | JoinTickets

  // The transaction a script runs in.
  datatype Ctx = Ctx(self: Address, amount: int, balance: int)

  const I64_MAX: int := 0x7fff_ffff_ffff_ffff
  const U32_MAX: int := 0xffff_ffff

  // ---------------------------------------------------------------- type properties

  // Also the condition for being pushable, which agrees with it on these types.
  predicate Duplicable(t: Type) {
    match t
    case TTicket(_) => false
    case TPair(l, r) => Duplicable(l) && Duplicable(r)
    case TOr(l, r) => Duplicable(l) && Duplicable(r)
    case TOption(u) => Duplicable(u)
    case TList(u) => Duplicable(u)
    case _ => true
  }

  predicate Comparable(t: Type) {
    match t
    case TTicket(_) | TLambda(_, _) | TList(_) => false
    case TPair(l, r) => Comparable(l) && Comparable(r)
    case TOr(l, r) => Comparable(l) && Comparable(r)
    case TOption(u) => Comparable(u)
    case _ => true
  }

  // ---------------------------------------------------------------- combs

  // The right comb of a non-empty list of values.
  function Comb(vs: seq<Value>): Value
    requires |vs| > 0
  {
    if |vs| == 1 then vs[0] else VPair(vs[0], Comb(vs[1..]))
  }

  // The n leaves of a right comb, or nothing if it is shorter.
  function Uncomb(n: nat, v: Value): Option<seq<Value>>
    requires n > 0
    decreases n
  {
    if n == 1 then Some([v])
    else if !v.VPair? then None
    else match Uncomb(n - 1, v.r)
      case None => None
      case Some(vs) => Some([v.l] + vs)
  }

  // Field m of a comb: 0 is the whole, odd numbers are leaves, even ones the rest after them.
  function Field(m: nat, v: Value): Option<Value> {
    if m == 0 then Some(v)
    else if !v.VPair? then None
    else if m == 1 then Some(v.l)
    else Field(m - 2, v.r)
  }

  function WithField(m: nat, v: Value, x: Value): Option<Value> {
    if m == 0 then Some(x)
    else if !v.VPair? then None
    else if m == 1 then Some(VPair(x, v.r))
    else match WithField(m - 2, v.r, x)
      case None => None
      case Some(r) => Some(VPair(v.l, r))
  }

  // ---------------------------------------------------------------- gas costs

  // Number of bytes of a magnitude.
  function ByteSize(n: nat): nat { if n == 0 then 0 else 1 + ByteSize(n / 256) }

  function Magnitude(i: int): nat { if i < 0 then -i else i }

  function Max(a: nat, b: nat): nat { if a < b then b else a }

  function HeightOr1(h: Option<nat>): nat { if h.Some? then h.value else 1 }

  function CostDip(h: Option<nat>): nat { if h.None? then 10 else 15 + 4 * h.value }
  function CostUndip(n: nat): nat { (n + 1) * 10 }
  function CostDrop(h: Option<nat>): nat { if h.None? then 10 else 30 + h.value * 2 + h.value / 2 + h.value / 8 }
  function CostDup(h: Option<nat>): nat { if h.None? then 10 else 20 + h.value + h.value / 4 }
  function CostDig(n: nat): nat { 30 + 6 * n + n / 2 + n / 4 }
  function CostDug(n: nat): nat { 35 + 6 * n + n / 2 + n / 4 }
  function CostAddNum(a: int, b: int): nat { 35 + Max(ByteSize(Magnitude(a)), ByteSize(Magnitude(b))) / 2 }
  function CostEDiv(a: int, b: int): nat {
    var s, t := ByteSize(Magnitude(a)), ByteSize(Magnitude(b));
    var w := if s >= t then s - t else 0;
    w * 12 + (w / 1024 + w / 8192) * t + s / 4 + s + 150
  }
  function CostNeg(a: int): nat { 25 + ByteSize(Magnitude(a)) / 2 }
  function CostAbs(a: int): nat { 20 + ByteSize(Magnitude(a)) / 2 }
  function CostPairN(n: nat): nat { var v := if n < 2 then U32_MAX else n - 2; 40 + v / 4 + v * 3 }
  function CostUnpairN(n: nat): nat { var v := if n < 2 then U32_MAX else n - 2; 30 + v * 4 }
  function CostGetN(n: nat): nat { 20 + n / 2 + n / 16 }
  function CostUpdateN(n: nat): nat { 30 + n / 32 + n / 4 + n }
  // The source measures the two big-integer structs, three machine words each.
  const COST_SPLIT_TICKET: nat := 40 + 24 / 2

  // The cost of comparing two values; None where the source panics on incomparable values.
  function CostCompare(a: Value, b: Value): Option<nat>
    decreases a
  {
    match (a, b)
    case (VNat(x), VNat(y)) => Some(CostCompareBytes(ByteSize(x), ByteSize(y)))
    case (VInt(x), VInt(y)) => Some(CostCompareBytes(ByteSize(Magnitude(x)), ByteSize(Magnitude(y))))
    case (VBool(_), VBool(_)) => Some(CostCompareBytes(1, 1))
    case (VMumav(_), VMumav(_)) => Some(CostCompareBytes(8, 8))
    case (VUnit, VUnit) => Some(10)
    case (VAddress(_), VAddress(_)) => Some(CostCompareBytes(51, 51))
    case (VPair(l, r), VPair(l', r')) =>
      var x, y := CostCompare(l, l'), CostCompare(r, r');
      if x.None? || y.None? then None else Some(10 + x.value + y.value)
    case (VNone, VNone) => Some(10)
    case (VNone, VSome(_)) => Some(10)
    case (VSome(_), VNone) => Some(10)
    case (VSome(x), VSome(y)) => CostNested(CostCompare(x, y))
    case (VLeft(x), VLeft(y)) => CostNested(CostCompare(x, y))
    case (VRight(x), VRight(y)) => CostNested(CostCompare(x, y))
    case (VLeft(_), VRight(_)) => Some(10)
    case (VRight(_), VLeft(_)) => Some(10)
    case _ => None
  }

  function CostNested(c: Option<nat>): Option<nat> { if c.None? then None else Some(10 + c.value) }

  function CostCompareBytes(a: nat, b: nat): nat { var v := if a < b then a else b; 35 + v / 64 + v / 128 }
}
