/**
 * The register machine as a function of its state: the handlers of X86Commands
 * (Commands/X86Commands.cs) and X86Instructions (Instructions/X86Instructions.cs), the
 * dispatch of X86Processor.Run(Command) and the fetch/execute loop of X86Processor.Run.
 * The imperative processor in module Processor is proved against these functions.
 */
module Machine {
  import opened Common
  import opened Text
  import opened Ops

  /** The two handler classes; they differ only in Msg, which X86Commands trims parameters for. */
  datatype HandlerSet = X86Commands | X86Instructions

  /**
   * The processor's fields: the register dictionary, LastCompareResult, the ReturnAddresses
   * stack (its top is the last element), the instruction pointer and Data (None is null).
   */
  datatype State = State(registers: map<string, int>, compare: int, stack: seq<int>, address: int, data: Option<string>)

  /** What a handler does: go on with a new state, or raise OperationCanceledException (end). */
  datatype Effect = Next(state: State) | Halt

  /** Every value the machine holds is a 32-bit int and the compare flag is a CompareTo result. */
  ghost predicate Valid(s: State) {
    && (forall k :: k in s.registers ==> IsInt32(s.registers[k]))
    && (forall i :: 0 <= i < |s.stack| ==> IsInt32(s.stack[i]))
    && IsInt32(s.address)
    && -1 <= s.compare <= 1
  }

  /** The handlers, one per key of the handler table (the lower-cased handler method names). */
  datatype Mnemonic =
    | mov | inc | dec | jnz | add | sub | mul | div | jmp | cmp
    | jne | je | jge | jg | jle | jl | call | ret | msg | end

  /** The key under which each handler is registered. */
  function Key(m: Mnemonic): string {
    match m
    case mov => "mov" case inc => "inc" case dec => "dec" case jnz => "jnz" case add => "add"
    case sub => "sub" case mul => "mul" case div => "div" case jmp => "jmp" case cmp => "cmp"
    case jne => "jne" case je => "je" case jge => "jge" case jg => "jg" case jle => "jle"
    case jl => "jl" case call => "call" case ret => "ret" case msg => "msg" case end => "end"
  }

  /** Supported.Items[name]: a case-sensitive dictionary lookup. */
  function Lookup(name: string): Option<Mnemonic> {
    match name
    case "mov" => Some(mov) case "inc" => Some(inc) case "dec" => Some(dec) case "jnz" => Some(jnz)
    case "add" => Some(add) case "sub" => Some(sub) case "mul" => Some(mul) case "div" => Some(div)
    case "jmp" => Some(jmp) case "cmp" => Some(cmp) case "jne" => Some(jne) case "je" => Some(je)
    case "jge" => Some(jge) case "jg" => Some(jg) case "jle" => Some(jle) case "jl" => Some(jl)
    case "call" => Some(call) case "ret" => Some(ret) case "msg" => Some(msg) case "end" => Some(end)
    case _ => None
  }

  /** The conditional jumps, which test LastCompareResult. */
  predicate IsConditional(m: Mnemonic) {
    m in {jne, je, jge, jg, jle, jl}
  }

  /** The handlers that may move the instruction pointer. */
  predicate IsJump(m: Mnemonic) {
    m in {jnz, jmp, jne, je, jge, jg, jle, jl, call, ret}
  }

  // ---------------------------------------------------------------- reading operands

  /** @params[i], which throws IndexOutOfRangeException past the end. */
  function Param(ps: seq<string>, i: nat): (r: Result<string>)
    ensures r.Ok? <==> i < |ps|
    ensures r.Ok? ==> r.value == ps[i]
    ensures r.Err? ==> r.fault == IndexOutOfRange
  {
    if i < |ps| then Ok(ps[i]) else Err(IndexOutOfRange)
  }

  /** Registers[name]: a dictionary lookup that throws KeyNotFoundException for a missing key. */
  function Register(name: string, registers: map<string, int>): (r: Result<int>)
    ensures r.Ok? <==> name in registers
    ensures r.Ok? ==> r.value == registers[name]
    ensures r.Err? ==> r.fault == UnknownRegister(name)
  {
    if name in registers then Ok(registers[name]) else Err(UnknownRegister(name))
  }

  /** ReadValue: the token's value when int.TryParse accepts it, else the register of that name. */
  function ReadValue(token: string, registers: map<string, int>): Result<int> {
    match TryParseInt(token)
    case Some(v) => Ok(v)
    case None => Register(token, registers)
  }

  /** int.Parse: like TryParse, but throwing on a token it rejects. */
  function ParseInt(token: string): (r: Result<int>)
    ensures r.Ok? <==> TryParseInt(token).Some?
    ensures r.Ok? ==> r.value == TryParseInt(token).value
  {
    match TryParseInt(token)
    case Some(v) => Ok(v)
    case None => Err(BadNumber(token))
  }

  // ---------------------------------------------------------------- arithmetic

  function Abs(x: int): nat {
    if x < 0 then -x else x
  }

  /** C# integer division, which truncates toward zero. */
  function TruncDiv(x: int, y: int): int
    requires y != 0
  {
    var m := Abs(x) / Abs(y);
    if (x < 0) == (y < 0) then m else -m
  }

  /** Int32.CompareTo: -1, 0 or 1 as x is below, equal to or above y. */
  function CompareTo(x: int, y: int): int {
    if x < y then -1 else if x > y then 1 else 0
  }

  // ---------------------------------------------------------------- the pointer

  /** GoTo(t): the pointer is set one short of t, for the loop's increment. */
  function GoTo(s: State, t: int): State {
    s.(address := Wrap(t - 1))
  }

  /** RelativeJump(o): the pointer moves by o and then one back, for the loop's increment. */
  function RelativeJump(s: State, offset: int): State {
    s.(address := Wrap(Wrap(s.address + offset) - 1))
  }

  /** After GoTo(t) and the loop's increment the pointer is at t: only the pointer changes. */
  lemma GoToLands(s: State, t: int)
    requires IsInt32(t)
    ensures Advance(GoTo(s, t)) == s.(address := t)
  {
    WrapPredSucc(t);
  }

  /** After RelativeJump(o) and the loop's increment the pointer has moved by o (wrapping). */
  lemma RelativeJumpLands(s: State, offset: int)
    ensures Advance(RelativeJump(s, offset)) == s.(address := Wrap(s.address + offset))
  {
    WrapPredSucc(Wrap(s.address + offset));
  }

  /** The loop's ++address after each instruction. */
  function Advance(s: State): State {
    s.(address := Wrap(s.address + 1))
  }

  lemma WrapCongruent(x: int, y: int)
    requires (x - y) % 0x1_0000_0000 == 0
    ensures Wrap(x) == Wrap(y)
  {
    var k := (x - y) / 0x1_0000_0000;
    assert x - MinInt32 == (y - MinInt32) + k * 0x1_0000_0000;
  }

  /** Stepping one below a 32-bit value and then one up again gives the value back. */
  lemma WrapPredSucc(t: int)
    requires IsInt32(t)
    ensures Wrap(Wrap(t - 1) + 1) == t
  {
    WrapCongruent(Wrap(t - 1) + 1, t);
  }

  // ---------------------------------------------------------------- handlers

  /** A handler neither names an unknown instruction nor halts. */
  predicate Handled(r: Result<Effect>) {
    (r.Err? ==> !r.fault.UnknownInstruction?) && r != Ok(Halt)
  }

  function Mov(ps: seq<string>, s: State): (r: Result<Effect>)
    ensures Handled(r)
  {
    var rx :- Param(ps, 0);
    var y :- Param(ps, 1);
    var v :- ReadValue(y, s.registers);
    Ok(Next(s.(registers := s.registers[rx := v])))
  }

  /** ++Registers[rx] / --Registers[rx] (delta 1 or -1), in unchecked 32-bit arithmetic. */
  function Increment(ps: seq<string>, s: State, delta: int): (r: Result<Effect>)
    ensures Handled(r)
  {
    var rx :- Param(ps, 0);
    var x :- Register(rx, s.registers);
    Ok(Next(s.(registers := s.registers[rx := Wrap(x + delta)])))
  }

  function Inc(ps: seq<string>, s: State): (r: Result<Effect>)
    ensures Handled(r)
  {
    Increment(ps, s, 1)
  }

  function Dec(ps: seq<string>, s: State): (r: Result<Effect>)
    ensures Handled(r)
  {
    Increment(ps, s, -1)
  }

  /** The arithmetic operators of the compound assignments Registers[rx] op= y. */
  datatype Operator = Plus | Minus | Times | Quotient

  /**
   * Registers[rx] op= ReadValue(params[1]): the register is read before the operand; + - *
   * wrap around, / throws on a zero divisor and on int.MinValue / -1.
   */
  function Combine(op: Operator, ps: seq<string>, s: State): (r: Result<Effect>)
    ensures Handled(r)
  {
    var rx :- Param(ps, 0);
    var x :- Register(rx, s.registers);
    var token :- Param(ps, 1);
    var y :- ReadValue(token, s.registers);
    var v :- Apply(op, x, y);
    Ok(Next(s.(registers := s.registers[rx := v])))
  }

  function Apply(op: Operator, x: int, y: int): (r: Result<int>)
    ensures r.Err? ==> r.fault == DivideByZero || r.fault == ArithmeticOverflow
  {
    if op == Quotient then
      if y == 0 then Err(DivideByZero)
      else if x == MinInt32 && y == -1 then Err(ArithmeticOverflow)
      else Ok(TruncDiv(x, y))
    else Ok(Wrap(Exact(op, x, y)))
  }

  /** The mathematical value of x + y, x - y or x * y, before it wraps around. */
  function Exact(op: Operator, x: int, y: int): int
    requires op != Quotient
  {
    match op
    case Plus => x + y
    case Minus => x - y
    case _ => x * y
  }

  function Jnz(ps: seq<string>, s: State): (r: Result<Effect>)
    ensures Handled(r)
  {
    var tx :- Param(ps, 0);
    var x :- ReadValue(tx, s.registers);
    if x == 0 then Ok(Next(s))
    else
      var ty :- Param(ps, 1);
      var offset :- ParseInt(ty);
      Ok(Next(RelativeJump(s, offset)))
  }

  function Jmp(ps: seq<string>, s: State): (r: Result<Effect>)
    ensures Handled(r)
  {
    var tx :- Param(ps, 0);
    var t :- ReadValue(tx, s.registers);
    Ok(Next(GoTo(s, t)))
  }

  function Cmp(ps: seq<string>, s: State): (r: Result<Effect>)
    ensures Handled(r)
  {
    var tx :- Param(ps, 0);
    var x :- ReadValue(tx, s.registers);
    var ty :- Param(ps, 1);
    var y :- ReadValue(ty, s.registers);
    Ok(Next(s.(compare := CompareTo(x, y))))
  }

  /** The test each conditional jump applies to LastCompareResult. */
  predicate Holds(m: Mnemonic, c: int) {
    match m
    case jne => c != 0
    case je => c == 0
    case jge => c >= 0
    case jg => c > 0
    case jle => c <= 0
    case jl => c < 0
    case _ => false
  }

  /** A conditional jump: Jmp when its test holds, nothing otherwise. */
  function Branch(m: Mnemonic, ps: seq<string>, s: State): (r: Result<Effect>)
    ensures Handled(r)
  {
    if Holds(m, s.compare) then Jmp(ps, s) else Ok(Next(s))
  }

  /** ReturnAddresses.Push(CurrentAddress + 1). */
  function Push(s: State): State {
    s.(stack := s.stack + [Wrap(s.address + 1)])
  }

  function Call(ps: seq<string>, s: State): (r: Result<Effect>)
    ensures Handled(r)
  {
    Jmp(ps, Push(s))
  }

  function Ret(s: State): (r: Result<Effect>)
    ensures Handled(r)
  {
    if s.stack == [] then Err(EmptyStack)
    else Ok(Next(GoTo(s.(stack := s.stack[..|s.stack| - 1]), s.stack[|s.stack| - 1])))
  }

  /**
   * What one Msg parameter contributes: the text between the quotes of a parameter that
   * starts and ends with a quote and is longer than two characters, nothing for any other
   * parameter starting with a quote, and otherwise the decimal value of the register named
   * by the lower-cased parameter.
   */
  function Piece(p: string, registers: map<string, int>): Result<string> {
    if |p| > 0 && p[0] == '\'' then
      Ok(if |p| > 2 && p[|p| - 1] == '\'' then p[1..|p| - 1] else "")
    else
      var v :- Register(Lower(p), registers);
      Ok(Decimal(v))
  }

  /** The parameter as Msg sees it: trimmed by X86Commands, as it is by X86Instructions. */
  function Shape(h: HandlerSet, p: string): string {
    if h == X86Commands then Trim(p) else p
  }

  /** The text Msg builds: the pieces of the parameters in order; the first failing one throws. */
  function Message(h: HandlerSet, ps: seq<string>, registers: map<string, int>): (r: Result<string>)
    ensures r.Err? ==> r.fault.UnknownRegister?
  {
    if ps == [] then Ok("")
    else
      var m :- Message(h, ps[..|ps| - 1], registers);
      var p :- Piece(Shape(h, ps[|ps| - 1]), registers);
      Ok(m + p)
  }

  function Msg(h: HandlerSet, ps: seq<string>, s: State): (r: Result<Effect>)
    ensures Handled(r)
  {
    var m :- Message(h, ps, s.registers);
    Ok(Next(s.(data := Some(m))))
  }

  /** A handler, as FillSupportedOperations registers it: an action on the parameters. */
  type Handler = (seq<string>, State) -> Result<Effect>

  /** The handler the table holds for m: the two handler classes differ only in Msg. */
  function HandlerOf(h: HandlerSet, m: Mnemonic): Handler {
    if m == msg then (ps, s) => Msg(h, ps, s) else SharedHandler(m)
  }

  /** The handlers both classes define alike. */
  function SharedHandler(m: Mnemonic): Handler
    requires m != msg
  {
    match m
    case mov => Mov
    case inc => Inc
    case dec => Dec
    case jnz => Jnz
    case add => (ps, s) => Combine(Plus, ps, s)
    case sub => (ps, s) => Combine(Minus, ps, s)
    case mul => (ps, s) => Combine(Times, ps, s)
    case div => (ps, s) => Combine(Quotient, ps, s)
    case jmp => Jmp
    case cmp => Cmp
    case call => Call
    case ret => (ps, s) => Ret(s)
    case end => (ps, s) => Ok(Halt)
    case _ => (ps, s) => Branch(m, ps, s)
  }

  /** The handler m applied to the parameters. */
  function Perform(h: HandlerSet, m: Mnemonic, ps: seq<string>, s: State): (r: Result<Effect>)
    ensures r.Err? ==> !r.fault.UnknownInstruction?
    ensures r == Ok(Halt) <==> m == end
  {
    HandlerOf(h, m)(ps, s)
  }

  /**
   * Run(Command): look the name up in the handler table and apply the handler to the
   * parameters. Unknown names fail, and end is the only handler that halts.
   */
  function Execute(h: HandlerSet, op: Op, s: State): (r: Result<Effect>)
    ensures r == Err(UnknownInstruction(op.name)) <==> Lookup(op.name).None?
    ensures r == Ok(Halt) <==> Lookup(op.name) == Some(end)
  {
    match Lookup(op.name)
    case None => Err(UnknownInstruction(op.name))
    case Some(m) => Perform(h, m, op.params, s)
  }

  /**
   * The state a failing instruction leaves behind: call has already pushed its return
   * address when the jump fails; every other handler throws before it writes anything.
   */
  function FaultState(op: Op, s: State): State {
    if Lookup(op.name) == Some(call) then Push(s) else s
  }

  // ---------------------------------------------------------------- the run loop

  /** How the fetch/execute loop stops, with the state at that point. */
  datatype Stop =
    | Ended(state: State)                // end was executed
    | FellThrough(state: State)          // the pointer reached or passed the last instruction
    | Faulted(fault: Fault, state: State)
    | Exhausted(state: State)            // the fuel ran out first

  /** One pass of the loop: it either goes on from a new state or stops the loop. */
  datatype Transition = Go(next: State) | Stopped(stop: Stop)

  /** A loop whose passes are step, run for at most fuel passes. */
  function Iterate(step: State -> Transition, s: State, fuel: nat): Stop
    decreases fuel
  {
    if fuel == 0 then Exhausted(s)
    else match step(s)
      case Stopped(t) => t
      case Go(n) => Iterate(step, n, fuel - 1)
  }

  /**
   * One pass of for (; address < program.Length; ++address) Run(program[address]).
   * A negative pointer passes the loop test and fails at the array access.
   */
  function Step(h: HandlerSet, program: seq<Op>, s: State): Transition {
    if s.address >= |program| then Stopped(FellThrough(s))
    else if s.address < 0 then Stopped(Faulted(IndexOutOfRange, s))
    else Conclude(program[s.address], s, Execute(h, program[s.address], s))
  }

  /** How the pass over op goes on from what its handler did: end stops, a fault propagates, else ++address. */
  function Conclude(op: Op, s: State, r: Result<Effect>): Transition {
    match r
    case Err(f) => Stopped(Faulted(f, FaultState(op, s)))
    case Ok(Halt) => Stopped(Ended(s))
    case Ok(Next(n)) => Go(Advance(n))
  }

  /** Step as a function of the state alone. */
  function StepOf(h: HandlerSet, program: seq<Op>): State -> Transition {
    x => Step(h, program, x)
  }

  /** The loop of Run(Command[]) from state s, for at most fuel passes. */
  function RunFrom(h: HandlerSet, program: seq<Op>, s: State, fuel: nat): Stop {
    Iterate(StepOf(h, program), s, fuel)
  }

  /** What Run(Command[]) reports to its caller: normal return, a rethrown fault, or no verdict. */
  datatype Outcome = Completed | Threw(fault: Fault) | OutOfFuel

  /** The state the finally block leaves: everything zeroed and cleared except Data. */
  function Reset(data: Option<string>): State {
    State(map[], 0, [], 0, data)
  }

  /**
   * Run(Command[]): the loop, then Data = null when it ran off the end; end is caught and
   * returns normally; any other fault is rethrown; all but Data is reset in every case.
   */
  function RunProgram(h: HandlerSet, program: seq<Op>, s: State, fuel: nat): (r: (Outcome, State))
    ensures r.1 == Reset(r.1.data)
    ensures r.0 == Completed ==> r.1.data == (if RunFrom(h, program, s, fuel).Ended? then RunFrom(h, program, s, fuel).state.data else None)
    ensures r.0.Threw? ==> RunFrom(h, program, s, fuel) == Faulted(r.0.fault, RunFrom(h, program, s, fuel).state)
    ensures var v := RunFrom(h, program, s, fuel);
      (v.Ended? || v.FellThrough? ==> r.0 == Completed) &&
      (v.Faulted? ==> r == (Threw(v.fault), Reset(v.state.data))) &&
      (v.Exhausted? ==> r.0 == OutOfFuel)
  {
    match RunFrom(h, program, s, fuel)
    case Ended(e) => (Completed, Reset(e.data))
    case FellThrough(_) => (Completed, Reset(None))
    case Faulted(f, e) => (Threw(f), Reset(e.data))
    case Exhausted(e) => (OutOfFuel, Reset(e.data))
  }
}
