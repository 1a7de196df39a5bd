/**
 * X86Processor and the handler classes as objects that change state in place. Every method
 * is proved to do what the function of the same name in module Machine says, so what module
 * Behaviour proves about those functions holds of these methods.
 */
module Processor {
  import opened Common
  import opened Text
  import opened Ops
  import opened Machine
  import opened Behaviour

  /** How a handler returns: normally, by OperationCanceledException (end) or by another exception. */
  datatype Exit = Normal | Canceled | Raised(fault: Fault)

  /**
   * A handler method did what the handler function says: it went on to the state the
   * function gives, or threw as the function says, leaving the state it had reached when
   * it threw (thrown).
   */
  predicate Agrees(spec: Result<Effect>, exit: Exit, thrown: Machine.State, after: Machine.State) {
    match spec
    case Ok(Next(n)) => exit == Normal && after == n
    case Ok(Halt) => exit == Canceled && after == thrown
    case Err(f) => exit == Raised(f) && after == thrown
  }

  class X86Processor {
    var registers: map<string, int>
    var returnAddresses: seq<int>     // the stack, its top last
    var data: Option<string>
    var lastCompareResult: int
    var address: int
    const supported: Handlers

    /** The processor's state as the functions of module Machine see it. */
    function State(): Machine.State
      reads this
    {
      Machine.State(registers, lastCompareResult, returnAddresses, address, data)
    }

    /** A new processor: nothing in it, and the X86Commands handlers. */
    constructor()
      ensures State() == Reset(None) && supported.kind == X86Commands
    {
      registers := map[];
      returnAddresses := [];
      data := None;
      lastCompareResult := 0;
      address := 0;
      supported := new Handlers(X86Commands);
    }

    method RelativeJump(offset: int)
      modifies this
      ensures State() == Machine.RelativeJump(old(State()), offset)
    {
      address := Wrap(address + offset);
      address := Wrap(address - 1);
    }

    method GoTo(target: int)
      modifies this
      ensures State() == Machine.GoTo(old(State()), target)
    {
      address := target;
      address := Wrap(address - 1);
    }

    /** ++address, at the end of a pass that returned normally. */
    method Advance()
      modifies this
      ensures State() == Machine.Advance(old(State()))
    {
      address := Wrap(address + 1);
    }

    /** Run(Command): the table's handler for the name, applied to the parameters. */
    method Execute(op: Op) returns (exit: Exit)
      modifies this
      ensures Agrees(Machine.Execute(supported.kind, op, old(State())), exit, FaultState(op, old(State())), State())
    {
      var m := Lookup(op.name);
      if m.None? {
        return Raised(UnknownInstruction(op.name));
      }
      exit := supported.Perform(m.value, op.params, this);
    }

    /** One pass of the for loop: the bounds test on program[address], Run(Command), ++address. */
    method Pass(program: seq<Op>, fuel: nat) returns (exit: Exit, left: nat)
      requires address < |program| && fuel > 0
      modifies this
      ensures Continues(supported.kind, program, exit, State(), left) == Continues(supported.kind, program, Normal, old(State()), fuel)
      ensures left == if exit == Normal then fuel - 1 else fuel
    {
      if address < 0 {
        RunFromNegative(supported.kind, program, State(), fuel);
        return Raised(IndexOutOfRange), fuel;
      }
      ghost var before := State();
      exit := Execute(program[address]);
      ghost var after := State();
      if exit == Normal {
        Advance();
        left := fuel - 1;
      } else {
        left := fuel;
      }
      PassContinues(supported.kind, program, before, exit, after, State(), fuel, left);
    }

    /** for (; address < program.Length; ++address) Run(program[address]), for at most fuel passes. */
    method Loop(program: seq<Op>, fuel: nat) returns (exit: Exit, left: nat)
      modifies this
      ensures Continues(supported.kind, program, exit, State(), left) == RunFrom(supported.kind, program, old(State()), fuel)
      ensures exit == Normal ==> left == 0 || address >= |program|
    {
      left := fuel;
      exit := Normal;
      while exit == Normal && left > 0 && address < |program|
        invariant Continues(supported.kind, program, exit, State(), left) == RunFrom(supported.kind, program, old(State()), fuel)
        decreases left, if exit == Normal then 1 else 0
      {
        exit, left := Pass(program, left);
      }
    }

    /**
     * Run(Command[]): the loop, then Data = null if it ran off the end; end returns
     * normally, other faults are rethrown, and the finally block resets all but Data.
     */
    method Run(program: seq<Op>, fuel: nat) returns (outcome: Outcome)
      modifies this
      ensures (outcome, State()) == RunProgram(supported.kind, program, old(State()), fuel)
    {
      var exit, left := Loop(program, fuel);
      if exit == Normal {
        if left == 0 {
          outcome := OutOfFuel;
        } else {
          RunFromStep(supported.kind, program, State(), left);
          data := None;
          outcome := Completed;
        }
      } else if exit == Canceled {
        outcome := Completed;
      } else {
        outcome := Threw(exit.fault);
      }
      address := 0;
      lastCompareResult := 0;
      registers := map[];
      returnAddresses := [];
    }
  }

  /** What a handler's exit says about the rest of the loop. */
  lemma PassContinues(h: HandlerSet, program: seq<Op>, s: Machine.State, exit: Exit, after: Machine.State,
                       final: Machine.State, fuel: nat, left: nat)
    requires 0 <= s.address < |program| && fuel > 0
    requires Agrees(Machine.Execute(h, program[s.address], s), exit, FaultState(program[s.address], s), after)
    requires final == if exit == Normal then Advance(after) else after
    requires left == if exit == Normal then fuel - 1 else fuel
    ensures Continues(h, program, exit, final, left) == Continues(h, program, Normal, s, fuel)
  {
    var r := Machine.Execute(h, program[s.address], s);
    match r
    case Ok(Next(n)) =>
      StepGoes(h, program, s, n);
      RunFromGo(h, program, s, Advance(n), fuel);
    case Ok(Halt) =>
      StepEnds(h, program, s);
      RunFromStopped(h, program, s, Ended(s), fuel);
    case Err(f) =>
      StepFails(h, program, s, f);
      RunFromStopped(h, program, s, Faulted(f, after), fuel);
  }

  /** A negative pointer stops the loop at the array access. */
  lemma RunFromNegative(h: HandlerSet, program: seq<Op>, s: Machine.State, left: nat)
    requires s.address < 0 && left > 0
    ensures Continues(h, program, Raised(IndexOutOfRange), s, left) == Continues(h, program, Normal, s, left)
  {
    RunFromStopped(h, program, s, Faulted(IndexOutOfRange, s), left);
  }

  /** The loop's verdict from here: the rest of the loop, or where an exception stopped it. */
  function Continues(h: HandlerSet, program: seq<Op>, exit: Exit, s: Machine.State, left: nat): Stop {
    if exit == Normal then RunFrom(h, program, s, left) else Interrupted(exit, s)
  }

  /** Where the loop stops when a pass did not return normally. */
  function Interrupted(exit: Exit, s: Machine.State): Stop
    requires exit != Normal
  {
    if exit == Canceled then Ended(s) else Faulted(exit.fault, s)
  }

  /** X86Commands (kind == X86Commands) or X86Instructions: one method per handler. */
  class Handlers {
    const kind: HandlerSet

    constructor(kind: HandlerSet)
      ensures this.kind == kind
    {
      this.kind := kind;
    }

    method Mov(ps: seq<string>, p: X86Processor) returns (exit: Exit)
      modifies p
      ensures Agrees(Machine.Mov(ps, old(p.State())), exit, old(p.State()), p.State())
    {
      if |ps| < 2 {
        return Raised(IndexOutOfRange);
      }
      var rx := ps[0];
      var y := ReadValue(ps[1], p.registers);
      if y.Err? {
        return Raised(y.fault);
      }
      p.registers := p.registers[rx := y.value];
      exit := Normal;
    }

    /** ++Registers[rx] (delta 1) or --Registers[rx] (delta -1). */
    method Increment(ps: seq<string>, p: X86Processor, delta: int) returns (exit: Exit)
      modifies p
      ensures Agrees(Machine.Increment(ps, old(p.State()), delta), exit, old(p.State()), p.State())
    {
      if |ps| == 0 {
        return Raised(IndexOutOfRange);
      }
      var rx := ps[0];
      if rx !in p.registers {
        return Raised(UnknownRegister(rx));
      }
      p.registers := p.registers[rx := Wrap(p.registers[rx] + delta)];
      exit := Normal;
    }

    method Inc(ps: seq<string>, p: X86Processor) returns (exit: Exit)
      modifies p
      ensures Agrees(Machine.Inc(ps, old(p.State())), exit, old(p.State()), p.State())
    {
      exit := Increment(ps, p, 1);
    }

    method Dec(ps: seq<string>, p: X86Processor) returns (exit: Exit)
      modifies p
      ensures Agrees(Machine.Dec(ps, old(p.State())), exit, old(p.State()), p.State())
    {
      exit := Increment(ps, p, -1);
    }

    method Jnz(ps: seq<string>, p: X86Processor) returns (exit: Exit)
      modifies p
      ensures Agrees(Machine.Jnz(ps, old(p.State())), exit, old(p.State()), p.State())
    {
      if |ps| == 0 {
        return Raised(IndexOutOfRange);
      }
      var x := ReadValue(ps[0], p.registers);
      if x.Err? {
        return Raised(x.fault);
      }
      if x.value != 0 {
        if |ps| == 1 {
          return Raised(IndexOutOfRange);
        }
        var offset := ParseInt(ps[1]);
        if offset.Err? {
          return Raised(offset.fault);
        }
        p.RelativeJump(offset.value);
      }
      exit := Normal;
    }

    /** Registers[rx] op= ReadValue(params[1]), the register read first. */
    method Compound(op: Operator, ps: seq<string>, p: X86Processor) returns (exit: Exit)
      modifies p
      ensures Agrees(Combine(op, ps, old(p.State())), exit, old(p.State()), p.State())
    {
      if |ps| == 0 {
        return Raised(IndexOutOfRange);
      }
      var rx := ps[0];
      if rx !in p.registers {
        return Raised(UnknownRegister(rx));
      }
      var x := p.registers[rx];
      if |ps| == 1 {
        return Raised(IndexOutOfRange);
      }
      var y := ReadValue(ps[1], p.registers);
      if y.Err? {
        return Raised(y.fault);
      }
      var v := Apply(op, x, y.value);
      if v.Err? {
        return Raised(v.fault);
      }
      p.registers := p.registers[rx := v.value];
      exit := Normal;
    }

    method Jmp(ps: seq<string>, p: X86Processor) returns (exit: Exit)
      modifies p
      ensures Agrees(Machine.Jmp(ps, old(p.State())), exit, old(p.State()), p.State())
    {
      if |ps| == 0 {
        return Raised(IndexOutOfRange);
      }
      var target := ReadValue(ps[0], p.registers);
      if target.Err? {
        return Raised(target.fault);
      }
      p.GoTo(target.value);
      exit := Normal;
    }

    method Cmp(ps: seq<string>, p: X86Processor) returns (exit: Exit)
      modifies p
      ensures Agrees(Machine.Cmp(ps, old(p.State())), exit, old(p.State()), p.State())
    {
      if |ps| == 0 {
        return Raised(IndexOutOfRange);
      }
      var x := ReadValue(ps[0], p.registers);
      if x.Err? {
        return Raised(x.fault);
      }
      if |ps| == 1 {
        return Raised(IndexOutOfRange);
      }
      var y := ReadValue(ps[1], p.registers);
      if y.Err? {
        return Raised(y.fault);
      }
      p.lastCompareResult := CompareTo(x.value, y.value);
      exit := Normal;
    }

    /** Jne, Je, Jge, Jg, Jle and Jl: Jmp when the test m applies to LastCompareResult holds. */
    method Branch(m: Mnemonic, ps: seq<string>, p: X86Processor) returns (exit: Exit)
      requires IsConditional(m)
      modifies p
      ensures Agrees(Machine.Branch(m, ps, old(p.State())), exit, old(p.State()), p.State())
    {
      var c := p.lastCompareResult;
      var holds :=
        match m
        case jne => c != 0
        case je => c == 0
        case jge => c >= 0
        case jg => c > 0
        case jle => c <= 0
        case _ => c < 0;
      if holds {
        exit := Jmp(ps, p);
      } else {
        exit := Normal;
      }
    }

    /** ReturnAddresses.Push(CurrentAddress + 1), then Jmp: a failing Jmp leaves the push done. */
    method Call(ps: seq<string>, p: X86Processor) returns (exit: Exit)
      modifies p
      ensures Agrees(Machine.Call(ps, old(p.State())), exit, Push(old(p.State())), p.State())
    {
      p.returnAddresses := p.returnAddresses + [Wrap(p.address + 1)];
      exit := Jmp(ps, p);
    }

    method Ret(p: X86Processor) returns (exit: Exit)
      modifies p
      ensures Agrees(Machine.Ret(old(p.State())), exit, old(p.State()), p.State())
    {
      if p.returnAddresses == [] {
        return Raised(EmptyStack);
      }
      var top := p.returnAddresses[|p.returnAddresses| - 1];
      p.returnAddresses := p.returnAddresses[..|p.returnAddresses| - 1];
      p.GoTo(top);
      exit := Normal;
    }

    /** AddToMessage: the parameter's piece appended to the message, or the register lookup's fault. */
    static method AddToMessage(message: string, param: string, registers: map<string, int>) returns (r: Result<string>)
      ensures r == Then(Ok(message), Piece(param, registers))
    {
      if |param| > 0 && param[0] == '\'' {
        if |param| > 2 && param[|param| - 1] == '\'' {
          return Ok(message + param[1..|param| - 1]);
        }
        return Ok(message + "");
      }
      var name := Lower(param);
      if name !in registers {
        return Err(UnknownRegister(name));
      }
      r := Ok(message + Decimal(registers[name]));
    }

    /** Msg: the message built piece by piece, then stored in Data. */
    method Msg(ps: seq<string>, p: X86Processor) returns (exit: Exit)
      modifies p
      ensures Agrees(Machine.Msg(kind, ps, old(p.State())), exit, old(p.State()), p.State())
    {
      var message := "";
      for k := 0 to |ps|
        invariant Message(kind, ps[..k], p.registers) == Ok(message)
        invariant unchanged(p)
      {
        var param := if kind == X86Commands then Trim(ps[k]) else ps[k];
        var r := AddToMessage(message, param, p.registers);
        MessagePrefix(kind, ps, k, p.registers);
        if r.Err? {
          MessageFailsFrom(kind, ps, k + 1, p.registers);
          return Raised(r.fault);
        }
        message := r.value;
      }
      assert ps[..|ps|] == ps;
      p.data := Some(message);
      exit := Normal;
    }

    method End() returns (exit: Exit)
      ensures exit == Canceled
    {
      exit := Canceled;
    }

    /** The handler Items[name] holds for m, applied to the parameters. */
    method Perform(m: Mnemonic, ps: seq<string>, p: X86Processor) returns (exit: Exit)
      modifies p
      ensures Agrees(Machine.Perform(kind, m, ps, old(p.State())), exit,
        if m == call then Push(old(p.State())) else old(p.State()), p.State())
    {
      match m
      case mov => exit := Mov(ps, p);
      case inc => exit := Inc(ps, p);
      case dec => exit := Dec(ps, p);
      case jnz => exit := Jnz(ps, p);
      case add => exit := Compound(Plus, ps, p);
      case sub => exit := Compound(Minus, ps, p);
      case mul => exit := Compound(Times, ps, p);
      case div => exit := Compound(Quotient, ps, p);
      case jmp => exit := Jmp(ps, p);
      case cmp => exit := Cmp(ps, p);
      case call => exit := Call(ps, p);
      case ret => exit := Ret(p);
      case msg => exit := Msg(ps, p);
      case end => exit := End();
      case _ => exit := Branch(m, ps, p);
    }
  }
}
