/**
 * What the handlers and the run loop of X86Processor promise, stated over the functions of
 * module Machine: operand reading, the register frame of each arithmetic handler, truncating
 * division, compare and branch, where execution continues after each kind of jump, what the
 * run leaves in Data, and that the two handler classes agree on normalised instructions.
 */
module Behaviour {
  import opened Common
  import opened Text
  import opened Ops
  import opened Machine

  // ---------------------------------------------------------------- operands

  /** A decimal spelling of a 32-bit number reads as that number, whatever the registers hold. */
  lemma ReadValueOfDecimal(v: int, registers: map<string, int>)
    requires IsInt32(v)
    ensures ReadValue(Decimal(v), registers) == Ok(v)
  {
    DecimalRoundTrip(v);
  }

  /** A token that starts with a letter is never a number: it reads the register of that name. */
  lemma ReadValueOfName(name: string, registers: map<string, int>)
    requires |name| > 0 && ('a' <= name[0] <= 'z' || 'A' <= name[0] <= 'Z')
    ensures ReadValue(name, registers) == Register(name, registers)
    ensures ReadValue(name, registers).Err? <==> name !in registers
  {
    LetterFirstNoNumber(name);
  }

  // ---------------------------------------------------------------- arithmetic

  /**
   * TruncDiv is division rounding toward zero: the remainder is smaller than the divisor in
   * magnitude and has the sign of the dividend.
   */
  lemma TruncDivRemainder(x: int, y: int)
    requires y != 0
    ensures var rem := x - TruncDiv(x, y) * y;
      Abs(rem) < Abs(y) && (rem == 0 || (rem < 0) == (x < 0))
  {
    var a: nat, b: nat := Abs(x), Abs(y);
    var m := a / b;
    var r := EuclidNat(a, b);
    var q := TruncDiv(x, y);
    if x >= 0 {
      RemainderCase(x, y, q, a, b, m, r);
    } else {
      RemainderCase(x, y, q, a, b, m, r);
    }
  }

  /** The remainder of a, b, with q and y carrying the signs of x and y. */
  lemma RemainderCase(x: int, y: int, q: int, a: int, b: int, m: int, r: int)
    requires a >= 0 && m >= 0 && b > 0 && a == m * b + r && 0 <= r < b
    requires x == a || x == -a
    requires y == b || y == -b
    requires (x < 0) == (a > 0 && x == -a) && (y < 0) == (y == -b)
    requires q == (if (x < 0) == (y < 0) then m else -m)
    ensures x - q * y == (if x < 0 then -r else r)
  {
    var p := m * b;
    MulSigns(m, b);
    if (x < 0) == (y < 0) {
      assert q * y == (if y < 0 then -p else p);
    } else {
      assert q * y == (if y < 0 then p else -p);
    }
  }

  /** a = (a / b) * b + r with 0 <= r < b. */
  lemma EuclidNat(a: nat, b: nat) returns (r: int)
    requires b > 0
    ensures r == a % b && a == (a / b) * b + r && 0 <= r < b && (a / b) * b <= a
  {
    r := a % b;
  }

  lemma MulSigns(m: int, b: int)
    ensures (-m) * (-b) == m * b && (-m) * b == -(m * b) && m * (-b) == -(m * b)
  {
  }

  /** Dividing two 32-bit ints stays in range, except for int.MinValue / -1. */
  lemma TruncDivInRange(x: int, y: int)
    requires IsInt32(x) && IsInt32(y) && y != 0 && !(x == MinInt32 && y == -1)
    ensures IsInt32(TruncDiv(x, y))
  {
    var q := TruncDiv(x, y);
    var a: int, b: int := Abs(x), Abs(y);
    var m: int := a / b;
    assert 0 <= a <= 0x8000_0000;
    assert q == (if (x < 0) == (y < 0) then m else -m);
    if b == 1 {
      assert m == a;
      if (x < 0) == (y < 0) {
        assert x >= 0 || y == -1;
        assert x != MinInt32 || x >= 0;
        assert a <= MaxInt32;
      }
    } else {
      QuotientHalf(a, b);
      assert m <= 0x4000_0000;
    }
  }

  lemma QuotientHalf(a: nat, b: nat)
    requires b >= 2
    ensures a / b <= a / 2
  {
    var m := a / b;
    var _ := EuclidNat(a, b);
    var _ := EuclidNat(a, 2);
    assert m * b - m * 2 == m * (b - 2);
    assert m * (b - 2) >= 0;
    assert m * 2 < (a / 2) * 2 + 2;
  }

  /** The result of every operator is a 32-bit int. */
  lemma ApplyInRange(op: Operator, x: int, y: int)
    requires IsInt32(x) && IsInt32(y) && Apply(op, x, y).Ok?
    ensures IsInt32(Apply(op, x, y).value)
  {
    if op == Quotient {
      TruncDivInRange(x, y);
    }
  }

  /** Division fails exactly on a zero divisor and on int.MinValue / -1. */
  lemma QuotientFaults(x: int, y: int)
    ensures Apply(Quotient, x, y) == Err(DivideByZero) <==> y == 0
    ensures Apply(Quotient, x, y) == Err(ArithmeticOverflow) <==> y != 0 && x == MinInt32 && y == -1
    ensures Apply(Quotient, x, y).Ok? ==> Apply(Quotient, x, y).value == TruncDiv(x, y)
  {
  }

  // ---------------------------------------------------------------- the handler table

  /** Every handler is found under its key. */
  lemma LookupKey(m: Mnemonic)
    ensures Lookup(Key(m)) == Some(m)
  {
  }

  /** The table has no other keys: a name it finds is the key of the handler it returns. */
  lemma KeyOfLookup(name: string)
    ensures Lookup(name).Some? ==> Key(Lookup(name).value) == name
  {
  }

  // ---------------------------------------------------------------- handlers

  /** The arithmetic handlers keep the registers 32-bit. */
  lemma CombineKeepsValid(op: Operator, ps: seq<string>, s: State)
    requires Valid(s)
    ensures Combine(op, ps, s).Ok? ==> Valid(Combine(op, ps, s).value.state)
  {
    if Combine(op, ps, s).Ok? {
      ApplyInRange(op, s.registers[ps[0]], ReadValue(ps[1], s.registers).value);
    }
  }

  /** A result that goes on leaves a valid state. */
  ghost predicate KeepsValid(r: Result<Effect>) {
    r.Ok? && r.value.Next? ==> Valid(r.value.state)
  }

  /** An operand read from 32-bit registers is a 32-bit value, whether a literal or a register. */
  lemma ReadValueInRange(token: string, registers: map<string, int>)
    requires forall k :: k in registers ==> IsInt32(registers[k])
    ensures ReadValue(token, registers).Ok? ==> IsInt32(ReadValue(token, registers).value)
  {
  }

  lemma MovKeepsValid(ps: seq<string>, s: State)
    requires Valid(s)
    ensures KeepsValid(Mov(ps, s))
  {
    if Mov(ps, s).Ok? {
      ReadValueInRange(ps[1], s.registers);
      var v := ReadValue(ps[1], s.registers).value;
      assert Mov(ps, s).value.state == s.(registers := s.registers[ps[0] := v]);
    }
  }

  lemma IncrementKeepsValid(ps: seq<string>, s: State, delta: int)
    requires Valid(s)
    ensures KeepsValid(Increment(ps, s, delta))
  {
  }

  lemma JnzKeepsValid(ps: seq<string>, s: State)
    requires Valid(s)
    ensures KeepsValid(Jnz(ps, s))
  {
    if |ps| > 0 && ReadValue(ps[0], s.registers).Ok? {
      JnzEffect(ps, s, ReadValue(ps[0], s.registers).value);
    }
  }

  lemma JmpKeepsValid(ps: seq<string>, s: State)
    requires Valid(s)
    ensures KeepsValid(Jmp(ps, s))
  {
  }

  lemma CmpKeepsValid(ps: seq<string>, s: State)
    requires Valid(s)
    ensures KeepsValid(Cmp(ps, s))
  {
    if Cmp(ps, s).Ok? {
      var x, y := ReadValue(ps[0], s.registers).value, ReadValue(ps[1], s.registers).value;
      assert Cmp(ps, s).value.state == s.(compare := CompareTo(x, y));
    }
  }

  lemma CallKeepsValid(ps: seq<string>, s: State)
    requires Valid(s)
    ensures KeepsValid(Call(ps, s))
  {
    assert Valid(Push(s));
    JmpKeepsValid(ps, Push(s));
  }

  lemma RetKeepsValid(s: State)
    requires Valid(s)
    ensures KeepsValid(Ret(s))
  {
  }

  lemma MsgKeepsValid(h: HandlerSet, ps: seq<string>, s: State)
    requires Valid(s)
    ensures KeepsValid(Msg(h, ps, s))
  {
  }

  /** Every handler keeps the machine's values 32-bit. */
  lemma PerformKeepsValid(h: HandlerSet, m: Mnemonic, ps: seq<string>, s: State)
    requires Valid(s)
    ensures KeepsValid(Perform(h, m, ps, s))
  {
    if m in {mov, inc, dec, add, sub, mul, div} {
      ArithmeticKeepsValid(h, m, ps, s);
    } else {
      ControlKeepsValid(h, m, ps, s);
    }
  }

  lemma ArithmeticKeepsValid(h: HandlerSet, m: Mnemonic, ps: seq<string>, s: State)
    requires Valid(s) && m in {mov, inc, dec, add, sub, mul, div}
    ensures KeepsValid(Perform(h, m, ps, s))
  {
    match m
    case mov => MovKeepsValid(ps, s);
    case inc => IncrementKeepsValid(ps, s, 1);
    case dec => IncrementKeepsValid(ps, s, -1);
    case add => CombineKeepsValid(Plus, ps, s);
    case sub => CombineKeepsValid(Minus, ps, s);
    case mul => CombineKeepsValid(Times, ps, s);
    case div => CombineKeepsValid(Quotient, ps, s);
  }

  lemma ControlKeepsValid(h: HandlerSet, m: Mnemonic, ps: seq<string>, s: State)
    requires Valid(s) && m !in {mov, inc, dec, add, sub, mul, div}
    ensures KeepsValid(Perform(h, m, ps, s))
  {
    match m
    case jnz => JnzKeepsValid(ps, s);
    case jmp => JmpKeepsValid(ps, s);
    case cmp => CmpKeepsValid(ps, s);
    case call => CallKeepsValid(ps, s);
    case ret => RetKeepsValid(s);
    case msg => MsgKeepsValid(h, ps, s);
    case end =>
    case _ => JmpKeepsValid(ps, s);
  }


  lemma ExecuteKeepsValid(h: HandlerSet, op: Op, s: State)
    requires Valid(s)
    ensures KeepsValid(Execute(h, op, s))
    ensures Valid(FaultState(op, s))
  {
    if Lookup(op.name).Some? {
      PerformKeepsValid(h, Lookup(op.name).value, op.params, s);
    }
  }

  /** The handlers that write a register and nothing else. */
  predicate WritesRegister(m: Mnemonic) {
    m in {mov, inc, dec, add, sub, mul, div}
  }

  /**
   * mov, inc, dec, add, sub, mul and div write register params[0] (creating it for mov only)
   * and change nothing else: the new state is the old one with that one register rewritten.
   */
  lemma RegisterFrame(h: HandlerSet, m: Mnemonic, ps: seq<string>, s: State)
    requires WritesRegister(m) && Perform(h, m, ps, s).Ok?
    ensures Perform(h, m, ps, s).value.Next?
    ensures var n := Perform(h, m, ps, s).value.state;
      && |ps| > 0
      && ps[0] in n.registers
      && n == s.(registers := s.registers[ps[0] := n.registers[ps[0]]])
      && (m != mov ==> ps[0] in s.registers)
  {
    if m == mov {
      assert Perform(h, m, ps, s) == Mov(ps, s);
      MovFrame(ps, s);
    } else if m == inc || m == dec {
      assert Perform(h, m, ps, s) == Increment(ps, s, if m == inc then 1 else -1);
      IncrementFrame(ps, s, if m == inc then 1 else -1);
    } else {
      var o := if m == add then Plus else if m == sub then Minus else if m == mul then Times else Quotient;
      assert Perform(h, m, ps, s) == Combine(o, ps, s);
      CombineFrame(o, ps, s);
    }
  }

  /** r, when it succeeds, is the state s with register ps[0] rewritten and nothing else changed. */
  predicate RewritesFirst(ps: seq<string>, s: State, r: Result<Effect>, creates: bool) {
    r.Ok? ==>
      && r.value.Next?
      && |ps| > 0
      && ps[0] in r.value.state.registers
      && r.value.state == s.(registers := s.registers[ps[0] := r.value.state.registers[ps[0]]])
      && (!creates ==> ps[0] in s.registers)
  }

  lemma MovFrame(ps: seq<string>, s: State)
    ensures RewritesFirst(ps, s, Mov(ps, s), true)
  {
  }

  lemma IncrementFrame(ps: seq<string>, s: State, delta: int)
    ensures RewritesFirst(ps, s, Increment(ps, s, delta), false)
  {
  }

  lemma CombineFrame(o: Operator, ps: seq<string>, s: State)
    ensures RewritesFirst(ps, s, Combine(o, ps, s), false)
  {
  }

  /** mov stores its operand's value in register params[0], which it need not find. */
  lemma MovStores(ps: seq<string>, s: State, v: int)
    requires |ps| > 1 && ReadValue(ps[1], s.registers) == Ok(v)
    ensures Mov(ps, s).Ok? && Mov(ps, s).value.Next?
    ensures var n := Mov(ps, s).value.state; ps[0] in n.registers && n.registers[ps[0]] == v
  {
  }

  /** inc and dec need an existing register and move it by one, wrapping around at the ends. */
  lemma IncDecValue(m: Mnemonic, ps: seq<string>, s: State)
    requires m == inc || m == dec
    ensures var r := Perform(X86Commands, m, ps, s);
      && (r.Ok? <==> |ps| > 0 && ps[0] in s.registers)
      && (r.Ok? ==>
            var n := r.value.state;
            r.value.Next? && ps[0] in n.registers && IsInt32(n.registers[ps[0]]) &&
            (n.registers[ps[0]] - (s.registers[ps[0]] + (if m == inc then 1 else -1))) % 0x1_0000_0000 == 0)
      && (|ps| > 0 && ps[0] !in s.registers ==> r == Err(UnknownRegister(ps[0])))
  {
    assert Perform(X86Commands, m, ps, s) == Increment(ps, s, if m == inc then 1 else -1);
  }

  /**
   * add, sub and mul are 32-bit: the register's new value is the mathematical result
   * modulo 2^32, and it is that result whenever the result fits.
   */
  lemma ModularArithmetic(op: Operator, ps: seq<string>, s: State, y: int)
    requires op != Quotient
    requires |ps| > 1 && ps[0] in s.registers
    requires ReadValue(ps[1], s.registers) == Ok(y)
    ensures Combine(op, ps, s).Ok? && Combine(op, ps, s).value.Next?
    ensures var exact := Exact(op, s.registers[ps[0]], y);
      var v := Combine(op, ps, s).value.state.registers[ps[0]];
      IsInt32(v) && (v - exact) % 0x1_0000_0000 == 0 && (IsInt32(exact) ==> v == exact)
  {
    var exact := Exact(op, s.registers[ps[0]], y);
    assert Combine(op, ps, s) == Ok(Next(s.(registers := s.registers[ps[0] := Wrap(exact)])));
  }

  /** The register is read before the operand: a missing register is reported whatever the operand. */
  lemma RegisterReadFirst(op: Operator, ps: seq<string>, s: State)
    requires |ps| > 0 && ps[0] !in s.registers
    ensures Combine(op, ps, s) == Err(UnknownRegister(ps[0]))
  {
  }

  /**
   * div stores the quotient rounded toward zero, fails with a zero divisor and overflows on
   * int.MinValue / -1.
   */
  lemma DivTruncates(ps: seq<string>, s: State, y: int)
    requires |ps| > 1 && ps[0] in s.registers
    requires ReadValue(ps[1], s.registers) == Ok(y)
    ensures var r := Combine(Quotient, ps, s); var x := s.registers[ps[0]];
      && (r == Err(DivideByZero) <==> y == 0)
      && (r == Err(ArithmeticOverflow) <==> y != 0 && x == MinInt32 && y == -1)
      && (r.Ok? ==>
            var q := r.value.state.registers[ps[0]];
            var rem := x - q * y;
            Abs(rem) < Abs(y) && (rem == 0 || (rem < 0) == (x < 0)))
  {
    if y != 0 {
      TruncDivRemainder(s.registers[ps[0]], y);
    }
  }

  /** cmp stores -1, 0 or 1 by how its operands compare, and changes nothing else. */
  lemma CmpOrders(ps: seq<string>, s: State, x: int, y: int)
    requires |ps| > 1
    requires ReadValue(ps[0], s.registers) == Ok(x) && ReadValue(ps[1], s.registers) == Ok(y)
    ensures Cmp(ps, s).Ok? && Cmp(ps, s).value.Next?
    ensures var n := Cmp(ps, s).value.state;
      && n == s.(compare := n.compare)
      && -1 <= n.compare <= 1
      && (n.compare < 0 <==> x < y) && (n.compare == 0 <==> x == y) && (n.compare > 0 <==> x > y)
  {
  }

  /** The comparison each conditional jump stands for, between the operands of the last cmp. */
  predicate Relation(m: Mnemonic, x: int, y: int) {
    match m
    case jne => x != y
    case je => x == y
    case jge => x >= y
    case jg => x > y
    case jle => x <= y
    case jl => x < y
    case _ => false
  }

  /** After cmp x, y a conditional jump's test holds exactly when its relation holds between x and y. */
  lemma BranchAfterCmp(m: Mnemonic, x: int, y: int)
    requires IsConditional(m)
    ensures Holds(m, CompareTo(x, y)) <==> Relation(m, x, y)
  {
  }

  /** A conditional jump behaves as jmp when its test on the flag holds and otherwise does nothing. */
  lemma ConditionalJump(h: HandlerSet, m: Mnemonic, ps: seq<string>, s: State)
    requires IsConditional(m)
    ensures Perform(h, m, ps, s) == if Holds(m, s.compare) then Perform(h, jmp, ps, s) else Ok(Next(s))
  {
  }

  // ---------------------------------------------------------------- messages

  /** A parameter in quotes contributes its inner text; one with an opening quote only, nothing. */
  lemma QuotedPiece(t: string, registers: map<string, int>)
    ensures |t| > 0 ==> Piece("'" + t + "'", registers) == Ok(t)
    ensures '\'' !in t ==> Piece("'" + t, registers) == Ok("")
  {
    if |t| > 0 {
      assert ("'" + t + "'")[1..|t| + 1] == t;
    }
    if '\'' !in t && |t| > 1 {
      assert ("'" + t)[|t|] == t[|t| - 1];
    }
  }

  /** Two texts in order, or the first fault: the first part is built first. */
  function Then(x: Result<string>, y: Result<string>): Result<string> {
    var u :- x;
    var v :- y;
    Ok(u + v)
  }

  lemma ThenAssoc(x: Result<string>, y: Result<string>, z: Result<string>)
    ensures Then(Then(x, y), z) == Then(x, Then(y, z))
  {
    if x.Ok? && y.Ok? && z.Ok? {
      assert x.value + y.value + z.value == x.value + (y.value + z.value);
    }
  }

  /** One more parameter adds its piece to the message. */
  lemma MessageSnoc(h: HandlerSet, ps: seq<string>, p: string, registers: map<string, int>)
    ensures Message(h, ps + [p], registers) == Then(Message(h, ps, registers), Piece(Shape(h, p), registers))
  {
    assert (ps + [p])[..|ps|] == ps;
  }

  /**
   * The message of consecutive parameter lists is the concatenation of their messages, and
   * fails with the first list's fault if that one fails.
   */
  lemma {:induction false} MessageAppend(h: HandlerSet, a: seq<string>, b: seq<string>, registers: map<string, int>)
    ensures Message(h, a + b, registers) == Then(Message(h, a, registers), Message(h, b, registers))
    decreases |b|
  {
    if b == [] {
      assert a + b == a;
      assert Message(h, b, registers) == Ok("");
      var ma := Message(h, a, registers);
      if ma.Ok? {
        assert ma.value + "" == ma.value;
      }
    } else {
      var b', p := b[..|b| - 1], b[|b| - 1];
      assert a + b == (a + b') + [p];
      assert b == b' + [p];
      var pc := Piece(Shape(h, p), registers);
      MessageSnoc(h, a + b', p, registers);
      MessageSnoc(h, b', p, registers);
      MessageAppend(h, a, b', registers);
      ThenAssoc(Message(h, a, registers), Message(h, b', registers), pc);
    }
  }

  /** The message of one more parameter of a list. */
  lemma MessagePrefix(h: HandlerSet, ps: seq<string>, k: nat, registers: map<string, int>)
    requires k < |ps|
    ensures Message(h, ps[..k + 1], registers) == Then(Message(h, ps[..k], registers), Piece(Shape(h, ps[k]), registers))
  {
    assert ps[..k + 1][..k] == ps[..k];
  }

  /** A fault in the message of a prefix is the fault of the whole message. */
  lemma MessageFailsFrom(h: HandlerSet, ps: seq<string>, k: nat, registers: map<string, int>)
    requires k <= |ps| && Message(h, ps[..k], registers).Err?
    ensures Message(h, ps, registers) == Message(h, ps[..k], registers)
  {
    var a, b := ps[..k], ps[k..];
    SplitAt(ps, k);
    MessageFailsFirst(h, a, b, registers);
  }

  lemma MessageFailsFirst(h: HandlerSet, a: seq<string>, b: seq<string>, registers: map<string, int>)
    requires Message(h, a, registers).Err?
    ensures Message(h, a + b, registers) == Message(h, a, registers)
  {
    MessageAppend(h, a, b, registers);
  }

  /** On trimmed parameters the trimming and the non-trimming Msg agree. */
  lemma {:induction false} MessageOfTrimmed(ps: seq<string>, registers: map<string, int>)
    requires AllTrimmed(ps)
    ensures Message(X86Commands, ps, registers) == Message(X86Instructions, ps, registers)
  {
    if ps != [] {
      MessageOfTrimmed(ps[..|ps| - 1], registers);
      TrimOfNoWhite(ps[|ps| - 1]);
      assert Shape(X86Commands, ps[|ps| - 1]) == Shape(X86Instructions, ps[|ps| - 1]);
    }
  }

  /** The two handler classes execute an instruction with trimmed parameters identically. */
  lemma HandlerSetsAgree(op: Op, s: State)
    requires AllTrimmed(op.params)
    ensures Execute(X86Commands, op, s) == Execute(X86Instructions, op, s)
  {
    match Lookup(op.name)
    case None =>
    case Some(m) =>
      if m == msg {
        MessageOfTrimmed(op.params, s.registers);
      }
  }

  /** In particular they agree on every record the Instruction constructor builds. */
  lemma HandlerSetsAgreeOnInstructions(name: string, params: seq<string>, s: State)
    ensures var op := NewInstruction(name, params);
      Execute(X86Commands, op, s) == Execute(X86Instructions, op, s)
  {
    HandlerSetsAgree(NewInstruction(name, params), s);
  }

  // ---------------------------------------------------------------- where execution continues

  /** The pointer is on an instruction whose name the table maps to m. */
  predicate Fetches(program: seq<Op>, s: State, m: Mnemonic) {
    0 <= s.address < |program| && Lookup(program[s.address].name) == Some(m)
  }

  /** A pass that goes on uses one unit of fuel; a pass that stops gives the verdict. */
  lemma RunFromStep(h: HandlerSet, program: seq<Op>, s: State, fuel: nat)
    requires fuel > 0
    ensures Step(h, program, s).Go? ==> RunFrom(h, program, s, fuel) == RunFrom(h, program, Step(h, program, s).next, fuel - 1)
    ensures Step(h, program, s).Stopped? ==> RunFrom(h, program, s, fuel) == Step(h, program, s).stop
  {
  }

  /** With the pointer at or past the end, the loop test fails: the run falls through in that state. */
  lemma RunFromPastEnd(h: HandlerSet, program: seq<Op>, s: State, fuel: nat)
    requires fuel > 0 && s.address >= |program|
    ensures RunFrom(h, program, s, fuel) == FellThrough(s)
  {
    RunFromStep(h, program, s, fuel);
  }

  /** The pass over an instruction whose handler goes on continues after the state it leaves. */
  lemma StepGoes(h: HandlerSet, program: seq<Op>, s: State, n: State)
    requires 0 <= s.address < |program| && Execute(h, program[s.address], s) == Ok(Next(n))
    ensures Step(h, program, s) == Go(Advance(n))
  {
  }

  /** The pass over an instruction whose handler fails stops the loop with that fault. */
  lemma StepFails(h: HandlerSet, program: seq<Op>, s: State, f: Fault)
    requires 0 <= s.address < |program| && Execute(h, program[s.address], s) == Err(f)
    ensures Step(h, program, s) == Stopped(Faulted(f, FaultState(program[s.address], s)))
  {
  }

  /** The pass over an end instruction stops the loop with the state unchanged. */
  lemma StepEnds(h: HandlerSet, program: seq<Op>, s: State)
    requires 0 <= s.address < |program| && Execute(h, program[s.address], s) == Ok(Halt)
    ensures Step(h, program, s) == Stopped(Ended(s)) && FaultState(program[s.address], s) == s
  {
  }

  /** A pass that goes on to n uses one unit of fuel. */
  lemma RunFromGo(h: HandlerSet, program: seq<Op>, s: State, n: State, fuel: nat)
    requires fuel > 0 && Step(h, program, s) == Go(n)
    ensures RunFrom(h, program, s, fuel) == RunFrom(h, program, n, fuel - 1)
  {
  }

  /** A pass that stops is the verdict. */
  lemma RunFromStopped(h: HandlerSet, program: seq<Op>, s: State, t: Stop, fuel: nat)
    requires fuel > 0 && Step(h, program, s) == Stopped(t)
    ensures RunFrom(h, program, s, fuel) == t
  {
  }

  /** The handlers other than the jumps leave the pointer and the stack alone. */
  lemma PerformKeepsPointer(h: HandlerSet, m: Mnemonic, ps: seq<string>, s: State)
    requires !IsJump(m) && Perform(h, m, ps, s).Ok? && m != end
    ensures Perform(h, m, ps, s).value.Next?
    ensures var n := Perform(h, m, ps, s).value.state; n.address == s.address && n.stack == s.stack
  {
    if WritesRegister(m) {
      RegisterFrame(h, m, ps, s);
    } else if m == cmp {
      assert Perform(h, m, ps, s) == Cmp(ps, s);
    } else {
      assert Perform(h, m, ps, s) == Msg(h, ps, s);
    }
  }

  /** An instruction that does not reposition the pointer is followed by the one at address + 1. */
  lemma ContinuesAtNext(h: HandlerSet, program: seq<Op>, s: State, m: Mnemonic)
    requires Fetches(program, s, m) && !IsJump(m) && m != end
    requires Execute(h, program[s.address], s).Ok?
    ensures var e := Execute(h, program[s.address], s).value;
      e.Next? && e.state.address == s.address && e.state.stack == s.stack &&
      Step(h, program, s) == Go(Advance(e.state))
  {
    var op := program[s.address];
    assert Execute(h, op, s) == Perform(h, m, op.params, s);
    PerformKeepsPointer(h, m, op.params, s);
    var n := Perform(h, m, op.params, s).value.state;
    StepGoes(h, program, s, n);
  }

  /**
   * A jmp, or a conditional jump whose test holds, to a target that reads as t continues at
   * t with nothing else changed.
   */
  lemma JumpContinuesAt(h: HandlerSet, program: seq<Op>, s: State, m: Mnemonic, t: int)
    requires Fetches(program, s, m) && Valid(s)
    requires m == jmp || (IsConditional(m) && Holds(m, s.compare))
    requires var ps := program[s.address].params; |ps| > 0 && ReadValue(ps[0], s.registers) == Ok(t)
    ensures Step(h, program, s) == Go(s.(address := t))
  {
    var op := program[s.address];
    assert Execute(h, op, s) == Perform(h, m, op.params, s);
    if m == jmp {
      assert Perform(h, m, op.params, s) == Jmp(op.params, s);
    } else {
      assert Perform(h, m, op.params, s) == Branch(m, op.params, s);
    }
    JmpGoes(op.params, s, t);
    ReadValueInRange(op.params[0], s.registers);
    StepGoes(h, program, s, GoTo(s, t));
    GoToLands(s, t);
  }

  /** A conditional jump whose test fails continues at the next instruction, even without parameters. */
  lemma BranchNotTaken(h: HandlerSet, program: seq<Op>, s: State, m: Mnemonic)
    requires Fetches(program, s, m) && IsConditional(m) && !Holds(m, s.compare)
    ensures Step(h, program, s) == Go(Advance(s))
  {
  }

  /** jnz moves by its literal offset when its first operand is not zero, and otherwise goes on. */
  lemma JnzEffect(ps: seq<string>, s: State, x: int)
    requires |ps| > 0 && ReadValue(ps[0], s.registers) == Ok(x)
    ensures x == 0 ==> Jnz(ps, s) == Ok(Next(s))
    ensures x != 0 && |ps| > 1 && TryParseInt(ps[1]).Some? ==>
      Jnz(ps, s) == Ok(Next(RelativeJump(s, TryParseInt(ps[1]).value)))
    ensures x != 0 && |ps| > 1 && TryParseInt(ps[1]).None? ==> Jnz(ps, s) == Err(BadNumber(ps[1]))
  {
  }

  /** An instruction named jnz runs the jnz handler. */
  lemma JnzExecutes(h: HandlerSet, op: Op, s: State)
    requires Lookup(op.name) == Some(jnz)
    ensures Execute(h, op, s) == Jnz(op.params, s)
  {
    assert HandlerOf(h, jnz) == Jnz;
  }

  /** At the loop level: jnz on zero goes on at the next instruction. */
  lemma JnzNotTaken(h: HandlerSet, program: seq<Op>, s: State)
    requires Fetches(program, s, jnz)
    requires var ps := program[s.address].params; |ps| > 0 && ReadValue(ps[0], s.registers) == Ok(0)
    ensures Step(h, program, s) == Go(Advance(s))
  {
    var ps := program[s.address].params;
    JnzExecutes(h, program[s.address], s);
    JnzEffect(ps, s, 0);
    StepGoes(h, program, s, s);
  }

  /** jnz on a non-zero value with a literal offset o goes on at address + o. */
  lemma JnzTaken(h: HandlerSet, program: seq<Op>, s: State, x: int, o: int)
    requires Fetches(program, s, jnz)
    requires var ps := program[s.address].params; |ps| > 0 && ReadValue(ps[0], s.registers) == Ok(x)
    requires var ps := program[s.address].params; x != 0 && |ps| > 1 && TryParseInt(ps[1]) == Some(o)
    ensures Step(h, program, s) == Go(s.(address := Wrap(s.address + o)))
  {
    var ps := program[s.address].params;
    JnzExecutes(h, program[s.address], s);
    JnzEffect(ps, s, x);
    StepGoes(h, program, s, RelativeJump(s, o));
    RelativeJumpLands(s, o);
  }

  /** jnz on a non-zero value whose offset t is not a number stops the run with a format fault. */
  lemma JnzBadOffset(h: HandlerSet, program: seq<Op>, s: State, x: int, t: string)
    requires Fetches(program, s, jnz)
    requires var ps := program[s.address].params; |ps| > 1 && ReadValue(ps[0], s.registers) == Ok(x) && ps[1] == t
    requires x != 0 && TryParseInt(t) == None
    ensures Step(h, program, s) == Stopped(Faulted(BadNumber(t), s))
  {
    var ps := program[s.address].params;
    JnzExecutes(h, program[s.address], s);
    JnzEffect(ps, s, x);
    StepFails(h, program, s, BadNumber(t));
  }

  /** call pushes the address of the instruction after it and continues at its target. */
  lemma CallContinuesAt(h: HandlerSet, program: seq<Op>, s: State, t: int)
    requires Fetches(program, s, call) && Valid(s)
    requires var ps := program[s.address].params; |ps| > 0 && ReadValue(ps[0], s.registers) == Ok(t)
    ensures Step(h, program, s) == Go(s.(stack := s.stack + [Wrap(s.address + 1)], address := t))
  {
    ReadValueInRange(program[s.address].params[0], s.registers);
    CallJumps(h, program[s.address], s, t);
    StepGoes(h, program, s, GoTo(Push(s), t));
    GoToLands(Push(s), t);
  }

  /** jmp with a readable target continues there. */
  lemma JmpGoes(ps: seq<string>, s: State, t: int)
    requires |ps| > 0 && ReadValue(ps[0], s.registers) == Ok(t)
    ensures Jmp(ps, s) == Ok(Next(GoTo(s, t)))
  {
  }

  /** Executing a call pushes the return address and jumps to the target it reads. */
  lemma CallJumps(h: HandlerSet, op: Op, s: State, t: int)
    requires Lookup(op.name) == Some(call) && |op.params| > 0 && ReadValue(op.params[0], s.registers) == Ok(t)
    ensures Execute(h, op, s) == Ok(Next(GoTo(Push(s), t)))
  {
    assert HandlerOf(h, call) == Call;
    JmpGoes(op.params, Push(s), t);
  }

  /** ret pops the top return address and continues there; with an empty stack it fails. */
  lemma RetContinuesAt(h: HandlerSet, program: seq<Op>, s: State)
    requires Fetches(program, s, ret) && Valid(s)
    ensures s.stack == [] ==> Step(h, program, s) == Stopped(Faulted(EmptyStack, s))
    ensures s.stack != [] ==>
      Step(h, program, s) == Go(s.(stack := s.stack[..|s.stack| - 1], address := s.stack[|s.stack| - 1]))
  {
    if s.stack != [] {
      GoToLands(s.(stack := s.stack[..|s.stack| - 1]), s.stack[|s.stack| - 1]);
    }
  }

  /**
   * A ret reached with the stack a call left continues at the instruction after that call,
   * with the stack as it was before the call.
   */
  lemma CallThenRet(h: HandlerSet, program: seq<Op>, s: State, u: State, t: int)
    requires Fetches(program, s, call) && Valid(s)
    requires var ps := program[s.address].params; |ps| > 0 && ReadValue(ps[0], s.registers) == Ok(t)
    requires Fetches(program, u, ret) && Valid(u) && u.stack == Step(h, program, s).next.stack
    ensures Step(h, program, u) == Go(u.(stack := s.stack, address := Wrap(s.address + 1)))
  {
    CallContinuesAt(h, program, s, t);
    RetContinuesAt(h, program, u);
    assert u.stack[..|u.stack| - 1] == s.stack;
  }

  // ---------------------------------------------------------------- the run

  /** end stops the loop at once; the run returns normally with Data as the last msg left it. */
  lemma EndKeepsData(h: HandlerSet, program: seq<Op>, s: State, fuel: nat)
    requires Fetches(program, s, end) && fuel > 0
    ensures RunFrom(h, program, s, fuel) == Ended(s)
    ensures RunProgram(h, program, s, fuel) == (Completed, Reset(s.data))
  {
    assert Step(h, program, s) == Stopped(Ended(s));
  }

  /** Running off the end clears Data, whatever an earlier msg stored. */
  lemma FallThroughClearsData(h: HandlerSet, program: seq<Op>, s: State, fuel: nat)
    requires s.address >= |program| && fuel > 0
    ensures RunProgram(h, program, s, fuel) == (Completed, Reset(None))
  {
  }

  /** A verdict a loop reaches within some fuel it reaches with any more fuel. */
  lemma {:induction false} IterateMoreFuel(step: State -> Transition, s: State, fuel: nat, more: nat)
    requires fuel <= more && !Iterate(step, s, fuel).Exhausted?
    ensures Iterate(step, s, more) == Iterate(step, s, fuel)
    decreases fuel
  {
    if step(s).Go? {
      IterateMoreFuel(step, step(s).next, fuel - 1, more - 1);
    }
  }

  /** Every pass from a state satisfying inv goes on to such a state or stops with a verdict satisfying goal. */
  ghost predicate Closed(step: State -> Transition, inv: State -> bool, goal: Stop -> bool) {
    forall x :: inv(x) ==> match step(x) case Go(n) => inv(n) case Stopped(t) => goal(t)
  }

  /** So a loop started in inv stops with a verdict satisfying goal, or runs out of fuel in inv. */
  lemma {:induction false} IterateInvariant(step: State -> Transition, inv: State -> bool, goal: Stop -> bool, s: State, fuel: nat)
    requires inv(s) && Closed(step, inv, goal)
    ensures var t := Iterate(step, s, fuel); goal(t) || (t.Exhausted? && inv(t.state))
    decreases fuel
  {
    if fuel > 0 && step(s).Go? {
      IterateInvariant(step, inv, goal, step(s).next, fuel - 1);
    }
  }

  /** Fuel bounds a run and never changes its verdict. */
  lemma MoreFuel(h: HandlerSet, program: seq<Op>, s: State, fuel: nat, more: nat)
    requires fuel <= more && !RunFrom(h, program, s, fuel).Exhausted?
    ensures RunFrom(h, program, s, more) == RunFrom(h, program, s, fuel)
  {
    IterateMoreFuel(StepOf(h, program), s, fuel, more);
  }

  predicate HasEnd(program: seq<Op>) {
    exists i :: 0 <= i < |program| && Lookup(program[i].name) == Some(end)
  }

  /** Only an end instruction stops a pass with Ended. */
  lemma StepEndsOnlyAtEnd(h: HandlerSet, program: seq<Op>, s: State)
    ensures Step(h, program, s).Stopped? && Step(h, program, s).stop.Ended? ==> Fetches(program, s, end)
  {
    if 0 <= s.address < |program| {
      var op := program[s.address];
      ConcludeEnded(op, s, Execute(h, op, s));
    }
  }

  lemma ConcludeEnded(op: Op, s: State, r: Result<Effect>)
    ensures Conclude(op, s, r).Stopped? && Conclude(op, s, r).stop.Ended? ==> r == Ok(Halt)
  {
  }

  /** A program without an end instruction never ends by end. */
  lemma NoEndNeverEnds(h: HandlerSet, program: seq<Op>, s: State, fuel: nat)
    requires !HasEnd(program)
    ensures !RunFrom(h, program, s, fuel).Ended?
  {
    var inv := (x: State) => true;
    var goal := (t: Stop) => !t.Ended?;
    forall x | inv(x)
      ensures match StepOf(h, program)(x) case Go(n) => inv(n) case Stopped(t) => goal(t)
    {
      StepEndsOnlyAtEnd(h, program, x);
    }
    IterateInvariant(StepOf(h, program), inv, goal, s, fuel);
  }

  /** So a run of such a program that returns normally leaves Data null. */
  lemma NoEndNoOutput(h: HandlerSet, program: seq<Op>, s: State, fuel: nat)
    requires !HasEnd(program)
    ensures RunProgram(h, program, s, fuel).0 == Completed ==> RunProgram(h, program, s, fuel).1.data == None
  {
    NoEndNeverEnds(h, program, s, fuel);
  }

  /** Whatever the outcome, the run leaves the pointer, the flag, the registers and the stack reset. */
  lemma RunResets(h: HandlerSet, program: seq<Op>, s: State, fuel: nat)
    ensures var e := RunProgram(h, program, s, fuel).1;
      e.registers == map[] && e.stack == [] && e.address == 0 && e.compare == 0
  {
  }

  /** Every pass keeps the machine valid, in the state it goes on from and in the one it stops in. */
  lemma StepKeepsValid(h: HandlerSet, program: seq<Op>, s: State)
    requires Valid(s)
    ensures match Step(h, program, s) case Go(n) => Valid(n) case Stopped(t) => Valid(t.state)
  {
    if 0 <= s.address < |program| {
      ExecuteKeepsValid(h, program[s.address], s);
    }
  }

  /** Every state the loop stops in is valid when the one it started from is. */
  lemma RunKeepsValid(h: HandlerSet, program: seq<Op>, s: State, fuel: nat)
    requires Valid(s)
    ensures Valid(RunFrom(h, program, s, fuel).state)
  {
    var inv := (x: State) => Valid(x);
    var goal := (t: Stop) => Valid(t.state);
    forall x | inv(x)
      ensures match StepOf(h, program)(x) case Go(n) => inv(n) case Stopped(t) => goal(t)
    {
      StepKeepsValid(h, program, x);
    }
    IterateInvariant(StepOf(h, program), inv, goal, s, fuel);
  }
}
