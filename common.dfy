/** Shared failure-carrying datatypes and the interpreter's fault taxonomy. */
module Common {

  datatype Option<+T> = None | Some(value: T)

  /** The exceptions the interpreter can raise, one constructor per distinguishable cause. */
  datatype Fault =
    | IndexOutOfRange          // a missing parameter, or an instruction pointer outside the program
    | UnknownRegister(name: string)     // a dictionary lookup of a register that was never written
    | UnknownInstruction(name: string)  // a mnemonic that is not a key of the handler table
    | BadNumber(token: string)          // int.Parse on a token that is not a 32-bit decimal integer
    | DivideByZero
    | ArithmeticOverflow       // int.MinValue / -1
    | EmptyStack               // ret with no return address on the stack

  datatype Result<+T> = Ok(value: T) | Err(fault: Fault) {
    predicate IsFailure() { Err? }

    function PropagateFailure<U>(): Result<U>
      requires Err?
    {
      Err(fault)
    }

    function Extract(): T
      requires Ok?
    {
      value
    }
  }

  /** Concatenation of sequences is associative. */
  lemma AppendAssoc<T>(x: seq<T>, y: seq<T>, z: seq<T>)
    ensures (x + y) + z == x + (y + z)
  {
  }

  /** A sequence is its prefix followed by its suffix. */
  lemma SplitAt<T>(s: seq<T>, i: nat)
    requires i <= |s|
    ensures s == s[..i] + s[i..]
  {
  }

  /** Cutting a sequence at p and at p' >= p splits its prefix and its suffix around s[p..p']. */
  lemma SliceSplit<T>(s: seq<T>, p: nat, p': nat)
    requires p <= p' <= |s|
    ensures s[..p'] == s[..p] + s[p..p'] && s[p..] == s[p..p'] + s[p'..]
  {
    assert s[..p'] == s[..p] + s[p..p'];
    assert s[p..] == s[p..p'] + s[p'..];
  }
}
