/**
 * The parsed-line records. Command (Commands/Command.cs) and Instruction
 * (Instructions/Instruction.cs) have the same two fields, a name and an array of string
 * parameters; they differ only in their constructors: Command stores both unchanged,
 * Instruction trims and lower-cases the name and trims every parameter.
 */
module Ops {
  import opened Common
  import opened Text

  /** A name and its parameters. The Command constructor is this datatype constructor itself. */
  datatype Op = Op(name: string, params: seq<string>)

  /** The Label property: the last character of the name is ':' (an empty name is no label). */
  predicate IsLabel(op: Op) {
    |op.name| > 0 && op.name[|op.name| - 1] == ':'
  }

  /** Name[..^1]: the label's name without its trailing ':'. */
  function LabelName(op: Op): (r: string)
    requires IsLabel(op)
    ensures r + ":" == op.name
  {
    op.name[..|op.name| - 1]
  }

  /** The field list that Create turns back into op. */
  function Fields(op: Op): (r: seq<string>)
    ensures |r| == |op.params| + 1 && r[0] == op.name && r[1..] == op.params
  {
    [op.name] + op.params
  }

  // ---------------------------------------------------------------- Command

  /** Command.Create: null for an empty field list, else the first field names the command. */
  function CreateCommand(info: seq<string>): (r: Option<Op>)
    ensures r.None? <==> info == []
    ensures r.Some? ==> Fields(r.value) == info
  {
    if info == [] then None else Some(Op(info[0], info[1..]))
  }

  /** Create and Fields are inverse to each other. */
  lemma CreateCommandOfFields(op: Op)
    ensures CreateCommand(Fields(op)) == Some(op)
  {
    assert Fields(op)[1..] == op.params;
  }

  // ---------------------------------------------------------------- Instruction

  predicate IsNormalName(s: string) {
    NoWhiteEdges(s) && IsLowerCase(s)
  }

  predicate AllTrimmed(ps: seq<string>) {
    forall i :: 0 <= i < |ps| ==> NoWhiteEdges(ps[i])
  }

  function TrimAll(ps: seq<string>): (r: seq<string>)
    ensures |r| == |ps| && AllTrimmed(r)
    ensures forall i :: 0 <= i < |ps| ==> r[i] == Trim(ps[i])
  {
    seq(|ps|, i requires 0 <= i < |ps| => Trim(ps[i]))
  }

  lemma TrimAllOfTrimmed(ps: seq<string>)
    requires AllTrimmed(ps)
    ensures TrimAll(ps) == ps
  {
    forall i | 0 <= i < |ps| ensures Trim(ps[i]) == ps[i] {
      TrimOfNoWhite(ps[i]);
    }
  }

  /**
   * The Instruction constructor: the name trimmed and lower-cased, the parameters trimmed,
   * in their number and order.
   */
  function NewInstruction(name: string, params: seq<string>): (r: Op)
    ensures IsNormalName(r.name) && |r.name| <= |name|
    ensures |r.params| == |params| && AllTrimmed(r.params)
    ensures r.name == Lower(Trim(name))
    ensures forall i :: 0 <= i < |params| ==> r.params[i] == Trim(params[i])
  {
    var t := Trim(name);
    LowerKeepsNoWhiteEdges(t);
    Op(Lower(t), TrimAll(params))
  }

  /** An already normalised name and trimmed parameters are stored unchanged. */
  lemma NewInstructionOfNormal(name: string, params: seq<string>)
    requires IsNormalName(name) && AllTrimmed(params)
    ensures NewInstruction(name, params) == Op(name, params)
  {
    TrimOfNoWhite(name);
    LowerOfLowerCase(name);
    TrimAllOfTrimmed(params);
  }

  /** Rebuilding an instruction from its own fields gives the same fields. */
  lemma NewInstructionIdempotent(name: string, params: seq<string>)
    ensures var r := NewInstruction(name, params); NewInstruction(r.name, r.params) == r
  {
    var r := NewInstruction(name, params);
    NewInstructionOfNormal(r.name, r.params);
  }

  /**
   * CodeParser.Create: null for an empty field list; otherwise the trimmed, lower-cased first
   * field is the name and the rest, trimmed, are the parameters. The Instruction constructor
   * then normalises again, which changes nothing.
   */
  function CreateInstruction(info: seq<string>): (r: Option<Op>)
    ensures r.None? <==> info == []
    ensures r.Some? ==> r.value == NewInstruction(info[0], info[1..])
  {
    if info == [] then None
    else
      var name := Lower(Trim(info[0]));
      var params := TrimAll(info[1..]);
      NewInstructionIdempotent(info[0], info[1..]);
      Some(NewInstruction(name, params))
  }

  // ---------------------------------------------------------------- ToString

  /** $"{Name} {string.Join(" ", Parameters)}".TrimEnd(), shared by Command and Instruction. */
  function ToString(op: Op): string {
    TrimEnd(op.name + " " + Join(" ", op.params))
  }

  lemma TrimEndAppendWhite(s: string, w: string)
    requires forall i :: 0 <= i < |w| ==> IsWhite(w[i])
    ensures TrimEnd(s + w) == TrimEnd(s)
    decreases |w|
  {
    if w != [] {
      assert (s + w)[..|s + w| - 1] == s + w[..|w| - 1];
      TrimEndAppendWhite(s, w[..|w| - 1]);
    } else {
      assert s + w == s;
    }
  }

  /** Without parameters the text is the name (for a name without trailing white space). */
  lemma ToStringNoParams(op: Op)
    requires op.params == [] && NoWhiteEdges(op.name)
    ensures ToString(op) == op.name
  {
    assert op.name + " " + Join(" ", op.params) == op.name + " ";
    TrimEndAppendWhite(op.name, " ");
    TrimEndOfNoWhite(op.name);
  }

  /** With parameters whose last one does not end in white space, nothing is trimmed. */
  lemma ToStringWithParams(op: Op)
    requires op.params != [] && NoWhiteEdges(op.params[|op.params| - 1])
    requires op.params[|op.params| - 1] != []
    ensures ToString(op) == op.name + " " + Join(" ", op.params)
  {
    JoinLast(" ", op.params);
    var s := op.name + " " + Join(" ", op.params);
    assert s[|s| - 1] == op.params[|op.params| - 1][|op.params[|op.params| - 1]| - 1];
  }

  lemma {:induction false} JoinLast(sep: string, ls: seq<string>)
    requires ls != [] && ls[|ls| - 1] != []
    ensures |Join(sep, ls)| >= |ls[|ls| - 1]|
    ensures Join(sep, ls)[|Join(sep, ls)| - 1] == ls[|ls| - 1][|ls[|ls| - 1]| - 1]
  {
    if |ls| > 1 {
      JoinLast(sep, ls[1..]);
    }
  }
}
