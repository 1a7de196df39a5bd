/**
 * CommandsParser.Parse and CodeParser.Parse: split the text into lines, tokenize each line
 * and keep the records that are not null, in line order. The two parsers trim each line at
 * different places (CommandsParser in ToLines, CodeParser in ParseInstruction) and build
 * different records (a raw Command, a normalised Instruction).
 */
module Parser {
  import opened Common
  import opened Text
  import opened Ops
  import opened Tokenizer

  /** Which of the two parser copies. */
  datatype Dialect = Commands | Instructions

  function PrepareLines(d: Dialect, pieces: seq<string>): (r: seq<string>)
    ensures |r| == |pieces| && forall i :: 0 <= i < |pieces| ==> r[i] == ToLine(d, pieces[i])
  {
    if pieces == [] then [] else PrepareLines(d, pieces[..|pieces| - 1]) + [ToLine(d, pieces[|pieces| - 1])]
  }

  /** ToLines: split on '\n' dropping empty pieces; CommandsParser also trims every piece. */
  function ToLines(d: Dialect, code: string): (r: seq<string>)
    ensures |r| == |SplitLines(code)|
    ensures forall i :: 0 <= i < |r| ==> '\n' !in r[i]
    ensures d == Commands ==> forall i :: 0 <= i < |r| ==> r[i] == Trim(SplitLines(code)[i])
    ensures d == Instructions ==> r == SplitLines(code)
  {
    var pieces := SplitLines(code);
    var r := PrepareLines(d, pieces);
    assert forall i :: 0 <= i < |r| ==> '\n' !in r[i] by {
      forall i | 0 <= i < |r| ensures '\n' !in r[i] {
        TrimKeepsAbsent(pieces[i], '\n');
      }
    }
    r
  }

  /** The record one line yields (ParseOperation or ParseInstruction). */
  function ParseLine(d: Dialect, line: string): Option<Op> {
    if d == Commands then CreateCommand(LineFields(line)) else CreateInstruction(LineFields(Trim(line)))
  }

  function RecordOf(d: Dialect, line: string): seq<Op> {
    match ParseLine(d, line)
    case Some(op) => [op]
    case None => []
  }

  /** The records of the lines, in line order: at most one per line. */
  function Records(d: Dialect, lines: seq<string>): (r: seq<Op>)
    ensures |r| <= |lines|
  {
    if lines == [] then [] else Records(d, lines[..|lines| - 1]) + RecordOf(d, lines[|lines| - 1])
  }

  /** ParseLines: the loop that appends each non-null record. */
  method ParseLines(d: Dialect, lines: seq<string>) returns (operations: seq<Op>)
    ensures operations == Records(d, lines)
  {
    operations := [];
    for k := 0 to |lines|
      invariant operations == Records(d, lines[..k])
    {
      var operation: Option<Op>;
      if d == Commands {
        operation := ParseOperation(lines[k]);
      } else {
        operation := ParseInstruction(lines[k]);
      }
      if operation.Some? {
        operations := operations + [operation.value];
      }
      RecordsPrefix(d, lines, k);
    }
    assert lines[..|lines|] == lines;
  }

  /** The whole text's records. */
  function ParseCode(d: Dialect, code: string): seq<Op> {
    Records(d, ToLines(d, code))
  }

  /** Parse(code) = ParseLines(ToLines(code)). */
  method Parse(d: Dialect, code: string) returns (operations: seq<Op>)
    ensures operations == ParseCode(d, code)
    ensures |operations| <= |SplitLines(code)|
  {
    operations := ParseLines(d, ToLines(d, code));
  }

  // ---------------------------------------------------------------- properties

  /** Records of consecutive lines are the records of the first lines followed by those of the rest. */
  lemma {:induction false} RecordsAppend(d: Dialect, a: seq<string>, b: seq<string>)
    ensures Records(d, a + b) == Records(d, a) + Records(d, b)
    decreases |b|
  {
    if b == [] {
      assert a + b == a;
    } else {
      var b', x := b[..|b| - 1], b[|b| - 1];
      assert b == b' + [x];
      assert a + b == (a + b') + [x];
      RecordsAppend(d, a, b');
      RecordsSnoc(d, a + b', x);
      RecordsSnoc(d, b', x);
      AppendAssoc(Records(d, a), Records(d, b'), RecordOf(d, x));
    }
  }

  lemma RecordsSnoc(d: Dialect, ls: seq<string>, l: string)
    ensures Records(d, ls + [l]) == Records(d, ls) + RecordOf(d, l)
  {
    assert (ls + [l])[..|ls|] == ls;
  }

  /** The records of the first k + 1 lines: those of the first k, then line k's. */
  lemma RecordsPrefix(d: Dialect, lines: seq<string>, k: nat)
    requires k < |lines|
    ensures Records(d, lines[..k + 1]) == Records(d, lines[..k]) + RecordOf(d, lines[k])
  {
    assert lines[..k + 1][..k] == lines[..k];
  }

  lemma PrepareLinesSnoc(d: Dialect, ls: seq<string>, l: string)
    ensures PrepareLines(d, ls + [l]) == PrepareLines(d, ls) + [ToLine(d, l)]
  {
    assert (ls + [l])[..|ls|] == ls;
  }

  lemma AllWhiteTrim(s: string)
    requires forall i :: 0 <= i < |s| ==> IsWhite(s[i])
    ensures Trim(s) == []
  {
  }

  /** A line of white space only, or one whose first non-blank character is ';', yields nothing. */
  lemma BlankOrCommentLine(d: Dialect, raw: string)
    requires (forall i :: 0 <= i < |raw| ==> IsWhite(raw[i])) || (Trim(raw) != [] && Trim(raw)[0] == ';')
    ensures d == Commands ==> ParseLine(d, Trim(raw)) == None
    ensures d == Instructions ==> ParseLine(d, raw) == None
  {
    if forall i :: 0 <= i < |raw| ==> IsWhite(raw[i]) {
      AllWhiteTrim(raw);
    }
    TrimIdempotent(raw);
    EmptyOrCommentLine(Trim(raw));
  }

  /** A record from the Commands parser and from the Instructions parser differ only by normalisation. */
  lemma {:induction false} DialectsAgree(lines: seq<string>)
    ensures Records(Instructions, lines) == Normalised(Records(Commands, PrepareLines(Commands, lines)))
  {
    if lines != [] {
      var init, last := lines[..|lines| - 1], lines[|lines| - 1];
      assert lines == init + [last];
      DialectsAgree(init);
      PrepareLinesSnoc(Commands, init, last);
      RecordsSnoc(Instructions, init, last);
      RecordsSnoc(Commands, PrepareLines(Commands, init), Trim(last));
      LineDialectsAgree(last);
      NormalisedAppend(Records(Commands, PrepareLines(Commands, init)), RecordOf(Commands, Trim(last)));
    }
  }

  /** One line: the Instructions parser's record is the Commands parser's, normalised. */
  lemma LineDialectsAgree(line: string)
    ensures RecordOf(Instructions, line) == Normalised(RecordOf(Commands, Trim(line)))
  {
    match ParseLine(Commands, Trim(line))
    case None =>
    case Some(op) =>
      assert Normalised([op]) == Normalised([]) + [NewInstruction(op.name, op.params)];
  }

  /** CodeParser.Parse yields CommandsParser.Parse's records, each normalised as an Instruction. */
  lemma ParseDialectsAgree(code: string)
    ensures ParseCode(Instructions, code) == Normalised(ParseCode(Commands, code))
  {
    var pieces := SplitLines(code);
    DialectsAgree(pieces);
    assert PrepareLines(Instructions, pieces) == pieces;
  }

  function Normalised(ops: seq<Op>): (r: seq<Op>)
    ensures |r| == |ops|
  {
    if ops == [] then [] else Normalised(ops[..|ops| - 1]) + [NewInstruction(ops[|ops| - 1].name, ops[|ops| - 1].params)]
  }

  /** Normalising a concatenation normalises each part. */
  lemma {:induction false} NormalisedAppend(a: seq<Op>, b: seq<Op>)
    ensures Normalised(a + b) == Normalised(a) + Normalised(b)
    decreases |b|
  {
    if b == [] {
      assert a + b == a;
      assert Normalised(a) + [] == Normalised(a);
    } else {
      var b', x := b[..|b| - 1], b[|b| - 1];
      assert b == b' + [x];
      assert a + b == (a + b') + [x];
      var n := NewInstruction(x.name, x.params);
      calc {
        Normalised(a + b);
        { NormalisedSnoc(a + b', x); }
        Normalised(a + b') + [n];
        { NormalisedAppend(a, b'); }
        (Normalised(a) + Normalised(b')) + [n];
        { AppendAssoc(Normalised(a), Normalised(b'), [n]); }
        Normalised(a) + (Normalised(b') + [n]);
        { NormalisedSnoc(b', x); }
        Normalised(a) + Normalised(b);
      }
    }
  }

  lemma NormalisedSnoc(ops: seq<Op>, op: Op)
    ensures Normalised(ops + [op]) == Normalised(ops) + [NewInstruction(op.name, op.params)]
  {
    assert (ops + [op])[..|ops|] == ops;
  }

  /** The source text of a list of records: one rendered line each. */
  function Source(ops: seq<Op>): string {
    Join("\n", RenderAll(ops))
  }

  function RenderAll(ops: seq<Op>): (r: seq<string>)
    ensures |r| == |ops| && forall i :: 0 <= i < |ops| ==> r[i] == RenderLine(ops[i])
  {
    if ops == [] then [] else RenderAll(ops[..|ops| - 1]) + [RenderLine(ops[|ops| - 1])]
  }

  /** Every well-formed line yields exactly its record under either parser. */
  lemma RenderedLineParses(d: Dialect, op: Op)
    requires WellFormed(op)
    ensures var l := RenderLine(op); ToLine(d, l) == l
    ensures RecordOf(d, RenderLine(op)) ==
      if d == Commands then [op] else [NewInstruction(op.name, op.params)]
  {
    var l := RenderLine(op);
    RenderLineTrimmed(op);
    TrimOfNoWhite(l);
    RenderRoundTrip(op);
    CreateCommandOfFields(op);
    assert Fields(op)[1..] == op.params;
  }

  /** The line form ParseLines receives: trimmed by CommandsParser's ToLines, raw otherwise. */
  function ToLine(d: Dialect, l: string): string {
    if d == Commands then Trim(l) else l
  }

  /**
   * Parsing the source text of well-formed records gives them back: exactly for Commands,
   * normalised for Instructions.
   */
  lemma ParseSourceRoundTrip(d: Dialect, ops: seq<Op>)
    requires forall i :: 0 <= i < |ops| ==> WellFormed(ops[i])
    ensures ParseCode(d, Source(ops)) == if d == Commands then ops else Normalised(ops)
  {
    var ls := RenderAll(ops);
    forall i | 0 <= i < |ls| ensures |ls[i]| > 0 && '\n' !in ls[i] {
      RenderLineTrimmed(ops[i]);
    }
    SplitJoinLines(ls);
    RecordsOfRendered(d, ops);
  }

  lemma {:induction false} RecordsOfRendered(d: Dialect, ops: seq<Op>)
    requires forall i :: 0 <= i < |ops| ==> WellFormed(ops[i])
    ensures Records(d, PrepareLines(d, RenderAll(ops))) == if d == Commands then ops else Normalised(ops)
  {
    if ops != [] {
      var init, last := ops[..|ops| - 1], ops[|ops| - 1];
      assert ops == init + [last];
      RecordsOfRendered(d, init);
      RenderedLineParses(d, last);
      var l := RenderLine(last);
      RenderAllSnoc(init, last);
      PrepareLinesSnoc(d, RenderAll(init), l);
      RecordsSnoc(d, PrepareLines(d, RenderAll(init)), l);
      if d == Instructions {
        NormalisedSnoc(init, last);
      }
    }
  }

  lemma RenderAllSnoc(ops: seq<Op>, op: Op)
    ensures RenderAll(ops + [op]) == RenderAll(ops) + [RenderLine(op)]
  {
    assert (ops + [op])[..|ops|] == ops;
  }
}
