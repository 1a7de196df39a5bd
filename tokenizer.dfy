/**
 * The per-line tokenizer of CommandsParser.ParseOperation and CodeParser.ParseInstruction:
 * one pass over the characters with a field list (info), a field buffer and an in-quotes flag.
 * The two copies run the same loop; CodeParser trims the line before the loop and builds an
 * Instruction, CommandsParser builds a Command from the raw fields.
 */
module Tokenizer {
  import opened Common
  import opened Text
  import opened Ops

  /** The loop's variables between two characters. */
  datatype Scan = Scan(info: seq<string>, buffer: string, inQuotes: bool)

  /** What one character does: keep scanning, or return from the method with these fields. */
  datatype Next = Continue(st: Scan) | Stop(fields: seq<string>)

  const Start: Scan := Scan([], "", false)

  /** The end-of-line flush: a non-empty buffer becomes the last field. */
  function Flush(st: Scan): (r: seq<string>)
    ensures st.buffer != [] ==> r == st.info + [st.buffer]
    ensures st.buffer == [] ==> r == st.info
  {
    if |st.buffer| > 0 then st.info + [st.buffer] else st.info
  }

  /** The body of the switch for one character. */
  function StepChar(st: Scan, c: char): Next {
    if c == ' ' then
      if st.info == [] then Continue(Scan([st.buffer], "", st.inQuotes))
      else if st.inQuotes then Continue(st.(buffer := st.buffer + [c]))
      else Continue(st)
    else if c == ':' then
      if st.info == [] then Stop([st.buffer + [c]])
      else if st.inQuotes then Continue(st.(buffer := st.buffer + [c]))
      else Continue(st)
    else if c == ',' then
      if st.inQuotes then Continue(st.(buffer := st.buffer + [c]))
      else Continue(Scan(st.info + [st.buffer], "", st.inQuotes))
    else if c == '\'' then
      Continue(Scan(st.info, st.buffer + [c], !st.inQuotes))
    else if c == ';' then
      if !st.inQuotes then Stop(Flush(st)) else Continue(st)
    else
      Continue(st.(buffer := st.buffer + [c]))
  }

  /** The fields the loop produces from state st over the characters s. */
  function ScanFrom(s: string, st: Scan): seq<string> {
    if s == [] then Flush(st)
    else match StepChar(st, s[0])
      case Stop(fields) => fields
      case Continue(st') => ScanFrom(s[1..], st')
  }

  /** The fields of a line. */
  function LineFields(line: string): seq<string> {
    ScanFrom(line, Start)
  }

  /** The shared loop: the field list a line yields, with the early returns at ':' and ';'. */
  method SplitFields(line: string) returns (info: seq<string>)
    ensures info == LineFields(line)
  {
    info := [];
    var buffer: string := "";
    var inQuotes := false;
    for k := 0 to |line|
      invariant ScanFrom(line[k..], Scan(info, buffer, inQuotes)) == LineFields(line)
    {
      var c := line[k];
      assert line[k..][0] == c && line[k..][1..] == line[k + 1..];
      ghost var next := StepChar(Scan(info, buffer, inQuotes), c);
      if c == ' ' {
        if info == [] {
          info := info + [buffer];
          buffer := "";
        } else if inQuotes {
          buffer := buffer + [c];
        }
      } else if c == ':' {
        if info == [] {
          buffer := buffer + [c];
          info := info + [buffer];
          return;
        } else if inQuotes {
          buffer := buffer + [c];
        }
      } else if c == ',' {
        if inQuotes {
          buffer := buffer + [c];
        } else {
          info := info + [buffer];
          buffer := "";
        }
      } else if c == '\'' {
        inQuotes := !inQuotes;
        buffer := buffer + [c];
      } else if c == ';' {
        if !inQuotes {
          if |buffer| > 0 {
            info := info + [buffer];
          }
          return;
        }
      } else {
        buffer := buffer + [c];
      }
      assert next == Continue(Scan(info, buffer, inQuotes));
    }
    if |buffer| > 0 {
      info := info + [buffer];
    }
  }

  /** CommandsParser.ParseOperation: the raw fields of the line as a Command, or null. */
  method ParseOperation(line: string) returns (r: Option<Op>)
    ensures r == CreateCommand(LineFields(line))
  {
    var info := SplitFields(line);
    r := CreateCommand(info);
  }

  /** CodeParser.ParseInstruction: the fields of the trimmed line as a normalised Instruction, or null. */
  method ParseInstruction(line: string) returns (r: Option<Op>)
    ensures r == CreateInstruction(LineFields(Trim(line)))
  {
    var info := SplitFields(Trim(line));
    r := CreateInstruction(info);
  }

  // ---------------------------------------------------------------- composition of scans

  /** A scan over s + t either stops inside s or goes on over t from where s left it. */
  function ScanPrefix(s: string, st: Scan): Next {
    if s == [] then Continue(st)
    else match StepChar(st, s[0])
      case Stop(fields) => Stop(fields)
      case Continue(st') => ScanPrefix(s[1..], st')
  }

  lemma {:induction false} ScanAppend(s: string, t: string, st: Scan)
    ensures ScanFrom(s + t, st) == match ScanPrefix(s, st)
      case Stop(fields) => fields
      case Continue(st') => ScanFrom(t, st')
  {
    if s == [] {
      assert s + t == t;
    } else {
      assert (s + t)[0] == s[0] && (s + t)[1..] == s[1..] + t;
      match StepChar(st, s[0])
      case Stop(_) =>
      case Continue(st') => ScanAppend(s[1..], t, st');
    }
  }

  // ---------------------------------------------------------------- empty lines and comments

  /** An empty line, and one whose first character is ';', yield no field, hence no record. */
  lemma EmptyOrCommentLine(line: string)
    requires line == [] || line[0] == ';'
    ensures LineFields(line) == []
    ensures CreateCommand(LineFields(line)) == None && CreateInstruction(LineFields(line)) == None
  {
  }

  /** A ';' outside quotes ends the scan: what follows it never matters. */
  lemma CommentEndsLine(s: string, comment: string, st: Scan)
    requires ScanPrefix(s, st).Continue? && !ScanPrefix(s, st).st.inQuotes
    ensures ScanFrom(s + ";" + comment, st) == ScanFrom(s, st)
  {
    ScanAppend(s, ";" + comment, st);
    ScanAppend(s, [], st);
    assert s + [] == s;
    assert s + ";" + comment == s + (";" + comment);
  }

  // ---------------------------------------------------------------- separators after the name

  /** Once the name is captured, a space outside quotes is dropped: it separates nothing. */
  lemma SpaceSkipped(info: seq<string>, buffer: string, rest: string)
    requires info != []
    ensures ScanFrom(" " + rest, Scan(info, buffer, false)) == ScanFrom(rest, Scan(info, buffer, false))
  {
    assert (" " + rest)[1..] == rest;
  }

  /** A ',' outside quotes closes the buffer as a field, so two commas in a row close an empty one. */
  lemma EmptyFieldKept(info: seq<string>, buffer: string, rest: string)
    ensures ScanFrom("," + rest, Scan(info, buffer, false)) == ScanFrom(rest, Scan(info + [buffer], "", false))
    ensures ScanFrom(",," + rest, Scan(info, buffer, false)) == ScanFrom(rest, Scan(info + [buffer, ""], "", false))
  {
    assert ("," + rest)[1..] == rest;
    assert (",," + rest)[1..] == "," + rest;
    assert info + [buffer] + [""] == info + [buffer, ""];
  }

  /** A ';' inside quotes neither ends the line nor enters the token: it is dropped. */
  lemma QuotedSemicolonDropped(info: seq<string>, buffer: string, rest: string)
    ensures ScanFrom(";" + rest, Scan(info, buffer, true)) == ScanFrom(rest, Scan(info, buffer, true))
  {
    assert (";" + rest)[1..] == rest;
  }

  // ---------------------------------------------------------------- labels

  /** Characters that, before the first field is captured, only extend the buffer. */
  predicate NameChar(c: char) {
    c != ' ' && c != ',' && c != ';' && c != ':'
  }

  function Toggled(q: bool, s: string): bool
    decreases s
  {
    if s == [] then q
    else
      var q' := if s[0] == '\'' then !q else q;
      Toggled(q', s[1..])
  }

  lemma {:induction false} NameRun(s: string, buf: string, q: bool)
    requires forall i :: 0 <= i < |s| ==> NameChar(s[i])
    ensures ScanPrefix(s, Scan([], buf, q)) == Continue(Scan([], buf + s, Toggled(q, s)))
  {
    if s != [] {
      var q' := if s[0] == '\'' then !q else q;
      assert StepChar(Scan([], buf, q), s[0]) == Continue(Scan([], buf + [s[0]], q'));
      NameRun(s[1..], buf + [s[0]], q');
      assert buf + [s[0]] + s[1..] == buf + s;
    }
  }

  /**
   * A ':' reached before any field is captured ends the line: the text up to and including
   * the ':' is the only field, so the record is a label without parameters.
   */
  lemma LabelLine(prefix: string, rest: string)
    requires forall i :: 0 <= i < |prefix| ==> NameChar(prefix[i])
    ensures LineFields(prefix + ":" + rest) == [prefix + ":"]
    ensures var r := CreateCommand(LineFields(prefix + ":" + rest));
      r.Some? && IsLabel(r.value) && r.value.params == [] && LabelName(r.value) == prefix
  {
    NameRun(prefix, "", false);
    assert "" + prefix == prefix;
    ScanAppend(prefix, ":" + rest, Start);
    assert prefix + ":" + rest == prefix + (":" + rest);
  }

  /** The loop invariant behind "a label has no parameters": ':' never enters the first field. */
  predicate NoColonInName(st: Scan) {
    if st.info == [] then ':' !in st.buffer else ':' !in st.info[0]
  }

  /** A field list whose first field ends in ':' has that field alone. */
  predicate LabelsAlone(fields: seq<string>) {
    fields != [] && |fields[0]| > 0 && fields[0][|fields[0]| - 1] == ':' ==> |fields| == 1
  }

  lemma {:induction false} ScanKeepsLabelsAlone(s: string, st: Scan)
    requires NoColonInName(st)
    ensures LabelsAlone(ScanFrom(s, st))
    ensures var fs := ScanFrom(s, st); |fs| > 1 ==> ':' !in fs[0]
  {
    if s == [] {
    } else {
      var c := s[0];
      match StepChar(st, c)
      case Stop(fields) =>
        if c != ':' {
          assert fields == Flush(st);
        }
      case Continue(st') =>
        assert NoColonInName(st') by {
          if st.info == [] {
            if st'.info != [] {
              assert st'.info[0] == st.buffer;
            } else {
              assert c != ':';
              assert st'.buffer == st.buffer || st'.buffer == st.buffer + [c];
            }
          } else {
            assert st'.info[0] == st.info[0];
          }
        }
        ScanKeepsLabelsAlone(s[1..], st');
    }
  }

  /** Every label Command the tokenizer produces has zero parameters. */
  lemma CommandLabelHasNoParams(line: string)
    requires CreateCommand(LineFields(line)).Some?
    requires IsLabel(CreateCommand(LineFields(line)).value)
    ensures CreateCommand(LineFields(line)).value.params == []
  {
    ScanKeepsLabelsAlone(line, Start);
  }

  lemma ColonFreeName(s: string)
    requires ':' !in s
    ensures ':' !in Lower(Trim(s))
  {
    var u := Trim(s);
    TrimKeepsAbsent(s, ':');
    forall i | 0 <= i < |u| ensures Lower(u)[i] != ':' {
      assert u[i] in u;
    }
  }

  /** Every label Instruction the tokenizer produces has zero parameters. */
  lemma InstructionLabelHasNoParams(line: string)
    requires CreateInstruction(LineFields(Trim(line))).Some?
    requires IsLabel(CreateInstruction(LineFields(Trim(line))).value)
    ensures CreateInstruction(LineFields(Trim(line))).value.params == []
  {
    var t := Trim(line);
    var fs := LineFields(t);
    assert NoColonInName(Start);
    ScanKeepsLabelsAlone(t, Start);
    assert |fs| > 1 ==> ':' !in fs[0];
    LabelInstructionAlone(fs);
  }

  lemma LabelInstructionAlone(fs: seq<string>)
    requires |fs| > 1 ==> ':' !in fs[0]
    requires CreateInstruction(fs).Some? && IsLabel(CreateInstruction(fs).value)
    ensures CreateInstruction(fs).value.params == []
  {
    var op := CreateInstruction(fs).value;
    if |fs| > 1 {
      var n := Lower(Trim(fs[0]));
      assert op.name == n;
      assert n[|n| - 1] in n;
      ColonFreeName(fs[0]);
      assert false;
    }
  }

  // ---------------------------------------------------------------- round trip of a source line

  /** A bare token: a mnemonic, a register name or a number. */
  predicate IsPlain(s: string) {
    s != [] && forall i :: 0 <= i < |s| ==> !IsWhite(s[i]) && NameChar(s[i]) && s[i] != '\''
  }

  /** A quoted message fragment: anything but quotes, semicolons and line feeds between quotes. */
  predicate IsQuoted(s: string) {
    |s| >= 2 && s[0] == '\'' && s[|s| - 1] == '\'' &&
    forall i :: 0 < i < |s| - 1 ==> s[i] != '\'' && s[i] != ';' && s[i] != '\n'
  }

  predicate IsToken(s: string) {
    IsPlain(s) || IsQuoted(s)
  }

  /** A record the source syntax can spell: an instruction with tokens, or a label line. */
  predicate WellFormed(op: Op) {
    (IsPlain(op.name) && forall i :: 0 <= i < |op.params| ==> IsToken(op.params[i])) ||
    (|op.name| > 1 && IsLabel(op) && IsPlain(LabelName(op)) && op.params == [])
  }

  /** The source syntax of a record: "name p1,p2,..." or "name:". */
  function RenderLine(op: Op): string {
    if op.params == [] then op.name else op.name + " " + Join(",", op.params)
  }

  /** Characters that just extend the buffer once the first field is captured. */
  predicate Appends(c: char, inQuotes: bool) {
    c != '\'' && c != ';' && (inQuotes || (c != ' ' && c != ':' && c != ','))
  }

  lemma {:induction false} AppendRun(s: string, st: Scan)
    requires st.info != []
    requires forall i :: 0 <= i < |s| ==> Appends(s[i], st.inQuotes)
    ensures ScanPrefix(s, st) == Continue(st.(buffer := st.buffer + s))
  {
    if s == [] {
      assert st.buffer + s == st.buffer;
    } else {
      assert StepChar(st, s[0]) == Continue(st.(buffer := st.buffer + [s[0]]));
      AppendRun(s[1..], st.(buffer := st.buffer + [s[0]]));
      assert st.buffer + [s[0]] + s[1..] == st.buffer + s;
    }
  }

  /** A token after the first field fills the buffer and leaves the quotes closed. */
  lemma TokenRun(p: string, info: seq<string>)
    requires info != [] && IsToken(p)
    ensures ScanPrefix(p, Scan(info, "", false)) == Continue(Scan(info, p, false))
  {
    if IsPlain(p) {
      AppendRun(p, Scan(info, "", false));
      assert "" + p == p;
    } else {
      var body := p[1..|p| - 1];
      var st1 := Scan(info, "'", true);
      assert StepChar(Scan(info, "", false), '\'') == Continue(st1);
      AppendRun(body, st1);
      var st2 := Scan(info, "'" + body, true);
      assert StepChar(st2, '\'') == Continue(Scan(info, "'" + body + "'", false));
      assert p == "'" + body + "'";
      ScanPrefixAppend("'", body + "'", Scan(info, "", false));
      ScanPrefixAppend(body, "'", st1);
      assert p == "'" + (body + "'");
    }
  }

  lemma {:induction false} ScanPrefixAppend(s: string, t: string, st: Scan)
    ensures ScanPrefix(s + t, st) == match ScanPrefix(s, st)
      case Stop(fields) => Stop(fields)
      case Continue(st') => ScanPrefix(t, st')
  {
    if s == [] {
      assert s + t == t;
    } else {
      assert (s + t)[0] == s[0] && (s + t)[1..] == s[1..] + t;
      match StepChar(st, s[0])
      case Stop(_) =>
      case Continue(st') => ScanPrefixAppend(s[1..], t, st');
    }
  }

  /** Comma-separated tokens after the first field become one field each, in order. */
  lemma {:induction false} ParamsRun(ps: seq<string>, info: seq<string>)
    requires info != [] && ps != []
    requires forall i :: 0 <= i < |ps| ==> IsToken(ps[i])
    ensures ScanFrom(Join(",", ps), Scan(info, "", false)) == info + ps
  {
    if |ps| == 1 {
      LastParam(ps[0], info);
      assert ps == [ps[0]];
    } else {
      var rest := Join(",", ps[1..]);
      assert Join(",", ps) == ps[0] + ("," + rest);
      CommaParam(ps[0], rest, info);
      ParamsRun(ps[1..], info + [ps[0]]);
      assert info + [ps[0]] + ps[1..] == info + ps;
    }
  }

  /** The last token of the line is flushed as the last field. */
  lemma LastParam(p: string, info: seq<string>)
    requires info != [] && IsToken(p)
    ensures ScanFrom(p, Scan(info, "", false)) == info + [p]
  {
    TokenRun(p, info);
    ScanAppend(p, [], Scan(info, "", false));
    assert p + [] == p;
  }

  /** A token followed by ',' is closed as a field; the scan goes on with an empty buffer. */
  lemma CommaParam(p: string, rest: string, info: seq<string>)
    requires info != [] && IsToken(p)
    ensures ScanFrom(p + ("," + rest), Scan(info, "", false)) == ScanFrom(rest, Scan(info + [p], "", false))
  {
    TokenRun(p, info);
    ScanAppend(p, "," + rest, Scan(info, "", false));
    assert ("," + rest)[1..] == rest;
  }

  /** Tokenizing the source spelling of a well-formed record gives back its fields. */
  lemma RenderRoundTrip(op: Op)
    requires WellFormed(op)
    ensures LineFields(RenderLine(op)) == Fields(op)
  {
    if IsPlain(op.name) {
      InstructionRoundTrip(op);
    } else {
      var prefix := LabelName(op);
      LabelLine(prefix, []);
      assert prefix + ":" + [] == op.name;
    }
  }

  lemma InstructionRoundTrip(op: Op)
    requires IsPlain(op.name) && forall i :: 0 <= i < |op.params| ==> IsToken(op.params[i])
    ensures LineFields(RenderLine(op)) == Fields(op)
  {
    NameRun(op.name, "", false);
    assert "" + op.name == op.name;
    ToggledNoQuote(false, op.name);
    var afterName := Scan([], op.name, false);
    assert ScanPrefix(op.name, Start) == Continue(afterName);
    if op.params == [] {
      ScanAppend(op.name, [], Start);
      assert op.name + [] == op.name;
    } else {
      var rest := Join(",", op.params);
      ScanAppend(op.name, " " + rest, Start);
      assert RenderLine(op) == op.name + (" " + rest);
      assert (" " + rest)[1..] == rest;
      assert StepChar(afterName, ' ') == Continue(Scan([op.name], "", false));
      ParamsRun(op.params, [op.name]);
    }
  }

  lemma {:induction false} ToggledNoQuote(q: bool, s: string)
    requires forall i :: 0 <= i < |s| ==> s[i] != '\''
    ensures Toggled(q, s) == q
  {
    if s != [] {
      ToggledNoQuote(q, s[1..]);
    }
  }

  /** The spelling has no white space at its ends, so the trimming of either parser keeps it. */
  lemma RenderLineTrimmed(op: Op)
    requires WellFormed(op)
    ensures NoWhiteEdges(RenderLine(op)) && |RenderLine(op)| > 0 && '\n' !in RenderLine(op)
  {
    var l := RenderLine(op);
    if op.params != [] {
      var ps := op.params;
      JoinLast(",", ps);
      NoLineFeedInJoin(ps);
      assert l == op.name + (" " + Join(",", ps));
    } else if !IsPlain(op.name) {
      assert op.name == LabelName(op) + ":";
    }
  }

  lemma {:induction false} NoLineFeedInJoin(ps: seq<string>)
    requires forall i :: 0 <= i < |ps| ==> IsToken(ps[i])
    ensures '\n' !in Join(",", ps)
  {
    if |ps| > 1 {
      NoLineFeedInJoin(ps[1..]);
    }
  }
}
