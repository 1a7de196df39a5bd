# AssemblerInterpreter, modelled in Dafny

AssemblerInterpreter runs programs in a small x86-flavoured assembly language. The source
text is split into lines. Each line is tokenized into a record: a name and a list of
parameters. Label records (`name:`) are then resolved away. Every jump or call whose first
parameter names a label gets the label's address instead. Finally a register machine runs
the records. It has a string-to-int register dictionary, a compare flag, a stack of return
addresses, an instruction pointer and an optional output string, `Data`.

The repository has two parallel copies of the front end and the handlers:

- `Commands` with `CommandsParser`, `Command`, `DefaultCompiler` and `X86Commands`;
- `Instructions` with `CodeParser`, `Instruction`, `Assembler` and `X86Instructions`.

The model states each shared algorithm once, with a parameter for the copy. Where the copies
differ, the difference is modelled and proved harmless:

- `Parser.Dialect` covers where the line is trimmed and whether the record is normalised;
- `Machine.HandlerSet` covers whether `Msg` trims its parameters.

Modules, one per file:

- `Common` (common.dfy): `Option`, `Result` and `Fault`, the exceptions the interpreter can raise.
- `Text` (text.dfy): the .NET string and number primitives on ASCII. These are Trim, ToLower,
  case-insensitive equality, int.ToString, int.TryParse, Split on `'\n'` without empty entries,
  string.Join and unchecked 32-bit wrap-around.
- `Ops` (ops.dfy): the `Command`/`Instruction` record, `Label`, `Command.Create`, the
  `Instruction` constructor, CodeParser.Create and `ToString`.
- `Tokenizer` (tokenizer.dfy): the per-character loop of ParseOperation/ParseInstruction. It is
  written as the imperative loop (`SplitFields`) and proved equal to a character-step function.
- `Parser` (parser.dfy): ToLines, the ParseLines loop and Parse for both parsers.
- `Resolver` (resolver.dfy): Compile/Translate and RemoveLabels/ReplaceLabelsWithAddresses. The
  in-place loop is proved equal to a declarative specification (`Resolved`).
- `Machine` (machine.dfy): the handlers as functions of the machine state, the handler table,
  `Run(Command)` and the fetch/execute loop with a fuel bound.
- `Behaviour` (behaviour.dfy): what the handlers and the loop promise, proved over `Machine`.
- `Processor` (processor.dfy): `X86Processor` and the handler classes as objects whose fields
  change in place. Every method is proved to do what the matching `Machine` function says.

Behaviour of the code that a reader might not expect, and that the model keeps:

- An address-requiring record whose target names no label keeps its string target. The
  resolver raises no error for it. It fails only at run time, when the register lookup fails.
- `Data` is not reset by a run. It survives `end` and the reset in `finally`
  (`Processors/X86Processor.cs:47-53`). Only running off the end of the program sets it to
  null (`Processors/X86Processor.cs:37`). The registers, the stack, the pointer and the flag
  are reset only as the run finishes, never at its start: a run inherits whatever a previous
  run left in `Data`.
- A jump to a label that only labels follow gets the program's length as its address, one past
  the last record. Taking it ends the run as if it had fallen through.
- The `jnz` offset goes through `int.Parse` (`Commands/X86Commands.cs:84`), so it must be a
  number literal. The interface's own documentation (`Instructions/IInstructions.cs:132`) says
  it "can be a register or a constant".
- `+ - * ++ --` wrap around at 32 bits, because the source is unchecked C#. int.MinValue / -1
  throws an overflow exception.

## Model

| member | source | states |
|---|---|---|
| Text.Trim | AssemblerInterpreter/Commands/CommandsParser.cs:110 | the trimmed line is no longer than the line and has no white space at either end |
| Text.TrimStrips | AssemblerInterpreter/Commands/CommandsParser.cs:110 | Trim's result has no white space at either end and is the input with only leading and trailing white space removed: there is a k such that it is s[k..k + n], everything before k is white space and everything after it is white space |
| Text.TrimKeepsAbsent | AssemblerInterpreter/Commands/CommandsParser.cs:110 | trimming only removes characters |
| Text.TrimStart | AssemblerInterpreter/Commands/CommandsParser.cs:110 | the result is a suffix of the input, does not start with white space, and only white space was removed |
| Text.TrimEnd | AssemblerInterpreter/Commands/Command.cs:24-25 | the result is a prefix of the input, does not end with white space, and only white space was removed |
| Text.TrimOfNoWhite | AssemblerInterpreter/Instructions/Instruction.cs:13-17 | a string without white space at its ends is left unchanged by Trim |
| Text.TrimIdempotent | AssemblerInterpreter/Instructions/Instruction.cs:13-17 | trimming twice is trimming once |
| Text.Lower | AssemblerInterpreter/Instructions/Instruction.cs:13-14 | ToLower keeps the length, lowers each ASCII capital and leaves no capital letter |
| Text.LowerIdempotent | AssemblerInterpreter/Instructions/Instruction.cs:13-14 | lower-casing twice is lower-casing once |
| Text.LowerKeepsNoWhiteEdges | AssemblerInterpreter/Instructions/Instruction.cs:13-14 | lower-casing a trimmed name leaves it trimmed |
| Text.Wrap | AssemblerInterpreter/Commands/X86Commands.cs:61-120 | unchecked int arithmetic: the result is a 32-bit int congruent to the exact value modulo 2^32, and equal to it when it fits |
| Text.TryParseInt | AssemblerInterpreter/Commands/X86Commands.cs:44-50 | int.TryParse accepts only values that fit in 32 bits |
| Text.Decimal | AssemblerInterpreter/Compilers/DefaultCompiler.cs:55 | int.ToString gives a non-empty string without white space, made of digits only when the value is not negative |
| Text.DigitsRoundTrip | AssemblerInterpreter/Compilers/DefaultCompiler.cs:55 | the digits of a natural number read back as that number |
| Text.DecimalRoundTrip | AssemblerInterpreter/Compilers/DefaultCompiler.cs:55 | every 32-bit int printed by ToString is read back by TryParse as the same int |
| Text.LetterFirstNoNumber | AssemblerInterpreter/Commands/X86Commands.cs:44-50 | a token that starts with a letter is never a number |
| Text.SplitLines | AssemblerInterpreter/Instructions/CodeParser.cs:14-15 | Split on '\n' without empty entries: every piece is non-empty and holds no line feed |
| Text.SplitLinesKeepsText | AssemblerInterpreter/Instructions/CodeParser.cs:14-15 | the pieces, concatenated in order, are the text with its line feeds removed |
| Text.SplitJoinLines | AssemblerInterpreter/Commands/CommandsParser.cs:107-110 | splitting lines that were joined with '\n' gives them back, when none is empty or holds a line feed |
| Ops.LabelName | AssemblerInterpreter/Compilers/DefaultCompiler.cs:47 | Name[..^1] followed by ':' is the label's name |
| Ops.Fields | AssemblerInterpreter/Commands/Command.cs:17-22 | the field list of a record is its name followed by its parameters |
| Ops.CreateCommand | AssemblerInterpreter/Commands/Command.cs:17-22 | Create returns null exactly for an empty field list; otherwise the first field is the name and the rest are the parameters, in order |
| Ops.CreateCommandOfFields | AssemblerInterpreter/Commands/Command.cs:11-22 | Create applied to a record's own fields gives the record back: the constructor stores both parts unchanged |
| Ops.TrimAll | AssemblerInterpreter/Instructions/Instruction.cs:16-17 | every parameter is trimmed, in the same number and order |
| Ops.TrimAllOfTrimmed | AssemblerInterpreter/Instructions/Instruction.cs:16-17 | already trimmed parameters are kept as they are |
| Ops.NewInstruction | AssemblerInterpreter/Instructions/Instruction.cs:11-18 | the stored name is name.Trim().ToLower(), so it has no white edges and no capital letter, and parameter i is parameters[i].Trim(), with the number of parameters kept |
| Ops.NewInstructionOfNormal | AssemblerInterpreter/Instructions/Instruction.cs:11-18 | a trimmed lower-case name and trimmed parameters are stored unchanged |
| Ops.NewInstructionIdempotent | AssemblerInterpreter/Instructions/Instruction.cs:13-17 | rebuilding an instruction from its own name and parameters gives the same fields |
| Ops.CreateInstruction | AssemblerInterpreter/Instructions/CodeParser.cs:110-115 | null exactly for an empty field list; otherwise the Instruction constructor's record for the first field and the rest |
| Ops.ToStringNoParams | AssemblerInterpreter/Instructions/Instruction.cs:20-21 | without parameters ToString is the name |
| Ops.ToStringWithParams | AssemblerInterpreter/Commands/Command.cs:24-25 | with parameters whose last one ends in a non-blank character, ToString is the name, a space and the parameters joined by spaces |
| Tokenizer.Flush | AssemblerInterpreter/Instructions/CodeParser.cs:102-105 | at the end of the line a non-empty buffer is appended as the last field, and an empty buffer adds nothing |
| Tokenizer.SplitFields | AssemblerInterpreter/Commands/CommandsParser.cs:29-105 | the imperative loop over the characters, with its early returns at ':' and ';', yields the fields of the character-step function |
| Tokenizer.ParseOperation | AssemblerInterpreter/Commands/CommandsParser.cs:29-105 | the Command is Create applied to the raw fields of the line |
| Tokenizer.ParseInstruction | AssemblerInterpreter/Instructions/CodeParser.cs:32-108 | the Instruction is CodeParser.Create applied to the fields of the trimmed line |
| Tokenizer.ScanAppend | AssemblerInterpreter/Instructions/CodeParser.cs:38-100 | scanning s + t either stops inside s with that result or goes on over t from the state s left |
| Tokenizer.EmptyOrCommentLine | AssemblerInterpreter/Instructions/CodeParser.cs:84-94 | an empty line, and one that starts with ';', yields no field and no record |
| Tokenizer.CommentEndsLine | AssemblerInterpreter/Commands/CommandsParser.cs:81-91 | a ';' outside quotes ends the scan: what follows it never changes the fields |
| Tokenizer.SpaceSkipped | AssemblerInterpreter/Commands/CommandsParser.cs:39-49 | once the name is captured, a space outside quotes is dropped and the scan goes on in the same state |
| Tokenizer.EmptyFieldKept | AssemblerInterpreter/Commands/CommandsParser.cs:64-74 | a ',' outside quotes closes the buffer as a field even when it is empty, so ",," yields an empty field "" |
| Tokenizer.QuotedSemicolonDropped | AssemblerInterpreter/Commands/CommandsParser.cs:81-91 | a ';' inside quotes neither ends the line nor enters the token |
| Tokenizer.NameRun | AssemblerInterpreter/Commands/CommandsParser.cs:76-95 | before the first field, characters other than space, ',', ';' and ':' only extend the buffer, and each quote toggles the flag |
| Tokenizer.LabelLine | AssemblerInterpreter/Instructions/CodeParser.cs:54-60 | a ':' reached before any field ends the line: the one field is the text up to and including ':', so the record is a label without parameters named by that text |
| Tokenizer.ScanKeepsLabelsAlone | AssemblerInterpreter/Commands/CommandsParser.cs:39-62 | ':' never enters the first field unless the line stops there, so a first field ending in ':' is the only field |
| Tokenizer.CommandLabelHasNoParams | AssemblerInterpreter/Commands/CommandsParser.cs:51-57 | every label Command the tokenizer produces has no parameters |
| Tokenizer.ColonFreeName | AssemblerInterpreter/Instructions/CodeParser.cs:113 | trimming and lower-casing adds no ':' to a name |
| Tokenizer.InstructionLabelHasNoParams | AssemblerInterpreter/Instructions/CodeParser.cs:54-60 | every label Instruction the tokenizer produces has no parameters |
| Tokenizer.AppendRun | AssemblerInterpreter/Instructions/CodeParser.cs:42-99 | after the first field, characters that are not separators (or are inside quotes) only extend the buffer |
| Tokenizer.TokenRun | AssemblerInterpreter/Instructions/CodeParser.cs:67-82 | a bare token or a quoted fragment fills the buffer and leaves the quotes closed; ',' and ' ' inside quotes are kept |
| Tokenizer.ScanPrefixAppend | AssemblerInterpreter/Instructions/CodeParser.cs:38-100 | the partial scan of s + t is the partial scan of t from where s left off, unless s stops |
| Tokenizer.ParamsRun | AssemblerInterpreter/Commands/CommandsParser.cs:64-74 | comma-separated tokens after the first field become one field each, in order |
| Tokenizer.LastParam | AssemblerInterpreter/Commands/CommandsParser.cs:99-104 | the last token of a line is flushed as the last field |
| Tokenizer.CommaParam | AssemblerInterpreter/Commands/CommandsParser.cs:64-74 | a token followed by ',' is closed as a field and the scan goes on with an empty buffer |
| Tokenizer.RenderRoundTrip | AssemblerInterpreter/Commands/CommandsParser.cs:29-105 | tokenizing "name p1,p2,..." or "name:" gives back the record's fields, for every record the syntax can spell |
| Tokenizer.InstructionRoundTrip | AssemblerInterpreter/Commands/CommandsParser.cs:39-104 | the first space closes the name and each ',' closes a parameter, so an instruction line tokenizes to its name and parameters |
| Tokenizer.ToggledNoQuote | AssemblerInterpreter/Commands/CommandsParser.cs:76-79 | without a quote the in-quotes flag never changes |
| Tokenizer.RenderLineTrimmed | AssemblerInterpreter/Commands/CommandsParser.cs:107-110 | the spelling of a record has no white space at its ends and no line feed, so both parsers' trimming keeps it |
| Parser.PrepareLines | AssemblerInterpreter/Commands/CommandsParser.cs:107-110 | one line per piece: trimmed for CommandsParser, unchanged for CodeParser |
| Parser.ToLines | AssemblerInterpreter/Commands/CommandsParser.cs:107-110 | ToLines gives one line per non-empty piece of the split, none holding a line feed; CommandsParser trims each piece and CodeParser (Instructions/CodeParser.cs:14-15) does not |
| Parser.Records | AssemblerInterpreter/Instructions/CodeParser.cs:17-30 | at most one record per line |
| Parser.ParseLines | AssemblerInterpreter/Commands/CommandsParser.cs:14-27 | the loop appends each non-null record, so the result is the records of the lines in line order |
| Parser.Parse | AssemblerInterpreter/Instructions/CodeParser.cs:7-12 | Parse is ParseLines over ToLines, with no more records than non-empty lines (also Commands/CommandsParser.cs:7-12) |
| Parser.RecordsAppend | AssemblerInterpreter/Instructions/CodeParser.cs:21-27 | the records of consecutive lines are the records of the first lines followed by those of the rest: output order follows line order |
| Parser.RecordsPrefix | AssemblerInterpreter/Commands/CommandsParser.cs:18-24 | one more line appends that line's record, if any, to the records so far |
| Parser.BlankOrCommentLine | AssemblerInterpreter/Commands/CommandsParser.cs:99-110 | a white-space-only line, or one whose first non-blank character is ';', yields no record in either parser |
| Parser.LineDialectsAgree | AssemblerInterpreter/Instructions/CodeParser.cs:32-115 | on one line CodeParser's record is CommandsParser's record normalised by the Instruction constructor |
| Parser.DialectsAgree | AssemblerInterpreter/Instructions/CodeParser.cs:17-30 | on any list of lines CodeParser's records are CommandsParser's records, each normalised |
| Parser.ParseDialectsAgree | AssemblerInterpreter/Instructions/CodeParser.cs:7-15 | CodeParser.Parse gives CommandsParser.Parse's records, each normalised as an Instruction |
| Parser.Normalised | AssemblerInterpreter/Instructions/Instruction.cs:11-18 | normalising keeps the number of records |
| Parser.NormalisedAppend | AssemblerInterpreter/Instructions/Instruction.cs:11-18 | normalising distributes over appending one record list, of any length, to another |
| Parser.RenderAll | AssemblerInterpreter/Commands/CommandsParser.cs:29-105 | one source line per record, in order, each in the "name p1,p2,..." or "name:" spelling the tokenizer reads back; this spelling is the model's own and is not Command.ToString, which joins parameters with spaces |
| Parser.RenderedLineParses | AssemblerInterpreter/Commands/CommandsParser.cs:29-105 | every well-formed record's line yields exactly that record, normalised for CodeParser |
| Parser.ParseSourceRoundTrip | AssemblerInterpreter/Commands/CommandsParser.cs:7-12 | parsing the source text of well-formed records gives them back: exactly for CommandsParser, normalised for CodeParser |
| Parser.RecordsOfRendered | AssemblerInterpreter/Instructions/CodeParser.cs:17-30 | the records of the rendered lines are the records rendered |
| Resolver.AddressOpIsNoLabel | AssemblerInterpreter/Commands/X86Commands.cs:122-195 | no address-requiring mnemonic is a label name |
| Resolver.NonLabels | AssemblerInterpreter/Compilers/DefaultCompiler.cs:61 | the kept records are no more than the input and none is a label |
| Resolver.NonLabelsLength | AssemblerInterpreter/Compilers/DefaultCompiler.cs:45-68 | the records left number the input's minus its labels |
| Resolver.FirstMatch | AssemblerInterpreter/Compilers/DefaultCompiler.cs:45-59 | the first label before p that the record's first parameter names, ignoring case; no earlier label matches, and None means none matches |
| Resolver.Retarget | AssemblerInterpreter/Compilers/DefaultCompiler.cs:55 | only Parameters[0] changes, to the decimal address; the name and the other parameters are kept |
| Resolver.ResolveUpTo | AssemblerInterpreter/Compilers/DefaultCompiler.cs:49-59 | a resolved record keeps its name and every parameter but the first; records outside the address set and records no label matches are unchanged |
| Resolver.ResolveEach | AssemblerInterpreter/Compilers/DefaultCompiler.cs:45-68 | each record resolved on its own, in order |
| Resolver.ResolvedShape | AssemblerInterpreter/Compilers/DefaultCompiler.cs:45-70 | the result has one record per non-label of the input, in order, none of them a label; only the first parameter of address-requiring records can change |
| Resolver.CompileSpec | AssemblerInterpreter/Compilers/DefaultCompiler.cs:19-25 | with no label the input is returned unchanged; a result has no label and is as long as the input minus its labels; it fails exactly when a label exists and an address record has no parameter |
| Resolver.NoLabelCount | AssemblerInterpreter/Compilers/DefaultCompiler.cs:21-22 | a list without labels has no labels to count |
| Resolver.AddressIndexes | AssemblerInterpreter/Compilers/DefaultCompiler.cs:32-41 | requireAddressIndexes is ascending, in range, and holds exactly the positions of the address-requiring records |
| Resolver.FindLabel | AssemblerInterpreter/Compilers/DefaultCompiler.cs:45 | FindIndex(start, Label) is the first label at or after start, or -1 when there is none |
| Resolver.Shifted | AssemblerInterpreter/Compilers/DefaultCompiler.cs:63-67 | the indexes at or behind the deleted label move down by one; the others stay |
| Resolver.ResolveLabel | AssemblerInterpreter/Compilers/DefaultCompiler.cs:49-59 | the inner loop from the end of the watch list: it fails exactly when a watched record has no parameter; otherwise it rewrites exactly the watched records that name the label and unwatches them |
| Resolver.RewriteFrom | AssemblerInterpreter/Compilers/DefaultCompiler.cs:49-59 | the records once the watched positions from i on have been processed |
| Resolver.WatchStep | AssemblerInterpreter/Compilers/DefaultCompiler.cs:51-58 | processing watch[i] meets an untouched record, and rewrites and unwatches it exactly when it names the label |
| Resolver.ShiftDown | AssemblerInterpreter/Compilers/DefaultCompiler.cs:63-67 | the decrement loop computes the shifted watch list |
| Resolver.RemoveLabels | AssemblerInterpreter/Compilers/DefaultCompiler.cs:27-71 | the in-place while loop returns the resolved program, or throws IndexOutOfRange exactly when a label exists and an address record has no parameter |
| Resolver.ProcessLabel | AssemblerInterpreter/Compilers/DefaultCompiler.cs:47-67 | one pass of the outer loop keeps the loop invariant, or fails only when the input has a label and an address record without parameters |
| Resolver.Compile | AssemblerInterpreter/Compilers/DefaultCompiler.cs:19-25 | Compile returns its input unchanged when no record is a label, and RemoveLabels' result otherwise |
| Resolver.Translate | AssemblerInterpreter/Translators/Assembler.cs:16-70 | Translate, with ReplaceLabelsWithAddresses, computes the same result over Instructions |
| Resolver.NonLabelsAppend | AssemblerInterpreter/Compilers/DefaultCompiler.cs:61 | deleting labels from consecutive lists is deleting them from each, so relative order is kept |
| Resolver.FirstMatchPlain | AssemblerInterpreter/Compilers/DefaultCompiler.cs:45 | a stretch without labels adds no match |
| Resolver.InvInit | AssemblerInterpreter/Compilers/DefaultCompiler.cs:29-43 | the loop invariant holds before the first label |
| Resolver.InvAdvance | AssemblerInterpreter/Compilers/DefaultCompiler.cs:45 | FindIndex skips non-labels without changing any record or the watch list, and the label it finds is the next label of the input |
| Resolver.InvStep | AssemblerInterpreter/Compilers/DefaultCompiler.cs:45-67 | one pass (rewrite, RemoveAt, decrement) keeps the invariant: every watched index is the current position of a record no label has matched yet |
| Resolver.InvFault | AssemblerInterpreter/Compilers/DefaultCompiler.cs:51-53 | a failing inner loop means the input has a label and an address record without parameters |
| Resolver.UnmatchedIncreasing | AssemblerInterpreter/Compilers/DefaultCompiler.cs:57 | removing matched entries keeps the watch list ascending |
| Resolver.ShiftedMembers | AssemblerInterpreter/Compilers/DefaultCompiler.cs:63-67 | after the decrement an index is watched exactly when the record now at it was watched before the deletion; the list stays ascending |
| Resolver.InvLabel | AssemblerInterpreter/Compilers/DefaultCompiler.cs:47-67 | resolving, then deleting, the label at commands[p] keeps the invariant at p + 1 |
| Resolver.LabelRemove | AssemblerInterpreter/Compilers/DefaultCompiler.cs:61-67 | RemoveAt on the list and the decrement of the watch list keep every record and every pending position in step |
| Resolver.InvExit | AssemblerInterpreter/Compilers/DefaultCompiler.cs:45-70 | when FindIndex finds no label the list is the resolved program |
| Resolver.ResolvePlain | AssemblerInterpreter/Compilers/DefaultCompiler.cs:45 | resolution does not change over a stretch without labels |
| Resolver.CompileIdempotent | AssemblerInterpreter/Compilers/DefaultCompiler.cs:19-25 | compiling a compiled program changes nothing |
| Resolver.LabelAddressIsNextRecord | AssemblerInterpreter/Compilers/DefaultCompiler.cs:55-61 | a label's address, the number of non-labels before it, is the final index of the first non-label behind it, or the program's length when only labels follow |
| Resolver.ResolvedTarget | AssemblerInterpreter/Compilers/DefaultCompiler.cs:53-55 | a resolved jump's first parameter is the decimal address of the first label it names (ignoring case); it reads back as that address, which is at most the program's length: equal to it when only labels follow the label |
| Machine.Mov | AssemblerInterpreter/Commands/X86Commands.cs:52-59 | mov returns normally or throws a fault, never the unknown-instruction fault and never end's cancellation |
| Machine.Increment | AssemblerInterpreter/Commands/X86Commands.cs:61-75 | ++ or -- returns normally or throws a fault, never the unknown-instruction fault and never end's cancellation |
| Machine.Inc | AssemblerInterpreter/Commands/X86Commands.cs:61-67 | inc returns normally or throws a fault, never the unknown-instruction fault and never end's cancellation |
| Machine.Dec | AssemblerInterpreter/Commands/X86Commands.cs:69-75 | dec returns normally or throws a fault, never the unknown-instruction fault and never end's cancellation |
| Machine.Combine | AssemblerInterpreter/Commands/X86Commands.cs:90-120 | add, sub, mul and div each returns normally or throws a fault, never the unknown-instruction fault and never end's cancellation |
| Machine.Jnz | AssemblerInterpreter/Commands/X86Commands.cs:77-88 | jnz returns normally or throws a fault, never the unknown-instruction fault and never end's cancellation |
| Machine.Jmp | AssemblerInterpreter/Commands/X86Commands.cs:122-129 | jmp returns normally or throws a fault, never the unknown-instruction fault and never end's cancellation |
| Machine.Cmp | AssemblerInterpreter/Commands/X86Commands.cs:131-138 | cmp returns normally or throws a fault, never the unknown-instruction fault and never end's cancellation |
| Machine.Branch | AssemblerInterpreter/Commands/X86Commands.cs:140-186 | each conditional jump returns normally or throws a fault, never the unknown-instruction fault and never end's cancellation |
| Machine.Call | AssemblerInterpreter/Commands/X86Commands.cs:188-195 | call returns normally or throws a fault, never the unknown-instruction fault and never end's cancellation |
| Machine.Ret | AssemblerInterpreter/Commands/X86Commands.cs:197-199 | ret returns normally or throws a fault, never the unknown-instruction fault and never end's cancellation |
| Machine.Message | AssemblerInterpreter/Commands/X86Commands.cs:204-221 | building the message can fail only by a missing register |
| Machine.Msg | AssemblerInterpreter/Commands/X86Commands.cs:201-224 | msg returns normally or throws a fault, never the unknown-instruction fault and never end's cancellation |
| Machine.Param | AssemblerInterpreter/Commands/X86Commands.cs:55-56 | @params[i] is the i-th parameter, and throws IndexOutOfRange past the end |
| Machine.Register | AssemblerInterpreter/Commands/X86Commands.cs:49 | Registers[name] is the register's value, and throws for a missing key |
| Machine.ParseInt | AssemblerInterpreter/Commands/X86Commands.cs:84 | int.Parse succeeds exactly when TryParse does, with the same value |
| Machine.GoToLands | AssemblerInterpreter/Processors/X86Processor.cs:23-28 | after GoTo(t) and the loop's ++address the pointer is t; nothing else changes |
| Machine.RelativeJumpLands | AssemblerInterpreter/Processors/X86Processor.cs:16-21 | after RelativeJump(o) and the loop's ++address the pointer has moved by o |
| Machine.Apply | AssemblerInterpreter/Commands/X86Commands.cs:90-120 | the only arithmetic faults are division by zero and overflow |
| Machine.Perform | AssemblerInterpreter/Commands/X86Commands.cs:20-30 | no handler reports an unknown instruction, and end is the only one that halts |
| Machine.Execute | AssemblerInterpreter/Processors/X86Processor.cs:58-63 | Run(Command) fails with an unknown instruction exactly when the name is not a key of the table, and halts exactly for end |
| Machine.RunProgram | AssemblerInterpreter/Processors/X86Processor.cs:30-56 | all but Data is reset; end and falling through return normally, keeping Data after end and nulling it after falling through; a fault is rethrown with Data as the faulting handler left it; running out of fuel is reported as such |
| Behaviour.ReadValueOfDecimal | AssemblerInterpreter/Commands/X86Commands.cs:44-50 | a number literal reads as its value whatever the registers hold |
| Behaviour.ReadValueOfName | AssemblerInterpreter/Instructions/X86Instructions.cs:37-43 | a token that starts with a letter reads the register of that name, and fails exactly when the register is absent |
| Behaviour.TruncDivRemainder | AssemblerInterpreter/Commands/X86Commands.cs:119 | C# division truncates toward zero: the remainder is smaller than the divisor in magnitude and has the dividend's sign |
| Behaviour.TruncDivInRange | AssemblerInterpreter/Commands/X86Commands.cs:119 | the quotient of 32-bit ints is a 32-bit int, except for int.MinValue / -1 |
| Behaviour.ApplyInRange | AssemblerInterpreter/Commands/X86Commands.cs:90-120 | every arithmetic result on 32-bit ints is a 32-bit int |
| Behaviour.QuotientFaults | AssemblerInterpreter/Instructions/X86Instructions.cs:131-137 | division fails exactly on a zero divisor and on int.MinValue / -1, and otherwise gives the truncated quotient |
| Behaviour.LookupKey | AssemblerInterpreter/Commands/X86Commands.cs:20-30 | every handler is found under its lower-cased method name |
| Behaviour.KeyOfLookup | AssemblerInterpreter/Processors/X86Processor.cs:60 | the table has no other keys |
| Behaviour.ReadValueInRange | AssemblerInterpreter/Commands/X86Commands.cs:44-50 | with every register 32-bit, an operand that reads successfully, literal or register, is 32-bit |
| Behaviour.MovKeepsValid | AssemblerInterpreter/Instructions/X86Instructions.cs:69-76 | mov keeps every value 32-bit |
| Behaviour.JnzKeepsValid | AssemblerInterpreter/Instructions/X86Instructions.cs:94-105 | jnz keeps every value 32-bit |
| Behaviour.CmpKeepsValid | AssemblerInterpreter/Instructions/X86Instructions.cs:148-155 | cmp keeps the flag a CompareTo result |
| Behaviour.CallKeepsValid | AssemblerInterpreter/Instructions/X86Instructions.cs:205-212 | call keeps every value 32-bit |
| Behaviour.CombineKeepsValid | AssemblerInterpreter/Instructions/X86Instructions.cs:107-137 | add, sub, mul and div keep every register 32-bit |
| Behaviour.ArithmeticKeepsValid | AssemblerInterpreter/Commands/X86Commands.cs:52-120 | mov, inc, dec, add, sub, mul and div keep the registers 32-bit, and leave the stack, the pointer and the flag valid |
| Behaviour.ControlKeepsValid | AssemblerInterpreter/Commands/X86Commands.cs:77-228 | the jumps, cmp, call, ret, msg and end keep the registers, the stack and the pointer 32-bit and the flag in -1..1 |
| Behaviour.PerformKeepsValid | AssemblerInterpreter/Commands/X86Commands.cs:52-228 | every handler keeps the registers, the stack and the pointer 32-bit and the flag in -1..1 |
| Behaviour.ExecuteKeepsValid | AssemblerInterpreter/Processors/X86Processor.cs:58-63 | Run(Command) keeps the machine valid, also in the state a fault leaves |
| Behaviour.RegisterFrame | AssemblerInterpreter/Commands/X86Commands.cs:52-120 | mov, inc, dec, add, sub, mul and div change register params[0] and nothing else; only mov may create it |
| Behaviour.MovFrame | AssemblerInterpreter/Commands/X86Commands.cs:52-59 | a mov that succeeds writes register params[0], which it may create, and changes nothing else |
| Behaviour.IncrementFrame | AssemblerInterpreter/Commands/X86Commands.cs:61-75 | an inc or dec that succeeds rewrites register params[0], which must exist, and changes nothing else |
| Behaviour.CombineFrame | AssemblerInterpreter/Commands/X86Commands.cs:90-120 | add, sub, mul or div that succeeds rewrites register params[0], which must exist, and changes nothing else |
| Behaviour.MovStores | AssemblerInterpreter/Commands/X86Commands.cs:52-59 | mov stores its operand's value in register params[0], which need not exist |
| Behaviour.IncDecValue | AssemblerInterpreter/Commands/X86Commands.cs:61-75 | inc and dec succeed exactly when the register exists, and move it by one with wrap-around; a missing register is the fault |
| Behaviour.ModularArithmetic | AssemblerInterpreter/Commands/X86Commands.cs:90-112 | add, sub and mul store the exact result modulo 2^32 as a 32-bit int, and the exact result when it fits |
| Behaviour.RegisterReadFirst | AssemblerInterpreter/Commands/X86Commands.cs:93-95 | the compound assignment reads the register first: a missing register is the fault whatever the operand |
| Behaviour.DivTruncates | AssemblerInterpreter/Commands/X86Commands.cs:114-120 | div fails exactly on 0 and on int.MinValue / -1, and otherwise stores the quotient rounded toward zero |
| Behaviour.CmpOrders | AssemblerInterpreter/Commands/X86Commands.cs:131-138 | cmp stores -1, 0 or 1 as x is below, equal to or above y, and changes nothing else |
| Behaviour.BranchAfterCmp | AssemblerInterpreter/Commands/X86Commands.cs:140-186 | after cmp x, y each conditional jump's test holds exactly when its relation between x and y holds |
| Behaviour.ConditionalJump | AssemblerInterpreter/Instructions/X86Instructions.cs:157-203 | a conditional jump is jmp when its test holds and changes nothing otherwise |
| Behaviour.QuotedPiece | AssemblerInterpreter/Instructions/X86Instructions.cs:20-28 | a quoted parameter gives its inner text; one with only an opening quote gives nothing |
| Behaviour.ThenAssoc | AssemblerInterpreter/Instructions/X86Instructions.cs:218-229 | appending message parts is associative, and the first fault wins |
| Behaviour.MessageSnoc | AssemblerInterpreter/Instructions/X86Instructions.cs:223-226 | one more parameter appends its piece to the message |
| Behaviour.MessageAppend | AssemblerInterpreter/Instructions/X86Instructions.cs:223-226 | the message of two parameter lists is their messages concatenated, or the first list's fault |
| Behaviour.MessagePrefix | AssemblerInterpreter/Instructions/X86Instructions.cs:223-226 | the message of the first k + 1 parameters is that of the first k followed by the last piece |
| Behaviour.MessageFailsFrom | AssemblerInterpreter/Instructions/X86Instructions.cs:223-226 | a fault in the message of a prefix is the fault of the whole message |
| Behaviour.MessageFailsFirst | AssemblerInterpreter/Commands/X86Commands.cs:204-221 | once the message of the first parameters fails, adding parameters keeps that fault |
| Behaviour.MessageOfTrimmed | AssemblerInterpreter/Commands/X86Commands.cs:206 | on trimmed parameters the trimming Msg and the non-trimming Msg build the same text |
| Behaviour.HandlerSetsAgree | AssemblerInterpreter/Commands/X86Commands.cs:201-224 | the two handler classes execute an instruction with trimmed parameters identically |
| Behaviour.HandlerSetsAgreeOnInstructions | AssemblerInterpreter/Instructions/Instruction.cs:11-18 | in particular they agree on every record the Instruction constructor builds |
| Behaviour.RunFromStep | AssemblerInterpreter/Processors/X86Processor.cs:34-35 | one pass of the loop: a pass that goes on leaves the rest of the run to the state it reached, with one pass less; a pass that stops gives the run's verdict |
| Behaviour.RunFromPastEnd | AssemblerInterpreter/Processors/X86Processor.cs:34 | a pointer at or past the end fails the loop test, so the run falls through in that state |
| Behaviour.StepGoes | AssemblerInterpreter/Processors/X86Processor.cs:34-35 | a handler that returns normally is followed by ++address |
| Behaviour.StepFails | AssemblerInterpreter/Processors/X86Processor.cs:39-46 | a handler that throws stops the loop with that fault |
| Behaviour.StepEnds | AssemblerInterpreter/Processors/X86Processor.cs:39-42 | end stops the loop with the state unchanged |
| Behaviour.PerformKeepsPointer | AssemblerInterpreter/Commands/X86Commands.cs:52-138 | the handlers other than the jumps leave the pointer and the stack alone |
| Behaviour.ContinuesAtNext | AssemblerInterpreter/Processors/X86Processor.cs:34-35 | an instruction that does not move the pointer is followed by the one at address + 1 |
| Behaviour.JumpContinuesAt | AssemblerInterpreter/Processors/X86Processor.cs:23-28 | jmp, or a conditional jump whose test holds, continues at its target with nothing else changed |
| Behaviour.BranchNotTaken | AssemblerInterpreter/Commands/X86Commands.cs:140-186 | a conditional jump whose test fails goes on at the next instruction, even without parameters |
| Behaviour.JnzEffect | AssemblerInterpreter/Commands/X86Commands.cs:77-88 | jnz does nothing on zero, jumps by int.Parse(params[1]) otherwise, and fails when that is not a number |
| Behaviour.JnzExecutes | AssemblerInterpreter/Processors/X86Processor.cs:58-63 | an instruction named jnz runs the jnz handler |
| Behaviour.JnzNotTaken | AssemblerInterpreter/Commands/X86Commands.cs:77-88 | jnz on zero goes on at the next instruction |
| Behaviour.JnzTaken | AssemblerInterpreter/Processors/X86Processor.cs:16-21 | jnz on a non-zero value with offset o continues at address + o |
| Behaviour.JnzBadOffset | AssemblerInterpreter/Instructions/X86Instructions.cs:94-105 | a non-number offset stops the run with a format fault, even when a register of that name exists |
| Behaviour.JmpGoes | AssemblerInterpreter/Commands/X86Commands.cs:122-129 | jmp with a readable target continues at that target, through GoTo |
| Behaviour.CallJumps | AssemblerInterpreter/Commands/X86Commands.cs:188-195 | executing call pushes the return address and jumps to the target it reads |
| Behaviour.CallContinuesAt | AssemblerInterpreter/Commands/X86Commands.cs:188-195 | call pushes the address after it and continues at its target |
| Behaviour.RetContinuesAt | AssemblerInterpreter/Commands/X86Commands.cs:197-199 | ret pops the top return address and continues there, and fails on an empty stack |
| Behaviour.CallThenRet | AssemblerInterpreter/Commands/X86Commands.cs:188-199 | a ret reached with the stack a call left continues after that call, with the stack as before the call |
| Behaviour.EndKeepsData | AssemblerInterpreter/Processors/X86Processor.cs:39-42 | end stops the loop at once and the run returns normally with Data as it was |
| Behaviour.FallThroughClearsData | AssemblerInterpreter/Processors/X86Processor.cs:34-37 | running off the end returns normally with Data null |
| Behaviour.IterateMoreFuel | AssemblerInterpreter/Processors/X86Processor.cs:34-35 | a verdict reached within some fuel is reached with any more fuel |
| Behaviour.IterateInvariant | AssemblerInterpreter/Processors/X86Processor.cs:34-35 | a property every pass keeps holds of the state the loop stops in |
| Behaviour.MoreFuel | AssemblerInterpreter/Processors/X86Processor.cs:34-35 | the fuel bound never changes a verdict the loop reaches |
| Behaviour.StepEndsOnlyAtEnd | AssemblerInterpreter/Processors/X86Processor.cs:39-42 | only an end instruction stops a pass by OperationCanceledException |
| Behaviour.NoEndNeverEnds | AssemblerInterpreter/Processors/X86Processor.cs:34-42 | a program without end never stops by end |
| Behaviour.NoEndNoOutput | AssemblerInterpreter/Processors/X86Processor.cs:34-37 | so a normal return of such a program leaves Data null: no output without end |
| Behaviour.RunResets | AssemblerInterpreter/Processors/X86Processor.cs:47-53 | whatever the outcome the pointer, the flag, the registers and the stack are reset |
| Behaviour.StepKeepsValid | AssemblerInterpreter/Processors/X86Processor.cs:34-35 | every pass keeps the machine valid |
| Behaviour.RunKeepsValid | AssemblerInterpreter/Processors/X86Processor.cs:30-46 | the state the loop stops in is valid when the start state is |
| Processor.X86Processor.constructor | AssemblerInterpreter/Processors/X86Processor.cs:7-14 | a new processor is empty, with the pointer at 0, and uses the X86Commands handlers |
| Processor.X86Processor.RelativeJump | AssemblerInterpreter/Processors/X86Processor.cs:16-21 | address += offset, then --address, with wrap-around |
| Processor.X86Processor.GoTo | AssemblerInterpreter/Processors/X86Processor.cs:23-28 | address = target - 1, with wrap-around |
| Processor.X86Processor.Execute | AssemblerInterpreter/Processors/X86Processor.cs:58-63 | Run(Command) changes the processor as Machine.Execute says, or throws its fault with the state the handler left |
| Processor.X86Processor.Pass | AssemblerInterpreter/Processors/X86Processor.cs:34-35 | one pass leaves the verdict of the rest of the loop unchanged and uses one unit of fuel when it returns normally |
| Processor.X86Processor.Loop | AssemblerInterpreter/Processors/X86Processor.cs:34-35 | the for loop stops with the verdict Machine.RunFrom gives |
| Processor.X86Processor.Run | AssemblerInterpreter/Processors/X86Processor.cs:30-56 | Run(Command[]) returns, rethrows and resets exactly as Machine.RunProgram says |
| Processor.PassContinues | AssemblerInterpreter/Processors/X86Processor.cs:34-46 | a normal return, end or a fault of the handler continues, ends or stops the loop as Step says |
| Processor.RunFromNegative | AssemblerInterpreter/Processors/X86Processor.cs:34-35 | a negative pointer fails at the array access |
| Processor.Handlers.Mov | AssemblerInterpreter/Commands/X86Commands.cs:52-59 | the method does what Machine.Mov says |
| Processor.Handlers.Increment | AssemblerInterpreter/Commands/X86Commands.cs:61-75 | ++ or -- on an existing register, as Machine.Increment says |
| Processor.Handlers.Inc | AssemblerInterpreter/Commands/X86Commands.cs:61-67 | the method does what Machine.Inc says |
| Processor.Handlers.Dec | AssemblerInterpreter/Commands/X86Commands.cs:69-75 | the method does what Machine.Dec says |
| Processor.Handlers.Jnz | AssemblerInterpreter/Commands/X86Commands.cs:77-88 | the method does what Machine.Jnz says |
| Processor.Handlers.Compound | AssemblerInterpreter/Commands/X86Commands.cs:90-120 | add, sub, mul and div do what Machine.Combine says |
| Processor.Handlers.Jmp | AssemblerInterpreter/Commands/X86Commands.cs:122-129 | the method does what Machine.Jmp says |
| Processor.Handlers.Cmp | AssemblerInterpreter/Commands/X86Commands.cs:131-138 | the method does what Machine.Cmp says |
| Processor.Handlers.Branch | AssemblerInterpreter/Commands/X86Commands.cs:140-186 | jne, je, jge, jg, jle and jl do what Machine.Branch says |
| Processor.Handlers.Call | AssemblerInterpreter/Commands/X86Commands.cs:188-195 | the push happens first and stays when the jump fails, as Machine.Call and FaultState say |
| Processor.Handlers.Ret | AssemblerInterpreter/Commands/X86Commands.cs:197-199 | the method does what Machine.Ret says |
| Processor.Handlers.AddToMessage | AssemblerInterpreter/Instructions/X86Instructions.cs:20-35 | the message grows by the parameter's piece, or the register lookup throws |
| Processor.Handlers.Msg | AssemblerInterpreter/Commands/X86Commands.cs:201-224 | the loop builds the message piece by piece and stores it in Data, as Machine.Msg says (also Instructions/X86Instructions.cs:218-229) |
| Processor.Handlers.End | AssemblerInterpreter/Commands/X86Commands.cs:226-228 | end changes nothing and throws OperationCanceledException |
| Processor.Handlers.Perform | AssemblerInterpreter/Commands/X86Commands.cs:20-30 | the handler the table holds for the mnemonic does what Machine.Perform says |

## Left out

- The reflection in FillSupportedOperations and FillRequireAddressOperations, and `Common/DelegateBuilder.cs`, are not part of this model. The handler table is written out as `Machine.Lookup`/`Machine.HandlerOf`. The address-requiring set is the constant `Resolver.RequireAddress`: jmp, jne, je, jge, jg, jle, jl and call.
- `Program.cs` is not part of this model: it lists files, reads them and writes to the console. So are the interfaces `IInstructions.cs` and `IProcessor.cs`, which have no behaviour.
- Culture-sensitive operations (Trim, ToLower, int.TryParse, CurrentCultureIgnoreCase) are modelled on ASCII. White space is space, tab, line feed, vertical tab, form feed and carriage return.
- Non-termination: a run is bounded by fuel, a count of loop passes. A run that uses up its fuel reports `OutOfFuel` and says nothing about the program. `Behaviour.MoreFuel` shows that more fuel never changes a verdict.
- The X86Instructions class is never wired into a processor, because `X86Processor.Supported` is always X86Commands. The model runs either class through `Machine.HandlerSet`.
- The `Command`/`Instruction` records are values (`Ops.Op`). The resolver writes `Parameters[0]` through a reference into the list. The model writes the new record into the list instead, so aliasing between the input list and the returned list is not modelled. `Compile` returns the caller's own list when there is no label, and `Translate` returns a copy; both are the same value here.
- `Processor.Handlers.Msg`, `Processor.X86Processor.Run` and the other state-changing methods are stated against the `Machine` functions. What they promise is proved about those functions in `Behaviour`.
- Machine.ReadValue (Commands/X86Commands.cs:44-50) has no contract of its own. `Behaviour.ReadValueOfDecimal` and `Behaviour.ReadValueOfName` state what it does.
- Text.Trim: its own contract gives only the shape of the result. `Text.TrimStrips` states that only white space at the ends is removed.
- Machine.Mov: its own contract says only that it returns normally or throws an ordinary fault. `Behaviour.MovStores`, `Behaviour.RegisterFrame` and `Behaviour.MovKeepsValid` state what it stores.
- Machine.Increment: its own contract says only that it returns normally or throws an ordinary fault. `Behaviour.IncDecValue` and `Behaviour.IncrementKeepsValid` state what it does.
- Machine.Inc: as for Increment. `Behaviour.IncDecValue` states what it does.
- Machine.Dec: as for Increment. `Behaviour.IncDecValue` states what it does.
- Machine.Combine: its own contract says only that it returns normally or throws an ordinary fault. `Behaviour.ModularArithmetic`, `Behaviour.DivTruncates`, `Behaviour.RegisterReadFirst` and `Behaviour.CombineKeepsValid` state what it does.
- Machine.Jnz: its own contract says only that it returns normally or throws an ordinary fault. `Behaviour.JnzEffect`, `Behaviour.JnzTaken`, `Behaviour.JnzNotTaken` and `Behaviour.JnzBadOffset` state what it does.
- Machine.Jmp: its own contract says only that it returns normally or throws an ordinary fault. `Behaviour.JumpContinuesAt` and `Behaviour.JmpKeepsValid` state what it does.
- Machine.Cmp: its own contract says only that it returns normally or throws an ordinary fault. `Behaviour.CmpOrders` states what it stores.
- Machine.Branch: its own contract says only that it returns normally or throws an ordinary fault. `Behaviour.ConditionalJump`, `Behaviour.BranchAfterCmp`, `Behaviour.BranchNotTaken` and `Behaviour.JumpContinuesAt` state what it does.
- Machine.Call: its own contract says only that it returns normally or throws an ordinary fault. `Behaviour.CallContinuesAt` and `Behaviour.CallThenRet` state what it does.
- Machine.Ret: its own contract says only that it returns normally or throws an ordinary fault. `Behaviour.RetContinuesAt` and `Behaviour.CallThenRet` state what it does.
- Machine.Message: its own contract says only that a failure is a missing register. `Behaviour.QuotedPiece`, `Behaviour.MessageSnoc`, `Behaviour.MessageAppend` and `Behaviour.MessageFailsFrom` state the text it builds.
- Machine.Msg: its own contract says only that it returns normally or throws an ordinary fault. `Behaviour.MsgKeepsValid`, `Behaviour.HandlerSetsAgree` and `Processor.Handlers.Msg` state what it stores.
- Machine.Holds (Commands/X86Commands.cs:140-186) has no contract of its own. `Behaviour.ConditionalJump` and `Behaviour.BranchAfterCmp` state it.
- Machine.Push (Commands/X86Commands.cs:192) has no contract of its own. `Behaviour.CallContinuesAt` and `Processor.Handlers.Call` state it.
- Machine.Piece (Commands/X86Commands.cs:208-220, Instructions/X86Instructions.cs:20-35) has no contract of its own. `Behaviour.QuotedPiece` and `Processor.Handlers.AddToMessage` state it.
- Machine.Shape (Commands/X86Commands.cs:206) has no contract of its own. `Behaviour.MessageOfTrimmed` states it.
- Machine.Lookup (Commands/X86Commands.cs:20-30, Processors/X86Processor.cs:60) has no contract of its own. `Behaviour.LookupKey`, `Behaviour.KeyOfLookup` and `Machine.Execute` state it.
- Machine.HandlerOf (Commands/X86Commands.cs:20-30) has no contract of its own. `Machine.Perform`, `Behaviour.HandlerSetsAgree` and `Processor.Handlers.Perform` state it.
- Machine.FaultState (Commands/X86Commands.cs:188-195, Processors/X86Processor.cs:39-46) has no contract of its own. `Behaviour.StepFails` and `Processor.Handlers.Call` state it.
- Machine.Iterate (Processors/X86Processor.cs:34-35) has no contract of its own. `Behaviour.IterateMoreFuel` and `Behaviour.IterateInvariant` state it.
- Machine.Step (Processors/X86Processor.cs:34-46) has no contract of its own. `Behaviour.RunFromStep`, `Behaviour.RunFromPastEnd`, `Behaviour.StepGoes`, `Behaviour.StepFails`, `Behaviour.StepEnds` and `Behaviour.ContinuesAtNext` state it.
- Machine.Conclude (Processors/X86Processor.cs:35-46) has no contract of its own. `Behaviour.StepGoes`, `Behaviour.StepFails` and `Behaviour.StepEnds` state it.
- Machine.RunFrom (Processors/X86Processor.cs:34-35) has no contract of its own. `Behaviour.RunFromStep`, `Behaviour.MoreFuel` and `Processor.X86Processor.Loop` state it.
- Machine.Reset (Processors/X86Processor.cs:47-53) has no contract of its own. `Behaviour.RunResets` and `Machine.RunProgram` state it.
- Tokenizer.StepChar, Tokenizer.ScanFrom and Tokenizer.LineFields (Commands/CommandsParser.cs:29-105) have no contract of their own. `Tokenizer.SplitFields` proves them equal to the loop. `Tokenizer.SpaceSkipped`, `Tokenizer.EmptyFieldKept`, `Tokenizer.QuotedSemicolonDropped`, `Tokenizer.NameRun`, `Tokenizer.AppendRun`, `Tokenizer.CommentEndsLine` and `Tokenizer.LabelLine` state what they do.
- Ops.IsLabel (Commands/Command.cs:8-9) has no contract of its own. `Ops.LabelName`, `Tokenizer.ScanKeepsLabelsAlone` and `Resolver.AddressOpIsNoLabel` state it.
- Ops.ToString (Commands/Command.cs:24-25) has no contract of its own. `Ops.ToStringNoParams` and `Ops.ToStringWithParams` state it.
- Text.EqualsIgnoreCase (Compilers/DefaultCompiler.cs:53) has no contract of its own. `Resolver.FirstMatch` and `Resolver.ResolvedTarget` state how the resolver uses it.
- Text.Join (Commands/Command.cs:25) has no contract of its own. `Text.SplitJoinLines`, `Tokenizer.NoLineFeedInJoin` and `Ops.ToStringWithParams` state it.
- Resolver.Resolved (Compilers/DefaultCompiler.cs:27-71) has no contract of its own. `Resolver.ResolvedShape`, `Resolver.ResolvedTarget`, `Resolver.LabelAddressIsNextRecord` and `Resolver.RemoveLabels` state it.
- Resolver.RemoveLabelsSpec (Compilers/DefaultCompiler.cs:27-71) has no contract of its own. `Resolver.CompileSpec` and `Resolver.RemoveLabels` state it.
- Resolver.RequireAddress and Resolver.NeedsAddress (Commands/X86Commands.cs:32-42, Compilers/DefaultCompiler.cs:30-41) have no contract of their own. `Resolver.AddressOpIsNoLabel` and `Resolver.AddressIndexes` state them.
- Resolver.Unmatched (Compilers/DefaultCompiler.cs:57) has no contract of its own. `Resolver.UnmatchedIncreasing` and `Resolver.ShiftedMembers` state it.
- The stack is a sequence whose top is its last element, and the register dictionary is a map. Their .NET capacity growth and iteration order play no part.
