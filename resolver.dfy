/**
 * Label resolution: DefaultCompiler.Compile/RemoveLabels (over Commands) and
 * Assembler.Translate/ReplaceLabelsWithAddresses (over Instructions) run the same algorithm.
 * Label records are deleted left to right; before a label is deleted, every still-watched
 * address-requiring record whose first parameter names it (ignoring case) gets the label's
 * current index as its first parameter and leaves the watch list; after the deletion the
 * watched indexes behind the label move down by one.
 */
module Resolver {
  import opened Common
  import opened Text
  import opened Ops

  /** The mnemonics whose first parameter is an address (the attribute-marked handlers). */
  const RequireAddress: set<string> := {"jmp", "jne", "je", "jge", "jg", "jle", "jl", "call"}

  predicate NeedsAddress(op: Op) {
    op.name in RequireAddress
  }

  lemma AddressOpIsNoLabel(op: Op)
    ensures IsLabel(op) ==> !NeedsAddress(op)
  {
  }

  // ---------------------------------------------------------------- the specification

  /** The records that are not labels, in their order. */
  function NonLabels(s: seq<Op>): (r: seq<Op>)
    ensures |r| <= |s|
    ensures forall k :: 0 <= k < |r| ==> !IsLabel(r[k])
  {
    if s == [] then []
    else NonLabels(s[..|s| - 1]) + (if IsLabel(s[|s| - 1]) then [] else [s[|s| - 1]])
  }

  /** The number of labels; it is what the resolution removes. */
  function LabelCount(s: seq<Op>): nat {
    if s == [] then 0 else LabelCount(s[..|s| - 1]) + (if IsLabel(s[|s| - 1]) then 1 else 0)
  }

  lemma {:induction false} NonLabelsLength(s: seq<Op>)
    ensures |NonLabels(s)| == |s| - LabelCount(s)
  {
    if s != [] {
      NonLabelsLength(s[..|s| - 1]);
    }
  }

  predicate IsHit(op: Op, name: string) {
    |op.params| > 0 && EqualsIgnoreCase(op.params[0], name)
  }

  /** The record at i is a label that op's first parameter names. */
  predicate MatchAt(ops: seq<Op>, op: Op, i: int) {
    0 <= i < |ops| && IsLabel(ops[i]) && IsHit(op, LabelName(ops[i]))
  }

  /** The first label among ops[..p] that op's first parameter names. */
  function FirstMatch(ops: seq<Op>, op: Op, p: nat): (r: Option<nat>)
    requires p <= |ops|
    ensures r.Some? ==> r.value < p && MatchAt(ops, op, r.value)
    ensures r.Some? ==> forall j :: 0 <= j < r.value ==> !MatchAt(ops, op, j)
    ensures r.None? ==> forall j :: 0 <= j < p ==> !MatchAt(ops, op, j)
  {
    if p == 0 then None
    else match FirstMatch(ops, op, p - 1)
      case Some(i) => Some(i)
      case None => if MatchAt(ops, op, p - 1) then Some(p - 1) else None
  }

  /** The record with its first parameter replaced by the decimal address. */
  function Retarget(op: Op, address: int): (r: Op)
    requires |op.params| > 0
    ensures r.name == op.name && |r.params| == |op.params| && r.params[0] == Decimal(address)
    ensures forall j :: 1 <= j < |op.params| ==> r.params[j] == op.params[j]
  {
    op.(params := op.params[0 := Decimal(address)])
  }

  /**
   * op once the labels of ops[..p] have been processed: an address-requiring record named
   * by one of them points at the number of non-labels before the first such label.
   */
  function ResolveUpTo(ops: seq<Op>, op: Op, p: nat): (r: Op)
    requires p <= |ops|
    ensures r.name == op.name && |r.params| == |op.params|
    ensures forall j :: 1 <= j < |op.params| ==> r.params[j] == op.params[j]
    ensures !NeedsAddress(op) || FirstMatch(ops, op, p).None? ==> r == op
  {
    if !NeedsAddress(op) then op
    else match FirstMatch(ops, op, p)
      case Some(i) => Retarget(op, |NonLabels(ops[..i])|)
      case None => op
  }

  function ResolveEach(ops: seq<Op>, s: seq<Op>, p: nat): (r: seq<Op>)
    requires p <= |ops|
    ensures |r| == |s| && forall k :: 0 <= k < |s| ==> r[k] == ResolveUpTo(ops, s[k], p)
  {
    seq(|s|, k requires 0 <= k < |s| => ResolveUpTo(ops, s[k], p))
  }

  /**
   * The resolved program: the non-label records in order, each address-requiring one
   * pointing at the final index of its first matching label.
   */
  function Resolved(ops: seq<Op>): seq<Op> {
    ResolveEach(ops, NonLabels(ops), |ops|)
  }

  /**
   * The resolved program has one record per non-label of the input, in order, none of them
   * a label; each keeps its name and its parameters except the first, and only the
   * address-requiring records can have a new first parameter.
   */
  lemma ResolvedShape(ops: seq<Op>)
    ensures var r := Resolved(ops);
      && |r| == |ops| - LabelCount(ops) && |r| == |NonLabels(ops)|
      && (forall k :: 0 <= k < |r| ==> !IsLabel(r[k]))
      && (forall k :: 0 <= k < |r| ==>
            r[k].name == NonLabels(ops)[k].name && |r[k].params| == |NonLabels(ops)[k].params|)
      && (forall k, j :: 0 <= k < |r| && 1 <= j < |r[k].params| ==> r[k].params[j] == NonLabels(ops)[k].params[j])
      && (forall k :: 0 <= k < |r| && !NeedsAddress(NonLabels(ops)[k]) ==> r[k] == NonLabels(ops)[k])
  {
    NonLabelsLength(ops);
  }

  predicate HasLabel(ops: seq<Op>) {
    exists i :: 0 <= i < |ops| && IsLabel(ops[i])
  }

  /** An address-requiring record without parameters: reading its Parameters[0] throws. */
  predicate HasEmptyTarget(ops: seq<Op>) {
    exists i :: 0 <= i < |ops| && NeedsAddress(ops[i]) && ops[i].params == []
  }

  /** What RemoveLabels returns or throws. */
  function RemoveLabelsSpec(ops: seq<Op>): Result<seq<Op>> {
    if HasLabel(ops) && HasEmptyTarget(ops) then Err(IndexOutOfRange) else Ok(Resolved(ops))
  }

  /** What Compile (and Translate) return: the input itself when it holds no label. */
  function CompileSpec(ops: seq<Op>): (r: Result<seq<Op>>)
    ensures !HasLabel(ops) ==> r == Ok(ops)
    ensures r.Ok? ==> !HasLabel(r.value) && |r.value| == |ops| - LabelCount(ops)
    ensures r.Err? <==> HasLabel(ops) && HasEmptyTarget(ops)
  {
    if !HasLabel(ops) then
      NoLabelCount(ops);
      Ok(ops)
    else
      ResolvedShape(ops);
      RemoveLabelsSpec(ops)
  }

  lemma {:induction false} NoLabelCount(ops: seq<Op>)
    requires !HasLabel(ops)
    ensures LabelCount(ops) == 0
  {
    if ops != [] {
      var init := ops[..|ops| - 1];
      assert forall i :: 0 <= i < |init| ==> init[i] == ops[i];
      NoLabelCount(init);
    }
  }

  // ---------------------------------------------------------------- the source's helpers

  predicate Increasing(s: seq<int>) {
    forall a, b :: 0 <= a < b < |s| ==> s[a] < s[b]
  }

  /** requireAddressIndexes: the positions of the address-requiring records, ascending. */
  function AddressIndexes(ops: seq<Op>): (r: seq<int>)
    ensures Increasing(r)
    ensures forall j :: 0 <= j < |r| ==> 0 <= r[j] < |ops|
    ensures forall k :: 0 <= k < |ops| ==> (k in r <==> NeedsAddress(ops[k]))
  {
    if ops == [] then []
    else
      var init := AddressIndexes(ops[..|ops| - 1]);
      assert forall k :: 0 <= k < |ops| - 1 ==> (k in init <==> NeedsAddress(ops[k]));
      init + (if NeedsAddress(ops[|ops| - 1]) then [|ops| - 1] else [])
  }

  /** List.FindIndex(start, x => x.Label): the first label at or after start, or -1. */
  function FindLabel(s: seq<Op>, start: nat): (r: int)
    requires start <= |s|
    ensures -1 <= r < |s|
    ensures r >= 0 ==> start <= r && IsLabel(s[r]) && forall k :: start <= k < r ==> !IsLabel(s[k])
    ensures r < 0 ==> forall k :: start <= k < |s| ==> !IsLabel(s[k])
    decreases |s| - start
  {
    if start == |s| then -1 else if IsLabel(s[start]) then start else FindLabel(s, start + 1)
  }

  predicate InRange(ws: seq<int>, n: int) {
    forall j :: 0 <= j < |ws| ==> 0 <= ws[j] < n
  }

  /** The watched indexes left after a label: those whose record does not name it. */
  function Unmatched(ops: seq<Op>, ws: seq<int>, name: string): (r: seq<int>)
    requires InRange(ws, |ops|)
  {
    if ws == [] then []
    else (if IsHit(ops[ws[0]], name) then [] else [ws[0]]) + Unmatched(ops, ws[1..], name)
  }

  /** The watched indexes after RemoveAt(q): those behind q move down by one. */
  function Shifted(ws: seq<int>, q: int): (r: seq<int>)
    ensures |r| == |ws|
    ensures forall j :: 0 <= j < |ws| ==> r[j] == if ws[j] >= q then ws[j] - 1 else ws[j]
  {
    seq(|ws|, j requires 0 <= j < |ws| => if ws[j] >= q then ws[j] - 1 else ws[j])
  }

  // ---------------------------------------------------------------- the loops

  /**
   * The inner for loop over the watch list, from its end: rewrite and unwatch every record
   * whose first parameter names the label; fail when a watched record has no parameter.
   */
  method ResolveLabel(operations: seq<Op>, watch: seq<int>, labelName: string, labelIndex: int)
    returns (ok: bool, rewritten: seq<Op>, remaining: seq<int>)
    requires Increasing(watch) && InRange(watch, |operations|)
    ensures ok <==> forall j :: 0 <= j < |watch| ==> |operations[watch[j]].params| > 0
    ensures ok ==> remaining == Unmatched(operations, watch, labelName)
    ensures ok ==> |rewritten| == |operations|
    ensures ok ==> forall k :: 0 <= k < |operations| ==>
      rewritten[k] == if k in watch && IsHit(operations[k], labelName)
                      then Retarget(operations[k], labelIndex) else operations[k]
  {
    rewritten, remaining := operations, watch;
    var i := |watch|;
    WatchStart(operations, watch, labelName, labelIndex);
    while i > 0
      invariant 0 <= i <= |watch|
      invariant forall j :: i <= j < |watch| ==> |operations[watch[j]].params| > 0
      invariant remaining == RemainingAt(operations, watch, i, labelName)
      invariant rewritten == RewriteFrom(operations, watch, i, labelName, labelIndex)
    {
      i := i - 1;
      WatchStep(operations, watch, i, labelName, labelIndex);
      var index := remaining[i];
      var current := rewritten[index];
      if |current.params| == 0 {
        ok := false;
        return;
      }
      if EqualsIgnoreCase(current.params[0], labelName) {
        rewritten := rewritten[index := Retarget(current, labelIndex)];
        remaining := remaining[..i] + remaining[i + 1..];
      }
    }
    WatchEnd(operations, watch, labelName);
    ok := true;
  }

  /** The records once the watched positions watch[i..] have been processed for the label. */
  ghost function RewriteFrom(operations: seq<Op>, watch: seq<int>, i: nat, name: string, address: int): (r: seq<Op>)
    requires i <= |watch| && InRange(watch, |operations|)
    ensures |r| == |operations|
    ensures forall k :: 0 <= k < |operations| ==>
      r[k] == if k in watch[i..] && IsHit(operations[k], name) then Retarget(operations[k], address) else operations[k]
  {
    seq(|operations|, k requires 0 <= k < |operations| =>
      if k in watch[i..] && IsHit(operations[k], name) then Retarget(operations[k], address) else operations[k])
  }

  /** The watch list once watch[i..] has been processed for the label. */
  ghost function RemainingAt(operations: seq<Op>, watch: seq<int>, i: nat, name: string): seq<int>
    requires i <= |watch| && InRange(watch, |operations|)
  {
    watch[..i] + Unmatched(operations, watch[i..], name)
  }

  lemma WatchStart(operations: seq<Op>, watch: seq<int>, name: string, address: int)
    requires InRange(watch, |operations|)
    ensures RewriteFrom(operations, watch, |watch|, name, address) == operations
    ensures RemainingAt(operations, watch, |watch|, name) == watch
  {
    assert watch[|watch|..] == [];
    assert watch[..|watch|] == watch;
  }

  lemma WatchEnd(operations: seq<Op>, watch: seq<int>, name: string)
    requires InRange(watch, |operations|)
    ensures RemainingAt(operations, watch, 0, name) == Unmatched(operations, watch, name)
  {
    assert watch[0..] == watch && watch[..0] == [];
  }

  /** Processing watch[i]: it has not been touched yet, and it is rewritten and dropped exactly on a hit. */
  lemma WatchStep(operations: seq<Op>, watch: seq<int>, i: nat, name: string, address: int)
    requires Increasing(watch) && InRange(watch, |operations|) && i < |watch|
    ensures var before := RemainingAt(operations, watch, i + 1, name);
      |before| > i && before[i] == watch[i]
    ensures RewriteFrom(operations, watch, i + 1, name, address)[watch[i]] == operations[watch[i]]
    ensures var x := watch[i];
      var before := RewriteFrom(operations, watch, i + 1, name, address);
      var rest := RemainingAt(operations, watch, i + 1, name);
      if IsHit(operations[x], name) then
        RewriteFrom(operations, watch, i, name, address) == before[x := Retarget(operations[x], address)] &&
        RemainingAt(operations, watch, i, name) == rest[..i] + rest[i + 1..]
      else
        RewriteFrom(operations, watch, i, name, address) == before &&
        RemainingAt(operations, watch, i, name) == rest
  {
    RewriteStep(operations, watch, i, name, address);
    RemainingStep(operations, watch, i, name);
  }

  lemma RewriteStep(operations: seq<Op>, watch: seq<int>, i: nat, name: string, address: int)
    requires Increasing(watch) && InRange(watch, |operations|) && i < |watch|
    ensures RewriteFrom(operations, watch, i + 1, name, address)[watch[i]] == operations[watch[i]]
    ensures var x := watch[i];
      var before := RewriteFrom(operations, watch, i + 1, name, address);
      RewriteFrom(operations, watch, i, name, address) ==
        if IsHit(operations[x], name) then before[x := Retarget(operations[x], address)] else before
  {
    var x := watch[i];
    assert watch[i..] == [x] + watch[i + 1..];
    assert forall m :: i + 1 <= m < |watch| ==> watch[m] != x;
    assert x !in watch[i + 1..];
  }

  lemma RemainingStep(operations: seq<Op>, watch: seq<int>, i: nat, name: string)
    requires InRange(watch, |operations|) && i < |watch|
    ensures var rest := RemainingAt(operations, watch, i + 1, name);
      |rest| > i && rest[i] == watch[i] &&
      RemainingAt(operations, watch, i, name) ==
        if IsHit(operations[watch[i]], name) then rest[..i] + rest[i + 1..] else rest
  {
    var x := watch[i];
    var u := Unmatched(operations, watch[i + 1..], name);
    var rest := RemainingAt(operations, watch, i + 1, name);
    assert rest == watch[..i] + [x] + u by {
      assert watch[..i + 1] == watch[..i] + [x];
    }
    assert watch[i..] == [x] + watch[i + 1..];
    assert watch[i..][1..] == watch[i + 1..];
    if IsHit(operations[x], name) {
      assert rest[..i] == watch[..i] && rest[i + 1..] == u;
    }
  }

  /** The decrement loop after RemoveAt(labelIndex). */
  method ShiftDown(watch: seq<int>, labelIndex: int) returns (shifted: seq<int>)
    ensures shifted == Shifted(watch, labelIndex)
  {
    shifted := watch;
    for i := 0 to |shifted|
      invariant |shifted| == |watch|
      invariant forall j :: 0 <= j < i ==> shifted[j] == Shifted(watch, labelIndex)[j]
      invariant forall j :: i <= j < |watch| ==> shifted[j] == watch[j]
    {
      if shifted[i] >= labelIndex {
        shifted := shifted[i := shifted[i] - 1];
      }
    }
  }

  /** The relation between the loop's state and the input after the labels of commands[..p]. */
  ghost predicate Inv(commands: seq<Op>, p: nat, orig: seq<Op>, operations: seq<Op>,
                      watch: seq<int>, labelIndex: int)
  {
    && Layout(commands, p, orig, labelIndex)
    && RecordsAt(commands, p, orig, operations)
    && WatchAt(commands, p, orig, watch)
    && Checked(commands, p)
  }

  /** The loop's list holds the non-labels of commands[..p], then commands[p..]; labelIndex is where p falls. */
  ghost predicate Layout(commands: seq<Op>, p: nat, orig: seq<Op>, labelIndex: int) {
    && p <= |commands|
    && orig == NonLabels(commands[..p]) + commands[p..]
    && labelIndex == |NonLabels(commands[..p])|
  }

  /** Each record of the list is its original resolved against the labels of commands[..p]. */
  ghost predicate RecordsAt(commands: seq<Op>, p: nat, orig: seq<Op>, operations: seq<Op>)
    requires p <= |commands|
  {
    |operations| == |orig| &&
    forall k :: 0 <= k < |orig| ==> operations[k] == ResolveUpTo(commands, orig[k], p)
  }

  /** The watch list holds, ascending, the positions of the records still waiting for a label. */
  ghost predicate WatchAt(commands: seq<Op>, p: nat, orig: seq<Op>, watch: seq<int>)
    requires p <= |commands|
  {
    Increasing(watch) && InRange(watch, |orig|) &&
    forall k :: 0 <= k < |orig| ==> (k in watch <==> Pending(commands, orig[k], p))
  }

  /** Once a label has been processed, no address record lacks its parameter. */
  ghost predicate Checked(commands: seq<Op>, p: nat)
    requires p <= |commands|
  {
    HasLabel(commands[..p]) ==> !HasEmptyTarget(commands)
  }

  /** An address-requiring record that no label of commands[..p] has matched yet. */
  predicate Pending(commands: seq<Op>, op: Op, p: nat)
    requires p <= |commands|
  {
    NeedsAddress(op) && FirstMatch(commands, op, p).None?
  }

  /** RemoveLabels: the in-place rewrite, proved to compute RemoveLabelsSpec. */
  method RemoveLabels(commands: seq<Op>) returns (r: Result<seq<Op>>)
    ensures r == RemoveLabelsSpec(commands)
  {
    var operations := commands;
    var watch := AddressIndexes(commands);
    ghost var p: nat := 0;
    ghost var orig := commands;
    InvInit(commands);

    var labelIndex := 0;
    var found := FindLabel(operations, labelIndex);
    while found >= 0
      invariant 0 <= labelIndex <= |operations|
      invariant Inv(commands, p, orig, operations, watch, labelIndex)
      invariant found == FindLabel(operations, labelIndex)
      decreases |commands| - p
    {
      var ok, operations', watch', p', orig' := ProcessLabel(commands, p, orig, operations, watch, labelIndex, found);
      if !ok {
        return Err(IndexOutOfRange);
      }
      labelIndex, operations, watch := found, operations', watch';
      p, orig := p', orig';
      found := FindLabel(operations, labelIndex);
    }
    InvExit(commands, p, orig, operations, watch, labelIndex);
    r := Ok(operations);
  }

  /**
   * One pass of RemoveLabels' outer loop: resolve the watched records against the label found
   * at index found, delete the label and shift the watch list.
   */
  method ProcessLabel(ghost commands: seq<Op>, ghost p: nat, ghost orig: seq<Op>,
                      operations: seq<Op>, watch: seq<int>, labelIndex: int, found: int)
    returns (ok: bool, operations': seq<Op>, watch': seq<int>, ghost p': nat, ghost orig': seq<Op>)
    requires Inv(commands, p, orig, operations, watch, labelIndex)
    requires 0 <= labelIndex <= |operations| && found == FindLabel(operations, labelIndex) && found >= 0
    ensures !ok ==> HasLabel(commands) && HasEmptyTarget(commands)
    ensures ok ==> p < p' && found <= |operations'| && Inv(commands, p', orig', operations', watch', found)
  {
    var labelName := LabelName(operations[found]);
    var rewritten, remaining;
    ok, rewritten, remaining := ResolveLabel(operations, watch, labelName, found);
    if !ok {
      InvFault(commands, p, orig, operations, watch, labelIndex, found);
      operations', watch', p', orig' := operations, watch, p, orig;
      return;
    }
    var q := InvStep(commands, p, orig, operations, watch, labelIndex, found, rewritten, remaining);
    operations' := rewritten[..found] + rewritten[found + 1..];
    watch' := ShiftDown(remaining, found);
    orig' := orig[..found] + orig[found + 1..];
    p' := q + 1;
  }

  /** DefaultCompiler.Compile: the input unchanged when no record is a label, else RemoveLabels. */
  method Compile(operations: seq<Op>) returns (r: Result<seq<Op>>)
    ensures r == CompileSpec(operations)
  {
    if !HasLabel(operations) {
      return Ok(operations);
    }
    r := RemoveLabels(operations);
  }

  /** Assembler.Translate: a copy of the input when FindIndex finds no label, else the rewrite. */
  method Translate(commands: seq<Op>) returns (r: Result<seq<Op>>)
    ensures r == CompileSpec(commands)
  {
    var program := commands;
    if FindLabel(program, 0) < 0 {
      return Ok(program);
    }
    r := RemoveLabels(program);
  }

  // ---------------------------------------------------------------- lemmas about the loop

  lemma {:induction false} NonLabelsAppend(a: seq<Op>, b: seq<Op>)
    ensures NonLabels(a + b) == NonLabels(a) + NonLabels(b)
    decreases |b|
  {
    if b == [] {
      assert a + b == a;
    } else {
      var b' := b[..|b| - 1];
      assert (a + b)[..|a + b| - 1] == a + b';
      assert (a + b)[|a + b| - 1] == b[|b| - 1];
      NonLabelsAppend(a, b');
    }
  }

  /** Every kept record comes from the input. */
  lemma {:induction false} NonLabelsSource(s: seq<Op>, k: nat) returns (i: nat)
    requires k < |NonLabels(s)|
    ensures i < |s| && s[i] == NonLabels(s)[k]
  {
    var init := s[..|s| - 1];
    if k < |NonLabels(init)| {
      i := NonLabelsSource(init, k);
    } else {
      i := |s| - 1;
    }
  }

  lemma {:induction false} NonLabelsOfPlain(s: seq<Op>)
    requires forall k :: 0 <= k < |s| ==> !IsLabel(s[k])
    ensures NonLabels(s) == s
  {
    if s != [] {
      NonLabelsOfPlain(s[..|s| - 1]);
    }
  }

  lemma {:induction false} NonLabelsOfLabels(s: seq<Op>)
    requires forall k :: 0 <= k < |s| ==> IsLabel(s[k])
    ensures NonLabels(s) == []
  {
    if s != [] {
      NonLabelsOfLabels(s[..|s| - 1]);
    }
  }

  /** Up to p2 there are no other labels than up to p. */
  lemma {:induction false} FirstMatchPlain(commands: seq<Op>, op: Op, p: nat, p2: nat)
    requires p <= p2 <= |commands|
    requires forall m :: p <= m < p2 ==> !IsLabel(commands[m])
    ensures FirstMatch(commands, op, p2) == FirstMatch(commands, op, p)
    decreases p2
  {
    if p2 > p {
      FirstMatchPlain(commands, op, p, p2 - 1);
    }
  }

  lemma InvInit(commands: seq<Op>)
    ensures Inv(commands, 0, commands, commands, AddressIndexes(commands), 0)
  {
    InitLayout(commands);
    InitRecords(commands);
    InitWatch(commands);
    InitChecked(commands);
  }

  lemma InitLayout(commands: seq<Op>)
    ensures Layout(commands, 0, commands, 0)
  {
    var e := commands[..0];
    assert e == [];
    assert NonLabels(e) == [];
    assert commands[0..] == commands;
    assert NonLabels(e) + commands[0..] == commands;
  }

  lemma InitRecords(commands: seq<Op>)
    ensures RecordsAt(commands, 0, commands, commands)
  {
  }

  lemma InitWatch(commands: seq<Op>)
    ensures WatchAt(commands, 0, commands, AddressIndexes(commands))
  {
  }

  lemma InitChecked(commands: seq<Op>)
    ensures Checked(commands, 0)
  {
    assert |commands[..0]| == 0;
  }

  /** Moving p over the non-labels in front of the label found at q. */
  lemma InvAdvance(commands: seq<Op>, p: nat, orig: seq<Op>, operations: seq<Op>,
                   watch: seq<int>, labelIndex: int, q: int)
    requires Inv(commands, p, orig, operations, watch, labelIndex)
    requires 0 <= labelIndex <= |operations| && q == FindLabel(operations, labelIndex) && q >= 0
    ensures p + (q - labelIndex) < |commands|
    ensures var p' := p + (q - labelIndex);
      IsLabel(commands[p']) && orig[q] == commands[p'] && operations[q] == commands[p'] &&
      Inv(commands, p', orig, operations, watch, q)
  {
    var p' := p + (q - labelIndex);
    LabelAhead(commands, p, orig, operations, watch, labelIndex, q);
    LayoutAdvance(commands, p, p', orig, labelIndex);
    RecordsAdvance(commands, p, p', orig, operations, watch);
    CheckedAdvance(commands, p, p');
  }

  /** The label found at q in the list is commands[p + (q - labelIndex)], and only non-labels lie before it. */
  lemma LabelAhead(commands: seq<Op>, p: nat, orig: seq<Op>, operations: seq<Op>,
                   watch: seq<int>, labelIndex: int, q: int)
    requires Inv(commands, p, orig, operations, watch, labelIndex)
    requires 0 <= labelIndex <= |operations| && q == FindLabel(operations, labelIndex) && q >= 0
    ensures p + (q - labelIndex) < |commands|
    ensures forall m :: p <= m < p + (q - labelIndex) ==> !IsLabel(commands[m])
    ensures var p' := p + (q - labelIndex);
      IsLabel(commands[p']) && orig[q] == commands[p'] && operations[q] == commands[p']
  {
    var p' := p + (q - labelIndex);
    forall m | p <= m < p'
      ensures !IsLabel(commands[m])
    {
      var k := labelIndex + (m - p);
      OrigSuffix(commands, p, orig, labelIndex, k);
      assert operations[k].name == orig[k].name;
    }
    OrigSuffix(commands, p, orig, labelIndex, q);
    assert operations[q].name == orig[q].name;
    AddressResolvesLabelAlone(commands, commands[p'], p);
  }

  /** Moving p over non-labels changes no resolution and no pending record. */
  lemma RecordsAdvance(commands: seq<Op>, p: nat, p': nat, orig: seq<Op>, operations: seq<Op>, watch: seq<int>)
    requires p <= p' <= |commands| && forall m :: p <= m < p' ==> !IsLabel(commands[m])
    requires RecordsAt(commands, p, orig, operations) && WatchAt(commands, p, orig, watch)
    ensures RecordsAt(commands, p', orig, operations) && WatchAt(commands, p', orig, watch)
  {
    forall k | 0 <= k < |orig|
      ensures operations[k] == ResolveUpTo(commands, orig[k], p')
      ensures k in watch <==> Pending(commands, orig[k], p')
    {
      FirstMatchPlain(commands, orig[k], p, p');
    }
  }

  /** Past the non-labels of commands[..p], the list is commands[p..] itself. */
  lemma OrigSuffix(commands: seq<Op>, p: nat, orig: seq<Op>, labelIndex: int, k: int)
    requires Layout(commands, p, orig, labelIndex) && labelIndex <= k < |orig|
    ensures p + (k - labelIndex) < |commands| && orig[k] == commands[p + (k - labelIndex)]
  {
    var tail := commands[p..];
    assert orig[k] == tail[k - labelIndex];
  }

  lemma LayoutAdvance(commands: seq<Op>, p: nat, p': nat, orig: seq<Op>, labelIndex: int)
    requires Layout(commands, p, orig, labelIndex) && p <= p' <= |commands|
    requires forall m :: p <= m < p' ==> !IsLabel(commands[m])
    ensures Layout(commands, p', orig, labelIndex + (p' - p))
  {
    var a, b, c := commands[..p], commands[p..p'], commands[p'..];
    SliceSplit(commands, p, p');
    NonLabelsAppend(a, b);
    NonLabelsOfPlain(b);
  }


  lemma CheckedAdvance(commands: seq<Op>, p: nat, p': nat)
    requires p <= p' <= |commands| && Checked(commands, p)
    requires forall m :: p <= m < p' ==> !IsLabel(commands[m])
    ensures Checked(commands, p')
  {
    if HasLabel(commands[..p']) {
      var long := commands[..p'];
      var m :| 0 <= m < p' && IsLabel(long[m]);
      assert long[m] == commands[m];
      var short := commands[..p];
      assert short[m] == commands[m];
    }
  }

  lemma AddressResolvesLabelAlone(commands: seq<Op>, op: Op, p: nat)
    requires p <= |commands| && IsLabel(op)
    ensures ResolveUpTo(commands, op, p) == op
  {
    if NeedsAddress(op) {
      AddressOpIsNoLabel(op);
    }
  }

  /** One pass of the outer loop: the label found at q processed and deleted. */
  lemma InvStep(commands: seq<Op>, p: nat, orig: seq<Op>, operations: seq<Op>, watch: seq<int>,
                labelIndex: int, q: int, rewritten: seq<Op>, remaining: seq<int>) returns (p': nat)
    requires Inv(commands, p, orig, operations, watch, labelIndex)
    requires 0 <= labelIndex <= |operations| && q == FindLabel(operations, labelIndex) && q >= 0
    requires forall j :: 0 <= j < |watch| ==> |operations[watch[j]].params| > 0
    requires remaining == Unmatched(operations, watch, LabelName(operations[q]))
    requires |rewritten| == |operations|
    requires forall k :: 0 <= k < |operations| ==>
      rewritten[k] == if k in watch && IsHit(operations[k], LabelName(operations[q]))
                      then Retarget(operations[k], q) else operations[k]
    ensures p' == p + (q - labelIndex)
    ensures Inv(commands, p' + 1, orig[..q] + orig[q + 1..], rewritten[..q] + rewritten[q + 1..],
                Shifted(remaining, q), q)
  {
    p' := p + (q - labelIndex);
    InvAdvance(commands, p, orig, operations, watch, labelIndex, q);
    InvLabel(commands, p', orig, operations, watch, q, rewritten, remaining);
  }

  /** A failing inner loop means the input had a label and an address record without parameters. */
  lemma InvFault(commands: seq<Op>, p: nat, orig: seq<Op>, operations: seq<Op>, watch: seq<int>,
                 labelIndex: int, q: int)
    requires Inv(commands, p, orig, operations, watch, labelIndex)
    requires 0 <= labelIndex <= |operations| && q == FindLabel(operations, labelIndex) && q >= 0
    requires !forall j :: 0 <= j < |watch| ==> |operations[watch[j]].params| > 0
    ensures HasLabel(commands) && HasEmptyTarget(commands)
  {
    InvAdvance(commands, p, orig, operations, watch, labelIndex, q);
    var j :| 0 <= j < |watch| && |operations[watch[j]].params| == 0;
    var k := watch[j];
    assert k in watch;
    assert operations[k] == orig[k];
    var m := OrigInCommands(commands, p, orig, k);
    assert NeedsAddress(commands[m]) && commands[m].params == [];
  }

  lemma OrigInCommands(commands: seq<Op>, p: nat, orig: seq<Op>, k: int) returns (m: nat)
    requires p <= |commands| && orig == NonLabels(commands[..p]) + commands[p..]
    requires 0 <= k < |orig|
    ensures m < |commands| && commands[m] == orig[k]
  {
    var pre := NonLabels(commands[..p]);
    if k < |pre| {
      assert orig[k] == pre[k];
      var i := NonLabelsSource(commands[..p], k);
      m := i;
    } else {
      m := p + (k - |pre|);
    }
  }

  /** Membership in the filtered watch list. */
  lemma UnmatchedMembers(ops: seq<Op>, ws: seq<int>, name: string)
    requires InRange(ws, |ops|)
    ensures var u := Unmatched(ops, ws, name);
      InRange(u, |ops|) &&
      (forall k :: k in u <==> k in ws && !IsHit(ops[k], name)) &&
      (Increasing(ws) ==> Increasing(u))
  {
    UnmatchedIn(ops, ws, name);
    if Increasing(ws) {
      UnmatchedIncreasing(ops, ws, name);
    }
  }

  lemma {:induction false} UnmatchedIn(ops: seq<Op>, ws: seq<int>, name: string)
    requires InRange(ws, |ops|)
    ensures var u := Unmatched(ops, ws, name);
      InRange(u, |ops|) && forall k :: k in u <==> k in ws && !IsHit(ops[k], name)
  {
    if ws != [] {
      var rest := ws[1..];
      UnmatchedIn(ops, rest, name);
      assert ws == [ws[0]] + rest;
    }
  }

  lemma {:induction false} UnmatchedIncreasing(ops: seq<Op>, ws: seq<int>, name: string)
    requires InRange(ws, |ops|) && Increasing(ws)
    ensures Increasing(Unmatched(ops, ws, name))
  {
    if ws != [] {
      var rest := ws[1..];
      UnmatchedIn(ops, rest, name);
      UnmatchedIncreasing(ops, rest, name);
      var ur := Unmatched(ops, rest, name);
      forall b | 0 <= b < |ur| ensures ws[0] < ur[b] {
        assert ur[b] in ur;
        var m :| 0 <= m < |rest| && rest[m] == ur[b];
        assert ws[m + 1] == ur[b];
      }
    }
  }

  lemma ShiftedMembers(ws: seq<int>, q: int)
    requires q !in ws
    ensures forall k :: k in Shifted(ws, q) <==> (k < q && k in ws) || (k >= q && k + 1 in ws)
    ensures Increasing(ws) ==> Increasing(Shifted(ws, q))
  {
    var s := Shifted(ws, q);
    forall k ensures k in s <==> (k < q && k in ws) || (k >= q && k + 1 in ws) {
      if k in s {
        var j :| 0 <= j < |s| && s[j] == k;
        assert ws[j] != q;
      }
      if k < q && k in ws {
        var j :| 0 <= j < |ws| && ws[j] == k;
        assert s[j] == k;
      }
      if k >= q && k + 1 in ws {
        var j :| 0 <= j < |ws| && ws[j] == k + 1;
        assert s[j] == k;
      }
    }
    if Increasing(ws) {
      forall a, b | 0 <= a < b < |s| ensures s[a] < s[b] {
        assert ws[a] != q && ws[b] != q;
      }
    }
  }

  /** The label at commands[p] (index q of the loop's list) processed and deleted. */
  lemma InvLabel(commands: seq<Op>, p: nat, orig: seq<Op>, operations: seq<Op>, watch: seq<int>,
                 q: int, rewritten: seq<Op>, remaining: seq<int>)
    requires Inv(commands, p, orig, operations, watch, q)
    requires p < |commands| && IsLabel(commands[p]) && 0 <= q < |orig| && orig[q] == commands[p]
    requires operations[q] == commands[p]
    requires forall j :: 0 <= j < |watch| ==> |operations[watch[j]].params| > 0
    requires remaining == Unmatched(operations, watch, LabelName(commands[p]))
    requires |rewritten| == |operations|
    requires forall k :: 0 <= k < |operations| ==>
      rewritten[k] == if k in watch && IsHit(operations[k], LabelName(commands[p]))
                      then Retarget(operations[k], q) else operations[k]
    ensures Inv(commands, p + 1, orig[..q] + orig[q + 1..], rewritten[..q] + rewritten[q + 1..],
                Shifted(remaining, q), q)
  {
    LabelLayout(commands, p, orig, q);
    AddressOpIsNoLabel(commands[p]);
    LabelRecords(commands, p, orig, operations, watch, q, rewritten, remaining);
    LabelRemove(commands, p + 1, orig, rewritten, remaining, q);
    LabelChecked(commands, p, orig, operations, watch, q);
  }

  lemma LabelLayout(commands: seq<Op>, p: nat, orig: seq<Op>, q: int)
    requires Layout(commands, p, orig, q) && p < |commands| && IsLabel(commands[p])
    ensures Layout(commands, p + 1, orig[..q] + orig[q + 1..], q)
  {
    var pre, l, post := commands[..p], commands[p], commands[p + 1..];
    assert commands[..p + 1] == pre + [l];
    NonLabelsAppend(pre, [l]);
    assert NonLabels([l]) == NonLabels([]) + [];
    assert commands[p..] == [l] + post;
    assert orig == NonLabels(pre) + [l] + post by {
      assert orig == NonLabels(pre) + ([l] + post);
    }
    assert orig[..q] == NonLabels(pre);
    assert orig[q + 1..] == post;
  }

  lemma LabelRecords(commands: seq<Op>, p: nat, orig: seq<Op>, operations: seq<Op>, watch: seq<int>,
                     q: int, rewritten: seq<Op>, remaining: seq<int>)
    requires p < |commands| && IsLabel(commands[p]) && q == |NonLabels(commands[..p])|
    requires RecordsAt(commands, p, orig, operations) && WatchAt(commands, p, orig, watch)
    requires forall j :: 0 <= j < |watch| ==> |operations[watch[j]].params| > 0
    requires remaining == Unmatched(operations, watch, LabelName(commands[p]))
    requires |rewritten| == |operations|
    requires forall k :: 0 <= k < |operations| ==>
      rewritten[k] == if k in watch && IsHit(operations[k], LabelName(commands[p]))
                      then Retarget(operations[k], q) else operations[k]
    ensures forall k :: 0 <= k < |orig| ==> rewritten[k] == ResolveUpTo(commands, orig[k], p + 1)
    ensures forall k :: 0 <= k < |orig| ==> (k in remaining <==> Pending(commands, orig[k], p + 1))
    ensures Increasing(remaining) && InRange(remaining, |orig|)
  {
    var name := LabelName(commands[p]);
    UnmatchedMembers(operations, watch, name);
    forall k | 0 <= k < |orig|
      ensures rewritten[k] == ResolveUpTo(commands, orig[k], p + 1)
      ensures k in remaining <==> Pending(commands, orig[k], p + 1)
    {
      StepRecord(commands, p, orig[k], q);
      if k in watch {
        assert operations[k] == orig[k];
      }
    }
  }

  /** Deleting the label at q from the list, the originals and the watch list. */
  lemma LabelRemove(commands: seq<Op>, p: nat, orig: seq<Op>, rewritten: seq<Op>, remaining: seq<int>, q: int)
    requires p <= |commands| && 0 <= q < |orig| && |rewritten| == |orig|
    requires !NeedsAddress(orig[q])
    requires forall k :: 0 <= k < |orig| ==> rewritten[k] == ResolveUpTo(commands, orig[k], p)
    requires forall k :: 0 <= k < |orig| ==> (k in remaining <==> Pending(commands, orig[k], p))
    requires Increasing(remaining) && InRange(remaining, |orig|)
    ensures RecordsAt(commands, p, orig[..q] + orig[q + 1..], rewritten[..q] + rewritten[q + 1..])
    ensures WatchAt(commands, p, orig[..q] + orig[q + 1..], Shifted(remaining, q))
  {
    var orig' := orig[..q] + orig[q + 1..];
    var ops' := rewritten[..q] + rewritten[q + 1..];
    assert q !in remaining;
    ShiftedMembers(remaining, q);
    forall k' | 0 <= k' < |orig'|
      ensures ops'[k'] == ResolveUpTo(commands, orig'[k'], p)
      ensures k' in Shifted(remaining, q) <==> Pending(commands, orig'[k'], p)
    {
      if k' < q {
        assert ops'[k'] == rewritten[k'] && orig'[k'] == orig[k'];
      } else {
        assert ops'[k'] == rewritten[k' + 1] && orig'[k'] == orig[k' + 1];
      }
    }
    assert InRange(Shifted(remaining, q), |orig'|) by {
      forall j | 0 <= j < |remaining| ensures 0 <= Shifted(remaining, q)[j] < |orig'| {
        assert remaining[j] in remaining;
      }
    }
  }

  /** After the first label: no address record lacks its parameter, or the inner loop would have failed. */
  lemma LabelChecked(commands: seq<Op>, p: nat, orig: seq<Op>, operations: seq<Op>, watch: seq<int>, q: int)
    requires Inv(commands, p, orig, operations, watch, q)
    requires p < |commands|
    requires forall j :: 0 <= j < |watch| ==> |operations[watch[j]].params| > 0
    ensures Checked(commands, p + 1)
  {
    if !HasLabel(commands[..p]) {
      NoLabelPrefix(commands, p, orig);
      forall k | 0 <= k < |commands| && NeedsAddress(commands[k])
        ensures commands[k].params != []
      {
        if k in watch {
          var j :| 0 <= j < |watch| && watch[j] == k;
          assert |operations[k].params| > 0;
        } else {
          var i := FirstMatch(commands, commands[k], p).value;
          assert MatchAt(commands, commands[k], i);
        }
      }
    }
  }

  lemma NoLabelPrefix(commands: seq<Op>, p: nat, orig: seq<Op>)
    requires p <= |commands| && !HasLabel(commands[..p])
    requires orig == NonLabels(commands[..p]) + commands[p..]
    ensures orig == commands
  {
    var s := commands[..p];
    assert NonLabels(s) == s by {
      NonLabelsOfPlain(s);
    }
    assert orig == s + commands[p..];
    assert s + commands[p..] == commands;
  }

  /** How processing the label at p changes one record and its pending status. */
  lemma StepRecord(commands: seq<Op>, p: nat, op: Op, q: int)
    requires p < |commands| && IsLabel(commands[p]) && q == |NonLabels(commands[..p])|
    ensures var hit := Pending(commands, op, p) && IsHit(op, LabelName(commands[p]));
      && ResolveUpTo(commands, op, p + 1) ==
          (if hit then Retarget(op, q) else ResolveUpTo(commands, op, p))
      && (Pending(commands, op, p + 1) <==> Pending(commands, op, p) && !IsHit(op, LabelName(commands[p])))
  {
  }

  /** No label left: the loop's list is the resolved program. */
  lemma InvExit(commands: seq<Op>, p: nat, orig: seq<Op>, operations: seq<Op>, watch: seq<int>, labelIndex: int)
    requires Inv(commands, p, orig, operations, watch, labelIndex)
    requires 0 <= labelIndex <= |operations| && FindLabel(operations, labelIndex) < 0
    ensures operations == Resolved(commands)
    ensures HasLabel(commands) ==> !HasEmptyTarget(commands)
  {
    ExitPlainSuffix(commands, p, orig, operations, labelIndex);
    ExitLayout(commands, p, orig, labelIndex);
    ExitRecords(commands, p, orig, operations);
    assert operations == Resolved(commands);
    CheckedAdvance(commands, p, |commands|);
    assert commands[..|commands|] == commands;
  }

  lemma ExitPlainSuffix(commands: seq<Op>, p: nat, orig: seq<Op>, operations: seq<Op>, labelIndex: int)
    requires Layout(commands, p, orig, labelIndex) && RecordsAt(commands, p, orig, operations)
    requires 0 <= labelIndex <= |operations| && FindLabel(operations, labelIndex) < 0
    ensures forall m :: p <= m < |commands| ==> !IsLabel(commands[m])
  {
    forall m | p <= m < |commands|
      ensures !IsLabel(commands[m])
    {
      var k := labelIndex + (m - p);
      OrigSuffix(commands, p, orig, labelIndex, k);
      assert operations[k].name == orig[k].name;
    }
  }

  lemma ExitLayout(commands: seq<Op>, p: nat, orig: seq<Op>, labelIndex: int)
    requires Layout(commands, p, orig, labelIndex)
    requires forall m :: p <= m < |commands| ==> !IsLabel(commands[m])
    ensures orig == NonLabels(commands)
  {
    var a, b := commands[..p], commands[p..];
    assert commands == a + b;
    NonLabelsAppend(a, b);
    NonLabelsOfPlain(b);
  }

  lemma ExitRecords(commands: seq<Op>, p: nat, orig: seq<Op>, operations: seq<Op>)
    requires p <= |commands| && RecordsAt(commands, p, orig, operations) && orig == NonLabels(commands)
    requires forall m :: p <= m < |commands| ==> !IsLabel(commands[m])
    ensures operations == ResolveEach(commands, orig, |commands|)
  {
    var full := ResolveEach(commands, orig, |commands|);
    forall k | 0 <= k < |orig|
      ensures operations[k] == full[k]
    {
      ResolvePlain(commands, orig[k], p, |commands|);
    }
    assert operations == full;
  }

  /** Resolution does not change over a stretch without labels. */
  lemma ResolvePlain(commands: seq<Op>, op: Op, p: nat, p2: nat)
    requires p <= p2 <= |commands|
    requires forall m :: p <= m < p2 ==> !IsLabel(commands[m])
    ensures ResolveUpTo(commands, op, p2) == ResolveUpTo(commands, op, p)
  {
    FirstMatchPlain(commands, op, p, p2);
  }

  // ---------------------------------------------------------------- properties of the result

  /** Compiling a compiled program changes nothing: no label is left for a second pass. */
  lemma CompileIdempotent(ops: seq<Op>)
    requires CompileSpec(ops).Ok?
    ensures CompileSpec(CompileSpec(ops).value) == CompileSpec(ops)
  {
  }

  /**
   * The label at position i of the input ends up pointing at the record that follows it:
   * its address is the final index of the first non-label behind it, or the program's
   * length when only labels follow.
   */
  lemma LabelAddressIsNextRecord(ops: seq<Op>, i: nat)
    requires i < |ops| && IsLabel(ops[i])
    ensures var t := |NonLabels(ops[..i])|;
      t <= |NonLabels(ops)| &&
      (t == |NonLabels(ops)| <==> forall m :: i <= m < |ops| ==> IsLabel(ops[m])) &&
      (forall j :: i < j < |ops| && !IsLabel(ops[j]) && (forall m :: i <= m < j ==> IsLabel(ops[m])) ==>
         t < |NonLabels(ops)| && NonLabels(ops)[t] == ops[j])
  {
    LabelAddressBound(ops, i);
    forall j | i < j < |ops| && !IsLabel(ops[j]) && (forall m :: i <= m < j ==> IsLabel(ops[m]))
      ensures |NonLabels(ops[..i])| < |NonLabels(ops)| && NonLabels(ops)[|NonLabels(ops[..i])|] == ops[j]
    {
      LabelAddressNext(ops, i, j);
    }
  }

  lemma LabelAddressBound(ops: seq<Op>, i: nat)
    requires i <= |ops|
    ensures var t := |NonLabels(ops[..i])|;
      t <= |NonLabels(ops)| && (t == |NonLabels(ops)| <==> forall m :: i <= m < |ops| ==> IsLabel(ops[m]))
  {
    var head, tail := ops[..i], ops[i..];
    SplitAt(ops, i);
    NonLabelsAppend(head, tail);
    if forall m :: i <= m < |ops| ==> IsLabel(ops[m]) {
      NonLabelsOfLabels(tail);
    } else {
      var j :| i <= j < |ops| && !IsLabel(ops[j]);
      NonLabelsNonEmpty(tail, j - i);
    }
  }

  lemma LabelAddressNext(ops: seq<Op>, i: nat, j: nat)
    requires i < j < |ops| && !IsLabel(ops[j]) && forall m :: i <= m < j ==> IsLabel(ops[m])
    ensures |NonLabels(ops[..i])| < |NonLabels(ops)| && NonLabels(ops)[|NonLabels(ops[..i])|] == ops[j]
  {
    var head, tail := ops[..i], ops[i..];
    SplitAt(ops, i);
    NonLabelsAppend(head, tail);
    NonLabelsFirst(tail, j - i);
  }

  lemma NonLabelsNonEmpty(s: seq<Op>, j: nat)
    requires j < |s| && !IsLabel(s[j])
    ensures |NonLabels(s)| > 0
  {
    var a, b := s[..j], s[j..];
    assert s == a + b;
    NonLabelsAppend(a, b);
    assert b == [s[j]] + b[1..];
    NonLabelsAppend([s[j]], b[1..]);
    assert NonLabels([s[j]]) == NonLabels([]) + [s[j]];
  }

  /** After a run of labels, the first non-label heads the kept records. */
  lemma NonLabelsFirst(s: seq<Op>, j: nat)
    requires j < |s| && !IsLabel(s[j]) && forall m :: 0 <= m < j ==> IsLabel(s[m])
    ensures |NonLabels(s)| > 0 && NonLabels(s)[0] == s[j]
  {
    var a, b := s[..j], s[j..];
    assert s == a + b;
    NonLabelsAppend(a, b);
    NonLabelsOfLabels(a);
    assert b == [s[j]] + b[1..];
    NonLabelsAppend([s[j]], b[1..]);
    assert NonLabels([s[j]]) == NonLabels([]) + [s[j]];
  }

  /**
   * A resolved jump: the k-th record of the program keeps its name, and its first parameter
   * is the decimal address of the first label it names; read back as a number it is that
   * address, the index of the record after the label.
   */
  lemma ResolvedTarget(ops: seq<Op>, k: nat)
    requires k < |NonLabels(ops)| && |ops| <= MaxInt32
    requires NeedsAddress(NonLabels(ops)[k]) && FirstMatch(ops, NonLabels(ops)[k], |ops|).Some?
    ensures var i := FirstMatch(ops, NonLabels(ops)[k], |ops|).value;
      var t := |NonLabels(ops[..i])|;
      |Resolved(ops)[k].params| > 0 && Resolved(ops)[k].params[0] == Decimal(t) &&
      TryParseInt(Resolved(ops)[k].params[0]) == Some(t) &&
      IsLabel(ops[i]) && EqualsIgnoreCase(NonLabels(ops)[k].params[0], LabelName(ops[i])) &&
      t <= |Resolved(ops)|
  {
    var i := FirstMatch(ops, NonLabels(ops)[k], |ops|).value;
    LabelAddressIsNextRecord(ops, i);
    DecimalRoundTrip(|NonLabels(ops[..i])|);
  }
}
