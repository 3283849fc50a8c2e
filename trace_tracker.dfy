/** The FirePerf call-stack tracker (trace_tracker.cc): a stack of labels
    that follows the function each retired instruction belongs to, writing a
    Start line for every label it pushes and an End line for every label it
    pops. */
module Tracker {
  import opened Words
  import opened Wrappers
  import opened Processing
  import opened TraceTypes

  const USERSPACE_ALL: string := "USERSPACE_ALL"

  /** `(uint64_t)(-1)`, the value printed when no label was popped. */
  const NO_LEVEL: nat := 0xFFFF_FFFF_FFFF_FFFF

  /** One write to the tracker's output file. */
  datatype TraceLine =
    | StartLine(meta: LabelMeta)
    | EndLine(meta: LabelMeta)
      /** The four WARN lines written when unwinding empties the stack. */
    | WarnLines(fnName: string, iaddr: u64, isCallsite: bool, isFnEntry: bool,
                unwindStartLevel: Option<nat>)

  function Flag(b: bool): string
  {
    if b then "1" else "0"
  }

  /** The text each write puts in the file. The fourth WARN line is followed
      by `printMeFile`, whose body is empty, so nothing more is written. */
  function Render(line: TraceLine): (text: string)
    ensures line.StartLine? ==> text == PrePrint(line.meta)
    ensures line.EndLine? ==> text == PostPrint(line.meta)
  {
    match line
    case StartLine(l) => PrePrint(l)
    case EndLine(l) => PostPrint(l)
    case WarnLines(fnName, iaddr, callsite, entry, level) =>
      "WARN: STACK ZEROED WHEN WE WERE LOOKING FOR LABEL: " + fnName +
      ", iaddr 0x" + Digits(iaddr, 16) + "\n" +
      "WARN: is_callsite was: " + Flag(callsite) + ", is_fn_entry was: " + Flag(entry) + "\n" +
      "WARN: Unwind started at level: dec " +
      Decimal(if level.Some? then level.value else NO_LEVEL) + "\n" +
      "WARN: Last instr was\n"
  }

  // ---------------------------------------------------------------------
  // The label stack (last element on top) and its invariants
  // ---------------------------------------------------------------------

  function Top(s: seq<LabelMeta>): LabelMeta
    requires |s| > 0
  {
    s[|s| - 1]
  }

  /** `last_label->end_cycle = cycle` on the top of the stack. */
  function Touched(s: seq<LabelMeta>, cycle: u64): (r: seq<LabelMeta>)
    requires |s| > 0
    ensures |r| == |s| && r[..|s| - 1] == s[..|s| - 1]
    ensures Top(r) == Top(s).(endCycle := cycle)
  {
    s[|s| - 1 := s[|s| - 1].(endCycle := cycle)]
  }

  /** Every label's indent is its 1-based position in the stack. */
  ghost predicate WellIndented(s: seq<LabelMeta>)
  {
    forall i :: 0 <= i < |s| ==> s[i].indent == i + 1
  }

  /** What a Start line announces about a label, and an End line repeats. */
  datatype Frame = Frame(name: string, startCycle: u64, indent: nat)

  function FrameOf(l: LabelMeta): Frame
  {
    Frame(l.name, l.startCycle, l.indent)
  }

  function Frames(s: seq<LabelMeta>): (r: seq<Frame>)
    ensures |r| == |s| && forall i :: 0 <= i < |s| ==> r[i] == FrameOf(s[i])
  {
    seq(|s|, i requires 0 <= i < |s| => FrameOf(s[i]))
  }

  /** Reads a trace as a bracket structure, starting from the open labels
      `open`: a Start line opens a label one deeper than the open ones; an End
      line must close the most recently opened label that is still open (same
      name, start cycle and indent). None when the trace breaks this. */
  ghost function Replay(lines: seq<TraceLine>, open: seq<Frame>): Option<seq<Frame>>
    decreases |lines|
  {
    if lines == [] then Some(open)
    else match lines[0]
      case StartLine(l) =>
        if l.indent == |open| + 1 then Replay(lines[1..], open + [FrameOf(l)]) else None
      case EndLine(l) =>
        if |open| > 0 && open[|open| - 1] == FrameOf(l) then Replay(lines[1..], open[..|open| - 1])
        else None
      case WarnLines(_, _, _, _, _) => Replay(lines[1..], open)
  }

  function CountStarts(lines: seq<TraceLine>): nat
  {
    if lines == [] then 0 else (if lines[0].StartLine? then 1 else 0) + CountStarts(lines[1..])
  }

  function CountEnds(lines: seq<TraceLine>): nat
  {
    if lines == [] then 0 else (if lines[0].EndLine? then 1 else 0) + CountEnds(lines[1..])
  }

  function Ends(ls: seq<LabelMeta>): (r: seq<TraceLine>)
    ensures |r| == |ls| && forall i :: 0 <= i < |ls| ==> r[i] == EndLine(ls[i])
  {
    seq(|ls|, i requires 0 <= i < |ls| => EndLine(ls[i]))
  }

  // ---------------------------------------------------------------------
  // The specification of addInstruction
  // ---------------------------------------------------------------------

  datatype Unwound = Unwound(rest: seq<LabelMeta>, ended: seq<LabelMeta>)

  /** The two pop loops: pop labels until the top is named `target` (None:
      until the stack is empty); after each pop the new top, if any, gets
      `end_cycle = cycle`. `ended` lists the popped labels, first popped
      first, as their End lines print them. */
  function Unwind(s: seq<LabelMeta>, target: Option<string>, cycle: u64): Unwound
    decreases |s|
  {
    if |s| == 0 || (target.Some? && Top(s).name == target.value) then Unwound(s, [])
    else
      var below := s[..|s| - 1];
      var u := Unwind(if |below| > 0 then Touched(below, cycle) else below, target, cycle);
      Unwound(u.rest, [Top(s)] + u.ended)
  }

  /** One pop of an unwind that does not stop at `s`: the top is ended and
      the rest unwinds from the touched stack below it. */
  lemma UnwindPop(s: seq<LabelMeta>, target: Option<string>, cycle: u64)
    requires |s| > 0 && !(target.Some? && Top(s).name == target.value)
    ensures var below := s[..|s| - 1];
      var u := Unwind(if |below| > 0 then Touched(below, cycle) else below, target, cycle);
      Unwind(s, target, cycle) == Unwound(u.rest, [Top(s)] + u.ended)
  {
  }

  /** The bookkeeping of one round of the pop loop: the labels popped so
      far followed by what is left to pop stay the whole unwind. */
  lemma UnwindLoopStep(u0: Unwound, popped: seq<LabelMeta>, s: seq<LabelMeta>, target: Option<string>, cycle: u64)
    requires |s| > 0 && !(target.Some? && Top(s).name == target.value)
    requires Unwind(s, target, cycle).rest == u0.rest
    requires u0.ended == popped + Unwind(s, target, cycle).ended
    ensures var below := s[..|s| - 1];
      var u := Unwind(if |below| > 0 then Touched(below, cycle) else below, target, cycle);
      u.rest == u0.rest && u0.ended == (popped + [Top(s)]) + u.ended
  {
    var below := s[..|s| - 1];
    var u := Unwind(if |below| > 0 then Touched(below, cycle) else below, target, cycle);
    UnwindPop(s, target, cycle);
    AppendShift(popped, Top(s), u.ended);
  }

  lemma EndsSnoc(ls: seq<LabelMeta>, l: LabelMeta)
    ensures Ends(ls + [l]) == Ends(ls) + [EndLine(l)]
  {
  }

  lemma LinesAssoc(a: seq<TraceLine>, b: seq<TraceLine>, c: seq<TraceLine>)
    ensures (a + b) + c == a + (b + c)
  {
  }

  lemma AppendShift(a: seq<LabelMeta>, l: LabelMeta, b: seq<LabelMeta>)
    ensures (a + [l]) + b == a + ([l] + b)
  {
  }

  /** `unwind_start_level`: the indent of the first popped label. */
  function UnwindLevel(u: Unwound): Option<nat>
  {
    if |u.ended| > 0 then Some(u.ended[0].indent) else None
  }

  datatype StepResult = StepResult(stack: seq<LabelMeta>, lines: seq<TraceLine>)

  /** The stack with a USERSPACE_ALL label on top removed. */
  function WithoutUserspace(s: seq<LabelMeta>): seq<LabelMeta>
  {
    if |s| > 0 && Top(s).name == USERSPACE_ALL then s[..|s| - 1] else s
  }

  /** One known instruction, once a USERSPACE_ALL top has been ended. */
  function StepInstr(s: seq<LabelMeta>, instr: Instr, token: Token): StepResult
  {
    var fnName := instr.functionName;
    var cycle := token.cycleCount;
    if |s| > 0 && Top(s).name == fnName then
      StepResult(Touched(s, cycle), [])
    else if |s| > 0 && instr.inAsmSequence && Top(s).asmSequence then
      var l := NewLabel(fnName, cycle, |s|, instr.inAsmSequence);
      StepResult(s[..|s| - 1] + [l], [EndLine(Top(s)), StartLine(l)])
    else if |s| > 0 && (instr.isCallsite || !instr.isFnEntry) then
      var u := Unwind(s, Some(fnName), cycle);
      var warn := if |u.rest| == 0
        then [WarnLines(fnName, token.iaddr, instr.isCallsite, instr.isFnEntry, UnwindLevel(u))]
        else [];
      StepResult(u.rest, Ends(u.ended) + warn)
    else
      var l := NewLabel(fnName, cycle, |s| + 1, instr.inAsmSequence);
      StepResult(s + [l], [StartLine(l)])
  }

  /** `addInstruction` on a stack: the new stack and the lines written. */
  function Step(s: seq<LabelMeta>, token: Token): StepResult
  {
    var cycle := token.cycleCount;
    match token.instrMeta
    case None =>
      if |s| == 1 && s[0].name == USERSPACE_ALL then StepResult(Touched(s, cycle), [])
      else
        var u := Unwind(s, None, cycle);
        var l := NewLabel(USERSPACE_ALL, cycle, |u.rest| + 1, false);
        StepResult(u.rest + [l], Ends(u.ended) + [StartLine(l)])
    case Some(instr) =>
      if |s| > 0 && Top(s).name == USERSPACE_ALL then
        var r := StepInstr(s[..|s| - 1], instr, token);
        StepResult(r.stack, [EndLine(Top(s))] + r.lines)
      else StepInstr(s, instr, token)
  }

  // ---------------------------------------------------------------------
  // Lemmas about the specification
  // ---------------------------------------------------------------------

  /** Unwinding pops at most the whole stack, stops at the first label named
      `target` and empties the stack when there is no target. */
  lemma {:induction false} UnwindStops(s: seq<LabelMeta>, target: Option<string>, cycle: u64)
    ensures var u := Unwind(s, target, cycle);
      && |u.rest| + |u.ended| == |s|
      && (target.None? ==> u.rest == [])
      && (target.Some? && |u.rest| > 0 ==> Top(u.rest).name == target.value)
      && (target.Some? ==> forall i :: 0 <= i < |u.ended| ==> u.ended[i].name != target.value)
    decreases |s|
  {
    if |s| == 0 || (target.Some? && Top(s).name == target.value) {
    } else {
      var below := s[..|s| - 1];
      var b := if |below| > 0 then Touched(below, cycle) else below;
      UnwindStops(b, target, cycle);
      var u', u := Unwind(b, target, cycle), Unwind(s, target, cycle);
      assert u.ended == [Top(s)] + u'.ended;
    }
  }

  /** What is left after unwinding is the bottom of the stack, its top with
      `end_cycle = cycle` when anything was popped. */
  lemma {:induction false} UnwindKeepsBottom(s: seq<LabelMeta>, target: Option<string>, cycle: u64)
    ensures var u := Unwind(s, target, cycle);
      && |u.rest| <= |s|
      && (u.ended == [] ==> u.rest == s)
      && (forall i :: 0 <= i < |u.rest| - 1 ==> u.rest[i] == s[i])
      && (|u.rest| > 0 && u.ended != [] ==> Top(u.rest) == s[|u.rest| - 1].(endCycle := cycle))
    decreases |s|
  {
    if |s| == 0 || (target.Some? && Top(s).name == target.value) {
    } else {
      var below := s[..|s| - 1];
      var b := if |below| > 0 then Touched(below, cycle) else below;
      UnwindKeepsBottom(b, target, cycle);
    }
  }

  /** The labels popped are the top of the stack, in order, the first as it
      was and the others with `end_cycle = cycle`. */
  lemma {:induction false} UnwindEnds(s: seq<LabelMeta>, target: Option<string>, cycle: u64)
    ensures var u := Unwind(s, target, cycle);
      && |u.ended| <= |s|
      && (forall i :: 0 <= i < |u.ended| ==>
            u.ended[i] == if i == 0 then s[|s| - 1] else s[|s| - 1 - i].(endCycle := cycle))
    decreases |s|
  {
    if |s| == 0 || (target.Some? && Top(s).name == target.value) {
    } else {
      var below := s[..|s| - 1];
      var b := if |below| > 0 then Touched(below, cycle) else below;
      UnwindEnds(b, target, cycle);
      var u', u := Unwind(b, target, cycle), Unwind(s, target, cycle);
      assert u.ended == [Top(s)] + u'.ended;
      forall i | 0 < i < |u.ended|
        ensures u.ended[i] == s[|s| - 1 - i].(endCycle := cycle)
      {
        assert u.ended[i] == u'.ended[i - 1];
        if i == 1 {
          assert b[|b| - 1] == s[|s| - 2].(endCycle := cycle);
        } else {
          assert b[|s| - 1 - i] == s[|s| - 1 - i];
        }
      }
    }
  }

  lemma UnwindShape(s: seq<LabelMeta>, target: Option<string>, cycle: u64)
    ensures var u := Unwind(s, target, cycle);
      && |u.rest| + |u.ended| == |s|
      && (forall i :: 0 <= i < |u.rest| - 1 ==> u.rest[i] == s[i])
      && (|u.rest| > 0 && u.ended != [] ==> Top(u.rest) == s[|u.rest| - 1].(endCycle := cycle))
      && (u.ended == [] ==> u.rest == s)
      && (forall i :: 0 <= i < |u.ended| ==>
            u.ended[i] == if i == 0 then s[|s| - 1] else s[|s| - 1 - i].(endCycle := cycle))
      && (target.None? ==> u.rest == [])
      && (target.Some? && |u.rest| > 0 ==> Top(u.rest).name == target.value)
      && (target.Some? ==> forall i :: 0 <= i < |u.ended| ==> u.ended[i].name != target.value)
  {
    UnwindStops(s, target, cycle);
    UnwindKeepsBottom(s, target, cycle);
    UnwindEnds(s, target, cycle);
  }

  lemma FramesIgnoreEndCycle(s: seq<LabelMeta>, cycle: u64)
    requires |s| > 0
    ensures Frames(Touched(s, cycle)) == Frames(s)
  {
  }

  /** The End lines of an unwind close, innermost first, exactly the labels
      it pops. */
  lemma {:induction false} UnwindNests(s: seq<LabelMeta>, target: Option<string>, cycle: u64)
    ensures var u := Unwind(s, target, cycle);
      Replay(Ends(u.ended), Frames(s)) == Some(Frames(u.rest))
    decreases |s|
  {
    var u := Unwind(s, target, cycle);
    if |s| == 0 || (target.Some? && Top(s).name == target.value) {
      assert Ends(u.ended) == [];
    } else {
      var below := s[..|s| - 1];
      var b := if |below| > 0 then Touched(below, cycle) else below;
      UnwindNests(b, target, cycle);
      var u' := Unwind(b, target, cycle);
      UnwindPop(s, target, cycle);
      EndsCons(Top(s), u'.ended);
      var lines := Ends(u.ended);
      assert lines[1..] == Ends(u'.ended);
      assert Frames(s)[..|s| - 1] == Frames(below);
      ReplayEnd(Top(s), lines, Frames(s));
      if |below| > 0 {
        FramesIgnoreEndCycle(below, cycle);
      }
    }
  }

  lemma EndsCons(l: LabelMeta, ls: seq<LabelMeta>)
    ensures Ends([l] + ls) == [EndLine(l)] + Ends(ls)
  {
  }

  /** An End line closing the innermost open label. */
  lemma ReplayEnd(l: LabelMeta, lines: seq<TraceLine>, open: seq<Frame>)
    requires |lines| > 0 && lines[0] == EndLine(l)
    requires |open| > 0 && open[|open| - 1] == FrameOf(l)
    ensures Replay(lines, open) == Replay(lines[1..], open[..|open| - 1])
  {
  }

  /** Replaying a trace in two parts is replaying it at once. */
  lemma {:induction false} ReplayAppend(a: seq<TraceLine>, b: seq<TraceLine>, open: seq<Frame>)
    ensures Replay(a + b, open) ==
      match Replay(a, open)
      case None => None
      case Some(mid) => Replay(b, mid)
    decreases |a|
  {
    if a == [] {
      assert a + b == b;
    } else {
      assert (a + b)[1..] == a[1..] + b;
      match a[0]
      case StartLine(l) => ReplayAppend(a[1..], b, open + [FrameOf(l)]);
      case EndLine(l) =>
        if |open| > 0 {
          ReplayAppend(a[1..], b, open[..|open| - 1]);
        }
      case WarnLines(_, _, _, _, _) => ReplayAppend(a[1..], b, open);
    }
  }

  /** In a well-nested trace, every Start line opens one label and every End
      line closes one. */
  lemma {:induction false} ReplayCounts(lines: seq<TraceLine>, open: seq<Frame>)
    requires Replay(lines, open).Some?
    ensures |Replay(lines, open).value| + CountEnds(lines) == |open| + CountStarts(lines)
    decreases |lines|
  {
    if lines != [] {
      match lines[0]
      case StartLine(l) => ReplayCounts(lines[1..], open + [FrameOf(l)]);
      case EndLine(l) => ReplayCounts(lines[1..], open[..|open| - 1]);
      case WarnLines(_, _, _, _, _) => ReplayCounts(lines[1..], open);
    }
  }

  /** A null instruction record: a lone USERSPACE_ALL label is only extended;
      otherwise every label is popped, top first, and the stack becomes one
      fresh USERSPACE_ALL label at indent 1. */
  lemma StepUnknownInstruction(s: seq<LabelMeta>, token: Token)
    requires token.instrMeta.None?
    ensures var r := Step(s, token); var c := token.cycleCount;
      if |s| == 1 && s[0].name == USERSPACE_ALL then
        r.stack == [s[0].(endCycle := c)] && r.lines == []
      else
        && r.stack == [NewLabel(USERSPACE_ALL, c, 1, false)]
        && |r.lines| == |s| + 1
        && (|s| > 0 ==> r.lines[0] == EndLine(Top(s)))
        && (forall i :: 0 < i < |s| ==> r.lines[i] == EndLine(s[|s| - 1 - i].(endCycle := c)))
        && r.lines[|s|] == StartLine(NewLabel(USERSPACE_ALL, c, 1, false))
  {
    UnwindShape(s, None, token.cycleCount);
  }

  /** A known instruction first ends a USERSPACE_ALL label on top. */
  lemma StepEndsUserspace(s: seq<LabelMeta>, token: Token)
    requires token.instrMeta.Some? && |s| > 0 && Top(s).name == USERSPACE_ALL
    ensures var r := Step(s, token);
      |r.lines| > 0 && r.lines[0] == EndLine(Top(s))
      && r == StepResult(StepInstr(s[..|s| - 1], token.instrMeta.value, token).stack,
                         [EndLine(Top(s))] + StepInstr(s[..|s| - 1], token.instrMeta.value, token).lines)
  {
  }

  /** The same function as on top: only the top's end cycle changes. */
  lemma StepSameFunction(s: seq<LabelMeta>, token: Token)
    requires token.instrMeta.Some?
    requires var s1 := WithoutUserspace(s);
      |s1| > 0 && Top(s1).name == token.instrMeta.value.functionName
    ensures var s1 := WithoutUserspace(s); var r := StepInstr(s1, token.instrMeta.value, token);
      && |r.stack| == |s1| && r.stack[..|s1| - 1] == s1[..|s1| - 1]
      && Top(r.stack) == Top(s1).(endCycle := token.cycleCount)
      && r.lines == []
  {
  }

  /** Two asm sequences in a row: the top is ended and replaced, at the same
      indent, by a label for the new one. */
  lemma StepAsmSequence(s: seq<LabelMeta>, token: Token)
    requires token.instrMeta.Some?
    requires var s1 := WithoutUserspace(s); var i := token.instrMeta.value;
      |s1| > 0 && Top(s1).name != i.functionName && i.inAsmSequence && Top(s1).asmSequence
    ensures var s1 := WithoutUserspace(s); var i := token.instrMeta.value;
      var r := StepInstr(s1, i, token);
      && |r.stack| == |s1| && r.stack[..|s1| - 1] == s1[..|s1| - 1]
      && Top(r.stack) == NewLabel(i.functionName, token.cycleCount, |s1|, true)
      && r.lines == [EndLine(Top(s1)), StartLine(Top(r.stack))]
    ensures WellIndented(s) ==>
      var s1 := WithoutUserspace(s);
      Top(Step(s, token).stack).indent == Top(s1).indent && WellIndented(Step(s, token).stack)
  {
    var s1 := WithoutUserspace(s);
    if WellIndented(s) {
      assert WellIndented(s1);
      assert Top(s1).indent == |s1|;
      StepKeepsIndents(s, token);
    }
  }

  /** The unwinding branch of `StepInstr`, unfolded. */
  lemma StepInstrUnwinds(s: seq<LabelMeta>, i: Instr, token: Token)
    requires |s| > 0 && Top(s).name != i.functionName
    requires !(i.inAsmSequence && Top(s).asmSequence) && (i.isCallsite || !i.isFnEntry)
    ensures var u := Unwind(s, Some(i.functionName), token.cycleCount);
      var warn := if |u.rest| == 0
        then [WarnLines(i.functionName, token.iaddr, i.isCallsite, i.isFnEntry, UnwindLevel(u))]
        else [];
      StepInstr(s, i, token) == StepResult(u.rest, Ends(u.ended) + warn)
  {
  }

  /** A callsite or a non-entry instruction returns into its function: labels
      are popped (and ended) until its function is on top, and nothing is
      pushed; if the function is not on the stack at all the stack empties and
      WARN lines are written. */
  lemma StepReturn(s: seq<LabelMeta>, token: Token)
    requires token.instrMeta.Some?
    requires var s1 := WithoutUserspace(s); var i := token.instrMeta.value;
      && |s1| > 0 && Top(s1).name != i.functionName
      && !(i.inAsmSequence && Top(s1).asmSequence)
      && (i.isCallsite || !i.isFnEntry)
    ensures var s1 := WithoutUserspace(s); var i := token.instrMeta.value;
      var r := StepInstr(s1, i, token); var n := |r.stack|;
      && n < |s1|
      && (forall k :: 0 <= k < n - 1 ==> r.stack[k] == s1[k])
      && (n > 0 ==> Top(r.stack) == s1[n - 1].(endCycle := token.cycleCount)
                    && Top(r.stack).name == i.functionName)
  {
    var s1 := WithoutUserspace(s);
    var i := token.instrMeta.value;
    UnwindShape(s1, Some(i.functionName), token.cycleCount);
    StepInstrUnwinds(s1, i, token);
  }

  /** The labels such a return pops are exactly those above the innermost
      label of its function: none of them belongs to it. */
  lemma StepReturnSkips(s: seq<LabelMeta>, token: Token)
    requires token.instrMeta.Some?
    requires var s1 := WithoutUserspace(s); var i := token.instrMeta.value;
      && |s1| > 0 && Top(s1).name != i.functionName
      && !(i.inAsmSequence && Top(s1).asmSequence)
      && (i.isCallsite || !i.isFnEntry)
    ensures var s1 := WithoutUserspace(s); var i := token.instrMeta.value;
      var r := StepInstr(s1, i, token);
      forall k :: |r.stack| <= k < |s1| ==> s1[k].name != i.functionName
  {
    var s1 := WithoutUserspace(s);
    var i := token.instrMeta.value;
    var u := Unwind(s1, Some(i.functionName), token.cycleCount);
    UnwindShape(s1, Some(i.functionName), token.cycleCount);
    StepInstrUnwinds(s1, i, token);
    forall k | |u.rest| <= k < |s1| ensures s1[k].name != i.functionName {
      var j := |s1| - 1 - k;
      assert u.ended[j].name == s1[k].name;
    }
  }

  /** What such a return writes: End lines and no Start line, closed by the
      WARN lines exactly when the stack emptied. */
  lemma StepReturnLines(s: seq<LabelMeta>, token: Token)
    requires token.instrMeta.Some?
    requires var s1 := WithoutUserspace(s); var i := token.instrMeta.value;
      && |s1| > 0 && Top(s1).name != i.functionName
      && !(i.inAsmSequence && Top(s1).asmSequence)
      && (i.isCallsite || !i.isFnEntry)
    ensures var s1 := WithoutUserspace(s); var i := token.instrMeta.value;
      var r := StepInstr(s1, i, token);
      && CountStarts(r.lines) == 0
      && (|r.stack| == 0 <==> r.lines[|r.lines| - 1].WarnLines?)
  {
    var s1 := WithoutUserspace(s);
    var i := token.instrMeta.value;
    var u := Unwind(s1, Some(i.functionName), token.cycleCount);
    UnwindShape(s1, Some(i.functionName), token.cycleCount);
    StepInstrUnwinds(s1, i, token);
    var warn := if |u.rest| == 0 then [WarnLines(i.functionName, token.iaddr, i.isCallsite, i.isFnEntry, UnwindLevel(u))] else [];
    NoStartsInEnds(u.ended);
    CountStartsAppend(Ends(u.ended), warn);
  }

  /** Otherwise a label for the instruction's function is pushed one deeper. */
  lemma StepCall(s: seq<LabelMeta>, token: Token)
    requires token.instrMeta.Some?
    requires var s1 := WithoutUserspace(s); var i := token.instrMeta.value;
      !(|s1| > 0 && (Top(s1).name == i.functionName || (i.inAsmSequence && Top(s1).asmSequence)
                     || i.isCallsite || !i.isFnEntry))
    ensures var s1 := WithoutUserspace(s); var i := token.instrMeta.value;
      var l := NewLabel(i.functionName, token.cycleCount, |s1| + 1, i.inAsmSequence);
      StepInstr(s1, i, token) == StepResult(s1 + [l], [StartLine(l)])
  {
  }

  lemma {:induction false} NoStartsInEnds(ls: seq<LabelMeta>)
    ensures CountStarts(Ends(ls)) == 0
    decreases |ls|
  {
    if ls != [] {
      assert Ends(ls)[1..] == Ends(ls[1..]);
      NoStartsInEnds(ls[1..]);
    }
  }

  lemma {:induction false} CountStartsAppend(a: seq<TraceLine>, b: seq<TraceLine>)
    ensures CountStarts(a + b) == CountStarts(a) + CountStarts(b)
    decreases |a|
  {
    if a == [] {
      assert a + b == b;
    } else {
      assert (a + b)[1..] == a[1..] + b;
      CountStartsAppend(a[1..], b);
    }
  }

  lemma StepInstrKeepsIndents(s: seq<LabelMeta>, instr: Instr, token: Token)
    requires WellIndented(s)
    ensures WellIndented(StepInstr(s, instr, token).stack)
  {
    if |s| > 0 && Top(s).name == instr.functionName {
    } else if |s| > 0 && instr.inAsmSequence && Top(s).asmSequence {
    } else if |s| > 0 && (instr.isCallsite || !instr.isFnEntry) {
      var u := Unwind(s, Some(instr.functionName), token.cycleCount);
      UnwindShape(s, Some(instr.functionName), token.cycleCount);
      StepInstrUnwinds(s, instr, token);
      forall k | 0 <= k < |u.rest| ensures u.rest[k].indent == k + 1 {
        if k < |u.rest| - 1 {
          assert u.rest[k] == s[k];
        } else {
          assert u.rest[k] == s[k].(endCycle := token.cycleCount);
        }
      }
    }
  }

  /** Every branch keeps each label's indent equal to its stack position. */
  lemma StepKeepsIndents(s: seq<LabelMeta>, token: Token)
    requires WellIndented(s)
    ensures WellIndented(Step(s, token).stack)
  {
    match token.instrMeta
    case None =>
      UnwindShape(s, None, token.cycleCount);
    case Some(instr) =>
      if |s| > 0 && Top(s).name == USERSPACE_ALL {
        StepInstrKeepsIndents(s[..|s| - 1], instr, token);
      } else {
        StepInstrKeepsIndents(s, instr, token);
      }
  }

  lemma StepInstrNests(s: seq<LabelMeta>, instr: Instr, token: Token)
    requires WellIndented(s)
    ensures var r := StepInstr(s, instr, token); Replay(r.lines, Frames(s)) == Some(Frames(r.stack))
  {
    var r := StepInstr(s, instr, token);
    var cycle := token.cycleCount;
    if |s| > 0 && Top(s).name == instr.functionName {
      FramesIgnoreEndCycle(s, cycle);
    } else if |s| > 0 && instr.inAsmSequence && Top(s).asmSequence {
      var l := NewLabel(instr.functionName, cycle, |s|, instr.inAsmSequence);
      assert Frames(s)[..|s| - 1] == Frames(s[..|s| - 1]);
      assert r.lines[1..] == [StartLine(l)];
      assert r.lines[1..][1..] == [];
      assert Replay(r.lines, Frames(s)) == Replay(r.lines[1..], Frames(s[..|s| - 1]));
      assert Replay(r.lines[1..], Frames(s[..|s| - 1])) == Replay([], Frames(s[..|s| - 1]) + [FrameOf(l)]);
      assert Frames(s[..|s| - 1]) + [FrameOf(l)] == Frames(r.stack);
    } else if |s| > 0 && (instr.isCallsite || !instr.isFnEntry) {
      var u := Unwind(s, Some(instr.functionName), cycle);
      UnwindNests(s, Some(instr.functionName), cycle);
      var warn := if |u.rest| == 0
        then [WarnLines(instr.functionName, token.iaddr, instr.isCallsite, instr.isFnEntry, UnwindLevel(u))]
        else [];
      ReplayAppend(Ends(u.ended), warn, Frames(s));
    } else {
      var l := NewLabel(instr.functionName, cycle, |s| + 1, instr.inAsmSequence);
      assert Frames(s) + [FrameOf(l)] == Frames(r.stack);
    }
  }

  /** Every step writes a well-nested piece of trace: read from the labels
      open before it, its lines leave exactly the new stack open. */
  lemma StepNests(s: seq<LabelMeta>, token: Token)
    requires WellIndented(s)
    ensures var r := Step(s, token); Replay(r.lines, Frames(s)) == Some(Frames(r.stack))
  {
    var r := Step(s, token);
    var cycle := token.cycleCount;
    match token.instrMeta
    case None =>
      if |s| == 1 && s[0].name == USERSPACE_ALL {
        FramesIgnoreEndCycle(s, cycle);
      } else {
        var u := Unwind(s, None, cycle);
        UnwindShape(s, None, cycle);
        UnwindNests(s, None, cycle);
        var l := NewLabel(USERSPACE_ALL, cycle, 1, false);
        ReplayAppend(Ends(u.ended), [StartLine(l)], Frames(s));
        assert r == StepResult([l], Ends(u.ended) + [StartLine(l)]);
        var none: seq<Frame> := [];
        assert [StartLine(l)][1..] == [];
        assert none + [FrameOf(l)] == [FrameOf(l)];
        assert Frames(u.rest) == none;
        assert Replay([StartLine(l)], none) == Replay([], [FrameOf(l)]);
        assert Frames(r.stack) == [FrameOf(l)];
      }
    case Some(instr) =>
      if |s| > 0 && Top(s).name == USERSPACE_ALL {
        var s1 := s[..|s| - 1];
        StepInstrNests(s1, instr, token);
        assert Frames(s)[..|s| - 1] == Frames(s1);
        assert r.lines[1..] == StepInstr(s1, instr, token).lines;
      } else {
        assert r == StepInstr(s, instr, token);
        StepInstrNests(s, instr, token);
      }
  }

  /** The tracker's invariant survives every step. */
  lemma StepKeepsValid(s: seq<LabelMeta>, trace: seq<TraceLine>, token: Token)
    requires WellIndented(s) && Replay(trace, []) == Some(Frames(s))
    ensures var r := Step(s, token);
      WellIndented(r.stack) && Replay(trace + r.lines, []) == Some(Frames(r.stack))
  {
    StepKeepsIndents(s, token);
    StepNests(s, token);
    ReplayAppend(trace, Step(s, token).lines, []);
  }

  // ---------------------------------------------------------------------
  // The tracker object
  // ---------------------------------------------------------------------

  /** `TraceTracker`: its label stack, the lines written to its trace file,
      and the last known instruction. */
  class TraceTracker {
    var labelStack: seq<LabelMeta>
    var tracefile: seq<TraceLine>
    var lastInstr: Option<Instr>

    /** Indents match positions, and the file written so far is a
        well-nested trace whose open labels are exactly the stack. */
    ghost predicate Valid()
      reads this
    {
      WellIndented(labelStack) && Replay(tracefile, []) == Some(Frames(labelStack))
    }

    /** A tracker writing to a freshly opened file. `last_instr` is left
        uninitialised by the source; here it is absent. */
    constructor ()
      ensures Valid()
      ensures labelStack == [] && tracefile == [] && lastInstr == None
    {
      labelStack := [];
      tracefile := [];
      lastInstr := None;
    }

    method PopLabel() returns (popped: LabelMeta)
      requires |labelStack| > 0
      modifies this`labelStack, this`tracefile
      ensures popped == Top(old(labelStack)) && labelStack == old(labelStack)[..|old(labelStack)| - 1]
      ensures tracefile == old(tracefile) + [EndLine(popped)]
      ensures lastInstr == old(lastInstr)
    {
      popped := labelStack[|labelStack| - 1];
      labelStack := labelStack[..|labelStack| - 1];
      tracefile := tracefile + [EndLine(popped)];
    }

    method PushLabel(l: LabelMeta)
      modifies this`labelStack, this`tracefile
      ensures labelStack == old(labelStack) + [l]
      ensures tracefile == old(tracefile) + [StartLine(l)]
      ensures lastInstr == old(lastInstr)
    {
      labelStack := labelStack + [l];
      tracefile := tracefile + [StartLine(l)];
    }

    /** The pop loops of the source: until the top is named `target`, or
        until the stack is empty when there is none. */
    method UnwindTo(target: Option<string>, cycle: u64) returns (unwindStartLevel: Option<nat>)
      modifies this`labelStack, this`tracefile
      ensures var u := Unwind(old(labelStack), target, cycle);
        labelStack == u.rest && tracefile == old(tracefile) + Ends(u.ended)
        && unwindStartLevel == UnwindLevel(u)
      ensures lastInstr == old(lastInstr)
    {
      ghost var u0 := Unwind(labelStack, target, cycle);
      ghost var t0 := tracefile;
      ghost var popped: seq<LabelMeta> := [];
      unwindStartLevel := None;
      while |labelStack| > 0 && (target.None? || Top(labelStack).name != target.value)
        invariant Unwind(labelStack, target, cycle).rest == u0.rest
        invariant u0.ended == popped + Unwind(labelStack, target, cycle).ended
        invariant tracefile == t0 + Ends(popped)
        invariant unwindStartLevel == if |popped| > 0 then Some(popped[0].indent) else None
        decreases |labelStack|
      {
        ghost var before, p0 := labelStack, popped;
        var popLabel := PopLabel();
        EndsSnoc(popped, popLabel);
        LinesAssoc(t0, Ends(p0), [EndLine(popLabel)]);
        popped := popped + [popLabel];
        if unwindStartLevel.None? {
          unwindStartLevel := Some(popLabel.indent);
        }
        if |labelStack| > 0 {
          labelStack := Touched(labelStack, cycle);
        }
        UnwindLoopStep(u0, p0, before, target, cycle);
      }
      assert UnwindLevel(u0) == unwindStartLevel by {
        if |popped| > 0 {
          assert u0.ended[0] == popped[0];
        }
      }
    }

    /** The part of `addInstruction` for a known instruction, once a
        USERSPACE_ALL label on top has been ended. */
    method AddKnownInstruction(thisInstr: Instr, token: Token)
      modifies this
      ensures labelStack == StepInstr(old(labelStack), thisInstr, token).stack
      ensures tracefile == old(tracefile) + StepInstr(old(labelStack), thisInstr, token).lines
      ensures lastInstr == old(lastInstr)
    {
      var fnName := thisInstr.functionName;
      var cycle := token.cycleCount;
      if |labelStack| > 0 && labelStack[|labelStack| - 1].name == fnName {
        labelStack := labelStack[|labelStack| - 1 := labelStack[|labelStack| - 1].(endCycle := cycle)];
      } else if |labelStack| > 0 && thisInstr.inAsmSequence && labelStack[|labelStack| - 1].asmSequence {
        var _ := PopLabel();
        var newLabel := NewLabel(fnName, cycle, |labelStack| + 1, thisInstr.inAsmSequence);
        PushLabel(newLabel);
      } else if |labelStack| > 0 && (thisInstr.isCallsite || !thisInstr.isFnEntry) {
        var unwindStartLevel := UnwindTo(Some(fnName), cycle);
        if |labelStack| == 0 {
          tracefile := tracefile + [WarnLines(fnName, token.iaddr, thisInstr.isCallsite,
                                              thisInstr.isFnEntry, unwindStartLevel)];
        }
      } else {
        var newLabel := NewLabel(fnName, cycle, |labelStack| + 1, thisInstr.inAsmSequence);
        PushLabel(newLabel);
      }
    }

    /** The part of `addInstruction` for an instruction with no record:
        everything collapses into one USERSPACE_ALL label. */
    method AddUnknownInstruction(token: Token)
      requires token.instrMeta.None?
      modifies this
      ensures labelStack == Step(old(labelStack), token).stack
      ensures tracefile == old(tracefile) + Step(old(labelStack), token).lines
      ensures lastInstr == old(lastInstr)
    {
      var cycle := token.cycleCount;
      if |labelStack| == 1 && labelStack[0].name == USERSPACE_ALL {
        labelStack := labelStack[0 := labelStack[0].(endCycle := cycle)];
      } else {
        var _ := UnwindTo(None, cycle);
        var newLabel := NewLabel(USERSPACE_ALL, cycle, |labelStack| + 1, false);
        PushLabel(newLabel);
      }
    }

    /** `addInstruction`: move the stack along by one retired instruction. */
    method AddInstruction(token: Token)
      requires Valid()
      modifies this
      ensures Valid()
      ensures labelStack == Step(old(labelStack), token).stack
      ensures tracefile == old(tracefile) + Step(old(labelStack), token).lines
      ensures lastInstr == if token.instrMeta.Some? then token.instrMeta else old(lastInstr)
    {
      ghost var s0, t0 := labelStack, tracefile;
      if token.instrMeta.None? {
        AddUnknownInstruction(token);
      } else {
        var thisInstr := token.instrMeta.value;
        ghost var ended: seq<TraceLine> := [];
        if |labelStack| > 0 && labelStack[|labelStack| - 1].name == USERSPACE_ALL {
          var popped := PopLabel();
          ended := [EndLine(popped)];
        }
        ghost var s1 := labelStack;
        assert s1 == WithoutUserspace(s0) && tracefile == t0 + ended;
        AddKnownInstruction(thisInstr, token);
        ghost var r := StepInstr(s1, thisInstr, token);
        assert Step(s0, token) == StepResult(r.stack, ended + r.lines);
        LinesAssoc(t0, ended, r.lines);
        assert tracefile == t0 + Step(s0, token).lines;
        lastInstr := Some(thisInstr);
      }
      assert labelStack == Step(s0, token).stack && tracefile == t0 + Step(s0, token).lines;
      StepKeepsValid(s0, t0, token);
    }
  }
}
