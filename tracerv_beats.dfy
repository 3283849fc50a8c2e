/** The raw side of the TracerV bridge (tracerv.cc): turning the 512-bit
    beats pulled from the FPGA stream into retired-instruction tokens, and
    splitting the 64-bit trigger settings into the 32-bit halves the bridge
    registers take. */
module Beats {
  import opened Words
  import opened Wrappers
  import opened TraceTypes

  /** Eight 64-bit words make one beat of the stream. */
  const WORDS_PER_BEAT: nat := 8

  /** Beat `i` of a stream of whole beats. */
  function Beat(w: seq<u64>, i: nat): (b: seq<u64>)
    requires |w| % WORDS_PER_BEAT == 0 && i < |w| / WORDS_PER_BEAT
    ensures |b| == WORDS_PER_BEAT
    ensures forall k :: 0 <= k < WORDS_PER_BEAT ==> b[k] == w[WORDS_PER_BEAT * i + k]
  {
    w[WORDS_PER_BEAT * i..WORDS_PER_BEAT * i + WORDS_PER_BEAT]
  }

  /** The beat carries a retired instruction: bit 40 (`valid_mask`) of word 1. */
  predicate BeatValid(b: seq<u64>)
    requires |b| == WORDS_PER_BEAT
  {
    Bit40(b[1])
  }

  /** The token built from a valid beat in the userspace FirePerf path. The
      matching fields, left uninitialised by the bridge, start absent / 0. */
  function BeatToken(b: seq<u64>): (t: Token)
    requires |b| == WORDS_PER_BEAT
    ensures t.cycleCount == b[0] && t.inst == b[2] && t.satp == b[3]
    ensures t.priv == b[4] % TWO_8
    ensures t.iaddr % TWO_40 == b[1] % TWO_40
    ensures Signed64(t.iaddr) == Signed40(b[1] % TWO_40)
    ensures t.bin.None? && t.instrMeta.None? && t.pageBase == 0
  {
    Token(b[0], SignExtend40(b[1]), b[2], b[3], b[4] % TWO_8, None, None, 0)
  }

  /** The token of one beat: one if it is valid, none otherwise. */
  function BeatTokens(b: seq<u64>): (ts: seq<Token>)
    requires |b| == WORDS_PER_BEAT
    ensures |ts| <= 1
  {
    if BeatValid(b) then [BeatToken(b)] else []
  }

  /** The tokens `process_tokens` hands to the matcher, in stream order: one
      per valid beat, none for the others. */
  function DecodeBeats(w: seq<u64>): (ts: seq<Token>)
    requires |w| % WORDS_PER_BEAT == 0
    ensures |ts| <= |w| / WORDS_PER_BEAT
    decreases |w|
  {
    if |w| == 0 then []
    else
      var b := w[|w| - WORDS_PER_BEAT..];
      DecodeBeats(w[..|w| - WORDS_PER_BEAT]) + BeatTokens(b)
  }

  /** Every decoded token comes from a valid beat, and every valid beat
      yields its token. */
  lemma {:induction false} DecodeBeatsExact(w: seq<u64>)
    requires |w| % WORDS_PER_BEAT == 0
    ensures forall t :: t in DecodeBeats(w) ==>
      exists i :: 0 <= i < |w| / WORDS_PER_BEAT && BeatValid(Beat(w, i)) && t == BeatToken(Beat(w, i))
    ensures forall i :: 0 <= i < |w| / WORDS_PER_BEAT && BeatValid(Beat(w, i)) ==>
      BeatToken(Beat(w, i)) in DecodeBeats(w)
    decreases |w|
  {
    if |w| > 0 {
      var n := |w| / WORDS_PER_BEAT;
      var w' := w[..|w| - WORDS_PER_BEAT];
      DecodeBeatsExact(w');
      assert |w'| / WORDS_PER_BEAT == n - 1;
      assert Beat(w, n - 1) == w[|w| - WORDS_PER_BEAT..];
      forall i | 0 <= i < n - 1
        ensures Beat(w', i) == Beat(w, i)
      {
      }
    }
  }

  /** Decoding a stream piece by piece gives the same tokens as decoding it
      at once, so tokens keep stream order across batches. */
  lemma {:induction false} DecodeBeatsAppend(a: seq<u64>, b: seq<u64>)
    requires |a| % WORDS_PER_BEAT == 0 && |b| % WORDS_PER_BEAT == 0
    ensures DecodeBeats(a + b) == DecodeBeats(a) + DecodeBeats(b)
    decreases |b|
  {
    if |b| == 0 {
      assert a + b == a;
    } else {
      LastBeat(|b|);
      var k := |b| - WORDS_PER_BEAT;
      var ab := a + b;
      assert ab[..|ab| - WORDS_PER_BEAT] == a + b[..k];
      assert ab[|ab| - WORDS_PER_BEAT..] == b[k..];
      DecodeBeatsUnfold(ab);
      DecodeBeatsUnfold(b);
      DecodeBeatsAppend(a, b[..k]);
      TokensAssoc(DecodeBeats(a), DecodeBeats(b[..k]), BeatTokens(b[k..]));
    }
  }

  lemma DecodeBeatsUnfold(w: seq<u64>)
    requires |w| % WORDS_PER_BEAT == 0 && |w| > 0
    ensures |w| >= WORDS_PER_BEAT && (|w| - WORDS_PER_BEAT) % WORDS_PER_BEAT == 0
    ensures DecodeBeats(w) == DecodeBeats(w[..|w| - WORDS_PER_BEAT]) + BeatTokens(w[|w| - WORDS_PER_BEAT..])
  {
    LastBeat(|w|);
  }

  /** A non-empty stream of whole beats ends in a whole beat. */
  lemma LastBeat(n: nat)
    requires n % WORDS_PER_BEAT == 0 && n > 0
    ensures n >= WORDS_PER_BEAT && (n - WORDS_PER_BEAT) % WORDS_PER_BEAT == 0
  {
    var q := n / WORDS_PER_BEAT;
    assert n == WORDS_PER_BEAT * q;
  }

  /** A beat that starts inside a stream of whole beats ends inside it. */
  lemma NextBeatFits(n: nat, i: nat)
    requires n % WORDS_PER_BEAT == 0 && i % WORDS_PER_BEAT == 0 && i < n
    ensures i + WORDS_PER_BEAT <= n
  {
    var q, p := n / WORDS_PER_BEAT, i / WORDS_PER_BEAT;
    assert n == WORDS_PER_BEAT * q && i == WORDS_PER_BEAT * p;
  }

  /** Decoding one more beat of a stream adds that beat's token, if any. */
  lemma DecodeBeatsSnoc(w: seq<u64>, i: nat)
    requires i % WORDS_PER_BEAT == 0 && i + WORDS_PER_BEAT <= |w|
    ensures var b := w[i..i + WORDS_PER_BEAT];
      DecodeBeats(w[..i + WORDS_PER_BEAT]) ==
        DecodeBeats(w[..i]) + BeatTokens(b)
  {
    var v := w[..i + WORDS_PER_BEAT];
    assert v[..|v| - WORDS_PER_BEAT] == w[..i];
    assert v[|v| - WORDS_PER_BEAT..] == w[i..i + WORDS_PER_BEAT];
  }

  /** The loop step of `process_tokens`: the next beat lies inside the
      stream, and the tokens so far grow by that beat's token, if any. */
  lemma DecodeNextBeat(before: seq<Token>, w: seq<u64>, i: nat)
    requires |w| % WORDS_PER_BEAT == 0 && i % WORDS_PER_BEAT == 0 && i < |w|
    ensures i + WORDS_PER_BEAT <= |w| && (i + WORDS_PER_BEAT) % WORDS_PER_BEAT == 0
    ensures var b := w[i..i + WORDS_PER_BEAT];
      before + DecodeBeats(w[..i + WORDS_PER_BEAT]) ==
        (before + DecodeBeats(w[..i])) + BeatTokens(b)
  {
    NextBeatFits(|w|, i);
    DecodeBeatsSnoc(w, i);
  }

  lemma TokensAssoc(a: seq<Token>, b: seq<Token>, c: seq<Token>)
    ensures (a + b) + c == a + (b + c)
  {
  }

  // ---------------------------------------------------------------------
  // Trigger settings
  // ---------------------------------------------------------------------

  /** What the bridge configures its trigger with; `selector` picks cycle
      bounds (1), PC bounds (2), instruction patterns (3) or none. */
  datatype Trigger = Trigger(
    selector: u32,
    cycleStart: u64,
    cycleEnd: u64,
    startInsn: u32,
    startInsnMask: u32,
    stopInsn: u32,
    stopInsnMask: u32,
    startPc: u64,
    stopPc: u64)

  /** The settings before any argument is read. */
  function DefaultTrigger(): (t: Trigger)
    ensures t.selector == 0 && t.cycleStart == 0 && t.cycleEnd == TWO_64 - 1
  {
    Trigger(0, 0, TWO_64 - 1, 0, 0, 0, 0, 0, 0)
  }

  /** `+trace-start=`: the decimal reading (already converted to local
      cycles) is the start cycle; the hex reading is at once the start PC
      and a 32-bit instruction (low half) with its mask (high half). */
  function WithTraceStart(t: Trigger, cycles: u64, hex: u64): (r: Trigger)
    ensures r.startInsnMask * TWO_32 + r.startInsn == hex == r.startPc
    ensures r.cycleStart == cycles
    ensures r == t.(cycleStart := r.cycleStart, startInsn := r.startInsn,
                    startInsnMask := r.startInsnMask, startPc := r.startPc)
  {
    SplitJoin(hex);
    t.(cycleStart := cycles, startInsn := Low32(hex), startInsnMask := High32(hex), startPc := hex)
  }

  /** `+trace-end=`: the same split for the stop condition. */
  function WithTraceEnd(t: Trigger, cycles: u64, hex: u64): (r: Trigger)
    ensures r.stopInsnMask * TWO_32 + r.stopInsn == hex == r.stopPc
    ensures r.cycleEnd == cycles
    ensures r == t.(cycleEnd := r.cycleEnd, stopInsn := r.stopInsn,
                    stopInsnMask := r.stopInsnMask, stopPc := r.stopPc)
  {
    SplitJoin(hex);
    t.(cycleEnd := cycles, stopInsn := Low32(hex), stopInsnMask := High32(hex), stopPc := hex)
  }

  /** The bridge registers `init` writes for the trigger, in write order. */
  datatype Register =
    | TriggerSelector
    | CycleCountStartHigh | CycleCountStartLow
    | CycleCountEndHigh | CycleCountEndLow
    | PCStartHigh | PCStartLow
    | PCEndHigh | PCEndLow
    | StartInst | StartInstMask
    | EndInst | EndInstMask

  datatype Write = Write(reg: Register, value: u64)

  /** The trigger part of `init`: the selector, then the register pairs of
      the selected kind; any other selector writes only itself. */
  function TriggerWrites(t: Trigger): (ws: seq<Write>)
    ensures |ws| > 0 && ws[0] == Write(TriggerSelector, t.selector)
    ensures t.selector !in {1, 2, 3} ==> |ws| == 1
  {
    [Write(TriggerSelector, t.selector)] +
    if t.selector == 1 then
      [Write(CycleCountStartHigh, High32(t.cycleStart)), Write(CycleCountStartLow, Low32(t.cycleStart)),
       Write(CycleCountEndHigh, High32(t.cycleEnd)), Write(CycleCountEndLow, Low32(t.cycleEnd))]
    else if t.selector == 2 then
      [Write(PCStartHigh, High32(t.startPc)), Write(PCStartLow, Low32(t.startPc)),
       Write(PCEndHigh, High32(t.stopPc)), Write(PCEndLow, Low32(t.stopPc))]
    else if t.selector == 3 then
      [Write(StartInst, t.startInsn), Write(StartInstMask, t.startInsnMask),
       Write(EndInst, t.stopInsn), Write(EndInstMask, t.stopInsnMask)]
    else []
  }

  /** The high/low register pairs carry the 64-bit bounds exactly: the
      hardware rebuilds the configured cycles and PCs from them. */
  lemma TriggerWritesRebuild(t: Trigger)
    ensures t.selector == 1 ==>
              |TriggerWrites(t)| == 5 &&
              TriggerWrites(t)[1].reg == CycleCountStartHigh && TriggerWrites(t)[2].reg == CycleCountStartLow &&
              TriggerWrites(t)[3].reg == CycleCountEndHigh && TriggerWrites(t)[4].reg == CycleCountEndLow &&
              TriggerWrites(t)[1].value * TWO_32 + TriggerWrites(t)[2].value == t.cycleStart &&
              TriggerWrites(t)[3].value * TWO_32 + TriggerWrites(t)[4].value == t.cycleEnd
    ensures t.selector == 2 ==>
              |TriggerWrites(t)| == 5 &&
              TriggerWrites(t)[1].reg == PCStartHigh && TriggerWrites(t)[2].reg == PCStartLow &&
              TriggerWrites(t)[3].reg == PCEndHigh && TriggerWrites(t)[4].reg == PCEndLow &&
              TriggerWrites(t)[1].value * TWO_32 + TriggerWrites(t)[2].value == t.startPc &&
              TriggerWrites(t)[3].value * TWO_32 + TriggerWrites(t)[4].value == t.stopPc
    ensures t.selector == 3 ==>
              |TriggerWrites(t)| == 5 &&
              TriggerWrites(t)[1].reg == StartInst && TriggerWrites(t)[2].reg == StartInstMask &&
              TriggerWrites(t)[3].reg == EndInst && TriggerWrites(t)[4].reg == EndInstMask &&
              TriggerWrites(t)[2].value * TWO_32 + TriggerWrites(t)[1].value ==
                t.startInsnMask * TWO_32 + t.startInsn &&
              TriggerWrites(t)[4].value * TWO_32 + TriggerWrites(t)[3].value ==
                t.stopInsnMask * TWO_32 + t.stopInsn
  {
    SplitJoin(t.cycleStart);
    SplitJoin(t.cycleEnd);
    SplitJoin(t.startPc);
    SplitJoin(t.stopPc);
  }
}
