# FirePerf TracerV and the FireSim sweep script, modelled in Dafny

This project models three pieces of a FireSim/Chipyard setup for profiling
RISC-V software on FPGA-simulated hardware, and proves properties of them.

* **The FirePerf call-stack tracker** (`TraceTracker::addInstruction`). It
  keeps a stack of labels, one per function the traced program is in. Every
  retired instruction either:
  * extends the label on top;
  * pushes a label for a called function;
  * swaps two assembly-sequence labels;
  * unwinds the stack on a return;
  * or folds everything into one `USERSPACE_ALL` label when the instruction
    is unknown.

  Each push writes a `Start label` line to the trace file and each pop an
  `End label` line.
* **The TracerV bridge driver in its FirePerf userspace mode**:
  * it decodes the 512-bit beats streamed from the FPGA into instruction
    tokens;
  * it builds an index from (page offset, instruction bits) to (binary,
    page base) out of the user programs' hex dumps;
  * it holds tokens in a 2048-entry FIFO (`retired_buffer`) and resolves the
    token leaving the buffer to the kernel or to a user program;
  * a user program is identified by checking candidate pages against the
    next buffered tokens of the same address space (`satp`). A unique match
    is back-propagated through the buffer;
  * resolved tokens go to the tracker of their binary, the rest to the
    `misc` tracker;
  * it also splits the 64-bit trigger settings into 32-bit register halves.
* **The sweep script `run_firesim.py`**:
  * for every hardware configuration, workload and repetition, it rewrites
    two fields of the runtime YAML and runs the simulation;
  * it scrapes six statistics from the last ten lines of the UART log into a
    dictionary;
  * it appends one result row per run whose log exists.

Modules, by the source file they follow:

| module | file | source |
|---|---|---|
| `Wrappers` | wrappers.dfy | `Option` and `Result` |
| `Words` | words.dfy | `uint*_t` widths, 64-bit wrap-around, shifts, sign extension |
| `Processing` | processing.dfy | `Instr` and `ObjdumpedBinary` records (tracerv_processing.h) |
| `TraceTypes` | trace_types.dfy | `token_t`, `bin_page_pair_t` and `LabelMeta` with its two print formats (trace_tracker.h) |
| `Tracker` | trace_tracker.dfy | `TraceTracker` (trace_tracker.cc). Pure specification `Step`, plus a class whose method `AddInstruction` runs the source's loops and is proved equal to `Step` |
| `Beats` | tracerv_beats.dfy | beat decoding and the trigger split (tracerv.cc) |
| `Matching` | tracerv_match.dfy | the index, `filterBuffer`, survivors, back-propagation and the whole of `matchInstruction` as functions on values (tracerv.cc) |
| `TracerV` | tracerv.dfy | the bridge object: the index as an `array`, the retired buffer, the loops of the constructor, `matchInstruction`, `matchAddInstruction`, `flush` and `process_tokens`, each proved against `Matching`/`Beats` |
| `UartLog` | uart_log.dfy | `parse_uart_log` (run_firesim.py) |
| `RunFiresim` | run_firesim.dfy | `update_yaml_file` and the loops of `main` (run_firesim.py) |

Two behaviours of the script's code that the model keeps:

* **The last matching line wins.** The loop assigns into the dictionary on
  every matching line, so a later matching line overwrites an earlier one and
  the last matching line in the ten-line window wins (`UartLog.ScrapeLastWins`).
* **The update can add a field.** Only the two sections `target_config` and
  `workload` have to be dictionaries: a missing `default_hw_config` or
  `workload_name` key is created (`RunFiresim.SetField`).

## Model

| member | source | states |
|---|---|---|
| Words.Wrap64 | sim/firesim-lib/src/main/cc/bridges/tracerv.cc:702 | a `uint64_t` expression evaluates to its mathematical value modulo 2^64, and to that value itself when it is in range |
| Words.High32 | sim/firesim-lib/src/main/cc/bridges/tracerv.cc:116 | `x >> 32` is the h with h·2^32 ≤ x < (h+1)·2^32 |
| Words.Low32 | sim/firesim-lib/src/main/cc/bridges/tracerv.cc:115 | `(uint32_t)x` and `x & (2^32-1)` differ from x by a multiple of 2^32 |
| Words.SplitJoin | sim/firesim-lib/src/main/cc/bridges/tracerv.cc:358-379 | the high and low halves written to a register pair recombine to the 64-bit value |
| Words.SignExtend40 | sim/firesim-lib/src/main/cc/bridges/tracerv.cc:469-470 | `((int64_t)w << 24) >> 24` keeps bits 0..39 of w, and sets bits 40..63 all to zero or all to one according to bit 39. Read as a signed number, the result is the 40-bit two's-complement value of w |
| Words.PageOf | sim/firesim-lib/src/main/cc/bridges/tracerv.cc:283 | `(addr >> 12) << 12` is 4096-aligned and is the base of the page holding addr |
| TraceTypes.NewLabel | sim/firesim-lib/src/main/cc/bridges/tracerv/trace_tracker.cc:58-63 | a label created by the tracker has the given name, indent and asm flag, and start cycle = end cycle = the token's cycle |
| TraceTypes.DefaultLabel | sim/firesim-lib/src/main/cc/bridges/tracerv/trace_tracker.h:38 | a freshly constructed `LabelMeta` is not in an asm sequence |
| TraceTypes.Digits | sim/firesim-lib/src/main/cc/bridges/tracerv/trace_tracker.h:50 | `PRIu64`/`PRIx64` output is a non-empty string of digits below the base |
| TraceTypes.Decimal | sim/firesim-lib/src/main/cc/bridges/tracerv/trace_tracker.h:50 | `PRIu64` output is a non-empty string of decimal digits |
| TraceTypes.DigitsRoundTrip | sim/firesim-lib/src/main/cc/bridges/tracerv/trace_tracker.h:49-53 | every number printed in decimal or hex reads back exactly |
| TraceTypes.PrePrint | sim/firesim-lib/src/main/cc/bridges/tracerv/trace_tracker.h:49-53 | a Start line begins with `Indent: ` and ends with a newline |
| TraceTypes.PostPrint | sim/firesim-lib/src/main/cc/bridges/tracerv/trace_tracker.h:66-70 | an End line begins with `Indent: ` and ends with a newline |
| TraceTypes.StartAndEndLinesDiffer | sim/firesim-lib/src/main/cc/bridges/tracerv/trace_tracker.h:49-70 | no Start line equals any End line, whatever the two labels |
| TraceTypes.IndentReadBack | sim/firesim-lib/src/main/cc/bridges/tracerv/trace_tracker.h:49-70 | both lines carry the label's indent right after `Indent: `, and it parses back to the indent |
| Tracker.Render | sim/firesim-lib/src/main/cc/bridges/tracerv/trace_tracker.h:40-72 | a Start record prints as `pre_print`, an End record as `post_print` |
| Tracker.Touched | sim/firesim-lib/src/main/cc/bridges/tracerv/trace_tracker.cc:96-97 | setting the top's `end_cycle` changes that field of the top and nothing else in the stack |
| Tracker.Frames | sim/firesim-lib/src/main/cc/bridges/tracerv/trace_tracker.h:30-36 | the frames of a stack are, position by position, the name, start cycle and indent of its labels |
| Tracker.Ends | sim/firesim-lib/src/main/cc/bridges/tracerv/trace_tracker.cc:140-142 | popping labels writes one End line per label, in pop order |
| Tracker.UnwindPop | sim/firesim-lib/src/main/cc/bridges/tracerv/trace_tracker.cc:137-152 | one iteration of the unwind loop: the top is ended, the new top's `end_cycle` is set, and unwinding continues below |
| Tracker.UnwindStops | sim/firesim-lib/src/main/cc/bridges/tracerv/trace_tracker.cc:137-152 | popped + kept = the old stack size. Without a target the stack empties. With one, the loop stops at the first label with that name, and no popped label has it |
| Tracker.UnwindKeepsBottom | sim/firesim-lib/src/main/cc/bridges/tracerv/trace_tracker.cc:137-152 | the labels below the final top are untouched. The final top only gets `end_cycle = cycle`, and only if something was popped |
| Tracker.UnwindEnds | sim/firesim-lib/src/main/cc/bridges/tracerv/trace_tracker.cc:137-152 | the ended labels are the old stack from the top down; all but the first carry the new `end_cycle` |
| Tracker.UnwindShape | sim/firesim-lib/src/main/cc/bridges/tracerv/trace_tracker.cc:137-152 | the three unwind lemmas above in one statement |
| Tracker.FramesIgnoreEndCycle | sim/firesim-lib/src/main/cc/bridges/tracerv/trace_tracker.cc:148-151 | updating `end_cycle` does not change what the lines announce about open labels |
| Tracker.UnwindNests | sim/firesim-lib/src/main/cc/bridges/tracerv/trace_tracker.cc:137-152 | the End lines of an unwind close, innermost first, exactly the labels it pops |
| Tracker.ReplayEnd | sim/firesim-lib/src/main/cc/bridges/tracerv/trace_tracker.cc:51 | an End line for the innermost open label closes it |
| Tracker.ReplayAppend | sim/firesim-lib/src/main/cc/bridges/tracerv/trace_tracker.cc:17-183 | a trace read in two parts nests as the whole does |
| Tracker.ReplayCounts | sim/firesim-lib/src/main/cc/bridges/tracerv/trace_tracker.cc:17-183 | in a well-nested trace, open labels + End lines = labels open at the start + Start lines |
| Tracker.StepUnknownInstruction | sim/firesim-lib/src/main/cc/bridges/tracerv/trace_tracker.cc:41-66 | a null `instr_meta` on exactly `[USERSPACE_ALL]` only updates its `end_cycle` and prints nothing. Otherwise every label is popped, top first, with an End line each, and one `USERSPACE_ALL` label (indent 1, start = end = cycle) becomes the whole stack, announced by a Start line |
| Tracker.StepEndsUserspace | sim/firesim-lib/src/main/cc/bridges/tracerv/trace_tracker.cc:79-86 | with a known instruction, a `USERSPACE_ALL` top is popped and ended before anything else happens |
| Tracker.StepSameFunction | sim/firesim-lib/src/main/cc/bridges/tracerv/trace_tracker.cc:88-97 | an instruction of the function on top only sets that label's `end_cycle`. The stack is otherwise unchanged and nothing is printed |
| Tracker.StepAsmSequence | sim/firesim-lib/src/main/cc/bridges/tracerv/trace_tracker.cc:99-120 | two asm-sequence labels in a row: the top is ended and replaced by a new label at the same indent, and the stack size is kept |
| Tracker.StepInstrUnwinds | sim/firesim-lib/src/main/cc/bridges/tracerv/trace_tracker.cc:121-168 | a callsite or non-entry instruction unwinds to its function. WARN lines are written only when the stack empties, carrying the indent of the first popped label |
| Tracker.StepReturn | sim/firesim-lib/src/main/cc/bridges/tracerv/trace_tracker.cc:121-168 | a return shrinks the stack and keeps the labels below the top. The new top, if any, is the function returned to, with `end_cycle = cycle` |
| Tracker.StepReturnSkips | sim/firesim-lib/src/main/cc/bridges/tracerv/trace_tracker.cc:137-139 | no popped label has the name searched for |
| Tracker.StepReturnLines | sim/firesim-lib/src/main/cc/bridges/tracerv/trace_tracker.cc:121-168 | a return pushes nothing, and it ends in WARN lines exactly when it empties the stack |
| Tracker.StepCall | sim/firesim-lib/src/main/cc/bridges/tracerv/trace_tracker.cc:169-179 | otherwise a new label is pushed with indent = old size + 1, start = end = cycle and the instruction's asm flag, and one Start line is written |
| Tracker.NoStartsInEnds | sim/firesim-lib/src/main/cc/bridges/tracerv/trace_tracker.cc:140-142 | popping writes no Start line |
| Tracker.CountStartsAppend | sim/firesim-lib/src/main/cc/bridges/tracerv/trace_tracker.cc:17-183 | Start lines add up over consecutive writes |
| Tracker.StepInstrKeepsIndents | sim/firesim-lib/src/main/cc/bridges/tracerv/trace_tracker.cc:88-179 | each label's indent stays its 1-based stack position |
| Tracker.StepKeepsIndents | sim/firesim-lib/src/main/cc/bridges/tracerv/trace_tracker.cc:41-183 | `addInstruction` keeps every indent equal to its 1-based stack position |
| Tracker.StepInstrNests | sim/firesim-lib/src/main/cc/bridges/tracerv/trace_tracker.cc:88-179 | the lines a known instruction writes turn the stack's frames before into the frames after, in well-nested order |
| Tracker.StepNests | sim/firesim-lib/src/main/cc/bridges/tracerv/trace_tracker.cc:41-183 | the same for `addInstruction`, the `USERSPACE_ALL` cases included |
| Tracker.StepKeepsValid | sim/firesim-lib/src/main/cc/bridges/tracerv/trace_tracker.cc:41-183 | if the trace so far is well nested with the stack as its open labels, it stays so after one more instruction |
| Tracker.TraceTracker.constructor | sim/firesim-lib/src/main/cc/bridges/tracerv/trace_tracker.cc:12-15 | a new tracker has an empty stack and an empty file, and is valid |
| Tracker.TraceTracker.PopLabel | sim/firesim-lib/src/main/cc/bridges/tracerv/trace_tracker.cc:49-52 | pops the top and writes its End line; nothing else changes |
| Tracker.TraceTracker.PushLabel | sim/firesim-lib/src/main/cc/bridges/tracerv/trace_tracker.cc:175-178 | pushes a label and writes its Start line; nothing else changes |
| Tracker.TraceTracker.UnwindTo | sim/firesim-lib/src/main/cc/bridges/tracerv/trace_tracker.cc:136-152 | the while loop leaves the stack and file as `Unwind` says, and returns `unwind_start_level`, the first popped indent |
| Tracker.TraceTracker.AddKnownInstruction | sim/firesim-lib/src/main/cc/bridges/tracerv/trace_tracker.cc:88-180 | the known-instruction branches update stack and file as `StepInstr` says |
| Tracker.TraceTracker.AddUnknownInstruction | sim/firesim-lib/src/main/cc/bridges/tracerv/trace_tracker.cc:41-66 | the null-instruction branch updates stack and file as `Step` says |
| Tracker.TraceTracker.AddInstruction | sim/firesim-lib/src/main/cc/bridges/tracerv/trace_tracker.cc:17-183 | new stack and appended lines are `Step` of the old stack. `last_instr` changes only for a known instruction. Validity (indents, and a well-nested file whose open labels are the stack) is kept |
| Beats.Beat | sim/firesim-lib/src/main/cc/bridges/tracerv.cc:465 | beat i is words 8i..8i+7 of the stream |
| Beats.BeatToken | sim/firesim-lib/src/main/cc/bridges/tracerv.cc:466-476 | cycle, inst and satp are words 0, 2 and 3, and priv is word 4 truncated to 8 bits. `iaddr` is word 1 sign-extended from bit 39. The matching fields start absent/0 |
| Beats.BeatTokens | sim/firesim-lib/src/main/cc/bridges/tracerv.cc:468-477 | a beat yields at most one token |
| Beats.DecodeBeats | sim/firesim-lib/src/main/cc/bridges/tracerv.cc:465-477 | at most one token per beat |
| Beats.DecodeBeatsExact | sim/firesim-lib/src/main/cc/bridges/tracerv.cc:465-477 | every token comes from a beat with bit 40 of word 1 set, and every such beat yields its token |
| Beats.DecodeBeatsAppend | sim/firesim-lib/src/main/cc/bridges/tracerv.cc:465-477 | decoding batch by batch gives the tokens of the whole stream, in order |
| Beats.DecodeBeatsSnoc | sim/firesim-lib/src/main/cc/bridges/tracerv.cc:465-477 | one more beat adds just its own token, if any |
| Beats.DecodeNextBeat | sim/firesim-lib/src/main/cc/bridges/tracerv.cc:465 | the stride of 8 stays inside the stream and adds that beat's token |
| Beats.DefaultTrigger | sim/firesim-lib/src/main/cc/bridges/tracerv.cc:68-70 | selector 0, start cycle 0, end cycle `ULONG_MAX` |
| Beats.WithTraceStart | sim/firesim-lib/src/main/cc/bridges/tracerv.cc:109-118 | `+trace-start=` gives the start cycle. Its hex value is at once the start PC and the instruction (low half) with its mask (high half). No other setting changes |
| Beats.WithTraceEnd | sim/firesim-lib/src/main/cc/bridges/tracerv.cc:119-127 | the same for `+trace-end=` and the stop settings |
| Beats.TriggerWrites | sim/firesim-lib/src/main/cc/bridges/tracerv.cc:358-404 | the selector is written first, and an unknown selector writes only itself |
| Beats.TriggerWritesRebuild | sim/firesim-lib/src/main/cc/bridges/tracerv.cc:358-396 | selector 1, 2 or 3 writes four more registers, named in write order (cycle-count start high/low and end high/low; PC start high/low and end high/low; start instruction and mask, end instruction and mask). Their values rebuild the start and end cycle bounds, the start and stop PCs, or the start and stop instructions with their masks exactly |
| Matching.SlotOf | sim/firesim-lib/src/main/cc/bridges/tracerv.cc:279 | the slot index is below 2048 (so `.at` never throws), and it is the half-word offset of the address in its page |
| Matching.EmptyIndex | sim/firesim-lib/src/main/cc/bridges/tracerv.cc:226-230 | the table starts with 2048 empty slots |
| Matching.LookupFits | sim/firesim-lib/src/main/cc/bridges/tracerv.cc:654 | every site found in the index names a loaded program holding that offset |
| Matching.IndexFitsGrow | sim/firesim-lib/src/main/cc/bridges/tracerv.cc:250 | loading another program keeps the index valid |
| Matching.AddLine | sim/firesim-lib/src/main/cc/bridges/tracerv.cc:259-286 | one hex line keeps the table at 2048 slots |
| Matching.Indexed | sim/firesim-lib/src/main/cc/bridges/tracerv.cc:259-305 | a whole dump keeps the table at 2048 slots |
| Matching.AddLineEffect | sim/firesim-lib/src/main/cc/bridges/tracerv.cc:261-286 | a line with two fields appends (binary, page base) to exactly the list of its slot and instruction. A line missing a field changes nothing |
| Matching.IndexedRecords | sim/firesim-lib/src/main/cc/bridges/tracerv.cc:259-305 | after a dump, each two-field line's site is recorded under its own slot and instruction, behind what was there before |
| Matching.IndexedFits | sim/firesim-lib/src/main/cc/bridges/tracerv.cc:259-305 | reading the dump of a loaded program keeps every site inside a program's text |
| Matching.FilterBuffer | sim/firesim-lib/src/main/cc/bridges/tracerv.cc:770-776 | a buffered token passes iff it is outside the kernel's text and has the same satp |
| Matching.Passing | sim/firesim-lib/src/main/cc/bridges/tracerv.cc:693-697 | filtering never adds tokens |
| Matching.Collected | sim/firesim-lib/src/main/cc/bridges/tracerv.cc:692-697 | the matching window holds at most `MATCHING_DEPTH` tokens |
| Matching.PassingExact | sim/firesim-lib/src/main/cc/bridges/tracerv.cc:693-697 | exactly the buffered tokens that pass the filter are kept |
| Matching.PassingPrefix | sim/firesim-lib/src/main/cc/bridges/tracerv.cc:693-697 | filtering a prefix of the buffer gives a prefix of the filtered buffer |
| Matching.CollectedSpec | sim/firesim-lib/src/main/cc/bridges/tracerv.cc:692-697 | the window is the first min(depth, passing) passing tokens, in buffer order |
| Matching.Survivors | sim/firesim-lib/src/main/cc/bridges/tracerv.cc:698-711 | no more survivors than candidates |
| Matching.SurvivorsStep | sim/firesim-lib/src/main/cc/bridges/tracerv.cc:699-711 | candidates are kept in candidate order |
| Matching.SurvivorsExact | sim/firesim-lib/src/main/cc/bridges/tracerv.cc:698-711 | a candidate survives iff every window token is recorded at its relocated page of the same binary. With an empty window nothing survives |
| Matching.BackProp | sim/firesim-lib/src/main/cc/bridges/tracerv.cc:726-741 | back-propagation keeps the buffer's length |
| Matching.BackPropExact | sim/firesim-lib/src/main/cc/bridges/tracerv.cc:726-741 | a buffered token is rewritten iff it has the same satp, priv 0 and an index inside the binary's text. It then takes the binary, the propagated page base and the record at that index. All other tokens are unchanged |
| Matching.Unconfirmed | sim/firesim-lib/src/main/cc/bridges/tracerv.cc:649-651 | an unconfirmed earlier match is cleared |
| Matching.SiteBinary | sim/firesim-lib/src/main/cc/bridges/tracerv.cc:719 | a unique survivor's binary is a loaded program, and the unchecked `progtext` index is in range |
| Matching.MatchOutcome | sim/firesim-lib/src/main/cc/bridges/tracerv.cc:624-759 | `matchInstruction` succeeds iff one of these holds: the address is in the kernel's text; it is in the kernel's DRAM alias; an earlier match is confirmed; or exactly one candidate survives. An empty window leaves no survivor |
| Matching.MatchKernel | sim/firesim-lib/src/main/cc/bridges/tracerv.cc:629-641 | a kernel address (direct range first, then the 0x80000000 alias) resolves to the kernel and the record at its offset; the buffer is untouched |
| Matching.MatchFails | sim/firesim-lib/src/main/cc/bridges/tracerv.cc:670-756 | no candidate, an empty window or several survivors give false, no record and an unchanged buffer |
| Matching.MatchUnique | sim/firesim-lib/src/main/cc/bridges/tracerv.cc:718-742 | a unique survivor gives the token its site's binary, page base and record, and back-propagates through the buffer |
| Matching.MatchDelegates | sim/firesim-lib/src/main/cc/bridges/tracerv.cc:642-654 | non-kernel, unconfirmed tokens are matched by candidate sites with their stale match cleared |
| Matching.MatchUserUnique | sim/firesim-lib/src/main/cc/bridges/tracerv.cc:718-742 | the unique-survivor case of the user-space part, unfolded |
| Matching.MatchResultShape | sim/firesim-lib/src/main/cc/bridges/tracerv.cc:624-759 | a success names the kernel or a loaded program. A failure carries no record and leaves the buffer alone |
| Matching.Raw | sim/firesim-lib/src/main/cc/bridges/tracerv/trace_tracker.h:7-21 | the fields delivered by the bridge, with the matching fields cleared |
| Matching.Raws | sim/firesim-lib/src/main/cc/bridges/tracerv/trace_tracker.h:7-21 | taking the raw fields keeps the length |
| Matching.MatchKeepsRaw | sim/firesim-lib/src/main/cc/bridges/tracerv.cc:624-759 | matching only fills in binary, record and page base. The token and the buffer keep the delivered fields, length and order |
| TracerV.LoadCount | sim/firesim-lib/src/main/cc/bridges/tracerv.cc:247-257 | programs are loaded in order up to the first whose hex dump cannot be opened |
| TracerV.Loaded | sim/firesim-lib/src/main/cc/bridges/tracerv.cc:250 | the i-th loaded program gets id i+1 and keeps its base address and text |
| TracerV.LoadedPrefix | sim/firesim-lib/src/main/cc/bridges/tracerv.cc:247-306 | the loaded programs are the first n, in order |
| TracerV.TableAfter | sim/firesim-lib/src/main/cc/bridges/tracerv.cc:247-306 | the index keeps its 2048 slots |
| TracerV.Route | sim/firesim-lib/src/main/cc/bridges/tracerv.cc:601-610 | the matched token goes to a tracker, unmatched ones to `misc` |
| TracerV.DispatchKeepsOrder | sim/firesim-lib/src/main/cc/bridges/tracerv.cc:595-610 | moving the front token to the trackers keeps arrival order |
| TracerV.PushKeepsOrder | sim/firesim-lib/src/main/cc/bridges/tracerv.cc:590 | a token pushed at the back joins the back of the arrivals |
| TracerV.TracerV.constructor | sim/firesim-lib/src/main/cc/bridges/tracerv.cc:226-306 | 2048 empty slots, then the programs and their dumps indexed in order, stopping at the first dump that cannot be opened. `MATCHING_DEPTH` is truncated to 8 bits |
| TracerV.TracerV.LoadProgram | sim/firesim-lib/src/main/cc/bridges/tracerv.cc:247-306 | one round of the directory loop: the program is numbered and its dump indexed |
| TracerV.TracerV.LoadHex | sim/firesim-lib/src/main/cc/bridges/tracerv.cc:259-305 | the `getline` loop leaves the table as `Indexed` says |
| TracerV.TracerV.AddHexLine | sim/firesim-lib/src/main/cc/bridges/tracerv.cc:261-286 | one line updates the table as `AddLine` says |
| TracerV.TracerV.MapContains | sim/firesim-lib/src/main/cc/bridges/tracerv.cc:761-768 | true iff some element has that binary and page base |
| TracerV.TracerV.SitesFor | sim/firesim-lib/src/main/cc/bridges/tracerv.cc:654 | the candidate list is the index lookup, empty for an absent key |
| TracerV.TracerV.MatchingWindow | sim/firesim-lib/src/main/cc/bridges/tracerv.cc:692-697 | the loop collects `Collected` |
| TracerV.TracerV.MatchedSites | sim/firesim-lib/src/main/cc/bridges/tracerv.cc:698-711 | the outer loop collects `Survivors` |
| TracerV.TracerV.SiteSurvives | sim/firesim-lib/src/main/cc/bridges/tracerv.cc:700-710 | the inner loop keeps a site iff it `Survives` |
| TracerV.TracerV.BackPropagate | sim/firesim-lib/src/main/cc/bridges/tracerv.cc:726-741 | the in-place loop leaves the buffer as `BackProp` says |
| TracerV.TracerV.MatchInstruction | sim/firesim-lib/src/main/cc/bridges/tracerv.cc:624-759 | result, token and buffer are those of `Match` |
| TracerV.TracerV.MatchUserInstruction | sim/firesim-lib/src/main/cc/bridges/tracerv.cc:654-756 | result, token and buffer are those of `MatchUser` |
| TracerV.TracerV.MatchUniqueSite | sim/firesim-lib/src/main/cc/bridges/tracerv.cc:718-742 | the token takes the site's binary, page base and record, then the buffer is back-propagated |
| TracerV.TracerV.DispatchFront | sim/firesim-lib/src/main/cc/bridges/tracerv.cc:595-610 | the front token leaves the buffer, is matched against the rest and routed; no token is lost or reordered |
| TracerV.TracerV.MatchAddInstruction | sim/firesim-lib/src/main/cc/bridges/tracerv.cc:588-611 | a non-flush call appends. It dispatches the front only once the size reaches 2048, so the size stays below 2048. A flush call ignores its token and dispatches the front |
| TracerV.TracerV.Flush | sim/firesim-lib/src/main/cc/bridges/tracerv.cc:582-585 | the buffer is drained, and every token that arrived has been dispatched, in arrival order |
| TracerV.TracerV.ProcessTokens | sim/firesim-lib/src/main/cc/bridges/tracerv.cc:465-477 | the tokens entering the buffer are `DecodeBeats` of the batch, in stream order |
| TracerV.TracerV.ProcessBeat | sim/firesim-lib/src/main/cc/bridges/tracerv.cc:466-477 | a beat enters its token if valid, nothing otherwise |
| UartLog.LeadingSpaces | run_firesim.py:51 | the whitespace run at the start of a string |
| UartLog.TrailingStart | run_firesim.py:51 | where the whitespace run at the end of a string starts |
| UartLog.Strip | run_firesim.py:51 | `strip()` neither starts nor ends with whitespace |
| UartLog.StripExact | run_firesim.py:51 | `strip()` removes whitespace from both ends and nothing else |
| UartLog.StripIdempotent | run_firesim.py:51 | stripping twice is stripping once |
| UartLog.AfterLastColon | run_firesim.py:51 | `split(":")[-1]` is a colon-free suffix preceded by a colon, or the whole line if it has none |
| UartLog.AfterColonAt | run_firesim.py:51 | after the last colon comes the rest of the line |
| UartLog.MissingChar | run_firesim.py:50 | a label with a character the line lacks is not in the line |
| UartLog.IsInfixExact | run_firesim.py:50 | `label in line` iff the label occurs at some position |
| UartLog.Newlines | run_firesim.py:46 | text-mode reading leaves no carriage return |
| UartLog.FirstLine | run_firesim.py:48 | a line runs up to and including its newline |
| UartLog.ReadLines | run_firesim.py:48 | `readlines()` yields no empty line |
| UartLog.ReadLinesConcat | run_firesim.py:48 | the lines put together are the text |
| UartLog.ReadLinesShape | run_firesim.py:48 | every line but the last ends in its only newline |
| UartLog.LastLines | run_firesim.py:48 | `[-10:]` is the last ten lines, or all of them when fewer |
| UartLog.ClassifyFrom | run_firesim.py:50-61 | the labels from a position on are tested in order |
| UartLog.ClassifyFromFirst | run_firesim.py:50-61 | the label found is in the line and no label tested before it is |
| UartLog.ClassifyFirst | run_firesim.py:50-61 | a line reports the first label, in the fixed order, that it contains, and none if it contains none |
| UartLog.ClassifyIs | run_firesim.py:50-61 | a line containing label i and no earlier label reports statistic i |
| UartLog.ClassifyNone | run_firesim.py:50-61 | a line without any label reports nothing |
| UartLog.ReadingOf | run_firesim.py:50-61 | a line reports a statistic iff it contains a label, and its value is the stripped text after the last colon |
| UartLog.StatisticLine | run_firesim.py:50-61 | `<label>:<value>` without an earlier label reports the stripped value under that label |
| UartLog.HostCyclesReading | run_firesim.py:52-53 | `Host Cycles Executed: 123456`-style lines report the host cycles with the stripped value |
| UartLog.Readings | run_firesim.py:49 | the readings of the lines, line by line |
| UartLog.ScrapeKeys | run_firesim.py:45-62 | keys come only from the six fixed names |
| UartLog.ScrapePresent | run_firesim.py:45-62 | a key is present iff some line of the window reports its statistic |
| UartLog.ScrapeLastWins | run_firesim.py:49-61 | a present key holds the value of the last line reporting it |
| UartLog.ParseUartWindow | run_firesim.py:48 | only the last ten lines matter |
| UartLog.ParseUartLog | run_firesim.py:44-62 | the loop computes `ParseUart` of the log's text |
| UartLog.ScrapeLine | run_firesim.py:50-61 | the `if`/`elif` chain on one line records that line's reading |
| RunFiresim.SetField | run_firesim.py:69 | `c[s][k] = v` fails iff `c[s]` is not a dictionary. On success only that field changes, and it is created if absent |
| RunFiresim.UpdateConfig | run_firesim.py:65-74 | the update fails iff a section is missing. Otherwise both fields read back the new values |
| RunFiresim.UpdateFrame | run_firesim.py:69-70 | all other keys and fields are unchanged |
| RunFiresim.UpdateClosedForm | run_firesim.py:69-70 | the updated document, written out |
| RunFiresim.UpdateLastWins | run_firesim.py:65-74 | a later update overrides an earlier one entirely |
| RunFiresim.EntriesLastWins | run_firesim.py:69-70 | two writes to the same fields keep only the second |
| RunFiresim.UpdateIdempotent | run_firesim.py:65-74 | updating twice with the same values is updating once |
| RunFiresim.MakeRow | run_firesim.py:135-139 | a row is the scraped map plus `HW Config`, `Workload` and `Run = run + 1` |
| RunFiresim.RowKeepsStatistics | run_firesim.py:134-139 | no scraped statistic is overwritten by the three added columns |
| RunFiresim.Runs | run_firesim.py:111 | the runs of a pair are 0..NUM_ITERS-1, in order |
| RunFiresim.RunsUpTo | run_firesim.py:111 | `range(n)`, in order |
| RunFiresim.ForConfigCount | run_firesim.py:110-111 | one configuration makes |workloads|·NUM_ITERS attempts |
| RunFiresim.AttemptsCount | run_firesim.py:109-111 | the sweep makes |configs|·|workloads|·NUM_ITERS attempts |
| RunFiresim.ForConfigAt | run_firesim.py:110-111 | within a configuration, workload-major and then run order |
| RunFiresim.BlockBound | run_firesim.py:109-111 | block ci of n blocks lies inside the sweep |
| RunFiresim.AttemptAt | run_firesim.py:109-111 | attempt number ci·(|ws|·NUM_ITERS) + wi·NUM_ITERS + r is (config ci, workload wi, run r): configuration outermost, then workload, then run |
| RunFiresim.RowFor | run_firesim.py:132-143 | an attempt contributes one row iff its UART log exists |
| RunFiresim.RowsOfCount | run_firesim.py:108-143 | at most one row per attempt, and exactly one each when every log exists |
| RunFiresim.SweepRowsCount | run_firesim.py:108-143 | at most |configs|·|workloads|·3 rows, with equality when every log exists |
| RunFiresim.DefaultSweepRows | run_firesim.py:24-41 | the configured sweep yields at most 9 rows |
| RunFiresim.RowsOfAppend | run_firesim.py:108-143 | rows of consecutive attempts concatenate |
| RunFiresim.RowsOfSnoc | run_firesim.py:140 | one more attempt appends its row, if any |
| RunFiresim.ForConfigRowsStep | run_firesim.py:110-111 | the workload loop step extends the rows by that workload's runs |
| RunFiresim.AttemptsRowsStep | run_firesim.py:109-110 | the configuration loop step extends the rows by that configuration's attempts |
| RunFiresim.RunAttempt | run_firesim.py:112-143 | one iteration updates the config as `UpdateConfig` says. On success it appends `RowFor` of the attempt |
| RunFiresim.SweepRuns | run_firesim.py:111-143 | the run loop fails iff the config lacks a section. Otherwise it leaves the config updated for the pair, with the rows of its runs appended |
| RunFiresim.SweepWorkloads | run_firesim.py:110-143 | the workload loop fails iff there is a workload and a section is missing. Otherwise the rows of `ForConfig` are appended and the last workload is in the config |
| RunFiresim.Sweep | run_firesim.py:108-143 | the rows are `SweepRows` in sweep order. The final config holds the last configuration and workload, and is unchanged when nothing ran or the first update failed |

## Left out

- I/O is not modelled:
  - `fopen`/`fprintf` of trace files and the `fireperf_logger`;
  - `printf`, MMIO `write` calls and `pull()`;
  - logging, the pandas CSV write and YAML parsing/dumping.

  Output is modelled as a sequence of records (`TraceLine`, `Dispatch`, `Row`), and writes to registers as a list of `Write` values.
- The `ObjdumpedBinary` constructor and `getInstrFromAddr` are foreign code and are not part of this model. A binary is a record (id, name, base address, text), compared by id instead of by pointer. The kernel is id 0 and the user programs 1, 2, ... in load order.
- `ClockInfo::to_local_cycles`, `atol` and `strtoul` are not modelled. `Beats.WithTraceStart`/`WithTraceEnd` take the already-converted readings as parameters.
- The per-binary `TraceTracker` objects and their map are not modelled: the bridge records a log of (tracker name, token) dispatches instead, and which file each name writes to is left out. Feeding each tracker its dispatches is modelled separately by `Tracker.TraceTracker.AddInstruction`.
- The human-readable and test-output paths, the non-userspace FirePerf path and `FIREPERF_LOGGER` are not modelled.
- The first loop of `flush`, which pulls any remaining batches, is not modelled; only the draining loop is.
- The commented-out or never-called code is not modelled:
  - the `satp_page_cache` lookup;
  - the single-site shortcut;
  - the `stream.txt` reader;
  - the `TRACETRACKER_LOG_PC_REGION` and `INDENT_SPACES` variants.
- The `0x1048e` debug prints are not modelled.
- `last_instr->printMeFile` is not modelled: it prints nothing (tracerv_processing.h:33).
- TracerV.TracerV.constructor: requires every hex line of a loaded program (one before the first dump that cannot be opened) to lie inside that program's text. This is what keeps the unchecked `progtext` index at tracerv.cc:719 in range; the source does not check it.
- Tokens built from beats leave `bin`, `instr_meta` and `page_base` uninitialised in the source. Here they start absent/0.
- `flush` hands `matchAddInstruction` an uninitialised token that it never reads. Here it passes a fixed idle token.
- Indents are unbounded naturals, not `uint64_t`. Stacks deeper than 2^64 cannot occur.
- `unwind_start_level`'s sentinel `(uint64_t)(-1)` is an `Option`; the WARN line prints the sentinel's value when it is absent.
- Reads of `std::map` entries that insert an empty vector for a missing key are modelled as reads that return an empty list. The inserted empty entries are not kept, and no lookup can tell them apart.
- build_firesim.py is not part of this model.
- `add_built_hwdb_entries` is not modelled: it only appends files.
- The simulation shell command is represented only by the UART log it leaves: the parameter `uart` gives, for each attempt, the log's text or its absence. This includes a stale log left by an earlier run.
- Reading the log is modelled from its decoded text: `Newlines` maps `\r\n` and `\r` to `\n`. Byte decoding is not modelled.
- The configuration file is the `Yaml` value passed along the loops, assuming that dumping and reloading it gives the same document. YAML anchors and aliasing between nodes are not modelled.
- `update_yaml_file` mutates the loaded dictionary in place; here it is a function returning the new document.
- A `KeyError`/`TypeError` in `update_yaml_file` is uncaught and ends `main`, so no CSV is written. It is modelled as `Failure`, with no rows returned.
- `main` is split into one method per loop level (`Sweep`, `SweepWorkloads`, `SweepRuns`, `RunAttempt`).
- CSV column order is not modelled: a row is a map from column to cell.
