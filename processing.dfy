/** The objdump records the tracer consumes (tracerv_processing.h). Their
    construction from DWARF files is foreign code; only their fields are
    modelled. */
module Processing {
  import opened Words
  import opened Wrappers

  /** What a disassembled instruction says about its place in the program;
      the printing-only fields (text, address, label) are not kept. */
  datatype Instr = Instr(
    functionName: string,
    isFnEntry: bool,
    isCallsite: bool,
    inAsmSequence: bool)

  /** Identity of an `ObjdumpedBinary` object: the source compares binaries
      by pointer, the model by this id. */
  type BinId = nat

  /** An objdumped binary: its load address and its text, one (possibly null)
      instruction record per byte offset from `baseaddr`. */
  datatype Binary = Binary(
    id: BinId,
    name: string,
    baseaddr: u64,
    progtext: seq<Option<Instr>>)

  /** The address lies in the binary's text, counted from its base address. */
  predicate InText(b: Binary, addr: u64)
  {
    addr >= b.baseaddr && addr - b.baseaddr < |b.progtext|
  }
}
