/** The records shared by the bridge and the call-stack tracker
    (trace_tracker.h): retired-instruction tokens, (binary, page) sites and
    the label records of the call stack with their two output formats. */
module TraceTypes {
  import opened Words
  import opened Wrappers
  import opened Processing

  /** A retired instruction as the bridge sees it, with the binary, the
      instruction record and the page base that matching assigns to it
      (absent / 0 until then). */
  datatype Token = Token(
    cycleCount: u64,
    iaddr: u64,
    inst: u64,
    satp: u64,
    priv: u8,
    bin: Option<BinId>,
    instrMeta: Option<Instr>,
    pageBase: u64)

  /** A place a user instruction may come from: a binary and the page base at
      which that binary's page would have to be mapped. */
  datatype BinPagePair = BinPagePair(bin: BinId, pageBase: u64)

  /** One entry of the call stack: a function (or USERSPACE_ALL) label, the
      cycles it was entered and last seen at, and its depth. */
  datatype LabelMeta = LabelMeta(
    name: string,
    startCycle: u64,
    endCycle: u64,
    indent: nat,
    asmSequence: bool)

  /** The tracker's way of creating a label: the default constructor (which
      only clears `asm_sequence`) followed by assignments to every field. */
  function NewLabel(name: string, cycle: u64, indent: nat, asmSequence: bool): (l: LabelMeta)
    ensures l.name == name && l.indent == indent && l.asmSequence == asmSequence
    ensures l.startCycle == l.endCycle == cycle
  {
    DefaultLabel().(name := name, startCycle := cycle, endCycle := cycle,
                    indent := indent, asmSequence := asmSequence)
  }

  /** `LabelMeta()`: the only field it sets is `asm_sequence`; the fields it
      leaves uninitialised are given neutral values here. */
  function DefaultLabel(): (l: LabelMeta)
    ensures !l.asmSequence
  {
    LabelMeta("", 0, 0, 0, false)
  }

  // ---------------------------------------------------------------------
  // printf conversions
  // ---------------------------------------------------------------------

  function DigitChar(d: nat): (c: char)
    requires d < 16
    ensures IsHexDigit(c)
  {
    "0123456789abcdef"[d]
  }

  predicate IsHexDigit(c: char)
  {
    '0' <= c <= '9' || 'a' <= c <= 'f'
  }

  function DigitValue(c: char): nat
  {
    if '0' <= c <= '9' then c as nat - '0' as nat
    else if 'a' <= c <= 'f' then c as nat - 'a' as nat + 10
    else 0
  }

  /** `%llu` / `PRIu64` when `base` is 10, `PRIx64` when it is 16: the digits
      of `n`, most significant first, without leading zeros. */
  function Digits(n: nat, base: nat): (s: string)
    requires base == 10 || base == 16
    ensures |s| > 0
    ensures forall i :: 0 <= i < |s| ==> IsHexDigit(s[i]) && DigitValue(s[i]) < base
    decreases n
  {
    if n < base then [DigitChar(n)]
    else Digits(n / base, base) + [DigitChar(n % base)]
  }

  function Decimal(n: nat): (s: string)
    ensures |s| > 0 && forall i :: 0 <= i < |s| ==> '0' <= s[i] <= '9'
  {
    Digits(n, 10)
  }

  /** Reads back a string of digits in the given base. */
  function ParseDigits(s: string, base: nat): nat
  {
    if s == [] then 0 else ParseDigits(s[..|s| - 1], base) * base + DigitValue(s[|s| - 1])
  }

  lemma DigitValueOf(d: nat)
    requires d < 16
    ensures DigitValue(DigitChar(d)) == d
  {
  }

  /** The numbers the trace prints can be read back exactly. */
  lemma {:induction false} DigitsRoundTrip(n: nat, base: nat)
    requires base == 10 || base == 16
    ensures ParseDigits(Digits(n, base), base) == n
    decreases n
  {
    if n < base {
      DigitValueOf(n);
      assert Digits(n, base)[..0] == [];
    } else {
      var s := Digits(n, base);
      DigitsRoundTrip(n / base, base);
      DigitValueOf(n % base);
      assert s[..|s| - 1] == Digits(n / base, base);
    }
  }

  /** `pre_print`: the line written when a label is pushed. */
  function PrePrint(l: LabelMeta): (s: string)
    ensures |s| > 8 && s[..8] == "Indent: " && s[|s| - 1] == '\n'
  {
    "Indent: " + Decimal(l.indent) + ", Start label: " + l.name +
    ", At cycle: " + Decimal(l.startCycle) + "\n"
  }

  /** `post_print`: the line written when a label is popped. */
  function PostPrint(l: LabelMeta): (s: string)
    ensures |s| > 8 && s[..8] == "Indent: " && s[|s| - 1] == '\n'
  {
    "Indent: " + Decimal(l.indent) + ", End label: " + l.name +
    ", End cycle: " + Decimal(l.endCycle) + "\n"
  }

  /** A Start line can never be mistaken for an End line: both begin with the
      indent, and the word after it differs. */
  lemma {:induction false} StartAndEndLinesDiffer(a: LabelMeta, b: LabelMeta)
    ensures PrePrint(a) != PostPrint(b)
  {
    var da, db := Decimal(a.indent), Decimal(b.indent);
    var p, q := PrePrint(a), PostPrint(b);
    assert p == "Indent: " + da + ", Start label: " + a.name + ", At cycle: " + Decimal(a.startCycle) + "\n";
    assert q == "Indent: " + db + ", End label: " + b.name + ", End cycle: " + Decimal(b.endCycle) + "\n";
    if |da| < |db| {
      // the comma after a's indent faces a digit of b's
      assert p[8 + |da|] == ',' && q[8 + |da|] == db[|da|];
    } else if |db| < |da| {
      assert q[8 + |db|] == ',' && p[8 + |db|] == da[|db|];
    } else {
      assert p[10 + |da|] == 'S' && q[10 + |da|] == 'E';
    }
  }

  /** The indent printed at the head of a Start or End line is the label's. */
  lemma {:induction false} IndentReadBack(l: LabelMeta)
    ensures var d := Decimal(l.indent);
            PrePrint(l)[8..8 + |d|] == d && PostPrint(l)[8..8 + |d|] == d
            && ParseDigits(d, 10) == l.indent
  {
    var d := Decimal(l.indent);
    DigitsRoundTrip(l.indent, 10);
    var pre := ", Start label: " + l.name + ", At cycle: " + Decimal(l.startCycle) + "\n";
    var post := ", End label: " + l.name + ", End cycle: " + Decimal(l.endCycle) + "\n";
    assert PrePrint(l) == "Indent: " + d + pre;
    assert PostPrint(l) == "Indent: " + d + post;
    PrefixAt("Indent: ", d, pre);
    PrefixAt("Indent: ", d, post);
  }

  lemma PrefixAt(a: string, b: string, c: string)
    ensures (a + b + c)[|a|..|a| + |b|] == b
  {
    assert (a + b + c)[|a|..|a| + |b|] == (a + b)[|a|..];
  }
}
