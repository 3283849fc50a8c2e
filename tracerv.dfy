/** The TracerV bridge driver in its FirePerf userspace mode (tracerv.cc):
    it builds the (page offset, instruction) index from the user programs'
    hex dumps, decodes beats into tokens, holds them in the retired buffer,
    matches each token leaving the buffer to a binary and hands it on to the
    call-stack tracker of that binary, or to the catch-all "misc" tracker. */
module TracerV {
  import opened Words
  import opened Wrappers
  import opened Processing
  import opened TraceTypes
  import opened Beats
  import opened Matching

  const BUFFER_SIZE: nat := 2048
  const MISC: string := "misc"

  /** A user program as the constructor meets it: its objdumped binary (the
      id is assigned on loading) and its hex dump, absent when the file
      cannot be opened. */
  datatype UserProgram = UserProgram(dump: Binary, hex: Option<seq<HexLine>>)

  /** A token handed to the tracker with the given name. */
  datatype Dispatch = Dispatch(tracker: string, token: Token)

  function Tokens(ds: seq<Dispatch>): (ts: seq<Token>)
    ensures |ts| == |ds| && forall i :: 0 <= i < |ds| ==> ts[i] == ds[i].token
  {
    seq(|ds|, i requires 0 <= i < |ds| => ds[i].token)
  }

  /** Every indexed line of the program's dump lies in its text. */
  predicate HexFits(p: UserProgram)
  {
    p.hex.Some? ==> forall j :: 0 <= j < |p.hex.value| ==> LineFits(p.dump, p.hex.value[j])
  }

  /** How many programs are loaded: those before the first whose hex dump
      cannot be opened, where the constructor gives up. */
  function LoadCount(ps: seq<UserProgram>): (n: nat)
    ensures n <= |ps|
    ensures forall j :: 0 <= j < n ==> ps[j].hex.Some?
    ensures n < |ps| ==> ps[n].hex.None?
    decreases |ps|
  {
    if |ps| == 0 || ps[0].hex.None? then 0 else 1 + LoadCount(ps[1..])
  }

  /** The `i`-th program as loaded, numbered after the kernel. */
  function Loaded(ps: seq<UserProgram>, i: nat): (b: Binary)
    requires i < |ps|
    ensures b.id == i + 1 && b.baseaddr == ps[i].dump.baseaddr && b.progtext == ps[i].dump.progtext
  {
    ps[i].dump.(id := i + 1)
  }

  function LoadedPrefix(ps: seq<UserProgram>, n: nat): (us: seq<Binary>)
    requires n <= |ps|
    ensures |us| == n && forall i :: 0 <= i < n ==> us[i] == Loaded(ps, i)
  {
    seq(n, i requires 0 <= i < n => Loaded(ps, i))
  }

  /** The index after the hex dumps of the first `n` programs. */
  function TableAfter(ps: seq<UserProgram>, n: nat): (idx: Index)
    requires n <= LoadCount(ps)
    ensures |idx| == INSTRUCTION_PER_PAGE
  {
    if n == 0 then EmptyIndex()
    else Indexed(TableAfter(ps, n - 1), Loaded(ps, n - 1), ps[n - 1].hex.value)
  }

  /** The name of the tracker a matched binary's tokens go to. */
  function TrackerName(kernel: Binary, users: seq<Binary>, id: BinId): string
  {
    if IsUser(users, id) then UserBin(users, id).name else kernel.name
  }

  /** Where `matchAddInstruction` sends a token once matching is done. */
  function Route(kernel: Binary, users: seq<Binary>, m: Matched): (d: Dispatch)
    ensures d.token == m.token
    ensures !m.found ==> d.tracker == MISC
  {
    if m.found && m.token.bin.Some? then Dispatch(TrackerName(kernel, users, m.token.bin.value), m.token)
    else Dispatch(MISC, m.token)
  }

  /** The token `flush` passes, which `matchAddInstruction` ignores. */
  function IdleToken(): Token
  {
    Token(0, 0, 0, 0, 0, None, None, 0)
  }

  /** Moving the front token, however matched, from the buffer to the end of
      the dispatch log keeps the arrival order. */
  lemma DispatchKeepsOrder(ds: seq<Dispatch>, buf: seq<Token>, d: Dispatch, rest: seq<Token>)
    requires |buf| > 0 && Raw(d.token) == Raw(buf[0]) && Raws(rest) == Raws(buf[1..])
    ensures Raws(Tokens(ds + [d])) + Raws(rest) == Raws(Tokens(ds)) + Raws(buf)
  {
    assert Tokens(ds + [d]) == Tokens(ds) + [d.token];
    RawsAppend(Tokens(ds), [d.token]);
    RawsAppend([buf[0]], buf[1..]);
    assert buf == [buf[0]] + buf[1..];
  }

  /** A token joining the back of the buffer joins the back of the arrivals. */
  lemma PushKeepsOrder(ts: seq<Token>, buf: seq<Token>, arrived: seq<Token>, token: Token)
    requires Raws(ts) + Raws(buf) == Raws(arrived)
    ensures Raws(ts) + Raws(buf + [token]) == Raws(arrived + [token])
  {
    RawsAppend(buf, [token]);
    RawsAppend(arrived, [token]);
  }

  class TracerV {
    /** `offset_inst_to_page`: preinitialised to 2048 slots, never resized. */
    const table: array<Slot>
    /** `kernel_objdump`. */
    const kernel: Binary
    /** The loaded user programs; program `i` has id `i + 1`. */
    var users: seq<Binary>
    /** `MATCHING_DEPTH`. */
    const matchingDepth: u8
    /** `retired_buffer`, front first. */
    var retiredBuffer: seq<Token>
    /** Every `addInstruction` call made on a tracker, in order. */
    var dispatched: seq<Dispatch>
    /** Every token that entered the buffer, in order. */
    ghost var arrived: seq<Token>

    /** The index is in shape for matching. */
    ghost predicate Indexing()
      reads this`users, table
    {
      && table.Length == INSTRUCTION_PER_PAGE
      && Numbered(kernel, users)
      && IndexFits(users, table[..])
    }

    /** The index is in shape, the buffer stays below its size, and tokens
        leave in the order they came: what has been dispatched followed by
        what is buffered is what arrived (up to the fields matching fills in). */
    ghost predicate Valid()
      reads this`users, this`retiredBuffer, this`dispatched, this`arrived, table
    {
      && Indexing()
      && |retiredBuffer| < BUFFER_SIZE
      && Raws(Tokens(dispatched)) + Raws(retiredBuffer) == Raws(arrived)
    }

    /** The constructor's part that builds the index: programs are loaded in
        order, each dump read line by line, until a dump cannot be opened. */
    constructor (kernelDump: Binary, programs: seq<UserProgram>, matchingDepth: int)
      requires forall i :: 0 <= i < LoadCount(programs) ==> HexFits(programs[i])
      ensures Valid() && fresh(table)
      ensures kernel == kernelDump.(id := 0)
      ensures users == LoadedPrefix(programs, LoadCount(programs))
      ensures table[..] == TableAfter(programs, LoadCount(programs))
      ensures this.matchingDepth == matchingDepth % TWO_8
      ensures retiredBuffer == [] && dispatched == [] && arrived == []
    {
      table := new Slot[INSTRUCTION_PER_PAGE](_ => map[]);
      kernel := kernelDump.(id := 0);
      users := [];
      this.matchingDepth := matchingDepth % TWO_8;
      retiredBuffer := [];
      dispatched := [];
      arrived := [];
      new;
      assert table[..] == EmptyIndex();
      var i := 0;
      while i < |programs|
        invariant i <= LoadCount(programs)
        invariant users == LoadedPrefix(programs, i)
        invariant table[..] == TableAfter(programs, i)
        invariant Valid()
        invariant retiredBuffer == [] && dispatched == [] && arrived == []
      {
        if programs[i].hex.None? {
          return;
        }
        LoadProgram(programs, i);
        i := i + 1;
      }
    }

    /** One round of the constructor's loop: the `i`-th program, whose dump
        opened, joins the binaries under id `i + 1` and its dump is indexed. */
    method LoadProgram(programs: seq<UserProgram>, i: nat)
      requires i < LoadCount(programs) && HexFits(programs[i])
      requires Valid()
      requires users == LoadedPrefix(programs, i) && table[..] == TableAfter(programs, i)
      modifies this`users, table
      ensures Valid()
      ensures users == LoadedPrefix(programs, i + 1) && table[..] == TableAfter(programs, i + 1)
    {
      var dumped := programs[i].dump.(id := i + 1);
      IndexFitsGrow(users, dumped, table[..]);
      users := users + [dumped];
      assert users == LoadedPrefix(programs, i + 1);
      LoadHex(dumped, programs[i].hex.value);
    }

    /** The `getline` loop over one program's hex dump. */
    method LoadHex(b: Binary, lines: seq<HexLine>)
      requires Indexing()
      requires IsUser(users, b.id) && UserBin(users, b.id) == b
      requires forall j :: 0 <= j < |lines| ==> LineFits(b, lines[j])
      modifies table
      ensures Indexing()
      ensures table[..] == Indexed(old(table[..]), b, lines)
    {
      ghost var idx0 := table[..];
      var n := 0;
      while n < |lines|
        invariant n <= |lines|
        invariant Indexing()
        invariant table[..] == Indexed(idx0, b, lines[..n])
      {
        assert lines[..n + 1][..n] == lines[..n];
        AddHexLine(b, lines[n]);
        n := n + 1;
      }
      assert lines[..n] == lines;
    }

    /** One line of a hex dump: a line without two fields is skipped,
        otherwise (binary, page base) joins the sites of its instruction in
        its slot, and that slot index is always within the table. */
    method AddHexLine(b: Binary, line: HexLine)
      requires Indexing()
      requires IsUser(users, b.id) && UserBin(users, b.id) == b && LineFits(b, line)
      modifies table
      ensures Indexing()
      ensures table[..] == AddLine(old(table[..]), b, line)
    {
      ghost var idx0 := table[..];
      if |line| < 2 {
        return;
      }
      var addr := line[0];
      var instr := line[1];
      var offsetIndex := (addr % BYTES_PER_PAGE) / 2;
      var pair := BinPagePair(b.id, PageOf(addr));
      var m := table[offsetIndex];
      var sites := if instr in m then m[instr] else [];
      table[offsetIndex] := m[instr := sites + [pair]];
      assert table[..] == AddLine(idx0, b, line);
      assert Indexed(idx0, b, [line]) == AddLine(idx0, b, line) by {
        assert [line][..0] == [];
      }
      IndexedFits(users, idx0, b, [line]);
    }

    /** `mapContains`: whether `v` records this page base of this binary. */
    method MapContains(v: seq<BinPagePair>, pageBase: u64, bin: Option<BinId>) returns (r: bool)
      ensures r <==> PairIn(v, pageBase, bin)
    {
      for i := 0 to |v|
        invariant forall j :: 0 <= j < i ==> !(Some(v[j].bin) == bin && v[j].pageBase == pageBase)
      {
        if Some(v[i].bin) == bin && v[i].pageBase == pageBase {
          return true;
        }
      }
      return false;
    }

    /** The sites the index records for an instruction at an address. */
    method SitesFor(addr: u64, inst: u64) returns (v: seq<BinPagePair>)
      requires table.Length == INSTRUCTION_PER_PAGE
      ensures v == Lookup(table[..], addr, inst)
    {
      var m := table[(addr % BYTES_PER_PAGE) / 2];
      v := if inst in m then m[inst] else [];
    }

    /** The loop building `matching_vec`: buffered tokens in order, kept if
        they pass `filterBuffer`, until `MATCHING_DEPTH` are kept. */
    method MatchingWindow(satp: u64) returns (mv: seq<Token>)
      ensures mv == Collected(kernel, retiredBuffer, satp, matchingDepth)
    {
      mv := [];
      var i := 0;
      while |mv| < matchingDepth && i < |retiredBuffer|
        invariant i <= |retiredBuffer|
        invariant mv == Passing(kernel, retiredBuffer[..i], satp)
        invariant |mv| <= matchingDepth
      {
        assert retiredBuffer[..i + 1][..i] == retiredBuffer[..i];
        if FilterBuffer(kernel, retiredBuffer[i], satp) {
          mv := mv + [retiredBuffer[i]];
        }
        i := i + 1;
      }
      PassingPrefix(kernel, retiredBuffer, satp, i);
      if i == |retiredBuffer| {
        assert retiredBuffer[..i] == retiredBuffer;
      }
    }

    /** The outer loop building `matched_sites`: candidates in order, each
        kept when it survives the window. */
    method MatchedSites(mv: seq<Token>, t: Token, sites: seq<BinPagePair>) returns (matched: seq<BinPagePair>)
      requires table.Length == INSTRUCTION_PER_PAGE
      ensures matched == Survivors(table[..], mv, t, sites)
    {
      matched := [];
      for j := 0 to |sites|
        invariant matched == Survivors(table[..], mv, t, sites[..j])
      {
        SurvivorsStep(table[..], mv, t, sites, j);
        var keep := SiteSurvives(mv, t, sites[j]);
        if keep {
          matched := matched + [sites[j]];
        }
      }
      assert sites[..|sites|] == sites;
    }

    /** The inner loop over the window for one candidate site: it stops at
        the first token not recorded at its relocated page, and the site is
        kept when the last window token is reached. */
    method SiteSurvives(mv: seq<Token>, t: Token, s: BinPagePair) returns (keep: bool)
      requires table.Length == INSTRUCTION_PER_PAGE
      ensures keep == Survives(table[..], mv, t, s)
    {
      keep := false;
      var i := 0;
      while i < |mv|
        invariant i <= |mv|
        invariant forall k :: 0 <= k < i ==>
          PairIn(Lookup(table[..], mv[k].iaddr, mv[k].inst), Reloc(mv[k], t, s), Some(s.bin))
        invariant keep == (i == |mv| && i > 0)
      {
        var m := mv[i];
        var p := Wrap64(PageOf(m.iaddr) - PageOf(t.iaddr) + s.pageBase);
        var v := SitesFor(m.iaddr, m.inst);
        var ok := MapContains(v, p, Some(s.bin));
        if !ok {
          return;
        }
        if i == |mv| - 1 {
          keep := true;
        }
        i := i + 1;
      }
    }

    /** The back-propagation loop: rewrites buffered tokens in place. */
    method BackPropagate(t: Token, b: Binary)
      modifies this`retiredBuffer
      ensures retiredBuffer == BackProp(old(retiredBuffer), t, b)
    {
      ghost var buf0 := retiredBuffer;
      var i := 0;
      while i < |retiredBuffer|
        invariant i <= |retiredBuffer| == |buf0|
        invariant forall k :: 0 <= k < i ==> retiredBuffer[k] == Rewrite(buf0[k], t, b)
        invariant forall k :: i <= k < |buf0| ==> retiredBuffer[k] == buf0[k]
      {
        ghost var before := retiredBuffer;
        var u := retiredBuffer[i];
        if u.satp == t.satp && u.priv == 0 {
          var potentialPageBase := Wrap64(PageOf(u.iaddr) + t.pageBase - PageOf(t.iaddr));
          var index := Wrap64(u.iaddr % BYTES_PER_PAGE + potentialPageBase - b.baseaddr);
          if index < |b.progtext| {
            retiredBuffer := retiredBuffer[i := u.(instrMeta := b.progtext[index], bin := Some(b.id),
                                                   pageBase := potentialPageBase)];
          }
        }
        assert retiredBuffer == before[i := Rewrite(buf0[i], t, b)];
        i := i + 1;
      }
    }

    /** `matchInstruction`: resolves `token` (passed by reference, so it is
        returned) and may back-propagate into the buffer. */
    method MatchInstruction(token: Token) returns (found: bool, t: Token)
      requires Indexing()
      modifies this`retiredBuffer
      ensures Matched(found, t, retiredBuffer) ==
        Match(kernel, users, table[..], old(retiredBuffer), matchingDepth, token)
    {
      t := token;
      if t.iaddr >= kernel.baseaddr && t.iaddr - kernel.baseaddr < |kernel.progtext| {
        t := t.(instrMeta := kernel.progtext[t.iaddr - kernel.baseaddr], bin := Some(kernel.id));
        return true, t;
      }
      var computedAddr := Wrap64(t.iaddr - DRAM_ROOT);
      if t.iaddr >= DRAM_ROOT && computedAddr < |kernel.progtext| {
        t := t.(instrMeta := kernel.progtext[computedAddr], bin := Some(kernel.id));
        return true, t;
      }
      if t.instrMeta.Some? {
        var possibleSites := SitesFor(t.iaddr, t.inst);
        var ok := MapContains(possibleSites, t.pageBase, t.bin);
        if ok {
          return true, t;
        }
        t := t.(bin := None, instrMeta := None, pageBase := 0);
      }
      assert t == Unconfirmed(token);
      found, t := MatchUserInstruction(t);
    }

    /** The user-space part of `matchInstruction`: candidate sites, the
        matching window, the survivors and, on a unique one, the match and
        its back-propagation. */
    method MatchUserInstruction(token: Token) returns (found: bool, t: Token)
      requires Indexing()
      modifies this`retiredBuffer
      ensures Matched(found, t, retiredBuffer) ==
        MatchUser(kernel, users, table[..], old(retiredBuffer), matchingDepth, token)
    {
      t := token;
      var possibleSites := SitesFor(t.iaddr, t.inst);
      if |possibleSites| == 0 {
        return false, t;
      }
      var matchingVec := MatchingWindow(t.satp);
      var matchedSites := MatchedSites(matchingVec, t, possibleSites);
      if |matchedSites| == 0 {
        return false, t;
      } else if |matchedSites| == 1 {
        t := MatchUniqueSite(t, matchedSites[0], matchingVec, possibleSites);
        return true, t;
      }
      for i := 1 to |matchedSites| {
        if matchedSites[0].bin != matchedSites[i].bin {
          return false, t;
        }
      }
      return false, t;
    }

    /** The unique-survivor branch of `matchInstruction`: the token takes the
        site's binary, page base and record, then the match is propagated
        back through the buffer. */
    method MatchUniqueSite(token: Token, s: BinPagePair, ghost mv: seq<Token>, ghost sites: seq<BinPagePair>)
      returns (t: Token)
      requires Indexing()
      requires sites == Lookup(table[..], token.iaddr, token.inst)
      requires s in Survivors(table[..], mv, token, sites)
      modifies this`retiredBuffer
      ensures var b := SiteBinary(users, table[..], mv, token, sites, s);
        && t == token.(instrMeta := b.progtext[SiteIndex(token, s, b)], bin := Some(s.bin), pageBase := s.pageBase)
        && retiredBuffer == BackProp(old(retiredBuffer), t, b)
    {
      ghost var b0 := SiteBinary(users, table[..], mv, token, sites, s);
      var b := users[s.bin - 1];
      t := token.(instrMeta := b.progtext[Wrap64(token.iaddr % BYTES_PER_PAGE + s.pageBase - b.baseaddr)],
                  bin := Some(s.bin));
      t := t.(pageBase := s.pageBase);
      BackPropagate(t, b);
    }

    /** The second half of `matchAddInstruction`: the front token leaves the
        buffer, is matched and is handed to its tracker; no token is lost or
        reordered. */
    method DispatchFront()
      requires Indexing() && |retiredBuffer| > 0
      modifies this`retiredBuffer, this`dispatched
      ensures var m := Match(kernel, users, table[..], old(retiredBuffer)[1..], matchingDepth, old(retiredBuffer)[0]);
        retiredBuffer == m.buffer && dispatched == old(dispatched) + [Route(kernel, users, m)]
      ensures Raws(Tokens(dispatched)) + Raws(retiredBuffer) ==
        Raws(Tokens(old(dispatched))) + Raws(old(retiredBuffer))
    {
      ghost var b := retiredBuffer;
      var curToken := retiredBuffer[0];
      retiredBuffer := retiredBuffer[1..];
      var found, t := MatchInstruction(curToken);
      MatchKeepsRaw(kernel, users, table[..], b[1..], matchingDepth, curToken);
      var name := if found && t.bin.Some? then TrackerName(kernel, users, t.bin.value) else MISC;
      assert Dispatch(name, t) == Route(kernel, users, Matched(found, t, retiredBuffer));
      DispatchKeepsOrder(dispatched, b, Dispatch(name, t), retiredBuffer);
      dispatched := dispatched + [Dispatch(name, t)];
    }

    /** `matchAddInstruction`: a new token joins the back of the buffer and,
        once the buffer is full (or when flushing), the front token leaves
        it, is matched and is handed to its tracker. */
    method MatchAddInstruction(token: Token, flush: bool)
      requires Valid()
      requires flush ==> |retiredBuffer| > 0
      modifies this`retiredBuffer, this`dispatched, this`arrived
      ensures Valid()
      ensures arrived == old(arrived) + (if flush then [] else [token])
      ensures flush ==> |retiredBuffer| == |old(retiredBuffer)| - 1
      ensures !flush && |old(retiredBuffer)| + 1 < BUFFER_SIZE ==>
        retiredBuffer == old(retiredBuffer) + [token] && dispatched == old(dispatched)
      ensures flush || |old(retiredBuffer)| + 1 >= BUFFER_SIZE ==>
        var b := old(retiredBuffer) + (if flush then [] else [token]);
        var m := Match(kernel, users, table[..], b[1..], matchingDepth, b[0]);
        retiredBuffer == m.buffer && dispatched == old(dispatched) + [Route(kernel, users, m)]
    {
      if !flush {
        PushKeepsOrder(Tokens(dispatched), retiredBuffer, arrived, token);
        retiredBuffer := retiredBuffer + [token];
        arrived := arrived + [token];
        if |retiredBuffer| < BUFFER_SIZE {
          return;
        }
      }
      ghost var b := retiredBuffer;
      assert b == old(retiredBuffer) + (if flush then [] else [token]);
      DispatchFront();
      ghost var m := Match(kernel, users, table[..], b[1..], matchingDepth, b[0]);
      assert retiredBuffer == m.buffer && dispatched == old(dispatched) + [Route(kernel, users, m)];
      assert |Raws(retiredBuffer)| == |retiredBuffer|;
    }

    /** The draining loop of `flush`: until the buffer is empty, the front
        token is matched and dispatched, so every token that arrived has
        been dispatched, in arrival order. */
    method Flush()
      requires Valid()
      modifies this`retiredBuffer, this`dispatched, this`arrived
      ensures Valid()
      ensures retiredBuffer == [] && arrived == old(arrived)
      ensures old(dispatched) <= dispatched
      ensures Raws(Tokens(dispatched)) == Raws(arrived)
    {
      while |retiredBuffer| > 0
        invariant Valid()
        invariant arrived == old(arrived)
        invariant old(dispatched) <= dispatched
        decreases |retiredBuffer|
      {
        MatchAddInstruction(IdleToken(), true);
      }
      assert Raws([]) == [];
      assert Raws(Tokens(dispatched)) + [] == Raws(Tokens(dispatched));
    }

    /** The FirePerf userspace loop of `process_tokens`: every beat whose
        valid bit is set becomes a token passed to `matchAddInstruction`. */
    method ProcessTokens(words: seq<u64>)
      requires Valid()
      requires |words| % WORDS_PER_BEAT == 0
      modifies this`retiredBuffer, this`dispatched, this`arrived
      ensures Valid()
      ensures arrived == old(arrived) + DecodeBeats(words)
      ensures old(dispatched) <= dispatched
    {
      var i := 0;
      while i < |words|
        invariant i <= |words| && i % WORDS_PER_BEAT == 0
        invariant Valid()
        invariant arrived == old(arrived) + DecodeBeats(words[..i])
        invariant old(dispatched) <= dispatched
      {
        DecodeNextBeat(old(arrived), words, i);
        ProcessBeat(words[i..i + WORDS_PER_BEAT]);
        i := i + WORDS_PER_BEAT;
      }
      assert words[..i] == words;
    }

    /** One beat of `process_tokens`: a valid one is decoded and matched. */
    method ProcessBeat(beat: seq<u64>)
      requires Valid()
      requires |beat| == WORDS_PER_BEAT
      modifies this`retiredBuffer, this`dispatched, this`arrived
      ensures Valid()
      ensures arrived == old(arrived) + BeatTokens(beat)
      ensures old(dispatched) <= dispatched
    {
      var cycleInternal := beat[0];
      if Bit40(beat[1]) {
        var iaddr := SignExtend40(beat[1]);
        var token := Token(cycleInternal, iaddr, beat[2], beat[3], beat[4] % TWO_8, None, None, 0);
        MatchAddInstruction(token, false);
      }
    }
  }
}
