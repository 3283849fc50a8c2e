/** What the TracerV matcher computes (tracerv.cc), stated on values: the
    (page offset, instruction bits) index built from the user programs' hex
    dumps, the filter on buffered tokens, the survivor test on candidate
    sites, back-propagation, and the outcome of `matchInstruction` as one
    function. The bridge object in module TracerV is proved against these. */
module Matching {
  import opened Words
  import opened Wrappers
  import opened Processing
  import opened TraceTypes

  const BYTES_PER_PAGE: nat := 4096
  const INSTRUCTION_PER_PAGE: nat := 2048
  const DRAM_ROOT: nat := 0x8000_0000

  /** One slot of the index: instruction bits to candidate sites. */
  type Slot = map<u64, seq<BinPagePair>>

  /** `offset_inst_to_page`, one slot per half-word offset in a page. */
  type Index = seq<Slot>

  /** `(addr % BYTES_PER_PAGE) >> 1`: the half-word offset of `addr` in its page. */
  function SlotOf(addr: u64): (k: nat)
    ensures k < INSTRUCTION_PER_PAGE
    ensures 2 * k <= addr % BYTES_PER_PAGE <= 2 * k + 1
    ensures PageOf(addr) + 2 * k == addr - addr % 2
  {
    (addr % BYTES_PER_PAGE) / 2
  }

  /** `offset_inst_to_page[SlotOf(addr)][inst]`: the sites recorded for an
      instruction at that offset, none when the key is absent. */
  function Lookup(idx: Index, addr: u64, inst: u64): seq<BinPagePair>
    requires |idx| == INSTRUCTION_PER_PAGE
  {
    var m := idx[SlotOf(addr)];
    if inst in m then m[inst] else []
  }

  // ---------------------------------------------------------------------
  // Binaries and the index invariant
  // ---------------------------------------------------------------------

  /** Binaries are numbered in load order: the kernel 0, user programs 1, 2, ... */
  predicate Numbered(kernel: Binary, users: seq<Binary>)
  {
    kernel.id == 0 && forall i :: 0 <= i < |users| ==> users[i].id == i + 1
  }

  predicate IsUser(users: seq<Binary>, id: BinId)
  {
    1 <= id <= |users|
  }

  function UserBin(users: seq<Binary>, id: BinId): Binary
    requires IsUser(users, id)
  {
    users[id - 1]
  }

  /** Both bytes of the half-word at `addr` lie in the binary's text. */
  predicate HalfWordInText(b: Binary, addr: int)
  {
    b.baseaddr <= addr && addr + 1 - b.baseaddr < |b.progtext|
  }

  /** A site recorded in slot `k` names a loaded user program whose text
      holds the half-word at offset `2k` of the site's page. */
  predicate PairFits(users: seq<Binary>, p: BinPagePair, k: nat)
  {
    IsUser(users, p.bin) && HalfWordInText(UserBin(users, p.bin), p.pageBase + 2 * k)
  }

  predicate SlotFits(users: seq<Binary>, m: Slot, k: nat)
  {
    forall inst :: inst in m ==> forall j :: 0 <= j < |m[inst]| ==> PairFits(users, m[inst][j], k)
  }

  /** The index has its 2048 slots and every site in it fits: this is what
      makes the unchecked `progtext` read of a unique match stay in range. */
  predicate IndexFits(users: seq<Binary>, idx: Index)
  {
    |idx| == INSTRUCTION_PER_PAGE && forall k :: 0 <= k < |idx| ==> SlotFits(users, idx[k], k)
  }

  function EmptyIndex(): (idx: Index)
    ensures |idx| == INSTRUCTION_PER_PAGE
    ensures forall users :: IndexFits(users, idx)
  {
    seq(INSTRUCTION_PER_PAGE, _ => map[])
  }

  lemma LookupFits(users: seq<Binary>, idx: Index, addr: u64, inst: u64)
    requires IndexFits(users, idx)
    ensures forall j :: 0 <= j < |Lookup(idx, addr, inst)| ==>
      PairFits(users, Lookup(idx, addr, inst)[j], SlotOf(addr))
  {
  }

  /** Loading one more program keeps every recorded site fitting. */
  lemma IndexFitsGrow(users: seq<Binary>, b: Binary, idx: Index)
    requires IndexFits(users, idx)
    ensures IndexFits(users + [b], idx)
  {
    forall k, inst, j | 0 <= k < |idx| && inst in idx[k] && 0 <= j < |idx[k][inst]|
      ensures PairFits(users + [b], idx[k][inst][j], k)
    {
      assert PairFits(users, idx[k][inst][j], k);
    }
  }

  // ---------------------------------------------------------------------
  // Building the index from hex dumps
  // ---------------------------------------------------------------------

  /** A line of a hex dump, split at spaces and read as hex numbers: the
      instruction address, then the instruction bits. */
  type HexLine = seq<u64>

  /** A line the index records lies in the binary's text (the dump lists
      the binary's own instructions, each at least a half-word long). */
  predicate LineFits(b: Binary, line: HexLine)
  {
    |line| >= 2 ==> HalfWordInText(b, line[0] - line[0] % 2)
  }

  /** One line of the constructor's `getline` loop: a line with fewer than
      two fields is skipped; otherwise (binary, page base) is appended to the
      sites of its instruction in its slot. */
  function AddLine(idx: Index, b: Binary, line: HexLine): (r: Index)
    requires |idx| == INSTRUCTION_PER_PAGE
    ensures |r| == INSTRUCTION_PER_PAGE
  {
    if |line| < 2 then idx
    else
      var addr, inst := line[0], line[1];
      var k := SlotOf(addr);
      idx[k := idx[k][inst := Lookup(idx, addr, inst) + [BinPagePair(b.id, PageOf(addr))]]]
  }

  /** The index after reading a whole hex dump, line by line. */
  function Indexed(idx: Index, b: Binary, lines: seq<HexLine>): (r: Index)
    requires |idx| == INSTRUCTION_PER_PAGE
    ensures |r| == INSTRUCTION_PER_PAGE
    decreases |lines|
  {
    if |lines| == 0 then idx
    else AddLine(Indexed(idx, b, lines[..|lines| - 1]), b, lines[|lines| - 1])
  }

  /** A line appends its site to exactly one list, the one of its own slot
      and instruction; every other list is unchanged. */
  lemma AddLineEffect(idx: Index, b: Binary, line: HexLine, addr: u64, inst: u64)
    requires |idx| == INSTRUCTION_PER_PAGE
    ensures Lookup(AddLine(idx, b, line), addr, inst) ==
      Lookup(idx, addr, inst) +
      (if |line| >= 2 && SlotOf(addr) == SlotOf(line[0]) && inst == line[1]
       then [BinPagePair(b.id, PageOf(line[0]))] else [])
  {
  }

  /** After a hex dump is read, each of its two-field lines has its site
      recorded under its own offset and instruction, and what the index held
      before is kept, in front. */
  lemma {:induction false} IndexedRecords(idx: Index, b: Binary, lines: seq<HexLine>)
    requires |idx| == INSTRUCTION_PER_PAGE
    ensures forall j :: 0 <= j < |lines| && |lines[j]| >= 2 ==>
      BinPagePair(b.id, PageOf(lines[j][0])) in Lookup(Indexed(idx, b, lines), lines[j][0], lines[j][1])
    ensures forall addr, inst :: Lookup(idx, addr, inst) <= Lookup(Indexed(idx, b, lines), addr, inst)
    decreases |lines|
  {
    if |lines| > 0 {
      var n := |lines| - 1;
      var before := Indexed(idx, b, lines[..n]);
      IndexedRecords(idx, b, lines[..n]);
      forall addr, inst
        ensures Lookup(before, addr, inst) <= Lookup(Indexed(idx, b, lines), addr, inst)
      {
        AddLineEffect(before, b, lines[n], addr, inst);
      }
      forall j | 0 <= j < |lines| && |lines[j]| >= 2
        ensures BinPagePair(b.id, PageOf(lines[j][0])) in Lookup(Indexed(idx, b, lines), lines[j][0], lines[j][1])
      {
        AddLineEffect(before, b, lines[n], lines[j][0], lines[j][1]);
        if j < n {
          assert lines[..n][j] == lines[j];
        }
      }
    }
  }

  /** Reading the dump of a loaded program whose lines lie in its text keeps
      the index invariant. */
  lemma {:induction false} IndexedFits(users: seq<Binary>, idx: Index, b: Binary, lines: seq<HexLine>)
    requires IndexFits(users, idx)
    requires IsUser(users, b.id) && UserBin(users, b.id) == b
    requires forall j :: 0 <= j < |lines| ==> LineFits(b, lines[j])
    ensures IndexFits(users, Indexed(idx, b, lines))
    decreases |lines|
  {
    if |lines| > 0 {
      var n := |lines| - 1;
      var before := Indexed(idx, b, lines[..n]);
      IndexedFits(users, idx, b, lines[..n]);
      var line := lines[n];
      assert LineFits(b, line);
      if |line| >= 2 {
        var k := SlotOf(line[0]);
        var after := Indexed(idx, b, lines);
        assert PairFits(users, BinPagePair(b.id, PageOf(line[0])), k);
        forall k' | 0 <= k' < |after|
          ensures SlotFits(users, after[k'], k')
        {
          if k' == k {
            forall inst, j | inst in after[k] && 0 <= j < |after[k][inst]|
              ensures PairFits(users, after[k][inst][j], k)
            {
              AddLineEffect(before, b, line, line[0], inst);
              assert after[k][inst] == Lookup(after, line[0], inst);
              if inst != line[1] || j < |Lookup(before, line[0], inst)| {
                assert after[k][inst][j] == Lookup(before, line[0], inst)[j];
                LookupFits(users, before, line[0], inst);
              }
            }
          } else {
            assert after[k'] == before[k'];
          }
        }
      }
    }
  }

  // ---------------------------------------------------------------------
  // Candidate sites and the matching window
  // ---------------------------------------------------------------------

  /** `v` holds a site with this page base and this (possibly null) binary. */
  predicate PairIn(v: seq<BinPagePair>, pageBase: u64, bin: Option<BinId>)
  {
    exists i :: 0 <= i < |v| && Some(v[i].bin) == bin && v[i].pageBase == pageBase
  }

  /** `filterBuffer`: a buffered token may help match the current one only
      if it is not a kernel instruction and runs in the same address space. */
  function FilterBuffer(kernel: Binary, t: Token, satp: u64): (keep: bool)
    ensures keep <==> !InText(kernel, t.iaddr) && t.satp == satp
  {
    !(InText(kernel, t.iaddr) || satp != t.satp)
  }

  /** The buffered tokens that pass the filter, in buffer order. */
  function Passing(kernel: Binary, buf: seq<Token>, satp: u64): (p: seq<Token>)
    ensures |p| <= |buf|
    decreases |buf|
  {
    if |buf| == 0 then []
    else
      var last := buf[|buf| - 1];
      Passing(kernel, buf[..|buf| - 1], satp) + (if FilterBuffer(kernel, last, satp) then [last] else [])
  }

  /** `matching_vec`: the first `depth` tokens that pass the filter. */
  function Collected(kernel: Binary, buf: seq<Token>, satp: u64, depth: nat): (mv: seq<Token>)
    ensures |mv| <= depth
  {
    var p := Passing(kernel, buf, satp);
    if |p| <= depth then p else p[..depth]
  }

  /** Exactly the tokens of the buffer that pass the filter are passing. */
  lemma {:induction false} PassingExact(kernel: Binary, buf: seq<Token>, satp: u64)
    ensures forall t :: t in Passing(kernel, buf, satp) <==> t in buf && FilterBuffer(kernel, t, satp)
    decreases |buf|
  {
    if |buf| > 0 {
      PassingExact(kernel, buf[..|buf| - 1], satp);
      assert buf == buf[..|buf| - 1] + [buf[|buf| - 1]];
    }
  }

  /** Filtering a prefix of the buffer gives a prefix of the filtered buffer. */
  lemma {:induction false} PassingPrefix(kernel: Binary, buf: seq<Token>, satp: u64, i: nat)
    requires i <= |buf|
    ensures Passing(kernel, buf[..i], satp) <= Passing(kernel, buf, satp)
    decreases |buf| - i
  {
    if i < |buf| {
      PassingPrefix(kernel, buf, satp, i + 1);
      assert buf[..i + 1][..i] == buf[..i];
    } else {
      assert buf[..i] == buf;
    }
  }

  /** The window holds at most `depth` tokens, all passing the filter, in
      buffer order, and no passing token is skipped before it fills up. */
  lemma CollectedSpec(kernel: Binary, buf: seq<Token>, satp: u64, depth: nat)
    ensures var mv := Collected(kernel, buf, satp, depth);
      && mv <= Passing(kernel, buf, satp)
      && |mv| == (if |Passing(kernel, buf, satp)| <= depth then |Passing(kernel, buf, satp)| else depth)
      && forall i :: 0 <= i < |mv| ==> mv[i] in buf && FilterBuffer(kernel, mv[i], satp)
  {
    PassingExact(kernel, buf, satp);
    var p := Passing(kernel, buf, satp);
    var mv := Collected(kernel, buf, satp, depth);
    forall i | 0 <= i < |mv|
      ensures mv[i] in buf && FilterBuffer(kernel, mv[i], satp)
    {
      assert mv[i] == p[i];
    }
  }

  /** Where token `m` would sit if the current token `t` sat on site `s`:
      the pages keep their distance, in 64-bit arithmetic. */
  function Reloc(m: Token, t: Token, s: BinPagePair): u64
  {
    Wrap64(PageOf(m.iaddr) - PageOf(t.iaddr) + s.pageBase)
  }

  /** A candidate site survives when the window is non-empty and every token
      in it is recorded at its relocated page of the same binary. */
  predicate Survives(idx: Index, mv: seq<Token>, t: Token, s: BinPagePair)
    requires |idx| == INSTRUCTION_PER_PAGE
  {
    |mv| > 0 &&
    forall i :: 0 <= i < |mv| ==>
      PairIn(Lookup(idx, mv[i].iaddr, mv[i].inst), Reloc(mv[i], t, s), Some(s.bin))
  }

  /** `matched_sites`: the surviving candidates, in candidate order. */
  function Survivors(idx: Index, mv: seq<Token>, t: Token, sites: seq<BinPagePair>): (r: seq<BinPagePair>)
    requires |idx| == INSTRUCTION_PER_PAGE
    ensures |r| <= |sites|
    decreases |sites|
  {
    if |sites| == 0 then []
    else
      var s := sites[|sites| - 1];
      Survivors(idx, mv, t, sites[..|sites| - 1]) + (if Survives(idx, mv, t, s) then [s] else [])
  }

  /** Survivors of one more candidate: the earlier ones, then that one if it
      survives. */
  lemma SurvivorsStep(idx: Index, mv: seq<Token>, t: Token, sites: seq<BinPagePair>, j: nat)
    requires |idx| == INSTRUCTION_PER_PAGE && j < |sites|
    ensures Survivors(idx, mv, t, sites[..j + 1]) ==
      Survivors(idx, mv, t, sites[..j]) + (if Survives(idx, mv, t, sites[j]) then [sites[j]] else [])
  {
    assert sites[..j + 1][..j] == sites[..j];
  }

  /** The survivors are exactly the candidates that survive; with an empty
      window there are none. */
  lemma {:induction false} SurvivorsExact(idx: Index, mv: seq<Token>, t: Token, sites: seq<BinPagePair>)
    requires |idx| == INSTRUCTION_PER_PAGE
    ensures forall s :: s in Survivors(idx, mv, t, sites) <==> s in sites && Survives(idx, mv, t, s)
    ensures |mv| == 0 ==> Survivors(idx, mv, t, sites) == []
    decreases |sites|
  {
    if |sites| > 0 {
      SurvivorsExact(idx, mv, t, sites[..|sites| - 1]);
      assert sites == sites[..|sites| - 1] + [sites[|sites| - 1]];
    }
  }

  // ---------------------------------------------------------------------
  // Back-propagation
  // ---------------------------------------------------------------------

  /** The page base a buffered user token `u` gets once `t` is matched. */
  function PotentialPageBase(u: Token, t: Token): u64
  {
    Wrap64(PageOf(u.iaddr) + t.pageBase - PageOf(t.iaddr))
  }

  /** The offset into `b`'s text that page base gives `u`. */
  function PotentialIndex(u: Token, t: Token, b: Binary): u64
  {
    Wrap64(u.iaddr % BYTES_PER_PAGE + PotentialPageBase(u, t) - b.baseaddr)
  }

  /** Whether the match of `t` to `b` carries over to the buffered token `u`. */
  predicate Propagates(u: Token, t: Token, b: Binary)
  {
    u.satp == t.satp && u.priv == 0 && PotentialIndex(u, t, b) < |b.progtext|
  }

  /** One iteration of the back-propagation loop. */
  function Rewrite(u: Token, t: Token, b: Binary): (r: Token)
  {
    if Propagates(u, t, b) then
      u.(instrMeta := b.progtext[PotentialIndex(u, t, b)], bin := Some(b.id),
         pageBase := PotentialPageBase(u, t))
    else u
  }

  function BackProp(buf: seq<Token>, t: Token, b: Binary): (r: seq<Token>)
    ensures |r| == |buf|
  {
    seq(|buf|, i requires 0 <= i < |buf| => Rewrite(buf[i], t, b))
  }

  /** Back-propagation rewrites a buffered token exactly when it runs in the
      same address space, in user mode, and lands inside the binary; such a
      token takes the binary, its page base and the record at that offset,
      and every other token is left as it was. */
  lemma BackPropExact(buf: seq<Token>, t: Token, b: Binary)
    ensures forall i :: 0 <= i < |buf| ==>
      (Propagates(buf[i], t, b) ==>
         BackProp(buf, t, b)[i] == buf[i].(bin := Some(b.id),
                                           pageBase := PotentialPageBase(buf[i], t),
                                           instrMeta := b.progtext[PotentialIndex(buf[i], t, b)]))
    ensures forall i :: 0 <= i < |buf| ==>
      (!Propagates(buf[i], t, b) ==> BackProp(buf, t, b)[i] == buf[i])
  {
  }

  // ---------------------------------------------------------------------
  // matchInstruction
  // ---------------------------------------------------------------------

  /** The outcome of `matchInstruction`: its result, the token it was given
      (passed by reference) and the retired buffer afterwards. */
  datatype Matched = Matched(found: bool, token: Token, buffer: seq<Token>)

  /** The address falls in the kernel through its DRAM alias. */
  predicate InDramAlias(kernel: Binary, addr: u64)
  {
    addr >= DRAM_ROOT && Wrap64(addr - DRAM_ROOT) < |kernel.progtext|
  }

  /** `token.instr_meta` was set by an earlier back-propagation and the index
      still confirms its (binary, page base). */
  predicate Confirmed(idx: Index, t: Token)
    requires |idx| == INSTRUCTION_PER_PAGE
  {
    t.instrMeta.Some? && PairIn(Lookup(idx, t.iaddr, t.inst), t.pageBase, t.bin)
  }

  /** A token whose earlier match is not confirmed loses it. */
  function Unconfirmed(t: Token): (r: Token)
    ensures r.instrMeta.None?
  {
    if t.instrMeta.Some? then t.(bin := None, instrMeta := None, pageBase := 0) else t
  }

  /** `matchInstruction` in full. */
  function Match(kernel: Binary, users: seq<Binary>, idx: Index, buf: seq<Token>, depth: nat, token: Token): (m: Matched)
    requires IndexFits(users, idx)
  {
    if InText(kernel, token.iaddr) then
      Matched(true, token.(instrMeta := kernel.progtext[token.iaddr - kernel.baseaddr], bin := Some(kernel.id)), buf)
    else if InDramAlias(kernel, token.iaddr) then
      Matched(true, token.(instrMeta := kernel.progtext[Wrap64(token.iaddr - DRAM_ROOT)], bin := Some(kernel.id)), buf)
    else if Confirmed(idx, token) then
      Matched(true, token, buf)
    else
      MatchUser(kernel, users, idx, buf, depth, Unconfirmed(token))
  }

  /** The user-space part of `matchInstruction`, from the lookup of the
      candidate sites on. */
  function MatchUser(kernel: Binary, users: seq<Binary>, idx: Index, buf: seq<Token>, depth: nat, t: Token): (m: Matched)
    requires IndexFits(users, idx)
  {
    var sites := Lookup(idx, t.iaddr, t.inst);
    if |sites| == 0 then Matched(false, t, buf)
    else
      var matched := Survivors(idx, Collected(kernel, buf, t.satp, depth), t, sites);
      if |matched| != 1 then Matched(false, t, buf)
      else
        var s := matched[0];
        var b := SiteBinary(users, idx, Collected(kernel, buf, t.satp, depth), t, sites, s);
        var t' := t.(instrMeta := b.progtext[SiteIndex(t, s, b)], bin := Some(s.bin), pageBase := s.pageBase);
        Matched(true, t', BackProp(buf, t', b))
  }

  /** `token.iaddr % BYTES_PER_PAGE + page_base - bin->baseaddr`. */
  function SiteIndex(t: Token, s: BinPagePair, b: Binary): u64
  {
    Wrap64(t.iaddr % BYTES_PER_PAGE + s.pageBase - b.baseaddr)
  }

  /** The binary of a surviving site: a loaded user program whose text holds
      the token's offset on that site's page. */
  function SiteBinary(users: seq<Binary>, idx: Index, mv: seq<Token>, t: Token, sites: seq<BinPagePair>, s: BinPagePair): (b: Binary)
    requires IndexFits(users, idx) && sites == Lookup(idx, t.iaddr, t.inst)
    requires s in Survivors(idx, mv, t, sites)
    ensures IsUser(users, s.bin) && b == UserBin(users, s.bin)
    ensures SiteIndex(t, s, b) < |b.progtext|
  {
    SurvivorsExact(idx, mv, t, sites);
    LookupFits(users, idx, t.iaddr, t.inst);
    assert PairFits(users, s, SlotOf(t.iaddr));
    UserBin(users, s.bin)
  }

  /** The outcome of a match: the kernel ranges and a confirmed earlier match
      succeed; otherwise success means exactly one surviving candidate, and
      an empty window leaves none. */
  lemma MatchOutcome(kernel: Binary, users: seq<Binary>, idx: Index, buf: seq<Token>, depth: nat, token: Token)
    requires IndexFits(users, idx)
    ensures var m := Match(kernel, users, idx, buf, depth, token);
      var t := Unconfirmed(token);
      var mv := Collected(kernel, buf, t.satp, depth);
      var sv := Survivors(idx, mv, t, Lookup(idx, t.iaddr, t.inst));
      && (m.found <==> InText(kernel, token.iaddr) || InDramAlias(kernel, token.iaddr)
                       || Confirmed(idx, token) || |sv| == 1)
      && (|mv| == 0 ==> |sv| == 0)
  {
    var t := Unconfirmed(token);
    SurvivorsExact(idx, Collected(kernel, buf, t.satp, depth), t, Lookup(idx, t.iaddr, t.inst));
  }

  /** A kernel address resolves to the kernel binary and the record at its
      offset, through the direct range first and the DRAM alias second; the
      buffer is not touched. */
  lemma MatchKernel(kernel: Binary, users: seq<Binary>, idx: Index, buf: seq<Token>, depth: nat, token: Token)
    requires IndexFits(users, idx)
    requires InText(kernel, token.iaddr) || InDramAlias(kernel, token.iaddr)
    ensures var m := Match(kernel, users, idx, buf, depth, token);
      && m.found && m.buffer == buf
      && m.token == token.(bin := Some(kernel.id),
                           instrMeta := kernel.progtext[if InText(kernel, token.iaddr)
                                                        then token.iaddr - kernel.baseaddr
                                                        else token.iaddr - DRAM_ROOT])
  {
  }

  /** A user token with no candidate site, or with candidates but an empty
      window or several survivors, is not matched; it keeps no record and the
      buffer is unchanged. */
  lemma MatchFails(kernel: Binary, users: seq<Binary>, idx: Index, buf: seq<Token>, depth: nat, token: Token)
    requires IndexFits(users, idx)
    requires !InText(kernel, token.iaddr) && !InDramAlias(kernel, token.iaddr) && !Confirmed(idx, token)
    requires var t := Unconfirmed(token);
      var mv := Collected(kernel, buf, t.satp, depth);
      |Lookup(idx, t.iaddr, t.inst)| == 0 || |mv| == 0 ||
      |Survivors(idx, mv, t, Lookup(idx, t.iaddr, t.inst))| >= 2
    ensures var m := Match(kernel, users, idx, buf, depth, token);
      !m.found && m.token == Unconfirmed(token) && m.buffer == buf
  {
    MatchOutcome(kernel, users, idx, buf, depth, token);
  }

  /** A unique survivor gives the token that site's binary, page base and
      the record at the token's offset on that page, and back-propagates the
      match through the buffer. */
  lemma MatchUnique(kernel: Binary, users: seq<Binary>, idx: Index, buf: seq<Token>, depth: nat, token: Token, s: BinPagePair)
    requires IndexFits(users, idx)
    requires !InText(kernel, token.iaddr) && !InDramAlias(kernel, token.iaddr) && !Confirmed(idx, token)
    requires var t := Unconfirmed(token);
      Survivors(idx, Collected(kernel, buf, t.satp, depth), t, Lookup(idx, t.iaddr, t.inst)) == [s]
    ensures IsUser(users, s.bin)
    ensures var m := Match(kernel, users, idx, buf, depth, token);
      var t := Unconfirmed(token);
      var b := UserBin(users, s.bin);
      && m.found
      && SiteIndex(t, s, b) < |b.progtext|
      && m.token == t.(instrMeta := b.progtext[SiteIndex(t, s, b)], bin := Some(s.bin), pageBase := s.pageBase)
      && m.buffer == BackProp(buf, m.token, b)
  {
    var t := Unconfirmed(token);
    MatchUserUnique(kernel, users, idx, buf, depth, t, s);
    MatchDelegates(kernel, users, idx, buf, depth, token);
  }

  /** A token outside the kernel and not confirmed goes to `MatchUser`. */
  lemma MatchDelegates(kernel: Binary, users: seq<Binary>, idx: Index, buf: seq<Token>, depth: nat, token: Token)
    requires IndexFits(users, idx)
    requires !InText(kernel, token.iaddr) && !InDramAlias(kernel, token.iaddr) && !Confirmed(idx, token)
    ensures Match(kernel, users, idx, buf, depth, token) == MatchUser(kernel, users, idx, buf, depth, Unconfirmed(token))
  {
  }

  /** The unique-survivor case of `MatchUser`, unfolded. */
  lemma MatchUserUnique(kernel: Binary, users: seq<Binary>, idx: Index, buf: seq<Token>, depth: nat, t: Token, s: BinPagePair)
    requires IndexFits(users, idx)
    requires Survivors(idx, Collected(kernel, buf, t.satp, depth), t, Lookup(idx, t.iaddr, t.inst)) == [s]
    ensures IsUser(users, s.bin)
    ensures var b := UserBin(users, s.bin);
      && SiteIndex(t, s, b) < |b.progtext|
      && var t' := t.(instrMeta := b.progtext[SiteIndex(t, s, b)], bin := Some(s.bin), pageBase := s.pageBase);
         MatchUser(kernel, users, idx, buf, depth, t) == Matched(true, t', BackProp(buf, t', b))
  {
    var sites := Lookup(idx, t.iaddr, t.inst);
    var mv := Collected(kernel, buf, t.satp, depth);
    assert s in Survivors(idx, mv, t, sites);
    SurvivorsExact(idx, mv, t, sites);
    var b := SiteBinary(users, idx, mv, t, sites, s);
  }

  /** A successful match names a binary: the kernel or a loaded user
      program. A failed one carries no instruction record (so it goes to the
      catch-all tracker as unknown code) and leaves the buffer alone. */
  lemma MatchResultShape(kernel: Binary, users: seq<Binary>, idx: Index, buf: seq<Token>, depth: nat, token: Token)
    requires IndexFits(users, idx)
    ensures var m := Match(kernel, users, idx, buf, depth, token);
      && (m.found ==> m.token.bin.Some? && (m.token.bin.value == kernel.id || IsUser(users, m.token.bin.value)))
      && (!m.found ==> m.token.instrMeta.None? && m.buffer == buf)
  {
    var m := Match(kernel, users, idx, buf, depth, token);
    if !InText(kernel, token.iaddr) && !InDramAlias(kernel, token.iaddr) && Confirmed(idx, token) {
      var v := Lookup(idx, token.iaddr, token.inst);
      LookupFits(users, idx, token.iaddr, token.inst);
      var i :| 0 <= i < |v| && Some(v[i].bin) == token.bin && v[i].pageBase == token.pageBase;
      assert PairFits(users, v[i], SlotOf(token.iaddr));
    }
  }

  /** The fields the bridge delivered, with everything matching adds cleared. */
  function Raw(t: Token): (r: Token)
    ensures r.cycleCount == t.cycleCount && r.iaddr == t.iaddr && r.inst == t.inst
    ensures r.satp == t.satp && r.priv == t.priv
    ensures r.bin.None? && r.instrMeta.None? && r.pageBase == 0
  {
    t.(bin := None, instrMeta := None, pageBase := 0)
  }

  function Raws(ts: seq<Token>): (rs: seq<Token>)
    ensures |rs| == |ts|
  {
    seq(|ts|, i requires 0 <= i < |ts| => Raw(ts[i]))
  }

  lemma RawsAppend(a: seq<Token>, b: seq<Token>)
    ensures Raws(a + b) == Raws(a) + Raws(b)
  {
  }

  /** Matching only fills in the binary, record and page base: the token and
      every buffered token keep the fields the bridge delivered, and the
      buffer keeps its length and order. */
  lemma MatchKeepsRaw(kernel: Binary, users: seq<Binary>, idx: Index, buf: seq<Token>, depth: nat, token: Token)
    requires IndexFits(users, idx)
    ensures var m := Match(kernel, users, idx, buf, depth, token);
      Raw(m.token) == Raw(token) && Raws(m.buffer) == Raws(buf)
  {
    var m := Match(kernel, users, idx, buf, depth, token);
    assert Raws(m.buffer) == Raws(buf);
  }
}
