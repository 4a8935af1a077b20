/**
 The language specific data area of a frame, as `handleLsda` of ExceptionDemo.cpp reads it:
 a header, a table of call sites, and chains of actions, all in variable length numbers.
 The meaning of the area is given on lists; the readers work on bytes.
 */
module Lsda {
  import opened Wrappers
  import opened Leb128

  // Pointer encodings (llvm/Support/Dwarf.h); only the format bits are supported here.
  const DW_EH_PE_absptr: byte := 0x00
  const DW_EH_PE_omit: byte := 0xff
  const DW_EH_PE_uleb128: byte := 0x01
  const DW_EH_PE_udata2: byte := 0x02
  const DW_EH_PE_udata4: byte := 0x03
  const DW_EH_PE_udata8: byte := 0x04
  const DW_EH_PE_sleb128: byte := 0x09
  const DW_EH_PE_sdata2: byte := 0x0A
  const DW_EH_PE_sdata4: byte := 0x0B
  const DW_EH_PE_sdata8: byte := 0x0C

  /** uintptr_t arithmetic. */
  function Word(x: int): nat { x % 0x1_0000_0000_0000_0000 }

  // ---------------------------------------------------------------- action chains

  /** A chain of actions in the order they are tried: where each one is, and the type
      index it holds, 0 for a cleanup. */
  datatype Chain = Chain(at: seq<int>, ids: seq<nat>)

  /** The action at `pos` holds type index `id` and a displacement, relative to where the
      displacement itself is stored, to the action at `next`, or 0 if there is none. */
  ghost predicate Link(mem: seq<byte>, pos: int, id: nat, next: Option<int>) {
    && 0 <= pos
    && var t := ReadS(mem, pos);
    && t.Some? && t.value.value == id
    && var d := ReadS(mem, t.value.next);
    && d.Some?
    && if next.None? then d.value.value == 0
       else d.value.value != 0 && t.value.next + d.value.value == next.value
  }

  function NextOf(c: Chain, k: nat): Option<int>
    requires |c.at| == |c.ids| && k < |c.at|
  {
    if k + 1 < |c.at| then Some(c.at[k + 1]) else None
  }

  ghost predicate LinkAt(mem: seq<byte>, c: Chain, k: nat)
    requires |c.at| == |c.ids| && k < |c.at|
  {
    Link(mem, c.at[k], c.ids[k], NextOf(c, k))
  }

  ghost predicate ChainAt(mem: seq<byte>, pos: int, c: Chain) {
    && |c.at| == |c.ids| > 0 && c.at[0] == pos
    && forall k | 0 <= k < |c.at| :: LinkAt(mem, c, k)
  }

  /** The type indices of a chain are those of the frame's type infos. */
  ghost predicate Indexed(ids: seq<nat>, types: seq<int>) {
    forall k | 0 <= k < |ids| :: ids[k] <= |types|
  }

  /** Whether action `k` of the chain names the thrown type; types are numbered from 1. */
  predicate MatchesAt(ids: seq<nat>, types: seq<int>, thrown: int, k: nat) {
    k < |ids| && 0 < ids[k] <= |types| && types[ids[k] - 1] == thrown
  }

  /** The 1-based position of the first action that names the thrown type, or 0. */
  function Selected(ids: seq<nat>, types: seq<int>, thrown: int): (i: nat)
    ensures i <= |ids|
    ensures i == 0 ==> forall k: nat :: !MatchesAt(ids, types, thrown, k)
    ensures i > 0 ==> MatchesAt(ids, types, thrown, i - 1) && forall k: nat | k < i - 1 :: !MatchesAt(ids, types, thrown, k)
    decreases |ids|
  {
    if ids == [] then 0
    else if MatchesAt(ids, types, thrown, 0) then 1
    else
      var i := Selected(ids[1..], types, thrown);
      assert forall k: nat | k > 0 :: MatchesAt(ids, types, thrown, k) == MatchesAt(ids[1..], types, thrown, k - 1);
      if i == 0 then 0 else i + 1
  }

  method ReadAction(mem: seq<byte>, pos: int, ghost id: nat, ghost next: Option<int>)
    returns (typeOffset: int, tempPos: nat, actionOffset: int)
    requires Link(mem, pos, id, next)
    ensures typeOffset == id
    ensures if next.None? then actionOffset == 0 else actionOffset != 0 && tempPos + actionOffset == next.value
  {
    typeOffset, tempPos := ReadSLEB128(mem, pos);
    var end;
    actionOffset, end := ReadSLEB128(mem, tempPos);
  }

  /** Finds the first action that matches a thrown exception of ours.  A chain that does
      not end would keep it looping; `chain` says that this one does. */
  method HandleActionValue(mem: seq<byte>, actionEntry: nat, types: seq<int>, ours: bool, thrown: int, ghost chain: Chain)
    returns (ret: bool, resultAction: nat)
    requires ours ==> ChainAt(mem, actionEntry, chain) && Indexed(chain.ids, types)
    ensures ret <==> ours && Selected(chain.ids, types, thrown) > 0
    ensures ret ==> resultAction == Selected(chain.ids, types, thrown)
  {
    ret, resultAction := false, 0;
    if !ours {
      return;
    }
    var actionPos: int := actionEntry;
    var i := 0;
    while true
      invariant i < |chain.at| && actionPos == chain.at[i]
      invariant forall k: nat | k < i :: !MatchesAt(chain.ids, types, thrown, k)
      decreases |chain.at| - i
    {
      assert LinkAt(mem, chain, i);
      var typeOffset, tempActionPos, actionOffset := ReadAction(mem, actionPos, chain.ids[i], NextOf(chain, i));
      if typeOffset > 0 && thrown == types[typeOffset - 1] {
        assert MatchesAt(chain.ids, types, thrown, i);
        return true, i + 1;
      }
      assert !MatchesAt(chain.ids, types, thrown, i);
      if actionOffset == 0 {
        return;
      }
      actionPos := tempActionPos + actionOffset;
      i := i + 1;
    }
  }

  // ------------------------------------------------------------ encoded pointers

  /** `k` bytes, least significant first. */
  function Fixed(mem: seq<byte>, pos: nat, k: nat): (v: nat)
    requires pos + k <= |mem|
    decreases k
  {
    if k == 0 then 0 else mem[pos] + 256 * Fixed(mem, pos + 1, k - 1)
  }

  /** Bytes of a fixed width format, or 0 for the other formats. */
  function Width(encoding: byte): nat {
    if encoding == DW_EH_PE_udata2 || encoding == DW_EH_PE_sdata2 then 2
    else if encoding == DW_EH_PE_udata4 || encoding == DW_EH_PE_sdata4 then 4
    else if encoding == DW_EH_PE_absptr || encoding == DW_EH_PE_udata8 || encoding == DW_EH_PE_sdata8 then 8
    else 0
  }

  function Half(k: nat): nat {
    if k == 2 then 0x8000 else if k == 4 then 0x8000_0000 else 0x8000_0000_0000_0000
  }

  /** A fixed width number as a word: the signed formats extend the sign. */
  function Extended(encoding: byte, v: nat): nat {
    var k := Width(encoding);
    if encoding >= DW_EH_PE_sdata2 && v >= Half(k) then Word(v - 2 * Half(k)) else Word(v)
  }

  /** An encoded pointer without base or indirection; an omitted one takes no bytes. */
  function ReadEncoded(mem: seq<byte>, pos: nat, encoding: byte): (r: Option<Decoded>)
    requires pos <= |mem|
    ensures r.Some? ==> pos <= r.value.next <= |mem| && r.value.value >= 0
  {
    if encoding == DW_EH_PE_omit then Some(Decoded(0, pos))
    else if encoding == DW_EH_PE_uleb128 then ReadU(mem, pos)
    else if encoding == DW_EH_PE_sleb128 then
      match ReadS(mem, pos)
      case None => None
      case Some(d) => Some(d.(value := Word(d.value)))
    else
      var k := Width(encoding);
      if k == 0 || pos + k > |mem| then None
      else Some(Decoded(Extended(encoding, Fixed(mem, pos, k)), pos + k))
  }

  method ReadEncodedPointer(mem: seq<byte>, pos: nat, encoding: byte) returns (result: nat, p: nat)
    requires pos <= |mem| && ReadEncoded(mem, pos, encoding).Some?
    ensures ReadEncoded(mem, pos, encoding) == Some(Decoded(result, p))
  {
    if encoding == DW_EH_PE_omit {
      return 0, pos;
    }
    if encoding == DW_EH_PE_uleb128 {
      result, p := ReadULEB128(mem, pos);
    } else if encoding == DW_EH_PE_sleb128 {
      var v;
      v, p := ReadSLEB128(mem, pos);
      result := Word(v);
    } else {
      var k := Width(encoding);
      var v := ReadFixed(mem, pos, k);
      result, p := Extended(encoding, v), pos + k;
    }
  }

  method ReadFixed(mem: seq<byte>, pos: nat, k: nat) returns (v: nat)
    requires pos + k <= |mem|
    ensures v == Fixed(mem, pos, k)
  {
    v := 0;
    for i := k downto 0
      invariant v == Fixed(mem, pos + i, k - i)
    {
      v := mem[pos + i] + 256 * v;
    }
  }

  // ------------------------------------------------------------------ call sites

  /** A range of code, the landing pad for it or 0, and 1 + its first action or 0. */
  datatype CallSite = CallSite(start: nat, length: nat, pad: nat, action: nat) {
    predicate Covers(pcOffset: nat) {
      pad != 0 && start <= pcOffset < Word(start + length)
    }
  }

  datatype SiteRead = SiteRead(site: CallSite, next: nat)

  function ReadSite(mem: seq<byte>, pos: nat, encoding: byte): (r: Option<SiteRead>)
    requires pos <= |mem|
    ensures r.Some? ==> pos < r.value.next <= |mem|
  {
    var a := ReadEncoded(mem, pos, encoding);
    if a.None? then None
    else
      var b := ReadEncoded(mem, a.value.next, encoding);
      if b.None? then None
      else
        var c := ReadEncoded(mem, b.value.next, encoding);
        if c.None? then None
        else
          var d := ReadU(mem, c.value.next);
          if d.None? then None
          else Some(SiteRead(CallSite(a.value.value, b.value.value, c.value.value, d.value.value), d.value.next))
  }

  method ReadCallSite(mem: seq<byte>, pos: nat, encoding: byte) returns (site: CallSite, p: nat)
    requires pos <= |mem| && ReadSite(mem, pos, encoding).Some?
    ensures ReadSite(mem, pos, encoding) == Some(SiteRead(site, p))
  {
    var start, length, landingPad, actionEntry;
    start, p := ReadEncodedPointer(mem, pos, encoding);
    length, p := ReadEncodedPointer(mem, p, encoding);
    landingPad, p := ReadEncodedPointer(mem, p, encoding);
    actionEntry, p := ReadULEB128(mem, p);
    site := CallSite(start, length, landingPad, actionEntry);
  }

  /** The table between two positions; every entry takes at least one byte. */
  function ReadTable(mem: seq<byte>, pos: nat, end: nat, encoding: byte): Option<seq<CallSite>>
    requires pos <= |mem|
    decreases |mem| - pos
  {
    if pos >= end then Some([])
    else
      var s := ReadSite(mem, pos, encoding);
      if s.None? then None
      else
        var rest := ReadTable(mem, s.value.next, end, encoding);
        if rest.None? then None else Some([s.value.site] + rest.value)
  }

  /** The first site with a landing pad whose range contains the offset. */
  function FindSite(sites: seq<CallSite>, pcOffset: nat): Option<CallSite>
    decreases |sites|
  {
    if sites == [] then None
    else if sites[0].Covers(pcOffset) then Some(sites[0])
    else FindSite(sites[1..], pcOffset)
  }

  /** The site has a landing pad, and the offset is in the half-open range from its start, for
      its length, in 64-bit arithmetic. */
  ghost predicate InRange(s: CallSite, pcOffset: nat) {
    s.pad > 0 && pcOffset >= s.start && pcOffset < (s.start + s.length) % 0x1_0000_0000_0000_0000
  }

  /** It is the earliest such site, if there is one at all. */
  lemma {:induction false} FoundFirst(sites: seq<CallSite>, pcOffset: nat)
    ensures var r := FindSite(sites, pcOffset);
      if r.None? then forall k | 0 <= k < |sites| :: !InRange(sites[k], pcOffset)
      else exists k :: 0 <= k < |sites| && sites[k] == r.value && InRange(sites[k], pcOffset)
                       && forall j | 0 <= j < k :: !InRange(sites[j], pcOffset)
    decreases |sites|
  {
    if sites != [] && !sites[0].Covers(pcOffset) {
      var rest := sites[1..];
      FoundFirst(rest, pcOffset);
      assert forall k | 0 < k < |sites| :: sites[k] == rest[k - 1];
      var r := FindSite(rest, pcOffset);
      if r.Some? {
        var k :| 0 <= k < |rest| && rest[k] == r.value && InRange(rest[k], pcOffset)
                 && forall j | 0 <= j < k :: !InRange(rest[j], pcOffset);
        assert sites[k + 1] == r.value;
        assert forall j | 0 < j < k + 1 :: sites[j] == rest[j - 1];
      }
    }
  }

  /** In order and without overlap, as code is laid out. */
  ghost predicate Laid(sites: seq<CallSite>) {
    && (forall j, k | 0 <= j < k < |sites| :: sites[j].start + sites[j].length <= sites[k].start)
    && forall k | 0 <= k < |sites| :: sites[k].start + sites[k].length < 0x1_0000_0000_0000_0000
  }

  /** Then it is the site the offset lies in, of whatever length: not one that ends there. */
  lemma FoundExactly(sites: seq<CallSite>, x: nat, k: nat)
    requires Laid(sites) && k < |sites|
    ensures sites[k].pad != 0 && sites[k].start <= x < sites[k].start + sites[k].length
        ==> FindSite(sites, x) == Some(sites[k])
    ensures FindSite(sites, x) == Some(sites[k])
        ==> sites[k].pad != 0 && sites[k].start <= x < sites[k].start + sites[k].length
    ensures FindSite(sites, x).None? ==> sites[k].pad == 0 || x < sites[k].start || sites[k].start + sites[k].length <= x
  {
    hide FindSite;
    FoundFirst(sites, x);
    if sites[k].pad != 0 && sites[k].start <= x < sites[k].start + sites[k].length {
      assert InRange(sites[k], x);
      var j :| 0 <= j < |sites| && Some(sites[j]) == FindSite(sites, x) && InRange(sites[j], x);
      assert !(j < k) && !(k < j);
    }
  }

  // ----------------------------------------------------------------- the whole area

  /** Where the type infos end, the format of call sites, and where their table is. */
  datatype Header = Header(classInfo: Option<nat>, encoding: byte, table: nat, end: nat)

  function ReadHeader(mem: seq<byte>, pos: nat): (h: Option<Header>)
    ensures h.Some? ==> pos < |mem| && h.value.table <= |mem|
  {
    if pos >= |mem| then None
    else if mem[pos] == DW_EH_PE_omit then ReadTypeHeader(mem, pos + 1)
    else
      match ReadEncoded(mem, pos + 1, mem[pos])
      case None => None
      case Some(d) => ReadTypeHeader(mem, d.next)
  }

  function ReadTypeHeader(mem: seq<byte>, pos: nat): (h: Option<Header>)
    ensures h.Some? ==> pos < |mem| && h.value.table <= |mem|
  {
    if pos >= |mem| then None
    else if mem[pos] == DW_EH_PE_omit then ReadSiteHeader(mem, pos + 1, None)
    else
      match ReadU(mem, pos + 1)
      case None => None
      case Some(d) => ReadSiteHeader(mem, d.next, Some(d.next + d.value))
  }

  /** The length of the table is kept in 32 bits. */
  function ReadSiteHeader(mem: seq<byte>, pos: nat, classInfo: Option<nat>): (h: Option<Header>)
    ensures h.Some? ==> h.value.table <= |mem|
  {
    if pos >= |mem| then None
    else
      var n := ReadU(mem, pos + 1);
      if n.None? then None
      else Some(Header(classInfo, mem[pos], n.value.next, n.value.next + n.value.value % 0x1_0000_0000))
  }

  method ParseHeader(mem: seq<byte>, lsda: nat) returns (h: Header)
    requires ReadHeader(mem, lsda).Some?
    ensures ReadHeader(mem, lsda) == Some(h)
  {
    var p := lsda + 1;
    if mem[lsda] != DW_EH_PE_omit {
      var lpStart;
      lpStart, p := ReadEncodedPointer(mem, p, mem[lsda]);
    }
    h := ParseTypeHeader(mem, p);
  }

  method ParseTypeHeader(mem: seq<byte>, pos: nat) returns (h: Header)
    requires ReadTypeHeader(mem, pos).Some?
    ensures ReadTypeHeader(mem, pos) == Some(h)
  {
    var p, classInfo := pos + 1, None;
    if mem[pos] != DW_EH_PE_omit {
      var classInfoOffset;
      classInfoOffset, p := ReadULEB128(mem, p);
      classInfo := Some(p + classInfoOffset);
    }
    h := ParseSiteHeader(mem, p, classInfo);
  }

  method ParseSiteHeader(mem: seq<byte>, pos: nat, classInfo: Option<nat>) returns (h: Header)
    requires ReadSiteHeader(mem, pos, classInfo).Some?
    ensures ReadSiteHeader(mem, pos, classInfo) == Some(h)
  {
    var callSiteEncoding := mem[pos];
    var length, p := ReadULEB128(mem, pos + 1);
    h := Header(classInfo, callSiteEncoding, p, p + length % 0x1_0000_0000);
  }

  /** The list form of an area: its call sites, and the chain each action stands for. */
  datatype Frame = Frame(sites: seq<CallSite>, chains: map<nat, Chain>)

  /** The bytes at `lsda` are those of the frame `f`. */
  ghost predicate FrameAt(mem: seq<byte>, lsda: nat, f: Frame, types: seq<int>) {
    var h := ReadHeader(mem, lsda);
    && h.Some?
    && ReadTable(mem, h.value.table, h.value.end, h.value.encoding) == Some(f.sites)
    && forall s | s in f.sites && s.pad != 0 && s.action != 0 :: ActionAt(mem, h.value.end, f, types, s.action)
  }

  ghost predicate ActionAt(mem: seq<byte>, actionTable: nat, f: Frame, types: seq<int>, action: nat) {
    && action > 0 && action in f.chains
    && ChainAt(mem, actionTable + action - 1, f.chains[action]) && Indexed(f.chains[action].ids, types)
  }

  // ------------------------------------------------------------- the personality

  datatype Reason = ContinueUnwind | HandlerFound | InstallContext

  /** What a frame answers the unwinder: a reason code, and for an installed context the
      selector and the landing pad. */
  datatype Answer = Answer(reason: Reason, selector: nat, pad: nat)

  /** The thrown exception: whether its class is ours, and its type. */
  datatype Thrown = Thrown(ours: bool, kind: int)

  /** The selector of a site: the position of the matching type among the arguments of
      the landing pad's selector call; 0 for a cleanup and for a foreign exception. */
  function Selector(f: Frame, s: CallSite, types: seq<int>, t: Thrown): nat {
    if !t.ours || s.action !in f.chains || s.action == 0 then 0
    else Selected(f.chains[s.action].ids, types, t.kind)
  }

  function Personality(f: Frame, pcOffset: nat, types: seq<int>, t: Thrown, search: bool): Answer {
    match FindSite(f.sites, pcOffset)
    case None => Answer(ContinueUnwind, 0, 0)
    case Some(s) => SiteAnswer(f, s, types, t, search)
  }

  function SiteAnswer(f: Frame, s: CallSite, types: seq<int>, t: Thrown, search: bool): Answer {
    var i := Selector(f, s, types, t);
    if !search then Answer(InstallContext, i, s.pad)
    else if i > 0 then Answer(HandlerFound, 0, 0)
    else Answer(ContinueUnwind, 0, 0)
  }

  /** The unwinder's view of a frame: instruction pointer and two result registers. */
  class Context {
    var ip: nat
    var gr0: nat
    var gr1: nat

    constructor (ip: nat)
      ensures this.ip == ip
    {
      this.ip := ip;
    }
  }

  /** The exception goes with the answer: this is the state of the context afterwards. */
  twostate predicate Answered(context: Context, a: Answer, exceptionObject: nat, funcStart: nat)
    reads context
  {
    if a.reason == InstallContext then
      context.gr0 == exceptionObject && context.gr1 == a.selector && context.ip == Word(funcStart + a.pad)
    else unchanged(context)
  }

  /** The site that covers the instruction pointer has been found. */
  method HandleSite(mem: seq<byte>, site: CallSite, actionTable: nat, search: bool, exceptionObject: nat, t: Thrown,
                    types: seq<int>, context: Context, funcStart: nat, ghost f: Frame)
    returns (ret: Reason)
    requires site.action != 0 ==> ActionAt(mem, actionTable, f, types, site.action)
    modifies context
    ensures ret == SiteAnswer(f, site, types, t, search).reason
    ensures Answered(context, SiteAnswer(f, site, types, t, search), exceptionObject, funcStart)
  {
    ret := ContinueUnwind;
    var matched, actionValue := false, 0;
    var actionEntry := if t.ours then site.action else 0;
    if actionEntry != 0 {
      matched, actionValue := HandleActionValue(mem, actionTable + actionEntry - 1, types, t.ours, t.kind, f.chains[site.action]);
    }
    if !search {
      context.gr0 := exceptionObject;
      context.gr1 := if actionEntry == 0 || !matched then 0 else actionValue;
      context.ip := Word(funcStart + site.pad);
      ret := InstallContext;
    } else if matched {
      ret := HandlerFound;
    }
  }

  /** Where each entry of a table begins, and where the last one ends. */
  ghost predicate EntryAt(mem: seq<byte>, at: seq<nat>, sites: seq<CallSite>, end: nat, encoding: byte, k: nat)
    requires |at| == |sites| + 1 && k < |sites|
  {
    at[k] < end && at[k] <= |mem| && ReadSite(mem, at[k], encoding) == Some(SiteRead(sites[k], at[k + 1]))
  }

  ghost predicate EntriesAt(mem: seq<byte>, at: seq<nat>, sites: seq<CallSite>, end: nat, encoding: byte) {
    && |at| == |sites| + 1 && at[|sites|] >= end
    && forall k | 0 <= k < |sites| :: EntryAt(mem, at, sites, end, encoding, k)
  }

  lemma {:induction false} TableEntries(mem: seq<byte>, pos: nat, end: nat, encoding: byte, sites: seq<CallSite>)
    returns (at: seq<nat>)
    requires pos <= |mem| && ReadTable(mem, pos, end, encoding) == Some(sites)
    ensures EntriesAt(mem, at, sites, end, encoding) && at[0] == pos
    decreases |mem| - pos
  {
    hide ReadSite;
    if pos >= end {
      at := [pos];
    } else {
      var next := ReadSite(mem, pos, encoding).value.next;
      var rest := TableEntries(mem, next, end, encoding, sites[1..]);
      at := [pos] + rest;
      forall k | 0 <= k < |sites| ensures EntryAt(mem, at, sites, end, encoding, k) {
        if k > 0 {
          assert EntryAt(mem, rest, sites[1..], end, encoding, k - 1);
        }
      }
    }
  }

  /** The loop over the call-site table, as far as the first site that matters. */
  method WalkTable(mem: seq<byte>, h: Header, pcOffset: nat, ghost sites: seq<CallSite>) returns (site: Option<CallSite>)
    requires h.table <= |mem| && ReadTable(mem, h.table, h.end, h.encoding) == Some(sites)
    ensures site == FindSite(sites, pcOffset)
  {
    ghost var at := TableEntries(mem, h.table, h.end, h.encoding, sites);
    site := WalkEntries(mem, h, pcOffset, sites, at);
  }

  method WalkEntries(mem: seq<byte>, h: Header, pcOffset: nat, ghost sites: seq<CallSite>, ghost at: seq<nat>)
    returns (site: Option<CallSite>)
    requires EntriesAt(mem, at, sites, h.end, h.encoding) && at[0] == h.table
    ensures site == FindSite(sites, pcOffset)
  {
    var callSitePtr := h.table;
    ghost var k := 0;
    assert sites[0..] == sites;
    while callSitePtr < h.end
      invariant k <= |sites| && callSitePtr == at[k]
      invariant FindSite(sites[k..], pcOffset) == FindSite(sites, pcOffset)
      decreases |sites| - k
    {
      assert EntryAt(mem, at, sites, h.end, h.encoding, k);
      var s;
      s, callSitePtr := ReadCallSite(mem, callSitePtr, h.encoding);
      assert sites[k..][1..] == sites[k + 1..];
      k := k + 1;
      if s.pad == 0 {
        continue;
      }
      if s.start <= pcOffset && pcOffset < Word(s.start + s.length) {
        return Some(s);
      }
    }
    assert k < |sites| ==> EntryAt(mem, at, sites, h.end, h.encoding, k);
    return None;
  }

  /** Looks for a landing pad for the frame's instruction pointer.  In the search phase it
      only says whether the exception will be caught; otherwise it prepares the frame. */
  method HandleLsda(mem: seq<byte>, lsda: Option<nat>, search: bool, exceptionObject: nat, t: Thrown,
                    types: seq<int>, context: Context, funcStart: nat, ghost f: Frame)
    returns (ret: Reason)
    requires lsda.Some? ==> FrameAt(mem, lsda.value, f, types)
    modifies context
    ensures lsda.None? ==> ret == ContinueUnwind && unchanged(context)
    ensures lsda.Some? ==>
      var a := Personality(f, Word(old(context.ip) - 1 - funcStart), types, t, search);
      ret == a.reason && Answered(context, a, exceptionObject, funcStart)
  {
    if lsda.None? {
      return ContinueUnwind;
    }
    var pcOffset := Word(context.ip - 1 - funcStart);
    var h := ParseHeader(mem, lsda.value);
    var site := WalkTable(mem, h, pcOffset, f.sites);
    FoundFirst(f.sites, pcOffset);
    if site.None? {
      return ContinueUnwind;
    }
    ret := HandleSite(mem, site.value, h.end, search, exceptionObject, t, types, context, funcStart, f);
  }

  /** The two phases agree: search claims a frame exactly when cleanup will enter it with
      a non-zero selector; a frame entered in cleanup with selector 0 was not claimed; and a
      frame without a landing pad there is passed over in both. */
  lemma PhasesAgree(f: Frame, pcOffset: nat, types: seq<int>, t: Thrown)
    ensures var search, cleanup := Personality(f, pcOffset, types, t, true), Personality(f, pcOffset, types, t, false);
      && (search.reason == HandlerFound <==> cleanup.reason == InstallContext && cleanup.selector > 0)
      && (cleanup.reason == ContinueUnwind <==> forall s | s in f.sites :: !InRange(s, pcOffset))
      && (cleanup.reason == ContinueUnwind ==> search.reason == ContinueUnwind)
      && (!t.ours ==> search.reason != HandlerFound && cleanup.selector == 0)
      && search.reason != InstallContext && cleanup.reason != HandlerFound
  {
    FoundFirst(f.sites, pcOffset);
  }
}
