/**
 The area as JITDwarfEmitter::EmitExceptionTable writes it, and the proof that what is
 written for the landing pads of a function is what the readers of Lsda find.
 */
module JitTables {
  import opened Wrappers
  import opened Leb128
  import opened Lsda
  import opened ActionTables

  // ------------------------------------------------------------------ call sites

  function EncodeFixed(v: nat, k: nat): (bs: seq<byte>)
    ensures |bs| == k
  {
    if k == 0 then [] else [v % 256] + EncodeFixed(v / 256, k - 1)
  }

  function Pow256(k: nat): nat {
    if k == 0 then 1 else 256 * Pow256(k - 1)
  }

  lemma {:induction false} FixedReads(mem: seq<byte>, pos: nat, v: nat, k: nat)
    requires v < Pow256(k) && At(mem, pos, EncodeFixed(v, k))
    ensures Fixed(mem, pos, k) == v
    decreases k
  {
    if k > 0 {
      AtRest(mem, pos, v % 256, EncodeFixed(v / 256, k - 1));
      FixedReads(mem, pos + 1, v / 256, k - 1);
    }
  }

  lemma Pow256Half(k: nat)
    requires k == 2 || k == 4 || k == 8
    ensures Pow256(k) == 2 * Half(k)
  {
    assert Pow256(2) == 256 * Pow256(1);
    assert Pow256(4) == 256 * Pow256(3) == 256 * 256 * Pow256(2);
    assert Pow256(6) == 256 * Pow256(5) == 256 * 256 * Pow256(4);
    assert Pow256(8) == 256 * Pow256(7) == 256 * 256 * Pow256(6);
  }

  /** Whether `k` bytes hold a number, with or without a sign. */
  predicate Holds(k: nat, signed: bool, v: int) {
    if signed then v + Half(k) >= 0 && v < Half(k) else 0 <= v < 2 * Half(k)
  }

  /** A number in the two's complement of `k` bytes. */
  function Fitted(k: nat, v: int): nat {
    if k == 2 then v % 0x1_0000 else if k == 4 then v % 0x1_0000_0000 else v % 0x1_0000_0000_0000_0000
  }

  lemma FittedBound(k: nat, v: int)
    requires k == 2 || k == 4 || k == 8
    ensures Fitted(k, v) < 2 * Half(k)
  {
  }

  lemma ExtendedFits(encoding: byte, v: int)
    requires Width(encoding) > 0 && Holds(Width(encoding), encoding >= DW_EH_PE_sdata2, v)
    ensures Extended(encoding, Fitted(Width(encoding), v)) == Word(v)
  {
    var k := Width(encoding);
    if k == 2 {
      assert v % 0x1_0000 == if v < 0 then v + 0x1_0000 else v;
    } else if k == 4 {
      assert v % 0x1_0000_0000 == if v < 0 then v + 0x1_0000_0000 else v;
    } else {
      assert v % 0x1_0000_0000_0000_0000 == if v < 0 then v + 0x1_0000_0000_0000_0000 else v;
    }
  }

  lemma WordSigned(v: int)
    requires -0x8000_0000_0000_0000 <= v < 0x8000_0000_0000_0000
    ensures Signed64(Word(v)) == v
  {
  }

  /** Every fixed width format reads back every number it holds, the signed ones with its
      sign, and takes its width in bytes. */
  lemma FixedRoundTrip(mem: seq<byte>, pos: nat, encoding: byte, v: int)
    requires Width(encoding) > 0 && Holds(Width(encoding), encoding >= DW_EH_PE_sdata2, v)
    requires At(mem, pos, EncodeFixed(Fitted(Width(encoding), v), Width(encoding)))
    ensures ReadEncoded(mem, pos, encoding) == Some(Decoded(Word(v), pos + Width(encoding)))
    ensures encoding >= DW_EH_PE_sdata2 ==> Signed64(Word(v)) == v
  {
    hide EncodeFixed, Fixed, Extended, Fitted, Word, Signed64, Pow256;
    Pow256Half(Width(encoding));
    FittedBound(Width(encoding), v);
    FixedReads(mem, pos, Fitted(Width(encoding), v), Width(encoding));
    ExtendedFits(encoding, v);
    if encoding >= DW_EH_PE_sdata2 { WordSigned(v); }
  }

  /** The formats by their numbers: how wide they are, what that holds, that an omitted pointer
      is zero and takes no bytes, and that no others are read here. */
  lemma Formats(mem: seq<byte>, pos: nat, encoding: byte, v: int)
    requires pos <= |mem|
    ensures encoding in {0x02, 0x0A} ==> Width(encoding) == 2
    ensures encoding in {0x03, 0x0B} ==> Width(encoding) == 4
    ensures encoding in {0x00, 0x04, 0x0C} ==> Width(encoding) == 8
    ensures encoding == 0xff ==> ReadEncoded(mem, pos, encoding) == Some(Decoded(0, pos))
    ensures encoding !in {0x00, 0x01, 0x02, 0x03, 0x04, 0x09, 0x0A, 0x0B, 0x0C, 0xff} ==> ReadEncoded(mem, pos, encoding).None?
    ensures Holds(2, true, v) <==> -0x8000 <= v < 0x8000
    ensures Holds(4, true, v) <==> -0x8000_0000 <= v < 0x8000_0000
    ensures Holds(8, true, v) <==> -0x8000_0000_0000_0000 <= v < 0x8000_0000_0000_0000
    ensures Holds(2, false, v) <==> 0 <= v < 0x1_0000
    ensures Holds(4, false, v) <==> 0 <= v < 0x1_0000_0000
    ensures Holds(8, false, v) <==> 0 <= v < 0x1_0000_0000_0000_0000
  {
  }

  lemma Udata4Reads(mem: seq<byte>, pos: nat, v: nat)
    requires v < 0x1_0000_0000 && At(mem, pos, EncodeFixed(v, 4))
    ensures ReadEncoded(mem, pos, DW_EH_PE_udata4) == Some(Decoded(v, pos + 4))
  {
    assert Fitted(4, v) == v == Word(v);
    FixedRoundTrip(mem, pos, DW_EH_PE_udata4, v);
  }

  /** The variable width formats do so within what the readers of Leb128 can read. */
  lemma VariableRoundTrip(mem: seq<byte>, pos: nat, v: int)
    ensures 0 <= v < 0x8000_0000 && At(mem, pos, EncodeU(v))
        ==> ReadEncoded(mem, pos, DW_EH_PE_uleb128) == Some(Decoded(v, pos + |EncodeU(v)|))
    ensures -0x800_0000 <= v < 0x8000_0000 && At(mem, pos, EncodeS(v))
        ==> ReadEncoded(mem, pos, DW_EH_PE_sleb128) == Some(Decoded(Word(v), pos + |EncodeS(v)|))
  {
    hide EncodeU, EncodeS, ReadU, ReadS;
    if 0 <= v && At(mem, pos, EncodeU(v)) { RoundTripU(mem, pos, v); }
    if At(mem, pos, EncodeS(v)) { RoundTripS(mem, pos, v); }
  }

  function EmitSite(s: CallSite): (bs: seq<byte>)
    ensures |bs| > 12
  {
    EncodeFixed(s.start, 4) + (EncodeFixed(s.length, 4) + (EncodeFixed(s.pad, 4) + EncodeU(s.action)))
  }

  function EmitSites(sites: seq<CallSite>): seq<byte> {
    if sites == [] then [] else EmitSite(sites[0]) + EmitSites(sites[1..])
  }

  ghost predicate SmallSite(s: CallSite) {
    s.start < 0x1_0000_0000 && s.length < 0x1_0000_0000 && s.pad < 0x1_0000_0000 && s.action < 0x8000_0000
  }

  lemma SiteReads(mem: seq<byte>, pos: nat, s: CallSite)
    requires SmallSite(s) && At(mem, pos, EmitSite(s))
    ensures ReadSite(mem, pos, DW_EH_PE_udata4) == Some(SiteRead(s, pos + |EmitSite(s)|))
  {
    AtParts(mem, pos, EncodeFixed(s.start, 4), EncodeFixed(s.length, 4) + (EncodeFixed(s.pad, 4) + EncodeU(s.action)));
    AtParts(mem, pos + 4, EncodeFixed(s.length, 4), EncodeFixed(s.pad, 4) + EncodeU(s.action));
    AtParts(mem, pos + 8, EncodeFixed(s.pad, 4), EncodeU(s.action));
    Udata4Reads(mem, pos, s.start);
    Udata4Reads(mem, pos + 4, s.length);
    Udata4Reads(mem, pos + 8, s.pad);
    RoundTripU(mem, pos + 12, s.action);
  }

  lemma {:induction false} SitesRead(mem: seq<byte>, pos: nat, sites: seq<CallSite>)
    requires (forall s | s in sites :: SmallSite(s)) && At(mem, pos, EmitSites(sites))
    ensures ReadTable(mem, pos, pos + |EmitSites(sites)|, DW_EH_PE_udata4) == Some(sites)
    decreases |sites|
  {
    hide ReadSite, EmitSite;
    if sites != [] {
      var next := pos + |EmitSite(sites[0])|;
      AtParts(mem, pos, EmitSite(sites[0]), EmitSites(sites[1..]));
      SiteReads(mem, pos, sites[0]);
      SitesRead(mem, next, sites[1..]);
      assert sites == [sites[0]] + sites[1..];
    }
  }

  // -------------------------------------------------------------- the whole area

  /** Everything up to the type infos. */
  function EmitLsda(typeOffset: nat, sites: seq<CallSite>, actions: seq<byte>): seq<byte> {
    [DW_EH_PE_omit] + ([DW_EH_PE_absptr] + (EncodeU(typeOffset) + ([DW_EH_PE_udata4]
      + (EncodeU(|EmitSites(sites)|) + (EmitSites(sites) + actions)))))
  }

  /** Where the table of call sites begins. */
  function SitesAt(typeOffset: nat, sites: seq<CallSite>): nat {
    3 + |EncodeU(typeOffset)| + |EncodeU(|EmitSites(sites)|)|
  }

  /** The pieces of the area, in place. */
  ghost predicate AreaAt(mem: seq<byte>, pos: nat, t: seq<byte>, n: seq<byte>) {
    && pos + 3 + |t| <= |mem|
    && mem[pos] == DW_EH_PE_omit && mem[pos + 1] == DW_EH_PE_absptr && At(mem, pos + 2, t)
    && mem[pos + 2 + |t|] == DW_EH_PE_udata4 && At(mem, pos + 3 + |t|, n)
  }

  lemma AreaParts(mem: seq<byte>, pos: nat, t: seq<byte>, n: seq<byte>, table: seq<byte>, actions: seq<byte>)
    requires At(mem, pos, [DW_EH_PE_omit] + ([DW_EH_PE_absptr] + (t + ([DW_EH_PE_udata4] + (n + (table + actions))))))
    ensures AreaAt(mem, pos, t, n)
    ensures var p := pos + 3 + |t| + |n|; At(mem, p, table) && At(mem, p + |table|, actions)
  {
    var tail := table + actions;
    AtRest(mem, pos, DW_EH_PE_omit, [DW_EH_PE_absptr] + (t + ([DW_EH_PE_udata4] + (n + tail))));
    AtRest(mem, pos + 1, DW_EH_PE_absptr, t + ([DW_EH_PE_udata4] + (n + tail)));
    AtParts(mem, pos + 2, t, [DW_EH_PE_udata4] + (n + tail));
    AtRest(mem, pos + 2 + |t|, DW_EH_PE_udata4, n + tail);
    AtParts(mem, pos + 3 + |t|, n, tail);
    AtParts(mem, pos + 3 + |t| + |n|, table, actions);
  }

  lemma SiteHeaderReads(mem: seq<byte>, pos: nat, info: Option<nat>, size: nat, next: nat)
    requires pos < |mem| && mem[pos] == DW_EH_PE_udata4 && size < 0x8000_0000
    requires ReadU(mem, pos + 1) == Some(Decoded(size, next))
    ensures ReadSiteHeader(mem, pos, info) == Some(Header(info, DW_EH_PE_udata4, next, next + size))
  {
    assert size % 0x1_0000_0000 == size;
  }

  lemma TypeHeaderReads(mem: seq<byte>, pos: nat, offset: nat, next: nat)
    requires pos < |mem| && mem[pos] == DW_EH_PE_absptr && ReadU(mem, pos + 1) == Some(Decoded(offset, next))
    ensures ReadTypeHeader(mem, pos) == ReadSiteHeader(mem, next, Some(next + offset))
  {
  }

  lemma HeaderReads(mem: seq<byte>, pos: nat, typeOffset: nat, size: nat)
    requires typeOffset < 0x8000_0000 && size < 0x8000_0000
    requires AreaAt(mem, pos, EncodeU(typeOffset), EncodeU(size))
    ensures var p, q := pos + 2 + |EncodeU(typeOffset)|, pos + 3 + |EncodeU(typeOffset)| + |EncodeU(size)|;
      ReadHeader(mem, pos) == Some(Header(Some(p + typeOffset), DW_EH_PE_udata4, q, q + size))
  {
    hide ReadU, ReadEncoded, EncodeU, ReadSiteHeader, ReadTypeHeader;
    var p := pos + 2 + |EncodeU(typeOffset)|;
    RoundTripU(mem, pos + 2, typeOffset);
    RoundTripU(mem, p + 1, size);
    SiteHeaderReads(mem, p, Some(p + typeOffset), size, p + 1 + |EncodeU(size)|);
    TypeHeaderReads(mem, pos + 1, typeOffset, p);
  }

  /** A header with or without a start of landing pads and type infos, and any format of the
      call sites. */
  function EmitHeader(lpEncoding: byte, lpStart: seq<byte>, ttEncoding: byte, offset: nat, encoding: byte, size: nat): seq<byte> {
    [lpEncoding] + ((if lpEncoding == DW_EH_PE_omit then [] else lpStart) + ([ttEncoding]
      + ((if ttEncoding == DW_EH_PE_omit then [] else EncodeU(offset)) + ([encoding] + EncodeU(size)))))
  }

  lemma SiteHeaderAt(mem: seq<byte>, pos: nat, info: Option<nat>, encoding: byte, size: nat)
    requires At(mem, pos, [encoding] + EncodeU(size)) && size < 0x1_0000_0000
    ensures var q := pos + 1 + |EncodeU(size)|;
      ReadSiteHeader(mem, pos, info) == Some(Header(info, encoding, q, q + size))
  {
    hide EncodeU, ReadU;
    AtRest(mem, pos, encoding, EncodeU(size));
    RoundTripU(mem, pos + 1, size);
    assert FromInt(size) % 0x1_0000_0000 == size;
  }

  lemma TypeHeaderAt(mem: seq<byte>, pos: nat, ttEncoding: byte, offset: nat, encoding: byte, size: nat)
    requires size < 0x1_0000_0000 && offset < 0x8000_0000
    requires At(mem, pos, [ttEncoding]
      + ((if ttEncoding == DW_EH_PE_omit then [] else EncodeU(offset)) + ([encoding] + EncodeU(size))))
    ensures var p := pos + 1 + if ttEncoding == DW_EH_PE_omit then 0 else |EncodeU(offset)|;
      var info, q := if ttEncoding == DW_EH_PE_omit then None else Some(p + offset), p + 1 + |EncodeU(size)|;
      ReadTypeHeader(mem, pos) == Some(Header(info, encoding, q, q + size))
  {
    hide EncodeU, ReadU, ReadSiteHeader;
    var tail := [encoding] + EncodeU(size);
    var offsetBytes := if ttEncoding == DW_EH_PE_omit then [] else EncodeU(offset);
    AtRest(mem, pos, ttEncoding, offsetBytes + tail);
    AtParts(mem, pos + 1, offsetBytes, tail);
    var p := pos + 1 + |offsetBytes|;
    if ttEncoding == DW_EH_PE_omit {
      SiteHeaderAt(mem, p, None, encoding, size);
    } else {
      RoundTripU(mem, pos + 1, offset);
      SiteHeaderAt(mem, p, Some(p + offset), encoding, size);
    }
  }

  /** Any header is read back, the start of landing pads in any fixed width format being
      passed over. */
  lemma AnyHeaderReads(mem: seq<byte>, pos: nat, lpEncoding: byte, lpStart: int, ttEncoding: byte, offset: nat,
                       encoding: byte, size: nat)
    requires size < 0x1_0000_0000 && offset < 0x8000_0000
    requires lpEncoding != DW_EH_PE_omit
         ==> Width(lpEncoding) > 0 && Holds(Width(lpEncoding), lpEncoding >= DW_EH_PE_sdata2, lpStart)
    requires var lp := EncodeFixed(Fitted(Width(lpEncoding), lpStart), Width(lpEncoding));
      At(mem, pos, EmitHeader(lpEncoding, lp, ttEncoding, offset, encoding, size))
    ensures var lp := EncodeFixed(Fitted(Width(lpEncoding), lpStart), Width(lpEncoding));
      var q := pos + |EmitHeader(lpEncoding, lp, ttEncoding, offset, encoding, size)|;
      var info := if ttEncoding == DW_EH_PE_omit then None else Some(q - 1 - |EncodeU(size)| + offset);
      ReadHeader(mem, pos) == Some(Header(info, encoding, q, q + size))
  {
    hide EncodeU, ReadU, ReadTypeHeader, ReadEncoded, EncodeFixed, Fitted;
    var lp := if lpEncoding == DW_EH_PE_omit then [] else EncodeFixed(Fitted(Width(lpEncoding), lpStart), Width(lpEncoding));
    var tail := [ttEncoding] + ((if ttEncoding == DW_EH_PE_omit then [] else EncodeU(offset)) + ([encoding] + EncodeU(size)));
    AtRest(mem, pos, lpEncoding, lp + tail);
    AtParts(mem, pos + 1, lp, tail);
    if lpEncoding != DW_EH_PE_omit { FixedRoundTrip(mem, pos + 1, lpEncoding, lpStart); }
    TypeHeaderAt(mem, pos + 1 + |lp|, ttEncoding, offset, encoding, size);
  }

  /** The chains of the first `n` actions, by where they begin. */
  function Chains(actions: seq<Entry>, pos: nat, n: nat): map<nat, Chain>
    requires n <= |actions|
  {
    if n == 0 then map[] else Chains(actions, pos, n - 1)[Offset(actions, n - 1) + 1 := ChainOf(actions, pos, n - 1)]
  }

  lemma {:induction false} ChainsHas(actions: seq<Entry>, pos: nat, n: nat, k: nat)
    requires k < n <= |actions|
    ensures var c := Chains(actions, pos, n); Offset(actions, k) + 1 in c && c[Offset(actions, k) + 1] == ChainOf(actions, pos, k)
    decreases n
  {
    hide Offset, ChainOf;
    if k < n - 1 {
      OffsetGrows(actions, k, n - 1);
      ChainsHas(actions, pos, n - 1, k);
    }
  }

  /** The frame of a function with these call sites and actions. */
  function FrameOf(sites: seq<CallSite>, actions: seq<Entry>, actionTable: nat): Frame {
    Frame(sites, Chains(actions, actionTable, |actions|))
  }

  ghost predicate SmallPads(pads: seq<seq<nat>>, types: seq<int>) {
    forall j | 0 <= j < |pads| :: SmallIds(pads[j]) && Indexed(pads[j], types)
  }

  /** The area the JIT writes is read as the frame it was written for. */
  lemma EmittedFrame(mem: seq<byte>, pos: nat, typeOffset: nat, sites: seq<CallSite>, pads: seq<seq<nat>>,
                     actions: seq<Entry>, firstActions: seq<nat>, types: seq<int>)
    requires TableOf(pads, actions, firstActions) && SmallPads(pads, types) && |Bytes(actions)| <= 0x800_0000
    requires typeOffset < 0x8000_0000 && |EmitSites(sites)| < 0x8000_0000
    requires forall s | s in sites :: SmallSite(s) && (s.action == 0 || s.action in firstActions)
    requires At(mem, pos, EmitLsda(typeOffset, sites, Bytes(actions)))
    ensures FrameAt(mem, pos,
      FrameOf(sites, actions, pos + SitesAt(typeOffset, sites) + |EmitSites(sites)|), types)
  {
    hide ReadHeader, ReadTable, EncodeU, EmitSites, Bytes, TableOf, SmallPads;
    var table, size := pos + SitesAt(typeOffset, sites), |EmitSites(sites)|;
    AreaParts(mem, pos, EncodeU(typeOffset), EncodeU(size), EmitSites(sites), Bytes(actions));
    HeaderReads(mem, pos, typeOffset, size);
    var h := ReadHeader(mem, pos).value;
    SitesRead(mem, table, sites);
    forall s | s in sites && s.pad != 0 && s.action != 0
      ensures ActionAt(mem, table + size, FrameOf(sites, actions, table + size), types, s.action)
    {
      EmittedAction(mem, table + size, sites, pads, actions, firstActions, types, s.action);
    }
  }

  lemma EmittedAction(mem: seq<byte>, actionTable: nat, sites: seq<CallSite>, pads: seq<seq<nat>>,
                      actions: seq<Entry>, firstActions: seq<nat>, types: seq<int>, action: nat)
    requires TableOf(pads, actions, firstActions) && SmallPads(pads, types) && |Bytes(actions)| <= 0x800_0000
    requires At(mem, actionTable, Bytes(actions)) && action > 0 && action in firstActions
    ensures ActionAt(mem, actionTable, FrameOf(sites, actions, actionTable), types, action)
  {
    hide Offset, Path, ChainAt, ChainOf, Bytes, SmallIds;
    var j :| 0 <= j < |firstActions| && firstActions[j] == action;
    assert First(pads[j], actions, firstActions[j]);
    var e: nat :| e < |actions| && Path(actions, e) == pads[j] && action == Offset(actions, e) + 1;
    ChainReads(mem, actionTable, actions, e);
    ChainIds(actions, actionTable, e);
    ChainsHas(actions, actionTable, |actions|, e);
  }

  /** Byte by byte: the area for a call at [16, 48) with its landing pad at 48, which catches
      the first type or cleans up. */
  lemma ExampleArea()
    ensures var actions := [Entry(0, 0, None), Entry(1, -3, Some(0))];
      && TableOf([[0, 1]], actions, [3])
      && EmitLsda(60, [CallSite(16, 32, 48, 3)], Bytes(actions))
         == [0xff, 0x00, 60, 0x03, 13] + ([16, 0, 0, 0] + [32, 0, 0, 0] + [48, 0, 0, 0] + [3]) + ([0, 0] + [1, 0x7d])
  {
    ExampleActions();
    ExampleSite();
    hide EmitSites, Bytes, TableOf;
    assert EncodeU(60) == [60] && EncodeU(13) == [13];
  }

  lemma ExampleSite()
    ensures EmitSites([CallSite(16, 32, 48, 3)]) == [16, 0, 0, 0] + [32, 0, 0, 0] + [48, 0, 0, 0] + [3]
  {
    var s := CallSite(16, 32, 48, 3);
    EncodesFour(16);
    EncodesFour(32);
    EncodesFour(48);
    hide EncodeFixed;
    assert EncodeU(3) == [3];
    assert [s][1..] == [];
    assert EmitSites([s]) == EmitSite(s) + [];
  }

  lemma ExampleActions()
    ensures var actions := [Entry(0, 0, None), Entry(1, -3, Some(0))];
      Bytes(actions) == [0, 0] + [1, 0x7d] && TableOf([[0, 1]], actions, [3])
  {
    var actions := [Entry(0, 0, None), Entry(1, -3, Some(0))];
    assert EncodeS(0) == [0] && EncodeS(1) == [1] && EncodeS(-3) == [0x7d];
    hide EncodeS;
    assert actions[..1] == [actions[0]] && actions[..1][..0] == [];
    assert Bytes(actions[..1]) == [] + actions[0].Bytes() == [0, 0];
    assert Offset(actions, 1) == 2;
    assert Path(actions, 0) == [0] && Path(actions, 1) == [0, 1];
    assert Linked(actions, 0) && Linked(actions, 1);
    assert First([0, 1], actions, 3);
  }

  lemma EncodesFour(b: byte)
    ensures EncodeFixed(b, 4) == [b, 0, 0, 0]
  {
    assert EncodeFixed(0, 1) == [0];
    assert EncodeFixed(0, 2) == [0, 0];
    assert EncodeFixed(0, 3) == [0, 0, 0];
  }

  // --------------------------------------------------------------- the selector

  /** The 1-based position of a type in a catch list, or 0. */
  function FirstIndex(catches: seq<int>, kind: int): (i: nat)
    ensures i <= |catches|
    ensures i == 0 <==> kind !in catches
    ensures i > 0 ==> catches[i - 1] == kind && kind !in catches[..i - 1]
    decreases |catches|
  {
    if catches == [] then 0
    else if catches[0] == kind then 1
    else
      var i := FirstIndex(catches[1..], kind);
      assert i > 0 ==> catches[..i] == [catches[0]] + catches[1..][..i - 1];
      if i == 0 then 0 else i + 1
  }

  /** `ids` number the types of a catch list among the type infos, and end in a cleanup. */
  ghost predicate Numbers(ids: seq<nat>, types: seq<int>, catches: seq<int>) {
    && |ids| == |catches| + 1 && ids[|catches|] == 0
    && forall k | 0 <= k < |catches| :: 0 < ids[k] <= |types| && types[ids[k] - 1] == catches[k]
  }

  /** The selector is the position of the thrown type in the catch list. */
  lemma SelectedIsFirst(ids: seq<nat>, types: seq<int>, catches: seq<int>, kind: int)
    requires Numbers(ids, types, catches)
    ensures Selected(ids, types, kind) == FirstIndex(catches, kind)
  {
    var i, j := Selected(ids, types, kind), FirstIndex(catches, kind);
    forall k: nat ensures MatchesAt(ids, types, kind, k) <==> k < |catches| && catches[k] == kind {
    }
    if i > 0 && j > 0 {
      assert MatchesAt(ids, types, kind, i - 1) && MatchesAt(ids, types, kind, j - 1);
    }
  }

  /** What the personality answers for a frame emitted for a function, when the thrown
      exception passes through a call protected by landing pad `j`: its own catch list
      decides, whatever actions it shares with other landing pads. */
  lemma EmittedPersonality(sites: seq<CallSite>, pads: seq<seq<nat>>, actions: seq<Entry>, firstActions: seq<nat>, j: nat,
                           types: seq<int>, catches: seq<int>, actionTable: nat, pcOffset: nat, s: CallSite, t: Thrown,
                           search: bool)
    requires TableOf(pads, actions, firstActions) && j < |pads| && Numbers(Reversed(pads[j]), types, catches)
    requires FindSite(sites, pcOffset) == Some(s) && s.action == firstActions[j]
    ensures Personality(FrameOf(sites, actions, actionTable), pcOffset, types, t, search)
         == var i := if t.ours then FirstIndex(catches, t.kind) else 0;
            if !search then Answer(InstallContext, i, s.pad)
            else Answer(if i > 0 then HandlerFound else ContinueUnwind, 0, 0)
  {
    hide Offset, Path, ChainOf, Selected, FirstIndex;
    assert First(pads[j], actions, firstActions[j]);
    var e: nat :| e < |actions| && Path(actions, e) == pads[j] && s.action == Offset(actions, e) + 1;
    ChainIds(actions, actionTable, e);
    ChainsHas(actions, actionTable, |actions|, e);
    SelectedIsFirst(Reversed(pads[j]), types, catches, t.kind);
  }
}
