/**
 Uploading the firmware of two microcontrollers through their MMIO windows
 (loader_firmware/fucload.c and loader/fucload.c).  The device is a trace of register
 accesses; what reading a register returns is arbitrary, and what follows when the registers
 answer with what they hold is proved of the traces.
 */
module Fucload {
  import opened Wrappers

  type word = x: int | 0 <= x < 0x1_0000_0000

  datatype Access = Read(addr: nat, value: word) | Write(addr: nat, value: word)

  const ENGINE: nat := 0x260
  const BASE09: nat := 0x409000
  const BASE1A: nat := 0x41a000
  const SIZES: nat := 0x620

  /** Address 0, and the bit that makes a port move on by itself. */
  const INDEX: word := 0x01000000

  // ---------------------------------------------------------------------- the bytes

  /** Four bytes as the loops put them together. */
  function Pack(b0: byte, b1: byte, b2: byte, b3: byte): word {
    b0 + 256 * (b1 + 256 * (b2 + 256 * b3))
  }

  /** Their `|` of shifted bytes is this sum: no two of them have a bit in common. */
  lemma OrIsSum(b0: bv32, b1: bv32, b2: bv32, b3: bv32)
    requires b0 <= 0xff && b1 <= 0xff && b2 <= 0xff && b3 <= 0xff
    ensures b0 | (b1 << 8) | (b2 << 16) | (b3 << 24) == b0 + (b1 << 8) + (b2 << 16) + (b3 << 24)
  {
  }

  function Bytes(w: word): seq<byte> {
    [w % 256, w / 256 % 256, w / 256 / 256 % 256, w / 256 / 256 / 256]
  }

  function WordAt(image: seq<byte>, k: nat): word
    requires 4 * k + 3 < |image|
  {
    Pack(image[4 * k], image[4 * k + 1], image[4 * k + 2], image[4 * k + 3])
  }

  /** The little-endian words of an image. */
  function Words(image: seq<byte>): (ws: seq<word>)
    ensures |ws| == |image| / 4
  {
    seq(|image| / 4, k requires 0 <= k < |image| / 4 => WordAt(image, k))
  }

  /** Byte `j` of a word, counted from the least significant one. */
  function ByteOf(w: word, j: nat): byte {
    if j == 0 then w % 0x100 else if j == 1 then w / 0x100 % 0x100
    else if j == 2 then w / 0x1_0000 % 0x100 else w / 0x100_0000 % 0x100
  }

  /** Little-endian: the byte at the lowest address is the least significant one, in a word
      put together as in one taken apart. */
  lemma LittleEndian(image: seq<byte>, w: word, k: nat, j: nat)
    requires j < 4
    ensures 4 * k + 3 < |image| ==> ByteOf(Words(image)[k], j) == image[4 * k + j]
    ensures Image([w])[j] == ByteOf(w, j)
  {
    assert [w][..0] == [];
    if 4 * k + 3 < |image| {
      var i := 4 * k;
      BytesPack(image[i], image[i + 1], image[i + 2], image[i + 3]);
      ByteInWord(Words(image)[k], j);
    }
    ByteInWord(w, j);
    assert Image([w]) == [] + Bytes(w);
  }

  lemma ByteInWord(w: word, j: nat)
    requires j < 4
    ensures Bytes(w)[j] == ByteOf(w, j)
  {
  }

  lemma WordHere(image: seq<byte>, k: nat, i: nat)
    requires i == 4 * k && i + 3 < |image|
    ensures Words(image)[k] == Pack(image[i], image[i + 1], image[i + 2], image[i + 3])
  {
  }

  /** The image that words make in memory. */
  function Image(ws: seq<word>): (image: seq<byte>)
    ensures |image| == 4 * |ws|
  {
    if ws == [] then [] else Image(ws[..|ws| - 1]) + Bytes(ws[|ws| - 1])
  }

  lemma PackBytes(w: word)
    ensures var b := Bytes(w); Pack(b[0], b[1], b[2], b[3]) == w
  {
  }

  lemma BytesPack(b0: byte, b1: byte, b2: byte, b3: byte)
    ensures Bytes(Pack(b0, b1, b2, b3)) == [b0, b1, b2, b3]
  {
    var w := Pack(b0, b1, b2, b3);
    assert w % 256 == b0 && w / 256 == b1 + 256 * (b2 + 256 * b3);
    assert w / 256 % 256 == b1 && w / 256 / 256 == b2 + 256 * b3;
  }

  /** Reading words out of memory and laying words into it undo each other. */
  lemma WordsOfImage(ws: seq<word>)
    ensures Words(Image(ws)) == ws
  {
    hide Bytes, Pack;
    forall k: nat | k < |ws| ensures Words(Image(ws))[k] == ws[k] {
      ImageAt(ws, k);
      PackBytes(ws[k]);
    }
  }

  lemma {:induction false} ImageAt(ws: seq<word>, k: nat)
    requires k < |ws|
    ensures |Bytes(ws[k])| == 4 && forall j: nat | j < 4 :: Image(ws)[4 * k + j] == Bytes(ws[k])[j]
  {
    if k < |ws| - 1 { ImageAt(ws[..|ws| - 1], k); }
  }

  lemma ImageOfWords(image: seq<byte>)
    requires |image| % 4 == 0
    ensures Image(Words(image)) == image
  {
    hide Bytes, Pack;
    forall i: nat | i < |image| ensures Image(Words(image))[i] == image[i] {
      var k, j := i / 4, i % 4;
      ImageAt(Words(image), k);
      BytesPack(image[4 * k], image[4 * k + 1], image[4 * k + 2], image[4 * k + 3]);
      assert Image(Words(image))[4 * k + j] == Bytes(WordAt(image, k))[j];
    }
  }

  // ---------------------------------------------------------------------- the trace

  /** Data words, one after the other. */
  function DataWrites(ws: seq<word>, base: nat): seq<Access> {
    if ws == [] then [] else
      DataWrites(ws[..|ws| - 1], base) + [Write(base + 0x1c4, ws[|ws| - 1])]
  }

  /** A code word, after the number of its section if it is the first of 64. */
  function CodeStep(k: nat, w: word, base: nat): seq<Access> {
    if k % 64 == 0 then [Write(base + 0x188, k / 64 % 0x1_0000_0000), Write(base + 0x184, w)]
    else [Write(base + 0x184, w)]
  }

  function CodeWrites(ws: seq<word>, base: nat): seq<Access> {
    if ws == [] then [] else
      CodeWrites(ws[..|ws| - 1], base) + CodeStep(|ws| - 1, ws[|ws| - 1], base)
  }

  lemma NoWrites(ws: seq<word>, base: nat)
    ensures CodeWrites(ws[..0], base) == [] == DataWrites(ws[..0], base)
  {
  }

  /** Sections of 256 bytes are sections of 64 words. */
  lemma Sections(k: nat)
    ensures 4 * k % 256 == 0 <==> k % 64 == 0
    ensures 4 * k / 256 == k / 64
  {
  }

  lemma WritesNext(ws: seq<word>, i: nat, base: nat)
    requires i < |ws|
    ensures CodeWrites(ws[..i + 1], base) == CodeWrites(ws[..i], base) + CodeStep(i, ws[i], base)
    ensures DataWrites(ws[..i + 1], base) == DataWrites(ws[..i], base) + [Write(base + 0x1c4, ws[i])]
  {
    assert ws[..i + 1][..i] == ws[..i];
  }

  function DataTrace(ws: seq<word>, base: nat): seq<Access> {
    [Write(base + 0x1c0, INDEX)] + DataWrites(ws, base)
  }

  function CodeTrace(ws: seq<word>, base: nat): seq<Access> {
    [Write(base + 0x180, INDEX)] + CodeWrites(ws, base)
  }

  /** What an upload does between clearing and restoring the lowest bit of register 0x260. */
  function Bracketed(saved: word, trace: seq<Access>): seq<Access> {
    [Read(ENGINE, saved), Write(ENGINE, saved - saved % 2)] + trace + [Write(ENGINE, saved)]
  }

  /** `val260 & ~1`. */
  lemma LowestCleared(x: bv32)
    ensures x & !1 == x - x % 2
  {
  }

  // --------------------------------------------------------- what the device makes of it

  /** A memory behind a port: where the next word goes, whether that moves on, and what the
      memory holds. */
  datatype Memory = Memory(addr: nat, auto: bool, words: map<nat, word>) {
    function Store(w: word): Memory {
      this.(addr := if auto then addr + 4 else addr, words := words[addr := w])
    }

    /** The low 24 bits of an index are an address, the next one makes it move on. */
    function Index(v: word): Memory {
      this.(addr := v % 0x100_0000, auto := v / 0x100_0000 % 2 == 1)
    }
  }

  /** A microcontroller, as far as uploads concern it: its memories, the section last
      selected, and the one that was selected when a word of code came in. */
  datatype Engine = Engine(code: Memory, data: Memory, section: nat, sections: map<nat, nat>)

  /** An index write says where to begin, a section write selects a section of 256 bytes and
      moves there, a data write stores and moves on by a word; reads and other registers do not matter. */
  function Receive(e: Engine, w: Access, base: nat): Engine {
    if w.Read? then e
    else if w.addr == base + 0x180 then e.(code := e.code.Index(w.value))
    else if w.addr == base + 0x188 then e.(code := e.code.(addr := 256 * w.value), section := w.value)
    else if w.addr == base + 0x184 then e.(code := e.code.Store(w.value), sections := e.sections[e.code.addr := e.section])
    else if w.addr == base + 0x1c0 then e.(data := e.data.Index(w.value))
    else if w.addr == base + 0x1c4 then e.(data := e.data.Store(w.value))
    else e
  }

  function Replay(e: Engine, trace: seq<Access>, base: nat): Engine {
    if trace == [] then e
    else Receive(Replay(e, trace[..|trace| - 1], base), trace[|trace| - 1], base)
  }

  lemma ReplayOne(e: Engine, trace: seq<Access>, w: Access, base: nat)
    ensures Replay(e, trace + [w], base) == Receive(Replay(e, trace, base), w, base)
    ensures Replay(e, [], base) == e
    ensures Replay(e, [w], base) == Receive(e, w, base)
  {
    assert (trace + [w])[..|trace|] == trace;
    assert [w][..0] == [];
  }

  lemma {:induction false} ReplayConcat(e: Engine, a: seq<Access>, b: seq<Access>, base: nat)
    ensures Replay(e, a + b, base) == Replay(Replay(e, a, base), b, base)
    decreases |b|
  {
    if b == [] {
      assert a + b == a;
    } else {
      var n := |b| - 1;
      ReplayConcat(e, a, b[..n], base);
      assert (a + b)[..|a| + n] == a + b[..n];
    }
  }

  /** The memory over which `ws` have been written from address 0. */
  function Stored(m: map<nat, word>, ws: seq<word>): map<nat, word> {
    if ws == [] then m else Stored(m, ws[..|ws| - 1])[4 * (|ws| - 1) := ws[|ws| - 1]]
  }

  lemma {:induction false} StoredWords(m: map<nat, word>, ws: seq<word>, a: nat)
    ensures a in Stored(m, ws) <==> a in m || (a % 4 == 0 && a / 4 < |ws|)
    ensures a % 4 == 0 && a / 4 < |ws| ==> Stored(m, ws)[a] == ws[a / 4]
    ensures a in m && !(a % 4 == 0 && a / 4 < |ws|) ==> Stored(m, ws)[a] == m[a]
  {
    if ws != [] { StoredWords(m, ws[..|ws| - 1], a); }
  }

  function Filled(m: Memory, ws: seq<word>): Memory {
    Memory(4 * |ws|, true, Stored(m.words, ws))
  }

  /** The sections of `n` words from address 0. */
  function Sectioned(sections: map<nat, nat>, n: nat): map<nat, nat> {
    if n == 0 then sections else Sectioned(sections, n - 1)[4 * (n - 1) := (n - 1) / 64]
  }

  lemma {:induction false} SectionedAt(sections: map<nat, nat>, n: nat, k: nat)
    requires k < n
    ensures 4 * k in Sectioned(sections, n) && Sectioned(sections, n)[4 * k] == k / 64
  {
    if k < n - 1 { SectionedAt(sections, n - 1, k); }
  }

  /** Each word of the first `size` bytes of code came in with its own section selected. */
  ghost predicate InSections(e: Engine, size: nat) {
    forall k: nat | 4 * k + 3 < size :: 4 * k in e.sections && e.sections[4 * k] == k / 64
  }

  /** An engine to which `ws` have been sent as code. */
  function CodeFilled(e: Engine, ws: seq<word>): Engine {
    e.(code := Filled(e.code, ws), section := if ws == [] then e.section else (|ws| - 1) / 64,
       sections := Sectioned(e.sections, |ws|))
  }

  lemma FilledInSections(e: Engine, ws: seq<word>)
    ensures InSections(CodeFilled(e, ws), 4 * |ws|)
  {
    forall k: nat | 4 * k + 3 < 4 * |ws|
      ensures 4 * k in Sectioned(e.sections, |ws|) && Sectioned(e.sections, |ws|)[4 * k] == k / 64
    {
      SectionedAt(e.sections, |ws|, k);
    }
  }

  /** The memory holds an image from address 0, byte for byte. */
  ghost predicate HoldsImage(m: Memory, image: seq<byte>) {
    forall k: nat | 4 * k + 3 < |image| :: 4 * k in m.words && Bytes(m.words[4 * k]) == image[4 * k..4 * k + 4]
  }

  lemma FilledHolds(m: Memory, image: seq<byte>)
    ensures HoldsImage(Filled(m, Words(image)), image)
  {
    forall k: nat | 4 * k + 3 < |image|
      ensures 4 * k in Filled(m, Words(image)).words
      ensures Bytes(Filled(m, Words(image)).words[4 * k]) == image[4 * k..4 * k + 4]
    {
      var a := 4 * k;
      assert a % 4 == 0 && a / 4 == k;
      StoredWords(m.words, Words(image), a);
      WordHere(image, k, a);
      BytesPack(image[a], image[a + 1], image[a + 2], image[a + 3]);
      assert image[a..a + 4] == [image[a], image[a + 1], image[a + 2], image[a + 3]];
      hide Pack, Bytes, Stored, Words;
    }
  }

  /** Word by word the code memory fills from its beginning: at every section write it already
      is at that section, and every word comes in with its own one selected.  The data memory is
      left alone. */
  lemma {:induction false} CodeArrives(e: Engine, ws: seq<word>, base: nat)
    requires |ws| <= 0x4000_0000
    ensures Replay(e, CodeTrace(ws, base), base) == CodeFilled(e, ws)
  {
    hide CodeStep, Replay, Receive;
    if ws == [] {
      ReplayOne(e, [], Write(base + 0x180, INDEX), base);
      assert CodeTrace(ws, base) == [Write(base + 0x180, INDEX)];
      Rewound(e, base);
    } else {
      var k := |ws| - 1;
      CodeArrives(e, ws[..k], base);
      StepArrives(e, CodeTrace(ws[..k], base), k, ws[k], base);
      assert CodeTrace(ws, base) == CodeTrace(ws[..k], base) + CodeStep(k, ws[k], base);
    }
  }

  lemma Rewound(e: Engine, base: nat)
    ensures Receive(e, Write(base + 0x180, INDEX), base) == e.(code := e.code.(addr := 0, auto := true))
    ensures Receive(e, Write(base + 0x1c0, INDEX), base) == e.(data := e.data.(addr := 0, auto := true))
  {
  }

  lemma StepArrives(e: Engine, trace: seq<Access>, k: nat, w: word, base: nat)
    requires k < 0x4000_0000 && Replay(e, trace, base).code.addr == 4 * k
    requires k % 64 != 0 ==> Replay(e, trace, base).section == k / 64
    ensures var r := Replay(e, trace, base);
      Replay(e, trace + CodeStep(k, w, base), base)
        == r.(code := r.code.Store(w), section := k / 64, sections := r.sections[4 * k := k / 64])
  {
    hide Replay;
    var data := Write(base + 0x184, w);
    if k % 64 == 0 {
      var select := Write(base + 0x188, k / 64 % 0x1_0000_0000);
      ReplayOne(e, trace, select, base);
      ReplayOne(e, trace + [select], data, base);
      assert trace + CodeStep(k, w, base) == trace + [select] + [data];
    } else {
      ReplayOne(e, trace, data, base);
    }
  }

  /** The same of the data memory, which has no sections. */
  lemma {:induction false} DataArrives(e: Engine, ws: seq<word>, base: nat)
    ensures Replay(e, DataTrace(ws, base), base) == e.(data := Filled(e.data, ws))
  {
    hide Replay, Receive;
    if ws == [] {
      ReplayOne(e, [], Write(base + 0x1c0, INDEX), base);
      assert DataTrace(ws, base) == [Write(base + 0x1c0, INDEX)];
      Rewound(e, base);
    } else {
      var k := |ws| - 1;
      DataArrives(e, ws[..k], base);
      var data := Write(base + 0x1c4, ws[k]);
      ReplayOne(e, DataTrace(ws[..k], base), data, base);
      assert DataTrace(ws, base) == DataTrace(ws[..k], base) + [data];
      DataStored(Replay(e, DataTrace(ws[..k], base), base), ws[k], base);
    }
  }

  lemma DataStored(e: Engine, w: word, base: nat)
    ensures Receive(e, Write(base + 0x1c4, w), base) == e.(data := e.data.Store(w))
  {
  }

  /** None of the accesses is to a port of the engine at `base`. */
  ghost predicate Elsewhere(trace: seq<Access>, base: nat) {
    forall w | w in trace :: w.addr < base + 0x180 || w.addr > base + 0x1c4
  }

  lemma {:induction false} ElsewhereIgnored(e: Engine, trace: seq<Access>, base: nat)
    requires Elsewhere(trace, base)
    ensures Replay(e, trace, base) == e
  {
    if trace != [] {
      assert trace[|trace| - 1] in trace;
      ElsewhereIgnored(e, trace[..|trace| - 1], base);
    }
  }

  lemma {:induction false} TracesStay(ws: seq<word>, base: nat, w: Access)
    ensures w in CodeWrites(ws, base) || w in DataWrites(ws, base) ==> w.Write? && base + 0x180 <= w.addr <= base + 0x1c4
    ensures w in CodeTrace(ws, base) || w in DataTrace(ws, base) ==> w.Write? && base + 0x180 <= w.addr <= base + 0x1c4
  {
    if ws != [] { TracesStay(ws[..|ws| - 1], base, w); }
  }

  /** Register 0x260 is no port of either engine. */
  lemma BracketedArrives(e: Engine, saved: word, trace: seq<Access>, base: nat)
    requires base > ENGINE
    ensures Replay(e, Bracketed(saved, trace), base) == Replay(e, trace, base)
  {
    var a, b := [Read(ENGINE, saved), Write(ENGINE, saved - saved % 2)], [Write(ENGINE, saved)];
    ReplayConcat(e, a + trace, b, base);
    ReplayConcat(e, a, trace, base);
    ElsewhereIgnored(e, a, base);
    ElsewhereIgnored(Replay(e, trace, base), b, base);
  }

  // ------------------------------------------------------------------------ the loops

  class Mmio {
    /** What successive reads return. */
    const answers: nat -> word
    var asked: nat
    var trace: seq<Access>

    constructor (answers: nat -> word)
      ensures this.answers == answers && asked == 0 && trace == []
    {
      this.answers := answers;
      asked := 0;
      trace := [];
    }

    method ReadFrom(addr: nat) returns (value: word)
      modifies this
      ensures value == answers(old(asked)) && asked == old(asked) + 1 && trace == old(trace) + [Read(addr, value)]
    {
      value := answers(asked);
      asked := asked + 1;
      trace := trace + [Read(addr, value)];
    }

    method WriteTo(addr: nat, value: word)
      modifies this
      ensures asked == old(asked) && trace == old(trace) + [Write(addr, value)]
    {
      trace := trace + [Write(addr, value)];
    }
  }

  /** `upload_code`. */
  method UploadCode(dev: Mmio, code: array<byte>, size: nat, base: nat)
    requires size <= code.Length && size % 256 == 0
    modifies dev
    ensures dev.asked == old(dev.asked) + 1
    ensures dev.trace
         == old(dev.trace) + Bracketed(dev.answers(old(dev.asked)), CodeTrace(Words(code[..size]), base))
  {
    hide CodeWrites, DataWrites, Pack, Words;
    var saved := dev.ReadFrom(ENGINE);
    dev.WriteTo(ENGINE, saved - saved % 2);
    dev.WriteTo(base + 0x180, INDEX);
    ghost var ws := Words(code[..size]);
    ghost var start := dev.trace;
    NoWrites(ws, base);
    var i := 0;
    ghost var k := 0;
    while i < size
      invariant i == 4 * k && i <= size && dev.asked == old(dev.asked) + 1
      invariant dev.trace == start + CodeWrites(ws[..k], base)
    {
      WritesNext(ws, k, base);
      Sections(k);
      WordHere(code[..size], k, i);
      if i % 256 == 0 {
        dev.WriteTo(base + 0x188, i / 256 % 0x1_0000_0000);
      }
      var x := Pack(code[i], code[i + 1], code[i + 2], code[i + 3]);
      dev.WriteTo(base + 0x184, x);
      i, k := i + 4, k + 1;
    }
    assert ws[..k] == ws;
    // The padding loop of loader_firmware/fucload.c starts here, and has nothing to do.
    assert !(i < size);
    dev.WriteTo(ENGINE, saved);
  }

  method UploadData(dev: Mmio, data: array<byte>, size: nat, base: nat)
    requires size <= data.Length && size % 256 == 0
    modifies dev
    ensures dev.asked == old(dev.asked) + 1
    ensures dev.trace
         == old(dev.trace) + Bracketed(dev.answers(old(dev.asked)), DataTrace(Words(data[..size]), base))
  {
    hide CodeWrites, DataWrites, Pack, Words;
    var saved := dev.ReadFrom(ENGINE);
    dev.WriteTo(ENGINE, saved - saved % 2);
    dev.WriteTo(base + 0x1c0, INDEX);
    ghost var ws := Words(data[..size]);
    ghost var start := dev.trace;
    NoWrites(ws, base);
    var i := 0;
    ghost var k := 0;
    while i < size
      invariant i == 4 * k && i <= size && dev.asked == old(dev.asked) + 1
      invariant dev.trace == start + DataWrites(ws[..k], base)
    {
      WritesNext(ws, k, base);
      WordHere(data[..size], k, i);
      var x := Pack(data[i], data[i + 1], data[i + 2], data[i + 3]);
      dev.WriteTo(base + 0x1c4, x);
      i, k := i + 4, k + 1;
    }
    assert ws[..k] == ws;
    dev.WriteTo(ENGINE, saved);
  }

  /** The loops of `nvc0_graph_load_microcode`, over words. */
  method LoadData(dev: Mmio, ws: seq<word>, base: nat)
    modifies dev
    ensures dev.asked == old(dev.asked) && dev.trace == old(dev.trace) + DataTrace(ws, base)
  {
    hide CodeWrites, DataWrites, Pack;
    dev.WriteTo(base + 0x1c0, INDEX);
    ghost var start := dev.trace;
    NoWrites(ws, base);
    for i := 0 to |ws|
      invariant dev.asked == old(dev.asked) && dev.trace == start + DataWrites(ws[..i], base)
    {
      WritesNext(ws, i, base);
      dev.WriteTo(base + 0x1c4, ws[i]);
    }
    assert ws[..|ws|] == ws;
  }

  method LoadCode(dev: Mmio, ws: seq<word>, base: nat)
    modifies dev
    ensures dev.asked == old(dev.asked) && dev.trace == old(dev.trace) + CodeTrace(ws, base)
  {
    hide CodeWrites, DataWrites, Pack;
    dev.WriteTo(base + 0x180, INDEX);
    ghost var start := dev.trace;
    NoWrites(ws, base);
    for i := 0 to |ws|
      invariant dev.asked == old(dev.asked) && dev.trace == start + CodeWrites(ws[..i], base)
    {
      WritesNext(ws, i, base);
      if i % 64 == 0 {
        dev.WriteTo(base + 0x188, i / 64 % 0x1_0000_0000);
      }
      dev.WriteTo(base + 0x184, ws[i]);
    }
    assert ws[..|ws|] == ws;
  }

  function MicrocodeTrace(saved: word, blob: bool, hubData: seq<word>, hubCode: seq<word>,
                          gpcData: seq<word>, gpcCode: seq<word>): seq<Access>
  {
    Bracketed(saved, (if blob then DataTrace(hubData, BASE09) + CodeTrace(hubCode, BASE09) else [])
                       + DataTrace(gpcData, BASE1A) + CodeTrace(gpcCode, BASE1A))
  }

  /** `nvc0_graph_load_microcode`; `blob` is whether USE_BLOB_UCODE is defined. */
  method LoadMicrocode(dev: Mmio, blob: bool, hubData: seq<word>, hubCode: seq<word>,
                       gpcData: seq<word>, gpcCode: seq<word>)
    modifies dev
    ensures dev.trace
         == old(dev.trace) + MicrocodeTrace(dev.answers(old(dev.asked)), blob, hubData, hubCode, gpcData, gpcCode)
  {
    hide CodeTrace, DataTrace;
    var saved := dev.ReadFrom(ENGINE);
    dev.WriteTo(ENGINE, saved - saved % 2);
    if blob {
      LoadData(dev, hubData, BASE09);
      LoadCode(dev, hubCode, BASE09);
    }
    LoadData(dev, gpcData, BASE1A);
    LoadCode(dev, gpcCode, BASE1A);
    dev.WriteTo(ENGINE, saved);
  }

  /** The image laid out from words is uploaded with the trace of the words, so that the
      two formulations of a transfer are one; and the memory it is for ends up holding exactly
      the image, the other one what it held. */
  lemma UploadsAgree(e: Engine, ws: seq<word>, base: nat)
    requires |ws| <= 0x4000_0000
    ensures CodeTrace(Words(Image(ws)), base) == CodeTrace(ws, base)
    ensures DataTrace(Words(Image(ws)), base) == DataTrace(ws, base)
    ensures var r := Replay(e, CodeTrace(ws, base), base);
      HoldsImage(r.code, Image(ws)) && InSections(r, 4 * |ws|) && r.data == e.data
    ensures var r := Replay(e, DataTrace(ws, base), base); HoldsImage(r.data, Image(ws)) && r == e.(data := r.data)
  {
    hide HoldsImage, InSections, CodeTrace, DataTrace, Replay, Words, Image, Filled;
    WordsOfImage(ws);
    CodeArrives(e, ws, base);
    DataArrives(e, ws, base);
    FilledHolds(e.code, Image(ws));
    FilledHolds(e.data, Image(ws));
    FilledInSections(e, ws);
  }

  // -------------------------------------------------------------------- the program

  /** Both programs' buffers hold at least this much. */
  const MIN_BUFFER: nat := 0x10000

  /** The sizes of the code and data sections, from register 0x620. */
  function CodeSize(info: word): (size: nat)
    ensures size % 256 == 0 && size < MIN_BUFFER
  {
    info % 256 * 256
  }

  function DataSize(info: word): (size: nat)
    ensures size % 256 == 0 && size < MIN_BUFFER
  {
    info / 256 % 256 * 256
  }

  /** The lowest byte counts the code section in units of 256 bytes, the next one the data
      section. */
  lemma SectionSizes(info: word, c: byte, d: byte, h: nat)
    requires info == c + 256 * d + 0x1_0000 * h
    ensures CodeSize(info) == 256 * c && DataSize(info) == 256 * d
  {
    Digit(info, c, d + 256 * h);
    Digit(d + 256 * h, d, h);
  }

  lemma Digit(x: nat, a: byte, b: nat)
    requires x == a + 256 * b
    ensures x % 256 == a && x / 256 == b
  {
  }

  /** `(x & 0xff) << 8` and `((x >> 8) & 0xff) << 8`. */
  lemma SizeBits(x: bv32)
    ensures (x & 0xff) << 8 == x % 256 * 256 && ((x >> 8) & 0xff) << 8 == x / 256 % 256 * 256
  {
  }

  /** What a file that cannot be opened counts as. */
  function Content(file: Option<seq<byte>>): seq<byte> {
    if file.Some? then file.value else []
  }

  /** A buffer after a file has been read into it. */
  function Overlay(buf: seq<byte>, file: seq<byte>): (r: seq<byte>)
    ensures |r| == |buf|
  {
    if |file| <= |buf| then file + buf[|file|..] else buf
  }

  /** `read_binfile`: a file too large for the buffer is not read. */
  method ReadBinfile(file: Option<seq<byte>>, buf: array<byte>) returns (size: nat)
    modifies buf
    ensures size == |Content(file)| && buf[..] == Overlay(old(buf[..]), Content(file))
  {
    if file.None? { return 0; }
    size := |file.value|;
    if size > buf.Length { return; }
    forall i | 0 <= i < size { buf[i] := file.value[i]; }
  }

  /** Whether an engine's two files fit the sections that the `n`-th and the next answer tell. */
  predicate Fits(a: nat -> word, n: nat, code: seq<byte>, data: seq<byte>) {
    |code| <= CodeSize(a(n)) && |data| <= DataSize(a(n + 1))
  }

  /** Both sizes are read from one register, one after the other. */
  function SizeReads(a: nat -> word, n: nat, base: nat): seq<Access> {
    [Read(base + SIZES, a(n)), Read(base + SIZES, a(n + 1))]
  }

  /** What an engine is sent: each section in full, unless a file that does not fit stops
      the program first. */
  function EngineTrace(a: nat -> word, n: nat, codeBuf: seq<byte>, dataBuf: seq<byte>,
                       code: seq<byte>, data: seq<byte>, base: nat): seq<Access>
    requires |codeBuf| >= MIN_BUFFER && |dataBuf| >= MIN_BUFFER
  {
    var cs, ds := CodeSize(a(n)), DataSize(a(n + 1));
    SizeReads(a, n, base)
    + if |code| > cs then []
      else
        Bracketed(a(n + 2), CodeTrace(Words(Overlay(codeBuf, code)[..cs]), base))
        + if |data| > ds then [] else Bracketed(a(n + 3), DataTrace(Words(Overlay(dataBuf, data)[..ds]), base))
  }

  /** The part of `main` for one engine.  It reads the two section sizes and, in each upload
      it makes, register 0x260. */
  method LoadEngine(dev: Mmio, code: array<byte>, data: array<byte>,
                    codeFile: Option<seq<byte>>, dataFile: Option<seq<byte>>, base: nat) returns (ok: bool)
    requires code != data && code.Length >= MIN_BUFFER && data.Length >= MIN_BUFFER
    modifies dev, code, data
    ensures ok == Fits(dev.answers, old(dev.asked), Content(codeFile), Content(dataFile))
    ensures dev.trace == old(dev.trace)
      + EngineTrace(dev.answers, old(dev.asked), old(code[..]), old(data[..]), Content(codeFile), Content(dataFile), base)
    ensures ok ==> dev.asked == old(dev.asked) + 4
    ensures code[..] == Overlay(old(code[..]), Content(codeFile))
    ensures ok ==> data[..] == Overlay(old(data[..]), Content(dataFile))
  {
    hide Words, CodeTrace, DataTrace, Bracketed, CodeSize, DataSize, Overlay;
    var info := dev.ReadFrom(base + SIZES);
    var csSize := CodeSize(info);
    info := dev.ReadFrom(base + SIZES);
    var dsSize := DataSize(info);
    var size := ReadBinfile(codeFile, code);
    if size > csSize { return false; }
    UploadCode(dev, code, csSize, base);
    size := ReadBinfile(dataFile, data);
    if size > dsSize { return false; }
    UploadData(dev, data, dsSize, base);
    ok := true;
  }

  /** The whole run: the second engine has its turn if the first one's files fit. */
  function LoadTrace(a: nat -> word, n: nat, maxSize: nat, c09: seq<byte>, d09: seq<byte>,
                     c1a: seq<byte>, d1a: seq<byte>): seq<Access>
    requires maxSize >= MIN_BUFFER
  {
    var zeros := seq(maxSize, _ => 0);
    EngineTrace(a, n, zeros, zeros, c09, d09, BASE09)
    + if Fits(a, n, c09, d09)
      then EngineTrace(a, n + 4, Overlay(zeros, c09), Overlay(zeros, d09), c1a, d1a, BASE1A) else []
  }

  /** Both engines, through the same two buffers: the second finds the first one's files
      where its own end. */
  method Load(dev: Mmio, maxSize: nat, code09: Option<seq<byte>>, data09: Option<seq<byte>>,
              code1a: Option<seq<byte>>, data1a: Option<seq<byte>>) returns (ok: bool)
    requires maxSize >= MIN_BUFFER
    modifies dev
    ensures var a, n := dev.answers, old(dev.asked);
      var c09, d09, c1a, d1a := Content(code09), Content(data09), Content(code1a), Content(data1a);
      && ok == (Fits(a, n, c09, d09) && Fits(a, n + 4, c1a, d1a))
      && dev.trace == old(dev.trace) + LoadTrace(a, n, maxSize, c09, d09, c1a, d1a)
  {
    hide Fits, EngineTrace, Overlay;
    var code := new byte[maxSize](_ => 0);
    var data := new byte[maxSize](_ => 0);
    assert code[..] == seq(maxSize, _ => 0) == data[..];
    ok := LoadEngine(dev, code, data, code09, data09, BASE09);
    if ok {
      ok := LoadEngine(dev, code, data, code1a, data1a, BASE1A);
    }
  }

  /** What the second engine is sent: its own file, then what is left of the first engine's,
      then zeros. */
  lemma LeftoverOfFirst(maxSize: nat, first: seq<byte>, second: seq<byte>, i: nat)
    requires |first| <= maxSize && |second| <= maxSize && i < maxSize
    ensures Overlay(Overlay(seq(maxSize, _ => 0), first), second)[i]
         == if i < |second| then second[i] else if i < |first| then first[i] else 0
  {
  }

  // ---------------------------------------------------------- what has been loaded

  /** The two images an engine is to get. */
  ghost predicate HoldsImages(e: Engine, a: nat -> word, n: nat, codeBuf: seq<byte>, dataBuf: seq<byte>)
    requires |codeBuf| >= MIN_BUFFER && |dataBuf| >= MIN_BUFFER
  {
    && HoldsImage(e.code, codeBuf[..CodeSize(a(n))]) && InSections(e, CodeSize(a(n)))
    && HoldsImage(e.data, dataBuf[..DataSize(a(n + 1))])
  }

  lemma SectionsKept(e: Engine, r: Engine, size: nat)
    requires InSections(e, size) && r.sections == e.sections
    ensures InSections(r, size)
  {
  }

  /** An engine's uploads leave it with its images, whatever it held before. */
  lemma EngineLoaded(e: Engine, a: nat -> word, n: nat, codeBuf: seq<byte>, dataBuf: seq<byte>,
                     code: seq<byte>, data: seq<byte>, base: nat)
    requires base > ENGINE && |codeBuf| >= MIN_BUFFER && |dataBuf| >= MIN_BUFFER && Fits(a, n, code, data)
    ensures HoldsImages(Replay(e, EngineTrace(a, n, codeBuf, dataBuf, code, data, base), base),
                        a, n, Overlay(codeBuf, code), Overlay(dataBuf, data))
  {
    hide HoldsImage, InSections, Overlay, Bracketed, CodeTrace, DataTrace, Words, Filled, Replay, CodeSize, DataSize;
    var c, d := Overlay(codeBuf, code)[..CodeSize(a(n))], Overlay(dataBuf, data)[..DataSize(a(n + 1))];
    var up := Bracketed(a(n + 2), CodeTrace(Words(c), base));
    var up' := Bracketed(a(n + 3), DataTrace(Words(d), base));
    BracketedArrives(e, a(n + 2), CodeTrace(Words(c), base), base);
    CodeArrives(e, Words(c), base);
    var e1 := Replay(e, up, base);
    BracketedArrives(e1, a(n + 3), DataTrace(Words(d), base), base);
    DataArrives(e1, Words(d), base);
    FilledInSections(e, Words(c));
    SectionsKept(e1, Replay(e1, up', base), CodeSize(a(n)));
    ReplayConcat(e, up, up', base);
    ReplayConcat(e, SizeReads(a, n, base), up + up', base);
    ElsewhereIgnored(e, SizeReads(a, n, base), base);
    FilledHolds(e.code, c);
    FilledHolds(e1.data, d);
  }

  lemma UploadElsewhere(saved: word, ws: seq<word>, base: nat, base': nat)
    requires base > ENGINE && (base' > base + 0x1000 || base > base' + 0x1000)
    ensures Elsewhere(Bracketed(saved, CodeTrace(ws, base')), base)
    ensures Elsewhere(Bracketed(saved, DataTrace(ws, base')), base)
  {
    hide CodeTrace, DataTrace;
    PortsElsewhere(ws, base, base');
  }

  /** And do not touch an engine elsewhere. */
  lemma OtherEngine(a: nat -> word, n: nat, codeBuf: seq<byte>, dataBuf: seq<byte>,
                    code: seq<byte>, data: seq<byte>, base: nat, base': nat)
    requires |codeBuf| >= MIN_BUFFER && |dataBuf| >= MIN_BUFFER && base > ENGINE
    requires base' > base + 0x1000 || base > base' + 0x1000
    ensures Elsewhere(EngineTrace(a, n, codeBuf, dataBuf, code, data, base'), base)
  {
    hide Words, Overlay, CodeTrace, DataTrace, CodeSize, DataSize, Bracketed;
    UploadElsewhere(a(n + 2), Words(Overlay(codeBuf, code)[..CodeSize(a(n))]), base, base');
    UploadElsewhere(a(n + 3), Words(Overlay(dataBuf, data)[..DataSize(a(n + 1))]), base, base');
  }

  /** After a whole run both engines hold their images: the first its files over zeros, the
      second its files over what the first one's left in the buffers. */
  lemma BothLoaded(e: Engine, e': Engine, a: nat -> word, n: nat, maxSize: nat, c09: seq<byte>, d09: seq<byte>,
                   c1a: seq<byte>, d1a: seq<byte>)
    requires maxSize >= MIN_BUFFER && Fits(a, n, c09, d09) && Fits(a, n + 4, c1a, d1a)
    ensures var zeros := seq(maxSize, _ => 0);
      var c, d := Overlay(zeros, c09), Overlay(zeros, d09);
      var trace := LoadTrace(a, n, maxSize, c09, d09, c1a, d1a);
      && HoldsImages(Replay(e, trace, BASE09), a, n, c, d)
      && HoldsImages(Replay(e', trace, BASE1A), a, n + 4, Overlay(c, c1a), Overlay(d, d1a))
  {
    hide EngineTrace, HoldsImages, Overlay, Replay, Elsewhere, Fits;
    var zeros := seq(maxSize, _ => 0);
    var c, d := Overlay(zeros, c09), Overlay(zeros, d09);
    var t := EngineTrace(a, n, zeros, zeros, c09, d09, BASE09);
    var t' := EngineTrace(a, n + 4, c, d, c1a, d1a, BASE1A);
    EngineLoaded(e, a, n, zeros, zeros, c09, d09, BASE09);
    OtherEngine(a, n + 4, c, d, c1a, d1a, BASE09, BASE1A);
    ReplayConcat(e, t, t', BASE09);
    ElsewhereIgnored(Replay(e, t, BASE09), t', BASE09);
    OtherEngine(a, n, zeros, zeros, c09, d09, BASE1A, BASE09);
    ReplayConcat(e', t, t', BASE1A);
    ElsewhereIgnored(e', t, BASE1A);
    EngineLoaded(e', a, n + 4, c, d, c1a, d1a, BASE1A);
  }

  /** The word loops for one engine leave both its memories with the images of their words,
      and another engine as it was. */
  lemma WordsLoaded(e: Engine, data: seq<word>, code: seq<word>, base: nat, base': nat)
    requires |code| <= 0x4000_0000 && |data| <= 0x4000_0000
    requires base > ENGINE && (base' > base + 0x1000 || base > base' + 0x1000)
    ensures var r := Replay(e, DataTrace(data, base) + CodeTrace(code, base), base);
      HoldsImage(r.data, Image(data)) && HoldsImage(r.code, Image(code)) && InSections(r, 4 * |code|)
    ensures Replay(e, DataTrace(data, base') + CodeTrace(code, base'), base) == e
  {
    hide HoldsImage, InSections, CodeTrace, DataTrace, Replay, Image, Elsewhere;
    UploadsAgree(e, data, base);
    UploadsAgree(Replay(e, DataTrace(data, base), base), code, base);
    ReplayConcat(e, DataTrace(data, base), CodeTrace(code, base), base);
    PortsElsewhere(data, base, base');
    PortsElsewhere(code, base, base');
    ReplayConcat(e, DataTrace(data, base'), CodeTrace(code, base'), base);
    ElsewhereIgnored(e, DataTrace(data, base'), base);
    ElsewhereIgnored(e, CodeTrace(code, base'), base);
  }

  lemma PortsElsewhere(ws: seq<word>, base: nat, base': nat)
    requires base' > base + 0x1000 || base > base' + 0x1000
    ensures Elsewhere(CodeTrace(ws, base'), base) && Elsewhere(DataTrace(ws, base'), base)
  {
    forall w | w in CodeTrace(ws, base') || w in DataTrace(ws, base') ensures w.addr < base + 0x180 || w.addr > base + 0x1c4 {
      TracesStay(ws, base', w);
    }
  }

  /** `nvc0_graph_load_microcode` loads the engine of the GPCs, and that of the hub if it is
      to. */
  lemma MicrocodeLoaded(hub: Engine, gpc: Engine, saved: word, blob: bool, hubData: seq<word>, hubCode: seq<word>,
                        gpcData: seq<word>, gpcCode: seq<word>)
    requires |hubData| <= 0x4000_0000 && |hubCode| <= 0x4000_0000 && |gpcData| <= 0x4000_0000 && |gpcCode| <= 0x4000_0000
    ensures var trace := MicrocodeTrace(saved, blob, hubData, hubCode, gpcData, gpcCode);
      var h, g := Replay(hub, trace, 0x409000), Replay(gpc, trace, 0x41a000);
      && HoldsImage(g.data, Image(gpcData)) && HoldsImage(g.code, Image(gpcCode)) && InSections(g, 4 * |gpcCode|)
      && if blob then HoldsImage(h.data, Image(hubData)) && HoldsImage(h.code, Image(hubCode)) && InSections(h, 4 * |hubCode|)
         else h == hub
  {
    hide HoldsImage, InSections, CodeTrace, DataTrace, Replay, Image, Bracketed;
    var a := if blob then DataTrace(hubData, BASE09) + CodeTrace(hubCode, BASE09) else [];
    var b := DataTrace(gpcData, BASE1A) + CodeTrace(gpcCode, BASE1A);
    assert a + DataTrace(gpcData, BASE1A) + CodeTrace(gpcCode, BASE1A) == a + b;
    ReplayOne(hub, [], Read(0, 0), BASE09);
    ReplayOne(gpc, [], Read(0, 0), BASE1A);
    BracketedArrives(hub, saved, a + b, BASE09);
    BracketedArrives(gpc, saved, a + b, BASE1A);
    ReplayConcat(hub, a, b, BASE09);
    ReplayConcat(gpc, a, b, BASE1A);
    WordsLoaded(hub, hubData, hubCode, BASE09, BASE1A);
    WordsLoaded(gpc, hubData, hubCode, BASE1A, BASE09);
    WordsLoaded(Replay(hub, a, BASE09), gpcData, gpcCode, BASE09, BASE1A);
    WordsLoaded(Replay(gpc, a, BASE1A), gpcData, gpcCode, BASE1A, BASE09);
  }

  // -------------------------------------------------------- when registers are registers

  /** What register 0x260 holds after a trace, if it held `v` before. */
  function Held(v: word, trace: seq<Access>): word {
    if trace == [] then v
    else
      var last := trace[|trace| - 1];
      if last.Write? && last.addr == ENGINE then last.value else Held(v, trace[..|trace| - 1])
  }

  /** Reading it returned what it held. */
  ghost predicate Answered(v: word, trace: seq<Access>) {
    forall k | 0 <= k < |trace| && trace[k].Read? && trace[k].addr == ENGINE :: trace[k].value == Held(v, trace[..k])
  }

  /** At every write to another register its lowest bit was clear. */
  ghost predicate Guarded(v: word, trace: seq<Access>) {
    forall k | 0 <= k < |trace| && trace[k].Write? && trace[k].addr != ENGINE :: Held(v, trace[..k]) % 2 == 0
  }

  /** All other registers kept what they hold while the trace was made. */
  ghost predicate Constant(regs: nat -> word, trace: seq<Access>) {
    forall x | x in trace && x.Read? && x.addr != ENGINE :: x.value == regs(x.addr)
  }

  /** Only writes, and none to register 0x260. */
  ghost predicate Plain(trace: seq<Access>) {
    forall x | x in trace :: x.Write? && x.addr != ENGINE
  }

  lemma {:induction false} HeldConcat(v: word, a: seq<Access>, b: seq<Access>)
    ensures Held(v, a + b) == Held(Held(v, a), b)
    decreases |b|
  {
    if b == [] {
      assert a + b == a;
    } else {
      var n := |b| - 1;
      HeldConcat(v, a, b[..n]);
      assert (a + b)[..|a| + n] == a + b[..n];
    }
  }

  lemma AnsweredParts(v: word, a: seq<Access>, b: seq<Access>)
    requires Answered(v, a + b)
    ensures Answered(v, a) && Answered(Held(v, a), b)
  {
    forall k | 0 <= k < |a| && a[k].Read? && a[k].addr == ENGINE ensures a[k].value == Held(v, a[..k]) {
      assert (a + b)[k] == a[k] && (a + b)[..k] == a[..k];
    }
    forall k | 0 <= k < |b| && b[k].Read? && b[k].addr == ENGINE ensures b[k].value == Held(Held(v, a), b[..k]) {
      assert (a + b)[|a| + k] == b[k] && (a + b)[..|a| + k] == a + b[..k];
      HeldConcat(v, a, b[..k]);
    }
  }

  lemma GuardedConcat(v: word, a: seq<Access>, b: seq<Access>)
    requires Guarded(v, a) && Guarded(Held(v, a), b)
    ensures Guarded(v, a + b)
  {
    forall k | 0 <= k < |a + b| && (a + b)[k].Write? && (a + b)[k].addr != ENGINE ensures Held(v, (a + b)[..k]) % 2 == 0 {
      if k < |a| {
        assert (a + b)[..k] == a[..k];
      } else {
        assert (a + b)[..k] == a + b[..k - |a|];
        HeldConcat(v, a, b[..k - |a|]);
      }
    }
  }

  lemma {:induction false} PlainHolds(v: word, trace: seq<Access>)
    requires Plain(trace)
    ensures Held(v, trace) == v && (v % 2 == 0 ==> Guarded(v, trace))
    decreases |trace|
  {
    if trace != [] {
      var init, last := trace[..|trace| - 1], trace[|trace| - 1];
      assert last in trace && trace == init + [last];
      PlainHolds(v, init);
      OneHeld(v, last);
      hide Held, Guarded;
      HeldConcat(v, init, [last]);
      if v % 2 == 0 { GuardedConcat(v, init, [last]); }
    }
  }

  lemma OneHeld(v: word, x: Access)
    ensures Held(v, []) == v && Held(v, [x]) == if x.Write? && x.addr == ENGINE then x.value else v
    ensures x.Read? || x.addr == ENGINE || v % 2 == 0 ==> Guarded(v, [x])
  {
    assert [x][..0] == [];
  }

  /** The trace leaves register 0x260 as it was, and has its lowest bit clear while it writes
      elsewhere. */
  ghost predicate Restores(trace: seq<Access>) {
    forall v: word | Answered(v, trace) :: Held(v, trace) == v && Guarded(v, trace)
  }

  lemma RestoresConcat(a: seq<Access>, b: seq<Access>)
    requires Restores(a) && Restores(b)
    ensures Restores(a + b)
  {
    hide Answered, Guarded;
    forall v: word | Answered(v, a + b) ensures Held(v, a + b) == v && Guarded(v, a + b) {
      AnsweredParts(v, a, b);
      HeldConcat(v, a, b);
      GuardedConcat(v, a, b);
    }
  }

  /** Clearing the lowest bit, after reading the register. */
  lemma Cleared(v: word, saved: word)
    ensures var a := [Read(ENGINE, saved), Write(ENGINE, saved - saved % 2)];
      Held(v, a) == saved - saved % 2 && Guarded(v, a)
  {
    var a := [Read(ENGINE, saved), Write(ENGINE, saved - saved % 2)];
    assert a == [a[0]] + [a[1]];
    OneHeld(v, a[0]);
    OneHeld(v, a[1]);
    hide Held, Guarded;
    HeldConcat(v, [a[0]], [a[1]]);
    GuardedConcat(v, [a[0]], [a[1]]);
  }

  /** Every upload is such a trace. */
  lemma BracketedRestores(saved: word, trace: seq<Access>)
    requires Plain(trace)
    ensures Restores(Bracketed(saved, trace))
  {
    var a, b := [Read(ENGINE, saved), Write(ENGINE, saved - saved % 2)], [Write(ENGINE, saved)];
    forall v: word | Answered(v, a + trace + b) ensures Held(v, a + trace + b) == v && Guarded(v, a + trace + b) {
      assert (a + trace + b)[0] == Read(ENGINE, saved) && (a + trace + b)[..0] == [];
      Cleared(v, saved);
      PlainHolds(saved - saved % 2, trace);
      OneHeld(saved - saved % 2, b[0]);
      hide Held, Guarded, Answered, Plain;
      HeldConcat(v, a, trace);
      HeldConcat(v, a + trace, b);
      GuardedConcat(v, a, trace);
      GuardedConcat(v, a + trace, b);
    }
  }

  lemma UploadsArePlain(ws: seq<word>, base: nat)
    requires base > ENGINE
    ensures Plain(CodeTrace(ws, base)) && Plain(DataTrace(ws, base))
  {
    forall w | w in CodeTrace(ws, base) || w in DataTrace(ws, base) ensures w.Write? && w.addr != ENGINE {
      TracesStay(ws, base, w);
    }
  }

  /** An engine's part of a run, whether its files fit or not. */
  lemma EngineRestores(a: nat -> word, n: nat, codeBuf: seq<byte>, dataBuf: seq<byte>,
                       code: seq<byte>, data: seq<byte>, base: nat)
    requires base > ENGINE && |codeBuf| >= MIN_BUFFER && |dataBuf| >= MIN_BUFFER
    ensures Restores(EngineTrace(a, n, codeBuf, dataBuf, code, data, base))
  {
    hide Restores, Bracketed, CodeTrace, DataTrace, Words, Overlay, CodeSize, DataSize;
    var c, d := Overlay(codeBuf, code)[..CodeSize(a(n))], Overlay(dataBuf, data)[..DataSize(a(n + 1))];
    var up := Bracketed(a(n + 2), CodeTrace(Words(c), base));
    var up' := Bracketed(a(n + 3), DataTrace(Words(d), base));
    UploadsArePlain(Words(c), base);
    UploadsArePlain(Words(d), base);
    BracketedRestores(a(n + 2), CodeTrace(Words(c), base));
    BracketedRestores(a(n + 3), DataTrace(Words(d), base));
    RestoresConcat(up, up');
    ReadsRestore(a, n, base);
    RestoresConcat(SizeReads(a, n, base), []);
    RestoresConcat(SizeReads(a, n, base), up);
    RestoresConcat(SizeReads(a, n, base), up + up');
    assert up + [] == up;
  }

  lemma ReadsRestore(a: nat -> word, n: nat, base: nat)
    ensures Restores(SizeReads(a, n, base)) && Restores([])
  {
    forall v: word ensures Held(v, SizeReads(a, n, base)) == v {
      HeldConcat(v, [Read(base + SIZES, a(n))], [Read(base + SIZES, a(n + 1))]);
    }
  }

  /** And a whole run. */
  lemma LoadRestores(a: nat -> word, n: nat, maxSize: nat, c09: seq<byte>, d09: seq<byte>, c1a: seq<byte>, d1a: seq<byte>)
    requires maxSize >= MIN_BUFFER
    ensures Restores(LoadTrace(a, n, maxSize, c09, d09, c1a, d1a))
  {
    hide Restores, EngineTrace, Fits, Overlay;
    var zeros := seq(maxSize, _ => 0);
    var t := EngineTrace(a, n, zeros, zeros, c09, d09, BASE09);
    EngineRestores(a, n, zeros, zeros, c09, d09, BASE09);
    EngineRestores(a, n + 4, Overlay(zeros, c09), Overlay(zeros, d09), c1a, d1a, BASE1A);
    ReadsRestore(a, n, BASE09);
    RestoresConcat(t, []);
    RestoresConcat(t, EngineTrace(a, n + 4, Overlay(zeros, c09), Overlay(zeros, d09), c1a, d1a, BASE1A));
  }

  /** `nvc0_graph_load_microcode` too. */
  lemma MicrocodeRestores(saved: word, blob: bool, hubData: seq<word>, hubCode: seq<word>, gpcData: seq<word>, gpcCode: seq<word>)
    ensures Restores(MicrocodeTrace(saved, blob, hubData, hubCode, gpcData, gpcCode))
  {
    hide Restores, CodeTrace, DataTrace;
    UploadsArePlain(hubData, BASE09);
    UploadsArePlain(hubCode, BASE09);
    UploadsArePlain(gpcData, BASE1A);
    UploadsArePlain(gpcCode, BASE1A);
    BracketedRestores(saved, (if blob then DataTrace(hubData, BASE09) + CodeTrace(hubCode, BASE09) else [])
                               + DataTrace(gpcData, BASE1A) + CodeTrace(gpcCode, BASE1A));
  }

  /** The sizes of an engine's sections are those its own register 0x620 tells. */
  lemma OwnSizes(regs: nat -> word, a: nat -> word, n: nat, codeBuf: seq<byte>, dataBuf: seq<byte>,
                 code: seq<byte>, data: seq<byte>, base: nat, c: byte, d: byte, h: nat)
    requires |codeBuf| >= MIN_BUFFER && |dataBuf| >= MIN_BUFFER
    requires Constant(regs, EngineTrace(a, n, codeBuf, dataBuf, code, data, base))
    requires regs(base + 0x620) == c + 256 * d + 0x1_0000 * h
    ensures CodeSize(a(n)) == 256 * c && DataSize(a(n + 1)) == 256 * d
    ensures Fits(a, n, code, data) <==> |code| <= 256 * c && |data| <= 256 * d
  {
    var trace := EngineTrace(a, n, codeBuf, dataBuf, code, data, base);
    assert trace[0] in trace && trace[1] in trace;
    SectionSizes(regs(base + 0x620), c, d, h);
  }

  /** In a whole run each engine's own register decides, whatever the other one's says. */
  lemma BothSizes(regs: nat -> word, a: nat -> word, n: nat, maxSize: nat, c09: seq<byte>, d09: seq<byte>,
                  c1a: seq<byte>, d1a: seq<byte>, c: byte, d: byte, h: nat, c': byte, d': byte, h': nat)
    requires maxSize >= MIN_BUFFER && Constant(regs, LoadTrace(a, n, maxSize, c09, d09, c1a, d1a))
    requires regs(0x409620) == c + 256 * d + 0x1_0000 * h && regs(0x41a620) == c' + 256 * d' + 0x1_0000 * h'
    ensures CodeSize(a(n)) == 256 * c && DataSize(a(n + 1)) == 256 * d
    ensures Fits(a, n, c09, d09) <==> |c09| <= 256 * c && |d09| <= 256 * d
    ensures Fits(a, n, c09, d09) ==> CodeSize(a(n + 4)) == 256 * c' && DataSize(a(n + 5)) == 256 * d'
  {
    hide EngineTrace, Overlay;
    var zeros := seq(maxSize, _ => 0);
    OwnSizes(regs, a, n, zeros, zeros, c09, d09, BASE09, c, d, h);
    if Fits(a, n, c09, d09) {
      OwnSizes(regs, a, n + 4, Overlay(zeros, c09), Overlay(zeros, d09), c1a, d1a, BASE1A, c', d', h');
    }
  }
}
