/**
 The register monitor of monitor2.c: each poll reads a window of device registers, and
 prints those that differ from a shadow copy, which it brings up to date.
 */
module Monitor {
  /** A printed register: its offset in the window, and its value. */
  datatype Entry = Entry(addr: nat, value: int)

  const REGISTERS: nat := 0x1000
  const LIMIT: nat := 0xc94
  const PRINT_SIZE: nat := 0x400
  const PRINT_LINE_VALUE: nat := 9

  /** Registers that must not be read. */
  predicate Skipped(i: nat) {
    0x508 <= i < 0x600 || i == 0x128
  }

  /** How many of the registers below offset `i` are skipped. */
  function Skips(i: nat): (n: nat)
    ensures n <= 63
  {
    (if i > 0x128 then 1 else 0) + (if i <= 0x508 then 0 else if i < 0x600 then (i - 0x508) / 4 else 62)
  }

  lemma SkipsNext(i: nat)
    requires i % 4 == 0
    ensures Skips(i + 4) == Skips(i) + if Skipped(i) then 1 else 0
  {
  }

  /** Whether a poll that finds `hw` in the device has something to print for offset `i`. */
  predicate Changed(reg: seq<int>, hw: nat -> int, base: nat, i: nat)
    requires i / 4 < |reg|
  {
    !Skipped(i) && hw(base + i) != reg[i / 4]
  }

  /** What has changed below word `n`, in order. */
  function Changes(reg: seq<int>, hw: nat -> int, base: nat, n: nat): seq<Entry>
    requires n <= |reg|
  {
    if n == 0 then [] else
      Changes(reg, hw, base, n - 1)
        + if Changed(reg, hw, base, 4 * (n - 1)) then [Entry(4 * (n - 1), hw(base + 4 * (n - 1)))] else []
  }

  /** The shadow with its first `n` words brought up to date. */
  function Refreshed(reg: seq<int>, hw: nat -> int, base: nat, n: nat): (r: seq<int>)
    requires n <= |reg|
    ensures |r| == |reg|
  {
    seq(|reg|, w requires 0 <= w < |reg| => if w < n && !Skipped(4 * w) then hw(base + 4 * w) else reg[w])
  }

  /** What the reader of the log knows of the registers. */
  function Replay(reg: seq<int>, log: seq<Entry>): (r: seq<int>)
    ensures |r| == |reg|
  {
    if log == [] then reg else
      var r := Replay(reg, log[..|log| - 1]);
      var last := log[|log| - 1];
      if last.addr / 4 < |reg| then r[last.addr / 4 := last.value] else r
  }

  lemma {:induction false} ReplayMore(reg: seq<int>, log: seq<Entry>, more: seq<Entry>)
    ensures Replay(reg, log + more) == Replay(Replay(reg, log), more)
    decreases |more|
  {
    if more == [] {
      assert log + more == log;
    } else {
      var n := |more| - 1;
      ReplayMore(reg, log, more[..n]);
      assert (log + more)[..|log| + n] == log + more[..n];
    }
  }

  /** The changes of a poll say all there is to say. */
  lemma {:induction false} ChangesRefresh(reg: seq<int>, hw: nat -> int, base: nat, n: nat)
    requires n <= |reg|
    ensures Replay(reg, Changes(reg, hw, base, n)) == Refreshed(reg, hw, base, n)
  {
    if n == 0 {
      NothingYet(reg, hw, base);
    } else {
      ChangesRefresh(reg, hw, base, n - 1);
      NextRegister(reg, hw, base, n - 1);
      var before, e := Changes(reg, hw, base, n - 1), Entry(4 * (n - 1), hw(base + 4 * (n - 1)));
      ReplayLast(reg, before, e);
      hide Changes, Refreshed, Replay, Skipped;
      assert e.addr / 4 == n - 1;
      assert before + [] == before;
    }
  }

  lemma ReplayLast(reg: seq<int>, log: seq<Entry>, e: Entry)
    requires e.addr / 4 < |reg|
    ensures Replay(reg, log + [e]) == Replay(reg, log)[e.addr / 4 := e.value]
  {
    assert (log + [e])[..|log|] == log;
  }

  /** And nothing twice or in vain: entries are in order of their registers, and each differs
      from what was known. */
  lemma {:induction false} ChangesOrdered(reg: seq<int>, hw: nat -> int, base: nat, n: nat, e: nat)
    requires n <= |reg| && e < |Changes(reg, hw, base, n)|
    ensures var log := Changes(reg, hw, base, n);
      && log[e].addr < 4 * n && log[e].addr % 4 == 0 && log[e].value != reg[log[e].addr / 4]
      && (e > 0 ==> log[e - 1].addr < log[e].addr)
  {
    var before := Changes(reg, hw, base, n - 1);
    if e < |before| {
      ChangesOrdered(reg, hw, base, n - 1, e);
    } else if e > 0 {
      ChangesOrdered(reg, hw, base, n - 1, e - 1);
    }
  }

  /** The ninth print of a line is that of word `n` - 1. */
  ghost predicate LineEnd(was: seq<int>, hw: nat -> int, base: nat, n: nat)
    requires n <= |was|
  {
    && n > 0 && |Changes(was, hw, base, n)| > |Changes(was, hw, base, n - 1)|
    && |Changes(was, hw, base, n)| % PRINT_LINE_VALUE == 0
  }

  /** What the poll has room for is used up by the prints and skips below word `n`. */
  ghost predicate Full(was: seq<int>, hw: nat -> int, base: nat, n: nat)
    requires n <= |was|
  {
    PRINT_SIZE <= 4 * (|Changes(was, hw, base, n)| + Skips(4 * n))
  }

  /** At no end of a line below word `n` is it used up. */
  ghost predicate GoesOn(was: seq<int>, hw: nat -> int, base: nat, n: nat)
    requires n <= |was|
  {
    forall m: nat | m < n && LineEnd(was, hw, base, m) :: !Full(was, hw, base, m)
  }

  /** A poll scans the words below `n`: those up to the first end of a line at which it is
      full, or the whole window. */
  ghost predicate EndsPoll(was: seq<int>, hw: nat -> int, base: nat, n: nat)
    requires n <= |was|
  {
    && 4 * n <= LIMIT && GoesOn(was, hw, base, n)
    && (4 * n < LIMIT ==> LineEnd(was, hw, base, n) && Full(was, hw, base, n))
  }

  /** That says exactly where a poll ends. */
  lemma PollEndUnique(was: seq<int>, hw: nat -> int, base: nat, m: nat, n: nat)
    requires m <= |was| && n <= |was| && EndsPoll(was, hw, base, m) && EndsPoll(was, hw, base, n)
    ensures m == n
  {
    hide LineEnd, Full;
  }

  /** A line ends with a print that is the ninth. */
  lemma LineGoesOn(was: seq<int>, hw: nat -> int, base: nat, n: nat)
    requires n + 1 < |was|
    ensures LineEnd(was, hw, base, n + 1) <==>
      |Changes(was, hw, base, n + 1)| > |Changes(was, hw, base, n)| && |Changes(was, hw, base, n + 1)| % PRINT_LINE_VALUE == 0
    ensures GoesOn(was, hw, base, n + 1) && !LineEnd(was, hw, base, n + 1) ==> GoesOn(was, hw, base, n + 2)
  {
    hide Changes;
  }

  lemma GoesOnLess(was: seq<int>, hw: nat -> int, base: nat, n: nat)
    requires n < |was|
    ensures GoesOn(was, hw, base, n + 1) ==> GoesOn(was, hw, base, n)
  {
  }

  class HubMonitor {
    const base: nat
    const reg: array<int>
    /** Everything printed so far. */
    var log: seq<Entry>

    /** The log is lossless. */
    ghost predicate Valid()
      reads this, reg
    {
      reg.Length == REGISTERS && Replay(seq(REGISTERS, _ => 0), log) == reg[..]
    }

    constructor (base: nat)
      ensures Valid() && this.base == base && log == [] && fresh(reg)
    {
      this.base := base;
      reg := new int[REGISTERS](_ => 0);
      log := [];
      new;
      assert reg[..] == seq(REGISTERS, _ => 0);
    }

    /** A poll that found `was` in the shadow and `start` in the log has scanned `n` registers,
        of which `j` had changed, and `off` counts four for each that was read and had not. */
    ghost predicate Scanned(was: seq<int>, start: seq<Entry>, hw: nat -> int, n: nat, off: int, j: nat)
      reads this, reg
    {
      && reg.Length == |was| == REGISTERS && 4 * n <= LIMIT
      && 4 * n == off + 4 * j + 4 * Skips(4 * n)
      && |log| == |start| + j && log == start + Changes(was, hw, base, n)
      && reg[..] == Refreshed(was, hw, base, n)
    }

    /** One register of the window: read unless skipped, and printed and stored if changed. */
    method PollRegister(hw: nat -> int, i: nat, off: int, ghost was: seq<int>, ghost start: seq<Entry>, ghost j: nat)
      returns (off': int, changed: bool)
      requires i < LIMIT && i % 4 == 0 && Scanned(was, start, hw, i / 4, off, j)
      modifies this, reg
      ensures Scanned(was, start, hw, i / 4 + 1, off', if changed then j + 1 else j)
      ensures changed ==> EndsAt(i)
    {
      hide Changed, Changes, Refreshed, Skips;
      ghost var n := i / 4;
      assert i == 4 * n;
      SkipsNext(i);
      NextRegister(was, hw, base, n);
      off', changed := off, false;
      assert reg[..][n] == was[n];
      if !((i >= 0x508 && i < 0x600) || i == 0x128) {
        var temp := hw(base + i);
        if temp == reg[i / 4] {
          off' := off' + 4;
        } else {
          log := log + [Entry(i, temp)];
          reg[i / 4] := temp;
          changed := true;
        }
      }
    }

    /** The inner loop: a line of nine prints, or what is left of the window. */
    method PollLine(hw: nat -> int, i0: nat, off0: int, j0: nat, ghost was: seq<int>, ghost start: seq<Entry>)
      returns (i: nat, off: int, j: nat)
      requires |was| == REGISTERS && i0 % 4 == 0 && i0 < LIMIT && j0 % PRINT_LINE_VALUE == 0
      requires Scanned(was, start, hw, i0 / 4, off0, j0) && GoesOn(was, hw, base, i0 / 4 + 1)
      modifies this, reg
      ensures i % 4 == 0 && i0 < i <= LIMIT && Scanned(was, start, hw, i / 4, off, j)
      ensures i < LIMIT ==> j % PRINT_LINE_VALUE == 0 && EndsAt(i - 4) && LineEnd(was, hw, base, i / 4)
      ensures GoesOn(was, hw, base, i / 4)
    {
      hide Scanned, EndsAt, Skips, Changes, Refreshed, Replay, LineEnd, GoesOn, Full;
      var k, changed := 0, false;
      i, off, j := i0, off0, j0;
      while k < PRINT_LINE_VALUE * 4 && i < LIMIT
        invariant k == 4 * (j - j0) <= 36 && (i0 < i || (k == 0 && i0 == i))
        invariant i % 4 == 0 && i <= LIMIT && Scanned(was, start, hw, i / 4, off, j)
        invariant k == 36 ==> EndsAt(i - 4) && LineEnd(was, hw, base, i / 4)
        invariant GoesOn(was, hw, base, if k == 36 then i / 4 else i / 4 + 1)
        decreases LIMIT - i
      {
        ScannedCount(was, start, hw, i / 4, off, j);
        off, changed := PollRegister(hw, i, off, was, start, j);
        ScannedCount(was, start, hw, i / 4 + 1, off, if changed then j + 1 else j);
        LineGoesOn(was, hw, base, i / 4);
        if changed {
          k := k + 4;
          j := j + 1;
        }
        i := i + 4;
      }
      GoesOnLess(was, hw, base, i / 4);
    }

    /** `nvc0_debugunit`: one poll, which finds `hw` in the device.  It scans the registers
        below `i`, and prints and stores exactly those that have changed.  It ends early at the
        first end of a line where its prints and skips amount to PRINT_SIZE, and only there;
        so a poll in which fewer than 198 registers have changed looks at all of them. */
    method DebugUnit(hw: nat -> int) returns (i: nat)
      requires Valid()
      modifies this, reg
      ensures Valid() && i % 4 == 0 && 0 < i <= LIMIT
      ensures log == old(log) + Changes(old(reg[..]), hw, base, i / 4)
      ensures reg[..] == Refreshed(old(reg[..]), hw, base, i / 4)
      ensures EndsPoll(old(reg[..]), hw, base, i / 4)
      ensures var j := |log| - |old(log)|;
        i < LIMIT ==> j % PRINT_LINE_VALUE == 0 && PRINT_SIZE <= 4 * (j + Skips(i)) && log[|log| - 1].addr == i - 4
      ensures |log| - |old(log)| < 198 ==> i == LIMIT
    {
      hide Scanned, EndsAt, Skips, Changes, Refreshed, Replay, LineEnd, GoesOn, Full;
      ghost var was, start := reg[..], log;
      var off, j := 0, 0;
      i := 0;
      NothingScanned(hw);
      while i < PRINT_SIZE + off && i < LIMIT
        invariant i % 4 == 0 && i <= LIMIT && 0 <= j && Scanned(was, start, hw, i / 4, off, j)
        invariant i < LIMIT ==> j % PRINT_LINE_VALUE == 0 && (i > 0 ==> EndsAt(i - 4) && LineEnd(was, hw, base, i / 4))
        invariant GoesOn(was, hw, base, i / 4)
        decreases LIMIT - i
      {
        LineBegins(was, start, hw, i / 4, off, j);
        i, off, j := PollLine(hw, i, off, j, was, start);
      }
      PollEnds(was, start, hw, i / 4, off, j);
      ScannedMeans(was, start, hw, i / 4, off, j);
      Ended(i);
    }

    lemma ScannedCount(was: seq<int>, start: seq<Entry>, hw: nat -> int, n: nat, off: int, j: nat)
      requires Scanned(was, start, hw, n, off, j)
      ensures |Changes(was, hw, base, n)| == j && 4 * n == off + 4 * j + 4 * Skips(4 * n)
    {
    }

    /** The outer loop's test, at the end of a line. */
    lemma LineBegins(was: seq<int>, start: seq<Entry>, hw: nat -> int, n: nat, off: int, j: nat)
      requires Scanned(was, start, hw, n, off, j) && GoesOn(was, hw, base, n) && 4 * n < PRINT_SIZE + off
      ensures GoesOn(was, hw, base, n + 1)
    {
    }

    lemma PollEnds(was: seq<int>, start: seq<Entry>, hw: nat -> int, n: nat, off: int, j: nat)
      requires Scanned(was, start, hw, n, off, j) && GoesOn(was, hw, base, n)
      requires 4 * n >= PRINT_SIZE + off || 4 * n == LIMIT
      requires n > 0 && 4 * n < LIMIT ==> LineEnd(was, hw, base, n)
      ensures EndsPoll(was, hw, base, n) && (4 * n < LIMIT ==> Full(was, hw, base, n))
    {
    }

    /** The last print was of the register at `addr`. */
    ghost predicate EndsAt(addr: nat)
      reads this
    {
      log != [] && log[|log| - 1].addr == addr
    }

    lemma Ended(i: nat)
      ensures i >= 4 && EndsAt(i - 4) ==> log != [] && log[|log| - 1].addr == i - 4
    {
    }

    lemma NothingScanned(hw: nat -> int)
      requires Valid()
      ensures Scanned(reg[..], log, hw, 0, 0, 0) && Replay(seq(REGISTERS, _ => 0), log) == reg[..]
      ensures GoesOn(reg[..], hw, base, 0)
    {
      NothingYet(reg[..], hw, base);
    }

    lemma ScannedMeans(was: seq<int>, start: seq<Entry>, hw: nat -> int, n: nat, off: int, j: nat)
      requires Scanned(was, start, hw, n, off, j) && Replay(seq(REGISTERS, _ => 0), start) == was
      ensures Valid() && log == start + Changes(was, hw, base, n) && reg[..] == Refreshed(was, hw, base, n)
      ensures |log| == |start| + j && 4 * n == off + 4 * j + 4 * Skips(4 * n)
    {
      ChangesRefresh(was, hw, base, n);
      ReplayMore(seq(REGISTERS, _ => 0), start, Changes(was, hw, base, n));
    }
  }

  lemma NothingYet(was: seq<int>, hw: nat -> int, base: nat)
    ensures Changes(was, hw, base, 0) == [] && Refreshed(was, hw, base, 0) == was && Skips(0) == 0
  {
  }

  /** One register of a poll. */
  lemma NextRegister(was: seq<int>, hw: nat -> int, base: nat, n: nat)
    requires n < |was|
    ensures Refreshed(was, hw, base, n)[n] == was[n]
    ensures Changes(was, hw, base, n + 1)
         == Changes(was, hw, base, n)
              + if !Skipped(4 * n) && hw(base + 4 * n) != was[n] then [Entry(4 * n, hw(base + 4 * n))] else []
    ensures Refreshed(was, hw, base, n + 1)
         == if !Skipped(4 * n) && hw(base + 4 * n) != was[n] then Refreshed(was, hw, base, n)[n := hw(base + 4 * n)]
            else Refreshed(was, hw, base, n)
  {
    var r := Refreshed(was, hw, base, n);
    assert 4 * n / 4 == n;
    forall w: nat | w < |was|
      ensures Refreshed(was, hw, base, n + 1)[w]
           == if w == n && Changed(was, hw, base, 4 * n) then hw(base + 4 * n) else r[w]
    {
    }
    assert Refreshed(was, hw, base, n + 1) == if Changed(was, hw, base, 4 * n) then r[n := hw(base + 4 * n)] else r;
  }
}
