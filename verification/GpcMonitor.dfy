/**
 The part of monitor2.c that polls the four GPCs, and what its log tells.
 */
module GpcMonitor {
  import opened Monitor

  /** The offsets that are polled in a GPC, in the order of its shadow array. */
  const GPC_REGISTERS: seq<nat> :=
    [0x800, 0x804, 0x808, 0x80c, 0x810, 0x814, 0x818, 0x81c, 0x400, 0x430, 0x120]

  const GPC_BASES: seq<nat> := [0x502000, 0x50a000, 0x512000, 0x51a000]

  function GpcEntry(known: int, hw: nat -> int, base: nat, i: nat): seq<Entry>
    requires i < |GPC_REGISTERS|
  {
    var k := GPC_REGISTERS[i];
    if hw(base + k) != known then [Entry(k, hw(base + k))] else []
  }

  function GpcChanges(reg: seq<int>, hw: nat -> int, base: nat, n: nat): seq<Entry>
    requires n <= |GPC_REGISTERS| <= |reg|
  {
    if n == 0 then [] else GpcChanges(reg, hw, base, n - 1) + GpcEntry(reg[n - 1], hw, base, n - 1)
  }

  /** One register of a GPC; what is printed does not say which GPC. */
  method GpcRegister(hw: nat -> int, base: nat, k: nat, reg: array<int>, i: nat) returns (printed: seq<Entry>)
    requires i < |GPC_REGISTERS| <= reg.Length && k == GPC_REGISTERS[i]
    modifies reg
    ensures printed == GpcEntry(old(reg[i]), hw, base, i)
    ensures reg[..] == old(reg[..])[i := hw(base + k)]
  {
    printed := [];
    var temp := hw(base + k);
    if temp != reg[i] {
      printed := [Entry(k, temp)];
      reg[i] := temp;
    }
  }

  /** `nvc0_debugunit_gpc`: eight consecutive registers and three single ones. */
  method DebugUnitGpc(hw: nat -> int, base: nat, reg: array<int>) returns (log: seq<Entry>)
    requires reg.Length == REGISTERS
    modifies reg
    ensures log == GpcChanges(old(reg[..]), hw, base, |GPC_REGISTERS|)
    ensures Polled(reg[..], old(reg[..]), hw, base, |GPC_REGISTERS|)
  {
    hide GpcEntry, GpcChanges, Polled;
    ghost var was := reg[..];
    NothingPolled(was, hw, base);
    var i, k, entry := 0, 0x800, [];
    log := [];
    while k < 0x820
      invariant i <= 8 && k == 0x800 + 4 * i && log == GpcChanges(was, hw, base, i)
      invariant Polled(reg[..], was, hw, base, i)
    {
      NextPolled(reg[..], was, hw, base, i);
      entry := GpcRegister(hw, base, k, reg, i);
      log, i, k := log + entry, i + 1, k + 4;
    }
    NextPolled(reg[..], was, hw, base, 8);
    entry := GpcRegister(hw, base, 0x400, reg, 8);
    log := log + entry;
    NextPolled(reg[..], was, hw, base, 9);
    entry := GpcRegister(hw, base, 0x430, reg, 9);
    log := log + entry;
    NextPolled(reg[..], was, hw, base, 10);
    entry := GpcRegister(hw, base, 0x120, reg, 10);
    log := log + entry;
  }

  /** The first `n` registers of a GPC have been brought up to date. */
  predicate Polled(reg: seq<int>, was: seq<int>, hw: nat -> int, base: nat, n: nat) {
    && n <= |GPC_REGISTERS| <= |reg| == |was|
    && forall w: nat | w < |reg| :: reg[w] == if w < n then hw(base + GPC_REGISTERS[w]) else was[w]
  }

  lemma NothingPolled(was: seq<int>, hw: nat -> int, base: nat)
    requires |GPC_REGISTERS| <= |was|
    ensures Polled(was, was, hw, base, 0) && GpcChanges(was, hw, base, 0) == []
  {
  }

  lemma NextPolled(reg: seq<int>, was: seq<int>, hw: nat -> int, base: nat, n: nat)
    requires n < |GPC_REGISTERS| <= |was| && Polled(reg, was, hw, base, n)
    ensures |reg| == |was| && reg[n] == was[n]
    ensures Polled(reg[n := hw(base + GPC_REGISTERS[n])], was, hw, base, n + 1)
    ensures GpcChanges(was, hw, base, n + 1) == GpcChanges(was, hw, base, n) + GpcEntry(was[n], hw, base, n)
  {
  }

  /** The line a GPC prints, if any: only a GPC with a change ends one. */
  function Line(entries: seq<Entry>): seq<seq<Entry>> {
    if entries == [] then [] else [entries]
  }

  ghost predicate Shadows(shadows: seq<seq<int>>) {
    |shadows| == |GPC_BASES| && forall j: nat | j < |shadows| :: |shadows[j]| == REGISTERS
  }

  function GpcLine(shadows: seq<seq<int>>, hw: nat -> int, j: nat): seq<Entry>
    requires Shadows(shadows) && j < |GPC_BASES|
  {
    GpcChanges(shadows[j], hw, GPC_BASES[j], |GPC_REGISTERS|)
  }

  /** The lines of those that print one. */
  function Spoken(ls: seq<seq<Entry>>): seq<seq<Entry>> {
    if ls == [] then [] else Line(ls[0]) + Spoken(ls[1..])
  }

  function GpcLines(shadows: seq<seq<int>>, hw: nat -> int): (ls: seq<seq<Entry>>)
    requires Shadows(shadows)
    ensures |ls| == |GPC_BASES|
  {
    seq(|GPC_BASES|, j requires 0 <= j < |GPC_BASES| => GpcLine(shadows, hw, j))
  }

  /** The lines a poll of all four prints. */
  function GpcPoll(shadows: seq<seq<int>>, hw: nat -> int): seq<seq<Entry>>
    requires Shadows(shadows)
  {
    Spoken(GpcLines(shadows, hw))
  }

  /** The part of `nvc0_debug` that polls the GPCs. */
  method DebugGpcs(hw: nat -> int, reg0: array<int>, reg1: array<int>, reg2: array<int>, reg3: array<int>)
    returns (lines: seq<seq<Entry>>)
    requires reg0.Length == reg1.Length == reg2.Length == reg3.Length == REGISTERS
    requires reg0 != reg1 && reg0 != reg2 && reg0 != reg3 && reg1 != reg2 && reg1 != reg3 && reg2 != reg3
    modifies reg0, reg1, reg2, reg3
    ensures lines == GpcPoll(old([reg0[..], reg1[..], reg2[..], reg3[..]]), hw)
    ensures Polled(reg0[..], old(reg0[..]), hw, GPC_BASES[0], |GPC_REGISTERS|)
    ensures Polled(reg1[..], old(reg1[..]), hw, GPC_BASES[1], |GPC_REGISTERS|)
    ensures Polled(reg2[..], old(reg2[..]), hw, GPC_BASES[2], |GPC_REGISTERS|)
    ensures Polled(reg3[..], old(reg3[..]), hw, GPC_BASES[3], |GPC_REGISTERS|)
  {
    hide GpcChanges, Polled;
    var a := DebugUnitGpc(hw, GPC_BASES[0], reg0);
    var b := DebugUnitGpc(hw, GPC_BASES[1], reg1);
    var c := DebugUnitGpc(hw, GPC_BASES[2], reg2);
    var d := DebugUnitGpc(hw, GPC_BASES[3], reg3);
    lines := Line(a) + Line(b) + Line(c) + Line(d);
    FourLines(a, b, c, d);
    assert GpcLines(old([reg0[..], reg1[..], reg2[..], reg3[..]]), hw) == [a, b, c, d];
  }

  lemma FourLines(a: seq<Entry>, b: seq<Entry>, c: seq<Entry>, d: seq<Entry>)
    ensures Spoken([a, b, c, d]) == Line(a) + Line(b) + Line(c) + Line(d)
  {
    assert [a, b, c, d] == [a] + ([b] + ([c] + [d]));
    assert Line(a) + (Line(b) + (Line(c) + Line(d))) == Line(a) + Line(b) + Line(c) + Line(d);
    SpokenConcat([a], [b] + ([c] + [d]));
    SpokenConcat([b], [c] + [d]);
    SpokenConcat([c], [d]);
  }

  // ---------------------------------------------------- what the lines tell

  /** Two devices have the same values in the registers of a GPC. */
  ghost predicate SameUnit(hw: nat -> int, base: nat, hw': nat -> int, base': nat) {
    forall i: nat | i < |GPC_REGISTERS| :: hw(base + GPC_REGISTERS[i]) == hw'(base' + GPC_REGISTERS[i])
  }

  ghost predicate SameGpcs(hw: nat -> int, hw': nat -> int) {
    forall j: nat | j < |GPC_BASES| :: SameUnit(hw, GPC_BASES[j], hw', GPC_BASES[j])
  }

  lemma {:induction false} SameEntries(reg: seq<int>, hw: nat -> int, base: nat,
                                       reg': seq<int>, hw': nat -> int, base': nat, n: nat)
    requires n <= |GPC_REGISTERS| <= |reg| && |GPC_REGISTERS| <= |reg'|
    requires forall i: nat | i < n :: GpcEntry(reg[i], hw, base, i) == GpcEntry(reg'[i], hw', base', i)
    ensures GpcChanges(reg, hw, base, n) == GpcChanges(reg', hw', base', n)
  {
    if n > 0 { SameEntries(reg, hw, base, reg', hw', base', n - 1); }
  }

  /** The address in an entry names the register. */
  lemma RegistersDiffer(i: nat, j: nat)
    requires i < j < |GPC_REGISTERS|
    ensures GPC_REGISTERS[i] != GPC_REGISTERS[j]
  {
  }

  /** A register is in the line of its GPC exactly if it has changed, with its value. */
  lemma {:induction false} InLine(reg: seq<int>, hw: nat -> int, base: nat, n: nat, i: nat, v: int)
    requires n <= |GPC_REGISTERS| <= |reg| && i < |GPC_REGISTERS|
    ensures Entry(GPC_REGISTERS[i], v) in GpcChanges(reg, hw, base, n)
       <==> i < n && v == hw(base + GPC_REGISTERS[i]) != reg[i]
  {
    if n > 0 {
      InLine(reg, hw, base, n - 1, i, v);
      InEntry(reg[n - 1], hw, base, n - 1, i, v);
      hide GpcEntry, GPC_REGISTERS;
      var before, last := GpcChanges(reg, hw, base, n - 1), GpcEntry(reg[n - 1], hw, base, n - 1);
      assert Entry(GPC_REGISTERS[i], v) in before + last
        <==> Entry(GPC_REGISTERS[i], v) in before || Entry(GPC_REGISTERS[i], v) in last;
    }
  }

  lemma InEntry(known: int, hw: nat -> int, base: nat, j: nat, i: nat, v: int)
    requires i < |GPC_REGISTERS| && j < |GPC_REGISTERS|
    ensures Entry(GPC_REGISTERS[i], v) in GpcEntry(known, hw, base, j)
       <==> i == j && v == hw(base + GPC_REGISTERS[j]) != known
  {
    if i < j { RegistersDiffer(i, j); }
    if j < i { RegistersDiffer(j, i); }
    hide GPC_REGISTERS;
  }

  /** So a GPC's line determines its registers, for a reader who knows the shadow. */
  lemma LineTells(reg: seq<int>, hw: nat -> int, base: nat, hw': nat -> int, base': nat)
    requires |GPC_REGISTERS| <= |reg|
    requires GpcChanges(reg, hw, base, |GPC_REGISTERS|) == GpcChanges(reg, hw', base', |GPC_REGISTERS|)
    ensures SameUnit(hw, base, hw', base')
  {
    hide GpcChanges;
    var n := |GPC_REGISTERS|;
    forall i: nat | i < n ensures hw(base + GPC_REGISTERS[i]) == hw'(base' + GPC_REGISTERS[i]) {
      InLine(reg, hw, base, n, i, hw(base + GPC_REGISTERS[i]));
      InLine(reg, hw', base', n, i, hw(base + GPC_REGISTERS[i]));
      InLine(reg, hw', base', n, i, hw'(base' + GPC_REGISTERS[i]));
      InLine(reg, hw, base, n, i, hw'(base' + GPC_REGISTERS[i]));
    }
  }

  // ------------------------------------------------------- lines that could move

  /** `k` is silent and `j` is not, and nobody between them speaks: a reader cannot tell from
      the order of the lines which of the two has spoken. */
  ghost predicate Neighbours(ls: seq<seq<Entry>>, j: nat, k: nat) {
    && j < |ls| && k < |ls| && ls[j] != [] && ls[k] == []
    && forall m: nat | m < |ls| && (j < m < k || k < m < j) :: ls[m] == []
  }

  lemma {:induction false} SpokenConcat(a: seq<seq<Entry>>, b: seq<seq<Entry>>)
    ensures Spoken(a + b) == Spoken(a) + Spoken(b)
  {
    if a == [] {
      assert a + b == b;
    } else {
      hide Line;
      SpokenConcat(a[1..], b);
      assert (a + b)[1..] == a[1..] + b;
      assert Line(a[0]) + (Spoken(a[1..]) + Spoken(b)) == (Line(a[0]) + Spoken(a[1..])) + Spoken(b);
    }
  }

  lemma {:induction false} AllSilent(ls: seq<seq<Entry>>)
    ensures Spoken(ls) == [] <==> forall m: nat | m < |ls| :: ls[m] == []
  {
    if ls != [] {
      AllSilent(ls[1..]);
      assert forall m: nat | 0 < m < |ls| :: ls[m] == ls[1..][m - 1];
    }
  }

  lemma SpokenOne(x: seq<Entry>, mid: seq<seq<Entry>>)
    requires forall m: nat | m < |mid| :: mid[m] == []
    ensures Spoken([x] + mid + [[]]) == Line(x) == Spoken([[]] + mid + [x])
  {
    AllSilent(mid);
    SpokenConcat([x] + mid, [[]]);
    SpokenConcat([x], mid);
    SpokenConcat([[]] + mid, [x]);
    SpokenConcat([[]], mid);
    assert [x][1..] == [] && Spoken([x]) == Line(x) && Spoken([[]]) == [];
  }

  lemma SpokenBetween(pre: seq<seq<Entry>>, a: seq<seq<Entry>>, b: seq<seq<Entry>>, post: seq<seq<Entry>>)
    requires Spoken(a) == Spoken(b)
    ensures Spoken(pre + a + post) == Spoken(pre + b + post)
  {
    SpokenConcat(pre + a, post);
    SpokenConcat(pre, a);
    SpokenConcat(pre + b, post);
    SpokenConcat(pre, b);
  }

  /** The line of a GPC moved to a neighbour prints the same. */
  lemma MoveKeepsLines(ls: seq<seq<Entry>>, j: nat, k: nat)
    requires Neighbours(ls, j, k)
    ensures Spoken(ls[j := []][k := ls[j]]) == Spoken(ls)
  {
    var x, lo, hi := ls[j], if j < k then j else k, if j < k then k else j;
    var ls' := ls[j := []][k := x];
    SpokenOne(x, ls[lo + 1..hi]);
    SplitAt(ls, lo, hi);
    SplitAt(ls', lo, hi);
    assert ls'[..lo] == ls[..lo] && ls'[lo + 1..hi] == ls[lo + 1..hi] && ls'[hi + 1..] == ls[hi + 1..];
    hide Spoken;
    SpokenBetween(ls[..lo], [ls[lo]] + ls[lo + 1..hi] + [ls[hi]], [ls'[lo]] + ls[lo + 1..hi] + [ls'[hi]], ls[hi + 1..]);
  }

  lemma SplitAt(ls: seq<seq<Entry>>, lo: nat, hi: nat)
    requires lo < hi < |ls|
    ensures ls == ls[..lo] + ([ls[lo]] + ls[lo + 1..hi] + [ls[hi]]) + ls[hi + 1..]
  {
  }

  /** The first line, who printed it, and what the others print. */
  lemma {:induction false} FirstSpoken(ls: seq<seq<Entry>>) returns (q: nat)
    requires Spoken(ls) != []
    ensures q < |ls| && ls[q] == Spoken(ls)[0] != [] && Spoken(ls[q := []]) == Spoken(ls)[1..]
    ensures forall m: nat | m < q :: ls[m] == []
  {
    if ls[0] != [] {
      q := 0;
      assert ls[0 := []][1..] == ls[1..];
    } else {
      q := FirstSpoken(ls[1..]);
      q := q + 1;
      assert ls[q := []][1..] == ls[1..][q - 1 := []];
      assert forall m: nat | 0 < m < q :: ls[m] == ls[1..][m - 1];
    }
  }

  /** If the same lines can come from others, some single line can have moved to a neighbour. */
  lemma {:induction false} SomeLineMoves(ls: seq<seq<Entry>>, ms: seq<seq<Entry>>) returns (j: nat, k: nat)
    requires |ls| == |ms| && Spoken(ls) == Spoken(ms) && ls != ms
    ensures Neighbours(ls, j, k) && ms[k] == ls[j]
    decreases |ls|
  {
    if ls[0] == ms[0] {
      assert ls == [ls[0]] + ls[1..] && ms == [ms[0]] + ms[1..];
      j, k := TailMoves(ls, ms);
    } else if ls[0] == [] {
      assert ms[0] == Spoken(ms)[0];
      j := FirstSpoken(ls);
      k := 0;
    } else {
      assert ms[0] == [] by { assert ls[0] == Spoken(ls)[0]; }
      var q := FirstSpoken(ms);
      var ms' := ms[q := []][0 := ls[0]];
      assert ms'[1..] == ms[q := []][1..];
      assert Spoken(ms') == Spoken(ms);
      if ls == ms' {
        j, k := 0, q;
      } else {
        assert ls == [ls[0]] + ls[1..] && ms' == [ms'[0]] + ms'[1..];
        j, k := TailMoves(ls, ms');
      }
    }
  }

  lemma {:induction false} TailMoves(ls: seq<seq<Entry>>, ms: seq<seq<Entry>>) returns (j: nat, k: nat)
    requires 0 < |ls| == |ms| && Spoken(ls) == Spoken(ms) && ls[0] == ms[0] && ls[1..] != ms[1..]
    ensures Neighbours(ls, j, k) && k > 0 && ms[k] == ls[j]
    decreases |ls|, 0
  {
    assert Spoken(ls[1..]) == Spoken(ls)[|Line(ls[0])|..];
    assert Spoken(ms[1..]) == Spoken(ms)[|Line(ms[0])|..];
    j, k := SomeLineMoves(ls[1..], ms[1..]);
    j, k := j + 1, k + 1;
    assert forall m: nat | 0 < m < |ls| :: ls[m] == ls[1..][m - 1];
  }

  // ------------------------------------------------------------- the exact condition

  /** Every register that has changed in GPC `j` would have changed in GPC `k` too, had it
      got that value there. */
  ghost predicate Fits(shadows: seq<seq<int>>, hw: nat -> int, j: nat, k: nat)
    requires Shadows(shadows) && j < |GPC_BASES| && k < |GPC_BASES|
  {
    forall i: nat | i < |GPC_REGISTERS| ::
      var v := hw(GPC_BASES[j] + GPC_REGISTERS[i]); v != shadows[j][i] ==> v != shadows[k][i]
  }

  /** The line of some GPC could be that of a silent neighbour. */
  ghost predicate Movable(shadows: seq<seq<int>>, hw: nat -> int)
    requires Shadows(shadows)
  {
    exists j: nat, k: nat | j < |GPC_BASES| && k < |GPC_BASES| ::
      Neighbours(GpcLines(shadows, hw), j, k) && Fits(shadows, hw, j, k)
  }

  /** The lines of a poll leave no doubt about the registers. */
  ghost predicate Unambiguous(shadows: seq<seq<int>>, hw: nat -> int)
    requires Shadows(shadows)
  {
    forall hw': nat -> int | GpcPoll(shadows, hw') == GpcPoll(shadows, hw) :: SameGpcs(hw, hw')
  }

  function IndexIn(r: nat, n: nat): (i: nat)
    requires n <= |GPC_REGISTERS|
    ensures i < |GPC_REGISTERS|
  {
    if n == 0 then 0 else if GPC_REGISTERS[n - 1] == r then n - 1 else IndexIn(r, n - 1)
  }

  lemma {:induction false} IndexOf(i: nat, n: nat)
    requires i < n <= |GPC_REGISTERS|
    ensures IndexIn(GPC_REGISTERS[i], n) == i
  {
    if i < n - 1 {
      RegistersDiffer(i, n - 1);
      IndexOf(i, n - 1);
    }
  }

  predicate InUnit(x: nat, j: nat)
    requires j < |GPC_BASES|
  {
    GPC_BASES[j] <= x < GPC_BASES[j] + 0x8000
  }

  /** The device in which what has changed in GPC `j` has changed in GPC `k` instead. */
  function Moved(shadows: seq<seq<int>>, hw: nat -> int, j: nat, k: nat): nat -> int
    requires Shadows(shadows) && j < |GPC_BASES| && k < |GPC_BASES|
  {
    (x: nat) =>
      if InUnit(x, j) then shadows[j][IndexIn(x - GPC_BASES[j], |GPC_REGISTERS|)]
      else if InUnit(x, k) then
        var i := IndexIn(x - GPC_BASES[k], |GPC_REGISTERS|);
        var v := hw(GPC_BASES[j] + (x - GPC_BASES[k]));
        if v != shadows[j][i] then v else shadows[k][i]
      else hw(x)
  }

  lemma UnitsApart(j: nat, k: nat, i: nat)
    requires j < |GPC_BASES| && k < |GPC_BASES| && i < |GPC_REGISTERS|
    ensures InUnit(GPC_BASES[k] + GPC_REGISTERS[i], j) <==> j == k
  {
    RegisterBelow(i);
    hide GPC_BASES, GPC_REGISTERS;
  }

  lemma MovedAt(shadows: seq<seq<int>>, hw: nat -> int, j: nat, k: nat, u: nat, i: nat)
    requires Shadows(shadows) && j < |GPC_BASES| && k < |GPC_BASES| && u < |GPC_BASES| && j != k
    requires i < |GPC_REGISTERS|
    ensures var r := GPC_REGISTERS[i]; var v := hw(GPC_BASES[j] + r);
      Moved(shadows, hw, j, k)(GPC_BASES[u] + r)
        == if u == j then shadows[j][i]
           else if u == k then (if v != shadows[j][i] then v else shadows[k][i])
           else hw(GPC_BASES[u] + r)
  {
    UnitsApart(j, u, i);
    UnitsApart(k, u, i);
    IndexOf(i, |GPC_REGISTERS|);
    hide InUnit, IndexIn, GPC_BASES, GPC_REGISTERS;
  }

  lemma MovedEntry(shadows: seq<seq<int>>, hw: nat -> int, j: nat, k: nat, u: nat, i: nat)
    requires Shadows(shadows) && j < |GPC_BASES| && k < |GPC_BASES| && u < |GPC_BASES| && u != j && j != k
    requires Fits(shadows, hw, j, k) && i < |GPC_REGISTERS|
    ensures var u' := if u == k then j else u;
      GpcEntry(shadows[u][i], Moved(shadows, hw, j, k), GPC_BASES[u], i) == GpcEntry(shadows[u'][i], hw, GPC_BASES[u'], i)
  {
    MovedAt(shadows, hw, j, k, u, i);
    hide Moved, GPC_BASES, GPC_REGISTERS;
  }

  /** What GPC `u` then prints. */
  lemma MovedLine(shadows: seq<seq<int>>, hw: nat -> int, j: nat, k: nat, u: nat)
    requires Shadows(shadows) && j < |GPC_BASES| && k < |GPC_BASES| && u < |GPC_BASES| && j != k
    requires Fits(shadows, hw, j, k)
    ensures GpcLine(shadows, Moved(shadows, hw, j, k), u)
         == if u == j then [] else GpcLine(shadows, hw, if u == k then j else u)
  {
    var hw', n := Moved(shadows, hw, j, k), |GPC_REGISTERS|;
    hide Moved, GpcChanges, GPC_BASES, GPC_REGISTERS;
    if u == j {
      forall i: nat | i < n ensures hw'(GPC_BASES[j] + GPC_REGISTERS[i]) == shadows[j][i] {
        MovedAt(shadows, hw, j, k, j, i);
      }
      SilentLine(shadows[j], hw', GPC_BASES[j], n);
    } else {
      var u' := if u == k then j else u;
      forall i: nat | i < n
        ensures GpcEntry(shadows[u][i], hw', GPC_BASES[u], i) == GpcEntry(shadows[u'][i], hw, GPC_BASES[u'], i)
      {
        MovedEntry(shadows, hw, j, k, u, i);
      }
      hide GpcEntry, Fits;
      SameEntries(shadows[u], hw', GPC_BASES[u], shadows[u'], hw, GPC_BASES[u'], n);
    }
  }

  /** A movable line hides where it comes from. */
  lemma MovableHides(shadows: seq<seq<int>>, hw: nat -> int, j: nat, k: nat)
    requires Shadows(shadows) && j < |GPC_BASES| && k < |GPC_BASES|
    requires Neighbours(GpcLines(shadows, hw), j, k) && Fits(shadows, hw, j, k)
    ensures GpcPoll(shadows, Moved(shadows, hw, j, k)) == GpcPoll(shadows, hw)
    ensures !SameGpcs(hw, Moved(shadows, hw, j, k))
  {
    hide Moved, GpcLine, SameGpcs, Fits, Spoken;
    MovedLines(shadows, hw, j, k);
    MoveKeepsLines(GpcLines(shadows, hw), j, k);
    MovedLine(shadows, hw, j, k, j);
    assert GpcLine(shadows, hw, j) == GpcLines(shadows, hw)[j] != [];
    if SameGpcs(hw, Moved(shadows, hw, j, k)) { SameLine(shadows, hw, Moved(shadows, hw, j, k), j); }
  }

  lemma MovedLines(shadows: seq<seq<int>>, hw: nat -> int, j: nat, k: nat)
    requires Shadows(shadows) && j < |GPC_BASES| && k < |GPC_BASES|
    requires Neighbours(GpcLines(shadows, hw), j, k) && Fits(shadows, hw, j, k)
    ensures var ls := GpcLines(shadows, hw);
      GpcLines(shadows, Moved(shadows, hw, j, k)) == ls[j := []][k := ls[j]]
  {
    hide Moved, GpcLine, Fits;
    var ls := GpcLines(shadows, hw);
    forall u: nat | u < |GPC_BASES|
      ensures GpcLines(shadows, Moved(shadows, hw, j, k))[u] == ls[j := []][k := ls[j]][u]
    {
      MovedLine(shadows, hw, j, k, u);
    }
  }

  lemma SameLine(shadows: seq<seq<int>>, hw: nat -> int, hw': nat -> int, j: nat)
    requires Shadows(shadows) && SameGpcs(hw, hw') && j < |GPC_BASES|
    ensures GpcLine(shadows, hw, j) == GpcLine(shadows, hw', j)
  {
    assert SameUnit(hw, GPC_BASES[j], hw', GPC_BASES[j]);
    SameEntries(shadows[j], hw, GPC_BASES[j], shadows[j], hw', GPC_BASES[j], |GPC_REGISTERS|);
  }

  /** Two devices that print the same but differ show that a line is movable. */
  lemma DoubtMoves(shadows: seq<seq<int>>, hw: nat -> int, hw': nat -> int)
    requires Shadows(shadows) && GpcPoll(shadows, hw') == GpcPoll(shadows, hw) && !SameGpcs(hw, hw')
    ensures Movable(shadows, hw)
  {
    var ls, ms := GpcLines(shadows, hw), GpcLines(shadows, hw');
    if ls == ms {
      forall j: nat | j < |GPC_BASES| ensures SameUnit(hw, GPC_BASES[j], hw', GPC_BASES[j]) {
        assert ls[j] == ms[j];
        LineTells(shadows[j], hw, GPC_BASES[j], hw', GPC_BASES[j]);
      }
    } else {
      var j, k := SomeLineMoves(ls, ms);
      LineFits(shadows, hw, hw', j, k);
    }
  }

  lemma LineFits(shadows: seq<seq<int>>, hw: nat -> int, hw': nat -> int, j: nat, k: nat)
    requires Shadows(shadows) && j < |GPC_BASES| && k < |GPC_BASES|
    requires GpcLine(shadows, hw, j) == GpcLine(shadows, hw', k)
    ensures Fits(shadows, hw, j, k)
  {
    var n := |GPC_REGISTERS|;
    forall i: nat | i < n
      ensures var v := hw(GPC_BASES[j] + GPC_REGISTERS[i]); v != shadows[j][i] ==> v != shadows[k][i]
    {
      var v := hw(GPC_BASES[j] + GPC_REGISTERS[i]);
      InLine(shadows[j], hw, GPC_BASES[j], n, i, v);
      InLine(shadows[k], hw', GPC_BASES[k], n, i, v);
    }
  }

  /** Unlike the log of the hub, that of the GPCs can lose which one has changed.  The lines
      of a poll tell the registers of all four, to a reader who knows the shadows, if and only
      if no line could have come from a silent neighbour of the GPC that printed it. */
  lemma GpcLogExact(shadows: seq<seq<int>>, hw: nat -> int)
    requires Shadows(shadows)
    ensures Unambiguous(shadows, hw) <==> !Movable(shadows, hw)
  {
    hide Movable, SameGpcs, GpcPoll;
    if Movable(shadows, hw) {
      var j, k := TheMovable(shadows, hw);
      MovableHides(shadows, hw, j, k);
    } else {
      forall hw': nat -> int | GpcPoll(shadows, hw') == GpcPoll(shadows, hw) ensures SameGpcs(hw, hw') {
        if !SameGpcs(hw, hw') { DoubtMoves(shadows, hw, hw'); }
      }
    }
  }

  lemma TheMovable(shadows: seq<seq<int>>, hw: nat -> int) returns (j: nat, k: nat)
    requires Shadows(shadows) && Movable(shadows, hw)
    ensures j < |GPC_BASES| && k < |GPC_BASES|
    ensures Neighbours(GpcLines(shadows, hw), j, k) && Fits(shadows, hw, j, k)
  {
    j, k :| j < |GPC_BASES| && k < |GPC_BASES| && Neighbours(GpcLines(shadows, hw), j, k) && Fits(shadows, hw, j, k);
  }

  /** Where the shadows are alike, as at the first poll, every line fits every GPC: then the
      lines tell all registers if and only if no GPC has printed one or each has. */
  lemma FirstPollExact(shadows: seq<seq<int>>, hw: nat -> int)
    requires Shadows(shadows) && forall j: nat | j < |shadows| :: shadows[j] == shadows[0]
    ensures Unambiguous(shadows, hw) <==> |GpcPoll(shadows, hw)| in {0, |GPC_BASES|}
  {
    var ls := GpcLines(shadows, hw);
    GpcLogExact(shadows, hw);
    SpokenCount(ls);
    if |Spoken(ls)| in {0, |ls|} {
      AllSilent(ls);
    } else {
      var j, k := SomeNeighbours(ls);
      assert Fits(shadows, hw, j, k);
    }
  }

  lemma {:induction false} SpokenCount(ls: seq<seq<Entry>>)
    ensures |Spoken(ls)| <= |ls|
    ensures |Spoken(ls)| == |ls| <==> forall m: nat | m < |ls| :: ls[m] != []
  {
    if ls != [] {
      SpokenCount(ls[1..]);
      assert forall m: nat | 0 < m < |ls| :: ls[m] == ls[1..][m - 1];
    }
  }

  /** Between one who speaks and one who does not there are neighbours. */
  lemma {:induction false} SomeNeighbours(ls: seq<seq<Entry>>) returns (j: nat, k: nat)
    requires 0 < |Spoken(ls)| < |ls|
    ensures Neighbours(ls, j, k)
  {
    AllSilent(ls);
    SpokenCount(ls);
    var a: nat, b: nat :| a < |ls| && b < |ls| && ls[a] != [] && ls[b] == [];
    if a < b {
      j, k := a, a + 1;
      while ls[k] != []
        invariant a <= j && k == j + 1 <= b && ls[j] != []
        decreases b - k
      {
        j, k := j + 1, k + 1;
      }
    } else {
      j, k := b + 1, b;
      while ls[j] == []
        invariant j == k + 1 <= a && ls[k] == []
        decreases a - j
      {
        j, k := j + 1, k + 1;
      }
    }
  }

  lemma {:induction false} SilentLine(reg: seq<int>, hw: nat -> int, base: nat, n: nat)
    requires n <= |GPC_REGISTERS| <= |reg|
    requires forall i: nat | i < n :: hw(base + GPC_REGISTERS[i]) == reg[i]
    ensures GpcChanges(reg, hw, base, n) == []
  {
    if n > 0 { SilentLine(reg, hw, base, n - 1); }
  }

  lemma RegisterBelow(i: nat)
    requires i < |GPC_REGISTERS|
    ensures GPC_REGISTERS[i] < 0x8000
  {
  }

  /** For one: where a single register of the first GPC is not zero, the first poll prints what
      it would print for the second. */
  lemma GpcLogAmbiguous(hw: nat -> int)
    requires forall x: nat :: hw(x) == if x == 0x502400 then 1 else 0
    ensures !Unambiguous(seq(|GPC_BASES|, _ => seq(REGISTERS, _ => 0)), hw)
  {
    var reg := seq(REGISTERS, _ => 0);
    var shadows := seq(|GPC_BASES|, _ => reg);
    var ls := GpcLines(shadows, hw);
    OneSpeaks(reg, hw);
    assert ls[0] == GpcChanges(reg, hw, GPC_BASES[0], |GPC_REGISTERS|);
    assert ls[1] == GpcChanges(reg, hw, GPC_BASES[1], |GPC_REGISTERS|);
    hide GpcChanges, GpcLine;
    FirstPollExact(shadows, hw);
    AllSilent(ls);
    SpokenCount(ls);
  }

  lemma OneSpeaks(reg: seq<int>, hw: nat -> int)
    requires reg == seq(REGISTERS, _ => 0)
    requires forall x: nat :: hw(x) == if x == 0x502400 then 1 else 0
    ensures GpcChanges(reg, hw, GPC_BASES[0], |GPC_REGISTERS|) != []
    ensures GpcChanges(reg, hw, GPC_BASES[1], |GPC_REGISTERS|) == []
  {
    hide GpcChanges;
    InLine(reg, hw, GPC_BASES[0], |GPC_REGISTERS|, 8, 1);
    forall i: nat | i < |GPC_REGISTERS| ensures hw(GPC_BASES[1] + GPC_REGISTERS[i]) == 0 {
      RegisterBelow(i);
    }
    SilentLine(reg, hw, GPC_BASES[1], |GPC_REGISTERS|);
  }
}
