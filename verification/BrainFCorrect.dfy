/**
 The emitted function behaves as the source says: same output, same input consumed, same
 tape, the same errors, and it returns exactly when the source program ends.
 */
module BrainFCorrect {
  import opened Wrappers
  import opened BrainFSource
  import opened BrainFIR
  import opened BrainFGen

  // -------------------------------------------------- code that is in place

  /** `cfg` holds, finished or further extended, everything added between `a` and `b`. */
  ghost predicate Covers(cfg: Cfg, a: State, b: State) {
    && |b.blocks| <= |cfg|
    && forall i | 0 <= i < |b.blocks| && (i == a.cur || |a.blocks| <= i) ::
         if i == b.cur then cfg[i].phi == b.blocks[i].phi && b.blocks[i].instrs <= cfg[i].instrs
         else cfg[i] == b.blocks[i]
  }

  // -------------------------------------------- configurations and machines

  /** The object fits below the top of the address space, with room for the head to
      stray `b` cells off the tape without coming round to it again. */
  ghost predicate Room(env: Env, m: Machine, b: nat) {
    && env.base + |m.tape| < env.space
    && b + |m.tape| <= env.space
    && 0 <= m.head + b && m.head < |m.tape| + b
  }

  ghost function Address(env: Env, m: Machine): int
    requires env.space > 0
  {
    (env.base + m.head) % env.space
  }

  ghost predicate Represents(env: Env, checked: bool, c: Config, m: Machine, head: Reg)
    requires env.space > 0
  {
    && ARR in c.regs && c.regs[ARR] == env.base
    && (checked ==> ARRMAX in c.regs && c.regs[ARRMAX] == env.base + |m.tape|)
    && head in c.regs && c.regs[head] == Address(env, m)
    && c.live && c.tape == m.tape && c.inp == m.inp && c.out == m.out && c.errors == 0
  }

  ghost predicate AtPoint(c: Config, s: State)
    requires Open(s)
  {
    c.bb == s.cur && c.idx == |s.blocks[s.cur].instrs|
  }

  ghost predicate Ready(s: State) {
    Open(s) && s.head < s.free && FIRST_FREE <= s.free
  }

  /** Everything known when the code emitted from `s` on is about to run. */
  ghost predicate Sync(env: Env, checked: bool, c: Config, m: Machine, s: State) {
    env.space > 0 && Ready(s) && AtPoint(c, s) && Represents(env, checked, c, m, s.head)
  }

  lemma Scale(a: int, b: int, n: nat)
    requires a < b
    ensures a * n + n <= b * n
  {
    assert (b - a - 1) * n >= 0;
  }

  lemma ModUnique(x: int, q: int, n: int, r: int)
    requires x == q * n + r && 0 <= r < n
    ensures x % n == r
  {
    var p, t := x / n, x % n;
    assert x == p * n + t && 0 <= t < n;
    if p > q {
      Scale(q, p, n);
    } else if p < q {
      Scale(p, q, n);
    }
  }

  lemma AddBytes(x: byte, v: int)
    ensures Low8(x + Low8(v)) == (x + v) % 256
  {
  }

  /** An address lies in the object exactly when the head lies on the tape. */
  lemma AddressExact(env: Env, m: Machine, b: nat)
    requires Room(env, m, b)
    ensures m.OnTape() <==> env.base <= Address(env, m) < env.base + |m.tape|
    ensures m.OnTape() ==> Address(env, m) - env.base == m.head
  {
    var x := env.base + m.head;
    if x < 0 {
      ModUnique(x, -1, env.space, x + env.space);
    } else if x < env.space {
      ModUnique(x, 0, env.space, x);
    } else {
      ModUnique(x, 1, env.space, x - env.space);
    }
  }

  // ---------------------------------------------------------- single commands

  lemma Run1(cfg: Cfg, env: Env, c: Config)
    requires env.space > 0
    ensures Run(cfg, env, 1, At(c)) == Step(cfg, env, c)
  {
    assert Run(cfg, env, 0, Step(cfg, env, c)) == Step(cfg, env, c);
  }

  lemma Run2(cfg: Cfg, env: Env, c: Config, c1: Config, s: Status)
    requires env.space > 0 && Step(cfg, env, c) == At(c1) && Step(cfg, env, c1) == s
    ensures Run(cfg, env, 2, At(c)) == s
  {
    assert Run(cfg, env, 1, At(c1)) == s;
  }

  lemma Run3(cfg: Cfg, env: Env, c: Config, c1: Config, c2: Config, s: Status)
    requires env.space > 0 && Step(cfg, env, c) == At(c1) && Step(cfg, env, c1) == At(c2)
    requires Step(cfg, env, c2) == s
    ensures Run(cfg, env, 3, At(c)) == s
  {
    Run2(cfg, env, c1, c2, s);
  }

  /** A three-instruction command is at the point where the machine stands. */
  ghost predicate ThreeAt(cfg: Cfg, s: State, c: Config, code: seq<Instr>) {
    && |code| == 3 && c.bb == s.cur < |cfg| && c.idx + 3 <= |cfg[s.cur].instrs|
    && cfg[s.cur].instrs[c.idx] == code[0]
    && cfg[s.cur].instrs[c.idx + 1] == code[1]
    && cfg[s.cur].instrs[c.idx + 2] == code[2]
  }

  lemma ChangeRuns(cfg: Cfg, env: Env, checked: bool, s: State, v: int, c: Config, m: Machine, b: nat)
    requires Sync(env, checked, c, m, s) && Room(env, m, b) && ThreeAt(cfg, s, c, ChangeCode(s, v))
    ensures !m.OnTape() ==> Run(cfg, env, 1, At(c)) == Stopped(Crashed(m.out))
    ensures m.OnTape() ==>
      var r := Run(cfg, env, 3, At(c));
      r.At? && Sync(env, checked, r.c, m.Added(v), EmitChange(s, v))
  {
    hide Run;
    AddressExact(env, m, b);
    Run1(cfg, env, c);
    if m.OnTape() {
      var x := m.Cell();
      var y := Low8(x + Low8(v));
      var c1 := c.(regs := c.regs[s.free := x], idx := c.idx + 1);
      assert Step(cfg, env, c) == At(c1);
      var c2 := c1.(regs := c1.regs[s.free + 1 := y], idx := c.idx + 2);
      assert Step(cfg, env, c1) == At(c2);
      var c3 := c2.(tape := c.tape[m.head := y], idx := c.idx + 3);
      assert Step(cfg, env, c2) == At(c3);
      Run3(cfg, env, c, c1, c2, At(c3));
      AddBytes(x, v);
      assert c3.tape == m.Added(v).tape;
    }
  }

  lemma WriteRuns(cfg: Cfg, env: Env, checked: bool, s: State, c: Config, m: Machine, b: nat)
    requires Sync(env, checked, c, m, s) && Room(env, m, b) && ThreeAt(cfg, s, c, WriteCode(s))
    ensures !m.OnTape() ==> Run(cfg, env, 1, At(c)) == Stopped(Crashed(m.out))
    ensures m.OnTape() ==>
      var r := Run(cfg, env, 3, At(c));
      r.At? && Sync(env, checked, r.c, m.Shown(), EmitWrite(s))
  {
    hide Run;
    AddressExact(env, m, b);
    Run1(cfg, env, c);
    if m.OnTape() {
      var x := m.Cell();
      assert Low8(x) == x && Low8(Signed8(x)) == x;
      var c1 := c.(regs := c.regs[s.free := x], idx := c.idx + 1);
      assert Step(cfg, env, c) == At(c1);
      var c2 := c1.(regs := c1.regs[s.free + 1 := Signed8(x)], idx := c.idx + 2);
      assert Step(cfg, env, c1) == At(c2);
      var c3 := c2.(out := c.out + [x], idx := c.idx + 3);
      assert Step(cfg, env, c2) == At(c3);
      Run3(cfg, env, c, c1, c2, At(c3));
    }
  }

  lemma GetStep(cfg: Cfg, env: Env, c: Config, d: Reg, ch: byte, inp: seq<byte>)
    requires env.space > 0 && c.bb < |cfg| && c.idx < |cfg[c.bb].instrs| && cfg[c.bb].instrs[c.idx] == GetChar(d)
    requires if c.inp == [] then ch == 255 && inp == [] else ch == c.inp[0] && inp == c.inp[1..]
    ensures Step(cfg, env, c) == At(c.(idx := c.idx + 1, inp := inp, regs := c.regs[d := if c.inp == [] then -1 else ch]))
  {
  }

  lemma TruncStep(cfg: Cfg, env: Env, c: Config, d: Reg, a: Reg, ch: byte)
    requires env.space > 0 && c.bb < |cfg| && c.idx < |cfg[c.bb].instrs| && cfg[c.bb].instrs[c.idx] == Trunc(d, a)
    requires a in c.regs && Low8(c.regs[a]) == ch
    ensures Step(cfg, env, c) == At(c.(idx := c.idx + 1, regs := c.regs[d := ch]))
  {
  }

  /** getchar and the truncation of its result, before anything is stored. */
  lemma GetCharRuns(cfg: Cfg, env: Env, s: State, c: Config, ch: byte, inp: seq<byte>) returns (c': Config)
    requires env.space > 0 && ThreeAt(cfg, s, c, ReadCode(s))
    requires if c.inp == [] then ch == 255 && inp == [] else ch == c.inp[0] && inp == c.inp[1..]
    ensures Run(cfg, env, 2, At(c)) == At(c')
    ensures c' == c.(idx := c.idx + 2, inp := inp,
                     regs := c.regs[s.free := if c.inp == [] then -1 else ch][s.free + 1 := ch])
  {
    hide Run, Step;
    var c1 := c.(regs := c.regs[s.free := if c.inp == [] then -1 else ch], inp := inp, idx := c.idx + 1);
    GetStep(cfg, env, c, s.free, ch, inp);
    c' := c1.(regs := c1.regs[s.free + 1 := ch], idx := c.idx + 2);
    TruncStep(cfg, env, c1, s.free + 1, s.free, ch);
    Run2(cfg, env, c, c1, At(c'));
  }

  /** The store of a read: it faults off the tape and else updates the cell. */
  lemma StoreRuns(cfg: Cfg, env: Env, s: State, c: Config, m: Machine, ch: byte, b: nat)
    requires Room(env, m, b) && env.space > 0 && c.bb == s.cur < |cfg| && c.idx < |cfg[s.cur].instrs|
    requires cfg[s.cur].instrs[c.idx] == Store(s.free + 1, s.head)
    requires s.free + 1 in c.regs && c.regs[s.free + 1] == ch && s.head in c.regs
    requires c.regs[s.head] == Address(env, m) && c.live && c.tape == m.tape && c.out == m.out
    ensures Run(cfg, env, 1, At(c)) == if m.OnTape() then At(c.(tape := m.tape[m.head := ch], idx := c.idx + 1))
                                       else Stopped(Crashed(m.out))
  {
    AddressExact(env, m, b);
    assert Run(cfg, env, 1, At(c)) == Step(cfg, env, c);
  }

  lemma ReadRuns(cfg: Cfg, env: Env, checked: bool, s: State, c: Config, m: Machine, b: nat)
    requires Sync(env, checked, c, m, s) && Room(env, m, b) && ThreeAt(cfg, s, c, ReadCode(s))
    ensures !m.OnTape() ==> Run(cfg, env, 3, At(c)) == Stopped(Crashed(m.out))
    ensures m.OnTape() ==>
      var r := Run(cfg, env, 3, At(c));
      r.At? && Sync(env, checked, r.c, m.Fetched(), EmitRead(s))
  {
    hide Run;
    var ch, inp := 255, c.inp;
    if c.inp != [] { ch, inp := c.inp[0], c.inp[1..]; }
    var c2 := GetCharRuns(cfg, env, s, c, ch, inp);
    StoreRuns(cfg, env, s, c2, m, ch, b);
    RunAdd(cfg, env, 2, 1, At(c));
    if m.OnTape() {
      var c3 := c2.(tape := c.tape[m.head := ch], idx := c.idx + 3);
      assert Represents(env, checked, c3, m.Fetched(), s.head);
    }
  }

  lemma AddWrapped(x: int, v: int, n: nat)
    requires n > 0
    ensures (x % n + v) % n == (x + v) % n
  {
    var q, t := (x + v) / n, (x + v) % n;
    assert x == (x / n) * n + x % n;
    assert x + v == q * n + t;
    assert (q - x / n) * n == q * n - (x / n) * n;
    ModUnique(x % n + v, q - x / n, n, t);
  }

  /** The registers after the address of a moved head has been computed. */
  lemma GepRuns(cfg: Cfg, env: Env, checked: bool, s: State, v: int, c: Config, m: Machine)
    requires Sync(env, checked, c, m, s) && -0x8000_0000 <= v < 0x8000_0000
    requires s.cur < |cfg| && c.idx < |cfg[s.cur].instrs|
    requires cfg[s.cur].instrs[c.idx] == Gep(s.free, s.head, Int32(v))
    ensures var r := Step(cfg, env, c);
      r == At(c.(regs := c.regs[s.free := Address(env, m.Moved(v))], idx := c.idx + 1))
      && Represents(env, checked, r.c, m.Moved(v), s.free)
  {
    assert Int32(v) == v;
    AddWrapped(env.base + m.head, v, env.space);
  }

  /** The blocks every program shares. */
  ghost predicate Shared(cfg: Cfg, checked: bool) {
    && |cfg| > END_BB && cfg[END_BB] == END_BLOCK
    && (checked ==> |cfg| > ABERROR_BB && cfg[ABERROR_BB] == ABERROR_BLOCK)
  }

  /** The tape is freed, while it is allocated, before every return. */
  lemma EndRuns(cfg: Cfg, env: Env, checked: bool, c: Config)
    requires env.space > 0 && Shared(cfg, checked) && c.bb == END_BB && c.idx == 0
    requires ARR in c.regs && c.regs[ARR] == env.base && c.live
    ensures Run(cfg, env, 2, At(c)) == Stopped(Returned(c.tape, false, c.inp, c.out, c.errors))
  {
    Run2(cfg, env, c, c.(idx := 1, live := false), Stopped(Returned(c.tape, false, c.inp, c.out, c.errors)));
  }

  /** A failed bounds check reports the error once and returns without another access. */
  lemma AbErrorRuns(cfg: Cfg, env: Env, c: Config)
    requires env.space > 0 && Shared(cfg, true) && c.bb == ABERROR_BB && c.idx == 0
    requires ARR in c.regs && c.regs[ARR] == env.base && c.live
    ensures Run(cfg, env, 4, At(c)) == Stopped(Returned(c.tape, false, c.inp, c.out, c.errors + 1))
  {
    hide Run;
    var c1 := c.(idx := 1, errors := c.errors + 1);
    var c2 := c1.(bb := END_BB, idx := 0);
    assert Step(cfg, env, c) == At(c1);
    assert Step(cfg, env, c1) == At(c2);
    Run2(cfg, env, c, c1, At(c2));
    EndRuns(cfg, env, true, c2);
    RunAdd(cfg, env, 2, 2, At(c));
  }

  lemma MoveRuns(cfg: Cfg, env: Env, s: State, v: int, c: Config, m: Machine)
    requires Sync(env, false, c, m, s) && -0x8000_0000 <= v < 0x8000_0000
    requires Covers(cfg, s, EmitMove(false, s, v))
    ensures var r := Run(cfg, env, 1, At(c));
      r.At? && Sync(env, false, r.c, m.Moved(v), EmitMove(false, s, v))
  {
    assert cfg[s.cur].instrs[c.idx] == [Gep(s.free, s.head, Int32(v))][0];
    GepRuns(cfg, env, false, s, v, c, m);
  }

  /** The four instructions of a checked move, and the branch after them. */
  ghost predicate CheckedMoveAt(cfg: Cfg, s: State, v: int, next: nat)
    requires Open(s)
  {
    var i := |s.blocks[s.cur].instrs|;
    && s.cur < |cfg| && |cfg[s.cur].instrs| == i + 4
    && cfg[s.cur].instrs[i] == Gep(s.free, s.head, Int32(v))
    && cfg[s.cur].instrs[i + 1] == ICmpUge(s.free + 1, s.free, ARRMAX)
    && cfg[s.cur].instrs[i + 2] == ICmpUlt(s.free + 2, s.free, ARR)
    && cfg[s.cur].instrs[i + 3] == Or(s.free + 3, s.free + 1, s.free + 2)
    && cfg[s.cur].term == Some(CondBr(s.free + 3, ABERROR_BB, next))
    && next < |cfg| && cfg[next].phi == None
  }

  lemma CheckedMoveInPlace(cfg: Cfg, s: State, v: int)
    requires Open(s) && Covers(cfg, s, EmitMove(true, s, v))
    ensures CheckedMoveAt(cfg, s, v, |s.blocks|)
  {
    var r := EmitMove(true, s, v);
    assert cfg[s.cur] == r.blocks[s.cur];
    assert cfg[|s.blocks|].phi == r.blocks[|s.blocks|].phi;
  }

  /** From a checked move to its branch: the condition register holds exactly
      whether the head has left the tape. */
  lemma CheckRuns(cfg: Cfg, env: Env, s: State, v: int, c: Config, m: Machine, b: nat, next: nat)
    returns (c': Config)
    requires Sync(env, true, c, m, s) && -0x8000_0000 <= v < 0x8000_0000
    requires CheckedMoveAt(cfg, s, v, next) && Room(env, m.Moved(v), b)
    ensures Run(cfg, env, 4, At(c)) == At(c')
    ensures c'.bb == s.cur && c'.idx == |cfg[s.cur].instrs|
    ensures Represents(env, true, c', m.Moved(v), s.free)
    ensures s.free + 3 in c'.regs && (c'.regs[s.free + 3] != 0 <==> !m.Moved(v).OnTape())
  {
    hide Step, Run, Room, Address, Gen, Int32;
    var m' := m.Moved(v);
    GepRuns(cfg, env, true, s, v, c, m);
    AddressExact(env, m', b);
    var p := Address(env, m');
    var c1 := c.(regs := c.regs[s.free := p], idx := c.idx + 1);
    var c3 := ComparesRun(cfg, env, s, c1, p, |m.tape|);
    c' := OrRuns(cfg, env, s, c3, p, |m.tape|);
    FourSteps(cfg, env, c, c1, c3, c');
  }

  lemma FourSteps(cfg: Cfg, env: Env, c: Config, c1: Config, c3: Config, c4: Config)
    requires env.space > 0 && Step(cfg, env, c) == At(c1) && Run(cfg, env, 2, At(c1)) == At(c3)
    requires Step(cfg, env, c3) == At(c4)
    ensures Run(cfg, env, 4, At(c)) == At(c4)
  {
    Run1(cfg, env, c);
    Run1(cfg, env, c3);
    RunAdd(cfg, env, 1, 2, At(c));
    RunAdd(cfg, env, 3, 1, At(c));
  }

  /** The two comparisons of an address with the ends of the tape. */
  lemma ComparesRun(cfg: Cfg, env: Env, s: State, c: Config, p: int, size: nat) returns (c': Config)
    requires env.space > 0 && c.bb == s.cur < |cfg| && c.idx + 1 < |cfg[s.cur].instrs|
    requires cfg[s.cur].instrs[c.idx] == ICmpUge(s.free + 1, s.free, ARRMAX)
    requires cfg[s.cur].instrs[c.idx + 1] == ICmpUlt(s.free + 2, s.free, ARR)
    requires s.free in c.regs && c.regs[s.free] == p && ARR < s.free && ARRMAX < s.free
    requires ARR in c.regs && c.regs[ARR] == env.base && ARRMAX in c.regs && c.regs[ARRMAX] == env.base + size
    ensures Run(cfg, env, 2, At(c)) == At(c')
    ensures c' == c.(idx := c.idx + 2, regs := c.regs[s.free + 1 := if p >= env.base + size then 1 else 0]
                                                     [s.free + 2 := if p < env.base then 1 else 0])
  {
    var c1 := c.(regs := c.regs[s.free + 1 := if p >= env.base + size then 1 else 0], idx := c.idx + 1);
    assert Step(cfg, env, c) == At(c1);
    c' := c1.(regs := c1.regs[s.free + 2 := if p < env.base then 1 else 0], idx := c.idx + 2);
    assert Step(cfg, env, c1) == At(c');
    Run2(cfg, env, c, c1, At(c'));
  }

  lemma OrRuns(cfg: Cfg, env: Env, s: State, c: Config, p: int, size: nat) returns (c': Config)
    requires env.space > 0 && c.bb == s.cur < |cfg| && c.idx < |cfg[s.cur].instrs|
    requires cfg[s.cur].instrs[c.idx] == Or(s.free + 3, s.free + 1, s.free + 2)
    requires s.free + 1 in c.regs && c.regs[s.free + 1] == if p >= env.base + size then 1 else 0
    requires s.free + 2 in c.regs && c.regs[s.free + 2] == if p < env.base then 1 else 0
    ensures Step(cfg, env, c) == At(c')
    ensures c' == c.(regs := c.regs[s.free + 3 := if env.base <= p < env.base + size then 0 else 1], idx := c.idx + 1)
  {
    c' := c.(regs := c.regs[s.free + 3 := if env.base <= p < env.base + size then 0 else 1], idx := c.idx + 1);
  }

  /** A checked move up to and including its branch. */
  lemma CheckedBranchRuns(cfg: Cfg, env: Env, s: State, v: int, c: Config, m: Machine, b: nat, next: nat)
    returns (c': Config)
    requires Sync(env, true, c, m, s) && -0x8000_0000 <= v < 0x8000_0000
    requires CheckedMoveAt(cfg, s, v, next) && Room(env, m.Moved(v), b) && Shared(cfg, true)
    ensures Run(cfg, env, 5, At(c)) == At(c')
    ensures c'.bb == (if m.Moved(v).OnTape() then next else ABERROR_BB) && c'.idx == 0
    ensures Represents(env, true, c', m.Moved(v), s.free)
  {
    var c4 := CheckRuns(cfg, env, s, v, c, m, b, next);
    RunAdd(cfg, env, 4, 1, At(c));
    c' := c4.(bb := if m.Moved(v).OnTape() then next else ABERROR_BB, idx := 0);
  }

  lemma StayingMoveRuns(cfg: Cfg, env: Env, s: State, v: int, c: Config, m: Machine, b: nat)
    requires Sync(env, true, c, m, s) && -0x8000_0000 <= v < 0x8000_0000
    requires Room(env, m.Moved(v), b) && Shared(cfg, true) && CheckedMoveAt(cfg, s, v, |s.blocks|)
    requires m.Moved(v).OnTape()
    ensures var r := Run(cfg, env, 5, At(c));
      r.At? && Sync(env, true, r.c, m.Moved(v), EmitMove(true, s, v))
  {
    var c' := CheckedBranchRuns(cfg, env, s, v, c, m, b, |s.blocks|);
  }

  lemma LeavingMoveRuns(cfg: Cfg, env: Env, s: State, v: int, c: Config, m: Machine, b: nat)
    requires Sync(env, true, c, m, s) && -0x8000_0000 <= v < 0x8000_0000
    requires Room(env, m.Moved(v), b) && Shared(cfg, true) && CheckedMoveAt(cfg, s, v, |s.blocks|)
    requires !m.Moved(v).OnTape()
    ensures Run(cfg, env, 9, At(c)) == Stopped(Returned(m.tape, false, m.inp, m.out, 1))
  {
    hide Run, CheckedMoveAt, Room, Shared;
    var c' := CheckedBranchRuns(cfg, env, s, v, c, m, b, |s.blocks|);
    AbErrorRuns(cfg, env, c');
    RunAdd(cfg, env, 5, 4, At(c));
  }

  // --------------------------------------------------------------------- loops

  /** A finished loop: opened in state `s`, its body emitted up to state `e`. */
  ghost predicate LoopAt(cfg: Cfg, s: State, e: State)
    requires Open(s) && Open(e)
  {
    var test, exit := |s.blocks|, |e.blocks|;
    && exit < |cfg| && test + 1 < exit && s.cur < test < e.cur
    && cfg[s.cur].instrs == s.blocks[s.cur].instrs && cfg[s.cur].term == Some(Br(test))
    && cfg[e.cur].instrs == e.blocks[e.cur].instrs && cfg[e.cur].term == Some(Br(test))
    && cfg[test] == Block(Some(Phi(s.free, [(s.head, s.cur), (e.head, e.cur)])),
                          [Load(e.free, s.free), ICmpEqZero(e.free + 1, e.free)],
                          Some(CondBr(e.free + 1, exit, test + 1)))
    && cfg[test + 1].phi == None
    && cfg[exit].phi == Some(Phi(e.free + 2, [(s.free, test)]))
  }

  lemma LoopInPlace(cfg: Cfg, s: State, e: State)
    requires Open(s) && Grown(OpenLoop(s), e) && Covers(cfg, s, Closed(s, e))
    ensures LoopAt(cfg, s, e)
  {
    var o, x, test := OpenLoop(s), Closed(s, e), |s.blocks|;
    LoopGrows(s, e);
    assert [(s.head, s.cur)] + [(e.head, e.cur)] == [(s.head, s.cur), (e.head, e.cur)];
    assert [] + [Load(e.free, s.free), ICmpEqZero(e.free + 1, e.free)]
        == [Load(e.free, s.free), ICmpEqZero(e.free + 1, e.free)];
    assert e.blocks[s.cur] == o.blocks[s.cur];
    assert cfg[s.cur] == x.blocks[s.cur];
    assert cfg[e.cur] == x.blocks[e.cur];
    assert cfg[test] == x.blocks[test];
    assert cfg[|e.blocks|].phi == x.blocks[|e.blocks|].phi;
    assert o.blocks[test + 1].phi == e.blocks[test + 1].phi == x.blocks[test + 1].phi == None;
    assert cfg[test + 1] == x.blocks[test + 1];
  }

  lemma BodyInPlace(cfg: Cfg, s: State, e: State)
    requires Open(s) && Grown(OpenLoop(s), e) && Covers(cfg, s, Closed(s, e))
    ensures Covers(cfg, OpenLoop(s), e)
  {
    var o, x := OpenLoop(s), Closed(s, e);
    LoopGrows(s, e);
    forall i | 0 <= i < |e.blocks| && (i == o.cur || |o.blocks| <= i)
      ensures if i == e.cur then cfg[i].phi == e.blocks[i].phi && e.blocks[i].instrs <= cfg[i].instrs
              else cfg[i] == e.blocks[i]
    {
      assert cfg[i] == x.blocks[i];
    }
  }

  /** In the test block of a loop, just after its phi got the head. */
  ghost predicate AtTest(env: Env, checked: bool, c: Config, m: Machine, s: State) {
    env.space > 0 && Ready(s) && c.bb == |s.blocks| && c.idx == 0 && Represents(env, checked, c, m, s.free)
  }

  lemma EnterRuns(cfg: Cfg, env: Env, checked: bool, s: State, e: State, c: Config, m: Machine)
    requires Open(e) && Sync(env, checked, c, m, s) && LoopAt(cfg, s, e)
    ensures var r := Run(cfg, env, 1, At(c)); r.At? && AtTest(env, checked, r.c, m, s)
  {
    assert Step(cfg, env, c) == Jump(cfg, c, |s.blocks|);
    assert Run(cfg, env, 1, At(c)) == Step(cfg, env, c);
  }

  lemma BackEdgeRuns(cfg: Cfg, env: Env, checked: bool, s: State, e: State, c: Config, m: Machine)
    requires Ready(s) && Sync(env, checked, c, m, e) && LoopAt(cfg, s, e)
    ensures var r := Run(cfg, env, 1, At(c)); r.At? && AtTest(env, checked, r.c, m, s)
  {
    assert Incoming([(s.head, s.cur), (e.head, e.cur)], e.cur) == Some(e.head) by {
      assert [(s.head, s.cur), (e.head, e.cur)][1..] == [(e.head, e.cur)];
    }
    assert Step(cfg, env, c) == Jump(cfg, c, |s.blocks|);
    assert Run(cfg, env, 1, At(c)) == Step(cfg, env, c);
  }

  /** The test itself: off the tape it is an access outside the object, otherwise
      control leaves the loop on a zero cell and enters the body on any other. */
  lemma TestRuns(cfg: Cfg, env: Env, checked: bool, s: State, e: State, c: Config, m: Machine, b: nat)
    returns (c': Config)
    requires Open(e) && s.free < e.free && AtTest(env, checked, c, m, s) && LoopAt(cfg, s, e) && Room(env, m, b)
    ensures !m.OnTape() ==> Run(cfg, env, 1, At(c)) == Stopped(Crashed(m.out))
    ensures m.OnTape() ==>
      && Run(cfg, env, 3, At(c)) == At(c') && c'.idx == 0
      && (if m.Cell() == 0 then c'.bb == |e.blocks| && Represents(env, checked, c', m, e.free + 2)
          else c'.bb == |s.blocks| + 1 && Represents(env, checked, c', m, s.free))
  {
    hide Run, Room;
    c' := c;
    AddressExact(env, m, b);
    if !m.OnTape() {
      Run1(cfg, env, c);
    } else {
      var c1 := c.(regs := c.regs[e.free := m.Cell()], idx := 1);
      assert Step(cfg, env, c) == At(c1);
      var c2 := c1.(regs := c1.regs[e.free + 1 := if m.Cell() == 0 then 1 else 0], idx := 2);
      assert Step(cfg, env, c1) == At(c2);
      if m.Cell() == 0 {
        c' := c2.(bb := |e.blocks|, idx := 0, regs := c2.regs[e.free + 2 := c2.regs[s.free]]);
      } else {
        c' := c2.(bb := |s.blocks| + 1, idx := 0);
      }
      assert Step(cfg, env, c2) == At(c');
      Run3(cfg, env, c, c1, c2, At(c'));
    }
  }

  // ----------------------------------------------------------------- simulation

  /** After `n` steps from `c` the run is where `o` says: at the end of the code, which
      led to state `t`, or stopped, or still going after at least `fuel` steps. */
  ghost predicate Matches(cfg: Cfg, env: Env, checked: bool, c: Config, n: nat, fuel: nat, o: Outcome, t: State)
    requires env.space > 0
  {
    var r := Run(cfg, env, n, At(c));
    match o
    case Finished(m) => r.At? && Sync(env, checked, r.c, m, t)
    case OffTape(out) => r == Stopped(Crashed(out))
    case Aborted(m) => r == Stopped(Returned(m.tape, false, m.inp, m.out, 1))
    case Running => r.At? && fuel <= n
  }

  /** `k` steps first; they make up for one unit of fuel. */
  lemma MatchesAfter(cfg: Cfg, env: Env, checked: bool, c: Config, k: nat, c': Config,
                     n: nat, fuel: nat, o: Outcome, t: State)
    requires env.space > 0 && k > 0 && fuel > 0 && Run(cfg, env, k, At(c)) == At(c')
    requires Matches(cfg, env, checked, c', n, fuel - 1, o, t)
    ensures Matches(cfg, env, checked, c, k + n, fuel, o, t)
  {
    RunAdd(cfg, env, k, n, At(c));
  }

  lemma MatchesLater(cfg: Cfg, env: Env, checked: bool, c: Config, k: nat, c': Config,
                     n: nat, fuel: nat, o: Outcome, t: State)
    requires env.space > 0 && Run(cfg, env, k, At(c)) == At(c')
    requires Matches(cfg, env, checked, c', n, fuel, o, t)
    ensures Matches(cfg, env, checked, c, k + n, fuel, o, t)
  {
    RunAdd(cfg, env, k, n, At(c));
  }

  /** The head starts at most `b` cells off the tape, strays at most `r`, and does not come
      round to the tape from the other side. */
  ghost predicate Fits(env: Env, m: Machine, b: nat, code: Code, r: nat) {
    Room(env, m, b) && Within(code, b, r) && r + |m.tape| <= env.space
  }

  lemma GenInPlace(cfg: Cfg, checked: bool, s: State, code: Code)
    requires Open(s) && !code.Done? && Covers(cfg, s, Gen(checked, s, code))
    ensures var t := First(checked, s, code);
      Covers(cfg, s, t) && Covers(cfg, t, Gen(checked, t, code.next))
  {
  }

  /** The emitted code, run from where it starts, does what `Exec` says. */
  lemma {:induction false} Simulate(cfg: Cfg, env: Env, checked: bool, s: State, code: Code,
                                    c: Config, m: Machine, b: nat, r: nat, fuel: nat) returns (n: nat)
    requires Sync(env, checked, c, m, s) && Shared(cfg, checked) && Fits(env, m, b, code, r)
    requires Covers(cfg, s, Gen(checked, s, code))
    ensures Matches(cfg, env, checked, c, n, fuel, Exec(checked, code, m, fuel), Gen(checked, s, code))
    decreases fuel, code, 2
  {
    if code.Done? {
      n := 0;
    } else if code.Move? {
      n := SimulateMove(cfg, env, checked, s, code, c, m, b, r, fuel);
    } else if code.Loop? {
      n := SimulateLoop(cfg, env, checked, s, code, c, m, b, r, fuel);
    } else if code.Change? {
      n := SimulateChange(cfg, env, checked, s, code, c, m, b, r, fuel);
    } else if code.Read? {
      n := SimulateRead(cfg, env, checked, s, code, c, m, b, r, fuel);
    } else {
      n := SimulateWrite(cfg, env, checked, s, code, c, m, b, r, fuel);
    }
  }

  predicate IsAccess(code: Code) {
    code.Change? || code.Read? || code.Write?
  }

  /** What is emitted for a command that accesses the cell. */
  function AccessCode(s: State, code: Code): seq<Instr>
    requires IsAccess(code)
  {
    match code
    case Change(v, _) => ChangeCode(s, v)
    case Read(_) => ReadCode(s)
    case Write(_) => WriteCode(s)
  }

  lemma AccessInPlace(cfg: Cfg, env: Env, checked: bool, s: State, code: Code, c: Config, m: Machine)
    requires IsAccess(code) && Sync(env, checked, c, m, s) && Covers(cfg, s, Gen(checked, s, code))
    ensures ThreeAt(cfg, s, c, AccessCode(s, code))
    ensures var t := First(checked, s, code);
      t == Emit(s, AccessCode(s, code), 2) && Covers(cfg, t, Gen(checked, t, code.next))
  {
    GenInPlace(cfg, checked, s, code);
  }

  lemma {:induction false} SimulateChange(cfg: Cfg, env: Env, checked: bool, s: State, code: Code,
                                          c: Config, m: Machine, b: nat, r: nat, fuel: nat) returns (n: nat)
    requires code.Change? && Sync(env, checked, c, m, s) && Shared(cfg, checked) && Fits(env, m, b, code, r)
    requires Covers(cfg, s, Gen(checked, s, code))
    ensures Matches(cfg, env, checked, c, n, fuel, Exec(checked, code, m, fuel), Gen(checked, s, code))
    decreases fuel, code, 1
  {
    AccessInPlace(cfg, env, checked, s, code, c, m);
    ChangeRuns(cfg, env, checked, s, code.v, c, m, b);
    n := 1;
    if m.OnTape() {
      hide Run, Covers, Shared, Room, Represents, Ready, Open, ThreeAt, Within, Emit, ChangeCode;
      n := SimulateRest(cfg, env, checked, EmitChange(s, code.v), code.next, c, 3, m.Added(code.v), 0, r, fuel);
    }
  }

  lemma {:induction false} SimulateRead(cfg: Cfg, env: Env, checked: bool, s: State, code: Code,
                                        c: Config, m: Machine, b: nat, r: nat, fuel: nat) returns (n: nat)
    requires code.Read? && Sync(env, checked, c, m, s) && Shared(cfg, checked) && Fits(env, m, b, code, r)
    requires Covers(cfg, s, Gen(checked, s, code))
    ensures Matches(cfg, env, checked, c, n, fuel, Exec(checked, code, m, fuel), Gen(checked, s, code))
    decreases fuel, code, 1
  {
    AccessInPlace(cfg, env, checked, s, code, c, m);
    ReadRuns(cfg, env, checked, s, c, m, b);
    n := 3;
    if m.OnTape() {
      hide Run, Covers, Shared, Room, Represents, Ready, Open, ThreeAt, Within, Emit, ReadCode;
      n := SimulateRest(cfg, env, checked, EmitRead(s), code.next, c, 3, m.Fetched(), 0, r, fuel);
    }
  }

  lemma {:induction false} SimulateWrite(cfg: Cfg, env: Env, checked: bool, s: State, code: Code,
                                         c: Config, m: Machine, b: nat, r: nat, fuel: nat) returns (n: nat)
    requires code.Write? && Sync(env, checked, c, m, s) && Shared(cfg, checked) && Fits(env, m, b, code, r)
    requires Covers(cfg, s, Gen(checked, s, code))
    ensures Matches(cfg, env, checked, c, n, fuel, Exec(checked, code, m, fuel), Gen(checked, s, code))
    decreases fuel, code, 1
  {
    AccessInPlace(cfg, env, checked, s, code, c, m);
    WriteRuns(cfg, env, checked, s, c, m, b);
    n := 1;
    if m.OnTape() {
      hide Run, Covers, Shared, Room, Represents, Ready, Open, ThreeAt, Within, Emit, WriteCode;
      n := SimulateRest(cfg, env, checked, EmitWrite(s), code.next, c, 3, m.Shown(), 0, r, fuel);
    }
  }

  /** The rest of the code, after `j` steps from `c` have done its first command. */
  lemma {:induction false} SimulateRest(cfg: Cfg, env: Env, checked: bool, t: State, k: Code,
                                        c: Config, j: nat, m: Machine, b: nat, r: nat, fuel: nat) returns (n: nat)
    requires env.space > 0 && Run(cfg, env, j, At(c)).At?
    requires Sync(env, checked, Run(cfg, env, j, At(c)).c, m, t)
    requires Shared(cfg, checked) && Fits(env, m, b, k, r)
    requires Covers(cfg, t, Gen(checked, t, k))
    ensures Matches(cfg, env, checked, c, n, fuel, Exec(checked, k, m, fuel), Gen(checked, t, k))
    decreases fuel, k, 3
  {
    var c' := Run(cfg, env, j, At(c)).c;
    n := Simulate(cfg, env, checked, t, k, c', m, b, r, fuel);
    MatchesLater(cfg, env, checked, c, j, c', n, fuel, Exec(checked, k, m, fuel), Gen(checked, t, k));
    n := j + n;
  }

  lemma {:induction false} SimulateMove(cfg: Cfg, env: Env, checked: bool, s: State, code: Code,
                                        c: Config, m: Machine, b: nat, r: nat, fuel: nat) returns (n: nat)
    requires code.Move? && Sync(env, checked, c, m, s) && Shared(cfg, checked) && Fits(env, m, b, code, r)
    requires Covers(cfg, s, Gen(checked, s, code))
    ensures Matches(cfg, env, checked, c, n, fuel, Exec(checked, code, m, fuel), Gen(checked, s, code))
    decreases fuel, code, 1
  {
    var t, b' := EmitMove(checked, s, code.v), b + Abs(code.v);
    WithinBound(code.next, b', r);
    GenInPlace(cfg, checked, s, code);
    if !checked {
      MoveRuns(cfg, env, s, code.v, c, m);
      n := SimulateRest(cfg, env, checked, t, code.next, c, 1, m.Moved(code.v), b', r, fuel);
    } else {
      CheckedMoveInPlace(cfg, s, code.v);
      if m.Moved(code.v).OnTape() {
        StayingMoveRuns(cfg, env, s, code.v, c, m, b');
        n := SimulateRest(cfg, env, checked, t, code.next, c, 5, m.Moved(code.v), b', r, fuel);
      } else {
        LeavingMoveRuns(cfg, env, s, code.v, c, m, b');
        n := 9;
      }
    }
  }

  /** The test of a loop with the states in which its body and its sequel begin. */
  lemma TestSyncs(cfg: Cfg, env: Env, checked: bool, s: State, e: State, c: Config, m: Machine, b: nat)
    requires Ready(s) && Grown(OpenLoop(s), e)
    requires AtTest(env, checked, c, m, s) && LoopAt(cfg, s, e) && Room(env, m, b)
    ensures !m.OnTape() ==> Run(cfg, env, 1, At(c)) == Stopped(Crashed(m.out))
    ensures m.OnTape() ==>
      var r := Run(cfg, env, 3, At(c));
      r.At? && Sync(env, checked, r.c, m, if m.Cell() == 0 then Closed(s, e) else OpenLoop(s))
  {
    hide Run, LoopAt, Room;
    var c' := TestRuns(cfg, env, checked, s, e, c, m, b);
  }

  /** The code of a loop that ends in state `e` is in place, and so is the code that
      follows it and leads to state `t`. */
  ghost predicate LoopCode(cfg: Cfg, checked: bool, s: State, code: Code, e: State, t: State) {
    && code.Loop? && Ready(s)
    && e == Gen(checked, OpenLoop(s), code.body)
    && t == Gen(checked, Closed(s, e), code.next)
    && LoopAt(cfg, s, e) && Covers(cfg, OpenLoop(s), e) && Covers(cfg, Closed(s, e), t)
  }

  lemma {:induction false} SimulateLoop(cfg: Cfg, env: Env, checked: bool, s: State, code: Code,
                                        c: Config, m: Machine, b: nat, r: nat, fuel: nat) returns (n: nat)
    requires code.Loop? && Sync(env, checked, c, m, s) && Shared(cfg, checked) && Fits(env, m, b, code, r)
    requires Covers(cfg, s, Gen(checked, s, code))
    ensures Matches(cfg, env, checked, c, n, fuel, Exec(checked, code, m, fuel), Gen(checked, s, code))
    decreases fuel, code, 1
  {
    hide Run, LoopAt, Covers, Shared, AtTest, Matches, Exec, LoopCode, Gen, Fits, OpenLoop;
    LoopCodeInPlace(cfg, env, checked, s, code, c, m);
    var e, t := Gen(checked, OpenLoop(s), code.body), Gen(checked, s, code);
    EnterRuns(cfg, env, checked, s, e, c, m);
    var c1 := Run(cfg, env, 1, At(c)).c;
    n := SimulateTest(cfg, env, checked, s, code, e, t, c1, m, b, r, fuel);
    MatchesLater(cfg, env, checked, c, 1, c1, n, fuel, Exec(checked, code, m, fuel), t);
    n := 1 + n;
  }

  lemma LoopCodeInPlace(cfg: Cfg, env: Env, checked: bool, s: State, code: Code, c: Config, m: Machine)
    requires code.Loop? && Sync(env, checked, c, m, s) && Covers(cfg, s, Gen(checked, s, code))
    ensures Open(OpenLoop(s))
    ensures var e := Gen(checked, OpenLoop(s), code.body);
      Open(e) && LoopAt(cfg, s, e) && LoopCode(cfg, checked, s, code, e, Gen(checked, s, code))
  {
    hide LoopAt, Covers, OpenLoop, Closed;
    var e := Gen(checked, OpenLoop(s), code.body);
    GenInPlace(cfg, checked, s, code);
    LoopInPlace(cfg, s, e);
    BodyInPlace(cfg, s, e);
  }

  /** A loop from its test on. */
  lemma {:induction false} SimulateTest(cfg: Cfg, env: Env, checked: bool, s: State, code: Code, e: State, t: State,
                                        c: Config, m: Machine, b: nat, r: nat, fuel: nat) returns (n: nat)
    requires LoopCode(cfg, checked, s, code, e, t) && Shared(cfg, checked)
    requires AtTest(env, checked, c, m, s) && Fits(env, m, b, code, r)
    ensures Matches(cfg, env, checked, c, n, fuel, Exec(checked, code, m, fuel), t)
    decreases fuel, code, 0
  {
    hide LoopAt, Covers, Shared, Gen, Closed, OpenLoop, AtTest;
    TestSyncs(cfg, env, checked, s, e, c, m, b);
    if !m.OnTape() {
      n := 1;
    } else if m.Cell() == 0 {
      n := SimulateRest(cfg, env, checked, Closed(s, e), code.next, c, 3, m, 0, r, fuel);
    } else if fuel == 0 {
      n := 0;
    } else {
      var c' := Run(cfg, env, 3, At(c)).c;
      n := SimulateIteration(cfg, env, checked, s, code, e, t, c', m, r, fuel);
      MatchesAfter(cfg, env, checked, c, 3, c', n, fuel, Exec(checked, code, m, fuel), t);
      n := 3 + n;
    }
  }

  /** One time round the body, and the loop again from its test. */
  lemma {:induction false} SimulateIteration(cfg: Cfg, env: Env, checked: bool, s: State, code: Code, e: State, t: State,
                                             c: Config, m: Machine, r: nat, fuel: nat) returns (n: nat)
    requires LoopCode(cfg, checked, s, code, e, t) && Shared(cfg, checked)
    requires Sync(env, checked, c, m, OpenLoop(s)) && Fits(env, m, 0, code, r)
    requires m.OnTape() && m.Cell() != 0 && fuel > 0
    ensures Matches(cfg, env, checked, c, n, fuel - 1, Exec(checked, code, m, fuel), t)
    decreases fuel - 1, code, 3
  {
    hide Run, LoopAt, Covers, Sync, AtTest, Shared, Gen, Closed, OpenLoop;
    n := Simulate(cfg, env, checked, OpenLoop(s), code.body, c, m, 0, r, fuel - 1);
    var o := Exec(checked, code.body, m, fuel - 1);
    if o.Finished? {
      var c2 := BackAtTest(cfg, env, checked, s, e, c, o.m, n, fuel - 1);
      Drift(checked, code.body, m, fuel - 1, 0, r);
      var n' := SimulateTest(cfg, env, checked, s, code, e, t, c2, o.m, r, r, fuel - 1);
      MatchesLater(cfg, env, checked, c, n + 1, c2, n', fuel - 1, Exec(checked, code, o.m, fuel - 1), t);
      n := n + 1 + n';
    }
  }

  lemma BackAtTest(cfg: Cfg, env: Env, checked: bool, s: State, e: State,
                   c: Config, m: Machine, n: nat, fuel: nat) returns (c': Config)
    requires env.space > 0 && Ready(s) && Open(e) && LoopAt(cfg, s, e)
    requires Matches(cfg, env, checked, c, n, fuel, Finished(m), e)
    ensures Run(cfg, env, n + 1, At(c)) == At(c') && AtTest(env, checked, c', m, s)
  {
    var c1 := Run(cfg, env, n, At(c)).c;
    BackEdgeRuns(cfg, env, checked, s, e, c1, m);
    RunAdd(cfg, env, n, 1, At(c));
    c' := Run(cfg, env, n + 1, At(c)).c;
  }

  // ------------------------------------------------------------- whole programs

  /** What a caller can observe of a run of the source program, once it has ended.  Nothing
      is left allocated. */
  function Observed(o: Outcome): Option<Result> {
    match o
    case Finished(m) => Some(Returned(m.tape, false, m.inp, m.out, 0))
    case Aborted(m) => Some(Returned(m.tape, false, m.inp, m.out, 1))
    case OffTape(out) => Some(Crashed(out))
    case Running => None
  }

  /** The tape fits the 32-bit constants of the code and lies below the top of the address
      space, in which a head `r` cells off the tape is not on it from the other side. */
  ghost predicate Suitable(env: Env, size: nat, r: nat) {
    size < 0x8000_0000 && env.base + size < env.space && size + r < env.space
  }

  /** Allocating the tape and zeroing it. */
  lemma TapeRuns(cfg: Cfg, env: Env, size: nat, inp: seq<byte>) returns (c: Config)
    requires env.space > 0 && |cfg| > 0 && |cfg[0].instrs| > 1
    requires cfg[0].instrs[0] == Malloc(ARR, size) && cfg[0].instrs[1] == Memset(ARR, size)
    ensures c == Config(0, 2, map[ARR := env.base], seq(size, _ => 0), true, inp, [], 0)
    ensures Run(cfg, env, 2, At(Entry(inp))) == At(c)
  {
    var c0 := Entry(inp);
    var c1 := c0.(idx := 1, regs := map[ARR := env.base], tape := seq(size, _ => env.fill), live := true);
    assert Step(cfg, env, c0) == At(c1);
    c := c1.(idx := 2, tape := seq(size, _ => 0));
    assert Step(cfg, env, c1) == At(c);
    Run2(cfg, env, c0, c1, At(c));
  }

  lemma HeaderRuns(cfg: Cfg, env: Env, checked: bool, size: nat, inp: seq<byte>) returns (n: nat)
    requires Suitable(env, size, 0) && |cfg| > 0 && EntryInstrs(checked, size) <= cfg[0].instrs
    ensures var r := Run(cfg, env, n, At(Entry(inp)));
      r.At? && Sync(env, checked, r.c, Initial(size, inp), Header(checked, size))
  {
    hide Run;
    var is0 := EntryInstrs(checked, size);
    assert forall k | 0 <= k < |is0| :: cfg[0].instrs[k] == is0[k];
    assert Int32(size) == size && Int32(size / 2) == size / 2;
    var c := Entry(inp);
    var c2 := TapeRuns(cfg, env, size, inp);
    var c3, j := c2, 0;
    if checked {
      ModUnique(env.base + size, 0, env.space, env.base + size);
      c3, j := c2.(idx := 3, regs := c2.regs[ARRMAX := env.base + size]), 1;
      assert Step(cfg, env, c2) == At(c3);
      Run1(cfg, env, c2);
    }
    RunAdd(cfg, env, 2, j, At(c));
    n := HeadRuns(cfg, env, checked, size, inp, c3, 2 + j);
  }

  /** The last instruction of the header, which points the head at the middle cell. */
  lemma HeadRuns(cfg: Cfg, env: Env, checked: bool, size: nat, inp: seq<byte>, c: Config, j: nat) returns (n: nat)
    requires Suitable(env, size, 0) && |cfg| > 0
    requires Run(cfg, env, j, At(Entry(inp))) == At(c)
    requires c.bb == 0 && c.idx + 1 == |EntryInstrs(checked, size)| <= |cfg[0].instrs|
    requires cfg[0].instrs[c.idx] == Gep(HEAD, ARR, size / 2)
    requires ARR in c.regs && c.regs[ARR] == env.base
    requires checked ==> ARRMAX in c.regs && c.regs[ARRMAX] == env.base + size
    requires c.live && c.tape == seq(size, _ => 0) && c.inp == inp && c.out == [] && c.errors == 0
    ensures var r := Run(cfg, env, n, At(Entry(inp)));
      r.At? && Sync(env, checked, r.c, Initial(size, inp), Header(checked, size))
  {
    var c' := c.(idx := c.idx + 1, regs := c.regs[HEAD := (env.base + size / 2) % env.space]);
    assert Step(cfg, env, c) == At(c');
    assert Run(cfg, env, 1, At(c)) == At(c');
    RunAdd(cfg, env, j, 1, At(Entry(inp)));
    n := j + 1;
  }

  lemma ProgramInPlace(checked: bool, size: nat, code: Code)
    ensures var cfg, h, g := Program(checked, size, code), Header(checked, size), Gen(checked, Header(checked, size), code);
      && Open(h) && Shared(cfg, checked) && Covers(cfg, h, g)
      && EntryInstrs(checked, size) <= cfg[0].instrs
      && cfg[g.cur].instrs == g.blocks[g.cur].instrs && cfg[g.cur].term == Some(Br(END_BB))
  {
    var h, g := Header(checked, size), Gen(checked, Header(checked, size), code);
    assert g.blocks[1] == h.blocks[1];
    assert checked ==> g.blocks[2] == h.blocks[2];
    assert h.blocks[0].instrs <= g.blocks[0].instrs;
  }

  /** A run that has come as far as `o` says is driven to its end, if it has one. */
  lemma Conclude(cfg: Cfg, env: Env, checked: bool, g: State, c: Config, n: nat, fuel: nat, o: Outcome) returns (n': nat)
    requires env.space > 0 && Matches(cfg, env, checked, c, n, fuel, o, g) && Shared(cfg, checked)
    requires Open(g) && g.cur < |cfg|
    requires cfg[g.cur].instrs == g.blocks[g.cur].instrs && cfg[g.cur].term == Some(Br(END_BB))
    ensures var r := Run(cfg, env, n', At(c));
      if Observed(o).Some? then r == Stopped(Observed(o).value) else r.At? && fuel <= n'
  {
    n' := n;
    if o.Finished? {
      FinishRuns(cfg, env, checked, g, Run(cfg, env, n, At(c)).c, o.m);
      RunAdd(cfg, env, n, 3, At(c));
      n' := n + 3;
    }
  }

  /** A run of the compiled program, against a run of the source with a given fuel. */
  lemma ProgramRuns(env: Env, checked: bool, size: nat, code: Code, r: nat, inp: seq<byte>, fuel: nat)
    returns (n: nat)
    requires Suitable(env, size, r) && Within(code, 0, r)
    ensures var o, s := Observed(Exec(checked, code, Initial(size, inp), fuel)),
                        Run(Program(checked, size, code), env, n, At(Entry(inp)));
      if o.Some? then s == Stopped(o.value) else s.At? && fuel <= n
  {
    hide Run, Covers, Exec, Matches, Shared, Entry, Gen;
    var cfg, h, m := Program(checked, size, code), Header(checked, size), Initial(size, inp);
    var g := Gen(checked, h, code);
    ProgramInPlace(checked, size, code);
    var i := HeaderRuns(cfg, env, checked, size, inp);
    var c := Run(cfg, env, i, At(Entry(inp))).c;
    WithinMore(code, 0, r, 1, r + 1);
    n := Simulate(cfg, env, checked, h, code, c, m, 1, r + 1, fuel);
    n := Conclude(cfg, env, checked, g, c, n, fuel, Exec(checked, code, m, fuel));
    RunAdd(cfg, env, i, n, At(Entry(inp)));
    n := i + n;
  }

  lemma FinishRuns(cfg: Cfg, env: Env, checked: bool, g: State, c: Config, m: Machine)
    requires Sync(env, checked, c, m, g) && Shared(cfg, checked) && g.cur < |cfg|
    requires cfg[g.cur].instrs == g.blocks[g.cur].instrs && cfg[g.cur].term == Some(Br(END_BB))
    ensures Run(cfg, env, 3, At(c)) == Stopped(Returned(m.tape, false, m.inp, m.out, 0))
  {
    var c1 := c.(bb := END_BB, idx := 0);
    assert Step(cfg, env, c) == At(c1);
    EndRuns(cfg, env, checked, c1);
    assert Run(cfg, env, 1, At(c)) == At(c1);
    RunAdd(cfg, env, 1, 2, At(c));
  }

  /** `r` is how the compiled program ends. */
  ghost predicate CompiledEnds(checked: bool, size: nat, code: Code, env: Env, inp: seq<byte>, r: Result)
    requires env.space > 0
  {
    exists n: nat :: Run(Program(checked, size, code), env, n, At(Entry(inp))) == Stopped(r)
  }

  /** `r` is what can be observed of the source program when it ends. */
  ghost predicate SourceEnds(checked: bool, size: nat, code: Code, inp: seq<byte>, r: Result) {
    exists fuel: nat :: Observed(Exec(checked, code, Initial(size, inp), fuel)) == Some(r)
  }

  /** The compiled program ends exactly when the source program does, and with the same
      tape, input, output and errors; it performs an access outside the tape exactly
      when the source program does.  In particular one diverges iff the other does. */
  lemma CompiledIffSource(env: Env, checked: bool, size: nat, code: Code, w: nat, inp: seq<byte>, r: Result)
    requires Suitable(env, size, w) && Within(code, 0, w)
    ensures CompiledEnds(checked, size, code, env, inp, r) <==> SourceEnds(checked, size, code, inp, r)
  {
    var cfg := Program(checked, size, code);
    if CompiledEnds(checked, size, code, env, inp, r) {
      var k: nat :| Run(cfg, env, k, At(Entry(inp))) == Stopped(r);
      var n := ProgramRuns(env, checked, size, code, w, inp, k);
      if k <= n {
        RunOnce(cfg, env, k, n, At(Entry(inp)));
      } else {
        RunOnce(cfg, env, n, k, At(Entry(inp)));
      }
    }
    if SourceEnds(checked, size, code, inp, r) {
      var fuel: nat :| Observed(Exec(checked, code, Initial(size, inp), fuel)) == Some(r);
      var n := ProgramRuns(env, checked, size, code, w, inp, fuel);
    }
  }

  /** A compiled function that returns, after a failed check too, has freed its tape, once,
      and has not accessed it since. */
  lemma TapeFreed(env: Env, checked: bool, size: nat, code: Code, w: nat, inp: seq<byte>, r: Result)
    requires Suitable(env, size, w) && Within(code, 0, w)
    requires CompiledEnds(checked, size, code, env, inp, r) && r.Returned?
    ensures !r.live && |r.tape| == size
  {
    hide Exec, Program, Run, Within, Suitable;
    CompiledIffSource(env, checked, size, code, w, inp, r);
    var fuel: nat :| Observed(Exec(checked, code, Initial(size, inp), fuel)) == Some(r);
    WithinMore(code, 0, w, 1, w + 1);
    Drift(checked, code, Initial(size, inp), fuel, 1, w + 1);
  }

  // -------------------------------------------------------------- source texts

  /** The commands of a source text, one per character. */
  function Commands(src: seq<char>): Code {
    ParseFrom(src, 0).code
  }

  /** No merged move of the text is longer than `w`, nor than an int. */
  predicate MovesFit(src: seq<char>, w: nat) {
    MovesUpTo(Merge(Commands(src)), w)
  }

  /** No text has longer moves than characters. */
  lemma ShortTextsFit(src: seq<char>, w: nat)
    requires |src| <= w && |src| < 0x8000_0000
    ensures MovesFit(src, w)
  {
    ParsedMoves(src, 0);
    MergedMovesUpTo(Commands(src), w);
  }

  lemma TextFits(src: seq<char>, w: nat)
    requires MovesFit(src, w)
    ensures Within(Merge(Commands(src)), 0, w)
  {
    MergeJoins(Commands(src));
    JoinedWithin(Merge(Commands(src)), 0, w);
  }

  /** Without bounds checks: what is emitted for a text, runs merged, behaves as the text
      does one character at a time, in every respect and for every input. */
  lemma UncheckedIsFaithful(env: Env, src: seq<char>, size: nat, w: nat, inp: seq<byte>, r: Result)
    requires Suitable(env, size, w) && MovesFit(src, w)
    ensures CompiledEnds(false, size, Merge(Commands(src)), env, inp, r)
       <==> SourceEnds(false, size, Commands(src), inp, r)
  {
    var c, m := Commands(src), Initial(size, inp);
    TextFits(src, w);
    CompiledIffSource(env, false, size, Merge(c), w, inp, r);
    forall fuel: nat ensures Exec(false, Merge(c), m, fuel) == Exec(false, c, m, fuel) {
      UncheckedNeverAborts(c, m, fuel);
      MergeRefines(false, c, m, fuel);
    }
  }

  /** With bounds checks the same holds of every text and input for which checking each
      single move would not have stopped the run. */
  lemma CheckedIsFaithful(env: Env, src: seq<char>, size: nat, w: nat, inp: seq<byte>, r: Result)
    requires Suitable(env, size, w) && MovesFit(src, w)
    requires forall fuel: nat :: !Exec(true, Commands(src), Initial(size, inp), fuel).Aborted?
    ensures CompiledEnds(true, size, Merge(Commands(src)), env, inp, r)
       <==> SourceEnds(true, size, Commands(src), inp, r)
  {
    var c, m := Commands(src), Initial(size, inp);
    TextFits(src, w);
    CompiledIffSource(env, true, size, Merge(c), w, inp, r);
    forall fuel: nat ensures Exec(true, Merge(c), m, fuel) == Exec(true, c, m, fuel) {
      MergeRefines(true, c, m, fuel);
    }
  }

  /** With bounds checks no compiled program performs an access outside its tape,
      provided the tape has a cell at all. */
  lemma CheckedNeverCrashes(env: Env, src: seq<char>, size: nat, w: nat, inp: seq<byte>, out: seq<byte>)
    requires Suitable(env, size, w) && MovesFit(src, w) && size > 0
    ensures !CompiledEnds(true, size, Merge(Commands(src)), env, inp, Crashed(out))
  {
    var c, m := Merge(Commands(src)), Initial(size, inp);
    TextFits(src, w);
    CompiledIffSource(env, true, size, c, w, inp, Crashed(out));
    forall fuel: nat ensures !Exec(true, c, m, fuel).OffTape? {
      CheckedStaysOnTape(c, m, fuel);
    }
  }

  /** On a tape without cells the check after a move stops every program, but a program whose
      first command is not a move comes to an access before that. */
  lemma EmptyTapeCrashes(env: Env, src: seq<char>, w: nat, inp: seq<byte>, out: seq<byte>)
    requires Suitable(env, 0, w) && MovesFit(src, w)
    ensures CompiledEnds(true, 0, Merge(Commands(src)), env, inp, Crashed(out))
       <==> out == [] && !Commands(src).Done? && !Commands(src).Move?
  {
    var c, m := Merge(Commands(src)), Initial(0, inp);
    TextFits(src, w);
    CompiledIffSource(env, true, 0, c, w, inp, Crashed(out));
    forall fuel: nat
      ensures Observed(Exec(true, c, m, fuel)) == Some(Crashed(out))
         <==> out == [] && !Commands(src).Done? && !Commands(src).Move?
    {
    }
    assert Observed(Exec(true, c, m, 0)) == Some(Crashed(out)) ==> SourceEnds(true, 0, c, inp, Crashed(out));
  }

  /** So, with bounds checks, exactly these programs access memory outside their tape. */
  lemma CheckedCrashes(env: Env, src: seq<char>, size: nat, w: nat, inp: seq<byte>, out: seq<byte>)
    requires Suitable(env, size, w) && MovesFit(src, w)
    ensures CompiledEnds(true, size, Merge(Commands(src)), env, inp, Crashed(out))
       <==> size == 0 && out == [] && !Commands(src).Done? && !Commands(src).Move?
  {
    if size == 0 {
      EmptyTapeCrashes(env, src, w, inp, out);
    } else {
      CheckedNeverCrashes(env, src, size, w, inp, out);
    }
  }
}
