/**
 What the BrainF compiler emits for a command sequence, as a function on compile states.
 Blocks are numbered in the order they are created: 0 is the entry, 1 the shared return
 block, and 2, when bounds are checked, the block that reports the error.
 */
module BrainFGen {
  import opened Wrappers
  import opened BrainFSource
  import opened BrainFIR

  const ARR: Reg := 0
  const ARRMAX: Reg := 1
  const HEAD: Reg := 2
  const FIRST_FREE: Reg := 3

  const END_BB: nat := 1
  const ABERROR_BB: nat := 2

  /** The function so far, the block instructions are being added to, the register that
      holds the head, and the first unused register. */
  datatype State = State(blocks: Cfg, cur: nat, head: Reg, free: Reg)

  /** The low 32 bits of a constant, sign extended as getelementptr does. */
  function Int32(v: int): (r: int)
    ensures -0x8000_0000 <= r < 0x8000_0000 && (r - v) % 0x1_0000_0000 == 0
  {
    (v + 0x8000_0000) % 0x1_0000_0000 - 0x8000_0000
  }

  function EntryInstrs(checked: bool, size: nat): seq<Instr> {
    [Malloc(ARR, size), Memset(ARR, size)]
    + (if checked then [Gep(ARRMAX, ARR, Int32(size))] else [])
    + [Gep(HEAD, ARR, Int32(size / 2))]
  }

  const END_BLOCK := Block(None, [Free(ARR)], Some(Ret))
  const ABERROR_BLOCK := Block(None, [Puts], Some(Br(END_BB)))

  function Header(checked: bool, size: nat): State {
    State([Block(None, EntryInstrs(checked, size), None), END_BLOCK]
          + (if checked then [ABERROR_BLOCK] else []),
          0, HEAD, FIRST_FREE)
  }

  /** Instructions are being added to an existing block without terminator. */
  ghost predicate Open(s: State) {
    s.cur < |s.blocks| && s.blocks[s.cur].term.None?
  }

  /** From `a` to `b` only the current block of `a` has grown, and blocks were added. */
  ghost predicate Grown(a: State, b: State) {
    && Open(a) && Open(b)
    && |a.blocks| <= |b.blocks| && a.free <= b.free
    && (b.cur == a.cur || |a.blocks| <= b.cur)
    && (forall i | 0 <= i < |a.blocks| && i != a.cur :: b.blocks[i] == a.blocks[i])
    && a.blocks[a.cur].phi == b.blocks[a.cur].phi
    && a.blocks[a.cur].instrs <= b.blocks[a.cur].instrs
    && (a.head < a.free ==> b.head < b.free)
  }

  lemma GrownTrans(a: State, b: State, c: State)
    requires Grown(a, b) && Grown(b, c)
    ensures Grown(a, c)
  {
  }

  function Emit(s: State, instrs: seq<Instr>, used: nat): (r: State)
    requires s.cur < |s.blocks|
    ensures Open(s) ==> Grown(s, r)
  {
    var b := s.blocks[s.cur];
    s.(blocks := s.blocks[s.cur := b.(instrs := b.instrs + instrs)], free := s.free + used)
  }

  function Terminate(s: State, t: Term): State
    requires s.cur < |s.blocks|
  {
    s.(blocks := s.blocks[s.cur := s.blocks[s.cur].(term := Some(t))])
  }

  function ReadCode(s: State): seq<Instr> {
    [GetChar(s.free), Trunc(s.free + 1, s.free), Store(s.free + 1, s.head)]
  }

  function WriteCode(s: State): seq<Instr> {
    [Load(s.free, s.head), SExt(s.free + 1, s.free), PutChar(s.free + 1)]
  }

  function ChangeCode(s: State, v: int): seq<Instr> {
    [Load(s.free, s.head), AddI8(s.free + 1, s.free, Low8(v)), Store(s.free + 1, s.head)]
  }

  function CheckCode(s: State): seq<Instr> {
    [ICmpUge(s.free, s.head, ARRMAX), ICmpUlt(s.free + 1, s.head, ARR), Or(s.free + 2, s.free, s.free + 1)]
  }

  function EmitRead(s: State): (r: State)
    requires s.cur < |s.blocks|
    ensures Open(s) ==> Grown(s, r)
  {
    Emit(s, ReadCode(s), 2)
  }

  function EmitWrite(s: State): (r: State)
    requires s.cur < |s.blocks|
    ensures Open(s) ==> Grown(s, r)
  {
    Emit(s, WriteCode(s), 2)
  }

  function EmitChange(s: State, v: int): (r: State)
    requires s.cur < |s.blocks|
    ensures Open(s) ==> Grown(s, r)
  {
    Emit(s, ChangeCode(s, v), 2)
  }

  function EmitMove(checked: bool, s: State, v: int): (r: State)
    requires s.cur < |s.blocks|
    ensures Open(s) ==> Grown(s, r)
  {
    var t := Emit(s, [Gep(s.free, s.head, Int32(v))], 1).(head := s.free);
    if checked then EmitCheck(t) else t
  }

  /** A test that the head is on the tape, and a new block for when it is. */
  function EmitCheck(s: State): (r: State)
    requires s.cur < |s.blocks|
    ensures Open(s) ==> Grown(s, r)
  {
    var t := Emit(s, CheckCode(s), 3);
    var w := Terminate(t, CondBr(s.free + 2, ABERROR_BB, |t.blocks|));
    w.(blocks := w.blocks + [Block(None, [], None)], cur := |t.blocks|)
  }

  /** '[': a test block that so far only has half a phi, and a body block. */
  function OpenLoop(s: State): State
    requires s.cur < |s.blocks|
  {
    var test := |s.blocks|;
    var t := Terminate(s, Br(test));
    State(t.blocks + [Block(Some(Phi(s.free, [(s.head, s.cur)])), [], None), Block(None, [], None)],
          test + 1, s.free, s.free + 1)
  }

  /** ']': completes the phi and the test, and goes on after the loop. */
  function CloseLoop(s: State, phi: Reg, body: nat, test: nat): State
    requires s.cur < |s.blocks| && test < |s.blocks| && s.blocks[test].phi.Some?
  {
    var t := Terminate(s, Br(test));
    var p := t.blocks[test].phi.value;
    var tb := Block(Some(p.(incoming := p.incoming + [(s.head, s.cur)])),
                    t.blocks[test].instrs + [Load(s.free, phi), ICmpEqZero(s.free + 1, s.free)],
                    Some(CondBr(s.free + 1, |s.blocks|, body)));
    State(t.blocks[test := tb] + [Block(Some(Phi(s.free + 2, [(phi, test)])), [], None)],
          |s.blocks|, s.free + 2, s.free + 3)
  }

  /** The test block waits, untouched, while the body is emitted. */
  lemma LoopGrows(s: State, e: State)
    requires Open(s) && Grown(OpenLoop(s), e)
    ensures var o := OpenLoop(s);
      && Open(o)
      && |s.blocks| < |e.blocks| && e.cur != |s.blocks|
      && e.blocks[|s.blocks|] == o.blocks[|s.blocks|]
      && Grown(s, CloseLoop(e, o.head, o.cur, |s.blocks|))
  {
    var o := OpenLoop(s);
    assert e.blocks[|s.blocks|] == o.blocks[|s.blocks|];
    assert forall i | 0 <= i < |s.blocks| && i != s.cur :: o.blocks[i] == s.blocks[i];
  }

  function Closed(s: State, e: State): State
    requires Open(s) && Grown(OpenLoop(s), e)
    ensures Grown(s, Closed(s, e))
  {
    LoopGrows(s, e);
    CloseLoop(e, s.free, |s.blocks| + 1, |s.blocks|)
  }

  /** The state after the first command; its loops have already been emitted. */
  function First(checked: bool, s: State, c: Code): (t: State)
    requires Open(s) && !c.Done?
    ensures Grown(s, t)
    decreases c, 0
  {
    match c
    case Move(v, _) => EmitMove(checked, s, v)
    case Change(v, _) => EmitChange(s, v)
    case Read(_) => EmitRead(s)
    case Write(_) => EmitWrite(s)
    case Loop(b, _) => Closed(s, Gen(checked, OpenLoop(s), b))
  }

  function Gen(checked: bool, s: State, c: Code): (r: State)
    requires Open(s)
    ensures Grown(s, r)
    decreases c, 1
  {
    if c.Done? then s
    else
      var t := First(checked, s, c);
      var r := Gen(checked, t, c.next);
      GrownTrans(s, t, r);
      r
  }

  lemma GenStep(checked: bool, s: State, c: Code)
    requires Open(s) && !c.Done?
    ensures Gen(checked, s, c) == Gen(checked, First(checked, s, c), c.next)
  {
  }

  /** The whole function for a program. */
  function Program(checked: bool, size: nat, c: Code): Cfg {
    Terminate(Gen(checked, Header(checked, size), c), Br(END_BB)).blocks
  }
}
