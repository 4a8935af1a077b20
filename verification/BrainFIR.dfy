/**
 The part of LLVM's intermediate representation that BrainF emits, with its meaning.
 A function is a sequence of basic blocks; block 0 is the entry.  Values are integers
 held in registers: an i1 is 0 or 1, an i8 is 0..255, a pointer is an address below
 `Env.space`, and address arithmetic wraps around there.
 */
module BrainFIR {
  import opened Wrappers
  import opened BrainFSource

  type Reg = nat

  datatype Instr =
    | Malloc(d: Reg, size: nat)
    | Memset(p: Reg, size: nat)
    | Gep(d: Reg, p: Reg, offset: int)
    | ICmpUge(d: Reg, a: Reg, b: Reg)
    | ICmpUlt(d: Reg, a: Reg, b: Reg)
    | Or(d: Reg, a: Reg, b: Reg)
    | ICmpEqZero(d: Reg, a: Reg)
    | Load(d: Reg, p: Reg)
    | Store(a: Reg, p: Reg)
    | AddI8(d: Reg, a: Reg, imm: byte)
    | Trunc(d: Reg, a: Reg)
    | SExt(d: Reg, a: Reg)
    | GetChar(d: Reg)
    | PutChar(a: Reg)
    | Puts
    | Free(p: Reg)

  datatype Term =
    | Br(target: nat)
    | CondBr(cond: Reg, thn: nat, els: nat)
    | Ret

  /** A phi node: its value is that of the register paired with the block control came from. */
  datatype Phi = Phi(d: Reg, incoming: seq<(Reg, nat)>)

  datatype Block = Block(phi: Option<Phi>, instrs: seq<Instr>, term: Option<Term>)

  type Cfg = seq<Block>

  /** Registers an instruction reads, and the register it defines. */
  function Uses(i: Instr): set<Reg> {
    match i
    case Malloc(_, _) => {}
    case Memset(p, _) => {p}
    case Gep(_, p, _) => {p}
    case ICmpUge(_, a, b) => {a, b}
    case ICmpUlt(_, a, b) => {a, b}
    case Or(_, a, b) => {a, b}
    case ICmpEqZero(_, a) => {a}
    case Load(_, p) => {p}
    case Store(a, p) => {a, p}
    case AddI8(_, a, _) => {a}
    case Trunc(_, a) => {a}
    case SExt(_, a) => {a}
    case GetChar(_) => {}
    case PutChar(a) => {a}
    case Puts => {}
    case Free(p) => {p}
  }

  function Def(i: Instr): set<Reg> {
    match i
    case Malloc(d, _) => {d}
    case Gep(d, _, _) => {d}
    case ICmpUge(d, _, _) => {d}
    case ICmpUlt(d, _, _) => {d}
    case Or(d, _, _) => {d}
    case ICmpEqZero(d, _) => {d}
    case Load(d, _) => {d}
    case AddI8(d, _, _) => {d}
    case Trunc(d, _) => {d}
    case SExt(d, _) => {d}
    case GetChar(d) => {d}
    case _ => {}
  }

  // ----------------------------------------------------------------- meaning

  /** Where malloc puts the tape, the size of the address space, and the byte that
      uninitialised memory happens to hold. */
  datatype Env = Env(base: nat, space: nat, fill: byte)

  /** Position, registers, the one object with what it holds and whether it is allocated,
      streams, and messages printed. */
  datatype Config = Config(
    bb: nat, idx: nat, regs: map<Reg, int>,
    tape: seq<byte>, live: bool, inp: seq<byte>, out: seq<byte>, errors: nat)

  /** A run returns, with an object that may still be allocated, or performs something
      undefined: an access outside the allocated object or after it has been freed, freeing
      it again, allocating it twice, an unset register, a missing block. */
  datatype Result =
    | Returned(tape: seq<byte>, live: bool, inp: seq<byte>, out: seq<byte>, errors: nat)
    | Crashed(out: seq<byte>)

  datatype Status = At(c: Config) | Stopped(r: Result)

  /** The value of a signed 8-bit number, and of the low 8 bits of any number. */
  function Signed8(x: byte): (y: int)
    ensures -128 <= y < 128 && Low8(y) == x
  {
    if x < 128 then x else x - 256
  }

  function Low8(x: int): byte { x % 256 }

  function Next(c: Config): Status { At(c.(idx := c.idx + 1)) }

  function Define(c: Config, d: Reg, v: int): Status {
    Next(c.(regs := c.regs[d := v]))
  }

  function InObject(env: Env, c: Config, p: int): bool {
    c.live && env.base <= p < env.base + |c.tape|
  }

  function StepInstr(env: Env, c: Config, i: Instr): Status
    requires Uses(i) <= c.regs.Keys
    requires env.space > 0
  {
    match i
    case Malloc(d, size) =>
      if c.live then Stopped(Crashed(c.out))
      else Define(c.(tape := seq(size, _ => env.fill), live := true), d, env.base)
    case Memset(p, size) =>
      if !c.live || c.regs[p] != env.base || size != |c.tape| then Stopped(Crashed(c.out))
      else Next(c.(tape := seq(size, _ => 0)))
    case Gep(d, p, offset) => Define(c, d, (c.regs[p] + offset) % env.space)
    case ICmpUge(d, a, b) => Define(c, d, if c.regs[a] >= c.regs[b] then 1 else 0)
    case ICmpUlt(d, a, b) => Define(c, d, if c.regs[a] < c.regs[b] then 1 else 0)
    case Or(d, a, b) => Define(c, d, if c.regs[a] != 0 || c.regs[b] != 0 then 1 else 0)
    case ICmpEqZero(d, a) => Define(c, d, if c.regs[a] == 0 then 1 else 0)
    case Load(d, p) =>
      if !InObject(env, c, c.regs[p]) then Stopped(Crashed(c.out))
      else Define(c, d, c.tape[c.regs[p] - env.base])
    case Store(a, p) =>
      if !InObject(env, c, c.regs[p]) then Stopped(Crashed(c.out))
      else Next(c.(tape := c.tape[c.regs[p] - env.base := Low8(c.regs[a])]))
    case AddI8(d, a, imm) => Define(c, d, Low8(c.regs[a] + imm))
    case Trunc(d, a) => Define(c, d, Low8(c.regs[a]))
    case SExt(d, a) => Define(c, d, Signed8(Low8(c.regs[a])))
    case GetChar(d) =>
      if c.inp == [] then Define(c, d, -1) else Define(c.(inp := c.inp[1..]), d, c.inp[0])
    case PutChar(a) => Next(c.(out := c.out + [Low8(c.regs[a])]))
    case Puts => Next(c.(errors := c.errors + 1))
    case Free(p) =>
      if !c.live || c.regs[p] != env.base then Stopped(Crashed(c.out)) else Next(c.(live := false))
  }

  /** The register a phi takes its value from when control comes from `pred`. */
  function Incoming(incoming: seq<(Reg, nat)>, pred: nat): Option<Reg> {
    if incoming == [] then None
    else if incoming[0].1 == pred then Some(incoming[0].0)
    else Incoming(incoming[1..], pred)
  }

  /** Control passes from block `c.bb` to the start of `target`. */
  function Jump(cfg: Cfg, c: Config, target: nat): Status {
    if target >= |cfg| then Stopped(Crashed(c.out))
    else
      match cfg[target].phi
      case None => At(c.(bb := target, idx := 0))
      case Some(phi) =>
        match Incoming(phi.incoming, c.bb)
        case None => Stopped(Crashed(c.out))
        case Some(r) =>
          if r !in c.regs then Stopped(Crashed(c.out))
          else At(c.(bb := target, idx := 0, regs := c.regs[phi.d := c.regs[r]]))
  }

  function StepTerm(cfg: Cfg, c: Config, t: Term): Status {
    match t
    case Br(target) => Jump(cfg, c, target)
    case CondBr(r, thn, els) =>
      if r !in c.regs then Stopped(Crashed(c.out))
      else Jump(cfg, c, if c.regs[r] != 0 then thn else els)
    case Ret => Stopped(Returned(c.tape, c.live, c.inp, c.out, c.errors))
  }

  function Step(cfg: Cfg, env: Env, c: Config): Status
    requires env.space > 0
  {
    if c.bb >= |cfg| then Stopped(Crashed(c.out))
    else
      var b := cfg[c.bb];
      if c.idx < |b.instrs| then
        if Uses(b.instrs[c.idx]) <= c.regs.Keys then StepInstr(env, c, b.instrs[c.idx])
        else Stopped(Crashed(c.out))
      else if b.term.None? then Stopped(Crashed(c.out))
      else StepTerm(cfg, c, b.term.value)
  }

  function Run(cfg: Cfg, env: Env, n: nat, s: Status): Status
    requires env.space > 0
    decreases n
  {
    if n == 0 || s.Stopped? then s else Run(cfg, env, n - 1, Step(cfg, env, s.c))
  }

  /** The configuration in which a function is entered. */
  function Entry(inp: seq<byte>): Config {
    Config(0, 0, map[], [], false, inp, [], 0)
  }

  lemma {:induction false} RunAdd(cfg: Cfg, env: Env, n: nat, m: nat, s: Status)
    requires env.space > 0
    ensures Run(cfg, env, n + m, s) == Run(cfg, env, m, Run(cfg, env, n, s))
    decreases n
  {
    hide Step;
    if n > 0 && s.At? {
      RunAdd(cfg, env, n - 1, m, Step(cfg, env, s.c));
    }
  }

  /** A function has at most one result. */
  lemma {:induction false} RunOnce(cfg: Cfg, env: Env, n: nat, m: nat, s: Status)
    requires env.space > 0 && n <= m && Run(cfg, env, n, s).Stopped?
    ensures Run(cfg, env, m, s) == Run(cfg, env, n, s)
  {
    RunAdd(cfg, env, n, m - n, s);
  }
}
