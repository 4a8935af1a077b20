/**
 Every function BrainF emits is in static single assignment form: all blocks are
 terminated, each phi lists exactly the predecessors of its block, no register is defined
 twice, and on every path from the entry a register is defined before it is used.
 */
module BrainFSSA {
  import opened Wrappers
  import opened BrainFSource
  import opened BrainFIR
  import opened BrainFGen

  function Targets(b: Block): set<nat> {
    match b.term
    case Some(Br(t)) => {t}
    case Some(CondBr(_, thn, els)) => {thn, els}
    case _ => {}
  }

  // ---------------------------------------------------------- shape of the graph

  /** Only `cur` and the tests of loops still open have no terminator, control never
      returns to the entry, and no branch leads out of the function. */
  ghost predicate Shaped(blocks: Cfg, unfinished: set<nat>) {
    forall b | 0 <= b < |blocks| ::
      && (blocks[b].term == None <==> b in unfinished)
      && (forall t | t in Targets(blocks[b]) :: 0 < t < |blocks|)
  }

  /** The phi of block `b` has one operand for each predecessor of `b`, and no other. */
  ghost predicate PhiMatches(blocks: Cfg, b: nat)
    requires b < |blocks|
  {
    blocks[b].phi.Some? ==>
      var inc := blocks[b].phi.value.incoming;
      && (forall k | 0 <= k < |inc| :: inc[k].1 < |blocks| && b in Targets(blocks[inc[k].1]))
      && (forall j, k | 0 <= j < k < |inc| :: inc[j].1 != inc[k].1)
      && (forall p | 0 <= p < |blocks| && b in Targets(blocks[p]) :: HasIncoming(inc, p))
  }

  ghost predicate HasIncoming(inc: seq<(Reg, nat)>, p: nat) {
    exists k :: 0 <= k < |inc| && inc[k].1 == p
  }

  /** The blocks every program shares carry no phi. */
  ghost predicate Plain(checked: bool, blocks: Cfg) {
    && |blocks| > END_BB && blocks[0].phi == None && blocks[END_BB].phi == None
    && (checked ==> |blocks| > ABERROR_BB && blocks[ABERROR_BB].phi == None)
  }

  ghost predicate Graph(checked: bool, blocks: Cfg, unfinished: set<nat>) {
    && Plain(checked, blocks) && Shaped(blocks, unfinished)
    && forall b | 0 <= b < |blocks| :: PhiMatches(blocks, b)
  }

  lemma EmitGraph(checked: bool, s: State, instrs: seq<Instr>, used: nat, u: set<nat>)
    requires s.cur < |s.blocks| && Graph(checked, s.blocks, u)
    ensures Graph(checked, Emit(s, instrs, used).blocks, u)
  {
    var bs := Emit(s, instrs, used).blocks;
    assert forall b | 0 <= b < |bs| :: Targets(bs[b]) == Targets(s.blocks[b]) && bs[b].phi == s.blocks[b].phi;
    forall b | 0 <= b < |bs| ensures PhiMatches(bs, b) {
      assert PhiMatches(s.blocks, b);
    }
  }

  /** A new block without predecessors, whose phi, if any, has no operands yet. */
  lemma AddBlockGraph(checked: bool, blocks: Cfg, u: set<nat>, phi: Option<Phi>)
    requires Graph(checked, blocks, u) && |blocks| !in u
    requires phi.Some? ==> phi.value.incoming == []
    ensures Graph(checked, blocks + [Block(phi, [], None)], u + {|blocks|})
  {
    var bs := blocks + [Block(phi, [], None)];
    forall b | 0 <= b < |bs| ensures PhiMatches(bs, b) {
      if b < |blocks| { assert PhiMatches(blocks, b); }
    }
  }

  /** Ending a block with branches to blocks without a phi. */
  lemma BranchGraph(checked: bool, blocks: Cfg, u: set<nat>, p: nat, t: Term)
    requires Graph(checked, blocks, u) && p in u && p < |blocks|
    requires forall x | x in Targets(Block(None, [], Some(t))) :: 0 < x < |blocks| && blocks[x].phi == None
    ensures Graph(checked, blocks[p := blocks[p].(term := Some(t))], u - {p})
  {
    var bs := blocks[p := blocks[p].(term := Some(t))];
    forall b | 0 <= b < |bs| ensures PhiMatches(bs, b) {
      assert PhiMatches(blocks, b);
      assert forall q | 0 <= q < |bs| && b in Targets(bs[q]) && bs[b].phi.Some? :: b in Targets(blocks[q]);
    }
  }

  function AddOperand(b: Block, r: Reg, from: nat): Block
    requires b.phi.Some?
  {
    b.(phi := Some(b.phi.value.(incoming := b.phi.value.incoming + [(r, from)])))
  }

  /** Ending a block with branches of which one leads to a block whose phi gets the
      matching operand, and the others to blocks without a phi. */
  lemma BranchToPhiGraph(checked: bool, blocks: Cfg, u: set<nat>, p: nat, t: Term, test: nat, r: Reg)
    requires Graph(checked, blocks, u) && p in u && p < |blocks| && 0 < test < |blocks| && p != test
    requires blocks[test].phi.Some? && test in Targets(Block(None, [], Some(t)))
    requires forall x | x in Targets(Block(None, [], Some(t))) && x != test :: 0 < x < |blocks| && blocks[x].phi == None
    ensures Graph(checked, blocks[p := blocks[p].(term := Some(t))][test := AddOperand(blocks[test], r, p)], u - {p})
  {
    var bs := blocks[p := blocks[p].(term := Some(t))][test := AddOperand(blocks[test], r, p)];
    assert Targets(bs[p]) == Targets(Block(None, [], Some(t)));
    assert forall b | 0 <= b < |bs| && b != p :: Targets(bs[b]) == Targets(blocks[b]);
    forall b | 0 <= b < |bs| ensures PhiMatches(bs, b) {
      if b == test {
        OperandMatches(blocks, bs, p, test, r);
      } else {
        assert PhiMatches(blocks, b);
      }
    }
  }

  lemma OperandMatches(blocks: Cfg, bs: Cfg, p: nat, test: nat, r: Reg)
    requires |bs| == |blocks| && p < |bs| && test < |bs| && p != test
    requires blocks[test].phi.Some? && PhiMatches(blocks, test) && bs[test] == AddOperand(blocks[test], r, p)
    requires blocks[p].term == None && test in Targets(bs[p])
    requires forall b | 0 <= b < |bs| && b != p :: Targets(bs[b]) == Targets(blocks[b])
    ensures PhiMatches(bs, test)
  {
    var inc := blocks[test].phi.value.incoming;
    var inc' := bs[test].phi.value.incoming;
    forall q | 0 <= q < |bs| && test in Targets(bs[q]) ensures HasIncoming(inc', q) {
      if q == p {
        assert inc'[|inc|].1 == p;
      } else {
        assert HasIncoming(inc, q);
        var k :| 0 <= k < |inc| && inc[k].1 == q;
        assert inc'[k].1 == q;
      }
    }
  }

  // ------------------------------------------------ the graph of emitted code

  lemma CheckGraph(checked: bool, s: State, u: set<nat>)
    requires checked && Open(s) && Graph(checked, s.blocks, u) && s.cur in u && |s.blocks| !in u
    ensures Graph(checked, EmitCheck(s).blocks, u - {s.cur} + {|s.blocks|})
  {
    var t := Emit(s, CheckCode(s), 3);
    EmitGraph(checked, s, CheckCode(s), 3, u);
    AddBlockGraph(checked, t.blocks, u, None);
    var bs := t.blocks + [Block(None, [], None)];
    var br := CondBr(s.free + 2, ABERROR_BB, |t.blocks|);
    BranchGraph(checked, bs, u + {|s.blocks|}, s.cur, br);
    assert EmitCheck(s).blocks == bs[s.cur := bs[s.cur].(term := Some(br))];
    assert u + {|s.blocks|} - {s.cur} == u - {s.cur} + {|s.blocks|};
  }

  lemma OpenGraph(checked: bool, s: State, u: set<nat>)
    requires Open(s) && Graph(checked, s.blocks, u) && s.cur in u && |s.blocks| !in u && |s.blocks| + 1 !in u
    ensures Graph(checked, OpenLoop(s).blocks, u - {s.cur} + {|s.blocks|} + {|s.blocks| + 1})
  {
    var test := |s.blocks|;
    var phi := Some(Phi(s.free, []));
    AddBlockGraph(checked, s.blocks, u, phi);
    var bs := s.blocks + [Block(phi, [], None)];
    BranchToPhiGraph(checked, bs, u + {test}, s.cur, Br(test), test, s.head);
    var cs := bs[s.cur := bs[s.cur].(term := Some(Br(test)))][test := AddOperand(bs[test], s.head, s.cur)];
    AddBlockGraph(checked, cs, u + {test} - {s.cur}, None);
    assert [] + [(s.head, s.cur)] == [(s.head, s.cur)];
    assert OpenLoop(s).blocks == cs + [Block(None, [], None)];
    assert u + {test} - {s.cur} + {test + 1} == u - {s.cur} + {test} + {test + 1};
  }

  lemma CloseGraph(checked: bool, s: State, phi: Reg, body: nat, test: nat, u: set<nat>)
    requires Open(s) && Graph(checked, s.blocks, u) && s.cur in u && test in u && test != s.cur && |s.blocks| !in u
    requires 0 < test < |s.blocks| && s.blocks[test].phi.Some? && 0 < body < |s.blocks| && s.blocks[body].phi == None
    ensures Graph(checked, CloseLoop(s, phi, body, test).blocks, u - {s.cur} - {test} + {|s.blocks|})
  {
    var exit := |s.blocks|;
    BranchToPhiGraph(checked, s.blocks, u, s.cur, Br(test), test, s.head);
    var bs := s.blocks[s.cur := s.blocks[s.cur].(term := Some(Br(test)))][test := AddOperand(s.blocks[test], s.head, s.cur)];
    var code := [Load(s.free, phi), ICmpEqZero(s.free + 1, s.free)];
    EmitGraph(checked, State(bs, test, 0, 0), code, 2, u - {s.cur});
    var cs := bs[test := bs[test].(instrs := bs[test].instrs + code)];
    var p := Some(Phi(s.free + 2, []));
    AddBlockGraph(checked, cs, u - {s.cur}, p);
    var ds := cs + [Block(p, [], None)];
    var br := CondBr(s.free + 1, exit, body);
    BranchToPhiGraph(checked, ds, u - {s.cur} + {exit}, test, br, exit, phi);
    CloseLoopBlocks(s, phi, body, test, bs, ds, br);
    assert u - {s.cur} + {exit} - {test} == u - {s.cur} - {test} + {exit};
  }

  lemma CloseLoopBlocks(s: State, phi: Reg, body: nat, test: nat, bs: Cfg, ds: Cfg, br: Term)
    requires s.cur < |s.blocks| && test < |s.blocks| && test != s.cur && s.blocks[test].phi.Some?
    requires bs == s.blocks[s.cur := s.blocks[s.cur].(term := Some(Br(test)))]
                           [test := AddOperand(s.blocks[test], s.head, s.cur)]
    requires ds == bs[test := bs[test].(instrs := bs[test].instrs + [Load(s.free, phi), ICmpEqZero(s.free + 1, s.free)])]
                   + [Block(Some(Phi(s.free + 2, [])), [], None)]
    requires br == CondBr(s.free + 1, |s.blocks|, body)
    ensures CloseLoop(s, phi, body, test).blocks
         == ds[test := ds[test].(term := Some(br))][|s.blocks| := AddOperand(ds[|s.blocks|], phi, test)]
  {
    assert [] + [(phi, test)] == [(phi, test)];
  }

  /** The current block of the final state takes the place of that of the first. */
  lemma {:induction false} GenGraph(checked: bool, s: State, c: Code, u: set<nat>)
    requires Open(s) && Graph(checked, s.blocks, u) && s.cur in u
    requires forall x | x in u :: x < |s.blocks|
    ensures var r := Gen(checked, s, c); Graph(checked, r.blocks, u - {s.cur} + {r.cur})
    decreases c, 1
  {
    if c.Done? {
      assert u - {s.cur} + {s.cur} == u;
    } else {
      var t := First(checked, s, c);
      FirstGraph(checked, s, c, u);
      var u' := u - {s.cur} + {t.cur};
      GenGraph(checked, t, c.next, u');
      assert t.cur == s.cur || t.cur !in u;
      assert u' - {t.cur} == u - {s.cur};
    }
  }

  lemma {:induction false} FirstGraph(checked: bool, s: State, c: Code, u: set<nat>)
    requires Open(s) && Graph(checked, s.blocks, u) && s.cur in u && !c.Done?
    requires forall x | x in u :: x < |s.blocks|
    ensures var t := First(checked, s, c); Graph(checked, t.blocks, u - {s.cur} + {t.cur})
    decreases c, 0
  {
    assert u - {s.cur} + {s.cur} == u;
    match c
    case Move(v, _) =>
      var gep := [Gep(s.free, s.head, Int32(v))];
      EmitGraph(checked, s, gep, 1, u);
      if checked { CheckGraph(checked, Emit(s, gep, 1).(head := s.free), u); }
    case Change(v, _) =>
      EmitGraph(checked, s, ChangeCode(s, v), 2, u);
    case Read(_) =>
      EmitGraph(checked, s, ReadCode(s), 2, u);
    case Write(_) =>
      EmitGraph(checked, s, WriteCode(s), 2, u);
    case Loop(b, _) =>
      LoopGraph(checked, s, b, u);
  }

  lemma LoopEndGraph(checked: bool, s: State, e: State, u: set<nat>)
    requires Open(s) && Grown(OpenLoop(s), e) && Graph(checked, e.blocks, u)
    requires e.cur in u && |s.blocks| in u && |e.blocks| !in u
    ensures Graph(checked, Closed(s, e).blocks, u - {e.cur} - {|s.blocks|} + {|e.blocks|})
  {
    var o := OpenLoop(s);
    LoopGrows(s, e);
    assert e.blocks[o.cur].phi == o.blocks[o.cur].phi == None;
    CloseGraph(checked, e, s.free, o.cur, |s.blocks|, u);
  }

  lemma {:induction false} LoopGraph(checked: bool, s: State, b: Code, u: set<nat>)
    requires Open(s) && Graph(checked, s.blocks, u) && s.cur in u
    requires forall x | x in u :: x < |s.blocks|
    ensures var t := Closed(s, Gen(checked, OpenLoop(s), b)); Graph(checked, t.blocks, u - {s.cur} + {t.cur})
    decreases b, 2
  {
    var o, test := OpenLoop(s), |s.blocks|;
    var e := Gen(checked, o, b);
    OpenGraph(checked, s, u);
    var u1 := u - {s.cur} + {test} + {o.cur};
    GenGraph(checked, o, b, u1);
    var u2 := u1 - {o.cur} + {e.cur};
    LoopEndGraph(checked, s, e, u2);
    assert u2 - {e.cur} - {test} + {|e.blocks|} == u - {s.cur} + {|e.blocks|};
  }

  /** Every program's graph is complete: all blocks terminated, all phis matching. */
  lemma ProgramGraph(checked: bool, size: nat, c: Code)
    ensures Graph(checked, Program(checked, size, c), {})
  {
    var h := Header(checked, size);
    GenGraph(checked, h, c, {0});
    var g := Gen(checked, h, c);
    assert {0} - {0} + {g.cur} == {g.cur};
    BranchGraph(checked, g.blocks, {g.cur}, g.cur, Br(END_BB));
    assert {g.cur} - {g.cur} == {};
  }

  // --------------------------------------------------------- single definitions

  function InstrDefs(instrs: seq<Instr>): set<Reg> {
    if instrs == [] then {} else InstrDefs(instrs[..|instrs| - 1]) + Def(instrs[|instrs| - 1])
  }

  function PhiDef(b: Block): set<Reg> {
    if b.phi.Some? then {b.phi.value.d} else {}
  }

  function Defs(b: Block): set<Reg> {
    PhiDef(b) + InstrDefs(b.instrs)
  }

  /** No two definitions in a row of instructions, nor one of `before`, name the same register. */
  ghost predicate DefinedOnce(before: set<Reg>, instrs: seq<Instr>) {
    instrs != [] ==>
      var init, last := instrs[..|instrs| - 1], instrs[|instrs| - 1];
      DefinedOnce(before, init) && Def(last) !! before + InstrDefs(init)
  }

  /** Registers are defined at most once in the whole function, and are below `free`. */
  ghost predicate SingleDefs(blocks: Cfg, free: Reg) {
    && (forall b | 0 <= b < |blocks| :: DefinedOnce(PhiDef(blocks[b]), blocks[b].instrs))
    && (forall b, r | 0 <= b < |blocks| && r in Defs(blocks[b]) :: r < free)
    && (forall a, b | 0 <= a < b < |blocks| :: Defs(blocks[a]) !! Defs(blocks[b]))
  }

  lemma InstrDefsLast(instrs: seq<Instr>, i: Instr)
    ensures InstrDefs(instrs + [i]) == InstrDefs(instrs) + Def(i)
  {
    assert (instrs + [i])[..|instrs|] == instrs;
  }

  /** One more instruction, defining nothing or the next register. */
  lemma AppendSingle(blocks: Cfg, free: Reg, b: nat, i: Instr, free': Reg)
    requires b < |blocks| && SingleDefs(blocks, free) && free <= free'
    requires forall r | r in Def(i) :: free <= r < free'
    ensures SingleDefs(blocks[b := blocks[b].(instrs := blocks[b].instrs + [i])], free')
  {
    var is0 := blocks[b].instrs;
    var bs := blocks[b := blocks[b].(instrs := is0 + [i])];
    InstrDefsLast(is0, i);
    assert (is0 + [i])[..|is0|] == is0;
    assert Defs(bs[b]) == Defs(blocks[b]) + Def(i);
    assert DefinedOnce(PhiDef(blocks[b]), is0);
    forall a, c | 0 <= a < c < |bs| ensures Defs(bs[a]) !! Defs(bs[c]) {
      assert Defs(blocks[a]) !! Defs(blocks[c]);
    }
  }

  lemma EmitTwice(s: State, a: seq<Instr>, i: Instr, used: nat)
    requires s.cur < |s.blocks|
    ensures Emit(s, a + [i], used).blocks
         == (var t := Emit(s, a, used); t.blocks[s.cur := t.blocks[s.cur].(instrs := t.blocks[s.cur].instrs + [i])])
  {
    assert s.blocks[s.cur].instrs + (a + [i]) == s.blocks[s.cur].instrs + a + [i];
  }

  /** Several instructions that define `s.free` and the registers after it in order. */
  ghost predicate InOrder(free: Reg, instrs: seq<Instr>, used: nat) {
    if instrs == [] then used == 0
    else
      var last := Def(instrs[|instrs| - 1]);
      if last == {} then InOrder(free, instrs[..|instrs| - 1], used)
      else used > 0 && last == {free + used - 1} && InOrder(free, instrs[..|instrs| - 1], used - 1)
  }

  lemma {:induction false} EmitSingle(s: State, instrs: seq<Instr>, used: nat)
    requires s.cur < |s.blocks| && SingleDefs(s.blocks, s.free) && InOrder(s.free, instrs, used)
    ensures SingleDefs(Emit(s, instrs, used).blocks, s.free + used)
    decreases |instrs|
  {
    if instrs == [] {
      assert s.blocks[s.cur].instrs + [] == s.blocks[s.cur].instrs;
      assert Emit(s, [], used).blocks == s.blocks;
    } else {
      var init, last := instrs[..|instrs| - 1], instrs[|instrs| - 1];
      var n := if Def(last) == {} then used else used - 1;
      EmitSingle(s, init, n);
      assert init + [last] == instrs;
      EmitTwice(s, init, last, used);
      AppendSingle(Emit(s, init, n).blocks, s.free + n, s.cur, last, s.free + used);
    }
  }

  /** Terminators and phi operands define nothing, and a phi defines one register. */
  lemma SameDefsSingle(blocks: Cfg, bs: Cfg, free: Reg)
    requires SingleDefs(blocks, free) && |bs| == |blocks|
    requires forall b | 0 <= b < |bs| :: bs[b].instrs == blocks[b].instrs && PhiDef(bs[b]) == PhiDef(blocks[b])
    ensures SingleDefs(bs, free)
  {
    assert forall b | 0 <= b < |bs| :: Defs(bs[b]) == Defs(blocks[b]);
    forall b | 0 <= b < |bs| ensures DefinedOnce(PhiDef(bs[b]), bs[b].instrs) {
      assert DefinedOnce(PhiDef(blocks[b]), blocks[b].instrs);
    }
    forall a, c | 0 <= a < c < |bs| ensures Defs(bs[a]) !! Defs(bs[c]) {
      assert Defs(blocks[a]) !! Defs(blocks[c]);
    }
  }

  lemma AddBlockSingle(blocks: Cfg, free: Reg, phi: Option<Phi>, free': Reg)
    requires SingleDefs(blocks, free) && free <= free'
    requires phi.Some? ==> free <= phi.value.d < free'
    ensures SingleDefs(blocks + [Block(phi, [], None)], free')
  {
    var bs := blocks + [Block(phi, [], None)];
    forall a, c | 0 <= a < c < |bs| ensures Defs(bs[a]) !! Defs(bs[c]) {
      if c < |blocks| { assert Defs(blocks[a]) !! Defs(blocks[c]); }
    }
  }

  lemma CheckSingle(s: State)
    requires Open(s) && SingleDefs(s.blocks, s.free)
    ensures SingleDefs(EmitCheck(s).blocks, EmitCheck(s).free)
  {
    ThreeInOrder(s.free, CheckCode(s));
    EmitSingle(s, CheckCode(s), 3);
    var t := Emit(s, CheckCode(s), 3);
    AddBlockSingle(t.blocks, t.free, None, t.free);
    SameDefsSingle(t.blocks + [Block(None, [], None)], EmitCheck(s).blocks, t.free);
  }

  lemma ThreeInOrder(free: Reg, is0: seq<Instr>)
    requires |is0| == 3 && Def(is0[0]) == {free} && Def(is0[1]) == {free + 1}
    requires Def(is0[2]) == {free + 2} || Def(is0[2]) == {}
    ensures InOrder(free, is0, if Def(is0[2]) == {} then 2 else 3)
  {
    assert is0[..1][..0] == [];
    assert InOrder(free, is0[..1], 1);
    assert is0[..2][..1] == is0[..1];
    assert InOrder(free, is0[..2], 2);
  }

  lemma OpenSingle(s: State)
    requires Open(s) && SingleDefs(s.blocks, s.free)
    ensures SingleDefs(OpenLoop(s).blocks, OpenLoop(s).free)
  {
    var phi := Some(Phi(s.free, [(s.head, s.cur)]));
    AddBlockSingle(s.blocks, s.free, phi, s.free + 1);
    AddBlockSingle(s.blocks + [Block(phi, [], None)], s.free + 1, None, s.free + 1);
    SameDefsSingle(s.blocks + [Block(phi, [], None)] + [Block(None, [], None)], OpenLoop(s).blocks, s.free + 1);
  }

  lemma CloseSingle(s: State, phi: Reg, body: nat, test: nat, x: State)
    requires Open(s) && SingleDefs(s.blocks, s.free) && test < |s.blocks| && test != s.cur && s.blocks[test].phi.Some?
    requires x == CloseLoop(s, phi, body, test)
    ensures SingleDefs(x.blocks, x.free)
  {
    var a, b := Load(s.free, phi), ICmpEqZero(s.free + 1, s.free);
    assert [a, b][..1] == [a] && [a][..0] == [];
    assert InOrder(s.free, [a], 1) && InOrder(s.free, [a, b], 2);
    EmitSingle(s.(cur := test), [a, b], 2);
    var t := Emit(s.(cur := test), [a, b], 2);
    var p := Some(Phi(s.free + 2, [(phi, test)]));
    AddBlockSingle(t.blocks, t.free, p, t.free + 1);
    SameDefsSingle(t.blocks + [Block(p, [], None)], x.blocks, t.free + 1);
  }

  lemma {:induction false} GenSingle(checked: bool, s: State, c: Code)
    requires Open(s) && SingleDefs(s.blocks, s.free)
    ensures SingleDefs(Gen(checked, s, c).blocks, Gen(checked, s, c).free)
    decreases c, 1
  {
    if !c.Done? {
      FirstSingle(checked, s, c);
      GenSingle(checked, First(checked, s, c), c.next);
    }
  }

  lemma {:induction false} FirstSingle(checked: bool, s: State, c: Code)
    requires Open(s) && SingleDefs(s.blocks, s.free) && !c.Done?
    ensures SingleDefs(First(checked, s, c).blocks, First(checked, s, c).free)
    decreases c, 0
  {
    match c
    case Move(v, _) =>
      var gep := Gep(s.free, s.head, Int32(v));
      assert [gep][..0] == [];
      EmitSingle(s, [gep], 1);
      if checked { CheckSingle(Emit(s, [gep], 1).(head := s.free)); }
    case Change(v, _) =>
      ThreeInOrder(s.free, ChangeCode(s, v));
      EmitSingle(s, ChangeCode(s, v), 2);
    case Read(_) =>
      ThreeInOrder(s.free, ReadCode(s));
      EmitSingle(s, ReadCode(s), 2);
    case Write(_) =>
      ThreeInOrder(s.free, WriteCode(s));
      EmitSingle(s, WriteCode(s), 2);
    case Loop(b, _) =>
      OpenSingle(s);
      GenSingle(checked, OpenLoop(s), b);
      LoopEndSingle(s, Gen(checked, OpenLoop(s), b));
  }

  lemma LoopEndSingle(s: State, e: State)
    requires Open(s) && Grown(OpenLoop(s), e) && SingleDefs(e.blocks, e.free)
    ensures SingleDefs(Closed(s, e).blocks, Closed(s, e).free)
  {
    LoopGrows(s, e);
    CloseSingle(e, s.free, |s.blocks| + 1, |s.blocks|, Closed(s, e));
  }

  function Blank(checked: bool): Cfg {
    [Block(None, [], None), END_BLOCK] + (if checked then [ABERROR_BLOCK] else [])
  }

  lemma NoDefs(i: Instr)
    requires Def(i) == {}
    ensures InstrDefs([i]) == {} && DefinedOnce({}, [i])
  {
    assert [i][..0] == [];
  }

  lemma BlankSingle(checked: bool)
    ensures SingleDefs(Blank(checked), 0)
  {
    var bs := Blank(checked);
    NoDefs(Free(ARR));
    NoDefs(Puts);
    assert forall b | 0 <= b < |bs| :: bs[b] in {Block(None, [], None), END_BLOCK, ABERROR_BLOCK};
    assert forall b | 0 <= b < |bs| :: Defs(bs[b]) == {};
  }

  lemma HeaderBlocks(checked: bool, size: nat, code: seq<Instr>)
    requires code + [Gep(HEAD, ARR, Int32(size / 2))] == EntryInstrs(checked, size)
    ensures var t := Emit(State(Blank(checked), 0, HEAD, 0), code, 0);
      Header(checked, size).blocks
        == t.blocks[0 := t.blocks[0].(instrs := t.blocks[0].instrs + [Gep(HEAD, ARR, Int32(size / 2))])]
  {
    assert [] + code == code;
  }

  lemma HeaderSingle(checked: bool, size: nat)
    ensures SingleDefs(Header(checked, size).blocks, FIRST_FREE)
  {
    BlankSingle(checked);
    var s := State(Blank(checked), 0, HEAD, 0);
    var a, b, c := Malloc(ARR, size), Memset(ARR, size), Gep(ARRMAX, ARR, Int32(size));
    assert [a, b, c][..2] == [a, b] && [a, b][..1] == [a] && [a][..0] == [];
    assert InOrder(0, [a], 1);
    assert InOrder(0, [a, b], 1);
    assert Def([a, b, c][2]) == {1};
    assert InOrder(0, [a, b, c], 2);
    var code, used := if checked then [a, b, c] else [a, b], if checked then 2 else 1;
    EmitSingle(s, code, used);
    AppendSingle(Emit(s, code, used).blocks, used, 0, Gep(HEAD, ARR, Int32(size / 2)), 3);
    HeaderBlocks(checked, size, code);
  }

  lemma ProgramSingle(checked: bool, size: nat, c: Code)
    ensures SingleDefs(Program(checked, size, c), Gen(checked, Header(checked, size), c).free)
  {
    HeaderSingle(checked, size);
    GenSingle(checked, Header(checked, size), c);
    var g := Gen(checked, Header(checked, size), c);
    SameDefsSingle(g.blocks, Program(checked, size, c), g.free);
  }

  // ------------------------------------------------------ definition before use

  /** Instruction `k` reads only registers of `avail` or defined by the `k` before it. */
  ghost predicate UsesOk(avail: set<Reg>, instrs: seq<Instr>) {
    instrs != [] ==>
      var init, last := instrs[..|instrs| - 1], instrs[|instrs| - 1];
      UsesOk(avail, init) && Uses(last) <= avail + InstrDefs(init)
  }

  function TermUses(b: Block): set<Reg> {
    match b.term
    case Some(CondBr(r, _, _)) => {r}
    case _ => {}
  }

  /** Registers defined at the end of block `b`, if those of `avail[b]` are at its start. */
  ghost function AtEnd(blocks: Cfg, avail: seq<set<Reg>>, b: nat): set<Reg>
    requires b < |blocks| == |avail|
  {
    avail[b] + Defs(blocks[b])
  }

  ghost predicate BlockFlows(blocks: Cfg, avail: seq<set<Reg>>, b: nat)
    requires b < |blocks| == |avail|
  {
    && UsesOk(avail[b] + PhiDef(blocks[b]), blocks[b].instrs)
    && TermUses(blocks[b]) <= AtEnd(blocks, avail, b)
    && (forall t | t in Targets(blocks[b]) :: t < |blocks| && avail[t] <= AtEnd(blocks, avail, b))
    && (blocks[b].phi.Some? ==> forall e | e in blocks[b].phi.value.incoming ::
          e.1 < |blocks| && e.0 in AtEnd(blocks, avail, e.1))
  }

  /** `avail` is a solution of the data flow problem "defined on every path to here". */
  ghost predicate Flows(blocks: Cfg, avail: seq<set<Reg>>) {
    && 0 < |blocks| == |avail| && avail[0] == {}
    && forall b | 0 <= b < |blocks| :: BlockFlows(blocks, avail, b)
  }

  /** What an instruction may count on, at the insertion point. */
  ghost predicate HeadReady(checked: bool, s: State, avail: seq<set<Reg>>) {
    && s.cur < |s.blocks| && Flows(s.blocks, avail)
    && ARR in AtEnd(s.blocks, avail, s.cur) && (checked ==> ARRMAX in AtEnd(s.blocks, avail, s.cur))
    && s.head in AtEnd(s.blocks, avail, s.cur)
  }

  lemma FlowAppend(blocks: Cfg, avail: seq<set<Reg>>, b: nat, i: Instr)
    requires b < |blocks| && Flows(blocks, avail) && Uses(i) <= AtEnd(blocks, avail, b)
    ensures var bs := blocks[b := blocks[b].(instrs := blocks[b].instrs + [i])];
      && Flows(bs, avail)
      && AtEnd(bs, avail, b) == AtEnd(blocks, avail, b) + Def(i)
  {
    var is0 := blocks[b].instrs;
    var bs := blocks[b := blocks[b].(instrs := is0 + [i])];
    InstrDefsLast(is0, i);
    assert (is0 + [i])[..|is0|] == is0;
    assert forall a | 0 <= a < |bs| :: AtEnd(blocks, avail, a) <= AtEnd(bs, avail, a);
    forall a | 0 <= a < |bs| ensures BlockFlows(bs, avail, a) {
      assert BlockFlows(blocks, avail, a);
    }
  }

  lemma {:induction false} FlowEmit(s: State, avail: seq<set<Reg>>, instrs: seq<Instr>, used: nat)
    requires s.cur < |s.blocks| && Flows(s.blocks, avail)
    requires UsesOk(AtEnd(s.blocks, avail, s.cur), instrs)
    ensures var bs := Emit(s, instrs, used).blocks;
      Flows(bs, avail) && AtEnd(bs, avail, s.cur) == AtEnd(s.blocks, avail, s.cur) + InstrDefs(instrs)
    decreases |instrs|
  {
    if instrs == [] {
      assert s.blocks[s.cur].instrs + [] == s.blocks[s.cur].instrs;
      assert Emit(s, [], used).blocks == s.blocks;
    } else {
      var init, last := instrs[..|instrs| - 1], instrs[|instrs| - 1];
      FlowEmit(s, avail, init, used);
      assert init + [last] == instrs;
      EmitTwice(s, init, last, used);
      FlowAppend(Emit(s, init, used).blocks, avail, s.cur, last);
    }
  }

  lemma OneUse(avail: set<Reg>, i: Instr)
    requires Uses(i) <= avail
    ensures UsesOk(avail, [i]) && InstrDefs([i]) == Def(i)
  {
    assert [i][..0] == [];
    assert InstrDefs([]) == {};
    assert avail + {} == avail;
  }

  /** Three instructions, each of which may use what the ones before it define. */
  lemma ThreeUses(avail: set<Reg>, is0: seq<Instr>)
    requires |is0| == 3 && Uses(is0[0]) <= avail && Uses(is0[1]) <= avail + Def(is0[0])
    requires Uses(is0[2]) <= avail + Def(is0[0]) + Def(is0[1])
    ensures UsesOk(avail, is0) && InstrDefs(is0) == Def(is0[0]) + Def(is0[1]) + Def(is0[2])
  {
    assert is0[..1][..0] == [];
    assert InstrDefs(is0[..1]) == Def(is0[0]);
    assert is0[..2][..1] == is0[..1];
    assert InstrDefs(is0[..2]) == Def(is0[0]) + Def(is0[1]);
    assert UsesOk(avail, is0[..2]);
  }

  /** A new block whose phi operands are defined where they come from. */
  lemma FlowAddBlock(blocks: Cfg, avail: seq<set<Reg>>, phi: Option<Phi>, at: set<Reg>)
    requires Flows(blocks, avail)
    requires phi.Some? ==> forall e | e in phi.value.incoming :: e.1 < |blocks| && e.0 in AtEnd(blocks, avail, e.1)
    ensures Flows(blocks + [Block(phi, [], None)], avail + [at])
  {
    var bs, av := blocks + [Block(phi, [], None)], avail + [at];
    assert forall a | 0 <= a < |blocks| :: AtEnd(bs, av, a) == AtEnd(blocks, avail, a);
    forall a | 0 <= a < |bs| ensures BlockFlows(bs, av, a) {
      if a < |blocks| {
        assert BlockFlows(blocks, avail, a);
      }
    }
  }

  lemma FlowTerm(blocks: Cfg, avail: seq<set<Reg>>, b: nat, t: Term)
    requires b < |blocks| && Flows(blocks, avail)
    requires var end := AtEnd(blocks, avail, b);
      && TermUses(Block(None, [], Some(t))) <= end
      && forall x | x in Targets(Block(None, [], Some(t))) :: x < |blocks| && avail[x] <= end
    ensures Flows(blocks[b := blocks[b].(term := Some(t))], avail)
  {
    var bs := blocks[b := blocks[b].(term := Some(t))];
    assert forall a | 0 <= a < |bs| :: AtEnd(bs, avail, a) == AtEnd(blocks, avail, a);
    forall a | 0 <= a < |bs| ensures BlockFlows(bs, avail, a) {
      assert BlockFlows(blocks, avail, a);
    }
  }

  lemma FlowOperand(blocks: Cfg, avail: seq<set<Reg>>, b: nat, r: Reg, from: nat)
    requires b < |blocks| && Flows(blocks, avail) && blocks[b].phi.Some?
    requires from < |blocks| && r in AtEnd(blocks, avail, from)
    ensures Flows(blocks[b := AddOperand(blocks[b], r, from)], avail)
  {
    var bs := blocks[b := AddOperand(blocks[b], r, from)];
    assert forall a | 0 <= a < |bs| :: AtEnd(bs, avail, a) == AtEnd(blocks, avail, a);
    forall a | 0 <= a < |bs| ensures BlockFlows(bs, avail, a) {
      assert BlockFlows(blocks, avail, a);
    }
  }

  // ------------------------------------------------- the flow of emitted code

  /** The shared blocks are entered with no more than the tape's address. */
  ghost predicate SharedAvail(checked: bool, avail: seq<set<Reg>>) {
    && |avail| > END_BB && avail[END_BB] == {ARR}
    && (checked ==> |avail| > ABERROR_BB && avail[ABERROR_BB] == {ARR})
  }

  /** `b` goes on from `a`: what was available at the insertion point still is. */
  ghost predicate Carries(a: State, av: seq<set<Reg>>, b: State, bv: seq<set<Reg>>) {
    && a.cur < |a.blocks| == |av| && b.cur < |b.blocks| == |bv|
    && av <= bv && AtEnd(a.blocks, av, a.cur) <= AtEnd(b.blocks, bv, b.cur)
  }

  /** The same with a flow, before and after. */
  ghost predicate Flowing(checked: bool, s: State, avail: seq<set<Reg>>) {
    Open(s) && HeadReady(checked, s, avail) && SharedAvail(checked, avail)
  }

  lemma AccessFlows(checked: bool, s: State, avail: seq<set<Reg>>, c: Code)
    requires Flowing(checked, s, avail) && (c.Change? || c.Read? || c.Write?)
    ensures var t := First(checked, s, c); Flowing(checked, t, avail) && Carries(s, avail, t, avail)
  {
    var code := if c.Change? then ChangeCode(s, c.v) else if c.Read? then ReadCode(s) else WriteCode(s);
    ThreeUses(AtEnd(s.blocks, avail, s.cur), code);
    FlowEmit(s, avail, code, 2);
  }

  lemma GepFlows(checked: bool, s: State, avail: seq<set<Reg>>, v: int)
    requires Flowing(checked, s, avail)
    ensures var t := Emit(s, [Gep(s.free, s.head, Int32(v))], 1).(head := s.free);
      Flowing(checked, t, avail) && Carries(s, avail, t, avail)
  {
    var gep := Gep(s.free, s.head, Int32(v));
    OneUse(AtEnd(s.blocks, avail, s.cur), gep);
    FlowEmit(s, avail, [gep], 1);
  }

  lemma CheckFlows(s: State, avail: seq<set<Reg>>) returns (av: seq<set<Reg>>)
    requires Flowing(true, s, avail)
    ensures Flowing(true, EmitCheck(s), av) && Carries(s, avail, EmitCheck(s), av)
  {
    ThreeUses(AtEnd(s.blocks, avail, s.cur), CheckCode(s));
    FlowEmit(s, avail, CheckCode(s), 3);
    var t := Emit(s, CheckCode(s), 3);
    var end := AtEnd(t.blocks, avail, s.cur);
    assert s.free + 2 in Def(CheckCode(s)[2]);
    FlowAddBlock(t.blocks, avail, None, end);
    av := avail + [end];
    var bs, br := t.blocks + [Block(None, [], None)], CondBr(s.free + 2, ABERROR_BB, |t.blocks|);
    FlowTerm(bs, av, s.cur, br);
    assert EmitCheck(s).blocks == bs[s.cur := bs[s.cur].(term := Some(br))];
  }

  lemma OpenFlows(checked: bool, s: State, avail: seq<set<Reg>>) returns (av: seq<set<Reg>>)
    requires Flowing(checked, s, avail)
    ensures Flowing(checked, OpenLoop(s), av)
    ensures var end := AtEnd(s.blocks, avail, s.cur); av == avail + [end] + [end + {s.free}]
  {
    var end := AtEnd(s.blocks, avail, s.cur);
    var phi := Some(Phi(s.free, [(s.head, s.cur)]));
    FlowAddBlock(s.blocks, avail, phi, end);
    var bs := s.blocks + [Block(phi, [], None)];
    FlowAddBlock(bs, avail + [end], None, end + {s.free});
    av := avail + [end] + [end + {s.free}];
    var cs := bs + [Block(None, [], None)];
    FlowTerm(cs, av, s.cur, Br(|s.blocks|));
    assert OpenLoop(s).blocks == cs[s.cur := cs[s.cur].(term := Some(Br(|s.blocks|)))];
  }

  /** The test block when its phi is complete and its code is in, but for the branch. */
  lemma TestFlows(s: State, avail: seq<set<Reg>>, phi: Reg, test: nat, bs: Cfg, cs: Cfg)
    requires s.cur < |s.blocks| && Flows(s.blocks, avail) && test < |s.blocks| && test != s.cur
    requires s.blocks[test].phi.Some? && s.blocks[test].phi.value.d == phi
    requires s.head in AtEnd(s.blocks, avail, s.cur) && avail[test] <= AtEnd(s.blocks, avail, s.cur)
    requires bs == s.blocks[s.cur := s.blocks[s.cur].(term := Some(Br(test)))]
                           [test := AddOperand(s.blocks[test], s.head, s.cur)]
    requires cs == bs[test := bs[test].(instrs := bs[test].instrs + [Load(s.free, phi), ICmpEqZero(s.free + 1, s.free)])]
    ensures Flows(cs, avail)
    ensures AtEnd(cs, avail, test) == AtEnd(s.blocks, avail, test) + {s.free, s.free + 1}
  {
    FlowTerm(s.blocks, avail, s.cur, Br(test));
    var ts := s.blocks[s.cur := s.blocks[s.cur].(term := Some(Br(test)))];
    FlowOperand(ts, avail, test, s.head, s.cur);
    var a, b := Load(s.free, phi), ICmpEqZero(s.free + 1, s.free);
    assert AtEnd(bs, avail, test) == AtEnd(s.blocks, avail, test);
    assert [a, b][..1] == [a];
    OneUse(AtEnd(bs, avail, test), a);
    assert InstrDefs([a, b]) == {s.free, s.free + 1};
    FlowEmit(State(bs, test, 0, 0), avail, [a, b], 2);
  }

  lemma CloseFlows(checked: bool, s: State, avail: seq<set<Reg>>, phi: Reg, body: nat, test: nat, x: State)
    returns (av: seq<set<Reg>>)
    requires Flowing(checked, s, avail) && test < |s.blocks| && test != s.cur && body < |s.blocks|
    requires s.blocks[test].phi.Some? && s.blocks[test].phi.value.d == phi
    requires x == CloseLoop(s, phi, body, test)
    requires avail[test] <= AtEnd(s.blocks, avail, s.cur) && avail[body] <= AtEnd(s.blocks, avail, test)
    requires ARR in avail[test] && (checked ==> ARRMAX in avail[test])
    ensures Flowing(checked, x, av) && avail <= av
    ensures avail[test] <= AtEnd(x.blocks, av, x.cur)
  {
    var exit := |s.blocks|;
    var bs := s.blocks[s.cur := s.blocks[s.cur].(term := Some(Br(test)))][test := AddOperand(s.blocks[test], s.head, s.cur)];
    var cs := bs[test := bs[test].(instrs := bs[test].instrs + [Load(s.free, phi), ICmpEqZero(s.free + 1, s.free)])];
    TestFlows(s, avail, phi, test, bs, cs);
    var end := AtEnd(cs, avail, test);
    var p := Some(Phi(s.free + 2, [(phi, test)]));
    FlowAddBlock(cs, avail, p, end);
    av := avail + [end];
    var ds, br := cs + [Block(p, [], None)], CondBr(s.free + 1, exit, body);
    FlowTerm(ds, av, test, br);
    assert x.blocks == ds[test := ds[test].(term := Some(br))];
    assert x.cur == exit && AtEnd(x.blocks, av, exit) == end + {s.free + 2};
  }

  lemma {:induction false} GenFlows(checked: bool, s: State, c: Code, avail: seq<set<Reg>>) returns (av: seq<set<Reg>>)
    requires Flowing(checked, s, avail)
    ensures var r := Gen(checked, s, c); Flowing(checked, r, av) && Carries(s, avail, r, av)
    decreases c, 1
  {
    if c.Done? {
      av := avail;
    } else {
      av := FirstFlows(checked, s, c, avail);
      av := GenFlows(checked, First(checked, s, c), c.next, av);
    }
  }

  lemma {:induction false} FirstFlows(checked: bool, s: State, c: Code, avail: seq<set<Reg>>) returns (av: seq<set<Reg>>)
    requires Flowing(checked, s, avail) && !c.Done?
    ensures var t := First(checked, s, c); Flowing(checked, t, av) && Carries(s, avail, t, av)
    decreases c, 0
  {
    av := avail;
    match c
    case Move(v, _) =>
      GepFlows(checked, s, avail, v);
      if checked {
        av := CheckFlows(Emit(s, [Gep(s.free, s.head, Int32(v))], 1).(head := s.free), avail);
      }
    case Loop(b, _) =>
      var o := OpenFlows(checked, s, avail);
      av := GenFlows(checked, OpenLoop(s), b, o);
      av := LoopEndFlows(checked, s, avail, Gen(checked, OpenLoop(s), b), o, av);
    case _ =>
      AccessFlows(checked, s, avail, c);
  }

  lemma LoopEndFlows(checked: bool, s: State, sv: seq<set<Reg>>, e: State, ov: seq<set<Reg>>, ev: seq<set<Reg>>)
    returns (av: seq<set<Reg>>)
    requires Flowing(checked, s, sv) && Grown(OpenLoop(s), e)
    requires var end := AtEnd(s.blocks, sv, s.cur); ov == sv + [end] + [end + {s.free}]
    requires Flowing(checked, e, ev) && Carries(OpenLoop(s), ov, e, ev)
    ensures Flowing(checked, Closed(s, e), av) && Carries(s, sv, Closed(s, e), av)
  {
    var o, test, end := OpenLoop(s), |s.blocks|, AtEnd(s.blocks, sv, s.cur);
    LoopGrows(s, e);
    assert ev[test] == ov[test] == end && ev[test + 1] == ov[test + 1] == end + {s.free};
    assert AtEnd(o.blocks, ov, o.cur) == end + {s.free};
    assert s.free in AtEnd(e.blocks, ev, test);
    av := CloseFlows(checked, e, ev, s.free, test + 1, test, Closed(s, e));
  }

  /** At entry nothing is available; the return and error blocks may use the tape's address. */
  function HeaderAvail(checked: bool): seq<set<Reg>> {
    [{}, {ARR}] + (if checked then [{ARR}] else [])
  }

  lemma BlankFlows(checked: bool)
    ensures Flows(Blank(checked), HeaderAvail(checked))
  {
    OneUse({ARR}, Free(ARR));
    OneUse({ARR}, Puts);
    var bs, av := Blank(checked), HeaderAvail(checked);
    assert PhiDef(END_BLOCK) == PhiDef(ABERROR_BLOCK) == {} && {ARR} + {} == {ARR};
    forall b | 0 <= b < |bs| ensures BlockFlows(bs, av, b) {
    }
  }

  lemma EntryUses(checked: bool, size: nat, code: seq<Instr>)
    requires code + [Gep(HEAD, ARR, Int32(size / 2))] == EntryInstrs(checked, size)
    ensures UsesOk({}, code) && ARR in InstrDefs(code) && (checked ==> ARRMAX in InstrDefs(code))
  {
    var a, b, c := Malloc(ARR, size), Memset(ARR, size), Gep(ARRMAX, ARR, Int32(size));
    assert code == EntryInstrs(checked, size)[..|code|];
    assert code == if checked then [a, b, c] else [a, b];
    OneUse({}, a);
    assert [a, b][..1] == [a];
    assert UsesOk({}, [a, b]);
    assert InstrDefs([a, b]) == {ARR};
    assert [a, b, c][..2] == [a, b];
  }

  lemma HeaderFlows(checked: bool, size: nat)
    ensures Flowing(checked, Header(checked, size), HeaderAvail(checked))
  {
    var av, s, h := HeaderAvail(checked), State(Blank(checked), 0, HEAD, 0), Header(checked, size);
    var all := EntryInstrs(checked, size);
    var code, head := all[..|all| - 1], Gep(HEAD, ARR, Int32(size / 2));
    assert code + [head] == all;
    BlankFlows(checked);
    assert AtEnd(s.blocks, av, 0) == {};
    EntryUses(checked, size, code);
    FlowEmit(s, av, code, 0);
    FlowAppend(Emit(s, code, 0).blocks, av, 0, head);
    HeaderBlocks(checked, size, code);
    assert HeadReady(checked, h, av);
  }

  lemma ProgramFlows(checked: bool, size: nat, c: Code) returns (av: seq<set<Reg>>)
    ensures Flows(Program(checked, size, c), av)
  {
    var h := Header(checked, size);
    HeaderFlows(checked, size);
    av := GenFlows(checked, h, c, HeaderAvail(checked));
    var g := Gen(checked, h, c);
    FlowTerm(g.blocks, av, g.cur, Br(END_BB));
  }

  // --------------------------------------------------------------- main results

  /** A path through the graph from the entry, whatever the branches decide. */
  ghost predicate IsPath(cfg: Cfg, path: seq<nat>) {
    && path != [] && path[0] == 0 && 0 < |cfg|
    && (forall k | 0 <= k < |path| :: path[k] < |cfg|)
    && (forall k | 0 < k < |path| :: path[k] in Targets(cfg[path[k - 1]]))
  }

  /** Some block of the path before its last one defines `r`. */
  ghost predicate DefinedBefore(cfg: Cfg, path: seq<nat>, r: Reg)
    requires IsPath(cfg, path)
  {
    exists k :: 0 <= k < |path| - 1 && r in Defs(cfg[path[k]])
  }

  lemma {:induction false} AvailIsDefined(cfg: Cfg, av: seq<set<Reg>>, path: seq<nat>, r: Reg)
    requires Flows(cfg, av) && IsPath(cfg, path) && r in av[path[|path| - 1]]
    ensures DefinedBefore(cfg, path, r)
    decreases |path|
  {
    var n := |path| - 1;
    if n > 0 {
      var pre := path[..n];
      assert path[n] in Targets(cfg[pre[n - 1]]);
      assert BlockFlows(cfg, av, pre[n - 1]);
      if r !in Defs(cfg[pre[n - 1]]) {
        AvailIsDefined(cfg, av, pre, r);
        var k :| 0 <= k < |pre| - 1 && r in Defs(cfg[pre[k]]);
        assert r in Defs(cfg[path[k]]);
      } else {
        assert r in Defs(cfg[path[n - 1]]);
      }
    }
  }

  lemma {:induction false} UseAt(avail: set<Reg>, instrs: seq<Instr>, i: nat)
    requires UsesOk(avail, instrs) && i < |instrs|
    ensures Uses(instrs[i]) <= avail + InstrDefs(instrs[..i])
    decreases |instrs|
  {
    var init := instrs[..|instrs| - 1];
    if i < |init| {
      UseAt(avail, init, i);
      assert init[..i] == instrs[..i];
    }
  }

  /** Definitions dominate uses: whatever path control took to an instruction, each
      register it reads was defined before, in its own block or in an earlier one. */
  lemma InstructionUsesDominated(checked: bool, size: nat, c: Code, path: seq<nat>, i: nat, r: Reg)
    requires var cfg := Program(checked, size, c); IsPath(cfg, path) && i < |cfg[path[|path| - 1]].instrs|
    requires r in Uses(Program(checked, size, c)[path[|path| - 1]].instrs[i])
    ensures var cfg := Program(checked, size, c); var b := cfg[path[|path| - 1]];
      r in InstrDefs(b.instrs[..i]) || r in PhiDef(b) || DefinedBefore(cfg, path, r)
  {
    var cfg, b := Program(checked, size, c), path[|path| - 1];
    var av := ProgramFlows(checked, size, c);
    assert BlockFlows(cfg, av, b);
    UseAt(av[b] + PhiDef(cfg[b]), cfg[b].instrs, i);
    if r in av[b] {
      AvailIsDefined(cfg, av, path, r);
    }
  }

  /** The same of the condition of a branch, and of a phi operand, which is read at the
      end of the block it is paired with. */
  lemma EdgeUsesDominated(checked: bool, size: nat, c: Code, path: seq<nat>, r: Reg)
    requires IsPath(Program(checked, size, c), path)
    requires var cfg := Program(checked, size, c); var p := path[|path| - 1];
      || r in TermUses(cfg[p])
      || exists b :: 0 <= b < |cfg| && cfg[b].phi.Some? && (r, p) in cfg[b].phi.value.incoming
    ensures var cfg := Program(checked, size, c);
      r in Defs(cfg[path[|path| - 1]]) || DefinedBefore(cfg, path, r)
  {
    var cfg, p := Program(checked, size, c), path[|path| - 1];
    var av := ProgramFlows(checked, size, c);
    assert BlockFlows(cfg, av, p);
    if r !in TermUses(cfg[p]) {
      var b :| 0 <= b < |cfg| && cfg[b].phi.Some? && (r, p) in cfg[b].phi.value.incoming;
      assert BlockFlows(cfg, av, b);
    }
    if r in av[p] {
      AvailIsDefined(cfg, av, path, r);
    }
  }

  /** What the module verifier asks of the shape of a function: every block is ended,
      branches stay inside and never lead to the entry, each phi lists exactly the
      predecessors of its block, once each, and no register has two definitions. */
  lemma ProgramWellFormed(checked: bool, size: nat, c: Code)
    ensures var cfg := Program(checked, size, c);
      && (forall b | 0 <= b < |cfg| ::
            && cfg[b].term.Some? && PhiMatches(cfg, b)
            && forall t | t in Targets(cfg[b]) :: 0 < t < |cfg|)
      && exists free :: SingleDefs(cfg, free)
  {
    ProgramGraph(checked, size, c);
    ProgramSingle(checked, size, c);
  }
}
