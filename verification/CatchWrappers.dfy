/**
 The try/catch/finally functions that ExceptionDemo.cpp generates, one around the other,
 and what happens when the innermost function they call throws.
 */
module CatchWrappers {
  import opened Wrappers
  import opened Leb128
  import opened Lsda
  import opened ActionTables
  import opened JitTables

  // ------------------------------------------------------------ generated functions

  /** An exception in flight: one of ours, with its allocation and type, or a foreign one. */
  datatype Exn = Ours(id: nat, kind: int) | Foreign

  /** What a run does that can be seen: messages printed, and the heap. */
  datatype Event =
    | Throwing(kind: int)
    | Allocated(id: nat)
    | Freed(id: nat)
    | NoException(level: nat)
    | Received(level: nat, kind: int)
    | ForeignReceived(level: nat)
    | Caught(level: nat, index: nat)
    | FinallyRan(level: nat)
    | EndRan(level: nat)
    | HarnessCaught(ours: bool)

  const NOT_THROWN: nat := 0
  const THROWN: nat := 1
  const CAUGHT: nat := 2

  /** Instructions of a generated function.  The message of a print is built from what is
      printed where: SayReceived names the thrown type, SayCatch the catch block. */
  datatype Op =
    | StoreFlag(v: nat)
    | StoreNull
    | StoreException
    | DeleteStored
    | SayNormal
    | SayReceived
    | SayForeign
    | SayCatch(index: nat)
    | SayFinally
    | SayEnd

  datatype Term =
    | Invoke(normal: nat, unwind: nat)
    | Br(target: nat)
    | SwitchFlag(cases: seq<(nat, nat)>, default: nat)
    | SwitchSelector(cases: seq<(nat, nat)>, default: nat)
    | CondOurs(thn: nat, els: nat)
    | UnwindResume
    | RetVoid
    | Unterminated

  datatype Block = Block(ops: seq<Op>, term: Term)

  type Func = seq<Block>

  // Blocks in the order they are created; the catch blocks follow.
  const ENTRY: nat := 0
  const NORMAL: nat := 1
  const EXCEPTION: nat := 2
  const ROUTE: nat := 3
  const EXTERNAL: nat := 4
  const RESUME: nat := 5
  const END: nat := 6
  const FINALLY: nat := 7
  const FIRST_CATCH: nat := 8

  function CatchBlock(i: nat): Block {
    Block([SayCatch(i), StoreFlag(CAUGHT)], Br(FINALLY))
  }

  /** Selector i, counted from 1, leads to catch block i - 1. */
  function Cases(n: nat): (c: seq<(nat, nat)>)
    ensures |c| == n
  {
    seq(n, i requires 0 <= i < n => (i + 1, FIRST_CATCH + i))
  }

  /** The function generated around a call for a list of `n` types to catch. */
  function Wrapper(n: nat): Func {
    [ Block([StoreNull, StoreFlag(NOT_THROWN)], Invoke(NORMAL, EXCEPTION)),
      Block([SayNormal], Br(FINALLY)),
      Block([StoreException, StoreFlag(THROWN)], CondOurs(ROUTE, EXTERNAL)),
      Block([SayReceived], SwitchSelector(Cases(n), FINALLY)),
      Block([SayForeign], Br(FINALLY)),
      Block([], UnwindResume),
      Block([SayEnd, DeleteStored], RetVoid),
      Block([SayFinally], SwitchFlag([(CAUGHT, END), (THROWN, RESUME)], END)) ]
    + seq(n, i requires 0 <= i < n => CatchBlock(i))
  }

  /** The generator: blocks are created first and filled in afterwards. */
  class Generator {
    var blocks: Func
    var insert: nat

    constructor ()
      ensures blocks == []
    {
      blocks, insert := [], 0;
    }

    method CreateBlock() returns (bb: nat)
      modifies this`blocks
      ensures bb == |old(blocks)| && blocks == old(blocks) + [Block([], Unterminated)]
    {
      bb := |blocks|;
      blocks := blocks + [Block([], Unterminated)];
    }

    /** The code and terminator of a block that has none yet. */
    method Fill(bb: nat, ops: seq<Op>, t: Term)
      requires bb < |blocks| && blocks[bb].ops == []
      modifies this
      ensures blocks == old(blocks)[bb := Block(ops, t)] && insert == bb
    {
      insert := bb;
      blocks := blocks[bb := Block(blocks[bb].ops + ops, t)];
      assert [] + ops == ops;
    }

    method Terminate(bb: nat, t: Term)
      requires bb < |blocks|
      modifies this
      ensures blocks == old(blocks)[bb := old(blocks[bb]).(term := t)] && insert == bb
    {
      insert := bb;
      blocks := blocks[bb := blocks[bb].(term := t)];
    }

    /** The finally block, and the initialisation of the two stack slots in the entry. */
    method CreateFinallyBlock(terminator: nat, resume: nat) returns (bb: nat)
      requires |blocks| > 0
      modifies this
      ensures bb == |old(blocks)|
      ensures blocks == old(blocks)[0 := old(blocks[0]).(ops := [StoreNull, StoreFlag(NOT_THROWN)] + old(blocks[0]).ops)]
                        + [Block([SayFinally], SwitchFlag([(CAUGHT, terminator), (THROWN, resume)], terminator))]
    {
      blocks := blocks[0 := blocks[0].(ops := [StoreFlag(NOT_THROWN)] + blocks[0].ops)];
      blocks := blocks[0 := blocks[0].(ops := [StoreNull] + blocks[0].ops)];
      assert [StoreNull] + ([StoreFlag(NOT_THROWN)] + old(blocks[0]).ops)
          == [StoreNull, StoreFlag(NOT_THROWN)] + old(blocks[0]).ops;
      bb := CreateBlock();
      Fill(bb, [SayFinally], SwitchFlag([(CAUGHT, terminator), (THROWN, resume)], terminator));
    }

    method CreateCatchBlock(index: nat, terminator: nat) returns (bb: nat)
      modifies this
      ensures bb == |old(blocks)|
      ensures blocks == old(blocks) + [Block([SayCatch(index), StoreFlag(CAUGHT)], Br(terminator))]
    {
      bb := CreateBlock();
      Fill(bb, [SayCatch(index), StoreFlag(CAUGHT)], Br(terminator));
    }

    method CreateFixedBlocks()
      requires blocks == []
      modifies this
      ensures blocks == [Block([StoreNull, StoreFlag(NOT_THROWN)], Unterminated)]
                        + seq(6, _ => Block([], Unterminated))
                        + [Block([SayFinally], SwitchFlag([(CAUGHT, END), (THROWN, RESUME)], END))]
    {
      var entry := CreateBlock();
      var normal := CreateBlock();
      var exception := CreateBlock();
      var route := CreateBlock();
      var external := CreateBlock();
      var resume := CreateBlock();
      var end := CreateBlock();
      assert [StoreNull, StoreFlag(NOT_THROWN)] + [] == [StoreNull, StoreFlag(NOT_THROWN)];
      var finallyBlock := CreateFinallyBlock(end, resume);
    }

    /** One catch block for each type. */
    method CreateCatchBlocks(n: nat)
      requires |blocks| == FIRST_CATCH
      modifies this
      ensures blocks == old(blocks) + seq(n, i requires 0 <= i < n => CatchBlock(i))
    {
      for i := 0 to n
        invariant blocks == old(blocks) + seq(i, j requires 0 <= j < i => CatchBlock(j))
      {
        var bb := CreateCatchBlock(i, FINALLY);
      }
    }

    /** The switch from selector values to catch blocks. */
    method RouteCases(n: nat) returns (cases: seq<(nat, nat)>)
      ensures cases == Cases(n)
    {
      cases := [];
      for i := 1 to n + 1
        invariant cases == seq(i - 1, j requires 0 <= j < i - 1 => (j + 1, FIRST_CATCH + j))
      {
        var nextTypeToCatch := i - 1;
        cases := cases + [(i, FIRST_CATCH + nextTypeToCatch)];
      }
    }

    method CreateCatchWrappedInvokeFunction(n: nat)
      requires blocks == []
      modifies this
      ensures blocks == Wrapper(n)
    {
      CreateFixedBlocks();
      CreateCatchBlocks(n);
      ghost var catches := seq(n, i requires 0 <= i < n => CatchBlock(i));
      Terminate(ENTRY, Invoke(NORMAL, EXCEPTION));
      Fill(END, [SayEnd, DeleteStored], RetVoid);
      Fill(NORMAL, [SayNormal], Br(FINALLY));
      Terminate(RESUME, UnwindResume);
      Fill(EXCEPTION, [StoreException, StoreFlag(THROWN)], CondOurs(ROUTE, EXTERNAL));
      Fill(EXTERNAL, [SayForeign], Br(FINALLY));
      var cases := RouteCases(n);
      Fill(ROUTE, [SayReceived], SwitchSelector(cases, FINALLY));
      assert blocks == Wrapper(n);
    }
  }

  // ------------------------------------------------------------------- execution

  /** The two stack slots, and what the landing pad was entered with. */
  datatype Locals = Locals(flag: nat, storage: Option<Exn>, exn: Option<Exn>, selector: nat)

  /** Everything that has happened, and the next exception to be allocated. */
  datatype World = World(trace: seq<Event>, next: nat) {
    function Say(e: Event): World {
      this.(trace := trace + [e])
    }
  }

  datatype State = State(loc: Locals, w: World)

  function DoOp(level: nat, op: Op, s: State): State {
    match op
    case StoreFlag(v) => s.(loc := s.loc.(flag := v))
    case StoreNull => s.(loc := s.loc.(storage := None))
    case StoreException => s.(loc := s.loc.(storage := s.loc.exn))
    case DeleteStored =>
      // deleteOurException ignores null and exceptions of another class.
      if s.loc.storage.Some? && s.loc.storage.value.Ours? then s.(w := s.w.Say(Freed(s.loc.storage.value.id))) else s
    case SayNormal => s.(w := s.w.Say(NoException(level)))
    case SayReceived =>
      s.(w := s.w.Say(Received(level, if s.loc.exn.Some? && s.loc.exn.value.Ours? then s.loc.exn.value.kind else 0)))
    case SayForeign => s.(w := s.w.Say(ForeignReceived(level)))
    case SayCatch(i) => s.(w := s.w.Say(Caught(level, i)))
    case SayFinally => s.(w := s.w.Say(FinallyRan(level)))
    case SayEnd => s.(w := s.w.Say(EndRan(level)))
  }

  function DoOps(level: nat, ops: seq<Op>, s: State): State
    decreases |ops|
  {
    if ops == [] then s else DoOps(level, ops[1..], DoOp(level, ops[0], s))
  }

  /** How a call ends: it returns, an exception goes on to its caller, or (never, as is
      proved) it does something these functions cannot do. */
  datatype Exit = Returned(w: World) | Unwinding(exn: Exn, w: World) | Stuck

  function Switch(cases: seq<(nat, nat)>, default: nat, v: nat): nat {
    if cases == [] then default
    else if cases[0].0 == v then cases[0].1
    else Switch(cases[1..], default, v)
  }

  /** A generated function from block `b` on, within `fuel` blocks. */
  function RunFrom(f: Func, level: nat, b: nat, s: State, fuel: nat): Exit
    decreases fuel
  {
    if fuel == 0 || b >= |f| then Stuck
    else
      var t := DoOps(level, f[b].ops, s);
      match f[b].term
      case Br(x) => RunFrom(f, level, x, t, fuel - 1)
      case SwitchFlag(cases, d) => RunFrom(f, level, Switch(cases, d, t.loc.flag), t, fuel - 1)
      case SwitchSelector(cases, d) => RunFrom(f, level, Switch(cases, d, t.loc.selector), t, fuel - 1)
      case CondOurs(x, y) =>
        if t.loc.exn.None? then Stuck
        else RunFrom(f, level, if t.loc.exn.value.Ours? then x else y, t, fuel - 1)
      case UnwindResume => if t.loc.storage.None? then Stuck else Unwinding(t.loc.storage.value, t.w)
      case RetVoid => Returned(t.w)
      case _ => Stuck
  }

  /** No path through a generated function visits more blocks after its call. */
  const PATH: nat := 6

  /** What the stack slots of each level's call hold before its entry block initialises
      them. */
  type Junk = nat -> Locals

  /** The throw function: type -1 calls the foreign one. */
  const NATIVE_THROW: int := -1

  function Throw(kind: int, w: World): Exit {
    var said := w.Say(Throwing(kind));
    if kind == NATIVE_THROW then Unwinding(Foreign, said)
    else Unwinding(Ours(w.next, kind), World(said.trace + [Allocated(w.next)], w.next + 1))
  }

  function ThrownOf(e: Exn): Thrown {
    match e
    case Ours(_, kind) => Thrown(true, kind)
    case Foreign => Thrown(false, 0)
  }

  /** What the personality answers for the frame of a wrapper with this catch list while
      its call is in progress; `PersonalityOfWrapper` derives it from the frame's bytes. */
  function FrameAnswer(catches: seq<int>, t: Thrown, search: bool): Answer {
    var i := if t.ours then FirstIndex(catches, t.kind) else 0;
    if !search then Answer(InstallContext, i, EXCEPTION)
    else Answer(if i > 0 then HandlerFound else ContinueUnwind, 0, 0)
  }

  /** A call of wrapper `k` of a nest, innermost first, around the throw function.  An
      exception from inside enters the landing pad with the personality's selector. */
  function Call(nest: seq<seq<int>>, k: nat, kind: int, w: World, junk: Junk): Exit
    requires k < |nest|
    decreases k
  {
    var f := Wrapper(|nest[k]|);
    var s := DoOps(k, f[ENTRY].ops, State(junk(k), w));
    match f[ENTRY].term
    case Invoke(normal, unwind) =>
      (match if k == 0 then Throw(kind, s.w) else Call(nest, k - 1, kind, s.w, junk)
       case Returned(w') => RunFrom(f, k, normal, s.(w := w'), PATH)
       case Unwinding(e, w') =>
         var selector := FrameAnswer(nest[k], ThrownOf(e), false).selector;
         RunFrom(f, k, unwind, State(s.loc.(exn := Some(e), selector := selector), w'), PATH)
       case Stuck => Stuck)
    case _ => Stuck
  }

  /** The harness calls the outermost wrapper and catches whatever comes out. */
  function Harness(nest: seq<seq<int>>, kind: int, junk: Junk): seq<Event> {
    var w := World([], 0);
    match Outermost(nest, kind, w, junk)
    case Returned(w') => w'.trace
    case Unwinding(e, w') => w'.trace + [HarnessCaught(e.Ours?)]
    case Stuck => []
  }

  // ------------------------------------------------------------- what should happen

  /** The frame the search phase stops at: the first wrapper, from `k` on, that says it
      has a handler, or the harness. */
  function SearchPhase(nest: seq<seq<int>>, k: nat, e: Exn): (m: nat)
    requires k <= |nest|
    ensures k <= m <= |nest|
    decreases |nest| - k
  {
    if k == |nest| then k
    else if FrameAnswer(nest[k], ThrownOf(e), true).reason == HandlerFound then k
    else SearchPhase(nest, k + 1, e)
  }

  /** The search phase finds the innermost wrapper that lists the type. */
  lemma {:induction false} SearchFindsInnermost(nest: seq<seq<int>>, k: nat, e: Exn)
    requires k <= |nest|
    ensures var m := SearchPhase(nest, k, e);
      && (forall j | k <= j < m :: e.Foreign? || e.kind !in nest[j])
      && (m < |nest| ==> e.Ours? && e.kind in nest[m])
    decreases |nest| - k
  {
    if k < |nest| && FrameAnswer(nest[k], ThrownOf(e), true).reason != HandlerFound {
      SearchFindsInnermost(nest, k + 1, e);
    }
  }

  /** What level `k` does when the exception `e` is caught at level `m`. */
  function LevelEvents(nest: seq<seq<int>>, k: nat, e: Exn, m: nat): seq<Event>
    requires k < |nest|
  {
    if k > m then [NoException(k), FinallyRan(k), EndRan(k)]
    else if e.Foreign? then [ForeignReceived(k), FinallyRan(k)]
    else if k < m || FirstIndex(nest[k], e.kind) == 0 then [Received(k, e.kind), FinallyRan(k)]
    else [Received(k, e.kind), Caught(k, FirstIndex(nest[k], e.kind) - 1), FinallyRan(k), EndRan(k), Freed(e.id)]
  }

  function LevelsBelow(nest: seq<seq<int>>, k: nat, e: Exn, m: nat): seq<Event>
    requires k <= |nest|
  {
    if k == 0 then [] else LevelsBelow(nest, k - 1, e, m) + LevelEvents(nest, k - 1, e, m)
  }

  // ------------------------------------------------------------------- one wrapper

  lemma TwoOps(level: nat, a: Op, b: Op, s: State)
    ensures DoOps(level, [a, b], s) == DoOp(level, b, DoOp(level, a, s))
    ensures DoOps(level, [a], s) == DoOp(level, a, s) && DoOps(level, [], s) == s
  {
    assert [a, b][1..] == [b] && [b][1..] == [] && [a][1..] == [];
    var t := DoOp(level, a, s);
    assert DoOps(level, [b], t) == DoOps(level, [], DoOp(level, b, t));
    assert DoOps(level, [a], s) == DoOps(level, [], t);
  }

  lemma {:induction false} SwitchCases(n: nat, i: nat, v: nat)
    requires i <= n
    ensures Switch(Cases(n)[i..], FINALLY, v) == if i < v <= n then FIRST_CATCH + v - 1 else FINALLY
    decreases n - i
  {
    if i < n {
      assert Cases(n)[i..][0] == (i + 1, FIRST_CATCH + i);
      assert Cases(n)[i..][1..] == Cases(n)[i + 1..];
      SwitchCases(n, i + 1, v);
    }
  }

  function Free(e: Option<Exn>): seq<Event> {
    if e.Some? && e.value.Ours? then [Freed(e.value.id)] else []
  }

  lemma EndRuns(n: nat, level: nat, s: State, fuel: nat)
    requires fuel >= 1
    ensures RunFrom(Wrapper(n), level, END, s, fuel)
         == Returned(s.w.(trace := s.w.trace + [EndRan(level)] + Free(s.loc.storage)))
  {
    TwoOps(level, SayEnd, DeleteStored, s);
    assert s.w.trace + [EndRan(level)] + [] == s.w.trace + [EndRan(level)];
  }

  /** The finally block goes on to the end, or resumes unwinding if an exception was
      thrown and no catch block has run. */
  lemma FinallyRuns(n: nat, level: nat, s: State, fuel: nat)
    requires fuel >= 2 && s.loc.flag in {NOT_THROWN, THROWN, CAUGHT}
    requires s.loc.flag == THROWN ==> s.loc.storage.Some?
    ensures var r := RunFrom(Wrapper(n), level, FINALLY, s, fuel);
      var said := s.w.trace + [FinallyRan(level)];
      r == if s.loc.flag == THROWN then Unwinding(s.loc.storage.value, s.w.(trace := said))
           else Returned(s.w.(trace := said + [EndRan(level)] + Free(s.loc.storage)))
  {
    var t := s.(w := s.w.Say(FinallyRan(level)));
    TwoOps(level, SayFinally, SayFinally, s);
    var cases := [(CAUGHT, END), (THROWN, RESUME)];
    assert cases[1..] == [(THROWN, RESUME)];
    assert Switch([(THROWN, RESUME)], END, s.loc.flag) == if s.loc.flag == THROWN then RESUME else END;
    assert Switch(cases, END, s.loc.flag) == if s.loc.flag == THROWN then RESUME else END;
    if s.loc.flag == THROWN {
      assert RunFrom(Wrapper(n), level, RESUME, t, fuel - 1) == Unwinding(s.loc.storage.value, t.w);
    } else {
      EndRuns(n, level, t, fuel - 1);
    }
  }

  lemma CatchRuns(n: nat, level: nat, i: nat, s: State, fuel: nat)
    requires fuel >= 3 && i < n
    ensures RunFrom(Wrapper(n), level, FIRST_CATCH + i, s, fuel)
         == Returned(s.w.(trace := s.w.trace + [Caught(level, i)] + [FinallyRan(level)] + [EndRan(level)] + Free(s.loc.storage)))
  {
    var f := Wrapper(n);
    assert f[FIRST_CATCH + i] == CatchBlock(i);
    TwoOps(level, SayCatch(i), StoreFlag(CAUGHT), s);
    var t := State(s.loc.(flag := CAUGHT), s.w.Say(Caught(level, i)));
    FinallyRuns(n, level, t, fuel - 1);
  }

  /** The block that receives an exception of ours, with the selector in hand. */
  lemma RouteRuns(n: nat, level: nat, s: State, e: Exn, fuel: nat)
    requires fuel >= 4 && e.Ours? && s.loc.exn == Some(e) && s.loc.storage == Some(e) && s.loc.flag == THROWN
    requires s.loc.selector <= n
    ensures var i := s.loc.selector;
      var said := s.w.trace + [Received(level, e.kind)];
      RunFrom(Wrapper(n), level, ROUTE, s, fuel)
        == if i == 0 then Unwinding(e, s.w.(trace := said + [FinallyRan(level)]))
           else Returned(s.w.(trace := said + [Caught(level, i - 1)] + [FinallyRan(level)] + [EndRan(level)] + [Freed(e.id)]))
  {
    var i, t := s.loc.selector, s.(w := s.w.Say(Received(level, e.kind)));
    TwoOps(level, SayReceived, SayReceived, s);
    SwitchCases(n, 0, i);
    assert Cases(n)[0..] == Cases(n);
    if i == 0 {
      FinallyRuns(n, level, t, fuel - 1);
    } else {
      CatchRuns(n, level, i - 1, t, fuel - 1);
    }
  }

  lemma ForeignRuns(n: nat, level: nat, s: State, fuel: nat)
    requires fuel >= 3 && s.loc.storage == Some(Foreign) && s.loc.flag == THROWN
    ensures RunFrom(Wrapper(n), level, EXTERNAL, s, fuel)
         == Unwinding(Foreign, s.w.(trace := s.w.trace + [ForeignReceived(level)] + [FinallyRan(level)]))
  {
    TwoOps(level, SayForeign, SayForeign, s);
    FinallyRuns(n, level, s.(w := s.w.Say(ForeignReceived(level))), fuel - 1);
  }

  lemma StoresException(n: nat, level: nat, s: State, e: Exn)
    requires s.loc.exn == Some(e)
    ensures var t := s.(loc := s.loc.(storage := Some(e), flag := THROWN));
      RunFrom(Wrapper(n), level, EXCEPTION, s, PATH)
        == RunFrom(Wrapper(n), level, if e.Ours? then ROUTE else EXTERNAL, t, PATH - 1)
  {
    TwoOps(level, StoreException, StoreFlag(THROWN), s);
  }

  /** How a wrapper entered at its landing pad with selector `i` ends, and what it does. */
  function AfterLanding(w: World, level: nat, e: Exn, i: nat): Exit
    requires e.Foreign? ==> i == 0
  {
    var said := w.trace + [if e.Ours? then Received(level, e.kind) else ForeignReceived(level)];
    if i == 0 then Unwinding(e, w.(trace := said + [FinallyRan(level)]))
    else Returned(w.(trace := said + [Caught(level, i - 1)] + [FinallyRan(level)] + [EndRan(level)] + [Freed(e.id)]))
  }

  /** A wrapper entered at its landing pad: with a selector it catches, with 0 it runs its
      finally block and passes the exception on. */
  lemma LandingPadRuns(n: nat, level: nat, s: State, e: Exn)
    requires s.loc.exn == Some(e) && s.loc.selector <= n && (e.Foreign? ==> s.loc.selector == 0)
    ensures RunFrom(Wrapper(n), level, EXCEPTION, s, PATH) == AfterLanding(s.w, level, e, s.loc.selector)
  {
    StoresException(n, level, s, e);
    hide RunFrom, Wrapper, AfterLanding;
    ReceivedRuns(n, level, s.(loc := s.loc.(storage := Some(e), flag := THROWN)), e);
  }

  lemma ReceivedRuns(n: nat, level: nat, s: State, e: Exn)
    requires s.loc.exn == Some(e) && s.loc.storage == Some(e) && s.loc.flag == THROWN
    requires s.loc.selector <= n && (e.Foreign? ==> s.loc.selector == 0)
    ensures RunFrom(Wrapper(n), level, if e.Ours? then ROUTE else EXTERNAL, s, PATH - 1)
         == AfterLanding(s.w, level, e, s.loc.selector)
  {
    hide RunFrom, Wrapper;
    var first := if e.Ours? then Received(level, e.kind) else ForeignReceived(level);
    if e.Ours? {
      RouteRuns(n, level, s, e, PATH - 1);
      assert s.w.trace + [first] == s.w.trace + [Received(level, e.kind)];
    } else {
      ForeignRuns(n, level, s, PATH - 1);
      assert s.w.trace + [first] == s.w.trace + [ForeignReceived(level)];
    }
  }

  /** A wrapper whose call returned: nothing is stored, so nothing is freed. */
  lemma NormalRuns(n: nat, level: nat, s: State)
    requires s.loc.flag == NOT_THROWN && s.loc.storage == None
    ensures RunFrom(Wrapper(n), level, NORMAL, s, PATH)
         == Returned(s.w.(trace := s.w.trace + [NoException(level)] + [FinallyRan(level)] + [EndRan(level)]))
  {
    TwoOps(level, SayNormal, SayNormal, s);
    var t := s.(w := s.w.Say(NoException(level)));
    FinallyRuns(n, level, t, PATH - 1);
    var said := t.w.trace + [FinallyRan(level)] + [EndRan(level)];
    assert said + [] == said;
  }

  // ---------------------------------------------------------------------- the nest

  function InFlight(kind: int, w: World): Exn {
    if kind == NATIVE_THROW then Foreign else Ours(w.next, kind)
  }

  function ThrowEvents(kind: int, w: World): seq<Event> {
    [Throwing(kind)] + (if kind == NATIVE_THROW then [] else [Allocated(w.next)])
  }

  function Below(nest: seq<seq<int>>, k: nat, kind: int, w: World): World
    requires k <= |nest|
  {
    var e := InFlight(kind, w);
    World(w.trace + ThrowEvents(kind, w) + LevelsBelow(nest, k, e, SearchPhase(nest, 0, e)),
          w.next + if e.Ours? then 1 else 0)
  }

  lemma BelowNext(nest: seq<seq<int>>, k: nat, kind: int, w: World)
    requires k < |nest|
    ensures var e, b := InFlight(kind, w), Below(nest, k, kind, w);
      Below(nest, k + 1, kind, w) == b.(trace := b.trace + LevelEvents(nest, k, e, SearchPhase(nest, 0, e)))
  {
    hide LevelEvents, ThrowEvents, SearchPhase;
  }

  lemma ThrowRuns(nest: seq<seq<int>>, kind: int, w: World)
    ensures Throw(kind, w) == Unwinding(InFlight(kind, w), Below(nest, 0, kind, w))
  {
    var said := w.trace + [Throwing(kind)];
    assert w.trace + ThrowEvents(kind, w) + [] == said + ThrowEvents(kind, w)[1..];
  }

  /** A call of wrapper `k`: everything below has happened in order, and the exception
      comes out exactly if the search phase stopped further out. */
  lemma {:induction false} CallRuns(nest: seq<seq<int>>, k: nat, kind: int, w: World, junk: Junk)
    requires k < |nest|
    ensures var e := InFlight(kind, w);
      Call(nest, k, kind, w, junk)
        == if k < SearchPhase(nest, 0, e) then Unwinding(e, Below(nest, k + 1, kind, w))
           else Returned(Below(nest, k + 1, kind, w))
    decreases k
  {
    var e, before := InFlight(kind, w), Below(nest, k, kind, w);
    var m := SearchPhase(nest, 0, e);
    var s := EntryRuns(|nest[k]|, k, w, junk(k));
    if k == 0 {
      ThrowRuns(nest, kind, w);
    } else {
      CallRuns(nest, k - 1, kind, w, junk);
    }
    hide RunFrom, Wrapper, DoOps, LevelEvents, Below, SearchPhase, FrameAnswer;
    LevelRuns(nest, k, e, m, s, before);
    BelowNext(nest, k, kind, w);
  }

  /** Whatever the slots held, they are initialised. */
  lemma EntryRuns(n: nat, level: nat, w: World, loc: Locals) returns (s: State)
    ensures s == State(loc.(storage := None, flag := NOT_THROWN), w)
    ensures Wrapper(n)[ENTRY].term == Invoke(NORMAL, EXCEPTION)
    ensures DoOps(level, Wrapper(n)[ENTRY].ops, State(loc, w)) == s
  {
    s := State(loc.(storage := None, flag := NOT_THROWN), w);
    TwoOps(level, StoreNull, StoreFlag(NOT_THROWN), State(loc, w));
  }

  /** The two phases agree on every level: cleanup hands out a selector exactly where
      the search phase stopped. */
  lemma SelectorAt(nest: seq<seq<int>>, k: nat, e: Exn)
    requires k < |nest| && k <= SearchPhase(nest, 0, e)
    ensures var i := FrameAnswer(nest[k], ThrownOf(e), false).selector;
      (i > 0 <==> k == SearchPhase(nest, 0, e)) && (i > 0 ==> e.Ours?) && i <= |nest[k]|
  {
    SearchFindsInnermost(nest, 0, e);
  }

  /** One level of the nest, given how its call ended. */
  lemma LevelRuns(nest: seq<seq<int>>, k: nat, e: Exn, m: nat, s: State, before: World)
    requires k < |nest| && m == SearchPhase(nest, 0, e)
    requires s.loc.flag == NOT_THROWN && s.loc.storage == None
    ensures var f := Wrapper(|nest[k]|);
      var after := before.(trace := before.trace + LevelEvents(nest, k, e, m));
      var selector := FrameAnswer(nest[k], ThrownOf(e), false).selector;
      if k > m then RunFrom(f, k, NORMAL, s.(w := before), PATH) == Returned(after)
      else RunFrom(f, k, EXCEPTION, State(s.loc.(exn := Some(e), selector := selector), before), PATH)
             == if k < m then Unwinding(e, after) else Returned(after)
  {
    hide RunFrom, Wrapper, SearchPhase, FirstIndex;
    if k > m {
      NormalRuns(|nest[k]|, k, s.(w := before));
      assert before.trace + [NoException(k)] + [FinallyRan(k)] + [EndRan(k)]
          == before.trace + [NoException(k), FinallyRan(k), EndRan(k)];
    } else {
      SelectorAt(nest, k, e);
      var i := FrameAnswer(nest[k], ThrownOf(e), false).selector;
      LandingPadRuns(|nest[k]|, k, State(s.loc.(exn := Some(e), selector := i), before), e);
    }
  }

  function Outermost(nest: seq<seq<int>>, kind: int, w: World, junk: Junk): Exit {
    if nest == [] then Throw(kind, w) else Call(nest, |nest| - 1, kind, w, junk)
  }

  lemma OutermostRuns(nest: seq<seq<int>>, kind: int, w: World, junk: Junk)
    ensures var e, after := InFlight(kind, w), Below(nest, |nest|, kind, w);
      Outermost(nest, kind, w, junk)
        == if SearchPhase(nest, 0, e) == |nest| then Unwinding(e, after) else Returned(after)
  {
    hide Below;
    if nest == [] {
      ThrowRuns(nest, kind, w);
    } else {
      CallRuns(nest, |nest| - 1, kind, w, junk);
    }
  }

  /** The whole run of the harness, for any nest, any thrown type, and whatever the stack
      holds. */
  lemma HarnessRuns(nest: seq<seq<int>>, kind: int, junk: Junk)
    ensures var e := InFlight(kind, World([], 0)); var m := SearchPhase(nest, 0, e);
      Harness(nest, kind, junk) == ThrowEvents(kind, World([], 0)) + LevelsBelow(nest, |nest|, e, m) + HarnessEvents(nest, e, m)
  {
    var w := World([], 0);
    var e := InFlight(kind, w);
    var m := SearchPhase(nest, 0, e);
    OutermostRuns(nest, kind, w, junk);
    BelowTrace(nest, kind);
    hide Outermost, LevelsBelow, SearchPhase, ThrowEvents, Below, InFlight;
    var all := ThrowEvents(kind, w) + LevelsBelow(nest, |nest|, e, m);
    if m == |nest| {
      assert Harness(nest, kind, junk) == all + [HarnessCaught(e.Ours?)];
    } else {
      assert Harness(nest, kind, junk) == all;
      assert all + [] == all;
    }
  }

  lemma BelowTrace(nest: seq<seq<int>>, kind: int)
    ensures var w := World([], 0); var e := InFlight(kind, w);
      Below(nest, |nest|, kind, w).trace == ThrowEvents(kind, w) + LevelsBelow(nest, |nest|, e, SearchPhase(nest, 0, e))
  {
    hide LevelsBelow, SearchPhase, ThrowEvents;
    var w := World([], 0);
    var e := InFlight(kind, w);
    var levels := LevelsBelow(nest, |nest|, e, SearchPhase(nest, 0, e));
    assert [] + ThrowEvents(kind, w) + levels == ThrowEvents(kind, w) + levels;
  }

  function HarnessEvents(nest: seq<seq<int>>, e: Exn, m: nat): seq<Event> {
    if m == |nest| then [HarnessCaught(e.Ours?)] else []
  }

  // ------------------------------------------------------------------ main results

  function Times(x: Event, t: seq<Event>): nat {
    if t == [] then 0 else (if t[0] == x then 1 else 0) + Times(x, t[1..])
  }

  lemma {:induction false} TimesConcat(x: Event, a: seq<Event>, b: seq<Event>)
    ensures Times(x, a + b) == Times(x, a) + Times(x, b)
    decreases |a|
  {
    if a == [] {
      assert a + b == b;
    } else {
      TimesConcat(x, a[1..], b);
      assert (a + b)[1..] == a[1..] + b;
    }
  }

  /** Counting in a short list. */
  lemma TimesFive(x: Event, a: Event, b: Event, c: Event, d: Event, e: Event)
    ensures Times(x, [a, b]) == One(x, a) + One(x, b)
    ensures Times(x, [a, b, c]) == One(x, a) + One(x, b) + One(x, c)
    ensures Times(x, [a, b, c, d, e]) == One(x, a) + One(x, b) + One(x, c) + One(x, d) + One(x, e)
  {
    TimesOne(x, a);
    TimesOne(x, b);
    TimesOne(x, c);
    TimesOne(x, d);
    TimesOne(x, e);
    hide Times, One;
    assert [a, b] == [a] + [b];
    assert [a, b, c] == [a] + [b] + [c];
    assert [a, b, c, d, e] == [a] + [b] + [c] + [d] + [e];
    TimesConcat(x, [a], [b]);
    TimesConcat(x, [a] + [b], [c]);
    TimesConcat(x, [a] + [b] + [c], [d]);
    TimesConcat(x, [a] + [b] + [c] + [d], [e]);
  }

  function One(x: Event, y: Event): nat {
    if x == y then 1 else 0
  }

  /** The wrapper an event belongs to. */
  function LevelOf(x: Event): Option<nat> {
    match x
    case NoException(k) => Some(k)
    case Received(k, _) => Some(k)
    case ForeignReceived(k) => Some(k)
    case Caught(k, _) => Some(k)
    case FinallyRan(k) => Some(k)
    case EndRan(k) => Some(k)
    case _ => None
  }

  /** How often each event occurs in what one level does. */
  lemma OneLevel(nest: seq<seq<int>>, k: nat, e: Exn, m: nat, x: Event)
    requires k < |nest|
    ensures var t := LevelEvents(nest, k, e, m);
      Times(x, t) ==
        if k > m then One(x, NoException(k)) + One(x, FinallyRan(k)) + One(x, EndRan(k))
        else if e.Foreign? then One(x, ForeignReceived(k)) + One(x, FinallyRan(k))
        else if k < m || FirstIndex(nest[k], e.kind) == 0 then One(x, Received(k, e.kind)) + One(x, FinallyRan(k))
        else One(x, Received(k, e.kind)) + One(x, Caught(k, FirstIndex(nest[k], e.kind) - 1))
             + One(x, FinallyRan(k)) + One(x, EndRan(k)) + One(x, Freed(e.id))
  {
    hide FirstIndex, One, Times;
    if k > m {
      TimesFive(x, NoException(k), FinallyRan(k), EndRan(k), x, x);
    } else if e.Foreign? {
      TimesFive(x, ForeignReceived(k), FinallyRan(k), x, x, x);
    } else {
      var i := FirstIndex(nest[k], e.kind);
      if k < m || i == 0 {
        TimesFive(x, Received(k, e.kind), FinallyRan(k), x, x, x);
      } else {
        TimesFive(x, Received(k, e.kind), Caught(k, i - 1), FinallyRan(k), EndRan(k), Freed(e.id));
      }
    }
  }

  /** The events of a wrapper occur only in what that wrapper does. */
  lemma {:induction false} LevelTimes(nest: seq<seq<int>>, k: nat, e: Exn, m: nat, x: Event, j: nat)
    requires k <= |nest| && j < |nest| && LevelOf(x) == Some(j)
    ensures Times(x, LevelsBelow(nest, k, e, m)) == if j < k then Times(x, LevelEvents(nest, j, e, m)) else 0
    decreases k
  {
    if k > 0 {
      hide FirstIndex, LevelEvents, Times;
      LevelTimes(nest, k - 1, e, m, x, j);
      TimesConcat(x, LevelsBelow(nest, k - 1, e, m), LevelEvents(nest, k - 1, e, m));
      assert LevelsBelow(nest, k, e, m) == LevelsBelow(nest, k - 1, e, m) + LevelEvents(nest, k - 1, e, m);
      hide LevelsBelow;
      if k - 1 != j { OtherLevel(nest, k - 1, e, m, x); }
    }
  }

  lemma OtherLevel(nest: seq<seq<int>>, k: nat, e: Exn, m: nat, x: Event)
    requires k < |nest| && LevelOf(x).Some? && LevelOf(x) != Some(k)
    ensures Times(x, LevelEvents(nest, k, e, m)) == 0
  {
    OneLevel(nest, k, e, m, x);
    hide FirstIndex, Times, LevelEvents;
  }

  /** What the whole run does at level `j` is what that level does. */
  lemma HarnessTimes(nest: seq<seq<int>>, kind: int, junk: Junk, x: Event, j: nat)
    requires j < |nest| && LevelOf(x) == Some(j)
    ensures var e := InFlight(kind, World([], 0));
      Times(x, Harness(nest, kind, junk)) == Times(x, LevelEvents(nest, j, e, SearchPhase(nest, 0, e)))
  {
    var w := World([], 0);
    var e := InFlight(kind, w);
    var m := SearchPhase(nest, 0, e);
    HarnessRuns(nest, kind, junk);
    LevelTimes(nest, |nest|, e, m, x, j);
    TimesFive(x, Throwing(kind), Allocated(0), x, x, x);
    var a, b, c := ThrowEvents(kind, w), LevelsBelow(nest, |nest|, e, m), HarnessEvents(nest, e, m);
    TimesConcat(x, a + b, c);
    TimesConcat(x, a, b);
    TimesOne(x, Throwing(kind));
    TimesOne(x, HarnessCaught(e.Ours?));
  }

  /** The exception thrown reaches the catch block for its type in the innermost wrapper
      that lists it, and only that one; wrappers inside it pass it on, wrappers outside it
      see a normal return; and every wrapper's finally block runs exactly once. */
  lemma ExactlyOnce(nest: seq<seq<int>>, kind: int, junk: Junk, j: nat, i: nat)
    requires j < |nest|
    ensures var t, e := Harness(nest, kind, junk), InFlight(kind, World([], 0)); var m := SearchPhase(nest, 0, e);
      && Times(FinallyRan(j), t) == 1
      && Times(NoException(j), t) == (if m < j then 1 else 0)
      && Times(EndRan(j), t) == (if m <= j then 1 else 0)
      && Times(Caught(j, i), t) == (if j == m && i + 1 == FirstIndex(nest[m], kind) then 1 else 0)
  {
    var e := InFlight(kind, World([], 0));
    var m := SearchPhase(nest, 0, e);
    SearchFindsInnermost(nest, 0, e);
    if j <= m { SelectorAt(nest, j, e); }
    hide SearchPhase, LevelEvents, Harness, Times, FirstIndex;
    HarnessTimes(nest, kind, junk, FinallyRan(j), j);
    HarnessTimes(nest, kind, junk, NoException(j), j);
    HarnessTimes(nest, kind, junk, EndRan(j), j);
    HarnessTimes(nest, kind, junk, Caught(j, i), j);
    LevelOnce(nest, j, e, m, i);
  }

  lemma LevelOnce(nest: seq<seq<int>>, j: nat, e: Exn, m: nat, i: nat)
    requires j < |nest| && (j == m ==> e.Ours?)
    requires j <= m && e.Ours? ==> (FirstIndex(nest[j], e.kind) > 0 <==> j == m)
    ensures var t := LevelEvents(nest, j, e, m);
      && Times(FinallyRan(j), t) == 1
      && Times(NoException(j), t) == (if m < j then 1 else 0)
      && Times(EndRan(j), t) == (if m <= j then 1 else 0)
      && Times(Caught(j, i), t) == (if j == m && i + 1 == FirstIndex(nest[m], e.kind) then 1 else 0)
  {
    hide LevelEvents, Times, FirstIndex;
    OneLevel(nest, j, e, m, FinallyRan(j));
    OneLevel(nest, j, e, m, NoException(j));
    OneLevel(nest, j, e, m, EndRan(j));
    OneLevel(nest, j, e, m, Caught(j, i));
  }

  /** Heap events and those of the harness: below level `k` an exception is freed only
      where it is caught, and nothing is allocated. */
  lemma {:induction false} HeapTimes(nest: seq<seq<int>>, k: nat, e: Exn, m: nat, id: nat, ours: bool)
    requires k <= |nest| && m == SearchPhase(nest, 0, e)
    ensures var t := LevelsBelow(nest, k, e, m);
      && Times(Freed(id), t) == (if m < k && e.Ours? && e.id == id then 1 else 0)
      && Times(Allocated(id), t) == 0 && Times(HarnessCaught(ours), t) == 0
    decreases k
  {
    if k > 0 {
      HeapTimes(nest, k - 1, e, m, id, ours);
      HeapLevel(nest, k - 1, e, m, id, ours);
      var a, b := LevelsBelow(nest, k - 1, e, m), LevelEvents(nest, k - 1, e, m);
      hide FirstIndex, Times, LevelEvents, SearchPhase;
      TimesConcat(Freed(id), a, b);
      TimesConcat(Allocated(id), a, b);
      TimesConcat(HarnessCaught(ours), a, b);
    }
  }

  lemma HeapLevel(nest: seq<seq<int>>, k: nat, e: Exn, m: nat, id: nat, ours: bool)
    requires k < |nest| && m == SearchPhase(nest, 0, e)
    ensures var t := LevelEvents(nest, k, e, m);
      && Times(Freed(id), t) == (if k == m && e.Ours? && e.id == id then 1 else 0)
      && Times(Allocated(id), t) == 0 && Times(HarnessCaught(ours), t) == 0
  {
    if k <= m { SelectorAt(nest, k, e); }
    hide FirstIndex, Times, LevelEvents, SearchPhase;
    OneLevel(nest, k, e, m, Freed(id));
    OneLevel(nest, k, e, m, Allocated(id));
    OneLevel(nest, k, e, m, HarnessCaught(ours));
  }

  /** Exceptions are conserved: one of ours is allocated once and freed once if some wrapper
      catches it and never otherwise, in which case the harness gets it; a foreign one is
      neither allocated nor freed. */
  lemma Conserved(nest: seq<seq<int>>, kind: int, junk: Junk, id: nat)
    ensures var t, ours := Harness(nest, kind, junk), kind != NATIVE_THROW;
      var listed := exists k :: 0 <= k < |nest| && kind in nest[k];
      && Times(Allocated(id), t) == (if ours && id == 0 then 1 else 0)
      && Times(Freed(id), t) == (if ours && id == 0 && listed then 1 else 0)
      && Times(HarnessCaught(ours), t) == (if ours && listed then 0 else 1)
  {
    var w := World([], 0);
    var e, ours := InFlight(kind, w), kind != NATIVE_THROW;
    var m := SearchPhase(nest, 0, e);
    SearchFindsInnermost(nest, 0, e);
    HarnessRuns(nest, kind, junk);
    HeapTimes(nest, |nest|, e, m, id, ours);
    EnvelopeTimes(nest, kind, junk, Allocated(id));
    EnvelopeTimes(nest, kind, junk, Freed(id));
    EnvelopeTimes(nest, kind, junk, HarnessCaught(ours));
    hide Times, LevelsBelow, Harness, SearchPhase;
  }

  /** What the throw function and the harness add to what the wrappers do. */
  lemma EnvelopeTimes(nest: seq<seq<int>>, kind: int, junk: Junk, x: Event)
    requires x.Allocated? || x.Freed? || x.HarnessCaught?
    ensures var e := InFlight(kind, World([], 0)); var m := SearchPhase(nest, 0, e);
      Times(x, Harness(nest, kind, junk)) == Times(x, LevelsBelow(nest, |nest|, e, m))
        + (if e.Ours? then One(x, Allocated(0)) else 0) + (if m == |nest| then One(x, HarnessCaught(e.Ours?)) else 0)
  {
    var w := World([], 0);
    var e := InFlight(kind, w);
    var m := SearchPhase(nest, 0, e);
    HarnessRuns(nest, kind, junk);
    TimesFive(x, Throwing(kind), Allocated(0), x, x, x);
    var a, b, c := ThrowEvents(kind, w), LevelsBelow(nest, |nest|, e, m), HarnessEvents(nest, e, m);
    TimesConcat(x, a + b, c);
    TimesConcat(x, a, b);
    TimesOne(x, Throwing(kind));
    TimesOne(x, HarnessCaught(e.Ours?));
  }

  lemma TimesOne(x: Event, y: Event)
    ensures Times(x, [y]) == One(x, y)
  {
    assert [y][1..] == [];
  }

  // ----------------------------------------------------- down to the emitted tables

  /** The answer for a frame whose landing pad is at code offset `pad`. */
  function AnswerAt(catches: seq<int>, t: Thrown, search: bool, pad: nat): Answer {
    FrameAnswer(catches, t, search).(pad := if search then 0 else pad)
  }

  /** The answer used above is what the personality routine gives for the tables the JIT
      writes for a function that holds the wrapped call: a call site covering it, and the
      landing pad `j` with the catch list, numbered and ending in a cleanup, among whatever
      others the function has.  The landing pad it enters, wherever the code of the exception
      block begins, is that of the site. */
  lemma PersonalityOfWrapper(sites: seq<CallSite>, pads: seq<seq<nat>>, actions: seq<Entry>, firstActions: seq<nat>,
                             j: nat, types: seq<int>, catches: seq<int>, actionTable: nat, pcOffset: nat, s: CallSite,
                             t: Thrown, search: bool)
    requires TableOf(pads, actions, firstActions) && j < |pads| && Numbers(Reversed(pads[j]), types, catches)
    requires FindSite(sites, pcOffset) == Some(s)
    requires s.action == firstActions[j] || (catches == [] && s.action == 0)
    ensures Personality(FrameOf(sites, actions, actionTable), pcOffset, types, t, search)
         == AnswerAt(catches, t, search, s.pad)
  {
    hide Path, Numbers, Chains;
    if s.action == firstActions[j] {
      EmittedPersonality(sites, pads, actions, firstActions, j, types, catches, actionTable, pcOffset, s, t, search);
    }
  }

  /** The personality routine on the very bytes written for such a function, while the call
      is in progress: in either phase it answers what the runs above assume, and cleanup
      enters the landing pad of the site. */
  method OurPersonality(mem: seq<byte>, lsda: nat, search: bool, exceptionObject: nat, t: Thrown, types: seq<int>,
                        context: Context, funcStart: nat, ghost typeOffset: nat, ghost sites: seq<CallSite>,
                        ghost pads: seq<seq<nat>>, ghost actions: seq<Entry>, ghost firstActions: seq<nat>,
                        ghost j: nat, ghost catches: seq<int>)
    returns (ret: Reason)
    requires TableOf(pads, actions, firstActions) && SmallPads(pads, types) && |Bytes(actions)| <= 0x800_0000
    requires typeOffset < 0x8000_0000 && |EmitSites(sites)| < 0x8000_0000
    requires forall s | s in sites :: SmallSite(s) && (s.action == 0 || s.action in firstActions)
    requires At(mem, lsda, EmitLsda(typeOffset, sites, Bytes(actions)))
    requires j < |pads| && Numbers(Reversed(pads[j]), types, catches)
    requires var found := FindSite(sites, Word(context.ip - 1 - funcStart));
      found.Some? && (found.value.action == firstActions[j] || (catches == [] && found.value.action == 0))
    modifies context
    ensures ret == FrameAnswer(catches, t, search).reason
    ensures var pad := FindSite(sites, Word(old(context.ip) - 1 - funcStart)).value.pad;
      Answered(context, AnswerAt(catches, t, search, pad), exceptionObject, funcStart)
  {
    hide TableOf, SmallPads, Numbers, Bytes, EmitLsda, EmitSites, FrameAt, Chains;
    ghost var pcOffset := Word(context.ip - 1 - funcStart);
    ghost var actionTable := lsda + SitesAt(typeOffset, sites) + |EmitSites(sites)|;
    EmittedFrame(mem, lsda, typeOffset, sites, pads, actions, firstActions, types);
    PersonalityOfWrapper(sites, pads, actions, firstActions, j, types, catches, actionTable, pcOffset,
                         FindSite(sites, pcOffset).value, t, search);
    ret := HandleLsda(mem, Some(lsda), search, exceptionObject, t, types, context, funcStart,
                      FrameOf(sites, actions, actionTable));
  }
}
