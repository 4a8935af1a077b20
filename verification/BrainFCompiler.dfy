/**
 The compiler of BrainF.cpp: one pass over the text with one symbol of lookahead, which
 appends to the function as it reads and calls itself at every opening bracket.
 */
module BrainFCompiler {
  import opened Wrappers
  import opened BrainFSource
  import opened BrainFIR
  import opened BrainFGen

  datatype Symbol =
    | SymNone | SymRead | SymWrite | SymMove | SymChange | SymLoop | SymEndLoop | SymEof

  /** How a call of the compiler ends; the two errors end the process in the original. */
  datatype Verdict = Completed | ExtraBracket | MissingBracket

  /** Whether the symbol is one that may be joined with the symbols after it. */
  predicate Joins(sym: Symbol) {
    sym == SymMove || sym == SymChange
  }

  // ------------------------------------------- what is still to be compiled

  /** The parse of a symbol already read, followed by the text from `pos` on. */
  function After(sym: Symbol, value: int, src: seq<char>, pos: nat): Parsed
    requires pos <= |src|
  {
    match sym
    case SymEof => Parsed(Done, pos, AtEof)
    case SymEndLoop => Parsed(Done, pos, AtClose)
    case SymLoop => ParseLoop(src, pos)
    case SymNone => ParseFrom(src, pos)
    case _ => Put(sym, value, ParseFrom(src, pos))
  }

  function Put(sym: Symbol, value: int, k: Parsed): Parsed {
    match sym
    case SymRead => k.(code := Read(k.code))
    case SymWrite => k.(code := Write(k.code))
    case SymMove => k.(code := Move(value, k.code))
    case SymChange => k.(code := Change(value, k.code))
    case _ => k
  }

  /** The same with a second symbol in hand, which there is only after a run. */
  function Pending(sym: Symbol, value: int, nextsym: Symbol, nextvalue: int, src: seq<char>, pos: nat): Parsed
    requires pos <= |src|
  {
    if nextsym == SymNone then After(sym, value, src, pos)
    else Put(sym, value, After(nextsym, nextvalue, src, pos))
  }

  /** Both parses stop at the same place and leave the same code to emit. */
  ghost predicate Same(a: Parsed, b: Parsed) {
    Merge(a.code) == Merge(b.code) && a.pos == b.pos && a.end == b.end
  }

  /** Symbols in hand between two commands: a second one only after a complete run. */
  predicate Settled(sym: Symbol, nextsym: Symbol) {
    sym != SymNone && (Joins(sym) <==> nextsym != SymNone) && nextsym != sym
  }

  /** The symbol a command character stands for, with its direction. */
  function SymbolOf(c: char): (Symbol, int) {
    match c
    case '+' => (SymChange, 1)
    case '-' => (SymChange, -1)
    case '>' => (SymMove, 1)
    case '<' => (SymMove, -1)
    case ',' => (SymRead, 0)
    case '.' => (SymWrite, 0)
    case '[' => (SymLoop, 0)
    case ']' => (SymEndLoop, 0)
    case _ => (SymNone, 0)
  }

  lemma EmitThree(s: State, a: Instr, b: Instr, c: Instr)
    requires s.cur < |s.blocks|
    ensures Emit(Emit(Emit(s, [a], 0), [b], 0), [c], 0) == Emit(s, [a, b, c], 0)
  {
    var is0 := s.blocks[s.cur].instrs;
    assert is0 + [a] + [b] + [c] == is0 + [a, b, c];
  }

  class BrainF {
    var comflag: bool       // flag_arraybounds
    var memtotal: nat
    var input: seq<char>
    var pos: nat
    var blocks: Cfg
    var insert: nat         // the builder's insertion point
    var curhead: Reg
    var free: Reg

    function Built(): State
      reads this
    {
      State(blocks, insert, curhead, free)
    }

    constructor ()
    {
    }

    // ----------------------------------------------------------- the builder

    method CreateBlock(b: Block) returns (bb: nat)
      modifies this`blocks
      ensures bb == |old(blocks)| && blocks == old(blocks) + [b]
    {
      bb := |blocks|;
      blocks := blocks + [b];
    }

    /** Appends an instruction at the insertion point. */
    method Create(i: Instr)
      requires insert < |blocks|
      modifies this`blocks
      ensures Built() == Emit(old(Built()), [i], 0)
    {
      blocks := blocks[insert := blocks[insert].(instrs := blocks[insert].instrs + [i])];
    }

    method NewReg() returns (r: Reg)
      modifies this`free
      ensures r == old(free) && free == old(free) + 1
    {
      r := free;
      free := free + 1;
    }

    method CreateTerm(t: Term)
      requires insert < |blocks|
      modifies this`blocks
      ensures Built() == Terminate(old(Built()), t)
    {
      blocks := blocks[insert := blocks[insert].(term := Some(t))];
    }

    /** Adds an operand to the phi of a block. */
    method AddIncoming(bb: nat, value: Reg, from: nat)
      requires bb < |blocks| && blocks[bb].phi.Some?
      modifies this`blocks
      ensures var p := old(blocks[bb].phi.value);
        blocks == old(blocks)[bb := old(blocks[bb]).(phi := Some(p.(incoming := p.incoming + [(value, from)])))]
    {
      var p := blocks[bb].phi.value;
      blocks := blocks[bb := blocks[bb].(phi := Some(p.(incoming := p.incoming + [(value, from)])))];
    }

    // ------------------------------------------------------ writing out commands

    method WriteRead()
      requires Open(Built())
      modifies this`blocks, this`free
      ensures Built() == EmitRead(old(Built()))
    {
      var tape0 := NewReg();
      Create(GetChar(tape0));
      var tape1 := NewReg();
      Create(Trunc(tape1, tape0));
      Create(Store(tape1, curhead));
      EmitThree(old(Built()), GetChar(tape0), Trunc(tape1, tape0), Store(tape1, curhead));
    }

    method WriteWrite()
      requires Open(Built())
      modifies this`blocks, this`free
      ensures Built() == EmitWrite(old(Built()))
    {
      var tape0 := NewReg();
      Create(Load(tape0, curhead));
      var tape1 := NewReg();
      Create(SExt(tape1, tape0));
      Create(PutChar(tape1));
      EmitThree(old(Built()), Load(tape0, curhead), SExt(tape1, tape0), PutChar(tape1));
    }

    method WriteChange(v: int)
      requires Open(Built())
      modifies this`blocks, this`free
      ensures Built() == EmitChange(old(Built()), v)
    {
      var tape0 := NewReg();
      Create(Load(tape0, curhead));
      var tape1 := NewReg();
      Create(AddI8(tape1, tape0, Low8(v)));
      Create(Store(tape1, curhead));
      EmitThree(old(Built()), Load(tape0, curhead), AddI8(tape1, tape0, Low8(v)), Store(tape1, curhead));
    }

    method WriteMove(v: int)
      requires Open(Built())
      modifies this`blocks, this`free, this`curhead, this`insert
      ensures Built() == EmitMove(comflag, old(Built()), v)
    {
      var head := NewReg();
      Create(Gep(head, curhead, Int32(v)));
      curhead := head;
      if comflag {
        WriteCheck();
      }
    }

    method WriteCheck()
      requires Open(Built())
      modifies this`blocks, this`free, this`insert
      ensures Built() == EmitCheck(old(Built()))
    {
      var test0 := NewReg();
      Create(ICmpUge(test0, curhead, ARRMAX));
      var test1 := NewReg();
      Create(ICmpUlt(test1, curhead, ARR));
      var test2 := NewReg();
      Create(Or(test2, test0, test1));
      EmitThree(old(Built()), ICmpUge(test0, curhead, ARRMAX), ICmpUlt(test1, curhead, ARR), Or(test2, test0, test1));
      CondBranch(test2);
    }

    /** Ends the block with a branch to the error block or on to a new one. */
    method CondBranch(test: Reg)
      requires Open(Built())
      modifies this`blocks, this`insert
      ensures blocks == Terminate(old(Built()), CondBr(test, ABERROR_BB, |old(blocks)|)).blocks + [Block(None, [], None)]
      ensures insert == |old(blocks)|
    {
      var nextbb := CreateBlock(Block(None, [], None));
      CreateTerm(CondBr(test, ABERROR_BB, nextbb));
      insert := nextbb;
    }

    // ------------------------------------------------------------------- loops

    /** The blocks of a loop, and the first half of its phi. */
    method StartLoop() returns (phi: Reg, bodybb: nat, testbb: nat)
      requires Open(Built())
      modifies this`blocks, this`free, this`curhead, this`insert
      ensures Built() == OpenLoop(old(Built()))
      ensures phi == curhead && bodybb == insert && testbb == |old(blocks)|
    {
      testbb := CreateBlock(Block(None, [], None));
      CreateTerm(Br(testbb));
      var bb0 := insert;
      bodybb := CreateBlock(Block(None, [], None));
      insert := bodybb;
      phi := NewReg();
      blocks := blocks[testbb := blocks[testbb].(phi := Some(Phi(phi, [])))];
      AddIncoming(testbb, curhead, bb0);
      assert [] + [(curhead, bb0)] == [(curhead, bb0)];
      curhead := phi;
    }

    /** Completes the phi, writes the loop test, and goes on in a new block. */
    method EndLoop(phi: Reg, oldbb: nat, testbb: nat)
      requires Open(Built()) && testbb < |blocks| && testbb != insert && blocks[testbb].phi.Some?
      modifies this`blocks, this`free, this`curhead, this`insert
      ensures Built() == CloseLoop(old(Built()), phi, oldbb, testbb)
    {
      CreateTerm(Br(testbb));
      AddIncoming(testbb, curhead, insert);
      var tape0 := NewReg();
      var test0 := NewReg();
      var bb0 := CreateBlock(Block(None, [], None));
      WriteTest(phi, tape0, test0, testbb, bb0, oldbb);
      insert := bb0;
      var phi1 := NewReg();
      blocks := blocks[bb0 := Block(Some(Phi(phi1, [(phi, testbb)])), [], None)];
      curhead := phi1;
    }

    method WriteTest(phi: Reg, tape0: Reg, test0: Reg, testbb: nat, exit: nat, oldbb: nat)
      requires testbb < |blocks|
      modifies this`blocks
      ensures blocks == old(blocks)[testbb := old(blocks[testbb]).(
        instrs := old(blocks[testbb]).instrs + [Load(tape0, phi), ICmpEqZero(test0, tape0)],
        term := Some(CondBr(test0, exit, oldbb)))]
    {
      var b := blocks[testbb];
      b := b.(instrs := b.instrs + [Load(tape0, phi)]);
      b := b.(instrs := b.instrs + [ICmpEqZero(test0, tape0)]);
      blocks := blocks[testbb := b.(term := Some(CondBr(test0, exit, oldbb)))];
      assert old(blocks[testbb]).instrs + [Load(tape0, phi)] + [ICmpEqZero(test0, tape0)]
          == old(blocks[testbb]).instrs + [Load(tape0, phi), ICmpEqZero(test0, tape0)];
    }

    // ----------------------------------------------------------------- reading

    /** One character: it extends the symbol in hand, becomes that symbol, or is put
        aside as the next one, which ends the reading. */
    method TakeCharacter(c: char, sym: Symbol, value: int)
      returns (cursym: Symbol, curvalue: int, nextsym: Symbol, nextvalue: int, loop: bool)
      requires sym == SymNone || Joins(sym)
      ensures loop ==> nextsym == SymNone && (cursym == SymNone || Joins(cursym))
      ensures !loop ==> Settled(cursym, nextsym)
      ensures var s := SymbolOf(c);
        if s.0 == SymNone then loop && cursym == sym && curvalue == value
        else if sym == SymNone then cursym == s.0 && (Joins(s.0) ==> curvalue == s.1) && nextsym == SymNone
        else if sym == s.0 then loop && cursym == sym && curvalue == value + s.1
        else cursym == sym && curvalue == value && nextsym == s.0 && (Joins(s.0) ==> nextvalue == s.1)
    {
      cursym, curvalue, nextsym, nextvalue, loop := sym, value, SymNone, 0, true;
      var direction := 1;
      if c == '-' || c == '<' {
        direction := -1;
      }
      match c {
        case '-' | '+' =>
          if cursym == SymChange {
            curvalue := curvalue + direction;
          } else if cursym == SymNone {
            cursym, curvalue := SymChange, direction;
          } else {
            nextsym, nextvalue, loop := SymChange, direction, false;
          }
        case '<' | '>' =>
          if cursym == SymMove {
            curvalue := curvalue + direction;
          } else if cursym == SymNone {
            cursym, curvalue := SymMove, direction;
          } else {
            nextsym, nextvalue, loop := SymMove, direction, false;
          }
        case ',' =>
          if cursym == SymNone { cursym := SymRead; } else { nextsym := SymRead; }
          loop := false;
        case '.' =>
          if cursym == SymNone { cursym := SymWrite; } else { nextsym := SymWrite; }
          loop := false;
        case '[' =>
          if cursym == SymNone { cursym := SymLoop; } else { nextsym := SymLoop; }
          loop := false;
        case ']' =>
          if cursym == SymNone { cursym := SymEndLoop; } else { nextsym := SymEndLoop; }
          loop := false;
        case _ =>
      }
    }

    /** The symbol now in hand, made as long as the text allows. */
    method ReadSymbols(sym: Symbol, value: int)
      returns (cursym: Symbol, curvalue: int, nextsym: Symbol, nextvalue: int)
      requires pos <= |input|
      modifies this`pos
      ensures old(pos) <= pos <= |input|
      ensures Settled(cursym, nextsym)
      ensures Same(After(sym, value, input, old(pos)), Pending(cursym, curvalue, nextsym, nextvalue, input, pos))
      ensures cursym != sym && cursym != SymEof ==> old(pos) < pos
      ensures sym != SymNone ==> cursym == sym
      ensures old(pos) < pos || Rank(cursym, nextsym) < RankOfNext(sym)
    {
      hide ParseFrom, Merge;
      cursym, curvalue, nextsym, nextvalue := sym, value, SymNone, 0;
      var loop := cursym == SymNone || cursym == SymMove || cursym == SymChange;
      while loop
        invariant old(pos) <= pos <= |input|
        invariant if loop then nextsym == SymNone && (cursym == SymNone || Joins(cursym)) else Settled(cursym, nextsym)
        invariant Same(After(sym, value, input, old(pos)), Pending(cursym, curvalue, nextsym, nextvalue, input, pos))
        invariant cursym != sym && cursym != SymEof ==> old(pos) < pos
        invariant sym != SymNone ==> cursym == sym
        invariant pos == old(pos) ==> nextsym == SymNone || nextsym == SymEof
        decreases loop, |input| - pos
      {
        if pos == |input| {
          EndOfText(input, cursym, curvalue);
          if cursym == SymNone {
            cursym := SymEof;
          } else {
            nextsym := SymEof;
          }
          loop := false;
        } else {
          TakenCharacter(input, pos, cursym, curvalue);
          var c := input[pos];
          pos := pos + 1;
          cursym, curvalue, nextsym, nextvalue, loop := TakeCharacter(c, cursym, curvalue);
        }
      }
    }

    // ------------------------------------------------------------- the main loop

    /** Writes out one command other than a bracket. */
    method WriteCommand(sym: Symbol, value: int)
      requires Open(Built()) && sym in {SymRead, SymWrite, SymMove, SymChange}
      modifies this`blocks, this`free, this`curhead, this`insert
      ensures Built() == First(comflag, old(Built()), CommandOf(sym, value))
      ensures Grown(old(Built()), Built())
    {
      match sym
      case SymRead => WriteRead();
      case SymWrite => WriteWrite();
      case SymMove => WriteMove(value);
      case SymChange => WriteChange(value);
    }

    /** A loop, from the character after its opening bracket to its closing one. */
    method WriteLoop() returns (v: Verdict)
      requires pos <= |input| && Open(Built())
      modifies this`pos, this`blocks, this`free, this`curhead, this`insert
      ensures old(pos) <= pos <= |input|
      ensures v == Judge(ParseFrom(input, old(pos)).end, true)
      ensures v == Completed ==> pos == ParseFrom(input, old(pos)).pos
      ensures v == Completed ==>
        Built() == Closed(old(Built()), Gen(comflag, OpenLoop(old(Built())), Merge(ParseFrom(input, old(pos)).code)))
      decreases |input| - pos, 3
    {
      hide ParseFrom, Merge, Gen;
      var phi, bodybb, testbb := StartLoop();
      v := Readloop(Some(phi), bodybb, testbb);
    }

    /** A command other than a bracket, of the text that parses as `p` and compiles to `goal`. */
    method WriteNext(sym: Symbol, value: int, nextsym: Symbol, nextvalue: int, ghost goal: State, ghost p: Parsed)
      requires pos <= |input| && Settled(sym, nextsym) && sym in {SymRead, SymWrite, SymMove, SymChange}
      requires Open(Built()) && Owes(comflag, goal, p, Built(), sym, value, nextsym, nextvalue, input, pos)
      modifies this`blocks, this`free, this`curhead, this`insert
      ensures Open(Built()) && Remains(comflag, goal, p, Built(), After(nextsym, nextvalue, input, pos))
    {
      ghost var s1 := Built();
      CommandRemains(comflag, goal, p, s1, sym, value, nextsym, nextvalue, input, pos);
      WriteCommand(sym, value);
    }

    /** Reading on in that text. */
    method NextSymbols(sym: Symbol, value: int, ghost goal: State, ghost p: Parsed)
      returns (cursym: Symbol, curvalue: int, nextsym: Symbol, nextvalue: int)
      requires pos <= |input|
      requires Open(Built()) && Remains(comflag, goal, p, Built(), After(sym, value, input, pos))
      modifies this`pos
      ensures old(pos) <= pos <= |input|
      ensures Settled(cursym, nextsym)
      ensures cursym != SymEof && old(pos) == pos ==> cursym == sym
      ensures old(pos) < pos || Rank(cursym, nextsym) < RankOfNext(sym)
      ensures Owes(comflag, goal, p, Built(), cursym, curvalue, nextsym, nextvalue, input, pos)
    {
      ghost var k := After(sym, value, input, pos);
      cursym, curvalue, nextsym, nextvalue := ReadSymbols(sym, value);
      RemainsSame(comflag, goal, p, Built(), k, Pending(cursym, curvalue, nextsym, nextvalue, input, pos));
    }

    /** A loop of that text. */
    method WriteNested(ghost goal: State, ghost p: Parsed) returns (v: Verdict)
      requires pos <= |input|
      requires Open(Built()) && Owes(comflag, goal, p, Built(), SymLoop, 0, SymNone, 0, input, pos)
      modifies this`pos, this`blocks, this`free, this`curhead, this`insert
      ensures old(pos) <= pos <= |input|
      ensures v == Completed ==> Open(Built()) && Remains(comflag, goal, p, Built(), ParseFrom(input, pos))
      ensures v != Completed ==> v == MissingBracket && p.end == Unclosed
      decreases |input| - pos, 4
    {
      ghost var s1 := Built();
      LoopRemains(comflag, goal, p, s1, input, pos);
      v := WriteLoop();
    }

    /** The symbol in hand. */
    method WriteSymbol(sym: Symbol, value: int, nextsym: Symbol, nextvalue: int, ghost goal: State, ghost p: Parsed)
      returns (v: Verdict)
      requires pos <= |input| && sym != SymEof && sym != SymEndLoop
      requires if sym == SymNone then nextsym == SymNone else Settled(sym, nextsym)
      requires Open(Built()) && Owes(comflag, goal, p, Built(), sym, value, nextsym, nextvalue, input, pos)
      modifies this`pos, this`blocks, this`free, this`curhead, this`insert
      ensures old(pos) <= pos <= |input|
      ensures v == Completed ==>
        Open(Built()) && Remains(comflag, goal, p, Built(), After(nextsym, nextvalue, input, pos))
      ensures v != Completed ==> v == MissingBracket && p.end == Unclosed
      decreases |input| - pos, if sym == SymNone then 0 else 5
    {
      v := Completed;
      if sym == SymLoop {
        v := WriteNested(goal, p);
      } else if sym != SymNone {
        WriteNext(sym, value, nextsym, nextvalue, goal, p);
      }
    }

    /** Compiles up to the bracket that closes the enclosing loop, if `phi` says there is
        one, and otherwise up to the end of the text. */
    method Readloop(phi: Option<Reg>, oldbb: nat, testbb: nat) returns (v: Verdict)
      requires pos <= |input| && Open(Built())
      requires phi.Some? ==> testbb < |blocks| && testbb != insert && blocks[testbb].phi.Some?
      modifies this`pos, this`blocks, this`free, this`curhead, this`insert
      ensures old(pos) <= pos <= |input|
      ensures v == Judge(ParseFrom(input, old(pos)).end, phi.Some?)
      ensures v == Completed ==> pos == ParseFrom(input, old(pos)).pos
      ensures v == Completed ==>
        Built() == Finish(Gen(comflag, old(Built()), Merge(ParseFrom(input, old(pos)).code)), phi, oldbb, testbb)
      decreases |input| - pos, 2
    {
      var cursym;
      v, cursym := ReadCommands();
      if v == Completed {
        v := WriteEnd(cursym, phi, oldbb, testbb);
      }
    }

    /** Reads and writes out commands until a closing bracket or the end of the text,
        or until a loop inside turns out not to be closed. */
    method ReadCommands() returns (v: Verdict, cursym: Symbol)
      requires pos <= |input| && Open(Built())
      modifies this`pos, this`blocks, this`free, this`curhead, this`insert
      ensures old(pos) <= pos <= |input|
      ensures var p := ParseFrom(input, old(pos));
        if v != Completed then v == MissingBracket && p.end == Unclosed
        else
          && pos == p.pos && Built() == Gen(comflag, old(Built()), Merge(p.code))
          && p.end == (if cursym == SymEndLoop then AtClose else AtEof)
          && (cursym == SymEndLoop || cursym == SymEof)
      decreases |input| - pos, 1
    {
      hide ParseFrom, Emit, First;
      ghost var p := ParseFrom(input, pos);
      ghost var goal := Gen(comflag, Built(), Merge(p.code));
      v := Completed;
      var curvalue, nextsym, nextvalue;
      cursym, curvalue, nextsym, nextvalue := SymNone, 0, SymNone, 0;
      while cursym != SymEof && cursym != SymEndLoop
        invariant old(pos) <= pos <= |input|
        invariant if cursym == SymNone then nextsym == SymNone else Settled(cursym, nextsym)
        invariant cursym != SymNone && cursym != SymEof ==> old(pos) < pos
        invariant v == Completed && Open(Built())
        invariant Owes(comflag, goal, p, Built(), cursym, curvalue, nextsym, nextvalue, input, pos)
        decreases |input| - pos, Rank(cursym, nextsym)
      {
        v := WriteSymbol(cursym, curvalue, nextsym, nextvalue, goal, p);
        if v != Completed {
          return;
        }
        cursym, curvalue, nextsym, nextvalue := NextSymbols(nextsym, nextvalue, goal, p);
      }
    }

    /** What follows the last command: the end of a loop or of the program. */
    method WriteEnd(cursym: Symbol, phi: Option<Reg>, oldbb: nat, testbb: nat) returns (v: Verdict)
      requires Open(Built()) && (cursym == SymEndLoop || cursym == SymEof)
      requires phi.Some? ==> testbb < |blocks| && testbb != insert && blocks[testbb].phi.Some?
      modifies this`blocks, this`free, this`curhead, this`insert
      ensures v == Judge(if cursym == SymEndLoop then AtClose else AtEof, phi.Some?)
      ensures v == Completed ==> Built() == Finish(old(Built()), phi, oldbb, testbb)
    {
      if cursym == SymEndLoop {
        if phi.None? {
          return ExtraBracket;
        }
        EndLoop(phi.value, oldbb, testbb);
        return Completed;
      }
      CreateTerm(Br(END_BB));
      if phi.Some? {
        return MissingBracket;
      }
      return Completed;
    }

    // -------------------------------------------------------------- the program

    /** The entry block, the return block, and the block that reports a bounds error. */
    method WriteHeader()
      modifies this`blocks, this`free, this`curhead, this`insert
      ensures Built() == Header(comflag, memtotal)
    {
      free, curhead := FIRST_FREE, HEAD;
      WriteEntry();
      hide EntryInstrs;
      var endbb := CreateBlock(END_BLOCK);
      if comflag {
        var aberrorbb := CreateBlock(ABERROR_BLOCK);
      }
    }

    method WriteEntry()
      modifies this`blocks, this`insert
      ensures insert == 0 && blocks == [Block(None, EntryInstrs(comflag, memtotal), None)]
    {
      hide Int32;
      blocks := [];
      insert := CreateBlock(Block(None, [], None));
      Create(Malloc(ARR, memtotal));
      Create(Memset(ARR, memtotal));
      if comflag {
        Create(Gep(ARRMAX, ARR, Int32(memtotal)));
      }
      Create(Gep(HEAD, ARR, Int32(memtotal / 2)));
      assert blocks[0].instrs == EntryInstrs(comflag, memtotal);
    }

    /** Compiles a whole text for a tape of `mem` cells.  It succeeds exactly on balanced
        texts, reads all of them, and leaves the function whose meaning BrainFCorrect proves. */
    method Parse(in1: seq<char>, mem: nat, cf: bool) returns (v: Verdict)
      modifies this
      ensures v == Completed <==> Balanced(in1)
      ensures v == ExtraBracket <==> exists i: nat :: i <= |in1| && Depth(in1, i) < 0
      ensures v == Completed ==> pos == |in1| && blocks == Program(cf, mem, Merge(ParseFrom(in1, 0).code))
    {
      input, pos, memtotal, comflag := in1, 0, mem, cf;
      WriteHeader();
      v := Readloop(None, 0, 0);
      AcceptedIffBalanced(in1);
      StrayIffNegative(in1);
      ParseDepth(in1, 0);
    }
  }

  /** The rank of any settled hand whose second symbol is `sym`, save the last ones. */
  function RankOfNext(sym: Symbol): nat {
    if sym == SymNone then 1 else if sym == SymEof || sym == SymEndLoop then 2 else 3
  }

  /** Falls with every command written out without reading a further character. */
  function Rank(sym: Symbol, nextsym: Symbol): nat {
    if sym == SymEof || sym == SymEndLoop then 0
    else RankOfNext(nextsym)
  }

  /** How a call ends, given what stopped the parse and whether a loop was open. */
  function Judge(end: End, inLoop: bool): Verdict {
    if end == (if inLoop then AtClose else AtEof) then Completed
    else if end == AtClose then ExtraBracket
    else MissingBracket
  }

  /** The last thing a call does: it closes the loop it was called for, or the program. */
  ghost function Finish(s: State, phi: Option<Reg>, oldbb: nat, testbb: nat): State
    requires Open(s)
  {
    if phi.None? then Terminate(s, Br(END_BB))
    else if testbb < |s.blocks| && s.blocks[testbb].phi.Some? then CloseLoop(s, phi.value, oldbb, testbb)
    else s
  }

  function CommandOf(sym: Symbol, value: int): Code {
    Put(sym, value, Parsed(Done, 0, AtEof)).code
  }

  lemma CommandRemains(checked: bool, goal: State, a: Parsed, t: State, sym: Symbol, value: int,
                       nextsym: Symbol, nextvalue: int, src: seq<char>, pos: nat)
    requires pos <= |src| && Open(t) && sym in {SymRead, SymWrite, SymMove, SymChange}
    requires Settled(sym, nextsym)
    requires Remains(checked, goal, a, t, Pending(sym, value, nextsym, nextvalue, src, pos))
    ensures Remains(checked, goal, a, First(checked, t, CommandOf(sym, value)), After(nextsym, nextvalue, src, pos))
  {
    var k := After(nextsym, nextvalue, src, pos);
    var c := Put(sym, value, k.(code := Merge(k.code))).code;
    assert Merge(Put(sym, value, k).code) == c && c.next == Merge(k.code);
    GenStep(checked, t, c);
    assert First(checked, t, c) == First(checked, t, CommandOf(sym, value));
  }

  lemma LoopRemains(checked: bool, goal: State, a: Parsed, t: State, src: seq<char>, pos: nat)
    requires pos <= |src| && Open(t)
    requires Remains(checked, goal, a, t, ParseLoop(src, pos))
    ensures var b := ParseFrom(src, pos);
      if b.end != AtClose then a.end == Unclosed
      else Remains(checked, goal, a, Closed(t, Gen(checked, OpenLoop(t), Merge(b.code))), ParseFrom(src, b.pos))
  {
    var b := ParseFrom(src, pos);
    if b.end == AtClose {
      GenStep(checked, t, Merge(ParseLoop(src, pos).code));
    }
  }

  /** Emitting the rest `b` of the parse `a` from state `t` on leads to `goal`. */
  ghost predicate Remains(checked: bool, goal: State, a: Parsed, t: State, b: Parsed)
    requires Open(t)
  {
    && a.pos == b.pos && a.end == b.end
    && goal == Gen(checked, t, Merge(b.code))
  }

  /** So much of the parse `a` is left with these symbols in hand. */
  ghost predicate Owes(checked: bool, goal: State, a: Parsed, t: State, sym: Symbol, value: int,
                       nextsym: Symbol, nextvalue: int, src: seq<char>, pos: nat)
    requires Open(t) && pos <= |src|
  {
    Remains(checked, goal, a, t, Pending(sym, value, nextsym, nextvalue, src, pos))
  }

  lemma RemainsSame(checked: bool, goal: State, a: Parsed, t: State, b: Parsed, c: Parsed)
    requires Open(t) && Remains(checked, goal, a, t, b) && Same(b, c)
    ensures Remains(checked, goal, a, t, c)
  {
  }

  /** What is left to compile, before and after the end of the text is met. */
  lemma EndOfText(src: seq<char>, sym: Symbol, value: int)
    requires sym == SymNone || Joins(sym)
    ensures var k := After(sym, value, src, |src|);
      Same(k, if sym == SymNone then After(SymEof, value, src, |src|) else Put(sym, value, After(SymEof, 0, src, |src|)))
  {
  }

  /** And before and after a character is taken in hand. */
  lemma TakenCharacter(src: seq<char>, pos: nat, sym: Symbol, value: int)
    requires pos < |src| && (sym == SymNone || Joins(sym))
    ensures var s, k := SymbolOf(src[pos]), After(sym, value, src, pos);
      if s.0 == SymNone then Same(k, After(sym, value, src, pos + 1))
      else if sym == SymNone then Same(k, After(s.0, s.1, src, pos + 1))
      else if sym == s.0 then Same(k, After(sym, value + s.1, src, pos + 1))
      else Same(k, Put(sym, value, After(s.0, s.1, src, pos + 1)))
  {
  }
}
