/**
 The BrainF language: what a source text means.  `ParseFrom` is the grammar, `Exec` the
 semantics of the table at the head of BrainF.cpp, and `Merge` the joining of runs of
 moves and of changes that the compiler performs while it reads.
 */
module BrainFSource {
  import opened Wrappers

  /** A command sequence.  The value of Move and Change is 1 or -1 as parsed and the
      sum of a run once merged. */
  datatype Code =
    | Done
    | Move(v: int, next: Code)
    | Change(v: int, next: Code)
    | Read(next: Code)
    | Write(next: Code)
    | Loop(body: Code, next: Code)

  // ---------------------------------------------------------------- grammar

  datatype End = AtEof | AtClose | Unclosed

  /** The commands from some position up to the bracket or the end of text that stops
      them, with the position after what was read. */
  datatype Parsed = Parsed(code: Code, pos: nat, end: End)

  /** A command other than a bracket in front of `k`; any other character is a comment. */
  function Prepend(c: char, k: Code): Code {
    match c
    case '+' => Change(1, k)
    case '-' => Change(-1, k)
    case '>' => Move(1, k)
    case '<' => Move(-1, k)
    case ',' => Read(k)
    case '.' => Write(k)
    case _ => k
  }

  function ParseFrom(src: seq<char>, i: nat): (r: Parsed)
    requires i <= |src|
    ensures i <= r.pos <= |src|
    decreases |src| - i, 0
  {
    if i == |src| then Parsed(Done, i, AtEof)
    else if src[i] == ']' then Parsed(Done, i + 1, AtClose)
    else if src[i] == '[' then ParseLoop(src, i + 1)
    else
      var k := ParseFrom(src, i + 1);
      k.(code := Prepend(src[i], k.code))
  }

  /** The loop whose opening bracket is the character before `i`, and what follows it. */
  function ParseLoop(src: seq<char>, i: nat): (r: Parsed)
    requires i <= |src|
    ensures i <= r.pos <= |src|
    decreases |src| - i, 1
  {
    var b := ParseFrom(src, i);
    if b.end != AtClose then Parsed(Done, b.pos, Unclosed)
    else
      var k := ParseFrom(src, b.pos);
      k.(code := Loop(b.code, k.code))
  }

  /** Opening minus closing brackets among the first `i` characters. */
  function Depth(src: seq<char>, i: nat): int
    requires i <= |src|
  {
    if i == 0 then 0
    else Depth(src, i - 1) + (if src[i-1] == '[' then 1 else if src[i-1] == ']' then -1 else 0)
  }

  ghost predicate Balanced(src: seq<char>) {
    Depth(src, |src|) == 0 && forall i | 0 <= i <= |src| :: Depth(src, i) >= 0
  }

  /** How the parse of a stretch of text ends, in terms of bracket depth. */
  lemma {:induction false} ParseDepth(src: seq<char>, i: nat)
    requires i <= |src|
    ensures var r := ParseFrom(src, i);
      && (forall j | i <= j < r.pos :: Depth(src, j) >= Depth(src, i))
      && (r.end == AtEof ==> r.pos == |src| && Depth(src, |src|) == Depth(src, i))
      && (r.end == AtClose ==> r.pos > i && Depth(src, r.pos) == Depth(src, i) - 1)
      && (r.end == Unclosed ==> r.pos == |src| && Depth(src, |src|) > Depth(src, i))
    decreases |src| - i
  {
    if i == |src| || src[i] == ']' {
    } else {
      ParseDepth(src, i + 1);
      if src[i] == '[' {
        var b := ParseFrom(src, i + 1);
        if b.end == AtClose {
          ParseDepth(src, b.pos);
        }
      }
    }
  }

  /** The text is accepted exactly when its brackets balance. */
  lemma AcceptedIffBalanced(src: seq<char>)
    ensures ParseFrom(src, 0).end == AtEof <==> Balanced(src)
  {
    ParseDepth(src, 0);
    var r := ParseFrom(src, 0);
    if r.end == AtEof {
      assert forall j | 0 <= j <= |src| :: Depth(src, j) >= 0;
    }
  }

  /** A closing bracket without its opening one is met exactly when some prefix of the
      text closes more brackets than it opens. */
  lemma StrayIffNegative(src: seq<char>)
    ensures ParseFrom(src, 0).end == AtClose <==> exists i: nat :: i <= |src| && Depth(src, i) < 0
  {
    ParseDepth(src, 0);
    var r := ParseFrom(src, 0);
    if r.end == AtClose {
      assert Depth(src, r.pos) < 0;
    }
  }

  // ------------------------------------------------- text and commands, both ways

  predicate IsCommand(c: char) {
    c in ",.-+<>[]"
  }

  /** The command characters of a text; the rest is comment. */
  function Filter(s: seq<char>): seq<char> {
    if s == [] then [] else (if IsCommand(s[0]) then [s[0]] else []) + Filter(s[1..])
  }

  lemma {:induction false} FilterConcat(a: seq<char>, b: seq<char>)
    ensures Filter(a + b) == Filter(a) + Filter(b)
    decreases |a|
  {
    if a == [] {
      assert a + b == b;
    } else {
      hide IsCommand;
      FilterConcat(a[1..], b);
      assert (a + b)[1..] == a[1..] + b;
      var first := if IsCommand(a[0]) then [a[0]] else [];
      assert first + (Filter(a[1..]) + Filter(b)) == (first + Filter(a[1..])) + Filter(b);
    }
  }

  predicate Unit(c: Code) {
    match c
    case Done => true
    case Move(v, k) => (v == 1 || v == -1) && Unit(k)
    case Change(v, k) => (v == 1 || v == -1) && Unit(k)
    case Read(k) => Unit(k)
    case Write(k) => Unit(k)
    case Loop(b, k) => Unit(b) && Unit(k)
  }

  function Unparse(c: Code): seq<char> {
    match c
    case Done => []
    case Move(v, k) => [if v > 0 then '>' else '<'] + Unparse(k)
    case Change(v, k) => [if v > 0 then '+' else '-'] + Unparse(k)
    case Read(k) => [','] + Unparse(k)
    case Write(k) => ['.'] + Unparse(k)
    case Loop(b, k) => ['['] + Unparse(b) + [']'] + Unparse(k)
  }

  /** The commands of a parse, with the bracket that stopped it. */
  function Spelled(r: Parsed): seq<char> {
    Unparse(r.code) + (if r.end == AtClose then "]" else "")
  }

  lemma SpellCommand(c: char, k: Code)
    requires c != '[' && c != ']'
    ensures Unparse(Prepend(c, k)) == Filter([c]) + Unparse(k)
  {
    assert [c][1..] == [];
    assert Filter([c]) == (if IsCommand(c) then [c] else []);
  }

  /** Every character is consumed once: what was parsed spells out the command
      characters of exactly the stretch of text that was read. */
  lemma {:induction false} ParseSpells(src: seq<char>, i: nat)
    requires i <= |src|
    ensures ParseFrom(src, i).end != Unclosed ==>
              Spelled(ParseFrom(src, i)) == Filter(src[i..ParseFrom(src, i).pos])
    decreases |src| - i, 0
  {
    var r := ParseFrom(src, i);
    if i == |src| {
    } else if src[i] == ']' {
      assert src[i..r.pos] == "]";
      assert "]"[1..] == [];
    } else if src[i] == '[' {
      if r.end != Unclosed { LoopSpells(src, i); }
    } else {
      ParseSpells(src, i + 1);
      var k := ParseFrom(src, i + 1);
      if k.end != Unclosed {
        SpellCommand(src[i], k.code);
        FilterConcat([src[i]], src[i+1..r.pos]);
        assert src[i..r.pos] == [src[i]] + src[i+1..r.pos];
      }
    }
  }

  lemma FilterBracket()
    ensures Filter("[") == "["
  {
    assert "["[1..] == [];
  }

  lemma SpellBracketed(b: Parsed, k: Parsed, inner: seq<char>, rest: seq<char>)
    requires b.end == AtClose && Spelled(b) == Filter(inner) && Spelled(k) == Filter(rest)
    ensures Spelled(k.(code := Loop(b.code, k.code))) == Filter("[" + (inner + rest))
  {
    hide Filter;
    FilterConcat("[", inner + rest);
    FilterConcat(inner, rest);
    FilterBracket();
    assert Spelled(k.(code := Loop(b.code, k.code))) == "[" + (Spelled(b) + Spelled(k));
  }

  lemma {:induction false} LoopSpells(src: seq<char>, i: nat)
    requires i < |src| && src[i] == '[' && ParseFrom(src, i).end != Unclosed
    ensures Spelled(ParseFrom(src, i)) == Filter(src[i..ParseFrom(src, i).pos])
    decreases |src| - i - 1, 1
  {
    ParseSpells(src, i + 1);
    var b := ParseFrom(src, i + 1);
    ParseSpells(src, b.pos);
    var k := ParseFrom(src, b.pos);
    assert src[i..k.pos] == "[" + (src[i+1..b.pos] + src[b.pos..k.pos]);
    SpellBracketed(b, k, src[i+1..b.pos], src[b.pos..k.pos]);
  }

  lemma {:induction false} ParsesToUnits(src: seq<char>, i: nat)
    requires i <= |src|
    ensures Unit(ParseFrom(src, i).code)
    decreases |src| - i
  {
    if i < |src| && src[i] != ']' {
      ParsesToUnits(src, i + 1);
      if src[i] == '[' && ParseFrom(src, i + 1).end == AtClose {
        ParsesToUnits(src, ParseFrom(src, i + 1).pos);
      }
    }
  }

  /** `u` stands in `src` from position `i`. */
  ghost predicate At(src: seq<char>, i: nat, u: seq<char>) {
    i + |u| <= |src| && src[i..i + |u|] == u
  }

  lemma AtConcat(src: seq<char>, i: nat, u: seq<char>, v: seq<char>)
    requires At(src, i, u + v)
    ensures At(src, i, u) && At(src, i + |u|, v)
  {
    var w := src[i..i + |u + v|];
    assert forall k | 0 <= k < |u| :: src[i + k] == w[k] == u[k];
    assert forall k | 0 <= k < |v| :: src[i + |u| + k] == w[|u| + k] == v[k];
  }

  /** Conversely any command sequence, written out anywhere in a text, is read back. */
  lemma {:induction false} UnparseParses(src: seq<char>, i: nat, c: Code)
    requires Unit(c) && At(src, i, Unparse(c))
    requires var j := i + |Unparse(c)|; j == |src| || src[j] == ']'
    ensures ParseFrom(src, i) == StoppedAt(src, c, i + |Unparse(c)|)
    decreases c
  {
    hide At;
    if c.Loop? {
      var j := i + 1 + |Unparse(c.body)|;
      LoopAt(src, i, c.body, c.next);
      UnparseParses(src, i + 1, c.body);
      UnparseParses(src, j + 1, c.next);
    } else if !c.Done? {
      CommandAt(src, i, c);
      UnparseParses(src, i + 1, c.next);
    }
  }

  /** The parse of `c` when nothing or a closing bracket comes next, at `j`. */
  ghost function StoppedAt(src: seq<char>, c: Code, j: nat): Parsed {
    if j == |src| then Parsed(c, j, AtEof) else Parsed(c, j + 1, AtClose)
  }

  lemma CommandAt(src: seq<char>, i: nat, c: Code)
    requires Unit(c) && !c.Done? && !c.Loop? && At(src, i, Unparse(c))
    ensures i < |src| && src[i] != '[' && src[i] != ']'
    ensures Prepend(src[i], c.next) == c && At(src, i + 1, Unparse(c.next))
    ensures |Unparse(c)| == 1 + |Unparse(c.next)|
  {
    var x := CommandSpells(c);
    hide Unparse, Unit, Prepend;
    AtConcat(src, i, [x], Unparse(c.next));
    assert src[i] == src[i..i + 1][0];
  }

  lemma CommandSpells(c: Code) returns (x: char)
    requires Unit(c) && !c.Done? && !c.Loop?
    ensures x != '[' && x != ']' && Prepend(x, c.next) == c && Unparse(c) == [x] + Unparse(c.next)
  {
    x := Unparse(c)[0];
  }

  lemma LoopSpelling(b: Code, k: Code)
    ensures Unparse(Loop(b, k)) == "[" + (Unparse(b) + ("]" + Unparse(k)))
  {
    var u, v := Unparse(b), Unparse(k);
    assert ['['] + u + [']'] + v == "[" + (u + ("]" + v));
  }

  lemma LoopAt(src: seq<char>, i: nat, b: Code, k: Code)
    requires At(src, i, Unparse(Loop(b, k)))
    ensures var j := i + 1 + |Unparse(b)|;
      j < |src| && src[i] == '[' && src[j] == ']' && At(src, i + 1, Unparse(b)) && At(src, j + 1, Unparse(k))
    ensures i + |Unparse(Loop(b, k))| == i + 2 + |Unparse(b)| + |Unparse(k)|
  {
    var u, v := Unparse(b), Unparse(k);
    LoopSpelling(b, k);
    hide Unparse;
    BracketsAt(src, i, u, v);
  }

  lemma BracketsAt(src: seq<char>, i: nat, u: seq<char>, v: seq<char>)
    requires At(src, i, "[" + (u + ("]" + v)))
    ensures var j := i + 1 + |u|;
      j < |src| && src[i] == '[' && src[j] == ']' && At(src, i + 1, u) && At(src, j + 1, v)
  {
    var j := i + 1 + |u|;
    AtConcat(src, i, "[", u + ("]" + v));
    AtConcat(src, i + 1, u, "]" + v);
    AtConcat(src, j, "]", v);
    assert src[i] == src[i..i + 1][0] && src[j] == src[j..j + 1][0];
  }

  // --------------------------------------------------------------- semantics

  /** `head` counts from the first cell of the tape and may point outside it. */
  datatype Machine = Machine(head: int, tape: seq<byte>, inp: seq<byte>, out: seq<byte>) {
    predicate OnTape() {
      0 <= head < |tape|
    }

    function Cell(): byte
      requires OnTape()
    {
      tape[head]
    }

    function Put(b: byte): Machine
      requires OnTape()
    {
      this.(tape := tape[head := b])
    }

    function Moved(v: int): Machine {
      this.(head := head + v)
    }

    function Added(v: int): Machine
      requires OnTape()
    {
      Put((Cell() + v) % 256)
    }

    /** `*h = getchar()`, where the end of the input reads as 255. */
    function Fetched(): Machine
      requires OnTape()
    {
      if inp == [] then Put(255) else Put(inp[0]).(inp := inp[1..])
    }

    function Shown(): Machine
      requires OnTape()
    {
      this.(out := out + [Cell()])
    }
  }

  /** Finished normally; accessed a cell outside the tape; stopped by a bounds check;
      or not finished within the fuel. */
  datatype Outcome =
    | Finished(m: Machine)
    | OffTape(out: seq<byte>)
    | Aborted(m: Machine)
    | Running

  /** The table of BrainF.cpp, one command at a time.  `checked` adds the test that
      every move ends on the tape.  Fuel bounds the nesting of loop iterations only. */
  function Exec(checked: bool, c: Code, m: Machine, fuel: nat): Outcome
    decreases fuel, c
  {
    match c
    case Done => Finished(m)
    case Move(v, k) =>
      var m' := m.Moved(v);
      if checked && !m'.OnTape() then Aborted(m') else Exec(checked, k, m', fuel)
    case Change(v, k) =>
      if !m.OnTape() then OffTape(m.out) else Exec(checked, k, m.Added(v), fuel)
    case Read(k) =>
      if !m.OnTape() then OffTape(m.out) else Exec(checked, k, m.Fetched(), fuel)
    case Write(k) =>
      if !m.OnTape() then OffTape(m.out) else Exec(checked, k, m.Shown(), fuel)
    case Loop(b, k) =>
      if !m.OnTape() then OffTape(m.out)
      else if m.Cell() == 0 then Exec(checked, k, m, fuel)
      else if fuel == 0 then Running
      else
        match Exec(checked, b, m, fuel - 1)
        case Finished(m') => Exec(checked, c, m', fuel - 1)
        case r => r
  }

  lemma OneCharacter(c: char)
    requires c != '[' && c != ']'
    ensures ParseFrom([c], 0).code == Prepend(c, Done)
  {
  }

  /** The table of BrainF.cpp: what each character does to the head, the cell and the
      streams. */
  lemma CommandTable(m: Machine, fuel: nat)
    requires m.OnTape()
    ensures Exec(false, ParseFrom(">", 0).code, m, fuel) == Finished(m.(head := m.head + 1))
    ensures Exec(false, ParseFrom("<", 0).code, m, fuel) == Finished(m.(head := m.head - 1))
    ensures var x := m.tape[m.head];
      Exec(false, ParseFrom("+", 0).code, m, fuel) == Finished(m.(tape := m.tape[m.head := if x == 255 then 0 else x + 1]))
    ensures var x := m.tape[m.head];
      Exec(false, ParseFrom("-", 0).code, m, fuel) == Finished(m.(tape := m.tape[m.head := if x == 0 then 255 else x - 1]))
    ensures Exec(false, ParseFrom(".", 0).code, m, fuel) == Finished(m.(out := m.out + [m.tape[m.head]]))
    ensures Exec(false, ParseFrom(",", 0).code, m, fuel)
         == if m.inp == [] then Finished(m.(tape := m.tape[m.head := 255]))
            else Finished(m.(tape := m.tape[m.head := m.inp[0]], inp := m.inp[1..]))
  {
    OneCharacter('>');
    OneCharacter('<');
    OneCharacter('+');
    OneCharacter('-');
    OneCharacter('.');
    OneCharacter(',');
    hide ParseFrom;
  }

  /** The state in which a program starts on a zeroed tape. */
  function Initial(size: nat, inp: seq<byte>): Machine {
    Machine(size / 2, seq(size, _ => 0), inp, [])
  }

  // ------------------------------------------------------------------ merging

  function Merge(c: Code): Code {
    match c
    case Done => Done
    case Move(v, k) =>
      var k' := Merge(k);
      if k'.Move? then Move(v + k'.v, k'.next) else Move(v, k')
    case Change(v, k) =>
      var k' := Merge(k);
      if k'.Change? then Change(v + k'.v, k'.next) else Change(v, k')
    case Read(k) => Read(Merge(k))
    case Write(k) => Write(Merge(k))
    case Loop(b, k) => Loop(Merge(b), Merge(k))
  }

  /** A merged sequence has no two moves and no two changes side by side, and it has
      as many reads, writes and loops in the same nesting: nothing is left to join. */
  predicate Joined(c: Code) {
    match c
    case Done => true
    case Move(v, k) => !k.Move? && Joined(k)
    case Change(v, k) => !k.Change? && Joined(k)
    case Read(k) => Joined(k)
    case Write(k) => Joined(k)
    case Loop(b, k) => Joined(b) && Joined(k)
  }

  lemma {:induction false} MergeJoins(c: Code)
    ensures Joined(Merge(c))
  {
    match c
    case Done =>
    case Loop(b, k) => MergeJoins(b); MergeJoins(k);
    case _ => MergeJoins(c.next);
  }

  function Abs(v: int): nat {
    if v < 0 then -v else v
  }

  /** The head strays at most `r` cells off the tape, starting `b` off it: every command but
      a move needs it back.  Single moves fit an int. */
  predicate Within(c: Code, b: nat, r: nat) {
    match c
    case Done => b <= r
    case Move(v, k) => Abs(v) < 0x8000_0000 && Within(k, b + Abs(v), r)
    case Change(_, k) => b <= r && Within(k, 0, r)
    case Read(k) => b <= r && Within(k, 0, r)
    case Write(k) => b <= r && Within(k, 0, r)
    case Loop(b1, k) => b <= r && Within(b1, 0, r) && Within(k, 0, r)
  }

  lemma {:induction false} WithinBound(c: Code, b: nat, r: nat)
    requires Within(c, b, r)
    ensures b <= r
  {
    if c.Move? { WithinBound(c.next, b + Abs(c.v), r); }
  }

  lemma {:induction false} WithinMore(c: Code, b: nat, r: nat, b': nat, r': nat)
    requires Within(c, b, r) && r <= r' && b' + r <= b + r'
    ensures Within(c, b', r')
  {
    match c
    case Done =>
    case Move(v, k) => WithinMore(k, b + Abs(v), r, b' + Abs(v), r');
    case Loop(b1, k) => WithinMore(b1, 0, r, 0, r'); WithinMore(k, 0, r, 0, r');
    case _ => WithinMore(c.next, 0, r, 0, r');
  }

  /** Of merged code, this asks no more than that each move be at most `r`. */
  predicate MovesUpTo(c: Code, r: nat) {
    match c
    case Done => true
    case Move(v, k) => Abs(v) < 0x8000_0000 && Abs(v) <= r && MovesUpTo(k, r)
    case Loop(b, k) => MovesUpTo(b, r) && MovesUpTo(k, r)
    case _ => MovesUpTo(c.next, r)
  }

  /** All the cells the moves of some code go past, written out once. */
  function Travel(c: Code): nat {
    match c
    case Done => 0
    case Move(v, k) => Abs(v) + Travel(k)
    case Loop(b, k) => Travel(b) + Travel(k)
    case _ => Travel(c.next)
  }

  /** Of a text they are no more than its characters. */
  lemma {:induction false} ParsedMoves(src: seq<char>, i: nat)
    requires i <= |src|
    ensures Travel(ParseFrom(src, i).code) <= ParseFrom(src, i).pos - i
    decreases |src| - i
  {
    if i < |src| && src[i] != ']' {
      ParsedMoves(src, i + 1);
      if src[i] == '[' && ParseFrom(src, i + 1).end == AtClose {
        ParsedMoves(src, ParseFrom(src, i + 1).pos);
      }
    }
  }

  /** And no merged move is longer. */
  lemma {:induction false} MergedMovesUpTo(c: Code, r: nat)
    requires Travel(c) <= r && Travel(c) < 0x8000_0000
    ensures MovesUpTo(Merge(c), r) && Travel(Merge(c)) <= Travel(c)
  {
    match c
    case Done =>
    case Loop(b, k) => MergedMovesUpTo(b, r); MergedMovesUpTo(k, r);
    case _ => MergedMovesUpTo(c.next, r);
  }

  lemma {:induction false} JoinedWithin(c: Code, b: nat, r: nat)
    requires Joined(c) && MovesUpTo(c, r) && b <= r && (c.Move? ==> b == 0)
    ensures Within(c, b, r)
  {
    match c
    case Done =>
    case Move(v, k) => JoinedWithin(k, Abs(v), r);
    case Loop(b1, k) => JoinedWithin(b1, 0, r); JoinedWithin(k, 0, r);
    case _ => JoinedWithin(c.next, 0, r);
  }

  lemma JoinMoves(checked: bool, v: int, k: Code, m: Machine, fuel: nat)
    requires k.Move? && !Exec(checked, Move(v, k), m, fuel).Aborted?
    ensures Exec(checked, Move(v + k.v, k.next), m, fuel) == Exec(checked, Move(v, k), m, fuel)
  {
    assert m.Moved(v).Moved(k.v) == m.Moved(v + k.v);
  }

  lemma JoinChanges(checked: bool, v: int, k: Code, m: Machine, fuel: nat)
    requires k.Change?
    ensures Exec(checked, Change(v + k.v, k.next), m, fuel) == Exec(checked, Change(v, k), m, fuel)
  {
    if m.OnTape() {
      assert m.Added(v).Cell() == (m.Cell() + v) % 256;
      assert ((m.Cell() + v) % 256 + k.v) % 256 == (m.Cell() + (v + k.v)) % 256;
      assert m.Added(v).Added(k.v) == m.Added(v + k.v);
    }
  }

  /** Merging refines the step by step meaning: the only thing it can change is that
      a bounds check no longer stops a run which strays and returns within one run of
      moves.  Without bounds checks nothing changes at all. */
  lemma {:induction false} MergeRefines(checked: bool, c: Code, m: Machine, fuel: nat)
    requires !Exec(checked, c, m, fuel).Aborted?
    ensures Exec(checked, Merge(c), m, fuel) == Exec(checked, c, m, fuel)
    decreases fuel, c
  {
    match c
    case Done =>
    case Move(v, k) =>
      MergeRefines(checked, k, m.Moved(v), fuel);
      if Merge(k).Move? { JoinMoves(checked, v, Merge(k), m, fuel); }
    case Change(v, k) =>
      if m.OnTape() {
        MergeRefines(checked, k, m.Added(v), fuel);
        if Merge(k).Change? { JoinChanges(checked, v, Merge(k), m, fuel); }
      }
    case Read(k) =>
      if m.OnTape() {
        MergeRefines(checked, k, m.Fetched(), fuel);
      }
    case Write(k) =>
      if m.OnTape() {
        MergeRefines(checked, k, m.Shown(), fuel);
      }
    case Loop(b, k) =>
      if m.OnTape() {
        if m.Cell() == 0 {
          MergeRefines(checked, k, m, fuel);
        } else if fuel > 0 {
          MergeRefines(checked, b, m, fuel - 1);
          var r := Exec(checked, b, m, fuel - 1);
          if r.Finished? {
            MergeRefines(checked, c, r.m, fuel - 1);
          }
        }
      }
  }

  lemma {:induction false} UncheckedNeverAborts(c: Code, m: Machine, fuel: nat)
    ensures !Exec(false, c, m, fuel).Aborted?
    decreases fuel, c
  {
    match c
    case Done =>
    case Move(v, k) => UncheckedNeverAborts(k, m.Moved(v), fuel);
    case Change(v, k) =>
      if m.OnTape() { UncheckedNeverAborts(k, m.Added(v), fuel); }
    case Read(k) =>
      if m.OnTape() {
        UncheckedNeverAborts(k, m.Fetched(), fuel);
      }
    case Write(k) =>
      if m.OnTape() { UncheckedNeverAborts(k, m.Shown(), fuel); }
    case Loop(b, k) =>
      if m.OnTape() {
        if m.Cell() == 0 {
          UncheckedNeverAborts(k, m, fuel);
        } else if fuel > 0 {
          UncheckedNeverAborts(b, m, fuel - 1);
          var r := Exec(false, b, m, fuel - 1);
          if r.Finished? { UncheckedNeverAborts(c, r.m, fuel - 1); }
        }
      }
  }

  /** Under bounds checks a run that starts on the tape never touches a cell outside it. */
  lemma {:induction false} CheckedStaysOnTape(c: Code, m: Machine, fuel: nat)
    requires m.OnTape()
    ensures !Exec(true, c, m, fuel).OffTape?
    ensures var r := Exec(true, c, m, fuel); r.Finished? ==> r.m.OnTape()
    decreases fuel, c
  {
    match c
    case Done =>
    case Move(v, k) =>
      var m' := m.Moved(v);
      if m'.OnTape() { CheckedStaysOnTape(k, m', fuel); }
    case Change(v, k) => CheckedStaysOnTape(k, m.Added(v), fuel);
    case Read(k) =>
      CheckedStaysOnTape(k, m.Fetched(), fuel);
    case Write(k) => CheckedStaysOnTape(k, m.Shown(), fuel);
    case Loop(b, k) =>
      if m.Cell() == 0 {
        CheckedStaysOnTape(k, m, fuel);
      } else if fuel > 0 {
        CheckedStaysOnTape(b, m, fuel - 1);
        var r := Exec(true, b, m, fuel - 1);
        if r.Finished? { CheckedStaysOnTape(c, r.m, fuel - 1); }
      }
  }

  /** The tape keeps its size, and the head does not stray further than that. */
  lemma {:induction false} Drift(checked: bool, c: Code, m: Machine, fuel: nat, b: nat, r: nat)
    requires 0 <= m.head + b && m.head < |m.tape| + b && Within(c, b, r)
    ensures var o := Exec(checked, c, m, fuel);
      && (o.Finished? || o.Aborted? ==> |o.m.tape| == |m.tape|)
      && (o.Finished? ==> 0 <= o.m.head + r && o.m.head < |m.tape| + r)
    decreases fuel, c
  {
    match c
    case Done =>
    case Move(v, k) =>
      Drift(checked, k, m.Moved(v), fuel, b + Abs(v), r);
    case Change(v, k) =>
      if m.OnTape() { Drift(checked, k, m.Added(v), fuel, 0, r); }
    case Read(k) =>
      if m.OnTape() { Drift(checked, k, m.Fetched(), fuel, 0, r); }
    case Write(k) =>
      if m.OnTape() { Drift(checked, k, m.Shown(), fuel, 0, r); }
    case Loop(body, k) =>
      if m.OnTape() {
        if m.Cell() == 0 {
          Drift(checked, k, m, fuel, 0, r);
        } else if fuel > 0 {
          Drift(checked, body, m, fuel - 1, 0, r);
          var o := Exec(checked, body, m, fuel - 1);
          if o.Finished? { Drift(checked, c, o.m, fuel - 1, r, r); }
        }
      }
  }

  /** Merging does change checked runs: "<>" from the first cell is stopped step by
      step and runs to the end when merged. */
  lemma MergedCheckIsWeaker()
    ensures var c := ParseFrom("<>", 0).code;
      var m := Initial(1, []);
      Exec(true, c, m, 0).Aborted? && Exec(true, Merge(c), m, 0) == Finished(m)
  {
    var c := ParseFrom("<>", 0).code;
    assert ParseFrom("<>", 2) == Parsed(Done, 2, AtEof);
    assert ParseFrom("<>", 1) == Parsed(Move(1, Done), 2, AtEof);
    assert c == Move(-1, Move(1, Done));
    assert Merge(Move(1, Done)) == Move(1, Done);
    assert Merge(c) == Move(0, Done);
  }
}
