/**
 What merging does to bounds checks.  A run of moves is checked once, where it ends, and not
 after each of its moves; this module says exactly when that makes no difference.
 */
module BrainFChecks {
  import opened Wrappers
  import opened BrainFSource
  import opened BrainFIR
  import opened BrainFCorrect

  /** Where the moves that `c` starts with lead, and how far left and right of the start
      the head gets on the way. */
  function Net(c: Code): int {
    if c.Move? then c.v + Net(c.next) else 0
  }

  function Low(c: Code): (lo: int)
    ensures lo <= 0 && lo <= Net(c)
  {
    if c.Move? && c.v + Low(c.next) < 0 then c.v + Low(c.next) else 0
  }

  function High(c: Code): (hi: int)
    ensures hi >= 0 && hi >= Net(c)
  {
    if c.Move? && c.v + High(c.next) > 0 then c.v + High(c.next) else 0
  }

  /** The code after the moves that `c` starts with. */
  function AfterMoves(c: Code): (r: Code)
    ensures !r.Move?
    ensures c.Move? ==> r < c
  {
    if c.Move? then AfterMoves(c.next) else c
  }

  /** The moves `c` starts with never leave the stretch between their start and their end. */
  predicate Direct(c: Code) {
    Low(c) == (if Net(c) < 0 then Net(c) else 0) && High(c) == (if Net(c) > 0 then Net(c) else 0)
  }

  /** So do all runs of moves of a program. */
  predicate AllDirect(c: Code)
    decreases c
  {
    match c
    case Done => true
    case Move(_, _) => Direct(c) && AllDirect(AfterMoves(c))
    case Change(_, k) => AllDirect(k)
    case Read(k) => AllDirect(k)
    case Write(k) => AllDirect(k)
    case Loop(b, k) => AllDirect(b) && AllDirect(k)
  }

  /** The same for an observer, who does not see where the head was when a check failed. */
  predicate Alike(a: Outcome, b: Outcome) {
    a == b || (a.Aborted? && b.Aborted? && a.m.tape == b.m.tape && a.m.inp == b.m.inp && a.m.out == b.m.out)
  }

  /** A run of moves, checked after each move, fails if its furthest points are off the tape. */
  lemma {:induction false} MovesRun(c: Code, m: Machine, fuel: nat)
    requires m.OnTape()
    ensures if 0 <= m.head + Low(c) && m.head + High(c) < |m.tape|
            then Exec(true, c, m, fuel) == Exec(true, AfterMoves(c), m.Moved(Net(c)), fuel)
            else Alike(Exec(true, c, m, fuel), Aborted(m))
  {
    if c.Move? {
      if m.Moved(c.v).OnTape() {
        MovesRun(c.next, m.Moved(c.v), fuel);
        assert m.Moved(c.v).Moved(Net(c.next)) == m.Moved(Net(c));
      }
    } else {
      assert m.Moved(0) == m;
    }
  }

  /** Merged, the run is one move. */
  lemma {:induction false} MergedMoves(c: Code)
    requires c.Move?
    ensures Merge(c) == Move(Net(c), Merge(AfterMoves(c)))
  {
    if c.next.Move? {
      MergedMoves(c.next);
    } else {
    }
  }

  lemma MergedRun(c: Code, m: Machine, fuel: nat)
    requires c.Move? && m.OnTape() && Direct(c)
    ensures Alike(Exec(true, c, m, fuel),
                  if m.Moved(Net(c)).OnTape() then Exec(true, AfterMoves(c), m.Moved(Net(c)), fuel) else Aborted(m))
    ensures Exec(true, Merge(c), m, fuel)
         == if m.Moved(Net(c)).OnTape() then Exec(true, Merge(AfterMoves(c)), m.Moved(Net(c)), fuel)
            else Aborted(m.Moved(Net(c)))
  {
    MovesRun(c, m, fuel);
    MergedMoves(c);
  }

  /** Where all runs of moves are direct, one check for each of them stops exactly the
      programs that one check for each move stops, and at the same point. */
  lemma {:induction false} DirectAlike(c: Code, m: Machine, fuel: nat)
    requires m.OnTape() && AllDirect(c)
    ensures Alike(Exec(true, Merge(c), m, fuel), Exec(true, c, m, fuel))
    decreases fuel, c
  {
    match c
    case Done =>
    case Move(_, _) =>
      MergedRun(c, m, fuel);
      if m.Moved(Net(c)).OnTape() { DirectAlike(AfterMoves(c), m.Moved(Net(c)), fuel); }
    case Change(v, k) =>
      DirectAlike(k, m.Added(v), fuel);
      ChangesAlike(v, k, m, fuel);
    case Read(k) => DirectAlike(k, m.Fetched(), fuel);
    case Write(k) => DirectAlike(k, m.Shown(), fuel);
    case Loop(b, k) =>
      if m.Cell() == 0 {
        DirectAlike(k, m, fuel);
      } else if fuel > 0 {
        DirectAlike(b, m, fuel - 1);
        CheckedStaysOnTape(b, m, fuel - 1);
        var r := Exec(true, b, m, fuel - 1);
        if r.Finished? { DirectAlike(c, r.m, fuel - 1); }
      }
  }

  lemma ChangesAlike(v: int, k: Code, m: Machine, fuel: nat)
    requires m.OnTape()
    ensures Exec(true, Merge(Change(v, k)), m, fuel) == Exec(true, Merge(k), m.Added(v), fuel)
  {
    if Merge(k).Change? { JoinChanges(true, v, Merge(k), m, fuel); }
  }

  /** Checked once or after each move, the code is the same to an observer, from every cell
      of every tape. */
  ghost predicate ChecksAgree(c: Code) {
    forall m: Machine | m.OnTape() :: Alike(Exec(true, Merge(c), m, 0), Exec(true, c, m, 0))
  }

  /** And no weaker condition will do: a run of moves is checked as its single moves are,
      from every cell of every tape, if and only if it is direct. */
  lemma DirectExact(c: Code)
    requires c.Move? && AfterMoves(c) == Done
    ensures Direct(c) <==> ChecksAgree(c)
  {
    if Direct(c) {
      forall m: Machine | m.OnTape() ensures Alike(Exec(true, Merge(c), m, 0), Exec(true, c, m, 0)) {
        DirectAlike(c, m, 0);
      }
    } else {
      var m := Strays(c);
    }
  }

  /** A tape and a cell from which a run that is not direct leaves the tape and returns. */
  lemma Strays(c: Code) returns (m: Machine)
    requires c.Move? && AfterMoves(c) == Done && !Direct(c)
    ensures m.OnTape() && Exec(true, c, m, 0).Aborted? && Exec(true, Merge(c), m, 0).Finished?
  {
    var left := Low(c) < 0 && Low(c) < Net(c);
    var head := if left then -Low(c) - 1 else -Low(c);
    var size := if left then head + High(c) + 1 else head + High(c);
    m := Machine(head, seq(size, _ => 0), [], []);
    MovesRun(c, m, 0);
    MergedMoves(c);
    assert Exec(true, Merge(c), m, 0) == Exec(true, Merge(Done), m.Moved(Net(c)), 0);
  }

  /** On a tape without cells either kind of check fails at the first move. */
  lemma EmptyTapeAlike(c: Code, inp: seq<byte>, fuel: nat)
    ensures Observed(Exec(true, Merge(c), Initial(0, inp), fuel)) == Observed(Exec(true, c, Initial(0, inp), fuel))
  {
    if c.Move? { MergedMoves(c); }
  }

  /** With bounds checks, a text whose runs of moves are all direct is compiled faithfully,
      failing checks included, for every input; and on a tape without cells every text is. */
  lemma DirectIsFaithful(env: Env, src: seq<char>, size: nat, w: nat, inp: seq<byte>, r: Result)
    requires Suitable(env, size, w) && MovesFit(src, w) && (size == 0 || AllDirect(Commands(src)))
    ensures CompiledEnds(true, size, Merge(Commands(src)), env, inp, r)
       <==> SourceEnds(true, size, Commands(src), inp, r)
  {
    var c, m := Commands(src), Initial(size, inp);
    TextFits(src, w);
    CompiledIffSource(env, true, size, Merge(c), w, inp, r);
    forall fuel: nat ensures Observed(Exec(true, Merge(c), m, fuel)) == Observed(Exec(true, c, m, fuel)) {
      if size == 0 {
        EmptyTapeAlike(c, inp, fuel);
      } else {
        DirectAlike(c, m, fuel);
      }
    }
  }
}
