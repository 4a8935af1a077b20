/**
 The barrier of ParallelJIT.cpp: worker threads call `block`, one thread calls
 `releaseThreads`, and a mutex with a condition variable lets them interleave.  Every thread
 makes `rounds` calls one after the other, so that a fast thread may be back in its next
 call while slow ones are still leaving the last.  Waiting on the condition ends by a
 broadcast; what becomes of the barrier when threads also wake by themselves comes after
 safety and liveness.
 */
module Barrier {
  import opened Wrappers

  /** Where a thread is: Start between calls, Counted at the assertion in `block`.  A thread
      owns the mutex when it is Locked, Counted or Leaving. */
  datatype PC = Start | Locked | Counted | Waiting | Signalled | Leaving

  /** The two counters, the mutex, and for each thread where it is and how many calls it
      has begun.  The workers come first, the releaser last. */
  datatype State = State(n: nat, waitFor: nat, owner: Option<nat>, pcs: seq<PC>, begun: seq<nat>)

  predicate Owns(pc: PC) {
    pc == Locked || pc == Counted || pc == Leaving
  }

  /** In a call whose wait is not over. */
  predicate Inside(pc: PC) {
    pc == Locked || pc == Counted || pc == Waiting
  }

  /** pthread_cond_broadcast. */
  function Broadcast(pcs: seq<PC>): (r: seq<PC>)
    ensures |r| == |pcs|
    ensures forall i | 0 <= i < |pcs| :: r[i] == if pcs[i] == Waiting then Signalled else pcs[i]
  {
    seq(|pcs|, i requires 0 <= i < |pcs| => if pcs[i] == Waiting then Signalled else pcs[i])
  }

  ghost predicate Shaped(s: State) {
    |s.pcs| == |s.begun| > 0
  }

  function Initial(workers: nat): State {
    State(0, 0, None, seq(workers + 1, _ => Start), seq(workers + 1, _ => 0))
  }

  // ------------------------------------------------------------------------ steps

  /** One step of thread `t`; the last thread calls `releaseThreads(num)`. */
  function Step(num: nat, rounds: nat, s: State, t: nat): Option<State>
    requires t < |s.pcs| == |s.begun|
  {
    match s.pcs[t]
    case Start =>
      if s.owner.None? && s.begun[t] < rounds
      then Some(s.(owner := Some(t), pcs := s.pcs[t := Locked], begun := s.begun[t := s.begun[t] + 1]))
      else None
    case Locked =>
      if t < |s.pcs| - 1 then Some(s.(n := s.n + 1, pcs := s.pcs[t := Counted]))
      else if s.n >= num then Some(Unblock(s, t))
      else Some(Wait(s.(waitFor := num), t))
    case Counted => if s.waitFor > 0 && s.n == s.waitFor then Some(Unblock(s, t)) else Some(Wait(s, t))
    case Waiting => None
    case Signalled => if s.owner.None? then Some(s.(owner := Some(t), pcs := s.pcs[t := Leaving])) else None
    case Leaving => Some(s.(owner := None, pcs := s.pcs[t := Start]))
  }

  /** pthread_cond_wait gives the mutex up. */
  function Wait(s: State, t: nat): State
    requires t < |s.pcs|
  {
    s.(owner := None, pcs := s.pcs[t := Waiting])
  }

  function Unblock(s: State, t: nat): State
    requires t < |s.pcs|
  {
    s.(n := 0, waitFor := 0, pcs := Broadcast(s.pcs)[t := Leaving])
  }

  /** Whether thread `t`, about to step, lets the others go. */
  predicate Releases(num: nat, s: State, t: nat)
    requires t < |s.pcs|
  {
    if t < |s.pcs| - 1 then s.pcs[t] == Counted && s.waitFor > 0 && s.n == s.waitFor
    else s.pcs[t] == Locked && s.n >= num
  }

  /** What POSIX also allows: a waiting thread wakes by itself. */
  function Wake(s: State, t: nat): State
    requires t < |s.pcs| && s.pcs[t] == Waiting
  {
    s.(pcs := s.pcs[t := Signalled])
  }

  /** What a thread may do next. */
  datatype Act = Go(t: nat) | Wakes(t: nat)

  /** The state after an act that is possible. */
  function Do(num: nat, rounds: nat, s: State, a: Act): (r: Option<State>)
    requires |s.pcs| == |s.begun|
    ensures r.Some? ==> |r.value.pcs| == |r.value.begun| == |s.pcs|
  {
    if a.t >= |s.pcs| then None
    else if a.Go? then Step(num, rounds, s, a.t)
    else if s.pcs[a.t] == Waiting then Some(Wake(s, a.t))
    else None
  }

  /** The state after acts that can follow one another. */
  function Run(num: nat, rounds: nat, s: State, acts: seq<Act>): Option<State>
    requires |s.pcs| == |s.begun|
    decreases |acts|
  {
    if acts == [] then Some(s)
    else
      match Do(num, rounds, s, acts[0])
      case None => None
      case Some(s1) => Run(num, rounds, s1, acts[1..])
  }

  /** Waiting ends only by a broadcast. */
  predicate Quiet(acts: seq<Act>) {
    forall i: nat | i < |acts| :: acts[i].Go?
  }

  // -------------------------------------------------------------------- invariant

  /** How many of the first `k` threads have been counted by `block`. */
  function Entered(pcs: seq<PC>, k: nat): (c: nat)
    requires k <= |pcs|
    ensures c <= k
  {
    if k == 0 then 0
    else Entered(pcs, k - 1) + if IsEntered(pcs[k - 1]) then 1 else 0
  }

  predicate IsEntered(pc: PC) {
    pc == Waiting || pc == Counted
  }

  lemma {:induction false} EnteredUpdate(pcs: seq<PC>, k: nat, t: nat, x: PC)
    requires k <= |pcs| && t < |pcs|
    ensures Entered(pcs[t := x], k)
         == Entered(pcs, k) + (if t < k && IsEntered(x) then 1 else 0) - (if t < k && IsEntered(pcs[t]) then 1 else 0)
  {
    if k > 0 { EnteredUpdate(pcs, k - 1, t, x); }
  }

  lemma {:induction false} AllEntered(pcs: seq<PC>, k: nat, i: nat)
    requires i < k <= |pcs| && Entered(pcs, k) == k
    ensures IsEntered(pcs[i])
  {
    if i < k - 1 { AllEntered(pcs, k - 1, i); }
  }

  lemma {:induction false} NoneEntered(pcs: seq<PC>, k: nat)
    requires k <= |pcs| && forall i | 0 <= i < k :: !IsEntered(pcs[i])
    ensures Entered(pcs, k) == 0
  {
    if k > 0 { NoneEntered(pcs, k - 1); }
  }

  lemma {:induction false} EveryoneEntered(pcs: seq<PC>, k: nat)
    requires k <= |pcs| && forall i | 0 <= i < k :: IsEntered(pcs[i])
    ensures Entered(pcs, k) == k
  {
    if k > 0 { EveryoneEntered(pcs, k - 1); }
  }

  /** Whoever is inside the mutex owns it, so that at most one thread is. */
  ghost predicate Exclusive(s: State) {
    && (s.owner.Some? ==> s.owner.value < |s.pcs|)
    && forall t: nat | t < |s.pcs| :: Owns(s.pcs[t]) <==> s.owner == Some(t)
  }

  /** `n` counts the workers that wait or are about to decide, and while the releaser waits
      they are fewer than it waits for, until the one that completes them decides. */
  ghost predicate Counters(num: nat, s: State)
    requires Shaped(s) && Exclusive(s)
  {
    var w := |s.pcs| - 1;
    && s.n == Entered(s.pcs, w)
    && s.pcs[w] != Counted
    && s.waitFor == (if s.pcs[w] == Waiting then num else 0)
    && (s.pcs[w] == Waiting ==> num > 0)
    && (s.pcs[w] == Waiting ==> s.n < num || (s.n == num && s.owner.Some? && s.pcs[s.owner.value] == Counted))
  }

  ghost predicate Inv(num: nat, s: State) {
    Shaped(s) && Exclusive(s) && Counters(num, s)
  }

  lemma InitialInv(num: nat, workers: nat)
    ensures Inv(num, Initial(workers))
  {
    NoneEntered(Initial(workers).pcs, workers);
  }

  lemma UnblockCounters(num: nat, s: State, t: nat)
    requires Inv(num, s) && t < |s.pcs| && s.owner == Some(t) && Exclusive(Unblock(s, t))
    ensures Counters(num, Unblock(s, t))
  {
    var u := Unblock(s, t);
    forall i: nat | i < |s.pcs| ensures !IsEntered(u.pcs[i]) {
      assert Owns(s.pcs[i]) <==> i == t;
    }
    NoneEntered(u.pcs, |s.pcs| - 1);
  }

  /** Every step of every thread keeps the invariant. */
  lemma StepInv(num: nat, rounds: nat, s: State, t: nat)
    requires Inv(num, s) && t < |s.pcs| && Step(num, rounds, s, t).Some?
    ensures Inv(num, Step(num, rounds, s, t).value)
  {
    hide Entered;
    assert Owns(s.pcs[t]) <==> s.owner == Some(t);
    if Releases(num, s, t) {
      UnblockCounters(num, s, t);
    } else {
      EnteredUpdate(s.pcs, |s.pcs| - 1, t, Step(num, rounds, s, t).value.pcs[t]);
    }
  }

  lemma {:induction false} RunInv(num: nat, rounds: nat, s: State, acts: seq<Act>)
    requires Inv(num, s) && Quiet(acts) && Run(num, rounds, s, acts).Some?
    ensures var r := Run(num, rounds, s, acts).value; Inv(num, r) && |r.pcs| == |s.pcs|
    decreases |acts|
  {
    hide Step;
    if acts != [] {
      assert acts[0].Go?;
      StepInv(num, rounds, s, acts[0].t);
      RunInv(num, rounds, Do(num, rounds, s, acts[0]).value, acts[1..]);
    }
  }

  /** Whatever the releaser waits for, and in any interleaving of any number of rounds: `n`
      is the number of workers counted and not yet let go, and `waitFor` is zero unless the
      releaser waits. */
  lemma CountersHold(num: nat, rounds: nat, workers: nat, acts: seq<Act>, s: State)
    requires Quiet(acts) && Run(num, rounds, Initial(workers), acts) == Some(s)
    ensures |s.pcs| == workers + 1 && s.n == Entered(s.pcs, workers)
    ensures s.waitFor == if s.pcs[workers] == Waiting then num else 0
  {
    InitialInv(num, workers);
    RunInv(num, rounds, Initial(workers), acts);
  }

  // ----------------------------------------------------------------------- safety

  /** Every thread has been let through the barrier `k` times, and is in its next call if
      it is inside. */
  ghost predicate Even(rounds: nat, s: State, k: nat) {
    && Shaped(s)
    && forall t: nat | t < |s.pcs| :: s.begun[t] == k + (if Inside(s.pcs[t]) then 1 else 0) <= rounds
  }

  /** With as many workers as are waited for, nobody is outside when the barrier opens. */
  lemma ReleaseFindsAll(w: nat, s: State, t: nat)
    requires Inv(w, s) && |s.pcs| == w + 1 && t <= w && Releases(w, s, t)
    ensures forall u: nat | u <= w :: Inside(s.pcs[u])
  {
    forall u: nat | u <= w ensures Inside(s.pcs[u]) {
      if u < w { AllEntered(s.pcs, w, u); }
    }
  }

  /** So one step lets everybody through, or nobody. */
  lemma StepEven(w: nat, rounds: nat, s: State, t: nat, k: nat)
    requires Inv(w, s) && Even(rounds, s, k) && |s.pcs| == w + 1 && t <= w && Step(w, rounds, s, t).Some?
    ensures Even(rounds, Step(w, rounds, s, t).value, if Releases(w, s, t) then k + 1 else k)
  {
    if Releases(w, s, t) {
      ReleaseFindsAll(w, s, t);
      assert Owns(s.pcs[t]) <==> s.owner == Some(t);
      var u := Unblock(s, t);
      forall i: nat | i <= w ensures u.begun[i] == k + 1 <= rounds && !Inside(u.pcs[i]) {
        assert Owns(s.pcs[i]) <==> s.owner == Some(i);
      }
    } else {
    }
  }

  lemma {:induction false} RunEven(w: nat, rounds: nat, s: State, acts: seq<Act>, k: nat) returns (k': nat)
    requires Inv(w, s) && Even(rounds, s, k) && |s.pcs| == w + 1 && Quiet(acts) && Run(w, rounds, s, acts).Some?
    ensures var r := Run(w, rounds, s, acts).value; |r.pcs| == w + 1 && Even(rounds, r, k') && k <= k'
    decreases |acts|
  {
    k' := k;
    if acts != [] {
      var t := acts[0].t;
      assert acts[0].Go?;
      StepInv(w, rounds, s, t);
      StepEven(w, rounds, s, t, k);
      k' := RunEven(w, rounds, Step(w, rounds, s, t).value, acts[1..], if Releases(w, s, t) then k + 1 else k);
    }
  }

  /** How many times a thread has been let through: every call it has begun but the one it
      is inside. */
  function Passed(s: State, t: nat): int
    requires t < |s.pcs| == |s.begun|
  {
    if Inside(s.pcs[t]) then s.begun[t] as int - 1 else s.begun[t]
  }

  /** In any interleaving of any number of rounds, all threads have been let through
      equally often; so nobody leaves its j-th call before everybody has begun theirs. */
  lemma BarrierSafe(workers: nat, rounds: nat, acts: seq<Act>, s: State, t: nat, u: nat)
    requires Quiet(acts) && Run(workers, rounds, Initial(workers), acts) == Some(s) && t <= workers && u <= workers
    ensures |s.pcs| == |s.begun| == workers + 1
    ensures 0 <= Passed(s, t) == Passed(s, u) <= s.begun[u] <= rounds
  {
    InitialInv(workers, workers);
    var k := RunEven(workers, rounds, Initial(workers), acts, 0);
  }

  lemma StepTooFew(num: nat, rounds: nat, s: State, t: nat)
    requires Inv(num, s) && |s.pcs| <= num && Even(rounds, s, 0) && t < |s.pcs| && Step(num, rounds, s, t).Some?
    ensures Even(rounds, Step(num, rounds, s, t).value, 0) && |Step(num, rounds, s, t).value.pcs| == |s.pcs|
  {
  }

  /** A releaser that waits for more than there are workers lets nobody through. */
  lemma {:induction false} TooFewNeverPass(num: nat, rounds: nat, s: State, acts: seq<Act>)
    requires Inv(num, s) && |s.pcs| <= num && Even(rounds, s, 0) && Quiet(acts) && Run(num, rounds, s, acts).Some?
    ensures Even(rounds, Run(num, rounds, s, acts).value, 0)
    decreases |acts|
  {
    if acts != [] {
      assert acts[0].Go?;
      StepInv(num, rounds, s, acts[0].t);
      StepTooFew(num, rounds, s, acts[0].t);
      hide Step, Inv, Even;
      TooFewNeverPass(num, rounds, Do(num, rounds, s, acts[0]).value, acts[1..]);
    }
  }

  // ------------------------------------------------------------- spurious wakeups

  /** Whether `p` holds in every state that the acts lead through. */
  ghost predicate Always(p: State -> bool, num: nat, rounds: nat, s: State, acts: seq<Act>)
    requires |s.pcs| == |s.begun|
    decreases |acts|
  {
    p(s) && (acts != [] ==>
      match Do(num, rounds, s, acts[0])
      case None => true
      case Some(s1) => Always(p, num, rounds, s1, acts[1..]))
  }

  /** While `waitFor` is set fewer workers are counted, until the one that completes them
      decides; a thread that wakes by itself leaves both counters as they are. */
  ghost predicate Bounded(num: nat, s: State) {
    && Shaped(s) && Exclusive(s)
    && s.pcs[|s.pcs| - 1] != Counted
    && (s.waitFor == 0 || s.waitFor == num)
    && (s.waitFor > 0 ==> s.n < num || (s.n == num && s.owner.Some? && s.pcs[s.owner.value] == Counted))
  }

  lemma DoBounded(num: nat, rounds: nat, s: State, a: Act)
    requires Bounded(num, s) && Do(num, rounds, s, a).Some?
    ensures Bounded(num, Do(num, rounds, s, a).value)
  {
    assert Owns(s.pcs[a.t]) <==> s.owner == Some(a.t);
  }

  lemma {:induction false} RunBounded(num: nat, rounds: nat, s: State, acts: seq<Act>)
    requires Bounded(num, s) && Run(num, rounds, s, acts).Some?
    ensures var r := Run(num, rounds, s, acts).value; Bounded(num, r) && |r.pcs| == |s.pcs|
    decreases |acts|
  {
    if acts != [] {
      DoBounded(num, rounds, s, acts[0]);
      RunBounded(num, rounds, Do(num, rounds, s, acts[0]).value, acts[1..]);
    }
  }

  /** Whatever the releaser waits for, in any interleaving of any number of rounds and with
      any spurious wakeups: the assertion in `block` holds whenever a thread stands at it,
      and no two threads are inside the mutex. */
  lemma AssertionHolds(num: nat, rounds: nat, workers: nat, acts: seq<Act>, s: State)
    requires Run(num, rounds, Initial(workers), acts) == Some(s)
    ensures |s.pcs| == workers + 1
    ensures forall t: nat | t <= workers && s.pcs[t] == Counted :: s.waitFor == 0 || s.n <= s.waitFor
    ensures forall t: nat, u: nat | t < u <= workers :: !(Owns(s.pcs[t]) && Owns(s.pcs[u]))
  {
    RunBounded(num, rounds, Initial(workers), acts);
  }

  /** Because `block` waits under an `if`, a single spurious wakeup breaks the barrier: with
      any workers, the first one can be let through while nobody else has begun. */
  lemma SpuriousWakeupBreaks(workers: nat, rounds: nat)
    requires workers > 0 && rounds > 0
    ensures var r := Run(workers, rounds, Initial(workers), [Go(0), Go(0), Go(0), Wakes(0), Go(0), Go(0)]);
      && r.Some? && |r.value.pcs| == |r.value.begun| == workers + 1
      && r.value.pcs[0] == Start && Passed(r.value, 0) == 1
      && forall u: nat | 0 < u <= workers :: r.value.begun[u] == 0
  {
    var s0 := Initial(workers);
    var s1 := Do(workers, rounds, s0, Go(0)).value;
    var s2 := Do(workers, rounds, s1, Go(0)).value;
    var s3 := Do(workers, rounds, s2, Go(0)).value;
    var s4 := Do(workers, rounds, s3, Wakes(0)).value;
    var s5 := Do(workers, rounds, s4, Go(0)).value;
    var s6 := Do(workers, rounds, s5, Go(0)).value;
    assert Run(workers, rounds, s5, [Go(0)]) == Some(s6);
    assert Run(workers, rounds, s4, [Go(0), Go(0)]) == Some(s6);
    assert Run(workers, rounds, s3, [Wakes(0), Go(0), Go(0)]) == Some(s6);
    assert Run(workers, rounds, s2, [Go(0), Wakes(0), Go(0), Go(0)]) == Some(s6);
    assert Run(workers, rounds, s1, [Go(0), Go(0), Wakes(0), Go(0), Go(0)]) == Some(s6);
  }

  // ------------------------------------------- which spurious wakeups break the barrier

  /** The guarantee of the barrier: nobody has left a call that not everybody has begun. */
  ghost predicate Kept(s: State) {
    |s.pcs| == |s.begun| && forall t: nat, u: nat | t < |s.pcs| && u < |s.pcs| :: Passed(s, t) <= s.begun[u]
  }

  /** Whoever wakes by itself has begun no more calls than anybody else at that moment. */
  ghost predicate HarmlessAct(s: State, a: Act)
    requires |s.pcs| == |s.begun| && a.t < |s.pcs|
  {
    a.Wakes? ==> forall u: nat | u < |s.pcs| :: s.begun[a.t] <= s.begun[u]
  }

  ghost predicate Harmless(num: nat, rounds: nat, s: State, acts: seq<Act>)
    requires |s.pcs| == |s.begun|
    decreases |acts|
  {
    acts != [] ==>
      match Do(num, rounds, s, acts[0])
      case None => true
      case Some(s1) => HarmlessAct(s, acts[0]) && Harmless(num, rounds, s1, acts[1..])
  }

  /** After such a wakeup: everybody is in call `k` + 1, and the owner `x` of the mutex is
      about to find everybody counted. */
  ghost predicate Opening(w: nat, rounds: nat, s: State, k: nat, x: nat) {
    && |s.pcs| == |s.begun| == w + 1 && x <= w && k < rounds && s.owner == Some(x)
    && (s.pcs[x] == Locked || s.pcs[x] == Counted)
    && (forall t: nat | t <= w :: s.begun[t] == k + 1)
    && (forall t: nat | t <= w && t != x :: s.pcs[t] == Waiting || s.pcs[t] == Signalled)
    && if x == w then s.pcs[x] == Locked && s.n == w
       else s.waitFor == w && s.n == (if s.pcs[x] == Locked then w - 1 else w)
  }

  /** All a run comes to while its wakeups are harmless. */
  ghost predicate Sound(w: nat, rounds: nat, s: State) {
    && |s.pcs| == |s.begun| == w + 1
    && ((Inv(w, s) && exists k: nat :: Even(rounds, s, k)) || exists k: nat, x: nat :: Opening(w, rounds, s, k, x))
  }

  lemma SoundKept(w: nat, rounds: nat, s: State)
    requires Sound(w, rounds, s)
    ensures Kept(s)
  {
    forall t: nat, u: nat | t < |s.pcs| && u < |s.pcs| ensures Passed(s, t) <= s.begun[u] {
    }
  }

  /** Where everybody is inside, somebody is about to open the barrier. */
  lemma WakeOpens(w: nat, rounds: nat, s: State, t: nat, k: nat)
    requires Inv(w, s) && Even(rounds, s, k) && |s.pcs| == w + 1 && t <= w && s.pcs[t] == Waiting
    requires forall u: nat | u <= w :: s.begun[t] <= s.begun[u]
    ensures s.owner.Some? && Opening(w, rounds, Wake(s, t), k, s.owner.value)
  {
    forall u: nat | u <= w ensures Inside(s.pcs[u]) && s.begun[u] == k + 1 {
      assert s.begun[t] <= s.begun[u];
    }
    if s.owner.None? {
      assert Owns(s.pcs[w]) <==> s.owner == Some(w);
      forall u: nat | u < w ensures IsEntered(s.pcs[u]) {
        assert Owns(s.pcs[u]) <==> s.owner == Some(u);
      }
      EveryoneEntered(s.pcs, w);
      assert false;
    } else {
      var x := s.owner.value;
      forall u: nat | u <= w && u != x ensures s.pcs[u] == Waiting {
        assert Owns(s.pcs[u]) <==> s.owner == Some(u);
      }
      assert Owns(s.pcs[x]);
      if x == w || s.pcs[x] == Counted {
        EveryoneEntered(s.pcs, w);
      } else {
        EnteredUpdate(s.pcs, w, x, Counted);
        EveryoneEntered(s.pcs[x := Counted], w);
      }
    }
  }

  lemma OpeningMoves(w: nat, rounds: nat, s: State, k: nat, x: nat)
    requires Opening(w, rounds, s, k, x)
    ensures Step(w, rounds, s, x).Some?
  {
  }

  /** From then on only the owner can step, and lets everybody through, and further wakeups
      change nothing. */
  lemma OpeningStep(w: nat, rounds: nat, s: State, k: nat, x: nat, a: Act)
    requires Opening(w, rounds, s, k, x) && Do(w, rounds, s, a).Some?
    ensures var s1 := Do(w, rounds, s, a).value;
      Opening(w, rounds, s1, k, x) || (Inv(w, s1) && Even(rounds, s1, k + 1))
  {
    if a.Go? {
      assert a.t == x;
      if Releases(w, s, x) {
        var u := Unblock(s, x);
        forall i: nat | i <= w ensures !IsEntered(u.pcs[i]) && (Owns(u.pcs[i]) <==> i == x) {
        }
        NoneEntered(u.pcs, w);
      }
    }
  }

  lemma DoSound(w: nat, rounds: nat, s: State, a: Act)
    requires Sound(w, rounds, s) && Do(w, rounds, s, a).Some? && HarmlessAct(s, a)
    ensures Sound(w, rounds, Do(w, rounds, s, a).value)
  {
    if k: nat, x: nat :| Opening(w, rounds, s, k, x) {
      OpeningStep(w, rounds, s, k, x, a);
    } else {
      var k: nat :| Even(rounds, s, k);
      if a.Go? {
        StepInv(w, rounds, s, a.t);
        StepEven(w, rounds, s, a.t, k);
      } else {
        WakeOpens(w, rounds, s, a.t, k);
      }
    }
  }

  /** And a wakeup that is not harmless breaks the guarantee at once. */
  lemma WakeBreaks(s: State, t: nat)
    requires t < |s.pcs| == |s.begun| && s.pcs[t] == Waiting && !HarmlessAct(s, Wakes(t))
    ensures !Kept(Wake(s, t))
  {
    var u: nat :| u < |s.pcs| && s.begun[u] < s.begun[t];
    assert Passed(Wake(s, t), t) == s.begun[t];
  }

  lemma {:induction false} KeptExactlyFrom(w: nat, rounds: nat, s: State, acts: seq<Act>)
    requires Sound(w, rounds, s) && Run(w, rounds, s, acts).Some?
    ensures Always(Kept, w, rounds, s, acts) <==> Harmless(w, rounds, s, acts)
    ensures Harmless(w, rounds, s, acts) ==> Sound(w, rounds, Run(w, rounds, s, acts).value)
    decreases |acts|
  {
    hide Sound, Kept, Step;
    SoundKept(w, rounds, s);
    if acts != [] {
      var s1 := Do(w, rounds, s, acts[0]).value;
      if HarmlessAct(s, acts[0]) {
        DoSound(w, rounds, s, acts[0]);
        KeptExactlyFrom(w, rounds, s1, acts[1..]);
      } else {
        WakeBreaks(s, acts[0].t);
      }
    }
  }

  lemma InitialSound(workers: nat, rounds: nat)
    ensures Sound(workers, rounds, Initial(workers))
  {
    InitialInv(workers, workers);
    assert Even(rounds, Initial(workers), 0);
  }

  /** Exactly: a run, with whatever wakeups, lets nobody leave a call before everybody has
      begun it if and only if nobody who wakes by itself is ahead of anybody else. */
  lemma KeptExactly(workers: nat, rounds: nat, acts: seq<Act>)
    requires Run(workers, rounds, Initial(workers), acts).Some?
    ensures Always(Kept, workers, rounds, Initial(workers), acts) <==> Harmless(workers, rounds, Initial(workers), acts)
  {
    InitialSound(workers, rounds);
    KeptExactlyFrom(workers, rounds, Initial(workers), acts);
  }

  /** All threads have been let through equally often. */
  ghost predicate Fair(s: State) {
    |s.pcs| == |s.begun| && forall t: nat, u: nat | t < |s.pcs| && u < |s.pcs| :: Passed(s, t) == Passed(s, u)
  }

  /** A wakeup lets the thread through once more than every other. */
  lemma WakeupUnfair(w: nat, rounds: nat, s: State, t: nat, k: nat)
    requires Inv(w, s) && Even(rounds, s, k) && |s.pcs| == w + 1 && t <= w && s.pcs[t] == Waiting
    ensures w > 0 && !Fair(Wake(s, t))
  {
    var u := if t == 0 then 1 else 0;
    assert w > 0;
    var s' := Wake(s, t);
    assert Passed(s', t) == k + 1 && Passed(s', u) == k;
  }

  lemma EvenFair(rounds: nat, s: State, k: nat)
    requires Even(rounds, s, k)
    ensures Fair(s)
  {
  }

  lemma {:induction false} FairExactlyFrom(w: nat, rounds: nat, s: State, acts: seq<Act>, k: nat)
    requires Inv(w, s) && Even(rounds, s, k) && |s.pcs| == w + 1 && Run(w, rounds, s, acts).Some?
    ensures Always(Fair, w, rounds, s, acts) <==> Quiet(acts)
    decreases |acts|
  {
    if acts != [] {
      var s1 := Do(w, rounds, s, acts[0]).value;
      if acts[0].Go? {
        StepInv(w, rounds, s, acts[0].t);
        StepEven(w, rounds, s, acts[0].t, k);
        EvenFair(rounds, s, k);
        FairExactlyFrom(w, rounds, s1, acts[1..], if Releases(w, s, acts[0].t) then k + 1 else k);
        assert acts == [acts[0]] + acts[1..];
      } else {
        WakeupUnfair(w, rounds, s, acts[0].t, k);
      }
    }
  }

  /** The stronger property of BarrierSafe, that all threads have been let through equally
      often at every moment, survives no wakeup at all. */
  lemma FairExactly(workers: nat, rounds: nat, acts: seq<Act>)
    requires Run(workers, rounds, Initial(workers), acts).Some?
    ensures Always(Fair, workers, rounds, Initial(workers), acts) <==> Quiet(acts)
  {
    InitialInv(workers, workers);
    FairExactlyFrom(workers, rounds, Initial(workers), acts, 0);
  }

  // --------------------------------------------------------------------- liveness

  /** Steps a thread has left before it is between calls. */
  function Left(pc: PC): nat {
    match pc
    case Start => 0
    case Locked => 5
    case Counted => 4
    case Waiting => 3
    case Signalled => 2
    case Leaving => 1
  }

  function Work(rounds: nat, s: State, k: nat): int
    requires k <= |s.pcs| == |s.begun|
  {
    if k == 0 then 0 else Work(rounds, s, k - 1) + 6 * (rounds - s.begun[k - 1]) + Left(s.pcs[k - 1])
  }

  lemma {:induction false} WorkLess(rounds: nat, a: State, b: State, k: nat, t: nat)
    requires k <= |a.pcs| == |a.begun| == |b.pcs| == |b.begun| && t < |a.pcs|
    requires forall i: nat | i < |a.pcs| && i != t :: b.begun[i] == a.begun[i] && Left(b.pcs[i]) <= Left(a.pcs[i])
    requires 6 * (rounds - b.begun[t]) + Left(b.pcs[t]) < 6 * (rounds - a.begun[t]) + Left(a.pcs[t])
    ensures if t < k then Work(rounds, b, k) < Work(rounds, a, k) else Work(rounds, b, k) <= Work(rounds, a, k)
  {
    if k > 0 { WorkLess(rounds, a, b, k - 1, t); }
  }

  /** Every step of every thread brings the end nearer. */
  lemma StepProgress(num: nat, rounds: nat, s: State, t: nat)
    requires Shaped(s) && t < |s.pcs| && Step(num, rounds, s, t).Some?
    ensures Shaped(Step(num, rounds, s, t).value) && |Step(num, rounds, s, t).value.pcs| == |s.pcs|
    ensures Work(rounds, Step(num, rounds, s, t).value, |s.pcs|) < Work(rounds, s, |s.pcs|)
  {
    WorkLess(rounds, s, Step(num, rounds, s, t).value, |s.pcs|, t);
  }

  /** So does a spurious wakeup. */
  lemma {:induction false} RunSpends(num: nat, rounds: nat, s: State, acts: seq<Act>)
    requires Shaped(s) && Run(num, rounds, s, acts).Some?
    ensures var r := Run(num, rounds, s, acts).value;
      Shaped(r) && |r.pcs| == |s.pcs| && |acts| + Work(rounds, r, |s.pcs|) <= Work(rounds, s, |s.pcs|)
    decreases |acts|
  {
    if acts != [] {
      var s1 := Do(num, rounds, s, acts[0]).value;
      if acts[0].Go? {
        StepProgress(num, rounds, s, acts[0].t);
      } else {
        WorkLess(rounds, s, s1, |s.pcs|, acts[0].t);
      }
      RunSpends(num, rounds, s1, acts[1..]);
    }
  }

  lemma {:induction false} WorkOfInitial(rounds: nat, workers: nat, k: nat)
    requires k <= workers + 1
    ensures Work(rounds, Initial(workers), k) == 6 * rounds * k
  {
    if k > 0 { WorkOfInitial(rounds, workers, k - 1); }
  }

  lemma {:induction false} WorkIsNat(rounds: nat, s: State, k: nat)
    requires k <= |s.pcs| == |s.begun| && forall i: nat | i < |s.pcs| :: s.begun[i] <= rounds
    ensures Work(rounds, s, k) >= 0
  {
    if k > 0 { WorkIsNat(rounds, s, k - 1); }
  }

  /** No thread can take a step. */
  ghost predicate Stopped(num: nat, rounds: nat, s: State) {
    Shaped(s) && forall t: nat | t < |s.pcs| :: Step(num, rounds, s, t).None?
  }

  lemma OwnerCanStep(num: nat, rounds: nat, s: State)
    requires Shaped(s) && Exclusive(s) && s.owner.Some?
    ensures Step(num, rounds, s, s.owner.value).Some?
  {
    assert Owns(s.pcs[s.owner.value]);
  }

  /** In a stopped state the mutex is free, and threads wait or have made all their calls. */
  lemma StoppedThreads(num: nat, rounds: nat, s: State)
    requires Inv(num, s) && Stopped(num, rounds, s)
    ensures s.owner == None
    ensures forall t: nat | t < |s.pcs| :: s.pcs[t] == Waiting || (s.pcs[t] == Start && s.begun[t] >= rounds)
  {
    if s.owner.Some? { OwnerCanStep(num, rounds, s); }
    forall t: nat | t < |s.pcs|
      ensures s.pcs[t] == Waiting || (s.pcs[t] == Start && s.begun[t] >= rounds)
    {
      assert Step(num, rounds, s, t).None?;
      assert Owns(s.pcs[t]) <==> s.owner == Some(t);
    }
  }

  /** There is no deadlock: where nobody can step, everybody has made all its calls. */
  lemma NoDeadlock(w: nat, rounds: nat, s: State, k: nat)
    requires Inv(w, s) && |s.pcs| == w + 1 && Even(rounds, s, k) && Stopped(w, rounds, s)
    ensures s == State(0, 0, None, Initial(w).pcs, seq(w + 1, _ => rounds))
  {
    StoppedThreads(w, rounds, s);
    if s.pcs[w] == Waiting {
      forall u: nat | u < w ensures IsEntered(s.pcs[u]) {
        assert s.begun[u] == k + (if Inside(s.pcs[u]) then 1 else 0);
      }
      EveryoneEntered(s.pcs, w);
      assert false;
    } else {
      forall u: nat | u <= w ensures s.pcs[u] == Start && s.begun[u] == rounds {
        assert s.begun[u] == k + (if Inside(s.pcs[u]) then 1 else 0) <= rounds;
      }
      NoneEntered(s.pcs, w);
      assert s.pcs == Initial(w).pcs;
      assert s.begun == seq(w + 1, _ => rounds);
    }
  }

  lemma {:induction false} RunBegun(num: nat, rounds: nat, s: State, acts: seq<Act>)
    requires |s.pcs| == |s.begun| && Run(num, rounds, s, acts).Some?
    requires forall t: nat | t < |s.pcs| :: s.begun[t] <= rounds
    ensures var r := Run(num, rounds, s, acts).value;
      |r.pcs| == |r.begun| == |s.pcs| && forall t: nat | t < |r.pcs| :: r.begun[t] <= rounds
    decreases |acts|
  {
    if acts != [] { RunBegun(num, rounds, Do(num, rounds, s, acts[0]).value, acts[1..]); }
  }

  /** Every run, with whatever wakeups, ends within six steps per call, whoever is scheduled
      and whatever the releaser waits for. */
  lemma EveryRunEnds(num: nat, workers: nat, rounds: nat, acts: seq<Act>)
    requires Run(num, rounds, Initial(workers), acts).Some?
    ensures |acts| <= 6 * rounds * (workers + 1)
  {
    RunSpends(num, rounds, Initial(workers), acts);
    RunBegun(num, rounds, Initial(workers), acts);
    WorkOfInitial(rounds, workers, workers + 1);
    WorkIsNat(rounds, Run(num, rounds, Initial(workers), acts).value, workers + 1);
  }

  lemma {:induction false} QuietHarmless(num: nat, rounds: nat, s: State, acts: seq<Act>)
    requires |s.pcs| == |s.begun| && Quiet(acts)
    ensures Harmless(num, rounds, s, acts)
    decreases |acts|
  {
    if acts != [] && Do(num, rounds, s, acts[0]).Some? {
      assert acts[0].Go?;
      QuietHarmless(num, rounds, Do(num, rounds, s, acts[0]).value, acts[1..]);
    }
  }

  /** And where one with harmless wakeups, or none, cannot go on, all threads are back from
      all their calls, with the mutex free and both counters zero, as they were at the
      start. */
  lemma EveryRunFinishes(workers: nat, rounds: nat, acts: seq<Act>, s: State)
    requires Run(workers, rounds, Initial(workers), acts) == Some(s) && Stopped(workers, rounds, s)
    requires Quiet(acts) || Harmless(workers, rounds, Initial(workers), acts)
    ensures s == Initial(workers).(begun := seq(workers + 1, _ => rounds))
  {
    if Quiet(acts) { QuietHarmless(workers, rounds, Initial(workers), acts); }
    InitialSound(workers, rounds);
    KeptExactlyFrom(workers, rounds, Initial(workers), acts);
    if k: nat, x: nat :| Opening(workers, rounds, s, k, x) {
      OpeningMoves(workers, rounds, s, k, x);
    } else {
      var k: nat :| Even(rounds, s, k);
      NoDeadlock(workers, rounds, s, k);
    }
  }

  // -------------------------------------------------------------------- the class

  /** What every method keeps; the second part as long as no thread has woken by itself. */
  lemma StepKeeps(num: nat, rounds: nat, s: State, t: nat)
    requires Bounded(num, s) && t < |s.pcs| && Step(num, rounds, s, t).Some?
    ensures var s1 := Step(num, rounds, s, t).value; Bounded(num, s1) && (Inv(num, s) ==> Inv(num, s1))
  {
    DoBounded(num, rounds, s, Go(t));
    if Inv(num, s) { StepInv(num, rounds, s, t); }
  }

  /** The object the threads share.  A method that blocks is written as the stretches of
      it between the points where the thread gives up the mutex or waits for it. */
  class WaitForThreads {
    var n: nat
    var waitFor: nat
    var owner: Option<nat>
    var pcs: seq<PC>
    ghost var begun: seq<nat>

    ghost function Now(): State reads this {
      State(n, waitFor, owner, pcs, begun)
    }

    constructor (workers: nat)
      ensures Now() == Initial(workers)
    {
      n := 0;
      waitFor := 0;
      owner := None;
      pcs := seq(workers + 1, _ => Start);
      begun := seq(workers + 1, _ => 0);
    }

    /** pthread_mutex_lock, at the start of a call or at the end of a wait. */
    method Lock(ghost num: nat, ghost rounds: nat, t: nat)
      requires Bounded(num, Now()) && t < |pcs| && owner == None
      requires pcs[t] == Signalled || (pcs[t] == Start && begun[t] < rounds)
      modifies this
      ensures Step(num, rounds, old(Now()), t) == Some(Now())
      ensures Bounded(num, Now()) && (old(Inv(num, Now())) ==> Inv(num, Now()))
    {
      StepKeeps(num, rounds, Now(), t);
      begun := if pcs[t] == Start then begun[t := begun[t] + 1] else begun;
      pcs := pcs[t := if pcs[t] == Start then Locked else Leaving];
      owner := Some(t);
    }

    /** pthread_mutex_unlock, before returning. */
    method Unlock(ghost num: nat, ghost rounds: nat, t: nat)
      requires Bounded(num, Now()) && t < |pcs| && pcs[t] == Leaving
      modifies this
      ensures Step(num, rounds, old(Now()), t) == Some(Now())
      ensures Bounded(num, Now()) && (old(Inv(num, Now())) ==> Inv(num, Now()))
    {
      StepKeeps(num, rounds, Now(), t);
      pcs := pcs[t := Start];
      owner := None;
    }

    method UnblockThreads(t: nat)
      requires t < |pcs|
      modifies this
      ensures Now() == Unblock(old(Now()), t)
    {
      n := 0;
      waitFor := 0;
      pcs := Broadcast(pcs)[t := Leaving];
    }

    method CondWait(t: nat)
      requires t < |pcs|
      modifies this
      ensures Now() == Wait(old(Now()), t)
    {
      owner := None;
      pcs := pcs[t := Waiting];
    }

    /** `block` under the mutex: the assertion is the source's. */
    method Block(ghost num: nat, ghost rounds: nat, t: nat)
      requires Bounded(num, Now()) && t < |pcs| - 1 && pcs[t] == Locked
      modifies this
      ensures var counted := old(Now().(n := n + 1, pcs := pcs[t := Counted]));
        Step(num, rounds, old(Now()), t) == Some(counted) && Step(num, rounds, counted, t) == Some(Now())
      ensures Bounded(num, Now()) && (old(Inv(num, Now())) ==> Inv(num, Now()))
    {
      StepKeeps(num, rounds, Now(), t);
      n, pcs := n + 1, pcs[t := Counted];
      StepKeeps(num, rounds, Now(), t);
      assert waitFor == 0 || n <= waitFor;
      if waitFor > 0 && n == waitFor {
        UnblockThreads(t);
      } else {
        CondWait(t);
      }
    }

    /** `releaseThreads` under the mutex. */
    method ReleaseThreads(num: nat, ghost rounds: nat, t: nat)
      requires Bounded(num, Now()) && t == |pcs| - 1 && pcs[t] == Locked
      modifies this
      ensures Step(num, rounds, old(Now()), t) == Some(Now())
      ensures Bounded(num, Now()) && (old(Inv(num, Now())) ==> Inv(num, Now()))
    {
      StepKeeps(num, rounds, Now(), t);
      if n >= num {
        UnblockThreads(t);
      } else {
        waitFor := num;
        CondWait(t);
      }
    }
  }
}
