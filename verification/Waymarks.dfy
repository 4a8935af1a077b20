/**
 The two tag bits in each operand slot of a User, from which a slot finds the end of its
 operand array, where the User is (`Use::initTags` and `Use::getImpliedUser`).

 Tags are laid from the end of the array.  A stop tag at distance d is followed, further
 from the end, by the binary digits of d + 1, the lowest first; when they run out comes the
 next stop.  Whoever walks towards the end looked the digits highest first.
 */
module Waymarks {
  datatype Tag = Zero | One | Stop | FullStop

  predicate IsDigit(tag: Tag) {
    tag == Zero || tag == One
  }

  function Digit(bit: nat): Tag
    requires bit < 2
  {
    if bit == 1 then One else Zero
  }

  /** The number whose digits are still to be laid after the tag at distance `d`. */
  function Pending(d: nat): (count: nat)
    ensures count <= d + 1
  {
    if d == 0 then 1
    else if Pending(d - 1) == 0 then d + 1
    else Pending(d - 1) / 2
  }

  /** The tag at distance `d` from the end. */
  function TagAt(d: nat): Tag {
    if d == 0 then FullStop
    else if Pending(d - 1) == 0 then Stop
    else Digit(Pending(d - 1) % 2)
  }

  /** The table of precomputed tags. */
  const TABLE: seq<Tag> :=
    [FullStop, One, Stop, One, One, Stop, Zero, One, One, Stop,
     Zero, One, Zero, One, Stop, One, One, One, One, Stop]

  /** The table says what the loop that follows it would have laid. */
  lemma TableIsTags()
    ensures |TABLE| == 20 && forall d: nat | d < 20 :: TABLE[d] == TagAt(d)
    ensures Pending(19) == 20
  {
    assert Pending(0) == 1 && Pending(1) == 0 && Pending(2) == 3 && Pending(3) == 1;
    assert Pending(4) == 0 && Pending(5) == 6 && Pending(6) == 3 && Pending(7) == 1;
    assert Pending(8) == 0 && Pending(9) == 10 && Pending(10) == 5 && Pending(11) == 2;
    assert Pending(12) == 1 && Pending(13) == 0 && Pending(14) == 15 && Pending(15) == 7;
    assert Pending(16) == 3 && Pending(17) == 1 && Pending(18) == 0 && Pending(19) == 20;
  }

  /** The slots of `a` from `start` on are tagged, for an array that ends at `stop`. */
  ghost predicate Tagged(a: seq<Tag>, start: nat, stop: nat) {
    stop <= |a| && forall i: nat | start <= i < stop :: a[i] == TagAt(stop - 1 - i)
  }

  lemma NextTag(d: nat, count: nat)
    requires d > 0 && count == Pending(d - 1)
    ensures TagAt(d) == if count == 0 then Stop else Digit(count % 2)
    ensures Pending(d) == if count == 0 then d + 1 else count / 2
  {
  }

  /** One more slot in front of a tagged stretch. */
  lemma TaggedMore(a: seq<Tag>, start: nat, stop: nat)
    requires start < stop <= |a| && Tagged(a, start + 1, stop) && a[start] == TagAt(stop - 1 - start)
    ensures Tagged(a, start, stop)
  {
  }

  /** Lay the tags of the operand array [start, stop), and touch no other slot. */
  method InitTags(a: array<Tag>, start: nat, stop: nat)
    requires start <= stop <= a.Length
    modifies a
    ensures Tagged(a[..], start, stop)
    ensures forall i: nat | i < a.Length && !(start <= i < stop) :: a[i] == old(a[i])
  {
    TableIsTags();
    hide TagAt, Pending;
    var stop', done := stop, 0;
    while done < 20
      invariant done <= 20 && start <= stop' == stop - done
      invariant Tagged(a[..], stop', stop)
      invariant forall i: nat | i < a.Length && !(stop' <= i < stop) :: a[i] == old(a[i])
    {
      if start == stop' { return; }
      stop' := stop' - 1;
      a[stop'] := TABLE[done];
      TaggedMore(a[..], stop', stop);
      done := done + 1;
    }
    var count := done;
    while start != stop'
      invariant start <= stop' == stop - done && done >= 20 && count == Pending(done - 1)
      invariant Tagged(a[..], stop', stop)
      invariant forall i: nat | i < a.Length && !(stop' <= i < stop) :: a[i] == old(a[i])
    {
      stop' := stop' - 1;
      NextTag(done, count);
      if count == 0 {
        a[stop'] := Stop;
        done := done + 1;
        count := done;
      } else {
        a[stop'] := Digit(count % 2);
        count := count / 2;
        done := done + 1;
      }
      TaggedMore(a[..], stop', stop);
    }
  }

  /** Just before a stop the last digit laid is the leading one. */
  lemma LeadingDigit(d: nat)
    requires d > 0 && TagAt(d) == Stop
    ensures d >= 2 && IsDigit(TagAt(d - 1)) && Pending(d - 2) == 1
  {
    assert Pending(d - 1) == 0;
  }

  /** Binary digits after the leading one. */
  function Log2(n: nat): nat {
    if n < 2 then 0 else 1 + Log2(n / 2)
  }

  function Pow2(k: nat): nat {
    if k == 0 then 1 else 2 * Pow2(k - 1)
  }

  lemma {:induction false} Log2Bound(n: nat, k: nat)
    requires Pow2(k) <= n
    ensures k <= Log2(n)
    decreases k
  {
    if k > 0 { Log2Bound(n / 2, k - 1); }
  }

  /** How many digits there are from the one at distance `d` to the next stop. */
  function Digits(d: nat): nat {
    if IsDigit(TagAt(d)) && d > 0 then 1 + Digits(d - 1) else 0
  }

  /** What has been laid of a number and what is pending make up the number. */
  lemma {:induction false} DigitsPending(d: nat)
    ensures Pending(d) * Pow2(Digits(d)) <= d + 1
  {
    if d > 0 {
      DigitsPending(d - 1);
      if Pending(d - 1) > 0 {
        Halved(Pending(d - 1), Pow2(Digits(d - 1)));
      }
    }
  }

  lemma Halved(p: nat, q: nat)
    ensures p / 2 * (2 * q) <= p * q
  {
    assert p == 2 * (p / 2) + p % 2;
    assert p * q == 2 * (p / 2) * q + p % 2 * q;
  }

  /** Stops are close: a number has not more than logarithmically many digits. */
  lemma DigitsFew(d: nat)
    ensures Digits(d) <= Log2(d) + 1
  {
    if IsDigit(TagAt(d)) && d > 0 {
      DigitsPending(d - 1);
      var p, q := Pending(d - 1), Pow2(Digits(d - 1));
      assert p * q >= q by { Scaled(p, q); }
      Log2Bound(d, Digits(d - 1));
    }
  }

  lemma Scaled(p: nat, q: nat)
    requires p > 0
    ensures p * q >= q
  {
  }

  lemma {:induction false} Log2Grows(m: nat, n: nat)
    requires m <= n
    ensures Log2(m) <= Log2(n)
    decreases n
  {
    if n >= 2 { Log2Grows(m / 2, n / 2); }
  }

  /** From any operand slot, walking the tags stays inside the array and finds its end,
      whatever lies beyond the array, and looks at logarithmically many slots only. */
  method GetImpliedUser(a: seq<Tag>, ghost start: nat, use: nat, ghost stop: nat) returns (end: nat, ghost looked: nat)
    requires start <= use < stop && Tagged(a, start, stop)
    ensures end == stop
    ensures looked <= 2 * Log2(stop - use) + 5
  {
    hide Pending, TagAt, Log2;
    var current := use;
    looked := 0;
    DigitsFew(stop - 1 - use);
    Log2Grows(stop - 1 - use, stop - use);
    while true
      invariant start <= current < stop
      invariant looked + Digits(stop - 1 - current) <= Log2(stop - use) + 1
      decreases stop - current
    {
      var tag := a[current];
      NextDigit(stop - 1 - current);
      current, looked := current + 1, looked + 1;
      if IsDigit(tag) {
        continue;
      }
      if tag == FullStop {
        return current, looked;
      }
      LeadingDigit(stop - current);
      current, looked := current + 1, looked + 1;
      var offset := 1;
      Log2Grows(stop - current, stop - use);
      DigitsFew(stop - 1 - current);
      Log2Grows(stop - 1 - current, stop - current);
      while IsDigit(a[current])
        invariant start <= current < stop
        invariant offset == Pending(stop - 1 - current)
        invariant looked + Digits(stop - 1 - current) <= 2 * Log2(stop - use) + 4
        decreases stop - current
      {
        NextPending(stop - 1 - current);
        NextDigit(stop - 1 - current);
        offset := offset * 2 + if a[current] == One then 1 else 0;
        current, looked := current + 1, looked + 1;
      }
      StopPending(stop - 1 - current);
      return current + offset, looked + 1;
    }
  }

  /** At distance 0 is the full stop. */
  lemma NextDigit(d: nat)
    ensures if IsDigit(TagAt(d)) then d > 0 && Digits(d) == 1 + Digits(d - 1) else Digits(d) == 0
    ensures TagAt(d) == FullStop <==> d == 0
  {
  }

  lemma NextPending(d: nat)
    requires IsDigit(TagAt(d))
    ensures d > 0 && Pending(d - 1) == 2 * Pending(d) + if TagAt(d) == One then 1 else 0
  {
  }

  lemma StopPending(d: nat)
    requires !IsDigit(TagAt(d))
    ensures Pending(d) == d + 1
  {
  }
}
