/**
 Use lists (Use.h, User.h, Value.h): each Value heads an intrusive list of the operand slots
 that hold it.  A slot's `Prev` designates the link that points at the slot, so that it can
 be unlinked without walking the list.
 */
module UseLists {
  import opened Wrappers

  // ------------------------------------------------------------ assignments, on values

  /** A list without a slot. */
  function Without<S(==)>(list: seq<S>, s: S): (r: seq<S>)
    ensures forall x | x in r :: x in list && x != s
  {
    if list == [] then [] else
      (if list[0] == s then [] else [list[0]]) + Without(list[1..], s)
  }

  /** What assigning slot `s` does to the list of one value: the slot leaves it, and comes
      first if this is the value assigned. */
  function Assigned<S(==)>(list: seq<S>, s: S, here: bool): seq<S> {
    (if here then [s] else []) + Without(list, s)
  }

  lemma {:induction false} WithoutOthers<S>(list: seq<S>, s: S)
    requires s !in list
    ensures Without(list, s) == list
  {
    if list != [] { WithoutOthers(list[1..], s); }
  }

  function Reversed<S>(list: seq<S>): (r: seq<S>)
    ensures |r| == |list|
  {
    if list == [] then [] else Reversed(list[1..]) + [list[0]]
  }

  lemma {:induction false} ReversedSnoc<S>(list: seq<S>, s: S)
    ensures Reversed(list + [s]) == [s] + Reversed(list)
  {
    if list != [] {
      ReversedSnoc(list[1..], s);
      assert (list + [s])[1..] == list[1..] + [s];
    }
  }

  ghost predicate Distinct<S>(list: seq<S>) {
    forall i: nat, j: nat | i < j < |list| :: list[i] != list[j]
  }

  /** In a list without duplicates, unlinking a node takes out that node alone. */
  lemma {:induction false} WithoutAt<S>(list: seq<S>, k: nat)
    requires k < |list| && Distinct(list)
    ensures Without(list, list[k]) == list[..k] + list[k + 1..]
  {
    if k == 0 {
      WithoutOthers(list[1..], list[0]);
    } else {
      WithoutAt(list[1..], k - 1);
      assert list[1..][..k - 1] == list[1..k] && list[1..][k..] == list[k + 1..];
      assert [list[0]] + list[1..k] == list[..k];
    }
  }

  /** One step of ReplaceAllUsesWith: the first node moves to the front of the other list. */
  lemma FirstMoves<S>(was: seq<S>, done: nat)
    requires done < |was| && Distinct(was)
    ensures Without(was[done..], was[done]) == was[done + 1..]
    ensures Reversed(was[..done + 1]) == [was[done]] + Reversed(was[..done])
  {
    WithoutAt(was[done..], 0);
    ReversedSnoc(was[..done], was[done]);
    assert was[..done + 1] == was[..done] + [was[done]];
  }

  lemma {:induction false} WithoutKeeps<S>(list: seq<S>, s: S, x: S)
    requires x in list && x != s
    ensures x in Without(list, s)
  {
    if list[0] != x { WithoutKeeps(list[1..], s, x); }
  }

  /** A list without the slots of another, in the same order. */
  function Except<S(==)>(list: seq<S>, gone: seq<S>): seq<S> {
    if list == [] then [] else
      (if list[0] in gone then [] else [list[0]]) + Except(list[1..], gone)
  }

  lemma {:induction false} ExceptNone<S>(list: seq<S>)
    ensures Except(list, []) == list
  {
    if list != [] { ExceptNone(list[1..]); }
  }

  lemma {:induction false} ExceptOneMore<S>(list: seq<S>, gone: seq<S>, s: S)
    ensures Without(Except(list, gone), s) == Except(list, gone + [s])
  {
    if list != [] {
      ExceptOneMore(list[1..], gone, s);
      var rest := Except(list[1..], gone);
      assert [] + rest == rest && ([list[0]] + rest)[1..] == rest;
      assert list[0] in gone + [s] <==> list[0] in gone || list[0] == s;
    }
  }

  /** One assignment of a history. */
  datatype Write<S, V> = Write(slot: S, value: Option<V>)

  /** The list of one value after a history of assignments to slots that held nothing. */
  function ListAfter<S(==), V(==)>(h: seq<Write<S, V>>, v: V): seq<S> {
    if h == [] then [] else
      var last := h[|h| - 1];
      Assigned(ListAfter(h[..|h| - 1], v), last.slot, last.value == Some(v))
  }

  /** When a slot was last assigned, or -1. */
  function LastWrite<S(==), V>(h: seq<Write<S, V>>, s: S): (i: int)
    ensures -1 <= i < |h|
    ensures i >= 0 ==> h[i].slot == s
    ensures forall j: nat | i < j < |h| :: h[j].slot != s
  {
    if h == [] then -1
    else if h[|h| - 1].slot == s then |h| - 1
    else LastWrite(h[..|h| - 1], s)
  }

  /** The slots come in the order of their last assignments, the latest first. */
  ghost predicate LatestFirst<S, V>(h: seq<Write<S, V>>, list: seq<S>, bound: int) {
    list == [] || (LastWrite(h, list[0]) < bound && LatestFirst(h, list[1..], LastWrite(h, list[0])))
  }

  lemma {:induction false} WithoutLatestFirst<S, V>(h: seq<Write<S, V>>, w: Write<S, V>, list: seq<S>, bound: int)
    requires LatestFirst(h, list, bound)
    ensures LatestFirst(h + [w], Without(list, w.slot), bound)
  {
    assert (h + [w])[..|h|] == h;
    if list != [] {
      WithoutLatestFirst(h, w, list[1..], LastWrite(h, list[0]));
      var rest := Without(list[1..], w.slot);
      assert [] + rest == rest && ([list[0]] + rest)[1..] == rest;
    }
  }

  lemma {:induction false} LatestFirstOrder<S, V>(h: seq<Write<S, V>>, list: seq<S>, bound: int, j: nat)
    requires LatestFirst(h, list, bound) && j < |list|
    ensures LastWrite(h, list[j]) < bound
    ensures forall i: nat | i < j :: LastWrite(h, list[i]) > LastWrite(h, list[j])
  {
    if j > 0 {
      LatestFirstOrder(h, list[1..], LastWrite(h, list[0]), j - 1);
      forall i: nat | i < j ensures LastWrite(h, list[i]) > LastWrite(h, list[j]) {
        if i > 0 { assert list[i] == list[1..][i - 1]; }
      }
    }
  }

  /** After any history of assignments, the list of a value holds exactly the slots whose
      last assignment was that value, each once, the latest first. */
  lemma ListsFollowHistory<S, V>(h: seq<Write<S, V>>, v: V, s: S)
    ensures s in ListAfter(h, v) <==> LastWrite(h, s) >= 0 && h[LastWrite(h, s)].value == Some(v)
    ensures var list := ListAfter(h, v);
      forall i: nat, j: nat | i < j < |list| :: LastWrite(h, list[i]) > LastWrite(h, list[j])
  {
    HistoryStep(h, v, s);
    var list := ListAfter(h, v);
    forall i: nat, j: nat | i < j < |list| ensures LastWrite(h, list[i]) > LastWrite(h, list[j]) {
      LatestFirstOrder(h, list, |h|, j);
    }
  }

  lemma {:induction false} HistoryStep<S, V>(h: seq<Write<S, V>>, v: V, s: S)
    ensures s in ListAfter(h, v) <==> LastWrite(h, s) >= 0 && h[LastWrite(h, s)].value == Some(v)
    ensures LatestFirst(h, ListAfter(h, v), |h|)
  {
    if h != [] {
      var init, last := h[..|h| - 1], h[|h| - 1];
      assert init + [last] == h;
      HistoryStep(init, v, s);
      var before := ListAfter(init, v);
      WithoutLatestFirst(init, last, before, |init|);
      var rest := Without(before, last.slot);
      assert [] + rest == rest && ([last.slot] + rest)[1..] == rest;
      if s in before && s != last.slot { WithoutKeeps(before, last.slot, s); }
    }
  }

  // --------------------------------------------------------------------- the classes

  class Value {
    var UseList: Use?
    /** The slots of the list, in order. */
    ghost var uses: seq<Use>

    constructor ()
      ensures UseList == null && uses == []
    {
      UseList, uses := null, [];
    }

    /** `Value::addUse`. */
    method AddUse(u: Use, ghost w: World, ghost loose: set<Use>)
      requires this in w.values && u in loose && u in w.uses && u.Val == this && Valid(w, loose)
      modifies w.values, w.uses
      ensures Valid(w, loose - {u}) && uses == [u] + old(uses)
      ensures forall v | v in w.values && v != this :: v.uses == old(v.uses)
      ensures forall x | x in w.uses :: x.Val == old(x.Val)
    {
      u.AddToList(this, w, loose);
    }

    /** `Value::getNumUses`: a walk along the list ends, and passes each use once. */
    method GetNumUses(ghost w: World) returns (count: nat)
      requires this in w.values && Valid(w, {})
      ensures count == |uses|
    {
      var u := UseList;
      count := 0;
      while u != null
        invariant count <= |uses| && u == At(uses, count)
        decreases |uses| - count
      {
        assert NodeOk(this, uses, count);
        u := u.Next;
        count := count + 1;
      }
    }

    /** `Value::replaceAllUsesWith`: every slot that held this value holds the other, whose
        list takes them over one by one from the front. */
    method ReplaceAllUsesWith(v: Value, ghost w: World)
      requires this in w.values && v in w.values && v != this && Valid(w, {})
      modifies w.values, w.uses
      ensures Valid(w, {}) && uses == [] && v.uses == Reversed(old(uses)) + old(v.uses)
      ensures forall x | x in w.uses :: x.Val == if old(x.Val) == this then v else old(x.Val)
      ensures forall x | x in w.values && x != this && x != v :: x.uses == old(x.uses)
    {
      hide Valid, Without, Reversed;
      ghost var done, was := 0, uses;
      Members(this, w);
      while UseList != null
        invariant Valid(w, {}) && done <= |was| && uses == was[done..]
        invariant v.uses == Reversed(was[..done]) + old(v.uses)
        invariant forall x | x in w.uses :: x.Val == if x in was[..done] then v else old(x.Val)
        invariant forall x | x in w.values && x != this && x != v :: x.uses == old(x.uses)
        decreases |was| - done
      {
        Members(this, w);
        FirstMoves(was, done);
        UseList.Set(v, w);
        done := done + 1;
      }
      Members(this, w);
      assert was[..done] == was;
    }
  }

  /** A pointer to a `Use *`: the head of a list, or the `Next` of a slot. */
  datatype Link = Nowhere | HeadOf(value: Value) | NextOf(use: Use)

  /** The values and the slots that there are. */
  datatype World = World(values: set<Value>, uses: set<Use>)

  class Use {
    var Val: Value?
    var Next: Use?
    var Prev: Link

    constructor ()
      ensures Val == null
    {
      Val, Next, Prev := null, null, Nowhere;
    }

    method AddToList(v: Value, ghost w: World, ghost loose: set<Use>)
      requires this in loose && this in w.uses && v in w.values && Val == v && Valid(w, loose)
      modifies w.values, w.uses
      ensures Valid(w, loose - {this}) && v.uses == [this] + old(v.uses)
      ensures forall x | x in w.values && x != v :: x.uses == old(x.uses)
      ensures forall x | x in w.uses :: x.Val == old(x.Val)
    {
      ghost var was := v.uses;
      assert ListOk(v);
      assert was != [] ==> NodeOk(v, was, 0);
      Next := v.UseList;
      if Next != null { Next.Prev := NextOf(this); }
      Prev := HeadOf(v);
      v.UseList := this;
      v.uses := [this] + v.uses;
      forall x | x in w.values && x != v ensures ListOk(x) {
        assert old(ListOk(x));
        Untouched(x);
      }
      forall k: nat | k < |was| && k > 0 ensures NodeOk(v, was, k) {
        assert old(NodeOk(v, was, k));
      }
      Pushed(v, was);
    }

    /** Unlink the slot through its back link, without looking at the rest of the list. */
    method RemoveFromList(ghost p: Place)
      requires ListOk(p.value) && p.k < |p.value.uses| && p.value.uses[p.k] == this
      modifies p.value, p.value.uses
      ensures ListOk(p.value) && p.value.uses == old(p.value.uses[..p.k] + p.value.uses[p.k + 1..])
      ensures forall u | u in old(p.value.uses) :: u.Val == old(u.Val)
    {
      ghost var was, k := p.value.uses, p.k;
      assert NodeOk(p.value, was, k);
      assert (k > 0 ==> NodeOk(p.value, was, k - 1)) && (k + 1 < |was| ==> NodeOk(p.value, was, k + 1));
      match Prev {
        case HeadOf(value) => value.UseList := Next;
        case NextOf(use) => use.Next := Next;
      }
      if Next != null { Next.Prev := Prev; }
      p.value.uses := was[..k] + was[k + 1..];
      Unlinked(p);
    }

    /** The write to `Val` of a slot that is in no list. */
    method Assign(v: Value?, ghost w: World, ghost loose: set<Use>)
      requires this in w.uses && this in loose && Valid(w, loose)
      modifies this`Val
      ensures Val == v && Valid(w, loose)
    {
      Val := v;
      forall x | x in w.values ensures ListOk(x) {
        assert old(ListOk(x));
        Untouched(x);
      }
    }

    /** Leave the list of the value held, if any. */
    method Detach(ghost w: World, ghost loose: set<Use>)
      requires this in w.uses && this !in loose && Valid(w, loose)
      modifies w.values, w.uses
      ensures Valid(w, loose + {this})
      ensures forall x | x in w.values :: x.uses == Without(old(x.uses), this)
      ensures forall x | x in w.values && x != old(Val) :: x.uses == old(x.uses)
      ensures forall x | x in w.uses :: x.Val == old(x.Val)
    {
      if Val != null {
        ghost var v: Value := Val;
        ghost var k: nat :| k < |v.uses| && v.uses[k] == this;
        WithoutAt(v.uses, k);
        RemoveFromList(Place(v, k));
        forall x | x in w.values && x != v ensures ListOk(x) {
          assert old(ListOk(x)) && old(ListOk(v));
          Untouched(x);
        }
        forall x | x in w.values ensures x.uses == Without(old(x.uses), this) {
          assert old(ListOk(x));
          if x != v { WithoutOthers(x.uses, this); }
        }
        forall u | u in w.uses && u != this && u !in loose && u.Val != null ensures u.Val in w.values && u in u.Val.uses {
          WithoutKeeps(old(u.Val.uses), this, u);
        }
      } else {
        Unlisted(this, w, loose);
      }
    }

    /** Hold a value, and enter its list if there is one. */
    method Attach(v: Value?, ghost w: World, ghost loose: set<Use>)
      requires this in w.uses && this in loose && (v != null ==> v in w.values) && Valid(w, loose)
      modifies w.values, w.uses
      ensures Valid(w, loose - {this}) && Val == v
      ensures forall x | x in w.values :: x.uses == (if x == v then [this] else []) + old(x.uses)
      ensures forall x | x in w.uses && x != this :: x.Val == old(x.Val)
    {
      Assign(v, w, loose);
      if v != null { v.AddUse(this, w, loose); }
    }

    /** `Use::set`. */
    method Set(v: Value?, ghost w: World)
      requires this in w.uses && (v != null ==> v in w.values) && Valid(w, {})
      modifies w.values, w.uses
      ensures Valid(w, {}) && Val == v
      ensures forall x | x in w.uses && x != this :: x.Val == old(x.Val)
      ensures forall x | x in w.values :: x.uses == Assigned(old(x.uses), this, x == v)
      ensures forall x | x in w.values && x != old(Val) ::
        x.uses == (if x == v then [this] else []) + old(x.uses)
    {
      hide Valid, Without;
      assert {} + {this} == {this} && {this} - {this} == {};
      Detach(w, {});
      Attach(v, w, {this});
    }

    /** `Use::swap`. */
    method Swap(other: Use, ghost w: World)
      requires this in w.uses && other in w.uses && Valid(w, {})
      modifies w.values, w.uses
      ensures Valid(w, {}) && Val == old(other.Val) && other.Val == old(Val)
      ensures forall x | x in w.uses && x != this && x != other :: x.Val == old(x.Val)
      ensures forall x | x in w.values ::
        x.uses == if old(Val == other.Val) then old(x.uses)
                  else (if x == old(Val) then [other] else []) + (if x == old(other.Val) then [this] else [])
                       + Without(Without(old(x.uses), this), other)
    {
      hide Valid, Without;
      Holds(this, w);
      Holds(other, w);
      var v1, v2 := Val, other.Val;
      if v1 != v2 {
        assert {} + {this} == {this} && {this} + {other} == {this, other};
        assert {this, other} - {this} == {other} && {other} - {other} == {};
        Detach(w, {});
        other.Detach(w, {this});
        Attach(v2, w, {this, other});
        other.Attach(v1, w, {other});
      }
    }
  }

  class User {
    const OperandList: seq<Use>

    constructor (operands: seq<Use>)
      ensures OperandList == operands
    {
      OperandList := operands;
    }

    method SetOperand(i: nat, v: Value?, ghost w: World)
      requires i < |OperandList| && Among(OperandList, w.uses, {})
      requires (v != null ==> v in w.values) && Valid(w, {})
      modifies w.values, w.uses
      ensures Valid(w, {}) && OperandList[i].Val == v
      ensures forall x | x in w.uses && x != OperandList[i] :: x.Val == old(x.Val)
      ensures forall x | x in w.values :: x.uses == Assigned(old(x.uses), OperandList[i], x == v)
    {
      OperandList[i].Set(v, w);
    }

    /** Let go of all operands.  Every list loses them, and keeps its other slots in order. */
    method DropAllReferences(ghost w: World)
      requires Among(OperandList, w.uses, {}) && Valid(w, {})
      modifies w.values, w.uses
      ensures Valid(w, {})
      ensures forall x | x in w.uses :: x.Val == if x in OperandList then null else old(x.Val)
      ensures forall x | x in w.values :: x.uses == Except(old(x.uses), OperandList)
    {
      hide Valid, Without, Except;
      forall x | x in w.values ensures Except(x.uses, OperandList[..0]) == x.uses {
        ExceptNone(x.uses);
      }
      for i := 0 to |OperandList|
        invariant Valid(w, {})
        invariant forall x | x in w.uses :: x.Val == if x in OperandList[..i] then null else old(x.Val)
        invariant forall x | x in w.values :: x.uses == Except(old(x.uses), OperandList[..i])
      {
        OperandList[i].Set(null, w);
        assert OperandList[..i + 1] == OperandList[..i] + [OperandList[i]];
        forall x | x in w.values ensures x.uses == Except(old(x.uses), OperandList[..i + 1]) {
          ExceptOneMore(old(x.uses), OperandList[..i], OperandList[i]);
        }
      }
      assert OperandList[..|OperandList|] == OperandList;
    }
  }

  ghost function At(list: seq<Use>, k: nat): Use? {
    if k < |list| then list[k] else null
  }

  /** The link that must point at the k-th node. */
  ghost function LinkTo(v: Value, list: seq<Use>, k: nat): Link
    requires k < |list|
  {
    if k == 0 then HeadOf(v) else NextOf(list[k - 1])
  }

  ghost predicate NodeOk(v: Value, list: seq<Use>, k: nat)
    requires k < |list|
    reads list[k]
  {
    list[k].Next == At(list, k + 1) && list[k].Prev == LinkTo(v, list, k)
  }

  ghost predicate Among(list: seq<Use>, uses: set<Use>, loose: set<Use>) {
    forall u | u in list :: u in uses && u !in loose
  }

  ghost predicate ListOk(v: Value)
    reads v, v.uses
  {
    && (forall u | u in v.uses :: u.Val == v)
    && Distinct(v.uses)
    && v.UseList == At(v.uses, 0)
    && forall k: nat | k < |v.uses| :: NodeOk(v, v.uses, k)
  }

  /** Every list is well linked, and every slot but the `loose` ones is in the list of its
      value, and only there. */
  ghost predicate Valid(w: World, loose: set<Use>)
    reads w.values, w.uses
  {
    && (forall v | v in w.values :: Among(v.uses, w.uses, loose) && ListOk(v))
    && (forall u | u in w.uses && u !in loose && u.Val != null :: u.Val in w.values && u in u.Val.uses)
  }

  /** A list none of whose nodes is written stays as it is. */
  twostate lemma Untouched(v: Value)
    requires old(ListOk(v)) && v.uses == old(v.uses) && v.UseList == old(v.UseList)
    requires forall u | u in v.uses :: u.Val == v && u.Next == old(u.Next) && u.Prev == old(u.Prev)
    ensures ListOk(v)
  {
    forall k: nat | k < |v.uses| ensures NodeOk(v, v.uses, k) {
      assert old(NodeOk(v, v.uses, k));
    }
  }

  /** A well-linked list with a new first node. */
  lemma Pushed(v: Value, was: seq<Use>)
    requires |v.uses| > 0 && v.uses == [v.uses[0]] + was && Distinct(v.uses)
    requires forall u | u in v.uses :: u.Val == v
    requires v.UseList == v.uses[0] && v.uses[0].Next == At(was, 0) && v.uses[0].Prev == HeadOf(v)
    requires was != [] ==> was[0].Next == At(was, 1) && was[0].Prev == NextOf(v.uses[0])
    requires forall k: nat | 0 < k < |was| :: NodeOk(v, was, k)
    ensures ListOk(v)
  {
    forall k: nat | k < |v.uses| ensures NodeOk(v, v.uses, k) {
      if k > 1 { assert NodeOk(v, was, k - 1); }
    }
  }

  /** The k-th node of the list of a value. */
  datatype Place = Place(value: Value, k: nat)

  /** The two writes that unlink the k-th node leave a well-linked list. */
  twostate lemma Unlinked(p: Place)
    requires old(ListOk(p.value)) && p.k < |old(p.value.uses)|
    requires p.value.uses == old(p.value.uses[..p.k] + p.value.uses[p.k + 1..])
    requires p.value.UseList == if p.k == 0 then old(p.value.uses[0].Next) else old(p.value.UseList)
    requires forall u | u in p.value.uses :: u.Val == p.value
    requires forall j: nat | j < |old(p.value.uses)| && j != p.k :: Rewritten(old(p.value.uses), p.k, j)
    ensures ListOk(p.value)
  {
    var was, v, k := old(p.value.uses), p.value, p.k;
    forall j: nat | j < |v.uses| ensures NodeOk(v, v.uses, j) {
      var i := if j < k then j else j + 1;
      assert Rewritten(was, k, i) && old(NodeOk(v, v.uses, i)) && old(NodeOk(v, v.uses, k));
    }
    assert old(NodeOk(v, v.uses, 0));
  }

  /** The neighbours of the k-th node take over its links; other nodes are not written. */
  twostate predicate Rewritten(was: seq<Use>, k: nat, j: nat)
    requires k < |was| && j < |was|
    reads was[j]
  {
    var u, gone := was[j], was[k];
    && u.Next == (if j + 1 == k then old(gone.Next) else old(u.Next))
    && u.Prev == (if j == k + 1 then old(gone.Prev) else old(u.Prev))
  }

  /** A slot that holds nothing is in no list. */
  lemma Unlisted(u: Use, w: World, loose: set<Use>)
    requires u in w.uses && u.Val == null && Valid(w, loose)
    ensures Valid(w, loose + {u}) && forall v | v in w.values :: Without(v.uses, u) == v.uses
  {
    forall v | v in w.values ensures Without(v.uses, u) == v.uses {
      assert ListOk(v);
      WithoutOthers(v.uses, u);
    }
  }

  /** The list of a value holds exactly the slots whose value it is, and starts at its head. */
  lemma Members(v: Value, w: World)
    requires v in w.values && Valid(w, {})
    ensures forall u | u in w.uses :: u in v.uses <==> u.Val == v
    ensures forall u | u in v.uses :: u in w.uses
    ensures Distinct(v.uses) && v.UseList == At(v.uses, 0)
  {
    assert ListOk(v);
  }

  lemma Holds(u: Use, w: World)
    requires u in w.uses && Valid(w, {})
    ensures u.Val != null ==> u.Val in w.values
  {
  }
}
