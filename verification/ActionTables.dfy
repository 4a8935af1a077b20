/**
 The action table of an exception table, as JITDwarfEmitter::EmitExceptionTable computes it:
 every landing pad has a chain of actions, and landing pads whose lists of type ids begin
 alike share the actions of what they have in common.
 */
module ActionTables {
  import opened Wrappers
  import opened Leb128
  import opened Lsda

  /** An action: its type index, the displacement to the action that is tried next, and
      which one in the table that is. */
  datatype Entry = Entry(value: nat, next: int, previous: Option<nat>) {
    function Bytes(): seq<byte> { EncodeS(value) + EncodeS(next) }
    function Size(): nat { |EncodeS(value)| + |EncodeS(next)| }
  }

  function Offset(actions: seq<Entry>, k: nat): nat
    requires k <= |actions|
  {
    if k == 0 then 0 else Offset(actions, k - 1) + actions[k - 1].Size()
  }

  function Bytes(actions: seq<Entry>): seq<byte> {
    if actions == [] then [] else Bytes(actions[..|actions| - 1]) + actions[|actions| - 1].Bytes()
  }

  /** The displacement is relative to where it is stored itself. */
  ghost predicate Linked(actions: seq<Entry>, k: nat)
    requires k < |actions|
  {
    match actions[k].previous
    case None => actions[k].next == 0
    case Some(p) => p < k && actions[k].next == Offset(actions, p) - (Offset(actions, k) + |EncodeS(actions[k].value)|)
  }

  ghost predicate AllLinked(actions: seq<Entry>) {
    forall k | 0 <= k < |actions| :: Linked(actions, k)
  }

  /** The type ids of an action and of those tried after it, in the order of a landing pad's
      list, which is the reverse of the order they are tried in. */
  function Path(actions: seq<Entry>, k: nat): (ids: seq<nat>)
    requires k < |actions|
    ensures ids != [] && ids[|ids| - 1] == actions[k].value
  {
    match actions[k].previous
    case Some(p) => if p < k then Path(actions, p) + [actions[k].value] else [actions[k].value]
    case None => [actions[k].value]
  }

  /** The first action of a landing pad is that of its whole list; 0 if the list is empty. */
  ghost predicate First(ids: seq<nat>, actions: seq<Entry>, first: nat) {
    if ids == [] then first == 0
    else exists e: nat :: e < |actions| && Path(actions, e) == ids && first == Offset(actions, e) + 1
  }

  ghost predicate TableOf(pads: seq<seq<nat>>, actions: seq<Entry>, firstActions: seq<nat>) {
    && AllLinked(actions) && |firstActions| == |pads|
    && forall j | 0 <= j < |pads| :: First(pads[j], actions, firstActions[j])
  }

  /** No two actions stand for the same list: what can be shared is. */
  ghost predicate Folded(actions: seq<Entry>) {
    forall e: nat, f: nat | e < f < |actions| :: Path(actions, e) != Path(actions, f)
  }

  /** The list begins some landing pad's. */
  ghost predicate Begins(ids: seq<nat>, pads: seq<seq<nat>>) {
    exists j: nat :: j < |pads| && ids <= pads[j]
  }

  /** And every action is some landing pad's. */
  ghost predicate Needed(pads: seq<seq<nat>>, actions: seq<Entry>) {
    forall e: nat | e < |actions| :: Begins(Path(actions, e), pads)
  }

  // ----------------------------------------------------------------- growing tables

  lemma {:induction false} OffsetExtends(actions: seq<Entry>, more: seq<Entry>, k: nat)
    requires k <= |actions|
    ensures Offset(actions + more, k) == Offset(actions, k)
  {
    if k > 0 { OffsetExtends(actions, more, k - 1); }
  }

  lemma {:induction false} PathExtends(actions: seq<Entry>, more: seq<Entry>, k: nat)
    requires k < |actions|
    ensures Path(actions + more, k) == Path(actions, k)
    decreases k
  {
    if actions[k].previous.Some? && actions[k].previous.value < k {
      PathExtends(actions, more, actions[k].previous.value);
    }
  }

  lemma LinkedExtends(actions: seq<Entry>, more: seq<Entry>)
    requires AllLinked(actions)
    ensures forall k | 0 <= k < |actions| :: Linked(actions + more, k)
  {
    forall k | 0 <= k < |actions| ensures Linked(actions + more, k) {
      assert Linked(actions, k);
      OffsetExtends(actions, more, k);
      if actions[k].previous.Some? { OffsetExtends(actions, more, actions[k].previous.value); }
    }
  }

  lemma FirstExtends(ids: seq<nat>, actions: seq<Entry>, more: seq<Entry>, first: nat)
    requires First(ids, actions, first)
    ensures First(ids, actions + more, first)
  {
    if ids != [] {
      var e: nat :| e < |actions| && Path(actions, e) == ids && first == Offset(actions, e) + 1;
      PathExtends(actions, more, e);
      OffsetExtends(actions, more, e);
    }
  }

  // ------------------------------------------------------- the order of landing pads

  /** Lexicographic, a list after all that begin it. */
  predicate AtMost(a: seq<nat>, b: seq<nat>)
    decreases |a|
  {
    a == [] || (b != [] && (a[0] < b[0] || (a[0] == b[0] && AtMost(a[1..], b[1..]))))
  }

  ghost predicate Sorted(pads: seq<seq<nat>>) {
    forall i, j | 0 <= i <= j < |pads| :: AtMost(pads[i], pads[j])
  }

  /** What begins the ends of a sorted stretch begins everything in between. */
  lemma {:induction false} BeginsBetween(p: seq<nat>, a: seq<nat>, b: seq<nat>, c: seq<nat>)
    requires AtMost(a, b) && AtMost(b, c) && p <= a && p <= c
    ensures p <= b
    decreases |p|
  {
    if p != [] {
      assert a[0] == p[0] == c[0] == b[0];
      BeginsBetween(p[1..], a[1..], b[1..], c[1..]);
      assert b == [b[0]] + b[1..];
    }
  }

  /** A list that begins its predecessor is equal to it. */
  lemma {:induction false} BeginsPrevious(a: seq<nat>, b: seq<nat>)
    requires AtMost(a, b) && b <= a
    ensures a == b
    decreases |a|
  {
    if a != [] {
      BeginsPrevious(a[1..], b[1..]);
      assert a == [a[0]] + a[1..] && b == [b[0]] + b[1..];
    }
  }

  /** The comparison landing pads are sorted by. */
  method PadLT(l: seq<nat>, r: seq<nat>) returns (less: bool)
    ensures less <==> !AtMost(r, l)
  {
    var minSize := if |l| < |r| then |l| else |r|;
    for i := 0 to minSize
      invariant l[..i] == r[..i]
      invariant AtMost(r, l) <==> AtMost(r[i..], l[i..])
    {
      if l[i] != r[i] {
        return l[i] < r[i];
      }
      assert l[i..][1..] == l[i + 1..] && r[i..][1..] == r[i + 1..];
    }
    return |l| < |r|;
  }

  /** How many leading type ids two landing pads have in common. */
  method SharedTypeIds(l: seq<nat>, r: seq<nat>) returns (count: nat)
    ensures count <= |l| && count <= |r| && l[..count] == r[..count]
    ensures count < |l| && count < |r| ==> l[count] != r[count]
  {
    var minSize := if |l| < |r| then |l| else |r|;
    count := 0;
    while count != minSize
      invariant count <= minSize && l[..count] == r[..count]
    {
      if l[count] != r[count] {
        return;
      }
      count := count + 1;
    }
  }

  // ---------------------------------------------------------------------- the loops

  /** Goes back from the last action, which is the previous landing pad's, to the last one
      that is shared; `sizeAction` is then the distance from there to the end. */
  method BackToShared(actions: seq<Entry>, prevIds: seq<nat>, numShared: nat)
    returns (prevAction: nat, sizeAction: nat)
    requires AllLinked(actions) && actions != [] && Path(actions, |actions| - 1) == prevIds
    requires 0 < numShared <= |prevIds|
    ensures prevAction < |actions| && Path(actions, prevAction) == prevIds[..numShared]
    ensures sizeAction == Offset(actions, |actions|) - Offset(actions, prevAction)
  {
    prevAction := |actions| - 1;
    var sizeNext := GetSLEB128Size(actions[prevAction].next);
    var sizeValue := GetSLEB128Size(actions[prevAction].value);
    var size: int := sizeNext + sizeValue;
    for j := numShared to |prevIds|
      invariant prevAction < |actions| && Path(actions, prevAction) == prevIds[..|prevIds| - (j - numShared)]
      invariant size == Offset(actions, |actions|) - Offset(actions, prevAction)
    {
      assert Linked(actions, prevAction);
      var action := actions[prevAction];
      var sizeTypeID := GetSLEB128Size(action.value);
      size := size - sizeTypeID - action.next;
      ghost var ids := Path(actions, prevAction);
      prevAction := action.previous.value;
      assert Path(actions, prevAction) == ids[..|ids| - 1];
    }
    OffsetGrows(actions, prevAction, |actions|);
    sizeAction := size;
  }

  lemma {:induction false} OffsetGrows(actions: seq<Entry>, k: nat, n: nat)
    requires k <= n <= |actions|
    ensures Offset(actions, k) + 2 * (n - k) <= Offset(actions, n)
    decreases n
  {
    if k < n { OffsetGrows(actions, k, n - 1); }
  }

  /** The actions so far end in one for `ids`, or `ids` is empty and nothing is shared. */
  ghost predicate Ready(actions: seq<Entry>, ids: seq<nat>, prevAction: Option<nat>, sizeAction: nat) {
    match prevAction
    case None => ids == [] && sizeAction == 0
    case Some(p) => p < |actions| && Path(actions, p) == ids
                    && sizeAction == Offset(actions, |actions|) - Offset(actions, p)
  }

  lemma LastOffset(table: seq<Entry>)
    requires table != []
    ensures Offset(table, |table|) == Offset(table, |table| - 1) + table[|table| - 1].Size()
  {
  }

  lemma AddedPath(actions: seq<Entry>, entry: Entry)
    requires entry.previous.Some? ==> entry.previous.value < |actions|
    ensures Path(actions + [entry], |actions|)
         == (if entry.previous.Some? then Path(actions, entry.previous.value) else []) + [entry.value]
  {
    if entry.previous.Some? { PathExtends(actions, [entry], entry.previous.value); }
  }

  /** One action more, as the loop adds it. */
  lemma Added(actions: seq<Entry>, ids: seq<nat>, prevAction: Option<nat>, sizeAction: nat, entry: Entry)
    requires AllLinked(actions) && Ready(actions, ids, prevAction, sizeAction)
    requires entry.previous == prevAction
    requires entry.next == if sizeAction > 0 then -(sizeAction + |EncodeS(entry.value)|) else 0
    ensures AllLinked(actions + [entry]) && Path(actions + [entry], |actions|) == ids + [entry.value]
    ensures Ready(actions + [entry], ids + [entry.value], Some(|actions|), entry.Size())
  {
    hide Path, Offset, EncodeS;
    var more := actions + [entry];
    AddedPath(actions, entry);
    LinkedExtends(actions, [entry]);
    OffsetExtends(actions, [entry], |actions|);
    LastOffset(more);
    if prevAction.Some? {
      OffsetExtends(actions, [entry], prevAction.value);
      OffsetGrows(actions, prevAction.value, |actions|);
    }
    assert Linked(more, |actions|);
  }

  /** The actions from `from` on stand for the beginnings of `ids` that are not shared. */
  ghost predicate NewPaths(table: seq<Entry>, from: nat, ids: seq<nat>, numShared: nat) {
    && |table| - from + numShared <= |ids|
    && forall e: nat | from <= e < |table| :: Path(table, e) == ids[..e - from + numShared + 1]
  }

  /** Appends the actions of a landing pad that are not shared. */
  method AddActions(actions: seq<Entry>, ids: seq<nat>, numShared: nat, prevAction: Option<nat>, sizeAction: nat)
    returns (table: seq<Entry>, lastSize: nat, sizeSiteActions: nat)
    requires AllLinked(actions) && numShared < |ids| && Ready(actions, ids[..numShared], prevAction, sizeAction)
    ensures AllLinked(table) && actions <= table && |table| == |actions| + |ids| - numShared
    ensures NewPaths(table, |actions|, ids, numShared) && Path(table, |table| - 1) == ids
    ensures Offset(actions, |actions|) + sizeSiteActions == Offset(table, |table|)
    ensures Offset(actions, |actions|) + sizeSiteActions - lastSize == Offset(table, |table| - 1)
  {
    hide Path, Offset, AllLinked, EncodeS;
    table, lastSize, sizeSiteActions := actions, sizeAction, 0;
    var previous := prevAction;
    for i := numShared to |ids|
      invariant AllLinked(table) && actions <= table && |table| == |actions| + i - numShared
      invariant Ready(table, ids[..i], previous, lastSize)
      invariant NewPaths(table, |actions|, ids, numShared)
      invariant i > numShared ==> lastSize == table[|table| - 1].Size()
      invariant Offset(actions, |actions|) + sizeSiteActions == Offset(table, |table|)
    {
      var sizeTypeID := GetSLEB128Size(ids[i]);
      var next := if lastSize > 0 then -(lastSize + sizeTypeID) else 0;
      var entry := Entry(ids[i], next, previous);
      Added(table, ids[..i], previous, lastSize, entry);
      Grown(table, entry, ids, |actions|, numShared, i);
      var sizeNext := GetSLEB128Size(next);
      lastSize := sizeTypeID + sizeNext;
      sizeSiteActions := sizeSiteActions + lastSize;
      table := table + [entry];
      previous := Some(|table| - 1);
      assert ids[..i] + [ids[i]] == ids[..i + 1];
    }
    assert ids[..|ids|] == ids;
    LastOffset(table);
  }

  lemma Grown(table: seq<Entry>, entry: Entry, ids: seq<nat>, from: nat, numShared: nat, i: nat)
    requires numShared <= i < |ids| && |table| == from + i - numShared && NewPaths(table, from, ids, numShared)
    requires Path(table + [entry], |table|) == ids[..i] + [ids[i]]
    ensures NewPaths(table + [entry], from, ids, numShared)
    ensures Offset(table + [entry], |table| + 1) == Offset(table, |table|) + entry.Size()
  {
    hide Path, Offset;
    OffsetExtends(table, [entry], |table|);
    LastOffset(table + [entry]);
    forall e: nat | from <= e <= |table| ensures Path(table + [entry], e) == ids[..e - from + numShared + 1] {
      if e < |table| {
        PathExtends(table, [entry], e);
      } else {
        assert ids[..i] + [ids[i]] == ids[..i + 1];
      }
    }
  }

  /** After the landing pads before `i`: the last action is that of the last of them, and
      `firstAction` is where it begins. */
  ghost predicate Latest(pads: seq<seq<nat>>, i: nat, actions: seq<Entry>, firstAction: nat)
    requires i <= |pads|
  {
    if i == 0 || pads[i - 1] == [] then actions == [] && firstAction == 0
    else actions != [] && Path(actions, |actions| - 1) == pads[i - 1] && firstAction == Offset(actions, |actions| - 1) + 1
  }

  ghost predicate Folding(pads: seq<seq<nat>>, i: nat, actions: seq<Entry>, firstActions: seq<nat>)
    requires i <= |pads|
  {
    TableOf(pads[..i], actions, firstActions) && Folded(actions) && Needed(pads[..i], actions)
  }

  /** What SharedTypeIds finds out about a landing pad and the one before it. */
  ghost predicate Shares(pads: seq<seq<nat>>, i: nat, numShared: nat)
    requires i < |pads|
  {
    var ids := pads[i];
    && numShared <= |ids|
    && if i == 0 then numShared == 0
       else
         var prev := pads[i - 1];
         && numShared <= |prev| && ids[..numShared] == prev[..numShared]
         && (numShared < |ids| && numShared < |prev| ==> ids[numShared] != prev[numShared])
  }

  /** A list longer than what is shared with the landing pad before is nobody's so far. */
  lemma NewList(pads: seq<seq<nat>>, i: nat, numShared: nat, q: seq<nat>)
    requires Sorted(pads) && i < |pads| && Shares(pads, i, numShared) && numShared < |q|
    requires Begins(q, pads[..i])
    ensures !(q <= pads[i])
  {
    if q <= pads[i] {
      var j: nat :| j < i && q <= pads[..i][j];
      BeginsBetween(q, pads[j], pads[i - 1], pads[i]);
    }
  }

  lemma BeginsLater(q: seq<nat>, pads: seq<seq<nat>>, i: nat)
    requires i < |pads| && (Begins(q, pads[..i]) || q <= pads[i])
    ensures Begins(q, pads[..i + 1])
  {
    if q <= pads[i] {
      assert q <= pads[..i + 1][i];
    } else {
      var j: nat :| j < i && q <= pads[..i][j];
      assert q <= pads[..i + 1][j];
    }
  }

  lemma TableExtends(pads: seq<seq<nat>>, actions: seq<Entry>, more: seq<Entry>, firstActions: seq<nat>)
    requires TableOf(pads, actions, firstActions) && AllLinked(actions + more)
    ensures TableOf(pads, actions + more, firstActions)
  {
    hide First, AllLinked;
    forall j | 0 <= j < |pads| ensures First(pads[j], actions + more, firstActions[j]) {
      FirstExtends(pads[j], actions, more, firstActions[j]);
    }
  }

  lemma OldPaths(pads: seq<seq<nat>>, actions: seq<Entry>, more: seq<Entry>)
    requires Needed(pads, actions) && Folded(actions)
    ensures forall e: nat | e < |actions| :: Begins(Path(actions + more, e), pads)
    ensures forall e: nat, f: nat | e < f < |actions| :: Path(actions + more, e) != Path(actions + more, f)
  {
    hide Path, Begins;
    forall e: nat | e < |actions| ensures Path(actions + more, e) == Path(actions, e) {
      PathExtends(actions, more, e);
    }
  }

  /** The appended actions are new and needed, and change nothing about the others. */
  lemma Appended(pads: seq<seq<nat>>, i: nat, before: seq<Entry>, table: seq<Entry>, firsts: seq<nat>, numShared: nat)
    requires Sorted(pads) && i < |pads| && Shares(pads, i, numShared) && numShared < |pads[i]|
    requires Folding(pads, i, before, firsts) && before <= table && AllLinked(table)
    requires NewPaths(table, |before|, pads[i], numShared)
    ensures TableOf(pads[..i], table, firsts) && Folded(table) && Needed(pads[..i + 1], table)
  {
    hide Path, Offset, AllLinked, AtMost, Begins, First;
    var more := table[|before|..];
    assert table == before + more;
    TableExtends(pads[..i], before, more, firsts);
    OldPaths(pads[..i], before, more);
    forall e: nat, f: nat | e < f < |table| ensures Path(table, e) != Path(table, f) {
      if e < |before| <= f && Path(table, e) == Path(table, f) {
        NewList(pads, i, numShared, Path(table, e));
      }
    }
    forall e: nat | e < |table| ensures Begins(Path(table, e), pads[..i + 1]) {
      BeginsLater(Path(table, e), pads, i);
    }
  }

  /** A landing pad with nothing of its own has the list of the one before it, or none. */
  lemma Reused(pads: seq<seq<nat>>, i: nat, actions: seq<Entry>, firstActions: seq<nat>, firstAction: nat)
    requires Sorted(pads) && i < |pads| && Shares(pads, i, |pads[i]|)
    requires Latest(pads, i, actions, firstAction) && Folding(pads, i, actions, firstActions)
    ensures Latest(pads, i + 1, actions, firstAction) && Needed(pads[..i + 1], actions)
  {
    hide Path, Offset, AtMost, TableOf, Folded, Begins;
    if i > 0 { BeginsPrevious(pads[i - 1], pads[i]); }
    forall e: nat | e < |actions| ensures Begins(Path(actions, e), pads[..i + 1]) {
      BeginsLater(Path(actions, e), pads, i);
    }
  }

  lemma NextPad(pads: seq<seq<nat>>, i: nat, actions: seq<Entry>, firstActions: seq<nat>, firstAction: nat)
    requires i < |pads| && TableOf(pads[..i], actions, firstActions) && Latest(pads, i + 1, actions, firstAction)
    ensures TableOf(pads[..i + 1], actions, firstActions + [firstAction])
  {
    forall j | 0 <= j <= i ensures First(pads[..i + 1][j], actions, (firstActions + [firstAction])[j]) {
      if j < i { assert First(pads[..i][j], actions, firstActions[j]); }
    }
  }

  lemma NoPads(pads: seq<seq<nat>>)
    ensures Latest(pads, 0, [], 0) && Folding(pads, 0, [], []) && Offset([], 0) == 0
  {
  }

  /** The actions table and the first action of each landing pad. */
  method ComputeActions(pads: seq<seq<nat>>) returns (actions: seq<Entry>, firstActions: seq<nat>)
    requires Sorted(pads)
    ensures TableOf(pads, actions, firstActions) && Folded(actions) && Needed(pads, actions)
  {
    hide Path, Offset, AtMost, AllLinked, Begins, First;
    actions, firstActions := [], [];
    var firstAction, sizeActions := 0, 0;
    NoPads(pads);
    for i := 0 to |pads|
      invariant Latest(pads, i, actions, firstAction) && Folding(pads, i, actions, firstActions)
      invariant sizeActions == Offset(actions, |actions|)
    {
      var typeIds := pads[i];
      var numShared := 0;
      if i > 0 {
        numShared := SharedTypeIds(typeIds, pads[i - 1]);
      }
      if numShared < |typeIds| {
        var prevAction, sizeAction := None, 0;
        if numShared > 0 {
          var p;
          p, sizeAction := BackToShared(actions, pads[i - 1], numShared);
          prevAction := Some(p);
        }
        ghost var before := actions;
        var sizeSiteActions;
        actions, sizeAction, sizeSiteActions := AddActions(actions, typeIds, numShared, prevAction, sizeAction);
        Appended(pads, i, before, actions, firstActions, numShared);
        firstAction := sizeActions + sizeSiteActions - sizeAction + 1;
        sizeActions := sizeActions + sizeSiteActions;
      } else {
        Reused(pads, i, actions, firstActions, firstAction);
      }
      NextPad(pads, i, actions, firstActions, firstAction);
      firstActions := firstActions + [firstAction];
    }
    assert pads[..|pads|] == pads;
  }

  /** The table as it is written. */
  method EmitActions(actions: seq<Entry>) returns (bs: seq<byte>)
    ensures bs == Bytes(actions)
  {
    bs := [];
    for i := 0 to |actions|
      invariant bs == Bytes(actions[..i])
    {
      var value := EmitSLEB128Bytes(actions[i].value);
      var next := EmitSLEB128Bytes(actions[i].next);
      assert actions[..i + 1][..i] == actions[..i];
      bs := bs + (value + next);
    }
    assert actions[..|actions|] == actions;
  }

  // ------------------------------------------------------------- what the table is

  /** Of an action for a list, what is tried after it is for the beginnings of the list. */
  lemma {:induction false} ActionFor(actions: seq<Entry>, e: nat, n: nat) returns (f: nat)
    requires e < |actions| && 0 < n <= |Path(actions, e)|
    ensures f < |actions| && Path(actions, f) == Path(actions, e)[..n]
    decreases e
  {
    if n == |Path(actions, e)| {
      f := e;
    } else {
      var p := actions[e].previous.value;
      f := ActionFor(actions, p, n);
      assert Path(actions, e)[..n] == Path(actions, p)[..n];
    }
  }

  lemma ListHasAction(pads: seq<seq<nat>>, actions: seq<Entry>, firstActions: seq<nat>, q: seq<nat>) returns (f: nat)
    requires TableOf(pads, actions, firstActions) && Begins(q, pads) && q != []
    ensures f < |actions| && Path(actions, f) == q
  {
    hide Path, Offset, AllLinked;
    var j: nat :| j < |pads| && q <= pads[j];
    assert First(pads[j], actions, firstActions[j]);
    var e: nat :| e < |actions| && Path(actions, e) == pads[j];
    f := ActionFor(actions, e, |q|);
  }

  /** There is one action for every list that begins a landing pad's, and there are no
      others. */
  lemma OneForEach(pads: seq<seq<nat>>, actions: seq<Entry>, firstActions: seq<nat>, q: seq<nat>)
    requires TableOf(pads, actions, firstActions) && Folded(actions) && Needed(pads, actions) && q != []
    ensures Begins(q, pads) <==> exists e: nat :: e < |actions| && Path(actions, e) == q
    ensures forall e: nat, f: nat | e < f < |actions| :: !(Path(actions, e) == q == Path(actions, f))
  {
    hide Path, Offset, Begins, TableOf;
    if Begins(q, pads) {
      var f := ListHasAction(pads, actions, firstActions, q);
    }
  }

  // -------------------------------------------------------------- what is read back

  lemma AtParts(mem: seq<byte>, pos: nat, a: seq<byte>, b: seq<byte>)
    requires At(mem, pos, a + b)
    ensures At(mem, pos, a) && At(mem, pos + |a|, b)
  {
    var w := mem[pos..pos + |a + b|];
    assert mem[pos..pos + |a|] == w[..|a|] == a;
    assert mem[pos + |a|..pos + |a| + |b|] == w[|a|..] == b;
  }

  lemma ActionReads(mem: seq<byte>, pos: nat, t: nat, disp: int)
    requires t < 0x8000_0000 && |EncodeS(disp)| <= 4 && At(mem, pos, EncodeS(t) + EncodeS(disp))
    ensures Link(mem, pos, t, if disp == 0 then None else Some(pos + |EncodeS(t)| + disp))
  {
    hide EncodeS, ReadS;
    Powers();
    LengthS(disp, 4);
    AtParts(mem, pos, EncodeS(t), EncodeS(disp));
    RoundTripS(mem, pos, t);
    RoundTripS(mem, pos + |EncodeS(t)|, disp);
  }

  /** Each action's bytes are where its offset says. */
  lemma {:induction false} ActionBytes(mem: seq<byte>, pos: nat, actions: seq<Entry>, k: nat)
    requires k < |actions| && At(mem, pos, Bytes(actions))
    ensures At(mem, pos + Offset(actions, k), actions[k].Bytes())
    decreases |actions|
  {
    hide EncodeS;
    var init, last := actions[..|actions| - 1], actions[|actions| - 1];
    BytesOffset(init);
    AtParts(mem, pos, Bytes(init), last.Bytes());
    OffsetExtends(init, [last], k);
    assert actions == init + [last];
    if k < |init| { ActionBytes(mem, pos, init, k); }
  }

  lemma {:induction false} BytesOffset(actions: seq<Entry>)
    ensures |Bytes(actions)| == Offset(actions, |actions|)
    decreases |actions|
  {
    if actions != [] {
      var init, last := actions[..|actions| - 1], actions[|actions| - 1];
      BytesOffset(init);
      OffsetExtends(init, [last], |init|);
      assert actions == init + [last];
    }
  }

  function Reversed(ids: seq<nat>): seq<nat> {
    seq(|ids|, k requires 0 <= k < |ids| => ids[|ids| - 1 - k])
  }

  function Push(pos: nat, id: nat, c: Chain): Chain {
    Chain([pos] + c.at, [id] + c.ids)
  }

  /** The chain that begins with action `k`, once the table is at `pos`. */
  function ChainOf(actions: seq<Entry>, pos: nat, k: nat): Chain
    requires k < |actions|
  {
    var here := pos + Offset(actions, k);
    match actions[k].previous
    case Some(p) => if p < k then Push(here, actions[k].value, ChainOf(actions, pos, p)) else Chain([here], [actions[k].value])
    case None => Chain([here], [actions[k].value])
  }

  /** It is the list the action stands for, last type id first. */
  lemma {:induction false} ChainIds(actions: seq<Entry>, pos: nat, k: nat)
    requires k < |actions|
    ensures ChainOf(actions, pos, k).ids == Reversed(Path(actions, k))
    decreases k
  {
    if actions[k].previous.Some? && actions[k].previous.value < k { ChainIds(actions, pos, actions[k].previous.value); }
  }

  lemma PushedChain(mem: seq<byte>, pos: nat, id: nat, c: Chain)
    requires |c.at| > 0 && ChainAt(mem, c.at[0], c) && Link(mem, pos, id, Some(c.at[0]))
    ensures ChainAt(mem, pos, Push(pos, id, c))
  {
    hide Link;
    var d := Push(pos, id, c);
    forall k | 0 <= k < |d.at| ensures LinkAt(mem, d, k) {
      if k > 0 {
        assert LinkAt(mem, c, k - 1);
      }
    }
  }

  lemma LastInChain(mem: seq<byte>, pos: nat, id: nat)
    requires Link(mem, pos, id, None)
    ensures ChainAt(mem, pos, Chain([pos], [id]))
  {
    assert LinkAt(mem, Chain([pos], [id]), 0);
  }

  ghost predicate SmallIds(ids: seq<nat>) {
    forall k | 0 <= k < |ids| :: ids[k] < 0x8000_0000
  }

  /** No displacement leads out of the table, so that a table below 2^27 bytes has only
      such as are read back. */
  lemma SmallDisplacement(actions: seq<Entry>, k: nat)
    requires k < |actions| && Linked(actions, k) && Offset(actions, |actions|) <= 0x800_0000
    ensures |EncodeS(actions[k].next)| <= 4 && (actions[k].previous.Some? ==> actions[k].next < 0)
  {
    hide EncodeS;
    Powers();
    LengthS(actions[k].next, 4);
    OffsetGrows(actions, k + 1, |actions|);
    if actions[k].previous.Some? { OffsetGrows(actions, actions[k].previous.value, k); }
  }

  /** From each action the reader follows its chain, whatever other chains share of it. */
  lemma {:induction false} ChainReads(mem: seq<byte>, pos: nat, actions: seq<Entry>, k: nat)
    requires k < |actions| && AllLinked(actions) && SmallIds(Path(actions, k))
    requires At(mem, pos, Bytes(actions)) && |Bytes(actions)| <= 0x800_0000
    ensures ChainAt(mem, pos + Offset(actions, k), ChainOf(actions, pos, k))
    decreases k
  {
    hide EncodeS, ReadS, ChainAt, Bytes, Offset, SmallIds;
    var action, here := actions[k], pos + Offset(actions, k);
    BytesOffset(actions);
    assert Linked(actions, k);
    SmallDisplacement(actions, k);
    ActionBytes(mem, pos, actions, k);
    SmallLast(Path(actions, k));
    ActionReads(mem, here, action.value, action.next);
    if action.previous.Some? {
      var p := action.previous.value;
      ChainReads(mem, pos, actions, p);
      PushedChain(mem, here, action.value, ChainOf(actions, pos, p));
    } else {
      LastInChain(mem, here, action.value);
    }
  }

  lemma SmallLast(ids: seq<nat>)
    requires ids != [] && SmallIds(ids)
    ensures ids[|ids| - 1] < 0x8000_0000 && SmallIds(ids[..|ids| - 1])
  {
  }
}
